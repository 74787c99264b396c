/** What each request leaves behind when its call runs whole: who is answered what, and the whole new state, said
    row by row and without the use cases' own steps. */
module Effects {
  import opened Domain
  import opened Store
  import opened Atomic
  import Reuse

  // ----- the vocabulary -----

  /** Exactly the rows that `hit` picks are revoked, those not revoked before with this reason and instant; nothing
      else about any row changes. */
  ghost predicate Revokes(tokens: Tokens, tokens': Tokens, hit: RefreshToken -> bool, reason: RevokeReason, at: Time) {
    && tokens'.Keys == tokens.Keys
    && forall i :: i in tokens ==>
         && tokens'[i] == tokens[i].(revoked := tokens'[i].revoked)
         && tokens'[i].revoked ==
            (if hit(tokens[i]) && tokens[i].revoked.None? then Some(Revocation(at, reason)) else tokens[i].revoked)
  }

  function InSession(session: Id): RefreshToken -> bool { (row: RefreshToken) => row.session == session }
  function OfUser(user: Id): RefreshToken -> bool { (row: RefreshToken) => row.user == user }

  /** A call that changes no table only uses up its number. */
  predicate Nothing(st: State, st': State) { st' == st.(next := st.next + 1) }

  predicate OnlyRows(st: State, st': State) { st' == st.(tokens := st'.tokens, next := st.next + 1) }

  /** The account may log in at this instant: it exists, is active, and no lock is running. */
  predicate Fit(users: Users, user: Id, now: Time) {
    && user in users && users[user].status == Active
    && (users[user].lockedUntil.Some? ==> users[user].lockedUntil.value <= now)
  }

  /** Pair n, signed for the user with the role the user's row has, and its row. */
  ghost predicate Hands(cfg: Config, st: State, st': State, n: Id, user: Id, session: Id, parent: Option<Id>, now: Time)
    requires user in st.users
  {
    && n in st'.tokens && n in st'.issued
    && st'.tokens[n] == RefreshToken(user, session, now + cfg.refreshTTL, None, None, None)
    && st'.issued == st.issued[n := st'.issued[n]]
    && st'.issued[n].at == now && st'.issued[n].parent == parent
    && st'.issued[n].claims == Claims(user, st.users[user].role, session, NumericDate(now + cfg.accessTTL))
  }

  predicate Known(st: State, email: string) {
    email in st.byEmail && st.byEmail[email] in st.users
  }

  // ----- login -----

  /** A login is granted exactly to a known address with the right password whose account may log in. */
  lemma LoginIff(cfg: Config, st: State, email: string, check: PasswordCheck, now: Time)
    ensures Serve(cfg, st, Login(email, check), now).reply.Issued?
            <==> Known(st, email) && check == Match && Fit(st.users, st.byEmail[email], now)
  {
  }

  /** A granted login signs the address's user with that user's current role, opens a session of its own, clears the
      counter and the lock, and touches no other user or row. */
  lemma LoginLeaves(cfg: Config, st: State, email: string, check: PasswordCheck, now: Time)
    requires Serve(cfg, st, Login(email, check), now).reply.Issued?
    ensures var r := Serve(cfg, st, Login(email, check), now);
            var u := st.byEmail[email];
            && r.reply == Issued(st.next) && u in st.users && u in r.state.users
            && Hands(cfg, st, r.state, st.next, u, st.next, None, now)
            && r.state.tokens == st.tokens[st.next := r.state.tokens[st.next]]
            && r.state.users == st.users[u := r.state.users[u]]
            && r.state.users[u] == User(st.users[u].role, Active, 0, None, Some(now))
            && r.state == st.(users := r.state.users, tokens := r.state.tokens, issued := r.state.issued, next := st.next + 1)
  {
  }

  /** A refused login: a wrong password counts one failure of that user and may set a lock; nothing else changes
      anything. Unknown address, wrong password and suspended account get the same answer. */
  lemma LoginRefused(cfg: Config, st: State, email: string, check: PasswordCheck, now: Time)
    requires !Serve(cfg, st, Login(email, check), now).reply.Issued?
    ensures var r := Serve(cfg, st, Login(email, check), now);
            && (!Known(st, email) || check != Mismatch ==> Nothing(st, r.state))
            && (!Known(st, email) || check == Mismatch ==> r.reply == Failed(InvalidCredentials))
            && (Known(st, email) && check == BrokenHash ==> r.reply == Failed(Internal))
            && (Known(st, email) && check == Match ==>
                  r.reply == Failed(if st.users[st.byEmail[email]].IsLocked(now) then AccountLocked else InvalidCredentials))
            && (Known(st, email) && check == Mismatch ==>
                  var u := st.byEmail[email];
                  && r.state == st.(users := r.state.users, next := st.next + 1)
                  && u in r.state.users && r.state.users == st.users[u := r.state.users[u]]
                  && r.state.users[u] == st.users[u].(failedAttempts := st.users[u].failedAttempts + 1,
                                                      lockedUntil := r.state.users[u].lockedUntil)
                  && r.state.users[u].lockedUntil == (if st.users[u].failedAttempts + 1 >= cfg.maxFailed
                                                      then Some(now + cfg.lockout) else st.users[u].lockedUntil))
  {
  }

  // ----- refresh -----

  /** A refresh is granted exactly for a stored token that is unexpired, unused and unrevoked, of a user who may log in. */
  lemma RefreshIff(cfg: Config, st: State, raw: Id, now: Time)
    ensures Serve(cfg, st, Refresh(raw), now).reply.Issued?
            <==> raw in st.tokens && st.tokens[raw].IsUsable(now) && Fit(st.users, st.tokens[raw].user, now)
  {
  }

  /** A granted refresh signs the row's user with that user's current role in the row's session, adds one row and marks
      the presented one with it; nothing else changes. */
  lemma RefreshLeaves(cfg: Config, st: State, raw: Id, now: Time)
    requires Serve(cfg, st, Refresh(raw), now).reply.Issued? && st.next !in st.tokens
    ensures var r := Serve(cfg, st, Refresh(raw), now);
            var row := st.tokens[raw];
            && r.reply == Issued(st.next) && row.user in st.users
            && Hands(cfg, st, r.state, st.next, row.user, row.session, Some(raw), now)
            && r.state.tokens == st.tokens[st.next := r.state.tokens[st.next]][raw := r.state.tokens[raw]]
            && r.state.tokens[raw] == row.(usedAt := Some(now), replacedBy := Some(st.next))
            && r.state == st.(tokens := r.state.tokens, issued := r.state.issued, next := st.next + 1)
  {
  }

  lemma ReuseCloses(cfg: Config, st: State, raw: Id, now: Time)
    requires raw in st.tokens && (st.tokens[raw].IsUsed() || st.tokens[raw].IsRevoked())
    ensures Revokes(st.tokens, Serve(cfg, st, Refresh(raw), now).state.tokens, InSession(st.tokens[raw].session), TokenReuse, now)
  {
  }

  lemma BarredCloses(cfg: Config, st: State, raw: Id, now: Time)
    requires raw in st.tokens && st.tokens[raw].IsUsable(now)
    requires st.tokens[raw].user in st.users && !Fit(st.users, st.tokens[raw].user, now)
    ensures Revokes(st.tokens, Serve(cfg, st, Refresh(raw), now).state.tokens, InSession(st.tokens[raw].session), UserDisabled, now)
  {
  }

  /** What each refusal does: an unknown or expired token, or a user who is gone, changes nothing; a spent token closes
      its session as reused; a user who may not log in has the session closed as disabled. */
  lemma RefreshRefused(cfg: Config, st: State, raw: Id, now: Time)
    requires !Serve(cfg, st, Refresh(raw), now).reply.Issued?
    ensures var r := Serve(cfg, st, Refresh(raw), now);
            if raw !in st.tokens then r.reply == Failed(Unauthenticated) && Nothing(st, r.state)
            else
              var row := st.tokens[raw];
              if row.IsUsed() || row.IsRevoked() then
                && r.reply == Failed(SessionRevoked) && OnlyRows(st, r.state)
                && Revokes(st.tokens, r.state.tokens, InSession(row.session), TokenReuse, now)
              else if row.IsExpired(now) || row.user !in st.users then
                r.reply == Failed(Unauthenticated) && Nothing(st, r.state)
              else
                && r.reply == Failed(Unauthenticated) && OnlyRows(st, r.state)
                && Revokes(st.tokens, r.state.tokens, InSession(row.session), UserDisabled, now)
  {
    RefreshIff(cfg, st, raw, now);
    if raw in st.tokens {
      var row := st.tokens[raw];
      if row.IsUsed() || row.IsRevoked() {
        ReuseCloses(cfg, st, raw, now);
      } else if !row.IsExpired(now) && row.user in st.users {
        BarredCloses(cfg, st, raw, now);
      }
    }
  }

  // ----- logout -----

  /** Every stored row and every issued pair has a session. */
  ghost predicate Sessioned(st: State) {
    && st.next > NIL
    && (forall i :: i in st.tokens ==> st.tokens[i].session != NIL)
    && (forall n :: n in st.issued ==> st.issued[n].claims.session != NIL)
  }

  lemma SessionedStep(cfg: Config, st: State, e: Event)
    requires Sessioned(st)
    ensures Sessioned(Apply(cfg, st, e))
  {
    if e.Called? {
      forall i
        ensures i in Apply(cfg, st, e).tokens ==> Apply(cfg, st, e).tokens[i].session != NIL
      {
        Reuse.CallRow(cfg, st, e.req, e.now, i);
      }
      Reuse.CallPairs(cfg, st, e.req, e.now);
    }
  }

  lemma {:induction false} SessionedRun(cfg: Config, st: State, events: seq<Event>)
    requires Sessioned(st)
    ensures Sessioned(Run(cfg, st, events))
    decreases |events|
  {
    if events != [] {
      SessionedStep(cfg, st, events[0]);
      SessionedRun(cfg, Apply(cfg, st, events[0]), events[1..]);
    }
  }

  /** The session a logout is about: its cookie's if that is stored, otherwise its claims', otherwise none. */
  ghost predicate IsAbout(st: State, cookie: Option<Id>, jti: Option<Id>, session: Id) {
    if cookie.Some? && cookie.value in st.tokens then session == st.tokens[cookie.value].session
    else jti.Some? && jti.value in st.issued && session == st.issued[jti.value].claims.session
  }

  predicate IsAboutNothing(st: State, cookie: Option<Id>, jti: Option<Id>) {
    (cookie.Some? ==> cookie.value !in st.tokens) && (jti.Some? ==> jti.value !in st.issued)
  }

  lemma LogoutTouches(cfg: Config, st: State, cookie: Option<Id>, jti: Option<Id>, now: Time)
    ensures var r := Serve(cfg, st, Logout(cookie, jti), now);
            r.reply == Done && r.state == st.(tokens := r.state.tokens, listed := r.state.listed, next := st.next + 1)
  {
  }

  lemma LogoutCloses(cfg: Config, st: State, cookie: Option<Id>, jti: Option<Id>, now: Time, session: Id)
    requires Sessioned(st) && IsAbout(st, cookie, jti, session)
    ensures Revokes(st.tokens, Serve(cfg, st, Logout(cookie, jti), now).state.tokens, InSession(session), LoggedOut, now)
  {
    assert session != NIL;
  }

  lemma LogoutOfNothing(cfg: Config, st: State, cookie: Option<Id>, jti: Option<Id>, now: Time)
    requires IsAboutNothing(st, cookie, jti)
    ensures Serve(cfg, st, Logout(cookie, jti), now).state.tokens == st.tokens
  {
  }

  /** In every reachable state, a logout closes exactly the session it is about, and without one touches no row;
      it always answers Done, and hands out nothing. */
  lemma LogoutLeaves(cfg: Config, init: State, events: seq<Event>, cookie: Option<Id>, jti: Option<Id>, now: Time)
    requires Initial(init)
    ensures var st := Run(cfg, init, events);
            var r := Serve(cfg, st, Logout(cookie, jti), now);
            && r.reply == Done
            && r.state == st.(tokens := r.state.tokens, listed := r.state.listed, next := st.next + 1)
            && (forall session :: IsAbout(st, cookie, jti, session) ==>
                  Revokes(st.tokens, r.state.tokens, InSession(session), LoggedOut, now))
            && (IsAboutNothing(st, cookie, jti) ==> r.state.tokens == st.tokens)
  {
    SessionedRun(cfg, init, events);
    var st := Run(cfg, init, events);
    LogoutTouches(cfg, st, cookie, jti, now);
    forall session | IsAbout(st, cookie, jti, session)
      ensures Revokes(st.tokens, Serve(cfg, st, Logout(cookie, jti), now).state.tokens, InSession(session), LoggedOut, now)
    {
      LogoutCloses(cfg, st, cookie, jti, now, session);
    }
    if IsAboutNothing(st, cookie, jti) {
      LogoutOfNothing(cfg, st, cookie, jti, now);
    }
  }

  /** Logging out everywhere revokes exactly the user's rows and changes nothing else. */
  lemma LogoutAllLeaves(cfg: Config, st: State, user: Id, now: Time)
    ensures var r := Serve(cfg, st, LogoutAll(user), now);
            && r.reply == Done && OnlyRows(st, r.state)
            && Revokes(st.tokens, r.state.tokens, OfUser(user), LoggedOutAll, now)
  {
  }

  // ----- the team -----

  predicate Colleague(users: Users, member: Id) { member in users && users[member].role != Owner }

  /** Revoking somebody's access is done exactly for a member who is no owner. It then leaves the member suspended and
      all their tokens revoked, and every other user and row as it was; refused, it changes nothing. */
  lemma RevokeLeaves(cfg: Config, st: State, member: Id, now: Time)
    ensures var r := Serve(cfg, st, Revoke(member), now);
            && (r.reply == Done <==> Colleague(st.users, member))
            && (Colleague(st.users, member) ==>
                  && member in r.state.users && r.state.users == st.users[member := r.state.users[member]]
                  && r.state.users[member] == st.users[member].(status := Suspended)
                  && Revokes(st.tokens, r.state.tokens, OfUser(member), UserDisabled, now)
                  && r.state == st.(users := r.state.users, tokens := r.state.tokens, next := st.next + 1))
            && (!Colleague(st.users, member) ==>
                  Nothing(st, r.state) && r.reply == Failed(if member in st.users then Forbidden else NotFound))
  {
  }

  /** A role change is done exactly for a role other than owner and a member who is no owner. It then leaves that member
      with that role and nothing else changed; refused, it changes nothing. */
  lemma UpdateRoleLeaves(cfg: Config, st: State, member: Id, role: Role, now: Time)
    ensures var r := Serve(cfg, st, UpdateRole(member, role), now);
            && (r.reply == Done <==> role != Owner && Colleague(st.users, member))
            && (r.reply == Done ==>
                  && member in r.state.users && r.state.users == st.users[member := r.state.users[member]]
                  && r.state.users[member] == st.users[member].(role := role)
                  && r.state == st.(users := r.state.users, next := st.next + 1))
            && (r.reply != Done ==>
                  && Nothing(st, r.state)
                  && r.reply == Failed(if role == Owner then Invalid else if member in st.users then Forbidden else NotFound))
  {
  }
}
