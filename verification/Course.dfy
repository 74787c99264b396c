/** Interleaved calls: what a request must have done by the time it answers, whatever ran in between. */
module Course {
  import opened Domain
  import opened Store
  import opened Machine
  import opened Invariant
  import opened Origin
  import Gate
  import Rotation
  import SessionClose
  import Suspension

  /** The k-th action of the run executes this statement of call c. */
  ghost predicate Executes(cfg: Config, init: Sys, acts: seq<Action>, k: nat, c: Id, call: Call) {
    && k < |acts| && acts[k] == Advance(c)
    && c in StateAt(cfg, init, acts, k).calls && StateAt(cfg, init, acts, k).calls[c] == call
  }

  lemma ExecutesStays(cfg: Config, init: Sys, acts: seq<Action>, a: Action, k: nat, c: Id, call: Call)
    requires Executes(cfg, init, acts, k, c, call)
    ensures Executes(cfg, init, acts + [a], k, c, call)
  {
    SameStates(cfg, init, acts, a, k);
  }

  /** Call c is answered by its next statement. */
  predicate Answers(cfg: Config, s: Sys, c: Id, reply: Reply) {
    c in s.calls && Exec(cfg, s.st, s.clock, c, s.calls[c]).progress == Ends(reply)
  }

  /** The run begins by accepting the request as call c. */
  ghost predicate Accepts(init: Sys, acts: seq<Action>, req: Request, c: Id) {
    acts != [] && acts[0] == Begin(req) && c == init.st.next
  }

  /** A statement that belongs to a request of the team, or to logging out everywhere. */
  predicate StageOf(req: Request, call: Call) {
    match req
    case Revoke(member) =>
      || call == RevokeBegun(member)
      || (call.RevokeSuspending? && call.member == member)
      || (call.RevokeClosing? && call.member == member)
    case UpdateRole(member, role) => call == RoleBegun(member, role) || call == RoleSetting(member, role)
    case LogoutAll(user) => call.LogoutAllBegun? && call.id == user
    case _ => false
  }

  predicate Followed(req: Request) { req.Revoke? || req.UpdateRole? || req.LogoutAll? }

  ghost predicate Suspended(cfg: Config, init: Sys, acts: seq<Action>, c: Id, member: Id) {
    exists k: nat, now: Time :: Executes(cfg, init, acts, k, c, RevokeSuspending(now, member))
  }

  /** Where call c stands in its request. */
  ghost predicate OnCourse(cfg: Config, init: Sys, acts: seq<Action>, req: Request, c: Id) {
    var s := Run(cfg, init, acts);
    && c < s.st.next
    && (c in s.calls ==>
          && StageOf(req, s.calls[c])
          && (s.calls[c].RevokeClosing? ==> Suspended(cfg, init, acts, c, s.calls[c].member)))
  }

  lemma CourseStep(cfg: Config, init: Sys, acts: seq<Action>, a: Action, req: Request, c: Id)
    requires Inv(cfg, Run(cfg, init, acts)) && Followed(req) && OnCourse(cfg, init, acts, req, c)
    ensures OnCourse(cfg, init, acts + [a], req, c)
  {
    var s := Run(cfg, init, acts);
    RunSnoc(cfg, init, acts, a);
    NextGrows(cfg, s, a);
    var s' := Next(cfg, s, a);
    if c in s'.calls {
      if a == Advance(c) && c in s.calls {
        StageStep(cfg, s, req, c);
        if s.calls[c].RevokeSuspending? {
          LastIsAState(cfg, init, acts);
          SameStates(cfg, init, acts, a, |acts|);
          assert Executes(cfg, init, acts + [a], |acts|, c, s.calls[c]);
        }
      } else if s.calls[c].RevokeClosing? {
        var k: nat, now: Time :| Executes(cfg, init, acts, k, c, RevokeSuspending(now, s.calls[c].member));
        ExecutesStays(cfg, init, acts, a, k, c, RevokeSuspending(now, s.calls[c].member));
      }
    }
  }

  lemma NextGrows(cfg: Config, s: Sys, a: Action)
    requires Inv(cfg, s)
    ensures Next(cfg, s, a).st.next >= s.st.next
    ensures forall c :: c < s.st.next && c in Next(cfg, s, a).calls ==>
              c in s.calls && (a != Advance(c) ==> Next(cfg, s, a).calls[c] == s.calls[c])
  {
    if a.Advance? && a.n in s.calls && IsQuiet(s.calls[a.n]) {
      QuietStatement(cfg, s, a.n);
    }
  }

  lemma StageStep(cfg: Config, s: Sys, req: Request, c: Id)
    requires Followed(req) && c in s.calls && StageOf(req, s.calls[c])
    ensures var s' := Next(cfg, s, Advance(c));
            c in s'.calls ==>
              && StageOf(req, s'.calls[c])
              && (s'.calls[c].RevokeClosing? ==> s.calls[c].RevokeSuspending? && s.calls[c].member == s'.calls[c].member)
  {
  }

  lemma {:induction false} CourseAlong(cfg: Config, init: Sys, acts: seq<Action>, req: Request, c: Id)
    requires Inv(cfg, init) && Followed(req) && Accepts(init, acts, req, c)
    ensures OnCourse(cfg, init, acts, req, c) && Inv(cfg, Run(cfg, init, acts))
    decreases |acts|
  {
    KeptAlong(cfg, init, acts);
    var before, a := acts[..|acts| - 1], acts[|acts| - 1];
    assert acts == before + [a];
    if before == [] {
      RunSnoc(cfg, init, [], a);
      assert [] + [a] == acts;
    } else {
      CourseAlong(cfg, init, before, req, c);
      CourseStep(cfg, init, before, a, req, c);
    }
  }

  // ----- revoking somebody's access -----

  /** In any reachable state and any interleaving, a Revoke request that answers Done has executed the status update of
      that member, and with its answer revokes all of that member's tokens. */
  lemma RevokeDoesBoth(cfg: Config, init: Sys, acts: seq<Action>, member: Id, c: Id)
    requires Inv(cfg, init) && Accepts(init, acts, Revoke(member), c) && Answers(cfg, Run(cfg, init, acts), c, Done)
    ensures Suspended(cfg, init, acts, c, member)
    ensures SessionClose.ClosesAllOf(Run(cfg, init, acts).calls[c]) == Some(member)
  {
    CourseAlong(cfg, init, acts, Revoke(member), c);
  }

  /** ... hence, whatever happens afterwards: from one access-token life after the answer no request of that member is
      admitted, and every unrevoked row of theirs is of a session opened since, or descends from a refresh that was
      half-way at the answer. */
  lemma RevokedForGood(cfg: Config, init: Sys, acts: seq<Action>, member: Id, c: Id, later: seq<Action>, token: Option<Id>,
                       redisUp: bool, at: Time)
    requires Inv(cfg, init) && Accepts(init, acts, Revoke(member), c) && Answers(cfg, Run(cfg, init, acts), c, Done)
    requires at >= Run(cfg, init, acts).clock + cfg.accessTTL
    ensures var s := Run(cfg, init, acts);
            var end := Run(cfg, Next(cfg, s, Advance(c)), later);
            var v := Gate.Auth(end.st, token, redisUp, at);
            && (v.Admitted? ==> v.claims.user != member)
            && (forall i :: i in end.st.tokens && end.st.tokens[i].user == member ==>
                  || end.st.tokens[i].IsRevoked()
                  || end.st.tokens[i].session !in s.st.issued
                  || SessionClose.Descends(end.st.issued, i, SessionClose.Movers(s, end.st.tokens[i].session)))
  {
    RevokeDoesBoth(cfg, init, acts, member, c);
    CourseAlong(cfg, init, acts, Revoke(member), c);
    var s := Run(cfg, init, acts);
    SessionClose.AfterRevokeAll(cfg, s, c, member, later);
    var k: nat, now: Time :| Executes(cfg, init, acts, k, c, RevokeSuspending(now, member));
    var mid := StateAt(cfg, init, acts, k);
    KeptAlong(cfg, init, acts[..k]);
    var rest := acts[k + 1..] + ([Advance(c)] + later);
    RunFrom(cfg, init, acts, k, c, later);
    ClockAlong(cfg, mid, acts[k..]);
    Suspension.NoAccessAfterSuspension(cfg, mid, c, member, rest, token, redisUp, at);
  }

  /** A run split at the action that executes a statement. */
  lemma RunFrom(cfg: Config, init: Sys, acts: seq<Action>, k: nat, c: Id, later: seq<Action>)
    requires k < |acts| && acts[k] == Advance(c)
    ensures var mid := StateAt(cfg, init, acts, k);
            && Run(cfg, mid, acts[k..]) == Run(cfg, init, acts)
            && Run(cfg, Next(cfg, mid, Advance(c)), acts[k + 1..] + ([Advance(c)] + later))
               == Run(cfg, Next(cfg, Run(cfg, init, acts), Advance(c)), later)
  {
    var mid := StateAt(cfg, init, acts, k);
    assert acts == acts[..k] + acts[k..];
    RunSplit(cfg, init, acts[..k], acts[k..]);
    assert acts[k..][1..] == acts[k + 1..];
    RunSplit(cfg, Next(cfg, mid, Advance(c)), acts[k + 1..], [Advance(c)] + later);
    assert ([Advance(c)] + later)[1..] == later;
  }

  lemma {:induction false} ClockAlong(cfg: Config, s: Sys, acts: seq<Action>)
    ensures s.clock <= Run(cfg, s, acts).clock
    decreases |acts|
  {
    if acts != [] {
      ClockAlong(cfg, Next(cfg, s, acts[0]), acts[1..]);
    }
  }

  // ----- logging out everywhere, changing a role -----

  /** A LogoutAll request revokes with its answer all tokens of the user it names. */
  lemma LogoutAllDoes(cfg: Config, init: Sys, acts: seq<Action>, user: Id, c: Id, reply: Reply)
    requires Inv(cfg, init) && Accepts(init, acts, LogoutAll(user), c) && Answers(cfg, Run(cfg, init, acts), c, reply)
    ensures reply == Done && SessionClose.ClosesAllOf(Run(cfg, init, acts).calls[c]) == Some(user)
  {
    CourseAlong(cfg, init, acts, LogoutAll(user), c);
  }

  /** An UpdateRole request that answers Done leaves with its answer exactly the requested role on exactly that member. */
  lemma UpdateRoleDoes(cfg: Config, init: Sys, acts: seq<Action>, member: Id, role: Role, c: Id)
    requires Inv(cfg, init) && Accepts(init, acts, UpdateRole(member, role), c)
    requires Answers(cfg, Run(cfg, init, acts), c, Done)
    ensures var s := Run(cfg, init, acts);
            var users := Next(cfg, s, Advance(c)).st.users;
            && member in s.st.users && member in users && role != Owner
            && users == s.st.users[member := users[member]] && users[member] == s.st.users[member].(role := role)
  {
    CourseAlong(cfg, init, acts, UpdateRole(member, role), c);
    assert CallFine(Run(cfg, init, acts).st.issued, Run(cfg, init, acts).st.next, Run(cfg, init, acts).clock, c,
                    Run(cfg, init, acts).calls[c]);
    NotOwner(cfg, init, acts, member, role, c);
  }

  /** A request to make somebody owner is refused before its first statement. */
  lemma {:induction false} NotOwner(cfg: Config, init: Sys, acts: seq<Action>, member: Id, role: Role, c: Id)
    requires Inv(cfg, init) && Accepts(init, acts, UpdateRole(member, role), c) && c in Run(cfg, init, acts).calls
    ensures role != Owner
    decreases |acts|
  {
    var before, a := acts[..|acts| - 1], acts[|acts| - 1];
    assert acts == before + [a];
    RunSnoc(cfg, init, before, a);
    if before == [] {
      NextGrows(cfg, init, a);
      assert init.st.next in init.calls ==> CallFine(init.st.issued, init.st.next, init.clock, c, init.calls[c]);
    } else {
      CourseAlong(cfg, init, before, UpdateRole(member, role), c);
      NextGrows(cfg, Run(cfg, init, before), a);
      NotOwner(cfg, init, before, member, role, c);
    }
  }

  // ----- logging out -----

  /** Between the k-th action and now, call c has executed RevokeSession of this session. */
  ghost predicate ClosedSince(cfg: Config, init: Sys, acts: seq<Action>, k: nat, c: Id, session: Id) {
    exists j: nat, now: Time, jti: Option<Id> ::
      k < j && Executes(cfg, init, acts, j, c, LogoutClosing(now, session, jti))
  }

  /** The k-th action is the read of a logout's cookie, which finds a stored row of this session. */
  ghost predicate ReadsCookie(cfg: Config, init: Sys, acts: seq<Action>, k: nat, c: Id, cookie: Id, session: Id) {
    exists now: Time, jti: Option<Id> ::
      && Executes(cfg, init, acts, k, c, LogoutBegun(now, Some(cookie), jti))
      && cookie in StateAt(cfg, init, acts, k).st.tokens
      && StateAt(cfg, init, acts, k).st.tokens[cookie].session == session
  }

  ghost predicate AboutToClose(cfg: Config, init: Sys, acts: seq<Action>, k: nat, c: Id, session: Id) {
    var s := Run(cfg, init, acts);
    && c < s.st.next
    && (c in s.calls ==>
          (s.calls[c].LogoutClosing? && s.calls[c].session == session) || ClosedSince(cfg, init, acts, k, c, session))
  }

  lemma AboutToCloseStep(cfg: Config, init: Sys, acts: seq<Action>, a: Action, k: nat, c: Id, session: Id)
    requires Inv(cfg, Run(cfg, init, acts)) && k < |acts| && AboutToClose(cfg, init, acts, k, c, session)
    ensures AboutToClose(cfg, init, acts + [a], k, c, session)
  {
    var s := Run(cfg, init, acts);
    RunSnoc(cfg, init, acts, a);
    NextGrows(cfg, s, a);
    if c in s.calls {
      if ClosedSince(cfg, init, acts, k, c, session) {
        var j: nat, now: Time, jti: Option<Id> :|
          k < j && Executes(cfg, init, acts, j, c, LogoutClosing(now, session, jti));
        ExecutesStays(cfg, init, acts, a, j, c, LogoutClosing(now, session, jti));
      } else if a == Advance(c) {
        LastIsAState(cfg, init, acts);
        SameStates(cfg, init, acts, a, |acts|);
        assert Executes(cfg, init, acts + [a], |acts|, c, LogoutClosing(s.calls[c].now, session, s.calls[c].jti));
      }
    }
  }

  /** Reading a stored cookie leads straight to closing its session. */
  lemma CookieLeads(cfg: Config, s: Sys, c: Id, cookie: Id)
    requires Inv(cfg, s) && c in s.calls && s.calls[c].LogoutBegun? && s.calls[c].cookie == Some(cookie)
    requires cookie in s.st.tokens
    ensures var s' := Next(cfg, s, Advance(c));
            c < s'.st.next && c in s'.calls && s'.calls[c].LogoutClosing? && s'.calls[c].session == s.st.tokens[cookie].session
  {
    assert CallFine(s.st.issued, s.st.next, s.clock, c, s.calls[c]);
    assert RowFine(cfg, s.st.tokens, s.st.issued, cookie);
    assert PairFine(cfg, s.st.issued, s.st.next, s.clock, cookie);
  }

  lemma {:induction false} AboutToCloseAlong(cfg: Config, init: Sys, acts: seq<Action>, k: nat, c: Id, cookie: Id, session: Id)
    requires Inv(cfg, init) && ReadsCookie(cfg, init, acts, k, c, cookie, session)
    ensures AboutToClose(cfg, init, acts, k, c, session)
    decreases |acts|
  {
    var before, a := acts[..|acts| - 1], acts[|acts| - 1];
    assert acts == before + [a];
    KeptAlong(cfg, init, before);
    SameStates(cfg, init, before, a, k);
    if k == |before| {
      LastIsAState(cfg, init, before);
      RunSnoc(cfg, init, before, a);
      CookieLeads(cfg, Run(cfg, init, before), c, cookie);
    } else {
      assert before[k] == acts[k];
      AboutToCloseAlong(cfg, init, before, k, c, cookie, session);
      AboutToCloseStep(cfg, init, before, a, k, c, session);
    }
  }

  /** A logout that read a stored cookie and is now answered has executed RevokeSession of that row's session, or does
      so with its answer. */
  lemma LogoutClosesCookie(cfg: Config, init: Sys, acts: seq<Action>, k: nat, c: Id, cookie: Id, session: Id, reply: Reply)
    requires Inv(cfg, init) && ReadsCookie(cfg, init, acts, k, c, cookie, session)
    requires Answers(cfg, Run(cfg, init, acts), c, reply)
    ensures ClosedSince(cfg, init, acts + [Advance(c)], k, c, session)
  {
    AboutToCloseAlong(cfg, init, acts, k, c, cookie, session);
    var s := Run(cfg, init, acts);
    if ClosedSince(cfg, init, acts, k, c, session) {
      var j: nat, now: Time, jti: Option<Id> :|
        k < j && Executes(cfg, init, acts, j, c, LogoutClosing(now, session, jti));
      ExecutesStays(cfg, init, acts, Advance(c), j, c, LogoutClosing(now, session, jti));
    } else {
      LastIsAState(cfg, init, acts);
      SameStates(cfg, init, acts, Advance(c), |acts|);
      assert Executes(cfg, init, acts + [Advance(c)], |acts|, c, LogoutClosing(s.calls[c].now, session, s.calls[c].jti));
    }
  }

  ghost predicate LookedUp(cfg: Config, init: Sys, acts: seq<Action>, c: Id, cookie: Id) {
    exists k: nat, now: Time, jti: Option<Id> :: Executes(cfg, init, acts, k, c, LogoutBegun(now, Some(cookie), jti))
  }

  /** Until a logout has looked its cookie up it stands before that statement. */
  lemma {:induction false} LookupAlong(cfg: Config, init: Sys, acts: seq<Action>, cookie: Id, claims: Option<Id>, c: Id)
    requires Inv(cfg, init) && Accepts(init, acts, Logout(Some(cookie), claims), c) && cookie in init.st.issued
    ensures var s := Run(cfg, init, acts);
            && c < s.st.next
            && (c in s.calls ==>
                  || (s.calls[c].LogoutBegun? && s.calls[c].cookie == Some(cookie))
                  || LookedUp(cfg, init, acts, c, cookie))
    decreases |acts|
  {
    var before, a := acts[..|acts| - 1], acts[|acts| - 1];
    assert acts == before + [a];
    KeptAlong(cfg, init, before);
    RunSnoc(cfg, init, before, a);
    if before != [] {
      LookupAlong(cfg, init, before, cookie, claims, c);
      LookupStep(cfg, init, before, a, cookie, c);
    }
  }

  lemma LookupStep(cfg: Config, init: Sys, acts: seq<Action>, a: Action, cookie: Id, c: Id)
    requires Inv(cfg, Run(cfg, init, acts)) && c < Run(cfg, init, acts).st.next
    requires var s := Run(cfg, init, acts);
             c in s.calls ==>
               || (s.calls[c].LogoutBegun? && s.calls[c].cookie == Some(cookie))
               || LookedUp(cfg, init, acts, c, cookie)
    ensures var s := Run(cfg, init, acts + [a]);
            && c < s.st.next
            && (c in s.calls ==>
                  || (s.calls[c].LogoutBegun? && s.calls[c].cookie == Some(cookie))
                  || LookedUp(cfg, init, acts + [a], c, cookie))
  {
    var s := Run(cfg, init, acts);
    RunSnoc(cfg, init, acts, a);
    NextGrows(cfg, s, a);
    if c in s.calls {
      if LookedUp(cfg, init, acts, c, cookie) {
        var k: nat, now: Time, jti: Option<Id> :| Executes(cfg, init, acts, k, c, LogoutBegun(now, Some(cookie), jti));
        ExecutesStays(cfg, init, acts, a, k, c, LogoutBegun(now, Some(cookie), jti));
      } else if a == Advance(c) {
        LastIsAState(cfg, init, acts);
        SameStates(cfg, init, acts, a, |acts|);
        assert Executes(cfg, init, acts + [a], |acts|, c, LogoutBegun(s.calls[c].now, Some(cookie), s.calls[c].jti));
      }
    }
  }

  /** In any reachable state and any interleaving, a logout request with a cookie, once answered, has looked the cookie
      up; and if it found a row, it has afterwards executed RevokeSession of that row's session. */
  lemma LogoutDoes(cfg: Config, init: Sys, acts: seq<Action>, cookie: Id, claims: Option<Id>, c: Id, reply: Reply)
    returns (k: nat)
    requires Inv(cfg, init) && Accepts(init, acts, Logout(Some(cookie), claims), c) && cookie in init.st.issued
    requires Answers(cfg, Run(cfg, init, acts), c, reply)
    ensures k <= |acts|
    ensures var all := acts + [Advance(c)];
            var read := StateAt(cfg, init, all, k);
            && (exists now: Time, jti: Option<Id> :: Executes(cfg, init, all, k, c, LogoutBegun(now, Some(cookie), jti)))
            && (cookie in read.st.tokens ==> ClosedSince(cfg, init, all, k, c, read.st.tokens[cookie].session))
  {
    LookupAlong(cfg, init, acts, cookie, claims, c);
    var s := Run(cfg, init, acts);
    if LookedUp(cfg, init, acts, c, cookie) {
      var now: Time, jti: Option<Id>;
      k, now, jti :| Executes(cfg, init, acts, k, c, LogoutBegun(now, Some(cookie), jti));
      ExecutesStays(cfg, init, acts, Advance(c), k, c, LogoutBegun(now, Some(cookie), jti));
      SameStates(cfg, init, acts, Advance(c), k);
      var read := StateAt(cfg, init, acts, k);
      if cookie in read.st.tokens {
        assert ReadsCookie(cfg, init, acts, k, c, cookie, read.st.tokens[cookie].session);
        LogoutClosesCookie(cfg, init, acts, k, c, cookie, read.st.tokens[cookie].session, reply);
      }
    } else {
      k := |acts|;
      LastIsAState(cfg, init, acts);
      SameStates(cfg, init, acts, Advance(c), |acts|);
      assert Executes(cfg, init, acts + [Advance(c)], k, c, LogoutBegun(s.calls[c].now, Some(cookie), s.calls[c].jti));
      KeptAlong(cfg, init, acts);
      if cookie in s.st.tokens {
        CookieLeads(cfg, s, c, cookie);
      }
    }
  }
}
