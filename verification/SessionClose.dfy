/** Interleaved calls: what revoking a session means while refreshes of it are half-way through. */
module SessionClose {
  import opened Domain
  import opened Store
  import opened Machine
  import opened Invariant
  import Atomic
  import Rotation
  import Solo
  import Suspension

  /** A refresh of session S between its token read and its insert. */
  predicate HalfWay(call: Call, session: Id) {
    (call.RefreshFresh? || call.RefreshAllowed?) && call.row.session == session
  }

  /** A refresh that has not read its user yet, and can only find them suspended or gone. */
  predicate Stuck(s: Sys, call: Call) {
    call.RefreshFresh? && Suspension.Suspendeds(s.st.users, call.row.user)
  }

  /** The half-way refreshes of S that can still insert a row. */
  ghost function Movers(s: Sys, session: Id): set<Id> {
    set n | n in s.calls && HalfWay(s.calls[n], session) && !Stuck(s, s.calls[n])
  }

  /** Pair n was created by a call in r, or rotated (in one or more steps) from a pair that was. */
  ghost predicate Descends(issued: map<Id, Pair>, n: Id, r: set<Id>)
    decreases n
  {
    || n in r
    || (n in issued && issued[n].parent.Some? && issued[n].parent.value < n && Descends(issued, issued[n].parent.value, r))
  }

  lemma {:induction false} DescendsLater(issued: map<Id, Pair>, issued': map<Id, Pair>, n: Id, r: set<Id>)
    requires Descends(issued, n, r)
    requires forall m :: m in issued ==> m in issued' && issued'[m] == issued[m]
    ensures Descends(issued', n, r)
    decreases n
  {
    if n !in r {
      DescendsLater(issued, issued', issued[n].parent.value, r);
    }
  }

  lemma {:induction false} NobodyDescends(issued: map<Id, Pair>, n: Id)
    ensures !Descends(issued, n, {})
    decreases n
  {
    if n in issued && issued[n].parent.Some? && issued[n].parent.value < n {
      NobodyDescends(issued, issued[n].parent.value);
    }
  }

  ghost predicate RowClosed(tokens: Tokens, issued: map<Id, Pair>, session: Id, r: set<Id>, i: Id) {
    i in tokens && tokens[i].session == session ==> tokens[i].IsRevoked() || Descends(issued, i, r)
  }

  ghost predicate PairClosed(base: map<Id, Pair>, issued: map<Id, Pair>, session: Id, r: set<Id>, n: Id) {
    n in issued && issued[n].claims.session == session ==> n in base || Descends(issued, n, r)
  }

  ghost predicate CallClosed(s: Sys, session: Id, r: set<Id>, n: Id) {
    n in s.calls && HalfWay(s.calls[n], session) ==>
      n in r || Stuck(s, s.calls[n]) || Descends(s.st.issued, s.calls[n].raw, r)
  }

  /** Everything of session S that is not revoked, or could still insert a row of S, comes from a call in r. */
  ghost predicate Sealed(base: map<Id, Pair>, s: Sys, session: Id, r: set<Id>) {
    && session in s.st.issued
    && (forall i :: RowClosed(s.st.tokens, s.st.issued, session, r, i))
    && (forall n :: PairClosed(base, s.st.issued, session, r, n))
    && (forall n :: CallClosed(s, session, r, n))
  }

  lemma SealedStep(cfg: Config, base: map<Id, Pair>, s: Sys, a: Action, session: Id, r: set<Id>)
    requires Inv(cfg, s) && Sealed(base, s, session, r)
    ensures Sealed(base, Next(cfg, s, a), session, r)
  {
    var s' := Next(cfg, s, a);
    Rotation.LaterStep(cfg, s, a);
    forall n: Id
      ensures PairClosed(base, s'.st.issued, session, r, n)
      ensures RowClosed(s'.st.tokens, s'.st.issued, session, r, n)
      ensures CallClosed(s', session, r, n)
    {
      OneSealed(cfg, base, s, a, session, r, n);
    }
  }

  lemma OneSealed(cfg: Config, base: map<Id, Pair>, s: Sys, a: Action, session: Id, r: set<Id>, n: Id)
    requires Inv(cfg, s) && Sealed(base, s, session, r) && Rotation.Later(s, Next(cfg, s, a))
    ensures var s' := Next(cfg, s, a);
            && PairClosed(base, s'.st.issued, session, r, n)
            && RowClosed(s'.st.tokens, s'.st.issued, session, r, n)
            && CallClosed(s', session, r, n)
  {
    var s' := Next(cfg, s, a);
    Kept(cfg, s, a);
    assert RowFine(cfg, s'.st.tokens, s'.st.issued, n);
    assert PairClosed(base, s.st.issued, session, r, n);
    assert RowClosed(s.st.tokens, s.st.issued, session, r, n);
    assert CallClosed(s, session, r, n);
    assert Rotation.RowKept(s.st, s'.st.tokens, n);
    if Descends(s.st.issued, n, r) {
      DescendsLater(s.st.issued, s'.st.issued, n, r);
    }
    if n in s.calls && HalfWay(s.calls[n], session) && n !in r && !Stuck(s, s.calls[n]) {
      DescendsLater(s.st.issued, s'.st.issued, s.calls[n].raw, r);
    }
    if a == Advance(n) && n in s.calls {
      assert CallFine(s.st.issued, s.st.next, s.clock, n, s.calls[n]);
      Rotation.NewPair(cfg, s, n);
      var call := s.calls[n];
      if call.RefreshBegun? && call.presented.Some? {
        assert RowClosed(s.st.tokens, s.st.issued, session, r, call.presented.value);
      }
      StillHalfWay(cfg, s, n, session);
    } else if a.Advance? && a.n in s.calls {
      Rotation.NewPair(cfg, s, a.n);
      if n in s.calls && Stuck(s, s.calls[n]) {
        Suspension.StaysSuspended(cfg, s, a.n, s.calls[n].row.user);
      }
    }
  }

  /** A call becomes half-way through S only by reading an unrevoked row of S. */
  lemma StillHalfWay(cfg: Config, s: Sys, n: Id, session: Id)
    requires Inv(cfg, s) && n in s.calls
    ensures var s', call := Next(cfg, s, Advance(n)), s.calls[n];
            n in s'.calls && HalfWay(s'.calls[n], session) ==>
              || (HalfWay(call, session) && !Stuck(s, call) && s'.calls[n].raw == call.raw)
              || (call.RefreshBegun? && call.presented == Some(s'.calls[n].raw) && s'.calls[n].raw in s.st.tokens
                  && !s.st.tokens[s'.calls[n].raw].IsRevoked() && s.st.tokens[s'.calls[n].raw].session == session
                  && s'.st == s.st)
  {
    var call := s.calls[n];
    if IsRefresh(call) {
    } else if IsLogout(call) {
    } else if IsTeam(call) {
    } else {
    }
  }

  lemma {:induction false} SealedAlong(cfg: Config, base: map<Id, Pair>, s: Sys, acts: seq<Action>, session: Id, r: set<Id>)
    requires Inv(cfg, s) && Sealed(base, s, session, r)
    ensures Sealed(base, Run(cfg, s, acts), session, r)
    decreases |acts|
  {
    if acts != [] {
      SealedStep(cfg, base, s, acts[0], session, r);
      Kept(cfg, s, acts[0]);
      SealedAlong(cfg, base, Next(cfg, s, acts[0]), acts[1..], session, r);
    }
  }

  /** The next statement of this call is RevokeSession(S), or RevokeAllForUser of the user S was opened by. */
  predicate Closes(issued: map<Id, Pair>, call: Call, session: Id) {
    || (call.RefreshReused? && call.row.session == session)
    || (call.RefreshBarred? && call.row.session == session)
    || (call.LogoutClosing? && call.session == session)
    || (ClosesAllOf(call).Some? && session in issued && issued[session].claims.session == session
        && issued[session].claims.user == ClosesAllOf(call).value)
  }

  /** The user whose tokens the next statement of this call revokes. */
  function ClosesAllOf(call: Call): Option<Id> {
    match call
    case LogoutAllBegun(_, id) => Some(id)
    case RevokeClosing(_, member) => Some(member)
    case _ => None
  }

  /** All pairs of a session belong to the user who opened it. */
  lemma {:induction false} SessionHasOneUser(cfg: Config, s: Sys, n: Id)
    requires Inv(cfg, s) && n in s.st.issued
    ensures var session := s.st.issued[n].claims.session;
            && session in s.st.issued && s.st.issued[session].claims.session == session
            && s.st.issued[session].claims.user == s.st.issued[n].claims.user
    decreases n
  {
    assert PairFine(cfg, s.st.issued, s.st.next, s.clock, n);
    if s.st.issued[n].parent.Some? {
      SessionHasOneUser(cfg, s, s.st.issued[n].parent.value);
    }
  }

  ghost predicate Dead(tokens: Tokens, session: Id) {
    forall i :: i in tokens && tokens[i].session == session ==> tokens[i].IsRevoked()
  }

  lemma RowRevokedNow(cfg: Config, s: Sys, c: Id, session: Id, i: Id)
    requires Inv(cfg, s) && c in s.calls && Closes(s.st.issued, s.calls[c], session)
    requires i in s.st.tokens && s.st.tokens[i].session == session
    ensures var s' := Next(cfg, s, Advance(c));
            i in s'.st.tokens && s'.st.tokens[i].IsRevoked()
  {
    assert RowFine(cfg, s.st.tokens, s.st.issued, i);
    SessionHasOneUser(cfg, s, i);
  }

  /** Whatever closes a session leaves everything but rows and its own progress alone. */
  lemma ClosingKeeps(cfg: Config, s: Sys, c: Id, session: Id)
    requires c in s.calls && Closes(s.st.issued, s.calls[c], session)
    ensures var s' := Next(cfg, s, Advance(c));
            && s'.st.issued == s.st.issued && s'.st.users == s.st.users && s'.st.tokens.Keys == s.st.tokens.Keys
            && Movers(s', session) == Movers(s, session)
            && forall n :: n in s.calls && n != c ==> n in s'.calls && s'.calls[n] == s.calls[n]
  {
    var s' := Next(cfg, s, Advance(c));
    ClosingStatement(cfg, s, c, session);
    assert forall n :: n in Movers(s', session) <==> n in Movers(s, session);
  }

  lemma ClosingStatement(cfg: Config, s: Sys, c: Id, session: Id)
    requires c in s.calls && Closes(s.st.issued, s.calls[c], session)
    ensures var s' := Next(cfg, s, Advance(c));
            && s'.st.issued == s.st.issued && s'.st.users == s.st.users && s'.st.tokens.Keys == s.st.tokens.Keys
            && (s'.calls == s.calls - {c} || (s.calls[c].LogoutClosing? && c in s'.calls && s'.calls[c].LogoutListing?
                                              && s'.calls == s.calls[c := s'.calls[c]]))
  {
    var call := s.calls[c];
    if IsRefresh(call) {
    } else if call.LogoutClosing? {
    } else if call.LogoutAllBegun? {
    } else {
    }
  }

  lemma ClosesNow(cfg: Config, s: Sys, c: Id, session: Id)
    requires Inv(cfg, s) && c in s.calls && Closes(s.st.issued, s.calls[c], session)
    ensures var s' := Next(cfg, s, Advance(c));
            && session in s.st.issued && Inv(cfg, s') && Dead(s'.st.tokens, session) && s'.st.issued == s.st.issued
            && s'.st.users == s.st.users && Movers(s', session) == Movers(s, session)
            && forall n :: n in s.calls && n != c ==> n in s'.calls && s'.calls[n] == s.calls[n]
  {
    var call := s.calls[c];
    assert CallFine(s.st.issued, s.st.next, s.clock, c, call);
    assert call.RefreshReused? || call.RefreshBarred? ==> PairFine(cfg, s.st.issued, s.st.next, s.clock, call.raw);
    Kept(cfg, s, Advance(c));
    ClosingKeeps(cfg, s, c, session);
    var s' := Next(cfg, s, Advance(c));
    forall i | i in s'.st.tokens && s'.st.tokens[i].session == session
      ensures s'.st.tokens[i].IsRevoked()
    {
      RowRevokedNow(cfg, s, c, session, i);
    }
  }

  /** After RevokeSession(S) commits, in every continuation each row of S that is not revoked, and each pair
      issued for S since, descends from the row of a refresh that was half-way through S at the commit, and not
      stuck there. */
  lemma AfterRevokeSession(cfg: Config, s: Sys, c: Id, session: Id, later: seq<Action>)
    requires Inv(cfg, s) && c in s.calls && Closes(s.st.issued, s.calls[c], session)
    ensures var end := Run(cfg, Next(cfg, s, Advance(c)), later);
            var r := Movers(s, session);
            && (forall i :: i in end.st.tokens && end.st.tokens[i].session == session ==>
                  end.st.tokens[i].IsRevoked() || Descends(end.st.issued, i, r))
            && (forall n :: n in end.st.issued && end.st.issued[n].claims.session == session ==>
                  n in s.st.issued || Descends(end.st.issued, n, r))
  {
    ClosesNow(cfg, s, c, session);
    var r := Movers(s, session);
    SealedAlong(cfg, s.st.issued, Next(cfg, s, Advance(c)), later, session, r);
    var end := Run(cfg, Next(cfg, s, Advance(c)), later);
    forall i | i in end.st.tokens && end.st.tokens[i].session == session
      ensures end.st.tokens[i].IsRevoked() || Descends(end.st.issued, i, r)
    {
      assert RowClosed(end.st.tokens, end.st.issued, session, r, i);
    }
    forall n | n in end.st.issued && end.st.issued[n].claims.session == session
      ensures n in s.st.issued || Descends(end.st.issued, n, r)
    {
      assert PairClosed(s.st.issued, end.st.issued, session, r, n);
    }
  }

  /** After RevokeAllForUser(u) commits (logging out everywhere, or a colleague's access revoked), in every
      continuation each row of u that is not revoked belongs to a session opened since, or descends from a refresh
      that was half-way through its session at the commit. */
  lemma AfterRevokeAll(cfg: Config, s: Sys, c: Id, u: Id, later: seq<Action>)
    requires Inv(cfg, s) && c in s.calls && ClosesAllOf(s.calls[c]) == Some(u)
    ensures var end := Run(cfg, Next(cfg, s, Advance(c)), later);
            forall i :: i in end.st.tokens && end.st.tokens[i].user == u ==>
              || end.st.tokens[i].IsRevoked()
              || end.st.tokens[i].session !in s.st.issued
              || Descends(end.st.issued, i, Movers(s, end.st.tokens[i].session))
  {
    var s' := Next(cfg, s, Advance(c));
    var end := Run(cfg, s', later);
    Kept(cfg, s, Advance(c));
    KeptAlong(cfg, s', later);
    Rotation.WriteOnce(cfg, s', later);
    Rotation.LaterStep(cfg, s, Advance(c));
    forall i | i in end.st.tokens && end.st.tokens[i].user == u && end.st.tokens[i].session in s.st.issued
      ensures end.st.tokens[i].IsRevoked() || Descends(end.st.issued, i, Movers(s, end.st.tokens[i].session))
    {
      var session := end.st.tokens[i].session;
      assert RowFine(cfg, end.st.tokens, end.st.issued, i);
      SessionHasOneUser(cfg, end, i);
      AfterRevokeSession(cfg, s, c, session, later);
    }
  }

  // ----- the other direction -----

  /** The user behind a half-way refresh would be let through if its row were read now. */
  predicate WouldPass(s: Sys, call: Call) {
    call.RefreshAllowed? ||
    (call.RefreshFresh? && call.row.user in s.st.users && s.st.users[call.row.user].EnsureCanLogin(call.now).None?)
  }

  /** A half-way refresh whose user may log in brings the session back with its next two statements, and its row
      is usable unless the call began a whole refresh lifetime ago. */
  lemma HalfWayRevives(cfg: Config, s: Sys, n: Id, session: Id)
    requires Inv(cfg, s) && n in s.calls && HalfWay(s.calls[n], session) && WouldPass(s, s.calls[n])
    ensures var end := Run(cfg, s, [Advance(n), Advance(n)]);
            && n in end.st.tokens && end.st.tokens[n].session == session
            && !end.st.tokens[n].IsRevoked() && !end.st.tokens[n].IsUsed()
            && (s.clock < s.calls[n].now + cfg.refreshTTL <==> end.st.tokens[n].IsUsable(end.clock))
  {
    var s1 := Next(cfg, s, Advance(n));
    var s2 := Next(cfg, s1, Advance(n));
    assert CallFine(s.st.issued, s.st.next, s.clock, n, s.calls[n]);
    assert [Advance(n), Advance(n)][1..] == [Advance(n)] && [Advance(n)][1..] == [];
    assert Run(cfg, s, [Advance(n), Advance(n)]) == Run(cfg, s1, [Advance(n)]) == Run(cfg, s2, []) == s2;
  }

  /** Every user has an email address (a NOT NULL column). */
  ghost predicate EveryoneHasEmail(st: State) {
    forall u :: u in st.users ==> exists email :: email in st.byEmail && st.byEmail[email] == u
  }

  /** A locked but active user gets rid of the lock by waiting for its end and logging in. */
  lemma Unlocks(cfg: Config, s: Sys, u: Id, email: string) returns (acts: seq<Action>)
    requires Inv(cfg, s) && u in s.st.users && s.st.users[u].status == Active
    requires email in s.st.byEmail && s.st.byEmail[email] == u
    ensures var s' := Run(cfg, s, acts);
            && Inv(cfg, s') && u in s'.st.users && s'.st.users[u].status == Active && s'.st.users[u].lockedUntil == None
            && s'.calls == s.calls
  {
    var until := s.st.users[u].lockedUntil;
    var tick := Tick(if until.Some? && until.value > s.clock then until.value - s.clock else 0);
    var s1 := Next(cfg, s, tick);
    Kept(cfg, s, tick);
    NextIsNew(cfg, s1);
    var alone := Solo.Alone(s1.st.next, Login(email, Match));
    Solo.UninterruptedIsAtomic(cfg, s1, Login(email, Match));
    KeptAlong(cfg, s1, alone);
    acts := [tick] + alone;
    assert acts[1..] == alone;
  }

  lemma NextIsNew(cfg: Config, s: Sys)
    requires Inv(cfg, s)
    ensures s.st.next !in s.calls && s.st.tokens.Keys <= s.st.issued.Keys
  {
    assert s.st.next in s.calls ==> CallFine(s.st.issued, s.st.next, s.clock, s.st.next, s.calls[s.st.next]);
    forall i | i in s.st.tokens
      ensures i in s.st.issued
    {
      assert RowFine(cfg, s.st.tokens, s.st.issued, i);
    }
  }

  /** A half-way refresh that is not stuck can bring the session back. */
  lemma MoverRevives(cfg: Config, s: Sys, n: Id, session: Id) returns (acts: seq<Action>)
    requires Inv(cfg, s) && n in Movers(s, session) && EveryoneHasEmail(s.st)
    ensures !Dead(Run(cfg, s, acts).st.tokens, session)
  {
    if WouldPass(s, s.calls[n]) {
      acts := [Advance(n), Advance(n)];
      HalfWayRevives(cfg, s, n, session);
    } else {
      var u := s.calls[n].row.user;
      var email :| email in s.st.byEmail && s.st.byEmail[email] == u;
      var first := Unlocks(cfg, s, u, email);
      HalfWayRevives(cfg, Run(cfg, s, first), n, session);
      acts := first + [Advance(n), Advance(n)];
      RunSplit(cfg, s, first, [Advance(n), Advance(n)]);
    }
  }

  /** Revoking S kills it for every continuation exactly when every refresh that is half-way through S is stuck:
      it has yet to read its user, and that user is suspended or gone. */
  lemma DeadForeverIff(cfg: Config, s: Sys, c: Id, session: Id)
    requires Inv(cfg, s) && EveryoneHasEmail(s.st) && c in s.calls && Closes(s.st.issued, s.calls[c], session)
    ensures (forall later: seq<Action> :: Dead(Run(cfg, Next(cfg, s, Advance(c)), later).st.tokens, session))
            <==> (forall n :: n in s.calls && HalfWay(s.calls[n], session) ==> Stuck(s, s.calls[n]))
  {
    var s' := Next(cfg, s, Advance(c));
    ClosesNow(cfg, s, c, session);
    if Movers(s, session) == {} {
      forall later: seq<Action>
        ensures Dead(Run(cfg, s', later).st.tokens, session)
      {
        DeadAlong(cfg, s, c, session, later);
      }
      assert forall n :: n in s.calls && HalfWay(s.calls[n], session) && !Stuck(s, s.calls[n]) ==> n in Movers(s, session);
    } else {
      var n :| n in Movers(s, session);
      var later := MoverRevives(cfg, s', n, session);
      assert !Dead(Run(cfg, s', later).st.tokens, session);
    }
  }

  lemma DeadAlong(cfg: Config, s: Sys, c: Id, session: Id, later: seq<Action>)
    requires Inv(cfg, s) && c in s.calls && Closes(s.st.issued, s.calls[c], session) && Movers(s, session) == {}
    ensures Dead(Run(cfg, Next(cfg, s, Advance(c)), later).st.tokens, session)
  {
    AfterRevokeSession(cfg, s, c, session, later);
    var end := Run(cfg, Next(cfg, s, Advance(c)), later);
    forall i | i in end.st.tokens && end.st.tokens[i].session == session
      ensures end.st.tokens[i].IsRevoked()
    {
      NobodyDescends(end.st.issued, i);
    }
  }
}
