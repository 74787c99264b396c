/** Interleaved calls: what revoking a colleague's access leaves possible, and for how long. */
module Suspension {
  import opened Domain
  import opened Store
  import opened Machine
  import opened Invariant
  import Gate
  import Rotation

  /** A call that holds u's row as read while u could log in, and has not yet inserted its token. */
  predicate HoldsUser(call: Call, u: Id) {
    || (call.LoginRight? && call.id == u)
    || (call.LoginCleared? && call.id == u)
    || (call.RefreshAllowed? && call.row.user == u)
  }

  ghost function HoldersOf(s: Sys, u: Id): set<Id> {
    set n | n in s.calls && HoldsUser(s.calls[n], u)
  }

  /** Pairs issued to u that are not in `base`. */
  ghost function IssuedSince(base: map<Id, Pair>, issued: map<Id, Pair>, u: Id): set<Id> {
    set n | n in issued && n !in base && issued[n].claims.user == u
  }

  predicate Suspendeds(users: Users, u: Id) {
    u in users ==> users[u].status == Suspended
  }

  ghost predicate PairOld(issued: map<Id, Pair>, u: Id, t: Time, n: Id) {
    n in issued && issued[n].claims.user == u ==> issued[n].at <= t
  }

  ghost predicate CallOld(s: Sys, u: Id, k: set<Id>, t: Time, n: Id) {
    n in s.calls && HoldsUser(s.calls[n], u) ==> n in k && s.calls[n].now <= t
  }

  /** From instant t on u is shut out but for the calls in k. */
  ghost predicate Shut(base: map<Id, Pair>, s: Sys, u: Id, k: set<Id>, t: Time) {
    && Suspendeds(s.st.users, u)
    && IssuedSince(base, s.st.issued, u) <= k
    && (forall n :: PairOld(s.st.issued, u, t, n))
    && (forall n :: CallOld(s, u, k, t, n))
  }

  lemma ShutStep(cfg: Config, base: map<Id, Pair>, s: Sys, a: Action, u: Id, k: set<Id>, t: Time)
    requires Inv(cfg, s) && Shut(base, s, u, k, t)
    ensures Shut(base, Next(cfg, s, a), u, k, t)
  {
    var s' := Next(cfg, s, a);
    forall n: Id
      ensures PairOld(s'.st.issued, u, t, n) && CallOld(s', u, k, t, n)
      ensures n in IssuedSince(base, s'.st.issued, u) ==> n in k
    {
      OneShut(cfg, base, s, a, u, k, t, n);
    }
    if a.Advance? && a.n in s.calls {
      StaysSuspended(cfg, s, a.n, u);
    }
  }

  lemma StaysSuspended(cfg: Config, s: Sys, n: Id, u: Id)
    requires n in s.calls && Suspendeds(s.st.users, u)
    ensures Suspendeds(Next(cfg, s, Advance(n)).st.users, u)
  {
    var call := s.calls[n];
    if IsRefresh(call) {
    } else if IsLogout(call) {
    } else if IsTeam(call) {
    } else {
    }
  }

  lemma OneShut(cfg: Config, base: map<Id, Pair>, s: Sys, a: Action, u: Id, k: set<Id>, t: Time, n: Id)
    requires Inv(cfg, s) && Shut(base, s, u, k, t)
    ensures var s' := Next(cfg, s, a);
            && PairOld(s'.st.issued, u, t, n) && CallOld(s', u, k, t, n)
            && (n in IssuedSince(base, s'.st.issued, u) ==> n in k)
  {
    assert PairOld(s.st.issued, u, t, n) && CallOld(s, u, k, t, n);
    assert n in IssuedSince(base, s.st.issued, u) ==> n in k;
    if a.Advance? && a.n in s.calls {
      Rotation.NewPair(cfg, s, a.n);
      if a.n == n {
        StillHolding(cfg, s, n, u);
      }
    }
  }

  /** Once u is suspended a call can only go on holding u's row, not start to. */
  lemma StillHolding(cfg: Config, s: Sys, n: Id, u: Id)
    requires n in s.calls && Suspendeds(s.st.users, u)
    ensures var s', call := Next(cfg, s, Advance(n)), s.calls[n];
            n in s'.calls && HoldsUser(s'.calls[n], u) ==> HoldsUser(call, u) && s'.calls[n].now == call.now
  {
    var call := s.calls[n];
    if IsRefresh(call) {
    } else if IsLogout(call) {
    } else if IsTeam(call) {
    } else {
    }
  }

  lemma {:induction false} ShutAlong(cfg: Config, base: map<Id, Pair>, s: Sys, acts: seq<Action>, u: Id, k: set<Id>, t: Time)
    requires Inv(cfg, s) && Shut(base, s, u, k, t)
    ensures Shut(base, Run(cfg, s, acts), u, k, t)
    decreases |acts|
  {
    if acts != [] {
      ShutStep(cfg, base, s, acts[0], u, k, t);
      Kept(cfg, s, acts[0]);
      ShutAlong(cfg, base, Next(cfg, s, acts[0]), acts[1..], u, k, t);
    }
  }

  /** The moment UpdateStatus of member u commits, only the calls already holding u's row are left. */
  lemma SuspendingShuts(cfg: Config, s: Sys, c: Id, u: Id)
    requires Inv(cfg, s) && c in s.calls && s.calls[c].RevokeSuspending? && s.calls[c].member == u
    ensures Inv(cfg, Next(cfg, s, Advance(c)))
    ensures Shut(s.st.issued, Next(cfg, s, Advance(c)), u, HoldersOf(s, u), s.clock)
  {
    Kept(cfg, s, Advance(c));
    var s' := Next(cfg, s, Advance(c));
    forall n: Id
      ensures PairOld(s'.st.issued, u, s.clock, n) && CallOld(s', u, HoldersOf(s, u), s.clock, n)
    {
      assert PairFine(cfg, s.st.issued, s.st.next, s.clock, n);
      if n in s.calls {
        assert CallFine(s.st.issued, s.st.next, s.clock, n, s.calls[n]);
      }
    }
  }

  /** After Team.Revoke's status update commits, in every continuation the pairs issued to that user are those
      of the Login and Refresh calls that already held the user's row, at most one each. */
  lemma PairsAfterSuspension(cfg: Config, s: Sys, c: Id, u: Id, later: seq<Action>)
    requires Inv(cfg, s) && c in s.calls && s.calls[c].RevokeSuspending? && s.calls[c].member == u
    ensures var end := Run(cfg, Next(cfg, s, Advance(c)), later);
            && IssuedSince(s.st.issued, end.st.issued, u) <= HoldersOf(s, u)
            && |IssuedSince(s.st.issued, end.st.issued, u)| <= |HoldersOf(s, u)|
  {
    SuspendingShuts(cfg, s, c, u);
    ShutAlong(cfg, s.st.issued, Next(cfg, s, Advance(c)), later, u, HoldersOf(s, u), s.clock);
    Rotation.SubsetSize(IssuedSince(s.st.issued, Run(cfg, Next(cfg, s, Advance(c)), later).st.issued, u), HoldersOf(s, u));
  }

  /** ... and from AccessTTL after the commit no request with a token of that user is admitted, however many
      calls were half-way through, because each read the clock before it read the user. */
  lemma NoAccessAfterSuspension(cfg: Config, s: Sys, c: Id, u: Id, later: seq<Action>, token: Option<Id>, redisUp: bool, at: Time)
    requires Inv(cfg, s) && c in s.calls && s.calls[c].RevokeSuspending? && s.calls[c].member == u
    requires at >= s.clock + cfg.accessTTL
    ensures var end := Run(cfg, Next(cfg, s, Advance(c)), later);
            var v := Gate.Auth(end.st, token, redisUp, at);
            v.Admitted? ==> v.claims.user != u
  {
    SuspendingShuts(cfg, s, c, u);
    var s' := Next(cfg, s, Advance(c));
    ShutAlong(cfg, s.st.issued, s', later, u, HoldersOf(s, u), s.clock);
    KeptAlong(cfg, s', later);
    var end := Run(cfg, s', later);
    if token.Some? {
      assert PairFine(cfg, end.st.issued, end.st.next, end.clock, token.value);
      assert PairOld(end.st.issued, u, s.clock, token.value);
    }
  }

  // ----- the bound is met -----

  ghost predicate IssuedTo(issued: map<Id, Pair>, u: Id, n: Id) {
    n in issued && issued[n].claims.user == u
  }

  /** One statement of a call that holds the row: it gets its pair, or was a login that first clears the counter. */
  lemma HolderStep(cfg: Config, s: Sys, n: Id, u: Id)
    requires Inv(cfg, s) && n in HoldersOf(s, u)
    ensures var s' := Next(cfg, s, Advance(n));
            && Inv(cfg, s')
            && (if s.calls[n].LoginRight? then n in s'.calls && s'.calls[n].LoginCleared? && s'.calls[n].id == u
                else IssuedTo(s'.st.issued, u, n))
  {
    Kept(cfg, s, Advance(n));
    Rotation.NewPair(cfg, s, n);
  }

  lemma OthersGoOn(cfg: Config, s: Sys, n: Id, u: Id, held: set<Id>)
    requires held <= HoldersOf(s, u)
    ensures held - {n} <= HoldersOf(Next(cfg, s, Advance(n)), u)
  {
    var s' := Next(cfg, s, Advance(n));
    forall m | m in held - {n}
      ensures m in HoldersOf(s', u)
    {
      assert m in HoldersOf(s, u);
    }
  }

  /** A Login or Refresh that holds the row gets its pair, and the other holders stay holders. */
  lemma HolderIssues(cfg: Config, s: Sys, n: Id, u: Id, held: set<Id>) returns (acts: seq<Action>, s': Sys)
    requires Inv(cfg, s) && n in held && held <= HoldersOf(s, u)
    ensures s' == Run(cfg, s, acts) && Inv(cfg, s')
    ensures IssuedTo(s'.st.issued, u, n) && held - {n} <= HoldersOf(s', u)
  {
    HolderStep(cfg, s, n, u);
    OthersGoOn(cfg, s, n, u, held);
    var s1 := Next(cfg, s, Advance(n));
    assert [Advance(n)][1..] == [];
    assert Run(cfg, s, [Advance(n)]) == Run(cfg, s1, []) == s1;
    acts, s' := [Advance(n)], s1;
    if s.calls[n].LoginRight? {
      HolderStep(cfg, s1, n, u);
      OthersGoOn(cfg, s1, n, u, held - {n});
      assert held - {n} - {n} == held - {n};
      s' := Next(cfg, s1, Advance(n));
      assert Run(cfg, s1, [Advance(n)]) == Run(cfg, s', []) == s';
      acts := [Advance(n)] + [Advance(n)];
      RunSplit(cfg, s, [Advance(n)], [Advance(n)]);
    }
  }

  lemma {:induction false} HoldersIssue(cfg: Config, s: Sys, u: Id, held: set<Id>) returns (acts: seq<Action>, end: Sys)
    requires Inv(cfg, s) && held <= HoldersOf(s, u)
    ensures end == Run(cfg, s, acts)
    ensures forall n :: n in held ==> IssuedTo(end.st.issued, u, n)
    decreases |held|
  {
    if held == {} {
      acts, end := [], s;
    } else {
      var n :| n in held;
      var first, s' := HolderIssues(cfg, s, n, u, held);
      var rest;
      rest, end := HoldersIssue(cfg, s', u, held - {n});
      acts := first + rest;
      RunSplit(cfg, s, first, rest);
      Rotation.WriteOnce(cfg, s', rest);
      assert forall m :: m in held ==> m == n || m in held - {n};
    }
  }

  /** After the status update commits there is a continuation in which exactly the calls that held the row at the
      commit get their pairs, all of them: the bound of PairsAfterSuspension is met. */
  lemma AllHoldersIssue(cfg: Config, s: Sys, c: Id, u: Id) returns (later: seq<Action>)
    requires Inv(cfg, s) && c in s.calls && s.calls[c].RevokeSuspending? && s.calls[c].member == u
    ensures IssuedSince(s.st.issued, Run(cfg, Next(cfg, s, Advance(c)), later).st.issued, u) == HoldersOf(s, u)
  {
    var s' := Next(cfg, s, Advance(c));
    Kept(cfg, s, Advance(c));
    var held := HoldersOf(s, u);
    OthersGoOn(cfg, s, c, u, held);
    assert held - {c} == held;
    var end;
    later, end := HoldersIssue(cfg, s', u, held);
    forall n | n in held
      ensures n in IssuedSince(s.st.issued, end.st.issued, u)
    {
      assert CallFine(s.st.issued, s.st.next, s.clock, n, s.calls[n]);
    }
    PairsAfterSuspension(cfg, s, c, u, later);
  }
}
