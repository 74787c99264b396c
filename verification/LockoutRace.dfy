/** Interleaved calls: how far the failure counter can overshoot, since the lock is decided from an earlier read. */
module LockoutRace {
  import opened Domain
  import opened Store
  import opened Machine

  /** Wrong-password logins of u between their read of the row and their update of it. */
  predicate Failing(call: Call, u: Id) {
    call.LoginWrong? && call.id == u
  }

  ghost function InFlight(s: Sys, u: Id): set<Id> {
    set n | n in s.calls && Failing(s.calls[n], u)
  }

  /** Those of them that read too small a counter to ask for a lock. */
  predicate WillNotLock(cfg: Config, call: Call, u: Id) {
    Failing(call, u) && call.user.failedAttempts + 1 < cfg.maxFailed
  }

  ghost function Harmless(cfg: Config, s: Sys, u: Id): set<Id> {
    set n | n in s.calls && WillNotLock(cfg, s.calls[n], u)
  }

  /** In every state of the run at most c wrong-password logins of u are in flight. */
  ghost predicate Overlap(cfg: Config, s: Sys, acts: seq<Action>, u: Id, c: nat)
    decreases |acts|
  {
    |InFlight(s, u)| <= c && (acts == [] || Overlap(cfg, Next(cfg, s, acts[0]), acts[1..], u, c))
  }

  /** The counter plus what may still be added to it without a lock. */
  ghost predicate Bounded(cfg: Config, s: Sys, u: Id, c: nat) {
    u in s.st.users && (s.st.users[u].lockedUntil.None? ==>
      && s.st.users[u].failedAttempts + |Harmless(cfg, s, u)| <= cfg.maxFailed - 2 + c
      && (cfg.maxFailed == 1 ==> s.st.users[u].failedAttempts == 0))
  }

  lemma HarmlessInFlight(cfg: Config, s: Sys, u: Id)
    ensures |Harmless(cfg, s, u)| <= |InFlight(s, u)|
    ensures cfg.maxFailed == 1 ==> Harmless(cfg, s, u) == {}
  {
    var h, f := Harmless(cfg, s, u), InFlight(s, u);
    assert f == h + (f - h);
  }

  lemma HarmlessWithout(cfg: Config, s: Sys, s': Sys, u: Id, n: Id)
    requires s'.calls == s.calls - {n} || (n in s'.calls && s'.calls == s.calls[n := s'.calls[n]] && !Failing(s'.calls[n], u))
    ensures Harmless(cfg, s', u) == Harmless(cfg, s, u) - {n}
  {
  }

  lemma OtherStatement(cfg: Config, s: Sys, n: Id, u: Id)
    requires n in s.calls && u in s.st.users
    requires IsRefresh(s.calls[n]) || IsLogout(s.calls[n]) || IsTeam(s.calls[n])
    ensures var s' := Next(cfg, s, Advance(n));
            && u in s'.st.users
            && s'.st.users[u].failedAttempts == s.st.users[u].failedAttempts
            && s'.st.users[u].lockedUntil == s.st.users[u].lockedUntil
            && (n in s'.calls ==> !Failing(s'.calls[n], u))
  {
    if IsRefresh(s.calls[n]) {
    } else if IsLogout(s.calls[n]) {
    } else {
    }
  }

  /** What one statement of call n does to u's counter and lock, by kind of call. */
  ghost predicate CounterStepped(cfg: Config, s: Sys, s': Sys, n: Id, u: Id)
    requires n in s.calls && u in s.st.users
  {
    var call, user := s.calls[n], s.st.users[u];
    && u in s'.st.users
    && (Failing(call, u) ==>
          && n !in s'.calls && s'.st.users[u].failedAttempts == user.failedAttempts + 1
          && s'.st.users[u].lockedUntil ==
             if WillNotLock(cfg, call, u) then user.lockedUntil else Some(call.now + cfg.lockout))
    && (call.LoginRight? && call.id == u ==> s'.st.users[u].failedAttempts == 0)
    && (!Failing(call, u) && !(call.LoginRight? && call.id == u) ==>
          && s'.st.users[u].failedAttempts == user.failedAttempts
          && s'.st.users[u].lockedUntil == user.lockedUntil)
    && (n in s'.calls && Failing(s'.calls[n], u) ==>
          call.LoginBegun? && s'.calls[n].user == user && s'.st == s.st)
  }

  lemma CounterStep(cfg: Config, s: Sys, n: Id, u: Id)
    requires n in s.calls && u in s.st.users
    ensures CounterStepped(cfg, s, Next(cfg, s, Advance(n)), n, u)
  {
    var call := s.calls[n];
    if IsRefresh(call) || IsLogout(call) || IsTeam(call) {
      OtherStatement(cfg, s, n, u);
    }
  }

  lemma BoundedAfter(cfg: Config, s: Sys, s': Sys, n: Id, u: Id, c: nat)
    requires ValidConfig(cfg) && c >= 1 && Bounded(cfg, s, u, c)
    requires n in s.calls && CounterStepped(cfg, s, s', n, u)
    requires s'.calls == s.calls - {n} || (n in s'.calls && s'.calls == s.calls[n := s'.calls[n]])
    requires |InFlight(s', u)| <= c
    ensures Bounded(cfg, s', u, c)
  {
    HarmlessInFlight(cfg, s', u);
    if !(n in s'.calls && Failing(s'.calls[n], u)) {
      HarmlessWithout(cfg, s, s', u, n);
    } else if !WillNotLock(cfg, s'.calls[n], u) {
      assert Harmless(cfg, s', u) == Harmless(cfg, s, u) - {n};
    }
  }

  lemma BoundedStep(cfg: Config, s: Sys, a: Action, u: Id, c: nat)
    requires ValidConfig(cfg) && c >= 1 && Bounded(cfg, s, u, c)
    requires s.st.next !in s.calls
    requires |InFlight(s, u)| <= c && |InFlight(Next(cfg, s, a), u)| <= c
    ensures Bounded(cfg, Next(cfg, s, a), u, c)
  {
    var s' := Next(cfg, s, a);
    match a {
      case Advance(n) =>
        if n in s.calls {
          CounterStep(cfg, s, n, u);
          BoundedAfter(cfg, s, s', n, u, c);
        }
      case Begin(req) =>
        assert s.st.next in s'.calls ==> !Failing(s'.calls[s.st.next], u);
        HarmlessWithout(cfg, s, s', u, s.st.next);
      case Abort(n) => HarmlessWithout(cfg, s, s', u, n);
      case _ => assert Harmless(cfg, s', u) == Harmless(cfg, s, u);
    }
  }

  ghost predicate NumbersFresh(s: Sys) {
    forall n :: n in s.calls ==> n < s.st.next
  }

  lemma FreshStep(cfg: Config, s: Sys, a: Action)
    requires NumbersFresh(s)
    ensures NumbersFresh(Next(cfg, s, a))
  {
    if a.Advance? && a.n in s.calls {
      var call := s.calls[a.n];
      if IsRefresh(call) {
      } else if IsLogout(call) {
      } else if IsTeam(call) {
      } else {
      }
    }
  }

  lemma {:induction false} BoundedAlong(cfg: Config, s: Sys, acts: seq<Action>, u: Id, c: nat)
    requires ValidConfig(cfg) && c >= 1 && Bounded(cfg, s, u, c) && NumbersFresh(s)
    requires Overlap(cfg, s, acts, u, c)
    ensures Bounded(cfg, Run(cfg, s, acts), u, c)
    decreases |acts|
  {
    if acts != [] {
      assert Overlap(cfg, Next(cfg, s, acts[0]), acts[1..], u, c);
      BoundedStep(cfg, s, acts[0], u, c);
      FreshStep(cfg, s, acts[0]);
      BoundedAlong(cfg, Next(cfg, s, acts[0]), acts[1..], u, c);
    }
  }

  /** With at most c overlapping wrong-password logins of one user, successes, resets and failures of any other
      call included, a reachable state without a lock has counted at most MaxFailedAttempts + c - 2 failures; none
      at all when a single failure locks. */
  lemma OvershootBounded(cfg: Config, init: Sys, acts: seq<Action>, u: Id, c: nat)
    requires ValidConfig(cfg) && c >= 1 && Initial(init) && u in init.st.users
    requires Overlap(cfg, init, acts, u, c)
    ensures var users := Run(cfg, init, acts).st.users;
            u in users && (users[u].lockedUntil.None? ==>
              && users[u].failedAttempts <= cfg.maxFailed + c - 2
              && (cfg.maxFailed == 1 ==> users[u].failedAttempts == 0))
  {
    assert Harmless(cfg, init, u) == {};
    BoundedAlong(cfg, init, acts, u, c);
  }

  // ----- the bound is met -----

  lemma {:induction false} OverlapSplit(cfg: Config, s: Sys, a: seq<Action>, b: seq<Action>, u: Id, c: nat)
    requires Overlap(cfg, s, a, u, c) && Overlap(cfg, Run(cfg, s, a), b, u, c)
    ensures Overlap(cfg, s, a + b, u, c)
    decreases |a|
  {
    if a == [] {
      assert a + b == b;
    } else {
      assert (a + b)[1..] == a[1..] + b;
      OverlapSplit(cfg, Next(cfg, s, a[0]), a[1..], b, u, c);
    }
  }

  /** u's counter stands at f without a lock, and exactly the calls in `pending` are in flight, all of them
      wrong-password logins of u that read a counter of `seen`. */
  ghost predicate Stand(s: Sys, email: string, u: Id, f: nat, seen: nat, pending: set<Id>) {
    && email in s.st.byEmail && s.st.byEmail[email] == u && u in s.st.users
    && s.st.users[u].failedAttempts == f && s.st.users[u].lockedUntil.None?
    && s.calls.Keys == pending && NumbersFresh(s)
    && forall n :: n in pending ==> Failing(s.calls[n], u) && s.calls[n].user.failedAttempts == seen
  }

  lemma StandOverlap(s: Sys, email: string, u: Id, f: nat, seen: nat, pending: set<Id>)
    requires Stand(s, email, u, f, seen, pending)
    ensures InFlight(s, u) == pending
  {
  }

  lemma ReadsRow(cfg: Config, s: Sys, email: string, u: Id, f: nat, pending: set<Id>) returns (s1: Sys, s2: Sys)
    requires Stand(s, email, u, f, f, pending)
    ensures s1 == Next(cfg, s, Begin(Login(email, Mismatch))) && s2 == Next(cfg, s1, Advance(s.st.next))
    ensures Stand(s2, email, u, f, f, pending + {s.st.next}) && s.st.next !in pending
    ensures InFlight(s, u) == pending && InFlight(s1, u) == pending && InFlight(s2, u) == pending + {s.st.next}
  {
    s1 := Next(cfg, s, Begin(Login(email, Mismatch)));
    s2 := Next(cfg, s1, Advance(s.st.next));
    StandOverlap(s, email, u, f, f, pending);
    StandOverlap(s2, email, u, f, f, pending + {s.st.next});
  }

  /** Begin a wrong-password login and let it read the row. */
  lemma OneMoreReads(cfg: Config, s: Sys, email: string, u: Id, f: nat, pending: set<Id>, c: nat) returns (acts: seq<Action>)
    requires Stand(s, email, u, f, f, pending) && |pending| < c
    ensures Stand(Run(cfg, s, acts), email, u, f, f, pending + {s.st.next})
    ensures Overlap(cfg, s, acts, u, c)
    ensures |pending + {s.st.next}| == |pending| + 1
  {
    var n := s.st.next;
    acts := [Begin(Login(email, Mismatch)), Advance(n)];
    var s1, s2 := ReadsRow(cfg, s, email, u, f, pending);
    assert acts[1..] == [acts[1]] && acts[1..][1..] == [];
    assert Run(cfg, s, acts) == Run(cfg, s1, acts[1..]) == Run(cfg, s2, []) == s2;
    assert Overlap(cfg, s2, [], u, c);
    assert Overlap(cfg, s1, acts[1..], u, c);
  }

  /** Let one pending login update the row. */
  lemma OneUpdates(cfg: Config, s: Sys, email: string, u: Id, f: nat, seen: nat, pending: set<Id>, n: Id, c: nat)
    requires Stand(s, email, u, f, seen, pending) && n in pending && seen + 1 < cfg.maxFailed && |pending| <= c
    ensures Stand(Run(cfg, s, [Advance(n)]), email, u, f + 1, seen, pending - {n})
    ensures Overlap(cfg, s, [Advance(n)], u, c)
  {
    var s1 := Next(cfg, s, Advance(n));
    assert [Advance(n)][1..] == [];
    assert Run(cfg, s, [Advance(n)]) == Run(cfg, s1, []) == s1;
    StandOverlap(s, email, u, f, seen, pending);
    StandOverlap(s1, email, u, f + 1, seen, pending - {n});
    assert Overlap(cfg, s1, [], u, c);
  }

  lemma {:induction false} AllRead(cfg: Config, s: Sys, email: string, u: Id, f: nat, pending: set<Id>, c: nat)
    returns (acts: seq<Action>, all: set<Id>)
    requires Stand(s, email, u, f, f, pending) && |pending| <= c
    ensures Stand(Run(cfg, s, acts), email, u, f, f, all) && |all| == c
    ensures Overlap(cfg, s, acts, u, c)
    decreases c - |pending|
  {
    if |pending| == c {
      acts, all := [], pending;
      StandOverlap(s, email, u, f, f, pending);
    } else {
      var first := OneMoreReads(cfg, s, email, u, f, pending, c);
      var rest;
      rest, all := AllRead(cfg, Run(cfg, s, first), email, u, f, pending + {s.st.next}, c);
      acts := first + rest;
      RunSplit(cfg, s, first, rest);
      OverlapSplit(cfg, s, first, rest, u, c);
    }
  }

  lemma {:induction false} AllUpdate(cfg: Config, s: Sys, email: string, u: Id, f: nat, seen: nat, pending: set<Id>, c: nat)
    returns (acts: seq<Action>)
    requires Stand(s, email, u, f, seen, pending) && seen + 1 < cfg.maxFailed && |pending| <= c
    ensures Stand(Run(cfg, s, acts), email, u, f + |pending|, seen, {})
    ensures Overlap(cfg, s, acts, u, c)
    decreases |pending|
  {
    if pending == {} {
      acts := [];
      StandOverlap(s, email, u, f, seen, pending);
    } else {
      var n :| n in pending;
      OneUpdates(cfg, s, email, u, f, seen, pending, n, c);
      var rest := AllUpdate(cfg, Run(cfg, s, [Advance(n)]), email, u, f + 1, seen, pending - {n}, c);
      acts := [Advance(n)] + rest;
      RunSplit(cfg, s, [Advance(n)], rest);
      OverlapSplit(cfg, s, [Advance(n)], rest, u, c);
    }
  }

  /** Failures one after the other, until the counter stands just below the threshold. */
  lemma {:induction false} UpToThreshold(cfg: Config, s: Sys, email: string, u: Id, f: nat, c: nat) returns (acts: seq<Action>)
    requires Stand(s, email, u, f, f, {}) && f + 2 <= cfg.maxFailed && c >= 1
    ensures Stand(Run(cfg, s, acts), email, u, cfg.maxFailed - 2, cfg.maxFailed - 2, {})
    ensures Overlap(cfg, s, acts, u, c)
    decreases cfg.maxFailed - f
  {
    if f + 2 == cfg.maxFailed {
      acts := [];
      StandOverlap(s, email, u, f, f, {});
    } else {
      var n := s.st.next;
      var looks := OneMoreReads(cfg, s, email, u, f, {}, c);
      var mid := Run(cfg, s, looks);
      OneUpdates(cfg, mid, email, u, f, f, {} + {n}, n, c);
      var once := looks + [Advance(n)];
      RunSplit(cfg, s, looks, [Advance(n)]);
      OverlapSplit(cfg, s, looks, [Advance(n)], u, c);
      var rest := UpToThreshold(cfg, Run(cfg, s, once), email, u, f + 1, c);
      acts := once + rest;
      RunSplit(cfg, s, once, rest);
      OverlapSplit(cfg, s, once, rest, u, c);
    }
  }

  /** For every threshold of at least two and every c, some run with at most c logins of u in flight counts
      exactly MaxFailedAttempts + c - 2 failures and has locked nobody. */
  lemma OvershootReached(cfg: Config, init: Sys, email: string, u: Id, c: nat) returns (acts: seq<Action>)
    requires cfg.maxFailed >= 2 && c >= 1 && Initial(init)
    requires email in init.st.byEmail && init.st.byEmail[email] == u && u in init.st.users
    ensures Overlap(cfg, init, acts, u, c)
    ensures var users := Run(cfg, init, acts).st.users;
            u in users && users[u].lockedUntil.None? && users[u].failedAttempts == cfg.maxFailed + c - 2
  {
    var climb := UpToThreshold(cfg, init, email, u, 0, c);
    var s1 := Run(cfg, init, climb);
    var looks, all := AllRead(cfg, s1, email, u, cfg.maxFailed - 2, {}, c);
    var s2 := Run(cfg, s1, looks);
    var updates := AllUpdate(cfg, s2, email, u, cfg.maxFailed - 2, cfg.maxFailed - 2, all, c);
    RunSplit(cfg, s1, looks, updates);
    OverlapSplit(cfg, s1, looks, updates, u, c);
    RunSplit(cfg, init, climb, looks + updates);
    OverlapSplit(cfg, init, climb, looks + updates, u, c);
    acts := climb + (looks + updates);
  }
}
