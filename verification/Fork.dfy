/** Why whole calls matter: overlapping refreshes of one token give it as many usable successors as they are. */
module Fork {
  import opened Domain
  import opened Store
  import opened Machine
  import opened Invariant
  import Rotation

  /** Token t can be refreshed right now. */
  predicate Refreshable(s: Sys, t: Id) {
    && t in s.st.issued && t in s.st.tokens && s.st.tokens[t].IsUsable(s.clock)
    && s.st.tokens[t].user in s.st.users && s.st.users[s.st.tokens[t].user].EnsureCanLogin(s.clock).None?
  }

  /** The calls in `held` are refreshes of t just before their insert. */
  ghost predicate AllHold(s: Sys, t: Id, session: Id, held: set<Id>) {
    forall n :: n in held ==>
      n in s.calls && s.calls[n].RefreshAllowed? && s.calls[n].raw == t && s.calls[n].row.session == session
      && s.calls[n].now == s.clock
  }

  /** One more refresh of t comes as far as its insert. */
  lemma OneMoreHolds(cfg: Config, s: Sys, t: Id, held: set<Id>) returns (acts: seq<Action>)
    requires Inv(cfg, s) && Refreshable(s, t) && AllHold(s, t, s.st.tokens[t].session, held)
    ensures var s', n := Run(cfg, s, acts), s.st.next;
            && Inv(cfg, s') && s'.st == s.st.(next := n + 1) && s'.clock == s.clock
            && n !in held && AllHold(s', t, s.st.tokens[t].session, held + {n})
  {
    var n := s.st.next;
    forall m | m in held
      ensures m < n
    {
      assert CallFine(s.st.issued, s.st.next, s.clock, m, s.calls[m]);
    }
    acts := [Begin(Refresh(t)), Advance(n), Advance(n)];
    var s1 := Next(cfg, s, acts[0]);
    var s2 := Next(cfg, s1, acts[1]);
    var s3 := Next(cfg, s2, acts[2]);
    assert acts[1..] == [acts[1], acts[2]] && acts[1..][1..] == [acts[2]] && acts[1..][1..][1..] == [];
    assert Run(cfg, s, acts) == Run(cfg, s1, acts[1..]) == Run(cfg, s2, [acts[2]]) == Run(cfg, s3, []) == s3;
    KeptAlong(cfg, s, acts);
  }

  lemma {:induction false} ManyHold(cfg: Config, s: Sys, t: Id, held: set<Id>, k: nat) returns (acts: seq<Action>, all: set<Id>)
    requires Inv(cfg, s) && Refreshable(s, t) && AllHold(s, t, s.st.tokens[t].session, held)
    ensures |all| == |held| + k
    ensures var s' := Run(cfg, s, acts);
            && Inv(cfg, s') && s'.st == s.st.(next := s'.st.next) && s'.clock == s.clock
            && AllHold(s', t, s.st.tokens[t].session, all)
    decreases k
  {
    if k == 0 {
      acts, all := [], held;
    } else {
      var first := OneMoreHolds(cfg, s, t, held);
      var rest;
      rest, all := ManyHold(cfg, Run(cfg, s, first), t, held + {s.st.next}, k - 1);
      acts := first + rest;
      RunSplit(cfg, s, first, rest);
    }
  }

  /** Row n is a fresh, usable successor of t. */
  predicate Successor(s: Sys, t: Id, session: Id, n: Id) {
    && n in s.st.tokens && n in s.st.issued && s.st.issued[n].parent == Some(t)
    && s.st.tokens[n].session == session && s.st.tokens[n].IsUsable(s.clock)
  }

  ghost predicate AllSucceed(s: Sys, t: Id, session: Id, rows: set<Id>) {
    forall n :: n in rows ==> Successor(s, t, session, n)
  }

  lemma InsertOne(cfg: Config, s: Sys, t: Id, session: Id, held: set<Id>, done: set<Id>, n: Id) returns (s': Sys)
    requires ValidConfig(cfg) && Inv(cfg, s) && AllHold(s, t, session, held) && n in held && AllSucceed(s, t, session, done)
    ensures s' == Run(cfg, s, [Advance(n)])
    ensures Inv(cfg, s') && AllHold(s', t, session, held - {n}) && AllSucceed(s', t, session, done + {n})
  {
    s' := Next(cfg, s, Advance(n));
    assert [Advance(n)][1..] == [];
    assert Run(cfg, s, [Advance(n)]) == Run(cfg, s', []) == s';
    assert CallFine(s.st.issued, s.st.next, s.clock, n, s.calls[n]);
    Kept(cfg, s, Advance(n));
  }

  lemma {:induction false} AllInsert(cfg: Config, s: Sys, t: Id, session: Id, held: set<Id>, done: set<Id>) returns (acts: seq<Action>)
    requires ValidConfig(cfg) && Inv(cfg, s) && AllHold(s, t, session, held) && AllSucceed(s, t, session, done)
    ensures AllSucceed(Run(cfg, s, acts), t, session, held + done)
    decreases |held|
  {
    if held == {} {
      acts := [];
      assert held + done == done;
    } else {
      var n :| n in held;
      var s' := InsertOne(cfg, s, t, session, held, done, n);
      assert held + done == (held - {n}) + (done + {n});
      var rest := AllInsert(cfg, s', t, session, held - {n}, done + {n});
      acts := [Advance(n)] + rest;
      RunSplit(cfg, s, [Advance(n)], rest);
    }
  }

  /** From any reachable state, for every k, a token that can be refreshed now can get k usable successors in its
      session: "one usable token per session" holds for whole calls only. */
  lemma OverlappingRefreshesFork(cfg: Config, s: Sys, t: Id, k: nat) returns (acts: seq<Action>, rows: set<Id>)
    requires ValidConfig(cfg) && Inv(cfg, s) && Refreshable(s, t)
    ensures |rows| == k
    ensures AllSucceed(Run(cfg, s, acts), t, s.st.tokens[t].session, rows)
  {
    var first;
    first, rows := ManyHold(cfg, s, t, {}, k);
    var rest := AllInsert(cfg, Run(cfg, s, first), t, s.st.tokens[t].session, rows, {});
    acts := first + rest;
    RunSplit(cfg, s, first, rest);
    assert rows + {} == rows;
  }
}
