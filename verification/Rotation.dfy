/** Interleaved calls: rotation and revocation columns are write-once, successor links form no cycle, and a
    token has no more successors than the refreshes that held it when it was first marked used. */
module Rotation {
  import opened Domain
  import opened Store
  import opened Machine
  import opened Invariant
  import Atomic

  // ----- write-once -----

  /** A row never changes owner, session or expiry; what is written in used_at, replaced_by, revoked_at or
      revoked_reason stays as written. */
  ghost predicate RowLater(older: RefreshToken, newer: RefreshToken) {
    && newer.user == older.user && newer.session == older.session && newer.expiresAt == older.expiresAt
    && (older.usedAt.Some? ==> newer.usedAt == older.usedAt)
    && (older.replacedBy.Some? ==> newer.replacedBy == older.replacedBy)
    && (older.revoked.Some? ==> newer.revoked == older.revoked)
  }

  /** Rows stay as written or are deleted for good; issued pairs are never altered. */
  ghost predicate Later(s: Sys, s': Sys) {
    && (forall i :: RowKept(s.st, s'.st.tokens, i))
    && (forall n :: n in s.st.issued ==> n in s'.st.issued && s'.st.issued[n] == s.st.issued[n])
  }

  ghost predicate RowKept(st: State, tokens': Tokens, i: Id) {
    i in tokens' && i in st.issued ==> i in st.tokens && RowLater(st.tokens[i], tokens'[i])
  }

  lemma LaterStep(cfg: Config, s: Sys, a: Action)
    requires Inv(cfg, s)
    ensures Later(s, Next(cfg, s, a))
  {
    var s' := Next(cfg, s, a);
    if a.Purge? {
      KeptByPurge(cfg, s, a.before);
    } else if a.Advance? && a.n in s.calls {
      var call := s.calls[a.n];
      assert CallFine(s.st.issued, s.st.next, s.clock, a.n, call);
      if IsQuiet(call) {
        RevokedOnce(cfg, s, a.n);
      } else {
        forall i
          ensures RowKept(s.st, s'.st.tokens, i)
        {
          assert RowFine(cfg, s.st.tokens, s.st.issued, i);
        }
      }
    }
  }

  lemma RevokedOnce(cfg: Config, s: Sys, n: Id)
    requires Inv(cfg, s) && n in s.calls && IsQuiet(s.calls[n])
    ensures Later(s, Next(cfg, s, Advance(n)))
  {
    QuietStatement(cfg, s, n);
    var s', call := Next(cfg, s, Advance(n)), s.calls[n];
    forall i | i in s.st.tokens && s.st.tokens[i].IsRevoked()
      ensures s'.st.tokens[i].revoked == s.st.tokens[i].revoked
    {
      if IsRefresh(call) {
      } else if IsLogout(call) {
      } else if IsTeam(call) {
      } else {
      }
    }
  }

  lemma LaterChains(s: Sys, mid: Sys, end: Sys)
    requires Later(s, mid) && Later(mid, end)
    ensures Later(s, end)
  {
    forall i
      ensures RowKept(s.st, end.st.tokens, i)
    {
      assert RowKept(s.st, mid.st.tokens, i);
      assert RowKept(mid.st, end.st.tokens, i);
    }
  }

  /** Over every run of every interleaving, from any state that fits together. */
  lemma {:induction false} WriteOnce(cfg: Config, s: Sys, acts: seq<Action>)
    requires Inv(cfg, s)
    ensures Later(s, Run(cfg, s, acts))
    decreases |acts|
  {
    if acts == [] {
      forall i
        ensures RowKept(s.st, s.st.tokens, i)
      {
        assert RowFine(cfg, s.st.tokens, s.st.issued, i);
      }
    } else {
      LaterStep(cfg, s, acts[0]);
      Kept(cfg, s, acts[0]);
      WriteOnce(cfg, Next(cfg, s, acts[0]), acts[1..]);
      LaterChains(s, Next(cfg, s, acts[0]), Run(cfg, s, acts));
    }
  }

  // ----- successor links -----

  ghost predicate LinkForward(tokens: Tokens, next: Id, i: Id) {
    i in tokens && tokens[i].replacedBy.Some? ==>
      i < tokens[i].replacedBy.value < next && tokens[i].replacedBy.value in tokens
  }

  lemma LinksGoForward(cfg: Config, s: Sys)
    requires Inv(cfg, s)
    ensures forall i :: LinkForward(s.st.tokens, s.st.next, i)
    ensures forall i :: i in s.st.tokens ==> i < s.st.next
  {
    forall i: Id
      ensures LinkForward(s.st.tokens, s.st.next, i) && (i in s.st.tokens ==> i < s.st.next)
    {
      assert RowFine(cfg, s.st.tokens, s.st.issued, i);
      assert PairFine(cfg, s.st.issued, s.st.next, s.clock, i);
      if i in s.st.tokens && s.st.tokens[i].replacedBy.Some? {
        assert PairFine(cfg, s.st.issued, s.st.next, s.clock, s.st.tokens[i].replacedBy.value);
      }
    }
  }

  /** Follows replaced_by from row i to a row that has no successor. */
  ghost function Walk(tokens: Tokens, next: Id, i: Id): (w: seq<Id>)
    requires i in tokens && i < next && forall k :: LinkForward(tokens, next, k)
    ensures |w| > 0 && w[0] == i
    ensures forall k :: 0 <= k < |w| ==> w[k] in tokens
    ensures forall k :: 0 <= k < |w| - 1 ==> tokens[w[k]].replacedBy == Some(w[k + 1])
    ensures tokens[w[|w| - 1]].replacedBy == None
    decreases next - i
  {
    assert LinkForward(tokens, next, i);
    if tokens[i].replacedBy.None? then [i] else [i] + Walk(tokens, next, tokens[i].replacedBy.value)
  }

  /** One link of a walk: a younger row, made from the one before it, of the same user and session. */
  ghost predicate LinkFine(st: State, i: Id, heir: Id) {
    && i in st.tokens && heir in st.tokens && heir in st.issued
    && i < heir && st.issued[heir].parent == Some(i)
    && st.tokens[heir].user == st.tokens[i].user && st.tokens[heir].session == st.tokens[i].session
  }

  ghost predicate LinksFine(st: State, w: seq<Id>) {
    forall k :: 0 <= k < |w| - 1 ==> LinkFine(st, w[k], w[k + 1])
  }

  /** In every state that fits together the walk from any row ends, and all its links are fine. */
  lemma {:induction false} WalkStaysInSession(cfg: Config, s: Sys, i: Id)
    requires Inv(cfg, s) && i in s.st.tokens
    ensures i < s.st.next && forall k :: LinkForward(s.st.tokens, s.st.next, k)
    ensures LinksFine(s.st, Walk(s.st.tokens, s.st.next, i))
    decreases s.st.next - i
  {
    LinksGoForward(cfg, s);
    assert RowFine(cfg, s.st.tokens, s.st.issued, i);
    if s.st.tokens[i].replacedBy.Some? {
      var heir := s.st.tokens[i].replacedBy.value;
      assert LinkForward(s.st.tokens, s.st.next, i);
      assert RowFine(cfg, s.st.tokens, s.st.issued, heir);
      assert PairFine(cfg, s.st.issued, s.st.next, s.clock, heir);
      assert LinkFine(s.st, i, heir);
      WalkStaysInSession(cfg, s, heir);
      assert LinksFine(s.st, Walk(s.st.tokens, s.st.next, heir));
    }
  }

  // ----- how many successors -----

  /** A call that has read row t unused and may still insert a successor, or just did. */
  predicate Holds(call: Call, t: Id) {
    (call.RefreshFresh? || call.RefreshAllowed? || call.RefreshCreated?) && call.raw == t
  }

  ghost function Holders(s: Sys, t: Id): set<Id> {
    set n | n in s.calls && Holds(s.calls[n], t)
  }

  ghost function Successors(issued: map<Id, Pair>, t: Id): set<Id> {
    set n | n in issued && issued[n].parent == Some(t)
  }

  /** No call dies, or fails its foreign key, between inserting its row and marking its parent used. */
  predicate MarkNotLost(s: Sys, a: Action) {
    match a
    case Abort(n) => n in s.calls ==> !s.calls[n].RefreshCreated?
    case Advance(n) =>
      n in s.calls && s.calls[n].RefreshCreated? ==> MarkUsed(s.st.tokens, s.calls[n].raw, n, s.calls[n].now).Some?
    case _ => true
  }

  predicate NoMarkLost(cfg: Config, s: Sys, acts: seq<Action>)
    decreases |acts|
  {
    acts == [] || (MarkNotLost(s, acts[0]) && NoMarkLost(cfg, Next(cfg, s, acts[0]), acts[1..]))
  }

  /** While t is unused, whoever inserted a successor of t is still about to mark it. */
  ghost predicate MarkPending(s: Sys, t: Id, n: Id) {
    n in s.st.issued && s.st.issued[n].parent == Some(t) && t in s.st.tokens && !s.st.tokens[t].IsUsed() ==>
      n in s.calls && s.calls[n].RefreshCreated? && s.calls[n].raw == t
  }

  lemma PendingStep(cfg: Config, s: Sys, a: Action, t: Id, n: Id)
    requires Inv(cfg, s) && MarkNotLost(s, a) && MarkPending(s, t, n)
    ensures MarkPending(Next(cfg, s, a), t, n)
  {
    LaterStep(cfg, s, a);
    assert RowKept(s.st, Next(cfg, s, a).st.tokens, t);
    if n in s.calls {
      assert CallFine(s.st.issued, s.st.next, s.clock, n, s.calls[n]);
    }
    assert PairFine(cfg, s.st.issued, s.st.next, s.clock, n);
    if a.Advance? && a.n in s.calls {
      assert CallFine(s.st.issued, s.st.next, s.clock, a.n, s.calls[a.n]);
      NewPair(cfg, s, a.n);
    }
  }

  /** Only two statements add a pair, each under the number of its own call. */
  lemma NewPair(cfg: Config, s: Sys, n: Id)
    requires Inv(cfg, s) && n in s.calls
    ensures var s', call := Next(cfg, s, Advance(n)), s.calls[n];
            && (call.RefreshAllowed? ==>
                  && n in s'.calls && s'.calls[n].RefreshCreated? && s'.calls[n].raw == call.raw
                  && s'.st.issued == s.st.issued[n := s'.st.issued[n]] && s'.st.issued[n].parent == Some(call.raw)
                  && s'.st.issued[n].claims.session == call.row.session && s'.st.issued[n].claims.user == call.row.user
                  && s'.st.issued[n].claims.role == call.user.role && s'.st.issued[n].at == call.now)
            && (call.LoginCleared? ==>
                  && s'.st.issued == s.st.issued[n := s'.st.issued[n]] && s'.st.issued[n].parent == None
                  && s'.st.issued[n].claims.session == n && s'.st.issued[n].claims.user == call.id
                  && s'.st.issued[n].claims.role == call.user.role && s'.st.issued[n].at == call.now)
            && (!call.RefreshAllowed? && !call.LoginCleared? ==> s'.st.issued == s.st.issued)
  {
    var call := s.calls[n];
    if IsQuiet(call) {
      QuietStatement(cfg, s, n);
    }
  }

  lemma {:induction false} PendingAlong(cfg: Config, s: Sys, acts: seq<Action>, t: Id, n: Id)
    requires Inv(cfg, s) && NoMarkLost(cfg, s, acts) && MarkPending(s, t, n)
    ensures MarkPending(Run(cfg, s, acts), t, n)
    decreases |acts|
  {
    if acts != [] {
      PendingStep(cfg, s, acts[0], t, n);
      Kept(cfg, s, acts[0]);
      PendingAlong(cfg, Next(cfg, s, acts[0]), acts[1..], t, n);
    }
  }

  /** Once t is used, only the calls in k can ever insert a successor of t. */
  ghost predicate Closed(s: Sys, t: Id, k: set<Id>) {
    && t in s.st.issued
    && (t in s.st.tokens ==> s.st.tokens[t].IsUsed())
    && Successors(s.st.issued, t) <= k
    && Holders(s, t) <= k
  }

  lemma ClosedStep(cfg: Config, s: Sys, a: Action, t: Id, k: set<Id>)
    requires Inv(cfg, s) && Closed(s, t, k)
    ensures Closed(Next(cfg, s, a), t, k)
  {
    var s' := Next(cfg, s, a);
    LaterStep(cfg, s, a);
    assert RowKept(s.st, s'.st.tokens, t);
    if a.Advance? && a.n in s.calls {
      NewPair(cfg, s, a.n);
      assert Holds(s.calls[a.n], t) ==> a.n in Holders(s, t);
      ReadUsed(cfg, s, a.n, t);
      forall n | n in Holders(s', t)
        ensures n in k
      {
        assert n != a.n ==> n in Holders(s, t);
      }
      forall n | n in Successors(s'.st.issued, t)
        ensures n in k
      {
        assert n != a.n ==> n in Successors(s.st.issued, t);
        assert s.st.issued == s'.st.issued ==> n in Successors(s.st.issued, t);
      }
    } else {
      assert Holders(s', t) <= Holders(s, t);
    }
  }

  lemma ReadUsed(cfg: Config, s: Sys, n: Id, t: Id)
    requires Inv(cfg, s) && n in s.calls && (t in s.st.tokens ==> s.st.tokens[t].IsUsed())
    ensures var s' := Next(cfg, s, Advance(n));
            n in s'.calls && Holds(s'.calls[n], t) ==> Holds(s.calls[n], t)
  {
    var call := s.calls[n];
    if IsRefresh(call) {
    } else if IsLogout(call) {
    } else if IsTeam(call) {
    } else {
    }
  }

  lemma {:induction false} ClosedAlong(cfg: Config, s: Sys, acts: seq<Action>, t: Id, k: set<Id>)
    requires Inv(cfg, s) && Closed(s, t, k)
    ensures Closed(Run(cfg, s, acts), t, k)
    decreases |acts|
  {
    if acts != [] {
      ClosedStep(cfg, s, acts[0], t, k);
      Kept(cfg, s, acts[0]);
      ClosedAlong(cfg, Next(cfg, s, acts[0]), acts[1..], t, k);
    }
  }

  lemma SubsetSize(a: set<Id>, b: set<Id>)
    requires a <= b
    ensures |a| <= |b|
  {
    assert b == a + (b - a);
  }

  /** Take any run in which no mark was lost, up to the statement by which call c first marks token t used.
      Whatever happens afterwards, every successor of t is the row of a refresh that held t at that moment,
      so t never has more successors than there were such refreshes in flight. */
  lemma SuccessorsBounded(cfg: Config, init: Sys, before: seq<Action>, c: Id, t: Id, later: seq<Action>)
    requires Initial(init) && NoMarkLost(cfg, init, before)
    requires var s := Run(cfg, init, before);
             && c in s.calls && s.calls[c].RefreshCreated? && s.calls[c].raw == t
             && t in s.st.tokens && !s.st.tokens[t].IsUsed()
             && t in Next(cfg, s, Advance(c)).st.tokens && Next(cfg, s, Advance(c)).st.tokens[t].IsUsed()
    ensures var s := Run(cfg, init, before);
            var end := Run(cfg, Next(cfg, s, Advance(c)), later);
            && Successors(end.st.issued, t) <= Holders(s, t)
            && |Successors(end.st.issued, t)| <= |Holders(s, t)|
  {
    Inits(cfg, init);
    KeptAlong(cfg, init, before);
    var s := Run(cfg, init, before);
    var s' := Next(cfg, s, Advance(c));
    var k := Holders(s, t);
    forall n | n in Successors(s.st.issued, t)
      ensures n in k
    {
      PendingAlong(cfg, init, before, t, n);
    }
    assert RowFine(cfg, s.st.tokens, s.st.issued, t);
    NewPair(cfg, s, c);
    assert Holders(s', t) <= k;
    Kept(cfg, s, Advance(c));
    ClosedAlong(cfg, s', later, t, k);
    SubsetSize(Successors(Run(cfg, s', later).st.issued, t), k);
  }
}
