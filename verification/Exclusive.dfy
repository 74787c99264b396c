/** Interleaved calls: exactly which overlaps cost a session its one open token. Any calls may overlap as long as no
    refresh reads a token that another refresh holds and no mark is lost. */
module Exclusive {
  import opened Domain
  import opened Store
  import opened Machine
  import opened Invariant
  import opened Rotation

  // ----- the property -----

  /** Call c has inserted a successor of row i and marks it with its next statement. */
  predicate AboutToMark(s: Sys, c: Id, i: Id) {
    c in s.calls && s.calls[c].RefreshCreated? && s.calls[c].raw == i
  }

  /** Stored, unused, and nobody is about to change that. */
  ghost predicate Open(s: Sys, i: Id) {
    i in s.st.tokens && !s.st.tokens[i].IsUsed() && forall c :: !AboutToMark(s, c, i)
  }

  ghost predicate NotBothOpen(s: Sys, i: Id, j: Id) {
    i in s.st.tokens && j in s.st.tokens && i < j && s.st.tokens[i].session == s.st.tokens[j].session ==> !Open(s, i)
  }

  /** Of any two rows of a session the older is used, or about to be marked used. */
  ghost predicate OneOpen(s: Sys) {
    forall i, j :: NotBothOpen(s, i, j)
  }

  // ----- the condition on runs -----

  ghost predicate NotHeld(s: Sys, t: Id, m: Id) {
    m in s.calls ==> !Holds(s.calls[m], t)
  }

  /** No refresh reads a token that another refresh holds. */
  ghost predicate ReadsAlone(s: Sys, a: Action) {
    a.Advance? && a.n in s.calls && s.calls[a.n].RefreshBegun? && s.calls[a.n].presented.Some? ==>
      forall m :: NotHeld(s, s.calls[a.n].presented.value, m)
  }

  ghost predicate Orderly(cfg: Config, s: Sys, acts: seq<Action>)
    decreases |acts|
  {
    acts == [] || (ReadsAlone(s, acts[0]) && MarkNotLost(s, acts[0]) && Orderly(cfg, Next(cfg, s, acts[0]), acts[1..]))
  }

  // ----- what orderly runs keep -----

  predicate IsHolder(call: Call) {
    call.RefreshFresh? || call.RefreshAllowed? || call.RefreshCreated?
  }

  /** An older pair of a session has a successor. */
  ghost predicate Superseded(issued: map<Id, Pair>, i: Id, j: Id) {
    i in issued && j in issued && i < j && issued[i].claims.session == issued[j].claims.session ==>
      Successors(issued, i) != {}
  }

  /** Whoever holds a token and has not inserted yet holds one without successors. */
  ghost predicate FirstOfItsToken(s: Sys, n: Id) {
    n in s.calls && (s.calls[n].RefreshFresh? || s.calls[n].RefreshAllowed?) ==>
      Successors(s.st.issued, s.calls[n].raw) == {}
  }

  ghost predicate OneHolder(s: Sys, n: Id, m: Id) {
    n in s.calls && m in s.calls && n != m && IsHolder(s.calls[n]) && IsHolder(s.calls[m]) ==>
      s.calls[n].raw != s.calls[m].raw
  }

  ghost predicate Exclusive(s: Sys) {
    && (forall i, j :: Superseded(s.st.issued, i, j))
    && (forall n :: FirstOfItsToken(s, n))
    && (forall n, m :: OneHolder(s, n, m))
    && (forall t, n :: MarkPending(s, t, n))
  }

  /** A call becomes a holder only by reading an unused row. */
  lemma StillHolder(cfg: Config, s: Sys, n: Id)
    requires Inv(cfg, s) && n in s.calls
    ensures var s', call := Next(cfg, s, Advance(n)), s.calls[n];
            n in s'.calls && IsHolder(s'.calls[n]) ==>
              || (IsHolder(call) && s'.calls[n].raw == call.raw)
              || (call.RefreshBegun? && call.presented == Some(s'.calls[n].raw) && s'.calls[n].RefreshFresh?
                  && s'.calls[n].raw in s.st.tokens && !s.st.tokens[s'.calls[n].raw].IsUsed() && s'.st == s.st)
  {
    var call := s.calls[n];
    if IsRefresh(call) {
    } else if IsLogout(call) {
    } else if IsTeam(call) {
    } else {
    }
  }

  /** A holder that has not inserted yet holds the youngest pair of its session. */
  lemma HoldsYoungest(cfg: Config, s: Sys, n: Id, i: Id)
    requires Inv(cfg, s) && Exclusive(s) && n in s.calls && s.calls[n].RefreshAllowed? && i in s.st.issued
    requires s.st.issued[i].claims.session == s.calls[n].row.session
    ensures i <= s.calls[n].raw
  {
    assert CallFine(s.st.issued, s.st.next, s.clock, n, s.calls[n]);
    assert FirstOfItsToken(s, n);
    assert Superseded(s.st.issued, s.calls[n].raw, i);
  }

  lemma StatementSupersedes(cfg: Config, s: Sys, c: Id, i: Id, j: Id)
    requires Inv(cfg, s) && Exclusive(s) && c in s.calls
    ensures Superseded(Next(cfg, s, Advance(c)).st.issued, i, j)
  {
    NewPair(cfg, s, c);
    var call, issued, issued' := s.calls[c], s.st.issued, Next(cfg, s, Advance(c)).st.issued;
    assert CallFine(s.st.issued, s.st.next, s.clock, c, call);
    assert Superseded(issued, i, j);
    assert PairFine(cfg, issued, s.st.next, s.clock, i) && PairFine(cfg, issued, s.st.next, s.clock, j);
    if call.RefreshAllowed? {
      assert c in Successors(issued', call.raw);
      assert Superseded(issued, i, call.raw);
      if i in issued && issued[i].claims.session == call.row.session {
        HoldsYoungest(cfg, s, c, i);
      }
      if j in issued && issued[j].claims.session == call.row.session {
        HoldsYoungest(cfg, s, c, j);
      }
      assert forall k :: k in Successors(issued, i) ==> k in Successors(issued', i);
    } else if call.LoginCleared? {
      assert forall k :: k in Successors(issued, i) ==> k in Successors(issued', i);
    }
  }

  lemma StatementHolders(cfg: Config, s: Sys, c: Id, n: Id, m: Id)
    requires Inv(cfg, s) && Exclusive(s) && c in s.calls && ReadsAlone(s, Advance(c))
    ensures OneHolder(Next(cfg, s, Advance(c)), n, m)
  {
    assert OneHolder(s, n, m);
    StillHolder(cfg, s, c);
    if s.calls[c].RefreshBegun? && s.calls[c].presented.Some? {
      assert NotHeld(s, s.calls[c].presented.value, n) && NotHeld(s, s.calls[c].presented.value, m);
    }
  }

  /** An unused row that nobody holds has no successors. */
  lemma UnheldHasNone(cfg: Config, s: Sys, t: Id)
    requires Exclusive(s) && t in s.st.tokens && !s.st.tokens[t].IsUsed() && forall m :: NotHeld(s, t, m)
    ensures Successors(s.st.issued, t) == {}
  {
    forall k
      ensures k !in Successors(s.st.issued, t)
    {
      assert MarkPending(s, t, k);
      assert NotHeld(s, t, k);
    }
  }

  lemma StatementFirst(cfg: Config, s: Sys, c: Id, n: Id)
    requires Inv(cfg, s) && Exclusive(s) && c in s.calls && ReadsAlone(s, Advance(c))
    ensures FirstOfItsToken(Next(cfg, s, Advance(c)), n)
  {
    var s', call := Next(cfg, s, Advance(c)), s.calls[c];
    NewPair(cfg, s, c);
    StillHolder(cfg, s, c);
    assert FirstOfItsToken(s, n) && OneHolder(s, n, c);
    assert CallFine(s.st.issued, s.st.next, s.clock, c, call);
    if n == c && call.RefreshBegun? && c in s'.calls && s'.calls[c].RefreshFresh? {
      UnheldHasNone(cfg, s, s'.calls[c].raw);
    } else if n in s'.calls && (s'.calls[n].RefreshFresh? || s'.calls[n].RefreshAllowed?) {
      assert forall k :: k in Successors(s'.st.issued, s'.calls[n].raw) ==> k in Successors(s.st.issued, s'.calls[n].raw);
    }
  }

  lemma ExclusiveStep(cfg: Config, s: Sys, a: Action)
    requires Inv(cfg, s) && Exclusive(s) && ReadsAlone(s, a) && MarkNotLost(s, a)
    ensures Exclusive(Next(cfg, s, a))
  {
    var s' := Next(cfg, s, a);
    forall t: Id, n: Id
      ensures MarkPending(s', t, n)
    {
      assert MarkPending(s, t, n);
      PendingStep(cfg, s, a, t, n);
    }
    forall i: Id, j: Id
      ensures Superseded(s'.st.issued, i, j) && OneHolder(s', i, j)
    {
      if a.Advance? && a.n in s.calls {
        StatementSupersedes(cfg, s, a.n, i, j);
        StatementHolders(cfg, s, a.n, i, j);
      } else {
        assert Superseded(s.st.issued, i, j) && OneHolder(s, i, j);
      }
    }
    forall n: Id
      ensures FirstOfItsToken(s', n)
    {
      if a.Advance? && a.n in s.calls {
        StatementFirst(cfg, s, a.n, n);
      } else {
        assert FirstOfItsToken(s, n);
      }
    }
  }

  lemma {:induction false} ExclusiveAlong(cfg: Config, s: Sys, acts: seq<Action>)
    requires Inv(cfg, s) && Exclusive(s) && Orderly(cfg, s, acts)
    ensures Inv(cfg, Run(cfg, s, acts)) && Exclusive(Run(cfg, s, acts))
    decreases |acts|
  {
    if acts != [] {
      ExclusiveStep(cfg, s, acts[0]);
      Kept(cfg, s, acts[0]);
      ExclusiveAlong(cfg, Next(cfg, s, acts[0]), acts[1..]);
    }
  }

  lemma ExclusiveIsOneOpen(cfg: Config, s: Sys)
    requires Inv(cfg, s) && Exclusive(s)
    ensures OneOpen(s)
  {
    forall i: Id, j: Id
      ensures NotBothOpen(s, i, j)
    {
      assert RowFine(cfg, s.st.tokens, s.st.issued, i) && RowFine(cfg, s.st.tokens, s.st.issued, j);
      assert Superseded(s.st.issued, i, j);
      if i in s.st.issued && Successors(s.st.issued, i) != {} {
        var n :| n in Successors(s.st.issued, i);
        assert MarkPending(s, i, n);
        assert i in s.st.tokens && !s.st.tokens[i].IsUsed() ==> AboutToMark(s, n, i);
      }
    }
  }

  /** In every run in which no refresh reads a token that another one holds and no mark is lost, whatever else
      overlaps: of any two rows of a session, at any moment, the older is used or about to be marked so. */
  lemma OneOpenAlong(cfg: Config, init: Sys, acts: seq<Action>)
    requires Initial(init) && Orderly(cfg, init, acts)
    ensures OneOpen(Run(cfg, init, acts))
  {
    Inits(cfg, init);
    ExclusiveAlong(cfg, init, acts);
    ExclusiveIsOneOpen(cfg, Run(cfg, init, acts));
  }

  /** In particular a session has at most one usable token whenever no refresh of it stands between insert and mark. */
  lemma OneUsableAlong(cfg: Config, init: Sys, acts: seq<Action>, i: Id, j: Id)
    requires Initial(init) && Orderly(cfg, init, acts)
    requires var end := Run(cfg, init, acts);
             && i in end.st.tokens && j in end.st.tokens && end.st.tokens[i].session == end.st.tokens[j].session
             && end.st.tokens[i].IsUsable(end.clock) && end.st.tokens[j].IsUsable(end.clock)
             && forall c :: c in end.calls && end.calls[c].RefreshCreated? ==>
                  end.calls[c].row.session != end.st.tokens[i].session
    ensures i == j
  {
    var end := Run(cfg, init, acts);
    OneOpenAlong(cfg, init, acts);
    KeptAlongFrom(cfg, init, acts);
    forall c
      ensures !AboutToMark(end, c, i) && !AboutToMark(end, c, j)
    {
      if c in end.calls && end.calls[c].RefreshCreated? {
        assert CallFine(end.st.issued, end.st.next, end.clock, c, end.calls[c]);
        assert RowFine(cfg, end.st.tokens, end.st.issued, end.calls[c].raw);
      }
    }
    assert NotBothOpen(end, i, j) && NotBothOpen(end, j, i);
  }

  lemma KeptAlongFrom(cfg: Config, init: Sys, acts: seq<Action>)
    requires Initial(init)
    ensures Inv(cfg, Run(cfg, init, acts))
  {
    Inits(cfg, init);
    KeptAlong(cfg, init, acts);
  }

  // ----- both conditions are needed -----

  /** A holder of a token that will insert an open row, or just did. */
  ghost predicate CanInsert(s: Sys, n: Id) {
    n in s.calls && match s.calls[n]
                    case RefreshFresh(now, _, row) => row.user in s.st.users && s.st.users[row.user].EnsureCanLogin(now).None?
                    case RefreshAllowed(_, _, _, _) => true
                    case RefreshCreated(_, _, _) => Open(s, n)
                    case _ => false
  }

  /** Nothing that other calls see has changed but for a new row. */
  ghost predicate OthersAsBefore(s: Sys, s': Sys, n: Id) {
    && s'.st.users == s.st.users && s'.clock == s.clock
    && (forall m :: m in s.calls && m != n ==> m in s'.calls && s'.calls[m] == s.calls[m])
    && (forall i :: i in s.st.tokens ==> i in s'.st.tokens && s'.st.tokens[i] == s.st.tokens[i])
  }

  lemma StillOpen(s: Sys, s': Sys)
    requires s'.st.tokens == s.st.tokens
    requires forall c :: c in s'.calls && s'.calls[c].RefreshCreated? ==> c in s.calls && s.calls[c] == s'.calls[c]
    ensures forall i :: Open(s, i) ==> Open(s', i)
  {
    forall i, c | Open(s, i)
      ensures !AboutToMark(s', c, i)
    {
      assert !AboutToMark(s, c, i);
    }
  }

  /** Lets a holder of t come to the point between its insert and its mark. */
  lemma BringIn(cfg: Config, s: Sys, n: Id, t: Id) returns (acts: seq<Action>)
    requires Inv(cfg, s) && CanInsert(s, n) && s.calls[n].raw == t
    ensures var s' := Run(cfg, s, acts);
            && NoMarkLost(cfg, s, acts) && Inv(cfg, s') && OthersAsBefore(s, s', n)
            && Open(s', n) && t in s'.st.issued && s'.st.tokens[n].session == s'.st.issued[t].claims.session
            && (forall i :: Open(s, i) && i != t ==> Open(s', i))
  {
    assert CallFine(s.st.issued, s.st.next, s.clock, n, s.calls[n]);
    match s.calls[n] {
      case RefreshFresh(_, _, _) =>
        acts := [Advance(n), Advance(n)];
        var s1 := Next(cfg, s, Advance(n));
        assert acts[1..] == [Advance(n)];
        Kept(cfg, s, Advance(n));
        StillOpen(s, s1);
        Inserts(cfg, s1, n, t);
      case RefreshAllowed(_, _, _, _) =>
        acts := [Advance(n)];
        Inserts(cfg, s, n, t);
      case RefreshCreated(_, _, _) =>
        acts := [];
        assert RowFine(cfg, s.st.tokens, s.st.issued, n) && PairFine(cfg, s.st.issued, s.st.next, s.clock, n);
    }
  }

  lemma Inserts(cfg: Config, s: Sys, n: Id, t: Id)
    requires Inv(cfg, s) && n in s.calls && s.calls[n].RefreshAllowed? && s.calls[n].raw == t
    ensures var s' := Run(cfg, s, [Advance(n)]);
            && NoMarkLost(cfg, s, [Advance(n)]) && Inv(cfg, s') && OthersAsBefore(s, s', n)
            && Open(s', n) && t in s'.st.issued && s'.st.tokens[n].session == s'.st.issued[t].claims.session
            && (forall i :: Open(s, i) && i != t ==> Open(s', i))
  {
    var s' := Next(cfg, s, Advance(n));
    assert [Advance(n)][1..] == [];
    assert Run(cfg, s, [Advance(n)]) == Run(cfg, s', []) == s';
    assert CallFine(s.st.issued, s.st.next, s.clock, n, s.calls[n]);
    assert RowFine(cfg, s.st.tokens, s.st.issued, n);
    Kept(cfg, s, Advance(n));
    forall c
      ensures !AboutToMark(s', c, n)
    {
      if c in s.calls && c != n {
        assert CallFine(s.st.issued, s.st.next, s.clock, c, s.calls[c]);
      }
    }
    forall i | Open(s, i) && i != t
      ensures Open(s', i)
    {
      forall c
        ensures !AboutToMark(s', c, i)
      {
        assert !AboutToMark(s, c, i);
      }
    }
  }

  lemma {:induction false} NoMarkLostSplit(cfg: Config, s: Sys, a: seq<Action>, b: seq<Action>)
    requires NoMarkLost(cfg, s, a) && NoMarkLost(cfg, Run(cfg, s, a), b)
    ensures NoMarkLost(cfg, s, a + b)
    decreases |a|
  {
    if a == [] {
      assert a + b == b;
    } else {
      assert (a + b)[1..] == a[1..] + b;
      NoMarkLostSplit(cfg, Next(cfg, s, a[0]), a[1..], b);
    }
  }

  /** Two refreshes that hold one token and can insert: a continuation without any lost mark gives its session two
      open rows. */
  lemma SecondHolderForks(cfg: Config, s: Sys, t: Id, n: Id, m: Id) returns (acts: seq<Action>)
    requires Inv(cfg, s) && n != m && CanInsert(s, n) && CanInsert(s, m) && s.calls[n].raw == t && s.calls[m].raw == t
    ensures NoMarkLost(cfg, s, acts) && !OneOpen(Run(cfg, s, acts))
  {
    assert CallFine(s.st.issued, s.st.next, s.clock, m, s.calls[m]);
    var first := BringIn(cfg, s, n, t);
    var s1 := Run(cfg, s, first);
    assert s.calls[m].RefreshCreated? ==> Open(s1, m);
    var second := BringIn(cfg, s1, m, t);
    assert CallFine(s.st.issued, s.st.next, s.clock, n, s.calls[n]);
    acts := first + second;
    RunSplit(cfg, s, first, second);
    NoMarkLostSplit(cfg, s, first, second);
    var end := Run(cfg, s, acts);
    WriteOnce(cfg, s1, second);
    assert RowKept(s1.st, end.st.tokens, n);
    assert Open(end, n) && Open(end, m);
    assert !NotBothOpen(end, n, m) || !NotBothOpen(end, m, n);
  }

  /** A refresh about to read a token that would let it through if its user were read now. */
  predicate WillPass(s: Sys, call: Call, t: Id) {
    && call.RefreshBegun? && call.presented == Some(t) && t in s.st.tokens && s.st.tokens[t].IsUsable(call.now)
    && s.st.tokens[t].user in s.st.users && s.st.users[s.st.tokens[t].user].EnsureCanLogin(call.now).None?
  }

  /** The first condition is needed: reading a usable token while another refresh holds it and can insert leads to
      two open rows, with no mark lost. */
  lemma OverlappingReadForks(cfg: Config, s: Sys, t: Id, c: Id, m: Id) returns (acts: seq<Action>)
    requires Inv(cfg, s) && c in s.calls && WillPass(s, s.calls[c], t)
    requires c != m && CanInsert(s, m) && s.calls[m].raw == t
    ensures NoMarkLost(cfg, s, [Advance(c)] + acts) && !OneOpen(Run(cfg, s, [Advance(c)] + acts))
  {
    var s1 := Next(cfg, s, Advance(c));
    Kept(cfg, s, Advance(c));
    StillOpen(s, s1);
    acts := SecondHolderForks(cfg, s1, t, c, m);
    assert ([Advance(c)] + acts)[1..] == acts;
  }

  /** The second condition is needed: a refresh that dies between insert and mark leaves two open rows at once. */
  lemma LostMarkForks(cfg: Config, s: Sys, n: Id, t: Id)
    requires Inv(cfg, s) && Exclusive(s) && AboutToMark(s, n, t)
    requires t in s.st.tokens && !s.st.tokens[t].IsUsed() && n in s.st.tokens
    ensures !OneOpen(Next(cfg, s, Abort(n)))
  {
    var s' := Next(cfg, s, Abort(n));
    assert CallFine(s.st.issued, s.st.next, s.clock, n, s.calls[n]);
    assert RowFine(cfg, s.st.tokens, s.st.issued, n) && RowFine(cfg, s.st.tokens, s.st.issued, t);
    assert PairFine(cfg, s.st.issued, s.st.next, s.clock, n);
    forall c
      ensures !AboutToMark(s', c, t)
    {
      assert OneHolder(s, c, n);
    }
    assert Open(s', t);
    assert !NotBothOpen(s', t, n);
  }
}
