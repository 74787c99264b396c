/** Whole calls keep every session one linear rotation chain, and clean-up cuts a prefix off it. */
module Chain {
  import opened Domain
  import opened Store
  import opened Atomic

  /** What every reachable state of whole calls satisfies, row by row and pair by pair of rows. */
  ghost predicate Linear(cfg: Config, st: State, clock: Time) {
    && st.next > NIL
    && (forall i :: RowFine(cfg, st.tokens, st.next, clock, i))
    && (forall i, j :: Succession(st.tokens, i, j))
  }

  ghost predicate RowFine(cfg: Config, tokens: Tokens, next: Id, clock: Time, i: Id) {
    i in tokens ==>
      && NIL < tokens[i].session <= i < next
      && tokens[i].expiresAt <= clock + cfg.refreshTTL
      && (tokens[i].IsUsed() <==> tokens[i].replacedBy.Some?)
      && (tokens[i].replacedBy.Some? ==> HeirFine(tokens, i, tokens[i].replacedBy.value))
  }

  ghost predicate HeirFine(tokens: Tokens, i: Id, heir: Id)
    requires i in tokens
  {
    && i < heir && heir in tokens
    && tokens[heir].session == tokens[i].session
    && tokens[heir].user == tokens[i].user
    && tokens[i].expiresAt <= tokens[heir].expiresAt
  }

  /** An older row of a session has been replaced, by nothing newer than any younger row. */
  ghost predicate Succession(tokens: Tokens, i: Id, j: Id) {
    i in tokens && j in tokens && i < j && tokens[i].session == tokens[j].session ==>
      tokens[i].replacedBy.Some? && tokens[i].replacedBy.value <= j
  }

  // ----- one event -----

  lemma LinearWhenRevoked(cfg: Config, st: State, st': State, clock: Time, now: Time)
    requires Linear(cfg, st, clock) && clock <= now
    requires st'.next >= st.next && st'.tokens.Keys == st.tokens.Keys
    requires forall i :: i in st.tokens ==> st'.tokens[i] == st.tokens[i].(revoked := st'.tokens[i].revoked)
    ensures Linear(cfg, st', now)
  {
    forall i
      ensures RowFine(cfg, st'.tokens, st'.next, now, i)
    {
      assert RowFine(cfg, st.tokens, st.next, clock, i);
    }
    forall i, j
      ensures Succession(st'.tokens, i, j)
    {
      assert Succession(st.tokens, i, j);
    }
  }

  /** Inserting the row of a new session. */
  lemma LinearWhenStarted(cfg: Config, st: State, st': State, user: Id, clock: Time, now: Time)
    requires Linear(cfg, st, clock) && clock <= now
    requires st'.next == st.next + 1 && st'.tokens == st.tokens[st.next := NewRow(user, st.next, now + cfg.refreshTTL)]
    ensures Linear(cfg, st', now)
  {
    forall i
      ensures RowFine(cfg, st'.tokens, st'.next, now, i)
    {
      assert RowFine(cfg, st.tokens, st.next, clock, i);
      if i in st.tokens && st.tokens[i].replacedBy.Some? {
        assert RowFine(cfg, st.tokens, st.next, clock, st.tokens[i].replacedBy.value);
      }
    }
    forall i, j
      ensures Succession(st'.tokens, i, j)
    {
      assert Succession(st.tokens, i, j);
      assert RowFine(cfg, st.tokens, st.next, clock, i);
      assert RowFine(cfg, st.tokens, st.next, clock, j);
    }
  }

  /** Inserting a successor and marking the presented row used. */
  lemma LinearWhenRotated(cfg: Config, st: State, st': State, raw: Id, clock: Time, now: Time)
    requires Linear(cfg, st, clock) && clock <= now
    requires raw in st.tokens && !st.tokens[raw].IsUsed() && st'.next == st.next + 1
    requires var row := st.tokens[raw];
             st'.tokens == st.tokens[st.next := NewRow(row.user, row.session, now + cfg.refreshTTL)]
                             [raw := row.(usedAt := Some(now), replacedBy := Some(st.next))]
    ensures Linear(cfg, st', now)
  {
    assert RowFine(cfg, st.tokens, st.next, clock, raw);
    forall i
      ensures RowFine(cfg, st'.tokens, st'.next, now, i)
    {
      assert RowFine(cfg, st.tokens, st.next, clock, i);
      if i in st.tokens && st.tokens[i].replacedBy.Some? {
        assert RowFine(cfg, st.tokens, st.next, clock, st.tokens[i].replacedBy.value);
      }
    }
    forall i, j
      ensures Succession(st'.tokens, i, j)
    {
      assert Succession(st.tokens, i, j);
      assert Succession(st.tokens, raw, i);
      assert Succession(st.tokens, i, raw);
      assert RowFine(cfg, st.tokens, st.next, clock, i);
      assert RowFine(cfg, st.tokens, st.next, clock, j);
    }
  }

  lemma LinearWhenPurged(cfg: Config, st: State, before: Time, clock: Time, now: Time)
    requires Linear(cfg, st, clock) && clock <= now
    ensures Linear(cfg, st.(tokens := DeleteExpired(st.tokens, before)), now)
    ensures forall i :: i in DeleteExpired(st.tokens, before) ==> DeleteExpired(st.tokens, before)[i] == st.tokens[i]
  {
    var left := DeleteExpired(st.tokens, before);
    forall i | i in left
      ensures left[i] == st.tokens[i]
    {
      assert RowFine(cfg, st.tokens, st.next, clock, i);
    }
    forall i
      ensures RowFine(cfg, left, st.next, now, i)
    {
      assert RowFine(cfg, st.tokens, st.next, clock, i);
    }
    forall i, j
      ensures Succession(left, i, j)
    {
      assert Succession(st.tokens, i, j);
    }
  }

  lemma QuietRefresh(cfg: Config, st: State, raw: Id, now: Time)
    requires !Serve(cfg, st, Refresh(raw), now).reply.Issued?
    requires st.next !in st.tokens
    ensures var st' := Serve(cfg, st, Refresh(raw), now).state;
            && st'.next == st.next + 1 && st'.tokens.Keys == st.tokens.Keys
            && forall i :: i in st.tokens ==> st'.tokens[i] == st.tokens[i].(revoked := st'.tokens[i].revoked)
  {
  }

  /** A call that issues no pair touches nothing but revocation columns. */
  lemma QuietCall(cfg: Config, st: State, req: Request, now: Time)
    requires !Serve(cfg, st, req, now).reply.Issued?
    requires st.next !in st.tokens
    ensures var st' := Serve(cfg, st, req, now).state;
            && st'.next == st.next + 1 && st'.tokens.Keys == st.tokens.Keys
            && forall i :: i in st.tokens ==> st'.tokens[i] == st.tokens[i].(revoked := st'.tokens[i].revoked)
  {
    match req {
      case Login(email, check) =>
      case Refresh(raw) => QuietRefresh(cfg, st, raw, now);
      case Logout(cookie, jti) =>
      case LogoutAll(user) =>
      case Revoke(member) =>
      case UpdateRole(member, role) =>
    }
  }

  lemma LinearAfterCall(cfg: Config, st: State, req: Request, clock: Time, now: Time)
    requires Linear(cfg, st, clock) && clock <= now
    ensures Linear(cfg, Serve(cfg, st, req, now).state, now)
  {
    var r := Serve(cfg, st, req, now);
    assert RowFine(cfg, st.tokens, st.next, clock, st.next);
    if !r.reply.Issued? {
      QuietCall(cfg, st, req, now);
      LinearWhenRevoked(cfg, st, r.state, clock, now);
    } else if req.Login? {
      LinearWhenStarted(cfg, st, r.state, st.byEmail[req.email], clock, now);
    } else {
      LinearWhenRotated(cfg, st, r.state, req.raw, clock, now);
    }
  }

  lemma LinearLater(cfg: Config, st: State, clock: Time, now: Time)
    requires Linear(cfg, st, clock) && clock <= now
    ensures Linear(cfg, st, now)
  {
    forall i
      ensures RowFine(cfg, st.tokens, st.next, now, i)
    {
      assert RowFine(cfg, st.tokens, st.next, clock, i);
    }
  }

  lemma {:induction false} LinearRun(cfg: Config, st: State, events: seq<Event>, clock: Time)
    requires Linear(cfg, st, clock) && InOrder(events, clock)
    ensures Linear(cfg, Run(cfg, st, events), ClockAfter(events, clock))
    decreases |events|
  {
    if events != [] {
      match events[0] {
        case Called(req, now) => LinearAfterCall(cfg, st, req, clock, now);
        case Purged(before, now) => LinearWhenPurged(cfg, st, before, clock, now);
      }
      LinearRun(cfg, Apply(cfg, st, events[0]), events[1..], events[0].now);
    }
  }

  // ----- the chain itself -----

  /** The rows of a session below `bound`, oldest first. */
  function Rows(tokens: Tokens, session: Id, bound: Id): (r: seq<Id>)
    ensures forall i :: i in r <==> i in tokens && tokens[i].session == session && i < bound
    ensures forall k, l :: 0 <= k < l < |r| ==> r[k] < r[l]
  {
    if bound == 0 then []
    else
      var older := Rows(tokens, session, bound - 1);
      assert forall k :: 0 <= k < |older| ==> older[k] in older;
      if bound - 1 in tokens && tokens[bound - 1].session == session then older + [bound - 1] else older
  }

  /** A session's rows, linked one to the next, only the last one unused. */
  ghost predicate IsChain(tokens: Tokens, c: seq<Id>) {
    && (forall k :: 0 <= k < |c| ==> c[k] in tokens)
    && (forall k, l :: 0 <= k < l < |c| ==> c[k] != c[l])
    && (forall k :: 0 <= k < |c| - 1 ==> Linked(tokens, c[k], c[k + 1]))
    && (c != [] ==> !tokens[c[|c| - 1]].IsUsed() && tokens[c[|c| - 1]].replacedBy == None)
  }

  ghost predicate Linked(tokens: Tokens, i: Id, heir: Id)
    requires i in tokens && heir in tokens
  {
    && tokens[i].IsUsed() && tokens[i].replacedBy == Some(heir)
    && tokens[i].user == tokens[heir].user
    && tokens[i].expiresAt <= tokens[heir].expiresAt
  }

  lemma RowsComplete(cfg: Config, st: State, session: Id, clock: Time, i: Id)
    requires Linear(cfg, st, clock)
    ensures i in Rows(st.tokens, session, st.next) <==> i in st.tokens && st.tokens[i].session == session
  {
    assert RowFine(cfg, st.tokens, st.next, clock, i);
  }

  /** Nothing lies strictly between two neighbours of a row list, and nothing behind its end. */
  lemma NeighboursAreClose(tokens: Tokens, session: Id, bound: Id, k: nat, i: Id)
    requires i in Rows(tokens, session, bound) && k < |Rows(tokens, session, bound)|
    ensures var c := Rows(tokens, session, bound);
            c[k] < i ==> k + 1 < |c| && c[k + 1] <= i
  {
  }

  lemma NextIsLinked(cfg: Config, st: State, session: Id, clock: Time, k: nat)
    requires Linear(cfg, st, clock) && k < |Rows(st.tokens, session, st.next)|
    ensures var c := Rows(st.tokens, session, st.next);
            && c[k] in c
            && if k < |c| - 1 then c[k + 1] in c && Linked(st.tokens, c[k], c[k + 1])
               else !st.tokens[c[k]].IsUsed() && st.tokens[c[k]].replacedBy == None
  {
    var c := Rows(st.tokens, session, st.next);
    var i := c[k];
    assert i in c;
    assert RowFine(cfg, st.tokens, st.next, clock, i);
    if st.tokens[i].replacedBy.Some? {
      RowsComplete(cfg, st, session, clock, st.tokens[i].replacedBy.value);
      NeighboursAreClose(st.tokens, session, st.next, k, st.tokens[i].replacedBy.value);
    }
    if k < |c| - 1 {
      assert c[k + 1] in c;
      assert Succession(st.tokens, i, c[k + 1]);
    }
  }

  lemma RowsFormChain(cfg: Config, st: State, session: Id, clock: Time)
    requires Linear(cfg, st, clock)
    ensures IsChain(st.tokens, Rows(st.tokens, session, st.next))
    ensures forall i :: i in Rows(st.tokens, session, st.next) <==> i in st.tokens && st.tokens[i].session == session
  {
    var c := Rows(st.tokens, session, st.next);
    forall k | 0 <= k < |c|
      ensures c[k] in st.tokens
      ensures k < |c| - 1 ==> Linked(st.tokens, c[k], c[k + 1])
      ensures k == |c| - 1 ==> !st.tokens[c[k]].IsUsed() && st.tokens[c[k]].replacedBy == None
    {
      NextIsLinked(cfg, st, session, clock, k);
    }
    forall i
      ensures i in c <==> i in st.tokens && st.tokens[i].session == session
    {
      RowsComplete(cfg, st, session, clock, i);
    }
  }

  /** In every state that whole calls and clean-ups can reach, each session is one chain of all its rows. */
  lemma SessionsAreChains(cfg: Config, init: State, events: seq<Event>, clock: Time, session: Id)
    requires Initial(init) && InOrder(events, clock)
    ensures var st := Run(cfg, init, events);
            var c := Rows(st.tokens, session, st.next);
            && IsChain(st.tokens, c)
            && (forall i :: i in c <==> i in st.tokens && st.tokens[i].session == session)
  {
    LinearRun(cfg, init, events, clock);
    RowsFormChain(cfg, Run(cfg, init, events), session, ClockAfter(events, clock));
  }

  // ----- clean-up -----

  lemma RowsOfDropped(tokens: Tokens, left: Tokens, session: Id, bound: Id, i: Id)
    requires forall j :: j in left ==> j in tokens && left[j] == tokens[j]
    requires forall j :: j in left && tokens[j].session == session ==> i <= j
    requires bound <= i
    ensures Rows(left, session, bound) == []
  {
    var rest := Rows(left, session, bound);
    assert forall k :: 0 <= k < |rest| ==> rest[k] in rest;
  }

  /** Where nothing of a session is left, nothing of its row list is. */
  lemma AllDropped(tokens: Tokens, left: Tokens, session: Id, bound: Id)
    requires bound > 0 && Rows(left, session, bound - 1) == [] && bound - 1 !in left
    requires forall i :: i in left ==> i in tokens && left[i] == tokens[i]
    ensures Rows(left, session, bound) == []
    ensures forall k :: 0 <= k < |Rows(tokens, session, bound)| ==> Rows(tokens, session, bound)[k] !in left
  {
    var c := Rows(tokens, session, bound);
    forall k | 0 <= k < |c|
      ensures c[k] !in left
    {
      assert c[k] in c;
      assert c[k] in left ==> c[k] in Rows(left, session, bound);
    }
  }

  /** Deleting an old part of a session cuts its row list at one place. */
  lemma {:induction false} RowsCut(tokens: Tokens, left: Tokens, session: Id, bound: Id) returns (cut: nat)
    requires forall i :: i in left ==> i in tokens && left[i] == tokens[i]
    requires forall i, j :: i in left && j in tokens && tokens[i].session == session && tokens[j].session == session && i < j ==>
               j in left
    ensures cut <= |Rows(tokens, session, bound)|
    ensures Rows(left, session, bound) == Rows(tokens, session, bound)[cut..]
    ensures forall k :: 0 <= k < cut ==> Rows(tokens, session, bound)[k] !in left
  {
    if bound == 0 {
      cut := 0;
    } else {
      var i := bound - 1;
      var older := Rows(tokens, session, i);
      cut := RowsCut(tokens, left, session, i);
      if i !in tokens || tokens[i].session != session {
        assert Rows(left, session, bound) == Rows(left, session, i);
      } else if i in left {
        assert Rows(left, session, bound) == Rows(left, session, i) + [i];
        assert (older + [i])[cut..] == older[cut..] + [i];
      } else {
        RowsOfDropped(tokens, left, session, i, i);
        AllDropped(tokens, left, session, bound);
        cut := |older| + 1;
      }
    }
  }

  lemma {:induction false} ExpiryGrows(cfg: Config, st: State, clock: Time, i: Id, j: Id)
    requires Linear(cfg, st, clock)
    requires i in st.tokens && j in st.tokens && st.tokens[i].session == st.tokens[j].session && i <= j
    ensures st.tokens[i].expiresAt <= st.tokens[j].expiresAt
    decreases j - i
  {
    if i < j {
      assert RowFine(cfg, st.tokens, st.next, clock, i);
      assert Succession(st.tokens, i, j);
      ExpiryGrows(cfg, st, clock, st.tokens[i].replacedBy.value, j);
    }
  }

  /** A clean-up removes a prefix of each chain and leaves every surviving row, its successor link
      included, exactly as it was; what is left is again a chain. */
  lemma PurgeCutsPrefix(cfg: Config, init: State, events: seq<Event>, clock: Time, session: Id, before: Time)
    returns (cut: nat)
    requires Initial(init) && InOrder(events, clock)
    ensures var st := Run(cfg, init, events);
            var left := DeleteExpired(st.tokens, before);
            var c := Rows(st.tokens, session, st.next);
            && cut <= |c| && Rows(left, session, st.next) == c[cut..] && IsChain(left, c[cut..])
            && (forall k :: 0 <= k < cut ==> st.tokens[c[k]].expiresAt < before)
            && (forall i :: i in left ==> before <= st.tokens[i].expiresAt && left[i] == st.tokens[i])
  {
    LinearRun(cfg, init, events, clock);
    var st, now := Run(cfg, init, events), ClockAfter(events, clock);
    LinearWhenPurged(cfg, st, before, now, now);
    var left := DeleteExpired(st.tokens, before);
    forall i, j | i in left && j in st.tokens && st.tokens[i].session == session && st.tokens[j].session == session && i < j
      ensures j in left
    {
      ExpiryGrows(cfg, st, now, i, j);
    }
    cut := RowsCut(st.tokens, left, session, st.next);
    RowsFormChain(cfg, st.(tokens := left), session, now);
    var c := Rows(st.tokens, session, st.next);
    forall k | 0 <= k < cut
      ensures c[k] in st.tokens && st.tokens[c[k]].expiresAt < before
    {
      assert c[k] in c;
    }
  }
}
