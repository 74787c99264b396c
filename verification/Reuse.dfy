/** Whole calls: presenting a spent token closes its session, and a closed session stays closed. */
module Reuse {
  import opened Domain
  import opened Store
  import opened Atomic
  import Chain

  /** Every row session S has now was in `base`, where it was already revoked, with the same instant and reason,
      and S has been issued nothing since. */
  ghost predicate Frozen(base: State, st: State, session: Id) {
    && session < st.next
    && (forall i :: RowFrozen(base.tokens, st.tokens, session, i))
    && (forall n :: n in st.issued && st.issued[n].claims.session == session ==> n in base.issued)
  }

  ghost predicate RowFrozen(base: Tokens, tokens: Tokens, session: Id, i: Id) {
    i in tokens && tokens[i].session == session ==>
      && i in base && base[i].session == session
      && base[i].IsRevoked() && tokens[i].revoked == base[i].revoked
  }

  lemma FrozenStep(cfg: Config, base: State, st: State, e: Event, session: Id)
    requires Frozen(base, st, session)
    ensures Frozen(base, Apply(cfg, st, e), session)
    ensures e.Called? && e.req.Refresh? && e.req.raw in st.tokens && st.tokens[e.req.raw].session == session ==>
              Serve(cfg, st, e.req, e.now).reply == Failed(SessionRevoked)
  {
    assert e.Called? && e.req.Refresh? ==> RowFrozen(base.tokens, st.tokens, session, e.req.raw);
    var st' := Apply(cfg, st, e);
    forall i
      ensures RowFrozen(base.tokens, st'.tokens, session, i)
    {
      assert RowFrozen(base.tokens, st.tokens, session, i);
      if e.Called? {
        CallRow(cfg, st, e.req, e.now, i);
      }
    }
    if e.Called? {
      CallPairs(cfg, st, e.req, e.now);
    }
  }

  lemma RefreshRow(cfg: Config, st: State, raw: Id, now: Time, i: Id)
    ensures var r := Serve(cfg, st, Refresh(raw), now);
            i in r.state.tokens ==>
              || (i == st.next && r.reply == Issued(i) && raw in st.tokens && !st.tokens[raw].IsRevoked()
                  && r.state.tokens[i].session == st.tokens[raw].session)
              || (i in st.tokens && r.state.tokens[i].session == st.tokens[i].session
                  && (st.tokens[i].IsRevoked() ==> r.state.tokens[i].revoked == st.tokens[i].revoked))
  {
  }

  /** What a whole call can do to one row: create it, mark it used, or revoke it once. */
  lemma CallRow(cfg: Config, st: State, req: Request, now: Time, i: Id)
    ensures var r := Serve(cfg, st, req, now);
            i in r.state.tokens ==>
              || (i == st.next && r.reply == Issued(i)
                  && (req.Refresh? ==> req.raw in st.tokens && !st.tokens[req.raw].IsRevoked()
                                       && r.state.tokens[i].session == st.tokens[req.raw].session)
                  && (!req.Refresh? ==> r.state.tokens[i].session == st.next))
              || (i in st.tokens && r.state.tokens[i].session == st.tokens[i].session
                  && (st.tokens[i].IsRevoked() ==> r.state.tokens[i].revoked == st.tokens[i].revoked))
  {
    match req {
      case Login(email, check) =>
      case Refresh(raw) => RefreshRow(cfg, st, raw, now, i);
      case Logout(cookie, jti) =>
      case LogoutAll(user) =>
      case Revoke(member) =>
      case UpdateRole(member, role) =>
    }
  }

  lemma RefreshPairs(cfg: Config, st: State, raw: Id, now: Time)
    ensures var r := Serve(cfg, st, Refresh(raw), now);
            && r.state.next == st.next + 1
            && if r.state.issued == st.issued then true
               else
                 && r.reply == Issued(st.next) && raw in st.tokens && !st.tokens[raw].IsRevoked()
                 && st.next in r.state.issued && r.state.issued == st.issued[st.next := r.state.issued[st.next]]
                 && r.state.issued[st.next].claims.session == st.tokens[raw].session
  {
  }

  /** What a whole call can do to the issued pairs: add its own, in a new session or the presented row's. */
  lemma CallPairs(cfg: Config, st: State, req: Request, now: Time)
    ensures var r := Serve(cfg, st, req, now);
            && r.state.next == st.next + 1
            && forall n :: n in r.state.issued ==>
                 || (n in st.issued && n != st.next && r.state.issued[n] == st.issued[n])
                 || (n == st.next && r.reply == Issued(n)
                     && (req.Refresh? ==> req.raw in st.tokens && !st.tokens[req.raw].IsRevoked()
                                          && r.state.issued[n].claims.session == st.tokens[req.raw].session)
                     && (!req.Refresh? ==> r.state.issued[n].claims.session == st.next))
                 || (n == st.next && n in st.issued && r.state.issued[n] == st.issued[n])
  {
    match req {
      case Login(email, check) =>
      case Refresh(raw) => RefreshPairs(cfg, st, raw, now);
      case Logout(cookie, jti) =>
      case LogoutAll(user) =>
      case Revoke(member) =>
      case UpdateRole(member, role) =>
    }
  }

  lemma {:induction false} FrozenRun(cfg: Config, base: State, st: State, events: seq<Event>, session: Id)
    requires Frozen(base, st, session)
    ensures Frozen(base, Run(cfg, st, events), session)
    decreases |events|
  {
    if events != [] {
      FrozenStep(cfg, base, st, events[0], session);
      FrozenRun(cfg, base, Apply(cfg, st, events[0]), events[1..], session);
    }
  }

  /** Reuse: in any reachable state, presenting a used or revoked token of session S answers "session revoked",
      revokes every row of S that was not revoked yet (a first reason is kept), and changes nothing else. */
  lemma ReuseClosesSession(cfg: Config, st: State, raw: Id, now: Time)
    requires raw in st.tokens && (st.tokens[raw].IsUsed() || st.tokens[raw].IsRevoked())
    requires Chain.Linear(cfg, st, now)
    ensures var r := Serve(cfg, st, Refresh(raw), now);
            var session := st.tokens[raw].session;
            && r.reply == Failed(SessionRevoked)
            && r.state == st.(tokens := r.state.tokens, next := st.next + 1)
            && r.state.tokens.Keys == st.tokens.Keys
            && (forall i :: i in st.tokens && st.tokens[i].session != session ==> r.state.tokens[i] == st.tokens[i])
            && (forall i :: i in st.tokens && st.tokens[i].session == session ==>
                  && r.state.tokens[i] == st.tokens[i].(revoked := r.state.tokens[i].revoked)
                  && r.state.tokens[i].revoked ==
                     if st.tokens[i].IsRevoked() then st.tokens[i].revoked else Some(Revocation(now, TokenReuse)))
            && Frozen(r.state, r.state, session)
  {
    assert Chain.RowFine(cfg, st.tokens, st.next, now, raw);
  }

  /** ... and from then on, whatever is called, no row of S is usable, none is added, no pair is issued for S,
      and the revocation instants and reasons stay. */
  lemma ReuseIsForever(cfg: Config, init: State, events: seq<Event>, clock: Time, raw: Id, now: Time, later: seq<Event>)
    requires Initial(init) && InOrder(events + [Called(Refresh(raw), now)], clock)
    requires var st := Run(cfg, init, events);
             raw in st.tokens && (st.tokens[raw].IsUsed() || st.tokens[raw].IsRevoked())
    ensures var st := Run(cfg, init, events);
            var closed := Serve(cfg, st, Refresh(raw), now).state;
            var end := Run(cfg, closed, later);
            var session := st.tokens[raw].session;
            && (forall i :: i in end.tokens && end.tokens[i].session == session ==>
                  && i in st.tokens && (forall t: Time :: !end.tokens[i].IsUsable(t))
                  && end.tokens[i].revoked == closed.tokens[i].revoked)
            && (forall n :: n in end.issued && end.issued[n].claims.session == session ==> n in st.issued)
  {
    InOrderPrefix(events, Called(Refresh(raw), now), clock);
    Chain.LinearRun(cfg, init, events, clock);
    var st := Run(cfg, init, events);
    Chain.LinearLater(cfg, st, ClockAfter(events, clock), now);
    ReuseClosesSession(cfg, st, raw, now);
    var closed := Serve(cfg, st, Refresh(raw), now).state;
    var session := st.tokens[raw].session;
    FrozenRun(cfg, closed, closed, later, session);
    var end := Run(cfg, closed, later);
    forall i | i in end.tokens && end.tokens[i].session == session
      ensures i in st.tokens && end.tokens[i].IsRevoked() && end.tokens[i].revoked == closed.tokens[i].revoked
    {
      assert RowFrozen(closed.tokens, end.tokens, session, i);
    }
    assert closed.issued == st.issued;
  }

  lemma {:induction false} InOrderPrefix(events: seq<Event>, e: Event, clock: Time)
    requires InOrder(events + [e], clock)
    ensures InOrder(events, clock) && ClockAfter(events, clock) <= e.now
    decreases |events|
  {
    if events != [] {
      assert (events + [e])[1..] == events[1..] + [e];
      InOrderPrefix(events[1..], e, events[0].now);
    } else {
      assert events + [e] == [e];
    }
  }
}
