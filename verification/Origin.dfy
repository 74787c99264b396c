/** Interleaved calls: where every pair ever issued comes from, looked up in the states its run went through. */
module Origin {
  import opened Domain
  import opened Store
  import opened Machine
  import opened Invariant
  import Effects
  import Rotation

  // ----- runs seen from their end -----

  lemma RunSnoc(cfg: Config, s: Sys, acts: seq<Action>, a: Action)
    ensures Run(cfg, s, acts + [a]) == Next(cfg, Run(cfg, s, acts), a)
  {
    RunSplit(cfg, s, acts, [a]);
    assert [a][1..] == [];
    var end := Run(cfg, s, acts);
    assert Run(cfg, end, [a]) == Run(cfg, Next(cfg, end, a), []);
  }

  /** The state after the first k actions. */
  ghost function StateAt(cfg: Config, init: Sys, acts: seq<Action>, k: nat): Sys
    requires k <= |acts|
  {
    Run(cfg, init, acts[..k])
  }

  lemma SameStates(cfg: Config, init: Sys, acts: seq<Action>, a: Action, k: nat)
    requires k <= |acts|
    ensures StateAt(cfg, init, acts + [a], k) == StateAt(cfg, init, acts, k)
  {
    assert (acts + [a])[..k] == acts[..k];
  }

  // ----- the two reads that a pair rests on -----

  /** In this state call n is about to read the row of a user who may log in, holding this role: a login of one of the
      user's addresses with the right password, or a refresh of token `parent`. */
  ghost predicate ReadsUser(s: Sys, n: Id, user: Id, role: Role, parent: Option<Id>, now: Time) {
    && n in s.calls && n !in s.st.issued
    && Effects.Fit(s.st.users, user, now) && s.st.users[user].role == role
    && match s.calls[n]
       case LoginBegun(at, email, check) =>
         at == now && parent.None? && check == Match && email in s.st.byEmail && s.st.byEmail[email] == user
       case RefreshFresh(at, raw, row) => at == now && parent == Some(raw) && row.user == user
       case _ => false
  }

  /** In this state call n is about to read a usable token. */
  ghost predicate ReadsToken(s: Sys, n: Id, token: Id, now: Time) {
    && n in s.calls && n !in s.st.issued && s.calls[n] == RefreshBegun(now, Some(token))
    && token in s.st.tokens && s.st.tokens[token].IsUsable(now)
  }

  ghost predicate UserWasRead(cfg: Config, init: Sys, acts: seq<Action>, n: Id, user: Id, role: Role, parent: Option<Id>,
                              now: Time) {
    exists k: nat :: k <= |acts| && ReadsUser(StateAt(cfg, init, acts, k), n, user, role, parent, now)
  }

  ghost predicate TokenWasRead(cfg: Config, init: Sys, acts: seq<Action>, n: Id, token: Id, now: Time) {
    exists k: nat :: k <= |acts| && ReadsToken(StateAt(cfg, init, acts, k), n, token, now)
  }

  lemma WasReadStays(cfg: Config, init: Sys, acts: seq<Action>, a: Action, n: Id, user: Id, role: Role, parent: Option<Id>,
                     now: Time)
    requires UserWasRead(cfg, init, acts, n, user, role, parent, now)
    ensures UserWasRead(cfg, init, acts + [a], n, user, role, parent, now)
  {
    var k: nat :| k <= |acts| && ReadsUser(StateAt(cfg, init, acts, k), n, user, role, parent, now);
    SameStates(cfg, init, acts, a, k);
    assert ReadsUser(StateAt(cfg, init, acts + [a], k), n, user, role, parent, now);
  }

  lemma TokenReadStays(cfg: Config, init: Sys, acts: seq<Action>, a: Action, n: Id, token: Id, now: Time)
    requires TokenWasRead(cfg, init, acts, n, token, now)
    ensures TokenWasRead(cfg, init, acts + [a], n, token, now)
  {
    var k: nat :| k <= |acts| && ReadsToken(StateAt(cfg, init, acts, k), n, token, now);
    SameStates(cfg, init, acts, a, k);
    assert ReadsToken(StateAt(cfg, init, acts + [a], k), n, token, now);
  }

  lemma LastIsAState(cfg: Config, init: Sys, acts: seq<Action>)
    ensures StateAt(cfg, init, acts, |acts|) == Run(cfg, init, acts)
  {
    assert acts[..|acts|] == acts;
  }

  // ----- what every run keeps -----

  ghost predicate PairGranted(cfg: Config, init: Sys, acts: seq<Action>, n: Id, pair: Pair) {
    && UserWasRead(cfg, init, acts, n, pair.claims.user, pair.claims.role, pair.parent, pair.at)
    && (pair.parent.Some? ==> TokenWasRead(cfg, init, acts, n, pair.parent.value, pair.at))
  }

  /** What a call carries on its way to a pair, it has read. */
  ghost predicate CallRead(cfg: Config, init: Sys, acts: seq<Action>, n: Id, call: Call) {
    match call
    case LoginRight(now, id, user) => UserWasRead(cfg, init, acts, n, id, user.role, None, now)
    case LoginCleared(now, id, user) => UserWasRead(cfg, init, acts, n, id, user.role, None, now)
    case RefreshFresh(now, raw, row) => TokenWasRead(cfg, init, acts, n, raw, now)
    case RefreshAllowed(now, raw, row, user) =>
      && TokenWasRead(cfg, init, acts, n, raw, now)
      && UserWasRead(cfg, init, acts, n, row.user, user.role, Some(raw), now)
    case _ => true
  }

  ghost predicate OriginFine(cfg: Config, init: Sys, acts: seq<Action>, n: Id) {
    var s := Run(cfg, init, acts);
    && (n in s.st.issued ==> PairGranted(cfg, init, acts, n, s.st.issued[n]))
    && (n in s.calls ==> CallRead(cfg, init, acts, n, s.calls[n]))
  }

  /** How a call comes to carry what it carries. */
  lemma Carries(cfg: Config, s: Sys, n: Id)
    requires Inv(cfg, s) && n in s.calls
    ensures var s', call := Next(cfg, s, Advance(n)), s.calls[n];
            n in s'.calls ==>
              match s'.calls[n]
              case LoginRight(now, id, user) => ReadsUser(s, n, id, user.role, None, now)
              case LoginCleared(now, id, user) => call == LoginRight(now, id, user)
              case RefreshFresh(now, raw, row) => ReadsToken(s, n, raw, now)
              case RefreshAllowed(now, raw, row, user) =>
                call == RefreshFresh(now, raw, row) && ReadsUser(s, n, row.user, user.role, Some(raw), now)
              case _ => true
  {
    var call := s.calls[n];
    assert CallFine(s.st.issued, s.st.next, s.clock, n, call);
    if IsRefresh(call) {
    } else if IsLogout(call) {
    } else if IsTeam(call) {
    } else {
    }
  }

  lemma CallReadStays(cfg: Config, init: Sys, acts: seq<Action>, a: Action, n: Id, call: Call)
    requires CallRead(cfg, init, acts, n, call)
    ensures CallRead(cfg, init, acts + [a], n, call)
  {
    match call {
      case LoginRight(now, id, user) => WasReadStays(cfg, init, acts, a, n, id, user.role, None, now);
      case LoginCleared(now, id, user) => WasReadStays(cfg, init, acts, a, n, id, user.role, None, now);
      case RefreshFresh(now, raw, row) => TokenReadStays(cfg, init, acts, a, n, raw, now);
      case RefreshAllowed(now, raw, row, user) =>
        TokenReadStays(cfg, init, acts, a, n, raw, now);
        WasReadStays(cfg, init, acts, a, n, row.user, user.role, Some(raw), now);
      case _ =>
    }
  }

  lemma PairGrantedStays(cfg: Config, init: Sys, acts: seq<Action>, a: Action, n: Id, pair: Pair)
    requires PairGranted(cfg, init, acts, n, pair)
    ensures PairGranted(cfg, init, acts + [a], n, pair)
  {
    WasReadStays(cfg, init, acts, a, n, pair.claims.user, pair.claims.role, pair.parent, pair.at);
    if pair.parent.Some? {
      TokenReadStays(cfg, init, acts, a, n, pair.parent.value, pair.at);
    }
  }

  /** The acting call: what it carries next it carried already, or reads in this state. */
  lemma ActorFine(cfg: Config, init: Sys, acts: seq<Action>, n: Id)
    requires Inv(cfg, Run(cfg, init, acts)) && n in Run(cfg, init, acts).calls && OriginFine(cfg, init, acts, n)
    ensures var s' := Next(cfg, Run(cfg, init, acts), Advance(n));
            n in s'.calls ==> CallRead(cfg, init, acts, n, s'.calls[n])
  {
    var s := Run(cfg, init, acts);
    Carries(cfg, s, n);
    LastIsAState(cfg, init, acts);
  }

  lemma OriginStep(cfg: Config, init: Sys, acts: seq<Action>, a: Action, n: Id)
    requires Inv(cfg, Run(cfg, init, acts)) && OriginFine(cfg, init, acts, n)
    ensures OriginFine(cfg, init, acts + [a], n)
  {
    var s := Run(cfg, init, acts);
    var s' := Next(cfg, s, a);
    RunSnoc(cfg, init, acts, a);
    if n in s'.st.issued {
      if n in s.st.issued {
        Rotation.LaterStep(cfg, s, a);
        PairGrantedStays(cfg, init, acts, a, n, s.st.issued[n]);
      } else {
        Issues(cfg, s, a, n);
        PairGrantedStays(cfg, init, acts, a, n, s'.st.issued[n]);
      }
    }
    if n in s'.calls {
      if a == Advance(n) && n in s.calls {
        ActorFine(cfg, init, acts, n);
      } else {
        NotTheActor(cfg, s, a, n);
      }
      CallReadStays(cfg, init, acts, a, n, s'.calls[n]);
    }
  }

  /** A call that does not act stays where it is; one that begins has read nothing yet. */
  lemma NotTheActor(cfg: Config, s: Sys, a: Action, n: Id)
    requires n in Next(cfg, s, a).calls && !(a == Advance(n) && n in s.calls)
    ensures var call := Next(cfg, s, a).calls[n];
            (n in s.calls && s.calls[n] == call)
            || (!call.LoginRight? && !call.LoginCleared? && !call.RefreshFresh? && !call.RefreshAllowed?)
  {
  }

  /** A new pair is the one its call was about to insert. */
  lemma Issues(cfg: Config, s: Sys, a: Action, n: Id)
    requires Inv(cfg, s) && n !in s.st.issued && n in Next(cfg, s, a).st.issued
    ensures a == Advance(n) && n in s.calls
    ensures var pair := Next(cfg, s, a).st.issued[n];
            match s.calls[n]
            case LoginCleared(now, id, user) =>
              pair.at == now && pair.parent == None && pair.claims.user == id && pair.claims.role == user.role
            case RefreshAllowed(now, raw, row, user) =>
              pair.at == now && pair.parent == Some(raw) && pair.claims.user == row.user && pair.claims.role == user.role
            case _ => false
  {
    if a.Advance? && a.n in s.calls {
      Rotation.NewPair(cfg, s, a.n);
    }
  }

  lemma {:induction false} OriginAlong(cfg: Config, init: Sys, acts: seq<Action>, n: Id)
    requires Initial(init)
    ensures OriginFine(cfg, init, acts, n)
    decreases |acts|
  {
    Inits(cfg, init);
    if acts != [] {
      var before, a := acts[..|acts| - 1], acts[|acts| - 1];
      assert acts == before + [a];
      OriginAlong(cfg, init, before, n);
      KeptAlong(cfg, init, before);
      OriginStep(cfg, init, before, a, n);
    }
  }

  // ----- the results -----

  /** Over every run of every interleaving, each pair was earned: at some state of the run, between its call's begin and
      its insert, its user existed, was active and not locked, and held the role that the pair carries, and the call was
      a login with the right password for that user or a refresh; and for a refresh, at some such state, the presented
      token was stored, unused, unrevoked and unexpired. */
  lemma EveryPairWasEarned(cfg: Config, init: Sys, acts: seq<Action>, n: Id)
    requires Initial(init) && n in Run(cfg, init, acts).st.issued
    ensures var pair := Run(cfg, init, acts).st.issued[n];
            && UserWasRead(cfg, init, acts, n, pair.claims.user, pair.claims.role, pair.parent, pair.at)
            && (pair.parent.Some? ==> TokenWasRead(cfg, init, acts, n, pair.parent.value, pair.at))
  {
    OriginAlong(cfg, init, acts, n);
  }

  /** No pair is ever made from a token whose lifetime had run out when the call began. */
  lemma NoPairFromExpired(cfg: Config, init: Sys, acts: seq<Action>, n: Id)
    requires Initial(init) && n in Run(cfg, init, acts).st.issued && Run(cfg, init, acts).st.issued[n].parent.Some?
    ensures var issued := Run(cfg, init, acts).st.issued;
            var p := issued[n].parent.value;
            p in issued && issued[n].at < issued[p].at + cfg.refreshTTL
  {
    EveryPairWasEarned(cfg, init, acts, n);
    var pair := Run(cfg, init, acts).st.issued[n];
    var p := pair.parent.value;
    var k: nat :| k <= |acts| && ReadsToken(StateAt(cfg, init, acts, k), n, p, pair.at);
    var s := StateAt(cfg, init, acts, k);
    Inits(cfg, init);
    KeptAlong(cfg, init, acts[..k]);
    assert RowFine(cfg, s.st.tokens, s.st.issued, p);
    assert acts == acts[..k] + acts[k..];
    RunSplit(cfg, init, acts[..k], acts[k..]);
    Rotation.WriteOnce(cfg, s, acts[k..]);
  }
}
