/** The revocation list has no gap and stays as small as the tokens that are alive. */
module RevocationList {
  import opened Domain
  import opened Store
  import Gate
  import Machine
  import Invariant
  import Rotation
  import Atomic

  // ----- interleaved calls: no gap -----

  /** Token j has expired, or is listed until it does. */
  ghost predicate ShutOut(s: Machine.Sys, j: Id) {
    && j in s.st.issued
    && (s.st.issued[j].claims.expiresAt <= s.clock
        || (j in s.st.listed && s.st.issued[j].claims.expiresAt <= s.st.listed[j]))
  }

  lemma ShutOutStep(cfg: Config, s: Machine.Sys, a: Machine.Action, j: Id)
    requires Invariant.Inv(cfg, s) && ShutOut(s, j)
    ensures ShutOut(Machine.Next(cfg, s, a), j)
  {
    Rotation.LaterStep(cfg, s, a);
    Invariant.Kept(cfg, s, a);
    var s' := Machine.Next(cfg, s, a);
    assert Invariant.ListFine(s'.st.listed, s'.st.issued, j);
    if a.Advance? && a.n in s.calls {
      ListGrows(cfg, s, a.n);
    }
  }

  lemma ListGrows(cfg: Config, s: Machine.Sys, n: Id)
    requires Invariant.Inv(cfg, s) && n in s.calls
    ensures forall j :: j in s.st.listed ==> j in Machine.Next(cfg, s, Machine.Advance(n)).st.listed
  {
    var call := s.calls[n];
    if Invariant.IsQuiet(call) {
      Invariant.QuietStatement(cfg, s, n);
    }
  }

  lemma {:induction false} ShutOutAlong(cfg: Config, s: Machine.Sys, acts: seq<Machine.Action>, j: Id)
    requires Invariant.Inv(cfg, s) && ShutOut(s, j)
    ensures ShutOut(Machine.Run(cfg, s, acts), j)
    decreases |acts|
  {
    if acts != [] {
      ShutOutStep(cfg, s, acts[0], j);
      Invariant.Kept(cfg, s, acts[0]);
      ShutOutAlong(cfg, Machine.Next(cfg, s, acts[0]), acts[1..], j);
    }
  }

  /** A call in one of Logout's statements, made with the claims of token j. */
  predicate LogsOut(call: Machine.Call, j: Id) {
    || (call.LogoutBegun? && call.jti == Some(j))
    || (call.LogoutClosing? && call.jti == Some(j))
    || (call.LogoutListing? && call.token == j)
  }

  /** The statement after which such a logout is done. */
  predicate Finishes(cfg: Config, s: Machine.Sys, c: Id) {
    c in s.calls && c !in Machine.Next(cfg, s, Machine.Advance(c)).calls
  }

  lemma FinishedIsShutOut(cfg: Config, s: Machine.Sys, c: Id, j: Id)
    requires Invariant.Inv(cfg, s) && Finishes(cfg, s, c) && LogsOut(s.calls[c], j)
    ensures ShutOut(Machine.Next(cfg, s, Machine.Advance(c)), j)
  {
    assert Invariant.CallFine(s.st.issued, s.st.next, s.clock, c, s.calls[c]);
  }

  /** Once a logout with the claims of token j has answered, whatever runs afterwards, at no later instant does
      the middleware admit j: the list holds it until its expiry, and from then on it does not parse. */
  lemma NoGap(cfg: Config, s: Machine.Sys, c: Id, j: Id, later: seq<Machine.Action>, redisUp: bool, at: Time)
    requires Invariant.Inv(cfg, s) && Finishes(cfg, s, c) && LogsOut(s.calls[c], j)
    requires at >= Machine.Run(cfg, Machine.Next(cfg, s, Machine.Advance(c)), later).clock
    ensures var end := Machine.Run(cfg, Machine.Next(cfg, s, Machine.Advance(c)), later);
            Gate.Auth(end.st, Some(j), redisUp, at).Refused?
  {
    FinishedIsShutOut(cfg, s, c, j);
    Invariant.Kept(cfg, s, Machine.Advance(c));
    ShutOutAlong(cfg, Machine.Next(cfg, s, Machine.Advance(c)), later, j);
  }

  /** Entries that Redis still has at instant t. */
  ghost function Alive(listed: map<Id, Time>, t: Time): set<Id> {
    set j | j in listed && IsListed(listed, j, t)
  }

  /** Access tokens issued less than `span` before t. */
  ghost function Recent(issued: map<Id, Pair>, span: int, t: Time): set<Id> {
    set n | n in issued && t - span < issued[n].at
  }

  // ----- interleaved calls: the size of the list -----

  /** A logout reaches its listing statement within d of reading the clock. */
  predicate Prompt(s: Machine.Sys, a: Machine.Action, d: nat) {
    a.Advance? && a.n in s.calls && s.calls[a.n].LogoutListing? ==> s.clock - s.calls[a.n].now <= d
  }

  predicate AllPrompt(cfg: Config, s: Machine.Sys, acts: seq<Machine.Action>, d: nat)
    decreases |acts|
  {
    acts == [] || (Prompt(s, acts[0], d) && AllPrompt(cfg, Machine.Next(cfg, s, acts[0]), acts[1..], d))
  }

  /** An entry outlives its token by d at most. */
  ghost predicate EntryWithin(st: State, d: nat, j: Id) {
    j in st.listed ==> j in st.issued && st.listed[j] <= st.issued[j].claims.expiresAt + d
  }

  lemma WithinStep(cfg: Config, s: Machine.Sys, a: Machine.Action, d: nat, j: Id)
    requires Invariant.Inv(cfg, s) && Prompt(s, a, d) && EntryWithin(s.st, d, j)
    ensures EntryWithin(Machine.Next(cfg, s, a).st, d, j)
  {
    Rotation.LaterStep(cfg, s, a);
    if a.Advance? && a.n in s.calls {
      assert Invariant.CallFine(s.st.issued, s.st.next, s.clock, a.n, s.calls[a.n]);
      if Invariant.IsQuiet(s.calls[a.n]) {
        Invariant.QuietStatement(cfg, s, a.n);
      }
    }
  }

  lemma {:induction false} WithinAlong(cfg: Config, s: Machine.Sys, acts: seq<Machine.Action>, d: nat)
    requires Invariant.Inv(cfg, s) && AllPrompt(cfg, s, acts, d) && forall j :: EntryWithin(s.st, d, j)
    ensures forall j :: EntryWithin(Machine.Run(cfg, s, acts).st, d, j)
    decreases |acts|
  {
    if acts != [] {
      forall j: Id
        ensures EntryWithin(Machine.Next(cfg, s, acts[0]).st, d, j)
      {
        WithinStep(cfg, s, acts[0], d, j);
      }
      Invariant.Kept(cfg, s, acts[0]);
      WithinAlong(cfg, Machine.Next(cfg, s, acts[0]), acts[1..], d);
    }
  }

  /** Whatever is interleaved: if every logout lists within d of reading the clock, the list at any instant names
      only tokens issued within the last AccessTTL + d, and has at most as many entries as there are such tokens. */
  lemma ListIsSmallWithin(cfg: Config, init: Machine.Sys, acts: seq<Machine.Action>, d: nat, t: Time)
    requires Machine.Initial(init) && AllPrompt(cfg, init, acts, d)
    ensures var st := Machine.Run(cfg, init, acts).st;
            && Alive(st.listed, t) <= Recent(st.issued, cfg.accessTTL + d, t)
            && |Alive(st.listed, t)| <= |Recent(st.issued, cfg.accessTTL + d, t)|
  {
    Invariant.Inits(cfg, init);
    WithinAlong(cfg, init, acts, d);
    Invariant.KeptAlong(cfg, init, acts);
    var end := Machine.Run(cfg, init, acts);
    forall j | j in Alive(end.st.listed, t)
      ensures j in Recent(end.st.issued, cfg.accessTTL + d, t)
    {
      assert EntryWithin(end.st, d, j);
      assert Invariant.PairFine(cfg, end.st.issued, end.st.next, end.clock, j);
    }
    Rotation.SubsetSize(Alive(end.st.listed, t), Recent(end.st.issued, cfg.accessTTL + d, t));
  }

  /** The delay is really what an entry outlives its token by. */
  lemma DelayShows(cfg: Config, s: Machine.Sys, c: Id)
    requires Invariant.Inv(cfg, s) && c in s.calls && s.calls[c].LogoutListing?
    ensures var st, j := Machine.Next(cfg, s, Machine.Advance(c)).st, s.calls[c].token;
            && j in st.listed && j in st.issued
            && st.listed[j] == st.issued[j].claims.expiresAt + (s.clock - s.calls[c].now)
  {
    assert Invariant.CallFine(s.st.issued, s.st.next, s.clock, c, s.calls[c]);
  }

  // ----- whole calls: the size of the list -----

  ghost predicate EntryFine(st: State, j: Id) {
    (j in st.listed ==> j in st.issued && st.listed[j] == st.issued[j].claims.expiresAt)
  }

  ghost predicate PairExpiry(cfg: Config, st: State, n: Id) {
    n in st.issued ==> n < st.next && st.issued[n].claims.expiresAt == NumericDate(st.issued[n].at + cfg.accessTTL)
  }

  ghost predicate Exact(cfg: Config, st: State) {
    (forall j :: EntryFine(st, j)) && (forall n :: PairExpiry(cfg, st, n))
  }

  /** A whole call adds at most its own pair ... */
  lemma CallIssues(cfg: Config, st: State, req: Request, now: Time)
    ensures var st' := Atomic.Serve(cfg, st, req, now).state;
            && st'.next == st.next + 1
            && (st'.issued == st.issued
                || (st.next in st'.issued && st'.issued == st.issued[st.next := st'.issued[st.next]]
                    && st'.issued[st.next].claims.expiresAt == NumericDate(st'.issued[st.next].at + cfg.accessTTL)))
  {
    match req {
      case Login(email, check) =>
      case Refresh(raw) =>
      case _ =>
    }
  }

  /** ... and lists at most the token whose claims it logs out, until that token's expiry. */
  lemma CallLists(cfg: Config, st: State, req: Request, now: Time)
    ensures var st' := Atomic.Serve(cfg, st, req, now).state;
            || st'.listed == st.listed
            || (req.Logout? && req.claims.Some? && req.claims.value in st.issued && st'.issued == st.issued
                && st'.listed == st.listed[req.claims.value := st.issued[req.claims.value].claims.expiresAt])
  {
    match req {
      case Logout(cookie, jti) =>
      case Refresh(raw) =>
      case _ =>
    }
  }

  lemma ExactStep(cfg: Config, st: State, e: Atomic.Event)
    requires Exact(cfg, st)
    ensures Exact(cfg, Atomic.Apply(cfg, st, e))
  {
    var st' := Atomic.Apply(cfg, st, e);
    if e.Called? {
      CallIssues(cfg, st, e.req, e.now);
      CallLists(cfg, st, e.req, e.now);
    }
    assert PairExpiry(cfg, st, st.next);
    forall j: Id
      ensures EntryFine(st', j) && PairExpiry(cfg, st', j)
    {
      assert EntryFine(st, j) && PairExpiry(cfg, st, j);
    }
  }

  lemma {:induction false} ExactRun(cfg: Config, st: State, events: seq<Atomic.Event>)
    requires Exact(cfg, st)
    ensures Exact(cfg, Atomic.Run(cfg, st, events))
    decreases |events|
  {
    if events != [] {
      ExactStep(cfg, st, events[0]);
      ExactRun(cfg, Atomic.Apply(cfg, st, events[0]), events[1..]);
    }
  }

  /** The list at any instant names only access tokens issued within the last AccessTTL, so it has at most as
      many entries as there are such tokens. */
  lemma ListIsSmall(cfg: Config, init: State, events: seq<Atomic.Event>, t: Time)
    requires Atomic.Initial(init)
    ensures var st := Atomic.Run(cfg, init, events);
            && Alive(st.listed, t) <= Recent(st.issued, cfg.accessTTL, t)
            && |Alive(st.listed, t)| <= |Recent(st.issued, cfg.accessTTL, t)|
  {
    ExactRun(cfg, init, events);
    var st := Atomic.Run(cfg, init, events);
    forall j | j in Alive(st.listed, t)
      ensures j in Recent(st.issued, cfg.accessTTL, t)
    {
      assert EntryFine(st, j) && PairExpiry(cfg, st, j);
    }
    Rotation.SubsetSize(Alive(st.listed, t), Recent(st.issued, cfg.accessTTL, t));
  }

  // ----- whole calls: what takes an access token's validity away -----

  /** Redis answering, token j is refused at every instant from `now` on. */
  ghost predicate Dead(st: State, j: Id, now: Time) {
    forall at: Time :: at >= now ==> Gate.Auth(st, Some(j), true, at).Refused?
  }

  ghost predicate AllDead(st: State, js: set<Id>, now: Time) {
    forall j :: j in js ==> Dead(st, j, now)
  }

  /** Expired, or listed already. */
  predicate Spent(st: State, j: Id, now: Time)
    requires j in st.issued
  {
    st.issued[j].claims.expiresAt <= now || j in st.listed
  }

  lemma DeadIsSpent(cfg: Config, st: State, j: Id, now: Time)
    requires Exact(cfg, st) && j in st.issued
    ensures Dead(st, j, now) <==> Spent(st, j, now)
  {
    assert EntryFine(st, j);
    if !Spent(st, j, now) {
      assert Gate.Auth(st, Some(j), true, now).Admitted?;
    }
  }

  /** The token whose claims a request logs out, if it does. */
  function LoggedOutToken(req: Request): set<Id> {
    if req.Logout? && req.claims.Some? then {req.claims.value} else {}
  }

  lemma SpentAfter(cfg: Config, st: State, req: Request, now: Time, j: Id)
    requires Exact(cfg, st) && j in st.issued
    ensures var st' := Atomic.Serve(cfg, st, req, now).state;
            && j in st'.issued && Exact(cfg, st')
            && (Spent(st', j, now) <==> Spent(st, j, now) || j in LoggedOutToken(req))
  {
    var st' := Atomic.Serve(cfg, st, req, now).state;
    ExactStep(cfg, st, Atomic.Called(req, now));
    assert PairExpiry(cfg, st, st.next) && PairExpiry(cfg, st, j);
    CallIssues(cfg, st, req, now);
    CallLists(cfg, st, req, now);
  }

  /** In every reachable state, for every request and every set of access tokens: after the call all of them are
      refused for good if and only if each was expired or listed before, or is the one whose claims the call logs
      out. No request takes any other token's validity away. */
  lemma InvalidatesIff(cfg: Config, init: State, events: seq<Atomic.Event>, req: Request, now: Time, js: set<Id>)
    requires Atomic.Initial(init) && js <= Atomic.Run(cfg, init, events).issued.Keys
    ensures var st := Atomic.Run(cfg, init, events);
            AllDead(Atomic.Serve(cfg, st, req, now).state, js, now)
            <==> forall j :: j in js ==> Spent(st, j, now) || j in LoggedOutToken(req)
  {
    ExactRun(cfg, init, events);
    var st := Atomic.Run(cfg, init, events);
    var st' := Atomic.Serve(cfg, st, req, now).state;
    forall j | j in js
      ensures Dead(st', j, now) <==> Spent(st, j, now) || j in LoggedOutToken(req)
    {
      SpentAfter(cfg, st, req, now, j);
      DeadIsSpent(cfg, st', j, now);
    }
  }

  /** Access tokens of one user. */
  ghost function TokensOf(issued: map<Id, Pair>, user: Id): set<Id> {
    set j | j in issued && issued[j].claims.user == user
  }

  /** "Logging out everywhere" takes effect at once on access tokens exactly when there is nothing left to do. */
  lemma LogoutAllAtOnceIff(cfg: Config, init: State, events: seq<Atomic.Event>, user: Id, now: Time)
    requires Atomic.Initial(init)
    ensures var st := Atomic.Run(cfg, init, events);
            AllDead(Atomic.Serve(cfg, st, LogoutAll(user), now).state, TokensOf(st.issued, user), now)
            <==> forall j :: j in TokensOf(st.issued, user) ==> Spent(st, j, now)
  {
    InvalidatesIff(cfg, init, events, LogoutAll(user), now, TokensOf(Atomic.Run(cfg, init, events).issued, user));
  }

  /** Access tokens of one session. */
  ghost function TokensIn(issued: map<Id, Pair>, session: Id): set<Id> {
    set j | j in issued && issued[j].claims.session == session
  }

  /** Logging out through the route as it is wired, with the cookie and nil claims: the same, for the session. */
  lemma WiredLogoutAtOnceIff(cfg: Config, init: State, events: seq<Atomic.Event>, cookie: Id, now: Time)
    requires Atomic.Initial(init) && cookie in Atomic.Run(cfg, init, events).tokens
    ensures var st := Atomic.Run(cfg, init, events);
            var js := TokensIn(st.issued, st.tokens[cookie].session);
            AllDead(Atomic.Serve(cfg, st, Logout(Some(cookie), None), now).state, js, now)
            <==> forall j :: j in js ==> Spent(st, j, now)
  {
    var st := Atomic.Run(cfg, init, events);
    InvalidatesIff(cfg, init, events, Logout(Some(cookie), None), now, TokensIn(st.issued, st.tokens[cookie].session));
  }

  // The input on which both fail: one user, who logs in and logs out in the same instant.
  const ONE_USER: State :=
    State(map[1 := User(Viewer, Active, 0, None, None)], map["a" := 1], map[], map[], map[], 1)
  const USUAL: Config := Config(900 * SECOND, 7 * DAY, 5, 900 * SECOND)

  /** After the login, neither logging out everywhere nor logging out through the wired route stops the token. */
  lemma LogoutsLeaveToken()
    ensures Atomic.Initial(ONE_USER) && ValidConfig(USUAL)
    ensures var st := Atomic.Run(USUAL, ONE_USER, [Atomic.Called(Login("a", Match), 0)]);
            && 1 in st.tokens && 1 in st.issued && st.issued[1].claims.user == 1
            && Gate.Auth(Atomic.Serve(USUAL, st, LogoutAll(1), 0).state, Some(1), true, 0).Admitted?
            && Gate.Auth(Atomic.Serve(USUAL, st, Logout(Some(1), None), 0).state, Some(1), true, 0).Admitted?
            && Gate.Auth(Atomic.Serve(USUAL, st, Logout(Some(1), Some(1)), 0).state, Some(1), true, 0).Refused?
  {
    var login := Atomic.Called(Login("a", Match), 0);
    assert [login][1..] == [];
    assert Atomic.Run(USUAL, ONE_USER, [login]) == Atomic.Apply(USUAL, ONE_USER, login);
    assert NumericDate(900 * SECOND) == 900 * SECOND;
  }
}
