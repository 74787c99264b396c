/** One tab composed with the interleaved server: as long as its tokens stay in its cookie jar and nobody revokes
    its sessions, the single-flight refresh never presents a spent token. */
module World {
  import opened Domain
  import opened Store
  import opened Machine
  import opened Invariant
  import Rotation
  import Tab

  /** The way of the one refresh request of the tab: nothing out; posted; at the server; answered. */
  datatype Wire = Quiet | Posted(presented: Option<Id>) | Serving(call: Id) | Answered(answer: Tab.Answer)

  datatype Reached = Reached(task: nat, answer: Tab.Answer)

  /** `serving` and `answered` follow the tab's sign-ins by the number of their server call;
      `mine` are the numbers of all server calls this tab has made. */
  datatype State = State(
    sys: Sys,
    tab: Tab.TabState,
    wire: Wire,
    serving: map<Id, nat>,
    answered: map<Id, Reached>,
    mine: set<Id>)

  datatype Step =
    | Server(a: Action)                                                // any statement of any call, anybody's new call
    | Client(input: Tab.Input)                                         // any script step but the two deliveries
    | RefreshArrives
    | RefreshDelivered
    | SignInArrives(task: nat, email: string, check: PasswordCheck)
    | SignInDelivered(call: Id, user: Id)

  /** The handler drops the cookie exactly when the session is dead. */
  function AnswerOf(reply: Reply): (a: Tab.Answer)
    ensures a.Dead? <==> reply == Failed(SessionRevoked) || reply == Failed(Unauthenticated)
    ensures reply.Issued? ==> a == Tab.Granted(reply.pair)
    ensures a.Granted? ==> reply.Issued?
  {
    match reply
    case Issued(n) => Tab.Granted(n)
    case Failed(SessionRevoked) => Tab.Dead
    case Failed(Unauthenticated) => Tab.Dead
    case _ => Tab.Refused
  }

  /** The answer a server action gives to call n, if it ends that call. */
  function Ending(cfg: Config, s: Sys, a: Action, n: Id): Option<Tab.Answer> {
    if n !in s.calls then None
    else if a == Abort(n) then Some(Tab.Refused)
    else if a == Advance(n) && Exec(cfg, s.st, s.clock, n, s.calls[n]).progress.Ends?
    then Some(AnswerOf(Exec(cfg, s.st, s.clock, n, s.calls[n]).progress.reply))
    else None
  }

  predicate Unserved(w: State, task: nat) {
    && task < |w.tab.tasks| && w.tab.tasks[task].kind.SignIn? && w.tab.tasks[task].stage.Fetching?
    && (forall n :: n in w.serving ==> w.serving[n] != task)
    && (forall n :: n in w.answered ==> w.answered[n].task != task)
  }

  function ServerStep(cfg: Config, w: State, a: Action): State {
    var w' := w.(sys := Machine.Next(cfg, w.sys, a));
    if w.wire.Serving? && Ending(cfg, w.sys, a, w.wire.call).Some? then
      w'.(wire := Answered(Ending(cfg, w.sys, a, w.wire.call).value))
    else if (a.Advance? || a.Abort?) && a.n in w.serving && Ending(cfg, w.sys, a, a.n).Some? then
      w'.(serving := w.serving - {a.n},
          answered := w.answered[a.n := Reached(w.serving[a.n], Ending(cfg, w.sys, a, a.n).value)])
    else w'
  }

  function ClientStep(w: State, input: Tab.Input): State {
    var t := Tab.Next(w.tab, input);
    w.(tab := t, wire := if w.tab.flight.Idle? && t.flight.Outstanding? then Posted(t.flight.sent) else w.wire)
  }

  /** A call of this tab reaches the server; a refresh without a cookie is refused by the handler itself, which
      leaves the cookie jar alone. */
  function Arrive(cfg: Config, w: State, req: Request): State {
    w.(sys := Machine.Next(cfg, w.sys, Begin(req)), mine := w.mine + {w.sys.st.next})
  }

  function Next(cfg: Config, w: State, step: Step): State {
    match step
    case Server(a) => ServerStep(cfg, w, a)
    case Client(input) => if input.SignedIn? || input.RefreshAnswered? then w else ClientStep(w, input)
    case RefreshArrives =>
      if !w.wire.Posted? then w
      else if w.wire.presented.None? then w.(wire := Answered(Tab.Refused))
      else Arrive(cfg, w, Refresh(w.wire.presented.value)).(wire := Serving(w.sys.st.next))
    case RefreshDelivered =>
      if !w.wire.Answered? then w
      else w.(tab := Tab.Next(w.tab, Tab.RefreshAnswered(w.wire.answer)), wire := Quiet)
    case SignInArrives(task, email, check) =>
      if !Unserved(w, task) then w
      else Arrive(cfg, w, Login(email, check)).(serving := w.serving[w.sys.st.next := task])
    case SignInDelivered(call, user) =>
      if call !in w.answered then w
      else w.(tab := Tab.Next(w.tab, Tab.SignedIn(w.answered[call].task, w.answered[call].answer, user)),
              answered := w.answered - {call})
  }

  function Run(cfg: Config, w: State, steps: seq<Step>): State
    decreases |steps|
  {
    if steps == [] then w else Run(cfg, Next(cfg, w, steps[0]), steps[1..])
  }

  // ----- what is assumed of everybody else -----

  /** Nobody else presents this tab's tokens; none of its rows is newly revoked; its refresh calls do not die
      between insert and mark. */
  ghost predicate Undisturbed(cfg: Config, w: State, step: Step) {
    && (step.Server? ==>
          && (step.a.Begin? && step.a.req.Refresh? ==> step.a.req.raw !in w.mine)
          && ((step.a.Advance? || step.a.Abort?) && w.wire == Serving(step.a.n) ==> Rotation.MarkNotLost(w.sys, step.a)))
    && (forall i :: StaysUnrevoked(w.sys.st.tokens, Next(cfg, w, step).sys.st.tokens, w.mine, i))
  }

  ghost predicate StaysUnrevoked(tokens: Tokens, tokens': Tokens, mine: set<Id>, i: Id) {
    i in mine && i in tokens && !tokens[i].IsRevoked() && i in tokens' ==> !tokens'[i].IsRevoked()
  }

  ghost predicate AllUndisturbed(cfg: Config, w: State, steps: seq<Step>)
    decreases |steps|
  {
    steps == [] || (Undisturbed(cfg, w, steps[0]) && AllUndisturbed(cfg, Next(cfg, w, steps[0]), steps[1..]))
  }

  // ----- what holds in every reachable state -----

  /** The end of its session's chain: issued, and if still stored then neither used nor revoked; nothing was
      made from it. */
  ghost predicate Tail(st: Store.State, q: Id) {
    && q in st.issued
    && (q in st.tokens ==> !st.tokens[q].IsUsed() && !st.tokens[q].IsRevoked())
    && (forall n :: NotFrom(st.issued, q, n))
  }

  ghost predicate NotFrom(issued: map<Id, Pair>, q: Id, n: Id) {
    n in issued ==> issued[n].parent != Some(q)
  }

  function RawOf(call: Call): Option<Id> {
    match call
    case RefreshBegun(_, presented) => presented
    case RefreshReused(_, raw, _) => Some(raw)
    case RefreshFresh(_, raw, _) => Some(raw)
    case RefreshBarred(_, raw, _) => Some(raw)
    case RefreshAllowed(_, raw, _, _) => Some(raw)
    case RefreshCreated(_, raw, _) => Some(raw)
    case _ => None
  }

  predicate IsLogin(call: Call) {
    call.LoginBegun? || call.LoginWrong? || call.LoginRight? || call.LoginCleared?
  }

  /** A call in flight that presents one of the tab's tokens is the tab's one refresh; every call of the tab in
      flight is that refresh or one of its sign-ins. */
  ghost predicate CallOurs(w: State, n: Id) {
    n in w.sys.calls ==>
      && (RawOf(w.sys.calls[n]).Some? && RawOf(w.sys.calls[n]).value in w.mine ==> w.wire == Serving(n))
      && (n in w.mine ==> w.wire == Serving(n) || n in w.serving)
  }

  ghost predicate WireFine(w: State) {
    match w.wire
    case Quiet => !w.tab.flight.Outstanding?
    case Posted(sent) => w.tab.flight == Tab.Outstanding(sent) && (sent.Some? ==> Tail(w.sys.st, sent.value))
    case Serving(n) =>
      && w.tab.flight.Outstanding? && w.tab.flight.sent.Some?
      && n in w.mine && n !in w.serving && n !in w.answered && n in w.sys.calls
      && RefreshFine(w.sys, n, w.tab.flight.sent.value)
    case Answered(answer) =>
      && w.tab.flight.Outstanding?
      && (answer.Granted? ==> answer.pair in w.mine && answer.pair !in w.answered && answer.pair !in w.serving
                              && Tail(w.sys.st, answer.pair))
      && (answer.Refused? && w.tab.flight.sent.Some? ==> Tail(w.sys.st, w.tab.flight.sent.value))
  }

  /** The tab's refresh n of token p: p is the tail until n inserts its row, then n is. */
  ghost predicate RefreshFine(s: Sys, n: Id, p: Id)
    requires n in s.calls
  {
    && IsRefresh(s.calls[n]) && RawOf(s.calls[n]) == Some(p) && !s.calls[n].RefreshReused?
    && if s.calls[n].RefreshCreated? then Tail(s.st, n) else Tail(s.st, p)
  }

  ghost predicate SentFine(w: State) {
    w.tab.flight.Outstanding? && w.tab.flight.sent.Some? ==>
      w.tab.flight.sent.value in w.mine && w.tab.flight.sent.value in w.sys.st.issued && w.tab.flight.sent.value !in w.answered
  }

  ghost predicate CookieFine(w: State) {
    w.tab.cookie.Some? ==>
      var q := w.tab.cookie.value;
      && q in w.mine && q in w.sys.st.issued && q !in w.answered
      && (w.tab.flight == Tab.Outstanding(Some(q)) || Tail(w.sys.st, q))
  }

  ghost predicate SignInFine(w: State, n: Id) {
    && (n in w.serving ==> n in w.mine && n !in w.answered && n in w.sys.calls && IsLogin(w.sys.calls[n]))
    && (n in w.answered ==>
          && n in w.mine && n !in w.sys.calls
          && (w.answered[n].answer.Granted? ==> w.answered[n].answer.pair == n && Tail(w.sys.st, n)))
  }

  ghost predicate Safe(cfg: Config, w: State) {
    && Inv(cfg, w.sys)
    && (forall n :: n in w.mine ==> n < w.sys.st.next)
    && (forall n :: CallOurs(w, n))
    && WireFine(w)
    && SentFine(w)
    && CookieFine(w)
    && (forall n :: SignInFine(w, n))
  }

  // ----- server steps -----

  /** A tail stays a tail unless the acting call presents it, or the step revokes it. */
  lemma TailKept(cfg: Config, s: Sys, a: Action, q: Id)
    requires Inv(cfg, s) && Tail(s.st, q)
    requires a.Advance? && a.n in s.calls ==> RawOf(s.calls[a.n]) != Some(q)
    requires StaysUnrevoked(s.st.tokens, Machine.Next(cfg, s, a).st.tokens, {q}, q)
    ensures Tail(Machine.Next(cfg, s, a).st, q)
  {
    var s' := Machine.Next(cfg, s, a);
    Rotation.LaterStep(cfg, s, a);
    assert Rotation.RowKept(s.st, s'.st.tokens, q);
    if a.Advance? && a.n in s.calls {
      Rotation.NewPair(cfg, s, a.n);
      if q in s.st.tokens {
        UsedByPresenter(cfg, s, a.n, q);
      }
    }
    if a.Purge? {
      KeptByPurge(cfg, s, a.before);
    }
    forall n
      ensures NotFrom(s'.st.issued, q, n)
    {
      assert NotFrom(s.st.issued, q, n);
    }
  }

  lemma UsedByPresenter(cfg: Config, s: Sys, n: Id, q: Id)
    requires Inv(cfg, s) && n in s.calls && q in s.st.tokens && !s.st.tokens[q].IsUsed() && RawOf(s.calls[n]) != Some(q)
    ensures var s' := Machine.Next(cfg, s, Advance(n));
            q in s'.st.tokens && q in s.st.issued ==> !s'.st.tokens[q].IsUsed()
  {
    var call := s.calls[n];
    if IsQuiet(call) {
      QuietStatement(cfg, s, n);
    } else {
      assert CallFine(s.st.issued, s.st.next, s.clock, n, call);
    }
  }

  /** The tab's own refresh takes one statement. */
  lemma OwnRefreshStep(cfg: Config, s: Sys, n: Id, p: Id)
    requires Inv(cfg, s) && n in s.calls && RefreshFine(s, n, p)
    requires Rotation.MarkNotLost(s, Advance(n))
    requires StaysUnrevoked(s.st.tokens, Machine.Next(cfg, s, Advance(n)).st.tokens, {p}, p)
    requires StaysUnrevoked(s.st.tokens, Machine.Next(cfg, s, Advance(n)).st.tokens, {n}, n)
    ensures var s' := Machine.Next(cfg, s, Advance(n));
            && (n in s'.calls ==> RefreshFine(s', n, p))
            && (n !in s'.calls ==>
                  var answer := Ending(cfg, s, Advance(n), n);
                  && answer.Some? && (answer.value.Granted? ==> answer.value.pair == n && Tail(s'.st, n))
                  && !answer.value.Refused?)
  {
    var s', call := Machine.Next(cfg, s, Advance(n)), s.calls[n];
    Kept(cfg, s, Advance(n));
    assert CallFine(s.st.issued, s.st.next, s.clock, n, call);
    Rotation.NewPair(cfg, s, n);
    if call.RefreshCreated? {
      forall m
        ensures NotFrom(s'.st.issued, n, m)
      {
        assert NotFrom(s.st.issued, n, m);
      }
    } else if call.RefreshAllowed? {
      assert RowFine(cfg, s.st.tokens, s.st.issued, n);
      forall m
        ensures NotFrom(s'.st.issued, n, m)
      {
        assert PairFine(cfg, s.st.issued, s.st.next, s.clock, m);
      }
      assert Tail(s'.st, n);
    } else if n in s'.calls {
      assert s'.st == s.st;
    }
  }

  /** One of the tab's sign-ins takes one statement. */
  lemma OwnLoginStep(cfg: Config, s: Sys, n: Id)
    requires Inv(cfg, s) && n in s.calls && IsLogin(s.calls[n])
    ensures var s' := Machine.Next(cfg, s, Advance(n));
            && (n in s'.calls ==> IsLogin(s'.calls[n]))
            && (n !in s'.calls ==>
                  var answer := Ending(cfg, s, Advance(n), n);
                  answer.Some? && (answer.value.Granted? ==> answer.value.pair == n && n !in s.st.issued && Tail(s'.st, n)))
  {
    var s', call := Machine.Next(cfg, s, Advance(n)), s.calls[n];
    assert CallFine(s.st.issued, s.st.next, s.clock, n, call);
    if call.LoginCleared? {
      assert RowFine(cfg, s.st.tokens, s.st.issued, n);
      forall m
        ensures NotFrom(s'.st.issued, n, m)
      {
        assert PairFine(cfg, s.st.issued, s.st.next, s.clock, m);
      }
    }
  }

  lemma RawStays(cfg: Config, s: Sys, n: Id)
    requires n in s.calls
    ensures var s' := Machine.Next(cfg, s, Advance(n));
            n in s'.calls && RawOf(s'.calls[n]).Some? ==> RawOf(s'.calls[n]) == RawOf(s.calls[n])
  {
    var call := s.calls[n];
    if IsRefresh(call) {
    } else if IsLogout(call) {
    } else if IsTeam(call) {
    } else {
    }
  }

  lemma ServerCalls(cfg: Config, w: State, a: Action)
    requires Safe(cfg, w) && Undisturbed(cfg, w, Server(a))
    ensures forall n :: CallOurs(ServerStep(cfg, w, a), n)
  {
    var w' := ServerStep(cfg, w, a);
    forall n
      ensures CallOurs(w', n)
    {
      assert CallOurs(w, n) && SignInFine(w, n);
      if a.Advance? && a.n == n && n in w.sys.calls {
        RawStays(cfg, w.sys, n);
      }
    }
  }

  lemma TailsKept(cfg: Config, w: State, a: Action, q: Id)
    requires Safe(cfg, w) && Undisturbed(cfg, w, Server(a)) && q in w.mine && Tail(w.sys.st, q)
    requires w.wire.Serving? ==> w.tab.flight != Tab.Outstanding(Some(q))
    ensures Tail(Machine.Next(cfg, w.sys, a).st, q)
  {
    assert Next(cfg, w, Server(a)).sys == Machine.Next(cfg, w.sys, a);
    assert StaysUnrevoked(w.sys.st.tokens, Machine.Next(cfg, w.sys, a).st.tokens, w.mine, q);
    if a.Advance? {
      assert CallOurs(w, a.n);
    }
    TailKept(cfg, w.sys, a, q);
  }

  /** The wire when the tab's refresh is at the server. */
  lemma ServingWire(cfg: Config, w: State, a: Action, n: Id)
    requires Safe(cfg, w) && Undisturbed(cfg, w, Server(a)) && w.wire == Serving(n)
    ensures WireFine(ServerStep(cfg, w, a))
  {
    var s' := Machine.Next(cfg, w.sys, a);
    var p := w.tab.flight.sent.value;
    assert Next(cfg, w, Server(a)).sys == s';
    assert StaysUnrevoked(w.sys.st.tokens, s'.st.tokens, w.mine, p);
    assert StaysUnrevoked(w.sys.st.tokens, s'.st.tokens, w.mine, n);
    if a == Advance(n) {
      OwnRefreshStep(cfg, w.sys, n, p);
      assert n in s'.calls <==> Ending(cfg, w.sys, a, n).None?;
    } else {
      OthersStep(cfg, w, a, n, p);
    }
  }

  lemma OthersStep(cfg: Config, w: State, a: Action, n: Id, p: Id)
    requires Safe(cfg, w) && Undisturbed(cfg, w, Server(a)) && w.wire == Serving(n) && a != Advance(n)
    requires w.tab.flight == Tab.Outstanding(Some(p))
    requires StaysUnrevoked(w.sys.st.tokens, Machine.Next(cfg, w.sys, a).st.tokens, w.mine, p)
    requires StaysUnrevoked(w.sys.st.tokens, Machine.Next(cfg, w.sys, a).st.tokens, w.mine, n)
    ensures var s' := Machine.Next(cfg, w.sys, a);
            && (a != Abort(n) ==> n in s'.calls && RefreshFine(s', n, p))
            && (a == Abort(n) ==> Tail(s'.st, p))
  {
    assert CallFine(w.sys.st.issued, w.sys.st.next, w.sys.clock, n, w.sys.calls[n]);
    if a.Advance? {
      assert CallOurs(w, a.n);
    }
    if w.sys.calls[n].RefreshCreated? {
      TailKept(cfg, w.sys, a, n);
    } else {
      TailKept(cfg, w.sys, a, p);
    }
  }

  lemma ServerWire(cfg: Config, w: State, a: Action)
    requires Safe(cfg, w) && Undisturbed(cfg, w, Server(a))
    ensures WireFine(ServerStep(cfg, w, a))
  {
    match w.wire {
      case Quiet =>
      case Serving(n) => ServingWire(cfg, w, a, n);
      case Posted(sent) =>
        if sent.Some? {
          TailsKept(cfg, w, a, sent.value);
        }
      case Answered(answer) =>
        if answer.Granted? {
          TailsKept(cfg, w, a, answer.pair);
          assert SignInFine(w, answer.pair);
        } else if answer.Refused? && w.tab.flight.sent.Some? {
          TailsKept(cfg, w, a, w.tab.flight.sent.value);
        }
    }
  }

  /** An issued pair is not one of the tab's sign-ins still at the server. */
  lemma NotServing(cfg: Config, w: State, q: Id)
    requires Safe(cfg, w) && q in w.sys.st.issued
    ensures q !in w.serving
  {
    assert SignInFine(w, q);
  }

  lemma ServerTokens(cfg: Config, w: State, a: Action)
    requires Safe(cfg, w) && Undisturbed(cfg, w, Server(a))
    ensures CookieFine(ServerStep(cfg, w, a)) && SentFine(ServerStep(cfg, w, a))
  {
    Rotation.LaterStep(cfg, w.sys, a);
    if w.tab.flight.Outstanding? && w.tab.flight.sent.Some? {
      NotServing(cfg, w, w.tab.flight.sent.value);
    }
    if w.tab.cookie.Some? {
      NotServing(cfg, w, w.tab.cookie.value);
      if w.tab.flight != Tab.Outstanding(w.tab.cookie) {
        TailsKept(cfg, w, a, w.tab.cookie.value);
      }
    }
  }

  lemma OwnSignInAdvances(cfg: Config, w: State, n: Id)
    requires Safe(cfg, w) && n in w.serving
    ensures SignInFine(ServerStep(cfg, w, Advance(n)), n)
  {
    assert SignInFine(w, n) && CallOurs(w, n);
    assert CallFine(w.sys.st.issued, w.sys.st.next, w.sys.clock, n, w.sys.calls[n]);
    OwnLoginStep(cfg, w.sys, n);
    assert n in Machine.Next(cfg, w.sys, Advance(n)).calls <==> Ending(cfg, w.sys, Advance(n), n).None?;
  }

  lemma ServerSignIn(cfg: Config, w: State, a: Action, n: Id)
    requires Safe(cfg, w) && Undisturbed(cfg, w, Server(a))
    ensures SignInFine(ServerStep(cfg, w, a), n)
  {
    assert SignInFine(w, n) && CallOurs(w, n);
    if n in w.answered {
      if w.answered[n].answer.Granted? {
        TailsKept(cfg, w, a, n);
      }
    } else if n in w.serving && a == Advance(n) {
      OwnSignInAdvances(cfg, w, n);
    } else if n in w.serving {
      assert CallFine(w.sys.st.issued, w.sys.st.next, w.sys.clock, n, w.sys.calls[n]);
    }
  }

  lemma ServerSafe(cfg: Config, w: State, a: Action)
    requires Safe(cfg, w) && Undisturbed(cfg, w, Server(a))
    ensures Safe(cfg, ServerStep(cfg, w, a))
  {
    Kept(cfg, w.sys, a);
    ServerCalls(cfg, w, a);
    ServerWire(cfg, w, a);
    ServerTokens(cfg, w, a);
    forall n
      ensures SignInFine(ServerStep(cfg, w, a), n)
    {
      ServerSignIn(cfg, w, a, n);
    }
    NumbersGrow(cfg, w.sys, a);
  }

  lemma NumbersGrow(cfg: Config, s: Sys, a: Action)
    requires Inv(cfg, s)
    ensures Machine.Next(cfg, s, a).st.next >= s.st.next
  {
    if a.Advance? && a.n in s.calls {
      var call := s.calls[a.n];
      if IsQuiet(call) {
        QuietStatement(cfg, s, a.n);
      }
    }
  }

  // ----- arrivals, deliveries, script steps -----

  lemma ArrivalKeepsTails(cfg: Config, s: Sys, req: Request, q: Id)
    requires Tail(s.st, q)
    ensures Tail(Machine.Next(cfg, s, Begin(req)).st, q)
  {
    forall n
      ensures NotFrom(Machine.Next(cfg, s, Begin(req)).st.issued, q, n)
    {
      assert NotFrom(s.st.issued, q, n);
    }
  }

  lemma RefreshArrivesSafe(cfg: Config, w: State)
    requires Safe(cfg, w)
    ensures Safe(cfg, Next(cfg, w, RefreshArrives))
  {
    var w' := Next(cfg, w, RefreshArrives);
    if w.wire.Posted? && w.wire.presented.Some? {
      var c, p := w.sys.st.next, w.wire.presented.value;
      Kept(cfg, w.sys, Begin(Refresh(p)));
      ArrivalSafe(cfg, w, Refresh(p), w');
      ArrivalKeepsTails(cfg, w.sys, Refresh(p), p);
      assert SignInFine(w, c);
    } else if w.wire.Posted? {
      SameCalls(cfg, w, w');
    }
  }

  /** A new call of the tab leaves everything about older calls as it was. */
  lemma ArrivalSafe(cfg: Config, w: State, req: Request, w': State)
    requires Safe(cfg, w) && (req.Login? || req.Refresh?)
    requires w'.sys == Machine.Next(cfg, w.sys, Begin(req)) && w'.mine == w.mine + {w.sys.st.next} && w'.tab == w.tab
    requires w'.answered == w.answered
    requires req.Login? ==> w'.wire == w.wire && w.sys.st.next in w'.serving
                            && w'.serving == w.serving[w.sys.st.next := w'.serving[w.sys.st.next]]
    requires req.Refresh? ==> w.wire.Posted? && w'.wire == Serving(w.sys.st.next) && w'.serving == w.serving
    ensures (forall n :: CallOurs(w', n)) && CookieFine(w') && SentFine(w') && (forall n :: SignInFine(w', n))
    ensures forall n :: n in w'.mine ==> n < w'.sys.st.next
    ensures w.sys.st.next !in w.answered && w.sys.st.next !in w.serving
  {
    var c := w.sys.st.next;
    assert SignInFine(w, c);
    forall n
      ensures CallOurs(w', n) && SignInFine(w', n)
    {
      assert CallOurs(w, n) && SignInFine(w, n);
      if n in w.sys.calls {
        assert CallFine(w.sys.st.issued, w.sys.st.next, w.sys.clock, n, w.sys.calls[n]);
      }
      if n in w.answered && w.answered[n].answer.Granted? {
        ArrivalKeepsTails(cfg, w.sys, req, n);
      }
    }
    if w.tab.cookie.Some? && Tail(w.sys.st, w.tab.cookie.value) {
      ArrivalKeepsTails(cfg, w.sys, req, w.tab.cookie.value);
    }
  }

  lemma SignInArrivesSafe(cfg: Config, w: State, task: nat, email: string, check: PasswordCheck)
    requires Safe(cfg, w)
    ensures Safe(cfg, Next(cfg, w, SignInArrives(task, email, check)))
  {
    var w' := Next(cfg, w, SignInArrives(task, email, check));
    if Unserved(w, task) {
      var req := Login(email, check);
      Kept(cfg, w.sys, Begin(req));
      ArrivalSafe(cfg, w, req, w');
      match w.wire {
        case Quiet =>
        case Posted(sent) =>
          if sent.Some? {
            ArrivalKeepsTails(cfg, w.sys, req, sent.value);
          }
        case Serving(n) =>
          if w.sys.calls[n].RefreshCreated? {
            ArrivalKeepsTails(cfg, w.sys, req, n);
          } else {
            ArrivalKeepsTails(cfg, w.sys, req, w.tab.flight.sent.value);
          }
        case Answered(answer) =>
          if answer.Granted? {
            ArrivalKeepsTails(cfg, w.sys, req, answer.pair);
            assert PairFine(cfg, w.sys.st.issued, w.sys.st.next, w.sys.clock, answer.pair);
          } else if answer.Refused? && w.tab.flight.sent.Some? {
            ArrivalKeepsTails(cfg, w.sys, req, w.tab.flight.sent.value);
          }
      }
    }
  }

  /** The server and the sign-ins stand still; the wire may move between states without a call of its own. */
  lemma SameCalls(cfg: Config, w: State, w': State)
    requires Safe(cfg, w)
    requires w'.sys == w.sys && w'.mine == w.mine && w'.serving == w.serving
    requires forall n :: n in w'.answered ==> n in w.answered && w'.answered[n] == w.answered[n]
    requires w'.wire == w.wire || (!w.wire.Serving? && !w'.wire.Serving?)
    ensures (forall n :: CallOurs(w', n)) && (forall n :: SignInFine(w', n))
  {
    forall n
      ensures CallOurs(w', n) && SignInFine(w', n)
    {
      assert CallOurs(w, n) && SignInFine(w, n);
    }
  }

  lemma RefreshDeliveredSafe(cfg: Config, w: State)
    requires Safe(cfg, w)
    ensures Safe(cfg, Next(cfg, w, RefreshDelivered))
  {
    var w' := Next(cfg, w, RefreshDelivered);
    if w.wire.Answered? {
      SameCalls(cfg, w, w');
    }
  }

  lemma SignInDeliveredSafe(cfg: Config, w: State, call: Id, user: Id)
    requires Safe(cfg, w)
    ensures Safe(cfg, Next(cfg, w, SignInDelivered(call, user)))
  {
    var w' := Next(cfg, w, SignInDelivered(call, user));
    assert SignInFine(w, call);
    if call in w.answered {
      SameCalls(cfg, w, w');
      assert w'.tab.flight == w.tab.flight;
    }
  }

  lemma ClientSafe(cfg: Config, w: State, input: Tab.Input)
    requires Safe(cfg, w) && !input.SignedIn? && !input.RefreshAnswered?
    ensures Safe(cfg, ClientStep(w, input))
  {
    var w' := ClientStep(w, input);
    SameCalls(cfg, w, w');
    ScriptKeeps(w.tab, input);
  }

  /** A script step keeps the cookie or drops it, and a refresh it sends carries the cookie. */
  lemma ScriptKeeps(t: Tab.TabState, input: Tab.Input)
    requires !input.SignedIn? && !input.RefreshAnswered?
    ensures var t' := Tab.Next(t, input);
            && (t'.cookie == t.cookie || t'.cookie == None)
            && (t'.flight == t.flight
                || (t.flight.Idle? && t'.flight == Tab.Outstanding(t.cookie) && t'.cookie == t.cookie)
                || (t.flight.Landed? && t'.flight.Idle?))
  {
  }

  lemma SafeStep(cfg: Config, w: State, step: Step)
    requires Safe(cfg, w) && Undisturbed(cfg, w, step)
    ensures Safe(cfg, Next(cfg, w, step))
  {
    match step {
      case Server(a) => ServerSafe(cfg, w, a);
      case Client(input) =>
        if !input.SignedIn? && !input.RefreshAnswered? {
          ClientSafe(cfg, w, input);
        }
      case RefreshArrives => RefreshArrivesSafe(cfg, w);
      case RefreshDelivered => RefreshDeliveredSafe(cfg, w);
      case SignInArrives(task, email, check) => SignInArrivesSafe(cfg, w, task, email, check);
      case SignInDelivered(call, user) => SignInDeliveredSafe(cfg, w, call, user);
    }
  }

  lemma {:induction false} SafeAlong(cfg: Config, w: State, steps: seq<Step>)
    requires Safe(cfg, w) && AllUndisturbed(cfg, w, steps)
    ensures Safe(cfg, Run(cfg, w, steps))
    decreases |steps|
  {
    if steps != [] {
      SafeStep(cfg, w, steps[0]);
      SafeAlong(cfg, Next(cfg, w, steps[0]), steps[1..]);
    }
  }

  // ----- main results -----

  /** A page opened on a server in any reachable state: no cookie, or the tail of a session that no call in
      flight presents. */
  ghost predicate Opened(cfg: Config, w: State) {
    && Inv(cfg, w.sys) && Tab.Opened(w.tab)
    && w.wire.Quiet? && w.serving == map[] && w.answered == map[]
    && w.mine == (if w.tab.cookie.Some? then {w.tab.cookie.value} else {})
    && (w.tab.cookie.Some? ==> Tail(w.sys.st, w.tab.cookie.value) && w.tab.cookie.value !in w.sys.calls)
    && (forall n :: n in w.sys.calls && RawOf(w.sys.calls[n]).Some? ==> RawOf(w.sys.calls[n]) != w.tab.cookie)
  }

  lemma OpenedIsSafe(cfg: Config, w: State)
    requires Opened(cfg, w)
    ensures Safe(cfg, w)
  {
    if w.tab.cookie.Some? {
      assert PairFine(cfg, w.sys.st.issued, w.sys.st.next, w.sys.clock, w.tab.cookie.value);
    }
  }

  ghost function RefreshesOut(w: State): set<Id> {
    set n | n in w.mine && n in w.sys.calls && IsRefresh(w.sys.calls[n])
  }

  /** For any number of requests, sign-ins and restores in one tab, whatever else runs on the server: as long as
      nobody else presents the tab's tokens, none of its rows is revoked and its refresh calls do not die between
      insert and mark, at most one refresh of the tab is at the server; whenever none is out the cookie is the
      tail of its session's chain; and no call, the tab's or anybody's, is in the reuse branch with one of the
      tab's tokens. */
  lemma ReuseUnreachable(cfg: Config, w: State, steps: seq<Step>)
    requires Opened(cfg, w) && AllUndisturbed(cfg, w, steps)
    ensures var end := Run(cfg, w, steps);
            && (forall n, m :: n in RefreshesOut(end) && m in RefreshesOut(end) ==> n == m)
            && (!end.tab.flight.Outstanding? && end.tab.cookie.Some? ==> Tail(end.sys.st, end.tab.cookie.value))
            && (forall n :: n in end.sys.calls && end.sys.calls[n].RefreshReused? ==> end.sys.calls[n].raw !in end.mine)
  {
    OpenedIsSafe(cfg, w);
    SafeAlong(cfg, w, steps);
    var end := Run(cfg, w, steps);
    forall n | n in end.sys.calls
      ensures n in RefreshesOut(end) ==> end.wire == Serving(n)
      ensures end.sys.calls[n].RefreshReused? ==> end.sys.calls[n].raw !in end.mine
    {
      assert CallOurs(end, n) && SignInFine(end, n);
    }
  }
}
