/** One browser tab: the session store, the shared refresh, and any number of requests, sign-ins, sign-outs and
    session restores, each cut at its awaits. What servers answer comes in as input. */
module Tab {
  import opened Domain

  datatype Status = Checking | Authenticated | Anonymous

  /** The in-memory session; an access token is named by its jti, the empty string by NIL. */
  datatype Session = Session(token: Option<Id>, user: Option<Id>, status: Status)

  const FIRST: Session := Session(None, None, Checking)

  function SetSession(token: Id, user: Id): Session { Session(Some(token), Some(user), Authenticated) }
  function ClearSession(): Session { Session(None, None, Anonymous) }
  function UpdateAccessToken(s: Session, token: Id): Session { s.(token := Some(token)) }

  datatype Kind = Plain | SignIn | SignOut | Restore

  /** Fetching: its own request is out. Waiting: on the shared refresh, for its own 401 or (restore only) first
      of all. Resuming: that refresh settled, the continuation is queued. */
  datatype Stage = Fetching(retry: bool) | Waiting(own: bool) | Resuming(own: bool, ok: bool) | Ended

  /** `fetches` and `joins` count what the task has done so far; `sent` is the access token its last fetch carried. */
  datatype Task = Task(kind: Kind, stage: Stage, fetches: nat, joins: nat, sent: Option<Id>)

  /** The shared refresh: none, a POST with the cookie as it was then, or answered but not yet settled. */
  datatype Flight = Idle | Outstanding(sent: Option<Id>) | Landed(pair: Option<Id>)

  datatype TabState = TabState(cookie: Option<Id>, flight: Flight, tasks: seq<Task>, session: Session)

  /** Answers of the auth endpoints: a pair with its cookie, an error that clears the cookie, another error. */
  datatype Answer = Granted(pair: Id) | Dead | Refused

  datatype Reaction = Ok(user: Id) | Unauthorized | Failure

  datatype Input =
    | StartPlain
    | StartSignIn
    | StartSignOut
    | StartRestore
    | Replied(task: nat, reaction: Reaction)                 // to a plain request or to /me
    | SignedIn(task: nat, answer: Answer, user: Id)          // to /auth/login
    | SignedOut(task: nat, ok: bool)                         // to /auth/logout
    | RefreshAnswered(answer: Answer)                        // response headers: the cookie changes here
    | RefreshSettled                                         // body read, token stored, promise cleared
    | Continue(task: nat)

  /** refreshAccessToken: join the refresh in flight, or send one with the cookie of this moment. */
  function Join(t: TabState): TabState {
    if t.flight.Idle? then t.(flight := Outstanding(t.cookie)) else t
  }

  function CookieAfter(cookie: Option<Id>, answer: Answer): Option<Id> {
    match answer
    case Granted(pair) => Some(pair)
    case Dead => None
    case Refused => cookie
  }

  function Put(t: TabState, i: nat, stage: Stage): TabState
    requires i < |t.tasks|
  {
    t.(tasks := t.tasks[i := t.tasks[i].(stage := stage)])
  }

  function PutJoin(t: TabState, i: nat): TabState
    requires i < |t.tasks|
  {
    Join(t.(tasks := t.tasks[i := t.tasks[i].(stage := Waiting(true), joins := t.tasks[i].joins + 1)]))
  }

  function PutFetch(t: TabState, i: nat, retry: bool): TabState
    requires i < |t.tasks|
  {
    t.(tasks := t.tasks[i := t.tasks[i].(stage := Fetching(retry), fetches := t.tasks[i].fetches + 1,
                                         sent := t.session.token)])
  }

  /** The store after the own request of a restore has been answered for good. */
  function Restored(s: Session, reaction: Reaction): Session {
    match reaction
    case Ok(user) => SetSession(if s.token.Some? then s.token.value else NIL, user)
    case _ => ClearSession()
  }

  function Settled(task: Task, ok: bool): Task {
    if task.stage.Waiting? then task.(stage := Resuming(task.stage.own, ok)) else task
  }

  /** Inputs that do not fit the current state change nothing. */
  function Next(t: TabState, input: Input): TabState {
    match input
    case StartPlain => t.(tasks := t.tasks + [Task(Plain, Fetching(false), 1, 0, t.session.token)])
    case StartSignIn => t.(tasks := t.tasks + [Task(SignIn, Fetching(false), 1, 0, t.session.token)])
    case StartSignOut => t.(tasks := t.tasks + [Task(SignOut, Fetching(false), 1, 0, t.session.token)])
    case StartRestore => Join(t.(tasks := t.tasks + [Task(Restore, Waiting(false), 0, 1, None)]))
    case Replied(i, reaction) =>
      if i >= |t.tasks| || !t.tasks[i].stage.Fetching? || !(t.tasks[i].kind.Plain? || t.tasks[i].kind.Restore?) then t
      else if reaction.Unauthorized? && !t.tasks[i].stage.retry then PutJoin(t, i)
      else if t.tasks[i].kind.Plain? then Put(t, i, Ended)
      else Put(t, i, Ended).(session := Restored(t.session, reaction))
    case SignedIn(i, answer, user) =>
      if i >= |t.tasks| || !t.tasks[i].stage.Fetching? || !t.tasks[i].kind.SignIn? then t
      else
        var ended := Put(t, i, Ended).(cookie := CookieAfter(t.cookie, if answer.Dead? then Refused else answer));
        if answer.Granted? then ended.(session := SetSession(answer.pair, user)) else ended
    case SignedOut(i, ok) =>
      if i >= |t.tasks| || !t.tasks[i].stage.Fetching? || !t.tasks[i].kind.SignOut? then t
      else Put(t, i, Ended).(session := ClearSession(), cookie := if ok then None else t.cookie)
    case RefreshAnswered(answer) =>
      if !t.flight.Outstanding? then t
      else t.(cookie := CookieAfter(t.cookie, answer), flight := Landed(if answer.Granted? then Some(answer.pair) else None))
    case RefreshSettled =>
      if !t.flight.Landed? then t
      else
        var ok := t.flight.pair.Some?;
        t.(flight := Idle,
           tasks := seq(|t.tasks|, i requires 0 <= i < |t.tasks| => Settled(t.tasks[i], ok)),
           session := if ok then UpdateAccessToken(t.session, t.flight.pair.value) else t.session)
    case Continue(i) =>
      if i >= |t.tasks| || !t.tasks[i].stage.Resuming? then t
      else if !t.tasks[i].stage.ok then Put(t, i, Ended).(session := ClearSession())
      else PutFetch(t, i, t.tasks[i].stage.own)
  }

  function Run(t: TabState, inputs: seq<Input>): TabState
    decreases |inputs|
  {
    if inputs == [] then t else Run(Next(t, inputs[0]), inputs[1..])
  }

  /** A fresh page: nothing running, the session still unknown, whatever cookie the browser kept. */
  predicate Opened(t: TabState) {
    t.flight.Idle? && t.tasks == [] && t.session == FIRST
  }

  // ----- the store -----

  /** "Authenticated" exactly when a user is there, and never without a token. */
  predicate SessionFine(s: Session) {
    (s.status == Authenticated <==> s.user.Some?) && (s.user.Some? ==> s.token.Some?)
  }

  // ----- what each task has done -----

  /** How far a task has come fixes what it has fetched and joined. */
  predicate EffortFine(task: Task) {
    match (task.kind, task.stage)
    case (Plain, Fetching(retry)) => if retry then task.fetches == 2 && task.joins == 1 else task.fetches == 1 && task.joins == 0
    case (Plain, Waiting(own)) => own && task.fetches == 1 && task.joins == 1
    case (Plain, Resuming(own, _)) => own && task.fetches == 1 && task.joins == 1
    case (Restore, Fetching(retry)) => if retry then task.fetches == 2 && task.joins == 2 else task.fetches == 1 && task.joins == 1
    case (Restore, Waiting(own)) => if own then task.fetches == 1 && task.joins == 2 else task.fetches == 0 && task.joins == 1
    case (Restore, Resuming(own, _)) => if own then task.fetches == 1 && task.joins == 2 else task.fetches == 0 && task.joins == 1
    case (Plain, Ended) => task.fetches <= 2 && task.joins <= 1
    case (Restore, Ended) => task.fetches <= 2 && task.joins <= 2
    case (_, Fetching(retry)) => !retry && task.fetches == 1 && task.joins == 0
    case (_, Ended) => task.fetches == 1 && task.joins == 0
    case _ => false
  }

  ghost predicate Fine(t: TabState) {
    && SessionFine(t.session)
    && (forall i :: 0 <= i < |t.tasks| ==> EffortFine(t.tasks[i]))
    && (t.flight.Idle? ==> forall i :: 0 <= i < |t.tasks| ==> !t.tasks[i].stage.Waiting?)
  }

  lemma SessionStep(t: TabState, input: Input)
    requires SessionFine(t.session)
    ensures SessionFine(Next(t, input).session)
    ensures Next(t, input).session.status == Checking ==> t.session.status == Checking
  {
  }

  lemma RepliedStep(t: TabState, j: nat, reaction: Reaction, i: nat)
    requires Fine(t) && i < |t.tasks|
    ensures var t' := Next(t, Replied(j, reaction));
            |t'.tasks| == |t.tasks| && EffortFine(t'.tasks[i]) && (t'.flight.Idle? ==> !t'.tasks[i].stage.Waiting?)
  {
    assert EffortFine(t.tasks[i]);
  }

  lemma SettledStep(t: TabState, i: nat)
    requires Fine(t) && i < |t.tasks|
    ensures var t' := Next(t, RefreshSettled);
            |t'.tasks| == |t.tasks| && EffortFine(t'.tasks[i]) && (t'.flight.Idle? ==> !t'.tasks[i].stage.Waiting?)
  {
    assert EffortFine(t.tasks[i]);
    assert t.flight.Landed? ==> Next(t, RefreshSettled).tasks[i] == Settled(t.tasks[i], t.flight.pair.Some?);
  }

  lemma ContinueStep(t: TabState, j: nat, i: nat)
    requires Fine(t) && i < |t.tasks|
    ensures var t' := Next(t, Continue(j));
            |t'.tasks| == |t.tasks| && EffortFine(t'.tasks[i]) && (t'.flight.Idle? ==> !t'.tasks[i].stage.Waiting?)
  {
    assert EffortFine(t.tasks[i]);
  }

  lemma TaskStep(t: TabState, input: Input, i: nat)
    requires Fine(t) && i < |Next(t, input).tasks|
    ensures EffortFine(Next(t, input).tasks[i])
    ensures Next(t, input).flight.Idle? ==> !Next(t, input).tasks[i].stage.Waiting?
  {
    if i < |t.tasks| {
      assert EffortFine(t.tasks[i]);
      match input {
        case Replied(j, reaction) => RepliedStep(t, j, reaction, i);
        case RefreshSettled => SettledStep(t, i);
        case Continue(j) => ContinueStep(t, j, i);
        case _ =>
      }
    }
  }

  lemma FineStep(t: TabState, input: Input)
    requires Fine(t)
    ensures Fine(Next(t, input))
    ensures Next(t, input).session.status == Checking ==> t.session.status == Checking
  {
    SessionStep(t, input);
    forall i | 0 <= i < |Next(t, input).tasks|
      ensures EffortFine(Next(t, input).tasks[i])
      ensures Next(t, input).flight.Idle? ==> !Next(t, input).tasks[i].stage.Waiting?
    {
      TaskStep(t, input, i);
    }
  }

  lemma {:induction false} FineRun(t: TabState, inputs: seq<Input>)
    requires Fine(t)
    ensures Fine(Run(t, inputs))
    ensures Run(t, inputs).session.status == Checking ==> t.session.status == Checking
    decreases |inputs|
  {
    if inputs != [] {
      FineStep(t, inputs[0]);
      FineRun(Next(t, inputs[0]), inputs[1..]);
    }
  }

  /** Under any interleaving: "authenticated" holds exactly when a user is present and implies a token; once
      decided the session never goes back to "checking"; each request fetches its own path at most twice and
      joins at most one refresh (a restore: one more, its opening one); whoever waits, waits for a refresh that
      is really in flight. */
  lemma EveryRunIsFine(t: TabState, before: seq<Input>, later: seq<Input>)
    requires Opened(t)
    ensures var mid, end := Run(t, before), Run(Run(t, before), later);
            && (end.session.status == Authenticated <==> end.session.user.Some?)
            && (end.session.user.Some? ==> end.session.token.Some?)
            && (mid.session.status != Checking ==> end.session.status != Checking)
            && (forall i :: 0 <= i < |end.tasks| ==>
                  end.tasks[i].fetches <= 2 && end.tasks[i].joins <= (if end.tasks[i].kind.Restore? then 2 else 1))
            && ((exists i :: 0 <= i < |end.tasks| && end.tasks[i].stage.Waiting?) ==> !end.flight.Idle?)
  {
    FineRun(t, before);
    FineRun(Run(t, before), later);
    var end := Run(Run(t, before), later);
    forall i | 0 <= i < |end.tasks|
      ensures end.tasks[i].fetches <= 2 && end.tasks[i].joins <= (if end.tasks[i].kind.Restore? then 2 else 1)
    {
      assert EffortFine(end.tasks[i]);
    }
  }

  // ----- termination -----

  function Rank(task: Task): nat {
    match task.stage
    case Fetching(retry) => if !retry && (task.kind.Plain? || task.kind.Restore?) then 6 else 1
    case Waiting(own) => if own then 3 else 8
    case Resuming(own, _) => if own then 2 else 7
    case Ended => 0
  }

  function Ranks(tasks: seq<Task>): nat {
    if tasks == [] then 0 else Ranks(tasks[..|tasks| - 1]) + Rank(tasks[|tasks| - 1])
  }

  /** What is left to do, were nothing new started. */
  function Left(t: TabState): nat {
    Ranks(t.tasks) + match t.flight case Idle => 0 case Outstanding(_) => 2 case Landed(_) => 1
  }

  predicate Starts(input: Input) {
    input.StartPlain? || input.StartSignIn? || input.StartSignOut? || input.StartRestore?
  }

  lemma {:induction false} RanksPut(tasks: seq<Task>, i: nat, task: Task)
    requires i < |tasks|
    ensures Ranks(tasks[i := task]) == Ranks(tasks) - Rank(tasks[i]) + Rank(task)
  {
    var last := |tasks| - 1;
    if i == last {
      assert tasks[i := task][..last] == tasks[..last];
    } else {
      assert tasks[i := task][..last] == tasks[..last][i := task];
      RanksPut(tasks[..last], i, task);
    }
  }

  lemma {:induction false} RanksSettled(tasks: seq<Task>, settled: seq<Task>, ok: bool)
    requires |settled| == |tasks| && forall i :: 0 <= i < |tasks| ==> settled[i] == Settled(tasks[i], ok)
    ensures Ranks(settled) <= Ranks(tasks)
  {
    if tasks != [] {
      RanksSettled(tasks[..|tasks| - 1], settled[..|tasks| - 1], ok);
    }
  }

  lemma RepliedRunsOut(t: TabState, i: nat, reaction: Reaction)
    requires Fine(t) && Next(t, Replied(i, reaction)) != t
    ensures Left(Next(t, Replied(i, reaction))) < Left(t)
  {
    assert EffortFine(t.tasks[i]);
    RanksPut(t.tasks, i, Next(t, Replied(i, reaction)).tasks[i]);
  }

  lemma SettledRunsOut(t: TabState)
    requires Fine(t) && Next(t, RefreshSettled) != t
    ensures Left(Next(t, RefreshSettled)) < Left(t)
  {
    RanksSettled(t.tasks, Next(t, RefreshSettled).tasks, t.flight.pair.Some?);
  }

  lemma ContinueRunsOut(t: TabState, i: nat)
    requires Fine(t) && Next(t, Continue(i)) != t
    ensures Left(Next(t, Continue(i))) < Left(t)
  {
    assert EffortFine(t.tasks[i]);
    RanksPut(t.tasks, i, Next(t, Continue(i)).tasks[i]);
  }

  /** Every input that does something, other than starting a new task, brings the tab strictly closer to rest. */
  lemma StepsRunOut(t: TabState, input: Input)
    requires Fine(t) && !Starts(input) && Next(t, input) != t
    ensures Left(Next(t, input)) < Left(t)
  {
    match input {
      case Replied(i, reaction) => RepliedRunsOut(t, i, reaction);
      case SignedIn(i, answer, user) => RanksPut(t.tasks, i, Next(t, input).tasks[i]);
      case SignedOut(i, ok) => RanksPut(t.tasks, i, Next(t, input).tasks[i]);
      case RefreshAnswered(answer) =>
      case RefreshSettled => SettledRunsOut(t);
      case Continue(i) => ContinueRunsOut(t, i);
    }
  }

  /** Nothing to do any more: every task has ended and no refresh is out. */
  lemma AtRest(t: TabState)
    requires Left(t) == 0
    ensures t.flight.Idle? && forall i :: 0 <= i < |t.tasks| ==> t.tasks[i].stage.Ended?
  {
    RanksZero(t.tasks);
  }

  /** As long as something is left to do, something other than starting a new task can be done. */
  lemma SomethingMoves(t: TabState) returns (input: Input)
    requires Fine(t) && Left(t) > 0
    ensures !Starts(input) && Next(t, input) != t
  {
    if t.flight.Outstanding? {
      input := RefreshAnswered(Refused);
    } else if t.flight.Landed? {
      input := RefreshSettled;
    } else {
      var i := SomeoneBusy(t.tasks);
      input := InputFor(t.tasks[i], i);
      assert EffortFine(t.tasks[i]) && !t.tasks[i].stage.Waiting?;
      assert Next(t, input).tasks[i].stage != t.tasks[i].stage;
    }
  }

  /** An input that a busy task waits for. */
  function InputFor(task: Task, i: nat): Input {
    if task.stage.Resuming? then Continue(i)
    else match task.kind
      case SignIn => SignedIn(i, Refused, NIL)
      case SignOut => SignedOut(i, false)
      case _ => Replied(i, Failure)
  }

  lemma {:induction false} SomeoneBusy(tasks: seq<Task>) returns (i: nat)
    requires Ranks(tasks) > 0
    ensures i < |tasks| && !tasks[i].stage.Ended?
  {
    if tasks[|tasks| - 1].stage.Ended? {
      i := SomeoneBusy(tasks[..|tasks| - 1]);
    } else {
      i := |tasks| - 1;
    }
  }

  /** From every reachable state the tab can come to rest: all tasks ended, no refresh out. */
  lemma {:induction false} ComesToRest(t: TabState) returns (inputs: seq<Input>)
    requires Fine(t)
    ensures forall k :: 0 <= k < |inputs| ==> !Starts(inputs[k])
    ensures var end := Run(t, inputs);
            end.flight.Idle? && forall i :: 0 <= i < |end.tasks| ==> end.tasks[i].stage.Ended?
    decreases Left(t)
  {
    if Left(t) == 0 {
      inputs := [];
      AtRest(t);
    } else {
      var input := SomethingMoves(t);
      FineStep(t, input);
      StepsRunOut(t, input);
      var rest := ComesToRest(Next(t, input));
      inputs := [input] + rest;
    }
  }

  lemma {:induction false} RanksZero(tasks: seq<Task>)
    requires Ranks(tasks) == 0
    ensures forall i :: 0 <= i < |tasks| ==> tasks[i].stage.Ended?
  {
    if tasks != [] {
      RanksZero(tasks[..|tasks| - 1]);
      assert forall i :: 0 <= i < |tasks| - 1 ==> tasks[i] == tasks[..|tasks| - 1][i];
    }
  }

  /** Counts the inputs of a run that did something and started nothing. */
  function Moves(t: TabState, inputs: seq<Input>): nat
    decreases |inputs|
  {
    if inputs == [] then 0
    else (if Next(t, inputs[0]) != t then 1 else 0) + Moves(Next(t, inputs[0]), inputs[1..])
  }

  /** From any reachable state, with nothing new started, at most Left(t) inputs can still have an effect. */
  lemma {:induction false} FinitelyManyMoves(t: TabState, inputs: seq<Input>)
    requires Fine(t) && forall k :: 0 <= k < |inputs| ==> !Starts(inputs[k])
    ensures Moves(t, inputs) + Left(Run(t, inputs)) <= Left(t)
    decreases |inputs|
  {
    if inputs != [] {
      FineStep(t, inputs[0]);
      if Next(t, inputs[0]) != t {
        StepsRunOut(t, inputs[0]);
      }
      FinitelyManyMoves(Next(t, inputs[0]), inputs[1..]);
    }
  }
}
