/** The tab's session is a function of what happened to it, and a retry carries what happened after its refusal. */
module TabHistory {
  import opened Domain
  import opened Tab

  /** What can happen to the session: a granted sign-in, a granted refresh that settles, a restore that learns who the
      user is, or a clearing. */
  datatype Happening = SignedInAs(token: Id, user: Id) | Refreshed(token: Id) | Restored(user: Id) | Cleared

  predicate Busy(t: TabState, i: nat, kind: Kind) {
    i < |t.tasks| && t.tasks[i].stage.Fetching? && t.tasks[i].kind == kind
  }

  /** What an input does to the session in this state. */
  function Observed(t: TabState, input: Input): seq<Happening> {
    match input
    case SignedIn(i, Granted(pair), user) => if Busy(t, i, SignIn) then [SignedInAs(pair, user)] else []
    case SignedOut(i, _) => if Busy(t, i, SignOut) then [Cleared] else []
    case RefreshSettled =>
      if t.flight.Landed? && t.flight.pair.Some? then [Refreshed(t.flight.pair.value)] else []
    case Continue(i) =>
      if i < |t.tasks| && t.tasks[i].stage.Resuming? && !t.tasks[i].stage.ok then [Cleared] else []
    case Replied(i, Ok(user)) => if Busy(t, i, Restore) then [Happening.Restored(user)] else []
    case Replied(i, Failure) => if Busy(t, i, Restore) then [Cleared] else []
    case Replied(i, Unauthorized) => if Busy(t, i, Restore) && t.tasks[i].stage.retry then [Cleared] else []
    case _ => []
  }

  function History(t: TabState, inputs: seq<Input>): seq<Happening>
    decreases |inputs|
  {
    if inputs == [] then [] else Observed(t, inputs[0]) + History(Next(t, inputs[0]), inputs[1..])
  }

  /** The token of the last granted sign-in or refresh, none after a clearing; a restore with no token stores the empty one. */
  function TokenOf(h: seq<Happening>): Option<Id> {
    if h == [] then None
    else match h[|h| - 1]
      case SignedInAs(token, _) => Some(token)
      case Refreshed(token) => Some(token)
      case Restored(_) => if TokenOf(h[..|h| - 1]).Some? then TokenOf(h[..|h| - 1]) else Some(NIL)
      case Cleared => None
  }

  /** The user of the last sign-in or restore, none after a clearing. */
  function UserOf(h: seq<Happening>): Option<Id> {
    if h == [] then None
    else match h[|h| - 1]
      case SignedInAs(_, user) => Some(user)
      case Restored(user) => Some(user)
      case Refreshed(_) => UserOf(h[..|h| - 1])
      case Cleared => None
  }

  /** Unknown as long as nothing but refreshes happened; then authenticated exactly with a user. */
  function StatusOf(h: seq<Happening>): Status {
    if UserOf(h).Some? then Authenticated
    else if forall k :: 0 <= k < |h| ==> h[k].Refreshed? then Checking
    else Anonymous
  }

  function SessionOf(h: seq<Happening>): Session {
    Session(TokenOf(h), UserOf(h), StatusOf(h))
  }

  function Happens(s: Session, e: Happening): Session {
    match e
    case SignedInAs(token, user) => Session(Some(token), Some(user), Authenticated)
    case Refreshed(token) => Session(Some(token), s.user, s.status)
    case Restored(user) => Session(if s.token.Some? then s.token else Some(NIL), Some(user), Authenticated)
    case Cleared => Session(None, None, Anonymous)
  }

  lemma SessionAppend(h: seq<Happening>, e: Happening)
    ensures SessionOf(h + [e]) == Happens(SessionOf(h), e)
  {
    var h' := h + [e];
    assert h'[..|h|] == h && h'[|h|] == e;
    assert forall k :: 0 <= k < |h| ==> h'[k] == h[k];
  }

  /** An input does to the session what was observed, and nothing else. */
  lemma SessionStep(t: TabState, input: Input)
    ensures var seen := Observed(t, input);
            && |seen| <= 1
            && Next(t, input).session == if seen == [] then t.session else Happens(t.session, seen[0])
  {
    match input {
      case SignedIn(i, answer, user) =>
      case SignedOut(i, ok) =>
      case Replied(i, reaction) =>
      case Continue(i) =>
      case _ =>
    }
  }

  lemma SessionOneMore(t: TabState, input: Input, h: seq<Happening>)
    requires t.session == SessionOf(h)
    ensures Next(t, input).session == SessionOf(h + Observed(t, input))
  {
    var seen := Observed(t, input);
    SessionStep(t, input);
    if seen == [] {
      assert h + seen == h;
    } else {
      assert seen == [seen[0]];
      SessionAppend(h, seen[0]);
    }
  }

  lemma Reassociate(h: seq<Happening>, seen: seq<Happening>, rest: seq<Happening>)
    ensures (h + seen) + rest == h + (seen + rest)
  {
  }

  lemma {:induction false} SessionAlong(t: TabState, inputs: seq<Input>, h: seq<Happening>)
    requires t.session == SessionOf(h)
    ensures Run(t, inputs).session == SessionOf(h + History(t, inputs))
    decreases |inputs|
  {
    if inputs == [] {
      assert h + [] == h;
    } else {
      var t', seen := Next(t, inputs[0]), Observed(t, inputs[0]);
      SessionOneMore(t, inputs[0], h);
      SessionAlong(t', inputs[1..], h + seen);
      Reassociate(h, seen, History(t', inputs[1..]));
    }
  }

  /** Over every run of a fresh page the whole session, token, user and status, is this function of its history. */
  lemma SessionIsHistory(t: TabState, inputs: seq<Input>)
    requires Opened(t)
    ensures Run(t, inputs).session == SessionOf(History(t, inputs))
  {
    SessionAlong(t, inputs, []);
    assert [] + History(t, inputs) == History(t, inputs);
  }

  // ----- the refresh -----

  /** The answer to the outstanding refresh decides what settling will bring. */
  lemma AnswerLands(t: TabState, answer: Answer)
    requires t.flight.Outstanding?
    ensures var t' := Next(t, RefreshAnswered(answer));
            && t'.flight == Landed(if answer.Granted? then Some(answer.pair) else None)
            && t'.cookie == (match answer case Granted(pair) => Some(pair) case Dead => None case Refused => t.cookie)
            && t'.tasks == t.tasks && t'.session == t.session
  {
  }

  /** Settling ends the flight, wakes exactly those who wait with the refresh's outcome, and stores exactly a granted
      token. */
  lemma SettlingLeaves(t: TabState)
    requires t.flight.Landed?
    ensures var t' := Next(t, RefreshSettled);
            && t'.flight == Idle && t'.cookie == t.cookie && |t'.tasks| == |t.tasks|
            && t'.session == Session(if t.flight.pair.Some? then t.flight.pair else t.session.token,
                                     t.session.user, t.session.status)
            && forall i :: 0 <= i < |t.tasks| ==>
                 t'.tasks[i] == if t.tasks[i].stage.Waiting?
                                then t.tasks[i].(stage := Resuming(t.tasks[i].stage.own, t.flight.pair.Some?))
                                else t.tasks[i]
  {
  }

  /** A first 401 makes the task wait for the shared refresh, which is then in flight: the one that was, or one sent
      with the cookie of now. */
  lemma RefusalJoins(t: TabState, i: nat)
    requires i < |t.tasks| && t.tasks[i].stage == Fetching(false) && (t.tasks[i].kind.Plain? || t.tasks[i].kind.Restore?)
    ensures var t' := Next(t, Replied(i, Unauthorized));
            && |t'.tasks| == |t.tasks| && t'.tasks[i].stage == Waiting(true) && t'.tasks[i].joins == t.tasks[i].joins + 1
            && t'.flight == (if t.flight.Idle? then Outstanding(t.cookie) else t.flight)
            && t'.session == t.session && t'.cookie == t.cookie
            && forall k :: 0 <= k < |t.tasks| && k != i ==> t'.tasks[k] == t.tasks[k]
  {
  }

  /** After a good refresh the task fetches again, as a retry if it was refused before, with the token of now; after a
      bad one it ends and the session is cleared. */
  lemma ContinuationLeaves(t: TabState, i: nat)
    requires i < |t.tasks| && t.tasks[i].stage.Resuming?
    ensures var t', task := Next(t, Continue(i)), t.tasks[i];
            && |t'.tasks| == |t.tasks| && t'.flight == t.flight && t'.cookie == t.cookie
            && (forall k :: 0 <= k < |t.tasks| && k != i ==> t'.tasks[k] == t.tasks[k])
            && (task.stage.ok ==>
                  && t'.tasks[i].stage == Fetching(task.stage.own) && t'.tasks[i].fetches == task.fetches + 1
                  && t'.tasks[i].sent == t.session.token && t'.session == t.session)
            && (!task.stage.ok ==> t'.tasks[i].stage == Ended && t'.session == Session(None, None, Anonymous))
  {
  }

  // ----- what a retry carries -----

  predicate Retries(t: TabState, i: nat) {
    i < |t.tasks| && t.tasks[i].stage == Resuming(true, true)
  }

  /** A task is let retry only by a granted refresh that settles. */
  lemma LetRetry(t: TabState, input: Input, i: nat)
    requires Fine(t) && !Retries(t, i) && Retries(Next(t, input), i)
    ensures input.RefreshSettled? && Observed(t, input) != [] && Observed(t, input)[0].Refreshed?
  {
    assert i < |t.tasks| ==> EffortFine(t.tasks[i]);
    match input {
      case Replied(j, reaction) =>
      case SignedIn(j, answer, user) =>
      case SignedOut(j, ok) =>
      case Continue(j) =>
      case _ =>
    }
  }

  lemma {:induction false} RefreshedBefore(t: TabState, wait: seq<Input>, i: nat) returns (k: nat)
    requires Fine(t) && !Retries(t, i) && Retries(Run(t, wait), i)
    ensures k < |History(t, wait)| && History(t, wait)[k].Refreshed?
    decreases |wait|
  {
    FineStep(t, wait[0]);
    if Retries(Next(t, wait[0]), i) {
      LetRetry(t, wait[0], i);
      k := 0;
    } else {
      k := RefreshedBefore(Next(t, wait[0]), wait[1..], i);
      k := k + |Observed(t, wait[0])|;
    }
  }

  /** What follows a refresh fixes the token, whatever was there before. */
  lemma {:induction false} TokenFrom(h: seq<Happening>, k: nat)
    requires k < |h| && h[k].Refreshed?
    ensures TokenOf(h) == TokenOf(h[k..])
    decreases |h|
  {
    if k < |h| - 1 {
      TokenFrom(h[..|h| - 1], k);
      assert h[..|h| - 1][k..] == h[k..][..|h[k..]| - 1];
    }
  }

  lemma RetryFrom(t: TabState, h: seq<Happening>, i: nat, wait: seq<Input>) returns (k: nat)
    requires Fine(t) && t.session == SessionOf(h) && !Retries(t, i) && Retries(Run(t, wait), i)
    ensures var since := History(t, wait);
            && k < |since| && since[k].Refreshed? && Run(t, wait).session.token == TokenOf(since[k..])
  {
    k := RefreshedBefore(t, wait, i);
    var since := History(t, wait);
    SessionAlong(t, wait, h);
    TokenFrom(h + since, |h| + k);
    assert (h + since)[|h| + k..] == since[k..];
  }

  /** From any reachable state: task i is refused with a 401, other things happen, and it is let retry. Among what
      happened since its 401 there is a granted refresh, and the retry carries the token that this refresh, or something
      after it, left in the store: never one from before the 401. */
  lemma RetryIsFresh(t0: TabState, before: seq<Input>, i: nat, wait: seq<Input>) returns (k: nat)
    requires Opened(t0)
    requires var t := Run(t0, before);
             i < |t.tasks| && t.tasks[i].stage == Fetching(false) && (t.tasks[i].kind.Plain? || t.tasks[i].kind.Restore?)
    requires Retries(Run(Next(Run(t0, before), Replied(i, Unauthorized)), wait), i)
    ensures var t := Next(Run(t0, before), Replied(i, Unauthorized));
            var since := History(t, wait);
            var retried := Next(Run(t, wait), Continue(i));
            && k < |since| && since[k].Refreshed?
            && i < |retried.tasks| && retried.tasks[i].stage == Fetching(true)
            && retried.tasks[i].sent == TokenOf(since[k..])
  {
    FineRun(t0, before);
    SessionIsHistory(t0, before);
    var t := Run(t0, before);
    RefusalJoins(t, i);
    FineStep(t, Replied(i, Unauthorized));
    var refused := Next(t, Replied(i, Unauthorized));
    k := RetryFrom(refused, History(t0, before), i, wait);
    ContinuationLeaves(Run(refused, wait), i);
  }
}
