/** The script of one tab as an object: the session store's module variable, the shared refresh promise, the cookie
    jar and the pending tasks. Every stretch between two awaits is a method, proved to be one step of module Tab. */
module Page {
  import opened Domain
  import Tab

  class SessionStore {
    var state: Tab.Session

    constructor ()
      ensures state == Tab.FIRST
    {
      state := Tab.Session(None, None, Tab.Checking);
    }

    method Set(token: Id, user: Id)
      modifies this
      ensures state == Tab.SetSession(token, user)
    {
      state := Tab.Session(Some(token), Some(user), Tab.Authenticated);
    }

    method Clear()
      modifies this
      ensures state == Tab.ClearSession()
    {
      state := Tab.Session(None, None, Tab.Anonymous);
    }

    method UpdateAccessToken(token: Id)
      modifies this
      ensures state == Tab.UpdateAccessToken(old(state), token)
    {
      state := state.(token := Some(token));
    }
  }

  class Script {
    const store: SessionStore
    var cookie: Option<Id>
    var flight: Tab.Flight
    var tasks: seq<Tab.Task>

    constructor (cookie: Option<Id>)
      ensures fresh(store) && View() == Tab.TabState(cookie, Tab.Idle, [], Tab.FIRST) && Tab.Opened(View())
    {
      store := new SessionStore();
      this.cookie, flight, tasks := cookie, Tab.Idle, [];
    }

    ghost function View(): Tab.TabState
      reads this, store
    {
      Tab.TabState(cookie, flight, tasks, store.state)
    }

    /** Sends a refresh only when none is in flight; whoever calls will wait for that one. */
    method RefreshAccessToken()
      modifies this`flight
      ensures flight == if old(flight).Idle? then Tab.Outstanding(cookie) else old(flight)
    {
      if flight.Idle? {
        flight := Tab.Outstanding(cookie);
      }
    }

    method StartRequest()
      modifies this
      ensures View() == Tab.Next(old(View()), Tab.StartPlain)
    {
      tasks := tasks + [Tab.Task(Tab.Plain, Tab.Fetching(false), 1, 0, store.state.token)];
    }

    method StartRestore()
      modifies this
      ensures View() == Tab.Next(old(View()), Tab.StartRestore)
    {
      tasks := tasks + [Tab.Task(Tab.Restore, Tab.Waiting(false), 0, 1, None)];
      RefreshAccessToken();
    }

    method StartSignIn()
      modifies this
      ensures View() == Tab.Next(old(View()), Tab.StartSignIn)
    {
      tasks := tasks + [Tab.Task(Tab.SignIn, Tab.Fetching(false), 1, 0, store.state.token)];
    }

    method StartSignOut()
      modifies this
      ensures View() == Tab.Next(old(View()), Tab.StartSignOut)
    {
      tasks := tasks + [Tab.Task(Tab.SignOut, Tab.Fetching(false), 1, 0, store.state.token)];
    }

    /** A sign-in that was granted brings its cookie and fills the store; any other answer leaves both alone. */
    method SignedIn(i: nat, answer: Tab.Answer, user: Id)
      requires i < |tasks| && tasks[i].stage.Fetching? && tasks[i].kind.SignIn?
      modifies this, store
      ensures View() == Tab.Next(old(View()), Tab.SignedIn(i, answer, user))
    {
      tasks := tasks[i := tasks[i].(stage := Tab.Ended)];
      if answer.Granted? {
        cookie := Some(answer.pair);
        store.Set(answer.pair, user);
      }
    }

    /** A sign-out clears the store whatever the answer; only a delivered answer clears the cookie. */
    method SignedOut(i: nat, ok: bool)
      requires i < |tasks| && tasks[i].stage.Fetching? && tasks[i].kind.SignOut?
      modifies this, store
      ensures View() == Tab.Next(old(View()), Tab.SignedOut(i, ok))
    {
      tasks := tasks[i := tasks[i].(stage := Tab.Ended)];
      if ok {
        cookie := None;
      }
      store.Clear();
    }

    /** The headers of the refresh answer: the browser swaps, drops or keeps the cookie. */
    method RefreshAnswered(answer: Tab.Answer)
      requires flight.Outstanding?
      modifies this
      ensures View() == Tab.Next(old(View()), Tab.RefreshAnswered(answer))
    {
      match answer {
        case Granted(pair) => cookie, flight := Some(pair), Tab.Landed(Some(pair));
        case Dead => cookie, flight := None, Tab.Landed(None);
        case Refused => flight := Tab.Landed(None);
      }
    }

    /** The answer to a request's own fetch: a first 401 joins the shared refresh, anything else ends it. */
    method Replied(i: nat, reaction: Tab.Reaction)
      requires i < |tasks| && tasks[i].stage.Fetching? && (tasks[i].kind.Plain? || tasks[i].kind.Restore?)
      modifies this, store
      ensures View() == Tab.Next(old(View()), Tab.Replied(i, reaction))
    {
      var task := tasks[i];
      if reaction.Unauthorized? && !task.stage.retry {
        tasks := tasks[i := task.(stage := Tab.Waiting(true), joins := task.joins + 1)];
        RefreshAccessToken();
        return;
      }
      tasks := tasks[i := task.(stage := Tab.Ended)];
      if task.kind.Restore? {
        if reaction.Ok? {
          store.Set(if store.state.token.Some? then store.state.token.value else NIL, reaction.user);
        } else {
          store.Clear();
        }
      }
    }

    /** The body of the refresh answer has been read: store the token, clear the promise, wake all who wait. */
    method RefreshSettled()
      requires flight.Landed?
      modifies this, store
      ensures View() == Tab.Next(old(View()), Tab.RefreshSettled)
    {
      var pair := flight.pair;
      if pair.Some? {
        store.UpdateAccessToken(pair.value);
      }
      flight := Tab.Idle;
      var woken: seq<Tab.Task> := [];
      for i := 0 to |tasks|
        invariant |woken| == i
        invariant forall k :: 0 <= k < i ==> woken[k] == Tab.Settled(tasks[k], pair.Some?)
      {
        var task := tasks[i];
        if task.stage.Waiting? {
          task := task.(stage := Tab.Resuming(task.stage.own, pair.Some?));
        }
        woken := woken + [task];
      }
      tasks := woken;
    }

    /** A continuation after the shared refresh: retry once, or give the session up. */
    method Continue(i: nat)
      requires i < |tasks| && tasks[i].stage.Resuming?
      modifies this, store
      ensures View() == Tab.Next(old(View()), Tab.Continue(i))
    {
      var task := tasks[i];
      if task.stage.ok {
        tasks := tasks[i := task.(stage := Tab.Fetching(task.stage.own), fetches := task.fetches + 1, sent := store.state.token)];
      } else {
        tasks := tasks[i := task.(stage := Tab.Ended)];
        store.Clear();
      }
    }
  }
}
