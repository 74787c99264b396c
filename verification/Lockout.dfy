/** Whole calls: the stored counter and lock are a function of the login history, and they gate every pair. */
module Lockout {
  import opened Domain
  import opened Store
  import opened Atomic

  /** What the password check of one account saw: a wrong password, or a login that went through. */
  datatype Attempt = Wrong(at: Time) | Right(at: Time)

  predicate IsFor(st: State, e: Event, user: Id) {
    e.Called? && e.req.Login? && e.req.email in st.byEmail && st.byEmail[e.req.email] == user && user in st.users
  }

  function Observed(cfg: Config, st: State, e: Event, user: Id): seq<Attempt> {
    if !IsFor(st, e, user) then []
    else if e.req.check == Mismatch then [Wrong(e.now)]
    else if Serve(cfg, st, e.req, e.now).reply.Issued? then [Right(e.now)]
    else []
  }

  function History(cfg: Config, st: State, events: seq<Event>, user: Id): seq<Attempt>
    decreases |events|
  {
    if events == [] then []
    else Observed(cfg, st, events[0], user) + History(cfg, Apply(cfg, st, events[0]), events[1..], user)
  }

  /** Wrong passwords since the last login that went through. */
  function WrongSince(h: seq<Attempt>): nat {
    if h == [] || h[|h| - 1].Right? then 0 else 1 + WrongSince(h[..|h| - 1])
  }

  /** The account is shut out from the latest wrong password on, once there are enough of them. */
  function LockOf(cfg: Config, h: seq<Attempt>): Option<Time> {
    if h != [] && WrongSince(h) >= cfg.maxFailed then Some(h[|h| - 1].at + cfg.lockout) else None
  }

  predicate ShutOut(cfg: Config, h: seq<Attempt>, now: Time) {
    LockOf(cfg, h).Some? && now < LockOf(cfg, h).value
  }

  predicate Tracks(cfg: Config, user: User, h: seq<Attempt>) {
    user.failedAttempts == WrongSince(h) && user.lockedUntil == LockOf(cfg, h)
  }

  lemma WrongSinceAppend(h: seq<Attempt>, a: Attempt)
    ensures WrongSince(h + [a]) == if a.Right? then 0 else 1 + WrongSince(h)
  {
    assert (h + [a])[..|h|] == h;
  }

  /** An event that is no login of the account leaves its counter and lock alone. */
  lemma OthersLeaveCounter(cfg: Config, st: State, e: Event, user: Id)
    requires user in st.users && !IsFor(st, e, user)
    ensures var users := Apply(cfg, st, e).users;
            && user in users
            && users[user].failedAttempts == st.users[user].failedAttempts
            && users[user].lockedUntil == st.users[user].lockedUntil
  {
    match e {
      case Called(Login(email, check), now) =>
      case Called(Refresh(raw), now) =>
      case Called(Logout(cookie, jti), now) =>
      case Called(LogoutAll(id), now) =>
      case Called(Revoke(member), now) =>
      case Called(UpdateRole(member, role), now) =>
      case Purged(before, now) =>
    }
  }

  /** What an attempt does to the account's row, if one was observed. */
  predicate Did(cfg: Config, row: User, row': User, seen: seq<Attempt>) {
    || (seen == [] && row' == row)
    || (|seen| == 1 && seen[0].Wrong? &&
        row' == row.(failedAttempts := row.failedAttempts + 1,
                     lockedUntil := if row.failedAttempts + 1 >= cfg.maxFailed
                                    then Some(seen[0].at + cfg.lockout) else row.lockedUntil))
    || (|seen| == 1 && seen[0].Right? && row'.failedAttempts == 0 && row'.lockedUntil == None)
  }

  lemma LoginCounter(cfg: Config, st: State, e: Event, user: Id)
    requires user in st.users && IsFor(st, e, user)
    ensures user in Apply(cfg, st, e).users
    ensures Did(cfg, st.users[user], Apply(cfg, st, e).users[user], Observed(cfg, st, e, user))
  {
  }

  lemma TracksDid(cfg: Config, row: User, row': User, h: seq<Attempt>, seen: seq<Attempt>)
    requires ValidConfig(cfg) && Tracks(cfg, row, h) && Did(cfg, row, row', seen)
    ensures Tracks(cfg, row', h + seen)
  {
    if seen == [] {
      assert h + seen == h;
    } else {
      assert seen == [seen[0]];
      WrongSinceAppend(h, seen[0]);
    }
  }

  lemma TracksStep(cfg: Config, st: State, e: Event, user: Id, h: seq<Attempt>)
    requires ValidConfig(cfg) && user in st.users && Tracks(cfg, st.users[user], h)
    ensures user in Apply(cfg, st, e).users
    ensures Tracks(cfg, Apply(cfg, st, e).users[user], h + Observed(cfg, st, e, user))
  {
    if IsFor(st, e, user) {
      LoginCounter(cfg, st, e, user);
      TracksDid(cfg, st.users[user], Apply(cfg, st, e).users[user], h, Observed(cfg, st, e, user));
    } else {
      OthersLeaveCounter(cfg, st, e, user);
      assert h + [] == h;
    }
  }

  lemma {:induction false} TracksRun(cfg: Config, st: State, events: seq<Event>, user: Id, h: seq<Attempt>)
    requires ValidConfig(cfg) && user in st.users && Tracks(cfg, st.users[user], h)
    ensures user in Run(cfg, st, events).users
    ensures Tracks(cfg, Run(cfg, st, events).users[user], h + History(cfg, st, events, user))
    decreases |events|
  {
    if events == [] {
      assert h + [] == h;
    } else {
      TracksStep(cfg, st, events[0], user, h);
      var seen := Observed(cfg, st, events[0], user);
      var st' := Apply(cfg, st, events[0]);
      TracksRun(cfg, st', events[1..], user, h + seen);
      assert h + History(cfg, st, events, user) == (h + seen) + History(cfg, st', events[1..], user);
    }
  }

  /** In every reachable state the counter is the number of wrong passwords since the last success, and the
      lock is the latest wrong password plus the lockout once that number reaches the maximum. */
  lemma CounterIsHistory(cfg: Config, init: State, events: seq<Event>, user: Id)
    requires ValidConfig(cfg) && Initial(init) && user in init.users
    ensures user in Run(cfg, init, events).users
    ensures var h := History(cfg, init, events, user);
            var row := Run(cfg, init, events).users[user];
            && row.failedAttempts == WrongSince(h)
            && row.lockedUntil == LockOf(cfg, h)
  {
    TracksRun(cfg, init, events, user, []);
    assert [] + History(cfg, init, events, user) == History(cfg, init, events, user);
  }

  /** A login with the right password goes through exactly when the history does not shut the account out
      and the account is active; shut out, it answers "locked". */
  lemma RightPasswordGate(cfg: Config, init: State, events: seq<Event>, user: Id, email: string, now: Time)
    requires ValidConfig(cfg) && Initial(init) && user in init.users
    requires var st := Run(cfg, init, events);
             email in st.byEmail && st.byEmail[email] == user
    ensures user in Run(cfg, init, events).users
    ensures var st := Run(cfg, init, events);
            var h := History(cfg, init, events, user);
            var reply := Serve(cfg, st, Login(email, Match), now).reply;
            && (reply.Issued? <==> !ShutOut(cfg, h, now) && st.users[user].status == Active)
            && (reply == Failed(AccountLocked) <==> ShutOut(cfg, h, now))
  {
    CounterIsHistory(cfg, init, events, user);
  }

  /** No call of any kind issues a pair to an account that its history shuts out. */
  lemma NoPairWhileShutOut(cfg: Config, init: State, events: seq<Event>, user: Id, req: Request, now: Time)
    requires ValidConfig(cfg) && Initial(init) && user in init.users
    requires ShutOut(cfg, History(cfg, init, events, user), now)
    ensures var st := Run(cfg, init, events);
            var r := Serve(cfg, st, req, now);
            r.reply.Issued? ==> r.reply.pair in r.state.issued && r.state.issued[r.reply.pair].claims.user != user
  {
    CounterIsHistory(cfg, init, events, user);
  }
}
