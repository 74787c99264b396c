/** The same calls one statement at a time: any number of calls in flight, each with its program counter,
    every SQL or Redis statement atomic, nothing else. A call may die before any of its statements. */
module Machine {
  import opened Domain
  import opened Store
  import Atomic

  /** A program counter names the next statement and carries what the call has read so far.
      `now` is read from the clock when the call begins, except in Revoke, where it is read after the member. */
  datatype Call =
    | LoginBegun(now: Time, email: string, check: PasswordCheck)       // SELECT user by email
    | LoginWrong(now: Time, id: Id, user: User)                        // RegisterFailedLogin
    | LoginRight(now: Time, id: Id, user: User)                        // RegisterSuccessfulLogin
    | LoginCleared(now: Time, id: Id, user: User)                      // INSERT refresh token
    | RefreshBegun(now: Time, presented: Option<Id>)                   // SELECT token by hash
    | RefreshReused(now: Time, raw: Id, row: RefreshToken)             // RevokeSession, reuse
    | RefreshFresh(now: Time, raw: Id, row: RefreshToken)              // SELECT user by id
    | RefreshBarred(now: Time, raw: Id, row: RefreshToken)             // RevokeSession, user disabled
    | RefreshAllowed(now: Time, raw: Id, row: RefreshToken, user: User)// INSERT refresh token
    | RefreshCreated(now: Time, raw: Id, row: RefreshToken)            // MarkUsed
    | LogoutBegun(now: Time, cookie: Option<Id>, jti: Option<Id>)      // SELECT token by hash
    | LogoutClosing(now: Time, session: Id, jti: Option<Id>)           // RevokeSession
    | LogoutListing(now: Time, token: Id, ttl: int)                    // SET in the revocation list
    | LogoutAllBegun(now: Time, id: Id)                                // RevokeAllForUser
    | RevokeBegun(member: Id)                                          // SELECT member
    | RevokeSuspending(now: Time, member: Id)                          // UpdateStatus
    | RevokeClosing(now: Time, member: Id)                             // RevokeAllForUser
    | RoleBegun(member: Id, role: Role)                                // SELECT member
    | RoleSetting(member: Id, role: Role)                              // UpdateRole

  datatype Progress = Goes(call: Call) | Ends(reply: Reply)

  datatype Outcome = Outcome(state: State, progress: Progress)

  // ----- local code between two statements -----

  /** A raw token that names no issued pair yet is a string nobody was given: it will match no row, ever. */
  function Presented(st: State, raw: Id): Option<Id> {
    if raw in st.issued then Some(raw) else None
  }

  function AfterLogoutClosed(st: State, now: Time, jti: Option<Id>): Progress {
    var claims := Atomic.ClaimsOf(st, jti);
    if claims.Some? && claims.value.expiresAt - now > 0
    then Goes(LogoutListing(now, jti.value, claims.value.expiresAt - now))
    else Ends(Done)
  }

  function AfterLogoutRead(st: State, now: Time, session: Id, jti: Option<Id>): Progress {
    if session == NIL then AfterLogoutClosed(st, now, jti) else Goes(LogoutClosing(now, session, jti))
  }

  /** Runs up to the first statement of a new call. */
  function Start(st: State, req: Request, now: Time): Progress {
    match req
    case Login(email, check) => Goes(LoginBegun(now, email, check))
    case Refresh(raw) => Goes(RefreshBegun(now, Presented(st, raw)))
    case Logout(cookie, jti) =>
      var given := if Atomic.ClaimsOf(st, jti).Some? then jti else None;
      if cookie.Some? then Goes(LogoutBegun(now, Presented(st, cookie.value), given))
      else AfterLogoutRead(st, now, Atomic.LogoutSession(map[], None, Atomic.ClaimsOf(st, given)), given)
    case LogoutAll(user) => Goes(LogoutAllBegun(now, user))
    case Revoke(member) => Goes(RevokeBegun(member))
    case UpdateRole(member, role) => if Invitable(role) then Goes(RoleBegun(member, role)) else Ends(Failed(Invalid))
  }

  // ----- one statement of call n -----

  function ExecLogin(cfg: Config, st: State, n: Id, call: Call): Outcome
    requires call.LoginBegun? || call.LoginWrong? || call.LoginRight? || call.LoginCleared?
  {
    match call
    case LoginBegun(now, email, check) =>
      if email !in st.byEmail || st.byEmail[email] !in st.users then Outcome(st, Ends(Failed(InvalidCredentials)))
      else
        var id := st.byEmail[email];
        var user := st.users[id];
        (match check
         case BrokenHash => Outcome(st, Ends(Failed(Internal)))
         case Mismatch => Outcome(st, Goes(LoginWrong(now, id, user)))
         case Match =>
           var refusal := user.EnsureCanLogin(now);
           if refusal.Some? then Outcome(st, Ends(Failed(refusal.value)))
           else Outcome(st, Goes(LoginRight(now, id, user))))
    case LoginWrong(now, id, user) =>
      Outcome(st.(users := RegisterFailedLogin(st.users, id, LockFor(cfg, user, now))), Ends(Failed(InvalidCredentials)))
    case LoginRight(now, id, user) =>
      Outcome(st.(users := RegisterSuccessfulLogin(st.users, id, now)), Goes(LoginCleared(now, id, user)))
    case LoginCleared(now, id, user) =>
      Outcome(Issue(cfg, st, n, id, user.role, n, None, now), Ends(Issued(n)))
  }

  predicate IsRefresh(call: Call) {
    || call.RefreshBegun? || call.RefreshReused? || call.RefreshFresh?
    || call.RefreshBarred? || call.RefreshAllowed? || call.RefreshCreated?
  }

  function ExecRefresh(cfg: Config, st: State, n: Id, call: Call): Outcome
    requires IsRefresh(call)
  {
    match call
    case RefreshBegun(now, raw) =>
      if raw.None? || raw.value !in st.tokens then Outcome(st, Ends(Failed(Unauthenticated)))
      else
        var row := st.tokens[raw.value];
        if row.IsUsed() || row.IsRevoked() then Outcome(st, Goes(RefreshReused(now, raw.value, row)))
        else if row.IsExpired(now) then Outcome(st, Ends(Failed(Unauthenticated)))
        else Outcome(st, Goes(RefreshFresh(now, raw.value, row)))
    case RefreshReused(now, raw, row) =>
      Outcome(st.(tokens := RevokeSession(st.tokens, row.session, TokenReuse, now)), Ends(Failed(SessionRevoked)))
    case RefreshFresh(now, raw, row) =>
      if row.user !in st.users then Outcome(st, Ends(Failed(Unauthenticated)))
      else
        var user := st.users[row.user];
        if user.EnsureCanLogin(now).Some? then Outcome(st, Goes(RefreshBarred(now, raw, row)))
        else Outcome(st, Goes(RefreshAllowed(now, raw, row, user)))
    case RefreshBarred(now, raw, row) =>
      Outcome(st.(tokens := RevokeSession(st.tokens, row.session, UserDisabled, now)), Ends(Failed(Unauthenticated)))
    case RefreshAllowed(now, raw, row, user) =>
      Outcome(Issue(cfg, st, n, row.user, user.role, row.session, Some(raw), now), Goes(RefreshCreated(now, raw, row)))
    case RefreshCreated(now, raw, row) =>
      var marked := MarkUsed(st.tokens, raw, n, now);
      if marked.None? then Outcome(st, Ends(Failed(Internal)))
      else Outcome(st.(tokens := marked.value), Ends(Issued(n)))
  }

  predicate IsLogout(call: Call) {
    call.LogoutBegun? || call.LogoutClosing? || call.LogoutListing? || call.LogoutAllBegun?
  }

  function ExecLogout(st: State, clock: Time, call: Call): Outcome
    requires IsLogout(call)
  {
    match call
    case LogoutBegun(now, cookie, jti) =>
      Outcome(st, AfterLogoutRead(st, now, Atomic.LogoutSession(st.tokens, cookie, Atomic.ClaimsOf(st, jti)), jti))
    case LogoutClosing(now, session, jti) =>
      Outcome(st.(tokens := RevokeSession(st.tokens, session, LoggedOut, now)), AfterLogoutClosed(st, now, jti))
    case LogoutListing(now, jti, ttl) =>
      Outcome(st.(listed := ListRevoked(st.listed, jti, clock, ttl)), Ends(Done))
    case LogoutAllBegun(now, id) =>
      Outcome(st.(tokens := RevokeAllForUser(st.tokens, id, LoggedOutAll, now)), Ends(Done))
  }

  predicate IsTeam(call: Call) {
    call.RevokeBegun? || call.RevokeSuspending? || call.RevokeClosing? || call.RoleBegun? || call.RoleSetting?
  }

  function ExecTeam(st: State, clock: Time, call: Call): Outcome
    requires IsTeam(call)
  {
    match call
    case RevokeBegun(member) =>
      if member !in st.users then Outcome(st, Ends(Failed(NotFound)))
      else if st.users[member].role == Owner then Outcome(st, Ends(Failed(Forbidden)))
      else Outcome(st, Goes(RevokeSuspending(clock, member)))
    case RevokeSuspending(now, member) =>
      if member !in st.users then Outcome(st, Ends(Failed(NotFound)))
      else Outcome(st.(users := SetStatus(st.users, member, Suspended)), Goes(RevokeClosing(now, member)))
    case RevokeClosing(now, member) =>
      Outcome(st.(tokens := RevokeAllForUser(st.tokens, member, UserDisabled, now)), Ends(Done))
    case RoleBegun(member, role) =>
      if member !in st.users then Outcome(st, Ends(Failed(NotFound)))
      else if st.users[member].role == Owner then Outcome(st, Ends(Failed(Forbidden)))
      else Outcome(st, Goes(RoleSetting(member, role)))
    case RoleSetting(member, role) =>
      if member !in st.users then Outcome(st, Ends(Failed(NotFound)))
      else Outcome(st.(users := SetRole(st.users, member, role)), Ends(Done))
  }

  function Exec(cfg: Config, st: State, clock: Time, n: Id, call: Call): Outcome {
    if IsRefresh(call) then ExecRefresh(cfg, st, n, call)
    else if IsLogout(call) then ExecLogout(st, clock, call)
    else if IsTeam(call) then ExecTeam(st, clock, call)
    else ExecLogin(cfg, st, n, call)
  }

  // ----- the machine -----

  datatype Sys = Sys(st: State, calls: map<Id, Call>, clock: Time)

  datatype Action =
    | Tick(passed: nat)
    | Begin(req: Request)
    | Advance(n: Id)
    | Abort(n: Id)
    | Purge(before: Time)

  function Proceed(calls: map<Id, Call>, n: Id, p: Progress): map<Id, Call> {
    match p
    case Goes(call) => calls[n := call]
    case Ends(_) => calls - {n}
  }

  /** One action; an action on a call that is not in flight changes nothing. */
  function Next(cfg: Config, s: Sys, a: Action): Sys {
    match a
    case Tick(passed) => s.(clock := s.clock + passed)
    case Begin(req) =>
      s.(st := Atomic.Begin(s.st), calls := Proceed(s.calls, s.st.next, Start(s.st, req, s.clock)))
    case Advance(n) =>
      if n !in s.calls then s
      else
        var o := Exec(cfg, s.st, s.clock, n, s.calls[n]);
        Sys(o.state, Proceed(s.calls, n, o.progress), s.clock)
    case Abort(n) => s.(calls := s.calls - {n})
    case Purge(before) => s.(st := s.st.(tokens := DeleteExpired(s.st.tokens, before)))
  }

  function Run(cfg: Config, s: Sys, acts: seq<Action>): Sys
    decreases |acts|
  {
    if acts == [] then s else Run(cfg, Next(cfg, s, acts[0]), acts[1..])
  }

  lemma {:induction false} RunSplit(cfg: Config, s: Sys, a: seq<Action>, b: seq<Action>)
    ensures Run(cfg, s, a + b) == Run(cfg, Run(cfg, s, a), b)
    decreases |a|
  {
    if a == [] {
      assert a + b == b;
    } else {
      assert (a + b)[1..] == a[1..] + b;
      RunSplit(cfg, Next(cfg, s, a[0]), a[1..], b);
    }
  }

  predicate Initial(s: Sys) {
    Atomic.Initial(s.st) && s.calls == map[]
  }
}
