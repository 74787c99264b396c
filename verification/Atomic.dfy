/** The use cases as whole calls: each runs all its statements with no other call in between. */
module Atomic {
  import opened Domain
  import opened Store

  datatype Result = Result(state: State, reply: Reply)

  /** A call takes the next number; everything it creates is named by that number. */
  function Begin(st: State): State {
    st.(next := st.next + 1)
  }

  function LoginCall(cfg: Config, st: State, email: string, check: PasswordCheck, now: Time): Result {
    var n, s := st.next, Begin(st);
    if email !in s.byEmail || s.byEmail[email] !in s.users then Result(s, Failed(InvalidCredentials))
    else
      var id := s.byEmail[email];
      var user := s.users[id];
      match check
      case BrokenHash => Result(s, Failed(Internal))
      case Mismatch =>
        Result(s.(users := RegisterFailedLogin(s.users, id, LockFor(cfg, user, now))), Failed(InvalidCredentials))
      case Match =>
        var refusal := user.EnsureCanLogin(now);
        if refusal.Some? then Result(s, Failed(refusal.value))
        else
          var cleared := s.(users := RegisterSuccessfulLogin(s.users, id, now));
          Result(Issue(cfg, cleared, n, id, user.role, n, None, now), Issued(n))
  }

  function RefreshCall(cfg: Config, st: State, raw: Id, now: Time): Result {
    var n, s := st.next, Begin(st);
    if raw !in st.tokens then Result(s, Failed(Unauthenticated))
    else
      var row := st.tokens[raw];
      if row.IsUsed() || row.IsRevoked() then
        Result(s.(tokens := RevokeSession(s.tokens, row.session, TokenReuse, now)), Failed(SessionRevoked))
      else if row.IsExpired(now) then Result(s, Failed(Unauthenticated))
      else if row.user !in s.users then Result(s, Failed(Unauthenticated))
      else
        var user := s.users[row.user];
        if user.EnsureCanLogin(now).Some? then
          Result(s.(tokens := RevokeSession(s.tokens, row.session, UserDisabled, now)), Failed(Unauthenticated))
        else
          var created := Issue(cfg, s, n, row.user, user.role, row.session, Some(raw), now);
          var marked := MarkUsed(created.tokens, raw, n, now);
          if marked.None? then Result(created, Failed(Internal))
          else Result(created.(tokens := marked.value), Issued(n))
  }

  /** The session a logout closes: the cookie's row wins over the claims. */
  function LogoutSession(tokens: Tokens, cookie: Option<Id>, claims: Option<Claims>): Id {
    if cookie.Some? && cookie.value in tokens then tokens[cookie.value].session
    else if claims.Some? then claims.value.session
    else NIL
  }

  /** Claims are named by their jti; a jti that was never signed stands for nil claims. */
  function ClaimsOf(st: State, jti: Option<Id>): Option<Claims> {
    if jti.Some? && jti.value in st.issued then Some(st.issued[jti.value].claims) else None
  }

  function LogoutCall(cfg: Config, st: State, cookie: Option<Id>, jti: Option<Id>, now: Time): Result {
    var s := Begin(st);
    var claims := ClaimsOf(st, jti);
    var session := LogoutSession(s.tokens, cookie, claims);
    var closed := if session == NIL then s else s.(tokens := RevokeSession(s.tokens, session, LoggedOut, now));
    if claims.None? then Result(closed, Done)
    else Result(closed.(listed := ListRevoked(closed.listed, jti.value, now, claims.value.expiresAt - now)), Done)
  }

  function LogoutAllCall(cfg: Config, st: State, user: Id, now: Time): Result {
    var s := Begin(st);
    Result(s.(tokens := RevokeAllForUser(s.tokens, user, LoggedOutAll, now)), Done)
  }

  function RevokeCall(cfg: Config, st: State, member: Id, now: Time): Result {
    var s := Begin(st);
    if member !in s.users then Result(s, Failed(NotFound))
    else if s.users[member].role == Owner then Result(s, Failed(Forbidden))
    else
      Result(s.(users := SetStatus(s.users, member, Suspended),
                tokens := RevokeAllForUser(s.tokens, member, UserDisabled, now)), Done)
  }

  function UpdateRoleCall(cfg: Config, st: State, member: Id, role: Role, now: Time): Result {
    var s := Begin(st);
    if !Invitable(role) then Result(s, Failed(Invalid))
    else if member !in s.users then Result(s, Failed(NotFound))
    else if s.users[member].role == Owner then Result(s, Failed(Forbidden))
    else Result(s.(users := SetRole(s.users, member, role)), Done)
  }

  function Serve(cfg: Config, st: State, req: Request, now: Time): Result {
    match req
    case Login(email, check) => LoginCall(cfg, st, email, check, now)
    case Refresh(raw) => RefreshCall(cfg, st, raw, now)
    case Logout(cookie, jti) => LogoutCall(cfg, st, cookie, jti, now)
    case LogoutAll(user) => LogoutAllCall(cfg, st, user, now)
    case Revoke(member) => RevokeCall(cfg, st, member, now)
    case UpdateRole(member, role) => UpdateRoleCall(cfg, st, member, role, now)
  }

  // ----- runs of whole calls -----

  /** A call at an instant, or a clean-up of rows that expired before `before`. */
  datatype Event = Called(req: Request, now: Time) | Purged(before: Time, now: Time)

  function Apply(cfg: Config, st: State, e: Event): State {
    match e
    case Called(req, now) => Serve(cfg, st, req, now).state
    case Purged(before, _) => st.(tokens := DeleteExpired(st.tokens, before))
  }

  function Run(cfg: Config, st: State, events: seq<Event>): State
    decreases |events|
  {
    if events == [] then st else Run(cfg, Apply(cfg, st, events[0]), events[1..])
  }

  /** The shared clock never goes back. */
  predicate InOrder(events: seq<Event>, clock: Time)
    decreases |events|
  {
    events == [] || (clock <= events[0].now && InOrder(events[1..], events[0].now))
  }

  function ClockAfter(events: seq<Event>, clock: Time): Time {
    if events == [] then clock else events[|events| - 1].now
  }

  /** Before the first call: users with clean counters, no tokens. */
  predicate Initial(st: State) {
    && st.tokens == map[] && st.listed == map[] && st.issued == map[] && st.next > NIL
    && forall u | u in st.users :: st.users[u].failedAttempts == 0 && st.users[u].lockedUntil == None
  }
}
