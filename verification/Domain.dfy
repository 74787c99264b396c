/** Entities of the super-admin panel and the checks that only look at their values. */
module Domain {

  datatype Option<+T> = None | Some(value: T)

  /** Identifiers (UUIDs) and instants (nanoseconds since some epoch). */
  type Id = nat
  type Time = int

  /** uuid.Nil: no session, no user. */
  const NIL: Id := 0

  const SECOND: int := 1_000_000_000
  const DAY: int := 86_400 * SECOND

  datatype Role = Owner | Admin | Support | Viewer

  datatype UserStatus = Active | Suspended

  datatype RevokeReason = LoggedOut | TokenReuse | LoggedOutAll | UserDisabled

  datatype Error =
    | InvalidCredentials
    | AccountLocked
    | Unauthenticated
    | SessionRevoked
    | Forbidden
    | NotFound
    | Invalid
    | Internal

  /** What a call answers: a token pair, plain success, or an error. */
  datatype Reply = Issued(pair: Id) | Done | Failed(error: Error)

  datatype User = User(
    role: Role,
    status: UserStatus,
    failedAttempts: nat,
    lockedUntil: Option<Time>,
    lastLoginAt: Option<Time>)
  {
    predicate IsLocked(now: Time) {
      lockedUntil.Some? && now < lockedUntil.value
    }

    /** None when the account may log in, otherwise the error EnsureCanLogin returns. */
    function EnsureCanLogin(now: Time): Option<Error> {
      if IsLocked(now) then Some(AccountLocked)
      else if status != Active then Some(InvalidCredentials)
      else None
    }
  }

  /** revoked_at and revoked_reason are only ever written by the same UPDATE. */
  datatype Revocation = Revocation(at: Time, reason: RevokeReason)

  datatype RefreshToken = RefreshToken(
    user: Id,
    session: Id,
    expiresAt: Time,
    usedAt: Option<Time>,
    replacedBy: Option<Id>,
    revoked: Option<Revocation>)
  {
    predicate IsExpired(now: Time) { expiresAt <= now }
    predicate IsUsed() { usedAt.Some? }
    predicate IsRevoked() { revoked.Some? }
    predicate IsUsable(now: Time) { !IsExpired(now) && !IsRevoked() && !IsUsed() }
  }

  /** What an access token carries once signed. */
  datatype Claims = Claims(user: Id, role: Role, session: Id, expiresAt: Time)

  /** A pair handed out by a call: the call's own `now`, the row it rotated from, and its access token. */
  datatype Pair = Pair(at: Time, parent: Option<Id>, claims: Claims)

  datatype Config = Config(accessTTL: int, refreshTTL: int, maxFailed: int, lockout: int)

  /** What start-up guarantees: positive TTLs from the configuration, positive limits from the defaults. */
  predicate ValidConfig(cfg: Config) {
    cfg.accessTTL > 0 && cfg.refreshTTL > 0 && cfg.maxFailed >= 1 && cfg.lockout > 0
  }

  /** Zero or negative limits fall back to 5 attempts and 15 minutes. */
  function WithDefaults(cfg: Config): (r: Config)
    ensures cfg.accessTTL > 0 && cfg.refreshTTL > 0 ==> ValidConfig(r)
    ensures ValidConfig(cfg) ==> r == cfg
    ensures cfg.maxFailed <= 0 ==> r.maxFailed == 5
    ensures cfg.lockout <= 0 ==> r.lockout == 900 * SECOND
    ensures r.accessTTL == cfg.accessTTL && r.refreshTTL == cfg.refreshTTL
  {
    cfg.(maxFailed := if cfg.maxFailed <= 0 then 5 else cfg.maxFailed,
         lockout := if cfg.lockout <= 0 then 15 * 60 * SECOND else cfg.lockout)
  }

  /** A numeric date in an access token keeps whole seconds only. */
  function NumericDate(t: Time): (d: Time)
    ensures t - SECOND < d <= t
    ensures d % SECOND == 0
  {
    t - t % SECOND
  }

  datatype PasswordCheck = Match | Mismatch | BrokenHash

  /** One request to the authentication or team use cases.
      A raw refresh token is named by the pair it was issued with; a string never issued names none. */
  datatype Request =
    | Login(email: string, check: PasswordCheck)
    | Refresh(raw: Id)
    | Logout(cookie: Option<Id>, claims: Option<Id>)
    | LogoutAll(user: Id)
    | Revoke(member: Id)
    | UpdateRole(member: Id, role: Role)
}
