/** The tables and the revocation list as values, and each SQL or Redis statement as a function on them. */
module Store {
  import opened Domain

  type Tokens = map<Id, RefreshToken>
  type Users = map<Id, User>

  /** `issued` is history: every pair a call created, under the number of that call.
      `next` is the next unused number; a call draws its row id, raw token, jti
      and (for a login) session id from its own number. */
  datatype State = State(
    users: Users,
    byEmail: map<string, Id>,
    tokens: Tokens,
    listed: map<Id, Time>,
    issued: map<Id, Pair>,
    next: Id)

  // ----- refresh_tokens -----

  function NewRow(user: Id, session: Id, expiresAt: Time): RefreshToken {
    RefreshToken(user, session, expiresAt, None, None, None)
  }

  /** UPDATE ... WHERE id = id AND used_at IS NULL; None when replaced_by would dangle (foreign key). */
  function MarkUsed(tokens: Tokens, id: Id, heir: Id, at: Time): Option<Tokens> {
    if id !in tokens || tokens[id].IsUsed() then Some(tokens)
    else if heir !in tokens then None
    else Some(tokens[id := tokens[id].(usedAt := Some(at), replacedBy := Some(heir))])
  }

  /** Sets revoked_at and revoked_reason of one row if they are still NULL. */
  function RevokedRow(row: RefreshToken, reason: RevokeReason, at: Time): RefreshToken {
    if row.IsRevoked() then row else row.(revoked := Some(Revocation(at, reason)))
  }

  function RevokeSession(tokens: Tokens, session: Id, reason: RevokeReason, at: Time): Tokens {
    map i | i in tokens ::
      if tokens[i].session == session then RevokedRow(tokens[i], reason, at) else tokens[i]
  }

  function RevokeAllForUser(tokens: Tokens, user: Id, reason: RevokeReason, at: Time): Tokens {
    map i | i in tokens ::
      if tokens[i].user == user then RevokedRow(tokens[i], reason, at) else tokens[i]
  }

  /** The rows that DELETE ... WHERE expires_at < before leaves. */
  predicate Survives(tokens: Tokens, id: Id, before: Time) {
    id in tokens && before <= tokens[id].expiresAt
  }

  /** DELETE of expired rows; replaced_by is ON DELETE SET NULL. */
  function DeleteExpired(tokens: Tokens, before: Time): Tokens {
    map i | i in tokens && Survives(tokens, i, before) ::
      if tokens[i].replacedBy.Some? && !Survives(tokens, tokens[i].replacedBy.value, before)
      then tokens[i].(replacedBy := None)
      else tokens[i]
  }

  // ----- super_admin_users -----

  /** failed_login_attempts + 1, locked_until = COALESCE(lockedUntil, locked_until). */
  function RegisterFailedLogin(users: Users, id: Id, lockedUntil: Option<Time>): Users {
    if id !in users then users
    else users[id := users[id].(failedAttempts := users[id].failedAttempts + 1,
                               lockedUntil := if lockedUntil.Some? then lockedUntil else users[id].lockedUntil)]
  }

  function RegisterSuccessfulLogin(users: Users, id: Id, at: Time): Users {
    if id !in users then users
    else users[id := users[id].(failedAttempts := 0, lockedUntil := None, lastLoginAt := Some(at))]
  }

  function SetRole(users: Users, id: Id, role: Role): Users {
    if id !in users then users else users[id := users[id].(role := role)]
  }

  function SetStatus(users: Users, id: Id, status: UserStatus): Users {
    if id !in users then users else users[id := users[id].(status := status)]
  }

  // ----- use-case fragments shared by the atomic and the interleaved model -----

  /** The lock a failed login asks for, decided from the row read earlier. */
  function LockFor(cfg: Config, read: User, now: Time): Option<Time> {
    if read.failedAttempts + 1 >= cfg.maxFailed then Some(now + cfg.lockout) else None
  }

  /** Signs an access token and inserts the refresh row of call n. */
  function Issue(cfg: Config, st: State, n: Id, user: Id, role: Role, session: Id, parent: Option<Id>, now: Time): State {
    st.(tokens := st.tokens[n := NewRow(user, session, now + cfg.refreshTTL)],
        issued := st.issued[n := Pair(now, parent, Claims(user, role, session, NumericDate(now + cfg.accessTTL)))])
  }

  /** SET key with a TTL at instant `at`; nothing for a TTL that is not positive. */
  function ListRevoked(listed: map<Id, Time>, jti: Id, at: Time, ttl: int): map<Id, Time> {
    if ttl <= 0 then listed else listed[jti := at + ttl]
  }

  /** EXISTS: the key is there until its deadline. */
  predicate IsListed(listed: map<Id, Time>, jti: Id, at: Time) {
    jti in listed && at < listed[jti]
  }

  /** Roles that Invite and UpdateRole hand out. */
  predicate Invitable(role: Role) { role != Owner }
}
