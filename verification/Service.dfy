/** The repositories and use cases as objects that update their tables in place. Each use case runs its statements
    in the source's order and is proved to be the whole call of module Atomic. */
module Service {
  import opened Domain
  import opened Store
  import Atomic
  import Gate

  lemma SizesAddUp(tokens: Tokens, left: Tokens, gone: set<Id>)
    requires gone <= tokens.Keys && left == tokens - gone
    ensures |gone| + |left.Keys| == |tokens.Keys|
  {
    assert tokens.Keys == left.Keys + gone;
  }

  /** Postgres: the two tables. */
  class Database {
    var users: Users
    var byEmail: map<string, Id>
    var tokens: Tokens

    constructor (users: Users, byEmail: map<string, Id>)
      ensures this.users == users && this.byEmail == byEmail && tokens == map[]
    {
      this.users, this.byEmail, this.tokens := users, byEmail, map[];
    }

    method GetByHash(raw: Id) returns (row: Option<RefreshToken>)
      ensures row == if raw in tokens then Some(tokens[raw]) else None
    {
      row := if raw in tokens then Some(tokens[raw]) else None;
    }

    /** False when the key is taken; then nothing is written. */
    method CreateToken(id: Id, row: RefreshToken) returns (ok: bool)
      modifies this`tokens
      ensures ok <==> id !in old(tokens)
      ensures tokens == if ok then old(tokens)[id := row] else old(tokens)
      ensures |tokens| == |old(tokens)| + (if ok then 1 else 0)
    {
      ok := id !in tokens;
      if ok {
        tokens := tokens[id := row];
      }
    }

    /** False when the foreign key fails; then nothing is written. */
    method MarkUsed(id: Id, heir: Id, at: Time) returns (ok: bool)
      modifies this`tokens
      ensures ok == Store.MarkUsed(old(tokens), id, heir, at).Some?
      ensures tokens == if ok then Store.MarkUsed(old(tokens), id, heir, at).value else old(tokens)
    {
      ok := true;
      if id in tokens && tokens[id].usedAt.None? {
        if heir in tokens {
          tokens := tokens[id := tokens[id].(usedAt := Some(at), replacedBy := Some(heir))];
        } else {
          ok := false;
        }
      }
    }

    method RevokeSession(session: Id, reason: RevokeReason, at: Time)
      modifies this`tokens
      ensures tokens == Store.RevokeSession(old(tokens), session, reason, at)
    {
      tokens := map i | i in tokens ::
        if tokens[i].session == session && tokens[i].revoked.None?
        then tokens[i].(revoked := Some(Revocation(at, reason))) else tokens[i];
    }

    method RevokeAllForUser(user: Id, reason: RevokeReason, at: Time)
      modifies this`tokens
      ensures tokens == Store.RevokeAllForUser(old(tokens), user, reason, at)
    {
      tokens := map i | i in tokens ::
        if tokens[i].user == user && tokens[i].revoked.None?
        then tokens[i].(revoked := Some(Revocation(at, reason))) else tokens[i];
    }

    /** Deletes the expired rows, then sets links to them to NULL; answers how many rows went. */
    method DeleteExpired(before: Time) returns (n: nat)
      modifies this`tokens
      ensures tokens == Store.DeleteExpired(old(tokens), before)
      ensures n + |tokens| == |old(tokens)|
      ensures forall i :: i in tokens <==> i in old(tokens) && before <= old(tokens)[i].expiresAt
    {
      var gone := set i | i in tokens && tokens[i].expiresAt < before;
      var left := tokens - gone;
      n := |gone|;
      SizesAddUp(tokens, left, gone);
      tokens := map i | i in left ::
        if left[i].replacedBy.Some? && left[i].replacedBy.value !in left then left[i].(replacedBy := None) else left[i];
      assert tokens.Keys == left.Keys;
    }

    method RegisterFailedLogin(id: Id, lockedUntil: Option<Time>)
      modifies this`users
      ensures users == Store.RegisterFailedLogin(old(users), id, lockedUntil)
    {
      if id in users {
        var row := users[id].(failedAttempts := users[id].failedAttempts + 1);
        if lockedUntil.Some? {
          row := row.(lockedUntil := lockedUntil);
        }
        users := users[id := row];
      }
    }

    method RegisterSuccessfulLogin(id: Id, at: Time)
      modifies this`users
      ensures users == Store.RegisterSuccessfulLogin(old(users), id, at)
    {
      if id in users {
        users := users[id := users[id].(failedAttempts := 0, lockedUntil := None, lastLoginAt := Some(at))];
      }
    }

    /** False when there is no such user. */
    method UpdateRole(id: Id, role: Role) returns (found: bool)
      modifies this`users
      ensures found <==> id in old(users)
      ensures users == SetRole(old(users), id, role)
    {
      found := id in users;
      if found {
        users := users[id := users[id].(role := role)];
      }
    }

    /** False when there is no such user. */
    method UpdateStatus(id: Id, status: UserStatus) returns (found: bool)
      modifies this`users
      ensures found <==> id in old(users)
      ensures users == SetStatus(old(users), id, status)
    {
      found := id in users;
      if found {
        users := users[id := users[id].(status := status)];
      }
    }
  }

  /** Redis: keys with deadlines. */
  class Revoker {
    var listed: map<Id, Time>

    constructor ()
      ensures listed == map[]
    {
      listed := map[];
    }

    method Revoke(jti: Id, at: Time, ttl: int)
      modifies this
      ensures listed == ListRevoked(old(listed), jti, at, ttl)
    {
      if ttl <= 0 {
        return;
      }
      listed := listed[jti := at + ttl];
    }

    method IsRevoked(jti: Id, at: Time) returns (revoked: bool)
      ensures revoked == IsListed(listed, jti, at)
    {
      revoked := jti in listed && at < listed[jti];
    }
  }

  /** The source of fresh identifiers and signatures, with the history of what was issued. */
  class Issuer {
    var next: Id
    var issued: map<Id, Pair>

    constructor ()
      ensures next == NIL + 1 && issued == map[]
    {
      next, issued := NIL + 1, map[];
    }

    method Draw() returns (n: Id)
      modifies this`next
      ensures n == old(next) && next == n + 1
    {
      n := next;
      next := next + 1;
    }

    method Sign(n: Id, pair: Pair)
      modifies this`issued
      ensures issued == old(issued)[n := pair]
    {
      issued := issued[n := pair];
    }
  }

  ghost function View(db: Database, revoker: Revoker, issuer: Issuer): State
    reads db, revoker, issuer
  {
    State(db.users, db.byEmail, db.tokens, revoker.listed, issuer.issued, issuer.next)
  }

  class Auth {
    const db: Database
    const revoker: Revoker
    const issuer: Issuer
    const cfg: Config

    constructor (db: Database, revoker: Revoker, issuer: Issuer, cfg: Config)
      requires cfg.accessTTL > 0 && cfg.refreshTTL > 0
      ensures this.db == db && this.revoker == revoker && this.issuer == issuer
      ensures this.cfg == WithDefaults(cfg) && ValidConfig(this.cfg)
    {
      this.db, this.revoker, this.issuer, this.cfg := db, revoker, issuer, WithDefaults(cfg);
    }

    /** Identifiers are drawn fresh. */
    ghost predicate Valid()
      reads this, db, issuer
    {
      forall i :: i in db.tokens ==> i < issuer.next
    }

    /** Signs the access token, then inserts the refresh row; false when the row's key is taken. */
    method IssuePair(n: Id, user: Id, role: Role, session: Id, parent: Option<Id>, now: Time) returns (ok: bool)
      modifies db`tokens, issuer`issued
      ensures ok <==> n !in old(db.tokens)
      ensures ok ==>
                View(db, revoker, issuer) == Issue(cfg, old(View(db, revoker, issuer)), n, user, role, session, parent, now)
      ensures !ok ==> db.tokens == old(db.tokens)
    {
      var accessExp := now + cfg.accessTTL;
      issuer.Sign(n, Pair(now, parent, Claims(user, role, session, NumericDate(accessExp))));
      var refreshExp := now + cfg.refreshTTL;
      ok := db.CreateToken(n, NewRow(user, session, refreshExp));
    }

    method RegisterFailure(id: Id, user: User, now: Time)
      modifies db`users
      ensures db.users == Store.RegisterFailedLogin(old(db.users), id, LockFor(cfg, user, now))
    {
      var lockedUntil: Option<Time> := None;
      if user.failedAttempts + 1 >= cfg.maxFailed {
        lockedUntil := Some(now + cfg.lockout);
      }
      db.RegisterFailedLogin(id, lockedUntil);
    }

    method Login(email: string, check: PasswordCheck, now: Time) returns (reply: Reply)
      requires Valid()
      modifies db, issuer
      ensures Valid()
      ensures Atomic.Result(View(db, revoker, issuer), reply)
              == Atomic.LoginCall(cfg, old(View(db, revoker, issuer)), email, check, now)
    {
      var n := issuer.Draw();
      if email !in db.byEmail || db.byEmail[email] !in db.users {
        return Failed(InvalidCredentials);
      }
      var id := db.byEmail[email];
      var user := db.users[id];
      if check == BrokenHash {
        return Failed(Internal);
      }
      if check == Mismatch {
        RegisterFailure(id, user, now);
        return Failed(InvalidCredentials);
      }
      var refusal := user.EnsureCanLogin(now);
      if refusal.Some? {
        return Failed(refusal.value);
      }
      db.RegisterSuccessfulLogin(id, now);
      var ok := IssuePair(n, id, user.role, n, None, now);
      reply := if ok then Issued(n) else Failed(Internal);
    }

    method Refresh(raw: Id, now: Time) returns (reply: Reply)
      requires Valid()
      modifies db, issuer
      ensures Valid()
      ensures Atomic.Result(View(db, revoker, issuer), reply)
              == Atomic.RefreshCall(cfg, old(View(db, revoker, issuer)), raw, now)
    {
      var n := issuer.Draw();
      var found := db.GetByHash(raw);
      if found.None? {
        return Failed(Unauthenticated);
      }
      var stored := found.value;
      if stored.IsUsed() || stored.IsRevoked() {
        db.RevokeSession(stored.session, TokenReuse, now);
        return Failed(SessionRevoked);
      }
      if stored.IsExpired(now) || stored.user !in db.users {
        return Failed(Unauthenticated);
      }
      var user := db.users[stored.user];
      if user.EnsureCanLogin(now).Some? {
        db.RevokeSession(stored.session, UserDisabled, now);
        return Failed(Unauthenticated);
      }
      var ok := IssuePair(n, stored.user, user.role, stored.session, Some(raw), now);
      if !ok {
        return Failed(Internal);
      }
      var marked := db.MarkUsed(raw, n, now);
      reply := if marked then Issued(n) else Failed(Internal);
    }

    method Logout(cookie: Option<Id>, jti: Option<Id>, now: Time) returns (reply: Reply)
      requires Valid()
      modifies db, issuer, revoker
      ensures Valid()
      ensures Atomic.Result(View(db, revoker, issuer), reply)
              == Atomic.LogoutCall(cfg, old(View(db, revoker, issuer)), cookie, jti, now)
    {
      var claims: Option<Claims> :=
        if jti.Some? && jti.value in issuer.issued then Some(issuer.issued[jti.value].claims) else None;
      var _ := issuer.Draw();
      var session := NIL;
      if claims.Some? {
        session := claims.value.session;
      }
      if cookie.Some? {
        var stored := db.GetByHash(cookie.value);
        if stored.Some? {
          session := stored.value.session;
        }
      }
      if session != NIL {
        db.RevokeSession(session, LoggedOut, now);
      }
      if claims.Some? {
        var ttl := claims.value.expiresAt - now;
        if ttl > 0 {
          revoker.Revoke(jti.value, now, ttl);
        }
      }
      reply := Done;
    }

    method LogoutAll(user: Id, now: Time) returns (reply: Reply)
      requires Valid()
      modifies db, issuer
      ensures Valid()
      ensures Atomic.Result(View(db, revoker, issuer), reply)
              == Atomic.LogoutAllCall(cfg, old(View(db, revoker, issuer)), user, now)
    {
      var _ := issuer.Draw();
      db.RevokeAllForUser(user, LoggedOutAll, now);
      reply := Done;
    }
  }

  /** The Auth middleware in front of the other routes. */
  class Middleware {
    const db: Database
    const revoker: Revoker
    const issuer: Issuer

    constructor (db: Database, revoker: Revoker, issuer: Issuer)
      ensures this.db == db && this.revoker == revoker && this.issuer == issuer
    {
      this.db, this.revoker, this.issuer := db, revoker, issuer;
    }

    /** Parse first, then the revocation list, then the claims. */
    method Authenticate(token: Option<Id>, redisUp: bool, at: Time) returns (v: Gate.Verdict)
      ensures v == Gate.Auth(View(db, revoker, issuer), token, redisUp, at)
    {
      if token.None? {
        return Gate.Refused(401);
      }
      var claims := Gate.Parse(issuer.issued, token, at);
      if claims.None? {
        return Gate.Refused(401);
      }
      if !redisUp {
        return Gate.Refused(503);
      }
      var revoked := revoker.IsRevoked(token.value, at);
      v := if revoked then Gate.Refused(401) else Gate.Admitted(claims.value);
    }
  }

  class Team {
    const db: Database
    const revoker: Revoker
    const issuer: Issuer
    const cfg: Config

    constructor (db: Database, revoker: Revoker, issuer: Issuer, cfg: Config)
      ensures this.db == db && this.revoker == revoker && this.issuer == issuer && this.cfg == cfg
    {
      this.db, this.revoker, this.issuer, this.cfg := db, revoker, issuer, cfg;
    }

    method UpdateRole(member: Id, role: Role, now: Time) returns (reply: Reply)
      modifies db, issuer
      ensures Atomic.Result(View(db, revoker, issuer), reply)
              == Atomic.UpdateRoleCall(cfg, old(View(db, revoker, issuer)), member, role, now)
    {
      var _ := issuer.Draw();
      if !Invitable(role) {
        return Failed(Invalid);
      }
      if member !in db.users {
        return Failed(NotFound);
      }
      if db.users[member].role == Owner {
        return Failed(Forbidden);
      }
      var found := db.UpdateRole(member, role);
      reply := if found then Done else Failed(NotFound);
    }

    method Revoke(member: Id, now: Time) returns (reply: Reply)
      modifies db, issuer
      ensures Atomic.Result(View(db, revoker, issuer), reply)
              == Atomic.RevokeCall(cfg, old(View(db, revoker, issuer)), member, now)
    {
      var _ := issuer.Draw();
      if member !in db.users {
        return Failed(NotFound);
      }
      if db.users[member].role == Owner {
        return Failed(Forbidden);
      }
      var found := db.UpdateStatus(member, Suspended);
      if !found {
        return Failed(NotFound);
      }
      db.RevokeAllForUser(member, UserDisabled, now);
      reply := Done;
    }
  }
}
