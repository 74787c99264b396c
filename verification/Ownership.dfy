/** Interleaved calls: stale roles in tokens never let anybody but an active owner manage the team. */
module Ownership {
  import opened Domain
  import opened Store
  import opened Machine
  import Authz
  import Gate

  /** Against the users at the start: nobody appears or disappears, owners stay owners with the status they
      had, and nobody becomes one. */
  ghost predicate UserFine(users0: Users, users: Users, u: Id) {
    && (u in users <==> u in users0)
    && (u in users ==> (users[u].role == Owner <==> users0[u].role == Owner))
    && (u in users && users[u].role == Owner ==> users[u].status == users0[u].status)
  }

  predicate ActiveOwner(users: Users, u: Id) {
    u in users && users[u].role == Owner && users[u].status == Active
  }

  /** An owner's token was issued to an active owner. */
  ghost predicate TokenFine(users0: Users, issued: map<Id, Pair>, n: Id) {
    n in issued && issued[n].claims.role == Owner ==> ActiveOwner(users0, issued[n].claims.user)
  }

  /** What the calls in flight have read: an owner's row only of an active owner, a target only that is no owner. */
  ghost predicate CallFine(users0: Users, call: Call) {
    match call
    case LoginRight(_, id, user) => user.role == Owner ==> ActiveOwner(users0, id)
    case LoginCleared(_, id, user) => user.role == Owner ==> ActiveOwner(users0, id)
    case RefreshAllowed(_, _, row, user) => user.role == Owner ==> ActiveOwner(users0, row.user)
    case RevokeSuspending(_, member) => member in users0 ==> users0[member].role != Owner
    case RoleBegun(_, role) => role != Owner
    case RoleSetting(member, role) => role != Owner && (member in users0 ==> users0[member].role != Owner)
    case _ => true
  }

  ghost predicate Fine(users0: Users, s: Sys) {
    && (forall u :: UserFine(users0, s.st.users, u))
    && (forall n :: TokenFine(users0, s.st.issued, n))
    && (forall n :: n in s.calls ==> CallFine(users0, s.calls[n]))
  }

  lemma FineStep(cfg: Config, users0: Users, s: Sys, a: Action)
    requires Fine(users0, s)
    ensures Fine(users0, Next(cfg, s, a))
  {
    var s' := Next(cfg, s, a);
    if a.Advance? && a.n in s.calls {
      StatementFine(cfg, users0, s, a.n);
    }
  }

  lemma StatementFine(cfg: Config, users0: Users, s: Sys, n: Id)
    requires Fine(users0, s) && n in s.calls
    ensures Fine(users0, Next(cfg, s, Advance(n)))
  {
    var s', call := Next(cfg, s, Advance(n)), s.calls[n];
    assert CallFine(users0, call);
    forall u: Id
      ensures UserFine(users0, s'.st.users, u)
    {
      assert UserFine(users0, s.st.users, u);
      UserKept(cfg, users0, s, n, u);
    }
    TokensKept(cfg, users0, s, n);
    ReadsFine(cfg, users0, s, n);
  }

  lemma UserKept(cfg: Config, users0: Users, s: Sys, n: Id, u: Id)
    requires n in s.calls && CallFine(users0, s.calls[n]) && UserFine(users0, s.st.users, u)
    ensures UserFine(users0, Next(cfg, s, Advance(n)).st.users, u)
  {
    var call := s.calls[n];
    if IsRefresh(call) {
    } else if IsLogout(call) {
    } else if IsTeam(call) {
    } else {
    }
  }

  lemma TokensKept(cfg: Config, users0: Users, s: Sys, n: Id)
    requires Fine(users0, s) && n in s.calls
    ensures forall m :: TokenFine(users0, Next(cfg, s, Advance(n)).st.issued, m)
  {
    var s', call := Next(cfg, s, Advance(n)), s.calls[n];
    assert CallFine(users0, call);
    forall m: Id
      ensures TokenFine(users0, s'.st.issued, m)
    {
      assert TokenFine(users0, s.st.issued, m);
      if IsRefresh(call) {
      } else if IsLogout(call) {
      } else if IsTeam(call) {
      } else {
      }
    }
  }

  lemma ReadsFine(cfg: Config, users0: Users, s: Sys, n: Id)
    requires Fine(users0, s) && n in s.calls
    ensures var s' := Next(cfg, s, Advance(n));
            n in s'.calls ==> CallFine(users0, s'.calls[n])
  {
    var call := s.calls[n];
    assert CallFine(users0, call);
    if IsRefresh(call) {
      assert call.RefreshFresh? ==> UserFine(users0, s.st.users, call.row.user);
    } else if IsLogout(call) {
    } else if IsTeam(call) {
      assert call.RevokeBegun? || call.RoleBegun? ==> UserFine(users0, s.st.users, call.member);
    } else {
      assert call.LoginBegun? && call.email in s.st.byEmail ==> UserFine(users0, s.st.users, s.st.byEmail[call.email]);
    }
  }

  lemma {:induction false} FineAlong(cfg: Config, users0: Users, s: Sys, acts: seq<Action>)
    requires Fine(users0, s)
    ensures Fine(users0, Run(cfg, s, acts))
    decreases |acts|
  {
    if acts != [] {
      FineStep(cfg, users0, s, acts[0]);
      FineAlong(cfg, users0, Next(cfg, s, acts[0]), acts[1..]);
    }
  }

  /** The set of owners never changes, and no owner's status does. */
  lemma OwnersConstant(cfg: Config, init: Sys, acts: seq<Action>)
    requires Initial(init)
    ensures var users := Run(cfg, init, acts).st.users;
            && users.Keys == init.st.users.Keys
            && forall u :: u in users ==>
                 && (users[u].role == Owner <==> init.st.users[u].role == Owner)
                 && (users[u].role == Owner ==> users[u].status == init.st.users[u].status)
  {
    FineAlong(cfg, init.st.users, init, acts);
    var users := Run(cfg, init, acts).st.users;
    forall u
      ensures u in users <==> u in init.st.users
      ensures u in users ==> (users[u].role == Owner <==> init.st.users[u].role == Owner)
      ensures u in users && users[u].role == Owner ==> users[u].status == init.st.users[u].status
    {
      assert UserFine(init.st.users, users, u);
    }
  }

  /** In every reachable state, a request that passes Auth and Require for inviting, changing a role or revoking
      comes from a user whose row is, at that moment, an active owner's. */
  lemma OnlyActiveOwnersManageTeam(cfg: Config, init: Sys, acts: seq<Action>, token: Option<Id>, redisUp: bool, at: Time,
                                   action: string)
    requires Initial(init)
    requires action == Authz.CREATE || action == Authz.UPDATE || action == Authz.DELETE
    ensures var st := Run(cfg, init, acts).st;
            var v := Gate.Require(Authz.DEFAULT_POLICY, Gate.Auth(st, token, redisUp, at), Authz.TEAM, action);
            v.Admitted? ==> ActiveOwner(st.users, v.claims.user)
  {
    FineAlong(cfg, init.st.users, init, acts);
    var st := Run(cfg, init, acts).st;
    var v := Gate.Auth(st, token, redisUp, at);
    if v.Admitted? {
      Authz.OnlyOwnersManageTeam(v.claims.role, action);
      assert TokenFine(init.st.users, st.issued, token.value);
      assert UserFine(init.st.users, st.users, v.claims.user);
    }
  }
}
