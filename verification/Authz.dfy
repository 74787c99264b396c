/** The permission table: rule lists per role, the nested map built from them, and its flat listing. */
module Authz {
  import opened Domain
  import Sorting

  datatype Rule = Rule(resource: string, actions: seq<string>)

  type Policy = map<Role, seq<Rule>>
  type Permissions = map<string, set<string>>
  type Table = map<Role, Permissions>

  /** What the rule lists say. */
  predicate Allows(rules: seq<Rule>, resource: string, action: string) {
    exists k :: 0 <= k < |rules| && rules[k].resource == resource && action in rules[k].actions
  }

  predicate PolicyAllows(policy: Policy, role: Role, resource: string, action: string) {
    role in policy && Allows(policy[role], resource, action)
  }

  predicate Grants(perms: Permissions, resource: string, action: string) {
    resource in perms && action in perms[resource]
  }

  predicate Can(table: Table, role: Role, resource: string, action: string) {
    role in table && Grants(table[role], resource, action)
  }

  predicate Mentions(rules: seq<Rule>, resource: string) {
    exists k :: 0 <= k < |rules| && rules[k].resource == resource
  }

  /** Adds the actions of one rule, one by one. */
  method AddRule(perms: Permissions, rule: Rule) returns (r: Permissions)
    ensures forall res, act :: Grants(r, res, act) <==>
              Grants(perms, res, act) || (res == rule.resource && act in rule.actions)
    ensures r.Keys == perms.Keys + {rule.resource}
  {
    r := if rule.resource in perms then perms else perms[rule.resource := {}];
    for k := 0 to |rule.actions|
      invariant rule.resource in r && r.Keys == perms.Keys + {rule.resource}
      invariant forall res, act :: Grants(r, res, act) <==>
                  Grants(perms, res, act) || (res == rule.resource && act in rule.actions[..k])
    {
      assert rule.actions[..k + 1] == rule.actions[..k] + [rule.actions[k]];
      ghost var before := r;
      r := r[rule.resource := r[rule.resource] + {rule.actions[k]}];
      assert forall res, act :: Grants(r, res, act) <==>
               Grants(before, res, act) || (res == rule.resource && act == rule.actions[k]);
    }
    assert rule.actions[..|rule.actions|] == rule.actions;
  }

  method Collect(rules: seq<Rule>) returns (perms: Permissions)
    ensures forall res, act :: Grants(perms, res, act) <==> Allows(rules, res, act)
    ensures forall res :: res in perms ==> Mentions(rules, res)
  {
    perms := map[];
    for k := 0 to |rules|
      invariant forall res, act :: Grants(perms, res, act) <==> Allows(rules[..k], res, act)
      invariant forall res :: res in perms ==> Mentions(rules, res)
    {
      perms := AddRule(perms, rules[k]);
      forall res: string, act: string
        ensures Grants(perms, res, act) <==> Allows(rules[..k + 1], res, act)
      {
        AllowsOneMore(rules, k, res, act);
      }
    }
    assert rules[..|rules|] == rules;
  }

  lemma AllowsOneMore(rules: seq<Rule>, k: nat, res: string, act: string)
    requires k < |rules|
    ensures Allows(rules[..k + 1], res, act) <==>
              Allows(rules[..k], res, act) || (res == rules[k].resource && act in rules[k].actions)
  {
    var more := rules[..k + 1];
    if Allows(rules[..k], res, act) {
      var i :| 0 <= i < k && rules[..k][i].resource == res && act in rules[..k][i].actions;
      assert more[i].resource == res && act in more[i].actions;
    }
    if res == rules[k].resource && act in rules[k].actions {
      assert more[k].resource == res && act in more[k].actions;
    }
    if Allows(more, res, act) {
      var i :| 0 <= i < |more| && more[i].resource == res && act in more[i].actions;
      assert i < k ==> rules[..k][i].resource == res && act in rules[..k][i].actions;
    }
  }

  /** The table built from a policy, role by role in any order, answers exactly as the rule lists do. */
  method New(policy: Policy) returns (table: Table)
    ensures table.Keys == policy.Keys
    ensures forall role, res, act :: Can(table, role, res, act) <==> PolicyAllows(policy, role, res, act)
    ensures forall role, res :: role in table && res in table[role] ==> Mentions(policy[role], res)
  {
    table := map[];
    var todo := policy.Keys;
    while todo != {}
      invariant todo <= policy.Keys && table.Keys == policy.Keys - todo
      invariant forall role, res, act :: role in table ==>
                  (Grants(table[role], res, act) <==> Allows(policy[role], res, act))
      invariant forall role, res :: role in table && res in table[role] ==> Mentions(policy[role], res)
      decreases |todo|
    {
      var role :| role in todo;
      var perms := Collect(policy[role]);
      table := table[role := perms];
      todo := todo - {role};
    }
  }

  // ----- the flat listing -----

  function Name(resource: string, action: string): string {
    resource + ":" + action
  }

  /** Resource names that keep "resource:action" unambiguous. */
  predicate Plain(name: string) { ':' !in name }

  lemma SuffixOfName(resource: string, action: string)
    ensures Name(resource, action)[|resource| + 1..] == action
  {
  }

  lemma NameIsInjective(r1: string, a1: string, r2: string, a2: string)
    requires Plain(r1) && Plain(r2) && Name(r1, a1) == Name(r2, a2)
    ensures r1 == r2 && a1 == a2
  {
    var n := Name(r1, a1);
    assert n[|r1|] == ':' && n[|r2|] == ':';
    assert forall k :: 0 <= k < |r1| ==> r1[k] in r1 && n[k] == r1[k];
    assert forall k :: 0 <= k < |r2| ==> r2[k] in r2 && n[k] == r2[k];
    assert |r1| == |r2|;
    assert r1 == n[..|r1|] && r2 == n[..|r2|];
    assert a1 == n[|r1| + 1..] && a2 == n[|r2| + 1..];
  }

  /** No two granted pairs flatten to the same name. */
  ghost predicate Unambiguous(perms: Permissions) {
    forall r1, a1, r2, a2 :: Grants(perms, r1, a1) && Grants(perms, r2, a2) && Name(r1, a1) == Name(r2, a2) ==> r1 == r2
  }

  lemma PlainIsUnambiguous(perms: Permissions)
    requires forall res :: res in perms ==> Plain(res)
    ensures Unambiguous(perms)
  {
    forall r1, a1, r2, a2 | Grants(perms, r1, a1) && Grants(perms, r2, a2) && Name(r1, a1) == Name(r2, a2)
      ensures r1 == r2
    {
      NameIsInjective(r1, a1, r2, a2);
    }
  }

  /** Every name once. */
  ghost predicate NoRepeats(names: seq<string>) {
    forall i, j :: 0 <= i < j < |names| ==> names[i] != names[j]
  }

  /** Names of one resource, its actions taken in any order. */
  method NamesOf(resource: string, actions: set<string>) returns (names: seq<string>)
    ensures NoRepeats(names)
    ensures forall n :: n in names <==> exists act :: act in actions && n == Name(resource, act)
  {
    names := [];
    var todo := actions;
    while todo != {}
      invariant todo <= actions && NoRepeats(names)
      invariant forall n :: n in names <==> exists act :: act in actions - todo && n == Name(resource, act)
      decreases |todo|
    {
      var act :| act in todo;
      forall other | other in actions - todo
        ensures Name(resource, act) != Name(resource, other)
      {
        SuffixOfName(resource, act);
        SuffixOfName(resource, other);
      }
      OnceEach(names, [Name(resource, act)]);
      names := names + [Name(resource, act)];
      assert actions - (todo - {act}) == (actions - todo) + {act};
      todo := todo - {act};
    }
    assert actions - {} == actions;
  }

  /** Strictly ascending in the byte order. */
  ghost predicate StrictlySorted(names: seq<string>) {
    forall i, j :: 0 <= i < j < |names| ==> Sorting.AtMost(names[i], names[j]) && names[i] != names[j]
  }

  /** No two granted pairs of the resources outside `todo` flatten to the same name. */
  ghost predicate UnambiguousBut(perms: Permissions, todo: set<string>) {
    forall r1, a1, r2, a2 ::
      (r1 !in todo && r2 !in todo && Grants(perms, r1, a1) && Grants(perms, r2, a2) && Name(r1, a1) == Name(r2, a2)) ==>
        r1 == r2
  }

  ghost predicate NamesBut(names: seq<string>, perms: Permissions, todo: set<string>) {
    forall n :: n in names <==> exists res, act :: res !in todo && Grants(perms, res, act) && n == Name(res, act)
  }

  /** The flat listing of a role: sorted, exactly the names of what the role can do; every name stands there once
      exactly when no two granted pairs share a name. */
  method ListPermissions(table: Table, role: Role) returns (names: seq<string>)
    ensures Sorting.SortedBy(Sorting.AtMost, names)
    ensures StrictlySorted(names) <==> (role in table ==> Unambiguous(table[role]))
    ensures forall n :: n in names <==> exists res, act :: Can(table, role, res, act) && n == Name(res, act)
  {
    var perms: Permissions := if role in table then table[role] else map[];
    names := [];
    var todo := perms.Keys;
    while todo != {}
      invariant todo <= perms.Keys
      invariant NoRepeats(names) <==> UnambiguousBut(perms, todo)
      invariant NamesBut(names, perms, todo)
      decreases |todo|
    {
      var res :| res in todo;
      var more := NamesOf(res, perms[res]);
      OneMoreResource(names, perms, todo, res, more);
      OneMoreUnambiguous(names, perms, todo, res, more);
      names := names + more;
      todo := todo - {res};
    }
    assert UnambiguousBut(perms, {}) <==> Unambiguous(perms);
    SameNames(names);
    SortedOnceIff(names);
    names := Sorting.Sort(Sorting.AtMost, names);
  }

  lemma OneMoreResource(names: seq<string>, perms: Permissions, todo: set<string>, res: string, more: seq<string>)
    requires res in todo && res in perms && NamesBut(names, perms, todo)
    requires forall n :: n in more <==> exists act :: act in perms[res] && n == Name(res, act)
    ensures NamesBut(names + more, perms, todo - {res})
  {
    forall n
      ensures n in names + more <==> exists r, act :: r !in todo - {res} && Grants(perms, r, act) && n == Name(r, act)
    {
      if n in more {
        var act :| act in perms[res] && n == Name(res, act);
        assert Grants(perms, res, act);
      }
      if exists r, act :: r !in todo - {res} && Grants(perms, r, act) && n == Name(r, act) {
        var r, act :| r !in todo - {res} && Grants(perms, r, act) && n == Name(r, act);
        assert r == res ==> n in more;
        assert r != res ==> n in names;
      }
    }
  }

  lemma OneMoreUnambiguous(names: seq<string>, perms: Permissions, todo: set<string>, res: string, more: seq<string>)
    requires res in todo && res in perms && NamesBut(names, perms, todo) && NoRepeats(more)
    requires forall n :: n in more <==> exists act :: act in perms[res] && n == Name(res, act)
    requires NoRepeats(names) <==> UnambiguousBut(perms, todo)
    ensures NoRepeats(names + more) <==> UnambiguousBut(perms, todo - {res})
  {
    OnceEachIff(names, more);
    if UnambiguousBut(perms, todo - {res}) {
      assert forall n :: n in more ==> exists act :: Grants(perms, res, act) && n == Name(res, act);
      forall n | n in names
        ensures n !in more
      {
        var r1, a1 :| r1 !in todo && Grants(perms, r1, a1) && n == Name(r1, a1);
        assert r1 !in todo - {res};
      }
    }
    if NoRepeats(names + more) {
      forall r1, a1, r2, a2 | r1 !in todo - {res} && r2 !in todo - {res} && Grants(perms, r1, a1) && Grants(perms, r2, a2)
                              && Name(r1, a1) == Name(r2, a2)
        ensures r1 == r2
      {
        assert r1 != res ==> Name(r1, a1) in names;
        assert r2 != res ==> Name(r2, a2) in names;
        assert r1 == res ==> Name(r1, a1) in more;
        assert r2 == res ==> Name(r2, a2) in more;
      }
    }
  }

  lemma OnceEachIff(names: seq<string>, more: seq<string>)
    requires NoRepeats(more)
    ensures NoRepeats(names + more) <==> NoRepeats(names) && forall n :: n in names ==> n !in more
  {
    var all := names + more;
    if NoRepeats(all) {
      forall n | n in names
        ensures n !in more
      {
        var i :| 0 <= i < |names| && names[i] == n;
        assert all[i] == n;
        assert forall j :: 0 <= j < |more| ==> more[j] == all[|names| + j];
      }
      assert forall i :: 0 <= i < |names| ==> names[i] == all[i];
    } else if NoRepeats(names) && forall n :: n in names ==> n !in more {
      OnceEach(names, more);
    }
  }

  lemma OnceEach(names: seq<string>, more: seq<string>)
    requires NoRepeats(names) && NoRepeats(more) && forall n :: n in names ==> n !in more
    ensures NoRepeats(names + more)
  {
    var all := names + more;
    forall i, j | 0 <= i < j < |all|
      ensures all[i] != all[j]
    {
      if i < |names| <= j {
        assert all[i] in names && all[j] in more;
      }
    }
  }

  lemma SameNames(names: seq<string>)
    ensures var sorted := Sorting.Sort(Sorting.AtMost, names);
            Sorting.SortedBy(Sorting.AtMost, sorted) && forall n :: n in sorted <==> n in names
  {
    Sorting.AtMostIsPreorder();
    Sorting.SortSorted(Sorting.AtMost, names);
    var sorted := Sorting.Sort(Sorting.AtMost, names);
    forall n
      ensures n in sorted <==> n in names
    {
      assert n in sorted <==> n in multiset(sorted);
      assert n in names <==> n in multiset(names);
    }
  }

  lemma SortedOnceIff(names: seq<string>)
    ensures StrictlySorted(Sorting.Sort(Sorting.AtMost, names)) <==> NoRepeats(names)
  {
    SameNames(names);
    var sorted := Sorting.Sort(Sorting.AtMost, names);
    if NoRepeats(names) {
      StillNoRepeats(names, sorted);
    } else if StrictlySorted(sorted) {
      StillNoRepeats(sorted, names);
    }
  }

  lemma StillNoRepeats(names: seq<string>, names': seq<string>)
    requires NoRepeats(names) && multiset(names) == multiset(names')
    ensures NoRepeats(names')
  {
    OncePerMultiset(names);
    forall i, j | 0 <= i < j < |names'|
      ensures names'[i] != names'[j]
    {
      if names'[i] == names'[j] {
        Sorting.Twice(names', i, j);
      }
    }
  }

  lemma {:induction false} OncePerMultiset(names: seq<string>)
    requires NoRepeats(names)
    ensures forall n :: multiset(names)[n] <= 1
  {
    if names != [] {
      OncePerMultiset(names[1..]);
      assert names == [names[0]] + names[1..];
      assert names[0] !in names[1..];
      assert names[0] !in multiset(names[1..]);
    }
  }

  /** The names of exactly what the policy allows the role. */
  ghost predicate IsListing(policy: Policy, role: Role, names: seq<string>) {
    forall n :: n in names <==> exists res, act :: PolicyAllows(policy, role, res, act) && n == Name(res, act)
  }

  /** Looking a pair up by its flat name answers whether the policy allows it. */
  lemma ListingAnswers(policy: Policy, role: Role, names: seq<string>, resource: string, action: string)
    requires IsListing(policy, role, names) && Plain(resource)
    requires role in policy ==> forall res :: Mentions(policy[role], res) ==> Plain(res)
    ensures Name(resource, action) in names <==> PolicyAllows(policy, role, resource, action)
  {
    if Name(resource, action) in names {
      var res, act :| PolicyAllows(policy, role, res, act) && Name(resource, action) == Name(res, act);
      assert Mentions(policy[role], res);
      NameIsInjective(resource, action, res, act);
    }
  }

  /** From a policy with plain resource names to the listing of one role. */
  method PermissionsOf(policy: Policy, role: Role) returns (names: seq<string>)
    requires forall r, res :: r in policy && Mentions(policy[r], res) ==> Plain(res)
    ensures StrictlySorted(names)
    ensures IsListing(policy, role, names)
  {
    var table := New(policy);
    if role in table {
      PlainIsUnambiguous(table[role]);
    }
    names := ListPermissions(table, role);
  }

  // ----- the policy that is shipped -----

  const READ := "read"
  const CREATE := "create"
  const UPDATE := "update"
  const DELETE := "delete"
  const SUSPEND := "suspend"

  const TENANT := "tenant"
  const TICKET := "support_ticket"
  const TEAM := "super_admin"
  const AUDIT := "audit_log"
  const METRICS := "metrics"
  const SETTINGS := "settings"

  const CRUD := [READ, CREATE, UPDATE, DELETE]
  const TENANT_ACTIONS := [READ, CREATE, UPDATE, DELETE, SUSPEND]

  const OWNER_RULES := [Rule(TENANT, TENANT_ACTIONS), Rule(TICKET, CRUD), Rule(TEAM, CRUD),
                        Rule(AUDIT, [READ]), Rule(METRICS, [READ]), Rule(SETTINGS, CRUD)]
  const ADMIN_RULES := [Rule(TENANT, TENANT_ACTIONS), Rule(TICKET, CRUD), Rule(TEAM, [READ]),
                        Rule(AUDIT, [READ]), Rule(METRICS, [READ]), Rule(SETTINGS, CRUD)]
  const SUPPORT_RULES := [Rule(TENANT, [READ]), Rule(TICKET, [READ, CREATE, UPDATE]),
                          Rule(METRICS, [READ]), Rule(SETTINGS, [READ])]
  const VIEWER_RULES := [Rule(TENANT, [READ]), Rule(TICKET, [READ]), Rule(AUDIT, [READ]),
                         Rule(METRICS, [READ]), Rule(SETTINGS, [READ])]

  const DEFAULT_POLICY: Policy :=
    map[Owner := OWNER_RULES, Admin := ADMIN_RULES, Support := SUPPORT_RULES, Viewer := VIEWER_RULES]

  /** The shipped resource names hold no colon, so every role's flat listing is exact and without repeats. */
  lemma ShippedIsPlain(role: Role, resource: string)
    requires Mentions(DEFAULT_POLICY[role], resource)
    ensures Plain(resource)
  {
    assert Plain(TENANT) && Plain(TICKET) && Plain(TEAM) && Plain(AUDIT) && Plain(METRICS) && Plain(SETTINGS);
    assert resource in [TENANT, TICKET, TEAM, AUDIT, METRICS, SETTINGS];
  }

  /** Who may do what, resource by resource. */
  predicate MayRead(role: Role, resource: string) {
    || resource == TENANT || resource == TICKET || resource == METRICS || resource == SETTINGS
    || (resource == AUDIT && role != Support)
    || (resource == TEAM && (role == Owner || role == Admin))
  }

  predicate MayChange(role: Role, resource: string, action: string) {
    match role
    case Viewer => false
    case Support => resource == TICKET && action != DELETE
    case Admin => resource == TENANT || resource == TICKET || resource == SETTINGS
    case Owner => resource == TENANT || resource == TICKET || resource == SETTINGS || resource == TEAM
  }

  lemma NamesDiffer()
    ensures |TENANT| == 6 && |TICKET| == 14 && |TEAM| == 11 && |AUDIT| == 9 && |METRICS| == 7 && |SETTINGS| == 8
    ensures READ != CREATE && READ != UPDATE && READ != DELETE && READ != SUSPEND
    ensures CREATE != UPDATE && CREATE != DELETE && UPDATE != DELETE
    ensures SUSPEND != CREATE && SUSPEND != UPDATE && SUSPEND != DELETE
  {
    assert CREATE[0] == 'c' && UPDATE[0] == 'u' && DELETE[0] == 'd' && READ[0] == 'r' && SUSPEND[0] == 's';
  }

  /** One role's rules, as what they allow. */
  predicate Means(role: Role, resource: string, action: string) {
    || (action == READ && MayRead(role, resource))
    || (action in [CREATE, UPDATE, DELETE] && MayChange(role, resource, action))
    || (action == SUSPEND && resource == TENANT && (role == Owner || role == Admin))
  }

  lemma OwnerMeans(resource: string, action: string)
    ensures Allows(OWNER_RULES, resource, action) <==> Means(Owner, resource, action)
  {
    NamesDiffer();
    AllowsSix(OWNER_RULES, resource, action);
  }

  lemma AdminMeans(resource: string, action: string)
    ensures Allows(ADMIN_RULES, resource, action) <==> Means(Admin, resource, action)
  {
    NamesDiffer();
    AllowsSix(ADMIN_RULES, resource, action);
  }

  lemma SupportMeans(resource: string, action: string)
    ensures Allows(SUPPORT_RULES, resource, action) <==> Means(Support, resource, action)
  {
    NamesDiffer();
    AllowsSix(SUPPORT_RULES, resource, action);
  }

  lemma ViewerMeans(resource: string, action: string)
    ensures Allows(VIEWER_RULES, resource, action) <==> Means(Viewer, resource, action)
  {
    NamesDiffer();
    AllowsSix(VIEWER_RULES, resource, action);
  }

  predicate AllowsAt(rules: seq<Rule>, k: nat, resource: string, action: string) {
    k < |rules| && rules[k].resource == resource && action in rules[k].actions
  }

  lemma AllowsSix(rules: seq<Rule>, resource: string, action: string)
    requires |rules| <= 6
    ensures Allows(rules, resource, action) <==>
              || AllowsAt(rules, 0, resource, action) || AllowsAt(rules, 1, resource, action)
              || AllowsAt(rules, 2, resource, action) || AllowsAt(rules, 3, resource, action)
              || AllowsAt(rules, 4, resource, action) || AllowsAt(rules, 5, resource, action)
  {
    if Allows(rules, resource, action) {
      var k :| 0 <= k < |rules| && rules[k].resource == resource && action in rules[k].actions;
      assert AllowsAt(rules, k, resource, action);
    }
  }

  /** The whole shipped table: exactly these pairs are allowed, whatever resource and action are asked for. Everybody
      reads clients, tickets, metrics and settings; the journal is closed to support, the team to all but owner and
      admin; viewers change nothing, support changes tickets but deletes none, admins change all but the team. */
  lemma ShippedTable(role: Role, resource: string, action: string)
    ensures PolicyAllows(DEFAULT_POLICY, role, resource, action) <==> Means(role, resource, action)
  {
    match role {
      case Owner => OwnerMeans(resource, action);
      case Admin => AdminMeans(resource, action);
      case Support => SupportMeans(resource, action);
      case Viewer => ViewerMeans(resource, action);
    }
  }

  /** Only the owner's rules let anybody change the team. */
  lemma OnlyOwnersManageTeam(role: Role, action: string)
    requires action == CREATE || action == UPDATE || action == DELETE
    ensures PolicyAllows(DEFAULT_POLICY, role, TEAM, action) <==> role == Owner
  {
    assert OWNER_RULES[2].resource == TEAM && action in OWNER_RULES[2].actions;
    assert |TEAM| == 11 && |TENANT| == 6 && |TICKET| == 14 && |AUDIT| == 9 && |METRICS| == 7 && |SETTINGS| == 8;
    assert |READ| == 4 && |CREATE| == 6 && |UPDATE| == 6 && |DELETE| == 6;
  }
}
