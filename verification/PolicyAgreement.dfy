/**
 * Agreement of the two authorizers.
 *
 * One service decides from the compiled Casbin rules, published to the other
 * services as an authorization snapshot; the in-process authorizer decides from
 * the membership and the grants themselves.  The theorem states exactly when they
 * agree, for every roster, grant list and earlier rule list.
 */
module PolicyAgreement {
  import opened Common
  import opened PolicyTypes
  import opened PolicyCompiler
  import opened PolicyMatcher

  // ---------------------------------------------------------------------
  // The in-process authorizer
  // ---------------------------------------------------------------------

  predicate RoleAllows(role: string, action: string) {
    if role == PLATFORM_ADMIN then true
    else if role == RELEASE_ADMIN then
      action == CREATE_OPERATION || action == EXECUTE_EMERGENCY || action == CREATE_VALUES || action == APPROVE_VALUES
    else if role == DEPLOYER then action == CREATE_VALUES
    else false
  }

  /** An unrevoked grant of exactly this capability. */
  predicate Granted(grants: seq<Grant>, org: string, subject: string, action: string) {
    exists i :: 0 <= i < |grants| && !grants[i].revoked && KeyOf(grants[i]) == GrantKey(org, subject, action)
  }

  predicate StoreAllows(role: string, grants: seq<Grant>, org: string, subject: string, action: string) {
    Granted(grants, org, subject, action) || RoleAllows(role, action)
  }

  /** What the store says about the scope of a request; an absent row is `None`. */
  datatype Scope = Scope(bindingActive: bool, organizationActive: bool, customerActive: bool)

  datatype Actor = Actor(organization: string, user: string, service: string)

  datatype Decision = Allowed(fence: nat) | Denied | Stale | Invalid

  /** The decision of the in-process authorizer, gate by gate. */
  method AuthorizeWrite(actor: Actor, customer: string, action: string, scope: Scope,
                        member: Option<Member>, grants: Option<seq<Grant>>, sourceVersion: nat)
    returns (decision: Decision)
    ensures decision == if customer == "" || !ValidAction(action) || actor.organization == "" then Invalid
                        else if !scope.bindingActive || !scope.organizationActive || !scope.customerActive then Denied
                        else if actor.service == "" && member.None? then Denied
                        else if grants.None? then Stale
                        else if StoreAllows(if actor.service != "" then "" else member.value.role,
                                            grants.value, actor.organization,
                                            if actor.service != "" then SERVICE_PREFIX + actor.service else actor.user,
                                            action)
                        then Allowed(sourceVersion)
                        else Denied
  {
    if customer == "" || !ValidAction(action) || actor.organization == "" {
      return Invalid;
    }
    if !scope.bindingActive || !scope.organizationActive || !scope.customerActive {
      return Denied;
    }
    var subject, role := actor.user, "";
    if actor.service != "" {
      subject := SERVICE_PREFIX + actor.service;
    } else {
      if member.None? {
        return Denied;
      }
      role := member.value.role;
    }
    if grants.None? {
      return Stale;
    }
    for i := 0 to |grants.value|
      invariant !Granted(grants.value[..i], actor.organization, subject, action)
    {
      var grant := grants.value[i];
      if KeyOf(grant) == GrantKey(actor.organization, subject, action) && !grant.revoked {
        return Allowed(sourceVersion);
      }
    }
    assert grants.value[..|grants.value|] == grants.value;
    return if RoleAllows(role, action) then Allowed(sourceVersion) else Denied;
  }

  // ---------------------------------------------------------------------
  // The snapshot and its consumer
  // ---------------------------------------------------------------------

  /** The role and capability part of a published snapshot. */
  datatype Capabilities = Capabilities(role: string, executeEmergency: bool, resolveEmergency: bool,
                                       createValues: bool, approveValues: bool)

  /** What the producer publishes for a human member while its policy is healthy. */
  ghost function Published(rules: seq<Rule>, m: Member): Capabilities {
    Capabilities(m.role,
                 Allows(rules, m.user, m.org, RELEASE, EXECUTE_EMERGENCY),
                 Allows(rules, m.user, m.org, RELEASE, RESOLVE_EMERGENCY),
                 Allows(rules, m.user, m.org, RELEASE, CREATE_VALUES),
                 Allows(rules, m.user, m.org, RELEASE, APPROVE_VALUES))
  }

  /** The consumer's reading of a snapshot. */
  predicate CapabilityAllowed(c: Capabilities, action: string) {
    if action == CREATE_OPERATION then c.role == RELEASE_ADMIN || c.role == PLATFORM_ADMIN
    else if action == EXECUTE_EMERGENCY then c.executeEmergency
    else if action == RESOLVE_EMERGENCY then c.resolveEmergency
    else if action == CREATE_VALUES then c.createValues
    else action == APPROVE_VALUES && c.approveValues
  }

  // ---------------------------------------------------------------------
  // What the compiled rules allow
  // ---------------------------------------------------------------------

  /** Memberships are keyed by organization and user, and nobody is named like a role or a service. */
  ghost predicate WellFormed(roster: seq<Member>) {
    && (forall m :: m in roster ==> ValidRole(m.role) && !ValidRole(m.user) && !HasPrefix(m.user, SERVICE_PREFIX))
    && forall m, n :: m in roster && n in roster && m.org == n.org && m.user == n.user ==> m == n
  }

  ghost predicate ValidGrants(grants: seq<Grant>) {
    forall g :: g in grants ==> ValidAction(g.action)
  }

  /** A preserved permission written for the user directly, outside the grants. */
  ghost predicate DirectRule(grants: seq<Grant>, current: seq<Rule>, org: string, user: string,
                             obj: string, act: string)
  {
    exists rule :: rule in current && IsForeignPermission(grants, rule) && rule.v0 == user
                && Grants(rule, org, obj, act)
  }

  lemma RoleNames(role: string)
    requires ValidRole(role)
    ensures !HasPrefix(role, SERVICE_PREFIX)
  {
    assert role[0] != SERVICE_PREFIX[0];
  }

  /** The role links of the compiled list are the memberships and the preserved service bindings. */
  lemma CompiledLinks(roster: seq<Member>, grants: seq<Grant>, current: seq<Rule>, rule: Rule)
    requires rule.ptype == "g"
    ensures rule in Compiled(roster, grants, current) <==>
            || (exists m :: m in roster && rule == RoleBinding(m.user, m.role, m.org))
            || (rule in current && HasPrefix(rule.v0, SERVICE_PREFIX))
  {
    InCompiled(roster, grants, current, rule);
    forall m | m in roster ensures rule in MemberRules(m, grants) <==> rule == RoleBinding(m.user, m.role, m.org) {
      BindingOfMember(m, grants, rule);
    }
  }

  lemma BindingOfMember(m: Member, grants: seq<Grant>, rule: Rule)
    requires rule.ptype == "g"
    ensures rule in MemberRules(m, grants) <==> rule == RoleBinding(m.user, m.role, m.org)
  {
    var head, own, granted := [RoleBinding(m.user, m.role, m.org)], RoleRules(m.role, m.org), GrantRules(m, grants);
    assert rule in head + own + granted <==> rule in head || rule in own || rule in granted;
    InGrantRules(m, grants, rule);
  }

  /** In the compiled list a well-formed member has one role, and the role leads nowhere. */
  lemma MemberLinks(roster: seq<Member>, grants: seq<Grant>, current: seq<Rule>, m: Member)
    requires WellFormed(roster) && m in roster
    ensures var rules := Compiled(roster, grants, current);
            && (exists rule :: rule in rules && Links(rule, m.org, m.user))
            && (forall rule :: rule in rules && Links(rule, m.org, m.user) ==> rule.v1 == m.role)
            && (forall rule :: rule in rules ==> !Links(rule, m.org, m.role))
  {
    var rules := Compiled(roster, grants, current);
    RoleNames(m.role);
    forall rule | rule in rules
      ensures Links(rule, m.org, m.user) ==> rule.v1 == m.role
      ensures !Links(rule, m.org, m.role)
    {
      if rule.ptype == "g" {
        CompiledLinks(roster, grants, current, rule);
      }
    }
    var binding := RoleBinding(m.user, m.role, m.org);
    CompiledLinks(roster, grants, current, binding);
    assert binding in rules && Links(binding, m.org, m.user);
  }

  /** The role's own rules grant the action on the object. */
  ghost predicate RolePermits(role: string, org: string, obj: string, act: string) {
    exists rule :: rule in RoleRules(role, org) && Grants(rule, org, obj, act)
  }

  /** The permissions of the compiled list that concern one member. */
  lemma CompiledPermissions(roster: seq<Member>, grants: seq<Grant>, current: seq<Rule>, m: Member, rule: Rule)
    requires WellFormed(roster) && m in roster && rule.ptype == "p" && rule.v1 == m.org
    requires rule.v0 == m.user || rule.v0 == m.role
    ensures rule in Compiled(roster, grants, current) <==>
            if rule.v0 == m.role then rule in RoleRules(m.role, m.org)
            else rule in GrantRules(m, grants) || (rule in current && IsForeignPermission(grants, rule))
  {
    InCompiled(roster, grants, current, rule);
    PreservedByFields(grants, rule);
    forall n | n in roster
      ensures rule in MemberRules(n, grants) <==>
              if rule.v0 == m.role then n.role == m.role && n.org == m.org && rule in RoleRules(m.role, m.org)
              else n == m && rule in GrantRules(m, grants)
    {
      if rule.v0 == m.role {
        RolePermissionOfMember(n, grants, rule);
      } else {
        RuleOfMember(n, grants, rule);
        InGrantRules(n, grants, rule);
      }
    }
  }

  /** A permission that names a role can only come from the role's own rules. */
  lemma RolePermissionOfMember(n: Member, grants: seq<Grant>, rule: Rule)
    requires rule.ptype == "p" && ValidRole(rule.v0) && !ValidRole(n.user)
    ensures rule in MemberRules(n, grants) <==>
            rule.v0 == n.role && rule.v1 == n.org && rule in RoleRules(rule.v0, rule.v1)
  {
    var head, own, granted := [RoleBinding(n.user, n.role, n.org)], RoleRules(n.role, n.org), GrantRules(n, grants);
    assert rule in head + own + granted <==> rule in head || rule in own || rule in granted;
    InGrantRules(n, grants, rule);
    if rule in own {
      RoleRulesNameTheRole(n.role, n.org, rule);
    }
  }

  // ---------------------------------------------------------------------
  // The constant tables
  // ---------------------------------------------------------------------

  predicate Plain(s: string) {
    forall k :: 0 <= k < |s| ==> s[k] != '*'
  }

  lemma EmergencyActionsArePlain()
    ensures Plain(EXECUTE_EMERGENCY) && Plain(RESOLVE_EMERGENCY)
  {
  }

  lemma ValuesActionsArePlain()
    ensures Plain(CREATE_VALUES) && Plain(APPROVE_VALUES)
  {
  }

  lemma OperationActionIsPlain()
    ensures Plain(CREATE_OPERATION)
  {
  }

  lemma PlainMatchesItself(key: string, pattern: string)
    requires Plain(pattern)
    ensures KeyMatch(key, pattern) <==> key == pattern
  {
  }

  lemma ActionMatchesItself(action: string, other: string)
    requires ValidAction(other)
    ensures KeyMatch(action, other) <==> action == other
  {
    EmergencyActionsArePlain();
    ValuesActionsArePlain();
    OperationActionIsPlain();
    PlainMatchesItself(action, other);
  }

  lemma ReleaseMatchesItself(obj: string)
    ensures KeyMatch(obj, RELEASE) <==> obj == RELEASE
  {
    assert Plain(RELEASE);
    PlainMatchesItself(obj, RELEASE);
  }

  lemma StarMatchesAll(key: string)
    ensures KeyMatch(key, "*")
  {
    assert StarIndex("*") == 0;
    assert key[..0] == [];
  }

  predicate Verb(act: string) {
    act == "read" || act == "write" || act == "enroll" || act == "revoke"
  }

  predicate Managing(obj: string) {
    obj == "organization" || obj == "member" || obj == "binding" || obj == "release" || obj == "bundle"
  }

  predicate Operating(obj: string) {
    obj == "operator" || obj == "customer" || obj == "trust_root" || obj == "audit"
  }

  lemma VerbsArePlain(act: string)
    requires Verb(act)
    ensures Plain(act)
  {
  }

  lemma ManagingIsPlain(obj: string)
    requires Managing(obj)
    ensures Plain(obj)
  {
  }

  lemma OperatingIsPlain(obj: string)
    requires Operating(obj)
    ensures Plain(obj)
  {
  }

  lemma TablesUseNames(role: string, i: nat)
    requires role == RELEASE_ADMIN || role == DEPLOYER || role == VIEWER
    requires i < |RoleTable(role)|
    ensures Verb(RoleTable(role)[i].1) && (Managing(RoleTable(role)[i].0) || Operating(RoleTable(role)[i].0))
  {
  }

  lemma RoleActionsAreValid(role: string, i: nat)
    requires i < |RoleActions(role)|
    ensures ValidAction(RoleActions(role)[i])
  {
  }

  /** Only platform administrators have pattern rules; what any other role's rules say, they say literally. */
  lemma OrdinaryRoleRule(role: string, org: string, obj: string, act: string, rule: Rule)
    requires ValidRole(role) && role != PLATFORM_ADMIN && rule in RoleRules(role, org)
    ensures Grants(rule, org, obj, act) <==> rule == Permission(role, org, obj, act)
  {
    var table, actions := RoleTable(role), RoleActions(role);
    InTables(role, org, table, actions, rule);
    if i :| 0 <= i < |table| && rule == Permission(role, org, table[i].0, table[i].1) {
      TablesUseNames(role, i);
      VerbsArePlain(rule.v3);
      if Managing(rule.v2) {
        ManagingIsPlain(rule.v2);
      } else {
        OperatingIsPlain(rule.v2);
      }
      PlainMatchesItself(obj, rule.v2);
      PlainMatchesItself(act, rule.v3);
    } else {
      var k :| 0 <= k < |actions| && rule == Permission(role, org, RELEASE, actions[k]);
      RoleActionsAreValid(role, k);
      ActionMatchesItself(act, actions[k]);
      ReleaseMatchesItself(obj);
    }
  }

  /** Who may read, by object. */
  ghost predicate MayRead(role: string, obj: string) {
    || ((obj == "release" || obj == "operator" || obj == "customer" || obj == "trust_root" || obj == "audit")
        && (role == RELEASE_ADMIN || role == DEPLOYER || role == VIEWER))
    || ((obj == "organization" || obj == "member") && (role == RELEASE_ADMIN || role == VIEWER))
    || ((obj == "binding" || obj == "bundle") && role == RELEASE_ADMIN)
  }

  ghost predicate MayWrite(role: string, obj: string) {
    || (obj == "release" && (role == RELEASE_ADMIN || role == DEPLOYER))
    || ((obj == "organization" || obj == "member" || obj == "binding" || obj == "audit") && role == RELEASE_ADMIN)
  }

  ghost predicate MayRelease(role: string, action: string) {
    || (action == CREATE_VALUES && (role == RELEASE_ADMIN || role == DEPLOYER))
    || ((action == EXECUTE_EMERGENCY || action == APPROVE_VALUES) && role == RELEASE_ADMIN)
  }

  /** What a role may do, object by object and action by action. */
  ghost predicate RoleMay(role: string, obj: string, act: string) {
    || role == PLATFORM_ADMIN
    || (act == "read" && MayRead(role, obj))
    || (act == "write" && MayWrite(role, obj))
    || ((act == "enroll" || act == "revoke") && obj == "operator" && role == RELEASE_ADMIN)
    || (obj == RELEASE && MayRelease(role, act))
  }

  /** The tables hold what the roles may do. */
  lemma TablesAreComplete(role: string, obj: string, act: string)
    requires ValidRole(role) && role != PLATFORM_ADMIN
    ensures (obj, act) in RoleTable(role) || (obj == RELEASE && act in RoleActions(role)) <==> RoleMay(role, obj, act)
  {
    var table := RoleTable(role);
    if role == RELEASE_ADMIN {
      AdminTable(obj, act);
    }
  }

  lemma AdminTable(obj: string, act: string)
    ensures (obj, act) in RoleTable(RELEASE_ADMIN) <==>
            || (act == "read" && MayRead(RELEASE_ADMIN, obj)) || (act == "write" && MayWrite(RELEASE_ADMIN, obj))
            || ((act == "enroll" || act == "revoke") && obj == "operator")
  {
  }

  lemma PlatformAdminMay(org: string, obj: string, act: string)
    ensures RolePermits(PLATFORM_ADMIN, org, obj, act)
  {
    StarMatchesAll(obj);
    StarMatchesAll(act);
    var all := Permission(PLATFORM_ADMIN, org, "*", "*");
    assert RoleRules(PLATFORM_ADMIN, org)[0] == all;
    assert Grants(all, org, obj, act);
  }

  /** The rules of some tables hold a permission exactly when one of the tables does. */
  lemma InTablesIff(role: string, org: string, table: seq<(string, string)>, actions: seq<string>,
                    obj: string, act: string)
    ensures Permission(role, org, obj, act) in TableRules(role, org, table) + ActionRules(role, org, actions) <==>
            (obj, act) in table || (obj == RELEASE && act in actions)
  {
    InTables(role, org, table, actions, Permission(role, org, obj, act));
  }

  lemma OrdinaryRolePermits(role: string, org: string, obj: string, act: string)
    requires ValidRole(role) && role != PLATFORM_ADMIN
    ensures RolePermits(role, org, obj, act) <==> Permission(role, org, obj, act) in RoleRules(role, org)
  {
    forall rule | rule in RoleRules(role, org)
      ensures Grants(rule, org, obj, act) <==> rule == Permission(role, org, obj, act)
    {
      OrdinaryRoleRule(role, org, obj, act, rule);
    }
  }

  lemma RolePermitsIffMay(role: string, org: string, obj: string, act: string)
    requires ValidRole(role)
    ensures RolePermits(role, org, obj, act) <==> RoleMay(role, obj, act)
  {
    if role == PLATFORM_ADMIN {
      PlatformAdminMay(org, obj, act);
    } else {
      OrdinaryRolePermits(role, org, obj, act);
      InTablesIff(role, org, RoleTable(role), RoleActions(role), obj, act);
      TablesAreComplete(role, obj, act);
    }
  }

  /** The capabilities of a role are those the in-process role table gives it, creating operations aside. */
  lemma ActionsOfRole(role: string, action: string)
    requires ValidRole(role) && ValidAction(action)
    ensures action in RoleActions(role) <==> RoleAllows(role, action) && action != CREATE_OPERATION
  {
  }

  /** The capabilities are creating operations and those of the platform administrator. */
  lemma ValidActions(action: string)
    ensures ValidAction(action) <==> action == CREATE_OPERATION || action in RoleActions(PLATFORM_ADMIN)
  {
  }

  /** The rule tables and the in-process role table say the same. */
  lemma RoleMayIffAllows(role: string, action: string)
    requires ValidRole(role) && ValidAction(action) && action != CREATE_OPERATION
    ensures RoleMay(role, RELEASE, action) <==> RoleAllows(role, action)
  {
    assert |action| > 6;
  }

  /** A member's grant rules concern releases, and grant an action exactly when an unrevoked grant names it. */
  lemma GrantRulesIffGranted(m: Member, grants: seq<Grant>, obj: string, action: string)
    requires ValidGrants(grants) && m.user != m.role
    ensures (exists rule :: rule in GrantRules(m, grants) && Grants(rule, m.org, obj, action))
            <==> obj == RELEASE && Granted(grants, m.org, m.user, action)
  {
    ReleaseMatchesItself(obj);
    forall rule | rule in GrantRules(m, grants) && Grants(rule, m.org, obj, action)
      ensures obj == RELEASE && Granted(grants, m.org, m.user, action)
    {
      InGrantRules(m, grants, rule);
      var g :| g in grants && Covers(g, m) && rule == GrantRule(g);
      ActionMatchesItself(action, g.action);
    }
    if obj == RELEASE && Granted(grants, m.org, m.user, action) {
      var i :| 0 <= i < |grants| && !grants[i].revoked && KeyOf(grants[i]) == GrantKey(m.org, m.user, action);
      var rule := GrantRule(grants[i]);
      InGrantRules(m, grants, rule);
      assert grants[i] in grants;
      ActionMatchesItself(action, action);
      assert rule in GrantRules(m, grants) && Grants(rule, m.org, obj, action);
    }
  }

  // ---------------------------------------------------------------------
  // The theorems
  // ---------------------------------------------------------------------

  /**
   * What the compiled rules allow a member, for every object and action: what its role
   * may do, the capabilities granted to it, and what a direct rule was left for.
   */
  lemma MemberDecision(roster: seq<Member>, grants: seq<Grant>, current: seq<Rule>, m: Member, obj: string, act: string)
    requires WellFormed(roster) && m in roster && ValidGrants(grants)
    ensures Allows(Compiled(roster, grants, current), m.user, m.org, obj, act) <==>
            || RoleMay(m.role, obj, act)
            || (obj == RELEASE && Granted(grants, m.org, m.user, act))
            || DirectRule(grants, current, m.org, m.user, obj, act)
  {
    var rules := Compiled(roster, grants, current);
    MemberLinks(roster, grants, current, m);
    OneRoleDecision(rules, m.org, m.user, m.role, obj, act);
    forall rule | Grants(rule, m.org, obj, act) && (rule.v0 == m.user || rule.v0 == m.role)
      ensures rule in rules <==>
              if rule.v0 == m.role then rule in RoleRules(m.role, m.org)
              else rule in GrantRules(m, grants) || (rule in current && IsForeignPermission(grants, rule))
    {
      CompiledPermissions(roster, grants, current, m, rule);
    }
    RolePermitsIffMay(m.role, m.org, obj, act);
    GrantRulesIffGranted(m, grants, obj, act);
    Combine(rules, grants, current, m, obj, act);
  }

  /**
   * For the four emergency and values actions, the compiled rules allow a member
   * exactly when the in-process authorizer does, or a direct rule was left for it.
   */
  lemma CompiledAgreesWithStore(roster: seq<Member>, grants: seq<Grant>, current: seq<Rule>, m: Member, action: string)
    requires WellFormed(roster) && m in roster && ValidGrants(grants)
    requires ValidAction(action) && action != CREATE_OPERATION
    ensures Allows(Compiled(roster, grants, current), m.user, m.org, RELEASE, action) <==>
            || StoreAllows(m.role, grants, m.org, m.user, action)
            || DirectRule(grants, current, m.org, m.user, RELEASE, action)
  {
    MemberDecision(roster, grants, current, m, RELEASE, action);
    RoleMayIffAllows(m.role, action);
  }

  /** Splitting the rules of a member into those of its role, its grants and direct rules. */
  lemma Combine(rules: seq<Rule>, grants: seq<Grant>, current: seq<Rule>, m: Member, obj: string, act: string)
    requires m.user != m.role
    requires forall rule :: Grants(rule, m.org, obj, act) && (rule.v0 == m.user || rule.v0 == m.role) ==>
               (rule in rules <==>
                if rule.v0 == m.role then rule in RoleRules(m.role, m.org)
                else rule in GrantRules(m, grants) || (rule in current && IsForeignPermission(grants, rule)))
    ensures (exists rule :: rule in rules && Grants(rule, m.org, obj, act)
                         && (rule.v0 == m.user || rule.v0 == m.role))
            <==>
            || RolePermits(m.role, m.org, obj, act)
            || (exists rule :: rule in GrantRules(m, grants) && Grants(rule, m.org, obj, act))
            || DirectRule(grants, current, m.org, m.user, obj, act)
  {
    forall rule | rule in RoleRules(m.role, m.org) ensures rule.v0 == m.role {
      RoleRulesNameTheRole(m.role, m.org, rule);
    }
    forall rule | rule in GrantRules(m, grants) ensures rule.v0 == m.user {
      InGrantRules(m, grants, rule);
    }
  }

  /**
   * The published snapshot and the in-process authorizer agree on a valid action
   * exactly when no direct rule adds a capability the store does not know, and, for
   * creating operations, no explicit grant stands in for an administrator role.
   */
  lemma SnapshotAgreesExactly(roster: seq<Member>, grants: seq<Grant>, current: seq<Rule>, m: Member, action: string)
    requires WellFormed(roster) && m in roster && ValidGrants(grants) && ValidAction(action)
    ensures (CapabilityAllowed(Published(Compiled(roster, grants, current), m), action)
             <==> StoreAllows(m.role, grants, m.org, m.user, action))
            <==>
            if action == CREATE_OPERATION
            then RoleAllows(m.role, action) || !Granted(grants, m.org, m.user, action)
            else (StoreAllows(m.role, grants, m.org, m.user, action)
                  || !DirectRule(grants, current, m.org, m.user, RELEASE, action))
  {
    if action != CREATE_OPERATION {
      CompiledAgreesWithStore(roster, grants, current, m, action);
      FlagOfAction(Compiled(roster, grants, current), m, action);
    }
  }

  /** Each flag of the snapshot is the decision for its own action. */
  lemma FlagOfAction(rules: seq<Rule>, m: Member, action: string)
    requires ValidAction(action) && action != CREATE_OPERATION
    ensures CapabilityAllowed(Published(rules, m), action) <==> Allows(rules, m.user, m.org, RELEASE, action)
  {
  }

  /** A viewer with a grant to create operations: the authorizer allows what the snapshot does not. */
  lemma GrantedViewerDisagrees(org: string, user: string, admin: string, time: int, current: seq<Rule>)
    ensures var m, g := Member(org, user, VIEWER), Grant(org, user, CREATE_OPERATION, admin, false, time, time);
            && StoreAllows(m.role, [g], org, user, CREATE_OPERATION)
            && !CapabilityAllowed(Published(Compiled([m], [g], current), m), CREATE_OPERATION)
  {
    var g := Grant(org, user, CREATE_OPERATION, admin, false, time, time);
    assert [g][0] == g;
    assert |VIEWER| == 6 && |RELEASE_ADMIN| == 13 && |PLATFORM_ADMIN| == 14;
  }
}
