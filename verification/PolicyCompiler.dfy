/**
 * The policy compiler: memberships, explicit grants and preserved rules become
 * one list of Casbin rules.
 */
module PolicyCompiler {
  import opened Common
  import opened Lists
  import opened PolicyTypes

  // ---------------------------------------------------------------------
  // The tables
  // ---------------------------------------------------------------------

  /** The (object, action) pairs a role is given outright. */
  function RoleTable(role: string): seq<(string, string)> {
    if role == PLATFORM_ADMIN then [("*", "*")]
    else if role == RELEASE_ADMIN then
      [("organization", "read"), ("organization", "write"), ("member", "read"), ("member", "write"),
       ("binding", "read"), ("binding", "write"), ("release", "read"), ("release", "write"),
       ("bundle", "read"), ("operator", "read"), ("operator", "enroll"), ("operator", "revoke"),
       ("customer", "read"), ("trust_root", "read"), ("audit", "read"), ("audit", "write")]
    else if role == DEPLOYER then
      [("release", "read"), ("release", "write"), ("operator", "read"), ("customer", "read"),
       ("trust_root", "read"), ("audit", "read")]
    else if role == VIEWER then
      [("organization", "read"), ("member", "read"), ("release", "read"), ("operator", "read"),
       ("customer", "read"), ("trust_root", "read"), ("audit", "read")]
    else []
  }

  /** The release capabilities a role carries. */
  function RoleActions(role: string): seq<string> {
    if role == PLATFORM_ADMIN then [EXECUTE_EMERGENCY, RESOLVE_EMERGENCY, CREATE_VALUES, APPROVE_VALUES]
    else if role == RELEASE_ADMIN then [EXECUTE_EMERGENCY, CREATE_VALUES, APPROVE_VALUES]
    else if role == DEPLOYER then [CREATE_VALUES]
    else []
  }

  // ---------------------------------------------------------------------
  // The compiled list
  // ---------------------------------------------------------------------

  /** One permission per (object, action) pair. */
  function TableRules(role: string, dom: string, table: seq<(string, string)>): (r: seq<Rule>)
    ensures |r| == |table|
    ensures forall i :: 0 <= i < |r| ==> r[i] == Permission(role, dom, table[i].0, table[i].1)
  {
    seq(|table|, i requires 0 <= i < |table| => Permission(role, dom, table[i].0, table[i].1))
  }

  /** One release permission per action. */
  function ActionRules(role: string, dom: string, actions: seq<string>): (r: seq<Rule>)
    ensures |r| == |actions|
    ensures forall i :: 0 <= i < |r| ==> r[i] == Permission(role, dom, RELEASE, actions[i])
  {
    seq(|actions|, i requires 0 <= i < |actions| => Permission(role, dom, RELEASE, actions[i]))
  }

  function RoleCapabilityRules(role: string, dom: string): seq<Rule> {
    ActionRules(role, dom, RoleActions(role))
  }

  function RoleRules(role: string, dom: string): seq<Rule> {
    TableRules(role, dom, RoleTable(role)) + RoleCapabilityRules(role, dom)
  }

  lemma InTables(role: string, dom: string, table: seq<(string, string)>, actions: seq<string>, rule: Rule)
    ensures rule in TableRules(role, dom, table) + ActionRules(role, dom, actions) <==>
            || (exists i :: 0 <= i < |table| && rule == Permission(role, dom, table[i].0, table[i].1))
            || (exists i :: 0 <= i < |actions| && rule == Permission(role, dom, RELEASE, actions[i]))
  {
    var own, more := TableRules(role, dom, table), ActionRules(role, dom, actions);
    assert rule in own + more <==> rule in own || rule in more;
    if i :| 0 <= i < |table| && rule == Permission(role, dom, table[i].0, table[i].1) {
      assert own[i] in own;
    }
    if i :| 0 <= i < |actions| && rule == Permission(role, dom, RELEASE, actions[i]) {
      assert more[i] in more;
    }
  }

  /** The grant gives this member a capability. */
  predicate Covers(g: Grant, m: Member) {
    !g.revoked && g.org == m.org && g.subject == m.user
  }

  function GrantRule(g: Grant): Rule {
    Permission(g.subject, g.org, RELEASE, g.action)
  }

  /** The rules of a member's explicit grants, in the order of the grants. */
  function GrantRules(m: Member, grants: seq<Grant>): seq<Rule> {
    if grants == [] then [] else
    var n := |grants| - 1;
    var rules := GrantRules(m, grants[..n]);
    if Covers(grants[n], m) && grants[n].subject != m.role then rules + [GrantRule(grants[n])] else rules
  }

  function MemberRules(m: Member, grants: seq<Grant>): seq<Rule> {
    [RoleBinding(m.user, m.role, m.org)] + RoleRules(m.role, m.org) + GrantRules(m, grants)
  }

  function MemberCompiler(grants: seq<Grant>): Member -> seq<Rule> {
    m => MemberRules(m, grants)
  }

  /** The rules that follow from the roster alone. */
  function Derived(roster: seq<Member>, grants: seq<Grant>): seq<Rule> {
    FlatMap(roster, MemberCompiler(grants))
  }

  /** Some grant, revoked or not, has this key. */
  predicate Managed(grants: seq<Grant>, org: string, subject: string, action: string) {
    exists i :: 0 <= i < |grants| && KeyOf(grants[i]) == GrantKey(org, subject, action)
  }

  /** A rule of the current list survives a recompilation although no membership asks for it. */
  predicate Preserved(grants: seq<Grant>, rule: Rule) {
    || (rule.ptype == "g" && HasPrefix(rule.v0, SERVICE_PREFIX))
    || (rule.ptype == "p" && !ValidRole(rule.v0)
        && !(rule.v2 == RELEASE && Managed(grants, rule.v1, rule.v0, rule.v3)))
  }

  function Preserver(grants: seq<Grant>): Rule -> bool {
    rule => Preserved(grants, rule)
  }

  function Compiled(roster: seq<Member>, grants: seq<Grant>, current: seq<Rule>): seq<Rule> {
    Dedup(Derived(roster, grants) + Filter(current, Preserver(grants)))
  }

  // ---------------------------------------------------------------------
  // The program
  // ---------------------------------------------------------------------

  method CapabilityRules(m: Member, grants: seq<Grant>) returns (rules: seq<Rule>)
    ensures rules == RoleCapabilityRules(m.role, m.org) + CoveredRules(m, grants)
  {
    var actions := RoleActions(m.role);
    rules := [];
    for i := 0 to |actions|
      invariant rules == RoleCapabilityRules(m.role, m.org)[..i]
    {
      rules := rules + [Permission(m.role, m.org, RELEASE, actions[i])];
    }
    ghost var own := RoleCapabilityRules(m.role, m.org);
    assert own[..|actions|] == own;
    for i := 0 to |grants|
      invariant rules == own + CoveredRules(m, grants[..i])
    {
      assert grants[..i + 1][..i] == grants[..i];
      if grants[i].revoked || grants[i].org != m.org || grants[i].subject != m.user {
        continue;
      }
      ConcatAssoc(own, CoveredRules(m, grants[..i]), [GrantRule(grants[i])]);
      rules := rules + [GrantRule(grants[i])];
    }
    assert grants[..|grants|] == grants;
  }

  /** Every covering grant, also one whose subject is named like the member's role. */
  function CoveredRules(m: Member, grants: seq<Grant>): (r: seq<Rule>)
    ensures forall i :: 0 <= i < |r| ==> r[i].v0 == m.user
  {
    if grants == [] then [] else
    var n := |grants| - 1;
    var rules := CoveredRules(m, grants[..n]);
    if Covers(grants[n], m) then rules + [GrantRule(grants[n])] else rules
  }

  lemma {:induction false} GrantRulesAreCovered(m: Member, grants: seq<Grant>)
    ensures GrantRules(m, grants) == if m.user == m.role then [] else CoveredRules(m, grants)
  {
    if grants != [] {
      GrantRulesAreCovered(m, grants[..|grants| - 1]);
    }
  }

  method DeduplicateRules(rules: seq<Rule>) returns (result: seq<Rule>)
    ensures result == Dedup(rules)
  {
    var seen: set<Rule> := {};
    result := [];
    for i := 0 to |rules|
      invariant result == Dedup(rules[..i])
      invariant forall r :: r in seen <==> r in rules[..i]
    {
      assert rules[..i + 1][..i] == rules[..i];
      if rules[i] in seen {
        continue;
      }
      seen := seen + {rules[i]};
      result := result + [rules[i]];
    }
    assert rules[..|rules|] == rules;
  }

  function NotNamed(role: string): Rule -> bool {
    (rule: Rule) => rule.v0 != role
  }

  /** Skipping the rules that carry the role's name leaves the grants. */
  lemma SkippedRoleRules(m: Member, grants: seq<Grant>)
    ensures Filter(RoleCapabilityRules(m.role, m.org) + CoveredRules(m, grants), NotNamed(m.role))
            == GrantRules(m, grants)
  {
    var own, covered := RoleCapabilityRules(m.role, m.org), CoveredRules(m, grants);
    FilterConcat(own, covered, NotNamed(m.role));
    FilterNone(own, NotNamed(m.role));
    GrantRulesAreCovered(m, grants);
    if m.user == m.role {
      FilterNone(covered, NotNamed(m.role));
    } else {
      FilterAll(covered, NotNamed(m.role));
    }
  }

  /** The rules of one member, as the compiler appends them. */
  method CompileMember(m: Member, grants: seq<Grant>) returns (rules: seq<Rule>)
    ensures rules == MemberRules(m, grants)
  {
    var base := [RoleBinding(m.user, m.role, m.org)] + RoleRules(m.role, m.org);
    var capabilities := CapabilityRules(m, grants);
    rules := base;
    for i := 0 to |capabilities|
      invariant rules == base + Filter(capabilities[..i], NotNamed(m.role))
    {
      assert capabilities[..i + 1][..i] == capabilities[..i];
      if capabilities[i].v0 == m.role {
        continue;
      }
      ConcatAssoc(base, Filter(capabilities[..i], NotNamed(m.role)), [capabilities[i]]);
      rules := rules + [capabilities[i]];
    }
    assert capabilities[..|capabilities|] == capabilities;
    SkippedRoleRules(m, grants);
  }

  /** What the store answered while the compiler ran: an absent list is a read error. */
  datatype RosterReads = RosterReads(organizations: Option<seq<string>>, members: map<string, seq<Member>>)

  ghost predicate Readable(view: RosterReads) {
    view.organizations.Some? && forall org :: org in view.organizations.value ==> org in view.members
  }

  /** The members of the first `n` organizations, in the order the compiler walks them. */
  function RosterUpTo(organizations: seq<string>, members: map<string, seq<Member>>, n: nat): seq<Member>
    requires n <= |organizations|
  {
    if n == 0 then [] else
    var front := RosterUpTo(organizations, members, n - 1);
    if organizations[n - 1] in members then front + members[organizations[n - 1]] else front
  }

  function Roster(organizations: seq<string>, members: map<string, seq<Member>>): seq<Member> {
    RosterUpTo(organizations, members, |organizations|)
  }

  /** The roster has exactly the members read for the listed organizations. */
  lemma {:induction false} RosterHas(organizations: seq<string>, members: map<string, seq<Member>>, n: nat, m: Member)
    requires n <= |organizations|
    ensures m in RosterUpTo(organizations, members, n) <==>
            exists i :: 0 <= i < n && organizations[i] in members && m in members[organizations[i]]
  {
    if n > 0 {
      RosterHas(organizations, members, n - 1, m);
    }
  }

  /** `compiler` gives every member its rules. */
  ghost predicate Compiles(compiler: Member -> seq<Rule>, grants: seq<Grant>) {
    forall m {:trigger MemberRules(m, grants)} :: compiler(m) == MemberRules(m, grants)
  }

  /** Appends the rules of one organization's members. */
  method CompileMembers(members: seq<Member>, grants: seq<Grant>, derived: seq<Rule>,
                        ghost compiler: Member -> seq<Rule>)
    returns (rules: seq<Rule>)
    requires Compiles(compiler, grants)
    ensures rules == derived + FlatMap(members, compiler)
  {
    rules := derived;
    for j := 0 to |members|
      invariant rules == derived + FlatMap(members[..j], compiler)
    {
      var more := CompileMember(members[j], grants);
      assert members[..j + 1][..j] == members[..j];
      ConcatAssoc(derived, FlatMap(members[..j], compiler), more);
      rules := rules + more;
    }
    assert members[..|members|] == members;
  }

  /** Appends the rules of the current list that are preserved. */
  method AppendPreserved(derived: seq<Rule>, grants: seq<Grant>, current: seq<Rule>) returns (rules: seq<Rule>)
    ensures rules == derived + Filter(current, Preserver(grants))
  {
    rules := derived;
    for i := 0 to |current|
      invariant rules == derived + Filter(current[..i], Preserver(grants))
    {
      assert current[..i + 1][..i] == current[..i];
      if current[i].ptype == "g" && HasPrefix(current[i].v0, SERVICE_PREFIX) {
        ConcatAssoc(derived, Filter(current[..i], Preserver(grants)), [current[i]]);
        rules := rules + [current[i]];
        continue;
      }
      if current[i].ptype != "p" || ValidRole(current[i].v0) {
        continue;
      }
      if Managed(grants, current[i].v1, current[i].v0, current[i].v3) && current[i].v2 == RELEASE {
        continue;
      }
      ConcatAssoc(derived, Filter(current[..i], Preserver(grants)), [current[i]]);
      rules := rules + [current[i]];
    }
    assert current[..|current|] == current;
  }

  /** The rules of every member of every organization, unless a member list cannot be read. */
  method CompileRoster(organizations: seq<string>, members: map<string, seq<Member>>, grants: seq<Grant>,
                       ghost compiler: Member -> seq<Rule>)
    returns (rules: Option<seq<Rule>>)
    requires Compiles(compiler, grants)
    ensures rules.Some? <==> forall i :: 0 <= i < |organizations| ==> organizations[i] in members
    ensures rules.Some? ==> rules.value == FlatMap(Roster(organizations, members), compiler)
  {
    var derived: seq<Rule> := [];
    for i := 0 to |organizations|
      invariant forall j :: 0 <= j < i ==> organizations[j] in members
      invariant derived == FlatMap(RosterUpTo(organizations, members, i), compiler)
    {
      if organizations[i] !in members {
        return None;
      }
      FlatMapConcat(RosterUpTo(organizations, members, i), members[organizations[i]], compiler);
      derived := CompileMembers(members[organizations[i]], grants, derived, compiler);
    }
    return Some(derived);
  }

  method CompileAuthorizationRules(view: RosterReads, grants: seq<Grant>, current: seq<Rule>)
    returns (result: Result<seq<Rule>, string>)
    ensures result.Ok? <==> Readable(view)
    ensures result.Ok? ==>
              result.value == Compiled(Roster(view.organizations.value, view.members), grants, current)
  {
    if view.organizations.None? {
      return Err("list organizations");
    }
    var derived := CompileRoster(view.organizations.value, view.members, grants, MemberCompiler(grants));
    if derived.None? {
      return Err("list organization members");
    }
    var rules := AppendPreserved(derived.value, grants, current);
    rules := DeduplicateRules(rules);
    return Ok(rules);
  }

  // ---------------------------------------------------------------------
  // What the compiled list says
  // ---------------------------------------------------------------------

  /** Compiling the compiled list gives the identical list, in the same order. */
  lemma CompiledIsFixpoint(roster: seq<Member>, grants: seq<Grant>, current: seq<Rule>)
    ensures Compiled(roster, grants, Compiled(roster, grants, current)) == Compiled(roster, grants, current)
  {
    RefilterIsStable(Derived(roster, grants), current, Preserver(grants));
  }

  lemma {:induction false} InGrantRules(m: Member, grants: seq<Grant>, rule: Rule)
    ensures rule in GrantRules(m, grants) <==>
            m.user != m.role && exists g :: g in grants && Covers(g, m) && rule == GrantRule(g)
  {
    if grants != [] {
      var n := |grants| - 1;
      InGrantRules(m, grants[..n], rule);
      assert forall g :: g in grants <==> g in grants[..n] || g == grants[n];
    }
  }

  /** A rule is in the compiled list exactly when a member asks for it or it is preserved. */
  lemma InCompiled(roster: seq<Member>, grants: seq<Grant>, current: seq<Rule>, rule: Rule)
    ensures rule in Compiled(roster, grants, current) <==>
            || (exists m :: m in roster && rule in MemberRules(m, grants))
            || (rule in current && Preserved(grants, rule))
  {
    InFlatMap(roster, MemberCompiler(grants), rule);
    assert forall m :: MemberCompiler(grants)(m) == MemberRules(m, grants);
    assert Preserver(grants)(rule) == Preserved(grants, rule);
  }

  lemma InMemberRules(m: Member, grants: seq<Grant>, rule: Rule)
    ensures rule in MemberRules(m, grants) <==>
            || rule == RoleBinding(m.user, m.role, m.org)
            || rule in RoleRules(m.role, m.org)
            || (m.user != m.role && exists g :: g in grants && Covers(g, m) && rule == GrantRule(g))
  {
    var head, own, granted := [RoleBinding(m.user, m.role, m.org)], RoleRules(m.role, m.org), GrantRules(m, grants);
    assert rule in head + own + granted <==> rule in head || rule in own || rule in granted;
    InGrantRules(m, grants, rule);
  }

  /** A binding of a service stays. */
  ghost predicate IsServiceBinding(rule: Rule) {
    rule.ptype == "g" && |rule.v0| >= 8 && rule.v0[..8] == "service:"
  }

  /** A permission of anybody but the four roles stays, unless it is about releases and some grant has its key. */
  ghost predicate IsForeignPermission(grants: seq<Grant>, rule: Rule) {
    && rule.ptype == "p" && rule.v0 !in {"platform_admin", "release_admin", "deployer", "viewer"}
    && (rule.v2 == "release" ==>
          forall g :: g in grants ==> (g.org, g.subject, g.action) != (rule.v1, rule.v0, rule.v3))
  }

  /** A grant in force gives its member the release permission of its action. */
  ghost predicate IsGranted(roster: seq<Member>, grants: seq<Grant>, rule: Rule) {
    exists m, g :: m in roster && g in grants && !g.revoked && g.org == m.org && g.subject == m.user && m.user != m.role
                && rule == Rule("p", m.user, m.org, "release", g.action, "", "")
  }

  /** Every rule of the compiled list, by its fields: what memberships, roles and grants ask for, and what stays. */
  lemma CompiledByFields(roster: seq<Member>, grants: seq<Grant>, current: seq<Rule>, rule: Rule)
    ensures rule in Compiled(roster, grants, current) <==>
            || (exists m :: m in roster && rule == Rule("g", m.user, m.role, m.org, "", "", ""))
            || OfRole(roster, rule)
            || IsGranted(roster, grants, rule)
            || (rule in current && (IsServiceBinding(rule) || IsForeignPermission(grants, rule)))
  {
    InCompiled(roster, grants, current, rule);
    PreservedByFields(grants, rule);
    forall m | m in roster
      ensures rule in MemberRules(m, grants) <==>
              || rule == RoleBinding(m.user, m.role, m.org)
              || rule in RoleRules(m.role, m.org)
              || (m.user != m.role && exists g :: g in grants && Covers(g, m) && rule == GrantRule(g))
    {
      InMemberRules(m, grants, rule);
    }
  }

  lemma PreservedByFields(grants: seq<Grant>, rule: Rule)
    ensures Preserved(grants, rule) <==> IsServiceBinding(rule) || IsForeignPermission(grants, rule)
  {
    assert Managed(grants, rule.v1, rule.v0, rule.v3) <==>
           exists g :: g in grants && (g.org, g.subject, g.action) == (rule.v1, rule.v0, rule.v3) by {
      if g :| g in grants && (g.org, g.subject, g.action) == (rule.v1, rule.v0, rule.v3) {
        var i :| 0 <= i < |grants| && grants[i] == g;
        assert KeyOf(grants[i]) == GrantKey(rule.v1, rule.v0, rule.v3);
      }
    }
  }

  /** The rules of a role all carry that role's name. */
  lemma RoleRulesNameTheRole(role: string, dom: string, rule: Rule)
    requires rule in RoleRules(role, dom)
    ensures rule.ptype == "p" && rule.v0 == role && rule.v1 == dom && ValidRole(role)
  {
    InTables(role, dom, RoleTable(role), RoleActions(role), rule);
  }

  /** The rule is one of the rules of a role that some member has. */
  ghost predicate OfRole(roster: seq<Member>, rule: Rule) {
    exists m :: m in roster && rule in RoleRules(m.role, m.org)
  }

  /**
   * The direct release rule of a grant key is in the compiled list exactly when the
   * grant is in force, not revoked and held by a member, or a role has that very rule.
   * A revoked grant, or one whose subject left, leaves no rule behind whatever the
   * list held before.
   */
  lemma ManagedRuleIffInForce(roster: seq<Member>, grants: seq<Grant>, current: seq<Rule>, key: GrantKey)
    requires Managed(grants, key.org, key.subject, key.action)
    ensures var rule := Permission(key.subject, key.org, RELEASE, key.action);
            rule in Compiled(roster, grants, current) <==>
            || OfRole(roster, rule)
            || exists m, g :: m in roster && g in grants && Covers(g, m) && KeyOf(g) == key && m.user != m.role
  {
    var rule := Permission(key.subject, key.org, RELEASE, key.action);
    InCompiled(roster, grants, current, rule);
    forall m | m in roster
      ensures rule in MemberRules(m, grants) <==>
              || rule in RoleRules(m.role, m.org)
              || (m.user != m.role && exists g :: g in grants && Covers(g, m) && KeyOf(g) == key)
    {
      PermissionOfMember(m, grants, rule);
      InGrantRules(m, grants, rule);
    }
  }

  /** A permission of a member comes from its role or from a grant. */
  lemma PermissionOfMember(m: Member, grants: seq<Grant>, rule: Rule)
    requires rule.ptype == "p"
    ensures rule in MemberRules(m, grants) <==> rule in RoleRules(m.role, m.org) || rule in GrantRules(m, grants)
  {
    var head, own, granted := [RoleBinding(m.user, m.role, m.org)], RoleRules(m.role, m.org), GrantRules(m, grants);
    assert rule !in head;
    assert rule in head + own + granted <==> rule in head || rule in own || rule in granted;
  }

  /** A permission that names no role can only come from a grant. */
  lemma RuleOfMember(m: Member, grants: seq<Grant>, rule: Rule)
    requires rule.ptype == "p" && !ValidRole(rule.v0)
    ensures rule in MemberRules(m, grants) <==> rule in GrantRules(m, grants)
  {
    var head, own, granted := [RoleBinding(m.user, m.role, m.org)], RoleRules(m.role, m.org), GrantRules(m, grants);
    assert rule !in head;
    assert rule !in own;
    assert rule in head + own + granted <==> rule in head || rule in own || rule in granted;
  }
}
