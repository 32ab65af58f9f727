/** Roles, actions, grants and Casbin rules, as the store keeps them. */
module PolicyTypes {

  /** One durable `p` or `g` rule; unused columns are empty strings. */
  datatype Rule = Rule(ptype: string, v0: string, v1: string, v2: string, v3: string, v4: string, v5: string)

  datatype Member = Member(org: string, user: string, role: string)

  /** An explicit capability override.  A zero time is 0. */
  datatype Grant = Grant(org: string, subject: string, action: string, grantedBy: string,
                         revoked: bool, createdAt: int, updatedAt: int)

  /** The identity of a grant: the primary key of its table. */
  datatype GrantKey = GrantKey(org: string, subject: string, action: string)

  function KeyOf(g: Grant): GrantKey {
    GrantKey(g.org, g.subject, g.action)
  }

  const PLATFORM_ADMIN := "platform_admin"
  const RELEASE_ADMIN := "release_admin"
  const DEPLOYER := "deployer"
  const VIEWER := "viewer"

  predicate ValidRole(role: string) {
    role == PLATFORM_ADMIN || role == RELEASE_ADMIN || role == DEPLOYER || role == VIEWER
  }

  const EXECUTE_EMERGENCY := "release.emergency.execute"
  const RESOLVE_EMERGENCY := "release.emergency.resolve"
  const CREATE_VALUES := "release.values.create"
  const APPROVE_VALUES := "release.values.approve"
  const CREATE_OPERATION := "release.operation.create"

  predicate ValidAction(action: string) {
    || action == EXECUTE_EMERGENCY || action == RESOLVE_EMERGENCY
    || action == CREATE_VALUES || action == APPROVE_VALUES || action == CREATE_OPERATION
  }

  /** The object every capability rule is about. */
  const RELEASE := "release"

  function Permission(sub: string, dom: string, obj: string, act: string): Rule {
    Rule("p", sub, dom, obj, act, "", "")
  }

  function RoleBinding(user: string, role: string, dom: string): Rule {
    Rule("g", user, role, dom, "", "", "")
  }

  predicate HasPrefix(s: string, prefix: string) {
    |prefix| <= |s| && s[..|prefix|] == prefix
  }

  /** Subjects of service actors carry this prefix. */
  const SERVICE_PREFIX := "service:"
}
