/** The Casbin decision over a list of rules: the matcher, role links and key patterns. */
module PolicyMatcher {
  import opened PolicyTypes

  /** The position of the first `*`, or -1. */
  function StarIndex(pattern: string): (i: int)
    ensures i < 0 <==> forall k :: 0 <= k < |pattern| ==> pattern[k] != '*'
    ensures i >= 0 ==> i < |pattern| && pattern[i] == '*' && forall k :: 0 <= k < i ==> pattern[k] != '*'
    ensures -1 <= i
  {
    if pattern == [] then -1
    else if pattern[0] == '*' then 0
    else
      var i := StarIndex(pattern[1..]);
      assert forall k :: 0 < k < |pattern| ==> pattern[k] == pattern[1..][k - 1];
      if i < 0 then -1 else i + 1
  }

  /** A pattern matches literally up to its first `*`, and anything after it. */
  predicate KeyMatch(key: string, pattern: string) {
    var i := StarIndex(pattern);
    if i < 0 then key == pattern
    else if |key| > i then key[..i] == pattern[..i]
    else key == pattern[..i]
  }

  /** Role inheritance is followed through at most this many links. */
  const MAX_HIERARCHY: nat := 10

  predicate Links(rule: Rule, dom: string, sub: string) {
    rule.ptype == "g" && rule.v0 == sub && rule.v2 == dom
  }

  /** `sub` has `role` in the domain, directly or through other roles. */
  predicate HasLink(rules: seq<Rule>, dom: string, sub: string, role: string, depth: nat)
    decreases depth
  {
    || sub == role
    || (depth > 0 && exists rule :: rule in rules && Links(rule, dom, sub)
                                 && HasLink(rules, dom, rule.v1, role, depth - 1))
  }

  /** The rule speaks about this object and action of the domain. */
  predicate Grants(rule: Rule, dom: string, obj: string, act: string) {
    rule.ptype == "p" && dom == rule.v1 && KeyMatch(obj, rule.v2) && KeyMatch(act, rule.v3)
  }

  /** Some rule of the subject, or of a role it has, grants the request. */
  predicate Allows(rules: seq<Rule>, sub: string, dom: string, obj: string, act: string) {
    exists rule :: rule in rules && Grants(rule, dom, obj, act)
                && (sub == rule.v0 || HasLink(rules, dom, sub, rule.v0, MAX_HIERARCHY))
  }

  /**
   * When a subject has one role and that role has none, links reach exactly the
   * subject and the role, whatever else the list says about other subjects.
   */
  lemma OneRoleReach(rules: seq<Rule>, dom: string, sub: string, role: string, target: string, depth: nat)
    requires depth > 0
    requires exists rule :: rule in rules && Links(rule, dom, sub)
    requires forall rule :: rule in rules && Links(rule, dom, sub) ==> rule.v1 == role
    requires forall rule :: rule in rules ==> !Links(rule, dom, role)
    ensures HasLink(rules, dom, sub, target, depth) <==> target == sub || target == role
  {
  }

  /** A decision depends on the rules of the subject and of its one role only. */
  lemma OneRoleDecision(rules: seq<Rule>, dom: string, sub: string, role: string, obj: string, act: string)
    requires exists rule :: rule in rules && Links(rule, dom, sub)
    requires forall rule :: rule in rules && Links(rule, dom, sub) ==> rule.v1 == role
    requires forall rule :: rule in rules ==> !Links(rule, dom, role)
    ensures Allows(rules, sub, dom, obj, act) <==>
            exists rule :: rule in rules && Grants(rule, dom, obj, act) && (rule.v0 == sub || rule.v0 == role)
  {
    forall rule | rule in rules
      ensures HasLink(rules, dom, sub, rule.v0, MAX_HIERARCHY) <==> rule.v0 == sub || rule.v0 == role
    {
      OneRoleReach(rules, dom, sub, role, rule.v0, MAX_HIERARCHY);
    }
  }
}
