/**
 * The durable authorization state and the ways it changes: a compare-and-swap on
 * two version counters, and membership changes, which advance one of them.
 *
 * A caller reads the state piece by piece, versions first, while others write.
 * What makes the compare-and-swap safe is that two states of one run with the same
 * pair of versions have the same grants, rules and members.
 */
module PolicyStore {
  import opened Common
  import opened Orders
  import opened PolicyTypes

  /** `teams` are the members of each organization, in the order organizations are listed. */
  datatype Durable = Durable(source: nat, policy: nat, grants: map<GrantKey, Grant>, rules: seq<Rule>,
                             teams: seq<seq<Member>>)

  function Flatten(teams: seq<seq<Member>>): seq<Member> {
    if teams == [] then [] else Flatten(teams[..|teams| - 1]) + teams[|teams| - 1]
  }

  function RosterOf(d: Durable): seq<Member> {
    Flatten(d.teams)
  }

  datatype Mutation = MembershipChanged | BindingChanged | GrantChanged | PolicyChanged

  /** An apply command; `None` keeps the stored list. */
  datatype Command = Command(expectedSource: nat, expectedPolicy: nat, mutation: Mutation,
                             grants: Option<seq<Grant>>, rules: Option<seq<Rule>>)

  /** A new organization has no members and, unlike a change of members, advances no version. */
  datatype Write = Apply(command: Command) | ChangeTeams(teams: seq<seq<Member>>) | AddOrganization

  /** No two grants of the list share the primary key. */
  predicate DistinctKeys(grants: seq<Grant>) {
    forall i, j :: 0 <= i < j < |grants| ==> KeyOf(grants[i]) != KeyOf(grants[j])
  }

  /** The table that holds the listed grants. */
  function TableOf(grants: seq<Grant>): map<GrantKey, Grant> {
    if grants == [] then map[] else
    var n := |grants| - 1;
    TableOf(grants[..n])[KeyOf(grants[n]) := grants[n]]
  }

  /** What a table holds under a key is a listed grant with that key. */
  lemma {:induction false} TableHasListed(grants: seq<Grant>, key: GrantKey) returns (i: int)
    ensures key in TableOf(grants) ==>
              0 <= i < |grants| && KeyOf(grants[i]) == key && TableOf(grants)[key] == grants[i]
  {
    i := -1;
    if grants != [] {
      var n := |grants| - 1;
      if key == KeyOf(grants[n]) {
        i := n;
      } else {
        i := TableHasListed(grants[..n], key);
      }
    }
  }

  /** The compare-and-swap goes through: both versions are current and no key is inserted twice. */
  predicate Accepted(d: Durable, c: Command) {
    && d.source == c.expectedSource && d.policy == c.expectedPolicy
    && (c.grants.Some? ==> DistinctKeys(c.grants.value))
  }

  function Applied(d: Durable, c: Command): Durable {
    Durable(if c.mutation != PolicyChanged then d.source + 1 else d.source,
            if c.rules.Some? || c.mutation == PolicyChanged || c.mutation == GrantChanged
            then d.policy + 1 else d.policy,
            if c.grants.Some? then TableOf(c.grants.value) else d.grants,
            if c.rules.Some? then c.rules.value else d.rules,
            d.teams)
  }

  /** One write, by anyone; a refused compare-and-swap changes nothing. */
  function AfterWrite(d: Durable, w: Write): Durable {
    match w
    case Apply(c) => if Accepted(d, c) then Applied(d, c) else d
    case ChangeTeams(teams) => d.(source := d.source + 1, teams := teams)
    case AddOrganization => d.(teams := d.teams + [[]])
  }

  /**
   * What a write means, by its kind: everything but a change of policy alone advances
   * the source version, and everything that concerns rules or grants the policy version.
   */
  lemma WriteMeans(d: Durable, c: Command, teams: seq<seq<Member>>)
    ensures var d' := AfterWrite(d, Apply(c));
            if d.source != c.expectedSource || d.policy != c.expectedPolicy
               || (c.grants.Some? && exists i, j :: 0 <= i < j < |c.grants.value|
                                                 && KeyOf(c.grants.value[i]) == KeyOf(c.grants.value[j]))
            then d' == d
            else
              && d'.grants == (if c.grants.Some? then TableOf(c.grants.value) else d.grants)
              && d'.rules == (if c.rules.Some? then c.rules.value else d.rules) && d'.teams == d.teams
              && match c.mutation
                 case MembershipChanged => Advanced(d, d', 1, if c.rules.Some? then 1 else 0)
                 case BindingChanged => Advanced(d, d', 1, if c.rules.Some? then 1 else 0)
                 case GrantChanged => Advanced(d, d', 1, 1)
                 case PolicyChanged => Advanced(d, d', 0, 1)
    ensures var d' := AfterWrite(d, ChangeTeams(teams));
            Advanced(d, d', 1, 0) && d'.teams == teams && d'.grants == d.grants && d'.rules == d.rules
  {
  }

  ghost predicate Advanced(d: Durable, d': Durable, source: nat, policy: nat) {
    d'.source == d.source + source && d'.policy == d.policy + policy
  }

  /** A roster has exactly the members of the organizations. */
  lemma {:induction false} FlattenHas(teams: seq<seq<Member>>, m: Member)
    ensures m in Flatten(teams) <==> exists i :: 0 <= i < |teams| && m in teams[i]
  {
    if teams != [] {
      var n := |teams| - 1;
      FlattenHas(teams[..n], m);
      assert m in Flatten(teams) <==> m in Flatten(teams[..n]) || m in teams[n];
      if i :| 0 <= i < |teams| && m in teams[i] {
        assert i < n ==> m in teams[..n][i];
      }
    }
  }

  function AfterWrites(d: Durable, ws: seq<Write>): Durable
    decreases |ws|
  {
    if ws == [] then d else AfterWrites(AfterWrite(d, ws[0]), ws[1..])
  }

  /** Nothing but organizations without members was added. */
  ghost predicate Grown(teams: seq<seq<Member>>, later: seq<seq<Member>>) {
    |teams| <= |later| && forall i :: 0 <= i < |later| ==> later[i] == if i < |teams| then teams[i] else []
  }

  lemma {:induction false} GrownRoster(teams: seq<seq<Member>>, later: seq<seq<Member>>)
    requires Grown(teams, later)
    ensures Flatten(later) == Flatten(teams)
    decreases |later|
  {
    if |teams| < |later| {
      var n := |later| - 1;
      GrownRoster(teams, later[..n]);
      assert Flatten(later[..n]) + [] == Flatten(later[..n]);
    } else {
      assert later == teams;
    }
  }

  /**
   * `later` can follow `d` in a run: versions never decrease, and equal versions mean
   * the same grants, rules and members.
   */
  ghost predicate Follows(d: Durable, later: Durable) {
    && d.source <= later.source && d.policy <= later.policy
    && (d.source == later.source && d.policy == later.policy ==>
          d.grants == later.grants && d.rules == later.rules && Grown(d.teams, later.teams))
  }

  lemma FollowsTransitive(a: Durable, b: Durable, c: Durable)
    requires Follows(a, b) && Follows(b, c)
    ensures Follows(a, c)
  {
  }

  lemma WriteFollows(d: Durable, w: Write)
    ensures Follows(d, AfterWrite(d, w))
  {
  }

  /** Whatever the others write, an unchanged pair of versions proves unchanged grants, rules and members. */
  lemma {:induction false} WritesFollow(d: Durable, ws: seq<Write>)
    ensures Follows(d, AfterWrites(d, ws))
    decreases |ws|
  {
    if ws != [] {
      WriteFollows(d, ws[0]);
      WritesFollow(AfterWrite(d, ws[0]), ws[1..]);
      FollowsTransitive(d, AfterWrite(d, ws[0]), AfterWrites(d, ws));
    }
  }

  /** Grants are listed by organization, then subject, then action. */
  predicate KeyBefore(a: GrantKey, b: GrantKey) {
    || Before(a.org, b.org)
    || (a.org == b.org && (Before(a.subject, b.subject) || (a.subject == b.subject && Before(a.action, b.action))))
  }

  lemma KeyBeforeIsTotal()
    ensures TotalOrder(KeyBefore)
  {
    BeforeIsTotal();
  }

  function KeyList(keys: set<GrantKey>): (list: seq<GrantKey>)
    ensures forall key :: key in list <==> key in keys
    ensures Distinct(list)
  {
    KeyBeforeIsTotal();
    Sorted(KeyBefore, keys)
  }

  /** The grants of a table, as a read of the table returns them. */
  function Listed(table: map<GrantKey, Grant>): (grants: seq<Grant>)
    ensures |grants| == |KeyList(table.Keys)|
    ensures forall i :: 0 <= i < |grants| ==>
              KeyList(table.Keys)[i] in table && grants[i] == table[KeyList(table.Keys)[i]]
  {
    Picked(table, KeyList(table.Keys))
  }

  /** Every grant is stored under its own key. */
  ghost predicate Keyed(d: Durable) {
    forall key :: key in d.grants ==> KeyOf(d.grants[key]) == key
  }

  lemma WriteKeepsKeyed(d: Durable, w: Write)
    requires Keyed(d)
    ensures Keyed(AfterWrite(d, w))
  {
    var d' := AfterWrite(d, w);
    if d'.grants != d.grants {
      forall key | key in d'.grants ensures KeyOf(d'.grants[key]) == key {
        var _ := TableHasListed(w.command.grants.value, key);
      }
    }
  }

  lemma TableAppend(grants: seq<Grant>, g: Grant)
    ensures TableOf(grants + [g]) == TableOf(grants)[KeyOf(g) := g]
  {
    assert (grants + [g])[..|grants|] == grants;
  }

  /** The last grant of a list without duplicate keys is new to the ones before it. */
  lemma LastKeyIsNew(grants: seq<Grant>)
    requires grants != [] && DistinctKeys(grants)
    ensures DistinctKeys(grants[..|grants| - 1])
    ensures KeyOf(grants[|grants| - 1]) !in TableOf(grants[..|grants| - 1])
  {
    var _ := TableHasListed(grants[..|grants| - 1], KeyOf(grants[|grants| - 1]));
  }

  lemma {:induction false} TableHolds(grants: seq<Grant>, i: nat)
    requires DistinctKeys(grants) && i < |grants|
    ensures KeyOf(grants[i]) in TableOf(grants) && TableOf(grants)[KeyOf(grants[i])] == grants[i]
  {
    var n := |grants| - 1;
    if i < n {
      TableHolds(grants[..n], i);
    }
  }

  /** The grants of some keys of a table. */
  function Picked(table: map<GrantKey, Grant>, keys: seq<GrantKey>): (grants: seq<Grant>)
    requires forall key :: key in keys ==> key in table
    ensures |grants| == |keys| && forall i :: 0 <= i < |keys| ==> grants[i] == table[keys[i]]
  {
    seq(|keys|, i requires 0 <= i < |keys| => assert keys[i] in keys; table[keys[i]])
  }

  lemma {:induction false} PickedTable(table: map<GrantKey, Grant>, keys: seq<GrantKey>, key: GrantKey)
    requires forall k :: k in table ==> KeyOf(table[k]) == k
    requires forall k :: k in keys ==> k in table
    ensures key in TableOf(Picked(table, keys)) <==> key in keys
    ensures key in keys ==> TableOf(Picked(table, keys))[key] == table[key]
    decreases |keys|
  {
    if keys != [] {
      var n := |keys| - 1;
      assert Picked(table, keys) == Picked(table, keys[..n]) + [table[keys[n]]];
      TableAppend(Picked(table, keys[..n]), table[keys[n]]);
      PickedTable(table, keys[..n], key);
      assert key in keys <==> key in keys[..n] || key == keys[n];
    }
  }

  /** A listing holds every grant once, under its key. */
  lemma ListedOnce(table: map<GrantKey, Grant>)
    requires forall key :: key in table ==> KeyOf(table[key]) == key
    ensures DistinctKeys(Listed(table))
    ensures TableOf(Listed(table)) == table
  {
    var keys := KeyList(table.Keys);
    assert Listed(table) == Picked(table, keys);
    forall i | 0 <= i < |keys| ensures KeyOf(Listed(table)[i]) == keys[i] {
    }
    var held := TableOf(Picked(table, keys));
    forall key
      ensures key in held <==> key in table
      ensures key in held ==> held[key] == table[key]
    {
      PickedTable(table, keys, key);
    }
  }
}
