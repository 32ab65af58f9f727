/**
 * The enforcer: it compiles the durable membership and grants into rules, persists
 * them by compare-and-swap, and loads them, while others write the same store and
 * any call to the store may fail.
 *
 * What happens around each access is a parameter, a script, so every contract is
 * about all schedules of other writers and all failures.
 */
module PolicyEnforcer {
  import opened Common
  import opened PolicyTypes
  import opened PolicyCompiler
  import opened PolicyMatcher
  import opened PolicyStore

  /** What a read of the store returns.  The store answers an empty list with no list at all. */
  datatype Snapshot = Snapshot(source: nat, policy: nat, grants: seq<Grant>, rules: seq<Rule>)

  /** The writes of others just before each query of one read, and whether a query fails. */
  datatype LoadScript = LoadScript(beforeSource: seq<Write>, beforePolicy: seq<Write>, beforeGrants: seq<Write>,
                                   beforeRules: seq<Write>, fails: bool)

  /** A failed transaction changes nothing; the read after the commit may fail as well. */
  datatype ApplyScript = ApplyScript(before: seq<Write>, fails: bool, answer: LoadScript)

  /** The writes of others before the organizations are listed and before the members of each are read. */
  datatype RosterScript = RosterScript(beforeList: seq<Write>, beforeTeam: nat -> seq<Write>, fails: bool)

  datatype ReloadScript = ReloadScript(load: LoadScript, roster: RosterScript, apply: ApplyScript, adopt: LoadScript)

  datatype RefreshScript = RefreshScript(load: LoadScript, roster: RosterScript, apply: ApplyScript,
                                         reload: ReloadScript)

  predicate CalmLoad(s: LoadScript) {
    s == LoadScript([], [], [], [], false)
  }

  predicate CalmApply(s: ApplyScript) {
    s.before == [] && !s.fails && CalmLoad(s.answer)
  }

  ghost predicate CalmRoster(s: RosterScript) {
    s.beforeList == [] && (forall i :: s.beforeTeam(i) == []) && !s.fails
  }

  /** Nobody else writes and nothing fails. */
  ghost predicate CalmReload(s: ReloadScript) {
    CalmLoad(s.load) && CalmRoster(s.roster) && CalmApply(s.apply) && CalmLoad(s.adopt)
  }

  ghost predicate CalmRefresh(s: RefreshScript) {
    CalmLoad(s.load) && CalmRoster(s.roster) && CalmApply(s.apply) && CalmReload(s.reload)
  }

  function SnapshotOf(d: Durable): Snapshot {
    Snapshot(d.source, d.policy, Listed(d.grants), d.rules)
  }

  /** The durable state, with all the states it went through. */
  class AuthorizationStore {
    var state: Durable
    var applies: nat
    ghost var history: seq<Durable>

    ghost predicate Valid()
      reads this
    {
      && history != [] && history[|history| - 1] == state
      && forall i, j :: 0 <= i <= j < |history| ==> Follows(history[i], history[j])
    }

    method Put(next: Durable)
      requires Valid() && Follows(state, next)
      modifies this`state, this`history
      ensures Valid() && state == next && history == old(history) + [next]
    {
      ghost var before := history;
      state := next;
      history := history + [next];
      forall i, j | 0 <= i <= j < |history| ensures Follows(history[i], history[j]) {
        if i < |before| {
          assert Follows(before[i], before[|before| - 1]);
          FollowsTransitive(before[i], before[|before| - 1], next);
        }
      }
    }

    /** Others write. */
    method Elsewhere(writes: seq<Write>)
      requires Valid()
      modifies this`state, this`history
      ensures Valid() && old(history) <= history && Follows(old(state), state)
      ensures writes == [] ==> state == old(state)
    {
      for i := 0 to |writes|
        invariant Valid() && old(history) <= history && Follows(old(state), state)
        invariant i == 0 ==> state == old(state)
      {
        WriteFollows(state, writes[i]);
        FollowsTransitive(old(state), state, AfterWrite(state, writes[i]));
        Put(AfterWrite(state, writes[i]));
      }
    }

    /**
     * A read is four queries, and others may write between them.  The rules it
     * returns are those of some state, `at`, whose policy version is no older than
     * the one it reports.
     */
    method Load(script: LoadScript) returns (snapshot: Option<Snapshot>, ghost at: nat)
      requires Valid()
      modifies this`state, this`history
      ensures Valid() && old(history) <= history && Follows(old(state), state)
      ensures snapshot.Some? ==>
                && |old(history)| - 1 <= at < |history|
                && history[at].rules == snapshot.value.rules
                && old(state).policy <= snapshot.value.policy <= history[at].policy
                && snapshot.value.source <= history[at].source
      ensures CalmLoad(script) ==> state == old(state) && snapshot == Some(SnapshotOf(state))
    {
      at := 0;
      Elsewhere(script.beforeSource);
      var source := state.source;
      Elsewhere(script.beforePolicy);
      var policy := state.policy;
      Elsewhere(script.beforeGrants);
      var grants := Listed(state.grants);
      Elsewhere(script.beforeRules);
      var rules := state.rules;
      at := |history| - 1;
      snapshot := if script.fails then None else Some(Snapshot(source, policy, grants, rules));
    }

    /** The organizations are listed, then the members of each are read, while others write. */
    method ReadRoster(script: RosterScript) returns (roster: Option<seq<Member>>)
      requires Valid()
      modifies this`state, this`history
      ensures Valid() && old(history) <= history && Follows(old(state), state)
      ensures CalmRoster(script) ==> state == old(state) && roster == Some(RosterOf(state))
    {
      Elsewhere(script.beforeList);
      var count, members, teams := |state.teams|, [], [];
      for i := 0 to count
        invariant Valid() && old(history) <= history && Follows(old(state), state)
        invariant |teams| == i && members == Flatten(teams)
        invariant CalmRoster(script) ==> state == old(state) && count == |state.teams| && teams == state.teams[..i]
      {
        Elsewhere(script.beforeTeam(i));
        var team := if i < |state.teams| then state.teams[i] else [];
        assert (teams + [team])[..i] == teams;
        members, teams := members + team, teams + [team];
      }
      assert CalmRoster(script) ==> teams == state.teams;
      roster := if script.fails then None else Some(members);
    }

    /** Whoever gets a snapshot back knows that the command was accepted, in the state `at`, and applied to it. */
    method Apply(command: Command, script: ApplyScript) returns (snapshot: Option<Snapshot>, ghost at: nat)
      requires Valid()
      modifies this`state, this`history, this`applies
      ensures Valid() && old(history) <= history && Follows(old(state), state)
      ensures applies == old(applies) + 1
      ensures snapshot.Some? ==> old(state).policy <= snapshot.value.policy <= state.policy
      ensures snapshot.Some? ==>
                && |old(history)| - 1 <= at && at + 1 < |history|
                && Accepted(history[at], command) && history[at + 1] == Applied(history[at], command)
      ensures CalmApply(script) && Accepted(old(state), command) ==>
                state == Applied(old(state), command) && snapshot == Some(SnapshotOf(state))
    {
      applies, at := applies + 1, 0;
      Elsewhere(script.before);
      if script.fails || !Accepted(state, command) {
        return None, 0;
      }
      at := |history| - 1;
      WriteFollows(state, Write.Apply(command));
      FollowsTransitive(old(state), state, Applied(state, command));
      Put(Applied(state, command));
      label committed:
      ghost var readAt;
      snapshot, readAt := Load(script.answer);
      FollowsTransitive(old(state), old@committed(state), state);
      assert snapshot.Some? ==> Follows(history[readAt], history[|history| - 1]);
    }
  }

  // ---------------------------------------------------------------------
  // What a reload without disturbance does to the durable state
  // ---------------------------------------------------------------------

  ghost function CompiledFor(d: Durable): seq<Rule> {
    Compiled(RosterOf(d), Listed(d.grants), d.rules)
  }

  /** The compiled list is never nil, but an empty stored list is read as nil: then the two differ. */
  predicate Differs(compiled: seq<Rule>, stored: seq<Rule>) {
    compiled != stored || stored == []
  }

  function ReloadCommand(source: nat, policy: nat, compiled: seq<Rule>): Command {
    Command(source, policy, if source == 0 && compiled != [] then MembershipChanged else PolicyChanged,
            None, Some(compiled))
  }

  ghost function AfterPersist(d: Durable, compiled: seq<Rule>): Durable {
    if Differs(compiled, d.rules) then Applied(d, ReloadCommand(d.source, d.policy, compiled)) else d
  }

  ghost function Settled(d: Durable): Durable {
    AfterPersist(d, CompiledFor(d))
  }

  ghost function Mutated(d: Durable, change: Change): Durable {
    Applied(d, Command(d.source, d.policy, PolicyChanged, None, Changed(d.rules, change)))
  }

  ghost function Refreshed(d: Durable): Durable {
    Applied(d, Command(d.source, d.policy, PolicyChanged, None, Some(CompiledFor(d))))
  }

  /** How many applies a calm reload issues. */
  ghost function ReloadApplies(d: Durable): nat {
    if Differs(CompiledFor(d), d.rules) then 1 else 0
  }

  /**
   * What a calm reload, a calm refresh and a calm edit leave: members and grants as they
   * were, and one policy version more for every write.  Only the first compilation that
   * finds anything to compile also starts the source version.
   */
  lemma CalmWritesMean(d: Durable, change: Change)
    ensures Settled(d).rules == Refreshed(d).rules == CompiledFor(d)
    ensures forall d' :: d' in {Settled(d), Refreshed(d), Mutated(d, change)} ==>
              d'.teams == d.teams && d'.grants == d.grants
    ensures if CompiledFor(d) == d.rules && d.rules != [] then Settled(d) == d
            else
              && Settled(d).policy == d.policy + 1
              && Settled(d).source == if d.source == 0 && CompiledFor(d) != [] then 1 else d.source
    ensures Refreshed(d).policy == Mutated(d, change).policy == d.policy + 1
    ensures Refreshed(d).source == Mutated(d, change).source == d.source
  {
  }

  /** A state that holds compiled rules compiles to the same rules. */
  lemma CompiledForStored(d: Durable, d': Durable)
    requires d'.teams == d.teams && d'.grants == d.grants && d'.rules == CompiledFor(d)
    ensures CompiledFor(d') == CompiledFor(d)
  {
    CompiledIsFixpoint(RosterOf(d), Listed(d.grants), d.rules);
  }

  /** Nothing to compile: no members, and no stored rule of a preserved kind. */
  ghost predicate NothingToCompile(d: Durable) {
    && RosterOf(d) == []
    && forall rule :: rule in d.rules ==> !IsServiceBinding(rule) && !IsForeignPermission(Listed(d.grants), rule)
  }

  lemma NothingIsCompiled(d: Durable)
    requires NothingToCompile(d)
    ensures CompiledFor(d) == []
  {
    var compiled := CompiledFor(d);
    if compiled != [] {
      var rule := compiled[0];
      assert rule in compiled;
      CompiledByFields(RosterOf(d), Listed(d.grants), d.rules, rule);
    }
  }

  /**
   * The compiled list is empty exactly when there is nothing to compile: every member
   * has at least its role binding.
   */
  lemma CompiledIsEmptyIff(d: Durable)
    ensures CompiledFor(d) == [] <==> NothingToCompile(d)
  {
    var roster, grants := RosterOf(d), Listed(d.grants);
    if NothingToCompile(d) {
      NothingIsCompiled(d);
    } else if roster != [] {
      var rule := RoleBinding(roster[0].user, roster[0].role, roster[0].org);
      CompiledByFields(roster, grants, d.rules, rule);
      assert rule in CompiledFor(d);
    } else {
      var rule :| rule in d.rules && (IsServiceBinding(rule) || IsForeignPermission(grants, rule));
      CompiledByFields(roster, grants, d.rules, rule);
      assert rule in CompiledFor(d);
    }
  }

  /**
   * A second reload issues no apply exactly when there is something to compile.  An
   * empty list is written again by every reload.
   */
  lemma SecondReloadApplies(d: Durable)
    ensures CompiledFor(Settled(d)) == CompiledFor(d) == Settled(d).rules
    ensures ReloadApplies(Settled(d)) == 0 <==> CompiledFor(d) != []
    ensures ReloadApplies(Settled(d)) == 0 <==> !NothingToCompile(d)
  {
    if Differs(CompiledFor(d), d.rules) {
      CompiledForStored(d, Settled(d));
    }
    CompiledIsEmptyIff(d);
  }

  /**
   * After a refresh has written the compiled rules, the reload that follows finds
   * nothing to do unless they are empty.
   */
  lemma RefreshThenReload(d: Durable)
    ensures Settled(Refreshed(d)).rules == CompiledFor(d)
    ensures ReloadApplies(Refreshed(d)) == if CompiledFor(d) == [] then 1 else 0
    ensures ReloadApplies(Refreshed(d)) == if NothingToCompile(d) then 1 else 0
  {
    CompiledForStored(d, Refreshed(d));
    SecondReloadApplies(Refreshed(d));
    CompiledIsEmptyIff(d);
  }

  /** With no organization and no rule there is nothing to compile, and a reload writes all the same. */
  lemma EmptyPolicyIsRewritten(source: nat, policy: nat)
    ensures var d := Durable(source, policy, map[], [], []);
            CompiledFor(d) == [] && ReloadApplies(d) == 1 && ReloadApplies(Settled(d)) == 1
  {
    var d := Durable(source, policy, map[], [], []);
    SecondReloadApplies(d);
  }

  // ---------------------------------------------------------------------
  // The enforcer
  // ---------------------------------------------------------------------

  datatype Change = AddRule(rule: Rule) | RemoveBinding(user: string, role: string, domain: string)

  function NotBinding(user: string, role: string, domain: string): Rule -> bool {
    (rule: Rule) => !(rule.ptype == "g" && rule.v0 == user && rule.v1 == role && rule.v2 == domain)
  }

  /** Filtering a nil list gives a nil list, which an apply takes as no change to the rules. */
  function Changed(rules: seq<Rule>, change: Change): Option<seq<Rule>> {
    match change
    case AddRule(rule) => Some(rules + [rule])
    case RemoveBinding(user, role, domain) =>
      if rules == [] then None else Some(Lists.Filter(rules, NotBinding(user, role, domain)))
  }

  /** Adding a rule leaves all others, in order; removing a binding leaves all but the equal ones. */
  lemma EditTouchesOneRule(d: Durable, rule: Rule, user: string, role: string, domain: string)
    ensures Mutated(d, AddRule(rule)) == d.(rules := d.rules + [rule], policy := d.policy + 1)
    ensures var d' := Mutated(d, RemoveBinding(user, role, domain));
            && d' == d.(rules := d'.rules, policy := d.policy + 1)
            && d'.rules == Lists.Filter(d.rules, (r: Rule) => (r.ptype, r.v0, r.v1, r.v2) != ("g", user, role, domain))
  {
    var keep := (r: Rule) => (r.ptype, r.v0, r.v1, r.v2) != ("g", user, role, domain);
    assert forall r :: keep(r) == NotBinding(user, role, domain)(r);
    Lists.FilterSame(d.rules, keep, NotBinding(user, role, domain));
  }

  ghost predicate AskedFor(d: Durable, rule: Rule) {
    exists m :: m in RosterOf(d) && rule in MemberRules(m, Listed(d.grants))
  }

  /**
   * An added rule is in force after the reload exactly when a member asks for it anyway
   * or it is of a preserved kind.
   */
  lemma AddedRuleStaysIff(d: Durable, rule: Rule)
    ensures rule in CompiledFor(Mutated(d, AddRule(rule))) <==>
            || AskedFor(d, rule)
            || IsServiceBinding(rule) || IsForeignPermission(Listed(d.grants), rule)
  {
    InCompiled(RosterOf(d), Listed(d.grants), d.rules + [rule], rule);
    PreservedByFields(Listed(d.grants), rule);
  }

  /** A role binding added for somebody who is neither a member nor a service is gone after the reload. */
  lemma AddedBindingIsDropped(source: nat, policy: nat, user: string, role: string, org: string)
    requires !HasPrefix(user, SERVICE_PREFIX)
    ensures var d, rule := Durable(source, policy, map[], [], []), RoleBinding(user, role, org);
            rule !in CompiledFor(Mutated(d, AddRule(rule)))
  {
    var d, rule := Durable(source, policy, map[], [], []), RoleBinding(user, role, org);
    AddedRuleStaysIff(d, rule);
  }

  /** A removed binding is gone after the reload exactly when no membership asks for it. */
  lemma RemovedBindingIsGoneIff(d: Durable, user: string, role: string, domain: string)
    ensures var rule := RoleBinding(user, role, domain);
            rule !in CompiledFor(Mutated(d, RemoveBinding(user, role, domain))) <==> !AskedFor(d, rule)
  {
    var rule := RoleBinding(user, role, domain);
    var d' := Mutated(d, RemoveBinding(user, role, domain));
    assert !NotBinding(user, role, domain)(rule);
    InCompiled(RosterOf(d), Listed(d.grants), d'.rules, rule);
  }

  /** Not before the state `from`, the state `i` was edited into the next one. */
  ghost predicate Edits(history: seq<Durable>, from: int, i: nat, change: Change) {
    from <= i && i + 1 < |history| && history[i + 1] == Mutated(history[i], change)
  }

  /** A command that was accepted had read the rules it edits. */
  lemma AcceptedEdits(history: seq<Durable>, readAt: nat, at: nat, snapshot: Snapshot, change: Change)
    requires readAt <= at && at + 1 < |history| && Follows(history[readAt], history[at])
    requires snapshot.rules == history[readAt].rules
    requires snapshot.source <= history[readAt].source && snapshot.policy <= history[readAt].policy
    requires var command := Command(snapshot.source, snapshot.policy, PolicyChanged, None,
                                    Changed(snapshot.rules, change));
             Accepted(history[at], command) && history[at + 1] == Applied(history[at], command)
    ensures history[at + 1] == Mutated(history[at], change)
  {
  }

  datatype Denial = InvalidActorContext | PolicyUnavailable | PermissionDenied

  class Enforcer {
    const store: AuthorizationStore
    var inForce: seq<Rule>
    var policyHealthy: bool
    var policyVersion: nat
    ghost var loadedAt: nat

    /** A healthy enforcer has the rules of a durable state no older than the version it reports. */
    ghost predicate Valid()
      reads this, store
    {
      && store.Valid() && policyVersion <= store.state.policy
      && (policyHealthy ==>
            && loadedAt < |store.history| && store.history[loadedAt].rules == inForce
            && policyVersion <= store.history[loadedAt].policy)
    }

    constructor (store: AuthorizationStore)
      requires store.Valid()
      ensures Valid() && this.store == store && !policyHealthy
    {
      this.store := store;
      inForce, policyHealthy, policyVersion, loadedAt := [], false, 0, 0;
    }

    /** Others write between two calls. */
    method Elsewhere(writes: seq<Write>)
      requires Valid()
      modifies store`state, store`history
      ensures Valid() && old(store.history) <= store.history && Follows(old(store.state), store.state)
    {
      store.Elsewhere(writes);
    }

    method SetPolicyUnavailable(version: nat)
      requires Valid() && version <= store.state.policy
      modifies this`policyHealthy, this`policyVersion
      ensures Valid() && !policyHealthy && policyVersion == version
    {
      policyHealthy := false;
      policyVersion := version;
    }

    /** The last step of a reload: read the rules and put them in force. */
    method Adopt(version: nat, script: LoadScript) returns (ok: bool)
      requires Valid() && version <= store.state.policy
      modifies this, store`state, store`history
      ensures Valid() && old(store.history) <= store.history && Follows(old(store.state), store.state)
      ensures ok == policyHealthy && policyVersion == if ok then version else old(policyVersion)
      ensures ok ==> |old(store.history)| - 1 <= loadedAt
      ensures !ok ==> inForce == old(inForce)
      ensures CalmLoad(script) ==> ok && store.state == old(store.state) && inForce == store.state.rules
    {
      var snapshot, at := store.Load(script);
      if snapshot.None? {
        policyHealthy := false;
        return false;
      }
      inForce, policyHealthy, policyVersion, loadedAt := snapshot.value.rules, true, version, at;
      return true;
    }

    /** Read the durable state and compile the membership, grants and rules that were read. */
    method LoadCompiled(load: LoadScript, script: RosterScript)
      returns (durable: Option<Snapshot>, rules: Option<seq<Rule>>)
      requires Valid()
      modifies store`state, store`history
      ensures Valid() && old(store.history) <= store.history && Follows(old(store.state), store.state)
      ensures durable.Some? ==> old(store.state).policy <= durable.value.policy <= store.state.policy
      ensures rules.Some? ==> durable.Some?
      ensures CalmLoad(load) && CalmRoster(script) ==>
                && store.state == old(store.state)
                && durable == Some(SnapshotOf(store.state)) && rules == Some(CompiledFor(store.state))
    {
      var snapshot, _ := store.Load(load);
      if snapshot.None? {
        return None, None;
      }
      var roster := store.ReadRoster(script);
      if roster.None? {
        return snapshot, None;
      }
      return snapshot, Some(Compiled(roster.value, snapshot.value.grants, snapshot.value.rules));
    }

    /** Persist the compiled rules when they differ from the ones read; the version that is then current. */
    method Persist(durable: Snapshot, rules: seq<Rule>, script: ApplyScript) returns (version: Option<nat>)
      requires Valid() && durable.policy <= store.state.policy
      modifies store
      ensures Valid() && old(store.history) <= store.history && Follows(old(store.state), store.state)
      ensures version.Some? ==> durable.policy <= version.value <= store.state.policy
      ensures CalmApply(script) && durable == SnapshotOf(old(store.state)) ==>
                && store.state == AfterPersist(old(store.state), rules) && version == Some(store.state.policy)
                && store.applies == old(store.applies) + if Differs(rules, durable.rules) then 1 else 0
    {
      version := Some(durable.policy);
      if Differs(rules, durable.rules) {
        var updated, _ := store.Apply(ReloadCommand(durable.source, durable.policy, rules), script);
        version := if updated.None? then None else Some(updated.value.policy);
      }
    }

    method Reload(script: ReloadScript) returns (ok: bool)
      requires Valid()
      modifies this, store
      ensures Valid() && old(store.history) <= store.history && Follows(old(store.state), store.state)
      ensures ok == policyHealthy && old(policyVersion) <= policyVersion
      ensures ok ==> old(store.state).policy <= policyVersion && |old(store.history)| - 1 <= loadedAt
      ensures !ok ==> inForce == old(inForce)
      ensures CalmReload(script) ==>
                && ok && store.state == Settled(old(store.state))
                && inForce == store.state.rules && policyVersion == store.state.policy
                && store.applies == old(store.applies) + ReloadApplies(old(store.state))
    {
      var durable, rules := LoadCompiled(script.load, script.roster);
      if durable.None? {
        SetPolicyUnavailable(policyVersion);
        return false;
      }
      if rules.None? {
        SetPolicyUnavailable(durable.value.policy);
        return false;
      }
      var version := Persist(durable.value, rules.value, script.apply);
      if version.None? {
        SetPolicyUnavailable(durable.value.policy);
        return false;
      }
      ok := Adopt(version.value, script.adopt);
    }

    /** Compile, and persist the rules whether they changed or not. */
    method Rewrite(load: LoadScript, roster: RosterScript, apply: ApplyScript) returns (ok: bool)
      requires Valid()
      modifies store
      ensures Valid() && old(store.history) <= store.history && Follows(old(store.state), store.state)
      ensures CalmLoad(load) && CalmRoster(roster) && CalmApply(apply) ==>
                ok && store.state == Refreshed(old(store.state)) && store.applies == old(store.applies) + 1
    {
      var durable, rules := LoadCompiled(load, roster);
      if rules.None? {
        return false;
      }
      var updated, _ := store.Apply(
        Command(durable.value.source, durable.value.policy, PolicyChanged, None, rules), apply);
      return updated.Some?;
    }

    /** Compile, persist unconditionally, then reload.  Until the reload starts, a failure changes nothing here. */
    method RefreshPolicies(script: RefreshScript) returns (version: nat, ok: bool)
      requires Valid()
      modifies this, store
      ensures Valid() && old(store.history) <= store.history && Follows(old(store.state), store.state)
      ensures version == policyVersion && old(policyVersion) <= policyVersion
      ensures ok ==> policyHealthy && old(store.state).policy <= policyVersion && |old(store.history)| - 1 <= loadedAt
      ensures !ok ==> inForce == old(inForce)
      ensures !ok && policyHealthy ==> old(policyHealthy) && policyVersion == old(policyVersion)
      ensures CalmRefresh(script) ==>
                && ok && inForce == store.state.rules == CompiledFor(old(store.state))
                && policyVersion == store.state.policy
                && store.applies == old(store.applies) + if CompiledFor(old(store.state)) == [] then 2 else 1
    {
      var written := Rewrite(script.load, script.roster, script.apply);
      if !written {
        return policyVersion, false;
      }
      ok := Reload(script.reload);
      version := policyVersion;
      RefreshThenReload(old(store.state));
    }

    /** Edit the stored rules; if that succeeds, the edit was applied to the state `at`, whatever others wrote. */
    method Edit(change: Change, load: LoadScript, apply: ApplyScript) returns (ok: bool, ghost at: nat)
      requires Valid()
      modifies store
      ensures Valid() && old(store.history) <= store.history && Follows(old(store.state), store.state)
      ensures ok ==> Edits(store.history, |old(store.history)| - 1, at, change)
      ensures CalmLoad(load) && CalmApply(apply) ==> ok && store.state == Mutated(old(store.state), change)
    {
      var loaded, readAt := store.Load(load);
      if loaded.None? {
        return false, 0;
      }
      var durable := loaded.value;
      ghost var before := store.history;
      var updated, applied := store.Apply(
        Command(durable.source, durable.policy, PolicyChanged, None, Changed(durable.rules, change)), apply);
      if updated.None? {
        return false, 0;
      }
      assert store.history[readAt] == before[readAt];
      assert readAt <= applied && Follows(store.history[readAt], store.history[applied]);
      AcceptedEdits(store.history, readAt, applied, durable, change);
      return true, applied;
    }

    /** Edit the stored rules, then reload, which compiles them again. */
    method MutateRules(change: Change, load: LoadScript, apply: ApplyScript, reload: ReloadScript)
      returns (ok: bool, ghost at: nat)
      requires Valid()
      modifies this, store
      ensures Valid() && old(store.history) <= store.history && Follows(old(store.state), store.state)
      ensures old(policyVersion) <= policyVersion
      ensures ok ==> policyHealthy && old(store.state).policy <= policyVersion && |old(store.history)| - 1 <= loadedAt
      ensures ok ==> Edits(store.history, |old(store.history)| - 1, at, change)
      ensures !ok ==> inForce == old(inForce)
      ensures !ok && policyHealthy ==> old(policyHealthy) && policyVersion == old(policyVersion)
      ensures CalmLoad(load) && CalmApply(apply) && CalmReload(reload) ==>
                ok && inForce == store.state.rules == CompiledFor(Mutated(old(store.state), change))
    {
      var edited, editedAt := Edit(change, load, apply);
      if !edited {
        return false, 0;
      }
      ghost var before := store.history;
      at := editedAt;
      ok := Reload(reload);
      assert store.history[at] == before[at] && store.history[at + 1] == before[at + 1];
      SecondReloadApplies(Mutated(old(store.state), change));
    }

    /** No request is allowed but by the rules in force, and those only while the enforcer is healthy. */
    method Enforce(sub: string, dom: string, obj: string, act: string) returns (denial: Option<Denial>)
      requires Valid()
      ensures denial.None? <==>
                && sub != "" && dom != "" && obj != "" && act != ""
                && policyHealthy && Allows(inForce, sub, dom, obj, act)
      ensures denial.None? ==>
                exists i :: && 0 <= i < |store.history| && policyVersion <= store.history[i].policy
                            && Allows(store.history[i].rules, sub, dom, obj, act)
    {
      if sub == "" || dom == "" || obj == "" || act == "" {
        return Some(InvalidActorContext);
      }
      var healthy := policyHealthy;
      var allowed := Allows(inForce, sub, dom, obj, act);
      if !healthy {
        return Some(PolicyUnavailable);
      }
      if !allowed {
        return Some(PermissionDenied);
      }
      assert Allows(store.history[loadedAt].rules, sub, dom, obj, act);
      return None;
    }
  }
}
