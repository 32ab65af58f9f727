/**
 * Setting a capability grant: a bounded compare-and-swap loop that many callers
 * run at once, beside membership changes and policy reloads.
 *
 * Every run is shown to be a serial one: the stored grants are always what the
 * committed updates give when applied one after the other, so no update is lost,
 * and every commit leaves rules that match the membership at that moment.
 */
module CapabilityGrants {
  import opened Common
  import opened PolicyTypes
  import opened PolicyCompiler
  import opened PolicyStore

  // ---------------------------------------------------------------------
  // The update of one grant list
  // ---------------------------------------------------------------------

  /** A zero creation time is filled in. */
  function Stamp(update: Grant, time: int): Grant {
    if update.createdAt == 0 then update.(createdAt := time) else update
  }

  datatype Walked = Walked(result: seq<Grant>, update: Grant, found: bool)

  /** The state of the walk over the grants seen so far. */
  function Walk(grants: seq<Grant>, update: Grant): Walked {
    if grants == [] then Walked([], update, false) else
    var n := |grants| - 1;
    var w := Walk(grants[..n], update);
    if KeyOf(grants[n]) == KeyOf(w.update) then
      var stamped := Stamp(w.update, grants[n].createdAt);
      Walked(w.result + [stamped], stamped, true)
    else
      Walked(w.result + [grants[n]], w.update, w.found)
  }

  function Upserted(grants: seq<Grant>, update: Grant): seq<Grant> {
    var w := Walk(grants, update);
    if w.found then w.result else w.result + [Stamp(w.update, w.update.updatedAt)]
  }

  method UpsertCapabilityGrant(grants: seq<Grant>, change: Grant) returns (result: seq<Grant>)
    ensures result == Upserted(grants, change)
  {
    var update, found := change, false;
    result := [];
    for i := 0 to |grants|
      invariant Walked(result, update, found) == Walk(grants[..i], change)
    {
      assert grants[..i + 1][..i] == grants[..i];
      if KeyOf(grants[i]) == KeyOf(update) {
        if update.createdAt == 0 {
          update := update.(createdAt := grants[i].createdAt);
        }
        result := result + [update];
        found := true;
        continue;
      }
      result := result + [grants[i]];
    }
    assert grants[..|grants|] == grants;
    if !found {
      if update.createdAt == 0 {
        update := update.(createdAt := update.updatedAt);
      }
      result := result + [update];
    }
  }

  /** The same update on the table: one key is set, its creation time survives. */
  function Merged(table: map<GrantKey, Grant>, update: Grant): map<GrantKey, Grant> {
    var key := KeyOf(update);
    table[key := update.(createdAt := if update.createdAt != 0 then update.createdAt
                                      else if key in table then table[key].createdAt else update.updatedAt)]
  }

  /** The walk replaces grants in place, so it keeps the keys in order. */
  lemma {:induction false} WalkKeepsKeys(grants: seq<Grant>, update: Grant)
    ensures var w := Walk(grants, update);
            && |w.result| == |grants| && KeyOf(w.update) == KeyOf(update)
            && forall i :: 0 <= i < |grants| ==> KeyOf(w.result[i]) == KeyOf(grants[i])
  {
    if grants != [] {
      var n := |grants| - 1;
      WalkKeepsKeys(grants[..n], update);
    }
  }

  /** Setting another key first or last makes no difference to an update. */
  lemma MergeBesides(table: map<GrantKey, Grant>, update: Grant, g: Grant)
    requires KeyOf(g) != KeyOf(update)
    ensures Merged(table[KeyOf(g) := g], update) == Merged(table, update)[KeyOf(g) := g]
  {
  }

  /** Updating a key that was just set keeps nothing of it but its creation time. */
  lemma MergeOver(table: map<GrantKey, Grant>, update: Grant, g: Grant)
    requires KeyOf(g) == KeyOf(update)
    ensures Merged(table[KeyOf(g) := g], update) == table[KeyOf(g) := Stamp(update, g.createdAt)]
  {
  }

  /** What the walk means for the table, before an update that was not found is appended. */
  lemma {:induction false} WalkTable(grants: seq<Grant>, update: Grant)
    requires DistinctKeys(grants)
    ensures var w, table := Walk(grants, update), TableOf(grants);
            && (w.found <==> KeyOf(update) in table)
            && (!w.found ==> w.update == update)
            && TableOf(w.result) == if w.found then Merged(table, update) else table
  {
    if grants != [] {
      var n := |grants| - 1;
      var g, w := grants[n], Walk(grants[..n], update);
      LastKeyIsNew(grants);
      WalkTable(grants[..n], update);
      WalkKeepsKeys(grants[..n], update);
      ghost var front := TableOf(grants[..n]);
      if KeyOf(g) == KeyOf(update) {
        TableAppend(w.result, Stamp(update, g.createdAt));
        MergeOver(front, update, g);
      } else {
        TableAppend(w.result, g);
        MergeBesides(front, update, g);
      }
    }
  }

  lemma UpsertKeepsKeysDistinct(grants: seq<Grant>, update: Grant)
    requires DistinctKeys(grants)
    ensures DistinctKeys(Upserted(grants, update))
  {
    WalkKeepsKeys(grants, update);
    WalkTable(grants, update);
    var result := Upserted(grants, update);
    if !Walk(grants, update).found {
      forall i | 0 <= i < |grants| ensures KeyOf(result[i]) != KeyOf(result[|grants|]) {
        TableHolds(grants, i);
      }
    }
  }

  /** On a list without duplicate keys the walk sets exactly one key and keeps every other grant. */
  lemma UpsertIsMerge(grants: seq<Grant>, update: Grant)
    requires DistinctKeys(grants)
    ensures DistinctKeys(Upserted(grants, update))
    ensures TableOf(Upserted(grants, update)) == Merged(TableOf(grants), update)
  {
    UpsertKeepsKeysDistinct(grants, update);
    WalkTable(grants, update);
    var w := Walk(grants, update);
    TableAppend(w.result, Stamp(w.update, w.update.updatedAt));
  }

  // ---------------------------------------------------------------------
  // Many callers over one store
  // ---------------------------------------------------------------------

  type Caller = nat

  const MAX_ATTEMPTS: nat := 3

  /** Where a caller stands in its loop, and what it has read in this attempt. */
  datatype Progress =
    | Trying(attempt: nat)
    | SawSource(attempt: nat, source: nat)
    | SawVersions(attempt: nat, source: nat, policy: nat)
    | SawGrants(attempt: nat, source: nat, policy: nat, grants: seq<Grant>)
    | SawRules(attempt: nat, source: nat, policy: nat, grants: seq<Grant>, rules: seq<Rule>)
    | SawTeams(attempt: nat, source: nat, policy: nat, grants: seq<Grant>, rules: seq<Rule>,
               count: nat, teams: seq<seq<Member>>)
    | Committed
    | Unreported
    | Aborted

  type Compiler = (seq<Member>, seq<Grant>, seq<Rule>) -> seq<Rule>

  /** `log` lists the committed updates in the order they took effect. */
  datatype System = System(durable: Durable, callers: map<Caller, Progress>, updates: map<Caller, Grant>,
                           compile: Compiler, initial: map<GrantKey, Grant>, log: seq<Caller>)

  /** A call to the store succeeds, fails, or commits without telling. */
  datatype Luck = Fine | Fails | AnswerLost

  /** A step of one caller, or a write by anyone else that leaves the grants alone. */
  datatype Step = Advance(caller: Caller, luck: Luck) | Environment(write: Write)

  ghost predicate EnvironmentWrite(w: Write) {
    w.Apply? ==> w.command.grants.None?
  }

  /** Everything has been read: the organizations first, then the members of each. */
  ghost predicate HasRead(p: Progress) {
    p.SawTeams? && |p.teams| >= p.count
  }

  /** The command a caller sends after reading everything. */
  ghost function CommandOf(s: System, c: Caller): Command
    requires c in s.callers && c in s.updates && s.callers[c].SawTeams?
  {
    var p := s.callers[c];
    var grants := Upserted(p.grants, s.updates[c]);
    Command(p.source, p.policy, GrantChanged, Some(grants), Some(s.compile(Flatten(p.teams), grants, p.rules)))
  }

  /** The caller's compare-and-swap goes through. */
  ghost predicate Commits(s: System, c: Caller) {
    c in s.callers && c in s.updates && HasRead(s.callers[c]) && Accepted(s.durable, CommandOf(s, c))
  }

  /** Reading the members of an organization; of one that is not there any more there are none. */
  ghost function TeamAt(d: Durable, i: nat): seq<Member> {
    if i < |d.teams| then d.teams[i] else []
  }

  /** A step that writes nothing: the next read, a refused attempt, or giving up. */
  ghost function Moved(d: Durable, p: Progress): Progress {
    match p
    case Trying(k) => if k >= MAX_ATTEMPTS then Aborted else SawSource(k, d.source)
    case SawSource(k, v) => SawVersions(k, v, d.policy)
    case SawVersions(k, v, q) => SawGrants(k, v, q, Listed(d.grants))
    case SawGrants(k, v, q, grants) => SawRules(k, v, q, grants, d.rules)
    case SawRules(k, v, q, grants, rules) => SawTeams(k, v, q, grants, rules, |d.teams|, [])
    case SawTeams(k, v, q, grants, rules, count, teams) =>
      if |teams| >= count then Trying(k + 1)
      else SawTeams(k, v, q, grants, rules, count, teams + [TeamAt(d, |teams|)])
    case _ => p
  }

  predicate IsDone(p: Progress) {
    p == Committed || p == Unreported
  }

  ghost function Advanced(s: System, c: Caller, luck: Luck): System
    requires c in s.callers && c in s.updates
  {
    if Commits(s, c) && luck != Fails
    then s.(durable := Applied(s.durable, CommandOf(s, c)),
            callers := s.callers[c := if luck == AnswerLost then Unreported else Committed], log := s.log + [c])
    else if luck == Fails && !IsDone(s.callers[c]) then s.(callers := s.callers[c := Aborted])
    else s.(callers := s.callers[c := Moved(s.durable, s.callers[c])])
  }

  ghost predicate Next(s: System, step: Step, s': System) {
    match step
    case Advance(c, luck) => c in s.callers && c in s.updates && s' == Advanced(s, c, luck)
    case Environment(w) => EnvironmentWrite(w) && s' == s.(durable := AfterWrite(s.durable, w))
  }

  ghost predicate Init(s: System) {
    && s.updates.Keys == s.callers.Keys
    && (forall c :: c in s.callers ==> s.callers[c] == Trying(0))
    && s.compile == Compiled
    && s.initial == s.durable.grants && s.log == [] && Keyed(s.durable)
  }

  /** The teams read so far are those of the state, and those that were not listed are empty. */
  ghost predicate TeamsCurrent(d: Durable, count: nat, teams: seq<seq<Member>>) {
    && |teams| <= count <= |d.teams| && (forall i :: count <= i < |d.teams| ==> d.teams[i] == [])
    && forall i :: 0 <= i < |teams| ==> teams[i] == d.teams[i]
  }

  /** What a caller has read is current as long as the versions it read are. */
  ghost predicate Current(d: Durable, p: Progress) {
    match p
    case SawSource(_, v) => v <= d.source
    case SawVersions(_, v, q) => v <= d.source && q <= d.policy
    case SawGrants(_, v, q, grants) =>
      v <= d.source && q <= d.policy && (v == d.source && q == d.policy ==> grants == Listed(d.grants))
    case SawRules(_, v, q, grants, rules) =>
      v <= d.source && q <= d.policy &&
      (v == d.source && q == d.policy ==> grants == Listed(d.grants) && rules == d.rules)
    case SawTeams(_, v, q, grants, rules, count, teams) =>
      v <= d.source && q <= d.policy &&
      (v == d.source && q == d.policy ==>
         grants == Listed(d.grants) && rules == d.rules && TeamsCurrent(d, count, teams))
    case _ => true
  }

  /** The committed updates, applied one after the other. */
  ghost function Replayed(initial: map<GrantKey, Grant>, updates: map<Caller, Grant>,
                          log: seq<Caller>): map<GrantKey, Grant>
    requires forall i :: 0 <= i < |log| ==> log[i] in updates
  {
    if log == [] then initial else
    var n := |log| - 1;
    Merged(Replayed(initial, updates, log[..n]), updates[log[n]])
  }

  ghost predicate Inv(s: System) {
    && s.updates.Keys == s.callers.Keys && Keyed(s.durable)
    && (forall c :: c in s.callers ==> Current(s.durable, s.callers[c]))
    && (forall i :: 0 <= i < |s.log| ==> s.log[i] in s.updates)
    && s.durable.grants == Replayed(s.initial, s.updates, s.log)
    && Distinct(s.log)
    && (forall c :: c in s.log <==> c in s.callers && IsDone(s.callers[c]))
  }

  lemma InitEstablishesInv(s: System)
    requires Init(s)
    ensures Inv(s)
  {
  }

  lemma CurrentAfter(d: Durable, later: Durable, p: Progress)
    requires Current(d, p) && Follows(d, later)
    ensures Current(later, p)
  {
  }

  /** Updating a listing of a table updates the table. */
  lemma UpsertListed(table: map<GrantKey, Grant>, update: Grant)
    requires forall key :: key in table ==> KeyOf(table[key]) == key
    ensures DistinctKeys(Upserted(Listed(table), update))
    ensures TableOf(Upserted(Listed(table), update)) == Merged(table, update)
  {
    ListedOnce(table);
    UpsertIsMerge(Listed(table), update);
  }

  /** A command that goes through was computed from the state it changes. */
  lemma CommandIsCurrent(s: System, c: Caller)
    requires Inv(s) && Commits(s, c)
    ensures var d, grants := s.durable, Upserted(Listed(s.durable.grants), s.updates[c]);
            CommandOf(s, c) ==
            Command(d.source, d.policy, GrantChanged, Some(grants), Some(s.compile(RosterOf(d), grants, d.rules)))
  {
    var p := s.callers[c];
    assert Current(s.durable, p);
    GrownRoster(p.teams, s.durable.teams);
  }

  /** A commit applies the caller's update to the grants, and compiles for the membership, of that moment. */
  lemma CommitIsSerial(s: System, c: Caller, luck: Luck)
    requires Inv(s) && Commits(s, c) && luck != Fails
    ensures var d, d', u := s.durable, Advanced(s, c, luck).durable, s.updates[c];
            && d'.grants == Merged(d.grants, u)
            && d'.teams == d.teams
            && d'.rules == s.compile(RosterOf(d), Upserted(Listed(d.grants), u), d.rules)
            && d'.source == d.source + 1 && d'.policy == d.policy + 1
  {
    CommandIsCurrent(s, c);
    UpsertListed(s.durable.grants, s.updates[c]);
  }

  /** A caller that read current data is never refused for a duplicate key. */
  lemma CurrentCommandIsAccepted(s: System, c: Caller)
    requires Inv(s) && c in s.callers && HasRead(s.callers[c])
    requires s.callers[c].source == s.durable.source && s.callers[c].policy == s.durable.policy
    ensures Commits(s, c)
  {
    UpsertListed(s.durable.grants, s.updates[c]);
  }

  lemma MergedKeepsKeyed(table: map<GrantKey, Grant>, u: Grant)
    requires forall key :: key in table ==> KeyOf(table[key]) == key
    ensures forall key :: key in Merged(table, u) ==> KeyOf(Merged(table, u)[key]) == key
  {
  }

  lemma LogGrows(log: seq<Caller>, callers: map<Caller, Progress>, c: Caller, done: Progress)
    requires Distinct(log) && c in callers && !IsDone(callers[c]) && IsDone(done)
    requires forall b :: b in log <==> b in callers && IsDone(callers[b])
    ensures Distinct(log + [c])
    ensures var callers' := callers[c := done];
            forall b :: b in log + [c] <==> b in callers' && IsDone(callers'[b])
  {
  }

  lemma ReplayedStep(initial: map<GrantKey, Grant>, updates: map<Caller, Grant>, log: seq<Caller>, c: Caller)
    requires c in updates && forall i :: 0 <= i < |log| ==> log[i] in updates
    ensures forall i :: 0 <= i < |log + [c]| ==> (log + [c])[i] in updates
    ensures Replayed(initial, updates, log + [c]) == Merged(Replayed(initial, updates, log), updates[c])
  {
    assert (log + [c])[..|log|] == log;
  }

  lemma CommitKeepsInv(s: System, c: Caller, luck: Luck)
    requires Inv(s) && Commits(s, c) && luck != Fails
    ensures Inv(Advanced(s, c, luck))
  {
    var s' := Advanced(s, c, luck);
    CommitIsSerial(s, c, luck);
    MergedKeepsKeyed(s.durable.grants, s.updates[c]);
    forall b | b in s'.callers ensures Current(s'.durable, s'.callers[b]) {
      CurrentAfter(s.durable, s'.durable, s.callers[b]);
    }
    LogGrows(s.log, s.callers, c, s'.callers[c]);
    ReplayedStep(s.initial, s.updates, s.log, c);
  }

  lemma MovedIsCurrent(d: Durable, p: Progress)
    requires Current(d, p)
    ensures Current(d, Moved(d, p))
    ensures IsDone(Moved(d, p)) <==> IsDone(p)
  {
  }

  lemma ReadKeepsInv(s: System, c: Caller, luck: Luck)
    requires Inv(s) && c in s.callers && (!Commits(s, c) || luck == Fails)
    ensures Inv(Advanced(s, c, luck))
  {
    MovedIsCurrent(s.durable, s.callers[c]);
  }

  lemma EnvironmentKeepsInv(s: System, w: Write)
    requires Inv(s) && EnvironmentWrite(w)
    ensures Inv(s.(durable := AfterWrite(s.durable, w)))
  {
    WriteFollows(s.durable, w);
    WriteKeepsKeyed(s.durable, w);
    forall b | b in s.callers ensures Current(AfterWrite(s.durable, w), s.callers[b]) {
      CurrentAfter(s.durable, AfterWrite(s.durable, w), s.callers[b]);
    }
  }

  lemma NextKeepsInv(s: System, step: Step, s': System)
    requires Inv(s) && Next(s, step, s')
    ensures Inv(s')
  {
    match step
    case Advance(c, luck) =>
      if Commits(s, c) && luck != Fails {
        CommitKeepsInv(s, c, luck);
      } else {
        ReadKeepsInv(s, c, luck);
      }
    case Environment(w) =>
      EnvironmentKeepsInv(s, w);
  }

  /** A run: states joined by steps. */
  ghost predicate Run(states: seq<System>, steps: seq<Step>) {
    && |states| == |steps| + 1 && Init(states[0])
    && forall i :: 0 <= i < |steps| ==> Next(states[i], steps[i], states[i + 1])
  }

  lemma {:induction false} RunKeepsInv(states: seq<System>, steps: seq<Step>, i: nat)
    requires Run(states, steps) && i < |states|
    ensures Inv(states[i])
  {
    if i == 0 {
      InitEstablishesInv(states[0]);
    } else {
      RunKeepsInv(states, steps, i - 1);
      NextKeepsInv(states[i - 1], steps[i - 1], states[i]);
    }
  }

  /**
   * In every run the stored grants are the committed updates applied in commit
   * order; each caller commits at most once, and exactly those did that were told so
   * or whose answer was lost after the commit.
   */
  lemma NoUpdateIsLost(states: seq<System>, steps: seq<Step>, i: nat)
    requires Run(states, steps) && i < |states|
    ensures var s := states[i];
            && s.updates.Keys == s.callers.Keys && (forall k :: 0 <= k < |s.log| ==> s.log[k] in s.updates)
            && s.durable.grants == Replayed(s.initial, s.updates, s.log)
            && Distinct(s.log) && forall c :: c in s.log <==> c in s.callers && IsDone(s.callers[c])
  {
    RunKeepsInv(states, steps, i);
  }

  /** The store answered, and refused the caller's command. */
  ghost predicate Refused(s: System, step: Step, c: Caller) {
    step.Advance? && step.caller == c && step.luck != Fails && c in s.callers && HasRead(s.callers[c]) && !Commits(s, c)
  }

  ghost function Refusals(states: seq<System>, steps: seq<Step>, c: Caller, i: nat): nat
    requires |states| == |steps| + 1 && i <= |steps|
  {
    if i == 0 then 0
    else Refusals(states, steps, c, i - 1) + if Refused(states[i - 1], steps[i - 1], c) then 1 else 0
  }

  ghost predicate Failed(steps: seq<Step>, c: Caller, i: nat)
    requires i <= |steps|
  {
    exists k :: 0 <= k < i && steps[k] == Advance(c, Fails)
  }

  /** The caller's attempts so far, and how it can have ended. */
  ghost predicate Attempts(p: Progress, refusals: nat, failed: bool) {
    if IsDone(p) then refusals < 3
    else if p == Aborted then failed || refusals == 3
    else !failed && p.attempt == refusals && (if p.Trying? then refusals <= 3 else refusals < 3)
  }

  lemma AttemptsStep(s: System, step: Step, s': System, c: Caller, refusals: nat, failed: bool)
    requires Next(s, step, s') && c in s.callers && Attempts(s.callers[c], refusals, failed)
    ensures c in s'.callers
    ensures Attempts(s'.callers[c], refusals + if Refused(s, step, c) then 1 else 0,
                     failed || step == Advance(c, Fails))
  {
    if step.Advance? && step.caller == c {
      assert s'.callers[c] == Advanced(s, c, step.luck).callers[c];
    } else {
      assert s'.callers[c] == s.callers[c];
    }
  }

  /** In every run a caller gives up after three refusals or a failed call, and not before. */
  lemma {:induction false} AttemptsAreRefusals(states: seq<System>, steps: seq<Step>, c: Caller, i: nat)
    requires Run(states, steps) && i <= |steps| && c in states[0].callers
    ensures c in states[i].callers
    ensures Attempts(states[i].callers[c], Refusals(states, steps, c, i), Failed(steps, c, i))
  {
    if i > 0 {
      AttemptsAreRefusals(states, steps, c, i - 1);
      AttemptsStep(states[i - 1], steps[i - 1], states[i], c, Refusals(states, steps, c, i - 1),
                   Failed(steps, c, i - 1));
      assert Failed(steps, c, i) <==> Failed(steps, c, i - 1) || steps[i - 1] == Advance(c, Fails);
    }
  }

  /** Undisturbed, a caller goes on until it is done. */
  ghost function Alone(s: System, c: Caller, n: nat): (last: System)
    requires c in s.callers && c in s.updates
    ensures c in last.callers && c in last.updates
    decreases n
  {
    if n == 0 then s else Alone(Advanced(s, c, Fine), c, n - 1)
  }

  /** After so many reads of one state, the fifth of which lists the organizations. */
  ghost predicate Reading(d: Durable, p: Progress, n: nat) {
    match n
    case 0 => p.Trying? && p.attempt < 3
    case 1 => p.SawSource? && p.source == d.source
    case 2 => p.SawVersions? && p.source == d.source && p.policy == d.policy
    case 3 => p.SawGrants? && p.source == d.source && p.policy == d.policy
    case 4 => p.SawRules? && p.source == d.source && p.policy == d.policy
    case _ =>
      p.SawTeams? && p.source == d.source && p.policy == d.policy && p.count == |d.teams| && 5 + |p.teams| == n
  }

  ghost predicate AtRead(s: System, c: Caller, n: nat) {
    Inv(s) && c in s.callers && Reading(s.durable, s.callers[c], n)
  }

  lemma ReadingStep(s: System, c: Caller, i: nat, n: nat) returns (s': System)
    requires AtRead(s, c, i) && i < 5 + |s.durable.teams| && n > 0
    ensures AtRead(s', c, i + 1) && s'.durable == s.durable && s'.log == s.log
    ensures Alone(s, c, n) == Alone(s', c, n - 1)
  {
    s' := Advanced(s, c, Fine);
    NextKeepsInv(s, Advance(c, Fine), s');
  }

  lemma {:induction false} AloneReads(s: System, c: Caller, i: nat, n: nat, last: System)
    requires AtRead(s, c, i) && i + n == 5 + |s.durable.teams| && last == Alone(s, c, n)
    ensures AtRead(last, c, i + n) && last.durable == s.durable && last.log == s.log
    decreases n
  {
    if n > 0 {
      var s' := ReadingStep(s, c, i, n);
      AloneReads(s', c, i + 1, n - 1, last);
    }
  }

  /**
   * A caller that has an attempt left and is not disturbed commits with its next write,
   * unless that fails; it is told so unless the answer is lost.
   */
  lemma AloneCommits(s: System, c: Caller, luck: Luck)
    requires Inv(s) && c in s.callers && s.callers[c].Trying? && s.callers[c].attempt < 3
    ensures var last := Advanced(Alone(s, c, 5 + |s.durable.teams|), c, luck);
            match luck
            case Fine => last.callers[c] == Committed && last.log == s.log + [c]
            case AnswerLost => last.callers[c] == Unreported && last.log == s.log + [c]
            case Fails => last.callers[c] == Aborted && last.log == s.log && last.durable == s.durable
  {
    var n := 5 + |s.durable.teams|;
    AloneReads(s, c, 0, n, Alone(s, c, n));
    CurrentCommandIsAccepted(Alone(s, c, n), c);
  }

  /** Committing leaves every other key as it was and sets the caller's key to the caller's choice. */
  lemma CommitSetsOneKey(s: System, c: Caller, luck: Luck, key: GrantKey)
    requires Inv(s) && Commits(s, c) && luck != Fails
    ensures var table, table', u := s.durable.grants, Advanced(s, c, luck).durable.grants, s.updates[c];
            if key == KeyOf(u)
            then key in table' && table'[key].revoked == u.revoked && table'[key].grantedBy == u.grantedBy
                 && (key in table && u.createdAt == 0 ==> table'[key].createdAt == table[key].createdAt)
            else (key in table' <==> key in table) && (key in table ==> table'[key] == table[key])
  {
    CommitIsSerial(s, c, luck);
  }

  /** The user is a member of the organization, and is not named like its own role there. */
  ghost predicate HoldsMembership(roster: seq<Member>, org: string, user: string) {
    exists m :: m in roster && m.org == org && m.user == user && m.user != m.role
  }

  /** A table holds the one grant of the list with that key, which decides what is in force. */
  lemma InForceIffStored(roster: seq<Member>, grants: seq<Grant>, key: GrantKey)
    requires DistinctKeys(grants) && key in TableOf(grants)
    ensures Managed(grants, key.org, key.subject, key.action)
    ensures (exists m, g :: m in roster && g in grants && Covers(g, m) && KeyOf(g) == key && m.user != m.role) <==>
            !TableOf(grants)[key].revoked && HoldsMembership(roster, key.org, key.subject)
  {
    var i := TableHasListed(grants, key);
    if !grants[i].revoked && HoldsMembership(roster, key.org, key.subject) {
      var m :| m in roster && m.org == key.org && m.user == key.subject && m.user != m.role;
      assert Covers(grants[i], m);
    }
  }

  /**
   * The compiled rules show a stored grant exactly when it is not revoked and its
   * subject is a member, or a role has the rule.
   */
  lemma RuleIffStored(roster: seq<Member>, grants: seq<Grant>, current: seq<Rule>, key: GrantKey)
    requires DistinctKeys(grants) && key in TableOf(grants)
    ensures var rule := Permission(key.subject, key.org, RELEASE, key.action);
            rule in Compiled(roster, grants, current) <==>
            OfRole(roster, rule) || (!TableOf(grants)[key].revoked && HoldsMembership(roster, key.org, key.subject))
  {
    InForceIffStored(roster, grants, key);
    ManagedRuleIffInForce(roster, grants, current, key);
  }

  /**
   * After a commit, the direct release rule of any stored grant key is there exactly
   * when the grant is not revoked and its subject is a member, or the subject is the
   * name of a role that has this rule and that some member has.
   */
  lemma CommitLeavesNoStaleRule(s: System, c: Caller, luck: Luck, key: GrantKey)
    requires Inv(s) && Commits(s, c) && luck != Fails && s.compile == Compiled
    requires key in Advanced(s, c, luck).durable.grants
    ensures var d', rule := Advanced(s, c, luck).durable, Permission(key.subject, key.org, RELEASE, key.action);
            rule in d'.rules <==>
            || OfRole(RosterOf(d'), rule)
            || (!d'.grants[key].revoked && HoldsMembership(RosterOf(d'), key.org, key.subject))
  {
    var d := s.durable;
    var grants := Upserted(Listed(d.grants), s.updates[c]);
    CommitIsSerial(s, c, luck);
    UpsertListed(d.grants, s.updates[c]);
    RuleIffStored(RosterOf(d), grants, d.rules, key);
  }
}
