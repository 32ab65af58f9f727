/**
 * The consumer of authorization snapshots: a cache per actor and scope, a persisted
 * checkpoint per scope, and rejection of regressions and gaps.
 *
 * This module is the sequential program.  Interleavings are in SnapshotProtocol,
 * over the same assessment and the same guarded save.
 */
module AuthorizationSnapshots {
  import opened Common
  import opened PolicyTypes
  import PolicyAgreement

  const U64: nat := 0x1_0000_0000_0000_0000

  /** An unsigned 64-bit version counter. */
  type Version = v: nat | v < U64

  function Successor(v: Version): Version {
    if v + 1 == U64 then 0 else v + 1
  }

  datatype Scope = Scope(org: string, customer: string)

  datatype Key = Key(actor: string, scope: Scope)

  datatype Snapshot = Snapshot(actor: string, scope: Scope, capabilities: PolicyAgreement.Capabilities,
                               source: Version, policy: Version, checkpoint: Version, isFresh: bool)

  /** A row of the checkpoint table; `source` is the checkpoint of the snapshot that was saved. */
  datatype Checkpoint = Checkpoint(source: Version, policy: Version, isFresh: bool)

  datatype StaleCause =
    | NotFresh | SnapshotRpcError | ScopeMismatch | CheckpointRead | Regression | CheckpointWrite | Gap | Warmup

  predicate IsFor(s: Snapshot, key: Key) {
    s.actor == key.actor && s.scope == key.scope
  }

  // ---------------------------------------------------------------------
  // Judging one answer of the server
  // ---------------------------------------------------------------------

  /** What to do with an answer: refuse it, or save and publish it and report whether it may be used. */
  datatype Assessment =
    | Refused(cause: StaleCause)
    | Taken(save: Checkpoint, publish: Snapshot, stale: Option<StaleCause>)

  predicate Regressed(remote: Snapshot, previous: Checkpoint) {
    remote.source < previous.source || remote.checkpoint < previous.source || remote.policy < previous.policy
  }

  function Assess(key: Key, remote: Snapshot, stored: Option<Checkpoint>): Assessment {
    if !IsFor(remote, key) then Refused(ScopeMismatch)
    else if stored.Some? && Regressed(remote, stored.value) then Refused(Regression)
    else
      var previous: Version := if stored.Some? then stored.value.source else 0;
      var previousPolicy: Version := if stored.Some? then stored.value.policy else 0;
      var changed := previous != remote.checkpoint || previousPolicy != remote.policy;
      var gap := previous > 0 && remote.checkpoint > Successor(previous);
      var isFresh := remote.source > 0 && remote.isFresh && remote.checkpoint >= remote.source && !gap;
      Taken(Checkpoint(remote.checkpoint, remote.policy, isFresh), remote.(isFresh := isFresh),
            if gap then Some(Gap) else if changed then Some(Warmup) else if !isFresh then Some(NotFresh) else None)
  }

  /** The answer may be used as it is. */
  ghost predicate Usable(key: Key, remote: Snapshot, stored: Option<Checkpoint>) {
    Assess(key, remote, stored).Taken? && Assess(key, remote, stored).stale.None?
  }

  /**
   * An answer is usable exactly when it repeats, for this actor and scope, the pair of
   * versions already persisted.  The largest version is never usable: its successor wraps to 0.
   */
  lemma UsableIff(key: Key, remote: Snapshot, stored: Option<Checkpoint>)
    ensures Usable(key, remote, stored) <==>
            && IsFor(remote, key) && remote.isFresh && stored.Some?
            && remote.source == remote.checkpoint == stored.value.source && remote.policy == stored.value.policy
            && 0 < remote.source < U64 - 1
  {
  }

  /**
   * Why an answer for this actor and scope is not used: it is older than what is stored,
   * it skips a version, it is news, or it is not fresh.  The versions that it carries are
   * stored, and it is published as fresh, unless it is older.
   */
  lemma StaleBecause(key: Key, remote: Snapshot, stored: Option<Checkpoint>)
    requires IsFor(remote, key)
    ensures var a, was := Assess(key, remote, stored), if stored.Some? then stored.value else Checkpoint(0, 0, false);
            var older := stored.Some? &&
                         (remote.source < was.source || remote.checkpoint < was.source || remote.policy < was.policy);
            var skips := was.source > 0 && (remote.checkpoint > was.source + 1 || was.source == U64 - 1);
            var isFresh := remote.isFresh && 0 < remote.source <= remote.checkpoint && !skips;
            && (a == Refused(Regression) <==> older) && (a.Refused? <==> older)
            && (a.Taken? ==>
                  && a.save.source == remote.checkpoint && a.save.policy == remote.policy && a.save.isFresh == isFresh
                  && a.publish == remote.(isFresh := isFresh)
                  && (a.stale == Some(Gap) <==> skips)
                  && (a.stale == Some(Warmup) <==>
                      !skips && (remote.checkpoint != was.source || remote.policy != was.policy))
                  && (a.stale == Some(NotFresh) <==>
                      !skips && remote.checkpoint == was.source && remote.policy == was.policy && !isFresh))
  {
  }

  /** The guarded upsert of the checkpoint table: newer by source, or as new and not older by policy. */
  function Saved(stored: Option<Checkpoint>, c: Checkpoint): Checkpoint {
    if stored.None? then c
    else if c.source > stored.value.source
      || (c.source == stored.value.source && c.policy >= stored.value.policy) then c
    else stored.value
  }

  /** In any order of saves the source version never decreases, and ends at least as high as the one saved. */
  lemma SaveNeverLowersSource(stored: Option<Checkpoint>, c: Checkpoint)
    ensures c.source <= Saved(stored, c).source
    ensures stored.Some? ==> stored.value.source <= Saved(stored, c).source
    ensures stored.Some? ==>
              (Saved(stored, c).policy < stored.value.policy <==>
               c.source > stored.value.source && c.policy < stored.value.policy)
  {
  }

  /** A save of an answer assessed against what is stored lowers nothing. */
  lemma AssessedSaveIsMonotone(key: Key, remote: Snapshot, stored: Option<Checkpoint>)
    requires Assess(key, remote, stored).Taken?
    ensures var c := Assess(key, remote, stored).save;
            && Saved(stored, c) == c
            && (stored.Some? ==> stored.value.source <= c.source && stored.value.policy <= c.policy)
  {
  }

  // ---------------------------------------------------------------------
  // Runs of one scope's pulls, one after the other
  // ---------------------------------------------------------------------

  /** What the server and the store do in one pull; no answer is a failed call. */
  datatype World = World(answer: Option<Snapshot>, readFails: bool, writeFails: bool, now: int)

  datatype Attempt = Attempt(key: Key, world: World)

  /** The stored checkpoint of the scope after a pull, and whether the pull passed. */
  function AfterPull(stored: Option<Checkpoint>, pull: Attempt): (Option<Checkpoint>, bool) {
    if pull.world.answer.None? || pull.world.readFails then (stored, false)
    else
      match Assess(pull.key, pull.world.answer.value, stored)
      case Refused(_) => (stored, false)
      case Taken(save, _, stale) =>
        if pull.world.writeFails then (stored, false) else (Some(Saved(stored, save)), stale.None?)
  }

  function AfterPulls(stored: Option<Checkpoint>, pulls: seq<Attempt>): Option<Checkpoint>
    decreases |pulls|
  {
    if pulls == [] then stored else AfterPulls(AfterPull(stored, pulls[0]).0, pulls[1..])
  }

  ghost predicate NotBelow(a: Option<Checkpoint>, b: Option<Checkpoint>) {
    a.Some? ==> b.Some? && a.value.source <= b.value.source && a.value.policy <= b.value.policy
  }

  lemma PullNeverDecreases(stored: Option<Checkpoint>, pull: Attempt)
    ensures NotBelow(stored, AfterPull(stored, pull).0)
  {
    if pull.world.answer.Some? && Assess(pull.key, pull.world.answer.value, stored).Taken? {
      AssessedSaveIsMonotone(pull.key, pull.world.answer.value, stored);
    }
  }

  /**
   * Whatever the server answers and whatever fails, serialised pulls never lower the
   * checkpoint or the policy version.
   */
  lemma {:induction false} PullsNeverDecrease(stored: Option<Checkpoint>, pulls: seq<Attempt>)
    ensures NotBelow(stored, AfterPulls(stored, pulls))
    decreases |pulls|
  {
    if pulls != [] {
      PullNeverDecreases(stored, pulls[0]);
      PullsNeverDecrease(AfterPull(stored, pulls[0]).0, pulls[1..]);
    }
  }

  /** A pull that gets this snapshot, with nothing failing. */
  ghost predicate Gets(pull: Attempt, remote: Snapshot) {
    pull.key == Key(remote.actor, remote.scope) && pull.world.answer == Some(remote)
    && !pull.world.readFails && !pull.world.writeFails
  }

  /** A snapshot as the producer sends it, no older than what is stored. */
  ghost predicate Steady(remote: Snapshot, stored: Option<Checkpoint>) {
    && remote.isFresh && 0 < remote.source == remote.checkpoint
    && (stored.Some? ==> stored.value.source <= remote.source && stored.value.policy <= remote.policy)
  }

  /** The first repetition stores the snapshot's versions, whether or not it passes. */
  lemma FirstPullStores(stored: Option<Checkpoint>, pull: Attempt, remote: Snapshot)
    requires Steady(remote, stored) && Gets(pull, remote)
    ensures var after := AfterPull(stored, pull).0;
            after.Some? && after.value.source == remote.source && after.value.policy == remote.policy
            && Steady(remote, after)
  {
    AssessedSaveIsMonotone(pull.key, remote, stored);
  }

  /**
   * When the server keeps repeating a steady snapshot, only the first pull can be
   * stale: all later ones pass exactly when the version is not the largest one.
   */
  lemma {:induction false} PullsConverge(stored: Option<Checkpoint>, pulls: seq<Attempt>, remote: Snapshot, i: nat)
    requires Steady(remote, stored) && forall k :: 0 <= k < |pulls| ==> Gets(pulls[k], remote)
    requires 1 <= i < |pulls|
    ensures AfterPull(AfterPulls(stored, pulls[..i]), pulls[i]).1 <==> remote.source < U64 - 1
    decreases i
  {
    var after := AfterPull(stored, pulls[0]).0;
    FirstPullStores(stored, pulls[0], remote);
    assert pulls[..i][1..] == pulls[1..][..i - 1];
    if i == 1 {
      assert AfterPulls(stored, pulls[..1]) == after;
      UsableIff(pulls[1].key, remote, after);
    } else {
      PullsConverge(after, pulls[1..], remote, i - 1);
    }
  }

  // ---------------------------------------------------------------------
  // The program
  // ---------------------------------------------------------------------

  datatype Entry = Entry(published: Option<Snapshot>, backoff: nat, nextPull: int)

  datatype Decision = InvalidActor | Stale(cause: StaleCause) | Denied | Allowed(fence: Version)

  /** The wait after one more failed call. */
  function NextBackoff(interval: nat, max: nat, backoff: nat): nat {
    if backoff == 0 then interval else if 2 * backoff > max then max else 2 * backoff
  }

  /** The wait after a number of failed calls in a row. */
  function BackoffAfter(interval: nat, max: nat, failures: nat): nat {
    if failures == 0 then 0 else NextBackoff(interval, max, BackoffAfter(interval, max, failures - 1))
  }

  function Doubled(interval: nat, n: nat): nat {
    if n == 0 then interval else 2 * Doubled(interval, n - 1)
  }

  lemma {:induction false} DoubledIsPositive(interval: nat, n: nat)
    requires interval > 0
    ensures Doubled(interval, n) > 0
  {
    if n > 0 {
      DoubledIsPositive(interval, n - 1);
    }
  }

  /** The first wait is the interval; every later one doubles, up to the maximum. */
  lemma {:induction false} BackoffIsDoubledAndCapped(interval: nat, max: nat, failures: nat)
    requires interval > 0 && max > 0 && failures >= 1
    ensures BackoffAfter(interval, max, failures) ==
            if failures == 1 then interval
            else if Doubled(interval, failures - 1) > max then max else Doubled(interval, failures - 1)
  {
    DoubledIsPositive(interval, failures - 1);
    if failures == 1 {
      assert BackoffAfter(interval, max, 0) == 0;
    } else {
      DoubledIsPositive(interval, failures - 2);
      BackoffIsDoubledAndCapped(interval, max, failures - 1);
    }
  }

  /** All waits are within the maximum exactly when the interval is, since the first one is not capped. */
  lemma WaitsWithinMaxIff(interval: nat, max: nat)
    requires interval > 0 && max > 0
    ensures (forall failures: nat :: BackoffAfter(interval, max, failures) <= max) <==> interval <= max
  {
    BackoffIsDoubledAndCapped(interval, max, 1);
    if interval <= max {
      forall failures: nat ensures BackoffAfter(interval, max, failures) <= max {
        if failures >= 1 {
          BackoffIsDoubledAndCapped(interval, max, failures);
        }
      }
    }
  }

  /** What a module keeps: the cache, the latest snapshot of each scope, and the persisted checkpoints. */
  datatype Cache = Cache(entries: map<Key, Entry>, latest: map<Scope, Snapshot>, checkpoints: map<Scope, Checkpoint>)

  function StoredIn(c: Cache, scope: Scope): Option<Checkpoint> {
    if scope in c.checkpoints then Some(c.checkpoints[scope]) else None
  }

  /**
   * The cache after one pull: a failed call waits longer, a taken answer is saved and
   * published, and anything else changes nothing.
   */
  function PulledOnce(interval: nat, max: nat, c: Cache, key: Key, world: World): Cache {
    if key !in c.entries then c
    else if world.answer.None? then
      var wait := NextBackoff(interval, max, c.entries[key].backoff);
      c.(entries := c.entries[key := c.entries[key].(backoff := wait, nextPull := world.now + wait)])
    else
      match Assess(key, world.answer.value, StoredIn(c, key.scope))
      case Refused(_) => c
      case Taken(save, publish, _) =>
        if world.readFails || world.writeFails then c
        else Cache(c.entries[key := Entry(Some(publish), 0, world.now + interval)],
                   c.latest[key.scope := publish],
                   c.checkpoints[key.scope := Saved(StoredIn(c, key.scope), save)])
  }

  /**
   * One pull touches no other key and no other scope, moves the checkpoint as assessed,
   * and, if it passes, publishes the answer as it is.
   */
  lemma PullMeans(interval: nat, max: nat, c: Cache, key: Key, world: World)
    requires key in c.entries
    ensures var c' := PulledOnce(interval, max, c, key, world);
            var after := AfterPull(StoredIn(c, key.scope), Attempt(key, world));
            && c'.entries == c.entries[key := c'.entries[key]]
            && (forall scope :: scope != key.scope ==> StoredIn(c', scope) == StoredIn(c, scope))
            && StoredIn(c', key.scope) == after.0
            && (world.answer.None? ==>
                  var was, e := c.entries[key], c'.entries[key];
                  && e.published == was.published && e.nextPull == world.now + e.backoff
                  && e.backoff == NextBackoff(interval, max, was.backoff) && c'.latest == c.latest)
            && (after.1 ==>
                  && world.answer.Some? && Usable(key, world.answer.value, StoredIn(c, key.scope))
                  && c'.entries[key] == Entry(world.answer, 0, world.now + interval)
                  && c'.latest == c.latest[key.scope := world.answer.value])
  {
    if world.answer.Some? {
      UsableIff(key, world.answer.value, StoredIn(c, key.scope));
    }
  }

  /** A pull lowers no checkpoint, of this scope or any other. */
  lemma PullLowersNothing(interval: nat, max: nat, c: Cache, key: Key, world: World, scope: Scope)
    ensures NotBelow(StoredIn(c, scope), StoredIn(PulledOnce(interval, max, c, key, world), scope))
  {
    if key in c.entries {
      PullMeans(interval, max, c, key, world);
      PullNeverDecreases(StoredIn(c, key.scope), Attempt(key, world));
    }
  }

  /** The pulls of some keys, one after the other. */
  function Swept(interval: nat, max: nat, c: Cache, order: seq<Key>, worlds: map<Key, World>): Cache
    requires forall key :: key in order ==> key in worlds
    decreases |order|
  {
    if order == [] then c else
    var n := |order| - 1;
    PulledOnce(interval, max, Swept(interval, max, c, order[..n], worlds), order[n], worlds[order[n]])
  }

  lemma {:induction false} SweepLowersNothing(interval: nat, max: nat, c: Cache, order: seq<Key>,
                                              worlds: map<Key, World>, scope: Scope)
    requires forall key :: key in order ==> key in worlds
    ensures Swept(interval, max, c, order, worlds).entries.Keys == c.entries.Keys
    ensures NotBelow(StoredIn(c, scope), StoredIn(Swept(interval, max, c, order, worlds), scope))
    decreases |order|
  {
    if order != [] {
      var n := |order| - 1;
      SweepLowersNothing(interval, max, c, order[..n], worlds, scope);
      PullLowersNothing(interval, max, Swept(interval, max, c, order[..n], worlds), order[n], worlds[order[n]], scope);
    }
  }

  /** The entry's time has come, or it was never pulled. */
  predicate IsDue(e: Entry, now: int) {
    e.nextPull == 0 || e.nextPull <= now
  }

  /** Every due key occurs once, and no other. */
  ghost predicate CoversDue(c: Cache, now: int, order: seq<Key>) {
    Distinct(order) && forall key ::
      key in order <==> key in c.entries && (c.entries[key].nextPull == 0 || c.entries[key].nextPull <= now)
  }

  class Module {
    const interval: nat
    const backoffMax: nat
    var entries: map<Key, Entry>
    var latest: map<Scope, Snapshot>
    var checkpoints: map<Scope, Checkpoint>

    /** Every published snapshot is for its key, and its checkpoint has been persisted. */
    ghost predicate Valid()
      reads this
    {
      && 0 < interval && 0 < backoffMax
      && forall key :: key in entries && entries[key].published.Some? ==>
           var s := entries[key].published.value;
           IsFor(s, key) && key.scope in checkpoints && s.checkpoint <= checkpoints[key.scope].source
    }

    constructor (interval: int, backoffMax: int)
      ensures Valid() && entries == map[] && latest == map[] && checkpoints == map[]
    {
      this.interval := if interval <= 0 then 1 else interval;
      this.backoffMax := if backoffMax <= 0 then 30 else backoffMax;
      entries, latest, checkpoints := map[], map[], map[];
    }

    function Model(): Cache
      reads this
    {
      Cache(entries, latest, checkpoints)
    }

    function Stored(scope: Scope): Option<Checkpoint>
      reads this
    {
      if scope in checkpoints then Some(checkpoints[scope]) else None
    }

    /** Failed calls are spaced out: the wait doubles from the interval up to the maximum. */
    method MarkPullFailure(key: Key, now: int)
      requires Valid()
      modifies this`entries
      ensures Valid() && entries.Keys == old(entries).Keys
      ensures forall k :: k in entries && k != key ==> entries[k] == old(entries)[k]
      ensures key in entries ==> entries == old(entries)[key := entries[key]]
      ensures key !in entries ==> entries == old(entries)
      ensures key in entries ==>
                var was, e := old(entries)[key], entries[key];
                && e.published == was.published && e.nextPull == now + e.backoff
                && e.backoff == NextBackoff(interval, backoffMax, was.backoff)
    {
      if key !in entries {
        return;
      }
      var entry := entries[key];
      if entry.backoff == 0 {
        entry := entry.(backoff := interval);
      } else {
        entry := entry.(backoff := entry.backoff * 2);
        if entry.backoff > backoffMax {
          entry := entry.(backoff := backoffMax);
        }
      }
      entries := entries[key := entry.(nextPull := now + entry.backoff)];
    }

    /** Save the checkpoint first, then publish the snapshot. */
    method Record(key: Key, remote: Snapshot, now: int)
      requires Valid() && key in entries && IsFor(remote, key)
      modifies this
      ensures Valid() && entries == old(entries)[key := Entry(Some(remote), 0, now + interval)]
      ensures checkpoints == old(checkpoints)[key.scope := Saved(
                old(Stored(key.scope)), Checkpoint(remote.checkpoint, remote.policy, remote.isFresh))]
      ensures latest == old(latest)[key.scope := remote]
    {
      var save := Checkpoint(remote.checkpoint, remote.policy, remote.isFresh);
      SaveNeverLowersSource(Stored(key.scope), save);
      checkpoints := checkpoints[key.scope := Saved(Stored(key.scope), save)];
      entries := entries[key := Entry(Some(remote), 0, now + interval)];
      latest := latest[key.scope := remote];
    }

    /**
     * One pull.  It passes only with an answer that repeats what was persisted before, and
     * no other scope or key is touched.
     */
    method Pull(key: Key, world: World) returns (stale: Option<StaleCause>)
      requires Valid()
      modifies this
      ensures Valid() && Model() == PulledOnce(interval, backoffMax, old(Model()), key, world)
      ensures stale.None? <==>
                key in old(entries) && AfterPull(old(Stored(key.scope)), Attempt(key, world)).1
    {
      if key !in entries {
        return Some(NotFresh);
      }
      if world.answer.None? {
        MarkPullFailure(key, world.now);
        return Some(SnapshotRpcError);
      }
      var remote := world.answer.value;
      if remote.scope != key.scope || remote.actor != key.actor {
        return Some(ScopeMismatch);
      }
      if world.readFails {
        return Some(CheckpointRead);
      }
      var previous: Version, previousPolicy: Version := 0, 0;
      if key.scope in checkpoints {
        previous, previousPolicy := checkpoints[key.scope].source, checkpoints[key.scope].policy;
        if remote.source < previous || remote.checkpoint < previous || remote.policy < previousPolicy {
          return Some(Regression);
        }
      }
      var changed := previous != remote.checkpoint || previousPolicy != remote.policy;
      var gap := previous > 0 && remote.checkpoint > Successor(previous);
      var isFresh := remote.source > 0 && remote.isFresh && remote.checkpoint >= remote.source && !gap;
      if world.writeFails {
        return Some(CheckpointWrite);
      }
      remote := remote.(isFresh := isFresh);
      Record(key, remote, world.now);
      if changed || gap || !remote.isFresh {
        return Some(if gap then Gap else if changed then Warmup else NotFresh);
      }
      return None;
    }

    /**
     * The decision, with nobody else pulling meanwhile: a write is allowed exactly when
     * the server answered this very call, for this actor and scope, with the versions
     * already persisted, and grants the action.  The fence is then the persisted checkpoint.
     */
    method AuthorizeWrite(key: Key, action: string, validScope: bool, world: World) returns (decision: Decision)
      requires Valid()
      modifies this
      ensures Valid()
      ensures decision.Allowed? <==>
                && ValidAction(action) && validScope && key.actor != ""
                && world.answer.Some? && !world.readFails && !world.writeFails
                && Usable(key, world.answer.value, old(Stored(key.scope)))
                && PolicyAgreement.CapabilityAllowed(world.answer.value.capabilities, action)
      ensures decision.Allowed? ==>
                && decision.fence == world.answer.value.source
                && key.scope in old(checkpoints) && decision.fence == old(checkpoints)[key.scope].source
    {
      if !ValidAction(action) || !validScope || key.actor == "" {
        return InvalidActor;
      }
      if key !in entries {
        entries := entries[key := Entry(None, 0, 0)];
      }
      ghost var before := Model();
      var stale := Pull(key, world);
      PullMeans(interval, backoffMax, before, key, world);
      if stale.Some? {
        return Stale(stale.value);
      }
      UsableIff(key, world.answer.value, old(Stored(key.scope)));
      var published := entries[key].published;
      if published.None? || !published.value.isFresh || published.value.checkpoint < published.value.source {
        return Stale(NotFresh);
      }
      if !PolicyAgreement.CapabilityAllowed(published.value.capabilities, action) {
        return Denied;
      }
      return Allowed(published.value.source);
    }

    /** The background refresh pulls every entry whose time has come, once and in any order, and nothing else. */
    method PullDue(now: int, worlds: map<Key, World>) returns (ghost order: seq<Key>)
      requires Valid() && entries.Keys <= worlds.Keys
      modifies this
      ensures Valid() && CoversDue(old(Model()), now, order) && forall key :: key in order ==> key in worlds
      ensures Model() == Swept(interval, backoffMax, old(Model()), order, worlds)
      ensures forall scope :: NotBelow(old(Stored(scope)), Stored(scope))
    {
      order := Sweep(now, worlds);
      forall scope ensures NotBelow(old(Stored(scope)), Stored(scope)) {
        SweepLowersNothing(interval, backoffMax, old(Model()), order, worlds, scope);
        assert Stored(scope) == StoredIn(Model(), scope) && old(Stored(scope)) == StoredIn(old(Model()), scope);
      }
    }

    method Sweep(now: int, worlds: map<Key, World>) returns (ghost order: seq<Key>)
      requires Valid() && entries.Keys <= worlds.Keys
      modifies this
      ensures Valid() && CoversDue(old(Model()), now, order) && forall key :: key in order ==> key in worlds
      ensures Model() == Swept(interval, backoffMax, old(Model()), order, worlds)
    {
      ghost var start := Model();
      var due := set k | k in entries && IsDue(entries[k], now);
      ghost var all := due;
      order := [];
      while due != {}
        invariant Valid() && due <= all
        invariant Distinct(order) && forall key :: key in order <==> key in all && key !in due
        invariant Model() == Swept(interval, backoffMax, start, order, worlds)
        decreases |due|
      {
        var key :| key in due;
        due := due - {key};
        var _ := Pull(key, worlds[key]);
        assert (order + [key])[..|order|] == order;
        order := order + [key];
      }
    }
  }
}
