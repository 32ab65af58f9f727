/**
 * Requests and background refreshes of authorization snapshots in every
 * interleaving.  Pulls of one actor and scope are serialised by a lock; pulls of
 * different actors share the scope's checkpoint and are not.
 */
module SnapshotProtocol {
  import opened Common
  import opened AuthorizationSnapshots
  import PolicyAgreement

  type Thread = nat

  /** A write request for an action, or a background refresh. */
  datatype Call = Request(key: Key, action: string) | Refresh(key: Key)

  datatype Phase =
    | Begun | Entered | Holding
    | Answered(remote: Snapshot)
    | Compared(remote: Snapshot, previous: Option<Checkpoint>)
    | Persisted(publish: Snapshot, stale: bool)
    | Published(stale: bool)
    | Pulled
    | Deciding(seen: Snapshot)
    | Allowed(seen: Snapshot)
    | Finished

  /** `answered` records a successful snapshot call inside this very call. */
  datatype Local = Local(call: Call, phase: Phase, answered: bool, fence: Option<Version>)

  datatype State = State(threads: map<Thread, Local>, entries: map<Key, Option<Snapshot>>,
                         pullMu: map<Key, Thread>, checkpoints: map<Scope, Checkpoint>)

  /** How the outside world answers a step: success, failure, or a snapshot. */
  datatype Event = Go | Fail | Answer(remote: Snapshot)

  datatype Step = Step(thread: Thread, event: Event)

  ghost function Stored(s: State, scope: Scope): Option<Checkpoint> {
    if scope in s.checkpoints then Some(s.checkpoints[scope]) else None
  }

  predicate InPull(p: Phase) {
    p.Holding? || p.Answered? || p.Compared? || p.Persisted? || p.Published?
  }

  ghost predicate CanStep(s: State, l: Local) {
    && l.phase != Finished && !l.phase.Allowed?
    && (l.phase == Entered ==> l.call.key !in s.pullMu)
    && (l.phase == Pulled && l.call.Request? ==> l.call.key in s.entries)
  }

  /** The snapshot read for the decision is good enough to decide on. */
  predicate Decidable(published: Option<Snapshot>) {
    published.Some? && published.value.isFresh && published.value.checkpoint >= published.value.source
  }

  ghost function PhaseAfter(s: State, l: Local, e: Event): Phase
    requires CanStep(s, l)
  {
    var key := l.call.key;
    match l.phase
    case Begun => if l.call.Refresh? && key !in s.entries then Finished else Entered
    case Entered => Holding
    case Holding => if e.Answer? && IsFor(e.remote, key) then Answered(e.remote) else Finished
    case Answered(remote) =>
      if e == Fail || Assess(key, remote, Stored(s, key.scope)).Refused? then Finished
      else Compared(remote, Stored(s, key.scope))
    case Compared(remote, previous) =>
      var a := Assess(key, remote, previous);
      if e == Fail || a.Refused? then Finished else Persisted(a.publish, a.stale.Some?)
    case Persisted(_, stale) => Published(stale)
    case Published(stale) => if stale then Finished else Pulled
    case Pulled => if l.call.Request? && Decidable(s.entries[key]) then Deciding(s.entries[key].value) else Finished
    case Deciding(seen) =>
      if l.call.Request? && PolicyAgreement.CapabilityAllowed(seen.capabilities, l.call.action) then Phase.Allowed(seen)
      else Finished
    case Allowed(_) => l.phase
    case Finished => l.phase
  }

  ghost function CheckpointsAfter(s: State, l: Local, e: Event): map<Scope, Checkpoint> {
    var key := l.call.key;
    if l.phase.Compared? && e != Fail && Assess(key, l.phase.remote, l.phase.previous).Taken?
    then s.checkpoints[key.scope := Saved(Stored(s, key.scope), Assess(key, l.phase.remote, l.phase.previous).save)]
    else s.checkpoints
  }

  ghost function EntriesAfter(s: State, l: Local): map<Key, Option<Snapshot>> {
    var key := l.call.key;
    if l.phase.Begun? && l.call.Request? && key !in s.entries then s.entries[key := None]
    else if l.phase.Persisted? then s.entries[key := Some(l.phase.publish)]
    else s.entries
  }

  ghost function LocksAfter(s: State, t: Thread, l: Local, next: Phase): map<Key, Thread> {
    if !InPull(l.phase) && InPull(next) then s.pullMu[l.call.key := t]
    else if InPull(l.phase) && !InPull(next) then s.pullMu - {l.call.key}
    else s.pullMu
  }

  ghost function LocalAfter(s: State, l: Local, e: Event): Local
    requires CanStep(s, l)
  {
    var next := PhaseAfter(s, l, e);
    Local(l.call, next, l.answered || next.Answered?, if next.Allowed? then Some(next.seen.source) else l.fence)
  }

  ghost predicate Next(s: State, step: Step, s': State) {
    step.thread in s.threads &&
    var l := s.threads[step.thread];
    && CanStep(s, l)
    && s' == State(s.threads[step.thread := LocalAfter(s, l, step.event)], EntriesAfter(s, l),
                   LocksAfter(s, step.thread, l, PhaseAfter(s, l, step.event)), CheckpointsAfter(s, l, step.event))
  }

  /** Any number of calls, any checkpoints left by earlier runs, an empty cache. */
  ghost predicate Init(s: State) {
    && (forall t :: t in s.threads ==> s.threads[t] == Local(s.threads[t].call, Begun, false, None))
    && s.entries == map[] && s.pullMu == map[]
  }

  // ---------------------------------------------------------------------
  // The invariant
  // ---------------------------------------------------------------------

  /** The snapshot is for this key, and its checkpoint is covered by the persisted one. */
  ghost predicate Backed(checkpoints: map<Scope, Checkpoint>, key: Key, p: Snapshot) {
    IsFor(p, key) && key.scope in checkpoints && p.checkpoint <= checkpoints[key.scope].source
  }

  ghost predicate LocalInv(checkpoints: map<Scope, Checkpoint>, entries: map<Key, Option<Snapshot>>, l: Local) {
    var key := l.call.key;
    && (l.fence.Some? <==> l.phase.Allowed?)
    && (l.phase.Entered? || InPull(l.phase) || l.phase.Pulled? ==> key in entries)
    && match l.phase
       case Answered(remote) => l.answered && IsFor(remote, key)
       case Compared(remote, _) => l.answered && IsFor(remote, key)
       case Persisted(p, _) => l.answered && Backed(checkpoints, key, p)
       case Published(_) => l.answered
       case Pulled => l.answered
       case Deciding(p) => l.answered && Backed(checkpoints, key, p) && Decidable(Some(p))
       case Allowed(p) =>
         && l.answered && Backed(checkpoints, key, p) && Decidable(Some(p)) && l.fence == Some(p.source)
         && l.call.Request? && PolicyAgreement.CapabilityAllowed(p.capabilities, l.call.action)
       case _ => true
  }

  ghost predicate EntriesInv(s: State) {
    forall key :: key in s.entries && s.entries[key].Some? ==> Backed(s.checkpoints, key, s.entries[key].value)
  }

  ghost predicate ThreadsInv(s: State) {
    forall t :: t in s.threads ==> LocalInv(s.checkpoints, s.entries, s.threads[t])
  }

  /** Pulls of one key are serialised. */
  ghost predicate LocksInv(s: State) {
    forall t :: t in s.threads ==>
      (InPull(s.threads[t].phase) <==> s.threads[t].call.key in s.pullMu && s.pullMu[s.threads[t].call.key] == t)
  }

  ghost predicate Inv(s: State) {
    EntriesInv(s) && ThreadsInv(s) && LocksInv(s)
  }

  /** In every interleaving a scope's persisted source version never decreases. */
  ghost predicate NotLower(a: map<Scope, Checkpoint>, b: map<Scope, Checkpoint>) {
    forall scope :: scope in a ==> scope in b && a[scope].source <= b[scope].source
  }

  lemma InitEstablishesInv(s: State)
    requires Init(s)
    ensures Inv(s)
  {
  }

  lemma NextNeverLowersSource(s: State, step: Step, s': State)
    requires Next(s, step, s')
    ensures NotLower(s.checkpoints, s'.checkpoints)
  {
    var l := s.threads[step.thread];
    if l.phase.Compared? && Assess(l.call.key, l.phase.remote, l.phase.previous).Taken? {
      SaveNeverLowersSource(Stored(s, l.call.key.scope), Assess(l.call.key, l.phase.remote, l.phase.previous).save);
    }
  }

  lemma LocalStays(a: map<Scope, Checkpoint>, b: map<Scope, Checkpoint>,
                   e: map<Key, Option<Snapshot>>, e': map<Key, Option<Snapshot>>, l: Local)
    requires NotLower(a, b) && e.Keys <= e'.Keys && LocalInv(a, e, l)
    ensures LocalInv(b, e', l)
  {
  }

  /** A successful save backs the snapshot that is about to be published. */
  lemma SaveBacks(s: State, l: Local, e: Event)
    requires LocalInv(s.checkpoints, s.entries, l) && l.phase.Compared? && CanStep(s, l)
    requires PhaseAfter(s, l, e).Persisted?
    ensures Backed(CheckpointsAfter(s, l, e), l.call.key, PhaseAfter(s, l, e).publish)
  {
    SaveNeverLowersSource(Stored(s, l.call.key.scope), Assess(l.call.key, l.phase.remote, l.phase.previous).save);
  }

  lemma StepKeepsLocal(s: State, step: Step, s': State)
    requires Inv(s) && Next(s, step, s')
    ensures LocalInv(s'.checkpoints, s'.entries, s'.threads[step.thread])
  {
    var l := s.threads[step.thread];
    NextNeverLowersSource(s, step, s');
    assert LocalInv(s.checkpoints, s.entries, l);
    if l.phase.Compared? && PhaseAfter(s, l, step.event).Persisted? {
      SaveBacks(s, l, step.event);
    }
  }

  lemma StepKeepsEntries(s: State, step: Step, s': State)
    requires Inv(s) && Next(s, step, s')
    ensures EntriesInv(s')
  {
    NextNeverLowersSource(s, step, s');
    assert LocalInv(s.checkpoints, s.entries, s.threads[step.thread]);
  }

  lemma StepKeepsLocks(s: State, step: Step, s': State)
    requires Inv(s) && Next(s, step, s')
    ensures LocksInv(s')
  {
  }

  lemma NextKeepsInv(s: State, step: Step, s': State)
    requires Inv(s) && Next(s, step, s')
    ensures Inv(s')
  {
    NextNeverLowersSource(s, step, s');
    StepKeepsEntries(s, step, s');
    StepKeepsLocks(s, step, s');
    forall t | t in s'.threads ensures LocalInv(s'.checkpoints, s'.entries, s'.threads[t]) {
      if t == step.thread {
        StepKeepsLocal(s, step, s');
      } else {
        LocalStays(s.checkpoints, s'.checkpoints, s.entries, s'.entries, s.threads[t]);
      }
    }
  }

  // ---------------------------------------------------------------------
  // Runs
  // ---------------------------------------------------------------------

  ghost predicate Run(states: seq<State>, steps: seq<Step>) {
    && |states| == |steps| + 1 && Init(states[0])
    && forall i :: 0 <= i < |steps| ==> Next(states[i], steps[i], states[i + 1])
  }

  lemma {:induction false} RunKeepsInv(states: seq<State>, steps: seq<Step>, i: nat)
    requires Run(states, steps) && i < |states|
    ensures Inv(states[i])
  {
    if i == 0 {
      InitEstablishesInv(states[0]);
    } else {
      RunKeepsInv(states, steps, i - 1);
      NextKeepsInv(states[i - 1], steps[i - 1], states[i]);
    }
  }

  lemma {:induction false} RunNeverLowersSource(states: seq<State>, steps: seq<Step>, i: nat, j: nat)
    requires Run(states, steps) && i <= j < |states|
    ensures NotLower(states[i].checkpoints, states[j].checkpoints)
  {
    if i < j {
      RunNeverLowersSource(states, steps, i, j - 1);
      NextNeverLowersSource(states[j - 1], steps[j - 1], states[j]);
    }
  }

  /** The step in which this call's own snapshot request was answered, for its own actor and scope. */
  lemma {:induction false} AnsweredAt(states: seq<State>, steps: seq<Step>, i: nat, t: Thread) returns (k: nat)
    requires Run(states, steps) && i < |states| && t in states[i].threads && states[i].threads[t].answered
    ensures k < i && steps[k].thread == t && steps[k].event.Answer?
    ensures t in states[k].threads && states[k].threads[t].phase == Holding
    ensures states[k].threads[t].call == states[i].threads[t].call
    ensures IsFor(steps[k].event.remote, states[i].threads[t].call.key)
  {
    assert Next(states[i - 1], steps[i - 1], states[i]);
    if states[i - 1].threads[t].answered {
      k := AnsweredAt(states, steps, i - 1, t);
    } else {
      k := i - 1;
    }
  }

  /**
   * In every interleaving, a request that was allowed had its own snapshot call
   * answered, was decided on a fresh snapshot for exactly its actor and scope that
   * grants the action, and recorded a fence no higher than the checkpoint persisted
   * for the scope before the decision.
   */
  lemma AllowedMeans(states: seq<State>, steps: seq<Step>, i: nat, t: Thread) returns (answeredAt: nat, decidedAt: nat)
    requires Run(states, steps) && i < |states| && t in states[i].threads && states[i].threads[t].phase.Allowed?
    ensures var l := states[i].threads[t]; var key, seen := l.call.key, l.phase.seen;
            && l.call.Request? && l.fence == Some(seen.source)
            && answeredAt < decidedAt < i && steps[answeredAt].thread == t && steps[answeredAt].event.Answer?
            && t in states[answeredAt].threads && states[answeredAt].threads[t].phase == Holding
            && IsFor(steps[answeredAt].event.remote, key)
            && IsFor(seen, key) && seen.isFresh && PolicyAgreement.CapabilityAllowed(seen.capabilities, l.call.action)
            && key.scope in states[decidedAt].checkpoints
              && seen.source <= states[decidedAt].checkpoints[key.scope].source
            && t in states[decidedAt].threads && states[decidedAt].threads[t].phase == Deciding(seen)
  {
    decidedAt := DecidedAt(states, steps, i, t);
    RunKeepsInv(states, steps, decidedAt);
    RunKeepsInv(states, steps, i);
    assert LocalInv(states[i].checkpoints, states[i].entries, states[i].threads[t]);
    assert LocalInv(states[decidedAt].checkpoints, states[decidedAt].entries, states[decidedAt].threads[t]);
    answeredAt := AnsweredAt(states, steps, decidedAt, t);
  }

  /** The step that turned the request into an allowed one. */
  lemma {:induction false} DecidedAt(states: seq<State>, steps: seq<Step>, i: nat, t: Thread) returns (k: nat)
    requires Run(states, steps) && i < |states| && t in states[i].threads && states[i].threads[t].phase.Allowed?
    ensures k < i && t in states[k].threads && states[k].threads[t].phase == Deciding(states[i].threads[t].phase.seen)
    ensures states[k].threads[t].call == states[i].threads[t].call
  {
    assert Next(states[i - 1], steps[i - 1], states[i]);
    if states[i - 1].threads[t].phase.Allowed? {
      k := DecidedAt(states, steps, i - 1, t);
    } else {
      k := i - 1;
    }
  }

  // ---------------------------------------------------------------------
  // A call that nobody disturbs
  // ---------------------------------------------------------------------

  ghost function StateAfter(s: State, step: Step): State
    requires step.thread in s.threads && CanStep(s, s.threads[step.thread])
  {
    var l := s.threads[step.thread];
    State(s.threads[step.thread := LocalAfter(s, l, step.event)], EntriesAfter(s, l),
          LocksAfter(s, step.thread, l, PhaseAfter(s, l, step.event)), CheckpointsAfter(s, l, step.event))
  }

  ghost function Last(states: seq<State>): State
    requires states != []
  {
    states[|states| - 1]
  }

  lemma RunExtends(states: seq<State>, steps: seq<Step>, step: Step)
    requires Run(states, steps) && step.thread in Last(states).threads
    requires CanStep(Last(states), Last(states).threads[step.thread])
    ensures Run(states + [StateAfter(Last(states), step)], steps + [step])
  {
    var states', steps' := states + [StateAfter(Last(states), step)], steps + [step];
    forall i | 0 <= i < |steps'| ensures Next(states'[i], steps'[i], states'[i + 1]) {
      if i < |steps| {
        assert states'[i] == states[i] && states'[i + 1] == states[i + 1] && steps'[i] == steps[i];
      }
    }
  }

  /** What the outside does in each phase of a pull: the same as for the sequential program. */
  function Reply(world: World, p: Phase): Event {
    match p
    case Holding => if world.answer.Some? then Answer(world.answer.value) else Fail
    case Answered(_) => if world.readFails then Fail else Go
    case Compared(_, _) => if world.writeFails then Fail else Go
    case _ => Go
  }

  /** The thread takes up to `n` steps by itself. */
  ghost function Alone(s: State, t: Thread, world: World, n: nat): (s': State)
    requires t in s.threads
    ensures t in s'.threads
    decreases n
  {
    if n == 0 || !CanStep(s, s.threads[t]) then s
    else Alone(StateAfter(s, Step(t, Reply(world, s.threads[t].phase))), t, world, n - 1)
  }

  /**
   * The server answered this very call, for this actor and scope, with the versions that
   * were persisted before it, and both store calls went through.
   */
  ghost predicate Passes(key: Key, world: World, stored: Option<Checkpoint>) {
    && world.answer.Some? && !world.readFails && !world.writeFails && stored.Some?
    && var remote := world.answer.value;
       && remote.actor == key.actor && remote.scope == key.scope && remote.isFresh
       && remote.source == remote.checkpoint == stored.value.source && remote.policy == stored.value.policy
       && 0 < remote.source < U64 - 1
  }

  ghost predicate Starts(s: State, t: Thread, call: Call) {
    t in s.threads && s.threads[t] == Local(call, Begun, false, None) && call.key !in s.pullMu
  }

  lemma EntersAlone(s: State, t: Thread, call: Call, world: World, n: nat)
    requires Starts(s, t, call) && (call.Refresh? ==> call.key in s.entries)
    ensures Alone(s, t, world, n + 2) == Alone(Locked(s, t, call), t, world, n)
  {
    var s1 := StateAfter(s, Step(t, Go));
    assert s1.threads[t] == Local(call, Entered, false, None) && s1.pullMu == s.pullMu;
    var s2 := StateAfter(s1, Step(t, Go));
    assert s2.threads == s.threads[t := Local(call, Holding, false, None)];
  }

  lemma StopsAlone(s: State, t: Thread, world: World, n: nat)
    requires t in s.threads && (s.threads[t].phase == Finished || s.threads[t].phase.Allowed?)
    ensures Alone(s, t, world, n) == s
  {
  }

  /** The thread holds the lock of its key and is about to ask the server. */
  ghost predicate Holds(h: State, t: Thread, call: Call) {
    && t in h.threads && h.threads[t] == Local(call, Holding, false, None)
    && call.key in h.pullMu && call.key in h.entries
  }

  /** The answer is assessed and persisted. */
  ghost predicate IsTaken(key: Key, world: World, stored: Option<Checkpoint>) {
    && world.answer.Some? && !world.readFails && !world.writeFails
    && Assess(key, world.answer.value, stored).Taken?
  }

  lemma AloneStep(s: State, t: Thread, world: World, n: nat)
    requires t in s.threads && CanStep(s, s.threads[t])
    ensures Alone(s, t, world, n + 1) == Alone(StateAfter(s, Step(t, Reply(world, s.threads[t].phase))), t, world, n)
  {
  }

  /** The state with another local state of the thread. */
  ghost function With(s: State, t: Thread, l: Local): State {
    s.(threads := s.threads[t := l])
  }

  /** The pull ends here, and the lock is given back. */
  ghost function Ended(h: State, t: Thread, call: Call, answered: bool): State {
    With(h, t, Local(call, Finished, answered, None)).(pullMu := h.pullMu - {call.key})
  }

  lemma AnswerStep(h: State, t: Thread, call: Call, world: World)
    requires Holds(h, t, call)
    ensures StateAfter(h, Step(t, Reply(world, Holding))) ==
            if world.answer.Some? && IsFor(world.answer.value, call.key)
            then With(h, t, Local(call, Answered(world.answer.value), true, None))
            else Ended(h, t, call, false)
  {
  }

  lemma CompareStep(h: State, t: Thread, call: Call, world: World, remote: Snapshot)
    requires Holds(h, t, call)
    ensures var s, stored := With(h, t, Local(call, Answered(remote), true, None)), Stored(h, call.key.scope);
            && CanStep(s, s.threads[t])
            && StateAfter(s, Step(t, Reply(world, Answered(remote)))) ==
               if world.readFails || Assess(call.key, remote, stored).Refused? then Ended(h, t, call, true)
               else With(h, t, Local(call, Compared(remote, stored), true, None))
  {
  }

  lemma SaveStep(h: State, t: Thread, call: Call, world: World, remote: Snapshot)
    requires Holds(h, t, call) && Assess(call.key, remote, Stored(h, call.key.scope)).Taken?
    ensures var stored := Stored(h, call.key.scope);
            var s, a := With(h, t, Local(call, Compared(remote, stored), true, None)), Assess(call.key, remote, stored);
            && CanStep(s, s.threads[t])
            && StateAfter(s, Step(t, Reply(world, Compared(remote, stored)))) ==
               if world.writeFails then Ended(h, t, call, true)
               else With(h, t, Local(call, Persisted(a.publish, a.stale.Some?), true, None))
                    .(checkpoints := h.checkpoints[call.key.scope := Saved(stored, a.save)])
  {
  }

  /** Anything else ends the pull, and nothing but the lock changes. */
  lemma RefusedAlone(h: State, t: Thread, call: Call, world: World, n: nat)
    requires Holds(h, t, call) && !IsTaken(call.key, world, Stored(h, call.key.scope))
    ensures Alone(h, t, world, n + 3) ==
            Ended(h, t, call, world.answer.Some? && IsFor(world.answer.value, call.key))
  {
    AnswerStep(h, t, call, world);
    AloneStep(h, t, world, n + 2);
    if world.answer.None? || !IsFor(world.answer.value, call.key) {
      StopsAlone(Ended(h, t, call, false), t, world, n + 2);
    } else {
      var remote, stored := world.answer.value, Stored(h, call.key.scope);
      CompareStep(h, t, call, world, remote);
      AloneStep(With(h, t, Local(call, Answered(remote), true, None)), t, world, n + 1);
      StopsAlone(Ended(h, t, call, true), t, world, n + 1);
      if !world.readFails && Assess(call.key, remote, stored).Taken? {
        SaveStep(h, t, call, world, remote);
        AloneStep(With(h, t, Local(call, Compared(remote, stored), true, None)), t, world, n);
        StopsAlone(Ended(h, t, call, true), t, world, n);
      }
    }
  }

  /** The state after a pull that was taken: saved, published, and the lock given back. */
  ghost function Taken(h: State, t: Thread, call: Call, world: World): State
    requires IsTaken(call.key, world, Stored(h, call.key.scope))
  {
    var key := call.key;
    var a := Assess(key, world.answer.value, Stored(h, key.scope));
    State(h.threads[t := Local(call, if a.stale.Some? then Finished else Pulled, true, None)],
          h.entries[key := Some(a.publish)], h.pullMu - {key},
          h.checkpoints[key.scope := Saved(Stored(h, key.scope), a.save)])
  }

  lemma TakenAlone(h: State, t: Thread, call: Call, world: World, n: nat)
    requires Holds(h, t, call) && IsTaken(call.key, world, Stored(h, call.key.scope))
    ensures Alone(h, t, world, n + 5) == Alone(Taken(h, t, call, world), t, world, n)
  {
    var remote, stored := world.answer.value, Stored(h, call.key.scope);
    var a := Assess(call.key, remote, stored);
    AnswerStep(h, t, call, world);
    AloneStep(h, t, world, n + 4);
    CompareStep(h, t, call, world, remote);
    AloneStep(With(h, t, Local(call, Answered(remote), true, None)), t, world, n + 3);
    SaveStep(h, t, call, world, remote);
    AloneStep(With(h, t, Local(call, Compared(remote, stored), true, None)), t, world, n + 2);
    var s3 := With(h, t, Local(call, Persisted(a.publish, a.stale.Some?), true, None))
              .(checkpoints := h.checkpoints[call.key.scope := Saved(stored, a.save)]);
    PublishesAlone(s3, t, call, world, n);
    PublishedIsTaken(h, t, call, world, s3);
  }

  lemma PublishedIsTaken(h: State, t: Thread, call: Call, world: World, s3: State)
    requires IsTaken(call.key, world, Stored(h, call.key.scope))
    requires var stored := Stored(h, call.key.scope);
             var a := Assess(call.key, world.answer.value, stored);
             s3 == With(h, t, Local(call, Persisted(a.publish, a.stale.Some?), true, None))
                   .(checkpoints := h.checkpoints[call.key.scope := Saved(stored, a.save)])
    ensures var p := s3.threads[t].phase;
            State(s3.threads[t := Local(call, if p.stale then Finished else Pulled, true, None)],
                  s3.entries[call.key := Some(p.publish)], s3.pullMu - {call.key}, s3.checkpoints)
            == Taken(h, t, call, world)
  {
  }

  lemma PublishesAlone(s3: State, t: Thread, call: Call, world: World, n: nat)
    requires t in s3.threads && s3.threads[t].call == call && s3.threads[t].phase.Persisted?
    requires s3.threads[t].answered && s3.threads[t].fence == None
    ensures var p := s3.threads[t].phase;
            Alone(s3, t, world, n + 2) ==
            Alone(State(s3.threads[t := Local(call, if p.stale then Finished else Pulled, true, None)],
                        s3.entries[call.key := Some(p.publish)], s3.pullMu - {call.key}, s3.checkpoints), t, world, n)
  {
    var p := s3.threads[t].phase;
    var s4 := StateAfter(s3, Step(t, Go));
    assert s4 == s3.(threads := s3.threads[t := Local(call, Published(p.stale), true, None)],
                     entries := s3.entries[call.key := Some(p.publish)]);
    var s5 := StateAfter(s4, Step(t, Go));
    assert s5.threads == s3.threads[t := Local(call, if p.stale then Finished else Pulled, true, None)];
  }

  /** The decision, on what is published. */
  lemma DecidesAlone(s: State, t: Thread, call: Call, world: World, seen: Snapshot, n: nat)
    requires t in s.threads && s.threads[t] == Local(call, Pulled, true, None)
    requires call.key in s.entries && s.entries[call.key] == Some(seen) && Decidable(Some(seen))
    ensures var allowed := call.Request? && PolicyAgreement.CapabilityAllowed(seen.capabilities, call.action);
            Alone(s, t, world, n + 2) ==
            s.(threads := s.threads[t := if allowed then Local(call, Phase.Allowed(seen), true, Some(seen.source))
                                         else Local(call, Finished, true, None)])
  {
    var s1 := StateAfter(s, Step(t, Go));
    if call.Refresh? {
      assert s1 == s.(threads := s.threads[t := Local(call, Finished, true, None)]);
      StopsAlone(s1, t, world, n + 1);
    } else {
      assert s1 == s.(threads := s.threads[t := Local(call, Deciding(seen), true, None)]);
      var s2 := StateAfter(s1, Step(t, Go));
      assert s2.threads == s.threads[t := s2.threads[t]];
      StopsAlone(s2, t, world, n);
    }
  }

  /** What a call leaves that nobody disturbed: its own thread, the entry of its key and the checkpoint of its scope. */
  ghost predicate Leaves(s: State, t: Thread, call: Call, world: World, s': State) {
    var key := call.key;
    && t in s.threads && t in s'.threads
    && s'.threads == s.threads[t := s'.threads[t]] && s'.pullMu == s.pullMu
    && s'.entries.Keys == s.entries.Keys + {key}
    && (forall k :: k in s.entries && k != key ==> s'.entries[k] == s.entries[k])
    && (forall scope :: scope != key.scope ==> Stored(s', scope) == Stored(s, scope))
    && Stored(s', key.scope) == AfterPull(Stored(s, key.scope), Attempt(key, world)).0
    && s'.entries[key] == (if IsTaken(key, world, Stored(s, key.scope))
                           then Some(Assess(key, world.answer.value, Stored(s, key.scope)).publish)
                           else if key in s.entries then s.entries[key] else None)
  }

  /** The state in which the lock has just been taken. */
  ghost function Locked(s: State, t: Thread, call: Call): State {
    State(s.threads[t := Local(call, Holding, false, None)],
          if call.key in s.entries then s.entries else s.entries[call.key := None],
          s.pullMu[call.key := t], s.checkpoints)
  }

  lemma PassesIff(key: Key, world: World, stored: Option<Checkpoint>)
    ensures Passes(key, world, stored) <==>
            IsTaken(key, world, stored) && Assess(key, world.answer.value, stored).stale.None?
    ensures Passes(key, world, stored) ==> Assess(key, world.answer.value, stored).publish == world.answer.value
  {
    if world.answer.Some? {
      UsableIff(key, world.answer.value, stored);
    }
  }

  lemma LockedHolds(s: State, t: Thread, call: Call)
    requires Starts(s, t, call)
    ensures var h := Locked(s, t, call);
            && Holds(h, t, call) && Stored(h, call.key.scope) == Stored(s, call.key.scope)
            && h.pullMu - {call.key} == s.pullMu
  {
  }

  lemma TakenLeaves(s: State, t: Thread, call: Call, world: World, l: Local)
    requires Starts(s, t, call) && IsTaken(call.key, world, Stored(s, call.key.scope))
    ensures IsTaken(call.key, world, Stored(Locked(s, t, call), call.key.scope))
    ensures Leaves(s, t, call, world, With(Taken(Locked(s, t, call), t, call, world), t, l))
  {
    LockedHolds(s, t, call);
  }

  lemma RefusedLeaves(s: State, t: Thread, call: Call, world: World, answered: bool)
    requires Starts(s, t, call) && !IsTaken(call.key, world, Stored(s, call.key.scope))
    ensures Leaves(s, t, call, world, Ended(Locked(s, t, call), t, call, answered))
  {
    LockedHolds(s, t, call);
  }

  /** How a call ends. */
  ghost function Outcome(call: Call, world: World, stored: Option<Checkpoint>): Local {
    var answered := world.answer.Some? && IsFor(world.answer.value, call.key);
    if call.Request? && Passes(call.key, world, stored)
       && PolicyAgreement.CapabilityAllowed(world.answer.value.capabilities, call.action)
    then Local(call, Phase.Allowed(world.answer.value), true, Some(world.answer.value.source))
    else Local(call, Finished, answered, None)
  }

  /** The call ends as it should, and leaves what it should. */
  ghost predicate Does(s: State, t: Thread, call: Call, world: World, s': State) {
    Leaves(s, t, call, world, s') && s'.threads[t] == Outcome(call, world, Stored(s, call.key.scope))
  }

  lemma TakenEnds(s: State, t: Thread, call: Call, world: World, n: nat)
    requires Starts(s, t, call) && IsTaken(call.key, world, Stored(Locked(s, t, call), call.key.scope))
    ensures var s5 := Taken(Locked(s, t, call), t, call, world);
            Alone(s5, t, world, n + 2) == With(s5, t, Outcome(call, world, Stored(s, call.key.scope)))
  {
    LockedHolds(s, t, call);
    PassesIff(call.key, world, Stored(s, call.key.scope));
    var s5 := Taken(Locked(s, t, call), t, call, world);
    if s5.threads[t].phase == Finished {
      StopsAlone(s5, t, world, n + 2);
    } else {
      DecidesAlone(s5, t, call, world, world.answer.value, n);
    }
  }

  lemma TakenCall(s: State, t: Thread, call: Call, world: World, n: nat)
    requires Starts(s, t, call) && IsTaken(call.key, world, Stored(s, call.key.scope))
    ensures Does(s, t, call, world, Alone(Locked(s, t, call), t, world, n + 7))
  {
    LockedHolds(s, t, call);
    TakenAlone(Locked(s, t, call), t, call, world, n + 2);
    TakenEnds(s, t, call, world, n);
    TakenLeaves(s, t, call, world, Outcome(call, world, Stored(s, call.key.scope)));
  }

  lemma RefusedCall(s: State, t: Thread, call: Call, world: World, n: nat)
    requires Starts(s, t, call) && !IsTaken(call.key, world, Stored(s, call.key.scope))
    ensures Does(s, t, call, world, Alone(Locked(s, t, call), t, world, n + 3))
  {
    LockedHolds(s, t, call);
    PassesIff(call.key, world, Stored(s, call.key.scope));
    RefusedAlone(Locked(s, t, call), t, call, world, n);
    RefusedLeaves(s, t, call, world, world.answer.Some? && IsFor(world.answer.value, call.key));
  }

  lemma LockedCall(s: State, t: Thread, call: Call, world: World, n: nat)
    requires Starts(s, t, call) && n >= 7
    ensures Does(s, t, call, world, Alone(Locked(s, t, call), t, world, n))
  {
    if IsTaken(call.key, world, Stored(s, call.key.scope)) {
      TakenCall(s, t, call, world, n - 7);
    } else {
      RefusedCall(s, t, call, world, n - 3);
    }
  }

  /**
   * A call that nobody disturbs does what the sequential program does, in nine steps at
   * most.  A request is allowed, with the source version of the answer as its fence,
   * exactly when the answer passes and grants the action; all else ends without a fence.
   */
  lemma AloneIsTheProgram(s: State, t: Thread, call: Call, world: World, n: nat)
    requires Starts(s, t, call) && (call.Refresh? ==> call.key in s.entries) && n >= 9
    ensures Does(s, t, call, world, Alone(s, t, world, n))
  {
    LockedCall(s, t, call, world, n - 2);
    EntersAlone(s, t, call, world, n - 2);
  }

  /** A refresh of a key that is not cached does nothing. */
  lemma UncachedRefreshDoesNothing(s: State, t: Thread, key: Key, world: World, n: nat)
    requires Starts(s, t, Refresh(key)) && key !in s.entries && n >= 1
    ensures Alone(s, t, world, n) == s.(threads := s.threads[t := Local(Refresh(key), Finished, false, None)])
  {
    var s1 := StateAfter(s, Step(t, Go));
    assert s1 == s.(threads := s.threads[t := Local(Refresh(key), Finished, false, None)]);
    StopsAlone(s1, t, world, n - 1);
  }

  /** The steps that a thread takes alone are a run. */
  lemma {:induction false} AloneIsRun(states: seq<State>, steps: seq<Step>, t: Thread, world: World, n: nat)
    returns (states': seq<State>, steps': seq<Step>)
    requires Run(states, steps) && t in Last(states).threads
    ensures Run(states', steps') && states <= states' && Last(states') == Alone(Last(states), t, world, n)
    decreases n
  {
    var s := Last(states);
    if n == 0 || !CanStep(s, s.threads[t]) {
      states', steps' := states, steps;
    } else {
      var step := Step(t, Reply(world, s.threads[t].phase));
      RunExtends(states, steps, step);
      var longer := states + [StateAfter(s, step)];
      states', steps' := AloneIsRun(longer, steps + [step], t, world, n - 1);
      assert states <= longer;
    }
  }

  /**
   * Requests do get allowed: whatever is persisted, an answer that repeats it and grants
   * the action lets a request through.
   */
  lemma AnswerIsAllowed(key: Key, action: string, remote: Snapshot, checkpoint: Checkpoint)
    returns (states: seq<State>, steps: seq<Step>)
    requires Passes(key, World(Some(remote), false, false, 0), Some(checkpoint))
    requires PolicyAgreement.CapabilityAllowed(remote.capabilities, action)
    ensures Run(states, steps) && states[0].checkpoints == map[key.scope := checkpoint]
    ensures 0 in Last(states).threads && Last(states).threads[0].call == Request(key, action)
    ensures Last(states).threads[0].phase.Allowed? && Last(states).threads[0].fence == Some(remote.source)
  {
    var world := World(Some(remote), false, false, 0);
    var s := State(map[0 := Local(Request(key, action), Begun, false, None)], map[], map[],
                   map[key.scope := checkpoint]);
    var n :| n >= 9;
    states, steps := AloneIsRun([s], [], 0, world, n);
    AloneIsTheProgram(s, 0, Request(key, action), world, n);
  }

  // ---------------------------------------------------------------------
  // When the policy version of a scope falls
  // ---------------------------------------------------------------------

  /** The step persists an assessed answer. */
  ghost predicate IsSave(s: State, step: Step) {
    step.thread in s.threads &&
    var l := s.threads[step.thread];
    l.phase.Compared? && step.event != Fail && Assess(l.call.key, l.phase.remote, l.phase.previous).Taken?
  }

  ghost predicate SavesScope(s: State, step: Step, scope: Scope) {
    IsSave(s, step) && s.threads[step.thread].call.key.scope == scope
  }

  /** The save that is under way lowers the policy version: a higher source, a lower policy. */
  ghost predicate SavesLower(s: State, step: Step, scope: Scope)
    requires scope in s.checkpoints
  {
    SavesScope(s, step, scope) &&
    var remote, stored := s.threads[step.thread].phase.remote, s.checkpoints[scope];
    remote.checkpoint > stored.source && remote.policy < stored.policy
  }

  /**
   * A step lowers a scope's policy version exactly when it is such a save, and then the
   * answer was compared with another checkpoint.
   */
  lemma PolicyFallsIff(s: State, step: Step, s': State, scope: Scope)
    requires Next(s, step, s') && scope in s.checkpoints
    ensures scope in s'.checkpoints
    ensures s'.checkpoints[scope].policy < s.checkpoints[scope].policy <==> SavesLower(s, step, scope)
    ensures SavesLower(s, step, scope) ==> s.threads[step.thread].phase.previous != Some(s.checkpoints[scope])
  {
    var l := s.threads[step.thread];
    if IsSave(s, step) && l.call.key.scope == scope {
      SaveNeverLowersSource(Stored(s, scope), Assess(l.call.key, l.phase.remote, l.phase.previous).save);
    }
  }

  lemma OnlySavesChange(s: State, step: Step, s': State, scope: Scope)
    requires Next(s, step, s') && !SavesScope(s, step, scope)
    ensures Stored(s', scope) == Stored(s, scope)
  {
  }

  lemma {:induction false} StoredIsKept(states: seq<State>, steps: seq<Step>, a: nat, b: nat, scope: Scope)
    requires Run(states, steps) && a <= b < |states|
    requires forall m :: a <= m < b ==> !SavesScope(states[m], steps[m], scope)
    ensures Stored(states[b], scope) == Stored(states[a], scope)
  {
    if a < b {
      StoredIsKept(states, steps, a, b - 1, scope);
      OnlySavesChange(states[b - 1], steps[b - 1], states[b], scope);
    }
  }

  /** The compare and the save of one pull: the thread takes no step in between. */
  ghost predicate Pulls(states: seq<State>, steps: seq<Step>, c: nat, k: nat)
    requires Run(states, steps) && c < k < |steps|
  {
    && steps[c].thread == steps[k].thread && steps[c].thread in states[c].threads
    && states[c].threads[steps[c].thread].phase.Answered? && IsSave(states[k], steps[k])
    && forall m :: c < m < k ==> steps[m].thread != steps[k].thread
  }

  /** No save of the scope falls between the compare and the save of a pull. */
  ghost predicate Serialised(states: seq<State>, steps: seq<Step>)
    requires Run(states, steps)
  {
    forall c: nat, k: nat, m | c < m < k < |steps| && Pulls(states, steps, c, k) ::
      !SavesScope(states[m], steps[m], states[k].threads[steps[k].thread].call.key.scope)
  }

  /** A thread that has compared did so at some step, against what was stored then, and has not moved since. */
  lemma {:induction false} ComparedAt(states: seq<State>, steps: seq<Step>, k: nat, t: Thread) returns (c: nat)
    requires Run(states, steps) && k < |states| && t in states[k].threads && states[k].threads[t].phase.Compared?
    ensures c < k && steps[c].thread == t && t in states[c].threads && states[c].threads[t].phase.Answered?
    ensures forall m :: c < m < k ==> steps[m].thread != t
    ensures states[k].threads[t].phase.previous == Stored(states[c], states[k].threads[t].call.key.scope)
  {
    assert Next(states[k - 1], steps[k - 1], states[k]);
    if steps[k - 1].thread == t {
      c := k - 1;
    } else {
      c := ComparedAt(states, steps, k - 1, t);
    }
  }

  lemma SerialisedSaveIsCurrent(states: seq<State>, steps: seq<Step>, k: nat)
    requires Run(states, steps) && Serialised(states, steps) && k < |steps| && IsSave(states[k], steps[k])
    ensures var l := states[k].threads[steps[k].thread];
            l.phase.previous == Stored(states[k], l.call.key.scope)
  {
    var t := steps[k].thread;
    var scope := states[k].threads[t].call.key.scope;
    var c := ComparedAt(states, steps, k, t);
    assert Pulls(states, steps, c, k);
    forall m | c <= m < k ensures !SavesScope(states[m], steps[m], scope) {
    }
    StoredIsKept(states, steps, c, k, scope);
  }

  /**
   * As long as no save falls between the compare and the save of another pull of the
   * scope, its policy version never falls.
   */
  lemma {:induction false} SerialisedPolicyNeverFalls(states: seq<State>, steps: seq<Step>, i: nat, j: nat,
                                                      scope: Scope)
    requires Run(states, steps) && Serialised(states, steps) && i <= j < |states| && scope in states[i].checkpoints
    ensures scope in states[j].checkpoints && states[i].checkpoints[scope].policy <= states[j].checkpoints[scope].policy
  {
    if i < j {
      var k := j - 1;
      SerialisedPolicyNeverFalls(states, steps, i, k, scope);
      PolicyFallsIff(states[k], steps[k], states[j], scope);
      if SavesScope(states[k], steps[k], scope) {
        SerialisedSaveIsCurrent(states, steps, k);
      }
    }
  }

  // ---------------------------------------------------------------------
  // Which answers make it fall
  // ---------------------------------------------------------------------

  /** The versions that the producer has had, oldest first; neither ever decreases. */
  type Versions = seq<(Version, Version)>

  ghost predicate Growing(h: Versions) {
    forall i, j :: 0 <= i <= j < |h| ==> h[i].0 <= h[j].0 && h[i].1 <= h[j].1
  }

  /** The producer reads the source version and then, with a second query, the policy version. */
  ghost predicate ReadAt(h: Versions, i: nat, j: nat, answer: Snapshot) {
    i <= j < |h| && answer.source == answer.checkpoint == h[i].0 && answer.policy == h[j].1
  }

  /** Both versions are of one moment. */
  ghost predicate Whole(h: Versions, source: Version, policy: Version) {
    exists i :: 0 <= i < |h| && h[i] == (source, policy)
  }

  ghost predicate WholeLocal(h: Versions, l: Local) {
    match l.phase
    case Answered(remote) => Whole(h, remote.checkpoint, remote.policy)
    case Compared(remote, _) => Whole(h, remote.checkpoint, remote.policy)
    case _ => true
  }

  /** Everything stored and everything answered is of one moment of the producer. */
  ghost predicate AllWhole(h: Versions, s: State) {
    && (forall scope :: scope in s.checkpoints ==> Whole(h, s.checkpoints[scope].source, s.checkpoints[scope].policy))
    && (forall t :: t in s.threads ==> WholeLocal(h, s.threads[t]))
  }

  lemma WholeSaveIsWhole(h: Versions, s: State, l: Local, e: Event, scope: Scope)
    requires AllWhole(h, s) && WholeLocal(h, l) && scope in CheckpointsAfter(s, l, e)
    ensures var c := CheckpointsAfter(s, l, e)[scope]; Whole(h, c.source, c.policy)
  {
  }

  lemma StepKeepsWhole(h: Versions, s: State, step: Step, s': State)
    requires AllWhole(h, s) && Next(s, step, s')
    requires step.event.Answer? ==> Whole(h, step.event.remote.checkpoint, step.event.remote.policy)
    ensures AllWhole(h, s')
  {
    var l := s.threads[step.thread];
    forall scope | scope in s'.checkpoints
      ensures Whole(h, s'.checkpoints[scope].source, s'.checkpoints[scope].policy) {
      WholeSaveIsWhole(h, s, l, step.event, scope);
    }
  }

  /** Two whole reads of a growing producer never cross. */
  lemma WholeReadsDoNotCross(h: Versions, a: (Version, Version), b: (Version, Version))
    requires Growing(h) && Whole(h, a.0, a.1) && Whole(h, b.0, b.1) && a.0 < b.0
    ensures a.1 <= b.1
  {
    var i :| 0 <= i < |h| && h[i] == (a.0, a.1);
    var j :| 0 <= j < |h| && h[j] == (b.0, b.1);
    assert i <= j;
  }

  /** If the producer read both versions at once, the policy version would never fall, in any interleaving. */
  lemma {:induction false} WholeAnswersKeepPolicy(h: Versions, states: seq<State>, steps: seq<Step>, i: nat, j: nat,
                                                  scope: Scope)
    requires Run(states, steps) && Growing(h) && AllWhole(h, states[0])
    requires forall k :: 0 <= k < |steps| && steps[k].event.Answer? ==>
               Whole(h, steps[k].event.remote.checkpoint, steps[k].event.remote.policy)
    requires i <= j < |states| && scope in states[i].checkpoints
    ensures scope in states[j].checkpoints && states[i].checkpoints[scope].policy <= states[j].checkpoints[scope].policy
  {
    if i < j {
      var k := j - 1;
      WholeAnswersKeepPolicy(h, states, steps, i, k, scope);
      RunIsWhole(h, states, steps, k);
      PolicyFallsIff(states[k], steps[k], states[j], scope);
      if SavesScope(states[k], steps[k], scope) {
        var stored, l := states[k].checkpoints[scope], states[k].threads[steps[k].thread];
        assert WholeLocal(h, l);
        if stored.source < l.phase.remote.checkpoint {
          WholeReadsDoNotCross(h, (stored.source, stored.policy), (l.phase.remote.checkpoint, l.phase.remote.policy));
        }
      }
    }
  }

  lemma {:induction false} RunIsWhole(h: Versions, states: seq<State>, steps: seq<Step>, i: nat)
    requires Run(states, steps) && AllWhole(h, states[0]) && i < |states|
    requires forall k :: 0 <= k < |steps| && steps[k].event.Answer? ==>
               Whole(h, steps[k].event.remote.checkpoint, steps[k].event.remote.policy)
    ensures AllWhole(h, states[i])
  {
    if i > 0 {
      RunIsWhole(h, states, steps, i - 1);
      StepKeepsWhole(h, states[i - 1], steps[i - 1], states[i]);
    }
  }

  // ---------------------------------------------------------------------
  // A run in which it falls
  // ---------------------------------------------------------------------

  /** Nothing but this thread, the lock of its key and its cache entry changes. */
  ghost predicate Moves(s: State, t: Thread, l: Local, s': State) {
    && s'.threads == s.threads[t := l]
    && s'.checkpoints == s.checkpoints
    && forall k :: k in s'.pullMu ==> k == l.call.key || k in s.pullMu
  }

  /** A request enters and takes the lock of its key. */
  lemma Enter(states: seq<State>, steps: seq<Step>, t: Thread, key: Key, action: string)
    returns (states': seq<State>, steps': seq<Step>)
    requires Run(states, steps) && t in Last(states).threads && key !in Last(states).pullMu
    requires Last(states).threads[t] == Local(Request(key, action), Begun, false, None)
    ensures Run(states', steps') && states <= states' && steps' == steps + [Step(t, Go)] + [Step(t, Go)]
    ensures Moves(Last(states), t, Local(Request(key, action), Holding, false, None), Last(states'))
  {
    RunExtends(states, steps, Step(t, Go));
    states', steps' := states + [StateAfter(Last(states), Step(t, Go))], steps + [Step(t, Go)];
    var s := Last(states');
    assert s.threads[t] == Local(Request(key, action), Entered, false, None) && s.pullMu == Last(states).pullMu;
    RunExtends(states', steps', Step(t, Go));
    states', steps' := states' + [StateAfter(s, Step(t, Go))], steps' + [Step(t, Go)];
  }

  /** The answer arrives and is compared with what is stored. */
  lemma Compare(states: seq<State>, steps: seq<Step>, t: Thread, key: Key, action: string, remote: Snapshot)
    returns (states': seq<State>, steps': seq<Step>)
    requires Run(states, steps) && t in Last(states).threads
    requires Last(states).threads[t] == Local(Request(key, action), Holding, false, None)
    requires IsFor(remote, key) && Assess(key, remote, Stored(Last(states), key.scope)).Taken?
    ensures Run(states', steps') && states <= states'
    ensures steps' == steps + [Step(t, Answer(remote))] + [Step(t, Go)]
    ensures Moves(Last(states), t,
                  Local(Request(key, action), Compared(remote, Stored(Last(states), key.scope)), true, None),
                  Last(states'))
  {
    var answer, go := Step(t, Answer(remote)), Step(t, Go);
    RunExtends(states, steps, answer);
    states', steps' := states + [StateAfter(Last(states), answer)], steps + [answer];
    var s := Last(states');
    assert s.threads[t] == Local(Request(key, action), Answered(remote), true, None);
    RunExtends(states', steps', go);
    states', steps' := states' + [StateAfter(s, go)], steps' + [go];
  }

  /** A compared answer is saved. */
  lemma Save(states: seq<State>, steps: seq<Step>, t: Thread) returns (states': seq<State>, steps': seq<Step>)
    requires Run(states, steps) && t in Last(states).threads && Last(states).threads[t].phase.Compared?
    requires IsSave(Last(states), Step(t, Go))
    ensures Run(states', steps') && states <= states' && steps' == steps + [Step(t, Go)]
    ensures var s, s' := Last(states), Last(states');
            var l := s.threads[t];
            && s'.checkpoints == s.checkpoints[l.call.key.scope := Saved(
                 Stored(s, l.call.key.scope), Assess(l.call.key, l.phase.remote, l.phase.previous).save)]
            && forall u :: u in s.threads && u != t ==> u in s'.threads && s'.threads[u] == s.threads[u]
  {
    RunExtends(states, steps, Step(t, Go));
    states', steps' := states + [StateAfter(Last(states), Step(t, Go))], steps + [Step(t, Go)];
  }

  /** The producer's versions in the example, and the two answers it gives. */
  const HISTORY: Versions := [(6, 4), (7, 4), (7, 5)]

  function AnswerOf(key: Key, caps: PolicyAgreement.Capabilities, source: Version, policy: Version): Snapshot {
    Snapshot(key.actor, key.scope, caps, source, policy, source, true)
  }

  /** The first read is torn: the source version was read before, and the policy version after, the second read. */
  lemma AnswersAreReads(a: Key, b: Key, caps: PolicyAgreement.Capabilities)
    ensures Growing(HISTORY)
    ensures ReadAt(HISTORY, 0, 2, AnswerOf(a, caps, 6, 5)) && ReadAt(HISTORY, 1, 1, AnswerOf(b, caps, 7, 4))
  {
  }

  /** Every answer is a read of the producer's versions. */
  ghost predicate AllReads(h: Versions, steps: seq<Step>) {
    forall k :: 0 <= k < |steps| && steps[k].event.Answer? ==> exists i, j :: ReadAt(h, i, j, steps[k].event.remote)
  }

  ghost function TwoRequests(a: Key, b: Key, action: string): State {
    State(map[0 := Local(Request(a, action), Begun, false, None), 1 := Local(Request(b, action), Begun, false, None)],
          map[], map[], map[a.scope := Checkpoint(5, 3, true)])
  }

  function PullSteps(t: Thread, answer: Snapshot): seq<Step> {
    [Step(t, Go), Step(t, Go), Step(t, Answer(answer)), Step(t, Go)]
  }

  lemma EventsAreReads(a: Key, b: Key, caps: PolicyAgreement.Capabilities, steps: seq<Step>)
    requires steps == PullSteps(0, AnswerOf(a, caps, 6, 5)) + PullSteps(1, AnswerOf(b, caps, 7, 4)) +
               [Step(0, Go), Step(1, Go)]
    ensures AllReads(HISTORY, steps)
  {
    AnswersAreReads(a, b, caps);
    forall k | 0 <= k < |steps| && steps[k].event.Answer?
      ensures exists i, j :: ReadAt(HISTORY, i, j, steps[k].event.remote) {
      if k == 2 {
        assert ReadAt(HISTORY, 0, 2, steps[k].event.remote);
      } else {
        assert ReadAt(HISTORY, 1, 1, steps[k].event.remote);
      }
    }
  }

  /** A request pulls up to the compare. */
  lemma PullToCompare(states: seq<State>, steps: seq<Step>, t: Thread, key: Key, action: string, remote: Snapshot)
    returns (states': seq<State>, steps': seq<Step>)
    requires Run(states, steps) && t in Last(states).threads && key !in Last(states).pullMu
    requires Last(states).threads[t] == Local(Request(key, action), Begun, false, None)
    requires IsFor(remote, key) && Assess(key, remote, Stored(Last(states), key.scope)).Taken?
    ensures Run(states', steps') && states <= states' && steps' == steps + PullSteps(t, remote)
    ensures Moves(Last(states), t,
                  Local(Request(key, action), Compared(remote, Stored(Last(states), key.scope)), true, None),
                  Last(states'))
  {
    states', steps' := Enter(states, steps, t, key, action);
    states', steps' := Compare(states', steps', t, key, action, remote);
  }

  /** Two requests of one scope compare with the same checkpoint. */
  lemma BothCompare(a: Key, b: Key, action: string, first: Snapshot, second: Snapshot)
    returns (states: seq<State>, steps: seq<Step>)
    requires a.scope == b.scope && a != b && IsFor(first, a) && IsFor(second, b)
    requires Assess(a, first, Some(Checkpoint(5, 3, true))).Taken?
             && Assess(b, second, Some(Checkpoint(5, 3, true))).Taken?
    ensures Run(states, steps) && states[0] == TwoRequests(a, b, action)
    ensures steps == PullSteps(0, first) + PullSteps(1, second)
    ensures Last(states).checkpoints == map[a.scope := Checkpoint(5, 3, true)]
    ensures Last(states).threads == map[
              0 := Local(Request(a, action), Compared(first, Some(Checkpoint(5, 3, true))), true, None),
              1 := Local(Request(b, action), Compared(second, Some(Checkpoint(5, 3, true))), true, None)]
  {
    var start := [TwoRequests(a, b, action)];
    states, steps := PullToCompare(start, [], 0, a, action, first);
    var between := states;
    states, steps := PullToCompare(states, steps, 1, b, action, second);
    assert states[0] == between[0] == start[0];
  }

  /** Then one saves after the other, and the policy version falls; both answers are reads of a growing producer. */
  lemma InterleavedPullsCanLowerPolicy(a: Key, b: Key, action: string, caps: PolicyAgreement.Capabilities)
    returns (states: seq<State>, steps: seq<Step>, i: nat)
    requires a.scope == b.scope && a != b
    ensures Run(states, steps) && states[0] == TwoRequests(a, b, action) && i < |states|
    ensures a.scope in states[i].checkpoints && a.scope in Last(states).checkpoints
    ensures Last(states).checkpoints[a.scope].policy < states[i].checkpoints[a.scope].policy
    ensures Growing(HISTORY) && AllReads(HISTORY, steps)
  {
    var first, second := AnswerOf(a, caps, 6, 5), AnswerOf(b, caps, 7, 4);
    states, steps := BothCompare(a, b, action, first, second);
    var compared := states;
    states, steps := Save(states, steps, 0);
    i := |states| - 1;
    var between := states;
    assert between[0] == compared[0];
    states, steps := Save(states, steps, 1);
    assert states[0] == between[0] && states[i] == between[i];
    AnswersAreReads(a, b, caps);
    EventsAreReads(a, b, caps, steps);
  }
}
