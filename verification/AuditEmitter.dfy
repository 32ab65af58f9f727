/**
 * The audit emitter: a bounded queue, one worker that persists in batches and keeps
 * a failed batch, and a shutdown that drains the queue and spools what is left.
 *
 * The steps of the callers, the worker and the clock interleave in any order; the
 * class below performs the same steps on its fields.
 */
module AuditEmitter {
  import opened Common
  import opened Lists

  datatype Event = Event(id: string, body: string)

  /** Where the worker is: in its select, about to persist, about to persist for the last time, spooling, gone. */
  datatype Worker = Waiting | Flushing | LastFlush | Spooling | Done

  /**
   * `accepted` is every event a caller was told is accepted, `persisted` and `spooled`
   * what reached the store and the file.
   */
  datatype State = State(capacity: nat, batchSize: nat, buffer: seq<Event>, batch: seq<Event>, worker: Worker,
                         closed: bool, failed: bool,
                         accepted: seq<Event>, persisted: seq<Event>, spooled: seq<Event>)

  /** A spool attempt writes `lines` events before it ends, well or not. */
  datatype Step =
    | Emit(event: Event, valid: bool)
    | Receive | Tick | Persist(ok: bool) | Drained | Spool(lines: nat, ok: bool)
    | CloseBuffer

  predicate Accepts(s: State, valid: bool) {
    valid && !s.closed && |s.buffer| < s.capacity
  }

  predicate CanStep(s: State, step: Step) {
    match step
    case Emit(_, _) => true
    case Receive => s.worker == Waiting && s.buffer != []
    case Tick => s.worker == Waiting
    case Persist(_) => s.worker == Flushing || s.worker == LastFlush
    case Drained => s.worker == Waiting && s.closed && s.buffer == []
    case Spool(lines, ok) => s.worker == Spooling && lines <= |s.batch| && (ok ==> lines == |s.batch|)
    case CloseBuffer => !s.closed
  }

  function After(s: State, step: Step): State
    requires CanStep(s, step)
  {
    match step
    case Emit(event, valid) =>
      if Accepts(s, valid) then s.(buffer := s.buffer + [event], accepted := s.accepted + [event]) else s
    case Receive =>
      s.(buffer := s.buffer[1..], batch := s.batch + [s.buffer[0]],
         worker := if |s.batch| + 1 >= s.batchSize then Flushing else Waiting)
    case Tick => s.(worker := if s.batch == [] then Waiting else Flushing)
    case Persist(ok) =>
      var next := if s.worker == Flushing then Waiting else if ok then Done else Spooling;
      if ok then s.(persisted := s.persisted + s.batch, batch := [], worker := next) else s.(worker := next)
    case Drained => s.(worker := if s.batch == [] then Done else LastFlush)
    case Spool(lines, ok) => s.(spooled := s.batch[..lines], failed := !ok, worker := Done)
    case CloseBuffer => s.(closed := true)
  }

  /** A caller's event is queued, and the caller told so, exactly when it is valid and the open queue has room. */
  lemma EmitMeans(s: State, event: Event, valid: bool)
    ensures var s' := After(s, Emit(event, valid));
            if valid && !s.closed && |s.buffer| < s.capacity
            then s' == s.(buffer := s.buffer + [event], accepted := s.accepted + [event])
            else s' == s
  {
  }

  /** A waiting worker takes the oldest event, and persists as soon as the batch is full or a tick finds one. */
  lemma WaitingMeans(s: State)
    requires s.worker == Waiting
    ensures CanStep(s, Receive) <==> s.buffer != []
    ensures s.buffer != [] ==>
              var s' := After(s, Receive);
              && s'.batch == s.batch + s.buffer[..1] && s'.buffer == s.buffer[1..]
              && s'.worker == if |s'.batch| >= s.batchSize then Flushing else Waiting
    ensures After(s, Tick).worker == (if s.batch != [] then Flushing else Waiting) && After(s, Tick).batch == s.batch
    ensures CanStep(s, Drained) <==> s.closed && s.buffer == []
    ensures CanStep(s, Drained) ==> After(s, Drained).worker == if s.batch != [] then LastFlush else Done
  {
  }

  /** Closing is possible once, and then the queue is closed; nothing else changes. */
  lemma CloseMeans(s: State)
    ensures CanStep(s, CloseBuffer) <==> !s.closed
    ensures !s.closed ==> After(s, CloseBuffer) == s.(closed := true)
  {
  }

  /** Only the last batch goes to the spool file, and only when the store refuses it. */
  lemma PersistMeans(s: State, ok: bool)
    requires s.worker == Flushing || s.worker == LastFlush
    ensures CanStep(s, Persist(ok))
    ensures var s' := After(s, Persist(ok));
            && (ok ==> s'.persisted == s.persisted + s.batch && s'.batch == [])
            && (!ok ==> s'.persisted == s.persisted && s'.batch == s.batch)
            && s'.worker == if s.worker == Flushing then Waiting else if ok then Done else Spooling
    ensures var last := s.(worker := Spooling); CanStep(last, Spool(|s.batch|, true))
  {
  }

  ghost predicate Init(s: State) {
    && 0 < s.capacity && 0 < s.batchSize && s.buffer == [] && s.batch == [] && s.worker == Waiting
    && !s.closed && !s.failed && s.accepted == [] && s.persisted == [] && s.spooled == []
  }

  /** Nothing accepted is lost, doubled or reordered on its way from the buffer to the store. */
  ghost predicate Inv(s: State) {
    && |s.buffer| <= s.capacity && 0 < s.batchSize
    && (s.worker != Waiting && s.worker != Done ==> s.batch != [])
    && (s.worker == LastFlush || s.worker == Spooling || s.worker == Done ==> s.closed && s.buffer == [])
    && (s.worker != Done ==> s.spooled == [] && !s.failed)
    && s.accepted == s.persisted + s.batch + s.buffer
    && (s.worker == Done ==> s.spooled <= s.batch && (!s.failed ==> s.spooled == s.batch))
  }

  lemma EmitKeepsInv(s: State, event: Event, valid: bool)
    requires Inv(s)
    ensures Inv(After(s, Emit(event, valid)))
  {
    ConcatAssoc(s.persisted + s.batch, s.buffer, [event]);
  }

  lemma ReceiveKeepsInv(s: State)
    requires Inv(s) && CanStep(s, Receive)
    ensures Inv(After(s, Receive))
  {
    Shift(s.persisted, s.batch, s.buffer);
  }

  /** Moving the head of the queue to the end of the batch keeps the whole. */
  lemma Shift(a: seq<Event>, b: seq<Event>, c: seq<Event>)
    requires c != []
    ensures a + (b + [c[0]]) + c[1..] == a + b + c
  {
  }

  lemma PersistKeepsInv(s: State, ok: bool)
    requires Inv(s) && CanStep(s, Persist(ok))
    ensures Inv(After(s, Persist(ok)))
  {
    ConcatEmpty(s.persisted + s.batch, []);
  }

  lemma SpoolKeepsInv(s: State, lines: nat, ok: bool)
    requires Inv(s) && CanStep(s, Spool(lines, ok))
    ensures Inv(After(s, Spool(lines, ok)))
  {
    assert s.batch[..|s.batch|] == s.batch;
  }

  lemma StepKeepsInv(s: State, step: Step)
    requires Inv(s) && CanStep(s, step)
    ensures Inv(After(s, step))
  {
    match step
    case Emit(event, valid) => EmitKeepsInv(s, event, valid);
    case Receive => ReceiveKeepsInv(s);
    case Persist(ok) => PersistKeepsInv(s, ok);
    case Spool(lines, ok) => SpoolKeepsInv(s, lines, ok);
    case _ =>
  }

  ghost predicate Run(states: seq<State>, steps: seq<Step>) {
    && |states| == |steps| + 1 && Init(states[0])
    && forall i :: 0 <= i < |steps| ==> CanStep(states[i], steps[i]) && states[i + 1] == After(states[i], steps[i])
  }

  lemma {:induction false} RunKeepsInv(states: seq<State>, steps: seq<Step>, i: nat)
    requires Run(states, steps) && i < |states|
    ensures Inv(states[i])
  {
    if i > 0 {
      RunKeepsInv(states, steps, i - 1);
      StepKeepsInv(states[i - 1], steps[i - 1]);
    }
  }

  /**
   * In every run the buffer respects its capacity, and the accepted events are the
   * persisted, the batched and the queued ones, in order.
   */
  lemma EventsAreConserved(states: seq<State>, steps: seq<Step>, i: nat)
    requires Run(states, steps) && i < |states|
    ensures var s := states[i];
            |s.buffer| <= s.capacity && s.accepted == s.persisted + s.batch + s.buffer
  {
    RunKeepsInv(states, steps, i);
  }

  /** The steps can be taken one after the other, and lead there. */
  ghost predicate Path(s: State, steps: seq<Step>, s': State)
    decreases |steps|
  {
    if steps == [] then s == s' else CanStep(s, steps[0]) && Path(After(s, steps[0]), steps[1..], s')
  }

  lemma {:induction false} PathOf(s: State, steps: seq<Step>, m: State, more: seq<Step>, s': State)
    requires Path(s, steps, m) && Path(m, more, s')
    ensures Path(s, steps + more, s')
    decreases |steps|
  {
    if steps == [] {
      assert steps + more == more;
    } else {
      assert (steps + more)[1..] == steps[1..] + more;
      PathOf(After(s, steps[0]), steps[1..], m, more, s');
    }
  }

  lemma PathOfOne(s: State, step: Step)
    requires CanStep(s, step)
    ensures Path(s, [step], After(s, step))
  {
    assert [step][1..] == [];
  }

  /** The worker has stored all that it had. */
  ghost predicate Emptied(s: State, s': State) {
    && Inv(s') && s'.worker == Waiting && s'.buffer == [] && s'.batch == []
    && s'.accepted == s.accepted && s'.closed == s.closed
  }

  lemma FlushedPath(s: State) returns (steps: seq<Step>, s': State)
    requires Inv(s) && s.worker == Flushing
    ensures Path(s, steps, s') && Inv(s') && s'.worker == Waiting && s'.batch == []
    ensures s'.buffer == s.buffer && s'.accepted == s.accepted && s'.closed == s.closed
  {
    PersistMeans(s, true);
    StepKeepsInv(s, Persist(true));
    PathOfOne(s, Persist(true));
    return [Persist(true)], After(s, Persist(true));
  }

  lemma {:induction false} WorkerEmptiesTheQueue(s: State) returns (steps: seq<Step>, s': State)
    requires Inv(s) && s.worker == Waiting
    ensures Path(s, steps, s') && Emptied(s, s')
    decreases |s.buffer|
  {
    WaitingMeans(s);
    if s.buffer == [] && s.batch == [] {
      return [], s;
    }
    var step := if s.buffer == [] then Tick else Receive;
    var m, to := After(s, step), [step];
    StepKeepsInv(s, step);
    PathOfOne(s, step);
    if m.worker == Flushing {
      var flush, flushed := FlushedPath(m);
      PathOf(s, to, m, flush, flushed);
      m, to := flushed, to + flush;
    }
    if s.buffer == [] {
      return to, m;
    }
    var rest;
    rest, s' := WorkerEmptiesTheQueue(m);
    PathOf(s, to, m, rest, s');
    steps := to + rest;
  }

  /**
   * While the worker waits and the queue is open, a valid event that finds room gets
   * stored, after all accepted before it, and the worker can be shut down: with a store
   * that answers, some steps lead there.
   */
  lemma AcceptedIsStored(s: State, event: Event) returns (steps: seq<Step>, s': State)
    requires Inv(s) && s.worker == Waiting && !s.closed && |s.buffer| < s.capacity
    ensures Path(s, [Emit(event, true)] + steps, s')
    ensures s'.persisted == s.accepted + [event] && ShutdownOk(s')
  {
    EmitMeans(s, event, true);
    var queued := After(s, Emit(event, true));
    StepKeepsInv(s, Emit(event, true));
    PathOfOne(s, Emit(event, true));
    var drain, empty := WorkerEmptiesTheQueue(queued);
    PathOf(s, [Emit(event, true)], queued, drain, empty);
    CloseMeans(empty);
    var closed := After(empty, CloseBuffer);
    StepKeepsInv(empty, CloseBuffer);
    PathOfOne(empty, CloseBuffer);
    PathOf(s, [Emit(event, true)] + drain, empty, [CloseBuffer], closed);
    WaitingMeans(closed);
    s' := After(closed, Drained);
    StepKeepsInv(closed, Drained);
    PathOfOne(closed, Drained);
    PathOf(s, [Emit(event, true)] + drain + [CloseBuffer], closed, [Drained], s');
    steps := drain + [CloseBuffer] + [Drained];
    assert [Emit(event, true)] + steps == [Emit(event, true)] + drain + [CloseBuffer] + [Drained];
  }

  /** Shutdown returns without an error once the worker is gone and did not fail to spool. */
  ghost predicate ShutdownOk(s: State) {
    s.worker == Done && !s.failed
  }

  lemma {:induction false} DoneIsFinal(states: seq<State>, steps: seq<Step>, i: nat, j: nat)
    requires Run(states, steps) && i <= j < |states| && states[i].worker == Done
    ensures states[j] == states[i]
  {
    if i < j {
      DoneIsFinal(states, steps, i, j - 1);
      RunKeepsInv(states, steps, j - 1);
    }
  }

  /**
   * After a shutdown without error every accepted event is persisted or spooled, each
   * exactly once and in order, and nothing is accepted from then on.
   */
  lemma ShutdownKeepsEverything(states: seq<State>, steps: seq<Step>, i: nat, j: nat)
    requires Run(states, steps) && i <= j < |states| && ShutdownOk(states[i])
    ensures states[j].accepted == states[i].persisted + states[i].spooled
    ensures states[j].persisted == states[i].persisted && states[j].spooled == states[i].spooled
  {
    RunKeepsInv(states, steps, i);
    DoneIsFinal(states, steps, i, j);
    ConcatEmpty(states[i].persisted + states[i].batch, states[i].buffer);
  }

  /** A failed spool loses exactly the accepted events after the lines that were written. */
  lemma FailedSpoolLoses(states: seq<State>, steps: seq<Step>, i: nat)
    requires Run(states, steps) && i < |states| && states[i].worker == Done && states[i].failed
    ensures var s := states[i];
            s.persisted + s.spooled <= s.accepted && s.accepted == s.persisted + s.batch && s.spooled <= s.batch
  {
    RunKeepsInv(states, steps, i);
    var s := states[i];
    ConcatEmpty(s.persisted + s.batch, s.buffer);
    assert s.persisted + s.batch == s.persisted + s.spooled + s.batch[|s.spooled|..] by {
      assert s.batch == s.spooled + s.batch[|s.spooled|..];
      ConcatAssoc(s.persisted, s.spooled, s.batch[|s.spooled|..]);
    }
  }

  // ---------------------------------------------------------------------
  // The program
  // ---------------------------------------------------------------------

  datatype Outcome = Accepted | Invalid | Closed | BufferFull

  class Emitter {
    const capacity: nat
    const batchSize: nat
    var buffer: seq<Event>
    var batch: seq<Event>
    var worker: Worker
    var closed: bool
    var failed: bool
    var stored: seq<Event>
    var file: seq<Event>
    ghost var accepted: seq<Event>

    ghost function Model(): State
      reads this
    {
      State(capacity, batchSize, buffer, batch, worker, closed, failed, accepted, stored, file)
    }

    ghost predicate Valid()
      reads this
    {
      Inv(Model())
    }

    constructor (bufferSize: int, batchSize: int)
      ensures Init(Model()) && Valid()
    {
      capacity := if bufferSize <= 0 then 1 else bufferSize;
      this.batchSize := if batchSize <= 0 then 1 else batchSize;
      buffer, batch, worker, closed, failed := [], [], Waiting, false, false;
      stored, file, accepted := [], [], [];
    }

    /** A caller is never blocked: the event is queued or refused, with the reason. */
    method Emit(event: Event, valid: bool) returns (outcome: Outcome)
      requires Valid()
      modifies this
      ensures Valid() && Model() == After(old(Model()), Step.Emit(event, valid))
      ensures outcome.Accepted? <==> valid && !old(closed) && |old(buffer)| < capacity
      ensures accepted == if outcome.Accepted? then old(accepted) + [event] else old(accepted)
      ensures outcome.BufferFull? ==> |buffer| == capacity
    {
      EmitKeepsInv(Model(), event, valid);
      if !valid {
        return Invalid;
      }
      if closed {
        return Closed;
      }
      if |buffer| < capacity {
        buffer := buffer + [event];
        accepted := accepted + [event];
        return Accepted;
      }
      return BufferFull;
    }

    /** Closing is idempotent. */
    method CloseQueue()
      requires Valid()
      modifies this`closed
      ensures Valid() && closed
    {
      closed := true;
    }

    /** Persist the batch; if the store fails, keep it. */
    method Flush(ok: bool)
      requires Valid() && (worker == Flushing || worker == LastFlush)
      modifies this`batch, this`stored, this`worker
      ensures Valid() && Model() == After(old(Model()), Persist(ok))
    {
      PersistKeepsInv(Model(), ok);
      var pending := batch;
      batch := [];
      if ok {
        stored := stored + pending;
        worker := if worker == Flushing then Waiting else Done;
      } else {
        batch := pending + batch;
        ConcatEmpty(pending, []);
        worker := if worker == Flushing then Waiting else Spooling;
      }
    }

    /** Append the batch to the spool file line by line; an error ends it after `lines` of them. */
    method SpoolBatch(lines: nat, ok: bool)
      requires Valid() && CanStep(Model(), Spool(lines, ok))
      modifies this`file, this`failed, this`worker
      ensures Valid() && Model() == After(old(Model()), Spool(lines, ok))
    {
      SpoolKeepsInv(Model(), lines, ok);
      ghost var s := Model();
      var i := 0;
      while i < lines
        invariant i <= lines && file == batch[..i]
        invariant Model() == s.(spooled := batch[..i])
      {
        file := file + [batch[i]];
        i := i + 1;
      }
      failed := !ok;
      worker := Done;
    }

    /** One round of the worker's select that takes an event from the queue. */
    method TakeOne(ok: bool)
      requires Valid() && worker == Waiting && buffer != []
      modifies this`buffer, this`batch, this`stored, this`worker
      ensures Valid() && worker == Waiting
      ensures var received := After(old(Model()), Receive);
              Model() == if received.worker == Flushing then After(received, Persist(ok)) else received
    {
      ReceiveKeepsInv(Model());
      var event := buffer[0];
      buffer := buffer[1..];
      batch := batch + [event];
      if |batch| >= batchSize {
        worker := Flushing;
        Flush(ok);
      }
    }

    /** The worker finds the queue closed and empty: flush, then spool what the store still refuses. */
    method Finish(ok: bool, lines: nat, spoolOk: bool)
      requires Valid() && worker == Waiting && closed && buffer == []
      requires lines <= |batch| && (spoolOk ==> lines == |batch|)
      modifies this`batch, this`stored, this`file, this`failed, this`worker
      ensures Valid() && worker == Done
      ensures failed <==> old(batch) != [] && !ok && !spoolOk
      ensures !failed ==> accepted == stored + file
    {
      if batch != [] {
        worker := LastFlush;
        Flush(ok);
        if worker == Spooling {
          SpoolBatch(lines, spoolOk);
        }
      } else {
        worker := Done;
      }
      ConcatEmpty(stored + batch, buffer);
    }

    /** Once the queue is closed the worker drains it and stops, whatever the store does. */
    method DrainAndStop(outcomes: nat -> bool, spoolOk: bool)
      requires Valid() && worker == Waiting && closed
      modifies this`buffer, this`batch, this`stored, this`file, this`failed, this`worker
      ensures Valid() && worker == Done && (spoolOk ==> !failed)
      ensures !failed ==> accepted == stored + file
    {
      var i := 0;
      while buffer != []
        invariant Valid() && worker == Waiting
      {
        TakeOne(outcomes(i));
        i := i + 1;
      }
      Finish(outcomes(i), if spoolOk then |batch| else 0, spoolOk);
    }

    /**
     * Shutting down closes the queue and waits for the worker.  If the caller gives up
     * waiting, after the worker has taken some events, that is an error, and the worker
     * is left to drain the rest; without an error nothing accepted is lost.
     */
    method Shutdown(outcomes: nat -> bool, spoolOk: bool, expires: Option<nat>) returns (ok: bool)
      requires Valid() && worker == Waiting
      modifies this
      ensures Valid() && closed && accepted == old(accepted)
      ensures expires.None? ==> worker == Done && ok == !failed && (spoolOk ==> ok)
      ensures expires.Some? ==> !ok && worker == Waiting
      ensures ok ==> accepted == stored + file
    {
      CloseQueue();
      if expires.None? {
        DrainAndStop(outcomes, spoolOk);
        return !failed;
      }
      var i := 0;
      while i < expires.value && buffer != []
        invariant Valid() && worker == Waiting && closed && accepted == old(accepted)
      {
        TakeOne(outcomes(i));
        i := i + 1;
      }
      return false;
    }
  }
}
