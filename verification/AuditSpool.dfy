/**
 * Replaying a spool file into the event store.  The store keeps one event per id, so
 * a replay that is repeated after a failure changes nothing the second time.
 */
module AuditSpool {
  import opened Common
  import opened AuditEmitter

  datatype Line = Blank | Corrupt | Record(event: Event)

  type Normalizer = Event -> Option<Event>

  type EventStore = map<string, Event>

  /** An insert of a batch keeps events that are already there. */
  function Stored(store: EventStore, events: seq<Event>): EventStore
    decreases |events|
  {
    if events == [] then store else
    var n := |events| - 1;
    var before := Stored(store, events[..n]);
    if events[n].id in before then before else before[events[n].id := events[n]]
  }

  /** The normalized events of a file, unless a line is corrupt or an event is refused. */
  function Decoded(lines: seq<Line>, normalize: Normalizer): Option<seq<Event>>
    decreases |lines|
  {
    if lines == [] then Some([]) else
    var n := |lines| - 1;
    var before := Decoded(lines[..n], normalize);
    match lines[n]
    case Blank => before
    case Corrupt => None
    case Record(event) =>
      if before.None? || normalize(event).None? then None else Some(before.value + [normalize(event).value])
  }

  lemma {:induction false} CorruptStaysCorrupt(lines: seq<Line>, normalize: Normalizer, i: nat)
    requires i <= |lines| && Decoded(lines[..i], normalize).None?
    ensures Decoded(lines, normalize).None?
    decreases |lines|
  {
    if i < |lines| {
      assert lines[..|lines| - 1][..i] == lines[..i];
      CorruptStaysCorrupt(lines[..|lines| - 1], normalize, i);
    } else {
      assert lines[..i] == lines;
    }
  }

  /** Which steps of an attempt fail. */
  datatype Faults = Faults(open: bool, scan: bool, batch: bool, remove: bool)

  datatype Recovery = Recovery(file: Option<seq<Line>>, store: EventStore, ok: bool, count: nat)

  /** What an attempt may leave: all as it was, or all events of the file stored, and then the file may be gone. */
  ghost predicate Attempt(normalize: Normalizer, file: Option<seq<Line>>, store: EventStore, r: Recovery) {
    && (file.None? ==> r.file == None && r.store == store)
    && (file.Some? ==>
          var decoded := Decoded(file.value, normalize);
          && (r.file == file || r.file == None)
          && (r.store == store || (decoded.Some? && r.store == Stored(store, decoded.value)))
          && (r.file == None ==> decoded.Some? && r.store == Stored(store, decoded.value)))
  }

  /** All events of the file are in the store before the file goes away, or nothing happens. */
  method Recover(file: Option<seq<Line>>, store: EventStore, normalize: Normalizer, faults: Faults)
    returns (r: Recovery)
    ensures Attempt(normalize, file, store, r)
    ensures r.ok ==> r.file == None
    ensures r.ok <==>
              (file.Some? ==>
                 && !faults.open && !faults.scan && Decoded(file.value, normalize).Some? && !faults.remove
                 && (Decoded(file.value, normalize).value == [] || !faults.batch))
    ensures r.ok && file.Some? ==> r.count == |Decoded(file.value, normalize).value|
  {
    if file.None? {
      return Recovery(None, store, true, 0);
    }
    if faults.open {
      return Recovery(file, store, false, 0);
    }
    var lines, events := file.value, [];
    for i := 0 to |lines|
      invariant Decoded(lines[..i], normalize) == Some(events)
    {
      assert lines[..i + 1][..i] == lines[..i];
      match lines[i] {
        case Blank =>
        case Corrupt =>
          CorruptStaysCorrupt(lines, normalize, i + 1);
          return Recovery(file, store, false, 0);
        case Record(event) =>
          var normalized := normalize(event);
          if normalized.None? {
            CorruptStaysCorrupt(lines, normalize, i + 1);
            return Recovery(file, store, false, 0);
          }
          events := events + [normalized.value];
      }
    }
    assert lines[..|lines|] == lines;
    if faults.scan {
      return Recovery(file, store, false, 0);
    }
    if events == [] {
      return if faults.remove then Recovery(file, store, false, 0) else Recovery(None, store, true, 0);
    }
    if faults.batch {
      return Recovery(file, store, false, 0);
    }
    var replayed := Stored(store, events);
    return if faults.remove then Recovery(file, replayed, false, |events|)
      else Recovery(None, replayed, true, |events|);
  }

  // ---------------------------------------------------------------------
  // Replaying again
  // ---------------------------------------------------------------------

  ghost predicate Holds(store: EventStore, events: seq<Event>) {
    forall i :: 0 <= i < |events| ==> events[i].id in store
  }

  lemma {:induction false} StoredHolds(store: EventStore, events: seq<Event>)
    ensures Holds(Stored(store, events), events)
    ensures forall id :: id in store ==> id in Stored(store, events) && Stored(store, events)[id] == store[id]
    decreases |events|
  {
    if events != [] {
      var n := |events| - 1;
      StoredHolds(store, events[..n]);
      assert forall i :: 0 <= i < n ==> events[..n][i] == events[i];
    }
  }

  lemma {:induction false} HeldIsUnchanged(store: EventStore, events: seq<Event>)
    requires Holds(store, events)
    ensures Stored(store, events) == store
    decreases |events|
  {
    if events != [] {
      var n := |events| - 1;
      assert forall i :: 0 <= i < n ==> events[..n][i] == events[i];
      HeldIsUnchanged(store, events[..n]);
    }
  }

  /** A second replay of the same events changes nothing. */
  lemma ReplayIsIdempotent(store: EventStore, events: seq<Event>)
    ensures Stored(Stored(store, events), events) == Stored(store, events)
  {
    StoredHolds(store, events);
    HeldIsUnchanged(Stored(store, events), events);
  }

  /** Everything that was stored is still stored. */
  ghost predicate Extends(store: EventStore, later: EventStore) {
    forall id :: id in store ==> id in later && later[id] == store[id]
  }

  function FileBefore(lines: seq<Line>, rs: seq<Recovery>, i: nat): Option<seq<Line>>
    requires i <= |rs|
  {
    if i == 0 then Some(lines) else rs[i - 1].file
  }

  function StoreBefore(store: EventStore, rs: seq<Recovery>, i: nat): EventStore
    requires i <= |rs|
  {
    if i == 0 then store else rs[i - 1].store
  }

  /** Any number of attempts, each failing anywhere; before each, others may have added events. */
  ghost predicate Attempts(lines: seq<Line>, normalize: Normalizer, store: EventStore, found: seq<EventStore>,
                           rs: seq<Recovery>) {
    && |found| == |rs|
    && (forall i :: 0 <= i < |rs| ==> Extends(StoreBefore(store, rs, i), found[i]))
    && (forall i :: 0 <= i < |rs| ==> Attempt(normalize, FileBefore(lines, rs, i), found[i], rs[i]))
  }

  /** All events of the file are stored. */
  ghost predicate Replayed(lines: seq<Line>, normalize: Normalizer, store: EventStore) {
    Decoded(lines, normalize).Some? && Holds(store, Decoded(lines, normalize).value)
  }

  /**
   * However often the recovery is tried, wherever it fails and whatever others store
   * meanwhile: nothing stored is changed, the file is gone only when all its events
   * are stored, and an attempt on events that are all stored changes nothing.
   */
  lemma {:induction false} EventsAreReplayedOnce(lines: seq<Line>, normalize: Normalizer, store: EventStore,
                                                 found: seq<EventStore>, rs: seq<Recovery>, i: nat)
    requires Attempts(lines, normalize, store, found, rs) && i < |rs|
    ensures rs[i].file == Some(lines) || rs[i].file == None
    ensures Extends(store, rs[i].store) && Extends(found[i], rs[i].store)
    ensures rs[i].file == None ==> Replayed(lines, normalize, rs[i].store)
    ensures Replayed(lines, normalize, found[i]) ==> rs[i].store == found[i]
  {
    assert Attempt(normalize, FileBefore(lines, rs, i), found[i], rs[i]);
    assert Extends(StoreBefore(store, rs, i), found[i]);
    if i > 0 {
      EventsAreReplayedOnce(lines, normalize, store, found, rs, i - 1);
      if rs[i - 1].file == None {
        ExtendedIsReplayed(lines, normalize, rs[i - 1].store, found[i]);
      }
    }
    OneAttempt(lines, normalize, FileBefore(lines, rs, i), found[i], rs[i]);
  }

  lemma OneAttempt(lines: seq<Line>, normalize: Normalizer, file: Option<seq<Line>>, found: EventStore, r: Recovery)
    requires Attempt(normalize, file, found, r) && (file == Some(lines) || file == None)
    requires file == None ==> Replayed(lines, normalize, found)
    ensures r.file == Some(lines) || r.file == None
    ensures Extends(found, r.store) && (r.file == None ==> Replayed(lines, normalize, r.store))
    ensures Replayed(lines, normalize, found) ==> r.store == found
  {
    if Decoded(lines, normalize).Some? {
      var events := Decoded(lines, normalize).value;
      StoredHolds(found, events);
      if Holds(found, events) {
        HeldIsUnchanged(found, events);
      }
    }
  }

  lemma ExtendedIsReplayed(lines: seq<Line>, normalize: Normalizer, store: EventStore, later: EventStore)
    requires Replayed(lines, normalize, store) && Extends(store, later)
    ensures Replayed(lines, normalize, later)
  {
  }

  // ---------------------------------------------------------------------
  // What the emitter spools is what the recovery replays
  // ---------------------------------------------------------------------

  function Lines(events: seq<Event>): seq<Line> {
    seq(|events|, i requires 0 <= i < |events| => Record(events[i]))
  }

  /** Events that were normalized when they were accepted come back unchanged and in order. */
  lemma {:induction false} SpooledIsRecovered(events: seq<Event>, normalize: Normalizer)
    requires forall i :: 0 <= i < |events| ==> normalize(events[i]) == Some(events[i])
    ensures Decoded(Lines(events), normalize) == Some(events)
    decreases |events|
  {
    if events != [] {
      var n := |events| - 1;
      assert Lines(events)[..n] == Lines(events[..n]);
      SpooledIsRecovered(events[..n], normalize);
      assert events == events[..n] + [events[n]];
    }
  }
}
