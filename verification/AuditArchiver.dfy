/**
 * Archiving old events: write them to a file, commit the file with a checksum beside
 * it, and only then delete them.  Any step may fail, and other processes may insert
 * events at any time.
 */
module AuditArchiver {
  import opened Common
  import opened Orders

  datatype Entry = Entry(id: string, createdAt: int, body: string)

  type Table = map<string, Entry>

  /** Every event is stored under its id. */
  ghost predicate Keyed(events: Table) {
    forall id :: id in events ==> events[id].id == id
  }

  // ---------------------------------------------------------------------
  // Pages
  // ---------------------------------------------------------------------

  function EligibleKeys(events: Table, cutoff: int): set<(int, string)> {
    set id | id in events && events[id].createdAt < cutoff :: (events[id].createdAt, id)
  }

  /** All events older than the cutoff, oldest first. */
  function Eligible(events: Table, cutoff: int): seq<Entry> {
    EarlierIsTotal();
    var keys := Sorted(Earlier, EligibleKeys(events, cutoff));
    seq(|keys|, i requires 0 <= i < |keys| => assert keys[i] in EligibleKeys(events, cutoff); events[keys[i].1])
  }

  lemma InEligible(events: Table, cutoff: int, e: Entry)
    requires Keyed(events)
    ensures e in Eligible(events, cutoff) <==> e.id in events && events[e.id] == e && e.createdAt < cutoff
  {
    EarlierIsTotal();
    var keys, list := Sorted(Earlier, EligibleKeys(events, cutoff)), Eligible(events, cutoff);
    if e in list {
      var i :| 0 <= i < |list| && list[i] == e;
      assert keys[i] in EligibleKeys(events, cutoff);
    }
    if e.id in events && events[e.id] == e && e.createdAt < cutoff {
      assert (e.createdAt, e.id) in EligibleKeys(events, cutoff);
      var i :| 0 <= i < |keys| && keys[i] == (e.createdAt, e.id);
      assert list[i] == e;
    }
  }

  lemma EligibleOnce(events: Table, cutoff: int)
    requires Keyed(events)
    ensures Distinct(Eligible(events, cutoff))
  {
    EarlierIsTotal();
    var keys, list := Sorted(Earlier, EligibleKeys(events, cutoff)), Eligible(events, cutoff);
    forall i, j | 0 <= i < j < |list| ensures list[i] != list[j] {
      assert keys[i] in EligibleKeys(events, cutoff) && keys[j] in EligibleKeys(events, cutoff);
      assert keys[i] != keys[j];
    }
  }

  /** The query has a limit and no cursor. */
  function Page(events: Table, cutoff: int, batchSize: nat): seq<Entry> {
    var all := Eligible(events, cutoff);
    if |all| <= batchSize then all else all[..batchSize]
  }

  /** A page is the oldest eligible events, as many as fit; a short one is all of them. */
  lemma PageIsOldest(events: Table, cutoff: int, batchSize: nat)
    ensures var page, all := Page(events, cutoff, batchSize), Eligible(events, cutoff);
            && page <= all && |page| <= batchSize && (|page| < batchSize ==> page == all)
    ensures forall i, j :: 0 <= i < j < |Eligible(events, cutoff)| ==>
              Eligible(events, cutoff)[i].createdAt <= Eligible(events, cutoff)[j].createdAt
  {
    EarlierIsTotal();
    var keys := Sorted(Earlier, EligibleKeys(events, cutoff));
    forall i | 0 <= i < |keys| ensures Eligible(events, cutoff)[i].createdAt == keys[i].0 {
      assert keys[i] in EligibleKeys(events, cutoff);
    }
  }

  lemma InPage(events: Table, cutoff: int, batchSize: nat, e: Entry)
    requires Keyed(events) && e in Page(events, cutoff, batchSize)
    ensures e.id in events && events[e.id] == e
  {
    InEligible(events, cutoff, e);
  }

  /**
   * What the loop has exported after some rounds against an unchanging store, each round
   * asking for the first page again.
   */
  function Exported(events: Table, cutoff: int, batchSize: nat, rounds: nat): seq<Entry> {
    if rounds == 0 then [] else Exported(events, cutoff, batchSize, rounds - 1) + Page(events, cutoff, batchSize)
  }

  /** The loop leaves after a round whose page is empty or short. */
  predicate Stops(page: seq<Entry>, batchSize: nat) {
    |page| == 0 || |page| < batchSize
  }

  /**
   * Against an unchanging store the loop ends exactly when fewer events are eligible
   * than fit in a batch, and then its first round has exported each of them once.
   */
  lemma LoopEndsIff(events: Table, cutoff: int, batchSize: nat)
    requires Keyed(events) && 0 < batchSize
    ensures Stops(Page(events, cutoff, batchSize), batchSize) <==> |Eligible(events, cutoff)| < batchSize
    ensures |Eligible(events, cutoff)| < batchSize ==>
              Exported(events, cutoff, batchSize, 1) == Eligible(events, cutoff) && Distinct(Eligible(events, cutoff))
  {
    EligibleOnce(events, cutoff);
    assert Exported(events, cutoff, batchSize, 0) == [];
  }

  /**
   * Otherwise no round is the last, what is exported grows without bound, and from the
   * second round on events are doubled.
   */
  lemma {:induction false} LoopRepeats(events: Table, cutoff: int, batchSize: nat, rounds: nat)
    requires 0 < batchSize <= |Eligible(events, cutoff)|
    ensures |Exported(events, cutoff, batchSize, rounds)| >= rounds
    ensures rounds >= 2 ==> !Distinct(Exported(events, cutoff, batchSize, rounds))
  {
    var page := Page(events, cutoff, batchSize);
    if rounds > 0 {
      LoopRepeats(events, cutoff, batchSize, rounds - 1);
    }
    if rounds >= 2 {
      TwiceTheSame(Exported(events, cutoff, batchSize, rounds - 2), page);
    }
  }

  lemma TwiceTheSame(before: seq<Entry>, page: seq<Entry>)
    requires page != []
    ensures !Distinct(before + page + page)
  {
    var all := before + page + page;
    assert all[|before|] == page[0] && all[|before| + |page|] == page[0];
  }

  // ---------------------------------------------------------------------
  // Files
  // ---------------------------------------------------------------------

  /** A checksum file is complete, or was cut short by a failure. */
  datatype Sidecar = Whole(checksum: string) | Torn

  datatype Disk = Disk(files: map<string, seq<Entry>>, sidecars: map<string, Sidecar>)

  datatype SidecarFault = Written | NotWritten | CutShort

  /** What fails in one run, and what others insert before each query. */
  datatype Script = Script(createFails: bool, inserts: seq<seq<Entry>>, listFails: nat -> bool,
                           encodeFails: nat -> bool, closeFails: bool, readFails: bool, syncFails: bool,
                           renameFails: bool, sidecar: SidecarFault, deleteFails: bool)

  /** Nothing is inserted and no query or encoding fails while the pages are collected. */
  ghost predicate Calm(script: Script) {
    script.inserts != [] && forall i :: 0 <= i < |script.inserts| ==> script.inserts[i] == [] && !script.listFails(i)
  }

  ghost predicate Flawless(script: Script) {
    && Calm(script) && (forall i :: !script.encodeFails(i)) && !script.createFails && !script.closeFails
      && !script.readFails
    && !script.syncFails && !script.renameFails && script.sidecar == Written && !script.deleteFails
  }

  datatype Existing = Verified | Missing | Unusable

  class Archiver {
    const hash: seq<Entry> -> string
    const path: (int, string) -> string
    const sanitize: Entry -> Entry
    var events: Table
    var disk: Disk
    ghost var ever: set<Entry>

    /** Content hashes do not collide. */
    ghost predicate HashIsInjective() {
      forall a, b :: hash(a) == hash(b) ==> a == b
    }

    /** A complete checksum file vouches for the file beside it. */
    ghost predicate Vouched(p: string)
      reads this`disk
    {
      p in disk.sidecars && disk.sidecars[p].Whole? && p in disk.files
        && disk.sidecars[p].checksum == hash(disk.files[p])
    }

    /** A file holds the event, and a complete checksum file beside it says what the file holds. */
    ghost predicate IsKept(e: Entry)
      reads this`disk
    {
      exists p :: p in disk.files && sanitize(e) in disk.files[p]
               && p in disk.sidecars && disk.sidecars[p] == Whole(hash(disk.files[p]))
    }

    function Content(written: seq<Entry>): seq<Entry> {
      seq(|written|, i requires 0 <= i < |written| => sanitize(written[i]))
    }

    ghost predicate Archived(e: Entry)
      reads this`disk
    {
      exists p :: Vouched(p) && sanitize(e) in disk.files[p]
    }

    /** Every event ever inserted is in the table or in a committed archive. */
    ghost predicate Valid()
      reads this
    {
      && HashIsInjective() && Keyed(events)
      && (forall p :: p in disk.sidecars && disk.sidecars[p].Whole? ==> Vouched(p))
      && (forall e :: e in ever ==> (e.id in events && events[e.id] == e) || Archived(e))
      && (forall id :: id in events ==> events[id] in ever)
    }

    constructor (hash: seq<Entry> -> string, path: (int, string) -> string, sanitize: Entry -> Entry)
      requires forall a, b :: hash(a) == hash(b) ==> a == b
      ensures Valid() && events == map[] && disk == Disk(map[], map[]) && ever == {}
    {
      this.hash, this.path, this.sanitize := hash, path, sanitize;
      events, disk, ever := map[], Disk(map[], map[]), {};
    }

    /** Others insert events; an id that is already there is kept. */
    method Insert(entries: seq<Entry>)
      requires Valid()
      modifies this`events, this`ever
      ensures Valid() && old(ever) <= ever
      ensures forall id :: id in old(events) ==> id in events && events[id] == old(events)[id]
      ensures entries == [] ==> events == old(events)
    {
      for i := 0 to |entries|
        invariant i == 0 ==> events == old(events)
        invariant Valid() && old(ever) <= ever
        invariant forall id :: id in old(events) ==> id in events && events[id] == old(events)[id]
      {
        if entries[i].id !in events {
          events := events[entries[i].id := entries[i]];
          ever := ever + {entries[i]};
        }
      }
    }

    /** Everything on the way to the archive is still in the table. */
    ghost predicate Staged(written: seq<Entry>)
      reads this
    {
      forall e :: e in written ==> e.id in events && events[e.id] == e
    }

    lemma StagedPage(written: seq<Entry>, cutoff: int, batchSize: nat)
      requires Keyed(events) && Staged(written)
      ensures Staged(written + Page(events, cutoff, batchSize))
    {
      forall e | e in written + Page(events, cutoff, batchSize) ensures e.id in events && events[e.id] == e {
        if e !in written {
          InPage(events, cutoff, batchSize, e);
        }
      }
    }

    /** Write one page, event by event. */
    static method Encode(before: seq<Entry>, page: seq<Entry>, encodeFails: nat -> bool)
      returns (written: seq<Entry>, ok: bool)
      ensures ok ==> written == before + page
      ensures (forall i :: !encodeFails(i)) ==> ok
      ensures forall e :: e in written ==> e in before + page
    {
      written := before;
      for k := 0 to |page|
        invariant written == before + page[..k]
      {
        if encodeFails(|written|) {
          return written, false;
        }
        written := written + [page[k]];
      }
      assert page[..|page|] == page;
      ok := true;
    }

    /** Collect the pages.  Without an end in sight the run is cancelled from outside. */
    method Collect(cutoff: int, batchSize: nat, script: Script) returns (written: seq<Entry>, ok: bool)
      requires Valid() && 0 < batchSize
      modifies this`events, this`ever
      ensures Valid() && old(ever) <= ever && Staged(written)
      ensures forall id :: id in old(events) ==> id in events && events[id] == old(events)[id]
      ensures Calm(script) ==> events == old(events)
      ensures Calm(script) && ok ==> |Eligible(events, cutoff)| < batchSize && written == Eligible(events, cutoff)
      ensures Calm(script) && (forall i :: !script.encodeFails(i)) ==> (ok <==> |Eligible(events, cutoff)| < batchSize)
    {
      written, ok := [], false;
      for i := 0 to |script.inserts|
        invariant Calm(script) ==> events == old(events) && (i > 0 ==> |Eligible(events, cutoff)| >= batchSize)
        invariant i == 0 ==> written == []
        invariant Valid() && old(ever) <= ever && Staged(written)
        invariant forall id :: id in old(events) ==> id in events && events[id] == old(events)[id]
      {
        Insert(script.inserts[i]);
        if script.listFails(i) {
          return written, false;
        }
        var page := Page(events, cutoff, batchSize);
        if |page| == 0 {
          return written, true;
        }
        StagedPage(written, cutoff, batchSize);
        var encoded;
        written, encoded := Encode(written, page, script.encodeFails);
        if !encoded {
          return written, false;
        }
        if |page| < batchSize {
          return written, true;
        }
      }
    }

    method VerifyExisting(p: string, checksum: string, readFails: bool) returns (r: Existing)
      requires Valid()
      ensures r == Verified <==>
                !readFails && p in disk.sidecars && disk.sidecars[p] == Whole(checksum) && p in disk.files
      ensures r == Missing <==> !readFails && p !in disk.sidecars
      ensures r == Verified ==> Vouched(p) && hash(disk.files[p]) == checksum
    {
      if readFails {
        return Unusable;
      }
      if p !in disk.sidecars {
        return Missing;
      }
      if disk.sidecars[p] != Whole(checksum) {
        return Unusable;
      }
      if p !in disk.files {
        return Unusable;
      }
      return Verified;
    }

    /** Sync, rename, then write the checksum beside the file: only the last step vouches for it. */
    method Commit(content: seq<Entry>, p: string, script: Script) returns (ok: bool)
      requires Valid() && p !in disk.sidecars
      modifies this`disk
      ensures Valid()
      ensures ok <==> !script.syncFails && !script.renameFails && script.sidecar == Written
      ensures ok ==> disk == Disk(old(disk).files[p := content], old(disk).sidecars[p := Whole(hash(content))])
    {
      if script.syncFails || script.renameFails {
        return false;
      }
      var files := disk.files[p := content];
      var sidecars := match script.sidecar
        case Written => disk.sidecars[p := Whole(hash(content))]
        case NotWritten => disk.sidecars
        case CutShort => disk.sidecars[p := Torn];
      Replace(Disk(files, sidecars), p);
      return script.sidecar == Written;
    }

    /** Changing only a file that nothing vouches for keeps everything archived. */
    method Replace(next: Disk, p: string)
      requires Valid() && p !in disk.sidecars
      requires forall q :: q != p ==>
                 (q in next.sidecars <==> q in disk.sidecars) && (q in next.files <==> q in disk.files)
      requires forall q :: q != p && q in disk.sidecars ==> next.sidecars[q] == disk.sidecars[q]
      requires forall q :: q != p && q in disk.files ==> next.files[q] == disk.files[q]
      requires p in next.sidecars && next.sidecars[p].Whole? ==>
                 p in next.files && next.sidecars[p].checksum == hash(next.files[p])
      modifies this`disk
      ensures Valid() && disk == next
    {
      ghost var archived := set e | e in ever && Archived(e);
      label before:
      disk := next;
      forall e | e in archived ensures Archived(e) {
        ghost var q :| old@before(Vouched(q)) && sanitize(e) in old@before(disk).files[q];
        assert Vouched(q);
      }
    }

    /** Commit the archive, or find it intact from an earlier run. */
    method Publish(content: seq<Entry>, cutoff: int, script: Script) returns (p: string, ok: bool)
      requires Valid()
      modifies this`disk
      ensures Valid() && p == path(cutoff, hash(content))
      ensures ok ==>
                && p in disk.files && disk.files[p] == content
                && p in disk.sidecars && disk.sidecars[p] == Whole(hash(content))
      ensures p !in old(disk).sidecars && !script.readFails ==>
                (ok <==> !script.syncFails && !script.renameFails && script.sidecar == Written)
    {
      var checksum := hash(content);
      p := path(cutoff, checksum);
      var existing := VerifyExisting(p, checksum, script.readFails);
      if existing == Unusable {
        return p, false;
      }
      ok := true;
      if existing == Missing {
        ok := Commit(content, p, script);
      }
    }

    /** Delete the exported events, which an archive vouches for by now. */
    method Delete(written: seq<Entry>)
      requires Valid() && Staged(written) && forall e :: e in written ==> Archived(e)
      modifies this`events
      ensures Valid()
      ensures forall id :: id in old(events) && (id !in events || events[id] != old(events)[id]) ==>
                Archived(old(events)[id])
      ensures forall id :: id in events <==> id in old(events) && old(events)[id] !in written
      ensures forall id :: id in events ==> events[id] == old(events)[id]
    {
      var ids := set i | 0 <= i < |written| :: written[i].id;
      ghost var before := events;
      events := map id | id in events && id !in ids :: events[id];
      forall id | id in before && id !in events ensures Archived(before[id]) {
        assert id in ids;
        ghost var i :| 0 <= i < |written| && written[i].id == id;
        assert written[i] in written;
      }
    }

    /**
     * One run.  Wherever it fails, every event it deleted is in an archive that was
     * committed, or found intact, before the deletion; and nothing is ever lost.
     */
    method Archive(cutoff: int, batchSize: nat, script: Script) returns (exported: nat, ok: bool)
      requires Valid() && 0 < batchSize
      modifies this
      ensures Valid() && old(ever) <= ever
      ensures forall id :: id in old(events) && id !in events ==> IsKept(old(events)[id])
      ensures Flawless(script) && path(cutoff, hash(Content(Eligible(old(events), cutoff)))) !in old(disk).sidecars ==>
                (ok <==> |Eligible(old(events), cutoff)| < batchSize)
      ensures Calm(script) && ok ==>
                && |Eligible(old(events), cutoff)| == exported < batchSize
                && (forall id :: id in events <==> id in old(events) && old(events)[id].createdAt >= cutoff)
      ensures Flawless(script) && |Eligible(old(events), cutoff)| >= batchSize ==> !ok && events == old(events)
    {
      if script.createFails {
        return 0, false;
      }
      var written, collected := Collect(cutoff, batchSize, script);
      if !collected || script.closeFails {
        return 0, false;
      }
      var content := Content(written);
      var p, published := Publish(content, cutoff, script);
      if !published {
        return 0, false;
      }
      forall e | e in written ensures Archived(e) {
        ghost var i :| 0 <= i < |written| && written[i] == e;
        assert content[i] == sanitize(e);
        assert Vouched(p) && sanitize(e) in disk.files[p];
      }
      ghost var before := events;
      if written != [] {
        if script.deleteFails {
          return 0, false;
        }
        Delete(written);
      }
      forall id | id in before && Calm(script) ensures id in events <==> before[id].createdAt >= cutoff {
        InEligible(before, cutoff, before[id]);
      }
      return |written|, true;
    }
  }
}
