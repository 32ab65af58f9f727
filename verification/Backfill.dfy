/**
 * The data fixes that run after the rows are copied: each is one statement over a
 * table, so every row is judged by the table as it was before the statement.
 */
module Backfill {
  import opened Common
  import opened Orders
  import opened UniqueIndexes

  const APPROVED := "approved"
  const PENDING := "pending_approval"
  const SUPERSEDED := "superseded"

  datatype Revision = Revision(definition: string, status: string, version: int, stateVersion: int,
                               createdBy: string, createdByUser: string)

  type Revisions = map<string, Revision>

  datatype Operation = Operation(terminal: bool, updatedAt: int, terminalAt: Option<int>)

  type Operations = map<string, Operation>

  function TerminalAt(operations: Operations): Operations {
    map id | id in operations ::
      if operations[id].terminal && operations[id].terminalAt.None?
      then operations[id].(terminalAt := Some(operations[id].updatedAt)) else operations[id]
  }

  function StateVersion(revisions: Revisions): Revisions {
    map id | id in revisions ::
      if revisions[id].stateVersion == 0 || revisions[id].stateVersion == 1
      then revisions[id].(stateVersion := if revisions[id].version > 0 then revisions[id].version else 1)
      else revisions[id]
  }

  function CreatedByUser(revisions: Revisions): Revisions {
    map id | id in revisions ::
      if revisions[id].createdByUser == "" then revisions[id].(createdByUser := revisions[id].createdBy)
      else revisions[id]
  }

  /** `other` is an approved revision of the same definition with a higher version, or the same and a higher id. */
  predicate Newer(revisions: Revisions, other: string, id: string)
    requires other in revisions && id in revisions
  {
    && revisions[other].definition == revisions[id].definition && revisions[other].status == APPROVED
    && (revisions[other].version > revisions[id].version
        || (revisions[other].version == revisions[id].version && Before(id, other)))
  }

  predicate HasNewer(revisions: Revisions, id: string)
    requires id in revisions
  {
    exists other :: other in revisions && Newer(revisions, other, id)
  }

  function Retired(r: Revision): Revision {
    r.(status := SUPERSEDED, stateVersion := r.stateVersion + 1, version := r.version + 1)
  }

  function Retire(revisions: Revisions): Revisions {
    map id | id in revisions ::
      if revisions[id].status == APPROVED && HasNewer(revisions, id) then Retired(revisions[id]) else revisions[id]
  }

  // ---------------------------------------------------------------------
  // One approved revision per definition
  // ---------------------------------------------------------------------

  function ApprovedOf(revisions: Revisions, definition: string): set<string> {
    set id | id in revisions && revisions[id].definition == definition && revisions[id].status == APPROVED
  }

  /** Versions first, ids break ties; the newest comes first. */
  predicate NewerRank(a: (int, string), b: (int, string)) {
    a.0 > b.0 || (a.0 == b.0 && Before(b.1, a.1))
  }

  lemma NewerRankIsTotal()
    ensures TotalOrder(NewerRank)
  {
    BeforeIsTotal();
  }

  /** Among approved revisions of a definition one is newer than all others. */
  lemma NewestExists(revisions: Revisions, definition: string) returns (newest: string)
    requires ApprovedOf(revisions, definition) != {}
    ensures newest in ApprovedOf(revisions, definition)
    ensures forall id :: id in ApprovedOf(revisions, definition) && id != newest ==> Newer(revisions, newest, id)
    ensures !HasNewer(revisions, newest)
  {
    NewerRankIsTotal();
    BeforeIsTotal();
    var approved := ApprovedOf(revisions, definition);
    var ranks := set id | id in approved :: (revisions[id].version, id);
    var some :| some in approved;
    assert (revisions[some].version, some) in ranks;
    var first := LeastExists(NewerRank, ranks);
    newest := first.1;
    forall id | id in approved && id != newest ensures Newer(revisions, newest, id) && !Newer(revisions, id, newest) {
      assert (revisions[id].version, id) in ranks;
    }
    BeforeIrreflexive(newest);
    forall other | other in revisions ensures !Newer(revisions, other, newest) {
      assert other in approved <==> revisions[other].definition == definition && revisions[other].status == APPROVED;
    }
  }

  /** Of this definition, the fix supersedes the approved revisions other than `newest` and leaves the rest alone. */
  ghost predicate RetiredBut(revisions: Revisions, definition: string, newest: string) {
    forall id :: id in revisions && revisions[id].definition == definition ==>
      var r := revisions[id];
      Retire(revisions)[id] ==
      if r.status == "approved" && id != newest
      then r.(status := "superseded", version := r.version + 1, stateVersion := r.stateVersion + 1) else r
  }

  /** After the fix, exactly the newest approved revision of each definition is still approved. */
  lemma RetireKeepsTheNewest(revisions: Revisions, definition: string)
    ensures Retire(revisions).Keys == revisions.Keys
    ensures ApprovedOf(revisions, definition) == {} ==>
              forall id :: id in revisions && revisions[id].definition == definition ==>
                Retire(revisions)[id] == revisions[id]
    ensures ApprovedOf(revisions, definition) == {} ==> ApprovedOf(Retire(revisions), definition) == {}
    ensures ApprovedOf(revisions, definition) != {} ==>
              exists newest :: && newest in ApprovedOf(revisions, definition)
                               && ApprovedOf(Retire(revisions), definition) == {newest}
                               && RetiredBut(revisions, definition, newest)
                               && forall id :: id in ApprovedOf(revisions, definition) && id != newest ==>
                                    Newer(revisions, newest, id)
  {
    if ApprovedOf(revisions, definition) != {} {
      var newest := NewestExists(revisions, definition);
      forall id | id in revisions && revisions[id].definition == definition
        ensures revisions[id].status == APPROVED && id != newest ==> HasNewer(revisions, id)
      {
        assert id in ApprovedOf(revisions, definition) <==> revisions[id].status == APPROVED;
      }
      assert RetiredBut(revisions, definition, newest);
      assert ApprovedOf(Retire(revisions), definition) == {newest};
    } else {
      forall id | id in revisions && revisions[id].definition == definition
        ensures revisions[id].status != APPROVED
      {
        assert id !in ApprovedOf(revisions, definition);
      }
    }
  }

  /** The fix has nothing left to do after it has run. */
  lemma RetireIsIdempotent(revisions: Revisions)
    ensures Retire(Retire(revisions)) == Retire(revisions)
  {
    var once := Retire(revisions);
    forall id | id in once && once[id].status == APPROVED ensures !HasNewer(once, id) {
      var definition := once[id].definition;
      assert id in ApprovedOf(once, definition) && id in ApprovedOf(revisions, definition);
      RetireKeepsTheNewest(revisions, definition);
      BeforeIrreflexive(id);
      forall other | other in once ensures !Newer(once, other, id) {
        assert other in ApprovedOf(once, definition) ==> other == id;
      }
    }
  }

  /** All fixes of the revisions, in the order they run. */
  function BackfillRevisions(revisions: Revisions): Revisions {
    Retire(CreatedByUser(StateVersion(revisions)))
  }

  /** The first two fixes have nothing to do for this row. */
  ghost predicate Filled(r: Revision) {
    && (r.stateVersion == 0 || r.stateVersion == 1 ==> r.stateVersion == if r.version > 0 then r.version else 1)
    && (r.createdByUser == "" ==> r.createdBy == "")
  }

  lemma FilledIsUnchanged(revisions: Revisions)
    requires forall id :: id in revisions ==> Filled(revisions[id])
    ensures StateVersion(revisions) == revisions && CreatedByUser(revisions) == revisions
  {
  }

  // ---------------------------------------------------------------------
  // The tables that the target can hold
  // ---------------------------------------------------------------------

  /** The index on approved revisions: at most one per definition. */
  ghost predicate OneApproved(revisions: Revisions) {
    forall a, b :: a in revisions && b in revisions && a != b && revisions[a].definition == revisions[b].definition ==>
      revisions[a].status != APPROVED || revisions[b].status != APPROVED
  }

  /** The index on versions: no two revisions of a definition share one. */
  ghost predicate UniqueVersions(revisions: Revisions) {
    forall a, b :: a in revisions && b in revisions && a != b && revisions[a].definition == revisions[b].definition ==>
      revisions[a].version != revisions[b].version
  }

  function ValuesOf(r: Revision): Values {
    RevisionValues(r.definition, r.status, r.version)
  }

  const REVISION_INDEXES := [APPROVED_INDEX, PENDING_INDEX, VERSION_INDEX]

  /** A row may be added: its id is new and no unique index has an equal entry. */
  predicate Admits(revisions: Revisions, id: string, row: Revision) {
    && id !in revisions
    && (forall other, ix :: other in revisions && ix in REVISION_INDEXES ==>
          !SameKey(ix, ValuesOf(revisions[other]), ValuesOf(row)))
  }

  /** Two revisions of one definition that the indexes keep apart. */
  ghost predicate Apart(r: Revision, row: Revision) {
    r.definition == row.definition ==>
      && r.version != row.version
      && !(r.status == APPROVED && row.status == APPROVED) && !(r.status == PENDING && row.status == PENDING)
  }

  lemma ApartMeans(r: Revision, row: Revision)
    ensures (forall ix :: ix in REVISION_INDEXES ==> !SameKey(ix, ValuesOf(r), ValuesOf(row))) <==> Apart(r, row)
  {
    var v, w := ValuesOf(r), ValuesOf(row);
    assert REVISION_INDEXES[0] == APPROVED_INDEX && REVISION_INDEXES[1] == PENDING_INDEX;
    assert REVISION_INDEXES[2] == VERSION_INDEX;
    assert (forall ix :: ix in REVISION_INDEXES ==> !SameKey(ix, v, w)) <==>
           !SameKey(APPROVED_INDEX, v, w) && !SameKey(PENDING_INDEX, v, w) && !SameKey(VERSION_INDEX, v, w);
    RevisionKeysMean(r.definition, r.status, r.version, row.definition, row.status, row.version);
  }

  lemma AdmitsMeans(revisions: Revisions, id: string, row: Revision)
    ensures Admits(revisions, id, row) <==>
            id !in revisions && forall other :: other in revisions ==> Apart(revisions[other], row)
  {
    forall other | other in revisions
      ensures Apart(revisions[other], row) <==>
              forall ix :: ix in REVISION_INDEXES ==> !SameKey(ix, ValuesOf(revisions[other]), ValuesOf(row))
    {
      ApartMeans(revisions[other], row);
    }
  }

  /** The copy of revisions: the indexes exist before the first row, so a second approved row fails. */
  function Copied(rows: seq<(string, Revision)>): Option<Revisions>
    decreases |rows|
  {
    if rows == [] then Some(map[]) else
    var n := |rows| - 1;
    var before := Copied(rows[..n]);
    if before.None? || !Admits(before.value, rows[n].0, rows[n].1) then None
    else Some(before.value[rows[n].0 := rows[n].1])
  }

  /** Whatever table the copy leaves has one approved revision per definition and no version twice. */
  lemma {:induction false} CopiedMeetsIndexes(rows: seq<(string, Revision)>)
    requires Copied(rows).Some?
    ensures OneApproved(Copied(rows).value) && UniqueVersions(Copied(rows).value)
    decreases |rows|
  {
    if rows != [] {
      var n := |rows| - 1;
      CopiedMeetsIndexes(rows[..n]);
      AdmitsMeans(Copied(rows[..n]).value, rows[n].0, rows[n].1);
    }
  }

  lemma {:induction false} CopiedHolds(rows: seq<(string, Revision)>, i: nat)
    requires Copied(rows).Some? && i < |rows|
    ensures rows[i].0 in Copied(rows).value && Copied(rows).value[rows[i].0] == rows[i].1
    decreases |rows|
  {
    var n := |rows| - 1;
    if i < n {
      CopiedHolds(rows[..n], i);
    }
  }

  /** No id repeats, and the indexes keep every two of the revisions apart. */
  ghost predicate AllApart(rows: seq<(string, Revision)>) {
    forall i, j :: 0 <= i < j < |rows| ==> rows[i].0 != rows[j].0 && Apart(rows[i].1, rows[j].1)
  }

  ghost predicate ApartFromAll(rows: seq<(string, Revision)>, id: string, row: Revision) {
    forall i :: 0 <= i < |rows| ==> rows[i].0 != id && Apart(rows[i].1, row)
  }

  lemma AllApartOneMore(rows: seq<(string, Revision)>, id: string, row: Revision)
    ensures AllApart(rows + [(id, row)]) <==> AllApart(rows) && ApartFromAll(rows, id, row)
  {
    var more := rows + [(id, row)];
    assert more[|rows|] == (id, row) && forall i :: 0 <= i < |rows| ==> more[i] == rows[i];
  }

  /** The table holds the rows and nothing else. */
  ghost predicate IsTableOf(rows: seq<(string, Revision)>, table: Revisions) {
    && (forall i :: 0 <= i < |rows| ==> rows[i].0 in table && table[rows[i].0] == rows[i].1)
    && (forall id :: id in table ==> (id, table[id]) in rows)
  }

  lemma IsTableOneMore(rows: seq<(string, Revision)>, table: Revisions, id: string, row: Revision)
    requires IsTableOf(rows, table) && id !in table
    ensures IsTableOf(rows + [(id, row)], table[id := row])
  {
    var more := rows + [(id, row)];
    assert more[|rows|] == (id, row) && forall i :: 0 <= i < |rows| ==> more[i] == rows[i];
    forall x | x in table ensures (x, table[x]) in more {
      var i :| 0 <= i < |rows| && rows[i] == (x, table[x]);
      assert more[i] == (x, table[x]);
    }
  }

  lemma AdmitsIff(rows: seq<(string, Revision)>, table: Revisions, id: string, row: Revision)
    requires IsTableOf(rows, table)
    ensures Admits(table, id, row) <==> ApartFromAll(rows, id, row)
  {
    AdmitsMeans(table, id, row);
    if ApartFromAll(rows, id, row) {
      forall other | other in table ensures other != id && Apart(table[other], row) {
        var i :| 0 <= i < |rows| && rows[i] == (other, table[other]);
      }
    }
  }

  /** Revisions are copied exactly when no id repeats and the indexes keep every two of them apart. */
  lemma {:induction false} CopiedIff(rows: seq<(string, Revision)>)
    ensures Copied(rows).Some? <==> AllApart(rows)
    ensures Copied(rows).Some? ==> IsTableOf(rows, Copied(rows).value)
    decreases |rows|
  {
    if rows != [] {
      var n := |rows| - 1;
      var first, id, row := rows[..n], rows[n].0, rows[n].1;
      assert rows == first + [(id, row)];
      CopiedIff(first);
      AllApartOneMore(first, id, row);
      if Copied(first).Some? {
        AdmitsIff(first, Copied(first).value, id, row);
        if Admits(Copied(first).value, id, row) {
          IsTableOneMore(first, Copied(first).value, id, row);
        }
      }
    }
  }

  /** A source with two approved revisions of one definition is not copied at all. */
  lemma {:induction false} SecondApprovedFailsTheCopy(rows: seq<(string, Revision)>, i: nat, j: nat)
    requires i < j < |rows| && rows[i].1.definition == rows[j].1.definition
    requires rows[i].1.status == APPROVED && rows[j].1.status == APPROVED
    ensures Copied(rows).None?
  {
    PrefixFails(rows, j + 1);
    assert rows[..j + 1][..j] == rows[..j];
    if Copied(rows[..j]).Some? {
      CopiedHolds(rows[..j], i);
      NotAdmitted(Copied(rows[..j]).value, rows[i].0, rows[j].0, rows[j].1);
    }
  }

  lemma NotAdmitted(revisions: Revisions, first: string, id: string, row: Revision)
    requires first in revisions && revisions[first].definition == row.definition
    requires revisions[first].status == APPROVED && row.status == APPROVED
    ensures !Admits(revisions, id, row)
  {
    AdmitsMeans(revisions, id, row);
  }

  lemma {:induction false} PrefixFails(rows: seq<(string, Revision)>, n: nat)
    requires n <= |rows|
    ensures Copied(rows[..n]).None? ==> Copied(rows).None?
    decreases |rows|
  {
    if n < |rows| {
      assert rows[..|rows| - 1][..n] == rows[..n];
      PrefixFails(rows[..|rows| - 1], n);
    } else {
      assert rows[..n] == rows;
    }
  }

  lemma FillKeepsIndexes(revisions: Revisions)
    requires OneApproved(revisions) && UniqueVersions(revisions)
    ensures OneApproved(CreatedByUser(StateVersion(revisions)))
            && UniqueVersions(CreatedByUser(StateVersion(revisions)))
  {
  }

  /** Under the index on approved revisions the statement that supersedes older ones changes nothing. */
  lemma RetireIsIdle(revisions: Revisions)
    requires OneApproved(revisions)
    ensures Retire(revisions) == revisions
  {
    BeforeIsTotal();
    forall id | id in revisions && revisions[id].status == APPROVED ensures !HasNewer(revisions, id) {
      BeforeIrreflexive(id);
      forall other | other in revisions ensures !Newer(revisions, other, id) {
        assert other != id ==>
          !(revisions[other].status == APPROVED && revisions[other].definition == revisions[id].definition);
      }
    }
  }

  /** On every table that the copy can leave, the fixes keep both indexes, and running them again changes nothing. */
  lemma BackfillIsIdempotent(rows: seq<(string, Revision)>)
    requires Copied(rows).Some?
    ensures var once := BackfillRevisions(Copied(rows).value);
            OneApproved(once) && UniqueVersions(once) && BackfillRevisions(once) == once
  {
    var revisions := Copied(rows).value;
    CopiedMeetsIndexes(rows);
    FillKeepsIndexes(revisions);
    var filled := CreatedByUser(StateVersion(revisions));
    RetireIsIdle(filled);
    FilledIsUnchanged(filled);
  }

  // ---------------------------------------------------------------------
  // The raised version
  // ---------------------------------------------------------------------

  ghost predicate Retires(revisions: Revisions, id: string) {
    id in revisions && revisions[id].status == APPROVED && HasNewer(revisions, id)
  }

  /** The statement row by row, in any order of the rows it changes: each raised version must be free at that moment. */
  ghost function RetiredInOrder(revisions: Revisions, ids: seq<string>): Option<Revisions>
    requires forall id :: id in ids ==> id in revisions
    decreases |ids|
  {
    if ids == [] then Some(revisions) else
    var n := |ids| - 1;
    var before := RetiredInOrder(revisions, ids[..n]);
    if before.None? || VersionTaken(before.value, ids[n], revisions[ids[n]]) then None
    else Some(before.value[ids[n] := Retired(revisions[ids[n]])])
  }

  ghost predicate VersionTaken(revisions: Revisions, id: string, r: Revision) {
    exists other :: other in revisions && other != id && revisions[other].definition == r.definition
                 && revisions[other].version == r.version + 1
  }

  /** Another revision of the definition has the next version, and its own version has not been raised before. */
  ghost predicate Clashes(revisions: Revisions, ids: seq<string>, k: nat)
    requires k < |ids|
  {
    ids[k] in revisions &&
    exists other :: other in revisions && other !in ids[..k]
      && revisions[other].definition == revisions[ids[k]].definition
                 && revisions[other].version == revisions[ids[k]].version + 1
  }

  lemma {:induction false} RetiredContent(revisions: Revisions, ids: seq<string>, x: string)
    requires (forall id :: id in ids ==> id in revisions) && RetiredInOrder(revisions, ids).Some?
    ensures x in RetiredInOrder(revisions, ids).value <==> x in revisions
    ensures x in revisions ==>
              RetiredInOrder(revisions, ids).value[x] == if x in ids then Retired(revisions[x]) else revisions[x]
    decreases |ids|
  {
    if ids != [] {
      var n := |ids| - 1;
      assert forall id :: id in ids <==> id in ids[..n] || id == ids[n];
      RetiredContent(revisions, ids[..n], x);
    }
  }

  lemma TakenIffClashes(revisions: Revisions, ids: seq<string>, k: nat)
    requires UniqueVersions(revisions) && Distinct(ids) && k < |ids| && forall id :: id in ids ==> id in revisions
    requires RetiredInOrder(revisions, ids[..k]).Some?
    ensures VersionTaken(RetiredInOrder(revisions, ids[..k]).value, ids[k], revisions[ids[k]]) <==>
            Clashes(revisions, ids, k)
  {
    var before, r := RetiredInOrder(revisions, ids[..k]).value, revisions[ids[k]];
    assert ids[k] !in ids[..k];
    forall other
      ensures (other in before && other != ids[k] && before[other].definition == r.definition
               && before[other].version == r.version + 1) <==>
              (other in revisions && other !in ids[..k] && revisions[other].definition == r.definition
               && revisions[other].version == r.version + 1)
    {
      RetiredContent(revisions, ids[..k], other);
    }
  }

  /**
   * On a table without the index on approved revisions, raising the versions breaks
   * the index on versions exactly when some revision to be superseded meets another
   * of its definition that has the next version and has not been raised before it.
   */
  lemma {:induction false} RaisedVersionsFitIff(revisions: Revisions, ids: seq<string>)
    requires UniqueVersions(revisions) && Distinct(ids)
    requires forall id :: id in ids ==> id in revisions && Retires(revisions, id)
    requires forall id :: Retires(revisions, id) ==> id in ids
    ensures RetiredInOrder(revisions, ids).Some? <==> forall k :: 0 <= k < |ids| ==> !Clashes(revisions, ids, k)
    ensures RetiredInOrder(revisions, ids).Some? ==> RetiredInOrder(revisions, ids).value == Retire(revisions)
  {
    RaisedPrefix(revisions, ids, |ids|);
    assert ids[..|ids|] == ids;
    if RetiredInOrder(revisions, ids).Some? {
      var result := RetiredInOrder(revisions, ids).value;
      forall x ensures x in result <==> x in revisions
               ensures x in revisions ==> result[x] == Retire(revisions)[x] {
        RetiredContent(revisions, ids, x);
      }
    }
  }

  lemma {:induction false} RaisedPrefix(revisions: Revisions, ids: seq<string>, n: nat)
    requires UniqueVersions(revisions) && Distinct(ids) && (forall id :: id in ids ==> id in revisions) && n <= |ids|
    ensures RetiredInOrder(revisions, ids[..n]).Some? <==> forall k :: 0 <= k < n ==> !Clashes(revisions, ids, k)
    decreases n
  {
    if n > 0 {
      assert ids[..n][..n - 1] == ids[..n - 1];
      RaisedPrefix(revisions, ids, n - 1);
      if RetiredInOrder(revisions, ids[..n - 1]).Some? {
        TakenIffClashes(revisions, ids, n - 1);
      }
    }
  }

  /** Every finished operation gets an end time, operations that had one keep it, and a second run changes nothing. */
  lemma TerminalAtIsComplete(operations: Operations)
    ensures TerminalAt(operations).Keys == operations.Keys
    ensures forall id :: id in operations ==>
              && (operations[id].terminal ==> TerminalAt(operations)[id].terminalAt.Some?)
              && (!operations[id].terminal || operations[id].terminalAt.Some? ==>
                TerminalAt(operations)[id] == operations[id])
    ensures TerminalAt(TerminalAt(operations)) == TerminalAt(operations)
  {
  }
}
