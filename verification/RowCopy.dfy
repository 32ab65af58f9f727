/**
 * Copying rows into the target in table order: every insert must find the rows it
 * references, and must not meet a row with its own key or with an entry of its own
 * in a unique index.
 *
 * Copying an artifact also writes two rows elsewhere: its location, and its link to
 * a bundle.  How the columns of a row get their values is in RowColumns.
 */
module RowCopy {
  import opened Common
  import opened TableOrder
  import opened UniqueIndexes

  datatype Id = Single(name: string) | Pair(first: string, second: string)

  datatype Ref = Ref(table: Table, id: Id)

  /**
   * `location` and `bundle` are the moved columns of an artifact; other tables have no
   * use for them.  `values` are the columns of unique indexes, and `fits` says that all
   * values convert and meet the constraints that the target puts on a row by itself.
   */
  datatype Row = Row(id: Id, refs: set<Ref>, location: string, bundle: string, values: Values, fits: bool)

  type Source = Table -> seq<Row>

  /** The tables with special rules, the rows that the target's own migrations insert, and its unique indexes. */
  datatype Schema = Schema(artifacts: Table, locations: Table, links: Table, bundles: Table,
                           preSeeded: set<Table>, seeds: set<Ref>, indexes: Table -> seq<Index>)

  /** The rows of the target, by their keys, and the entries of its unique indexes. */
  datatype Target = Target(refs: set<Ref>, entries: set<Entry>)

  ghost predicate WellFormed(s: Schema) {
    && s.artifacts != s.locations && s.artifacts != s.links && s.links != s.locations
    && s.artifacts !in s.preSeeded && s.links !in s.preSeeded && s.locations !in s.preSeeded
    && forall ref :: ref in s.seeds ==> ref.table in s.preSeeded
  }

  // ---------------------------------------------------------------------
  // The statements the copy sends
  // ---------------------------------------------------------------------

  /** An insert fails on a missing parent, other than itself, and, but for pre-seeded tables, on a duplicate key. */
  function Inserted(s: Schema, target: set<Ref>, ref: Ref, refs: set<Ref>): Option<set<Ref>> {
    if ref in target then (if ref.table in s.preSeeded then Some(target) else None)
    else if refs <= target + {ref} then Some(target + {ref}) else None
  }

  /** An insert that gives way to an existing row. */
  function InsertedUnlessThere(target: set<Ref>, ref: Ref, refs: set<Ref>): Option<set<Ref>> {
    if ref in target then Some(target) else if refs <= target then Some(target + {ref}) else None
  }

  function LocationRef(s: Schema, row: Row): Ref {
    Ref(s.locations, if row.id.Single? then Pair(row.id.name, row.location) else row.id)
  }

  function LinkRef(s: Schema, row: Row): Ref {
    Ref(s.links, if row.id.Single? then Pair(row.bundle, row.id.name) else row.id)
  }

  /** A relocated row gives way to one that is there, and else needs its parents. */
  lemma RelocatedRowMeans(target: set<Ref>, ref: Ref, refs: set<Ref>)
    ensures ref in target ==> InsertedUnlessThere(target, ref, refs) == Some(target)
    ensures ref !in target ==>
              (InsertedUnlessThere(target, ref, refs).Some? <==> refs <= target)
              && (refs <= target ==> InsertedUnlessThere(target, ref, refs).value == target + {ref})
  {
  }

  /** The rows that the moved columns of an artifact go to; an empty bundle has no link. */
  function Relocated(s: Schema, target: set<Ref>, row: Row): Option<set<Ref>> {
    var located := InsertedUnlessThere(target, LocationRef(s, row), {Ref(s.artifacts, row.id)});
    if located.None? || row.bundle == "" then located
    else InsertedUnlessThere(located.value, LinkRef(s, row),
                             {Ref(s.bundles, Single(row.bundle)), Ref(s.artifacts, row.id)})
  }

  /** The insert of a row and of what it sends elsewhere, as far as keys and references go. */
  function RowLinked(s: Schema, target: set<Ref>, table: Table, row: Row): Option<set<Ref>> {
    var inserted := Inserted(s, target, Ref(table, row.id), row.refs);
    if inserted.None? || table != s.artifacts then inserted else Relocated(s, inserted.value, row)
  }

  function RowsLinked(s: Schema, target: set<Ref>, table: Table, rows: seq<Row>): Option<set<Ref>>
    decreases |rows|
  {
    if rows == [] then Some(target) else
    var n := |rows| - 1;
    var before := RowsLinked(s, target, table, rows[..n]);
    if before.None? then None else RowLinked(s, before.value, table, rows[n])
  }

  function TablesLinked(s: Schema, source: Source, tables: seq<Table>): Option<set<Ref>>
    decreases |tables|
  {
    if tables == [] then Some(s.seeds) else
    var n := |tables| - 1;
    var before := TablesLinked(s, source, tables[..n]);
    if before.None? then None else RowsLinked(s, before.value, tables[n], source(tables[n]))
  }

  /** The whole insert: keys and references, unique indexes, and the row by itself. */
  function RowCopied(s: Schema, target: Target, table: Table, row: Row): Option<Target> {
    var linked := RowLinked(s, target.refs, table, row);
    var entries := Entries(table, s.indexes(table), row.values);
    if row.fits && linked.Some? && entries !! target.entries then Some(Target(linked.value, target.entries + entries))
    else None
  }

  function RowsCopied(s: Schema, target: Target, table: Table, rows: seq<Row>): Option<Target>
    decreases |rows|
  {
    if rows == [] then Some(target) else
    var n := |rows| - 1;
    var before := RowsCopied(s, target, table, rows[..n]);
    if before.None? then None else RowCopied(s, before.value, table, rows[n])
  }

  function TablesCopied(s: Schema, source: Source, tables: seq<Table>): Option<Target>
    decreases |tables|
  {
    if tables == [] then Some(Target(s.seeds, {})) else
    var n := |tables| - 1;
    var before := TablesCopied(s, source, tables[..n]);
    if before.None? then None else RowsCopied(s, before.value, tables[n], source(tables[n]))
  }

  method CopyTable(s: Schema, start: Target, table: Table, rows: seq<Row>)
    returns (target: Target, count: nat, ok: bool)
    ensures ok <==> RowsCopied(s, start, table, rows).Some?
    ensures ok ==> RowsCopied(s, start, table, rows) == Some(target) && count == |rows|
  {
    target, count, ok := start, 0, true;
    for i := 0 to |rows|
      invariant count == i && RowsCopied(s, start, table, rows[..i]) == Some(target)
    {
      assert rows[..i + 1][..i] == rows[..i];
      var entries := Entries(table, s.indexes(table), rows[i].values);
      var inserted := Inserted(s, target.refs, Ref(table, rows[i].id), rows[i].refs);
      if !rows[i].fits || !(entries !! target.entries) {
        inserted := None;
      }
      if inserted.Some? && table == s.artifacts {
        inserted := Relocated(s, inserted.value, rows[i]);
      }
      if inserted.None? {
        NoWayBack(s, start, table, rows, i + 1);
        return target, count, false;
      }
      target, count := Target(inserted.value, target.entries + entries), count + 1;
    }
    assert rows[..|rows|] == rows;
  }

  lemma {:induction false} NoWayBack(s: Schema, start: Target, table: Table, rows: seq<Row>, i: nat)
    requires i <= |rows| && RowsCopied(s, start, table, rows[..i]).None?
    ensures RowsCopied(s, start, table, rows).None?
    decreases |rows|
  {
    if i < |rows| {
      assert rows[..|rows| - 1][..i] == rows[..i];
      NoWayBack(s, start, table, rows[..|rows| - 1], i);
    } else {
      assert rows[..i] == rows;
    }
  }

  lemma {:induction false} NoTableBack(s: Schema, source: Source, tables: seq<Table>, i: nat)
    requires i <= |tables| && TablesCopied(s, source, tables[..i]).None?
    ensures TablesCopied(s, source, tables).None?
    decreases |tables|
  {
    if i < |tables| {
      assert tables[..|tables| - 1][..i] == tables[..i];
      NoTableBack(s, source, tables[..|tables| - 1], i);
    } else {
      assert tables[..i] == tables;
    }
  }

  /** One count per table, equal to its rows. */
  ghost predicate Counted(source: Source, tables: seq<Table>, counts: map<Table, nat>) {
    counts.Keys == Names(tables) && forall t :: t in counts ==> counts[t] == |source(t)|
  }

  lemma CountedOneMore(source: Source, tables: seq<Table>, counts: map<Table, nat>, i: nat)
    requires i < |tables| && Counted(source, tables[..i], counts)
    ensures Counted(source, tables[..i + 1], counts[tables[i] := |source(tables[i])|])
  {
    assert tables[..i + 1] == tables[..i] + [tables[i]];
  }

  /** The copy of all tables in one transaction: the rows of the target, or nothing. */
  method CopyTables(s: Schema, source: Source, ordered: seq<Table>)
    returns (result: Option<Target>, counts: map<Table, nat>)
    requires Distinct(ordered)
    ensures result == TablesCopied(s, source, ordered)
    ensures result.Some? ==> Counted(source, ordered, counts)
  {
    var target := Target(s.seeds, {});
    counts := map[];
    for i := 0 to |ordered|
      invariant TablesCopied(s, source, ordered[..i]) == Some(target)
      invariant Counted(source, ordered[..i], counts)
    {
      assert ordered[..i + 1][..i] == ordered[..i];
      var copied, count, ok := CopyTable(s, target, ordered[i], source(ordered[i]));
      if !ok {
        NoTableBack(s, source, ordered, i + 1);
        return None, counts;
      }
      CountedOneMore(source, ordered, counts, i);
      target := copied;
      counts := counts[ordered[i] := count];
    }
    assert ordered[..|ordered|] == ordered;
    return Some(target), counts;
  }

  // ---------------------------------------------------------------------
  // What the target holds
  // ---------------------------------------------------------------------

  /** Some row of the list has this key. */
  ghost predicate HasKey(rows: seq<Row>, id: Id) {
    exists i :: 0 <= i < |rows| && rows[i].id == id
  }

  /** An artifact is located at its reference and linked to its bundle, if it has one. */
  ghost predicate SendsTo(s: Schema, row: Row, ref: Ref) {
    || (ref.table == s.locations
        && match row.id case Single(name) => ref.id == Pair(name, row.location) case _ => ref.id == row.id)
    || (ref.table == s.links && row.bundle != ""
        && match row.id case Single(name) => ref.id == Pair(row.bundle, name) case _ => ref.id == row.id)
  }

  /** Some artifact of the list sends this row elsewhere. */
  ghost predicate Sends(s: Schema, rows: seq<Row>, ref: Ref) {
    exists i :: 0 <= i < |rows| && SendsTo(s, rows[i], ref)
  }

  /** What copying some rows of a table adds. */
  ghost predicate Adds(s: Schema, table: Table, rows: seq<Row>, ref: Ref) {
    (ref.table == table && HasKey(rows, ref.id)) || (table == s.artifacts && Sends(s, rows, ref))
  }

  ghost predicate Content(s: Schema, source: Source, tables: seq<Table>, ref: Ref) {
    ref in s.seeds || exists i :: 0 <= i < |tables| && Adds(s, tables[i], source(tables[i]), ref)
  }

  lemma AddsOneMore(s: Schema, table: Table, rows: seq<Row>, row: Row, ref: Ref)
    ensures Adds(s, table, rows + [row], ref) <==> Adds(s, table, rows, ref) || Adds(s, table, [row], ref)
  {
    var more := rows + [row];
    assert more[|rows|] == row && [row][0] == row;
    assert forall i :: 0 <= i < |rows| ==> more[i] == rows[i];
    assert HasKey(more, ref.id) <==> HasKey(rows, ref.id) || HasKey([row], ref.id);
    assert Sends(s, more, ref) <==> Sends(s, rows, ref) || Sends(s, [row], ref);
  }

  lemma RowContent(s: Schema, target: set<Ref>, table: Table, row: Row, ref: Ref)
    requires RowLinked(s, target, table, row).Some?
    ensures ref in RowLinked(s, target, table, row).value <==> ref in target || Adds(s, table, [row], ref)
  {
    assert [row][0] == row;
    assert HasKey([row], ref.id) <==> ref.id == row.id;
    assert Sends(s, [row], ref) <==> SendsTo(s, row, ref);
    assert SendsTo(s, row, ref) <==> ref == LocationRef(s, row) || (row.bundle != "" && ref == LinkRef(s, row));
    RelocatedRowMeans(target, ref, row.refs);
  }

  lemma {:induction false} RowsContent(s: Schema, target: set<Ref>, table: Table, rows: seq<Row>, ref: Ref)
    requires RowsLinked(s, target, table, rows).Some?
    ensures ref in RowsLinked(s, target, table, rows).value <==> ref in target || Adds(s, table, rows, ref)
    decreases |rows|
  {
    if rows != [] {
      var n := |rows| - 1;
      RowsContent(s, target, table, rows[..n], ref);
      RowContent(s, RowsLinked(s, target, table, rows[..n]).value, table, rows[n], ref);
      assert rows == rows[..n] + [rows[n]];
      AddsOneMore(s, table, rows[..n], rows[n], ref);
    }
  }

  lemma {:induction false} LinkedContent(s: Schema, source: Source, tables: seq<Table>, ref: Ref)
    requires TablesLinked(s, source, tables).Some?
    ensures ref in TablesLinked(s, source, tables).value <==> Content(s, source, tables, ref)
    decreases |tables|
  {
    if tables != [] {
      var n := |tables| - 1;
      LinkedContent(s, source, tables[..n], ref);
      RowsContent(s, TablesLinked(s, source, tables[..n]).value, tables[n], source(tables[n]), ref);
      ContentOneMore(s, source, tables, ref);
    }
  }

  lemma ContentOneMore(s: Schema, source: Source, tables: seq<Table>, ref: Ref)
    requires tables != []
    ensures var n := |tables| - 1;
            Content(s, source, tables, ref) <==>
            Content(s, source, tables[..n], ref) || Adds(s, tables[n], source(tables[n]), ref)
  {
    var n := |tables| - 1;
    assert forall i :: 0 <= i < n ==> tables[..n][i] == tables[i];
  }

  // ---------------------------------------------------------------------
  // When the copy succeeds
  // ---------------------------------------------------------------------

  /** No key leads to a special table, and seeded tables have none. */
  ghost predicate KeysStayApart(s: Schema, keys: Topology) {
    && (forall t, p :: p in keys(t) ==> p != s.links && p != s.locations && p !in s.preSeeded)
    && (forall t :: t in s.preSeeded ==> keys(t) == [])
  }

  /** The tables that get rows from elsewhere have no unique index but their key. */
  ghost predicate IndexesStayApart(s: Schema) {
    forall t :: t in s.preSeeded || t == s.links || t == s.locations ==> s.indexes(t) == []
  }

  /**
   * The foreign keys and unique indexes do not concern the special tables, and the
   * order puts bundles, artifacts and links one after the other.
   */
  ghost predicate Fits(s: Schema, topology: Topology, keys: Topology) {
    && WellFormed(s) && s.bundles in topology(s.artifacts) && s.artifacts in topology(s.links)
    && s.bundles !in s.preSeeded && s.bundles != s.links && s.bundles != s.locations
    && KeysStayApart(s, keys) && IndexesStayApart(s)
  }

  /**
   * The source meets the foreign keys of the target: every reference is one of them and
   * leads to a row; keys are unique.
   */
  ghost predicate KeysHold(s: Schema, keys: Topology, source: Source, present: set<Table>) {
    && s.locations !in present
    && (forall t, i, j :: t in present && 0 <= i < j < |source(t)| ==> source(t)[i].id != source(t)[j].id)
    && (forall t, i :: t in present && 0 <= i < |source(t)| ==> RefsHold(keys, source, present, t, source(t)[i]))
    && (forall i :: s.artifacts in present && 0 <= i < |source(s.artifacts)| ==> source(s.artifacts)[i].id.Single?)
  }

  ghost predicate RefsHold(keys: Topology, source: Source, present: set<Table>, t: Table, row: Row) {
    forall ref :: ref in row.refs ==>
      ref.table in keys(t) && ref.table in present && HasKey(source(ref.table), ref.id)
  }

  /** The row that is referenced is copied before, or with, the row that references it. */
  ghost predicate InTime(source: Source, done: seq<Table>, t: Table, i: nat, ref: Ref)
    requires i < |source(t)|
  {
    ref.table in done || (ref.table == t && HasKey(source(t)[..i + 1], ref.id))
  }

  /** Some row references one that is copied later: of a later table, or of its own table and further down. */
  ghost predicate HasLateParent(source: Source, order: seq<Table>) {
    exists n, i, ref :: 0 <= n < |order| && 0 <= i < |source(order[n])| && ref in source(order[n])[i].refs
                     && !InTime(source, order[..n], order[n], i, ref)
  }

  /** Some link row of the source is also written by copying an artifact. */
  ghost predicate Collides(s: Schema, source: Source, present: set<Table>) {
    s.artifacts in present && s.links in present &&
    exists i :: 0 <= i < |source(s.links)| && Sends(s, source(s.artifacts), Ref(s.links, source(s.links)[i].id))
  }

  /** The bundle that an artifact carries, if any, is in the source. */
  ghost predicate BundleKnown(s: Schema, source: Source, present: set<Table>, row: Row) {
    row.bundle == "" || (s.bundles in present && HasKey(source(s.bundles), Single(row.bundle)))
  }

  /** Some artifact carries a bundle that is not in the source, where nothing forbids it. */
  ghost predicate LosesBundle(s: Schema, source: Source, present: set<Table>) {
    s.artifacts in present &&
    exists i :: 0 <= i < |source(s.artifacts)| && !BundleKnown(s, source, present, source(s.artifacts)[i])
  }

  /** The row cannot be copied now: its link is taken, a parent is late, or its bundle is unknown. */
  ghost predicate Blocked(s: Schema, source: Source, present: set<Table>, done: seq<Table>, t: Table, i: nat)
    requires i < |source(t)|
  {
    var row := source(t)[i];
    || (t == s.links && s.artifacts in present && Sends(s, source(s.artifacts), Ref(t, row.id)))
    || (exists ref :: ref in row.refs && !InTime(source, done, t, i, ref))
    || (t == s.artifacts && !BundleKnown(s, source, present, row))
  }

  /** The situation in the middle of the copy: some tables done, some rows of the next one. */
  ghost predicate Midway(s: Schema, topology: Topology, keys: Topology, source: Source, present: set<Table>,
                         done: seq<Table>, t: Table) {
    && Fits(s, topology, keys) && KeysHold(s, keys, source, present)
    && Names(done) <= present && t in present && t !in done
    && Needs(topology, present, t) <= Names(done)
  }

  ghost predicate Holds(s: Schema, source: Source, done: seq<Table>, t: Table, rows: seq<Row>, target: set<Ref>) {
    forall ref :: ref in target <==> Content(s, source, done, ref) || Adds(s, t, rows, ref)
  }

  /** In the tables that keys lead to, the target holds the rows of the tables done and of this one so far. */
  lemma ParentIsThereIff(s: Schema, source: Source, done: seq<Table>, t: Table, rows: seq<Row>, target: set<Ref>,
                         ref: Ref)
    requires WellFormed(s) && Holds(s, source, done, t, rows, target)
    requires ref.table != s.links && ref.table != s.locations && ref.table !in s.preSeeded
    ensures ref in target <==>
            (ref.table in done && HasKey(source(ref.table), ref.id)) || (ref.table == t && HasKey(rows, ref.id))
  {
    assert !Sends(s, rows, ref);
    forall k | 0 <= k < |done|
      ensures Adds(s, done[k], source(done[k]), ref) <==> done[k] == ref.table && HasKey(source(ref.table), ref.id)
    {
    }
    if ref.table in done {
      var k :| 0 <= k < |done| && done[k] == ref.table;
      assert Adds(s, done[k], source(done[k]), ref) <==> HasKey(source(ref.table), ref.id);
    }
  }

  /** The key of the next row is new, unless it is a seed or a link that an artifact has written. */
  lemma KeyIsNew(s: Schema, topology: Topology, keys: Topology, source: Source, present: set<Table>, done: seq<Table>,
                 t: Table, i: nat, target: set<Ref>)
    requires Midway(s, topology, keys, source, present, done, t) && i < |source(t)|
    requires Holds(s, source, done, t, source(t)[..i], target)
    ensures var ref := Ref(t, source(t)[i].id);
            ref in target <==>
            ref in s.seeds || (t == s.links && s.artifacts in present && Sends(s, source(s.artifacts), ref))
  {
    var ref := Ref(t, source(t)[i].id);
    assert t == s.links && s.artifacts in present ==> s.artifacts in Needs(topology, present, t);
    assert !Adds(s, t, source(t)[..i], ref);
    forall k | 0 <= k < |done|
      ensures Adds(s, done[k], source(done[k]), ref) <==> done[k] == s.artifacts && Sends(s, source(s.artifacts), ref)
    {
      assert done[k] in done;
    }
    assert Sends(s, source(s.artifacts), ref) ==> t == s.links || t == s.locations;
    if s.artifacts in Names(done) {
      var k :| 0 <= k < |done| && done[k] == s.artifacts;
      assert Adds(s, done[k], source(done[k]), ref) <==> Sends(s, source(s.artifacts), ref);
    }
  }

  /** A reference is met at the insert exactly when its row is copied in time. */
  lemma RefIsMetIff(s: Schema, topology: Topology, keys: Topology, source: Source, present: set<Table>,
                    done: seq<Table>, t: Table, i: nat, target: set<Ref>, ref: Ref)
    requires Midway(s, topology, keys, source, present, done, t) && i < |source(t)|
    requires Holds(s, source, done, t, source(t)[..i], target) && ref in source(t)[i].refs
    ensures ref in target + {Ref(t, source(t)[i].id)} <==> InTime(source, done, t, i, ref)
  {
    var rows := source(t);
    assert RefsHold(keys, source, present, t, rows[i]);
    ParentIsThereIff(s, source, done, t, rows[..i], target, ref);
    assert rows[..i + 1] == rows[..i] + [rows[i]];
    HasKeyOneMore(rows[..i], rows[i], ref.id);
  }

  lemma HasKeyOneMore(rows: seq<Row>, row: Row, id: Id)
    ensures HasKey(rows + [row], id) <==> HasKey(rows, id) || row.id == id
  {
    assert (rows + [row])[|rows|] == row;
    assert forall i :: 0 <= i < |rows| ==> (rows + [row])[i] == rows[i];
  }

  /** The link of an artifact is not there yet. */
  lemma LinkIsNew(s: Schema, topology: Topology, keys: Topology, source: Source, present: set<Table>, done: seq<Table>,
                  i: nat, target: set<Ref>)
    requires Midway(s, topology, keys, source, present, done, s.artifacts) && i < |source(s.artifacts)|
    requires Holds(s, source, done, s.artifacts, source(s.artifacts)[..i], target)
    requires s.links !in done
    ensures LinkRef(s, source(s.artifacts)[i]) !in target
  {
    var rows := source(s.artifacts);
    var ref := LinkRef(s, rows[i]);
    forall k | 0 <= k < |done| ensures !Adds(s, done[k], source(done[k]), ref) {
      assert done[k] in done;
    }
    forall k | 0 <= k < i ensures LinkRef(s, rows[k]) != ref {
      assert rows[k].id != rows[i].id && rows[k].id.Single? && rows[i].id.Single?;
    }
    assert !Adds(s, s.artifacts, rows[..i], ref);
  }

  /** An artifact's own rows go in exactly when its bundle is known. */
  lemma RelocationGoesIn(s: Schema, topology: Topology, keys: Topology, source: Source, present: set<Table>,
                         done: seq<Table>, i: nat, target: set<Ref>)
    requires Midway(s, topology, keys, source, present, done, s.artifacts) && i < |source(s.artifacts)|
    requires Holds(s, source, done, s.artifacts, source(s.artifacts)[..i], target) && s.links !in done
    ensures Relocated(s, target + {Ref(s.artifacts, source(s.artifacts)[i].id)}, source(s.artifacts)[i]).Some? <==>
            BundleKnown(s, source, present, source(s.artifacts)[i])
  {
    var rows := source(s.artifacts);
    var row := rows[i];
    var bundle := Ref(s.bundles, Single(row.bundle));
    LinkIsNew(s, topology, keys, source, present, done, i, target);
    ParentIsThereIff(s, source, done, s.artifacts, rows[..i], target, bundle);
    assert s.bundles in present ==> s.bundles in Needs(topology, present, s.artifacts);
    assert s.bundles in done <==> s.bundles in Names(done);
    assert s.bundles != s.artifacts;
  }

  /** The next row goes in exactly when it is not blocked. */
  lemma RowGoesIn(s: Schema, topology: Topology, keys: Topology, source: Source, present: set<Table>, done: seq<Table>,
                  t: Table, i: nat, target: set<Ref>)
    requires Midway(s, topology, keys, source, present, done, t) && i < |source(t)|
    requires Holds(s, source, done, t, source(t)[..i], target) && (t == s.artifacts ==> s.links !in done)
    ensures RowLinked(s, target, t, source(t)[i]).Some? <==> !Blocked(s, source, present, done, t, i)
  {
    var row := source(t)[i];
    var ref := Ref(t, row.id);
    KeyIsNew(s, topology, keys, source, present, done, t, i, target);
    forall r | r in row.refs ensures r in target + {ref} <==> InTime(source, done, t, i, r) {
      RefIsMetIff(s, topology, keys, source, present, done, t, i, target, r);
    }
    if t == s.artifacts {
      RelocationGoesIn(s, topology, keys, source, present, done, i, target);
    }
    assert RefsHold(keys, source, present, t, row);
    assert t in s.preSeeded ==> row.refs == {};
  }

  lemma {:induction false} RowsGoIn(s: Schema, topology: Topology, keys: Topology, source: Source, present: set<Table>,
                                    done: seq<Table>, t: Table, target: set<Ref>, i: nat)
    requires Midway(s, topology, keys, source, present, done, t) && i <= |source(t)|
    requires t == s.artifacts ==> s.links !in done
    requires forall ref :: ref in target <==> Content(s, source, done, ref)
    ensures RowsLinked(s, target, t, source(t)[..i]).Some? <==>
            forall k :: 0 <= k < i ==> !Blocked(s, source, present, done, t, k)
  {
    if i > 0 {
      var rows := source(t)[..i];
      assert rows[..i - 1] == source(t)[..i - 1];
      RowsGoIn(s, topology, keys, source, present, done, t, target, i - 1);
      var before := RowsLinked(s, target, t, source(t)[..i - 1]);
      if before.Some? {
        forall ref
          ensures ref in before.value <==> Content(s, source, done, ref) || Adds(s, t, source(t)[..i - 1], ref)
        {
          RowsContent(s, target, t, source(t)[..i - 1], ref);
        }
        RowGoesIn(s, topology, keys, source, present, done, t, i - 1, before.value);
      }
    }
  }

  /** In an order that respects the dependencies, bundles, artifacts and links come one after the other. */
  lemma NextIsMidway(s: Schema, topology: Topology, keys: Topology, source: Source, present: set<Table>,
                     order: seq<Table>, n: nat)
    requires Fits(s, topology, keys) && KeysHold(s, keys, source, present)
    requires Distinct(order) && Names(order) == present && Respects(topology, present, order) && n < |order|
    ensures Midway(s, topology, keys, source, present, order[..n], order[n])
    ensures order[n] == s.artifacts ==> s.links !in order[..n]
  {
    assert order[n] in Names(order);
    forall t | t in order[..n] ensures t in present && t != order[n] {
      var k :| 0 <= k < n && order[..n][k] == t;
      assert order[k] in Names(order);
    }
    if order[n] == s.artifacts {
      forall k | 0 <= k < n ensures order[k] != s.links {
        var needs := Needs(topology, present, order[k]);
        assert needs <= Names(order[..k]);
        assert forall j :: 0 <= j < k ==> order[..k][j] == order[j] != order[n];
        assert s.artifacts !in needs && s.artifacts in topology(s.links);
      }
    }
  }

  /** No row of the first tables is blocked. */
  ghost predicate NoneBlocked(s: Schema, source: Source, present: set<Table>, order: seq<Table>, n: nat)
    requires n <= |order|
  {
    forall m, i :: 0 <= m < n && 0 <= i < |source(order[m])| ==> !Blocked(s, source, present, order[..m], order[m], i)
  }

  lemma {:induction false} TablesGoIn(s: Schema, topology: Topology, keys: Topology, source: Source,
                                      present: set<Table>, order: seq<Table>, n: nat)
    requires Fits(s, topology, keys) && KeysHold(s, keys, source, present)
    requires Distinct(order) && Names(order) == present && Respects(topology, present, order) && n <= |order|
    ensures TablesLinked(s, source, order[..n]).Some? <==> NoneBlocked(s, source, present, order, n)
  {
    if n > 0 {
      var t, done := order[n - 1], order[..n - 1];
      assert order[..n][..n - 1] == done;
      TablesGoIn(s, topology, keys, source, present, order, n - 1);
      NextIsMidway(s, topology, keys, source, present, order, n - 1);
      if TablesLinked(s, source, done).Some? {
        NextTableGoesIn(s, topology, keys, source, present, done, t);
      }
    }
  }

  lemma NextTableGoesIn(s: Schema, topology: Topology, keys: Topology, source: Source, present: set<Table>,
                        done: seq<Table>, t: Table)
    requires Midway(s, topology, keys, source, present, done, t) && (t == s.artifacts ==> s.links !in done)
    requires TablesLinked(s, source, done).Some?
    ensures RowsLinked(s, TablesLinked(s, source, done).value, t, source(t)).Some? <==>
            forall i :: 0 <= i < |source(t)| ==> !Blocked(s, source, present, done, t, i)
  {
    var before := TablesLinked(s, source, done).value;
    forall ref ensures ref in before <==> Content(s, source, done, ref) {
      LinkedContent(s, source, done, ref);
    }
    RowsGoIn(s, topology, keys, source, present, done, t, before, |source(t)|);
    assert source(t)[..|source(t)|] == source(t);
  }

  /** Blocked rows are colliding links, late parents and lost bundles. */
  lemma BlockedKinds(s: Schema, source: Source, present: set<Table>, order: seq<Table>)
    requires Names(order) == present
    ensures NoneBlocked(s, source, present, order, |order|) <==>
            !Collides(s, source, present) && !HasLateParent(source, order) && !LosesBundle(s, source, present)
  {
    if NoneBlocked(s, source, present, order, |order|) {
      forall i | s.links in present && 0 <= i < |source(s.links)|
        ensures !(s.artifacts in present && Sends(s, source(s.artifacts), Ref(s.links, source(s.links)[i].id)))
      {
        var n :| 0 <= n < |order| && order[n] == s.links;
        assert !Blocked(s, source, present, order[..n], order[n], i);
      }
      forall i | s.artifacts in present && 0 <= i < |source(s.artifacts)|
        ensures BundleKnown(s, source, present, source(s.artifacts)[i])
      {
        var n :| 0 <= n < |order| && order[n] == s.artifacts;
        assert !Blocked(s, source, present, order[..n], order[n], i);
      }
      forall n, i, ref | 0 <= n < |order| && 0 <= i < |source(order[n])| && ref in source(order[n])[i].refs
        ensures InTime(source, order[..n], order[n], i, ref)
      {
        assert !Blocked(s, source, present, order[..n], order[n], i);
      }
    } else {
      var n, i :| 0 <= n < |order| && 0 <= i < |source(order[n])|
        && Blocked(s, source, present, order[..n], order[n], i);
      assert order[n] in Names(order);
    }
  }

  lemma LinkingSucceedsIff(s: Schema, topology: Topology, keys: Topology, source: Source, present: set<Table>,
                           rank: Table -> nat)
    requires Fits(s, topology, keys) && KeysHold(s, keys, source, present) && Ranks(topology, present, rank)
    ensures var order := Ordered(topology, present);
            TablesLinked(s, source, order).Some? <==>
            !Collides(s, source, present) && !HasLateParent(source, order) && !LosesBundle(s, source, present)
  {
    var order := Ordered(topology, present);
    OrderIsPermutation(topology, present);
    AcyclicRespects(topology, present, rank);
    TablesGoIn(s, topology, keys, source, present, order, |order|);
    assert order[..|order|] == order;
    BlockedKinds(s, source, present, order);
  }

  // ---------------------------------------------------------------------
  // Unique indexes
  // ---------------------------------------------------------------------

  /** Two of the rows have the same key in one of the indexes. */
  ghost predicate Repeats(indexes: seq<Index>, rows: seq<Row>) {
    exists i, j, ix :: 0 <= i < j < |rows| && ix in indexes && SameKey(ix, rows[i].values, rows[j].values)
  }

  ghost predicate AllFit(rows: seq<Row>) {
    forall i :: 0 <= i < |rows| ==> rows[i].fits
  }

  /** Some entry of these rows. */
  ghost predicate HasEntry(t: Table, indexes: seq<Index>, rows: seq<Row>, e: Entry) {
    exists i :: 0 <= i < |rows| && e in Entries(t, indexes, rows[i].values)
  }

  lemma HasEntryOneMore(t: Table, indexes: seq<Index>, rows: seq<Row>, row: Row, e: Entry)
    ensures HasEntry(t, indexes, rows + [row], e) <==>
            HasEntry(t, indexes, rows, e) || e in Entries(t, indexes, row.values)
  {
    assert (rows + [row])[|rows|] == row;
    assert forall i :: 0 <= i < |rows| ==> (rows + [row])[i] == rows[i];
  }

  lemma RepeatsOneMore(t: Table, indexes: seq<Index>, rows: seq<Row>, row: Row)
    ensures Repeats(indexes, rows + [row]) <==>
            Repeats(indexes, rows) || exists e :: HasEntry(t, indexes, rows, e) && e in Entries(t, indexes, row.values)
  {
    var more := rows + [row];
    assert more[|rows|] == row;
    assert forall i :: 0 <= i < |rows| ==> more[i] == rows[i];
    if i, j, ix :| 0 <= i < j < |more| && ix in indexes && SameKey(ix, more[i].values, more[j].values) {
      if j == |rows| {
        var e := Entry(t, ix, KeyOf(ix, row.values));
        assert e in Entries(t, indexes, row.values) && e in Entries(t, indexes, rows[i].values);
        assert HasEntry(t, indexes, rows, e);
      }
    }
    if e :| HasEntry(t, indexes, rows, e) && e in Entries(t, indexes, row.values) {
      var i :| 0 <= i < |rows| && e in Entries(t, indexes, rows[i].values);
      assert SameKey(e.index, more[i].values, more[|rows|].values);
    }
  }

  /** The entries of the target are older ones, and those of the rows of this table so far. */
  ghost predicate HasEntries(s: Schema, older: set<Entry>, table: Table, rows: seq<Row>, entries: set<Entry>) {
    forall e :: e in entries <==> e in older || HasEntry(table, s.indexes(table), rows, e)
  }

  lemma EntriesOneMore(s: Schema, older: set<Entry>, table: Table, rows: seq<Row>, row: Row, entries: set<Entry>)
    requires HasEntries(s, older, table, rows, entries) && forall e :: e in older ==> e.table != table
    ensures var added := Entries(table, s.indexes(table), row.values);
            && HasEntries(s, older, table, rows + [row], entries + added)
            && (added !! entries <==>
                !exists e :: HasEntry(table, s.indexes(table), rows, e) && e in added)
  {
    var added := Entries(table, s.indexes(table), row.values);
    forall e ensures HasEntry(table, s.indexes(table), rows + [row], e) <==>
                     HasEntry(table, s.indexes(table), rows, e) || e in added {
      HasEntryOneMore(table, s.indexes(table), rows, row, e);
    }
  }

  /** One row more goes exactly when it fits, its keys are new, and keys and references allow it. */
  lemma RowCopiedIff(s: Schema, older: set<Entry>, target: Target, table: Table, rows: seq<Row>, row: Row)
    requires HasEntries(s, older, table, rows, target.entries) && forall e :: e in older ==> e.table != table
    requires !Repeats(s.indexes(table), rows)
    ensures var copied, linked := RowCopied(s, target, table, row), RowLinked(s, target.refs, table, row);
            && (copied.Some? <==> linked.Some? && row.fits && !Repeats(s.indexes(table), rows + [row]))
            && (copied.Some? ==> copied.value.refs == linked.value
                                 && HasEntries(s, older, table, rows + [row], copied.value.entries))
  {
    RepeatsOneMore(table, s.indexes(table), rows, row);
    EntriesOneMore(s, older, table, rows, row, target.entries);
  }

  lemma RepeatsLonger(indexes: seq<Index>, rows: seq<Row>, row: Row)
    requires Repeats(indexes, rows)
    ensures Repeats(indexes, rows + [row])
  {
    var i, j, ix :| 0 <= i < j < |rows| && ix in indexes && SameKey(ix, rows[i].values, rows[j].values);
    var more := rows + [row];
    assert SameKey(ix, more[i].values, more[j].values);
  }

  /** Into a table without entries, rows go exactly when each fits, no key repeats, and keys and references allow it. */
  lemma {:induction false} RowsCopiedIff(s: Schema, target: Target, table: Table, rows: seq<Row>)
    requires forall e :: e in target.entries ==> e.table != table
    ensures RowsCopied(s, target, table, rows).Some? <==>
            RowsLinked(s, target.refs, table, rows).Some? && AllFit(rows) && !Repeats(s.indexes(table), rows)
    ensures RowsCopied(s, target, table, rows).Some? ==>
              && RowsCopied(s, target, table, rows).value.refs == RowsLinked(s, target.refs, table, rows).value
              && HasEntries(s, target.entries, table, rows, RowsCopied(s, target, table, rows).value.entries)
    decreases |rows|
  {
    if rows != [] {
      var row, first := rows[|rows| - 1], rows[..|rows| - 1];
      assert rows == first + [row];
      RowsCopiedIff(s, target, table, first);
      assert AllFit(rows) <==> AllFit(first) && row.fits;
      var before := RowsCopied(s, target, table, first);
      if before.Some? {
        RowCopiedIff(s, target.entries, before.value, table, first, row);
      } else if Repeats(s.indexes(table), first) {
        RepeatsLonger(s.indexes(table), first, row);
      }
    }
  }

  /** Two rows of a table have the same key in one of these indexes. */
  ghost predicate RepeatsIn(indexes: Table -> seq<Index>, source: Source, tables: set<Table>) {
    exists t :: t in tables && Repeats(indexes(t), source(t))
  }

  /** Some row does not fit by itself. */
  ghost predicate HasMisfit(source: Source, tables: set<Table>) {
    exists t :: t in tables && !AllFit(source(t))
  }

  lemma {:induction false} TablesCopiedIff(s: Schema, source: Source, tables: seq<Table>)
    requires Distinct(tables)
    ensures TablesCopied(s, source, tables).Some? <==>
            && TablesLinked(s, source, tables).Some?
            && !RepeatsIn(s.indexes, source, Names(tables)) && !HasMisfit(source, Names(tables))
    ensures TablesCopied(s, source, tables).Some? ==>
              && TablesCopied(s, source, tables).value.refs == TablesLinked(s, source, tables).value
              && forall e :: e in TablesCopied(s, source, tables).value.entries ==> e.table in tables
    decreases |tables|
  {
    if tables != [] {
      var n := |tables| - 1;
      var t, first := tables[n], tables[..n];
      assert t !in first && forall u :: u in Names(tables) <==> u in Names(first) || u == t;
      TablesCopiedIff(s, source, first);
      var before := TablesCopied(s, source, first);
      if before.Some? {
        RowsCopiedIff(s, before.value, t, source(t));
      }
    }
  }

  /** A copy that succeeds leaves exactly the seeds, the source rows, and the rows the artifacts send elsewhere. */
  lemma CopiedContent(s: Schema, source: Source, tables: seq<Table>, ref: Ref)
    requires Distinct(tables) && TablesCopied(s, source, tables).Some?
    ensures ref in TablesCopied(s, source, tables).value.refs <==> Content(s, source, tables, ref)
  {
    TablesCopiedIff(s, source, tables);
    LinkedContent(s, source, tables, ref);
  }

  /**
   * From every source that meets the foreign keys of the target, the ordered copy
   * succeeds exactly when every row fits by itself, no two rows of a table have the same
   * key in a unique index, no link row repeats a link that an artifact carries, no row
   * references one that is copied after it, and every bundle that an artifact carries
   * is there.
   */
  lemma CopySucceedsIff(s: Schema, topology: Topology, keys: Topology, source: Source, present: set<Table>,
                        rank: Table -> nat)
    requires Fits(s, topology, keys) && KeysHold(s, keys, source, present) && Ranks(topology, present, rank)
    ensures var order := Ordered(topology, present);
            TablesCopied(s, source, order).Some? <==>
            && !HasMisfit(source, present) && !RepeatsIn(s.indexes, source, present)
            && !Collides(s, source, present) && !HasLateParent(source, order) && !LosesBundle(s, source, present)
  {
    OrderIsPermutation(topology, present);
    TablesCopiedIff(s, source, Ordered(topology, present));
    LinkingSucceedsIff(s, topology, keys, source, present, rank);
  }

  /** A key of a unique index that two rows share makes the whole copy fail, whatever else the source holds. */
  lemma RepeatedKeyFails(s: Schema, source: Source, order: seq<Table>, t: Table)
    requires Distinct(order) && t in order && Repeats(s.indexes(t), source(t))
    ensures TablesCopied(s, source, order).None?
  {
    TablesCopiedIff(s, source, order);
  }

  /** A row that references a table copied later makes the whole copy fail. */
  lemma LateParentFails(s: Schema, source: Source, order: seq<Table>, i: nat, k: nat, ref: Ref)
    requires WellFormed(s) && Distinct(order) && i < |order|
    requires k < |source(order[i])| && ref in source(order[i])[k].refs
    requires ref.table !in order[..i + 1] && ref.table !in s.preSeeded && ref.table != s.locations
             && ref.table != s.links
    requires order[i] !in s.preSeeded
    ensures TablesCopied(s, source, order).None?
  {
    var t, rows := order[i], source(order[i]);
    var before := TablesLinked(s, source, order[..i]);
    assert order[..i + 1][..i] == order[..i];
    if before.Some? {
      assert rows[..k + 1][..k] == rows[..k];
      var midway := RowsLinked(s, before.value, t, rows[..k]);
      if midway.Some? {
        LinkedContent(s, source, order[..i], ref);
        RowsContent(s, before.value, t, rows[..k], ref);
        assert t in order[..i + 1];
        NotAdded(s, source, order[..i], t, rows[..k], ref);
        assert ref !in midway.value;
      }
      NoRowBack(s, before.value, t, rows, k + 1);
    }
    NothingBack(s, source, order, i + 1);
    TablesCopiedIff(s, source, order);
  }

  lemma {:induction false} NoRowBack(s: Schema, start: set<Ref>, table: Table, rows: seq<Row>, i: nat)
    requires i <= |rows| && RowsLinked(s, start, table, rows[..i]).None?
    ensures RowsLinked(s, start, table, rows).None?
    decreases |rows|
  {
    if i < |rows| {
      assert rows[..|rows| - 1][..i] == rows[..i];
      NoRowBack(s, start, table, rows[..|rows| - 1], i);
    } else {
      assert rows[..i] == rows;
    }
  }

  lemma {:induction false} NothingBack(s: Schema, source: Source, tables: seq<Table>, i: nat)
    requires i <= |tables| && TablesLinked(s, source, tables[..i]).None?
    ensures TablesLinked(s, source, tables).None?
    decreases |tables|
  {
    if i < |tables| {
      assert tables[..|tables| - 1][..i] == tables[..i];
      NothingBack(s, source, tables[..|tables| - 1], i);
    } else {
      assert tables[..i] == tables;
    }
  }

  lemma NotAdded(s: Schema, source: Source, done: seq<Table>, t: Table, rows: seq<Row>, ref: Ref)
    requires WellFormed(s) && ref.table !in done && ref.table != t
    requires ref.table !in s.preSeeded && ref.table != s.locations && ref.table != s.links
    ensures !Content(s, source, done, ref) && !Adds(s, t, rows, ref)
  {
  }
}
