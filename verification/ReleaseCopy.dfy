/**
 * The copy for the tables, keys and indexes of the release store: exactly which
 * sources are copied, and a source for each way to fail.
 */
module ReleaseCopy {
  import opened Common
  import opened TableOrder
  import opened UniqueIndexes
  import opened RowCopy

  const ARTIFACTS: Table := "candidate_artifacts"
  const LOCATIONS: Table := "candidate_artifact_locations"
  const LINKS: Table := "bundle_candidate_artifacts"
  const BUNDLES: Table := "release_bundles"
  const SOURCE_VERSION: Table := "authorization_source_version"
  const POLICY_VERSION: Table := "policy_version"

  function ReleaseSchema(seeds: set<Ref>): Schema {
    Schema(ARTIFACTS, LOCATIONS, LINKS, BUNDLES, {SOURCE_VERSION, POLICY_VERSION}, seeds,
           TargetIndexes)
  }

  lemma SpecialLengths()
    ensures |ARTIFACTS| == 19 && |LOCATIONS| == 28 && |LINKS| == 26 && |BUNDLES| == 15
    ensures |SOURCE_VERSION| == 28 && |POLICY_VERSION| == 14 && SOURCE_VERSION[0] != LOCATIONS[0]
  {
  }

  lemma ReleaseSchemaIsWellFormed(seeds: set<Ref>)
    requires forall ref :: ref in seeds ==> IsSeeded(ref.table)
    ensures WellFormed(ReleaseSchema(seeds))
  {
    SpecialLengths();
  }

  lemma ParentsAreOrdinary(p: Table)
    requires IsRoot(p) || IsMiddle(p)
    ensures p != LINKS && p != LOCATIONS && p != SOURCE_VERSION && p != POLICY_VERSION
  {
    SpecialLengths();
    assert |"customers"| == 9 && |"release_definitions"| == 19 && |"operators"| == 9 && |"users"| == 5;
    assert |"organizations"| == 13 && |"clusters"| == 8 && |"values_revisions"| == 16 && |"operations"| == 10;
    assert |"org_customer_bindings"| == 21;
  }

  lemma SeededHaveNoKeys(t: Table)
    requires IsSeeded(t)
    ensures TargetKeys(t) == []
  {
    SpecialLengths();
    assert |EXECUTION_RESULTS| == 27 && |IMAGE_BINDINGS| == 29 && |VALIDATION_OUTBOX| == 24
      && |PENDING_IDENTITIES| == 25;
    assert |REVISIONS| == 16 && |ROLLOUTS| == 17;
    assert |PREPARE_SESSIONS| == 28 && PREPARE_SESSIONS[0] != SOURCE_VERSION[0];
    assert |BUNDLE_ALIASES| == 14 && BUNDLE_ALIASES[0] != POLICY_VERSION[0];
  }

  lemma SpecialHaveNoIndexes(t: Table)
    requires IsSeeded(t) || t == LINKS || t == LOCATIONS
    ensures TargetIndexes(t) == []
  {
    SpecialLengths();
    assert |REVISIONS| == 16 && |JOBS| == 17 && |RECORDS| == 20 && |BUNDLES| == 15 && |"operations"| == 10;
    assert |IMAGE_BINDINGS| == 29 && |"artifact_events"| == 15 && |VALIDATION_OUTBOX| == 24;
  }

  lemma RelocationsAreOrdered()
    ensures BUNDLES in FkTopology(ARTIFACTS) && ARTIFACTS in FkTopology(LINKS)
  {
  }

  lemma KeysAreOrdinary(t: Table, p: Table)
    requires p in TargetKeys(t)
    ensures p != LINKS && p != LOCATIONS && p != SOURCE_VERSION && p != POLICY_VERSION
  {
    KindsOfKeys(t, p);
    ParentsAreOrdinary(p);
  }

  lemma ReleaseKeysStayApart(seeds: set<Ref>)
    ensures KeysStayApart(ReleaseSchema(seeds), TargetKeys)
  {
    forall t, p | p in TargetKeys(t)
      ensures p != LINKS && p != LOCATIONS && p != SOURCE_VERSION && p != POLICY_VERSION
    {
      KeysAreOrdinary(t, p);
    }
    SeededHaveNoKeys(SOURCE_VERSION);
    SeededHaveNoKeys(POLICY_VERSION);
  }

  lemma ReleaseIndexesStayApart(seeds: set<Ref>)
    ensures IndexesStayApart(ReleaseSchema(seeds))
  {
    SpecialHaveNoIndexes(SOURCE_VERSION);
    SpecialHaveNoIndexes(POLICY_VERSION);
    SpecialHaveNoIndexes(LINKS);
    SpecialHaveNoIndexes(LOCATIONS);
  }

  lemma ReleaseFits(seeds: set<Ref>)
    requires forall ref :: ref in seeds ==> IsSeeded(ref.table)
    ensures Fits(ReleaseSchema(seeds), FkTopology, TargetKeys)
  {
    ReleaseSchemaIsWellFormed(seeds);
    RelocationsAreOrdered();
    ParentsAreOrdinary(BUNDLES);
    ReleaseKeysStayApart(seeds);
    ReleaseIndexesStayApart(seeds);
  }

  /** Some row holds a key that the topology does not list and whose parent table is copied later. */
  ghost predicate HasLateRow(source: Source, present: set<Table>) {
    exists t, i, ref :: t in present && 0 <= i < |source(t)| && ref in source(t)[i].refs && IsLateKey(t, ref.table)
  }

  /** Some revision is read before its parent revision. */
  ghost predicate ReadsParentLater(source: Source, present: set<Table>) {
    REVISIONS in present &&
    exists i, ref :: 0 <= i < |source(REVISIONS)| && ref in source(REVISIONS)[i].refs
                  && ref.table == REVISIONS && !HasKey(source(REVISIONS)[..i + 1], ref.id)
  }

  lemma PositionInOrder(order: seq<Table>, t: Table) returns (n: nat)
    requires t in Names(order)
    ensures n < |order| && order[n] == t
  {
    n :| n < |order| && order[n] == t;
  }

  /** What comes earlier in a list without repetition is among the first, and what comes later is not. */
  lemma PrecedesMeans(order: seq<Table>, a: Table, b: Table, n: nat)
    requires Distinct(order) && Precedes(order, a, b) && n < |order|
    ensures order[n] == b ==> a in order[..n]
    ensures order[n] == a ==> b !in order[..n] && b != a
  {
    var i, j :| 0 <= i < j < |order| && order[i] == a && order[j] == b;
    if order[n] == b {
      assert order[..n][i] == a;
    }
    if order[n] == a {
      assert forall k :: 0 <= k < n ==> order[..n][k] == order[k] != order[j];
    }
  }

  /** A reference that is not met in time is a late key, or a revision read before its parent. */
  lemma LateRefKinds(source: Source, present: set<Table>, order: seq<Table>, n: nat, i: nat, ref: Ref)
    requires order == Ordered(FkTopology, present) && n < |order| && i < |source(order[n])|
    requires ref.table in TargetKeys(order[n]) && ref.table in present && order[n] in present
    requires !InTime(source, order[..n], order[n], i, ref)
    ensures IsLateKey(order[n], ref.table) || (order[n] == REVISIONS && ref.table == REVISIONS)
  {
    var t, p := order[n], ref.table;
    OrderIsPermutation(FkTopology, present);
    ListedForeignKeysAreRespected(present);
    KindsOfKeys(t, p);
    assert p in FkTopology(t) ==> p in Needs(FkTopology, present, t);
    assert Needs(FkTopology, present, t) <= Names(order[..n]);
    if IsLuckyKey(t, p) {
      LuckyKeyIsRespected(present, t, p);
      PrecedesMeans(order, p, t, n);
    }
  }

  /** A late key is never met in time. */
  lemma LateKeyIsLate(source: Source, present: set<Table>, t: Table, i: nat, ref: Ref)
    requires t in present && ref.table in present && IsLateKey(t, ref.table) && i < |source(t)|
             && ref in source(t)[i].refs
    ensures HasLateParent(source, Ordered(FkTopology, present))
  {
    var order := Ordered(FkTopology, present);
    OrderIsPermutation(FkTopology, present);
    LateKeyIsNotRespected(present, t, ref.table);
    var n := PositionInOrder(order, t);
    PrecedesMeans(order, t, ref.table, n);
    assert !InTime(source, order[..n], order[n], i, ref);
  }

  lemma ParentReadLaterIsLate(source: Source, present: set<Table>, i: nat, ref: Ref)
    requires REVISIONS in present && i < |source(REVISIONS)| && ref in source(REVISIONS)[i].refs
    requires ref.table == REVISIONS && !HasKey(source(REVISIONS)[..i + 1], ref.id)
    ensures HasLateParent(source, Ordered(FkTopology, present))
  {
    var order := Ordered(FkTopology, present);
    OrderIsPermutation(FkTopology, present);
    var n := PositionInOrder(order, REVISIONS);
    assert forall k :: 0 <= k < n ==> order[..n][k] == order[k] != order[n];
    assert !InTime(source, order[..n], order[n], i, ref);
  }

  /** In the order of the copy, the late references are those of five unlisted tables and of revisions to later ones. */
  lemma LateParentsNamed(s: Schema, source: Source, present: set<Table>)
    requires KeysHold(s, TargetKeys, source, present)
    ensures HasLateParent(source, Ordered(FkTopology, present)) <==>
            HasLateRow(source, present) || ReadsParentLater(source, present)
  {
    var order := Ordered(FkTopology, present);
    OrderIsPermutation(FkTopology, present);
    if HasLateParent(source, order) {
      var n, i, ref :| 0 <= n < |order| && 0 <= i < |source(order[n])| && ref in source(order[n])[i].refs
                    && !InTime(source, order[..n], order[n], i, ref);
      assert order[n] in Names(order);
      assert RefsHold(TargetKeys, source, present, order[n], source(order[n])[i]);
      LateRefKinds(source, present, order, n, i, ref);
    }
    if HasLateRow(source, present) {
      var t, i, ref :| t in present && 0 <= i < |source(t)| && ref in source(t)[i].refs && IsLateKey(t, ref.table);
      assert RefsHold(TargetKeys, source, present, t, source(t)[i]);
      LateKeyIsLate(source, present, t, i, ref);
    }
    if ReadsParentLater(source, present) {
      var i, ref :| 0 <= i < |source(REVISIONS)| && ref in source(REVISIONS)[i].refs
                 && ref.table == REVISIONS && !HasKey(source(REVISIONS)[..i + 1], ref.id);
      ParentReadLaterIsLate(source, present, i, ref);
    }
  }

  /** The source meets its own unique indexes. */
  ghost predicate SourceHolds(source: Source, present: set<Table>) {
    !RepeatsIn(SourceIndexes, source, present)
  }

  /** What the source guarantees leaves the indexes that only the target has. */
  lemma RepeatsNamed(source: Source, present: set<Table>)
    requires SourceHolds(source, present)
    ensures RepeatsIn(TargetIndexes, source, present) <==> RepeatsIn(TargetOnlyIndexes, source, present)
  {
    forall t | t in present ensures Repeats(TargetIndexes(t), source(t)) <==> Repeats(TargetOnlyIndexes(t), source(t)) {
      assert !Repeats(SourceIndexes(t), source(t));
      RepeatsOfBoth(SharedIndexes(t), TargetOnlyIndexes(t), source(t));
      RepeatsOfBoth(SharedIndexes(t), if t == JOBS then [ACTIVE_JOB_INDEX] else [], source(t));
    }
  }

  lemma RepeatsOfBoth(a: seq<Index>, b: seq<Index>, rows: seq<Row>)
    ensures Repeats(a + b, rows) <==> Repeats(a, rows) || Repeats(b, rows)
  {
    assert forall ix :: ix in a + b <==> ix in a || ix in b;
  }

  /**
   * For every source that meets its own unique indexes and the foreign keys of the
   * target, the copy succeeds exactly when every row fits by itself, no two rows have
   * the same key in an index that only the target has, no link collides, no row holds
   * one of the late keys, every revision is read after its parent, and every bundle that
   * an artifact carries is there.
   */
  lemma ReleaseCopySucceedsIff(source: Source, present: set<Table>, seeds: set<Ref>)
    requires forall ref :: ref in seeds ==> IsSeeded(ref.table)
    requires KeysHold(ReleaseSchema(seeds), TargetKeys, source, present) && SourceHolds(source, present)
    ensures var s := ReleaseSchema(seeds);
            TablesCopied(s, source, Ordered(FkTopology, present)).Some? <==>
            && !HasMisfit(source, present) && !RepeatsIn(TargetOnlyIndexes, source, present)
            && !Collides(s, source, present) && !LosesBundle(s, source, present)
            && !HasLateRow(source, present) && !ReadsParentLater(source, present)
  {
    ReleaseFits(seeds);
    FkTopologyIsRanked(present);
    CopySucceedsIff(ReleaseSchema(seeds), FkTopology, TargetKeys, source, present, FkRank);
    LateParentsNamed(ReleaseSchema(seeds), source, present);
    RepeatsNamed(source, present);
  }

  // ---------------------------------------------------------------------
  // A source for each way to fail
  // ---------------------------------------------------------------------

  /** A row whose values do not matter. */
  function Plain(name: string, refs: set<Ref>): Row {
    Row(Single(name), refs, "", "", map[], true)
  }

  function TableOf(a: Table, rows: seq<Row>, others: Source): Source {
    (t: Table) => if t == a then rows else others(t)
  }

  const NOTHING: Source := (t: Table) => []

  /** A source that meets the keys of the target and its own indexes, and whose rows fit one by one. */
  ghost predicate IsSource(source: Source, present: set<Table>) {
    && KeysHold(ReleaseSchema({}), TargetKeys, source, present)
    && SourceHolds(source, present) && !HasMisfit(source, present)
  }

  ghost predicate IsCopied(source: Source, present: set<Table>) {
    TablesCopied(ReleaseSchema({}), source, Ordered(FkTopology, present)).Some?
  }

  /** The references of a new table lead into the source, or into the table itself. */
  ghost predicate LeadsIn(keys: Topology, source: Source, present: set<Table>, t: Table, rows: seq<Row>) {
    forall i, ref :: 0 <= i < |rows| && ref in rows[i].refs ==>
      && ref.table in keys(t)
      && if ref.table == t then HasKey(rows, ref.id) else ref.table in present && HasKey(source(ref.table), ref.id)
  }

  /** Adding a table whose references lead there keeps the keys. */
  lemma AddTableKeys(s: Schema, keys: Topology, source: Source, present: set<Table>, t: Table, rows: seq<Row>)
    requires KeysHold(s, keys, source, present) && t !in present && t != s.locations
    requires forall i, j :: 0 <= i < j < |rows| ==> rows[i].id != rows[j].id
    requires forall i :: 0 <= i < |rows| ==> rows[i].id.Single? || t != s.artifacts
    requires LeadsIn(keys, source, present, t, rows)
    ensures KeysHold(s, keys, TableOf(t, rows, source), present + {t})
  {
    var source' := TableOf(t, rows, source);
    forall u, i | u in present + {t} && 0 <= i < |source'(u)|
      ensures RefsHold(keys, source', present + {t}, u, source'(u)[i])
    {
      assert u != t ==> RefsHold(keys, source, present, u, source(u)[i]);
    }
  }

  /** The same keeps a source one, if the rows fit and repeat no key of its indexes. */
  lemma AddTable(source: Source, present: set<Table>, t: Table, rows: seq<Row>)
    requires IsSource(source, present) && t !in present && t != LOCATIONS
    requires forall i, j :: 0 <= i < j < |rows| ==> rows[i].id != rows[j].id
    requires forall i :: 0 <= i < |rows| ==> rows[i].id.Single? || t != ARTIFACTS
    requires LeadsIn(TargetKeys, source, present, t, rows)
    requires AllFit(rows) && !Repeats(SourceIndexes(t), rows)
    ensures IsSource(TableOf(t, rows, source), present + {t})
  {
    AddTableKeys(ReleaseSchema({}), TargetKeys, source, present, t, rows);
    AddTableRows(SourceIndexes, source, present, t, rows);
  }

  lemma AddTableRows(indexes: Table -> seq<Index>, source: Source, present: set<Table>, t: Table, rows: seq<Row>)
    requires !RepeatsIn(indexes, source, present) && !HasMisfit(source, present)
    requires AllFit(rows) && !Repeats(indexes(t), rows)
    ensures !RepeatsIn(indexes, TableOf(t, rows, source), present + {t})
    ensures !HasMisfit(TableOf(t, rows, source), present + {t})
  {
    var source' := TableOf(t, rows, source);
    forall u | u in present + {t} ensures !Repeats(indexes(u), source'(u)) && AllFit(source'(u)) {
    }
  }

  lemma OneRowNeverRepeats(indexes: seq<Index>, row: Row)
    ensures !Repeats(indexes, [row])
  {
  }

  /** The same for one row. */
  lemma AddRow(source: Source, present: set<Table>, t: Table, row: Row)
    requires IsSource(source, present) && t !in present && t != LOCATIONS
    requires (row.id.Single? || t != ARTIFACTS) && row.fits
    requires forall ref :: ref in row.refs ==>
               ref.table in TargetKeys(t) && ref.table in present && HasKey(source(ref.table), ref.id)
    ensures IsSource(TableOf(t, [row], source), present + {t})
  {
    OneRowNeverRepeats(SourceIndexes(t), row);
    AddTable(source, present, t, [row]);
  }

  lemma NothingHolds()
    ensures IsSource(NOTHING, {})
  {
  }

  lemma LateTablesAreOrdinary(t: Table, p: Table)
    requires IsLateKey(t, p)
    ensures t != SOURCE_VERSION && t != POLICY_VERSION && (IsRoot(p) || IsMiddle(p))
  {
    SpecialLengths();
    assert |EXECUTION_RESULTS| == 27 && |IMAGE_BINDINGS| == 29 && |VALIDATION_OUTBOX| == 24;
    assert |PREPARE_SESSIONS| == 28 && PREPARE_SESSIONS[0] != SOURCE_VERSION[0];
    assert |BUNDLE_ALIASES| == 14 && BUNDLE_ALIASES[0] != POLICY_VERSION[0];
  }

  /** One row with a late key is enough to fail, whatever else the source holds. */
  lemma LateRowFailsTheCopy(source: Source, present: set<Table>, seeds: set<Ref>, t: Table, i: nat, ref: Ref)
    requires forall r :: r in seeds ==> IsSeeded(r.table)
    requires t in present && ref.table in present
    requires i < |source(t)| && ref in source(t)[i].refs && IsLateKey(t, ref.table)
    ensures TablesCopied(ReleaseSchema(seeds), source, Ordered(FkTopology, present)).None?
  {
    var order := Ordered(FkTopology, present);
    ReleaseSchemaIsWellFormed(seeds);
    OrderIsPermutation(FkTopology, present);
    LateKeyIsNotRespected(present, t, ref.table);
    var n := PositionInOrder(order, t);
    PrecedesMeans(order, t, ref.table, n);
    assert order[..n + 1] == order[..n] + [t];
    LateTablesAreOrdinary(t, ref.table);
    ParentsAreOrdinary(ref.table);
    LateParentFails(ReleaseSchema(seeds), source, order, n, i, ref);
  }

  lemma KeysOfResults()
    ensures TargetKeys(EXECUTION_RESULTS) == ["operations"]
  {
    assert |EXECUTION_RESULTS| == 27 && |REVISIONS| == 16 && |ROLLOUTS| == 17;
    assert |"candidate_artifacts"| == 19 && |"preflight_lifecycles"| == 20;
  }

  lemma KeysOfSessions()
    ensures TargetKeys(PREPARE_SESSIONS) == ["release_definitions", REVISIONS]
  {
    assert |PREPARE_SESSIONS| == 28 && |REVISIONS| == 16 && |ROLLOUTS| == 17;
    assert |"candidate_artifacts"| == 19 && |"preflight_lifecycles"| == 20;
  }

  lemma KeysOfOperations()
    ensures "release_definitions" in TargetKeys("operations")
  {
    NeedsOfParents();
    assert |"operations"| == 10 && |"candidate_artifacts"| == 19 && |"preflight_lifecycles"| == 20;
  }

  lemma KeysOfRevisions()
    ensures "release_definitions" in TargetKeys(REVISIONS) && REVISIONS in TargetKeys(REVISIONS)
  {
    assert |REVISIONS| == 16 && |"candidate_artifacts"| == 19 && |"preflight_lifecycles"| == 20;
    assert FkTopology(REVISIONS) == ["release_definitions"];
  }

  lemma KeysOfLinks()
    ensures BUNDLES in TargetKeys(LINKS) && ARTIFACTS in TargetKeys(LINKS)
  {
    SpecialLengths();
    assert |"preflight_lifecycles"| == 20;
    assert FkTopology(LINKS) == [BUNDLES, ARTIFACTS];
  }

  lemma WitnessNames()
    ensures |"release_definitions"| == 19 && |"operations"| == 10 && |REVISIONS| == 16
    ensures |EXECUTION_RESULTS| == 27 && |PREPARE_SESSIONS| == 28
    ensures PREPARE_SESSIONS[1] != LOCATIONS[1] && "release_definitions"[0] != ARTIFACTS[0]
  {
  }

  const DEFINITION: Source := TableOf("release_definitions", [Plain("d", {})], NOTHING)

  lemma DefinitionHolds()
    ensures IsSource(DEFINITION, {"release_definitions"})
    ensures HasKey(DEFINITION("release_definitions"), Single("d"))
  {
    WitnessNames();
    SpecialLengths();
    NothingHolds();
    AddRow(NOTHING, {}, "release_definitions", Plain("d", {}));
    assert DEFINITION("release_definitions")[0].id == Single("d");
    assert {} + {"release_definitions"} == {"release_definitions"};
  }

  const SESSION: Source :=
    TableOf(PREPARE_SESSIONS, [Plain("c", {Ref("release_definitions", Single("d"))})], DEFINITION)

  lemma SessionIsNew()
    ensures "release_definitions" in TargetKeys(PREPARE_SESSIONS)
    ensures PREPARE_SESSIONS !in {"release_definitions"}
    ensures PREPARE_SESSIONS != LOCATIONS && PREPARE_SESSIONS != ARTIFACTS
  {
    KeysOfSessions();
    WitnessNames();
    SpecialLengths();
  }

  lemma SessionHolds()
    ensures IsSource(SESSION, {"release_definitions"} + {PREPARE_SESSIONS})
  {
    DefinitionHolds();
    SessionIsNew();
    AddRow(DEFINITION, {"release_definitions"}, PREPARE_SESSIONS,
           Plain("c", {Ref("release_definitions", Single("d"))}));
  }

  /** A prepare session of a release definition. */
  lemma PrepareSessionWitness()
    ensures var present := {"release_definitions"} + {PREPARE_SESSIONS};
            && IsSource(SESSION, present)
            && !IsCopied(SESSION, present)
  {
    SessionHolds();
    var ref := Ref("release_definitions", Single("d"));
    assert SESSION(PREPARE_SESSIONS) == [Plain("c", {ref})];
    LateRowFailsTheCopy(SESSION, {"release_definitions"} + {PREPARE_SESSIONS}, {}, PREPARE_SESSIONS, 0, ref);
  }

  const OPERATION: Source :=
    TableOf("operations", [Plain("o", {Ref("release_definitions", Single("d"))})], DEFINITION)

  lemma OperationHolds()
    ensures IsSource(OPERATION, {"release_definitions"} + {"operations"})
    ensures HasKey(OPERATION("operations"), Single("o"))
  {
    DefinitionHolds();
    KeysOfOperations();
    WitnessNames();
    SpecialLengths();
    AddRow(DEFINITION, {"release_definitions"}, "operations", Plain("o", {Ref("release_definitions", Single("d"))}));
    assert OPERATION("operations")[0].id == Single("o");
  }

  const RESULT: Source := TableOf(EXECUTION_RESULTS, [Plain("o", {Ref("operations", Single("o"))})], OPERATION)

  lemma ResultIsNew()
    ensures "operations" in TargetKeys(EXECUTION_RESULTS)
    ensures EXECUTION_RESULTS !in {"release_definitions"} + {"operations"}
    ensures EXECUTION_RESULTS != LOCATIONS && EXECUTION_RESULTS != ARTIFACTS
  {
    KeysOfResults();
    WitnessNames();
    SpecialLengths();
  }

  lemma ResultHolds()
    ensures IsSource(RESULT, {"release_definitions"} + {"operations"} + {EXECUTION_RESULTS})
  {
    OperationHolds();
    ResultIsNew();
    AddRow(OPERATION, {"release_definitions"} + {"operations"}, EXECUTION_RESULTS,
           Plain("o", {Ref("operations", Single("o"))}));
  }

  /** The execution result of an operation. */
  lemma ExecutionResultWitness()
    ensures var present := {"release_definitions"} + {"operations"} + {EXECUTION_RESULTS};
            && IsSource(RESULT, present)
            && !IsCopied(RESULT, present)
  {
    ResultHolds();
    var ref := Ref("operations", Single("o"));
    assert RESULT(EXECUTION_RESULTS) == [Plain("o", {ref})];
    LateRowFailsTheCopy(RESULT, {"release_definitions"} + {"operations"} + {EXECUTION_RESULTS}, {},
                        EXECUTION_RESULTS, 0, ref);
  }

  const CHILD: Row := Row(Single("c"), {Ref("release_definitions", Single("d")), Ref(REVISIONS, Single("p"))}, "", "",
                          RevisionValues("d", "draft", 2), true)
  const PARENT: Row := Row(Single("p"), {Ref("release_definitions", Single("d"))}, "", "",
                           RevisionValues("d", "superseded", 1), true)
  const CHILD_FIRST: Source := TableOf(REVISIONS, [CHILD, PARENT], DEFINITION)

  lemma RevisionIds()
    ensures CHILD.id != PARENT.id && HasKey([CHILD, PARENT], Single("p")) && !HasKey([CHILD], Single("p"))
  {
    assert "c"[0] != "p"[0];
    assert [CHILD, PARENT][1].id == Single("p");
  }

  lemma RevisionsDiffer()
    ensures !Repeats(SourceIndexes(REVISIONS), [CHILD, PARENT])
  {
    assert |REVISIONS| == 16 && |JOBS| == 17;
    assert SourceIndexes(REVISIONS) == [APPROVED_INDEX, PENDING_INDEX, VERSION_INDEX];
    RevisionKeysMean("d", "draft", 2, "d", "superseded", 1);
    assert |"draft"| == 5 && |"superseded"| == 10;
  }

  lemma ChildFirstHolds()
    ensures IsSource(CHILD_FIRST, {"release_definitions"} + {REVISIONS})
  {
    DefinitionHolds();
    KeysOfRevisions();
    WitnessNames();
    SpecialLengths();
    RevisionIds();
    RevisionsDiffer();
    AddTable(DEFINITION, {"release_definitions"}, REVISIONS, [CHILD, PARENT]);
  }

  /** Two revisions of a release definition, the child read first. */
  lemma RevisionParentWitness()
    ensures var present := {"release_definitions"} + {REVISIONS};
            && IsSource(CHILD_FIRST, present)
            && !IsCopied(CHILD_FIRST, present)
  {
    var present := {"release_definitions"} + {REVISIONS};
    ChildFirstHolds();
    RevisionIds();
    var rows := CHILD_FIRST(REVISIONS);
    assert rows == [CHILD, PARENT] && rows[..1] == [CHILD];
    assert ReadsParentLater(CHILD_FIRST, present) by {
      assert Ref(REVISIONS, Single("p")) in rows[0].refs && !HasKey(rows[..0 + 1], Single("p"));
    }
    ReleaseCopySucceedsIff(CHILD_FIRST, present, {});
  }

  const ARTIFACT: Row := Row(Single("a"), {}, "l", "b", map[], true)
  const LINK: Row := Row(Pair("b", "a"), {Ref(BUNDLES, Single("b")), Ref(ARTIFACTS, Single("a"))}, "", "",
                         map[], true)
  const BUNDLE: Source := TableOf(BUNDLES, [Plain("b", {})], NOTHING)
  const CARRIED: Source := TableOf(ARTIFACTS, [ARTIFACT], BUNDLE)

  lemma BundleHolds()
    ensures IsSource(BUNDLE, {} + {BUNDLES})
  {
    SpecialLengths();
    NothingHolds();
    AddRow(NOTHING, {}, BUNDLES, Plain("b", {}));
  }

  lemma CarriedHolds()
    ensures IsSource(CARRIED, {} + {BUNDLES} + {ARTIFACTS})
  {
    SpecialLengths();
    BundleHolds();
    AddRow(BUNDLE, {} + {BUNDLES}, ARTIFACTS, ARTIFACT);
  }

  lemma CarriedKeys()
    ensures HasKey(CARRIED(BUNDLES), Single("b")) && HasKey(CARRIED(ARTIFACTS), Single("a"))
  {
    SpecialLengths();
    assert CARRIED(BUNDLES)[0].id == Single("b") && CARRIED(ARTIFACTS)[0].id == Single("a");
  }

  /** An artifact that carries its bundle, and the link row of the two. */
  lemma CollisionWitness()
    ensures var source, present := TableOf(LINKS, [LINK], CARRIED), {} + {BUNDLES} + {ARTIFACTS} + {LINKS};
            && IsSource(source, present)
            && !IsCopied(source, present)
  {
    var source, present := TableOf(LINKS, [LINK], CARRIED), {} + {BUNDLES} + {ARTIFACTS} + {LINKS};
    var s := ReleaseSchema({});
    CarriedHolds();
    CarriedKeys();
    KeysOfLinks();
    SpecialLengths();
    AddRow(CARRIED, {} + {BUNDLES} + {ARTIFACTS}, LINKS, LINK);
    assert source(LINKS)[0] == LINK && source(ARTIFACTS)[0] == ARTIFACT && |"b"| == 1;
    assert LinkRef(s, source(ARTIFACTS)[0]) == Ref(LINKS, source(LINKS)[0].id);
    assert Sends(s, source(ARTIFACTS), Ref(LINKS, source(LINKS)[0].id));
    ReleaseCopySucceedsIff(source, present, {});
  }

  /** An artifact that carries a bundle which is not there; nothing in the source forbids it. */
  lemma LostBundleWitness()
    ensures var source := TableOf(ARTIFACTS, [ARTIFACT], NOTHING);
            && IsSource(source, {} + {ARTIFACTS})
            && !IsCopied(source, {} + {ARTIFACTS})
  {
    var source := TableOf(ARTIFACTS, [ARTIFACT], NOTHING);
    SpecialLengths();
    NothingHolds();
    AddRow(NOTHING, {}, ARTIFACTS, ARTIFACT);
    assert source(ARTIFACTS)[0] == ARTIFACT && |"b"| == 1;
    assert !BundleKnown(ReleaseSchema({}), source, {} + {ARTIFACTS}, source(ARTIFACTS)[0]);
    ReleaseCopySucceedsIff(source, {} + {ARTIFACTS}, {});
  }

  // ---------------------------------------------------------------------
  // Sources that break a unique index of the target
  // ---------------------------------------------------------------------

  /** Two approved revisions of one definition. */
  lemma SecondApprovedFailsTheCopy(source: Source, present: set<Table>, seeds: set<Ref>, i: nat, j: nat,
                                   definition: string, n: int, m: int)
    requires REVISIONS in present && i < j < |source(REVISIONS)|
    requires source(REVISIONS)[i].values == RevisionValues(definition, "approved", n)
    requires source(REVISIONS)[j].values == RevisionValues(definition, "approved", m)
    ensures TablesCopied(ReleaseSchema(seeds), source, Ordered(FkTopology, present)).None?
  {
    RevisionKeysMean(definition, "approved", n, definition, "approved", m);
    assert SharedIndexes(REVISIONS)[0] == APPROVED_INDEX;
    assert APPROVED_INDEX in TargetIndexes(REVISIONS);
    OrderIsPermutation(FkTopology, present);
    RepeatedKeyFails(ReleaseSchema(seeds), source, Ordered(FkTopology, present), REVISIONS);
  }

  /** Two jobs for one operation, channel and recipient, whatever their status. */
  lemma SecondJobFailsTheCopy(source: Source, present: set<Table>, seeds: set<Ref>, i: nat, j: nat,
                              operation: string, channel: string, recipient: string, status: string, status': string)
    requires JOBS in present && i < j < |source(JOBS)|
    requires source(JOBS)[i].values == JobValues(operation, channel, recipient, status)
    requires source(JOBS)[j].values == JobValues(operation, channel, recipient, status')
    ensures TablesCopied(ReleaseSchema(seeds), source, Ordered(FkTopology, present)).None?
  {
    JobKeysMean(operation, channel, recipient, status, status');
    assert TargetOnlyIndexes(JOBS)[0] == JOB_INDEX;
    assert JOB_INDEX in TargetIndexes(JOBS);
    OrderIsPermutation(FkTopology, present);
    RepeatedKeyFails(ReleaseSchema(seeds), source, Ordered(FkTopology, present), JOBS);
  }

  const GIVEN_UP: Row := Row(Single("g"), {}, "", "", JobValues("o", "c", "r", "dead_letter"), true)
  const SUCCESSOR: Row := Row(Single("s"), {}, "", "", JobValues("o", "c", "r", "pending"), true)
  const TWO_JOBS: Source := TableOf(JOBS, [GIVEN_UP, SUCCESSOR], NOTHING)

  lemma JobsDiffer()
    ensures !Repeats(SourceIndexes(JOBS), [GIVEN_UP, SUCCESSOR]) && GIVEN_UP.id != SUCCESSOR.id
  {
    assert |REVISIONS| == 16 && |JOBS| == 17;
    assert SourceIndexes(JOBS) == [ACTIVE_JOB_INDEX];
    assert ["delivered", "dead_letter"][1] == "dead_letter";
    JobKeysMean("o", "c", "r", "dead_letter", "pending");
    assert "g"[0] != "s"[0];
  }

  /** A job that was given up and the one that took its place; the source allows the pair. */
  lemma SuccessorJobWitness()
    ensures IsSource(TWO_JOBS, {} + {JOBS}) && !IsCopied(TWO_JOBS, {} + {JOBS})
  {
    JobsDiffer();
    NothingHolds();
    SpecialLengths();
    assert |JOBS| == 17;
    AddTable(NOTHING, {}, JOBS, [GIVEN_UP, SUCCESSOR]);
    assert TWO_JOBS(JOBS) == [GIVEN_UP, SUCCESSOR];
    SecondJobFailsTheCopy(TWO_JOBS, {} + {JOBS}, {}, 0, 1, "o", "c", "r", "dead_letter", "pending");
  }
}
