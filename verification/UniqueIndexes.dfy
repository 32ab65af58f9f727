/**
 * Unique indexes, with the conditions of partial ones, and the indexes that the
 * SQLite source and the PostgreSQL target declare.
 *
 * Primary keys are not listed here: they are the ids of the rows.  The values of a
 * row are those it has in the target; a column that is null is left out.
 */
module UniqueIndexes {
  import opened TableOrder

  type Column = string

  datatype Value = Text(text: string) | Number(number: int)

  type Values = map<Column, Value>

  datatype Condition =
    | Always
    | OneOf(column: Column, values: seq<string>)
    | NoneOf(column: Column, values: seq<string>)
    | Both(first: Condition, second: Condition)

  predicate Meets(c: Condition, v: Values) {
    match c
    case Always => true
    case OneOf(column, values) => column in v && v[column].Text? && v[column].text in values
    case NoneOf(column, values) => column in v && !(v[column].Text? && v[column].text in values)
    case Both(first, second) => Meets(first, v) && Meets(second, v)
  }

  datatype Index = Index(columns: seq<Column>, only: Condition)

  /** The row has an entry: the condition holds, and no column is null. */
  predicate Indexed(ix: Index, v: Values) {
    Meets(ix.only, v) && forall c :: c in ix.columns ==> c in v
  }

  function KeyOf(ix: Index, v: Values): Values
    requires Indexed(ix, v)
  {
    map c | c in ix.columns :: v[c]
  }

  /** Both rows have an entry, and it is the same. */
  predicate SameKey(ix: Index, v: Values, w: Values) {
    Indexed(ix, v) && Indexed(ix, w) && KeyOf(ix, v) == KeyOf(ix, w)
  }

  datatype Entry = Entry(table: Table, index: Index, key: Values)

  function Entries(t: Table, indexes: seq<Index>, v: Values): set<Entry> {
    set ix | ix in indexes && Indexed(ix, v) :: Entry(t, ix, KeyOf(ix, v))
  }

  // ---------------------------------------------------------------------
  // The indexes of the release store
  // ---------------------------------------------------------------------

  const JOBS: Table := "notification_jobs"
  const RECORDS: Table := "verification_records"

  const APPROVED_INDEX := Index(["release_definition_id"], OneOf("status", ["approved"]))
  const PENDING_INDEX := Index(["release_definition_id"], OneOf("status", ["pending_approval"]))
  const VERSION_INDEX := Index(["release_definition_id", "version"], Always)

  /** The target allows one job per operation, channel and recipient. */
  const JOB_INDEX := Index(["operation_id", "channel", "recipient"], Always)

  /** The source allows one such job that is neither delivered nor given up. */
  const ACTIVE_JOB_INDEX := Index(["operation_id", "channel", "recipient"],
                                  NoneOf("status", ["delivered", "dead_letter"]))

  function RevisionValues(definition: string, status: string, version: int): Values {
    map["release_definition_id" := Text(definition), "status" := Text(status), "version" := Number(version)]
  }

  function JobValues(operation: string, channel: string, recipient: string, status: string): Values {
    map["operation_id" := Text(operation), "channel" := Text(channel), "recipient" := Text(recipient),
        "status" := Text(status)]
  }

  const RELEASE_KEY := ["customer_id", "cluster_id", "namespace", "release_name"]

  const FINISHED := ["succeeded", "failed", "cancelled", "timeout"]

  const ACTIVE_OPERATION_INDEX :=
    Index(["release_definition_id"], Both(NoneOf("operation_type", ["EMERGENCY"]), NoneOf("status", FINISHED)))

  function Plainly(columns: seq<Column>): Index {
    Index(columns, Always)
  }

  /** The indexes that source and target declare alike. */
  function SharedIndexes(t: Table): seq<Index> {
    if t == REVISIONS then [APPROVED_INDEX, PENDING_INDEX, VERSION_INDEX]
    else if HasNoShared(t) then []
    else ReleaseIndexes(t) + OperationIndexes(t) + CustomerIndexes(t) + OperatorIndexes(t)
  }

  function ReleaseIndexes(t: Table): seq<Index> {
    if t == "release_definitions" || t == "release_inventory" || t == PENDING_IDENTITIES then [Plainly(RELEASE_KEY)]
    else if t == "inventory_sync_requests" then
      [Plainly(["command_id"]), Index(["customer_id", "cluster_id"], OneOf("status", ["pending", "running"]))]
    else if t == "candidate_artifacts" then [Plainly(["digest", "artifact_type"])]
    else if t == "cluster_routes" then [Plainly(["cluster_id", "artifact_type", "source_prefix"])]
    else []
  }

  function OperationIndexes(t: Table): seq<Index> {
    if t == "operations" then [Plainly(["idempotency_key"])]
    else if t == "operation_timeline" then [Plainly(["operation_id", "sequence"])]
    else if t == "preflight_lifecycles" || t == "convergence_tasks" then [Plainly(["operation_id"])]
    else if t == "emergency_intents" then [Plainly(["operation_id"]), Plainly(["command_id"])]
    else []
  }

  function CustomerIndexes(t: Table): seq<Index> {
    if t == "customers" then [Plainly(["slug"])]
    else if t == "users" then
      [Plainly(["username"]), Index(["provider", "subject"], Both(NoneOf("provider", [""]), NoneOf("subject", [""])))]
    else if t == "org_customer_bindings" then [Plainly(["org_id", "customer_id"])]
    else if t == "organization_customer_binding_events" then [Plainly(["binding_id", "optimistic_version"])]
    else []
  }

  function OperatorIndexes(t: Table): seq<Index> {
    if t == "sessions" then [Index(["operator_id"], OneOf("status", ["online", "suspect"]))]
    else if t == "operators" then
      [Plainly(["cert_serial"]), Index(["customer_id", "operator_name"], OneOf("status", ["active"])),
       Index(["cluster_id"], OneOf("status", ["active"]))]
    else if t == "enrollment_tokens" then [Index(["cluster_id"], OneOf("state", ["pending"]))]
    else []
  }

  /** Some tables without a shared index, by name. */
  predicate HasNoShared(t: Table) {
    || t == JOBS || t == RECORDS || t == "release_bundles" || IsSeeded(t)
    || t == "bundle_candidate_artifacts" || t == "candidate_artifact_locations"
  }

  /**
   * The indexes of the target that the source does not have, or not in this form: its
   * index on jobs is partial, that on bundle digests is not unique, that on
   * verification records compares the written times, of which the target keeps
   * microseconds, and one active operation per definition is left to its queries.
   * The last three tables are not in the source at all.
   */
  function TargetOnlyIndexes(t: Table): seq<Index> {
    if t == JOBS then [JOB_INDEX]
    else if t == "release_bundles" then [Plainly(["digest_alg", "digest_value"])]
    else if t == RECORDS then [Plainly(["artifact_digest", "policy_version", "created_at"])]
    else if t == "operations" then [ACTIVE_OPERATION_INDEX]
    else if t == IMAGE_BINDINGS then [Plainly(["bundle_id", "values_path"])]
    else if t == "artifact_events" then [Plainly(["source_id", "event_id"])]
    else if t == VALIDATION_OUTBOX then [Plainly(["bundle_id"])]
    else []
  }

  /** The unique indexes of the target, as its migrations leave them. */
  function TargetIndexes(t: Table): seq<Index> {
    SharedIndexes(t) + TargetOnlyIndexes(t)
  }

  /** The unique indexes of the source whose columns are copied as they are. */
  function SourceIndexes(t: Table): seq<Index> {
    SharedIndexes(t) + if t == JOBS then [ACTIVE_JOB_INDEX] else []
  }

  /** Release tables, by index. */
  ghost predicate IsReleaseIndex(t: Table, ix: Index) {
    || (ix == Index(["customer_id", "cluster_id", "namespace", "release_name"], Always)
        && t in {"release_definitions", "release_inventory", PENDING_IDENTITIES})
    || (ix == Index(["command_id"], Always) && t == "inventory_sync_requests")
    || (ix == Index(["customer_id", "cluster_id"], OneOf("status", ["pending", "running"]))
        && t == "inventory_sync_requests")
    || (ix == Index(["digest", "artifact_type"], Always) && t == "candidate_artifacts")
    || (ix == Index(["cluster_id", "artifact_type", "source_prefix"], Always) && t == "cluster_routes")
  }

  ghost predicate IsOperationIndex(t: Table, ix: Index) {
    || (ix == Index(["operation_id"], Always)
        && t in {"preflight_lifecycles", "convergence_tasks", "emergency_intents"})
    || (ix == Index(["operation_id", "sequence"], Always) && t == "operation_timeline")
    || (ix == Index(["command_id"], Always) && t == "emergency_intents")
    || (ix == Index(["idempotency_key"], Always) && t == "operations")
  }

  ghost predicate IsCustomerIndex(t: Table, ix: Index) {
    || (ix == Index(["slug"], Always) && t == "customers")
    || (ix == Index(["username"], Always) && t == "users")
    || (ix == Index(["provider", "subject"], Both(NoneOf("provider", [""]), NoneOf("subject", [""]))) && t == "users")
    || (ix == Index(["org_id", "customer_id"], Always) && t == "org_customer_bindings")
    || (ix == Index(["binding_id", "optimistic_version"], Always) && t == "organization_customer_binding_events")
  }

  ghost predicate IsOperatorIndex(t: Table, ix: Index) {
    || (ix == Index(["cert_serial"], Always) && t == "operators")
    || (ix.only == OneOf("status", ["active"]) && t == "operators"
        && ix.columns in {["customer_id", "operator_name"], ["cluster_id"]})
    || (ix == Index(["operator_id"], OneOf("status", ["online", "suspect"])) && t == "sessions")
    || (ix == Index(["cluster_id"], OneOf("state", ["pending"])) && t == "enrollment_tokens")
  }

  lemma ReleaseIndexesAre(t: Table, ix: Index)
    ensures ix in ReleaseIndexes(t) <==> IsReleaseIndex(t, ix)
  {
  }

  lemma OperationIndexesAre(t: Table, ix: Index)
    ensures ix in OperationIndexes(t) <==> IsOperationIndex(t, ix)
  {
  }

  lemma CustomerIndexesAre(t: Table, ix: Index)
    ensures ix in CustomerIndexes(t) <==> IsCustomerIndex(t, ix)
  {
  }

  lemma OperatorIndexesAre(t: Table, ix: Index)
    ensures ix in OperatorIndexes(t) <==> IsOperatorIndex(t, ix)
  {
  }

  lemma NoReleaseIndex(t: Table, ix: Index)
    requires HasNoShared(t)
    ensures !IsReleaseIndex(t, ix)
  {
  }

  lemma NoOperationIndex(t: Table, ix: Index)
    requires HasNoShared(t)
    ensures !IsOperationIndex(t, ix)
  {
  }

  lemma NoCustomerIndex(t: Table, ix: Index)
    requires HasNoShared(t)
    ensures !IsCustomerIndex(t, ix)
  {
  }

  lemma NoOperatorIndex(t: Table, ix: Index)
    requires HasNoShared(t)
    ensures !IsOperatorIndex(t, ix)
  {
  }

  lemma RevisionsHaveNone(ix: Index)
    ensures !IsReleaseIndex(REVISIONS, ix) && !IsOperationIndex(REVISIONS, ix)
    ensures !IsCustomerIndex(REVISIONS, ix) && !IsOperatorIndex(REVISIONS, ix)
  {
  }

  /** The shared indexes, index by index: what source and target both enforce. */
  lemma SharedIndexesAre(t: Table, ix: Index)
    ensures ix in SharedIndexes(t) <==>
            || (t == REVISIONS && ix in [APPROVED_INDEX, PENDING_INDEX, VERSION_INDEX])
            || IsReleaseIndex(t, ix) || IsOperationIndex(t, ix) || IsCustomerIndex(t, ix) || IsOperatorIndex(t, ix)
  {
    if t == REVISIONS {
      RevisionsHaveNone(ix);
    } else if HasNoShared(t) {
      NoReleaseIndex(t, ix);
      NoOperationIndex(t, ix);
      NoCustomerIndex(t, ix);
      NoOperatorIndex(t, ix);
    } else {
      var a, b, c, d := ReleaseIndexes(t), OperationIndexes(t), CustomerIndexes(t), OperatorIndexes(t);
      assert ix in a + b + c + d <==> ix in a || ix in b || ix in c || ix in d;
      ReleaseIndexesAre(t, ix);
      OperationIndexesAre(t, ix);
      CustomerIndexesAre(t, ix);
      OperatorIndexesAre(t, ix);
    }
  }

  /** The indexes of the target alone, on tables that the source has. */
  ghost predicate IsTargetOnly(t: Table, ix: Index) {
    || (ix == Index(["operation_id", "channel", "recipient"], Always) && t == JOBS)
    || (ix == Index(["digest_alg", "digest_value"], Always) && t == "release_bundles")
    || (ix == Index(["artifact_digest", "policy_version", "created_at"], Always) && t == RECORDS)
    || (ix == ACTIVE_OPERATION_INDEX && t == "operations")
  }

  /** The same, on tables that only the target has. */
  ghost predicate IsOfTargetTable(t: Table, ix: Index) {
    || (ix == Index(["bundle_id", "values_path"], Always) && t == IMAGE_BINDINGS)
    || (ix == Index(["source_id", "event_id"], Always) && t == "artifact_events")
    || (ix == Index(["bundle_id"], Always) && t == VALIDATION_OUTBOX)
  }

  lemma TargetOnlyAre(t: Table, ix: Index)
    ensures ix in TargetOnlyIndexes(t) <==> IsTargetOnly(t, ix) || IsOfTargetTable(t, ix)
  {
  }

  lemma TargetOnlyIsNotShared(t: Table, ix: Index)
    requires IsTargetOnly(t, ix)
    ensures ix !in SourceIndexes(t)
  {
    if t == "operations" {
      SharedIndexesAre(t, ix);
    }
  }

  /** No table with a shared index has a name of this length. */
  lemma NoneOfLength(t: Table)
    requires |t| == 15 || |t| == 24 || |t| == 29
    requires t != "release_bundles"
    ensures SourceIndexes(t) == []
  {
    assert |REVISIONS| == 16 && |JOBS| == 17 && |PENDING_IDENTITIES| == 25;
    ByLength(t);
  }

  lemma ByLength(t: Table)
    requires |t| == 15 || |t| == 24 || |t| == 29
    ensures ReleaseIndexes(t) == OperationIndexes(t) == CustomerIndexes(t) == OperatorIndexes(t) == []
  {
  }

  lemma BindingsShareNone()
    ensures SourceIndexes(IMAGE_BINDINGS) == []
  {
    NoneOfLength(IMAGE_BINDINGS);
  }

  lemma EventsShareNone()
    ensures SourceIndexes("artifact_events") == []
  {
    assert "artifact_events"[0] != "release_bundles"[0];
    NoneOfLength("artifact_events");
  }

  lemma OutboxSharesNone()
    ensures SourceIndexes(VALIDATION_OUTBOX) == []
  {
    NoneOfLength(VALIDATION_OUTBOX);
  }

  /** What the target enforces and the source does not, index by index. */
  lemma OnlyTheTargetEnforces(t: Table, ix: Index)
    ensures ix in TargetIndexes(t) && ix !in SourceIndexes(t) <==> IsTargetOnly(t, ix) || IsOfTargetTable(t, ix)
  {
    TargetOnlyAre(t, ix);
    if IsTargetOnly(t, ix) {
      TargetOnlyIsNotShared(t, ix);
    } else if IsOfTargetTable(t, ix) {
      BindingsShareNone();
      EventsShareNone();
      OutboxSharesNone();
    }
  }

  lemma MeetsBoth(a: Condition, b: Condition, v: Values)
    requires a.NoneOf? && b.NoneOf? && a.column in v && b.column in v
    ensures Meets(Both(a, b), v) <==>
            && (forall x :: x in a.values ==> v[a.column] != Text(x))
            && (forall x :: x in b.values ==> v[b.column] != Text(x))
  {
    assert Meets(a, v) <==> !(v[a.column].Text? && v[a.column].text in a.values);
    assert Meets(b, v) <==> !(v[b.column].Text? && v[b.column].text in b.values);
  }

  /** Operations share the index that only the target has when both are active and for one definition. */
  lemma ActiveOperationKeysMean(v: Values, w: Values)
    requires {"release_definition_id", "operation_type", "status"} <= v.Keys * w.Keys
    ensures SameKey(ACTIVE_OPERATION_INDEX, v, w) <==>
            v["release_definition_id"] == w["release_definition_id"] && IsActive(v) && IsActive(w)
  {
    var ix := ACTIVE_OPERATION_INDEX;
    assert ix.columns[0] == "release_definition_id";
    MeetsBoth(NoneOf("operation_type", ["EMERGENCY"]), NoneOf("status", FINISHED), v);
    MeetsBoth(NoneOf("operation_type", ["EMERGENCY"]), NoneOf("status", FINISHED), w);
    if Indexed(ix, v) && Indexed(ix, w) {
      SameColumns(ix, v, w);
    }
  }

  /** Neither an emergency nor finished. */
  ghost predicate IsActive(v: Values)
    requires "operation_type" in v && "status" in v
  {
    && v["operation_type"] != Text("EMERGENCY")
    && v["status"] !in {Text("succeeded"), Text("failed"), Text("cancelled"), Text("timeout")}
  }

  lemma RevisionColumns(definition: string, status: string, version: int)
    ensures var v := RevisionValues(definition, status, version);
            && v.Keys == {"release_definition_id", "status", "version"}
            && v["release_definition_id"] == Text(definition) && v["status"] == Text(status)
            && v["version"] == Number(version)
  {
    assert |"release_definition_id"| == 21 && |"status"| == 6 && |"version"| == 7;
  }

  /** Revisions share an entry when both are approved, or both pending, or the versions agree, within a definition. */
  lemma RevisionKeysMean(d: string, s: string, n: int, d': string, s': string, n': int)
    ensures var v, w := RevisionValues(d, s, n), RevisionValues(d', s', n');
            && (SameKey(APPROVED_INDEX, v, w) <==> d == d' && s == s' == "approved")
            && (SameKey(PENDING_INDEX, v, w) <==> d == d' && s == s' == "pending_approval")
            && (SameKey(VERSION_INDEX, v, w) <==> d == d' && n == n')
  {
    var v, w := RevisionValues(d, s, n), RevisionValues(d', s', n');
    RevisionColumns(d, s, n);
    RevisionColumns(d', s', n');
    forall ix | ix in [APPROVED_INDEX, PENDING_INDEX, VERSION_INDEX] && Indexed(ix, v) && Indexed(ix, w)
      ensures KeyOf(ix, v) == KeyOf(ix, w) <==> forall c :: c in ix.columns ==> v[c] == w[c]
    {
      SameColumns(ix, v, w);
    }
    assert "release_definition_id" in APPROVED_INDEX.columns && "release_definition_id" in PENDING_INDEX.columns;
    assert VERSION_INDEX.columns[0] == "release_definition_id" && VERSION_INDEX.columns[1] == "version";
  }

  lemma SameColumns(ix: Index, v: Values, w: Values)
    requires Indexed(ix, v) && Indexed(ix, w)
    ensures KeyOf(ix, v) == KeyOf(ix, w) <==> forall c :: c in ix.columns ==> v[c] == w[c]
  {
    if KeyOf(ix, v) == KeyOf(ix, w) {
      forall c | c in ix.columns ensures v[c] == w[c] {
        assert KeyOf(ix, v)[c] == KeyOf(ix, w)[c];
      }
    }
  }

  lemma JobColumns(operation: string, channel: string, recipient: string, status: string)
    ensures var v := JobValues(operation, channel, recipient, status);
            && v.Keys == {"operation_id", "channel", "recipient", "status"}
            && v["operation_id"] == Text(operation) && v["channel"] == Text(channel)
            && v["recipient"] == Text(recipient) && v["status"] == Text(status)
  {
    assert |"operation_id"| == 12 && |"channel"| == 7 && |"recipient"| == 9 && |"status"| == 6;
  }

  /** For the target, jobs share an entry when they agree; for the source, only while both are active. */
  lemma JobKeysMean(o: string, c: string, r: string, s: string, s': string)
    ensures var v, w := JobValues(o, c, r, s), JobValues(o, c, r, s');
            && SameKey(JOB_INDEX, v, w)
            && (SameKey(ACTIVE_JOB_INDEX, v, w) <==>
                s !in ["delivered", "dead_letter"] && s' !in ["delivered", "dead_letter"])
  {
    var v, w := JobValues(o, c, r, s), JobValues(o, c, r, s');
    JobColumns(o, c, r, s);
    JobColumns(o, c, r, s');
    assert Indexed(JOB_INDEX, v) && Indexed(JOB_INDEX, w);
    SameColumns(JOB_INDEX, v, w);
    if Indexed(ACTIVE_JOB_INDEX, v) && Indexed(ACTIVE_JOB_INDEX, w) {
      SameColumns(ACTIVE_JOB_INDEX, v, w);
    }
  }
}
