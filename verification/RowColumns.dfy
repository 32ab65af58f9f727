/**
 * The columns of a copied row: which are inserted, at which position, which are
 * moved to another table, and which the target adds.
 */
module RowColumns {
  import opened Common
  import opened Lists

  type Column = string

  /** A column that only the target has, filled from a source column. */
  datatype Default = Default(name: Column, from: Column)

  function Stays(moved: set<Column>): Column -> bool {
    (c: Column) => c !in moved
  }

  function IsNew(columns: seq<Column>): Default -> bool {
    (d: Default) => d.name !in columns
  }

  /** The kept columns in their order, each with its own position. */
  ghost predicate Positions(kept: seq<Column>, positions: map<Column, nat>) {
    && (forall c :: c in positions <==> c in kept)
    && (forall i :: 0 <= i < |kept| ==> positions[kept[i]] == i)
  }

  method InsertableColumns(moved: set<Column>, columns: seq<Column>)
    returns (kept: seq<Column>, positions: map<Column, nat>)
    requires Distinct(columns)
    ensures kept == Filter(columns, Stays(moved)) && Distinct(kept)
    ensures forall c :: c in kept <==> c in columns && c !in moved
    ensures Positions(kept, positions)
  {
    kept, positions := [], map[];
    for i := 0 to |columns|
      invariant kept == Filter(columns[..i], Stays(moved)) && Distinct(kept)
      invariant Positions(kept, positions)
    {
      assert columns[..i + 1][..i] == columns[..i];
      assert columns[i] !in columns[..i];
      if columns[i] in moved {
        continue;
      }
      positions := positions[columns[i] := |kept|];
      kept := kept + [columns[i]];
    }
    assert columns[..|columns|] == columns;
  }

  function NamesOf(defaults: seq<Default>): seq<Column> {
    seq(|defaults|, i requires 0 <= i < |defaults| => defaults[i].name)
  }

  lemma JoinDistinct(a: seq<Column>, b: seq<Column>)
    requires Distinct(a) && Distinct(b) && forall c :: c in b ==> c !in a
    ensures Distinct(a + b)
  {
    forall i, j | 0 <= i < j < |a + b| ensures (a + b)[i] != (a + b)[j] {
      if i < |a| <= j {
        assert b[j - |a|] in b && a[i] in a;
      }
    }
  }

  /** A default that comes after the ones looked at has another name. */
  lemma NewNameDiffers(defaults: seq<Default>, i: nat, columns: seq<Column>, kept: seq<Default>)
    requires i < |defaults| && kept == Filter(defaults[..i], IsNew(columns))
    requires Distinct(NamesOf(defaults)) && Distinct(NamesOf(kept))
    ensures NamesOf(kept + [defaults[i]]) == NamesOf(kept) + [defaults[i].name]
    ensures Distinct(NamesOf(kept + [defaults[i]]))
  {
    var names := NamesOf(defaults);
    forall k | 0 <= k < |kept| ensures kept[k].name != defaults[i].name {
      assert kept[k] in kept;
      var j :| 0 <= j < i && defaults[..i][j] == kept[k];
      assert names[j] != names[i];
    }
    assert forall k :: 0 <= k < |kept| ==> (kept + [defaults[i]])[k] == kept[k];
  }

  lemma NoNameTwice(defaults: seq<Default>, columns: seq<Column>)
    requires Distinct(columns) && Distinct(NamesOf(Filter(defaults, IsNew(columns))))
    ensures Distinct(columns + NamesOf(Filter(defaults, IsNew(columns))))
  {
    var kept := Filter(defaults, IsNew(columns));
    forall c | c in NamesOf(kept) ensures c !in columns {
      var k :| 0 <= k < |kept| && NamesOf(kept)[k] == c;
      assert kept[k] in kept && IsNew(columns)(kept[k]);
    }
    JoinDistinct(columns, NamesOf(kept));
  }

  lemma NextDefault(defaults: seq<Default>, i: nat, columns: seq<Column>)
    requires i < |defaults|
    ensures Filter(defaults[..i + 1], IsNew(columns)) ==
            Filter(defaults[..i], IsNew(columns)) + if defaults[i].name in columns then [] else [defaults[i]]
  {
    assert defaults[..i + 1][..i] == defaults[..i];
  }

  /** Columns the source already has are not added again, so no column is named twice. */
  method AppendTargetColumns(defaults: seq<Default>, columns: seq<Column>)
    returns (target: seq<Column>, kept: seq<Default>)
    requires Distinct(columns) && Distinct(NamesOf(defaults))
    ensures kept == Filter(defaults, IsNew(columns))
    ensures target == columns + NamesOf(kept) && Distinct(target)
  {
    target, kept := columns, [];
    for i := 0 to |defaults|
      invariant kept == Filter(defaults[..i], IsNew(columns))
      invariant target == columns + NamesOf(kept) && Distinct(NamesOf(kept))
    {
      NextDefault(defaults, i, columns);
      if defaults[i].name in columns {
        ConcatEmpty(kept, []);
        continue;
      }
      NewNameDiffers(defaults, i, columns, kept);
      ConcatAssoc(columns, NamesOf(kept), [defaults[i].name]);
      target := target + [defaults[i].name];
      kept := kept + [defaults[i]];
    }
    assert defaults[..|defaults|] == defaults;
    NoNameTwice(defaults, columns);
  }

  /** The arguments of one insert and the converted row, or nothing when a value does not convert. */
  method RowArguments<V>(columns: seq<Column>, values: seq<V>, convert: (Column, V) -> Option<V>, nil: V,
                         kept: seq<Column>, positions: map<Column, nat>, defaults: seq<Default>)
    returns (args: array<V>, row: Option<map<Column, V>>)
    requires |values| == |columns| && Distinct(columns) && Distinct(kept) && Positions(kept, positions)
    requires forall c :: c in kept ==> c in columns
    ensures args.Length == |kept| + |defaults|
    ensures row.Some? <==> forall i :: 0 <= i < |columns| ==> convert(columns[i], values[i]).Some?
    ensures row.Some? ==>
              && (forall c :: c in row.value <==> c in columns)
              && (forall i :: 0 <= i < |columns| ==> row.value[columns[i]] == convert(columns[i], values[i]).value)
              && (forall p :: 0 <= p < |kept| ==> args[p] == row.value[kept[p]])
              && (forall k :: 0 <= k < |defaults| ==>
                    args[|kept| + k] == if defaults[k].from in row.value then row.value[defaults[k].from] else nil)
  {
    args := new V[|kept| + |defaults|](_ => nil);
    var converted: map<Column, V> := map[];
    for i := 0 to |columns|
      invariant forall c :: c in converted <==> c in columns[..i]
      invariant forall j :: 0 <= j < i ==>
                  convert(columns[j], values[j]).Some? && converted[columns[j]] == convert(columns[j], values[j]).value
      invariant forall p :: 0 <= p < |kept| && kept[p] in columns[..i] ==> args[p] == converted[kept[p]]
    {
      var value := convert(columns[i], values[i]);
      if value.None? {
        return args, None;
      }
      assert columns[i] !in columns[..i];
      assert columns[..i + 1] == columns[..i] + [columns[i]];
      if columns[i] in positions {
        args[positions[columns[i]]] := value.value;
      }
      converted := converted[columns[i] := value.value];
    }
    assert columns[..|columns|] == columns;
    for k := 0 to |defaults|
      invariant forall p :: 0 <= p < |kept| ==> args[p] == converted[kept[p]]
      invariant forall j :: 0 <= j < k ==>
                  args[|kept| + j] == if defaults[j].from in converted then converted[defaults[j].from] else nil
    {
      args[|kept| + k] := if defaults[k].from in converted then converted[defaults[k].from] else nil;
    }
    row := Some(converted);
  }

  // ---------------------------------------------------------------------
  // The registered rules
  // ---------------------------------------------------------------------

  function MovedColumns(table: string): set<Column> {
    if table == "candidate_artifacts" then {"ref", "bundle_id"}
    else if table == "bundle_candidate_artifacts" then {"orphaned_at"}
    else {}
  }

  /** The source columns each relocation statement of a table reads. */
  function RelocationRules(table: string): seq<seq<Column>> {
    if table == "candidate_artifacts" then [["id", "ref", "created_at"], ["bundle_id", "id", "created_at"]] else []
  }

  function TargetDefaults(table: string): seq<Default> {
    if table == "candidate_artifacts" then [Default("last_seen_at", "created_at")]
    else if table == "preflight_lifecycles" then [Default("updated_at", "created_at")]
    else []
  }

  /** The registered rules concern three tables, and all others are copied as they are. */
  lemma OtherTablesAreCopiedAsTheyAre(table: string)
    requires table != "candidate_artifacts" && table != "bundle_candidate_artifacts"
    ensures MovedColumns(table) == {} && RelocationRules(table) == []
    ensures table != "preflight_lifecycles" ==> TargetDefaults(table) == []
  {
  }

  /**
   * An artifact gives away its reference and its bundle, each together with its id and
   * creation time, and is last seen when it was created; a link gives away its orphan
   * mark; a preflight was last updated when it was created.
   */
  lemma RegisteredRules()
    ensures forall c :: c in MovedColumns("candidate_artifacts") <==> c == "ref" || c == "bundle_id"
    ensures RelocationRules("candidate_artifacts") == [["id", "ref", "created_at"], ["bundle_id", "id", "created_at"]]
    ensures TargetDefaults("candidate_artifacts") == [Default("last_seen_at", "created_at")]
    ensures forall c :: c in MovedColumns("bundle_candidate_artifacts") <==> c == "orphaned_at"
    ensures TargetDefaults("preflight_lifecycles") == [Default("updated_at", "created_at")]
    ensures RelocationRules("bundle_candidate_artifacts") == [] && TargetDefaults("bundle_candidate_artifacts") == []
  {
    assert |"candidate_artifacts"| == 19 && |"bundle_candidate_artifacts"| == 26 && |"preflight_lifecycles"| == 20;
  }

  ghost predicate IsRelocated(table: string, c: Column) {
    exists i :: 0 <= i < |RelocationRules(table)| && c in RelocationRules(table)[i]
  }

  /** The one column that is registered as dropped. */
  predicate IsDropped(table: string, c: Column) {
    table == "bundle_candidate_artifacts" && c == "orphaned_at"
  }

  /** A moved column is relocated, or it is the dropped one. */
  lemma MovedIsAccountedFor(table: string, c: Column)
    requires c in MovedColumns(table)
    ensures IsRelocated(table, c) || IsDropped(table, c)
  {
    if table == "candidate_artifacts" {
      var i := if c == "ref" then 0 else 1;
      assert c in RelocationRules(table)[i];
    }
  }

  /**
   * The whole plan for a table: the target columns are named once each, every source
   * column is inserted at its own position, relocated, or the dropped one, and what
   * the target adds comes after.
   */
  method PlanColumns(table: string, columns: seq<Column>)
    returns (kept: seq<Column>, positions: map<Column, nat>, target: seq<Column>, defaults: seq<Default>)
    requires Distinct(columns)
    ensures Positions(kept, positions) && Distinct(target)
    ensures target == kept + NamesOf(defaults)
    ensures forall c :: c in columns ==>
              if c in kept then target[positions[c]] == c else IsRelocated(table, c) || IsDropped(table, c)
    ensures match table
            case "candidate_artifacts" => forall c :: c in kept <==> c in columns && c != "ref" && c != "bundle_id"
            case "bundle_candidate_artifacts" => forall c :: c in kept <==> c in columns && c != "orphaned_at"
            case _ => kept == columns
    ensures forall d :: d in defaults <==>
              && d.name !in kept && d.from == "created_at"
              && (|| (table == "candidate_artifacts" && d.name == "last_seen_at")
                  || (table == "preflight_lifecycles" && d.name == "updated_at"))
  {
    RegisteredRules();
    kept, positions := InsertableColumns(MovedColumns(table), columns);
    target, defaults := AppendTargetColumns(TargetDefaults(table), kept);
    forall c | c in columns
      ensures if c in kept then target[positions[c]] == c else IsRelocated(table, c) || IsDropped(table, c)
    {
      if c in kept {
        var i :| 0 <= i < |kept| && kept[i] == c;
      } else {
        assert !Stays(MovedColumns(table))(c);
        MovedIsAccountedFor(table, c);
      }
    }
    if table != "candidate_artifacts" && table != "bundle_candidate_artifacts" {
      OtherTablesAreCopiedAsTheyAre(table);
      FilterAll(columns, Stays({}));
    }
  }
}
