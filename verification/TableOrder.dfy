/**
 * The order in which tables are copied: referenced tables before referencing ones,
 * ties by name, and whatever lies on or behind a cycle last, by name.
 *
 * The program keeps dependency sets and a sorted queue.  It is proved equal to a
 * definition on sets that has no queue, from which the promises follow.
 */
module TableOrder {
  import opened Common
  import opened Orders

  type Table = string

  /** The tables each table depends on. */
  type Topology = Table -> seq<Table>

  function Names(tables: seq<Table>): set<Table> {
    set t | t in tables
  }

  /** The dependencies of a table that are present in the source. */
  function Needs(topology: Topology, present: set<Table>, t: Table): set<Table> {
    set d | d in topology(t) && d in present
  }

  /** Tables not copied yet whose dependencies all are. */
  function Ready(topology: Topology, present: set<Table>, done: set<Table>): set<Table> {
    set t | t in present && t !in done && Needs(topology, present, t) <= done
  }

  /** Repeatedly the first ready table by name; the rest, if none is ever ready again, by name. */
  function Drain(topology: Topology, present: set<Table>, done: set<Table>): seq<Table>
    requires done <= present
    decreases |present - done|
  {
    BeforeIsTotal();
    var ready := Ready(topology, present, done);
    if ready == {} then Sorted(Before, present - done)
    else
      var t := Least(Before, ready);
      assert present - (done + {t}) < present - done;
      SmallerSet(present - (done + {t}), present - done);
      [t] + Drain(topology, present, done + {t})
  }

  lemma SmallerSet(a: set<Table>, b: set<Table>)
    requires a < b
    ensures |a| < |b|
  {
    assert |b| == |a| + |b - a| by {
      assert b == a + (b - a);
    }
    assert b - a != {};
  }

  /** The order, as a function of the set of tables alone. */
  function Ordered(topology: Topology, present: set<Table>): seq<Table> {
    Drain(topology, present, {})
  }

  // ---------------------------------------------------------------------
  // What the order promises
  // ---------------------------------------------------------------------

  lemma {:induction false} DrainIsComplete(topology: Topology, present: set<Table>, done: set<Table>)
    requires done <= present
    ensures var rest := Drain(topology, present, done);
            Distinct(rest) && forall t :: t in rest <==> t in present - done
    decreases |present - done|
  {
    BeforeIsTotal();
    var ready := Ready(topology, present, done);
    if ready != {} {
      var t := Least(Before, ready);
      SmallerSet(present - (done + {t}), present - done);
      DrainIsComplete(topology, present, done + {t});
    }
  }

  /** Each present table occurs exactly once. */
  lemma OrderIsPermutation(topology: Topology, present: set<Table>)
    ensures Distinct(Ordered(topology, present)) && Names(Ordered(topology, present)) == present
  {
    DrainIsComplete(topology, present, {});
  }

  /** Every present dependency comes before its dependents. */
  ghost predicate Respects(topology: Topology, present: set<Table>, order: seq<Table>) {
    forall i :: 0 <= i < |order| ==> Needs(topology, present, order[i]) <= Names(order[..i])
  }

  /** Dependencies go strictly down: the restricted graph has no cycle. */
  ghost predicate Ranks(topology: Topology, present: set<Table>, rank: Table -> nat) {
    forall t, d :: t in present && d in Needs(topology, present, t) ==> rank(d) < rank(t)
  }

  /** In a ranked graph something is always ready: the lowest-ranked table left. */
  lemma SomethingIsReady(topology: Topology, present: set<Table>, done: set<Table>, rank: Table -> nat)
    requires Ranks(topology, present, rank) && done < present
    ensures Ready(topology, present, done) != {}
  {
    assert present - done != {} by {
      assert present == done + (present - done);
    }
    var t := LowestRank(present - done, rank);
    assert t in Ready(topology, present, done);
  }

  lemma {:induction false} LowestRank(s: set<Table>, rank: Table -> nat) returns (t: Table)
    requires s != {}
    ensures t in s && forall u :: u in s ==> rank(t) <= rank(u)
    decreases |s|
  {
    t :| t in s;
    if s != {t} {
      var u := LowestRank(s - {t}, rank);
      if rank(u) < rank(t) {
        t := u;
      }
    }
  }

  lemma {:induction false} DrainRespects(topology: Topology, present: set<Table>, before: seq<Table>,
                                         rank: Table -> nat)
    requires Ranks(topology, present, rank) && Names(before) <= present
    requires Respects(topology, present, before)
    ensures Respects(topology, present, before + Drain(topology, present, Names(before)))
    decreases |present - Names(before)|
  {
    BeforeIsTotal();
    var done := Names(before);
    if done == present {
      DrainOfAll(topology, present);
      assert before + [] == before;
    } else {
      SomethingIsReady(topology, present, done, rank);
      var t := Least(Before, Ready(topology, present, done));
      assert Names(before + [t]) == done + {t};
      SmallerSet(present - (done + {t}), present - done);
      RespectsExtends(topology, present, before, t);
      DrainRespects(topology, present, before + [t], rank);
      DrainStep(topology, present, before, done, t);
    }
  }

  lemma DrainOfAll(topology: Topology, present: set<Table>)
    ensures Drain(topology, present, present) == []
  {
    assert Ready(topology, present, present) == {};
  }

  lemma RespectsExtends(topology: Topology, present: set<Table>, before: seq<Table>, t: Table)
    requires Respects(topology, present, before) && Needs(topology, present, t) <= Names(before)
    ensures Respects(topology, present, before + [t])
  {
    forall i | 0 <= i < |before + [t]|
      ensures Needs(topology, present, (before + [t])[i]) <= Names((before + [t])[..i])
    {
      assert (before + [t])[..i] == before[..i];
    }
  }

  function Position(order: seq<Table>, t: Table): nat {
    if order == [] || order[0] == t then 0 else 1 + Position(order[1..], t)
  }

  lemma {:induction false} PositionOf(order: seq<Table>, i: nat)
    requires i < |order| && Distinct(order)
    ensures Position(order, order[i]) == i
  {
    if i > 0 {
      assert Distinct(order[1..]);
      PositionOf(order[1..], i - 1);
    }
  }

  /** A list that respects the dependencies of all its tables ranks them. */
  lemma RespectsRanks(topology: Topology, present: set<Table>, order: seq<Table>)
    requires Distinct(order) && Names(order) == present && Respects(topology, present, order)
    ensures Ranks(topology, present, t => Position(order, t))
  {
    forall t, d | t in present && d in Needs(topology, present, t) ensures Position(order, d) < Position(order, t) {
      var i :| 0 <= i < |order| && order[i] == t;
      assert d in Names(order[..i]);
      var j :| 0 <= j < i && order[..i][j] == d;
      PositionOf(order, i);
      PositionOf(order, j);
    }
  }

  lemma AcyclicRespects(topology: Topology, present: set<Table>, rank: Table -> nat)
    requires Ranks(topology, present, rank)
    ensures Respects(topology, present, Ordered(topology, present))
  {
    assert Names([]) == {};
    DrainRespects(topology, present, [], rank);
    assert [] + Ordered(topology, present) == Ordered(topology, present);
  }

  /** The order puts dependencies first exactly when that is possible: when the restricted graph has no cycle. */
  lemma RespectsIffAcyclic(topology: Topology, present: set<Table>)
    ensures Respects(topology, present, Ordered(topology, present)) <==>
            exists rank :: Ranks(topology, present, rank)
  {
    if rank :| Ranks(topology, present, rank) {
      AcyclicRespects(topology, present, rank);
    }
    if Respects(topology, present, Ordered(topology, present)) {
      OrderIsPermutation(topology, present);
      RespectsRanks(topology, present, Ordered(topology, present));
    }
  }

  ghost predicate Precedes(order: seq<Table>, a: Table, b: Table) {
    exists i, j :: 0 <= i < j < |order| && order[i] == a && order[j] == b
  }

  lemma PrecedesInLonger(first: Table, order: seq<Table>, a: Table, b: Table)
    requires b in order && (first == a || Precedes(order, a, b))
    ensures Precedes([first] + order, a, b)
  {
    var longer := [first] + order;
    if first == a {
      var j :| 0 <= j < |order| && order[j] == b;
      assert longer[0] == a && longer[j + 1] == b;
    } else {
      var i, j :| 0 <= i < j < |order| && order[i] == a && order[j] == b;
      assert longer[i + 1] == a && longer[j + 1] == b;
    }
  }

  /** Whatever the table waits for is small enough to be picked before `u`. */
  ghost predicate Early(topology: Topology, present: set<Table>, t: Table, u: Table) {
    && Before(t, u)
    && forall d :: d in Needs(topology, present, t) ==> Needs(topology, present, d) == {} && Before(d, u)
  }

  /** As long as an early table is not copied, something smaller than `u` is ready. */
  lemma EarlierIsReady(topology: Topology, present: set<Table>, done: set<Table>, t: Table, u: Table) returns (r: Table)
    requires t in present - done && Early(topology, present, t, u)
    ensures r in Ready(topology, present, done) && Before(r, u)
  {
    if Needs(topology, present, t) <= done {
      r := t;
    } else {
      r :| r in Needs(topology, present, t) && r !in done;
    }
  }

  lemma {:induction false} NotLeast(ready: set<Table>, small: Table, u: Table)
    requires TotalOrder(Before) && small in ready && Before(small, u)
    ensures Least(Before, ready) != u
  {
    NotLeastOf(Before, ready, small, u);
  }

  lemma NotLeastOf(less: (Table, Table) -> bool, ready: set<Table>, small: Table, u: Table)
    requires TotalOrder(less) && small in ready && less(small, u)
    ensures Least(less, ready) != u
  {
  }

  /** A table that is early for another is copied before it. */
  lemma {:induction false} EarlyTableComesFirst(topology: Topology, present: set<Table>, done: set<Table>, t: Table,
                                                u: Table)
    requires done <= present && t in present - done && u in present - done && Early(topology, present, t, u)
    ensures Precedes(Drain(topology, present, done), t, u)
    decreases |present - done|
  {
    BeforeIsTotal();
    var ready := Ready(topology, present, done);
    var small := EarlierIsReady(topology, present, done, t, u);
    var first := Least(Before, ready);
    NotLeast(ready, small, u);
    SmallerSet(present - (done + {first}), present - done);
    DrainIsComplete(topology, present, done + {first});
    if first != t {
      EarlyTableComesFirst(topology, present, done + {first}, t, u);
    }
    PrecedesInLonger(first, Drain(topology, present, done + {first}), t, u);
  }

  // ---------------------------------------------------------------------
  // The program
  // ---------------------------------------------------------------------

  /** The library sort, on names without duplicates. */
  function SortNames(names: seq<Table>): (sorted: seq<Table>)
    ensures Ascending(Before, sorted) && Distinct(sorted) && Names(sorted) == Names(names)
  {
    BeforeIsTotal();
    Sorted(Before, Names(names))
  }

  /** The first of a sorted list of names is the least. */
  lemma FirstIsLeast(sorted: seq<Table>)
    requires sorted != [] && Ascending(Before, sorted)
    ensures TotalOrder(Before) && Names(sorted) != {} && sorted[0] == Least(Before, Names(sorted))
  {
    BeforeIsTotal();
    assert sorted[0] in Names(sorted);
  }

  type Needed = map<Table, set<Table>>

  type Needing = map<Table, seq<Table>>

  function At(needing: Needing, t: Table): seq<Table> {
    if t in needing then needing[t] else []
  }

  /** The graph of the first tables: what each needs, and who needs each, without repetition. */
  ghost predicate Graph(topology: Topology, present: set<Table>, seen: seq<Table>, needed: Needed, needing: Needing) {
    && needed.Keys == Names(seen)
    && (forall t :: t in needed ==> needed[t] == Needs(topology, present, t))
    && (forall d :: Distinct(At(needing, d)))
    && (forall d, t :: t in At(needing, d) <==> t in seen && d in Needs(topology, present, t))
  }

  method AddDependencies(topology: Topology, present: set<Table>, ghost seen: seq<Table>, table: Table,
                         needed: Needed, needing: Needing) returns (needed': Needed, needing': Needing)
    requires Graph(topology, present, seen, needed, needing) && table !in seen && Distinct(topology(table))
    ensures Graph(topology, present, seen + [table], needed', needing')
  {
    var list, own := topology(table), {};
    needing' := needing;
    for i := 0 to |list|
      invariant own == set d | d in list[..i] && d in present
      invariant forall d :: At(needing', d) == if d in own then At(needing, d) + [table] else At(needing, d)
    {
      var d := list[i];
      assert d !in list[..i];
      assert list[..i + 1] == list[..i] + [d];
      if d in present {
        own := own + {d};
        needing' := needing'[d := At(needing', d) + [table]];
      }
    }
    assert list[..|list|] == list;
    needed' := needed[table := own];
    GraphGrows(topology, present, seen, table, needed, needing, needing');
  }

  lemma GraphGrows(topology: Topology, present: set<Table>, seen: seq<Table>, table: Table,
                   needed: Needed, needing: Needing, needing': Needing)
    requires Graph(topology, present, seen, needed, needing) && table !in seen
    requires forall d :: At(needing', d) ==
               if d in Needs(topology, present, table) then At(needing, d) + [table] else At(needing, d)
    ensures Graph(topology, present, seen + [table], needed[table := Needs(topology, present, table)], needing')
  {
    forall d ensures Distinct(At(needing', d)) {
      assert table !in At(needing, d);
    }
    forall d, t ensures t in At(needing', d) <==> t in seen + [table] && d in Needs(topology, present, t) {
      assert t in At(needing, d) <==> t in seen && d in Needs(topology, present, t);
    }
  }

  method BuildGraph(topology: Topology, tables: seq<Table>) returns (needed: Needed, needing: Needing)
    requires Distinct(tables) && forall t :: t in tables ==> Distinct(topology(t))
    ensures Graph(topology, Names(tables), tables, needed, needing)
  {
    needed, needing := map[], map[];
    for i := 0 to |tables|
      invariant Graph(topology, Names(tables), tables[..i], needed, needing)
    {
      assert tables[..i + 1] == tables[..i] + [tables[i]];
      needed, needing := AddDependencies(topology, Names(tables), tables[..i], tables[i], needed, needing);
    }
    assert tables[..|tables|] == tables;
  }

  /** What is left to wait for once `done` has been copied. */
  ghost predicate Waiting(topology: Topology, present: set<Table>, done: set<Table>, needed: Needed) {
    needed.Keys == present && forall t :: t in present ==> needed[t] == Needs(topology, present, t) - done
  }

  /** Nothing was copied before what it needs. */
  ghost predicate Closed(topology: Topology, present: set<Table>, done: set<Table>) {
    done <= present && forall t :: t in done ==> Needs(topology, present, t) <= done
  }

  /** The queue is sorted and holds exactly the ready tables. */
  ghost predicate Queued(topology: Topology, present: set<Table>, done: set<Table>, ready: seq<Table>) {
    Ascending(Before, ready) && Names(ready) == Ready(topology, present, done)
  }

  /** Tell the dependents of a copied table, and queue those that now wait for nothing. */
  method Release(ghost topology: Topology, ghost present: set<Table>, ghost done: set<Table>, table: Table,
                 dependents: seq<Table>, needed: Needed, queue: seq<Table>)
    returns (needed': Needed, ready: seq<Table>)
    requires table in Ready(topology, present, done) && Closed(topology, present, done)
    requires Waiting(topology, present, done, needed)
    requires Distinct(dependents) && forall t :: t in dependents <==>
               t in present && table in Needs(topology, present, t)
    requires Ascending(Before, queue) && Names(queue) == Ready(topology, present, done) - {table}
    ensures Waiting(topology, present, done + {table}, needed')
    ensures Queued(topology, present, done + {table}, ready)
  {
    needed', ready := needed, queue;
    for i := 0 to |dependents|
      invariant needed'.Keys == present
      invariant forall t :: t in present ==>
                  needed'[t] == if t in dependents[..i] then needed[t] - {table} else needed[t]
      invariant Ascending(Before, ready)
      invariant forall t :: t in ready <==> t in queue || (t in dependents[..i] && needed[t] - {table} == {})
    {
      var dependent := dependents[i];
      assert dependent !in dependents[..i];
      assert dependents[..i + 1] == dependents[..i] + [dependent];
      needed' := needed'[dependent := needed'[dependent] - {table}];
      if needed'[dependent] == {} {
        ready := SortNames(ready + [dependent]);
        assert forall t :: t in ready <==> t in Names(ready);
      }
    }
    assert dependents[..|dependents|] == dependents;
    ReleasedAreReady(topology, present, done, table, dependents, needed, queue, ready);
  }

  /** The tables that become ready are the dependents left with nothing to wait for. */
  lemma ReleasedAreReady(topology: Topology, present: set<Table>, done: set<Table>, table: Table,
                         dependents: seq<Table>, needed: Needed, queue: seq<Table>, ready: seq<Table>)
    requires table in Ready(topology, present, done) && Closed(topology, present, done)
    requires Waiting(topology, present, done, needed)
    requires forall t :: t in dependents <==> t in present && table in Needs(topology, present, t)
    requires Names(queue) == Ready(topology, present, done) - {table}
    requires forall t :: t in ready <==> t in queue || (t in dependents && needed[t] - {table} == {})
    ensures Names(ready) == Ready(topology, present, done + {table})
  {
    forall t ensures t in Names(ready) <==> t in Ready(topology, present, done + {table}) {
      assert t in queue <==> t in Names(queue);
      if t in present && t !in done && t != table {
        ReadyAfter(topology, present, done, table, t);
      }
    }
  }

  lemma ReadyAfter(topology: Topology, present: set<Table>, done: set<Table>, table: Table, t: Table)
    ensures var needs := Needs(topology, present, t);
            needs <= done + {table} <==> needs <= done || (table in needs && needs - done - {table} == {})
  {
    var needs := Needs(topology, present, t);
    if needs - done - {table} == {} {
      forall d | d in needs ensures d in done + {table} {
        assert d !in needs - done - {table};
      }
    }
  }

  method RemainingTables(tables: seq<Table>, ordered: seq<Table>) returns (remaining: seq<Table>)
    ensures Names(remaining) == Names(tables) - Names(ordered)
  {
    remaining := [];
    for i := 0 to |tables|
      invariant Names(remaining) == Names(tables[..i]) - Names(ordered)
    {
      assert tables[..i + 1] == tables[..i] + [tables[i]];
      assert Names(tables[..i + 1]) == Names(tables[..i]) + {tables[i]};
      if tables[i] !in ordered {
        assert Names(remaining + [tables[i]]) == Names(remaining) + {tables[i]};
        remaining := remaining + [tables[i]];
      }
    }
    assert tables[..|tables|] == tables;
  }

  method InitiallyReady(topology: Topology, tables: seq<Table>, needed: Needed) returns (ready: seq<Table>)
    requires Waiting(topology, Names(tables), {}, needed)
    ensures Queued(topology, Names(tables), {}, ready)
  {
    ready := [];
    for i := 0 to |tables|
      invariant forall t :: t in ready <==> t in tables[..i] && needed[t] == {}
    {
      assert tables[..i + 1] == tables[..i] + [tables[i]];
      if needed[tables[i]] == {} {
        ready := ready + [tables[i]];
      }
    }
    assert tables[..|tables|] == tables;
    assert Names(ready) == Ready(topology, Names(tables), {});
    ready := SortNames(ready);
  }

  /** Copy the first table of the queue. */
  method TakeFirst(ghost topology: Topology, ghost present: set<Table>, ghost tables: seq<Table>,
                   ghost done: set<Table>, needing: Needing, ghost graph: Needed, needed: Needed, ready: seq<Table>)
    returns (table: Table, needed': Needed, ready': seq<Table>)
    requires Graph(topology, present, tables, graph, needing) && Names(tables) == present
    requires Closed(topology, present, done) && Waiting(topology, present, done, needed)
    requires Queued(topology, present, done, ready) && ready != []
    ensures TotalOrder(Before) && Ready(topology, present, done) != {}
    ensures table == Least(Before, Ready(topology, present, done))
    ensures Closed(topology, present, done + {table}) && Waiting(topology, present, done + {table}, needed')
    ensures Queued(topology, present, done + {table}, ready')
  {
    FirstIsLeast(ready);
    table := ready[0];
    TailNames(ready);
    assert forall t :: t in At(needing, table) <==> t in tables && table in Needs(topology, present, t);
    assert forall t :: t in tables <==> t in present;
    needed', ready' := Release(topology, present, done, table, At(needing, table), needed, ready[1..]);
  }

  /** The tables ordered so far, followed by the rest of the order, are the order. */
  ghost predicate OnTheWay(topology: Topology, present: set<Table>, done: set<Table>, ordered: seq<Table>) {
    && done <= present && Names(ordered) == done && Distinct(ordered)
    && ordered + Drain(topology, present, done) == Ordered(topology, present)
  }

  lemma OneMore(topology: Topology, present: set<Table>, done: set<Table>, ordered: seq<Table>, table: Table)
    requires OnTheWay(topology, present, done, ordered)
    requires TotalOrder(Before) && Ready(topology, present, done) != {}
    requires table == Least(Before, Ready(topology, present, done))
    ensures OnTheWay(topology, present, done + {table}, ordered + [table])
    ensures |present - (done + {table})| < |present - done|
  {
    SmallerSet(present - (done + {table}), present - done);
    DrainStep(topology, present, ordered, done, table);
    AppendNames(ordered, table);
  }

  /** The queue runs until nothing is ready. */
  method OrderReady(topology: Topology, tables: seq<Table>) returns (ordered: seq<Table>, ghost done: set<Table>)
    requires Distinct(tables) && forall t :: t in tables ==> Distinct(topology(t))
    ensures OnTheWay(topology, Names(tables), done, ordered)
    ensures Ready(topology, Names(tables), done) == {}
  {
    ghost var present := Names(tables);
    var needed, needing := BuildGraph(topology, tables);
    ghost var graph := needed;
    var ready := InitiallyReady(topology, tables, needed);
    ordered, done := [], {};
    Begin(topology, present);
    while ready != []
      invariant OnTheWay(topology, present, done, ordered)
      invariant Closed(topology, present, done) && Waiting(topology, present, done, needed)
      invariant Queued(topology, present, done, ready)
      decreases |present - done|
    {
      var table;
      table, needed, ready := TakeFirst(topology, present, tables, done, needing, graph, needed, ready);
      OneMore(topology, present, done, ordered, table);
      ordered := ordered + [table];
      done := done + {table};
    }
    assert Names(ready) == {};
  }

  lemma Begin(topology: Topology, present: set<Table>)
    ensures OnTheWay(topology, present, {}, [])
  {
    assert [] + Ordered(topology, present) == Ordered(topology, present);
  }

  /** When nothing is ready, the rest of the order is what is left, by name. */
  lemma StuckDrain(topology: Topology, present: set<Table>, done: set<Table>)
    requires done <= present && Ready(topology, present, done) == {}
    ensures TotalOrder(Before) && Drain(topology, present, done) == Sorted(Before, present - done)
  {
    BeforeIsTotal();
  }

  /** The loop of the source, for any topology whose lists repeat nothing. */
  method OrderTables(topology: Topology, tables: seq<Table>) returns (ordered: seq<Table>)
    requires Distinct(tables) && forall t :: t in tables ==> Distinct(topology(t))
    ensures ordered == Ordered(topology, Names(tables))
  {
    ghost var done;
    ordered, done := OrderReady(topology, tables);
    if |ordered| != |tables| {
      var remaining := RemainingTables(tables, ordered);
      StuckDrain(topology, Names(tables), done);
      ordered := ordered + SortNames(remaining);
    } else {
      AllDone(tables, ordered);
      DrainOfAll(topology, Names(tables));
    }
  }

  lemma AppendNames(ordered: seq<Table>, table: Table)
    requires Distinct(ordered) && table !in ordered
    ensures Distinct(ordered + [table]) && Names(ordered + [table]) == Names(ordered) + {table}
  {
  }

  lemma TailNames(ready: seq<Table>)
    requires ready != [] && Ascending(Before, ready)
    ensures Names(ready[1..]) == Names(ready) - {ready[0]} && Ascending(Before, ready[1..])
  {
    BeforeIsTotal();
    assert ready == [ready[0]] + ready[1..];
  }

  lemma DrainStep(topology: Topology, present: set<Table>, ordered: seq<Table>, done: set<Table>, table: Table)
    requires done <= present && Ready(topology, present, done) != {} && TotalOrder(Before)
    requires table == Least(Before, Ready(topology, present, done))
    ensures ordered + Drain(topology, present, done) == ordered + [table] + Drain(topology, present, done + {table})
  {
  }

  /** As many distinct tables of the list as there are tables in it are all of them. */
  lemma AllDone(tables: seq<Table>, ordered: seq<Table>)
    requires Distinct(tables) && Distinct(ordered) && Names(ordered) <= Names(tables) && |ordered| == |tables|
    ensures Names(ordered) == Names(tables)
  {
    CountNames(tables);
    CountNames(ordered);
    if Names(ordered) < Names(tables) {
      SmallerSet(Names(ordered), Names(tables));
    }
  }

  lemma {:induction false} CountNames(tables: seq<Table>)
    requires Distinct(tables)
    ensures |Names(tables)| == |tables|
  {
    if tables != [] {
      var n := |tables| - 1;
      assert tables == tables[..n] + [tables[n]];
      CountNames(tables[..n]);
      assert Names(tables) == Names(tables[..n]) + {tables[n]};
    }
  }

  // ---------------------------------------------------------------------
  // The topology of the schema
  // ---------------------------------------------------------------------

  /** Referenced tables that reference nothing themselves. */
  predicate IsRoot(t: Table) {
    || t == "customers" || t == "release_definitions" || t == "operators" || t == "users" || t == "organizations"
    || t == "release_bundles"
  }

  /** Referenced tables that reference roots. */
  predicate IsMiddle(t: Table) {
    || t == "clusters" || t == "values_revisions" || t == "operations" || t == "org_customer_bindings"
    || t == "candidate_artifacts"
  }

  /** Tables that the target's migrations fill with a row of their own. */
  predicate IsSeeded(t: Table) {
    t == "authorization_source_version" || t == "policy_version"
  }

  const REVISIONS: Table := "values_revisions"
  const EXECUTION_RESULTS: Table := "operation" + "_execution_results"
  const PREPARE_SESSIONS: Table := "convergence_prepare_sessions"
  const ROLLOUTS: Table := "rollout_trackings"
  const PENDING_IDENTITIES: Table := "pending_workload_identity"
  const IMAGE_BINDINGS: Table := "release_bundle" + "_image_bindings"
  const BUNDLE_ALIASES: Table := "bundle_aliases"
  const VALIDATION_OUTBOX: Table := "bundle_validation_outbox"

  /** Tables of the target that reference others, and that the topology does not mention. */
  predicate IsUnlisted(t: Table) {
    || t == EXECUTION_RESULTS || t == ROLLOUTS || t == PREPARE_SESSIONS || t == PENDING_IDENTITIES
    || t == IMAGE_BINDINGS || t == BUNDLE_ALIASES || t == VALIDATION_OUTBOX
  }

  function FkTopology(t: Table): (needs: seq<Table>)
    ensures Distinct(needs)
    ensures IsRoot(t) || IsSeeded(t) || IsUnlisted(t) ==> needs == []
    ensures forall d :: d in needs ==> IsRoot(d) || (!IsMiddle(t) && IsMiddle(d))
  {
    if IsRoot(t) || IsSeeded(t) || IsUnlisted(t) then []
    else if t == "clusters" then ["customers"]
    else if t == "values_revisions" || t == "operations" then ["release_definitions"]
    else if t == "org_customer_bindings" then ["organizations"]
    else if t == "candidate_artifacts" then ["release_bundles"]
    else if t == "release_definition_events" then ["release_definitions"]
    else if t == "values_revision_decisions" then ["values_revisions"]
    else if t == "sessions" then ["operators"]
    else if t == "auth_sessions" then ["users"]
    else if t == "organization_members" then ["organizations", "users"]
    else if t == "customer_events" then ["customers"]
    else if t == "preflight_lifecycles" || t == "operation_events" || t == "operation_timeline" then ["operations"]
    else if t == "emergency_intents" || t == "convergence_tasks" then ["operations", "release_definitions"]
    else if t == "organization_customer_binding_events" then ["org_customer_bindings", "organizations"]
    else if t == "cluster_routes" then ["clusters"]
    else if t == "bundle_candidate_artifacts" then ["release_bundles", "candidate_artifacts"]
    else []
  }

  function FkRank(t: Table): nat {
    if IsRoot(t) then 0 else if IsMiddle(t) then 1 else 2
  }

  lemma FkTopologyIsRanked(present: set<Table>)
    ensures Ranks(FkTopology, present, FkRank)
  {
  }

  /** The listed foreign keys have no cycle, so every source is copied in an order that respects all of them. */
  lemma ListedForeignKeysAreRespected(present: set<Table>)
    ensures Respects(FkTopology, present, Ordered(FkTopology, present))
  {
    FkTopologyIsRanked(present);
    AcyclicRespects(FkTopology, present, FkRank);
  }

  lemma {:induction false} BeforeAfterPrefix(prefix: string, a: string, b: string)
    ensures Before(prefix + a, prefix + b) <==> Before(a, b)
  {
    if prefix == [] {
      assert prefix + a == a && prefix + b == b;
    } else {
      assert (prefix + a)[1..] == prefix[1..] + a && (prefix + b)[1..] == prefix[1..] + b;
      BeforeAfterPrefix(prefix[1..], a, b);
    }
  }

  // ---------------------------------------------------------------------
  // The foreign keys of the target
  // ---------------------------------------------------------------------

  /** The references of the tables about release definitions and their values. */
  function DefinitionKeys(t: Table): seq<Table> {
    if HasNoKeys(t) then []
    else if t == "release_definition_events" || t == "operations" then ["release_definitions"]
    else if t == REVISIONS || t == PREPARE_SESSIONS then ["release_definitions", REVISIONS]
    else if t == "values_revision_decisions" then [REVISIONS]
    else []
  }

  /** The references of the tables about operations. */
  function OperationKeys(t: Table): seq<Table> {
    if HasNoKeys(t) then []
    else if t == "operation_events" || t == "operation_timeline" || t == EXECUTION_RESULTS || t == ROLLOUTS then
      ["operations"]
    else if t == "emergency_intents" || t == "convergence_tasks" then ["release_definitions", "operations"]
    else []
  }

  /** The references of the tables about bundles. */
  function BundleKeys(t: Table): seq<Table> {
    if t == "bundle_candidate_artifacts" then ["release_bundles", "candidate_artifacts"]
    else if t == IMAGE_BINDINGS || t == BUNDLE_ALIASES || t == VALIDATION_OUTBOX then ["release_bundles"]
    else []
  }

  /** The references of the tables about customers and their clusters. */
  function CustomerKeys(t: Table): seq<Table> {
    if HasNoKeys(t) then []
    else if t == "clusters" || t == "customer_events" then ["customers"]
    else if t == "cluster_routes" then ["clusters"]
    else if t == PENDING_IDENTITIES then ["customers", "clusters"]
    else if t == "sessions" then ["operators"]
    else []
  }

  /** The references of the tables about users and organizations. */
  function UserKeys(t: Table): seq<Table> {
    if HasNoKeys(t) then []
    else if t == "auth_sessions" then ["users"]
    else if t == "organization_members" then ["organizations", "users"]
    else if t == "org_customer_bindings" then ["organizations"]
    else if t == "organization_customer_binding_events" then ["org_customer_bindings", "organizations"]
    else []
  }

  /**
   * The tables that each table of the target references, as its migrations declare
   * them.  The locations of artifacts are left out: they are written by relocation only.
   */
  function TargetKeys(t: Table): seq<Table> {
    DefinitionKeys(t) + OperationKeys(t) + BundleKeys(t) + CustomerKeys(t) + UserKeys(t)
  }

  /** Tables without references that are named elsewhere. */
  predicate HasNoKeys(t: Table) {
    IsRoot(t) || IsSeeded(t) || t == "candidate_artifacts" || t == "preflight_lifecycles"
  }

  /** The keys that are not listed and whose parent is copied after the child. */
  predicate IsLateKey(t: Table, p: Table) {
    || (t == EXECUTION_RESULTS && p == "operations")
    || (t == PREPARE_SESSIONS && (p == "release_definitions" || p == REVISIONS))
    || ((t == IMAGE_BINDINGS || t == BUNDLE_ALIASES || t == VALIDATION_OUTBOX) && p == "release_bundles")
  }

  /** The keys that are not listed, but whose parent comes first by name. */
  predicate IsLuckyKey(t: Table, p: Table) {
    || (t == ROLLOUTS && p == "operations")
    || (t == PENDING_IDENTITIES && (p == "customers" || p == "clusters"))
  }

  /** Two dependencies are no foreign keys of the target: they only order the copy. */
  predicate IsOrderOnly(t: Table, p: Table) {
    (t == "candidate_artifacts" && p == "release_bundles") || (t == "preflight_lifecycles" && p == "operations")
  }

  /** How the copy treats a key: it is listed, late, lucky, or leads from a revision to its parent revision. */
  ghost predicate HasKind(t: Table, p: Table) {
    && (IsRoot(p) || IsMiddle(p))
    && (|| p in FkTopology(t)
        || (t == REVISIONS && p == REVISIONS)
        || (FkTopology(t) == [] && (IsLateKey(t, p) || IsLuckyKey(t, p))))
  }

  lemma KindsOfDefinitionKeys(t: Table, p: Table)
    requires p in DefinitionKeys(t)
    ensures HasKind(t, p)
  {
  }

  lemma KindsOfOperationKeys(t: Table, p: Table)
    requires p in OperationKeys(t)
    ensures HasKind(t, p)
  {
  }

  lemma KindsOfBundleKeys(t: Table, p: Table)
    requires p in BundleKeys(t)
    ensures HasKind(t, p)
  {
  }

  lemma KindsOfCustomerKeys(t: Table, p: Table)
    requires p in CustomerKeys(t)
    ensures HasKind(t, p)
  {
  }

  lemma NeedsOfUsers()
    ensures FkTopology("auth_sessions") == ["users"]
    ensures FkTopology("organization_members") == ["organizations", "users"]
  {
  }

  lemma NeedsOfBindings()
    ensures FkTopology("org_customer_bindings") == ["organizations"]
  {
  }

  lemma NeedsOfBindingEvents()
    ensures FkTopology("organization_customer_binding_events") == ["org_customer_bindings", "organizations"]
  {
  }

  lemma KindsOfUserKeys(t: Table, p: Table)
    requires p in UserKeys(t)
    ensures HasKind(t, p)
  {
    NeedsOfUsers();
    NeedsOfBindings();
    NeedsOfBindingEvents();
  }

  /** Every key of the target has one of these kinds. */
  lemma KindsOfKeys(t: Table, p: Table)
    requires p in TargetKeys(t)
    ensures HasKind(t, p)
  {
    if p in DefinitionKeys(t) {
      KindsOfDefinitionKeys(t, p);
    } else if p in OperationKeys(t) {
      KindsOfOperationKeys(t, p);
    } else if p in BundleKeys(t) {
      KindsOfBundleKeys(t, p);
    } else if p in CustomerKeys(t) {
      KindsOfCustomerKeys(t, p);
    } else {
      KindsOfUserKeys(t, p);
    }
  }

  /** The tables about releases, as far as the topology lists them. */
  predicate IsReleaseTable(t: Table) {
    || t == REVISIONS || t == "operations" || t == "release_definition_events" || t == "values_revision_decisions"
    || t == "operation_events" || t == "operation_timeline" || t == "emergency_intents" || t == "convergence_tasks"
  }

  lemma ListedReleaseKeys(t: Table, p: Table)
    requires IsReleaseTable(t) && p in FkTopology(t)
    ensures p in DefinitionKeys(t) || p in OperationKeys(t)
  {
  }

  lemma OtherListedKeys(t: Table, p: Table)
    requires !IsReleaseTable(t) && p in FkTopology(t)
    ensures p in BundleKeys(t) || p in CustomerKeys(t) || p in UserKeys(t) || IsOrderOnly(t, p)
  {
  }

  /** Conversely, the topology lists keys of the target, and the two dependencies that only order the copy. */
  lemma ListedAreKeys(t: Table, p: Table)
    requires p in FkTopology(t)
    ensures p in TargetKeys(t) || IsOrderOnly(t, p)
  {
    if IsReleaseTable(t) {
      ListedReleaseKeys(t, p);
    } else {
      OtherListedKeys(t, p);
    }
  }

  lemma OrderOnlyIsListed(t: Table, p: Table)
    requires IsOrderOnly(t, p)
    ensures p in FkTopology(t)
  {
  }

  /** Bundles are copied before artifacts, and operations before preflights, in every source that has both. */
  lemma OrderOnlyIsRespected(present: set<Table>, t: Table, p: Table)
    requires t in present && p in present && IsOrderOnly(t, p)
    ensures Precedes(Ordered(FkTopology, present), p, t)
  {
    OrderOnlyIsListed(t, p);
    OrderIsPermutation(FkTopology, present);
    ListedForeignKeysAreRespected(present);
    NeededComesFirst(FkTopology, present, Ordered(FkTopology, present), t, p);
  }

  lemma NeededComesFirst(topology: Topology, present: set<Table>, order: seq<Table>, t: Table, p: Table)
    requires Names(order) == present && Respects(topology, present, order)
    requires t in present && p in present && p in topology(t)
    ensures Precedes(order, p, t)
  {
    assert t in Names(order);
    var n :| 0 <= n < |order| && order[n] == t;
    assert p in Needs(topology, present, order[n]) && Needs(topology, present, order[n]) <= Names(order[..n]);
    var k :| 0 <= k < n && order[..n][k] == p;
    assert order[k] == p;
  }

  lemma ExecutionResultsSortFirst()
    ensures Before(EXECUTION_RESULTS, "operations")
  {
    BeforeAfterPrefix("operation", "_execution_results", "s");
    assert "operation" + "s" == "operations";
  }

  lemma ImageBindingsSortFirst()
    ensures Before(IMAGE_BINDINGS, "release_bundles")
  {
    BeforeAfterPrefix("release_bundle", "_image_bindings", "s");
    assert "release_bundle" + "s" == "release_bundles";
  }

  lemma DefinitionsSortBeforeRollouts()
    ensures Before("release_definitions", "rollout_trackings")
  {
    BeforeAfterPrefix("r", "elease_definitions", "ollout_trackings");
    assert "r" + "elease_definitions" == "release_definitions" && "r" + "ollout_trackings" == "rollout_trackings";
  }

  lemma LateChildSortsFirst(t: Table, p: Table)
    requires IsLateKey(t, p)
    ensures Before(t, p)
  {
    ExecutionResultsSortFirst();
    ImageBindingsSortFirst();
  }

  /** A late key has its child before its parent in every source that has both. */
  lemma LateKeyIsNotRespected(present: set<Table>, t: Table, p: Table)
    requires t in present && p in present && IsLateKey(t, p) && FkTopology(t) == []
    ensures Precedes(Ordered(FkTopology, present), t, p)
  {
    LateChildSortsFirst(t, p);
    EarlyTableComesFirst(FkTopology, present, {}, t, p);
  }

  lemma NeedsOfParents()
    ensures FkTopology("operations") == ["release_definitions"]
    ensures FkTopology("clusters") == ["customers"]
    ensures FkTopology("release_definitions") == [] && FkTopology("customers") == []
  {
  }

  lemma LuckyParentIsEarly(present: set<Table>, t: Table, p: Table)
    requires IsLuckyKey(t, p)
    ensures Early(FkTopology, present, p, t)
  {
    NeedsOfParents();
    DefinitionsSortBeforeRollouts();
  }

  /** A lucky key has its parent first in every source that has both. */
  lemma LuckyKeyIsRespected(present: set<Table>, t: Table, p: Table)
    requires t in present && p in present && IsLuckyKey(t, p)
    ensures Precedes(Ordered(FkTopology, present), p, t)
  {
    LuckyParentIsEarly(present, t, p);
    EarlyTableComesFirst(FkTopology, present, {}, p, t);
  }
}
