/**
 `_foreign_key_restore_plan`: which nullable foreign-key columns have to be cleared before the
 tables are emptied and patched after they are filled again.
 */
module ForeignKeyPlan {
  import opened Common

  datatype TableName = TableName(text: string)
  datatype ColumnName = ColumnName(text: string)

  /** One foreign key: a row of `source` refers through `column` to a row of `target`. */
  datatype Edge = Edge(source: TableName, target: TableName, column: ColumnName, nullable: bool)

  type Graph = map<TableName, set<TableName>>

  predicate Closed(graph: Graph) {
    forall t, u :: t in graph && u in graph[t] ==> u in graph
  }

  /** `path` is a directed walk in the graph. */
  ghost predicate Walk(graph: Graph, path: seq<TableName>) {
    && |path| > 0 && path[0] in graph
    && (forall i :: 0 <= i < |path| - 1 ==> path[i] in graph && path[i + 1] in graph[path[i]])
  }

  ghost predicate Connects(graph: Graph, path: seq<TableName>, a: TableName, b: TableName) {
    Walk(graph, path) && path[0] == a && path[|path| - 1] == b
  }

  ghost predicate Reachable(graph: Graph, a: TableName, b: TableName) {
    exists path :: Connects(graph, path, a, b)
  }

  lemma ReachableStep(graph: Graph, a: TableName, b: TableName, c: TableName)
    requires Reachable(graph, a, b) && b in graph && c in graph[b]
    ensures Reachable(graph, a, c)
  {
    var path :| Connects(graph, path, a, b);
    assert Connects(graph, path + [c], a, c);
  }

  /** A set that is closed under the edges holds everything reachable from its members. */
  lemma {:induction false} ClosedSetHoldsWalk(graph: Graph, inside: set<TableName>, path: seq<TableName>, i: nat)
    requires Walk(graph, path) && path[0] in inside && i < |path|
    requires forall t, u :: t in inside && t in graph && u in graph[t] ==> u in inside
    ensures path[i] in inside
  {
    if i > 0 {
      ClosedSetHoldsWalk(graph, inside, path, i - 1);
      assert path[i - 1 + 1] in graph[path[i - 1]];
    }
  }

  /** What follows a visited table has been visited or is waiting. */
  ghost predicate Frontier(graph: Graph, visited: set<TableName>, pending: seq<TableName>) {
    forall t, u :: t in visited && t in graph && u in graph[t] ==> u in visited || u in pending
  }

  ghost predicate AllReachable(graph: Graph, start: TableName, pending: seq<TableName>) {
    forall t :: t in pending ==> t in graph && Reachable(graph, start, t)
  }

  /** A table that was visited before can be dropped. */
  lemma FrontierSkips(graph: Graph, visited: set<TableName>, rest: seq<TableName>, current: TableName)
    requires Frontier(graph, visited, rest + [current]) && current in visited
    ensures Frontier(graph, visited, rest)
  {
  }

  /** A visited table is replaced by what follows it. */
  lemma FrontierMoves(graph: Graph, visited: set<TableName>, rest: seq<TableName>, current: TableName,
      more: seq<TableName>)
    requires Frontier(graph, visited, rest + [current]) && current in graph
    requires forall t :: t in more <==> t in graph[current] - (visited + {current})
    ensures Frontier(graph, visited + {current}, rest + more)
  {
    forall t, u | t in visited + {current} && t in graph && u in graph[t]
      ensures u in visited + {current} || u in rest + more
    {
      if t in visited { assert u in visited || u in rest + [current]; }
    }
  }

  lemma FollowersReachable(graph: Graph, start: TableName, rest: seq<TableName>, current: TableName,
      more: seq<TableName>)
    requires Closed(graph) && AllReachable(graph, start, rest + [current])
    requires current in graph && forall t :: t in more ==> t in graph[current]
    ensures AllReachable(graph, start, rest + more)
  {
    assert current in rest + [current];
    forall u | u in rest + more ensures u in graph && Reachable(graph, start, u) {
      if u in more {
        ReachableStep(graph, start, current, u);
      } else {
        assert u in rest + [current];
      }
    }
  }

  /** With nothing waiting, only visited tables can be reached. */
  lemma NothingMissed(graph: Graph, visited: set<TableName>, start: TableName, target: TableName)
    requires Closed(graph) && Frontier(graph, visited, []) && start in visited && target !in visited
    ensures !Reachable(graph, start, target)
  {
    if Reachable(graph, start, target) {
      var path :| Connects(graph, path, start, target);
      ClosedSetHoldsWalk(graph, visited, path, |path| - 1);
      assert false;
    }
  }

  /** The nested `reaches`: a worklist with a visited set decides reachability, on every graph. */
  method Reaches(graph: Graph, start: TableName, target: TableName) returns (r: bool)
    requires Closed(graph) && start in graph
    ensures r <==> Reachable(graph, start, target)
  {
    var pending := [start];
    var visited: set<TableName> := {};
    assert Connects(graph, [start], start, start);
    while |pending| > 0
      invariant AllReachable(graph, start, pending)
      invariant visited <= graph.Keys && target !in visited
      invariant start in visited || start in pending
      invariant Frontier(graph, visited, pending)
      decreases |graph.Keys - visited|, |pending|
    {
      var current := pending[|pending| - 1];
      ghost var rest := pending[..|pending| - 1];
      assert pending == rest + [current];
      pending := pending[..|pending| - 1];
      if current == target {
        return true;
      }
      if current in visited {
        FrontierSkips(graph, visited, rest, current);
        continue;
      }
      StrictlyFewer(graph.Keys - (visited + {current}), graph.Keys - visited);
      ghost var before := visited;
      visited := visited + {current};
      var more := ListOf(graph[current] - visited);
      FrontierMoves(graph, before, rest, current, more);
      FollowersReachable(graph, start, rest, current, more);
      pending := pending + more;
    }
    NothingMissed(graph, visited, start, target);
    return false;
  }

  /** The elements of a set in some order, as `list.extend` takes them. */
  method ListOf(s: set<TableName>) returns (r: seq<TableName>)
    ensures forall t :: t in r <==> t in s
  {
    r := [];
    var left := s;
    while left != {}
      invariant left <= s && forall t :: t in r <==> t in s && t !in left
      decreases left
    {
      var t :| t in left;
      r := r + [t];
      left := left - {t};
    }
  }

  // ---------------------------------------------------------------- the plan

  /** A schema: table names in `sorted_tables` order, and the foreign keys table by table. */
  datatype Schema = Schema(tables: seq<TableName>, edges: seq<Edge>) {
    ghost predicate WellFormed() {
      && Distinct(tables)
      && (forall i :: 0 <= i < |edges| ==> edges[i].source in tables && edges[i].target in tables)
    }
  }

  ghost predicate IsGraphOf(graph: Graph, schema: Schema) {
    && (forall t :: t in graph <==> t in schema.tables)
    && (forall t, u :: t in graph && u in graph[t] <==>
          exists i :: 0 <= i < |schema.edges| && schema.edges[i].source == t && schema.edges[i].target == u)
  }

  ghost function GraphOf(schema: Schema): (graph: Graph)
    requires schema.WellFormed()
    ensures IsGraphOf(graph, schema) && Closed(graph)
  {
    var all := set e | e in schema.edges;
    var graph := map t | t in schema.tables :: set e | e in all && e.source == t :: e.target;
    assert forall i :: 0 <= i < |schema.edges| ==> schema.edges[i] in all;
    assert forall t, u :: t in graph && u in graph[t] ==> u in graph;
    graph
  }

  /** The edge lies on a directed cycle; a self-reference does. */
  ghost predicate OnCycle(schema: Schema, e: Edge)
    requires schema.WellFormed()
  {
    Reachable(GraphOf(schema), e.target, e.source)
  }

  type Deferred = map<TableName, set<ColumnName>>

  predicate Defers(deferred: Deferred, t: TableName, c: ColumnName) {
    t in deferred && c in deferred[t]
  }

  predicate IsDeferred(deferred: Deferred, e: Edge) {
    Defers(deferred, e.source, e.column)
  }

  ghost predicate CycleColumn(schema: Schema, n: nat, source: TableName, column: ColumnName)
    requires schema.WellFormed() && n <= |schema.edges|
  {
    exists i :: 0 <= i < n && schema.edges[i].source == source && schema.edges[i].column == column
                && OnCycle(schema, schema.edges[i])
  }

  /** A column is deferred exactly when one of its foreign keys lies on a cycle. */
  ghost predicate DefersCycles(schema: Schema, n: nat, deferred: Deferred)
    requires schema.WellFormed() && n <= |schema.edges|
  {
    forall t, c :: Defers(deferred, t, c) <==> CycleColumn(schema, n, t, c)
  }

  ghost predicate Before(tables: seq<TableName>, a: TableName, b: TableName) {
    exists i, j :: 0 <= i < j < |tables| && tables[i] == a && tables[j] == b
  }

  ghost predicate Breakable(schema: Schema)
    requires schema.WellFormed()
  {
    forall i :: 0 <= i < |schema.edges| && OnCycle(schema, schema.edges[i]) ==> schema.edges[i].nullable
  }

  /** Every edge whose column keeps its value while rows are inserted points to an earlier table. */
  ghost predicate Ordered(schema: Schema, deferred: Deferred) {
    forall i :: 0 <= i < |schema.edges| && !IsDeferred(deferred, schema.edges[i]) ==>
      Before(schema.tables, schema.edges[i].target, schema.edges[i].source)
  }

  /** The schemas that the clear, delete, insert and patch scheme can serve. */
  ghost predicate Servable(schema: Schema)
    requires schema.WellFormed()
  {
    && Breakable(schema)
    && (forall i :: 0 <= i < |schema.edges| &&
                    !CycleColumn(schema, |schema.edges|, schema.edges[i].source, schema.edges[i].column) ==>
          Before(schema.tables, schema.edges[i].target, schema.edges[i].source))
  }

  datatype PlanError = NonNullableCycle(edge: Edge) | TableOrder(edge: Edge)

  method BuildGraph(schema: Schema) returns (graph: Graph)
    requires schema.WellFormed()
    ensures graph == GraphOf(schema)
  {
    graph := map t | t in schema.tables :: {};
    var n := 0;
    while n < |schema.edges|
      invariant 0 <= n <= |schema.edges|
      invariant forall t :: t in graph <==> t in schema.tables
      invariant forall t, u :: t in graph && u in graph[t] <==>
                  exists i :: 0 <= i < n && schema.edges[i].source == t && schema.edges[i].target == u
    {
      var e := schema.edges[n];
      graph := graph[e.source := graph[e.source] + {e.target}];
      n := n + 1;
    }
    GraphUnique(schema, graph);
  }

  lemma GraphUnique(schema: Schema, graph: Graph)
    requires schema.WellFormed() && IsGraphOf(graph, schema)
    ensures graph == GraphOf(schema)
  {
    var other := GraphOf(schema);
    assert graph.Keys == other.Keys;
    forall t | t in graph ensures graph[t] == other[t] {
      forall u ensures u in graph[t] <==> u in other[t] {
        assert t in graph && u in graph[t] <==> t in other && u in other[t];
      }
    }
  }

  method RestorePlan(schema: Schema) returns (r: Result<Deferred, PlanError>)
    requires schema.WellFormed()
    ensures r.Ok? <==> Servable(schema)
    ensures r.Ok? ==> Breakable(schema) && DefersCycles(schema, |schema.edges|, r.value) && Ordered(schema, r.value)
    ensures r.Err? && r.error.NonNullableCycle? ==>
              r.error.edge in schema.edges && OnCycle(schema, r.error.edge) && !r.error.edge.nullable
    ensures r.Err? && r.error.TableOrder? ==>
              && Breakable(schema) && r.error.edge in schema.edges
              && !CycleColumn(schema, |schema.edges|, r.error.edge.source, r.error.edge.column)
              && !Before(schema.tables, r.error.edge.target, r.error.edge.source)
  {
    var graph := BuildGraph(schema);
    var deferred: Deferred := map[];
    var n := 0;
    while n < |schema.edges|
      invariant 0 <= n <= |schema.edges|
      invariant forall i :: 0 <= i < n && OnCycle(schema, schema.edges[i]) ==> schema.edges[i].nullable
      invariant DefersCycles(schema, n, deferred)
    {
      var e := schema.edges[n];
      var cyclic := e.source == e.target;
      if cyclic {
        assert Connects(graph, [e.target], e.target, e.source);
      } else {
        cyclic := Reaches(graph, e.target, e.source);
      }
      assert cyclic <==> OnCycle(schema, e);
      if cyclic {
        if !e.nullable {
          return Err(NonNullableCycle(e));
        }
        var columns := if e.source in deferred then deferred[e.source] else {};
        ExtendDeferred(schema, n, deferred, deferred[e.source := columns + {e.column}]);
        deferred := deferred[e.source := columns + {e.column}];
      } else {
        SkipEdge(schema, n, deferred);
      }
      n := n + 1;
    }
    n := 0;
    while n < |schema.edges|
      invariant 0 <= n <= |schema.edges|
      invariant forall i :: 0 <= i < n && !IsDeferred(deferred, schema.edges[i]) ==>
                  Before(schema.tables, schema.edges[i].target, schema.edges[i].source)
    {
      var e := schema.edges[n];
      if !IsDeferred(deferred, e) {
        var target := PositionOf(schema.tables, e.target);
        var source := PositionOf(schema.tables, e.source);
        if target >= source {
          return Err(TableOrder(e));
        }
      }
      n := n + 1;
    }
    return Ok(deferred);
  }

  method PositionOf(tables: seq<TableName>, t: TableName) returns (i: nat)
    requires t in tables
    ensures i < |tables| && tables[i] == t
  {
    i := 0;
    while tables[i] != t
      invariant i < |tables| && t !in tables[..i]
      decreases |tables| - i
    {
      i := i + 1;
    }
  }

  lemma ExtendDeferred(schema: Schema, n: nat, was: Deferred, now: Deferred)
    requires schema.WellFormed() && n < |schema.edges| && DefersCycles(schema, n, was)
    requires OnCycle(schema, schema.edges[n])
    requires var e := schema.edges[n];
             now == was[e.source := (if e.source in was then was[e.source] else {}) + {e.column}]
    ensures DefersCycles(schema, n + 1, now)
  {
    forall t, c ensures Defers(now, t, c) <==> CycleColumn(schema, n + 1, t, c) {
      assert Defers(was, t, c) <==> CycleColumn(schema, n, t, c);
      if CycleColumn(schema, n + 1, t, c) {
        var i :| 0 <= i < n + 1 && schema.edges[i].source == t && schema.edges[i].column == c
                 && OnCycle(schema, schema.edges[i]);
      }
    }
  }

  lemma SkipEdge(schema: Schema, n: nat, deferred: Deferred)
    requires schema.WellFormed() && n < |schema.edges| && DefersCycles(schema, n, deferred)
    requires !OnCycle(schema, schema.edges[n])
    ensures DefersCycles(schema, n + 1, deferred)
  {
    forall t, c ensures Defers(deferred, t, c) <==> CycleColumn(schema, n + 1, t, c) {
      assert Defers(deferred, t, c) <==> CycleColumn(schema, n, t, c);
    }
  }

  // ---------------------------------------------------------------- what a plan gives

  /** Every edge on a cycle is deferred and nullable, and the deferred columns are no more than those. */
  lemma PlanCoversCycles(schema: Schema, deferred: Deferred)
    requires schema.WellFormed() && Breakable(schema) && DefersCycles(schema, |schema.edges|, deferred)
    ensures forall i :: 0 <= i < |schema.edges| && OnCycle(schema, schema.edges[i]) ==>
              IsDeferred(deferred, schema.edges[i]) && schema.edges[i].nullable
    ensures forall t, c :: Defers(deferred, t, c) ==>
              exists i :: 0 <= i < |schema.edges| && schema.edges[i].source == t && schema.edges[i].column == c
                          && OnCycle(schema, schema.edges[i])
  {
    forall i | 0 <= i < |schema.edges| && OnCycle(schema, schema.edges[i])
      ensures IsDeferred(deferred, schema.edges[i])
    {
      assert CycleColumn(schema, |schema.edges|, schema.edges[i].source, schema.edges[i].column);
    }
    forall t, c | Defers(deferred, t, c) ensures CycleColumn(schema, |schema.edges|, t, c) { }
  }

  /** The edges that keep their value while rows are inserted can form no directed cycle. */
  lemma {:induction false} KeptEdgesAreAcyclic(schema: Schema, deferred: Deferred, walk: seq<Edge>, n: nat)
    requires schema.WellFormed() && Ordered(schema, deferred)
    requires 0 < n <= |walk|
    requires forall i :: 0 <= i < |walk| ==> walk[i] in schema.edges && !IsDeferred(deferred, walk[i])
    requires forall i :: 0 <= i < |walk| - 1 ==> walk[i].target == walk[i + 1].source
    ensures Before(schema.tables, walk[n - 1].target, walk[0].source)
    ensures walk[n - 1].target != walk[0].source
    decreases n
  {
    assert walk[n - 1] in schema.edges;
    var i :| 0 <= i < |schema.edges| && schema.edges[i] == walk[n - 1];
    if n > 1 {
      KeptEdgesAreAcyclic(schema, deferred, walk, n - 1);
      assert walk[n - 2].target == walk[n - 2 + 1].source;
    }
    assert Before(schema.tables, walk[n - 1].target, walk[n - 1].source);
  }
}
