/**
 Emptying the tables before the import: the cycle columns are set to NULL, then the tables are
 deleted from the last to the first. What a row is does not matter here, only which of its
 columns are NULL.
 */
module TableClearing {
  import opened Common
  import opened ForeignKeyPlan

  type Rows<R> = map<TableName, seq<R>>

  function ColumnsOf(deferred: Deferred, t: TableName): set<ColumnName> {
    if t in deferred then deferred[t] else {}
  }

  /** How a row answers for a NULL column, and `UPDATE ... SET column = NULL` on one row. */
  datatype RowOps<!R(!new)> = RowOps(isNull: (R, ColumnName) -> bool, nulled: (R, set<ColumnName>) -> R) {
    ghost predicate Sound() {
      && (forall r, columns, c :: c in columns ==> isNull(nulled(r, columns), c))
      && (forall r :: nulled(r, {}) == r)
    }

    function NulledRows(rows: seq<R>, columns: set<ColumnName>): (r: seq<R>)
      ensures |r| == |rows| && forall i :: 0 <= i < |r| ==> r[i] == nulled(rows[i], columns)
    {
      seq(|rows|, i requires 0 <= i < |rows| => nulled(rows[i], columns))
    }

    /** No row of `rows` refers anywhere through `column`. */
    ghost predicate AllNull(rows: seq<R>, column: ColumnName) {
      forall i :: 0 <= i < |rows| ==> isNull(rows[i], column)
    }
  }

  /** No row refers, through any of `edges`, into one of the emptied tables. */
  ghost predicate NoDangling<R(!new)>(ops: RowOps<R>, tables: Rows<R>, edges: seq<Edge>, emptied: set<TableName>) {
    forall i :: 0 <= i < |edges| && edges[i].target in emptied ==>
      edges[i].source in tables && ops.AllNull(tables[edges[i].source], edges[i].column)
  }

  ghost predicate Cleared<R(!new)>(ops: RowOps<R>, tables: Rows<R>, deferred: Deferred) {
    forall t, c :: t in tables && Defers(deferred, t, c) ==> ops.AllNull(tables[t], c)
  }

  /** The last `k` tables of the schema. */
  ghost function LastTables(schema: Schema, k: nat): set<TableName>
    requires k <= |schema.tables|
  {
    var last := schema.tables[|schema.tables| - k..];
    set t | t in last
  }

  ghost predicate Emptied<R>(tables: Rows<R>, before: Rows<R>, gone: set<TableName>) {
    && tables.Keys == before.Keys
    && forall t :: t in tables ==> tables[t] == if t in gone then [] else before[t]
  }

  class Cleaner<R(!new)> {
    const ops: RowOps<R>
    var tables: Rows<R>
    ghost var deletions: seq<Rows<R>>

    constructor (ops: RowOps<R>, tables: Rows<R>)
      ensures this.ops == ops && this.tables == tables && deletions == []
    {
      this.ops := ops;
      this.tables := tables;
      this.deletions := [];
    }

    /** `table.update().values(column=None, ...)` for every table with deferred columns. */
    method ClearDeferred(names: seq<TableName>, deferred: Deferred)
      requires ops.Sound() && Distinct(names) && tables.Keys == (set t | t in names)
      modifies this`tables
      ensures tables.Keys == old(tables).Keys && Cleared(ops, tables, deferred)
      ensures forall t :: t in tables ==> tables[t] == ops.NulledRows(old(tables)[t], ColumnsOf(deferred, t))
    {
      ghost var before := tables;
      var n := 0;
      while n < |names|
        invariant 0 <= n <= |names| && tables.Keys == before.Keys
        invariant forall m :: 0 <= m < n ==> tables[names[m]] == ops.NulledRows(before[names[m]], ColumnsOf(deferred, names[m]))
        invariant forall m :: n <= m < |names| ==> tables[names[m]] == before[names[m]]
      {
        var t := names[n];
        assert t in tables.Keys;
        if t in deferred {
          tables := tables[t := ops.NulledRows(tables[t], deferred[t])];
        } else {
          assert ops.NulledRows(tables[t], {}) == tables[t];
        }
        n := n + 1;
      }
      forall t | t in tables ensures tables[t] == ops.NulledRows(before[t], ColumnsOf(deferred, t)) {
        var m :| 0 <= m < |names| && names[m] == t;
      }
    }

    /** `table.delete()` in reverse order; no statement leaves a row that refers to a deleted one. */
    method DeleteAll(schema: Schema, ghost deferred: Deferred)
      requires schema.WellFormed() && tables.Keys == (set t | t in schema.tables)
      requires Ordered(schema, deferred) && Cleared(ops, tables, deferred) && deletions == []
      modifies this`tables, this`deletions
      ensures tables.Keys == old(tables).Keys && forall t :: t in tables ==> tables[t] == []
      ensures |deletions| == |schema.tables| && DeletedInOrder(ops, schema, old(tables), deletions)
    {
      ghost var before := tables;
      var n := |schema.tables|;
      while n > 0
        invariant 0 <= n <= |schema.tables| && Deleting(schema, before, n)
      {
        n := n - 1;
        DeleteOne(schema, deferred, before, n);
      }
      assert schema.tables[0..] == schema.tables;
    }

    /** Where the deletions are when the first `n` tables are still to come. */
    ghost predicate Deleting(schema: Schema, before: Rows<R>, n: nat)
      requires n <= |schema.tables|
      reads this
    {
      && Emptied(tables, before, LastTables(schema, |schema.tables| - n))
      && |deletions| == |schema.tables| - n && DeletedInOrder(ops, schema, before, deletions)
    }

    method DeleteOne(schema: Schema, ghost deferred: Deferred, ghost before: Rows<R>, n: nat)
      requires schema.WellFormed() && Ordered(schema, deferred) && Cleared(ops, before, deferred)
      requires before.Keys == (set t | t in schema.tables) && n < |schema.tables| && Deleting(schema, before, n + 1)
      modifies this`tables, this`deletions
      ensures Deleting(schema, before, n)
    {
      DeleteStep(ops, schema, deferred, before, tables, n, deletions);
      tables := tables[schema.tables[n] := []];
      deletions := deletions + [tables];
    }
  }

  /** After the `k`-th `DELETE` the last `k` tables are empty, the others as before, and nothing dangles. */
  ghost predicate DeletedInOrder<R(!new)>(ops: RowOps<R>, schema: Schema, before: Rows<R>, deletions: seq<Rows<R>>) {
    && |deletions| <= |schema.tables|
    && forall k :: 0 <= k < |deletions| ==> DeletionOk(ops, schema, before, deletions[k], k)
  }

  ghost predicate DeletionOk<R(!new)>(ops: RowOps<R>, schema: Schema, before: Rows<R>, tables: Rows<R>, k: nat)
    requires k < |schema.tables|
  {
    && Emptied(tables, before, LastTables(schema, k + 1))
    && NoDangling(ops, tables, schema.edges, LastTables(schema, k + 1))
  }

  lemma DeletedOneMore<R(!new)>(ops: RowOps<R>, schema: Schema, before: Rows<R>, deletions: seq<Rows<R>>, next: Rows<R>)
    requires DeletedInOrder(ops, schema, before, deletions) && |deletions| < |schema.tables|
    requires DeletionOk(ops, schema, before, next, |deletions|)
    ensures DeletedInOrder(ops, schema, before, deletions + [next])
  {
  }

  lemma DeleteStep<R(!new)>(ops: RowOps<R>, schema: Schema, deferred: Deferred, before: Rows<R>, tables: Rows<R>,
                            n: nat, deletions: seq<Rows<R>>)
    requires schema.WellFormed() && Ordered(schema, deferred) && Cleared(ops, before, deferred)
    requires before.Keys == (set t | t in schema.tables) && n < |schema.tables|
    requires Emptied(tables, before, LastTables(schema, |schema.tables| - n - 1))
    requires |deletions| == |schema.tables| - n - 1 && DeletedInOrder(ops, schema, before, deletions)
    ensures var next := tables[schema.tables[n] := []];
            && Emptied(next, before, LastTables(schema, |schema.tables| - n))
            && DeletedInOrder(ops, schema, before, deletions + [next])
  {
    var next := tables[schema.tables[n] := []];
    EmptiedOneMore(schema, before, tables, n);
    EmptiedFromTheEnd(ops, schema, deferred, before, next, n);
    DeletedOneMore(ops, schema, before, deletions, next);
  }

  lemma EmptiedOneMore<R>(schema: Schema, before: Rows<R>, tables: Rows<R>, n: nat)
    requires before.Keys == (set t | t in schema.tables) && n < |schema.tables|
    requires Emptied(tables, before, LastTables(schema, |schema.tables| - n - 1))
    ensures Emptied(tables[schema.tables[n] := []], before, LastTables(schema, |schema.tables| - n))
  {
    assert schema.tables[n] in before.Keys;
    LastOneMore(schema, n);
  }

  lemma LastOneMore(schema: Schema, n: nat)
    requires n < |schema.tables|
    ensures LastTables(schema, |schema.tables| - n) == LastTables(schema, |schema.tables| - n - 1) + {schema.tables[n]}
  {
    assert schema.tables[n..] == [schema.tables[n]] + schema.tables[n + 1..];
  }

  lemma EmptiedFromTheEnd<R(!new)>(ops: RowOps<R>, schema: Schema, deferred: Deferred, before: Rows<R>,
      tables: Rows<R>, n: nat)
    requires schema.WellFormed() && Ordered(schema, deferred) && Cleared(ops, before, deferred)
    requires before.Keys == (set t | t in schema.tables) && n <= |schema.tables|
    requires Emptied(tables, before, LastTables(schema, |schema.tables| - n))
    ensures NoDangling(ops, tables, schema.edges, LastTables(schema, |schema.tables| - n))
  {
    var gone := LastTables(schema, |schema.tables| - n);
    forall k | 0 <= k < |schema.edges| && schema.edges[k].target in gone
      ensures schema.edges[k].source in tables && ops.AllNull(tables[schema.edges[k].source], schema.edges[k].column)
    {
      var e := schema.edges[k];
      assert e.source in before.Keys;
      if !IsDeferred(deferred, e) {
        assert Before(schema.tables, e.target, e.source);
        EarlierTableGone(schema, n, e.target, e.source);
      } else {
        assert ops.AllNull(before[e.source], e.column);
      }
    }
  }

  lemma EarlierTableGone(schema: Schema, n: nat, a: TableName, b: TableName)
    requires Distinct(schema.tables) && n <= |schema.tables|
    requires Before(schema.tables, a, b) && a in LastTables(schema, |schema.tables| - n)
    ensures b in LastTables(schema, |schema.tables| - n)
  {
    var i, j :| 0 <= i < j < |schema.tables| && schema.tables[i] == a && schema.tables[j] == b;
    var last := schema.tables[n..];
    var m :| 0 <= m < |last| && last[m] == a;
    assert schema.tables[n + m] == a;
    assert last[j - n] == b;
  }
}
