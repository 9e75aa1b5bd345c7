/**
 How the import buffers rows: one buffer per table, inserted on its own when it holds 250
 rows, and the remainders inserted table by table at the end.
 */
module RowBatches {
  import opened Common
  import opened ForeignKeyPlan

  const BATCH_SIZE: nat := 250

  datatype Item<R> = Item(table: TableName, row: R)

  /** The rows of `t`, in stream order. */
  function RowsOf<R>(stream: seq<Item<R>>, t: TableName): seq<R> {
    if |stream| == 0 then []
    else
      var n := |stream| - 1;
      if stream[n].table == t then RowsOf(stream[..n], t) + [stream[n].row] else RowsOf(stream[..n], t)
  }

  lemma RowsOfOneMore<R>(stream: seq<Item<R>>, n: nat, t: TableName)
    requires n < |stream|
    ensures RowsOf(stream[..n + 1], t) ==
              if stream[n].table == t then RowsOf(stream[..n], t) + [stream[n].row] else RowsOf(stream[..n], t)
  {
    assert stream[..n + 1][..n] == stream[..n];
  }

  /** The tables that hold the rows of the stream. */
  ghost function AllRows<R>(names: set<TableName>, stream: seq<Item<R>>): Rows<R> {
    map t | t in names :: RowsOf(stream, t)
  }

  /** How many of `n` rows full batches hold. */
  function Full(n: nat): nat {
    n - n % BATCH_SIZE
  }

  type Rows<R> = map<TableName, seq<R>>

  /** An `INSERT` of rows `first..last` of `table` after `read` records; `present` counts the rows before it. */
  datatype Insertion = Insertion(table: TableName, first: nat, last: nat, read: nat, present: map<TableName, nat>)

  ghost function Sizes<R>(tables: Rows<R>): map<TableName, nat> {
    map t | t in tables :: |tables[t]|
  }

  /** Table `t` after the records of `stream`: whole batches inserted, the rest buffered. */
  ghost predicate BufferedTable<R>(stream: seq<Item<R>>, t: TableName, inserted: seq<R>, batch: seq<R>) {
    inserted + batch == RowsOf(stream, t) && |inserted| == Full(|RowsOf(stream, t)|)
  }

  ghost predicate Buffered<R>(stream: seq<Item<R>>, tables: Rows<R>, batches: Rows<R>) {
    tables.Keys == batches.Keys && forall t :: t in tables ==> BufferedTable(stream, t, tables[t], batches[t])
  }

  /** A batch that was inserted because it was full. */
  ghost predicate FullInsertion<R>(names: set<TableName>, stream: seq<Item<R>>, i: Insertion) {
    && 0 < i.read <= |stream| && stream[i.read - 1].table == i.table && i.table in names
    && i.last == |RowsOf(stream[..i.read], i.table)| && i.last % BATCH_SIZE == 0 && i.first + BATCH_SIZE == i.last
    && i.present.Keys == names
    && i.present[i.table] == i.first
    && forall t :: t in names && t != i.table ==> i.present[t] == Full(|RowsOf(stream[..i.read], t)|)
  }

  ghost predicate RemainderInsertion<R>(order: seq<TableName>, stream: seq<Item<R>>, k: nat, i: Insertion) {
    && k < |order| && i.table == order[k] && i.read == |stream|
    && i.first == Full(|RowsOf(stream, i.table)|) && i.last == |RowsOf(stream, i.table)|
    && (forall m :: 0 <= m < |order| ==>
          order[m] in i.present &&
          i.present[order[m]] ==
            if m < k then |RowsOf(stream, order[m])| else Full(|RowsOf(stream, order[m])|))
  }

  lemma FullStep(rows: nat, inserted: nat, buffered: nat)
    requires inserted == Full(rows) && inserted + buffered == rows
    ensures buffered < BATCH_SIZE
    ensures buffered + 1 < BATCH_SIZE ==> Full(rows + 1) == inserted
    ensures buffered + 1 >= BATCH_SIZE ==>
              buffered + 1 == BATCH_SIZE && (rows + 1) % BATCH_SIZE == 0 && Full(rows + 1) == rows + 1
  {
    assert rows == (rows / BATCH_SIZE) * BATCH_SIZE + rows % BATCH_SIZE;
  }

  class Inserter<R> {
    var tables: Rows<R>
    var batches: Rows<R>
    ghost var stream: seq<Item<R>>
    ghost var read: nat
    ghost var insertions: seq<Insertion>

    ghost predicate Valid()
      reads this
    {
      Importing(stream, read, tables, batches, insertions)
    }

    /** Rows are added to `tables`, which are empty. */
    constructor (tables: Rows<R>, ghost stream: seq<Item<R>>)
      requires forall t :: t in tables ==> tables[t] == []
      ensures Valid() && this.stream == stream && read == 0 && this.tables == tables && insertions == []
    {
      this.tables := tables;
      this.batches := map t | t in tables :: [];
      this.stream := stream;
      this.read := 0;
      this.insertions := [];
    }

    /** Buffers one row and inserts the buffer when it is full. */
    method Accept(table: TableName, row: R)
      requires Valid() && table in tables && read < |stream| && stream[read] == Item(table, row)
      modifies this
      ensures Valid() && stream == old(stream) && read == old(read) + 1 && tables.Keys == old(tables).Keys
    {
      ghost var tables0, batches0, insertions0 := tables, batches, insertions;
      var batch := batches[table] + [row];
      if |batch| < BATCH_SIZE {
        batches := batches[table := batch];
      } else {
        InsertBatch(table, batch, read + 1);
        batches := batches[table := batch][table := []];
      }
      read := read + 1;
      ImportStepped(stream, read - 1, tables0, batches0, insertions0, tables, batches, insertions);
    }

    /** One `INSERT` of the rows in `batch`. */
    method InsertBatch(table: TableName, batch: seq<R>, ghost after: nat)
      requires table in tables
      modifies this`tables, this`insertions
      ensures tables == old(tables)[table := old(tables)[table] + batch]
      ensures insertions == old(insertions)
           + [Insertion(table, |old(tables)[table]|, |old(tables)[table]| + |batch|, after, Sizes(old(tables)))]
    {
      insertions := insertions + [Insertion(table, |tables[table]|, |tables[table]| + |batch|, after, Sizes(tables))];
      tables := tables[table := tables[table] + batch];
    }

    /** The final loop over the table names. */
    method FlushRemainders(order: seq<TableName>)
      requires Valid() && read == |stream| && Distinct(order) && tables.Keys == (set t | t in order)
      modifies this`tables, this`insertions
      ensures tables == AllRows(old(tables).Keys, stream) && tables.Keys == old(tables).Keys
      ensures AllPlaced(order, old(tables).Keys, stream, insertions) && Covered(tables, insertions)
    {
      TakeAll(stream);
      ghost var names := tables.Keys;
      var n := 0;
      while n < |order|
        invariant 0 <= n <= |order|
        invariant Flushing(order, n, names, stream, tables, batches, insertions)
      {
        FlushTable(order, n, names);
        n := n + 1;
      }
      FlushedAll(order, names, stream, tables, batches);
    }

    method FlushTable(order: seq<TableName>, n: nat, ghost names: set<TableName>)
      requires Distinct(order) && n < |order| && read == |stream|
      requires Flushing(order, n, names, stream, tables, batches, insertions)
      modifies this`tables, this`insertions
      ensures Flushing(order, n + 1, names, stream, tables, batches, insertions)
    {
      var t := order[n];
      FlushOneMore(order, n, names, stream, tables, batches, insertions);
      if |batches[t]| > 0 {
        InsertBatch(t, batches[t], read);
      }
    }
  }

  /** The state of the final loop before table number `n`. */
  ghost predicate Flushing<R>(order: seq<TableName>, n: nat, names: set<TableName>, stream: seq<Item<R>>,
                              tables: Rows<R>, batches: Rows<R>, insertions: seq<Insertion>) {
    && tables.Keys == names && Flushed(order, n, stream, tables, batches)
    && AllPlaced(order, names, stream, insertions) && Covered(tables, insertions)
  }

  lemma FlushOneMore<R>(order: seq<TableName>, n: nat, names: set<TableName>, stream: seq<Item<R>>,
                        tables: Rows<R>, batches: Rows<R>, insertions: seq<Insertion>)
    requires Distinct(order) && n < |order| && Flushing(order, n, names, stream, tables, batches, insertions)
    ensures var t := order[n];
            && (|batches[t]| == 0 ==> Flushing(order, n + 1, names, stream, tables, batches, insertions))
            && Flushing(order, n + 1, names, stream, tables[t := tables[t] + batches[t]], batches,
                        insertions + [Insertion(t, |tables[t]|, |tables[t]| + |batches[t]|, |stream|, Sizes(tables))])
  {
    var t := order[n];
    var i := Insertion(t, |tables[t]|, |tables[t]| + |batches[t]|, |stream|, Sizes(tables));
    FlushStep(order, n, stream, tables, batches);
    AllPlacedAppend(order, names, stream, insertions, n, i);
    CoveredAppend(tables, insertions, t, batches[t], i);
    assert tables[t := tables[t] + batches[t]].Keys == names + {t} == names;
  }

  lemma FlushedAll<R>(order: seq<TableName>, names: set<TableName>, stream: seq<Item<R>>, tables: Rows<R>,
      batches: Rows<R>)
    requires tables.Keys == names == (set t | t in order) && Flushed(order, |order|, stream, tables, batches)
    ensures tables == AllRows(names, stream)
  {
    forall t | t in tables ensures tables[t] == RowsOf(stream, t) {
      var m :| 0 <= m < |order| && order[m] == t;
    }
  }

  ghost predicate Holds(i: Insertion, t: TableName, row: nat) {
    i.table == t && i.first <= row < i.last
  }

  ghost predicate Inserted(insertions: seq<Insertion>, t: TableName, row: nat) {
    exists k :: 0 <= k < |insertions| && Holds(insertions[k], t, row)
  }

  /** Every row in the tables was inserted by some statement of the log. */
  ghost predicate Covered<R>(tables: Rows<R>, insertions: seq<Insertion>) {
    forall t, row: nat {:trigger Inserted(insertions, t, row)} :: t in tables && row < |tables[t]| ==> Inserted(insertions, t, row)
  }

  lemma CoveredAppend<R>(tables: Rows<R>, insertions: seq<Insertion>, t: TableName, batch: seq<R>, i: Insertion)
    requires Covered(tables, insertions) && t in tables
    requires i.table == t && i.first == |tables[t]| && i.last == |tables[t]| + |batch|
    ensures Covered(tables[t := tables[t] + batch], insertions + [i])
  {
    var all := insertions + [i];
    var now := tables[t := tables[t] + batch];
    forall u, row: nat | u in now && row < |now[u]| ensures Inserted(all, u, row) {
      if row < |tables[u]| {
        assert Inserted(insertions, u, row);
        var k :| 0 <= k < |insertions| && Holds(insertions[k], u, row);
        assert Holds(all[k], u, row);
      } else {
        assert Holds(all[|insertions|], u, row);
      }
    }
  }

  ghost predicate AllFull<R>(names: set<TableName>, stream: seq<Item<R>>, insertions: seq<Insertion>) {
    forall k :: 0 <= k < |insertions| ==> FullInsertion(names, stream, insertions[k])
  }

  lemma AllFullAppend<R>(names: set<TableName>, stream: seq<Item<R>>, insertions: seq<Insertion>, i: Insertion)
    requires AllFull(names, stream, insertions) && FullInsertion(names, stream, i)
    ensures AllFull(names, stream, insertions + [i])
  {
  }

  ghost predicate Placed<R>(order: seq<TableName>, names: set<TableName>, stream: seq<Item<R>>, i: Insertion) {
    FullInsertion(names, stream, i) || exists k: nat :: RemainderInsertion(order, stream, k, i)
  }

  ghost predicate AllPlaced<R>(order: seq<TableName>, names: set<TableName>, stream: seq<Item<R>>,
      insertions: seq<Insertion>) {
    forall k :: 0 <= k < |insertions| ==> Placed(order, names, stream, insertions[k])
  }

  lemma AllPlacedAppend<R>(order: seq<TableName>, names: set<TableName>, stream: seq<Item<R>>,
                           insertions: seq<Insertion>, n: nat, i: Insertion)
    requires AllPlaced(order, names, stream, insertions) && RemainderInsertion(order, stream, n, i)
    ensures AllPlaced(order, names, stream, insertions + [i])
  {
  }

  /** The remainders of the first `n` tables are inserted, the others still buffered. */
  ghost predicate Flushed<R>(order: seq<TableName>, n: nat, stream: seq<Item<R>>, tables: Rows<R>, batches: Rows<R>) {
    forall m :: 0 <= m < |order| ==>
      && order[m] in tables && order[m] in batches
      && (m < n ==> tables[order[m]] == RowsOf(stream, order[m]))
      && (m >= n ==> BufferedTable(stream, order[m], tables[order[m]], batches[order[m]]))
  }

  lemma FlushStep<R>(order: seq<TableName>, n: nat, stream: seq<Item<R>>, tables: Rows<R>, batches: Rows<R>)
    requires Distinct(order) && n < |order| && Flushed(order, n, stream, tables, batches)
    ensures var t := order[n];
            var i := Insertion(t, |tables[t]|, |tables[t]| + |batches[t]|, |stream|, Sizes(tables));
            && RemainderInsertion(order, stream, n, i)
            && Flushed(order, n + 1, stream, tables[t := tables[t] + batches[t]], batches)
            && (|batches[t]| == 0 ==> Flushed(order, n + 1, stream, tables, batches))
  {
    var t := order[n];
    if |batches[t]| == 0 { assert tables[t] + batches[t] == tables[t]; }
    forall m | 0 <= m < |order| && m != n ensures order[m] != t { }
  }

  /** The state of an import after `read` records. */
  ghost predicate Importing<R>(stream: seq<Item<R>>, read: nat, tables: Rows<R>, batches: Rows<R>,
      insertions: seq<Insertion>) {
    && read <= |stream|
    && Buffered(stream[..read], tables, batches)
    && AllFull(tables.Keys, stream, insertions)
    && Covered(tables, insertions)
  }

  lemma ImportOneMore<R>(stream: seq<Item<R>>, n: nat, tables: Rows<R>, batches: Rows<R>, insertions: seq<Insertion>)
    requires Importing(stream, n, tables, batches, insertions) && n < |stream| && stream[n].table in tables
    ensures var t := stream[n].table;
            var batch := batches[t] + [stream[n].row];
            && (|batch| < BATCH_SIZE ==> Importing(stream, n + 1, tables, batches[t := batch], insertions))
            && (|batch| >= BATCH_SIZE ==>
                  && tables[t := tables[t] + batch].Keys == tables.Keys
                  && Importing(stream, n + 1, tables[t := tables[t] + batch], batches[t := batch][t := []],
                               insertions + [Insertion(t, |tables[t]|, |tables[t]| + |batch|, n + 1, Sizes(tables))]))
  {
    var t := stream[n].table;
    var batch := batches[t] + [stream[n].row];
    BufferStep(stream, n, tables, batches);
    if |batch| >= BATCH_SIZE {
      var i := Insertion(t, |tables[t]|, |tables[t]| + |batch|, n + 1, Sizes(tables));
      AllFullAppend(tables.Keys, stream, insertions, i);
      CoveredAppend(tables, insertions, t, batch, i);
      assert tables[t := tables[t] + batch].Keys == tables.Keys;
    }
  }

  /** The same for the state after the step. */
  lemma ImportStepped<R>(stream: seq<Item<R>>, n: nat, tables: Rows<R>, batches: Rows<R>, insertions: seq<Insertion>,
                         tables': Rows<R>, batches': Rows<R>, insertions': seq<Insertion>)
    requires Importing(stream, n, tables, batches, insertions) && n < |stream| && stream[n].table in tables
    requires var t := stream[n].table;
             var batch := batches[t] + [stream[n].row];
             if |batch| < BATCH_SIZE then
               tables' == tables && batches' == batches[t := batch] && insertions' == insertions
             else
               && tables' == tables[t := tables[t] + batch] && batches' == batches[t := batch][t := []]
               && insertions' == insertions + [Insertion(t, |tables[t]|, |tables[t]| + |batch|, n + 1, Sizes(tables))]
    ensures Importing(stream, n + 1, tables', batches', insertions') && tables'.Keys == tables.Keys
  {
    ImportOneMore(stream, n, tables, batches, insertions);
  }

  lemma BufferStep<R>(stream: seq<Item<R>>, n: nat, tables: Rows<R>, batches: Rows<R>)
    requires n < |stream| && stream[n].table in tables && Buffered(stream[..n], tables, batches)
    ensures var t := stream[n].table;
            var batch := batches[t] + [stream[n].row];
            && (|batch| < BATCH_SIZE ==> Buffered(stream[..n + 1], tables, batches[t := batch]))
            && (|batch| >= BATCH_SIZE ==>
                  && Buffered(stream[..n + 1], tables[t := tables[t] + batch], batches[t := batch][t := []])
                  && FullInsertion(tables.Keys, stream, Insertion(t, |tables[t]|, |tables[t]| + |batch|, n + 1, Sizes(tables))))
  {
    var t := stream[n].table;
    var batch := batches[t] + [stream[n].row];
    forall u | u in tables && u != t ensures RowsOf(stream[..n + 1], u) == RowsOf(stream[..n], u) {
      RowsOfOneMore(stream, n, u);
    }
    RowsOfOneMore(stream, n, t);
    assert BufferedTable(stream[..n], t, tables[t], batches[t]);
    Associative(tables[t], batches[t], [stream[n].row]);
    FullStep(|RowsOf(stream[..n], t)|, |tables[t]|, |batches[t]|);
    assert tables[t] + batch + [] == tables[t] + batch;
    forall u | u in tables && u != t ensures BufferedTable(stream[..n + 1], u, tables[u], batches[u]) {
      assert BufferedTable(stream[..n], u, tables[u], batches[u]);
    }
  }

  // ---------------------------------------------------------------- references at insert time

  /** Records come table by table, in the order of the schema. */
  ghost predicate InTableOrder<R>(order: seq<TableName>, stream: seq<Item<R>>) {
    forall i, j :: 0 <= i < j < |stream| ==> !Before(order, stream[j].table, stream[i].table)
  }

  lemma {:induction false} NoMoreRows<R>(stream: seq<Item<R>>, t: TableName, n: nat)
    requires n <= |stream| && forall i :: n <= i < |stream| ==> stream[i].table != t
    ensures RowsOf(stream, t) == RowsOf(stream[..n], t)
    decreases |stream|
  {
    if n == |stream| {
      assert stream[..n] == stream;
    } else {
      var m := |stream| - 1;
      assert stream[..m][..n] == stream[..n];
      NoMoreRows(stream[..m], t, n);
    }
  }

  lemma {:induction false} RowsOfPrefix<R>(stream: seq<Item<R>>, t: TableName, n: nat)
    requires n <= |stream|
    ensures |RowsOf(stream[..n], t)| <= |RowsOf(stream, t)|
    decreases |stream|
  {
    if n == |stream| {
      assert stream[..n] == stream;
    } else {
      var m := |stream| - 1;
      assert stream[..m][..n] == stream[..n];
      RowsOfPrefix(stream[..m], t, n);
    }
  }

  /** The statement finds every row of `parent` that one of its own rows refers to. */
  ghost predicate FindsParents<R>(stream: seq<Item<R>>, i: Insertion, parent: TableName, refers: (R, R) -> bool) {
    var children, parents := RowsOf(stream, i.table), RowsOf(stream, parent);
    forall c, p :: i.first <= c < i.last && c < |children| && 0 <= p < |parents| && refers(children[c], parents[p]) ==>
      parent in i.present && p < i.present[parent]
  }

  /** A row in a full batch of the child refers only into full batches of the parent. */
  ghost predicate FullRefersToFull<R>(stream: seq<Item<R>>, child: TableName, parent: TableName, refers: (R,
      R) -> bool) {
    var children, parents := RowsOf(stream, child), RowsOf(stream, parent);
    forall c, p :: 0 <= c < Full(|children|) && 0 <= p < |parents| && refers(children[c], parents[p]) ==>
      p < Full(|parents|)
  }

  /** What is present, and which rows are inserted, at a statement for `child`. */
  lemma StatementFacts<R>(order: seq<TableName>, names: set<TableName>, stream: seq<Item<R>>, i: Insertion, a: nat,
      b: nat)
    requires Distinct(order) && a < b < |order| && i.table == order[b] && order[a] in names
    requires InTableOrder(order, stream) && Placed(order, names, stream, i)
    ensures order[a] in i.present
    ensures var rows, parents := |RowsOf(stream, order[b])|, |RowsOf(stream, order[a])|;
            || (i.last <= Full(rows) && i.present[order[a]] == Full(parents))
            || (i.first == Full(rows) && i.present[order[a]] == parents)
  {
    if FullInsertion(names, stream, i) {
      forall k | i.read <= k < |stream| ensures stream[k].table != order[a] {
        assert !Before(order, stream[k].table, stream[i.read - 1].table);
      }
      NoMoreRows(stream, order[a], i.read);
      RowsOfPrefix(stream, order[b], i.read);
      MultipleBelow(i.last, |RowsOf(stream, order[b])|);
    } else {
      var k: nat :| RemainderInsertion(order, stream, k, i);
      assert order[k] == order[b];
      assert k == b;
    }
  }

  lemma MultipleBelow(m: nat, n: nat)
    requires m <= n && m % BATCH_SIZE == 0
    ensures m <= Full(n)
  {
  }

  /**
   With the rows streamed in table order, every insert statement for the child finds all the
   parents it needs exactly when no row in a full child batch refers to a parent in the
   parent's unfinished batch.
   */
  lemma InsertsFindParentsIff<R>(
    order: seq<TableName>, tables: Rows<R>, stream: seq<Item<R>>, insertions: seq<Insertion>,
    a: nat, b: nat, refers: (R, R) -> bool)
    requires Distinct(order) && a < b < |order| && order[a] in tables && order[b] in tables
    requires InTableOrder(order, stream) && AllPlaced(order, tables.Keys, stream, insertions)
    requires Covered(tables, insertions) && tables[order[b]] == RowsOf(stream, order[b])
    ensures (forall k :: 0 <= k < |insertions| && insertions[k].table == order[b] ==>
               FindsParents(stream, insertions[k], order[a], refers))
            <==> FullRefersToFull(stream, order[b], order[a], refers)
  {
    var children, parents := RowsOf(stream, order[b]), RowsOf(stream, order[a]);
    if FullRefersToFull(stream, order[b], order[a], refers) {
      forall k | 0 <= k < |insertions| && insertions[k].table == order[b]
        ensures FindsParents(stream, insertions[k], order[a], refers)
      {
        StatementFacts(order, tables.Keys, stream, insertions[k], a, b);
      }
    } else {
      var c, p :| 0 <= c < Full(|children|) && 0 <= p < |parents| && refers(children[c], parents[p]) && p >= Full(|parents|);
      var k := StatementOf(tables, insertions, order[b], c);
      StatementFacts(order, tables.Keys, stream, insertions[k], a, b);
    }
  }

  lemma StatementOf<R>(tables: Rows<R>, insertions: seq<Insertion>, t: TableName, row: nat) returns (k: nat)
    requires Covered(tables, insertions) && t in tables && row < |tables[t]|
    ensures k < |insertions| && Holds(insertions[k], t, row)
  {
    assert Inserted(insertions, t, row);
    k :| 0 <= k < |insertions| && Holds(insertions[k], t, row);
  }

  /** Small children and whole parents are always safe. */
  lemma SmallChildOrWholeParent<R>(stream: seq<Item<R>>, child: TableName, parent: TableName, refers: (R, R) -> bool)
    requires |RowsOf(stream, child)| < 250 || |RowsOf(stream, parent)| % 250 == 0
    ensures FullRefersToFull(stream, child, parent, refers)
  {
  }

  // ---------------------------------------------------------------- a full batch before its parent

  /** A row of the parent table, or a row of the child table that refers to it. */
  datatype Person = Owner | OwnedBy(owner: nat)

  predicate Refers(child: Person, parent: Person) { child == OwnedBy(0) && parent == Owner }

  /** One row of `parent`, and then `n` rows of `child` that all refer to it. */
  function OneOwner(parent: TableName, child: TableName, n: nat): (stream: seq<Item<Person>>)
    ensures |stream| == n + 1
    ensures forall k :: 0 <= k <= n ==> stream[k] == if k == 0 then Item(parent, Owner) else Item(child, OwnedBy(0))
  {
    seq(n + 1, k requires 0 <= k <= n => if k == 0 then Item(parent, Owner) else Item(child, OwnedBy(0)))
  }

  lemma {:induction false} OneOwnerRows(parent: TableName, child: TableName, n: nat)
    requires parent != child
    ensures RowsOf(OneOwner(parent, child, n), parent) == [Owner]
    ensures |RowsOf(OneOwner(parent, child, n), child)| == n
    ensures forall c :: 0 <= c < n ==> RowsOf(OneOwner(parent, child, n), child)[c] == OwnedBy(0)
  {
    var stream := OneOwner(parent, child, n);
    if n == 0 {
      assert stream[..0] == [];
    } else {
      OneOwnerRows(parent, child, n - 1);
      assert stream[..n] == OneOwner(parent, child, n - 1);
    }
  }

  /**
   With 250 rows that refer to one row of an earlier table, every log of an import has a statement that
   inserts the full batch while that one row is still in its buffer.
   */
  lemma FullBatchComesFirst(order: seq<TableName>, tables: Rows<Person>, insertions: seq<Insertion>, a: nat, b: nat)
      returns (k: nat)
    requires Distinct(order) && a < b < |order| && order[a] in tables && order[b] in tables
    requires AllPlaced(order, tables.Keys, OneOwner(order[a], order[b], 250), insertions)
    requires Covered(tables, insertions) && tables[order[b]] == RowsOf(OneOwner(order[a], order[b], 250), order[b])
    ensures InTableOrder(order, OneOwner(order[a], order[b], 250))
    ensures !FullRefersToFull(OneOwner(order[a], order[b], 250), order[b], order[a], Refers)
    ensures k < |insertions| && insertions[k].table == order[b]
    ensures !FindsParents(OneOwner(order[a], order[b], 250), insertions[k], order[a], Refers)
  {
    var parent, child := order[a], order[b];
    var stream := OneOwner(parent, child, BATCH_SIZE);
    OneOwnerRows(parent, child, BATCH_SIZE);
    OneOwnerInOrder(order, a, b);
    MissingParent(stream, child, parent);
    InsertsFindParentsIff(order, tables, stream, insertions, a, b, Refers);
    k :| 0 <= k < |insertions| && insertions[k].table == child && !FindsParents(stream, insertions[k], parent, Refers);
  }

  lemma MissingParent(stream: seq<Item<Person>>, child: TableName, parent: TableName)
    requires RowsOf(stream, parent) == [Owner] && |RowsOf(stream, child)| == BATCH_SIZE
    requires RowsOf(stream, child)[0] == OwnedBy(0)
    ensures !FullRefersToFull(stream, child, parent, Refers)
  {
    assert Refers(RowsOf(stream, child)[0], RowsOf(stream, parent)[0]);
  }

  lemma OneOwnerInOrder(order: seq<TableName>, a: nat, b: nat)
    requires Distinct(order) && a < b < |order|
    ensures InTableOrder(order, OneOwner(order[a], order[b], BATCH_SIZE))
  {
  }
}
