/**
 `_import_database_stream`: all tables are emptied and filled again from a row stream inside
 one transaction. Cycle columns are cleared first and patched by primary key at the end.
 */
module DatabaseReload {
  import opened Common
  import opened ForeignKeyPlan
  import opened DatabaseStream
  import opened RowBatches
  import opened TableClearing

  type DbRow = map<ColumnName, Value>

  datatype TableDef = TableDef(columns: set<ColumnName>, key: set<ColumnName>)

  /** One row record of the stream, with its values decoded. */
  type StreamRow = Item<DbRow>

  function Nulled(row: DbRow, columns: set<ColumnName>): DbRow {
    map c | c in row :: if c in columns then Nothing else row[c]
  }

  /** A row keeps its columns; the cleared ones are NULL, and the others as they were. */
  lemma NulledKeepsRest(row: DbRow, columns: set<ColumnName>, c: ColumnName)
    ensures Nulled(row, columns).Keys == row.Keys
    ensures c in row && c in columns ==> Nulled(row, columns)[c] == Nothing
    ensures c in row && c !in columns ==> Nulled(row, columns)[c] == row[c]
  {
  }

  function NulledRows(rows: seq<DbRow>, columns: set<ColumnName>): (r: seq<DbRow>)
    ensures |r| == |rows| && forall i :: 0 <= i < |r| ==> r[i] == Nulled(rows[i], columns)
  {
    seq(|rows|, i requires 0 <= i < |rows| => Nulled(rows[i], columns))
  }

  function Restrict(row: DbRow, columns: set<ColumnName>): DbRow {
    map c | c in row && c in columns :: row[c]
  }

  // ---------------------------------------------------------------- what is asked of schema and stream

  type Defs = map<TableName, TableDef>

  /** Primary keys are never nullable, so no key column is deferred. */
  ghost predicate KeysKept(defs: Defs, deferred: Deferred) {
    forall t :: t in defs ==> defs[t].key * ColumnsOf(deferred, t) == {}
  }

  ghost predicate Scalar(v: Value) {
    !v.Enumerated? && !v.Tree?
  }

  ghost predicate RowFits(def: TableDef, deferred: set<ColumnName>, row: DbRow) {
    && row.Keys == def.columns && def.key <= def.columns && deferred <= def.columns
    && forall c :: c in def.key + deferred ==> Scalar(row[c])
  }

  /** Every row has the declared columns, and no two rows of a table share their primary key. */
  ghost predicate WellFormedStream(defs: Defs, deferred: Deferred, stream: seq<StreamRow>) {
    && (forall i :: 0 <= i < |stream| ==>
          stream[i].table in defs &&
          RowFits(defs[stream[i].table], ColumnsOf(deferred, stream[i].table), stream[i].row))
    && (forall i, j :: 0 <= i < j < |stream| && stream[i].table == stream[j].table ==>
          KeyOf(defs, stream[i]) != KeyOf(defs, stream[j]))
  }

  function KeyOf(defs: Defs, r: StreamRow): DbRow {
    if r.table in defs then Restrict(r.row, defs[r.table].key) else map[]
  }

  // ---------------------------------------------------------------- the deferred file

  /** One line of the deferred file: encoded primary key and encoded original values. */
  datatype Patch = Patch(table: TableName, key: map<ColumnName, Json>, values: map<ColumnName, Json>)

  function EncodedColumns(lib: Formats, row: DbRow): map<ColumnName, Json> {
    map c | c in row :: Payload(Encode(lib, row[c]))
  }

  function Decoded(r: Result<Value, StreamError>): Value {
    if r.Ok? then r.value else Nothing
  }

  function DecodedColumns(lib: Formats, row: map<ColumnName, Json>): DbRow {
    map c | c in row :: Decoded(Decode(lib, row[c]))
  }

  lemma ScalarEncodes(lib: Formats, v: Value)
    requires lib.Faithful() && Scalar(v)
    ensures Encode(lib, v).Ok? && Decode(lib, Encode(lib, v).value) == Ok(v)
  {
    RoundTrip(lib, v, false);
  }

  lemma PatchRoundTrip(lib: Formats, row: DbRow)
    requires lib.Faithful() && forall c :: c in row ==> Scalar(row[c])
    ensures DecodedColumns(lib, EncodedColumns(lib, row)) == row
  {
    forall c | c in row ensures DecodedColumns(lib, EncodedColumns(lib, row))[c] == row[c] {
      ScalarEncodes(lib, row[c]);
    }
  }

  function PatchFor(lib: Formats, defs: Defs, deferred: Deferred, r: StreamRow): Patch
    requires r.table in defs
  {
    Patch(r.table, EncodedColumns(lib, Restrict(r.row, defs[r.table].key)),
          EncodedColumns(lib, Restrict(r.row, ColumnsOf(deferred, r.table))))
  }

  /** `UPDATE table SET values WHERE key`, for one row. */
  function PatchedRow(lib: Formats, row: DbRow, def: TableDef, p: Patch): DbRow {
    if Restrict(row, def.key) == DecodedColumns(lib, p.key) then row + DecodedColumns(lib, p.values) else row
  }

  function PatchedRows(lib: Formats, rows: seq<DbRow>, def: TableDef, p: Patch): (r: seq<DbRow>)
    ensures |r| == |rows| && forall i :: 0 <= i < |r| ==> r[i] == PatchedRow(lib, rows[i], def, p)
  {
    seq(|rows|, i requires 0 <= i < |rows| => PatchedRow(lib, rows[i], def, p))
  }

  /** All patches of table `t` among the first `n`, applied to one row. */
  function PatchedBy(lib: Formats, row: DbRow, def: TableDef, t: TableName, patches: seq<Patch>, n: nat): DbRow
    requires n <= |patches|
  {
    if n == 0 then row
    else
      var before := PatchedBy(lib, row, def, t, patches, n - 1);
      if patches[n - 1].table == t then PatchedRow(lib, before, def, patches[n - 1]) else before
  }

  /** The patches that belong to the stream, in order. */
  function PatchesOf(lib: Formats, defs: Defs, deferred: Deferred, stream: seq<StreamRow>): seq<Patch>
    requires forall i :: 0 <= i < |stream| ==> stream[i].table in defs
  {
    if |stream| == 0 then []
    else
      var n := |stream| - 1;
      var before := PatchesOf(lib, defs, deferred, stream[..n]);
      if ColumnsOf(deferred, stream[n].table) == {} then before
      else before + [PatchFor(lib, defs, deferred, stream[n])]
  }

  lemma {:induction false} PatchOrigin(lib: Formats, defs: Defs, deferred: Deferred, stream: seq<StreamRow>, p: nat)
    returns (i: nat)
    requires forall k :: 0 <= k < |stream| ==> stream[k].table in defs
    requires p < |PatchesOf(lib, defs, deferred, stream)|
    ensures i < |stream| && PatchesOf(lib, defs, deferred, stream)[p] == PatchFor(lib, defs, deferred, stream[i])
    decreases |stream|
  {
    var n := |stream| - 1;
    if p < |PatchesOf(lib, defs, deferred, stream[..n])| {
      i := PatchOrigin(lib, defs, deferred, stream[..n], p);
    } else {
      i := n;
    }
  }

  lemma {:induction false} HasPatch(lib: Formats, defs: Defs, deferred: Deferred, stream: seq<StreamRow>, i: nat)
    returns (p: nat)
    requires forall k :: 0 <= k < |stream| ==> stream[k].table in defs
    requires i < |stream| && ColumnsOf(deferred, stream[i].table) != {}
    ensures p < |PatchesOf(lib, defs, deferred, stream)|
    ensures PatchesOf(lib, defs, deferred, stream)[p] == PatchFor(lib, defs, deferred, stream[i])
    decreases |stream|
  {
    var n := |stream| - 1;
    if i == n {
      p := |PatchesOf(lib, defs, deferred, stream[..n])|;
    } else {
      p := HasPatch(lib, defs, deferred, stream[..n], i);
    }
  }

  /** What patch number `p` does to the row of stream record `i`, cleared or already restored. */
  lemma OnePatch(lib: Formats, defs: Defs, deferred: Deferred, stream: seq<StreamRow>, p: nat, i: nat, row: DbRow)
    requires lib.Faithful() && WellFormedStream(defs, deferred, stream) && KeysKept(defs, deferred)
    requires i < |stream| && p < |PatchesOf(lib, defs, deferred, stream)|
    requires var cols := ColumnsOf(deferred, stream[i].table);
             row == Nulled(stream[i].row, cols) || row == stream[i].row
    ensures var t := stream[i].table;
            var patch := PatchesOf(lib, defs, deferred, stream)[p];
            patch.table == t ==>
              PatchedRow(lib, row, defs[t], patch) ==
              if patch == PatchFor(lib, defs, deferred, stream[i]) then stream[i].row else row
  {
    var t := stream[i].table;
    var cols := ColumnsOf(deferred, t);
    var patch := PatchesOf(lib, defs, deferred, stream)[p];
    var k := PatchOrigin(lib, defs, deferred, stream, p);
    if patch.table == t {
      PatchRoundTrip(lib, Restrict(stream[k].row, defs[t].key));
      PatchRoundTrip(lib, Restrict(stream[k].row, cols));
      KeySurvives(stream[i].row, defs[t].key, cols);
      assert Restrict(row, defs[t].key) == KeyOf(defs, stream[i]);
      if k == i {
        NulledPlusOriginal(stream[i].row, cols);
      } else {
        assert KeyOf(defs, stream[i]) != KeyOf(defs, stream[k]);
        PatchRoundTrip(lib, Restrict(stream[i].row, defs[t].key));
      }
    }
  }

  lemma KeySurvives(row: DbRow, key: set<ColumnName>, columns: set<ColumnName>)
    requires key * columns == {}
    ensures Restrict(Nulled(row, columns), key) == Restrict(row, key)
  {
    forall c | c in row && c in key ensures c !in columns {
      assert c !in key * columns;
    }
  }

  lemma NulledPlusOriginal(row: DbRow, columns: set<ColumnName>)
    ensures Nulled(row, columns) + Restrict(row, columns) == row
    ensures row + Restrict(row, columns) == row
  {
  }

  lemma {:induction false} PatchedByIs(
    lib: Formats, defs: Defs, deferred: Deferred, stream: seq<StreamRow>, i: nat, n: nat)
    requires lib.Faithful() && WellFormedStream(defs, deferred, stream) && KeysKept(defs, deferred)
    requires i < |stream| && n <= |PatchesOf(lib, defs, deferred, stream)|
    ensures var t := stream[i].table;
            var patches := PatchesOf(lib, defs, deferred, stream);
            PatchedBy(lib, Nulled(stream[i].row, ColumnsOf(deferred, t)), defs[t], t, patches, n) ==
            if PatchFor(lib, defs, deferred, stream[i]) in patches[..n] then stream[i].row
            else Nulled(stream[i].row, ColumnsOf(deferred, t))
    decreases n
  {
    if n > 0 {
      PatchedByIs(lib, defs, deferred, stream, i, n - 1);
      var t := stream[i].table;
      var patches := PatchesOf(lib, defs, deferred, stream);
      TakeOneMore(patches, n - 1);
      var before := PatchedBy(lib, Nulled(stream[i].row, ColumnsOf(deferred, t)), defs[t], t, patches, n - 1);
      OnePatch(lib, defs, deferred, stream, n - 1, i, before);
    }
  }

  /** After all the patches every cleared row is the streamed row again. */
  lemma PatchingRestores(lib: Formats, defs: Defs, deferred: Deferred, stream: seq<StreamRow>, i: nat)
    requires lib.Faithful() && WellFormedStream(defs, deferred, stream) && KeysKept(defs, deferred)
    requires i < |stream|
    ensures var t := stream[i].table;
            var patches := PatchesOf(lib, defs, deferred, stream);
            PatchedBy(lib, Nulled(stream[i].row, ColumnsOf(deferred, t)), defs[t], t, patches, |patches|) == stream[i].row
  {
    var t := stream[i].table;
    var patches := PatchesOf(lib, defs, deferred, stream);
    PatchedByIs(lib, defs, deferred, stream, i, |patches|);
    assert patches[..|patches|] == patches;
    if ColumnsOf(deferred, t) == {} {
      assert Nulled(stream[i].row, {}) == stream[i].row;
    } else {
      var p := HasPatch(lib, defs, deferred, stream, i);
    }
  }

  lemma {:induction false} RowsOrigin(stream: seq<StreamRow>, t: TableName, k: nat) returns (i: nat)
    requires k < |RowsOf(stream, t)|
    ensures i < |stream| && stream[i].table == t && stream[i].row == RowsOf(stream, t)[k]
    decreases |stream|
  {
    var n := |stream| - 1;
    if k < |RowsOf(stream[..n], t)| {
      i := RowsOrigin(stream[..n], t, k);
    } else {
      i := n;
    }
  }

  /** The cleared rows of a table, after the first `n` patches. */
  ghost function TableAfter(lib: Formats, defs: Defs, deferred: Deferred, stream: seq<StreamRow>, t: TableName,
      n: nat): (r: seq<DbRow>)
    requires forall i :: 0 <= i < |stream| ==> stream[i].table in defs
    requires t in defs && n <= |PatchesOf(lib, defs, deferred, stream)|
    ensures |r| == |RowsOf(stream, t)|
  {
    var rows := NulledRows(RowsOf(stream, t), ColumnsOf(deferred, t));
    var patches := PatchesOf(lib, defs, deferred, stream);
    seq(|rows|, i requires 0 <= i < |rows| => PatchedBy(lib, rows[i], defs[t], t, patches, n))
  }

  lemma TableRestored(lib: Formats, defs: Defs, deferred: Deferred, stream: seq<StreamRow>, t: TableName)
    requires lib.Faithful() && WellFormedStream(defs, deferred, stream) && KeysKept(defs, deferred)
    requires t in defs
    ensures var n := |PatchesOf(lib, defs, deferred, stream)|;
            TableAfter(lib, defs, deferred, stream, t, n) == RowsOf(stream, t)
  {
    var n := |PatchesOf(lib, defs, deferred, stream)|;
    var after := TableAfter(lib, defs, deferred, stream, t, n);
    forall k | 0 <= k < |after| ensures after[k] == RowsOf(stream, t)[k] {
      var i := RowsOrigin(stream, t, k);
      PatchingRestores(lib, defs, deferred, stream, i);
    }
  }

  // ---------------------------------------------------------------- the import

  type Tables = map<TableName, seq<DbRow>>

  function ReloadOps(): (ops: RowOps<DbRow>)
    ensures ops.Sound()
    ensures forall row, columns :: ops.nulled(row, columns) == Nulled(row, columns)
  {
    var ops := RowOps((row: DbRow, c: ColumnName) => c in row ==> row[c] == Nothing,
                      (row: DbRow, columns: set<ColumnName>) => Nulled(row, columns));
    assert forall row: DbRow :: Nulled(row, {}) == row;
    ops
  }

  /** The records as they are inserted: with the deferred columns NULL. */
  ghost function ClearedStream(deferred: Deferred, stream: seq<StreamRow>): (r: seq<StreamRow>)
    ensures |r| == |stream|
    ensures forall i :: 0 <= i < |r| ==> r[i] == ClearedItem(deferred, stream[i])
  {
    seq(|stream|, i requires 0 <= i < |stream| => ClearedItem(deferred, stream[i]))
  }

  function ClearedItem(deferred: Deferred, r: StreamRow): StreamRow {
    Item(r.table, Nulled(r.row, ColumnsOf(deferred, r.table)))
  }

  lemma {:induction false} RowsOfCleared(deferred: Deferred, stream: seq<StreamRow>, t: TableName)
    ensures RowsOf(ClearedStream(deferred, stream), t) == NulledRows(RowsOf(stream, t), ColumnsOf(deferred, t))
    decreases |stream|
  {
    if |stream| > 0 {
      var n := |stream| - 1;
      var cleared := ClearedStream(deferred, stream);
      assert cleared[..n] == ClearedStream(deferred, stream[..n]);
      RowsOfCleared(deferred, stream[..n], t);
      if stream[n].table == t {
        assert NulledRows(RowsOf(stream[..n], t) + [stream[n].row], ColumnsOf(deferred, t))
            == NulledRows(RowsOf(stream[..n], t), ColumnsOf(deferred, t)) + [cleared[n].row];
      }
    }
  }

  ghost predicate TableNames(stream: seq<StreamRow>, defs: Defs) {
    forall i :: 0 <= i < |stream| ==> stream[i].table in defs
  }

  /** The loop over the records: what is inserted, what is counted and what is put aside. */
  method ReadStream(lib: Formats, defs: Defs, deferred: Deferred, stream: seq<StreamRow>, inserter: Inserter<DbRow>)
    returns (patches: seq<Patch>, counts: map<TableName, nat>)
    requires TableNames(stream, defs) && inserter.Valid() && inserter.read == 0 && inserter.tables.Keys == defs.Keys
    requires inserter.stream == ClearedStream(deferred, stream)
    modifies inserter
    ensures inserter.Valid() && inserter.read == |stream| && inserter.tables.Keys == defs.Keys
    ensures inserter.stream == old(inserter.stream)
    ensures patches == PatchesOf(lib, defs, deferred, stream)
    ensures CountsAre(defs, stream, counts)
  {
    patches := [];
    counts := map t | t in defs :: 0;
    var n := 0;
    while n < |stream|
      invariant 0 <= n <= |stream|
      invariant ReadUpTo(lib, defs, deferred, stream, inserter, n, patches, counts)
      invariant inserter.stream == old(inserter.stream)
    {
      patches, counts := ReadOne(lib, defs, deferred, stream, n, inserter, patches, counts);
      n := n + 1;
    }
    assert stream[..n] == stream;
  }

  ghost predicate ReadUpTo(lib: Formats, defs: Defs, deferred: Deferred, stream: seq<StreamRow>,
                           inserter: Inserter<DbRow>, n: nat, patches: seq<Patch>, counts: map<TableName, nat>)
    requires n <= |stream| && TableNames(stream, defs)
    reads inserter
  {
    && inserter.Valid() && inserter.read == n && inserter.tables.Keys == defs.Keys
    && inserter.stream == ClearedStream(deferred, stream)
    && patches == PatchesOf(lib, defs, deferred, stream[..n])
    && CountsAre(defs, stream[..n], counts)
  }

  ghost predicate CountsAre(defs: Defs, stream: seq<StreamRow>, counts: map<TableName, nat>) {
    counts.Keys == defs.Keys && forall t :: t in counts ==> counts[t] == |RowsOf(stream, t)|
  }

  /** One row record. */
  method ReadOne(lib: Formats, defs: Defs, deferred: Deferred, stream: seq<StreamRow>, n: nat,
      inserter: Inserter<DbRow>,
                 patches0: seq<Patch>, counts0: map<TableName, nat>)
    returns (patches: seq<Patch>, counts: map<TableName, nat>)
    requires n < |stream| && TableNames(stream, defs)
    requires ReadUpTo(lib, defs, deferred, stream, inserter, n, patches0, counts0)
    modifies inserter
    ensures ReadUpTo(lib, defs, deferred, stream, inserter, n + 1, patches, counts)
    ensures inserter.stream == old(inserter.stream)
  {
    var item := stream[n];
    var columns := ColumnsOf(deferred, item.table);
    PatchesOneMore(lib, defs, deferred, stream, n);
    CountsOneMore(defs, stream, n, counts0);
    patches := if columns != {} then patches0 + [PatchFor(lib, defs, deferred, item)] else patches0;
    counts := counts0[item.table := counts0[item.table] + 1];
    assert inserter.stream[n] == Item(item.table, Nulled(item.row, columns));
    inserter.Accept(item.table, Nulled(item.row, columns));
  }

  lemma PatchesOneMore(lib: Formats, defs: Defs, deferred: Deferred, stream: seq<StreamRow>, n: nat)
    requires n < |stream| && TableNames(stream, defs)
    ensures PatchesOf(lib, defs, deferred, stream[..n + 1]) ==
              PatchesOf(lib, defs, deferred, stream[..n]) +
              (if ColumnsOf(deferred, stream[n].table) == {} then [] else [PatchFor(lib, defs, deferred, stream[n])])
  {
    assert stream[..n + 1][..n] == stream[..n];
  }

  lemma CountsOneMore(defs: Defs, stream: seq<StreamRow>, n: nat, counts: map<TableName, nat>)
    requires n < |stream| && stream[n].table in defs && CountsAre(defs, stream[..n], counts)
    ensures CountsAre(defs, stream[..n + 1], counts[stream[n].table := counts[stream[n].table] + 1])
  {
    forall t | t in counts ensures RowsOf(stream[..n + 1], t) ==
      if stream[n].table == t then RowsOf(stream[..n], t) + [stream[n].row] else RowsOf(stream[..n], t)
    {
      RowsOfOneMore(stream, n, t);
    }
  }

  /** One `UPDATE` by primary key. */
  method ApplyPatch(lib: Formats, defs: Defs, ghost deferred: Deferred, ghost stream: seq<StreamRow>,
                    tables: Tables, p: Patch, ghost n: nat) returns (patched: Tables)
    requires TableNames(stream, defs) && n < |PatchesOf(lib, defs, deferred, stream)|
    requires p == PatchesOf(lib, defs, deferred, stream)[n] && PatchedTables(lib, defs, deferred, stream, tables, n)
    ensures PatchedTables(lib, defs, deferred, stream, patched, n + 1)
  {
    PatchTables(lib, defs, deferred, stream, tables, n);
    patched := tables[p.table := PatchedRows(lib, tables[p.table], defs[p.table], p)];
  }

  /** The loop over the deferred file: one `UPDATE` by primary key for every patch. */
  method ApplyPatches(lib: Formats, defs: Defs, ghost deferred: Deferred, ghost stream: seq<StreamRow>,
                      start: Tables, patches: seq<Patch>) returns (tables: Tables)
    requires TableNames(stream, defs) && patches == PatchesOf(lib, defs, deferred, stream)
    requires PatchedTables(lib, defs, deferred, stream, start, 0)
    ensures PatchedTables(lib, defs, deferred, stream, tables, |patches|)
  {
    tables := start;
    var n := 0;
    while n < |patches|
      invariant 0 <= n <= |patches| && PatchedTables(lib, defs, deferred, stream, tables, n)
    {
      tables := ApplyPatch(lib, defs, deferred, stream, tables, patches[n], n);
      n := n + 1;
    }
  }

  lemma AllRestored(lib: Formats, defs: Defs, deferred: Deferred, stream: seq<StreamRow>, tables: Tables)
    requires lib.Faithful() && WellFormedStream(defs, deferred, stream) && KeysKept(defs, deferred)
    requires PatchedTables(lib, defs, deferred, stream, tables, |PatchesOf(lib, defs, deferred, stream)|)
    ensures forall t :: t in tables ==> tables[t] == RowsOf(stream, t)
  {
    forall t | t in tables ensures tables[t] == RowsOf(stream, t) {
      TableRestored(lib, defs, deferred, stream, t);
    }
  }

  ghost predicate PatchedTables(lib: Formats, defs: Defs, deferred: Deferred, stream: seq<StreamRow>, tables: Tables,
      n: nat)
    requires TableNames(stream, defs) && n <= |PatchesOf(lib, defs, deferred, stream)|
  {
    tables.Keys == defs.Keys && forall t :: t in tables ==> tables[t] == TableAfter(lib, defs, deferred, stream, t, n)
  }

  lemma PatchTables(lib: Formats, defs: Defs, deferred: Deferred, stream: seq<StreamRow>, tables: Tables, n: nat)
    requires TableNames(stream, defs) && n < |PatchesOf(lib, defs, deferred, stream)|
    requires PatchedTables(lib, defs, deferred, stream, tables, n)
    ensures var p := PatchesOf(lib, defs, deferred, stream)[n];
            && p.table in defs
            && PatchedTables(lib, defs, deferred, stream,
                             tables[p.table := PatchedRows(lib, tables[p.table], defs[p.table], p)], n + 1)
  {
    var p := PatchesOf(lib, defs, deferred, stream)[n];
    var i := PatchOrigin(lib, defs, deferred, stream, n);
    forall t | t in defs
      ensures TableAfter(lib, defs, deferred, stream, t, n + 1) ==
              if t == p.table then PatchedRows(lib, TableAfter(lib, defs, deferred, stream, t, n), defs[t], p)
              else TableAfter(lib, defs, deferred, stream, t, n)
    {
      PatchStep(lib, defs, deferred, stream, t, n);
    }
  }

  lemma PatchStep(lib: Formats, defs: Defs, deferred: Deferred, stream: seq<StreamRow>, t: TableName, n: nat)
    requires TableNames(stream, defs) && t in defs && n < |PatchesOf(lib, defs, deferred, stream)|
    ensures var p := PatchesOf(lib, defs, deferred, stream)[n];
            TableAfter(lib, defs, deferred, stream, t, n + 1) ==
            if t == p.table then PatchedRows(lib, TableAfter(lib, defs, deferred, stream, t, n), defs[t], p)
            else TableAfter(lib, defs, deferred, stream, t, n)
  {
  }

  datatype ImportError = RowCountsDiffer

  /** The tables after the `UPDATE` statements that clear the deferred columns. */
  ghost function ClearedTables(tables: Tables, deferred: Deferred): Tables {
    map t | t in tables :: ReloadOps().NulledRows(tables[t], ColumnsOf(deferred, t))
  }

  /** After the insertion every table holds its cleared rows, and no patch is applied yet. */
  lemma AllCleared(lib: Formats, defs: Defs, deferred: Deferred, stream: seq<StreamRow>)
    requires TableNames(stream, defs)
    ensures PatchedTables(lib, defs, deferred, stream, AllRows(defs.Keys, ClearedStream(deferred, stream)), 0)
  {
    forall t | t in defs ensures RowsOf(ClearedStream(deferred, stream), t) == NulledRows(RowsOf(stream, t), ColumnsOf(deferred, t)) {
      RowsOfCleared(deferred, stream, t);
    }
  }

  /** Adds the rows of the stream, with the deferred columns cleared, to empty tables. */
  method InsertInto(lib: Formats, order: seq<TableName>, defs: Defs, deferred: Deferred, stream: seq<StreamRow>,
      start: Tables)
    returns (patches: seq<Patch>, counts: map<TableName, nat>, tables: Tables, ghost insertions: seq<Insertion>)
    requires TableNames(stream, defs) && Distinct(order) && start.Keys == defs.Keys == (set t | t in order)
    requires forall t :: t in start ==> start[t] == []
    ensures patches == PatchesOf(lib, defs, deferred, stream) && CountsAre(defs, stream, counts)
    ensures tables == AllRows(defs.Keys, ClearedStream(deferred, stream))
    ensures AllPlaced(order, defs.Keys, ClearedStream(deferred, stream), insertions) && Covered(tables, insertions)
  {
    var inserter := new Inserter(start, ClearedStream(deferred, stream));
    patches, counts := ReadStream(lib, defs, deferred, stream, inserter);
    inserter.FlushRemainders(order);
    tables, insertions := inserter.tables, inserter.insertions;
  }

  class Connection {
    var tables: Tables
    ghost var deletions: seq<Tables>
    ghost var insertions: seq<Insertion>

    constructor (tables: Tables)
      ensures this.tables == tables
    {
      this.tables := tables;
      this.deletions := [];
      this.insertions := [];
    }

    /** The clearing and deleting statements that come before the stream is read. */
    method EmptyTables(schema: Schema, deferred: Deferred)
      requires schema.WellFormed() && Ordered(schema, deferred) && tables.Keys == (set t | t in schema.tables)
      modifies this`tables, this`deletions
      ensures tables.Keys == old(tables).Keys && forall t :: t in tables ==> tables[t] == []
      ensures |deletions| == |schema.tables|
      ensures DeletedInOrder(ReloadOps(), schema, ClearedTables(old(tables), deferred), deletions)
    {
      var cleaner := new Cleaner(ReloadOps(), tables);
      cleaner.ClearDeferred(schema.tables, deferred);
      assert cleaner.tables == ClearedTables(tables, deferred);
      cleaner.DeleteAll(schema, deferred);
      tables := cleaner.tables;
      deletions := cleaner.deletions;
    }

    /** Reads the stream and inserts its rows with the deferred columns cleared. */
    method InsertCleared(lib: Formats, order: seq<TableName>, defs: Defs, deferred: Deferred, stream: seq<StreamRow>)
      returns (patches: seq<Patch>, counts: map<TableName, nat>)
      requires lib.Faithful() && WellFormedStream(defs, deferred, stream)
      requires Distinct(order) && tables.Keys == defs.Keys == (set t | t in order)
      requires forall t :: t in tables ==> tables[t] == []
      modifies this`tables, this`insertions
      ensures patches == PatchesOf(lib, defs, deferred, stream) && CountsAre(defs, stream, counts)
      ensures tables == AllRows(defs.Keys, ClearedStream(deferred, stream))
      ensures AllPlaced(order, defs.Keys, ClearedStream(deferred, stream), insertions) && Covered(tables, insertions)
    {
      ghost var log;
      patches, counts, tables, log := InsertInto(lib, order, defs, deferred, stream, tables);
      insertions := log;
    }

    /** Insertion of the cleared rows, then the patches. */
    method FillTables(lib: Formats, order: seq<TableName>, defs: Defs, deferred: Deferred, stream: seq<StreamRow>)
      returns (counts: map<TableName, nat>)
      requires lib.Faithful() && WellFormedStream(defs, deferred, stream) && KeysKept(defs, deferred)
      requires Distinct(order) && tables.Keys == defs.Keys == (set t | t in order)
      requires forall t :: t in tables ==> tables[t] == []
      modifies this`tables, this`insertions
      ensures CountsAre(defs, stream, counts)
      ensures tables.Keys == defs.Keys && forall t :: t in tables ==> tables[t] == RowsOf(stream, t)
      ensures AllPlaced(order, defs.Keys, ClearedStream(deferred, stream), insertions)
      ensures Covered(AllRows(defs.Keys, ClearedStream(deferred, stream)), insertions)
    {
      var patches;
      patches, counts := InsertCleared(lib, order, defs, deferred, stream);
      AllCleared(lib, defs, deferred, stream);
      tables := ApplyPatches(lib, defs, deferred, stream, tables, patches);
      AllRestored(lib, defs, deferred, stream, tables);
    }

    /** `_import_database_stream`: every table ends up holding exactly the rows of the stream. */
    method Import(lib: Formats, schema: Schema, defs: Defs, deferred: Deferred, stream: seq<StreamRow>,
        replaceExisting: bool)
      returns (r: Result<map<TableName, nat>, ImportError>)
      requires lib.Faithful() && schema.WellFormed() && Ordered(schema, deferred)
      requires tables.Keys == defs.Keys == (set t | t in schema.tables)
      requires WellFormedStream(defs, deferred, stream) && KeysKept(defs, deferred)
      requires !replaceExisting ==> forall t :: t in tables ==> tables[t] == []
      modifies this
      ensures r.Ok? && CountsAre(defs, stream, r.value)
      ensures tables.Keys == defs.Keys && forall t :: t in tables ==> tables[t] == RowsOf(stream, t)
      ensures AllPlaced(schema.tables, defs.Keys, ClearedStream(deferred, stream), insertions)
      ensures Covered(AllRows(defs.Keys, ClearedStream(deferred, stream)), insertions)
    {
      if replaceExisting {
        EmptyTables(schema, deferred);
      }
      var expected := FillTables(lib, schema.tables, defs, deferred, stream);
      var actual := map t | t in tables :: |tables[t]|;
      assert actual.Keys == expected.Keys;
      if actual != expected {
        return Err(RowCountsDiffer);
      }
      return Ok(expected);
    }
  }
}
