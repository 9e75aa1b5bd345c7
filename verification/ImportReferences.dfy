/**
 What the plan, the order of the stream and the batches give together: which insert statements of an
 import find the rows that their own rows refer to.
 */
module ImportReferences {
  import opened Common
  import opened ForeignKeyPlan
  import opened DatabaseStream
  import opened RowBatches
  import opened TableClearing
  import opened DatabaseReload

  /** Whether a row refers to another one through a foreign key. */
  type Reference = (Edge, DbRow, DbRow) -> bool

  /** A row whose column is NULL refers to nothing. */
  ghost predicate NullRefersToNothing(refers: Reference) {
    forall e, child, parent :: refers(e, child, parent) ==> e.column in child && child[e.column] != Nothing
  }

  function Via(refers: Reference, e: Edge): (DbRow, DbRow) -> bool {
    (child, parent) => refers(e, child, parent)
  }

  /** Every statement of the log that inserts rows of the edge's source finds the rows they refer to. */
  ghost predicate EdgeServed(rows: seq<StreamRow>, insertions: seq<Insertion>, refers: Reference, e: Edge) {
    forall k :: 0 <= k < |insertions| && insertions[k].table == e.source ==>
      FindsParents(rows, insertions[k], e.target, Via(refers, e))
  }

  /** What `Connection.Import` leaves in its log. */
  ghost predicate Imported(schema: Schema, rows: seq<StreamRow>, insertions: seq<Insertion>) {
    && AllPlaced(schema.tables, Names(schema), rows, insertions)
    && Covered(AllRows(Names(schema), rows), insertions)
  }

  ghost function Names(schema: Schema): set<TableName> { set t | t in schema.tables }

  /** Rows of a deferred column refer to nothing while they are inserted. */
  lemma DeferredIsServed(deferred: Deferred, stream: seq<StreamRow>, insertions: seq<Insertion>, refers: Reference, e: Edge)
    requires IsDeferred(deferred, e) && NullRefersToNothing(refers)
    ensures EdgeServed(ClearedStream(deferred, stream), insertions, refers, e)
  {
    var children := RowsOf(ClearedStream(deferred, stream), e.source);
    RowsOfCleared(deferred, stream, e.source);
    forall c, parent | 0 <= c < |children| ensures !refers(e, children[c], parent) {
      assert children[c] == Nulled(RowsOf(stream, e.source)[c], ColumnsOf(deferred, e.source));
    }
  }

  lemma ClearedInOrder(order: seq<TableName>, deferred: Deferred, stream: seq<StreamRow>)
    requires InTableOrder(order, stream)
    ensures InTableOrder(order, ClearedStream(deferred, stream))
  {
    var cleared := ClearedStream(deferred, stream);
    forall i, j | 0 <= i < j < |cleared| ensures !Before(order, cleared[j].table, cleared[i].table) {
      assert cleared[i].table == stream[i].table && cleared[j].table == stream[j].table;
    }
  }

  /** A kept edge is served exactly if no row of a full batch refers into the target's unfinished batch. */
  lemma KeptEdge(schema: Schema, rows: seq<StreamRow>, insertions: seq<Insertion>, refers: Reference, e: Edge)
    requires schema.WellFormed() && Before(schema.tables, e.target, e.source)
    requires InTableOrder(schema.tables, rows) && Imported(schema, rows, insertions)
    ensures EdgeServed(rows, insertions, refers, e) <==> FullRefersToFull(rows, e.source, e.target, Via(refers, e))
  {
    var a, b :| 0 <= a < b < |schema.tables| && schema.tables[a] == e.target && schema.tables[b] == e.source;
    InsertsFindParentsIff(schema.tables, AllRows(Names(schema), rows), rows, insertions, a, b, Via(refers, e));
  }

  /** No row of a full batch refers to a row that is buffered until the end, through any kept edge. */
  ghost predicate KeptReferToFull(schema: Schema, deferred: Deferred, rows: seq<StreamRow>, refers: Reference) {
    forall i :: 0 <= i < |schema.edges| && !IsDeferred(deferred, schema.edges[i]) ==>
      FullRefersToFull(rows, schema.edges[i].source, schema.edges[i].target, Via(refers, schema.edges[i]))
  }

  ghost predicate AllServed(schema: Schema, rows: seq<StreamRow>, insertions: seq<Insertion>, refers: Reference) {
    forall i :: 0 <= i < |schema.edges| ==> EdgeServed(rows, insertions, refers, schema.edges[i])
  }

  /**
   With a plan for the schema and the stream in table order, every insert statement of an import finds
   every row that its own rows refer to, through whatever foreign key, exactly if no row of a full batch
   refers through a kept column into an unfinished batch.
   */
  lemma ImportServesReferencesIff(
    schema: Schema, deferred: Deferred, stream: seq<StreamRow>, insertions: seq<Insertion>, refers: Reference)
    requires schema.WellFormed() && Ordered(schema, deferred) && NullRefersToNothing(refers)
    requires InTableOrder(schema.tables, stream) && Imported(schema, ClearedStream(deferred, stream), insertions)
    ensures AllServed(schema, ClearedStream(deferred, stream), insertions, refers)
       <==> KeptReferToFull(schema, deferred, ClearedStream(deferred, stream), refers)
  {
    ClearedInOrder(schema.tables, deferred, stream);
    forall i | 0 <= i < |schema.edges|
      ensures EdgeServed(ClearedStream(deferred, stream), insertions, refers, schema.edges[i])
         <==> (!IsDeferred(deferred, schema.edges[i]) ==>
                 FullRefersToFull(ClearedStream(deferred, stream), schema.edges[i].source, schema.edges[i].target,
                                  Via(refers, schema.edges[i])))
    {
      if IsDeferred(deferred, schema.edges[i]) {
        DeferredIsServed(deferred, stream, insertions, refers, schema.edges[i]);
      } else {
        KeptEdge(schema, ClearedStream(deferred, stream), insertions, refers, schema.edges[i]);
      }
    }
  }

  /** So it is where each kept edge leaves a table of fewer than 250 rows, or enters one of whole batches. */
  lemma SmallTablesAreServed(
    schema: Schema, deferred: Deferred, stream: seq<StreamRow>, insertions: seq<Insertion>, refers: Reference)
    requires schema.WellFormed() && Ordered(schema, deferred) && NullRefersToNothing(refers)
    requires InTableOrder(schema.tables, stream) && Imported(schema, ClearedStream(deferred, stream), insertions)
    requires forall i :: 0 <= i < |schema.edges| && !IsDeferred(deferred, schema.edges[i]) ==>
               |RowsOf(stream, schema.edges[i].source)| < 250
               || |RowsOf(stream, schema.edges[i].target)| % 250 == 0
    ensures AllServed(schema, ClearedStream(deferred, stream), insertions, refers)
  {
    var rows := ClearedStream(deferred, stream);
    forall i | 0 <= i < |schema.edges| && !IsDeferred(deferred, schema.edges[i])
      ensures FullRefersToFull(rows, schema.edges[i].source, schema.edges[i].target, Via(refers, schema.edges[i]))
    {
      var e := schema.edges[i];
      RowsOfCleared(deferred, stream, e.source);
      RowsOfCleared(deferred, stream, e.target);
      SmallChildOrWholeParent(rows, e.source, e.target, Via(refers, e));
    }
    ImportServesReferencesIff(schema, deferred, stream, insertions, refers);
  }

  lemma ReferencesInOrder(
    schema: Schema, deferred: Deferred, stream: seq<StreamRow>, insertions: seq<Insertion>, refers: Reference)
    requires schema.WellFormed() && Ordered(schema, deferred)
    requires Imported(schema, ClearedStream(deferred, stream), insertions)
    ensures NullRefersToNothing(refers) && InTableOrder(schema.tables, stream) ==>
              (AllServed(schema, ClearedStream(deferred, stream), insertions, refers)
               <==> KeptReferToFull(schema, deferred, ClearedStream(deferred, stream), refers))
  {
    if NullRefersToNothing(refers) && InTableOrder(schema.tables, stream) {
      ImportServesReferencesIff(schema, deferred, stream, insertions, refers);
    }
  }

  /** What is asked of the rows, whichever columns the plan defers. */
  ghost predicate Importable(schema: Schema, defs: Defs, stream: seq<StreamRow>)
    requires schema.WellFormed()
  {
    && defs.Keys == Names(schema)
    && forall deferred :: DefersCycles(schema, |schema.edges|, deferred) ==>
         WellFormedStream(defs, deferred, stream) && KeysKept(defs, deferred)
  }

  /**
   `_import_database_stream` from the plan on: a schema that cannot be served is refused before a row is
   touched; otherwise every table ends up with its rows of the stream, and the inserts on the way find the
   rows they refer to exactly under the condition above.
   */
  method ImportDatabase(
    connection: Connection, lib: Formats, schema: Schema, defs: Defs, stream: seq<StreamRow>, replaceExisting: bool,
    ghost refers: Reference)
    returns (r: Result<map<TableName, nat>, PlanError>, ghost deferred: Deferred)
    requires lib.Faithful() && schema.WellFormed() && Importable(schema, defs, stream)
    requires connection.tables.Keys == Names(schema)
    requires !replaceExisting ==> forall t :: t in connection.tables ==> connection.tables[t] == []
    modifies connection
    ensures r.Ok? <==> Servable(schema)
    ensures r.Err? ==> connection.tables == old(connection.tables)
    ensures r.Ok? ==>
              && DefersCycles(schema, |schema.edges|, deferred)
              && CountsAre(defs, stream, r.value)
              && connection.tables == AllRows(Names(schema), stream)
              && Imported(schema, ClearedStream(deferred, stream), connection.insertions)
    ensures r.Ok? && NullRefersToNothing(refers) && InTableOrder(schema.tables, stream) ==>
              (AllServed(schema, ClearedStream(deferred, stream), connection.insertions, refers)
               <==> KeptReferToFull(schema, deferred, ClearedStream(deferred, stream), refers))
  {
    deferred := map[];
    var plan := RestorePlan(schema);
    if plan.Err? { return Err(plan.error), deferred; }
    deferred := plan.value;
    var imported := connection.Import(lib, schema, defs, plan.value, stream, replaceExisting);
    r := Ok(imported.value);
    ReferencesInOrder(schema, deferred, stream, connection.insertions, refers);
  }
}
