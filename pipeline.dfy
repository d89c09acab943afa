/** The whole script for one table: read the source key, build the column
    clauses, recreate the table on the destination, copy the rows, and
    recreate the primary key. */
module Pipeline {

  import opened Wrappers
  import opened Metadata
  import opened Session
  import opened TableBuilder
  import opened BatchCopier
  import opened PrimaryKeyReplicator

  /** Everything one run sends to the destination, given the destination
      catalog it starts from, what the script read from the source (the
      column clauses, the insertable columns, whether there is an identity
      column, the key columns and whether the key is clustered), the batches
      read from the source and the batch whose insert fails, if any. A
      failed copy raises out of the script, so the key stage does not run.
      The key stage looks for a key on a table the run has just recreated,
      so it never finds one. */
  function RunEvents(c: Catalog, t: TableRef, colDefs: seq<string>, insertable: seq<string>, hasIdentity: bool, pkCols: seq<KeyColumn>, clustered: bool,
                     bs: seq<seq<Row>>, fail: Option<nat>): seq<Event>
    requires fail.Some? ==> fail.value < |bs|
  {
    TableStage(t, t.schema in c.schemas, colDefs)
      + CopyLog(t, hasIdentity, InsertSql(t, insertable), bs, fail)
      + (if fail.None? then PrimaryKeyEvents(t, pkCols, clustered, false) else [])
  }

  /** The copy stage leaves the catalog as the table stage left it. */
  lemma StageThenCopy(c: Catalog, t: TableRef, colDefs: seq<string>, hasIdentity: bool, sql: string,
                      bs: seq<seq<Row>>, fail: Option<nat>)
    requires fail.Some? ==> fail.value < |bs|
    ensures ApplyAll(c, TableStage(t, t.schema in c.schemas, colDefs) + CopyLog(t, hasIdentity, sql, bs, fail)) ==
              Catalog(c.schemas + {t.schema}, c.tables[t := colDefs], c.primaryKeys - {t})
  {
    var stage := TableStage(t, t.schema in c.schemas, colDefs);
    TableStageEffect(c, t, colDefs);
    ApplyAllConcat(c, stage, CopyLog(t, hasIdentity, sql, bs, fail));
    CopyLogKeepsCatalog(ApplyAll(c, stage), t, hasIdentity, sql, bs, fail);
  }

  /** After a run the schema exists and the table holds exactly the clauses
      of the source columns; it has a primary key exactly when the copy
      succeeded and the source has key columns. Nothing else changes. */
  lemma RunEffect(c: Catalog, t: TableRef, colDefs: seq<string>, insertable: seq<string>, hasIdentity: bool, pkCols: seq<KeyColumn>, clustered: bool,
                  bs: seq<seq<Row>>, fail: Option<nat>)
    requires fail.Some? ==> fail.value < |bs|
    ensures ApplyAll(c, RunEvents(c, t, colDefs, insertable, hasIdentity, pkCols, clustered, bs, fail)) ==
              Catalog(c.schemas + {t.schema}, c.tables[t := colDefs],
                      if fail.None? && pkCols != [] then c.primaryKeys + {t} else c.primaryKeys - {t})
  {
    var stage := TableStage(t, t.schema in c.schemas, colDefs);
    var copy := CopyLog(t, hasIdentity, InsertSql(t, insertable), bs, fail);
    var pk := if fail.None? then PrimaryKeyEvents(t, pkCols, clustered, false) else [];
    var all := RunEvents(c, t, colDefs, insertable, hasIdentity, pkCols, clustered, bs, fail);
    assert all == stage + copy + pk;
    var mid := Catalog(c.schemas + {t.schema}, c.tables[t := colDefs], c.primaryKeys - {t});
    StageThenCopy(c, t, colDefs, hasIdentity, InsertSql(t, insertable), bs, fail);
    ApplyAllConcat(c, stage + copy, pk);
    assert ApplyAll(c, all) == ApplyAll(mid, pk);
    if fail.None? {
      PrimaryKeyEventsEffect(mid, t, pkCols, clustered, false);
      assert mid.primaryKeys + {t} == c.primaryKeys + {t};
    } else {
      assert ApplyAll(mid, pk) == mid;
    }
  }

  /** Running the script again after a successful run leaves the destination
      catalog as the first run left it. */
  lemma RerunIdempotent(c: Catalog, t: TableRef, colDefs: seq<string>, insertable: seq<string>, hasIdentity: bool, pkCols: seq<KeyColumn>, clustered: bool,
                        bs: seq<seq<Row>>)
    ensures var once := ApplyAll(c, RunEvents(c, t, colDefs, insertable, hasIdentity, pkCols, clustered, bs, None));
            ApplyAll(once, RunEvents(once, t, colDefs, insertable, hasIdentity, pkCols, clustered, bs, None)) == once
  {
    var once := ApplyAll(c, RunEvents(c, t, colDefs, insertable, hasIdentity, pkCols, clustered, bs, None));
    RunEffect(c, t, colDefs, insertable, hasIdentity, pkCols, clustered, bs, None);
    RunEffect(once, t, colDefs, insertable, hasIdentity, pkCols, clustered, bs, None);
    assert once.tables[t := colDefs] == once.tables;
    if pkCols == [] {
      assert once.primaryKeys - {t} == once.primaryKeys;
    } else {
      assert once.primaryKeys + {t} == once.primaryKeys;
    }
  }

  /** What the script reads from the source catalog before it writes
      anything: the primary key, then the column clauses, the insertable
      columns and whether there is an identity column. */
  method ReadDefinition(cols: seq<Column>, pkRow: Option<PkInfo>, keyRows: seq<KeyRow>)
    returns (pkCols: seq<KeyColumn>, clustered: bool, colDefs: seq<string>, insertable: seq<string>, hasIdentity: bool)
    ensures pkCols == KeyColumnsOf(pkRow, keyRows) && clustered == IsClustered(pkRow)
    ensures colDefs == ColumnDefs(cols) && insertable == InsertableColumns(cols)
    ensures hasIdentity == HasIdentity(cols)
  {
    pkCols, clustered := CollectPrimaryKey(pkRow, keyRows);
    colDefs, insertable, hasIdentity := BuildColumnDefs(cols);
  }

  /** Makes sure the schema exists, then drops and recreates the table with
      the given clauses, committing after each statement. The dropped table
      takes its rows and its key with it. */
  method RecreateTable(s: CopySession, c: Catalog, t: TableRef, colDefs: seq<string>) returns (after: Catalog)
    requires s.Valid() && s.pending == []
    modifies s`committed, s`pending, s`log
    ensures s.Valid() && s.pending == [] && s.committed == []
    ensures s.log == old(s.log) + TableStage(t, t.schema in c.schemas, colDefs)
    ensures after == Catalog(c.schemas + {t.schema}, c.tables[t := colDefs], c.primaryKeys - {t})
  {
    var stage := TableStage(t, t.schema in c.schemas, colDefs);
    TableStageEffect(c, t, colDefs);
    s.Perform(stage);
    after := ApplyAll(c, stage);
  }

  /** Adds the source's primary key to the destination table unless the
      source has none or the destination table already has one. */
  method ReplicatePrimaryKey(s: CopySession, c: Catalog, t: TableRef, pkCols: seq<KeyColumn>, clustered: bool)
    returns (after: Catalog)
    requires s.Valid() && s.pending == []
    modifies s`committed, s`pending, s`log
    ensures s.Valid() && s.pending == [] && s.committed == old(s.committed)
    ensures s.log == old(s.log) + PrimaryKeyEvents(t, pkCols, clustered, t in c.primaryKeys)
    ensures after == if pkCols == [] then c else c.(primaryKeys := c.primaryKeys + {t})
  {
    var destHasPk := t in c.primaryKeys;
    var pk := PrimaryKeyEvents(t, pkCols, clustered, destHasPk);
    PrimaryKeyEventsShape(t, pkCols, clustered, destHasPk);
    PrimaryKeyEventsEffect(c, t, pkCols, clustered, destHasPk);
    s.Perform(pk);
    after := ApplyAll(c, pk);
    if destHasPk {
      assert c.primaryKeys + {t} == c.primaryKeys;
    }
  }

  lemma Regroup<T>(a: seq<T>, b: seq<T>, c: seq<T>, d: seq<T>)
    ensures a + b + c + d == a + (b + c + d)
  {
  }

  /** Recreates the table and copies the rows into it. The rows that reach
      the destination are those of the committed batches. */
  method RecreateAndCopy(s: CopySession, c: Catalog, t: TableRef, colDefs: seq<string>,
                         insertable: seq<string>, hasIdentity: bool)
    returns (r: CopyResult, mid: Catalog)
    requires s.Valid() && s.pending == []
    requires s.identityColumn == hasIdentity
    modifies s
    ensures s.Valid() && s.pending == []
    ensures mid == Catalog(c.schemas + {t.schema}, c.tables[t := colDefs], c.primaryKeys - {t})
    ensures var bs := Chunks(s.sourceRows);
            var fail := FailureIndex(|bs|, old(s.inserts) + 1, s.failAt);
            && s.log == old(s.log) + TableStage(t, t.schema in c.schemas, colDefs)
                 + CopyLog(t, hasIdentity, InsertSql(t, insertable), bs, fail)
            && s.committed == Flatten(CommittedBatches(bs, fail))
            && (fail.None? <==> r.Copied?)
            && (fail.None? ==> r == Copied(|s.sourceRows|) && s.cursor == |s.sourceRows|)
            && (fail.Some? ==> r == Failed(old(s.inserts) + 1 + fail.value))
            && s.inserts == old(s.inserts) + (if fail.None? then |bs| else fail.value + 1)
    ensures s.query == SelectSql(t, insertable)
    ensures s.identityInsert == if hasIdentity then false else old(s.identityInsert)
  {
    mid := RecreateTable(s, c, t, colDefs);
    r := s.CopyRows(t, insertable, hasIdentity);
    assert s.committed == [] + s.committed;
  }

  /** The writing half of a run against the session `s`, whose
      destination catalog starts as `c`: recreate the table, copy the rows,
      and, when the copy succeeded, add the key. Returns the outcome of the
      copy and the destination catalog at the end, which is where the events
      of the run lead (`RunEffect`). */
  method Replicate(s: CopySession, c: Catalog, t: TableRef, colDefs: seq<string>, insertable: seq<string>,
                   hasIdentity: bool, pkCols: seq<KeyColumn>, clustered: bool)
    returns (r: CopyResult, after: Catalog)
    requires s.Valid() && s.pending == []
    requires s.identityColumn == hasIdentity
    modifies s
    ensures s.Valid() && s.pending == []
    ensures var bs := Chunks(s.sourceRows);
            var fail := FailureIndex(|bs|, old(s.inserts) + 1, s.failAt);
            && s.log == old(s.log) + RunEvents(c, t, colDefs, insertable, hasIdentity, pkCols, clustered, bs, fail)
            && s.committed == Flatten(CommittedBatches(bs, fail))
            && (fail.None? ==> r == Copied(|s.sourceRows|) && s.committed == s.sourceRows)
            && (fail.None? ==> s.cursor == |s.sourceRows|)
            && (fail.Some? ==> r == Failed(old(s.inserts) + 1 + fail.value))
            && s.inserts == old(s.inserts) + (if fail.None? then |bs| else fail.value + 1)
    ensures s.query == SelectSql(t, insertable)
    ensures s.identityInsert == if hasIdentity then false else old(s.identityInsert)
    ensures after == Catalog(c.schemas + {t.schema}, c.tables[t := colDefs],
                             if r.Copied? && pkCols != [] then c.primaryKeys + {t} else c.primaryKeys - {t})
  {
    ghost var log0 := s.log;
    ghost var bs := Chunks(s.sourceRows);
    ghost var fail := FailureIndex(|bs|, s.inserts + 1, s.failAt);
    var mid;
    r, mid := RecreateAndCopy(s, c, t, colDefs, insertable, hasIdentity);
    ghost var stage := TableStage(t, t.schema in c.schemas, colDefs);
    ghost var copy := CopyLog(t, hasIdentity, InsertSql(t, insertable), bs, fail);
    ghost var pk: seq<Event> := [];
    after := mid;
    if r.Copied? {
      pk := PrimaryKeyEvents(t, pkCols, clustered, t in mid.primaryKeys);
      after := ReplicatePrimaryKey(s, mid, t, pkCols, clustered);
      assert mid.primaryKeys - {t} + {t} == c.primaryKeys + {t};
    }
    Regroup(log0, stage, copy, pk);
    if fail.None? {
      FlattenChunks(s.sourceRows);
    }
  }

  /** One run of the script for table `t`, from the source's column rows and
      key rows. */
  method CopyTable(s: CopySession, c: Catalog, t: TableRef, cols: seq<Column>,
                   pkRow: Option<PkInfo>, keyRows: seq<KeyRow>)
    returns (r: CopyResult, after: Catalog)
    requires s.Valid() && s.pending == []
    requires s.identityColumn == HasIdentity(cols)
    modifies s
    ensures s.Valid() && s.pending == []
    ensures var bs := Chunks(s.sourceRows);
            var fail := FailureIndex(|bs|, old(s.inserts) + 1, s.failAt);
            && s.log == old(s.log) + RunEvents(c, t, ColumnDefs(cols), InsertableColumns(cols), HasIdentity(cols),
                                               KeyColumnsOf(pkRow, keyRows), IsClustered(pkRow), bs, fail)
            && s.committed == Flatten(CommittedBatches(bs, fail))
            && (fail.None? ==> r == Copied(|s.sourceRows|) && s.committed == s.sourceRows)
            && (fail.None? ==> s.cursor == |s.sourceRows|)
            && (fail.Some? ==> r == Failed(old(s.inserts) + 1 + fail.value))
            && s.inserts == old(s.inserts) + (if fail.None? then |bs| else fail.value + 1)
    ensures s.query == SelectSql(t, InsertableColumns(cols))
    ensures s.identityInsert == if HasIdentity(cols) then false else old(s.identityInsert)
    ensures after == Catalog(c.schemas + {t.schema}, c.tables[t := ColumnDefs(cols)],
                             if r.Copied? && pkRow.Some? && keyRows != [] then c.primaryKeys + {t}
                             else c.primaryKeys - {t})
  {
    var pkCols, clustered, colDefs, insertable, hasIdentity := ReadDefinition(cols, pkRow, keyRows);
    r, after := Replicate(s, c, t, colDefs, insertable, hasIdentity, pkCols, clustered);
  }
}
