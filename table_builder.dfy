/** The table stage of the copy script: one column clause per source column,
    the insertable (non-computed) column list, the identity flag, and the
    schema / drop / create statements sent to the destination. */
module TableBuilder {

  import opened Wrappers
  import opened Text
  import opened Metadata
  import opened TypeFormatter
  import opened Session

  /** `r.computed_definition or ""`. */
  function Definition(c: Column): string
  {
    if c.computedDefinition.Some? then c.computedDefinition.value else ""
  }

  /** `r.computed_persisted` is truthy only when it is a true bit. */
  predicate Persisted(c: Column)
  {
    c.computedPersisted == Some(true)
  }

  /** The clause of one column in CREATE TABLE. */
  function ColumnDef(c: Column): string
  {
    if c.isComputed then
      Bracket(c.name) + " AS " + Definition(c) + (if Persisted(c) then " PERSISTED" else "")
    else
      StoredHead(c) + (if c.isNullable then " NULL" else " NOT NULL")
  }

  /** A computed column is declared by its definition, and PERSISTED is
      appended when the source persists it. */
  lemma ComputedClause(c: Column)
    requires c.isComputed
    ensures var s := ColumnDef(c); var head := Bracket(c.name) + " AS " + Definition(c);
            |head| <= |s| && s[..|head|] == head
    ensures Persisted(c) ==> EndsWith(ColumnDef(c), " PERSISTED")
    ensures Persisted(c) ==> ColumnDef(c) == Bracket(c.name) + " AS " + Definition(c) + " PERSISTED"
    ensures !Persisted(c) ==> ColumnDef(c) == Bracket(c.name) + " AS " + Definition(c)
  {
    var s := ColumnDef(c);
    var head := Bracket(c.name) + " AS " + Definition(c);
    assert s == head + (if Persisted(c) then " PERSISTED" else "");
    assert s[..|head|] == head;
  }

  /** The stored-column clause without its nullability. */
  function StoredHead(c: Column): string
  {
    Bracket(c.name) + " " + FormatSqlType(c) + (if c.isIdentity then " IDENTITY(1,1)" else "")
  }

  /** A stored column's head never ends in an upper-case letter. */
  lemma StoredHeadLastChar(c: Column)
    ensures |StoredHead(c)| > 0 && !IsUpper(StoredHead(c)[|StoredHead(c)| - 1])
  {
    var h := StoredHead(c);
    var t := FormatSqlType(c);
    FormatSqlTypeLastChar(c);
    if c.isIdentity {
      assert h[|h| - 1] == ')';
    } else if |t| == 0 {
      assert h == Bracket(c.name) + " ";
    } else {
      assert h == Bracket(c.name) + " " + t;
      assert h[|h| - 1] == t[|t| - 1];
    }
  }

  /** " NULL" after a text that does not end in `T` never reads as
      " NOT NULL". */
  lemma NullabilitySuffix(h: string, nullable: bool)
    requires |h| > 0 && !IsUpper(h[|h| - 1])
    ensures EndsWith(h + (if nullable then " NULL" else " NOT NULL"), " NOT NULL") <==> !nullable
  {
    var s := h + (if nullable then " NULL" else " NOT NULL");
    if nullable {
      assert s[|s| - 6] == h[|h| - 1];
    } else {
      assert s[|s| - 9..] == " NOT NULL";
    }
  }

  /** A stored column's clause ends in NOT NULL exactly when the column is
      not nullable, and in NULL otherwise. */
  lemma StoredClauseNullability(c: Column)
    requires !c.isComputed
    ensures EndsWith(ColumnDef(c), " NOT NULL") <==> !c.isNullable
    ensures ColumnDef(c) == StoredHead(c) + (if c.isNullable then " NULL" else " NOT NULL")
  {
    assert ColumnDef(c) == StoredHead(c) + (if c.isNullable then " NULL" else " NOT NULL");
    StoredHeadLastChar(c);
    NullabilitySuffix(StoredHead(c), c.isNullable);
  }

  /** `col_defs`: the clauses of the columns, in column order. */
  function ColumnDefs(cols: seq<Column>): seq<string>
  {
    Map(ColumnDef, cols)
  }

  /** `insertable_cols`: the bracketed names of the non-computed columns, in
      column order. */
  function InsertableColumns(cols: seq<Column>): seq<string>
  {
    if cols == [] then []
    else
      var last := cols[|cols| - 1];
      InsertableColumns(cols[..|cols| - 1]) + (if last.isComputed then [] else [Bracket(last.name)])
  }

  /** Positions of the non-computed columns, in increasing order. */
  function StoredIndices(cols: seq<Column>): seq<nat>
  {
    if cols == [] then []
    else
      StoredIndices(cols[..|cols| - 1]) + (if cols[|cols| - 1].isComputed then [] else [|cols| - 1])
  }

  /** `has_identity`: some non-computed column is an identity column. */
  predicate HasIdentity(cols: seq<Column>)
  {
    exists i :: 0 <= i < |cols| && !cols[i].isComputed && cols[i].isIdentity
  }

  /** The k-th insertable name is that of the k-th non-computed column. */
  lemma {:induction false} StoredIndicesName(cols: seq<Column>)
    ensures |StoredIndices(cols)| == |InsertableColumns(cols)|
    ensures forall k :: 0 <= k < |StoredIndices(cols)| ==>
              StoredIndices(cols)[k] < |cols| && !cols[StoredIndices(cols)[k]].isComputed
              && InsertableColumns(cols)[k] == Bracket(cols[StoredIndices(cols)[k]].name)
  {
    if cols != [] {
      var n := |cols| - 1;
      var init := cols[..n];
      StoredIndicesName(init);
      var si, ic := StoredIndices(init), InsertableColumns(init);
      var st, ins := StoredIndices(cols), InsertableColumns(cols);
      forall k | 0 <= k < |st|
        ensures st[k] < |cols| && !cols[st[k]].isComputed && ins[k] == Bracket(cols[st[k]].name)
      {
        if k < |si| {
          assert st[k] == si[k] && ins[k] == ic[k];
          assert init[si[k]] == cols[si[k]];
        }
      }
    }
  }

  /** The non-computed columns are listed in increasing position. */
  lemma {:induction false} StoredIndicesIncrease(cols: seq<Column>)
    ensures forall k :: 0 <= k < |StoredIndices(cols)| ==> StoredIndices(cols)[k] < |cols|
    ensures forall k, l :: 0 <= k < l < |StoredIndices(cols)| ==>
              StoredIndices(cols)[k] < StoredIndices(cols)[l]
  {
    if cols != [] {
      var n := |cols| - 1;
      StoredIndicesIncrease(cols[..n]);
      var si, st := StoredIndices(cols[..n]), StoredIndices(cols);
      forall k | 0 <= k < |st| ensures st[k] < |cols| {
        if k < |si| {
          assert st[k] == si[k];
        }
      }
      forall k, l | 0 <= k < l < |st| ensures st[k] < st[l] {
        assert st[k] == si[k];
        if l < |si| {
          assert st[l] == si[l];
        }
      }
    }
  }

  /** Every non-computed column is listed. */
  lemma {:induction false} StoredIndicesComplete(cols: seq<Column>)
    ensures forall i :: 0 <= i < |cols| && !cols[i].isComputed ==> i in StoredIndices(cols)
  {
    if cols != [] {
      var n := |cols| - 1;
      var init := cols[..n];
      StoredIndicesComplete(init);
      var si, st := StoredIndices(init), StoredIndices(cols);
      forall i | 0 <= i < |cols| && !cols[i].isComputed ensures i in st {
        if i < n {
          assert init[i] == cols[i];
          assert i in si;
        } else {
          assert st[|st| - 1] == n;
        }
      }
    }
  }

  /** The insertable list is the order-preserving subsequence of the
      non-computed column names: its k-th entry names the k-th non-computed
      column, those columns appear in increasing position, and every
      non-computed column appears. */
  lemma InsertableIsStoredSubsequence(cols: seq<Column>)
    ensures |StoredIndices(cols)| == |InsertableColumns(cols)|
    ensures forall k :: 0 <= k < |StoredIndices(cols)| ==>
              StoredIndices(cols)[k] < |cols| && !cols[StoredIndices(cols)[k]].isComputed
              && InsertableColumns(cols)[k] == Bracket(cols[StoredIndices(cols)[k]].name)
    ensures forall k, l :: 0 <= k < l < |StoredIndices(cols)| ==>
              StoredIndices(cols)[k] < StoredIndices(cols)[l]
    ensures forall i :: 0 <= i < |cols| && !cols[i].isComputed ==> i in StoredIndices(cols)
  {
    StoredIndicesName(cols);
    StoredIndicesIncrease(cols);
    StoredIndicesComplete(cols);
  }

  /** Extending the walked prefix by one column extends the insertable list
      and the identity flag by that column alone. */
  lemma ColumnStep(cols: seq<Column>, i: nat)
    requires i < |cols|
    ensures InsertableColumns(cols[..i + 1]) ==
              InsertableColumns(cols[..i]) + (if cols[i].isComputed then [] else [Bracket(cols[i].name)])
    ensures HasIdentity(cols[..i + 1]) <==>
              HasIdentity(cols[..i]) || (!cols[i].isComputed && cols[i].isIdentity)
  {
    var next := cols[..i + 1];
    assert next[..i] == cols[..i];
    assert next[i] == cols[i];
    if HasIdentity(next) {
      var j :| 0 <= j < |next| && !next[j].isComputed && next[j].isIdentity;
      if j < i {
        assert cols[..i][j] == next[j];
      }
    }
    if HasIdentity(cols[..i]) {
      var j :| 0 <= j < i && !cols[..i][j].isComputed && cols[..i][j].isIdentity;
      assert next[j] == cols[..i][j];
    }
  }

  /** The loop of the table stage: walks the columns in column_id order,
      appending to `col_defs` and `insertable_cols` and setting
      `has_identity`. */
  method BuildColumnDefs(cols: seq<Column>)
    returns (colDefs: seq<string>, insertable: seq<string>, hasIdentity: bool)
    ensures colDefs == ColumnDefs(cols)
    ensures |colDefs| == |cols|
    ensures forall i :: 0 <= i < |cols| ==> colDefs[i] == ColumnDef(cols[i])
    ensures insertable == InsertableColumns(cols)
    ensures hasIdentity <==> HasIdentity(cols)
  {
    colDefs, insertable, hasIdentity := [], [], false;
    for i := 0 to |cols|
      invariant colDefs == ColumnDefs(cols[..i])
      invariant insertable == InsertableColumns(cols[..i])
      invariant hasIdentity <==> HasIdentity(cols[..i])
    {
      var r := cols[i];
      ColumnStep(cols, i);
      MapSnoc(ColumnDef, cols, i);
      if r.isComputed {
        var definition := Definition(r);
        var persisted := if Persisted(r) then " PERSISTED" else "";
        assert Bracket(r.name) + " AS " + definition + persisted == ColumnDef(r);
        colDefs := colDefs + [Bracket(r.name) + " AS " + definition + persisted];
        continue;
      }
      var sqlType := FormatSqlType(r);
      var identity := if r.isIdentity then " IDENTITY(1,1)" else "";
      var nullability := if r.isNullable then " NULL" else " NOT NULL";
      assert Bracket(r.name) + " " + sqlType + identity + nullability == ColumnDef(r);
      colDefs := colDefs + [Bracket(r.name) + " " + sqlType + identity + nullability];
      insertable := insertable + [Bracket(r.name)];
      if r.isIdentity {
        hasIdentity := true;
      }
    }
    assert cols[..|cols|] == cols;
  }

  /** The destination statements of the table stage: create the schema when
      missing, then drop the table if it exists and create it afresh, each
      step committed. */
  function TableStage(t: TableRef, schemaExists: bool, colDefs: seq<string>): seq<Event>
  {
    (if schemaExists then [] else [CreateSchema(t.schema), Commit])
      + [DropTableIfExists(t), Commit, CreateTable(t, colDefs), Commit]
  }

  /** After the table stage the schema exists, the table holds exactly the
      new clauses and has no primary key, and nothing else changed. */
  lemma TableStageEffect(c: Catalog, t: TableRef, colDefs: seq<string>)
    ensures ApplyAll(c, TableStage(t, t.schema in c.schemas, colDefs)) ==
              Catalog(c.schemas + {t.schema}, c.tables[t := colDefs], c.primaryKeys - {t})
    ensures AllDdl(TableStage(t, t.schema in c.schemas, colDefs))
    ensures DropsTable(TableStage(t, t.schema in c.schemas, colDefs))
  {
    var exists_ := t.schema in c.schemas;
    var pre: seq<Event> := if exists_ then [] else [CreateSchema(t.schema), Commit];
    var main := [DropTableIfExists(t), Commit, CreateTable(t, colDefs), Commit];
    assert TableStage(t, exists_, colDefs) == pre + main;
    assert TableStage(t, exists_, colDefs)[|pre|].DropTableIfExists?;
    ApplyAllConcat(c, pre, main);
    var c1 := ApplyAll(c, pre);
    assert c1 == c.(schemas := c.schemas + {t.schema}) by {
      if !exists_ {
        AppliedOneByOne(c, pre);
      } else {
        assert c.schemas + {t.schema} == c.schemas;
      }
    }
    AppliedOneByOne(c1, main);
    assert (c1.tables - {t})[t := colDefs] == c.tables[t := colDefs];
  }

  /** Unfolds `ApplyAll` over a list of at most four events. */
  lemma AppliedOneByOne(c: Catalog, es: seq<Event>)
    requires |es| <= 4
    ensures |es| == 2 ==> ApplyAll(c, es) == Apply(Apply(c, es[0]), es[1])
    ensures |es| == 4 ==>
              ApplyAll(c, es) == Apply(Apply(Apply(Apply(c, es[0]), es[1]), es[2]), es[3])
  {
    if |es| > 0 {
      var c0 := Apply(c, es[0]);
      assert ApplyAll(c, es) == ApplyAll(c0, es[1..]);
      if |es| > 1 {
        var c1 := Apply(c0, es[1]);
        assert ApplyAll(c0, es[1..]) == ApplyAll(c1, es[2..]);
        if |es| > 2 {
          var c2 := Apply(c1, es[2]);
          assert ApplyAll(c1, es[2..]) == ApplyAll(c2, es[3..]);
          if |es| > 3 {
            assert ApplyAll(c2, es[3..]) == ApplyAll(Apply(c2, es[3]), es[4..]);
          }
        }
      }
    }
  }

  /** Schema stage idempotence: because the table is dropped and recreated,
      a second run over the same metadata leaves the destination exactly as
      the first run left it. */
  lemma TableStageIdempotent(c: Catalog, t: TableRef, colDefs: seq<string>)
    ensures var once := ApplyAll(c, TableStage(t, t.schema in c.schemas, colDefs));
            ApplyAll(once, TableStage(t, t.schema in once.schemas, colDefs)) == once
  {
    var once := ApplyAll(c, TableStage(t, t.schema in c.schemas, colDefs));
    TableStageEffect(c, t, colDefs);
    TableStageEffect(once, t, colDefs);
    assert once.tables[t := colDefs] == once.tables;
  }
}
