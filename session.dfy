/** What the copy script sends to the destination connection: the statements
    it executes, in order, with the commits between them, and the effect
    each schema statement has on the destination catalog. */
module Session {

  import opened Wrappers
  import opened Text
  import opened Metadata

  /** `[schema].[table]`. */
  function Target(t: TableRef): string
  {
    Bracket(t.schema) + "." + Bracket(t.table)
  }

  datatype Event =
    | CreateSchema(schema: string)
    | DropTableIfExists(target: TableRef)
    | CreateTable(target: TableRef, columnDefs: seq<string>)
    | SetIdentityInsert(target: TableRef, on: bool)
    | InsertBatch(sql: string, rows: seq<Row>)
    | InsertFailed(sql: string, rows: seq<Row>)
    | AddPrimaryKey(target: TableRef, constraintName: string, clustered: bool, keyColumns: seq<string>)
    | Commit

  /** `CREATE TABLE [s].[t] (` with one clause per line. */
  function CreateTableSql(t: TableRef, columnDefs: seq<string>): string
  {
    "CREATE TABLE " + Target(t) + " (\n  " + Join(",\n  ", columnDefs) + "\n);"
  }

  function ClusteredKeyword(clustered: bool): string
  {
    if clustered then "CLUSTERED" else "NONCLUSTERED"
  }

  /** The T-SQL text the script executes for each event; a commit is a call
      on the connection, not a statement. */
  function StatementText(e: Event): string
    requires !e.Commit?
  {
    match e
    case CreateSchema(s) => "CREATE SCHEMA " + Bracket(s) + ";"
    case DropTableIfExists(t) =>
      "\nIF OBJECT_ID(N'" + Target(t) + "','U') IS NOT NULL\n    DROP TABLE " + Target(t) + ";\n"
    case CreateTable(t, defs) => CreateTableSql(t, defs)
    case SetIdentityInsert(t, on) =>
      "SET IDENTITY_INSERT " + Target(t) + (if on then " ON;" else " OFF;")
    case InsertBatch(sql, _) => sql
    case InsertFailed(sql, _) => sql
    case AddPrimaryKey(t, name, clustered, keys) =>
      "ALTER TABLE " + Target(t) + " ADD CONSTRAINT " + Bracket(name) + " PRIMARY KEY "
        + ClusteredKeyword(clustered) + " (" + Join(", ", keys) + ");"
  }

  /** Reads back the clause list of a `CREATE TABLE` statement for `t`. */
  function CreateTableClauses(sql: string, t: TableRef): Option<string>
  {
    var head, tail := "CREATE TABLE " + Target(t) + " (\n  ", "\n);";
    if |head| + |tail| <= |sql| && sql[..|head|] == head && sql[|sql| - |tail|..] == tail
    then Some(sql[|head|..|sql| - |tail|])
    else None
  }

  /** The CREATE TABLE statement names its target and carries the column
      clauses, one per line, in order and nothing else. */
  lemma CreateTableText(t: TableRef, columnDefs: seq<string>)
    ensures StatementText(CreateTable(t, columnDefs)) == CreateTableSql(t, columnDefs)
    ensures CreateTableClauses(CreateTableSql(t, columnDefs), t) == Some(Join(",\n  ", columnDefs))
  {
    var head := "CREATE TABLE " + Target(t) + " (\n  ";
    Middle(head, Join(",\n  ", columnDefs), "\n);");
  }

  /** Reads back an `ALTER TABLE … ADD CONSTRAINT` statement for `t` and the
      constraint `name`: whether the key is clustered, and the text of its
      column list. */
  function AddPrimaryKeyParts(sql: string, t: TableRef, name: string): Option<(bool, string)>
  {
    var head := "ALTER TABLE " + Target(t) + " ADD CONSTRAINT " + Bracket(name) + " PRIMARY KEY ";
    if |head| + 2 <= |sql| && sql[..|head|] == head && sql[|sql| - 2..] == ");" then
      var mid := sql[|head|..|sql| - 2];
      if |mid| >= 11 && mid[..11] == "CLUSTERED (" then Some((true, mid[11..]))
      else if |mid| >= 14 && mid[..14] == "NONCLUSTERED (" then Some((false, mid[14..]))
      else None
    else None
  }

  /** The key statement names the table and the constraint, says CLUSTERED
      exactly for a clustered key and NONCLUSTERED otherwise, and lists the
      key clauses joined by ", ". */
  lemma AddPrimaryKeyText(t: TableRef, name: string, clustered: bool, keys: seq<string>)
    ensures AddPrimaryKeyParts(StatementText(AddPrimaryKey(t, name, clustered, keys)), t, name) ==
              Some((clustered, Join(", ", keys)))
  {
    var head := "ALTER TABLE " + Target(t) + " ADD CONSTRAINT " + Bracket(name) + " PRIMARY KEY ";
    var k, j := ClusteredKeyword(clustered), Join(", ", keys);
    var mid := k + " (" + j;
    assert StatementText(AddPrimaryKey(t, name, clustered, keys)) == head + k + " (" + j + ");";
    Assoc(head, k, " (");
    Assoc(head, k + " (", j);
    Middle(head, mid, ");");
    var p := k + " (";
    assert mid[..|p|] == p && mid[|p|..] == j;
    if !clustered {
      assert mid[0] == 'N';
    }
  }

  /** `SET IDENTITY_INSERT` names the table and ends in ON exactly when it
      switches identity insert on, and in OFF exactly when it switches it
      off. */
  lemma IdentityInsertText(t: TableRef, on: bool)
    ensures var s := StatementText(SetIdentityInsert(t, on));
            var head := "SET IDENTITY_INSERT " + Target(t);
            |head| <= |s| && s[..|head|] == head
    ensures EndsWith(StatementText(SetIdentityInsert(t, on)), " ON;") <==> on
    ensures EndsWith(StatementText(SetIdentityInsert(t, on)), " OFF;") <==> !on
  {
    var head := "SET IDENTITY_INSERT " + Target(t);
    var s := StatementText(SetIdentityInsert(t, on));
    assert s == head + (if on then " ON;" else " OFF;");
    assert s[..|head|] == head;
    if on {
      assert s[|s| - 4..] == " ON;";
      assert s[|s| - 5..][1] == ' ';
    } else {
      assert s[|s| - 5..] == " OFF;";
      assert s[|s| - 4..][0] == 'O';
    }
  }

  /** The statements that change the catalog, and the commits between them. */
  predicate IsDdl(e: Event)
  {
    e.CreateSchema? || e.DropTableIfExists? || e.CreateTable? || e.AddPrimaryKey? || e.Commit?
  }

  predicate AllDdl(es: seq<Event>)
  {
    forall i :: 0 <= i < |es| ==> IsDdl(es[i])
  }

  /** Some statement of `es` drops a table. */
  predicate DropsTable(es: seq<Event>)
  {
    exists i :: 0 <= i < |es| && es[i].DropTableIfExists?
  }

  /** The statements of the copy stage, which move rows but leave the
      catalog as it is. */
  predicate IsDataEvent(e: Event)
  {
    e.SetIdentityInsert? || e.InsertBatch? || e.InsertFailed? || e.Commit?
  }

  /** The part of the destination catalog the script reads or changes: the
      schemas, each table's column clauses, and the tables with a primary
      key. */
  datatype Catalog = Catalog(
    schemas: set<string>,
    tables: map<TableRef, seq<string>>,
    primaryKeys: set<TableRef>)

  /** Effect of one event on the catalog. Dropping a table drops its key. */
  function Apply(c: Catalog, e: Event): Catalog
  {
    match e
    case CreateSchema(s) => c.(schemas := c.schemas + {s})
    case DropTableIfExists(t) => c.(tables := c.tables - {t}, primaryKeys := c.primaryKeys - {t})
    case CreateTable(t, defs) => c.(tables := c.tables[t := defs])
    case AddPrimaryKey(t, _, _, _) => c.(primaryKeys := c.primaryKeys + {t})
    case _ => c
  }

  function ApplyAll(c: Catalog, es: seq<Event>): Catalog
    decreases |es|
  {
    if es == [] then c else ApplyAll(Apply(c, es[0]), es[1..])
  }

  lemma {:induction false} ApplyAllConcat(c: Catalog, a: seq<Event>, b: seq<Event>)
    ensures ApplyAll(c, a + b) == ApplyAll(ApplyAll(c, a), b)
    decreases |a|
  {
    if a != [] {
      assert (a + b)[0] == a[0];
      assert (a + b)[1..] == a[1..] + b;
      ApplyAllConcat(Apply(c, a[0]), a[1..], b);
    } else {
      assert a + b == b;
    }
  }

  /** Data statements and commits leave the catalog unchanged. */
  lemma {:induction false} ApplyAllDataEvents(c: Catalog, es: seq<Event>)
    requires forall i :: 0 <= i < |es| ==> IsDataEvent(es[i])
    ensures ApplyAll(c, es) == c
    decreases |es|
  {
    if es != [] {
      assert IsDataEvent(es[0]);
      assert forall i :: 0 <= i < |es[1..]| ==> es[1..][i] == es[i + 1];
      ApplyAllDataEvents(c, es[1..]);
    }
  }
}
