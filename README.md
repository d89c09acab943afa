# Table copy from ProjectManagement to Dev, modelled in Dafny

The script `CopyfromProjectManagementtoDev.py` copies one SQL Server table
(`[dim].[Employees]`) from a source database to a destination database. It
works in four stages:

1. It reads the source table's column metadata and its primary key: the
   key's index type and its key columns in key order.
2. It creates the schema on the destination when it is missing, and commits.
   It then turns each column into a `CREATE TABLE` clause with
   `format_sql_type`. Computed columns are declared `AS definition [PERSISTED]`
   and are not insertable. Finally it drops the destination table if it
   exists and creates it afresh, committing after each statement.
3. It copies the rows. One `SELECT` and one `INSERT … VALUES (?, …)` are built
   from the same list of insertable columns. Rows are fetched 5000 at a time
   and each batch is committed after its `executemany`. When the table has an
   identity column, `SET IDENTITY_INSERT … ON` comes before the loop and
   `OFF` (with a commit) comes in a `finally`, so it also runs when a batch
   fails.
4. It recreates the primary key as
   `ALTER TABLE … ADD CONSTRAINT [PK_schema_table] PRIMARY KEY [NON]CLUSTERED (…)`.
   The columns are listed in key order with `ASC`/`DESC`. This happens only
   when the source has a key and the destination table has none.

The model has these modules:

- `Metadata`: the rows the catalog queries return, taken as inputs.
- `TypeFormatter`: `format_sql_type`. It is split into `Classify`, which
  decides the declared type, and `Render`, which spells it. `ParseDecl`
  reads the text back.
- `TableBuilder`: the column loop and the schema/drop/create statements.
- `BatchCopier`: the two SQL statements, the batching, and the class
  `CopySession`. Its fields are the source cursor and the destination's
  committed and pending rows, identity-insert flag and statement log. It also
  holds an injected failing insert call.
- `PrimaryKeyReplicator`: the key columns and the constraint statement.
- `Session`: the statements sent to the destination, as `Event`s, and their
  effect on a destination `Catalog` (schemas, table clauses, tables with a
  key).
- `Pipeline`: the four stages in sequence.

Connections, the catalog queries and the row values themselves are inputs.
The script's constants `SCHEMA`/`TABLE` are the `TableRef` parameter. The
batch size is the constant `BatchCopier.Batch` (5000).

The header comment of the script says primary keys are not recreated. The
code that follows does recreate them, and the model follows the code. For
`datetime2`, `datetimeoffset` and `time`, a catalog scale of 0 is emitted as
scale 7, exactly as the code's `r.scale != 0` test does.

## Model

| member | source | states |
|---|---|---|
| TypeFormatter.ClassifyCases | CopyfromProjectManagementtoDev.py:87-120 | Case by case, the first-matching rule decides the declared type. text, ntext and image become varchar, nvarchar and varbinary with MAX. A variable-length type has MAX exactly for max_length -1. The length is halved for nvarchar/nchar. decimal/numeric carry precision and scale. The temporal types carry their scale, or 7 when it is NULL or 0. Every other name has no arguments and stays lower-cased. |
| TypeFormatter.FormatLegacyLob | CopyfromProjectManagementtoDev.py:88-96 | text, ntext and image are emitted as varchar(MAX), nvarchar(MAX) and varbinary(MAX). |
| TypeFormatter.FormatUnbounded | CopyfromProjectManagementtoDev.py:98-100 | A varchar/nvarchar/varbinary with max_length -1 is emitted as `dt(MAX)`. |
| TypeFormatter.FormatDeclaredLength | CopyfromProjectManagementtoDev.py:98-110 | A bounded character or binary type is emitted with its length: max_length // 2 for nvarchar and nchar, max_length otherwise. |
| TypeFormatter.FormatExactNumeric | CopyfromProjectManagementtoDev.py:112-113 | decimal and numeric are emitted as `dt(precision,scale)`. |
| TypeFormatter.FormatFractionalTime | CopyfromProjectManagementtoDev.py:115-117 | datetime2, datetimeoffset and time are emitted with their scale, or with 7 when the scale is NULL or 0. |
| TypeFormatter.FormatOther | CopyfromProjectManagementtoDev.py:119-120 | Every other type name, including a missing one, is emitted as the lower-cased name. There is no error case. |
| TypeFormatter.FormatSqlTypeMax | CopyfromProjectManagementtoDev.py:87-120 | The emitted type ends in `(MAX)` exactly when the declared type is unbounded. |
| TypeFormatter.FormatSqlTypeLastChar | CopyfromProjectManagementtoDev.py:87-120 | The emitted type never ends in an upper-case letter. |
| TypeFormatter.ParseRender | CopyfromProjectManagementtoDev.py:87-120 | Rendering a declared type is reversible: the name, the MAX marker, the length, precision/scale or fractional digits read back unchanged. |
| TypeFormatter.FormatSqlTypeParses | CopyfromProjectManagementtoDev.py:87-120 | Reading the emitted type back gives exactly the type the cascade decided, so the text carries every declared parameter. |
| Text.ParseIntToString | CopyfromProjectManagementtoDev.py:106-117 | The decimal numerals the f-strings print read back as the same integer, negative ones included. |
| TableBuilder.ComputedClause | CopyfromProjectManagementtoDev.py:138-142 | A computed column's clause is `[name] AS definition`, followed by ` PERSISTED` exactly when the source persists it. |
| TableBuilder.StoredClauseNullability | CopyfromProjectManagementtoDev.py:146-149 | A stored column's clause is its name, type and optional IDENTITY(1,1). It ends in ` NOT NULL` exactly when the column is not nullable, and in ` NULL` otherwise. |
| TableBuilder.BuildColumnDefs | CopyfromProjectManagementtoDev.py:131-153 | The loop yields one clause per column, in column order, each the column's clause. The insertable list is the bracketed names of the non-computed columns. The identity flag is set exactly when some non-computed column is an identity column. |
| TableBuilder.InsertableIsStoredSubsequence | CopyfromProjectManagementtoDev.py:136-151 | The insertable list is the order-preserving subsequence of the non-computed columns: its k-th entry names the k-th non-computed column, and every non-computed column appears. |
| TableBuilder.TableStageEffect | CopyfromProjectManagementtoDev.py:125-166 | After the schema/drop/create statements, the schema exists and the table holds exactly the new clauses. The table has no primary key, and nothing else in the catalog changed. The statements are all schema statements and one of them drops the table. |
| TableBuilder.TableStageIdempotent | CopyfromProjectManagementtoDev.py:125-166 | Running the table stage again on the catalog it produced changes nothing. |
| BatchCopier.SameColumnList | CopyfromProjectManagementtoDev.py:170-177 | For any column names, commas included, the SELECT's projection and the INSERT's target list are both exactly the joined column list `src_select_cols`. |
| BatchCopier.SelectInsertAgree | CopyfromProjectManagementtoDev.py:170-177 | The SELECT projection and the INSERT target list are the same text, the joined column list. There is one `?` per column. When no name holds a comma, the list splits back into the insertable columns. |
| BatchCopier.PlaceholderCount | CopyfromProjectManagementtoDev.py:176 | `", ".join(["?"] * n)` holds exactly n question marks. |
| BatchCopier.SplitJoin | CopyfromProjectManagementtoDev.py:170 | Joining non-empty, comma-free column names with ", " can be undone. |
| BatchCopier.ChunksBounded | CopyfromProjectManagementtoDev.py:186-189 | Every fetched batch is non-empty and holds at most 5000 rows; all but the last hold exactly 5000. |
| BatchCopier.FlattenChunks | CopyfromProjectManagementtoDev.py:186-192 | The batches, read in order, are exactly the source rows in fetch order. |
| BatchCopier.ChunkCount | CopyfromProjectManagementtoDev.py:186-189 | The number of batches is the row count divided by 5000, rounded up. |
| BatchCopier.ChunkPrefix | CopyfromProjectManagementtoDev.py:186-192 | The first j batches are exactly the first j·5000 rows. |
| BatchCopier.CommittedRows | CopyfromProjectManagementtoDev.py:186-192 | Without a failure every row reaches the destination. After a failure at batch k+1, exactly the first k·5000 rows do. |
| BatchCopier.CommitFollowsEachInsert | CopyfromProjectManagementtoDev.py:190-191 | In the copy stage's log every successful insert is directly followed by a commit. |
| BatchCopier.IdentityInsertScoped | CopyfromProjectManagementtoDev.py:181-197 | With an identity column, identity insert is switched on first and off (then committed) last, on success and on failure, and nowhere in between. Without one it is never touched. |
| BatchCopier.CopyLogKeepsCatalog | CopyfromProjectManagementtoDev.py:181-197 | The copy stage sends only data statements and commits, so it leaves the destination catalog unchanged. |
| BatchCopier.TwelveThousandRows | CopyfromProjectManagementtoDev.py:169-192 | 12000 rows are copied in batches of 5000, 5000 and 2000. A failure at the second insert leaves exactly the first 5000 rows in the destination. |
| BatchCopier.CopySession.ExecuteMany | CopyfromProjectManagementtoDev.py:190 | One insert call: it fails when it is the injected failing call, or when identity values meet a table whose identity insert is off. Otherwise it adds its rows to the pending ones. |
| BatchCopier.CopySession.OpenQuery | CopyfromProjectManagementtoDev.py:173-174 | Executing the SELECT on the source cursor sets the query and reads the result set from its start. |
| BatchCopier.CopySession.FetchMany | CopyfromProjectManagementtoDev.py:187 | `fetchmany(n)` returns the next at most n rows of the result set and advances the cursor past them. It returns nothing once the rows are used up. |
| BatchCopier.CopySession.Commit | CopyfromProjectManagementtoDev.py:191 | A commit makes the pending rows committed and logs the commit. |
| BatchCopier.CopySession.SetIdentityInsert | CopyfromProjectManagementtoDev.py:181-197 | Sets the identity-insert flag and logs the statement. |
| BatchCopier.CopySession.CopyNextBatch | CopyfromProjectManagementtoDev.py:187-192 | One pass of the loop. An empty fetch ends the loop and changes nothing. Otherwise the batch is inserted, then committed when the insert succeeds. |
| BatchCopier.CopySession.CopyBatches | CopyfromProjectManagementtoDev.py:185-192 | The fetch/insert/commit loop logs an insert and a commit for each batch before the failing one, plus the failing insert if there is one. The destination gains exactly those batches' rows. Without a failure the count is the number of source rows and the cursor is used up. |
| BatchCopier.CopySession.CopyRows | CopyfromProjectManagementtoDev.py:169-197 | The copy stage's log is the identity scope around the batch loop, and the destination gains the committed batches' rows. The result is the row count or the failing insert call. Identity insert is off on exit whenever it was switched on. |
| BatchCopier.CopySession.Perform | CopyfromProjectManagementtoDev.py:125-166 | Executing schema statements logs them in order and commits what the events commit. Dropping the table discards the rows it held. |
| PrimaryKeyReplicator.KeyColumnsOf | CopyfromProjectManagementtoDev.py:77-83 | `pk_cols` as a value: empty without a key row, otherwise one entry per key-column row. |
| PrimaryKeyReplicator.CollectPrimaryKey | CopyfromProjectManagementtoDev.py:77-83 | Without a key row there are no key columns and the key is not clustered. With one, there is a (name, descending) pair per key-column row, in key order, and the key is clustered exactly when the index type is 1. |
| PrimaryKeyReplicator.ConstraintName | CopyfromProjectManagementtoDev.py:212 | The constraint name is `PK_{schema}_{table}`: the prefix, the schema, an underscore and the table. |
| PrimaryKeyReplicator.KeyClauseDirection | CopyfromProjectManagementtoDev.py:209-210 | A key clause ends in DESC exactly for a descending column and in ASC exactly for an ascending one. |
| PrimaryKeyReplicator.ParseKeyClauseRoundTrip | CopyfromProjectManagementtoDev.py:209-210 | A key clause reads back as its column name and direction. |
| PrimaryKeyReplicator.KeyClauses | CopyfromProjectManagementtoDev.py:209-210 | There is one clause per key column, in key order, each reading back as that column. |
| PrimaryKeyReplicator.PrimaryKeyEventsShape | CopyfromProjectManagementtoDev.py:199-215 | Nothing is sent when the source has no key or the destination already has one. Otherwise the constraint is sent, followed by a commit. Its name is `PK_{schema}_{table}`, it is CLUSTERED exactly when the source's key is, and it lists every key column in order with its direction. |
| PrimaryKeyReplicator.PrimaryKeyStatementText | CopyfromProjectManagementtoDev.py:209-214 | The text of the key statement the stage sends reads back as the source key's clustered flag and its clauses in key order, joined by ", ". |
| PrimaryKeyReplicator.PrimaryKeyEventsEffect | CopyfromProjectManagementtoDev.py:199-215 | Adding the constraint gives the table a key and changes nothing else. |
| Session.CreateTableText | CopyfromProjectManagementtoDev.py:155-165 | The CREATE TABLE statement for `[schema].[table]` reads back as exactly the column clauses, joined one per line by ",\n  ". |
| Session.AddPrimaryKeyText | CopyfromProjectManagementtoDev.py:213-214 | The ALTER TABLE statement for the table and constraint reads back as the clustered flag and the key clause list joined by ", ". It says CLUSTERED exactly when the key is clustered, and NONCLUSTERED otherwise. |
| Session.IdentityInsertText | CopyfromProjectManagementtoDev.py:183-196 | `SET IDENTITY_INSERT [schema].[table]` ends in ON; exactly when switching on, and in OFF; exactly when switching off. |
| Session.ApplyAllConcat | CopyfromProjectManagementtoDev.py:125-215 | Running two lists of statements one after the other has the effect of running their concatenation. |
| Session.ApplyAllDataEvents | CopyfromProjectManagementtoDev.py:181-197 | Data statements and commits leave the destination catalog unchanged. |
| Pipeline.RunEffect | CopyfromProjectManagementtoDev.py:125-215 | After a run the schema exists and the table holds exactly the source's column clauses. It has a primary key exactly when the copy succeeded and the source has key columns. Nothing else changes. |
| Pipeline.RerunIdempotent | CopyfromProjectManagementtoDev.py:125-215 | Running the script again after a successful run leaves the destination catalog as the first run left it. |
| Pipeline.ReadDefinition | CopyfromProjectManagementtoDev.py:77-153 | The metadata read yields the key columns, the clustered flag, the column clauses, the insertable list and the identity flag as their definitions give them. |
| Pipeline.RecreateTable | CopyfromProjectManagementtoDev.py:125-166 | Stage 2 on a session: the table stage is logged, the dropped table's rows are gone, and the catalog has the schema and the new, keyless table. |
| Pipeline.ReplicatePrimaryKey | CopyfromProjectManagementtoDev.py:199-215 | Stage 4 on a session: the key statements are logged and committed rows are untouched. If the source has no key columns the catalog is unchanged. Otherwise the table has a key afterwards, whether it is added now or the destination already had one. |
| Pipeline.RecreateAndCopy | CopyfromProjectManagementtoDev.py:125-197 | Stages 2 and 3 on a session: both logs in order. The destination holds exactly the rows of the batches committed before the failing one, if any. The source query is the SELECT. Identity insert is off afterwards when the table has an identity column. The number of insert calls is the number of batches, or up to the failing one. Without a failure the source cursor is used up. |
| Pipeline.Replicate | CopyfromProjectManagementtoDev.py:125-215 | Stages 2 to 4 on a session, with the key stage run only after a successful copy. The log is `RunEvents`, and all source rows are committed when no insert failed. The query, identity-insert flag, insert-call count and cursor end as for `RecreateAndCopy`. |
| Pipeline.CopyTable | CopyfromProjectManagementtoDev.py:77-215 | The whole script on a session: its log is the table stage, the copy stage and (after a successful copy) the key stage. The destination holds the committed batches' rows: all source rows when no insert failed. The resulting catalog has the new table, with a key exactly when the copy succeeded and the source has key columns. Identity insert is off at the end when the table has an identity column, and the query, insert-call count and cursor are stated as for `RecreateAndCopy`. |

## Left out

- Connections, Azure AD sign-in and the catalog queries themselves: their results (column rows, key row, key-column rows, source rows) are inputs.
- Query semantics are not modelled: the SQL text of the SELECT and INSERT statements is built and compared as strings, and the destination's reaction to them is modelled only as the effects listed here.
- Row order and row contents: each row is an opaque value. The model does not check that a row holds one value per insertable column.
- `fast_executemany` is a driver performance switch with no effect on what is sent.
- The final `print` of the row count is left out; `CopyRows` returns the count instead.
- The constants `SCHEMA` and `TABLE` are the `TableRef` parameter, and the server and database names are left out.
- Text.Lower: `.lower()` is modelled for ASCII letters only.
- TypeFormatter.FormatSqlTypeParses: the read-back is proved only for type names without `(`. The type name comes from the user type, and a user-defined alias type may have a name with `(`, whose emitted text would not read back as its declared type.
- Text.Bracket: `]` inside a name is not escaped, exactly as in the script's f-strings.
- BatchCopier.CopySession.ExecuteMany: a failing `executemany` inserts none of its rows. Driver-level partial inserts are not modelled.
- Only the `executemany` call can fail in the model. `fetchmany`, every `commit`, the `SET IDENTITY_INSERT` statements, the schema, drop and create statements and the ALTER TABLE always succeed. The script's `finally` also runs on those failures, and a failing commit inside the loop would leave its batch pending for the commit in the `finally`. Those paths are not modelled.
- Pipeline.CopyTable: after a failing insert, the position of the source cursor is not stated. The script raises there and reads no further rows.
- Session.StatementText: the CREATE SCHEMA and DROP TABLE texts are given by their definition only; no lemma reads them back.
- The transactional behaviour of schema statements is reduced to the events' own effects. The schema statements are not rolled back.
- Pipeline.RunEvents: an insert failure raises out of the script after the `finally`, so the key stage does not run. The key stage's check for an existing key is modelled on the catalog. After the drop and recreate it never finds a key, so a recreated table always receives the constraint when the source has one.
- The structural comparison of the source key with any existing destination key is not modelled. The script only checks whether a key exists.
- TypeFormatter.Classify, TypeFormatter.FormatSqlType and TableBuilder.ColumnDef carry no contract of their own. What they compute is stated by the lemmas named in the table (ClassifyCases, the Format… lemmas, ComputedClause, StoredClauseNullability).
