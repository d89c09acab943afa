/** The primary-key stage: the key columns read from the source catalog, and
    the ALTER TABLE … ADD CONSTRAINT statement that recreates the key on the
    destination when the source has one and the destination does not. */
module PrimaryKeyReplicator {

  import opened Wrappers
  import opened Text
  import opened Metadata
  import opened Session

  /** One entry of `pk_cols`: a key column and its sort direction. */
  datatype KeyColumn = KeyColumn(name: string, descending: bool)

  function KeyColumnOf(r: KeyRow): KeyColumn
  {
    KeyColumn(r.colName, r.isDescendingKey)
  }

  /** `pk_cols` as a value: one entry per key-column row, in the order the
      rows come, and none when the table has no key. */
  function KeyColumnsOf(pkRow: Option<PkInfo>, keyRows: seq<KeyRow>): (pkCols: seq<KeyColumn>)
    ensures pkRow.None? ==> pkCols == []
    ensures pkRow.Some? ==> |pkCols| == |keyRows|
  {
    if pkRow.None? then [] else seq(|keyRows|, i requires 0 <= i < |keyRows| => KeyColumnOf(keyRows[i]))
  }

  /** `pk_is_clustered`. */
  function IsClustered(pkRow: Option<PkInfo>): bool
  {
    pkRow.Some? && pkRow.value.indexType == 1
  }

  /** The source's key, read from the primary-key row (absent when the
      table has none) and the key-column rows of its index, which the query
      returns in key_ordinal order. The key is clustered exactly when its
      index has type 1; without a key there are no key columns. */
  method CollectPrimaryKey(pkRow: Option<PkInfo>, keyRows: seq<KeyRow>)
    returns (pkCols: seq<KeyColumn>, clustered: bool)
    ensures pkRow.None? ==> pkCols == [] && !clustered
    ensures pkRow.Some? ==> clustered == (pkRow.value.indexType == 1)
    ensures pkRow.Some? ==> |pkCols| == |keyRows|
    ensures pkRow.Some? ==> forall i :: 0 <= i < |keyRows| ==> pkCols[i] == KeyColumnOf(keyRows[i])
    ensures pkCols == KeyColumnsOf(pkRow, keyRows) && clustered == IsClustered(pkRow)
  {
    pkCols, clustered := [], false;
    if pkRow.Some? {
      clustered := pkRow.value.indexType == 1;
      for i := 0 to |keyRows|
        invariant |pkCols| == i
        invariant forall j :: 0 <= j < i ==> pkCols[j] == KeyColumnOf(keyRows[j])
      {
        pkCols := pkCols + [KeyColumnOf(keyRows[i])];
      }
    }
  }

  /** `PK_{SCHEMA}_{TABLE}`. */
  function ConstraintName(t: TableRef): (s: string)
    ensures |s| == 4 + |t.schema| + |t.table| && s[..3] == "PK_"
    ensures s[3..3 + |t.schema|] == t.schema && s[3 + |t.schema|] == '_' && s[4 + |t.schema|..] == t.table
  {
    var s := "PK_" + t.schema + "_" + t.table;
    assert s[3..3 + |t.schema|] == t.schema;
    assert s[4 + |t.schema|..] == t.table;
    s
  }

  /** `[name] ASC` or `[name] DESC`. */
  function KeyClause(k: KeyColumn): string
  {
    Bracket(k.name) + (if k.descending then " DESC" else " ASC")
  }

  /** A clause ends in DESC exactly for a descending column and in ASC
      exactly for an ascending one. */
  lemma KeyClauseDirection(k: KeyColumn)
    ensures EndsWith(KeyClause(k), " DESC") <==> k.descending
    ensures EndsWith(KeyClause(k), " ASC") <==> !k.descending
  {
    var b := Bracket(k.name);
    var s := KeyClause(k);
    if k.descending {
      assert s[|s| - 5..] == " DESC";
      assert s[|s| - 4] == 'D';
    } else {
      assert s[|s| - 4..] == " ASC";
      assert s[|s| - 5] == b[|b| - 1];
    }
  }

  /** Reads a clause back: the bracketed name and its direction. */
  function ParseKeyClause(s: string): Option<KeyColumn>
  {
    if EndsWith(s, " DESC") then
      match Unbracket(s[..|s| - 5])
      case Some(n) => Some(KeyColumn(n, true))
      case None => None
    else if EndsWith(s, " ASC") then
      match Unbracket(s[..|s| - 4])
      case Some(n) => Some(KeyColumn(n, false))
      case None => None
    else None
  }

  function Unbracket(s: string): Option<string>
  {
    if |s| >= 2 && s[0] == '[' && s[|s| - 1] == ']' then Some(s[1..|s| - 1]) else None
  }

  /** The clause carries the column's name and direction and nothing else. */
  lemma ParseKeyClauseRoundTrip(k: KeyColumn)
    ensures ParseKeyClause(KeyClause(k)) == Some(k)
  {
    KeyClauseDirection(k);
    var b := Bracket(k.name);
    var s := KeyClause(k);
    if k.descending {
      assert s[..|s| - 5] == b;
    } else {
      assert s[..|s| - 4] == b;
    }
  }

  /** The clauses in key order. */
  function KeyClauses(pkCols: seq<KeyColumn>): (cs: seq<string>)
    ensures |cs| == |pkCols|
    ensures forall i :: 0 <= i < |pkCols| ==> ParseKeyClause(cs[i]) == Some(pkCols[i])
  {
    var cs := seq(|pkCols|, i requires 0 <= i < |pkCols| => KeyClause(pkCols[i]));
    forall i | 0 <= i < |pkCols| ensures ParseKeyClause(cs[i]) == Some(pkCols[i]) {
      ParseKeyClauseRoundTrip(pkCols[i]);
    }
    cs
  }

  /** What the stage sends: nothing when the source has no key or the
      destination already has one, otherwise the constraint and a commit. */
  function PrimaryKeyEvents(t: TableRef, pkCols: seq<KeyColumn>, clustered: bool, destHasPk: bool): seq<Event>
  {
    if pkCols == [] || destHasPk then []
    else [AddPrimaryKey(t, ConstraintName(t), clustered, KeyClauses(pkCols)), Commit]
  }

  /** The constraint is emitted exactly when the source has key columns and
      the destination has no key; it is named after the table, is clustered
      as the source's is, and lists every key column, in key order, with its
      direction. */
  lemma PrimaryKeyEventsShape(t: TableRef, pkCols: seq<KeyColumn>, clustered: bool, destHasPk: bool)
    ensures PrimaryKeyEvents(t, pkCols, clustered, destHasPk) == [] <==> pkCols == [] || destHasPk
    ensures AllDdl(PrimaryKeyEvents(t, pkCols, clustered, destHasPk))
    ensures !DropsTable(PrimaryKeyEvents(t, pkCols, clustered, destHasPk))
    ensures var es := PrimaryKeyEvents(t, pkCols, clustered, destHasPk);
            es != [] ==>
              && |es| == 2 && es[1] == Commit && es[0].AddPrimaryKey?
              && es[0].target == t && es[0].constraintName == "PK_" + t.schema + "_" + t.table
              && es[0].clustered == clustered
              && |es[0].keyColumns| == |pkCols|
              && forall i :: 0 <= i < |pkCols| ==>
                   ParseKeyClause(es[0].keyColumns[i]) == Some(pkCols[i])
                   && (EndsWith(es[0].keyColumns[i], " DESC") <==> pkCols[i].descending)
  {
    var es := PrimaryKeyEvents(t, pkCols, clustered, destHasPk);
    if es != [] {
      forall i | 0 <= i < |pkCols|
        ensures EndsWith(es[0].keyColumns[i], " DESC") <==> pkCols[i].descending
      {
        KeyClauseDirection(pkCols[i]);
      }
    }
  }

  /** The statement text of the stage reads back as the clustered flag of
      the source's key and its clauses in key order, joined by ", ". */
  lemma PrimaryKeyStatementText(t: TableRef, pkCols: seq<KeyColumn>, clustered: bool, destHasPk: bool)
    ensures var es := PrimaryKeyEvents(t, pkCols, clustered, destHasPk);
            es != [] ==>
              AddPrimaryKeyParts(StatementText(es[0]), t, "PK_" + t.schema + "_" + t.table) ==
                Some((clustered, Join(", ", KeyClauses(pkCols))))
  {
    var es := PrimaryKeyEvents(t, pkCols, clustered, destHasPk);
    if es != [] {
      AddPrimaryKeyText(t, ConstraintName(t), clustered, KeyClauses(pkCols));
    }
  }

  /** Adding the constraint gives the table a key and changes nothing else. */
  lemma PrimaryKeyEventsEffect(c: Catalog, t: TableRef, pkCols: seq<KeyColumn>, clustered: bool, destHasPk: bool)
    ensures var es := PrimaryKeyEvents(t, pkCols, clustered, destHasPk);
            ApplyAll(c, es) == if es == [] then c else c.(primaryKeys := c.primaryKeys + {t})
  {
    var es := PrimaryKeyEvents(t, pkCols, clustered, destHasPk);
    if es != [] {
      assert ApplyAll(c, es) == ApplyAll(Apply(c, es[0]), es[1..]);
      assert ApplyAll(Apply(c, es[0]), es[1..]) == ApplyAll(Apply(Apply(c, es[0]), es[1]), es[2..]);
    }
  }
}
