/** The copy stage: matching SELECT and INSERT statements over the
    insertable columns, and the loop that moves the rows in batches of at
    most 5000, committing after each batch, with IDENTITY_INSERT switched on
    around the loop and switched off again on every exit. */
module BatchCopier {

  import opened Wrappers
  import opened Text
  import opened Metadata
  import opened Session

  /** BATCH: the most rows one fetchmany call returns. */
  const Batch: nat := 5000

  function Min(a: int, b: int): int { if a <= b then a else b }

  // ---------------------------------------------------------------------
  // The two statements

  /** `src_select_cols`: the insertable columns joined by ", ". */
  function ColumnList(insertable: seq<string>): string
  {
    Join(", ", insertable)
  }

  function SelectSql(t: TableRef, insertable: seq<string>): string
  {
    "SELECT " + ColumnList(insertable) + " FROM " + Target(t)
  }

  /** `", ".join(["?"] * n)`. */
  function Placeholders(n: nat): string
  {
    Join(", ", Repeat("?", n))
  }

  function InsertSql(t: TableRef, insertable: seq<string>): string
  {
    "INSERT INTO " + Target(t) + " (" + ColumnList(insertable) + ") VALUES ("
      + Placeholders(|insertable|) + ")"
  }

  /** There is one `?` per insertable column. */
  lemma {:induction false} PlaceholderCount(n: nat)
    ensures Count('?', Placeholders(n)) == n
  {
    if n > 1 {
      PlaceholderCount(n - 1);
      assert Repeat("?", n)[1..] == Repeat("?", n - 1);
      CountConcat('?', "?", ", ");
      CountConcat('?', "?" + ", ", Placeholders(n - 1));
    }
  }

  /** Splits a list written by `ColumnList` back into its entries. */
  function SplitList(s: string): seq<string>
    decreases |s|
  {
    if s == [] then []
    else
      var i := IndexOf(s, ',');
      if i + 2 <= |s| then [s[..i]] + SplitList(s[i + 2..]) else [s]
  }

  predicate ListEntries(parts: seq<string>)
  {
    forall k :: 0 <= k < |parts| ==> |parts[k]| > 0 && ',' !in parts[k]
  }

  /** Splitting stops at the first comma of the list. */
  lemma SplitFirst(head: string, rest: string)
    requires ',' !in head
    ensures SplitList(head + ", " + rest) == [head] + SplitList(rest)
  {
    var s := head + ", " + rest;
    assert ", " == [','] + " ";
    Assoc(head, [','], " ");
    Assoc(head + [','], " ", rest);
    IndexOfAfter(head, ',', " " + rest);
    assert s[..|head|] == head;
    assert s[|head| + 2..] == rest;
  }

  /** Joining entries that are non-empty and hold no comma can be undone. */
  lemma {:induction false} SplitJoin(parts: seq<string>)
    requires ListEntries(parts)
    ensures SplitList(ColumnList(parts)) == parts
  {
    if |parts| == 1 {
      assert ColumnList(parts) == parts[0];
      assert IndexOf(parts[0], ',') == |parts[0]|;
    } else if |parts| > 1 {
      assert ColumnList(parts) == parts[0] + ", " + ColumnList(parts[1..]);
      SplitFirst(parts[0], ColumnList(parts[1..]));
      assert ListEntries(parts[1..]) by {
        forall k | 0 <= k < |parts[1..]| ensures |parts[1..][k]| > 0 && ',' !in parts[1..][k] {
          assert parts[1..][k] == parts[k + 1];
        }
      }
      SplitJoin(parts[1..]);
      assert parts == [parts[0]] + parts[1..];
    }
  }

  /** The projection of a `SELECT … FROM target` statement. */
  function SelectProjection(sql: string, t: TableRef): Option<string>
  {
    var head, tail := "SELECT ", " FROM " + Target(t);
    if |head| + |tail| <= |sql| && sql[..|head|] == head && sql[|sql| - |tail|..] == tail
    then Some(sql[|head|..|sql| - |tail|])
    else None
  }

  /** The target column list of an `INSERT INTO target (…) VALUES (…)`
      statement with `n` placeholders. */
  function InsertTargetList(sql: string, t: TableRef, n: nat): Option<string>
  {
    var head, tail := "INSERT INTO " + Target(t) + " (", ") VALUES (" + Placeholders(n) + ")";
    if |head| + |tail| <= |sql| && sql[..|head|] == head && sql[|sql| - |tail|..] == tail
    then Some(sql[|head|..|sql| - |tail|])
    else None
  }

  /** The SELECT's projection and the INSERT's target list are both the
      text `src_select_cols`, whatever the column names hold. */
  lemma SameColumnList(t: TableRef, insertable: seq<string>)
    ensures SelectProjection(SelectSql(t, insertable), t) == Some(ColumnList(insertable))
    ensures InsertTargetList(InsertSql(t, insertable), t, |insertable|) == Some(ColumnList(insertable))
  {
    var l := ColumnList(insertable);
    var shead, stail := "SELECT ", " FROM " + Target(t);
    assert SelectSql(t, insertable) == shead + l + stail;
    Middle(shead, l, stail);
    var ihead, itail := "INSERT INTO " + Target(t) + " (", ") VALUES (" + Placeholders(|insertable|) + ")";
    assert InsertSql(t, insertable) == ihead + l + itail;
    Middle(ihead, l, itail);
  }

  /** The SELECT reads, and the INSERT writes, the same columns in the same
      order, and the INSERT has exactly one placeholder per column. When no
      name holds a comma, the shared list also splits back into the
      columns. */
  lemma SelectInsertAgree(t: TableRef, insertable: seq<string>)
    ensures SelectProjection(SelectSql(t, insertable), t) == Some(ColumnList(insertable))
    ensures InsertTargetList(InsertSql(t, insertable), t, |insertable|) == Some(ColumnList(insertable))
    ensures ListEntries(insertable) ==> SplitList(ColumnList(insertable)) == insertable
    ensures Count('?', Placeholders(|insertable|)) == |insertable|
  {
    SameColumnList(t, insertable);
    if ListEntries(insertable) {
      SplitJoin(insertable);
    }
    PlaceholderCount(|insertable|);
  }

  // ---------------------------------------------------------------------
  // Batches

  /** The successive results of `fetchmany(BATCH)` over the rows. */
  function Chunks(rows: seq<Row>): seq<seq<Row>>
    decreases |rows|
  {
    if rows == [] then [] else [rows[..Min(Batch, |rows|)]] + Chunks(rows[Min(Batch, |rows|)..])
  }

  function Flatten(bs: seq<seq<Row>>): seq<Row>
  {
    if bs == [] then [] else bs[0] + Flatten(bs[1..])
  }

  lemma {:induction false} FlattenAppend(bs: seq<seq<Row>>, b: seq<Row>)
    ensures Flatten(bs + [b]) == Flatten(bs) + b
  {
    if bs != [] {
      assert (bs + [b])[1..] == bs[1..] + [b];
      FlattenAppend(bs[1..], b);
    } else {
      assert bs + [b] == [b];
    }
  }

  /** Every batch is non-empty and holds at most BATCH rows; all but the
      last hold exactly BATCH rows. */
  lemma {:induction false} ChunksBounded(rows: seq<Row>)
    ensures forall i :: 0 <= i < |Chunks(rows)| ==> 0 < |Chunks(rows)[i]| <= Batch
    ensures forall i :: 0 <= i < |Chunks(rows)| - 1 ==> |Chunks(rows)[i]| == Batch
    decreases |rows|
  {
    if rows != [] {
      var k := Min(Batch, |rows|);
      ChunksBounded(rows[k..]);
      var cs := Chunks(rows);
      assert cs == [rows[..k]] + Chunks(rows[k..]);
      assert forall i :: 1 <= i < |cs| ==> cs[i] == Chunks(rows[k..])[i - 1];
      if |rows| < Batch {
        assert rows[k..] == [];
      }
    }
  }

  /** The batches, read in order, are the rows in fetch order. */
  lemma {:induction false} FlattenChunks(rows: seq<Row>)
    ensures Flatten(Chunks(rows)) == rows
    decreases |rows|
  {
    if rows != [] {
      var k := Min(Batch, |rows|);
      FlattenChunks(rows[k..]);
      assert Chunks(rows)[1..] == Chunks(rows[k..]);
      assert rows == rows[..k] + rows[k..];
    }
  }

  /** The number of batches is the row count divided by BATCH, rounded up. */
  lemma {:induction false} ChunkCount(rows: seq<Row>)
    ensures |Chunks(rows)| == (|rows| + Batch - 1) / Batch
    decreases |rows|
  {
    if rows != [] {
      var k := Min(Batch, |rows|);
      ChunkCount(rows[k..]);
    }
  }

  /** The first j batches are exactly the first j * BATCH rows. */
  lemma {:induction false} ChunkPrefix(rows: seq<Row>, j: nat)
    requires j <= |Chunks(rows)|
    ensures Flatten(Chunks(rows)[..j]) == rows[..Min(j * Batch, |rows|)]
    decreases |rows|
  {
    if j == 0 {
      assert Chunks(rows)[..0] == [];
    } else {
      var k := Min(Batch, |rows|);
      var cs := Chunks(rows);
      ChunkPrefix(rows[k..], j - 1);
      assert cs[..j] == [rows[..k]] + Chunks(rows[k..])[..j - 1];
      assert cs[..j][1..] == Chunks(rows[k..])[..j - 1];
      var m := Min((j - 1) * Batch, |rows| - k);
      assert rows[k..][..m] == rows[k..k + m];
      if |rows| > Batch {
        assert Min(j * Batch, |rows|) == k + m;
      } else {
        assert j == 1 by {
          assert rows[k..] == [];
        }
      }
      assert rows[..k] + rows[k..k + m] == rows[..k + m];
    }
  }

  // ---------------------------------------------------------------------
  // The destination log the copy produces

  /** An insert followed by its commit, for each batch. */
  function InsertEvents(sql: string, bs: seq<seq<Row>>): seq<Event>
  {
    if bs == [] then [] else [InsertBatch(sql, bs[0]), Commit] + InsertEvents(sql, bs[1..])
  }

  lemma {:induction false} InsertEventsAppend(sql: string, bs: seq<seq<Row>>, b: seq<Row>)
    ensures InsertEvents(sql, bs + [b]) == InsertEvents(sql, bs) + [InsertBatch(sql, b), Commit]
  {
    if bs != [] {
      assert (bs + [b])[1..] == bs[1..] + [b];
      InsertEventsAppend(sql, bs[1..], b);
    } else {
      assert bs + [b] == [b];
    }
  }

  lemma {:induction false} InsertEventsAt(sql: string, bs: seq<seq<Row>>)
    ensures |InsertEvents(sql, bs)| == 2 * |bs|
    ensures forall j :: 0 <= j < |bs| ==>
              InsertEvents(sql, bs)[2 * j] == InsertBatch(sql, bs[j])
              && InsertEvents(sql, bs)[2 * j + 1] == Commit
  {
    if bs != [] {
      InsertEventsAt(sql, bs[1..]);
      var e := InsertEvents(sql, bs);
      assert e == [InsertBatch(sql, bs[0]), Commit] + InsertEvents(sql, bs[1..]);
      forall j | 1 <= j < |bs|
        ensures e[2 * j] == InsertBatch(sql, bs[j]) && e[2 * j + 1] == Commit
      {
        assert e[2 * j] == InsertEvents(sql, bs[1..])[2 * (j - 1)];
        assert e[2 * j + 1] == InsertEvents(sql, bs[1..])[2 * (j - 1) + 1];
      }
    }
  }

  /** Which batch (counted from 0) meets the injected failure, when the
      first batch is insert call number `first`. */
  function FailureIndex(n: nat, first: nat, failAt: Option<nat>): (f: Option<nat>)
    ensures f.Some? ==> f.value < n
  {
    if failAt.Some? && first <= failAt.value < first + n then Some(failAt.value - first) else None
  }

  /** The batches that reach the destination: all of them, or those before
      the failing one. */
  function CommittedBatches(bs: seq<seq<Row>>, fail: Option<nat>): seq<seq<Row>>
    requires fail.Some? ==> fail.value < |bs|
  {
    if fail.Some? then bs[..fail.value] else bs
  }

  function CopyEvents(sql: string, bs: seq<seq<Row>>, fail: Option<nat>): seq<Event>
    requires fail.Some? ==> fail.value < |bs|
  {
    InsertEvents(sql, CommittedBatches(bs, fail))
      + (if fail.Some? then [InsertFailed(sql, bs[fail.value])] else [])
  }

  /** The try/finally around the loop: identity insert on before it, off
      and committed after it, when the table has an identity column. */
  function IdentityScope(t: TableRef, hasIdentity: bool, body: seq<Event>): seq<Event>
  {
    if hasIdentity then [SetIdentityInsert(t, true)] + body + [SetIdentityInsert(t, false), Commit]
    else body
  }

  /** The whole log of the copy stage. */
  function CopyLog(t: TableRef, hasIdentity: bool, sql: string, bs: seq<seq<Row>>, fail: Option<nat>): seq<Event>
    requires fail.Some? ==> fail.value < |bs|
  {
    IdentityScope(t, hasIdentity, CopyEvents(sql, bs, fail))
  }

  /** Each successful insert in `log` is directly followed by a commit. */
  predicate CommitsFollowInserts(log: seq<Event>)
  {
    forall i :: 0 <= i < |log| && log[i].InsertBatch? ==> i + 1 < |log| && log[i + 1] == Commit
  }

  lemma CommitsFollowInsertsConcat(a: seq<Event>, b: seq<Event>)
    requires CommitsFollowInserts(a) && CommitsFollowInserts(b)
    requires a != [] ==> !a[|a| - 1].InsertBatch?
    ensures CommitsFollowInserts(a + b)
  {
    var s := a + b;
    forall i | 0 <= i < |s| && s[i].InsertBatch? ensures i + 1 < |s| && s[i + 1] == Commit {
      if i < |a| {
        assert a[i].InsertBatch?;
      } else {
        assert b[i - |a|].InsertBatch?;
      }
    }
  }

  lemma {:induction false} InsertEventsCommitted(sql: string, bs: seq<seq<Row>>)
    ensures CommitsFollowInserts(InsertEvents(sql, bs))
    ensures InsertEvents(sql, bs) != [] ==> InsertEvents(sql, bs)[|InsertEvents(sql, bs)| - 1] == Commit
  {
    if bs != [] {
      InsertEventsCommitted(sql, bs[1..]);
      var pair: seq<Event> := [InsertBatch(sql, bs[0]), Commit];
      CommitsFollowInsertsConcat(pair, InsertEvents(sql, bs[1..]));
    }
  }

  lemma CopyEventsCommitted(sql: string, bs: seq<seq<Row>>, fail: Option<nat>)
    requires fail.Some? ==> fail.value < |bs|
    ensures CommitsFollowInserts(CopyEvents(sql, bs, fail))
    ensures var body := CopyEvents(sql, bs, fail); body != [] ==> !body[|body| - 1].InsertBatch?
  {
    var ins := InsertEvents(sql, CommittedBatches(bs, fail));
    InsertEventsCommitted(sql, CommittedBatches(bs, fail));
    var tail: seq<Event> := if fail.Some? then [InsertFailed(sql, bs[fail.value])] else [];
    CommitsFollowInsertsConcat(ins, tail);
    var body := CopyEvents(sql, bs, fail);
    assert body == ins + tail;
    if fail.Some? {
      assert body[|body| - 1] == InsertFailed(sql, bs[fail.value]);
    } else {
      assert body == ins;
    }
  }

  /** Every successful insert is committed at once. */
  lemma CommitFollowsEachInsert(t: TableRef, hasIdentity: bool, sql: string, bs: seq<seq<Row>>, fail: Option<nat>)
    requires fail.Some? ==> fail.value < |bs|
    ensures CommitsFollowInserts(CopyLog(t, hasIdentity, sql, bs, fail))
  {
    var body := CopyEvents(sql, bs, fail);
    CopyEventsCommitted(sql, bs, fail);
    if hasIdentity {
      var on: seq<Event> := [SetIdentityInsert(t, true)];
      var off: seq<Event> := [SetIdentityInsert(t, false), Commit];
      assert CopyLog(t, hasIdentity, sql, bs, fail) == on + body + off;
      CommitsFollowInsertsConcat(on, body);
      CommitsFollowInsertsConcat(on + body, off);
    }
  }

  /** No event of the copy body switches identity insert. */
  lemma CopyEventsKeepIdentityInsert(sql: string, bs: seq<seq<Row>>, fail: Option<nat>)
    requires fail.Some? ==> fail.value < |bs|
    ensures forall i :: 0 <= i < |CopyEvents(sql, bs, fail)| ==>
              var e := CopyEvents(sql, bs, fail)[i]; e.InsertBatch? || e.InsertFailed? || e.Commit?
  {
    var done := CommittedBatches(bs, fail);
    InsertEventsAt(sql, done);
    var ins := InsertEvents(sql, done);
    forall i | 0 <= i < |ins| ensures ins[i].InsertBatch? || ins[i].Commit? {
      if i % 2 == 0 {
        assert ins[2 * (i / 2)] == InsertBatch(sql, done[i / 2]);
      } else {
        assert ins[2 * (i / 2) + 1] == Commit;
      }
    }
  }

  /** The copy stage sends only data statements and commits, so it leaves
      the catalog as the table stage left it. */
  lemma CopyLogKeepsCatalog(c: Catalog, t: TableRef, hasIdentity: bool, sql: string, bs: seq<seq<Row>>, fail: Option<nat>)
    requires fail.Some? ==> fail.value < |bs|
    ensures ApplyAll(c, CopyLog(t, hasIdentity, sql, bs, fail)) == c
  {
    CopyEventsKeepIdentityInsert(sql, bs, fail);
    var body := CopyEvents(sql, bs, fail);
    var log := CopyLog(t, hasIdentity, sql, bs, fail);
    if hasIdentity {
      assert forall i :: 0 < i < |log| - 2 ==> log[i] == body[i - 1];
    }
    assert forall i :: 0 <= i < |log| ==> IsDataEvent(log[i]);
    ApplyAllDataEvents(c, log);
  }

  /** Identity insert is switched on first, off (and committed) last, and
      nowhere in between; without an identity column it is never touched. */
  lemma IdentityInsertScoped(t: TableRef, hasIdentity: bool, sql: string, bs: seq<seq<Row>>, fail: Option<nat>)
    requires fail.Some? ==> fail.value < |bs|
    ensures var log := CopyLog(t, hasIdentity, sql, bs, fail);
            hasIdentity ==>
              && |log| >= 3
              && log[0] == SetIdentityInsert(t, true)
              && log[|log| - 2] == SetIdentityInsert(t, false)
              && log[|log| - 1] == Commit
              && forall i :: 0 < i < |log| - 2 ==> !log[i].SetIdentityInsert?
    ensures var log := CopyLog(t, hasIdentity, sql, bs, fail);
            !hasIdentity ==> forall i :: 0 <= i < |log| ==> !log[i].SetIdentityInsert?
  {
    CopyEventsKeepIdentityInsert(sql, bs, fail);
    var body := CopyEvents(sql, bs, fail);
    var log := CopyLog(t, hasIdentity, sql, bs, fail);
    if hasIdentity {
      assert forall i :: 0 < i < |log| - 2 ==> log[i] == body[i - 1];
    }
  }

  /** After a failure at batch k (counted from 1) exactly the first k-1
      batches, that is the first (k-1) * BATCH rows, are in the destination;
      without a failure all rows are. */
  lemma CommittedRows(rows: seq<Row>, fail: Option<nat>)
    requires fail.Some? ==> fail.value < |Chunks(rows)|
    ensures fail.None? ==> Flatten(CommittedBatches(Chunks(rows), fail)) == rows
    ensures fail.Some? ==>
              fail.value * Batch < |rows|
              && Flatten(CommittedBatches(Chunks(rows), fail)) == rows[..fail.value * Batch]
  {
    if fail.Some? {
      ChunkPrefix(rows, fail.value);
      ChunkPrefix(rows, fail.value + 1);
      ChunksBounded(rows);
      var cs := Chunks(rows);
      FlattenAppend(cs[..fail.value], cs[fail.value]);
      assert cs[..fail.value + 1] == cs[..fail.value] + [cs[fail.value]];
    } else {
      FlattenChunks(rows);
    }
  }

  /** One fetch of a non-empty batch takes the first batch off the rest. */
  lemma BatchAdvance(src: seq<Row>, at: nat, rows: seq<Row>, all: seq<seq<Row>>, done: seq<seq<Row>>)
    requires at <= |src| && rows != []
    requires rows == src[at..][..Min(Batch, |src| - at)]
    requires all == done + Chunks(src[at..])
    ensures at + |rows| <= |src|
    ensures all == (done + [rows]) + Chunks(src[at + |rows|..])
    ensures |done| < |all| && all[|done|] == rows && all[..|done|] == done
  {
    var rest := src[at..];
    assert rest[Min(Batch, |rest|)..] == src[at + |rows|..];
    var more := Chunks(src[at + |rows|..]);
    assert Chunks(rest) == [rows] + more;
    assert done + ([rows] + more) == (done + [rows]) + more;
  }

  /** A committed batch extends what was logged and kept by that batch. */
  lemma LoopAdvanced(rows: seq<Row>, done: seq<seq<Row>>, sql: string,
                     log0: seq<Event>, log1: seq<Event>, log2: seq<Event>,
                     kept0: seq<Row>, kept1: seq<Row>, kept2: seq<Row>)
    requires log1 == log0 + InsertEvents(sql, done)
    requires log2 == log1 + [InsertBatch(sql, rows), Commit]
    requires kept1 == kept0 + Flatten(done)
    requires kept2 == kept1 + rows
    ensures log2 == log0 + InsertEvents(sql, done + [rows])
    ensures kept2 == kept0 + Flatten(done + [rows])
  {
    FlattenAppend(done, rows);
    InsertEventsAppend(sql, done, rows);
  }

  /** The loop ends on an empty fetch only when no batch failed. */
  lemma LoopExhausted(src: seq<Row>, at: nat, all: seq<seq<Row>>, done: seq<seq<Row>>, first: nat, failAt: Option<nat>,
                      sql: string, log0: seq<Event>, log: seq<Event>, kept0: seq<Row>, kept: seq<Row>)
    requires at <= |src| && src[at..][..Min(Batch, |src| - at)] == []
    requires all == done + Chunks(src[at..])
    requires FailureIndex(|all|, first, failAt).Some? ==> |done| <= FailureIndex(|all|, first, failAt).value
    requires log == log0 + InsertEvents(sql, done)
    requires kept == kept0 + Flatten(done)
    ensures at == |src|
    ensures FailureIndex(|all|, first, failAt).None?
    ensures log == log0 + CopyEvents(sql, all, FailureIndex(|all|, first, failAt))
    ensures kept == kept0 + Flatten(CommittedBatches(all, FailureIndex(|all|, first, failAt)))
    ensures all == done
  {
    assert all == done;
  }

  /** The loop ends on a failing insert: that batch is the failing one. */
  lemma LoopFailed(sql: string, all: seq<seq<Row>>, done: seq<seq<Row>>, first: nat, failAt: Option<nat>,
                   log0: seq<Event>, log: seq<Event>, kept0: seq<Row>, kept: seq<Row>)
    requires |done| < |all| && all[..|done|] == done
    requires failAt == Some(first + |done|)
    requires log == log0 + InsertEvents(sql, done) + [InsertFailed(sql, all[|done|])]
    requires kept == kept0 + Flatten(done)
    ensures FailureIndex(|all|, first, failAt) == Some(|done|)
    ensures log == log0 + CopyEvents(sql, all, FailureIndex(|all|, first, failAt))
    ensures kept == kept0 + Flatten(CommittedBatches(all, FailureIndex(|all|, first, failAt)))
  {
    assert CommittedBatches(all, Some(|done|)) == done;
  }

  lemma IdentityBracket(log0: seq<Event>, t: TableRef, body: seq<Event>, log: seq<Event>)
    requires log == log0 + [SetIdentityInsert(t, true)] + body + [SetIdentityInsert(t, false)] + [Commit]
    ensures log == log0 + IdentityScope(t, true, body)
  {
  }

  datatype CopyResult = Copied(rowsCopied: nat) | Failed(batch: nat)

  /** The two connections as the copy stage sees them: the source cursor
      over the rows its SELECT returns, and the destination table with its
      committed and pending rows, its identity-insert setting and the log of
      what was sent to it. */
  class CopySession {
    var query: string
    const sourceRows: seq<Row>
    var cursor: nat
    var committed: seq<Row>
    var pending: seq<Row>
    var identityInsert: bool
    var log: seq<Event>
    var inserts: nat
    /** The destination table has an identity column. */
    const identityColumn: bool
    /** The insert call (counted from 1) that fails, if any. */
    const failAt: Option<nat>

    ghost predicate Valid()
      reads this
    {
      cursor <= |sourceRows|
    }

    constructor (sourceRows: seq<Row>, identityColumn: bool, failAt: Option<nat>)
      ensures Valid()
      ensures this.sourceRows == sourceRows && this.identityColumn == identityColumn
      ensures this.failAt == failAt
      ensures query == "" && cursor == 0 && committed == [] && pending == []
      ensures !identityInsert && log == [] && inserts == 0
    {
      this.sourceRows := sourceRows;
      this.identityColumn := identityColumn;
      this.failAt := failAt;
      query, cursor, committed, pending := "", 0, [], [];
      identityInsert, log, inserts := false, [], 0;
    }

    /** `cursor.execute(select)` on the source: the result set is read from
        its start. */
    method OpenQuery(sql: string)
      modifies this`query, this`cursor
      ensures Valid() && query == sql && cursor == 0
    {
      query, cursor := sql, 0;
    }

    /** `fetchmany(n)`: the next at most n rows; empty once they are used
        up. */
    method FetchMany(n: nat) returns (rows: seq<Row>)
      requires Valid()
      modifies this`cursor
      ensures Valid()
      ensures rows == old(sourceRows[cursor..][..Min(n, |sourceRows| - cursor)])
      ensures cursor == old(cursor) + |rows|
    {
      var k := Min(n, |sourceRows| - cursor);
      rows := sourceRows[cursor..][..k];
      cursor := cursor + k;
    }

    /** `executemany(insert, rows)` on the destination. It fails when it is
        the injected failing call, or when explicit identity values meet a
        table whose identity insert is off; a failed statement adds nothing. */
    method ExecuteMany(sql: string, rows: seq<Row>) returns (ok: bool)
      modifies this`pending, this`log, this`inserts
      ensures inserts == old(inserts) + 1
      ensures ok <==> failAt != Some(inserts) && (identityInsert || !identityColumn)
      ensures ok ==> pending == old(pending) + rows && log == old(log) + [InsertBatch(sql, rows)]
      ensures !ok ==> pending == old(pending) && log == old(log) + [InsertFailed(sql, rows)]
    {
      inserts := inserts + 1;
      ok := failAt != Some(inserts) && (identityInsert || !identityColumn);
      if ok {
        pending := pending + rows;
        log := log + [InsertBatch(sql, rows)];
      } else {
        log := log + [InsertFailed(sql, rows)];
      }
    }

    /** `dst_cnx.commit()`. */
    method Commit()
      modifies this`committed, this`pending, this`log
      ensures committed == old(committed) + old(pending) && pending == []
      ensures log == old(log) + [Event.Commit]
    {
      committed, pending := committed + pending, [];
      log := log + [Event.Commit];
    }

    /** `SET IDENTITY_INSERT [s].[t] ON;` or `OFF;`. */
    method SetIdentityInsert(t: TableRef, on: bool)
      modifies this`identityInsert, this`log
      ensures identityInsert == on && log == old(log) + [Event.SetIdentityInsert(t, on)]
    {
      identityInsert := on;
      log := log + [Event.SetIdentityInsert(t, on)];
    }

    /** Executes schema statements, each followed by its commit as the
        events say. Dropping the table discards its rows. */
    method Perform(es: seq<Event>)
      requires Valid() && pending == []
      requires AllDdl(es)
      modifies this`committed, this`pending, this`log
      ensures Valid() && pending == [] && log == old(log) + es
      ensures committed == if DropsTable(es) then [] else old(committed)
    {
      for i := 0 to |es|
        invariant pending == [] && log == old(log) + es[..i]
        invariant committed == if DropsTable(es[..i]) then [] else old(committed)
      {
        assert DropsTable(es[..i + 1]) <==> DropsTable(es[..i]) || es[i].DropTableIfExists? by {
          assert forall j :: 0 <= j < i ==> es[..i + 1][j] == es[..i][j];
          if es[i].DropTableIfExists? {
            assert es[..i + 1][i].DropTableIfExists?;
          }
        }
        if es[i].Commit? {
          Commit();
        } else {
          if es[i].DropTableIfExists? {
            committed := [];
          }
          log := log + [es[i]];
        }
        assert es[..i + 1] == es[..i] + [es[i]];
      }
      assert es[..|es|] == es;
    }

    /** One pass of the copy loop: fetch the next batch and, when there is
        one, insert it and commit. */
    method CopyNextBatch(insertSql: string) returns (rows: seq<Row>, ok: bool)
      requires Valid() && pending == []
      modifies this`cursor, this`committed, this`pending, this`log, this`inserts
      ensures Valid() && pending == []
      ensures rows == old(sourceRows[cursor..][..Min(Batch, |sourceRows| - cursor)])
      ensures cursor == old(cursor) + |rows|
      ensures rows == [] ==> ok && log == old(log) && committed == old(committed) && inserts == old(inserts)
      ensures rows != [] ==> inserts == old(inserts) + 1
      ensures rows != [] ==> (ok <==> failAt != Some(inserts) && (identityInsert || !identityColumn))
      ensures rows != [] && ok ==>
                committed == old(committed) + rows && log == old(log) + [InsertBatch(insertSql, rows), Event.Commit]
      ensures rows != [] && !ok ==>
                committed == old(committed) && log == old(log) + [InsertFailed(insertSql, rows)]
    {
      rows := FetchMany(Batch);
      if rows == [] {
        return rows, true;
      }
      ok := ExecuteMany(insertSql, rows);
      if ok {
        Commit();
      }
    }

    /** The state of the copy loop after the batches `done`: the rest of
        the result set still yields the remaining batches, no insert has
        failed yet, and each batch so far was inserted and committed. */
    ghost predicate CopyProgress(sql: string, all: seq<seq<Row>>, done: seq<seq<Row>>, first: nat,
                                 log0: seq<Event>, committed0: seq<Row>)
      reads this
    {
      && Valid() && pending == []
      && all == done + Chunks(sourceRows[cursor..])
      && inserts == first - 1 + |done|
      && (FailureIndex(|all|, first, failAt).Some? ==> |done| <= FailureIndex(|all|, first, failAt).value)
      && log == log0 + InsertEvents(sql, done)
      && committed == committed0 + Flatten(done)
    }

    /** The state of the copy loop once it has ended. */
    ghost predicate CopyFinished(sql: string, all: seq<seq<Row>>, first: nat, log0: seq<Event>, committed0: seq<Row>)
      reads this
    {
      && Valid() && pending == []
      && log == log0 + CopyEvents(sql, all, FailureIndex(|all|, first, failAt))
      && committed == committed0 + Flatten(CommittedBatches(all, FailureIndex(|all|, first, failAt)))
    }

    /** One pass of the copy loop, with the ghost bookkeeping that carries
        `CopyProgress` from one pass to the next or to `CopyFinished`. */
    method CopyStep(insertSql: string, ghost all: seq<seq<Row>>, ghost done: seq<seq<Row>>, ghost first: nat,
                    ghost log0: seq<Event>, ghost committed0: seq<Row>)
      returns (rows: seq<Row>, ok: bool)
      requires identityInsert || !identityColumn
      requires CopyProgress(insertSql, all, done, first, log0, committed0)
      modifies this`cursor, this`committed, this`pending, this`log, this`inserts
      ensures cursor == old(cursor) + |rows|
      ensures rows == [] ==>
                && cursor == |sourceRows| && FailureIndex(|all|, first, failAt).None?
                && inserts == old(inserts) && |done| == |all|
                && CopyFinished(insertSql, all, first, log0, committed0)
      ensures rows != [] && !ok ==>
                && inserts == first + |done| && FailureIndex(|all|, first, failAt) == Some(|done|)
                && CopyFinished(insertSql, all, first, log0, committed0)
      ensures rows != [] && ok ==> CopyProgress(insertSql, all, done + [rows], first, log0, committed0)
    {
      ghost var at, log1, committed1 := cursor, log, committed;
      rows, ok := CopyNextBatch(insertSql);
      if rows == [] {
        LoopExhausted(sourceRows, cursor, all, done, first, failAt, insertSql, log0, log, committed0, committed);
        return;
      }
      BatchAdvance(sourceRows, at, rows, all, done);
      if !ok {
        assert failAt == Some(inserts);
        LoopFailed(insertSql, all, done, first, failAt, log0, log, committed0, committed);
        return;
      }
      LoopAdvanced(rows, done, insertSql, log0, log1, log, committed0, committed1, committed);
    }

    /** The fetch/insert/commit loop over a freshly opened result set. The
        destination gains the rows of the batches before the failing one, if
        any; each of those batches is logged as an insert and its commit. */
    method CopyBatches(insertSql: string) returns (rowsCopied: nat, failed: Option<nat>)
      requires Valid() && cursor == 0 && pending == []
      requires identityInsert || !identityColumn
      modifies this`cursor, this`committed, this`pending, this`log, this`inserts
      ensures Valid() && pending == []
      ensures var bs := Chunks(sourceRows);
              var fail := FailureIndex(|bs|, old(inserts) + 1, failAt);
              && log == old(log) + CopyEvents(insertSql, bs, fail)
              && committed == old(committed) + Flatten(CommittedBatches(bs, fail))
              && (fail.None? ==> failed.None? && rowsCopied == |sourceRows| && cursor == |sourceRows|)
              && (fail.Some? ==> failed == Some(old(inserts) + 1 + fail.value))
              && inserts == old(inserts) + (if fail.None? then |bs| else fail.value + 1)
    {
      ghost var all := Chunks(sourceRows);
      ghost var first := inserts + 1;
      ghost var log0 := log;
      ghost var committed0 := committed;
      ghost var done: seq<seq<Row>> := [];
      rowsCopied, failed := 0, None;
      assert sourceRows[cursor..] == sourceRows;
      while true
        invariant CopyProgress(insertSql, all, done, first, log0, committed0)
        invariant rowsCopied == cursor
        decreases |sourceRows| - cursor
      {
        var rows, ok := CopyStep(insertSql, all, done, first, log0, committed0);
        if rows == [] {
          assert CopyFinished(insertSql, all, first, log0, committed0);
          return;
        }
        if !ok {
          failed := Some(inserts);
          assert CopyFinished(insertSql, all, first, log0, committed0);
          assert failed == Some(first + FailureIndex(|all|, first, failAt).value);
          return;
        }
        rowsCopied := rowsCopied + |rows|;
        done := done + [rows];
      }
    }

    /** The copy stage. The destination holds the rows of the committed
        batches; the log is `CopyLog`; the source cursor is used up unless a
        batch failed; identity insert is off on every exit when it was
        switched on, including after a failing batch. */
    method CopyRows(t: TableRef, insertable: seq<string>, hasIdentity: bool) returns (r: CopyResult)
      requires Valid()
      requires pending == []
      requires hasIdentity == identityColumn
      modifies this`query, this`cursor, this`committed, this`pending, this`identityInsert
      modifies this`log, this`inserts
      ensures Valid() && query == SelectSql(t, insertable)
      ensures var bs := Chunks(sourceRows);
              var fail := FailureIndex(|bs|, old(inserts) + 1, failAt);
              && log == old(log) + CopyLog(t, hasIdentity, InsertSql(t, insertable), bs, fail)
              && committed == old(committed) + Flatten(CommittedBatches(bs, fail))
              && pending == []
              && (fail.None? ==> r == Copied(|sourceRows|) && cursor == |sourceRows|)
              && (fail.Some? ==> r == Failed(old(inserts) + 1 + fail.value))
              && inserts == old(inserts) + (if fail.None? then |bs| else fail.value + 1)
      ensures identityInsert == if hasIdentity then false else old(identityInsert)
    {
      OpenQuery(SelectSql(t, insertable));
      var insertSql := InsertSql(t, insertable);
      ghost var bs := Chunks(sourceRows);
      ghost var fail := FailureIndex(|bs|, inserts + 1, failAt);
      ghost var body := CopyEvents(insertSql, bs, fail);
      ghost var kept := Flatten(CommittedBatches(bs, fail));
      ghost var log0, committed0 := log, committed;
      if hasIdentity {
        SetIdentityInsert(t, true);
      }
      ghost var log1 := log;
      var rowsCopied, failed := CopyBatches(insertSql);
      assert log == log1 + body;
      ghost var committed1 := committed;
      assert committed1 == committed0 + kept;
      if hasIdentity {
        SetIdentityInsert(t, false);
        Commit();
        assert committed == committed1 + [];
        IdentityBracket(log0, t, body, log);
      }
      if failed.Some? {
        r := Failed(failed.value);
      } else {
        r := Copied(rowsCopied);
      }
    }
  }

  /** A worked scenario: 12000 rows are copied in three
      batches of 5000, 5000 and 2000, and a failure at the second insert
      leaves exactly the first 5000 rows in the destination. */
  lemma TwelveThousandRows(rows: seq<Row>)
    requires |rows| == 12000
    ensures |Chunks(rows)| == 3
    ensures |Chunks(rows)[0]| == 5000 && |Chunks(rows)[1]| == 5000 && |Chunks(rows)[2]| == 2000
    ensures FailureIndex(3, 1, Some(2)) == Some(1)
    ensures Flatten(CommittedBatches(Chunks(rows), Some(1))) == rows[..5000]
  {
    ChunkCount(rows);
    ChunksBounded(rows);
    FlattenChunks(rows);
    ChunkPrefix(rows, 2);
    CommittedRows(rows, Some(1));
    var cs := Chunks(rows);
    assert cs == cs[..2] + [cs[2]];
    FlattenAppend(cs[..2], cs[2]);
  }
}
