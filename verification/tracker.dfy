/**
  The execution ledger: the append-only `sqlScriptExec` table, the database
  state it lives in, and the queries the migrator asks of it.
 */
module Tracker {
  import opened Common

  /** One row of the ledger table; `lastGitId == None` is a NULL column. */
  datatype ScriptRecord = ScriptRecord(
    sno: nat,
    scriptName: string,
    completed: bool,
    endOfBatch: bool,
    lastGitId: Option<string>)

  /** A row without the sequence number the table assigns to it. */
  datatype Entry = Entry(scriptName: string, completed: bool, endOfBatch: bool, lastGitId: Option<string>)

  function EntryOf(r: ScriptRecord): Entry {
    Entry(r.scriptName, r.completed, r.endOfBatch, r.lastGitId)
  }

  /** The rows, sequence numbers left out. */
  function Entries(rows: seq<ScriptRecord>): (es: seq<Entry>)
    ensures |es| == |rows|
    ensures forall i :: 0 <= i < |rows| ==> es[i] == EntryOf(rows[i])
  {
    seq(|rows|, i requires 0 <= i < |rows| => EntryOf(rows[i]))
  }

  lemma EntriesAppend(a: seq<ScriptRecord>, b: seq<ScriptRecord>)
    ensures Entries(a + b) == Entries(a) + Entries(b)
  {
  }

  lemma EntriesOne(rows: seq<ScriptRecord>, row: ScriptRecord)
    ensures Entries(rows + [row]) == Entries(rows) + [EntryOf(row)]
  {
    EntriesAppend(rows, [row]);
  }

  /** A ledger that grew by appending: its new rows are the appended entries. */
  lemma AppendedRows(before: seq<ScriptRecord>, after: seq<ScriptRecord>, added: seq<Entry>)
    requires before <= after && Entries(after) == Entries(before) + added
    ensures after == before + after[|before|..]
    ensures Entries(after[|before|..]) == added
  {
    EntriesAppend(before, after[|before|..]);
    assert after == before + after[|before|..];
  }

  /** Rows in strictly increasing `sno` order, as `ORDER BY sno ASC` returns them. */
  predicate Ascending(rows: seq<ScriptRecord>) {
    forall i, j :: 0 <= i < j < |rows| ==> rows[i].sno < rows[j].sno
  }

  /** Every row of `a` has a smaller `sno` than every row of `b`. */
  predicate Precedes(a: seq<ScriptRecord>, b: seq<ScriptRecord>) {
    forall i, j :: 0 <= i < |a| && 0 <= j < |b| ==> a[i].sno < b[j].sno
  }

  /** Every `sno` was handed out by a counter that started at 1 and now stands at `next`. */
  predicate NumberedBelow(rows: seq<ScriptRecord>, next: nat) {
    forall i :: 0 <= i < |rows| ==> 1 <= rows[i].sno < next
  }

  /** A row numbered with the counter's current value extends the numbering. */
  lemma AppendNumbered(rows: seq<ScriptRecord>, row: ScriptRecord, next: nat)
    requires Ascending(rows) && NumberedBelow(rows, next) && row.sno == next >= 1
    ensures Ascending(rows + [row]) && NumberedBelow(rows + [row], next + 1)
  {
  }

  lemma AscendingAppend(a: seq<ScriptRecord>, b: seq<ScriptRecord>)
    requires Ascending(a) && Ascending(b) && Precedes(a, b)
    ensures Ascending(a + b)
  {
    var ab := a + b;
    forall i, j | 0 <= i < j < |ab| ensures ab[i].sno < ab[j].sno {
      if j < |a| {
        assert ab[i] == a[i] && ab[j] == a[j];
      } else if i < |a| {
        assert ab[i] == a[i] && ab[j] == b[j - |a|];
      } else {
        assert ab[i] == b[i - |a|] && ab[j] == b[j - |a|];
      }
    }
  }

  // ---------------------------------------------------------------------------
  // The checkpoint and the sets derived from the rows

  /** The position of the last end-of-batch row. */
  function LastBatchIndex(rows: seq<ScriptRecord>): (r: Option<nat>)
    ensures r.Some? ==> r.value < |rows| && rows[r.value].endOfBatch
    ensures r.Some? ==> forall j :: r.value < j < |rows| ==> !rows[j].endOfBatch
    ensures r.None? ==> forall j :: 0 <= j < |rows| ==> !rows[j].endOfBatch
  {
    if rows == [] then None
    else if rows[|rows| - 1].endOfBatch then Some(|rows| - 1)
    else LastBatchIndex(rows[..|rows| - 1])
  }

  /** In `sno` order, the last end-of-batch row is the one with the greatest `sno`. */
  lemma LastBatchHasGreatestSno(rows: seq<ScriptRecord>)
    requires Ascending(rows)
    ensures LastBatchIndex(rows).Some? ==>
      forall j :: 0 <= j < |rows| && rows[j].endOfBatch ==> rows[j].sno <= rows[LastBatchIndex(rows).value].sno
  {
  }

  /** The checkpoint revision: the git id of the last end-of-batch row, "" for none or NULL. */
  function Checkpoint(rows: seq<ScriptRecord>): string {
    match LastBatchIndex(rows)
    case None => ""
    case Some(i) => rows[i].lastGitId.GetOr("")
  }

  /** The `sno` of the last end-of-batch row, 0 when there is none. */
  function CheckpointSno(rows: seq<ScriptRecord>): nat {
    match LastBatchIndex(rows)
    case None => 0
    case Some(i) => rows[i].sno
  }

  /** The position of the first row after the checkpoint row. */
  function SinceCheckpoint(rows: seq<ScriptRecord>): (k: nat)
    ensures k <= |rows|
  {
    match LastBatchIndex(rows)
    case None => 0
    case Some(i) => i + 1
  }

  /** The names of all completed rows, of every batch. */
  function CompletedNames(rows: seq<ScriptRecord>): (names: set<string>)
    ensures forall n :: n in names <==> exists i :: 0 <= i < |rows| && rows[i].completed && rows[i].scriptName == n
  {
    if rows == [] then {}
    else
      var last := rows[|rows| - 1];
      var init := CompletedNames(rows[..|rows| - 1]);
      assert forall i :: 0 <= i < |rows| - 1 ==> rows[..|rows| - 1][i] == rows[i];
      if last.completed then init + {last.scriptName} else init
  }

  /** Rows that close no batch leave the checkpoint and its position where they were. */
  lemma {:induction false} AppendWithoutBatchEnd(rows: seq<ScriptRecord>, more: seq<ScriptRecord>)
    requires forall j :: 0 <= j < |more| ==> !more[j].endOfBatch
    ensures LastBatchIndex(rows + more) == LastBatchIndex(rows)
    ensures Checkpoint(rows + more) == Checkpoint(rows)
    ensures SinceCheckpoint(rows + more) == SinceCheckpoint(rows)
    ensures (rows + more)[SinceCheckpoint(rows + more)..] == rows[SinceCheckpoint(rows)..] + more
  {
    if more != [] {
      var n := |more| - 1;
      assert rows + more == (rows + more[..n]) + [more[n]];
      assert (rows + more)[..|rows + more| - 1] == rows + more[..n];
      AppendWithoutBatchEnd(rows, more[..n]);
    } else {
      assert rows + more == rows;
    }
  }

  /** Rows whose last one closes a batch make that row's git id the checkpoint, with nothing after it. */
  lemma AppendBatchEnd(rows: seq<ScriptRecord>, more: seq<ScriptRecord>)
    requires more != [] && more[|more| - 1].endOfBatch
    ensures Checkpoint(rows + more) == more[|more| - 1].lastGitId.GetOr("")
    ensures SinceCheckpoint(rows + more) == |rows + more|
  {
  }

  /** The completed names only grow as rows are appended. */
  lemma {:induction false} CompletedNamesAppend(rows: seq<ScriptRecord>, more: seq<ScriptRecord>)
    ensures CompletedNames(rows + more) == CompletedNames(rows) + CompletedNames(more)
  {
    if more == [] {
      assert rows + more == rows;
    } else {
      var n := |more| - 1;
      assert (rows + more)[..|rows + more| - 1] == rows + more[..n];
      assert (rows + more)[|rows + more| - 1] == more[n];
      CompletedNamesAppend(rows, more[..n]);
    }
  }

  /**
    In a ledger numbered from 1 in `sno` order, the rows after the checkpoint
    row are exactly those whose `sno` exceeds the checkpoint's.
   */
  lemma AfterCheckpointBySno(rows: seq<ScriptRecord>, next: nat, k: nat)
    requires Ascending(rows) && NumberedBelow(rows, next)
    requires k < |rows|
    ensures rows[k].sno > CheckpointSno(rows) <==> k >= SinceCheckpoint(rows)
  {
  }

  /** The same rows, as a set: the checkpoint's successors, kept in `sno` order. */
  lemma AfterCheckpointRows(rows: seq<ScriptRecord>, next: nat)
    requires Ascending(rows) && NumberedBelow(rows, next)
    ensures forall x :: x in rows[SinceCheckpoint(rows)..] <==> x in rows && x.sno > CheckpointSno(rows)
    ensures Ascending(rows[SinceCheckpoint(rows)..])
  {
    var start := SinceCheckpoint(rows);
    forall x | x in rows[start..] ensures x.sno > CheckpointSno(rows) {
      var i :| start <= i < |rows| && rows[i] == x;
      AfterCheckpointBySno(rows, next, i);
    }
    forall x | x in rows && x.sno > CheckpointSno(rows) ensures x in rows[start..] {
      var i :| 0 <= i < |rows| && rows[i] == x;
      AfterCheckpointBySno(rows, next, i);
      assert rows[start..][i - start] == x;
    }
  }

  /**
    The rows of `all` whose `sno` exceeds `floor`, in order, where those are
    the rows from `start` on.
   */
  method ScanAfter(all: seq<ScriptRecord>, floor: nat, ghost start: nat) returns (rows: seq<ScriptRecord>)
    requires start <= |all|
    requires forall k :: 0 <= k < |all| ==> (all[k].sno > floor <==> k >= start)
    ensures rows == all[start..]
  {
    rows := [];
    var k := 0;
    while k < |all|
      invariant 0 <= k <= |all|
      invariant k <= start ==> rows == []
      invariant k > start ==> rows == all[start..k]
    {
      if all[k].sno > floor {
        assert all[start..k + 1] == all[start..k] + [all[k]];
        rows := rows + [all[k]];
      }
      k := k + 1;
    }
  }

  // ---------------------------------------------------------------------------
  // The database

  /**
    The database as the engine sees it: the ledger table (rows in `sno`
    order, `nextSno` the AUTO_INCREMENT counter), the statement batches
    committed to the target schema, and at most one open transaction whose
    rows and batches become durable on commit and vanish on rollback.
   */
  class Database {
    var tableExists: bool
    var ledger: seq<ScriptRecord>
    var nextSno: nat
    var applied: seq<string>
    var txOpen: bool
    var txLedger: seq<ScriptRecord>
    var txApplied: seq<string>

    ghost predicate Valid()
      reads this
    {
      && nextSno >= 1
      && (!tableExists ==> ledger == [] && txLedger == [])
      && Ascending(ledger) && Ascending(txLedger) && Precedes(ledger, txLedger)
      && NumberedBelow(ledger, nextSno) && NumberedBelow(txLedger, nextSno)
      && (!txOpen ==> txLedger == [] && txApplied == [])
    }

    /** An empty database: no ledger table yet, nothing applied. */
    constructor ()
      ensures Valid()
      ensures !tableExists && ledger == [] && applied == [] && !txOpen
    {
      tableExists, ledger, nextSno, applied := false, [], 1, [];
      txOpen, txLedger, txApplied := false, [], [];
    }

    /** `db.Begin()`; `ok` is the driver's answer. */
    method Begin(ok: bool) returns (began: bool)
      requires Valid() && !txOpen
      modifies this
      ensures Valid()
      ensures began == ok && txOpen == ok && txLedger == [] && txApplied == []
      ensures tableExists == old(tableExists) && ledger == old(ledger) && nextSno == old(nextSno) && applied == old(applied)
    {
      began := ok;
      txOpen := ok;
    }

    /** `ExecuteSQL(tx, content)`: the batch takes effect inside the transaction when `ok`. */
    method ExecuteSQL(content: string, ok: bool) returns (success: bool)
      requires Valid() && txOpen
      modifies this
      ensures Valid() && txOpen
      ensures success == ok
      ensures txApplied == old(txApplied) + (if ok then [content] else [])
      ensures tableExists == old(tableExists) && ledger == old(ledger) && nextSno == old(nextSno)
      ensures applied == old(applied) && txLedger == old(txLedger)
    {
      success := ok;
      if ok {
        txApplied := txApplied + [content];
      }
    }

    /** `tx.Commit()`: on success the buffered rows and batches become durable; the transaction ends either way. */
    method Commit(ok: bool) returns (success: bool)
      requires Valid() && txOpen
      modifies this
      ensures Valid() && !txOpen
      ensures success == ok
      ensures ledger == old(ledger) + (if ok then old(txLedger) else [])
      ensures applied == old(applied) + (if ok then old(txApplied) else [])
      ensures tableExists == old(tableExists) && nextSno == old(nextSno)
    {
      success := ok;
      if ok {
        AscendingAppend(ledger, txLedger);
        ledger := ledger + txLedger;
        applied := applied + txApplied;
      }
      txOpen, txLedger, txApplied := false, [], [];
    }

    /** `tx.Rollback()`: discards whatever the open transaction holds; a no-op after commit. */
    method Rollback()
      requires Valid()
      modifies this
      ensures Valid() && !txOpen
      ensures ledger == old(ledger) && applied == old(applied)
      ensures tableExists == old(tableExists) && nextSno == old(nextSno)
    {
      txOpen, txLedger, txApplied := false, [], [];
    }
  }

  // ---------------------------------------------------------------------------
  // The tracker

  class Tracker {
    const db: Database

    constructor (database: Database)
      ensures db == database
    {
      db := database;
    }

    /** `EnsureTable`: CREATE TABLE IF NOT EXISTS; existing rows are never touched. */
    method EnsureTable(ok: bool) returns (r: Outcome)
      requires db.Valid()
      modifies db
      ensures db.Valid()
      ensures r == (if ok then Pass else Fail(SchemaFailed))
      ensures db.tableExists == (old(db.tableExists) || ok)
      ensures db.ledger == old(db.ledger) && db.nextSno == old(db.nextSno) && db.applied == old(db.applied)
      ensures db.txOpen == old(db.txOpen) && db.txLedger == old(db.txLedger) && db.txApplied == old(db.txApplied)
    {
      if !ok {
        return Fail(SchemaFailed);
      }
      db.tableExists := true;
      return Pass;
    }

    /**
      `GetLastSuccessfulCommit`: the git id of the end-of-batch row with the
      greatest `sno`; "" when there is no such row or its id is NULL.
     */
    function GetLastSuccessfulCommit(): (r: string)
      reads this, db
      requires db.Valid()
      ensures (forall j :: 0 <= j < |db.ledger| ==> !db.ledger[j].endOfBatch) ==> r == ""
      ensures forall i :: 0 <= i < |db.ledger| && db.ledger[i].endOfBatch
                && (forall j :: 0 <= j < |db.ledger| && db.ledger[j].endOfBatch ==> db.ledger[j].sno <= db.ledger[i].sno)
                ==> r == db.ledger[i].lastGitId.GetOr("")
    {
      LastBatchHasGreatestSno(db.ledger);
      Checkpoint(db.ledger)
    }

    /** `GetExecutedScriptNames`: the names of the completed rows, over all batches. */
    method GetExecutedScriptNames() returns (names: set<string>)
      requires db.Valid()
      ensures names == CompletedNames(db.ledger)
      ensures forall n :: n in names <==>
        exists i :: 0 <= i < |db.ledger| && db.ledger[i].completed && db.ledger[i].scriptName == n
    {
      var rows := db.ledger;
      names := {};
      var k := 0;
      while k < |rows|
        invariant 0 <= k <= |rows|
        invariant names == CompletedNames(rows[..k])
      {
        assert rows[..k + 1][..k] == rows[..k];
        if rows[k].completed {
          names := names + {rows[k].scriptName};
        }
        k := k + 1;
      }
      assert rows[..k] == rows;
    }

    /** `RecordExecution`: inserts one row inside the open transaction; it is durable only on commit. */
    method RecordExecution(scriptName: string, completed: bool, endOfBatch: bool, gitId: string, ok: bool)
      returns (r: Outcome)
      requires db.Valid() && db.txOpen
      modifies db
      ensures db.Valid() && db.txOpen
      ensures r.Pass? <==> ok && db.tableExists
      ensures r.Fail? ==> r == Fail(RecordFailed(scriptName))
      ensures db.txLedger == old(db.txLedger)
        + (if r.Pass? then [ScriptRecord(old(db.nextSno), scriptName, completed, endOfBatch, Some(gitId))] else [])
      ensures db.nextSno == old(db.nextSno) + (if r.Pass? then 1 else 0)
      ensures db.ledger == old(db.ledger) && db.applied == old(db.applied) && db.txApplied == old(db.txApplied)
      ensures db.tableExists == old(db.tableExists)
    {
      if !ok || !db.tableExists {
        return Fail(RecordFailed(scriptName));
      }
      var row := ScriptRecord(db.nextSno, scriptName, completed, endOfBatch, Some(gitId));
      AppendNumbered(db.txLedger, row, db.nextSno);
      db.txLedger := db.txLedger + [row];
      db.nextSno := db.nextSno + 1;
      return Pass;
    }

    /**
      `RecordExecutionDirect`: inserts one row outside any transaction, durable
      at once. The open transaction, if any, holds no ledger rows.
     */
    method RecordExecutionDirect(scriptName: string, completed: bool, endOfBatch: bool, gitId: string, ok: bool)
      returns (r: Outcome)
      requires db.Valid() && db.txLedger == []
      modifies db
      ensures db.Valid()
      ensures r.Pass? <==> ok && db.tableExists
      ensures r.Fail? ==> r == Fail(RecordFailed(scriptName))
      ensures db.ledger == old(db.ledger)
        + (if r.Pass? then [ScriptRecord(old(db.nextSno), scriptName, completed, endOfBatch, Some(gitId))] else [])
      ensures db.nextSno == old(db.nextSno) + (if r.Pass? then 1 else 0)
      ensures db.txOpen == old(db.txOpen) && db.txLedger == [] && db.txApplied == old(db.txApplied)
      ensures db.applied == old(db.applied) && db.tableExists == old(db.tableExists)
    {
      if !ok || !db.tableExists {
        return Fail(RecordFailed(scriptName));
      }
      var row := ScriptRecord(db.nextSno, scriptName, completed, endOfBatch, Some(gitId));
      AppendNumbered(db.ledger, row, db.nextSno);
      db.ledger := db.ledger + [row];
      db.nextSno := db.nextSno + 1;
      return Pass;
    }

    /**
      `GetHalfCommittedScripts`: in `sno` order, exactly the rows whose `sno`
      exceeds that of the last end-of-batch row (0 when there is none, so
      then every row): the rows after the checkpoint row.
     */
    method GetHalfCommittedScripts() returns (rows: seq<ScriptRecord>)
      requires db.Valid()
      ensures rows == db.ledger[SinceCheckpoint(db.ledger)..]
      ensures forall x :: x in rows <==> x in db.ledger && x.sno > CheckpointSno(db.ledger)
      ensures Ascending(rows)
    {
      var all := db.ledger;
      assert NumberedBelow(all, db.nextSno);
      forall k | 0 <= k < |all|
        ensures all[k].sno > CheckpointSno(all) <==> k >= SinceCheckpoint(all)
      {
        AfterCheckpointBySno(all, db.nextSno, k);
      }
      rows := ScanAfter(all, CheckpointSno(all), SinceCheckpoint(all));
      AfterCheckpointRows(all, db.nextSno);
    }

    /** `HasRecords`: the table is non-empty; an empty table has no checkpoint and no completed script. */
    function HasRecords(): (r: bool)
      reads this, db
      ensures r <==> db.ledger != []
      ensures !r ==> Checkpoint(db.ledger) == "" && CompletedNames(db.ledger) == {}
    {
      |db.ledger| > 0
    }

    /** `GetAllScripts`: every row, in ascending `sno` order. */
    method GetAllScripts() returns (rows: seq<ScriptRecord>)
      requires db.Valid()
      ensures rows == db.ledger && Ascending(rows)
    {
      var all := db.ledger;
      rows := [];
      var k := 0;
      while k < |all|
        invariant 0 <= k <= |all|
        invariant rows == all[..k]
      {
        rows := rows + [all[k]];
        assert all[..k + 1] == all[..k] + [all[k]];
        k := k + 1;
      }
    }
  }
}
