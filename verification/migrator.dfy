/**
  The orchestrator: one run validates the repository and the ledger, runs
  the operator's missed scripts, discovers the scripts added since the
  checkpoint and executes the pending ones, each in its own transaction.
 */
module Migrator {
  import opened Common
  import opened Text
  import Git
  import opened Tracker
  import Validator
  import opened Batch

  /** The counts `console.Summary` reports. */
  datatype Summary = Summary(total: nat, succeeded: nat, failed: nat, skipped: nat)

  /**
    The counts reported for a batch of `n` pending scripts among `total`
    discovered ones: the others are skipped; a batch that stopped at its
    script `k` reports `k` successes and one failure, one that ran to the
    end reports `n` successes.
   */
  function BatchSummary(total: nat, n: nat, failedAt: Option<nat>): Summary
    requires n <= total
  {
    match failedAt
    case None => Summary(total, n, 0, total - n)
    case Some(k) => Summary(total, k, 1, total - n)
  }

  /**
    What a run reports besides its error: the checkpoint and the current
    commit as shown to the operator, and the summary of the batch.
   */
  datatype Report = Report(lastShown: Option<string>, currentShown: Option<string>, summary: Option<Summary>)

  /** What the checks of a run leave to execute: HEAD, the discovered scripts, and those still pending. */
  datatype Plan = Plan(head: string, scripts: seq<Git.ScriptInfo>, pending: seq<Git.ScriptInfo>)

  /** The git id recorded by a single-script execution when HEAD cannot be resolved. */
  const ManualGitId: string := "manual"

  /** A revision id shortened for display: its first eight characters, or all of a shorter one. */
  function ShortRevision(id: string): (r: string)
    ensures |r| == if |id| < 8 then |id| else 8
    ensures HasPrefix(id, r)
  {
    if |id| < 8 then id else id[..8]
  }

  /** The display as written: the slice `id[:8]`, which panics on ids shorter than eight characters. */
  function ShortRevisionAsWritten(id: string): (r: Result<string>)
    ensures r.Ok? <==> |id| >= 8
    ensures r.Ok? ==> r.value == ShortRevision(id)
  {
    if |id| < 8 then Err(SlicePanic) else Ok(id[..8])
  }

  /**
    A checkpoint written by a single-script execution without a resolvable
    HEAD cannot be displayed as written: the next run panics; shortened
    for display it is shown whole.
   */
  lemma ManualCheckpointPanics()
    ensures ShortRevisionAsWritten(ManualGitId) == Err(SlicePanic)
    ensures ShortRevision(ManualGitId) == ManualGitId
  {
  }

  /**
    The scanner loop of `executeMissedScripts`: each line of the list file,
    trimmed, kept unless blank or a `#` comment.
   */
  method ScanMissedList(content: string) returns (names: seq<string>)
    ensures names == MissedNames(content)
  {
    var lines := Split(content, '\n');
    names := [];
    var k := 0;
    while k < |lines|
      invariant 0 <= k <= |lines|
      invariant names == ListedNames(lines[..k])
    {
      assert lines[..k + 1][..k] == lines[..k];
      var line := TrimSpace(lines[k]);
      if line != "" && !HasPrefix(line, "#") {
        names := names + [line];
      }
      k := k + 1;
    }
    assert lines[..k] == lines;
  }

  /** The scripts the diff from the checkpoint to HEAD discovers; none when the diff fails. */
  function Candidates(repo: Git.Repo, last: string, head: string, now: int): seq<Git.ScriptInfo> {
    match Git.DiffFileNames(repo, last, head)
    case Ok(files) => Git.Discovered(repo, files, now)
    case Err(_) => []
  }

  /**
    `pending` holds exactly the candidates whose names are not completed,
    each as often as it was discovered, oldest first.
   */
  ghost predicate PendingFrom(candidates: seq<Git.ScriptInfo>, executed: set<string>, pending: seq<Git.ScriptInfo>) {
    && (forall s :: s in pending <==> s in candidates && s.name !in executed)
    && multiset(pending) == multiset(Pending(candidates, executed))
    && Git.SortedByTimestamp(pending)
  }

  /**
    The filter applied to the sorted discovered scripts leaves the
    candidates whose names are not completed, oldest first; when it leaves
    none, every candidate is completed.
   */
  lemma PlanPending(candidates: seq<Git.ScriptInfo>, scripts: seq<Git.ScriptInfo>, executed: set<string>)
    requires Git.SortedByTimestamp(scripts) && multiset(scripts) == multiset(candidates)
    ensures PendingFrom(candidates, executed, Pending(scripts, executed))
    ensures Pending(scripts, executed) == [] ==> forall s :: s in candidates ==> s.name in executed
  {
    PendingSorted(scripts, executed);
    var pending := Pending(scripts, executed);
    forall s
      ensures s in pending <==> s in candidates && s.name !in executed
    {
      calc {
        s in scripts;
        multiset(scripts)[s] > 0;
        multiset(candidates)[s] > 0;
        s in candidates;
      }
    }
    forall x
      ensures multiset(pending)[x] == multiset(Pending(candidates, executed))[x]
    {
      PendingCount(scripts, executed, x);
      PendingCount(candidates, executed, x);
    }
  }

  /** `Run`'s filter: the discovered scripts whose names the ledger does not hold as completed. */
  method FilterPending(scripts: seq<Git.ScriptInfo>, executed: set<string>) returns (pending: seq<Git.ScriptInfo>)
    ensures pending == Pending(scripts, executed)
  {
    pending := [];
    var k := 0;
    while k < |scripts|
      invariant 0 <= k <= |scripts|
      invariant pending == Pending(scripts[..k], executed)
    {
      assert scripts[..k + 1][..k] == scripts[..k];
      if scripts[k].name !in executed {
        pending := pending + [scripts[k]];
      }
      k := k + 1;
    }
    assert scripts[..k] == scripts;
  }

  class Migrator {
    const scriptsDir: string
    const missedScriptsFile: string
    const db: Database
    const tracker: Tracker
    const repo: Git.Repo
    const drv: Driver
    const fs: FileSystem
    const now: int

    ghost predicate Valid()
      reads this, db
    {
      tracker.db == db && db.Valid()
    }

    /** `NewMigrator`: a git instance for the scripts directory and a tracker over the database. */
    constructor (scriptsDir: string, missedScriptsFile: string, database: Database,
                 repo: Git.Repo, drv: Driver, fs: FileSystem, now: int)
      requires database.Valid()
      ensures Valid()
      ensures this.scriptsDir == scriptsDir && this.missedScriptsFile == missedScriptsFile && db == database
      ensures this.repo == repo && this.drv == drv && this.fs == fs && this.now == now
    {
      this.scriptsDir := scriptsDir;
      this.missedScriptsFile := missedScriptsFile;
      db := database;
      tracker := new Tracker(database);
      this.repo := repo;
      this.drv := drv;
      this.fs := fs;
      this.now := now;
    }

    function Environment(): Env {
      Env(drv, fs, scriptsDir)
    }

    /**
      What the missed-scripts pass does to a ledger `before` and a schema
      `applied0`, leaving `after` and `applied1` and returning `r`: an
      unreadable list fails and an empty one passes, both changing nothing,
      as does a HEAD that cannot be resolved; otherwise the listed names run
      as one batch against HEAD, those completed in `before` skipped, and the
      first failure is reported with its name and cause.
     */
    ghost predicate MissedPass(table: bool, r: Outcome, before: seq<ScriptRecord>, applied0: seq<string>,
                               after: seq<ScriptRecord>, applied1: seq<string>)
    {
      var file := fs.readFile(missedScriptsFile);
      var same := after == before && applied1 == applied0;
      if file.None? then r == Fail(MissedFileUnreadable) && same
      else if MissedNames(file.value) == [] then r == Pass && same
      else if Git.GetCurrentCommit(repo).Err? then r == Fail(Git.GetCurrentCommit(repo).error) && same
      else
        var names := MissedNames(file.value);
        var jobs := MissedJobs(names, CompletedNames(before), scriptsDir);
        var env, head := Environment(), Git.GetCurrentCommit(repo).value;
        && before <= after
        && Entries(after) == Entries(before) + BatchRows(env, table, jobs, head)
        && applied1 == applied0 + BatchApplied(env, table, jobs)
        && match FirstFailure(env, table, jobs)
           case None => r == Pass
           case Some(k) => r == Fail(MissedScriptFailed(names[k], StepResult(Step(env, table, jobs[k].script), names[k]).error))
    }

    /**
      The checks of steps 6 to 9 against the checkpoint `last` and the
      ledger `ledger`: HEAD resolves, no executed script was modified or
      deleted, no row after the checkpoint failed, and the diff succeeds.
     */
    ghost predicate ChecksPass(last: string, ledger: seq<ScriptRecord>) {
      && Git.GetCurrentCommit(repo).Ok?
      && Validator.Untampered(repo, last, Git.GetCurrentCommit(repo).value, CompletedNames(ledger))
      && Validator.HalfCommittedVerdict(ledger[SinceCheckpoint(ledger)..]) == Pass
      && Git.DiffFileNames(repo, last, Git.GetCurrentCommit(repo).value).Ok?
    }

    /**
      The verdict of the checks of steps 6 to 9, taken in their order: the
      first one that fails stops the run with its own error.
     */
    ghost function ChecksVerdict(last: string, ledger: seq<ScriptRecord>): (r: Outcome)
      ensures r.Pass? <==> ChecksPass(last, ledger)
    {
      match Git.GetCurrentCommit(repo)
      case Err(e) => Fail(e)
      case Ok(head) =>
        var tamper := Validator.TamperVerdict(repo, last, head, CompletedNames(ledger));
        var half := Validator.HalfCommittedVerdict(ledger[SinceCheckpoint(ledger)..]);
        if tamper.Fail? then tamper
        else if half.Fail? then half
        else match Git.DiffFileNames(repo, last, head)
          case Err(e) => Fail(e)
          case Ok(_) => Pass
    }

    /**
      A script executed before and marked modified since the checkpoint
      stops the run with the tamper error, which lists it.
     */
    lemma ModifiedScriptStopsRun(last: string, ledger: seq<ScriptRecord>, file: string)
      requires Git.GetCurrentCommit(repo).Ok? && last != ""
      requires Git.StatusTable(repo, last, Git.GetCurrentCommit(repo).value).Ok?
      requires var m := Git.StatusTable(repo, last, Git.GetCurrentCommit(repo).value).value;
        file in m && m[file] == "M" && Validator.Executed(file, CompletedNames(ledger))
      ensures ChecksVerdict(last, ledger).Fail? && ChecksVerdict(last, ledger).error.Tampered?
      ensures file in ChecksVerdict(last, ledger).error.modified
    {
      var m := Git.StatusTable(repo, last, Git.GetCurrentCommit(repo).value).value;
      assert !Validator.Untampered(repo, last, Git.GetCurrentCommit(repo).value, CompletedNames(ledger));
    }

    /**
      A batch stopped by a recorded statement error blocks the next run:
      over an untampered history, its checks fail naming that script.
     */
    lemma SqlFailureStopsNextRun(pending: seq<Git.ScriptInfo>, k: nat, gitId: string, last: string,
                                 before: seq<ScriptRecord>, rows: seq<ScriptRecord>)
      requires FirstFailure(Environment(), true, MainJobs(pending)) == Some(k)
      requires Step(Environment(), true, pending[k]) == SqlError && drv.directInsertOk(pending[k].name)
      requires Entries(rows) == BatchRows(Environment(), true, MainJobs(pending), gitId)
      requires Validator.HalfCommittedVerdict(before[SinceCheckpoint(before)..]) == Pass
      requires Git.GetCurrentCommit(repo).Ok?
      requires Validator.Untampered(repo, last, Git.GetCurrentCommit(repo).value, CompletedNames(before + rows))
      ensures ChecksVerdict(last, before + rows) == Fail(FailedBatch(pending[k].name))
    {
      SqlFailureBlocksNextRun(Environment(), true, pending, k, gitId, before, rows);
    }

    /**
      Steps 5 to 12 of a run from the checkpoint `last`, taking the ledger
      `before` and the schema `applied0` to `after` and `applied1`, with
      result `r`, the reported `summary`, and `pending` the batch that ran.
      A failed check stops the run with that check's error (the first to
      fail, as `ChecksVerdict` orders them) and changes nothing. Otherwise the pending scripts are the discovered ones not yet
      completed, oldest first; they run as one batch against HEAD, the run
      passes exactly when none fails, and the summary counts the batch. A
      passing run leaves every discovered script completed and, when it ran
      any, the checkpoint at HEAD; a failing one names the script that
      failed and keeps the checkpoint.
     */
    ghost predicate Migrated(last: string, table: bool, before: seq<ScriptRecord>, applied0: seq<string>,
                             r: Outcome, summary: Option<Summary>, pending: seq<Git.ScriptInfo>,
                             after: seq<ScriptRecord>, applied1: seq<string>)
    {
      && before <= after
      && (Git.GetCurrentCommit(repo).Err? ==> r == Fail(Git.GetCurrentCommit(repo).error))
      && (r.Fail? && r.error.FailedBatch? ==> Validator.HalfCommittedVerdict(before[SinceCheckpoint(before)..]) == r)
      && (r.Fail? && r.error.Tampered? ==>
            Git.GetCurrentCommit(repo).Ok? && last != ""
            && !Validator.Untampered(repo, last, Git.GetCurrentCommit(repo).value, CompletedNames(before)))
      && (!ChecksPass(last, before) ==>
            r.Fail? && r == ChecksVerdict(last, before) && pending == [] && summary.None? && after == before && applied1 == applied0)
      && (ChecksPass(last, before) ==>
            var head := Git.GetCurrentCommit(repo).value;
            var candidates := Candidates(repo, last, head, now);
            && PendingFrom(candidates, CompletedNames(before), pending)
            && |pending| <= |candidates|
            && (r.Pass? ==> forall s :: s in candidates ==> s.name in CompletedNames(after))
            && (pending == [] ==> r == Pass && summary.None? && after == before && applied1 == applied0)
            && (pending != [] ==>
                  var env, jobs := Environment(), MainJobs(pending);
                  && Entries(after) == Entries(before) + BatchRows(env, table, jobs, head)
                  && applied1 == applied0 + BatchApplied(env, table, jobs)
                  && (r.Pass? <==> FirstFailure(env, table, jobs).None?)
                  && summary == Some(BatchSummary(|candidates|, |pending|, FirstFailure(env, table, jobs)))
                  && (r.Pass? ==> Checkpoint(after) == head && SinceCheckpoint(after) == |after|)
                  && (r.Fail? ==>
                        && r == Fail(MigrationFailedAt(pending[FirstFailure(env, table, jobs).value].name))
                        && Checkpoint(after) == Checkpoint(before)
                        && after[SinceCheckpoint(after)..] == before[SinceCheckpoint(before)..] + after[|before|..])))
    }

    /**
      `executeScript`: reads the script, runs it in its own transaction and
      records it; the ledger gains exactly the rows `StepRows` names and the
      schema exactly the batches `StepApplied` names.
     */
    method ExecuteScript(script: Git.ScriptInfo, gitId: string, isLast: bool) returns (r: Outcome)
      requires Valid() && !db.txOpen
      modifies db
      ensures Valid() && !db.txOpen && db.tableExists == old(db.tableExists)
      ensures r == StepResult(Step(Environment(), db.tableExists, script), script.name)
      ensures old(db.ledger) <= db.ledger
      ensures Entries(db.ledger) == Entries(old(db.ledger)) + StepRows(Environment(), db.tableExists, script, isLast, gitId)
      ensures db.applied == old(db.applied) + StepApplied(Environment(), db.tableExists, script)
    {
      var content := fs.readFile(JoinPath(scriptsDir, script.name));
      if content.None? {
        content := fs.readFile(script.path);
        if content.None? {
          assert Step(Environment(), db.tableExists, script) == Unreadable;
          assert Entries(db.ledger) + [] == Entries(db.ledger) && db.applied + [] == db.applied;
          return Fail(ScriptUnreadable(script.name));
        }
      }
      assert ReadScript(Environment(), script) == content;
      r := ExecuteInTransaction(script, content.value, gitId, isLast);
    }

    /**
      The transactional part of `executeScript`, once the contents are read:
      begin, then execute, record and commit inside the transaction.
     */
    method ExecuteInTransaction(script: Git.ScriptInfo, content: string, gitId: string, isLast: bool) returns (r: Outcome)
      requires Valid() && !db.txOpen
      requires ReadScript(Environment(), script) == Some(content)
      modifies db
      ensures Valid() && !db.txOpen && db.tableExists == old(db.tableExists)
      ensures r == StepResult(Step(Environment(), db.tableExists, script), script.name)
      ensures old(db.ledger) <= db.ledger
      ensures Entries(db.ledger) == Entries(old(db.ledger)) + StepRows(Environment(), db.tableExists, script, isLast, gitId)
      ensures db.applied == old(db.applied) + StepApplied(Environment(), db.tableExists, script)
    {
      var began := db.Begin(drv.beginOk(script.name));
      if !began {
        assert Step(Environment(), db.tableExists, script) == NoTransaction;
        assert Entries(db.ledger) + [] == Entries(db.ledger) && db.applied + [] == db.applied;
        return Fail(BeginFailed);
      }
      r := ExecuteInOpenTransaction(script, content, gitId, isLast);
    }

    /**
      Inside the open transaction: a statement error records a failure row
      outside the transaction; otherwise the success row is recorded and the
      transaction committed. Every early return rolls the transaction back.
     */
    method ExecuteInOpenTransaction(script: Git.ScriptInfo, content: string, gitId: string, isLast: bool) returns (r: Outcome)
      requires Valid() && db.txOpen && db.txLedger == [] && db.txApplied == []
      requires ReadScript(Environment(), script) == Some(content) && drv.beginOk(script.name)
      modifies db
      ensures Valid() && !db.txOpen && db.tableExists == old(db.tableExists)
      ensures r == StepResult(Step(Environment(), db.tableExists, script), script.name)
      ensures old(db.ledger) <= db.ledger
      ensures Entries(db.ledger) == Entries(old(db.ledger)) + StepRows(Environment(), db.tableExists, script, isLast, gitId)
      ensures db.applied == old(db.applied) + StepApplied(Environment(), db.tableExists, script)
    {
      var executed := db.ExecuteSQL(content, drv.execOk(script.name));
      if !executed {
        r := RecordFailure(script, gitId, isLast);
      } else {
        r := RecordAndCommit(script, content, gitId, isLast);
      }
    }

    /** A statement error: the failure row goes in directly, and the transaction is rolled back. */
    method RecordFailure(script: Git.ScriptInfo, gitId: string, isLast: bool) returns (r: Outcome)
      requires Valid() && db.txOpen && db.txLedger == [] && db.txApplied == []
      requires ReadScript(Environment(), script).Some? && drv.beginOk(script.name) && !drv.execOk(script.name)
      modifies db
      ensures Valid() && !db.txOpen && db.tableExists == old(db.tableExists)
      ensures r == StepResult(Step(Environment(), db.tableExists, script), script.name)
      ensures old(db.ledger) <= db.ledger
      ensures Entries(db.ledger) == Entries(old(db.ledger)) + StepRows(Environment(), db.tableExists, script, isLast, gitId)
      ensures db.applied == old(db.applied) + StepApplied(Environment(), db.tableExists, script)
    {
      ghost var sno := db.nextSno;
      assert Step(Environment(), db.tableExists, script) == SqlError;
      var ignored := tracker.RecordExecutionDirect(script.name, false, false, gitId, drv.directInsertOk(script.name));
      db.Rollback();
      if ignored.Pass? {
        EntriesOne(old(db.ledger), ScriptRecord(sno, script.name, false, false, Some(gitId)));
      } else {
        assert Entries(db.ledger) + [] == Entries(db.ledger) && db.applied + [] == db.applied;
      }
      return Fail(ScriptFailed(script.name));
    }

    /** The statements ran: the success row is recorded in the transaction, which is then committed. */
    method RecordAndCommit(script: Git.ScriptInfo, content: string, gitId: string, isLast: bool) returns (r: Outcome)
      requires Valid() && db.txOpen && db.txLedger == [] && db.txApplied == [content]
      requires ReadScript(Environment(), script) == Some(content) && drv.beginOk(script.name) && drv.execOk(script.name)
      modifies db
      ensures Valid() && !db.txOpen && db.tableExists == old(db.tableExists)
      ensures r == StepResult(Step(Environment(), db.tableExists, script), script.name)
      ensures old(db.ledger) <= db.ledger
      ensures Entries(db.ledger) == Entries(old(db.ledger)) + StepRows(Environment(), db.tableExists, script, isLast, gitId)
      ensures db.applied == old(db.applied) + StepApplied(Environment(), db.tableExists, script)
    {
      ghost var sno := db.nextSno;
      var recorded := tracker.RecordExecution(script.name, true, isLast, gitId, drv.insertOk(script.name));
      if recorded.Fail? {
        assert Step(Environment(), db.tableExists, script) == RecordError;
        db.Rollback();
        assert Entries(db.ledger) + [] == Entries(db.ledger) && db.applied + [] == db.applied;
        return recorded;
      }
      r := CommitExecution(script, content, gitId, isLast, ScriptRecord(sno, script.name, true, isLast, Some(gitId)));
    }

    /** The success row is in the transaction: the commit makes it and the script's batch durable. */
    method CommitExecution(script: Git.ScriptInfo, content: string, gitId: string, isLast: bool, ghost row: ScriptRecord)
      returns (r: Outcome)
      requires Valid() && db.txOpen && db.txLedger == [row] && db.txApplied == [content]
      requires row == ScriptRecord(row.sno, script.name, true, isLast, Some(gitId))
      requires ReadScript(Environment(), script) == Some(content) && drv.beginOk(script.name) && drv.execOk(script.name)
      requires drv.insertOk(script.name) && db.tableExists
      modifies db
      ensures Valid() && !db.txOpen && db.tableExists == old(db.tableExists)
      ensures r == StepResult(Step(Environment(), db.tableExists, script), script.name)
      ensures old(db.ledger) <= db.ledger
      ensures Entries(db.ledger) == Entries(old(db.ledger)) + StepRows(Environment(), db.tableExists, script, isLast, gitId)
      ensures db.applied == old(db.applied) + StepApplied(Environment(), db.tableExists, script)
    {
      var committed := db.Commit(drv.commitOk(script.name));
      db.Rollback();
      if !committed {
        assert Step(Environment(), db.tableExists, script) == CommitError;
        assert Entries(db.ledger) + [] == Entries(db.ledger) && db.applied + [] == db.applied;
        return Fail(CommitFailed);
      }
      assert Step(Environment(), db.tableExists, script) == Done;
      EntriesOne(old(db.ledger), row);
      return Pass;
    }

    /**
      `ExecuteSingleScript`: runs one script by name as a batch of its own,
      recorded against HEAD, or against "manual" when HEAD cannot be
      resolved; on success that commit becomes the checkpoint.
     */
    method ExecuteSingleScript(scriptName: string) returns (r: Outcome)
      requires Valid() && !db.txOpen
      modifies db
      ensures Valid() && !db.txOpen && db.tableExists == old(db.tableExists)
      ensures
        var gitId := if Git.GetCurrentCommit(repo).Ok? then Git.GetCurrentCommit(repo).value else ManualGitId;
        var script := Git.ScriptInfo(scriptName, JoinPath(scriptsDir, scriptName), 0);
        && r == StepResult(Step(Environment(), db.tableExists, script), scriptName)
        && old(db.ledger) <= db.ledger
        && Entries(db.ledger) == Entries(old(db.ledger)) + StepRows(Environment(), db.tableExists, script, true, gitId)
        && db.applied == old(db.applied) + StepApplied(Environment(), db.tableExists, script)
        && (r.Pass? ==> Checkpoint(db.ledger) == gitId && SinceCheckpoint(db.ledger) == |db.ledger|)
    {
      var commit := Git.GetCurrentCommit(repo);
      var currentCommit := if commit.Ok? then commit.value else ManualGitId;
      var script := Git.ScriptInfo(scriptName, JoinPath(scriptsDir, scriptName), 0);
      r := ExecuteScript(script, currentCommit, true);
      if r.Pass? {
        AppendedRows(old(db.ledger), db.ledger, StepRows(Environment(), db.tableExists, script, true, currentCommit));
        var added := db.ledger[|old(db.ledger)|..];
        assert EntryOf(added[0]) == Entry(scriptName, true, true, Some(currentCommit));
        AppendBatchEnd(old(db.ledger), added);
      }
    }

    /** One iteration of either loop: a skipped job passes, any other runs its script. */
    method RunJob(job: Job, gitId: string) returns (r: Outcome)
      requires Valid() && !db.txOpen
      modifies db
      ensures Valid() && !db.txOpen && db.tableExists == old(db.tableExists)
      ensures r.Pass? <==> Completes(Environment(), db.tableExists, job)
      ensures r.Fail? ==> r == StepResult(Step(Environment(), db.tableExists, job.script), job.script.name)
      ensures old(db.ledger) <= db.ledger
      ensures Entries(db.ledger) == Entries(old(db.ledger)) + JobRows(Environment(), db.tableExists, job, gitId)
      ensures db.applied == old(db.applied) + JobApplied(Environment(), db.tableExists, job)
    {
      if job.skip {
        assert Entries(db.ledger) + [] == Entries(db.ledger) && db.applied + [] == db.applied;
        return Pass;
      }
      r := ExecuteScript(job.script, gitId, job.isLast);
    }

    /**
      The loop both batches share: each job in order, a skipped one passed
      over, the first one whose script fails ending the loop. `at` is the
      position of that job and `r` the error its execution returned.
     */
    method RunJobs(jobs: seq<Job>, gitId: string) returns (at: Option<nat>, r: Outcome)
      requires Valid() && !db.txOpen
      modifies db
      ensures Valid() && !db.txOpen && db.tableExists == old(db.tableExists)
      ensures at == FirstFailure(Environment(), db.tableExists, jobs)
      ensures at.None? ==> r == Pass
      ensures at.Some? ==> r == StepResult(Step(Environment(), db.tableExists, jobs[at.value].script), jobs[at.value].script.name)
      ensures old(db.ledger) <= db.ledger
      ensures Entries(db.ledger) == Entries(old(db.ledger)) + BatchRows(Environment(), db.tableExists, jobs, gitId)
      ensures db.applied == old(db.applied) + BatchApplied(Environment(), db.tableExists, jobs)
    {
      ghost var env, table := Environment(), db.tableExists;
      var i := 0;
      while i < |jobs|
        invariant 0 <= i <= |jobs|
        invariant Valid() && !db.txOpen && db.tableExists == table
        invariant FirstFailure(env, table, jobs[..i]).None?
        invariant old(db.ledger) <= db.ledger
        invariant Entries(db.ledger) == Entries(old(db.ledger)) + BatchRows(env, table, jobs[..i], gitId)
        invariant db.applied == old(db.applied) + BatchApplied(env, table, jobs[..i])
      {
        var res := RunJob(jobs[i], gitId);
        if res.Fail? {
          BatchFailsAt(env, table, jobs, i, gitId, Entries(old(db.ledger)), old(db.applied));
          return Some(i), res;
        }
        BatchExtendFrom(env, table, jobs, i, gitId, Entries(old(db.ledger)), old(db.applied));
        i := i + 1;
      }
      BatchWhole(env, table, jobs, gitId);
      return None, Pass;
    }

    /**
      `executeMissedScripts`: the names listed in the missed-scripts file run
      as one batch recorded against HEAD, those the ledger already held as
      completed skipped; the first failure stops the pass and is reported
      with its cause.
     */
    method ExecuteMissedScripts() returns (r: Outcome)
      requires Valid() && !db.txOpen
      modifies db
      ensures Valid() && !db.txOpen && db.tableExists == old(db.tableExists)
      ensures old(db.ledger) <= db.ledger
      ensures MissedPass(db.tableExists, r, old(db.ledger), old(db.applied), db.ledger, db.applied)
    {
      var file := fs.readFile(missedScriptsFile);
      if file.None? {
        return Fail(MissedFileUnreadable);
      }
      var missedScripts := ScanMissedList(file.value);
      if |missedScripts| == 0 {
        return Pass;
      }
      var currentCommit := Git.GetCurrentCommit(repo);
      if currentCommit.Err? {
        return Fail(currentCommit.error);
      }
      var executedScripts := tracker.GetExecutedScriptNames();
      var jobs := MissedJobs(missedScripts, executedScripts, scriptsDir);
      var at, res := RunJobs(jobs, currentCommit.value);
      if at.Some? {
        return Fail(MissedScriptFailed(missedScripts[at.value], res.error));
      }
      return Pass;
    }

    /**
      Steps 1 to 4 of `Run`: the repository check, the ledger table, the
      checkpoint (read before the missed-scripts pass, and kept for the rest
      of the run), then the missed-scripts pass when a list is configured.
      `lastGitID` is the checkpoint when it was read.
     */
    method Prepare() returns (r: Outcome, lastGitID: Option<string>)
      requires Valid() && !db.txOpen
      modifies db
      ensures Valid() && !db.txOpen
      ensures old(db.ledger) <= db.ledger
      ensures lastGitID.Some? <==> Git.IsGitRepository(repo) && drv.createTableOk
      ensures lastGitID.Some? ==> lastGitID.value == Checkpoint(old(db.ledger)) && db.tableExists
      ensures !Git.IsGitRepository(repo) ==> r == Fail(NotARepository)
      ensures Git.IsGitRepository(repo) && !drv.createTableOk ==> r == Fail(SchemaFailed)
      ensures r.Pass? ==> lastGitID.Some?
      ensures lastGitID.None? || missedScriptsFile == "" ==> db.ledger == old(db.ledger) && db.applied == old(db.applied)
      ensures lastGitID.Some? && missedScriptsFile == "" ==> r == Pass
      ensures lastGitID.Some? && missedScriptsFile != "" ==>
        MissedPass(true, r, old(db.ledger), old(db.applied), db.ledger, db.applied)
    {
      r := Validator.ValidateScriptsDirectory(repo);
      if r.Fail? {
        return r, None;
      }
      r := tracker.EnsureTable(drv.createTableOk);
      if r.Fail? {
        return r, None;
      }
      var last := tracker.GetLastSuccessfulCommit();
      lastGitID := Some(last);
      if missedScriptsFile != "" {
        r := ExecuteMissedScripts();
      }
    }

    /**
      Steps 7 and 8 of `Run`: no executed script may have been modified or
      deleted since the checkpoint, and no row after the checkpoint may have
      failed.
     */
    method CheckHistory(lastGitID: string, head: string, executed: set<string>) returns (r: Outcome)
      requires Valid()
      ensures r.Pass? <==>
        Validator.Untampered(repo, lastGitID, head, executed) && Validator.HalfCommittedVerdict(db.ledger[SinceCheckpoint(db.ledger)..]) == Pass
      ensures r.Fail? && r.error.FailedBatch? ==>
        Validator.HalfCommittedVerdict(db.ledger[SinceCheckpoint(db.ledger)..]) == r
      ensures r.Fail? && r.error.Tampered? ==> lastGitID != "" && !Validator.Untampered(repo, lastGitID, head, executed)
      ensures var tamper := Validator.TamperVerdict(repo, lastGitID, head, executed);
        r == if tamper.Fail? then tamper else Validator.HalfCommittedVerdict(db.ledger[SinceCheckpoint(db.ledger)..])
    {
      r := Validator.CheckFileModifications(repo, lastGitID, head, executed);
      if r.Fail? {
        return;
      }
      var halfCommitted := tracker.GetHalfCommittedScripts();
      r := Validator.CheckHalfCommittedFiles(halfCommitted);
    }

    /**
      Steps 5 to 10 of `Run`, which change nothing: the completed names,
      HEAD, the checks against the checkpoint, the discovered scripts and
      the pending ones among them.
     */
    method Inspect(lastGitID: string) returns (r: Result<Plan>, head: Option<string>)
      requires Valid() && !db.txOpen
      ensures head.Some? <==> Git.GetCurrentCommit(repo).Ok?
      ensures head.Some? ==> Git.GetCurrentCommit(repo) == Ok(head.value)
      ensures r.Ok? ==> head == Some(r.value.head)
      ensures Git.GetCurrentCommit(repo).Err? ==> r == Err(Git.GetCurrentCommit(repo).error)
      ensures r.Err? && r.error.FailedBatch? ==>
        Validator.HalfCommittedVerdict(db.ledger[SinceCheckpoint(db.ledger)..]) == Fail(r.error)
      ensures r.Err? && r.error.Tampered? ==>
        head.Some? && lastGitID != "" && !Validator.Untampered(repo, lastGitID, head.value, CompletedNames(db.ledger))
      ensures r.Ok? <==> ChecksPass(lastGitID, db.ledger)
      ensures r.Err? ==> Fail(r.error) == ChecksVerdict(lastGitID, db.ledger)
      ensures r.Ok? ==>
        && Git.SortedByTimestamp(r.value.scripts)
        && multiset(r.value.scripts) == multiset(Candidates(repo, lastGitID, r.value.head, now))
        && r.value.pending == Pending(r.value.scripts, CompletedNames(db.ledger))
    {
      var executedScripts := tracker.GetExecutedScriptNames();
      var currentCommit := Git.GetCurrentCommit(repo);
      if currentCommit.Err? {
        return Err(currentCommit.error), None;
      }
      head := Some(currentCommit.value);
      var checked := CheckHistory(lastGitID, currentCommit.value, executedScripts);
      if checked.Fail? {
        return Err(checked.error), head;
      }
      var scripts := Git.GetChangedScripts(repo, lastGitID, currentCommit.value, scriptsDir, now);
      if scripts.Err? {
        return Err(scripts.error), head;
      }
      var pending := FilterPending(scripts.value, executedScripts);
      return Ok(Plan(currentCommit.value, scripts.value, pending)), head;
    }

    /**
      Steps 11 and 12 of `Run`: the pending scripts run as one batch
      against HEAD, the last one closing it; the first failure stops the
      run. A batch that runs to the end records every script and moves the
      checkpoint to HEAD; one that fails leaves the checkpoint where it was.
     */
    method ExecutePending(pending: seq<Git.ScriptInfo>, total: nat, head: string, ghost candidates: seq<Git.ScriptInfo>)
      returns (r: Outcome, summary: Summary)
      requires Valid() && !db.txOpen && pending != [] && |pending| <= total
      requires PendingFrom(candidates, CompletedNames(db.ledger), pending)
      modifies db
      ensures Valid() && !db.txOpen && db.tableExists == old(db.tableExists)
      ensures old(db.ledger) <= db.ledger
      ensures Entries(db.ledger) == Entries(old(db.ledger)) + BatchRows(Environment(), db.tableExists, MainJobs(pending), head)
      ensures db.applied == old(db.applied) + BatchApplied(Environment(), db.tableExists, MainJobs(pending))
      ensures r.Pass? <==> FirstFailure(Environment(), db.tableExists, MainJobs(pending)).None?
      ensures summary == BatchSummary(total, |pending|, FirstFailure(Environment(), db.tableExists, MainJobs(pending)))
      ensures r.Pass? ==>
        && summary == Summary(total, |pending|, 0, total - |pending|)
        && Checkpoint(db.ledger) == head && SinceCheckpoint(db.ledger) == |db.ledger|
        && forall s :: s in candidates ==> s.name in CompletedNames(db.ledger)
      ensures r.Fail? ==>
        var k := FirstFailure(Environment(), db.tableExists, MainJobs(pending)).value;
        && r == Fail(MigrationFailedAt(pending[k].name))
        && summary == Summary(total, k, 1, total - |pending|)
        && Checkpoint(db.ledger) == Checkpoint(old(db.ledger))
        && db.ledger[SinceCheckpoint(db.ledger)..] == old(db.ledger)[SinceCheckpoint(old(db.ledger))..] + db.ledger[|old(db.ledger)|..]
    {
      var jobs := MainJobs(pending);
      var at, res := RunJobs(jobs, head);
      AppendedRows(old(db.ledger), db.ledger, BatchRows(Environment(), db.tableExists, jobs, head));
      var rows := db.ledger[|old(db.ledger)|..];
      if at.Some? {
        FailedRunCheckpoint(Environment(), db.tableExists, pending, at.value, head, old(db.ledger), rows);
        return Fail(MigrationFailedAt(pending[at.value].name)), Summary(total, at.value, 1, total - |pending|);
      }
      CleanRunCheckpoint(Environment(), db.tableExists, pending, head, old(db.ledger), rows);
      CleanRunIsIdempotent(Environment(), db.tableExists, pending, head, old(db.ledger), rows);
      CompletedNamesAppend(old(db.ledger), rows);
      forall s | s in candidates
        ensures s.name in CompletedNames(db.ledger)
      {
        if s.name !in CompletedNames(old(db.ledger)) {
          assert s in pending;
        }
      }
      return Pass, Summary(total, |pending|, 0, total - |pending|);
    }

    /**
      Steps 5 to 12 of `Run`, after the missed-scripts pass, from the
      checkpoint `lastGitID` read before it: the checks, the discovery, and
      the batch of pending scripts, as `Migrated` states. `pending` is that
      batch (none when the run stops before step 11); HEAD is shown when it
      resolves.
     */
    method MigrateFrom(lastGitID: string)
      returns (r: Outcome, currentShown: Option<string>, summary: Option<Summary>, ghost pending: seq<Git.ScriptInfo>)
      requires Valid() && !db.txOpen
      modifies db
      ensures Valid() && !db.txOpen && db.tableExists == old(db.tableExists)
      ensures currentShown ==
        if Git.GetCurrentCommit(repo).Ok? then Some(ShortRevision(Git.GetCurrentCommit(repo).value)) else None
      ensures Migrated(lastGitID, db.tableExists, old(db.ledger), old(db.applied), r, summary, pending, db.ledger, db.applied)
    {
      pending, summary := [], None;
      var plan, head := Inspect(lastGitID);
      currentShown := if head.Some? then Some(ShortRevision(head.value)) else None;
      if plan.Err? {
        return Fail(plan.error), currentShown, summary, pending;
      }
      r, summary, pending := RunPlan(lastGitID, plan.value);
    }

    /**
      Steps 10 to 12 once the checks passed: nothing to run passes at once;
      otherwise the pending scripts run as one batch.
     */
    method RunPlan(lastGitID: string, plan: Plan)
      returns (r: Outcome, summary: Option<Summary>, ghost pending: seq<Git.ScriptInfo>)
      requires Valid() && !db.txOpen && ChecksPass(lastGitID, db.ledger)
      requires plan.head == Git.GetCurrentCommit(repo).value
      requires Git.SortedByTimestamp(plan.scripts)
      requires multiset(plan.scripts) == multiset(Candidates(repo, lastGitID, plan.head, now))
      requires plan.pending == Pending(plan.scripts, CompletedNames(db.ledger))
      modifies db
      ensures Valid() && !db.txOpen && db.tableExists == old(db.tableExists)
      ensures pending == plan.pending
      ensures Migrated(lastGitID, db.tableExists, old(db.ledger), old(db.applied), r, summary, pending, db.ledger, db.applied)
    {
      ghost var candidates := Candidates(repo, lastGitID, plan.head, now);
      PlanPending(candidates, plan.scripts, CompletedNames(db.ledger));
      assert |plan.scripts| == |candidates| by {
        assert |multiset(plan.scripts)| == |multiset(candidates)|;
      }
      if |plan.pending| == 0 {
        NothingToRun(lastGitID, db.tableExists, db.ledger, db.applied);
        return Pass, None, [];
      }
      r, summary := RunBatch(lastGitID, plan, candidates);
      pending := plan.pending;
    }

    /** Checks that pass with every discovered script completed: the run passes and changes nothing. */
    lemma NothingToRun(last: string, table: bool, before: seq<ScriptRecord>, applied0: seq<string>)
      requires ChecksPass(last, before)
      requires forall s :: s in Candidates(repo, last, Git.GetCurrentCommit(repo).value, now) ==> s.name in CompletedNames(before)
      ensures Migrated(last, table, before, applied0, Pass, None, [], before, applied0)
    {
      NothingPending(Candidates(repo, last, Git.GetCurrentCommit(repo).value, now), CompletedNames(before));
    }

    /** Step 11 and 12: the pending scripts run, and the summary counts them. */
    method RunBatch(lastGitID: string, plan: Plan, ghost candidates: seq<Git.ScriptInfo>)
      returns (r: Outcome, summary: Option<Summary>)
      requires Valid() && !db.txOpen && ChecksPass(lastGitID, db.ledger)
      requires plan.head == Git.GetCurrentCommit(repo).value
      requires candidates == Candidates(repo, lastGitID, plan.head, now)
      requires plan.pending != [] && |plan.pending| <= |plan.scripts| == |candidates|
      requires PendingFrom(candidates, CompletedNames(db.ledger), plan.pending)
      modifies db
      ensures Valid() && !db.txOpen && db.tableExists == old(db.tableExists)
      ensures Migrated(lastGitID, db.tableExists, old(db.ledger), old(db.applied), r, summary, plan.pending, db.ledger, db.applied)
    {
      var counts;
      r, counts := ExecutePending(plan.pending, |plan.scripts|, plan.head, candidates);
      summary := Some(counts);
    }

    /**
      `Run`: one migration run. The repository check and the ledger table
      come first, each stopping the run and changing nothing when it fails.
      Then the missed-scripts pass, when a list is configured, takes the
      ledger and the schema to `mid` and `midApplied` with result `missed`;
      a failure there ends the run with that error. Otherwise the rest of
      the run proceeds from `mid` as `Migrated` states, against the
      checkpoint read before the pass; `pending` is the batch it ran.
     */
    method Run() returns (r: Outcome, report: Report, ghost missed: Outcome,
                          ghost mid: seq<ScriptRecord>, ghost midApplied: seq<string>, ghost pending: seq<Git.ScriptInfo>)
      requires Valid() && !db.txOpen
      modifies db
      ensures Valid() && !db.txOpen
      ensures old(db.ledger) <= mid <= db.ledger
      ensures !Git.IsGitRepository(repo) ==>
        r == Fail(NotARepository) && report == Report(None, None, None)
        && db.ledger == old(db.ledger) && db.applied == old(db.applied)
      ensures Git.IsGitRepository(repo) && !drv.createTableOk ==>
        r == Fail(SchemaFailed) && report == Report(None, None, None)
        && db.ledger == old(db.ledger) && db.applied == old(db.applied)
      ensures Git.IsGitRepository(repo) && drv.createTableOk ==>
        && db.tableExists
        && report.lastShown == (if Checkpoint(old(db.ledger)) == "" then None else Some(ShortRevision(Checkpoint(old(db.ledger)))))
        && (missedScriptsFile == "" ==> missed == Pass && mid == old(db.ledger) && midApplied == old(db.applied))
        && (missedScriptsFile != "" ==> MissedPass(true, missed, old(db.ledger), old(db.applied), mid, midApplied))
        && (missed.Fail? ==>
              r == missed && pending == [] && report.currentShown.None? && report.summary.None?
              && db.ledger == mid && db.applied == midApplied)
        && (missed.Pass? ==>
              && report.currentShown ==
                   (if Git.GetCurrentCommit(repo).Ok? then Some(ShortRevision(Git.GetCurrentCommit(repo).value)) else None)
              && Migrated(Checkpoint(old(db.ledger)), true, mid, midApplied, r, report.summary, pending, db.ledger, db.applied))
    {
      report, missed, pending := Report(None, None, None), Pass, [];
      var lastGitID;
      r, lastGitID := Prepare();
      mid, midApplied := db.ledger, db.applied;
      if lastGitID.Some? && lastGitID.value != "" {
        report := report.(lastShown := Some(ShortRevision(lastGitID.value)));
      }
      if r.Fail? {
        missed := r;
        return;
      }
      var currentShown, summary;
      r, currentShown, summary, pending := MigrateFrom(lastGitID.value);
      report := report.(currentShown := currentShown, summary := summary);
    }
  }
}
