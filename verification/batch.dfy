/**
  What executing scripts does to the ledger, stated as functions of the
  environment's answers: one script (read, begin, execute, record, commit),
  a batch of scripts that stops at the first failure, the missed-scripts
  list, and the filter that picks the scripts still to run.
 */
module Batch {
  import opened Common
  import opened Text
  import Git
  import opened Tracker
  import Validator

  /**
    The database driver's answer to each call made while executing the named
    script (the driver is deterministic per script name).
   */
  datatype Driver = Driver(
    beginOk: string -> bool,        // db.Begin()
    execOk: string -> bool,         // ExecuteSQL of the script's contents
    insertOk: string -> bool,       // INSERT of the success row inside the transaction
    directInsertOk: string -> bool, // INSERT of the failure row outside the transaction
    commitOk: string -> bool,       // tx.Commit()
    createTableOk: bool)            // CREATE TABLE IF NOT EXISTS

  /** `os.ReadFile`: a file's contents, or None when it cannot be opened or read. */
  datatype FileSystem = FileSystem(readFile: string -> Option<string>)

  /** Everything a script's execution depends on besides the database state. */
  datatype Env = Env(drv: Driver, fs: FileSystem, scriptsDir: string)

  /**
    `filepath.Join(dir, name)` for two elements: an empty element is dropped
    and the directory loses its trailing slashes (the only cleaning modelled).
   */
  function JoinPath(dir: string, name: string): string {
    if dir == "" then name
    else if name == "" then CleanTrailing(dir)
    else TrimTrailingSlashes(dir) + "/" + name
  }

  /**
    A slash-free name joined to a directory is the base name of the joined
    path, and the directory, without its trailing slashes, is what remains.
   */
  lemma JoinPathParts(dir: string, name: string)
    requires name != "" && '/' !in name
    ensures Base(JoinPath(dir, name)) == name
    ensures dir != "" ==> Dir(JoinPath(dir, name)) == CleanTrailing(dir)
  {
    if dir == "" {
      BaseOfJoin("", name);
    } else {
      var d := TrimTrailingSlashes(dir);
      BaseOfJoin(d, name);
      DirOfJoin(d, name);
    }
  }

  /** The script's contents: by name under the scripts directory, else at its own path. */
  function ReadScript(env: Env, script: Git.ScriptInfo): (r: Option<string>)
    ensures r.Some? <==> env.fs.readFile(JoinPath(env.scriptsDir, script.name)).Some? || env.fs.readFile(script.path).Some?
    ensures env.fs.readFile(JoinPath(env.scriptsDir, script.name)).Some? ==> r == env.fs.readFile(JoinPath(env.scriptsDir, script.name))
    ensures env.fs.readFile(JoinPath(env.scriptsDir, script.name)).None? ==> r == env.fs.readFile(script.path)
  {
    match env.fs.readFile(JoinPath(env.scriptsDir, script.name))
    case Some(content) => Some(content)
    case None => env.fs.readFile(script.path)
  }

  // ---------------------------------------------------------------------------
  // One script

  /** Where `executeScript` stops. */
  datatype StepOutcome = Unreadable | NoTransaction | SqlError | RecordError | CommitError | Done

  /**
    The outcome of executing one script; `table` says whether the ledger
    table exists (an INSERT into a missing table fails).
   */
  function Step(env: Env, table: bool, script: Git.ScriptInfo): (o: StepOutcome)
    ensures o == Unreadable <==> ReadScript(env, script).None?
    ensures o == Done <==>
      && ReadScript(env, script).Some? && env.drv.beginOk(script.name) && env.drv.execOk(script.name)
      && env.drv.insertOk(script.name) && table && env.drv.commitOk(script.name)
  {
    if ReadScript(env, script).None? then Unreadable
    else if !env.drv.beginOk(script.name) then NoTransaction
    else if !env.drv.execOk(script.name) then SqlError
    else if !(env.drv.insertOk(script.name) && table) then RecordError
    else if !env.drv.commitOk(script.name) then CommitError
    else Done
  }

  /** The error `executeScript` returns for an outcome. */
  function StepResult(o: StepOutcome, name: string): (r: Outcome)
    ensures r.Pass? <==> o == Done
  {
    match o
    case Unreadable => Fail(ScriptUnreadable(name))
    case NoTransaction => Fail(BeginFailed)
    case SqlError => Fail(ScriptFailed(name))
    case RecordError => Fail(RecordFailed(name))
    case CommitError => Fail(CommitFailed)
    case Done => Pass
  }

  /**
    The ledger rows one execution leaves: the committed success row, or the
    failure row written outside the transaction after a statement error
    (when that INSERT itself succeeds); nothing otherwise.
   */
  function StepRows(env: Env, table: bool, script: Git.ScriptInfo, isLast: bool, gitId: string): (rows: seq<Entry>)
    ensures |rows| <= 1
    ensures Step(env, table, script) == Done ==> rows == [Entry(script.name, true, isLast, Some(gitId))]
    ensures Step(env, table, script) == SqlError ==> (rows != [] <==> env.drv.directInsertOk(script.name) && table)
    ensures Step(env, table, script) !in {Done, SqlError} ==> rows == []
    ensures rows != [] ==> rows[0].scriptName == script.name && rows[0].lastGitId == Some(gitId)
    ensures rows != [] ==> (rows[0].completed <==> Step(env, table, script) == Done)
    ensures rows != [] && rows[0].endOfBatch ==> rows[0].completed && isLast
  {
    match Step(env, table, script)
    case Done => [Entry(script.name, true, isLast, Some(gitId))]
    case SqlError =>
      if env.drv.directInsertOk(script.name) && table then [Entry(script.name, false, false, Some(gitId))] else []
    case _ => []
  }

  /** The statement batches one execution leaves committed in the target schema. */
  function StepApplied(env: Env, table: bool, script: Git.ScriptInfo): (applied: seq<string>)
    ensures |applied| <= 1
    ensures applied != [] <==> Step(env, table, script) == Done
    ensures Step(env, table, script) == Done ==> applied == [ReadScript(env, script).value]
  {
    if Step(env, table, script) == Done then [ReadScript(env, script).value] else []
  }

  // ---------------------------------------------------------------------------
  // A batch

  /** One loop iteration: the script, whether it is skipped, and whether it is flagged last. */
  datatype Job = Job(script: Git.ScriptInfo, skip: bool, isLast: bool)

  predicate Completes(env: Env, table: bool, job: Job) {
    job.skip || Step(env, table, job.script) == Done
  }

  function JobRows(env: Env, table: bool, job: Job, gitId: string): seq<Entry> {
    if job.skip then [] else StepRows(env, table, job.script, job.isLast, gitId)
  }

  function JobApplied(env: Env, table: bool, job: Job): seq<string> {
    if job.skip then [] else StepApplied(env, table, job.script)
  }

  /** The position of the first job that does not complete. */
  function FirstFailure(env: Env, table: bool, jobs: seq<Job>): (r: Option<nat>)
    ensures r.Some? ==> r.value < |jobs| && !Completes(env, table, jobs[r.value])
    ensures r.Some? ==> forall i :: 0 <= i < r.value ==> Completes(env, table, jobs[i])
    ensures r.None? ==> forall i :: 0 <= i < |jobs| ==> Completes(env, table, jobs[i])
  {
    if jobs == [] then None
    else
      var init := jobs[..|jobs| - 1];
      assert forall i :: 0 <= i < |init| ==> init[i] == jobs[i];
      match FirstFailure(env, table, init)
      case Some(i) => Some(i)
      case None => if Completes(env, table, jobs[|jobs| - 1]) then None else Some(|jobs| - 1)
  }

  /** The rows a batch leaves: those of every job up to and including the first failing one. */
  function BatchRows(env: Env, table: bool, jobs: seq<Job>, gitId: string): seq<Entry> {
    if jobs == [] then []
    else
      var init := jobs[..|jobs| - 1];
      if FirstFailure(env, table, init).Some? then BatchRows(env, table, init, gitId)
      else BatchRows(env, table, init, gitId) + JobRows(env, table, jobs[|jobs| - 1], gitId)
  }

  /** The statement batches a batch of jobs leaves committed. */
  function BatchApplied(env: Env, table: bool, jobs: seq<Job>): seq<string> {
    if jobs == [] then []
    else
      var init := jobs[..|jobs| - 1];
      if FirstFailure(env, table, init).Some? then BatchApplied(env, table, init)
      else BatchApplied(env, table, init) + JobApplied(env, table, jobs[|jobs| - 1])
  }

  /** One more job after a clean prefix adds that job's rows and batches. */
  lemma BatchExtend(env: Env, table: bool, jobs: seq<Job>, k: nat, gitId: string)
    requires k < |jobs| && FirstFailure(env, table, jobs[..k]).None?
    ensures BatchRows(env, table, jobs[..k + 1], gitId) == BatchRows(env, table, jobs[..k], gitId) + JobRows(env, table, jobs[k], gitId)
    ensures BatchApplied(env, table, jobs[..k + 1]) == BatchApplied(env, table, jobs[..k]) + JobApplied(env, table, jobs[k])
    ensures FirstFailure(env, table, jobs[..k + 1]) == if Completes(env, table, jobs[k]) then None else Some(k)
  {
    assert jobs[..k + 1][..k] == jobs[..k];
  }

  /** The same step seen from a ledger and a schema that already held `rows0` and `applied0`. */
  lemma BatchExtendFrom(env: Env, table: bool, jobs: seq<Job>, k: nat, gitId: string,
                        rows0: seq<Entry>, applied0: seq<string>)
    requires k < |jobs| && FirstFailure(env, table, jobs[..k]).None?
    ensures rows0 + BatchRows(env, table, jobs[..k], gitId) + JobRows(env, table, jobs[k], gitId)
         == rows0 + BatchRows(env, table, jobs[..k + 1], gitId)
    ensures applied0 + BatchApplied(env, table, jobs[..k]) + JobApplied(env, table, jobs[k])
         == applied0 + BatchApplied(env, table, jobs[..k + 1])
    ensures FirstFailure(env, table, jobs[..k + 1]) == if Completes(env, table, jobs[k]) then None else Some(k)
  {
    BatchExtend(env, table, jobs, k, gitId);
  }

  /** A job that does not complete after a clean prefix ends the batch: its effect is the whole batch's. */
  lemma BatchFailsAt(env: Env, table: bool, jobs: seq<Job>, k: nat, gitId: string,
                     rows0: seq<Entry>, applied0: seq<string>)
    requires k < |jobs| && FirstFailure(env, table, jobs[..k]).None? && !Completes(env, table, jobs[k])
    ensures FirstFailure(env, table, jobs) == Some(k)
    ensures rows0 + BatchRows(env, table, jobs[..k], gitId) + JobRows(env, table, jobs[k], gitId)
         == rows0 + BatchRows(env, table, jobs, gitId)
    ensures applied0 + BatchApplied(env, table, jobs[..k]) + JobApplied(env, table, jobs[k])
         == applied0 + BatchApplied(env, table, jobs)
  {
    BatchExtendFrom(env, table, jobs, k, gitId, rows0, applied0);
    BatchStopsAtFailure(env, table, jobs, k + 1, gitId);
  }

  /** The loop's last prefix is the whole batch. */
  lemma BatchWhole(env: Env, table: bool, jobs: seq<Job>, gitId: string)
    requires FirstFailure(env, table, jobs[..|jobs|]).None?
    ensures FirstFailure(env, table, jobs).None?
    ensures BatchRows(env, table, jobs[..|jobs|], gitId) == BatchRows(env, table, jobs, gitId)
    ensures BatchApplied(env, table, jobs[..|jobs|]) == BatchApplied(env, table, jobs)
  {
    assert jobs[..|jobs|] == jobs;
  }

  /** A batch that fails at job `k` leaves the rows of the clean prefix and of job `k`. */
  lemma BatchAtFailure(env: Env, table: bool, jobs: seq<Job>, k: nat, gitId: string)
    requires FirstFailure(env, table, jobs) == Some(k)
    ensures FirstFailure(env, table, jobs[..k]).None?
    ensures BatchRows(env, table, jobs, gitId) == BatchRows(env, table, jobs[..k], gitId) + JobRows(env, table, jobs[k], gitId)
    ensures BatchApplied(env, table, jobs) == BatchApplied(env, table, jobs[..k]) + JobApplied(env, table, jobs[k])
  {
    assert forall i :: 0 <= i < k ==> jobs[..k][i] == jobs[i];
    BatchExtend(env, table, jobs, k, gitId);
    BatchStopsAtFailure(env, table, jobs, k + 1, gitId);
  }

  /** Nothing after the first failure runs: the batch's effect is that of its prefix. */
  lemma {:induction false} BatchStopsAtFailure(env: Env, table: bool, jobs: seq<Job>, k: nat, gitId: string)
    requires k <= |jobs| && FirstFailure(env, table, jobs[..k]).Some?
    ensures FirstFailure(env, table, jobs) == FirstFailure(env, table, jobs[..k])
    ensures BatchRows(env, table, jobs, gitId) == BatchRows(env, table, jobs[..k], gitId)
    ensures BatchApplied(env, table, jobs) == BatchApplied(env, table, jobs[..k])
    decreases |jobs| - k
  {
    if k == |jobs| {
      assert jobs[..k] == jobs;
    } else {
      var init := jobs[..|jobs| - 1];
      assert init[..k] == jobs[..k];
      BatchStopsAtFailure(env, table, init, k, gitId);
    }
  }

  /**
    A batch without skipped jobs that runs to the end leaves one completed row
    per job, in order, flagged end-of-batch exactly where the job is.
   */
  lemma {:induction false} CleanBatchRows(env: Env, table: bool, jobs: seq<Job>, gitId: string)
    requires forall i :: 0 <= i < |jobs| ==> !jobs[i].skip
    requires FirstFailure(env, table, jobs).None?
    ensures |BatchRows(env, table, jobs, gitId)| == |jobs|
    ensures forall i :: 0 <= i < |jobs| ==>
      BatchRows(env, table, jobs, gitId)[i] == Entry(jobs[i].script.name, true, jobs[i].isLast, Some(gitId))
  {
    if jobs != [] {
      var init := jobs[..|jobs| - 1];
      assert forall i :: 0 <= i < |init| ==> init[i] == jobs[i];
      CleanBatchRows(env, table, init, gitId);
    }
  }

  /** Jobs none of which both runs and is flagged last never write an end-of-batch row. */
  lemma {:induction false} NoBatchEnd(env: Env, table: bool, jobs: seq<Job>, gitId: string)
    requires forall i :: 0 <= i < |jobs| ==> jobs[i].skip || !jobs[i].isLast
    ensures forall e :: e in BatchRows(env, table, jobs, gitId) ==> !e.endOfBatch
  {
    if jobs != [] {
      var init := jobs[..|jobs| - 1];
      assert forall i :: 0 <= i < |init| ==> init[i] == jobs[i];
      NoBatchEnd(env, table, init, gitId);
    }
  }

  // ---------------------------------------------------------------------------
  // The discovered batch

  /** Run's loop over the pending scripts: none skipped, the last one flagged. */
  function MainJobs(pending: seq<Git.ScriptInfo>): (jobs: seq<Job>)
    ensures |jobs| == |pending|
    ensures forall i :: 0 <= i < |pending| ==> jobs[i] == Job(pending[i], false, i == |pending| - 1)
  {
    seq(|pending|, i requires 0 <= i < |pending| => Job(pending[i], false, i == |pending| - 1))
  }

  /**
    A discovered batch that runs to the end leaves one completed row per
    script, in order, and only the last one closes the batch.
   */
  lemma CleanRun(env: Env, table: bool, pending: seq<Git.ScriptInfo>, gitId: string)
    requires FirstFailure(env, table, MainJobs(pending)).None?
    ensures |BatchRows(env, table, MainJobs(pending), gitId)| == |pending|
    ensures forall i :: 0 <= i < |pending| ==>
      BatchRows(env, table, MainJobs(pending), gitId)[i] == Entry(pending[i].name, true, i == |pending| - 1, Some(gitId))
  {
    CleanBatchRows(env, table, MainJobs(pending), gitId);
  }

  /**
    A discovered batch that fails at script `k` leaves the completed rows of
    the scripts before it, then at most the failure row of script `k`, and no
    row of it closes the batch.
   */
  lemma FailedRun(env: Env, table: bool, pending: seq<Git.ScriptInfo>, k: nat, gitId: string)
    requires FirstFailure(env, table, MainJobs(pending)) == Some(k)
    ensures var rows := BatchRows(env, table, MainJobs(pending), gitId);
      && |rows| == k + |StepRows(env, table, pending[k], k == |pending| - 1, gitId)|
      && (forall i :: 0 <= i < k ==> rows[i] == Entry(pending[i].name, true, false, Some(gitId)))
      && (|rows| > k ==> rows[k] == StepRows(env, table, pending[k], k == |pending| - 1, gitId)[0])
      && (forall e :: e in rows ==> !e.endOfBatch)
  {
    var jobs := MainJobs(pending);
    BatchAtFailure(env, table, jobs, k, gitId);
    MainPrefixRows(env, table, pending, k, gitId);
    var pre := BatchRows(env, table, jobs[..k], gitId);
    var last := StepRows(env, table, pending[k], k == |pending| - 1, gitId);
    assert jobs[k] == Job(pending[k], false, k == |pending| - 1);
    assert JobRows(env, table, jobs[k], gitId) == last;
    assert forall i :: 0 <= i < |last| ==> !last[i].endOfBatch by {
      assert Step(env, table, pending[k]) != Done;
    }
    NoBatchEndIn(pre, last);
  }

  /** The clean prefix of a discovered batch: completed rows, none of them closing the batch. */
  lemma MainPrefixRows(env: Env, table: bool, pending: seq<Git.ScriptInfo>, k: nat, gitId: string)
    requires k < |pending| && FirstFailure(env, table, MainJobs(pending)[..k]).None?
    ensures var pre := BatchRows(env, table, MainJobs(pending)[..k], gitId);
      && |pre| == k
      && forall i :: 0 <= i < k ==> pre[i] == Entry(pending[i].name, true, false, Some(gitId))
  {
    var prefix := MainJobs(pending)[..k];
    assert forall i :: 0 <= i < k ==> prefix[i] == Job(pending[i], false, false);
    CleanBatchRows(env, table, prefix, gitId);
  }

  lemma NoBatchEndIn(pre: seq<Entry>, last: seq<Entry>)
    requires forall i :: 0 <= i < |pre| ==> !pre[i].endOfBatch
    requires forall i :: 0 <= i < |last| ==> !last[i].endOfBatch
    ensures forall e :: e in pre + last ==> !e.endOfBatch
  {
  }

  // ---------------------------------------------------------------------------
  // The missed-scripts list

  /** The names a list of lines holds: each line trimmed, blank lines and `#` comments dropped. */
  function ListedNames(lines: seq<string>): (names: seq<string>)
    ensures |names| <= |lines|
    ensures forall i :: 0 <= i < |names| ==> names[i] != "" && !HasPrefix(names[i], "#")
  {
    if lines == [] then []
    else
      var line := TrimSpace(lines[|lines| - 1]);
      ListedNames(lines[..|lines| - 1]) + (if Kept(line) then [line] else [])
  }

  /** A trimmed line the list keeps: neither blank nor a `#` comment. */
  predicate Kept(line: string) {
    line != "" && !HasPrefix(line, "#")
  }

  lemma {:induction false} ListedFromLines(lines: seq<string>)
    ensures forall n :: n in ListedNames(lines) ==> exists i :: 0 <= i < |lines| && TrimSpace(lines[i]) == n && Kept(n)
  {
    if lines != [] {
      var init, line := lines[..|lines| - 1], TrimSpace(lines[|lines| - 1]);
      ListedFromLines(init);
      assert ListedNames(lines) == ListedNames(init) + (if Kept(line) then [line] else []);
      forall n | n in ListedNames(lines)
        ensures exists i :: 0 <= i < |lines| && TrimSpace(lines[i]) == n && Kept(n)
      {
        if n in ListedNames(init) {
          var i :| 0 <= i < |init| && TrimSpace(init[i]) == n && Kept(n);
          assert lines[i] == init[i];
        } else {
          assert TrimSpace(lines[|lines| - 1]) == n;
        }
      }
    }
  }

  lemma {:induction false} LineListed(lines: seq<string>, i: nat)
    requires i < |lines| && Kept(TrimSpace(lines[i]))
    ensures TrimSpace(lines[i]) in ListedNames(lines)
  {
    var n := TrimSpace(lines[i]);
    var names := ListedNames(lines);
    if i == |lines| - 1 {
      ListedNamesLast(lines);
    } else {
      var init := lines[..|lines| - 1];
      assert init[i] == lines[i];
      LineListed(init, i);
      ListedNamesLast(lines);
      var k :| 0 <= k < |ListedNames(init)| && ListedNames(init)[k] == n;
      assert names[k] == n;
    }
  }

  /** The names of all lines but the last are a prefix of the names of all lines; the last line ends them when kept. */
  lemma ListedNamesLast(lines: seq<string>)
    requires lines != []
    ensures ListedNames(lines[..|lines| - 1]) <= ListedNames(lines)
    ensures Kept(TrimSpace(lines[|lines| - 1])) ==> ListedNames(lines)[|ListedNames(lines)| - 1] == TrimSpace(lines[|lines| - 1])
  {
  }

  /** The scanner's lines: the text split at newlines (a final empty line is dropped by ListedNames). */
  function MissedNames(content: string): seq<string> {
    ListedNames(Split(content, '\n'))
  }

  /** A name the list format can carry: non-blank, untrimmable, one line, not a comment. */
  predicate ListableName(name: string) {
    name != "" && !IsSpace(name[0]) && !IsSpace(name[|name| - 1]) && '\n' !in name && name[0] != '#'
  }

  lemma ListableTrimmed(name: string)
    requires ListableName(name)
    ensures TrimSpace(name) == name && !HasPrefix(name, "#")
  {
    TrimSpacePadded("", name, "");
    assert "" + name + "" == name;
  }

  lemma {:induction false} ListedNamesOfNames(names: seq<string>)
    requires forall i :: 0 <= i < |names| ==> ListableName(names[i])
    ensures ListedNames(names) == names
  {
    if names != [] {
      var init, n := names[..|names| - 1], names[|names| - 1];
      ListableTrimmed(n);
      ListedNamesOfNames(init);
      assert names == init + [n];
    }
  }

  /** Writing names one per line and reading the list back gives the same names, in order. */
  lemma MissedNamesOfJoin(names: seq<string>)
    requires names != []
    requires forall i :: 0 <= i < |names| ==> ListableName(names[i])
    ensures MissedNames(Join(names, '\n')) == names
  {
    SplitJoin(names, '\n');
    ListedNamesOfNames(names);
  }

  /**
    `executeMissedScripts`' loop: every listed name, skipped when the ledger
    already held it before the loop began, flagged last by its position in
    the whole list (skipped names included).
   */
  function MissedJobs(names: seq<string>, executed: set<string>, scriptsDir: string): (jobs: seq<Job>)
    ensures |jobs| == |names|
    ensures forall i :: 0 <= i < |names| ==>
      jobs[i] == Job(Git.ScriptInfo(names[i], JoinPath(scriptsDir, names[i]), 0), names[i] in executed, i == |names| - 1)
  {
    seq(|names|, i requires 0 <= i < |names| =>
      Job(Git.ScriptInfo(names[i], JoinPath(scriptsDir, names[i]), 0), names[i] in executed, i == |names| - 1))
  }

  /** When the last listed name was already executed, the missed-scripts pass closes no batch. */
  lemma MissedLastSkipped(env: Env, table: bool, names: seq<string>, executed: set<string>, gitId: string)
    requires names != [] && names[|names| - 1] in executed
    ensures forall e :: e in BatchRows(env, table, MissedJobs(names, executed, env.scriptsDir), gitId) ==> !e.endOfBatch
  {
    NoBatchEnd(env, table, MissedJobs(names, executed, env.scriptsDir), gitId);
  }

  /**
    When the last listed name was not executed before and no listed script
    fails, the missed-scripts pass closes a batch at `gitId`: that commit
    becomes the checkpoint, with no row after it.
   */
  lemma MissedLastRuns(env: Env, table: bool, names: seq<string>, executed: set<string>, gitId: string,
                       before: seq<ScriptRecord>, rows: seq<ScriptRecord>)
    requires names != [] && names[|names| - 1] !in executed
    requires FirstFailure(env, table, MissedJobs(names, executed, env.scriptsDir)).None?
    requires Entries(rows) == BatchRows(env, table, MissedJobs(names, executed, env.scriptsDir), gitId)
    ensures Checkpoint(before + rows) == gitId
    ensures SinceCheckpoint(before + rows) == |before + rows|
  {
    var jobs := MissedJobs(names, executed, env.scriptsDir);
    var init, last := jobs[..|jobs| - 1], jobs[|jobs| - 1];
    assert FirstFailure(env, table, init).None? by {
      assert forall i :: 0 <= i < |init| ==> init[i] == jobs[i];
    }
    assert Completes(env, table, last) && !last.skip && last.isLast;
    assert JobRows(env, table, last, gitId) == [Entry(names[|names| - 1], true, true, Some(gitId))];
    assert EntryOf(rows[|rows| - 1]) == Entries(rows)[|rows| - 1];
    AppendBatchEnd(before, rows);
  }

  // ---------------------------------------------------------------------------
  // Pending scripts

  /** The discovered scripts whose name the ledger does not hold as completed, in order. */
  function Pending(scripts: seq<Git.ScriptInfo>, executed: set<string>): (r: seq<Git.ScriptInfo>)
    ensures |r| <= |scripts|
    ensures forall s :: s in r <==> s in scripts && s.name !in executed
  {
    if scripts == [] then []
    else
      var init := scripts[..|scripts| - 1];
      var s := scripts[|scripts| - 1];
      assert scripts == init + [s];
      Pending(init, executed) + (if s.name !in executed then [s] else [])
  }

  /** Filtering drops every copy of a completed script and keeps every copy of any other. */
  lemma {:induction false} PendingCount(scripts: seq<Git.ScriptInfo>, executed: set<string>, x: Git.ScriptInfo)
    ensures multiset(Pending(scripts, executed))[x] == if x.name in executed then 0 else multiset(scripts)[x]
  {
    if scripts != [] {
      var init, s := scripts[..|scripts| - 1], scripts[|scripts| - 1];
      assert scripts == init + [s];
      PendingCount(init, executed, x);
    }
  }

  /** Scripts whose names are all completed leave nothing pending. */
  lemma {:induction false} NothingPending(scripts: seq<Git.ScriptInfo>, executed: set<string>)
    requires forall i :: 0 <= i < |scripts| ==> scripts[i].name in executed
    ensures Pending(scripts, executed) == []
  {
    if scripts != [] {
      NothingPending(scripts[..|scripts| - 1], executed);
    }
  }

  /**
    Filtering keeps the discovered order: the pending scripts of two runs of
    discovered scripts are those of the first run followed by those of the second.
   */
  lemma {:induction false} PendingAppend(front: seq<Git.ScriptInfo>, back: seq<Git.ScriptInfo>, executed: set<string>)
    ensures Pending(front + back, executed) == Pending(front, executed) + Pending(back, executed)
    decreases |back|
  {
    if back == [] {
      assert front + back == front;
    } else {
      var init, s := back[..|back| - 1], back[|back| - 1];
      assert (front + back)[..|front + back| - 1] == front + init;
      PendingAppend(front, init, executed);
    }
  }

  /** Pending scripts stay oldest first. */
  lemma {:induction false} PendingSorted(scripts: seq<Git.ScriptInfo>, executed: set<string>)
    requires Git.SortedByTimestamp(scripts)
    ensures Git.SortedByTimestamp(Pending(scripts, executed))
  {
    if scripts != [] {
      var init, s := scripts[..|scripts| - 1], scripts[|scripts| - 1];
      assert forall i :: 0 <= i < |init| ==> init[i] == scripts[i];
      PendingSorted(init, executed);
      var p := Pending(init, executed);
      forall x | x in p
        ensures x.timestamp <= s.timestamp
      {
        var i :| 0 <= i < |init| && init[i] == x;
      }
    }
  }

  // ---------------------------------------------------------------------------
  // What a batch means for the next run

  /**
    After a discovered batch ran to the end, a second run over the same
    scripts finds none pending: every one is now a completed row.
   */
  lemma CleanRunIsIdempotent(env: Env, table: bool, pending: seq<Git.ScriptInfo>, gitId: string,
                             before: seq<ScriptRecord>, rows: seq<ScriptRecord>)
    requires FirstFailure(env, table, MainJobs(pending)).None?
    requires Entries(rows) == BatchRows(env, table, MainJobs(pending), gitId)
    ensures Pending(pending, CompletedNames(before + rows)) == []
  {
    CleanRun(env, table, pending, gitId);
    CompletedNamesAppend(before, rows);
    var executed := CompletedNames(before + rows);
    forall i | 0 <= i < |pending| ensures pending[i].name in executed {
      assert EntryOf(rows[i]) == Entry(pending[i].name, true, i == |pending| - 1, Some(gitId));
    }
    NothingPending(pending, executed);
  }

  /**
    A discovered batch that ran to the end moves the checkpoint to its
    commit and leaves no row after it.
   */
  lemma CleanRunCheckpoint(env: Env, table: bool, pending: seq<Git.ScriptInfo>, gitId: string,
                           before: seq<ScriptRecord>, rows: seq<ScriptRecord>)
    requires pending != []
    requires FirstFailure(env, table, MainJobs(pending)).None?
    requires Entries(rows) == BatchRows(env, table, MainJobs(pending), gitId)
    ensures Checkpoint(before + rows) == gitId
    ensures SinceCheckpoint(before + rows) == |before + rows|
  {
    CleanRun(env, table, pending, gitId);
    assert EntryOf(rows[|rows| - 1]) == Entry(pending[|pending| - 1].name, true, true, Some(gitId));
    AppendBatchEnd(before, rows);
  }

  /**
    A discovered batch that failed leaves the checkpoint where it was; its
    rows join the rows after the checkpoint.
   */
  lemma FailedRunCheckpoint(env: Env, table: bool, pending: seq<Git.ScriptInfo>, k: nat, gitId: string,
                            before: seq<ScriptRecord>, rows: seq<ScriptRecord>)
    requires FirstFailure(env, table, MainJobs(pending)) == Some(k)
    requires Entries(rows) == BatchRows(env, table, MainJobs(pending), gitId)
    ensures Checkpoint(before + rows) == Checkpoint(before)
    ensures (before + rows)[SinceCheckpoint(before + rows)..] == before[SinceCheckpoint(before)..] + rows
  {
    FailedRun(env, table, pending, k, gitId);
    forall j | 0 <= j < |rows| ensures !rows[j].endOfBatch {
      assert EntryOf(rows[j]) in BatchRows(env, table, MainJobs(pending), gitId);
    }
    AppendWithoutBatchEnd(before, rows);
  }

  /**
    A batch stopped by a statement error whose failure row was recorded makes
    the next run refuse to continue, naming that script, provided the rows
    after the checkpoint had all completed when this run began.
   */
  lemma SqlFailureBlocksNextRun(env: Env, table: bool, pending: seq<Git.ScriptInfo>, k: nat, gitId: string,
                                before: seq<ScriptRecord>, rows: seq<ScriptRecord>)
    requires FirstFailure(env, table, MainJobs(pending)) == Some(k)
    requires Step(env, table, pending[k]) == SqlError && env.drv.directInsertOk(pending[k].name) && table
    requires Entries(rows) == BatchRows(env, table, MainJobs(pending), gitId)
    requires Validator.HalfCommittedVerdict(before[SinceCheckpoint(before)..]) == Pass
    ensures Validator.HalfCommittedVerdict((before + rows)[SinceCheckpoint(before + rows)..])
      == Fail(FailedBatch(pending[k].name))
  {
    FailedRunCheckpoint(env, table, pending, k, gitId, before, rows);
    SqlFailureRows(env, table, pending, k, gitId, rows);
    var half := before[SinceCheckpoint(before)..];
    assert Validator.FirstIncomplete(half).None?;
    Validator.FirstIncompleteAt(rows, k);
    Validator.FirstIncompleteAfter(half, rows);
    assert (half + rows)[|half| + k] == rows[k];
  }

  /** The rows of a batch stopped by a recorded statement error: completed ones, then the failed one. */
  lemma SqlFailureRows(env: Env, table: bool, pending: seq<Git.ScriptInfo>, k: nat, gitId: string,
                       rows: seq<ScriptRecord>)
    requires FirstFailure(env, table, MainJobs(pending)) == Some(k)
    requires Step(env, table, pending[k]) == SqlError && env.drv.directInsertOk(pending[k].name) && table
    requires Entries(rows) == BatchRows(env, table, MainJobs(pending), gitId)
    ensures |rows| == k + 1
    ensures forall i :: 0 <= i < k ==> rows[i].completed
    ensures !rows[k].completed && rows[k].scriptName == pending[k].name
  {
    FailedRun(env, table, pending, k, gitId);
    forall i | 0 <= i < k ensures rows[i].completed {
      assert EntryOf(rows[i]) == Entries(rows)[i];
    }
    assert EntryOf(rows[k]) == Entries(rows)[k];
  }
}
