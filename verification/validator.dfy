/**
  The pre-flight checks that guard a run: the scripts directory is under
  version control, no previously executed script was modified or deleted
  since the checkpoint, and the unfinished batch holds no failed script.
 */
module Validator {
  import opened Common
  import opened Text
  import Git
  import opened Tracker

  /** `ValidateScriptsDirectory`: the scripts directory must lie inside a git work tree. */
  function ValidateScriptsDirectory(repo: Git.Repo): (r: Outcome)
    ensures r.Pass? <==> Git.Run(repo.revParseGitDir).Ok?
    ensures r.Fail? ==> r.error == NotARepository
  {
    if Git.IsGitRepository(repo) then Pass else Fail(NotARepository)
  }

  /** The ledger stores either the full path or the base name, so a file is known under both. */
  predicate Executed(file: string, executed: set<string>) {
    file in executed || Base(file) in executed
  }

  /** No script executed before is marked modified or deleted between the checkpoint and HEAD. */
  ghost predicate Untampered(repo: Git.Repo, last: string, head: string, executed: set<string>) {
    last != "" ==>
      && Git.StatusTable(repo, last, head).Ok?
      && var m := Git.StatusTable(repo, last, head).value;
         forall f :: f in m && Executed(f, executed) ==> m[f] != "M" && m[f] != "D"
  }

  /**
    The verdict of the tamper check: no checkpoint passes; a failing status
    diff is git's error; otherwise the executed files marked modified and
    deleted, and a failure exactly when there is one.
   */
  function TamperVerdict(repo: Git.Repo, fromCommit: string, toCommit: string, executed: set<string>): (r: Outcome)
    ensures r.Pass? <==> Untampered(repo, fromCommit, toCommit, executed)
    ensures r.Fail? && r.error.Tampered? ==> fromCommit != "" && Git.StatusTable(repo, fromCommit, toCommit).Ok?
  {
    if fromCommit == "" then Pass
    else match Git.StatusTable(repo, fromCommit, toCommit)
      case Err(e) => Fail(e)
      case Ok(m) =>
        var modified := set f | f in m && Executed(f, executed) && m[f] == "M";
        var deleted := set f | f in m && Executed(f, executed) && m[f] == "D";
        assert forall f :: f in m && Executed(f, executed) && m[f] in {"M", "D"} ==> f in modified + deleted;
        if modified == {} && deleted == {} then Pass else Fail(Tampered(modified, deleted))
  }

  /**
    `CheckFileModifications`: without a checkpoint there is nothing to check;
    otherwise the run is refused exactly when some previously executed file
    is marked modified ("M") or deleted ("D") between the checkpoint and the
    current commit, and the error names all of them.
   */
  method CheckFileModifications(repo: Git.Repo, fromCommit: string, toCommit: string, executed: set<string>)
    returns (r: Outcome)
    ensures r == TamperVerdict(repo, fromCommit, toCommit, executed)
    ensures fromCommit == "" ==> r == Pass
    ensures fromCommit != "" && Git.StatusTable(repo, fromCommit, toCommit).Err? ==>
      r == Fail(Git.StatusTable(repo, fromCommit, toCommit).error)
    ensures fromCommit != "" && Git.StatusTable(repo, fromCommit, toCommit).Ok? ==>
      var m := Git.StatusTable(repo, fromCommit, toCommit).value;
      && (r.Pass? <==> forall f :: f in m && Executed(f, executed) ==> m[f] != "M" && m[f] != "D")
      && (r.Fail? ==>
            && r.error.Tampered?
            && (forall f :: f in r.error.modified <==> f in m && Executed(f, executed) && m[f] == "M")
            && (forall f :: f in r.error.deleted <==> f in m && Executed(f, executed) && m[f] == "D"))
  {
    if fromCommit == "" {
      return Pass;
    }
    var status := Git.DiffFileStatus(repo, fromCommit, toCommit);
    if status.Err? {
      return Fail(status.error);
    }
    var statusMap := status.value;
    var modified, deleted := {}, {};
    var remaining, seen := statusMap.Keys, {};
    while remaining != {}
      invariant seen !! remaining && seen + remaining == statusMap.Keys
      invariant forall f :: f in modified <==> f in seen && Executed(f, executed) && statusMap[f] == "M"
      invariant forall f :: f in deleted <==> f in seen && Executed(f, executed) && statusMap[f] == "D"
      decreases remaining
    {
      var file :| file in remaining;
      var baseName := Base(file);
      if file in executed || baseName in executed {
        if statusMap[file] == "M" {
          modified := modified + {file};
        } else if statusMap[file] == "D" {
          deleted := deleted + {file};
        }
      }
      remaining, seen := remaining - {file}, seen + {file};
    }
    assert modified == set f | f in statusMap && Executed(f, executed) && statusMap[f] == "M";
    assert deleted == set f | f in statusMap && Executed(f, executed) && statusMap[f] == "D";
    if modified != {} || deleted != {} {
      return Fail(Tampered(modified, deleted));
    }
    forall f | f in statusMap && Executed(f, executed)
      ensures statusMap[f] != "M" && statusMap[f] != "D"
    {
      assert f !in modified && f !in deleted;
    }
    return Pass;
  }

  /** The position of the first failed row. */
  function FirstIncomplete(rows: seq<ScriptRecord>): (r: Option<nat>)
    ensures r.Some? ==> r.value < |rows| && !rows[r.value].completed
    ensures r.Some? ==> forall i :: 0 <= i < r.value ==> rows[i].completed
    ensures r.None? ==> forall i :: 0 <= i < |rows| ==> rows[i].completed
  {
    if rows == [] then None
    else if !rows[0].completed then Some(0)
    else match FirstIncomplete(rows[1..])
      case None => None
      case Some(i) => Some(i + 1)
  }

  /** The first failed row is determined by the failed row with no failed row before it. */
  lemma FirstIncompleteAt(rows: seq<ScriptRecord>, k: nat)
    requires k < |rows| && !rows[k].completed
    requires forall i :: 0 <= i < k ==> rows[i].completed
    ensures FirstIncomplete(rows) == Some(k)
  {
  }

  /** Completed rows in front shift the first failed row by their number. */
  lemma {:induction false} FirstIncompleteAfter(done: seq<ScriptRecord>, rows: seq<ScriptRecord>)
    requires forall i :: 0 <= i < |done| ==> done[i].completed
    ensures FirstIncomplete(done + rows) ==
      match FirstIncomplete(rows)
      case None => None
      case Some(j) => Some(|done| + j)
  {
    if done != [] {
      assert (done + rows)[1..] == done[1..] + rows;
      FirstIncompleteAfter(done[1..], rows);
    } else {
      assert done + rows == rows;
    }
  }

  /** The verdict on the rows after the checkpoint. */
  function HalfCommittedVerdict(rows: seq<ScriptRecord>): Outcome {
    match FirstIncomplete(rows)
    case None => Pass
    case Some(i) => Fail(FailedBatch(rows[i].scriptName))
  }

  /**
    `CheckHalfCommittedFiles`: rows after the checkpoint that all completed
    let the run continue; otherwise it stops, naming the first failed one.
   */
  method CheckHalfCommittedFiles(halfCommitted: seq<ScriptRecord>) returns (r: Outcome)
    ensures r == HalfCommittedVerdict(halfCommitted)
    ensures r.Pass? <==> forall i :: 0 <= i < |halfCommitted| ==> halfCommitted[i].completed
    ensures r.Fail? ==>
      exists i :: 0 <= i < |halfCommitted| && !halfCommitted[i].completed && r == Fail(FailedBatch(halfCommitted[i].scriptName))
  {
    if |halfCommitted| == 0 {
      return Pass;
    }
    var k := 0;
    while k < |halfCommitted|
      invariant 0 <= k <= |halfCommitted|
      invariant forall i :: 0 <= i < k ==> halfCommitted[i].completed
    {
      if !halfCommitted[k].completed {
        assert FirstIncomplete(halfCommitted) == Some(k);
        return Fail(FailedBatch(halfCommitted[k].scriptName));
      }
      k := k + 1;
    }
    return Pass;
  }
}
