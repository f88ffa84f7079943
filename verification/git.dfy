/**
  The git adapter: the engine's only view of version-control history. Every
  git invocation is an oracle answer held in a `Repo`; what the model keeps is
  how those answers are parsed, filtered, ordered and classified.
 */
module Git {
  import opened Common
  import opened Text

  /** What one git invocation produced: its standard output, or its failure. */
  datatype GitReply = Output(stdout: string) | Failed(stderr: string)

  /**
    A git instance for the scripts directory, given by what the repository
    answers to each command the engine issues.
   */
  datatype Repo = Repo(
    revParseHead: GitReply,                       // git rev-parse HEAD
    revParseGitDir: GitReply,                     // git rev-parse --git-dir
    hashEmptyTree: GitReply,                      // git hash-object -t tree /dev/null
    diffNameOnly: (string, string) -> GitReply,   // git diff --name-only <from> <to>
    diffNameStatus: (string, string) -> GitReply, // git diff --name-status <from> <to>
    logFirstAdded: string -> GitReply)            // git log --follow --diff-filter=A --format=%ct -1 -- <path>

  /** One discovered script: its base name, its repository path and its first-add time. */
  datatype ScriptInfo = ScriptInfo(name: string, path: string, timestamp: int)

  /** `run`: the trimmed standard output, or the failure as an error. */
  function Run(reply: GitReply): (r: Result<string>)
    ensures r.Ok? <==> reply.Output?
    ensures r.Ok? ==> r.value == TrimSpace(reply.stdout)
  {
    match reply
    case Output(out) => Ok(TrimSpace(out))
    case Failed(e) => Err(GitFailed(e))
  }

  function GetCurrentCommit(repo: Repo): Result<string> {
    Run(repo.revParseHead)
  }

  function GetEmptyTreeHash(repo: Repo): Result<string> {
    Run(repo.hashEmptyTree)
  }

  /** True when `git rev-parse --git-dir` succeeds. */
  predicate IsGitRepository(repo: Repo) {
    Run(repo.revParseGitDir).Ok?
  }

  /** The revision a diff starts from: the empty tree stands in for a missing checkpoint. */
  function DiffBase(repo: Repo, fromCommit: string): Result<string> {
    if fromCommit == "" then GetEmptyTreeHash(repo) else Ok(fromCommit)
  }

  // ---------------------------------------------------------------------------
  // git diff --name-only

  /**
    `DiffFileNames`: the changed paths, exactly the newline-separated lines of
    the trimmed output, and no paths at all for empty output.
   */
  function DiffFileNames(repo: Repo, fromCommit: string, toCommit: string): (r: Result<seq<string>>)
    ensures r.Ok? <==> DiffBase(repo, fromCommit).Ok?
                       && repo.diffNameOnly(DiffBase(repo, fromCommit).value, toCommit).Output?
    ensures r.Ok? ==>
      var out := TrimSpace(repo.diffNameOnly(DiffBase(repo, fromCommit).value, toCommit).stdout);
      && (r.value == [] <==> out == "")
      && (out != "" ==> Join(r.value, '\n') == out)
      && (forall i :: 0 <= i < |r.value| ==> '\n' !in r.value[i])
  {
    var base :- DiffBase(repo, fromCommit);
    var output :- Run(repo.diffNameOnly(base, toCommit));
    if output == "" then Ok([])
    else
      JoinSplit(output, '\n');
      Ok(Split(output, '\n'))
  }

  // ---------------------------------------------------------------------------
  // git diff --name-status

  /** A status line names `path` when it has at least two fields and the second is `path`. */
  predicate IsEntry(line: string, path: string) {
    var parts := Fields(line);
    |parts| >= 2 && parts[1] == path
  }

  /** The status table built from the lines in order; a later line for a path wins. */
  function StatusOf(lines: seq<string>): map<string, string> {
    if lines == [] then map[]
    else
      var m := StatusOf(lines[..|lines| - 1]);
      var parts := Fields(lines[|lines| - 1]);
      if |parts| >= 2 then m[parts[1] := parts[0]] else m
  }

  /** What `DiffFileStatus` returns for a diff range. */
  function StatusTable(repo: Repo, fromCommit: string, toCommit: string): Result<map<string, string>> {
    var base :- DiffBase(repo, fromCommit);
    var output :- Run(repo.diffNameStatus(base, toCommit));
    if output == "" then Ok(map[]) else Ok(StatusOf(Split(output, '\n')))
  }

  /** A path is in the status table exactly when some line names it. */
  lemma {:induction false} StatusOfKeys(lines: seq<string>, path: string)
    ensures path in StatusOf(lines) <==> exists i :: 0 <= i < |lines| && IsEntry(lines[i], path)
  {
    if lines != [] {
      var n := |lines| - 1;
      var init := lines[..n];
      StatusOfKeys(init, path);
      assert forall i :: 0 <= i < n ==> init[i] == lines[i];
      if !IsEntry(lines[n], path) {
        assert path in StatusOf(lines) <==> path in StatusOf(init);
      }
    }
  }

  /** A path's status is the first field of the last line that names it. */
  lemma {:induction false} StatusOfLastWins(lines: seq<string>, path: string, i: nat)
    requires i < |lines| && IsEntry(lines[i], path)
    requires forall j :: i < j < |lines| ==> !IsEntry(lines[j], path)
    ensures path in StatusOf(lines) && StatusOf(lines)[path] == Fields(lines[i])[0]
  {
    var n := |lines| - 1;
    var init := lines[..n];
    if i < n {
      assert forall j :: i < j < n ==> init[j] == lines[j];
      StatusOfLastWins(init, path, i);
      assert !IsEntry(lines[n], path);
    }
  }

  /** The table of the first `k + 1` lines is that of the first `k` with line `k` applied. */
  lemma StatusOfPrefix(lines: seq<string>, k: nat)
    requires k < |lines|
    ensures StatusOf(lines[..k + 1]) ==
      var parts := Fields(lines[k]);
      if |parts| >= 2 then StatusOf(lines[..k])[parts[1] := parts[0]] else StatusOf(lines[..k])
  {
    assert lines[..k + 1][..k] == lines[..k];
  }

  /** `DiffFileStatus`: fills the path-to-status map line by line. */
  method DiffFileStatus(repo: Repo, fromCommit: string, toCommit: string) returns (r: Result<map<string, string>>)
    ensures r == StatusTable(repo, fromCommit, toCommit)
  {
    var base :- DiffBase(repo, fromCommit);
    var output :- Run(repo.diffNameStatus(base, toCommit));
    var result := map[];
    if output == "" {
      return Ok(result);
    }
    var lines := Split(output, '\n');
    var k := 0;
    while k < |lines|
      invariant 0 <= k <= |lines|
      invariant result == StatusOf(lines[..k])
    {
      var parts := Fields(lines[k]);
      StatusOfPrefix(lines, k);
      if |parts| >= 2 {
        var status, filename := parts[0], parts[1];
        result := result[filename := status];
      }
      k := k + 1;
    }
    assert lines[..k] == lines;
    assert StatusTable(repo, fromCommit, toCommit) == Ok(StatusOf(lines));
    return Ok(result);
  }

  // ---------------------------------------------------------------------------
  // git log: first-add timestamp

  /**
    `GetFileCommitTimestamp`: the Unix time git prints for the commit that
    added the file; `now` when git fails, prints nothing or prints something
    that is not a 64-bit decimal integer. It never fails.
   */
  function GetFileCommitTimestamp(repo: Repo, path: string, now: int): (t: int) {
    match Run(repo.logFirstAdded(path))
    case Err(_) => now
    case Ok(output) =>
      if output == "" then now
      else
        match ParseInt64(output)
        case None => now
        case Some(n) => n
  }

  /** When git prints a 64-bit time `n` (with any surrounding white space), the timestamp is `n`. */
  lemma TimestampOfPrinted(repo: Repo, path: string, now: int, n: int, pre: string, post: string)
    requires INT64_MIN <= n <= INT64_MAX
    requires AllSpace(pre) && AllSpace(post)
    requires repo.logFirstAdded(path) == Output(pre + FormatInt(n) + post)
    ensures GetFileCommitTimestamp(repo, path, now) == n
  {
    var s := FormatInt(n);
    var d := if n < 0 then Digits(-n) else Digits(n);
    assert !IsSpace(s[0]) && !IsSpace(s[|s| - 1]) by {
      assert d[|d| - 1] == s[|s| - 1];
      assert IsDigit(d[|d| - 1]);
      assert IsDigit(d[0]);
    }
    TrimSpacePadded(pre, s, post);
    ParseFormat(n);
  }

  /** When git fails for the path, the timestamp falls back to `now`. */
  lemma TimestampFallback(repo: Repo, path: string, now: int)
    requires repo.logFirstAdded(path).Failed?
             || ParseInt64(TrimSpace(repo.logFirstAdded(path).stdout)).None?
    ensures GetFileCommitTimestamp(repo, path, now) == now
  {
  }

  // ---------------------------------------------------------------------------
  // GetChangedScripts

  /** The `.sql` paths among `files`, in order. */
  function SqlPaths(files: seq<string>): (r: seq<string>)
    ensures |r| <= |files|
    ensures forall f :: f in r <==> f in files && HasSuffix(f, ".sql")
  {
    if files == [] then []
    else
      var last := files[|files| - 1];
      var init := SqlPaths(files[..|files| - 1]);
      assert files == files[..|files| - 1] + [last];
      if HasSuffix(last, ".sql") then init + [last] else init
  }

  function ScriptOf(repo: Repo, file: string, now: int): ScriptInfo {
    ScriptInfo(Base(file), file, GetFileCommitTimestamp(repo, file, now))
  }

  /** The script list before sorting: one entry per `.sql` path, in diff order. */
  function Discovered(repo: Repo, files: seq<string>, now: int): (r: seq<ScriptInfo>)
    ensures |r| == |SqlPaths(files)|
    ensures forall i :: 0 <= i < |r| ==> r[i] == ScriptOf(repo, SqlPaths(files)[i], now)
  {
    if files == [] then []
    else
      var last := files[|files| - 1];
      var init := Discovered(repo, files[..|files| - 1], now);
      if HasSuffix(last, ".sql") then init + [ScriptOf(repo, last, now)] else init
  }

  /** The scripts of the first `k + 1` paths are those of the first `k` and then path `k`'s, if any. */
  lemma DiscoveredPrefix(repo: Repo, files: seq<string>, k: nat, now: int)
    requires k < |files|
    ensures Discovered(repo, files[..k + 1], now) ==
      if HasSuffix(files[k], ".sql") then Discovered(repo, files[..k], now) + [ScriptOf(repo, files[k], now)]
      else Discovered(repo, files[..k], now)
  {
    assert files[..k + 1][..k] == files[..k];
  }

  /** Every discovered script comes from a `.sql` path of the diff and is named by its base name. */
  lemma DiscoveredPaths(repo: Repo, files: seq<string>, now: int)
    ensures forall s :: s in Discovered(repo, files, now) ==>
      s.path in files && HasSuffix(s.path, ".sql") && s.name == Base(s.path)
  {
    var d := Discovered(repo, files, now);
    forall s | s in d
      ensures s.path in files && HasSuffix(s.path, ".sql") && s.name == Base(s.path)
    {
      var i :| 0 <= i < |d| && d[i] == s;
      assert SqlPaths(files)[i] in SqlPaths(files);
    }
  }

  predicate SortedByTimestamp(s: seq<ScriptInfo>) {
    forall i, j :: 0 <= i < j < |s| ==> s[i].timestamp <= s[j].timestamp
  }

  /** Exchanges two elements of the array. */
  method Swap(a: array<ScriptInfo>, i: nat, j: nat)
    requires i < a.Length && j < a.Length
    modifies a
    ensures a[..] == old(a[..])[i := old(a[j])][j := old(a[i])]
    ensures multiset(a[..]) == multiset(old(a[..]))
  {
    a[i], a[j] := a[j], a[i];
  }

  /** `sort.Slice` by timestamp, oldest first; the order of equal timestamps is unspecified. */
  method SortByTimestamp(a: array<ScriptInfo>)
    modifies a
    ensures SortedByTimestamp(a[..])
    ensures multiset(a[..]) == multiset(old(a[..]))
  {
    var i := 0;
    while i < a.Length
      invariant 0 <= i <= a.Length
      invariant forall p, q :: 0 <= p < q < i ==> a[p].timestamp <= a[q].timestamp
      invariant multiset(a[..]) == multiset(old(a[..]))
    {
      var j := i;
      while j > 0 && a[j - 1].timestamp > a[j].timestamp
        invariant 0 <= j <= i
        invariant forall p, q :: 0 <= p < q <= i && q != j ==> a[p].timestamp <= a[q].timestamp
        invariant multiset(a[..]) == multiset(old(a[..]))
      {
        Swap(a, j - 1, j);
        j := j - 1;
      }
      i := i + 1;
    }
  }

  /** The first loop of `GetChangedScripts`: one timestamped script per `.sql` path, in diff order. */
  method CollectScripts(repo: Repo, files: seq<string>, now: int) returns (scripts: seq<ScriptInfo>)
    ensures scripts == Discovered(repo, files, now)
  {
    scripts := [];
    var k := 0;
    while k < |files|
      invariant 0 <= k <= |files|
      invariant scripts == Discovered(repo, files[..k], now)
    {
      var file := files[k];
      DiscoveredPrefix(repo, files, k, now);
      if HasSuffix(file, ".sql") {
        var timestamp := GetFileCommitTimestamp(repo, file, now);
        scripts := scripts + [ScriptInfo(Base(file), file, timestamp)];
      }
      k := k + 1;
    }
    assert files[..k] == files;
  }

  /**
    `GetChangedScripts`: every `.sql` path of the diff, named by its base name,
    stamped with its first-add time and sorted oldest first. The scripts
    directory takes no part: the directory test of the source can never
    exclude a path (see `SelectAsWritten`).
   */
  method GetChangedScripts(repo: Repo, fromCommit: string, toCommit: string, scriptsDir: string, now: int)
    returns (r: Result<seq<ScriptInfo>>)
    ensures r.Ok? <==> DiffFileNames(repo, fromCommit, toCommit).Ok?
    ensures r.Err? ==> r == Err(DiffFileNames(repo, fromCommit, toCommit).error)
    ensures r.Ok? ==> SortedByTimestamp(r.value)
    ensures r.Ok? ==> multiset(r.value) == multiset(Discovered(repo, DiffFileNames(repo, fromCommit, toCommit).value, now))
    ensures r.Ok? ==> forall s :: s in r.value ==>
      s.path in DiffFileNames(repo, fromCommit, toCommit).value && HasSuffix(s.path, ".sql") && s.name == Base(s.path)
  {
    var listed := DiffFileNames(repo, fromCommit, toCommit);
    if listed.Err? {
      return Err(listed.error);
    }
    var files := listed.value;
    var scripts := CollectScripts(repo, files, now);
    var a := new ScriptInfo[|scripts|](i requires 0 <= i < |scripts| => scripts[i]);
    assert a[..] == scripts;
    SortByTimestamp(a);
    DiscoveredPaths(repo, files, now);
    forall s | s in a[..]
      ensures s.path in files && HasSuffix(s.path, ".sql") && s.name == Base(s.path)
    {
      assert s in multiset(a[..]);
      assert s in multiset(scripts);
    }
    return Ok(a[..]);
  }

  // ---------------------------------------------------------------------------
  // The directory-scope test as written (git.go:151-159)

  /**
    True when the scope test panics for a `.sql` path: with the first two
    conjuncts true, Go evaluates `file[:len(scriptsBase)]`, which is out of
    range for a path shorter than the base name of the scripts directory.
    Go's `len` and slice count bytes, so the lengths compared are those of
    the UTF-8 encodings.
   */
  predicate ScopeTestPanics(file: string, scriptsDir: string) {
    var relDir := Dir(file);
    var scriptsBase := Base(scriptsDir);
    !Contains(relDir, scriptsBase) && relDir != scriptsBase && ByteLength(file) < ByteLength(scriptsBase)
  }

  /**
    The paths the discovery loop keeps, as written: a path that survives the
    suffix test is kept whatever the scope test says (its inner test repeats
    the suffix test), unless evaluating the scope test panics.
   */
  function SelectAsWritten(files: seq<string>, scriptsDir: string): Result<seq<string>> {
    if files == [] then Ok([])
    else
      var file := files[|files| - 1];
      var init :- SelectAsWritten(files[..|files| - 1], scriptsDir);
      if !HasSuffix(file, ".sql") then Ok(init)
      else if ScopeTestPanics(file, scriptsDir) then Err(SlicePanic)
      else Ok(init + [file])
  }

  /**
    The scope test never excludes a path: the loop as written either panics,
    exactly when some `.sql` path is shorter than the directory's base name
    and lies outside it, or keeps every `.sql` path.
   */
  lemma {:induction false} ScopeTestNeverExcludes(files: seq<string>, scriptsDir: string)
    ensures SelectAsWritten(files, scriptsDir).Ok? <==>
      forall i :: 0 <= i < |files| && HasSuffix(files[i], ".sql") ==> !ScopeTestPanics(files[i], scriptsDir)
    ensures SelectAsWritten(files, scriptsDir).Ok? ==> SelectAsWritten(files, scriptsDir).value == SqlPaths(files)
  {
    if files != [] {
      var n := |files| - 1;
      var init, file := files[..n], files[n];
      ScopeTestNeverExcludes(init, scriptsDir);
      assert forall i :: 0 <= i < n ==> init[i] == files[i];
      var before := SelectAsWritten(init, scriptsDir);
      if before.Err? {
        assert SelectAsWritten(files, scriptsDir) == before;
        var i :| 0 <= i < n && HasSuffix(init[i], ".sql") && ScopeTestPanics(init[i], scriptsDir);
        assert files[i] == init[i];
      } else if !HasSuffix(file, ".sql") {
        assert SelectAsWritten(files, scriptsDir) == before;
        assert SqlPaths(files) == SqlPaths(init);
      } else if ScopeTestPanics(file, scriptsDir) {
        assert SelectAsWritten(files, scriptsDir) == Err(SlicePanic);
      } else {
        assert SelectAsWritten(files, scriptsDir) == Ok(before.value + [file]);
        assert SqlPaths(files) == SqlPaths(init) + [file];
      }
    }
  }

  /** A concrete panic: `init.sql` at the repository root, scripts in `db/migrations`. */
  lemma ScopeTestPanicExample()
    ensures SelectAsWritten(["init.sql"], "db/migrations") == Err(SlicePanic)
  {
    RootFilePanics("init.sql", "db/migrations");
    assert ["init.sql"][..0] == [];
  }

  /** `init.sql` lies outside `db/migrations` and has fewer bytes than `migrations`. */
  lemma RootFilePanics(file: string, dir: string)
    requires file == "init.sql" && dir == "db/migrations"
    ensures ScopeTestPanics(file, dir)
  {
    assert LastIndexOf(file, '/') == -1 by {
      assert forall k :: 0 <= k < |file| ==> file[k] != '/';
    }
    assert Dir(file) == ".";
    assert TrimTrailingSlashes(dir) == dir;
    assert LastIndexOf(dir, '/') == 2 by {
      assert dir[2] == '/';
      assert forall k :: 2 < k < |dir| ==> dir[k] != '/';
    }
    var base := dir[3..];
    assert Base(dir) == base && |base| == 10;
    AsciiByteLength(file);
    assert !Contains(".", base);
  }

  /** An ASCII text has one byte per character. */
  lemma AsciiByteLength(s: string)
    requires forall i :: 0 <= i < |s| ==> s[i] as int < 0x80
    ensures ByteLength(s) == |s|
  {
  }

  /** The four characters `迁移脚本` take three bytes each. */
  lemma WideByteLength(s: string)
    requires s == "迁移脚本"
    ensures ByteLength(s) == 12
  {
    assert s[1..][1..][1..][1..] == [];
    assert ByteLength(s[1..][1..][1..]) == 3;
    assert ByteLength(s[1..][1..]) == 6;
    assert ByteLength(s[1..]) == 9;
  }

  /**
    A panic only byte lengths show: `abcde.sql` has more characters than
    the four-character directory name `迁移脚本`, but fewer bytes (9 against 12).
   */
  lemma ScopeTestPanicWide()
    ensures SelectAsWritten(["abcde.sql"], "db/迁移脚本") == Err(SlicePanic)
  {
    WideFilePanics("abcde.sql", "db/迁移脚本");
    assert ["abcde.sql"][..0] == [];
  }

  /** `abcde.sql` lies outside `db/迁移脚本` and has fewer bytes than `迁移脚本`. */
  lemma WideFilePanics(file: string, dir: string)
    requires file == "abcde.sql" && dir == "db/迁移脚本"
    ensures ScopeTestPanics(file, dir)
  {
    assert LastIndexOf(file, '/') == -1 by {
      assert forall k :: 0 <= k < |file| ==> file[k] != '/';
    }
    assert Dir(file) == ".";
    assert TrimTrailingSlashes(dir) == dir;
    assert LastIndexOf(dir, '/') == 2 by {
      assert dir[2] == '/';
      assert forall k :: 2 < k < |dir| ==> dir[k] != '/';
    }
    var base := dir[3..];
    assert Base(dir) == base;
    WideByteLength(base);
    AsciiByteLength(file);
    assert !Contains(".", base);
  }

  // ---------------------------------------------------------------------------
  // CheckModifications

  /** The first loop of `CheckModifications`: the listed files as a set. */
  method FileSet(files: seq<string>) returns (fileSet: set<string>)
    ensures forall f :: f in fileSet <==> f in files
  {
    fileSet := {};
    var k := 0;
    while k < |files|
      invariant 0 <= k <= |files|
      invariant forall f :: f in fileSet <==> f in files[..k]
    {
      fileSet := fileSet + {files[k]};
      assert files[..k + 1] == files[..k] + [files[k]];
      k := k + 1;
    }
    assert files[..k] == files;
  }

  /**
    `CheckModifications`: with a checkpoint, the listed files that the diff
    marks modified ("M") and deleted ("D"); other statuses are ignored.
    Without a checkpoint nothing can have been modified.
   */
  method CheckModifications(repo: Repo, fromCommit: string, toCommit: string, files: seq<string>)
    returns (modified: set<string>, deleted: set<string>, err: Option<Error>)
    ensures fromCommit == "" ==> modified == {} && deleted == {} && err == None
    ensures fromCommit != "" && StatusTable(repo, fromCommit, toCommit).Err? ==>
      modified == {} && deleted == {} && err == Some(StatusTable(repo, fromCommit, toCommit).error)
    ensures fromCommit != "" && StatusTable(repo, fromCommit, toCommit).Ok? ==>
      var m := StatusTable(repo, fromCommit, toCommit).value;
      && err == None
      && (forall f :: f in modified <==> f in files && f in m && m[f] == "M")
      && (forall f :: f in deleted <==> f in files && f in m && m[f] == "D")
  {
    modified, deleted, err := {}, {}, None;
    if fromCommit == "" {
      return;
    }
    var r := DiffFileStatus(repo, fromCommit, toCommit);
    if r.Err? {
      err := Some(r.error);
      return;
    }
    var statusMap := r.value;
    var fileSet := FileSet(files);
    var remaining, seen := statusMap.Keys, {};
    while remaining != {}
      invariant seen !! remaining && seen + remaining == statusMap.Keys
      invariant forall f :: f in modified <==> f in seen && f in fileSet && statusMap[f] == "M"
      invariant forall f :: f in deleted <==> f in seen && f in fileSet && statusMap[f] == "D"
      decreases remaining
    {
      var file :| file in remaining;
      if file in fileSet {
        var status := statusMap[file];
        if status == "M" {
          modified := modified + {file};
        } else if status == "D" {
          deleted := deleted + {file};
        }
      }
      remaining, seen := remaining - {file}, seen + {file};
    }
  }
}
