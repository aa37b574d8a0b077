/** The untimed pass over every task and file, the file list each timed row gets, and the
    per-source split. A tool is what it answers: `tool(file, atScript)`. */
module Preflight {
  import opened Wrappers

  datatype SourceFile = SourceFile(path: string, bytes: nat, source: Option<string>, goalFallback: bool)

  datatype Task = Task(name: string, key: string, coverageOnly: bool, digested: bool)

  /** One call of a tool: it throws, or answers with an output, which may be empty and may have no
      digest. */
  datatype Answer = Throws(error: string) | Output(empty: bool, digest: Option<string>)

  type Tool = (SourceFile, bool) -> Answer

  const EMPTY_OUTPUT := "empty output"

  datatype Verdict = Accepted(atScript: bool, digest: Option<string>) | Skipped(error: string)

  function OutputVerdict(output: Answer, atScript: bool): Verdict
    requires output.Output?
  {
    if output.empty then Skipped(EMPTY_OUTPUT) else Accepted(atScript, output.digest)
  }

  /** One file's verdict: a file that allows it is retried at Script goal, and a failed retry
      records the first error. */
  function Judge(tool: Tool, file: SourceFile): Verdict {
    var first := tool(file, false);
    if first.Output? then OutputVerdict(first, false)
    else if !file.goalFallback then Skipped(first.error)
    else
      var retry := tool(file, true);
      if retry.Throws? then Skipped(first.error) else OutputVerdict(retry, true)
  }

  /** What the pre-flight records of one task. */
  datatype Coverage = Coverage(
    success: set<string>,
    scriptOnly: set<string>,
    skipped: map<string, string>,
    digests: map<string, string>,
    bytes: nat,
    processed: nat,
    total: nat
  )

  /** The paths of the files with a verdict of one kind. */
  function PathsWhere(files: seq<SourceFile>, tool: Tool, want: Verdict -> bool): set<string> {
    set i | 0 <= i < |files| && want(Judge(tool, files[i])) :: files[i].path
  }

  function AcceptedPaths(files: seq<SourceFile>, tool: Tool): set<string> {
    PathsWhere(files, tool, (v: Verdict) => v.Accepted?)
  }

  function SkippedPaths(files: seq<SourceFile>, tool: Tool): set<string> {
    PathsWhere(files, tool, (v: Verdict) => v.Skipped?)
  }

  function ScriptPaths(files: seq<SourceFile>, tool: Tool): set<string> {
    PathsWhere(files, tool, (v: Verdict) => v.Accepted? && v.atScript)
  }

  function AcceptedBytes(files: seq<SourceFile>, tool: Tool): nat {
    if files == [] then 0
    else
      var n := |files| - 1;
      AcceptedBytes(files[..n], tool) + if Judge(tool, files[n]).Accepted? then files[n].bytes else 0
  }

  /** `record_skip`: the first error stands. */
  function RecordSkip(skipped: map<string, string>, path: string, error: string): map<string, string> {
    if path in skipped then skipped else skipped[path := error]
  }

  /** The skip record after every file. */
  function SkipsOf(files: seq<SourceFile>, tool: Tool): map<string, string> {
    if files == [] then map[]
    else
      var n := |files| - 1;
      var prior, v := SkipsOf(files[..n], tool), Judge(tool, files[n]);
      if v.Skipped? then RecordSkip(prior, files[n].path, v.error) else prior
  }

  lemma {:induction false} SkipsAreSkippedPaths(files: seq<SourceFile>, tool: Tool)
    ensures SkipsOf(files, tool).Keys == SkippedPaths(files, tool)
  {
    if files != [] {
      var n := |files| - 1;
      SkipsAreSkippedPaths(files[..n], tool);
      OneMoreFile(files, tool, n);
      assert files[..n + 1] == files;
    }
  }

  /** A skipped path keeps the error of the first file that was skipped under it. */
  lemma {:induction false} FirstErrorStands(files: seq<SourceFile>, tool: Tool, i: nat)
    requires i < |files| && Judge(tool, files[i]).Skipped?
    requires forall j :: 0 <= j < i && files[j].path == files[i].path ==> Judge(tool, files[j]).Accepted?
    ensures files[i].path in SkipsOf(files, tool)
    ensures SkipsOf(files, tool)[files[i].path] == Judge(tool, files[i]).error
  {
    var n := |files| - 1;
    if i < n {
      FirstErrorStands(files[..n], tool, i);
    } else {
      SkipsAreSkippedPaths(files[..n], tool);
      assert files[i].path !in SkippedPaths(files[..n], tool);
    }
  }

  /** The digest record after every file: an accepted file's digest replaces its path's. */
  function DigestsOf(files: seq<SourceFile>, tool: Tool): map<string, string> {
    if files == [] then map[]
    else
      var n := |files| - 1;
      var prior, v := DigestsOf(files[..n], tool), Judge(tool, files[n]);
      if Digests(v) then prior[files[n].path := v.digest.value] else prior
  }

  predicate Digests(v: Verdict) {
    v.Accepted? && v.digest.Some?
  }

  /** The last file under `path` accepted with a digest. */
  ghost predicate LastDigested(files: seq<SourceFile>, tool: Tool, path: string, i: nat) {
    && i < |files| && files[i].path == path && Digests(Judge(tool, files[i]))
    && forall j :: i < j < |files| && files[j].path == path ==> !Digests(Judge(tool, files[j]))
  }

  /** A digested path keeps the digest of the last file accepted under it with one. */
  lemma {:induction false} LastDigestStands(files: seq<SourceFile>, tool: Tool, path: string)
    ensures path in DigestsOf(files, tool) <==>
            exists i :: 0 <= i < |files| && files[i].path == path && Digests(Judge(tool, files[i]))
    ensures path in DigestsOf(files, tool) ==>
              exists i: nat :: LastDigested(files, tool, path, i) && DigestsOf(files, tool)[path] == Judge(tool, files[i]).digest.value
  {
    if files != [] {
      var n := |files| - 1;
      var prior := files[..n];
      LastDigestStands(prior, tool, path);
      assert forall i :: 0 <= i < n ==> files[i] == prior[i];
      if files[n].path == path && Digests(Judge(tool, files[n])) {
        assert LastDigested(files, tool, path, n);
      } else if path in DigestsOf(files, tool) {
        var i: nat :| LastDigested(prior, tool, path, i) && DigestsOf(prior, tool)[path] == Judge(tool, prior[i]).digest.value;
        assert LastDigested(files, tool, path, i);
      }
    }
  }

  /** The tool takes the file: it answers with an output, or throws on a file that allows a retry
      and answers that with one. */
  predicate Takes(tool: Tool, file: SourceFile) {
    var first, retry := tool(file, false), tool(file, true);
    if first.Output? then !first.empty else file.goalFallback && retry.Output? && !retry.empty
  }

  /** The answer that counts: the retry's when the first call threw. */
  function Counting(tool: Tool, file: SourceFile): Answer {
    if tool(file, false).Throws? then tool(file, true) else tool(file, false)
  }

  lemma JudgeMeans(tool: Tool, file: SourceFile)
    ensures var v := Judge(tool, file);
            && (v.Accepted? <==> Takes(tool, file))
            && (v.Accepted? ==> (v.atScript <==> tool(file, false).Throws?) && v.digest == Counting(tool, file).digest)
            && (v.Skipped? ==>
                  v.error == if tool(file, false).Throws? && !(file.goalFallback && tool(file, true).Output?)
                             then tool(file, false).error else "empty output")
  {
  }

  /** What the record holds, in terms of the tool's answers: a path is a success exactly when the
      tool takes a file of that path, at Script goal when its first call threw, and skipped exactly
      when it refuses one. */
  lemma RecordMeans(files: seq<SourceFile>, tool: Tool, path: string)
    ensures path in AcceptedPaths(files, tool) <==>
            exists i :: 0 <= i < |files| && files[i].path == path && Takes(tool, files[i])
    ensures path in ScriptPaths(files, tool) <==>
            exists i :: 0 <= i < |files| && files[i].path == path && Takes(tool, files[i]) && tool(files[i], false).Throws?
    ensures path in SkippedPaths(files, tool) <==>
            exists i :: 0 <= i < |files| && files[i].path == path && !Takes(tool, files[i])
  {
    forall i | 0 <= i < |files|
      ensures Judge(tool, files[i]).Accepted? <==> Takes(tool, files[i])
      ensures Judge(tool, files[i]).Accepted? ==> (Judge(tool, files[i]).atScript <==> tool(files[i], false).Throws?)
    {
      JudgeMeans(tool, files[i]);
    }
  }

  /** A skipped path's error is the first call's, even when a retry failed too, or says that the
      output was empty. */
  lemma ErrorRecorded(files: seq<SourceFile>, tool: Tool, i: nat)
    requires i < |files| && !Takes(tool, files[i])
    requires forall j :: 0 <= j < i && files[j].path == files[i].path ==> Takes(tool, files[j])
    ensures files[i].path in SkipsOf(files, tool)
    ensures SkipsOf(files, tool)[files[i].path] ==
            if tool(files[i], false).Throws? && !(files[i].goalFallback && tool(files[i], true).Output?)
            then tool(files[i], false).error else "empty output"
  {
    JudgeMeans(tool, files[i]);
    forall j | 0 <= j < i && files[j].path == files[i].path
      ensures Judge(tool, files[j]).Accepted?
    {
      JudgeMeans(tool, files[j]);
    }
    FirstErrorStands(files, tool, i);
  }

  /** The digest a path keeps is that of the last file under it the tool took with one. */
  lemma DigestRecorded(files: seq<SourceFile>, tool: Tool, i: nat)
    requires i < |files| && Takes(tool, files[i]) && Counting(tool, files[i]).digest.Some?
    requires forall j :: i < j < |files| && files[j].path == files[i].path ==>
               !(Takes(tool, files[j]) && Counting(tool, files[j]).digest.Some?)
    ensures files[i].path in DigestsOf(files, tool)
    ensures DigestsOf(files, tool)[files[i].path] == Counting(tool, files[i]).digest.value
  {
    var path := files[i].path;
    forall j | 0 <= j < |files|
      ensures Digests(Judge(tool, files[j])) <==> Takes(tool, files[j]) && Counting(tool, files[j]).digest.Some?
      ensures Digests(Judge(tool, files[j])) ==> Judge(tool, files[j]).digest == Counting(tool, files[j]).digest
    {
      JudgeMeans(tool, files[j]);
    }
    LastDigestStands(files, tool, path);
    assert files[i].path == path && Digests(Judge(tool, files[i]));
    var k: nat :| LastDigested(files, tool, path, k) && DigestsOf(files, tool)[path] == Judge(tool, files[k]).digest.value;
    assert k == i;
  }

  /** One task over every file. */
  method RunTask(task: Task, files: seq<SourceFile>, tool: Tool) returns (c: Coverage)
    ensures c.success == AcceptedPaths(files, tool) && c.scriptOnly == ScriptPaths(files, tool)
    ensures c.skipped == SkipsOf(files, tool)
    ensures c.digests.Keys <= c.success
    ensures c.digests == if task.digested then DigestsOf(files, tool) else map[]
    ensures c.processed == |c.success| && c.total == |files| && c.bytes == AcceptedBytes(files, tool)
  {
    var success, scriptOnly, skipped, digests, bytes := {}, {}, map[], map[], 0;
    for n := 0 to |files|
      invariant success == AcceptedPaths(files[..n], tool) && scriptOnly == ScriptPaths(files[..n], tool)
      invariant skipped == SkipsOf(files[..n], tool)
      invariant digests.Keys <= success
      invariant digests == if task.digested then DigestsOf(files[..n], tool) else map[]
      invariant bytes == AcceptedBytes(files[..n], tool)
    {
      var file := files[n];
      OneMoreFile(files, tool, n);
      var atScript, output := false, tool(file, false);
      if output.Throws? {
        var error := output.error;
        if !file.goalFallback {
          skipped := RecordSkip(skipped, file.path, error);
          continue;
        }
        output := tool(file, true);
        if output.Throws? {
          skipped := RecordSkip(skipped, file.path, error);
          continue;
        }
        atScript := true;
      }
      if output.empty {
        skipped := RecordSkip(skipped, file.path, EMPTY_OUTPUT);
        continue;
      }
      success := success + {file.path};
      if atScript {
        scriptOnly := scriptOnly + {file.path};
      }
      bytes := bytes + file.bytes;
      if task.digested && output.digest.Some? {
        digests := digests[file.path := output.digest.value];
      }
    }
    assert files[..|files|] == files;
    return Coverage(success, scriptOnly, skipped, digests, bytes, |success|, |files|);
  }

  lemma OneMoreFile(files: seq<SourceFile>, tool: Tool, n: nat)
    requires n < |files|
    ensures var v := Judge(tool, files[n]);
            && AcceptedPaths(files[..n + 1], tool) == AcceptedPaths(files[..n], tool) + (if v.Accepted? then {files[n].path} else {})
            && ScriptPaths(files[..n + 1], tool) ==
               ScriptPaths(files[..n], tool) + (if v.Accepted? && v.atScript then {files[n].path} else {})
            && SkippedPaths(files[..n + 1], tool) == SkippedPaths(files[..n], tool) + (if v.Skipped? then {files[n].path} else {})
            && AcceptedBytes(files[..n + 1], tool) ==
               AcceptedBytes(files[..n], tool) + (if v.Accepted? then files[n].bytes else 0)
            && SkipsOf(files[..n + 1], tool) ==
               (if v.Skipped? then RecordSkip(SkipsOf(files[..n], tool), files[n].path, v.error) else SkipsOf(files[..n], tool))
            && DigestsOf(files[..n + 1], tool) ==
               if Digests(v) then DigestsOf(files[..n], tool)[files[n].path := v.digest.value] else DigestsOf(files[..n], tool)
  {
    OneMorePath(files, tool, n, (v: Verdict) => v.Accepted?);
    OneMorePath(files, tool, n, (v: Verdict) => v.Skipped?);
    OneMorePath(files, tool, n, (v: Verdict) => v.Accepted? && v.atScript);
    assert files[..n + 1][..n] == files[..n];
  }

  lemma OneMorePath(files: seq<SourceFile>, tool: Tool, n: nat, want: Verdict -> bool)
    requires n < |files|
    ensures PathsWhere(files[..n + 1], tool, want) ==
            PathsWhere(files[..n], tool, want) + (if want(Judge(tool, files[n])) then {files[n].path} else {})
  {
    var now, before := PathsWhere(files[..n + 1], tool, want), PathsWhere(files[..n], tool, want);
    forall p | p in before
      ensures p in now
    {
      var i :| 0 <= i < n && want(Judge(tool, files[..n][i])) && files[..n][i].path == p;
      assert files[..n + 1][i] == files[i];
    }
    assert files[..n + 1][n] == files[n];
    forall p | p in now
      ensures p in before || (want(Judge(tool, files[n])) && p == files[n].path)
    {
      var i :| 0 <= i < n + 1 && want(Judge(tool, files[..n + 1][i])) && files[..n + 1][i].path == p;
      assert i < n ==> files[..n][i] == files[i];
    }
  }

  // ----- accounting -----

  ghost predicate DistinctPaths(files: seq<SourceFile>) {
    forall i, j :: 0 <= i < j < |files| ==> files[i].path != files[j].path
  }

  function Paths(files: seq<SourceFile>): set<string> {
    set i | 0 <= i < |files| :: files[i].path
  }

  /** Every path is recorded, the retried ones among the accepted, and the two sides of the record
      share a path exactly when two files share it and got opposite verdicts. */
  lemma RecordsEveryFile(files: seq<SourceFile>, tool: Tool)
    ensures AcceptedPaths(files, tool) + SkippedPaths(files, tool) == Paths(files)
    ensures ScriptPaths(files, tool) <= AcceptedPaths(files, tool)
    ensures AcceptedPaths(files, tool) !! SkippedPaths(files, tool) <==>
            forall i, j :: 0 <= i < |files| && 0 <= j < |files| && files[i].path == files[j].path ==>
              Judge(tool, files[i]).Accepted? == Judge(tool, files[j]).Accepted?
  {
    forall p | p in Paths(files)
      ensures p in AcceptedPaths(files, tool) + SkippedPaths(files, tool)
    {
      var i :| 0 <= i < |files| && files[i].path == p;
      assert Judge(tool, files[i]).Accepted? || Judge(tool, files[i]).Skipped?;
    }
    forall i, j | 0 <= i < |files| && 0 <= j < |files| && Judge(tool, files[i]).Accepted? && Judge(tool, files[j]).Skipped?
      ensures files[i].path in AcceptedPaths(files, tool) && files[j].path in SkippedPaths(files, tool)
    {
    }
  }

  lemma PathsSnoc(files: seq<SourceFile>)
    requires files != []
    ensures var n := |files| - 1; Paths(files) == Paths(files[..n]) + {files[n].path}
    ensures var n := |files| - 1; DistinctPaths(files) ==> files[n].path !in Paths(files[..n])
  {
    var n := |files| - 1;
    forall p | p in Paths(files[..n])
      ensures p in Paths(files)
      ensures DistinctPaths(files) ==> p != files[n].path
    {
      var i :| 0 <= i < n && files[..n][i].path == p;
      assert files[i].path == p;
    }
    forall p | p in Paths(files) && p != files[n].path
      ensures p in Paths(files[..n])
    {
      var i :| 0 <= i < |files| && files[i].path == p;
      assert files[..n][i].path == p;
    }
  }

  lemma {:induction false} DistinctPathsCount(files: seq<SourceFile>)
    requires DistinctPaths(files)
    ensures |Paths(files)| == |files|
  {
    if files != [] {
      DistinctPathsCount(files[..|files| - 1]);
      PathsSnoc(files);
    }
  }

  /** With distinct paths the success and skip sets partition the files. */
  lemma Partition(files: seq<SourceFile>, tool: Tool)
    requires DistinctPaths(files)
    ensures AcceptedPaths(files, tool) !! SkippedPaths(files, tool)
    ensures |AcceptedPaths(files, tool)| + |SkippedPaths(files, tool)| == |files|
  {
    RecordsEveryFile(files, tool);
    DistinctPathsCount(files);
    forall i, j | 0 <= i < |files| && 0 <= j < |files| && files[i].path == files[j].path
      ensures i == j
    {
    }
    assert |AcceptedPaths(files, tool) + SkippedPaths(files, tool)| ==
           |AcceptedPaths(files, tool)| + |SkippedPaths(files, tool)|;
  }

  // ----- the timed file lists -----

  /** `files.filter((f) => paths.has(f.path))`, in corpus order. */
  function Kept(files: seq<SourceFile>, paths: set<string>): seq<SourceFile> {
    if files == [] then []
    else (if files[0].path in paths then [files[0]] else []) + Kept(files[1..], paths)
  }

  function SuccessOf(successful: map<string, set<string>>, key: string): set<string> {
    if key in successful then successful[key] else {}
  }

  /** The tasks that are timed, in order. */
  function Timed(tasks: seq<Task>): seq<Task> {
    if tasks == [] then [] else (if tasks[0].coverageOnly then [] else [tasks[0]]) + Timed(tasks[1..])
  }

  /** The paths every timed task accepted; none when nothing is timed. */
  ghost predicate InEvery(timed: seq<Task>, successful: map<string, set<string>>, path: string) {
    timed != [] && forall t <- timed :: path in SuccessOf(successful, t.key)
  }

  /** The seeded loop that deletes from the set it walks. */
  method Intersection(timed: seq<Task>, successful: map<string, set<string>>) returns (intersection: set<string>)
    ensures forall path :: path in intersection <==> InEvery(timed, successful, path)
  {
    intersection := {};
    var seeded := false;
    for n := 0 to |timed|
      invariant seeded == (n > 0)
      invariant forall path :: path in intersection <==> n > 0 && forall i :: 0 <= i < n ==> path in SuccessOf(successful, timed[i].key)
    {
      var success := SuccessOf(successful, timed[n].key);
      if !seeded {
        intersection, seeded := success, true;
      } else {
        ghost var before := intersection;
        var unvisited := intersection;
        while unvisited != {}
          invariant unvisited <= intersection <= before
          invariant forall path :: path in intersection - unvisited <==> path in before && path in success && path !in unvisited
          decreases unvisited
        {
          var path :| path in unvisited;
          unvisited := unvisited - {path};
          if path !in success {
            intersection := intersection - {path};
          }
        }
      }
    }
  }

  /** The shared paths as a set. */
  ghost function SharedPaths(timed: seq<Task>, successful: map<string, set<string>>): (paths: set<string>)
    ensures forall path :: path in paths <==> InEvery(timed, successful, path)
  {
    if timed == [] then {}
    else set path | path in SuccessOf(successful, timed[0].key) && InEvery(timed, successful, path)
  }

  /** The list one timed task gets. */
  ghost function ListFor(tasks: seq<Task>, files: seq<SourceFile>, successful: map<string, set<string>>,
                         useIntersection: bool, key: string): seq<SourceFile> {
    Kept(files, if useIntersection then SharedPaths(Timed(tasks), successful) else SuccessOf(successful, key))
  }

  /** Each timed task's file list: one shared list, or in union mode its own successes. */
  method TimedLists(tasks: seq<Task>, files: seq<SourceFile>, successful: map<string, set<string>>, useIntersection: bool)
    returns (lists: map<string, seq<SourceFile>>)
    ensures forall key :: key in lists <==> exists i :: 0 <= i < |tasks| && tasks[i].key == key && !tasks[i].coverageOnly
    ensures forall key <- lists :: lists[key] == ListFor(tasks, files, successful, useIntersection, key)
    ensures forall key <- lists, f :: f in lists[key] <==>
              f in files &&
              if useIntersection
              then forall i :: 0 <= i < |tasks| && !tasks[i].coverageOnly ==> f.path in SuccessOf(successful, tasks[i].key)
              else f.path in SuccessOf(successful, key)
  {
    hide Kept, Timed, SharedPaths;
    var timed := Timed(tasks);
    lists := map[];
    var list := [];
    if useIntersection {
      var intersection := Intersection(timed, successful);
      assert intersection == SharedPaths(timed, successful);
      list := Kept(files, intersection);
    }
    for n := 0 to |timed|
      invariant lists.Keys == set t <- timed[..n] :: t.key
      invariant forall key <- lists :: lists[key] == ListFor(tasks, files, successful, useIntersection, key)
    {
      var key := timed[n].key;
      lists := lists[key := if useIntersection then list else Kept(files, SuccessOf(successful, key))];
      assert timed[..n + 1] == timed[..n] + [timed[n]];
    }
    assert timed[..|timed|] == timed;
    forall key <- lists, f
      ensures f in lists[key] <==>
                f in files &&
                if useIntersection
                then forall i :: 0 <= i < |tasks| && !tasks[i].coverageOnly ==> f.path in SuccessOf(successful, tasks[i].key)
                else f.path in SuccessOf(successful, key)
    {
      ListHolds(tasks, files, successful, useIntersection, key, f);
    }
    forall key
      ensures key in lists <==> exists i :: 0 <= i < |tasks| && tasks[i].key == key && !tasks[i].coverageOnly
    {
      TimedKeys(tasks, key);
    }
  }

  lemma ListHolds(tasks: seq<Task>, files: seq<SourceFile>, successful: map<string, set<string>>,
                  useIntersection: bool, key: string, f: SourceFile)
    requires Timed(tasks) != []
    ensures f in ListFor(tasks, files, successful, useIntersection, key) <==>
              f in files &&
              if useIntersection
              then forall i :: 0 <= i < |tasks| && !tasks[i].coverageOnly ==> f.path in SuccessOf(successful, tasks[i].key)
              else f.path in SuccessOf(successful, key)
  {
    hide Kept, Timed;
    var paths := if useIntersection then SharedPaths(Timed(tasks), successful) else SuccessOf(successful, key);
    KeptExactly(files, paths, f);
    assert f in Kept(files, paths) <==> f in multiset(Kept(files, paths));
    forall i | 0 <= i < |tasks| && !tasks[i].coverageOnly
      ensures exists t <- Timed(tasks) :: t.key == tasks[i].key
    {
      TimedKeys(tasks, tasks[i].key);
    }
    forall t <- Timed(tasks)
      ensures exists i :: 0 <= i < |tasks| && tasks[i].key == t.key && !tasks[i].coverageOnly
    {
      TimedKeys(tasks, t.key);
    }
  }

  lemma {:induction false} TimedKeys(tasks: seq<Task>, key: string)
    ensures (exists t <- Timed(tasks) :: t.key == key) <==>
            exists i :: 0 <= i < |tasks| && tasks[i].key == key && !tasks[i].coverageOnly
  {
    if tasks != [] {
      TimedKeys(tasks[1..], key);
      if i :| 0 <= i < |tasks| && tasks[i].key == key && !tasks[i].coverageOnly {
        if i > 0 {
          assert tasks[1..][i - 1] == tasks[i];
        } else {
          assert Timed(tasks)[0] == tasks[0];
        }
      }
      if t :| t in Timed(tasks) && t.key == key {
        if t in Timed(tasks[1..]) {
          var i :| 0 <= i < |tasks[1..]| && tasks[1..][i].key == key && !tasks[1..][i].coverageOnly;
          assert tasks[i + 1].key == key;
        } else {
          assert tasks[0].key == key;
        }
      }
    }
  }

  /** A file is in the list exactly when it is in the corpus and its path is kept, as often as the
      corpus holds it. */
  lemma {:induction false} KeptExactly(files: seq<SourceFile>, paths: set<string>, f: SourceFile)
    ensures multiset(Kept(files, paths))[f] == (if f.path in paths then multiset(files)[f] else 0)
  {
    if files != [] {
      KeptExactly(files[1..], paths, f);
      assert files == [files[0]] + files[1..];
    }
  }

  /** The positions of the files whose paths are kept. */
  function KeptAt(files: seq<SourceFile>, paths: set<string>): seq<nat> {
    if files == [] then []
    else
      var n := |files| - 1;
      KeptAt(files[..n], paths) + if files[n].path in paths then [n] else []
  }

  lemma {:induction false} KeptSnoc(files: seq<SourceFile>, paths: set<string>)
    requires files != []
    ensures var n := |files| - 1;
            Kept(files, paths) == Kept(files[..n], paths) + if files[n].path in paths then [files[n]] else []
    decreases |files|
  {
    var n := |files| - 1;
    if n > 0 {
      KeptSnoc(files[1..], paths);
      assert files[1..][..n - 1] == files[..n][1..];
    } else {
      assert files[1..] == [] && files[..0] == [];
    }
  }

  function TotalBytes(files: seq<SourceFile>): nat {
    if files == [] then 0 else TotalBytes(files[..|files| - 1]) + files[|files| - 1].bytes
  }

  lemma {:induction false} KeptBytes(files: seq<SourceFile>, tool: Tool, paths: set<string>)
    requires forall i :: 0 <= i < |files| ==> (files[i].path in paths <==> Judge(tool, files[i]).Accepted?)
    ensures TotalBytes(Kept(files, paths)) == AcceptedBytes(files, tool)
  {
    if files != [] {
      var n := |files| - 1;
      KeptBytes(files[..n], tool, paths);
      KeptSnoc(files, paths);
      var kept := Kept(files[..n], paths);
      assert (kept + [files[n]])[..|kept|] == kept && kept + [] == kept;
    }
  }

  /** With distinct paths, a task's bytes are those of the files its own successes keep. */
  lemma BytesAreKept(files: seq<SourceFile>, tool: Tool)
    requires DistinctPaths(files)
    ensures AcceptedBytes(files, tool) == TotalBytes(Kept(files, AcceptedPaths(files, tool)))
  {
    forall i | 0 <= i < |files|
      ensures files[i].path in AcceptedPaths(files, tool) <==> Judge(tool, files[i]).Accepted?
    {
      if j :| 0 <= j < |files| && files[j].path == files[i].path && Judge(tool, files[j]).Accepted? {
        assert j == i;
      }
    }
    KeptBytes(files, tool, AcceptedPaths(files, tool));
  }

  /** The list is in corpus order: its files are those at increasing positions `at`, which are
      exactly the positions whose path is kept. */
  lemma {:induction false} KeptInOrder(files: seq<SourceFile>, paths: set<string>)
    ensures var at := KeptAt(files, paths);
            && |at| == |Kept(files, paths)|
            && (forall k, l :: 0 <= k < l < |at| ==> at[k] < at[l])
            && (forall k :: 0 <= k < |at| ==> at[k] < |files| && Kept(files, paths)[k] == files[at[k]])
            && (forall i :: i in at <==> 0 <= i < |files| && files[i].path in paths)
  {
    if files != [] {
      var n := |files| - 1;
      KeptInOrder(files[..n], paths);
      KeptSnoc(files, paths);
    }
  }

  lemma {:induction false} TimedAppend(tasks: seq<Task>, more: seq<Task>)
    ensures Timed(tasks + more) == Timed(tasks) + Timed(more)
  {
    if tasks == [] {
      assert tasks + more == more;
    } else {
      assert (tasks + more)[1..] == tasks[1..] + more;
      TimedAppend(tasks[1..], more);
    }
  }

  /** Coverage-only tasks, wherever they stand, never change what the timed rows run on. */
  lemma CoverageOnlyNeverNarrows(before: seq<Task>, extra: Task, after: seq<Task>)
    requires extra.coverageOnly
    ensures Timed(before + [extra] + after) == Timed(before + after)
  {
    TimedAppend(before + [extra], after);
    TimedAppend(before, [extra]);
    TimedAppend(before, after);
    assert [extra][1..] == [];
  }

  /** Adding a timed task only removes paths, unless it is the first: nothing was timed before it,
      so the empty list grows to its own successes. */
  lemma TimedTaskOnlyNarrows(tasks: seq<Task>, extra: Task, successful: map<string, set<string>>)
    requires !extra.coverageOnly
    ensures (forall path :: InEvery(Timed(tasks + [extra]), successful, path) ==> InEvery(Timed(tasks), successful, path))
            <==> Timed(tasks) != [] || SuccessOf(successful, extra.key) == {}
  {
    TimedAppend(tasks, [extra]);
    assert Timed([extra]) == [extra] by {
      assert [extra][1..] == [];
    }
    var timed := Timed(tasks);
    if timed == [] {
      assert timed + [extra] == [extra];
      if path :| path in SuccessOf(successful, extra.key) {
        assert InEvery([extra], successful, path);
      }
    }
  }

  // ----- the per-source split -----

  datatype Cell = Cell(processed: nat, total: nat, scriptOnly: nat)

  /** One source's share of one task, over the first `|files|` files. */
  function CellOf(files: seq<SourceFile>, source: string, success: set<string>, script: set<string>): Cell {
    if files == [] then Cell(0, 0, 0)
    else
      var n := |files| - 1;
      var c, f := CellOf(files[..n], source, success, script), files[n];
      if f.source != Some(source) then c
      else Cell(c.processed + (if f.path in success then 1 else 0), c.total + 1,
                c.scriptOnly + (if f.path in script then 1 else 0))
  }

  /** The cell counts positions: of the source's files, those taken and those taken at Script goal. */
  lemma CellMeans(files: seq<SourceFile>, source: string, success: set<string>, script: set<string>)
    ensures var c := CellOf(files, source, success, script);
            && c.total == |set i | 0 <= i < |files| && files[i].source == Some(source)|
            && c.processed == |set i | 0 <= i < |files| && files[i].source == Some(source) && files[i].path in success|
            && c.scriptOnly == |set i | 0 <= i < |files| && files[i].source == Some(source) && files[i].path in script|
  {
    var all, taken, scripted := (f: SourceFile) => true, (f: SourceFile) => f.path in success, (f: SourceFile) => f.path in script;
    CellCounts(files, source, success, script, all, taken, scripted);
    assert At(files, source, all) == set i | 0 <= i < |files| && files[i].source == Some(source);
    assert At(files, source, taken) == set i | 0 <= i < |files| && files[i].source == Some(source) && files[i].path in success;
    assert At(files, source, scripted) == set i | 0 <= i < |files| && files[i].source == Some(source) && files[i].path in script;
  }

  lemma {:induction false} CellCounts(files: seq<SourceFile>, source: string, success: set<string>, script: set<string>,
                                      all: SourceFile -> bool, taken: SourceFile -> bool, scripted: SourceFile -> bool)
    requires forall f :: all(f) && (taken(f) <==> f.path in success) && (scripted(f) <==> f.path in script)
    ensures CellOf(files, source, success, script) ==
            Cell(|At(files, source, taken)|, |At(files, source, all)|, |At(files, source, scripted)|)
  {
    if files != [] {
      CellCounts(files[..|files| - 1], source, success, script, all, taken, scripted);
      OneMoreAt(files, source, all);
      OneMoreAt(files, source, taken);
      OneMoreAt(files, source, scripted);
    }
  }

  function At(files: seq<SourceFile>, source: string, want: SourceFile -> bool): set<int> {
    set i | 0 <= i < |files| && files[i].source == Some(source) && want(files[i])
  }

  lemma OneMoreAt(files: seq<SourceFile>, source: string, want: SourceFile -> bool)
    requires files != []
    ensures var n := |files| - 1;
            |At(files, source, want)| ==
            |At(files[..n], source, want)| + if files[n].source == Some(source) && want(files[n]) then 1 else 0
  {
    var n := |files| - 1;
    var more := if files[n].source == Some(source) && want(files[n]) then {n} else {};
    assert At(files, source, want) == At(files[..n], source, want) + more;
  }

  function SourcesOf(files: seq<SourceFile>): set<string> {
    set i | 0 <= i < |files| && files[i].source.Some? :: files[i].source.value
  }

  /** One task's cells, filled file by file. */
  method CellsOf(files: seq<SourceFile>, success: set<string>, script: set<string>) returns (cells: map<string, Cell>)
    ensures cells.Keys == SourcesOf(files)
    ensures forall source <- cells :: cells[source] == CellOf(files, source, success, script)
  {
    cells := map[];
    for n := 0 to |files|
      invariant cells.Keys == SourcesOf(files[..n])
      invariant forall source :: CellOf(files[..n], source, success, script) ==
                    if source in cells then cells[source] else Cell(0, 0, 0)
    {
      var f := files[n];
      assert files[..n + 1][..n] == files[..n];
      OneMoreSource(files, n);
      if f.source.None? {
        continue;
      }
      var source := f.source.value;
      var cell := if source in cells then cells[source] else Cell(0, 0, 0);
      cells := cells[source := Cell(cell.processed + (if f.path in success then 1 else 0), cell.total + 1,
                                    cell.scriptOnly + (if f.path in script then 1 else 0))];
    }
    assert files[..|files|] == files;
  }

  lemma OneMoreSource(files: seq<SourceFile>, n: nat)
    requires n < |files|
    ensures SourcesOf(files[..n + 1]) ==
            SourcesOf(files[..n]) + (if files[n].source.Some? then {files[n].source.value} else {})
  {
    forall s | s in SourcesOf(files[..n])
      ensures s in SourcesOf(files[..n + 1])
    {
      var i :| 0 <= i < n && files[..n][i].source == Some(s);
      assert files[..n + 1][i].source == Some(s);
    }
    assert files[..n + 1][n] == files[n];
    forall s | s in SourcesOf(files[..n + 1]) && files[n].source != Some(s)
      ensures s in SourcesOf(files[..n])
    {
      var i :| 0 <= i < n + 1 && files[..n + 1][i].source == Some(s);
      assert files[..n][i].source == Some(s);
    }
  }

  /** The cells of `sources`, added up. */
  ghost function SumCells(sources: set<string>, files: seq<SourceFile>, success: set<string>, script: set<string>): Cell
    decreases sources
  {
    if sources == {} then Cell(0, 0, 0)
    else
      var s :| s in sources;
      var c, rest := CellOf(files, s, success, script), SumCells(sources - {s}, files, success, script);
      Cell(c.processed + rest.processed, c.total + rest.total, c.scriptOnly + rest.scriptOnly)
  }

  /** The same three counts over every file whose source is among `sources`. */
  ghost function CountAmong(sources: set<string>, files: seq<SourceFile>, success: set<string>, script: set<string>): Cell {
    if files == [] then Cell(0, 0, 0)
    else
      var n := |files| - 1;
      var c, f := CountAmong(sources, files[..n], success, script), files[n];
      if f.source.None? || f.source.value !in sources then c
      else Cell(c.processed + (if f.path in success then 1 else 0), c.total + 1,
                c.scriptOnly + (if f.path in script then 1 else 0))
  }

  lemma {:induction false} CountSplits(s: string, sources: set<string>, files: seq<SourceFile>, success: set<string>, script: set<string>)
    requires s in sources
    ensures var all, one, rest := CountAmong(sources, files, success, script), CellOf(files, s, success, script),
                                  CountAmong(sources - {s}, files, success, script);
            all == Cell(one.processed + rest.processed, one.total + rest.total, one.scriptOnly + rest.scriptOnly)
  {
    if files != [] {
      CountSplits(s, sources, files[..|files| - 1], success, script);
    }
  }

  lemma {:induction false} CountNone(files: seq<SourceFile>, success: set<string>, script: set<string>)
    ensures CountAmong({}, files, success, script) == Cell(0, 0, 0)
  {
    if files != [] {
      CountNone(files[..|files| - 1], success, script);
    }
  }

  lemma {:induction false} SumIsCount(sources: set<string>, files: seq<SourceFile>, success: set<string>, script: set<string>)
    ensures SumCells(sources, files, success, script) == CountAmong(sources, files, success, script)
    decreases sources
  {
    if sources == {} {
      CountNone(files, success, script);
    } else {
      var s :| s in sources && SumCells(sources, files, success, script) ==
                 (var c, rest := CellOf(files, s, success, script), SumCells(sources - {s}, files, success, script);
                  Cell(c.processed + rest.processed, c.total + rest.total, c.scriptOnly + rest.scriptOnly));
      SumIsCount(sources - {s}, files, success, script);
      CountSplits(s, sources, files, success, script);
    }
  }

  lemma {:induction false} CountAll(sources: set<string>, files: seq<SourceFile>, success: set<string>, script: set<string>)
    requires forall i :: 0 <= i < |files| ==> files[i].source.Some? && files[i].source.value in sources
    requires DistinctPaths(files)
    ensures var c := CountAmong(sources, files, success, script);
            && c.total == |files|
            && c.processed == |Paths(files) * success|
            && c.scriptOnly == |Paths(files) * script|
  {
    if files != [] {
      var n := |files| - 1;
      CountAll(sources, files[..n], success, script);
      OnePathMore(files, success);
      OnePathMore(files, script);
    } else {
      assert Paths(files) == {};
    }
  }

  lemma OnePathMore(files: seq<SourceFile>, some: set<string>)
    requires files != [] && DistinctPaths(files)
    ensures var n := |files| - 1;
            |Paths(files) * some| == |Paths(files[..n]) * some| + if files[n].path in some then 1 else 0
  {
    PathsSnoc(files);
    var n := |files| - 1;
    var last, prior := files[n].path, Paths(files[..n]);
    assert Paths(files) * some == prior * some + (if last in some then {last} else {});
  }

  lemma AcceptedWithin(files: seq<SourceFile>, tool: Tool)
    ensures Paths(files) * AcceptedPaths(files, tool) == AcceptedPaths(files, tool)
    ensures Paths(files) * ScriptPaths(files, tool) == ScriptPaths(files, tool)
  {
    RecordsEveryFile(files, tool);
  }

  /** When every file has a source, one task's per-source cells add up to its pre-flight totals. */
  lemma SourcesAddUp(files: seq<SourceFile>, tool: Tool)
    requires DistinctPaths(files) && forall i :: 0 <= i < |files| ==> files[i].source.Some?
    ensures SumCells(SourcesOf(files), files, AcceptedPaths(files, tool), ScriptPaths(files, tool)) ==
            Cell(|AcceptedPaths(files, tool)|, |files|, |ScriptPaths(files, tool)|)
  {
    var success, script := AcceptedPaths(files, tool), ScriptPaths(files, tool);
    SumIsCount(SourcesOf(files), files, success, script);
    forall i | 0 <= i < |files|
      ensures files[i].source.value in SourcesOf(files)
    {
    }
    CountAll(SourcesOf(files), files, success, script);
    AcceptedWithin(files, tool);
  }
}
