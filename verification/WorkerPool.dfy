/** The strip leg's workers: a few async loops over one shared `next` counter, interleaving only
    where each awaits its two CLI runs. `differs(file)` says what those runs show. */
module WorkerPool {
  import opened FiniteSets

  /** A worker between synchronous stretches. */
  datatype Worker = Awaiting(file: nat) | Finished

  datatype Finding = Differs(file: nat) | AndMore(count: nat)

  const SHOWN: nat := 10

  /** The files of `graded` that differ, in the order they were graded. */
  function DifferingOf(graded: seq<nat>, differs: nat -> bool): seq<nat> {
    if graded == [] then []
    else
      var n := |graded| - 1;
      DifferingOf(graded[..n], differs) + if differs(graded[n]) then [graded[n]] else []
  }

  /** The findings for files that differ in this order. */
  function Shown(differing: seq<nat>): seq<Finding> {
    var n := if |differing| < SHOWN then |differing| else SHOWN;
    seq(n, i requires 0 <= i < n => Differs(differing[i]))
  }

  ghost predicate Distinct(files: seq<nat>) {
    forall i, j :: 0 <= i < j < |files| ==> files[i] != files[j]
  }

  /** Every file taken so far is graded or awaited, once, and a worker finishes only when no file is
      left to take. */
  ghost predicate Scheduled(files: nat, next: nat, workers: seq<Worker>, graded: seq<nat>) {
    && next <= files
    && Distinct(graded)
    && (forall f <- graded :: f < next)
    && (forall k :: 0 <= k < |workers| && workers[k].Awaiting? ==> workers[k].file < next && workers[k].file !in graded)
    && (forall k, l :: 0 <= k < l < |workers| && workers[k].Awaiting? && workers[l].Awaiting? ==>
          workers[k].file != workers[l].file)
    && (forall f :: 0 <= f < next ==> f in graded || Awaiting(f) in workers)
    && (forall k :: 0 <= k < |workers| && workers[k].Finished? ==> next == files)
  }

  /** The worker's next state and the counter, after it looks for a file. */
  function Taken(files: nat, next: nat): (Worker, nat) {
    if next < files then (Awaiting(next), next + 1) else (Finished, next)
  }

  lemma LaunchKeepsSchedule(files: nat, next: nat, workers: seq<Worker>, graded: seq<nat>)
    requires Scheduled(files, next, workers, graded)
    ensures var (w, next') := Taken(files, next); Scheduled(files, next', workers + [w], graded)
  {
    var (w, next') := Taken(files, next);
    var workers' := workers + [w];
    assert workers'[|workers|] == w;
    forall f | 0 <= f < next'
      ensures f in graded || Awaiting(f) in workers'
    {
    }
  }

  lemma ResumeKeepsSchedule(files: nat, next: nat, workers: seq<Worker>, graded: seq<nat>, k: nat)
    requires Scheduled(files, next, workers, graded) && k < |workers| && workers[k].Awaiting?
    ensures var (w, next') := Taken(files, next);
            Scheduled(files, next', workers[k := w], graded + [workers[k].file])
  {
    var (w, next') := Taken(files, next);
    var workers', graded' := workers[k := w], graded + [workers[k].file];
    assert workers'[k] == w;
    forall f | 0 <= f < next'
      ensures f in graded' || Awaiting(f) in workers'
    {
      if f < next && f !in graded' {
        var l :| 0 <= l < |workers| && workers[l] == Awaiting(f);
        assert workers'[l] == Awaiting(f);
      }
    }
  }

  class Pool {
    const files: nat
    const differs: nat -> bool
    var next: nat
    var differing: nat
    var findings: seq<Finding>
    var workers: seq<Worker>
    ghost var graded: seq<nat>

    /** The schedule is sound; the tally and the findings are those of what was graded. */
    ghost predicate Valid()
      reads this
    {
      && Scheduled(files, next, workers, graded)
      && differing == |DifferingOf(graded, differs)|
      && findings == Shown(DifferingOf(graded, differs))
    }

    constructor (files: nat, differs: nat -> bool)
      ensures Valid() && this.files == files && this.differs == differs
      ensures workers == [] && graded == []
    {
      this.files, this.differs := files, differs;
      next, differing, findings, workers, graded := 0, 0, [], [], [];
    }

    /** A worker's first stretch, up to its first `await`. */
    method Launch()
      requires Valid()
      modifies this
      ensures Valid() && graded == old(graded)
      ensures |workers| == |old(workers)| + 1
    {
      LaunchKeepsSchedule(files, next, workers, graded);
      if next < files {
        workers, next := workers + [Awaiting(next)], next + 1;
      } else {
        workers := workers + [Finished];
      }
    }

    /** Worker `k` wakes: it compares, tallies and goes on to its next `await`. */
    method Resume(k: nat)
      requires Valid() && k < |workers| && workers[k].Awaiting?
      modifies this
      ensures Valid() && |workers| == |old(workers)|
      ensures graded == old(graded) + [old(workers)[k].file]
    {
      ResumeKeepsSchedule(files, next, workers, graded, k);
      Tally(workers[k].file);
      if next < files {
        workers, next := workers[k := Awaiting(next)], next + 1;
      } else {
        workers := workers[k := Finished];
      }
    }

    /** One comparison. */
    method Tally(file: nat)
      requires differing == |DifferingOf(graded, differs)| && findings == Shown(DifferingOf(graded, differs))
      modifies this`graded, this`differing, this`findings
      ensures graded == old(graded) + [file]
      ensures differing == |DifferingOf(graded, differs)| && findings == Shown(DifferingOf(graded, differs))
    {
      graded := graded + [file];
      assert graded[..|graded| - 1] == old(graded);
      if differs(file) {
        differing := differing + 1;
        if differing <= SHOWN {
          findings := findings + [Differs(file)];
        }
      }
    }

    /** Every worker launched, then woken in whatever order their runs finish. */
    method Grade(count: nat) returns (report: seq<Finding>)
      requires Valid() && workers == [] && graded == [] && count >= 1
      modifies this
      ensures Distinct(graded) && |graded| == files && forall f :: 0 <= f < files ==> f in graded
      ensures differing == |set f | 0 <= f < files && differs(f)|
      ensures var order := DifferingOf(graded, differs);
              && |order| == differing
              && report == Shown(order) + if differing > SHOWN then [AndMore(differing - SHOWN)] else []
      ensures Reports(report, graded, differs)
    {
      for n := 0 to count
        invariant Valid() && |workers| == n && graded == []
      {
        Launch();
      }
      while exists k :: 0 <= k < |workers| && workers[k].Awaiting?
        invariant Valid() && |workers| == count && |graded| <= files
        decreases files - |graded|
      {
        var k :| 0 <= k < |workers| && workers[k].Awaiting?;
        GradedFits(graded + [workers[k].file], files);
        Resume(k);
      }
      assert workers[0].Finished?;
      assert forall f :: 0 <= f < files ==> Awaiting(f) !in workers;
      GradedAll(graded, files, differs);
      report := findings;
      if differing > SHOWN {
        report := report + [AndMore(differing - SHOWN)];
      }
      ReportMeans(report, graded, differs);
    }
  }

  function Elements(files: seq<nat>): set<nat> {
    set f | f in files
  }

  lemma {:induction false} DistinctSize(files: seq<nat>)
    requires Distinct(files)
    ensures |Elements(files)| == |files|
  {
    if files != [] {
      var n := |files| - 1;
      DistinctSize(files[..n]);
      assert Elements(files) == Elements(files[..n]) + {files[n]};
    }
  }

  function Below(n: nat): (s: set<nat>)
    ensures forall f: nat :: f in s <==> f < n
  {
    if n == 0 then {} else Below(n - 1) + {n - 1}
  }

  lemma {:induction false} BelowSize(n: nat)
    ensures |Below(n)| == n
  {
    if n > 0 {
      BelowSize(n - 1);
    }
  }

  /** Distinct files of `n` number at most `n`. */
  lemma GradedFits(graded: seq<nat>, n: nat)
    requires Distinct(graded) && forall f <- graded :: f < n
    ensures |graded| <= n
  {
    DistinctSize(graded);
    BelowSize(n);
    SubsetSize(Elements(graded), Below(n));
  }

  lemma {:induction false} DifferingElements(graded: seq<nat>, differs: nat -> bool)
    requires Distinct(graded)
    ensures Distinct(DifferingOf(graded, differs))
    ensures forall f :: f in DifferingOf(graded, differs) <==> f in graded && differs(f)
  {
    if graded != [] {
      var n := |graded| - 1;
      DifferingElements(graded[..n], differs);
      assert graded == graded[..n] + [graded[n]];
      var prior := DifferingOf(graded[..n], differs);
      assert forall i :: 0 <= i < |prior| ==> prior[i] in prior;
    }
  }

  /** `f` was graded before `g`. */
  ghost predicate Before(f: nat, g: nat, graded: seq<nat>) {
    exists i, j :: 0 <= i < j < |graded| && graded[i] == f && graded[j] == g
  }

  /** The differing files stand in the order they were graded, none left out. */
  lemma {:induction false} DifferingInOrder(graded: seq<nat>, differs: nat -> bool)
    requires Distinct(graded)
    ensures var order := DifferingOf(graded, differs);
            && (forall f <- order :: f in graded && differs(f))
            && (forall i, j :: 0 <= i < j < |order| ==> Before(order[i], order[j], graded))
            && (forall f, j :: 0 <= j < |order| && differs(f) && Before(f, order[j], graded) ==> f in order[..j])
  {
    if graded != [] {
      var n := |graded| - 1;
      var prior, last, before := graded[..n], graded[n], DifferingOf(graded[..n], differs);
      var order := DifferingOf(graded, differs);
      DifferingInOrder(prior, differs);
      DifferingElements(prior, differs);
      forall f, g | f in prior && g in prior
        ensures Before(f, g, graded) <==> Before(f, g, prior)
      {
        BeforeLast(f, g, graded);
      }
      forall f | f in prior
        ensures Before(f, last, graded)
      {
        var i :| 0 <= i < n && prior[i] == f;
        assert graded[i] == f && graded[n] == last;
      }
      forall i | 0 <= i < |before|
        ensures before[i] in before && before[i] in prior
      {
      }
      forall f, j | 0 <= j < |order| && differs(f) && Before(f, order[j], graded)
        ensures f in order[..j]
      {
        assert f != last;
        if j < |before| {
          assert f in before[..j] && order[..j] == before[..j];
        } else {
          assert order[..j] == before;
        }
      }
    }
  }

  lemma BeforeLast(f: nat, g: nat, graded: seq<nat>)
    requires graded != [] && Distinct(graded) && f in graded[..|graded| - 1] && g in graded[..|graded| - 1]
    ensures Before(f, g, graded) <==> Before(f, g, graded[..|graded| - 1])
  {
    var prior := graded[..|graded| - 1];
    if Before(f, g, graded) {
      var i, j :| 0 <= i < j < |graded| && graded[i] == f && graded[j] == g;
      var k :| 0 <= k < |prior| && prior[k] == g;
      assert graded[k] == g && j == k;
      assert prior[i] == f && prior[j] == g;
    }
    if Before(f, g, prior) {
      var i, j :| 0 <= i < j < |prior| && prior[i] == f && prior[j] == g;
      assert graded[i] == f && graded[j] == g;
    }
  }

  /** The report says of the first ten differing files, in the order they were graded, that they
      differ, and of the others how many they are. */
  ghost predicate Reports(report: seq<Finding>, graded: seq<nat>, differs: nat -> bool) {
    var differing := |set f | f in graded && differs(f)|;
    && |report| == (if differing <= 10 then differing else 11)
    && (differing > 10 ==> report[10] == AndMore(differing - 10))
    && (forall i :: 0 <= i < |report| && i < 10 ==>
          report[i].Differs? && report[i].file in graded && differs(report[i].file))
    && (forall i, j :: 0 <= i < j < |report| && j < 10 ==> Before(report[i].file, report[j].file, graded))
    && (forall f: nat, j :: 0 <= j < |report| && j < 10 && differs(f) && Before(f, report[j].file, graded) ==>
          Differs(f) in report[..j])
  }

  lemma ReportMeans(report: seq<Finding>, graded: seq<nat>, differs: nat -> bool)
    requires Distinct(graded)
    requires var order := DifferingOf(graded, differs);
             report == Shown(order) + if |order| > SHOWN then [AndMore(|order| - SHOWN)] else []
    ensures Reports(report, graded, differs)
  {
    var order, shown := DifferingOf(graded, differs), Shown(DifferingOf(graded, differs));
    DifferingElements(graded, differs);
    DistinctSize(order);
    assert Elements(order) == set f | f in graded && differs(f);
    FirstShown(graded, differs);
    assert forall j :: 0 <= j <= |shown| ==> report[..j] == shown[..j];
    assert forall i :: 0 <= i < |shown| ==> report[i] == shown[i];
  }

  lemma FirstShown(graded: seq<nat>, differs: nat -> bool)
    requires Distinct(graded)
    ensures var order, shown := DifferingOf(graded, differs), Shown(DifferingOf(graded, differs));
            && (forall i :: 0 <= i < |shown| ==> shown[i] == Differs(order[i]))
            && (forall i, j :: 0 <= i < j < |shown| ==> Before(order[i], order[j], graded))
            && (forall f, j :: 0 <= j < |shown| && differs(f) && Before(f, order[j], graded) ==> Differs(f) in shown[..j])
  {
    DifferingInOrder(graded, differs);
    var order, shown := DifferingOf(graded, differs), Shown(DifferingOf(graded, differs));
    forall f, j | 0 <= j < |shown| && differs(f) && Before(f, order[j], graded)
      ensures Differs(f) in shown[..j]
    {
      var i :| 0 <= i < j && order[..j][i] == f;
      assert shown[..j][i] == Differs(f);
    }
  }

  lemma GradedAll(graded: seq<nat>, n: nat, differs: nat -> bool)
    requires Distinct(graded) && (forall f <- graded :: f < n) && forall f :: 0 <= f < n ==> f in graded
    ensures |graded| == n
    ensures |DifferingOf(graded, differs)| == |set f | 0 <= f < n && differs(f)|
  {
    DistinctSize(graded);
    BelowSize(n);
    assert Elements(graded) == Below(n);
    var order := DifferingOf(graded, differs);
    DifferingElements(graded, differs);
    DistinctSize(order);
    assert Elements(order) == set f | 0 <= f < n && differs(f);
  }
}
