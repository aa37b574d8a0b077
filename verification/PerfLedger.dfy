/** Grading a run's failures against the reviewed omit list, in both directions. */
module PerfLedger {
  import opened Wrappers
  import opened JsStrings

  /** A tolerated failure: fragments of a task's tracking key, when it names one, and of a path. */
  datatype Omit = Omit(task: Option<string>, path: string)

  type Key = string

  type Path = string

  /** Per task, the error of each file it failed. */
  type Failures = map<Key, map<Path, string>>

  predicate NamesTask(o: Omit, key: Key) {
    o.task.None? || Includes(key, o.task.value)
  }

  predicate Claims(o: Omit, key: Key, path: Path) {
    NamesTask(o, key) && Includes(path, o.path)
  }

  /** An entry claims a failure whose path holds its fragment, and whose task's key holds the other
      if it names one. */
  lemma ClaimsMeans(o: Omit, key: Key, path: Path)
    ensures Claims(o, key, path) <==>
            && (exists before, after :: path == before + o.path + after)
            && (o.task.Some? ==> exists before, after :: key == before + o.task.value + after)
  {
    IncludesMeans(path, o.path);
    if o.task.Some? {
      IncludesMeans(key, o.task.value);
    }
  }

  /** `perf_omit_matches`, as positions in the list: two equal entries are still two. */
  function Matches(omits: seq<Omit>, key: Key, path: Path): (found: seq<nat>)
    ensures forall i :: i in found <==> 0 <= i < |omits| && Claims(omits[i], key, path)
    ensures forall a, b :: 0 <= a < b < |found| ==> found[a] < found[b]
  {
    if omits == [] then []
    else
      var n := |omits| - 1;
      var prior := Matches(omits[..n], key, path);
      assert forall a :: 0 <= a < |prior| ==> prior[a] in prior;
      prior + if Claims(omits[n], key, path) then [n] else []
  }

  /** A failure the run is graded on. */
  predicate Failed(skipped: Failures, coverageOnly: set<Key>, key: Key, path: Path) {
    key in skipped && key !in coverageOnly && path in skipped[key]
  }

  /** Exactly one entry claims the failure. */
  ghost predicate ClaimedOnce(omits: seq<Omit>, key: Key, path: Path) {
    exists i :: 0 <= i < |omits| && Claims(omits[i], key, path) &&
                forall j :: 0 <= j < |omits| && Claims(omits[j], key, path) ==> j == i
  }

  ghost predicate ClaimsSomeFailure(o: Omit, skipped: Failures, coverageOnly: set<Key>) {
    exists key, path :: Failed(skipped, coverageOnly, key, path) && Claims(o, key, path)
  }

  /** Some task this run graded is one the entry speaks of. */
  ghost predicate Askable(o: Omit, graded: set<Key>) {
    exists key :: key in graded && NamesTask(o, key)
  }

  datatype Grade =
    | Passed
    | Refused(violations: set<(Key, Path)>, overlaps: set<seq<nat>>)
    | Stale(entries: seq<nat>)

  function FailuresOf(skipped: Failures, coverageOnly: set<Key>): set<(Key, Path)> {
    set key, path | key in skipped && key !in coverageOnly && path in skipped[key] :: (key, path)
  }

  /** The failures no entry claims. */
  function Unlisted(omits: seq<Omit>, failures: set<(Key, Path)>): set<(Key, Path)> {
    set f | f in failures && Matches(omits, f.0, f.1) == []
  }

  /** The claim sets of more than one entry. */
  function Overlapping(omits: seq<Omit>, failures: set<(Key, Path)>): set<seq<nat>> {
    set f | f in failures && |Matches(omits, f.0, f.1)| > 1 :: Matches(omits, f.0, f.1)
  }

  /** The entries that claim anything. */
  function Credited(omits: seq<Omit>, failures: set<(Key, Path)>): set<nat> {
    set f, i | f in failures && i in Matches(omits, f.0, f.1) :: i
  }

  /** One pass over the failures. */
  method Tally(omits: seq<Omit>, skipped: Failures, coverageOnly: set<Key>)
    returns (violations: set<(Key, Path)>, overlaps: set<seq<nat>>, used: set<nat>)
    ensures var failures := FailuresOf(skipped, coverageOnly);
            && violations == Unlisted(omits, failures)
            && overlaps == Overlapping(omits, failures)
            && used == Credited(omits, failures)
  {
    hide Matches;
    violations, overlaps, used := {}, {}, {};
    var rest := FailuresOf(skipped, coverageOnly);
    ghost var seen: set<(Key, Path)> := {};
    while rest != {}
      invariant seen + rest == FailuresOf(skipped, coverageOnly)
      invariant violations == Unlisted(omits, seen)
      invariant overlaps == Overlapping(omits, seen)
      invariant used == Credited(omits, seen)
      decreases rest
    {
      var f :| f in rest;
      var matches := Matches(omits, f.0, f.1);
      SeenUnlisted(omits, seen, f);
      SeenOverlapping(omits, seen, f);
      SeenCredited(omits, seen, f);
      rest, seen := rest - {f}, seen + {f};
      if matches == [] {
        violations := violations + {f};
        continue;
      }
      used := used + set i | i in matches;
      if |matches| == 1 {
        continue;
      }
      overlaps := overlaps + {matches};
    }
  }

  lemma SeenUnlisted(omits: seq<Omit>, seen: set<(Key, Path)>, f: (Key, Path))
    ensures Unlisted(omits, seen + {f}) == Unlisted(omits, seen) + (if Matches(omits, f.0, f.1) == [] then {f} else {})
  {
  }

  lemma SeenOverlapping(omits: seq<Omit>, seen: set<(Key, Path)>, f: (Key, Path))
    ensures var matches := Matches(omits, f.0, f.1);
            Overlapping(omits, seen + {f}) == Overlapping(omits, seen) + (if |matches| > 1 then {matches} else {})
  {
  }

  lemma SeenCredited(omits: seq<Omit>, seen: set<(Key, Path)>, f: (Key, Path))
    ensures Credited(omits, seen + {f}) == Credited(omits, seen) + set i | i in Matches(omits, f.0, f.1)
  {
  }

  lemma CreditedMeans(omits: seq<Omit>, skipped: Failures, coverageOnly: set<Key>, i: nat)
    ensures i in Credited(omits, FailuresOf(skipped, coverageOnly)) <==>
            i < |omits| && ClaimsSomeFailure(omits[i], skipped, coverageOnly)
  {
    var failures := FailuresOf(skipped, coverageOnly);
    if i in Credited(omits, failures) {
      var f :| f in failures && i in Matches(omits, f.0, f.1);
      assert Failed(skipped, coverageOnly, f.0, f.1) && Claims(omits[i], f.0, f.1);
    }
    if i < |omits| && ClaimsSomeFailure(omits[i], skipped, coverageOnly) {
      var key, path :| Failed(skipped, coverageOnly, key, path) && Claims(omits[i], key, path);
      assert (key, path) in failures && i in Matches(omits, key, path);
    }
  }

  /** The unused entries a graded task is asked about. */
  ghost predicate IsStaleList(stale: seq<nat>, omits: seq<Omit>, used: set<nat>, graded: set<Key>) {
    forall i :: i in stale <==> 0 <= i < |omits| && i !in used && Askable(omits[i], graded)
  }

  /** `stale_perf_omits` */
  method StaleOmits(omits: seq<Omit>, used: set<nat>, graded: set<Key>) returns (stale: seq<nat>)
    ensures IsStaleList(stale, omits, used, graded)
  {
    stale := [];
    for i := 0 to |omits|
      invariant forall j :: j in stale <==> 0 <= j < i && j !in used && Askable(omits[j], graded)
    {
      if i !in used && exists key :: key in graded && NamesTask(omits[i], key) {
        stale := stale + [i];
      }
    }
  }

  /** `enforce_perf_coverage`. The run passes exactly when each graded failure is claimed by exactly
      one entry and, over the full corpus, each entry whose task was graded claims some failure. */
  method EnforcePerfCoverage(
      omits: seq<Omit>, skipped: Failures, successful: set<Key>, coverageOnly: set<Key>, fullCorpus: bool)
    returns (grade: Grade)
    ensures grade.Passed? <==>
              && (forall key, path :: Failed(skipped, coverageOnly, key, path) ==> ClaimedOnce(omits, key, path))
              && (fullCorpus ==> forall i :: 0 <= i < |omits| && Askable(omits[i], successful - coverageOnly) ==>
                    ClaimsSomeFailure(omits[i], skipped, coverageOnly))
    ensures grade.Refused? <==>
              exists key, path :: Failed(skipped, coverageOnly, key, path) && !ClaimedOnce(omits, key, path)
    ensures grade.Refused? ==> forall key, path ::
              (key, path) in grade.violations <==>
              Failed(skipped, coverageOnly, key, path) && forall o <- omits :: !Claims(o, key, path)
    ensures grade.Refused? ==> forall shape ::
              shape in grade.overlaps <==>
              exists key, path :: Failed(skipped, coverageOnly, key, path) && Shares(omits, shape, key, path)
    ensures grade.Stale? ==> fullCorpus && forall i :: i in grade.entries <==>
              0 <= i < |omits| && Askable(omits[i], successful - coverageOnly) &&
              !ClaimsSomeFailure(omits[i], skipped, coverageOnly)
  {
    var violations, overlaps, used := Tally(omits, skipped, coverageOnly);
    FirstHalf(omits, skipped, coverageOnly);
    if violations != {} || overlaps != {} {
      forall key, path
        ensures (key, path) in violations <==>
                Failed(skipped, coverageOnly, key, path) && forall o <- omits :: !Claims(o, key, path)
      {
        UnlistedMeans(omits, skipped, coverageOnly, key, path);
      }
      forall shape
        ensures shape in overlaps <==>
                exists key, path :: Failed(skipped, coverageOnly, key, path) && Shares(omits, shape, key, path)
      {
        OverlappingMeans(omits, skipped, coverageOnly, shape);
      }
      return Refused(violations, overlaps);
    }
    if !fullCorpus {
      return Passed;
    }
    var stale := StaleOmits(omits, used, successful - coverageOnly);
    forall i: nat | i < |omits|
      ensures i in used <==> ClaimsSomeFailure(omits[i], skipped, coverageOnly)
    {
      CreditedMeans(omits, skipped, coverageOnly, i);
    }
    if stale == [] {
      assert forall i :: i !in stale;
      return Passed;
    }
    assert stale[0] in stale;
    return Stale(stale);
  }

  /** `shape` lists, in order, the entries that claim the failure, and there are several. */
  ghost predicate Shares(omits: seq<Omit>, shape: seq<nat>, key: Key, path: Path) {
    && |shape| > 1
    && (forall a, b :: 0 <= a < b < |shape| ==> shape[a] < shape[b])
    && (forall i :: i in shape <==> 0 <= i < |omits| && Claims(omits[i], key, path))
  }

  /** Positions in order are determined by which they are. */
  lemma {:induction false} OrderedOnce(a: seq<nat>, b: seq<nat>)
    requires (forall i, j :: 0 <= i < j < |a| ==> a[i] < a[j]) && (forall i, j :: 0 <= i < j < |b| ==> b[i] < b[j])
    requires forall x :: x in a <==> x in b
    ensures a == b
  {
    SomeElement(a);
    SomeElement(b);
    if a != [] && b != [] {
      var m, n := |a| - 1, |b| - 1;
      assert a[m] in b && b[n] in a;
      assert a[m] == b[n];
      forall x
        ensures x in a[..m] <==> x in b[..n]
      {
        assert x in a[..m] <==> x in a && x != a[m];
        assert x in b[..n] <==> x in b && x != b[n];
      }
      OrderedOnce(a[..m], b[..n]);
      assert a == a[..m] + [a[m]] && b == b[..n] + [b[n]];
    }
  }

  lemma SomeElement(s: seq<nat>)
    ensures s != [] ==> exists x :: x in s
  {
    if s != [] {
      assert s[0] in s;
    }
  }

  lemma OverlappingMeans(omits: seq<Omit>, skipped: Failures, coverageOnly: set<Key>, shape: seq<nat>)
    ensures shape in Overlapping(omits, FailuresOf(skipped, coverageOnly)) <==>
            exists key, path :: Failed(skipped, coverageOnly, key, path) && Shares(omits, shape, key, path)
  {
    hide Matches;
    var failures := FailuresOf(skipped, coverageOnly);
    if shape in Overlapping(omits, failures) {
      var f :| f in failures && shape == Matches(omits, f.0, f.1);
      assert Failed(skipped, coverageOnly, f.0, f.1) && Shares(omits, shape, f.0, f.1);
    }
    if key, path :| Failed(skipped, coverageOnly, key, path) && Shares(omits, shape, key, path) {
      OrderedOnce(shape, Matches(omits, key, path));
      assert (key, path) in failures;
    }
  }

  lemma UnlistedMeans(omits: seq<Omit>, skipped: Failures, coverageOnly: set<Key>, key: Key, path: Path)
    ensures (key, path) in Unlisted(omits, FailuresOf(skipped, coverageOnly)) <==>
            Failed(skipped, coverageOnly, key, path) && forall o <- omits :: !Claims(o, key, path)
  {
    NoMatch(omits, key, path);
    assert Failed(skipped, coverageOnly, key, path) <==> (key, path) in FailuresOf(skipped, coverageOnly);
  }

  lemma RefusedMeans(omits: seq<Omit>, failures: set<(Key, Path)>)
    ensures Unlisted(omits, failures) == {} && Overlapping(omits, failures) == {} <==>
            forall f <- failures :: |Matches(omits, f.0, f.1)| == 1
  {
    if Unlisted(omits, failures) == {} && Overlapping(omits, failures) == {} {
      forall f <- failures
        ensures |Matches(omits, f.0, f.1)| == 1
      {
        assert f !in Unlisted(omits, failures);
        assert Matches(omits, f.0, f.1) !in Overlapping(omits, failures);
      }
    }
  }

  /** The two refusals together are exactly a failure not claimed once. */
  lemma FirstHalf(omits: seq<Omit>, skipped: Failures, coverageOnly: set<Key>)
    ensures var failures := FailuresOf(skipped, coverageOnly);
            Unlisted(omits, failures) == {} && Overlapping(omits, failures) == {} <==>
            forall key, path :: Failed(skipped, coverageOnly, key, path) ==> ClaimedOnce(omits, key, path)
  {
    var failures := FailuresOf(skipped, coverageOnly);
    RefusedMeans(omits, failures);
    forall key, path
      ensures Failed(skipped, coverageOnly, key, path) <==> (key, path) in failures
      ensures ClaimedOnce(omits, key, path) <==> |Matches(omits, key, path)| == 1
    {
      ClaimedOnceMeansOneMatch(omits, key, path);
    }
    forall f <- failures
      ensures Failed(skipped, coverageOnly, f.0, f.1)
    {
    }
  }

  lemma NoMatch(omits: seq<Omit>, key: Key, path: Path)
    ensures Matches(omits, key, path) == [] <==> forall o <- omits :: !Claims(o, key, path)
  {
    var found := Matches(omits, key, path);
    if found != [] {
      assert found[0] in found;
    } else {
      forall o <- omits
        ensures !Claims(o, key, path)
      {
        var i :| 0 <= i < |omits| && omits[i] == o;
        assert i !in found;
      }
    }
  }

  lemma ClaimedOnceMeansOneMatch(omits: seq<Omit>, key: Key, path: Path)
    ensures ClaimedOnce(omits, key, path) <==> |Matches(omits, key, path)| == 1
  {
    var found := Matches(omits, key, path);
    if |found| == 1 {
      assert found[0] in found;
      forall j | 0 <= j < |omits| && Claims(omits[j], key, path)
        ensures j == found[0]
      {
        assert j in found;
      }
    } else if |found| > 1 {
      assert found[0] in found && found[1] in found && found[0] < found[1];
    } else {
      forall i | 0 <= i < |omits|
        ensures !Claims(omits[i], key, path)
      {
        assert i !in found;
      }
    }
  }

  /** Two entries claiming one failure are both credited, so neither is on any stale list, whatever
      was graded; crediting only the first match would put the second there unless it claims
      another failure. */
  lemma EveryMatchIsCredited(omits: seq<Omit>, skipped: Failures, coverageOnly: set<Key>, key: Key, path: Path, i: nat, j: nat)
    requires Failed(skipped, coverageOnly, key, path)
    requires i < j < |omits| && Claims(omits[i], key, path) && Claims(omits[j], key, path)
    ensures var used := Credited(omits, FailuresOf(skipped, coverageOnly));
            && i in used && j in used
            && forall stale, graded :: IsStaleList(stale, omits, used, graded) ==> i !in stale && j !in stale
    ensures Matches(omits, key, path) != [] && Matches(omits, key, path)[0] != j
  {
    CreditedMeans(omits, skipped, coverageOnly, i);
    CreditedMeans(omits, skipped, coverageOnly, j);
    var found := Matches(omits, key, path);
    assert i in found;
    var a :| 0 <= a < |found| && found[a] == i;
    assert a > 0 ==> found[0] < found[a];
  }
}
