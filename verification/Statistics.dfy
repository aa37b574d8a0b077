/** Order statistics of a row's samples, over exact reals. */
module Statistics {
  import opened FiniteSets

  function Insert(x: real, sorted: seq<real>): seq<real> {
    if sorted == [] || x <= sorted[0] then [x] + sorted else [sorted[0]] + Insert(x, sorted[1..])
  }

  function Sort(values: seq<real>): (sorted: seq<real>)
    ensures |sorted| == |values|
  {
    if values == [] then []
    else
      InsertLength(values[0], Sort(values[1..]));
      Insert(values[0], Sort(values[1..]))
  }

  lemma {:induction false} InsertLength(x: real, sorted: seq<real>)
    ensures |Insert(x, sorted)| == |sorted| + 1
  {
    if sorted != [] {
      InsertLength(x, sorted[1..]);
    }
  }

  /** The middle value, or the mean of the middle two. */
  function Median(values: seq<real>): real
    requires values != []
  {
    var sorted, mid := Sort(values), |values| / 2;
    if |values| % 2 == 1 then sorted[mid] else (sorted[mid - 1] + sorted[mid]) / 2.0
  }

  function Abs(x: real): real {
    if x < 0.0 then -x else x
  }

  /** The deviations of `values` from `mid`. */
  function Deviations(values: seq<real>, mid: real): seq<real> {
    seq(|values|, i requires 0 <= i < |values| => Abs(values[i] - mid))
  }

  /** The median absolute deviation; zero for fewer than two values. */
  function Mad(values: seq<real>): real {
    if |values| < 2 then 0.0 else Median(Deviations(values, Median(values)))
  }

  // ----- counting against a bound -----

  /** How many of `values` lie in `[low, high]`. */
  function CountIn(values: seq<real>, low: real, high: real): (n: nat)
    ensures n <= |values|
  {
    if values == [] then 0
    else (if low <= values[0] <= high then 1 else 0) + CountIn(values[1..], low, high)
  }

  lemma {:induction false} InsertKeepsCount(x: real, sorted: seq<real>, low: real, high: real)
    ensures CountIn(Insert(x, sorted), low, high) == (if low <= x <= high then 1 else 0) + CountIn(sorted, low, high)
  {
    if sorted != [] && x > sorted[0] {
      InsertKeepsCount(x, sorted[1..], low, high);
    }
  }

  lemma {:induction false} SortKeepsCount(values: seq<real>, low: real, high: real)
    ensures CountIn(Sort(values), low, high) == CountIn(values, low, high)
  {
    if values != [] {
      SortKeepsCount(values[1..], low, high);
      InsertKeepsCount(values[0], Sort(values[1..]), low, high);
    }
  }

  ghost predicate Ascending(s: seq<real>) {
    forall i, j :: 0 <= i < j < |s| ==> s[i] <= s[j]
  }

  lemma {:induction false} InsertKeepsBound(x: real, sorted: seq<real>, low: real)
    requires low <= x && forall i :: 0 <= i < |sorted| ==> low <= sorted[i]
    ensures forall i :: 0 <= i < |Insert(x, sorted)| ==> low <= Insert(x, sorted)[i]
  {
    if sorted != [] && x > sorted[0] {
      InsertKeepsBound(x, sorted[1..], low);
    }
  }

  lemma {:induction false} InsertAscends(x: real, sorted: seq<real>)
    requires Ascending(sorted)
    ensures Ascending(Insert(x, sorted))
  {
    if sorted != [] && x > sorted[0] {
      InsertAscends(x, sorted[1..]);
      InsertKeepsBound(x, sorted[1..], sorted[0]);
    }
  }

  lemma {:induction false} SortKeepsBound(values: seq<real>, low: real)
    requires forall i :: 0 <= i < |values| ==> low <= values[i]
    ensures forall i :: 0 <= i < |Sort(values)| ==> low <= Sort(values)[i]
  {
    if values != [] {
      SortKeepsBound(values[1..], low);
      InsertKeepsBound(values[0], Sort(values[1..]), low);
    }
  }

  lemma {:induction false} SortAscends(values: seq<real>)
    ensures Ascending(Sort(values))
  {
    if values != [] {
      SortAscends(values[1..]);
      InsertAscends(values[0], Sort(values[1..]));
    }
  }

  /** Values outside `[low, high]` cannot be counted: at most `n` of them are. */
  lemma {:induction false} CountBelow(s: seq<real>, low: real, high: real, k: nat)
    requires k <= |s| && forall i :: k <= i < |s| ==> s[i] > high
    ensures CountIn(s, low, high) <= k
  {
    if k > 0 && s != [] {
      CountBelow(s[1..], low, high, k - 1);
    } else if s != [] {
      CountBelow(s[1..], low, high, 0);
    }
  }

  lemma {:induction false} CountAbove(s: seq<real>, low: real, high: real, k: nat)
    requires k <= |s| && forall i :: 0 <= i < k ==> s[i] < low
    ensures CountIn(s, low, high) <= |s| - k
  {
    if k > 0 {
      CountAbove(s[1..], low, high, k - 1);
    }
  }

  /** The median lies wherever a strict majority of the values lie. */
  lemma {:induction false} MedianWithMajority(values: seq<real>, low: real, high: real)
    requires values != [] && 2 * CountIn(values, low, high) > |values|
    ensures low <= Median(values) <= high
  {
    var sorted, n, mid := Sort(values), |values|, |values| / 2;
    SortAscends(values);
    SortKeepsCount(values, low, high);
    var lowMid := if n % 2 == 1 then mid else mid - 1;
    if sorted[mid] > high {
      CountBelow(sorted, low, high, mid);
    }
    if sorted[lowMid] < low {
      CountAbove(sorted, low, high, lowMid + 1);
    }
  }

  /** The count is that of the positions in range. */
  lemma {:induction false} CountAtLeast(values: seq<real>, low: real, high: real, at: set<nat>)
    requires forall r <- at :: r < |values| && low <= values[r] <= high
    ensures CountIn(values, low, high) >= |at|
  {
    if values == [] {
      assert at == {};
    } else {
      var rest := at - {0};
      var moved := set r: nat | r < |values| && Next(r, rest);
      ShiftSize(rest, moved);
      forall r <- moved
        ensures r < |values[1..]| && low <= values[1..][r] <= high
      {
        assert r + 1 in rest;
      }
      CountAtLeast(values[1..], low, high, moved);
      assert 0 in at ==> at == rest + {0};
      assert 0 !in at ==> at == rest;
    }
  }

  /** A strict majority of the values, those at `at`, lies in a range: so does the median. */
  lemma MajorityRules(values: seq<real>, at: set<nat>, low: real, high: real)
    requires 2 * |at| > |values| && forall r <- at :: r < |values| && low <= values[r] <= high
    ensures values != [] && low <= Median(values) <= high
  {
    CountAtLeast(values, low, high, at);
    assert exists r :: r in at;
    MedianWithMajority(values, low, high);
  }

  /** Bounds on the values at `at`, the lower one above `bound` if they are. */
  lemma {:induction false} Bounds(values: seq<real>, at: set<nat>, bound: real) returns (low: real, high: real)
    requires forall r <- at :: r < |values| && values[r] > bound
    ensures bound < low && forall r <- at :: low <= values[r] <= high
    decreases at
  {
    low, high := bound + 1.0, bound + 1.0;
    if at != {} {
      var r :| r in at;
      low, high := Bounds(values, at - {r}, bound);
      low := if values[r] < low then values[r] else low;
      high := if values[r] > high then values[r] else high;
    }
  }

  /** A strict majority above a bound takes the median above it. */
  lemma MajorityAbove(values: seq<real>, at: set<nat>, bound: real)
    requires 2 * |at| > |values| && forall r <- at :: r < |values| && values[r] > bound
    ensures values != [] && Median(values) > bound
  {
    var low, high := Bounds(values, at, bound);
    MajorityRules(values, at, low, high);
  }

  /** The median is what stands in the middle of the values in order, however they were put in
      order; of an even number, halfway between the middle two. */
  lemma MedianIsMiddle(values: seq<real>, ordered: seq<real>)
    requires values != [] && multiset(values) == multiset(ordered)
    requires forall i, j :: 0 <= i < j < |ordered| ==> ordered[i] <= ordered[j]
    ensures |ordered| == |values|
    ensures var n := |values|;
            Median(values) == if n % 2 == 1 then ordered[n / 2] else (ordered[n / 2 - 1] + ordered[n / 2]) / 2.0
  {
    SortAscends(values);
    SortKeepsValues(values);
    AscendingOnce(Sort(values), ordered);
  }

  lemma {:induction false} InsertKeepsValues(x: real, sorted: seq<real>)
    ensures multiset(Insert(x, sorted)) == multiset{x} + multiset(sorted)
  {
    if sorted != [] && x > sorted[0] {
      InsertKeepsValues(x, sorted[1..]);
      assert sorted == [sorted[0]] + sorted[1..];
    }
  }

  lemma {:induction false} SortKeepsValues(values: seq<real>)
    ensures multiset(Sort(values)) == multiset(values)
  {
    if values != [] {
      SortKeepsValues(values[1..]);
      InsertKeepsValues(values[0], Sort(values[1..]));
      assert values == [values[0]] + values[1..];
    }
  }

  /** The same values in ascending order are the same list. */
  lemma {:induction false} AscendingOnce(a: seq<real>, b: seq<real>)
    requires Ascending(a) && Ascending(b) && multiset(a) == multiset(b)
    ensures a == b
  {
    assert |a| == |multiset(a)| == |multiset(b)| == |b|;
    if a != [] {
      FirstIsLeast(a, b);
      FirstIsLeast(b, a);
      assert a == [a[0]] + a[1..] && b == [b[0]] + b[1..];
      assert multiset(a[1..]) == multiset(a) - multiset{a[0]} && multiset(b[1..]) == multiset(b) - multiset{b[0]};
      AscendingOnce(a[1..], b[1..]);
    }
  }

  lemma FirstIsLeast(a: seq<real>, b: seq<real>)
    requires Ascending(a) && b != [] && multiset(a) == multiset(b)
    ensures a != [] && a[0] <= b[0]
  {
    assert b[0] in multiset(a);
    var i :| 0 <= i < |a| && a[i] == b[0];
  }

  /** How many positions two sample lists disagree at. */
  function Changed(a: seq<real>, b: seq<real>): nat
    requires |a| == |b|
  {
    if a == [] then 0 else (if a[0] != b[0] then 1 else 0) + Changed(a[1..], b[1..])
  }

  lemma {:induction false} UntouchedCounted(a: seq<real>, b: seq<real>, low: real, high: real)
    requires |a| == |b|
    requires forall i :: 0 <= i < |a| && a[i] == b[i] ==> low <= a[i] <= high
    ensures CountIn(b, low, high) >= |a| - Changed(a, b)
  {
    if a != [] {
      UntouchedCounted(a[1..], b[1..], low, high);
    }
  }

  /** Breakdown point of one half: replacing fewer than half of the values by anything keeps the
      median, old and new alike, within any range that holds the values left alone, and keeps the
      spread within that range's width. */
  lemma MedianBreakdown(a: seq<real>, b: seq<real>, low: real, high: real)
    requires a != [] && |a| == |b| && 2 * Changed(a, b) < |a|
    requires forall i :: 0 <= i < |a| && a[i] == b[i] ==> low <= a[i] <= high
    ensures low <= Median(b) <= high && low <= Median(a) <= high
    ensures Mad(b) <= high - low
  {
    UntouchedCounted(a, b, low, high);
    MedianWithMajority(b, low, high);
    ChangedSymmetric(a, b);
    UntouchedCounted(b, a, low, high);
    MedianWithMajority(a, low, high);
    MadWithMajority(b, low, high);
  }

  lemma {:induction false} ChangedSymmetric(a: seq<real>, b: seq<real>)
    requires |a| == |b|
    ensures Changed(a, b) == Changed(b, a)
  {
    if a != [] {
      ChangedSymmetric(a[1..], b[1..]);
    }
  }

  lemma {:induction false} DeviationsCounted(values: seq<real>, mid: real, low: real, high: real)
    requires low <= mid <= high
    ensures CountIn(Deviations(values, mid), 0.0, high - low) >= CountIn(values, low, high)
  {
    if values != [] {
      DeviationsCounted(values[1..], mid, low, high);
      assert Deviations(values, mid)[1..] == Deviations(values[1..], mid);
    }
  }

  /** The spread is at most the width of any range holding a strict majority. */
  lemma MadWithMajority(values: seq<real>, low: real, high: real)
    requires values != [] && 2 * CountIn(values, low, high) > |values|
    ensures 0.0 <= Mad(values) <= high - low
  {
    var mid := Median(values);
    MedianWithMajority(values, low, high);
    DeviationsCounted(values, mid, low, high);
    MedianWithMajority(Deviations(values, mid), 0.0, high - low);
  }

  /** The spread lies wherever a strict majority of the distances from the median lie. */
  lemma SpreadOfMajority(values: seq<real>, at: set<nat>, low: real, high: real)
    requires |values| >= 2 && 2 * |at| > |values|
    requires forall r <- at :: r < |values| &&
               (low <= values[r] - Median(values) <= high || low <= Median(values) - values[r] <= high)
    requires low >= 0.0
    ensures low <= Mad(values) <= high
  {
    var deviations := Deviations(values, Median(values));
    MajorityRules(deviations, at, low, high);
  }

  lemma MadNonNegative(values: seq<real>)
    ensures Mad(values) >= 0.0
  {
    if |values| >= 2 {
      SortKeepsBound(Deviations(values, Median(values)), 0.0);
    }
  }

  /** The first `k` values replaced by `far`. */
  function Replaced(values: seq<real>, k: nat, far: real): seq<real>
    requires k <= |values|
  {
    seq(|values|, i requires 0 <= i < |values| => if i < k then far else values[i])
  }

  lemma {:induction false} ReplacedCounts(values: seq<real>, k: nat, low: real, far: real)
    requires k <= |values| && low <= far && forall i :: 0 <= i < |values| ==> low <= values[i]
    ensures var b := Replaced(values, k, far);
            && Changed(values, b) <= k
            && CountIn(b, far, far) >= k
            && forall i :: 0 <= i < |b| ==> low <= b[i]
  {
    if values != [] {
      var fewer := if k > 0 then k - 1 else 0;
      ReplacedCounts(values[1..], fewer, low, far);
      assert Replaced(values, k, far)[1..] == Replaced(values[1..], fewer, far);
    }
  }

  lemma {:induction false} LowerBound(values: seq<real>) returns (low: real)
    ensures forall i :: 0 <= i < |values| ==> low <= values[i]
  {
    if values == [] {
      low := 0.0;
    } else {
      low := LowerBound(values[1..]);
      if values[0] < low {
        low := values[0];
      }
    }
  }

  /** The upper middle value is no less than `far` when half of the values are `far`, the lower one
      no less than any bound below them all. */
  lemma MedianPulled(values: seq<real>, low: real, far: real)
    requires values != [] && 2 * CountIn(values, far, far) >= |values|
    requires low <= far && forall i :: 0 <= i < |values| ==> low <= values[i]
    ensures Median(values) >= (low + far) / 2.0
  {
    var sorted, n, mid := Sort(values), |values|, |values| / 2;
    SortAscends(values);
    SortKeepsCount(values, far, far);
    SortKeepsBound(values, low);
    if sorted[mid] < far {
      CountAbove(sorted, far, far, mid + 1);
    }
  }

  /** One half is the exact breakdown point: whatever the values, replacing half of them, rounded
      up, can drive the median past any bound. */
  lemma HalfBreaks(values: seq<real>, bound: real) returns (replaced: seq<real>)
    requires values != []
    ensures |replaced| == |values| && 2 * Changed(values, replaced) <= |values| + 1
    ensures Median(replaced) > bound
  {
    var low := LowerBound(values);
    var far := 2.0 * Abs(bound) + Abs(low) + 1.0;
    var k := (|values| + 1) / 2;
    ReplacedCounts(values, k, low, far);
    replaced := Replaced(values, k, far);
    MedianPulled(replaced, low, far);
  }
}
