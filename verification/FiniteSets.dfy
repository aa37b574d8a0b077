/** Counting finite sets. */
module FiniteSets {
  lemma {:induction false} SubsetSize<T>(a: set<T>, b: set<T>)
    requires a <= b
    ensures |a| <= |b|
  {
    assert b == a + (b - a);
  }

  /** The position after `r` is among `at`. */
  predicate Next(r: nat, at: set<nat>) {
    r + 1 in at
  }

  lemma NextButOne(at: set<nat>, r: nat, q: nat)
    requires r in at && r > 0
    ensures Next(r - 1, at)
    ensures Next(q, at - {r}) <==> Next(q, at) && q != r - 1
  {
  }

  /** Positions moved down by one are as many. */
  lemma {:induction false} ShiftSize(at: set<nat>, moved: set<nat>)
    requires 0 !in at && forall r: nat :: r in moved <==> Next(r, at)
    ensures |moved| == |at|
    decreases at
  {
    if at == {} {
      assert forall r: nat :: !Next(r, at);
      assert moved == {};
    } else {
      hide Next;
      var r :| r in at;
      var fewer, rest := at - {r}, moved - {r - 1};
      forall q: nat
        ensures Next(r - 1, at) && (q in rest <==> Next(q, fewer))
      {
        NextButOne(at, r, q);
      }
      ShiftSize(fewer, rest);
      assert moved == rest + {r - 1} && at == fewer + {r};
    }
  }
}
