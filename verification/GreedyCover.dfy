/** The greedy weighted cover that picks the fixtures to type-check (`cover`), scores compared as
    exact fractions. */
module GreedyCover {
  import opened Wrappers
  import opened FiniteSets
  import opened JsStrings
  import FieldSlots

  type Slot = FieldSlots.Slot

  datatype Wire = Wire(path: Text, bytes: nat, positions: set<Slot>)

  /** What a pick costs: `max(bytes, 1)`. */
  function Weight(w: Wire): (n: nat)
    ensures n >= 1
  {
    if w.bytes < 1 then 1 else w.bytes
  }

  function Gain(w: Wire, uncovered: set<Slot>): nat {
    |w.positions * uncovered|
  }

  /** `v` displaces `w`: more gain per byte, then more gain, then the smaller path. The scores
      `gain / weight` are compared by cross-multiplication. */
  predicate Beats(v: Wire, w: Wire, uncovered: set<Slot>) {
    var vScore, wScore := Gain(v, uncovered) * Weight(w), Gain(w, uncovered) * Weight(v);
    || vScore > wScore
    || (vScore == wScore && Gain(v, uncovered) > Gain(w, uncovered))
    || (vScore == wScore && Gain(v, uncovered) == Gain(w, uncovered) && Less(v.path, w.path))
  }

  /** The wire one scan of `wires` settles on. */
  function Best(wires: seq<Wire>, uncovered: set<Slot>): (b: Option<Wire>)
    ensures b.Some? ==> b.value in wires && Gain(b.value, uncovered) > 0
    ensures b.None? ==> forall w <- wires :: Gain(w, uncovered) == 0
  {
    if wires == [] then None
    else
      var prior, w := Best(wires[..|wires| - 1], uncovered), wires[|wires| - 1];
      if Gain(w, uncovered) == 0 then prior
      else if prior.None? || Beats(w, prior.value, uncovered) then Some(w)
      else prior
  }

  /** The wires the loop takes, in the order it takes them. */
  function Picks(wires: seq<Wire>, uncovered: set<Slot>): seq<Wire>
    decreases uncovered
  {
    match Best(wires, uncovered)
    case None => []
    case Some(b) =>
      assert exists s :: s in b.positions * uncovered;
      [b] + Picks(wires, uncovered - b.positions)
  }

  function InsertByPath(w: Wire, sorted: seq<Wire>): seq<Wire> {
    if sorted == [] || !Less(sorted[0].path, w.path) then [w] + sorted
    else [sorted[0]] + InsertByPath(w, sorted[1..])
  }

  function SortByPath(ws: seq<Wire>): seq<Wire> {
    if ws == [] then [] else InsertByPath(ws[0], SortByPath(ws[1..]))
  }

  function CoverOf(wires: seq<Wire>, wanted: set<Slot>): seq<Wire> {
    SortByPath(Picks(wires, wanted))
  }

  /** Counts one wire's still-uncovered slots. */
  method CountGain(positions: set<Slot>, uncovered: set<Slot>) returns (gain: nat)
    ensures gain == |positions * uncovered|
  {
    gain := 0;
    var rest := positions;
    ghost var counted: set<Slot> := {};
    while rest != {}
      invariant positions * uncovered == counted + rest * uncovered && counted !! rest
      invariant gain == |counted|
      decreases rest
    {
      var t :| t in rest;
      rest := rest - {t};
      if t in uncovered {
        gain, counted := gain + 1, counted + {t};
      }
    }
  }

  /** One scan of the corpus, with its running best, score and gain. */
  method Scan(wires: seq<Wire>, uncovered: set<Slot>) returns (best: Option<Wire>)
    ensures best == Best(wires, uncovered)
  {
    best := None;
    var bestGain, bestWeight := 0, 1;
    for i := 0 to |wires|
      invariant best == Best(wires[..i], uncovered)
      invariant best.None? ==> bestGain == 0 && bestWeight == 1
      invariant best.Some? ==> bestGain == Gain(best.value, uncovered) && bestWeight == Weight(best.value)
    {
      var w := wires[i];
      assert wires[..i + 1][..i] == wires[..i];
      var gain := CountGain(w.positions, uncovered);
      if gain == 0 {
        continue;
      }
      var score, bestScore := gain * bestWeight, bestGain * Weight(w);
      if score > bestScore || (score == bestScore && gain > bestGain) ||
         (score == bestScore && gain == bestGain && best.Some? && Less(w.path, best.value.path)) {
        best, bestGain, bestWeight := Some(w), gain, Weight(w);
      }
    }
    assert wires[..|wires|] == wires;
  }

  lemma PicksStep(wires: seq<Wire>, uncovered: set<Slot>)
    ensures match Best(wires, uncovered)
            case None => Picks(wires, uncovered) == []
            case Some(b) =>
              uncovered - b.positions < uncovered &&
              Picks(wires, uncovered) == [b] + Picks(wires, uncovered - b.positions)
    ensures uncovered == {} ==> Picks(wires, uncovered) == []
  {
    var best := Best(wires, uncovered);
    if best.Some? {
      assert exists s :: s in best.value.positions * uncovered;
    }
  }

  method Cover(wires: seq<Wire>, wanted: set<Slot>) returns (chosen: seq<Wire>)
    ensures chosen == CoverOf(wires, wanted)
  {
    hide Picks, SortByPath;
    var uncovered := wanted;
    chosen := [];
    while |uncovered| > 0
      invariant chosen + Picks(wires, uncovered) == Picks(wires, wanted)
      decreases uncovered
    {
      PicksStep(wires, uncovered);
      var best := Scan(wires, uncovered);
      if best.None? {
        break;
      }
      chosen := chosen + [best.value];
      uncovered := uncovered - best.value.positions;
    }
    PicksStep(wires, uncovered);
    assert chosen == Picks(wires, wanted);
    chosen := SortByPath(chosen);
  }

  // ----- the scan finds a greatest candidate -----

  /** What makes one wire a better pick than another for `left`, in slots and bytes: more of the
      slots per byte, a file under one byte counting as one; then more of them; then an earlier
      path. */
  ghost predicate Better(v: Wire, w: Wire, left: set<Slot>) {
    var vSlots, wSlots := |v.positions * left|, |w.positions * left|;
    var vBytes, wBytes := if v.bytes == 0 then 1 else v.bytes, if w.bytes == 0 then 1 else w.bytes;
    || vSlots * wBytes > wSlots * vBytes
    || (vSlots * wBytes == wSlots * vBytes &&
        (vSlots > wSlots || (vSlots == wSlots && Less(v.path, w.path))))
  }

  lemma MulLess(x: nat, y: nat, k: nat)
    requires x < y && k >= 1
    ensures x * k < y * k
  {
  }

  /** `a/wa >= b/wb >= c/wc`, over positive denominators. */
  lemma {:induction false} RatioTransitive(a: nat, wa: nat, b: nat, wb: nat, c: nat, wc: nat)
    requires wa >= 1 && wb >= 1 && wc >= 1
    requires a * wb >= b * wa && b * wc >= c * wb
    ensures a * wc >= c * wa
    ensures a * wc == c * wa ==> a * wb == b * wa && b * wc == c * wb
  {
    assert (a * wc) * wb == (a * wb) * wc && (c * wa) * wb == (c * wb) * wa && (b * wa) * wc == (b * wc) * wa;
    if a * wc < c * wa {
      MulLess(a * wc, c * wa, wb);
    }
    if a * wb > b * wa {
      MulLess(b * wa, a * wb, wc);
    }
    if b * wc > c * wb {
      MulLess(c * wb, b * wc, wa);
    }
  }

  /** Not being displaced is transitive, which is what lets one running best stand for all. */
  lemma {:induction false} UnbeatenTransitive(a: Wire, b: Wire, c: Wire, uncovered: set<Slot>)
    requires !Beats(b, a, uncovered) && !Beats(c, b, uncovered)
    ensures !Beats(c, a, uncovered)
  {
    RatioTransitive(Gain(a, uncovered), Weight(a), Gain(b, uncovered), Weight(b), Gain(c, uncovered), Weight(c));
    LessTrichotomy(a.path, b.path);
    LessTrichotomy(b.path, c.path);
    LessTrichotomy(a.path, c.path);
    if Less(a.path, b.path) && Less(b.path, c.path) {
      LessTransitive(a.path, b.path, c.path);
    }
  }

  /** No wire that holds an uncovered slot is a better pick than the one a scan settles on. */
  lemma BestIsBest(wires: seq<Wire>, left: set<Slot>, w: Wire)
    requires w in wires && w.positions * left != {}
    ensures Best(wires, left).Some? && Best(wires, left).value in wires
    ensures Best(wires, left).value.positions * left != {}
    ensures !Better(w, Best(wires, left).value, left)
  {
    BestUnbeaten(wires, left, w);
    assert Better(w, Best(wires, left).value, left) == Beats(w, Best(wires, left).value, left);
  }

  lemma {:induction false} BestUnbeaten(wires: seq<Wire>, uncovered: set<Slot>, w: Wire)
    requires w in wires && Gain(w, uncovered) > 0
    ensures Best(wires, uncovered).Some?
    ensures !Beats(w, Best(wires, uncovered).value, uncovered)
  {
    var n := |wires| - 1;
    var prior, last, best := Best(wires[..n], uncovered), wires[n], Best(wires, uncovered).value;
    LessTrichotomy(last.path, last.path);
    if w in wires[..n] {
      BestUnbeaten(wires[..n], uncovered, w);
      if best != prior.value {
        BeatsAsymmetric(last, prior.value, uncovered);
        UnbeatenTransitive(last, prior.value, w, uncovered);
      }
    } else {
      assert w == last;
    }
  }

  lemma {:induction false} BeatsAsymmetric(v: Wire, w: Wire, uncovered: set<Slot>)
    requires Beats(v, w, uncovered)
    ensures !Beats(w, v, uncovered)
  {
    LessTrichotomy(v.path, w.path);
  }

  // ----- coverage -----

  function Covered(ws: seq<Wire>): set<Slot> {
    if ws == [] then {} else ws[0].positions + Covered(ws[1..])
  }

  lemma {:induction false} CoveredContains(ws: seq<Wire>, w: Wire)
    requires w in ws
    ensures w.positions <= Covered(ws)
  {
    if w != ws[0] {
      CoveredContains(ws[1..], w);
    }
  }

  lemma {:induction false} CoveredSlotHasAWire(ws: seq<Wire>, s: Slot) returns (w: Wire)
    requires s in Covered(ws)
    ensures w in ws && s in w.positions
  {
    if s in ws[0].positions {
      w := ws[0];
    } else {
      w := CoveredSlotHasAWire(ws[1..], s);
    }
  }

  lemma {:induction false} CoveredAppend(xs: seq<Wire>, ys: seq<Wire>)
    ensures Covered(xs + ys) == Covered(xs) + Covered(ys)
  {
    if xs == [] {
      assert xs + ys == ys;
    } else {
      assert (xs + ys)[1..] == xs[1..] + ys;
      CoveredAppend(xs[1..], ys);
    }
  }

  lemma {:induction false} PicksAreWires(wires: seq<Wire>, uncovered: set<Slot>, w: Wire)
    requires w in Picks(wires, uncovered)
    ensures w in wires
    decreases uncovered
  {
    var b := Best(wires, uncovered).value;
    if w != b {
      assert exists s :: s in b.positions * uncovered;
      PicksAreWires(wires, uncovered - b.positions, w);
    }
  }

  lemma GainPositive(w: Wire, uncovered: set<Slot>, s: Slot)
    requires s in w.positions && s in uncovered
    ensures Gain(w, uncovered) > 0
  {
    assert s in w.positions * uncovered;
  }

  /** The selection holds exactly the wanted slots that any wire holds. */
  lemma {:induction false} PicksCover(wires: seq<Wire>, wanted: set<Slot>)
    ensures Covered(Picks(wires, wanted)) * wanted == Covered(wires) * wanted
    decreases wanted
  {
    var picks := Picks(wires, wanted);
    match Best(wires, wanted) {
      case None =>
        if s :| s in Covered(wires) * wanted {
          var w := CoveredSlotHasAWire(wires, s);
          GainPositive(w, wanted, s);
        }
      case Some(b) =>
        assert exists s :: s in b.positions * wanted;
        var rest := wanted - b.positions;
        PicksCover(wires, rest);
        CoveredContains(wires, b);
        assert picks[1..] == Picks(wires, rest);
        assert Covered(picks) == b.positions + Covered(Picks(wires, rest));
        forall s | s in wanted && s in Covered(wires)
          ensures s in Covered(picks)
        {
          if s !in b.positions {
            assert s in Covered(wires) * rest;
          }
        }
    }
    forall s | s in Covered(picks)
      ensures s in Covered(wires)
    {
      var w := CoveredSlotHasAWire(picks, s);
      PicksAreWires(wires, wanted, w);
      CoveredContains(wires, w);
    }
  }

  /** Every pick brings a wanted slot that no earlier pick held. */
  lemma {:induction false} EveryPickGains(wires: seq<Wire>, wanted: set<Slot>, k: nat)
    requires k < |Picks(wires, wanted)|
    ensures exists s :: s in wanted && s in Picks(wires, wanted)[k].positions &&
                        s !in Covered(Picks(wires, wanted)[..k])
    decreases wanted
  {
    var b, picks := Best(wires, wanted).value, Picks(wires, wanted);
    var s0 :| s0 in b.positions * wanted;
    if k > 0 {
      EveryPickGains(wires, wanted - b.positions, k - 1);
      assert picks[1..] == Picks(wires, wanted - b.positions);
      assert picks[..k][1..] == picks[1..][..k - 1];
    }
  }

  /** Each pick is made of what no earlier pick holds, and no wire of the corpus would have been a
      better one. */
  lemma {:induction false} EveryPickIsBest(wires: seq<Wire>, wanted: set<Slot>, k: nat, w: Wire)
    requires k < |Picks(wires, wanted)| && w in wires
    ensures var picks := Picks(wires, wanted);
            var left := wanted - Covered(picks[..k]);
            picks[k].positions * left != {} && (w.positions * left != {} ==> !Better(w, picks[k], left))
    decreases wanted
  {
    hide Better, Beats, Best, Picks;
    PicksStep(wires, wanted);
    var b, picks := Best(wires, wanted).value, Picks(wires, wanted);
    if k == 0 {
      assert wanted - Covered(picks[..0]) == wanted;
      if w.positions * wanted != {} {
        BestIsBest(wires, wanted, w);
      }
      GainIsShared(b, wanted);
    } else {
      var rest := Picks(wires, wanted - b.positions);
      EveryPickIsBest(wires, wanted - b.positions, k - 1, w);
      assert picks[1..] == rest;
      CoveredCons(b, rest[..k - 1]);
      assert picks[..k] == [b] + rest[..k - 1];
      assert wanted - Covered(picks[..k]) == (wanted - b.positions) - Covered(rest[..k - 1]);
    }
  }

  lemma GainIsShared(w: Wire, left: set<Slot>)
    ensures Gain(w, left) > 0 <==> w.positions * left != {}
  {
  }

  lemma CoveredCons(w: Wire, ws: seq<Wire>)
    ensures Covered([w] + ws) == w.positions + Covered(ws)
  {
    assert ([w] + ws)[1..] == ws;
  }

  // ----- sorting for output -----

  lemma {:induction false} InsertKeepsWires(w: Wire, sorted: seq<Wire>)
    ensures multiset(InsertByPath(w, sorted)) == multiset(sorted) + multiset{w}
  {
    if sorted != [] && Less(sorted[0].path, w.path) {
      InsertKeepsWires(w, sorted[1..]);
      assert sorted == [sorted[0]] + sorted[1..];
    }
  }

  lemma {:induction false} SortKeepsWires(ws: seq<Wire>)
    ensures multiset(SortByPath(ws)) == multiset(ws)
  {
    if ws != [] {
      SortKeepsWires(ws[1..]);
      InsertKeepsWires(ws[0], SortByPath(ws[1..]));
      assert ws == [ws[0]] + ws[1..];
    }
  }

  ghost predicate SortedByPath(ws: seq<Wire>) {
    forall i, j :: 0 <= i < j < |ws| ==> !Less(ws[j].path, ws[i].path)
  }

  lemma {:induction false} InsertSorts(w: Wire, sorted: seq<Wire>)
    requires SortedByPath(sorted)
    ensures SortedByPath(InsertByPath(w, sorted))
  {
    if sorted != [] {
      forall j | 0 <= j < |sorted|
        ensures !Less(sorted[0].path, w.path) ==> !Less(sorted[j].path, w.path)
      {
        LessTrichotomy(sorted[0].path, w.path);
        LessTrichotomy(sorted[j].path, w.path);
        LessTrichotomy(sorted[0].path, sorted[j].path);
        if !Less(sorted[0].path, w.path) && Less(sorted[j].path, w.path) {
          if sorted[0].path != w.path {
            LessTransitive(sorted[j].path, w.path, sorted[0].path);
          }
        }
      }
      if Less(sorted[0].path, w.path) {
        var rest := InsertByPath(w, sorted[1..]);
        InsertSorts(w, sorted[1..]);
        InsertKeepsWires(w, sorted[1..]);
        LessTrichotomy(sorted[0].path, w.path);
        forall j | 0 <= j < |rest|
          ensures !Less(rest[j].path, sorted[0].path)
        {
          assert rest[j] in multiset(rest);
          assert rest[j] == w || rest[j] in sorted[1..];
        }
      }
    }
  }

  lemma {:induction false} SortSorts(ws: seq<Wire>)
    ensures SortedByPath(SortByPath(ws))
  {
    if ws != [] {
      SortSorts(ws[1..]);
      InsertSorts(ws[0], SortByPath(ws[1..]));
    }
  }

  lemma {:induction false} CoveredOfSameWires(xs: seq<Wire>, ys: seq<Wire>)
    requires multiset(xs) == multiset(ys)
    ensures Covered(xs) == Covered(ys)
  {
    forall s | s in Covered(xs)
      ensures s in Covered(ys)
    {
      var w := CoveredSlotHasAWire(xs, s);
      assert w in multiset(ys);
      CoveredContains(ys, w);
    }
    forall s | s in Covered(ys)
      ensures s in Covered(xs)
    {
      var w := CoveredSlotHasAWire(ys, s);
      assert w in multiset(xs);
      CoveredContains(xs, w);
    }
  }

  lemma {:induction false} CoveredOfSomeWires(some: seq<Wire>, wires: seq<Wire>)
    requires forall w <- some :: w in wires
    ensures Covered(some) <= Covered(wires)
  {
    forall s | s in Covered(some)
      ensures s in Covered(wires)
    {
      var w := CoveredSlotHasAWire(some, s);
      CoveredContains(wires, w);
    }
  }

  lemma {:induction false} ChosenAreWires(wires: seq<Wire>, wanted: set<Slot>, w: Wire)
    requires w in CoverOf(wires, wanted)
    ensures w in wires
  {
    var picks := Picks(wires, wanted);
    SortKeepsWires(picks);
    assert w in multiset(SortByPath(picks));
    PicksAreWires(wires, wanted, w);
  }

  /** What the run returns: wires of the corpus, sorted by path, holding every wanted slot that
      any wire of the corpus holds and, when the corpus union is wanted, nothing else. */
  lemma {:induction false} CoverCorrect(wires: seq<Wire>, wanted: set<Slot>)
    ensures forall w <- CoverOf(wires, wanted) :: w in wires
    ensures SortedByPath(CoverOf(wires, wanted))
    ensures Covered(CoverOf(wires, wanted)) * wanted == Covered(wires) * wanted
    ensures wanted == Covered(wires) ==> Covered(CoverOf(wires, wanted)) == wanted
  {
    var picks := Picks(wires, wanted);
    SortSorts(picks);
    SortKeepsWires(picks);
    CoveredOfSameWires(picks, CoverOf(wires, wanted));
    PicksCover(wires, wanted);
    forall w <- CoverOf(wires, wanted)
      ensures w in wires
    {
      ChosenAreWires(wires, wanted, w);
    }
    CoveredOfSomeWires(CoverOf(wires, wanted), wires);
    if wanted == Covered(wires) {
      var covered := Covered(CoverOf(wires, wanted));
      assert covered == covered * wanted && wanted == Covered(wires) * wanted;
    }
  }

  // ----- independence from the corpus order -----

  ghost predicate DistinctPaths(wires: seq<Wire>) {
    forall i, j :: 0 <= i < j < |wires| ==> wires[i].path != wires[j].path
  }

  lemma {:induction false} BestOrderIndependent(xs: seq<Wire>, ys: seq<Wire>, uncovered: set<Slot>)
    requires multiset(xs) == multiset(ys) && DistinctPaths(xs)
    ensures Best(xs, uncovered) == Best(ys, uncovered)
  {
    var x, y := Best(xs, uncovered), Best(ys, uncovered);
    if x.Some? {
      assert x.value in multiset(ys);
      BestUnbeaten(ys, uncovered, x.value);
    }
    if y.Some? {
      assert y.value in multiset(xs);
      BestUnbeaten(xs, uncovered, y.value);
    }
    if x.Some? && y.Some? {
      LessTrichotomy(x.value.path, y.value.path);
      var i :| 0 <= i < |xs| && xs[i] == x.value;
      var j :| 0 <= j < |xs| && xs[j] == y.value;
    }
  }

  lemma {:induction false} PicksOrderIndependent(xs: seq<Wire>, ys: seq<Wire>, uncovered: set<Slot>)
    requires multiset(xs) == multiset(ys) && DistinctPaths(xs)
    ensures Picks(xs, uncovered) == Picks(ys, uncovered)
    decreases uncovered
  {
    BestOrderIndependent(xs, ys, uncovered);
    var best := Best(xs, uncovered);
    if best.Some? {
      assert exists s :: s in best.value.positions * uncovered;
      PicksOrderIndependent(xs, ys, uncovered - best.value.positions);
    }
  }

  /** With distinct paths, the order the corpus was walked in changes nothing. */
  lemma CoverOrderIndependent(xs: seq<Wire>, ys: seq<Wire>, wanted: set<Slot>)
    requires multiset(xs) == multiset(ys) && DistinctPaths(xs)
    ensures CoverOf(xs, wanted) == CoverOf(ys, wanted)
  {
    PicksOrderIndependent(xs, ys, wanted);
  }

  lemma FirstOfEqualsWins(x: Wire, y: Wire, uncovered: set<Slot>)
    requires x.path == y.path && x.bytes == y.bytes
    requires Gain(x, uncovered) == Gain(y, uncovered) > 0
    ensures Best([x, y], uncovered) == Some(x)
  {
    LessTrichotomy(x.path, y.path);
    assert [x, y][..1] == [x] && [x][..0] == [];
    assert Best([x][..0], uncovered) == None;
    assert Best([x], uncovered) == Some(x);
  }

  /** Two different fixtures sharing a path, a size and a gain: the tie-break cannot separate
      them, and the walk order decides. */
  lemma SharedPathOrderMatters(a: Wire, b: Wire, wanted: set<Slot>)
    requires a != b && a.path == b.path && a.bytes == b.bytes
    requires Gain(a, wanted) == Gain(b, wanted) > 0
    ensures multiset([a, b]) == multiset([b, a])
    ensures Picks([a, b], wanted) != Picks([b, a], wanted)
  {
    FirstOfEqualsWins(a, b, wanted);
    FirstOfEqualsWins(b, a, wanted);
    assert Picks([a, b], wanted)[0] == a && Picks([b, a], wanted)[0] == b;
  }

  // ----- how much the greedy choice can cost -----

  function Cost(ws: seq<Wire>): nat {
    if ws == [] then 0 else Weight(ws[0]) + Cost(ws[1..])
  }

  /** `1 + 1/2 + ... + 1/n` */
  function Harmonic(n: nat): real {
    if n == 0 then 0.0 else Harmonic(n - 1) + 1.0 / n as real
  }

  /** `rate` per unit of cost. */
  function Scaled(rate: real, cost: nat): real {
    rate * cost as real
  }

  /** Each wire of a rival family, charged for the slots it still holds. */
  function Charge(family: seq<Wire>, uncovered: set<Slot>): real {
    if family == [] then 0.0
    else Scaled(Harmonic(Gain(family[0], uncovered)), Weight(family[0])) + Charge(family[1..], uncovered)
  }

  lemma {:induction false} HarmonicGap(low: nat, high: nat)
    requires 1 <= high && low <= high
    ensures (Harmonic(high) - Harmonic(low)) * high as real >= (high - low) as real
    decreases high - low
  {
    if low < high {
      HarmonicGap(low + 1, high);
      var term, h := 1.0 / (low + 1) as real, high as real;
      assert Harmonic(low + 1) == Harmonic(low) + term;
      assert term * (low + 1) as real == 1.0;
      assert term * h >= term * (low + 1) as real;
      assert (Harmonic(high) - Harmonic(low)) * h == (Harmonic(high) - Harmonic(low + 1)) * h + term * h;
    }
  }

  lemma {:induction false} HarmonicMonotone(low: nat, high: nat)
    requires low <= high
    ensures 0.0 <= Harmonic(low) <= Harmonic(high)
    decreases high
  {
    if low < high {
      HarmonicMonotone(low, high - 1);
    } else if high > 0 {
      HarmonicMonotone(low - 1, high - 1);
    }
  }

  lemma ScaleLeft(k: real, x: real, y: real)
    requires k >= 0.0 && x >= y
    ensures k * x >= k * y
  {
  }

  /** `drop` covers `shared` slots at the price `weight / gain` each. */
  ghost predicate Pays(drop: real, gain: nat, shared: nat, weight: nat) {
    drop * gain as real >= shared as real * weight as real
  }

  lemma PaysTogether(dropF: real, dropRest: real, gain: nat, x: nat, y: nat, z: nat, weight: nat)
    requires Pays(dropF, gain, x, weight) && Pays(dropRest, gain, y, weight) && x + y >= z
    ensures Pays(dropF + dropRest, gain, z, weight)
  {
    var g, w := gain as real, weight as real;
    assert (dropF + dropRest) * g == dropF * g + dropRest * g;
    assert (x + y) as real * w == x as real * w + y as real * w;
    ScaleLeft(w, (x + y) as real, z as real);
  }

  /** What one rival's charge loses to a pick that takes `taken`. */
  ghost function Drop(f: Wire, uncovered: set<Slot>, rest: set<Slot>): real {
    Scaled(Harmonic(Gain(f, uncovered)) - Harmonic(Gain(f, rest)), Weight(f))
  }

  lemma {:induction false} GainSplits(f: Wire, b: Wire, uncovered: set<Slot>)
    ensures Gain(f, uncovered) ==
            Gain(f, uncovered - b.positions) + |f.positions * (uncovered * b.positions)|
  {
    assert f.positions * uncovered ==
           f.positions * (uncovered - b.positions) + f.positions * (uncovered * b.positions);
  }

  /** What one pick removes from one rival's charge pays for the slots the two share, at the
      pick's price per slot. */
  lemma {:induction false} ChargeDrop(f: Wire, b: Wire, uncovered: set<Slot>)
    requires Gain(b, uncovered) > 0
    requires Gain(f, uncovered) > 0 ==> !Beats(f, b, uncovered)
    ensures Pays(Drop(f, uncovered, uncovered - b.positions), Gain(b, uncovered),
                 |f.positions * (uncovered * b.positions)|, Weight(b))
  {
    GainSplits(f, b, uncovered);
    if Gain(f, uncovered) > 0 {
      NoBetterScore(f, b, uncovered);
      GapPays(Gain(f, uncovered), Gain(f, uncovered - b.positions), Weight(f), Gain(b, uncovered), Weight(b));
    }
  }

  lemma NoBetterScore(f: Wire, b: Wire, uncovered: set<Slot>)
    requires !Beats(f, b, uncovered)
    ensures Gain(f, uncovered) * Weight(b) <= Gain(b, uncovered) * Weight(f)
  {
  }

  lemma GapPays(a: nat, rest: nat, wf: nat, gain: nat, wb: nat)
    requires 1 <= a && rest <= a && a * wb <= gain * wf
    ensures Pays(Scaled(Harmonic(a) - Harmonic(rest), wf), gain, a - rest, wb)
  {
    hide Pays, Harmonic, Scaled;
    HarmonicGap(rest, a);
    HarmonicMonotone(rest, a);
    PaysItsShare(Harmonic(a) - Harmonic(rest), a, a - rest, wf, gain, wb);
  }

  /** `drop` per byte of a rival no better than the pick pays for its share of the pick. */
  lemma PaysItsShare(drop: real, a: nat, shared: nat, wf: nat, gain: nat, wb: nat)
    requires drop >= 0.0 && drop * a as real >= shared as real && a * wb <= gain * wf
    ensures Pays(Scaled(drop, wf), gain, shared, wb)
  {
    var x, y := (gain * wf) as real, (a * wb) as real;
    assert x == gain as real * wf as real && y == a as real * wb as real;
    ScaleLeft(drop, x, y);
    ScaleLeft(wb as real, drop * a as real, shared as real);
    Regroup(drop, wf as real, gain as real);
    Regroup(drop, a as real, wb as real);
  }

  lemma Regroup(x: real, y: real, z: real)
    ensures x * (y * z) == (x * y) * z == z * (x * y) == x * (z * y)
  {
  }

  lemma {:induction false} ChargeDrops(family: seq<Wire>, b: Wire, uncovered: set<Slot>)
    requires Gain(b, uncovered) > 0
    requires forall f <- family :: Gain(f, uncovered) > 0 ==> !Beats(f, b, uncovered)
    ensures Pays(Charge(family, uncovered) - Charge(family, uncovered - b.positions), Gain(b, uncovered),
                 |Covered(family) * (uncovered * b.positions)|, Weight(b))
  {
    hide Charge, Drop, Pays, Harmonic, Scaled, Weight, Gain, Beats, Covered;
    var taken, left := uncovered * b.positions, uncovered - b.positions;
    if family != [] {
      var f, rest := family[0], family[1..];
      ChargeDrop(f, b, uncovered);
      ChargeDrops(rest, b, uncovered);
      CoveredShare(family, taken);
      ChargeCons(family, uncovered, left);
      PaysTogether(Drop(f, uncovered, left), Charge(rest, uncovered) - Charge(rest, left), Gain(b, uncovered),
                   |f.positions * taken|, |Covered(rest) * taken|, |Covered(family) * taken|, Weight(b));
    } else {
      NothingCharged(b, uncovered);
    }
  }

  lemma NothingCharged(b: Wire, uncovered: set<Slot>)
    ensures Pays(Charge([], uncovered) - Charge([], uncovered - b.positions), Gain(b, uncovered),
                 |Covered([]) * (uncovered * b.positions)|, Weight(b))
  {
    assert Covered([]) * (uncovered * b.positions) == {};
  }

  lemma CoveredShare(family: seq<Wire>, taken: set<Slot>)
    requires family != []
    ensures |Covered(family) * taken| <= |family[0].positions * taken| + |Covered(family[1..]) * taken|
  {
    var x, y := family[0].positions * taken, Covered(family[1..]) * taken;
    assert Covered(family) * taken == x + y;
    UnionSize(x, y);
  }

  lemma ChargeCons(family: seq<Wire>, uncovered: set<Slot>, left: set<Slot>)
    requires family != []
    ensures Charge(family, uncovered) - Charge(family, left) ==
            Drop(family[0], uncovered, left) + (Charge(family[1..], uncovered) - Charge(family[1..], left))
  {
    hide Scaled;
    ScaledDifference(Harmonic(Gain(family[0], uncovered)), Harmonic(Gain(family[0], left)), Weight(family[0]));
  }

  lemma ScaledDifference(x: real, y: real, cost: nat)
    ensures Scaled(x - y, cost) == Scaled(x, cost) - Scaled(y, cost)
  {
  }

  lemma {:induction false} UnionSize<T>(a: set<T>, b: set<T>)
    ensures |a + b| <= |a| + |b|
  {
    assert a + b == a + (b - a);
    assert b == (b - a) + a * b;
    assert (b - a) !! (a * b);
  }

  /** Chvatal's bound: the selection costs at most what any family of wires holding everything
      wanted pays when each of its wires is charged `H(its wanted slots)` times its own cost. */
  lemma {:induction false} GreedyCharged(wires: seq<Wire>, family: seq<Wire>, wanted: set<Slot>)
    requires forall f <- family :: f in wires
    requires wanted <= Covered(family)
    ensures Cost(Picks(wires, wanted)) as real <= Charge(family, wanted)
    decreases wanted
  {
    match Best(wires, wanted) {
      case None => ChargeNonNegative(family, wanted);
      case Some(b) =>
        assert exists s :: s in b.positions * wanted;
        GreedyCharged(wires, family, wanted - b.positions);
        PickPaid(wires, family, wanted);
        assert Picks(wires, wanted)[1..] == Picks(wires, wanted - b.positions);
    }
  }

  lemma {:induction false} PickPaid(wires: seq<Wire>, family: seq<Wire>, wanted: set<Slot>)
    requires forall f <- family :: f in wires
    requires wanted <= Covered(family)
    requires Best(wires, wanted).Some?
    ensures var b := Best(wires, wanted).value;
            Weight(b) as real <= Charge(family, wanted) - Charge(family, wanted - b.positions)
  {
    var b := Best(wires, wanted).value;
    forall f | f in family && Gain(f, wanted) > 0
      ensures !Beats(f, b, wanted)
    {
      BestUnbeaten(wires, wanted, f);
    }
    ChargeDrops(family, b, wanted);
    assert Covered(family) * (wanted * b.positions) == b.positions * wanted;
    PaidInFull(Charge(family, wanted) - Charge(family, wanted - b.positions), Gain(b, wanted), Weight(b));
  }

  lemma PaidInFull(drop: real, gain: nat, weight: nat)
    requires gain > 0 && Pays(drop, gain, gain, weight)
    ensures drop >= weight as real
  {
    var g, w := gain as real, weight as real;
    if drop < w {
      MulLessReal(drop, w, g);
    }
  }

  lemma MulLessReal(x: real, y: real, g: real)
    requires g > 0.0 && x < y
    ensures x * g < g * y
  {
  }

  lemma {:induction false} ChargeNonNegative(family: seq<Wire>, uncovered: set<Slot>)
    ensures Charge(family, uncovered) >= 0.0
  {
    if family != [] {
      ChargeNonNegative(family[1..], uncovered);
      HarmonicMonotone(0, Gain(family[0], uncovered));
    }
  }

  lemma {:induction false} ChargeAtMostHarmonic(family: seq<Wire>, wanted: set<Slot>)
    ensures Charge(family, wanted) <= Scaled(Harmonic(|wanted|), Cost(family))
  {
    hide Scaled, Harmonic;
    if family != [] {
      var f := family[0];
      ChargeAtMostHarmonic(family[1..], wanted);
      SubsetSize(f.positions * wanted, wanted);
      HarmonicMonotone(Gain(f, wanted), |wanted|);
      ScaledSum(Harmonic(Gain(f, wanted)), Harmonic(|wanted|), Weight(f), Cost(family[1..]));
    } else {
      ScaledNothing(Harmonic(|wanted|));
    }
  }

  lemma ScaledNothing(rate: real)
    ensures Scaled(rate, 0) == 0.0
  {
  }

  lemma ScaledSum(low: real, high: real, weight: nat, cost: nat)
    requires low <= high
    ensures Scaled(low, weight) + Scaled(high, cost) <= Scaled(high, weight + cost)
  {
    ScaleLeft(weight as real, high, low);
    assert (weight + cost) as real == weight as real + cost as real;
  }

  lemma {:induction false} InsertAddsCost(w: Wire, sorted: seq<Wire>)
    ensures Cost(InsertByPath(w, sorted)) == Weight(w) + Cost(sorted)
  {
    if sorted != [] && Less(sorted[0].path, w.path) {
      InsertAddsCost(w, sorted[1..]);
    }
  }

  lemma {:induction false} SortKeepsCost(ws: seq<Wire>)
    ensures Cost(SortByPath(ws)) == Cost(ws)
  {
    if ws != [] {
      SortKeepsCost(ws[1..]);
      InsertAddsCost(ws[0], SortByPath(ws[1..]));
    }
  }

  /** The generated file is within a logarithmic factor of the smallest one: no family of corpus
      wires holding everything wanted is more than `H(|wanted|)` times cheaper. */
  lemma GreedyBound(wires: seq<Wire>, family: seq<Wire>, wanted: set<Slot>)
    requires forall f <- family :: f in wires
    requires wanted <= Covered(family)
    ensures Cost(CoverOf(wires, wanted)) as real <= Charge(family, wanted)
    ensures Charge(family, wanted) <= Harmonic(|wanted|) * Cost(family) as real
  {
    hide Charge, Harmonic, Picks, SortByPath, Cost, Covered;
    GreedyCharged(wires, family, wanted);
    ChargeAtMostHarmonic(family, wanted);
    SortKeepsCost(Picks(wires, wanted));
  }

  /** What a selection adds to the generated file, a fixture counting for at least one byte. */
  function Bytes(ws: seq<Wire>): nat {
    if ws == [] then 0 else Bytes(ws[1..]) + if ws[0].bytes < 1 then 1 else ws[0].bytes
  }

  lemma {:induction false} CostIsBytes(ws: seq<Wire>)
    ensures Cost(ws) == Bytes(ws)
  {
    if ws != [] {
      CostIsBytes(ws[1..]);
    }
  }

  /** The bound in bytes. */
  lemma GreedyBytes(wires: seq<Wire>, family: seq<Wire>, wanted: set<Slot>)
    requires forall f <- family :: f in wires
    requires wanted <= Covered(family)
    ensures Bytes(CoverOf(wires, wanted)) as real <= Harmonic(|wanted|) * Bytes(family) as real
  {
    hide Charge, Harmonic, CoverOf, Cost, Covered, Bytes;
    GreedyBound(wires, family, wanted);
    CostIsBytes(CoverOf(wires, wanted));
    CostIsBytes(family);
  }

  function Power2(k: nat): nat {
    if k == 0 then 1 else 2 * Power2(k - 1)
  }

  /** Adding at most as many terms again adds at most one. */
  lemma {:induction false} HarmonicDoubles(n: nat, more: nat)
    requires 1 <= n && more <= n
    ensures Harmonic(n + more) <= Harmonic(n) + more as real / n as real
  {
    if more > 0 {
      HarmonicDoubles(n, more - 1);
      var x, y := n as real, (n + more) as real;
      ReciprocalShrinks(x, y);
      assert more as real / x == (more - 1) as real / x + 1.0 / x;
    }
  }

  lemma ReciprocalShrinks(x: real, y: real)
    requires 0.0 < x <= y
    ensures 1.0 / y <= 1.0 / x
  {
    var p, q := 1.0 / x, 1.0 / y;
    assert p * x == 1.0 && q * y == 1.0;
    if q > p {
      MulLessReal(p, q, x);
      ScaleLeft(q, y, x);
    }
  }

  lemma {:induction false} HarmonicLogarithmic(k: nat)
    ensures Power2(k) >= 1 && Harmonic(Power2(k)) <= k as real + 1.0
  {
    if k > 0 {
      HarmonicLogarithmic(k - 1);
      HarmonicDoubles(Power2(k - 1), Power2(k - 1));
    }
  }

  /** The factor grows with the logarithm: with at most `2^k` slots wanted, the selection is at
      most `k + 1` times the size of any other. */
  lemma GreedyLogarithmic(wires: seq<Wire>, family: seq<Wire>, wanted: set<Slot>, k: nat)
    requires forall f <- family :: f in wires
    requires wanted <= Covered(family) && |wanted| <= Power2(k)
    ensures Bytes(CoverOf(wires, wanted)) <= (k + 1) * Bytes(family)
  {
    hide Harmonic, Bytes, CoverOf, Covered;
    GreedyBytes(wires, family, wanted);
    HarmonicLogarithmic(k);
    HarmonicMonotone(|wanted|, Power2(k));
    ScaleLeft(Bytes(family) as real, (k + 1) as real, Harmonic(|wanted|));
    assert ((k + 1) * Bytes(family)) as real == (k + 1) as real * Bytes(family) as real;
  }

  // ----- from wire trees to the generated file -----

  /** The wire of a fixture document. */
  function WireOf(path: Text, bytes: nat, json: FieldSlots.Json, hidden: set<string>): Wire {
    Wire(path, bytes, FieldSlots.Slots(json, hidden))
  }

  /** From documents to the generated file: a slot that some document of the corpus holds, neither
      of its names opaque, is held by the document of some selected fixture too. */
  lemma SelectionHoldsEverySlot(
      paths: seq<Text>, sizes: seq<nat>, docs: seq<FieldSlots.Json>, hidden: set<string>, d: nat, s: Slot)
    returns (k: nat)
    requires |paths| == |sizes| == |docs| && d < |docs|
    requires FieldSlots.Gradable(docs[d], hidden, s)
    ensures k < |docs| && FieldSlots.Gradable(docs[k], hidden, s)
    ensures var wires := seq(|docs|, i requires 0 <= i < |docs| => WireOf(paths[i], sizes[i], docs[i], hidden));
            wires[k] in CoverOf(wires, Covered(wires))
  {
    var wires := seq(|docs|, i requires 0 <= i < |docs| => WireOf(paths[i], sizes[i], docs[i], hidden));
    FieldSlots.SlotsExact(docs[d], hidden, s);
    CoveredContains(wires, wires[d]);
    CoverCorrect(wires, Covered(wires));
    var w := CoveredSlotHasAWire(CoverOf(wires, Covered(wires)), s);
    k :| 0 <= k < |wires| && wires[k] == w;
    FieldSlots.SlotsExact(docs[k], hidden, s);
  }
}
