/** One row's verdict from its per-round samples, over exact reals. */
module PerfVerdict {
  import opened Wrappers
  import opened FiniteSets
  import opened Statistics

  const WALL_REGRESSION_PCT := 1.5
  const INSTRUCTIONS_LAYOUT_PCT := 0.5
  const INSTRUCTIONS_REGRESSION_PCT := 1.5
  const SIGN_OFF_EXCESS_PCT := 1.5

  datatype Lang = Ts | Svelte | Css | Strip

  datatype Phase = ParsePhase | FormatPhase | StripPhase

  datatype Verdict = Pass | Layout | Warn | Fail

  function PctDelta(base: real, cand: real): real
    requires base != 0.0
  {
    (cand - base) / base * 100.0
  }

  /** `None` stands for no instruction counts. */
  function RowVerdict(wall: real, instructions: Option<real>): Verdict {
    if instructions.Some? && instructions.value > INSTRUCTIONS_REGRESSION_PCT then Fail
    else if wall > WALL_REGRESSION_PCT then
      if instructions.Some? && Abs(instructions.value) < INSTRUCTIONS_LAYOUT_PCT then Layout else Fail
    else if instructions.Some? && instructions.value >= INSTRUCTIONS_LAYOUT_PCT then Warn
    else Pass
  }

  predicate NeedsSignOff(verdict: Verdict, wall: real, instructions: Option<real>) {
    && verdict.Fail?
    && wall > WALL_REGRESSION_PCT
    && instructions.Some?
    && INSTRUCTIONS_LAYOUT_PCT <= instructions.value <= INSTRUCTIONS_REGRESSION_PCT
    && wall - instructions.value <= SIGN_OFF_EXCESS_PCT
  }

  datatype RowSamples = RowSamples(wallUs: seq<real>, instructions: seq<real>)

  datatype Row = Row(
    lang: Lang,
    phase: Phase,
    rounds: nat,
    baseWallUs: real,
    candWallUs: real,
    wallPct: real,
    wallPctSpread: real,
    instructionsPct: Option<real>,
    verdict: Verdict,
    signOff: bool
  )

  datatype RowError = RoundsDiffer | BadWallSample | BadInstructionSample

  predicate Positive(values: seq<real>) {
    forall i :: 0 <= i < |values| ==> values[i] > 0.0
  }

  /** The paired per-round deltas. */
  function Deltas(base: seq<real>, cand: seq<real>): seq<real>
    requires |base| == |cand| && Positive(base)
  {
    seq(|base|, r requires 0 <= r < |base| => PctDelta(base[r], cand[r]))
  }

  function InstructionsPct(base: seq<real>, cand: seq<real>): Option<real>
    requires Positive(base) && Positive(cand)
  {
    if base == [] || cand == [] then None
    else
      MedianPositive(base);
      Some(PctDelta(Median(base), Median(cand)))
  }

  lemma MedianPositive(values: seq<real>)
    requires values != [] && Positive(values)
    ensures Median(values) > 0.0
  {
    SortKeepsPositive(values);
  }

  lemma {:induction false} InsertKeepsPositive(x: real, sorted: seq<real>)
    requires x > 0.0 && Positive(sorted)
    ensures Positive(Insert(x, sorted))
  {
    if sorted != [] && x > sorted[0] {
      InsertKeepsPositive(x, sorted[1..]);
    }
  }

  lemma {:induction false} SortKeepsPositive(values: seq<real>)
    requires Positive(values)
    ensures Positive(Sort(values))
  {
    if values != [] {
      SortKeepsPositive(values[1..]);
      InsertKeepsPositive(values[0], Sort(values[1..]));
    }
  }

  predicate Gradable(base: RowSamples, cand: RowSamples) {
    && base.wallUs != [] && |base.wallUs| == |cand.wallUs|
    && Positive(base.wallUs) && Positive(cand.wallUs)
    && Positive(base.instructions) && Positive(cand.instructions)
  }

  function GradedRow(lang: Lang, phase: Phase, base: RowSamples, cand: RowSamples): Row
    requires Gradable(base, cand)
  {
    var deltas := Deltas(base.wallUs, cand.wallUs);
    var wall, instructions := Median(deltas), InstructionsPct(base.instructions, cand.instructions);
    var verdict := RowVerdict(wall, instructions);
    Row(lang, phase, |base.wallUs|, Median(base.wallUs), Median(cand.wallUs), wall, Mad(deltas), instructions,
        verdict, NeedsSignOff(verdict, wall, instructions))
  }

  /** `ab_row`: the checks in their order, then the row. */
  function RowOf(lang: Lang, phase: Phase, base: RowSamples, cand: RowSamples): Result<Row, RowError> {
    if base.wallUs == [] || |cand.wallUs| != |base.wallUs| then Err(RoundsDiffer)
    else if !Positive(base.wallUs) || !Positive(cand.wallUs) then Err(BadWallSample)
    else if !Positive(base.instructions) || !Positive(cand.instructions) then Err(BadInstructionSample)
    else Ok(GradedRow(lang, phase, base, cand))
  }

  method AllPositive(values: seq<real>) returns (ok: bool)
    ensures ok <==> Positive(values)
  {
    for i := 0 to |values|
      invariant forall j :: 0 <= j < i ==> values[j] > 0.0
    {
      if !(values[i] > 0.0) {
        return false;
      }
    }
    return true;
  }

  method AbRow(lang: Lang, phase: Phase, base: RowSamples, cand: RowSamples) returns (row: Result<Row, RowError>)
    ensures row == RowOf(lang, phase, base, cand)
    ensures row.Ok? <==>
            && 0 < |base.wallUs| == |cand.wallUs|
            && (forall r :: 0 <= r < |base.wallUs| ==> base.wallUs[r] > 0.0 && cand.wallUs[r] > 0.0)
            && (forall r :: 0 <= r < |base.instructions| ==> base.instructions[r] > 0.0)
            && (forall r :: 0 <= r < |cand.instructions| ==> cand.instructions[r] > 0.0)
    ensures row.Ok? ==>
            && row.value.lang == lang && row.value.phase == phase && row.value.rounds == |base.wallUs|
            && row.value.baseWallUs == Median(base.wallUs) && row.value.candWallUs == Median(cand.wallUs)
    ensures row.Err? ==>
            && (row.error == RoundsDiffer <==> base.wallUs == [] || |base.wallUs| != |cand.wallUs|)
            && (row.error == BadInstructionSample ==>
                  forall r :: 0 <= r < |base.wallUs| ==> base.wallUs[r] > 0.0 && cand.wallUs[r] > 0.0)
            && (row.error == BadWallSample ==>
                  exists r :: 0 <= r < |base.wallUs| && (base.wallUs[r] <= 0.0 || cand.wallUs[r] <= 0.0))
  {
    if base.wallUs == [] || |cand.wallUs| != |base.wallUs| {
      return Err(RoundsDiffer);
    }
    var baseOk := AllPositive(base.wallUs);
    var candOk := AllPositive(cand.wallUs);
    if !baseOk || !candOk {
      return Err(BadWallSample);
    }
    baseOk := AllPositive(base.instructions);
    candOk := AllPositive(cand.instructions);
    if !baseOk || !candOk {
      return Err(BadInstructionSample);
    }
    return Ok(GradedRow(lang, phase, base, cand));
  }

  // ----- what the verdict decides on -----

  /** The published rule: instructions over their gate fail whatever the wall says; a wall over its
      threshold fails unless instructions are flat, when it reads as layout; risen instructions
      under a passing wall warn, up to the gate; without counts the wall alone decides. */
  lemma PublishedRule(wall: real, instructions: Option<real>)
    ensures var verdict, over := RowVerdict(wall, instructions), wall > 1.5;
            var added := instructions.Some? && instructions.value > 1.5;
            var flat := instructions.Some? && -0.5 < instructions.value < 0.5;
            && (verdict.Fail? <==> added || (over && !flat))
            && (verdict.Layout? <==> over && flat)
            && (verdict.Warn? <==> !over && !added && instructions.Some? && instructions.value >= 0.5)
            && (instructions.None? ==> verdict == if over then Fail else Pass)
  {
  }

  predicate Passes(wall: real, instructions: Option<real>) {
    !RowVerdict(wall, instructions).Fail?
  }

  /** Crossing the wall threshold would change the verdict, as `row_is_ambiguous` puts it. */
  predicate Flips(instructions: Option<real>) {
    || instructions.None?
    || (Abs(instructions.value) >= INSTRUCTIONS_LAYOUT_PCT && instructions.value <= INSTRUCTIONS_REGRESSION_PCT)
  }

  /** `Flips` is exactly that: every wall on one side of the threshold gets the opposite answer to
      every wall on the other; where it does not hold, no wall changes the answer. */
  lemma FlipsExactly(instructions: Option<real>)
    ensures Flips(instructions) <==>
            forall low: real, high: real :: low <= WALL_REGRESSION_PCT < high ==>
                Passes(low, instructions) != Passes(high, instructions)
    ensures !Flips(instructions) ==>
            forall low: real, high: real :: Passes(low, instructions) == Passes(high, instructions)
  {
    assert Passes(1.5, instructions) != Passes(2.0, instructions) || !Flips(instructions);
  }

  /** A sign-off row is a failure whose wall exceeds the line by at most the two margins together,
      and re-measuring the wall alone can never take it past a warning. */
  lemma SignOffContract(wall: real, instructions: Option<real>, rerun: real)
    requires NeedsSignOff(RowVerdict(wall, instructions), wall, instructions)
    ensures WALL_REGRESSION_PCT < wall <= INSTRUCTIONS_REGRESSION_PCT + SIGN_OFF_EXCESS_PCT
    ensures Flips(instructions)
    ensures RowVerdict(rerun, instructions) == (if rerun > WALL_REGRESSION_PCT then Fail else Warn)
  {
  }

  // ----- from samples to verdicts -----

  /** The counts of both sides were taken. */
  predicate Counted(base: RowSamples, cand: RowSamples) {
    base.instructions != [] && cand.instructions != []
  }

  /** `cand` is more than `pct` percent slower, or no more, or within a range of percents. */
  lemma DeltaMeans(base: real, cand: real, pct: real)
    requires base > 0.0
    ensures PctDelta(base, cand) > pct <==> cand * 100.0 > base * (100.0 + pct)
    ensures PctDelta(base, cand) < pct <==> cand * 100.0 < base * (100.0 + pct)
  {
    var q := (cand - base) / base;
    assert q * base == cand - base;
    assert base * (100.0 + pct) == base * 100.0 + base * pct;
    assert (q * 100.0) * base == (cand - base) * 100.0;
    Compare(q * 100.0, pct, base);
    Compare(pct, q * 100.0, base);
  }

  lemma Compare(x: real, y: real, k: real)
    requires k > 0.0
    ensures x < y <==> x * k < y * k
  {
    if x < y {
      PositiveProduct(y - x, k);
    } else if y < x {
      PositiveProduct(x - y, k);
    }
  }

  /** The paired delta lies in a range of percents when a strict majority of the rounds do. */
  lemma DeltaFromSamples(lang: Lang, phase: Phase, base: RowSamples, cand: RowSamples, at: set<nat>, low: real, high: real)
    requires RowOf(lang, phase, base, cand).Ok?
    requires 2 * |at| > |base.wallUs|
    requires forall r <- at :: r < |base.wallUs| &&
               base.wallUs[r] * (100.0 + low) <= cand.wallUs[r] * 100.0 <= base.wallUs[r] * (100.0 + high)
    ensures low <= RowOf(lang, phase, base, cand).value.wallPct <= high
  {
    hide PctDelta, Median, Mad;
    var deltas := Deltas(base.wallUs, cand.wallUs);
    forall r <- at
      ensures low <= deltas[r] <= high
    {
      DeltaMeans(base.wallUs[r], cand.wallUs[r], low);
      DeltaMeans(base.wallUs[r], cand.wallUs[r], high);
    }
    MajorityRules(deltas, at, low, high);
  }

  /** The instruction delta against a threshold, from the two medians. */
  lemma CountsMean(base: RowSamples, cand: RowSamples, pct: real)
    requires Gradable(base, cand) && Counted(base, cand)
    ensures InstructionsPct(base.instructions, cand.instructions).Some?
    ensures var delta, b, c := InstructionsPct(base.instructions, cand.instructions).value,
                               Median(base.instructions), Median(cand.instructions);
            && (delta > pct <==> c * 100.0 > b * (100.0 + pct))
            && (delta < pct <==> c * 100.0 < b * (100.0 + pct))
  {
    MedianPositive(base.instructions);
    DeltaMeans(Median(base.instructions), Median(cand.instructions), pct);
  }

  /** A candidate more than 1.5% slower in a strict majority of rounds fails, unless its
      instructions are within half a percent of the base's, which reads as layout. */
  lemma SlowMajorityVerdict(lang: Lang, phase: Phase, base: RowSamples, cand: RowSamples, slow: set<nat>)
    requires RowOf(lang, phase, base, cand).Ok?
    requires 2 * |slow| > |base.wallUs|
    requires forall r <- slow :: r < |base.wallUs| && cand.wallUs[r] * 1000.0 > base.wallUs[r] * 1015.0
    ensures RowOf(lang, phase, base, cand).value.wallPct > 1.5
    ensures RowOf(lang, phase, base, cand).value.verdict ==
            if !Counted(base, cand) then Fail
            else
              var b, c := Median(base.instructions), Median(cand.instructions);
              if b * 995.0 < c * 1000.0 < b * 1005.0 then Layout else Fail
  {
    hide PctDelta, Median, Mad;
    var deltas := Deltas(base.wallUs, cand.wallUs);
    forall r <- slow
      ensures deltas[r] > 1.5
    {
      DeltaMeans(base.wallUs[r], cand.wallUs[r], 1.5);
    }
    MajorityAbove(deltas, slow, 1.5);
    if Counted(base, cand) {
      CountsMean(base, cand, 0.5);
      CountsMean(base, cand, -0.5);
      CountsMean(base, cand, 1.5);
    }
  }

  /** A candidate no more than 1.5% slower in a strict majority of rounds passes, unless its
      instructions rose: by half a percent and up to 1.5 it warns, past that it fails. */
  lemma SteadyMajorityVerdict(lang: Lang, phase: Phase, base: RowSamples, cand: RowSamples, steady: set<nat>)
    requires RowOf(lang, phase, base, cand).Ok?
    requires 2 * |steady| > |base.wallUs|
    requires forall r <- steady :: r < |base.wallUs| && cand.wallUs[r] * 1000.0 <= base.wallUs[r] * 1015.0
    ensures RowOf(lang, phase, base, cand).value.wallPct <= 1.5
    ensures RowOf(lang, phase, base, cand).value.verdict ==
            if !Counted(base, cand) then Pass
            else
              var b, c := Median(base.instructions), Median(cand.instructions);
              if c * 1000.0 > b * 1015.0 then Fail else if c * 1000.0 >= b * 1005.0 then Warn else Pass
  {
    hide PctDelta, Median, Mad;
    var deltas := Deltas(base.wallUs, cand.wallUs);
    var low := LowerBound(deltas);
    forall r <- steady
      ensures low <= deltas[r] <= 1.5
    {
      DeltaMeans(base.wallUs[r], cand.wallUs[r], 1.5);
    }
    MajorityRules(deltas, steady, low, 1.5);
    if Counted(base, cand) {
      CountsMean(base, cand, 0.5);
      CountsMean(base, cand, 1.5);
    }
  }

  /** Instructions 1.5% over the base's fail whatever the walls. */
  lemma RisenInstructionsFail(lang: Lang, phase: Phase, base: RowSamples, cand: RowSamples)
    requires RowOf(lang, phase, base, cand).Ok? && Counted(base, cand)
    requires Median(cand.instructions) * 1000.0 > Median(base.instructions) * 1015.0
    ensures RowOf(lang, phase, base, cand).value.verdict == Fail
  {
    CountsMean(base, cand, 1.5);
  }

  /** A row is signed off rather than re-run exactly when it fails, the wall alone at fault: at the
      threshold it would only warn, and it is over its instructions by at most 1.5. */
  lemma SignOffExactly(lang: Lang, phase: Phase, base: RowSamples, cand: RowSamples)
    requires RowOf(lang, phase, base, cand).Ok?
    ensures var row := RowOf(lang, phase, base, cand).value;
            row.signOff <==>
            && row.verdict == Fail
            && RowVerdict(1.5, row.instructionsPct) == Warn
            && row.wallPct <= row.instructionsPct.value + 1.5
  {
  }

  // ----- robustness -----

  /** A strict majority of rounds within the wall threshold, and instructions within their gate:
      the row does not fail, whatever the other rounds measured. */
  lemma MajorityCannotFail(lang: Lang, phase: Phase, base: RowSamples, cand: RowSamples, floor: real)
    requires Gradable(base, cand)
    requires 2 * CountIn(Deltas(base.wallUs, cand.wallUs), floor, WALL_REGRESSION_PCT) > |base.wallUs|
    requires var pct := InstructionsPct(base.instructions, cand.instructions);
             pct.None? || pct.value <= INSTRUCTIONS_REGRESSION_PCT
    ensures !GradedRow(lang, phase, base, cand).verdict.Fail?
  {
    MedianWithMajority(Deltas(base.wallUs, cand.wallUs), floor, WALL_REGRESSION_PCT);
  }

  /** Fewer than half of the rounds replaced by any positive walls, a majority `kept` as measured:
      the paired delta stays in the kept rounds' range of percents, its spread within that range's
      width, and a row whose kept rounds are all within the threshold cannot be made to fail by the
      walls. */
  lemma FewRoundsCannotDecide(lang: Lang, phase: Phase, base: RowSamples, cand: RowSamples,
                              base': RowSamples, cand': RowSamples, kept: set<nat>, low: real, high: real)
    requires RowOf(lang, phase, base, cand).Ok? && RowOf(lang, phase, base', cand').Ok?
    requires |base.wallUs| == |base'.wallUs| && 2 * |kept| > |base.wallUs|
    requires forall r <- kept :: r < |base.wallUs| &&
               base.wallUs[r] == base'.wallUs[r] && cand.wallUs[r] == cand'.wallUs[r] &&
               base.wallUs[r] * (100.0 + low) <= cand.wallUs[r] * 100.0 <= base.wallUs[r] * (100.0 + high)
    ensures var row := RowOf(lang, phase, base', cand').value;
            && low <= row.wallPct <= high && low <= RowOf(lang, phase, base, cand).value.wallPct <= high
            && row.wallPctSpread <= high - low
            && (high <= 1.5 && (row.instructionsPct.None? || row.instructionsPct.value <= 1.5) ==> !row.verdict.Fail?)
  {
    hide PctDelta, Median, Mad;
    DeltaFromSamples(lang, phase, base, cand, kept, low, high);
    DeltaFromSamples(lang, phase, base', cand', kept, low, high);
    var deltas := Deltas(base'.wallUs, cand'.wallUs);
    forall r <- kept
      ensures low <= deltas[r] <= high
    {
      DeltaMeans(base'.wallUs[r], cand'.wallUs[r], low);
      DeltaMeans(base'.wallUs[r], cand'.wallUs[r], high);
    }
    CountAtLeast(deltas, low, high, kept);
    MadWithMajority(deltas, low, high);
  }

  // ----- drift -----

  lemma ScaledDelta(base: real, cand: real, factor: real)
    requires base > 0.0 && factor > 0.0
    ensures base * factor != 0.0
    ensures PctDelta(base * factor, cand * factor) == PctDelta(base, cand)
  {
    var q := (cand - base) / base;
    assert q * base == cand - base;
    assert cand * factor - base * factor == q * (base * factor);
    assert base * factor > 0.0;
    QuotientUnique(cand * factor - base * factor, base * factor, q);
  }

  lemma QuotientUnique(x: real, y: real, q: real)
    requires y != 0.0 && x == q * y
    ensures x / y == q
  {
  }

  /** Whatever slows both sides of a round by one factor, a different factor each round, cancels:
      the paired delta, its spread, the verdict and the sign-off flag are those of a quiet
      machine. */
  lemma DriftCancels(lang: Lang, phase: Phase, base: RowSamples, cand: RowSamples, factors: seq<real>)
    requires Gradable(base, cand) && |factors| == |base.wallUs| && Positive(factors)
    ensures var scale := (walls: seq<real>) requires |walls| == |factors| =>
                           seq(|factors|, r requires 0 <= r < |factors| => walls[r] * factors[r]);
            var base', cand' := base.(wallUs := scale(base.wallUs)), cand.(wallUs := scale(cand.wallUs));
            && Gradable(base', cand')
            && var row, row' := GradedRow(lang, phase, base, cand), GradedRow(lang, phase, base', cand');
               && row'.wallPct == row.wallPct && row'.wallPctSpread == row.wallPctSpread
               && row'.verdict == row.verdict && row'.signOff == row.signOff
  {
    var base' := base.(wallUs := seq(|factors|, r requires 0 <= r < |factors| => base.wallUs[r] * factors[r]));
    var cand' := cand.(wallUs := seq(|factors|, r requires 0 <= r < |factors| => cand.wallUs[r] * factors[r]));
    forall r | 0 <= r < |factors|
      ensures base'.wallUs[r] > 0.0 && cand'.wallUs[r] > 0.0
      ensures PctDelta(base'.wallUs[r], cand'.wallUs[r]) == PctDelta(base.wallUs[r], cand.wallUs[r])
    {
      PositiveProduct(base.wallUs[r], factors[r]);
      PositiveProduct(cand.wallUs[r], factors[r]);
      ScaledDelta(base.wallUs[r], cand.wallUs[r], factors[r]);
    }
    assert Deltas(base'.wallUs, cand'.wallUs) == Deltas(base.wallUs, cand.wallUs);
  }

  lemma PositiveProduct(x: real, y: real)
    requires x > 0.0 && y > 0.0
    ensures x * y > 0.0
  {
  }

  // ----- per-phase instructions -----

  datatype InstructionTotals = InstructionTotals(full: real, parse: real, fixed: real)

  function PhaseInstructions(lang: Lang, totals: InstructionTotals, iterations: nat): (real, real)
    requires iterations > 0
  {
    var work := if lang.Strip? then totals.full - 2.0 * totals.parse + totals.fixed else totals.full - totals.parse;
    ((totals.parse - totals.fixed) / iterations as real, work / iterations as real)
  }

  lemma ScaledQuotient(n: real, x: real, numerator: real)
    requires n > 0.0 && numerator == n * x
    ensures numerator / n == x
  {
  }

  /** What the three driver runs count when a parse costs `parse` and the work after it `work`: a
      format run parses once, a strip run twice. */
  function TotalsOf(lang: Lang, fixed: real, parse: real, work: real, n: real): InstructionTotals {
    InstructionTotals(fixed + n * parse + n * work + (if lang.Strip? then n * parse else 0.0), fixed + n * parse, fixed)
  }

  /** The subtraction recovers each phase. */
  lemma PhaseInstructionsExact(lang: Lang, fixed: real, parse: real, work: real, iterations: nat)
    requires iterations > 0
    ensures PhaseInstructions(lang, TotalsOf(lang, fixed, parse, work, iterations as real), iterations) == (parse, work)
  {
    var n := iterations as real;
    var totals := TotalsOf(lang, fixed, parse, work, n);
    var left := if lang.Strip? then totals.full - 2.0 * totals.parse + totals.fixed else totals.full - totals.parse;
    ScaledQuotient(n, parse, totals.parse - totals.fixed);
    ScaledQuotient(n, work, left);
  }
}
