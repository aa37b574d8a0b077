/** The rounds an A/B run measures: their alternation, and the loop that adds pairs of rounds while
    a row is too close to call. The drivers' readings are the environment: `probe(round, side,
    lang)` is whatever that run of that driver reports. */
module PerfRounds {
  import opened Wrappers
  import opened Statistics
  import opened PerfVerdict

  const MAX_ROUNDS: nat := 10

  /** `1.4826 * 1.2533` */
  const ERROR_PER_MAD := 1.4826 * 1.2533

  // ----- the rounds policy -----

  /** The squared distance of the wall delta from the threshold. */
  function DistanceSquared(row: Row): real {
    (row.wallPct - WALL_REGRESSION_PCT) * (row.wallPct - WALL_REGRESSION_PCT)
  }

  /** The wall delta sits within its standard error, after `rounds` rounds at the measured spread,
      of the threshold: `distance < ERROR_PER_MAD * spread / sqrt(rounds)`, both sides squared. */
  predicate WithinError(row: Row, rounds: nat) {
    DistanceSquared(row) * rounds as real < ERROR_PER_MAD * ERROR_PER_MAD * row.wallPctSpread * row.wallPctSpread
  }

  /** The squared form is the comparison the source makes, for every row `ab_row` returns and any
      number `root` that is the square root of the rounds. */
  lemma WithinErrorMeans(lang: Lang, phase: Phase, base: RowSamples, cand: RowSamples, rounds: nat, root: real)
    requires RowOf(lang, phase, base, cand).Ok?
    requires rounds > 0 && root > 0.0 && root * root == rounds as real
    ensures var row := RowOf(lang, phase, base, cand).value;
            WithinError(row, rounds) <==>
            Abs(row.wallPct - WALL_REGRESSION_PCT) < ERROR_PER_MAD * row.wallPctSpread / root
  {
    MadNonNegative(Deltas(base.wallUs, cand.wallUs));
    SquaredComparison(RowOf(lang, phase, base, cand).value, rounds, root);
  }

  lemma SquaredComparison(row: Row, rounds: nat, root: real)
    requires rounds > 0 && root > 0.0 && root * root == rounds as real && row.wallPctSpread >= 0.0
    ensures WithinError(row, rounds) <==>
            Abs(row.wallPct - WALL_REGRESSION_PCT) < ERROR_PER_MAD * row.wallPctSpread / root
  {
    var d, e := Abs(row.wallPct - WALL_REGRESSION_PCT), ERROR_PER_MAD * row.wallPctSpread;
    assert d * d == DistanceSquared(row);
    assert (d * root) * (d * root) == DistanceSquared(row) * rounds as real by {
      assert (d * root) * (d * root) == (d * d) * (root * root);
    }
    assert e * e == ERROR_PER_MAD * ERROR_PER_MAD * row.wallPctSpread * row.wallPctSpread;
    SquaresCompare(d * root, e);
    var q := e / root;
    assert q * root == e;
    ProductsCompare(d, q, root);
  }

  lemma SquaresCompare(x: real, y: real)
    requires x >= 0.0 && y >= 0.0
    ensures x * x < y * y <==> x < y
  {
    if x < y {
      SquareLess(x, y);
    } else if y < x {
      SquareLess(y, x);
    }
  }

  lemma SquareLess(x: real, y: real)
    requires 0.0 <= x < y
    ensures x * x < y * y
  {
    PositiveProduct(y - x, y + x);
    assert (y - x) * (y + x) == y * y - x * x;
  }

  lemma ProductsCompare(x: real, y: real, k: real)
    requires k > 0.0
    ensures x * k < y * k <==> x < y
  {
  }

  predicate Ambiguous(row: Row) {
    Flips(row.instructionsPct) && WithinError(row, row.rounds)
  }

  predicate Settleable(row: Row) {
    row.rounds < MAX_ROUNDS && !WithinError(row, MAX_ROUNDS)
  }

  predicate WantsMore(rows: seq<Row>, rounds: nat) {
    rounds + 2 <= MAX_ROUNDS && exists i :: 0 <= i < |rows| && Ambiguous(rows[i]) && Settleable(rows[i])
  }

  /** A graded row is ambiguous exactly when the two sides of the wall threshold get opposite
      answers and the wall is within its standard error of it, and settleable exactly when the cap
      is ahead and it would not be within the standard error there; `root` and `capRoot` are the
      square roots of the rounds and of the cap. */
  lemma AmbiguousExactly(lang: Lang, phase: Phase, base: RowSamples, cand: RowSamples, root: real, capRoot: real)
    requires RowOf(lang, phase, base, cand).Ok?
    requires root > 0.0 && root * root == |base.wallUs| as real
    requires capRoot > 0.0 && capRoot * capRoot == 10.0
    ensures var row := RowOf(lang, phase, base, cand).value;
            var distance, error := Abs(row.wallPct - 1.5), 1.4826 * 1.2533 * row.wallPctSpread;
            && (Ambiguous(row) <==>
                  && (forall low: real, high: real :: low <= 1.5 < high ==>
                        Passes(low, row.instructionsPct) != Passes(high, row.instructionsPct))
                  && distance < error / root)
            && (Settleable(row) <==> |base.wallUs| < 10 && distance >= error / capRoot)
  {
    hide Flips, WithinError, Passes, Abs;
    var row := RowOf(lang, phase, base, cand).value;
    FlipsExactly(row.instructionsPct);
    WithinErrorMeans(lang, phase, base, cand, |base.wallUs|, root);
    WithinErrorMeans(lang, phase, base, cand, MAX_ROUNDS, capRoot);
  }

  /** An ambiguous row can be settled exactly when the cap, at the delta and spread measured so
      far, would find it unambiguous; more rounds never make a settled row ambiguous. */
  lemma SettleableExactly(row: Row, rounds: nat)
    requires row.rounds <= rounds
    ensures Ambiguous(row.(rounds := rounds)) ==> Ambiguous(row)
    ensures Ambiguous(row) ==> (Settleable(row) <==> !Ambiguous(row.(rounds := MAX_ROUNDS)))
  {
    var sq := DistanceSquared(row);
    MonotoneProduct(sq, row.rounds as real, rounds as real);
    if row.rounds >= MAX_ROUNDS {
      MonotoneProduct(sq, MAX_ROUNDS as real, row.rounds as real);
    }
  }

  lemma MonotoneProduct(k: real, x: real, y: real)
    requires k >= 0.0 && x <= y
    ensures k * x <= k * y
  {
  }

  // ----- the measurements -----

  datatype Side = Base | Cand

  datatype FileSet = FileSet(files: nat, bytes: nat, errors: nat, outputBytes: nat)

  /** One full driver run, with its instruction counts when they are taken. */
  datatype Reading = Reading(fileSet: FileSet, parseUs: real, workUs: real, instructions: Option<(real, real)>)

  type Probe = (nat, Side, Lang) -> Reading

  datatype SideSamples = SideSamples(parse: RowSamples, work: RowSamples, fileSet: Option<FileSet>)

  const EMPTY_SAMPLES := SideSamples(RowSamples([], []), RowSamples([], []), None)

  /** One reading joins its side's samples. */
  function Joined(s: SideSamples, reading: Reading): SideSamples {
    var counts := reading.instructions;
    SideSamples(
      RowSamples(s.parse.wallUs + [reading.parseUs], s.parse.instructions + if counts.Some? then [counts.value.0] else []),
      RowSamples(s.work.wallUs + [reading.workUs], s.work.instructions + if counts.Some? then [counts.value.1] else []),
      if s.fileSet.Some? then s.fileSet else Some(reading.fileSet))
  }

  /** A side's samples once rounds `0..rounds` have run. */
  function SamplesAfter(probe: Probe, side: Side, lang: Lang, rounds: nat): SideSamples {
    if rounds == 0 then EMPTY_SAMPLES
    else Joined(SamplesAfter(probe, side, lang, rounds - 1), probe(rounds - 1, side, lang))
  }

  /** Sample `r` of a side's wall column is its round `r`, so the two sides pair up by round. */
  lemma {:induction false} SamplesPairByRound(probe: Probe, side: Side, lang: Lang, rounds: nat, r: nat)
    requires r < rounds
    ensures var s := SamplesAfter(probe, side, lang, rounds);
            && |s.parse.wallUs| == |s.work.wallUs| == rounds
            && s.parse.wallUs[r] == probe(r, side, lang).parseUs
            && s.work.wallUs[r] == probe(r, side, lang).workUs
            && s.fileSet == Some(probe(0, side, lang).fileSet)
    ensures var s := SamplesAfter(probe, side, lang, rounds);
            (forall n :: 0 <= n < rounds ==> probe(n, side, lang).instructions.Some?) ==>
              && |s.parse.instructions| == |s.work.instructions| == rounds
              && (s.parse.instructions[r], s.work.instructions[r]) == probe(r, side, lang).instructions.value
    ensures var s := SamplesAfter(probe, side, lang, rounds);
            (forall n :: 0 <= n < rounds ==> probe(n, side, lang).instructions.None?) ==>
              s.parse.instructions == s.work.instructions == []
  {
    if rounds > 1 {
      SamplesPairByRound(probe, side, lang, rounds - 1, if r < rounds - 1 then r else 0);
    }
  }

  /** The driver runs, in order. */
  datatype Ran = Ran(round: nat, lang: Lang, side: Side)

  function First(round: nat): Side {
    if round % 2 == 0 then Base else Cand
  }

  function Other(side: Side): Side {
    if side.Base? then Cand else Base
  }

  function LangLog(round: nat, lang: Lang): seq<Ran> {
    [Ran(round, lang, First(round)), Ran(round, lang, Other(First(round)))]
  }

  function RoundLog(round: nat, langs: seq<Lang>): seq<Ran> {
    if langs == [] then [] else RoundLog(round, langs[..|langs| - 1]) + LangLog(round, langs[|langs| - 1])
  }

  function LogOf(rounds: nat, langs: seq<Lang>): seq<Ran> {
    if rounds == 0 then [] else LogOf(rounds - 1, langs) + RoundLog(rounds - 1, langs)
  }

  /** The log in closed form: a round runs every language's two sides back to back, the base's
      first in even rounds and the candidate's in odd ones. */
  lemma {:induction false} RoundLogAt(round: nat, langs: seq<Lang>, l: nat)
    requires l < |langs|
    ensures |RoundLog(round, langs)| == 2 * |langs|
    ensures RoundLog(round, langs)[2 * l] == Ran(round, langs[l], if round % 2 == 0 then Base else Cand)
    ensures RoundLog(round, langs)[2 * l + 1] == Ran(round, langs[l], if round % 2 == 0 then Cand else Base)
  {
    var n := |langs| - 1;
    if l < n {
      RoundLogAt(round, langs[..n], l);
    } else if n > 0 {
      RoundLogAt(round, langs[..n], 0);
    }
  }

  lemma {:induction false} LogAt(rounds: nat, langs: seq<Lang>, round: nat, l: nat)
    requires round < rounds && l < |langs|
    ensures |LogOf(rounds, langs)| == rounds * (2 * |langs|)
    ensures 0 <= round * (2 * |langs|) + 2 * l && round * (2 * |langs|) + 2 * l + 1 < |LogOf(rounds, langs)|
    ensures LogOf(rounds, langs)[round * (2 * |langs|) + 2 * l] ==
            Ran(round, langs[l], if round % 2 == 0 then Base else Cand)
    ensures LogOf(rounds, langs)[round * (2 * |langs|) + 2 * l + 1] ==
            Ran(round, langs[l], if round % 2 == 0 then Cand else Base)
    decreases rounds
  {
    hide RoundLog;
    var width := 2 * |langs|;
    LogSize(rounds - 1, langs);
    LogSize(rounds, langs);
    RoundLogAt(rounds - 1, langs, l);
    assert rounds * width == (rounds - 1) * width + width;
    if round < rounds - 1 {
      LogAt(rounds - 1, langs, round, l);
    }
  }

  lemma {:induction false} LogSize(rounds: nat, langs: seq<Lang>)
    requires langs != []
    ensures |LogOf(rounds, langs)| == rounds * (2 * |langs|)
  {
    hide RoundLog;
    if rounds > 0 {
      LogSize(rounds - 1, langs);
      RoundLogAt(rounds - 1, langs, 0);
      assert rounds * (2 * |langs|) == (rounds - 1) * (2 * |langs|) + 2 * |langs|;
    }
  }

  /** The rounds below `rounds` in which `side` goes first. */
  function FirstCount(side: Side, rounds: nat): nat {
    if rounds == 0 then 0 else FirstCount(side, rounds - 1) + if First(rounds - 1) == side then 1 else 0
  }

  lemma {:induction false} AlternationBalances(rounds: nat)
    requires rounds % 2 == 0
    ensures FirstCount(Base, rounds) == FirstCount(Cand, rounds) == rounds / 2
  {
    if rounds > 0 {
      AlternationBalances(rounds - 2);
      assert FirstCount(Base, rounds) == FirstCount(Base, rounds - 2) + 1;
      assert FirstCount(Cand, rounds) == FirstCount(Cand, rounds - 2) + 1;
    }
  }

  /** Both sides' round `r` of `lang` measured the file set, and wrote the bytes, their first did. */
  ghost predicate SteadyIn(probe: Probe, lang: Lang, r: nat) {
    && probe(r, Base, lang).fileSet == probe(0, Base, lang).fileSet
    && probe(r, Cand, lang).fileSet == probe(0, Cand, lang).fileSet
  }

  /** Every run so far measured the file set, and wrote the bytes, its side's first run did. */
  ghost predicate Steady(probe: Probe, langs: seq<Lang>, rounds: nat) {
    forall r, i :: 0 <= r < rounds && 0 <= i < |langs| ==> SteadyIn(probe, langs[i], r)
  }

  ghost predicate Distinct(langs: seq<Lang>) {
    forall i, j :: 0 <= i < j < |langs| ==> langs[i] != langs[j]
  }

  datatype Outcome = Finished(rounds: nat, rows: seq<Row>) | CorpusMoved | BadRow(error: RowError)

  function PhasesOf(lang: Lang): (Phase, Phase) {
    if lang.Strip? then (ParsePhase, StripPhase) else (ParsePhase, FormatPhase)
  }

  /** The rows of one language, or the first error. */
  function LangRows(lang: Lang, base: SideSamples, cand: SideSamples): Result<seq<Row>, RowError> {
    match (RowOf(lang, PhasesOf(lang).0, base.parse, cand.parse), RowOf(lang, PhasesOf(lang).1, base.work, cand.work))
    case (Ok(parse), Ok(work)) => Ok([parse, work])
    case (Err(e), _) => Err(e)
    case (_, Err(e)) => Err(e)
  }

  function RowsOf(probe: Probe, langs: seq<Lang>, rounds: nat): Result<seq<Row>, RowError> {
    if langs == [] then Ok([])
    else
      match RowsOf(probe, langs[..|langs| - 1], rounds)
      case Err(e) => Err(e)
      case Ok(rows) =>
        var lang := langs[|langs| - 1];
        match LangRows(lang, SamplesAfter(probe, Base, lang, rounds), SamplesAfter(probe, Cand, lang, rounds))
        case Err(e) => Err(e)
        case Ok(more) => Ok(rows + more)
  }

  /** A side's samples of one phase. */
  function Column(s: SideSamples, work: bool): RowSamples {
    if work then s.work else s.parse
  }

  /** The rows are two per language, in order: its parse, then its format, or its strip where it is
      stripped, each from the two sides' samples of that phase. */
  lemma {:induction false} RowsAt(probe: Probe, langs: seq<Lang>, rounds: nat, l: nat)
    requires RowsOf(probe, langs, rounds).Ok? && l < |langs|
    ensures var rows := RowsOf(probe, langs, rounds).value;
            var base, cand := SamplesAfter(probe, Base, langs[l], rounds), SamplesAfter(probe, Cand, langs[l], rounds);
            && |rows| == 2 * |langs|
            && Ok(rows[2 * l]) == RowOf(langs[l], ParsePhase, base.parse, cand.parse)
            && Ok(rows[2 * l + 1]) ==
               RowOf(langs[l], if langs[l] == Strip then StripPhase else FormatPhase, base.work, cand.work)
  {
    hide RowOf, SamplesAfter;
    var n := |langs| - 1;
    if l < n {
      RowsAt(probe, langs[..n], rounds, l);
    } else if n > 0 {
      RowsAt(probe, langs[..n], rounds, 0);
    }
  }

  /** End to end, from what the drivers reported: a language whose candidate ran more than 1.5%
      slower than the base in a strict majority of the rounds, nothing counted, fails that phase. */
  lemma SlowdownFails(probe: Probe, langs: seq<Lang>, rounds: nat, l: nat, work: bool, slow: set<nat>)
    requires RowsOf(probe, langs, rounds).Ok? && l < |langs|
    requires 2 * |slow| > rounds
    requires forall r <- slow :: r < rounds &&
               if work then probe(r, Cand, langs[l]).workUs * 1000.0 > probe(r, Base, langs[l]).workUs * 1015.0
               else probe(r, Cand, langs[l]).parseUs * 1000.0 > probe(r, Base, langs[l]).parseUs * 1015.0
    requires forall r :: 0 <= r < rounds ==> probe(r, Base, langs[l]).instructions.None?
    ensures var rows := RowsOf(probe, langs, rounds).value;
            var k := if work then 2 * l + 1 else 2 * l;
            k < |rows| && rows[k].lang == langs[l] && rows[k].verdict == Fail
  {
    hide RowsOf, RowOf, SamplesAfter;
    RowsAt(probe, langs, rounds, l);
    var base, cand := SamplesAfter(probe, Base, langs[l], rounds), SamplesAfter(probe, Cand, langs[l], rounds);
    forall r: nat | r < rounds
      ensures |base.parse.wallUs| == |base.work.wallUs| == |cand.parse.wallUs| == |cand.work.wallUs| == rounds
      ensures base.parse.wallUs[r] == probe(r, Base, langs[l]).parseUs && base.work.wallUs[r] == probe(r, Base, langs[l]).workUs
      ensures cand.parse.wallUs[r] == probe(r, Cand, langs[l]).parseUs && cand.work.wallUs[r] == probe(r, Cand, langs[l]).workUs
      ensures base.parse.instructions == base.work.instructions == []
    {
      SamplesPairByRound(probe, Base, langs[l], rounds, r);
      SamplesPairByRound(probe, Cand, langs[l], rounds, r);
    }
    var phase := if !work then ParsePhase else if langs[l] == Strip then StripPhase else FormatPhase;
    SlowMajorityVerdict(langs[l], phase, Column(base, work), Column(cand, work), slow);
    RowNames(langs[l], phase, Column(base, work), Column(cand, work));
  }

  lemma RowNames(lang: Lang, phase: Phase, base: RowSamples, cand: RowSamples)
    requires RowOf(lang, phase, base, cand).Ok?
    ensures RowOf(lang, phase, base, cand).value.lang == lang
  {
  }

  class PerfRun {
    const langs: seq<Lang>
    var samples: map<(Side, Lang), SideSamples>
    ghost var log: seq<Ran>

    ghost predicate Valid()
      reads this
    {
      forall i :: 0 <= i < |langs| ==> (Base, langs[i]) in samples && (Cand, langs[i]) in samples
    }

    /** The samples of one language hold its first `rounds` rounds. */
    ghost predicate Holds(probe: Probe, lang: Lang, rounds: nat)
      reads this
    {
      && (Base, lang) in samples && samples[(Base, lang)] == SamplesAfter(probe, Base, lang, rounds)
      && (Cand, lang) in samples && samples[(Cand, lang)] == SamplesAfter(probe, Cand, lang, rounds)
    }

    /** Rounds `0..rounds` are recorded, and for the first `done` languages round `rounds` too. */
    ghost predicate Recorded(probe: Probe, rounds: nat, done: nat)
      reads this
    {
      forall i :: 0 <= i < |langs| ==> Holds(probe, langs[i], if i < done then rounds + 1 else rounds)
    }

    constructor (langs: seq<Lang>, ghost probe: Probe)
      ensures this.langs == langs && Measured(probe, 0)
    {
      this.langs := langs;
      samples := map side, lang | side in {Base, Cand} && lang in {Ts, Svelte, Css, Strip} :: (side, lang) := EMPTY_SAMPLES;
      log := [];
      new;
      forall side: Side, lang: Lang
        ensures (side, lang) in samples && samples[(side, lang)] == EMPTY_SAMPLES
      {
        assert side == Base || side == Cand;
        assert lang == Ts || lang == Svelte || lang == Css || lang == Strip;
      }
    }

    /** One driver run. */
    method Measure(round: nat, lang: Lang, side: Side, probe: Probe) returns (ok: bool)
      requires Valid() && lang in langs
      requires samples[(side, lang)] == SamplesAfter(probe, side, lang, round)
      modifies this
      ensures Valid() && log == old(log) + [Ran(round, lang, side)]
      ensures samples == if ok then old(samples)[(side, lang) := SamplesAfter(probe, side, lang, round + 1)] else old(samples)
      ensures ok <==> probe(round, side, lang).fileSet == probe(0, side, lang).fileSet
    {
      var reading, s := probe(round, side, lang), samples[(side, lang)];
      log := log + [Ran(round, lang, side)];
      if round > 0 {
        SamplesPairByRound(probe, side, lang, round, 0);
      }
      if s.fileSet.Some? && s.fileSet.value != reading.fileSet {
        return false;
      }
      samples := samples[(side, lang) := Joined(s, reading)];
      return true;
    }

    /** Both sides of one language, first side first. */
    method MeasureLang(round: nat, lang: Lang, probe: Probe) returns (ok: bool)
      requires Valid() && lang in langs && Holds(probe, lang, round)
      modifies this
      ensures Valid() && (ok <==> SteadyIn(probe, lang, round))
      ensures old(log) <= log <= old(log) + LangLog(round, lang)
      ensures ok ==> log == old(log) + LangLog(round, lang)
      ensures ok ==> Holds(probe, lang, round + 1)
      ensures forall other, n: nat :: other != lang && old(Holds(probe, other, n)) ==> Holds(probe, other, n)
    {
      ok := Measure(round, lang, First(round), probe);
      if ok {
        ok := Measure(round, lang, Other(First(round)), probe);
      }
    }

    /** One round of every language. */
    method RunRound(round: nat, probe: Probe) returns (ok: bool)
      requires Valid() && Recorded(probe, round, 0) && Steady(probe, langs, round)
      requires Distinct(langs)
      modifies this
      ensures Valid() && (ok <==> Steady(probe, langs, round + 1))
      ensures ok ==> Recorded(probe, round + 1, 0)
      ensures old(log) <= log <= old(log) + RoundLog(round, langs)
      ensures ok ==> log == old(log) + RoundLog(round, langs)
    {
      hide SamplesAfter, RoundLog, LangLog;
      assert RoundLog(round, langs[..0]) == [] by {
        EmptyRoundLog(round);
      }
      for i := 0 to |langs|
        invariant Valid() && Recorded(probe, round, i)
        invariant log == old(log) + RoundLog(round, langs[..i])
        invariant forall j :: 0 <= j < i ==> SteadyIn(probe, langs[j], round)
      {
        assert Holds(probe, langs[i], round);
        ok := MeasureLang(round, langs[i], probe);
        RoundLogGrows(round, langs, i);
        LogWithin(old(log), RoundLog(round, langs[..i]), LangLog(round, langs[i]), RoundLog(round, langs), log);
        if !ok {
          return;
        }
      }
      assert langs[..|langs|] == langs;
      return true;
    }

    /** Every row over the samples so far. */
    method Grade(ghost probe: Probe, ghost rounds: nat) returns (rows: Result<seq<Row>, RowError>)
      requires Valid() && Recorded(probe, rounds, 0)
      ensures rows == RowsOf(probe, langs, rounds)
    {
      var graded: seq<Row> := [];
      for i := 0 to |langs|
        invariant RowsOf(probe, langs[..i], rounds) == Ok(graded)
      {
        var lang := langs[i];
        assert langs[..i + 1][..i] == langs[..i];
        assert Holds(probe, lang, rounds);
        var base, cand := samples[(Base, lang)], samples[(Cand, lang)];
        var parse := AbRow(lang, PhasesOf(lang).0, base.parse, cand.parse);
        if parse.Err? {
          ErrorStays(probe, langs, i + 1, rounds);
          return Err(parse.error);
        }
        var work := AbRow(lang, PhasesOf(lang).1, base.work, cand.work);
        if work.Err? {
          ErrorStays(probe, langs, i + 1, rounds);
          return Err(work.error);
        }
        graded := graded + [parse.value, work.value];
      }
      assert langs[..|langs|] == langs;
      return Ok(graded);
    }

    /** Rounds `0..n`. */
    ghost predicate Measured(probe: Probe, n: nat)
      reads this
    {
      Valid() && Recorded(probe, n, 0) && Steady(probe, langs, n) && log == LogOf(n, langs)
    }

    method NextRound(n: nat, probe: Probe) returns (ok: bool)
      requires Measured(probe, n) && Distinct(langs)
      modifies this
      ensures Valid() && (ok <==> Steady(probe, langs, n + 1))
      ensures ok ==> Measured(probe, n + 1)
      ensures !ok ==> MovedIn(probe, n)
    {
      ok := RunRound(n, probe);
    }

    /** Round `m` is the first to measure another corpus, and nothing ran after it. */
    ghost predicate MovedIn(probe: Probe, m: nat)
      reads this
    {
      Steady(probe, langs, m) && !Steady(probe, langs, m + 1) && LogOf(m, langs) <= log <= LogOf(m + 1, langs)
    }

    /** The rounds asked for. */
    method AskedRounds(asked: nat, probe: Probe) returns (ok: bool)
      requires Measured(probe, 0) && Distinct(langs)
      modifies this
      ensures if ok then Measured(probe, asked) else exists m: nat :: m < asked && MovedIn(probe, m)
    {
      for rounds := 0 to asked
        invariant Measured(probe, rounds)
      {
        ok := NextRound(rounds, probe);
        if !ok {
          return;
        }
      }
      return true;
    }

    /** Balanced pairs while a row is too close to call and the cap could settle it. */
    method Extend(asked: nat, probe: Probe) returns (outcome: Outcome)
      requires Measured(probe, asked) && Distinct(langs) && asked % 2 == 0
      modifies this
      ensures EndsWell(probe, asked, outcome)
    {
      hide RowsOf, SamplesAfter, LogOf, WantsMore;
      var rounds := asked;
      var graded := Grade(probe, rounds);
      while graded.Ok? && WantsMore(graded.value, rounds)
        invariant rounds % 2 == 0 && asked <= rounds && (rounds <= asked || rounds <= MAX_ROUNDS)
        invariant Measured(probe, rounds) && Justified(probe, langs, asked, rounds)
        invariant graded == RowsOf(probe, langs, rounds)
        decreases MAX_ROUNDS - rounds
      {
        WantsRoom(graded.value, rounds);
        JustifiedPair(probe, langs, asked, rounds);
        var ok;
        ok, graded := BalancedPair(rounds, probe);
        if !ok {
          assert exists m: nat :: m < rounds + 2 && MovedIn(probe, m);
          return CorpusMoved;
        }
        rounds := rounds + 2;
      }
      if graded.Ok? {
        NotWantedIsSettled(graded.value, rounds);
      }
      return if graded.Err? then BadRow(graded.error) else Finished(rounds, graded.value);
    }

    /** What a run stands on when it grades: an even number of rounds, no fewer than asked and past
        that no more than the cap, every one recorded in its order over one unmoved corpus, and
        each pair past the asked ones wanted by the rows before it. */
    ghost predicate Graded(probe: Probe, asked: nat, rounds: nat)
      reads this
    {
      && rounds % 2 == 0 && asked <= rounds && (rounds <= asked || rounds <= MAX_ROUNDS)
      && Measured(probe, rounds) && Justified(probe, langs, asked, rounds)
    }

    /** A finished run has graded its rows and leaves no ambiguous one that another pair could
        settle; a bad row is one of the rounds it graded; a corpus that moved did so in a round it
        had reason to run, its last. */
    ghost predicate EndsWell(probe: Probe, asked: nat, outcome: Outcome)
      reads this
    {
      match outcome
      case Finished(rounds, rows) =>
        Graded(probe, asked, rounds) && RowsOf(probe, langs, rounds) == Ok(rows) && Settled(rows, rounds)
      case BadRow(error) =>
        exists m: nat :: Graded(probe, asked, m) && RowsOf(probe, langs, m) == Err(error)
      case CorpusMoved =>
        exists m: nat :: (m < asked || m < MAX_ROUNDS) && MovedIn(probe, m) && Justified(probe, langs, asked, m + 1)
    }

    /** The measuring half of `main`. */
    method MeasureAll(asked: nat, probe: Probe) returns (outcome: Outcome)
      requires Measured(probe, 0) && Distinct(langs)
      requires asked > 0 && asked % 2 == 0
      modifies this
      ensures EndsWell(probe, asked, outcome)
    {
      hide RowsOf, SamplesAfter, LogOf, WantsMore;
      var ok := AskedRounds(asked, probe);
      if !ok {
        return CorpusMoved;
      }
      outcome := Extend(asked, probe);
    }

    method BalancedPair(n: nat, probe: Probe) returns (ok: bool, graded: Result<seq<Row>, RowError>)
      requires Measured(probe, n) && Distinct(langs)
      modifies this
      ensures ok ==> Measured(probe, n + 2) && graded == RowsOf(probe, langs, n + 2)
      ensures !ok ==> exists m: nat :: m < n + 2 && MovedIn(probe, m)
    {
      graded := Ok([]);
      ok := NextRound(n, probe);
      if ok {
        ok := NextRound(n + 1, probe);
      }
      if ok {
        graded := Grade(probe, n + 2);
      }
    }
  }

  lemma EmptyRoundLog(round: nat)
    ensures RoundLog(round, []) == []
  {
  }

  lemma {:induction false} RoundLogGrows(round: nat, langs: seq<Lang>, n: nat)
    requires n < |langs|
    ensures RoundLog(round, langs[..n + 1]) == RoundLog(round, langs[..n]) + LangLog(round, langs[n])
    ensures RoundLog(round, langs[..n + 1]) <= RoundLog(round, langs)
    decreases |langs| - n
  {
    hide LangLog;
    assert langs[..n + 1][..n] == langs[..n];
    if n + 1 < |langs| {
      RoundLogGrows(round, langs, n + 1);
    } else {
      assert langs[..n + 1] == langs;
    }
  }

  lemma LogWithin(start: seq<Ran>, done: seq<Ran>, more: seq<Ran>, all: seq<Ran>, log: seq<Ran>)
    requires start + done <= log <= start + done + more && done + more <= all
    ensures start <= log <= start + all
    ensures log == start + done + more ==> log == start + (done + more)
  {
    assert start + done + more == start + (done + more);
  }

  /** Among the rows of the first `n` rounds is an ambiguous one that can be settled, and the cap
      leaves room for another pair. */
  ghost predicate Wanted(probe: Probe, langs: seq<Lang>, n: nat) {
    var rows := RowsOf(probe, langs, n);
    && rows.Ok? && n + 2 <= MAX_ROUNDS
    && exists i :: 0 <= i < |rows.value| && Ambiguous(rows.value[i]) && Settleable(rows.value[i])
  }

  /** Of the first `begun` rounds, each pair past the asked ones was wanted. */
  ghost predicate Justified(probe: Probe, langs: seq<Lang>, asked: nat, begun: nat) {
    forall n :: asked <= n < begun && n % 2 == 0 ==> Wanted(probe, langs, n)
  }

  lemma JustifiedPair(probe: Probe, langs: seq<Lang>, asked: nat, n: nat)
    requires Justified(probe, langs, asked, n) && Wanted(probe, langs, n) && n % 2 == 0
    ensures forall m: nat :: m <= n + 2 ==> Justified(probe, langs, asked, m)
  {
    hide Wanted;
  }

  lemma WantsRoom(rows: seq<Row>, rounds: nat)
    requires WantsMore(rows, rounds)
    ensures rounds + 2 <= MAX_ROUNDS
    ensures exists i :: 0 <= i < |rows| && Ambiguous(rows[i]) && Settleable(rows[i])
  {
  }

  lemma NotWantedIsSettled(rows: seq<Row>, rounds: nat)
    requires !WantsMore(rows, rounds)
    ensures Settled(rows, rounds)
  {
  }

  /** When the loop stops, every row it leaves ambiguous is one the cap could not settle, or the
      cap leaves no room for a pair. */
  ghost predicate Settled(rows: seq<Row>, rounds: nat) {
    forall i :: 0 <= i < |rows| && Ambiguous(rows[i]) ==> !Settleable(rows[i]) || rounds + 2 > MAX_ROUNDS
  }

  lemma {:induction false} ErrorStays(probe: Probe, langs: seq<Lang>, n: nat, rounds: nat)
    requires n <= |langs| && RowsOf(probe, langs[..n], rounds).Err?
    ensures RowsOf(probe, langs, rounds) == RowsOf(probe, langs[..n], rounds)
    decreases |langs| - n
  {
    if n < |langs| {
      assert langs[..n + 1][..n] == langs[..n];
      ErrorStays(probe, langs, n + 1, rounds);
    } else {
      assert langs[..n] == langs;
    }
  }
}
