/** How a factor is judged from its daily ICs: best horizon, orientation, yearly and regime gates. */
module FactorVerdict {
  import opened Options
  import opened Vectors
  import opened Ranks
  import opened FactorJudgment

  datatype Verdict = AllWeather | Robust4y | RegimeSpecialist | Weak | Dead | NotComputable

  datatype Regime = Bull | Sideways | Bear

  type Series = seq<(int, real)>

  const MIN_DAYS := 20
  const TINY := 0.000000000001

  /** The run's fixed inputs: square root, 4-digit rounding, calendar and market regime. */
  datatype Protocol = Protocol(
    root: real -> real, round: real -> real, yearOf: int -> int, regimeOf: int -> Option<Regime>, gateYears: seq<int>)
  {
    ghost predicate Valid() {
      IsRoot(root) && forall x :: round(-x) == -round(x)
    }
  }

  function Values(s: Series): (r: seq<real>)
    ensures |r| == |s|
    ensures forall i :: 0 <= i < |r| ==> r[i] == s[i].1
  {
    seq(|s|, i requires 0 <= i < |s| => s[i].1)
  }

  /** The mean and the information ratio; both zero for an empty series. */
  function Stats(daily: Series, root: real -> real): (real, real) {
    if |daily| == 0 then (0.0, 0.0)
    else
      var x := Values(daily);
      var sd := root(CoMoment(x, x) / |x| as real);
      (Mean(x), if sd > TINY then Mean(x) / sd else 0.0)
  }

  function Abs(x: real): real {
    if x < 0.0 then -x else x
  }

  function Sign(x: real): real {
    if x > 0.0 then 1.0 else if x < 0.0 then -1.0 else 0.0
  }

  /** The series with the largest absolute information ratio; a later horizon wins a tie. */
  function Best(all: seq<Series>, root: real -> real): (real, Series) {
    if |all| == 0 then (0.0, [])
    else
      var best := Best(all[..|all| - 1], root);
      var icir := Stats(all[|all| - 1], root).1;
      if Abs(icir) >= Abs(best.0) then (icir, all[|all| - 1]) else best
  }

  function Subset(daily: Series, keep: int -> bool): seq<real> {
    if |daily| == 0 then []
    else
      var n := |daily| - 1;
      var r := Subset(daily[..n], keep);
      if keep(daily[n].0) then r + [daily[n].1] else r
  }

  /** The mean over the kept days, missing when there are fewer than 20. */
  function SubsetMean(daily: Series, keep: int -> bool): Option<real> {
    var x := Subset(daily, keep);
    if |x| >= MIN_DAYS then Some(Mean(x)) else None
  }

  function YearICs(daily: Series, p: Protocol): (r: seq<Option<real>>)
    ensures |r| == |p.gateYears|
  {
    seq(|p.gateYears|, i requires 0 <= i < |p.gateYears| => SubsetMean(daily, d => p.yearOf(d) == p.gateYears[i]))
  }

  function RegimeICs(daily: Series, p: Protocol): seq<Option<real>> {
    [SubsetMean(daily, d => p.regimeOf(d) == Some(Bull)),
     SubsetMean(daily, d => p.regimeOf(d) == Some(Sideways)),
     SubsetMean(daily, d => p.regimeOf(d) == Some(Bear))]
  }

  /** The present entries. */
  function Present(ics: seq<Option<real>>): seq<real> {
    if |ics| == 0 then []
    else
      var r := Present(ics[..|ics| - 1]);
      if ics[|ics| - 1].Some? then r + [ics[|ics| - 1].value] else r
  }

  /** How many entries point the factor's way with at least the given size. */
  function Agreeing(xs: seq<real>, sign: real, floor: real): nat {
    if |xs| == 0 then 0
    else
      var x := xs[|xs| - 1];
      Agreeing(xs[..|xs| - 1], sign, floor) + if Sign(x) == sign && Abs(x) >= floor then 1 else 0
  }

  /** How many entries point any other way with at least the given size. */
  function Opposing(xs: seq<real>, sign: real, floor: real): nat {
    if |xs| == 0 then 0
    else
      var x := xs[|xs| - 1];
      Opposing(xs[..|xs| - 1], sign, floor) + if Sign(x) != sign && Abs(x) >= floor then 1 else 0
  }

  function LargestAbs(xs: seq<real>): real {
    if |xs| == 0 then 0.0
    else
      var m := LargestAbs(xs[..|xs| - 1]);
      if Abs(xs[|xs| - 1]) > m then Abs(xs[|xs| - 1]) else m
  }

  /** The verdict from the orientation, the yearly ICs, the regime ICs and the rounded horizon ICs. */
  function GateVerdict(
      sign: real, years: seq<Option<real>>, regimes: seq<Option<real>>, horizonICs: seq<real>): Verdict
  {
    var ys, rs := Present(years), Present(regimes);
    var yearOk := |ys| >= |years| && Agreeing(ys, sign, 0.005) == |ys| && |ys| > 0 && Abs(Mean(ys)) >= 0.015;
    var same, bad := Agreeing(rs, sign, 0.005), Opposing(rs, sign, 0.02);
    if yearOk && same == 3 then AllWeather
    else if yearOk && same >= 2 && bad == 0 then Robust4y
    else
      var maxIC := LargestAbs(horizonICs);
      if Agreeing(rs, sign, 0.03) > 0 && maxIC >= 0.02 then RegimeSpecialist
      else if maxIC >= 0.005 then Weak
      else Dead
  }

  function Orientation(best: Series): real {
    if |best| > 0 && Mean(Values(best)) < 0.0 then -1.0 else 1.0
  }

  function HorizonICs(all: seq<Series>, p: Protocol): (r: seq<real>)
    ensures |r| == |all|
    ensures forall i :: 0 <= i < |r| ==> r[i] == p.round(Stats(all[i], p.root).0)
  {
    seq(|all|, i requires 0 <= i < |all| => p.round(Stats(all[i], p.root).0))
  }

  function Judgment(all: seq<Series>, p: Protocol): (Verdict, real) {
    var best := Best(all, p.root).1;
    if |best| == 0 then (NotComputable, 1.0)
    else (GateVerdict(Orientation(best), YearICs(best, p), RegimeICs(best, p), HorizonICs(all, p)), Orientation(best))
  }

  function AllSeries(
      dates: seq<int>, values: seq<Num>, labels: map<int, seq<Num>>, eligible: seq<bool>, horizons: seq<int>,
      root: real -> real): (r: seq<Series>)
    requires |dates| == |values| == |eligible| && IsRoot(root)
    requires forall i :: 0 <= i < |horizons| ==> horizons[i] in labels && |labels[horizons[i]]| == |dates|
    ensures |r| == |horizons|
    ensures forall i :: 0 <= i < |r| ==> r[i] == SpearmanSeries(dates, values, labels[horizons[i]], eligible, root)
  {
    seq(|horizons|, i requires 0 <= i < |horizons| =>
      SpearmanSeries(dates, values, labels[horizons[i]], eligible, root))
  }

  /** The judging loop: one pass over the horizons with a running best. */
  method JudgeFactor(
      engine: DailyICEngine, values: seq<Num>, horizons: seq<int>, p: Protocol)
    returns (verdict: Verdict, sign: real)
    requires engine.Valid() && |values| == |engine.dates| && p.Valid()
    requires forall i :: 0 <= i < |horizons| ==>
      horizons[i] in engine.labels && |engine.labels[horizons[i]]| == |engine.dates|
    ensures (verdict, sign) ==
      Judgment(AllSeries(engine.dates, values, engine.labels, engine.eligible, horizons, p.root), p)
  {
    hide SpearmanSeries, Stats, GateVerdict, YearICs, RegimeICs, Best, HorizonICs;
    NoSeries(p);
    ghost var all := AllSeries(engine.dates, values, engine.labels, engine.eligible, horizons, p.root);
    var bestIcir, bestDaily, rounded := 0.0, [], [];
    for i := 0 to |horizons|
      invariant (bestIcir, bestDaily) == Best(all[..i], p.root)
      invariant rounded == HorizonICs(all[..i], p)
    {
      var daily := engine.DailyIC(values, horizons[i], p.root);
      var (m, icir) := Stats(daily, p.root);
      rounded := rounded + [p.round(m)];
      if Abs(icir) >= Abs(bestIcir) {
        bestIcir, bestDaily := icir, daily;
      }
      assert all[..i + 1] == all[..i] + [daily];
      BestStep(all[..i], daily, p.root);
      HorizonStep(all[..i], daily, p);
    }
    assert all[..|horizons|] == all;
    if |bestDaily| == 0 {
      return NotComputable, 1.0;
    }
    sign := Orientation(bestDaily);
    verdict := GateVerdict(sign, YearICs(bestDaily, p), RegimeICs(bestDaily, p), rounded);
  }

  lemma NoSeries(p: Protocol)
    ensures Best([], p.root) == (0.0, []) && HorizonICs([], p) == []
  {
  }

  lemma HorizonStep(all: seq<Series>, s: Series, p: Protocol)
    ensures HorizonICs(all + [s], p) == HorizonICs(all, p) + [p.round(Stats(s, p.root).0)]
  {
    hide Stats;
  }

  // ----- judging a factor and judging its negation

  lemma ValuesNegate(s: Series)
    ensures Affine(Values(s), Values(NegateSeries(s)), -1.0, 0.0)
  {
    forall i | 0 <= i < |s|
      ensures Values(NegateSeries(s))[i] == Times(-1.0, Values(s)[i]) + 0.0
    {
      MinusOne(Values(s)[i]);
    }
  }

  lemma MeanNegate(x: seq<real>, y: seq<real>)
    requires Affine(x, y, -1.0, 0.0) && |x| > 0
    ensures Mean(y) == -Mean(x)
  {
    MeanAffine(x, y, -1.0, 0.0);
    MinusOne(Mean(x));
  }

  lemma StatsNegate(s: Series, root: real -> real)
    ensures Stats(NegateSeries(s), root) == (-Stats(s, root).0, -Stats(s, root).1)
  {
    if |s| != 0 {
      var x, y := Values(s), Values(NegateSeries(s));
      ValuesNegate(s);
      MeanNegate(x, y);
      MirrorMoments(x, y, x, 0.0);
      hide CoMoment, Affine, Times;
      var sd := root(CoMoment(x, x) / |x| as real);
      if sd > TINY {
        NegateQuotient(Mean(x), sd);
      }
    }
  }

  function NegateEach(all: seq<Series>): (r: seq<Series>)
    ensures |r| == |all|
    ensures forall i :: 0 <= i < |r| ==> r[i] == NegateSeries(all[i])
  {
    seq(|all|, i requires 0 <= i < |all| => NegateSeries(all[i]))
  }

  lemma BestStep(all: seq<Series>, s: Series, root: real -> real)
    ensures Best(all + [s], root)
      == if Abs(Stats(s, root).1) >= Abs(Best(all, root).0) then (Stats(s, root).1, s) else Best(all, root)
  {
    assert (all + [s])[..|all|] == all;
  }

  lemma {:induction false} BestNegate(all: seq<Series>, root: real -> real)
    ensures Best(NegateEach(all), root) == (-Best(all, root).0, NegateSeries(Best(all, root).1))
  {
    hide Stats, Best, NegateSeries, NegateEach;
    if |all| == 0 {
      NegateNothing(root);
    } else {
      var n := |all| - 1;
      BestNegate(all[..n], root);
      StatsNegate(all[n], root);
      BestStep(all[..n], all[n], root);
      BestStep(NegateEach(all[..n]), NegateSeries(all[n]), root);
      assert all == all[..n] + [all[n]];
      assert NegateEach(all) == NegateEach(all[..n]) + [NegateSeries(all[n])];
    }
  }

  lemma NegateNothing(root: real -> real)
    ensures NegateEach([]) == [] && Best([], root) == (0.0, []) && NegateSeries([]) == []
  {
  }

  lemma {:induction false} SubsetNegate(s: Series, keep: int -> bool)
    ensures Affine(Subset(s, keep), Subset(NegateSeries(s), keep), -1.0, 0.0)
  {
    hide Times;
    if |s| != 0 {
      var n := |s| - 1;
      SubsetNegate(s[..n], keep);
      assert NegateSeries(s)[..n] == NegateSeries(s[..n]);
      MinusOne(s[n].1);
    }
  }

  lemma SubsetMeanNegate(s: Series, keep: int -> bool)
    ensures SubsetMean(NegateSeries(s), keep) == NegateOption(SubsetMean(s, keep))
  {
    SubsetNegate(s, keep);
    if |Subset(s, keep)| >= MIN_DAYS {
      MeanNegate(Subset(s, keep), Subset(NegateSeries(s), keep));
    }
  }

  ghost predicate Negated(a: seq<Option<real>>, b: seq<Option<real>>) {
    |a| == |b| && forall i :: 0 <= i < |a| ==> b[i] == NegateOption(a[i])
  }

  ghost predicate Mirrored(a: seq<real>, b: seq<real>) {
    |a| == |b| && forall i :: 0 <= i < |a| ==> b[i] == -a[i]
  }

  lemma {:induction false} PresentNegate(a: seq<Option<real>>, b: seq<Option<real>>)
    requires Negated(a, b)
    ensures Mirrored(Present(a), Present(b))
  {
    if |a| != 0 {
      PresentNegate(a[..|a| - 1], b[..|b| - 1]);
    }
  }

  lemma {:induction false} CountsMirror(a: seq<real>, b: seq<real>, sign: real, floor: real)
    requires Mirrored(a, b)
    ensures Agreeing(b, -sign, floor) == Agreeing(a, sign, floor)
    ensures Opposing(b, -sign, floor) == Opposing(a, sign, floor)
    ensures LargestAbs(b) == LargestAbs(a)
  {
    if |a| != 0 {
      CountsMirror(a[..|a| - 1], b[..|b| - 1], sign, floor);
    }
  }

  lemma GateVerdictMirror(
      sign: real, y: seq<Option<real>>, y': seq<Option<real>>, r: seq<Option<real>>, r': seq<Option<real>>,
      h: seq<real>, h': seq<real>)
    requires Negated(y, y') && Negated(r, r') && Mirrored(h, h')
    ensures GateVerdict(-sign, y', r', h') == GateVerdict(sign, y, r, h)
  {
    PresentNegate(y, y');
    PresentNegate(r, r');
    CountsMirror(Present(y), Present(y'), sign, 0.005);
    CountsMirror(Present(r), Present(r'), sign, 0.005);
    CountsMirror(Present(r), Present(r'), sign, 0.02);
    CountsMirror(Present(r), Present(r'), sign, 0.03);
    CountsMirror(h, h', sign, 0.0);
    if |Present(y)| > 0 {
      forall i | 0 <= i < |Present(y)|
        ensures Present(y')[i] == Times(-1.0, Present(y)[i]) + 0.0
      {
        MinusOne(Present(y)[i]);
      }
      MeanNegate(Present(y), Present(y'));
    }
  }

  lemma GateInputsNegate(best: Series, p: Protocol)
    ensures Negated(YearICs(best, p), YearICs(NegateSeries(best), p))
    ensures Negated(RegimeICs(best, p), RegimeICs(NegateSeries(best), p))
  {
    forall i | 0 <= i < |p.gateYears| {
      SubsetMeanNegate(best, d => p.yearOf(d) == p.gateYears[i]);
    }
    SubsetMeanNegate(best, d => p.regimeOf(d) == Some(Bull));
    SubsetMeanNegate(best, d => p.regimeOf(d) == Some(Sideways));
    SubsetMeanNegate(best, d => p.regimeOf(d) == Some(Bear));
  }

  lemma HorizonICsNegate(all: seq<Series>, p: Protocol)
    requires p.Valid()
    ensures Mirrored(HorizonICs(all, p), HorizonICs(NegateEach(all), p))
  {
    forall i | 0 <= i < |all| {
      StatsNegate(all[i], p.root);
    }
  }

  /**
   * A factor and its negation get the same verdict and opposite orientations
   * if and only if the best series' mean is not exactly zero.
   */
  lemma JudgmentNegates(all: seq<Series>, p: Protocol)
    requires p.Valid() && |Best(all, p.root).1| > 0
    ensures Judgment(NegateEach(all), p) == (Judgment(all, p).0, -Judgment(all, p).1)
       <==> Mean(Values(Best(all, p.root).1)) != 0.0
  {
    hide Best, GateVerdict, YearICs, RegimeICs, HorizonICs, Orientation;
    var best := Best(all, p.root).1;
    BestNegate(all, p.root);
    OrientationFlipsIffMeanNonzero(best);
    if Mean(Values(best)) != 0.0 {
      GateInputsNegate(best, p);
      HorizonICsNegate(all, p);
      GateVerdictMirror(Orientation(best), YearICs(best, p), YearICs(NegateSeries(best), p),
        RegimeICs(best, p), RegimeICs(NegateSeries(best), p), HorizonICs(all, p), HorizonICs(NegateEach(all), p));
    }
  }

  /** A factor whose best series is empty cannot be computed, and neither can its negation. */
  lemma EmptyBestNegates(all: seq<Series>, p: Protocol)
    requires p.Valid() && |Best(all, p.root).1| == 0
    ensures Judgment(NegateEach(all), p) == Judgment(all, p) == (NotComputable, 1.0)
  {
    BestNegate(all, p.root);
  }

  /** Orientation is +1 for a zero mean, so it flips under negation exactly when the mean is not zero. */
  lemma OrientationFlipsIffMeanNonzero(best: Series)
    requires |best| > 0
    ensures Orientation(NegateSeries(best)) == -Orientation(best) <==> Mean(Values(best)) != 0.0
  {
    ValuesNegate(best);
    MeanNegate(Values(best), Values(NegateSeries(best)));
  }

  // ----- a best series with mean zero

  /** The gate years and regimes carry one of the two upper verdicts for this orientation. */
  predicate PassesGates(sign: real, years: seq<Option<real>>, regimes: seq<Option<real>>) {
    var ys, rs := Present(years), Present(regimes);
    && |ys| >= |years| && |ys| > 0 && Agreeing(ys, sign, 0.005) == |ys| && Abs(Mean(ys)) >= 0.015
    && (Agreeing(rs, sign, 0.005) == 3 || (Agreeing(rs, sign, 0.005) >= 2 && Opposing(rs, sign, 0.02) == 0))
  }

  /** Some regime points this way with at least 0.03. */
  predicate HasSpecialist(sign: real, regimes: seq<Option<real>>) {
    Agreeing(Present(regimes), sign, 0.03) > 0
  }

  lemma GateVerdictByParts(sign: real, years: seq<Option<real>>, regimes: seq<Option<real>>, horizonICs: seq<real>)
    ensures PassesGates(sign, years, regimes) <==>
      GateVerdict(sign, years, regimes, horizonICs) in {AllWeather, Robust4y}
    ensures !PassesGates(sign, years, regimes) ==>
      (GateVerdict(sign, years, regimes, horizonICs) ==
        if HasSpecialist(sign, regimes) && LargestAbs(horizonICs) >= 0.02 then RegimeSpecialist
        else if LargestAbs(horizonICs) >= 0.005 then Weak
        else Dead)
  {
    hide Present, Agreeing, Opposing, LargestAbs, Mean;
  }

  /** The gate years cannot point both ways. */
  lemma GatesPassOneWay(years: seq<Option<real>>, regimes: seq<Option<real>>)
    ensures !(PassesGates(1.0, years, regimes) && PassesGates(-1.0, years, regimes))
  {
    hide Mean, Opposing;
    var ys := Present(years);
    if |ys| > 0 {
      AgreeingBound(ys[..|ys| - 1], 1.0, 0.005);
      AgreeingBound(ys[..|ys| - 1], -1.0, 0.005);
    }
  }

  lemma {:induction false} AgreeingBound(xs: seq<real>, sign: real, floor: real)
    ensures Agreeing(xs, sign, floor) <= |xs|
  {
    if |xs| != 0 {
      AgreeingBound(xs[..|xs| - 1], sign, floor);
    }
  }

  /**
   * With a zero best mean both a factor and its negation are oriented +1. Their verdicts are then the same if and only
   * if the gates pass in neither direction and either no horizon reaches 0.02 or a regime of at least 0.03 exists in
   * both directions or in neither.
   */
  lemma ZeroMeanVerdictSurvivesIff(all: seq<Series>, p: Protocol)
    requires p.Valid() && |Best(all, p.root).1| > 0 && Mean(Values(Best(all, p.root).1)) == 0.0
    ensures
      var best := Best(all, p.root).1;
      var years, regimes := YearICs(best, p), RegimeICs(best, p);
      Judgment(NegateEach(all), p).0 == Judgment(all, p).0 <==>
        && !PassesGates(1.0, years, regimes) && !PassesGates(-1.0, years, regimes)
        && (LargestAbs(HorizonICs(all, p)) < 0.02
            || (HasSpecialist(1.0, regimes) <==> HasSpecialist(-1.0, regimes)))
  {
    hide Best, GateVerdict, YearICs, RegimeICs, HorizonICs, PassesGates, HasSpecialist, LargestAbs;
    var best := Best(all, p.root).1;
    var years, regimes, ics := YearICs(best, p), RegimeICs(best, p), HorizonICs(all, p);
    NegationSeenFromFactor(all, p);
    GateVerdictByParts(1.0, years, regimes, ics);
    GateVerdictByParts(-1.0, years, regimes, ics);
    GatesPassOneWay(years, regimes);
  }

  /** With a zero best mean, judging the negation is judging the factor itself with orientation -1. */
  lemma NegationSeenFromFactor(all: seq<Series>, p: Protocol)
    requires p.Valid() && |Best(all, p.root).1| > 0 && Mean(Values(Best(all, p.root).1)) == 0.0
    ensures
      var best := Best(all, p.root).1;
      && Judgment(all, p).0 == GateVerdict(1.0, YearICs(best, p), RegimeICs(best, p), HorizonICs(all, p))
      && Judgment(NegateEach(all), p).0
        == GateVerdict(-1.0, YearICs(best, p), RegimeICs(best, p), HorizonICs(all, p))
  {
    hide Best, GateVerdict, YearICs, RegimeICs, HorizonICs;
    var best := Best(all, p.root).1;
    BestNegate(all, p.root);
    ValuesNegate(best);
    MeanNegate(Values(best), Values(NegateSeries(best)));
    GateInputsNegate(best, p);
    HorizonICsNegate(all, p);
    GateVerdictMirror(-1.0, YearICs(best, p), YearICs(NegateSeries(best), p),
      RegimeICs(best, p), RegimeICs(NegateSeries(best), p), HorizonICs(all, p), HorizonICs(NegateEach(all), p));
  }

  // ----- an input on which they differ

  /** The first n of 80 days: 20 bull days with an IC of 0.03, then 60 sideways days with an IC of -0.01. */
  function Balanced(n: nat): (s: Series)
    ensures |s| == n
    ensures forall d :: 0 <= d < n ==> s[d] == (d, if d < 20 then 0.03 else -0.01)
  {
    seq(n, d => (d, if d < 20 then 0.03 else -0.01))
  }

  /** All days lie in one year; four gate years are asked for. */
  function BalancedProtocol(root: real -> real, round: real -> real): Protocol {
    Protocol(root, round, d => 2026, d => Some(if d < 20 then Bull else Sideways), [2022, 2023, 2024, 2025])
  }

  lemma {:induction false} BalancedSum(n: nat)
    ensures Sum(Values(Balanced(n))) == if n <= 20 then 0.03 * n as real else 0.6 - 0.01 * (n - 20) as real
  {
    if n > 0 {
      BalancedSum(n - 1);
      assert Values(Balanced(n))[..n - 1] == Values(Balanced(n - 1));
    }
  }

  /** The ICs of the days from `from` up to but excluding `to`. */
  lemma {:induction false} BalancedSubset(n: nat, keep: int -> bool, from: nat, to: nat, ic: real)
    requires from <= to && ((ic == 0.03 && to <= 20) || (ic == -0.01 && from >= 20))
    requires forall d :: 0 <= d < n ==> (keep(d) <==> from <= d < to)
    ensures |Subset(Balanced(n), keep)| == if n <= from then 0 else if n <= to then n - from else to - from
    ensures forall i :: 0 <= i < |Subset(Balanced(n), keep)| ==> Subset(Balanced(n), keep)[i] == ic
  {
    if n > 0 {
      BalancedSubset(n - 1, keep, from, to, ic);
      assert Balanced(n)[..n - 1] == Balanced(n - 1);
    }
  }

  lemma {:induction false} ConstantSum(x: seq<real>, c: real)
    requires forall i :: 0 <= i < |x| ==> x[i] == c
    ensures Sum(x) == Times(c, |x| as real)
  {
    if |x| == 0 {
      TimesUnit(c, 0.0);
    } else {
      var n := |x| - 1;
      ConstantSum(x[..n], c);
      TimesSum(c, n as real, 1.0);
      TimesUnit(1.0, c);
      TimesUnit(c, 1.0);
    }
  }

  lemma ConstantMean(x: seq<real>, c: real)
    requires |x| > 0 && forall i :: 0 <= i < |x| ==> x[i] == c
    ensures Mean(x) == c
  {
    ConstantSum(x, c);
    CancelCount(c, |x| as real);
  }

  lemma CancelCount(c: real, n: real)
    requires n > 0.0
    ensures Times(c, n) / n == c
  {
  }

  lemma BalancedMean(keep: int -> bool, from: nat, to: nat, ic: real)
    requires from + MIN_DAYS <= to <= 80 && ((ic == 0.03 && to <= 20) || (ic == -0.01 && from >= 20))
    requires forall d :: 0 <= d < 80 ==> (keep(d) <==> from <= d < to)
    ensures SubsetMean(Balanced(80), keep) == Some(ic)
  {
    BalancedSubset(80, keep, from, to, ic);
    ConstantMean(Subset(Balanced(80), keep), ic);
  }

  lemma BalancedRegimeICs(root: real -> real, round: real -> real)
    ensures RegimeICs(Balanced(80), BalancedProtocol(root, round)) == [Some(0.03), Some(-0.01), None]
  {
    var p := BalancedProtocol(root, round);
    BalancedMean(d => p.regimeOf(d) == Some(Bull), 0, 20, 0.03);
    BalancedMean(d => p.regimeOf(d) == Some(Sideways), 20, 80, -0.01);
    BalancedSubset(80, d => p.regimeOf(d) == Some(Bear), 80, 80, -0.01);
  }

  lemma BalancedYearICs(root: real -> real, round: real -> real)
    ensures |Present(YearICs(Balanced(80), BalancedProtocol(root, round)))| < 4
  {
    var p := BalancedProtocol(root, round);
    var years := YearICs(Balanced(80), p);
    forall i | 0 <= i < 4
      ensures years[i] == None
    {
      BalancedSubset(80, d => p.yearOf(d) == p.gateYears[i], 80, 80, -0.01);
    }
    NothingPresent(years);
  }

  lemma {:induction false} NothingPresent(ics: seq<Option<real>>)
    requires forall i :: 0 <= i < |ics| ==> ics[i].None?
    ensures Present(ics) == []
  {
    if |ics| != 0 {
      NothingPresent(ics[..|ics| - 1]);
    }
  }

  /** A zero mean or a single day has no information ratio. */
  lemma NoRatio(s: Series, root: real -> real)
    requires IsRoot(root) && |s| > 0 && (|s| == 1 || Mean(Values(s)) == 0.0)
    ensures Stats(s, root) == (Mean(Values(s)), 0.0)
  {
    if |s| == 1 {
      OnePointSpread(Values(s));
      RootOfZero(root);
    }
  }

  lemma OnePointSpread(x: seq<real>)
    requires |x| == 1
    ensures Mean(x) == x[0] && CoMoment(x, x) == 0.0
  {
    ConstantMean(x, x[0]);
    DotAppend([], [], Centred(x)[0], Centred(x)[0]);
    assert [] + [Centred(x)[0]] == Centred(x);
    TimesUnit(0.0, 0.0);
  }

  lemma RootOfZero(root: real -> real)
    requires IsRoot(root)
    ensures root(0.0) == 0.0
  {
    assert Times(root(0.0), root(0.0)) == 0.0;
    SquareSign(root(0.0));
  }

  /** Three horizons: two with a single day of IC 0.02, and a last one whose 80 days balance to zero. */
  function ThreeHorizons(): seq<Series> {
    [[(0, 0.02)], [(0, 0.02)], Balanced(80)]
  }

  lemma BalancedIsBest(root: real -> real, round: real -> real)
    requires IsRoot(root) && round(0.02) == 0.02
    ensures Mean(Values(Balanced(80))) == 0.0
    ensures Best(ThreeHorizons(), root) == (0.0, Balanced(80))
    ensures HorizonICs(ThreeHorizons(), BalancedProtocol(root, round)) == [0.02, 0.02, round(0.0)]
  {
    hide Stats;
    var all := ThreeHorizons();
    BalancedSum(80);
    NoRatio(Balanced(80), root);
    NoRatio([(0, 0.02)], root);
    OnePointSpread(Values([(0, 0.02)]));
    BestStep([], all[0], root);
    BestStep([all[0]], all[1], root);
    BestStep([all[0], all[1]], all[2], root);
    assert [] + [all[0]] == [all[0]] && [all[0]] + [all[1]] == [all[0], all[1]];
    assert [all[0], all[1]] + [all[2]] == all;
  }

  /**
   * Three series, with a best mean of zero, on which a factor and its negation are judged differently.
   */
  lemma ZeroMeanVerdictsDiffer(root: real -> real, round: real -> real)
    requires IsRoot(root) && (forall x :: round(-x) == -round(x)) && round(0.02) == 0.02
    ensures
      var p := BalancedProtocol(root, round);
      && p.Valid()
      && Best(ThreeHorizons(), root).1 == Balanced(80) && Mean(Values(Balanced(80))) == 0.0
      && Judgment(ThreeHorizons(), p).0 == RegimeSpecialist
      && Judgment(NegateEach(ThreeHorizons()), p).0 == Weak
  {
    hide GateVerdict, YearICs, RegimeICs, HorizonICs, Best, Present, Agreeing, LargestAbs, Values, Mean;
    var all, p := ThreeHorizons(), BalancedProtocol(root, round);
    BalancedIsBest(root, round);
    BalancedRegimeICs(root, round);
    BalancedYearICs(root, round);
    var years, regimes, ics := YearICs(Balanced(80), p), RegimeICs(Balanced(80), p), HorizonICs(all, p);
    NegationSeenFromFactor(all, p);
    GateVerdictByParts(1.0, years, regimes, ics);
    GateVerdictByParts(-1.0, years, regimes, ics);
    TwoPresent(0.03, -0.01);
    TwoAgreeing(0.03, -0.01, 1.0, 0.03);
    TwoAgreeing(0.03, -0.01, -1.0, 0.03);
    assert round(-0.0) == -round(0.0);
    LargestOfThree(0.02, round(0.0));
  }

  lemma LargestAppend(xs: seq<real>, x: real)
    ensures LargestAbs(xs + [x]) == if Abs(x) > LargestAbs(xs) then Abs(x) else LargestAbs(xs)
  {
    assert (xs + [x])[..|xs|] == xs;
  }

  lemma LargestOfThree(a: real, b: real)
    requires a > 0.0 && b == 0.0
    ensures LargestAbs([a, a, b]) == a
  {
    LargestAppend([], a);
    LargestAppend([a], a);
    LargestAppend([a, a], b);
    assert [] + [a] == [a] && [a] + [a] == [a, a] && [a, a] + [b] == [a, a, b];
  }

  lemma PresentAppend(ics: seq<Option<real>>, x: Option<real>)
    ensures Present(ics + [x]) == if x.Some? then Present(ics) + [x.value] else Present(ics)
  {
    assert (ics + [x])[..|ics|] == ics;
  }

  lemma TwoPresent(a: real, b: real)
    ensures Present([Some(a), Some(b), None]) == [a, b]
  {
    PresentAppend([], Some(a));
    PresentAppend([Some(a)], Some(b));
    PresentAppend([Some(a), Some(b)], None);
    hide Present;
    NothingPresent([]);
    assert [] + [Some(a)] == [Some(a)] && [Some(a)] + [Some(b)] == [Some(a), Some(b)];
    assert [Some(a), Some(b)] + [None] == [Some(a), Some(b), None];
  }

  lemma AgreeingAppend(xs: seq<real>, x: real, sign: real, floor: real)
    ensures Agreeing(xs + [x], sign, floor)
         == Agreeing(xs, sign, floor) + if Sign(x) == sign && Abs(x) >= floor then 1 else 0
  {
    assert (xs + [x])[..|xs|] == xs;
  }

  lemma TwoAgreeing(a: real, b: real, sign: real, floor: real)
    ensures Agreeing([a, b], sign, floor) ==
      (if Sign(a) == sign && Abs(a) >= floor then 1 else 0) + (if Sign(b) == sign && Abs(b) >= floor then 1 else 0)
  {
    AgreeingAppend([], a, sign, floor);
    AgreeingAppend([a], b, sign, floor);
    assert [] + [a] == [a] && [a] + [b] == [a, b];
  }

  /** End to end: the engine's verdict on a factor is its verdict on the negated factor. */
  lemma NegatedFactorSameVerdict(
      dates: seq<int>, values: seq<Num>, labels: map<int, seq<Num>>, eligible: seq<bool>, horizons: seq<int>,
      p: Protocol)
    requires |dates| == |values| == |eligible| && p.Valid()
    requires forall i :: 0 <= i < |horizons| ==> horizons[i] in labels && |labels[horizons[i]]| == |dates|
    requires var best := Best(AllSeries(dates, values, labels, eligible, horizons, p.root), p.root).1;
      |best| > 0 ==> Mean(Values(best)) != 0.0
    ensures Judgment(AllSeries(dates, NegateAll(values), labels, eligible, horizons, p.root), p).0
         == Judgment(AllSeries(dates, values, labels, eligible, horizons, p.root), p).0
  {
    var all := AllSeries(dates, values, labels, eligible, horizons, p.root);
    var neg := AllSeries(dates, NegateAll(values), labels, eligible, horizons, p.root);
    forall i | 0 <= i < |all|
      ensures neg[i] == NegateSeries(all[i])
    {
      NegatedFactorNegatesICs(dates, values, labels[horizons[i]], eligible, p.root);
    }
    assert neg == NegateEach(all);
    if |Best(all, p.root).1| > 0 {
      JudgmentNegates(all, p);
    } else {
      EmptyBestNegates(all, p);
    }
  }
}
