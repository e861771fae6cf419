/** What a verdict says about the factor: its direction, and the years, regimes and horizons that carry it. */
module VerdictRules {
  import opened Options
  import opened Vectors
  import opened FactorJudgment
  import opened FactorVerdict

  /** The value as seen in the factor's direction. */
  function Along(x: real, sign: real): real {
    if sign == 1.0 then x else -x
  }

  /** A period is present and goes the factor's way by at least this much. */
  predicate Carries(ic: Option<real>, sign: real, floor: real) {
    ic.Some? && Along(ic.value, sign) >= floor
  }

  /** A period is present and goes the other way by at least this much. */
  predicate Contradicts(ic: Option<real>, sign: real, floor: real) {
    ic.Some? && Along(ic.value, sign) <= -floor
  }

  // ----- a period's IC

  /** The positions of the kept days, in order. */
  function KeptDays(daily: Series, keep: int -> bool): (at: seq<nat>)
    ensures forall k :: 0 <= k < |at| ==> at[k] < |daily|
    ensures forall i: nat :: i in at <==> i < |daily| && keep(daily[i].0)
  {
    if |daily| == 0 then []
    else
      var n := |daily| - 1;
      var before := KeptDays(daily[..n], keep);
      if keep(daily[n].0) then before + [n] else before
  }

  /** The kept days are listed in order, and no other. */
  lemma {:induction false} SubsetIs(daily: Series, keep: int -> bool)
    ensures |Subset(daily, keep)| == |KeptDays(daily, keep)|
    ensures forall k :: 0 <= k < |KeptDays(daily, keep)| ==>
      Subset(daily, keep)[k] == daily[KeptDays(daily, keep)[k]].1
    ensures forall k, l :: 0 <= k < l < |KeptDays(daily, keep)| ==>
      KeptDays(daily, keep)[k] < KeptDays(daily, keep)[l]
  {
    if |daily| != 0 {
      SubsetIs(daily[..|daily| - 1], keep);
    }
  }

  /** A period has an IC exactly when 20 of its days have one, and then it is their average. */
  lemma SubsetMeanIs(daily: Series, keep: int -> bool)
    ensures SubsetMean(daily, keep).Some? <==> |Subset(daily, keep)| >= 20
    ensures SubsetMean(daily, keep).Some? ==>
      Times(SubsetMean(daily, keep).value, |Subset(daily, keep)| as real) == Sum(Subset(daily, keep))
  {
    hide Sum;
    if |Subset(daily, keep)| >= 20 {
      MeanTimesCount(Subset(daily, keep));
      TimesUnit(Mean(Subset(daily, keep)), |Subset(daily, keep)| as real);
    }
  }

  lemma PeriodsAre(best: Series, p: Protocol, i: nat)
    requires i < |p.gateYears|
    ensures YearICs(best, p)[i] == SubsetMean(best, d => p.yearOf(d) == p.gateYears[i])
    ensures |RegimeICs(best, p)| == 3
    ensures RegimeICs(best, p)[0] == SubsetMean(best, d => p.regimeOf(d) == Some(Bull))
    ensures RegimeICs(best, p)[1] == SubsetMean(best, d => p.regimeOf(d) == Some(Sideways))
    ensures RegimeICs(best, p)[2] == SubsetMean(best, d => p.regimeOf(d) == Some(Bear))
  {
  }

  // ----- the best horizon

  /** A series' mean, and its mean over its deviation unless that is no more than 1e-12. */
  lemma StatsAre(s: Series, root: real -> real)
    requires |s| > 0 && IsRoot(root)
    ensures Times(Stats(s, root).0, |s| as real) == Sum(Values(s))
    ensures
      var sd := root(CoMoment(Values(s), Values(s)) / |s| as real);
      && sd >= 0.0 && Times(Times(sd, sd), |s| as real) == CoMoment(Values(s), Values(s))
      && (sd > 0.000000000001 ==> Times(Stats(s, root).1, sd) == Stats(s, root).0)
      && (sd <= 0.000000000001 ==> Stats(s, root).1 == 0.0)
  {
    var x, n := Values(s), |s| as real;
    MeanTimesCount(x);
    TimesUnit(Mean(x), n);
    SelfDotNonNegative(Centred(x));
    var v := CoMoment(x, x) / n;
    hide CoMoment, Sum, Mean;
    QuotientTimes(CoMoment(x, x), n);
    assert v >= 0.0;
    assert Times(root(v), root(v)) == v;
    hide IsRoot;
    if root(v) > 0.000000000001 {
      QuotientTimes(Mean(x), root(v));
    }
  }

  lemma QuotientTimes(a: real, b: real)
    requires b > 0.0
    ensures Times(a / b, b) == a
    ensures a >= 0.0 ==> a / b >= 0.0
  {
  }

  /** The best series has the largest absolute ratio, strictly above every later one. */
  lemma {:induction false} BestIs(all: seq<Series>, root: real -> real) returns (k: nat)
    requires all != []
    ensures k < |all| && Best(all, root) == (Stats(all[k], root).1, all[k])
    ensures forall j :: 0 <= j < |all| ==> Abs(Stats(all[j], root).1) <= Abs(Stats(all[k], root).1)
    ensures forall j :: k < j < |all| ==> Abs(Stats(all[j], root).1) < Abs(Stats(all[k], root).1)
  {
    hide Stats, Best;
    var n := |all| - 1;
    BestStep(all[..n], all[n], root);
    assert all == all[..n] + [all[n]];
    if n == 0 {
      NegateNothing(root);
      k := 0;
    } else {
      var before := BestIs(all[..n], root);
      k := if Abs(Stats(all[n], root).1) >= Abs(Best(all[..n], root).0) then n else before;
    }
  }

  lemma AbsMeans(x: real)
    ensures Abs(x) >= 0.0 && (Abs(x) == x || Abs(x) == -x)
  {
  }

  /** The direction is +1 for a mean of zero or more and -1 below, so the best mean never points against it. */
  lemma OrientationMeans(best: Series)
    requires |best| > 0
    ensures Mean(Values(best)) >= 0.0 ==> Orientation(best) == 1.0
    ensures Mean(Values(best)) < 0.0 ==> Orientation(best) == -1.0
    ensures Along(Mean(Values(best)), Orientation(best)) >= 0.0
  {
    hide Mean;
  }

  // ----- the gates

  lemma SignAgrees(x: real, sign: real, floor: real)
    requires (sign == 1.0 || sign == -1.0) && floor > 0.0
    ensures Sign(x) == sign && Abs(x) >= floor <==> Along(x, sign) >= floor
    ensures Sign(x) != sign && Abs(x) >= floor <==> Along(x, sign) <= -floor
  {
  }

  lemma {:induction false} AllAgree(xs: seq<real>, sign: real, floor: real)
    requires (sign == 1.0 || sign == -1.0) && floor > 0.0
    ensures Agreeing(xs, sign, floor) <= |xs|
    ensures Agreeing(xs, sign, floor) == |xs| <==> forall i :: 0 <= i < |xs| ==> Along(xs[i], sign) >= floor
  {
    hide Along, Sign, Abs;
    if |xs| != 0 {
      var n := |xs| - 1;
      AllAgree(xs[..n], sign, floor);
      SignAgrees(xs[n], sign, floor);
    }
  }

  lemma {:induction false} AllPresent(ics: seq<Option<real>>)
    ensures |Present(ics)| <= |ics|
    ensures |Present(ics)| == |ics| <==> forall i :: 0 <= i < |ics| ==> ics[i].Some?
    ensures |Present(ics)| == |ics| ==> forall i :: 0 <= i < |ics| ==> ics[i] == Some(Present(ics)[i])
  {
    if |ics| != 0 {
      var n := |ics| - 1;
      AllPresent(ics[..n]);
    }
  }

  /** Every gate year has an IC that carries the factor, and their average is at least 0.015 in size. */
  ghost predicate YearsCarry(years: seq<Option<real>>, sign: real) {
    && |years| > 0 && |Present(years)| > 0
    && (forall i :: 0 <= i < |years| ==> Carries(years[i], sign, 0.005))
    && Abs(Mean(Present(years))) >= 0.015
  }

  lemma YearGate(years: seq<Option<real>>, sign: real)
    requires sign == 1.0 || sign == -1.0
    ensures
      var ys := Present(years);
      YearsCarry(years, sign) <==>
        |ys| >= |years| && Agreeing(ys, sign, 0.005) == |ys| && |ys| > 0 && Abs(Mean(ys)) >= 0.015
  {
    hide Mean, Agreeing, Present, Abs;
    AllPresent(years);
    AllAgree(Present(years), sign, 0.005);
  }

  lemma PresentAppend(ics: seq<Option<real>>, x: Option<real>)
    ensures Present(ics + [x]) == Present(ics) + if x.Some? then [x.value] else []
  {
    assert (ics + [x])[..|ics|] == ics;
    assert Present(ics) + [] == Present(ics);
  }

  lemma AgreeingAppend(xs: seq<real>, x: real, sign: real, floor: real)
    requires (sign == 1.0 || sign == -1.0) && floor > 0.0
    ensures Agreeing(xs + [x], sign, floor) == Agreeing(xs, sign, floor) + if Along(x, sign) >= floor then 1 else 0
    ensures Opposing(xs + [x], sign, floor) == Opposing(xs, sign, floor) + if Along(x, sign) <= -floor then 1 else 0
  {
    assert (xs + [x])[..|xs|] == xs;
    SignAgrees(x, sign, floor);
  }

  lemma CountsAppend(ics: seq<Option<real>>, x: Option<real>, sign: real, floor: real)
    requires (sign == 1.0 || sign == -1.0) && floor > 0.0
    ensures Agreeing(Present(ics + [x]), sign, floor)
         == Agreeing(Present(ics), sign, floor) + if Carries(x, sign, floor) then 1 else 0
    ensures Opposing(Present(ics + [x]), sign, floor)
         == Opposing(Present(ics), sign, floor) + if Contradicts(x, sign, floor) then 1 else 0
  {
    hide Agreeing, Opposing, Present, Along;
    PresentAppend(ics, x);
    if x.Some? {
      AgreeingAppend(Present(ics), x.value, sign, floor);
    } else {
      assert Present(ics) + [] == Present(ics);
    }
  }

  /** Of three regimes, how many carry the factor and how many contradict it. */
  lemma ThreeCounts(a: Option<real>, b: Option<real>, c: Option<real>, sign: real, floor: real)
    requires (sign == 1.0 || sign == -1.0) && floor > 0.0
    ensures
      var rs := Present([a, b, c]);
      && Agreeing(rs, sign, floor) == (if Carries(a, sign, floor) then 1 else 0)
        + (if Carries(b, sign, floor) then 1 else 0) + (if Carries(c, sign, floor) then 1 else 0)
      && Opposing(rs, sign, floor) == (if Contradicts(a, sign, floor) then 1 else 0)
        + (if Contradicts(b, sign, floor) then 1 else 0) + (if Contradicts(c, sign, floor) then 1 else 0)
  {
    hide Agreeing, Opposing, Present, Carries, Contradicts;
    CountsAppend([], a, sign, floor);
    CountsAppend([a], b, sign, floor);
    CountsAppend([a, b], c, sign, floor);
    NothingCounts(sign, floor);
    assert [] + [a] == [a] && [a] + [b] == [a, b] && [a, b] + [c] == [a, b, c];
  }

  lemma NothingCounts(sign: real, floor: real)
    ensures Agreeing(Present([]), sign, floor) == 0 && Opposing(Present([]), sign, floor) == 0
  {
  }

  lemma {:induction false} LargestIs(xs: seq<real>, floor: real)
    requires floor > 0.0
    ensures LargestAbs(xs) >= floor <==> exists i :: 0 <= i < |xs| && Abs(xs[i]) >= floor
    ensures LargestAbs(xs) >= 0.0
  {
    hide Abs;
    if |xs| != 0 {
      var n := |xs| - 1;
      LargestIs(xs[..n], floor);
      AbsMeans(xs[n]);
      if i :| 0 <= i < n && Abs(xs[..n][i]) >= floor {
        assert Abs(xs[i]) >= floor;
      }
      if i :| 0 <= i < |xs| && Abs(xs[i]) >= floor {
        assert i < n ==> Abs(xs[..n][i]) >= floor;
      }
    }
  }

  /** How many of the three regimes carry the factor by at least this much. */
  function Carrying(regimes: seq<Option<real>>, sign: real, floor: real): nat
    requires |regimes| == 3
  {
    (if Carries(regimes[0], sign, floor) then 1 else 0) + (if Carries(regimes[1], sign, floor) then 1 else 0)
    + (if Carries(regimes[2], sign, floor) then 1 else 0)
  }

  ghost predicate SomeHorizon(horizonICs: seq<real>, floor: real) {
    exists i :: 0 <= i < |horizonICs| && Abs(horizonICs[i]) >= floor
  }

  /** Some regime goes the other way by at least 0.02. */
  predicate Contested(regimes: seq<Option<real>>, sign: real)
    requires |regimes| == 3
  {
    Contradicts(regimes[0], sign, 0.02) || Contradicts(regimes[1], sign, 0.02) || Contradicts(regimes[2], sign, 0.02)
  }

  /** Every verdict, from the years, the three regimes and the horizons one by one. */
  lemma VerdictIff(sign: real, years: seq<Option<real>>, regimes: seq<Option<real>>, horizonICs: seq<real>)
    requires (sign == 1.0 || sign == -1.0) && |regimes| == 3
    ensures
      var v := GateVerdict(sign, years, regimes, horizonICs);
      var carried := YearsCarry(years, sign);
      var upper := carried && (Carrying(regimes, sign, 0.005) == 3
        || (Carrying(regimes, sign, 0.005) == 2 && !Contested(regimes, sign)));
      var specialist := Carrying(regimes, sign, 0.03) > 0 && SomeHorizon(horizonICs, 0.02);
      && (v == AllWeather <==> carried && Carrying(regimes, sign, 0.005) == 3)
      && (v == Robust4y <==> carried && Carrying(regimes, sign, 0.005) == 2 && !Contested(regimes, sign))
      && (v == RegimeSpecialist <==> !upper && specialist)
      && (v == Weak <==> !upper && !specialist && SomeHorizon(horizonICs, 0.005))
      && (v == Dead <==> !upper && !specialist && !SomeHorizon(horizonICs, 0.005))
  {
    hide Present, Agreeing, Opposing, LargestAbs, Mean, Carries, Contradicts, Abs;
    assert regimes == [regimes[0], regimes[1], regimes[2]];
    YearGate(years, sign);
    YearsAreSome(years, sign);
    ThreeCounts(regimes[0], regimes[1], regimes[2], sign, 0.005);
    ThreeCounts(regimes[0], regimes[1], regimes[2], sign, 0.02);
    ThreeCounts(regimes[0], regimes[1], regimes[2], sign, 0.03);
    LargestIs(horizonICs, 0.02);
    LargestIs(horizonICs, 0.005);
  }

  lemma YearsAreSome(years: seq<Option<real>>, sign: real)
    ensures YearsCarry(years, sign) ==> |Present(years)| > 0
  {
    hide Mean, Abs;
    AllPresent(years);
  }

  // ----- the judgment

  /**
   * The judgment of a set of horizons, read off the best one. The factor's direction is that of the best mean; the two
   * upper verdicts need every gate year in that direction, and each lower one needs what its name says.
   */
  lemma JudgmentIff(all: seq<Series>, p: Protocol)
    requires p.Valid()
    ensures
      var best, (v, sign) := Best(all, p.root).1, Judgment(all, p);
      && (v == NotComputable <==> best == [])
      && (best == [] ==> sign == 1.0)
      && (best != [] ==> (sign == 1.0 <==> Mean(Values(best)) >= 0.0) && (sign == -1.0 <==> Mean(Values(best)) < 0.0))
      && (best != [] ==>
            var years, regimes, ics := YearICs(best, p), RegimeICs(best, p), HorizonICs(all, p);
            var carried := YearsCarry(years, sign);
            var upper := carried && (Carrying(regimes, sign, 0.005) == 3
              || (Carrying(regimes, sign, 0.005) == 2 && !Contested(regimes, sign)));
            var specialist := Carrying(regimes, sign, 0.03) > 0 && SomeHorizon(ics, 0.02);
            && (v == AllWeather <==> carried && Carrying(regimes, sign, 0.005) == 3)
            && (v == Robust4y <==> carried && Carrying(regimes, sign, 0.005) == 2 && !Contested(regimes, sign))
            && (v == RegimeSpecialist <==> !upper && specialist)
            && (v == Weak <==> !upper && !specialist && SomeHorizon(ics, 0.005))
            && (v == Dead <==> !upper && !specialist && !SomeHorizon(ics, 0.005)))
  {
    hide GateVerdict, YearICs, HorizonICs, Best, Orientation, Mean, YearsCarry, Carrying, Contested, SomeHorizon;
    var best := Best(all, p.root).1;
    if best != [] {
      OrientationMeans(best);
      VerdictIff(Orientation(best), YearICs(best, p), RegimeICs(best, p), HorizonICs(all, p));
    }
  }

  // ----- a factor that works every day

  /** The days from 0 on, each with the same IC. */
  function Steady(n: nat, ic: real): (s: Series)
    ensures |s| == n && forall d :: 0 <= d < n ==> s[d] == (d, ic)
  {
    seq(n, d => (d, ic))
  }

  /** Four years of 60 days, the first 80 days bull, the next 80 sideways, the last 80 bear. */
  function FourYears(root: real -> real, round: real -> real): Protocol {
    Protocol(root, round, d => if d < 60 then 2022 else if d < 120 then 2023 else if d < 180 then 2024 else 2025,
             d => Some(if d < 80 then Bull else if d < 160 then Sideways else Bear), [2022, 2023, 2024, 2025])
  }

  lemma {:induction false} SteadySubset(n: nat, ic: real, keep: int -> bool, from: nat, to: nat)
    requires from <= to && forall d :: 0 <= d < n ==> (keep(d) <==> from <= d < to)
    ensures |Subset(Steady(n, ic), keep)| == if n <= from then 0 else if n <= to then n - from else to - from
    ensures forall i :: 0 <= i < |Subset(Steady(n, ic), keep)| ==> Subset(Steady(n, ic), keep)[i] == ic
  {
    if n > 0 {
      SteadySubset(n - 1, ic, keep, from, to);
      assert Steady(n, ic)[..n - 1] == Steady(n - 1, ic);
    }
  }

  lemma SteadyMean(ic: real, keep: int -> bool, from: nat, to: nat)
    requires from + 20 <= to <= 240 && forall d :: 0 <= d < 240 ==> (keep(d) <==> from <= d < to)
    ensures SubsetMean(Steady(240, ic), keep) == Some(ic)
  {
    SteadySubset(240, ic, keep, from, to);
    ConstantMean(Subset(Steady(240, ic), keep), ic);
  }

  lemma SteadyYears(ic: real, root: real -> real, round: real -> real)
    ensures YearICs(Steady(240, ic), FourYears(root, round)) == [Some(ic), Some(ic), Some(ic), Some(ic)]
  {
    var p := FourYears(root, round);
    forall i | 0 <= i < 4
      ensures YearICs(Steady(240, ic), p)[i] == Some(ic)
    {
      SteadyMean(ic, d => p.yearOf(d) == p.gateYears[i], 60 * i, 60 * i + 60);
    }
  }

  lemma SteadyRegimes(ic: real, root: real -> real, round: real -> real)
    ensures RegimeICs(Steady(240, ic), FourYears(root, round)) == [Some(ic), Some(ic), Some(ic)]
  {
    var p := FourYears(root, round);
    SteadyMean(ic, d => p.regimeOf(d) == Some(Bull), 0, 80);
    SteadyMean(ic, d => p.regimeOf(d) == Some(Sideways), 80, 160);
    SteadyMean(ic, d => p.regimeOf(d) == Some(Bear), 160, 240);
  }

  lemma SteadyIsBest(ic: real, root: real -> real)
    ensures Best([Steady(240, ic)], root).1 == Steady(240, ic)
    ensures Mean(Values(Steady(240, ic))) == ic
  {
    hide Stats, Steady;
    var k := BestIs([Steady(240, ic)], root);
    ConstantMean(Values(Steady(240, ic)), ic);
  }

  lemma FourPresent(ic: real)
    ensures Present([Some(ic), Some(ic), Some(ic), Some(ic)]) == [ic, ic, ic, ic]
    ensures Mean([ic, ic, ic, ic]) == ic
  {
    hide Mean, Present;
    AllPresent([Some(ic), Some(ic), Some(ic), Some(ic)]);
    ConstantMean([ic, ic, ic, ic], ic);
  }

  /** A factor with the same IC of 0.015 or more every day is judged all-weather with +1, its mirror with -1. */
  lemma SteadyIsAllWeather(ic: real, root: real -> real, round: real -> real)
    requires IsRoot(root) && (forall x :: round(-x) == -round(x)) && (ic >= 0.015 || ic <= -0.015)
    ensures Judgment([Steady(240, ic)], FourYears(root, round)) == (AllWeather, if ic > 0.0 then 1.0 else -1.0)
  {
    hide Best, Judgment, YearICs, RegimeICs, HorizonICs, Mean, Present, Steady;
    var p := FourYears(root, round);
    SteadyYears(ic, root, round);
    SteadyRegimes(ic, root, round);
    SteadyIsBest(ic, root);
    FourPresent(ic);
    JudgmentIff([Steady(240, ic)], p);
    assert p.Valid();
    var sign := if ic > 0.0 then 1.0 else -1.0;
    assert Carries(Some(ic), sign, 0.005);
    assert YearsCarry(YearICs(Steady(240, ic), p), sign);
  }
}
