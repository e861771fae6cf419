/** What neutralisation does to the order of the stocks: within a sector and at one size it keeps it. */
module FactorOrder {
  import opened Options
  import opened Vectors
  import opened FactorJudgment
  import opened Neutralize

  /** Clipping lifts what is too low to lo, lowers what is too high to hi, and leaves the rest. */
  lemma ClipMeans(x: seq<real>, lo: real, hi: real, i: nat)
    requires lo <= hi && i < |x|
    ensures lo <= Clip(x, lo, hi)[i] <= hi
    ensures lo <= x[i] <= hi ==> Clip(x, lo, hi)[i] == x[i]
    ensures x[i] < lo ==> Clip(x, lo, hi)[i] == lo
    ensures x[i] > hi ==> Clip(x, lo, hi)[i] == hi
  {
  }

  /** Clipping keeps the order of any two values, and their distance inside the bounds. */
  lemma ClipKeepsOrder(x: seq<real>, lo: real, hi: real, i: nat, j: nat)
    requires lo <= hi && i < |x| && j < |x| && x[i] <= x[j]
    ensures Clip(x, lo, hi)[i] <= Clip(x, lo, hi)[j]
    ensures lo < hi && x[i] < x[j] && x[i] < hi && lo < x[j] ==> Clip(x, lo, hi)[i] < Clip(x, lo, hi)[j]
  {
  }

  lemma DifferenceOver(a: real, b: real, m: real, sd: real)
    requires sd > 0.0
    ensures (b - m) / sd - (a - m) / sd == (b - a) / sd
  {
  }

  /** Two stocks of one sector and one size end as far apart as their clipped values were, in the two deviations. */
  lemma DistanceKept(
      f: Column, sector: seq<Sector>, size: Column, lo: real, hi: real, std: Std, i: nat, j: nat)
    requires |f| == |sector| == |size| > 0 && IsStd(std) && i < |f| && j < |f|
    requires sector[i] == sector[j] && size[i] == size[j]
    requires NeutralizeDay(f, sector, size, lo, hi, std).Some?
    ensures
      var clipped := Clip(f, lo, hi);
      var sigma := std(SizeResidual(SectorNeutral(f, sector, lo, hi, std).value, StandardSize(size, std)));
      var r := NeutralizeDay(f, sector, size, lo, hi, std).value;
      && std(clipped) > 0.0 && sigma > 0.0
      && r[j] - r[i] == (clipped[j] - clipped[i]) / std(clipped) / sigma
  {
    var clipped := Clip(f, lo, hi);
    hide IsStd, Mean, Clip, SectorMean, Dot, Beta, Times;
    PositiveStd(clipped, std);
    var neutral := SectorNeutral(f, sector, lo, hi, std).value;
    var s := StandardSize(size, std);
    SectorStepDistance(f, sector, lo, hi, std, i, j);
    SizeStepDistance(neutral, s, i, j);
    var resid := SizeResidual(neutral, s);
    PositiveStd(resid, std);
    DifferenceOver(resid[i], resid[j], Mean(resid), std(resid));
  }

  lemma SectorStepDistance(f: Column, sector: seq<Sector>, lo: real, hi: real, std: Std, i: nat, j: nat)
    requires |f| == |sector| > 0 && IsStd(std) && i < |f| && j < |f| && sector[i] == sector[j]
    requires SectorNeutral(f, sector, lo, hi, std).Some?
    ensures
      var clipped, x := Clip(f, lo, hi), SectorNeutral(f, sector, lo, hi, std).value;
      std(clipped) > 0.0 && x[j] - x[i] == (clipped[j] - clipped[i]) / std(clipped)
  {
    hide Mean, Clip, SectorMean, ZScore, Demeaned, IsStd, Members;
    var clipped := Clip(f, lo, hi);
    PositiveStd(clipped, std);
    var z := ZScore(clipped, std(clipped));
    assert SectorNeutral(f, sector, lo, hi, std).value == Demeaned(z, sector);
    DifferenceOver(clipped[i], clipped[j], Mean(clipped), std(clipped));
  }

  lemma SizeStepDistance(x: seq<real>, s: seq<real>, i: nat, j: nat)
    requires |x| == |s| && i < |x| && j < |x| && s[i] == s[j]
    ensures SizeResidual(x, s)[j] - SizeResidual(x, s)[i] == x[j] - x[i]
  {
    hide Dot, Times;
    TimesUnit(x[i], 0.0);
    TimesUnit(x[j], 0.0);
  }

  lemma QuotientSign(d: real, a: real, b: real, x: real, y: real)
    requires a > 0.0 && b > 0.0 && y - x == d / a / b
    ensures x < y <==> d > 0.0
    ensures x == y <==> d == 0.0
  {
  }

  lemma DayNotMissing(f: Column, sector: seq<Sector>, size: Column, lo: real, hi: real, std: Std)
    requires |f| == |sector| == |size| > 0 && IsStd(std)
    requires NeutralizeDay(f, sector, size, lo, hi, std).Some?
    ensures SectorNeutral(f, sector, lo, hi, std).Some?
  {
    hide SectorNeutral, StandardSize, SizeResidual, ZScore, IsStd;
  }

  /** Their order in the finished column is that of the clipped values. */
  lemma OrderOfClipped(
      f: Column, sector: seq<Sector>, size: Column, lo: real, hi: real, std: Std, i: nat, j: nat)
    requires |f| == |sector| == |size| > 0 && IsStd(std) && i < |f| && j < |f|
    requires sector[i] == sector[j] && size[i] == size[j]
    requires NeutralizeDay(f, sector, size, lo, hi, std).Some?
    ensures
      var clipped, r := Clip(f, lo, hi), NeutralizeDay(f, sector, size, lo, hi, std).value;
      && (r[i] < r[j] <==> clipped[i] < clipped[j])
      && (r[i] == r[j] <==> clipped[i] == clipped[j])
  {
    hide *;
    DayNotMissing(f, sector, size, lo, hi, std);
    DistanceKept(f, sector, size, lo, hi, std, i, j);
    var clipped, r := Clip(f, lo, hi), NeutralizeDay(f, sector, size, lo, hi, std).value;
    var sigma := std(SizeResidual(SectorNeutral(f, sector, lo, hi, std).value, StandardSize(size, std)));
    QuotientSign(clipped[j] - clipped[i], std(clipped), sigma, r[i], r[j]);
  }

  /**
   * So two such stocks are ordered in the finished column exactly as their clipped values are, and as their factor
   * values are, strictly so when at most one of them is clipped at each end.
   */
  lemma OrderKept(
      f: Column, sector: seq<Sector>, size: Column, lo: real, hi: real, std: Std, i: nat, j: nat)
    requires |f| == |sector| == |size| > 0 && IsStd(std) && i < |f| && j < |f| && lo <= hi
    requires sector[i] == sector[j] && size[i] == size[j]
    requires NeutralizeDay(f, sector, size, lo, hi, std).Some?
    ensures
      var r := NeutralizeDay(f, sector, size, lo, hi, std).value;
      && (f[i] <= f[j] ==> r[i] <= r[j])
      && (lo < hi && f[i] < f[j] && f[i] < hi && lo < f[j] ==> r[i] < r[j])
      && (f[i] == f[j] ==> r[i] == r[j])
  {
    hide *;
    OrderOfClipped(f, sector, size, lo, hi, std, i, j);
    if f[i] <= f[j] {
      ClipKeepsOrder(f, lo, hi, i, j);
    }
    if f[j] <= f[i] {
      ClipKeepsOrder(f, lo, hi, j, i);
    }
  }

  // ----- when a day has a column

  /** The deviation that a square root gives. */
  function StdBy(root: real -> real): Std {
    (x: Column) => if |x| > 0 then root(CoMoment(x, x) / |x| as real) else 0.0
  }

  /** It is a deviation in the sense of this model. */
  lemma StdByIsStd(root: real -> real)
    requires IsRoot(root)
    ensures IsStd(StdBy(root))
  {
    var std := StdBy(root);
    forall x: Column | |x| > 0
      ensures std(x) >= 0.0 && Times(Times(std(x), std(x)), |x| as real) == CoMoment(x, x)
    {
      SelfDotNonNegative(Centred(x));
      var v := CoMoment(x, x) / |x| as real;
      hide CoMoment;
      QuotientBack(CoMoment(x, x), |x| as real);
      assert Times(root(v), root(v)) == v;
    }
  }

  lemma QuotientBack(a: real, b: real)
    requires b > 0.0
    ensures Times(a / b, b) == a
    ensures a >= 0.0 ==> a / b >= 0.0
  {
  }

  lemma {:induction false} ZeroSquares(c: seq<real>)
    ensures Dot(c, c) >= 0.0
    ensures Dot(c, c) == 0.0 <==> forall i :: 0 <= i < |c| ==> c[i] == 0.0
  {
    if |c| != 0 {
      var n := |c| - 1;
      ZeroSquares(c[..n]);
      SquareSign(c[n]);
      if c[n] == 0.0 {
        TimesUnit(0.0, 0.0);
      }
    }
  }

  lemma {:induction false} SumOfEqual(x: seq<real>, v: real)
    requires forall i :: 0 <= i < |x| ==> x[i] == v
    ensures Sum(x) == Times(v, |x| as real)
  {
    if |x| == 0 {
      TimesUnit(v, 0.0);
    } else {
      SumOfEqual(x[..|x| - 1], v);
      TimesSum(v, (|x| - 1) as real, 1.0);
      TimesUnit(v, 1.0);
      TimesUnit(1.0, v);
    }
  }

  lemma MeanOfEqual(x: seq<real>, v: real)
    requires |x| > 0 && forall i :: 0 <= i < |x| ==> x[i] == v
    ensures Mean(x) == v
  {
    SumOfEqual(x, v);
    CancelTimes(v, |x| as real);
  }

  lemma CancelTimes(v: real, n: real)
    requires n > 0.0
    ensures Times(v, n) / n == v
  {
  }

  /** A column's deviation is zero exactly when all its entries are the same. */
  lemma ConstantIff(x: Column, std: Std)
    requires |x| > 0 && IsStd(std)
    ensures std(x) == 0.0 <==> forall i :: 0 <= i < |x| ==> x[i] == x[0]
  {
    assert Times(Times(std(x), std(x)), |x| as real) == CoMoment(x, x);
    ZeroSquares(Centred(x));
    ZeroProduct(std(x), |x| as real);
    if forall i :: 0 <= i < |x| ==> x[i] == x[0] {
      MeanOfEqual(x, x[0]);
    } else {
      var k :| 0 <= k < |x| && x[k] != x[0];
      assert Centred(x)[k] != Centred(x)[0];
    }
  }

  lemma ZeroProduct(s: real, n: real)
    requires n > 0.0
    ensures Times(Times(s, s), n) == 0.0 <==> s == 0.0
  {
    SquareSign(s);
    if s != 0.0 {
      TimesPositive(Times(s, s), n);
    } else {
      TimesUnit(0.0, 0.0);
      TimesUnit(n, 0.0);
    }
  }

  /**
   * A day of fewer than 30 stocks is left as it is. A longer one has no column exactly when its clipped values, or what
   * the sector and size steps leave of them, are all the same.
   */
  lemma DayIff(f: Column, sector: seq<Sector>, size: Column, lo: real, hi: real, std: Std)
    requires |f| == |sector| == |size| > 0 && IsStd(std)
    ensures |f| < 30 ==> Day(f, sector, size, lo, hi, std) == Some(f)
    ensures |f| >= 30 ==> Day(f, sector, size, lo, hi, std) == NeutralizeDay(f, sector, size, lo, hi, std)
    ensures NeutralizeDay(f, sector, size, lo, hi, std).None? <==>
      var clipped, neutral := Clip(f, lo, hi), SectorNeutral(f, sector, lo, hi, std);
      || (forall i :: 0 <= i < |f| ==> clipped[i] == clipped[0])
      || (neutral.Some? &&
          var resid := SizeResidual(neutral.value, StandardSize(size, std));
          forall i :: 0 <= i < |f| ==> resid[i] == resid[0])
  {
    hide Clip, ZScore, Demeaned, StandardSize, SizeResidual, IsStd;
    ConstantIff(Clip(f, lo, hi), std);
    var neutral := SectorNeutral(f, sector, lo, hi, std);
    if neutral.Some? {
      ConstantIff(SizeResidual(neutral.value, StandardSize(size, std)), std);
    }
  }
}
