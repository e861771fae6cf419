/**
 * One day's neutralisation of one factor column (factor_neutralize): clip, z-score, sector demean, size residual,
 * z-score.
 */
module Neutralize {
  import opened Options
  import opened Vectors

  type Sector = string

  type Column = seq<real>

  /** A standard deviation. */
  type Std = Column -> real

  const MIN_SIZE_VARIANCE := 0.000000001
  const MIN_ROWS := 30

  /** The population standard deviation, as pandas' std(ddof=0) provides. */
  ghost predicate IsStd(std: Std) {
    forall x: Column :: |x| > 0 ==> std(x) >= 0.0 && Times(Times(std(x), std(x)), |x| as real) == CoMoment(x, x)
  }

  function Clip(x: seq<real>, lo: real, hi: real): (r: seq<real>)
    ensures |r| == |x|
  {
    seq(|x|, i requires 0 <= i < |x| => if x[i] < lo then lo else if x[i] > hi then hi else x[i])
  }

  function ZScore(x: seq<real>, sd: real): (r: seq<real>)
    requires |x| > 0 && sd > 0.0
    ensures |r| == |x|
    ensures forall i :: 0 <= i < |x| ==> r[i] == (x[i] - Mean(x)) / sd
  {
    seq(|x|, i requires 0 <= i < |x| => (x[i] - Mean(x)) / sd)
  }

  /** The entries of one sector, in row order. */
  function Members(x: seq<real>, sector: seq<Sector>, k: Sector): seq<real>
    requires |x| == |sector|
  {
    if |x| == 0 then []
    else
      var n := |x| - 1;
      var r := Members(x[..n], sector[..n], k);
      if sector[n] == k then r + [x[n]] else r
  }

  lemma {:induction false} MembersNonEmpty(x: seq<real>, sector: seq<Sector>, k: Sector)
    requires |x| == |sector| && k in sector
    ensures |Members(x, sector, k)| > 0
  {
    var n := |x| - 1;
    if sector[n] != k {
      assert sector == sector[..n] + [sector[n]];
      MembersNonEmpty(x[..n], sector[..n], k);
    }
  }

  function SectorMean(x: seq<real>, sector: seq<Sector>, k: Sector): real
    requires |x| == |sector| && k in sector
  {
    MembersNonEmpty(x, sector, k);
    Mean(Members(x, sector, k))
  }

  function Demeaned(x: seq<real>, sector: seq<Sector>): (r: seq<real>)
    requires |x| == |sector|
    ensures |r| == |x|
    ensures forall i :: 0 <= i < |x| ==> r[i] == x[i] - SectorMean(x, sector, sector[i])
  {
    seq(|x|, i requires 0 <= i < |x| => x[i] - SectorMean(x, sector, sector[i]))
  }

  /** Size in standard units; a constant size is divided by one. */
  function StandardSize(size: seq<real>, std: Std): (s: seq<real>)
    requires |size| > 0 && IsStd(std)
    ensures |s| == |size|
  {
    ZScore(size, if std(size) == 0.0 then 1.0 else std(size))
  }

  function Beta(x: seq<real>, s: seq<real>): real
    requires |x| == |s|
  {
    if Dot(s, s) > MIN_SIZE_VARIANCE then Dot(x, s) / Dot(s, s) else 0.0
  }

  /** x minus beta times s, when s varies at all. */
  function SizeResidual(x: seq<real>, s: seq<real>): (r: seq<real>)
    requires |x| == |s|
    ensures |r| == |x|
  {
    if Dot(s, s) > MIN_SIZE_VARIANCE then Blend(1.0, x, Beta(x, s), s) else x
  }

  /** The column after the sector step; missing when the clipped column is constant. */
  function SectorNeutral(f: Column, sector: seq<Sector>, lo: real, hi: real, std: Std): (r: Option<Column>)
    requires |f| == |sector| > 0 && IsStd(std)
    ensures r.Some? ==> |r.value| == |f|
  {
    var clipped := Clip(f, lo, hi);
    if std(clipped) == 0.0 then None else Some(Demeaned(ZScore(clipped, std(clipped)), sector))
  }

  function NeutralizeDay(
      f: Column, sector: seq<Sector>, size: Column, lo: real, hi: real, std: Std): (r: Option<Column>)
    requires |f| == |sector| == |size| > 0 && IsStd(std)
    ensures r.Some? ==> |r.value| == |f|
  {
    var neutral := SectorNeutral(f, sector, lo, hi, std);
    if neutral.None? then None
    else
      var resid := SizeResidual(neutral.value, StandardSize(size, std));
      if std(resid) == 0.0 then None else Some(ZScore(resid, std(resid)))
  }

  /** What the script writes for a day: a day with too few rows passes through unchanged. */
  function Day(
      f: Column, sector: seq<Sector>, size: Column, lo: real, hi: real, std: Std): (r: Option<Column>)
    requires |f| == |sector| == |size| && IsStd(std)
    ensures r.Some? ==> |r.value| == |f|
  {
    if |f| < MIN_ROWS then Some(f) else NeutralizeDay(f, sector, size, lo, hi, std)
  }

  /** What the size step leaves in a sector's mean, in units of the final deviation. */
  function SizeTilt(beta: real, sizeMean: real, sigma: real): real
    requires sigma > 0.0
  {
    -(beta * sizeMean) / sigma
  }

  // ----- each step

  lemma ZScoreIsAffine(x: seq<real>, sd: real)
    requires |x| > 0 && sd > 0.0
    ensures Affine(x, ZScore(x, sd), 1.0 / sd, -(Mean(x) / sd))
  {
    forall i | 0 <= i < |x|
      ensures ZScore(x, sd)[i] == Times(1.0 / sd, x[i]) + -(Mean(x) / sd)
    {
      DivideDifference(x[i], Mean(x), sd);
    }
  }

  lemma DivideDifference(x: real, m: real, sd: real)
    requires sd > 0.0
    ensures (x - m) / sd == Times(1.0 / sd, x) + -(m / sd)
  {
  }

  /** Standardising a vector with mean zero only rescales it. */
  lemma ZScoreOfCentred(x: seq<real>, sd: real, w: seq<real>)
    requires |x| == |w| > 0 && sd > 0.0 && Sum(x) == 0.0
    ensures Affine(x, ZScore(x, sd), 1.0 / sd, 0.0)
    ensures Sum(ZScore(x, sd)) == 0.0
    ensures Dot(ZScore(x, sd), w) == Times(1.0 / sd, Dot(x, w))
  {
    hide Times, Sum, Dot, ZScore;
    ZScoreIsAffine(x, sd);
    ZeroQuotient(Mean(x), sd);
    SumAffine(x, ZScore(x, sd), 1.0 / sd, 0.0);
    DotAffine(x, ZScore(x, sd), 1.0 / sd, 0.0, w);
    TimesUnit(1.0 / sd, 0.0);
    TimesUnit(|x| as real, 0.0);
    TimesUnit(Sum(w), 0.0);
  }

  lemma ZeroQuotient(m: real, sd: real)
    requires m == 0.0 && sd > 0.0
    ensures -(m / sd) == 0.0
  {
  }

  /** Any z-score sums to zero. */
  lemma ZScoreSumsToZero(x: seq<real>, sd: real)
    requires |x| > 0 && sd > 0.0
    ensures Sum(ZScore(x, sd)) == 0.0
  {
    ZScoreIsAffine(x, sd);
    MeanAffine(x, ZScore(x, sd), 1.0 / sd, -(Mean(x) / sd));
    ScaledMeanCancels(Mean(x), sd);
    MeanTimesCount(ZScore(x, sd));
    hide Times, Sum;
    TimesUnit(|x| as real, 0.0);
  }

  lemma ScaledMeanCancels(m: real, sd: real)
    requires sd > 0.0
    ensures Times(1.0 / sd, m) + -(m / sd) == 0.0
  {
  }

  lemma {:induction false} MembersOfShifted(x: seq<real>, y: seq<real>, sector: seq<Sector>, k: Sector, shift: real)
    requires |x| == |y| == |sector|
    requires forall i :: 0 <= i < |x| && sector[i] == k ==> y[i] == x[i] + shift
    ensures Affine(Members(x, sector, k), Members(y, sector, k), 1.0, shift)
  {
    hide Times;
    if |x| != 0 {
      var n := |x| - 1;
      MembersOfShifted(x[..n], y[..n], sector[..n], k, shift);
      TimesUnit(x[n], 0.0);
    }
  }

  /** After the sector step every sector sums to zero. */
  lemma DemeanedSectorSum(x: seq<real>, sector: seq<Sector>, k: Sector)
    requires |x| == |sector|
    ensures Sum(Members(Demeaned(x, sector), sector, k)) == 0.0
  {
    hide Members, Times, Sum;
    if k in sector {
      var m := SectorMean(x, sector, k);
      var a, b := Members(x, sector, k), Members(Demeaned(x, sector), sector, k);
      MembersOfShifted(x, Demeaned(x, sector), sector, k, -m);
      MembersNonEmpty(x, sector, k);
      assert Affine(a, b, 1.0, -m);
      MeanTimesCount(a);
      SumAffine(a, b, 1.0, -m);
      TimesUnit(Sum(a), 0.0);
      TimesUnit(m, |a| as real);
    } else {
      NoMembers(Demeaned(x, sector), sector, k);
      assert Sum([]) == 0.0 by {
        SumOfNothing();
      }
    }
  }

  lemma SumOfNothing()
    ensures Sum([]) == 0.0
  {
  }

  lemma {:induction false} NoMembers(x: seq<real>, sector: seq<Sector>, k: Sector)
    requires |x| == |sector| && k !in sector
    ensures Members(x, sector, k) == []
  {
    if |x| != 0 {
      assert sector[|x| - 1] in sector;
      NoMembers(x[..|x| - 1], sector[..|x| - 1], k);
    }
  }

  /** The rows outside one sector. */
  function Others<T>(x: seq<T>, sector: seq<Sector>, k: Sector): (r: seq<T>)
    requires |x| == |sector|
    ensures |r| <= |x|
    ensures |r| == |x| ==> k !in sector
  {
    if |x| == 0 then []
    else
      var n := |x| - 1;
      var r := Others(x[..n], sector[..n], k);
      assert sector == sector[..n] + [sector[n]];
      if sector[n] == k then r else r + [x[n]]
  }

  lemma {:induction false} OthersAlign(x: seq<real>, sector: seq<Sector>, k: Sector, j: Sector)
    requires |x| == |sector|
    ensures |Others(x, sector, k)| == |Others(sector, sector, k)|
    ensures Members(Others(x, sector, k), Others(sector, sector, k), j) == if j == k then [] else Members(x, sector, j)
    ensures Sum(x) == Sum(Members(x, sector, k)) + Sum(Others(x, sector, k))
  {
    if |x| != 0 {
      var n := |x| - 1;
      OthersAlign(x[..n], sector[..n], k, j);
      var a, b := Others(x[..n], sector[..n], k), Others(sector[..n], sector[..n], k);
      var m := Members(x[..n], sector[..n], k);
      if sector[n] == k {
        SumAppend(m, x[n]);
      } else {
        assert (a + [x[n]])[..|a|] == a && (b + [sector[n]])[..|b|] == b;
        SumAppend(a, x[n]);
      }
    }
  }

  /** If every sector sums to zero, so does the whole column. */
  lemma {:induction false} SectorsSumToZero(x: seq<real>, sector: seq<Sector>)
    requires |x| == |sector|
    requires forall k :: Sum(Members(x, sector, k)) == 0.0
    ensures Sum(x) == 0.0
    decreases |x|
  {
    if |x| != 0 {
      var k := sector[|x| - 1];
      OthersAlign(x, sector, k, k);
      forall j
        ensures Sum(Members(Others(x, sector, k), Others(sector, sector, k), j)) == 0.0
      {
        OthersAlign(x, sector, k, j);
      }
      SectorsSumToZero(Others(x, sector, k), Others(sector, sector, k));
    }
  }

  lemma DemeanedSum(x: seq<real>, sector: seq<Sector>)
    requires |x| == |sector|
    ensures Sum(Demeaned(x, sector)) == 0.0
  {
    forall k
      ensures Sum(Members(Demeaned(x, sector), sector, k)) == 0.0
    {
      DemeanedSectorSum(x, sector, k);
    }
    SectorsSumToZero(Demeaned(x, sector), sector);
  }

  /** Standardised size sums to zero and its squares add up to n, or to zero when the size is constant. */
  lemma StandardSizeMoments(size: seq<real>, std: Std)
    requires |size| > 0 && IsStd(std)
    ensures Sum(StandardSize(size, std)) == 0.0
    ensures Dot(StandardSize(size, std), StandardSize(size, std)) == if std(size) == 0.0 then 0.0 else |size| as real
  {
    var sd := if std(size) == 0.0 then 1.0 else std(size);
    ZScoreSumsToZero(size, sd);
    ZScoreSquares(size, sd);
    assert Times(Times(std(size), std(size)), |size| as real) == CoMoment(size, size);
    hide CoMoment, Dot, Sum, ZScore;
    if std(size) == 0.0 {
      ZeroSpread(|size| as real);
    } else {
      UnitSpread(sd, |size| as real);
    }
  }

  lemma ZeroSpread(n: real)
    ensures Times(Times(1.0 / 1.0, 1.0 / 1.0), Times(Times(0.0, 0.0), n)) == 0.0
  {
  }

  lemma UnitSpread(sd: real, n: real)
    requires sd > 0.0
    ensures Times(Times(1.0 / sd, 1.0 / sd), Times(Times(sd, sd), n)) == n
  {
    var r := 1.0 / sd;
    assert r * sd == 1.0;
    assert r * r * (sd * sd * n) == (r * sd) * (r * sd) * n;
  }

  lemma ZScoreSquares(x: seq<real>, sd: real)
    requires |x| > 0 && sd > 0.0
    ensures Dot(ZScore(x, sd), ZScore(x, sd)) == Times(Times(1.0 / sd, 1.0 / sd), CoMoment(x, x))
  {
    var z, r := ZScore(x, sd), 1.0 / sd;
    forall i | 0 <= i < |x|
      ensures z[i] == Times(r, Centred(x)[i]) + 0.0
    {
      assert (x[i] - Mean(x)) / sd == r * (x[i] - Mean(x));
    }
    hide Times, ZScore;
    DotAffine(Centred(x), z, r, 0.0, z);
    DotAffine(Centred(x), z, r, 0.0, Centred(x));
    DotSymmetric(Centred(x), z);
    TimesUnit(Sum(z), 0.0);
    TimesUnit(Sum(Centred(x)), 0.0);
    TimesAssociate(r, r, Dot(Centred(x), Centred(x)));
  }

  lemma TimesAssociate(a: real, b: real, c: real)
    ensures Times(a, Times(b, c)) == Times(Times(a, b), c)
  {
  }

  /** The size step keeps the sum at zero and removes all correlation with size. */
  lemma ResidualIsOrthogonal(x: seq<real>, s: seq<real>)
    requires |x| == |s| > 0 && Sum(x) == 0.0 && Sum(s) == 0.0
    requires Dot(s, s) == 0.0 || Dot(s, s) > MIN_SIZE_VARIANCE
    ensures Sum(SizeResidual(x, s)) == 0.0
    ensures Dot(SizeResidual(x, s), s) == 0.0
  {
    hide Times, Sum, Dot;
    if Dot(s, s) == 0.0 {
      ZeroVector(s, x);
      DotSymmetric(s, x);
    } else {
      BlendLinear(1.0, x, Beta(x, s), s, s);
      TimesUnit(Sum(x), 0.0);
      TimesUnit(Beta(x, s), 0.0);
      TimesUnit(Dot(x, s), 0.0);
      BetaCancels(Dot(x, s), Dot(s, s));
    }
  }

  lemma BetaCancels(xs: real, ss: real)
    requires ss > 0.0
    ensures Times(xs / ss, ss) == xs
  {
  }

  lemma {:induction false} MembersOfBlend(x: seq<real>, s: seq<real>, sector: seq<Sector>, k: Sector, beta: real)
    requires |x| == |s| == |sector|
    ensures |Members(x, sector, k)| == |Members(s, sector, k)|
    ensures Members(Blend(1.0, x, beta, s), sector, k) == Blend(1.0, Members(x, sector, k), beta, Members(s, sector, k))
  {
    hide Times;
    if |x| != 0 {
      var n := |x| - 1;
      MembersOfBlend(x[..n], s[..n], sector[..n], k, beta);
      assert Blend(1.0, x, beta, s)[..n] == Blend(1.0, x[..n], beta, s[..n]);
    }
  }

  /** The size step takes a sector's sum from zero to minus beta times the sector's size sum. */
  lemma ResidualSectorSum(x: seq<real>, s: seq<real>, sector: seq<Sector>, k: Sector)
    requires |x| == |s| == |sector|
    requires Sum(Members(x, sector, k)) == 0.0
    ensures Sum(Members(SizeResidual(x, s), sector, k)) == -Times(Beta(x, s), Sum(Members(s, sector, k)))
  {
    if Dot(s, s) > MIN_SIZE_VARIANCE {
      MembersOfBlend(x, s, sector, k, Beta(x, s));
      BlendLinear(1.0, Members(x, sector, k), Beta(x, s), Members(s, sector, k), Members(s, sector, k));
      TimesUnit(0.0, 0.0);
    } else {
      TimesUnit(Sum(Members(s, sector, k)), 0.0);
    }
  }

  lemma {:induction false} MembersOfAffine(x: seq<real>, y: seq<real>, sector: seq<Sector>, k: Sector, scale: real)
    requires |x| == |sector| && Affine(x, y, scale, 0.0)
    ensures Affine(Members(x, sector, k), Members(y, sector, k), scale, 0.0)
  {
    hide Times;
    if |x| != 0 {
      var n := |x| - 1;
      MembersOfAffine(x[..n], y[..n], sector[..n], k, scale);
    }
  }

  // ----- the whole chain

  /** The finished column sums to zero, is orthogonal to standardised size, and its squares add up to the row count. */
  lemma NeutralizedColumn(f: Column, sector: seq<Sector>, size: Column, lo: real, hi: real, std: Std)
    requires |f| == |sector| == |size| > 0 && IsStd(std)
    requires NeutralizeDay(f, sector, size, lo, hi, std).Some?
    ensures
      var r := NeutralizeDay(f, sector, size, lo, hi, std).value;
      Sum(r) == 0.0 && Dot(r, StandardSize(size, std)) == 0.0 && Dot(r, r) == |f| as real
  {
    hide Sum, Dot, ZScore, StandardSize, SizeResidual, Times, CoMoment, SectorNeutral;
    var s := StandardSize(size, std);
    var x := SectorNeutral(f, sector, lo, hi, std).value;
    SectorNeutralSums(f, sector, lo, hi, std, sector[0]);
    StandardSizeMoments(size, std);
    ResidualIsOrthogonal(x, s);
    var resid := SizeResidual(x, s);
    PositiveStd(resid, std);
    hide Members;
    ZScoreOfCentred(resid, std(resid), s);
    TimesUnit(1.0 / std(resid), 0.0);
    ZScoreSquares(resid, std(resid));
    assert Times(Times(std(resid), std(resid)), |resid| as real) == CoMoment(resid, resid);
    UnitSpread(std(resid), |resid| as real);
  }

  /**
   * Each sector's mean in the finished column is -beta * (the sector's mean standardised size) / sigma,
   * so the sector neutrality of the third step survives exactly in the sectors where beta or that mean is zero.
   */
  lemma FinalSectorMean(f: Column, sector: seq<Sector>, size: Column, lo: real, hi: real, std: Std, k: Sector)
    requires |f| == |sector| == |size| > 0 && IsStd(std) && k in sector
    requires NeutralizeDay(f, sector, size, lo, hi, std).Some?
    ensures
      var s := StandardSize(size, std);
      var x := SectorNeutral(f, sector, lo, hi, std).value;
      var sigma := std(SizeResidual(x, s));
      var mean := SectorMean(NeutralizeDay(f, sector, size, lo, hi, std).value, sector, k);
      && sigma > 0.0
      && SectorMean(x, sector, k) == 0.0
      && mean == SizeTilt(Beta(x, s), SectorMean(s, sector, k), sigma)
      && (mean == 0.0 <==> Beta(x, s) == 0.0 || SectorMean(s, sector, k) == 0.0)
  {
    hide Sum, Dot, ZScore, SizeResidual, CoMoment, Members, Beta, Times, IsStd, SectorNeutral;
    hide StandardSize, SizeTilt, SectorMean, Demeaned;
    var s := StandardSize(size, std);
    var x := SectorNeutral(f, sector, lo, hi, std).value;
    SectorNeutralSums(f, sector, lo, hi, std, k);
    StandardSizeMoments(size, std);
    ResidualIsOrthogonal(x, s);
    ZeroSectorMean(x, sector, k);
    PositiveStd(SizeResidual(x, s), std);
    SectorMeanOfScaled(x, s, sector, k, std(SizeResidual(x, s)));
  }

  lemma SectorNeutralSums(f: Column, sector: seq<Sector>, lo: real, hi: real, std: Std, k: Sector)
    requires |f| == |sector| > 0 && IsStd(std) && SectorNeutral(f, sector, lo, hi, std).Some?
    ensures Sum(SectorNeutral(f, sector, lo, hi, std).value) == 0.0
    ensures Sum(Members(SectorNeutral(f, sector, lo, hi, std).value, sector, k)) == 0.0
  {
    hide Sum, ZScore, Members, Demeaned;
    var z := ZScore(Clip(f, lo, hi), std(Clip(f, lo, hi)));
    DemeanedSectorSum(z, sector, k);
    DemeanedSum(z, sector);
  }

  lemma PositiveStd(x: seq<real>, std: Std)
    requires |x| > 0 && IsStd(std) && std(x) != 0.0
    ensures std(x) > 0.0
  {
  }

  lemma ZeroSectorMean(x: seq<real>, sector: seq<Sector>, k: Sector)
    requires |x| == |sector| && k in sector && Sum(Members(x, sector, k)) == 0.0
    ensures SectorMean(x, sector, k) == 0.0
  {
    hide Sum, Members;
    MembersNonEmpty(x, sector, k);
  }

  lemma SectorMeanOfScaled(x: seq<real>, s: seq<real>, sector: seq<Sector>, k: Sector, sigma: real)
    requires |x| == |s| == |sector| && k in sector && sigma > 0.0
    requires Sum(SizeResidual(x, s)) == 0.0 && Sum(Members(x, sector, k)) == 0.0
    ensures
      var mean := SectorMean(ZScore(SizeResidual(x, s), sigma), sector, k);
      && mean == SizeTilt(Beta(x, s), SectorMean(s, sector, k), sigma)
      && (mean == 0.0 <==> Beta(x, s) == 0.0 || SectorMean(s, sector, k) == 0.0)
  {
    hide Sum, Dot, SizeResidual, Members, Beta, Times, ZScore;
    var resid := SizeResidual(x, s);
    var r := ZScore(resid, sigma);
    ResidualSectorSum(x, s, sector, k);
    ZScoreOfCentred(resid, sigma, s);
    MembersOfAffine(resid, r, sector, k, 1.0 / sigma);
    MembersNonEmpty(s, sector, k);
    MembersOfBlend(resid, s, sector, k, 0.0);
    var a, b, c := Members(resid, sector, k), Members(r, sector, k), Members(s, sector, k);
    SumAffine(a, b, 1.0 / sigma, 0.0);
    SectorMeanAlgebra(Sum(a), Sum(b), Sum(c), Beta(x, s), sigma, |a| as real);
  }

  lemma SectorMeanAlgebra(resid: real, final: real, size: real, beta: real, sigma: real, n: real)
    requires sigma > 0.0 && n > 0.0
    requires resid == -Times(beta, size)
    requires final == Times(1.0 / sigma, resid) + Times(0.0, n)
    ensures final / n == SizeTilt(beta, size / n, sigma)
    ensures final / n == 0.0 <==> beta == 0.0 || size / n == 0.0
  {
    var m := size / n;
    assert size == m * n;
    assert final == -(beta * (m * n)) / sigma;
    var q := -(beta * m) / sigma;
    assert q * sigma == -(beta * m);
    assert final == q * n;
    assert final / n == q;
    if q == 0.0 {
      assert beta * m == 0.0;
    }
  }
}
