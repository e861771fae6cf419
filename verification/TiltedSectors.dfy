/** Days on which neutralisation leaves the sectors tilted: four kinds of stock in two sectors, worked through. */
module TiltedSectors {
  import opened Options
  import opened Vectors
  import opened Neutralize
  import opened CopiedStocks

  lemma FourSum(a: real, b: real, c: real, d: real)
    ensures Sum([a, b, c, d]) == a + b + c + d
  {
    TwoSum(a, b);
    SumAppend([a, b], c);
    SumAppend([a, b, c], d);
    assert [a, b] + [c] == [a, b, c] && [a, b, c] + [d] == [a, b, c, d];
  }

  lemma TwoSum(a: real, b: real)
    ensures Sum([a, b]) == a + b
  {
    SumAppend([], a);
    SumAppend([a], b);
    assert [] + [a] == [a] && [a] + [b] == [a, b];
  }

  lemma FourDot(a: seq<real>, b: seq<real>)
    requires |a| == |b| == 4
    ensures Dot(a, b) == Times(a[0], b[0]) + Times(a[1], b[1]) + Times(a[2], b[2]) + Times(a[3], b[3])
  {
    hide Times, Dot;
    DotAppend([], [], a[0], b[0]);
    DotAppend([a[0]], [b[0]], a[1], b[1]);
    DotAppend([a[0], a[1]], [b[0], b[1]], a[2], b[2]);
    DotAppend([a[0], a[1], a[2]], [b[0], b[1], b[2]], a[3], b[3]);
    NoDot();
    assert [] + [a[0]] == [a[0]] && [a[0]] + [a[1]] == [a[0], a[1]];
    assert [] + [b[0]] == [b[0]] && [b[0]] + [b[1]] == [b[0], b[1]];
    assert [a[0], a[1]] + [a[2]] == [a[0], a[1], a[2]] && [a[0], a[1], a[2]] + [a[3]] == a;
    assert [b[0], b[1]] + [b[2]] == [b[0], b[1], b[2]] && [b[0], b[1], b[2]] + [b[3]] == b;
  }

  lemma NoDot()
    ensures Dot([], []) == 0.0
  {
  }

  lemma EqualSquares(t: real, sd: real)
    requires t >= 0.0 && sd > 0.0 && Times(Times(t, t), 4.0) == Times(Times(sd, sd), 4.0)
    ensures t == sd
  {
    if t < sd {
      SmallerSquare(t, sd);
    } else if sd < t {
      SmallerSquare(sd, t);
    }
  }

  lemma SmallerSquare(a: real, b: real)
    requires 0.0 <= a < b
    ensures Times(Times(a, a), 4.0) < Times(Times(b, b), 4.0)
  {
    TimesPositive(b - a, b + a);
    assert b * b - a * a == (b - a) * (b + a);
  }

  /** The mean and the deviation of four values, from their distances to the mean. */
  lemma FourMoments(x: seq<real>, mean: real, d: seq<real>, sd: real, std: seq<real> -> real)
    requires |x| == |d| == 4 && IsStd(std) && sd > 0.0
    requires x[0] + x[1] + x[2] + x[3] == 4.0 * mean
    requires forall i :: 0 <= i < 4 ==> d[i] == x[i] - mean
    requires Dot(d, d) == Times(Times(sd, sd), 4.0)
    ensures Mean(x) == mean && std(x) == sd
  {
    hide Times, Dot, Sum, Mean, IsStd;
    FourMean(x, mean);
    assert Centred(x) == d;
    FourStd(x, std);
    EqualSquares(std(x), sd);
  }

  lemma FourMean(x: seq<real>, mean: real)
    requires |x| == 4 && x[0] + x[1] + x[2] + x[3] == 4.0 * mean
    ensures Mean(x) == mean
  {
    hide Sum;
    FourSum(x[0], x[1], x[2], x[3]);
    assert x == [x[0], x[1], x[2], x[3]];
  }

  lemma FourStd(x: seq<real>, std: seq<real> -> real)
    requires |x| == 4 && IsStd(std)
    ensures std(x) >= 0.0 && Times(Times(std(x), std(x)), 4.0) == CoMoment(x, x)
  {
    hide Times, CoMoment;
    assert Times(Times(std(x), std(x)), |x| as real) == CoMoment(x, x);
  }

  lemma MembersAppend(x: seq<real>, sector: seq<Sector>, v: real, c: Sector, k: Sector)
    requires |x| == |sector|
    ensures Members(x + [v], sector + [c], k) == if c == k then Members(x, sector, k) + [v] else Members(x, sector, k)
  {
    assert (x + [v])[..|x|] == x && (sector + [c])[..|x|] == sector;
  }

  const TWO_SECTORS := ["A", "A", "B", "B"]

  lemma TwoOfFour(a: real, b: real, c: real, d: real)
    ensures SectorMean([a, b, c, d], TWO_SECTORS, "A") == (a + b) / 2.0
    ensures SectorMean([a, b, c, d], TWO_SECTORS, "B") == (c + d) / 2.0
  {
    FourMembers(a, b, c, d, "A");
    FourMembers(a, b, c, d, "B");
    TwoSum(a, b);
    TwoSum(c, d);
  }

  lemma FourMembers(a: real, b: real, c: real, d: real, k: Sector)
    ensures k == "A" ==> Members([a, b, c, d], TWO_SECTORS, k) == [a, b]
    ensures k == "B" ==> Members([a, b, c, d], TWO_SECTORS, k) == [c, d]
  {
    MembersAppend([], [], a, "A", k);
    MembersAppend([a], ["A"], b, "A", k);
    MembersAppend([a, b], ["A", "A"], c, "B", k);
    MembersAppend([a, b, c], ["A", "A", "B"], d, "B", k);
    assert [] + [a] == [a] && [a] + [b] == [a, b] && [a, b] + [c] == [a, b, c] && [a, b, c] + [d] == [a, b, c, d];
    assert ["A"] + ["A"] == ["A", "A"] && ["A", "A"] + ["B"] == ["A", "A", "B"];
    assert ["A", "A", "B"] + ["B"] == TWO_SECTORS;
    NoneOf(k);
  }

  lemma NoneOf(k: Sector)
    ensures Members([], [], k) == []
  {
  }

  const TILTED := [-1.0, 1.0, -1.0, 1.0]
  const SIZES := [3.0, 11.0, 9.0, 17.0]
  const UNIT_SIZES := [-1.4, 0.2, -0.2, 1.4]
  const RESIDUAL := [0.12, 0.84, -0.84, -0.12]

  lemma TiltedProducts()
    ensures Dot(TILTED, TILTED) == Times(Times(1.0, 1.0), 4.0)
    ensures Dot([-7.0, 1.0, -1.0, 7.0], [-7.0, 1.0, -1.0, 7.0]) == Times(Times(5.0, 5.0), 4.0)
    ensures Dot(RESIDUAL, RESIDUAL) == Times(Times(0.6, 0.6), 4.0)
    ensures Dot(UNIT_SIZES, UNIT_SIZES) == 4.0 && Dot(TILTED, UNIT_SIZES) == 3.2
  {
    FourDot(TILTED, TILTED);
    FourDot([-7.0, 1.0, -1.0, 7.0], [-7.0, 1.0, -1.0, 7.0]);
    FourDot(RESIDUAL, RESIDUAL);
    FourDot(UNIT_SIZES, UNIT_SIZES);
    FourDot(TILTED, UNIT_SIZES);
    hide Dot;
  }

  lemma TiltedSteps(std: seq<real> -> real)
    requires IsStd(std)
    ensures SectorNeutral(TILTED, TWO_SECTORS, -1.0, 1.0, std) == Some(TILTED)
    ensures StandardSize(SIZES, std) == UNIT_SIZES
    ensures Beta(TILTED, UNIT_SIZES) == 0.8
    ensures std(RESIDUAL) == 0.6
  {
    TiltedProducts();
    hide Dot, Times, Sum, Mean, SectorMean, IsStd;
    FourMoments(TILTED, 0.0, TILTED, 1.0, std);
    FourMoments(SIZES, 10.0, [-7.0, 1.0, -1.0, 7.0], 5.0, std);
    FourMoments(RESIDUAL, 0.0, RESIDUAL, 0.6, std);
    TwoOfFour(-1.0, 1.0, -1.0, 1.0);
    assert Clip(TILTED, -1.0, 1.0) == TILTED;
    assert ZScore(TILTED, 1.0) == TILTED;
    assert Demeaned(TILTED, TWO_SECTORS) == TILTED;
    assert ZScore(SIZES, 5.0) == UNIT_SIZES;
  }

  lemma TiltedResidual()
    ensures SizeResidual(TILTED, UNIT_SIZES) == RESIDUAL
  {
    TiltedProducts();
    hide Dot;
    assert Beta(TILTED, UNIT_SIZES) == 0.8;
  }

  lemma TiltedColumn(std: seq<real> -> real)
    requires IsStd(std)
    ensures NeutralizeDay(TILTED, TWO_SECTORS, SIZES, -1.0, 1.0, std).Some?
    ensures std(SizeResidual(TILTED, StandardSize(SIZES, std))) == 0.6
  {
    assert |TILTED| == |TWO_SECTORS| == |SIZES| == |UNIT_SIZES|;
    hide *;
    TiltedSteps(std);
    TiltedResidual();
    NotMissing(TILTED, TWO_SECTORS, SIZES, -1.0, 1.0, std, TILTED, UNIT_SIZES);
  }

  lemma NotMissing(
      f: Column, sector: seq<Sector>, size: Column, lo: real, hi: real, std: Std, x: Column, s: Column)
    requires |f| == |sector| == |size| > 0 && IsStd(std)
    requires SectorNeutral(f, sector, lo, hi, std) == Some(x) && StandardSize(size, std) == s
    requires |s| == |x| && std(SizeResidual(x, s)) != 0.0
    ensures NeutralizeDay(f, sector, size, lo, hi, std).Some?
  {
    hide IsStd, SectorNeutral, StandardSize, SizeResidual, ZScore;
  }

  lemma TiltValue()
    ensures SizeTilt(0.8, -0.6, 0.6) == 0.8
  {
  }

  lemma FourAreTilted(std: seq<real> -> real)
    requires IsStd(std)
    ensures
      var column := NeutralizeDay(TILTED, TWO_SECTORS, SIZES, -1.0, 1.0, std);
      column.Some? && SectorMean(column.value, TWO_SECTORS, "A") == 0.8
  {
    hide NeutralizeDay, Sum, Dot, SectorMean, Mean, IsStd, SectorNeutral, StandardSize, SizeResidual, Beta, ZScore;
    hide SizeTilt;
    TiltedSteps(std);
    TiltedColumn(std);
    TiltedSizeMean();
    TiltValue();
    FinalSectorMean(TILTED, TWO_SECTORS, SIZES, -1.0, 1.0, std, "A");
  }

  /**
   * Four kinds of stock in two sectors, the second with the larger sizes: with eight or more of each kind, so that
   * the day is long enough to be neutralised, the first sector's mean ends up at 0.8 standard deviations. Half the
   * values are -1 and half 1, so these are the day's 1% and 99% quantiles too.
   */
  lemma SectorsCanBeTilted(std: seq<real> -> real, n: nat)
    requires IsStd(std) && n >= 8
    ensures |Copies(TILTED, n)| == |Copies(TWO_SECTORS, n)| == |Copies(SIZES, n)| == 4 * n >= MIN_ROWS
    ensures "A" in Copies(TWO_SECTORS, n)
    ensures
      var column := Day(Copies(TILTED, n), Copies(TWO_SECTORS, n), Copies(SIZES, n), -1.0, 1.0, std);
      column.Some? && SectorMean(column.value, Copies(TWO_SECTORS, n), "A") == 0.8
  {
    hide NeutralizeDay, SectorMean, IsStd, Copies;
    CopiesLength(TILTED, n);
    CopiesLength(TWO_SECTORS, n);
    CopiesLength(SIZES, n);
    FourAreTilted(std);
    CopiesAreNeutralizedAlike(TILTED, TWO_SECTORS, SIZES, -1.0, 1.0, std, n);
    var column := NeutralizeDay(TILTED, TWO_SECTORS, SIZES, -1.0, 1.0, std);
    SectorMeanOfCopies(column.value, TWO_SECTORS, n, "A");
  }

  lemma TiltedSizeMean()
    ensures "A" in TWO_SECTORS && SectorMean(UNIT_SIZES, TWO_SECTORS, "A") == -0.6
  {
    TwoOfFour(-1.4, 0.2, -0.2, 1.4);
  }
}
