/** A day on which every stock occurs n times: neutralisation gives every copy what the single stock gets. */
module CopiedStocks {
  import opened Options
  import opened Vectors
  import opened Neutralize

  /** The rows of a day, n times over. */
  function Copies<T>(x: seq<T>, n: nat): (r: seq<T>)
  {
    if n == 0 then [] else Copies(x, n - 1) + x
  }

  /** The row of the single day that row i copies. */
  function Origin(i: nat, rows: nat): (k: nat)
    requires rows > 0
    ensures k < rows
  {
    if i < rows then i else Origin(i - rows, rows)
  }

  function Scaled(n: nat, rows: nat): nat {
    n * rows
  }

  lemma ScaledStep(n: nat, rows: nat)
    ensures n > 0 ==> Scaled(n, rows) == Scaled(n - 1, rows) + rows
    ensures Scaled(0, rows) == 0
  {
  }

  lemma {:induction false} OriginInLast(n: nat, rows: nat, i: nat)
    requires rows > 0 && Scaled(n, rows) <= i < Scaled(n, rows) + rows
    ensures Origin(i, rows) == i - Scaled(n, rows)
  {
    ScaledStep(n, rows);
    hide Scaled;
    if n > 0 {
      OriginInLast(n - 1, rows, i - rows);
    }
  }

  lemma {:induction false} CopiesLength<T>(x: seq<T>, n: nat)
    ensures |Copies(x, n)| == Scaled(n, |x|)
  {
    if n > 0 {
      CopiesLength(x, n - 1);
      ScaledStep(n, |x|);
    }
  }

  lemma {:induction false} CopiesAt<T>(x: seq<T>, n: nat, i: nat)
    requires |x| > 0 && i < |Copies(x, n)|
    ensures Copies(x, n)[i] == x[Origin(i, |x|)]
  {
    hide Origin, Scaled;
    if n > 0 {
      CopiesLength(x, n - 1);
      if i < |Copies(x, n - 1)| {
        CopiesAt(x, n - 1, i);
      } else {
        OriginInLast(n - 1, |x|, i);
      }
    }
  }

  /** A column whose rows are all copied from their origin is the copied column. */
  lemma CopiedByRow<T>(r: seq<T>, x: seq<T>, n: nat)
    requires |x| > 0 && |r| == Scaled(n, |x|)
    requires forall i :: 0 <= i < |r| ==> r[i] == x[Origin(i, |x|)]
    ensures r == Copies(x, n)
  {
    hide Copies, Origin, Scaled;
    CopiesLength(x, n);
    forall i | 0 <= i < |r|
      ensures r[i] == Copies(x, n)[i]
    {
      CopiesAt(x, n, i);
    }
  }

  // ----- sums

  lemma {:induction false} SumConcat(a: seq<real>, b: seq<real>)
    ensures Sum(a + b) == Sum(a) + Sum(b)
  {
    if b == [] {
      assert a + b == a;
    } else {
      var n := |b| - 1;
      SumConcat(a, b[..n]);
      assert (a + b)[..|a| + n] == a + b[..n];
    }
  }

  lemma {:induction false} DotConcat(a: seq<real>, b: seq<real>, c: seq<real>, d: seq<real>)
    requires |a| == |c| && |b| == |d|
    ensures Dot(a + b, c + d) == Dot(a, c) + Dot(b, d)
  {
    hide Times;
    if b == [] {
      assert a + b == a && c + d == c;
    } else {
      var n := |b| - 1;
      DotConcat(a, b[..n], c, d[..n]);
      assert (a + b)[..|a| + n] == a + b[..n] && (c + d)[..|c| + n] == c + d[..n];
    }
  }

  lemma TimesStep(n: nat, v: real)
    ensures n > 0 ==> Times(n as real, v) == Times((n - 1) as real, v) + v
    ensures Times(0.0, v) == 0.0
  {
  }

  lemma {:induction false} SumOfCopies(x: seq<real>, n: nat)
    ensures Sum(Copies(x, n)) == Times(n as real, Sum(x))
  {
    TimesStep(n, Sum(x));
    hide Times;
    if n > 0 {
      SumOfCopies(x, n - 1);
      SumConcat(Copies(x, n - 1), x);
    }
  }

  lemma {:induction false} DotOfCopies(x: seq<real>, y: seq<real>, n: nat)
    requires |x| == |y|
    ensures |Copies(x, n)| == |Copies(y, n)|
    ensures Dot(Copies(x, n), Copies(y, n)) == Times(n as real, Dot(x, y))
  {
    TimesStep(n, Dot(x, y));
    hide Times;
    if n > 0 {
      DotOfCopies(x, y, n - 1);
      DotConcat(Copies(x, n - 1), x, Copies(y, n - 1), y);
    }
  }

  lemma CancelCopies(n: nat, v: real, rows: nat)
    requires n > 0 && rows > 0
    ensures Scaled(n, rows) > 0
    ensures Times(n as real, v) / Scaled(n, rows) as real == v / rows as real
  {
    var p, r := n as real, rows as real;
    assert Scaled(n, rows) as real == Times(p, r);
    assert Scaled(n, rows) > 0;
    CancelFactor(p, v, r);
  }

  lemma CancelFactor(p: real, v: real, r: real)
    requires p > 0.0 && r > 0.0
    ensures Times(p, r) > 0.0
    ensures Times(p, v) / Times(p, r) == v / r
  {
    var q := v / r;
    assert v == q * r;
    assert p * r > 0.0;
    assert p * v == q * (p * r);
  }

  lemma MeanOfCopies(x: seq<real>, n: nat)
    requires |x| > 0 && n > 0
    ensures |Copies(x, n)| > 0 && Mean(Copies(x, n)) == Mean(x)
  {
    hide Sum, Times, Scaled, Copies;
    SumOfCopies(x, n);
    CopiesLength(x, n);
    CancelCopies(n, Sum(x), |x|);
  }

  lemma CentredOfCopies(x: seq<real>, n: nat)
    requires |x| > 0 && n > 0
    ensures Centred(Copies(x, n)) == Copies(Centred(x), n)
  {
    hide Copies, Mean, Origin, Scaled;
    MeanOfCopies(x, n);
    CopiesLength(x, n);
    forall i | 0 <= i < |Copies(x, n)|
      ensures Copies(x, n)[i] == x[Origin(i, |x|)]
    {
      CopiesAt(x, n, i);
    }
    CopiedByRow(Centred(Copies(x, n)), Centred(x), n);
  }

  lemma SpreadOfCopies(x: seq<real>, n: nat)
    requires |x| > 0 && n > 0
    ensures CoMoment(Copies(x, n), Copies(x, n)) == Times(n as real, CoMoment(x, x))
  {
    hide Copies, Dot, Times, Centred;
    CentredOfCopies(x, n);
    DotOfCopies(Centred(x), Centred(x), n);
  }

  lemma SameSquare(n: nat, rows: nat, a: real, b: real)
    requires n > 0 && rows > 0 && a >= 0.0 && b >= 0.0
    requires Times(Times(a, a), Scaled(n, rows) as real) == Times(n as real, Times(Times(b, b), rows as real))
    ensures a == b
  {
    var p := n as real * rows as real;
    assert p > 0.0 && Scaled(n, rows) as real == p;
    assert (a * a - b * b) * p == 0.0;
    assert Times(a - b, a + b) == 0.0;
    NoZeroProduct(a - b, a + b);
  }

  lemma NoZeroProduct(x: real, y: real)
    requires Times(x, y) == 0.0
    ensures x == 0.0 || y == 0.0
  {
    if x != 0.0 {
      assert y == Times(x, y) / x;
    }
  }

  lemma StdSquare(x: seq<real>, std: Std)
    requires |x| > 0 && IsStd(std)
    ensures std(x) >= 0.0 && Times(Times(std(x), std(x)), |x| as real) == CoMoment(x, x)
  {
    hide Times, CoMoment;
    assert Times(Times(std(x), std(x)), |x| as real) == CoMoment(x, x);
  }

  lemma StdOfCopies(x: seq<real>, n: nat, std: Std)
    requires |x| > 0 && n > 0 && IsStd(std)
    ensures std(Copies(x, n)) == std(x)
  {
    hide IsStd, Copies, CoMoment, Times, Scaled;
    MeanOfCopies(x, n);
    CopiesLength(x, n);
    SpreadOfCopies(x, n);
    StdSquare(x, std);
    StdSquare(Copies(x, n), std);
    SameSquare(n, |x|, std(Copies(x, n)), std(x));
  }

  // ----- each step of the day

  lemma ClipOfCopies(x: seq<real>, n: nat, lo: real, hi: real)
    requires |x| > 0
    ensures Clip(Copies(x, n), lo, hi) == Copies(Clip(x, lo, hi), n)
  {
    hide Copies, Origin, Scaled;
    CopiesLength(x, n);
    forall i | 0 <= i < |Copies(x, n)|
      ensures Copies(x, n)[i] == x[Origin(i, |x|)]
    {
      CopiesAt(x, n, i);
    }
    CopiedByRow(Clip(Copies(x, n), lo, hi), Clip(x, lo, hi), n);
  }

  lemma ZScoreOfCopies(x: seq<real>, n: nat, sd: real)
    requires |x| > 0 && n > 0 && sd > 0.0
    ensures |Copies(x, n)| > 0
    ensures ZScore(Copies(x, n), sd) == Copies(ZScore(x, sd), n)
  {
    hide Copies, Mean, Origin, Scaled;
    MeanOfCopies(x, n);
    CopiesLength(x, n);
    forall i | 0 <= i < |Copies(x, n)|
      ensures Copies(x, n)[i] == x[Origin(i, |x|)]
    {
      CopiesAt(x, n, i);
    }
    CopiedByRow(ZScore(Copies(x, n), sd), ZScore(x, sd), n);
  }

  lemma {:induction false} MembersConcat(x: seq<real>, y: seq<real>, a: seq<Sector>, b: seq<Sector>, k: Sector)
    requires |x| == |a| && |y| == |b|
    ensures Members(x + y, a + b, k) == Members(x, a, k) + Members(y, b, k)
  {
    if y == [] {
      assert x + y == x && a + b == a;
    } else {
      var n := |y| - 1;
      MembersConcat(x, y[..n], a, b[..n], k);
      assert (x + y)[..|x| + n] == x + y[..n] && (a + b)[..|a| + n] == a + b[..n];
    }
  }

  lemma {:induction false} MembersOfCopies(x: seq<real>, sector: seq<Sector>, n: nat, k: Sector)
    requires |x| == |sector|
    ensures |Copies(x, n)| == |Copies(sector, n)|
    ensures Members(Copies(x, n), Copies(sector, n), k) == Copies(Members(x, sector, k), n)
  {
    hide Members;
    if n > 0 {
      MembersOfCopies(x, sector, n - 1, k);
      MembersConcat(Copies(x, n - 1), x, Copies(sector, n - 1), sector, k);
    } else {
      NoMembers([], [], k);
    }
  }

  lemma {:induction false} SectorOfCopies(sector: seq<Sector>, n: nat, k: Sector)
    requires n > 0 && k in sector
    ensures k in Copies(sector, n)
  {
  }

  lemma SectorMeanOfCopies(x: seq<real>, sector: seq<Sector>, n: nat, k: Sector)
    requires |x| == |sector| && n > 0 && k in sector
    ensures |Copies(x, n)| == |Copies(sector, n)| && k in Copies(sector, n)
    ensures SectorMean(Copies(x, n), Copies(sector, n), k) == SectorMean(x, sector, k)
  {
    hide Copies, Members, Mean;
    SectorOfCopies(sector, n, k);
    MembersOfCopies(x, sector, n, k);
    MembersNonEmpty(x, sector, k);
    MeanOfCopies(Members(x, sector, k), n);
  }

  lemma DemeanedOfCopies(x: seq<real>, sector: seq<Sector>, n: nat)
    requires |x| == |sector| > 0 && n > 0
    ensures |Copies(x, n)| == |Copies(sector, n)|
    ensures Demeaned(Copies(x, n), Copies(sector, n)) == Copies(Demeaned(x, sector), n)
  {
    hide Copies, SectorMean, Origin, Scaled;
    CopiesLength(x, n);
    CopiesLength(sector, n);
    forall i | 0 <= i < |Copies(x, n)|
      ensures Demeaned(Copies(x, n), Copies(sector, n))[i] == Demeaned(x, sector)[Origin(i, |x|)]
    {
      CopiesAt(x, n, i);
      CopiesAt(sector, n, i);
      SectorMeanOfCopies(x, sector, n, sector[Origin(i, |x|)]);
    }
    CopiedByRow(Demeaned(Copies(x, n), Copies(sector, n)), Demeaned(x, sector), n);
  }

  lemma StandardSizeOfCopies(size: seq<real>, n: nat, std: Std)
    requires |size| > 0 && n > 0 && IsStd(std)
    ensures |Copies(size, n)| > 0
    ensures StandardSize(Copies(size, n), std) == Copies(StandardSize(size, std), n)
  {
    hide IsStd, Copies, ZScore;
    StdOfCopies(size, n, std);
    StdSquare(size, std);
    ZScoreOfCopies(size, n, if std(size) == 0.0 then 1.0 else std(size));
  }

  /** The size's spread is zero or far from the threshold, so copying does not move it across. */
  lemma SameSide(n: nat, d: real)
    requires n > 0 && (d == 0.0 || d >= 1.0)
    ensures Times(n as real, d) > MIN_SIZE_VARIANCE <==> d > MIN_SIZE_VARIANCE
  {
  }

  lemma BetaOfCopies(x: seq<real>, s: seq<real>, n: nat)
    requires |x| == |s| && n > 0 && (Dot(s, s) == 0.0 || Dot(s, s) >= 1.0)
    ensures |Copies(x, n)| == |Copies(s, n)|
    ensures Beta(Copies(x, n), Copies(s, n)) == Beta(x, s)
    ensures Dot(Copies(s, n), Copies(s, n)) > MIN_SIZE_VARIANCE <==> Dot(s, s) > MIN_SIZE_VARIANCE
  {
    hide Copies, Dot, Times;
    DotOfCopies(x, s, n);
    DotOfCopies(s, s, n);
    SameSide(n, Dot(s, s));
    if Dot(s, s) > MIN_SIZE_VARIANCE {
      CancelFactor(n as real, Dot(x, s), Dot(s, s));
    }
  }

  lemma BlendOfCopies(x: seq<real>, beta: real, s: seq<real>, n: nat)
    requires |x| == |s| > 0
    ensures |Copies(x, n)| == |Copies(s, n)|
    ensures Blend(1.0, Copies(x, n), beta, Copies(s, n)) == Copies(Blend(1.0, x, beta, s), n)
  {
    hide Copies, Origin, Scaled, Times;
    CopiesLength(x, n);
    CopiesLength(s, n);
    forall i | 0 <= i < |Copies(x, n)|
      ensures Blend(1.0, Copies(x, n), beta, Copies(s, n))[i] == Blend(1.0, x, beta, s)[Origin(i, |x|)]
    {
      CopiesAt(x, n, i);
      CopiesAt(s, n, i);
    }
    CopiedByRow(Blend(1.0, Copies(x, n), beta, Copies(s, n)), Blend(1.0, x, beta, s), n);
  }

  lemma ResidualOfCopies(x: seq<real>, s: seq<real>, n: nat)
    requires |x| == |s| > 0 && n > 0 && (Dot(s, s) == 0.0 || Dot(s, s) >= 1.0)
    ensures |Copies(x, n)| == |Copies(s, n)|
    ensures SizeResidual(Copies(x, n), Copies(s, n)) == Copies(SizeResidual(x, s), n)
  {
    hide Copies, Dot, Blend, Beta;
    BetaOfCopies(x, s, n);
    BlendOfCopies(x, Beta(x, s), s, n);
  }

  function CopiesOf(column: Option<Column>, n: nat): Option<Column> {
    if column.None? then None else Some(Copies(column.value, n))
  }

  lemma SectorStepOfCopies(f: Column, sector: seq<Sector>, lo: real, hi: real, std: Std, n: nat)
    requires |f| == |sector| > 0 && IsStd(std) && n > 0
    ensures |Copies(f, n)| == |Copies(sector, n)| > 0
    ensures SectorNeutral(Copies(f, n), Copies(sector, n), lo, hi, std)
         == CopiesOf(SectorNeutral(f, sector, lo, hi, std), n)
  {
    hide IsStd, Copies, Clip, ZScore, Demeaned;
    var clipped := Clip(f, lo, hi);
    DemeanedOfCopies(f, sector, n);
    MeanOfCopies(f, n);
    ClipOfCopies(f, n, lo, hi);
    StdOfCopies(clipped, n, std);
    StdSquare(clipped, std);
    if std(clipped) > 0.0 {
      ZScoreOfCopies(clipped, n, std(clipped));
      DemeanedOfCopies(ZScore(clipped, std(clipped)), sector, n);
    }
  }

  /** Copying every stock n times copies the neutralised column n times; it is missing exactly when it was. */
  lemma CopiesAreNeutralizedAlike(
      f: Column, sector: seq<Sector>, size: Column, lo: real, hi: real, std: Std, n: nat)
    requires |f| == |sector| == |size| > 0 && IsStd(std) && n > 0
    ensures |Copies(f, n)| == |Copies(sector, n)| == |Copies(size, n)| > 0
    ensures NeutralizeDay(Copies(f, n), Copies(sector, n), Copies(size, n), lo, hi, std)
         == CopiesOf(NeutralizeDay(f, sector, size, lo, hi, std), n)
  {
    hide IsStd, Copies, ZScore, SectorNeutral, StandardSize, SizeResidual, Dot, Sum;
    SectorStepOfCopies(f, sector, lo, hi, std, n);
    StandardSizeOfCopies(size, n, std);
    CopiesLength(f, n);
    CopiesLength(size, n);
    var neutral := SectorNeutral(f, sector, lo, hi, std);
    if neutral.Some? {
      var s := StandardSize(size, std);
      StandardSizeMoments(size, std);
      ResidualOfCopies(neutral.value, s, n);
      var resid := SizeResidual(neutral.value, s);
      StdOfCopies(resid, n, std);
      StdSquare(resid, std);
      if std(resid) > 0.0 {
        ZScoreOfCopies(resid, n, std(resid));
      }
    }
  }
}
