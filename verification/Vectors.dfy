/** Finite real vectors: the sums, dot products and centred moments the scripts compute with numpy. */
module Vectors {

  /** Multiplication, named so that a proof about sums can hide it and stay linear. */
  function Times(x: real, y: real): real {
    x * y
  }

  function Sum(s: seq<real>): real {
    if |s| == 0 then 0.0 else Sum(s[..|s| - 1]) + s[|s| - 1]
  }

  function Dot(a: seq<real>, b: seq<real>): real
    requires |a| == |b|
  {
    if |a| == 0 then 0.0 else Dot(a[..|a| - 1], b[..|b| - 1]) + Times(a[|a| - 1], b[|b| - 1])
  }

  function Mean(s: seq<real>): real
    requires |s| > 0
  {
    Sum(s) / |s| as real
  }

  /** Every entry minus the mean; the empty vector is its own centring. */
  function Centred(s: seq<real>): (c: seq<real>)
    ensures |c| == |s|
    ensures forall i :: 0 <= i < |s| ==> c[i] == s[i] - Mean(s)
  {
    seq(|s|, i requires 0 <= i < |s| => s[i] - Mean(s))
  }

  /** The unnormalised covariance: the sum of products of deviations from the means. */
  function CoMoment(a: seq<real>, b: seq<real>): real
    requires |a| == |b|
  {
    Dot(Centred(a), Centred(b))
  }

  /** Entry by entry, b == scale * a + shift. */
  ghost predicate Affine(a: seq<real>, b: seq<real>, scale: real, shift: real) {
    |a| == |b| && forall i :: 0 <= i < |a| ==> b[i] == Times(scale, a[i]) + shift
  }

  lemma TimesSpread(s: real, x: real, t: real, p: real, q: real, y: real)
    ensures Times(s, p) + Times(t, q) + Times(Times(s, x) + t, y) == Times(s, p + Times(x, y)) + Times(t, q + y)
  {
  }

  lemma TimesUnit(x: real, y: real)
    ensures Times(1.0, x) == x && Times(0.0, x) == 0.0 && Times(x, 0.0) == 0.0
    ensures Times(x, y) == Times(y, x)
    ensures Times(-x, y) == -Times(x, y)
  {
  }

  lemma TimesSum(x: real, y: real, z: real)
    ensures Times(x, y + z) == Times(x, y) + Times(x, z)
    ensures Times(x, y - z) == Times(x, y) - Times(x, z)
  {
  }

  lemma {:induction false} SumAffine(a: seq<real>, b: seq<real>, scale: real, shift: real)
    requires Affine(a, b, scale, shift)
    ensures Sum(b) == Times(scale, Sum(a)) + Times(shift, |a| as real)
  {
    hide Times;
    if |a| == 0 {
      TimesUnit(scale, 0.0);
      TimesUnit(shift, 0.0);
    } else {
      var n := |a| - 1;
      SumAffine(a[..n], b[..n], scale, shift);
      TimesSum(scale, Sum(a[..n]), a[n]);
      TimesSum(shift, n as real, 1.0);
      TimesUnit(shift, 1.0);
    }
  }

  lemma SumAppend(a: seq<real>, x: real)
    ensures Sum(a + [x]) == Sum(a) + x
  {
    assert (a + [x])[..|a|] == a;
  }

  lemma DotAppend(a: seq<real>, b: seq<real>, x: real, y: real)
    requires |a| == |b|
    ensures Dot(a + [x], b + [y]) == Dot(a, b) + Times(x, y)
  {
    hide Times;
    assert (a + [x])[..|a|] == a;
    assert (b + [y])[..|b|] == b;
  }

  lemma {:induction false} DotSymmetric(a: seq<real>, b: seq<real>)
    requires |a| == |b|
    ensures Dot(a, b) == Dot(b, a)
  {
    hide Times;
    if |a| != 0 {
      DotSymmetric(a[..|a| - 1], b[..|b| - 1]);
      TimesUnit(a[|a| - 1], b[|b| - 1]);
    }
  }

  /** The dot product is linear in its first argument. */
  lemma {:induction false} DotAffine(a: seq<real>, b: seq<real>, scale: real, shift: real, w: seq<real>)
    requires Affine(a, b, scale, shift) && |w| == |a|
    ensures Dot(b, w) == Times(scale, Dot(a, w)) + Times(shift, Sum(w))
  {
    hide Times;
    if |a| == 0 {
      TimesUnit(scale, 0.0);
      TimesUnit(shift, 0.0);
    } else {
      var n := |a| - 1;
      DotAffine(a[..n], b[..n], scale, shift, w[..n]);
      TimesSpread(scale, a[n], shift, Dot(a[..n], w[..n]), Sum(w[..n]), w[n]);
    }
  }

  lemma {:induction false} SelfDotNonNegative(a: seq<real>)
    ensures Dot(a, a) >= 0.0
  {
    hide Times;
    if |a| != 0 {
      SelfDotNonNegative(a[..|a| - 1]);
      SquareSign(a[|a| - 1]);
    }
  }

  lemma SquareSign(x: real)
    ensures Times(x, x) >= 0.0
    ensures x != 0.0 ==> Times(x, x) > 0.0
  {
    if x > 0.0 {
      TimesPositive(x, x);
    } else if x < 0.0 {
      TimesPositive(-x, -x);
      assert Times(-x, -x) == Times(x, x);
    }
  }

  lemma TimesPositive(x: real, y: real)
    requires x > 0.0 && y > 0.0
    ensures Times(x, y) > 0.0
  {
  }

  /** Subtracting the mean, seen as an affine map. */
  lemma CentredIsAffine(a: seq<real>)
    requires |a| > 0
    ensures Affine(a, Centred(a), 1.0, -Mean(a))
  {
    hide Times;
    forall i | 0 <= i < |a|
      ensures Times(1.0, a[i]) == a[i]
    {
      TimesUnit(a[i], 0.0);
    }
  }

  lemma MeanTimesCount(a: seq<real>)
    requires |a| > 0
    ensures Times(Mean(a), |a| as real) == Sum(a)
  {
    hide Sum;
  }

  lemma CentredSumsToZero(a: seq<real>)
    ensures Sum(Centred(a)) == 0.0
  {
    hide Times;
    if |a| != 0 {
      CentredIsAffine(a);
      SumAffine(a, Centred(a), 1.0, -Mean(a));
      MeanTimesCount(a);
      TimesUnit(Sum(a), 0.0);
      TimesUnit(Mean(a), |a| as real);
    }
  }

  lemma CentredDot(a: seq<real>, w: seq<real>)
    requires |w| == |a| > 0
    ensures Dot(Centred(a), w) == Dot(a, w) - Times(Mean(a), Sum(w))
  {
    hide Times, Dot, Sum;
    CentredIsAffine(a);
    DotAffine(a, Centred(a), 1.0, -Mean(a), w);
    TimesUnit(Dot(a, w), 0.0);
    TimesUnit(Mean(a), Sum(w));
  }

  lemma CoMomentExpanded(a: seq<real>, b: seq<real>)
    requires |a| == |b| > 0
    ensures CoMoment(a, b) == Dot(a, b) - Times(Mean(b), Sum(a))
  {
    hide Times;
    CentredDot(a, Centred(b));
    CentredSumsToZero(b);
    TimesUnit(Mean(a), 0.0);
    DotSymmetric(a, Centred(b));
    CentredDot(b, a);
    DotSymmetric(a, b);
  }

  /** The one-pass form sxy - sx * sy / n equals the sum of products of deviations. */
  lemma OnePassCoMoment(a: seq<real>, b: seq<real>, n: real, sx: real, sy: real, sxy: real)
    requires |a| == |b| > 0
    requires n == |a| as real && sx == Sum(a) && sy == Sum(b) && sxy == Dot(a, b)
    ensures sxy - sx * sy / n == CoMoment(a, b)
  {
    CoMomentExpanded(a, b);
    hide Sum, Dot, CoMoment;
    MoveDivision(sxy, sx, sy, n, Mean(b), CoMoment(a, b));
  }

  lemma MoveDivision(sxy: real, sx: real, sy: real, n: real, meanY: real, c: real)
    requires n > 0.0 && meanY == sy / n && c == sxy - Times(meanY, sx)
    ensures sxy - sx * sy / n == c
  {
  }

  lemma MeanAffine(a: seq<real>, b: seq<real>, scale: real, shift: real)
    requires Affine(a, b, scale, shift) && |a| > 0
    ensures Mean(b) == Times(scale, Mean(a)) + shift
  {
    SumAffine(a, b, scale, shift);
    hide Sum;
    DivideAffine(Sum(a), |a| as real, scale, shift, Sum(b));
  }

  lemma DivideAffine(x: real, n: real, scale: real, shift: real, y: real)
    requires n > 0.0 && y == Times(scale, x) + Times(shift, n)
    ensures y / n == Times(scale, x / n) + shift
  {
    var q := x / n;
    assert y == (scale * q + shift) * n;
  }

  lemma CentredAffine(a: seq<real>, b: seq<real>, scale: real, shift: real)
    requires Affine(a, b, scale, shift)
    ensures Affine(Centred(a), Centred(b), scale, 0.0)
  {
    hide Times;
    if |a| != 0 {
      MeanAffine(a, b, scale, shift);
      forall i | 0 <= i < |a|
        ensures Centred(b)[i] == Times(scale, Centred(a)[i]) + 0.0
      {
        TimesSum(scale, a[i], Mean(a));
      }
    }
  }

  /** Centring removes a shift and keeps a scale. */
  lemma CoMomentAffine(a: seq<real>, b: seq<real>, scale: real, shift: real, w: seq<real>)
    requires Affine(a, b, scale, shift) && |w| == |a|
    ensures CoMoment(b, w) == Times(scale, CoMoment(a, w))
    ensures CoMoment(w, b) == Times(scale, CoMoment(w, a))
  {
    hide Times;
    CentredAffine(a, b, scale, shift);
    DotAffine(Centred(a), Centred(b), scale, 0.0, Centred(w));
    TimesUnit(Sum(Centred(w)), 0.0);
    DotSymmetric(Centred(w), Centred(a));
    DotSymmetric(Centred(w), Centred(b));
  }

  function Blend(u: real, a: seq<real>, v: real, b: seq<real>): (c: seq<real>)
    requires |a| == |b|
    ensures |c| == |a|
    ensures forall i :: 0 <= i < |a| ==> c[i] == Times(u, a[i]) - Times(v, b[i])
  {
    seq(|a|, i requires 0 <= i < |a| => Times(u, a[i]) - Times(v, b[i]))
  }

  /** The square of u * x - v * y, in terms of the squares and the product. */
  function Quadratic(u: real, v: real, xx: real, xy: real, yy: real): real {
    u * u * xx - 2.0 * u * v * xy + v * v * yy
  }

  lemma QuadraticStep(u: real, v: real, p: real, q: real, r: real, x: real, y: real)
    ensures Quadratic(u, v, p + Times(x, x), q + Times(x, y), r + Times(y, y))
         == Quadratic(u, v, p, q, r) + Times(Times(u, x) - Times(v, y), Times(u, x) - Times(v, y))
  {
  }

  lemma {:induction false} BlendSquare(u: real, a: seq<real>, v: real, b: seq<real>)
    requires |a| == |b|
    ensures Dot(Blend(u, a, v, b), Blend(u, a, v, b)) == Quadratic(u, v, Dot(a, a), Dot(a, b), Dot(b, b))
  {
    if |a| == 0 {
      assert Quadratic(u, v, 0.0, 0.0, 0.0) == 0.0;
    } else {
      hide Times, Quadratic;
      var n := |a| - 1;
      BlendSquare(u, a[..n], v, b[..n]);
      assert Blend(u, a, v, b)[..n] == Blend(u, a[..n], v, b[..n]);
      QuadraticStep(u, v, Dot(a[..n], a[..n]), Dot(a[..n], b[..n]), Dot(b[..n], b[..n]), a[n], b[n]);
    }
  }

  lemma {:induction false} ZeroVector(a: seq<real>, b: seq<real>)
    requires |a| == |b| && Dot(a, a) <= 0.0
    ensures Dot(a, b) == 0.0
  {
    hide Times;
    if |a| != 0 {
      var n := |a| - 1;
      SelfDotNonNegative(a[..n]);
      SquareSign(a[n]);
      ZeroVector(a[..n], b[..n]);
      TimesUnit(b[n], 0.0);
      TimesUnit(0.0, b[n]);
    }
  }

  lemma CauchySchwarz(a: seq<real>, b: seq<real>)
    requires |a| == |b|
    ensures Times(Dot(a, b), Dot(a, b)) <= Times(Dot(a, a), Dot(b, b))
  {
    hide Times, Quadratic;
    var p, q, r := Dot(a, a), Dot(a, b), Dot(b, b);
    SelfDotNonNegative(a);
    if p <= 0.0 {
      ZeroVector(a, b);
      TimesUnit(r, 0.0);
      TimesUnit(0.0, r);
    } else {
      BlendSquare(q, a, p, b);
      SelfDotNonNegative(Blend(q, a, p, b));
      Discriminant(p, q, r);
    }
  }

  lemma Discriminant(p: real, q: real, r: real)
    requires p > 0.0 && Quadratic(q, p, p, q, r) >= 0.0
    ensures Times(q, q) <= Times(p, r)
  {
    var d := p * r - q * q;
    assert Quadratic(q, p, p, q, r) == p * d;
    if d < 0.0 {
      TimesPositive(p, -d);
      assert false;
    }
  }

  lemma BlendParts(u: real, p: real, v: real, q: real, x: real, y: real, w: real)
    ensures Times(u, p) - Times(v, q) + Times(Times(u, x) - Times(v, y), w)
         == Times(u, p + Times(x, w)) - Times(v, q + Times(y, w))
  {
  }

  /** Sums and dot products are linear in a blend of two vectors. */
  lemma {:induction false} BlendLinear(u: real, a: seq<real>, v: real, b: seq<real>, w: seq<real>)
    requires |a| == |b| == |w|
    ensures Sum(Blend(u, a, v, b)) == Times(u, Sum(a)) - Times(v, Sum(b))
    ensures Dot(Blend(u, a, v, b), w) == Times(u, Dot(a, w)) - Times(v, Dot(b, w))
  {
    hide Times;
    if |a| == 0 {
      TimesUnit(u, 0.0);
      TimesUnit(v, 0.0);
    } else {
      var n := |a| - 1;
      BlendLinear(u, a[..n], v, b[..n], w[..n]);
      assert Blend(u, a, v, b)[..n] == Blend(u, a[..n], v, b[..n]);
      TimesSum(u, Sum(a[..n]), a[n]);
      TimesSum(v, Sum(b[..n]), b[n]);
      BlendParts(u, Dot(a[..n], w[..n]), v, Dot(b[..n], w[..n]), a[n], b[n], w[n]);
    }
  }
}
