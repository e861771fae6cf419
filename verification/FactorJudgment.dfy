/** The vectorised daily rank-IC engine: six bincounts that have to equal one Pearson correlation per date. */
module FactorJudgment {
  import opened Options
  import opened Vectors
  import opened Ranks
  import opened Calendars

  const MIN_ROWS := 100
  const MIN_NAMES := 30

  // ----- what the engine should compute

  /** The entries of col in the rows of date d that pass the mask, in row order. */
  function Column(dates: seq<int>, ok: seq<bool>, col: seq<Option<real>>, d: int): (c: seq<real>)
    requires |dates| == |ok| == |col|
    requires forall i :: 0 <= i < |ok| && ok[i] ==> col[i].Some?
  {
    if |dates| == 0 then []
    else
      var n := |dates| - 1;
      var c := Column(dates[..n], ok[..n], col[..n], d);
      if ok[n] && dates[n] == d then c + [col[n].value] else c
  }

  lemma {:induction false} ColumnsAlign(
      dates: seq<int>, ok: seq<bool>, x: seq<Option<real>>, y: seq<Option<real>>, d: int)
    requires |dates| == |ok| == |x| == |y|
    requires forall i :: 0 <= i < |ok| && ok[i] ==> x[i].Some? && y[i].Some?
    ensures |Column(dates, ok, x, d)| == |Column(dates, ok, y, d)|
  {
    if |dates| != 0 {
      var n := |dates| - 1;
      ColumnsAlign(dates[..n], ok[..n], x[..n], y[..n], d);
    }
  }

  /** A square root of every non-negative number, as numpy's sqrt provides. */
  ghost predicate IsRoot(root: real -> real) {
    forall x: real :: x >= 0.0 ==> root(x) >= 0.0 && Times(root(x), root(x)) == x
  }

  /** Pearson's correlation of two columns by deviations from the mean, where the engine emits one. */
  function Pearson(x: seq<real>, y: seq<real>, root: real -> real): Option<real>
    requires |x| == |y| && IsRoot(root)
  {
    var spread := Times(CoMoment(x, x), CoMoment(y, y));
    if |x| >= MIN_NAMES && spread > 0.0 then
      RootPositive(root, spread);
      Some(CoMoment(x, y) / root(spread))
    else None
  }

  lemma RootPositive(root: real -> real, x: real)
    requires IsRoot(root) && x > 0.0
    ensures root(x) > 0.0
  {
    assert Times(root(x), root(x)) == x;
    if root(x) == 0.0 {
      TimesUnit(0.0, 0.0);
    }
  }

  function Eligible(x: seq<Option<real>>, y: seq<Option<real>>, eligible: seq<bool>): (ok: seq<bool>)
    requires |x| == |y| == |eligible|
    ensures |ok| == |eligible|
    ensures forall i :: 0 <= i < |ok| ==> (ok[i] <==> x[i].Some? && y[i].Some? && eligible[i])
  {
    seq(|x|, i requires 0 <= i < |x| => x[i].Some? && y[i].Some? && eligible[i])
  }

  function CountTrue(s: seq<bool>): nat {
    if |s| == 0 then 0 else CountTrue(s[..|s| - 1]) + if s[|s| - 1] then 1 else 0
  }

  /** Keep the dates whose entry is present. */
  function Emitted(dates: seq<int>, corr: seq<Option<real>>): (r: seq<(int, real)>)
    requires |dates| == |corr|
  {
    if |dates| == 0 then []
    else
      var n := |dates| - 1;
      var r := Emitted(dates[..n], corr[..n]);
      if corr[n].Some? then r + [(dates[n], corr[n].value)] else r
  }

  lemma {:induction false} EmittedFrom(dates: seq<int>, corr: seq<Option<real>>, p: (int, real)) returns (k: nat)
    requires |dates| == |corr| && p in Emitted(dates, corr)
    ensures k < |dates| && p.0 == dates[k] && corr[k] == Some(p.1)
  {
    var n := |dates| - 1;
    if corr[n].Some? && p == (dates[n], corr[n].value) {
      k := n;
    } else {
      k := EmittedFrom(dates[..n], corr[..n], p);
    }
  }

  /** A date's correlation between two rank columns over the rows that pass the mask. */
  function PearsonOn(
      dates: seq<int>, ok: seq<bool>, x: seq<Option<real>>, y: seq<Option<real>>, root: real -> real, d: int)
      : Option<real>
    requires |dates| == |ok| == |x| == |y| && IsRoot(root)
    requires forall i :: 0 <= i < |ok| && ok[i] ==> x[i].Some? && y[i].Some?
  {
    ColumnsAlign(dates, ok, x, y, d);
    Pearson(Column(dates, ok, x, d), Column(dates, ok, y, d), root)
  }

  /** The daily IC between two rank columns: Pearson date by date, or nothing when too few rows qualify. */
  function RankICs(
      dates: seq<int>, x: seq<Option<real>>, y: seq<Option<real>>, eligible: seq<bool>, root: real -> real)
      : seq<(int, real)>
    requires |dates| == |x| == |y| == |eligible| && IsRoot(root)
  {
    var ok := Eligible(x, y, eligible);
    if CountTrue(ok) < MIN_ROWS then []
    else
      var days := SortedUnique(dates);
      Emitted(days, seq(|days|, k requires 0 <= k < |days| => PearsonOn(dates, ok, x, y, root, days[k])))
  }

  /** The reference: clean the factor, rank it over each whole date, correlate over the eligible rows only. */
  function SpearmanSeries(
      dates: seq<int>, values: seq<Num>, labels: seq<Num>, eligible: seq<bool>, root: real -> real): seq<(int, real)>
    requires |dates| == |values| == |labels| == |eligible| && IsRoot(root)
  {
    RankICs(dates, RankColumn(dates, Cleaned(values)), RankColumn(dates, labels), eligible, root)
  }

  /** Infinities count as missing. */
  function Cleaned(values: seq<Num>): (r: seq<Num>)
    ensures |r| == |values|
    ensures forall i :: 0 <= i < |r| ==> r[i] == if values[i].Fin? then values[i] else NaN
  {
    seq(|values|, i requires 0 <= i < |values| => if values[i].Fin? then values[i] else NaN)
  }

  // ----- how the engine computes it

  function Select<T>(s: seq<T>, ok: seq<bool>): (r: seq<T>)
    requires |s| == |ok|
  {
    if |s| == 0 then []
    else
      var n := |s| - 1;
      var r := Select(s[..n], ok[..n]);
      if ok[n] then r + [s[n]] else r
  }

  function SelectPresent(s: seq<Option<real>>, ok: seq<bool>): (r: seq<real>)
    requires |s| == |ok|
    requires forall i :: 0 <= i < |s| && ok[i] ==> s[i].Some?
  {
    if |s| == 0 then []
    else
      var n := |s| - 1;
      var r := SelectPresent(s[..n], ok[..n]);
      if ok[n] then r + [s[n].value] else r
  }

  function Products(a: seq<real>, b: seq<real>): (r: seq<real>)
    requires |a| == |b|
    ensures |r| == |a|
    ensures forall i :: 0 <= i < |r| ==> r[i] == Times(a[i], b[i])
  {
    seq(|a|, i requires 0 <= i < |a| => Times(a[i], b[i]))
  }

  /** One bin of an unweighted bincount. */
  function BinCount(c: seq<nat>, k: nat): nat {
    if |c| == 0 then 0 else BinCount(c[..|c| - 1], k) + if c[|c| - 1] == k then 1 else 0
  }

  /** One bin of a weighted bincount. */
  function BinSum(c: seq<nat>, w: seq<real>, k: nat): real
    requires |c| == |w|
  {
    if |c| == 0 then 0.0
    else BinSum(c[..|c| - 1], w[..|w| - 1], k) + if c[|c| - 1] == k then w[|w| - 1] else 0.0
  }

  lemma {:induction false} SelectedLengths(codes: seq<nat>, x: seq<Option<real>>, ok: seq<bool>)
    requires |codes| == |x| == |ok|
    requires forall i :: 0 <= i < |ok| && ok[i] ==> x[i].Some?
    ensures |Select(codes, ok)| == |SelectPresent(x, ok)| == CountTrue(ok)
  {
    if |ok| != 0 {
      var n := |ok| - 1;
      SelectedLengths(codes[..n], x[..n], ok[..n]);
    }
  }

  lemma BinAppend(c: seq<nat>, w: seq<real>, code: nat, x: real, k: nat)
    requires |c| == |w|
    ensures BinCount(c + [code], k) == BinCount(c, k) + if code == k then 1 else 0
    ensures BinSum(c + [code], w + [x], k) == BinSum(c, w, k) + if code == k then x else 0.0
  {
    assert (c + [code])[..|c|] == c;
    assert (w + [x])[..|w|] == w;
  }

  lemma ProductsAppend(a: seq<real>, b: seq<real>, x: real, y: real)
    requires |a| == |b|
    ensures Products(a + [x], b + [y]) == Products(a, b) + [Times(x, y)]
  {
    hide Times;
  }

  /** A bin of the compressed arrays is a sum over the date's own rows. */
  lemma {:induction false} BinsAreColumns(
    dates: seq<int>, codes: seq<nat>, ok: seq<bool>, x: seq<Option<real>>, d: int, k: nat)
    requires |dates| == |codes| == |ok| == |x|
    requires forall i :: 0 <= i < |ok| ==> (codes[i] == k <==> dates[i] == d)
    requires forall i :: 0 <= i < |ok| && ok[i] ==> x[i].Some?
    requires |Select(codes, ok)| == |SelectPresent(x, ok)|
    ensures BinCount(Select(codes, ok), k) == |Column(dates, ok, x, d)|
    ensures BinSum(Select(codes, ok), SelectPresent(x, ok), k) == Sum(Column(dates, ok, x, d))
  {
    if |ok| != 0 {
      var n := |ok| - 1;
      SelectedLengths(codes[..n], x[..n], ok[..n]);
      BinsAreColumns(dates[..n], codes[..n], ok[..n], x[..n], d, k);
      if ok[n] {
        hide BinCount, BinSum, Sum;
        BinAppend(Select(codes[..n], ok[..n]), SelectPresent(x[..n], ok[..n]), codes[n], x[n].value, k);
        SumAppend(Column(dates[..n], ok[..n], x[..n], d), x[n].value);
      }
    }
  }

  lemma {:induction false} BinsAreDots(
    dates: seq<int>, codes: seq<nat>, ok: seq<bool>, x: seq<Option<real>>, y: seq<Option<real>>, d: int, k: nat)
    requires |dates| == |codes| == |ok| == |x| == |y|
    requires forall i :: 0 <= i < |ok| ==> (codes[i] == k <==> dates[i] == d)
    requires forall i :: 0 <= i < |ok| && ok[i] ==> x[i].Some? && y[i].Some?
    requires |Select(codes, ok)| == |SelectPresent(x, ok)| == |SelectPresent(y, ok)|
    requires |Column(dates, ok, x, d)| == |Column(dates, ok, y, d)|
    ensures BinSum(Select(codes, ok), Products(SelectPresent(x, ok), SelectPresent(y, ok)), k)
         == Dot(Column(dates, ok, x, d), Column(dates, ok, y, d))
  {
    hide Times;
    if |ok| != 0 {
      var n := |ok| - 1;
      SelectedLengths(codes[..n], x[..n], ok[..n]);
      SelectedLengths(codes[..n], y[..n], ok[..n]);
      ColumnsAlign(dates[..n], ok[..n], x[..n], y[..n], d);
      BinsAreDots(dates[..n], codes[..n], ok[..n], x[..n], y[..n], d, k);
      if ok[n] {
        hide BinSum, Dot;
        var c, w, v := Select(codes[..n], ok[..n]), SelectPresent(x[..n], ok[..n]), SelectPresent(y[..n], ok[..n]);
        ProductsAppend(w, v, x[n].value, y[n].value);
        BinAppend(c, Products(w, v), codes[n], Times(x[n].value, y[n].value), k);
        var xs, ys := Column(dates[..n], ok[..n], x[..n], d), Column(dates[..n], ok[..n], y[..n], d);
        DotAppend(xs, ys, x[n].value, y[n].value);
      }
    }
  }

  /** The correlation of one bin from its six sums; nothing where it is not finite or too thin. */
  function FromSums(n: nat, sx: real, sy: real, sxx: real, syy: real, sxy: real, root: real -> real): Option<real>
    requires IsRoot(root)
  {
    if n < MIN_NAMES then None
    else
      var cov := sxy - sx * sy / n as real;
      var vx := sxx - sx * sx / n as real;
      var vy := syy - sy * sy / n as real;
      if Times(vx, vy) > 0.0 then
        RootPositive(root, Times(vx, vy));
        Some(cov / root(Times(vx, vy)))
      else None
  }

  lemma FromSumsIsPearson(x: seq<real>, y: seq<real>, root: real -> real)
    requires |x| == |y| && IsRoot(root)
    ensures FromSums(|x|, Sum(x), Sum(y), Dot(x, x), Dot(y, y), Dot(x, y), root) == Pearson(x, y, root)
  {
    if |x| >= MIN_NAMES {
      var n, sx, sy, sxx, syy, sxy := |x| as real, Sum(x), Sum(y), Dot(x, x), Dot(y, y), Dot(x, y);
      OnePassCoMoment(x, y, n, sx, sy, sxy);
      OnePassCoMoment(x, x, n, sx, sx, sxx);
      OnePassCoMoment(y, y, n, sy, sy, syy);
      FromMoments(|x|, sx, sy, sxx, syy, sxy, CoMoment(x, y), CoMoment(x, x), CoMoment(y, y), root);
    }
  }

  lemma FromMoments(
    n: nat, sx: real, sy: real, sxx: real, syy: real, sxy: real, cov: real, vx: real, vy: real, root: real -> real)
    requires IsRoot(root) && n >= MIN_NAMES
    requires sxy - sx * sy / n as real == cov
    requires sxx - sx * sx / n as real == vx
    requires syy - sy * sy / n as real == vy
    ensures FromSums(n, sx, sy, sxx, syy, sxy, root) ==
      if Times(vx, vy) > 0.0 then RootPositive(root, Times(vx, vy)); Some(cov / root(Times(vx, vy))) else None
  {
    hide Times, IsRoot;
  }

  lemma Inhabited(s: set<int>)
    requires s != {}
    ensures exists h :: h in s
  {
    assert (forall h :: h !in s) ==> s == {};
  }

  class DailyICEngine {
    var dates: seq<int>
    var dateIndex: seq<int>
    var dateCodes: seq<nat>
    var nDates: nat
    var eligible: seq<bool>
    var labelRanks: map<int, seq<Option<real>>>
    ghost var labels: map<int, seq<Num>>

    /** The fields are what the constructor derived from the dates, the labels and the mask. */
    ghost predicate Valid()
      reads this
    {
      && dateIndex == SortedUnique(dates) && nDates == |dateIndex|
      && |dateCodes| == |dates| == |eligible|
      && (forall i :: 0 <= i < |dates| ==> dateCodes[i] < nDates && dateIndex[dateCodes[i]] == dates[i])
      && labelRanks.Keys == labels.Keys
      && (forall h :: h in labels ==> |labels[h]| == |dates| && labelRanks[h] == RankColumn(dates, labels[h]))
    }

    constructor (dates: seq<int>, labels: map<int, seq<Num>>, eligible: seq<bool>)
      requires |dates| == |eligible|
      requires forall h :: h in labels ==> |labels[h]| == |dates|
      ensures Valid()
      ensures this.dates == dates && this.labels == labels && this.eligible == eligible
    {
      var index := SortedUnique(dates);
      this.dates, this.eligible, this.labels := dates, eligible, labels;
      dateIndex, nDates := index, |index|;
      dateCodes := seq(|dates|, i requires 0 <= i < |dates| => IndexOf(index, dates[i]));
      labelRanks := map[];
      new;
      var todo := labels.Keys;
      while todo != {}
        invariant this.dates == dates && this.eligible == eligible && this.labels == labels
        invariant dateIndex == index && nDates == |index|
        invariant dateCodes == seq(|dates|, i requires 0 <= i < |dates| => IndexOf(index, dates[i]))
        invariant todo <= labels.Keys && labelRanks.Keys == labels.Keys - todo
        invariant forall h :: h in labelRanks ==> labelRanks[h] == RankColumn(dates, labels[h])
        decreases todo
      {
        assert exists h :: h in todo by {
          Inhabited(todo);
        }
        var h :| h in todo;
        labelRanks := labelRanks[h := RankColumn(dates, labels[h])];
        todo := todo - {h};
      }
    }

    /** The six bincounts give, for every date and mask, exactly that date's Pearson correlation. */
    method DailyIC(values: seq<Num>, horizon: int, root: real -> real) returns (ic: seq<(int, real)>)
      requires Valid() && |values| == |dates| && horizon in labels && IsRoot(root)
      ensures ic == SpearmanSeries(dates, values, labels[horizon], eligible, root)
    {
      hide Column, Select, SelectPresent, BinCount, BinSum, Emitted, FromSums, PearsonOn, Products, SortedUnique;
      var fRank := RankColumn(dates, Cleaned(values));
      var y := labelRanks[horizon];
      var ok := Eligible(fRank, y, eligible);
      if CountTrue(ok) < MIN_ROWS {
        return [];
      }
      var c, x, yy := Select(dateCodes, ok), SelectPresent(fRank, ok), SelectPresent(y, ok);
      SelectedLengths(dateCodes, fRank, ok);
      SelectedLengths(dateCodes, y, ok);
      var xx, yyyy, xy := Products(x, x), Products(yy, yy), Products(x, yy);
      var days := nDates;
      var n := seq(days, k requires 0 <= k < days => BinCount(c, k));
      var sx := seq(days, k requires 0 <= k < days => BinSum(c, x, k));
      var sy := seq(days, k requires 0 <= k < days => BinSum(c, yy, k));
      var sxx := seq(days, k requires 0 <= k < days => BinSum(c, xx, k));
      var syy := seq(days, k requires 0 <= k < days => BinSum(c, yyyy, k));
      var sxy := seq(days, k requires 0 <= k < days => BinSum(c, xy, k));
      var corr := seq(days, k requires 0 <= k < days =>
        FromSums(n[k], sx[k], sy[k], sxx[k], syy[k], sxy[k], root));
      var index, rowDates := dateIndex, dates;
      forall k | 0 <= k < days
        ensures corr[k] == PearsonOn(dates, ok, fRank, y, root, index[k])
      {
        CodesNameDates(k);
        SumsArePearson(dates, dateCodes, ok, fRank, y, root, index[k], k);
      }
      assert corr == seq(days, k requires 0 <= k < days => PearsonOn(rowDates, ok, fRank, y, root, index[k]));
      ic := Emitted(dateIndex, corr);
    }

    lemma CodesNameDates(k: nat)
      requires Valid() && k < nDates
      ensures forall i :: 0 <= i < |dates| ==> (dateCodes[i] == k <==> dates[i] == dateIndex[k])
    {
    }
  }

  lemma SumsArePearson(
    dates: seq<int>, codes: seq<nat>, ok: seq<bool>, x: seq<Option<real>>, y: seq<Option<real>>,
    root: real -> real, d: int, k: nat)
    requires |dates| == |codes| == |ok| == |x| == |y| && IsRoot(root)
    requires forall i :: 0 <= i < |ok| ==> (codes[i] == k <==> dates[i] == d)
    requires forall i :: 0 <= i < |ok| && ok[i] ==> x[i].Some? && y[i].Some?
    requires |Select(codes, ok)| == |SelectPresent(x, ok)| == |SelectPresent(y, ok)|
    ensures FromSums(BinCount(Select(codes, ok), k),
        BinSum(Select(codes, ok), SelectPresent(x, ok), k), BinSum(Select(codes, ok), SelectPresent(y, ok), k),
        BinSum(Select(codes, ok), Products(SelectPresent(x, ok), SelectPresent(x, ok)), k),
        BinSum(Select(codes, ok), Products(SelectPresent(y, ok), SelectPresent(y, ok)), k),
        BinSum(Select(codes, ok), Products(SelectPresent(x, ok), SelectPresent(y, ok)), k), root)
      == PearsonOn(dates, ok, x, y, root, d)
  {
    ColumnsAlign(dates, ok, x, y, d);
    BinsAreColumns(dates, codes, ok, x, d, k);
    BinsAreColumns(dates, codes, ok, y, d, k);
    BinsAreDots(dates, codes, ok, x, x, d, k);
    BinsAreDots(dates, codes, ok, y, y, d, k);
    BinsAreDots(dates, codes, ok, x, y, d, k);
    FromSumsIsPearson(Column(dates, ok, x, d), Column(dates, ok, y, d), root);
  }

  // ----- what a reader of the series may rely on

  lemma PearsonBounded(x: seq<real>, y: seq<real>, root: real -> real)
    requires |x| == |y| && IsRoot(root) && Pearson(x, y, root).Some?
    ensures -1.0 <= Pearson(x, y, root).value <= 1.0
  {
    CauchySchwarz(Centred(x), Centred(y));
    var spread := Times(CoMoment(x, x), CoMoment(y, y));
    RootPositive(root, spread);
    assert Times(root(spread), root(spread)) == spread;
    QuotientBounded(CoMoment(x, y), root(spread));
  }

  lemma QuotientBounded(c: real, r: real)
    requires r > 0.0 && Times(c, c) <= Times(r, r)
    ensures -1.0 <= c / r <= 1.0
  {
    if c > r {
      SquareGrows(c, r);
      assert false;
    } else if -c > r {
      assert Times(-c, -c) == Times(c, c);
      SquareGrows(-c, r);
      assert false;
    }
  }

  lemma SquareGrows(c: real, r: real)
    requires c > r > 0.0
    ensures Times(c, c) > Times(r, r)
  {
    TimesPositive(c - r, c + r);
  }

  /** Every emitted IC is a correlation: Cauchy-Schwarz keeps it within [-1, 1]. */
  lemma EveryICIsBounded(
      dates: seq<int>, values: seq<Num>, labels: seq<Num>, eligible: seq<bool>, root: real -> real, p: (int, real))
    requires |dates| == |values| == |labels| == |eligible| && IsRoot(root)
    requires p in SpearmanSeries(dates, values, labels, eligible, root)
    ensures -1.0 <= p.1 <= 1.0 && p.0 in dates
  {
    var x, y := RankColumn(dates, Cleaned(values)), RankColumn(dates, labels);
    var ok := Eligible(x, y, eligible);
    var days := SortedUnique(dates);
    var corr := seq(|days|, k requires 0 <= k < |days| => PearsonOn(dates, ok, x, y, root, days[k]));
    assert p in Emitted(days, corr);
    var k := EmittedFrom(days, corr, p);
    assert days[k] in days;
    assert corr[k] == PearsonOn(dates, ok, x, y, root, days[k]);
    ColumnsAlign(dates, ok, x, y, days[k]);
    PearsonBounded(Column(dates, ok, x, days[k]), Column(dates, ok, y, days[k]), root);
  }

  function NegateSeries(s: seq<(int, real)>): (r: seq<(int, real)>)
    ensures |r| == |s|
    ensures forall i :: 0 <= i < |r| ==> r[i] == (s[i].0, -s[i].1)
  {
    seq(|s|, i requires 0 <= i < |s| => (s[i].0, -s[i].1))
  }

  function NegateOption(o: Option<real>): Option<real> {
    match o
    case None => None
    case Some(v) => Some(-v)
  }

  lemma {:induction false} EmittedNegate(days: seq<int>, a: seq<Option<real>>, b: seq<Option<real>>)
    requires |days| == |a| == |b|
    requires forall k :: 0 <= k < |a| ==> b[k] == NegateOption(a[k])
    ensures Emitted(days, b) == NegateSeries(Emitted(days, a))
  {
    if |days| != 0 {
      var n := |days| - 1;
      EmittedNegate(days[..n], a[..n], b[..n]);
    }
  }

  /** Mirrored ranks: x' = N + 1 - x on the rows of one date. */
  lemma {:induction false} ColumnMirror(
    dates: seq<int>, ok: seq<bool>, a: seq<Option<real>>, b: seq<Option<real>>, d: int, top: real)
    requires |dates| == |ok| == |a| == |b|
    requires forall i :: 0 <= i < |ok| && ok[i] ==> a[i].Some? && b[i].Some?
    requires forall i :: 0 <= i < |ok| && ok[i] && dates[i] == d ==> b[i].value == Times(-1.0, a[i].value) + top
    ensures Affine(Column(dates, ok, a, d), Column(dates, ok, b, d), -1.0, top)
  {
    hide Times;
    if |dates| != 0 {
      var n := |dates| - 1;
      ColumnMirror(dates[..n], ok[..n], a[..n], b[..n], d, top);
    }
  }

  lemma PearsonMirror(x: seq<real>, x': seq<real>, y: seq<real>, root: real -> real, top: real)
    requires Affine(x, x', -1.0, top) && |x| == |y| && IsRoot(root)
    ensures Pearson(x', y, root) == NegateOption(Pearson(x, y, root))
  {
    assert |x'| == |x|;
    MirrorMoments(x, x', y, top);
    hide CoMoment, Affine, Times;
    var spread := Times(CoMoment(x, x), CoMoment(y, y));
    if |x| >= MIN_NAMES && spread > 0.0 {
      RootPositive(root, spread);
      NegateQuotient(CoMoment(x, y), root(spread));
    }
  }

  lemma MirrorMoments(x: seq<real>, x': seq<real>, y: seq<real>, top: real)
    requires Affine(x, x', -1.0, top) && |x| == |y|
    ensures CoMoment(x', y) == -CoMoment(x, y)
    ensures CoMoment(x', x') == CoMoment(x, x)
  {
    CoMomentAffine(x, x', -1.0, top, y);
    CoMomentAffine(x, x', -1.0, top, x);
    CoMomentAffine(x, x', -1.0, top, x');
    MinusOne(CoMoment(x, y));
    MinusOne(CoMoment(x, x));
    MinusOne(CoMoment(x, x'));
  }

  lemma MinusOne(x: real)
    ensures Times(-1.0, x) == -x
  {
  }

  lemma NegateQuotient(c: real, r: real)
    requires r > 0.0
    ensures (-c) / r == -(c / r)
  {
  }

  lemma CleanedNegate(values: seq<Num>)
    ensures Cleaned(NegateAll(values)) == NegateAll(Cleaned(values))
  {
  }

  /** Judging the negated factor negates every daily IC and changes nothing else. */
  lemma NegatedFactorNegatesICs(
    dates: seq<int>, values: seq<Num>, labels: seq<Num>, eligible: seq<bool>, root: real -> real)
    requires |dates| == |values| == |labels| == |eligible| && IsRoot(root)
    ensures SpearmanSeries(dates, NegateAll(values), labels, eligible, root)
         == NegateSeries(SpearmanSeries(dates, values, labels, eligible, root))
  {
    var v := Cleaned(values);
    CleanedNegate(values);
    var a, b, y := RankColumn(dates, v), RankColumn(dates, NegateAll(v)), RankColumn(dates, labels);
    var ok := Eligible(a, y, eligible);
    assert ok == Eligible(b, y, eligible);
    var days := SortedUnique(dates);
    var before := seq(|days|, k requires 0 <= k < |days| => PearsonOn(dates, ok, a, y, root, days[k]));
    var after := seq(|days|, k requires 0 <= k < |days| => PearsonOn(dates, ok, b, y, root, days[k]));
    forall k | 0 <= k < |days|
      ensures after[k] == NegateOption(before[k])
    {
      PearsonOnNegate(dates, v, ok, y, root, days[k]);
    }
    EmittedNegate(days, before, after);
  }

  lemma PearsonOnNegate(dates: seq<int>, v: seq<Num>, ok: seq<bool>, y: seq<Option<real>>, root: real -> real, d: int)
    requires |dates| == |v| == |ok| == |y| && IsRoot(root)
    requires forall i :: 0 <= i < |ok| && ok[i] ==> v[i] != NaN && y[i].Some?
    ensures PearsonOn(dates, ok, RankColumn(dates, NegateAll(v)), y, root, d)
         == NegateOption(PearsonOn(dates, ok, RankColumn(dates, v), y, root, d))
  {
    var a, b := RankColumn(dates, v), RankColumn(dates, NegateAll(v));
    var top := |Group(dates, v, d)| as real + 1.0;
    forall i | 0 <= i < |ok| && ok[i] && dates[i] == d
      ensures b[i].value == Times(-1.0, a[i].value) + top
    {
      RankColumnNegate(dates, v, i);
      MinusOne(a[i].value);
    }
    ColumnMirror(dates, ok, a, b, d, top);
    ColumnsAlign(dates, ok, a, y, d);
    PearsonMirror(Column(dates, ok, a, d), Column(dates, ok, b, d), Column(dates, ok, y, d), root, top);
  }

  /** A transform that is strictly increasing within each date leaves every daily IC as it was. */
  lemma IncreasingTransformKeepsICs(
    dates: seq<int>, values: seq<Num>, f: (int, real) -> real, labels: seq<Num>, eligible: seq<bool>,
    root: real -> real)
    requires |dates| == |values| == |labels| == |eligible| && IsRoot(root)
    requires forall d, x, y :: x < y ==> f(d, x) < f(d, y)
    ensures SpearmanSeries(dates, Transformed(dates, values, f), labels, eligible, root)
         == SpearmanSeries(dates, values, labels, eligible, root)
  {
    var a, b := Cleaned(values), Cleaned(Transformed(dates, values, f));
    forall i, j | 0 <= i < |a| && 0 <= j < |a| && dates[i] == dates[j]
      ensures Less(a[i], a[j]) <==> Less(b[i], b[j])
    {
      if a[i].Fin? && a[j].Fin? {
        assert a[i].x < a[j].x ==> f(dates[i], a[i].x) < f(dates[i], a[j].x);
        assert a[j].x < a[i].x ==> f(dates[i], a[j].x) < f(dates[i], a[i].x);
      }
    }
    RankColumnKeepsOrder(dates, a, b);
  }

  function Transformed(dates: seq<int>, values: seq<Num>, f: (int, real) -> real): (r: seq<Num>)
    requires |dates| == |values|
    ensures |r| == |values|
    ensures forall i :: 0 <= i < |r| ==> r[i] == if values[i].Fin? then Fin(f(dates[i], values[i].x)) else values[i]
  {
    seq(|values|, i requires 0 <= i < |values| => if values[i].Fin? then Fin(f(dates[i], values[i].x)) else values[i])
  }

  // ----- the ranks of one date

  /** The rows that have a rank. */
  function Ranked(vals: seq<Num>): (ok: seq<bool>)
    ensures |ok| == |vals|
    ensures forall i :: 0 <= i < |ok| ==> ok[i] == (vals[i] != NaN)
  {
    seq(|vals|, i requires 0 <= i < |vals| => vals[i] != NaN)
  }

  lemma {:induction false} RanksOfPrefix(dates: seq<int>, vals: seq<Num>, ranks: seq<Option<real>>, g: seq<Num>, d: int)
    requires |dates| == |vals| == |ranks|
    requires forall i :: 0 <= i < |vals| ==> vals[i] != NaN ==> ranks[i].Some?
    requires forall i :: 0 <= i < |vals| && vals[i] != NaN && dates[i] == d ==>
      ranks[i].value == AverageRank(g, vals[i])
    ensures Column(dates, Ranked(vals), ranks, d) == RanksWithin(Group(dates, vals, d), g)
  {
    hide AverageRank;
    if |dates| != 0 {
      var n := |dates| - 1;
      RanksOfPrefix(dates[..n], vals[..n], ranks[..n], g, d);
      assert Ranked(vals)[..n] == Ranked(vals[..n]);
    }
  }

  /** The ranks a date hands out add up to N (N + 1) / 2, where N counts its present values, ties or not. */
  lemma DateRanksSum(dates: seq<int>, vals: seq<Num>, d: int)
    requires |dates| == |vals|
    ensures
      var n := |Group(dates, vals, d)|;
      Sum(Column(dates, Ranked(vals), RankColumn(dates, vals), d)) == (n * (n + 1)) as real / 2.0
  {
    hide Column, Group, AverageRank, Sum;
    var g := Group(dates, vals, d);
    RanksOfPrefix(dates, vals, RankColumn(dates, vals), g, d);
    RankSum(g);
  }
}
