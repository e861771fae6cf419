/** What the daily IC series holds, date by date: nothing is missing, nothing is added, and the sign is right. */
module FactorSeries {
  import opened Options
  import opened Vectors
  import opened Ranks
  import opened Calendars
  import opened FactorJudgment

  /** A row takes part when its value is finite, its label present and the mask lets it through. */
  predicate Counts(values: seq<Num>, labels: seq<Num>, eligible: seq<bool>, i: nat)
    requires |values| == |labels| == |eligible| && i < |values|
  {
    values[i].Fin? && labels[i] != NaN && eligible[i]
  }

  /** How many rows take part. */
  function CountedRows(values: seq<Num>, labels: seq<Num>, eligible: seq<bool>): nat
    requires |values| == |labels| == |eligible|
  {
    |set i: nat | i < |values| && Counts(values, labels, eligible, i)|
  }

  /** The positions, in row order, of the rows of date d that take part. */
  ghost predicate RowsOn(
      dates: seq<int>, values: seq<Num>, labels: seq<Num>, eligible: seq<bool>, d: int, at: seq<nat>)
    requires |dates| == |values| == |labels| == |eligible|
  {
    && (forall k, l :: 0 <= k < l < |at| ==> at[k] < at[l])
    && (forall k :: 0 <= k < |at| ==> at[k] < |dates|)
    && (forall i: nat :: i < |dates| ==> (i in at <==> dates[i] == d && Counts(values, labels, eligible, i)))
  }

  /** The entries of a rank column at some positions. */
  function At(ranks: seq<Option<real>>, at: seq<nat>): (r: seq<real>)
    requires forall k :: 0 <= k < |at| ==> at[k] < |ranks| && ranks[at[k]].Some?
    ensures |r| == |at|
    ensures forall k :: 0 <= k < |r| ==> r[k] == ranks[at[k]].value
  {
    seq(|at|, k requires 0 <= k < |at| => ranks[at[k]].value)
  }

  // ----- which dates are emitted

  lemma {:induction false} EmittedIff(days: seq<int>, corr: seq<Option<real>>, d: int, v: real)
    requires |days| == |corr|
    ensures (d, v) in Emitted(days, corr) <==> exists k :: 0 <= k < |days| && days[k] == d && corr[k] == Some(v)
  {
    if |days| != 0 {
      var n := |days| - 1;
      EmittedIff(days[..n], corr[..n], d, v);
      if k :| 0 <= k < n && days[..n][k] == d && corr[..n][k] == Some(v) {
        assert days[k] == d && corr[k] == Some(v);
      }
      if k :| 0 <= k < |days| && days[k] == d && corr[k] == Some(v) {
        assert k < n ==> days[..n][k] == d && corr[..n][k] == Some(v);
      }
    }
  }

  ghost predicate DatesIncrease(s: seq<(int, real)>) {
    forall i, j :: 0 <= i < j < |s| ==> s[i].0 < s[j].0
  }

  lemma {:induction false} EmittedInOrder(days: seq<int>, corr: seq<Option<real>>)
    requires |days| == |corr| && StrictlyIncreasing(days)
    ensures DatesIncrease(Emitted(days, corr))
  {
    if |days| != 0 {
      var n := |days| - 1;
      EmittedInOrder(days[..n], corr[..n]);
      var r := Emitted(days[..n], corr[..n]);
      forall i | 0 <= i < |r|
        ensures r[i].0 < days[n]
      {
        var k := EmittedFrom(days[..n], corr[..n], r[i]);
      }
    }
  }

  // ----- the rows behind a date

  lemma {:induction false} TrueIsCounted(ok: seq<bool>)
    ensures CountTrue(ok) == |set i: nat | i < |ok| && ok[i]|
  {
    var all := set i: nat | i < |ok| && ok[i];
    if ok == [] {
      assert all == {};
    } else {
      var n := |ok| - 1;
      TrueIsCounted(ok[..n]);
      var before := set i: nat | i < n && ok[..n][i];
      assert all == before + if ok[n] then {n} else {};
    }
  }

  /** The positions of the rows of date d that pass the mask, in row order. */
  function Positions(dates: seq<int>, ok: seq<bool>, d: int): (at: seq<nat>)
    requires |dates| == |ok|
    ensures forall k :: 0 <= k < |at| ==> at[k] < |dates|
    ensures forall i: nat :: i in at <==> i < |dates| && dates[i] == d && ok[i]
  {
    if |dates| == 0 then []
    else
      var n := |dates| - 1;
      var before := Positions(dates[..n], ok[..n], d);
      if ok[n] && dates[n] == d then before + [n] else before
  }

  lemma {:induction false} PositionsIncrease(dates: seq<int>, ok: seq<bool>, d: int)
    requires |dates| == |ok|
    ensures StrictlyIncreasing(Positions(dates, ok, d))
  {
    if |dates| != 0 {
      PositionsIncrease(dates[..|dates| - 1], ok[..|dates| - 1], d);
    }
  }

  lemma {:induction false} ColumnAtPositions(dates: seq<int>, ok: seq<bool>, col: seq<Option<real>>, d: int)
    requires |dates| == |ok| == |col|
    requires forall i :: 0 <= i < |ok| && ok[i] ==> col[i].Some?
    ensures Column(dates, ok, col, d) == At(col, Positions(dates, ok, d))
  {
    if |dates| != 0 {
      var n := |dates| - 1;
      ColumnAtPositions(dates[..n], ok[..n], col[..n], d);
      var before := Positions(dates[..n], ok[..n], d);
      assert At(col, before) == At(col[..n], before);
    }
  }

  // ----- the series

  lemma EligibleCounts(dates: seq<int>, values: seq<Num>, labels: seq<Num>, eligible: seq<bool>)
    requires |dates| == |values| == |labels| == |eligible|
    ensures
      var ok := Eligible(RankColumn(dates, Cleaned(values)), RankColumn(dates, labels), eligible);
      && (forall i :: 0 <= i < |ok| ==> (ok[i] <==> Counts(values, labels, eligible, i)))
      && CountTrue(ok) == CountedRows(values, labels, eligible)
  {
    hide Group, AverageRank, CountTrue;
    var ok := Eligible(RankColumn(dates, Cleaned(values)), RankColumn(dates, labels), eligible);
    TrueIsCounted(ok);
    assert (set i: nat | i < |ok| && ok[i]) == set i: nat | i < |values| && Counts(values, labels, eligible, i);
  }

  lemma EmittedOverDays(days: seq<int>, corr: int -> Option<real>, all: seq<Option<real>>, d: int, v: real)
    requires |all| == |days| && forall k :: 0 <= k < |days| ==> all[k] == corr(days[k])
    ensures (d, v) in Emitted(days, all) <==> d in days && corr(d) == Some(v)
  {
    EmittedIff(days, all, d, v);
    if d in days && corr(d) == Some(v) {
      var k :| 0 <= k < |days| && days[k] == d;
      assert all[k] == Some(v);
    }
  }

  /** A date is emitted with the value that the rows listed in `at` give, or not at all. */
  lemma RankICsIff(
      dates: seq<int>, x: seq<Option<real>>, y: seq<Option<real>>, eligible: seq<bool>, root: real -> real,
      d: int, v: real)
    requires |dates| == |x| == |y| == |eligible| && IsRoot(root)
    ensures
      var ok := Eligible(x, y, eligible);
      && (CountTrue(ok) < 100 ==> RankICs(dates, x, y, eligible, root) == [])
      && (CountTrue(ok) >= 100 ==>
            ((d, v) in RankICs(dates, x, y, eligible, root) <==>
              d in dates && PearsonOn(dates, ok, x, y, root, d) == Some(v)))
      && DatesIncrease(RankICs(dates, x, y, eligible, root))
  {
    hide PearsonOn, Emitted, CountTrue;
    var ok := Eligible(x, y, eligible);
    if CountTrue(ok) >= 100 {
      var days := SortedUnique(dates);
      var all := seq(|days|, k requires 0 <= k < |days| => PearsonOn(dates, ok, x, y, root, days[k]));
      EmittedOverDays(days, (e: int) => PearsonOn(dates, ok, x, y, root, e), all, d, v);
      EmittedInOrder(days, all);
    }
  }

  lemma SpreadNonNegative(x: seq<real>)
    ensures CoMoment(x, x) >= 0.0
  {
    SelfDotNonNegative(Centred(x));
  }

  lemma SquaresPositive(a: real, b: real)
    requires a >= 0.0 && b >= 0.0
    ensures Times(a, b) > 0.0 <==> a > 0.0 && b > 0.0
  {
    if a > 0.0 && b > 0.0 {
      TimesPositive(a, b);
    }
  }

  lemma QuotientIff(c: real, r: real, v: real)
    requires r > 0.0
    ensures c / r == v <==> Times(v, r) == c
  {
    if c / r == v {
      assert c == v * r;
    }
    if Times(v, r) == c {
      assert c / r == v;
    }
  }

  lemma PearsonIff(a: seq<real>, b: seq<real>, root: real -> real, v: real)
    requires |a| == |b| && IsRoot(root)
    ensures Pearson(a, b, root) == Some(v) <==>
      && |a| >= 30 && CoMoment(a, a) > 0.0 && CoMoment(b, b) > 0.0
      && Times(v, root(Times(CoMoment(a, a), CoMoment(b, b)))) == CoMoment(a, b)
  {
    hide Times, CoMoment, IsRoot;
    SpreadNonNegative(a);
    SpreadNonNegative(b);
    SquaresPositive(CoMoment(a, a), CoMoment(b, b));
    var spread := Times(CoMoment(a, a), CoMoment(b, b));
    if spread > 0.0 {
      RootPositive(root, spread);
      QuotientIff(CoMoment(a, b), root(spread), v);
    }
  }

  /**
   * The whole series. With fewer than 100 rows taking part it is empty. Otherwise a date is in it, once and in date
   * order, exactly when at least 30 of its rows take part and both rank columns vary over them, with the value whose
   * product with the root of the two spreads is the co-moment.
   */
  lemma SeriesIff(
      dates: seq<int>, values: seq<Num>, labels: seq<Num>, eligible: seq<bool>, root: real -> real,
      d: int, at: seq<nat>, v: real)
    requires |dates| == |values| == |labels| == |eligible| && IsRoot(root)
    requires RowsOn(dates, values, labels, eligible, d, at)
    ensures DatesIncrease(SpearmanSeries(dates, values, labels, eligible, root))
    ensures CountedRows(values, labels, eligible) < 100 ==>
      SpearmanSeries(dates, values, labels, eligible, root) == []
    ensures forall k :: 0 <= k < |at| ==>
      RankColumn(dates, Cleaned(values))[at[k]].Some? && RankColumn(dates, labels)[at[k]].Some?
    ensures CountedRows(values, labels, eligible) >= 100 ==>
      var a, b := At(RankColumn(dates, Cleaned(values)), at), At(RankColumn(dates, labels), at);
      (d, v) in SpearmanSeries(dates, values, labels, eligible, root) <==>
        && |at| >= 30 && CoMoment(a, a) > 0.0 && CoMoment(b, b) > 0.0
        && Times(v, root(Times(CoMoment(a, a), CoMoment(b, b)))) == CoMoment(a, b)
  {
    hide Group, AverageRank, CountTrue, CoMoment, Times, IsRoot, RankICs, PearsonOn, Counts, CountedRows, Column;
    var x, y := RankColumn(dates, Cleaned(values)), RankColumn(dates, labels);
    var ok := Eligible(x, y, eligible);
    EligibleCounts(dates, values, labels, eligible);
    RankICsIff(dates, x, y, eligible, root, d, v);
    RowsArePositions(dates, values, labels, eligible, d, at, ok);
    ColumnAtPositions(dates, ok, x, d);
    ColumnAtPositions(dates, ok, y, d);
    PearsonOnColumns(dates, ok, x, y, root, d);
    PearsonIff(At(x, at), At(y, at), root, v);
    if |at| > 0 {
      assert dates[at[0]] == d;
    }
  }

  lemma PearsonOnColumns(
      dates: seq<int>, ok: seq<bool>, x: seq<Option<real>>, y: seq<Option<real>>, root: real -> real, d: int)
    requires |dates| == |ok| == |x| == |y| && IsRoot(root)
    requires forall i :: 0 <= i < |ok| && ok[i] ==> x[i].Some? && y[i].Some?
    ensures |Column(dates, ok, x, d)| == |Column(dates, ok, y, d)|
    ensures PearsonOn(dates, ok, x, y, root, d)
         == Pearson(Column(dates, ok, x, d), Column(dates, ok, y, d), root)
  {
    ColumnsAlign(dates, ok, x, y, d);
  }

  lemma RowsArePositions(
      dates: seq<int>, values: seq<Num>, labels: seq<Num>, eligible: seq<bool>, d: int, at: seq<nat>, ok: seq<bool>)
    requires |dates| == |values| == |labels| == |eligible| == |ok|
    requires RowsOn(dates, values, labels, eligible, d, at)
    requires forall i :: 0 <= i < |ok| ==> (ok[i] <==> Counts(values, labels, eligible, i))
    ensures at == Positions(dates, ok, d)
  {
    hide Counts, Positions;
    PositionsIncrease(dates, ok, d);
    var own: seq<int>, listed: seq<int> := Positions(dates, ok, d), at;
    forall i
      ensures i in own <==> i in listed
    {
      if i in listed {
        var k :| 0 <= k < |at| && at[k] == i;
      }
    }
    SameEntriesSameSchedule(own, listed);
  }

  /** A factor that is its own label has an IC of one wherever it has one, and its negation of minus one. */
  lemma PerfectFactor(
      dates: seq<int>, labels: seq<Num>, eligible: seq<bool>, root: real -> real, p: (int, real))
    requires |dates| == |labels| == |eligible| && IsRoot(root) && PosInf !in labels && NegInf !in labels
    ensures p in SpearmanSeries(dates, labels, labels, eligible, root) ==> p.1 == 1.0
    ensures p in SpearmanSeries(dates, NegateAll(labels), labels, eligible, root) ==> p.1 == -1.0
  {
    hide SpearmanSeries, NegateSeries;
    OwnICsAreOne(dates, labels, eligible, root);
    NegatedFactorNegatesICs(dates, labels, labels, eligible, root);
    NegatedMember(SpearmanSeries(dates, labels, labels, eligible, root), p);
  }

  lemma OwnICsAreOne(dates: seq<int>, labels: seq<Num>, eligible: seq<bool>, root: real -> real)
    requires |dates| == |labels| == |eligible| && IsRoot(root) && PosInf !in labels && NegInf !in labels
    ensures forall p :: p in SpearmanSeries(dates, labels, labels, eligible, root) ==> p.1 == 1.0
  {
    hide RankICs, RankColumn, IsRoot;
    forall i | 0 <= i < |labels|
      ensures Cleaned(labels)[i] == labels[i]
    {
      assert labels[i] in labels;
    }
    assert Cleaned(labels) == labels;
    forall p | p in SpearmanSeries(dates, labels, labels, eligible, root)
      ensures p.1 == 1.0
    {
      SelfICsAreOne(dates, RankColumn(dates, labels), eligible, root, p);
    }
  }

  lemma NegatedMember(s: seq<(int, real)>, p: (int, real))
    ensures p in NegateSeries(s) ==> (p.0, -p.1) in s
  {
    if p in NegateSeries(s) {
      var i :| 0 <= i < |s| && NegateSeries(s)[i] == p;
      assert s[i] == (p.0, -p.1);
    }
  }

  lemma SelfICsAreOne(dates: seq<int>, x: seq<Option<real>>, eligible: seq<bool>, root: real -> real, p: (int, real))
    requires |dates| == |x| == |eligible| && IsRoot(root)
    requires p in RankICs(dates, x, x, eligible, root)
    ensures p.1 == 1.0
  {
    hide CoMoment, Times, IsRoot, RankICs, PearsonOn, CountTrue, Column;
    var ok := Eligible(x, x, eligible);
    RankICsIff(dates, x, x, eligible, root, p.0, p.1);
    PearsonOnColumns(dates, ok, x, x, root, p.0);
    var a := Column(dates, ok, x, p.0);
    PearsonIff(a, a, root, p.1);
    RootOfSquare(root, CoMoment(a, a));
    UnitFactor(p.1, CoMoment(a, a));
  }

  ghost predicate IsSquareOf(x: real, y: real) {
    y >= 0.0 && Times(y, y) == x
  }

  ghost predicate IsSquare(x: real) {
    exists y: real :: IsSquareOf(x, y)
  }

  /** Square roots are the functions that undo squaring, given that every non-negative number is a square. */
  lemma RootIff(root: real -> real)
    requires forall x: real :: x >= 0.0 ==> IsSquare(x)
    ensures IsRoot(root) <==> root(0.0) == 0.0 && forall y: real :: y > 0.0 ==> root(Times(y, y)) == y
  {
    if IsRoot(root) {
      assert Times(root(0.0), root(0.0)) == 0.0;
      SquareSign(root(0.0));
      forall y: real | y > 0.0
        ensures root(Times(y, y)) == y
      {
        RootOfSquare(root, y);
      }
    }
    if root(0.0) == 0.0 && forall y: real :: y > 0.0 ==> root(Times(y, y)) == y {
      forall x: real | x >= 0.0
        ensures root(x) >= 0.0 && Times(root(x), root(x)) == x
      {
        assert IsSquare(x);
        var y: real :| IsSquareOf(x, y);
        TimesUnit(0.0, 0.0);
      }
    }
  }

  lemma RootOfSquare(root: real -> real, x: real)
    requires IsRoot(root) && x > 0.0
    ensures root(Times(x, x)) == x
  {
    TimesPositive(x, x);
    var r := root(Times(x, x));
    assert Times(r, r) == Times(x, x) && r >= 0.0;
    if r > x {
      SquareGrows(r, x);
    } else if r < x {
      if r > 0.0 {
        SquareGrows(x, r);
      } else {
        TimesUnit(0.0, 0.0);
      }
    }
  }

  lemma UnitFactor(v: real, c: real)
    requires c > 0.0 && Times(v, c) == c
    ensures v == 1.0
  {
    assert v == Times(v, c) / c;
  }
}
