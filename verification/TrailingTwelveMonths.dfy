/** De-cumulating year-to-date statements into trailing twelve months: two implementations that must agree. */
module TrailingTwelveMonths {
  import opened Options

  /** One statement row: the month its fiscal period ends in, and the year-to-date figure if reported. */
  datatype Filing = Filing(year: int, month: int, ytd: Option<real>) {
    function Quarter(): int {
      (month - 1) / 3 + 1
    }

    /** Quarters since year zero. */
    function Index(): int {
      4 * year + Quarter() - 1
    }

    /** The period ends a calendar quarter. */
    predicate AtQuarterEnd() {
      1 <= month <= 12 && month == 3 * Quarter()
    }
  }

  function Minus(a: Option<real>, b: Option<real>): Option<real> {
    if a.Some? && b.Some? then Some(a.value - b.value) else None
  }

  /** The single quarter of row i: the figure itself in Q1, otherwise the step from the row just before. */
  function Single(q: seq<Filing>, i: nat): Option<real>
    requires i < |q|
  {
    if q[i].Quarter() == 1 then q[i].ytd
    else if i > 0 && q[i].year == q[i - 1].year && q[i].Quarter() == q[i - 1].Quarter() + 1 then
      Minus(q[i].ytd, q[i - 1].ytd)
    else None
  }

  /** Row i closes four consecutive quarters whose single figures are all known. */
  predicate StepOk(q: seq<Filing>, i: nat)
    requires i < |q|
  {
    && i >= 3
    && Single(q, i).Some? && Single(q, i - 1).Some? && Single(q, i - 2).Some? && Single(q, i - 3).Some?
    && q[i - 2].Index() == q[i - 3].Index() + 1
    && q[i - 1].Index() == q[i - 3].Index() + 2
    && q[i].Index() == q[i - 3].Index() + 3
  }

  function Ttm(q: seq<Filing>, i: nat): Option<real>
    requires i < |q|
  {
    if StepOk(q, i) then
      Some(Single(q, i - 3).value + Single(q, i - 2).value + Single(q, i - 1).value + Single(q, i).value)
    else None
  }

  /** The first pass: every row's single quarter. */
  method FillSingles(q: seq<Filing>) returns (single: array<Option<real>>)
    ensures fresh(single) && single.Length == |q|
    ensures forall i :: 0 <= i < |q| ==> single[i] == Single(q, i)
  {
    hide Filing.Quarter;
    single := new Option<real>[|q|](_ => None);
    for i := 0 to |q|
      invariant forall k :: 0 <= k < i ==> single[k] == Single(q, k)
      invariant forall k :: i <= k < |q| ==> single[k] == None
    {
      if q[i].Quarter() == 1 {
        single[i] := q[i].ytd;
      } else if i > 0 && q[i].year == q[i - 1].year && q[i].Quarter() == q[i - 1].Quarter() + 1 {
        single[i] := Minus(q[i].ytd, q[i - 1].ytd);
      }
    }
  }

  /** The second pass: the rows that close four consecutive quarters. */
  method MarkSteps(q: seq<Filing>, single: array<Option<real>>) returns (stepOk: array<bool>)
    requires single.Length == |q| && forall i :: 0 <= i < |q| ==> single[i] == Single(q, i)
    ensures fresh(stepOk) && stepOk.Length == |q|
    ensures forall i :: 0 <= i < |q| ==> stepOk[i] == StepOk(q, i)
  {
    hide Single, Filing.Index;
    stepOk := new bool[|q|](_ => false);
    for i := 0 to |q|
      invariant forall k :: 0 <= k < i ==> stepOk[k] == StepOk(q, k)
      invariant forall k :: i <= k < |q| ==> !stepOk[k]
    {
      if i >= 3 && single[i - 3].Some? && single[i - 2].Some? && single[i - 1].Some? && single[i].Some? {
        var first := q[i - 3].Index();
        if q[i - 2].Index() == first + 1 && q[i - 1].Index() == first + 2 && q[i].Index() == first + 3 {
          stepOk[i] := true;
        }
      }
    }
  }

  /** The builder: fill the single quarters, mark the rows that close a year, then sum four at a time. */
  method TtmFromYtd(q: seq<Filing>) returns (ttm: array<Option<real>>)
    ensures fresh(ttm) && ttm.Length == |q|
    ensures forall i :: 0 <= i < |q| ==> ttm[i] == Ttm(q, i)
  {
    hide Single, Filing.Index;
    var single := FillSingles(q);
    var stepOk := MarkSteps(q, single);
    ttm := new Option<real>[|q|](_ => None);
    for i := 0 to |q|
      invariant forall k :: 0 <= k < |q| ==> single[k] == Single(q, k) && stepOk[k] == StepOk(q, k)
      invariant forall k :: 0 <= k < i ==> ttm[k] == Ttm(q, k)
      invariant forall k :: i <= k < |q| ==> ttm[k] == None
    {
      if stepOk[i] {
        ttm[i] := Some(single[i - 3].value + single[i - 2].value + single[i - 1].value + single[i].value);
      }
    }
  }

  // ----- de-cumulation undoes cumulation

  /** Year-to-date figures of single quarters x, the first of which is a Q1. */
  function Cumulated(x: seq<real>, i: nat): real
    requires i < |x|
  {
    if i % 4 == 0 then x[i] else Cumulated(x, i - 1) + x[i]
  }

  function Reported(x: seq<real>, firstYear: int): (q: seq<Filing>)
    ensures |q| == |x|
    ensures forall i :: 0 <= i < |x| ==> q[i] == Filing(firstYear + i / 4, 3 * (i % 4 + 1), Some(Cumulated(x, i)))
  {
    seq(|x|, i requires 0 <= i < |x| => Filing(firstYear + i / 4, 3 * (i % 4 + 1), Some(Cumulated(x, i))))
  }

  /** Reading a gapless series that starts at a Q1 recovers every single quarter, and the sum of any four. */
  lemma DecumulationRecovers(x: seq<real>, firstYear: int, i: nat)
    requires i < |x|
    ensures Single(Reported(x, firstYear), i) == Some(x[i])
    ensures i >= 3 ==> Ttm(Reported(x, firstYear), i) == Some(x[i - 3] + x[i - 2] + x[i - 1] + x[i])
    ensures i < 3 ==> Ttm(Reported(x, firstYear), i) == None
  {
    hide Single, Filing.Index, Cumulated, Reported;
    SingleRecovered(x, firstYear, i);
    if i >= 3 {
      SingleRecovered(x, firstYear, i - 1);
      SingleRecovered(x, firstYear, i - 2);
      SingleRecovered(x, firstYear, i - 3);
    }
  }

  lemma SingleRecovered(x: seq<real>, firstYear: int, i: nat)
    requires i < |x|
    ensures Single(Reported(x, firstYear), i) == Some(x[i])
    ensures Reported(x, firstYear)[i].Index() == 4 * firstYear + i
  {
    var q := Reported(x, firstYear);
    assert q[i].Quarter() == i % 4 + 1;
    if i % 4 != 0 {
      assert q[i - 1].Quarter() == (i - 1) % 4 + 1;
      assert (i - 1) / 4 == i / 4;
    }
  }

  // ----- what a defined value is

  /** b is the quarter after a. */
  predicate Follows(a: Filing, b: Filing) {
    b.Index() == a.Index() + 1
  }

  /** Rows i - 3 .. i are consecutive quarters, all reported. */
  predicate FourQuarters(q: seq<Filing>, i: nat)
    requires i < |q|
  {
    && i >= 3 && Follows(q[i - 3], q[i - 2]) && Follows(q[i - 2], q[i - 1]) && Follows(q[i - 1], q[i])
    && q[i - 3].ytd.Some? && q[i - 2].ytd.Some? && q[i - 1].ytd.Some? && q[i].ytd.Some?
  }

  /** Rows i - 4 .. i are consecutive quarters, all reported. */
  predicate FiveQuarters(q: seq<Filing>, i: nat)
    requires i < |q|
  {
    FourQuarters(q, i) && i >= 4 && Follows(q[i - 4], q[i - 3]) && q[i - 4].ytd.Some?
  }

  /** The next quarter is the next one of the year, or the first of the next year. */
  lemma NextQuarter(a: Filing, b: Filing)
    requires 1 <= a.month <= 12 && 1 <= b.month <= 12
    ensures 1 <= a.Quarter() <= 4 && 1 <= b.Quarter() <= 4
    ensures Follows(a, b) <==>
      if a.Quarter() == 4 then b.Quarter() == 1 && b.year == a.year + 1
      else b.Quarter() == a.Quarter() + 1 && b.year == a.year
  {
  }

  lemma SingleByFollows(q: seq<Filing>, i: nat)
    requires i < |q| && forall k :: 0 <= k < |q| ==> 1 <= q[k].month <= 12
    ensures Single(q, i) ==
      if q[i].Quarter() == 1 then q[i].ytd
      else if i > 0 && Follows(q[i - 1], q[i]) then Minus(q[i].ytd, q[i - 1].ytd)
      else None
  {
    if i > 0 {
      NextQuarter(q[i - 1], q[i]);
    }
  }

  lemma StepByFollows(q: seq<Filing>, i: nat)
    requires i < |q|
    ensures StepOk(q, i) <==>
      && i >= 3 && Follows(q[i - 3], q[i - 2]) && Follows(q[i - 2], q[i - 1]) && Follows(q[i - 1], q[i])
      && Single(q, i - 3).Some? && Single(q, i - 2).Some? && Single(q, i - 1).Some? && Single(q, i).Some?
  {
    hide Single, Filing.Index;
    if i >= 3 {
      assert Follows(q[i - 3], q[i - 2]) <==> q[i - 2].Index() == q[i - 3].Index() + 1;
      assert Follows(q[i - 2], q[i - 1]) <==> q[i - 1].Index() == q[i - 2].Index() + 1;
      assert Follows(q[i - 1], q[i]) <==> q[i].Index() == q[i - 1].Index() + 1;
    }
  }

  /** The facts about the five rows ending in i that the next two proofs need. */
  lemma LastRows(q: seq<Filing>, i: nat)
    requires 3 <= i < |q| && forall k :: 0 <= k < |q| ==> 1 <= q[k].month <= 12
    ensures 1 <= q[i].Quarter() <= 4
    ensures Follows(q[i - 3], q[i - 2]) && Follows(q[i - 2], q[i - 1]) && Follows(q[i - 1], q[i]) ==>
      && (q[i - 3].Quarter() == 1 <==> q[i].Quarter() == 4)
      && (q[i].Quarter() == 4 ==> q[i - 2].Quarter() == 2 && q[i - 1].Quarter() == 3)
      && (q[i].Quarter() == 3 ==> q[i - 3].Quarter() == 4 && q[i - 2].Quarter() == 1 && q[i - 1].Quarter() == 2)
      && (q[i].Quarter() == 2 ==> q[i - 3].Quarter() == 3 && q[i - 2].Quarter() == 4 && q[i - 1].Quarter() == 1)
      && (q[i].Quarter() == 1 ==> q[i - 3].Quarter() == 2 && q[i - 2].Quarter() == 3 && q[i - 1].Quarter() == 4)
      && (q[i].Quarter() != 4 ==> q[i - 3].year == q[i].year - 1 && q[i - q[i].Quarter()].year == q[i].year - 1)
  {
    hide Follows, Filing.Quarter;
    NextQuarter(q[i - 3], q[i - 2]);
    NextQuarter(q[i - 2], q[i - 1]);
    NextQuarter(q[i - 1], q[i]);
  }

  /** A value is defined exactly when its whole fiscal year is reported, or the five quarters ending in it are. */
  lemma TtmDefinedIff(q: seq<Filing>, i: nat)
    requires i < |q| && forall k :: 0 <= k < |q| ==> 1 <= q[k].month <= 12
    ensures Ttm(q, i).Some? <==>
      if q[i].Quarter() == 4 then FourQuarters(q, i) else FiveQuarters(q, i)
  {
    hide Follows, Single, StepOk, Filing.Quarter;
    StepByFollows(q, i);
    if i >= 3 {
      SingleByFollows(q, i);
      SingleByFollows(q, i - 1);
      SingleByFollows(q, i - 2);
      SingleByFollows(q, i - 3);
      LastRows(q, i);
    }
  }

  /** A defined value telescopes: the annual figure in Q4, otherwise ytd + last year's annual - last year's ytd. */
  lemma TtmTelescopes(q: seq<Filing>, i: nat)
    requires i < |q| && Ttm(q, i).Some? && forall k :: 0 <= k < |q| ==> 1 <= q[k].month <= 12
    ensures 1 <= q[i].Quarter() <= 4
    ensures q[i].Quarter() == 4 ==> q[i].ytd == Ttm(q, i)
    ensures q[i].Quarter() != 4 ==>
      var n := q[i].Quarter();
      && i >= 4
      && q[i].ytd.Some? && q[i - n].ytd.Some? && q[i - 4].ytd.Some?
      && q[i - n].year == q[i].year - 1 && q[i - n].Quarter() == 4
      && q[i - 4].year == q[i].year - 1 && q[i - 4].Quarter() == n
      && Ttm(q, i).value == q[i].ytd.value + q[i - n].ytd.value - q[i - 4].ytd.value
  {
    hide Follows, Single, StepOk, Filing.Quarter;
    TtmDefinedIff(q, i);
    StepByFollows(q, i);
    SingleByFollows(q, i);
    SingleByFollows(q, i - 1);
    SingleByFollows(q, i - 2);
    SingleByFollows(q, i - 3);
    LastRows(q, i);
    if i >= 4 {
      NextQuarter(q[i - 4], q[i - 3]);
    }
  }

  // ----- the second implementation

  function Reporting(q: seq<Filing>): (r: seq<Filing>)
    ensures forall f :: f in r <==> f in q && f.ytd.Some?
  {
    if |q| == 0 then []
    else
      var r, f := Reporting(q[..|q| - 1]), q[|q| - 1];
      assert q == q[..|q| - 1] + [f];
      if f.ytd.Some? then r + [f] else r
  }

  /** The figure for a year and month; a later row overwrites an earlier one. */
  function Lookup(d: seq<Filing>, year: int, month: int): Option<real> {
    if |d| == 0 then None
    else if d[|d| - 1].year == year && d[|d| - 1].month == month then d[|d| - 1].ytd
    else Lookup(d[..|d| - 1], year, month)
  }

  /** The chain research script's trailing figure for the latest reported period. */
  function LatestTtm(q: seq<Filing>): Option<real> {
    var d := Reporting(q);
    if |d| == 0 then None
    else
      var last := d[|d| - 1];
      if last.month == 12 then last.ytd
      else
        var annual, prior := Lookup(d, last.year - 1, 12), Lookup(d, last.year - 1, last.month);
        if last.ytd.Some? && annual.Some? && prior.Some? then Some(last.ytd.value + annual.value - prior.value)
        else None
  }

  /** Distinct calendar quarter ends, oldest first. */
  ghost predicate QuarterEnds(q: seq<Filing>) {
    && (forall i :: 0 <= i < |q| ==> q[i].AtQuarterEnd())
    && (forall i, j :: 0 <= i < j < |q| ==> q[i].Index() < q[j].Index())
  }

  lemma {:induction false} LookupUnique(d: seq<Filing>, f: Filing)
    requires f in d
    requires forall g :: g in d && g.year == f.year && g.month == f.month ==> g == f
    ensures Lookup(d, f.year, f.month) == f.ytd
  {
    var last := d[|d| - 1];
    if last.year == f.year && last.month == f.month {
      assert last in d;
    } else {
      assert d == d[..|d| - 1] + [last];
      LookupUnique(d[..|d| - 1], f);
    }
  }

  lemma SamePeriod(q: seq<Filing>, i: nat, k: nat)
    requires QuarterEnds(q) && i < |q| && k < |q| && q[i].year == q[k].year && q[i].month == q[k].month
    ensures i == k
  {
    assert q[i].Index() == q[k].Index();
  }

  lemma LookupReported(q: seq<Filing>, k: nat)
    requires QuarterEnds(q) && k < |q| && q[k].ytd.Some?
    ensures Lookup(Reporting(q), q[k].year, q[k].month) == q[k].ytd
  {
    hide Reporting, Lookup, QuarterEnds, Filing.Index, Filing.Quarter;
    forall g | g in Reporting(q) && g.year == q[k].year && g.month == q[k].month
      ensures g == q[k]
    {
      var i :| 0 <= i < |q| && q[i] == g;
      SamePeriod(q, i, k);
    }
    assert q[k] in q;
    LookupUnique(Reporting(q), q[k]);
  }

  lemma LastReported(q: seq<Filing>)
    requires |q| > 0 && q[|q| - 1].ytd.Some?
    ensures |Reporting(q)| > 0 && Reporting(q)[|Reporting(q)| - 1] == q[|q| - 1]
  {
  }

  /** Wherever the builder's figure for the last row is defined, the second implementation gives the same one. */
  lemma ImplementationsAgree(q: seq<Filing>)
    requires QuarterEnds(q) && |q| > 0 && q[|q| - 1].ytd.Some?
    requires Ttm(q, |q| - 1).Some?
    ensures LatestTtm(q) == Ttm(q, |q| - 1)
  {
    hide Filing.Quarter, Lookup, Reporting, Ttm;
    var i := |q| - 1;
    LastReported(q);
    TtmTelescopes(q, i);
    if q[i].Quarter() != 4 {
      var n := q[i].Quarter();
      LookupReported(q, i - n);
      LookupReported(q, i - 4);
      assert q[i - n].month == 12 && q[i - 4].month == q[i].month;
    }
  }

  /** Some row reports a figure for this year and month. */
  ghost predicate Reports(q: seq<Filing>, year: int, month: int) {
    exists f :: f in q && f.year == year && f.month == month && f.ytd.Some?
  }

  lemma {:induction false} LookupDefinedIff(d: seq<Filing>, year: int, month: int)
    requires forall f :: f in d ==> f.ytd.Some?
    ensures Lookup(d, year, month).Some? <==> Reports(d, year, month)
  {
    if |d| != 0 {
      var front, last := d[..|d| - 1], d[|d| - 1];
      assert d == front + [last];
      LookupDefinedIff(front, year, month);
    }
  }

  lemma ReportsAlike(q: seq<Filing>, year: int, month: int)
    ensures Reports(Reporting(q), year, month) <==> Reports(q, year, month)
  {
  }

  /**
   * The second implementation gives a figure exactly when something is reported and the latest reported period is an
   * annual one, or the year before reports both its annual figure and the same month.
   */
  lemma LatestTtmDefinedIff(q: seq<Filing>)
    ensures LatestTtm(q).Some? <==>
      var d := Reporting(q);
      && |d| > 0
      && (d[|d| - 1].month == 12
          || (Reports(q, d[|d| - 1].year - 1, 12) && Reports(q, d[|d| - 1].year - 1, d[|d| - 1].month)))
  {
    hide Lookup, Reports;
    var d := Reporting(q);
    if |d| > 0 {
      var last := d[|d| - 1];
      assert last in d;
      LookupDefinedIff(d, last.year - 1, 12);
      LookupDefinedIff(d, last.year - 1, last.month);
      ReportsAlike(q, last.year - 1, 12);
      ReportsAlike(q, last.year - 1, last.month);
    }
  }

  /**
   * For distinct quarter ends whose last figure is present the two implementations differ exactly when the builder
   * misses a quarter it needs in between while the second finds its three periods, or its annual one.
   */
  lemma ImplementationsDifferIff(q: seq<Filing>)
    requires QuarterEnds(q) && |q| > 0 && q[|q| - 1].ytd.Some?
    ensures
      var i := |q| - 1;
      LatestTtm(q) != Ttm(q, i) <==>
        if q[i].month == 12 then !FourQuarters(q, i)
        else !FiveQuarters(q, i) && Reports(q, q[i].year - 1, 12) && Reports(q, q[i].year - 1, q[i].month)
  {
    hide Lookup, Reporting, Ttm, FourQuarters, FiveQuarters, Reports, LatestTtm;
    var i := |q| - 1;
    LastReported(q);
    LatestTtmDefinedIff(q);
    TtmDefinedIff(q, i);
    if Ttm(q, i).Some? {
      ImplementationsAgree(q);
    }
  }

  lemma {:induction false} AllReporting(q: seq<Filing>)
    requires forall i :: 0 <= i < |q| ==> q[i].ytd.Some?
    ensures Reporting(q) == q
  {
    if |q| != 0 {
      AllReporting(q[..|q| - 1]);
    }
  }

  /** The second implementation is more lenient: it needs three periods, the builder five in a row. */
  lemma SecondIsMoreLenient()
    ensures
      var q := [Filing(2024, 3, Some(1.0)), Filing(2024, 12, Some(5.0)), Filing(2025, 3, Some(2.0))];
      QuarterEnds(q) && LatestTtm(q) == Some(6.0) && Ttm(q, 2) == None
  {
    hide LatestTtm, Ttm;
    var q := [Filing(2024, 3, Some(1.0)), Filing(2024, 12, Some(5.0)), Filing(2025, 3, Some(2.0))];
    assert QuarterEnds(q) by {
      assert q[0].Index() == 8096 && q[1].Index() == 8099 && q[2].Index() == 8100;
    }
    ThreePeriods(q);
  }

  lemma ThreePeriods(q: seq<Filing>)
    requires QuarterEnds(q) && |q| == 3 && forall i :: 0 <= i < 3 ==> q[i].ytd.Some?
    requires q[2].month != 12 && q[1].year == q[2].year - 1 && q[1].month == 12
    requires q[0].year == q[2].year - 1 && q[0].month == q[2].month
    ensures LatestTtm(q) == Some(q[2].ytd.value + q[1].ytd.value - q[0].ytd.value)
    ensures Ttm(q, 2) == None
  {
    AllReporting(q);
    hide Reporting, Lookup, QuarterEnds, Filing.Quarter, Filing.Index;
    LookupReported(q, 0);
    LookupReported(q, 1);
  }
}
