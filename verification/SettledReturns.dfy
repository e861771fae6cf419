/** What a settled row of the forward ledger records, in terms of the panel's days and their closes. */
module SettledReturns {
  import opened Options
  import opened Vectors
  import opened Calendars
  import opened ForwardLedger

  ghost predicate OneQuoteEach(closes: seq<Quote>) {
    forall i, j :: 0 <= i < j < |closes| ==> closes[i].symbol != closes[j].symbol
  }

  ghost predicate OneDayEach(panel: Panel) {
    forall i, j :: 0 <= i < j < |panel| ==> panel[i].date != panel[j].date
  }

  // ----- closes

  lemma {:induction false} CloseOfIs(closes: seq<Quote>, q: Quote)
    requires OneQuoteEach(closes) && q in closes
    ensures CloseOf(closes, q.symbol) == q.close
  {
    var n := |closes| - 1;
    if closes[n] != q {
      assert q in closes[..n];
      CloseOfIs(closes[..n], q);
    }
  }

  lemma {:induction false} NoCloseOf(closes: seq<Quote>, s: Symbol)
    requires forall q :: q in closes ==> q.symbol != s
    ensures CloseOf(closes, s) == None
  {
    if |closes| != 0 {
      NoCloseOf(closes[..|closes| - 1], s);
    }
  }

  lemma {:induction false} ClosesOnIs(panel: Panel, day: Day)
    requires OneDayEach(panel) && day in panel
    ensures ClosesOn(panel, day.date) == day.closes
  {
    var n := |panel| - 1;
    if panel[n] != day {
      assert day in panel[..n];
      ClosesOnIs(panel[..n], day);
    }
  }

  // ----- returns

  /** The symbol has a positive close at the start and a close at the end. */
  predicate Priced(c0: seq<Quote>, c1: seq<Quote>, s: Symbol) {
    CloseOf(c0, s).Some? && CloseOf(c1, s).Some? && CloseOf(c0, s).value > 0.0
  }

  /** The positions of the priced symbols, in order. */
  function PricedAt(c0: seq<Quote>, c1: seq<Quote>, syms: seq<Symbol>): (at: seq<nat>)
    ensures forall k :: 0 <= k < |at| ==> at[k] < |syms|
    ensures forall i: nat :: i in at <==> i < |syms| && Priced(c0, c1, syms[i])
  {
    if |syms| == 0 then []
    else
      var n := |syms| - 1;
      var before := PricedAt(c0, c1, syms[..n]);
      if Priced(c0, c1, syms[n]) then before + [n] else before
  }

  /** x is the return that takes the start to the end. */
  predicate Takes(start: real, x: real, end: real) {
    Times(start, 1.0 + x) == end
  }

  lemma ReturnTakes(a: real, b: real)
    requires a > 0.0
    ensures Takes(a, b / a - 1.0, b)
  {
  }

  /** There is one return per priced symbol, in order, and it takes the symbol's first close to its last. */
  lemma {:induction false} ReturnsAre(c0: seq<Quote>, c1: seq<Quote>, syms: seq<Symbol>)
    ensures
      var r, at := Returns(c0, c1, syms), PricedAt(c0, c1, syms);
      && |r| == |at|
      && (forall k :: 0 <= k < |r| ==> Takes(CloseOf(c0, syms[at[k]]).value, r[k], CloseOf(c1, syms[at[k]]).value))
      && (forall k, l :: 0 <= k < l < |at| ==> at[k] < at[l])
  {
    hide CloseOf, Takes;
    if |syms| != 0 {
      var n := |syms| - 1;
      ReturnsAre(c0, c1, syms[..n]);
      if Priced(c0, c1, syms[n]) {
        ReturnTakes(CloseOf(c0, syms[n]).value, CloseOf(c1, syms[n]).value);
      }
    }
  }

  // ----- the outcome

  /** m is the average of the listed returns. */
  predicate IsAverage(m: real, r: seq<real>) {
    |r| > 0 && Times(m, |r| as real) == Sum(r)
  }

  lemma MeanIsAverage(r: seq<real>)
    requires |r| > 0
    ensures IsAverage(Mean(r), r)
  {
    MeanTimesCount(r);
    TimesUnit(Mean(r), |r| as real);
  }

  /**
   * Nothing is recorded when no symbol is priced on both days. Otherwise the benchmark is the rounded average return of
   * all of them, the pool that of its own priced symbols, if it has any, and the excess the rounded difference.
   */
  lemma ScoreIs(c0: seq<Quote>, c1: seq<Quote>, end: int, syms: seq<Symbol>, round: real -> real)
    returns (bench: real, pool: real)
    ensures
      var all, own := Returns(c0, c1, SymbolsOf(c1)), Returns(c0, c1, syms);
      var o := Score(c0, c1, end, syms, round);
      && (o.None? <==> all == [])
      && (o.Some? ==>
            && IsAverage(bench, all) && o.value.bench == round(bench) && o.value.fwdEnd == end
            && (o.value.pool.None? <==> own == []) && (o.value.excess.None? <==> own == [])
            && (own != [] ==>
                  && IsAverage(pool, own)
                  && o.value.pool == Some(round(pool)) && o.value.excess == Some(round(pool - bench))))
  {
    hide Returns, IsAverage, Mean;
    bench, pool := 0.0, 0.0;
    var all, own := Returns(c0, c1, SymbolsOf(c1)), Returns(c0, c1, syms);
    if |all| > 0 {
      bench := Mean(all);
      MeanIsAverage(all);
    }
    if |own| > 0 {
      pool := Mean(own);
      MeanIsAverage(own);
    }
  }

  lemma {:induction false} SumAtLeast(r: seq<real>, floor: real)
    requires forall k :: 0 <= k < |r| ==> r[k] >= floor
    ensures Sum(r) >= Times(floor, |r| as real)
  {
    if |r| == 0 {
      TimesUnit(floor, 0.0);
    } else {
      SumAtLeast(r[..|r| - 1], floor);
      TimesSum(floor, (|r| - 1) as real, 1.0);
      TimesUnit(floor, 1.0);
      TimesUnit(1.0, floor);
    }
  }

  lemma CancelPositive(a: real, b: real, n: real)
    requires n > 0.0 && Times(a, n) >= Times(b, n)
    ensures a >= b
  {
    if a < b {
      TimesPositive(b - a, n);
    }
  }

  /** A pool whose every priced symbol does at least as well as the benchmark records no negative excess. */
  lemma WinnersExceed(
      c0: seq<Quote>, c1: seq<Quote>, end: int, syms: seq<Symbol>, round: real -> real, bench: real)
    requires IsAverage(bench, Returns(c0, c1, SymbolsOf(c1))) && Returns(c0, c1, syms) != []
    requires forall k :: 0 <= k < |Returns(c0, c1, syms)| ==> Returns(c0, c1, syms)[k] >= bench
    requires round(0.0) == 0.0 && forall x: real, y: real :: x <= y ==> round(x) <= round(y)
    ensures Score(c0, c1, end, syms, round).Some? && Score(c0, c1, end, syms, round).value.excess.Some?
    ensures Score(c0, c1, end, syms, round).value.excess.value >= 0.0
  {
    hide Score, Returns, Sum, Times;
    var all, own := Returns(c0, c1, SymbolsOf(c1)), Returns(c0, c1, syms);
    var m, pool := ScoreIs(c0, c1, end, syms, round);
    SumAtLeast(own, bench);
    CancelPositive(pool, bench, |own| as real);
    CancelPositive(m, bench, |all| as real);
    CancelPositive(bench, m, |all| as real);
    assert round(0.0) <= round(pool - m);
  }

  /** Where rounding is exact, the excess is the pool's return less the benchmark's. */
  lemma ExactExcess(c0: seq<Quote>, c1: seq<Quote>, end: int, syms: seq<Symbol>, round: real -> real)
    requires forall x: real :: round(x) == x
    ensures
      var o := Score(c0, c1, end, syms, round);
      o.Some? && o.value.pool.Some? ==> o.value.excess == Some(o.value.pool.value - o.value.bench)
  {
    hide Returns, Mean;
  }

  /** One stock up by a tenth, one unchanged, and the first alone in the pool: 0.1 against 0.05. */
  lemma HalfTheMarket(end: int, round: real -> real)
    requires forall x: real :: round(x) == x
    ensures
      var c0 := [Quote("A", Some(10.0)), Quote("B", Some(10.0))];
      var c1 := [Quote("A", Some(11.0)), Quote("B", Some(10.0))];
      Score(c0, c1, end, ["A"], round) == Some(Outcome(end, Some(0.1), 0.05, Some(0.05)))
  {
    var c0 := [Quote("A", Some(10.0)), Quote("B", Some(10.0))];
    var c1 := [Quote("A", Some(11.0)), Quote("B", Some(10.0))];
    assert "A"[0] != "B"[0];
    CloseOfIs(c0, c0[0]);
    CloseOfIs(c0, c0[1]);
    CloseOfIs(c1, c1[0]);
    CloseOfIs(c1, c1[1]);
    assert ReturnOf(c0, c1, "A") == Some(0.1) && ReturnOf(c0, c1, "B") == Some(0.0);
    hide ReturnOf, CloseOf;
    assert SymbolsOf(c1) == ["A", "B"];
    TwoReturns(c0, c1, "A", "B", 0.1, 0.0);
    SumAppend([], 0.1);
    SumAppend([0.1], 0.0);
    assert [] + [0.1] == [0.1] && [0.1] + [0.0] == [0.1, 0.0];
  }

  lemma TwoReturns(c0: seq<Quote>, c1: seq<Quote>, a: Symbol, b: Symbol, x: real, y: real)
    requires ReturnOf(c0, c1, a) == Some(x) && ReturnOf(c0, c1, b) == Some(y)
    ensures Returns(c0, c1, [a]) == [x] && Returns(c0, c1, [a, b]) == [x, y]
  {
    hide ReturnOf;
    assert [a][..0] == [] && [a, b][..1] == [a];
    assert Returns(c0, c1, []) == [];
  }

  // ----- the window

  /** The panel's dates after the freeze, up to `end`. */
  function Elapsed(panel: Panel, asOf: int, end: int): set<int> {
    set day | day in panel && asOf < day.date <= end :: day.date
  }

  lemma {:induction false} AfterIs(sessions: seq<int>, asOf: int, x: int)
    ensures x in After(sessions, asOf) <==> x in sessions && x > asOf
  {
    if |sessions| != 0 {
      var n := |sessions| - 1;
      assert sessions == sessions[..n] + [sessions[n]];
      AfterIs(sessions[..n], asOf, x);
    }
  }

  lemma {:induction false} AfterIncreases(sessions: seq<int>, asOf: int)
    requires StrictlyIncreasing(sessions)
    ensures StrictlyIncreasing(After(sessions, asOf))
  {
    if |sessions| != 0 {
      var n := |sessions| - 1;
      AfterIncreases(sessions[..n], asOf);
      forall y | y in After(sessions[..n], asOf)
        ensures y < sessions[n]
      {
        AfterIs(sessions[..n], asOf, y);
      }
      if sessions[n] > asOf {
        AppendLargest(After(sessions[..n], asOf), sessions[n]);
      }
    }
  }

  /** Of an increasing sequence exactly k + 1 entries are at most the k-th. */
  lemma {:induction false} CountUpTo(s: seq<int>, k: nat)
    requires StrictlyIncreasing(s) && k < |s|
    ensures |set x | x in s && x <= s[k]| == k + 1
  {
    var upTo := set x | x in s && x <= s[k];
    if k == 0 {
      assert upTo == {s[0]};
    } else {
      CountUpTo(s, k - 1);
      var before := set x | x in s && x <= s[k - 1];
      forall x | x in s && x <= s[k] && x != s[k]
        ensures x <= s[k - 1]
      {
        var i :| 0 <= i < |s| && s[i] == x;
      }
      assert upTo == before + {s[k]};
    }
  }

  lemma SessionsAre(panel: Panel, x: int)
    ensures x in Sessions(panel) <==> exists day :: day in panel && day.date == x
  {
    var dates := Dates(panel);
    if x in dates {
      var i :| 0 <= i < |dates| && dates[i] == x;
      assert panel[i] in panel && panel[i].date == x;
    }
    if day :| day in panel && day.date == x {
      var i :| 0 <= i < |panel| && panel[i] == day;
      assert dates[i] == x;
    }
  }

  lemma ElapsedIsAfter(panel: Panel, asOf: int, end: int)
    ensures Elapsed(panel, asOf, end) == set x | x in After(Sessions(panel), asOf) && x <= end
  {
    hide Sessions, After;
    forall x
      ensures x in Elapsed(panel, asOf, end) <==> x in After(Sessions(panel), asOf) && x <= end
    {
      SessionsAre(panel, x);
      AfterIs(Sessions(panel), asOf, x);
    }
  }

  /** The fwd_td-th session after the freeze is the day up to which exactly fwd_td sessions have passed. */
  lemma EndIsElapsed(panel: Panel, r: Row, day: Day)
    requires r.fwdTd >= 1 && day in panel && day.date > r.asOf
    requires |Elapsed(panel, r.asOf, day.date)| == r.fwdTd
    ensures
      var after := After(Sessions(panel), r.asOf);
      r.fwdTd <= |after| && after[r.fwdTd - 1] == day.date
  {
    hide Sessions, After;
    var after := After(Sessions(panel), r.asOf);
    SessionsAre(panel, day.date);
    AfterIs(Sessions(panel), r.asOf, day.date);
    AfterIncreases(Sessions(panel), r.asOf);
    ElapsedIsAfter(panel, r.asOf, day.date);
    var k :| 0 <= k < |after| && after[k] == day.date;
    CountUpTo(after, k);
  }

  /**
   * An open row settles on the day up to which exactly fwd_td sessions have passed, from the closes of its own day and
   * that one.
   */
  lemma SettledOn(panel: Panel, r: Row, round: real -> real, start: Day, end: Day)
    requires r.outcome.None? && r.fwdTd >= 1 && OneDayEach(panel) && start in panel && end in panel
    requires start.date == r.asOf < end.date && |Elapsed(panel, r.asOf, end.date)| == r.fwdTd
    ensures SettleRow(panel, r, round)
         == Some(r.(outcome := Score(start.closes, end.closes, end.date, r.symbols, round)))
  {
    hide Score, Elapsed, After, Sessions, ClosesOn, OneDayEach;
    EndIsElapsed(panel, r, end);
    SettlesOnlyOnElapsedWindow(panel, r, round);
    ClosesOnIs(panel, start);
    ClosesOnIs(panel, end);
  }

  lemma {:induction false} DistinctEntries(s: seq<int>)
    requires StrictlyIncreasing(s)
    ensures |set x | x in s| == |s|
  {
    if |s| == 0 {
      assert (set x | x in s) == {};
    } else {
      CountUpTo(s, |s| - 1);
      EndsBound(s);
      assert (set x | x in s) == set x | x in s && x <= s[|s| - 1];
    }
  }

  /** With fewer than fwd_td sessions after the freeze the row stays as it is. */
  lemma OpenUntilElapsed(panel: Panel, r: Row, round: real -> real, last: int)
    requires r.outcome.None? && r.fwdTd >= 1 && forall day :: day in panel ==> day.date <= last
    requires |Elapsed(panel, r.asOf, last)| < r.fwdTd
    ensures SettleRow(panel, r, round) == Some(r)
  {
    hide Score, After, Sessions, SettleRow;
    var after := After(Sessions(panel), r.asOf);
    ElapsedIsAfter(panel, r.asOf, last);
    forall x | x in after
      ensures x <= last
    {
      SessionsAre(panel, x);
      AfterIs(Sessions(panel), r.asOf, x);
    }
    AfterIncreases(Sessions(panel), r.asOf);
    DistinctEntries(after);
    assert (set x | x in after && x <= last) == set x | x in after;
    SettlesOnlyOnElapsedWindow(panel, r, round);
  }
}
