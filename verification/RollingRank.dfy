/** The two-phase trailing percentile: a prefix loop, then sliding windows, block by block. */
module RollingRank {
  import opened Options
  import opened Calendars

  type Symbol = string

  function Present(w: seq<Option<real>>): nat {
    if |w| == 0 then 0 else Present(w[..|w| - 1]) + if w[|w| - 1].Some? then 1 else 0
  }

  /** How many entries are at most v; a comparison with a missing number is false. */
  function AtMost(w: seq<Option<real>>, v: Option<real>): nat {
    if |w| == 0 then 0
    else AtMost(w[..|w| - 1], v) + if v.Some? && w[|w| - 1].Some? && w[|w| - 1].value <= v.value then 1 else 0
  }

  /** The share of the window at or below the current value; missing entries count in the denominator only. */
  function Share(w: seq<Option<real>>, v: Option<real>): real
    requires |w| > 0
  {
    AtMost(w, v) as real / |w| as real
  }

  // ----- the reference

  /** A symbol's own values up to and including row i, oldest first. */
  function History(symbols: seq<Symbol>, vals: seq<Option<real>>, s: Symbol, i: nat): seq<Option<real>>
    requires |symbols| == |vals| && i <= |vals|
  {
    if i == 0 then []
    else
      var h := History(symbols, vals, s, i - 1);
      if symbols[i - 1] == s then h + [vals[i - 1]] else h
  }

  function LastOf<T>(s: seq<T>, n: nat): (r: seq<T>)
    ensures |r| == if |s| < n then |s| else n
  {
    if |s| <= n then s else s[|s| - n..]
  }

  /** How many rows a symbol has. */
  function Rows(symbols: seq<Symbol>, s: Symbol): nat {
    if |symbols| == 0 then 0 else Rows(symbols[..|symbols| - 1], s) + if symbols[|symbols| - 1] == s then 1 else 0
  }

  /**
   * The rank of row i by its symbol's own history h: nothing for a symbol of fewer than minPeriods rows; the share of
   * the last win values once there are so many; before that the share of all of them, if minPeriods are present.
   */
  function RankOf(h: seq<Option<real>>, total: nat, win: nat, minPeriods: nat): Option<real>
    requires |h| > 0 && win > 0
  {
    if total < minPeriods then None
    else if |h| < win && (|h| < minPeriods || Present(h) < minPeriods) then None
    else Some(Share(LastOf(h, win), h[|h| - 1]))
  }

  // ----- blocks

  /** Rows of one symbol are contiguous, as after sorting by symbol. */
  ghost predicate Grouped(symbols: seq<Symbol>) {
    forall i, j, k :: 0 <= i < j < k < |symbols| && symbols[i] == symbols[k] ==> symbols[j] == symbols[i]
  }

  predicate IsStart(symbols: seq<Symbol>, i: nat)
    requires i < |symbols|
  {
    i == 0 || symbols[i] != symbols[i - 1]
  }

  /** The first row of each run of equal symbols among the first n. */
  function Starts(symbols: seq<Symbol>, n: nat): (r: seq<int>)
    requires n <= |symbols|
    ensures StrictlyIncreasing(r)
    ensures forall i :: i in r <==> 0 <= i < n && IsStart(symbols, i)
  {
    if n == 0 then []
    else
      var r := Starts(symbols, n - 1);
      if IsStart(symbols, n - 1) then
        AppendLargest(r, n - 1);
        r + [n - 1]
      else r
  }

  /** The k-th block runs from its start to the next one, or to the end. */
  function BlockEnd(symbols: seq<Symbol>, k: nat): int
    requires k < |Starts(symbols, |symbols|)|
  {
    var starts := Starts(symbols, |symbols|);
    if k + 1 < |starts| then starts[k + 1] else |symbols|
  }

  lemma {:induction false} RunIsConstant(symbols: seq<Symbol>, a: nat, i: nat)
    requires a <= i < |symbols|
    requires forall j :: a < j <= i ==> !IsStart(symbols, j)
    ensures symbols[i] == symbols[a]
  {
    if a < i {
      assert !IsStart(symbols, i);
      RunIsConstant(symbols, a, i - 1);
    }
  }

  lemma NotBetween(s: seq<int>, k: nat, x: int)
    requires StrictlyIncreasing(s) && k < |s| && s[k] < x && (k + 1 < |s| ==> x < s[k + 1])
    ensures x !in s
  {
    if x in s {
      var m :| 0 <= m < |s| && s[m] == x;
      if m < k {
      } else if m == k {
      } else if m == k + 1 {
      }
    }
  }

  /** A block holds one symbol and stops where the symbol changes. */
  lemma BlockIsRun(symbols: seq<Symbol>, k: nat)
    requires k < |Starts(symbols, |symbols|)|
    ensures
      var a, b := Starts(symbols, |symbols|)[k], BlockEnd(symbols, k);
      && 0 <= a < b <= |symbols|
      && (a > 0 ==> symbols[a] != symbols[a - 1])
      && (b < |symbols| ==> symbols[b] != symbols[a])
      && forall i :: a <= i < b ==> symbols[i] == symbols[a]
  {
    var starts := Starts(symbols, |symbols|);
    var a, b := starts[k], BlockEnd(symbols, k);
    assert a in starts && IsStart(symbols, a);
    if k + 1 < |starts| {
      assert b in starts && IsStart(symbols, b);
    }
    forall j | a < j < b
      ensures !IsStart(symbols, j)
    {
      NotBetween(starts, k, j);
    }
    forall i | a <= i < b
      ensures symbols[i] == symbols[a]
    {
      RunIsConstant(symbols, a, i);
    }
  }

  lemma GroupedAt(symbols: seq<Symbol>, i: int, j: int, k: int)
    requires Grouped(symbols) && 0 <= i < j < k < |symbols| && symbols[i] == symbols[k]
    ensures symbols[j] == symbols[i]
  {
  }

  lemma GroupedAround(symbols: seq<Symbol>, a: nat, b: nat, j: nat)
    requires Grouped(symbols) && a < b <= |symbols| && j < |symbols|
    requires symbols[b - 1] == symbols[a]
    requires a > 0 ==> symbols[a] != symbols[a - 1]
    requires b < |symbols| ==> symbols[b] != symbols[a]
    requires j < a || b <= j
    ensures symbols[j] != symbols[a]
  {
    if symbols[j] == symbols[a] {
      if j < a - 1 {
        GroupedAt(symbols, j, a - 1, a);
      } else if b < j {
        GroupedAt(symbols, a, b, j);
      }
    }
  }

  /** In a grouped frame a block's prefix is exactly the symbol's history, and the block is all of the symbol. */
  lemma BlockIsHistory(symbols: seq<Symbol>, vals: seq<Option<real>>, a: nat, b: nat, i: nat)
    requires |symbols| == |vals| && Grouped(symbols) && a <= i < b <= |symbols|
    requires forall j :: a <= j < b ==> symbols[j] == symbols[a]
    requires a > 0 ==> symbols[a] != symbols[a - 1]
    requires b < |symbols| ==> symbols[b] != symbols[a]
    ensures History(symbols, vals, symbols[i], i + 1) == vals[a..i + 1]
    ensures Rows(symbols, symbols[i]) == b - a
  {
    hide Grouped, History, Rows;
    var s := symbols[a];
    forall j | 0 <= j < |symbols| && (j < a || b <= j)
      ensures symbols[j] != s
    {
      GroupedAround(symbols, a, b, j);
    }
    HistoryOfRun(symbols, vals, s, a, i + 1);
    RowsOfRun(symbols, s, a, b, |symbols|);
    assert symbols[..|symbols|] == symbols;
  }

  lemma {:induction false} HistoryOfRun(symbols: seq<Symbol>, vals: seq<Option<real>>, s: Symbol, a: nat, i: nat)
    requires |symbols| == |vals| && i <= |vals|
    requires forall j :: 0 <= j < a && j < i ==> symbols[j] != s
    requires forall j :: a <= j < i ==> symbols[j] == s
    ensures History(symbols, vals, s, i) == if a <= i then vals[a..i] else []
  {
    if i > 0 {
      HistoryOfRun(symbols, vals, s, a, i - 1);
    }
  }

  lemma {:induction false} RowsOfRun(symbols: seq<Symbol>, s: Symbol, a: nat, b: nat, i: nat)
    requires a <= b && i <= |symbols|
    requires forall j :: 0 <= j < i ==> (symbols[j] == s <==> a <= j < b)
    ensures Rows(symbols[..i], s) == if i <= a then 0 else if i <= b then i - a else b - a
  {
    if i > 0 {
      RowsOfRun(symbols, s, a, b, i - 1);
      assert symbols[..i][..i - 1] == symbols[..i - 1];
    }
  }

  // ----- the two-phase algorithm

  lemma SlidingWindow(vals: seq<Option<real>>, a: nat, b: nat, k: nat, win: nat)
    requires a <= b <= |vals| && 0 < win <= k + 1 <= b - a
    ensures vals[a..b][k - (win - 1)..k + 1] == LastOf(vals[a..a + k + 1], win)
  {
    var v, h := vals[a..b], vals[a..a + k + 1];
    assert v[..k + 1] == h;
    var from := k - (win - 1);
    assert v[from..k + 1] == v[..k + 1][from..];
    assert |h| - win == from;
    if from == 0 {
      assert h[0..] == h;
    }
  }

  /** The rank of a row by its place in the block: too early, before the window is full, or from then on. */
  lemma RankByPhase(vals: seq<Option<real>>, a: nat, b: nat, i: nat, win: nat, minPeriods: nat)
    requires a <= b <= |vals| && i < b - a && 0 < minPeriods && 0 < win
    ensures |vals[a..a + i + 1]| > 0
    ensures
      var v := vals[a..b];
      var r := RankOf(vals[a..a + i + 1], b - a, win, minPeriods);
      && (b - a < minPeriods || (i < minPeriods - 1 && i < win - 1) ==> r == None)
      && (b - a >= minPeriods && minPeriods - 1 <= i < win - 1 ==>
            r == if Present(v[..i + 1]) >= minPeriods then Some(Share(v[..i + 1], v[i])) else None)
      && (b - a >= minPeriods && win - 1 <= i ==> r == Some(Share(v[i - (win - 1)..i + 1], v[i])))
  {
    hide Share, Present;
    var h := vals[a..a + i + 1];
    assert vals[a..b][..i + 1] == h;
    if win - 1 <= i {
      SlidingWindow(vals, a, b, i, win);
    }
  }

  /** Rank one block in place: rows [a, b) of out. */
  method RankBlock(vals: seq<Option<real>>, out: array<Option<real>>, a: nat, b: nat, win: nat, minPeriods: nat)
    requires a <= b <= |vals| == out.Length && 0 < minPeriods && 0 < win
    requires forall i :: a <= i < b ==> out[i] == None
    modifies out
    ensures forall i :: 0 <= i < out.Length && !(a <= i < b) ==> out[i] == old(out[i])
    ensures forall i :: a <= i < b ==> out[i] == RankOf(vals[a..i + 1], b - a, win, minPeriods)
  {
    hide Share, Present, RankOf;
    var v := vals[a..b];
    var n := |v|;
    forall k | a <= k < b && (n < minPeriods || (k - a < minPeriods - 1 && k - a < win - 1))
      ensures out[k] == RankOf(vals[a..k + 1], n, win, minPeriods)
    {
      RankByPhase(vals, a, b, k - a, win, minPeriods);
    }
    if n < minPeriods {
      return;
    }
    var stop := if win - 1 < n then win - 1 else n;
    var i := minPeriods - 1;
    while i < stop
      invariant minPeriods - 1 <= i <= n && (i <= stop || i == minPeriods - 1)
      invariant forall k :: 0 <= k < out.Length && !(a <= k < b) ==> out[k] == old(out[k])
      invariant forall k :: a <= k < b && k < a + i && k < a + win - 1 ==>
        out[k] == RankOf(vals[a..k + 1], n, win, minPeriods)
      invariant forall k :: a + i <= k < b ==> out[k] == None
      decreases stop - i
    {
      RankByPhase(vals, a, b, i, win, minPeriods);
      var w := v[..i + 1];
      if Present(w) >= minPeriods {
        out[a + i] := Some(Share(w, v[i]));
      }
      i := i + 1;
    }
    if n >= win {
      for k := win - 1 to n
        invariant forall j :: 0 <= j < out.Length && !(a <= j < b) ==> out[j] == old(out[j])
        invariant forall j :: a <= j < a + k ==> out[j] == RankOf(vals[a..j + 1], n, win, minPeriods)
      {
        RankByPhase(vals, a, b, k, win, minPeriods);
        out[a + k] := Some(Share(v[k - (win - 1)..k + 1], v[k]));
      }
    }
  }

  // ----- the naive rank, by row numbers

  /** A symbol's rows, those up to row i, and those among the last win rows up to i. */
  function AllOwn(symbols: seq<Symbol>, s: Symbol): set<int> {
    set j | 0 <= j < |symbols| && symbols[j] == s
  }

  function OwnUpTo(symbols: seq<Symbol>, i: nat): set<int>
    requires i < |symbols|
  {
    set j | 0 <= j <= i && symbols[j] == symbols[i]
  }

  function OwnWindow(symbols: seq<Symbol>, i: nat, win: nat): set<int>
    requires i < |symbols|
  {
    set j | 0 <= j <= i && i - win < j && symbols[j] == symbols[i]
  }

  function AtMostIn(symbols: seq<Symbol>, vals: seq<Option<real>>, i: nat, win: nat): set<int>
    requires |symbols| == |vals| && i < |symbols|
  {
    set j | j in OwnWindow(symbols, i, win) && vals[j].Some? && vals[i].Some? && vals[j].value <= vals[i].value
  }

  /**
   * The naive fraction: of the symbol's rows among the last win rows, how many hold a value at or below row i's.
   * Nothing for a symbol of fewer than minPeriods rows, nor before minPeriods rows or a full window.
   */
  function NaiveRank(symbols: seq<Symbol>, vals: seq<Option<real>>, i: nat, win: nat, minPeriods: nat): Option<real>
    requires |symbols| == |vals| && i < |symbols| && win > 0
  {
    assert i in OwnWindow(symbols, i, win);
    var sofar := |OwnUpTo(symbols, i)|;
    if |AllOwn(symbols, symbols[i])| < minPeriods || (sofar < minPeriods && sofar < win) then None
    else Some(|AtMostIn(symbols, vals, i, win)| as real / |OwnWindow(symbols, i, win)| as real)
  }

  lemma {:induction false} RowsAreCounted(symbols: seq<Symbol>, s: Symbol)
    ensures Rows(symbols, s) == |AllOwn(symbols, s)|
  {
    if |symbols| == 0 {
      assert AllOwn(symbols, s) == {};
    } else {
      var n := |symbols| - 1;
      RowsAreCounted(symbols[..n], s);
      OneMoreRow(symbols, s);
    }
  }

  lemma OneMoreRow(symbols: seq<Symbol>, s: Symbol)
    requires |symbols| > 0
    ensures AllOwn(symbols, s)
         == AllOwn(symbols[..|symbols| - 1], s) + if symbols[|symbols| - 1] == s then {|symbols| - 1} else {}
  {
    var front := symbols[..|symbols| - 1];
    assert forall j :: 0 <= j < |front| ==> front[j] == symbols[j];
  }

  function Interval(from: nat, to: nat): (r: set<int>)
    requires from <= to
    ensures |r| == to - from
    ensures forall j :: j in r <==> from <= j < to
  {
    if from == to then {} else Interval(from, to - 1) + {to - 1}
  }

  lemma {:induction false} AtMostIsCounted(vals: seq<Option<real>>, from: nat, to: nat, v: Option<real>)
    requires from <= to <= |vals|
    ensures AtMost(vals[from..to], v)
         == |set j | from <= j < to && vals[j].Some? && v.Some? && vals[j].value <= v.value|
  {
    var all := set j | from <= j < to && vals[j].Some? && v.Some? && vals[j].value <= v.value;
    if from == to {
      assert all == {};
    } else {
      var n := to - 1;
      AtMostIsCounted(vals, from, n, v);
      AtMostAppend(vals[from..n], vals[n], v);
      assert vals[from..to] == vals[from..n] + [vals[n]];
      hide AtMost;
      var before := set j | from <= j < n && vals[j].Some? && v.Some? && vals[j].value <= v.value;
      assert all == before + if vals[n].Some? && v.Some? && vals[n].value <= v.value then {n} else {};
    }
  }

  lemma AtMostAppend(vals: seq<Option<real>>, x: Option<real>, v: Option<real>)
    ensures AtMost(vals + [x], v)
         == AtMost(vals, v) + if x.Some? && v.Some? && x.value <= v.value then 1 else 0
  {
    assert (vals + [x])[..|vals|] == vals;
  }

  /** The first row of the run of equal symbols that ends in i. */
  lemma {:induction false} RunStart(symbols: seq<Symbol>, i: nat) returns (a: nat)
    requires i < |symbols|
    ensures a <= i && forall j :: a <= j <= i ==> symbols[j] == symbols[i]
    ensures a > 0 ==> symbols[a - 1] != symbols[i]
  {
    if i > 0 && symbols[i - 1] == symbols[i] {
      a := RunStart(symbols, i - 1);
    } else {
      a := i;
    }
  }

  /** In a grouped frame the rows of i's symbol up to i are the run that ends in i. */
  lemma OwnIsRun(symbols: seq<Symbol>, i: nat, a: nat, win: nat)
    requires Grouped(symbols) && a <= i < |symbols| && win > 0
    requires forall j :: a <= j <= i ==> symbols[j] == symbols[i]
    requires a > 0 ==> symbols[a - 1] != symbols[i]
    ensures forall j :: 0 <= j < a ==> symbols[j] != symbols[i]
    ensures OwnUpTo(symbols, i) == Interval(a, i + 1)
    ensures OwnWindow(symbols, i, win) == Interval(if a <= i + 1 - win then i + 1 - win else a, i + 1)
  {
    hide Grouped;
    forall j | 0 <= j < a
      ensures symbols[j] != symbols[i]
    {
      if symbols[j] == symbols[i] && j < a - 1 {
        GroupedAt(symbols, j, a - 1, i);
      }
    }
  }

  lemma LastOfRun(vals: seq<Option<real>>, a: nat, i: nat, win: nat)
    requires a <= i < |vals| && win > 0
    ensures LastOf(vals[a..i + 1], win) == vals[if a <= i + 1 - win then i + 1 - win else a..i + 1]
  {
  }

  /** Present counts the entries that are there. */
  lemma {:induction false} PresentIsCounted(w: seq<Option<real>>)
    ensures Present(w) == |set i: nat | i < |w| && w[i].Some?|
  {
    var all := set i: nat | i < |w| && w[i].Some?;
    if w == [] {
      assert all == {};
    } else {
      var n := |w| - 1;
      PresentIsCounted(w[..n]);
      var before := set i: nat | i < n && w[..n][i].Some?;
      assert all == before + if w[n].Some? then {n} else {};
    }
  }

  lemma {:induction false} AllPresent(h: seq<Option<real>>)
    requires forall k :: 0 <= k < |h| ==> h[k].Some?
    ensures Present(h) == |h|
  {
    if |h| != 0 {
      AllPresent(h[..|h| - 1]);
    }
  }

  /** On complete data the rank of a row by its history is its naive rank. */
  lemma CompleteDataRank(symbols: seq<Symbol>, vals: seq<Option<real>>, i: nat, win: nat, minPeriods: nat)
    requires |symbols| == |vals| && Grouped(symbols) && i < |symbols| && 0 < win
    requires forall j :: 0 <= j <= i && symbols[j] == symbols[i] ==> vals[j].Some?
    ensures |History(symbols, vals, symbols[i], i + 1)| > 0
    ensures RankOf(History(symbols, vals, symbols[i], i + 1), Rows(symbols, symbols[i]), win, minPeriods)
         == NaiveRank(symbols, vals, i, win, minPeriods)
  {
    hide Grouped, History, Rows, Present, AtMost, LastOf, OwnUpTo, OwnWindow, AllOwn, Interval;
    var a := RunStart(symbols, i);
    OwnIsRun(symbols, i, a, win);
    HistoryOfRun(symbols, vals, symbols[i], a, i + 1);
    var h := vals[a..i + 1];
    AllPresent(h);
    RowsAreCounted(symbols, symbols[i]);
    var from := if a <= i + 1 - win then i + 1 - win else a;
    LastOfRun(vals, a, i, win);
    AtMostIsCounted(vals, from, i + 1, vals[i]);
    AtMostInRun(symbols, vals, i, win, from);
  }

  lemma AtMostInRun(symbols: seq<Symbol>, vals: seq<Option<real>>, i: nat, win: nat, from: nat)
    requires |symbols| == |vals| && from <= i < |symbols| && OwnWindow(symbols, i, win) == Interval(from, i + 1)
    ensures AtMostIn(symbols, vals, i, win)
         == set j | from <= j < i + 1 && vals[j].Some? && vals[i].Some? && vals[j].value <= vals[i].value
  {
    hide OwnWindow, Interval;
  }

  // ----- the whole column

  /**
   * Every row is ranked by its own symbol's trailing history and nothing else: on complete data, by the naive
   * fraction.
   */
  method RollingRanks(symbols: seq<Symbol>, vals: seq<Option<real>>, win: nat, minPeriods: nat)
    returns (out: array<Option<real>>)
    requires |symbols| == |vals| && 0 < minPeriods && 0 < win
    requires forall i, j, k :: 0 <= i < j < k < |symbols| && symbols[i] == symbols[k] ==> symbols[j] == symbols[i]
    ensures fresh(out) && out.Length == |vals|
    ensures forall i :: 0 <= i < |vals| ==>
      |History(symbols, vals, symbols[i], i + 1)| > 0 &&
      out[i] == RankOf(History(symbols, vals, symbols[i], i + 1), Rows(symbols, symbols[i]), win, minPeriods)
    ensures forall i :: 0 <= i < |vals| && (forall j :: 0 <= j <= i && symbols[j] == symbols[i] ==> vals[j].Some?) ==>
      out[i] == NaiveRank(symbols, vals, i, win, minPeriods)
  {
    assert Grouped(symbols);
    hide RankOf, History, Rows, Starts, Grouped, NaiveRank;
    out := new Option<real>[|vals|](_ => None);
    if |symbols| > 0 {
      RankBlocks(symbols, vals, out, win, minPeriods);
    }
    forall i | 0 <= i < |vals| && forall j :: 0 <= j <= i && symbols[j] == symbols[i] ==> vals[j].Some?
      ensures out[i] == NaiveRank(symbols, vals, i, win, minPeriods)
    {
      CompleteDataRank(symbols, vals, i, win, minPeriods);
    }
  }

  /** The loop over the blocks. */
  method RankBlocks(
      symbols: seq<Symbol>, vals: seq<Option<real>>, out: array<Option<real>>, win: nat, minPeriods: nat)
    requires |symbols| == |vals| == out.Length && |symbols| > 0
    requires Grouped(symbols) && 0 < minPeriods && 0 < win
    requires forall i :: 0 <= i < out.Length ==> out[i] == None
    modifies out
    ensures forall i :: 0 <= i < |vals| ==>
      |History(symbols, vals, symbols[i], i + 1)| > 0 &&
      out[i] == RankOf(History(symbols, vals, symbols[i], i + 1), Rows(symbols, symbols[i]), win, minPeriods)
  {
    hide RankOf, History, Rows, Starts, Grouped;
    var starts := Starts(symbols, |symbols|);
    assert 0 in starts && starts[0] in starts;
    for k := 0 to |starts|
      invariant forall i :: 0 <= i < |vals| && (k < |starts| ==> starts[k] <= i) && k < |starts| ==> out[i] == None
      invariant forall i :: 0 <= i < |vals| && (k < |starts| ==> i < starts[k]) ==>
        |History(symbols, vals, symbols[i], i + 1)| > 0 &&
        out[i] == RankOf(History(symbols, vals, symbols[i], i + 1), Rows(symbols, symbols[i]), win, minPeriods)
    {
      var a, b := starts[k], BlockEnd(symbols, k);
      BlockIsRun(symbols, k);
      RankBlock(vals, out, a, b, win, minPeriods);
      forall i | a <= i < b
        ensures History(symbols, vals, symbols[i], i + 1) == vals[a..i + 1] && Rows(symbols, symbols[i]) == b - a
      {
        BlockIsHistory(symbols, vals, a, b, i);
      }
    }
  }

  // ----- what missing values do

  lemma {:induction false} AtMostPresent(w: seq<Option<real>>, v: Option<real>)
    ensures AtMost(w, v) <= Present(w) <= |w|
    ensures v.None? ==> AtMost(w, v) == 0
  {
    if |w| != 0 {
      AtMostPresent(w[..|w| - 1], v);
    }
  }

  /**
   * With missing values the share is taken over the whole window, so it equals the share of the present values
   * exactly when none is missing or none is at or below the current one.
   */
  lemma MissingValuesDilute(w: seq<Option<real>>, v: Option<real>)
    requires Present(w) > 0
    ensures |w| > 0 && Share(w, v) <= AtMost(w, v) as real / Present(w) as real
    ensures Share(w, v) == AtMost(w, v) as real / Present(w) as real <==> Present(w) == |w| || AtMost(w, v) == 0
  {
    AtMostPresent(w, v);
    QuotientOrder(AtMost(w, v) as real, Present(w) as real, |w| as real);
  }

  lemma QuotientOrder(c: real, p: real, n: real)
    requires 0.0 <= c && 0.0 < p <= n
    ensures c / n <= c / p
    ensures c / n == c / p <==> p == n || c == 0.0
  {
    if c == 0.0 {
      ZeroOver(n);
      ZeroOver(p);
    } else if p < n {
      LargerDivisor(c, p, n);
    }
  }

  lemma ZeroOver(n: real)
    requires n > 0.0
    ensures 0.0 / n == 0.0
  {
  }

  lemma DivideTimes(c: real, n: real)
    requires n > 0.0
    ensures (c / n) * n == c
    ensures c > 0.0 ==> c / n > 0.0
  {
  }

  lemma LargerDivisor(c: real, p: real, n: real)
    requires 0.0 < c && 0.0 < p < n
    ensures c / n < c / p
  {
    var x, y := c / n, c / p;
    DivideTimes(c, n);
    DivideTimes(c, p);
    Scaled(y, p, n);
    if x >= y {
      Scaled(n, y, x);
    }
  }

  lemma Scaled(k: real, a: real, b: real)
    requires k > 0.0 && a <= b
    ensures k * a <= k * b
    ensures a < b ==> k * a < k * b
  {
  }

  /** A missing current value is ranked zero, not missing, once the window is full. */
  lemma MissingCurrentRanksZero(h: seq<Option<real>>, total: nat, win: nat, minPeriods: nat)
    requires 0 < win <= |h| <= total && minPeriods <= total && h[|h| - 1].None?
    ensures RankOf(h, total, win, minPeriods) == Some(0.0)
  {
    AtMostPresent(LastOf(h, win), None);
  }
}
