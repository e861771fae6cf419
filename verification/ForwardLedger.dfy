/** The forward paper ledger: freeze pools today, settle them once their window has elapsed. */
module ForwardLedger {
  import opened Options
  import opened Vectors
  import opened Calendars

  type Symbol = string

  datatype Quote = Quote(symbol: Symbol, close: Option<real>)

  /** One session's closes; a symbol appears once. */
  datatype Day = Day(date: int, closes: seq<Quote>)

  type Panel = seq<Day>

  datatype Outcome = Outcome(fwdEnd: int, pool: Option<real>, bench: real, excess: Option<real>)

  /** A frozen pool; `outcome` is filled in when it settles. */
  datatype Row = Row(asOf: int, sleeve: string, symbols: seq<Symbol>, fwdTd: int, outcome: Option<Outcome>)

  // ----- prices

  function Dates(panel: Panel): (r: seq<int>)
    ensures |r| == |panel|
    ensures forall i :: 0 <= i < |r| ==> r[i] == panel[i].date
  {
    seq(|panel|, i requires 0 <= i < |panel| => panel[i].date)
  }

  /** The panel's sessions in order. */
  function Sessions(panel: Panel): (r: seq<int>)
    ensures StrictlyIncreasing(r)
  {
    SortedUnique(Dates(panel))
  }

  /** The closes of a session; none if the panel lacks it. */
  function ClosesOn(panel: Panel, date: int): seq<Quote> {
    if |panel| == 0 then []
    else if panel[|panel| - 1].date == date then panel[|panel| - 1].closes
    else ClosesOn(panel[..|panel| - 1], date)
  }

  function CloseOf(closes: seq<Quote>, s: Symbol): Option<real> {
    if |closes| == 0 then None
    else if closes[|closes| - 1].symbol == s then closes[|closes| - 1].close
    else CloseOf(closes[..|closes| - 1], s)
  }

  /** The window return of a symbol, when both closes are known; prices are positive. */
  function ReturnOf(c0: seq<Quote>, c1: seq<Quote>, s: Symbol): Option<real> {
    var a, b := CloseOf(c0, s), CloseOf(c1, s);
    if a.Some? && b.Some? && a.value > 0.0 then Some(b.value / a.value - 1.0) else None
  }

  /** The known returns of a list of symbols. */
  function Returns(c0: seq<Quote>, c1: seq<Quote>, syms: seq<Symbol>): seq<real> {
    if |syms| == 0 then []
    else
      var r, x := Returns(c0, c1, syms[..|syms| - 1]), ReturnOf(c0, c1, syms[|syms| - 1]);
      if x.Some? then r + [x.value] else r
  }

  function SymbolsOf(closes: seq<Quote>): (r: seq<Symbol>)
    ensures |r| == |closes|
    ensures forall i :: 0 <= i < |r| ==> r[i] == closes[i].symbol
  {
    seq(|closes|, i requires 0 <= i < |closes| => closes[i].symbol)
  }

  // ----- the window

  function After(sessions: seq<int>, asOf: int): (r: seq<int>)
    ensures |r| <= |sessions|
    ensures forall i :: 0 <= i < |r| ==> r[i] > asOf
  {
    if |sessions| == 0 then []
    else
      var r, t := After(sessions[..|sessions| - 1], asOf), sessions[|sessions| - 1];
      if t > asOf then r + [t] else r
  }

  /** A Python slice s[:k]; a negative k counts from the end. */
  function UpTo(s: seq<int>, k: int): (r: seq<int>)
    ensures |r| <= |s| && r == s[..|r|]
  {
    if k >= 0 then s[..if k < |s| then k else |s|]
    else s[..if |s| + k > 0 then |s| + k else 0]
  }

  function Window(panel: Panel, r: Row): (w: seq<int>) {
    UpTo(After(Sessions(panel), r.asOf), r.fwdTd)
  }

  /** One row's step: settled rows and unfinished windows stay; an empty window raises. */
  function SettleRow(panel: Panel, r: Row, round: real -> real): Option<Row> {
    if r.outcome.Some? then Some(r)
    else
      var future := Window(panel, r);
      if |future| < r.fwdTd then Some(r)
      else if |future| == 0 then None
      else
        var end := future[|future| - 1];
        Some(r.(outcome := Score(ClosesOn(panel, r.asOf), ClosesOn(panel, end), end, r.symbols, round)))
  }

  /** The equal-weight pool, benchmark and excess over one pair of sessions; nothing if no return is known. */
  function Score(c0: seq<Quote>, c1: seq<Quote>, end: int, syms: seq<Symbol>, round: real -> real): Option<Outcome> {
    var all := Returns(c0, c1, SymbolsOf(c1));
    if |all| == 0 then None
    else
      var bench, pool := Mean(all), Returns(c0, c1, syms);
      if |pool| == 0 then Some(Outcome(end, None, round(bench), None))
      else Some(Outcome(end, Some(round(Mean(pool))), round(bench), Some(round(Mean(pool) - bench))))
  }

  /** Settle every row, or raise and save nothing. */
  function SettleAll(panel: Panel, rows: seq<Row>, round: real -> real): Option<seq<Row>> {
    if |rows| == 0 then Some([])
    else if |panel| == 0 then None
    else
      var front := SettleAll(panel, rows[..|rows| - 1], round);
      var last := SettleRow(panel, rows[|rows| - 1], round);
      if front.Some? && last.Some? then Some(front.value + [last.value]) else None
  }

  // ----- freezing

  type Key = (int, string)

  function KeyOf(r: Row): Key {
    (r.asOf, r.sleeve)
  }

  ghost predicate UniqueKeys(rows: seq<Row>) {
    forall i, j :: 0 <= i < j < |rows| ==> KeyOf(rows[i]) != KeyOf(rows[j])
  }

  predicate HasKey(rows: seq<Row>, k: Key) {
    exists r :: r in rows && KeyOf(r) == k
  }

  /** Of rows with one key, keep the last. */
  function KeepLast(rows: seq<Row>): (r: seq<Row>)
    ensures forall x :: x in r ==> x in rows
    ensures UniqueKeys(r)
  {
    if |rows| == 0 then []
    else
      var rest := KeepLast(rows[1..]);
      assert rows == [rows[0]] + rows[1..];
      if HasKey(rows[1..], KeyOf(rows[0])) then rest
      else
        assert forall i :: 0 <= i < |rest| ==> rest[i] in rest;
        [rows[0]] + rest
  }

  /** Distinct symbols in order of first appearance. */
  function Distinct(s: seq<Symbol>): (r: seq<Symbol>)
    ensures forall x :: x in r <==> x in s
  {
    if |s| == 0 then []
    else
      var r := Distinct(s[..|s| - 1]);
      assert s == s[..|s| - 1] + [s[|s| - 1]];
      if s[|s| - 1] in r then r else r + [s[|s| - 1]]
  }

  /** Each symbol keeps its first place: the places rise, and no symbol of the list occurs before its own. */
  lemma {:induction false} DistinctKeepsFirst(s: seq<Symbol>) returns (at: seq<nat>)
    ensures |at| == |Distinct(s)|
    ensures forall k :: 0 <= k < |at| ==> at[k] < |s| && Distinct(s)[k] == s[at[k]] && s[at[k]] !in s[..at[k]]
    ensures forall k, l :: 0 <= k < l < |at| ==> at[k] < at[l]
  {
    if |s| == 0 {
      at := [];
    } else {
      var n := |s| - 1;
      var front := s[..n];
      assert s == front + [s[n]];
      var before := DistinctKeepsFirst(front);
      forall k | 0 <= k < |before|
        ensures s[..before[k]] == front[..before[k]]
      {
      }
      at := if s[n] in Distinct(front) then before else before + [n];
    }
  }

  /** The rows one freeze adds: a sleeve with no symbols is skipped. */
  function FrozenRows(asOf: int, factor: seq<Symbol>, chain: seq<Symbol>, fwdTd: int): seq<Row> {
    var pools := Distinct(factor + chain);
    (if factor == [] then [] else [Row(asOf, "factor", factor, fwdTd, None)]) +
    (if chain == [] then [] else [Row(asOf, "chain", chain, fwdTd, None)]) +
    (if pools == [] then [] else [Row(asOf, "union", pools, fwdTd, None)])
  }

  class LedgerFile {
    var rows: seq<Row>

    constructor ()
      ensures rows == []
    {
      rows := [];
    }

    /** Append today's pools, replacing earlier rows of the same date and sleeve. */
    method Freeze(asOf: int, factor: seq<Symbol>, chain: seq<Symbol>, fwdTd: int) returns (frozen: bool)
      modifies this
      ensures frozen <==> FrozenRows(asOf, factor, chain, fwdTd) != []
      ensures rows == if frozen then KeepLast(old(rows) + FrozenRows(asOf, factor, chain, fwdTd)) else old(rows)
      ensures frozen || UniqueKeys(old(rows)) ==> UniqueKeys(rows)
    {
      var added: seq<Row> := [];
      if factor != [] {
        added := added + [Row(asOf, "factor", factor, fwdTd, None)];
      }
      if chain != [] {
        added := added + [Row(asOf, "chain", chain, fwdTd, None)];
      }
      var pools := Distinct(factor + chain);
      if pools != [] {
        added := added + [Row(asOf, "union", pools, fwdTd, None)];
      }
      assert added == FrozenRows(asOf, factor, chain, fwdTd);
      if added == [] {
        return false;
      }
      rows := KeepLast(rows + added);
      frozen := true;
    }

    /** Walk the rows and write outcomes in place; the file is saved only if no row raises. */
    method Settle(panel: Panel, round: real -> real) returns (saved: bool)
      modifies this
      ensures saved <==> SettleAll(panel, old(rows), round).Some?
      ensures rows == if saved then SettleAll(panel, old(rows), round).value else old(rows)
    {
      if |rows| == 0 {
        return true;
      }
      var led, before := rows, rows;
      if |panel| == 0 {
        assert SettleAll(panel, before, round).None?;
        return false;
      }
      for i := 0 to |led|
        invariant |led| == |before| && led[i..] == before[i..] && rows == before
        invariant SettleAll(panel, before[..i], round) == Some(led[..i])
      {
        assert before[..i + 1][..i] == before[..i];
        assert led[i] == led[i..][0] == before[i..][0] == before[i];
        var next := SettleRow(panel, led[i], round);
        if next.None? {
          RaiseStops(panel, before, round, i);
          return false;
        }
        led := led[i := next.value];
        assert led[..i + 1] == led[..i] + [next.value];
      }
      assert before[..|led|] == before && led[..|led|] == led;
      rows := led;
      saved := true;
    }
  }

  lemma {:induction false} RaiseStops(panel: Panel, rows: seq<Row>, round: real -> real, i: nat)
    requires i < |rows| && |panel| > 0 && SettleRow(panel, rows[i], round).None?
    ensures SettleAll(panel, rows, round).None?
  {
    if i < |rows| - 1 {
      RaiseStops(panel, rows[..|rows| - 1], round, i);
    }
  }

  // ----- settlement over a growing panel

  /** The later panel has the same sessions and closes, plus only strictly later sessions. */
  ghost predicate Extends(panel: Panel, later: Panel) {
    && Sessions(panel) <= Sessions(later)
    && forall d :: (forall t :: t in Sessions(later) && t !in Sessions(panel) ==> d < t) ==>
      ClosesOn(later, d) == ClosesOn(panel, d)
  }

  lemma {:induction false} AfterPrefix(a: seq<int>, b: seq<int>, asOf: int)
    requires a <= b
    ensures After(a, asOf) <= After(b, asOf)
    decreases |b|
  {
    if |a| < |b| {
      AfterPrefix(a, b[..|b| - 1], asOf);
    } else {
      assert a == b;
    }
  }

  lemma {:induction false} AfterMembers(s: seq<int>, asOf: int)
    ensures forall t :: t in After(s, asOf) <==> t in s && t > asOf
  {
    if |s| != 0 {
      assert s == s[..|s| - 1] + [s[|s| - 1]];
      AfterMembers(s[..|s| - 1], asOf);
    }
  }

  /** A finished window is the same window in every later panel, and lies before everything new. */
  lemma WindowIsStable(panel: Panel, later: Panel, r: Row)
    requires Extends(panel, later) && 1 <= r.fwdTd <= |After(Sessions(panel), r.asOf)|
    ensures r.fwdTd <= |After(Sessions(later), r.asOf)|
    ensures After(Sessions(later), r.asOf)[r.fwdTd - 1] == After(Sessions(panel), r.asOf)[r.fwdTd - 1]
    ensures r.asOf < After(Sessions(panel), r.asOf)[r.fwdTd - 1]
    ensures After(Sessions(panel), r.asOf)[r.fwdTd - 1] in Sessions(panel)
  {
    AfterPrefix(Sessions(panel), Sessions(later), r.asOf);
    AfterMembers(Sessions(panel), r.asOf);
    var a := After(Sessions(panel), r.asOf);
    assert a[r.fwdTd - 1] in a;
  }

  lemma PrefixMember(a: seq<int>, b: seq<int>, j: int)
    requires a <= b && 0 <= j < |a|
    ensures b[j] in a
  {
  }

  lemma OldSessionsComeFirst(panel: Panel, later: Panel, d: int, known: int)
    requires Extends(panel, later) && known in Sessions(panel) && d <= known
    ensures ClosesOn(later, d) == ClosesOn(panel, d)
  {
    var a, b := Sessions(panel), Sessions(later);
    forall t | t in b && t !in a
      ensures d < t
    {
      var i :| 0 <= i < |a| && a[i] == known;
      var j :| 0 <= j < |b| && b[j] == t;
      assert b[i] == a[i];
      if j < |a| {
        PrefixMember(a, b, j);
      }
    }
  }

  /** Settling early and again later is the same as settling later once. */
  lemma RowIsConfluent(panel: Panel, later: Panel, r: Row, round: real -> real)
    requires Extends(panel, later) && (r.fwdTd >= 1 || r.outcome.Some?)
    ensures SettleRow(panel, r, round).Some? && SettleRow(later, r, round).Some?
    ensures SettleRow(later, SettleRow(panel, r, round).value, round) == SettleRow(later, r, round)
  {
    if r.outcome.None? {
      SettlesOnlyOnElapsedWindow(panel, r, round);
      SettlesOnlyOnElapsedWindow(later, r, round);
      if r.fwdTd <= |After(Sessions(panel), r.asOf)| {
        WindowIsStable(panel, later, r);
        var end := After(Sessions(panel), r.asOf)[r.fwdTd - 1];
        OldSessionsComeFirst(panel, later, r.asOf, end);
        OldSessionsComeFirst(panel, later, end, end);
        hide Score, ClosesOn, Sessions, After, Window;
        var once := SettleRow(panel, r, round).value;
        assert once.outcome.None? ==> once == r;
      }
    }
  }

  /**
   * settle(later, settle(panel, L)) == settle(later, L) for every ledger of positive windows; with panel == later,
   * idempotence.
   */
  lemma {:induction false} SettlementIsConfluent(panel: Panel, later: Panel, rows: seq<Row>, round: real -> real)
    requires Extends(panel, later) && |panel| > 0 && |later| > 0
    requires forall i :: 0 <= i < |rows| ==> rows[i].fwdTd >= 1 || rows[i].outcome.Some?
    ensures SettleAll(panel, rows, round).Some? && SettleAll(later, rows, round).Some?
    ensures SettleAll(later, SettleAll(panel, rows, round).value, round) == SettleAll(later, rows, round)
    ensures |SettleAll(panel, rows, round).value| == |rows|
  {
    if |rows| != 0 {
      var n := |rows| - 1;
      SettlementIsConfluent(panel, later, rows[..n], round);
      RowIsConfluent(panel, later, rows[n], round);
      var once := SettleAll(panel, rows, round).value;
      assert once[..n] == SettleAll(panel, rows[..n], round).value;
    }
  }

  lemma ExtendsItself(panel: Panel)
    ensures Extends(panel, panel)
  {
  }

  lemma SettlementIsIdempotent(panel: Panel, rows: seq<Row>, round: real -> real)
    requires |panel| > 0 && forall i :: 0 <= i < |rows| ==> rows[i].fwdTd >= 1 || rows[i].outcome.Some?
    ensures SettleAll(panel, rows, round).Some?
    ensures SettleAll(panel, SettleAll(panel, rows, round).value, round) == SettleAll(panel, rows, round)
  {
    ExtendsItself(panel);
    SettlementIsConfluent(panel, panel, rows, round);
  }

  /**
   * A row settles only once fwd_td sessions after its date exist, at the last of them, and uses no other session's
   * prices.
   */
  lemma SettlesOnlyOnElapsedWindow(panel: Panel, r: Row, round: real -> real)
    requires r.outcome.None? && r.fwdTd >= 1
    ensures SettleRow(panel, r, round).Some?
    ensures
      var after, settled := After(Sessions(panel), r.asOf), SettleRow(panel, r, round).value;
      if |after| < r.fwdTd then settled == r
      else
        var end := after[r.fwdTd - 1];
        settled == r.(outcome := Score(ClosesOn(panel, r.asOf), ClosesOn(panel, end), end, r.symbols, round))
  {
    hide Score, ClosesOn, Sessions, After;
  }

  lemma UsesOnlyTwoSessions(a: Panel, b: Panel, r: Row, round: real -> real)
    requires r.outcome.None? && r.fwdTd >= 1 && Sessions(a) == Sessions(b)
    requires ClosesOn(a, r.asOf) == ClosesOn(b, r.asOf)
    requires r.fwdTd <= |After(Sessions(a), r.asOf)| ==>
      ClosesOn(a, After(Sessions(a), r.asOf)[r.fwdTd - 1]) == ClosesOn(b, After(Sessions(a), r.asOf)[r.fwdTd - 1])
    ensures SettleRow(a, r, round) == SettleRow(b, r, round)
  {
    SettlesOnlyOnElapsedWindow(a, r, round);
    SettlesOnlyOnElapsedWindow(b, r, round);
  }

  // ----- windows that are not positive

  /** A zero window always raises, so nothing in that ledger is ever saved. */
  lemma ZeroWindowRaises(panel: Panel, r: Row, round: real -> real)
    requires r.outcome.None? && r.fwdTd == 0
    ensures SettleRow(panel, r, round) == None
  {
  }

  const FLAT := [Quote("600000.SH", Some(1.0))]

  /** A panel of n consecutive sessions with one unchanging price. */
  function Flat(start: int, n: nat): (p: Panel)
    ensures |p| == n
    ensures forall i :: 0 <= i < n ==> p[i] == Day(start + i, FLAT)
  {
    seq(n, i requires 0 <= i < n => Day(start + i, FLAT))
  }

  function Counting(start: int, n: nat): (r: seq<int>)
    ensures |r| == n
    ensures forall i :: 0 <= i < n ==> r[i] == start + i
  {
    seq(n, i requires 0 <= i < n => start + i)
  }

  lemma {:induction false} FlatCloses(start: int, n: nat, d: int)
    ensures ClosesOn(Flat(start, n), d) == if start <= d < start + n then FLAT else []
  {
    if n > 0 {
      assert Flat(start, n)[..n - 1] == Flat(start, n - 1);
      FlatCloses(start, n - 1, d);
    }
  }

  lemma FlatSessions(start: int, n: nat)
    ensures Sessions(Flat(start, n)) == Counting(start, n)
  {
    assert Dates(Flat(start, n)) == Counting(start, n);
    SameEntriesSameSchedule(Sessions(Flat(start, n)), Counting(start, n));
  }

  lemma {:induction false} AfterStart(start: int, n: nat)
    requires n > 0
    ensures After(Counting(start, n), start) == Counting(start, n)[1..]
  {
    assert Counting(start, n)[..n - 1] == Counting(start, n - 1);
    if n > 1 {
      AfterStart(start, n - 1);
      assert Counting(start, n)[1..] == Counting(start, n - 1)[1..] + [start + n - 1];
    } else {
      assert After([], start) == [];
    }
  }

  lemma FlatGrows(start: int, n: nat, m: nat)
    requires n <= m
    ensures Extends(Flat(start, n), Flat(start, m))
  {
    hide Sessions, ClosesOn;
    var panel, later := Flat(start, n), Flat(start, m);
    FlatSessions(start, n);
    FlatSessions(start, m);
    forall d | forall t :: t in Sessions(later) && t !in Sessions(panel) ==> d < t
      ensures ClosesOn(later, d) == ClosesOn(panel, d)
    {
      FlatCloses(start, n, d);
      FlatCloses(start, m, d);
      if n < m {
        NewSession(start, n, m);
      }
    }
  }

  lemma NewSession(start: int, n: nat, m: nat)
    requires n < m
    ensures start + n in Counting(start, m) && start + n !in Counting(start, n)
  {
    assert Counting(start, m)[n] == start + n;
  }

  /** A window of -k is every later session but the last k, so where a row settles moves with the panel. */
  lemma NegativeWindowFollowsPanel(r: Row, n: nat, round: real -> real)
    requires r.outcome.None? && r.fwdTd < 0 && n >= 2 - r.fwdTd
    ensures
      var settled := SettleRow(Flat(r.asOf, n), r, round);
      settled.Some? && settled.value.outcome.Some? && settled.value.outcome.value.fwdEnd == r.asOf + n - 1 + r.fwdTd
  {
    hide ClosesOn, Sessions, After, Mean;
    FlatSessions(r.asOf, n);
    AfterStart(r.asOf, n);
    var future := Window(Flat(r.asOf, n), r);
    assert |future| == n - 1 + r.fwdTd && future[|future| - 1] == r.asOf + n - 1 + r.fwdTd;
    FlatCloses(r.asOf, n, r.asOf);
    FlatCloses(r.asOf, n, r.asOf + n - 1 + r.fwdTd);
    assert Returns(FLAT, FLAT, SymbolsOf(FLAT)) == [0.0] by {
      assert SymbolsOf(FLAT)[..0] == [];
    }
  }

  /** Whatever the panel and however it grows, settling the row early and again equals settling it once. */
  ghost predicate Confluent(r: Row, round: real -> real) {
    forall panel, later :: Extends(panel, later) && |panel| > 0 && |later| > 0 ==>
      (SettleRow(panel, r, round).Some?
       && SettleRow(later, SettleRow(panel, r, round).value, round) == SettleRow(later, r, round))
  }

  /** An unsettled row is confluent exactly when its window is at least one session. */
  lemma ConfluentIff(r: Row, round: real -> real)
    requires r.outcome.None?
    ensures Confluent(r, round) <==> r.fwdTd >= 1
  {
    hide SettleRow, Extends;
    if r.fwdTd >= 1 {
      forall panel, later | Extends(panel, later) && |panel| > 0 && |later| > 0
        ensures SettleRow(panel, r, round).Some?
        ensures SettleRow(later, SettleRow(panel, r, round).value, round) == SettleRow(later, r, round)
      {
        RowIsConfluent(panel, later, r, round);
      }
    } else {
      var n := 2 - r.fwdTd;
      var panel, later := Flat(r.asOf, n), Flat(r.asOf, n + 1);
      FlatGrows(r.asOf, n, n + 1);
      if r.fwdTd == 0 {
        ZeroWindowRaises(panel, r, round);
      } else {
        NegativeWindowFollowsPanel(r, n, round);
        NegativeWindowFollowsPanel(r, n + 1, round);
        SettledStays(later, SettleRow(panel, r, round).value, round);
      }
    }
  }

  lemma SettledStays(panel: Panel, r: Row, round: real -> real)
    requires r.outcome.Some?
    ensures SettleRow(panel, r, round) == Some(r)
  {
  }

  // ----- freezing and settled rows

  lemma {:induction false} KeepLastIsLast(rows: seq<Row>, added: seq<Row>, x: Row)
    requires UniqueKeys(added)
    ensures x in added ==> x in KeepLast(rows + added)
    ensures !HasKey(added, KeyOf(x)) && UniqueKeys(rows) ==> (x in KeepLast(rows + added) <==> x in rows)
    ensures HasKey(added, KeyOf(x)) && x !in added ==> x !in KeepLast(rows + added)
  {
    if |rows| == 0 {
      assert rows + added == added;
      KeepLastOfUnique(added);
    } else {
      var all := rows + added;
      assert all[1..] == rows[1..] + added;
      assert rows == [rows[0]] + rows[1..];
      KeepLastIsLast(rows[1..], added, x);
      if UniqueKeys(rows) {
        assert forall i :: 0 <= i < |rows[1..]| ==> KeyOf(rows[1..][i]) != KeyOf(rows[0]);
      }
      if HasKey(added, KeyOf(x)) && KeyOf(rows[0]) == KeyOf(x) {
        var y :| y in added && KeyOf(y) == KeyOf(x);
        assert y in rows[1..] + added;
      }
    }
  }

  lemma {:induction false} KeepLastOfUnique(rows: seq<Row>)
    requires UniqueKeys(rows)
    ensures KeepLast(rows) == rows
  {
    if |rows| != 0 {
      assert forall i :: 0 <= i < |rows[1..]| ==> rows[1..][i] == rows[i + 1];
      KeepLastOfUnique(rows[1..]);
    }
  }

  lemma FrozenRowsUnique(asOf: int, factor: seq<Symbol>, chain: seq<Symbol>, fwdTd: int)
    ensures UniqueKeys(FrozenRows(asOf, factor, chain, fwdTd))
    ensures forall r :: r in FrozenRows(asOf, factor, chain, fwdTd) ==> r.outcome.None? && r.asOf == asOf
  {
  }

  /**
   * Freezing leaves every other (date, sleeve) row as it was and installs the new ones unsettled: freezing a date
   * again discards what it had settled to.
   */
  lemma FreezeReplacesOnlyItsKeys(
      rows: seq<Row>, asOf: int, factor: seq<Symbol>, chain: seq<Symbol>, fwdTd: int, x: Row)
    requires UniqueKeys(rows)
    ensures
      var added := FrozenRows(asOf, factor, chain, fwdTd);
      x in KeepLast(rows + added) <==> x in added || (x in rows && !HasKey(added, KeyOf(x)))
  {
    FrozenRowsUnique(asOf, factor, chain, fwdTd);
    KeepLastIsLast(rows, FrozenRows(asOf, factor, chain, fwdTd), x);
  }
}
