/** Executable labels on a global session clock: outcomes are read at exact sessions, never at a symbol's next row. */
module ExecutableLabels {
  import opened Options
  import opened Calendars
  import opened Ranks

  /** One symbol's row on one session; an unparsable flag is missing. */
  datatype Bar = Bar(
    symbol: string, date: int, close: Num,
    suspended: Option<bool>, specialTreatment: Option<bool>, limitUp: Option<bool>)

  datatype Refusal = BadCalendar | DuplicateRows | DateOutsideCalendar

  datatype Labels = Refused(reason: Refusal) | Built(drawdowns: seq<Option<real>>)

  predicate SameKey(a: Bar, b: Bar) {
    a.symbol == b.symbol && a.date == b.date
  }

  predicate UniqueKeys(frame: seq<Bar>) {
    forall i, j :: 0 <= i < j < |frame| ==> !SameKey(frame[i], frame[j])
  }

  predicate OnCalendar(frame: seq<Bar>, sessions: seq<int>) {
    forall i :: 0 <= i < |frame| ==> frame[i].date in sessions
  }

  /** Every execution-critical flag is known to be false. */
  predicate ExplicitlyClear(b: Bar) {
    b.suspended == Some(false) && b.specialTreatment == Some(false) && b.limitUp == Some(false)
  }

  // ----- exact lookups

  /** The row with this exact key. */
  function Lookup(frame: seq<Bar>, symbol: string, date: int): (r: Option<Bar>)
    ensures r.Some? ==> r.value in frame && r.value.symbol == symbol && r.value.date == date
    ensures r.None? ==> forall i :: 0 <= i < |frame| ==> frame[i].symbol != symbol || frame[i].date != date
  {
    if |frame| == 0 then None
    else if frame[0].symbol == symbol && frame[0].date == date then Some(frame[0])
    else Lookup(frame[1..], symbol, date)
  }

  lemma LookupFinds(frame: seq<Bar>, b: Bar)
    requires UniqueKeys(frame) && b in frame
    ensures Lookup(frame, b.symbol, b.date) == Some(b)
  {
    var i :| 0 <= i < |frame| && frame[i] == b;
    var found := Lookup(frame, b.symbol, b.date);
    if found.Some? {
      var j :| 0 <= j < |frame| && frame[j] == found.value;
      assert SameKey(frame[i], frame[j]) && SameKey(frame[j], frame[i]);
    }
  }

  /** The session a number of sessions later, if the calendar reaches it. */
  function MappedDate(sessions: seq<int>, date: int, offset: int): Option<int>
    requires date in sessions
  {
    var target := IndexOf(sessions, date) + offset;
    if 0 <= target < |sessions| then Some(sessions[target]) else None
  }

  /** The symbol's own row on the mapped session. */
  function BarAt(frame: seq<Bar>, sessions: seq<int>, b: Bar, offset: int): (r: Option<Bar>)
    requires b.date in sessions
  {
    var mapped := MappedDate(sessions, b.date, offset);
    if mapped.None? then None else Lookup(frame, b.symbol, mapped.value)
  }

  predicate Positive(price: Num) {
    price.Fin? && price.x > 0.0
  }

  predicate PositiveClose(b: Bar) {
    Positive(b.close)
  }

  predicate PositiveBar(found: Option<Bar>) {
    found.Some? && Positive(found.value.close)
  }

  // ----- the holding-period minimum

  /** numpy's minimum of two cells that are not missing. */
  function Smaller(a: Num, b: Num): Num {
    if Less(b, a) then b else a
  }

  /** The looked-up close, with infinity in place of a missing one. */
  function FilledClose(found: Option<Bar>): Num {
    if found.None? || found.value.close == NaN then PosInf else found.value.close
  }

  function PathMin(frame: seq<Bar>, sessions: seq<int>, b: Bar, holding: nat): Num
    requires b.date in sessions
  {
    if holding == 0 then PosInf
    else Smaller(PathMin(frame, sessions, b, holding - 1), FilledClose(BarAt(frame, sessions, b, holding)))
  }

  predicate PathObserved(frame: seq<Bar>, sessions: seq<int>, b: Bar, holding: int)
    requires b.date in sessions
  {
    forall k :: 1 <= k <= holding ==> PositiveBar(BarAt(frame, sessions, b, k))
  }

  /** On an observed path the running minimum is a close of the path and no close of the path is lower. */
  lemma {:induction false} PathMinIsLeast(frame: seq<Bar>, sessions: seq<int>, b: Bar, holding: nat)
    requires b.date in sessions && holding >= 1 && PathObserved(frame, sessions, b, holding)
    ensures Positive(PathMin(frame, sessions, b, holding))
    ensures
      exists k :: 1 <= k <= holding
        && BarAt(frame, sessions, b, k).value.close == PathMin(frame, sessions, b, holding)
    ensures forall k :: 1 <= k <= holding ==>
      PathMin(frame, sessions, b, holding).x <= BarAt(frame, sessions, b, k).value.close.x
  {
    hide BarAt;
    assert PositiveBar(BarAt(frame, sessions, b, holding));
    if holding == 1 {
      assert PathMin(frame, sessions, b, 0) == PosInf;
      assert BarAt(frame, sessions, b, 1).value.close == PathMin(frame, sessions, b, 1);
    } else {
      PathMinIsLeast(frame, sessions, b, holding - 1);
      var k :| 1 <= k <= holding - 1
        && BarAt(frame, sessions, b, k).value.close == PathMin(frame, sessions, b, holding - 1);
      var same := PathMin(frame, sessions, b, holding) == PathMin(frame, sessions, b, holding - 1);
      var low := if same then k else holding;
      assert BarAt(frame, sessions, b, low).value.close == PathMin(frame, sessions, b, holding);
    }
  }

  /** One offset's column of rows. */
  function BarColumn(frame: seq<Bar>, sessions: seq<int>, offset: int): (r: seq<Option<Bar>>)
    requires OnCalendar(frame, sessions)
    ensures |r| == |frame|
    ensures forall i :: 0 <= i < |frame| ==> r[i] == BarAt(frame, sessions, frame[i], offset)
  {
    seq(|frame|, i requires 0 <= i < |frame| => BarAt(frame, sessions, frame[i], offset))
  }

  /** The loop over offsets: a running minimum column and a running validity column. */
  method HoldingPeriodMinClose(frame: seq<Bar>, sessions: seq<int>, holding: nat)
    returns (minimum: seq<Num>, allObserved: seq<bool>)
    requires OnCalendar(frame, sessions)
    ensures |minimum| == |allObserved| == |frame|
    ensures forall i :: 0 <= i < |frame| ==> allObserved[i] == PathObserved(frame, sessions, frame[i], holding)
    ensures forall i :: 0 <= i < |frame| ==> minimum[i] == PathMin(frame, sessions, frame[i], holding)
  {
    hide BarAt;
    minimum := seq(|frame|, i => PosInf);
    allObserved := seq(|frame|, i => true);
    var done := 0;
    while done < holding
      invariant 0 <= done <= holding && |minimum| == |allObserved| == |frame|
      invariant forall i :: 0 <= i < |frame| ==> allObserved[i] == PathObserved(frame, sessions, frame[i], done)
      invariant forall i :: 0 <= i < |frame| ==> minimum[i] == PathMin(frame, sessions, frame[i], done)
    {
      done := done + 1;
      var looked := BarColumn(frame, sessions, done);
      forall i | 0 <= i < |frame|
        ensures PathObserved(frame, sessions, frame[i], done)
          == (PathObserved(frame, sessions, frame[i], done - 1) && PositiveBar(looked[i]))
        ensures PathMin(frame, sessions, frame[i], done)
          == Smaller(PathMin(frame, sessions, frame[i], done - 1), FilledClose(looked[i]))
      {
        PathStep(frame, sessions, frame[i], done);
      }
      allObserved := seq(|frame|, i requires 0 <= i < |frame| => allObserved[i] && PositiveBar(looked[i]));
      minimum := seq(|frame|, i requires 0 <= i < |frame| => Smaller(minimum[i], FilledClose(looked[i])));
    }
  }

  lemma PathStep(frame: seq<Bar>, sessions: seq<int>, b: Bar, holding: nat)
    requires b.date in sessions && holding >= 1
    ensures PathObserved(frame, sessions, b, holding)
      == (PathObserved(frame, sessions, b, holding - 1) && PositiveBar(BarAt(frame, sessions, b, holding)))
    ensures PathMin(frame, sessions, b, holding)
      == Smaller(PathMin(frame, sessions, b, holding - 1), FilledClose(BarAt(frame, sessions, b, holding)))
  {
  }

  // ----- the labels

  const HOLDING := 5

  predicate SignalTradable(b: Bar) {
    ExplicitlyClear(b) && Less(Fin(0.0), b.close)
  }

  predicate EntryTradable(entry: Option<Bar>) {
    entry.Some? && ExplicitlyClear(entry.value)
  }

  predicate ExecutionTradable(frame: seq<Bar>, sessions: seq<int>, b: Bar)
    requires b.date in sessions
  {
    SignalTradable(b) && EntryTradable(BarAt(frame, sessions, b, 1))
  }

  function Drawdown(frame: seq<Bar>, sessions: seq<int>, b: Bar): Option<real>
    requires b.date in sessions
  {
    if ExecutionTradable(frame, sessions, b) && PathObserved(frame, sessions, b, HOLDING) then
      PathMinIsLeast(frame, sessions, b, HOLDING);
      assert PositiveBar(BarAt(frame, sessions, b, 1));
      Some(PathMin(frame, sessions, b, HOLDING).x / BarAt(frame, sessions, b, 1).value.close.x - 1.0)
    else None
  }

  /** The h-session return: entered at T+1, left at T+1+h, both at exact sessions. */
  function ForwardReturn(frame: seq<Bar>, sessions: seq<int>, b: Bar, h: nat): Option<real>
    requires b.date in sessions
  {
    var entry, exit := BarAt(frame, sessions, b, 1), BarAt(frame, sessions, b, 1 + h);
    if ExecutionTradable(frame, sessions, b) && PositiveBar(entry) && PositiveBar(exit) then
      Some(exit.value.close.x / entry.value.close.x - 1.0)
    else None
  }

  /** The drawdown column, or the reason the source raises. */
  method BuildDrawdowns(frame: seq<Bar>, sessions: seq<int>) returns (labels: Labels)
    ensures labels == Refused(BadCalendar) <==>
      sessions == [] || exists i, j :: 0 <= i < j < |sessions| && sessions[i] >= sessions[j]
    ensures labels == Refused(DuplicateRows) ==>
      exists i, j :: 0 <= i < j < |frame| && frame[i].symbol == frame[j].symbol && frame[i].date == frame[j].date
    ensures labels == Refused(DateOutsideCalendar) ==> exists b :: b in frame && b.date !in sessions
    ensures labels.Built? ==> forall b :: b in frame ==> b.date in sessions
    ensures labels.Built? || labels == Refused(DateOutsideCalendar) ==>
      forall i, j :: 0 <= i < j < |frame| ==> frame[i].symbol != frame[j].symbol || frame[i].date != frame[j].date
    ensures labels.Built? ==>
      && |labels.drawdowns| == |frame|
      && (forall i :: 0 <= i < |frame| ==> labels.drawdowns[i] == Drawdown(frame, sessions, frame[i]))
  {
    hide BarAt, UniqueKeys, StrictlyIncreasing, OnCalendar;
    CalendarIsBad(sessions);
    KeysAreUnique(frame);
    DatesAreSessions(frame, sessions);
    if sessions == [] || !StrictlyIncreasing(sessions) {
      return Refused(BadCalendar);
    }
    if !UniqueKeys(frame) {
      return Refused(DuplicateRows);
    }
    if !OnCalendar(frame, sessions) {
      return Refused(DateOutsideCalendar);
    }
    var futureMin, pathObserved := HoldingPeriodMinClose(frame, sessions, HOLDING);
    var entries := BarColumn(frame, sessions, 1);
    var drawdowns: seq<Option<real>> := [];
    for i := 0 to |frame|
      invariant |drawdowns| == i
      invariant forall k :: 0 <= k < i ==> drawdowns[k] == Drawdown(frame, sessions, frame[k])
    {
      if SignalTradable(frame[i]) && EntryTradable(entries[i]) && pathObserved[i] && PositiveBar(entries[i]) {
        PathMinIsLeast(frame, sessions, frame[i], HOLDING);
        drawdowns := drawdowns + [Some(futureMin[i].x / entries[i].value.close.x - 1.0)];
      } else {
        drawdowns := drawdowns + [None];
      }
    }
    labels := Built(drawdowns);
  }

  lemma CalendarIsBad(sessions: seq<int>)
    ensures !StrictlyIncreasing(sessions) <==> exists i, j :: 0 <= i < j < |sessions| && sessions[i] >= sessions[j]
  {
    if !StrictlyIncreasing(sessions) {
      var i, j :| 0 <= i < j < |sessions| && !(sessions[i] < sessions[j]);
    }
  }

  lemma KeysAreUnique(frame: seq<Bar>)
    ensures UniqueKeys(frame) <==>
      forall i, j :: 0 <= i < j < |frame| ==> frame[i].symbol != frame[j].symbol || frame[i].date != frame[j].date
  {
  }

  lemma DatesAreSessions(frame: seq<Bar>, sessions: seq<int>)
    ensures OnCalendar(frame, sessions) <==> forall b :: b in frame ==> b.date in sessions
  {
    if forall b :: b in frame ==> b.date in sessions {
      forall i | 0 <= i < |frame|
        ensures frame[i].date in sessions
      {
        assert frame[i] in frame;
      }
    }
  }

  // ----- what a defined drawdown means

  /**
   * The frame itself holds the symbol's row on the session k after the one at position p, with property given by
   * pred.
   */
  ghost predicate HoldsBar(frame: seq<Bar>, sessions: seq<int>, symbol: string, target: int, ok: Bar -> bool) {
    0 <= target < |sessions| && exists b :: b in frame && b.symbol == symbol && b.date == sessions[target] && ok(b)
  }

  lemma EntryIsClear(frame: seq<Bar>, sessions: seq<int>, symbol: string, target: nat)
    ensures HoldsBar(frame, sessions, symbol, target, ExplicitlyClear) <==>
      target < |sessions| &&
      exists e :: e in frame && e.symbol == symbol && e.date == sessions[target] &&
        e.suspended == Some(false) && e.specialTreatment == Some(false) && e.limitUp == Some(false)
  {
  }

  lemma BarAtIff(frame: seq<Bar>, sessions: seq<int>, b: Bar, p: nat, k: nat, ok: Bar -> bool)
    requires StrictlyIncreasing(sessions) && UniqueKeys(frame)
    requires p < |sessions| && b.date == sessions[p]
    ensures (BarAt(frame, sessions, b, k).Some? && ok(BarAt(frame, sessions, b, k).value))
      <==> HoldsBar(frame, sessions, b.symbol, p + k, ok)
  {
    assert IndexOf(sessions, b.date) == p;
    if HoldsBar(frame, sessions, b.symbol, p + k, ok) {
      var held :| held in frame && held.symbol == b.symbol && held.date == sessions[p + k] && ok(held);
      LookupFinds(frame, held);
    }
  }

  /**
   * The drawdown of the row at session p is defined if and only if the signal and the entry rows are explicitly clear,
   * the signal has a positive close, and the frame holds that symbol's own positive close on each of the sessions
   * p+1 to p+5. No other row can stand in for a missing one.
   */
  lemma DrawdownDefinedIff(frame: seq<Bar>, sessions: seq<int>, b: Bar, p: nat)
    requires StrictlyIncreasing(sessions) && UniqueKeys(frame)
    requires p < |sessions| && b.date == sessions[p]
    ensures Drawdown(frame, sessions, b).Some? <==>
      && b.suspended == Some(false) && b.specialTreatment == Some(false) && b.limitUp == Some(false)
      && (b.close == PosInf || Positive(b.close))
      && p + 1 < |sessions|
      && (exists e :: e in frame && e.symbol == b.symbol && e.date == sessions[p + 1] &&
            e.suspended == Some(false) && e.specialTreatment == Some(false) && e.limitUp == Some(false))
      && (forall target :: p + 1 <= target <= p + 5 ==>
        HoldsBar(frame, sessions, b.symbol, target, PositiveClose))
  {
    EntryIsClear(frame, sessions, b.symbol, p + 1);
    hide HoldsBar, BarAt, UniqueKeys, StrictlyIncreasing;
    BarAtIff(frame, sessions, b, p, 1, ExplicitlyClear);
    forall k | 1 <= k <= 5
      ensures PositiveBar(BarAt(frame, sessions, b, k)) <==> HoldsBar(frame, sessions, b.symbol, p + k, PositiveClose)
    {
      BarAtIff(frame, sessions, b, p, k, PositiveClose);
    }
    if PathObserved(frame, sessions, b, HOLDING) {
      forall target | p + 1 <= target <= p + 5
        ensures HoldsBar(frame, sessions, b.symbol, target, PositiveClose)
      {
        assert PositiveBar(BarAt(frame, sessions, b, target - p));
      }
    }
    if forall target :: p + 1 <= target <= p + 5 ==> HoldsBar(frame, sessions, b.symbol, target, PositiveClose) {
      forall k | 1 <= k <= 5
        ensures PositiveBar(BarAt(frame, sessions, b, k))
      {
        assert HoldsBar(frame, sessions, b.symbol, p + k, PositiveClose);
      }
    }
  }

  /** Division by a positive price keeps the order. */
  lemma RatioOrder(x: real, y: real, entry: real)
    requires x <= y && entry > 0.0
    ensures x / entry <= y / entry
    ensures x > 0.0 ==> x / entry > 0.0
  {
  }

  /** It lies above -1 and at or below 0, it is reached by one of the five closes, and none of them falls below it. */
  lemma DrawdownIsWorstClose(frame: seq<Bar>, sessions: seq<int>, b: Bar)
    requires b.date in sessions && Drawdown(frame, sessions, b).Some?
    ensures forall k :: 1 <= k <= 5 ==> PositiveBar(BarAt(frame, sessions, b, k))
    ensures
      var entry := BarAt(frame, sessions, b, 1).value.close.x;
      var d := Drawdown(frame, sessions, b).value;
      && -1.0 < d <= 0.0
      && (exists k :: 1 <= k <= 5 && d == BarAt(frame, sessions, b, k).value.close.x / entry - 1.0)
      && (forall k :: 1 <= k <= 5 ==> d <= BarAt(frame, sessions, b, k).value.close.x / entry - 1.0)
  {
    hide BarAt, PathMin, ExecutionTradable;
    PathMinIsLeast(frame, sessions, b, HOLDING);
    assert PositiveBar(BarAt(frame, sessions, b, 1));
    var entry := BarAt(frame, sessions, b, 1).value.close.x;
    var low := PathMin(frame, sessions, b, HOLDING).x;
    forall k | 1 <= k <= 5
      ensures PositiveBar(BarAt(frame, sessions, b, k))
      ensures low / entry <= BarAt(frame, sessions, b, k).value.close.x / entry
    {
      assert PositiveBar(BarAt(frame, sessions, b, k));
      RatioOrder(low, BarAt(frame, sessions, b, k).value.close.x, entry);
    }
    RatioOrder(low, low, entry);
    assert entry / entry == 1.0;
  }

  /** Every return whose exit lies inside the window is at least the drawdown; these are the horizons 0 to 4. */
  lemma ReturnsStayAboveDrawdown(frame: seq<Bar>, sessions: seq<int>, b: Bar, h: nat)
    requires b.date in sessions && h <= 4 && Drawdown(frame, sessions, b).Some?
    ensures ForwardReturn(frame, sessions, b, h).Some?
    ensures ForwardReturn(frame, sessions, b, h).value >= Drawdown(frame, sessions, b).value
  {
    hide BarAt, PathMin;
    DrawdownIsWorstClose(frame, sessions, b);
    assert PositiveBar(BarAt(frame, sessions, b, 1 + h));
  }

  lemma StrictRatioOrder(x: real, y: real, entry: real)
    requires x < y && entry > 0.0
    ensures x / entry < y / entry
  {
  }

  /**
   * The five-session return is defined exactly when the symbol has its own positive close on T+6, and is then at least
   * the drawdown exactly when some close of T+1 to T+5 is no higher than that one.
   */
  lemma FiveDayReturnAboveDrawdownIff(frame: seq<Bar>, sessions: seq<int>, b: Bar)
    requires b.date in sessions && Drawdown(frame, sessions, b).Some?
    ensures ForwardReturn(frame, sessions, b, 5).Some? <==> PositiveBar(BarAt(frame, sessions, b, 6))
    ensures forall k :: 1 <= k <= 5 ==> PositiveBar(BarAt(frame, sessions, b, k))
    ensures PositiveBar(BarAt(frame, sessions, b, 6)) ==>
      (ForwardReturn(frame, sessions, b, 5).value >= Drawdown(frame, sessions, b).value <==>
        exists k :: 1 <= k <= 5 &&
          BarAt(frame, sessions, b, k).value.close.x <= BarAt(frame, sessions, b, 6).value.close.x)
  {
    hide BarAt, PathMin, Drawdown;
    DrawdownIsWorstClose(frame, sessions, b);
    DrawdownTradable(frame, sessions, b);
    assert PositiveBar(BarAt(frame, sessions, b, 1));
    if PositiveBar(BarAt(frame, sessions, b, 6)) {
      var entry := BarAt(frame, sessions, b, 1).value.close.x;
      var exit := BarAt(frame, sessions, b, 6).value.close.x;
      var d := Drawdown(frame, sessions, b).value;
      var low :| 1 <= low <= 5 && d == BarAt(frame, sessions, b, low).value.close.x / entry - 1.0;
      if BarAt(frame, sessions, b, low).value.close.x <= exit {
        RatioOrder(BarAt(frame, sessions, b, low).value.close.x, exit, entry);
      } else {
        StrictRatioOrder(exit, BarAt(frame, sessions, b, low).value.close.x, entry);
        forall k | 1 <= k <= 5
          ensures BarAt(frame, sessions, b, k).value.close.x > exit
        {
          if BarAt(frame, sessions, b, k).value.close.x <= exit {
            RatioOrder(BarAt(frame, sessions, b, k).value.close.x, exit, entry);
          }
        }
      }
    }
  }

  lemma DrawdownTradable(frame: seq<Bar>, sessions: seq<int>, b: Bar)
    requires b.date in sessions && Drawdown(frame, sessions, b).Some?
    ensures ExecutionTradable(frame, sessions, b)
  {
  }

  /**
   * The five-session return leaves at T+6, one session after the drawdown's window, so it can fall below the drawdown
   * of the same row.
   */
  lemma FiveDayReturnCanFallBelowDrawdown()
    returns (frame: seq<Bar>, sessions: seq<int>, b: Bar)
    ensures StrictlyIncreasing(sessions) && UniqueKeys(frame) && b.date in sessions && b in frame
    ensures Drawdown(frame, sessions, b) == Some(0.0)
    ensures ForwardReturn(frame, sessions, b, 5) == Some(-0.5)
  {
    hide BarAt, PathMin;
    sessions := [0, 1, 2, 3, 4, 5, 6];
    frame := seq(7, i => Bar("A", i, Fin(if i == 6 then 5.0 else 10.0), Some(false), Some(false), Some(false)));
    b := frame[0];
    assert b in frame;
    assert sessions[0] == 0;
    forall k | 1 <= k <= 6
      ensures BarAt(frame, sessions, b, k) == Some(frame[k])
    {
      WitnessBar(frame, sessions, k);
    }
    FlatPath(frame, sessions, b, 10.0);
    assert PositiveBar(BarAt(frame, sessions, b, 6));
  }

  /** Five equal closes after a clear signal and a clear entry give a drawdown of zero. */
  lemma FlatPath(frame: seq<Bar>, sessions: seq<int>, b: Bar, price: real)
    requires b.date in sessions && price > 0.0 && SignalTradable(b)
    requires forall k :: 1 <= k <= 5 ==>
      BarAt(frame, sessions, b, k).Some? && BarAt(frame, sessions, b, k).value.close == Fin(price)
    requires ExplicitlyClear(BarAt(frame, sessions, b, 1).value)
    ensures Drawdown(frame, sessions, b) == Some(0.0)
  {
    hide BarAt, PathMin;
    PathMinIsLeast(frame, sessions, b, HOLDING);
    assert PositiveBar(BarAt(frame, sessions, b, 1));
    assert price / price == 1.0;
  }

  lemma WitnessBar(frame: seq<Bar>, sessions: seq<int>, k: nat)
    requires sessions == [0, 1, 2, 3, 4, 5, 6] && |frame| == 7 && 1 <= k <= 6
    requires forall i :: 0 <= i < 7 ==> frame[i].symbol == "A" && frame[i].date == i
    ensures BarAt(frame, sessions, frame[0], k) == Some(frame[k])
  {
    assert sessions[0] == 0 && sessions[k] == k;
    LookupFinds(frame, frame[k]);
  }

  // ----- what a drawdown depends on

  /** The rows of one symbol on the sessions from p+1 to p+5 are the same in both frames. */
  ghost predicate SamePath(f: seq<Bar>, g: seq<Bar>, sessions: seq<int>, b: Bar)
    requires b.date in sessions
  {
    forall k :: 1 <= k <= 5 ==> BarAt(f, sessions, b, k) == BarAt(g, sessions, b, k)
  }

  lemma {:induction false} SamePathSameMin(f: seq<Bar>, g: seq<Bar>, sessions: seq<int>, b: Bar, holding: nat)
    requires b.date in sessions && SamePath(f, g, sessions, b) && holding <= 5
    ensures PathMin(f, sessions, b, holding) == PathMin(g, sessions, b, holding)
  {
    if holding > 0 {
      SamePathSameMin(f, g, sessions, b, holding - 1);
    }
  }

  /** Rows of other symbols, and of this symbol on any session outside p+1 to p+5, cannot change the drawdown. */
  lemma DrawdownIsLocal(f: seq<Bar>, g: seq<Bar>, sessions: seq<int>, b: Bar, p: nat)
    requires StrictlyIncreasing(sessions) && UniqueKeys(f) && UniqueKeys(g)
    requires p < |sessions| && b.date == sessions[p]
    requires forall x: Bar, t: int ::
      x.symbol == b.symbol && p + 1 <= t <= p + 5 && t < |sessions| && x.date == sessions[t] ==>
        (x in f <==> x in g)
    ensures Drawdown(f, sessions, b) == Drawdown(g, sessions, b)
  {
    assert IndexOf(sessions, b.date) == p;
    forall k | 1 <= k <= 5
      ensures BarAt(f, sessions, b, k) == BarAt(g, sessions, b, k)
    {
      if p + k < |sessions| {
        var t := p + k;
        SameRowsSameLookup(f, g, b.symbol, sessions[t]);
      }
    }
    SamePathSameDrawdown(f, g, sessions, b);
  }

  lemma SamePathSameDrawdown(f: seq<Bar>, g: seq<Bar>, sessions: seq<int>, b: Bar)
    requires b.date in sessions && SamePath(f, g, sessions, b)
    ensures Drawdown(f, sessions, b) == Drawdown(g, sessions, b)
  {
    hide BarAt, PathMin;
    SamePathSameMin(f, g, sessions, b, HOLDING);
    assert BarAt(f, sessions, b, 1) == BarAt(g, sessions, b, 1);
    assert PathObserved(f, sessions, b, HOLDING) == PathObserved(g, sessions, b, HOLDING);
  }

  lemma SameRowsSameLookup(f: seq<Bar>, g: seq<Bar>, symbol: string, date: int)
    requires UniqueKeys(f) && UniqueKeys(g)
    requires forall x: Bar :: x.symbol == symbol && x.date == date ==> (x in f <==> x in g)
    ensures Lookup(f, symbol, date) == Lookup(g, symbol, date)
  {
    var inF, inG := Lookup(f, symbol, date), Lookup(g, symbol, date);
    if inF.Some? {
      LookupFinds(g, inF.value);
    } else if inG.Some? {
      LookupFinds(f, inG.value);
    }
  }

  /**
   * Labels are final: when the calendar grows at its end and rows are added, a defined drawdown keeps its value. Only
   * undefined ones can change.
   */
  lemma DrawdownIsFinal(f: seq<Bar>, g: seq<Bar>, sessions: seq<int>, later: seq<int>, b: Bar)
    requires StrictlyIncreasing(sessions + later) && UniqueKeys(f) && UniqueKeys(g)
    requires forall x :: x in f ==> x in g
    requires b.date in sessions && Drawdown(f, sessions, b).Some?
    ensures b.date in sessions + later && Drawdown(g, sessions + later, b) == Drawdown(f, sessions, b)
  {
    DrawdownIsWorstClose(f, sessions, b);
    forall k | 1 <= k <= 5
      ensures BarAt(g, sessions + later, b, k) == BarAt(f, sessions, b, k)
    {
      assert PositiveBar(BarAt(f, sessions, b, k));
      SamePositionLater(sessions, later, b.date);
      LookupFinds(g, BarAt(f, sessions, b, k).value);
    }
    SamePathLater(f, g, sessions, sessions + later, b, HOLDING);
    assert forall k :: 1 <= k <= HOLDING ==> PositiveBar(BarAt(g, sessions + later, b, k));
    assert BarAt(g, sessions + later, b, 1) == BarAt(f, sessions, b, 1);
  }

  lemma {:induction false} SamePositionLater(sessions: seq<int>, later: seq<int>, date: int)
    requires date in sessions
    ensures date in sessions + later && IndexOf(sessions + later, date) == IndexOf(sessions, date)
  {
    assert (sessions + later)[0] == sessions[0];
    if sessions[0] != date {
      SamePositionLater(sessions[1..], later, date);
      assert (sessions + later)[1..] == sessions[1..] + later;
    }
  }

  lemma {:induction false} SamePathLater(
      f: seq<Bar>, g: seq<Bar>, sessions: seq<int>, longer: seq<int>, b: Bar, holding: nat)
    requires b.date in sessions && b.date in longer
    requires forall k :: 1 <= k <= holding ==> BarAt(f, sessions, b, k) == BarAt(g, longer, b, k)
    ensures PathMin(f, sessions, b, holding) == PathMin(g, longer, b, holding)
  {
    if holding > 0 {
      SamePathLater(f, g, sessions, longer, b, holding - 1);
      assert BarAt(f, sessions, b, holding) == BarAt(g, longer, b, holding);
    }
  }
}
