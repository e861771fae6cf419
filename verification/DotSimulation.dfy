/** One simulated T+1 day on a carried position: sell high, buy back, restore the position at the close. */
module DotSimulation {
  import opened Options
  import opened Vectors

  const HELD := 10000.0
  const MIN_BARS := 30
  const FIRST_BAR := 20

  datatype Action = SellHigh | BuyBack | Hold

  datatype Decision = Decision(action: Action, price: real, qty: real)

  /** What the decision engine is shown: bar, whole sellable shares, whole shares bought today, cash. */
  datatype View = View(bar: nat, sellable: int, todayBuy: int, cash: real)

  /** Any decision engine; it may also decline to look at a bar. */
  type Engine = View -> Option<Decision>

  datatype Costs = Costs(buy: real, sell: real) {
    ghost predicate Valid() {
      0.0 <= buy && 0.0 <= sell <= 1.0
    }
  }

  datatype Trade = Trade(sell: bool, qty: real, price: real)

  // ----- the day's trades as a list

  function Sold(t: seq<Trade>): real {
    if |t| == 0 then 0.0 else Sold(t[..|t| - 1]) + if t[|t| - 1].sell then t[|t| - 1].qty else 0.0
  }

  function Bought(t: seq<Trade>): real {
    if |t| == 0 then 0.0 else Bought(t[..|t| - 1]) + if t[|t| - 1].sell then 0.0 else t[|t| - 1].qty
  }

  /** Money received for a sale, or paid for a purchase. */
  function Flow(x: Trade, c: Costs): real {
    if x.sell then Times(Times(x.qty, x.price), 1.0 - c.sell) else -Times(Times(x.qty, x.price), 1.0 + c.buy)
  }

  function Cash(t: seq<Trade>, c: Costs): real {
    if |t| == 0 then 0.0 else Cash(t[..|t| - 1], c) + Flow(t[|t| - 1], c)
  }

  /** Gain against the close before fees: q (p - close) on sales, minus the same on purchases. */
  function Edge(t: seq<Trade>, close: real): real {
    if |t| == 0 then 0.0
    else
      var x := t[|t| - 1];
      Edge(t[..|t| - 1], close) + if x.sell then Times(x.qty, x.price - close) else -Times(x.qty, x.price - close)
  }

  function Fees(t: seq<Trade>, c: Costs): real {
    if |t| == 0 then 0.0
    else
      var x := t[|t| - 1];
      Fees(t[..|t| - 1], c) + Times(Times(x.qty, x.price), if x.sell then c.sell else c.buy)
  }

  function Legs(t: seq<Trade>, sell: bool): nat {
    if |t| == 0 then 0 else Legs(t[..|t| - 1], sell) + if t[|t| - 1].sell == sell then 1 else 0
  }

  /** The trade passes the simulator's guard after the earlier ones. */
  predicate Allowed(t: seq<Trade>, x: Trade, c: Costs) {
    && x.qty > 0.0 && x.price > 0.0
    && if x.sell then Sellable(t) >= x.qty else Cash(t, c) >= Times(Times(x.qty, x.price), 1.0 + c.buy)
  }

  /** Only carried shares not yet sold may be sold; what was bought today may not. */
  function Sellable(t: seq<Trade>): real {
    if HELD - Sold(t) > 0.0 then HELD - Sold(t) else 0.0
  }

  ghost predicate Legal(t: seq<Trade>, c: Costs) {
    forall k :: 0 <= k < |t| ==> Allowed(t[..k], t[k], c)
  }

  /** The trade a decision asks for. */
  function Asked(d: Decision): Option<Trade> {
    match d.action
    case SellHigh => Some(Trade(true, d.qty, d.price))
    case BuyBack => Some(Trade(false, d.qty, d.price))
    case Hold => None
  }

  function Seen(t: seq<Trade>, bar: nat, c: Costs): View {
    View(bar, Sellable(t).Floor, Bought(t).Floor, Cash(t, c))
  }

  /** The trades of the rest of the day, from this bar on. */
  function DayTrades(engine: Engine, bars: nat, cadence: int, bar: nat, t: seq<Trade>, c: Costs): seq<Trade>
    decreases if bar < bars then bars - bar else 0
  {
    if bar >= bars then t
    else
      var step := if cadence > 1 then cadence else 1;
      var d := engine(Seen(t, bar, c));
      var x := if d.Some? then Asked(d.value) else None;
      DayTrades(engine, bars, cadence, bar + step, if x.Some? && Allowed(t, x.value, c) then t + [x.value] else t, c)
  }

  /** Cash once the position is back at its carried size, bought or sold at the close. */
  function Restored(t: seq<Trade>, c: Costs, close: real): real {
    var net := HELD - Sold(t) + Bought(t);
    if net < HELD then Cash(t, c) - Times(Times(HELD - net, close), 1.0 + c.buy)
    else if net > HELD then Cash(t, c) + Times(Times(net - HELD, close), 1.0 - c.sell)
    else Cash(t, c)
  }

  /** Cash as a share of the carried position's value at the previous close. */
  function Uplift(cash: real, preClose: real): real
    requires preClose > 0.0
  {
    cash / (HELD * preClose)
  }

  datatype Day = Day(executed: bool, uplift: real, soldLegs: nat, boughtLegs: nat)

  /** The loop over the bars with its running totals. */
  method TradeDay(engine: Engine, bars: nat, cadence: int, c: Costs)
    returns (soldTotal: real, boughtTotal: real, cash: real, soldLegs: nat, boughtLegs: nat)
    ensures
      var t := DayTrades(engine, bars, cadence, FIRST_BAR, [], c);
      && soldTotal == Sold(t) && boughtTotal == Bought(t) && cash == Cash(t, c)
      && soldLegs == Legs(t, true) && boughtLegs == Legs(t, false)
  {
    hide Times, Sold, Bought, Cash, Legs, DayTrades;
    NoTrades(c);
    soldTotal, boughtTotal, cash, soldLegs, boughtLegs := 0.0, 0.0, 0.0, 0, 0;
    ghost var t: seq<Trade> := [];
    var i := FIRST_BAR;
    while i < bars
      invariant 0 <= i
      invariant soldTotal == Sold(t) && boughtTotal == Bought(t) && cash == Cash(t, c)
      invariant soldLegs == Legs(t, true) && boughtLegs == Legs(t, false)
      invariant DayTrades(engine, bars, cadence, i, t, c) == DayTrades(engine, bars, cadence, FIRST_BAR, [], c)
      decreases bars - i
    {
      DayStep(engine, bars, cadence, i, t, c);
      var sellable := if HELD - soldTotal > 0.0 then HELD - soldTotal else 0.0;
      var d := engine(View(i, sellable.Floor, boughtTotal.Floor, cash));
      if d.Some? {
        var px, qty := d.value.price, d.value.qty;
        if d.value.action == SellHigh && qty > 0.0 && px > 0.0 && sellable >= qty {
          Appended(t, Trade(true, qty, px), c);
          t := t + [Trade(true, qty, px)];
          soldTotal := soldTotal + qty;
          cash := cash + Times(Times(qty, px), 1.0 - c.sell);
          soldLegs := soldLegs + 1;
        } else if d.value.action == BuyBack && qty > 0.0 && px > 0.0 && cash >= Times(Times(qty, px), 1.0 + c.buy) {
          Appended(t, Trade(false, qty, px), c);
          t := t + [Trade(false, qty, px)];
          boughtTotal := boughtTotal + qty;
          cash := cash - Times(Times(qty, px), 1.0 + c.buy);
          boughtLegs := boughtLegs + 1;
        }
      }
      i := i + if cadence > 1 then cadence else 1;
    }
    DayStep(engine, bars, cadence, i, t, c);
  }

  /** The simulated day: too few bars or no previous close gives nothing; otherwise trade, restore, and report. */
  method SimulateDay(
      engine: Engine, bars: nat, cadence: int, preClose: real, close: real, c: Costs)
    returns (r: Option<Day>)
    ensures r.None? <==> bars < 30 || preClose <= 0.0
    ensures r.Some? ==>
      var t := DayTrades(engine, bars, cadence, 20, [], c);
      && r.value.soldLegs == Legs(t, true)
      && (r.value.executed <==> Legs(t, true) > 0)
      && (r.value.executed ==>
            r.value.uplift == Uplift(Restored(t, c, close), preClose) && r.value.boughtLegs == Legs(t, false))
      && (!r.value.executed ==> r.value.uplift == 0.0 && r.value.boughtLegs == 0)
    ensures r.Some? && r.value.executed ==>
      var t := DayTrades(engine, bars, cadence, 20, [], c);
      && Times(r.value.uplift, Times(10000.0, preClose)) == Edge(t, close) - Fees(t, c) - RestoreFee(t, c, close)
      && (r.value.uplift > 0.0 <==> Restored(t, c, close) > 0.0)
  {
    hide Times, Sold, Bought, Cash, Legs, DayTrades, Uplift, Edge, Fees, RestoreFee;
    if bars < MIN_BARS || preClose <= 0.0 {
      return None;
    }
    var soldTotal, boughtTotal, cash, soldLegs, boughtLegs := TradeDay(engine, bars, cadence, c);
    if soldLegs == 0 {
      return Some(Day(false, 0.0, 0, 0));
    }
    var net := HELD - soldTotal + boughtTotal;
    if net < HELD {
      cash := cash - Times(Times(HELD - net, close), 1.0 + c.buy);
    } else if net > HELD {
      cash := cash + Times(Times(net - HELD, close), 1.0 - c.sell);
    }
    UpliftMeans(cash, preClose);
    RestoredIsEdgeMinusFees(DayTrades(engine, bars, cadence, FIRST_BAR, [], c), c, close);
    r := Some(Day(true, Uplift(cash, preClose), soldLegs, boughtLegs));
  }

  /** The uplift is the cash per unit of the 10000 carried shares' value, so it has the cash's sign. */
  lemma UpliftMeans(cash: real, preClose: real)
    requires preClose > 0.0
    ensures Times(Uplift(cash, preClose), Times(10000.0, preClose)) == cash
    ensures Uplift(cash, preClose) > 0.0 <==> cash > 0.0
    ensures Uplift(cash, preClose) < 0.0 <==> cash < 0.0
  {
    var v := 10000.0 * preClose;
    assert Uplift(cash, preClose) * v == cash;
  }

  lemma NoTrades(c: Costs)
    ensures Sold([]) == 0.0 && Bought([]) == 0.0 && Cash([], c) == 0.0 && Legs([], true) == 0 && Legs([], false) == 0
  {
  }

  /** One bar of the day. */
  lemma DayStep(engine: Engine, bars: nat, cadence: int, bar: nat, t: seq<Trade>, c: Costs)
    ensures bar >= bars ==> DayTrades(engine, bars, cadence, bar, t, c) == t
    ensures bar < bars ==>
      var d := engine(Seen(t, bar, c));
      var x := if d.Some? then Asked(d.value) else None;
      DayTrades(engine, bars, cadence, bar, t, c) ==
        DayTrades(engine, bars, cadence, bar + (if cadence > 1 then cadence else 1),
                  if x.Some? && Allowed(t, x.value, c) then t + [x.value] else t, c)
  {
  }

  lemma Appended(t: seq<Trade>, x: Trade, c: Costs)
    ensures Sold(t + [x]) == Sold(t) + (if x.sell then x.qty else 0.0)
    ensures Bought(t + [x]) == Bought(t) + (if x.sell then 0.0 else x.qty)
    ensures Cash(t + [x], c) == Cash(t, c) + Flow(x, c)
    ensures Legs(t + [x], true) == Legs(t, true) + (if x.sell then 1 else 0)
    ensures Legs(t + [x], false) == Legs(t, false) + (if x.sell then 0 else 1)
  {
    assert (t + [x])[..|t|] == t;
  }

  // ----- every day, whatever the engine decides

  /** The simulator's own guard makes every day's trades legal. */
  lemma {:induction false} DayIsLegal(engine: Engine, bars: nat, cadence: int, bar: nat, t: seq<Trade>, c: Costs)
    requires Legal(t, c)
    ensures Legal(DayTrades(engine, bars, cadence, bar, t, c), c)
    decreases if bar < bars then bars - bar else 0
  {
    if bar < bars {
      var step := if cadence > 1 then cadence else 1;
      var d := engine(Seen(t, bar, c));
      var x := if d.Some? then Asked(d.value) else None;
      if x.Some? && Allowed(t, x.value, c) {
        var next := t + [x.value];
        forall k | 0 <= k < |next|
          ensures Allowed(next[..k], next[k], c)
        {
          assert k < |t| ==> next[..k] == t[..k];
          assert k == |t| ==> next[..k] == t;
        }
        DayIsLegal(engine, bars, cadence, bar + step, next, c);
      } else {
        DayIsLegal(engine, bars, cadence, bar + step, t, c);
      }
    }
  }

  lemma LegalPrefix(t: seq<Trade>, c: Costs, k: nat)
    requires Legal(t, c) && k <= |t|
    ensures Legal(t[..k], c)
  {
    forall i | 0 <= i < k
      ensures Allowed(t[..k][..i], t[..k][i], c)
    {
      assert t[..k][..i] == t[..i];
    }
  }

  lemma SaleFlow(qty: real, price: real, rate: real)
    requires qty > 0.0 && price > 0.0 && 0.0 <= rate <= 1.0
    ensures 0.0 <= Times(Times(qty, price), 1.0 - rate) && Times(Times(qty, price), rate) >= 0.0
    ensures Times(Times(qty, price), 1.0 - rate) == Times(qty, price) - Times(Times(qty, price), rate)
  {
    TimesPositive(qty, price);
    NonNegative(Times(qty, price), 1.0 - rate);
    NonNegative(Times(qty, price), rate);
    TimesSum(Times(qty, price), 1.0, rate);
    TimesUnit(Times(qty, price), 1.0);
  }

  lemma NonNegative(x: real, y: real)
    requires x >= 0.0 && y >= 0.0
    ensures Times(x, y) >= 0.0
  {
  }

  /**
   * After any legal trades: no more than the carried shares were sold, cash is not negative, bought shares never
   * added to what may be sold, and nothing was bought before something was sold.
   */
  lemma {:induction false} LegalStaysSafe(t: seq<Trade>, c: Costs)
    requires Legal(t, c) && c.Valid()
    ensures 0.0 <= Sold(t) <= HELD && Bought(t) >= 0.0 && Cash(t, c) >= 0.0
    ensures Sellable(t) == HELD - Sold(t)
    ensures Legs(t, false) > 0 ==> Legs(t, true) > 0
    ensures Legs(t, true) == 0 ==> Cash(t, c) == 0.0
  {
    hide Times;
    if |t| != 0 {
      var n := |t| - 1;
      LegalPrefix(t, c, n);
      LegalStaysSafe(t[..n], c);
      var x := t[n];
      assert Allowed(t[..n], x, c);
      if x.sell {
        SaleFlow(x.qty, x.price, c.sell);
      } else {
        PurchaseCost(x.qty, x.price, c.buy);
      }
    }
  }

  lemma PurchaseCost(qty: real, price: real, rate: real)
    requires qty > 0.0 && price > 0.0 && 0.0 <= rate
    ensures Times(Times(qty, price), 1.0 + rate) > 0.0 && Times(Times(qty, price), rate) >= 0.0
    ensures Times(Times(qty, price), 1.0 + rate) == Times(qty, price) + Times(Times(qty, price), rate)
  {
    TimesPositive(qty, price);
    TimesPositive(Times(qty, price), 1.0 + rate);
    NonNegative(Times(qty, price), rate);
    TimesSum(Times(qty, price), 1.0, rate);
    TimesUnit(Times(qty, price), 1.0);
  }

  /** Cash is the edge against the close, plus the open share balance at the close, minus fees. */
  lemma {:induction false} CashDecomposes(t: seq<Trade>, c: Costs, close: real)
    ensures Cash(t, c) == Edge(t, close) + Times(Sold(t) - Bought(t), close) - Fees(t, c)
  {
    hide Times;
    if |t| == 0 {
      TimesUnit(0.0, close);
      TimesUnit(close, 0.0);
    } else {
      var n := |t| - 1;
      CashDecomposes(t[..n], c, close);
      var x := t[n];
      FlowDecomposes(x, c, close, Sold(t[..n]) - Bought(t[..n]));
    }
  }

  lemma FlowDecomposes(x: Trade, c: Costs, close: real, open: real)
    ensures Flow(x, c) + Times(open, close) ==
      if x.sell then Times(x.qty, x.price - close) + Times(open + x.qty, close) - Times(Times(x.qty, x.price), c.sell)
      else -Times(x.qty, x.price - close) + Times(open - x.qty, close) - Times(Times(x.qty, x.price), c.buy)
  {
  }

  /** The fee on the closing trade that restores the position. */
  function RestoreFee(t: seq<Trade>, c: Costs, close: real): real {
    var short := Sold(t) - Bought(t);
    if short > 0.0 then Times(Times(short, close), c.buy) else Times(Times(-short, close), c.sell)
  }

  /**
   * After the position is restored, cash is exactly the edge of the sales minus that of the purchases, minus fees,
   * and the fees are not negative.
   */
  lemma RestoredIsEdgeMinusFees(t: seq<Trade>, c: Costs, close: real)
    ensures Restored(t, c, close) == Edge(t, close) - Fees(t, c) - RestoreFee(t, c, close)
    ensures c.Valid() && Legal(t, c) && close >= 0.0 ==> Fees(t, c) >= 0.0 && RestoreFee(t, c, close) >= 0.0
  {
    CashDecomposes(t, c, close);
    var short := Sold(t) - Bought(t);
    CloseOut(short, close, c.buy, c.sell);
    if c.Valid() && Legal(t, c) && close >= 0.0 {
      FeesNonNegative(t, c);
      NonNegative(if short > 0.0 then short else -short, close);
      NonNegative(Times(if short > 0.0 then short else -short, close), c.buy);
      NonNegative(Times(if short > 0.0 then short else -short, close), c.sell);
    }
  }

  lemma CloseOut(short: real, close: real, buy: real, sell: real)
    ensures Times(short, close) - Times(Times(short, close), 1.0 + buy) == -Times(Times(short, close), buy)
    ensures Times(short, close) + Times(Times(-short, close), 1.0 - sell) == -Times(Times(-short, close), sell)
    ensures short == 0.0 ==> Times(short, close) == 0.0 && Times(Times(-short, close), sell) == 0.0
  {
  }

  lemma {:induction false} FeesNonNegative(t: seq<Trade>, c: Costs)
    requires Legal(t, c) && c.Valid()
    ensures Fees(t, c) >= 0.0
  {
    hide Times;
    if |t| != 0 {
      var n := |t| - 1;
      LegalPrefix(t, c, n);
      FeesNonNegative(t[..n], c);
      assert Allowed(t[..n], t[n], c);
      TimesPositive(t[n].qty, t[n].price);
      NonNegative(Times(t[n].qty, t[n].price), if t[n].sell then c.sell else c.buy);
    }
  }

  lemma {:induction false} NoEdgeAtClose(t: seq<Trade>, close: real)
    requires forall k :: 0 <= k < |t| ==> t[k].price == close
    ensures Edge(t, close) == 0.0
  {
    hide Times;
    if |t| != 0 {
      NoEdgeAtClose(t[..|t| - 1], close);
      TimesUnit(t[|t| - 1].qty, 0.0);
    }
  }

  /** A day that trades only at its own close price never gains. */
  lemma TradingAtCloseNeverGains(engine: Engine, bars: nat, cadence: int, c: Costs, close: real)
    requires c.Valid() && close >= 0.0
    requires forall k :: 0 <= k < |DayTrades(engine, bars, cadence, FIRST_BAR, [], c)| ==>
      DayTrades(engine, bars, cadence, FIRST_BAR, [], c)[k].price == close
    ensures Restored(DayTrades(engine, bars, cadence, FIRST_BAR, [], c), c, close) <= 0.0
  {
    var t := DayTrades(engine, bars, cadence, FIRST_BAR, [], c);
    DayIsLegal(engine, bars, cadence, FIRST_BAR, [], c);
    NoEdgeAtClose(t, close);
    RestoredIsEdgeMinusFees(t, c, close);
  }

  /** Such a day reports no positive uplift: the fees, and nothing else, are lost. */
  lemma CloseOnlyDayReportsFees(t: seq<Trade>, c: Costs, close: real, preClose: real)
    requires c.Valid() && Legal(t, c) && close >= 0.0 && preClose > 0.0
    requires forall k :: 0 <= k < |t| ==> t[k].price == close
    ensures Uplift(Restored(t, c, close), preClose) <= 0.0
    ensures Times(Uplift(Restored(t, c, close), preClose), Times(10000.0, preClose))
         == -(Fees(t, c) + RestoreFee(t, c, close))
  {
    hide Uplift, Restored, Fees, RestoreFee, Edge;
    NoEdgeAtClose(t, close);
    RestoredIsEdgeMinusFees(t, c, close);
    UpliftMeans(Restored(t, c, close), preClose);
  }

  // ----- the restoring trade and the T+1 rule

  /** Shares the restore has to sell, and carried shares that may still be sold. */
  function RestoreSells(t: seq<Trade>): real {
    if Bought(t) > Sold(t) then Bought(t) - Sold(t) else 0.0
  }

  /** The restore keeps to carried shares if and only if no more was bought than was carried. */
  lemma RestoreKeepsT1Iff(t: seq<Trade>, c: Costs)
    requires Legal(t, c) && c.Valid()
    ensures RestoreSells(t) <= Sellable(t) <==> Bought(t) <= 10000.0
    ensures RestoreSells(t) >= 0.0 && (RestoreSells(t) > 0.0 <==> Bought(t) > Sold(t))
  {
    LegalStaysSafe(t, c);
  }

  /**
   * How far a price band limits buying: with every price in [low, high], what was bought, at the low price and its
   * cost, is worth no more than what was sold brought in at the high price.
   */
  lemma {:induction false} BandLimitsBuying(t: seq<Trade>, c: Costs, low: real, high: real)
    requires Legal(t, c) && c.Valid() && 0.0 < low && forall k :: 0 <= k < |t| ==> low <= t[k].price <= high
    ensures Cash(t, c) <= Times(Sold(t), Times(high, 1.0 - c.sell)) - Times(Bought(t), Times(low, 1.0 + c.buy))
    ensures Times(Bought(t), Times(low, 1.0 + c.buy)) <= Times(Sold(t), Times(high, 1.0 - c.sell))
  {
    hide Times, Legal;
    if |t| == 0 {
      TimesUnit(Times(high, 1.0 - c.sell), 0.0);
      TimesUnit(Times(low, 1.0 + c.buy), 0.0);
    } else {
      var n := |t| - 1;
      LegalPrefix(t, c, n);
      BandLimitsBuying(t[..n], c, low, high);
      LastAllowed(t, c);
      FlowInBand(t[n], c, low, high);
      AddTimes(Sold(t[..n]), t[n].qty, Times(high, 1.0 - c.sell));
      AddTimes(Bought(t[..n]), t[n].qty, Times(low, 1.0 + c.buy));
    }
    LegalStaysSafe(t, c);
  }

  lemma LastAllowed(t: seq<Trade>, c: Costs)
    requires Legal(t, c) && |t| > 0
    ensures t[|t| - 1].qty > 0.0
  {
    assert Allowed(t[..|t| - 1], t[|t| - 1], c);
  }

  lemma AddTimes(x: real, y: real, p: real)
    ensures Times(x + y, p) == Times(x, p) + Times(y, p)
  {
  }

  lemma FlowInBand(x: Trade, c: Costs, low: real, high: real)
    requires c.Valid() && x.qty > 0.0 && 0.0 < low <= x.price <= high
    ensures Flow(x, c) <=
      if x.sell then Times(x.qty, Times(high, 1.0 - c.sell)) else -Times(x.qty, Times(low, 1.0 + c.buy))
  {
    if x.sell {
      NonNegative(high - x.price, 1.0 - c.sell);
      NonNegative(x.qty, Times(high - x.price, 1.0 - c.sell));
    } else {
      NonNegative(x.price - low, 1.0 + c.buy);
      NonNegative(x.qty, Times(x.price - low, 1.0 + c.buy));
    }
  }

  // ----- a day that breaks it

  /** Whole lots of 100. */
  function Lots(x: real): real {
    100.0 * (x / 100.0).Floor as real
  }

  /**
   * What the script's decision function can return for a fraction of the position and the day's price limits: sales
   * of that fraction of the sellable shares, purchases of that fraction of all shares as far as the cash goes, in
   * whole lots and inside the limits.
   */
  predicate WithinRules(v: View, d: Decision, fraction: real, limitDown: real, limitUp: real) {
    && d.qty >= 100.0
    && limitDown + 0.01 <= d.price <= limitUp - 0.01 && d.price > 0.0
    && match d.action
       case SellHigh => d.qty == Lots(Times(v.sellable as real, fraction))
       case BuyBack =>
         var wanted, affordable := Times((v.sellable + v.todayBuy) as real, fraction), v.cash / d.price;
         d.qty == Lots(if affordable < wanted then affordable else wanted) && Times(d.qty, d.price) <= v.cash
       case Hold => true
  }

  /** Rounding down to whole lots loses less than one of them. */
  lemma LotsMean(x: real)
    ensures Lots(x) == LotsOf((x / 100.0).Floor) && Lots(x) <= x < Lots(x) + 100.0
  {
    var q := x / 100.0;
    assert q.Floor as real <= q < q.Floor as real + 1.0;
    assert x == 100.0 * q;
  }

  function LotsOf(lots: int): real {
    100.0 * lots as real
  }

  /** A sale inside the rules is of whole lots and at most the fraction of what is sellable, to less than a lot. */
  lemma SaleRule(v: View, d: Decision, fraction: real, limitDown: real, limitUp: real)
    requires WithinRules(v, d, fraction, limitDown, limitUp) && d.action == SellHigh
    ensures limitDown < d.price < limitUp && exists lots :: lots >= 1 && d.qty == LotsOf(lots)
    ensures d.qty <= Times(v.sellable as real, fraction) < d.qty + 100.0
  {
    hide Lots, LotsOf, Times;
    var x := Times(v.sellable as real, fraction);
    LotsMean(x);
    LotsPositive((x / 100.0).Floor);
  }

  /** A purchase inside the rules is of whole lots, at most the fraction of all shares, and paid for by the cash. */
  lemma PurchaseRule(v: View, d: Decision, fraction: real, limitDown: real, limitUp: real)
    requires WithinRules(v, d, fraction, limitDown, limitUp) && d.action == BuyBack
    ensures limitDown < d.price < limitUp && exists lots :: lots >= 1 && d.qty == LotsOf(lots)
    ensures d.qty <= Times((v.sellable + v.todayBuy) as real, fraction) && Times(d.qty, d.price) <= v.cash
  {
    hide Lots, LotsOf, Times;
    var wanted, affordable := Times((v.sellable + v.todayBuy) as real, fraction), v.cash / d.price;
    var x := if affordable < wanted then affordable else wanted;
    LotsMean(x);
    LotsPositive((x / 100.0).Floor);
  }

  lemma LotsPositive(lots: int)
    ensures LotsOf(lots) >= 100.0 ==> lots >= 1
  {
  }

  const COSTS := Costs(0.00105, 0.00155)

  /** Four sales at the upper end of a 10% band, each followed by a purchase at its lower end. */
  function SwingLegs(): (t: seq<Trade>)
    ensures |t| == 8
  {
    [Trade(true, 4000.0, 10.99), Trade(false, 2400.0, 9.01), Trade(true, 2400.0, 10.99), Trade(false, 2400.0, 9.01),
     Trade(true, 1400.0, 10.99), Trade(false, 2800.0, 9.01), Trade(true, 800.0, 10.99), Trade(false, 2800.0, 9.01)]
  }

  function DecisionFor(x: Trade): Decision {
    Decision(if x.sell then SellHigh else BuyBack, x.price, x.qty)
  }

  /** The bar of the k-th leg, at a cadence of five bars. */
  function BarOf(k: nat): nat {
    FIRST_BAR + 5 * k
  }

  function Swings(): Engine {
    (v: View) =>
      if v.bar >= FIRST_BAR && (v.bar - FIRST_BAR) % 5 == 0 && (v.bar - FIRST_BAR) / 5 < 8
      then Some(DecisionFor(SwingLegs()[(v.bar - FIRST_BAR) / 5])) else None
  }

  /** The totals after k legs. */
  function SoldAfter(k: nat): real {
    if k == 0 then 0.0 else if k <= 2 then 4000.0 else if k <= 4 then 6400.0 else if k <= 6 then 7800.0 else 8600.0
  }

  function BoughtAfter(k: nat): real {
    if k <= 1 then 0.0 else if k <= 3 then 2400.0 else if k <= 5 then 4800.0 else if k <= 7 then 7600.0 else 10400.0
  }

  function CashAfter(k: nat): real {
    if k == 0 then 0.0
    else if k == 1 then 43891.862
    else if k == 2 then 22245.1568
    else if k == 3 then 48580.274
    else if k == 4 then 26933.5688
    else if k == 5 then 42295.7205
    else if k == 6 then 17041.2311
    else if k == 7 then 25819.6035
    else 565.1141
  }

  lemma LegFlow(k: nat)
    requires k < 8
    ensures Flow(SwingLegs()[k], COSTS) == CashAfter(k + 1) - CashAfter(k)
  {
  }

  lemma {:induction false} TotalsAfter(k: nat)
    requires k <= 8
    ensures Sold(SwingLegs()[..k]) == SoldAfter(k) && Bought(SwingLegs()[..k]) == BoughtAfter(k)
    ensures Cash(SwingLegs()[..k], COSTS) == CashAfter(k)
  {
    var t := SwingLegs();
    if k == 0 {
      NoTrades(COSTS);
      assert t[..0] == [];
    } else {
      TotalsAfter(k - 1);
      LegFlow(k - 1);
      Appended(t[..k - 1], t[k - 1], COSTS);
      assert t[..k] == t[..k - 1] + [t[k - 1]];
    }
  }

  /** Each leg is what the decision function returns for a fraction of 40%, and passes the simulator's guard. */
  lemma LegWithinRules(k: nat)
    requires k < 8
    ensures
      var t, v := SwingLegs(), Seen(SwingLegs()[..k], BarOf(k), COSTS);
      && v.bar == BarOf(k)
      && WithinRules(v, DecisionFor(t[k]), 0.4, 9.0, 11.0)
      && Allowed(t[..k], t[k], COSTS)
      && (!t[k].sell ==> k > 0 && t[k - 1].sell)
  {
    TotalsAfter(k);
    hide Sold, Bought, Cash;
  }

  /** Once the engine has no more decisions, the day's trades stay as they are. */
  lemma {:induction false} NothingMore(engine: Engine, bars: nat, cadence: int, bar: nat, t: seq<Trade>, c: Costs)
    requires forall v: View :: v.bar >= bar ==> engine(v) == None
    ensures DayTrades(engine, bars, cadence, bar, t, c) == t
    decreases if bar < bars then bars - bar else 0
  {
    if bar < bars {
      NothingMore(engine, bars, cadence, bar + if cadence > 1 then cadence else 1, t, c);
    }
  }

  lemma {:induction false} SwingsFrom(bars: nat, k: nat)
    requires bars >= 60 && k <= 8
    ensures DayTrades(Swings(), bars, 5, BarOf(k), SwingLegs()[..k], COSTS) == SwingLegs()
    decreases 8 - k
  {
    hide Allowed, DayTrades, SwingLegs, WithinRules;
    if k == 8 {
      NothingMore(Swings(), bars, 5, BarOf(8), SwingLegs()[..8], COSTS);
      assert SwingLegs()[..8] == SwingLegs();
    } else {
      LegWithinRules(k);
      DayStep(Swings(), bars, 5, BarOf(k), SwingLegs()[..k], COSTS);
      assert SwingLegs()[..k] + [SwingLegs()[k]] == SwingLegs()[..k + 1];
      SwingsFrom(bars, k + 1);
    }
  }

  /**
   * A day of 60 bars or more, prices inside a 10% band, whole lots, 40% of the shares at a time, every purchase after a
   * sale, and the script's default costs: the restore has to sell 1800 shares, of which only 1400 were carried.
   */
  lemma EngineDayBreaksT1(bars: nat)
    requires bars >= 60
    ensures DayTrades(Swings(), bars, 5, 20, [], COSTS) == SwingLegs()
    ensures Legal(SwingLegs(), COSTS) && COSTS.Valid()
    ensures forall k :: 0 <= k < 8 ==>
      Swings()(Seen(SwingLegs()[..k], BarOf(k), COSTS)) == Some(DecisionFor(SwingLegs()[k])) &&
      WithinRules(Seen(SwingLegs()[..k], BarOf(k), COSTS), DecisionFor(SwingLegs()[k]), 0.4, 9.0, 11.0) &&
      (!SwingLegs()[k].sell ==> k > 0 && SwingLegs()[k - 1].sell)
    ensures Sellable(SwingLegs()) == 1400.0 && RestoreSells(SwingLegs()) == 1800.0
  {
    var t := SwingLegs();
    TotalsAfter(8);
    assert t[..8] == t && t[..0] == [];
    hide SwingLegs, WithinRules, DayTrades, Allowed, Sold, Bought, Cash, Seen, Swings, DecisionFor;
    SwingsFrom(bars, 0);
    forall k | 0 <= k < 8
      ensures Swings()(Seen(t[..k], BarOf(k), COSTS)) == Some(DecisionFor(t[k]))
      ensures WithinRules(Seen(t[..k], BarOf(k), COSTS), DecisionFor(t[k]), 0.4, 9.0, 11.0)
      ensures Allowed(t[..k], t[k], COSTS)
      ensures !t[k].sell ==> k > 0 && t[k - 1].sell
    {
      LegWithinRules(k);
      SwingsSay(Seen(t[..k], BarOf(k), COSTS), k);
    }
  }

  lemma SwingsSay(v: View, k: nat)
    requires k < 8 && v.bar == BarOf(k)
    ensures Swings()(v) == Some(DecisionFor(SwingLegs()[k]))
  {
    hide DecisionFor, SwingLegs;
  }
}
