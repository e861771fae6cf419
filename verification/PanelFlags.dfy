/** What the tradability flags of a written panel say, read off the written rows themselves. */
module PanelFlags {
  import opened Options
  import opened Vectors
  import opened CatchUp
  import opened PanelMerge

  /** q is the symbol's latest row before x, looked for from five days before the panel's old end. */
  ghost predicate IsPrevious(rows: seq<Bar>, q: Bar, x: Bar, oldEnd: int) {
    && q in rows && q.symbol == x.symbol && oldEnd - 5 <= q.date < x.date
    && forall b :: b in rows && b.symbol == x.symbol && oldEnd - 5 <= b.date < x.date ==> b.date <= q.date
  }

  /** Rounding that keeps order. */
  ghost predicate KeepsOrder(round: real -> real) {
    forall x: real, y: real :: x <= y ==> round(x) <= round(y)
  }

  // ----- one row

  /** Flags in terms of the previous close: literally the exchange's limit prices, half a tick wide. */
  lemma FlagsMean(b: Bar, previous: Option<real>, st: bool, rules: Rules)
    ensures
      var f := FlagsOf(b, previous, st, rules);
      && f.st == st
      && (f.suspended <==> (b.volume.Some? ==> b.volume.value <= 0.0))
      && (previous.None? || b.close.None? ==> !f.limitUp && !f.limitDown)
      && (previous.Some? && b.close.Some? ==>
            var ratio := rules.ratio(b.symbol, st, b.date);
            && (f.limitUp <==> rules.round(b.close.value) + 0.005 >= rules.round(Times(previous.value, 1.0 + ratio)))
            && (f.limitDown <==> rules.round(b.close.value) - 0.005 <= rules.round(Times(previous.value, 1.0 - ratio))))
  {
  }

  /** A row at its upper limit stays there at every higher close, one at its lower limit at every lower close. */
  lemma FlagsFollowClose(b: Bar, higher: Bar, previous: Option<real>, st: bool, rules: Rules)
    requires KeepsOrder(rules.round) && b.close.Some? && higher.close.Some? && b.close.value <= higher.close.value
    requires higher.symbol == b.symbol && higher.date == b.date
    ensures FlagsOf(b, previous, st, rules).limitUp ==> FlagsOf(higher, previous, st, rules).limitUp
    ensures FlagsOf(higher, previous, st, rules).limitDown ==> FlagsOf(b, previous, st, rules).limitDown
  {
  }

  /** With limit prices more than a tick apart no row is at both, and a close between them is at neither. */
  lemma LimitsExclude(b: Bar, previous: real, st: bool, rules: Rules)
    requires b.close.Some?
    ensures
      var f := FlagsOf(b, Some(previous), st, rules);
      var ratio := rules.ratio(b.symbol, st, b.date);
      var up, down := rules.round(Times(previous, 1.0 + ratio)), rules.round(Times(previous, 1.0 - ratio));
      && (up - down > 0.01 ==> !(f.limitUp && f.limitDown))
      && (down + 0.005 < rules.round(b.close.value) < up - 0.005 ==> !f.limitUp && !f.limitDown)
  {
  }

  /** From 10 to 11 under a 10% limit is limit-up, from 10 to 9 limit-down, from 10 to 10 neither. */
  lemma TenPercentDay(symbol: Symbol, date: int, round: real -> real)
    requires round(11.0) == 11.0 && round(10.0) == 10.0 && round(9.0) == 9.0
    ensures
      var rules := Rules((s: Symbol, st: bool, d: int) => 0.1, round);
      && FlagsOf(Bar(symbol, date, Some(11.0), Some(1.0), None), Some(10.0), false, rules)
        == Flags(true, false, false, false)
      && FlagsOf(Bar(symbol, date, Some(9.0), Some(1.0), None), Some(10.0), false, rules)
        == Flags(false, true, false, false)
      && FlagsOf(Bar(symbol, date, Some(10.0), None, None), Some(10.0), true, rules)
        == Flags(false, false, true, true)
  {
    assert 10.0 * (1.0 + 0.1) == 11.0 && 10.0 * (1.0 - 0.1) == 9.0;
  }

  // ----- the written panel

  lemma KeyDecides(rows: seq<Bar>, i: nat, j: nat)
    requires UniqueKeys(rows) && i < |rows| && j < |rows| && KeyOf(rows[i]) == KeyOf(rows[j])
    ensures i == j
  {
  }

  /** Rows of the merged panel and of the written one agree on everything but the flags. */
  ghost predicate SameButFlags(merged: seq<Bar>, r: seq<Bar>) {
    && |r| == |merged|
    && forall i :: 0 <= i < |r| ==>
      KeyOf(r[i]) == KeyOf(merged[i]) && r[i].close == merged[i].close && r[i].volume == merged[i].volume
  }

  lemma RebuiltSameButFlags(merged: seq<Bar>, w: Window, panelMax: int, evidence: map<Key, bool>, rules: Rules)
    requires Covered(merged, w, evidence)
    ensures SameButFlags(merged, Rebuilt(merged, w, panelMax, evidence, rules))
  {
    hide Reflagged;
    var r := Rebuilt(merged, w, panelMax, evidence, rules);
    forall i | 0 <= i < |r|
      ensures KeyOf(r[i]) == KeyOf(merged[i]) && r[i].close == merged[i].close && r[i].volume == merged[i].volume
    {
      assert merged[i] in merged;
      if w.start <= merged[i].date <= w.end {
        ReflaggedKeepsRow(merged, merged[i], w, panelMax, evidence[KeyOf(merged[i])], rules);
      }
    }
  }

  lemma WrittenBar(merged: seq<Bar>, r: seq<Bar>, q: Bar) returns (i: nat)
    requires SameButFlags(merged, r) && q in r
    ensures i < |merged| && |r| == |merged| && r[i] == q && merged[i] in merged
    ensures KeyOf(merged[i]) == KeyOf(q) && merged[i].close == q.close
  {
    i :| 0 <= i < |r| && r[i] == q;
  }

  /** The merged panel's previous row is that of the written one. */
  lemma PreviousIsWritten(merged: seq<Bar>, r: seq<Bar>, x: Bar, oldEnd: int) returns (q: Bar)
    requires SameButFlags(merged, r) && Previous(merged, x.symbol, oldEnd - 5, x.date).Some?
    ensures IsPrevious(r, q, x, oldEnd)
  {
    var p := Previous(merged, x.symbol, oldEnd - 5, x.date).value;
    var l :| 0 <= l < |merged| && merged[l] == p;
    q := r[l];
    hide SameButFlags, Previous;
    forall b | b in r && b.symbol == x.symbol && oldEnd - 5 <= b.date < x.date
      ensures b.date <= q.date
    {
      var i := WrittenBar(merged, r, b);
    }
  }

  lemma WrittenIsPrevious(merged: seq<Bar>, r: seq<Bar>, x: Bar, oldEnd: int, q: Bar)
    requires SameButFlags(merged, r) && UniqueKeys(merged) && IsPrevious(r, q, x, oldEnd)
    ensures Previous(merged, x.symbol, oldEnd - 5, x.date).Some?
    ensures Previous(merged, x.symbol, oldEnd - 5, x.date).value.close == q.close
  {
    hide UniqueKeys, Previous;
    var j := WrittenBar(merged, r, q);
    var p := Previous(merged, x.symbol, oldEnd - 5, x.date).value;
    var l :| 0 <= l < |merged| && merged[l] == p;
    assert r[l] in r && KeyOf(r[l]) == KeyOf(p);
    hide SameButFlags;
    assert p.date == q.date;
    KeyDecides(merged, l, j);
  }

  /** The previous row can be looked up in the written panel instead of the merged one. */
  lemma PreviousInWritten(merged: seq<Bar>, r: seq<Bar>, x: Bar, oldEnd: int)
    requires SameButFlags(merged, r) && UniqueKeys(merged)
    ensures
      var p := Previous(merged, x.symbol, oldEnd - 5, x.date);
      && ((forall q :: !IsPrevious(r, q, x, oldEnd)) ==> p.None?)
      && (forall q :: IsPrevious(r, q, x, oldEnd) ==> p.Some? && p.value.close == q.close)
  {
    hide UniqueKeys, SameButFlags, IsPrevious, Previous;
    if Previous(merged, x.symbol, oldEnd - 5, x.date).Some? {
      var q := PreviousIsWritten(merged, r, x, oldEnd);
    }
    forall q | IsPrevious(r, q, x, oldEnd)
      ensures Previous(merged, x.symbol, oldEnd - 5, x.date).Some?
      ensures Previous(merged, x.symbol, oldEnd - 5, x.date).value.close == q.close
    {
      WrittenIsPrevious(merged, r, x, oldEnd, q);
    }
  }

  /** The row of the written panel that x is, before its flags were rebuilt. */
  lemma WrittenRowIsReflagged(
      panel: seq<Bar>, chunks: seq<ChunkFile>, w: Window, panelMax: int, evidence: map<Key, bool>, rules: Rules,
      x: Bar) returns (b: Bar)
    requires Disjoint(panel, chunks, w, panelMax)
    requires Merge(panel, chunks, w, panelMax, evidence, rules).Written?
    requires x in Merge(panel, chunks, w, panelMax, evidence, rules).panel && w.start <= x.date
    ensures KeyOf(b) == KeyOf(x) && b.close == x.close && b.close.Some? && b.volume == x.volume
    ensures KeyOf(x) in evidence
    ensures x == Reflagged(KeepFirst(panel) + NewRows(chunks), b, w, panelMax, evidence[KeyOf(x)], rules)
  {
    hide Merge, KeepFirst, UniqueKeys, Reflagged;
    var r := Merge(panel, chunks, w, panelMax, evidence, rules).panel;
    WrittenPanelKeepsHistory(panel, chunks, w, panelMax, evidence, rules);
    var kept := |KeepFirst(panel)|;
    var j :| 0 <= j < |r| && r[j] == x;
    if j < kept {
      KeptRowIsOld(panel, r, j);
      assert false;
    }
    WrittenPanelIsReflagged(panel, chunks, w, panelMax, evidence, rules, j - kept);
    b := NewRows(chunks)[j - kept];
    assert b in NewRows(chunks);
    ReflaggedKeepsRow(KeepFirst(panel) + NewRows(chunks), b, w, panelMax, evidence[KeyOf(b)], rules);
  }

  lemma WrittenSameButFlags(
      panel: seq<Bar>, chunks: seq<ChunkFile>, w: Window, panelMax: int, evidence: map<Key, bool>, rules: Rules)
    requires Disjoint(panel, chunks, w, panelMax)
    requires Merge(panel, chunks, w, panelMax, evidence, rules).Written?
    ensures SameButFlags(KeepFirst(panel) + NewRows(chunks), Merge(panel, chunks, w, panelMax, evidence, rules).panel)
    ensures UniqueKeys(KeepFirst(panel) + NewRows(chunks))
  {
    hide KeepFirst, NewRows, UniqueKeys, Rebuilt, SameButFlags;
    MergedShape(panel, chunks, w, panelMax);
    RebuiltSameButFlags(KeepFirst(panel) + NewRows(chunks), w, panelMax, evidence, rules);
  }

  /**
   * Every window row of a written panel: its ST state is the evidence, it is suspended exactly when its volume is
   * missing or not positive, and it is at a limit exactly when its rounded close reaches, to half a tick, the rounded
   * limit price of its symbol's previous row of the written panel, looked for from five days before the old end.
   */
  lemma WrittenFlags(
      panel: seq<Bar>, chunks: seq<ChunkFile>, w: Window, panelMax: int, evidence: map<Key, bool>, rules: Rules,
      x: Bar)
    requires Disjoint(panel, chunks, w, panelMax)
    requires Merge(panel, chunks, w, panelMax, evidence, rules).Written?
    requires x in Merge(panel, chunks, w, panelMax, evidence, rules).panel && w.start <= x.date
    ensures x.flags.Some? && x.close.Some? && KeyOf(x) in evidence
    ensures x.flags.value.st == evidence[KeyOf(x)]
    ensures x.flags.value.suspended <==> (x.volume.Some? ==> x.volume.value <= 0.0)
    ensures
      var r := Merge(panel, chunks, w, panelMax, evidence, rules).panel;
      (forall q :: !IsPrevious(r, q, x, panelMax)) ==> !x.flags.value.limitUp && !x.flags.value.limitDown
    ensures
      var r := Merge(panel, chunks, w, panelMax, evidence, rules).panel;
      var ratio := rules.ratio(x.symbol, evidence[KeyOf(x)], x.date);
      forall q :: IsPrevious(r, q, x, panelMax) ==>
        && (q.close.None? ==> !x.flags.value.limitUp && !x.flags.value.limitDown)
        && (q.close.Some? ==>
              && (x.flags.value.limitUp <==>
                    rules.round(x.close.value) + 0.005 >= rules.round(Times(q.close.value, 1.0 + ratio)))
              && (x.flags.value.limitDown <==>
                    rules.round(x.close.value) - 0.005 <= rules.round(Times(q.close.value, 1.0 - ratio))))
  {
    hide Merge, KeepFirst, NewRows, UniqueKeys, SameButFlags, IsPrevious, FlagsOf, Disjoint, Previous;
    var b := WrittenRowIsReflagged(panel, chunks, w, panelMax, evidence, rules, x);
    var merged, r := KeepFirst(panel) + NewRows(chunks), Merge(panel, chunks, w, panelMax, evidence, rules).panel;
    WrittenSameButFlags(panel, chunks, w, panelMax, evidence, rules);
    PreviousInWritten(merged, r, x, panelMax);
    var p := Previous(merged, x.symbol, panelMax - LOOKBACK_DAYS, x.date);
    FlagsMean(b, if p.Some? then p.value.close else None, evidence[KeyOf(x)], rules);
  }
}
