/** The end of the catch-up: a keep-first merge into the panel and a rebuild of every window row's flags. */
module PanelMerge {
  import opened Options
  import opened Vectors
  import opened CatchUp

  type Key = (Symbol, int)

  function KeyOf(b: Bar): Key {
    (b.symbol, b.date)
  }

  ghost predicate UniqueKeys(rows: seq<Bar>) {
    forall i, j :: 0 <= i < j < |rows| ==> KeyOf(rows[i]) != KeyOf(rows[j])
  }

  predicate HasKey(rows: seq<Bar>, k: Key) {
    exists b :: b in rows && KeyOf(b) == k
  }

  lemma HasKeyAppend(rows: seq<Bar>, last: Bar)
    ensures forall k :: HasKey(rows + [last], k) <==> HasKey(rows, k) || KeyOf(last) == k
  {
    forall k
      ensures HasKey(rows + [last], k) <==> HasKey(rows, k) || KeyOf(last) == k
    {
      if HasKey(rows, k) {
        var b :| b in rows && KeyOf(b) == k;
        assert b in rows + [last];
      }
      assert last in rows + [last];
    }
  }

  /** Drop every row whose key occurred before. */
  function KeepFirst(rows: seq<Bar>): (r: seq<Bar>)
    ensures UniqueKeys(r)
    ensures forall b :: b in r ==> b in rows
    ensures forall k :: HasKey(r, k) <==> HasKey(rows, k)
  {
    if |rows| == 0 then []
    else
      var front, last := rows[..|rows| - 1], rows[|rows| - 1];
      var r := KeepFirst(front);
      HasKeyAppend(front, last);
      HasKeyAppend(r, last);
      assert rows == front + [last];
      if HasKey(r, KeyOf(last)) then r
      else
        assert forall i :: 0 <= i < |r| ==> r[i] in r;
        r + [last]
  }

  /** The first row with a key. */
  function First(rows: seq<Bar>, k: Key): (b: Bar)
    requires HasKey(rows, k)
    ensures b in rows && KeyOf(b) == k
  {
    if KeyOf(rows[0]) == k then rows[0]
    else
      assert rows == [rows[0]] + rows[1..];
      First(rows[1..], k)
  }

  lemma {:induction false} KeepFirstIsFirst(rows: seq<Bar>, b: Bar)
    ensures b in KeepFirst(rows) <==> HasKey(rows, KeyOf(b)) && First(rows, KeyOf(b)) == b
  {
    if |rows| != 0 {
      var front, last := rows[..|rows| - 1], rows[|rows| - 1];
      assert rows == front + [last];
      KeepFirstIsFirst(front, b);
      if HasKey(front, KeyOf(b)) {
        FirstOfConcat(front, [last], KeyOf(b));
      } else {
        FirstOfLater(front, last, KeyOf(b));
      }
    }
  }

  lemma {:induction false} FirstOfConcat(a: seq<Bar>, c: seq<Bar>, k: Key)
    requires HasKey(a, k)
    ensures HasKey(a + c, k) && First(a + c, k) == First(a, k)
  {
    assert First(a, k) in a + c;
    assert (a + c)[0] == a[0];
    if KeyOf(a[0]) != k {
      assert a == [a[0]] + a[1..];
      assert (a + c)[1..] == a[1..] + c;
      FirstOfConcat(a[1..], c, k);
    }
  }

  lemma {:induction false} FirstOfLater(a: seq<Bar>, last: Bar, k: Key)
    requires !HasKey(a, k)
    ensures HasKey(a + [last], k) <==> KeyOf(last) == k
    ensures KeyOf(last) == k ==> First(a + [last], k) == last
  {
    if KeyOf(last) == k {
      assert last in a + [last];
      if |a| != 0 {
        assert a[0] in a;
        assert (a + [last])[1..] == a[1..] + [last];
        assert forall b :: b in a[1..] ==> b in a;
        FirstOfLater(a[1..], last, k);
      }
    }
  }

  lemma {:induction false} KeepFirstOfUnique(rows: seq<Bar>)
    ensures KeepFirst(rows) == rows <==> UniqueKeys(rows)
    ensures |KeepFirst(rows)| <= |rows|
  {
    if |rows| != 0 {
      var front, last := rows[..|rows| - 1], rows[|rows| - 1];
      assert rows == front + [last];
      KeepFirstOfUnique(front);
      if UniqueKeys(rows) {
        LastIsNew(rows);
        assert forall b :: b in KeepFirst(front) ==> b in front;
      }
    }
  }

  lemma LastIsNew(rows: seq<Bar>)
    requires UniqueKeys(rows) && |rows| > 0
    ensures forall x :: x in rows[..|rows| - 1] ==> KeyOf(x) != KeyOf(rows[|rows| - 1])
  {
  }

  /** Rows already unique, followed by unique rows with other keys, are all kept. */
  lemma {:induction false} KeepFirstOfDisjoint(a: seq<Bar>, b: seq<Bar>)
    requires UniqueKeys(b)
    requires forall x :: x in b ==> !HasKey(a, KeyOf(x))
    ensures KeepFirst(a + b) == KeepFirst(a) + b
  {
    if |b| == 0 {
      assert a + b == a;
    } else {
      var front, last := b[..|b| - 1], b[|b| - 1];
      assert b == front + [last] && (a + b)[..|a + b| - 1] == a + front;
      KeepFirstOfDisjoint(a, front);
      LastIsNew(b);
      forall x | x in KeepFirst(a) + front
        ensures KeyOf(x) != KeyOf(last)
      {
        if x in KeepFirst(a) {
          assert x in a && last in b;
        }
      }
    }
  }

  /** The rows that have a close. */
  function WithClose(rows: seq<Bar>): (r: seq<Bar>)
    ensures forall b :: b in r <==> b in rows && b.close.Some?
  {
    if |rows| == 0 then []
    else
      var r, last := WithClose(rows[..|rows| - 1]), rows[|rows| - 1];
      assert rows == rows[..|rows| - 1] + [last];
      if last.close.Some? then r + [last] else r
  }

  lemma {:induction false} WithCloseUnique(rows: seq<Bar>)
    requires UniqueKeys(rows)
    ensures UniqueKeys(WithClose(rows))
  {
    if |rows| != 0 {
      var front, last := rows[..|rows| - 1], rows[|rows| - 1];
      WithCloseUnique(front);
      LastIsNew(rows);
      var r := WithClose(front);
      assert forall i :: 0 <= i < |r| ==> r[i] in r && r[i] in front;
    }
  }

  /** What is added to the panel: first staged row per key, then only those that have a close. */
  function NewRows(chunks: seq<ChunkFile>): seq<Bar> {
    WithClose(KeepFirst(AllRows(chunks)))
  }

  // ----- flags

  /** The exchange's rules: the limit ratio by symbol, ST state and date, and rounding to the tick. */
  datatype Rules = Rules(ratio: (Symbol, bool, int) -> real, round: real -> real)

  /** The latest row of a symbol dated from `from` up to but excluding `date`. */
  function Previous(rows: seq<Bar>, s: Symbol, from: int, date: int): (p: Option<Bar>)
    ensures p.Some? ==> p.value in rows && p.value.symbol == s && from <= p.value.date < date
    ensures forall b :: b in rows && b.symbol == s && from <= b.date < date ==> p.Some? && b.date <= p.value.date
  {
    if |rows| == 0 then None
    else
      var p, last := Previous(rows[..|rows| - 1], s, from, date), rows[|rows| - 1];
      assert rows == rows[..|rows| - 1] + [last];
      if last.symbol == s && from <= last.date < date && (p.None? || p.value.date <= last.date) then Some(last) else p
  }

  function FlagsOf(b: Bar, previous: Option<real>, st: bool, rules: Rules): Flags {
    var suspended := b.volume.None? || b.volume.value <= 0.0;
    if previous.None? || b.close.None? then Flags(false, false, suspended, st)
    else
      var ratio, close := rules.ratio(b.symbol, st, b.date), rules.round(b.close.value);
      Flags(close >= rules.round(Times(previous.value, 1.0 + ratio)) - 0.005,
            close <= rules.round(Times(previous.value, 1.0 - ratio)) + 0.005, suspended, st)
  }

  /** A window row with its rebuilt flags. */
  function Reflagged(merged: seq<Bar>, b: Bar, w: Window, panelMax: int, st: bool, rules: Rules): Bar {
    var p := Previous(merged, b.symbol, panelMax - LOOKBACK_DAYS, b.date);
    b.(flags := Some(FlagsOf(b, if p.Some? then p.value.close else None, st, rules)))
  }

  /** The merged panel with every window row re-flagged and every other row as it was. */
  function Rebuilt(merged: seq<Bar>, w: Window, panelMax: int, evidence: map<Key, bool>, rules: Rules): (r: seq<Bar>)
    requires forall b :: b in merged && w.start <= b.date <= w.end ==> KeyOf(b) in evidence
    ensures |r| == |merged|
    ensures forall i :: 0 <= i < |r| ==>
      (r[i] == if w.start <= merged[i].date <= w.end
               then Reflagged(merged, merged[i], w, panelMax, evidence[KeyOf(merged[i])], rules)
               else merged[i])
  {
    seq(|merged|, i requires 0 <= i < |merged| =>
      assert merged[i] in merged;
      if w.start <= merged[i].date <= w.end
      then Reflagged(merged, merged[i], w, panelMax, evidence[KeyOf(merged[i])], rules)
      else merged[i])
  }

  predicate Covered(rows: seq<Bar>, w: Window, evidence: map<Key, bool>) {
    forall b :: b in rows && w.start <= b.date <= w.end ==> KeyOf(b) in evidence
  }

  predicate HoldsWindowRow(rows: seq<Bar>, w: Window) {
    exists b :: b in rows && w.start <= b.date <= w.end
  }

  /**
   * How a merge ends. A refusal is the source's SystemExit; Raised is the KeyError of reading is_st from a frame
   * without rows, which the evidence join hands back without that column.
   */
  datatype Outcome = NothingNew | Refused | Raised | Written(panel: seq<Bar>)

  /** Nothing new, a refusal when ST evidence misses a row, an error when no window row is left, or the new panel. */
  function Merge(
      panel: seq<Bar>, chunks: seq<ChunkFile>, w: Window, panelMax: int, evidence: map<Key, bool>,
      rules: Rules): Outcome
  {
    if KeepFirst(AllRows(chunks)) == [] then NothingNew
    else
      var added := NewRows(chunks);
      if exists b :: b in added && KeyOf(b) !in evidence then Refused
      else
        var merged := KeepFirst(panel + added);
        if !HoldsWindowRow(merged, w) then Raised
        else if !Covered(merged, w, evidence) then Refused
        else Written(Rebuilt(merged, w, panelMax, evidence, rules))
  }

  /** The panel ends before the window and staging holds only window rows. */
  ghost predicate Disjoint(panel: seq<Bar>, chunks: seq<ChunkFile>, w: Window, panelMax: int) {
    && panelMax < w.start
    && (forall b :: b in panel ==> b.date <= panelMax)
    && (forall b :: b in AllRows(chunks) ==> w.start <= b.date <= w.end)
  }

  lemma MergedShape(panel: seq<Bar>, chunks: seq<ChunkFile>, w: Window, panelMax: int)
    requires Disjoint(panel, chunks, w, panelMax)
    ensures KeepFirst(panel + NewRows(chunks)) == KeepFirst(panel) + NewRows(chunks)
    ensures UniqueKeys(NewRows(chunks))
  {
    WithCloseUnique(KeepFirst(AllRows(chunks)));
    forall x | x in NewRows(chunks)
      ensures !HasKey(panel, KeyOf(x))
    {
      assert x in KeepFirst(AllRows(chunks));
      assert x in AllRows(chunks);
    }
    KeepFirstOfDisjoint(panel, NewRows(chunks));
  }

  lemma RebuiltKeepsKeys(merged: seq<Bar>, w: Window, panelMax: int, evidence: map<Key, bool>, rules: Rules)
    requires UniqueKeys(merged) && Covered(merged, w, evidence)
    ensures UniqueKeys(Rebuilt(merged, w, panelMax, evidence, rules))
  {
    var r := Rebuilt(merged, w, panelMax, evidence, rules);
    assert forall i :: 0 <= i < |r| ==> KeyOf(r[i]) == KeyOf(merged[i]);
  }

  lemma PrefixUnique(r: seq<Bar>, n: nat)
    requires UniqueKeys(r)
    ensures n <= |r| ==> UniqueKeys(r[..n])
  {
  }

  /** A written panel has unique keys and starts with the old rows, untouched exactly when their keys were unique. */
  lemma WrittenPanelKeepsHistory(
      panel: seq<Bar>, chunks: seq<ChunkFile>, w: Window, panelMax: int, evidence: map<Key, bool>, rules: Rules)
    requires Disjoint(panel, chunks, w, panelMax)
    requires Merge(panel, chunks, w, panelMax, evidence, rules).Written?
    ensures
      var r := Merge(panel, chunks, w, panelMax, evidence, rules).panel;
      var kept := |KeepFirst(panel)|;
      && UniqueKeys(r)
      && |r| == kept + |NewRows(chunks)|
      && r[..kept] == KeepFirst(panel)
      && (|r| >= |panel| && r[..|panel|] == panel <==> UniqueKeys(panel))
  {
    hide UniqueKeys, KeepFirst, NewRows, HasKey, Reflagged;
    MergedShape(panel, chunks, w, panelMax);
    KeepFirstOfUnique(panel);
    var merged := KeepFirst(panel + NewRows(chunks));
    RebuiltKeepsKeys(merged, w, panelMax, evidence, rules);
    var kept := |KeepFirst(panel)|;
    var r := Rebuilt(merged, w, panelMax, evidence, rules);
    forall i | 0 <= i < kept
      ensures r[i] == KeepFirst(panel)[i]
    {
      assert KeepFirst(panel)[i] in KeepFirst(panel);
      assert merged[i] == KeepFirst(panel)[i];
    }
    PrefixUnique(r, |panel|);
  }

  /** Every new row of a written panel is re-flagged from the evidence and its own previous close. */
  lemma WrittenPanelIsReflagged(
      panel: seq<Bar>, chunks: seq<ChunkFile>, w: Window, panelMax: int, evidence: map<Key, bool>, rules: Rules,
      i: nat)
    requires Disjoint(panel, chunks, w, panelMax)
    requires Merge(panel, chunks, w, panelMax, evidence, rules).Written?
    requires i < |NewRows(chunks)|
    ensures
      var r := Merge(panel, chunks, w, panelMax, evidence, rules).panel;
      var b := NewRows(chunks)[i];
      && |r| == |KeepFirst(panel)| + |NewRows(chunks)|
      && KeyOf(b) in evidence
      && r[|KeepFirst(panel)| + i]
        == Reflagged(KeepFirst(panel) + NewRows(chunks), b, w, panelMax, evidence[KeyOf(b)], rules)
  {
    hide UniqueKeys, HasKey, Reflagged, KeepFirst;
    MergedShape(panel, chunks, w, panelMax);
    var merged := KeepFirst(panel + NewRows(chunks));
    var b := NewRows(chunks)[i];
    assert merged[|KeepFirst(panel)| + i] == b;
    assert b in NewRows(chunks);
    assert b in KeepFirst(AllRows(chunks));
  }

  lemma {:induction false} FirstOfSymbol(rows: seq<Bar>, k: Key)
    ensures HasKey(rows, k) <==> HasKey(RowsOf(rows, k.0), k)
    ensures HasKey(rows, k) ==> First(rows, k) == First(RowsOf(rows, k.0), k)
  {
    if |rows| != 0 {
      var front, last := rows[..|rows| - 1], rows[|rows| - 1];
      assert rows == front + [last];
      FirstOfSymbol(front, k);
      if HasKey(front, k) {
        FirstOfConcat(front, [last], k);
        FirstOfConcat(RowsOf(front, k.0), [last], k);
      } else {
        FirstOfLater(front, last, k);
        FirstOfLater(RowsOf(front, k.0), last, k);
      }
    }
  }

  /**
   * Which rows of a completely staged symbol reach the panel: for each of its window dates, the first
   * row the vendor gave, if that row has a close; later rows of the same date never do.
   */
  lemma CompleteSymbolMerged(chunks: seq<ChunkFile>, rows: seq<Bar>, b: Bar)
    requires RowsOf(AllRows(chunks), b.symbol) == rows
    ensures b in NewRows(chunks) <==> HasKey(rows, KeyOf(b)) && First(rows, KeyOf(b)) == b && b.close.Some?
  {
    KeepFirstIsFirst(AllRows(chunks), b);
    FirstOfSymbol(AllRows(chunks), KeyOf(b));
  }

  /**
   * What a written panel says of one symbol in the window, given its staged rows: on each date the first row, if
   * that row has a close, and nothing else.
   */
  lemma PanelShowsStagedRows(
      panel: seq<Bar>, chunks: seq<ChunkFile>, w: Window, panelMax: int, evidence: map<Key, bool>, rules: Rules,
      s: Symbol, date: int)
    requires Disjoint(panel, chunks, w, panelMax) && w.start <= date <= w.end
    requires Merge(panel, chunks, w, panelMax, evidence, rules).Written?
    ensures
      var staged := RowsOf(AllRows(chunks), s);
      var r := Merge(panel, chunks, w, panelMax, evidence, rules).panel;
      && (HasKey(r, (s, date)) <==> HasKey(staged, (s, date)) && First(staged, (s, date)).close.Some?)
      && (HasKey(r, (s, date)) ==>
            First(r, (s, date)).close == First(staged, (s, date)).close &&
            First(r, (s, date)).volume == First(staged, (s, date)).volume)
  {
    var staged := RowsOf(AllRows(chunks), s);
    var k := (s, date);
    var r := Merge(panel, chunks, w, panelMax, evidence, rules).panel;
    hide Merge, RowsOf, AllRows, NewRows;
    if HasKey(r, k) {
      WindowRowIsNew(panel, chunks, w, panelMax, evidence, rules, First(r, k));
      var b :| b in NewRows(chunks) && KeyOf(b) == k && b.close == First(r, k).close && b.volume == First(r, k).volume;
      CompleteSymbolMerged(chunks, staged, b);
    }
    if HasKey(staged, k) && First(staged, k).close.Some? {
      CompleteSymbolMerged(chunks, staged, First(staged, k));
      NewRowIsWritten(panel, chunks, w, panelMax, evidence, rules, First(staged, k));
    }
  }

  lemma NewRowIsWritten(
      panel: seq<Bar>, chunks: seq<ChunkFile>, w: Window, panelMax: int, evidence: map<Key, bool>, rules: Rules,
      b: Bar)
    requires Disjoint(panel, chunks, w, panelMax)
    requires Merge(panel, chunks, w, panelMax, evidence, rules).Written?
    requires b in NewRows(chunks)
    ensures HasKey(Merge(panel, chunks, w, panelMax, evidence, rules).panel, KeyOf(b))
  {
    var i :| 0 <= i < |NewRows(chunks)| && NewRows(chunks)[i] == b;
    WrittenPanelIsReflagged(panel, chunks, w, panelMax, evidence, rules, i);
    var r := Merge(panel, chunks, w, panelMax, evidence, rules).panel;
    hide Merge, NewRows, KeepFirst;
    assert r[|KeepFirst(panel)| + i] in r;
  }

  lemma KeptRowIsOld(panel: seq<Bar>, r: seq<Bar>, j: int)
    requires 0 <= j < |KeepFirst(panel)| <= |r| && r[..|KeepFirst(panel)|] == KeepFirst(panel)
    ensures r[j] in panel
  {
    assert r[j] == r[..|KeepFirst(panel)|][j] == KeepFirst(panel)[j];
    assert KeepFirst(panel)[j] in KeepFirst(panel);
  }

  lemma ReflaggedKeepsRow(merged: seq<Bar>, b: Bar, w: Window, panelMax: int, st: bool, rules: Rules)
    ensures
      var r := Reflagged(merged, b, w, panelMax, st, rules);
      KeyOf(r) == KeyOf(b) && r.close == b.close && r.volume == b.volume
  {
  }

  lemma WindowRowIsNew(
      panel: seq<Bar>, chunks: seq<ChunkFile>, w: Window, panelMax: int, evidence: map<Key, bool>, rules: Rules,
      x: Bar)
    requires Disjoint(panel, chunks, w, panelMax)
    requires Merge(panel, chunks, w, panelMax, evidence, rules).Written?
    requires x in Merge(panel, chunks, w, panelMax, evidence, rules).panel && w.start <= x.date
    ensures exists b :: b in NewRows(chunks) && KeyOf(b) == KeyOf(x) && b.close == x.close && b.volume == x.volume
  {
    hide Merge, NewRows, KeepFirst, UniqueKeys, Reflagged;
    var r := Merge(panel, chunks, w, panelMax, evidence, rules).panel;
    WrittenPanelKeepsHistory(panel, chunks, w, panelMax, evidence, rules);
    var kept := |KeepFirst(panel)|;
    var j :| 0 <= j < |r| && r[j] == x;
    if j < kept {
      KeptRowIsOld(panel, r, j);
      assert false;
    }
    WrittenPanelIsReflagged(panel, chunks, w, panelMax, evidence, rules, j - kept);
    var b := NewRows(chunks)[j - kept];
    assert b in NewRows(chunks);
    ReflaggedKeepsRow(KeepFirst(panel) + NewRows(chunks), b, w, panelMax, evidence[KeyOf(b)], rules);
  }

  // ----- from restarts to the panel

  predicate InWindow(rows: seq<Bar>, w: Window) {
    forall b :: b in rows ==> w.start <= b.date <= w.end
  }

  /** Staged rows always lie in the window, whatever crashes. */
  lemma {:induction false} StagedRowsInWindow(
      st: Staging, todo: seq<Symbol>, k: nat, run: Run, vendor: Symbol -> seq<Quote>, w: Window)
    requires InWindow(AllRows(st.chunks), w)
    ensures InWindow(AllRows(StageFrom(st, todo, k, run, vendor, w).chunks), w)
    decreases |todo|
  {
    hide AllRows, Put, BatchRows;
    if |todo| != 0 {
      var n := if |todo| < CHUNK then |todo| else CHUNK;
      PutRows(st.chunks, ChunkFile(k, run.clock(k), None));
      PutRows(st.chunks, ChunkFile(k, run.clock(k), Some(BatchRows(todo[..n], run.failing, vendor, w))));
      if !(run.crash.Some? && run.crash.value.0 == k) {
        StagedRowsInWindow(StageBatch(st, k, run.clock(k), todo[..n], run.failing, vendor, w, AfterChunk),
          todo[n..], k + 1, run, vendor, w);
      }
    }
  }

  lemma {:induction false} RunsStageOnlyTheWindow(
      st: Staging, seed: seq<Symbol>, runs: seq<Run>, vendor: Symbol -> seq<Quote>, w: Window)
    requires InWindow(AllRows(st.chunks), w)
    ensures InWindow(AllRows(RunAll(st, seed, runs, vendor, w).chunks), w)
  {
    hide InWindow, StageFrom, Todo;
    if |runs| != 0 {
      var n := |runs| - 1;
      RunsStageOnlyTheWindow(st, seed, runs[..n], vendor, w);
      var last := RunAll(st, seed, runs[..n], vendor, w);
      ReadableSame(last);
      StagedRowsInWindow(Readable(last), Todo(seed, DoneSymbols(Readable(last))), 0, runs[n], vendor, w);
    }
  }

  /** The staging directory before the last of the runs, and after it, starting from an empty one. */
  function BeforeLast(seed: seq<Symbol>, runs: seq<Run>, vendor: Symbol -> seq<Quote>, w: Window): Staging
    requires |runs| > 0
  {
    RunAll(Staging(map[], []), seed, runs[..|runs| - 1], vendor, w)
  }

  function Staged(seed: seq<Symbol>, runs: seq<Run>, vendor: Symbol -> seq<Quote>, w: Window): Staging {
    RunAll(Staging(map[], []), seed, runs, vendor, w)
  }

  /** The panel ends on panelMax, the day before the window at the latest. */
  predicate EndsBefore(panel: seq<Bar>, w: Window, panelMax: int) {
    panelMax < w.start && forall b :: b in panel ==> b.date <= panelMax
  }

  lemma RunsAreDisjoint(
      panel: seq<Bar>, seed: seq<Symbol>, runs: seq<Run>, vendor: Symbol -> seq<Quote>, w: Window, panelMax: int)
    requires EndsBefore(panel, w, panelMax)
    ensures Disjoint(panel, Staged(seed, runs, vendor, w).chunks, w, panelMax)
  {
    RunsStageOnlyTheWindow(Staging(map[], []), seed, runs, vendor, w);
  }

  /** What the last run, which finishes, leaves staged of one symbol. */
  lemma StagedOf(seed: seq<Symbol>, runs: seq<Run>, vendor: Symbol -> seq<Quote>, w: Window, s: Symbol)
    requires NoDuplicates(seed) && Restarts(runs) && |runs| > 0 && runs[|runs| - 1].crash.None?
    ensures RowsOf(AllRows(Staged(seed, runs, vendor, w).chunks), s)
         == if Obtained(BeforeLast(seed, runs, vendor, w), seed, runs[|runs| - 1], s)
            then Fetched(s, vendor(s), w) else []
  {
    hide AllOrNothing, Obtained, Fetched, RunOnce;
    var n := |runs| - 1;
    NothingStaged(vendor, w);
    RunsStageAllOrNothing(Staging(map[], []), seed, runs[..n], vendor, w);
    assert Restarts(runs[..n]);
    FinishedRunRows(BeforeLast(seed, runs, vendor, w), seed, runs[n], vendor, w, s);
  }

  /**
   * From an empty directory to the panel, over any runs, crashes and restarts of which the last finishes and whose
   * merge writes: keys are unique, the old rows come first (unchanged when their keys were unique), and the panel
   * holds a symbol's row of a window date exactly when the symbol was obtained and the first row the vendor quotes
   * for that date has a close, which it then shows.
   */
  lemma RunsFillPanel(
      panel: seq<Bar>, seed: seq<Symbol>, runs: seq<Run>, vendor: Symbol -> seq<Quote>, w: Window,
      panelMax: int, evidence: map<Key, bool>, rules: Rules, s: Symbol, date: int)
    requires NoDuplicates(seed) && Restarts(runs) && |runs| > 0 && runs[|runs| - 1].crash.None?
    requires EndsBefore(panel, w, panelMax) && w.start <= date <= w.end
    requires Merge(panel, Staged(seed, runs, vendor, w).chunks, w, panelMax, evidence, rules).Written?
    ensures
      var quoted := Fetched(s, vendor(s), w);
      var obtained := Obtained(BeforeLast(seed, runs, vendor, w), seed, runs[|runs| - 1], s);
      var r := Merge(panel, Staged(seed, runs, vendor, w).chunks, w, panelMax, evidence, rules).panel;
      && UniqueKeys(r)
      && KeepFirst(panel) <= r
      && (UniqueKeys(panel) ==> panel <= r)
      && (HasKey(r, (s, date)) <==> obtained && HasKey(quoted, (s, date)) && First(quoted, (s, date)).close.Some?)
      && (HasKey(r, (s, date)) ==>
            First(r, (s, date)).close == First(quoted, (s, date)).close &&
            First(r, (s, date)).volume == First(quoted, (s, date)).volume)
  {
    hide Merge, Staged, BeforeLast, Obtained, Fetched, RowsOf, AllRows, Disjoint, UniqueKeys, KeepFirst;
    var chunks := Staged(seed, runs, vendor, w).chunks;
    RunsAreDisjoint(panel, seed, runs, vendor, w, panelMax);
    StagedOf(seed, runs, vendor, w, s);
    PanelShowsStagedRows(panel, chunks, w, panelMax, evidence, rules, s, date);
    WrittenPanelKeepsHistory(panel, chunks, w, panelMax, evidence, rules);
    KeepFirstOfUnique(panel);
  }

  /**
   * When no run dies between a done file and its chunk file, nothing is lost: the panel then holds every quoted row
   * of every symbol that an earlier run had done or the last run could fetch.
   */
  lemma PairsKeptFillPanel(
      panel: seq<Bar>, seed: seq<Symbol>, runs: seq<Run>, vendor: Symbol -> seq<Quote>, w: Window,
      panelMax: int, evidence: map<Key, bool>, rules: Rules, s: Symbol, date: int)
    requires NoDuplicates(seed) && InOrder(runs) && |runs| > 0 && runs[|runs| - 1].crash.None?
    requires EndsBefore(panel, w, panelMax) && w.start <= date <= w.end
    requires Merge(panel, Staged(seed, runs, vendor, w).chunks, w, panelMax, evidence, rules).Written?
    ensures
      var quoted := Fetched(s, vendor(s), w);
      var r := Merge(panel, Staged(seed, runs, vendor, w).chunks, w, panelMax, evidence, rules).panel;
      HasKey(r, (s, date)) <==>
        && (s in DoneSymbols(BeforeLast(seed, runs, vendor, w)) || (s in seed && s !in runs[|runs| - 1].failing))
        && HasKey(quoted, (s, date)) && First(quoted, (s, date)).close.Some?
  {
    hide Merge, Fetched, RowsOf, AllRows, Disjoint, UniqueKeys, KeepFirst, Complete, RunOnce, DoneSymbols;
    var n := |runs| - 1;
    NothingStaged(vendor, w);
    assert InOrder(runs[..n]);
    RunsStayComplete(Staging(map[], []), seed, runs[..n], vendor, w);
    FinishedRunHasEverySeed(BeforeLast(seed, runs, vendor, w), seed, runs[n], vendor, w, s);
    RunsAreDisjoint(panel, seed, runs, vendor, w, panelMax);
    PanelShowsStagedRows(panel, Staged(seed, runs, vendor, w).chunks, w, panelMax, evidence, rules, s, date);
  }

  // ----- when the merge raises

  lemma AllRowsKept(rows: seq<Bar>)
    ensures KeepFirst(rows) == [] <==> rows == []
  {
    if rows != [] {
      assert rows[0] in rows && HasKey(rows, KeyOf(rows[0]));
    }
  }

  /** The merge raises exactly when rows are staged but the first row of none of their dates has a close. */
  lemma MergeRaisesIff(
      panel: seq<Bar>, chunks: seq<ChunkFile>, w: Window, panelMax: int, evidence: map<Key, bool>, rules: Rules)
    requires Disjoint(panel, chunks, w, panelMax)
    ensures Merge(panel, chunks, w, panelMax, evidence, rules).Raised? <==>
      && AllRows(chunks) != []
      && forall b :: b in AllRows(chunks) ==> First(AllRows(chunks), KeyOf(b)).close.None?
  {
    hide KeepFirst, First, UniqueKeys, Rebuilt;
    var rows, added := AllRows(chunks), NewRows(chunks);
    AllRowsKept(rows);
    MergedShape(panel, chunks, w, panelMax);
    forall b | b in rows
      ensures HasKey(rows, KeyOf(b))
      ensures First(rows, KeyOf(b)).close.Some? ==> First(rows, KeyOf(b)) in added
    {
      assert KeyOf(b) == KeyOf(b);
      KeepFirstIsFirst(rows, First(rows, KeyOf(b)));
    }
    if added == [] {
      NoWindowRow(panel, w, panelMax);
      assert KeepFirst(panel) + [] == KeepFirst(panel);
    } else {
      var b := added[0];
      assert b in added;
      KeepFirstIsFirst(rows, b);
      assert b in KeepFirst(rows);
      assert b in rows && First(rows, KeyOf(b)) == b;
      assert b in KeepFirst(panel) + added;
    }
  }

  /** The runs obtained the symbol and the vendor quotes it in the window. */
  predicate GivesRows(seed: seq<Symbol>, runs: seq<Run>, vendor: Symbol -> seq<Quote>, w: Window, s: Symbol)
    requires |runs| > 0
  {
    Obtained(BeforeLast(seed, runs, vendor, w), seed, runs[|runs| - 1], s) && Fetched(s, vendor(s), w) != []
  }

  /** ... and its first row of that date has a close. */
  predicate GivesClose(seed: seq<Symbol>, runs: seq<Run>, vendor: Symbol -> seq<Quote>, w: Window, k: Key)
    requires |runs| > 0
  {
    var quoted := Fetched(k.0, vendor(k.0), w);
    && Obtained(BeforeLast(seed, runs, vendor, w), seed, runs[|runs| - 1], k.0)
    && HasKey(quoted, k) && First(quoted, k).close.Some?
  }

  lemma StagedGives(seed: seq<Symbol>, runs: seq<Run>, vendor: Symbol -> seq<Quote>, w: Window, k: Key)
    requires NoDuplicates(seed) && Restarts(runs) && |runs| > 0 && runs[|runs| - 1].crash.None?
    ensures
      var rows := AllRows(Staged(seed, runs, vendor, w).chunks);
      && (GivesRows(seed, runs, vendor, w, k.0) <==> exists b :: b in rows && b.symbol == k.0)
      && (GivesClose(seed, runs, vendor, w, k) <==> HasKey(rows, k) && First(rows, k).close.Some?)
  {
    hide Obtained, Fetched, RowsOf, AllRows, Staged, BeforeLast, First, NoDuplicates, Restarts;
    var rows := AllRows(Staged(seed, runs, vendor, w).chunks);
    StagedOf(seed, runs, vendor, w, k.0);
    FirstOfSymbol(rows, k);
    var own := RowsOf(rows, k.0);
    if own != [] {
      assert own[0] in own;
    }
    NothingHeld(k);
  }

  lemma NothingHeld(k: Key)
    ensures !HasKey([], k)
  {
  }

  /**
   * Over any runs and restarts the merge raises exactly when some obtained symbol has rows in the window but no
   * obtained symbol's first row of any date has a close.
   */
  lemma RunsRaiseIff(
      panel: seq<Bar>, seed: seq<Symbol>, runs: seq<Run>, vendor: Symbol -> seq<Quote>, w: Window,
      panelMax: int, evidence: map<Key, bool>, rules: Rules)
    requires NoDuplicates(seed) && Restarts(runs) && |runs| > 0 && runs[|runs| - 1].crash.None?
    requires EndsBefore(panel, w, panelMax)
    ensures Merge(panel, Staged(seed, runs, vendor, w).chunks, w, panelMax, evidence, rules).Raised? <==>
      && (exists s :: GivesRows(seed, runs, vendor, w, s))
      && (forall k :: !GivesClose(seed, runs, vendor, w, k))
  {
    hide Merge, Staged, GivesRows, GivesClose, AllRows, First, NoDuplicates, Restarts;
    var chunks := Staged(seed, runs, vendor, w).chunks;
    var rows := AllRows(chunks);
    RunsAreDisjoint(panel, seed, runs, vendor, w, panelMax);
    MergeRaisesIff(panel, chunks, w, panelMax, evidence, rules);
    if rows != [] {
      StagedGives(seed, runs, vendor, w, (rows[0].symbol, 0));
      assert rows[0] in rows;
    }
    forall s | GivesRows(seed, runs, vendor, w, s)
      ensures rows != []
    {
      StagedGives(seed, runs, vendor, w, (s, 0));
    }
    forall k
      ensures GivesClose(seed, runs, vendor, w, k) <==> HasKey(rows, k) && First(rows, k).close.Some?
    {
      StagedGives(seed, runs, vendor, w, k);
    }
    forall b | b in rows
      ensures HasKey(rows, KeyOf(b))
    {
    }
  }

  /** Evidence for every staged row and one first row with a close are enough for the merge to write. */
  lemma CoveredMergeWrites(
      panel: seq<Bar>, chunks: seq<ChunkFile>, w: Window, panelMax: int, evidence: map<Key, bool>, rules: Rules, k: Key)
    requires Disjoint(panel, chunks, w, panelMax)
    requires forall b :: b in AllRows(chunks) ==> KeyOf(b) in evidence
    requires HasKey(AllRows(chunks), k) && First(AllRows(chunks), k).close.Some?
    ensures Merge(panel, chunks, w, panelMax, evidence, rules).Written?
  {
    hide First, UniqueKeys, Rebuilt, AllRows, KeepFirst, NewRows, Covered, HoldsWindowRow, HasKey;
    var b := First(AllRows(chunks), k);
    assert b in AllRows(chunks) && KeyOf(b) == k;
    MergeRaisesIff(panel, chunks, w, panelMax, evidence, rules);
    AllRowsKept(AllRows(chunks));
    MergedShape(panel, chunks, w, panelMax);
    NewRowsCovered(chunks, evidence);
    MergedCovered(panel, NewRows(chunks), w, panelMax, evidence);
  }

  lemma NewRowsCovered(chunks: seq<ChunkFile>, evidence: map<Key, bool>)
    requires forall b :: b in AllRows(chunks) ==> KeyOf(b) in evidence
    ensures forall b :: b in NewRows(chunks) ==> KeyOf(b) in evidence
  {
    hide AllRows;
    assert forall b :: b in NewRows(chunks) ==> b in KeepFirst(AllRows(chunks));
  }

  lemma MergedCovered(panel: seq<Bar>, added: seq<Bar>, w: Window, panelMax: int, evidence: map<Key, bool>)
    requires EndsBefore(panel, w, panelMax) && forall b :: b in added ==> KeyOf(b) in evidence
    ensures Covered(KeepFirst(panel) + added, w, evidence)
  {
    assert forall b :: b in KeepFirst(panel) ==> b in panel;
  }

  lemma NoWindowRow(panel: seq<Bar>, w: Window, panelMax: int)
    requires EndsBefore(panel, w, panelMax)
    ensures !HoldsWindowRow(KeepFirst(panel), w)
  {
    assert forall b :: b in KeepFirst(panel) ==> b in panel;
  }

  /**
   * When every seed symbol is already named or staged, a restart fetches nothing and meets the same outcome: a
   * refused or raised merge repeats until evidence, vendor or window change.
   */
  lemma RestartRepeatsOutcome(
      panel: seq<Bar>, st: Staging, seed: seq<Symbol>, run: Run, vendor: Symbol -> seq<Quote>, w: Window,
      panelMax: int, evidence: map<Key, bool>, rules: Rules)
    requires forall s :: s in seed ==> s in DoneSymbols(st)
    ensures Merge(panel, RunOnce(st, seed, run, vendor, w).chunks, w, panelMax, evidence, rules)
         == Merge(panel, st.chunks, w, panelMax, evidence, rules)
  {
    hide KeepFirst, Rebuilt, Covered, Readable;
    ReadableSame(st);
    var todo := Todo(seed, DoneSymbols(Readable(st)));
    NobodyToDo(todo, seed, st);
  }

  lemma FirstIsHeld(s: seq<Symbol>)
    requires s != []
    ensures s[0] in s
  {
  }

  lemma NobodyToDo(todo: seq<Symbol>, seed: seq<Symbol>, st: Staging)
    requires forall s :: s in todo ==> s in seed && s !in DoneSymbols(st)
    requires forall s :: s in seed ==> s in DoneSymbols(st)
    ensures todo == []
  {
    if todo != [] {
      FirstIsHeld(todo);
    }
  }
}
