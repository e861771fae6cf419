/** Two small catch-ups: one whose merge raises, and one in which a single crash drops a stock for good. */
module CatchUpExamples {
  import opened Options
  import opened CatchUp
  import opened PanelMerge
  import opened Universe

  const ONE := "000001"
  const TWO := "000002"

  function Row(s: Symbol): Bar {
    Bar(s, 0, Some(10.0), Some(100.0), None)
  }

  function Whole(at: int, failing: set<Symbol>): Run {
    Run(failing, k => at, at, at, None)
  }

  lemma LastIsZero(panel: seq<Bar>)
    requires panel != [] && forall b :: b in panel ==> b.date == 0
    ensures LastDate(panel) == 0 && EndsBefore(panel, CatchUp.Window(1, 1), 0)
  {
  }

  lemma QuoteInWindow(s: Symbol, q: Quote)
    requires q.date == 1
    ensures Fetched(s, [q], CatchUp.Window(1, 1))
         == [Bar(s, 1, q.close, if q.lots.Some? then Some(q.lots.value * 100.0) else None, None)]
  {
    assert [q][..0] == [];
    assert Fetched(s, [], CatchUp.Window(1, 1)) == [];
  }

  lemma OneKey(b: Bar)
    ensures HasKey([b], KeyOf(b)) && First([b], KeyOf(b)) == b
  {
    assert b in [b];
  }

  lemma NothingBefore(seed: seq<Symbol>, runs: seq<Run>, vendor: Symbol -> seq<Quote>, w: Window)
    requires |runs| == 1
    ensures BeforeLast(seed, runs, vendor, w) == Staging(map[], [])
    ensures DoneSymbols(Staging(map[], [])) == {}
  {
    assert runs[..0] == [];
  }

  // ----- a merge that raises

  const ONE_ROW := [Row(ONE)]

  /** One stock, which the vendor quotes without a close. */
  function WithoutClose(evidence: map<Key, bool>): Period {
    Period(1, [Whole(0, {})], s => [Quote(1, None, Some(1.0))], evidence)
  }

  /** One run that finishes raises when the vendor gives a followed stock rows, but no stock a close. */
  lemma NoCloseRaises(panel: seq<Bar>, p: Period, rules: Rules, s: Symbol)
    requires panel != [] && p.Valid() && |p.runs| == 1
    requires Followed(panel, s) && s !in p.runs[0].failing && Fetched(s, p.vendor(s), p.Window(panel)) != []
    requires forall x, b :: b in Fetched(x, p.vendor(x), p.Window(panel)) ==> b.close.None?
    ensures p.Outcome(panel, rules).Raised?
  {
    hide LastDate, Fetched, RunAll, Merge, Staged, BeforeLast, DoneSymbols, NoDuplicates, Restarts, Followed;
    var seed, w := Seed(panel), p.Window(panel);
    NothingBefore(seed, p.runs, p.vendor, w);
    assert GivesRows(seed, p.runs, p.vendor, w, s);
    RunsRaiseIff(panel, seed, p.runs, p.vendor, w, LastDate(panel), p.evidence, rules);
  }

  /** A vendor row without a close, from one run that finishes to the error. */
  lemma QuoteWithoutCloseRaises(evidence: map<Key, bool>, rules: Rules)
    ensures WithoutClose(evidence).Valid() && WithoutClose(evidence).Outcome(ONE_ROW, rules).Raised?
  {
    var p := WithoutClose(evidence);
    OneKey(Row(ONE));
    LastIsZero(ONE_ROW);
    hide LastDate, Fetched, Period.Outcome, HasKey, ONE;
    assert ONE_ROW == [Row(ONE)];
    forall x
      ensures Fetched(x, p.vendor(x), CatchUp.Window(1, 1)) == [Bar(x, 1, None, Some(100.0), None)]
    {
      QuoteInWindow(x, Quote(1, None, Some(1.0)));
    }
    NoCloseRaises(ONE_ROW, p, rules, ONE);
  }

  // ----- a crash that drops a stock

  const TWO_ROWS := [Row(ONE), Row(TWO)]

  /** Fetches one stock, fails on the other and dies between the two files. */
  function Dies(): Run {
    Whole(0, {TWO}).(crash := Some((0, BetweenDoneAndChunk)))
  }

  /** A run that dies that way, and one that finishes. */
  function WithCrash(evidence: map<Key, bool>): Period {
    Period(1, [Dies(), Whole(1, {})], s => [Quote(1, Some(10.0), Some(1.0))], evidence)
  }

  lemma BothFollowed()
    ensures LastDate(TWO_ROWS) == 0
    ensures Seed(TWO_ROWS) == [ONE, TWO]
  {
    LastIsZero(TWO_ROWS);
    assert TWO_ROWS[..1] == [Row(ONE)] && [Row(ONE)][..0] == [];
    assert SymbolsOn([], 0) == [];
    assert Inserted([], ONE) == [ONE];
    assert SymbolsOn([Row(ONE)], 0) == [ONE];
    OneBeforeTwo();
    assert Inserted([ONE], TWO) == [ONE, TWO];
  }

  lemma OneBeforeTwo()
    ensures Precedes(ONE, TWO) && ONE != TWO
  {
    assert Precedes("1", "2");
    assert Precedes("01", "02");
    assert Precedes("001", "002");
    assert Precedes("0001", "0002");
    assert Precedes("00001", "00002");
    assert ONE[5] != TWO[5];
  }

  lemma BothToDo(a: Symbol, b: Symbol)
    ensures Todo([a, b], {}) == [a, b]
  {
    assert [a, b][..1] == [a] && [a][..0] == [];
    assert Todo([], {}) == [] && Todo([a], {}) == [a];
  }

  lemma DeathBatch(
      batch: seq<Symbol>, failing: set<Symbol>, a: Symbol, second: int, vendor: Symbol -> seq<Quote>, w: Window)
    requires forall s :: s in batch && s !in failing <==> s == a
    ensures StageBatch(Staging(map[], []), 0, second, batch, failing, vendor, w, BetweenDoneAndChunk)
         == Staging(map[0 := Some({a})], [])
  {
    hide BatchRows, Put;
    var done := set s | s in batch && s !in failing;
    assert done == {a};
  }

  /** A run that dies so leaves a done file that names the first stock, and no chunk file. */
  lemma AfterDeath(a: Symbol, b: Symbol, run: Run, vendor: Symbol -> seq<Quote>, w: Window)
    requires a != b && run.failing == {b} && run.crash == Some((0, BetweenDoneAndChunk))
    ensures RunOnce(Staging(map[], []), [a, b], run, vendor, w) == Staging(map[0 := Some({a})], [])
  {
    hide StageBatch;
    var empty := Staging(map[], []);
    BothToDo(a, b);
    DeathBatch([a, b], {b}, a, run.clock(0), vendor, w);
    assert DoneSymbols(empty) == {};
    assert Readable(empty) == empty;
    hide DoneSymbols, Readable, Todo;
    assert [a, b][..2] == [a, b];
  }

  lemma NamesOne(a: Symbol)
    ensures DoneSymbols(Staging(map[0 := Some({a})], [])) == {a}
  {
    var done := map[0 := Some({a})];
    forall s
      ensures s in Listed(done) <==> s == a
    {
      assert 0 in done && done[0].Some? && a in done[0].value;
    }
  }

  lemma OneRun(st: Staging, seed: seq<Symbol>, run: Run, vendor: Symbol -> seq<Quote>, w: Window)
    ensures RunAll(st, seed, [run], vendor, w) == RunOnce(st, seed, run, vendor, w)
  {
    hide RunOnce;
    assert [run][..0] == [];
    assert RunAll(st, seed, [], vendor, w) == st;
  }

  lemma BeforeSecond(evidence: map<Key, bool>)
    ensures
      var p := WithCrash(evidence);
      BeforeLast([ONE, TWO], p.runs, p.vendor, CatchUp.Window(1, 1)) == Staging(map[0 := Some({ONE})], [])
  {
    var p := WithCrash(evidence);
    OneBeforeTwo();
    assert p.runs[..1] == [Dies()] && Dies().failing == {TWO};
    hide RunOnce, RunAll, ONE, TWO;
    AfterDeath(ONE, TWO, Dies(), p.vendor, CatchUp.Window(1, 1));
    OneRun(Staging(map[], []), [ONE, TWO], Dies(), p.vendor, CatchUp.Window(1, 1));
  }

  lemma CrashSplitsAway(evidence: map<Key, bool>)
    ensures WithCrash(evidence).Valid()
    ensures SplitsAway([ONE, TWO], WithCrash(evidence), CatchUp.Window(1, 1), 0, ONE)
  {
    OneBeforeTwo();
    hide RunOnce, ONE, TWO;
    var p, w, empty := WithCrash(evidence), CatchUp.Window(1, 1), Staging(map[], []);
    BothToDo(ONE, TWO);
    assert DoneSymbols(empty) == {};
    assert p.runs[..0] == [] && p.runs[1..1] == [];
    hide DoneSymbols, Todo;
    assert BeforeRun([ONE, TWO], p, w, 0) == empty;
    assert HoldsAt([ONE, TWO], 0, ONE) by {
      assert [ONE, TWO][0] == ONE;
    }
    NoRuns(BeforeRun([ONE, TWO], p, w, 1), [ONE, TWO], p.vendor, w, 0, ONE);
  }

  lemma SecondIsGiven(evidence: map<Key, bool>)
    ensures GivesClose([ONE, TWO], WithCrash(evidence).runs, WithCrash(evidence).vendor, CatchUp.Window(1, 1), (TWO, 1))
  {
    var p, w := WithCrash(evidence), CatchUp.Window(1, 1);
    OneBeforeTwo();
    hide ONE, TWO;
    BeforeSecond(evidence);
    NamesOne(ONE);
    QuoteInWindow(TWO, Quote(1, Some(10.0), Some(1.0)));
    OneKey(Bar(TWO, 1, Some(10.0), Some(100.0), None));
    hide DoneSymbols, BeforeLast, Fetched, First, HasKey;
    assert TWO in [ONE, TWO];
  }

  lemma CrashStillWrites(evidence: map<Key, bool>, rules: Rules)
    requires (ONE, 1) in evidence && (TWO, 1) in evidence
    ensures
      var p := WithCrash(evidence);
      && p.Outcome(TWO_ROWS, rules).Written?
      && p.After(TWO_ROWS, rules) != [] && Followed(p.After(TWO_ROWS, rules), TWO)
  {
    BothFollowed();
    CrashSplitsAway(evidence);
    SecondIsGiven(evidence);
    var p := WithCrash(evidence);
    hide Obtained, BeforeLast, LastDate, Merge, Staged, SplitsAway, ONE, TWO, Fetched, First, HasKey;
    assert forall s :: Followed(TWO_ROWS, s) ==> s in [ONE, TWO];
    CoveredPeriodWrites(TWO_ROWS, p, rules, (TWO, 1));
    WrittenLastDate(TWO_ROWS, p, rules);
    FollowedNextIff(TWO_ROWS, p, rules, TWO);
  }

  /**
   * Two stocks, one crash: the restart finishes and its merge writes the second stock only, so no later window, however
   * many follow, fetches the first one again.
   */
  lemma OneCrashDropsStock(evidence: map<Key, bool>, rules: Rules, later: seq<Period>)
    requires (ONE, 1) in evidence && (TWO, 1) in evidence && AllValid(later)
    ensures
      var p := WithCrash(evidence);
      && Followed(TWO_ROWS, ONE) && Followed(TWO_ROWS, TWO)
      && p.Valid() && p.Outcome(TWO_ROWS, rules).Written?
      && p.After(TWO_ROWS, rules) != [] && Followed(p.After(TWO_ROWS, rules), TWO)
      && !Followed(PanelAfter(TWO_ROWS, [p] + later, rules), ONE)
  {
    BothFollowed();
    CrashStillWrites(evidence, rules);
    CrashSplitsAway(evidence);
    var p := WithCrash(evidence);
    hide PanelAfter, SplitsAway, Followed, LastDate, Period.Outcome, Period.Valid, ONE, TWO, WithCrash;
    assert ONE in Seed(TWO_ROWS) && TWO in Seed(TWO_ROWS);
    hide TWO_ROWS;
    var all := [p] + later;
    AllValidConcat(p, later);
    assert all[..0] == [] && all[0] == p;
    NoPeriods(TWO_ROWS, rules);
    SplitCrashRemovesForGood(TWO_ROWS, all, rules, 0, 0, ONE);
  }

  lemma NoPeriods(panel: seq<Bar>, rules: Rules)
    requires panel != []
    ensures PanelAfter(panel, [], rules) == panel && AllValid([])
  {
  }

  lemma AllValidConcat(p: Period, later: seq<Period>)
    requires p.Valid() && AllValid(later)
    ensures AllValid([p] + later)
  {
    hide Period.Valid;
  }
}
