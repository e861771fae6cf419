/** Which symbols the catch-up follows from window to window: those with a row on the panel's last date. */
module Universe {
  import opened Options
  import opened CatchUp
  import opened PanelMerge

  /** The panel's last date. */
  function LastDate(panel: seq<Bar>): (d: int)
    requires panel != []
    ensures forall b :: b in panel ==> b.date <= d
    ensures exists b :: b in panel && b.date == d
  {
    var n := |panel| - 1;
    assert panel[n] in panel;
    assert panel == panel[..n] + [panel[n]];
    assert forall b :: b in panel <==> b in panel[..n] || b == panel[n];
    if n == 0 then panel[n].date
    else
      var d := LastDate(panel[..n]);
      if panel[n].date < d then d else panel[n].date
  }

  /** Python's order on strings. */
  predicate Precedes(a: string, b: string) {
    if b == "" then false
    else if a == "" then true
    else if a[0] != b[0] then a[0] < b[0]
    else Precedes(a[1..], b[1..])
  }

  lemma {:induction false} PrecedesIsOrder(a: string, b: string, c: string)
    ensures !Precedes(a, a)
    ensures a == b || Precedes(a, b) || Precedes(b, a)
    ensures Precedes(a, b) && Precedes(b, c) ==> Precedes(a, c)
  {
    if a != "" {
      PrecedesIsOrder(a[1..], if b != "" then b[1..] else "", if c != "" then c[1..] else "");
      assert a == [a[0]] + a[1..];
      assert b != "" ==> b == [b[0]] + b[1..];
    }
  }

  ghost predicate Ascending(s: seq<Symbol>) {
    forall i, j :: 0 <= i < j < |s| ==> Precedes(s[i], s[j])
  }

  lemma AscendingIsUnique(s: seq<Symbol>)
    requires Ascending(s)
    ensures NoDuplicates(s)
  {
    forall i, j | 0 <= i < j < |s|
      ensures s[i] != s[j]
    {
      PrecedesIsOrder(s[i], s[i], s[i]);
    }
  }

  /** Insert a symbol in its place, unless it is there already. */
  function Inserted(s: seq<Symbol>, x: Symbol): (r: seq<Symbol>)
    requires Ascending(s)
    ensures forall y :: y in r <==> y in s || y == x
    ensures Ascending(r)
  {
    if s == [] then [x]
    else
      var n := |s| - 1;
      PrecedesIsOrder(s[n], x, x);
      assert s == s[..n] + [s[n]];
      if s[n] == x then s
      else if Precedes(s[n], x) then
        AscendingAppend(s, x);
        s + [x]
      else
        AscendingSplit(s[..n], s[n]);
        AscendingJoin(Inserted(s[..n], x), s[n]);
        Inserted(s[..n], x) + [s[n]]
  }

  lemma AscendingSplit(s: seq<Symbol>, last: Symbol)
    requires Ascending(s + [last])
    ensures Ascending(s) && forall y :: y in s ==> Precedes(y, last)
  {
    var t := s + [last];
    forall i, j | 0 <= i < j < |s|
      ensures Precedes(s[i], s[j])
    {
      assert t[i] == s[i] && t[j] == s[j];
    }
    forall y | y in s
      ensures Precedes(y, last)
    {
      var i :| 0 <= i < |s| && s[i] == y;
      assert t[i] == y && t[|s|] == last;
    }
  }

  lemma AscendingJoin(s: seq<Symbol>, last: Symbol)
    requires Ascending(s) && forall y :: y in s ==> Precedes(y, last)
    ensures Ascending(s + [last])
  {
    forall i | 0 <= i < |s|
      ensures Precedes(s[i], last)
    {
      assert s[i] in s;
    }
  }

  lemma AscendingAppend(s: seq<Symbol>, x: Symbol)
    requires s != [] && Ascending(s) && Precedes(s[|s| - 1], x)
    ensures Ascending(s + [x])
  {
    forall i | 0 <= i < |s|
      ensures Precedes(s[i], x)
    {
      PrecedesIsOrder(s[i], s[|s| - 1], x);
    }
  }

  /** The symbols of a date's rows, sorted and once each. */
  function SymbolsOn(rows: seq<Bar>, date: int): (r: seq<Symbol>)
    ensures forall s :: s in r <==> HasKey(rows, (s, date))
    ensures Ascending(r)
  {
    if rows == [] then []
    else
      var n := |rows| - 1;
      var r := SymbolsOn(rows[..n], date);
      HasKeyAppend(rows[..n], rows[n]);
      assert rows == rows[..n] + [rows[n]];
      if rows[n].date == date then Inserted(r, rows[n].symbol) else r
  }

  /** The symbols the next window fetches: those with a row on the panel's last date. */
  function Seed(panel: seq<Bar>): (r: seq<Symbol>)
    requires panel != []
    ensures NoDuplicates(r) && Ascending(r)
    ensures forall s :: s in r <==> Followed(panel, s)
  {
    AscendingIsUnique(SymbolsOn(panel, LastDate(panel)));
    SymbolsOn(panel, LastDate(panel))
  }

  /** The symbol has a row on the panel's last date, so the next window fetches it. */
  predicate Followed(panel: seq<Bar>, s: Symbol)
    requires panel != []
  {
    HasKey(panel, (s, LastDate(panel)))
  }

  /** One window up to its merge: the last day asked for, the runs, and what they meet. */
  datatype Period = Period(end: int, runs: seq<Run>, vendor: Symbol -> seq<Quote>, evidence: map<Key, bool>)
  {
    /** The window opens on the day after the panel's last. */
    function Window(panel: seq<Bar>): Window
      requires panel != []
    {
      CatchUp.Window(LastDate(panel) + 1, end)
    }

    /** The runs follow one another, and the last of them finishes. */
    ghost predicate Valid() {
      Restarts(runs) && |runs| > 0 && runs[|runs| - 1].crash.None?
    }

    function Outcome(panel: seq<Bar>, rules: Rules): Outcome
      requires panel != []
    {
      var staged := Staged(Seed(panel), runs, vendor, Window(panel));
      Merge(panel, staged.chunks, Window(panel), LastDate(panel), evidence, rules)
    }

    /** The panel after this window: the written one, or the old one when nothing was written. */
    function After(panel: seq<Bar>, rules: Rules): seq<Bar>
      requires panel != []
    {
      if Outcome(panel, rules).Written? then Outcome(panel, rules).panel else panel
    }

    /** The runs obtained the symbol. */
    predicate Obtains(panel: seq<Bar>, s: Symbol)
      requires panel != []
    {
      |runs| > 0 && Obtained(BeforeLast(Seed(panel), runs, vendor, Window(panel)), Seed(panel), runs[|runs| - 1], s)
    }

    /** The first row the vendor quotes for the symbol on that date has a close. */
    predicate Closes(panel: seq<Bar>, s: Symbol, date: int)
      requires panel != []
    {
      var quoted := Fetched(s, vendor(s), Window(panel));
      HasKey(quoted, (s, date)) && First(quoted, (s, date)).close.Some?
    }

    /** What a window asks of a symbol: if it is written, to be obtained and to close on the new last date. */
    predicate Keeps(panel: seq<Bar>, rules: Rules, s: Symbol)
      requires panel != []
    {
      Outcome(panel, rules).Written? && Outcome(panel, rules).panel != [] ==>
        Obtains(panel, s) && Closes(panel, s, LastDate(Outcome(panel, rules).panel))
    }
  }

  // ----- runs only stage the seed

  predicate OfSeed(rows: seq<Bar>, seed: seq<Symbol>) {
    forall b :: b in rows ==> b.symbol in seed
  }

  lemma {:induction false} StagedOfSeed(
      st: Staging, seed: seq<Symbol>, todo: seq<Symbol>, k: nat, run: Run, vendor: Symbol -> seq<Quote>, w: Window)
    requires OfSeed(AllRows(st.chunks), seed) && forall s :: s in todo ==> s in seed
    ensures OfSeed(AllRows(StageFrom(st, todo, k, run, vendor, w).chunks), seed)
    decreases |todo|
  {
    hide AllRows, Put, BatchRows;
    if |todo| != 0 {
      var n := if |todo| < CHUNK then |todo| else CHUNK;
      assert forall s :: s in todo[..n] ==> s in todo;
      assert forall s :: s in todo[n..] ==> s in todo;
      PutRows(st.chunks, ChunkFile(k, run.clock(k), None));
      PutRows(st.chunks, ChunkFile(k, run.clock(k), Some(BatchRows(todo[..n], run.failing, vendor, w))));
      if !(run.crash.Some? && run.crash.value.0 == k) {
        StagedOfSeed(StageBatch(st, k, run.clock(k), todo[..n], run.failing, vendor, w, AfterChunk),
          seed, todo[n..], k + 1, run, vendor, w);
      }
    }
  }

  lemma {:induction false} RunsStageOnlyTheSeed(
      st: Staging, seed: seq<Symbol>, runs: seq<Run>, vendor: Symbol -> seq<Quote>, w: Window)
    requires OfSeed(AllRows(st.chunks), seed)
    ensures OfSeed(AllRows(RunAll(st, seed, runs, vendor, w).chunks), seed)
  {
    hide OfSeed, StageFrom;
    if |runs| != 0 {
      var n := |runs| - 1;
      RunsStageOnlyTheSeed(st, seed, runs[..n], vendor, w);
      var last := RunAll(st, seed, runs[..n], vendor, w);
      ReadableSame(last);
      StagedOfSeed(Readable(last), seed, Todo(seed, DoneSymbols(Readable(last))), 0, runs[n], vendor, w);
    }
  }

  /** Whatever is obtained belongs to the seed. */
  lemma ObtainedIsSeed(seed: seq<Symbol>, runs: seq<Run>, vendor: Symbol -> seq<Quote>, w: Window, s: Symbol)
    requires |runs| > 0 && Obtained(BeforeLast(seed, runs, vendor, w), seed, runs[|runs| - 1], s)
    ensures s in seed
  {
    hide RunAll, DoneSymbols;
    RunsStageOnlyTheSeed(Staging(map[], []), seed, runs[..|runs| - 1], vendor, w);
  }

  // ----- one window

  lemma WrittenHasWindowRow(
      panel: seq<Bar>, chunks: seq<ChunkFile>, w: Window, panelMax: int, evidence: map<Key, bool>, rules: Rules)
    requires Merge(panel, chunks, w, panelMax, evidence, rules).Written?
    ensures
      var r := Merge(panel, chunks, w, panelMax, evidence, rules).panel;
      exists b :: b in r && w.start <= b.date <= w.end
  {
    hide KeepFirst, NewRows, Reflagged;
    var merged := KeepFirst(panel + NewRows(chunks));
    var r := Merge(panel, chunks, w, panelMax, evidence, rules).panel;
    var b :| b in merged && w.start <= b.date <= w.end;
    var i :| 0 <= i < |merged| && merged[i] == b;
    ReflaggedKeepsRow(merged, b, w, panelMax, evidence[KeyOf(b)], rules);
    assert r[i] in r && r[i].date == b.date;
  }

  lemma WrittenEndsInWindow(
      panel: seq<Bar>, chunks: seq<ChunkFile>, w: Window, panelMax: int, evidence: map<Key, bool>, rules: Rules,
      x: Bar)
    requires Disjoint(panel, chunks, w, panelMax)
    requires Merge(panel, chunks, w, panelMax, evidence, rules).Written?
    requires x in Merge(panel, chunks, w, panelMax, evidence, rules).panel && w.start <= x.date
    ensures x.date <= w.end
  {
    hide Merge, NewRows;
    WindowRowIsNew(panel, chunks, w, panelMax, evidence, rules, x);
    var b :| b in NewRows(chunks) && KeyOf(b) == KeyOf(x);
    NewRowIsStaged(chunks, b);
  }

  lemma NewRowIsStaged(chunks: seq<ChunkFile>, b: Bar)
    requires b in NewRows(chunks)
    ensures b in AllRows(chunks)
  {
  }

  /** A written panel ends inside the window. */
  lemma WrittenLastDate(panel: seq<Bar>, p: Period, rules: Rules)
    requires panel != [] && p.Outcome(panel, rules).Written?
    ensures
      var r := p.Outcome(panel, rules).panel;
      r != [] && LastDate(panel) < LastDate(r) <= p.end
  {
    hide Merge, LastDate, Staged;
    var w, chunks := p.Window(panel), Staged(Seed(panel), p.runs, p.vendor, p.Window(panel)).chunks;
    RunsAreDisjoint(panel, Seed(panel), p.runs, p.vendor, w, LastDate(panel));
    WrittenHasWindowRow(panel, chunks, w, LastDate(panel), p.evidence, rules);
    var r := p.Outcome(panel, rules).panel;
    var b :| b in r && w.start <= b.date <= w.end;
    var x :| x in r && x.date == LastDate(r);
    assert b.date <= LastDate(r);
    WrittenEndsInWindow(panel, chunks, w, LastDate(panel), p.evidence, rules, x);
  }

  lemma AfterNotEmpty(panel: seq<Bar>, p: Period, rules: Rules)
    requires panel != []
    ensures p.After(panel, rules) != []
  {
    hide Merge;
    if p.Outcome(panel, rules).Written? {
      WrittenLastDate(panel, p, rules);
    }
  }

  /** The next window follows a symbol exactly when this one did and kept it. */
  lemma FollowedNextIff(panel: seq<Bar>, p: Period, rules: Rules, s: Symbol)
    requires panel != [] && p.Valid()
    ensures p.After(panel, rules) != []
    ensures Followed(p.After(panel, rules), s) <==> Followed(panel, s) && p.Keeps(panel, rules, s)
  {
    hide Merge, LastDate, Staged, BeforeLast, Obtained, Fetched, First, HasKey, NoDuplicates, Restarts;
    AfterNotEmpty(panel, p, rules);
    if p.Outcome(panel, rules).Written? {
      WrittenLastDate(panel, p, rules);
      WrittenFollows(panel, p, rules, s);
      if p.Obtains(panel, s) {
        ObtainedIsSeed(Seed(panel), p.runs, p.vendor, p.Window(panel), s);
      }
    }
  }

  lemma WrittenFollows(panel: seq<Bar>, p: Period, rules: Rules, s: Symbol)
    requires panel != [] && p.Valid() && p.Outcome(panel, rules).Written?
    ensures
      var r := p.Outcome(panel, rules).panel;
      r != [] && (Followed(r, s) <==> p.Obtains(panel, s) && p.Closes(panel, s, LastDate(r)))
  {
    hide Merge, LastDate, Staged, BeforeLast, Obtained, Fetched, First, HasKey, NoDuplicates, Restarts, UniqueKeys;
    WrittenLastDate(panel, p, rules);
    var r := p.Outcome(panel, rules).panel;
    RunsFillPanel(panel, Seed(panel), p.runs, p.vendor, p.Window(panel), LastDate(panel), p.evidence, rules, s,
      LastDate(r));
  }

  /** One obtained symbol with a close, and evidence for every followed symbol and window date, and the merge writes. */
  lemma CoveredPeriodWrites(panel: seq<Bar>, p: Period, rules: Rules, k: Key)
    requires panel != [] && p.Valid()
    requires GivesClose(Seed(panel), p.runs, p.vendor, p.Window(panel), k)
    requires forall s, date :: Followed(panel, s) && LastDate(panel) < date <= p.end ==> (s, date) in p.evidence
    ensures p.Outcome(panel, rules).Written?
  {
    hide Merge, LastDate, Staged, GivesClose, AllRows, First, NoDuplicates, Restarts, Followed, Ascending;
    var seed, w := Seed(panel), p.Window(panel);
    StagedGives(seed, p.runs, p.vendor, w, k);
    RunsAreDisjoint(panel, seed, p.runs, p.vendor, w, LastDate(panel));
    StagedIsSeed(seed, p.runs, p.vendor, w);
    CoveredMergeWrites(panel, Staged(seed, p.runs, p.vendor, w).chunks, w, LastDate(panel), p.evidence, rules, k);
  }

  lemma StagedIsSeed(seed: seq<Symbol>, runs: seq<Run>, vendor: Symbol -> seq<Quote>, w: Window)
    ensures OfSeed(AllRows(Staged(seed, runs, vendor, w).chunks), seed)
  {
    hide RunAll;
    RunsStageOnlyTheSeed(Staging(map[], []), seed, runs, vendor, w);
  }

  // ----- window after window

  /** The panel after these windows. */
  function PanelAfter(panel: seq<Bar>, periods: seq<Period>, rules: Rules): (r: seq<Bar>)
    requires panel != []
    ensures r != []
  {
    if periods == [] then panel
    else
      var before := PanelAfter(panel, periods[..|periods| - 1], rules);
      AfterNotEmpty(before, periods[|periods| - 1], rules);
      periods[|periods| - 1].After(before, rules)
  }

  ghost predicate AllValid(periods: seq<Period>) {
    forall i :: 0 <= i < |periods| ==> periods[i].Valid()
  }

  ghost predicate AlwaysKept(panel: seq<Bar>, periods: seq<Period>, rules: Rules, s: Symbol)
    requires panel != []
  {
    forall i :: 0 <= i < |periods| ==> periods[i].Keeps(PanelAfter(panel, periods[..i], rules), rules, s)
  }

  lemma FollowSplit(panel: seq<Bar>, periods: seq<Period>, rules: Rules, s: Symbol)
    requires panel != [] && periods != [] && AllValid(periods)
    ensures
      var n := |periods| - 1;
      && AllValid(periods[..n])
      && periods[n].Valid()
      && (AlwaysKept(panel, periods, rules, s) <==>
            && AlwaysKept(panel, periods[..n], rules, s)
            && periods[n].Keeps(PanelAfter(panel, periods[..n], rules), rules, s))
  {
    hide PanelAfter, Period.Keeps, Period.Valid;
    var n := |periods| - 1;
    assert forall i :: 0 <= i < n ==> periods[..n][..i] == periods[..i] && periods[..n][i] == periods[i];
    assert periods[..n][..n] == periods[..n];
  }

  /**
   * After any windows a symbol is still followed exactly when it was at the start and every written window since
   * obtained it and closed it on its own last date.
   */
  lemma {:induction false} FollowedIff(panel: seq<Bar>, periods: seq<Period>, rules: Rules, s: Symbol)
    requires panel != [] && AllValid(periods)
    ensures Followed(PanelAfter(panel, periods, rules), s)
       <==> Followed(panel, s) && AlwaysKept(panel, periods, rules, s)
  {
    hide Followed, Period.Keeps, Period.Valid, Period.After;
    if periods != [] {
      var n := |periods| - 1;
      FollowSplit(panel, periods, rules, s);
      FollowedIff(panel, periods[..n], rules, s);
      FollowedNextIff(PanelAfter(panel, periods[..n], rules), periods[n], rules, s);
    }
  }

  /** The universe only shrinks: a symbol one window does not keep is followed after no later window. */
  lemma DroppedNeverReturns(panel: seq<Bar>, periods: seq<Period>, rules: Rules, s: Symbol, i: nat)
    requires panel != [] && AllValid(periods) && i < |periods|
    requires !periods[i].Keeps(PanelAfter(panel, periods[..i], rules), rules, s)
    ensures !Followed(PanelAfter(panel, periods, rules), s)
  {
    hide Followed, Period.Keeps;
    FollowedIff(panel, periods, rules, s);
  }

  // ----- what one crash costs

  lemma {:induction false} RunAllConcat(
      st: Staging, seed: seq<Symbol>, a: seq<Run>, b: seq<Run>, vendor: Symbol -> seq<Quote>, w: Window)
    ensures RunAll(st, seed, a + b, vendor, w) == RunAll(RunAll(st, seed, a, vendor, w), seed, b, vendor, w)
  {
    hide RunOnce;
    if b == [] {
      assert a + b == a;
    } else {
      var n := |b| - 1;
      assert (a + b)[..|a| + n] == a + b[..n];
      RunAllConcat(st, seed, a, b[..n], vendor, w);
    }
  }

  /** What is staged when the m-th run starts. */
  function BeforeRun(seed: seq<Symbol>, d: Period, w: Window, m: nat): Staging
    requires m <= |d.runs|
  {
    RunAll(Staging(map[], []), seed, d.runs[..m], d.vendor, w)
  }

  /**
   * Run m dies between the two files of the batch that holds s, having fetched s; no later run but the last
   * rewrites that batch's done file.
   */
  ghost predicate SplitsAway(seed: seq<Symbol>, d: Period, w: Window, m: nat, s: Symbol)
  {
    && m + 1 < |d.runs|
    && d.runs[m].crash.Some? && Splits(d.runs[m].crash.value.1) && s !in d.runs[m].failing
    && var k, todo := d.runs[m].crash.value.0, Todo(seed, DoneSymbols(BeforeRun(seed, d, w, m)));
       && HoldsAt(todo, k, s)
       && NeverRewritten(BeforeRun(seed, d, w, m + 1), seed, d.runs[m + 1..|d.runs| - 1], d.vendor, w, k)
  }

  /** The symbol belongs to batch k. */
  ghost predicate HoldsAt(todo: seq<Symbol>, k: nat, s: Symbol) {
    exists p: nat :: p < |todo| && todo[p] == s && k * CHUNK <= p < k * CHUNK + CHUNK
  }

  lemma RunSplitLoses(st: Staging, seed: seq<Symbol>, run: Run, vendor: Symbol -> seq<Quote>, w: Window, s: Symbol)
    requires run.Valid() && NoDuplicates(seed) && SecondsBefore(st.chunks, run.began)
    requires run.crash.Some? && Splits(run.crash.value.1) && s !in run.failing
    requires HoldsAt(Todo(seed, DoneSymbols(st)), run.crash.value.0, s)
    ensures Lost(RunOnce(st, seed, run, vendor, w), run.crash.value.0, s)
  {
    hide DoneSymbols, StageFrom, Lost;
    ReadableSame(st);
    var todo, k := Todo(seed, DoneSymbols(st)), run.crash.value.0;
    TodoNoDuplicates(seed, DoneSymbols(st));
    var p: nat :| p < |todo| && todo[p] == s && k * CHUNK <= p < k * CHUNK + CHUNK;
    assert todo[p] in todo;
    assert run.began <= run.clock(0) <= run.ended;
    SplitRunLoses(Readable(st), todo, 0, run, vendor, w, k, p);
  }

  lemma SliceInTwo<T>(s: seq<T>, m: nat, n: nat)
    requires m <= n <= |s|
    ensures s[..m] + s[m..n] == s[..n]
  {
  }

  /** Such a crash is enough for the window not to obtain the symbol. */
  lemma SplitCrashNotObtained(panel: seq<Bar>, d: Period, m: nat, s: Symbol)
    requires panel != [] && d.Valid() && SplitsAway(Seed(panel), d, d.Window(panel), m, s)
    ensures !d.Obtains(panel, s)
  {
    hide Lost, RunOnce, RunAll, NeverRewritten, DoneSymbols, HoldsAt, NoDuplicates, Restarts, LastDate, Seed, Todo;
    hide Obtained;
    var seed, w, k, n := Seed(panel), d.Window(panel), d.runs[m].crash.value.0, |d.runs| - 1;
    var empty := Staging(map[], []);
    LostAfterCrash(seed, d, w, m, s);
    var later := d.runs[m + 1..n];
    LostForAsLongAs(BeforeRun(seed, d, w, m + 1), seed, later, d.vendor, w, k, s);
    SliceInTwo(d.runs, m + 1, n);
    RunAllConcat(empty, seed, d.runs[..m + 1], later, d.vendor, w);
    LostNotObtained(RunAll(empty, seed, d.runs[..n], d.vendor, w), seed, d.runs[n], k, s);
  }

  lemma LostAfterCrash(seed: seq<Symbol>, d: Period, w: Window, m: nat, s: Symbol)
    requires NoDuplicates(seed) && Restarts(d.runs) && SplitsAway(seed, d, w, m, s)
    ensures Lost(BeforeRun(seed, d, w, m + 1), d.runs[m].crash.value.0, s)
  {
    hide Lost, RunOnce, NeverRewritten, DoneSymbols, HoldsAt, NoDuplicates, AllOrNothing;
    NothingStaged(d.vendor, w);
    assert Restarts(d.runs[..m]);
    RunsStageAllOrNothing(Staging(map[], []), seed, d.runs[..m], d.vendor, w);
    assert d.runs[..m + 1][..m] == d.runs[..m];
    RunSplitLoses(BeforeRun(seed, d, w, m), seed, d.runs[m], d.vendor, w, s);
  }

  lemma LostNotObtained(st: Staging, seed: seq<Symbol>, run: Run, k: nat, s: Symbol)
    requires Lost(st, k, s)
    ensures !Obtained(st, seed, run, s)
  {
    hide AllRows;
    LostIsNamed(st, k, s);
  }

  /** One crash between a done file and its chunk file, in a window that is then written, removes a symbol for good. */
  lemma SplitCrashRemovesForGood(
      panel: seq<Bar>, periods: seq<Period>, rules: Rules, i: nat, m: nat, s: Symbol)
    requires panel != [] && AllValid(periods) && i < |periods|
    requires
      var found := PanelAfter(panel, periods[..i], rules);
      periods[i].Outcome(found, rules).Written? && SplitsAway(Seed(found), periods[i], periods[i].Window(found), m, s)
    ensures !Followed(PanelAfter(panel, periods, rules), s)
  {
    hide Period.Outcome, Period.Obtains, SplitsAway, Followed, PanelAfter, LastDate;
    var found := PanelAfter(panel, periods[..i], rules);
    SplitCrashNotObtained(found, periods[i], m, s);
    NotObtainedNotKept(found, periods[i], rules, s);
    DroppedNeverReturns(panel, periods, rules, s, i);
  }

  lemma NotObtainedNotKept(panel: seq<Bar>, d: Period, rules: Rules, s: Symbol)
    requires panel != [] && d.Outcome(panel, rules).Written? && !d.Obtains(panel, s)
    ensures !d.Keeps(panel, rules, s)
  {
    WrittenLastDate(panel, d, rules);
    hide Period.Outcome, Period.Obtains;
  }
}
