/** The chunked, resumable panel catch-up: staging files, crashes and restarts, then a keep-first merge. */
module CatchUp {
  import opened Options

  type Symbol = string

  const CHUNK := 250
  const LOOKBACK_DAYS := 5

  datatype Flags = Flags(limitUp: bool, limitDown: bool, suspended: bool, st: bool)

  /** One daily row; a staged row has no flags yet. */
  datatype Bar = Bar(symbol: Symbol, date: int, close: Option<real>, volume: Option<real>, flags: Option<Flags>)

  /** What the vendor returns for one symbol and day; volume comes in lots of 100 shares. */
  datatype Quote = Quote(date: int, close: Option<real>, lots: Option<real>)

  datatype Window = Window(start: int, end: int)

  datatype Manifest = Manifest(window: Window, evidence: string)

  /** A staged chunk; an unreadable file has no rows. */
  datatype ChunkFile = ChunkFile(index: nat, second: int, rows: Option<seq<Bar>>)

  /** The staging directory's done files (by number) and chunk files. */
  datatype Staging = Staging(done: map<nat, Option<set<Symbol>>>, chunks: seq<ChunkFile>)

  // ----- rows

  /** The vendor's rows for a symbol that fall in the window, volume in shares. */
  function Fetched(s: Symbol, quotes: seq<Quote>, w: Window): (r: seq<Bar>)
    ensures forall b :: b in r ==> b.symbol == s && w.start <= b.date <= w.end
  {
    if |quotes| == 0 then []
    else
      var r := Fetched(s, quotes[..|quotes| - 1], w);
      var q := quotes[|quotes| - 1];
      if w.start <= q.date <= w.end then
        r + [Bar(s, q.date, q.close, if q.lots.Some? then Some(q.lots.value * 100.0) else None, None)]
      else r
  }

  /** The positions of the vendor's rows that fall in the window, in the vendor's order. */
  function InWindowAt(quotes: seq<Quote>, w: Window): (at: seq<nat>)
    ensures forall k :: 0 <= k < |at| ==> at[k] < |quotes|
    ensures forall i: nat :: i in at <==> i < |quotes| && w.start <= quotes[i].date <= w.end
  {
    if |quotes| == 0 then []
    else
      var n := |quotes| - 1;
      var before := InWindowAt(quotes[..n], w);
      if w.start <= quotes[n].date <= w.end then before + [n] else before
  }

  /** Each in-window quote gives one row, in order, with its close and 100 shares for every lot. */
  lemma {:induction false} FetchedIs(s: Symbol, quotes: seq<Quote>, w: Window)
    ensures
      var rows, at := Fetched(s, quotes, w), InWindowAt(quotes, w);
      && |rows| == |at|
      && (forall k, l :: 0 <= k < l < |at| ==> at[k] < at[l])
      && (forall k :: 0 <= k < |at| ==>
            && rows[k].symbol == s && rows[k].date == quotes[at[k]].date && rows[k].close == quotes[at[k]].close
            && (rows[k].volume.Some? <==> quotes[at[k]].lots.Some?)
            && (rows[k].volume.Some? ==> rows[k].volume.value / 100.0 == quotes[at[k]].lots.value))
  {
    hide Fetched, InWindowAt;
    if |quotes| == 0 {
      NothingFetched(s, w);
    } else {
      var n := |quotes| - 1;
      FetchedIs(s, quotes[..n], w);
      FetchedLast(s, quotes, w);
    }
  }

  lemma NothingFetched(s: Symbol, w: Window)
    ensures Fetched(s, [], w) == [] && InWindowAt([], w) == []
  {
  }

  lemma FetchedLast(s: Symbol, quotes: seq<Quote>, w: Window)
    requires |quotes| > 0
    ensures
      var n, q := |quotes| - 1, quotes[|quotes| - 1];
      var lots := if q.lots.Some? then Some(q.lots.value * 100.0) else None;
      var falls := w.start <= q.date <= w.end;
      && Fetched(s, quotes, w)
        == Fetched(s, quotes[..n], w) + (if falls then [Bar(s, q.date, q.close, lots, None)] else [])
      && InWindowAt(quotes, w) == InWindowAt(quotes[..n], w) + (if falls then [n] else [])
  {
    assert Fetched(s, quotes[..|quotes| - 1], w) + [] == Fetched(s, quotes[..|quotes| - 1], w);
    assert InWindowAt(quotes[..|quotes| - 1], w) + [] == InWindowAt(quotes[..|quotes| - 1], w);
  }

  function RowsOf(rows: seq<Bar>, s: Symbol): (r: seq<Bar>)
    ensures forall b :: b in r <==> b in rows && b.symbol == s
  {
    if |rows| == 0 then []
    else
      var r := RowsOf(rows[..|rows| - 1], s);
      assert rows == rows[..|rows| - 1] + [rows[|rows| - 1]];
      if rows[|rows| - 1].symbol == s then r + [rows[|rows| - 1]] else r
  }

  lemma {:induction false} RowsOfConcat(a: seq<Bar>, b: seq<Bar>, s: Symbol)
    ensures RowsOf(a + b, s) == RowsOf(a, s) + RowsOf(b, s)
  {
    if |b| == 0 {
      assert a + b == a;
    } else {
      assert (a + b)[..|a + b| - 1] == a + b[..|b| - 1];
      RowsOfConcat(a, b[..|b| - 1], s);
    }
  }

  lemma {:induction false} RowsOfOwn(rows: seq<Bar>, s: Symbol)
    requires forall b :: b in rows ==> b.symbol == s
    ensures RowsOf(rows, s) == rows
  {
    if |rows| != 0 {
      assert rows == rows[..|rows| - 1] + [rows[|rows| - 1]];
      RowsOfOwn(rows[..|rows| - 1], s);
    }
  }

  lemma {:induction false} RowsOfNone(rows: seq<Bar>, s: Symbol)
    requires forall b :: b in rows ==> b.symbol != s
    ensures RowsOf(rows, s) == []
  {
    if |rows| != 0 {
      assert rows[|rows| - 1] in rows;
      RowsOfNone(rows[..|rows| - 1], s);
    }
  }

  /** Every readable staged row. */
  function AllRows(chunks: seq<ChunkFile>): seq<Bar> {
    if |chunks| == 0 then []
    else
      var r := AllRows(chunks[..|chunks| - 1]);
      var f := chunks[|chunks| - 1];
      if f.rows.Some? then r + f.rows.value else r
  }

  function Symbols(rows: seq<Bar>): set<Symbol> {
    set b | b in rows :: b.symbol
  }

  function Listed(done: map<nat, Option<set<Symbol>>>): set<Symbol> {
    set k, s | k in done && done[k].Some? && s in done[k].value :: s
  }

  /** What a starting run skips: every symbol in a done file or in a chunk file. */
  function DoneSymbols(st: Staging): set<Symbol> {
    Listed(st.done) + Symbols(AllRows(st.chunks))
  }

  /** Every skipped symbol has exactly its in-window rows in the chunk files. */
  ghost predicate Complete(st: Staging, vendor: Symbol -> seq<Quote>, w: Window) {
    forall s :: s in DoneSymbols(st) ==> RowsOf(AllRows(st.chunks), s) == Fetched(s, vendor(s), w)
  }

  /** Every symbol has either all of its in-window rows in the chunk files, once, or none of them. */
  ghost predicate AllOrNothing(st: Staging, vendor: Symbol -> seq<Quote>, w: Window) {
    forall s :: RowsOf(AllRows(st.chunks), s) == [] || RowsOf(AllRows(st.chunks), s) == Fetched(s, vendor(s), w)
  }

  // ----- one batch of symbols

  ghost predicate NoDuplicates<T>(s: seq<T>) {
    forall i, j :: 0 <= i < j < |s| ==> s[i] != s[j]
  }

  /** The staged rows of a batch: every symbol whose fetch did not fail. */
  function BatchRows(batch: seq<Symbol>, failing: set<Symbol>, vendor: Symbol -> seq<Quote>, w: Window): (r: seq<Bar>)
    ensures forall b :: b in r ==> b.symbol in batch && b.symbol !in failing && w.start <= b.date <= w.end
  {
    if |batch| == 0 then []
    else
      var r := BatchRows(batch[..|batch| - 1], failing, vendor, w);
      var s := batch[|batch| - 1];
      if s in failing then r else r + Fetched(s, vendor(s), w)
  }

  lemma {:induction false} BatchRowsOf(
      batch: seq<Symbol>, failing: set<Symbol>, vendor: Symbol -> seq<Quote>, w: Window, s: Symbol)
    requires NoDuplicates(batch)
    ensures RowsOf(BatchRows(batch, failing, vendor, w), s) ==
      if s in batch && s !in failing then Fetched(s, vendor(s), w) else []
  {
    if |batch| != 0 {
      var front, last := batch[..|batch| - 1], batch[|batch| - 1];
      assert batch == front + [last];
      BatchRowsOf(front, failing, vendor, w, s);
      if last !in failing {
        RowsOfConcat(BatchRows(front, failing, vendor, w), Fetched(last, vendor(last), w), s);
        if s == last {
          RowsOfOwn(Fetched(last, vendor(last), w), s);
        } else {
          RowsOfNone(Fetched(last, vendor(last), w), s);
        }
      }
    }
  }

  /** The files of one batch are written in this order; a crash can fall anywhere. */
  datatype CrashPoint = BeforeDone | TornDone | BetweenDoneAndChunk | TornChunk | AfterChunk

  /** Where a chunk file of this name is, if there is one. */
  function Position(chunks: seq<ChunkFile>, index: nat, second: int): (p: Option<nat>)
    ensures p.Some? ==> p.value < |chunks| && chunks[p.value].index == index && chunks[p.value].second == second
    ensures p.None? <==> forall f :: f in chunks ==> f.index != index || f.second != second
  {
    if |chunks| == 0 then None
    else
      var n := |chunks| - 1;
      assert chunks == chunks[..n] + [chunks[n]];
      if chunks[n].index == index && chunks[n].second == second then Some(n)
      else Position(chunks[..n], index, second)
  }

  /** Write a chunk file: replace the file of that name, or add one. */
  function Put(chunks: seq<ChunkFile>, f: ChunkFile): seq<ChunkFile> {
    match Position(chunks, f.index, f.second)
    case None => chunks + [f]
    case Some(i) => chunks[i := f]
  }

  ghost predicate FreshName(chunks: seq<ChunkFile>, index: nat, second: int) {
    Position(chunks, index, second).None?
  }

  /** One batch: the done file, then the chunk file. */
  function StageBatch(st: Staging, k: nat, second: int, batch: seq<Symbol>, failing: set<Symbol>,
                      vendor: Symbol -> seq<Quote>, w: Window, crash: CrashPoint): Staging
  {
    var done := set s | s in batch && s !in failing;
    match crash
    case BeforeDone => st
    case TornDone => st.(done := st.done[k := None])
    case BetweenDoneAndChunk => st.(done := st.done[k := Some(done)])
    case TornChunk => Staging(st.done[k := Some(done)], Put(st.chunks, ChunkFile(k, second, None)))
    case AfterChunk =>
      var rows := BatchRows(batch, failing, vendor, w);
      Staging(st.done[k := Some(done)], Put(st.chunks, ChunkFile(k, second, Some(rows))))
  }

  /** A crash that separates the done file from its chunk file. */
  predicate Splits(crash: CrashPoint) {
    crash == BetweenDoneAndChunk || crash == TornChunk
  }

  lemma ListedUpdate(done: map<nat, Option<set<Symbol>>>, k: nat, v: Option<set<Symbol>>, s: Symbol)
    requires s in Listed(done[k := v])
    ensures s in Listed(done) || (v.Some? && s in v.value)
  {
    var j :| j in done[k := v] && done[k := v][j].Some? && s in done[k := v][j].value;
    if j != k {
      assert j in done;
    }
  }

  lemma ListedNew(done: map<nat, Option<set<Symbol>>>, k: nat, v: set<Symbol>)
    ensures v <= Listed(done[k := Some(v)])
  {
    var d := done[k := Some(v)];
    forall s | s in v
      ensures s in Listed(d)
    {
      assert k in d && d[k].Some? && s in d[k].value;
    }
  }

  lemma NotDoneNoRows(st: Staging, s: Symbol)
    requires s !in DoneSymbols(st)
    ensures RowsOf(AllRows(st.chunks), s) == []
  {
    forall b | b in AllRows(st.chunks)
      ensures b.symbol != s
    {
      assert b.symbol in Symbols(AllRows(st.chunks));
    }
    RowsOfNone(AllRows(st.chunks), s);
  }

  /** Staging is complete again after any batch that writes both files, or neither. */
  lemma WholeBatchKeepsComplete(st: Staging, k: nat, second: int, batch: seq<Symbol>, failing: set<Symbol>,
                                vendor: Symbol -> seq<Quote>, w: Window)
    requires Complete(st, vendor, w) && NoDuplicates(batch) && FreshName(st.chunks, k, second)
    requires forall s :: s in batch ==> s !in DoneSymbols(st)
    ensures Complete(StageBatch(st, k, second, batch, failing, vendor, w, AfterChunk), vendor, w)
    ensures forall s :: s in batch && s !in failing ==>
      s in DoneSymbols(StageBatch(st, k, second, batch, failing, vendor, w, AfterChunk))
    ensures DoneSymbols(StageBatch(st, k, second, batch, failing, vendor, w, AfterChunk))
         <= DoneSymbols(st) + set s | s in batch && s !in failing
  {
    var st' := StageBatch(st, k, second, batch, failing, vendor, w, AfterChunk);
    var staged := BatchRows(batch, failing, vendor, w);
    var done := set s | s in batch && s !in failing;
    ListedNew(st.done, k, done);
    hide RowsOf, BatchRows, Fetched;
    var f := ChunkFile(k, second, Some(staged));
    assert (st.chunks + [f])[..|st.chunks|] == st.chunks;
    assert AllRows(st'.chunks) == AllRows(st.chunks) + staged;
    forall s | s in DoneSymbols(st')
      ensures s in DoneSymbols(st) + done
      ensures RowsOf(AllRows(st'.chunks), s) == Fetched(s, vendor(s), w)
    {
      if s in Listed(st'.done) {
        ListedUpdate(st.done, k, Some(done), s);
      } else {
        var b :| b in AllRows(st'.chunks) && b.symbol == s;
        assert b in AllRows(st.chunks) || b in staged;
      }
      RowsOfConcat(AllRows(st.chunks), staged, s);
      BatchRowsOf(batch, failing, vendor, w, s);
      if s in batch {
        NotDoneNoRows(st, s);
      }
    }
  }

  /** Exactly the batches with no rows survive a crash between the done file and the chunk file. */
  lemma SplitBatchLosesRows(st: Staging, k: nat, second: int, batch: seq<Symbol>, failing: set<Symbol>,
                            vendor: Symbol -> seq<Quote>, w: Window, crash: CrashPoint)
    requires Complete(st, vendor, w) && NoDuplicates(batch) && FreshName(st.chunks, k, second)
    requires forall s :: s in batch ==> s !in DoneSymbols(st)
    requires Splits(crash)
    ensures Complete(StageBatch(st, k, second, batch, failing, vendor, w, crash), vendor, w)
       <==> BatchRows(batch, failing, vendor, w) == []
  {
    hide StageBatch, DoneSymbols, RowsOf, AllRows, Fetched, BatchRows, NoDuplicates;
    var next := StageBatch(st, k, second, batch, failing, vendor, w, crash);
    var staged := BatchRows(batch, failing, vendor, w);
    SplitNames(st, k, second, batch, failing, vendor, w, crash);
    if staged == [] {
      forall s | s in DoneSymbols(next)
        ensures RowsOf(AllRows(next.chunks), s) == Fetched(s, vendor(s), w)
      {
        if s in batch && s !in failing {
          BatchRowsOf(batch, failing, vendor, w, s);
          NoRowsOfOthers([], s);
          NotDoneNoRows(st, s);
        }
      }
    } else {
      var s := staged[0].symbol;
      assert staged[0] in staged;
      BatchRowsOf(batch, failing, vendor, w, s);
      assert staged[0] in RowsOf(staged, s);
      NotDoneNoRows(st, s);
    }
  }

  /** A split crash adds the batch's fetched symbols to the named ones, and no row. */
  lemma SplitNames(st: Staging, k: nat, second: int, batch: seq<Symbol>, failing: set<Symbol>,
                   vendor: Symbol -> seq<Quote>, w: Window, crash: CrashPoint)
    requires Splits(crash) && FreshName(st.chunks, k, second)
    ensures
      var next := StageBatch(st, k, second, batch, failing, vendor, w, crash);
      && AllRows(next.chunks) == AllRows(st.chunks)
      && (forall s :: s in DoneSymbols(next) ==> s in DoneSymbols(st) || (s in batch && s !in failing))
      && (forall s :: s in batch && s !in failing ==> s in DoneSymbols(next))
  {
    hide BatchRows, AllRows;
    var next := StageBatch(st, k, second, batch, failing, vendor, w, crash);
    var done := set s | s in batch && s !in failing;
    RowsAfterBatch(st, k, second, batch, failing, vendor, w, crash);
    assert AllRows(st.chunks) + [] == AllRows(st.chunks);
    ListedNew(st.done, k, done);
    forall s | s in Listed(next.done)
      ensures s in Listed(st.done) || s in done
    {
      ListedUpdate(st.done, k, Some(done), s);
    }
  }

  lemma TornDoneKeepsComplete(st: Staging, k: nat, vendor: Symbol -> seq<Quote>, w: Window)
    requires Complete(st, vendor, w)
    ensures Complete(st.(done := st.done[k := None]), vendor, w)
    ensures DoneSymbols(st.(done := st.done[k := None])) <= DoneSymbols(st)
  {
    var st' := st.(done := st.done[k := None]);
    forall s | s in DoneSymbols(st')
      ensures s in DoneSymbols(st)
    {
      if s in Listed(st'.done) {
        ListedUpdate(st.done, k, None, s);
      }
    }
  }

  /** A batch keeps staging complete if and only if the crash does not split its files, or it staged no row. */
  lemma BatchKeepsCompleteIff(st: Staging, k: nat, second: int, batch: seq<Symbol>, failing: set<Symbol>,
                              vendor: Symbol -> seq<Quote>, w: Window, crash: CrashPoint)
    requires Complete(st, vendor, w) && NoDuplicates(batch) && FreshName(st.chunks, k, second)
    requires forall s :: s in batch ==> s !in DoneSymbols(st)
    ensures Complete(StageBatch(st, k, second, batch, failing, vendor, w, crash), vendor, w)
       <==> !Splits(crash) || BatchRows(batch, failing, vendor, w) == []
  {
    match crash
    case BeforeDone =>
    case TornDone => TornDoneKeepsComplete(st, k, vendor, w);
    case AfterChunk => WholeBatchKeepsComplete(st, k, second, batch, failing, vendor, w);
    case BetweenDoneAndChunk => SplitBatchLosesRows(st, k, second, batch, failing, vendor, w, crash);
    case TornChunk => SplitBatchLosesRows(st, k, second, batch, failing, vendor, w, crash);
  }

  /** Whatever the crash point, a batch of new symbols stages all or nothing of each and names no other symbol. */
  lemma BatchStagesAllOrNothing(
      st: Staging, k: nat, second: int, batch: seq<Symbol>, failing: set<Symbol>,
      vendor: Symbol -> seq<Quote>, w: Window, crash: CrashPoint)
    requires AllOrNothing(st, vendor, w) && NoDuplicates(batch) && FreshName(st.chunks, k, second)
    requires forall s :: s in batch ==> s !in DoneSymbols(st)
    ensures AllOrNothing(StageBatch(st, k, second, batch, failing, vendor, w, crash), vendor, w)
    ensures forall s :: s in DoneSymbols(StageBatch(st, k, second, batch, failing, vendor, w, crash)) ==>
      s in DoneSymbols(st) || s in batch
  {
    hide RowsOf, BatchRows, Fetched, AllRows, StageBatch, DoneSymbols, Put;
    var next := StageBatch(st, k, second, batch, failing, vendor, w, crash);
    var staged := BatchRows(batch, failing, vendor, w);
    RowsAfterBatch(st, k, second, batch, failing, vendor, w, crash);
    assert AllRows(st.chunks) + [] == AllRows(st.chunks);
    forall s
      ensures RowsOf(AllRows(next.chunks), s) == [] || RowsOf(AllRows(next.chunks), s) == Fetched(s, vendor(s), w)
    {
      if crash == AfterChunk {
        RowsOfConcat(AllRows(st.chunks), staged, s);
        BatchRowsOf(batch, failing, vendor, w, s);
        if s in batch {
          NotDoneNoRows(st, s);
        }
      }
    }
    forall s | s in DoneSymbols(next)
      ensures s in DoneSymbols(st) || s in batch
    {
      BatchNames(st, k, second, batch, failing, vendor, w, crash, s);
    }
  }

  lemma RowsAfterBatch(
      st: Staging, k: nat, second: int, batch: seq<Symbol>, failing: set<Symbol>,
      vendor: Symbol -> seq<Quote>, w: Window, crash: CrashPoint)
    requires FreshName(st.chunks, k, second)
    ensures AllRows(StageBatch(st, k, second, batch, failing, vendor, w, crash).chunks)
         == AllRows(st.chunks) + if crash == AfterChunk then BatchRows(batch, failing, vendor, w) else []
  {
    hide BatchRows, AllRows;
    AllRowsAppend(st.chunks, ChunkFile(k, second, None));
    AllRowsAppend(st.chunks, ChunkFile(k, second, Some(BatchRows(batch, failing, vendor, w))));
    assert AllRows(st.chunks) + [] == AllRows(st.chunks);
  }

  lemma BatchNames(
      st: Staging, k: nat, second: int, batch: seq<Symbol>, failing: set<Symbol>,
      vendor: Symbol -> seq<Quote>, w: Window, crash: CrashPoint, s: Symbol)
    requires s in DoneSymbols(StageBatch(st, k, second, batch, failing, vendor, w, crash))
    ensures s in DoneSymbols(st) || s in batch
  {
    hide AllRows, BatchRows, Put;
    var next := StageBatch(st, k, second, batch, failing, vendor, w, crash);
    var done := set x | x in batch && x !in failing;
    if s in Listed(next.done) {
      if crash == TornDone {
        ListedUpdate(st.done, k, None, s);
      } else if crash != BeforeDone {
        ListedUpdate(st.done, k, Some(done), s);
      }
    } else {
      var b :| b in AllRows(next.chunks) && b.symbol == s;
      PutRows(st.chunks, ChunkFile(k, second, None));
      PutRows(st.chunks, ChunkFile(k, second, Some(BatchRows(batch, failing, vendor, w))));
    }
  }

  lemma {:induction false} RowOfFile(chunks: seq<ChunkFile>, b: Bar)
    ensures b in AllRows(chunks) <==> exists f :: f in chunks && f.rows.Some? && b in f.rows.value
  {
    if |chunks| != 0 {
      var front, last := chunks[..|chunks| - 1], chunks[|chunks| - 1];
      assert chunks == front + [last];
      RowOfFile(front, b);
    }
  }

  lemma PutRows(chunks: seq<ChunkFile>, f: ChunkFile)
    ensures forall b :: b in AllRows(Put(chunks, f)) ==> b in AllRows(chunks) || (f.rows.Some? && b in f.rows.value)
  {
    forall b | b in AllRows(Put(chunks, f))
      ensures b in AllRows(chunks) || (f.rows.Some? && b in f.rows.value)
    {
      RowOfFile(Put(chunks, f), b);
      var g :| g in Put(chunks, f) && g.rows.Some? && b in g.rows.value;
      assert g == f || g in chunks;
      RowOfFile(chunks, b);
    }
  }

  // ----- runs, crashes and restarts within one window

  /** One process: which fetches fail, the clock at each batch, and where it dies, if it does. */
  datatype Run = Run(
    failing: set<Symbol>, clock: nat -> int, began: int, ended: int, crash: Option<(nat, CrashPoint)>)
  {
    ghost predicate Valid() {
      forall k: nat :: began <= clock(k) <= ended
    }

    /** The process does not die between a done file and its chunk file. */
    predicate KeepsPairs() {
      crash.Some? ==> !Splits(crash.value.1)
    }
  }

  function StageFrom(st: Staging, todo: seq<Symbol>, k: nat, run: Run, vendor: Symbol -> seq<Quote>, w: Window): Staging
    decreases |todo|
  {
    if |todo| == 0 then st
    else
      var n := if |todo| < CHUNK then |todo| else CHUNK;
      if run.crash.Some? && run.crash.value.0 == k then
        StageBatch(st, k, run.clock(k), todo[..n], run.failing, vendor, w, run.crash.value.1)
      else
        StageFrom(StageBatch(st, k, run.clock(k), todo[..n], run.failing, vendor, w, AfterChunk),
                  todo[n..], k + 1, run, vendor, w)
  }

  function ReadableChunks(chunks: seq<ChunkFile>): (r: seq<ChunkFile>)
    ensures AllRows(r) == AllRows(chunks)
    ensures forall f :: f in r ==> f in chunks && f.rows.Some?
  {
    if |chunks| == 0 then []
    else
      var r, last := ReadableChunks(chunks[..|chunks| - 1]), chunks[|chunks| - 1];
      if last.rows.Some? then
        assert (r + [last])[..|r|] == r;
        r + [last]
      else r
  }

  /** Starting up deletes the files it cannot read. */
  function Readable(st: Staging): Staging {
    Staging(map k | k in st.done && st.done[k].Some? :: st.done[k], ReadableChunks(st.chunks))
  }

  function Todo(seed: seq<Symbol>, done: set<Symbol>): (r: seq<Symbol>)
    ensures forall s :: s in r <==> s in seed && s !in done
  {
    if |seed| == 0 then []
    else
      var r, last := Todo(seed[..|seed| - 1], done), seed[|seed| - 1];
      assert seed == seed[..|seed| - 1] + [last];
      if last in done then r else r + [last]
  }

  lemma {:induction false} TodoNoDuplicates(seed: seq<Symbol>, done: set<Symbol>)
    requires NoDuplicates(seed)
    ensures NoDuplicates(Todo(seed, done))
  {
    if |seed| != 0 {
      var front, last := seed[..|seed| - 1], seed[|seed| - 1];
      TodoNoDuplicates(front, done);
      var r := Todo(front, done);
      forall i | 0 <= i < |r|
        ensures r[i] != last
      {
        assert r[i] in r;
      }
    }
  }

  function RunOnce(st: Staging, seed: seq<Symbol>, run: Run, vendor: Symbol -> seq<Quote>, w: Window): Staging {
    StageFrom(Readable(st), Todo(seed, DoneSymbols(Readable(st))), 0, run, vendor, w)
  }

  /** Runs one after another in one window; each but the last died, or its merge was refused or raised. */
  function RunAll(st: Staging, seed: seq<Symbol>, runs: seq<Run>, vendor: Symbol -> seq<Quote>, w: Window): Staging {
    if |runs| == 0 then st
    else RunOnce(RunAll(st, seed, runs[..|runs| - 1], vendor, w), seed, runs[|runs| - 1], vendor, w)
  }

  ghost predicate SecondsBefore(chunks: seq<ChunkFile>, t: int) {
    forall f :: f in chunks ==> f.second < t
  }

  /** Names a run may still write are free: files of this run have smaller numbers, older ones earlier seconds. */
  ghost predicate FreshFrom(chunks: seq<ChunkFile>, k: nat, run: Run) {
    forall f :: f in chunks ==> f.second <= run.ended && (f.index < k || f.second < run.began)
  }

  lemma FreshStep(chunks: seq<ChunkFile>, k: nat, run: Run, rows: Option<seq<Bar>>)
    requires FreshFrom(chunks, k, run) && run.Valid()
    ensures FreshName(chunks, k, run.clock(k))
    ensures Put(chunks, ChunkFile(k, run.clock(k), rows)) == chunks + [ChunkFile(k, run.clock(k), rows)]
    ensures FreshFrom(Put(chunks, ChunkFile(k, run.clock(k), rows)), k + 1, run)
  {
    assert run.began <= run.clock(k) <= run.ended;
    assert FreshName(chunks, k, run.clock(k)) by {
      if Position(chunks, k, run.clock(k)).Some? {
        assert chunks[Position(chunks, k, run.clock(k)).value] in chunks;
      }
    }
  }

  lemma AllRowsAppend(chunks: seq<ChunkFile>, f: ChunkFile)
    ensures AllRows(chunks + [f]) == AllRows(chunks) + if f.rows.Some? then f.rows.value else []
  {
    assert (chunks + [f])[..|chunks|] == chunks;
    assert AllRows(chunks) + [] == AllRows(chunks);
  }

  /** One whole batch adds exactly the rows of its symbols that could be fetched. */
  lemma BatchAddsRows(
      st: Staging, batch: seq<Symbol>, k: nat, run: Run, vendor: Symbol -> seq<Quote>, w: Window, s: Symbol)
    requires run.Valid() && NoDuplicates(batch) && FreshFrom(st.chunks, k, run)
    ensures
      var next := StageBatch(st, k, run.clock(k), batch, run.failing, vendor, w, AfterChunk);
      && FreshFrom(next.chunks, k + 1, run)
      && RowsOf(AllRows(next.chunks), s)
         == RowsOf(AllRows(st.chunks), s) + if s in batch && s !in run.failing then Fetched(s, vendor(s), w) else []
  {
    var rows := BatchRows(batch, run.failing, vendor, w);
    FreshStep(st.chunks, k, run, Some(rows));
    AllRowsAppend(st.chunks, ChunkFile(k, run.clock(k), Some(rows)));
    RowsOfConcat(AllRows(st.chunks), rows, s);
    BatchRowsOf(batch, run.failing, vendor, w, s);
  }

  /** The next batch and what remains. */
  lemma SplitTodo(todo: seq<Symbol>, n: nat)
    requires NoDuplicates(todo) && n <= |todo|
    ensures NoDuplicates(todo[..n]) && NoDuplicates(todo[n..])
    ensures forall s :: s in todo <==> s in todo[..n] || s in todo[n..]
    ensures forall s :: s in todo[..n] ==> s !in todo[n..]
  {
    assert todo == todo[..n] + todo[n..];
  }

  /** A run that is not cut short adds exactly the rows of the symbols it had to do and could fetch. */
  lemma {:induction false} StageFromRows(
      st: Staging, todo: seq<Symbol>, k: nat, run: Run, vendor: Symbol -> seq<Quote>, w: Window, s: Symbol)
    requires run.Valid() && NoDuplicates(todo) && FreshFrom(st.chunks, k, run)
    requires run.crash.None?
    ensures RowsOf(AllRows(StageFrom(st, todo, k, run, vendor, w).chunks), s)
         == RowsOf(AllRows(st.chunks), s) + if s in todo && s !in run.failing then Fetched(s, vendor(s), w) else []
    decreases |todo|
  {
    hide RowsOf, AllRows, BatchRows, StageBatch, Fetched, FreshFrom, NoDuplicates, Put, Run.Valid;
    if |todo| == 0 {
      assert RowsOf(AllRows(st.chunks), s) + [] == RowsOf(AllRows(st.chunks), s);
    } else {
      var n := if |todo| < CHUNK then |todo| else CHUNK;
      SplitTodo(todo, n);
      BatchAddsRows(st, todo[..n], k, run, vendor, w, s);
      StageFromRows(StageBatch(st, k, run.clock(k), todo[..n], run.failing, vendor, w, AfterChunk),
        todo[n..], k + 1, run, vendor, w, s);
    }
  }

  lemma BatchComplete(st: Staging, todo: seq<Symbol>, n: nat, k: nat, run: Run, vendor: Symbol -> seq<Quote>, w: Window)
    requires run.Valid() && NoDuplicates(todo) && n <= |todo| && FreshFrom(st.chunks, k, run)
    requires Complete(st, vendor, w)
    requires forall s :: s in todo ==> s !in DoneSymbols(st)
    ensures
      var next := StageBatch(st, k, run.clock(k), todo[..n], run.failing, vendor, w, AfterChunk);
      && Complete(next, vendor, w)
      && FreshFrom(next.chunks, k + 1, run)
      && forall s :: s in todo[n..] ==> s !in DoneSymbols(next)
  {
    hide Complete, BatchRows;
    SplitTodo(todo, n);
    FreshStep(st.chunks, k, run, Some(BatchRows(todo[..n], run.failing, vendor, w)));
    WholeBatchKeepsComplete(st, k, run.clock(k), todo[..n], run.failing, vendor, w);
  }

  lemma CrashComplete(
      st: Staging, batch: seq<Symbol>, k: nat, run: Run, vendor: Symbol -> seq<Quote>, w: Window, crash: CrashPoint)
    requires run.Valid() && NoDuplicates(batch) && FreshFrom(st.chunks, k, run) && !Splits(crash)
    requires Complete(st, vendor, w)
    requires forall s :: s in batch ==> s !in DoneSymbols(st)
    ensures
      var next := StageBatch(st, k, run.clock(k), batch, run.failing, vendor, w, crash);
      Complete(next, vendor, w) && SecondsBefore(next.chunks, run.ended + 1)
  {
    hide Complete, BatchRows;
    FreshStep(st.chunks, k, run, Some(BatchRows(batch, run.failing, vendor, w)));
    BatchKeepsCompleteIff(st, k, run.clock(k), batch, run.failing, vendor, w, crash);
  }

  lemma {:induction false} StageFromComplete(
      st: Staging, todo: seq<Symbol>, k: nat, run: Run, vendor: Symbol -> seq<Quote>, w: Window)
    requires run.Valid() && run.KeepsPairs() && NoDuplicates(todo) && FreshFrom(st.chunks, k, run)
    requires Complete(st, vendor, w)
    requires forall s :: s in todo ==> s !in DoneSymbols(st)
    ensures Complete(StageFrom(st, todo, k, run, vendor, w), vendor, w)
    ensures SecondsBefore(StageFrom(st, todo, k, run, vendor, w).chunks, run.ended + 1)
    decreases |todo|
  {
    hide Complete, StageBatch, NoDuplicates, Run.Valid, DoneSymbols;
    if |todo| != 0 {
      var n := if |todo| < CHUNK then |todo| else CHUNK;
      SplitTodo(todo, n);
      if run.crash.Some? && run.crash.value.0 == k {
        CrashComplete(st, todo[..n], k, run, vendor, w, run.crash.value.1);
      } else {
        BatchComplete(st, todo, n, k, run, vendor, w);
        StageFromComplete(StageBatch(st, k, run.clock(k), todo[..n], run.failing, vendor, w, AfterChunk),
          todo[n..], k + 1, run, vendor, w);
      }
    }
  }

  lemma ReadableSame(st: Staging)
    ensures DoneSymbols(Readable(st)) == DoneSymbols(st)
    ensures AllRows(Readable(st).chunks) == AllRows(st.chunks)
  {
    var d := Readable(st).done;
    forall s
      ensures s in Listed(d) <==> s in Listed(st.done)
    {
      if s in Listed(d) {
        var k :| k in d && d[k].Some? && s in d[k].value;
        assert k in st.done;
      }
      if s in Listed(st.done) {
        var k :| k in st.done && st.done[k].Some? && s in st.done[k].value;
        assert k in d;
      }
    }
  }

  lemma RunOnceComplete(st: Staging, seed: seq<Symbol>, run: Run, vendor: Symbol -> seq<Quote>, w: Window)
    requires run.Valid() && run.KeepsPairs() && NoDuplicates(seed) && SecondsBefore(st.chunks, run.began)
    requires Complete(st, vendor, w)
    ensures Complete(RunOnce(st, seed, run, vendor, w), vendor, w)
    ensures SecondsBefore(RunOnce(st, seed, run, vendor, w).chunks, run.ended + 1)
  {
    ReadableSame(st);
    var r := Readable(st);
    TodoNoDuplicates(seed, DoneSymbols(r));
    assert run.began <= run.clock(0) <= run.ended;
    StageFromComplete(r, Todo(seed, DoneSymbols(r)), 0, run, vendor, w);
  }

  /** Each run starts after the one before it has ended. */
  ghost predicate Restarts(runs: seq<Run>) {
    && (forall i :: 0 <= i < |runs| ==> runs[i].Valid())
    && (forall i, j :: 0 <= i < j < |runs| ==> runs[i].ended < runs[j].began)
  }

  /** ... and none of them dies between a done file and its chunk file. */
  ghost predicate InOrder(runs: seq<Run>) {
    Restarts(runs) && forall i :: 0 <= i < |runs| ==> runs[i].KeepsPairs()
  }

  /** A run that dies before or inside a done file, after a chunk file, or not at all keeps the pairs together. */
  lemma OtherCrashesKeepPairs(run: Run)
    requires run.Valid()
    requires run.crash.None? || run.crash.value.1 in {BeforeDone, TornDone, AfterChunk}
    ensures InOrder([run])
  {
  }

  /** Over any sequence of runs, crashes and restarts that keeps the pairs together, staging stays complete. */
  lemma {:induction false} RunsStayComplete(
      st: Staging, seed: seq<Symbol>, runs: seq<Run>, vendor: Symbol -> seq<Quote>, w: Window)
    requires NoDuplicates(seed) && InOrder(runs) && Complete(st, vendor, w)
    requires |runs| > 0 ==> SecondsBefore(st.chunks, runs[0].began)
    ensures Complete(RunAll(st, seed, runs, vendor, w), vendor, w)
    ensures |runs| > 0 ==> SecondsBefore(RunAll(st, seed, runs, vendor, w).chunks, runs[|runs| - 1].ended + 1)
  {
    if |runs| != 0 {
      var n := |runs| - 1;
      RunsStayComplete(st, seed, runs[..n], vendor, w);
      RunOnceComplete(RunAll(st, seed, runs[..n], vendor, w), seed, runs[n], vendor, w);
    }
  }

  // ----- any crash at all

  lemma {:induction false} StageFromAllOrNothing(
      st: Staging, todo: seq<Symbol>, k: nat, run: Run, vendor: Symbol -> seq<Quote>, w: Window)
    requires run.Valid() && NoDuplicates(todo) && FreshFrom(st.chunks, k, run) && AllOrNothing(st, vendor, w)
    requires forall s :: s in todo ==> s !in DoneSymbols(st)
    ensures AllOrNothing(StageFrom(st, todo, k, run, vendor, w), vendor, w)
    ensures SecondsBefore(StageFrom(st, todo, k, run, vendor, w).chunks, run.ended + 1)
    decreases |todo|
  {
    hide AllOrNothing, NoDuplicates, Run.Valid, DoneSymbols, BatchRows;
    if |todo| != 0 {
      var n := if |todo| < CHUNK then |todo| else CHUNK;
      SplitTodo(todo, n);
      var crashed := run.crash.Some? && run.crash.value.0 == k;
      var point := if crashed then run.crash.value.1 else AfterChunk;
      FreshStep(st.chunks, k, run, None);
      FreshStep(st.chunks, k, run, Some(BatchRows(todo[..n], run.failing, vendor, w)));
      BatchStagesAllOrNothing(st, k, run.clock(k), todo[..n], run.failing, vendor, w, point);
      if !crashed {
        StageFromAllOrNothing(StageBatch(st, k, run.clock(k), todo[..n], run.failing, vendor, w, AfterChunk),
          todo[n..], k + 1, run, vendor, w);
      }
    }
  }

  lemma RunOnceAllOrNothing(st: Staging, seed: seq<Symbol>, run: Run, vendor: Symbol -> seq<Quote>, w: Window)
    requires run.Valid() && NoDuplicates(seed) && SecondsBefore(st.chunks, run.began) && AllOrNothing(st, vendor, w)
    ensures AllOrNothing(RunOnce(st, seed, run, vendor, w), vendor, w)
    ensures SecondsBefore(RunOnce(st, seed, run, vendor, w).chunks, run.ended + 1)
  {
    ReadableSame(st);
    var r := Readable(st);
    TodoNoDuplicates(seed, DoneSymbols(r));
    assert run.began <= run.clock(0) <= run.ended;
    StageFromAllOrNothing(r, Todo(seed, DoneSymbols(r)), 0, run, vendor, w);
  }

  /** Over any sequence of runs and any crashes no symbol is ever staged in part or twice. */
  lemma {:induction false} RunsStageAllOrNothing(
      st: Staging, seed: seq<Symbol>, runs: seq<Run>, vendor: Symbol -> seq<Quote>, w: Window)
    requires NoDuplicates(seed) && Restarts(runs) && AllOrNothing(st, vendor, w)
    requires |runs| > 0 ==> SecondsBefore(st.chunks, runs[0].began)
    ensures AllOrNothing(RunAll(st, seed, runs, vendor, w), vendor, w)
    ensures |runs| > 0 ==> SecondsBefore(RunAll(st, seed, runs, vendor, w).chunks, runs[|runs| - 1].ended + 1)
  {
    if |runs| != 0 {
      var n := |runs| - 1;
      RunsStageAllOrNothing(st, seed, runs[..n], vendor, w);
      RunOnceAllOrNothing(RunAll(st, seed, runs[..n], vendor, w), seed, runs[n], vendor, w);
    }
  }

  lemma NothingStaged(vendor: Symbol -> seq<Quote>, w: Window)
    ensures Complete(Staging(map[], []), vendor, w) && AllOrNothing(Staging(map[], []), vendor, w)
  {
  }

  // ----- what a run that finishes holds

  /** The run holds s: it was staged before, or this run had to fetch it and could. */
  predicate Obtained(st: Staging, seed: seq<Symbol>, run: Run, s: Symbol) {
    s in Symbols(AllRows(st.chunks)) || (s in seed && s !in DoneSymbols(st) && s !in run.failing)
  }

  /** Whatever crashes came before, a run that finishes holds exactly the symbols it obtained, each in full. */
  lemma FinishedRunRows(
      st: Staging, seed: seq<Symbol>, run: Run, vendor: Symbol -> seq<Quote>, w: Window, s: Symbol)
    requires run.Valid() && run.crash.None? && NoDuplicates(seed) && SecondsBefore(st.chunks, run.began)
    requires AllOrNothing(st, vendor, w)
    ensures RowsOf(AllRows(RunOnce(st, seed, run, vendor, w).chunks), s)
         == if Obtained(st, seed, run, s) then Fetched(s, vendor(s), w) else []
  {
    FinishedRunAdds(st, seed, run, vendor, w, s);
    hide RunOnce;
    if s in Symbols(AllRows(st.chunks)) {
      var b :| b in AllRows(st.chunks) && b.symbol == s;
      assert b in RowsOf(AllRows(st.chunks), s);
    } else {
      NoRowsOfOthers(AllRows(st.chunks), s);
    }
    assert Fetched(s, vendor(s), w) + [] == Fetched(s, vendor(s), w);
    assert [] + Fetched(s, vendor(s), w) == Fetched(s, vendor(s), w);
  }

  lemma NoRowsOfOthers(rows: seq<Bar>, s: Symbol)
    requires s !in Symbols(rows)
    ensures RowsOf(rows, s) == []
  {
    forall b | b in rows
      ensures b.symbol != s
    {
      assert b.symbol in Symbols(rows);
    }
    RowsOfNone(rows, s);
  }

  lemma FinishedRunAdds(
      st: Staging, seed: seq<Symbol>, run: Run, vendor: Symbol -> seq<Quote>, w: Window, s: Symbol)
    requires run.Valid() && run.crash.None? && NoDuplicates(seed) && SecondsBefore(st.chunks, run.began)
    ensures RowsOf(AllRows(RunOnce(st, seed, run, vendor, w).chunks), s) == RowsOf(AllRows(st.chunks), s)
      + if s in seed && s !in DoneSymbols(st) && s !in run.failing then Fetched(s, vendor(s), w) else []
  {
    ReadableSame(st);
    var r := Readable(st);
    TodoNoDuplicates(seed, DoneSymbols(r));
    assert run.began <= run.clock(0) <= run.ended;
    StageFromRows(r, Todo(seed, DoneSymbols(r)), 0, run, vendor, w, s);
  }

  /**
   * On complete staging one run that finishes holds every seed symbol's in-window rows, except those it failed to
   * fetch.
   */
  lemma FinishedRunHasEverySeed(
      st: Staging, seed: seq<Symbol>, run: Run, vendor: Symbol -> seq<Quote>, w: Window, s: Symbol)
    requires run.Valid() && run.crash.None? && NoDuplicates(seed) && SecondsBefore(st.chunks, run.began)
    requires Complete(st, vendor, w)
    ensures RowsOf(AllRows(RunOnce(st, seed, run, vendor, w).chunks), s)
         == if s in DoneSymbols(st) || (s in seed && s !in run.failing) then Fetched(s, vendor(s), w) else []
  {
    hide RunOnce, RowsOf, Fetched, AllRows, SecondsBefore, Run.Valid, DoneSymbols;
    FinishedRunAdds(st, seed, run, vendor, w, s);
    if s !in DoneSymbols(st) {
      NotDoneNoRows(st, s);
    }
    assert Fetched(s, vendor(s), w) + [] == Fetched(s, vendor(s), w);
    assert [] + Fetched(s, vendor(s), w) == Fetched(s, vendor(s), w);
  }

  // ----- what a crash between the two files costs

  /** The next run that finishes skips a symbol whose batch was split, and stages no row of it. */
  lemma SplitCrashSkipsNextRun(
      st: Staging, seed: seq<Symbol>, k: nat, second: int, batch: seq<Symbol>, failing: set<Symbol>,
      vendor: Symbol -> seq<Quote>, w: Window, crash: CrashPoint, next: Run, s: Symbol)
    requires Splits(crash) && s in batch && s !in failing && s !in DoneSymbols(st)
    requires FreshName(st.chunks, k, second) && NoDuplicates(seed)
    requires next.Valid() && next.crash.None? && SecondsBefore(st.chunks, next.began) && second < next.began
    ensures
      var split := StageBatch(st, k, second, batch, failing, vendor, w, crash);
      RowsOf(AllRows(RunOnce(split, seed, next, vendor, w).chunks), s) == []
  {
    var split := StageBatch(st, k, second, batch, failing, vendor, w, crash);
    ListedNew(st.done, k, set s | s in batch && s !in failing);
    AllRowsAppend(st.chunks, ChunkFile(k, second, None));
    NotDoneNoRows(st, s);
    assert RowsOf(AllRows(st.chunks), s) + [] == [];
    FinishedRunAdds(split, seed, next, vendor, w, s);
  }

  /** Done file i names s. */
  predicate Names(done: map<nat, Option<set<Symbol>>>, i: nat, s: Symbol) {
    i in done && done[i].Some? && s in done[i].value
  }

  /** Only done file k names s, and no chunk file holds a row of it: a symbol lost in a split. */
  ghost predicate Lost(st: Staging, k: nat, s: Symbol) {
    Names(st.done, k, s) && (forall i: nat :: i != k ==> !Names(st.done, i, s)) && s !in Symbols(AllRows(st.chunks))
  }

  /** A split crash loses every symbol its batch had fetched. */
  lemma SplitMakesLost(
      st: Staging, k: nat, second: int, batch: seq<Symbol>, failing: set<Symbol>,
      vendor: Symbol -> seq<Quote>, w: Window, crash: CrashPoint, s: Symbol)
    requires Splits(crash) && s in batch && s !in failing && s !in DoneSymbols(st) && FreshName(st.chunks, k, second)
    ensures Lost(StageBatch(st, k, second, batch, failing, vendor, w, crash), k, s)
  {
    var split := StageBatch(st, k, second, batch, failing, vendor, w, crash);
    AllRowsAppend(st.chunks, ChunkFile(k, second, None));
    assert AllRows(st.chunks) + [] == AllRows(st.chunks);
    ListedIsNamed(st.done, s);
    assert forall i: nat :: i != k ==> (Names(split.done, i, s) <==> Names(st.done, i, s));
  }

  /** A run that dies between the two files of batch k loses every symbol of that batch it had fetched. */
  lemma {:induction false} SplitRunLoses(
      st: Staging, todo: seq<Symbol>, j: nat, run: Run, vendor: Symbol -> seq<Quote>, w: Window, k: nat, p: nat)
    requires run.Valid() && NoDuplicates(todo) && FreshFrom(st.chunks, j, run)
    requires run.crash.Some? && run.crash.value.0 == k && Splits(run.crash.value.1)
    requires p < |todo| && j <= k && (k - j) * CHUNK <= p < (k - j) * CHUNK + CHUNK
    requires todo[p] !in run.failing && todo[p] !in DoneSymbols(st)
    ensures Lost(StageFrom(st, todo, j, run, vendor, w), k, todo[p])
    decreases |todo|
  {
    hide DoneSymbols, StageBatch, BatchRows, Lost, Put;
    var n := if |todo| < CHUNK then |todo| else CHUNK;
    var s, rows := todo[p], BatchRows(todo[..n], run.failing, vendor, w);
    if k == j {
      FreshStep(st.chunks, j, run, None);
      assert todo[..n][p] == s;
      SplitMakesLost(st, j, run.clock(j), todo[..n], run.failing, vendor, w, run.crash.value.1, s);
    } else {
      SplitTodo(todo, n);
      assert todo[n..][p - n] == s;
      var next := StageBatch(st, j, run.clock(j), todo[..n], run.failing, vendor, w, AfterChunk);
      BatchFresh(st, j, run, todo[..n], vendor, w);
      if s in DoneSymbols(next) {
        BatchNames(st, j, run.clock(j), todo[..n], run.failing, vendor, w, AfterChunk, s);
      }
      SplitRunLoses(next, todo[n..], j + 1, run, vendor, w, k, p - n);
    }
  }

  lemma BatchFresh(st: Staging, j: nat, run: Run, batch: seq<Symbol>, vendor: Symbol -> seq<Quote>, w: Window)
    requires run.Valid() && FreshFrom(st.chunks, j, run)
    ensures FreshFrom(StageBatch(st, j, run.clock(j), batch, run.failing, vendor, w, AfterChunk).chunks, j + 1, run)
  {
    hide BatchRows, FreshFrom, Put;
    FreshStep(st.chunks, j, run, Some(BatchRows(batch, run.failing, vendor, w)));
  }

  /** A run that starts at batch j with so many symbols left gets as far as writing done file i. */
  predicate Rewrites(j: nat, left: nat, crash: Option<(nat, CrashPoint)>, i: nat) {
    && j <= i && (i - j) * CHUNK < left
    && (crash.Some? ==> !(j <= crash.value.0 < i) && crash.value != (i, BeforeDone))
  }

  lemma NamedAfterBatch(
      st: Staging, k: nat, second: int, batch: seq<Symbol>, failing: set<Symbol>,
      vendor: Symbol -> seq<Quote>, w: Window, crash: CrashPoint, i: nat, s: Symbol)
    requires s !in batch
    ensures Names(StageBatch(st, k, second, batch, failing, vendor, w, crash).done, i, s)
       <==> Names(st.done, i, s) && !(i == k && crash != BeforeDone)
  {
    hide BatchRows, Put;
  }

  /** For a symbol the run does not fetch, a done file goes on naming it exactly until the run rewrites that file. */
  lemma {:induction false} NamedUntilRewritten(
      st: Staging, todo: seq<Symbol>, j: nat, run: Run, vendor: Symbol -> seq<Quote>, w: Window, i: nat, s: Symbol)
    requires s !in todo
    ensures Names(StageFrom(st, todo, j, run, vendor, w).done, i, s)
       <==> Names(st.done, i, s) && !Rewrites(j, |todo|, run.crash, i)
    decreases |todo|
  {
    hide Names, StageBatch;
    if |todo| != 0 {
      var n := if |todo| < CHUNK then |todo| else CHUNK;
      assert forall x :: x in todo[..n] ==> x in todo;
      assert forall x :: x in todo[n..] ==> x in todo;
      if run.crash.Some? && run.crash.value.0 == j {
        NamedAfterBatch(st, j, run.clock(j), todo[..n], run.failing, vendor, w, run.crash.value.1, i, s);
      } else {
        NamedAfterBatch(st, j, run.clock(j), todo[..n], run.failing, vendor, w, AfterChunk, i, s);
        NamedUntilRewritten(StageBatch(st, j, run.clock(j), todo[..n], run.failing, vendor, w, AfterChunk),
          todo[n..], j + 1, run, vendor, w, i, s);
      }
    }
  }

  lemma {:induction false} NeverFetchedNoRows(
      st: Staging, todo: seq<Symbol>, j: nat, run: Run, vendor: Symbol -> seq<Quote>, w: Window, s: Symbol)
    requires s !in todo && s !in Symbols(AllRows(st.chunks))
    ensures s !in Symbols(AllRows(StageFrom(st, todo, j, run, vendor, w).chunks))
    decreases |todo|
  {
    hide AllRows, BatchRows, Put;
    if |todo| != 0 {
      var n := if |todo| < CHUNK then |todo| else CHUNK;
      assert forall x :: x in todo[..n] ==> x in todo;
      assert forall x :: x in todo[n..] ==> x in todo;
      PutRows(st.chunks, ChunkFile(j, run.clock(j), None));
      PutRows(st.chunks, ChunkFile(j, run.clock(j), Some(BatchRows(todo[..n], run.failing, vendor, w))));
      if !(run.crash.Some? && run.crash.value.0 == j) {
        NeverFetchedNoRows(StageBatch(st, j, run.clock(j), todo[..n], run.failing, vendor, w, AfterChunk),
          todo[n..], j + 1, run, vendor, w, s);
      }
    }
  }

  /** This run rewrites done file k: it has more than 250 k symbols to do and does not die before. */
  predicate RunRewrites(st: Staging, seed: seq<Symbol>, run: Run, k: nat) {
    Rewrites(0, |Todo(seed, DoneSymbols(st))|, run.crash, k)
  }

  lemma ListedIsNamed(done: map<nat, Option<set<Symbol>>>, s: Symbol)
    ensures s in Listed(done) <==> exists i: nat :: Names(done, i, s)
  {
    if s in Listed(done) {
      var i :| i in done && done[i].Some? && s in done[i].value;
      assert Names(done, i, s);
    }
    if i: nat :| Names(done, i, s) {
      assert i in done && done[i].Some? && s in done[i].value;
    }
  }

  /**
   * A run never stages a lost symbol, and the next run skips it again if and only if this one did not rewrite file
   * k.
   */
  lemma LostUntilRewritten(
      st: Staging, seed: seq<Symbol>, run: Run, vendor: Symbol -> seq<Quote>, w: Window, k: nat, s: Symbol)
    requires Lost(st, k, s)
    ensures RowsOf(AllRows(RunOnce(st, seed, run, vendor, w).chunks), s) == []
    ensures s in DoneSymbols(RunOnce(st, seed, run, vendor, w)) <==> !RunRewrites(st, seed, run, k)
    ensures !RunRewrites(st, seed, run, k) ==> Lost(RunOnce(st, seed, run, vendor, w), k, s)
  {
    hide AllRows, StageFrom, Rewrites;
    ReadableSame(st);
    var r := Readable(st);
    var todo := Todo(seed, DoneSymbols(r));
    var next := StageFrom(r, todo, 0, run, vendor, w);
    assert Names(r.done, k, s);
    ListedIsNamed(st.done, s);
    forall i: nat
      ensures Names(next.done, i, s) <==> i == k && !RunRewrites(st, seed, run, k)
    {
      NamedUntilRewritten(r, todo, 0, run, vendor, w, i, s);
      assert Names(r.done, i, s) ==> Names(st.done, i, s);
    }
    NeverFetchedNoRows(r, todo, 0, run, vendor, w, s);
    NoRowsOfOthers(AllRows(next.chunks), s);
    ListedIsNamed(next.done, s);
    assert Names(next.done, k, s) <==> !RunRewrites(st, seed, run, k);
  }

  /** Every run of the sequence starts by skipping s, and so would the next. */
  ghost predicate AlwaysSkipped(
      st: Staging, seed: seq<Symbol>, runs: seq<Run>, vendor: Symbol -> seq<Quote>, w: Window, s: Symbol)
  {
    forall n :: 0 <= n <= |runs| ==> s in DoneSymbols(RunAll(st, seed, runs[..n], vendor, w))
  }

  ghost predicate NeverRewritten(
      st: Staging, seed: seq<Symbol>, runs: seq<Run>, vendor: Symbol -> seq<Quote>, w: Window, k: nat)
  {
    forall n :: 0 <= n < |runs| ==> !RunRewrites(RunAll(st, seed, runs[..n], vendor, w), seed, runs[n], k)
  }

  /**
   * Over any restarts a lost symbol is skipped for as long as no run rewrites the done file that names it, and no
   * longer.
   */
  lemma {:induction false} LostForAsLongAs(
      st: Staging, seed: seq<Symbol>, runs: seq<Run>, vendor: Symbol -> seq<Quote>, w: Window, k: nat, s: Symbol)
    requires Lost(st, k, s)
    ensures AlwaysSkipped(st, seed, runs, vendor, w, s) <==> NeverRewritten(st, seed, runs, vendor, w, k)
    ensures NeverRewritten(st, seed, runs, vendor, w, k) ==> Lost(RunAll(st, seed, runs, vendor, w), k, s)
  {
    hide Lost, RunOnce, RunRewrites, DoneSymbols, AlwaysSkipped, NeverRewritten;
    LostIsNamed(st, k, s);
    if |runs| == 0 {
      NoRuns(st, seed, vendor, w, k, s);
    } else {
      var n := |runs| - 1;
      LostForAsLongAs(st, seed, runs[..n], vendor, w, k, s);
      if NeverRewritten(st, seed, runs[..n], vendor, w, k) {
        LostUntilRewritten(RunAll(st, seed, runs[..n], vendor, w), seed, runs[n], vendor, w, k, s);
      }
      SkippedSplit(st, seed, runs, vendor, w, s);
      RewrittenSplit(st, seed, runs, vendor, w, k);
    }
  }

  lemma NoRuns(st: Staging, seed: seq<Symbol>, vendor: Symbol -> seq<Quote>, w: Window, k: nat, s: Symbol)
    ensures AlwaysSkipped(st, seed, [], vendor, w, s) <==> s in DoneSymbols(st)
    ensures NeverRewritten(st, seed, [], vendor, w, k)
  {
    var none: seq<Run> := [];
    assert none[..0] == none && RunAll(st, seed, none[..0], vendor, w) == st;
  }

  lemma LostIsNamed(st: Staging, k: nat, s: Symbol)
    requires Lost(st, k, s)
    ensures s in DoneSymbols(st)
  {
  }

  /** Both conditions split into the earlier runs and the last one. */
  lemma SkippedSplit(
      st: Staging, seed: seq<Symbol>, runs: seq<Run>, vendor: Symbol -> seq<Quote>, w: Window, s: Symbol)
    requires |runs| > 0
    ensures AlwaysSkipped(st, seed, runs, vendor, w, s) <==>
      && AlwaysSkipped(st, seed, runs[..|runs| - 1], vendor, w, s)
      && s in DoneSymbols(RunAll(st, seed, runs, vendor, w))
  {
    hide RunAll, DoneSymbols;
    var front := runs[..|runs| - 1];
    assert forall m :: 0 <= m <= |front| ==> front[..m] == runs[..m];
    assert runs[..|runs|] == runs;
  }

  lemma RewrittenSplit(
      st: Staging, seed: seq<Symbol>, runs: seq<Run>, vendor: Symbol -> seq<Quote>, w: Window, k: nat)
    requires |runs| > 0
    ensures NeverRewritten(st, seed, runs, vendor, w, k) <==>
      && NeverRewritten(st, seed, runs[..|runs| - 1], vendor, w, k)
      && !RunRewrites(RunAll(st, seed, runs[..|runs| - 1], vendor, w), seed, runs[|runs| - 1], k)
  {
    hide RunAll, RunRewrites;
    var front := runs[..|runs| - 1];
    assert forall m :: 0 <= m < |front| ==> front[..m] == runs[..m] && front[m] == runs[m];
  }

  /**
   * What a split crash costs: over any later restarts a symbol its batch had fetched is skipped for exactly as long
   * as no run rewrites that batch's done file.
   */
  lemma SplitSkippedForAsLongAs(
      st: Staging, seed: seq<Symbol>, runs: seq<Run>, k: nat, second: int, batch: seq<Symbol>, failing: set<Symbol>,
      vendor: Symbol -> seq<Quote>, w: Window, crash: CrashPoint, s: Symbol)
    requires Splits(crash) && s in batch && s !in failing && s !in DoneSymbols(st) && FreshName(st.chunks, k, second)
    ensures
      var split := StageBatch(st, k, second, batch, failing, vendor, w, crash);
      && (AlwaysSkipped(split, seed, runs, vendor, w, s) <==> NeverRewritten(split, seed, runs, vendor, w, k))
      && (NeverRewritten(split, seed, runs, vendor, w, k) ==> Lost(RunAll(split, seed, runs, vendor, w), k, s))
  {
    hide StageBatch, Lost, AlwaysSkipped, NeverRewritten, DoneSymbols;
    SplitMakesLost(st, k, second, batch, failing, vendor, w, crash, s);
    LostForAsLongAs(StageBatch(st, k, second, batch, failing, vendor, w, crash), seed, runs, vendor, w, k, s);
  }

  /** Once file k was rewritten, a run that finishes fetches the lost symbol again and stages all of its rows. */
  lemma RewrittenIsStagedAgain(
      st: Staging, seed: seq<Symbol>, run: Run, next: Run, vendor: Symbol -> seq<Quote>, w: Window, k: nat, s: Symbol)
    requires Lost(st, k, s) && RunRewrites(st, seed, run, k)
    requires NoDuplicates(seed) && s in seed && AllOrNothing(st, vendor, w) && SecondsBefore(st.chunks, run.began)
    requires run.Valid() && next.Valid() && run.ended < next.began && next.crash.None? && s !in next.failing
    ensures
      var after := RunOnce(st, seed, run, vendor, w);
      RowsOf(AllRows(RunOnce(after, seed, next, vendor, w).chunks), s) == Fetched(s, vendor(s), w)
  {
    LostUntilRewritten(st, seed, run, vendor, w, k, s);
    RunOnceAllOrNothing(st, seed, run, vendor, w);
    hide RunOnce, Lost, RunRewrites, AllOrNothing, DoneSymbols;
    var after := RunOnce(st, seed, run, vendor, w);
    FinishedRunRows(after, seed, next, vendor, w, s);
  }
}
