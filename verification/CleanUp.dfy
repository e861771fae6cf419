/** Opening another window discards the old staging file by file; what a crash on the way leaves for the old window. */
module CleanUp {
  import opened Options
  import opened CatchUp

  /** The chunk files whose positions are in `keep`. */
  function Kept(chunks: seq<ChunkFile>, keep: set<nat>): seq<ChunkFile> {
    if |chunks| == 0 then []
    else
      var n := |chunks| - 1;
      if n in keep then Kept(chunks[..n], keep) + [chunks[n]] else Kept(chunks[..n], keep)
  }

  function Positions(n: nat): (r: set<nat>)
    ensures forall i: nat :: i in r <==> i < n
    ensures |r| == n
  {
    if n == 0 then {} else Positions(n - 1) + {n - 1}
  }

  lemma {:induction false} KeptLength(chunks: seq<ChunkFile>, keep: set<nat>)
    requires forall i :: i in keep ==> i < |chunks|
    ensures |Kept(chunks, keep)| == |keep|
  {
    if |chunks| == 0 {
      assert keep == {};
    } else {
      var n := |chunks| - 1;
      KeptLength(chunks[..n], keep - {n});
      KeptBelow(chunks[..n], keep);
    }
  }

  /** Positions beyond the files make no difference. */
  lemma {:induction false} KeptBelow(chunks: seq<ChunkFile>, keep: set<nat>)
    ensures Kept(chunks, keep - {|chunks|}) == Kept(chunks, keep)
  {
    KeptAgrees(chunks, keep, keep - {|chunks|});
  }

  lemma {:induction false} KeptAgrees(chunks: seq<ChunkFile>, a: set<nat>, b: set<nat>)
    requires forall i: nat :: i < |chunks| ==> (i in a <==> i in b)
    ensures Kept(chunks, a) == Kept(chunks, b)
  {
    if |chunks| != 0 {
      KeptAgrees(chunks[..|chunks| - 1], a, b);
    }
  }

  lemma {:induction false} KeptAll(chunks: seq<ChunkFile>, keep: set<nat>)
    requires forall i: nat :: i < |chunks| ==> i in keep
    ensures Kept(chunks, keep) == chunks
  {
    if |chunks| != 0 {
      KeptAll(chunks[..|chunks| - 1], keep);
    }
  }

  lemma {:induction false} KeptNone(chunks: seq<ChunkFile>)
    ensures Kept(chunks, {}) == []
  {
    if |chunks| != 0 {
      KeptNone(chunks[..|chunks| - 1]);
    }
  }

  /** A clean-up that stopped early: chunk files go first, done files only when no chunk file is left. */
  ghost predicate CutShort(st: Staging, keep: set<nat>, left: Staging) {
    && left.chunks == Kept(st.chunks, keep)
    && (forall k :: k in left.done ==> k in st.done && left.done[k] == st.done[k])
    && (keep != {} ==> left.done == st.done)
  }

  /** An unlinked chunk file held a row of the symbol. */
  ghost predicate Unlinked(chunks: seq<ChunkFile>, keep: set<nat>, s: Symbol) {
    exists i: nat :: i < |chunks| && i !in keep && HasRowOf(chunks[i], s)
  }

  predicate HasRowOf(f: ChunkFile, s: Symbol) {
    f.rows.Some? && s in Symbols(f.rows.value)
  }

  lemma UnlinkedSplit(chunks: seq<ChunkFile>, keep: set<nat>, s: Symbol)
    requires |chunks| > 0
    ensures
      var n := |chunks| - 1;
      Unlinked(chunks, keep, s) <==> Unlinked(chunks[..n], keep, s) || (n !in keep && HasRowOf(chunks[n], s))
  {
    hide HasRowOf;
    var n := |chunks| - 1;
    if i: nat :| i < n && i !in keep && HasRowOf(chunks[..n][i], s) {
      assert i < |chunks| && i !in keep && HasRowOf(chunks[i], s);
    }
    if i: nat :| i < |chunks| && i !in keep && HasRowOf(chunks[i], s) {
      assert i < n ==> HasRowOf(chunks[..n][i], s);
    }
  }

  lemma RowsOfFile(f: ChunkFile, s: Symbol)
    requires f.rows.Some?
    ensures RowsOf(f.rows.value, s) == [] <==> !HasRowOf(f, s)
  {
    if HasRowOf(f, s) {
      var b :| b in f.rows.value && b.symbol == s;
      assert b in RowsOf(f.rows.value, s);
    } else {
      NoRowsOfOthers(f.rows.value, s);
    }
  }

  lemma RowsAppend(chunks: seq<ChunkFile>, f: ChunkFile, s: Symbol)
    ensures RowsOf(AllRows(chunks + [f]), s)
         == RowsOf(AllRows(chunks), s) + if f.rows.Some? then RowsOf(f.rows.value, s) else []
  {
    hide RowsOf, AllRows;
    AllRowsAppend(chunks, f);
    assert AllRows(chunks) + [] == AllRows(chunks);
    assert RowsOf(AllRows(chunks), s) + [] == RowsOf(AllRows(chunks), s);
    if f.rows.Some? {
      RowsOfConcat(AllRows(chunks), f.rows.value, s);
    }
  }

  /** The remaining files hold all of a symbol's rows, or fewer: all exactly when no unlinked file held one. */
  lemma {:induction false} KeptRowsOf(chunks: seq<ChunkFile>, keep: set<nat>, s: Symbol)
    ensures |RowsOf(AllRows(Kept(chunks, keep)), s)| <= |RowsOf(AllRows(chunks), s)|
    ensures RowsOf(AllRows(Kept(chunks, keep)), s) == RowsOf(AllRows(chunks), s) <==> !Unlinked(chunks, keep, s)
    ensures Unlinked(chunks, keep, s) ==>
      |RowsOf(AllRows(Kept(chunks, keep)), s)| < |RowsOf(AllRows(chunks), s)|
  {
    hide RowsOf, AllRows, HasRowOf;
    if |chunks| != 0 {
      var n := |chunks| - 1;
      var front, last := chunks[..n], chunks[n];
      assert chunks == front + [last];
      KeptRowsOf(front, keep, s);
      UnlinkedSplit(chunks, keep, s);
      RowsAppend(front, last, s);
      RowsAppend(Kept(front, keep), last, s);
      if last.rows.Some? {
        RowsOfFile(last, s);
      } else {
        Unreadable(last, s);
      }
    }
  }

  lemma Unreadable(f: ChunkFile, s: Symbol)
    requires f.rows.None?
    ensures !HasRowOf(f, s)
  {
  }

  lemma CutShortNames(st: Staging, keep: set<nat>, left: Staging)
    requires CutShort(st, keep, left)
    ensures DoneSymbols(left) <= DoneSymbols(st)
  {
    forall s | s in DoneSymbols(left)
      ensures s in DoneSymbols(st)
    {
      if s in Listed(left.done) {
        var k :| k in left.done && left.done[k].Some? && s in left.done[k].value;
        assert k in st.done && st.done[k].Some? && s in st.done[k].value;
      } else {
        var b :| b in AllRows(left.chunks) && b.symbol == s;
        RowOfFile(left.chunks, b);
        KeptIsHeld(st.chunks, keep);
        RowOfFile(st.chunks, b);
      }
    }
  }

  lemma {:induction false} KeptIsHeld(chunks: seq<ChunkFile>, keep: set<nat>)
    ensures forall f :: f in Kept(chunks, keep) ==> f in chunks
  {
    if |chunks| != 0 {
      var n := |chunks| - 1;
      assert chunks == chunks[..n] + [chunks[n]];
      KeptIsHeld(chunks[..n], keep);
    }
  }

  /**
   * While a chunk file is left no done file is gone, so a symbol that a done file names and that had a row in an
   * unlinked chunk file is still skipped, without that row.
   */
  lemma UnlinkedIsSkipped(
      st: Staging, keep: set<nat>, left: Staging, vendor: Symbol -> seq<Quote>, w: Window, s: Symbol)
    requires Complete(st, vendor, w) && CutShort(st, keep, left) && keep != {}
    requires s in Listed(st.done) && Unlinked(st.chunks, keep, s)
    ensures s in DoneSymbols(left) && RowsOf(AllRows(left.chunks), s) != Fetched(s, vendor(s), w)
  {
    hide RowsOf, AllRows, Unlinked, Fetched, Listed;
    KeptRowsOf(st.chunks, keep, s);
  }

  /**
   * A clean-up cut short leaves the old window's staging complete exactly when no symbol that a remaining file names
   * had a row in an unlinked one.
   */
  lemma CutShortCompleteIff(st: Staging, keep: set<nat>, left: Staging, vendor: Symbol -> seq<Quote>, w: Window)
    requires Complete(st, vendor, w) && CutShort(st, keep, left)
    ensures Complete(left, vendor, w) <==> forall s :: s in DoneSymbols(left) ==> !Unlinked(st.chunks, keep, s)
  {
    hide RowsOf, AllRows, Unlinked, DoneSymbols, Fetched;
    CutShortNames(st, keep, left);
    forall s
      ensures RowsOf(AllRows(left.chunks), s) == RowsOf(AllRows(st.chunks), s) <==> !Unlinked(st.chunks, keep, s)
    {
      KeptRowsOf(st.chunks, keep, s);
    }
  }

  /**
   * What a run for the old window that finishes then holds of a symbol: if a remaining file names it, all of its rows
   * exactly when no unlinked file held one; otherwise it is fetched again.
   */
  lemma RunAfterCutShort(
      st: Staging, keep: set<nat>, left: Staging, seed: seq<Symbol>, run: Run, vendor: Symbol -> seq<Quote>, w: Window,
      s: Symbol)
    requires Complete(st, vendor, w) && CutShort(st, keep, left) && s in seed && s !in run.failing
    requires run.Valid() && run.crash.None? && NoDuplicates(seed) && SecondsBefore(st.chunks, run.began)
    ensures RowsOf(AllRows(RunOnce(left, seed, run, vendor, w).chunks), s) == Fetched(s, vendor(s), w)
       <==> (s in DoneSymbols(left) ==> !Unlinked(st.chunks, keep, s))
  {
    hide RowsOf, AllRows, Unlinked, DoneSymbols, Fetched, RunOnce, NoDuplicates, Run.Valid;
    CutShortNames(st, keep, left);
    KeptRowsOf(st.chunks, keep, s);
    KeptIsHeld(st.chunks, keep);
    FinishedRunAdds(left, seed, run, vendor, w, s);
    if s in DoneSymbols(left) {
      assert RowsOf(AllRows(left.chunks), s) + [] == RowsOf(AllRows(left.chunks), s);
    } else {
      NotDoneNoRows(left, s);
      assert [] + Fetched(s, vendor(s), w) == Fetched(s, vendor(s), w);
    }
  }
}
