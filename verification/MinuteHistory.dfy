/** The incremental 1-minute bar cache: backward paging and head/tail extension. Times are whole minutes. */
module MinuteHistory {
  import opened Options
  import opened Calendars

  const PAGE := 2000
  const MAX_CALLS := 60
  const HOUR := 60

  // ----- the vendor

  /** How many bars are at or before the cursor. */
  function CountUpTo(bars: seq<int>, cursor: int): (n: nat)
    requires StrictlyIncreasing(bars)
    ensures n <= |bars|
    ensures forall i :: 0 <= i < |bars| ==> (bars[i] <= cursor <==> i < n)
  {
    if |bars| == 0 || bars[|bars| - 1] <= cursor then |bars|
    else CountUpTo(bars[..|bars| - 1], cursor)
  }

  /** One call: the latest bars at or before the cursor, at most a page of them. */
  function Page(bars: seq<int>, cursor: int): (page: seq<int>)
    requires StrictlyIncreasing(bars)
  {
    var n := CountUpTo(bars, cursor);
    bars[if n < PAGE then 0 else n - PAGE..n]
  }

  /** The bars from start to end, both included. */
  function Range(bars: seq<int>, start: int, end: int): (r: seq<int>)
    requires StrictlyIncreasing(bars)
    ensures StrictlyIncreasing(r)
    ensures forall x :: x in r <==> x in bars && start <= x <= end
  {
    var lo, hi := CountUpTo(bars, start - 1), CountUpTo(bars, end);
    if lo <= hi then
      SliceMembers(bars, lo, hi);
      bars[lo..hi]
    else
      assert forall x :: x in bars ==> x <= start - 1 || x > end;
      []
  }

  lemma SliceMembers(bars: seq<int>, lo: nat, hi: nat)
    requires StrictlyIncreasing(bars) && lo <= hi <= |bars|
    ensures forall x :: x in bars[lo..hi] <==> exists i :: lo <= i < hi && bars[i] == x
    ensures forall i :: lo <= i < hi ==> bars[i] in bars[lo..hi]
  {
    forall i | lo <= i < hi
      ensures bars[i] in bars[lo..hi]
    {
      assert bars[lo..hi][i - lo] == bars[i];
    }
  }

  ghost predicate IsSuffix(a: seq<int>, b: seq<int>) {
    |a| <= |b| && a == b[|b| - |a|..]
  }

  function Minimum(s: seq<int>): (m: int)
    requires |s| > 0
    ensures m in s && forall x :: x in s ==> m <= x
  {
    if |s| == 1 then s[0]
    else
      var m := Minimum(s[..|s| - 1]);
      assert s == s[..|s| - 1] + [s[|s| - 1]];
      if s[|s| - 1] < m then s[|s| - 1] else m
  }

  function Within(s: seq<int>, start: int, end: int): (r: seq<int>)
    ensures forall x :: x in r <==> x in s && start <= x <= end
  {
    if |s| == 0 then []
    else
      var r, x := Within(s[..|s| - 1], start, end), s[|s| - 1];
      assert s == s[..|s| - 1] + [x];
      if start <= x <= end then r + [x] else r
  }

  // ----- paging

  /** What one successful call moves: the frames gain the page below `lo`, and the cursor drops to just before it. */
  lemma PageStep(bars: seq<int>, cursor: int, lo: nat, hi: nat, frames: seq<int>)
    requires StrictlyIncreasing(bars) && lo <= hi <= |bars| && CountUpTo(bars, cursor) == lo && lo > 0
    requires forall x :: x in frames <==> x in bars[lo..hi]
    ensures
      var page := Page(bars, cursor);
      var next := if lo < PAGE then 0 else lo - PAGE;
      && |page| == lo - next > 0
      && Minimum(page) == bars[next]
      && (forall x :: x in frames + page <==> x in bars[next..hi])
      && CountUpTo(bars, bars[next] - 1) == next
      && (|page| < PAGE ==> next == 0)
  {
    hide StrictlyIncreasing, Minimum, CountUpTo;
    var next := if lo < PAGE then 0 else lo - PAGE;
    SliceMinimum(bars, next, lo);
    CountBefore(bars, next);
    SliceGrows(bars, next, lo, hi, frames);
  }

  lemma SliceGrows(bars: seq<int>, next: nat, lo: nat, hi: nat, frames: seq<int>)
    requires next <= lo <= hi <= |bars|
    requires forall x :: x in frames <==> x in bars[lo..hi]
    ensures forall x :: x in frames + bars[next..lo] <==> x in bars[next..hi]
  {
    assert bars[next..hi] == bars[next..lo] + bars[lo..hi];
  }

  lemma SliceMinimum(bars: seq<int>, next: nat, lo: nat)
    requires StrictlyIncreasing(bars) && next < lo <= |bars|
    ensures Minimum(bars[next..lo]) == bars[next]
  {
    var page := bars[next..lo];
    assert page[0] == bars[next] && page[0] in page;
    assert forall i :: 0 <= i < |page| ==> bars[next] <= page[i];
    assert Minimum(page) in page && Minimum(page) <= page[0];
  }

  lemma CountBefore(bars: seq<int>, k: nat)
    requires StrictlyIncreasing(bars) && k < |bars|
    ensures CountUpTo(bars, bars[k] - 1) == k
  {
    var n := CountUpTo(bars, bars[k] - 1);
    assert bars[k] <= bars[k] - 1 <==> k < n;
    if k > 0 {
      assert bars[k - 1] <= bars[k] - 1 <==> k - 1 < n;
    }
  }

  /** Cutting a slice to [start, end] leaves a slice. */
  lemma SliceWithin(bars: seq<int>, start: int, end: int, lo: nat, x: int)
    requires StrictlyIncreasing(bars) && lo <= CountUpTo(bars, end)
    ensures
      var first, hi := CountUpTo(bars, start - 1), CountUpTo(bars, end);
      var from := if lo < first then first else lo;
      x in bars[lo..hi] && start <= x <= end <==> from < hi && x in bars[from..hi]
  {
    var first, hi := CountUpTo(bars, start - 1), CountUpTo(bars, end);
    var from := if lo < first then first else lo;
    SliceMembers(bars, lo, hi);
    if from < hi {
      SliceMembers(bars, from, hi);
    }
  }

  lemma SliceIncreasing(bars: seq<int>, lo: nat, hi: nat)
    requires StrictlyIncreasing(bars)
    ensures StrictlyIncreasing([])
    ensures lo <= hi <= |bars| ==> StrictlyIncreasing(bars[lo..hi])
  {
  }

  /** The bars of the requested range from `lo` on. */
  function Kept(bars: seq<int>, start: int, end: int, lo: nat): (kept: seq<int>)
    requires StrictlyIncreasing(bars)
  {
    var first, hi := CountUpTo(bars, start - 1), CountUpTo(bars, end);
    var from := if lo < first then first else lo;
    if from < hi then bars[from..hi] else []
  }

  lemma KeptIsSuffix(bars: seq<int>, start: int, end: int, lo: nat)
    requires StrictlyIncreasing(bars) && lo <= CountUpTo(bars, end)
    ensures IsSuffix(Kept(bars, start, end, lo), Range(bars, start, end))
    ensures Kept(bars, start, end, lo) == Range(bars, start, end)
       <==> lo <= CountUpTo(bars, start - 1) || CountUpTo(bars, end) <= CountUpTo(bars, start - 1)
  {
    var first, hi := CountUpTo(bars, start - 1), CountUpTo(bars, end);
    SliceOrNothing(bars, first, hi, lo);
    hide StrictlyIncreasing, IsSuffix, CountUpTo;
  }

  lemma SliceOrNothing(bars: seq<int>, first: nat, hi: nat, lo: nat)
    requires lo <= hi <= |bars| && first <= |bars|
    ensures
      var from := if lo < first then first else lo;
      var kept, range := if from < hi then bars[from..hi] else [], if first <= hi then bars[first..hi] else [];
      IsSuffix(kept, range) && (kept == range <==> lo <= first || hi <= first)
  {
    var from := if lo < first then first else lo;
    if from < hi {
      assert bars[from..hi] == bars[first..hi][from - first..];
    }
  }

  /** What the frames give once cleaned: the tail of the requested range from `lo` on. */
  lemma FramesAreSuffix(bars: seq<int>, start: int, end: int, lo: nat, frames: seq<int>)
    requires StrictlyIncreasing(bars) && lo <= CountUpTo(bars, end)
    requires forall x :: x in frames <==> x in bars[lo..CountUpTo(bars, end)]
    ensures IsSuffix(SortedUnique(Within(frames, start, end)), Range(bars, start, end))
    ensures SortedUnique(Within(frames, start, end)) == Range(bars, start, end)
       <==> lo <= CountUpTo(bars, start - 1) || CountUpTo(bars, end) <= CountUpTo(bars, start - 1)
    ensures
      var first, hi := CountUpTo(bars, start - 1), CountUpTo(bars, end);
      var from := if lo < first then first else lo;
      |SortedUnique(Within(frames, start, end))| == if from < hi then hi - from else 0
  {
    var first, hi := CountUpTo(bars, start - 1), CountUpTo(bars, end);
    var from := if lo < first then first else lo;
    hide SortedUnique, Within, StrictlyIncreasing, Range, IsSuffix;
    var out, kept := SortedUnique(Within(frames, start, end)), Kept(bars, start, end, lo);
    forall x
      ensures x in out <==> x in kept
    {
      SliceWithin(bars, start, end, lo, x);
    }
    SliceIncreasing(bars, from, hi);
    SameEntriesSameSchedule(out, kept);
    KeptIsSuffix(bars, start, end, lo);
  }

  /** How many of the first n calls do not raise. */
  function Successes(fails: nat -> bool, n: nat): (s: nat)
    ensures s <= n
  {
    if n == 0 then 0 else Successes(fails, n - 1) + if fails(n - 1) then 0 else 1
  }

  lemma {:induction false} SuccessesGrow(fails: nat -> bool, i: nat, n: nat)
    requires i <= n
    ensures Successes(fails, i) <= Successes(fails, n)
  {
    if i < n {
      SuccessesGrow(fails, i, n - 1);
    }
  }

  /** The latest bars of [start, end], as many as that number of full pages holds. */
  function Paged(bars: seq<int>, start: int, end: int, pages: nat): seq<int>
    requires StrictlyIncreasing(bars)
  {
    var r := Range(bars, start, end);
    if |r| <= PAGE * pages then r else r[|r| - PAGE * pages..]
  }

  /** A tail that stops short of the range only for want of pages is the paged one. */
  lemma TailIsPaged(bars: seq<int>, start: int, end: int, pages: nat, lo: nat, out: seq<int>)
    requires StrictlyIncreasing(bars)
    requires IsSuffix(out, Range(bars, start, end))
    requires
      var first, hi := CountUpTo(bars, start - 1), CountUpTo(bars, end);
      var from := if lo < first then first else lo;
      && lo == (if hi < PAGE * pages then 0 else hi - PAGE * pages)
      && |out| == if from < hi then hi - from else 0
    ensures out == Paged(bars, start, end, pages)
  {
  }

  /**
   * Page backward from `end`. `fails(i)` says whether call i raises. The result is the latest part of [start, end]
   * that the calls that do not raise can page through, and all of it when the loop leaves by break.
   */
  method FetchSymbol(bars: seq<int>, start: int, end: int, fails: nat -> bool, maxCalls: nat)
    returns (out: seq<int>, broke: bool)
    requires StrictlyIncreasing(bars)
    ensures out == Paged(bars, start, end, Successes(fails, maxCalls))
    ensures IsSuffix(out, Range(bars, start, end))
    ensures broke ==> out == Range(bars, start, end)
  {
    hide Range, Successes, StrictlyIncreasing, SortedUnique, Within, Paged, IsSuffix, CountUpTo, Page, Minimum;
    NoCalls(fails);
    var frames: seq<int> := [];
    var cursor := end;
    ghost var hi := CountUpTo(bars, end);
    ghost var lo := hi;
    ghost var pages := 0;
    broke := false;
    for i := 0 to maxCalls
      invariant lo <= hi && CountUpTo(bars, cursor) == lo
      invariant forall x :: x in frames <==> x in bars[lo..hi]
      invariant !broke && pages == Successes(fails, i)
      invariant lo == if hi < PAGE * pages then 0 else hi - PAGE * pages
    {
      OneCall(fails, i);
      SuccessesGrow(fails, i, maxCalls);
      SuccessesGrow(fails, i + 1, maxCalls);
      if fails(i) {
        continue;
      }
      var k := Page(bars, cursor);
      if |k| == 0 {
        broke := true;
        EmptyPage(bars, cursor);
        break;
      }
      FullPage(bars, cursor);
      PageStep(bars, cursor, lo, hi, frames);
      frames := frames + k;
      lo := if lo < PAGE then 0 else lo - PAGE;
      pages := pages + 1;
      var oldest := Minimum(k);
      if oldest <= start || |k| < PAGE {
        broke := true;
        ReachedStart(bars, start, lo);
        break;
      }
      cursor := oldest - 1;
    }
    FramesAreSuffix(bars, start, end, lo, frames);
    out := SortedUnique(Within(frames, start, end));
    if broke {
      WholeIsPaged(bars, start, end, pages, Successes(fails, maxCalls), lo);
    } else {
      TailIsPaged(bars, start, end, pages, lo, out);
    }
    if |frames| == 0 {
      NothingWithin(frames, start, end);
      return [], broke;
    }
  }

  lemma EmptyPage(bars: seq<int>, cursor: int)
    requires StrictlyIncreasing(bars) && |Page(bars, cursor)| == 0
    ensures CountUpTo(bars, cursor) == 0
  {
  }

  lemma FullPage(bars: seq<int>, cursor: int)
    requires StrictlyIncreasing(bars) && |Page(bars, cursor)| > 0
    ensures CountUpTo(bars, cursor) > 0
  {
  }

  lemma ReachedStart(bars: seq<int>, start: int, lo: nat)
    requires StrictlyIncreasing(bars) && lo < |bars| && (bars[lo] <= start || lo == 0)
    ensures lo <= CountUpTo(bars, start - 1)
  {
    hide CountUpTo;
    assert lo > 0 ==> bars[lo - 1] < bars[lo] <= start;
  }

  lemma NothingWithin(frames: seq<int>, start: int, end: int)
    requires |frames| == 0
    ensures SortedUnique(Within(frames, start, end)) == []
  {
  }

  lemma NoCalls(fails: nat -> bool)
    ensures Successes(fails, 0) == 0
  {
  }

  lemma OneCall(fails: nat -> bool, i: nat)
    ensures Successes(fails, i + 1) == Successes(fails, i) + if fails(i) then 0 else 1
  {
  }

  /** A break means that the pages so far reach below the range, so more of them give the same. */
  lemma WholeIsPaged(bars: seq<int>, start: int, end: int, pages: nat, more: nat, lo: nat)
    requires StrictlyIncreasing(bars) && pages <= more
    requires
      var first, hi := CountUpTo(bars, start - 1), CountUpTo(bars, end);
      && lo == (if hi < PAGE * pages then 0 else hi - PAGE * pages)
      && (lo <= first || hi <= first)
    ensures Range(bars, start, end) == Paged(bars, start, end, more)
  {
  }

  // ----- the cache

  /** The cache holds every vendor bar between its first and its last, and nothing else. */
  ghost predicate GapFree(bars: seq<int>, cache: seq<int>)
    requires StrictlyIncreasing(bars)
  {
    |cache| > 0 ==> cache == Range(bars, cache[0], cache[|cache| - 1])
  }

  lemma GapFreeByMembers(bars: seq<int>, cache: seq<int>)
    requires StrictlyIncreasing(bars) && StrictlyIncreasing(cache) && |cache| > 0
    ensures GapFree(bars, cache) <==>
      (forall x :: x in cache ==> x in bars) &&
      (forall x :: x in bars && cache[0] <= x <= cache[|cache| - 1] ==> x in cache)
  {
    EndsBound(cache);
    hide Range, StrictlyIncreasing;
    var r := Range(bars, cache[0], cache[|cache| - 1]);
    if (forall x :: x in cache ==> x in bars)
      && (forall x :: x in bars && cache[0] <= x <= cache[|cache| - 1] ==> x in cache) {
      forall x
        ensures x in cache <==> x in r
      {
      }
      SameEntriesSameSchedule(cache, r);
    }
  }

  lemma SuffixUpward(a: seq<int>, b: seq<int>, y: int, x: int)
    requires StrictlyIncreasing(b) && IsSuffix(a, b) && y in a && x in b && y <= x
    ensures x in a && y in b
  {
    var d := |b| - |a|;
    var i :| 0 <= i < |a| && a[i] == y;
    assert b[d + i] == y;
    var j :| 0 <= j < |b| && b[j] == x;
    assert d + i <= j;
    assert a[j - d] == x;
  }

  lemma NothingIsSuffix(b: seq<int>)
    ensures IsSuffix([], b)
  {
  }

  lemma SuffixMembers(a: seq<int>, b: seq<int>)
    requires IsSuffix(a, b)
    ensures forall x :: x in a ==> x in b
  {
    forall x | x in a
      ensures x in b
    {
      var i :| 0 <= i < |a| && a[i] == x;
      assert b[|b| - |a| + i] == x;
    }
  }

  /** The part of the vendor's history the cache lacks before its first bar, and after its last. */
  function HeadRange(bars: seq<int>, cache: seq<int>, start: int): seq<int>
    requires StrictlyIncreasing(bars) && |cache| > 0
  {
    Range(bars, start, cache[0] - 1)
  }

  function TailRange(bars: seq<int>, cache: seq<int>, end: int): seq<int>
    requires StrictlyIncreasing(bars) && |cache| > 0
  {
    Range(bars, cache[|cache| - 1] + 1, end)
  }

  /** The written cache: everything concatenated, deduplicated and sorted. */
  function Extended(cache: seq<int>, head: seq<int>, tail: seq<int>): seq<int> {
    SortedUnique(cache + head + tail)
  }

  /** Pieces that paging may have returned for a non-empty cache. */
  ghost predicate Pieces(bars: seq<int>, cache: seq<int>, start: int, end: int, head: seq<int>, tail: seq<int>)
    requires StrictlyIncreasing(bars)
  {
    && StrictlyIncreasing(cache) && |cache| > 0
    && IsSuffix(head, HeadRange(bars, cache, start))
    && IsSuffix(tail, TailRange(bars, cache, end))
  }

  lemma ExtendedBounds(bars: seq<int>, cache: seq<int>, start: int, end: int, head: seq<int>, tail: seq<int>)
    requires StrictlyIncreasing(bars) && Pieces(bars, cache, start, end, head, tail)
    ensures
      var e := Extended(cache, head, tail);
      && |e| > 0
      && (forall x :: x in e <==> x in cache || x in head || x in tail)
      && (forall x :: x in e ==> e[0] <= x <= e[|e| - 1])
      && (forall x :: x in head ==> x in bars && x < cache[0])
      && (forall x :: x in tail ==> x in bars && cache[|cache| - 1] < x <= end)
      && e[0] in e && e[|e| - 1] in e
  {
    hide Range, SortedUnique, StrictlyIncreasing, IsSuffix;
    SuffixMembers(head, HeadRange(bars, cache, start));
    SuffixMembers(tail, TailRange(bars, cache, end));
    var e := Extended(cache, head, tail);
    assert cache[0] in e;
    EndsBound(e);
  }

  /** Whatever is fetched, the span the cache already covers is not touched: a hole in it is never filled. */
  lemma CoveredSpanIsFixed(
      bars: seq<int>, cache: seq<int>, start: int, end: int, head: seq<int>, tail: seq<int>, x: int)
    requires StrictlyIncreasing(bars) && Pieces(bars, cache, start, end, head, tail)
    requires cache[0] <= x <= cache[|cache| - 1]
    ensures x in Extended(cache, head, tail) <==> x in cache
  {
    ExtendedBounds(bars, cache, start, end, head, tail);
  }

  lemma WholeTailKeepsGapFree(bars: seq<int>, cache: seq<int>, start: int, end: int, head: seq<int>, tail: seq<int>)
    requires StrictlyIncreasing(bars) && Pieces(bars, cache, start, end, head, tail) && GapFree(bars, cache)
    requires tail == [] || tail == TailRange(bars, cache, end)
    ensures GapFree(bars, Extended(cache, head, tail))
  {
    hide Range, GapFree, IsSuffix;
    var e := Extended(cache, head, tail);
    ExtendedBounds(bars, cache, start, end, head, tail);
    GapFreeByMembers(bars, cache);
    forall x | x in bars && e[0] <= x <= e[|e| - 1]
      ensures x in e
    {
      if x < cache[0] {
        EndsBound(cache);
        HeadReachesDown(bars, cache, start, end, head, e[0], x);
      } else if x > cache[|cache| - 1] {
        TailReachesUp(bars, cache, end, e[|e| - 1], x);
      }
    }
    GapFreeByMembers(bars, e);
  }

  lemma TailReachesUp(bars: seq<int>, cache: seq<int>, end: int, y: int, x: int)
    requires StrictlyIncreasing(bars) && |cache| > 0 && x in bars && cache[|cache| - 1] < x <= y <= end
    ensures x in TailRange(bars, cache, end)
  {
  }

  lemma HeadReachesDown(bars: seq<int>, cache: seq<int>, start: int, end: int, head: seq<int>, y: int, x: int)
    requires StrictlyIncreasing(bars) && |cache| > 0 && IsSuffix(head, HeadRange(bars, cache, start))
    requires y in head && x in bars && y <= x < cache[0]
    ensures x in head
  {
    SuffixMembers(head, HeadRange(bars, cache, start));
    assert y in HeadRange(bars, cache, start);
    assert x in HeadRange(bars, cache, start);
    SuffixUpward(head, HeadRange(bars, cache, start), y, x);
  }

  lemma CutTailLeavesHole(bars: seq<int>, cache: seq<int>, start: int, end: int, head: seq<int>, tail: seq<int>)
    requires StrictlyIncreasing(bars) && Pieces(bars, cache, start, end, head, tail)
    requires tail != [] && tail != TailRange(bars, cache, end)
    ensures !GapFree(bars, Extended(cache, head, tail))
  {
    hide Range, GapFree;
    var e, t := Extended(cache, head, tail), TailRange(bars, cache, end);
    ExtendedBounds(bars, cache, start, end, head, tail);
    MissingBelowSuffix(tail, t);
    var x := t[|t| - |tail| - 1];
    assert x in t;
    assert tail[0] in tail && cache[0] in cache;
    assert x !in cache && x !in head;
    GapFreeByMembers(bars, e);
  }

  /**
   * A gap-free cache stays gap-free if and only if the tail fetch returned everything or nothing; the head never
   * matters.
   */
  lemma ExtendedGapFreeIff(bars: seq<int>, cache: seq<int>, start: int, end: int, head: seq<int>, tail: seq<int>)
    requires StrictlyIncreasing(bars) && Pieces(bars, cache, start, end, head, tail) && GapFree(bars, cache)
    ensures GapFree(bars, Extended(cache, head, tail)) <==> tail == [] || tail == TailRange(bars, cache, end)
  {
    if tail == [] || tail == TailRange(bars, cache, end) {
      WholeTailKeepsGapFree(bars, cache, start, end, head, tail);
    } else {
      CutTailLeavesHole(bars, cache, start, end, head, tail);
    }
  }

  /**
   * With that many successful calls at the tail, the cache stays gap-free exactly when they fetch nothing or reach
   * it all.
   */
  lemma PagedTailGapFreeIff(bars: seq<int>, cache: seq<int>, start: int, end: int, head: seq<int>, pages: nat)
    requires StrictlyIncreasing(bars) && StrictlyIncreasing(cache) && |cache| > 0 && GapFree(bars, cache)
    requires IsSuffix(head, HeadRange(bars, cache, start))
    ensures GapFree(bars, Extended(cache, head, Paged(bars, cache[|cache| - 1] + 1, end, pages))) <==>
      pages == 0 || |TailRange(bars, cache, end)| <= PAGE * pages
  {
    hide Range, GapFree, SortedUnique, StrictlyIncreasing;
    var t, tail := TailRange(bars, cache, end), Paged(bars, cache[|cache| - 1] + 1, end, pages);
    ExtendedGapFreeIff(bars, cache, start, end, head, tail);
  }

  /** 2001 minutes after a cache of one bar, and a tail fetch in which only the first call succeeds. */
  lemma OneSuccessfulCallLeavesHole(fails: nat -> bool)
    requires !fails(0) && forall i: nat :: 0 < i < MAX_CALLS ==> fails(i)
    ensures
      var bars := seq(2002, i => i);
      && StrictlyIncreasing(bars) && GapFree(bars, [0])
      && !GapFree(bars, Extended([0], [], Paged(bars, 1, 2001, Successes(fails, MAX_CALLS))))
  {
    var bars: seq<int> := seq(2002, i => i);
    hide Range, GapFree, Extended, Paged;
    OnlyFirstSucceeds(fails, MAX_CALLS);
    OnePageLeavesHole(bars, 2002);
  }

  lemma OnePageLeavesHole(bars: seq<int>, n: nat)
    requires |bars| == n > PAGE + 1 && StrictlyIncreasing(bars)
    requires forall i :: 0 <= i < n ==> bars[i] == i
    ensures GapFree(bars, [0]) && !GapFree(bars, Extended([0], [], Paged(bars, 1, n - 1, 1)))
  {
    hide Range, GapFree, SortedUnique, IsSuffix, CountUpTo, Paged, Extended, TailRange;
    assert bars[0] in bars;
    GapFreeByMembers(bars, [0]);
    NothingIsSuffix(HeadRange(bars, [0], 0));
    MinutesAfterFirst(bars, n);
    PagedTailGapFreeIff(bars, [0], 0, n - 1, [], 1);
  }

  lemma MinutesAfterFirst(bars: seq<int>, n: nat)
    requires |bars| == n > 1 && StrictlyIncreasing(bars)
    requires forall i :: 0 <= i < n ==> bars[i] == i
    ensures |TailRange(bars, [0], n - 1)| == n - 1
  {
    CountBefore(bars, 1);
    assert CountUpTo(bars, n - 1) == n by {
      assert bars[n - 1] <= n - 1;
    }
  }

  lemma {:induction false} OnlyFirstSucceeds(fails: nat -> bool, n: nat)
    requires n > 0 && !fails(0) && forall i: nat :: 0 < i < n ==> fails(i)
    ensures Successes(fails, n) == 1
  {
    if n > 1 {
      OnlyFirstSucceeds(fails, n - 1);
    }
  }

  lemma MissingBelowSuffix(a: seq<int>, b: seq<int>)
    requires StrictlyIncreasing(b) && IsSuffix(a, b) && 0 < |a| && a != b
    ensures |a| < |b| && b[|b| - |a| - 1] !in a && b[|b| - |a| - 1] < a[0]
  {
    assert b[0..] == b;
    var d := |b| - |a|;
    assert forall i :: 0 <= i < |a| ==> a[i] == b[d + i] > b[d - 1];
  }

  lemma SuffixIsGapFree(bars: seq<int>, start: int, end: int, piece: seq<int>)
    requires StrictlyIncreasing(bars) && IsSuffix(piece, Range(bars, start, end))
    ensures StrictlyIncreasing(piece) && GapFree(bars, piece)
  {
    var r := Range(bars, start, end);
    if |piece| > 0 {
      SuffixMembers(piece, r);
      forall x | x in bars && piece[0] <= x <= piece[|piece| - 1]
        ensures x in piece
      {
        assert piece[0] in piece && piece[|piece| - 1] in piece;
        SuffixUpward(piece, r, piece[0], x);
      }
      GapFreeByMembers(bars, piece);
    }
  }

  /** The cache file of one symbol: absent, or a list of bar times. */
  class MinuteCache {
    var file: Option<seq<int>>

    constructor ()
      ensures file == None
    {
      file := None;
    }

    ghost predicate Valid()
      reads this
    {
      file.Some? ==> StrictlyIncreasing(file.value)
    }

    /** No cache yet: one fetch of the whole range. */
    method FetchWhole(bars: seq<int>, start: int, end: int, fails: nat -> bool)
      returns (written: bool, piece: seq<int>)
      requires (file.None? || file == Some([])) && StrictlyIncreasing(bars)
      modifies this
      ensures Valid() && IsSuffix(piece, Range(bars, start, end))
      ensures piece == Paged(bars, start, end, Successes(fails, 60))
      ensures file == (if piece == [] then old(file) else Some(piece))
      ensures file.Some? ==> GapFree(bars, file.value)
      ensures written <==> piece != []
    {
      var whole;
      piece, whole := FetchSymbol(bars, start, end, fails, MAX_CALLS);
      SuffixIsGapFree(bars, start, end, piece);
      written := piece != [];
      if written {
        SameEntriesSameSchedule(SortedUnique(piece), piece);
        file := Some(SortedUnique(piece));
      }
    }

    /**
     * Extend a non-empty cache at its head and its tail. The pieces fetched are returned so that callers can say
     * what they were; `cut` tells whether the tail fetch ran out of calls.
     */
    method Extend(bars: seq<int>, start: int, end: int, headFails: nat -> bool, tailFails: nat -> bool)
      returns (written: bool, head: seq<int>, tail: seq<int>, ghost cut: bool)
      requires Valid() && StrictlyIncreasing(bars) && file.Some? && |file.value| > 0
      modifies this
      ensures Valid() && file.Some?
      ensures Pieces(bars, old(file).value, start, end, head, tail)
      ensures
        var first, last := old(file).value[0], old(file).value[|old(file).value| - 1];
        && head == (if start < first - 60 then Paged(bars, start, first - 1, Successes(headFails, 60)) else [])
        && tail == (if end > last + 60 then Paged(bars, last + 1, end, Successes(tailFails, 60)) else [])
      ensures file.value == Extended(old(file).value, head, tail)
      ensures !cut <==> tail == [] || tail == TailRange(bars, old(file).value, end)
      ensures !written ==> file == old(file)
    {
      hide GapFree, StrictlyIncreasing, SortedUnique, Range, IsSuffix, CountUpTo, Paged, Successes;
      var cache := file.value;
      var haveMin, haveMax := cache[0], cache[|cache| - 1];
      head, tail, cut := [], [], false;
      NothingIsSuffix(HeadRange(bars, cache, start));
      NothingIsSuffix(TailRange(bars, cache, end));
      var wantHead, wantTail := start < haveMin - HOUR, end > haveMax + HOUR;
      if wantHead {
        var whole;
        head, whole := FetchSymbol(bars, start, haveMin - 1, headFails, MAX_CALLS);
      }
      if wantTail {
        var whole;
        tail, whole := FetchSymbol(bars, haveMax + 1, end, tailFails, MAX_CALLS);
        cut := tail != [] && tail != TailRange(bars, cache, end);
      }
      written := wantHead || wantTail;
      if written {
        file := Some(SortedUnique(cache + head + tail));
      } else {
        assert cache + head + tail == cache;
        SameEntriesSameSchedule(SortedUnique(cache), cache);
      }
    }
  }

  // ----- any sequence of runs

  datatype Extension = Extension(start: int, end: int, head: seq<int>, tail: seq<int>)

  function CacheAfter(cache: seq<int>, runs: seq<Extension>): seq<int> {
    if |runs| == 0 then cache
    else Extended(CacheAfter(cache, runs[..|runs| - 1]), runs[|runs| - 1].head, runs[|runs| - 1].tail)
  }

  /** No tail extension was cut off part-way. */
  ghost predicate NeverCut(bars: seq<int>, cache: seq<int>, runs: seq<Extension>)
    requires StrictlyIncreasing(bars)
  {
    forall k :: 0 <= k < |runs| ==> TailUncut(bars, CacheAfter(cache, runs[..k]), runs[k])
  }

  /** The run's tail piece is empty or everything the vendor has after the cache. */
  ghost predicate TailUncut(bars: seq<int>, before: seq<int>, run: Extension)
    requires StrictlyIncreasing(bars)
  {
    run.tail == [] || (|before| > 0 && run.tail == TailRange(bars, before, run.end))
  }

  /** Every run's pieces are what paging may have returned for the cache it met. */
  ghost predicate Fetches(bars: seq<int>, cache: seq<int>, runs: seq<Extension>)
    requires StrictlyIncreasing(bars)
  {
    forall k :: 0 <= k < |runs| ==>
      Pieces(bars, CacheAfter(cache, runs[..k]), runs[k].start, runs[k].end, runs[k].head, runs[k].tail)
  }

  /** Over any number of runs the span the cache covers now keeps its bars and its holes. */
  lemma {:induction false} HolesAreNeverFilled(bars: seq<int>, cache: seq<int>, runs: seq<Extension>, x: int)
    requires StrictlyIncreasing(bars) && StrictlyIncreasing(cache) && Fetches(bars, cache, runs)
    requires |cache| > 0 && cache[0] <= x <= cache[|cache| - 1]
    ensures x in CacheAfter(cache, runs) <==> x in cache
    ensures forall y :: y in cache ==> y in CacheAfter(cache, runs)
  {
    if |runs| != 0 {
      var n := |runs| - 1;
      var before := CacheAfter(cache, runs[..n]);
      FetchesPrefix(bars, cache, runs, n);
      hide Pieces, Extended, Fetches, StrictlyIncreasing, CacheAfter;
      HolesAreNeverFilled(bars, cache, runs[..n], x);
      ExtendedBounds(bars, before, runs[n].start, runs[n].end, runs[n].head, runs[n].tail);
      SpanCovered(bars, cache, before, runs[n]);
      CoveredSpanIsFixed(bars, before, runs[n].start, runs[n].end, runs[n].head, runs[n].tail, x);
      LastExtension(cache, runs);
    }
  }

  lemma LastExtension(cache: seq<int>, runs: seq<Extension>)
    requires |runs| > 0
    ensures CacheAfter(cache, runs)
         == Extended(CacheAfter(cache, runs[..|runs| - 1]), runs[|runs| - 1].head, runs[|runs| - 1].tail)
  {
  }

  lemma SpanCovered(bars: seq<int>, cache: seq<int>, before: seq<int>, run: Extension)
    requires StrictlyIncreasing(bars) && StrictlyIncreasing(cache) && |cache| > 0
    requires Pieces(bars, before, run.start, run.end, run.head, run.tail)
    requires forall y :: y in cache ==> y in before
    ensures before[0] <= cache[0] && cache[|cache| - 1] <= before[|before| - 1]
  {
    EndsBound(before);
    EndsBound(cache);
  }

  lemma FetchesPrefix(bars: seq<int>, cache: seq<int>, runs: seq<Extension>, n: nat)
    requires StrictlyIncreasing(bars) && Fetches(bars, cache, runs) && n < |runs|
    ensures Fetches(bars, cache, runs[..n])
    ensures Pieces(bars, CacheAfter(cache, runs[..n]), runs[n].start, runs[n].end, runs[n].head, runs[n].tail)
  {
    hide CacheAfter, Pieces;
    forall k | 0 <= k < n
      ensures runs[..n][k] == runs[k] && runs[..n][..k] == runs[..k]
    {
    }
  }

  /** A hole, or an entry the vendor does not have, outlives every extension. */
  lemma GapStays(bars: seq<int>, cache: seq<int>, start: int, end: int, head: seq<int>, tail: seq<int>)
    requires StrictlyIncreasing(bars) && Pieces(bars, cache, start, end, head, tail) && !GapFree(bars, cache)
    ensures !GapFree(bars, Extended(cache, head, tail))
  {
    hide Range, GapFree, StrictlyIncreasing, IsSuffix, Extended;
    var e := Extended(cache, head, tail);
    ExtendedBounds(bars, cache, start, end, head, tail);
    EndsBound(cache);
    GapFreeByMembers(bars, cache);
    ExtendedIncreases(cache, head, tail);
    GapFreeByMembers(bars, e);
  }

  lemma ExtendedIncreases(cache: seq<int>, head: seq<int>, tail: seq<int>)
    ensures StrictlyIncreasing(Extended(cache, head, tail))
  {
  }

  /** Over any number of runs a gap-free cache is gap-free at the end if and only if no tail extension was cut off. */
  lemma {:induction false} CacheStaysGapFreeIff(bars: seq<int>, cache: seq<int>, runs: seq<Extension>)
    requires StrictlyIncreasing(bars) && StrictlyIncreasing(cache) && GapFree(bars, cache)
    requires Fetches(bars, cache, runs)
    ensures GapFree(bars, CacheAfter(cache, runs)) <==> NeverCut(bars, cache, runs)
  {
    hide GapFree, Extended, TailRange, NeverCut, Fetches, Pieces, TailUncut, CacheAfter, StrictlyIncreasing;
    if |runs| == 0 {
      NoRunsNoCut(bars, cache);
    } else {
      var n := |runs| - 1;
      var before, run := CacheAfter(cache, runs[..n]), runs[n];
      FetchesPrefix(bars, cache, runs, n);
      CacheStaysGapFreeIff(bars, cache, runs[..n]);
      LastExtension(cache, runs);
      NeverCutSplit(bars, cache, runs);
      TailUncutIs(bars, before, run);
      if GapFree(bars, before) {
        ExtendedGapFreeIff(bars, before, run.start, run.end, run.head, run.tail);
      } else {
        GapStays(bars, before, run.start, run.end, run.head, run.tail);
      }
    }
  }

  lemma NoRunsNoCut(bars: seq<int>, cache: seq<int>)
    requires StrictlyIncreasing(bars)
    ensures CacheAfter(cache, []) == cache && NeverCut(bars, cache, []) && Fetches(bars, cache, [])
  {
  }

  lemma TailUncutIs(bars: seq<int>, before: seq<int>, run: Extension)
    requires StrictlyIncreasing(bars) && Pieces(bars, before, run.start, run.end, run.head, run.tail)
    ensures |before| > 0
    ensures TailUncut(bars, before, run) <==> run.tail == [] || run.tail == TailRange(bars, before, run.end)
  {
    hide TailRange;
  }

  lemma NeverCutSplit(bars: seq<int>, cache: seq<int>, runs: seq<Extension>)
    requires StrictlyIncreasing(bars) && |runs| > 0
    ensures
      var n := |runs| - 1;
      NeverCut(bars, cache, runs) <==>
        NeverCut(bars, cache, runs[..n]) && TailUncut(bars, CacheAfter(cache, runs[..n]), runs[n])
  {
    hide CacheAfter, TailUncut;
    var n := |runs| - 1;
    assert forall k :: 0 <= k < n ==> runs[..n][k] == runs[k] && runs[..n][..k] == runs[..k];
  }
}
