/** Purged, expanding walk-forward folds with an embargo gap, over session indices. */
module WalkForward {
  import opened Options
  import opened Calendars

  datatype Fold = Fold(
    fold: nat, trainStart: int, trainEnd: int, embargoStart: int, embargoEnd: int, testStart: int, testEnd: int)

  /** How many folds are attempted: fewer than asked for when there are too few sessions. */
  function Attempted(n: nat, nFolds: int, embargo: nat): int {
    if n < (nFolds + 1) * (embargo + 20) then
      if n / (embargo + 60) > 1 then n / (embargo + 60) else 1
    else nFolds
  }

  function TrainEndIdx(block: int, i: nat): int {
    block * (i + 1)
  }

  function TestStartIdx(block: int, embargo: nat, i: nat): int {
    TrainEndIdx(block, i) + embargo
  }

  function TestEndIdx(n: nat, block: int, embargo: nat, i: nat): int {
    var end := TestStartIdx(block, embargo, i) + block;
    if end < n - 1 then end else n - 1
  }

  /** The fold has a test window. */
  predicate Fits(n: nat, block: int, embargo: nat, i: nat) {
    TestStartIdx(block, embargo, i) < TestEndIdx(n, block, embargo, i)
  }

  /** Every index a fitting fold uses is a session, and its parts come in order. */
  lemma FittingFoldInRange(n: nat, block: int, embargo: nat, i: nat)
    requires Fits(n, block, embargo, i) && block >= 0
    ensures block >= 1
    ensures 0 <= TrainEndIdx(block, i) - 1 < TrainEndIdx(block, i) <= TestStartIdx(block, embargo, i)
          < TestEndIdx(n, block, embargo, i) < n
  {
    assert block * (i + 1) >= block * 1;
  }

  function FoldAt(sessions: seq<int>, block: nat, embargo: nat, i: nat): Fold
    requires Fits(|sessions|, block, embargo, i)
  {
    FittingFoldInRange(|sessions|, block, embargo, i);
    Fold(i, sessions[0], sessions[TrainEndIdx(block, i) - 1],
         sessions[TrainEndIdx(block, i)], sessions[TestStartIdx(block, embargo, i) - 1],
         sessions[TestStartIdx(block, embargo, i)], sessions[TestEndIdx(|sessions|, block, embargo, i)])
  }

  /** The indices one loop step computes are those of the fold, and they are all in range. */
  lemma StepIsFold(sessions: seq<int>, block: nat, embargo: nat, i: nat, trainEnd: int, testStart: int, testEnd: int)
    requires trainEnd == block * (i + 1) && testStart == trainEnd + embargo
    requires testEnd == if testStart + block < |sessions| - 1 then testStart + block else |sessions| - 1
    ensures Fits(|sessions|, block, embargo, i) <==> testStart < testEnd
    ensures testStart < testEnd ==>
      && 0 < trainEnd <= testStart < testEnd < |sessions|
      && FoldAt(sessions, block, embargo, i)
        == Fold(i, sessions[0], sessions[trainEnd - 1], sessions[trainEnd], sessions[testStart - 1],
                sessions[testStart], sessions[testEnd])
  {
    if Fits(|sessions|, block, embargo, i) {
      FittingFoldInRange(|sessions|, block, embargo, i);
    }
  }

  /** The loop: one fold after another until one has no test window. No index is ever out of range. */
  method FoldLoop(sessions: seq<int>, block: nat, embargo: nat, attempted: nat) returns (folds: seq<Fold>)
    ensures |folds| <= attempted
    ensures forall i :: 0 <= i < |folds| ==>
      Fits(|sessions|, block, embargo, i) && folds[i] == FoldAt(sessions, block, embargo, i)
    ensures |folds| < attempted ==> !Fits(|sessions|, block, embargo, |folds|)
  {
    hide Fits, FoldAt;
    folds := [];
    var i := 0;
    while i < attempted
      invariant 0 <= i <= attempted && |folds| == i
      invariant forall k :: 0 <= k < i ==>
        Fits(|sessions|, block, embargo, k) && folds[k] == FoldAt(sessions, block, embargo, k)
    {
      var trainEnd := block * (i + 1);
      var testStart := trainEnd + embargo;
      var testEnd := if testStart + block < |sessions| - 1 then testStart + block else |sessions| - 1;
      StepIsFold(sessions, block, embargo, i, trainEnd, testStart, testEnd);
      if testStart >= testEnd {
        break;
      }
      folds := folds + [Fold(i, sessions[0], sessions[trainEnd - 1], sessions[trainEnd], sessions[testStart - 1],
                             sessions[testStart], sessions[testEnd])];
      i := i + 1;
    }
  }

  /** The folds of a date column; None where the source divides by zero. */
  method BuildFolds(dates: seq<int>, nFolds: int, embargo: nat) returns (r: Option<seq<Fold>>)
    ensures r.None? <==> nFolds == -1
    ensures r.Some? && Attempted(|SortedUnique(dates)|, nFolds, embargo) <= 0 ==> r.value == []
    ensures r.Some? && Attempted(|SortedUnique(dates)|, nFolds, embargo) > 0 ==>
      (var sessions := SortedUnique(dates);
       var attempted := Attempted(|sessions|, nFolds, embargo);
       var block := |sessions| / (attempted + 1);
       && block >= 0
       && |r.value| <= attempted
       && (forall i :: 0 <= i < |r.value| ==>
             Fits(|sessions|, block, embargo, i) && r.value[i] == FoldAt(sessions, block, embargo, i))
       && (|r.value| < attempted ==> !Fits(|sessions|, block, embargo, |r.value|)))
  {
    hide Fits, FoldAt, SortedUnique, Attempted;
    var sessions := SortedUnique(dates);
    var attempted := Attempted(|sessions|, nFolds, embargo);
    AttemptedIsMinusOneIff(|sessions|, nFolds, embargo);
    if attempted + 1 == 0 {
      return None;
    }
    if attempted <= 0 {
      return Some([]);
    }
    BlockIsNat(|sessions|, attempted + 1);
    var folds := FoldLoop(sessions, |sessions| / (attempted + 1), embargo, attempted);
    r := Some(folds);
  }

  /** The adjusted count is -1, and the division by zero happens, only for a request of -1. */
  lemma AttemptedIsMinusOneIff(n: nat, nFolds: int, embargo: nat)
    ensures Attempted(n, nFolds, embargo) == -1 <==> nFolds == -1
  {
    if nFolds < 0 {
      NegativeRequests(n, nFolds, embargo);
    }
  }

  lemma BlockIsNat(n: nat, parts: nat)
    requires parts > 0
    ensures n / parts >= 0
  {
  }

  // ----- the folds' geometry

  /**
   * Training grows, the gap is exactly the embargo, and neighbouring test windows share exactly their boundary
   * session.
   */
  lemma FoldGeometry(sessions: seq<int>, block: nat, embargo: nat, i: nat)
    requires StrictlyIncreasing(sessions)
    requires Fits(|sessions|, block, embargo, i)
    ensures TestStartIdx(block, embargo, i) - TrainEndIdx(block, i) == embargo
    ensures FoldAt(sessions, block, embargo, i).trainStart <= FoldAt(sessions, block, embargo, i).trainEnd
          < FoldAt(sessions, block, embargo, i).testStart < FoldAt(sessions, block, embargo, i).testEnd
    ensures embargo > 0 ==>
      FoldAt(sessions, block, embargo, i).trainEnd < FoldAt(sessions, block, embargo, i).embargoStart
      <= FoldAt(sessions, block, embargo, i).embargoEnd < FoldAt(sessions, block, embargo, i).testStart
    ensures Fits(|sessions|, block, embargo, i + 1) ==>
      && TrainEndIdx(block, i) < TrainEndIdx(block, i + 1)
      && FoldAt(sessions, block, embargo, i).trainStart == FoldAt(sessions, block, embargo, i + 1).trainStart
      && FoldAt(sessions, block, embargo, i).trainEnd < FoldAt(sessions, block, embargo, i + 1).trainEnd
      && TestEndIdx(|sessions|, block, embargo, i) == TestStartIdx(block, embargo, i + 1)
      && FoldAt(sessions, block, embargo, i).testEnd == FoldAt(sessions, block, embargo, i + 1).testStart
  {
    FittingFoldInRange(|sessions|, block, embargo, i);
    NextBlock(block, i);
    if Fits(|sessions|, block, embargo, i + 1) {
      FittingFoldInRange(|sessions|, block, embargo, i + 1);
    }
  }

  lemma NextBlock(block: int, i: nat)
    ensures block * (i + 2) == block * (i + 1) + block
  {
  }

  /**
   * A training label at session t enters at t + 1 and exits at t + 1 + h. With h at most the embargo it exits no
   * later than the first test session, and on that very session exactly for the last row at the full horizon.
   */
  lemma LabelExitsByTestStart(n: nat, block: nat, embargo: nat, i: nat, t: nat, h: nat)
    requires Fits(n, block, embargo, i) && t < TrainEndIdx(block, i) && h <= embargo
    ensures t + 1 + h <= TestStartIdx(block, embargo, i) < n
    ensures t + 1 + h == TestStartIdx(block, embargo, i) <==> t == TrainEndIdx(block, i) - 1 && h == embargo
  {
    FittingFoldInRange(n, block, embargo, i);
  }

  // ----- how many folds

  /** A fold fits exactly when blocks are not empty and its test window starts before the last session. */
  lemma FitsIff(n: nat, block: nat, embargo: nat, i: nat)
    ensures Fits(n, block, embargo, i) <==> block >= 1 && block * (i + 1) + embargo < n - 1
  {
  }

  /** Earlier folds fit if a later one does, so the loop stops at the first that does not and misses none. */
  lemma FitsIsPrefixClosed(n: nat, block: nat, embargo: nat, i: nat, j: nat)
    requires i <= j && Fits(n, block, embargo, j)
    ensures Fits(n, block, embargo, i)
  {
    FitsIff(n, block, embargo, i);
    FitsIff(n, block, embargo, j);
    assert block * (j + 1) == block * (i + 1) + block * (j - i);
    assert block * (j - i) >= 0;
  }

  /** All attempted folds are produced if and only if the last one fits. */
  lemma AllFoldsIffLastFits(n: nat, attempted: nat, embargo: nat)
    requires attempted >= 1
    ensures
      var block := n / (attempted + 1);
      (forall i :: 0 <= i < attempted ==> Fits(n, block, embargo, i))
        <==> block >= 1 && block * attempted + embargo < n - 1
  {
    var block := n / (attempted + 1);
    FitsIff(n, block, embargo, attempted - 1);
    if Fits(n, block, embargo, attempted - 1) {
      forall i | 0 <= i < attempted
        ensures Fits(n, block, embargo, i)
      {
        FitsIsPrefixClosed(n, block, embargo, i, attempted - 1);
      }
    }
  }

  /**
   * How many folds are attempted: as many as asked for when each of them and one more can have 20 sessions beyond the
   * embargo; otherwise the most for which each can have 60 sessions beyond it, or one.
   */
  lemma AttemptedIs(n: nat, nFolds: int, embargo: nat)
    ensures
      var k := Attempted(n, nFolds, embargo);
      && (n >= (nFolds + 1) * (embargo + 20) ==> k == nFolds)
      && (n < (nFolds + 1) * (embargo + 20) ==>
            && k >= 1
            && n < (k + 1) * (embargo + 60)
            && (k > 1 ==> k * (embargo + 60) <= n))
  {
    var size := embargo + 60;
    var q := n / size;
    DivisionBounds(n, size);
    if q < 1 {
      assert n < size;
      assert 2 * size >= size;
    }
  }

  lemma DivisionBounds(n: nat, size: nat)
    requires size > 0
    ensures n / size * size <= n < (n / size + 1) * size
  {
    assert n == n / size * size + n % size;
  }

  /** With enough sessions exactly the requested number of folds is produced. */
  lemma EnoughSessionsGiveAllFolds(n: nat, nFolds: nat, embargo: nat)
    requires nFolds >= 1 && n >= (nFolds + 1) * (embargo + 20)
    ensures Attempted(n, nFolds, embargo) == nFolds
    ensures
      var block := n / (nFolds + 1);
      forall i :: 0 <= i < nFolds ==> Fits(n, block, embargo, i)
  {
    var block := n / (nFolds + 1);
    BlockBounds(n, nFolds + 1, embargo + 20);
    assert block * (nFolds + 1) == block * nFolds + block;
    AllFoldsIffLastFits(n, nFolds, embargo);
  }

  lemma BlockBounds(n: nat, parts: nat, least: nat)
    requires parts > 0 && n >= parts * least
    ensures n / parts >= least
    ensures n / parts * parts <= n
  {
    var q := n / parts;
    assert n == q * parts + n % parts;
    if q < least {
      ProductMonotone(q + 1, least, parts);
    }
  }

  lemma ProductMonotone(x: int, y: int, z: nat)
    requires x <= y
    ensures x * z <= y * z
  {
  }

  /** The other requests: -1 divides by zero, anything below gives no folds. */
  lemma NegativeRequests(n: nat, nFolds: int, embargo: nat)
    requires nFolds < 0
    ensures Attempted(n, nFolds, embargo) == nFolds
  {
    ProductMonotone(nFolds + 1, 0, embargo + 20);
  }
}
