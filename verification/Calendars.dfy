/** Sorted, duplicate-free schedules of sessions; a session is an integer day or minute. */
module Calendars {

  predicate StrictlyIncreasing(s: seq<int>) {
    forall i, j :: 0 <= i < j < |s| ==> s[i] < s[j]
  }

  lemma AppendLargest(s: seq<int>, x: int)
    requires StrictlyIncreasing(s)
    requires forall y :: y in s ==> y < x
    ensures StrictlyIncreasing(s + [x])
  {
    assert forall i :: 0 <= i < |s| ==> s[i] in s;
  }

  /** Insert x into a strictly increasing sequence, unless it is there already. */
  function Insert(s: seq<int>, x: int): (r: seq<int>)
    requires StrictlyIncreasing(s)
    ensures StrictlyIncreasing(r)
    ensures forall y :: y in r <==> y in s || y == x
  {
    if |s| == 0 then [x]
    else
      var front, last := s[..|s| - 1], s[|s| - 1];
      assert s == front + [last];
      assert forall y :: y in front ==> y < last;
      if last < x then
        AppendLargest(s, x);
        s + [x]
      else if last == x then s
      else
        AppendLargest(Insert(front, x), last);
        Insert(front, x) + [last]
  }

  /** The distinct entries in increasing order: numpy's unique, or sorted(unique(...)). */
  function SortedUnique(s: seq<int>): (r: seq<int>)
    ensures StrictlyIncreasing(r)
    ensures forall y :: y in r <==> y in s
  {
    if |s| == 0 then []
    else
      assert s == s[..|s| - 1] + [s[|s| - 1]];
      Insert(SortedUnique(s[..|s| - 1]), s[|s| - 1])
  }

  /** The position of x in a schedule that holds it. */
  function IndexOf(s: seq<int>, x: int): (k: nat)
    requires x in s
    ensures k < |s| && s[k] == x
  {
    if s[0] == x then 0 else IndexOf(s[1..], x) + 1
  }

  /** The first entry is the smallest and the last the largest. */
  lemma EndsBound(s: seq<int>)
    requires StrictlyIncreasing(s) && |s| > 0
    ensures s[0] in s && s[|s| - 1] in s
    ensures forall x :: x in s ==> s[0] <= x <= s[|s| - 1]
  {
  }

  lemma HeldAt(s: seq<int>, i: nat)
    requires i < |s|
    ensures s[i] in s
  {
  }

  /** A strictly increasing sequence is determined by its set of entries. */
  lemma {:induction false} SameEntriesSameSchedule(a: seq<int>, b: seq<int>)
    requires StrictlyIncreasing(a) && StrictlyIncreasing(b)
    requires forall x :: x in a <==> x in b
    ensures a == b
  {
    if |a| == 0 {
      if |b| != 0 {
        HeldAt(b, 0);
        assert false;
      }
    } else {
      var x := a[|a| - 1];
      assert x in b;
      var y := b[|b| - 1];
      assert y in a;
      var i :| 0 <= i < |a| && a[i] == y;
      var j :| 0 <= j < |b| && b[j] == x;
      assert x == y;
      var a', b' := a[..|a| - 1], b[..|b| - 1];
      forall z
        ensures z in a' <==> z in b'
      {
        assert z in a' <==> z in a && z != x;
        assert z in b' <==> z in b && z != y;
      }
      SameEntriesSameSchedule(a', b');
      assert a == a' + [x] && b == b' + [y];
    }
  }
}
