/** Average-tie ranking within a date, as pandas' groupby(...).rank(method="average") computes it. */
module Ranks {
  import opened Options
  import opened Vectors

  /** A float cell: a missing number, a signed infinity, or a real. */
  datatype Num = NaN | NegInf | Fin(x: real) | PosInf

  predicate Less(a: Num, b: Num) {
    match (a, b)
    case (NegInf, Fin(_)) => true
    case (NegInf, PosInf) => true
    case (Fin(x), Fin(y)) => x < y
    case (Fin(_), PosInf) => true
    case _ => false
  }

  function Negate(a: Num): Num {
    match a
    case NaN => NaN
    case NegInf => PosInf
    case Fin(x) => Fin(-x)
    case PosInf => NegInf
  }

  function CountLess(g: seq<Num>, v: Num): nat {
    if |g| == 0 then 0 else CountLess(g[..|g| - 1], v) + if Less(g[|g| - 1], v) then 1 else 0
  }

  function CountGreater(g: seq<Num>, v: Num): nat {
    if |g| == 0 then 0 else CountGreater(g[..|g| - 1], v) + if Less(v, g[|g| - 1]) then 1 else 0
  }

  function CountSame(g: seq<Num>, v: Num): nat {
    if |g| == 0 then 0 else CountSame(g[..|g| - 1], v) + if g[|g| - 1] == v then 1 else 0
  }

  /** Ties share the mean of the places they occupy. */
  function AverageRank(g: seq<Num>, v: Num): real {
    CountLess(g, v) as real + (CountSame(g, v) as real + 1.0) / 2.0
  }

  /** The numbers present on one date. */
  function Group(dates: seq<int>, vals: seq<Num>, d: int): (g: seq<Num>)
    requires |dates| == |vals|
    ensures NaN !in g
  {
    if |dates| == 0 then []
    else
      var n := |dates| - 1;
      var g := Group(dates[..n], vals[..n], d);
      if dates[n] == d && vals[n] != NaN then g + [vals[n]] else g
  }

  /** One rank per row; a missing value has no rank. */
  function RankColumn(dates: seq<int>, vals: seq<Num>): (r: seq<Option<real>>)
    requires |dates| == |vals|
    ensures |r| == |vals|
    ensures forall i :: 0 <= i < |r| ==>
      r[i] == if vals[i] == NaN then None else Some(AverageRank(Group(dates, vals, dates[i]), vals[i]))
  {
    seq(|vals|, i requires 0 <= i < |vals| =>
      if vals[i] == NaN then None else Some(AverageRank(Group(dates, vals, dates[i]), vals[i])))
  }

  // ----- the ranks of one group

  lemma CountAppend(g: seq<Num>, z: Num, v: Num)
    ensures CountLess(g + [z], v) == CountLess(g, v) + if Less(z, v) then 1 else 0
    ensures CountSame(g + [z], v) == CountSame(g, v) + if z == v then 1 else 0
  {
    assert (g + [z])[..|g|] == g;
  }

  lemma {:induction false} Trichotomy(g: seq<Num>, v: Num)
    requires NaN !in g && v != NaN
    ensures CountLess(g, v) + CountSame(g, v) + CountGreater(g, v) == |g|
  {
    if |g| != 0 {
      assert g[|g| - 1] in g;
      Trichotomy(g[..|g| - 1], v);
    }
  }

  /** Twice the ranks of the members of h within g, added up. */
  function TwiceRanks(h: seq<Num>, g: seq<Num>): int {
    if |h| == 0 then 0
    else TwiceRanks(h[..|h| - 1], g) + 2 * CountLess(g, h[|h| - 1]) + CountSame(g, h[|h| - 1]) + 1
  }

  lemma {:induction false} TwiceRanksGrow(h: seq<Num>, g: seq<Num>, z: Num)
    ensures TwiceRanks(h, g + [z]) == TwiceRanks(h, g) + 2 * CountGreater(h, z) + CountSame(h, z)
  {
    if |h| != 0 {
      TwiceRanksGrow(h[..|h| - 1], g, z);
      assert (g + [z])[..|g|] == g;
    }
  }

  lemma NextSquare(n: nat)
    ensures (n + 1) * (n + 1) == n * n + 2 * n + 1
  {
  }

  lemma {:induction false} TwiceRanksOfAll(g: seq<Num>)
    requires NaN !in g
    ensures TwiceRanks(g, g) == |g| * |g| + |g|
  {
    if |g| != 0 {
      var n := |g| - 1;
      var h, z := g[..n], g[n];
      assert g == h + [z];
      assert z in g;
      TwiceRanksOfAll(h);
      TwiceRanksGrow(h, h, z);
      Trichotomy(h, z);
      CountAppend(h, z, z);
      NextSquare(n);
      assert TwiceRanks(g, g) == TwiceRanks(h, g) + 2 * CountLess(g, z) + CountSame(g, z) + 1;
    }
  }

  function RanksWithin(h: seq<Num>, g: seq<Num>): (r: seq<real>)
    ensures |r| == |h|
    ensures forall i :: 0 <= i < |h| ==> r[i] == AverageRank(g, h[i])
  {
    seq(|h|, i requires 0 <= i < |h| => AverageRank(g, h[i]))
  }

  lemma {:induction false} SumOfRanksWithin(h: seq<Num>, g: seq<Num>)
    ensures 2.0 * Sum(RanksWithin(h, g)) == TwiceRanks(h, g) as real
  {
    if |h| != 0 {
      var n := |h| - 1;
      SumOfRanksWithin(h[..n], g);
      assert RanksWithin(h, g)[..n] == RanksWithin(h[..n], g);
    }
  }

  /** However the ties fall, the ranks of N numbers add up to N (N + 1) / 2. */
  lemma RankSum(g: seq<Num>)
    requires NaN !in g
    ensures Sum(RanksWithin(g, g)) == (|g| * (|g| + 1)) as real / 2.0
  {
    SumOfRanksWithin(g, g);
    TwiceRanksOfAll(g);
    assert |g| * (|g| + 1) == |g| * |g| + |g|;
  }

  // ----- what a rank means

  lemma {:induction false} CountsBelow(g: seq<Num>, v: Num, w: Num)
    requires Less(v, w)
    ensures CountLess(g, v) + CountSame(g, v) <= CountLess(g, w)
  {
    if |g| != 0 {
      CountsBelow(g[..|g| - 1], v, w);
    }
  }

  lemma {:induction false} HeldIsCounted(g: seq<Num>, v: Num)
    requires v in g
    ensures CountSame(g, v) >= 1
  {
    var n := |g| - 1;
    if g[n] != v {
      HeldIsCounted(g[..n], v);
    }
  }

  /** A smaller value has a smaller rank, equal values share one, and ranks run from 1 to N. */
  lemma RankOrder(g: seq<Num>, v: Num, w: Num)
    requires NaN !in g && v in g && w in g
    ensures Less(v, w) <==> AverageRank(g, v) < AverageRank(g, w)
    ensures 1.0 <= AverageRank(g, v) <= |g| as real
  {
    hide CountLess, CountSame, CountGreater, Less;
    HeldIsCounted(g, v);
    HeldIsCounted(g, w);
    Trichotomy(g, v);
    SameByOrder(v, w);
    if Less(v, w) {
      CountsBelow(g, v, w);
    } else if Less(w, v) {
      CountsBelow(g, w, v);
    }
  }

  /** Without ties the smallest value has rank 1 and the next one rank 2. */
  lemma TwoRanks(v: Num, w: Num)
    requires Less(v, w)
    ensures AverageRank([w, v], v) == 1.0 && AverageRank([w, v], w) == 2.0
    ensures AverageRank([v, v], v) == 1.5
  {
    CountAppend([], w, v);
    CountAppend([w], v, v);
    CountAppend([], w, w);
    CountAppend([w], v, w);
    CountAppend([], v, v);
    CountAppend([v], v, v);
    assert [] + [w] == [w] && [w] + [v] == [w, v] && [] + [v] == [v] && [v] + [v] == [v, v];
  }

  // ----- negation

  function NegateAll(vals: seq<Num>): (r: seq<Num>)
    ensures |r| == |vals|
    ensures forall i :: 0 <= i < |r| ==> r[i] == Negate(vals[i])
  {
    seq(|vals|, i requires 0 <= i < |vals| => Negate(vals[i]))
  }

  lemma {:induction false} GroupNegate(dates: seq<int>, vals: seq<Num>, d: int)
    requires |dates| == |vals|
    ensures Group(dates, NegateAll(vals), d) == NegateAll(Group(dates, vals, d))
  {
    if |dates| != 0 {
      var n := |dates| - 1;
      GroupNegate(dates[..n], vals[..n], d);
      assert NegateAll(vals)[..n] == NegateAll(vals[..n]);
    }
  }

  lemma {:induction false} CountsNegate(g: seq<Num>, v: Num)
    requires NaN !in g && v != NaN
    ensures CountLess(NegateAll(g), Negate(v)) == CountGreater(g, v)
    ensures CountSame(NegateAll(g), Negate(v)) == CountSame(g, v)
  {
    if |g| != 0 {
      var n := |g| - 1;
      assert g[n] in g;
      CountsNegate(g[..n], v);
      assert NegateAll(g)[..n] == NegateAll(g[..n]);
    }
  }

  /** Reversing the order mirrors every rank: the two ranks of a value add up to N + 1. */
  lemma RankMirror(g: seq<Num>, v: Num)
    requires NaN !in g && v != NaN
    ensures AverageRank(g, v) + AverageRank(NegateAll(g), Negate(v)) == |g| as real + 1.0
  {
    CountsNegate(g, v);
    Trichotomy(g, v);
  }

  lemma RankColumnNegate(dates: seq<int>, vals: seq<Num>, i: nat)
    requires |dates| == |vals| && i < |vals|
    ensures RankColumn(dates, NegateAll(vals))[i] ==
      match RankColumn(dates, vals)[i]
      case None => None
      case Some(r) => Some(|Group(dates, vals, dates[i])| as real + 1.0 - r)
  {
    hide Group, AverageRank;
    if vals[i] != NaN {
      GroupNegate(dates, vals, dates[i]);
      RankMirror(Group(dates, vals, dates[i]), vals[i]);
    }
  }

  // ----- order-preserving transforms

  /** The two columns miss the same rows and order each date's values alike. */
  ghost predicate SameOrder(dates: seq<int>, a: seq<Num>, b: seq<Num>) {
    && |dates| == |a| == |b|
    && (forall i :: 0 <= i < |a| ==> (a[i] == NaN <==> b[i] == NaN))
    && (forall i, j :: 0 <= i < |a| && 0 <= j < |a| && dates[i] == dates[j] ==>
          (Less(a[i], a[j]) <==> Less(b[i], b[j])))
  }

  /** Two present values are the same exactly when neither is below the other. */
  lemma SameByOrder(a: Num, b: Num)
    requires a != NaN && b != NaN
    ensures a == b <==> !Less(a, b) && !Less(b, a)
  {
  }

  lemma GroupPrefix(dates: seq<int>, vals: seq<Num>, k: nat, d: int)
    requires 0 < k <= |vals| == |dates|
    ensures Group(dates[..k], vals[..k], d) ==
      var g := Group(dates[..k - 1], vals[..k - 1], d);
      if dates[k - 1] == d && vals[k - 1] != NaN then g + [vals[k - 1]] else g
  {
    assert dates[..k][..k - 1] == dates[..k - 1];
    assert vals[..k][..k - 1] == vals[..k - 1];
  }

  lemma SameMissing(dates: seq<int>, a: seq<Num>, b: seq<Num>, j: nat)
    requires SameOrder(dates, a, b) && j < |a|
    ensures a[j] == NaN <==> b[j] == NaN
  {
  }

  lemma SameOrderAt(dates: seq<int>, a: seq<Num>, b: seq<Num>, j: nat, i: nat)
    requires SameOrder(dates, a, b) && i < |a| && j < |a| && dates[i] == dates[j] && a[i] != NaN && a[j] != NaN
    ensures b[i] != NaN && b[j] != NaN
    ensures Less(a[j], a[i]) <==> Less(b[j], b[i])
    ensures a[j] == a[i] <==> b[j] == b[i]
  {
    SameByOrder(a[j], a[i]);
    SameByOrder(b[j], b[i]);
  }

  lemma {:induction false} CountsKeepOrder(dates: seq<int>, a: seq<Num>, b: seq<Num>, k: nat, i: nat)
    requires SameOrder(dates, a, b) && k <= |a| && i < |a| && a[i] != NaN
    ensures CountLess(Group(dates[..k], a[..k], dates[i]), a[i])
         == CountLess(Group(dates[..k], b[..k], dates[i]), b[i])
    ensures CountSame(Group(dates[..k], a[..k], dates[i]), a[i])
         == CountSame(Group(dates[..k], b[..k], dates[i]), b[i])
  {
    assert |dates| == |a| == |b|;
    hide Group, CountLess, CountSame, Less, SameOrder;
    if k == 0 {
      assert a[..0] == b[..0];
    } else {
      CountsKeepOrder(dates, a, b, k - 1, i);
      GroupPrefix(dates, a, k, dates[i]);
      GroupPrefix(dates, b, k, dates[i]);
      SameMissing(dates, a, b, k - 1);
      if dates[k - 1] == dates[i] && a[k - 1] != NaN {
        CountAppend(Group(dates[..k - 1], a[..k - 1], dates[i]), a[k - 1], a[i]);
        CountAppend(Group(dates[..k - 1], b[..k - 1], dates[i]), b[k - 1], b[i]);
        SameOrderAt(dates, a, b, k - 1, i);
      }
    }
  }

  lemma RankColumnKeepsOrder(dates: seq<int>, a: seq<Num>, b: seq<Num>)
    requires SameOrder(dates, a, b)
    ensures RankColumn(dates, a) == RankColumn(dates, b)
  {
    hide Group, CountLess, CountSame, Less;
    assert dates[..|a|] == dates && a[..|a|] == a && b[..|a|] == b;
    forall i | 0 <= i < |a|
      ensures RankColumn(dates, a)[i] == RankColumn(dates, b)[i]
    {
      if a[i] != NaN {
        CountsKeepOrder(dates, a, b, |a|, i);
      }
    }
  }
}
