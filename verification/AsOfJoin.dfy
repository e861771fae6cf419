/** The point-in-time join: a backward as-of merge, and the audit's independent recomputation of it. */
module AsOfJoin {
  import opened Options

  type Symbol = string

  /** A disclosed statement; `figure` stands for its columns. */
  datatype Statement = Statement(symbol: Symbol, availableAt: int, periodEnd: int, figure: Option<real>)

  datatype TradeKey = TradeKey(symbol: Symbol, date: int)

  /** Disclosed before, or on the same day for an earlier fiscal period. */
  predicate Before(a: Statement, b: Statement) {
    a.availableAt < b.availableAt || (a.availableAt == b.availableAt && a.periodEnd <= b.periodEnd)
  }

  /** Sorted by disclosure date, then fiscal period. */
  ghost predicate Sorted(q: seq<Statement>) {
    forall i, j :: 0 <= i < j < |q| ==> Before(q[i], q[j])
  }

  /** The audit: keep the symbol's statements disclosed by the date, in order. */
  function Visible(q: seq<Statement>, s: Symbol, date: int): (r: seq<Statement>)
    ensures forall x :: x in r <==> x in q && x.symbol == s && x.availableAt <= date
  {
    if |q| == 0 then []
    else
      var r, x := Visible(q[..|q| - 1], s, date), q[|q| - 1];
      assert q == q[..|q| - 1] + [x];
      if x.symbol == s && x.availableAt <= date then r + [x] else r
  }

  /** The audit's expectation: the last visible statement. */
  function AsOf(q: seq<Statement>, s: Symbol, date: int): Option<Statement> {
    var v := Visible(q, s, date);
    if |v| == 0 then None else Some(v[|v| - 1])
  }

  // ----- the merge

  lemma {:induction false} VisibleStops(q: seq<Statement>, s: Symbol, date: int, j: nat)
    requires j <= |q|
    requires forall k :: j <= k < |q| ==> q[k].availableAt > date
    ensures Visible(q, s, date) == Visible(q[..j], s, date)
    decreases |q|
  {
    if j == |q| {
      assert q[..j] == q;
    } else {
      var n := |q| - 1;
      VisibleStops(q[..n], s, date, j);
      assert Visible(q, s, date) == Visible(q[..n], s, date);
      hide Visible;
      assert q[..n][..j] == q[..j];
    }
  }

  /** One statement passes the pointer. */
  lemma VisibleStep(q: seq<Statement>, s: Symbol, date: int, j: nat)
    requires j < |q| && q[j].availableAt <= date
    ensures AsOf(q[..j + 1], s, date) == if q[j].symbol == s then Some(q[j]) else AsOf(q[..j], s, date)
  {
    assert q[..j + 1][..j] == q[..j];
  }

  /** All of a prefix is visible from the date of its last statement on. */
  lemma {:induction false} PrefixVisible(q: seq<Statement>, s: Symbol, date: int, later: int, j: nat)
    requires j <= |q| && date <= later
    requires forall i :: 0 <= i < j ==> q[i].availableAt <= date
    ensures Visible(q[..j], s, later) == Visible(q[..j], s, date)
  {
    if j > 0 {
      assert q[..j][..j - 1] == q[..j - 1];
      PrefixVisible(q, s, date, later, j - 1);
    }
  }

  /** Both frames sorted by date: one pass, remembering the latest statement of each symbol. */
  method MergeAsof(keys: seq<TradeKey>, q: seq<Statement>) returns (picks: seq<Option<Statement>>)
    requires Sorted(q) && forall i, j :: 0 <= i < j < |keys| ==> keys[i].date <= keys[j].date
    ensures |picks| == |keys|
    ensures forall k :: 0 <= k < |keys| ==> picks[k] == AsOf(q, keys[k].symbol, keys[k].date)
  {
    hide AsOf, Visible, Before, Remembers;
    picks := [];
    var latest: map<Symbol, Statement> := map[];
    var j := 0;
    ghost var seen := if |keys| > 0 then keys[0].date else 0;
    NothingRemembered(q, seen);
    for i := 0 to |keys|
      invariant 0 <= j <= |q| && |picks| == i
      invariant i < |keys| ==> seen <= keys[i].date
      invariant forall m :: 0 <= m < j ==> q[m].availableAt <= seen
      invariant Remembers(latest, q, j, seen)
      invariant forall k :: 0 <= k < i ==> picks[k] == AsOf(q, keys[k].symbol, keys[k].date)
    {
      var date := keys[i].date;
      StillRemembered(latest, q, seen, date, j);
      while j < |q| && q[j].availableAt <= date
        invariant 0 <= j <= |q|
        invariant forall m :: 0 <= m < j ==> q[m].availableAt <= date
        invariant Remembers(latest, q, j, date)
      {
        NextRemembered(latest, q, j, date);
        latest := latest[q[j].symbol := q[j]];
        j := j + 1;
      }
      seen := date;
      assert i + 1 < |keys| ==> keys[i].date <= keys[i + 1].date;
      var symbol := keys[i].symbol;
      StopsAsOf(q, symbol, date, j);
      RememberedPick(latest, q, j, date, symbol);
      picks := picks + [if symbol in latest then Some(latest[symbol]) else None];
    }
  }

  /** The map holds, for every symbol, its last statement among the first j that is visible on the date. */
  ghost predicate Remembers(latest: map<Symbol, Statement>, q: seq<Statement>, j: nat, date: int)
    requires j <= |q|
  {
    forall s :: (if s in latest then Some(latest[s]) else None) == AsOf(q[..j], s, date)
  }

  lemma NothingRemembered(q: seq<Statement>, date: int)
    ensures Remembers(map[], q, 0, date)
  {
    hide AsOf;
    assert q[..0] == [];
    forall s
      ensures AsOf(q[..0], s, date) == None
    {
      NothingVisible(s, date);
    }
  }

  lemma StillRemembered(latest: map<Symbol, Statement>, q: seq<Statement>, date: int, later: int, j: nat)
    requires j <= |q| && date <= later && Remembers(latest, q, j, date)
    requires forall i :: 0 <= i < j ==> q[i].availableAt <= date
    ensures Remembers(latest, q, j, later)
  {
    hide AsOf;
    forall s
      ensures AsOf(q[..j], s, later) == AsOf(q[..j], s, date)
    {
      SameAsOf(q, s, date, later, j);
    }
  }

  lemma NextRemembered(latest: map<Symbol, Statement>, q: seq<Statement>, j: nat, date: int)
    requires j < |q| && q[j].availableAt <= date && Remembers(latest, q, j, date)
    ensures Remembers(latest[q[j].symbol := q[j]], q, j + 1, date)
  {
    hide AsOf;
    forall s
      ensures AsOf(q[..j + 1], s, date) == if q[j].symbol == s then Some(q[j]) else AsOf(q[..j], s, date)
    {
      VisibleStep(q, s, date, j);
    }
  }

  lemma RememberedPick(latest: map<Symbol, Statement>, q: seq<Statement>, j: nat, date: int, s: Symbol)
    requires j <= |q| && Remembers(latest, q, j, date)
    ensures (if s in latest then Some(latest[s]) else None) == AsOf(q[..j], s, date)
  {
    hide AsOf;
  }

  lemma NothingVisible(s: Symbol, date: int)
    ensures AsOf([], s, date) == None
  {
  }

  lemma SameAsOf(q: seq<Statement>, s: Symbol, date: int, later: int, j: nat)
    requires j <= |q| && date <= later
    requires forall i :: 0 <= i < j ==> q[i].availableAt <= date
    ensures AsOf(q[..j], s, later) == AsOf(q[..j], s, date)
  {
    PrefixVisible(q, s, date, later, j);
  }

  lemma StopsAsOf(q: seq<Statement>, s: Symbol, date: int, j: nat)
    requires Sorted(q) && j <= |q|
    requires j < |q| ==> q[j].availableAt > date
    ensures AsOf(q, s, date) == AsOf(q[..j], s, date)
  {
    forall k | j <= k < |q|
      ensures q[k].availableAt > date
    {
      assert j < k ==> Before(q[j], q[k]);
    }
    VisibleStops(q, s, date, j);
  }

  // ----- what the join promises

  lemma {:induction false} VisibleIsSorted(q: seq<Statement>, s: Symbol, date: int)
    requires Sorted(q)
    ensures Sorted(Visible(q, s, date))
  {
    if |q| != 0 {
      var front, x := q[..|q| - 1], q[|q| - 1];
      VisibleIsSorted(front, s, date);
      var r := Visible(front, s, date);
      forall i | 0 <= i < |r|
        ensures Before(r[i], x)
      {
        assert r[i] in front;
        var m :| 0 <= m < |front| && front[m] == r[i];
        assert Before(q[m], q[|q| - 1]);
      }
    }
  }

  /**
   * The pick is a statement disclosed by the date, and none disclosed by then comes after it; no pick, nothing
   * disclosed.
   */
  lemma AsOfIsLatest(q: seq<Statement>, s: Symbol, date: int)
    requires Sorted(q)
    ensures AsOf(q, s, date).Some? ==>
      var p := AsOf(q, s, date).value;
      && p in q && p.symbol == s && p.availableAt <= date
      && forall x :: x in q && x.symbol == s && x.availableAt <= date ==>
        x.availableAt < p.availableAt || (x.availableAt == p.availableAt && x.periodEnd <= p.periodEnd)
    ensures AsOf(q, s, date).None? ==> forall x :: x in q && x.symbol == s ==> x.availableAt > date
  {
    VisibleIsSorted(q, s, date);
    var v := Visible(q, s, date);
    if |v| > 0 {
      assert v[|v| - 1] in v;
      forall x | x in v
        ensures Before(x, v[|v| - 1])
      {
        var i :| 0 <= i < |v| && v[i] == x;
        assert i < |v| - 1 ==> Before(v[i], v[|v| - 1]);
      }
    }
  }

  /**
   * The builder and the audit start from differently ordered frames; once both are sorted by (disclosure, period)
   * they pick the same statement, whatever else was disclosed after the date, unless a different statement ties
   * with it.
   */
  lemma PickIgnoresOrderAndFuture(a: seq<Statement>, b: seq<Statement>, s: Symbol, date: int)
    requires Sorted(a) && Sorted(b) && (AsOf(a, s, date).Some? ==> PickIsUnique(a, s, date))
    requires forall x: Statement :: x.symbol == s && x.availableAt <= date ==> (x in a <==> x in b)
    ensures AsOf(a, s, date) == AsOf(b, s, date)
  {
    hide AsOf, Visible;
    AsOfIsLatest(a, s, date);
    AsOfIsLatest(b, s, date);
    if AsOf(a, s, date).Some? {
      var mine := AsOf(a, s, date).value;
      assert mine in b;
      var other := AsOf(b, s, date).value;
      assert other in a;
      var i :| 0 <= i < |a| && a[i] == other;
    }
  }

  /** The disclosure date of what is visible never moves backward as the trade date advances. */
  lemma VisibleNeverMovesBack(q: seq<Statement>, s: Symbol, date: int, later: int)
    requires Sorted(q) && date <= later && AsOf(q, s, date).Some?
    ensures AsOf(q, s, later).Some?
    ensures Before(AsOf(q, s, date).value, AsOf(q, s, later).value)
  {
    AsOfIsLatest(q, s, date);
    AsOfIsLatest(q, s, later);
  }

  // ----- ties

  /** The pick is the last visible row. */
  lemma {:induction false} LastVisibleRow(q: seq<Statement>, s: Symbol, date: int, k: nat)
    requires k < |q| && q[k].symbol == s && q[k].availableAt <= date
    requires forall i :: k < i < |q| ==> !(q[i].symbol == s && q[i].availableAt <= date)
    ensures AsOf(q, s, date) == Some(q[k])
  {
    if k < |q| - 1 {
      LastVisibleRow(q[..|q| - 1], s, date, k);
    }
  }

  lemma {:induction false} LastVisibleExists(q: seq<Statement>, s: Symbol, date: int) returns (k: nat)
    requires AsOf(q, s, date).Some?
    ensures k < |q| && q[k].symbol == s && q[k].availableAt <= date && AsOf(q, s, date) == Some(q[k])
    ensures forall i :: k < i < |q| ==> !(q[i].symbol == s && q[i].availableAt <= date)
  {
    var n := |q| - 1;
    if q[n].symbol == s && q[n].availableAt <= date {
      k := n;
    } else {
      k := LastVisibleExists(q[..n], s, date);
    }
  }

  /** Every statement visible to the symbol that ties with the pick in both dates is the pick. */
  ghost predicate PickIsUnique(q: seq<Statement>, s: Symbol, date: int)
    requires AsOf(q, s, date).Some?
  {
    forall i :: 0 <= i < |q| && q[i].symbol == s && q[i].availableAt <= date && Before(AsOf(q, s, date).value, q[i]) ==>
      q[i] == AsOf(q, s, date).value
  }

  /** Every sorted arrangement of the same statements gives the same pick. */
  ghost predicate OrderFree(q: seq<Statement>, s: Symbol, date: int) {
    forall r :: Sorted(r) && multiset(r) == multiset(q) ==> AsOf(r, s, date) == AsOf(q, s, date)
  }

  lemma Swapped(q: seq<Statement>, i: nat, k: nat) returns (r: seq<Statement>)
    requires Sorted(q) && i < k < |q| && Before(q[k], q[i])
    ensures r == q[i := q[k]][k := q[i]] && Sorted(r) && multiset(r) == multiset(q)
  {
    r := q[i := q[k]][k := q[i]];
    forall x, y | 0 <= x < y < |r|
      ensures Before(r[x], r[y])
    {
      assert x != i ==> Before(q[if x < i then x else i], q[if x < i then i else x]);
      assert y != i ==> Before(q[if y < i then y else i], q[if y < i then i else y]);
      assert Before(q[i], q[k]);
      assert x != k ==> Before(q[if x < k then x else k], q[if x < k then k else x]);
      assert y != k ==> Before(q[if y < k then y else k], q[if y < k then k else y]);
    }
  }

  /**
   * The pick does not depend on how equal dates are ordered if and only if no different visible statement ties with
   * it.
   */
  lemma PickIsOrderFreeIff(q: seq<Statement>, s: Symbol, date: int)
    requires Sorted(q) && AsOf(q, s, date).Some?
    ensures OrderFree(q, s, date) <==> PickIsUnique(q, s, date)
  {
    hide AsOf, Visible;
    var pick := AsOf(q, s, date).value;
    if PickIsUnique(q, s, date) {
      forall r | Sorted(r) && multiset(r) == multiset(q)
        ensures AsOf(r, s, date) == AsOf(q, s, date)
      {
        SameMultisetSamePick(q, r, s, date);
      }
    } else {
      var i :| 0 <= i < |q| && q[i].symbol == s && q[i].availableAt <= date && Before(pick, q[i]) && q[i] != pick;
      var k := LastVisibleExists(q, s, date);
      var r := Swapped(q, i, k);
      LastVisibleRow(r, s, date, k);
    }
  }

  lemma SameMultisetSamePick(q: seq<Statement>, r: seq<Statement>, s: Symbol, date: int)
    requires Sorted(q) && Sorted(r) && multiset(q) == multiset(r)
    requires AsOf(q, s, date).Some? && PickIsUnique(q, s, date)
    ensures AsOf(r, s, date) == AsOf(q, s, date)
  {
    hide AsOf, Visible, PickIsUnique;
    assert forall x :: x in q <==> x in multiset(q);
    assert forall x :: x in r <==> x in multiset(r);
    PickIgnoresOrderAndFuture(q, r, s, date);
  }

  /** Two statements with equal dates but different figures: the pick then depends on the order they arrived in. */
  lemma EqualDatesDependOnOrder()
    ensures
      var x, y := Statement("600000.SH", 10, 5, Some(1.0)), Statement("600000.SH", 10, 5, Some(2.0));
      Sorted([x, y]) && Sorted([y, x]) && AsOf([x, y], "600000.SH", 10) != AsOf([y, x], "600000.SH", 10)
  {
    var x, y := Statement("600000.SH", 10, 5, Some(1.0)), Statement("600000.SH", 10, 5, Some(2.0));
    LastIsPicked([x], y, "600000.SH", 10);
    LastIsPicked([y], x, "600000.SH", 10);
  }

  lemma LastIsPicked(q: seq<Statement>, x: Statement, s: Symbol, date: int)
    requires x.symbol == s && x.availableAt <= date
    ensures AsOf(q + [x], s, date) == Some(x)
  {
    assert (q + [x])[..|q|] == q;
  }
}
