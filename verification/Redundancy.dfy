/** Greedy correlation clusters (factor_diagnostics) and the de-redundancy that consumes them (factor_neutralize). */
module Redundancy {
  import opened Options

  type Factor = string

  /** How many members of a cluster the exported report lists. */
  const EXPORTED := 12

  datatype Cluster = Cluster(head: Factor, redundantWith: seq<Factor>, n: nat)

  /** The averaged absolute correlations: labels and cells; a cell may be missing. */
  datatype Correlations = Correlations(index: seq<Factor>, cell: (Factor, Factor) -> Option<real>, threshold: real) {
    /** Head h makes g redundant. */
    predicate Links(h: Factor, g: Factor) {
      cell(h, g).Some? && cell(h, g).value >= threshold
    }

    ghost predicate Symmetric() {
      forall f, g :: cell(f, g) == cell(g, f)
    }
  }

  ghost predicate Distinct(s: seq<Factor>) {
    forall i, j :: 0 <= i < j < |s| ==> s[i] != s[j]
  }

  /** The factors at or above the threshold with f that nothing has claimed yet, in label order. */
  function Group(index: seq<Factor>, c: Correlations, f: Factor, seen: set<Factor>): (r: seq<Factor>)
    ensures forall g :: g in r <==> g in index && g != f && g !in seen && c.Links(f, g)
  {
    if |index| == 0 then []
    else
      var r, g := Group(index[..|index| - 1], c, f, seen), index[|index| - 1];
      assert index == index[..|index| - 1] + [g];
      if g != f && g !in seen && c.Links(f, g) then r + [g] else r
  }

  lemma {:induction false} GroupDistinct(index: seq<Factor>, c: Correlations, f: Factor, seen: set<Factor>)
    requires Distinct(index)
    ensures Distinct(Group(index, c, f, seen))
  {
    if |index| != 0 {
      var front, g := index[..|index| - 1], index[|index| - 1];
      GroupDistinct(front, c, f, seen);
      var r := Group(front, c, f, seen);
      assert forall i :: 0 <= i < |r| ==> r[i] in r && r[i] in front;
    }
  }

  /** The members stand in label order. */
  lemma {:induction false} GroupInOrder(index: seq<Factor>, c: Correlations, f: Factor, seen: set<Factor>)
    returns (at: seq<nat>)
    ensures |at| == |Group(index, c, f, seen)|
    ensures forall k :: 0 <= k < |at| ==> at[k] < |index| && Group(index, c, f, seen)[k] == index[at[k]]
    ensures forall k, l :: 0 <= k < l < |at| ==> at[k] < at[l]
  {
    if |index| == 0 {
      at := [];
    } else {
      var n := |index| - 1;
      var before := GroupInOrder(index[..n], c, f, seen);
      at := if |Group(index, c, f, seen)| > |before| then before + [n] else before;
    }
  }

  // ----- the reference: the lexicographically first independent set

  /** f stays exactly when it is labelled and no stronger survivor links to it. */
  function Survivors(order: seq<Factor>, c: Correlations): (r: set<Factor>)
    ensures forall f :: f in r ==> f in order && f in c.index
  {
    if |order| == 0 then {}
    else
      var r, f := Survivors(order[..|order| - 1], c), order[|order| - 1];
      assert order == order[..|order| - 1] + [f];
      if f in c.index && (forall h :: h in r ==> !c.Links(h, f)) then r + {f} else r
  }

  /** The factor at j is labelled and no earlier member of t links to it. */
  ghost predicate Admits(order: seq<Factor>, c: Correlations, t: set<Factor>, j: nat)
    requires j < |order|
  {
    order[j] in c.index && forall i :: 0 <= i < j && order[i] in t ==> !c.Links(order[i], order[j])
  }

  /** A set that follows the rule: a factor is in it iff it is labelled and no earlier member links to it. */
  ghost predicate FollowsRule(order: seq<Factor>, c: Correlations, t: set<Factor>) {
    && (forall f :: f in t ==> f in order)
    && forall j :: 0 <= j < |order| ==> (order[j] in t <==> Admits(order, c, t, j))
  }

  lemma SurvivorsUnfold(order: seq<Factor>, c: Correlations)
    requires |order| > 0
    ensures
      var front, last := order[..|order| - 1], order[|order| - 1];
      forall f :: f != last ==> (f in Survivors(order, c) <==> f in Survivors(front, c))
  {
  }

  /** Whether a factor survives is settled once it has been visited. */
  lemma {:induction false} SurvivalIsSettled(order: seq<Factor>, c: Correlations, i: nat, k: nat)
    requires Distinct(order) && i < k <= |order|
    ensures order[i] in Survivors(order, c) <==> order[i] in Survivors(order[..k], c)
  {
    hide Survivors;
    if k == |order| {
      assert order[..k] == order;
    } else {
      var n := |order| - 1;
      assert order[..n][..k] == order[..k] && order[..n][i] == order[i];
      SurvivorsUnfold(order, c);
      SurvivalIsSettled(order[..n], c, i, k);
    }
  }

  lemma SurvivorsOfPrefix(order: seq<Factor>, c: Correlations, j: nat)
    requires Distinct(order) && j < |order|
    ensures order[j] in Survivors(order, c) <==>
      order[j] in c.index && forall h :: h in Survivors(order[..j], c) ==> !c.Links(h, order[j])
  {
    var upTo := order[..j + 1];
    assert upTo[j] == order[j] && upTo[..j] == order[..j];
    SurvivalIsSettled(order, c, j, j + 1);
    assert order[j] !in order[..j];
  }

  /** The survivors follow the rule, and no other set does. */
  lemma SurvivorsAreTheRule(order: seq<Factor>, c: Correlations, t: set<Factor>)
    requires Distinct(order)
    ensures FollowsRule(order, c, Survivors(order, c))
    ensures FollowsRule(order, c, t) ==> t == Survivors(order, c)
  {
    var s := Survivors(order, c);
    forall j | 0 <= j < |order|
      ensures order[j] in s <==> Admits(order, c, s, j)
    {
      SurvivorsOfPrefix(order, c, j);
      forall i | 0 <= i < j
        ensures order[i] in s <==> order[i] in Survivors(order[..j], c)
      {
        SurvivalIsSettled(order, c, i, j);
      }
      forall h | h in Survivors(order[..j], c)
        ensures exists i :: 0 <= i < j && order[i] == h && order[i] in s
      {
        var i :| 0 <= i < j && order[..j][i] == h;
        assert order[i] == h;
      }
    }
    if FollowsRule(order, c, t) {
      RuleIsUnique(order, c, s, t, |order|);
      assert forall f :: f in s || f in t ==> f in order;
    }
  }

  lemma RuleAt(order: seq<Factor>, c: Correlations, t: set<Factor>, j: nat)
    requires FollowsRule(order, c, t) && j < |order|
    ensures order[j] in t <==> Admits(order, c, t, j)
  {
  }

  lemma AdmitsAlike(order: seq<Factor>, c: Correlations, s: set<Factor>, t: set<Factor>, j: nat)
    requires j < |order| && forall i :: 0 <= i < j ==> (order[i] in s <==> order[i] in t)
    ensures Admits(order, c, s, j) <==> Admits(order, c, t, j)
  {
  }

  lemma {:induction false} RuleIsUnique(order: seq<Factor>, c: Correlations, s: set<Factor>, t: set<Factor>, k: nat)
    requires FollowsRule(order, c, s) && FollowsRule(order, c, t) && k <= |order|
    ensures forall j :: 0 <= j < k ==> (order[j] in s <==> order[j] in t)
  {
    hide FollowsRule, Admits;
    if k != 0 {
      RuleIsUnique(order, c, s, t, k - 1);
      RuleAt(order, c, s, k - 1);
      RuleAt(order, c, t, k - 1);
      AdmitsAlike(order, c, s, t, k - 1);
    }
  }

  // ----- the greedy loop

  datatype Greedy = Greedy(seen: set<Factor>, clusters: seq<Cluster>, groups: seq<seq<Factor>>)

  function Elements(s: seq<Factor>): set<Factor> {
    set f | f in s
  }

  /** One pass of the loop body; `groups` keeps the uncut member lists for the proofs. */
  function Visit(s: Greedy, c: Correlations, f: Factor): Greedy {
    if f in s.seen || f !in c.index then s
    else
      var grp := Group(c.index, c, f, s.seen);
      if grp == [] then s.(seen := s.seen + {f})
      else
        Greedy(s.seen + Elements(grp) + {f},
               s.clusters + [Cluster(f, if |grp| > EXPORTED then grp[..EXPORTED] else grp, |grp|)],
               s.groups + [grp])
  }

  function VisitAll(order: seq<Factor>, c: Correlations): Greedy {
    if |order| == 0 then Greedy({}, [], [])
    else Visit(VisitAll(order[..|order| - 1], c), c, order[|order| - 1])
  }

  method ClusterFactors(order: seq<Factor>, c: Correlations) returns (clusters: seq<Cluster>)
    ensures clusters == VisitAll(order, c).clusters
  {
    var seen: set<Factor> := {};
    clusters := [];
    ghost var groups: seq<seq<Factor>> := [];
    for i := 0 to |order|
      invariant Greedy(seen, clusters, groups) == VisitAll(order[..i], c)
    {
      assert order[..i + 1][..i] == order[..i];
      var f := order[i];
      if f in seen || f !in c.index {
        continue;
      }
      var grp := Group(c.index, c, f, seen);
      if grp != [] {
        clusters := clusters + [Cluster(f, if |grp| > EXPORTED then grp[..EXPORTED] else grp, |grp|)];
        groups := groups + [grp];
        seen := seen + Elements(grp);
      }
      seen := seen + {f};
    }
    assert order[..|order|] == order;
  }

  /** Claimed so far: the survivors and everything labelled that a survivor links to. */
  lemma {:induction false} SeenIsClaimed(order: seq<Factor>, c: Correlations, g: Factor)
    requires Distinct(order)
    ensures g in VisitAll(order, c).seen <==>
      g in Survivors(order, c) || (g in c.index && exists h :: h in Survivors(order, c) && c.Links(h, g))
  {
    if |order| != 0 {
      var n := |order| - 1;
      var front, f := order[..n], order[n];
      SeenIsClaimed(front, c, g);
      SeenIsClaimed(front, c, f);
      assert f !in front;
    }
  }

  /** The uncut group of each cluster: unclaimed when its head was visited, linked to it, and without repeats. */
  ghost predicate GroupsValid(s: Greedy, c: Correlations, kept: set<Factor>) {
    && |s.groups| == |s.clusters| && kept <= s.seen
    && (forall i :: 0 <= i < |s.groups| ==> GroupValid(s.groups[i], s.clusters[i], s.seen, c, kept))
    && (forall i, j, g :: 0 <= i < j < |s.groups| && g in s.groups[i] ==> g !in s.groups[j])
    && (forall g :: g in s.seen ==> g in kept || exists i :: 0 <= i < |s.groups| && g in s.groups[i])
  }

  ghost predicate GroupValid(
      group: seq<Factor>, cluster: Cluster, seen: set<Factor>, c: Correlations, kept: set<Factor>)
  {
    && Distinct(group)
    && cluster.n == |group|
    && cluster.redundantWith == (if |group| > EXPORTED then group[..EXPORTED] else group)
    && cluster.head in kept
    && forall g :: g in group ==> g in c.index && g !in kept && g in seen && c.Links(cluster.head, g)
  }

  lemma {:induction false} GroupsStayValid(order: seq<Factor>, c: Correlations)
    requires Distinct(order) && Distinct(c.index)
    ensures GroupsValid(VisitAll(order, c), c, Survivors(order, c))
  {
    if |order| != 0 {
      var n := |order| - 1;
      var front, f := order[..n], order[n];
      GroupsStayValid(front, c);
      SeenIsClaimed(front, c, f);
      assert f !in front;
      VisitKeepsGroups(VisitAll(front, c), c, Survivors(front, c), f);
    }
  }

  lemma VisitKeepsGroups(s: Greedy, c: Correlations, kept: set<Factor>, f: Factor)
    requires GroupsValid(s, c, kept) && Distinct(c.index)
    ensures GroupsValid(Visit(s, c, f), c, if f in s.seen || f !in c.index then kept else kept + {f})
  {
    if f !in s.seen && f in c.index {
      hide GroupsValid;
      var grp := Group(c.index, c, f, s.seen);
      GroupDistinct(c.index, c, f, s.seen);
      if grp == [] {
        LoneSurvivor(s, c, kept, f);
      } else {
        ClusterAdded(s, Visit(s, c, f), c, kept, f, grp);
      }
    }
  }

  lemma LoneSurvivor(s: Greedy, c: Correlations, kept: set<Factor>, f: Factor)
    requires GroupsValid(s, c, kept) && f !in s.seen
    ensures GroupsValid(s.(seen := s.seen + {f}), c, kept + {f})
  {
    hide GroupValid;
    forall i | 0 <= i < |s.groups|
      ensures GroupValid(s.groups[i], s.clusters[i], s.seen + {f}, c, kept + {f})
    {
      GroupStaysValid(s.groups[i], s.clusters[i], s.seen, s.seen + {f}, c, kept, f);
    }
  }

  lemma GroupStaysValid(
      group: seq<Factor>, cluster: Cluster, seen: set<Factor>, later: set<Factor>, c: Correlations,
      kept: set<Factor>, f: Factor)
    requires GroupValid(group, cluster, seen, c, kept) && f !in seen && seen <= later
    ensures GroupValid(group, cluster, later, c, kept + {f})
  {
    hide Distinct, Correlations.Links;
  }

  lemma ClusterAdded(s: Greedy, s': Greedy, c: Correlations, kept: set<Factor>, f: Factor, grp: seq<Factor>)
    requires GroupsValid(s, c, kept) && f !in s.seen && Distinct(grp)
    requires forall g :: g in grp ==> g in c.index && g != f && g !in s.seen && c.Links(f, g)
    requires s'.groups == s.groups + [grp] && s'.seen == s.seen + Elements(grp) + {f}
    requires s'.clusters
      == s.clusters + [Cluster(f, if |grp| > EXPORTED then grp[..EXPORTED] else grp, |grp|)]
    ensures GroupsValid(s', c, kept + {f})
  {
    hide Distinct, Correlations.Links;
    var n := |s.groups|;
    assert GroupValid(grp, s'.clusters[n], s'.seen, c, kept + {f});
    forall i | 0 <= i < n
      ensures GroupValid(s'.groups[i], s'.clusters[i], s'.seen, c, kept + {f})
      ensures forall g :: g in s.groups[i] ==> g !in grp
    {
      GroupStaysValid(s.groups[i], s.clusters[i], s.seen, s'.seen, c, kept, f);
    }
    hide GroupValid;
    VisitedCover(s, s', kept, f, grp);
  }

  lemma VisitedCover(s: Greedy, s': Greedy, kept: set<Factor>, f: Factor, grp: seq<Factor>)
    requires s'.groups == s.groups + [grp] && s'.seen == s.seen + Elements(grp) + {f}
    requires forall g :: g in s.seen ==> g in kept || exists i :: 0 <= i < |s.groups| && g in s.groups[i]
    ensures forall g :: g in s'.seen ==> g in kept + {f} || exists i :: 0 <= i < |s'.groups| && g in s'.groups[i]
  {
    forall g | g in s'.seen
      ensures g in kept + {f} || exists i :: 0 <= i < |s'.groups| && g in s'.groups[i]
    {
      if g in grp {
        assert s'.groups[|s.groups|] == grp;
      } else if g in s.seen && g !in kept {
        var i :| 0 <= i < |s.groups| && g in s.groups[i];
        assert g in s'.groups[i];
      }
    }
  }

  // ----- what the report and its consumer may rely on

  /** Any two survivors are below the threshold of each other. */
  lemma SurvivorsAreIndependent(order: seq<Factor>, c: Correlations, f: Factor, g: Factor)
    requires Distinct(order) && c.Symmetric()
    requires f in Survivors(order, c) && g in Survivors(order, c) && f != g
    ensures c.cell(f, g).Some? ==> c.cell(f, g).value < c.threshold
    ensures c.cell(g, f).Some? ==> c.cell(g, f).value < c.threshold
  {
    SurvivorsAreTheRule(order, c, {});
    var i :| 0 <= i < |order| && order[i] == f;
    var j :| 0 <= j < |order| && order[j] == g;
    var s := Survivors(order, c);
    assert Admits(order, c, s, i) && Admits(order, c, s, j);
    assert c.cell(f, g) == c.cell(g, f);
  }

  /** The factors some cluster's uncut group holds. */
  function Dropped(s: Greedy): set<Factor> {
    set i, g | 0 <= i < |s.groups| && g in s.groups[i] :: g
  }

  /** What the exported file lists as redundant. */
  function Exported(clusters: seq<Cluster>): set<Factor> {
    set i, g | 0 <= i < |clusters| && g in clusters[i].redundantWith :: g
  }

  /** The clusters drop exactly the labelled factors that do not survive; each has a kept, earlier, linked head. */
  lemma DroppedAreTheRest(order: seq<Factor>, c: Correlations, g: Factor)
    requires Distinct(order) && Distinct(c.index)
    requires forall f :: f in c.index ==> f in order
    ensures g in Dropped(VisitAll(order, c)) <==> g in c.index && g !in Survivors(order, c)
    ensures g in Dropped(VisitAll(order, c)) ==>
      exists i, j :: 0 <= i < j < |order| && order[j] == g && order[i] in Survivors(order, c) &&
        c.cell(order[i], g).Some? && c.cell(order[i], g).value >= c.threshold
  {
    var s, kept := VisitAll(order, c), Survivors(order, c);
    GroupsStayValid(order, c);
    SeenIsClaimed(order, c, g);
    if g in c.index && g !in kept {
      SurvivorsAreTheRule(order, c, {});
      var j :| 0 <= j < |order| && order[j] == g;
      assert !Admits(order, c, kept, j);
      var i :| 0 <= i < j && order[i] in kept && c.Links(order[i], order[j]);
      var m :| 0 <= m < |s.groups| && g in s.groups[m];
    }
  }

  /** No factor is in two clusters, and no head is in any. */
  lemma ClustersAreDisjoint(order: seq<Factor>, c: Correlations, i: nat, j: nat, g: Factor)
    requires Distinct(order) && Distinct(c.index)
    requires i < j < |VisitAll(order, c).clusters|
    ensures !(g in VisitAll(order, c).clusters[i].redundantWith && g in VisitAll(order, c).clusters[j].redundantWith)
    ensures VisitAll(order, c).clusters[i].head !in Exported(VisitAll(order, c).clusters)
  {
    GroupsStayValid(order, c);
    var s := VisitAll(order, c);
    assert forall k, x :: 0 <= k < |s.clusters| && x in s.clusters[k].redundantWith ==> x in s.groups[k];
  }

  /** The exported list is the dropped set if and only if no cluster has more than 12 members. */
  lemma ExportIsDropIffSmall(order: seq<Factor>, c: Correlations)
    requires Distinct(order) && Distinct(c.index)
    ensures Exported(VisitAll(order, c).clusters) == Dropped(VisitAll(order, c))
       <==> forall i :: 0 <= i < |VisitAll(order, c).clusters| ==> VisitAll(order, c).clusters[i].n <= EXPORTED
  {
    GroupsStayValid(order, c);
    var s := VisitAll(order, c);
    var small := forall i :: 0 <= i < |s.clusters| ==> s.clusters[i].n <= EXPORTED;
    if small {
      forall g
        ensures g in Exported(s.clusters) <==> g in Dropped(s)
      {
        assert forall i :: 0 <= i < |s.clusters| ==> s.clusters[i].redundantWith == s.groups[i];
      }
    } else {
      var i :| 0 <= i < |s.clusters| && s.clusters[i].n > EXPORTED;
      var g := s.groups[i][EXPORTED];
      assert g in s.groups[i] && g in Dropped(s);
      CutMemberNotExported(s, c, Survivors(order, c), i);
    }
  }

  /** The thirteenth member of a cluster is not exported, by that cluster or any other. */
  lemma CutMemberNotExported(s: Greedy, c: Correlations, kept: set<Factor>, i: nat)
    requires GroupsValid(s, c, kept) && i < |s.groups| && |s.groups[i]| > EXPORTED
    ensures s.groups[i][EXPORTED] !in Exported(s.clusters)
  {
    var g := s.groups[i][EXPORTED];
    assert g in s.groups[i];
    forall k | 0 <= k < |s.clusters|
      ensures g !in s.clusters[k].redundantWith
    {
      assert g !in s.groups[i][..EXPORTED];
      assert forall x :: x in s.clusters[k].redundantWith ==> x in s.groups[k];
    }
  }

  /** The neutralisation step: collect the exported members, keep the other factors in order. */
  method DropRedundant(factors: seq<Factor>, clusters: seq<Cluster>) returns (keep: seq<Factor>, drop: seq<Factor>)
    ensures keep == Without(factors, Exported(clusters))
    ensures drop == Within(factors, Exported(clusters))
  {
    var redundant: set<Factor> := {};
    for i := 0 to |clusters|
      invariant redundant == set k, g | 0 <= k < i && g in clusters[k].redundantWith :: g
    {
      redundant := redundant + Elements(clusters[i].redundantWith);
    }
    assert redundant == Exported(clusters);
    keep := Without(factors, redundant);
    drop := Within(factors, redundant);
  }

  function Without(factors: seq<Factor>, redundant: set<Factor>): (r: seq<Factor>)
    ensures forall f :: f in r <==> f in factors && f !in redundant
  {
    if |factors| == 0 then []
    else
      var r, f := Without(factors[..|factors| - 1], redundant), factors[|factors| - 1];
      assert factors == factors[..|factors| - 1] + [f];
      if f in redundant then r else r + [f]
  }

  /** The positions of the kept columns. */
  function KeptAt(factors: seq<Factor>, redundant: set<Factor>): (at: seq<nat>)
    ensures forall k :: 0 <= k < |at| ==> at[k] < |factors|
    ensures forall i: nat :: i in at <==> i < |factors| && factors[i] !in redundant
  {
    if |factors| == 0 then []
    else
      var n := |factors| - 1;
      var before := KeptAt(factors[..n], redundant);
      if factors[n] in redundant then before else before + [n]
  }

  /** The kept columns stand in their old order. */
  lemma {:induction false} WithoutKeepsOrder(factors: seq<Factor>, redundant: set<Factor>)
    ensures
      var at := KeptAt(factors, redundant);
      && |at| == |Without(factors, redundant)|
      && (forall k :: 0 <= k < |at| ==> Without(factors, redundant)[k] == factors[at[k]])
      && (forall k, l :: 0 <= k < l < |at| ==> at[k] < at[l])
  {
    if |factors| != 0 {
      WithoutKeepsOrder(factors[..|factors| - 1], redundant);
    }
  }

  function Within(factors: seq<Factor>, redundant: set<Factor>): (r: seq<Factor>)
    ensures forall f :: f in r <==> f in factors && f in redundant
  {
    if |factors| == 0 then []
    else
      var r, f := Within(factors[..|factors| - 1], redundant), factors[|factors| - 1];
      assert factors == factors[..|factors| - 1] + [f];
      if f in redundant then r + [f] else r
  }

  /** End to end: the kept columns are the survivors if and only if no cluster was cut. */
  lemma KeptColumnsAreSurvivorsIff(order: seq<Factor>, c: Correlations, factors: seq<Factor>)
    requires Distinct(order) && Distinct(c.index)
    requires forall f :: f in c.index <==> f in order
    requires forall f :: f in factors <==> f in c.index
    ensures (forall f :: f in Without(factors, Exported(VisitAll(order, c).clusters)) <==> f in Survivors(order, c))
       <==> forall i :: 0 <= i < |VisitAll(order, c).clusters| ==> VisitAll(order, c).clusters[i].n <= EXPORTED
  {
    var s := VisitAll(order, c);
    var kept := Survivors(order, c);
    ExportIsDropIffSmall(order, c);
    forall g
      ensures g in Dropped(s) <==> g in c.index && g !in kept
      ensures g in Exported(s.clusters) ==> g in Dropped(s)
    {
      DroppedAreTheRest(order, c, g);
      ExportedWithinDropped(order, c, g);
    }
    ExactIffEqual(factors, c.index, kept, Exported(s.clusters), Dropped(s));
  }

  /**
   * The two scripts read their factor lists from different files. For any columns, a labelled column is kept exactly
   * when it survives if and only if no cluster cut a factor that is among the columns.
   */
  lemma KeptFactorsAreSurvivorsIff(order: seq<Factor>, c: Correlations, factors: seq<Factor>)
    requires Distinct(order) && Distinct(c.index)
    requires forall f :: f in c.index ==> f in order
    ensures
      var s := VisitAll(order, c);
      (forall f :: f in factors && f in c.index ==>
        (f in Without(factors, Exported(s.clusters)) <==> f in Survivors(order, c)))
      <==> (forall f :: f in factors && f in Dropped(s) ==> f in Exported(s.clusters))
  {
    hide Survivors, VisitAll, Dropped, Exported, Without;
    var s := VisitAll(order, c);
    forall g
      ensures g in Dropped(s) <==> g in c.index && g !in Survivors(order, c)
      ensures g in Exported(s.clusters) ==> g in Dropped(s)
    {
      DroppedAreTheRest(order, c, g);
      ExportedWithinDropped(order, c, g);
    }
  }

  // ----- a cluster that is cut

  /** That many factors, told apart by the length of their names ... */
  function Many(n: nat): (r: seq<Factor>)
    ensures |r| == n && Distinct(r)
  {
    seq(n, i requires 0 <= i < n => seq(i + 1, _ => 'f'))
  }

  /** ... each correlated with every other exactly as much as the threshold asks for. */
  function AllAlike(index: seq<Factor>): Correlations {
    Correlations(index, (f, g) => Some(0.7), 0.7)
  }

  lemma {:induction false} DistinctCount(s: seq<Factor>)
    requires Distinct(s)
    ensures |Elements(s)| == |s|
  {
    if |s| == 0 {
      assert Elements(s) == {};
    } else {
      var front, last := s[..|s| - 1], s[|s| - 1];
      DistinctCount(front);
      assert s == front + [last];
      assert last !in front;
      assert Elements(s) == Elements(front) + {last};
    }
  }

  /** The head's group is everything else. */
  lemma AlikeGroup(index: seq<Factor>)
    requires Distinct(index) && |index| > 0
    ensures |Group(index, AllAlike(index), index[0], {})| == |index| - 1
    ensures forall g :: g in index && g != index[0] ==> g in Group(index, AllAlike(index), index[0], {})
  {
    var grp := Group(index, AllAlike(index), index[0], {});
    GroupDistinct(index, AllAlike(index), index[0], {});
    DistinctCount(grp);
    DistinctCount(index);
    assert Elements(grp) == Elements(index) - {index[0]};
  }

  lemma FirstVisit(index: seq<Factor>)
    requires Distinct(index) && |index| >= 2
    ensures
      var s := Visit(Greedy({}, [], []), AllAlike(index), index[0]);
      && (forall g :: g in index ==> g in s.seen)
      && |s.clusters| == 1 && s.clusters[0].n == |index| - 1
  {
    AlikeGroup(index);
    assert index[0] in index;
    assert Group(index, AllAlike(index), index[0], {}) != [];
  }

  lemma VisitStep(order: seq<Factor>, c: Correlations, k: nat)
    requires k < |order|
    ensures VisitAll(order[..0], c) == Greedy({}, [], [])
    ensures VisitAll(order[..k + 1], c) == Visit(VisitAll(order[..k], c), c, order[k])
    ensures order[k] in VisitAll(order[..k], c).seen ==> VisitAll(order[..k + 1], c) == VisitAll(order[..k], c)
  {
    assert order[..k + 1][..k] == order[..k];
  }

  /** One visit claims everything, so the later ones change nothing. */
  lemma {:induction false} AlikeVisits(index: seq<Factor>, k: nat)
    requires Distinct(index) && 1 <= k <= |index| && |index| >= 2
    ensures VisitAll(index[..k], AllAlike(index)) == Visit(Greedy({}, [], []), AllAlike(index), index[0])
  {
    hide Visit, VisitAll, Distinct;
    VisitStep(index, AllAlike(index), k - 1);
    if k > 1 {
      AlikeVisits(index, k - 1);
      FirstVisit(index);
      assert index[k - 1] in index;
    }
  }

  /**
   * With fourteen or more such factors the cluster is cut, and a factor that does not survive comes back as a kept
   * column.
   */
  lemma ManyAlikeAreCut(n: nat)
    requires n >= 14
    ensures
      var index := Many(n);
      var clusters := VisitAll(index, AllAlike(index)).clusters;
      && AllAlike(index).Symmetric()
      && |clusters| == 1 && clusters[0].n == n - 1
      && !(forall f :: f in Without(index, Exported(clusters)) <==> f in Survivors(index, AllAlike(index)))
  {
    var index := Many(n);
    hide Survivors, Exported, Without, VisitAll, Visit, Many, Distinct;
    AlikeVisits(index, n);
    assert index[..n] == index;
    FirstVisit(index);
    KeptColumnsAreSurvivorsIff(index, AllAlike(index), index);
  }

  lemma ExactIffEqual(
      factors: seq<Factor>, index: seq<Factor>, kept: set<Factor>, exported: set<Factor>, dropped: set<Factor>)
    requires exported <= dropped
    requires forall f :: f in factors <==> f in index
    requires forall f :: f in kept ==> f in index
    requires forall f :: f in dropped <==> f in index && f !in kept
    ensures (forall f :: f in Without(factors, exported) <==> f in kept) <==> exported == dropped
  {
    if forall f :: f in Without(factors, exported) <==> f in kept {
      forall g | g in dropped
        ensures g in exported
      {
        assert g !in Without(factors, exported);
      }
    }
  }

  lemma ExportedWithinDropped(order: seq<Factor>, c: Correlations, g: Factor)
    requires Distinct(order) && Distinct(c.index)
    ensures g in Exported(VisitAll(order, c).clusters) ==> g in Dropped(VisitAll(order, c))
  {
    GroupsStayValid(order, c);
    var s := VisitAll(order, c);
    if g in Exported(s.clusters) {
      var k :| 0 <= k < |s.clusters| && g in s.clusters[k].redundantWith;
      assert g in s.groups[k];
    }
  }
}
