/** The merge of factor-definition lists: each expression once, every name made unique. */
module DefinitionMerge {
  import opened Options
  import opened Texts

  /** One entry of an input list; a missing key is None. */
  datatype Item = Item(name: Option<string>, expression: Option<string>, description: Option<string>)

  datatype Definition = Definition(name: string, expression: string, description: string)

  /** Python's "x or default": a missing or empty text gives the default. */
  function Or(x: Option<string>, default: string): string {
    if x.None? || x.value == "" then default else x.value
  }

  function Expression(item: Item): (e: string)
    ensures Trimmed(e)
  {
    Strip(Or(item.expression, ""))
  }

  function Synthesised(n: nat): string {
    "synth_" + Padded(n)
  }

  function BaseName(item: Item, position: nat): (base: string)
    ensures base != "" && Trimmed(base)
  {
    var stripped := Strip(Or(item.name, Synthesised(position)));
    assert Synthesised(position)[0] == 's';
    if stripped != "" then stripped else Synthesised(position)
  }

  function Description(item: Item): (d: string)
    ensures d != ""
  {
    Or(item.description, "Merged synthesized factor")
  }

  function Names(ds: seq<Definition>): set<string> {
    set d | d in ds :: d.name
  }

  function Expressions(ds: seq<Definition>): set<string> {
    set d | d in ds :: d.expression
  }

  lemma AppendSets(ds: seq<Definition>, d: Definition)
    ensures Names(ds + [d]) == Names(ds) + {d.name}
    ensures Expressions(ds + [d]) == Expressions(ds) + {d.expression}
  {
    assert forall x :: x in ds + [d] <==> x in ds || x == d;
    forall name
      ensures name in Names(ds + [d]) <==> name in Names(ds) || name == d.name
    {
      assert d in ds + [d];
    }
    forall e
      ensures e in Expressions(ds + [d]) <==> e in Expressions(ds) || e == d.expression
    {
      assert d in ds + [d];
    }
  }

  lemma Mentioned(ds: seq<Definition>, i: nat)
    requires i < |ds|
    ensures ds[i].name in Names(ds) && ds[i].expression in Expressions(ds)
  {
    assert ds[i] in ds;
  }

  // ----- renaming

  /** The k-th name tried: the base itself, then base_2, base_3 and so on. */
  function Candidate(base: string, k: nat): string
    requires k >= 1
  {
    if k == 1 then base else base + "_" + Decimal(k)
  }

  lemma CandidateInjective(base: string, j: nat, k: nat)
    requires j >= 1 && k >= 1 && Candidate(base, j) == Candidate(base, k)
    ensures j == k
  {
    if j > 1 && k > 1 {
      assert Candidate(base, j)[|base| + 1..] == Decimal(j);
      assert Candidate(base, k)[|base| + 1..] == Decimal(k);
      DecimalInjective(j, k);
    }
  }

  function Tried(base: string, k: nat): set<string>
  {
    if k == 0 then {} else Tried(base, k - 1) + {Candidate(base, k)}
  }

  lemma {:induction false} TriedMembers(base: string, k: nat, name: string)
    ensures name in Tried(base, k) <==> exists j :: 1 <= j <= k && Candidate(base, j) == name
  {
    hide Candidate;
    if k > 0 {
      TriedMembers(base, k - 1, name);
      if name in Tried(base, k) {
        if name in Tried(base, k - 1) {
          var j :| 1 <= j <= k - 1 && Candidate(base, j) == name;
          assert 1 <= j <= k && Candidate(base, j) == name;
        } else {
          assert 1 <= k <= k && Candidate(base, k) == name;
        }
      }
    }
  }

  /** k candidates are k different names, so a set that holds them all has at least k members. */
  lemma {:induction false} TriedIsLarge(base: string, k: nat)
    ensures |Tried(base, k)| == k
  {
    hide Candidate;
    if k > 0 {
      TriedIsLarge(base, k - 1);
      TriedMembers(base, k - 1, Candidate(base, k));
      if Candidate(base, k) in Tried(base, k - 1) {
        var j :| 1 <= j <= k - 1 && Candidate(base, j) == Candidate(base, k);
        CandidateInjective(base, j, k);
      }
    }
  }

  lemma Pigeonhole(base: string, used: set<string>, k: nat)
    requires forall j :: 1 <= j <= k ==> Candidate(base, j) in used
    ensures k <= |used|
  {
    hide Candidate, Tried;
    TriedIsLarge(base, k);
    forall name | name in Tried(base, k)
      ensures name in used
    {
      TriedMembers(base, k, name);
    }
    SubsetSize(Tried(base, k), used);
  }

  lemma SubsetSize(a: set<string>, b: set<string>)
    requires a <= b
    ensures |a| <= |b|
  {
    assert b == a + (b - a);
  }

  /** The first candidate from the k-th on that is not in use. */
  function FirstFree(base: string, used: set<string>, k: nat): (name: string)
    requires k >= 1 && forall j :: 1 <= j < k ==> Candidate(base, j) in used
    ensures name !in used
    ensures exists m :: k <= m && name == Candidate(base, m)
    decreases |used| + 1 - k
  {
    if Candidate(base, k) !in used then Candidate(base, k)
    else
      Pigeonhole(base, used, k);
      FirstFree(base, used, k + 1)
  }

  lemma FirstCandidate(base: string)
    ensures Candidate(base, 1) == base
  {
  }

  lemma LaterCandidate(base: string, k: nat)
    requires k >= 2
    ensures Candidate(base, k) == base + "_" + Decimal(k)
  {
  }

  /** A name made from a trimmed base is trimmed and not empty. */
  lemma CandidateTrimmed(base: string, k: nat)
    requires k >= 1 && base != "" && Trimmed(base)
    ensures Candidate(base, k) != "" && Trimmed(Candidate(base, k))
  {
    hide Decimal;
    if k > 1 {
      var name := Candidate(base, k);
      assert name[0] == base[0];
      assert name[|name| - 1] == Decimal(k)[|Decimal(k)| - 1];
    }
  }

  /** The renaming loop. It ends because the names in use are finitely many. */
  method UniqueName(base: string, used: set<string>) returns (name: string)
    ensures name == FirstFree(base, used, 1)
    ensures base !in used ==> name == base
  {
    hide Candidate, Decimal;
    FirstCandidate(base);
    name := base;
    var suffix := 2;
    while name in used
      invariant suffix >= 2 && name == Candidate(base, suffix - 1)
      invariant forall j :: 1 <= j < suffix - 1 ==> Candidate(base, j) in used
      invariant FirstFree(base, used, suffix - 1) == FirstFree(base, used, 1)
      decreases |used| + 2 - suffix
    {
      Pigeonhole(base, used, suffix - 1);
      LaterCandidate(base, suffix);
      name := base + "_" + Decimal(suffix);
      suffix := suffix + 1;
    }
  }

  // ----- the merge

  function Merge(items: seq<Item>): seq<Definition> {
    if items == [] then []
    else Step(Merge(items[..|items| - 1]), items[|items| - 1])
  }

  function Step(merged: seq<Definition>, item: Item): seq<Definition> {
    var e := Expression(item);
    if e == "" || e in Expressions(merged) then merged
    else merged + [Definition(FirstFree(BaseName(item, |merged| + 1), Names(merged), 1), e, Description(item))]
  }

  function Flatten(inputs: seq<seq<Item>>): seq<Item> {
    if inputs == [] then [] else Flatten(inputs[..|inputs| - 1]) + inputs[|inputs| - 1]
  }

  class Merger {
    var seenExpressions: set<string>
    var usedNames: set<string>
    var merged: seq<Definition>

    /** The two sets mirror the list. */
    ghost predicate Valid()
      reads this
    {
      seenExpressions == Expressions(merged) && usedNames == Names(merged)
    }

    constructor ()
      ensures Valid() && merged == []
    {
      seenExpressions, usedNames, merged := {}, {}, [];
    }

    method Add(item: Item)
      requires Valid()
      modifies this
      ensures Valid() && merged == Step(old(merged), item)
    {
      hide FirstFree, Names, Expressions, Expression, BaseName, Description;
      var e := Expression(item);
      if e == "" || e in seenExpressions {
        return;
      }
      var name := UniqueName(BaseName(item, |merged| + 1), usedNames);
      AppendSets(merged, Definition(name, e, Description(item)));
      seenExpressions := seenExpressions + {e};
      usedNames := usedNames + {name};
      merged := merged + [Definition(name, e, Description(item))];
    }

    /** One input's items, after those merged before. */
    method AddFile(items: seq<Item>, ghost before: seq<Item>)
      requires Valid() && merged == Merge(before)
      modifies this
      ensures Valid() && merged == Merge(before + items)
    {
      hide Step, Merge, Names, Expressions;
      var k := 0;
      assert before + items[..0] == before;
      while k < |items|
        invariant 0 <= k <= |items| && Valid() && merged == Merge(before + items[..k])
      {
        MergeNext(before, items, k);
        Add(items[k]);
        k := k + 1;
      }
      assert items[..k] == items;
    }

    /** Every item of every input, in order. */
    method AddAll(inputs: seq<seq<Item>>)
      requires Valid() && merged == []
      modifies this
      ensures Valid() && merged == Merge(Flatten(inputs))
    {
      hide Step, Names, Expressions;
      var i := 0;
      while i < |inputs|
        invariant 0 <= i <= |inputs| && Valid() && merged == Merge(Flatten(inputs[..i]))
      {
        FlattenNext(inputs, i);
        AddFile(inputs[i], Flatten(inputs[..i]));
        i := i + 1;
      }
      assert inputs[..i] == inputs;
    }
  }

  lemma MergeNext(before: seq<Item>, items: seq<Item>, k: nat)
    requires k < |items|
    ensures Merge(before + items[..k + 1]) == Step(Merge(before + items[..k]), items[k])
  {
    hide Step;
    assert (before + items[..k + 1])[..|before| + k] == before + items[..k];
  }

  lemma FlattenNext(inputs: seq<seq<Item>>, i: nat)
    requires i < |inputs|
    ensures Flatten(inputs[..i + 1]) == Flatten(inputs[..i]) + inputs[i]
  {
    assert inputs[..i + 1][..i] == inputs[..i];
  }

  // ----- what the merge promises

  ghost predicate DistinctNames(ds: seq<Definition>) {
    forall i, j :: 0 <= i < j < |ds| ==> ds[i].name != ds[j].name
  }

  ghost predicate DistinctExpressions(ds: seq<Definition>) {
    forall i, j :: 0 <= i < j < |ds| ==> ds[i].expression != ds[j].expression
  }

  /** Names and expressions are pairwise distinct, trimmed and not empty. */
  ghost predicate WellMerged(ds: seq<Definition>) {
    && DistinctNames(ds) && DistinctExpressions(ds)
    && forall i :: 0 <= i < |ds| ==>
      && ds[i].name != "" && Trimmed(ds[i].name)
      && ds[i].expression != "" && Trimmed(ds[i].expression) && ds[i].description != ""
  }

  lemma AppendKeepsWellMerged(ds: seq<Definition>, d: Definition)
    requires WellMerged(ds)
    requires d.name !in Names(ds) && d.expression !in Expressions(ds)
    requires d.name != "" && Trimmed(d.name) && d.expression != "" && Trimmed(d.expression) && d.description != ""
    ensures WellMerged(ds + [d])
  {
    hide Names, Expressions, Trimmed;
    forall i | 0 <= i < |ds|
      ensures ds[i].name != d.name && ds[i].expression != d.expression
    {
      Mentioned(ds, i);
    }
  }

  lemma StepKeepsWellMerged(ds: seq<Definition>, item: Item)
    requires WellMerged(ds)
    ensures WellMerged(Step(ds, item))
  {
    hide FirstFree, Candidate, Names, Expressions, Expression, BaseName, Description, WellMerged, Trimmed;
    var e := Expression(item);
    if e != "" && e !in Expressions(ds) {
      var base := BaseName(item, |ds| + 1);
      var name := FirstFree(base, Names(ds), 1);
      var m :| m >= 1 && name == Candidate(base, m);
      CandidateTrimmed(base, m);
      AppendKeepsWellMerged(ds, Definition(name, e, Description(item)));
    }
  }

  lemma {:induction false} MergeIsWellMerged(items: seq<Item>)
    ensures WellMerged(Merge(items))
  {
    if items != [] {
      MergeIsWellMerged(items[..|items| - 1]);
      StepKeepsWellMerged(Merge(items[..|items| - 1]), items[|items| - 1]);
    }
  }

  /** Some item of the input has this expression. */
  ghost predicate Mentions(items: seq<Item>, e: string) {
    exists i :: 0 <= i < |items| && Expression(items[i]) == e
  }

  lemma MentionsLast(items: seq<Item>, e: string)
    requires items != []
    ensures Mentions(items, e) <==> Mentions(items[..|items| - 1], e) || Expression(items[|items| - 1]) == e
  {
    hide Expression;
    var front := items[..|items| - 1];
    if i :| 0 <= i < |front| && Expression(front[i]) == e {
      assert Expression(items[i]) == e;
    }
    if i :| 0 <= i < |items| && Expression(items[i]) == e {
      if i < |front| {
        assert Expression(front[i]) == e;
      }
    }
  }

  /** The merged expressions are exactly the input expressions that are not empty after stripping. */
  lemma {:induction false} MergeCovers(items: seq<Item>, e: string)
    ensures e in Expressions(Merge(items)) <==> e != "" && Mentions(items, e)
  {
    hide Expressions, Expression, Step;
    if items == [] {
      NoExpressions();
    } else {
      var n := |items| - 1;
      MergeCovers(items[..n], e);
      MentionsLast(items, e);
      StepExpressions(Merge(items[..n]), items[n], e);
    }
  }

  lemma NoExpressions()
    ensures Expressions([]) == {}
  {
  }

  lemma StepExpressions(ds: seq<Definition>, item: Item, e: string)
    ensures e in Expressions(Step(ds, item)) <==> e in Expressions(ds) || (e != "" && Expression(item) == e)
  {
    hide Expressions, Expression, FirstFree, Names;
    var next := Step(ds, item);
    if next != ds {
      AppendSets(ds, next[|ds|]);
    }
  }

  /** Later inputs only append: what was merged first keeps its place and its name. */
  lemma {:induction false} MergeExtends(a: seq<Item>, b: seq<Item>)
    ensures Merge(a) <= Merge(a + b)
  {
    if b == [] {
      assert a + b == a;
    } else {
      MergeExtends(a, b[..|b| - 1]);
      assert (a + b)[..|a + b| - 1] == a + b[..|b| - 1];
    }
  }

  /** A definition carries the description and the base name of the first item with its expression. */
  lemma {:induction false} FirstItemWins(items: seq<Item>, i: nat)
    requires i < |items| && Expression(items[i]) != ""
    requires forall j :: 0 <= j < i ==> Expression(items[j]) != Expression(items[i])
    ensures
      var before := Merge(items[..i]);
      && |before| < |Merge(items)|
      && Merge(items)[|before|] == Definition(
        FirstFree(BaseName(items[i], |before| + 1), Names(before), 1), Expression(items[i]), Description(items[i]))
  {
    hide Expression, Expressions, FirstFree, Names, BaseName, Description, Merge, Step;
    NewExpression(items, i);
    MergeNext([], items, i);
    assert [] + items[..i] == items[..i] && [] + items[..i + 1] == items[..i + 1];
    StepAppends(Merge(items[..i]), items[i]);
    assert items == items[..i + 1] + items[i + 1..];
    MergeExtends(items[..i + 1], items[i + 1..]);
  }

  lemma NewExpression(items: seq<Item>, i: nat)
    requires i < |items|
    requires forall j :: 0 <= j < i ==> Expression(items[j]) != Expression(items[i])
    ensures Expression(items[i]) !in Expressions(Merge(items[..i]))
  {
    hide Expression, Expressions, Merge;
    MergeCovers(items[..i], Expression(items[i]));
  }

  lemma StepAppends(merged: seq<Definition>, item: Item)
    requires Expression(item) != "" && Expression(item) !in Expressions(merged)
    ensures Step(merged, item) == merged
          + [Definition(FirstFree(BaseName(item, |merged| + 1), Names(merged), 1), Expression(item), Description(item))]
  {
    hide Expression, Expressions, FirstFree, Names, BaseName, Description;
  }

  // ----- merging an own output

  function AsItems(ds: seq<Definition>): (items: seq<Item>)
    ensures |items| == |ds|
  {
    seq(|ds|, i requires 0 <= i < |ds| => Item(Some(ds[i].name), Some(ds[i].expression), Some(ds[i].description)))
  }

  lemma {:induction false} WellMergedIsFixed(ds: seq<Definition>)
    requires WellMerged(ds)
    ensures Merge(AsItems(ds)) == ds
  {
    hide Step, Trimmed;
    if ds != [] {
      var n := |ds| - 1;
      var front := ds[..n];
      WellMergedIsFixed(front);
      assert AsItems(ds)[..n] == AsItems(front);
      OwnDefinitionStays(front, ds[n]);
      assert ds == front + [ds[n]];
    }
  }

  lemma OwnDefinitionStays(front: seq<Definition>, d: Definition)
    requires WellMerged(front + [d])
    ensures Step(front, Item(Some(d.name), Some(d.expression), Some(d.description))) == front + [d]
  {
    hide Candidate;
    var ds := front + [d];
    assert ds[|front|] == d;
    NotMentioned(front, d);
    FirstCandidate(d.name);
  }

  lemma NotMentioned(front: seq<Definition>, d: Definition)
    requires WellMerged(front + [d])
    ensures d.name !in Names(front) && d.expression !in Expressions(front)
  {
    var ds := front + [d];
    assert ds[|front|] == d;
    forall i | 0 <= i < |front|
      ensures front[i].name != d.name && front[i].expression != d.expression
    {
      assert ds[i] == front[i];
    }
  }

  /** Merging a merge's own output changes nothing. */
  lemma MergeIsIdempotent(items: seq<Item>)
    ensures Merge(AsItems(Merge(items))) == Merge(items)
  {
    MergeIsWellMerged(items);
    WellMergedIsFixed(Merge(items));
  }
}
