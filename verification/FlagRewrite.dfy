/** The tradability-flag rewrite: row group by row group into a temporary file that replaces the dataset at the end. */
module FlagRewrite {
  import opened Options

  datatype Flags = Flags(specialTreatment: bool, suspended: bool, limitUp: bool, limitDown: bool)

  /** One count per flag column. */
  datatype Counts = Counts(specialTreatment: nat, suspended: nat, limitUp: nat, limitDown: nat)

  const NO_FLAGS := Counts(0, 0, 0, 0)

  /** A dataset row; an unparsable date is None, and the other columns are one opaque value. */
  datatype Row = Row(symbol: string, date: Option<int>, flags: Flags, payload: int)

  datatype PanelRow = PanelRow(symbol: string, date: int, flags: Flags, evidence: string)

  /**
   * How a run ends. A refusal is the source's SystemExit; a failed join is an ordinary exception, raised when the
   * panel holds a key twice.
   */
  datatype Outcome = InvalidDate | Uncovered | FailedJoin
    | Rewritten(rows: nat, matched: nat, flagged: Counts, evidence: set<string>)

  predicate Refused(o: Outcome) {
    o.InvalidDate? || o.Uncovered?
  }

  predicate UniquePanel(panel: seq<PanelRow>) {
    forall i, j :: 0 <= i < j < |panel| ==> panel[i].symbol != panel[j].symbol || panel[i].date != panel[j].date
  }

  // ----- the join

  function Match(panel: seq<PanelRow>, symbol: string, date: int): (r: Option<PanelRow>)
    ensures r.Some? ==> r.value in panel && r.value.symbol == symbol && r.value.date == date
    ensures r.None? ==> forall p :: p in panel ==> p.symbol != symbol || p.date != date
  {
    if panel == [] then None
    else if panel[0].symbol == symbol && panel[0].date == date then Some(panel[0])
    else Match(panel[1..], symbol, date)
  }

  predicate Covered(r: Row, panel: seq<PanelRow>) {
    r.date.Some? && Match(panel, r.symbol, r.date.value).Some?
  }

  function MatchOf(r: Row, panel: seq<PanelRow>): PanelRow
    requires Covered(r, panel)
  {
    Match(panel, r.symbol, r.date.value).value
  }

  function Corrected(r: Row, panel: seq<PanelRow>): Row
    requires Covered(r, panel)
  {
    r.(flags := MatchOf(r, panel).flags)
  }

  predicate AllCovered(rows: seq<Row>, panel: seq<PanelRow>) {
    forall i :: 0 <= i < |rows| ==> Covered(rows[i], panel)
  }

  predicate AllDated(rows: seq<Row>) {
    forall i :: 0 <= i < |rows| ==> rows[i].date.Some?
  }

  /** The join of a whole list of rows, in their order. */
  function Joined(rows: seq<Row>, panel: seq<PanelRow>): (r: seq<Row>)
    requires AllCovered(rows, panel)
    ensures |r| == |rows|
    ensures forall i :: 0 <= i < |rows| ==> r[i] == Corrected(rows[i], panel)
  {
    seq(|rows|, i requires 0 <= i < |rows| => Corrected(rows[i], panel))
  }

  function Plus(a: Counts, b: Counts): Counts {
    Counts(a.specialTreatment + b.specialTreatment, a.suspended + b.suspended,
           a.limitUp + b.limitUp, a.limitDown + b.limitDown)
  }

  /** How many rows carry each flag. */
  function Flagged(rows: seq<Row>): Counts {
    if rows == [] then NO_FLAGS
    else Plus(Flagged(rows[..|rows| - 1]), FlagCount(rows[|rows| - 1].flags))
  }

  function FlagCount(f: Flags): Counts {
    Counts(if f.specialTreatment then 1 else 0, if f.suspended then 1 else 0,
           if f.limitUp then 1 else 0, if f.limitDown then 1 else 0)
  }

  datatype Flag = SpecialTreatment | Suspended | LimitUp | LimitDown

  predicate Carries(r: Row, flag: Flag) {
    match flag
    case SpecialTreatment => r.flags.specialTreatment
    case Suspended => r.flags.suspended
    case LimitUp => r.flags.limitUp
    case LimitDown => r.flags.limitDown
  }

  /** The positions of the rows that carry a flag. */
  function Carrying(rows: seq<Row>, flag: Flag): set<nat> {
    set i: nat | i < |rows| && Carries(rows[i], flag)
  }

  lemma CarryingAppend(rows: seq<Row>, r: Row, flag: Flag)
    ensures |Carrying(rows + [r], flag)| == |Carrying(rows, flag)| + if Carries(r, flag) then 1 else 0
  {
    hide Carries;
    assert Carrying(rows + [r], flag) == Carrying(rows, flag) + if Carries(r, flag) then {|rows|} else {};
  }

  function CountOf(c: Counts, flag: Flag): nat {
    match flag
    case SpecialTreatment => c.specialTreatment
    case Suspended => c.suspended
    case LimitUp => c.limitUp
    case LimitDown => c.limitDown
  }

  lemma {:induction false} FlagCounted(rows: seq<Row>, flag: Flag)
    ensures CountOf(Flagged(rows), flag) == |Carrying(rows, flag)|
  {
    hide Flagged, Carrying, Carries, CountOf, Plus, FlagCount;
    FlaggedLast(rows);
    if rows == [] {
      NothingCarries(flag);
    } else {
      var n := |rows| - 1;
      FlagCounted(rows[..n], flag);
      assert rows == rows[..n] + [rows[n]];
      CarryingAppend(rows[..n], rows[n], flag);
      RowCounted(Flagged(rows[..n]), rows[n], flag);
    }
  }

  lemma FlaggedLast(rows: seq<Row>)
    ensures rows == [] ==> Flagged(rows) == NO_FLAGS
    ensures rows != [] ==>
      Flagged(rows) == Plus(Flagged(rows[..|rows| - 1]), FlagCount(rows[|rows| - 1].flags))
  {
  }

  lemma NothingCarries(flag: Flag)
    ensures Carrying([], flag) == {} && CountOf(NO_FLAGS, flag) == 0
  {
  }

  lemma RowCounted(c: Counts, r: Row, flag: Flag)
    ensures CountOf(Plus(c, FlagCount(r.flags)), flag) == CountOf(c, flag) + if Carries(r, flag) then 1 else 0
  {
  }

  /** Each count is the number of rows that carry that flag. */
  lemma FlaggedCounts(rows: seq<Row>)
    ensures Flagged(rows).specialTreatment == |Carrying(rows, SpecialTreatment)|
    ensures Flagged(rows).suspended == |Carrying(rows, Suspended)|
    ensures Flagged(rows).limitUp == |Carrying(rows, LimitUp)|
    ensures Flagged(rows).limitDown == |Carrying(rows, LimitDown)|
  {
    hide Flagged, Carrying;
    FlagCounted(rows, SpecialTreatment);
    FlagCounted(rows, Suspended);
    FlagCounted(rows, LimitUp);
    FlagCounted(rows, LimitDown);
  }

  function Evidence(rows: seq<Row>, panel: seq<PanelRow>): set<string>
    requires AllCovered(rows, panel)
  {
    set i | 0 <= i < |rows| :: MatchOf(rows[i], panel).evidence
  }

  function Flatten(groups: seq<seq<Row>>): seq<Row> {
    if groups == [] then [] else Flatten(groups[..|groups| - 1]) + groups[|groups| - 1]
  }

  // ----- one row group

  /** What the checks of one row group say: dates first, then the join, then the panel's coverage. */
  function GroupFault(group: seq<Row>, panel: seq<PanelRow>): (fault: Option<Outcome>)
    ensures fault.Some? ==> !fault.value.Rewritten?
  {
    if !AllDated(group) then Some(InvalidDate)
    else if !UniquePanel(panel) then Some(FailedJoin)
    else if !AllCovered(group, panel) then Some(Uncovered)
    else None
  }

  ghost predicate HoldsKeyTwice(panel: seq<PanelRow>) {
    exists i, j :: 0 <= i < j < |panel| && panel[i].symbol == panel[j].symbol && panel[i].date == panel[j].date
  }

  ghost predicate Undated(group: seq<Row>) {
    exists r :: r in group && r.date.None?
  }

  /** Some row has no panel row of its symbol and date. */
  ghost predicate Unmatched(group: seq<Row>, panel: seq<PanelRow>) {
    exists r :: r in group && forall p :: p in panel ==> !(p.symbol == r.symbol && Some(p.date) == r.date)
  }

  /** Which fault a group has, from its rows and the panel's. */
  lemma GroupFaultIff(group: seq<Row>, panel: seq<PanelRow>)
    ensures GroupFault(group, panel) == Some(InvalidDate) <==> Undated(group)
    ensures GroupFault(group, panel) == Some(FailedJoin) <==> !Undated(group) && HoldsKeyTwice(panel)
    ensures GroupFault(group, panel) == Some(Uncovered)
       <==> !Undated(group) && !HoldsKeyTwice(panel) && Unmatched(group, panel)
    ensures GroupFault(group, panel).None?
       <==> !Undated(group) && !HoldsKeyTwice(panel) && !Unmatched(group, panel)
  {
    DatedIff(group);
    if !Undated(group) {
      CoveredIff(group, panel);
    }
    hide AllDated, AllCovered, Undated, Unmatched;
    if !UniquePanel(panel) {
      var i, j :| 0 <= i < j < |panel| && panel[i].symbol == panel[j].symbol && panel[i].date == panel[j].date;
    }
  }

  lemma DatedIff(group: seq<Row>)
    ensures AllDated(group) <==> !Undated(group)
  {
    if !AllDated(group) {
      var i :| 0 <= i < |group| && group[i].date.None?;
      assert group[i] in group;
    }
  }

  lemma CoveredIff(group: seq<Row>, panel: seq<PanelRow>)
    requires !Undated(group)
    ensures AllCovered(group, panel) <==> !Unmatched(group, panel)
  {
    hide Match;
    if !AllCovered(group, panel) {
      var i :| 0 <= i < |group| && !Covered(group[i], panel);
      assert group[i] in group;
    }
    if AllCovered(group, panel) {
      forall r | r in group
        ensures exists p :: p in panel && p.symbol == r.symbol && Some(p.date) == r.date
      {
        var i :| 0 <= i < |group| && group[i] == r;
        var m := Match(panel, r.symbol, r.date.value).value;
        assert m in panel;
      }
    }
  }

  /** The evidence is that of the panel rows which the rows match. */
  lemma EvidenceIff(rows: seq<Row>, panel: seq<PanelRow>, e: string)
    requires AllCovered(rows, panel) && UniquePanel(panel)
    ensures e in Evidence(rows, panel) <==>
      exists r, p :: r in rows && p in panel && p.symbol == r.symbol && Some(p.date) == r.date && p.evidence == e
  {
    hide Match, UniquePanel;
    if e in Evidence(rows, panel) {
      var i :| 0 <= i < |rows| && MatchOf(rows[i], panel).evidence == e;
      assert Covered(rows[i], panel);
      var m := MatchOf(rows[i], panel);
      assert rows[i] in rows && m in panel && m.symbol == rows[i].symbol && Some(m.date) == rows[i].date;
    }
    if r, p :| r in rows && p in panel && p.symbol == r.symbol && Some(p.date) == r.date && p.evidence == e {
      var i :| 0 <= i < |rows| && rows[i] == r;
      assert Covered(rows[i], panel);
      MatchIsUnique(panel, p, MatchOf(r, panel));
    }
  }

  lemma MatchIsUnique(panel: seq<PanelRow>, a: PanelRow, b: PanelRow)
    requires UniquePanel(panel) && a in panel && b in panel && a.symbol == b.symbol && a.date == b.date
    ensures a == b
  {
    var i :| 0 <= i < |panel| && panel[i] == a;
    var j :| 0 <= j < |panel| && panel[j] == b;
    assert i == j;
  }

  /** The loop over the rows of one group. */
  method RewriteGroup(
      group: seq<Row>, panel: seq<PanelRow>)
    returns (rows: seq<Row>, flagged: Counts, evidence: set<string>)
    requires AllCovered(group, panel)
    ensures rows == Joined(group, panel)
    ensures flagged == Flagged(rows)
    ensures evidence == Evidence(group, panel)
  {
    hide Match, FlagCount;
    rows, flagged, evidence := [], NO_FLAGS, {};
    var i := 0;
    while i < |group|
      invariant 0 <= i <= |group| && |rows| == i
      invariant forall k :: 0 <= k < i ==> rows[k] == Corrected(group[k], panel)
      invariant flagged == Flagged(rows)
      invariant evidence == set k | 0 <= k < i :: MatchOf(group[k], panel).evidence
    {
      var row := Corrected(group[i], panel);
      assert (rows + [row])[..i] == rows;
      rows := rows + [row];
      flagged := Plus(flagged, FlagCount(row.flags));
      evidence := evidence + {MatchOf(group[i], panel).evidence};
      i := i + 1;
    }
  }

  // ----- the file

  /** The whole run's result; the row groups matter only for which fault is met first. */
  function Result(groups: seq<seq<Row>>, panel: seq<PanelRow>): (o: Outcome)
    ensures o.Rewritten? ==> AllCovered(Flatten(groups), panel)
  {
    if groups == [] then Rewritten(0, 0, NO_FLAGS, {})
    else
      var n := |groups| - 1;
      var before := Result(groups[..n], panel);
      if !before.Rewritten? then before
      else
        var fault := GroupFault(groups[n], panel);
        if fault.Some? then fault.value
        else
          Rewritten(before.rows + |groups[n]|, before.matched + |groups[n]|,
            Plus(before.flagged, Flagged(Joined(groups[n], panel))), before.evidence + Evidence(groups[n], panel))
  }

  class DatasetFile {
    var dataset: seq<seq<Row>>
    var temporary: Option<seq<seq<Row>>>

    constructor (groups: seq<seq<Row>>)
      ensures dataset == groups && temporary == None
    {
      dataset, temporary := groups, None;
    }

    /** The row-group loop; the temporary file grows until the first fault. */
    method WriteTemporary(panel: seq<PanelRow>) returns (outcome: Outcome)
      modifies this`temporary
      ensures outcome == Result(dataset, panel)
      ensures temporary.Some? && |temporary.value| <= |dataset|
      ensures forall i :: 0 <= i < |temporary.value| ==>
        AllCovered(dataset[i], panel) && temporary.value[i] == Joined(dataset[i], panel)
      ensures outcome.Rewritten? <==> |temporary.value| == |dataset|
    {
      hide AllCovered, AllDated, UniquePanel, Joined, Evidence, Flagged, Flatten;
      var written: seq<seq<Row>> := [];
      temporary := Some(written);
      outcome := Rewritten(0, 0, NO_FLAGS, {});
      var i := 0;
      while i < |dataset|
        invariant 0 <= i <= |dataset| && |written| == i && temporary == Some(written)
        invariant outcome.Rewritten? && outcome == Result(dataset[..i], panel)
        invariant forall k :: 0 <= k < i ==> AllCovered(dataset[k], panel) && written[k] == Joined(dataset[k], panel)
      {
        var group := dataset[i];
        ResultNext(dataset, i, panel);
        var fault := GroupFault(group, panel);
        if fault.Some? {
          FaultStays(dataset, i + 1, panel);
          outcome := fault.value;
          return;
        }
        var rows, flagged, evidence := RewriteGroup(group, panel);
        written := written + [rows];
        temporary := Some(written);
        outcome := Rewritten(outcome.rows + |group|, outcome.matched + |rows|,
          Plus(outcome.flagged, flagged), outcome.evidence + evidence);
        i := i + 1;
      }
      assert dataset[..i] == dataset;
    }

    /**
     * A run: on success the dataset becomes its own join, group by group; otherwise it is untouched. The temporary file
     * is removed after an ordinary exception but left behind by a refusal.
     */
    method Fix(panel: seq<PanelRow>) returns (outcome: Outcome)
      modifies this
      ensures outcome == Result(old(dataset), panel)
      ensures !outcome.Rewritten? ==> dataset == old(dataset)
      ensures outcome.Rewritten? ==> |dataset| == |old(dataset)|
      ensures outcome.Rewritten? ==> forall i :: 0 <= i < |dataset| ==>
        AllCovered(old(dataset)[i], panel) && dataset[i] == Joined(old(dataset)[i], panel)
      ensures temporary.Some? <==> Refused(outcome)
      ensures temporary.Some? ==> |temporary.value| < |dataset|
    {
      hide AllCovered, Joined;
      outcome := WriteTemporary(panel);
      if outcome.FailedJoin? {
        temporary := None;
      } else if outcome.Rewritten? {
        dataset := temporary.value;
        temporary := None;
      }
    }
  }

  lemma ResultNext(groups: seq<seq<Row>>, i: nat, panel: seq<PanelRow>)
    requires i < |groups| && Result(groups[..i], panel).Rewritten?
    ensures
      var before := Result(groups[..i], panel);
      var fault := GroupFault(groups[i], panel);
      Result(groups[..i + 1], panel) ==
        if fault.Some? then fault.value
        else
          Rewritten(before.rows + |groups[i]|, before.matched + |groups[i]|,
            Plus(before.flagged, Flagged(Joined(groups[i], panel))), before.evidence + Evidence(groups[i], panel))
  {
    hide AllCovered, AllDated, UniquePanel, Joined, Evidence, Flagged;
    assert groups[..i + 1][..i] == groups[..i];
  }

  lemma {:induction false} FaultStays(groups: seq<seq<Row>>, i: nat, panel: seq<PanelRow>)
    requires i <= |groups| && !Result(groups[..i], panel).Rewritten?
    ensures Result(groups, panel) == Result(groups[..i], panel)
  {
    hide AllCovered, AllDated, UniquePanel, Joined, Evidence, Flagged, Flatten;
    if i == |groups| {
      assert groups[..i] == groups;
    } else {
      var n := |groups| - 1;
      assert groups[..n][..i] == groups[..i];
      FaultStays(groups[..n], i, panel);
    }
  }

  // ----- the whole file

  lemma CoveredAppend(a: seq<Row>, b: seq<Row>, panel: seq<PanelRow>)
    ensures AllCovered(a + b, panel) <==> AllCovered(a, panel) && AllCovered(b, panel)
  {
    hide Covered;
    if AllCovered(a + b, panel) {
      forall i | 0 <= i < |a|
        ensures Covered(a[i], panel)
      {
        assert Covered((a + b)[i], panel);
      }
      forall i | 0 <= i < |b|
        ensures Covered(b[i], panel)
      {
        assert Covered((a + b)[|a| + i], panel);
      }
    }
  }

  lemma JoinedAppend(a: seq<Row>, b: seq<Row>, panel: seq<PanelRow>)
    requires AllCovered(a, panel) && AllCovered(b, panel)
    ensures AllCovered(a + b, panel) && Joined(a + b, panel) == Joined(a, panel) + Joined(b, panel)
  {
    hide Covered, Corrected;
    CoveredAppend(a, b, panel);
  }

  lemma {:induction false} FlaggedAppend(a: seq<Row>, b: seq<Row>)
    ensures Flagged(a + b) == Plus(Flagged(a), Flagged(b))
  {
    hide FlagCount;
    if b == [] {
      assert a + b == a;
    } else {
      var n := |b| - 1;
      FlaggedAppend(a, b[..n]);
      assert (a + b)[..|a| + n] == a + b[..n];
    }
  }

  lemma EvidenceAppend(a: seq<Row>, b: seq<Row>, panel: seq<PanelRow>)
    requires AllCovered(a, panel) && AllCovered(b, panel)
    ensures AllCovered(a + b, panel) && Evidence(a + b, panel) == Evidence(a, panel) + Evidence(b, panel)
  {
    hide Covered, MatchOf;
    CoveredAppend(a, b, panel);
    var all := a + b;
    forall e
      ensures e in Evidence(all, panel) <==> e in Evidence(a, panel) || e in Evidence(b, panel)
    {
      if e in Evidence(all, panel) {
        var i :| 0 <= i < |all| && MatchOf(all[i], panel).evidence == e;
        if i < |a| {
          assert MatchOf(a[i], panel).evidence == e;
        } else {
          assert MatchOf(b[i - |a|], panel).evidence == e;
        }
      }
      if e in Evidence(a, panel) {
        var i :| 0 <= i < |a| && MatchOf(a[i], panel).evidence == e;
        assert MatchOf(all[i], panel).evidence == e;
      }
      if e in Evidence(b, panel) {
        var i :| 0 <= i < |b| && MatchOf(b[i], panel).evidence == e;
        assert MatchOf(all[|a| + i], panel).evidence == e;
      }
    }
  }

  lemma CoveredAreDated(rows: seq<Row>, panel: seq<PanelRow>)
    requires AllCovered(rows, panel)
    ensures AllDated(rows)
  {
    forall i | 0 <= i < |rows|
      ensures rows[i].date.Some?
    {
      assert Covered(rows[i], panel);
    }
  }

  /**
   * The rewrite succeeds if and only if the panel covers every row of the file and holds no key twice; it then reports
   * the counts and the evidence of one join over the whole file.
   */
  lemma {:induction false} RewriteIsWholeFileJoin(groups: seq<seq<Row>>, panel: seq<PanelRow>)
    ensures Result(groups, panel).Rewritten? <==>
      AllCovered(Flatten(groups), panel) && (groups == [] || UniquePanel(panel))
    ensures Result(groups, panel).Rewritten? ==>
      (var rows := Flatten(groups);
       Result(groups, panel) == Rewritten(|rows|, |rows|, Flagged(Joined(rows, panel)), Evidence(rows, panel)))
  {
    hide AllCovered, AllDated, UniquePanel, Joined, Evidence, Flagged;
    if groups == [] {
      EmptyFile(panel);
    } else {
      var n := |groups| - 1;
      var front, last := Flatten(groups[..n]), groups[n];
      RewriteIsWholeFileJoin(groups[..n], panel);
      CoveredAppend(front, last, panel);
      if AllCovered(front, panel) && AllCovered(last, panel) {
        CoveredAreDated(last, panel);
        JoinedAppend(front, last, panel);
        FlaggedAppend(Joined(front, panel), Joined(last, panel));
        EvidenceAppend(front, last, panel);
      }
    }
  }

  lemma EmptyFile(panel: seq<PanelRow>)
    ensures AllCovered([], panel) && Joined([], panel) == [] && Flagged([]) == NO_FLAGS && Evidence([], panel) == {}
  {
  }

  /** The groups of the new file, read in order, are the join of the old file's rows. */
  lemma {:induction false} GroupsJoinToWhole(groups: seq<seq<Row>>, rewritten: seq<seq<Row>>, panel: seq<PanelRow>)
    requires |rewritten| == |groups|
    requires forall i :: 0 <= i < |groups| ==> AllCovered(groups[i], panel) && rewritten[i] == Joined(groups[i], panel)
    ensures AllCovered(Flatten(groups), panel) && Flatten(rewritten) == Joined(Flatten(groups), panel)
  {
    hide AllCovered, Joined;
    if groups == [] {
      EmptyFile(panel);
    } else {
      var n := |groups| - 1;
      GroupsJoinToWhole(groups[..n], rewritten[..n], panel);
      assert AllCovered(groups[n], panel);
      JoinedAppend(Flatten(groups[..n]), groups[n], panel);
    }
  }

  /** How the rows are cut into groups does not matter to a success. */
  lemma GroupingIsIrrelevant(a: seq<seq<Row>>, b: seq<seq<Row>>, panel: seq<PanelRow>)
    requires a != [] && b != [] && Flatten(a) == Flatten(b)
    ensures Result(a, panel).Rewritten? <==> Result(b, panel).Rewritten?
    ensures Result(a, panel).Rewritten? ==> Result(a, panel) == Result(b, panel)
  {
    hide Result, AllCovered, UniquePanel, Flatten;
    RewriteIsWholeFileJoin(a, panel);
    RewriteIsWholeFileJoin(b, panel);
  }

  /** A failed run reports the fault of the first faulty group. */
  lemma {:induction false} FirstFaultIsReported(groups: seq<seq<Row>>, panel: seq<PanelRow>) returns (at: nat)
    requires !Result(groups, panel).Rewritten?
    ensures at < |groups| && GroupFault(groups[at], panel) == Some(Result(groups, panel))
    ensures forall i :: 0 <= i < at ==> GroupFault(groups[i], panel) == None
  {
    hide GroupFault;
    var n := |groups| - 1;
    if Result(groups[..n], panel).Rewritten? {
      forall i | 0 <= i < n
        ensures GroupFault(groups[i], panel) == None
      {
        NoFaultBefore(groups[..n], panel, i);
      }
      at := n;
    } else {
      at := FirstFaultIsReported(groups[..n], panel);
    }
  }

  lemma {:induction false} NoFaultBefore(groups: seq<seq<Row>>, panel: seq<PanelRow>, i: nat)
    requires Result(groups, panel).Rewritten? && i < |groups|
    ensures GroupFault(groups[i], panel) == None
  {
    hide GroupFault;
    if i < |groups| - 1 {
      NoFaultBefore(groups[..|groups| - 1], panel, i);
    }
  }

  // ----- what the join changes

  lemma MatchFinds(panel: seq<PanelRow>, p: PanelRow)
    requires UniquePanel(panel) && p in panel
    ensures Match(panel, p.symbol, p.date) == Some(p)
  {
    var found := Match(panel, p.symbol, p.date);
    if found.Some? {
      var i :| 0 <= i < |panel| && panel[i] == p;
      var j :| 0 <= j < |panel| && panel[j] == found.value;
    }
  }

  /** A rewritten row has the flags of the panel's own row for its key, and nothing else of it changes. */
  lemma JoinTakesPanelFlags(rows: seq<Row>, panel: seq<PanelRow>, i: nat, p: PanelRow)
    requires AllCovered(rows, panel) && UniquePanel(panel) && i < |rows|
    requires p in panel && p.symbol == rows[i].symbol && rows[i].date == Some(p.date)
    ensures Joined(rows, panel)[i] == Row(rows[i].symbol, rows[i].date, p.flags, rows[i].payload)
  {
    MatchFinds(panel, p);
  }

  /** Rewriting a rewritten file with the same panel changes nothing. */
  lemma JoinIsIdempotent(rows: seq<Row>, panel: seq<PanelRow>)
    requires AllCovered(rows, panel)
    ensures AllCovered(Joined(rows, panel), panel) && Joined(Joined(rows, panel), panel) == Joined(rows, panel)
  {
    hide Match;
    forall i | 0 <= i < |rows|
      ensures Covered(Joined(rows, panel)[i], panel)
      ensures MatchOf(Joined(rows, panel)[i], panel) == MatchOf(rows[i], panel)
    {
      assert Covered(rows[i], panel);
    }
  }
}
