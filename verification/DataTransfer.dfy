/** The streamed import and export: filter and deduplicate batch by batch, publish only on success. */
module DataTransfer {
  import opened Options
  import opened Texts

  /** A row with its raw symbol, its parsed instant in nanoseconds and the value of one other column. */
  datatype Row = Row(symbol: Option<string>, stamp: Option<int>, payload: Option<int>)

  datatype ColumnType = Int64 | Float64 | Text

  /** The column types of a table. */
  datatype Schema = Schema(symbol: ColumnType, payload: ColumnType)

  /** One batch of the source, whether it has both required columns, and the schema of the rows it writes. */
  datatype Batch = Batch(hasColumns: bool, rows: seq<Row>, schema: seq<Row> -> Schema)

  datatype Format = Csv | Parquet

  datatype Filter = Filter(start: Option<int>, end: Option<int>, wanted: set<string>)

  datatype Operation = Import | Export

  /** The first two are errors raised while the batches are read; a Parquet file takes tables of one schema only. */
  datatype Outcome =
    MissingColumns | SchemaChanged | NothingMatched | Published(rowsRead: nat, rowsWritten: nat, duplicates: nat)

  const DAY := 86_400_000_000_000
  const MICROSECOND := 1_000

  function Symbol(r: Row): string {
    Strip(if r.symbol.None? then "" else r.symbol.value)
  }

  /** The identity used for deduplication: the stripped symbol and the instant cut to whole microseconds. */
  function Key(r: Row): (string, Option<int>) {
    (Symbol(r), if r.stamp.None? then None else Some(r.stamp.value / MICROSECOND))
  }

  predicate Wanted(r: Row, f: Filter) {
    && r.stamp.Some? && Symbol(r) != ""
    && (f.start.Some? ==> r.stamp.value >= f.start.value)
    && (f.end.Some? ==> r.stamp.value <= f.end.value + DAY - MICROSECOND)
    && (f.wanted != {} ==> Symbol(r) in f.wanted)
  }

  function Kept(rows: seq<Row>, f: Filter): (r: seq<Row>)
    ensures |r| <= |rows|
  {
    if rows == [] then []
    else
      var n := |rows| - 1;
      Kept(rows[..n], f) + if Wanted(rows[n], f) then [rows[n]] else []
  }

  function Keys(rows: seq<Row>): set<(string, Option<int>)> {
    set r | r in rows :: Key(r)
  }

  /** The rows whose key no earlier row has. */
  function FirstOccurrences(rows: seq<Row>): (r: seq<Row>)
    ensures |r| <= |rows|
  {
    if rows == [] then []
    else
      var n := |rows| - 1;
      FirstOccurrences(rows[..n]) + if Key(rows[n]) in Keys(rows[..n]) then [] else [rows[n]]
  }

  function Selected(operation: Operation, rows: seq<Row>, f: Filter): (r: seq<Row>)
    ensures |r| <= |Kept(rows, f)|
  {
    if operation == Import then FirstOccurrences(Kept(rows, f)) else Kept(rows, f)
  }

  function Stream(batches: seq<Batch>): seq<Row> {
    if batches == [] then [] else Stream(batches[..|batches| - 1]) + batches[|batches| - 1].rows
  }

  predicate Complete(batches: seq<Batch>) {
    forall i :: 0 <= i < |batches| ==> batches[i].hasColumns
  }

  lemma {:induction false} SelectedExtends(operation: Operation, a: seq<Row>, b: seq<Row>, f: Filter)
    ensures Selected(operation, a, f) <= Selected(operation, a + b, f)
  {
    hide Kept, FirstOccurrences;
    KeptAppend(a, b, f);
    OccurrencesExtend(Kept(a, f), Kept(b, f));
  }

  lemma {:induction false} OccurrencesExtend(a: seq<Row>, b: seq<Row>)
    ensures FirstOccurrences(a) <= FirstOccurrences(a + b)
  {
    hide Key, Keys, FirstOccurrences;
    if b == [] {
      assert a + b == a;
    } else {
      var n := |b| - 1;
      OccurrencesExtend(a, b[..n]);
      OccurrenceStep(a + b[..n], b[n]);
      assert a + b == (a + b[..n]) + [b[n]];
    }
  }

  /** The rows the last of the batches writes: those of its rows that are selected. */
  function LastFrame(operation: Operation, batches: seq<Batch>, f: Filter): seq<Row>
    requires batches != []
  {
    var n := |batches| - 1;
    SelectedExtends(operation, Stream(batches[..n]), batches[n].rows, f);
    Selected(operation, Stream(batches), f)[|Selected(operation, Stream(batches[..n]), f)|..]
  }

  function LastSchema(operation: Operation, batches: seq<Batch>, f: Filter): Schema
    requires batches != []
  {
    batches[|batches| - 1].schema(LastFrame(operation, batches, f))
  }

  /** The schema of the first batch that writes rows, with which a Parquet file is opened. */
  function OpenSchema(operation: Operation, batches: seq<Batch>, f: Filter): Option<Schema> {
    if batches == [] then None
    else
      var before := OpenSchema(operation, batches[..|batches| - 1], f);
      if before.Some? || LastFrame(operation, batches, f) == [] then before
      else Some(LastSchema(operation, batches, f))
  }

  /** The error of the first batch that lacks a column or, for a Parquet output, changes the schema. */
  function Fault(operation: Operation, format: Format, batches: seq<Batch>, f: Filter): (r: Option<Outcome>)
  {
    if batches == [] then None
    else
      var front := batches[..|batches| - 1];
      var before := Fault(operation, format, front, f);
      if before.Some? then before
      else if !batches[|batches| - 1].hasColumns then Some(MissingColumns)
      else if format == Parquet && Changes(operation, batches, f) then Some(SchemaChanged)
      else None
  }

  /** The last batch writes rows of another schema than the file was opened with. */
  predicate Changes(operation: Operation, batches: seq<Batch>, f: Filter)
    requires batches != []
  {
    var open := OpenSchema(operation, batches[..|batches| - 1], f);
    LastFrame(operation, batches, f) != [] && open.Some? && LastSchema(operation, batches, f) != open.value
  }

  /** What a run reports. */
  function Report(operation: Operation, format: Format, batches: seq<Batch>, f: Filter): Outcome {
    var kept := Kept(Stream(batches), f);
    var selected := Selected(operation, Stream(batches), f);
    var fault := Fault(operation, format, batches, f);
    if fault.Some? then fault.value
    else if selected == [] then NothingMatched
    else Published(|Stream(batches)|, |selected|, |kept| - |selected|)
  }

  // ----- the run

  /** One batch's filter. */
  method FilterBatch(rows: seq<Row>, f: Filter) returns (kept: seq<Row>)
    ensures kept == Kept(rows, f)
  {
    kept := [];
    var i := 0;
    while i < |rows|
      invariant 0 <= i <= |rows| && kept == Kept(rows[..i], f)
    {
      assert rows[..i + 1][..i] == rows[..i];
      if Wanted(rows[i], f) {
        kept := kept + [rows[i]];
      }
      i := i + 1;
    }
    assert rows[..i] == rows;
  }

  /** One batch's rows against the table of keys seen before it. */
  method DedupBatch(ghost earlier: seq<Row>, rows: seq<Row>, table: set<(string, Option<int>)>)
    returns (kept: seq<Row>, seen: set<(string, Option<int>)>, duplicates: nat)
    requires table == Keys(earlier)
    ensures FirstOccurrences(earlier + rows) == FirstOccurrences(earlier) + kept
    ensures seen == Keys(earlier + rows)
    ensures duplicates == |rows| - |kept|
  {
    hide FirstOccurrences, Keys, Key;
    kept, seen, duplicates := [], table, 0;
    var i := 0;
    assert earlier + rows[..0] == earlier;
    while i < |rows|
      invariant 0 <= i <= |rows| && seen == Keys(earlier + rows[..i])
      invariant FirstOccurrences(earlier + rows[..i]) == FirstOccurrences(earlier) + kept
      invariant duplicates == i - |kept|
    {
      NextOccurrence(earlier, rows, i);
      if Key(rows[i]) in seen {
        duplicates := duplicates + 1;
      } else {
        seen := seen + {Key(rows[i])};
        kept := kept + [rows[i]];
      }
      i := i + 1;
    }
    assert rows[..i] == rows;
  }

  lemma NextOccurrence(earlier: seq<Row>, rows: seq<Row>, i: nat)
    requires i < |rows|
    ensures FirstOccurrences(earlier + rows[..i + 1]) == FirstOccurrences(earlier + rows[..i])
      + if Key(rows[i]) in Keys(earlier + rows[..i]) then [] else [rows[i]]
    ensures Keys(earlier + rows[..i + 1]) == Keys(earlier + rows[..i]) + {Key(rows[i])}
  {
    var before, after := earlier + rows[..i], earlier + rows[..i + 1];
    assert after == before + [rows[i]];
    OccurrenceStep(before, rows[i]);
  }

  lemma OccurrenceStep(rows: seq<Row>, r: Row)
    ensures FirstOccurrences(rows + [r]) == FirstOccurrences(rows) + if Key(r) in Keys(rows) then [] else [r]
    ensures Keys(rows + [r]) == Keys(rows) + {Key(r)}
  {
    hide Key;
    assert (rows + [r])[..|rows|] == rows;
    assert forall x :: x in rows + [r] <==> x in rows || x == r;
    forall k
      ensures k in Keys(rows + [r]) <==> k in Keys(rows) || k == Key(r)
    {
      assert r in rows + [r];
    }
  }

  /** The published file and the hidden partial file next to it; None when a file is absent. */
  class Transfer {
    var output: Option<seq<Row>>
    var partial: Option<seq<Row>>

    constructor (output: Option<seq<Row>>, partial: Option<seq<Row>>)
      ensures this.output == output && this.partial == partial
    {
      this.output, this.partial := output, partial;
    }

    /**
     * Append a frame to the partial file, creating it if need be. A Parquet file is opened with the first frame's
     * schema and raises on any other.
     */
    method Write(format: Format, rows: seq<Row>, schema: Schema, writer: Option<Schema>)
      returns (open: Option<Schema>, raised: bool)
      modifies this`partial
      ensures raised <==> format == Parquet && writer.Some? && writer.value != schema
      ensures open == if format == Parquet && writer.None? then Some(schema) else writer
      ensures !raised ==> partial == Some((if old(partial).None? then [] else old(partial).value) + rows)
    {
      open := if format == Parquet && writer.None? then Some(schema) else writer;
      raised := format == Parquet && open.value != schema;
      if partial.None? {
        partial := Some([]);
      }
      if !raised {
        partial := Some(partial.value + rows);
      }
    }

    /** The batch loop; it stops at the first error. */
    method Fill(operation: Operation, format: Format, batches: seq<Batch>, f: Filter)
      returns (fault: Option<Outcome>, rowsRead: nat, rowsWritten: nat, duplicates: nat)
      requires partial == None
      modifies this`partial
      ensures fault == Fault(operation, format, batches, f)
      ensures fault.None? ==>
        (var selected := Selected(operation, Stream(batches), f);
         && partial == (if selected == [] then None else Some(selected))
         && rowsRead == |Stream(batches)| && rowsWritten == |selected|
         && duplicates == |Kept(Stream(batches), f)| - |selected|)
    {
      hide FirstOccurrences, Kept, Keys, Stream, Fault, OpenSchema, LastFrame, Selected;
      fault, rowsRead, rowsWritten, duplicates := None, 0, 0, 0;
      var seen: set<(string, Option<int>)> := {};
      var writer: Option<Schema> := None;
      var i := 0;
      NothingYet(operation, format, f);
      assert batches[..0] == [];
      while i < |batches|
        invariant 0 <= i <= |batches| && Fault(operation, format, batches[..i], f) == None
        invariant operation == Import ==> seen == Keys(Kept(Stream(batches[..i]), f))
        invariant format == Parquet ==> writer == OpenSchema(operation, batches[..i], f)
        invariant
          var done := Selected(operation, Stream(batches[..i]), f);
          partial == if done == [] then None else Some(done)
        invariant rowsRead == |Stream(batches[..i])| && rowsWritten == |Selected(operation, Stream(batches[..i]), f)|
        invariant duplicates == |Kept(Stream(batches[..i]), f)| - rowsWritten
      {
        rowsRead := rowsRead + |batches[i].rows|;
        FaultNext(operation, format, batches, i, f);
        if !batches[i].hasColumns {
          FaultStays(operation, format, batches, i + 1, f);
          return Some(MissingColumns), rowsRead, rowsWritten, duplicates;
        }
        StreamNext(batches, i, f);
        var frame, removed: nat;
        frame, seen, removed := SelectBatch(operation, batches[..i], batches[i].rows, f, seen);
        duplicates := duplicates + removed;
        ghost var done := Selected(operation, Stream(batches[..i]), f);
        assert done + [] == done && [] + frame == frame;
        if frame != [] {
          var raised;
          writer, raised := Write(format, frame, batches[i].schema(frame), writer);
          if raised {
            FaultStays(operation, format, batches, i + 1, f);
            return Some(SchemaChanged), rowsRead, rowsWritten, duplicates;
          }
        }
        rowsWritten := rowsWritten + |frame|;
        i := i + 1;
      }
      assert batches[..i] == batches;
    }

    /** A whole run: the output is replaced only on success, and the partial file is gone either way. */
    method Run(operation: Operation, format: Format, batches: seq<Batch>, f: Filter) returns (outcome: Outcome)
      modifies this
      ensures outcome == Report(operation, format, batches, f)
      ensures partial == None
      ensures output == if outcome.Published? then Some(Selected(operation, Stream(batches), f)) else old(output)
      ensures outcome.Published? ==>
        outcome.rowsRead == outcome.rowsWritten + outcome.duplicates + |Dropped(Stream(batches), f)|
    {
      hide FirstOccurrences, Kept, Keys, Stream, Dropped, Fault;
      partial := None;
      var fault, rowsRead, rowsWritten, duplicates := Fill(operation, format, batches, f);
      FaultIsError(operation, format, batches, f);
      if fault.Some? {
        outcome := fault.value;
      } else if rowsWritten == 0 || partial.None? {
        outcome := NothingMatched;
      } else {
        DroppedCount(Stream(batches), f);
        output := partial;
        outcome := Published(rowsRead, rowsWritten, duplicates);
      }
      partial := None;
    }
  }

  /** One batch: its filter, and for an import the table of keys. */
  method SelectBatch(
      operation: Operation, ghost before: seq<Batch>, rows: seq<Row>, f: Filter, table: set<(string, Option<int>)>)
    returns (frame: seq<Row>, seen: set<(string, Option<int>)>, duplicates: nat)
    requires operation == Import ==> table == Keys(Kept(Stream(before), f))
    ensures Selected(operation, Stream(before) + rows, f) == Selected(operation, Stream(before), f) + frame
    ensures operation == Import ==> seen == Keys(Kept(Stream(before) + rows, f))
    ensures duplicates == |Kept(rows, f)| - |frame|
  {
    hide FirstOccurrences, Kept, Keys, Stream;
    frame := FilterBatch(rows, f);
    seen, duplicates := table, 0;
    KeptAppend(Stream(before), rows, f);
    if operation == Import {
      frame, seen, duplicates := DedupBatch(Kept(Stream(before), f), frame, seen);
    }
  }

  /** The next batch's part in the fault, in the schema and in what is written. */
  lemma FaultNext(operation: Operation, format: Format, batches: seq<Batch>, i: nat, f: Filter)
    requires i < |batches|
    ensures
      var next := batches[..i + 1];
      var before, after := Selected(operation, Stream(batches[..i]), f), Selected(operation, Stream(next), f);
      && before <= after
      && LastFrame(operation, next, f) == after[|before|..]
      && LastSchema(operation, next, f) == batches[i].schema(LastFrame(operation, next, f))
      && OpenSchema(operation, next, f) ==
        (var open := OpenSchema(operation, batches[..i], f);
         if open.Some? || LastFrame(operation, next, f) == [] then open else Some(LastSchema(operation, next, f)))
      && (Changes(operation, next, f) <==>
        (var open := OpenSchema(operation, batches[..i], f);
         LastFrame(operation, next, f) != [] && open.Some? && LastSchema(operation, next, f) != open.value))
      && Fault(operation, format, next, f) ==
        (var before := Fault(operation, format, batches[..i], f);
         if before.Some? then before
         else if !batches[i].hasColumns then Some(MissingColumns)
         else if format == Parquet && Changes(operation, next, f) then Some(SchemaChanged)
         else None)
  {
    hide Selected, Stream;
    var next := batches[..i + 1];
    assert next[..i] == batches[..i] && next[i] == batches[i];
    SelectedExtends(operation, Stream(batches[..i]), batches[i].rows, f);
    StreamNext(batches, i, f);
  }

  lemma {:induction false} FaultStays(operation: Operation, format: Format, batches: seq<Batch>, i: nat, f: Filter)
    requires i <= |batches| && Fault(operation, format, batches[..i], f).Some?
    ensures Fault(operation, format, batches, f) == Fault(operation, format, batches[..i], f)
    decreases |batches|
  {
    if i == |batches| {
      assert batches[..i] == batches;
    } else {
      var front := batches[..|batches| - 1];
      assert front[..i] == batches[..i];
      FaultStays(operation, format, front, i, f);
    }
  }

  lemma {:induction false} FaultIsError(operation: Operation, format: Format, batches: seq<Batch>, f: Filter)
    ensures
      var r := Fault(operation, format, batches, f);
      r.Some? ==> r.value.MissingColumns? || r.value.SchemaChanged?
  {
    if batches != [] {
      FaultIsError(operation, format, batches[..|batches| - 1], f);
    }
  }

  lemma NothingYet(operation: Operation, format: Format, f: Filter)
    ensures Stream([]) == [] && Kept([], f) == [] && Selected(operation, [], f) == [] && Keys([]) == {}
    ensures OpenSchema(operation, [], f) == None && Fault(operation, format, [], f) == None
  {
  }

  /** The filter keeps exactly the wanted rows. */
  lemma {:induction false} KeptMembers(rows: seq<Row>, f: Filter, r: Row)
    ensures r in Kept(rows, f) <==> r in rows && Wanted(r, f)
  {
    hide Wanted;
    if rows != [] {
      var n := |rows| - 1;
      assert rows == rows[..n] + [rows[n]];
      KeptMembers(rows[..n], f, r);
    }
  }

  /**
   * What is wanted, in nanoseconds: a dated row with a symbol, from the first instant of the start up to the last
   * microsecond of the end day, and of a wanted symbol if any are listed.
   */
  lemma WantedMeans(rows: seq<Row>, f: Filter, r: Row)
    ensures r in Kept(rows, f) <==>
      && r in rows && r.stamp.Some? && Symbol(r) != ""
      && (f.start.None? || f.start.value <= r.stamp.value)
      && (f.end.None? || r.stamp.value - f.end.value <= 86_399_999_999_000)
      && (f.wanted == {} || Symbol(r) in f.wanted)
  {
    KeptMembers(rows, f, r);
  }

  /** Two dated rows count as the same when their stripped symbols agree and their instants fall in one microsecond. */
  lemma SameKeyIff(a: Row, b: Row)
    requires a.stamp.Some? && b.stamp.Some?
    ensures Key(a) == Key(b) <==>
      Symbol(a) == Symbol(b) &&
      exists m :: Within(a.stamp.value, m) && Within(b.stamp.value, m)
  {
    var m := a.stamp.value / 1_000;
    assert Within(a.stamp.value, m);
    if Key(a) == Key(b) {
      assert Within(b.stamp.value, m);
    }
  }

  /** The instant lies in the m-th microsecond. */
  predicate Within(stamp: int, m: int) {
    1_000 * m <= stamp < 1_000 * m + 1_000
  }

  lemma {:induction false} KeptAppend(a: seq<Row>, b: seq<Row>, f: Filter)
    ensures Kept(a + b, f) == Kept(a, f) + Kept(b, f)
  {
    hide Wanted;
    if b == [] {
      assert a + b == a;
    } else {
      var n := |b| - 1;
      KeptAppend(a, b[..n], f);
      KeptStep(a + b[..n], b[n], f);
      assert a + b == (a + b[..n]) + [b[n]];
    }
  }

  lemma KeptStep(rows: seq<Row>, r: Row, f: Filter)
    ensures Kept(rows + [r], f) == Kept(rows, f) + if Wanted(r, f) then [r] else []
  {
    hide Wanted;
    assert (rows + [r])[..|rows|] == rows;
  }

  lemma StreamNext(batches: seq<Batch>, i: nat, f: Filter)
    requires i < |batches|
    ensures Stream(batches[..i + 1]) == Stream(batches[..i]) + batches[i].rows
    ensures Kept(Stream(batches[..i + 1]), f) == Kept(Stream(batches[..i]), f) + Kept(batches[i].rows, f)
  {
    hide Kept;
    assert batches[..i + 1][..i] == batches[..i];
    KeptAppend(Stream(batches[..i]), batches[i].rows, f);
  }

  /** The rows the filter turns away. */
  function Dropped(rows: seq<Row>, f: Filter): seq<Row> {
    if rows == [] then []
    else
      var n := |rows| - 1;
      Dropped(rows[..n], f) + if Wanted(rows[n], f) then [] else [rows[n]]
  }

  lemma {:induction false} DroppedCount(rows: seq<Row>, f: Filter)
    ensures |rows| == |Kept(rows, f)| + |Dropped(rows, f)|
  {
    hide Wanted;
    if rows != [] {
      DroppedCount(rows[..|rows| - 1], f);
    }
  }

  // ----- deduplication

  /** The key of row i does not occur before i. */
  ghost predicate FirstAt(rows: seq<Row>, i: nat)
    requires i < |rows|
  {
    forall j :: 0 <= j < i ==> Key(rows[j]) != Key(rows[i])
  }

  /**
   * The reference reading: the result lists, in order, exactly the rows that come first with their key. The witness is
   * the increasing list of their positions.
   */
  lemma {:induction false} FirstOccurrencesPositions(rows: seq<Row>) returns (at: seq<nat>)
    ensures |at| == |FirstOccurrences(rows)|
    ensures forall k :: 0 <= k < |at| ==> at[k] < |rows| && FirstOccurrences(rows)[k] == rows[at[k]]
    ensures forall k, l :: 0 <= k < l < |at| ==> at[k] < at[l]
    ensures forall i :: 0 <= i < |rows| ==> (FirstAt(rows, i) <==> i in at)
  {
    hide Key, FirstAt, FirstOccurrences, Keys;
    if rows == [] {
      NoOccurrences();
      at := [];
    } else {
      var n := |rows| - 1;
      var front := rows[..n];
      var before := FirstOccurrencesPositions(front);
      forall i | 0 <= i < n
        ensures FirstAt(rows, i) <==> FirstAt(front, i)
      {
        FirstAtFront(rows, i);
      }
      LastIsFirst(rows);
      OccurrenceStep(front, rows[n]);
      assert rows == front + [rows[n]];
      at := if FirstAt(rows, n) then before + [n] else before;
    }
  }

  lemma FirstAtFront(rows: seq<Row>, i: nat)
    requires i < |rows| - 1
    ensures FirstAt(rows, i) <==> FirstAt(rows[..|rows| - 1], i)
  {
    hide Key;
    assert forall j :: 0 <= j <= i ==> rows[j] == rows[..|rows| - 1][j];
  }

  lemma LastIsFirst(rows: seq<Row>)
    requires rows != []
    ensures FirstAt(rows, |rows| - 1) <==> Key(rows[|rows| - 1]) !in Keys(rows[..|rows| - 1])
  {
    hide Key;
    var n := |rows| - 1;
    var front := rows[..n];
    if Key(rows[n]) in Keys(front) {
      var r :| r in front && Key(r) == Key(rows[n]);
      var j :| 0 <= j < n && front[j] == r;
      assert Key(rows[j]) == Key(rows[n]);
    } else {
      forall j | 0 <= j < n
        ensures Key(rows[j]) != Key(rows[n])
      {
        assert front[j] in front;
      }
    }
  }

  predicate DistinctKeys(rows: seq<Row>) {
    forall i, j :: 0 <= i < j < |rows| ==> Key(rows[i]) != Key(rows[j])
  }

  /** No two selected rows share a key, and no key is lost. */
  lemma {:induction false} FirstOccurrencesKeys(rows: seq<Row>)
    ensures DistinctKeys(FirstOccurrences(rows))
    ensures Keys(FirstOccurrences(rows)) == Keys(rows)
  {
    hide Key, Keys, FirstOccurrences, DistinctKeys;
    if rows == [] {
      NoOccurrences();
    } else {
      var n := |rows| - 1;
      FirstOccurrencesKeys(rows[..n]);
      assert rows == rows[..n] + [rows[n]];
      OccurrenceStep(rows[..n], rows[n]);
      var first := FirstOccurrences(rows[..n]);
      if Key(rows[n]) !in Keys(rows[..n]) {
        OccurrenceStep(first, rows[n]);
        AppendDistinct(first, rows[n]);
      } else {
        assert first + [] == first;
      }
    }
  }

  lemma NoOccurrences()
    ensures FirstOccurrences([]) == [] && DistinctKeys([])
  {
  }

  lemma AppendDistinct(rows: seq<Row>, r: Row)
    requires DistinctKeys(rows) && Key(r) !in Keys(rows)
    ensures DistinctKeys(rows + [r])
  {
    hide Key, Keys;
    forall i | 0 <= i < |rows|
      ensures Key(rows[i]) != Key(r)
    {
      KeyOf(rows, i);
    }
  }

  lemma {:induction false} FirstOccurrencesMembers(rows: seq<Row>, r: Row)
    requires r in FirstOccurrences(rows)
    ensures r in rows
  {
    hide Key, Keys;
    var n := |rows| - 1;
    if r in FirstOccurrences(rows[..n]) {
      FirstOccurrencesMembers(rows[..n], r);
    }
  }

  lemma KeyOf(rows: seq<Row>, i: nat)
    requires i < |rows|
    ensures Key(rows[i]) in Keys(rows)
  {
    assert rows[i] in rows;
  }

  lemma {:induction false} DistinctStay(rows: seq<Row>)
    requires DistinctKeys(rows)
    ensures FirstOccurrences(rows) == rows
  {
    hide Key, Keys;
    if rows != [] {
      var n := |rows| - 1;
      DistinctStay(rows[..n]);
      LastIsFirst(rows);
      assert rows == rows[..n] + [rows[n]];
    }
  }

  lemma {:induction false} WantedStay(rows: seq<Row>, f: Filter)
    requires forall r :: r in rows ==> Wanted(r, f)
    ensures Kept(rows, f) == rows
  {
    hide Wanted;
    if rows != [] {
      var n := |rows| - 1;
      assert rows == rows[..n] + [rows[n]];
      WantedStay(rows[..n], f);
    }
  }

  /** Importing a published import again, under the same filter, selects every row of it. */
  lemma ReimportIsIdentity(rows: seq<Row>, f: Filter)
    ensures Selected(Import, Selected(Import, rows, f), f) == Selected(Import, rows, f)
  {
    hide Wanted, FirstOccurrences, DistinctKeys;
    var kept := Kept(rows, f);
    FirstOccurrencesKeys(kept);
    forall r | r in FirstOccurrences(kept)
      ensures Wanted(r, f)
    {
      FirstOccurrencesMembers(kept, r);
      KeptMembers(rows, f, r);
    }
    WantedStay(FirstOccurrences(kept), f);
    DistinctStay(FirstOccurrences(kept));
  }

  // ----- when a run raises

  /** Batch i writes rows. */
  predicate Writes(operation: Operation, batches: seq<Batch>, f: Filter, i: nat)
    requires i < |batches|
  {
    LastFrame(operation, batches[..i + 1], f) != []
  }

  function SchemaAt(operation: Operation, batches: seq<Batch>, f: Filter, i: nat): Schema
    requires i < |batches|
  {
    LastSchema(operation, batches[..i + 1], f)
  }

  /** All the batches that write rows write them with one schema. */
  ghost predicate OneSchema(operation: Operation, batches: seq<Batch>, f: Filter) {
    forall i, j :: 0 <= i < j < |batches| && Writes(operation, batches, f, i) && Writes(operation, batches, f, j) ==>
      SchemaAt(operation, batches, f, i) == SchemaAt(operation, batches, f, j)
  }

  lemma FrontAlike(operation: Operation, batches: seq<Batch>, f: Filter, i: nat)
    requires i < |batches| - 1
    ensures
      var front := batches[..|batches| - 1];
      && (Writes(operation, batches, f, i) <==> Writes(operation, front, f, i))
      && SchemaAt(operation, batches, f, i) == SchemaAt(operation, front, f, i)
  {
    assert batches[..|batches| - 1][..i + 1] == batches[..i + 1];
  }

  lemma LastAlike(operation: Operation, batches: seq<Batch>, f: Filter)
    requires batches != []
    ensures
      var n := |batches| - 1;
      && (Writes(operation, batches, f, n) <==> LastFrame(operation, batches, f) != [])
      && SchemaAt(operation, batches, f, n) == LastSchema(operation, batches, f)
  {
    assert batches[..|batches| - 1 + 1] == batches;
  }

  /** The file is opened as soon as a batch writes, with a schema that some batch writes. */
  lemma {:induction false} OpenSchemaIsWritten(operation: Operation, batches: seq<Batch>, f: Filter)
    ensures OpenSchema(operation, batches, f).None? ==>
      forall i :: 0 <= i < |batches| ==> !Writes(operation, batches, f, i)
    ensures OpenSchema(operation, batches, f).Some? ==>
      exists i :: 0 <= i < |batches| && Writes(operation, batches, f, i) &&
        SchemaAt(operation, batches, f, i) == OpenSchema(operation, batches, f).value
  {
    hide Writes, SchemaAt, LastFrame, LastSchema;
    if batches != [] {
      var n := |batches| - 1;
      OpenSchemaIsWritten(operation, batches[..n], f);
      LastAlike(operation, batches, f);
      forall i: nat | i < n
        ensures Writes(operation, batches, f, i) <==> Writes(operation, batches[..n], f, i)
        ensures SchemaAt(operation, batches, f, i) == SchemaAt(operation, batches[..n], f, i)
      {
        FrontAlike(operation, batches, f, i);
      }
      var before := OpenSchema(operation, batches[..n], f);
      if before.Some? {
        var i :| 0 <= i < n && Writes(operation, batches[..n], f, i)
          && SchemaAt(operation, batches[..n], f, i) == before.value;
        assert Writes(operation, batches, f, i) && SchemaAt(operation, batches, f, i) == before.value;
      } else if LastFrame(operation, batches, f) != [] {
        assert Writes(operation, batches, f, n);
      }
    }
  }

  /** A run reads all its batches if and only if none lacks a column and, for Parquet, one schema is written. */
  lemma {:induction false} FaultFreeIff(operation: Operation, format: Format, batches: seq<Batch>, f: Filter)
    ensures Fault(operation, format, batches, f).None?
       <==> Complete(batches) && (format == Parquet ==> OneSchema(operation, batches, f))
  {
    hide Writes, SchemaAt, LastFrame, LastSchema, OpenSchema, Complete, OneSchema;
    if batches == [] {
      NoBatches(operation, f);
    } else {
      var n := |batches| - 1;
      FaultFreeIff(operation, format, batches[..n], f);
      CompleteSplit(batches);
      if OneSchema(operation, batches[..n], f) {
        OneSchemaSplit(operation, batches, f);
      } else if OneSchema(operation, batches, f) {
        OneSchemaFront(operation, batches, f);
      }
    }
  }

  lemma NoBatches(operation: Operation, f: Filter)
    ensures Complete([]) && OneSchema(operation, [], f)
  {
  }

  lemma CompleteSplit(batches: seq<Batch>)
    requires batches != []
    ensures Complete(batches) <==> Complete(batches[..|batches| - 1]) && batches[|batches| - 1].hasColumns
  {
    var n := |batches| - 1;
    assert forall i :: 0 <= i < n ==> batches[i] == batches[..n][i];
  }

  lemma OneSchemaFront(operation: Operation, batches: seq<Batch>, f: Filter)
    requires batches != [] && OneSchema(operation, batches, f)
    ensures OneSchema(operation, batches[..|batches| - 1], f)
  {
    hide Writes, SchemaAt;
    var front := batches[..|batches| - 1];
    forall i, j | 0 <= i < j < |front| && Writes(operation, front, f, i) && Writes(operation, front, f, j)
      ensures SchemaAt(operation, front, f, i) == SchemaAt(operation, front, f, j)
    {
      FrontAlike(operation, batches, f, i);
      FrontAlike(operation, batches, f, j);
    }
  }

  lemma OneSchemaSplit(operation: Operation, batches: seq<Batch>, f: Filter)
    requires batches != [] && OneSchema(operation, batches[..|batches| - 1], f)
    ensures OneSchema(operation, batches, f) <==> !Changes(operation, batches, f)
  {
    hide Writes, SchemaAt, LastFrame, LastSchema, OpenSchema;
    var n := |batches| - 1;
    var front := batches[..n];
    LastAlike(operation, batches, f);
    OpenSchemaIsWritten(operation, front, f);
    forall i: nat | i < n
      ensures Writes(operation, batches, f, i) <==> Writes(operation, front, f, i)
      ensures SchemaAt(operation, batches, f, i) == SchemaAt(operation, front, f, i)
    {
      FrontAlike(operation, batches, f, i);
    }
    var open := OpenSchema(operation, front, f);
    if open.Some? {
      var k :| 0 <= k < n && Writes(operation, front, f, k) && SchemaAt(operation, front, f, k) == open.value;
      forall i | 0 <= i < n && Writes(operation, front, f, i)
        ensures SchemaAt(operation, front, f, i) == open.value
      {
        assert i < k || k < i || i == k;
      }
      assert Writes(operation, batches, f, k) && SchemaAt(operation, batches, f, k) == open.value;
    }
  }

  // ----- when the batch size does not matter

  /** A row as the file holds it; an empty cell is None. */
  datatype Raw = Raw(symbol: Option<string>, date: string, payload: Option<int>)

  /** How one batch is read: column types and date formats may be inferred from the whole batch. */
  datatype Parser = Parser(rows: seq<Raw> -> seq<Row>, schema: seq<Raw> -> seq<Row> -> Schema)

  ghost predicate KeepsLength(parse: Parser) {
    forall x :: |parse.rows(x)| == |x|
  }

  function Parsed(parse: Parser, raws: seq<Raw>): Batch {
    Batch(true, parse.rows(raws), parse.schema(raws))
  }

  /** A file read in batches of the given size, each batch parsed on its own. */
  function Batches(raws: seq<Raw>, size: nat, parse: Parser): seq<Batch>
    requires size >= 1
    decreases |raws|
  {
    if raws == [] then []
    else if |raws| <= size then [Parsed(parse, raws)]
    else [Parsed(parse, raws[..size])] + Batches(raws[size..], size, parse)
  }

  /** The filter without bounds: a row with an instant and a symbol. */
  const EVERY := Filter(None, None, {})

  lemma StreamAppend(batches: seq<Batch>, last: Batch)
    ensures Stream(batches + [last]) == Stream(batches) + last.rows
  {
    assert (batches + [last])[..|batches|] == batches;
  }

  lemma {:induction false} StreamFront(b: Batch, rest: seq<Batch>)
    ensures Stream([b] + rest) == b.rows + Stream(rest)
  {
    StreamAppend([], b);
    assert Stream([]) == [] && [] + [b] == [b] && [b] + [] == [b];
    hide Stream;
    if rest != [] {
      var n := |rest| - 1;
      StreamFront(b, rest[..n]);
      StreamAppend([b] + rest[..n], rest[n]);
      StreamAppend(rest[..n], rest[n]);
      assert rest == rest[..n] + [rest[n]];
      assert [b] + rest == ([b] + rest[..n]) + [rest[n]];
    }
  }

  lemma {:induction false} BatchesAreComplete(raws: seq<Raw>, size: nat, parse: Parser)
    requires size >= 1
    ensures Complete(Batches(raws, size, parse))
    decreases |raws|
  {
    if |raws| > size {
      BatchesAreComplete(raws[size..], size, parse);
    }
  }

  /** A file of one batch, and the first batch of a longer one. */
  lemma BatchesUnfold(raws: seq<Raw>, size: nat, parse: Parser)
    requires size >= 1 && KeepsLength(parse)
    ensures |raws| <= size ==> Stream(Batches(raws, size, parse)) == parse.rows(raws)
    ensures |raws| > size ==>
      Stream(Batches(raws, size, parse)) == parse.rows(raws[..size]) + Stream(Batches(raws[size..], size, parse))
  {
    if raws == [] {
      assert parse.rows(raws) == [];
    } else if |raws| <= size {
      StreamFront(Parsed(parse, raws), []);
      assert [Parsed(parse, raws)] + [] == [Parsed(parse, raws)];
    } else {
      StreamFront(Parsed(parse, raws[..size]), Batches(raws[size..], size, parse));
    }
  }

  lemma {:induction false} StreamLength(raws: seq<Raw>, size: nat, parse: Parser)
    requires size >= 1 && KeepsLength(parse)
    ensures |Stream(Batches(raws, size, parse))| == |raws|
    decreases |raws|
  {
    hide Batches, Stream;
    BatchesUnfold(raws, size, parse);
    if |raws| > size {
      StreamLength(raws[size..], size, parse);
    }
  }

  /** Parsing two parts apart or together gives the same dated rows with a symbol. */
  ghost predicate SplitsAlike(parse: Parser, a: seq<Raw>, b: seq<Raw>) {
    Kept(parse.rows(a + b), EVERY) == Kept(parse.rows(a) + parse.rows(b), EVERY)
  }

  ghost predicate ParsesAlike(parse: Parser) {
    forall a, b :: SplitsAlike(parse, a, b)
  }

  /** One run reports and selects the same with two batch sizes. */
  ghost predicate SameRun(
      parse: Parser, operation: Operation, format: Format, raws: seq<Raw>, f: Filter, size: nat, other: nat)
    requires size >= 1 && other >= 1
  {
    var mine, theirs := Batches(raws, size, parse), Batches(raws, other, parse);
    && Report(operation, format, mine, f) == Report(operation, format, theirs, f)
    && Selected(operation, Stream(mine), f) == Selected(operation, Stream(theirs), f)
  }

  ghost predicate BatchSizeIsIrrelevant(parse: Parser, format: Format) {
    forall operation, raws, f, size: nat, other: nat :: size >= 1 && other >= 1 ==>
      SameRun(parse, operation, format, raws, f, size, other)
  }

  /** At this batch size the run writes one schema. */
  ghost predicate WritesOneSchema(parse: Parser, operation: Operation, raws: seq<Raw>, f: Filter, size: nat)
    requires size >= 1
  {
    OneSchema(operation, Batches(raws, size, parse), f)
  }

  ghost predicate AlwaysOneSchema(parse: Parser) {
    forall operation, raws, f, size: nat :: size >= 1 ==> WritesOneSchema(parse, operation, raws, f, size)
  }

  /** Any filter sees only what the filter without bounds leaves. */
  lemma {:induction false} KeptOfEvery(rows: seq<Row>, f: Filter)
    ensures Kept(Kept(rows, EVERY), f) == Kept(rows, f)
  {
    if rows != [] {
      var n := |rows| - 1;
      KeptOfEvery(rows[..n], f);
      KeptStep(Kept(rows[..n], EVERY), rows[n], f);
      assert Kept(rows[..n], EVERY) + [] == Kept(rows[..n], EVERY);
    }
  }

  /** If parts parse alike, every batch size keeps what parsing the whole file at once keeps. */
  lemma {:induction false} StreamKeepsWhole(raws: seq<Raw>, size: nat, parse: Parser)
    requires size >= 1 && KeepsLength(parse) && ParsesAlike(parse)
    ensures Kept(Stream(Batches(raws, size, parse)), EVERY) == Kept(parse.rows(raws), EVERY)
    decreases |raws|
  {
    hide Batches, Stream, Kept;
    BatchesUnfold(raws, size, parse);
    if |raws| > size {
      var a, b := raws[..size], raws[size..];
      assert raws == a + b;
      StreamKeepsWhole(b, size, parse);
      KeptAppend(parse.rows(a), Stream(Batches(b, size, parse)), EVERY);
      KeptAppend(parse.rows(a), parse.rows(b), EVERY);
      assert SplitsAlike(parse, a, b);
    }
  }

  /** If no run depends on the batch size, parsing whole is parsing row by row, as far as the filter can see. */
  lemma WholeIsRowByRow(raws: seq<Raw>, parse: Parser, format: Format)
    requires KeepsLength(parse) && BatchSizeIsIrrelevant(parse, format)
    ensures Kept(parse.rows(raws), EVERY) == Kept(Stream(Batches(raws, 1, parse)), EVERY)
  {
    hide Batches, Stream, Kept;
    var size := if |raws| > 1 then |raws| else 1;
    BatchesUnfold(raws, size, parse);
    assert SameRun(parse, Export, format, raws, EVERY, size, 1);
  }

  lemma {:induction false} RowByRowAppend(a: seq<Raw>, b: seq<Raw>, parse: Parser)
    requires KeepsLength(parse)
    ensures Stream(Batches(a + b, 1, parse)) == Stream(Batches(a, 1, parse)) + Stream(Batches(b, 1, parse))
    decreases |a|
  {
    hide Batches, Stream;
    BatchesUnfold(a, 1, parse);
    BatchesUnfold(a + b, 1, parse);
    BatchesUnfold(b, 1, parse);
    if |a| == 0 {
      assert a + b == b && parse.rows(a) == [];
      assert [] + Stream(Batches(b, 1, parse)) == Stream(Batches(b, 1, parse));
    } else {
      assert (a + b)[..1] == a[..1] && (a + b)[1..] == a[1..] + b;
      RowByRowAppend(a[1..], b, parse);
      BatchesUnfold(a[1..], 1, parse);
      if |a| == 1 {
        assert a[..1] == a && parse.rows(a[1..]) == [];
        if |b| == 0 {
          assert a + b == a;
        }
      }
    }
  }

  lemma IrrelevantParsesAlike(parse: Parser, format: Format)
    requires KeepsLength(parse) && BatchSizeIsIrrelevant(parse, format)
    ensures ParsesAlike(parse)
  {
    hide Batches, Stream, Kept, KeepsLength, SameRun;
    forall a, b
      ensures SplitsAlike(parse, a, b)
    {
      WholeIsRowByRow(a, parse, format);
      WholeIsRowByRow(b, parse, format);
      WholeIsRowByRow(a + b, parse, format);
      RowByRowAppend(a, b, parse);
      KeptAppend(parse.rows(a), parse.rows(b), EVERY);
      KeptAppend(Stream(Batches(a, 1, parse)), Stream(Batches(b, 1, parse)), EVERY);
    }
  }

  /** A file read as one batch writes one schema. */
  lemma OneBatchOneSchema(parse: Parser, operation: Operation, raws: seq<Raw>, f: Filter, size: nat)
    requires size >= 1 && size >= |raws|
    ensures WritesOneSchema(parse, operation, raws, f, size)
  {
    assert |Batches(raws, size, parse)| <= 1;
  }

  /** So a run whose report does not depend on the batch size writes one schema at every size. */
  lemma SameRunOneSchema(parse: Parser, operation: Operation, raws: seq<Raw>, f: Filter, size: nat, whole: nat)
    requires size >= 1 && whole >= 1 && whole >= |raws|
    requires SameRun(parse, operation, Parquet, raws, f, size, whole)
    ensures WritesOneSchema(parse, operation, raws, f, size)
  {
    hide Batches, Stream, Selected, Kept, OneSchema, Fault;
    OneBatchOneSchema(parse, operation, raws, f, whole);
    BatchesAreComplete(raws, size, parse);
    BatchesAreComplete(raws, whole, parse);
    FaultFreeIff(operation, Parquet, Batches(raws, size, parse), f);
    FaultFreeIff(operation, Parquet, Batches(raws, whole, parse), f);
    FaultIsError(operation, Parquet, Batches(raws, size, parse), f);
  }

  /**
   * Every run is independent of the batch size if and only if parsing two parts apart or together always gives the
   * same dated rows with a symbol and, for a Parquet output, no batch size makes a run write a second schema.
   */
  lemma BatchSizeIsIrrelevantIff(parse: Parser, format: Format)
    requires KeepsLength(parse)
    ensures BatchSizeIsIrrelevant(parse, format)
       <==> ParsesAlike(parse) && (format == Parquet ==> AlwaysOneSchema(parse))
  {
    hide Batches, Stream, Kept, KeepsLength, SameRun, ParsesAlike, WritesOneSchema;
    if ParsesAlike(parse) && (format == Parquet ==> AlwaysOneSchema(parse)) {
      forall operation, raws, f, size: nat, other: nat | size >= 1 && other >= 1
        ensures SameRun(parse, operation, format, raws, f, size, other)
      {
        AlikeGivesSameRun(parse, operation, format, raws, f, size, other);
      }
    }
    if BatchSizeIsIrrelevant(parse, format) {
      IrrelevantParsesAlike(parse, format);
      if format == Parquet {
        forall operation, raws, f, size: nat | size >= 1
          ensures WritesOneSchema(parse, operation, raws, f, size)
        {
          var whole := if |raws| > 1 then |raws| else 1;
          SameRunOneSchema(parse, operation, raws, f, size, whole);
        }
      }
    }
  }

  lemma AlikeGivesSameRun(
      parse: Parser, operation: Operation, format: Format, raws: seq<Raw>, f: Filter, size: nat, other: nat)
    requires KeepsLength(parse) && ParsesAlike(parse) && size >= 1 && other >= 1
    requires format == Parquet ==>
      WritesOneSchema(parse, operation, raws, f, size) && WritesOneSchema(parse, operation, raws, f, other)
    ensures SameRun(parse, operation, format, raws, f, size, other)
  {
    hide Batches, Stream, Kept, FirstOccurrences, Complete, ParsesAlike, OneSchema, Fault;
    var mine, theirs := Stream(Batches(raws, size, parse)), Stream(Batches(raws, other, parse));
    StreamKeepsWhole(raws, size, parse);
    StreamKeepsWhole(raws, other, parse);
    KeptOfEvery(mine, f);
    KeptOfEvery(theirs, f);
    StreamLength(raws, size, parse);
    StreamLength(raws, other, parse);
    BatchesAreComplete(raws, size, parse);
    BatchesAreComplete(raws, other, parse);
    FaultFreeIff(operation, format, Batches(raws, size, parse), f);
    FaultFreeIff(operation, format, Batches(raws, other, parse), f);
  }

  // ----- an export, batch by batch

  /** Two parts of a file, the second no longer than the first, from which the filter leaves rows of two schemas. */
  ghost predicate ChangesSchema(parse: Parser, f: Filter, a: seq<Raw>, b: seq<Raw>) {
    var x, y := Kept(parse.rows(a), f), Kept(parse.rows(b), f);
    |b| <= |a| && x != [] && y != [] && parse.schema(a)(x) != parse.schema(b)(y)
  }

  lemma ExportFrame(batches: seq<Batch>, f: Filter, i: nat)
    requires i < |batches|
    ensures LastFrame(Export, batches[..i + 1], f) == Kept(batches[i].rows, f)
    ensures SchemaAt(Export, batches, f, i) == batches[i].schema(Kept(batches[i].rows, f))
  {
    hide Kept, Stream;
    assert batches[..i + 1][..i] == batches[..i] && batches[..i + 1][i] == batches[i];
    StreamNext(batches, i, f);
  }

  /** Every batch is some part of the file parsed on its own; all but the last have the full size. */
  lemma {:induction false} BatchIsPart(raws: seq<Raw>, size: nat, parse: Parser, i: nat) returns (part: seq<Raw>)
    requires size >= 1 && i < |Batches(raws, size, parse)|
    ensures Batches(raws, size, parse)[i] == Parsed(parse, part)
    ensures |part| <= size && (i < |Batches(raws, size, parse)| - 1 ==> |part| == size)
    decreases |raws|
  {
    hide Parsed;
    if |raws| <= size {
      part := raws;
    } else if i == 0 {
      part := raws[..size];
    } else {
      part := BatchIsPart(raws[size..], size, parse, i - 1);
    }
  }

  lemma TwoParts(parse: Parser, a: seq<Raw>, b: seq<Raw>)
    requires 0 < |b| <= |a|
    ensures Batches(a + b, |a|, parse) == [Parsed(parse, a), Parsed(parse, b)]
  {
    hide Parsed;
    assert (a + b)[..|a|] == a && (a + b)[|a|..] == b;
    assert Batches(b, |a|, parse) == [Parsed(parse, b)];
  }

  /** No export raises at any batch size if and only if no two such parts exist. */
  lemma ExportsWriteOneSchemaIff(parse: Parser, f: Filter)
    requires KeepsLength(parse)
    ensures (forall raws, size: nat :: size >= 1 ==> WritesOneSchema(parse, Export, raws, f, size))
       <==> (forall a, b :: !ChangesSchema(parse, f, a, b))
  {
    hide WritesOneSchema, ChangesSchema, KeepsLength;
    if forall a, b :: !ChangesSchema(parse, f, a, b) {
      forall raws, size: nat | size >= 1
        ensures WritesOneSchema(parse, Export, raws, f, size)
      {
        PartsWriteOneSchema(parse, f, raws, size);
      }
    }
    if a, b :| ChangesSchema(parse, f, a, b) {
      TwoPartsChange(parse, f, a, b);
      assert !WritesOneSchema(parse, Export, a + b, f, |a|);
    }
  }

  lemma PartsWriteOneSchema(parse: Parser, f: Filter, raws: seq<Raw>, size: nat)
    requires size >= 1 && forall a, b :: !ChangesSchema(parse, f, a, b)
    ensures WritesOneSchema(parse, Export, raws, f, size)
  {
    hide Batches, Kept, LastFrame, SchemaAt;
    var batches := Batches(raws, size, parse);
    forall i, j | 0 <= i < j < |batches| && Writes(Export, batches, f, i) && Writes(Export, batches, f, j)
      ensures SchemaAt(Export, batches, f, i) == SchemaAt(Export, batches, f, j)
    {
      ExportFrame(batches, f, i);
      ExportFrame(batches, f, j);
      var a := BatchIsPart(raws, size, parse, i);
      var b := BatchIsPart(raws, size, parse, j);
      assert !ChangesSchema(parse, f, a, b);
    }
  }

  lemma TwoPartsChange(parse: Parser, f: Filter, a: seq<Raw>, b: seq<Raw>)
    requires KeepsLength(parse) && ChangesSchema(parse, f, a, b)
    ensures |a| >= 1 && !WritesOneSchema(parse, Export, a + b, f, |a|)
  {
    hide Batches, Kept, LastFrame, SchemaAt;
    assert |parse.rows(b)| == |b|;
    assert |b| > 0;
    TwoParts(parse, a, b);
    var batches := Batches(a + b, |a|, parse);
    ExportFrame(batches, f, 0);
    ExportFrame(batches, f, 1);
    assert Writes(Export, batches, f, 0) && Writes(Export, batches, f, 1);
  }

  // ----- three readers

  /** A reader that types every row on its own. */
  function RowByRow(one: Raw -> Row, types: Schema): Parser {
    Parser((raws: seq<Raw>) => seq(|raws|, i requires 0 <= i < |raws| => one(raws[i])),
           (raws: seq<Raw>) => (rows: seq<Row>) => types)
  }

  /** Then every run, to either format, is independent of the batch size. */
  lemma RowByRowIsIrrelevant(one: Raw -> Row, types: Schema, format: Format)
    ensures BatchSizeIsIrrelevant(RowByRow(one, types), format)
  {
    hide Batches, BatchSizeIsIrrelevant;
    var parse := RowByRow(one, types);
    forall a, b
      ensures SplitsAlike(parse, a, b)
    {
      assert parse.rows(a + b) == parse.rows(a) + parse.rows(b);
    }
    forall operation, raws, f, size: nat | size >= 1
      ensures WritesOneSchema(parse, operation, raws, f, size)
    {
      FixedSchema(parse, operation, raws, f, size, types);
    }
    BatchSizeIsIrrelevantIff(parse, format);
  }

  lemma FixedSchema(parse: Parser, operation: Operation, raws: seq<Raw>, f: Filter, size: nat, types: Schema)
    requires size >= 1 && forall x, y :: parse.schema(x)(y) == types
    ensures WritesOneSchema(parse, operation, raws, f, size)
  {
    hide Batches, LastFrame;
    var batches := Batches(raws, size, parse);
    forall i | 0 <= i < |batches|
      ensures SchemaAt(operation, batches, f, i) == types
    {
      var part := BatchIsPart(raws, size, parse, i);
      assert batches[..i + 1][i] == Parsed(parse, part);
    }
  }

  predicate AllDigits(s: string) {
    s != "" && forall i :: 0 <= i < |s| ==> '0' <= s[i] <= '9'
  }

  function WithoutZeros(s: string): string {
    if |s| > 1 && s[0] == '0' then WithoutZeros(s[1..]) else s
  }

  predicate HasEmpty(raws: seq<Raw>) {
    exists r :: r in raws && r.symbol.None?
  }

  /** An integer as a number of the column's type is rendered; an empty cell stays empty. */
  function Rendered(digits: Option<string>, floats: bool): Option<string> {
    if digits.Some? && floats then Some(digits.value + ".0") else digits
  }

  function PayloadType(raws: seq<Raw>): ColumnType {
    if exists r :: r in raws && r.payload.None? then Float64 else Int64
  }

  /** A Parquet batch whose symbols are integers: a column that holds an empty cell is read as floats. */
  function IntegerColumns(dateOf: string -> Option<int>): Parser {
    Parser((raws: seq<Raw>) => seq(|raws|, i requires 0 <= i < |raws| =>
             Row(Rendered(raws[i].symbol, HasEmpty(raws)), dateOf(raws[i].date), raws[i].payload)),
           (raws: seq<Raw>) => (rows: seq<Row>) =>
             Schema(if HasEmpty(raws) then Float64 else Int64, PayloadType(raws)))
  }

  /** A CSV batch: a symbol column that holds only digits is read as numbers and loses its leading zeros. */
  function Inferred(dateOf: string -> Option<int>): Parser {
    Parser((raws: seq<Raw>) =>
             var numeric := forall r :: r in raws && r.symbol.Some? ==> AllDigits(r.symbol.value);
             seq(|raws|, i requires 0 <= i < |raws| =>
               var cell := raws[i].symbol;
               var symbol :=
                 if numeric && cell.Some? then Rendered(Some(WithoutZeros(cell.value)), HasEmpty(raws)) else cell;
               Row(symbol, dateOf(raws[i].date), raws[i].payload)),
           (raws: seq<Raw>) => (rows: seq<Row>) =>
             var numeric := forall r :: r in raws && r.symbol.Some? ==> AllDigits(r.symbol.value);
             Schema(if !numeric then Text else if HasEmpty(raws) then Float64 else Int64, PayloadType(raws)))
  }

  /** Two parts whose first row reads differently apart and together. */
  lemma FirstRowsDiffer(parse: Parser, a: seq<Raw>, b: seq<Raw>)
    requires |parse.rows(a + b)| > 0 && |parse.rows(a)| > 0 && parse.rows(a + b)[0] != parse.rows(a)[0]
    requires Wanted(parse.rows(a + b)[0], EVERY) && Wanted(parse.rows(a)[0], EVERY)
    ensures !ParsesAlike(parse)
  {
    hide Kept, Wanted;
    FirstKept(parse.rows(a + b));
    FirstKept(parse.rows(a) + parse.rows(b));
    assert !SplitsAlike(parse, a, b);
  }

  /** A first row that passes is the first kept row. */
  lemma {:induction false} FirstKept(rows: seq<Row>)
    requires rows != [] && Wanted(rows[0], EVERY)
    ensures Kept(rows, EVERY) != [] && Kept(rows, EVERY)[0] == rows[0]
  {
    hide Wanted;
    if |rows| > 1 {
      FirstKept(rows[..|rows| - 1]);
    } else {
      assert rows[..0] == [];
    }
  }

  lemma PlainIsWanted(symbol: string, stamp: Option<int>, payload: Option<int>)
    requires stamp.Some? && symbol != "" && Trimmed(symbol)
    ensures Wanted(Row(Some(symbol), stamp, payload), EVERY)
  {
    hide Strip;
  }

  // ----- a CSV file

  /** So for a CSV the result depends on the batch size: "000001" next to "600000.SH" stays, alone it becomes "1". */
  lemma CsvDependsOnBatchSize(dateOf: string -> Option<int>, format: Format)
    requires dateOf("2024-01-02").Some?
    ensures KeepsLength(Inferred(dateOf)) && !BatchSizeIsIrrelevant(Inferred(dateOf), format)
  {
    hide Wanted, Inferred, BatchSizeIsIrrelevant, ParsesAlike, KeepsLength;
    var parse := Inferred(dateOf);
    var a, b := [Raw(Some("000001"), "2024-01-02", Some(0))], [Raw(Some("600000.SH"), "2024-01-02", Some(1))];
    InferredKeepsLength(dateOf);
    MixedBatch(dateOf, a + b);
    LoneCode(dateOf, a[0]);
    PlainIsWanted("000001", dateOf("2024-01-02"), Some(0));
    PlainIsWanted("1", dateOf("2024-01-02"), Some(0));
    assert |"000001"| != |"1"|;
    FirstRowsDiffer(parse, a, b);
    BatchSizeIsIrrelevantIff(parse, format);
  }

  lemma InferredKeepsLength(dateOf: string -> Option<int>)
    ensures KeepsLength(Inferred(dateOf))
  {
    hide AllDigits, WithoutZeros, HasEmpty;
  }

  lemma MixedBatch(dateOf: string -> Option<int>, raws: seq<Raw>)
    requires |raws| == 2 && raws[0].symbol == Some("000001") && raws[1].symbol == Some("600000.SH")
    ensures |Inferred(dateOf).rows(raws)| == 2
    ensures Inferred(dateOf).rows(raws)[0] == Row(Some("000001"), dateOf(raws[0].date), raws[0].payload)
    ensures forall rows :: Inferred(dateOf).schema(raws)(rows).symbol == Text
  {
    hide WithoutZeros, HasEmpty;
    assert "600000.SH"[6] == '.';
    assert raws[1] in raws && !AllDigits(raws[1].symbol.value);
  }

  lemma LoneCode(dateOf: string -> Option<int>, raw: Raw)
    requires raw.symbol == Some("000001")
    ensures |Inferred(dateOf).rows([raw])| == 1
    ensures Inferred(dateOf).rows([raw])[0] == Row(Some("1"), dateOf(raw.date), raw.payload)
    ensures forall rows :: Inferred(dateOf).schema([raw])(rows).symbol == Int64
  {
    CodeWithoutZeros();
    assert AllDigits("000001");
    hide WithoutZeros, AllDigits;
    assert forall r :: r in [raw] ==> r == raw;
    assert !HasEmpty([raw]);
  }

  lemma ZeroDropped(s: string)
    ensures WithoutZeros("0" + s) == if s == "" then "0" else WithoutZeros(s)
  {
    assert ("0" + s)[1..] == s;
  }

  lemma CodeWithoutZeros()
    ensures WithoutZeros("000001") == "1"
  {
    assert WithoutZeros("1") == "1";
    hide WithoutZeros;
    ZeroDropped("1");
    ZeroDropped("01");
    ZeroDropped("001");
    ZeroDropped("0001");
    ZeroDropped("00001");
    assert "0" + "1" == "01" && "0" + "01" == "001" && "0" + "001" == "0001";
    assert "0" + "0001" == "00001" && "0" + "00001" == "000001";
  }

  // ----- a Parquet file

  lemma IntegersKeepLength(dateOf: string -> Option<int>)
    ensures KeepsLength(IntegerColumns(dateOf))
  {
    hide HasEmpty, PayloadType;
  }

  /** For a Parquet file too: "600000" stays alone, and becomes "600000.0" in a batch with an empty symbol. */
  lemma ParquetDependsOnBatchSize(dateOf: string -> Option<int>, format: Format)
    requires dateOf("2024-01-02").Some?
    ensures KeepsLength(IntegerColumns(dateOf)) && !BatchSizeIsIrrelevant(IntegerColumns(dateOf), format)
  {
    hide Wanted, BatchSizeIsIrrelevant, ParsesAlike, KeepsLength, PayloadType;
    var parse := IntegerColumns(dateOf);
    var a, b := [Raw(Some("600000"), "2024-01-02", Some(0))], [Raw(None, "2024-01-02", Some(1))];
    IntegersKeepLength(dateOf);
    assert b[0] in a + b && HasEmpty(a + b);
    assert !HasEmpty(a);
    assert "600000" + ".0" == "600000.0" && |"600000"| != |"600000.0"|;
    PlainIsWanted("600000", dateOf("2024-01-02"), Some(0));
    PlainIsWanted("600000.0", dateOf("2024-01-02"), Some(0));
    FirstRowsDiffer(parse, a, b);
    BatchSizeIsIrrelevantIff(parse, format);
  }

  lemma {:induction false} CompleteFault(operation: Operation, format: Format, batches: seq<Batch>, f: Filter)
    requires Complete(batches)
    ensures Fault(operation, format, batches, f) != Some(MissingColumns)
  {
    if batches != [] {
      CompleteSplit(batches);
      CompleteFault(operation, format, batches[..|batches| - 1], f);
    }
  }

  /** Two such parts make the export of both raise when each is a batch. */
  lemma ChangeIsReported(parse: Parser, f: Filter, a: seq<Raw>, b: seq<Raw>)
    requires KeepsLength(parse) && ChangesSchema(parse, f, a, b)
    ensures |a| >= 1 && Report(Export, Parquet, Batches(a + b, |a|, parse), f) == SchemaChanged
  {
    hide Batches, ChangesSchema, Fault, OneSchema, Stream, Kept, KeepsLength;
    TwoPartsChange(parse, f, a, b);
    var batches := Batches(a + b, |a|, parse);
    BatchesAreComplete(a + b, |a|, parse);
    FaultFreeIff(Export, Parquet, batches, f);
    FaultIsError(Export, Parquet, batches, f);
    CompleteFault(Export, Parquet, batches, f);
  }

  /** A file read as one batch and wanted throughout is exported whole. */
  lemma OneBatchIsPublished(parse: Parser, format: Format, raws: seq<Raw>, size: nat, f: Filter)
    requires KeepsLength(parse) && raws != [] && size >= |raws|
    requires forall r :: r in parse.rows(raws) ==> Wanted(r, f)
    ensures Report(Export, format, Batches(raws, size, parse), f) == Published(|raws|, |raws|, 0)
  {
    BatchesUnfold(raws, size, parse);
    hide Batches, Fault, OneSchema, Stream, Kept, Wanted;
    OneBatchOneSchema(parse, Export, raws, f, size);
    BatchesAreComplete(raws, size, parse);
    FaultFreeIff(Export, format, Batches(raws, size, parse), f);
    WantedStay(parse.rows(raws), f);
  }

  /** Both rows read the same apart and together; the types of their tables differ. */
  lemma IntegersRead(dateOf: string -> Option<int>, first: Raw, second: Raw)
    requires first.symbol.Some? && second.symbol.Some? && first.payload.Some? && second.payload.None?
    ensures
      var parse := IntegerColumns(dateOf);
      var x := Row(first.symbol, dateOf(first.date), first.payload);
      var y := Row(second.symbol, dateOf(second.date), None);
      && parse.rows([first]) == [x] && parse.rows([second]) == [y] && parse.rows([first, second]) == [x, y]
      && parse.schema([first])([x]) == Schema(Int64, Int64) && parse.schema([second])([y]) == Schema(Int64, Float64)
  {
    assert !HasEmpty([first]) && !HasEmpty([second]) && !HasEmpty([first, second]);
    hide HasEmpty;
    assert second in [second];
    assert PayloadType([first]) == Int64 && PayloadType([second]) == Float64;
  }

  /**
   * Two rows of which the second lacks a value: written to Parquet in one batch they are published, in two the second
   * batch's floats do not fit the first one's integers and the run raises.
   */
  lemma EmptyCellCanRaise(dateOf: string -> Option<int>)
    requires dateOf("2024-01-02").Some?
    ensures
      var raws := [Raw(Some("600000"), "2024-01-02", Some(1)), Raw(Some("600001"), "2024-01-02", None)];
      && Report(Export, Parquet, Batches(raws, 2, IntegerColumns(dateOf)), EVERY) == Published(2, 2, 0)
      && Report(Export, Parquet, Batches(raws, 1, IntegerColumns(dateOf)), EVERY) == SchemaChanged
  {
    hide IntegerColumns, Wanted, Report, Batches, Kept, KeepsLength;
    var parse, stamp := IntegerColumns(dateOf), dateOf("2024-01-02");
    var first, second := Raw(Some("600000"), "2024-01-02", Some(1)), Raw(Some("600001"), "2024-01-02", None);
    var x, y := Row(Some("600000"), stamp, Some(1)), Row(Some("600001"), stamp, None);
    IntegersKeepLength(dateOf);
    IntegersRead(dateOf, first, second);
    PlainIsWanted("600000", stamp, Some(1));
    PlainIsWanted("600001", stamp, None);
    OneBatchIsPublished(parse, Parquet, [first, second], 2, EVERY);
    WantedStay([x], EVERY);
    WantedStay([y], EVERY);
    assert ChangesSchema(parse, EVERY, [first], [second]);
    ChangeIsReported(parse, EVERY, [first], [second]);
    assert [first] + [second] == [first, second];
  }
}
