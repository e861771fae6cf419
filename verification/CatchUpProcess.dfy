/** The catch-up script itself: the files it keeps between runs and the steps that change them. */
module CatchUpProcess {
  import opened Options
  import opened CatchUp
  import opened PanelMerge
  import opened Universe
  import opened CleanUp

  /** How an invocation ends: two early exits, an error on a panel without dates, a crash, or the merge. */
  datatype Ending = NoDates | UpToDate | NoBusinessDay | DiedOpening | DiedFetching | Merged(outcome: Outcome)

  /** The panel file and the staging directory. */
  class Disk {
    var panel: seq<Bar>
    var manifest: Option<Manifest>
    var done: map<nat, Option<set<Symbol>>>
    var chunks: seq<ChunkFile>

    constructor (panel: seq<Bar>)
      ensures this.panel == panel && manifest == None && Files() == Staging(map[], [])
    {
      this.panel, manifest, done, chunks := panel, None, map[], [];
    }

    function Files(): Staging
      reads this
    {
      Staging(done, chunks)
    }

    /**
     * Staging that belongs to another window or other evidence is thrown away: chunk files in any order, then done
     * files, then the manifest is rewritten. The process may die after any number of unlinks.
     */
    method OpenWindow(expected: Manifest, dies: Option<nat>) returns (died: bool, ghost keep: set<nat>)
      modifies this`manifest, this`done, this`chunks
      ensures !died ==> manifest == Some(expected)
      ensures !died ==>
        Files() == if old(manifest) == Some(expected) then old(Files()) else Staging(map[], [])
      ensures died <==> old(manifest) != Some(expected) && dies.Some? && dies.value <= |old(chunks)| + |old(done)|
      ensures died ==> |chunks| + |done| == |old(chunks)| + |old(done)| - dies.value
      ensures died ==> manifest == old(manifest) && CutShort(old(Files()), keep, Files())
    {
      died, keep := false, {};
      if manifest == Some(expected) {
        return;
      }
      var files := |chunks|;
      died, keep := UnlinkChunks(dies);
      if died {
        return;
      }
      var gone := |done|;
      died := UnlinkDone(dies, files);
      files := files + gone;
      if died || dies == Some(files) {
        died, keep := true, {};
        KeptNone(old(chunks));
        return;
      }
      manifest := Some(expected);
    }

    /** Unlink the chunk files in any order, dying after as many as `dies` says. */
    method UnlinkChunks(dies: Option<nat>) returns (died: bool, ghost keep: set<nat>)
      modifies this`chunks
      ensures died <==> dies.Some? && dies.value < |old(chunks)|
      ensures died ==> chunks == Kept(old(chunks), keep) && |chunks| == |old(chunks)| - dies.value
      ensures !died ==> chunks == []
    {
      var listed := chunks;
      var left := Positions(|listed|);
      var unlinked := 0;
      KeptAll(listed, left);
      while left != {}
        modifies this`chunks
        invariant chunks == Kept(listed, left) && unlinked == |listed| - |left|
        invariant forall i :: i in left ==> i < |listed|
        invariant dies.Some? ==> dies.value >= unlinked
        decreases left
      {
        KeptLength(listed, left);
        if dies == Some(unlinked) {
          return true, left;
        }
        var i :| i in left;
        left := left - {i};
        chunks := Kept(listed, left);
        unlinked := unlinked + 1;
      }
      KeptNone(listed);
      died, keep := false, {};
    }

    /** Unlink the done files in any order, after so many chunk files. */
    method UnlinkDone(dies: Option<nat>, before: nat) returns (died: bool)
      requires dies.Some? ==> dies.value >= before
      modifies this`done
      ensures died <==> dies.Some? && dies.value < before + |old(done)|
      ensures forall k :: k in done ==> k in old(done) && done[k] == old(done)[k]
      ensures died ==> |done| == |old(done)| + before - dies.value
      ensures !died ==> done == map[]
    {
      var unlinked := before;
      while done != map[]
        modifies this`done
        invariant forall k :: k in done ==> k in old(done) && done[k] == old(done)[k]
        invariant unlinked + |done.Keys| == before + |old(done).Keys|
        invariant dies.Some? ==> dies.value >= unlinked
        decreases done.Keys
      {
        assert |done.Keys| > 0 by {
          assert (forall k :: k !in done) ==> done == map[];
        }
        if dies == Some(unlinked) {
          return true;
        }
        ghost var names := done.Keys;
        var k :| k in done.Keys;
        done := map j | j in done && j != k :: done[j];
        unlinked := unlinked + 1;
        assert names == done.Keys + {k} && k !in done;
      }
      died := false;
    }

    /** Read every done and chunk file, deleting the unreadable ones. */
    method ReadStaged() returns (staged: set<Symbol>)
      modifies this`done, this`chunks
      ensures Files() == Readable(old(Files()))
      ensures staged == DoneSymbols(old(Files()))
    {
      var named := ReadDone();
      var held := ReadChunks();
      staged := named + held;
    }

    method ReadDone() returns (named: set<Symbol>)
      modifies this`done
      ensures done == Readable(old(Files())).done
      ensures named == Listed(old(done))
    {
      ghost var start := done;
      named := {};
      var todo := done.Keys;
      while todo != {}
        modifies this`done
        invariant todo <= start.Keys
        invariant done == map k | k in start && (k in todo || start[k].Some?) :: start[k]
        invariant named == set k, s | k in start && k !in todo && start[k].Some? && s in start[k].value :: s
        decreases todo
      {
        assert exists k :: k in todo by {
          assert (forall k :: k !in todo) ==> todo == {};
        }
        var k :| k in todo;
        if done[k].Some? {
          named := named + done[k].value;
        } else {
          done := map j | j in done && j != k :: done[j];
        }
        todo := todo - {k};
      }
    }

    method ReadChunks() returns (held: set<Symbol>)
      modifies this`chunks
      ensures chunks == ReadableChunks(old(chunks))
      ensures held == Symbols(AllRows(old(chunks)))
    {
      held := {};
      var readable: seq<ChunkFile> := [];
      for i := 0 to |chunks|
        invariant readable == ReadableChunks(chunks[..i])
        invariant held == Symbols(AllRows(chunks[..i]))
      {
        assert chunks[..i + 1][..i] == chunks[..i];
        if chunks[i].rows.Some? {
          readable := readable + [chunks[i]];
          held := held + Symbols(chunks[i].rows.value);
        }
      }
      assert chunks[..|chunks|] == chunks;
      chunks := readable;
    }

    /** Fetch one batch symbol by symbol, noting the ones that fail. */
    method FetchBatch(batch: seq<Symbol>, run: Run, vendor: Symbol -> seq<Quote>, w: Window, failedBefore: seq<Symbol>)
      returns (rows: seq<Bar>, failed: seq<Symbol>)
      ensures rows == BatchRows(batch, run.failing, vendor, w)
      ensures forall s :: s in failed <==> s in failedBefore || (s in batch && s in run.failing)
    {
      rows, failed := [], failedBefore;
      for i := 0 to |batch|
        invariant rows == BatchRows(batch[..i], run.failing, vendor, w)
        invariant forall s :: s in failed <==> s in failedBefore || (s in batch[..i] && s in run.failing)
      {
        assert batch[..i + 1][..i] == batch[..i];
        assert batch[..i + 1] == batch[..i] + [batch[i]];
        if batch[i] in run.failing {
          failed := failed + [batch[i]];
        } else {
          rows := rows + Fetched(batch[i], vendor(batch[i]), w);
        }
      }
      assert batch[..|batch|] == batch;
    }

    /** Write a batch's done file, then its chunk file; `crash` says how far the process gets. */
    method WriteBatch(k: nat, second: int, batchDone: set<Symbol>, rows: seq<Bar>, crash: CrashPoint)
      modifies this`done, this`chunks
      ensures Files() ==
        match crash
        case BeforeDone => old(Files())
        case TornDone => Staging(old(done)[k := None], old(chunks))
        case BetweenDoneAndChunk => Staging(old(done)[k := Some(batchDone)], old(chunks))
        case TornChunk => Staging(old(done)[k := Some(batchDone)], Put(old(chunks), ChunkFile(k, second, None)))
        case AfterChunk => Staging(old(done)[k := Some(batchDone)], Put(old(chunks), ChunkFile(k, second, Some(rows))))
    {
      if crash == BeforeDone {
        return;
      }
      done := done[k := if crash == TornDone then None else Some(batchDone)];
      if crash == TornDone || crash == BetweenDoneAndChunk {
        return;
      }
      chunks := Put(chunks, ChunkFile(k, second, if crash == TornChunk then None else Some(rows)));
    }

    /** One batch: fetch it, then write its done file and its chunk file. */
    method StageOne(batch: seq<Symbol>, k: nat, run: Run, vendor: Symbol -> seq<Quote>, w: Window,
                    failedBefore: seq<Symbol>)
      returns (failed: seq<Symbol>, died: bool)
      requires forall s :: s in failedBefore ==> s in run.failing
      modifies this`done, this`chunks
      ensures died <==> run.crash.Some? && run.crash.value.0 == k
      ensures Files() == StageBatch(old(Files()), k, run.clock(k), batch, run.failing, vendor, w,
                                    if died then run.crash.value.1 else AfterChunk)
      ensures forall s :: s in failed <==> s in failedBefore || (s in batch && s in run.failing)
    {
      hide BatchRows, Put;
      var rows;
      rows, failed := FetchBatch(batch, run, vendor, w, failedBefore);
      var batchDone := set s | s in batch && !(s in failed && s in batch);
      assert batchDone == set s | s in batch && s !in run.failing;
      died := run.crash.Some? && run.crash.value.0 == k;
      WriteBatch(k, run.clock(k), batchDone, rows, if died then run.crash.value.1 else AfterChunk);
    }

    /** Fetch in batches of 250, writing each batch's done file and then its chunk file, until done or dead. */
    method StageAll(
        todo: seq<Symbol>, run: Run, vendor: Symbol -> seq<Quote>, w: Window)
      returns (failed: seq<Symbol>, died: bool)
      modifies this`done, this`chunks
      ensures Files() == StageFrom(old(Files()), todo, 0, run, vendor, w)
      ensures died <==> run.crash.Some? && run.crash.value.0 * 250 < |todo|
      ensures !died ==> forall s :: s in failed <==> s in todo && s in run.failing
    {
      hide StageBatch, StageFrom;
      ghost var start := Files();
      failed := [];
      var at, k := 0, 0;
      while at < |todo|
        invariant 0 <= at <= |todo| && (at < |todo| ==> at == k * CHUNK) && |todo| <= k * CHUNK + |todo| - at
        invariant run.crash.Some? ==> run.crash.value.0 >= k
        invariant StageFrom(Files(), todo[at..], k, run, vendor, w) == StageFrom(start, todo, 0, run, vendor, w)
        invariant forall s :: s in failed <==> s in todo[..at] && s in run.failing
      {
        var n := if |todo| - at < CHUNK then |todo| - at else CHUNK;
        var batch := todo[at..at + n];
        NextBatch(todo, at, n);
        StageFromStep(Files(), todo[at..], k, run, vendor, w);
        failed, died := StageOne(batch, k, run, vendor, w, failed);
        if died {
          return;
        }
        at, k := at + n, k + 1;
      }
      assert todo[..at] == todo && todo[at..] == [];
      StageFromEnd(Files(), k, run, vendor, w);
      died := false;
    }

    /**
     * Merge the staged rows into the panel and clear staging, or leave everything in place on a refusal or an error.
     */
    method Finish(w: Window, panelMax: int, evidence: map<Key, bool>, rules: Rules) returns (outcome: Outcome)
      modifies this
      ensures outcome == Merge(old(panel), old(chunks), w, panelMax, evidence, rules)
      ensures panel == if outcome.Written? then outcome.panel else old(panel)
      ensures outcome.Refused? || outcome.Raised? ==> Files() == old(Files()) && manifest == old(manifest)
      ensures outcome.NothingNew? || outcome.Written? ==> Files() == Staging(map[], []) && manifest == None
    {
      outcome := Merge(panel, chunks, w, panelMax, evidence, rules);
      if outcome.Refused? || outcome.Raised? {
        return;
      }
      if outcome.Written? {
        panel := outcome.panel;
      }
      chunks, done := [], map[];
      manifest := None;
    }

    /**
     * One invocation of the script: the window opens after the panel's last date and is fetched for the symbols with
     * a row on that date. `dies` cuts the clean-up of older staging, `run.crash` the fetching.
     */
    method CatchUp(end: int, evidenceName: string, isBusinessDay: int -> bool, dies: Option<nat>, run: Run,
                   vendor: Symbol -> seq<Quote>, evidence: map<Key, bool>, rules: Rules)
      returns (failed: seq<Symbol>, ending: Ending, ghost keep: set<nat>)
      modifies this
      ensures ending.NoDates? <==> old(panel) == []
      ensures old(panel) != [] ==>
        && (ending.UpToDate? <==> end <= LastDate(old(panel)))
        && (ending.NoBusinessDay? <==>
              end > LastDate(old(panel)) && !exists d :: LastDate(old(panel)) < d <= end && isBusinessDay(d))
      ensures ending.NoDates? || ending.UpToDate? || ending.NoBusinessDay? ==>
        panel == old(panel) && Files() == old(Files()) && manifest == old(manifest)
      ensures ending.DiedOpening? ==> panel == old(panel) && manifest == old(manifest) && dies.Some?
      ensures ending.DiedOpening? ==> CutShort(old(Files()), keep, Files())
      ensures old(panel) != [] && !ending.UpToDate? && !ending.NoBusinessDay? ==>
        (ending.DiedOpening? <==>
          && old(manifest) != Some(Manifest(Window(LastDate(old(panel)) + 1, end), evidenceName))
          && dies.Some? && dies.value <= |old(chunks)| + |old(done)|)
      ensures ending.DiedFetching? || ending.Merged? ==>
        var w := Window(LastDate(old(panel)) + 1, end);
        var expected := Manifest(w, evidenceName);
        var before := if old(manifest) == Some(expected) then old(Files()) else Staging(map[], []);
        var seed := Seed(old(panel));
        var staged := RunOnce(before, seed, run, vendor, w);
        && (ending.DiedFetching? <==>
              run.crash.Some? && run.crash.value.0 * 250 < |Todo(seed, DoneSymbols(before))|)
        && (ending.DiedFetching? ==> panel == old(panel) && Files() == staged && manifest == Some(expected))
        && (ending.Merged? ==>
              var outcome := Merge(old(panel), staged.chunks, w, LastDate(old(panel)), evidence, rules);
              && ending.outcome == outcome
              && panel == (if outcome.Written? then outcome.panel else old(panel))
              && (outcome.Refused? || outcome.Raised? ==> Files() == staged && manifest == Some(expected))
              && (outcome.NothingNew? || outcome.Written? ==> Files() == Staging(map[], []) && manifest == None)
              && forall s :: s in failed <==> s in seed && s !in DoneSymbols(before) && s in run.failing)
    {
      hide Merge, StageFrom, Seed, LastDate, Todo, DoneSymbols, Readable, CutShort;
      failed, keep := [], {};
      if panel == [] {
        return failed, NoDates, keep;
      }
      var panelMax := LastDate(panel);
      if panelMax + 1 > end {
        return failed, UpToDate, keep;
      }
      if !exists d | panelMax < d <= end :: isBusinessDay(d) {
        return failed, NoBusinessDay, keep;
      }
      var seed, w := Seed(panel), Window(panelMax + 1, end);
      var died: bool;
      died, keep := OpenWindow(Manifest(w, evidenceName), dies);
      if died {
        return failed, DiedOpening, keep;
      }
      ghost var before := Files();
      var staged := ReadStaged();
      ReadableSame(before);
      failed, died := StageAll(Todo(seed, staged), run, vendor, w);
      if died {
        return failed, DiedFetching, keep;
      }
      var merged := Finish(w, panelMax, evidence, rules);
      ending := Merged(merged);
    }
  }

  lemma NextBatch(todo: seq<Symbol>, at: nat, n: nat)
    requires at + n <= |todo|
    ensures todo[at..][..n] == todo[at..at + n] && todo[at..][n..] == todo[at + n..]
    ensures todo[..at + n] == todo[..at] + todo[at..at + n]
  {
  }

  lemma StageFromStep(st: Staging, todo: seq<Symbol>, k: nat, run: Run, vendor: Symbol -> seq<Quote>, w: Window)
    requires |todo| > 0
    ensures
      var n := if |todo| < CHUNK then |todo| else CHUNK;
      StageFrom(st, todo, k, run, vendor, w) ==
        if run.crash.Some? && run.crash.value.0 == k then
          StageBatch(st, k, run.clock(k), todo[..n], run.failing, vendor, w, run.crash.value.1)
        else
          StageFrom(StageBatch(st, k, run.clock(k), todo[..n], run.failing, vendor, w, AfterChunk),
                    todo[n..], k + 1, run, vendor, w)
  {
    hide StageBatch;
  }

  lemma StageFromEnd(st: Staging, k: nat, run: Run, vendor: Symbol -> seq<Quote>, w: Window)
    ensures StageFrom(st, [], k, run, vendor, w) == st
  {
  }
}
