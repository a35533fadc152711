/** Scans that a flush or a compaction passes, and what they list (src/engine.rs:430-473). */
module ScanRaces {
  import opened Keys
  import opened Entries
  import opened Versions
  import opened LevelStore
  import opened Meaning
  import opened Compaction
  import opened System
  import opened WriteLaws
  import opened Runs
  import opened Reader
  import opened Uninterrupted
  import opened Races
  import opened Scanner
  import opened ScanLaws

  lemma NoEvents(c: ScanConfig)
    ensures ScanRun(c, []) == Some(c)
  {
  }

  lemma ScanAppend(c: ScanConfig, events: seq<Event>, e: Event)
    requires ScanRun(c, events).Some? && CanScan(ScanRun(c, events).value, e)
    ensures ScanRun(c, events + [e]) == Some(ScanEvent(ScanRun(c, events).value, e))
  {
    hide CanScan, ScanEvent;
    assert (events + [e])[..|events|] == events;
  }

  lemma {:induction false} ScanJoin(c: ScanConfig, xs: seq<Event>, ys: seq<Event>)
    requires ScanRun(c, xs).Some?
    ensures ScanRun(c, xs + ys) == ScanRun(ScanRun(c, xs).value, ys)
  {
    hide CanScan, ScanEvent;
    if ys == [] {
      assert xs + ys == xs;
    } else {
      var init := ys[..|ys| - 1];
      ScanJoin(c, xs, init);
      assert (xs + ys)[..|xs + ys| - 1] == xs + init;
    }
  }

  // ----- Passed by a flush -----

  /** A store in which `k` was written once and there is no table. */
  ghost predicate OnlyWritten(s: Sys, k: Key) {
    && s.flush.FlushIdle? && s.imms == [] && k in s.active.table
    && forall i | 0 <= i < |s.live.levels| :: s.live.levels[i] == []
  }

  lemma {:induction false} NoFilesFrom(levels: Levels, i: nat)
    requires i <= |levels| && forall j | i <= j < |levels| :: levels[j] == []
    ensures FilesFrom(levels, i) == []
    decreases |levels| - i
  {
    if i < |levels| {
      NoFilesFrom(levels, i + 1);
    }
  }

  lemma WrittenOnce(maxLevels: nat, k: Key, v: Bytes)
    requires maxLevels >= 1
    ensures var run := After(Fresh(maxLevels), [Write([Put(k, v)])]);
            run.Some? && Inv(run.value, map[k := v]) && OnlyWritten(run.value, k)
  {
    hide Inv, After, AfterCrash, LevelInv;
    var s0 := Fresh(maxLevels);
    FreshInv(maxLevels);
    AfterNothing(s0);
    WriteSingle(s0, Put(k, v));
    AfterStep(s0, [], Write([Put(k, v)]));
    assert [] + [Write([Put(k, v)])] == [Write([Put(k, v)])];
    StepKeeps(s0, map[], Write([Put(k, v)]));
    assert [Put(k, v)][..0] == [] && ApplyOps(map[], []) == map[];
    assert k in WriteOne(s0, Put(k, v)).active.table;
  }

  /** A rotation between the reads of the immutable and the active memtables hides the whole memtable. */
  lemma ScanPassedByRotation(maxLevels: nat, k: Key, v: Bytes)
    requires maxLevels >= 1
    ensures var run := After(Fresh(maxLevels), [Write([Put(k, v)])]);
            && run.Some? && Inv(run.value, map[k := v])
            && var end := ScanRun(BeginScan(run.value, map[k := v]), [Read] + [Read] + [Engine(Rotate)] + [Read]);
               end.Some? && end.value.p == Finished({}, map[k := v])
  {
    hide Inv, After, FilesFrom, ScanRun, Dropped;
    WrittenOnce(maxLevels, k, v);
    var s, m := After(Fresh(maxLevels), [Write([Put(k, v)])]).value, map[k := v];
    var c := BeginScan(s, m);
    NoContents();
    NoEvents(c);
    NoFilesFrom(s.live.levels, 0);
    ScanAppend(c, [], Read);
    assert [] + [Read] == [Read];
    ScanAppend(c, [Read], Read);
    ScanAppend(c, [Read] + [Read], Engine(Rotate));
    ScanAppend(c, [Read] + [Read] + [Engine(Rotate)], Read);
  }

  /** A flush that joins the tables after their version was taken, and retires before the immutable memtables are read,
      hides the table it wrote. */
  lemma ScanPassedByFlush(maxLevels: nat, k: Key, v: Bytes, size: nat)
    requires maxLevels >= 1
    ensures var run := After(Fresh(maxLevels), [Write([Put(k, v)])]);
            && run.Some? && Inv(run.value, map[k := v])
            && var end := ScanRun(BeginScan(run.value, map[k := v]),
                                  [Read] + Engines(WholeFlush(size)) + [Read] + [Read]);
               end.Some? && end.value.p == Finished({}, map[k := v])
  {
    hide Inv, After, FilesFrom, ScanRun, WholeFlush, AfterFlush;
    WrittenOnce(maxLevels, k, v);
    var s, m := After(Fresh(maxLevels), [Write([Put(k, v)])]).value, map[k := v];
    var c := BeginScan(s, m);
    NoContents();
    NoEvents(c);
    NoFilesFrom(s.live.levels, 0);
    ScanAppend(c, [], Read);
    assert [] + [Read] == [Read];
    FlushSequence(s, m, size);
    FlushWritesNothing(size);
    ScanEngines(ScanStep(c), WholeFlush(size));
    ScanJoin(c, [Read], Engines(WholeFlush(size)));
    var before := [Read] + Engines(WholeFlush(size));
    assert ScanRun(c, before).value.s == AfterFlush(s, size);
    FlushedMemory(s, size);
    ScanAppend(c, before, Read);
    ScanAppend(c, before + [Read], Read);
  }

  lemma FlushWritesNothing(size: nat)
    ensures forall a | a in WholeFlush(size) :: !a.Write? && a != Restart
  {
  }

  lemma FlushedMemory(s: Sys, size: nat)
    requires s.active.table != map[]
    ensures AfterFlush(s, size).imms == [] && AfterFlush(s, size).active.table == map[]
  {
    hide ApplyEdit, Ascending, MaxSeq;
  }

  /** Steps that write nothing leave a scan and its map where they are. */
  lemma {:induction false} ScanEngines(c: ScanConfig, acts: seq<Action>)
    requires After(c.s, acts).Some? && forall a | a in acts :: !a.Write? && a != Restart
    ensures var end := ScanRun(c, Engines(acts));
            end.Some? && end.value.s == After(c.s, acts).value && end.value.m == c.m && end.value.p == c.p
  {
    hide Enabled, Do, Dropped, LateAfter;
    if acts != [] {
      var init, last := acts[..|acts| - 1], acts[|acts| - 1];
      assert last in acts && forall a | a in init :: a in acts;
      ScanEngines(c, init);
      assert Engines(acts)[..|init|] == Engines(init);
      assert Engines(acts)[|init|] == Engine(last);
    }
  }

  // ----- Passed by a compaction -----

  lemma OneScanRead(c: ScanConfig)
    ensures ScanRun(c, [Read]) == Some(ScanStep(c))
  {
    NoEvents(c);
    ScanAppend(c, [], Read);
    assert [] + [Read] == [Read];
  }

  /** Left alone with nothing in memory, a scan sees what the files it has yet to read hold. */
  lemma {:induction false} ScanReads(c: ScanConfig, n: nat)
    requires c.p.ReadTables? && n == |c.p.rest| + 2 && c.s.active.table == map[] && c.s.imms == []
    ensures var end := ScanRun(c, Reads(n));
            end.Some? && end.value.p == Finished(c.p.seen + FileEntries(c.p.rest, c.s.disk), c.m)
    decreases n
  {
    hide ScanRun, FileEntries, Own;
    OneScanRead(c);
    ScanJoin(c, [Read], Reads(n - 1));
    if c.p.rest != [] {
      ReadOne(c.p.rest, c.s.disk);
      ScanReads(ScanStep(c), n - 1);
      assert c.p.seen + Own(c.s.disk, c.p.rest[0]) + FileEntries(c.p.rest[1..], c.s.disk)
          == c.p.seen + FileEntries(c.p.rest, c.s.disk);
    } else {
      NoContents();
      NoFiles(c.s.disk);
      OneScanRead(ScanStep(c));
      assert Reads(1) == [Read] && Reads(2) == [Read] + Reads(1);
    }
  }

  /** A scan takes its version; then the compaction of a level 0 of four files runs up to the point where it has removed
      them; then the scan reads. */
  function ScanOvertaken(levels: Levels, size: nat): seq<Event>
    requires |levels| >= 2 && levels[0] != []
  {
    [Read] + Engines(MergeSteps(LevelZeroTask(levels), size) + RemoveSteps(4)) + Reads(|FilesFrom(levels, 0)| + 2)
  }

  lemma OvertakenScan(s: Sys, m: KeyValues, size: nat)
    requires Quiet(s) && Inv(s, m) && |s.live.levels| >= 2 && |s.live.levels[0]| == 4
    ensures var end := ScanRun(BeginScan(s, m), ScanOvertaken(s.live.levels, size));
            end.Some? && end.value.p == Finished(LiveFrom(s.live.levels, s.disk, 1), m)
  {
    hide Inv, After, ScanRun, TaskOK, MergeSteps, FilesFrom, FileEntries, LiveFrom, Due, LevelZeroTask, Consistent;
    hide Overtaking, Reads, Compacted;
    var levels, t := s.live.levels, LevelZeroTask(s.live.levels);
    var c := BeginScan(s, m);
    var acts := MergeSteps(t, size) + RemoveSteps(4);
    LevelZeroDue(Compactor(|levels|, 0, 4), levels);
    InvConsistent(s, m);
    OneScanRead(c);
    TaskSize(levels);
    OvertakingSteps(s, m, t, size, 4);
    NothingWritten(t, size, 4);
    ScanEngines(ScanStep(c), acts);
    ScanJoin(c, [Read], Engines(acts));
    var before := ScanRun(c, [Read] + Engines(acts)).value;
    ScanReads(before, |FilesFrom(levels, 0)| + 2);
    ScanJoin(c, [Read] + Engines(acts), Reads(|FilesFrom(levels, 0)| + 2));
    FilesFromMembers(levels, before.s.disk, 0);
    LevelZeroRemoved(s, size);
    LeftBelow(levels, s.disk, before.s.disk);
    assert {} + LiveFrom(levels, s.disk, 1) == LiveFrom(levels, s.disk, 1);
  }

  lemma TaskSize(levels: Levels)
    requires |levels| >= 2 && |levels[0]| == 4
    ensures |LevelZeroTask(levels).inputs| == 4 <= |LevelZeroTask(levels).Files()|
  {
    hide FindOverlapping;
  }

  /** Without the entries of level 0. */
  lemma LeftBelow(levels: Levels, disk: Disk, left: Disk)
    requires |levels| >= 1 && forall f | f in levels[0] :: Es(left, f) == []
    requires forall i, f | 1 <= i < |levels| && f in levels[i] :: Es(left, f) == Es(disk, f)
    ensures LiveFrom(levels, left, 0) == LiveFrom(levels, disk, 1)
  {
    assert LiveFrom(levels, left, 1) == LiveFrom(levels, disk, 1);
    LiveSplit(levels, left, 0);
    assert FileEntries(levels[0], left) == {};
  }

  /** A stored key left out: `k` is written and flushed four times, and the compaction this makes due removes the files
      of the version a scan has taken; no flush is under way. */
  lemma ScanPassedByCompaction(maxLevels: nat, k: Key, v: Bytes, size: nat)
    requires maxLevels >= 2
    ensures var run := After(Fresh(maxLevels), Rounds(Put(k, v), size, 4));
            && run.Some? && Inv(run.value, map[k := v])
            && |run.value.live.levels| >= 2 && |run.value.live.levels[0]| == 4
            && Due(Compactor(maxLevels, 0, 4), run.value.live.levels, LevelZeroTask(run.value.live.levels))
            && var end := ScanRun(BeginScan(run.value, map[k := v]), ScanOvertaken(run.value.live.levels, size));
               end.Some? && end.value.p == Finished({}, map[k := v])
  {
    hide Inv, After, Rounds, Fresh, Quiet, Due, LevelZeroTask, ScanRun, ScanOvertaken;
    StoredRun(maxLevels, k, v, size);
    var s := After(Fresh(maxLevels), Rounds(Put(k, v), size, 4)).value;
    LevelZeroDue(Compactor(maxLevels, 0, 4), s.live.levels);
    OvertakenScan(s, map[k := v], size);
    assert LiveFrom(s.live.levels, s.disk, 1) == {};
  }

  /** A deleted key listed with its old value: the files with the tombstones are removed ahead of the scan, the older
      file below them is not. */
  lemma ScanListsDeleted(maxLevels: nat, k: Key, v: Bytes, size: nat)
    requires maxLevels >= 2
    ensures var run := After(Fresh(maxLevels), DeletedAbove(maxLevels, k, v, size));
            && run.Some? && Inv(run.value, map[])
            && |run.value.live.levels| >= 2 && |run.value.live.levels[0]| == 4
            && Due(Compactor(maxLevels, 0, 4), run.value.live.levels, LevelZeroTask(run.value.live.levels))
            && var end := ScanRun(BeginScan(run.value, map[]), ScanOvertaken(run.value.live.levels, size));
               end.Some? && end.value.p.Finished? && end.value.p.m == map[] && MapOf(end.value.p.seen) == map[k := v]
  {
    hide Inv, After, Fresh, Quiet, Due, LevelZeroTask, ScanRun, ScanOvertaken, DeletedAbove, LiveFrom, Means, MapOf;
    DeletedRun(maxLevels, k, v, size);
    var s := After(Fresh(maxLevels), DeletedAbove(maxLevels, k, v, size)).value;
    LevelZeroDue(Compactor(maxLevels, 0, 4), s.live.levels);
    OvertakenScan(s, map[], size);
    ScanSeesAllButMissed(s, map[], ScanOvertaken(s.live.levels, size));
    var seen := LiveFrom(s.live.levels, s.disk, 1);
    MeansUnique(seen, MapOf(seen), map[k := v]);
  }
}
