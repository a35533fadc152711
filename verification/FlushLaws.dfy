/** Building, logging and applying a flushed table, while a compaction may be anywhere in its own steps. */
module FlushLaws {
  import opened Keys
  import opened Entries
  import opened Versions
  import opened LevelStore
  import opened Meaning
  import opened Compaction
  import opened CompactionLaws
  import opened System
  import opened WalLaws

  // ----- Disk changes beside a running compaction -----

  lemma {:induction false} MergeFrame(files: seq<FileMeta>, disk: Disk, disk': Disk)
    requires forall f | f in files :: Es(disk', f) == Es(disk, f)
    ensures MergeFiles(files, disk') == MergeFiles(files, disk)
  {
    if files != [] {
      assert forall f | f in files[..|files| - 1] :: f in files;
      assert files[|files| - 1] in files;
      MergeFrame(files[..|files| - 1], disk, disk');
    }
  }

  lemma OutputFrame(levels: Levels, disk: Disk, disk': Disk, t: Task, n: nat)
    requires FilesOK(levels, disk) && TaskOK(levels, t) && SameFiles(levels, disk, disk')
    ensures Output(t, disk', n) == Output(t, disk, n)
  {
    FrameFiles(levels, disk, disk');
    forall f | f in t.Files() ensures Es(disk', f) == Es(disk, f) {
      TaskFiles(levels, t, f);
    }
    MergeFrame(t.Files(), disk, disk');
  }

  lemma BuiltFrame(levels: Levels, disk: Disk, disk': Disk, t: Task, output: Option<FileMeta>, n: nat)
    requires Built(levels, disk, t, output, n) && SameFiles(levels, disk, disk')
    requires output.Some? ==> output.value.number in disk' && disk'[output.value.number] == disk[output.value.number]
    ensures Built(levels, disk', t, output, n)
  {
    hide Output, TaskOK, Recent, Stack, Chains;
    LevelFrame(levels, disk, disk');
    OutputFrame(levels, disk, disk', t, n);
  }

  /** A number no level refers to may change. */
  lemma UnusedChange(levels: Levels, disk: Disk, disk': Disk, n: nat)
    requires Unused(levels, n) && forall k | k != n && k in disk :: k in disk' && disk'[k] == disk[k]
    ensures SameFiles(levels, disk, disk')
  {
  }

  lemma BelowUnused(levels: Levels, hi: nat, n: nat)
    requires NumbersBelow(levels, hi) && hi <= n
    ensures Unused(levels, n)
  {
  }

  // ----- A flushed file joining level 0 beside a compaction -----

  lemma TaskPush(levels: Levels, t: Task, meta: FileMeta)
    requires |levels| >= 1 && TaskOK(levels, t)
    ensures TaskOK(PushLevel0(levels, meta), t)
  {
  }

  lemma UnusedPush(levels: Levels, meta: FileMeta, n: nat)
    requires |levels| >= 1 && Unused(levels, n) && n != meta.number
    ensures Unused(PushLevel0(levels, meta), n)
  {
    var after := PushLevel0(levels, meta);
    assert forall i, f | 0 <= i < |after| && f in after[i] :: f in levels[i] || f == meta;
  }

  lemma BuiltPush(levels: Levels, disk: Disk, t: Task, output: Option<FileMeta>, n: nat, meta: FileMeta)
    requires Built(levels, disk, t, output, n) && LevelInv(PushLevel0(levels, meta), disk)
    requires output.Some? ==> output.value.number != meta.number
    ensures Built(PushLevel0(levels, meta), disk, t, output, n)
  {
    hide Output, LevelInv, TaskOK, Unused;
    assert |levels| >= 1 by {
      assert t.target < |levels| by {
        TaskTarget(levels, t);
      }
    }
    TaskPush(levels, t, meta);
    if output.Some? {
      UnusedPush(levels, meta, output.value.number);
    }
  }

  lemma TaskTarget(levels: Levels, t: Task)
    requires TaskOK(levels, t)
    ensures 0 < t.target < |levels|
  {
  }

  lemma NumbersPush(levels: Levels, meta: FileMeta, n: nat)
    requires |levels| >= 1 && NumbersBelow(levels, n) && meta.number < n
    ensures NumbersBelow(PushLevel0(levels, meta), n)
  {
    var after := PushLevel0(levels, meta);
    assert forall i, f | 0 <= i < |after| && f in after[i] :: f in levels[i] || f == meta;
  }

  lemma RetainPush(files: seq<FileMeta>, meta: FileMeta, n: nat)
    requires n != meta.number
    ensures Retain(files + [meta], n) == Retain(files, n) + [meta]
  {
    assert (files + [meta])[..|files|] == files;
  }

  lemma {:induction false} DeletePush(levels: Levels, meta: FileMeta, deleted: seq<(nat, nat)>)
    requires |levels| >= 1 && (0, meta.number) !in deleted
    ensures DeleteFiles(PushLevel0(levels, meta), deleted) == PushLevel0(DeleteFiles(levels, deleted), meta)
  {
    if deleted != [] {
      var init, last := deleted[..|deleted| - 1], deleted[|deleted| - 1];
      assert deleted == init + [last];
      DeletePush(levels, meta, init);
      var before := DeleteFiles(levels, init);
      if last.0 == 0 {
        RetainPush(before[0], meta, last.1);
      }
      assert DeleteFiles(PushLevel0(levels, meta), deleted) == PushLevel0(DeleteFiles(levels, deleted), meta);
    }
  }

  /** A flush and a compaction commute: the compaction never deletes a file flushed after it was picked. */
  lemma FlushCompactCommute(levels: Levels, t: Task, output: Option<FileMeta>, meta: FileMeta)
    requires |levels| >= 1 && TaskOK(levels, t) && Unused(levels, meta.number)
    ensures CompactLevels(PushLevel0(levels, meta), t, output) == PushLevel0(CompactLevels(levels, t, output), meta)
  {
    var deleted := EditFor(t, output).deletedFiles;
    DeletionMembers(t.level, t.inputs);
    DeletionMembers(t.target, t.targets);
    forall f | f in t.inputs ensures f.number != meta.number {
      TaskFiles(levels, t, f);
    }
    DeletePush(levels, meta, deleted);
  }

  // ----- What a flush edit does -----

  lemma ApplyFlushEdit(v: Version, meta: FileMeta, maxSeq: nat)
    requires |v.levels| >= 1
    ensures ApplyEdit(v, FlushEdit(meta, maxSeq)) == Version(
              PushLevel0(v.levels, meta),
              if meta.number >= v.nextFile then meta.number + 1 else v.nextFile,
              if maxSeq > v.lastSeq then maxSeq else v.lastSeq)
  {
    var edit := FlushEdit(meta, maxSeq);
    assert edit.newFiles[..0] == [] && edit.newFiles[0] == (0, meta);
    assert AddFiles(v, edit.newFiles) == AddFile(v, 0, meta);
  }

  lemma LoggedAppended(s: Sys, s': Sys, edit: VersionEdit)
    requires s'.manifest == s.manifest + [edit] && |s'.live.levels| == |s.live.levels|
    ensures Logged(s') == ApplyEdit(Logged(s), edit)
  {
    ReplayAppend(s.manifest, edit, |s.live.levels|);
  }

  /** The table built from a memtable holds exactly its entries. */
  lemma FlushedTable(t: Table, disk: Disk, meta: FileMeta, lo: nat, hi: nat)
    requires TableIn(t, lo, hi) && t != map[]
    requires meta.number in disk && disk[meta.number] == Ascending(t) && MetaFor(meta, Ascending(t))
    ensures MetaOK(disk, meta) && Own(disk, meta) == Contents(t)
  {
    AscendingFacts(t);
    ContentsHold(t);
  }

  lemma FresherByFloor(t: Table, stored: set<Entry>, lo: nat, hi: nat)
    requires TableIn(t, lo, hi) && SeqBound(stored, lo)
    ensures Fresher(Ascending(t), stored)
  {
    AscendingFacts(t);
    forall x, y | x in Ascending(t) && y in stored && x.key == y.key ensures x.seqNo > y.seqNo {
      assert Holds(t, x);
    }
  }

  lemma ContentsBound(t: Table)
    requires WellFormed(t)
    ensures SeqBound(Contents(t), MaxSeq(t))
  {
    MaxSeqBounds(t);
  }

  lemma MaxSeqIn(t: Table, lo: nat, hi: nat)
    requires TableIn(t, lo, hi) && t != map[]
    ensures lo < MaxSeq(t) <= hi
  {
    MaxSeqBounds(t);
  }

  // ----- FinishTable -----

  lemma FinishTableStore(s: Sys, size: nat)
    requires Enabled(s, FinishTable(size)) && StoreInv(s)
    ensures var s' := Do(s, FinishTable(size));
            && StoreInv(s')
            && SameFiles(s.live.levels, s.disk, s'.disk) && SameFiles(Logged(s).levels, s.disk, s'.disk)
            && Live(s.live.levels, s'.disk) == Live(s.live.levels, s.disk)
            && Live(Logged(s).levels, s'.disk) == Live(Logged(s).levels, s.disk)
            && Unused(s.live.levels, s.live.nextFile) && Unused(Logged(s).levels, s.live.nextFile)
  {
    hide LevelInv, LiveFrom, Replay, SameFiles, Unused, NumbersBelow;
    var s' := Do(s, FinishTable(size));
    assert Logged(s') == Logged(s);
    BelowUnused(s.live.levels, s.live.nextFile, s.live.nextFile);
    BelowUnused(Logged(s).levels, Logged(s).nextFile, s.live.nextFile);
    UnusedChange(s.live.levels, s.disk, s'.disk, s.live.nextFile);
    UnusedChange(Logged(s).levels, s.disk, s'.disk, s.live.nextFile);
    LevelFrame(s.live.levels, s.disk, s'.disk);
    LevelFrame(Logged(s).levels, s.disk, s'.disk);
    NumbersUp(s.live.levels, s.live.nextFile, s'.live.nextFile);
  }

  lemma NumbersUp(levels: Levels, n: nat, n': nat)
    requires NumbersBelow(levels, n) && n <= n'
    ensures NumbersBelow(levels, n')
  {
  }

  lemma FinishTableCompact(s: Sys, s': Sys)
    requires CompactInv(s) && FilesApart(s)
    requires s'.compact == s.compact && s'.live.levels == s.live.levels && Logged(s') == Logged(s)
    requires s'.disk == s.disk[s.live.nextFile := Ascending(Frozen(s'))]
    requires SameFiles(s.live.levels, s.disk, s'.disk) && SameFiles(Logged(s).levels, s.disk, s'.disk)
    ensures CompactInv(s')
  {
    hide LevelInv, SameFiles, Output, TaskOK, Unused, MetaFor, Replay, Logged, Ascending;
    match s.compact
    case MergeDone(t, output) =>
      BuiltFrame(s.live.levels, s.disk, s'.disk, t, output, |s.live.levels|);
      BuiltFrame(Logged(s).levels, s.disk, s'.disk, t, output, |s.live.levels|);
    case CompactLogged(t, output) =>
      BuiltFrame(s.live.levels, s.disk, s'.disk, t, output, |s.live.levels|);
    case _ =>
  }

  lemma FinishTableRest(s: Sys, size: nat)
    requires Enabled(s, FinishTable(size)) && Consistent(s)
    requires Unused(s.live.levels, s.live.nextFile) && Unused(Logged(s).levels, s.live.nextFile)
    requires Live(s.live.levels, Do(s, FinishTable(size)).disk) == Live(s.live.levels, s.disk)
    ensures var s' := Do(s, FinishTable(size));
            MemInv(s') && WalInv(s') && FlushFile(s') && FilesApart(s') && PendingInv(s')
  {
    hide *;
    FinishTableMemory(s, size);
    FinishTableFiles(s, size);
  }

  lemma FinishTableMemory(s: Sys, size: nat)
    requires Enabled(s, FinishTable(size)) && Consistent(s)
    requires Live(s.live.levels, Do(s, FinishTable(size)).disk) == Live(s.live.levels, s.disk)
    ensures MemInv(Do(s, FinishTable(size))) && WalInv(Do(s, FinishTable(size)))
  {
    hide LevelInv, LiveFrom, Replay, Unused, Built, TaskOK, Shadows, Fresher, ReplayWal, MaxSeq, NumbersBelow, SeqBound;
    hide CompactInv, FlushFile, FilesApart, PendingInv, Ascending, TableMeta;
    assert Logged(Do(s, FinishTable(size))) == Logged(s);
  }

  lemma FinishTableFiles(s: Sys, size: nat)
    requires Enabled(s, FinishTable(size)) && Consistent(s)
    requires Unused(s.live.levels, s.live.nextFile) && Unused(Logged(s).levels, s.live.nextFile)
    ensures var s' := Do(s, FinishTable(size)); FlushFile(s') && FilesApart(s') && PendingInv(s')
  {
    hide LevelInv, LiveFrom, Replay, Unused, Built, TaskOK, Shadows, Fresher, ReplayWal, MaxSeq, NumbersBelow, SeqBound;
    hide WalInv, MemInv;
    assert Logged(Do(s, FinishTable(size))) == Logged(s);
  }

  lemma FinishTableKeeps(s: Sys, m: KeyValues, size: nat)
    requires Enabled(s, FinishTable(size)) && Inv(s, m)
    ensures Inv(Do(s, FinishTable(size)), m)
  {
    hide StoreInv, MemInv, WalInv, FlushFile, CompactInv, FilesApart, PendingInv, LiveFrom, Replay, Means, Contents;
    hide SameFiles, Unused, ReplayWal, LevelInv;
    var s' := Do(s, FinishTable(size));
    assert Logged(s') == Logged(s);
    FinishTableStore(s, size);
    FinishTableCompact(s, s');
    FinishTableRest(s, size);
    assert InMemory(s') == InMemory(s);
    assert DurableTable(s') == DurableTable(s);
  }

  // ----- LogFlush -----

  lemma LogFlushVersion(s: Sys)
    requires Enabled(s, LogFlush) && StoreInv(s) && MemInv(s) && PendingInv(s) && FlushFile(s)
    ensures var d, d' := Logged(s), Logged(Do(s, LogFlush));
            d' == Version(
              PushLevel0(d.levels, s.flush.meta),
              if s.flush.meta.number >= d.nextFile then s.flush.meta.number + 1 else d.nextFile,
              MaxSeq(Frozen(s)))
    ensures Logged(s).lastSeq < MaxSeq(Frozen(s)) <= s.live.lastSeq
    ensures MetaOK(s.disk, s.flush.meta) && Own(s.disk, s.flush.meta) == Contents(Frozen(s))
  {
    hide LevelInv, LiveFrom, Replay, MaxSeq, Shadows, Fresher, Pending, Unused, NumbersBelow, SeqBound, Ascending;
    LoggedAppended(s, Do(s, LogFlush), FlushEdit(s.flush.meta, MaxSeq(Frozen(s))));
    ApplyFlushEdit(Logged(s), s.flush.meta, MaxSeq(Frozen(s)));
    MaxSeqIn(Frozen(s), Logged(s).lastSeq, s.live.lastSeq);
    FlushedTable(Frozen(s), s.disk, s.flush.meta, Logged(s).lastSeq, s.live.lastSeq);
  }

  lemma BoundUp(es: set<Entry>, n: nat, n': nat)
    requires SeqBound(es, n) && n <= n'
    ensures SeqBound(es, n')
  {
  }

  lemma LogFlushStore(s: Sys)
    requires Enabled(s, LogFlush) && Consistent(s)
    ensures StoreInv(Do(s, LogFlush))
    ensures Live(Logged(Do(s, LogFlush)).levels, s.disk) == Live(Logged(s).levels, s.disk) + Contents(Frozen(s))
  {
    hide LevelInv, LiveFrom, Replay, MaxSeq, Shadows, Fresher, Pending, Unused, NumbersBelow, SeqBound, Ascending;
    hide WalInv, CompactInv, FilesApart, Contents;
    var d, meta, top := Logged(s), s.flush.meta, MaxSeq(Frozen(s));
    LogFlushVersion(s);
    FresherByFloor(Frozen(s), Live(d.levels, s.disk), d.lastSeq, s.live.lastSeq);
    PushKeeps(d.levels, s.disk, meta);
    PushLive(d.levels, s.disk, meta);
    NumbersUp(d.levels, d.nextFile, Logged(Do(s, LogFlush)).nextFile);
    NumbersPush(d.levels, meta, Logged(Do(s, LogFlush)).nextFile);
    ContentsBound(Frozen(s));
    BoundUp(Live(d.levels, s.disk), d.lastSeq, top);
    BoundUp(Live(s.live.levels, s.disk), d.lastSeq, top);
    BoundUnion(Live(d.levels, s.disk), Contents(Frozen(s)), top);
  }

  lemma BoundUnion(xs: set<Entry>, ys: set<Entry>, n: nat)
    requires SeqBound(xs, n) && SeqBound(ys, n)
    ensures SeqBound(xs + ys, n)
  {
  }

  lemma LogFlushMem(s: Sys)
    requires Enabled(s, LogFlush) && Consistent(s)
    ensures var s' := Do(s, LogFlush); MemInv(s') && WalInv(s') && FlushFile(s') && FilesApart(s')
  {
    hide LevelInv, LiveFrom, Replay, MaxSeq, Shadows, Fresher, Pending, Unused, NumbersBelow, SeqBound, Ascending;
    hide CompactInv, Contents, ReplayWal;
    LogFlushVersion(s);
    FresherByFloor(Frozen(s), Live(s.live.levels, s.disk), Logged(s).lastSeq, s.live.lastSeq);
  }

  lemma LogFlushCompact(s: Sys)
    requires Enabled(s, LogFlush) && Consistent(s)
    requires LevelInv(Logged(Do(s, LogFlush)).levels, s.disk)
    ensures var s' := Do(s, LogFlush); CompactInv(s') && PendingInv(s')
  {
    hide LevelInv, LiveFrom, Replay, MaxSeq, Shadows, Fresher, Unused, NumbersBelow, SeqBound, Ascending, ReplayWal;
    hide Contents, TaskOK, Built, WalInv, CompactLevels;
    var d, meta, n := Logged(s), s.flush.meta, |s.live.levels|;
    LogFlushVersion(s);
    match s.compact
    case Picked(t) => TaskPush(d.levels, t, meta);
    case MergeDone(t, output) => BuiltPush(d.levels, s.disk, t, output, n, meta);
    case Removing(numbers) =>
      forall i | 0 <= i < |numbers| ensures Unused(PushLevel0(d.levels, meta), numbers[i]) {
        UnusedPush(d.levels, meta, numbers[i]);
      }
    case _ =>
  }

  /** Once the flushed table is in the logged version, recovery replays only what was written after the rotation. */
  lemma LogFlushStands(s: Sys, m: KeyValues)
    requires Enabled(s, LogFlush) && Inv(s, m)
    requires Live(Logged(Do(s, LogFlush)).levels, s.disk) == Live(Logged(s).levels, s.disk) + Contents(Frozen(s))
    requires WalInv(Do(s, LogFlush))
    ensures Stands(Do(s, LogFlush), m)
  {
    hide LevelInv, LiveFrom, Replay, Means, ReplayWal, StoreInv, FlushFile, CompactInv, FilesApart, PendingInv;
    hide Shadows, Fresher, SeqBound;
    var s' := Do(s, LogFlush);
    var live := Live(Logged(s).levels, s.disk);
    assert InMemory(s') == InMemory(s);
    assert DurableTable(s) == Frozen(s) + s.active.table;
    assert DurableTable(s') == s.active.table;
    FlushSupersedes(Frozen(s), s.active.table, live, m);
    assert Contents(s.active.table) + (live + Contents(Frozen(s)))
           == Contents(s.active.table) + Contents(Frozen(s)) + live;
  }

  lemma FlushSupersedes(frozen: Table, active: Table, live: set<Entry>, m: KeyValues)
    requires Means(Contents(frozen + active) + live, m)
    requires WellFormed(frozen) && WellFormed(active) && forall k | k in active :: active[k].seqNo > MaxSeq(frozen)
    ensures Means(Contents(active) + Contents(frozen) + live, m)
  {
    hide Means;
    var both := frozen + active;
    MaxSeqBounds(frozen);
    var before, after := Contents(both) + live, Contents(active) + Contents(frozen) + live;
    forall x | x in before ensures x in after {
      if x !in live {
        var k :| k in both && both[k] == x;
      }
    }
    forall x | x in Contents(active) ensures x in Contents(both) {
      var k :| k in active && active[k] == x;
      assert both[k] == x;
    }
    forall x | x in after && x !in before
      ensures exists y :: y in before && y.key == x.key && y.seqNo > x.seqNo
    {
      var k :| k in frozen && frozen[k] == x;
      assert both[k] in Contents(both);
    }
    MeansSuperseded(before, after, m);
  }

  lemma LogFlushKeeps(s: Sys, m: KeyValues)
    requires Enabled(s, LogFlush) && Inv(s, m)
    ensures Inv(Do(s, LogFlush), m)
  {
    hide LevelInv, LiveFrom, MemInv, WalInv, CompactInv, FlushFile, FilesApart, PendingInv, Means, Replay, MaxSeq;
    LogFlushStore(s);
    LogFlushMem(s);
    LogFlushCompact(s);
    LogFlushStands(s, m);
  }

  // ----- ApplyFlush -----

  lemma ApplyFlushVersion(s: Sys)
    requires Enabled(s, ApplyFlush) && StoreInv(s) && MemInv(s) && PendingInv(s) && FlushFile(s)
    ensures Do(s, ApplyFlush).live == s.live.(levels := PushLevel0(s.live.levels, s.flush.meta))
    ensures Logged(Do(s, ApplyFlush)) == Logged(s)
    ensures MetaOK(s.disk, s.flush.meta) && Own(s.disk, s.flush.meta) == Contents(Frozen(s))
  {
    hide LevelInv, LiveFrom, Replay, MaxSeq, Shadows, Fresher, Pending, Unused, NumbersBelow, SeqBound, Ascending;
    ApplyFlushEdit(s.live, s.flush.meta, MaxSeq(Frozen(s)));
    MaxSeqIn(Frozen(s), 0, s.live.lastSeq);
    FlushedTable(Frozen(s), s.disk, s.flush.meta, 0, s.live.lastSeq);
  }

  lemma ApplyFlushStore(s: Sys)
    requires Enabled(s, ApplyFlush) && Consistent(s)
    ensures StoreInv(Do(s, ApplyFlush))
    ensures Live(PushLevel0(s.live.levels, s.flush.meta), s.disk) == Live(s.live.levels, s.disk) + Contents(Frozen(s))
  {
    hide LevelInv, LiveFrom, Replay, MaxSeq, Shadows, Fresher, Pending, Unused, NumbersBelow, SeqBound, Ascending;
    hide WalInv, CompactInv, FilesApart, Contents;
    var d, meta := Logged(s), s.flush.meta;
    ApplyFlushVersion(s);
    assert Es(s.disk, meta) == Ascending(Frozen(s));
    PushKeeps(s.live.levels, s.disk, meta);
    PushLive(s.live.levels, s.disk, meta);
    NumbersPush(s.live.levels, meta, s.live.nextFile);
    ContentsBound(Frozen(s));
    BoundUp(Contents(Frozen(s)), MaxSeq(Frozen(s)), d.lastSeq);
    BoundUnion(Live(s.live.levels, s.disk), Contents(Frozen(s)), d.lastSeq);
  }

  lemma ShadowsItself(t: Table, stored: set<Entry>)
    requires WellFormed(t) && Shadows(Contents(t), stored)
    ensures Shadows(Contents(t), stored + Contents(t))
  {
    ContentsHold(t);
  }

  lemma ApplyFlushMem(s: Sys)
    requires Enabled(s, ApplyFlush) && Consistent(s)
    requires Live(PushLevel0(s.live.levels, s.flush.meta), s.disk) == Live(s.live.levels, s.disk) + Contents(Frozen(s))
    ensures var s' := Do(s, ApplyFlush); MemInv(s') && WalInv(s') && FlushFile(s') && FilesApart(s')
  {
    hide LevelInv, LiveFrom, Replay, MaxSeq, Shadows, Fresher, Pending, Unused, NumbersBelow, SeqBound, Ascending;
    hide CompactInv, Contents, ReplayWal;
    ApplyFlushVersion(s);
    ShadowsItself(Frozen(s), Live(s.live.levels, s.disk));
  }

  lemma ApplyFlushCompact(s: Sys)
    requires Enabled(s, ApplyFlush) && Consistent(s)
    requires LevelInv(PushLevel0(s.live.levels, s.flush.meta), s.disk)
    ensures var s' := Do(s, ApplyFlush); CompactInv(s') && PendingInv(s')
  {
    hide LevelInv, LiveFrom, Replay, MaxSeq, Shadows, Fresher, Unused, NumbersBelow, SeqBound, Ascending, ReplayWal;
    hide Contents, TaskOK, Output, WalInv, CompactLevels;
    var levels, meta, n := s.live.levels, s.flush.meta, |s.live.levels|;
    ApplyFlushVersion(s);
    match s.compact
    case Picked(t) => TaskPush(levels, t, meta);
    case MergeDone(t, output) => BuiltPush(levels, s.disk, t, output, n, meta);
    case CompactLogged(t, output) =>
      BuiltPush(levels, s.disk, t, output, n, meta);
      FlushCompactCommute(levels, t, output, meta);
    case Removing(numbers) =>
      forall i | 0 <= i < |numbers| ensures Unused(PushLevel0(levels, meta), numbers[i]) {
        UnusedPush(levels, meta, numbers[i]);
      }
    case _ =>
  }

  lemma ApplyFlushStands(s: Sys, m: KeyValues)
    requires Enabled(s, ApplyFlush) && |s.live.levels| >= 1 && Stands(s, m)
    requires Do(s, ApplyFlush).live == s.live.(levels := PushLevel0(s.live.levels, s.flush.meta))
    requires Logged(Do(s, ApplyFlush)) == Logged(s)
    requires Live(PushLevel0(s.live.levels, s.flush.meta), s.disk) == Live(s.live.levels, s.disk) + Contents(Frozen(s))
    ensures Stands(Do(s, ApplyFlush), m)
  {
    hide LiveFrom, Means, Replay, Contents, ReplayWal, MaxSeq, ApplyEdit, PushLevel0;
    var s' := Do(s, ApplyFlush);
    var live, frozen, active := Live(s.live.levels, s.disk), Contents(Frozen(s)), Contents(s.active.table);
    assert InMemory(s') == InMemory(s) == active + frozen;
    assert DurableTable(s') == DurableTable(s);
    assert active + frozen + (live + frozen) == active + frozen + live;
    assert active + (live + frozen) == active + frozen + live;
  }

  lemma ApplyFlushKeeps(s: Sys, m: KeyValues)
    requires Enabled(s, ApplyFlush) && Inv(s, m)
    ensures Inv(Do(s, ApplyFlush), m)
  {
    hide LevelInv, LiveFrom, Means, Replay, Contents, ReplayWal, Stands, Shadows, Fresher, SeqBound, NumbersBelow;
    ApplyFlushStore(s);
    ApplyFlushVersion(s);
    ApplyFlushMem(s);
    hide MemInv, WalInv, CompactInv, FlushFile, FilesApart;
    ApplyFlushCompact(s);
    ApplyFlushStands(s, m);
  }
}
