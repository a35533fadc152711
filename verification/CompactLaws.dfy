/** Picking, merging, logging, applying and cleaning up a compaction, while a flush may be anywhere in its own steps. */
module CompactLaws {
  import opened Keys
  import opened Entries
  import opened Versions
  import opened LevelStore
  import opened Meaning
  import opened Compaction
  import opened CompactionLaws
  import opened System
  import opened WalLaws
  import opened WriteLaws
  import opened FlushLaws

  // ----- Pick -----

  lemma PickKeeps(s: Sys, m: KeyValues, t: Task)
    requires Enabled(s, Pick(t)) && Inv(s, m)
    ensures Inv(Do(s, Pick(t)), m)
  {
    hide LevelInv, LiveFrom, Means, Replay, Contents, ReplayWal, Shadows, Fresher, SeqBound, NumbersBelow, Unused;
    hide MemInv, WalInv, MaxSeq, TaskOK, CompactInv, PendingInv;
    var s' := Do(s, Pick(t));
    assert Logged(s') == Logged(s);
    PickCompact(s, t);
    assert InMemory(s') == InMemory(s) && DurableTable(s') == DurableTable(s);
    assert MemInv(s') && WalInv(s') by {
      CompactPhaseOnly(s, s');
    }
  }

  lemma PickCompact(s: Sys, t: Task)
    requires Enabled(s, Pick(t)) && PendingInv(s)
    ensures CompactInv(Do(s, Pick(t))) && PendingInv(Do(s, Pick(t)))
  {
    hide Replay, TaskOK;
    assert Logged(Do(s, Pick(t))) == Logged(s);
    if s.flush.FlushLogged? {
      TaskPush(s.live.levels, t, s.flush.meta);
    }
  }

  /** The memory and log invariants do not look at the compaction. */
  lemma CompactPhaseOnly(s: Sys, s': Sys)
    requires MemInv(s) && WalInv(s)
    requires s' == s.(compact := s'.compact, disk := s'.disk, live := s.live.(nextFile := s'.live.nextFile))
    requires Live(s.live.levels, s'.disk) == Live(s.live.levels, s.disk)
    ensures MemInv(s') && WalInv(s')
  {
    hide LiveFrom, Replay, Contents, ReplayWal, Shadows, Fresher, MaxSeq, TableIn;
    assert Logged(s') == Logged(s);
  }

  lemma SameStands(s: Sys, s': Sys, m: KeyValues)
    requires Stands(s, m)
    requires s'.active == s.active && s'.flush == s.flush && s'.wal == s.wal
    requires Logged(s') == Logged(s) && s'.live.levels == s.live.levels
    requires Live(s.live.levels, s'.disk) == Live(s.live.levels, s.disk)
    requires Live(Logged(s).levels, s'.disk) == Live(Logged(s).levels, s.disk)
    ensures Stands(s', m)
  {
    hide LiveFrom, Means, Replay, Contents, ReplayWal;
    assert InMemory(s') == InMemory(s) && DurableTable(s') == DurableTable(s);
  }

  // ----- FinishMerge -----

  ghost function MergedMeta(s: Sys, size: nat): Option<FileMeta>
    requires s.compact.Picked?
  {
    var out := Output(s.compact.task, s.disk, |s.live.levels|);
    if out == [] then None else Some(TableMeta(s.live.nextFile, size, out))
  }

  lemma FinishMergeDisk(s: Sys, size: nat)
    requires Enabled(s, FinishMerge(size)) && StoreInv(s)
    ensures var s' := Do(s, FinishMerge(size));
            && StoreInv(s') && Logged(s') == Logged(s)
            && SameFiles(s.live.levels, s.disk, s'.disk) && SameFiles(Logged(s).levels, s.disk, s'.disk)
            && Live(s.live.levels, s'.disk) == Live(s.live.levels, s.disk)
            && Live(Logged(s).levels, s'.disk) == Live(Logged(s).levels, s.disk)
            && Unused(s.live.levels, s.live.nextFile) && Unused(Logged(s).levels, s.live.nextFile)
  {
    hide LevelInv, LiveFrom, Replay, SameFiles, Unused, NumbersBelow, Output;
    var s' := Do(s, FinishMerge(size));
    assert Logged(s') == Logged(s);
    BelowUnused(s.live.levels, s.live.nextFile, s.live.nextFile);
    BelowUnused(Logged(s).levels, Logged(s).nextFile, s.live.nextFile);
    UnusedChange(s.live.levels, s.disk, s'.disk, s.live.nextFile);
    UnusedChange(Logged(s).levels, s.disk, s'.disk, s.live.nextFile);
    LevelFrame(s.live.levels, s.disk, s'.disk);
    LevelFrame(Logged(s).levels, s.disk, s'.disk);
    NumbersUp(s.live.levels, s.live.nextFile, s'.live.nextFile);
  }

  lemma FinishMergeBuilt(s: Sys, size: nat, levels: Levels)
    requires Enabled(s, FinishMerge(size))
    requires LevelInv(levels, s.disk) && |levels| == |s.live.levels| && TaskOK(levels, s.compact.task)
    requires var s' := Do(s, FinishMerge(size));
             SameFiles(levels, s.disk, s'.disk) && LevelInv(levels, s'.disk) && Unused(levels, s.live.nextFile)
    ensures Built(levels, Do(s, FinishMerge(size)).disk, s.compact.task, MergedMeta(s, size), |levels|)
  {
    hide LevelInv, SameFiles, TaskOK, Unused, Output;
    assert FilesOK(levels, s.disk) by {
      InvFiles(levels, s.disk);
    }
    OutputFrame(levels, s.disk, Do(s, FinishMerge(size)).disk, s.compact.task, |levels|);
  }

  lemma InvFiles(levels: Levels, disk: Disk)
    requires LevelInv(levels, disk)
    ensures FilesOK(levels, disk) && |levels| >= 1
  {
  }

  lemma FinishMergeRest(s: Sys, size: nat)
    requires Enabled(s, FinishMerge(size)) && Consistent(s)
    ensures var s' := Do(s, FinishMerge(size)); FlushFile(s') && FilesApart(s') && PendingInv(s')
  {
    hide StoreInv, MemInv, WalInv, Unused, Replay, Output, MetaFor, Ascending, TaskOK;
    var s' := Do(s, FinishMerge(size));
    assert Logged(s') == Logged(s);
  }

  lemma FinishMergeKeeps(s: Sys, m: KeyValues, size: nat)
    requires Enabled(s, FinishMerge(size)) && Inv(s, m)
    ensures Inv(Do(s, FinishMerge(size)), m)
  {
    hide LevelInv, LiveFrom, Means, Replay, Contents, ReplayWal, MemInv, WalInv, FlushFile, FilesApart, PendingInv;
    hide Unused, SameFiles, SeqBound, NumbersBelow, TaskOK, Built, Output, Stands;
    var s' := Do(s, FinishMerge(size));
    FinishMergeDisk(s, size);
    FinishMergeBuilt(s, size, s.live.levels);
    FinishMergeBuilt(s, size, Logged(s).levels);
    FinishMergeRest(s, size);
    assert s'.compact == MergeDone(s.compact.task, MergedMeta(s, size));
    CompactPhaseOnly(s, s');
    SameStands(s, s', m);
  }

  // ----- LogCompaction and ApplyCompacted -----

  /** What one applied compaction does to the sets the invariant speaks about. */
  lemma CompactedStore(levels: Levels, disk: Disk, t: Task, output: Option<FileMeta>, n: nat, bound: nat, next: nat)
    requires Built(levels, disk, t, output, n)
    requires SeqBound(Live(levels, disk), bound) && NumbersBelow(levels, next)
    ensures LevelInv(CompactLevels(levels, t, output), disk)
    ensures Condenses(Live(levels, disk), Live(CompactLevels(levels, t, output), disk))
    ensures SeqBound(Live(CompactLevels(levels, t, output), disk), bound)
    ensures NumbersBelow(CompactLevels(levels, t, output),
                         if output.Some? && output.value.number >= next then output.value.number + 1 else next)
  {
    hide Output, TaskOK, LiveFrom, CompactLevels;
    TaskTarget(levels, t);
    CompactionKeepsInvariant(levels, disk, t, output, n);
    CompactionCondenses(levels, disk, t, output, n);
    CompactNumbersBelow(levels, t, output, next);
  }

  lemma CompactNumbersBelow(levels: Levels, t: Task, output: Option<FileMeta>, next: nat)
    requires TaskOK(levels, t) && Numbered(levels) && NumbersBelow(levels, next)
    ensures NumbersBelow(CompactLevels(levels, t, output),
                         if output.Some? && output.value.number >= next then output.value.number + 1 else next)
  {
    hide TaskOK, CompactLevels;
    TaskTarget(levels, t);
    var after := CompactLevels(levels, t, output);
    forall i, f: FileMeta | 0 <= i < |after| && f in after[i]
      ensures f.number < if output.Some? && output.value.number >= next then output.value.number + 1 else next
    {
      AfterMembers(levels, t, output, i);
      assert f in levels[i] || output == Some(f);
    }
  }

  /** A number used by neither the levels nor the output stays unused. */
  lemma CompactUnused(levels: Levels, disk: Disk, t: Task, output: Option<FileMeta>, n: nat, number: nat)
    requires Built(levels, disk, t, output, n) && Unused(levels, number)
    requires output.Some? ==> output.value.number != number
    ensures Unused(CompactLevels(levels, t, output), number)
  {
    hide Output, TaskOK, CompactLevels;
    TaskTarget(levels, t);
    forall i, f | 0 <= i < |levels| && f in CompactLevels(levels, t, output)[i] ensures f.number != number {
      AfterMembers(levels, t, output, i);
    }
  }

  /** The replaced files are gone from every level. */
  lemma ReplacedUnused(levels: Levels, disk: Disk, t: Task, output: Option<FileMeta>, n: nat, f: FileMeta)
    requires Built(levels, disk, t, output, n) && f in t.Files()
    ensures Unused(CompactLevels(levels, t, output), f.number)
    ensures !Unused(levels, f.number)
  {
    hide Output, CompactLevels, Recent, Stack, Chains;
    TaskFiles(levels, t, f);
    assert f in levels[t.level] || f in levels[t.target];
    forall i, g | 0 <= i < |levels| && g in CompactLevels(levels, t, output)[i] ensures g.number != f.number {
      AfterMembers(levels, t, output, i);
    }
  }

  lemma LogCompactionVersion(s: Sys)
    requires Enabled(s, LogCompaction) && CompactInv(s)
    ensures var t, output, d := s.compact.task, s.compact.output, Logged(s);
            && 0 < t.target < |d.levels|
            && Logged(Do(s, LogCompaction)) == Version(
                 CompactLevels(d.levels, t, output),
                 if output.Some? && output.value.number >= d.nextFile then output.value.number + 1 else d.nextFile,
                 d.lastSeq)
  {
    hide LevelInv, Output, Unused, Replay, CompactLevels, ApplyEdit;
    var t, output := s.compact.task, s.compact.output;
    TaskTarget(Logged(s).levels, t);
    LoggedAppended(s, Do(s, LogCompaction), EditFor(t, output));
    ApplyCompaction(Logged(s), t, output);
  }

  lemma LogCompactionStore(s: Sys)
    requires Enabled(s, LogCompaction) && Consistent(s)
    ensures StoreInv(Do(s, LogCompaction))
    ensures Condenses(Live(Logged(s).levels, s.disk), Live(Logged(Do(s, LogCompaction)).levels, s.disk))
  {
    hide LevelInv, LiveFrom, Replay, Output, Unused, CompactLevels, ReplayWal, Condenses, TaskOK, SeqBound,
         NumbersBelow;
    hide MemInv, WalInv, PendingInv, FlushFile;
    var d := Logged(s);
    LogCompactionVersion(s);
    CompactedStore(d.levels, s.disk, s.compact.task, s.compact.output, |s.live.levels|, d.lastSeq, d.nextFile);
  }

  lemma LogCompactionMem(s: Sys)
    requires Enabled(s, LogCompaction) && Consistent(s)
    ensures var s' := Do(s, LogCompaction); MemInv(s') && WalInv(s')
  {
    hide LevelInv, LiveFrom, Replay, Output, Unused, CompactLevels, ReplayWal, TaskOK, SeqBound, NumbersBelow;
    hide StoreInv, FlushFile, FilesApart, PendingInv, Shadows, Fresher, MaxSeq, Contents;
    LogCompactionVersion(s);
  }

  lemma LogCompactionRest(s: Sys)
    requires Enabled(s, LogCompaction) && Consistent(s)
    ensures var s' := Do(s, LogCompaction); FlushFile(s') && CompactInv(s') && FilesApart(s') && PendingInv(s')
  {
    hide LevelInv, LiveFrom, Replay, Output, Unused, CompactLevels, ReplayWal, TaskOK, SeqBound, NumbersBelow;
    hide StoreInv, MemInv, WalInv, MetaFor, Ascending;
    var d, t, output := Logged(s), s.compact.task, s.compact.output;
    LogCompactionVersion(s);
    if s.flush.TableDone? {
      CompactUnused(d.levels, s.disk, t, output, |s.live.levels|, s.flush.meta.number);
    }
    if s.flush.FlushLogged? {
      FlushCompactCommute(s.live.levels, t, output, s.flush.meta);
    }
  }

  lemma LogCompactionKeeps(s: Sys, m: KeyValues)
    requires Enabled(s, LogCompaction) && Inv(s, m)
    ensures Inv(Do(s, LogCompaction), m)
  {
    hide LevelInv, LiveFrom, Replay, Means, Contents, ReplayWal, MemInv, WalInv, FlushFile, FilesApart, PendingInv;
    hide CompactInv, Condenses, NumbersBelow, Shadows;
    var s' := Do(s, LogCompaction);
    var before, after := Live(Logged(s).levels, s.disk), Live(Logged(s').levels, s.disk);
    LogCompactionStore(s);
    LogCompactionMem(s);
    LogCompactionRest(s);
    DurableShadows(s);
    assert DurableTable(s') == DurableTable(s) by {
      LogCompactionVersion(s);
    }
    assert InMemory(s') == InMemory(s);
    var mem := Contents(DurableTable(s));
    CondensesUnder(mem, before, after);
    MeansCondensed(mem + before, mem + after, m);
  }

  lemma DurableShadows(s: Sys)
    requires Consistent(s)
    ensures Shadows(Contents(DurableTable(s)), Live(Logged(s).levels, s.disk))
  {
    hide LevelInv, LiveFrom, Replay, Contents, ReplayWal, FlushFile, FilesApart, PendingInv, CompactInv, Shadows;
    var floor, hi := Logged(s).lastSeq, s.live.lastSeq;
    ReplayIn(s.wal, floor, hi);
    ShadowsByFloor(DurableTable(s), Live(Logged(s).levels, s.disk), floor, hi);
  }

  lemma MemoryShadows(s: Sys)
    requires Consistent(s)
    ensures Shadows(InMemory(s), Live(s.live.levels, s.disk))
    ensures Shadows(Contents(s.active.table), Live(s.live.levels, s.disk))
  {
    hide LevelInv, LiveFrom, Replay, Contents, ReplayWal, FlushFile, FilesApart, PendingInv, CompactInv;
    ShadowsByFloor(s.active.table, Live(s.live.levels, s.disk), Logged(s).lastSeq, s.live.lastSeq);
  }

  lemma ApplyCompactedVersion(s: Sys)
    requires Enabled(s, ApplyCompacted) && CompactInv(s) && FilesApart(s)
    ensures var t, output := s.compact.task, s.compact.output;
            && 0 < t.target < |s.live.levels|
            && Do(s, ApplyCompacted).live == s.live.(levels := CompactLevels(s.live.levels, t, output))
    ensures Logged(Do(s, ApplyCompacted)) == Logged(s)
  {
    hide LevelInv, Output, Unused, Replay, CompactLevels, ApplyEdit, FileNumbers;
    var t, output := s.compact.task, s.compact.output;
    TaskTarget(s.live.levels, t);
    ApplyCompaction(s.live, t, output);
  }

  lemma ApplyCompactedStore(s: Sys)
    requires Enabled(s, ApplyCompacted) && Consistent(s)
    ensures StoreInv(Do(s, ApplyCompacted))
    ensures Condenses(Live(s.live.levels, s.disk), Live(Do(s, ApplyCompacted).live.levels, s.disk))
  {
    hide LevelInv, LiveFrom, Replay, Output, Unused, CompactLevels, ReplayWal, Condenses, TaskOK, SeqBound,
         NumbersBelow;
    hide MemInv, WalInv, PendingInv, FlushFile, FileNumbers;
    ApplyCompactedVersion(s);
    CompactedStore(s.live.levels, s.disk, s.compact.task, s.compact.output, |s.live.levels|, Logged(s).lastSeq,
                   s.live.nextFile);
  }

  lemma ShadowsFewer(mem: set<Entry>, before: set<Entry>, after: set<Entry>)
    requires Shadows(mem, before) && after <= before
    ensures Shadows(mem, after)
  {
  }

  lemma FresherFewer(es: seq<Entry>, before: set<Entry>, after: set<Entry>)
    requires Fresher(es, before) && after <= before
    ensures Fresher(es, after)
  {
  }

  lemma ApplyCompactedMem(s: Sys)
    requires Enabled(s, ApplyCompacted) && Consistent(s)
    requires Live(Do(s, ApplyCompacted).live.levels, s.disk) <= Live(s.live.levels, s.disk)
    ensures var s' := Do(s, ApplyCompacted); MemInv(s') && WalInv(s')
  {
    hide LevelInv, LiveFrom, Replay, Output, Unused, CompactLevels, ReplayWal, TaskOK, SeqBound, NumbersBelow;
    hide StoreInv, FlushFile, PendingInv, Shadows, Fresher, MaxSeq, Contents, FileNumbers, Ascending;
    ApplyCompactedVersion(s);
    var before, after := Live(s.live.levels, s.disk), Live(Do(s, ApplyCompacted).live.levels, s.disk);
    ShadowsFewer(Contents(Frozen(s)), before, after);
    if s.flush.FlushLogged? {
      FresherFewer(Ascending(Frozen(s)), before, after);
    }
  }

  lemma ApplyCompactedFlush(s: Sys)
    requires Enabled(s, ApplyCompacted) && Consistent(s)
    ensures var s' := Do(s, ApplyCompacted); FlushFile(s') && PendingInv(s')
  {
    hide LevelInv, LiveFrom, Replay, Output, Unused, CompactLevels, ReplayWal, TaskOK, SeqBound, NumbersBelow;
    hide StoreInv, MemInv, WalInv, MetaFor, Ascending, FileNumbers;
    ApplyCompactedVersion(s);
    if s.flush.TableDone? || s.flush.FlushLogged? {
      CompactUnused(s.live.levels, s.disk, s.compact.task, s.compact.output, |s.live.levels|, s.flush.meta.number);
    }
  }

  /** The numbers about to be removed are used neither by the live nor by the logged version, and by no flush. */
  lemma ReplacedNumber(s: Sys, f: FileMeta)
    requires Enabled(s, ApplyCompacted) && Consistent(s) && f in s.compact.task.Files()
    ensures Unused(Do(s, ApplyCompacted).live.levels, f.number) && Unused(Logged(s).levels, f.number)
    ensures f.number < s.live.nextFile
    ensures s.flush.TableDone? || s.flush.FlushLogged? ==> f.number != s.flush.meta.number
  {
    hide LevelInv, LiveFrom, Replay, Output, Unused, CompactLevels, ReplayWal, TaskOK, SeqBound;
    hide MemInv, WalInv, MetaFor, Ascending, FileNumbers;
    var t, output := s.compact.task, s.compact.output;
    ApplyCompactedVersion(s);
    ReplacedUnused(s.live.levels, s.disk, t, output, |s.live.levels|, f);
    if s.flush.FlushLogged? {
      UnusedPush(CompactLevels(s.live.levels, t, output), s.flush.meta, f.number);
    }
    if f.number >= s.live.nextFile {
      BelowUnused(s.live.levels, s.live.nextFile, f.number);
    }
  }

  lemma ApplyCompactedRemoving(s: Sys)
    requires Enabled(s, ApplyCompacted) && Consistent(s)
    ensures var s' := Do(s, ApplyCompacted); CompactInv(s') && FilesApart(s')
  {
    hide LevelInv, LiveFrom, Replay, Output, Unused, CompactLevels, ReplayWal, TaskOK, SeqBound, NumbersBelow, Built;
    hide StoreInv, MemInv, WalInv, PendingInv, FlushFile, MetaFor, Ascending;
    ApplyCompactedVersion(s);
    var files := s.compact.task.Files();
    forall i | 0 <= i < |files|
      ensures Unused(Do(s, ApplyCompacted).live.levels, files[i].number) && Unused(Logged(s).levels, files[i].number)
      ensures files[i].number < s.live.nextFile
      ensures s.flush.TableDone? || s.flush.FlushLogged? ==> files[i].number != s.flush.meta.number
    {
      ReplacedNumber(s, files[i]);
    }
  }

  lemma ApplyCompactedStands(s: Sys, m: KeyValues)
    requires Enabled(s, ApplyCompacted) && Consistent(s) && Stands(s, m)
    requires Condenses(Live(s.live.levels, s.disk), Live(Do(s, ApplyCompacted).live.levels, s.disk))
    ensures Stands(Do(s, ApplyCompacted), m)
  {
    hide LevelInv, LiveFrom, Replay, Means, Contents, ReplayWal, StoreInv, MemInv, WalInv, FlushFile, PendingInv;
    hide Condenses, Shadows, CompactLevels, FileNumbers;
    var s' := Do(s, ApplyCompacted);
    ApplyCompactedVersion(s);
    MemoryShadows(s);
    var before, after := Live(s.live.levels, s.disk), Live(s'.live.levels, s.disk);
    CondensesUnder(InMemory(s), before, after);
    MeansCondensed(InMemory(s) + before, InMemory(s) + after, m);
    if s.flush.FlushApplied? {
      var mem := Contents(s.active.table);
      CondensesUnder(mem, before, after);
      MeansCondensed(mem + before, mem + after, m);
    }
    assert InMemory(s') == InMemory(s) && DurableTable(s') == DurableTable(s);
  }

  lemma ApplyCompactedKeeps(s: Sys, m: KeyValues)
    requires Enabled(s, ApplyCompacted) && Inv(s, m)
    ensures Inv(Do(s, ApplyCompacted), m)
  {
    hide LevelInv, LiveFrom, StoreInv, MemInv, WalInv, FlushFile, FilesApart, PendingInv, CompactInv, Stands;
    ApplyCompactedStore(s);
    ApplyCompactedMem(s);
    ApplyCompactedFlush(s);
    ApplyCompactedRemoving(s);
    ApplyCompactedStands(s, m);
  }

  // ----- RemoveFile -----

  lemma RemoveFileStore(s: Sys)
    requires Enabled(s, RemoveFile) && StoreInv(s) && CompactInv(s)
    ensures var s' := Do(s, RemoveFile);
            && StoreInv(s') && Logged(s') == Logged(s)
            && Live(s.live.levels, s'.disk) == Live(s.live.levels, s.disk)
            && Live(Logged(s).levels, s'.disk) == Live(Logged(s).levels, s.disk)
  {
    hide LevelInv, LiveFrom, Replay, SameFiles, Unused, NumbersBelow;
    var s' := Do(s, RemoveFile);
    assert Logged(s') == Logged(s);
    if s.compact.numbers != [] {
      UnusedChange(s.live.levels, s.disk, s'.disk, s.compact.numbers[0]);
      UnusedChange(Logged(s).levels, s.disk, s'.disk, s.compact.numbers[0]);
      LevelFrame(s.live.levels, s.disk, s'.disk);
      LevelFrame(Logged(s).levels, s.disk, s'.disk);
    }
  }

  lemma RemoveFileRest(s: Sys)
    requires Enabled(s, RemoveFile) && FlushFile(s) && CompactInv(s) && FilesApart(s) && PendingInv(s)
    ensures var s' := Do(s, RemoveFile); FlushFile(s') && CompactInv(s') && FilesApart(s') && PendingInv(s')
  {
    hide Replay, Unused, MetaFor, Ascending;
    assert Logged(Do(s, RemoveFile)) == Logged(s);
  }

  lemma RemoveFileKeeps(s: Sys, m: KeyValues)
    requires Enabled(s, RemoveFile) && Inv(s, m)
    ensures Inv(Do(s, RemoveFile), m)
  {
    hide LevelInv, LiveFrom, StoreInv, MemInv, WalInv, FlushFile, FilesApart, PendingInv, CompactInv, Stands, Replay;
    var s' := Do(s, RemoveFile);
    RemoveFileStore(s);
    RemoveFileRest(s);
    CompactPhaseOnly(s, s');
    SameStands(s, s', m);
  }
}
