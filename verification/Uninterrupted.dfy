/** What one flush and one compaction do when nothing else runs beside them (src/engine.rs:277-412). */
module Uninterrupted {
  import opened Keys
  import opened Entries
  import opened Versions
  import opened LevelStore
  import opened Meaning
  import opened Compaction
  import opened CompactionLaws
  import opened CompactionMeasure
  import opened System
  import opened WriteLaws
  import opened CompactLaws
  import opened Runs

  // ----- A flush -----

  /** With no write in between there is nothing to write back, so the log rewrite has no step. */
  function WholeFlush(size: nat): seq<Action> {
    [Rotate] + FlushSteps(size) + [Retire]
  }

  ghost function AfterFlush(s: Sys, size: nat): Sys
    requires s.active.table != map[]
  {
    var es, n := Ascending(s.active.table), s.live.nextFile;
    var edit := FlushEdit(TableMeta(n, size, es), MaxSeq(s.active.table));
    s.(active := Mem(s.nextId, map[]), nextId := s.nextId + 1, imms := [],
       live := ApplyEdit(s.live.(nextFile := n + 1), edit), wal := [],
       manifest := s.manifest + [edit], disk := s.disk[n := es])
  }

  /** The store once the flush edit is applied. */
  ghost function Flushed(s: Sys, size: nat): Sys
    requires s.active.table != map[]
  {
    AfterFlush(s, size).(imms := s.imms + [s.active], wal := s.wal, flush := FlushApplied(s.active))
  }

  lemma FlushedSteps(s: Sys, size: nat)
    requires s.flush.FlushIdle? && s.active.table != map[]
    ensures After(s, [Rotate] + FlushSteps(size)) == Some(Flushed(s, size))
  {
    hide ApplyEdit, MaxSeq, Ascending, After, FlushEdit, TableMeta, Remaining;
    AfterNothing(s);
    AfterStep(s, [], Rotate);
    assert [] + [Rotate] == [Rotate];
    AfterStep(s, [Rotate], FinishTable(size));
    AfterStep(s, [Rotate] + [FinishTable(size)], LogFlush);
    AfterStep(s, [Rotate] + [FinishTable(size)] + [LogFlush], ApplyFlush);
    assert [Rotate] + FlushSteps(size) == [Rotate] + [FinishTable(size)] + [LogFlush] + [ApplyFlush];
  }

  /** A flush that nothing interrupts: its five steps lead to `AfterFlush`, for the same map. */
  lemma FlushSequence(s: Sys, m: KeyValues, size: nat)
    requires s.flush.FlushIdle? && s.active.table != map[] && Inv(s, m)
    ensures After(s, WholeFlush(size)) == Some(AfterFlush(s, size))
    ensures Inv(AfterFlush(s, size), m) && s.imms == []
    ensures Remaining([], Mem(s.nextId, map[])) == []
  {
    hide Inv, ApplyEdit, MaxSeq, Ascending, After, FlushEdit, TableMeta, Enabled, Do, Remaining, FlushSteps, Expected;
    IdleHasNoImmutables(s, m);
    FlushedSteps(s, size);
    FlushKeepsMap(s, m, size);
    var s4 := Flushed(s, size);
    assert Enabled(s4, Retire) by {
      CanRetire(s4);
    }
    RetireKeeps(s4, m);
    InvConsistent(s4, m);
    RetireQuietly(s4);
    AfterStep(s, [Rotate] + FlushSteps(size), Retire);
  }

  lemma CanRetire(s: Sys)
    requires s.flush.FlushApplied?
    ensures Enabled(s, Retire)
  {
  }

  lemma FlushKeepsMap(s: Sys, m: KeyValues, size: nat)
    requires After(s, [Rotate] + FlushSteps(size)).Some? && Inv(s, m)
    ensures Inv(After(s, [Rotate] + FlushSteps(size)).value, m)
  {
    hide Inv, After, Enabled;
    var acts := [Rotate] + FlushSteps(size);
    RunKeeps(s, m, acts);
    OnlyWritesChange(s, m, acts);
  }

  /** A run without writes and crashes keeps the map. */
  lemma {:induction false} OnlyWritesChange(s: Sys, m: KeyValues, acts: seq<Action>)
    requires After(s, acts).Some? && forall a | a in acts :: !a.Write? && a != Restart
    ensures Expected(s, m, acts) == m
  {
    hide Enabled, Do;
    if acts != [] {
      var init, last := acts[..|acts| - 1], acts[|acts| - 1];
      assert last in acts && forall a | a in init :: a in acts;
      OnlyWritesChange(s, m, init);
    }
  }

  lemma IdleHasNoImmutables(s: Sys, m: KeyValues)
    requires Inv(s, m) && s.flush.FlushIdle?
    ensures s.imms == []
  {
    hide LevelInv, Means, TableIn, Shadows;
  }

  lemma RetireQuietly(s: Sys)
    requires Enabled(s, Retire) && s.active.table == map[] && Consistent(s)
    ensures Do(s, Retire) == s.(imms := [], wal := [], flush := FlushIdle)
    ensures Remaining([], s.active) == []
  {
    hide StoreInv, WalInv, FlushFile, CompactInv, FilesApart, PendingInv, TableIn, Shadows, Fresher, Remaining,
         SortRecords;
    RetireStep(s);
    NothingRemains(s.active);
  }

  lemma NothingRemains(mem: Mem)
    requires mem.table == map[]
    ensures Remaining([], mem) == [] == SortRecords(RecordsOf(Ascending(mem.table)))
  {
    assert Ascending(mem.table) == [];
    assert RecordsOf([]) == [];
    assert MemRecords([]) + [] == [];
  }

  // ----- A compaction -----

  function RemoveNumbers(disk: Disk, numbers: seq<nat>): Disk {
    if numbers == [] then disk else RemoveNumbers(disk - {numbers[0]}, numbers[1..])
  }

  lemma {:induction false} RemovedNumbers(disk: Disk, numbers: seq<nat>)
    ensures forall n :: n in RemoveNumbers(disk, numbers) <==> n in disk && n !in numbers
    ensures forall n | n in RemoveNumbers(disk, numbers) :: RemoveNumbers(disk, numbers)[n] == disk[n]
  {
    if numbers != [] {
      RemovedNumbers(disk - {numbers[0]}, numbers[1..]);
    }
  }

  function RemoveSteps(n: nat): seq<Action> {
    if n == 0 then [] else RemoveSteps(n - 1) + [RemoveFile]
  }

  /** The first `n` replaced files are gone. */
  lemma {:induction false} RemoveSome(s: Sys, n: nat)
    requires s.compact.Removing? && n <= |s.compact.numbers|
    ensures After(s, RemoveSteps(n))
         == Some(s.(disk := RemoveNumbers(s.disk, s.compact.numbers[..n]), compact := Removing(s.compact.numbers[n..])))
  {
    hide After;
    var numbers := s.compact.numbers;
    if n == 0 {
      AfterNothing(s);
      assert numbers[0..] == numbers;
    } else {
      RemoveSome(s, n - 1);
      AfterStep(s, RemoveSteps(n - 1), RemoveFile);
      RemovedNumbers(s.disk, numbers[..n - 1]);
      RemovedNumbers(s.disk, numbers[..n]);
      assert numbers[..n] == numbers[..n - 1] + [numbers[n - 1]];
      assert RemoveNumbers(s.disk, numbers[..n]) == RemoveNumbers(s.disk, numbers[..n - 1]) - {numbers[n - 1]};
    }
  }

  lemma RemoveAll(s: Sys)
    requires s.compact.Removing?
    ensures After(s, RemoveSteps(|s.compact.numbers| + 1))
         == Some(s.(disk := RemoveNumbers(s.disk, s.compact.numbers), compact := CompactIdle))
  {
    hide After;
    var n := |s.compact.numbers|;
    RemoveSome(s, n);
    assert s.compact.numbers[..n] == s.compact.numbers;
    AfterStep(s, RemoveSteps(n), RemoveFile);
  }

  lemma {:induction false} RemoveAllKeeps(s: Sys, m: KeyValues)
    requires s.compact.Removing? && Inv(s, m)
    ensures Inv(s.(disk := RemoveNumbers(s.disk, s.compact.numbers), compact := CompactIdle), m)
    decreases |s.compact.numbers|
  {
    hide Inv;
    RemoveFileKeeps(s, m);
    if s.compact.numbers != [] {
      RemoveAllKeeps(Do(s, RemoveFile), m);
    }
  }

  /** The store once the edit of a compaction is applied and before any replaced file is removed. */
  ghost function Compacted(s: Sys, t: Task, size: nat): Sys {
    var out, n := Output(t, s.disk, |s.live.levels|), s.live.nextFile;
    var meta := if out == [] then None else Some(TableMeta(n, size, out));
    var edit := EditFor(t, meta);
    var next := if out == [] then n else n + 1;
    var disk := if out == [] then s.disk else s.disk[n := out];
    s.(live := ApplyEdit(s.live.(nextFile := next), edit), manifest := s.manifest + [edit], disk := disk,
       compact := Removing(FileNumbers(t.Files())))
  }

  ghost function AfterCompaction(s: Sys, t: Task, size: nat): Sys {
    var s' := Compacted(s, t, size);
    s'.(disk := RemoveNumbers(s'.disk, s'.compact.numbers), compact := CompactIdle)
  }

  /** The steps of a compaction up to the removal of files. */
  function MergeSteps(t: Task, size: nat): seq<Action> {
    [Pick(t)] + [FinishMerge(size)] + [LogCompaction] + [ApplyCompacted]
  }

  lemma MergedSteps(s: Sys, t: Task, size: nat)
    requires s.compact.CompactIdle? && TaskOK(s.live.levels, t)
    ensures After(s, MergeSteps(t, size)) == Some(Compacted(s, t, size))
  {
    hide ApplyEdit, Output, TaskOK, FileNumbers, EditFor, After, TableMeta;
    AfterNothing(s);
    AfterStep(s, [], Pick(t));
    assert [] + [Pick(t)] == [Pick(t)];
    AfterStep(s, [Pick(t)], FinishMerge(size));
    AfterStep(s, [Pick(t)] + [FinishMerge(size)], LogCompaction);
    AfterStep(s, [Pick(t)] + [FinishMerge(size)] + [LogCompaction], ApplyCompacted);
  }

  lemma MergeKeepsMap(s: Sys, m: KeyValues, t: Task, size: nat)
    requires After(s, MergeSteps(t, size)).Some? && Inv(s, m)
    ensures Inv(After(s, MergeSteps(t, size)).value, m)
  {
    hide Inv, After, Enabled;
    RunKeeps(s, m, MergeSteps(t, size));
    OnlyWritesChange(s, m, MergeSteps(t, size));
  }

  /** Up to the removal of files a compaction leads to `Compacted`, for the same map and with a lower weight. */
  lemma MergeSequence(s: Sys, m: KeyValues, t: Task, size: nat)
    requires s.compact.CompactIdle? && TaskOK(s.live.levels, t) && Inv(s, m)
    ensures After(s, MergeSteps(t, size)) == Some(Compacted(s, t, size))
    ensures Inv(Compacted(s, t, size), m)
    ensures 0 < t.target < |s.live.levels|
    ensures exists meta :: Compacted(s, t, size).live.levels == CompactLevels(s.live.levels, t, meta)
    ensures |Compacted(s, t, size).live.levels| == |s.live.levels|
    ensures Weight(Compacted(s, t, size).live.levels, 0) < Weight(s.live.levels, 0)
  {
    hide Inv, Weight, After, MergeSteps, Compacted, LevelInv, Replay;
    MergedSteps(s, t, size);
    MergeKeepsMap(s, m, t, size);
    CompactedLevels(s, t, size);
    assert Numbered(s.live.levels) by {
      InvNumbered(s, m);
    }
    var meta :| Compacted(s, t, size).live.levels == CompactLevels(s.live.levels, t, meta);
    CompactionLowersWeight(s.live.levels, t, meta);
  }

  lemma InvNumbered(s: Sys, m: KeyValues)
    requires Inv(s, m)
    ensures Numbered(s.live.levels)
  {
    hide MemInv, WalInv, FlushFile, CompactInv, FilesApart, PendingInv, Stands, Numbered, Recent, Stack, Chains,
         CleanBottom;
  }

  lemma CompactedLevels(s: Sys, t: Task, size: nat)
    requires TaskOK(s.live.levels, t)
    ensures 0 < t.target < |s.live.levels|
    ensures exists meta :: Compacted(s, t, size).live.levels == CompactLevels(s.live.levels, t, meta)
  {
    hide Output, EditFor, CompactLevels, TableMeta, ApplyEdit;
    var out, n := Output(t, s.disk, |s.live.levels|), s.live.nextFile;
    var meta := if out == [] then None else Some(TableMeta(n, size, out));
    ApplyCompaction(s.live.(nextFile := if out == [] then n else n + 1), t, meta);
  }

  /** A compaction that nothing interrupts: its steps lead to `AfterCompaction`, for the same map. */
  lemma CompactSequence(s: Sys, m: KeyValues, t: Task, size: nat)
    requires s.compact.CompactIdle? && TaskOK(s.live.levels, t) && Inv(s, m)
    ensures After(s, MergeSteps(t, size) + RemoveSteps(|t.Files()| + 1)) == Some(AfterCompaction(s, t, size))
    ensures Inv(AfterCompaction(s, t, size), m)
    ensures |AfterCompaction(s, t, size).live.levels| == |s.live.levels|
    ensures Weight(AfterCompaction(s, t, size).live.levels, 0) < Weight(s.live.levels, 0)
  {
    hide Inv, ApplyEdit, Output, TaskOK, Weight, RemoveNumbers, EditFor, After;
    MergeSequence(s, m, t, size);
    AfterJoin(s, MergeSteps(t, size), RemoveSteps(|t.Files()| + 1));
    RemoveAll(Compacted(s, t, size));
    RemoveAllKeeps(Compacted(s, t, size), m);
  }
}
