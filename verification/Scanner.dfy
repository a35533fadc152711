/** A `scan` split into its reads, running beside writes, flushes and compactions (src/engine.rs:430-473). It takes the
    version first and reads the active memtable last, so a flush can carry entries past it and a compaction can delete
    them ahead of it. */
module Scanner {
  import opened Keys
  import opened Entries
  import opened Versions
  import opened LevelStore
  import opened Meaning
  import opened Compaction
  import opened CompactionLaws
  import opened System
  import opened WriteLaws
  import opened FlushLaws
  import opened CompactLaws
  import opened Runs
  import opened Reader

  /** Which read comes next, with the entries seen so far: the version, the files of that version one by one and then
      the immutable memtables, the active memtable. */
  datatype ScanProgress =
    | TakeTables
    | ReadTables(rest: seq<FileMeta>, seen: set<Entry>)
    | ReadLast(seen: set<Entry>)
    | Finished(seen: set<Entry>, m: KeyValues)

  /** The store, the map it stands for, and the scan; whether the frozen memtable joined the tables after the scan took
      its version; and the entries that fell out of the reach of the scan. */
  datatype ScanConfig = ScanConfig(s: Sys, m: KeyValues, p: ScanProgress, late: bool, missed: set<Entry>)

  function BeginScan(s: Sys, m: KeyValues): ScanConfig {
    ScanConfig(s, m, TakeTables, false, {})
  }

  function FilesFrom(levels: Levels, i: nat): seq<FileMeta>
    requires i <= |levels|
    decreases |levels| - i
  {
    if i == |levels| then [] else levels[i] + FilesFrom(levels, i + 1)
  }

  ghost function ScanStep(c: ScanConfig): ScanConfig {
    match c.p
    case TakeTables => c.(p := ReadTables(FilesFrom(c.s.live.levels, 0), {}))
    case ReadTables(rest, seen) =>
      if rest == [] then c.(p := ReadLast(seen + MemEntries(c.s.imms)))
      else c.(p := ReadTables(rest[1..], seen + Own(c.s.disk, rest[0])))
    case ReadLast(seen) => c.(p := Finished(seen + Contents(c.s.active.table), c.m))
    case Finished(_, _) => c
  }

  ghost function Seen(p: ScanProgress): set<Entry> {
    if p.TakeTables? then {} else p.seen
  }

  /** What the remaining reads would see if nothing happened any more. */
  ghost function Unread(s: Sys, p: ScanProgress): set<Entry> {
    match p
    case TakeTables => InMemory(s) + Live(s.live.levels, s.disk)
    case ReadTables(rest, _) => InMemory(s) + FileEntries(rest, s.disk)
    case ReadLast(_) => Contents(s.active.table)
    case Finished(_, _) => {}
  }

  /** What a step of the engine puts out of the reach of the scan: entries still to be read before it that are neither
      seen nor still to be read after it. An entry that a write replaces in the memtable is not missed. */
  ghost function Dropped(c: ScanConfig, a: Action): set<Entry>
    requires Enabled(c.s, a)
  {
    if a.Write? || c.p.TakeTables? then {} else Unread(c.s, c.p) - Seen(c.p) - Unread(Do(c.s, a), c.p)
  }

  ghost predicate CanScan(c: ScanConfig, e: Event) {
    e.Engine? ==> Enabled(c.s, e.a) && e.a != Restart
  }

  predicate LateAfter(c: ScanConfig, a: Action) {
    c.p.ReadTables? && (a.ApplyFlush? || (c.late && !a.Retire?))
  }

  ghost function ScanEvent(c: ScanConfig, e: Event): ScanConfig
    requires CanScan(c, e)
  {
    match e
    case Read => ScanStep(c)
    case Engine(a) => ScanConfig(Do(c.s, a), Expect(c.m, a), c.p, LateAfter(c, a), c.missed + Dropped(c, a))
  }

  ghost function ScanRun(c: ScanConfig, events: seq<Event>): Option<ScanConfig> {
    if events == [] then Some(c)
    else
      var before, last := ScanRun(c, events[..|events| - 1]), events[|events| - 1];
      if before.Some? && CanScan(before.value, last) then Some(ScanEvent(before.value, last)) else None
  }

  // ----- The files of a version -----

  /** No two of the files share their number or an entry. */
  ghost predicate Separate(files: seq<FileMeta>, disk: Disk) {
    forall a, b | 0 <= a < b < |files| ::
      files[a].number != files[b].number && Own(disk, files[a]) !! Own(disk, files[b])
  }

  lemma {:induction false} FilesFromMembers(levels: Levels, disk: Disk, i: nat)
    requires i <= |levels|
    ensures forall f :: f in FilesFrom(levels, i) <==> exists j :: i <= j < |levels| && f in levels[j]
    ensures FileEntries(FilesFrom(levels, i), disk) == LiveFrom(levels, disk, i)
    decreases |levels| - i
  {
    if i < |levels| {
      hide FileEntries, LiveFrom;
      FilesFromMembers(levels, disk, i + 1);
      forall f ensures f in FilesFrom(levels, i) <==> exists j :: i <= j < |levels| && f in levels[j] {
        MemberSplit(levels, i, f);
      }
      LiveSplit(levels, disk, i);
      EntriesJoin(levels[i], FilesFrom(levels, i + 1), disk);
    } else {
      NoFiles(disk);
    }
  }

  lemma MemberSplit(levels: Levels, i: nat, f: FileMeta)
    requires i < |levels|
    ensures (exists j :: i <= j < |levels| && f in levels[j])
            <==> f in levels[i] || exists j :: i + 1 <= j < |levels| && f in levels[j]
  {
  }

  lemma EntriesJoin(xs: seq<FileMeta>, ys: seq<FileMeta>, disk: Disk)
    ensures FileEntries(xs + ys, disk) == FileEntries(xs, disk) + FileEntries(ys, disk)
  {
    assert forall f :: f in xs + ys <==> f in xs || f in ys;
  }

  lemma NoFiles(disk: Disk)
    ensures FileEntries([], disk) == {}
  {
  }

  /** Two files of a version that share no entry are two files. */
  lemma NumbersDiffer(levels: Levels, disk: Disk, i: nat, f: FileMeta, j: nat, g: FileMeta)
    requires LevelInv(levels, disk) && i < |levels| && j < |levels| && f in levels[i] && g in levels[j]
    requires Own(disk, f) !! Own(disk, g)
    ensures f.number != g.number
  {
    hide Recent, Stack, Chains, CleanBottom;
    assert MetaOK(disk, f);
    assert disk[f.number][0] in Own(disk, f);
  }

  lemma LevelSeparate(levels: Levels, disk: Disk, i: nat)
    requires LevelInv(levels, disk) && i < |levels|
    ensures Separate(levels[i], disk)
  {
    LevelFiles(levels, disk, i);
    hide LevelInv, MetaOK, Lt;
    var files := levels[i];
    forall a, b | 0 <= a < b < |files|
      ensures files[a].number != files[b].number && Own(disk, files[a]) !! Own(disk, files[b])
    {
      forall x, y | x in Own(disk, files[a]) && y in Own(disk, files[b]) ensures x != y {
        if i == 0 {
          assert Above(Es(disk, files[b]), Es(disk, files[a]));
        } else {
          ApartKeys(disk, files[a], files[b], x, y);
        }
      }
      NumbersDiffer(levels, disk, i, files[a], i, files[b]);
    }
  }

  lemma LevelsSeparate(levels: Levels, disk: Disk, i: nat, f: FileMeta, j: nat, g: FileMeta)
    requires LevelInv(levels, disk) && i < j < |levels| && f in levels[i] && g in levels[j]
    ensures f.number != g.number && Own(disk, f) !! Own(disk, g)
  {
    assert Own(disk, f) !! Own(disk, g) by {
      hide FilesOK, Numbered, Stack, Chains, CleanBottom;
      assert Above(Es(disk, f), Es(disk, g));
    }
    hide LevelInv;
    NumbersDiffer(levels, disk, i, f, j, g);
  }

  lemma SeparateJoin(xs: seq<FileMeta>, ys: seq<FileMeta>, disk: Disk)
    requires Separate(xs, disk) && Separate(ys, disk)
    requires forall x, y | x in xs && y in ys :: x.number != y.number && Own(disk, x) !! Own(disk, y)
    ensures Separate(xs + ys, disk)
  {
    hide Own;
  }

  lemma {:induction false} FilesFromSeparate(levels: Levels, disk: Disk, i: nat)
    requires LevelInv(levels, disk) && i <= |levels|
    ensures Separate(FilesFrom(levels, i), disk)
    decreases |levels| - i
  {
    hide LevelInv, Own;
    if i < |levels| {
      var rest := FilesFrom(levels, i + 1);
      LevelSeparate(levels, disk, i);
      FilesFromSeparate(levels, disk, i + 1);
      FilesFromMembers(levels, disk, i + 1);
      forall x, y | x in levels[i] && y in rest ensures x.number != y.number && Own(disk, x) !! Own(disk, y) {
        var j :| i + 1 <= j < |levels| && y in levels[j];
        LevelsSeparate(levels, disk, i, x, j, y);
      }
      hide Separate;
      SeparateJoin(levels[i], rest, disk);
    }
  }

  /** Reading one file moves its entries from those to be read to those seen. */
  lemma ReadOne(rest: seq<FileMeta>, disk: Disk)
    requires rest != []
    ensures FileEntries(rest, disk) == Own(disk, rest[0]) + FileEntries(rest[1..], disk)
  {
    assert rest == [rest[0]] + rest[1..];
  }

  lemma ReadSeparate(rest: seq<FileMeta>, disk: Disk)
    requires Separate(rest, disk) && rest != []
    ensures Separate(rest[1..], disk) && Own(disk, rest[0]) !! FileEntries(rest[1..], disk)
  {
    forall x, y | x in Own(disk, rest[0]) && y in FileEntries(rest[1..], disk) ensures x != y {
      var f :| f in rest[1..] && y in Es(disk, f);
      var b :| 0 <= b < |rest| - 1 && rest[1..][b] == f;
      assert Own(disk, rest[0]) !! Own(disk, rest[b + 1]);
    }
  }

  // ----- Nothing is unaccounted for -----

  ghost function AllOf(c: ScanConfig): set<Entry> {
    Seen(c.p) + c.missed + Unread(c.s, c.p)
  }

  /** Seen, missed and unread entries stand for the map together, told apart by their numbers, and what is missed stays
      missed. */
  ghost predicate Accounted(c: ScanConfig) {
    if c.p.TakeTables? then c.missed == {}
    else
      && Means(AllOf(c), if c.p.Finished? then c.p.m else c.m)
      && Told(AllOf(c)) && SeqBound(AllOf(c), c.s.live.lastSeq)
      && c.missed !! Seen(c.p) + Unread(c.s, c.p)
      && (c.p.ReadTables? ==> FilesBelow(c.p.rest, c.s.live.nextFile))
  }

  ghost predicate GoodScan(c: ScanConfig) {
    Inv(c.s, c.m) && Accounted(c)
  }

  /** Every version in the store is told apart from the others by its number. */
  lemma StoreTold(s: Sys)
    requires Consistent(s)
    ensures Told(InMemory(s) + Live(s.live.levels, s.disk))
    ensures WellFormed(s.active.table) && WellFormed(Frozen(s))
  {
    hide LevelInv, LiveFrom, Replay, WalInv, FlushFile, CompactInv, FilesApart, PendingInv, MaxSeq, Fresher;
    LiveTold(s.live.levels, s.disk);
    ActiveOverFrozen(s);
    MemoryShadows(s);
    ContentsHold(s.active.table);
    ContentsHold(Frozen(s));
  }

  lemma MemoryIssued(s: Sys)
    requires Consistent(s)
    ensures SeqBound(InMemory(s) + Live(s.live.levels, s.disk), s.live.lastSeq)
    ensures MemEntries(s.imms) == Contents(Frozen(s))
    ensures HasFrozen(s) ==> Frozen(s) != map[]
  {
    hide LevelInv, LiveFrom, Replay, WalInv, FlushFile, CompactInv, FilesApart, PendingInv, Shadows, Fresher, MaxSeq;
    TableBound(s.active.table, Logged(s).lastSeq, s.live.lastSeq);
    TableBound(Frozen(s), 0, s.live.lastSeq);
    NoContents();
    if HasFrozen(s) {
      assert s.imms[1..] == [];
    }
  }

  lemma NumbersGrow(s: Sys, a: Action)
    requires Enabled(s, a) && a != Restart
    ensures Do(s, a).live.lastSeq >= s.live.lastSeq
  {
    hide Ascending, Output, AddFiles, DeleteFiles, Remaining, TaskOK;
    match a
    case Write(ops) => WriteCounts(s, ops);
    case ApplyFlush => EditGrows(s.live, FlushEdit(s.flush.meta, MaxSeq(s.flush.frozen.table)));
    case ApplyCompacted => EditGrows(s.live, EditFor(s.compact.task, s.compact.output));
    case _ =>
  }

  lemma {:induction false} WriteCounts(s: Sys, ops: seq<BatchOp>)
    ensures WriteAll(s, ops).live.lastSeq == s.live.lastSeq + |ops|
  {
    if ops != [] {
      WriteCounts(s, ops[..|ops| - 1]);
    }
  }

  /** What a step does to the two memtables a scan has yet to read. */
  lemma MemoryAfter(s: Sys, a: Action)
    requires Enabled(s, a) && a != Restart && !a.Write?
    ensures Do(s, a).active.table == if a.Rotate? then map[] else s.active.table
    ensures Frozen(Do(s, a)) == if a.Rotate? then s.active.table else if a.Retire? then map[] else Frozen(s)
    ensures a.Rotate? ==> Frozen(s) == map[] && s.active.table != map[] && !Do(s, a).flush.FlushApplied?
    ensures a.Retire? ==> s.flush.FlushApplied? && !Do(s, a).flush.FlushApplied?
    ensures !a.Retire? && s.flush.FlushApplied? ==> Do(s, a).flush.FlushApplied?
    ensures !s.flush.FlushApplied? && Do(s, a).flush.FlushApplied? ==> a.ApplyFlush?
    ensures a.ApplyFlush? ==> Do(s, a).flush.FlushApplied?
    ensures a.Rotate? || a.ApplyFlush? ==> !s.flush.FlushApplied?
  {
    hide Ascending, Output, ApplyEdit, Remaining, TaskOK, MaxSeq, FileNumbers, WithoutId;
  }

  /** The step removes this file. */
  predicate Removes(s: Sys, a: Action, f: FileMeta) {
    a.RemoveFile? && s.compact.Removing? && s.compact.numbers != [] && s.compact.numbers[0] == f.number
  }

  /** Of the files a scan has yet to read a step changes nothing but to remove one. */
  lemma TablesAfter(s: Sys, a: Action, rest: seq<FileMeta>)
    requires Enabled(s, a) && a != Restart && FilesBelow(rest, s.live.nextFile)
    ensures forall f | f in rest :: Own(Do(s, a).disk, f) == if Removes(s, a, f) then {} else Own(s.disk, f)
    ensures FilesBelow(rest, Do(s, a).live.nextFile)
  {
    hide Ascending, Output, ApplyEdit, Remaining, TaskOK, MaxSeq;
    NextFileGrows(s, a);
    if a.Write? {
      WriteKeepsDisk(s, a.ops);
    }
  }

  /** The entries of the files among `rest` that the step removes. */
  ghost function RemovedFrom(s: Sys, a: Action, rest: seq<FileMeta>): set<Entry> {
    set f, e | f in rest && Removes(s, a, f) && e in Es(s.disk, f) :: e
  }

  lemma EntriesAfter(s: Sys, a: Action, rest: seq<FileMeta>)
    requires Enabled(s, a) && a != Restart && FilesBelow(rest, s.live.nextFile)
    ensures FileEntries(rest, Do(s, a).disk) <= FileEntries(rest, s.disk)
    ensures FileEntries(rest, s.disk) == FileEntries(rest, Do(s, a).disk) + RemovedFrom(s, a, rest)
  {
    hide Do, Enabled, Es, Removes;
    var disk, disk' := s.disk, Do(s, a).disk;
    TablesAfter(s, a, rest);
    forall e | e in FileEntries(rest, disk') ensures e in FileEntries(rest, disk) {
      var f :| f in rest && e in Es(disk', f);
      assert e in Own(disk', f);
      assert e in Own(disk, f);
    }
    forall e | e in FileEntries(rest, disk) ensures e in FileEntries(rest, disk') || e in RemovedFrom(s, a, rest) {
      var f :| f in rest && e in Es(disk, f);
      assert e in Own(disk, f);
      if !Removes(s, a, f) {
        assert e in Own(disk', f);
      }
    }
  }

  lemma UnreadShrinks(s: Sys, a: Action, p: ScanProgress)
    requires Enabled(s, a) && a != Restart && !a.Write? && !p.TakeTables?
    requires p.ReadTables? ==> FilesBelow(p.rest, s.live.nextFile)
    ensures Unread(Do(s, a), p) <= Unread(s, p)
  {
    hide Do, Enabled, Frozen, Contents, FileEntries, RemovedFrom;
    MemoryAfter(s, a);
    NoContents();
    if p.ReadTables? {
      EntriesAfter(s, a, p.rest);
    }
  }

  lemma DropConserves(seen: set<Entry>, missed: set<Entry>, before: set<Entry>, after: set<Entry>)
    requires after <= before && missed !! seen + before
    ensures seen + (missed + (before - seen - after)) + after == seen + missed + before
    ensures missed + (before - seen - after) !! seen + after
  {
  }

  lemma ScanEngineKeeps(c: ScanConfig, a: Action)
    requires GoodScan(c) && CanScan(c, Engine(a)) && !a.Write?
    ensures Accounted(ScanEvent(c, Engine(a)))
  {
    hide Inv, Means, Told, SeqBound, Unread, Seen, Do, Enabled, FilesBelow;
    if !c.p.TakeTables? {
      NumbersGrow(c.s, a);
      UnreadShrinks(c.s, a, c.p);
      DropConserves(Seen(c.p), c.missed, Unread(c.s, c.p), Unread(Do(c.s, a), c.p));
      assert AllOf(ScanEvent(c, Engine(a))) == AllOf(c);
      BoundUp(AllOf(c), c.s.live.lastSeq, Do(c.s, a).live.lastSeq);
      if c.p.ReadTables? {
        TablesAfter(c.s, a, c.p.rest);
      }
    }
  }

  /** The active memtable with entries that are all older than its next write and told apart. */
  ghost predicate Recorded(s: Sys, m: KeyValues, rest: set<Entry>) {
    && WellFormed(s.active.table)
    && Means(Contents(s.active.table) + rest, m)
    && Told(Contents(s.active.table) + rest)
    && SeqBound(Contents(s.active.table) + rest, s.live.lastSeq)
  }

  /** Writes act on what the active memtable and any older entries stand for together. */
  lemma {:induction false} WritesRecorded(s: Sys, m: KeyValues, ops: seq<BatchOp>, rest: set<Entry>)
    requires Recorded(s, m, rest)
    ensures Recorded(WriteAll(s, ops), ApplyOps(m, ops), rest)
    ensures forall e | e in Contents(WriteAll(s, ops).active.table) ::
              e in Contents(s.active.table) || e.seqNo > s.live.lastSeq
  {
    hide Recorded;
    if ops != [] {
      var init, op := ops[..|ops| - 1], ops[|ops| - 1];
      WritesRecorded(s, m, init, rest);
      WriteCounts(s, init);
      WriteRecorded(WriteAll(s, init), ApplyOps(m, init), op, rest);
    }
  }

  lemma WriteRecorded(s: Sys, m: KeyValues, op: BatchOp, rest: set<Entry>)
    requires Recorded(s, m, rest)
    ensures Recorded(WriteOne(s, op), ApplyOp(m, op), rest)
    ensures forall e | e in Contents(WriteOne(s, op).active.table) ::
              e in Contents(s.active.table) || e.seqNo == s.live.lastSeq + 1
  {
    hide Means, Contents, Told;
    WriteMeans(s.active.table, rest, m, op, s.live.lastSeq + 1);
    WriteTold(s.active.table, rest, EntryFor(op, s.live.lastSeq + 1), s.live.lastSeq);
  }

  lemma WriteTold(t: Table, rest: set<Entry>, e: Entry, n: nat)
    requires WellFormed(t) && Told(Contents(t) + rest) && SeqBound(Contents(t) + rest, n) && e.seqNo == n + 1
    ensures var t' := t[e.key := e];
            && WellFormed(t') && Told(Contents(t') + rest) && SeqBound(Contents(t') + rest, n + 1)
            && forall x | x in Contents(t') :: x in Contents(t) || x == e
  {
  }

  lemma ScanWriteKeeps(c: ScanConfig, ops: seq<BatchOp>)
    requires GoodScan(c) && CanScan(c, Engine(Write(ops)))
    ensures Accounted(ScanEvent(c, Engine(Write(ops))))
  {
    hide Inv, Means, Told, Contents, FileEntries, Frozen, Consistent, FilesBelow, Live, WriteAll, ApplyOps;
    InvConsistent(c.s, c.m);
    StoreTold(c.s);
    WriteKeepsDisk(c.s, ops);
    WriteCounts(c.s, ops);
    var c' := ScanEvent(c, Engine(Write(ops)));
    assert Frozen(c'.s) == Frozen(c.s) by {
      FrozenByPhase(c.s, c'.s);
    }
    if c.p.ReadTables? || c.p.ReadLast? {
      var rest := Seen(c.p) + c.missed
                  + if c.p.ReadTables? then Contents(Frozen(c.s)) + FileEntries(c.p.rest, c.s.disk) else {};
      assert AllOf(c) == Contents(c.s.active.table) + rest;
      WritesRecorded(c.s, c.m, ops, rest);
      assert AllOf(c') == Contents(c'.s.active.table) + rest;
    } else if c.p.Finished? {
      assert AllOf(c') == AllOf(c);
    }
  }

  lemma FrozenByPhase(s: Sys, s': Sys)
    requires s'.flush == s.flush
    ensures Frozen(s') == Frozen(s)
  {
  }

  /** A read moves entries from those to be read to those seen. */
  lemma ScanReadKeeps(c: ScanConfig)
    requires GoodScan(c)
    ensures Accounted(ScanStep(c))
  {
    hide Means, Told, Contents, SeqBound, Frozen, Consistent, DurableTable, Logged, FilesFrom, FilesBelow, FileEntries;
    hide LiveFrom;
    InvConsistent(c.s, c.m);
    MemoryIssued(c.s);
    match c.p
    case TakeTables =>
      StoreTold(c.s);
      FilesFromMembers(c.s.live.levels, c.s.disk, 0);
      assert FilesBelow(FilesFrom(c.s.live.levels, 0), c.s.live.nextFile) by {
        TakenBelow(c.s);
      }
      assert AllOf(ScanStep(c)) == InMemory(c.s) + Live(c.s.live.levels, c.s.disk);
    case ReadTables(rest, seen) =>
      if rest == [] {
        NoFiles(c.s.disk);
      } else {
        ReadOne(rest, c.s.disk);
        assert FilesBelow(rest[1..], c.s.live.nextFile) by {
          FewerFiles(rest, c.s.live.nextFile);
        }
      }
      assert AllOf(ScanStep(c)) == AllOf(c);
    case ReadLast(seen) => assert AllOf(ScanStep(c)) == AllOf(c);
    case _ =>
  }

  lemma TakenBelow(s: Sys)
    requires Consistent(s)
    ensures FilesBelow(FilesFrom(s.live.levels, 0), s.live.nextFile)
  {
    hide MemInv, WalInv, LevelInv, FlushFile, CompactInv, FilesApart, PendingInv, Replay, FilesFrom;
    FilesFromMembers(s.live.levels, s.disk, 0);
  }
}
