/** Writes, rotation and retirement: the memory side of the state machine. */
module WriteLaws {
  import opened Entries
  import opened Versions
  import opened LevelStore
  import opened Meaning
  import opened Compaction
  import opened CompactionLaws
  import opened System
  import opened WalLaws

  // ----- Writes -----

  /** A write that is newer than everything changes the meaning at its key and nowhere else. */
  lemma WriteMeans(t: Table, rest: set<Entry>, m: KeyValues, op: BatchOp, seqNo: nat)
    requires WellFormed(t) && Means(Contents(t) + rest, m)
    requires forall x | x in Contents(t) + rest :: x.seqNo < seqNo
    ensures Means(Contents(t[EntryFor(op, seqNo).key := EntryFor(op, seqNo)]) + rest, ApplyOp(m, op))
  {
    var e := EntryFor(op, seqNo);
    var u := t[e.key := e];
    ContentsHold(t);
    ContentsHold(u);
    forall x: Entry | x.key != e.key ensures x in Contents(u) + rest <==> x in Contents(t) + rest {
      assert Holds(u, x) <==> Holds(t, x);
    }
    assert Holds(u, e);
    MeansWrite(Contents(t) + rest, Contents(u) + rest, m, e);
  }

  lemma TableBound(t: Table, lo: nat, hi: nat)
    requires TableIn(t, lo, hi)
    ensures SeqBound(Contents(t), hi) && forall e | e in Contents(t) :: lo < e.seqNo
  {
  }

  lemma WriteStore(s: Sys, op: BatchOp)
    requires StoreInv(s) && FlushFile(s) && CompactInv(s) && FilesApart(s) && PendingInv(s)
    ensures var s' := WriteOne(s, op);
            StoreInv(s') && FlushFile(s') && CompactInv(s') && FilesApart(s') && PendingInv(s')
  {
    hide LevelInv, LiveFrom, Fresher, Shadows, Replay, MaxSeq, ReplayWal, TaskOK, Built, Unused, MetaFor, Means;
    assert Logged(WriteOne(s, op)) == Logged(s);
  }

  lemma WriteTable(t: Table, lo: nat, hi: nat, op: BatchOp, seqNo: nat)
    requires TableIn(t, lo, hi) && lo < seqNo && hi < seqNo
    ensures TableIn(t[EntryFor(op, seqNo).key := EntryFor(op, seqNo)], lo, seqNo)
  {
  }

  lemma WriteMem(s: Sys, op: BatchOp)
    requires MemInv(s) && StoreInv(s)
    ensures MemInv(WriteOne(s, op))
  {
    hide LevelInv, Live, Fresher, Shadows, Replay, MaxSeq;
    var n := s.live.lastSeq + 1;
    assert Logged(WriteOne(s, op)) == Logged(s);
    WriteTable(s.active.table, Logged(s).lastSeq, s.live.lastSeq, op, n);
    if s.flush.Rotated? || s.flush.TableDone? {
      MaxSeqBounds(Frozen(s));
      WriteTable(s.active.table, MaxSeq(Frozen(s)), s.live.lastSeq, op, n);
    }
  }

  lemma WriteWal(s: Sys, op: BatchOp)
    requires WalInv(s) && StoreInv(s) && MemInv(s) && !s.flush.Rewriting?
    ensures WalInv(WriteOne(s, op))
    ensures DurableTable(WriteOne(s, op))
            == DurableTable(s)[op.key := EntryFor(op, s.live.lastSeq + 1)]
  {
    hide LevelInv, LiveFrom, Fresher, Shadows, Replay, MaxSeq, ReplayWal, TaskOK, Built, Unused, MetaFor, Means;
    hide WalOK, TableIn, NumbersBelow, SeqBound, Contents, Ascending;
    var s' := WriteOne(s, op);
    var r := FromEntry(EntryFor(op, s.live.lastSeq + 1));
    assert Logged(s') == Logged(s);
    WalGrows(s.wal, r, s.live.lastSeq);
    ReplayAppended(s.wal, r, Logged(s).lastSeq);
    if s.flush.Rotated? || s.flush.TableDone? {
      FrozenBelow(s);
      ReplayAppended(s.wal, r, MaxSeq(Frozen(s)));
    }
  }

  lemma WalGrows(wal: seq<WalRecord>, r: WalRecord, hi: nat)
    requires WalOK(wal, hi) && r.seqNo == hi + 1
    ensures WalOK(wal + [r], hi + 1)
  {
  }

  lemma FrozenBelow(s: Sys)
    requires MemInv(s) && (s.flush.Rotated? || s.flush.TableDone?)
    ensures MaxSeq(Frozen(s)) <= s.live.lastSeq
  {
    hide Logged, Shadows, Fresher, MaxSeq;
    MaxSeqBounds(Frozen(s));
  }

  /** Every version the store knows was issued before the next sequence number. */
  lemma AllIssued(s: Sys)
    requires Consistent(s) && !s.flush.Rewriting?
    ensures var issued := s.live.lastSeq;
            && SeqBound(InMemory(s) + Live(s.live.levels, s.disk), issued)
            && SeqBound(Contents(DurableTable(s)) + Live(Logged(s).levels, s.disk), issued)
            && WellFormed(DurableTable(s))
  {
    hide LevelInv, LiveFrom, Fresher, Shadows, Replay, MaxSeq, ReplayWal, TaskOK, Built, Unused, MetaFor, Means;
    TableBound(s.active.table, Logged(s).lastSeq, s.live.lastSeq);
    TableBound(Frozen(s), 0, s.live.lastSeq);
    ReplayIn(s.wal, Logged(s).lastSeq, s.live.lastSeq);
    TableBound(DurableTable(s), Logged(s).lastSeq, s.live.lastSeq);
  }

  lemma WriteStands(s: Sys, m: KeyValues, op: BatchOp)
    requires Inv(s, m) && !s.flush.Rewriting?
    ensures Stands(WriteOne(s, op), ApplyOp(m, op))
  {
    hide LevelInv, LiveFrom, Fresher, Shadows, Replay, MaxSeq, ReplayWal, TaskOK, Built, Unused, MetaFor, Means,
         Contents;
    hide WalInv, DurableTable, CompactInv, FlushFile, FilesApart, PendingInv;
    var s' := WriteOne(s, op);
    var n := s.live.lastSeq + 1;
    assert Logged(s') == Logged(s);
    WriteWal(s, op);
    AllIssued(s);
    var live, logged := Live(s.live.levels, s.disk), Live(Logged(s).levels, s.disk);
    var rest := Contents(Frozen(s)) + live;
    assert InMemory(s) + live == Contents(s.active.table) + rest;
    assert InMemory(s') + live == Contents(s'.active.table) + rest;
    WriteMeans(s.active.table, rest, m, op, n);
    WriteMeans(DurableTable(s), logged, m, op, n);
    if s.flush.FlushApplied? {
      assert Contents(s.active.table) + live <= Contents(s.active.table) + rest;
      WriteMeans(s.active.table, live, m, op, n);
    }
  }

  lemma {:induction false} WriteAllKeeps(s: Sys, m: KeyValues, ops: seq<BatchOp>)
    requires Inv(s, m) && !s.flush.Rewriting?
    ensures Inv(WriteAll(s, ops), ApplyOps(m, ops))
    ensures WriteAll(s, ops).flush == s.flush && WriteAll(s, ops).live.lastSeq == s.live.lastSeq + |ops|
  {
    if ops != [] {
      var init, op := ops[..|ops| - 1], ops[|ops| - 1];
      WriteAllKeeps(s, m, init);
      var t := WriteAll(s, init);
      WriteStore(t, op);
      WriteMem(t, op);
      WriteWal(t, op);
      WriteStands(t, ApplyOps(m, init), op);
    }
  }

  // ----- Rotation -----

  /** What is above the flushed sequence numbers shadows what is stored. */
  lemma ShadowsByFloor(t: Table, stored: set<Entry>, lo: nat, hi: nat)
    requires TableIn(t, lo, hi) && SeqBound(stored, lo)
    ensures Shadows(Contents(t), stored)
  {
  }

  lemma RotateKeeps(s: Sys, m: KeyValues)
    requires Inv(s, m) && Enabled(s, Rotate)
    ensures Inv(Do(s, Rotate), m)
  {
    hide LevelInv, LiveFrom, Fresher, Shadows, Replay, MaxSeq, ReplayWal, TaskOK, Built, Unused, MetaFor, Means;
    var s' := Do(s, Rotate);
    var floor := Logged(s).lastSeq;
    assert Logged(s') == Logged(s);
    assert StoreInv(s') && FlushFile(s') && CompactInv(s') && FilesApart(s') && PendingInv(s');
    assert Frozen(s') == s.active.table;
    ShadowsByFloor(s.active.table, Live(s.live.levels, s.disk), floor, s.live.lastSeq);
    ReplayCovered(s.wal, floor, s.live.lastSeq);
    assert s.active.table + map[] == s.active.table;
    assert InMemory(s') == InMemory(s);
    assert DurableTable(s') == DurableTable(s);
  }

  // ----- Retirement -----

  lemma RetireStep(s: Sys)
    requires MemInv(s) && Enabled(s, Retire)
    ensures var rs := SortRecords(RecordsOf(Ascending(s.active.table)));
            Do(s, Retire) == s.(imms := [], wal := [], flush := if rs == [] then FlushIdle else Rewriting(rs))
  {
    hide LevelInv, LiveFrom, Fresher, Shadows, Replay, MaxSeq, SortRecords, RecordsOf, Ascending;
    assert WithoutId([s.flush.frozen], s.flush.frozen.id) == [];
    assert MemRecords([]) + RecordsOf(Ascending(s.active.table)) == RecordsOf(Ascending(s.active.table));
  }

  lemma NoContents()
    ensures Contents(map[]) == {}
  {
  }

  lemma NoShadows(stored: set<Entry>)
    ensures Shadows(Contents(map[]), stored)
  {
  }

  lemma RetireLog(s: Sys)
    requires MemInv(s) && WalInv(s) && Enabled(s, Retire)
    ensures var s' := Do(s, Retire);
            && WalInv(s') && DurableTable(s') == s.active.table == DurableTable(s)
            && (s'.flush.Rewriting? <==> s.active.table != map[])
  {
    hide Fresher, Shadows, Replay, MaxSeq, ReplayWal, SortRecords, RecordsOf, Ascending, Contents, LiveFrom, TableIn,
         WalOK;
    var s' := Do(s, Retire);
    RetireStep(s);
    assert Logged(s') == Logged(s);
    RewriteOrder(s.active.table, Logged(s).lastSeq, s.live.lastSeq);
    RewriteRecovers(s.active.table, Logged(s).lastSeq, s.live.lastSeq);
    ReplayEmpty(Logged(s).lastSeq);
    WalEmpty(s.live.lastSeq);
  }

  lemma ReplayEmpty(floor: nat)
    ensures ReplayWal([], floor) == map[]
  {
  }

  lemma WalEmpty(hi: nat)
    ensures WalOK([], hi)
  {
  }

  lemma RetireStore(s: Sys)
    requires Consistent(s) && Enabled(s, Retire)
    ensures Consistent(Do(s, Retire))
    ensures DurableTable(Do(s, Retire)) == s.active.table == DurableTable(s)
    ensures Do(s, Retire).flush.Rewriting? <==> s.active.table != map[]
  {
    hide StoreInv, MemInv, WalInv, FlushFile, CompactInv, FilesApart, PendingInv, Do, DurableTable;
    RetireLog(s);
    RetireMemory(s);
    RetireRest(s);
  }

  lemma RetireMemory(s: Sys)
    requires MemInv(s) && Enabled(s, Retire)
    ensures MemInv(Do(s, Retire))
  {
    hide LiveFrom, Fresher, Shadows, Replay, MaxSeq, SortRecords, RecordsOf, Ascending, Contents;
    RetireStep(s);
    assert Logged(Do(s, Retire)) == Logged(s);
    NoShadows(Live(s.live.levels, s.disk));
  }

  lemma RetireRest(s: Sys)
    requires Consistent(s) && Enabled(s, Retire)
    ensures var s' := Do(s, Retire); StoreInv(s') && FlushFile(s') && CompactInv(s') && FilesApart(s') && PendingInv(s')
  {
    hide LevelInv, LiveFrom, Replay, MaxSeq, TaskOK, Built, Unused, MetaFor, SortRecords, RecordsOf, Ascending,
         Contents;
    hide WalInv, SeqBound, NumbersBelow, TableIn, Shadows, Fresher;
    RetireStep(s);
    assert Logged(Do(s, Retire)) == Logged(s);
  }

  lemma RetireKeeps(s: Sys, m: KeyValues)
    requires Inv(s, m) && Enabled(s, Retire)
    ensures Inv(Do(s, Retire), m)
  {
    hide Consistent, LiveFrom, Replay, Means, Contents, SortRecords, Remaining, DurableTable;
    var s' := Do(s, Retire);
    RetireStore(s);
    assert Logged(s') == Logged(s);
    NoContents();
    assert InMemory(s') == Contents(s.active.table);
  }

  lemma RewriteKeeps(s: Sys, m: KeyValues)
    requires Inv(s, m) && Enabled(s, RewriteWal)
    ensures Inv(Do(s, RewriteWal), m)
  {
    hide LevelInv, LiveFrom, Fresher, Shadows, Replay, MaxSeq, ReplayWal, TaskOK, Built, Unused, MetaFor, Means;
    var s' := Do(s, RewriteWal);
    assert Logged(s') == Logged(s);
    assert s'.wal == s.flush.records;
    assert StoreInv(s') && FlushFile(s') && CompactInv(s') && FilesApart(s') && PendingInv(s');
    assert InMemory(s') == InMemory(s);
    assert DurableTable(s') == DurableTable(s);
  }

  // ----- Restart -----

  /** `s'` is `s` reopened from its durable state. */
  ghost predicate Reopened(s: Sys, s': Sys) {
    && Logged(s') == Logged(s) && |s'.live.levels| == |s.live.levels|
    && s'.live.levels == Logged(s).levels && s'.live.nextFile == Logged(s).nextFile
    && s'.live.lastSeq == MaxRecord(s.wal, Logged(s).lastSeq)
    && s'.wal == s.wal && s'.disk == s.disk
    && s'.flush.FlushIdle? && s'.compact.CompactIdle? && s'.imms == []
    && s'.active.id < s'.nextId && s'.active.table == ReplayWal(s.wal, Logged(s).lastSeq)
  }

  lemma RestartReopens(s: Sys)
    ensures Reopened(s, Do(s, Restart))
  {
    hide Replay, ReplayWal, MaxRecord;
  }

  lemma ReopenedStore(s: Sys, s': Sys)
    requires StoreInv(s) && WalInv(s) && PendingInv(s) && Reopened(s, s')
    ensures StoreInv(s') && MemInv(s')
  {
    hide LevelInv, Live, Fresher, Shadows, Replay, MaxSeq, ReplayWal, Contents, Pending, MaxRecord;
    var v := Logged(s);
    ReplayIn(s.wal, v.lastSeq, s.live.lastSeq);
    MaxRecordBounds(s.wal, v.lastSeq, s.live.lastSeq);
    ReplayIn(s.wal, v.lastSeq, s'.live.lastSeq);
    NoShadows(Live(v.levels, s.disk));
  }

  lemma ReopenedLog(s: Sys, s': Sys)
    requires StoreInv(s) && WalInv(s) && PendingInv(s) && Reopened(s, s')
    ensures WalInv(s') && FlushFile(s') && CompactInv(s') && FilesApart(s') && PendingInv(s')
  {
    hide LevelInv, Live, Fresher, Shadows, Replay, MaxSeq, ReplayWal, Contents, MaxRecord;
    MaxRecordBounds(s.wal, Logged(s).lastSeq, s.live.lastSeq);
  }

  lemma ReopenedStands(s: Sys, s': Sys, m: KeyValues)
    requires Reopened(s, s') && Means(Contents(ReplayWal(s.wal, Logged(s).lastSeq)) + Live(Logged(s).levels, s.disk), m)
    ensures Stands(s', m)
  {
    hide Live, Replay, ReplayWal, Means, Contents, MaxRecord;
    NoContents();
    assert InMemory(s') == Contents(s'.active.table);
  }

  /** What the durable state stands for. */
  lemma DurableMeans(s: Sys, m: KeyValues)
    requires Inv(s, m)
    ensures Means(Contents(ReplayWal(s.wal, Logged(s).lastSeq)) + Live(Logged(s).levels, s.disk), AfterCrash(s, m))
  {
    hide LevelInv, LiveFrom, Replay, ReplayWal, Means, Contents, MemInv, FlushFile, CompactInv, FilesApart, PendingInv;
    hide MapOf, Told, TableIn, WalOK;
    if s.flush.Rewriting? {
      LiveTold(Logged(s).levels, s.disk);
      MapOfMeans(Live(Logged(s).levels, s.disk));
      ReplayEmpty(Logged(s).lastSeq);
      NoContents();
      assert {} + Live(Logged(s).levels, s.disk) == Live(Logged(s).levels, s.disk);
    }
  }

  /** Opening the store on its durable state, whatever the crash interrupted. */
  lemma RestartKeeps(s: Sys, m: KeyValues)
    requires Enabled(s, Restart) && Inv(s, m)
    ensures Inv(Do(s, Restart), AfterCrash(s, m))
  {
    hide StoreInv, MemInv, WalInv, FlushFile, CompactInv, FilesApart, PendingInv, Stands, Reopened, Do, AfterCrash;
    DurableMeans(s, m);
    RestartReopens(s);
    ReopenedStore(s, Do(s, Restart));
    ReopenedLog(s, Do(s, Restart));
    ReopenedStands(s, Do(s, Restart), AfterCrash(s, m));
  }
}
