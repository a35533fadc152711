/** What flushes and compactions make a scan miss, and exactly when it lists the right map (src/engine.rs:430-473). */
module ScanLaws {
  import opened Keys
  import opened Entries
  import opened Versions
  import opened LevelStore
  import opened Meaning
  import opened System
  import opened WriteLaws
  import opened Runs
  import opened Reader
  import opened Scanner

  // ----- What each step puts out of reach -----

  /** Entries still to be read in different places are different, except that a frozen memtable may also be in the
      tables when its flush was applied before the scan took its version. */
  ghost predicate KeptApart(c: ScanConfig) {
    match c.p
    case ReadTables(rest, seen) =>
      var files, active, frozen := FileEntries(rest, c.s.disk), Contents(c.s.active.table), Contents(Frozen(c.s));
      && Separate(rest, c.s.disk) && seen !! files
      && active !! seen + files + frozen
      && (c.late ==> c.s.flush.FlushApplied?)
      && (c.late || !c.s.flush.FlushApplied? ==> frozen !! seen + files)
    case ReadLast(seen) => Contents(c.s.active.table) !! seen
    case TakeTables => !c.late
    case Finished(_, _) => true
  }

  /** The entries a step of the engine takes away from a scan: the active memtable, rotated before its read; of the
      frozen memtable, retired before its read, what the tables of the scan do not hold; of a file, removed before its
      read, what the frozen memtable does not hold. */
  ghost function Lost(c: ScanConfig, a: Action): set<Entry> {
    match c.p
    case ReadTables(rest, seen) =>
      if a.Retire? then Contents(Frozen(c.s)) - (seen + FileEntries(rest, c.s.disk))
      else RemovedFrom(c.s, a, rest) - Contents(Frozen(c.s))
    case ReadLast(_) => if a.Rotate? then Contents(c.s.active.table) else {}
    case _ => {}
  }

  lemma StoreApart(s: Sys)
    requires Consistent(s)
    ensures Contents(s.active.table) !! Contents(Frozen(s)) + Live(s.live.levels, s.disk)
    ensures !s.flush.FlushApplied? ==> Contents(Frozen(s)) !! Live(s.live.levels, s.disk)
  {
    hide LevelInv, LiveFrom, Replay, WalInv, FlushFile, CompactInv, FilesApart, PendingInv, MaxSeq, Shadows;
    ActiveOverFrozen(s);
    TableBound(s.active.table, Logged(s).lastSeq, s.live.lastSeq);
    if s.flush.FlushLogged? {
      AscendingFacts(Frozen(s));
      ContentsHold(Frozen(s));
    } else if HasFrozen(s) && !s.flush.FlushApplied? {
      TableBound(Frozen(s), Logged(s).lastSeq, s.live.lastSeq);
    }
  }

  lemma SeparateAfter(s: Sys, a: Action, rest: seq<FileMeta>)
    requires Enabled(s, a) && a != Restart && FilesBelow(rest, s.live.nextFile) && Separate(rest, s.disk)
    ensures Separate(rest, Do(s, a).disk)
  {
    hide Do, Enabled, Own, Removes;
    TablesAfter(s, a, rest);
  }

  lemma ApartEngine(c: ScanConfig, a: Action)
    requires Accounted(c) && KeptApart(c) && CanScan(c, Engine(a)) && !a.Write?
    ensures KeptApart(ScanEvent(c, Engine(a)))
  {
    hide Do, Enabled, Accounted, Contents, FileEntries, Frozen, Separate, RemovedFrom, Dropped, FilesBelow;
    MemoryAfter(c.s, a);
    NoContents();
    if c.p.ReadTables? {
      assert FilesBelow(c.p.rest, c.s.live.nextFile) by {
        AccountedBelow(c);
      }
      EntriesAfter(c.s, a, c.p.rest);
      SeparateAfter(c.s, a, c.p.rest);
    }
  }

  lemma AccountedBelow(c: ScanConfig)
    requires Accounted(c) && c.p.ReadTables?
    ensures FilesBelow(c.p.rest, c.s.live.nextFile)
    ensures SeqBound(Seen(c.p) + Unread(c.s, c.p), c.s.live.lastSeq)
  {
  }

  lemma ApartWrite(c: ScanConfig, ops: seq<BatchOp>)
    requires GoodScan(c) && KeptApart(c) && CanScan(c, Engine(Write(ops)))
    ensures KeptApart(ScanEvent(c, Engine(Write(ops))))
  {
    hide Inv, Means, Told, Contents, FileEntries, Frozen, Consistent, FilesBelow, Live, WriteAll, ApplyOps, Separate;
    InvConsistent(c.s, c.m);
    StoreTold(c.s);
    WriteKeepsDisk(c.s, ops);
    var s' := WriteAll(c.s, ops);
    assert Frozen(s') == Frozen(c.s) by {
      FrozenByPhase(c.s, s');
    }
    if c.p.ReadTables? || c.p.ReadLast? {
      var rest := Seen(c.p) + c.missed
                  + if c.p.ReadTables? then Contents(Frozen(c.s)) + FileEntries(c.p.rest, c.s.disk) else {};
      assert AllOf(c) == Contents(c.s.active.table) + rest;
      WritesRecorded(c.s, c.m, ops, rest);
      forall e | e in Contents(s'.active.table) && e !in Contents(c.s.active.table) ensures e !in AllOf(c) {
      }
    }
  }

  lemma ApartRead(c: ScanConfig)
    requires Inv(c.s, c.m) && KeptApart(c)
    ensures KeptApart(ScanStep(c))
  {
    hide Inv, Contents, FileEntries, Frozen, Consistent, LiveFrom, FilesFrom, Separate, LevelInv;
    InvConsistent(c.s, c.m);
    MemoryIssued(c.s);
    match c.p
    case TakeTables =>
      StoreApart(c.s);
      FilesFromMembers(c.s.live.levels, c.s.disk, 0);
      assert LevelInv(c.s.live.levels, c.s.disk) by {
        StoreLevels(c.s);
      }
      FilesFromSeparate(c.s.live.levels, c.s.disk, 0);
    case ReadTables(rest, seen) =>
      if rest != [] {
        ReadOne(rest, c.s.disk);
        ReadSeparate(rest, c.s.disk);
      }
    case _ =>
  }

  lemma StoreLevels(s: Sys)
    requires Consistent(s)
    ensures LevelInv(s.live.levels, s.disk)
  {
    hide MemInv, WalInv, LevelInv, FlushFile, CompactInv, FilesApart, PendingInv, Replay;
  }

  /** A step drops exactly the entries `Lost` names: all of a rotated memtable that was to be read last, all of a
      retired one whose flush was applied after the scan took its version, and nothing in any other way. */
  lemma DropsExactly(c: ScanConfig, a: Action)
    requires GoodScan(c) && KeptApart(c) && CanScan(c, Engine(a)) && !a.Write?
    ensures Dropped(c, a) == Lost(c, a)
    ensures c.p.ReadTables? && c.late && a.Retire? ==> Lost(c, a) == Contents(Frozen(c.s)) != {}
    ensures c.p.ReadLast? && a.Rotate? ==> Lost(c, a) != {}
  {
    hide Inv, Do, Enabled, Accounted, Contents, Frozen, Consistent, Separate, FilesBelow, FileEntries, RemovedFrom;
    MemoryAfter(c.s, a);
    NoContents();
    InvConsistent(c.s, c.m);
    MemoryIssued(c.s);
    SomeContents(c.s.active.table);
    SomeContents(Frozen(c.s));
    FrozenMeansHas(c.s);
    if c.p.ReadTables? {
      AccountedBelow(c);
      EntriesAfter(c.s, a, c.p.rest);
      RemovedApart(c.s, a, c.p.rest);
      if !a.RemoveFile? {
        assert RemovedFrom(c.s, a, c.p.rest) == {} by {
          NothingRemoved(c.s, a, c.p.rest);
        }
      }
    }
  }

  lemma SomeContents(t: Table)
    ensures t != map[] ==> Contents(t) != {}
  {
    if k :| k in t {
      assert t[k] in Contents(t);
    }
  }

  lemma FrozenMeansHas(s: Sys)
    ensures s.flush.FlushApplied? ==> HasFrozen(s)
  {
  }

  lemma NothingRemoved(s: Sys, a: Action, rest: seq<FileMeta>)
    requires !a.RemoveFile?
    ensures RemovedFrom(s, a, rest) == {}
  {
  }

  /** What is left of the files shares nothing with what was removed. */
  lemma RemovedApart(s: Sys, a: Action, rest: seq<FileMeta>)
    requires Enabled(s, a) && a != Restart && FilesBelow(rest, s.live.nextFile) && Separate(rest, s.disk)
    ensures RemovedFrom(s, a, rest) !! FileEntries(rest, Do(s, a).disk)
  {
    hide Do, Enabled;
    TablesAfter(s, a, rest);
    forall x, y | x in RemovedFrom(s, a, rest) && y in FileEntries(rest, Do(s, a).disk) ensures x != y {
      var f :| f in rest && Removes(s, a, f) && x in Es(s.disk, f);
      var g :| g in rest && y in Es(Do(s, a).disk, g);
      assert y in Own(Do(s, a).disk, g);
      assert y in Own(s.disk, g);
      var i :| 0 <= i < |rest| && rest[i] == f;
      var j :| 0 <= j < |rest| && rest[j] == g;
      assert i != j;
      assert Own(s.disk, f) !! Own(s.disk, g);
    }
  }

  // ----- Whole scans -----

  lemma ScanEventKeeps(c: ScanConfig, e: Event)
    requires GoodScan(c) && KeptApart(c) && CanScan(c, e)
    ensures GoodScan(ScanEvent(c, e)) && KeptApart(ScanEvent(c, e))
  {
    hide Inv, Accounted, KeptApart, Do, Expect, ScanStep, Dropped;
    match e
    case Read =>
      ScanReadKeeps(c);
      ApartRead(c);
      ScanStepStore(c);
    case Engine(a) =>
      StepKeeps(c.s, c.m, a);
      if a.Write? {
        ScanWriteKeeps(c, a.ops);
        ApartWrite(c, a.ops);
      } else {
        ScanEngineKeeps(c, a);
        ApartEngine(c, a);
      }
  }

  lemma ScanStepStore(c: ScanConfig)
    ensures ScanStep(c).s == c.s && ScanStep(c).m == c.m && ScanStep(c).missed == c.missed
  {
  }

  lemma {:induction false} ScanKeeps(c: ScanConfig, events: seq<Event>)
    requires GoodScan(c) && KeptApart(c) && ScanRun(c, events).Some?
    ensures GoodScan(ScanRun(c, events).value) && KeptApart(ScanRun(c, events).value)
  {
    hide GoodScan, KeptApart, CanScan, ScanEvent;
    if events != [] {
      var init, last := events[..|events| - 1], events[|events| - 1];
      ScanKeeps(c, init);
      ScanEventKeeps(ScanRun(c, init).value, last);
    }
  }

  lemma BeginGood(s: Sys, m: KeyValues)
    requires Inv(s, m)
    ensures GoodScan(BeginScan(s, m)) && KeptApart(BeginScan(s, m))
  {
  }

  /** Beside writes, flush steps and compaction steps, what a scan has seen and what it has missed have no version in
      common and stand together for the map at the moment of its last read. */
  lemma ScanSeesAllButMissed(s: Sys, m: KeyValues, events: seq<Event>)
    requires Inv(s, m) && ScanRun(BeginScan(s, m), events).Some?
    ensures var end := ScanRun(BeginScan(s, m), events).value;
            end.p.Finished? ==>
              && end.p.seen !! end.missed && Told(end.p.seen + end.missed)
              && Means(end.p.seen + end.missed, end.p.m)
              && Means(end.p.seen, MapOf(end.p.seen))
  {
    hide Inv, ScanRun, BeginScan, KeptApart;
    BeginGood(s, m);
    ScanKeeps(BeginScan(s, m), events);
    var end := ScanRun(BeginScan(s, m), events).value;
    if end.p.Finished? {
      FinishedScan(end);
    }
  }

  lemma FinishedScan(c: ScanConfig)
    requires Accounted(c) && c.p.Finished?
    ensures c.p.seen !! c.missed && Told(c.p.seen + c.missed) && Means(c.p.seen + c.missed, c.p.m)
    ensures Means(c.p.seen, MapOf(c.p.seen))
  {
    hide Means, MapOf;
    assert AllOf(c) == c.p.seen + c.missed;
    MapOfMeans(c.p.seen);
  }

  /** The answer a scan that has seen `es` gives for a key. */
  ghost function SeenAnswer(es: set<Entry>, k: Key): Option<Bytes> {
    if k in KeysOf(es) then NewestOf(es, k).Answer() else None
  }

  /** What a scan lists is the map as it stood at its last read if and only if every version it missed, and nothing it
      saw supersedes, has the answer of the newest version of its key that it saw. */
  lemma ScanIsRightIff(s: Sys, m: KeyValues, events: seq<Event>)
    requires Inv(s, m) && ScanRun(BeginScan(s, m), events).Some?
    requires ScanRun(BeginScan(s, m), events).value.p.Finished?
    ensures var end := ScanRun(BeginScan(s, m), events).value;
            MapOf(end.p.seen) == end.p.m
            <==> forall e | e in end.missed && Top(end.p.seen + end.missed, e) ::
                   SeenAnswer(end.p.seen, e.key) == e.Answer()
  {
    hide Inv, ScanRun, BeginScan;
    ScanSeesAllButMissed(s, m, events);
    var end := ScanRun(BeginScan(s, m), events).value;
    ListedIff(end.p.seen, end.missed, end.p.m);
  }

  lemma ListedIff(seen: set<Entry>, missed: set<Entry>, m: KeyValues)
    requires Means(seen + missed, m) && Told(seen + missed) && seen !! missed
    ensures MapOf(seen) == m
            <==> forall e | e in missed && Top(seen + missed, e) :: SeenAnswer(seen, e.key) == e.Answer()
  {
    hide MapOf, NewestOf, SeenAnswer;
    forall k ensures Lookup(MapOf(seen), k) == SeenAnswer(seen, k) {
      ListedAnswer(seen, k);
    }
    forall e | Top(seen + missed, e) ensures Lookup(m, e.key) == e.Answer() {
      assert Agrees(m, e);
    }
    if forall e | e in missed && Top(seen + missed, e) :: SeenAnswer(seen, e.key) == e.Answer() {
      forall k ensures Lookup(MapOf(seen), k) == Lookup(m, k) {
        KeyListed(seen, missed, m, k);
      }
      SameLookups(MapOf(seen), m);
    }
  }

  lemma ListedAnswer(es: set<Entry>, k: Key)
    ensures Lookup(MapOf(es), k) == SeenAnswer(es, k)
  {
  }

  lemma KeyListed(seen: set<Entry>, missed: set<Entry>, m: KeyValues, k: Key)
    requires Means(seen + missed, m) && Told(seen + missed)
    requires forall e | e in missed && Top(seen + missed, e) :: SeenAnswer(seen, e.key) == e.Answer()
    ensures SeenAnswer(seen, k) == Lookup(m, k)
  {
    if e :| e in seen + missed && e.key == k {
      var t := TopExists(seen + missed, e);
      assert Agrees(m, t);
      if t !in missed {
        assert t.key in KeysOf(seen);
        assert Top(seen, t);
        assert NewestOf(seen, k) == t;
      }
    }
  }

  ghost predicate NeverLoses(c: ScanConfig, events: seq<Event>) {
    forall i | 0 <= i < |events| && events[i].Engine? ::
      ScanRun(c, events[..i]).Some? ==> Lost(ScanRun(c, events[..i]).value, events[i].a) == {}
  }

  /** A scan misses nothing if and only if no step of the engine loses it anything. */
  lemma {:induction false} MissesNothingIff(c: ScanConfig, events: seq<Event>)
    requires GoodScan(c) && KeptApart(c) && c.missed == {} && ScanRun(c, events).Some?
    ensures ScanRun(c, events).value.missed == {} <==> NeverLoses(c, events)
  {
    hide GoodScan, KeptApart, CanScan, ScanEvent, Lost;
    if events != [] {
      var init, last := events[..|events| - 1], events[|events| - 1];
      assert forall i | 0 <= i < |init| :: init[..i] == events[..i];
      assert events[..|init|] == init;
      MissesNothingIff(c, init);
      ScanKeeps(c, init);
      MissesMore(ScanRun(c, init).value, last);
      assert NeverLoses(c, events)
        <==> NeverLoses(c, init) && (last.Engine? ==> Lost(ScanRun(c, init).value, last.a) == {});
    }
  }

  lemma MissesMore(c: ScanConfig, e: Event)
    requires GoodScan(c) && KeptApart(c) && CanScan(c, e)
    ensures ScanEvent(c, e).missed == {} <==> c.missed == {} && (e.Engine? ==> Lost(c, e.a) == {})
  {
    hide Inv, Accounted, KeptApart, Do, Expect, ScanStep, Dropped;
    match e
    case Read => ScanStepStore(c);
    case Engine(a) =>
      if a.Write? {
        WriteLoses(c, a);
      } else {
        DropsExactly(c, a);
      }
  }

  lemma WriteLoses(c: ScanConfig, a: Action)
    requires a.Write?
    ensures Lost(c, a) == {}
    ensures Enabled(c.s, a) ==> Dropped(c, a) == {}
  {
  }

  // ----- Scans that nothing passes -----

  /** The three ways a scan is passed: a flush whose edit came after the version was taken retires before the immutable
      memtables are read; a rotation falls between the reads of the immutable and the active memtables; a compaction
      removes a file of the version before it is read. */
  ghost predicate Passes(c: ScanConfig, e: Event) {
    e.Engine? &&
    match c.p
    case ReadTables(rest, _) => (c.late && e.a.Retire?) || exists f :: f in rest && Removes(c.s, e.a, f)
    case ReadLast(_) => e.a.Rotate?
    case _ => false
  }

  ghost predicate NeverPassed(c: ScanConfig, events: seq<Event>) {
    forall i | 0 <= i < |events| :: ScanRun(c, events[..i]).Some? ==> !Passes(ScanRun(c, events[..i]).value, events[i])
  }

  /** What is seen and still to be read stands for the map, without the frozen memtable once the tables of the scan
      have its entries. */
  ghost predicate Straight(c: ScanConfig) {
    match c.p
    case TakeTables => true
    case ReadTables(rest, seen) =>
      var active, tables := Contents(c.s.active.table), seen + FileEntries(rest, c.s.disk);
      && Means(active + (tables + Contents(Frozen(c.s))), c.m)
      && (!c.late && c.s.flush.FlushApplied? ==> Means(active + tables, c.m))
    case ReadLast(seen) => Means(Contents(c.s.active.table) + seen, c.m)
    case Finished(seen, m) => Means(seen, m)
  }

  lemma StraightEngine(c: ScanConfig, a: Action)
    requires GoodScan(c) && KeptApart(c) && Straight(c) && CanScan(c, Engine(a)) && !a.Write? && !Passes(c, Engine(a))
    ensures Straight(ScanEvent(c, Engine(a)))
  {
    hide Inv, Do, Enabled, Accounted, Contents, Frozen, Consistent, Separate, FilesBelow, FileEntries, Means, Dropped;
    hide RemovedFrom, Removes;
    MemoryAfter(c.s, a);
    NoContents();
    if c.p.ReadTables? {
      var tables := c.p.seen + FileEntries(c.p.rest, c.s.disk);
      AccountedBelow(c);
      EntriesAfter(c.s, a, c.p.rest);
      assert RemovedFrom(c.s, a, c.p.rest) == {} by {
        KeptWhole(c.s, a, c.p.rest);
      }
      assert FileEntries(c.p.rest, Do(c.s, a).disk) == FileEntries(c.p.rest, c.s.disk);
      assert tables + {} == tables;
      assert c.late ==> c.s.flush.FlushApplied?;
      if a.Rotate? {
        var active := Contents(c.s.active.table);
        assert {} + (tables + active) == active + (tables + {});
      }
    }
  }

  lemma KeptWhole(s: Sys, a: Action, rest: seq<FileMeta>)
    requires !exists f :: f in rest && Removes(s, a, f)
    ensures RemovedFrom(s, a, rest) == {}
  {
    hide Removes;
  }

  lemma StraightWrite(c: ScanConfig, ops: seq<BatchOp>)
    requires GoodScan(c) && Straight(c) && CanScan(c, Engine(Write(ops)))
    ensures Straight(ScanEvent(c, Engine(Write(ops))))
  {
    hide Inv, Means, Told, Contents, FileEntries, Frozen, Consistent, FilesBelow, Live, WriteAll, ApplyOps;
    InvConsistent(c.s, c.m);
    StoreTold(c.s);
    WriteKeepsDisk(c.s, ops);
    var s' := WriteAll(c.s, ops);
    assert Frozen(s') == Frozen(c.s) by {
      FrozenByPhase(c.s, s');
    }
    var active, n := Contents(c.s.active.table), c.s.live.lastSeq;
    if c.p.ReadTables? {
      var tables := c.p.seen + FileEntries(c.p.rest, c.s.disk);
      assert active + (tables + Contents(Frozen(c.s))) <= AllOf(c) && active + tables <= AllOf(c);
      RecordedPart(c.s, c.m, AllOf(c), tables + Contents(Frozen(c.s)));
      WritesRecorded(c.s, c.m, ops, tables + Contents(Frozen(c.s)));
      if !c.late && c.s.flush.FlushApplied? {
        RecordedPart(c.s, c.m, AllOf(c), tables);
        WritesRecorded(c.s, c.m, ops, tables);
      }
    } else if c.p.ReadLast? {
      assert active + c.p.seen <= AllOf(c);
      RecordedPart(c.s, c.m, AllOf(c), c.p.seen);
      WritesRecorded(c.s, c.m, ops, c.p.seen);
    }
  }

  lemma RecordedPart(s: Sys, m: KeyValues, es: set<Entry>, rest: set<Entry>)
    requires WellFormed(s.active.table) && Told(es) && SeqBound(es, s.live.lastSeq)
    requires Contents(s.active.table) + rest <= es && Means(Contents(s.active.table) + rest, m)
    ensures Recorded(s, m, rest)
  {
    hide Means, Contents;
  }

  lemma StraightRead(c: ScanConfig)
    requires Inv(c.s, c.m) && KeptApart(c) && Straight(c)
    ensures Straight(ScanStep(c))
  {
    hide Means, Contents, Frozen, Consistent, DurableTable, Logged, FilesFrom, FileEntries, LiveFrom, Separate;
    InvConsistent(c.s, c.m);
    MemoryIssued(c.s);
    var active, frozen := Contents(c.s.active.table), Contents(Frozen(c.s));
    match c.p
    case TakeTables =>
      var live := Live(c.s.live.levels, c.s.disk);
      FilesFromMembers(c.s.live.levels, c.s.disk, 0);
      assert {} + live == live;
      assert active + (live + frozen) == InMemory(c.s) + live;
    case ReadTables(rest, seen) =>
      if rest == [] {
        NoFiles(c.s.disk);
        assert active + (seen + {} + frozen) == active + (seen + frozen);
      } else {
        ReadOne(rest, c.s.disk);
        assert seen + Own(c.s.disk, rest[0]) + FileEntries(rest[1..], c.s.disk) == seen + FileEntries(rest, c.s.disk);
      }
    case ReadLast(seen) => assert seen + active == active + seen;
    case _ =>
  }

  lemma StraightKeeps(c: ScanConfig, e: Event)
    requires GoodScan(c) && KeptApart(c) && Straight(c) && CanScan(c, e) && !Passes(c, e)
    ensures Straight(ScanEvent(c, e))
  {
    hide Inv, Accounted, KeptApart, Straight, ScanEvent, Passes;
    match e
    case Read =>
      StraightRead(c);
      ReadEvent(c);
    case Engine(a) =>
      if a.Write? {
        StraightWrite(c, a.ops);
      } else {
        StraightEngine(c, a);
      }
  }

  lemma ReadEvent(c: ScanConfig)
    ensures ScanEvent(c, Read) == ScanStep(c)
  {
  }

  lemma {:induction false} StraightRun(c: ScanConfig, events: seq<Event>)
    requires GoodScan(c) && KeptApart(c) && Straight(c) && ScanRun(c, events).Some? && NeverPassed(c, events)
    ensures Straight(ScanRun(c, events).value)
  {
    hide GoodScan, KeptApart, Straight, CanScan, ScanEvent, Passes;
    if events != [] {
      var init, last := events[..|events| - 1], events[|events| - 1];
      assert forall i | 0 <= i < |init| :: init[..i] == events[..i];
      assert events[..|init|] == init;
      StraightRun(c, init);
      ScanKeeps(c, init);
      StraightKeeps(ScanRun(c, init).value, last);
    }
  }

  /** A scan that nothing passes lists the map as it stood at its last read. */
  lemma UnpassedScanIsRight(s: Sys, m: KeyValues, events: seq<Event>)
    requires Inv(s, m) && ScanRun(BeginScan(s, m), events).Some? && NeverPassed(BeginScan(s, m), events)
    ensures var end := ScanRun(BeginScan(s, m), events).value; end.p.Finished? ==> MapOf(end.p.seen) == end.p.m
  {
    hide Inv, Means, ScanRun, NeverPassed, GoodScan, KeptApart, MapOf;
    BeginGood(s, m);
    StraightRun(BeginScan(s, m), events);
    ScanSeesAllButMissed(s, m, events);
    var end := ScanRun(BeginScan(s, m), events).value;
    if end.p.Finished? {
      MeansUnique(end.p.seen, MapOf(end.p.seen), end.p.m);
    }
  }
}
