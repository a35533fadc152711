/** Whole runs of the engine: refinement of the map, crash recovery, and exactly where recovery loses writes. */
module Runs {
  import opened Keys
  import opened Entries
  import opened Versions
  import opened LevelStore
  import opened Meaning
  import opened Compaction
  import opened CompactionLaws
  import opened System
  import opened WalLaws
  import opened WriteLaws
  import opened FlushLaws
  import opened CompactLaws

  // ----- Runs -----

  /** The state after a list of steps, if each was enabled in turn. */
  ghost function After(s: Sys, acts: seq<Action>): Option<Sys> {
    if acts == [] then Some(s)
    else
      var before, last := After(s, acts[..|acts| - 1]), acts[|acts| - 1];
      if before.Some? && Enabled(before.value, last) then Some(Do(before.value, last)) else None
  }

  /** The map of all completed writes. */
  function ExpectAll(m: KeyValues, acts: seq<Action>): KeyValues {
    if acts == [] then m else Expect(ExpectAll(m, acts[..|acts| - 1]), acts[|acts| - 1])
  }

  /** The map a run leads to: writes act on it, and a crash leaves of it what it leaves. */
  ghost function Expected(s: Sys, m: KeyValues, acts: seq<Action>): KeyValues
    requires After(s, acts).Some?
  {
    if acts == [] then m
    else
      var init, last := acts[..|acts| - 1], acts[|acts| - 1];
      ExpectIn(After(s, init).value, Expected(s, m, init), last)
  }

  /** No crash falls between truncating the log and writing the remaining records back. */
  ghost predicate NoCrashInRewrite(s: Sys, acts: seq<Action>) {
    forall i | 0 <= i < |acts| && acts[i] == Restart ::
      After(s, acts[..i]).Some? ==> !After(s, acts[..i]).value.flush.Rewriting?
  }

  /** With no such crash a run leads to the map of all completed writes. */
  lemma {:induction false} ExpectedIsAllWrites(s: Sys, m: KeyValues, acts: seq<Action>)
    requires After(s, acts).Some? && NoCrashInRewrite(s, acts)
    ensures Expected(s, m, acts) == ExpectAll(m, acts)
  {
    hide Enabled, Do;
    if acts != [] {
      var init := acts[..|acts| - 1];
      assert forall i | 0 <= i < |init| :: init[..i] == acts[..i];
      assert acts[..|init|] == init;
      ExpectedIsAllWrites(s, m, init);
    }
  }

  function Fresh(maxLevels: nat): Sys {
    Recover([], [], map[], maxLevels)
  }

  lemma EmptyLevels(levels: Levels)
    requires |levels| >= 1 && forall i | 0 <= i < |levels| :: levels[i] == []
    ensures LevelInv(levels, map[]) && Live(levels, map[]) == {} && NumbersBelow(levels, 1)
  {
  }

  lemma FreshInv(maxLevels: nat)
    requires maxLevels >= 1
    ensures Inv(Fresh(maxLevels), map[])
  {
    hide LevelInv, LiveFrom, Shadows, NumbersBelow;
    var s := Fresh(maxLevels);
    EmptyLevels(s.live.levels);
    NoShadows({});
    NoContents();
    ReplayEmpty(0);
    assert Means({} + {}, map[]);
  }

  /** Every step keeps the invariant. */
  lemma StepKeeps(s: Sys, m: KeyValues, a: Action)
    requires Enabled(s, a) && Inv(s, m)
    ensures Inv(Do(s, a), ExpectIn(s, m, a))
  {
    hide Inv, Do, AfterCrash;
    match a
    case Write(ops) =>
      WriteAllKeeps(s, m, ops);
      assert Do(s, a) == WriteAll(s, ops) by {
        WriteStep(s, ops);
      }
    case Rotate => RotateKeeps(s, m);
    case FinishTable(size) => FinishTableKeeps(s, m, size);
    case LogFlush => LogFlushKeeps(s, m);
    case ApplyFlush => ApplyFlushKeeps(s, m);
    case Retire => RetireKeeps(s, m);
    case RewriteWal => RewriteKeeps(s, m);
    case Pick(t) => PickKeeps(s, m, t);
    case FinishMerge(size) => FinishMergeKeeps(s, m, size);
    case LogCompaction => LogCompactionKeeps(s, m);
    case ApplyCompacted => ApplyCompactedKeeps(s, m);
    case RemoveFile => RemoveFileKeeps(s, m);
    case Restart => RestartKeeps(s, m);
  }

  lemma WriteStep(s: Sys, ops: seq<BatchOp>)
    requires Enabled(s, Write(ops))
    ensures Do(s, Write(ops)) == WriteAll(s, ops)
  {
  }

  /** Safety over whole runs: writes, flushes, compactions and crashes in any interleaving. */
  lemma {:induction false} RunKeeps(s: Sys, m: KeyValues, acts: seq<Action>)
    requires Inv(s, m) && After(s, acts).Some?
    ensures Inv(After(s, acts).value, Expected(s, m, acts))
  {
    hide Inv, Enabled, Do, ExpectIn;
    if acts != [] {
      var init := acts[..|acts| - 1];
      RunKeeps(s, m, init);
      StepKeeps(After(s, init).value, Expected(s, m, init), acts[|acts| - 1]);
    }
  }

  // ----- Lookups -----

  /** Immutable memtables, newest first. */
  function ImmsGet(imms: seq<Mem>, k: Key): Option<Entry> {
    if imms == [] then None
    else if k in imms[|imms| - 1].table then Some(imms[|imms| - 1].table[k])
    else ImmsGet(imms[..|imms| - 1], k)
  }

  /** The first hit over the active memtable, the immutable memtables and the levels. */
  function FirstHit(s: Sys, k: Key): Option<Entry> {
    if k in s.active.table then Some(s.active.table[k])
    else
      var hit := ImmsGet(s.imms, k);
      if hit.Some? then hit else LevelsGet(s.live.levels, s.disk, k)
  }

  function AnswerOf(hit: Option<Entry>): Option<Bytes> {
    match hit
    case None => None
    case Some(e) => e.Answer()
  }

  function Get(s: Sys, k: Key): Option<Bytes> {
    AnswerOf(FirstHit(s, k))
  }

  /** Knowing the newest version of a key is knowing the map's answer for it. */
  lemma NewestAnswers(es: set<Entry>, m: KeyValues, k: Key, r: Option<Entry>)
    requires Means(es, m) && NewestIn(es, k, r)
    ensures AnswerOf(r) == Lookup(m, k)
  {
    if r.Some? {
      assert Top(es, r.value);
      assert Agrees(m, r.value);
    }
  }

  lemma TableNewest(t: Table, k: Key)
    requires WellFormed(t)
    ensures NewestIn(Contents(t), k, if k in t then Some(t[k]) else None)
  {
    ContentsHold(t);
  }

  lemma ImmsGetFrozen(s: Sys, k: Key)
    requires MemInv(s)
    ensures ImmsGet(s.imms, k) == if k in Frozen(s) then Some(Frozen(s)[k]) else None
  {
    hide TableIn, Shadows, Fresher, Live, MaxSeq, Replay, Contents;
    if HasFrozen(s) {
      assert s.imms[..0] == [];
    }
  }

  lemma NewestUnder(s: Sys, k: Key)
    requires Consistent(s)
    ensures NewestIn(InMemory(s), k, if k in s.active.table then Some(s.active.table[k]) else ImmsGet(s.imms, k))
  {
    hide LevelInv, LiveFrom, Replay, ReplayWal, Contents, Shadows, Fresher, WalInv, FlushFile, CompactInv, FilesApart;
    ImmsGetFrozen(s, k);
    TableNewest(s.active.table, k);
    TableNewest(Frozen(s), k);
    var r := if k in s.active.table then Some(s.active.table[k]) else None;
    var q := if k in Frozen(s) then Some(Frozen(s)[k]) else None;
    ActiveOverFrozen(s);
    NewestOfTwo(Contents(s.active.table), Contents(Frozen(s)), k, r, q);
  }

  lemma ActiveOverFrozen(s: Sys)
    requires Consistent(s)
    ensures forall x, y | x in Contents(s.active.table) && y in Contents(Frozen(s)) :: x.seqNo > y.seqNo
  {
    hide LevelInv, LiveFrom, Replay, ReplayWal, Shadows, Fresher, WalInv, FlushFile, CompactInv, FilesApart;
    MaxSeqBounds(Frozen(s));
  }

  /** First-hit lookup finds the newest version anywhere in the store. */
  lemma FirstHitNewest(s: Sys, k: Key)
    requires Consistent(s)
    ensures NewestIn(InMemory(s) + Live(s.live.levels, s.disk), k, FirstHit(s, k))
  {
    hide LevelInv, LiveFrom, InMemory, MemInv, WalInv, FlushFile, CompactInv, FilesApart, PendingInv, LevelsGet,
         ImmsGet;
    NewestUnder(s, k);
    FirstHitIsNewest(s.live.levels, s.disk, k);
    MemoryShadows(s);
    var r := if k in s.active.table then Some(s.active.table[k]) else ImmsGet(s.imms, k);
    NewestOfTwo(InMemory(s), Live(s.live.levels, s.disk), k, r, LevelsGet(s.live.levels, s.disk, k));
  }

  /** Refinement: a lookup answers what the map of all completed writes holds. */
  lemma GetAgrees(s: Sys, m: KeyValues, k: Key)
    requires Inv(s, m)
    ensures Get(s, k) == Lookup(m, k)
  {
    hide Consistent, Means, InMemory, Live, FirstHit;
    FirstHitNewest(s, k);
    NewestAnswers(InMemory(s) + Live(s.live.levels, s.disk), m, k, FirstHit(s, k));
  }

  /** Over every run from an empty store `get` answers as the expected map does: the map of the writes made so far, when
      no crash fell into a log rewrite. */
  lemma RunRefinesMap(maxLevels: nat, acts: seq<Action>, k: Key)
    requires maxLevels >= 1 && After(Fresh(maxLevels), acts).Some?
    ensures Get(After(Fresh(maxLevels), acts).value, k) == Lookup(Expected(Fresh(maxLevels), map[], acts), k)
    ensures NoCrashInRewrite(Fresh(maxLevels), acts) ==>
              Get(After(Fresh(maxLevels), acts).value, k) == Lookup(ExpectAll(map[], acts), k)
  {
    hide Inv, Get, Fresh, NoCrashInRewrite;
    FreshInv(maxLevels);
    RunKeeps(Fresh(maxLevels), map[], acts);
    GetAgrees(After(Fresh(maxLevels), acts).value, Expected(Fresh(maxLevels), map[], acts), k);
    if NoCrashInRewrite(Fresh(maxLevels), acts) {
      ExpectedIsAllWrites(Fresh(maxLevels), map[], acts);
    }
  }

  // ----- Crash recovery -----

  /** What the active memtable knows of a key is the current answer. */
  lemma ActiveIsCurrent(s: Sys, m: KeyValues, k: Key)
    requires Inv(s, m) && k in s.active.table
    ensures s.active.table[k].Answer() == Lookup(m, k)
  {
    hide Inv, LevelsGet, ImmsGet;
    GetAgrees(s, m, k);
  }

  lemma NewestShadowed(mem: set<Entry>, live: set<Entry>, k: Key, q: Option<Entry>)
    requires NewestIn(mem, k, None) && NewestIn(live, k, q)
    ensures NewestIn(mem + live, k, q)
  {
  }

  /** Whatever the flush and the compaction were doing, reopening recovers the map the crash left. */
  lemma RecoveryAgrees(s: Sys, m: KeyValues, k: Key)
    requires Inv(s, m)
    ensures Get(Recover(s.manifest, s.wal, s.disk, |s.live.levels|), k) == Lookup(AfterCrash(s, m), k)
  {
    hide Inv, Get, Recover, AfterCrash;
    assert Enabled(s, Restart);
    RestartKeeps(s, m);
    GetAgrees(Do(s, Restart), AfterCrash(s, m), k);
  }

  /** What is left after a crash in the rewrite: keys the active memtable does not know are as they were; the others
      fall back to what the tables of the logged version answer. */
  lemma CrashInRewriteLeaves(s: Sys, m: KeyValues, k: Key)
    requires Inv(s, m) && s.flush.Rewriting?
    ensures Lookup(AfterCrash(s, m), k)
         == if k in s.active.table then AnswerOf(LevelsGet(Logged(s).levels, s.disk, k)) else Lookup(m, k)
  {
    hide LevelInv, LiveFrom, Replay, ReplayWal, Means, Contents, FlushFile, CompactInv, FilesApart, PendingInv,
         LevelsGet;
    hide MapOf, Told, NewestIn, AnswerOf, Shadows, Fresher;
    var v := Logged(s);
    var hit := LevelsGet(v.levels, s.disk, k);
    FirstHitIsNewest(v.levels, s.disk, k);
    LiveTold(v.levels, s.disk);
    MapOfMeans(Live(v.levels, s.disk));
    NewestAnswers(Live(v.levels, s.disk), AfterCrash(s, m), k, hit);
    if k !in s.active.table {
      TableNewest(s.active.table, k);
      NewestShadowed(Contents(s.active.table), Live(v.levels, s.disk), k, hit);
      NewestAnswers(Contents(s.active.table) + Live(v.levels, s.disk), m, k, hit);
    }
  }

  /** A crash now changes no answer if and only if it does not fall into a log rewrite, or falls into one in which every
      key of the active memtable already has its answer in the tables of the logged version. */
  lemma CrashIsHarmlessIff(s: Sys, m: KeyValues)
    requires Inv(s, m)
    ensures (forall k :: Get(Recover(s.manifest, s.wal, s.disk, |s.live.levels|), k) == Get(s, k))
            <==> (s.flush.Rewriting? ==> forall k | k in s.active.table ::
                    AnswerOf(LevelsGet(Logged(s).levels, s.disk, k)) == s.active.table[k].Answer())
  {
    hide Inv, Get, Recover, AfterCrash, LevelsGet, AnswerOf, Logged;
    forall k ensures Get(s, k) == Lookup(m, k) {
      GetAgrees(s, m, k);
    }
    forall k ensures Get(Recover(s.manifest, s.wal, s.disk, |s.live.levels|), k) == Lookup(AfterCrash(s, m), k) {
      RecoveryAgrees(s, m, k);
    }
    forall k | k in s.active.table ensures s.active.table[k].Answer() == Lookup(m, k) {
      ActiveIsCurrent(s, m, k);
    }
    if s.flush.Rewriting? {
      forall k
        ensures Lookup(AfterCrash(s, m), k)
             == if k in s.active.table then AnswerOf(LevelsGet(Logged(s).levels, s.disk, k)) else Lookup(m, k)
      {
        CrashInRewriteLeaves(s, m, k);
      }
    } else {
      CrashOutsideRewrite(s, m);
    }
  }

  lemma CrashOutsideRewrite(s: Sys, m: KeyValues)
    requires !s.flush.Rewriting?
    ensures AfterCrash(s, m) == m
  {
  }

  /** The newest version of every key whose last write is in no logged table. */
  function Unlogged(s: Sys): Table {
    if s.flush.Rotated? || s.flush.TableDone? then Frozen(s) + s.active.table else s.active.table
  }

  /** An acknowledged write that is not in a table yet survives a crash now. */
  ghost predicate SurvivesCrash(s: Sys, e: Entry) {
    var r := Recover(s.manifest, s.wal, s.disk, |s.live.levels|);
    e in Contents(r.active.table) + Live(r.live.levels, r.disk)
  }

  /** Recovery keeps every unlogged write exactly when the crash does not fall between truncating the log and writing
      the remaining records back; there it loses all of them. */
  lemma UnflushedSurviveIff(s: Sys)
    requires Consistent(s)
    ensures (forall e | e in Contents(Unlogged(s)) :: SurvivesCrash(s, e)) <==> !s.flush.Rewriting?
    ensures s.flush.Rewriting? ==> forall e | e in Contents(Unlogged(s)) :: !SurvivesCrash(s, e)
  {
    hide LevelInv, LiveFrom, Replay, Means, CompactInv, FlushFile, FilesApart, PendingInv, Shadows, Fresher, MaxSeq;
    var d := Logged(s);
    TableBound(s.active.table, d.lastSeq, s.live.lastSeq);
    if s.flush.Rewriting? {
      assert ReplayWal(s.wal, d.lastSeq) == map[];
      NoContents();
      forall e | e in Contents(Unlogged(s)) ensures !SurvivesCrash(s, e) {
        assert e in Contents(s.active.table);
      }
      var k :| k in s.active.table;
      assert s.active.table[k] in Contents(Unlogged(s));
    } else {
      hide ReplayWal;
      var t := ReplayWal(s.wal, d.lastSeq);
      assert t == Unlogged(s);
      forall e | e in Contents(Unlogged(s)) ensures SurvivesCrash(s, e) {
        assert Recover(s.manifest, s.wal, s.disk, |s.live.levels|).active.table == t;
      }
    }
  }

  lemma AfterStep(s: Sys, acts: seq<Action>, a: Action)
    requires After(s, acts).Some? && Enabled(After(s, acts).value, a)
    ensures After(s, acts + [a]) == Some(Do(After(s, acts).value, a))
  {
    hide Enabled, Do;
    assert (acts + [a])[..|acts|] == acts;
  }

  /** A run followed by a run. */
  lemma {:induction false} AfterJoin(s: Sys, xs: seq<Action>, ys: seq<Action>)
    requires After(s, xs).Some?
    ensures After(s, xs + ys) == After(After(s, xs).value, ys)
  {
    hide Enabled, Do;
    if ys == [] {
      assert xs + ys == xs;
    } else {
      var init := ys[..|ys| - 1];
      AfterJoin(s, xs, init);
      assert (xs + ys)[..|xs + ys| - 1] == xs + init;
    }
  }

  lemma WriteSingle(s: Sys, op: BatchOp)
    requires !s.flush.Rewriting?
    ensures Enabled(s, Write([op])) && Do(s, Write([op])) == WriteOne(s, op)
  {
    assert [op][..0] == [];
    assert WriteAll(s, []) == s;
  }

  /** One write before the rotation and one during the flush. */
  function RacingWrites(k: Key, v: Bytes, w: Bytes): seq<Action> {
    [Write([Put(k, v)])] + [Rotate] + [Write([Put(k, w)])]
  }

  /** The steps of a flush after its rotation. */
  function FlushSteps(size: nat): seq<Action> {
    [FinishTable(size)] + [LogFlush] + [ApplyFlush]
  }

  ghost predicate Raced(s: Sys, k: Key) {
    s.flush.Rotated? && s.flush.frozen.table != map[] && k in s.active.table
  }

  lemma RacingWritesRace(s: Sys, k: Key, v: Bytes, w: Bytes)
    requires s.flush.FlushIdle?
    ensures var end := After(s, RacingWrites(k, v, w)); end.Some? && Raced(end.value, k)
  {
    hide After;
    assert After(s, []) == Some(s) by {
      AfterNothing(s);
    }
    var w1, w2 := Write([Put(k, v)]), Write([Put(k, w)]);
    WriteSingle(s, Put(k, v));
    AfterStep(s, [], w1);
    var s1 := WriteOne(s, Put(k, v));
    assert [] + [w1] == [w1];
    assert k in s1.active.table;
    AfterStep(s, [w1], Rotate);
    var s2 := Do(s1, Rotate);
    WriteSingle(s2, Put(k, w));
    AfterStep(s, [w1] + [Rotate], w2);
  }

  lemma FlushStepsRun(s: Sys, acts: seq<Action>, k: Key, size: nat)
    requires After(s, acts).Some? && Raced(After(s, acts).value, k)
    ensures var end := After(s, acts + FlushSteps(size));
            end.Some? && end.value.flush.FlushApplied? && k in end.value.active.table
  {
    hide After, Ascending, Replay, ApplyEdit, MaxSeq;
    var a1, a2, a3 := acts + [FinishTable(size)], acts + [FinishTable(size)] + [LogFlush], acts + FlushSteps(size);
    AfterStep(s, acts, FinishTable(size));
    AfterStep(s, a1, LogFlush);
    AfterStep(s, a2, ApplyFlush);
    assert a2 + [ApplyFlush] == a3;
  }

  /** The point where recovery loses writes is reachable. */
  lemma RewriteIsReachable(maxLevels: nat, k: Key, v: Bytes, w: Bytes, size: nat)
    requires maxLevels >= 1
    ensures var end := After(Fresh(maxLevels), RacingWrites(k, v, w) + FlushSteps(size) + [Retire]);
            end.Some? && end.value.flush.Rewriting? && k in end.value.active.table
  {
    hide After, Inv, LevelInv, Remaining, WithoutId;
    var s, acts := Fresh(maxLevels), RacingWrites(k, v, w) + FlushSteps(size);
    RacingWritesRace(s, k, v, w);
    FlushStepsRun(s, RacingWrites(k, v, w), k, size);
    AfterStep(s, acts, Retire);
    FreshInv(maxLevels);
    RunKeeps(s, map[], acts);
    InvConsistent(After(s, acts).value, Expected(s, map[], acts));
    RetireStore(After(s, acts).value);
  }

  lemma AfterNothing(s: Sys)
    ensures After(s, []) == Some(s)
  {
  }

  lemma InvConsistent(s: Sys, m: KeyValues)
    requires Inv(s, m)
    ensures Consistent(s)
  {
  }

  // ----- Sequential runs -----

  /** Writes are made only while no flush is under way, as a single caller makes them. */
  ghost predicate Sequential(s: Sys, acts: seq<Action>) {
    forall i | 0 <= i < |acts| && acts[i].Write? ::
      After(s, acts[..i]).Some? ==> After(s, acts[..i]).value.flush.FlushIdle?
  }

  ghost predicate QuietFlush(s: Sys) {
    !s.flush.Rewriting? && (HasFrozen(s) ==> s.active.table == map[])
  }

  lemma StepStaysQuiet(s: Sys, a: Action)
    requires Enabled(s, a) && QuietFlush(s) && Consistent(s) && (a.Write? ==> s.flush.FlushIdle?)
    ensures QuietFlush(Do(s, a))
  {
    hide StoreInv, WalInv, FlushFile, CompactInv, FilesApart, PendingInv, MemInv, TaskOK, ApplyEdit, Replay;
    match a
    case Write(ops) => WriteKeepsPhase(s, ops);
    case Retire => RetireStore(s);
    case _ =>
  }

  lemma {:induction false} WriteKeepsPhase(s: Sys, ops: seq<BatchOp>)
    ensures WriteAll(s, ops).flush == s.flush
  {
    if ops != [] {
      WriteKeepsPhase(s, ops[..|ops| - 1]);
    }
  }

  /** A sequential run never rewrites the log from live entries, so no crash point in it is excluded. */
  lemma {:induction false} SequentialKeeps(s: Sys, m: KeyValues, acts: seq<Action>)
    requires Inv(s, m) && QuietFlush(s) && After(s, acts).Some? && Sequential(s, acts)
    ensures Inv(After(s, acts).value, ExpectAll(m, acts)) && QuietFlush(After(s, acts).value)
  {
    hide Inv, Enabled, Do, Expect, ExpectIn, QuietFlush;
    if acts != [] {
      var init, last := acts[..|acts| - 1], acts[|acts| - 1];
      assert forall i | 0 <= i < |init| :: init[..i] == acts[..i];
      SequentialKeeps(s, m, init);
      assert acts[..|init|] == init;
      var t := After(s, init).value;
      assert !t.flush.Rewriting? by {
        QuietNotRewriting(t);
      }
      InvConsistent(t, ExpectAll(m, init));
      StepKeeps(t, ExpectAll(m, init), last);
      ExpectOutsideRewrite(t, ExpectAll(m, init), last);
      StepStaysQuiet(t, last);
    }
  }

  lemma ExpectOutsideRewrite(s: Sys, m: KeyValues, a: Action)
    requires !s.flush.Rewriting?
    ensures ExpectIn(s, m, a) == Expect(m, a)
  {
  }

  lemma QuietNotRewriting(s: Sys)
    requires QuietFlush(s)
    ensures !s.flush.Rewriting?
  {
  }

  /** Sequential use: after every run of writes, flush and compaction steps and crashes at any point, reads answer the
      map of the logged writes, and so would reads after one more crash. */
  lemma SequentialRunsRecover(maxLevels: nat, acts: seq<Action>, k: Key)
    requires maxLevels >= 1
    requires After(Fresh(maxLevels), acts).Some? && Sequential(Fresh(maxLevels), acts)
    ensures var s := After(Fresh(maxLevels), acts).value;
            && Get(s, k) == Lookup(ExpectAll(map[], acts), k)
            && Get(Recover(s.manifest, s.wal, s.disk, |s.live.levels|), k) == Lookup(ExpectAll(map[], acts), k)
  {
    hide Inv, Get, Fresh, Recover, Sequential;
    FreshInv(maxLevels);
    assert QuietFlush(Fresh(maxLevels)) by {
      FreshQuiet(maxLevels);
    }
    SequentialKeeps(Fresh(maxLevels), map[], acts);
    var s := After(Fresh(maxLevels), acts).value;
    QuietNotRewriting(s);
    CrashOutsideRewrite(s, ExpectAll(map[], acts));
    GetAgrees(s, ExpectAll(map[], acts), k);
    RecoveryAgrees(s, ExpectAll(map[], acts), k);
  }

  lemma FreshQuiet(maxLevels: nat)
    ensures QuietFlush(Fresh(maxLevels))
  {
  }

  // ----- What else a reopened store guarantees -----

  /** No flushed record is replayed over a newer one: everything replayed is newer than everything in a table, and the
      next sequence number exceeds every one that is logged or stored. */
  lemma RecoveredNumbersAreFresh(s: Sys)
    requires Consistent(s)
    ensures var r := Recover(s.manifest, s.wal, s.disk, |s.live.levels|);
            && (forall e, f | e in Contents(r.active.table) && f in Live(r.live.levels, r.disk) :: f.seqNo < e.seqNo)
            && SeqBound(Contents(r.active.table) + Live(r.live.levels, r.disk), r.live.lastSeq)
            && (forall x | x in s.wal :: x.seqNo <= r.live.lastSeq)
  {
    hide LevelInv, LiveFrom, Replay, ReplayWal, Means, CompactInv, FlushFile, FilesApart, PendingInv, MaxRecord;
    var d, r := Logged(s), Recover(s.manifest, s.wal, s.disk, |s.live.levels|);
    MaxRecordBounds(s.wal, d.lastSeq, s.live.lastSeq);
    ReplayIn(s.wal, d.lastSeq, MaxRecord(s.wal, d.lastSeq));
    TableBound(r.active.table, d.lastSeq, r.live.lastSeq);
  }

  lemma Reached(maxLevels: nat, acts: seq<Action>)
    requires maxLevels >= 1 && After(Fresh(maxLevels), acts).Some?
    ensures Consistent(After(Fresh(maxLevels), acts).value)
  {
    hide Inv, Fresh, After;
    FreshInv(maxLevels);
    RunKeeps(Fresh(maxLevels), map[], acts);
    InvConsistent(After(Fresh(maxLevels), acts).value, Expected(Fresh(maxLevels), map[], acts));
  }

  /** In every reachable state with no edit between the log and memory, the levels in memory are exactly the replay of
      the manifest; reopening rebuilds them. */
  lemma ReplayEqualsLive(maxLevels: nat, acts: seq<Action>)
    requires maxLevels >= 1 && After(Fresh(maxLevels), acts).Some?
    ensures var s := After(Fresh(maxLevels), acts).value;
            !s.flush.FlushLogged? && !s.compact.CompactLogged? ==>
              && Replay(s.manifest, |s.live.levels|).levels == s.live.levels
              && Recover(s.manifest, s.wal, s.disk, |s.live.levels|).live.levels == s.live.levels
  {
    hide StoreInv, MemInv, WalInv, FlushFile, CompactInv, FilesApart, Replay, ReplayWal, Fresh, After;
    Reached(maxLevels, acts);
  }

  /** In every reachable state live file numbers are pairwise distinct and below the next one to be given out, and so
      they are after reopening. */
  lemma FileNumbersFresh(maxLevels: nat, acts: seq<Action>)
    requires maxLevels >= 1 && After(Fresh(maxLevels), acts).Some?
    ensures var s := After(Fresh(maxLevels), acts).value;
            var r := Recover(s.manifest, s.wal, s.disk, |s.live.levels|);
            && Numbered(s.live.levels) && NumbersBelow(s.live.levels, s.live.nextFile)
            && Numbered(r.live.levels) && NumbersBelow(r.live.levels, r.live.nextFile)
  {
    hide MemInv, WalInv, FlushFile, CompactInv, FilesApart, PendingInv, Replay, ReplayWal, LiveFrom, MaxRecord;
    hide Recent, Stack, Chains, CleanBottom, FilesOK, Fresh, After;
    Reached(maxLevels, acts);
  }

  /** The level structure in every reachable state: below level 0 files are sorted and disjoint, every shallower
      version is newer, and the last of several levels holds no tombstone. */
  lemma LevelsOverRuns(maxLevels: nat, acts: seq<Action>)
    requires maxLevels >= 1 && After(Fresh(maxLevels), acts).Some?
    ensures var s := After(Fresh(maxLevels), acts).value;
            && |s.live.levels| >= 1
            && Chains(s.live.levels) && Stack(s.live.levels[0], s.disk) && Recent(s.live.levels, s.disk)
            && CleanBottom(s.live.levels, s.disk) && FilesOK(s.live.levels, s.disk)
  {
    hide Chains, Stack, Recent, CleanBottom, FilesOK, Fresh, After, MemInv, WalInv, FlushFile, CompactInv, FilesApart;
    Reached(maxLevels, acts);
  }
}
