/** What a lookup can answer when a compaction deletes the files of its snapshot (src/engine.rs:172-207, 403-408). */
module Races {
  import opened Keys
  import opened Lists
  import opened Entries
  import opened Versions
  import opened LevelStore
  import opened Meaning
  import opened Compaction
  import opened CompactionLaws
  import opened System
  import opened WriteLaws
  import opened FlushLaws
  import opened Runs
  import opened Snapshots
  import opened Reader
  import opened Uninterrupted

  // ----- Writing and flushing one operation, several times -----

  /** Nothing is under way and nothing is in memory. */
  ghost predicate Quiet(s: Sys) {
    s.flush.FlushIdle? && s.compact.CompactIdle? && s.active.table == map[] && s.imms == []
  }

  function RoundSteps(op: BatchOp, size: nat): seq<Action> {
    [Write([op])] + WholeFlush(size)
  }

  ghost function AfterRound(s: Sys, op: BatchOp, size: nat): Sys {
    assert op.key in WriteOne(s, op).active.table;
    AfterFlush(WriteOne(s, op), size)
  }

  /** One more file on level 0; the other levels and their files are as they were. */
  ghost predicate Stacked(s: Sys, s': Sys, n: nat) {
    && |s'.live.levels| == |s.live.levels| >= 1
    && |s'.live.levels[0]| == |s.live.levels[0]| + n
    && (forall i | 1 <= i < |s.live.levels| :: s'.live.levels[i] == s.live.levels[i])
    && (forall i, f | 1 <= i < |s.live.levels| && f in s.live.levels[i] :: Es(s'.disk, f) == Es(s.disk, f))
  }

  lemma RoundRuns(s: Sys, m: KeyValues, op: BatchOp, size: nat)
    requires Quiet(s) && Inv(s, m)
    ensures After(s, RoundSteps(op, size)) == Some(AfterRound(s, op, size))
    ensures Inv(AfterRound(s, op, size), ApplyOp(m, op)) && Quiet(AfterRound(s, op, size))
    ensures Stacked(s, AfterRound(s, op, size), 1)
  {
    hide Inv, After, AfterFlush, WholeFlush, Stacked, Expect, AfterCrash;
    var s1 := WriteOne(s, op);
    assert op.key in s1.active.table;
    AfterNothing(s);
    WriteSingle(s, op);
    AfterStep(s, [], Write([op]));
    assert [] + [Write([op])] == [Write([op])];
    StepKeeps(s, m, Write([op]));
    ApplyOne(m, op);
    FlushSequence(s1, ApplyOp(m, op), size);
    AfterJoin(s, [Write([op])], WholeFlush(size));
    FlushQuiet(s1, size);
    InvConsistent(s, m);
    RoundStacks(s, op, size);
  }

  lemma ApplyOne(m: KeyValues, op: BatchOp)
    ensures Expect(m, Write([op])) == ApplyOp(m, op)
  {
    assert [op][..0] == [];
    assert ApplyOps(m, []) == m;
  }

  lemma FlushQuiet(s: Sys, size: nat)
    requires s.flush.FlushIdle? && s.compact.CompactIdle? && s.active.table != map[]
    ensures Quiet(AfterFlush(s, size))
  {
  }

  lemma RoundStacks(s: Sys, op: BatchOp, size: nat)
    requires Consistent(s)
    ensures Stacked(s, AfterRound(s, op, size), 1)
  {
    hide MemInv, WalInv, FlushFile, CompactInv, FilesApart, Pending, LevelInv, MaxSeq, Ascending, Replay;
    var s1 := WriteOne(s, op);
    var es, n := Ascending(s1.active.table), s1.live.nextFile;
    ApplyFlushEdit(s1.live.(nextFile := n + 1), TableMeta(n, size, es), MaxSeq(s1.active.table));
  }

  function Rounds(op: BatchOp, size: nat, n: nat): seq<Action> {
    if n == 0 then [] else Rounds(op, size, n - 1) + RoundSteps(op, size)
  }

  lemma {:induction false} RoundsRun(s: Sys, m: KeyValues, op: BatchOp, size: nat, n: nat)
    requires Quiet(s) && Inv(s, m)
    ensures After(s, Rounds(op, size, n)).Some?
    ensures var s' := After(s, Rounds(op, size, n)).value;
            Inv(s', if n == 0 then m else ApplyOp(m, op)) && Quiet(s') && Stacked(s, s', n)
  {
    hide Inv, After, Stacked, Quiet, AfterRound;
    if n == 0 {
      AfterNothing(s);
      InvConsistent(s, m);
      StackedNone(s);
    } else {
      RoundsRun(s, m, op, size, n - 1);
      var s1 := After(s, Rounds(op, size, n - 1)).value;
      RoundRuns(s1, if n == 1 then m else ApplyOp(m, op), op, size);
      AfterJoin(s, Rounds(op, size, n - 1), RoundSteps(op, size));
      StackedMore(s, s1, AfterRound(s1, op, size), n - 1);
      assert ApplyOp(ApplyOp(m, op), op) == ApplyOp(m, op);
    }
  }

  lemma StackedNone(s: Sys)
    requires Consistent(s)
    ensures Stacked(s, s, 0)
  {
    hide LevelInv, MemInv, WalInv, FlushFile, CompactInv, FilesApart;
  }

  lemma StackedMore(s: Sys, s1: Sys, s2: Sys, n: nat)
    requires Stacked(s, s1, n) && Stacked(s1, s2, 1)
    ensures Stacked(s, s2, n + 1)
  {
  }

  // ----- A lookup and a compaction -----

  function Engines(acts: seq<Action>): seq<Event> {
    seq(|acts|, i requires 0 <= i < |acts| => Engine(acts[i]))
  }

  /** Steps that write nothing leave a lookup where it is, with the same current answer. */
  lemma {:induction false} EnginesRun(c: Config, k: Key, acts: seq<Action>)
    requires After(c.s, acts).Some? && Lookup(c.m, k) in c.current
    requires forall a | a in acts :: !a.Write? && a != Restart
    ensures Interleave(c, k, Engines(acts)) == Some(c.(s := After(c.s, acts).value))
  {
    hide Enabled, Do;
    if acts != [] {
      var init, last := acts[..|acts| - 1], acts[|acts| - 1];
      assert last in acts && forall a | a in init :: a in acts;
      EnginesRun(c, k, init);
      assert Engines(acts)[..|init|] == Engines(init);
      assert Engines(acts)[|init|] == Engine(last);
      assert c.current + {Lookup(c.m, k)} == c.current;
    }
  }

  lemma {:induction false} InterleaveJoin(c: Config, k: Key, xs: seq<Event>, ys: seq<Event>)
    requires Interleave(c, k, xs).Some?
    ensures Interleave(c, k, xs + ys) == Interleave(Interleave(c, k, xs).value, k, ys)
  {
    hide Possible, AfterEvent;
    if ys == [] {
      assert xs + ys == xs;
    } else {
      var init := ys[..|ys| - 1];
      InterleaveJoin(c, k, xs, init);
      assert (xs + ys)[..|xs + ys| - 1] == xs + init;
    }
  }

  function Reads(n: nat): seq<Event> {
    if n == 0 then [] else [Read] + Reads(n - 1)
  }

  /** A lookup that finds nothing in memory takes its snapshot; then a compaction picked by the code runs up to the
      point where it has removed its first `n` files; then the lookup opens the files, of which there are `files`. */
  function Overtaken(t: Task, size: nat, n: nat, files: nat): seq<Event> {
    [Read, Read, Read] + Engines(MergeSteps(t, size) + RemoveSteps(n)) + Reads(files + 1)
  }

  ghost function Overtaking(s: Sys, t: Task, size: nat, n: nat): Sys
    requires n <= |t.Files()|
  {
    var s' := Compacted(s, t, size);
    s'.(disk := RemoveNumbers(s'.disk, FileNumbers(t.Files())[..n]), compact := Removing(FileNumbers(t.Files())[n..]))
  }

  lemma OvertakingSteps(s: Sys, m: KeyValues, t: Task, size: nat, n: nat)
    requires Quiet(s) && Inv(s, m) && TaskOK(s.live.levels, t) && n <= |t.Files()|
    ensures After(s, MergeSteps(t, size) + RemoveSteps(n)) == Some(Overtaking(s, t, size, n))
    ensures var end := Overtaking(s, t, size, n); end.active == s.active && end.imms == s.imms
  {
    hide Inv, After, TaskOK, ApplyEdit, Output, EditFor, RemoveNumbers, MergeSteps;
    MergeSequence(s, m, t, size);
    AfterJoin(s, MergeSteps(t, size), RemoveSteps(n));
    RemoveSome(Compacted(s, t, size), n);
  }

  lemma OvertakenRuns(s: Sys, m: KeyValues, k: Key, t: Task, size: nat, n: nat)
    requires Quiet(s) && Inv(s, m) && TaskOK(s.live.levels, t) && n <= |t.Files()|
    ensures Interleave(Begin(s, m, k), k, Overtaken(t, size, n, |SearchOrder(s.live.levels, k)|))
         == Some(Config(Overtaking(s, t, size, n), m,
                        Done(AnswerOf(LevelsGet(s.live.levels, Overtaking(s, t, size, n).disk, k))), {Lookup(m, k)}))
  {
    hide Inv, After, Interleave, TaskOK, ApplyEdit, Output, EditFor, RemoveNumbers, LevelsGet, MergeSteps, SearchOrder;
    hide Search, Reads;
    var order := SearchOrder(s.live.levels, k);
    var c := Begin(s, m, k);
    var c1 := c.(p := ReadFiles(order));
    SnapshotTaken(s, m, k);
    var acts := MergeSteps(t, size) + RemoveSteps(n);
    OvertakingSteps(s, m, t, size, n);
    NothingWritten(t, size, n);
    EnginesRun(c1, k, acts);
    InterleaveJoin(c, k, [Read, Read, Read], Engines(acts));
    var c2 := c1.(s := Overtaking(s, t, size, n));
    ReadsToEnd(c2, k, |order| + 1);
    InterleaveJoin(c, k, [Read, Read, Read] + Engines(acts), Reads(|order| + 1));
    SearchIsLevelsGet(s.live.levels, c2.s.disk, k);
  }

  lemma OneRead(c: Config, k: Key)
    ensures Interleave(c, k, [Read]) == Some(c.(p := ReadStep(c.s, k, c.p)))
  {
    hide ReadStep;
    assert Interleave(c, k, []) == Some(c);
    ReadAtEnd(c, k, []);
    assert [] + [Read] == [Read];
  }

  /** Left alone, a lookup opens its files to the end. */
  lemma {:induction false} ReadsToEnd(c: Config, k: Key, n: nat)
    requires c.p.Done? || (c.p.ReadFiles? && |c.p.rest| < n)
    ensures Interleave(c, k, Reads(n))
         == Some(if c.p.Done? then c else c.(p := Done(AnswerOf(Search(c.p.rest, c.s.disk, k)))))
    decreases n
  {
    hide Interleave;
    if n == 0 {
      assert Interleave(c, k, []) == Some(c) by {
        NoEventYet(c, k);
      }
    } else {
      OneRead(c, k);
      ReadsToEnd(c.(p := ReadStep(c.s, k, c.p)), k, n - 1);
      InterleaveJoin(c, k, [Read], Reads(n - 1));
    }
  }

  lemma NoEventYet(c: Config, k: Key)
    ensures Interleave(c, k, []) == Some(c)
  {
  }

  lemma NothingWritten(t: Task, size: nat, n: nat)
    ensures forall a | a in MergeSteps(t, size) + RemoveSteps(n) :: !a.Write? && a != Restart
  {
    OnlyRemovals(n);
  }

  lemma {:induction false} OnlyRemovals(n: nat)
    ensures forall a | a in RemoveSteps(n) :: a == RemoveFile
  {
    if n > 0 {
      OnlyRemovals(n - 1);
    }
  }

  lemma ReadAtEnd(c: Config, k: Key, events: seq<Event>)
    requires Interleave(c, k, events).Some?
    ensures var c' := Interleave(c, k, events).value;
            Interleave(c, k, events + [Read]) == Some(c'.(p := ReadStep(c'.s, k, c'.p)))
  {
    hide ReadStep, LevelsGet;
    assert (events + [Read])[..|events|] == events;
  }

  lemma SnapshotTaken(s: Sys, m: KeyValues, k: Key)
    requires Quiet(s)
    ensures Interleave(Begin(s, m, k), k, [Read, Read, Read])
         == Some(Begin(s, m, k).(p := ReadFiles(SearchOrder(s.live.levels, k))))
  {
    hide SearchOrder;
    var c := Begin(s, m, k);
    assert Interleave(c, k, []) == Some(c);
    ReadAtEnd(c, k, []);
    assert [] + [Read] == [Read];
    ReadAtEnd(c, k, [Read]);
    assert [Read] + [Read] == [Read, Read];
    ReadAtEnd(c, k, [Read, Read]);
    assert [Read, Read] + [Read] == [Read, Read, Read];
  }

  // ----- Two answers that were never current -----

  /** All of level 0, as the code picks it, with the files of level 1 it overlaps. */
  function LevelZeroTask(levels: Levels): Task
    requires |levels| >= 2 && levels[0] != []
  {
    Task(0, levels[0], 1, FindOverlapping(levels[1], MinKey(levels[0]), MaxKey(levels[0])))
  }

  lemma LevelZeroDue(c: Compactor, levels: Levels)
    requires |levels| >= 2 && |levels[0]| == 4 && c.l0Trigger == 4
    ensures Due(c, levels, LevelZeroTask(levels)) && TaskOK(levels, LevelZeroTask(levels))
  {
  }

  /** Removing the level-0 files of a version leaves the files of its other levels. */
  lemma LevelZeroRemoved(s: Sys, size: nat)
    requires Consistent(s) && |s.live.levels| >= 2 && s.live.levels[0] != []
    ensures var t := LevelZeroTask(s.live.levels);
            var left := Overtaking(s, t, size, |t.inputs|).disk;
            && (forall f | f in s.live.levels[0] :: Es(left, f) == [])
            && (forall i, f | 1 <= i < |s.live.levels| && f in s.live.levels[i] :: Es(left, f) == Es(s.disk, f))
  {
    hide MemInv, WalInv, FlushFile, CompactInv, FilesApart, PendingInv, Output, ApplyEdit, EditFor, FindOverlapping;
    hide RemoveNumbers, Recent, Stack, Chains, CleanBottom, Replay, MinKey, MaxKey;
    var levels, t := s.live.levels, LevelZeroTask(s.live.levels);
    var before, after := Compacted(s, t, size).disk, Overtaking(s, t, size, |t.inputs|).disk;
    var gone := FileNumbers(t.Files())[..|t.inputs|];
    assert gone == FileNumbers(levels[0]);
    RemovedNumbers(before, gone);
    forall i, f | 1 <= i < |levels| && f in levels[i] ensures Es(after, f) == Es(s.disk, f) {
      forall a | 0 <= a < |levels[0]| ensures levels[0][a].number != f.number {
        assert levels[0][a] in levels[0];
      }
    }
    forall f | f in levels[0] ensures Es(after, f) == [] {
      var a :| 0 <= a < |levels[0]| && levels[0][a] == f;
      assert gone[a] == f.number;
    }
  }

  /** Once the level-0 files of a snapshot are removed, the search of it starts at level 1. */
  lemma LevelZeroGone(s: Sys, k: Key, size: nat)
    requires Consistent(s) && |s.live.levels| >= 2 && s.live.levels[0] != []
    ensures var t := LevelZeroTask(s.live.levels);
            LevelsGet(s.live.levels, Overtaking(s, t, size, |t.inputs|).disk, k) == DeepGet(s.live.levels, s.disk, 1, k)
  {
    hide Consistent, LevelZeroTask, Overtaking, DeepGet;
    var levels, t := s.live.levels, LevelZeroTask(s.live.levels);
    var after := Overtaking(s, t, size, |t.inputs|).disk;
    LevelZeroRemoved(s, size);
    DeepGetSame(levels, levels, s.disk, after, 1, k);
    EmptyStack(levels[0], after, k);
  }

  lemma {:induction false} EmptyStack(files: seq<FileMeta>, disk: Disk, k: Key)
    requires forall f | f in files :: Es(disk, f) == []
    ensures StackGet(files, disk, k) == None
  {
    if files != [] {
      assert files[|files| - 1] in files;
      EmptyStack(files[..|files| - 1], disk, k);
    }
  }

  lemma DeepGetSame(levels: Levels, levels': Levels, disk: Disk, disk': Disk, i: nat, k: Key)
    requires i <= |levels| == |levels'| && forall j | i <= j < |levels| :: levels'[j] == levels[j]
    requires forall j, f | i <= j < |levels| && f in levels[j] :: Es(disk', f) == Es(disk, f)
    ensures DeepGet(levels', disk', i, k) == DeepGet(levels, disk, i, k)
  {
    DeepOrderSame(levels, levels', i, k);
    DeepOrderMembers(levels, i, k);
    SearchFrame(DeepOrder(levels, i, k), disk, disk', k);
    SearchDeep(levels, disk, i, k);
    SearchDeep(levels', disk', i, k);
  }

  lemma {:induction false} EmptyDeep(levels: Levels, disk: Disk, i: nat, k: Key)
    requires i <= |levels| && forall j | i <= j < |levels| :: levels[j] == []
    ensures DeepGet(levels, disk, i, k) == None
    decreases |levels| - i
  {
    if i < |levels| {
      EmptyDeep(levels, disk, i + 1, k);
    }
  }

  lemma FreshIsQuiet(maxLevels: nat)
    ensures Quiet(Fresh(maxLevels)) && Fresh(maxLevels).live.levels == seq(maxLevels, _ => [])
  {
  }

  /** With nothing in memory and nothing on level 0 a lookup is answered below. */
  lemma AnsweredBelow(s: Sys, m: KeyValues, k: Key)
    requires Inv(s, m) && Quiet(s) && |s.live.levels| >= 1 && s.live.levels[0] == []
    ensures AnswerOf(DeepGet(s.live.levels, s.disk, 1, k)) == Lookup(m, k)
    ensures Means(LiveFrom(s.live.levels, s.disk, 1), m)
  {
    hide Consistent, DeepGet, Means, LiveFrom;
    GetAgrees(s, m, k);
    NoContents();
    LiveSplit(s.live.levels, s.disk, 0);
    assert FileEntries([], s.disk) == {};
    assert InMemory(s) + Live(s.live.levels, s.disk) == LiveFrom(s.live.levels, s.disk, 1);
  }

  /** A lookup overtaken by the compaction of a level 0 of four files, once those files are removed. */
  function OvertakenAtZero(levels: Levels, k: Key, size: nat): seq<Event>
    requires |levels| >= 2 && levels[0] != []
  {
    Overtaken(LevelZeroTask(levels), size, 4, |SearchOrder(levels, k)|)
  }

  /** The code picks the compaction in any quiet state with four level-0 files; a lookup it overtakes answers from the
      levels below, whatever level 0 held. */
  lemma OvertakenAnswer(s: Sys, m: KeyValues, k: Key, size: nat)
    requires Quiet(s) && Inv(s, m) && |s.live.levels| >= 2 && |s.live.levels[0]| == 4
    ensures forall c: Compactor | c.l0Trigger == 4 :: Due(c, s.live.levels, LevelZeroTask(s.live.levels))
    ensures var end := Interleave(Begin(s, m, k), k, OvertakenAtZero(s.live.levels, k, size));
            && end.Some? && end.value.current == {Lookup(m, k)}
            && end.value.p == Done(AnswerOf(DeepGet(s.live.levels, s.disk, 1, k)))
  {
    hide Inv, Interleave, LevelsGet, DeepGet, TaskOK, Overtaken, SearchOrder, Quiet, FindOverlapping, Overtaking,
         AnswerOf;
    var t := LevelZeroTask(s.live.levels);
    forall c: Compactor | c.l0Trigger == 4 ensures Due(c, s.live.levels, t) {
      LevelZeroDue(c, s.live.levels);
    }
    LevelZeroDue(Compactor(|s.live.levels|, 0, 4), s.live.levels);
    InvConsistent(s, m);
    OvertakenRuns(s, m, k, t, size, 4);
    LevelZeroGone(s, k, size);
  }

  /** `k` written and flushed four times. */
  lemma StoredRun(maxLevels: nat, k: Key, v: Bytes, size: nat)
    requires maxLevels >= 2
    ensures var run := After(Fresh(maxLevels), Rounds(Put(k, v), size, 4));
            && run.Some? && Inv(run.value, map[k := v]) && Quiet(run.value)
            && |run.value.live.levels| >= 2 && |run.value.live.levels[0]| == 4
            && forall i | 1 <= i < |run.value.live.levels| :: run.value.live.levels[i] == []
  {
    hide Inv, After, Rounds, Fresh, Quiet;
    FreshInv(maxLevels);
    FreshIsQuiet(maxLevels);
    RoundsRun(Fresh(maxLevels), map[], Put(k, v), size, 4);
    assert ApplyOp(map[], Put(k, v)) == map[k := v];
  }

  /** A stored key reported absent: `k` is written and flushed four times, and the compaction this makes due removes the
      files while a lookup holds its snapshot of them. */
  lemma StoredKeyMissed(maxLevels: nat, k: Key, v: Bytes, size: nat)
    requires maxLevels >= 2
    ensures var run := After(Fresh(maxLevels), Rounds(Put(k, v), size, 4));
            && run.Some? && Inv(run.value, map[k := v])
            && |run.value.live.levels| >= 2 && |run.value.live.levels[0]| == 4
            && var t := LevelZeroTask(run.value.live.levels);
               && Due(Compactor(maxLevels, 0, 4), run.value.live.levels, t)
               && var end := Interleave(Begin(run.value, map[k := v], k), k,
                                        OvertakenAtZero(run.value.live.levels, k, size));
                  end.Some? && end.value.p == Done(None) && end.value.current == {Some(v)}
  {
    hide Inv, Interleave, LevelsGet, DeepGet, TaskOK, OvertakenAtZero, Quiet, After, Rounds, Fresh, Due, LevelZeroTask;
    StoredRun(maxLevels, k, v, size);
    var s := After(Fresh(maxLevels), Rounds(Put(k, v), size, 4)).value;
    OvertakenAnswer(s, map[k := v], k, size);
    EmptyDeep(s.live.levels, s.disk, 1, k);
  }

  /** One compaction of all of level 0, by itself. */
  function CompactLevelZero(levels: Levels, size: nat): seq<Action>
    requires |levels| >= 2 && levels[0] != []
  {
    MergeSteps(LevelZeroTask(levels), size) + RemoveSteps(|LevelZeroTask(levels).Files()| + 1)
  }

  lemma LevelZeroCompacted(s: Sys, m: KeyValues, size: nat)
    requires Quiet(s) && Inv(s, m) && |s.live.levels| >= 2 && |s.live.levels[0]| == 4
    ensures var run := After(s, CompactLevelZero(s.live.levels, size));
            && run.Some? && Inv(run.value, m) && Quiet(run.value)
            && |run.value.live.levels| == |s.live.levels| && run.value.live.levels[0] == []
  {
    hide Inv, After, TaskOK, Due, CompactLevels, ApplyEdit, Output, RemoveNumbers, EditFor, FindOverlapping, Numbered;
    var levels, t := s.live.levels, LevelZeroTask(s.live.levels);
    LevelZeroDue(Compactor(|levels|, 0, 4), levels);
    CompactSequence(s, m, t, size);
    MergeSequence(s, m, t, size);
    var meta :| Compacted(s, t, size).live.levels == CompactLevels(levels, t, meta);
    assert Numbered(levels) by {
      InvNumbered(s, m);
    }
    LevelZeroEmptied(levels, t, meta);
  }

  lemma LevelZeroEmptied(levels: Levels, t: Task, meta: Option<FileMeta>)
    requires TaskOK(levels, t) && Numbered(levels) && t.level == 0 && t.inputs == levels[0]
    ensures CompactLevels(levels, t, meta)[0] == []
  {
    hide Numbered, CompactLevels;
    AfterMembers(levels, t, meta, 0);
    SomeMember(CompactLevels(levels, t, meta)[0]);
  }

  /** Writes and flushes `k` four times, compacts, then deletes and flushes it four times. */
  ghost function DeletedAbove(maxLevels: nat, k: Key, v: Bytes, size: nat): seq<Action>
    requires maxLevels >= 2
  {
    StoredRun(maxLevels, k, v, size);
    var written := Rounds(Put(k, v), size, 4);
    var levels := After(Fresh(maxLevels), written).value.live.levels;
    written + CompactLevelZero(levels, size) + Rounds(Delete(k), size, 4)
  }

  /** `k` is deleted, and below level 0 the store still stands for its old value. */
  lemma DeletedRun(maxLevels: nat, k: Key, v: Bytes, size: nat)
    requires maxLevels >= 2
    ensures var run := After(Fresh(maxLevels), DeletedAbove(maxLevels, k, v, size));
            && run.Some? && Inv(run.value, map[]) && Quiet(run.value)
            && |run.value.live.levels| >= 2 && |run.value.live.levels[0]| == 4
            && AnswerOf(DeepGet(run.value.live.levels, run.value.disk, 1, k)) == Some(v)
            && Means(LiveFrom(run.value.live.levels, run.value.disk, 1), map[k := v])
  {
    hide Inv, DeepGet, Quiet, After, Rounds, Fresh, CompactLevelZero, AnswerOf, LiveFrom, Means;
    var s0, written := Fresh(maxLevels), Rounds(Put(k, v), size, 4);
    StoredRun(maxLevels, k, v, size);
    var s1 := After(s0, written).value;
    LevelZeroCompacted(s1, map[k := v], size);
    var compact := CompactLevelZero(s1.live.levels, size);
    var s2 := After(s1, compact).value;
    AfterJoin(s0, written, compact);
    AnsweredBelow(s2, map[k := v], k);
    RoundsRun(s2, map[k := v], Delete(k), size, 4);
    var s3 := After(s2, Rounds(Delete(k), size, 4)).value;
    AfterJoin(s0, written + compact, Rounds(Delete(k), size, 4));
    assert ApplyOp(map[k := v], Delete(k)) == map[];
    DeepGetSame(s2.live.levels, s3.live.levels, s2.disk, s3.disk, 1, k);
    DeepSame(s2.live.levels, s3.live.levels, s2.disk, s3.disk);
  }

  lemma DeepSame(levels: Levels, levels': Levels, disk: Disk, disk': Disk)
    requires |levels| == |levels'| && forall j | 1 <= j < |levels| :: levels'[j] == levels[j]
    requires forall j, f | 1 <= j < |levels| && f in levels[j] :: Es(disk', f) == Es(disk, f)
    ensures LiveFrom(levels', disk', 1) == LiveFrom(levels, disk, 1)
  {
  }

  /** Worse, a deleted value read back: the files with the tombstones are removed before the older file below them, and
      a lookup that reads in between answers the value that was deleted before it began. */
  lemma DeletedValueReadBack(maxLevels: nat, k: Key, v: Bytes, size: nat)
    requires maxLevels >= 2
    ensures var run := After(Fresh(maxLevels), DeletedAbove(maxLevels, k, v, size));
            && run.Some? && Inv(run.value, map[])
            && |run.value.live.levels| >= 2 && |run.value.live.levels[0]| == 4
            && var t := LevelZeroTask(run.value.live.levels);
               && Due(Compactor(maxLevels, 0, 4), run.value.live.levels, t)
               && var end := Interleave(Begin(run.value, map[], k), k,
                                        OvertakenAtZero(run.value.live.levels, k, size));
                  end.Some? && end.value.p == Done(Some(v)) && end.value.current == {None}
  {
    hide Inv, Interleave, DeepGet, TaskOK, OvertakenAtZero, Quiet, After, Fresh, Due, LevelZeroTask, DeletedAbove;
    hide AnswerOf;
    DeletedRun(maxLevels, k, v, size);
    OvertakenAnswer(After(Fresh(maxLevels), DeletedAbove(maxLevels, k, v, size)).value, map[], k, size);
  }
}
