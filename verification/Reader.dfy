/** A `get` split into its separate reads, running beside writes, flush steps and compaction steps
    (src/engine.rs:151-210). */
module Reader {
  import opened Keys
  import opened Entries
  import opened Versions
  import opened LevelStore
  import opened Meaning
  import opened Compaction
  import opened CompactionLaws
  import opened System
  import opened FlushLaws
  import opened CompactLaws
  import opened Runs
  import opened Snapshots

  /** Where a lookup of one key is: each constructor names the read that comes next. */
  datatype LookupProgress =
    | ReadActive
    | ReadImmutables
    | TakeVersion
    | ReadFiles(rest: seq<FileMeta>)
    | Done(answer: Option<Bytes>)

  /** One read, under the lock it takes, in the state the other threads have reached. The files of the snapshot are
      opened one by one. */
  function ReadStep(s: Sys, k: Key, p: LookupProgress): LookupProgress {
    match p
    case ReadActive => if k in s.active.table then Done(s.active.table[k].Answer()) else ReadImmutables
    case ReadImmutables =>
      var hit := ImmsGet(s.imms, k);
      if hit.Some? then Done(hit.value.Answer()) else TakeVersion
    case TakeVersion => ReadFiles(SearchOrder(s.live.levels, k))
    case ReadFiles(rest) =>
      if rest == [] then Done(None)
      else
        var hit := Find(Es(s.disk, rest[0]), k);
        if hit.Some? then Done(hit.value.Answer()) else ReadFiles(rest[1..])
    case Done(_) => p
  }

  datatype Event = Engine(a: Action) | Read

  /** The whole configuration: the store, the map it stands for, the lookup, and every answer that has been current
      since the lookup began. */
  datatype Config = Config(s: Sys, m: KeyValues, p: LookupProgress, current: set<Option<Bytes>>)

  function Begin(s: Sys, m: KeyValues, k: Key): Config {
    Config(s, m, ReadActive, {Lookup(m, k)})
  }

  ghost predicate Possible(c: Config, e: Event) {
    e.Engine? ==> Enabled(c.s, e.a) && e.a != Restart
  }

  /** The file in which the search of the snapshot is about to stop is not deleted before it is read. */
  ghost predicate KeepsHit(c: Config, k: Key, e: Event) {
    c.p.ReadFiles? && e.Engine? && e.a.RemoveFile? && c.s.compact.Removing? && c.s.compact.numbers != [] ==>
      HitFile(c.p.rest, c.s.disk, k) != Some(c.s.compact.numbers[0])
  }

  ghost function AfterEvent(c: Config, k: Key, e: Event): Config
    requires Possible(c, e)
  {
    match e
    case Read => c.(p := ReadStep(c.s, k, c.p))
    case Engine(a) =>
      var m := Expect(c.m, a);
      Config(Do(c.s, a), m, c.p, c.current + {Lookup(m, k)})
  }

  ghost function Interleave(c: Config, k: Key, events: seq<Event>): Option<Config> {
    if events == [] then Some(c)
    else
      var before, last := Interleave(c, k, events[..|events| - 1]), events[|events| - 1];
      if before.Some? && Possible(before.value, last) then Some(AfterEvent(before.value, k, last)) else None
  }

  ghost predicate KeepsHits(c: Config, k: Key, events: seq<Event>) {
    forall i | 0 <= i < |events| ::
      Interleave(c, k, events[..i]).Some? ==> KeepsHit(Interleave(c, k, events[..i]).value, k, events[i])
  }

  // ----- What the remaining reads can still find -----

  function LevelsAnswer(s: Sys, k: Key): Option<Bytes> {
    AnswerOf(LevelsGet(s.live.levels, s.disk, k))
  }

  ghost predicate FilesBelow(files: seq<FileMeta>, n: nat) {
    forall f | f in files :: f.number < n
  }

  ghost predicate Ahead(c: Config, k: Key) {
    match c.p
    case ReadActive => true
    case ReadImmutables =>
      && (k in Frozen(c.s) ==> Frozen(c.s)[k].Answer() in c.current)
      && (k !in Frozen(c.s) || c.s.flush.FlushApplied? ==> LevelsAnswer(c.s, k) in c.current)
    case TakeVersion =>
      && (k in Frozen(c.s) ==> Frozen(c.s)[k].Answer() in c.current)
      && LevelsAnswer(c.s, k) in c.current
    case ReadFiles(rest) =>
      && AnswerOf(Search(rest, c.s.disk, k)) in c.current
      && FilesBelow(rest, c.s.live.nextFile)
    case Done(answer) => answer in c.current
  }

  ghost predicate Good(c: Config, k: Key) {
    && Inv(c.s, c.m)
    && Lookup(c.m, k) in c.current
    && (c.p.ReadActive? || Ahead(c, k))
  }

  // ----- Answers from the levels across engine steps -----

  lemma LevelsNewest(s: Sys, k: Key)
    requires Consistent(s)
    ensures NewestIn(Live(s.live.levels, s.disk), k, LevelsGet(s.live.levels, s.disk, k))
  {
    FirstHitIsNewest(s.live.levels, s.disk, k);
  }

  lemma SameEntry(es: set<Entry>, k: Key, r: Option<Entry>, q: Option<Entry>)
    requires NewestIn(es, k, r) && NewestIn(es, k, q) && Told(es)
    ensures r == q
  {
  }

  lemma CondensedAnswer(before: set<Entry>, after: set<Entry>, k: Key, r: Option<Entry>, q: Option<Entry>)
    requires NewestIn(before, k, r) && NewestIn(after, k, q) && Condenses(before, after) && Told(before)
    ensures AnswerOf(r) == AnswerOf(q)
  {
    if r.Some? {
      assert Top(before, r.value);
    }
  }

  /** Applying a compaction changes no answer the levels give. */
  lemma CompactionKeepsAnswer(s: Sys, k: Key)
    requires Enabled(s, ApplyCompacted) && Consistent(s) && Consistent(Do(s, ApplyCompacted))
    ensures LevelsAnswer(Do(s, ApplyCompacted), k) == LevelsAnswer(s, k)
  {
    hide LevelInv, LiveFrom, LevelsGet, MemInv, WalInv, FlushFile, CompactInv, FilesApart, PendingInv, Condenses;
    var s' := Do(s, ApplyCompacted);
    ApplyCompactedStore(s);
    LevelsNewest(s, k);
    LevelsNewest(s', k);
    LiveTold(s.live.levels, s.disk);
    CondensedAnswer(Live(s.live.levels, s.disk), Live(s'.live.levels, s.disk), k,
                    LevelsGet(s.live.levels, s.disk, k), LevelsGet(s'.live.levels, s.disk, k));
  }

  /** Applying a flush makes the levels answer from the flushed memtable where it knows the key. */
  lemma FlushAnswer(s: Sys, k: Key)
    requires Enabled(s, ApplyFlush) && Consistent(s) && Consistent(Do(s, ApplyFlush))
    ensures LevelsAnswer(Do(s, ApplyFlush), k)
            == if k in Frozen(s) then Frozen(s)[k].Answer() else LevelsAnswer(s, k)
  {
    hide LevelInv, LiveFrom, LevelsGet, WalInv, CompactInv, FilesApart, Shadows, MaxSeq, Contents, NewestIn, Told;
    hide Fresher, Ascending, SeqBound, NumbersBelow, Pending, Unused, MetaFor, ReplayWal, Replay, ApplyEdit;
    var s' := Do(s, ApplyFlush);
    ApplyFlushStore(s);
    ApplyFlushVersion(s);
    LevelsNewest(s, k);
    LevelsNewest(s', k);
    LiveTold(s'.live.levels, s'.disk);
    PushedAnswer(Frozen(s), Live(s.live.levels, s.disk), k, LevelsGet(s.live.levels, s.disk, k),
                 LevelsGet(s'.live.levels, s'.disk, k));
  }

  lemma PushedAnswer(t: Table, live: set<Entry>, k: Key, q: Option<Entry>, q': Option<Entry>)
    requires WellFormed(t) && Fresher(Ascending(t), live)
    requires NewestIn(live, k, q) && NewestIn(live + Contents(t), k, q') && Told(live + Contents(t))
    ensures AnswerOf(q') == if k in t then t[k].Answer() else AnswerOf(q)
  {
    hide Fresher, Ascending;
    TableNewest(t, k);
    FrozenOverLevels(t, live);
    var r := if k in t then Some(t[k]) else None;
    NewestOfTwo(Contents(t), live, k, r, q);
    assert Contents(t) + live == live + Contents(t);
    SameEntry(live + Contents(t), k, if r.Some? then r else q, q');
  }

  lemma FrozenOverLevels(t: Table, live: set<Entry>)
    requires WellFormed(t) && Fresher(Ascending(t), live)
    ensures forall x, y | x in Contents(t) && y in live && x.key == y.key :: x.seqNo >= y.seqNo
  {
    ContentsHold(t);
    AscendingFacts(t);
  }

  // ----- Files read from a snapshot -----

  /** Engine steps change only files outside the snapshot, and those they delete are not the one that answers. */
  lemma SnapshotFrame(c: Config, k: Key, a: Action)
    requires Possible(c, Engine(a)) && c.p.ReadFiles? && FilesBelow(c.p.rest, c.s.live.nextFile)
    requires KeepsHit(c, k, Engine(a))
    ensures Search(c.p.rest, Do(c.s, a).disk, k) == Search(c.p.rest, c.s.disk, k)
  {
    hide Search, HitFile, Ascending, Output, ApplyEdit, Remaining, TaskOK;
    if a.RemoveFile? {
      HitKeptKeepsAnswer(c.p.rest, c.s.disk, Do(c.s, a).disk, k);
      if Search(c.p.rest, c.s.disk, k).Some? {
        var f := HitIn(c.p.rest, c.s.disk, k);
      }
    } else {
      if a.Write? {
        WriteKeepsDisk(c.s, a.ops);
      }
      SearchFrame(c.p.rest, c.s.disk, Do(c.s, a).disk, k);
    }
  }

  lemma {:induction false} WriteKeepsDisk(s: Sys, ops: seq<BatchOp>)
    ensures var s' := WriteAll(s, ops);
            && s'.disk == s.disk && s'.flush == s.flush && s'.imms == s.imms
            && s'.live.levels == s.live.levels && s'.live.nextFile == s.live.nextFile
  {
    if ops != [] {
      WriteKeepsDisk(s, ops[..|ops| - 1]);
    }
  }

  lemma NextFileGrows(s: Sys, a: Action)
    requires Enabled(s, a) && a != Restart
    ensures Do(s, a).live.nextFile >= s.live.nextFile
  {
    hide Ascending, Output, AddFiles, DeleteFiles, Remaining, TaskOK;
    match a
    case Write(ops) => WriteKeepsDisk(s, ops);
    case ApplyFlush => EditGrows(s.live, FlushEdit(s.flush.meta, MaxSeq(s.flush.frozen.table)));
    case ApplyCompacted => EditGrows(s.live, EditFor(s.compact.task, s.compact.output));
    case _ =>
  }

  /** Both counters only grow under an edit. */
  lemma EditGrows(v: Version, edit: VersionEdit)
    ensures ApplyEdit(v, edit).nextFile >= v.nextFile && ApplyEdit(v, edit).lastSeq >= v.lastSeq
  {
    FilesGrow(v.(levels := DeleteFiles(v.levels, edit.deletedFiles)), edit.newFiles);
  }

  lemma {:induction false} FilesGrow(v: Version, added: seq<(nat, FileMeta)>)
    ensures AddFiles(v, added).nextFile >= v.nextFile && AddFiles(v, added).lastSeq == v.lastSeq
  {
    if added != [] {
      FilesGrow(v, added[..|added| - 1]);
    }
  }

  // ----- Each event keeps the lookup on track -----

  /** Steps other than the two that apply an edit leave every answer of the levels alone. */
  lemma QuietStep(s: Sys, m: KeyValues, k: Key, a: Action)
    requires Enabled(s, a) && a != Restart && !a.ApplyFlush? && !a.ApplyCompacted? && Inv(s, m)
    ensures LevelsAnswer(Do(s, a), k) == LevelsAnswer(s, k)
  {
    hide LevelInv, LiveFrom, LevelsGet, MemInv, WalInv, FlushFile, FilesApart, PendingInv, Stands, Ascending, Output;
    hide Remaining, TaskOK;
    if a.Write? {
      WriteKeepsDisk(s, a.ops);
    }
    var s' := Do(s, a);
    assert s'.live.levels == s.live.levels;
    LevelsGetFrame(s.live.levels, s.disk, s'.disk, k);
  }

  lemma FrozenAfter(s: Sys, a: Action)
    requires Enabled(s, a) && a != Restart
    ensures var s' := Do(s, a);
            if a.Rotate? then Frozen(s') == s.active.table && Frozen(s) == map[]
            else if a.Retire? then Frozen(s') == map[]
            else Frozen(s') == Frozen(s)
    ensures Do(s, a).flush.FlushApplied? ==> a.ApplyFlush? || s.flush.FlushApplied?
    ensures a.Retire? ==> s.flush.FlushApplied?
  {
    hide Ascending, Output, ApplyEdit, Remaining, TaskOK, MaxSeq, FileNumbers, WithoutId;
    if a.Write? {
      WriteKeepsDisk(s, a.ops);
    }
  }

  lemma EngineKeepsSearch(c: Config, k: Key, a: Action)
    requires Possible(c, Engine(a)) && Good(c, k) && (c.p.ReadImmutables? || c.p.TakeVersion?)
    requires Inv(Do(c.s, a), Expect(c.m, a))
    ensures Ahead(AfterEvent(c, k, Engine(a)), k)
  {
    hide Inv, Do, Enabled, Expect, LevelsAnswer, LevelsGet, NumbersBelow, Frozen, Unused;
    var c' := AfterEvent(c, k, Engine(a));
    FrozenAfter(c.s, a);
    if a.Rotate? && k in c.s.active.table {
      ActiveIsCurrent(c.s, c.m, k);
    }
    InvConsistent(c.s, c.m);
    InvConsistent(c'.s, c'.m);
    if a.ApplyFlush? {
      FlushAnswer(c.s, k);
    } else if a.ApplyCompacted? {
      CompactionKeepsAnswer(c.s, k);
    } else {
      QuietStep(c.s, c.m, k, a);
    }
  }

  lemma EngineKeeps(c: Config, k: Key, a: Action)
    requires Possible(c, Engine(a)) && KeepsHit(c, k, Engine(a)) && Good(c, k)
    ensures Good(AfterEvent(c, k, Engine(a)), k)
  {
    hide Inv, Do, Enabled, Expect, LevelsAnswer, LevelsGet, Search, NumbersBelow, Frozen, Unused;
    var c' := AfterEvent(c, k, Engine(a));
    StepKeeps(c.s, c.m, a);
    if c.p.ReadImmutables? || c.p.TakeVersion? {
      EngineKeepsSearch(c, k, a);
    } else if c.p.ReadFiles? {
      SnapshotFrame(c, k, a);
      NextFileGrows(c.s, a);
    }
  }

  /** When the active memtable does not know the key, the current answer lies in the tiers still to be read. */
  lemma MissedActive(s: Sys, m: KeyValues, k: Key)
    requires Inv(s, m) && k !in s.active.table
    ensures k in Frozen(s) ==> Frozen(s)[k].Answer() == Lookup(m, k)
    ensures k !in Frozen(s) || s.flush.FlushApplied? ==> LevelsAnswer(s, k) == Lookup(m, k)
  {
    hide LevelInv, LiveFrom, LevelsGet, WalInv, FlushFile, CompactInv, FilesApart, PendingInv, Means, Contents, Shadows;
    GetAgrees(s, m, k);
    ImmsGetFrozen(s, k);
    if s.flush.FlushApplied? {
      TableNewest(s.active.table, k);
      LevelsNewest(s, k);
      MemoryShadows(s);
      NewestShadowed(Contents(s.active.table), Live(s.live.levels, s.disk), k, LevelsGet(s.live.levels, s.disk, k));
      NewestAnswers(Contents(s.active.table) + Live(s.live.levels, s.disk), m, k, LevelsGet(s.live.levels, s.disk, k));
    }
  }

  lemma ReadKeeps(c: Config, k: Key)
    requires Good(c, k)
    ensures Good(AfterEvent(c, k, Read), k)
  {
    hide Inv, Consistent, LevelsGet, ImmsGet, FilesBelow, Frozen, SearchOrder;
    InvConsistent(c.s, c.m);
    match c.p
    case ReadActive =>
      if k in c.s.active.table {
        ActiveIsCurrent(c.s, c.m, k);
      } else {
        MissedActive(c.s, c.m, k);
      }
    case ReadImmutables => ImmsGetFrozenOf(c.s, k);
    case TakeVersion =>
      SnapshotNumbers(c.s, k);
      SearchIsLevelsGet(c.s.live.levels, c.s.disk, k);
    case ReadFiles(rest) => FewerFiles(rest, c.s.live.nextFile);
    case _ =>
  }

  lemma FewerFiles(files: seq<FileMeta>, n: nat)
    requires FilesBelow(files, n)
    ensures files != [] ==> FilesBelow(files[1..], n)
  {
  }

  lemma ImmsGetFrozenOf(s: Sys, k: Key)
    requires Consistent(s)
    ensures ImmsGet(s.imms, k) == if k in Frozen(s) then Some(Frozen(s)[k]) else None
  {
    ImmsGetFrozen(s, k);
  }

  lemma SnapshotNumbers(s: Sys, k: Key)
    requires Consistent(s)
    ensures FilesBelow(SearchOrder(s.live.levels, k), s.live.nextFile)
  {
    hide MemInv, WalInv, LevelInv, FlushFile, CompactInv, FilesApart, PendingInv, Replay, SearchOrder;
    OrderMembers(s.live.levels, k);
  }

  /** A lookup running beside atomic writes, flush steps and compaction steps returns an answer that was current for its
      key at some moment during the call, provided the file of its snapshot that answers is not deleted before it is
      read. */
  lemma {:induction false} LookupWasCurrent(c: Config, k: Key, events: seq<Event>)
    requires Good(c, k) && Interleave(c, k, events).Some? && KeepsHits(c, k, events)
    ensures Good(Interleave(c, k, events).value, k)
    ensures var end := Interleave(c, k, events).value; end.p.Done? ==> end.p.answer in end.current
  {
    hide Inv, Possible, AfterEvent, Ahead, KeepsHit;
    if events != [] {
      var init, last := events[..|events| - 1], events[|events| - 1];
      assert forall i | 0 <= i < |init| :: init[..i] == events[..i];
      LookupWasCurrent(c, k, init);
      assert events[..|init|] == init;
      var before := Interleave(c, k, init).value;
      if last.Engine? {
        EngineKeeps(before, k, last.a);
      } else {
        ReadKeeps(before, k);
      }
    }
    DoneIsCurrent(Interleave(c, k, events).value, k);
  }

  lemma DoneIsCurrent(c: Config, k: Key)
    requires Good(c, k)
    ensures c.p.Done? ==> c.p.answer in c.current
  {
    hide Inv;
  }

  /** The same from the start of a lookup in any state an engine run has reached. */
  lemma InterleavedLookup(maxLevels: nat, acts: seq<Action>, k: Key, events: seq<Event>)
    requires maxLevels >= 1 && After(Fresh(maxLevels), acts).Some?
    requires var c := Begin(After(Fresh(maxLevels), acts).value, Expected(Fresh(maxLevels), map[], acts), k);
             Interleave(c, k, events).Some? && KeepsHits(c, k, events)
    ensures var m := Expected(Fresh(maxLevels), map[], acts);
            var end := Interleave(Begin(After(Fresh(maxLevels), acts).value, m, k), k, events).value;
            end.p.Done? ==> end.p.answer in end.current
  {
    hide Inv, Fresh, Interleave, After;
    FreshInv(maxLevels);
    RunKeeps(Fresh(maxLevels), map[], acts);
    LookupWasCurrent(Begin(After(Fresh(maxLevels), acts).value, Expected(Fresh(maxLevels), map[], acts), k), k, events);
  }
}
