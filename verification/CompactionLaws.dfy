/** One compaction keeps the level invariant and the meaning of what is stored. */
module CompactionLaws {
  import opened Keys
  import opened Entries
  import opened Versions
  import opened LevelStore
  import opened Meaning
  import opened Compaction

  // ----- What the merge writes -----

  ghost function Source(t: Task, disk: Disk): set<Entry> {
    FileEntries(t.Files(), disk)
  }

  lemma TaskFiles(levels: Levels, t: Task, f: FileMeta)
    requires TaskOK(levels, t)
    ensures f in t.inputs ==> f in levels[t.level]
    ensures f in t.targets ==> f in levels[t.target]
  {
    OverlappingMembers(levels[t.target], MinKey(t.inputs), MaxKey(t.inputs));
    if f in t.inputs && t.level == 0 {
      var i :| 0 <= i < |t.inputs| && t.inputs[i] == f;
      assert levels[0][i] == f;
    }
  }

  lemma SourceIsLive(levels: Levels, disk: Disk, t: Task)
    requires TaskOK(levels, t)
    ensures Source(t, disk) <= Live(levels, disk)
  {
    forall e | e in Source(t, disk) ensures e in Live(levels, disk) {
      var f :| f in t.Files() && e in Es(disk, f);
      TaskFiles(levels, t, f);
      assert f in levels[t.level] || f in levels[t.target];
    }
  }

  lemma LiveTold(levels: Levels, disk: Disk)
    requires LevelInv(levels, disk)
    ensures Told(Live(levels, disk))
  {
    var es := Live(levels, disk);
    forall e, d | e in es && d in es && e.key == d.key && e.seqNo == d.seqNo ensures e == d {
      LiveUnique(levels, disk, e, d);
    }
  }

  lemma SourceTold(levels: Levels, disk: Disk, t: Task)
    requires LevelInv(levels, disk) && TaskOK(levels, t)
    ensures Told(Source(t, disk))
  {
    SourceIsLive(levels, disk, t);
    LiveTold(levels, disk);
  }

  lemma NewestHeld(m: Table, src: set<Entry>)
    requires KeepsNewest(m, src) && Told(src)
    ensures forall e :: Holds(m, e) <==> Top(src, e)
  {
    forall e | Top(src, e) ensures Holds(m, e) {
      assert m[e.key] in src;
    }
    forall e | Holds(m, e) ensures Top(src, e) {
      assert m[e.key] == e;
    }
  }

  lemma SurvivorsHold(t: Task, disk: Disk, maxLevels: nat)
    ensures WellFormed(Survivors(t, disk, maxLevels))
    ensures forall e :: Holds(Survivors(t, disk, maxLevels), e)
                        <==> Holds(MergeFiles(t.Files(), disk), e)
                             && !(IsBottom(t, maxLevels) && e.valueType == Tombstone)
  {
    MergeKeeps(t.Files(), disk);
  }

  /** The output is strictly ascending and holds exactly the newest input version of each key, except that the last
      level keeps no tombstones. */
  lemma OutputIsNewest(levels: Levels, disk: Disk, t: Task, maxLevels: nat)
    requires LevelInv(levels, disk) && TaskOK(levels, t) && maxLevels >= 1
    ensures Strict(Output(t, disk, maxLevels))
    ensures forall e :: e in Output(t, disk, maxLevels)
                        <==> Top(Source(t, disk), e) && !(IsBottom(t, maxLevels) && e.valueType == Tombstone)
  {
    SourceTold(levels, disk, t);
    OutputOfSource(t, disk, maxLevels);
  }

  lemma OutputOfSource(t: Task, disk: Disk, maxLevels: nat)
    requires Told(Source(t, disk))
    ensures Strict(Output(t, disk, maxLevels))
    ensures forall e :: e in Output(t, disk, maxLevels)
                        <==> Top(Source(t, disk), e) && !(IsBottom(t, maxLevels) && e.valueType == Tombstone)
  {
    MergeKeeps(t.Files(), disk);
    NewestHeld(MergeFiles(t.Files(), disk), Source(t, disk));
    SurvivorsHold(t, disk, maxLevels);
    AscendingFacts(Survivors(t, disk, maxLevels));
  }

  // ----- Which files are where afterwards -----

  function CompactLevels(levels: Levels, t: Task, meta: Option<FileMeta>): (r: Levels)
    requires 0 < t.target < |levels|
    ensures |r| == |levels|
  {
    var left := DeleteFiles(levels, EditFor(t, meta).deletedFiles);
    if meta.None? then left else left[t.target := SortFiles(left[t.target] + [meta.value])]
  }

  lemma ApplyCompaction(v: Version, t: Task, meta: Option<FileMeta>)
    requires 0 < t.target < |v.levels|
    ensures ApplyEdit(v, EditFor(t, meta)) == Version(
              CompactLevels(v.levels, t, meta),
              if meta.Some? && meta.value.number >= v.nextFile then meta.value.number + 1 else v.nextFile,
              v.lastSeq)
  {
    var edit := EditFor(t, meta);
    var left := v.(levels := DeleteFiles(v.levels, edit.deletedFiles));
    if meta.Some? {
      assert edit.newFiles[..0] == [] && edit.newFiles[0] == (t.target, meta.value);
      assert AddFiles(left, edit.newFiles) == AddFile(left, t.target, meta.value);
    } else {
      assert AddFiles(left, edit.newFiles) == left;
    }
  }

  ghost predicate Stays(levels: Levels, t: Task, i: nat, f: FileMeta)
    requires i < |levels|
  {
    f in levels[i] && !(i == t.level && f in t.inputs) && !(i == t.target && f in t.targets)
  }

  lemma LeftMembers(levels: Levels, t: Task, meta: Option<FileMeta>, i: nat)
    requires TaskOK(levels, t) && Numbered(levels) && i < |levels|
    ensures forall f :: f in DeleteFiles(levels, EditFor(t, meta).deletedFiles)[i] <==> Stays(levels, t, i, f)
  {
    hide FindOverlapping, MinKey, MaxKey, Deletions, DeleteFiles;
    var deleted := EditFor(t, meta).deletedFiles;
    DeleteMembers(levels, deleted, i);
    DeletionMembers(t.level, t.inputs);
    DeletionMembers(t.target, t.targets);
    forall f | f in levels[i] ensures (i, f.number) in deleted <==> !Stays(levels, t, i, f) {
      assert (i, f.number) in deleted
             <==> (i, f.number) in Deletions(t.level, t.inputs) || (i, f.number) in Deletions(t.target, t.targets);
      forall g | g in t.Files() && g.number == f.number
        ensures (g in t.inputs && i == t.level) || (g in t.targets && i == t.target) ==> g == f
      {
        TaskFiles(levels, t, g);
      }
    }
  }

  lemma AfterMembers(levels: Levels, t: Task, meta: Option<FileMeta>, i: nat)
    requires TaskOK(levels, t) && Numbered(levels) && i < |levels|
    ensures forall f :: f in CompactLevels(levels, t, meta)[i]
                        <==> Stays(levels, t, i, f) || (i == t.target && meta == Some(f))
  {
    LeftMembers(levels, t, meta, i);
    if i == t.target && meta.Some? {
      var pushed := DeleteFiles(levels, EditFor(t, meta).deletedFiles)[i] + [meta.value];
      SortMembers(pushed);
      assert forall f :: f in SortFiles(pushed) <==> f in multiset(SortFiles(pushed));
      assert forall f :: f in pushed <==> f in multiset(pushed);
    }
  }

  // ----- Where the output stands among the remaining files -----

  /** The finished compaction: its output table, if any, is on disk under a number no level uses. */
  ghost predicate Built(levels: Levels, disk: Disk, t: Task, meta: Option<FileMeta>, maxLevels: nat) {
    && |levels| == maxLevels
    && LevelInv(levels, disk)
    && TaskOK(levels, t)
    && (meta.None? <==> Output(t, disk, maxLevels) == [])
    && (meta.Some? ==>
          && Unused(levels, meta.value.number)
          && meta.value.number in disk
          && disk[meta.value.number] == Output(t, disk, maxLevels)
          && MetaFor(meta.value, Output(t, disk, maxLevels)))
  }

  lemma BuiltMeta(levels: Levels, disk: Disk, t: Task, meta: FileMeta, maxLevels: nat)
    requires Built(levels, disk, t, Some(meta), maxLevels)
    ensures MetaOK(disk, meta)
  {
    OutputIsNewest(levels, disk, t, maxLevels);
  }

  /** Every output entry comes from a file of the task. */
  lemma Origin(levels: Levels, disk: Disk, t: Task, meta: FileMeta, maxLevels: nat, e: Entry) returns (i: nat,
               f: FileMeta)
    requires Built(levels, disk, t, Some(meta), maxLevels) && e in Es(disk, meta)
    ensures i < |levels| && f in levels[i] && e in Es(disk, f) && e in Live(levels, disk) && e in Source(t, disk)
    ensures (i == t.level && f in t.inputs) || (i == t.target && f in t.targets)
  {
    OutputIsNewest(levels, disk, t, maxLevels);
    SourceIsLive(levels, disk, t);
    f :| f in t.Files() && e in Es(disk, f);
    TaskFiles(levels, t, f);
    i := if f in t.inputs then t.level else t.target;
  }

  /** A range that misses the hull misses every key inside the hull on the same side. */
  lemma SidesInside(lo: Key, hi: Key, e: Key, first: Key, last: Key)
    requires Le(lo, e) && Le(e, hi) && Le(first, last) && (Lt(hi, first) || Lt(last, lo))
    ensures Lt(e, first) <==> Lt(hi, first)
    ensures Lt(last, e) <==> Lt(last, lo)
  {
    LinearOrder();
  }

  /** The same for a key of a range that meets the hull and misses the other range. */
  lemma SidesNear(lo: Key, hi: Key, f: FileMeta, e: Key, g: FileMeta)
    requires Le(lo, hi) && Le(f.smallest, e) && Le(e, f.largest) && Le(g.smallest, g.largest)
    requires RangesOverlap(lo, hi, f.smallest, f.largest) && Apart(f, g)
    requires Lt(hi, g.smallest) || Lt(g.largest, lo)
    ensures Lt(e, g.smallest) <==> Lt(hi, g.smallest)
    ensures Lt(g.largest, e) <==> Lt(g.largest, lo)
  {
    LinearOrder();
  }

  lemma HullMissed(levels: Levels, disk: Disk, t: Task, g: FileMeta)
    requires LevelInv(levels, disk) && TaskOK(levels, t) && Stays(levels, t, t.target, g)
    ensures Le(g.smallest, g.largest) && (Lt(MaxKey(t.inputs), g.smallest) || Lt(g.largest, MinKey(t.inputs)))
  {
    hide FindOverlapping, MinKey, MaxKey, Lt, Recent, Stack, CleanBottom, FilesOK, Numbered;
    OverlappingMembers(levels[t.target], MinKey(t.inputs), MaxKey(t.inputs));
    assert Chain(levels[t.target]);
  }

  lemma TaskFileOK(levels: Levels, disk: Disk, t: Task, f: FileMeta)
    requires LevelInv(levels, disk) && TaskOK(levels, t) && f in t.Files()
    ensures MetaOK(disk, f)
  {
    hide FindOverlapping, MinKey, MaxKey, MetaOK, Recent, Stack, CleanBottom, Chains, Numbered;
    TaskFiles(levels, t, f);
    assert f in levels[if f in t.inputs then t.level else t.target];
  }

  lemma TargetMet(levels: Levels, disk: Disk, t: Task, g: FileMeta, f: FileMeta)
    requires LevelInv(levels, disk) && TaskOK(levels, t) && Stays(levels, t, t.target, g) && f in t.targets
    ensures RangesOverlap(MinKey(t.inputs), MaxKey(t.inputs), f.smallest, f.largest) && Apart(f, g)
  {
    hide FindOverlapping, MinKey, MaxKey, Recent, Stack, CleanBottom, FilesOK, Numbered;
    OverlappingMembers(levels[t.target], MinKey(t.inputs), MaxKey(t.inputs));
    assert Chain(levels[t.target]);
    assert f != g;
  }

  /** A file that stays on the target level overlaps neither the input hull nor a replaced file. */
  lemma StaysApart(levels: Levels, disk: Disk, t: Task, g: FileMeta, f: FileMeta, e: Entry)
    requires LevelInv(levels, disk) && TaskOK(levels, t) && Stays(levels, t, t.target, g)
    requires f in t.Files() && e in Es(disk, f)
    ensures Lt(e.key, g.smallest) <==> Lt(MaxKey(t.inputs), g.smallest)
    ensures Lt(g.largest, e.key) <==> Lt(g.largest, MinKey(t.inputs))
    ensures Lt(MaxKey(t.inputs), g.smallest) || Lt(g.largest, MinKey(t.inputs))
  {
    hide LevelInv, FindOverlapping, MinKey, MaxKey, Lt, Le;
    var lo, hi := MinKey(t.inputs), MaxKey(t.inputs);
    TaskFileOK(levels, disk, t, f);
    InRange(disk, f, e);
    HullMissed(levels, disk, t, g);
    if f in t.inputs {
      HullCovers(t.inputs, f);
      Between(lo, f.smallest, e.key, f.largest, hi);
      SidesInside(lo, hi, e.key, g.smallest, g.largest);
    } else {
      TargetMet(levels, disk, t, g, f);
      HullOrdered(levels, disk, t);
      SidesNear(lo, hi, f, e.key, g);
    }
  }

  lemma HullOrdered(levels: Levels, disk: Disk, t: Task)
    requires LevelInv(levels, disk) && TaskOK(levels, t)
    ensures Le(MinKey(t.inputs), MaxKey(t.inputs))
  {
    hide LevelInv, FindOverlapping, MinKey, MaxKey, Lt, Le;
    var f := t.inputs[0];
    assert f in t.inputs && f in t.Files();
    HullCovers(t.inputs, f);
    TaskFileOK(levels, disk, t, f);
    InRange(disk, f, disk[f.number][0]);
    Between(MinKey(t.inputs), f.smallest, f.smallest, f.largest, MaxKey(t.inputs));
  }

  lemma Between(a: Key, b: Key, c: Key, d: Key, e: Key)
    requires Le(a, b) && Le(b, c) && Le(c, d) && Le(d, e)
    ensures Le(a, c) && Le(c, e) && Le(a, e)
  {
    LinearOrder();
  }

  lemma OutputApart(levels: Levels, disk: Disk, t: Task, meta: FileMeta, maxLevels: nat, g: FileMeta)
    requires Built(levels, disk, t, Some(meta), maxLevels) && Stays(levels, t, t.target, g)
    ensures Apart(meta, g)
  {
    BuiltMeta(levels, disk, t, meta, maxLevels);
    var es := disk[meta.number];
    var i, f := Origin(levels, disk, t, meta, maxLevels, es[0]);
    var j, h := Origin(levels, disk, t, meta, maxLevels, es[|es| - 1]);
    StaysApart(levels, disk, t, g, f, es[0]);
    StaysApart(levels, disk, t, g, h, es[|es| - 1]);
  }

  /** A level-0 file left out of the task came after every input. */
  lemma LaterFileIsNewer(levels: Levels, disk: Disk, t: Task, g: FileMeta, d: Entry, f: FileMeta, e: Entry)
    requires LevelInv(levels, disk) && TaskOK(levels, t) && t.level == 0
    requires Stays(levels, t, 0, g) && d in Es(disk, g) && f in t.inputs && e in Es(disk, f) && e.key == d.key
    ensures d.seqNo > e.seqNo
  {
    hide FindOverlapping, MinKey, MaxKey;
    var a :| 0 <= a < |levels[0]| && levels[0][a] == g;
    var b :| 0 <= b < |t.inputs| && t.inputs[b] == f;
    assert forall c | 0 <= c < |t.inputs| :: t.inputs[c] == levels[0][c];
    assert forall c | 0 <= c < |t.inputs| :: t.inputs[c] in t.inputs;
    assert Above(Es(disk, levels[0][a]), Es(disk, levels[0][b]));
  }

  /** A version in a remaining file against a version in the task's files: never in between the two levels. */
  lemma StaysAgainstSource(levels: Levels, disk: Disk, t: Task, j: nat, g: FileMeta, d: Entry, i: nat, f: FileMeta,
                           e: Entry)
    requires LevelInv(levels, disk) && TaskOK(levels, t)
    requires j < |levels| && Stays(levels, t, j, g) && d in Es(disk, g)
    requires (i == t.level && f in t.inputs) || (i == t.target && f in t.targets)
    requires e in Es(disk, f) && e.key == d.key
    ensures j <= t.level ==> d.seqNo > e.seqNo
    ensures j != t.target
    ensures j > t.target ==> d.seqNo < e.seqNo
  {
    hide FindOverlapping, MinKey, MaxKey;
    TaskFiles(levels, t, f);
    TwoVersions(levels, disk, j, g, d, i, f, e);
    if j == t.target {
      hide LevelInv;
      StaysApart(levels, disk, t, g, f, e);
      InRange(disk, g, d);
      LinearOrder();
    } else if j == t.level && i == t.level && t.level == 0 {
      LaterFileIsNewer(levels, disk, t, g, d, f, e);
    }
  }

  // ----- The invariant afterwards -----

  lemma CompactFiles(levels: Levels, disk: Disk, t: Task, meta: Option<FileMeta>, maxLevels: nat)
    requires Built(levels, disk, t, meta, maxLevels)
    ensures FilesOK(CompactLevels(levels, t, meta), disk)
  {
    var after := CompactLevels(levels, t, meta);
    forall i, f | 0 <= i < |after| && f in after[i] ensures MetaOK(disk, f) {
      AfterMembers(levels, t, meta, i);
      if !Stays(levels, t, i, f) {
        BuiltMeta(levels, disk, t, f, maxLevels);
      }
    }
  }

  lemma CompactNumbers(levels: Levels, t: Task, meta: Option<FileMeta>)
    requires TaskOK(levels, t) && Numbered(levels) && (meta.Some? ==> Unused(levels, meta.value.number))
    ensures Numbered(CompactLevels(levels, t, meta))
  {
    hide CompactLevels, FindOverlapping, MinKey, MaxKey;
    var after := CompactLevels(levels, t, meta);
    forall i, j, f: FileMeta, g: FileMeta | 0 <= i < |after| && 0 <= j < |after| && f in after[i] && g in after[j]
                                            && f.number == g.number
      ensures i == j && f == g
    {
      AfterMembers(levels, t, meta, i);
      AfterMembers(levels, t, meta, j);
    }
  }

  lemma CompactRecent(levels: Levels, disk: Disk, t: Task, meta: Option<FileMeta>, maxLevels: nat)
    requires Built(levels, disk, t, meta, maxLevels)
    ensures Recent(CompactLevels(levels, t, meta), disk)
  {
    var after := CompactLevels(levels, t, meta);
    forall i, j, f, g | 0 <= i < j < |after| && f in after[i] && g in after[j]
      ensures Above(Es(disk, f), Es(disk, g))
    {
      AfterMembers(levels, t, meta, i);
      AfterMembers(levels, t, meta, j);
      forall x, y | x in Es(disk, f) && y in Es(disk, g) && x.key == y.key ensures x.seqNo > y.seqNo {
        CompactPair(levels, disk, t, meta, maxLevels, i, f, x, j, g, y);
      }
    }
  }

  lemma CompactPair(levels: Levels, disk: Disk, t: Task, meta: Option<FileMeta>, maxLevels: nat,
                    i: nat, f: FileMeta, x: Entry, j: nat, g: FileMeta, y: Entry)
    requires Built(levels, disk, t, meta, maxLevels)
    requires i < j < |levels|
    requires Stays(levels, t, i, f) || (i == t.target && meta == Some(f))
    requires Stays(levels, t, j, g) || (j == t.target && meta == Some(g))
    requires x in Es(disk, f) && y in Es(disk, g) && x.key == y.key
    ensures x.seqNo > y.seqNo
  {
    hide LevelInv, Output, FindOverlapping, MinKey, MaxKey, MetaFor, Unused, LiveFrom, Source;
    if Stays(levels, t, i, f) && Stays(levels, t, j, g) {
      TwoVersions(levels, disk, i, f, x, j, g, y);
    } else if Stays(levels, t, i, f) {
      var l, h := Origin(levels, disk, t, g, maxLevels, y);
      StaysAgainstSource(levels, disk, t, i, f, x, l, h, y);
    } else {
      var l, h := Origin(levels, disk, t, f, maxLevels, x);
      StaysAgainstSource(levels, disk, t, j, g, y, l, h, x);
    }
  }

  lemma {:induction false} RetainStack(files: seq<FileMeta>, disk: Disk, number: nat)
    requires Stack(files, disk)
    ensures Stack(Retain(files, number), disk)
  {
    if files != [] {
      var init, last := files[..|files| - 1], files[|files| - 1];
      RetainStack(init, disk, number);
      RetainMembers(init, number);
      var kept := Retain(files, number);
      forall a, b | 0 <= a < b < |kept| ensures Above(Es(disk, kept[b]), Es(disk, kept[a])) {
        if b == |Retain(init, number)| {
          assert kept[a] in init;
          var c :| 0 <= c < |init| && init[c] == kept[a];
          assert Above(Es(disk, files[|files| - 1]), Es(disk, files[c]));
        } else {
          assert kept[b] == Retain(init, number)[b] && kept[a] == Retain(init, number)[a];
        }
      }
    }
  }

  lemma {:induction false} DeleteStack(levels: Levels, disk: Disk, deleted: seq<(nat, nat)>)
    requires |levels| >= 1 && Stack(levels[0], disk)
    ensures Stack(DeleteFiles(levels, deleted)[0], disk)
  {
    if deleted != [] {
      var init, last := deleted[..|deleted| - 1], deleted[|deleted| - 1];
      DeleteStack(levels, disk, init);
      RetainStack(DeleteFiles(levels, init)[0], disk, last.1);
    }
  }

  lemma CompactChains(levels: Levels, disk: Disk, t: Task, meta: Option<FileMeta>, maxLevels: nat)
    requires Built(levels, disk, t, meta, maxLevels)
    ensures Chains(CompactLevels(levels, t, meta))
  {
    var deleted := EditFor(t, meta).deletedFiles;
    var left := DeleteFiles(levels, deleted);
    forall i | 1 <= i < |levels| ensures Chain(CompactLevels(levels, t, meta)[i]) {
      assert Chain(levels[i]);
      DeleteChain(levels, deleted, i);
      if i == t.target && meta.Some? {
        LeftMembers(levels, t, meta, i);
        forall g | g in left[i] ensures Apart(meta.value, g) {
          OutputApart(levels, disk, t, meta.value, maxLevels, g);
        }
        BuiltMeta(levels, disk, t, meta.value, maxLevels);
        StrictBounds(disk[meta.value.number], disk[meta.value.number][0]);
        SortChain(left[i]);
        InsertChain(left[i], meta.value);
        assert (left[i] + [meta.value])[..|left[i]|] == left[i];
      }
    }
  }

  lemma CompactBottom(levels: Levels, disk: Disk, t: Task, meta: Option<FileMeta>, maxLevels: nat)
    requires Built(levels, disk, t, meta, maxLevels)
    ensures CleanBottom(CompactLevels(levels, t, meta), disk)
  {
    hide FindOverlapping, MinKey, MaxKey, Output, MetaFor, Recent, Stack, Chains, FilesOK;
    var after := CompactLevels(levels, t, meta);
    var last := |levels| - 1;
    AfterMembers(levels, t, meta, last);
    forall f | f in after[last] ensures NoTombstones(Es(disk, f)) {
      if !Stays(levels, t, last, f) {
        OutputClean(levels, disk, t, f, maxLevels);
      }
    }
  }

  lemma OutputClean(levels: Levels, disk: Disk, t: Task, meta: FileMeta, maxLevels: nat)
    requires Built(levels, disk, t, Some(meta), maxLevels) && IsBottom(t, maxLevels)
    ensures NoTombstones(Es(disk, meta))
  {
    OutputIsNewest(levels, disk, t, maxLevels);
  }

  /** The level invariant survives every compaction. */
  lemma CompactionKeepsInvariant(levels: Levels, disk: Disk, t: Task, meta: Option<FileMeta>, maxLevels: nat)
    requires Built(levels, disk, t, meta, maxLevels)
    ensures LevelInv(CompactLevels(levels, t, meta), disk)
  {
    CompactFiles(levels, disk, t, meta, maxLevels);
    CompactNumbers(levels, t, meta);
    CompactRecent(levels, disk, t, meta, maxLevels);
    DeleteStack(levels, disk, EditFor(t, meta).deletedFiles);
    CompactChains(levels, disk, t, meta, maxLevels);
    CompactBottom(levels, disk, t, meta, maxLevels);
  }

  // ----- The meaning afterwards -----

  lemma AfterIsLive(levels: Levels, disk: Disk, t: Task, meta: Option<FileMeta>, maxLevels: nat, e: Entry)
    requires Built(levels, disk, t, meta, maxLevels) && e in Live(CompactLevels(levels, t, meta), disk)
    ensures e in Live(levels, disk)
  {
    var after := CompactLevels(levels, t, meta);
    var i, f :| 0 <= i < |after| && f in after[i] && e in Es(disk, f);
    AfterMembers(levels, t, meta, i);
    if !Stays(levels, t, i, f) {
      var j, g := Origin(levels, disk, t, f, maxLevels, e);
    }
  }

  lemma OutputIsLive(levels: Levels, disk: Disk, t: Task, meta: Option<FileMeta>, maxLevels: nat, e: Entry)
    requires Built(levels, disk, t, meta, maxLevels) && e in Output(t, disk, maxLevels)
    ensures e in Live(CompactLevels(levels, t, meta), disk)
  {
    AfterMembers(levels, t, meta, t.target);
    assert meta.value in CompactLevels(levels, t, meta)[t.target] && e in Es(disk, meta.value);
  }

  lemma WhereLive(levels: Levels, disk: Disk, e: Entry) returns (i: nat, f: FileMeta)
    requires e in Live(levels, disk)
    ensures i < |levels| && f in levels[i] && e in Es(disk, f)
  {
    i, f :| 0 <= i < |levels| && f in levels[i] && e in Es(disk, f);
  }

  lemma StayingIsLive(levels: Levels, disk: Disk, t: Task, meta: Option<FileMeta>, maxLevels: nat, i: nat,
                      f: FileMeta, e: Entry)
    requires Built(levels, disk, t, meta, maxLevels) && i < |levels| && Stays(levels, t, i, f) && e in Es(disk, f)
    ensures e in Live(CompactLevels(levels, t, meta), disk)
  {
    AfterMembers(levels, t, meta, i);
    assert f in CompactLevels(levels, t, meta)[i];
  }

  /** A newest version that the last level drops as a tombstone leaves no older version of its key behind. */
  lemma NothingResurrected(levels: Levels, disk: Disk, t: Task, meta: Option<FileMeta>, maxLevels: nat,
                           i: nat, f: FileMeta, e: Entry, d: Entry)
    requires Built(levels, disk, t, meta, maxLevels)
    requires (i == t.level && f in t.inputs) || (i == t.target && f in t.targets)
    requires e in Es(disk, f) && Top(Live(levels, disk), e)
    requires IsBottom(t, maxLevels) && e.valueType == Tombstone
    requires d in Live(CompactLevels(levels, t, meta), disk)
    ensures d.key != e.key
  {
    hide LevelInv, FindOverlapping, MinKey, MaxKey, MetaFor, CompactLevels, Output, LiveFrom, Unused, Source, Numbered;
    AfterIsLive(levels, disk, t, meta, maxLevels, d);
    var j, g := WhereLive(CompactLevels(levels, t, meta), disk, d);
    InvFacts(levels, disk);
    AfterMembers(levels, t, meta, j);
    if d.key == e.key {
      if Stays(levels, t, j, g) {
        StaysAgainstSource(levels, disk, t, j, g, d, i, f, e);
      } else {
        NotInOutput(levels, disk, t, maxLevels, f, e, d);
      }
    }
  }

  lemma InvFacts(levels: Levels, disk: Disk)
    requires LevelInv(levels, disk)
    ensures Numbered(levels)
  {
  }

  /** The dropped tombstone is the newest version of its key among the inputs, so none of its key is written. */
  lemma NotInOutput(levels: Levels, disk: Disk, t: Task, maxLevels: nat, f: FileMeta, e: Entry, d: Entry)
    requires LevelInv(levels, disk) && TaskOK(levels, t) && maxLevels >= 1 && IsBottom(t, maxLevels)
    requires f in t.Files() && e in Es(disk, f) && Top(Live(levels, disk), e) && e.valueType == Tombstone
    requires d in Output(t, disk, maxLevels)
    ensures d.key != e.key
  {
    hide LevelInv, FindOverlapping, MinKey, MaxKey, Output, LiveFrom;
    OutputIsNewest(levels, disk, t, maxLevels);
    SourceIsLive(levels, disk, t);
    assert e in Source(t, disk);
    if d.key == e.key {
      LiveUnique(levels, disk, d, e);
    }
  }

  /** Compaction preserves meaning: it drops only superseded versions and, on the last level, tombstones that have
      nothing left to hide. */
  lemma CompactionCondenses(levels: Levels, disk: Disk, t: Task, meta: Option<FileMeta>, maxLevels: nat)
    requires Built(levels, disk, t, meta, maxLevels)
    ensures Condenses(Live(levels, disk), Live(CompactLevels(levels, t, meta), disk))
  {
    var before, after := Live(levels, disk), Live(CompactLevels(levels, t, meta), disk);
    forall e | e in after ensures e in before {
      AfterIsLive(levels, disk, t, meta, maxLevels, e);
    }
    forall e | Top(before, e)
      ensures e in after || (e.valueType == Tombstone && forall x | x in after :: x.key != e.key)
    {
      TopKeptOrCleared(levels, disk, t, meta, maxLevels, e);
    }
  }

  lemma TopKeptOrCleared(levels: Levels, disk: Disk, t: Task, meta: Option<FileMeta>, maxLevels: nat, e: Entry)
    requires Built(levels, disk, t, meta, maxLevels) && Top(Live(levels, disk), e)
    ensures var after := Live(CompactLevels(levels, t, meta), disk);
            e in after || (e.valueType == Tombstone && forall x | x in after :: x.key != e.key)
  {
    hide LevelInv, FindOverlapping, MinKey, MaxKey, CompactLevels, LiveFrom, Output;
    var after := Live(CompactLevels(levels, t, meta), disk);
    var i, f := WhereLive(levels, disk, e);
    if Stays(levels, t, i, f) {
      StayingIsLive(levels, disk, t, meta, maxLevels, i, f, e);
    } else if e in Output(t, disk, maxLevels) {
      OutputIsLive(levels, disk, t, meta, maxLevels, e);
    } else {
      TopOfSource(levels, disk, t, f, e);
      OutputIsNewest(levels, disk, t, maxLevels);
      forall x | x in after ensures x.key != e.key {
        NothingResurrected(levels, disk, t, meta, maxLevels, i, f, e, x);
      }
    }
  }

  lemma TopOfSource(levels: Levels, disk: Disk, t: Task, f: FileMeta, e: Entry)
    requires TaskOK(levels, t) && Top(Live(levels, disk), e) && f in t.Files() && e in Es(disk, f)
    ensures Top(Source(t, disk), e)
  {
    SourceIsLive(levels, disk, t);
  }
}
