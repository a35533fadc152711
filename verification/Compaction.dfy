/** Picking, merging and applying one compaction (src/compaction). */
module Compaction {
  import opened Keys
  import opened Entries
  import opened Versions
  import opened LevelStore

  datatype Task = Task(level: nat, inputs: seq<FileMeta>, target: nat, targets: seq<FileMeta>) {
    function Files(): seq<FileMeta> {
      inputs + targets
    }
  }

  datatype Compactor = Compactor(maxLevels: nat, baseLevelSize: nat, l0Trigger: nat)

  predicate RangesOverlap(min1: Key, max1: Key, min2: Key, max2: Key) {
    !(Lt(max1, min2) || Lt(max2, min1))
  }

  /** Two non-empty closed ranges overlap exactly when some key lies in both. */
  lemma OverlapMeansSharedKey(min1: Key, max1: Key, min2: Key, max2: Key)
    requires Le(min1, max1) && Le(min2, max2)
    ensures RangesOverlap(min1, max1, min2, max2)
            <==> exists k :: Le(min1, k) && Le(k, max1) && Le(min2, k) && Le(k, max2)
  {
    LinearOrder();
    if RangesOverlap(min1, max1, min2, max2) {
      var k := if Lt(min1, min2) then min2 else min1;
      assert Le(min1, k) && Le(k, max1) && Le(min2, k) && Le(k, max2);
    }
  }

  function FindOverlapping(files: seq<FileMeta>, smallest: Key, largest: Key): seq<FileMeta> {
    if files == [] then []
    else
      (if RangesOverlap(smallest, largest, files[0].smallest, files[0].largest) then [files[0]] else [])
      + FindOverlapping(files[1..], smallest, largest)
  }

  lemma {:induction false} OverlappingMembers(files: seq<FileMeta>, smallest: Key, largest: Key)
    ensures forall f :: f in FindOverlapping(files, smallest, largest)
                        <==> f in files && RangesOverlap(smallest, largest, f.smallest, f.largest)
    ensures |FindOverlapping(files, smallest, largest)| <= |files|
  {
    if files != [] {
      OverlappingMembers(files[1..], smallest, largest);
      assert files == [files[0]] + files[1..];
    }
  }

  /** The overlapping files keep their order, each as often as it stands there. */
  lemma {:induction false} OverlappingJoin(xs: seq<FileMeta>, ys: seq<FileMeta>, smallest: Key, largest: Key)
    ensures FindOverlapping(xs + ys, smallest, largest)
         == FindOverlapping(xs, smallest, largest) + FindOverlapping(ys, smallest, largest)
  {
    if xs == [] {
      assert xs + ys == ys;
    } else {
      assert (xs + ys)[1..] == xs[1..] + ys;
      OverlappingJoin(xs[1..], ys, smallest, largest);
    }
  }

  function MinKey(files: seq<FileMeta>): Key
    requires files != []
  {
    if |files| == 1 then files[0].smallest
    else
      var k, f := MinKey(files[..|files| - 1]), files[|files| - 1];
      if Lt(f.smallest, k) then f.smallest else k
  }

  function MaxKey(files: seq<FileMeta>): Key
    requires files != []
  {
    if |files| == 1 then files[0].largest
    else
      var k, f := MaxKey(files[..|files| - 1]), files[|files| - 1];
      if Lt(k, f.largest) then f.largest else k
  }

  lemma {:induction false} HullCovers(files: seq<FileMeta>, f: FileMeta)
    requires f in files
    ensures Le(MinKey(files), f.smallest) && Le(f.largest, MaxKey(files))
    ensures exists g, h :: g in files && h in files && MinKey(files) == g.smallest && MaxKey(files) == h.largest
  {
    LinearOrder();
    if |files| > 1 {
      var init, last := files[..|files| - 1], files[|files| - 1];
      assert files == init + [last];
      HullCovers(init, if f in init then f else init[0]);
      var g, h :| g in init && h in init && MinKey(init) == g.smallest && MaxKey(init) == h.largest;
      assert g in files && h in files && last in files;
    }
  }

  /** What a picked task must satisfy for compacting it to be meaning-preserving. */
  ghost predicate TaskOK(levels: Levels, t: Task) {
    && t.target == t.level + 1 < |levels|
    && t.inputs != []
    && (t.level == 0 ==> t.inputs <= levels[0])
    && (t.level > 0 ==> |t.inputs| == 1 && t.inputs[0] in levels[t.level])
    && t.targets == FindOverlapping(levels[t.target], MinKey(t.inputs), MaxKey(t.inputs))
  }

  // ----- Picking -----

  function LevelSize(files: seq<FileMeta>): nat {
    if files == [] then 0 else LevelSize(files[..|files| - 1]) + files[|files| - 1].size
  }

  /** Every file counts once, wherever it stands. */
  lemma {:induction false} LevelSizeCounts(xs: seq<FileMeta>, f: FileMeta, ys: seq<FileMeta>)
    ensures LevelSize([]) == 0
    ensures LevelSize(xs + [f] + ys) == LevelSize(xs + ys) + f.size
  {
    if ys == [] {
      assert xs + [f] + ys == xs + [f] && xs + ys == xs;
    } else {
      var init, last := ys[..|ys| - 1], ys[|ys| - 1];
      LevelSizeCounts(xs, f, init);
      assert xs + [f] + ys == xs + [f] + init + [last] && xs + ys == xs + init + [last];
    }
  }

  function Pow10(n: nat): nat {
    if n == 0 then 1 else 10 * Pow10(n - 1)
  }

  function Limit(c: Compactor, level: nat): nat
    requires level >= 1
  {
    c.baseLevelSize * Pow10(level - 1)
  }

  /** Each level may hold ten times what the level above may. */
  lemma LimitGrowsTenfold(c: Compactor, level: nat)
    requires level >= 1
    ensures Limit(c, 1) == c.baseLevelSize
    ensures Limit(c, level + 1) == 10 * Limit(c, level)
  {
    var n := Pow10(level - 1);
    assert c.baseLevelSize * (10 * n) == 10 * (c.baseLevelSize * n);
  }

  predicate Oversized(c: Compactor, levels: Levels, i: nat)
    requires 1 <= i < |levels|
  {
    i + 1 < c.maxLevels && LevelSize(levels[i]) > Limit(c, i)
  }

  /** No compaction is due. */
  predicate Settled(c: Compactor, levels: Levels) {
    || levels == []
    || c.maxLevels <= 1
    || (|levels[0]| < c.l0Trigger && forall i | 1 <= i < |levels| :: !Oversized(c, levels, i))
  }

  /** What is compacted next: all of level 0 once it has reached the trigger, and otherwise the first file of the first
      oversized level. */
  ghost predicate Due(c: Compactor, levels: Levels, t: Task)
    requires levels != []
  {
    && t.target == t.level + 1
    && (if |levels[0]| >= c.l0Trigger then t.level == 0 && t.inputs == levels[0]
        else
          && 1 <= t.level < |levels| && Oversized(c, levels, t.level)
          && (forall i | 1 <= i < t.level :: !Oversized(c, levels, i))
          && levels[t.level] != [] && t.inputs == [levels[t.level][0]])
  }

  /** Level 0 is compacted whole once it holds `l0Trigger` files; otherwise the first oversized level gives its first
      file. A trigger of zero makes the source index an empty level. */
  method PickCompaction(c: Compactor, levels: Levels) returns (task: Option<Task>)
    requires c.l0Trigger >= 1
    ensures task.None? <==> Settled(c, levels)
    ensures task.Some? ==> levels != [] && Due(c, levels, task.value)
    ensures task.Some? && |levels| == c.maxLevels ==> TaskOK(levels, task.value)
    ensures |levels| == c.maxLevels > 1 && task.None? ==>
              && |levels[0]| < c.l0Trigger
              && forall i | 1 <= i < |levels| - 1 :: LevelSize(levels[i]) <= Limit(c, i)
    ensures task.Some? ==>
              && c.maxLevels > 1
              && (task.value.level == 0 ==> |levels[0]| >= c.l0Trigger && task.value.inputs == levels[0])
              && (task.value.level > 0 ==>
                    && |levels[0]| < c.l0Trigger && task.value.level < |levels| && task.value.level + 1 < c.maxLevels
                    && LevelSize(levels[task.value.level]) > Limit(c, task.value.level)
                    && (forall i | 1 <= i < task.value.level :: LevelSize(levels[i]) <= Limit(c, i))
                    && levels[task.value.level] != [] && task.value.inputs == [levels[task.value.level][0]])
  {
    if levels == [] || c.maxLevels <= 1 {
      return None;
    }
    hide LevelSize, Limit, FindOverlapping, Lt;
    var l0 := levels[0];
    if |l0| >= c.l0Trigger {
      var minKey, maxKey := l0[0].smallest, l0[0].largest;
      var i := 1;
      assert l0[..1] == [l0[0]];
      while i < |l0|
        invariant 1 <= i <= |l0|
        invariant minKey == MinKey(l0[..i]) && maxKey == MaxKey(l0[..i])
      {
        assert l0[..i + 1][..i] == l0[..i];
        if Lt(l0[i].smallest, minKey) {
          minKey := l0[i].smallest;
        }
        if Lt(maxKey, l0[i].largest) {
          maxKey := l0[i].largest;
        }
        i := i + 1;
      }
      assert l0[..i] == l0;
      var targets := if |levels| > 1 then FindOverlapping(levels[1], minKey, maxKey) else [];
      return Some(Task(0, l0, 1, targets));
    }
    for i := 1 to |levels|
      invariant forall j | 1 <= j < i :: !Oversized(c, levels, j)
    {
      if i + 1 >= c.maxLevels || levels[i] == [] {
        NothingOversized(c, levels, i);
        continue;
      }
      if LevelSize(levels[i]) > Limit(c, i) {
        var chosen := levels[i][0];
        var targets := if i + 1 < |levels| then FindOverlapping(levels[i + 1], chosen.smallest, chosen.largest) else [];
        assert Oversized(c, levels, i);
        WithinLimits(c, levels, i);
        return Some(Task(i, [chosen], i + 1, targets));
      }
    }
    WithinLimits(c, levels, |levels|);
    return None;
  }

  lemma NothingOversized(c: Compactor, levels: Levels, i: nat)
    requires 1 <= i < |levels| && (i + 1 >= c.maxLevels || levels[i] == [])
    ensures !Oversized(c, levels, i)
  {
  }

  lemma WithinLimits(c: Compactor, levels: Levels, n: nat)
    requires n <= |levels| && forall i | 1 <= i < n :: !Oversized(c, levels, i)
    ensures forall i | 1 <= i < n && i + 1 < c.maxLevels :: LevelSize(levels[i]) <= Limit(c, i)
  {
    forall i | 1 <= i < n && i + 1 < c.maxLevels ensures LevelSize(levels[i]) <= Limit(c, i) {
      assert !Oversized(c, levels, i);
    }
  }

  // ----- Merging -----

  /** A later entry replaces an earlier one of its key unless it is older. */
  function Absorb(m: Table, e: Entry): Table {
    if e.key in m && e.seqNo < m[e.key].seqNo then m else m[e.key := e]
  }

  function AbsorbAll(m: Table, es: seq<Entry>): Table {
    if es == [] then m else Absorb(AbsorbAll(m, es[..|es| - 1]), es[|es| - 1])
  }

  function MergeFiles(files: seq<FileMeta>, disk: Disk): Table {
    if files == [] then map[]
    else AbsorbAll(MergeFiles(files[..|files| - 1], disk), Es(disk, files[|files| - 1]))
  }

  function DropTombstones(m: Table): Table {
    map k | k in m && m[k].valueType == Value :: m[k]
  }

  predicate IsBottom(t: Task, maxLevels: nat) {
    t.target >= maxLevels - 1
  }

  function Survivors(t: Task, disk: Disk, maxLevels: nat): Table {
    var merged := MergeFiles(t.Files(), disk);
    if IsBottom(t, maxLevels) then DropTombstones(merged) else merged
  }

  /** The entries a compaction writes, in key order. */
  ghost function Output(t: Task, disk: Disk, maxLevels: nat): seq<Entry> {
    Ascending(Survivors(t, disk, maxLevels))
  }

  /** `m` keeps, for every key occurring in `src`, one of its newest versions, and nothing else. */
  ghost predicate KeepsNewest(m: Table, src: set<Entry>) {
    && WellFormed(m)
    && (forall k | k in m :: m[k] in src)
    && (forall e | e in src :: e.key in m && m[e.key].seqNo >= e.seqNo)
  }

  lemma AbsorbKeeps(m: Table, src: set<Entry>, e: Entry)
    requires KeepsNewest(m, src)
    ensures KeepsNewest(Absorb(m, e), src + {e})
  {
  }

  /** The entry kept under a key is the last one among the newest of the list. */
  lemma {:induction false} LastNewestIsKept(es: seq<Entry>, i: nat)
    requires i < |es| && forall j | 0 <= j < |es| && es[j].key == es[i].key :: es[j].seqNo <= es[i].seqNo
    requires forall j | i < j < |es| && es[j].key == es[i].key :: es[j].seqNo < es[i].seqNo
    ensures var m := AbsorbAll(map[], es); es[i].key in m && m[es[i].key] == es[i]
  {
    var init, last := es[..|es| - 1], es[|es| - 1];
    if i < |es| - 1 {
      LastNewestIsKept(init, i);
    } else {
      assert es == init + [last];
      AbsorbAllKeeps(map[], {}, init);
      var m := AbsorbAll(map[], init);
      if last.key in m {
        assert m[last.key] in (set e | e in init);
        var j :| 0 <= j < |init| && init[j] == m[last.key];
        assert es[j].key == last.key;
      }
    }
  }

  lemma {:induction false} AbsorbAllKeeps(m: Table, src: set<Entry>, es: seq<Entry>)
    requires KeepsNewest(m, src)
    ensures KeepsNewest(AbsorbAll(m, es), src + set e | e in es)
  {
    if es == [] {
      assert src + (set e | e in es) == src;
    } else {
      var init, last := es[..|es| - 1], es[|es| - 1];
      AbsorbAllKeeps(m, src, init);
      AbsorbKeeps(AbsorbAll(m, init), src + (set e | e in init), last);
      assert es == init + [last];
      assert src + (set e | e in es) == src + (set e | e in init) + {last};
    }
  }

  lemma {:induction false} MergeKeeps(files: seq<FileMeta>, disk: Disk)
    ensures KeepsNewest(MergeFiles(files, disk), FileEntries(files, disk))
  {
    if files != [] {
      hide KeepsNewest, AbsorbAll, FileEntries, Es;
      var init, last := files[..|files| - 1], files[|files| - 1];
      assert files == init + [last];
      MergeKeeps(init, disk);
      AbsorbAllKeeps(MergeFiles(init, disk), FileEntries(init, disk), Es(disk, last));
      AppendEntries(init, disk, last);
      assert Own(disk, last) == set e | e in Es(disk, last);
    }
  }

  function EditFor(t: Task, meta: Option<FileMeta>): VersionEdit {
    VersionEdit(
      None, None,
      if meta.Some? then [(t.target, meta.value)] else [],
      Deletions(t.level, t.inputs) + Deletions(t.target, t.targets))
  }

  function Deletions(level: nat, files: seq<FileMeta>): seq<(nat, nat)> {
    if files == [] then []
    else Deletions(level, files[..|files| - 1]) + [(level, files[|files| - 1].number)]
  }

  lemma {:induction false} DeletionMembers(level: nat, files: seq<FileMeta>)
    ensures forall i, n :: (i, n) in Deletions(level, files) <==> i == level && exists f :: f in files && f.number == n
  {
    if files != [] {
      var init, last := files[..|files| - 1], files[|files| - 1];
      DeletionMembers(level, init);
      assert files == init + [last];
    }
  }

  ghost predicate MetaFor(meta: FileMeta, es: seq<Entry>) {
    es != [] && meta.smallest == es[0].key && meta.largest == es[|es| - 1].key
  }

  method MergeTable(keyMap: Table, entries: seq<Entry>) returns (merged: Table)
    ensures merged == AbsorbAll(keyMap, entries)
  {
    merged := keyMap;
    for j := 0 to |entries|
      invariant merged == AbsorbAll(keyMap, entries[..j])
    {
      var entry := entries[j];
      assert entries[..j + 1][..j] == entries[..j];
      if entry.key in merged {
        if entry.seqNo >= merged[entry.key].seqNo {
          merged := merged[entry.key := entry];
        }
      } else {
        merged := merged[entry.key := entry];
      }
    }
    assert entries[..|entries|] == entries;
  }

  method MergeInputs(allFiles: seq<FileMeta>, disk: Disk) returns (keyMap: Table)
    ensures keyMap == MergeFiles(allFiles, disk)
  {
    keyMap := map[];
    for i := 0 to |allFiles|
      invariant keyMap == MergeFiles(allFiles[..i], disk)
    {
      assert allFiles[..i + 1][..i] == allFiles[..i];
      keyMap := MergeTable(keyMap, Es(disk, allFiles[i]));
    }
    assert allFiles[..|allFiles|] == allFiles;
  }

  method Merge(c: Compactor, t: Task, disk: Disk) returns (final: seq<Entry>)
    requires c.maxLevels >= 1
    ensures final == Output(t, disk, c.maxLevels)
  {
    var keyMap := MergeInputs(t.inputs + t.targets, disk);
    MergeKeeps(t.Files(), disk);
    final := FilterEntries(keyMap, t.target >= c.maxLevels - 1);
  }

  /** Merges the input tables, keeps the newest version of each key, drops tombstones on the last level, writes one
      table under a fresh number if anything survives, and returns the edit. `size` is what the table builder
      reports. */
  method RunCompaction(c: Compactor, t: Task, disk: Disk, nextFile: nat, size: nat)
    returns (edit: VersionEdit, disk': Disk, nextFile': nat)
    requires c.maxLevels >= 1
    ensures var out := Output(t, disk, c.maxLevels);
            if out == [] then edit == EditFor(t, None) && disk' == disk && nextFile' == nextFile
            else
              && disk' == disk[nextFile := out] && nextFile' == nextFile + 1
              && edit == EditFor(t, Some(FileMeta(nextFile, size, out[0].key, out[|out| - 1].key)))
  {
    var final := Merge(c, t, disk);
    edit := EditFor(t, None);
    disk', nextFile' := disk, nextFile;
    if final != [] {
      var number := nextFile;
      nextFile' := nextFile + 1;
      disk' := disk[number := final];
      var meta := FileMeta(number, size, final[0].key, final[|final| - 1].key);
      edit := edit.(newFiles := [(t.target, meta)]);
    }
  }

  function WithoutTombstones(es: seq<Entry>): seq<Entry> {
    if es == [] then []
    else
      var last := es[|es| - 1];
      WithoutTombstones(es[..|es| - 1]) + if last.valueType == Tombstone then [] else [last]
  }

  lemma {:induction false} WithoutTombstonesFacts(es: seq<Entry>)
    requires Strict(es)
    ensures Strict(WithoutTombstones(es))
    ensures forall e :: e in WithoutTombstones(es) <==> e in es && e.valueType != Tombstone
  {
    if es != [] {
      var init, last := es[..|es| - 1], es[|es| - 1];
      assert es == init + [last];
      hide Lt, Strict;
      StrictInit(init, last);
      WithoutTombstonesFacts(init);
      StrictWith(WithoutTombstones(init), last);
    }
  }

  lemma StrictInit(init: seq<Entry>, last: Entry)
    requires Strict(init + [last])
    ensures Strict(init) && forall e | e in init :: Lt(e.key, last.key)
  {
    var es := init + [last];
    forall i | 0 <= i < |init| ensures Lt(init[i].key, last.key) {
      assert Lt(es[i].key, es[|init|].key);
    }
    forall i, j | 0 <= i < j < |init| ensures Lt(init[i].key, init[j].key) {
      assert Lt(es[i].key, es[j].key);
    }
  }

  lemma StrictWith(init: seq<Entry>, last: Entry)
    requires Strict(init) && forall e | e in init :: Lt(e.key, last.key)
    ensures Strict(init + [last])
  {
    hide Lt;
  }

  /** The merged entries in key order, without tombstones on the last level. */
  method FilterEntries(keyMap: Table, isBottom: bool) returns (final: seq<Entry>)
    requires WellFormed(keyMap)
    ensures final == Ascending(if isBottom then DropTombstones(keyMap) else keyMap)
  {
    hide WellFormed, Strict, Ascending, DropTombstones;
    var all := IterateAscending(keyMap);
    final := [];
    for i := 0 to |all|
      invariant final == if isBottom then WithoutTombstones(all[..i]) else all[..i]
    {
      assert all[..i + 1][..i] == all[..i];
      if !isBottom || all[i].valueType != Tombstone {
        final := final + [all[i]];
      }
    }
    assert all[..|all|] == all;
    if isBottom {
      SurvivorsAscend(keyMap);
    }
  }

  /** Filtering the ordered entries is the same as ordering the filtered ones. */
  lemma SurvivorsAscend(keyMap: Table)
    requires WellFormed(keyMap)
    ensures WithoutTombstones(Ascending(keyMap)) == Ascending(DropTombstones(keyMap))
  {
    hide Ascending, Strict, WithoutTombstones;
    AscendingFacts(keyMap);
    var es, kept := WithoutTombstones(Ascending(keyMap)), DropTombstones(keyMap);
    WithoutTombstonesFacts(Ascending(keyMap));
    forall e ensures e in es <==> Holds(kept, e) {
      assert e in Ascending(keyMap) <==> Holds(keyMap, e);
    }
    AscendingUnique(kept, es);
  }
}
