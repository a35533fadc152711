/** Why repeated compaction ends: files only move down (src/engine.rs:385-409). */
module CompactionMeasure {
  import opened Keys
  import opened Versions
  import opened LevelStore
  import opened Compaction
  import opened CompactionLaws

  /** The files from level `i` down, each weighted by the number of levels it can still fall. */
  function Weight(levels: Levels, i: nat): nat
    requires i <= |levels|
    decreases |levels| - i
  {
    if i == |levels| then 0 else |levels[i]| * (|levels| - i) + Weight(levels, i + 1)
  }

  lemma MulMonotone(a: nat, b: nat, w: nat)
    ensures a <= b ==> a * w <= b * w
    ensures a + 1 <= b ==> a * w + w <= b * w
    ensures a <= b + 1 ==> a * w <= b * w + w
  {
    if a <= b {
      Distribute(a, b - a, w);
      if a < b {
        Distribute(1, b - a - 1, w);
      }
    } else if a == b + 1 {
      Distribute(b, 1, w);
    }
  }

  lemma Distribute(a: nat, d: nat, w: nat)
    ensures (a + d) * w == a * w + d * w && d * w >= 0
  {
  }

  lemma WeightStep(levels: Levels, i: nat)
    requires i < |levels|
    ensures Weight(levels, i) == |levels[i]| * (|levels| - i) + Weight(levels, i + 1)
  {
  }

  /** Fewer files on one level outweigh one more file on the next. */
  lemma {:induction false} WeightDrops(levels: Levels, after: Levels, level: nat, i: nat)
    requires |levels| == |after| && level + 1 < |levels| && i <= |levels|
    requires |after[level]| < |levels[level]| && |after[level + 1]| <= |levels[level + 1]| + 1
    requires forall j | 0 <= j < |levels| && j != level && j != level + 1 :: |after[j]| <= |levels[j]|
    ensures i <= level ==> Weight(after, i) < Weight(levels, i)
    ensures i == level + 1 ==> Weight(after, i) <= Weight(levels, i) + (|levels| - i)
    ensures i > level + 1 ==> Weight(after, i) <= Weight(levels, i)
    decreases |levels| - i
  {
    if i < |levels| {
      WeightDrops(levels, after, level, i + 1);
      var w := |levels| - i;
      MulMonotone(|after[i]|, |levels[i]|, w);
      WeightStep(levels, i);
      WeightStep(after, i);
    }
  }

  /** A file that is gone leaves the list shorter. */
  lemma {:induction false} RetainShorter(files: seq<FileMeta>, number: nat, f: FileMeta)
    ensures |Retain(files, number)| <= |files|
    ensures f in files && f !in Retain(files, number) ==> |Retain(files, number)| < |files|
  {
    if files != [] {
      var init, last := files[..|files| - 1], files[|files| - 1];
      RetainShorter(init, number, f);
      assert f in files <==> f in init || f == last;
      if last.number != number {
        assert Retain(files, number) == Retain(init, number) + [last];
      }
    }
  }

  lemma {:induction false} DeleteShorter(levels: Levels, deleted: seq<(nat, nat)>, i: nat, f: FileMeta)
    requires i < |levels|
    ensures |DeleteFiles(levels, deleted)[i]| <= |levels[i]|
    ensures f in levels[i] && f !in DeleteFiles(levels, deleted)[i] ==> |DeleteFiles(levels, deleted)[i]| < |levels[i]|
  {
    if deleted != [] {
      var init, last := deleted[..|deleted| - 1], deleted[|deleted| - 1];
      DeleteShorter(levels, init, i, f);
      RetainShorter(DeleteFiles(levels, init)[i], last.1, f);
    }
  }

  /** Every compaction strictly lowers the weight. */
  lemma CompactionLowersWeight(levels: Levels, t: Task, output: Option<FileMeta>)
    requires TaskOK(levels, t) && Numbered(levels)
    ensures Weight(CompactLevels(levels, t, output), 0) < Weight(levels, 0)
  {
    hide Numbered, TaskOK, Weight, CompactLevels;
    TaskInputs(levels, t);
    var after := CompactLevels(levels, t, output);
    assert t.inputs[0] !in DeleteFiles(levels, EditFor(t, output).deletedFiles)[t.level] by {
      LeftMembers(levels, t, output, t.level);
    }
    forall j | 0 <= j < |levels|
      ensures |after[j]| <= |levels[j]| + if j == t.target then 1 else 0
      ensures j == t.level ==> |after[j]| < |levels[j]|
    {
      DeleteShorter(levels, EditFor(t, output).deletedFiles, j, t.inputs[0]);
      AfterLength(levels, t, output, j);
    }
    WeightDrops(levels, after, t.level, 0);
  }

  lemma TaskInputs(levels: Levels, t: Task)
    requires TaskOK(levels, t)
    ensures t.inputs != [] && t.target == t.level + 1 < |levels| && t.inputs[0] in levels[t.level]
  {
    TaskFiles(levels, t, t.inputs[0]);
  }

  lemma AfterLength(levels: Levels, t: Task, output: Option<FileMeta>, j: nat)
    requires 0 < t.target < |levels| && j < |levels|
    ensures |CompactLevels(levels, t, output)[j]|
            == |DeleteFiles(levels, EditFor(t, output).deletedFiles)[j]|
               + if output.Some? && j == t.target then 1 else 0
  {
    if output.Some? && j == t.target {
      var pushed := DeleteFiles(levels, EditFor(t, output).deletedFiles)[j] + [output.value];
      SortMembers(pushed);
      SameLength(SortFiles(pushed), pushed);
    }
  }

  lemma SameLength(xs: seq<FileMeta>, ys: seq<FileMeta>)
    requires multiset(xs) == multiset(ys)
    ensures |xs| == |ys|
  {
    assert |multiset(xs)| == |xs| && |multiset(ys)| == |ys|;
  }

  /** With nothing left to weigh there is nothing left to compact. */
  lemma {:induction false} WeightlessIsEmpty(levels: Levels, i: nat)
    requires i <= |levels| && Weight(levels, i) == 0
    ensures forall j | i <= j < |levels| :: levels[j] == []
    decreases |levels| - i
  {
    if i < |levels| {
      if levels[i] != [] {
        MulMonotone(1, |levels[i]|, |levels| - i);
      }
      WeightlessIsEmpty(levels, i + 1);
    }
  }

  lemma WeightlessIsSettled(c: Compactor, levels: Levels)
    requires c.l0Trigger >= 1 && Weight(levels, 0) == 0
    ensures Settled(c, levels)
  {
    WeightlessIsEmpty(levels, 0);
    assert LevelSize([]) == 0;
  }
}
