/** Level structure, version edits, and the version set that replays them (src/manifest). */
module Versions {
  import opened Keys

  datatype FileMeta = FileMeta(number: nat, size: nat, smallest: Key, largest: Key)

  type Levels = seq<seq<FileMeta>>

  datatype VersionEdit = VersionEdit(
    nextFile: Option<nat>,
    lastSeq: Option<nat>,
    newFiles: seq<(nat, FileMeta)>,
    deletedFiles: seq<(nat, nat)>)

  /** A version together with the two counters kept beside it. */
  datatype Version = Version(levels: Levels, nextFile: nat, lastSeq: nat)

  function EmptyVersion(maxLevels: nat): Version {
    Version(seq(maxLevels, _ => []), 1, 0)
  }

  // ----- What applying an edit computes -----

  function Retain(files: seq<FileMeta>, number: nat): seq<FileMeta> {
    if files == [] then []
    else
      var last := files[|files| - 1];
      Retain(files[..|files| - 1], number) + if last.number == number then [] else [last]
  }

  function DeleteFiles(levels: Levels, deleted: seq<(nat, nat)>): (r: Levels)
    ensures |r| == |levels|
  {
    if deleted == [] then levels
    else
      var (level, number) := deleted[|deleted| - 1];
      var before := DeleteFiles(levels, deleted[..|deleted| - 1]);
      if level < |before| then before[level := Retain(before[level], number)] else before
  }

  /** Inserts `f` behind every file whose smallest key is not above its own. */
  function InsertFile(files: seq<FileMeta>, f: FileMeta): seq<FileMeta> {
    if files == [] || Le(files[|files| - 1].smallest, f.smallest) then files + [f]
    else InsertFile(files[..|files| - 1], f) + [files[|files| - 1]]
  }

  /** Stable sort by smallest key. */
  function SortFiles(files: seq<FileMeta>): seq<FileMeta> {
    if files == [] then []
    else InsertFile(SortFiles(files[..|files| - 1]), files[|files| - 1])
  }

  function AddFile(v: Version, level: nat, meta: FileMeta): (r: Version)
    ensures |r.levels| == |v.levels|
  {
    if level >= |v.levels| then v
    else
      var pushed := v.levels[level] + [meta];
      Version(
        v.levels[level := if level > 0 then SortFiles(pushed) else pushed],
        if meta.number >= v.nextFile then meta.number + 1 else v.nextFile,
        v.lastSeq)
  }

  function AddFiles(v: Version, added: seq<(nat, FileMeta)>): (r: Version)
    ensures |r.levels| == |v.levels|
  {
    if added == [] then v
    else
      var (level, meta) := added[|added| - 1];
      AddFile(AddFiles(v, added[..|added| - 1]), level, meta)
  }

  function RaiseTo(current: nat, bound: Option<nat>): nat {
    if bound.Some? && bound.value > current then bound.value else current
  }

  function ApplyEdit(v: Version, edit: VersionEdit): (r: Version)
    ensures |r.levels| == |v.levels|
  {
    var changed := AddFiles(v.(levels := DeleteFiles(v.levels, edit.deletedFiles)), edit.newFiles);
    Version(changed.levels, RaiseTo(changed.nextFile, edit.nextFile), RaiseTo(changed.lastSeq, edit.lastSeq))
  }

  /** The version a manifest stands for: its edits applied in order to the empty version. */
  function Replay(edits: seq<VersionEdit>, maxLevels: nat): (r: Version)
    ensures |r.levels| == maxLevels
  {
    if edits == [] then EmptyVersion(maxLevels)
    else ApplyEdit(Replay(edits[..|edits| - 1], maxLevels), edits[|edits| - 1])
  }

  lemma ReplayAppend(edits: seq<VersionEdit>, edit: VersionEdit, maxLevels: nat)
    ensures Replay(edits + [edit], maxLevels) == ApplyEdit(Replay(edits, maxLevels), edit)
  {
    assert (edits + [edit])[..|edits|] == edits;
  }

  /** Both counters end at the least value that bounds the old one, the edit's own and the files it adds. */
  lemma EditCounters(v: Version, edit: VersionEdit)
    ensures var w := ApplyEdit(v, edit);
            && w.lastSeq
               == (if edit.lastSeq.Some? && edit.lastSeq.value > v.lastSeq then edit.lastSeq.value else v.lastSeq)
            && w.nextFile >= v.nextFile && (edit.nextFile.Some? ==> w.nextFile >= edit.nextFile.value)
            && (forall x | x in edit.newFiles && x.0 < |v.levels| :: w.nextFile > x.1.number)
            && (|| w.nextFile == v.nextFile || edit.nextFile == Some(w.nextFile)
                || exists x :: x in edit.newFiles && x.0 < |v.levels| && w.nextFile == x.1.number + 1)
  {
    AddedCounters(v.(levels := DeleteFiles(v.levels, edit.deletedFiles)), edit.newFiles);
  }

  lemma {:induction false} AddedCounters(v: Version, added: seq<(nat, FileMeta)>)
    ensures var w := AddFiles(v, added);
            && w.lastSeq == v.lastSeq && w.nextFile >= v.nextFile
            && (forall x | x in added && x.0 < |v.levels| :: w.nextFile > x.1.number)
            && (w.nextFile == v.nextFile || exists x :: x in added && x.0 < |v.levels| && w.nextFile == x.1.number + 1)
  {
    if added != [] {
      hide SortFiles;
      var init, last := added[..|added| - 1], added[|added| - 1];
      assert added == init + [last];
      AddedCounters(v, init);
      assert last in added;
    }
  }

  // ----- Facts about the pieces -----

  lemma {:induction false} RetainMembers(files: seq<FileMeta>, number: nat)
    ensures forall f :: f in Retain(files, number) <==> f in files && f.number != number
  {
    if files != [] {
      RetainMembers(files[..|files| - 1], number);
      assert files == files[..|files| - 1] + [files[|files| - 1]];
    }
  }

  lemma {:induction false} DeleteMembers(levels: Levels, deleted: seq<(nat, nat)>, i: nat)
    requires i < |levels|
    ensures forall f :: f in DeleteFiles(levels, deleted)[i] <==> f in levels[i] && (i, f.number) !in deleted
  {
    if deleted != [] {
      var init, last := deleted[..|deleted| - 1], deleted[|deleted| - 1];
      assert deleted == init + [last];
      DeleteMembers(levels, init, i);
      RetainMembers(DeleteFiles(levels, init)[i], last.1);
    }
  }

  lemma {:induction false} InsertMembers(files: seq<FileMeta>, f: FileMeta)
    ensures multiset(InsertFile(files, f)) == multiset(files) + multiset{f}
  {
    if files != [] {
      assert files == files[..|files| - 1] + [files[|files| - 1]];
      InsertMembers(files[..|files| - 1], f);
    }
  }

  lemma {:induction false} SortMembers(files: seq<FileMeta>)
    ensures multiset(SortFiles(files)) == multiset(files)
  {
    if files != [] {
      assert files == files[..|files| - 1] + [files[|files| - 1]];
      SortMembers(files[..|files| - 1]);
      InsertMembers(SortFiles(files[..|files| - 1]), files[|files| - 1]);
    }
  }

  ghost predicate Ascends(files: seq<FileMeta>) {
    forall i, j | 0 <= i < j < |files| :: Le(files[i].smallest, files[j].smallest)
  }

  lemma {:induction false} InsertAscends(files: seq<FileMeta>, f: FileMeta)
    requires Ascends(files)
    ensures Ascends(InsertFile(files, f))
  {
    if files != [] {
      hide Ascends, Lt;
      var init, last := files[..|files| - 1], files[|files| - 1];
      assert files == init + [last];
      AscendsSplit(init, last);
      InsertAscends(init, f);
      if Le(last.smallest, f.smallest) {
        LinearOrder();
        AscendsJoin(files, f);
      } else {
        LinearOrder();
        InsertMembers(init, f);
        forall x | x in InsertFile(init, f) ensures Le(x.smallest, last.smallest) {
          assert x in multiset(InsertFile(init, f));
          assert x in init || x == f;
        }
        AscendsJoin(InsertFile(init, f), last);
      }
    }
  }

  lemma AscendsSplit(init: seq<FileMeta>, last: FileMeta)
    requires Ascends(init + [last])
    ensures Ascends(init)
    ensures forall x | x in init + [last] :: Le(x.smallest, last.smallest)
  {
    LtIrreflexive(last.smallest);
    var files := init + [last];
    forall i, j | 0 <= i < j < |init| ensures Le(init[i].smallest, init[j].smallest) {
      assert Le(files[i].smallest, files[j].smallest);
    }
    forall x | x in files ensures Le(x.smallest, last.smallest) {
      var i :| 0 <= i < |files| && files[i] == x;
      assert i == |init| || Le(files[i].smallest, files[|init|].smallest);
    }
  }

  lemma AscendsJoin(init: seq<FileMeta>, last: FileMeta)
    requires Ascends(init) && forall x | x in init :: Le(x.smallest, last.smallest)
    ensures Ascends(init + [last])
  {
  }

  /** Sorting a level puts it in the order of the smallest keys. */
  lemma {:induction false} SortAscends(files: seq<FileMeta>)
    ensures Ascends(SortFiles(files))
  {
    if files != [] {
      SortAscends(files[..|files| - 1]);
      InsertAscends(SortFiles(files[..|files| - 1]), files[|files| - 1]);
    }
  }

  /** Pairwise disjoint key ranges in ascending order. */
  ghost predicate Chain(files: seq<FileMeta>) {
    && (forall f | f in files :: Le(f.smallest, f.largest))
    && (forall a, b | 0 <= a < b < |files| :: Lt(files[a].largest, files[b].smallest))
  }

  lemma ChainPrefix(files: seq<FileMeta>)
    requires Chain(files) && files != []
    ensures Chain(files[..|files| - 1])
    ensures forall f | f in files[..|files| - 1] :: Lt(f.largest, files[|files| - 1].smallest)
  {
  }

  lemma {:induction false} RetainChain(files: seq<FileMeta>, number: nat)
    requires Chain(files)
    ensures Chain(Retain(files, number))
  {
    if files != [] {
      ChainPrefix(files);
      RetainChain(files[..|files| - 1], number);
      RetainMembers(files[..|files| - 1], number);
    }
  }

  lemma {:induction false} DeleteChain(levels: Levels, deleted: seq<(nat, nat)>, i: nat)
    requires i < |levels| && Chain(levels[i])
    ensures Chain(DeleteFiles(levels, deleted)[i])
  {
    if deleted != [] {
      var init, last := deleted[..|deleted| - 1], deleted[|deleted| - 1];
      DeleteChain(levels, init, i);
      RetainChain(DeleteFiles(levels, init)[i], last.1);
    }
  }

  lemma ChainAscends(f: FileMeta, g: FileMeta)
    requires Le(f.smallest, f.largest) && Lt(f.largest, g.smallest)
    ensures Le(f.smallest, g.smallest)
  {
    if Lt(g.smallest, f.smallest) {
      LtTransitive(f.largest, g.smallest, f.smallest);
    }
  }

  lemma SortLast(init: seq<FileMeta>, last: FileMeta)
    requires Chain(init + [last]) && SortFiles(init) == init
    ensures SortFiles(init + [last]) == init + [last]
  {
    hide Lt, Le;
    var files := init + [last];
    assert files[..|init|] == init;
    if init != [] {
      var f := init[|init| - 1];
      assert files[|init| - 1] == f && files[|init|] == last && f in files;
      ChainAscends(f, last);
    }
  }

  /** Sorting a chain changes nothing. */
  lemma {:induction false} SortChain(files: seq<FileMeta>)
    requires Chain(files)
    ensures SortFiles(files) == files
  {
    hide InsertFile, Chain;
    if files != [] {
      var init, last := files[..|files| - 1], files[|files| - 1];
      assert files == init + [last];
      ChainPrefix(files);
      SortChain(init);
      SortLast(init, last);
    }
  }

  predicate Apart(f: FileMeta, g: FileMeta) {
    Lt(f.largest, g.smallest) || Lt(g.largest, f.smallest)
  }

  /** Sorting a file into a chain of ranges that all miss it gives a chain again. */
  lemma {:induction false} InsertChain(files: seq<FileMeta>, f: FileMeta)
    requires Chain(files) && Le(f.smallest, f.largest)
    requires forall g | g in files :: Apart(f, g)
    ensures Chain(InsertFile(files, f))
  {
    if files != [] {
      LinearOrder();
      ChainPrefix(files);
      var init, last := files[..|files| - 1], files[|files| - 1];
      assert last in files;
      if Le(last.smallest, f.smallest) {
        forall g | g in files ensures Lt(g.largest, f.smallest) {
          assert g == last || g in init;
        }
      } else {
        InsertChain(init, f);
        InsertMembers(init, f);
        forall g | g in InsertFile(init, f) ensures Lt(g.largest, last.smallest) {
          assert g in multiset(InsertFile(init, f));
        }
      }
    }
  }

  // ----- The version set -----

  class VersionSet {
    var levels: Levels
    var nextFileNumber: nat
    var lastSequence: nat
    const maxLevels: nat

    ghost predicate Valid()
      reads this
    {
      |levels| == maxLevels
    }

    function State(): Version
      reads this
    {
      Version(levels, nextFileNumber, lastSequence)
    }

    constructor (maxLevels: nat)
      ensures Valid() && this.maxLevels == maxLevels && State() == EmptyVersion(maxLevels)
      ensures nextFileNumber == 1 && lastSequence == 0 && forall i | 0 <= i < maxLevels :: levels[i] == []
    {
      this.maxLevels := maxLevels;
      levels, nextFileNumber, lastSequence := seq(maxLevels, _ => []), 1, 0;
    }

    method NextFileNumber() returns (n: nat)
      requires Valid()
      modifies this`nextFileNumber
      ensures Valid() && n == old(nextFileNumber) && nextFileNumber == n + 1
    {
      n := nextFileNumber;
      nextFileNumber := n + 1;
    }

    method NextSequence() returns (n: nat)
      requires Valid()
      modifies this`lastSequence
      ensures Valid() && n == old(lastSequence) + 1 && lastSequence == n
    {
      lastSequence := lastSequence + 1;
      n := lastSequence;
    }

    method SetLastSequence(seqNo: nat)
      requires Valid()
      modifies this`lastSequence
      ensures Valid() && lastSequence == seqNo
    {
      lastSequence := seqNo;
    }

    /** Both counters only grow, and the new state is the edit applied to the old one. */
    method LogAndApply(edit: VersionEdit)
      requires Valid()
      modifies this
      ensures Valid() && State() == ApplyEdit(old(State()), edit)
      ensures nextFileNumber >= old(nextFileNumber) && lastSequence >= old(lastSequence)
    {
      hide SortFiles, Retain;
      var currentLevels := levels;
      var i := 0;
      while i < |edit.deletedFiles|
        invariant 0 <= i <= |edit.deletedFiles|
        invariant |currentLevels| == |levels|
        invariant currentLevels == DeleteFiles(levels, edit.deletedFiles[..i])
        invariant State() == old(State())
      {
        var (level, number) := edit.deletedFiles[i];
        assert edit.deletedFiles[..i + 1][..i] == edit.deletedFiles[..i];
        if level < |currentLevels| {
          currentLevels := currentLevels[level := Retain(currentLevels[level], number)];
        }
        i := i + 1;
      }
      assert edit.deletedFiles[..i] == edit.deletedFiles;
      ghost var base := old(State()).(levels := currentLevels);

      var j := 0;
      while j < |edit.newFiles|
        invariant 0 <= j <= |edit.newFiles|
        invariant |currentLevels| == |levels| == maxLevels
        invariant Version(currentLevels, nextFileNumber, lastSequence) == AddFiles(base, edit.newFiles[..j])
        invariant nextFileNumber >= old(nextFileNumber) && lastSequence == old(lastSequence)
        invariant levels == old(levels)
      {
        var (level, meta) := edit.newFiles[j];
        assert edit.newFiles[..j + 1][..j] == edit.newFiles[..j];
        if level < |currentLevels| {
          if meta.number >= nextFileNumber {
            nextFileNumber := meta.number + 1;
          }
          currentLevels := currentLevels[level := currentLevels[level] + [meta]];
          if level > 0 {
            currentLevels := currentLevels[level := SortFiles(currentLevels[level])];
          }
        }
        j := j + 1;
      }
      assert edit.newFiles[..j] == edit.newFiles;

      if edit.nextFile.Some? && edit.nextFile.value > nextFileNumber {
        nextFileNumber := edit.nextFile.value;
      }
      if edit.lastSeq.Some? && edit.lastSeq.value > lastSequence {
        lastSequence := edit.lastSeq.value;
      }
      levels := currentLevels;
    }
  }
}
