/** The files a lookup opens, one after the other, and what it finds when some of them are deleted
    (src/engine.rs:172-207). */
module Snapshots {
  import opened Keys
  import opened Entries
  import opened Versions
  import opened LevelStore

  // ----- The order in which files are opened -----

  function NewestFirst(files: seq<FileMeta>): seq<FileMeta> {
    if files == [] then [] else [files[|files| - 1]] + NewestFirst(files[..|files| - 1])
  }

  /** The files whose key range admits `k`. */
  function Admitting(files: seq<FileMeta>, k: Key): seq<FileMeta> {
    if files == [] then []
    else if Lt(k, files[0].smallest) || Lt(files[0].largest, k) then Admitting(files[1..], k)
    else [files[0]] + Admitting(files[1..], k)
  }

  function DeepOrder(levels: Levels, i: nat, k: Key): seq<FileMeta>
    requires i <= |levels|
    decreases |levels| - i
  {
    if i == |levels| then [] else Admitting(levels[i], k) + DeepOrder(levels, i + 1, k)
  }

  /** Level 0 newest first, then level by level the files that admit the key. */
  function SearchOrder(levels: Levels, k: Key): seq<FileMeta> {
    if levels == [] then [] else NewestFirst(levels[0]) + DeepOrder(levels, 1, k)
  }

  lemma {:induction false} NewestFirstMembers(files: seq<FileMeta>)
    ensures forall f :: f in NewestFirst(files) <==> f in files
  {
    if files != [] {
      var init := files[..|files| - 1];
      assert files == init + [files[|files| - 1]];
      NewestFirstMembers(init);
    }
  }

  lemma {:induction false} AdmittingMembers(files: seq<FileMeta>, k: Key)
    ensures forall f | f in Admitting(files, k) :: f in files
  {
    if files != [] {
      AdmittingMembers(files[1..], k);
    }
  }

  lemma {:induction false} DeepOrderMembers(levels: Levels, i: nat, k: Key)
    requires i <= |levels|
    ensures forall f | f in DeepOrder(levels, i, k) :: exists j :: i <= j < |levels| && f in levels[j]
    decreases |levels| - i
  {
    if i < |levels| {
      AdmittingMembers(levels[i], k);
      DeepOrderMembers(levels, i + 1, k);
    }
  }

  lemma OrderMembers(levels: Levels, k: Key)
    ensures forall f | f in SearchOrder(levels, k) :: exists i :: 0 <= i < |levels| && f in levels[i]
  {
    if levels != [] {
      NewestFirstMembers(levels[0]);
      DeepOrderMembers(levels, 1, k);
    }
  }

  lemma {:induction false} DeepOrderSame(levels: Levels, levels': Levels, i: nat, k: Key)
    requires i <= |levels| == |levels'| && forall j | i <= j < |levels| :: levels'[j] == levels[j]
    ensures DeepOrder(levels', i, k) == DeepOrder(levels, i, k)
    decreases |levels| - i
  {
    if i < |levels| {
      DeepOrderSame(levels, levels', i + 1, k);
    }
  }

  // ----- Opening them one by one -----

  /** The first hit. */
  function Search(files: seq<FileMeta>, disk: Disk, k: Key): Option<Entry> {
    if files == [] then None
    else
      var hit := Find(Es(disk, files[0]), k);
      if hit.Some? then hit else Search(files[1..], disk, k)
  }

  /** The number of the file in which the search stops. */
  function HitFile(files: seq<FileMeta>, disk: Disk, k: Key): Option<nat> {
    if files == [] then None
    else if Find(Es(disk, files[0]), k).Some? then Some(files[0].number)
    else HitFile(files[1..], disk, k)
  }

  lemma {:induction false} SearchJoin(xs: seq<FileMeta>, ys: seq<FileMeta>, disk: Disk, k: Key)
    ensures Search(xs + ys, disk, k)
         == if Search(xs, disk, k).Some? then Search(xs, disk, k) else Search(ys, disk, k)
  {
    if xs == [] {
      assert xs + ys == ys;
    } else {
      assert (xs + ys)[1..] == xs[1..] + ys;
      SearchJoin(xs[1..], ys, disk, k);
    }
  }

  lemma {:induction false} SearchStack(files: seq<FileMeta>, disk: Disk, k: Key)
    ensures Search(NewestFirst(files), disk, k) == StackGet(files, disk, k)
  {
    if files != [] {
      SearchStack(files[..|files| - 1], disk, k);
    }
  }

  lemma {:induction false} SearchAdmitting(files: seq<FileMeta>, disk: Disk, k: Key)
    ensures Search(Admitting(files, k), disk, k) == FilesGet(files, disk, k)
  {
    if files != [] {
      SearchAdmitting(files[1..], disk, k);
    }
  }

  lemma {:induction false} SearchDeep(levels: Levels, disk: Disk, i: nat, k: Key)
    requires i <= |levels|
    ensures Search(DeepOrder(levels, i, k), disk, k) == DeepGet(levels, disk, i, k)
    decreases |levels| - i
  {
    if i < |levels| {
      SearchAdmitting(levels[i], disk, k);
      SearchDeep(levels, disk, i + 1, k);
      SearchJoin(Admitting(levels[i], k), DeepOrder(levels, i + 1, k), disk, k);
    }
  }

  /** Opening the files in search order finds what the tiered search finds. */
  lemma SearchIsLevelsGet(levels: Levels, disk: Disk, k: Key)
    ensures Search(SearchOrder(levels, k), disk, k) == LevelsGet(levels, disk, k)
  {
    if levels != [] {
      SearchStack(levels[0], disk, k);
      SearchDeep(levels, disk, 1, k);
      SearchJoin(NewestFirst(levels[0]), DeepOrder(levels, 1, k), disk, k);
    }
  }

  lemma {:induction false} SearchFrame(files: seq<FileMeta>, disk: Disk, disk': Disk, k: Key)
    requires forall f | f in files :: Es(disk', f) == Es(disk, f)
    ensures Search(files, disk', k) == Search(files, disk, k)
  {
    if files != [] {
      assert files[0] in files;
      assert forall f | f in files[1..] :: f in files;
      SearchFrame(files[1..], disk, disk', k);
    }
  }

  lemma LevelsGetFrame(levels: Levels, disk: Disk, disk': Disk, k: Key)
    requires forall i, f | 0 <= i < |levels| && f in levels[i] :: Es(disk', f) == Es(disk, f)
    ensures LevelsGet(levels, disk', k) == LevelsGet(levels, disk, k)
  {
    OrderMembers(levels, k);
    SearchFrame(SearchOrder(levels, k), disk, disk', k);
    SearchIsLevelsGet(levels, disk, k);
    SearchIsLevelsGet(levels, disk', k);
  }

  lemma {:induction false} HitIn(files: seq<FileMeta>, disk: Disk, k: Key) returns (f: FileMeta)
    requires Search(files, disk, k).Some?
    ensures f in files && HitFile(files, disk, k) == Some(f.number)
    ensures var e := Search(files, disk, k).value; e in Es(disk, f) && e.key == k
  {
    if Find(Es(disk, files[0]), k).None? {
      f := HitIn(files[1..], disk, k);
    } else {
      f := files[0];
    }
  }

  // ----- Losing files -----

  /** Files may be gone, but none has changed. */
  ghost predicate OnlyLost(disk: Disk, left: Disk) {
    forall n | n in left :: n in disk && left[n] == disk[n]
  }

  ghost predicate HitKept(hit: Option<nat>, left: Disk) {
    hit.Some? ==> hit.value in left
  }

  lemma LostFile(disk: Disk, left: Disk, f: FileMeta)
    requires OnlyLost(disk, left)
    ensures Es(left, f) == if f.number in left then Es(disk, f) else []
  {
  }

  /** Losing files other than the one the search stops in changes nothing. */
  lemma {:induction false} HitKeptKeepsAnswer(files: seq<FileMeta>, disk: Disk, left: Disk, k: Key)
    requires OnlyLost(disk, left)
    ensures Search(files, disk, k).Some? <==> HitFile(files, disk, k).Some?
    ensures HitKept(HitFile(files, disk, k), left) ==> Search(files, left, k) == Search(files, disk, k)
  {
    if files != [] {
      LostFile(disk, left, files[0]);
      HitKeptKeepsAnswer(files[1..], disk, left, k);
    }
  }

  /** With files gone a search still finds the newest version if and only if there was none or its file is left;
      otherwise it finds an older version, or none. */
  lemma SnapshotLossIff(levels: Levels, disk: Disk, left: Disk, k: Key)
    requires LevelInv(levels, disk) && OnlyLost(disk, left)
    ensures var order := SearchOrder(levels, k);
            && (Search(order, left, k) == Search(order, disk, k) <==> HitKept(HitFile(order, disk, k), left))
            && (!HitKept(HitFile(order, disk, k), left) ==>
                  && Search(order, disk, k).Some?
                  && (Search(order, left, k).Some? ==>
                        Search(order, left, k).value.seqNo < Search(order, disk, k).value.seqNo))
  {
    hide LevelInv, Search, HitFile, SearchOrder;
    var order := SearchOrder(levels, k);
    HitKeptKeepsAnswer(order, disk, left, k);
    if !HitKept(HitFile(order, disk, k), left) && Search(order, left, k).Some? {
      var f := HitIn(order, disk, k);
      var g := HitIn(order, left, k);
      LostFile(disk, left, g);
      OtherHitIsOlder(levels, disk, k, f, g, Search(order, left, k).value);
    }
  }

  lemma OtherHitIsOlder(levels: Levels, disk: Disk, k: Key, f: FileMeta, g: FileMeta, d: Entry)
    requires LevelInv(levels, disk)
    requires var order, hit := SearchOrder(levels, k), Search(SearchOrder(levels, k), disk, k);
             && f in order && hit.Some? && hit.value in Es(disk, f) && hit.value.key == k
             && g in order && d in Es(disk, g) && d.key == k && f != g
    ensures d.seqNo < Search(SearchOrder(levels, k), disk, k).value.seqNo
  {
    hide LevelInv, Search, LevelsGet, SearchOrder;
    SearchIsLevelsGet(levels, disk, k);
    FirstHitIsNewest(levels, disk, k);
    OrderMembers(levels, k);
    var i :| 0 <= i < |levels| && f in levels[i];
    var j :| 0 <= j < |levels| && g in levels[j];
    assert d in Live(levels, disk);
    TwoVersions(levels, disk, i, f, LevelsGet(levels, disk, k).value, j, g, d);
  }
}
