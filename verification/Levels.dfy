/** Table files on disk under a level structure: the invariant every run keeps, and what a lookup finds. */
module LevelStore {
  import opened Keys
  import opened Entries
  import opened Versions

  /** Table files by number; a finished table holds exactly the entries added to it, in order. */
  type Disk = map<nat, seq<Entry>>

  /** The entries of a file; a missing file reads as one without entries, as lookups and scans skip it. */
  function Es(disk: Disk, f: FileMeta): seq<Entry> {
    if f.number in disk then disk[f.number] else []
  }

  /** Every version in `xs` of a key is newer than every version in `ys`. */
  ghost predicate Above(xs: seq<Entry>, ys: seq<Entry>) {
    forall x, y | x in xs && y in ys && x.key == y.key :: x.seqNo > y.seqNo
  }

  ghost predicate MetaOK(disk: Disk, f: FileMeta) {
    && f.number in disk
    && disk[f.number] != []
    && Strict(disk[f.number])
    && f.smallest == disk[f.number][0].key
    && f.largest == disk[f.number][|disk[f.number]| - 1].key
  }

  ghost predicate FilesOK(levels: Levels, disk: Disk) {
    forall i, f | 0 <= i < |levels| && f in levels[i] :: MetaOK(disk, f)
  }

  ghost predicate Numbered(levels: Levels) {
    forall i, j, f, g | 0 <= i < |levels| && 0 <= j < |levels| && f in levels[i] && g in levels[j]
                        && f.number == g.number :: i == j && f == g
  }

  /** A version in a shallower level is newer than any version in a deeper one. */
  ghost predicate Recent(levels: Levels, disk: Disk) {
    forall i, j, f, g | 0 <= i < j < |levels| && f in levels[i] && g in levels[j] :: Above(Es(disk, f), Es(disk, g))
  }

  /** A later level-0 file holds the newer versions. */
  ghost predicate Stack(files: seq<FileMeta>, disk: Disk) {
    forall a, b | 0 <= a < b < |files| :: Above(Es(disk, files[b]), Es(disk, files[a]))
  }

  ghost predicate NoTombstones(es: seq<Entry>) {
    forall e | e in es :: e.valueType == Value
  }

  /** The last of several levels holds no tombstone. */
  ghost predicate CleanBottom(levels: Levels, disk: Disk) {
    |levels| >= 2 ==> forall f | f in levels[|levels| - 1] :: NoTombstones(Es(disk, f))
  }

  ghost predicate Chains(levels: Levels) {
    forall i | 1 <= i < |levels| :: Chain(levels[i])
  }

  ghost predicate LevelInv(levels: Levels, disk: Disk) {
    && |levels| >= 1
    && FilesOK(levels, disk)
    && Numbered(levels)
    && Recent(levels, disk)
    && Stack(levels[0], disk)
    && Chains(levels)
    && CleanBottom(levels, disk)
  }

  ghost function Own(disk: Disk, f: FileMeta): set<Entry> {
    set e | e in Es(disk, f)
  }

  /** All entries stored in a list of files. */
  ghost function FileEntries(files: seq<FileMeta>, disk: Disk): set<Entry> {
    set f, e | f in files && e in Es(disk, f) :: e
  }

  /** All entries stored at level `i` and below. */
  ghost function LiveFrom(levels: Levels, disk: Disk, i: nat): set<Entry> {
    set j, f, e | i <= j < |levels| && f in levels[j] && e in Es(disk, f) :: e
  }

  ghost function Live(levels: Levels, disk: Disk): set<Entry> {
    LiveFrom(levels, disk, 0)
  }

  lemma LiveSplit(levels: Levels, disk: Disk, i: nat)
    requires i < |levels|
    ensures LiveFrom(levels, disk, i) == FileEntries(levels[i], disk) + LiveFrom(levels, disk, i + 1)
  {
    forall e | e in LiveFrom(levels, disk, i)
      ensures e in FileEntries(levels[i], disk) + LiveFrom(levels, disk, i + 1)
    {
      var j, f :| i <= j < |levels| && f in levels[j] && e in Es(disk, f);
    }
    forall e | e in FileEntries(levels[i], disk) ensures e in LiveFrom(levels, disk, i) {
      var f :| f in levels[i] && e in Es(disk, f);
    }
    forall e | e in LiveFrom(levels, disk, i + 1) ensures e in LiveFrom(levels, disk, i) {
      var j, f :| i + 1 <= j < |levels| && f in levels[j] && e in Es(disk, f);
    }
  }

  lemma InRange(disk: Disk, f: FileMeta, e: Entry)
    requires MetaOK(disk, f) && e in Es(disk, f)
    ensures Le(f.smallest, e.key) && Le(e.key, f.largest)
  {
    StrictBounds(Es(disk, f), e);
  }

  lemma ApartKeys(disk: Disk, f: FileMeta, g: FileMeta, e: Entry, d: Entry)
    requires MetaOK(disk, f) && MetaOK(disk, g) && e in Es(disk, f) && d in Es(disk, g)
    requires Apart(f, g)
    ensures e.key != d.key
  {
    InRange(disk, f, e);
    InRange(disk, g, d);
    LinearOrder();
  }

  lemma TwoInLevel(levels: Levels, disk: Disk, i: nat, f: FileMeta, e: Entry, g: FileMeta, d: Entry)
    requires LevelInv(levels, disk) && i < |levels|
    requires f in levels[i] && e in Es(disk, f) && g in levels[i] && d in Es(disk, g) && e.key == d.key
    ensures 0 < i ==> f == g
    ensures f == g ==> e == d
    ensures f != g ==> e.seqNo != d.seqNo
  {
    LevelFiles(levels, disk, i);
    hide LevelInv, Lt;
    var a :| 0 <= a < |levels[i]| && levels[i][a] == f;
    var b :| 0 <= b < |levels[i]| && levels[i][b] == g;
    if f == g {
      StrictKeys(disk[f.number], e, d);
    } else if 0 < i {
      assert Apart(f, g);
      ApartKeys(disk, f, g, e, d);
    } else {
      assert Above(Es(disk, f), Es(disk, g)) || Above(Es(disk, g), Es(disk, f));
    }
  }

  /** Where two stored versions of one key can be, and which of them is newer. */
  lemma TwoVersions(levels: Levels, disk: Disk, i: nat, f: FileMeta, e: Entry, j: nat, g: FileMeta, d: Entry)
    requires LevelInv(levels, disk)
    requires i < |levels| && f in levels[i] && e in Es(disk, f)
    requires j < |levels| && g in levels[j] && d in Es(disk, g)
    requires e.key == d.key
    ensures i < j ==> e.seqNo > d.seqNo
    ensures i > j ==> e.seqNo < d.seqNo
    ensures i == j && 0 < i ==> f == g
    ensures f == g ==> e == d
    ensures f != g ==> e.seqNo != d.seqNo
  {
    if i == j {
      TwoInLevel(levels, disk, i, f, e, g, d);
    } else if i < j {
      assert Above(Es(disk, f), Es(disk, g));
    } else {
      assert Above(Es(disk, g), Es(disk, f));
    }
  }

  /** Sequence numbers tell the stored versions of a key apart. */
  lemma LiveUnique(levels: Levels, disk: Disk, e: Entry, d: Entry)
    requires LevelInv(levels, disk)
    requires e in Live(levels, disk) && d in Live(levels, disk) && e.key == d.key && e.seqNo == d.seqNo
    ensures e == d
  {
    var i, f :| 0 <= i < |levels| && f in levels[i] && e in Es(disk, f);
    var j, g :| 0 <= j < |levels| && g in levels[j] && d in Es(disk, g);
    TwoVersions(levels, disk, i, f, e, j, g, d);
  }

  // ----- Lookups -----

  /** Level 1 and below: files in order, skipping those whose key range misses `k`. */
  function FilesGet(files: seq<FileMeta>, disk: Disk, k: Key): Option<Entry> {
    if files == [] then None
    else if Lt(k, files[0].smallest) || Lt(files[0].largest, k) then FilesGet(files[1..], disk, k)
    else
      var hit := Find(Es(disk, files[0]), k);
      if hit.Some? then hit else FilesGet(files[1..], disk, k)
  }

  /** Level 0: newest file first. */
  function StackGet(files: seq<FileMeta>, disk: Disk, k: Key): Option<Entry> {
    if files == [] then None
    else
      var hit := Find(Es(disk, files[|files| - 1]), k);
      if hit.Some? then hit else StackGet(files[..|files| - 1], disk, k)
  }

  function DeepGet(levels: Levels, disk: Disk, i: nat, k: Key): Option<Entry>
    requires i <= |levels|
    decreases |levels| - i
  {
    if i == |levels| then None
    else
      var hit := FilesGet(levels[i], disk, k);
      if hit.Some? then hit else DeepGet(levels, disk, i + 1, k)
  }

  /** The first hit of the tiered file search. */
  function LevelsGet(levels: Levels, disk: Disk, k: Key): Option<Entry> {
    if levels == [] then None
    else
      var hit := StackGet(levels[0], disk, k);
      if hit.Some? then hit else DeepGet(levels, disk, 1, k)
  }

  /** `r` is what is known of `k`: its newest version in `es`, or that there is none. */
  ghost predicate NewestIn(es: set<Entry>, k: Key, r: Option<Entry>) {
    match r
    case None => forall e | e in es :: e.key != k
    case Some(t) => t in es && t.key == k && forall e | e in es && e.key == k :: e.seqNo <= t.seqNo
  }

  /** Searching newer entries first and stopping at a hit. */
  lemma NewestOfTwo(newer: set<Entry>, older: set<Entry>, k: Key, r: Option<Entry>, q: Option<Entry>)
    requires NewestIn(newer, k, r) && NewestIn(older, k, q)
    requires forall x, y | x in newer && y in older && x.key == y.key == k :: x.seqNo >= y.seqNo
    ensures NewestIn(newer + older, k, if r.Some? then r else q)
  {
  }

  lemma ChainTop(f: FileMeta, rest: seq<FileMeta>, disk: Disk)
    requires Chain([f] + rest) && forall g | g in [f] + rest :: MetaOK(disk, g)
    ensures Chain(rest) && MetaOK(disk, f) && forall g | g in rest :: MetaOK(disk, g)
    ensures FileEntries([f] + rest, disk) == Own(disk, f) + FileEntries(rest, disk)
    ensures forall x, y | x in Own(disk, f) && y in FileEntries(rest, disk) :: x.key != y.key
  {
    hide MetaOK, Lt;
    var files := [f] + rest;
    assert forall g :: g in files <==> g == f || g in rest;
    assert forall a | 0 <= a < |rest| :: files[a + 1] == rest[a];
    forall x, y | x in Own(disk, f) && y in FileEntries(rest, disk) ensures x.key != y.key {
      var g :| g in rest && y in Es(disk, g);
      var a :| 0 <= a < |rest| && rest[a] == g;
      assert Apart(files[0], files[a + 1]);
      ApartKeys(disk, f, g, x, y);
    }
  }

  lemma {:induction false} FilesGetNewest(files: seq<FileMeta>, disk: Disk, k: Key)
    requires Chain(files) && forall f | f in files :: MetaOK(disk, f)
    ensures NewestIn(FileEntries(files, disk), k, FilesGet(files, disk, k))
  {
    if files != [] {
      var f, rest := files[0], files[1..];
      assert files == [f] + rest;
      ChainTop(f, rest, disk);
      hide Chain, MetaOK, FileEntries, Find, Lt;
      FilesGetNewest(rest, disk, k);
      forall e | e in Own(disk, f) && e.key == k ensures !Lt(k, f.smallest) && !Lt(f.largest, k) {
        InRange(disk, f, e);
      }
      FindNewest(disk, f, k);
      hide Own, Es;
      NewestOfTwo(Own(disk, f), FileEntries(rest, disk), k, Find(Es(disk, f), k), FilesGet(rest, disk, k));
    }
  }

  lemma FindNewest(disk: Disk, f: FileMeta, k: Key)
    requires MetaOK(disk, f)
    ensures NewestIn(Own(disk, f), k, Find(Es(disk, f), k))
  {
    var hit := Find(Es(disk, f), k);
    if hit.Some? {
      forall e | e in Es(disk, f) && e.key == k ensures e == hit.value {
        StrictKeys(disk[f.number], e, hit.value);
      }
    }
  }

  lemma StackTop(init: seq<FileMeta>, last: FileMeta, disk: Disk)
    requires Stack(init + [last], disk)
    ensures Stack(init, disk)
    ensures FileEntries(init + [last], disk) == Own(disk, last) + FileEntries(init, disk)
    ensures forall x, y | x in Own(disk, last) && y in FileEntries(init, disk) && x.key == y.key :: x.seqNo > y.seqNo
  {
    var files := init + [last];
    assert forall f :: f in files <==> f in init || f == last;
    assert forall a | 0 <= a < |init| :: files[a] == init[a];
    forall x, y | x in Own(disk, last) && y in FileEntries(init, disk) && x.key == y.key ensures x.seqNo > y.seqNo {
      var g :| g in init && y in Es(disk, g);
      var a :| 0 <= a < |init| && init[a] == g;
      assert Above(Es(disk, files[|init|]), Es(disk, files[a]));
    }
  }

  lemma {:induction false} StackGetNewest(files: seq<FileMeta>, disk: Disk, k: Key)
    requires Stack(files, disk) && forall f | f in files :: MetaOK(disk, f)
    ensures NewestIn(FileEntries(files, disk), k, StackGet(files, disk, k))
  {
    if files != [] {
      var init, last := files[..|files| - 1], files[|files| - 1];
      assert files == init + [last];
      StackTop(init, last, disk);
      hide Stack, MetaOK, NewestIn, Own, FileEntries, Find;
      StackGetNewest(init, disk, k);
      FindNewest(disk, last, k);
      NewestOfTwo(Own(disk, last), FileEntries(init, disk), k, Find(Es(disk, last), k), StackGet(init, disk, k));
    }
  }

  lemma LevelAboveRest(levels: Levels, disk: Disk, i: nat, x: Entry, y: Entry)
    requires LevelInv(levels, disk) && i < |levels|
    requires x in FileEntries(levels[i], disk) && y in LiveFrom(levels, disk, i + 1) && x.key == y.key
    ensures x.seqNo > y.seqNo
  {
    var f :| f in levels[i] && x in Es(disk, f);
    var j, g :| i + 1 <= j < |levels| && g in levels[j] && y in Es(disk, g);
    assert Above(Es(disk, f), Es(disk, g));
  }

  lemma LevelFiles(levels: Levels, disk: Disk, i: nat)
    requires LevelInv(levels, disk) && i < |levels|
    ensures forall f | f in levels[i] :: MetaOK(disk, f)
    ensures if i == 0 then Stack(levels[i], disk) else Chain(levels[i])
  {
    hide MetaOK, Numbered, Recent, Stack, CleanBottom;
  }

  lemma {:induction false} DeepGetNewest(levels: Levels, disk: Disk, i: nat, k: Key)
    requires LevelInv(levels, disk) && 1 <= i <= |levels|
    ensures NewestIn(LiveFrom(levels, disk, i), k, DeepGet(levels, disk, i, k))
    decreases |levels| - i
  {
    if i < |levels| {
      LevelFiles(levels, disk, i);
      hide LevelInv, NewestIn, FilesGet, LiveFrom, FileEntries, MetaOK;
      DeepGetNewest(levels, disk, i + 1, k);
      FilesGetNewest(levels[i], disk, k);
      SearchLevel(levels, disk, i, k, FilesGet(levels[i], disk, k), DeepGet(levels, disk, i + 1, k));
    }
  }

  lemma SearchLevel(levels: Levels, disk: Disk, i: nat, k: Key, r: Option<Entry>, q: Option<Entry>)
    requires LevelInv(levels, disk) && i < |levels|
    requires NewestIn(FileEntries(levels[i], disk), k, r) && NewestIn(LiveFrom(levels, disk, i + 1), k, q)
    ensures NewestIn(LiveFrom(levels, disk, i), k, if r.Some? then r else q)
  {
    hide LevelInv, FileEntries, LiveFrom;
    LiveSplit(levels, disk, i);
    forall x, y | x in FileEntries(levels[i], disk) && y in LiveFrom(levels, disk, i + 1) && x.key == y.key == k
      ensures x.seqNo > y.seqNo
    {
      LevelAboveRest(levels, disk, i, x, y);
    }
    NewestOfTwo(FileEntries(levels[i], disk), LiveFrom(levels, disk, i + 1), k, r, q);
  }

  /** Stopping at the first hit finds the newest version over all levels. */
  lemma FirstHitIsNewest(levels: Levels, disk: Disk, k: Key)
    requires LevelInv(levels, disk)
    ensures NewestIn(Live(levels, disk), k, LevelsGet(levels, disk, k))
  {
    StackGetNewest(levels[0], disk, k);
    DeepGetNewest(levels, disk, 1, k);
    SearchLevel(levels, disk, 0, k, StackGet(levels[0], disk, k), DeepGet(levels, disk, 1, k));
  }

  /** Below level 0 at most one file of a level can be opened for a key. */
  lemma OneFilePerLevel(levels: Levels, disk: Disk, i: nat, k: Key, f: FileMeta, g: FileMeta)
    requires LevelInv(levels, disk) && 1 <= i < |levels|
    requires f in levels[i] && Le(f.smallest, k) && Le(k, f.largest)
    requires g in levels[i] && Le(g.smallest, k) && Le(k, g.largest)
    ensures f == g
  {
    assert Chain(levels[i]);
    var a :| 0 <= a < |levels[i]| && levels[i][a] == f;
    var b :| 0 <= b < |levels[i]| && levels[i][b] == g;
    LinearOrder();
    assert a == b || Apart(f, g);
  }

  // ----- Disk changes and new level-0 files -----

  /** Nothing the levels refer to changed. */
  ghost predicate SameFiles(levels: Levels, disk: Disk, disk': Disk) {
    forall i, f | 0 <= i < |levels| && f in levels[i] ::
      f.number in disk ==> f.number in disk' && disk'[f.number] == disk[f.number]
  }

  lemma FrameFiles(levels: Levels, disk: Disk, disk': Disk)
    requires FilesOK(levels, disk) && SameFiles(levels, disk, disk')
    ensures FilesOK(levels, disk')
    ensures forall i, f | 0 <= i < |levels| && f in levels[i] :: Es(disk', f) == Es(disk, f)
  {
    forall i, f | 0 <= i < |levels| && f in levels[i]
      ensures MetaOK(disk', f) && Es(disk', f) == Es(disk, f)
    {
      assert MetaOK(disk, f);
    }
  }

  lemma FrameStack(files: seq<FileMeta>, disk: Disk, disk': Disk)
    requires Stack(files, disk) && forall f | f in files :: Es(disk', f) == Es(disk, f)
    ensures Stack(files, disk')
  {
    forall a, b | 0 <= a < b < |files| ensures Above(Es(disk', files[b]), Es(disk', files[a])) {
      assert Above(Es(disk, files[b]), Es(disk, files[a]));
    }
  }

  lemma FrameRecent(levels: Levels, disk: Disk, disk': Disk)
    requires Recent(levels, disk) && forall i, f | 0 <= i < |levels| && f in levels[i] :: Es(disk', f) == Es(disk, f)
    ensures Recent(levels, disk')
  {
    forall i, j, f, g | 0 <= i < j < |levels| && f in levels[i] && g in levels[j]
      ensures Above(Es(disk', f), Es(disk', g))
    {
      assert Above(Es(disk, f), Es(disk, g));
    }
  }

  lemma FrameLive(levels: Levels, disk: Disk, disk': Disk)
    requires forall i, f | 0 <= i < |levels| && f in levels[i] :: Es(disk', f) == Es(disk, f)
    ensures Live(levels, disk') == Live(levels, disk)
  {
  }

  lemma LevelFrame(levels: Levels, disk: Disk, disk': Disk)
    requires LevelInv(levels, disk) && SameFiles(levels, disk, disk')
    ensures LevelInv(levels, disk') && Live(levels, disk') == Live(levels, disk)
  {
    FrameFiles(levels, disk, disk');
    FrameStack(levels[0], disk, disk');
    FrameRecent(levels, disk, disk');
    FrameLive(levels, disk, disk');
    assert CleanBottom(levels, disk');
  }

  ghost predicate Unused(levels: Levels, number: nat) {
    forall i, f | 0 <= i < |levels| && f in levels[i] :: f.number != number
  }

  function PushLevel0(levels: Levels, meta: FileMeta): Levels
    requires |levels| >= 1
  {
    levels[0 := levels[0] + [meta]]
  }

  lemma AppendEntries(files: seq<FileMeta>, disk: Disk, meta: FileMeta)
    ensures FileEntries(files + [meta], disk) == FileEntries(files, disk) + Own(disk, meta)
  {
    assert forall f :: f in files + [meta] <==> f in files || f == meta;
  }

  lemma SameDeeper(levels: Levels, levels': Levels, disk: Disk, i: nat)
    requires |levels| == |levels'| && forall j | i <= j < |levels| :: levels'[j] == levels[j]
    ensures LiveFrom(levels', disk, i) == LiveFrom(levels, disk, i)
  {
  }

  lemma PushLive(levels: Levels, disk: Disk, meta: FileMeta)
    requires |levels| >= 1
    ensures Live(PushLevel0(levels, meta), disk) == Live(levels, disk) + Own(disk, meta)
  {
    var after := PushLevel0(levels, meta);
    LiveSplit(levels, disk, 0);
    LiveSplit(after, disk, 0);
    AppendEntries(levels[0], disk, meta);
    SameDeeper(levels, after, disk, 1);
  }

  /** The entries of a file are newer than every stored version of their keys. */
  ghost predicate Fresher(es: seq<Entry>, stored: set<Entry>) {
    forall x, y | x in es && y in stored && x.key == y.key :: x.seqNo > y.seqNo
  }

  lemma FresherAbove(levels: Levels, disk: Disk, es: seq<Entry>, i: nat, f: FileMeta)
    requires Fresher(es, Live(levels, disk)) && i < |levels| && f in levels[i]
    ensures Above(es, Es(disk, f))
  {
    assert forall e | e in Es(disk, f) :: e in Live(levels, disk);
  }

  lemma PushRecent(levels: Levels, disk: Disk, meta: FileMeta)
    requires |levels| >= 1 && Recent(levels, disk) && Fresher(Es(disk, meta), Live(levels, disk))
    ensures Recent(PushLevel0(levels, meta), disk)
  {
    var after := PushLevel0(levels, meta);
    forall i, j, f, g | 0 <= i < j < |after| && f in after[i] && g in after[j]
      ensures Above(Es(disk, f), Es(disk, g))
    {
      if i == 0 && f == meta {
        FresherAbove(levels, disk, Es(disk, meta), j, g);
      } else {
        assert f in levels[i] && g in levels[j];
      }
    }
  }

  lemma PushStack(levels: Levels, disk: Disk, meta: FileMeta)
    requires |levels| >= 1 && Stack(levels[0], disk) && Fresher(Es(disk, meta), Live(levels, disk))
    ensures Stack(PushLevel0(levels, meta)[0], disk)
  {
    var after := PushLevel0(levels, meta)[0];
    forall a, b | 0 <= a < b < |after| ensures Above(Es(disk, after[b]), Es(disk, after[a])) {
      if b == |levels[0]| {
        FresherAbove(levels, disk, Es(disk, meta), 0, after[a]);
      }
    }
  }

  /** A flushed table may join level 0 when its entries are newer than every stored version of their keys. */
  lemma PushKeeps(levels: Levels, disk: Disk, meta: FileMeta)
    requires LevelInv(levels, disk) && MetaOK(disk, meta) && Unused(levels, meta.number)
    requires Fresher(Es(disk, meta), Live(levels, disk))
    ensures LevelInv(PushLevel0(levels, meta), disk)
  {
    var after := PushLevel0(levels, meta);
    PushFiles(levels, disk, meta);
    PushRecent(levels, disk, meta);
    PushStack(levels, disk, meta);
    forall i | 1 <= i < |after| ensures Chain(after[i]) {
      assert after[i] == levels[i];
    }
    assert |levels| >= 2 ==> after[|levels| - 1] == levels[|levels| - 1];
  }

  lemma PushFiles(levels: Levels, disk: Disk, meta: FileMeta)
    requires |levels| >= 1 && FilesOK(levels, disk) && Numbered(levels)
    requires MetaOK(disk, meta) && Unused(levels, meta.number)
    ensures FilesOK(PushLevel0(levels, meta), disk) && Numbered(PushLevel0(levels, meta))
  {
    var after := PushLevel0(levels, meta);
    assert forall i, f | 0 <= i < |after| && f in after[i] :: (i == 0 && f == meta) || f in levels[i];
  }
}
