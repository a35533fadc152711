/** The storage engine (src/engine.rs), called by one caller at a time. Every method is proved against the step
    functions of `System`; together they refine a map from keys to values. */
module FlashStores {
  import opened Keys
  import opened Lists
  import opened Entries
  import opened Versions
  import opened LevelStore
  import opened Meaning
  import opened Compaction
  import opened CompactionMeasure
  import opened System
  import opened WriteLaws
  import opened FlushLaws
  import opened Runs
  import opened Uninterrupted
  import opened MemTables

  // ----- Composed steps: what one call does -----

  lemma SingleWrite(s: Sys, m: KeyValues, op: BatchOp)
    requires Inv(s, m) && !s.flush.Rewriting?
    ensures Inv(WriteOne(s, op), ApplyOp(m, op))
  {
    hide Inv, WriteOne;
    WriteAllKeeps(s, m, [op]);
    assert WriteAll(s, [op]) == WriteOne(s, op) by {
      assert [op][..0] == [] && WriteAll(s, []) == s;
    }
    assert ApplyOps(m, [op]) == ApplyOp(m, op) by {
      assert [op][..0] == [] && ApplyOps(m, []) == m;
    }
  }

  function BatchRecords(ops: seq<BatchOp>, base: nat): (rs: seq<WalRecord>)
    ensures |rs| == |ops|
  {
    if ops == [] then []
    else BatchRecords(ops[..|ops| - 1], base) + [FromEntry(EntryFor(ops[|ops| - 1], base + |ops|))]
  }

  function BatchTable(t: Table, records: seq<WalRecord>): Table {
    if records == [] then t
    else
      var r := records[|records| - 1];
      BatchTable(t, records[..|records| - 1])[r.key := ToEntry(r)]
  }

  lemma NoBatch(s: Sys)
    ensures BatchRecords([], s.live.lastSeq) == [] && BatchTable(s.active.table, []) == s.active.table
    ensures s.wal + [] == s.wal
  {
  }

  lemma EntryTrip(op: BatchOp, seqNo: nat)
    ensures var e := EntryFor(op, seqNo); ToEntry(FromEntry(e)) == e && FromEntry(e).key == e.key
  {
  }

  lemma BatchStep(t: Table, base: nat, ops: seq<BatchOp>)
    requires ops != []
    ensures var init, e := BatchRecords(ops[..|ops| - 1], base), EntryFor(ops[|ops| - 1], base + |ops|);
            && BatchRecords(ops, base) == init + [FromEntry(e)]
            && BatchTable(t, BatchRecords(ops, base)) == BatchTable(t, init)[e.key := e]
  {
    hide EntryFor, FromEntry, ToEntry;
    EntryTrip(ops[|ops| - 1], base + |ops|);
    var init, rs := BatchRecords(ops[..|ops| - 1], base), BatchRecords(ops, base);
    assert rs[..|rs| - 1] == init;
  }

  /** Logging a whole batch before applying any of it ends in the same state as writing its operations one by one. */
  lemma {:induction false} BatchIsWriteAll(s: Sys, ops: seq<BatchOp>)
    ensures var rs := BatchRecords(ops, s.live.lastSeq);
            WriteAll(s, ops) == s.(live := s.live.(lastSeq := s.live.lastSeq + |ops|), wal := s.wal + rs,
                                   active := s.active.(table := BatchTable(s.active.table, rs)))
  {
    if ops != [] {
      hide EntryFor, FromEntry, ToEntry, BatchTable, BatchRecords;
      var init, last := ops[..|ops| - 1], ops[|ops| - 1];
      BatchIsWriteAll(s, init);
      BatchStep(s.active.table, s.live.lastSeq, ops);
    } else {
      NoBatch(s);
    }
  }

  /** One batch, logged and applied. */
  lemma BatchKeeps(s: Sys, m: KeyValues, ops: seq<BatchOp>)
    requires s.flush.FlushIdle? && Inv(s, m)
    ensures var rs := BatchRecords(ops, s.live.lastSeq);
            Inv(s.(live := s.live.(lastSeq := s.live.lastSeq + |ops|), wal := s.wal + rs,
                   active := s.active.(table := BatchTable(s.active.table, rs))), ApplyOps(m, ops))
    ensures s.imms == []
  {
    hide Inv, WriteAll, BatchRecords, BatchTable;
    IdleHasNoImmutables(s, m);
    BatchIsWriteAll(s, ops);
    WriteAllKeeps(s, m, ops);
  }

  method TakeSequences(versionSet: VersionSet, ops: seq<BatchOp>) returns (records: seq<WalRecord>)
    requires versionSet.Valid()
    modifies versionSet`lastSequence
    ensures versionSet.Valid() && versionSet.lastSequence == old(versionSet.lastSequence) + |ops|
    ensures records == BatchRecords(ops, old(versionSet.lastSequence))
  {
    ghost var base := versionSet.lastSequence;
    records := [];
    for i := 0 to |ops|
      invariant versionSet.Valid() && versionSet.lastSequence == base + i
      invariant records == BatchRecords(ops[..i], base)
    {
      var seqNo := versionSet.NextSequence();
      assert ops[..i + 1][..i] == ops[..i];
      match ops[i] {
        case Put(k, v) => records := records + [WalRecord(k, v, false, seqNo)];
        case Delete(k) => records := records + [WalRecord(k, [], true, seqNo)];
      }
    }
    assert ops[..|ops|] == ops;
  }

  method ApplyRecords(mem: MemTable, records: seq<WalRecord>)
    requires mem.Valid()
    modifies mem
    ensures mem.Valid() && mem.table == BatchTable(old(mem.table), records)
  {
    for i := 0 to |records|
      invariant mem.Valid() && mem.table == BatchTable(old(mem.table), records[..i])
    {
      var record := records[i];
      assert records[..i + 1][..i] == records[..i];
      if record.isDelete {
        mem.Delete(record.key, record.seqNo);
      } else {
        mem.Put(record.key, record.value, record.seqNo);
      }
    }
    assert records[..|records|] == records;
  }

  // ----- Loops of the engine -----

  /** The limits the engine is opened with. */
  datatype Options = Options(maxLevels: nat, baseLevelSize: nat, memtableSize: nat)

  /** What a memtable iterator reports to the table builder. */
  method SummarizeTable(t: Table) returns (es: seq<Entry>, maxSeq: nat)
    requires WellFormed(t)
    ensures es == Ascending(t) && maxSeq == MaxSeq(t)
  {
    es := IterateAscending(t);
    maxSeq := 0;
    for i := 0 to |es|
      invariant maxSeq == MaxSeqOf(es[..i])
    {
      assert es[..i + 1][..i] == es[..i];
      if es[i].seqNo > maxSeq {
        maxSeq := es[i].seqNo;
      }
    }
    assert es[..|es|] == es;
  }

  /** Replays the log over the memtable of a store being opened. */
  method ReplayInto(mem: MemTable, wal: seq<WalRecord>, floor: nat) returns (maxSeq: nat)
    requires mem.Valid() && mem.table == map[]
    modifies mem
    ensures mem.Valid() && mem.table == ReplayWal(wal, floor) && maxSeq == MaxRecord(wal, floor)
  {
    maxSeq := floor;
    for i := 0 to |wal|
      invariant mem.Valid() && mem.table == ReplayWal(wal[..i], floor) && maxSeq == MaxRecord(wal[..i], floor)
    {
      var record := wal[i];
      assert wal[..i + 1][..i] == wal[..i];
      if record.seqNo > maxSeq {
        maxSeq := record.seqNo;
      }
      if record.seqNo > floor {
        if record.isDelete {
          mem.Delete(record.key, record.seqNo);
        } else {
          mem.Put(record.key, record.value, record.seqNo);
        }
      }
    }
    assert wal[..|wal|] == wal;
  }

  /** The memtables of a list, as values. */
  function Mems(imms: seq<MemTable>): (r: seq<Mem>)
    reads imms
    ensures |r| == |imms| && forall i | 0 <= i < |imms| :: r[i] == Mem(imms[i].id, imms[i].table)
  {
    if imms == [] then [] else [Mem(imms[0].id, imms[0].table)] + Mems(imms[1..])
  }

  function RetainOthers(imms: seq<MemTable>, id: nat): seq<MemTable> {
    if imms == [] then []
    else (if imms[0].id == id then [] else [imms[0]]) + RetainOthers(imms[1..], id)
  }

  method TableRecords(t: Table) returns (rs: seq<WalRecord>)
    requires WellFormed(t)
    ensures rs == RecordsOf(Ascending(t))
  {
    var es := IterateAscending(t);
    rs := RecordsOf(es);
  }

  lemma MemRecordsStep(mems: seq<Mem>, i: nat)
    requires i < |mems|
    ensures MemRecords(mems[i..]) == RecordsOf(Ascending(mems[i].table)) + MemRecords(mems[i + 1..])
  {
    assert mems[i..][1..] == mems[i + 1..];
  }

  /** Entries not yet in a table, in sequence order. */
  method RemainingRecords(imms: seq<MemTable>, active: MemTable) returns (remaining: seq<WalRecord>)
    requires active.Valid() && forall m | m in imms :: m.Valid()
    ensures remaining == Remaining(Mems(imms), Mem(active.id, active.table))
  {
    hide RecordsOf, Ascending, SortRecords, MemRecords;
    remaining := [];
    ghost var mems := Mems(imms);
    assert mems[0..] == mems;
    for i := 0 to |imms|
      invariant remaining + MemRecords(mems[i..]) == MemRecords(mems)
    {
      MemRecordsStep(mems, i);
      assert imms[i] in imms;
      var rs := TableRecords(imms[i].table);
      assert remaining + rs + MemRecords(mems[i + 1..]) == remaining + (rs + MemRecords(mems[i + 1..]));
      remaining := remaining + rs;
    }
    assert MemRecords(mems[|imms|..]) == [] by {
      NoMemRecords(mems[|imms|..]);
    }
    assert remaining + [] == remaining;
    var rs := TableRecords(active.table);
    remaining := SortRecords(remaining + rs);
  }

  lemma NoMemRecords(mems: seq<Mem>)
    requires mems == []
    ensures MemRecords(mems) == []
  {
  }

  method SearchImmutables(imms: seq<MemTable>, key: Key) returns (r: Option<Option<Bytes>>)
    requires forall m | m in imms :: m.Valid()
    ensures r == match ImmsGet(Mems(imms), key) { case None => None case Some(e) => Some(e.Answer()) }
  {
    ghost var mems := Mems(imms);
    var i := |imms|;
    assert mems[..i] == mems;
    while i > 0
      invariant 0 <= i <= |imms|
      invariant ImmsGet(mems, key) == ImmsGet(mems[..i], key)
    {
      i := i - 1;
      assert imms[i] in imms;
      assert mems[..i + 1][..i] == mems[..i];
      r := imms[i].Get(key);
      if r.Some? {
        return;
      }
    }
    r := None;
  }

  method SearchLevels(levels: Levels, disk: Disk, key: Key) returns (r: Option<Bytes>)
    ensures r == AnswerOf(LevelsGet(levels, disk, key))
  {
    if levels == [] {
      return None;
    }
    var l0 := levels[0];
    var i := |l0|;
    assert l0[..i] == l0;
    while i > 0
      invariant 0 <= i <= |l0|
      invariant StackGet(l0, disk, key) == StackGet(l0[..i], disk, key)
    {
      i := i - 1;
      assert l0[..i + 1][..i] == l0[..i];
      var hit := Find(Es(disk, l0[i]), key);
      if hit.Some? {
        return hit.value.Answer();
      }
    }
    for j := 1 to |levels|
      invariant StackGet(l0, disk, key) == None
      invariant DeepGet(levels, disk, 1, key) == DeepGet(levels, disk, j, key)
    {
      var files := levels[j];
      for n := 0 to |files|
        invariant FilesGet(files, disk, key) == FilesGet(files[n..], disk, key)
      {
        assert files[n..][1..] == files[n + 1..];
        if Lt(key, files[n].smallest) || Lt(files[n].largest, key) {
          continue;
        }
        var hit := Find(Es(disk, files[n]), key);
        if hit.Some? {
          return hit.value.Answer();
        }
      }
    }
    r := None;
  }

  method RemoveFiles(disk: Disk, numbers: seq<nat>) returns (left: Disk)
    ensures left == RemoveNumbers(disk, numbers)
  {
    left := disk;
    for i := 0 to |numbers|
      invariant RemoveNumbers(left, numbers[i..]) == RemoveNumbers(disk, numbers)
    {
      assert numbers[i..][1..] == numbers[i + 1..];
      left := left - {numbers[i]};
    }
  }

  // ----- Scanning -----

  /** Keeps the entry with the larger sequence number. */
  method ScanInto(merged: Table, entries: seq<Entry>, ghost seen: set<Entry>) returns (r: Table)
    requires KeepsNewest(merged, seen)
    ensures KeepsNewest(r, seen + SetOf(entries))
  {
    r := merged;
    for i := 0 to |entries|
      invariant KeepsNewest(r, seen + SetOf(entries[..i]))
    {
      var entry := entries[i];
      assert entries[..i + 1] == entries[..i] + [entry];
      assert SetOf(entries[..i + 1]) == SetOf(entries[..i]) + {entry};
      if entry.key in r {
        if entry.seqNo > r[entry.key].seqNo {
          r := r[entry.key := entry];
        }
      } else {
        r := r[entry.key := entry];
      }
    }
    assert entries[..|entries|] == entries;
  }

  method ScanLevels(levels: Levels, disk: Disk) returns (merged: Table)
    ensures KeepsNewest(merged, Live(levels, disk))
  {
    merged := map[];
    ghost var seen: set<Entry> := {};
    for i := 0 to |levels|
      invariant KeepsNewest(merged, seen)
      invariant seen + LiveFrom(levels, disk, i) == Live(levels, disk)
    {
      var files := levels[i];
      LiveSplit(levels, disk, i);
      for j := 0 to |files|
        invariant KeepsNewest(merged, seen + FileEntries(files[..j], disk))
      {
        merged := ScanInto(merged, Es(disk, files[j]), seen + FileEntries(files[..j], disk));
        AppendEntries(files[..j], disk, files[j]);
        assert files[..j + 1] == files[..j] + [files[j]];
        assert seen + FileEntries(files[..j + 1], disk)
               == seen + FileEntries(files[..j], disk) + SetOf(Es(disk, files[j]));
      }
      assert files[..|files|] == files;
      seen := seen + FileEntries(files, disk);
    }
    assert LiveFrom(levels, disk, |levels|) == {};
  }

  method ScanTable(t: Table, merged: Table, ghost seen: set<Entry>) returns (r: Table)
    requires WellFormed(t) && KeepsNewest(merged, seen)
    ensures KeepsNewest(r, seen + Contents(t))
  {
    var entries := IterateAscending(t);
    r := ScanInto(merged, entries, seen);
    AscendingFacts(t);
    ContentsHold(t);
    assert SetOf(entries) == Contents(t);
  }

  lemma NoMemEntries()
    ensures MemEntries(Mems([])) == {}
  {
  }

  lemma MemEntriesStep(imms: seq<MemTable>, i: nat)
    requires i < |imms|
    ensures MemEntries(Mems(imms[i..])) == Contents(imms[i].table) + MemEntries(Mems(imms[i + 1..]))
  {
    assert imms[i..][1..] == imms[i + 1..];
    assert Mems(imms[i..])[1..] == Mems(imms[i + 1..]);
  }

  method ScanImmutables(imms: seq<MemTable>, merged: Table, ghost seen: set<Entry>) returns (r: Table)
    requires KeepsNewest(merged, seen) && forall m | m in imms :: m.Valid()
    ensures KeepsNewest(r, seen + MemEntries(Mems(imms)))
  {
    hide KeepsNewest, Contents, MemEntries, Mems, TotalSize;
    r := merged;
    ghost var done := seen;
    assert imms[0..] == imms;
    NoMemEntries();
    for i := 0 to |imms|
      invariant KeepsNewest(r, done)
      invariant done + MemEntries(Mems(imms[i..])) == seen + MemEntries(Mems(imms))
    {
      assert imms[i] in imms;
      MemEntriesStep(imms, i);
      r := ScanTable(imms[i].table, r, done);
      done := done + Contents(imms[i].table);
    }
    assert imms[|imms|..] == [] && done + {} == done;
  }

  /** Resolving by largest sequence number gives the map's answers. */
  lemma MergedMeans(merged: Table, es: set<Entry>, m: KeyValues)
    requires KeepsNewest(merged, es) && Means(es, m)
    ensures WellFormed(merged)
    ensures forall k :: k in m <==> k in merged && merged[k].valueType == Value
    ensures forall k | k in m :: m[k] == merged[k].value
  {
    forall k | k in merged ensures Agrees(m, merged[k]) && merged[k].key == k {
      assert Top(es, merged[k]);
    }
    forall k | k in m ensures k in merged {
      var e :| e in es && e.key == k;
    }
  }

  /** Within `[start, end)`, either bound possibly absent. */
  predicate InBounds(k: Key, start: Option<Key>, end: Option<Key>) {
    (start.Some? ==> !Lt(k, start.value)) && (end.Some? ==> Lt(k, end.value))
  }

  ghost predicate PairsStrict(ps: seq<(Key, Bytes)>) {
    forall i, j {:trigger ps[i], ps[j]} | 0 <= i < j < |ps| :: Lt(ps[i].0, ps[j].0)
  }

  /** Strictly ascending pairs, exactly those of `m` within the bounds. */
  ghost predicate IsScan(pairs: seq<(Key, Bytes)>, m: KeyValues, start: Option<Key>, end: Option<Key>) {
    && PairsStrict(pairs)
    && (forall k, v :: (k, v) in pairs <==> k in m && m[k] == v && InBounds(k, start, end))
  }

  // ----- What a listing is to its reader -----

  /** The lower bound is part of the range and the upper one is not. */
  lemma ScanListsBetween(pairs: seq<(Key, Bytes)>, m: KeyValues, start: Option<Key>, end: Option<Key>)
    requires IsScan(pairs, m, start, end)
    ensures forall k | k in m && (start.Some? ==> Le(start.value, k)) && (end.Some? ==> Lt(k, end.value)) ::
              (k, m[k]) in pairs
    ensures forall p | p in pairs ::
              && p.0 in m && p.1 == m[p.0]
              && (start.Some? ==> Le(start.value, p.0)) && (end.Some? ==> Lt(p.0, end.value))
    ensures forall i, j | 0 <= i < j < |pairs| :: Lt(pairs[i].0, pairs[j].0)
  {
    forall p | p in pairs ensures p.0 in m && p.1 == m[p.0] && InBounds(p.0, start, end) {
      assert (p.0, p.1) in pairs;
    }
  }

  predicate PairBefore(p: (Key, Bytes), q: (Key, Bytes)) {
    Lt(p.0, q.0)
  }

  /** There is one such listing. */
  lemma ScanUnique(xs: seq<(Key, Bytes)>, ys: seq<(Key, Bytes)>, m: KeyValues, start: Option<Key>, end: Option<Key>)
    requires IsScan(xs, m, start, end) && IsScan(ys, m, start, end)
    ensures xs == ys
  {
    hide InBounds;
    LinearOrder();
    forall p ensures p in xs <==> p in ys {
      assert p == (p.0, p.1);
    }
    assert InOrderOf(PairBefore, xs) && InOrderOf(PairBefore, ys);
    MembersDetermine(PairBefore, xs, ys);
  }

  /** A range is listed as its two parts are, one after the other, wherever it is divided. */
  lemma ScanDivides(xs: seq<(Key, Bytes)>, ys: seq<(Key, Bytes)>, zs: seq<(Key, Bytes)>, m: KeyValues,
                    start: Option<Key>, middle: Key, end: Option<Key>)
    requires (start.Some? ==> Le(start.value, middle)) && (end.Some? ==> Le(middle, end.value))
    requires IsScan(xs, m, start, Some(middle)) && IsScan(ys, m, Some(middle), end) && IsScan(zs, m, start, end)
    ensures zs == xs + ys
  {
    LinearOrder();
    ScanListsBetween(xs, m, start, Some(middle));
    ScanListsBetween(ys, m, Some(middle), end);
    var joined := xs + ys;
    forall i, j | 0 <= i < j < |joined| ensures Lt(joined[i].0, joined[j].0) {
      JoinedAscend(xs, ys, middle, i, j);
    }
    forall k, v ensures (k, v) in joined <==> k in m && m[k] == v && InBounds(k, start, end) {
      assert (k, v) in joined <==> (k, v) in xs || (k, v) in ys;
    }
    ScanUnique(zs, joined, m, start, end);
  }

  lemma JoinedAscend(xs: seq<(Key, Bytes)>, ys: seq<(Key, Bytes)>, middle: Key, i: nat, j: nat)
    requires PairsStrict(xs) && PairsStrict(ys) && i < j < |xs + ys|
    requires (forall p | p in xs :: Lt(p.0, middle)) && (forall p | p in ys :: Le(middle, p.0))
    ensures Lt((xs + ys)[i].0, (xs + ys)[j].0)
  {
    LinearOrder();
    if i < |xs| <= j {
      assert xs[i] in xs && ys[j - |xs|] in ys;
    }
  }

  /** Without bounds a listing has every key of the map, once. */
  lemma ScanOfAll(pairs: seq<(Key, Bytes)>, m: KeyValues)
    requires IsScan(pairs, m, None, None)
    ensures |pairs| == |m| && forall k | k in m :: (k, m[k]) in pairs
  {
    LinearOrder();
    var keys := seq(|pairs|, i requires 0 <= i < |pairs| => pairs[i].0);
    forall i, j | 0 <= i < j < |keys| ensures keys[i] != keys[j] {
      assert Lt(pairs[i].0, pairs[j].0);
    }
    CountMembers(keys);
    forall k ensures k in SetOf(keys) <==> k in m {
      if k in m {
        assert (k, m[k]) in pairs;
        var i :| 0 <= i < |pairs| && pairs[i] == (k, m[k]);
        assert keys[i] == k;
      }
      if k in SetOf(keys) {
        var i :| 0 <= i < |keys| && keys[i] == k;
        assert pairs[i] in pairs && pairs[i] == (k, pairs[i].1);
      }
    }
    assert SetOf(keys) == m.Keys;
  }

  /** A merged entry is emitted unless it is a tombstone or lies outside the bounds. */
  predicate Emitted(e: Entry, start: Option<Key>, end: Option<Key>) {
    e.valueType == Value && InBounds(e.key, start, end)
  }

  function Pairs(es: seq<Entry>, start: Option<Key>, end: Option<Key>): seq<(Key, Bytes)> {
    if es == [] then []
    else
      var e := es[|es| - 1];
      Pairs(es[..|es| - 1], start, end) + if Emitted(e, start, end) then [(e.key, e.value)] else []
  }

  lemma {:induction false} PairsMembers(es: seq<Entry>, start: Option<Key>, end: Option<Key>)
    ensures forall p | p in Pairs(es, start, end) ::
              exists e :: e in es && Emitted(e, start, end) && p == (e.key, e.value)
    ensures forall e | e in es && Emitted(e, start, end) :: (e.key, e.value) in Pairs(es, start, end)
  {
    if es != [] {
      var init, last := es[..|es| - 1], es[|es| - 1];
      assert es == init + [last];
      PairsMembers(init, start, end);
      assert last in es;
    }
  }

  lemma {:induction false} PairsAscend(es: seq<Entry>, start: Option<Key>, end: Option<Key>)
    requires Strict(es)
    ensures PairsStrict(Pairs(es, start, end))
  {
    if es != [] {
      var init, last := es[..|es| - 1], es[|es| - 1];
      PairsAscend(init, start, end);
      PairsMembers(init, start, end);
      var before := Pairs(init, start, end);
      forall i | 0 <= i < |before| ensures Lt(before[i].0, last.key) {
        assert before[i] in before;
        var e :| e in init && before[i] == (e.key, e.value);
        var n :| 0 <= n < |init| && init[n] == e;
        assert Lt(es[n].key, es[|es| - 1].key);
      }
      var ps := Pairs(es, start, end);
      forall i, j | 0 <= i < j < |ps| ensures Lt(ps[i].0, ps[j].0) {
        if j < |before| {
          assert ps[i] == before[i] && ps[j] == before[j];
          assert Lt(before[i].0, before[j].0);
        } else {
          assert ps[i] == before[i] && ps[j] == (last.key, last.value);
          assert Lt(before[i].0, last.key);
        }
      }
    }
  }

  method EmitEntries(entries: seq<Entry>, start: Option<Key>, end: Option<Key>) returns (results: seq<(Key, Bytes)>)
    ensures results == Pairs(entries, start, end)
  {
    results := [];
    for i := 0 to |entries|
      invariant results == Pairs(entries[..i], start, end)
    {
      var entry := entries[i];
      assert entries[..i + 1][..i] == entries[..i];
      if entry.valueType == Tombstone {
        continue;
      }
      if start.Some? && Lt(entry.key, start.value) {
        continue;
      }
      if end.Some? && Le(end.value, entry.key) {
        continue;
      }
      results := results + [(entry.key, entry.value)];
    }
    assert entries[..|entries|] == entries;
  }

  method EmitPairs(merged: Table, start: Option<Key>, end: Option<Key>, ghost m: KeyValues)
    returns (results: seq<(Key, Bytes)>)
    requires WellFormed(merged)
    requires forall k :: k in m <==> k in merged && merged[k].valueType == Value
    requires forall k | k in m :: m[k] == merged[k].value
    ensures IsScan(results, m, start, end)
  {
    var entries := IterateAscending(merged);
    results := EmitEntries(entries, start, end);
    PairsAreScan(merged, start, end, m);
  }

  lemma PairsAreScan(merged: Table, start: Option<Key>, end: Option<Key>, m: KeyValues)
    requires WellFormed(merged)
    requires forall k :: k in m <==> k in merged && merged[k].valueType == Value
    requires forall k | k in m :: m[k] == merged[k].value
    ensures IsScan(Pairs(Ascending(merged), start, end), m, start, end)
  {
    var es := Ascending(merged);
    var ps := Pairs(es, start, end);
    AscendingFacts(merged);
    PairsAscend(es, start, end);
    PairsMembers(es, start, end);
    forall k, v ensures (k, v) in ps <==> k in m && m[k] == v && InBounds(k, start, end) {
      if (k, v) in ps {
        var e :| e in es && Emitted(e, start, end) && (k, v) == (e.key, e.value);
        assert Holds(merged, e);
      }
      if k in m && m[k] == v && InBounds(k, start, end) {
        assert Holds(merged, merged[k]);
        assert Emitted(merged[k], start, end);
      }
    }
  }

  class FlashStore {
    const options: Options
    var memtable: MemTable
    var imms: seq<MemTable>
    var memtableIdSeq: nat
    const versionSet: VersionSet
    var wal: seq<WalRecord>
    var manifest: seq<VersionEdit>
    var disk: Disk
    /** The map of all completed writes. */
    ghost var contents: KeyValues

    /** The engine between two calls, as a state of the machine in `System`. */
    ghost function State(): Sys
      reads this, memtable, versionSet, imms
    {
      Sys(Mem(memtable.id, memtable.table), Mems(imms), memtableIdSeq, versionSet.State(), FlushIdle, CompactIdle,
          wal, manifest, disk)
    }

    ghost predicate Valid()
      reads this, memtable, versionSet, imms
    {
      && memtable.Valid() && (forall m | m in imms :: m.Valid())
      && versionSet.Valid() && versionSet.maxLevels == options.maxLevels
      && Inv(State(), contents)
    }

    /** Opens the store on what is durable: the manifest rebuilds the levels, the log rebuilds the memtable. When the
        durable state stands for `m`, so does the opened store. */
    constructor Open(options: Options, manifest: seq<VersionEdit>, wal: seq<WalRecord>, disk: Disk, ghost m: KeyValues)
      ensures this.options == options && contents == m && fresh(memtable) && fresh(versionSet)
      ensures State() == Recover(manifest, wal, disk, options.maxLevels)
      ensures Inv(Recover(manifest, wal, disk, options.maxLevels), m) ==> Valid()
    {
      var versions := new VersionSet(options.maxLevels);
      for i := 0 to |manifest|
        invariant versions.Valid() && fresh(versions)
        invariant versions.State() == Replay(manifest[..i], options.maxLevels)
      {
        versions.LogAndApply(manifest[i]);
        assert manifest[..i + 1][..i] == manifest[..i];
      }
      assert manifest[..|manifest|] == manifest;
      var initial := new MemTable(0);
      var maxSeq := ReplayInto(initial, wal, versions.lastSequence);
      versions.SetLastSequence(maxSeq);
      this.options, memtable, imms, memtableIdSeq, versionSet := options, initial, [], 1, versions;
      this.wal, this.manifest, this.disk := wal, manifest, disk;
      contents := m;
    }

    method Put(key: Key, value: Bytes)
      requires Valid()
      modifies this, memtable, versionSet
      ensures Valid() && contents == old(contents)[key := value]
      ensures memtable == old(memtable) || fresh(memtable)
      ensures options.memtableSize > 0 ==> memtable.sizeBytes < options.memtableSize
      ensures var grown := GrownBy(old(memtable.sizeBytes), old(memtable.table), key, |value|);
              if grown < options.memtableSize then memtable.sizeBytes == grown && manifest == old(manifest)
              else memtable.table == map[] && |manifest| == |old(manifest)| + 1
    {
      hide Inv, Recover, ReplayWal;
      ghost var before := State();
      IdleHasNoImmutables(before, contents);
      var seqNo := versionSet.NextSequence();
      wal := wal + [WalRecord(key, value, false, seqNo)];
      memtable.Put(key, value, seqNo);
      contents := contents[key := value];
      SingleWrite(before, old(contents), BatchOp.Put(key, value));
      assert State() == WriteOne(before, BatchOp.Put(key, value));
      MaybeScheduleFlush();
    }

    method Delete(key: Key)
      requires Valid()
      modifies this, memtable, versionSet
      ensures Valid() && contents == old(contents) - {key}
      ensures memtable == old(memtable) || fresh(memtable)
      ensures options.memtableSize > 0 ==> memtable.sizeBytes < options.memtableSize
      ensures var grown := GrownBy(old(memtable.sizeBytes), old(memtable.table), key, 0);
              if grown < options.memtableSize then memtable.sizeBytes == grown && manifest == old(manifest)
              else memtable.table == map[] && |manifest| == |old(manifest)| + 1
    {
      hide Inv, Recover, ReplayWal;
      ghost var before := State();
      IdleHasNoImmutables(before, contents);
      var seqNo := versionSet.NextSequence();
      wal := wal + [WalRecord(key, [], true, seqNo)];
      memtable.Delete(key, seqNo);
      contents := contents - {key};
      SingleWrite(before, old(contents), BatchOp.Delete(key));
      assert State() == WriteOne(before, BatchOp.Delete(key));
      MaybeScheduleFlush();
    }

    /** All sequence numbers are taken first, then the log gets every record at once, then the memtable. */
    method AppendBatch(ops: seq<BatchOp>)
      requires memtable.Valid() && versionSet.Valid()
      modifies this`wal, memtable, versionSet`lastSequence
      ensures memtable.Valid() && versionSet.Valid()
      ensures var s, rs := old(State()), BatchRecords(ops, old(versionSet.lastSequence));
              && wal == s.wal + rs
              && memtable.table == BatchTable(s.active.table, rs)
              && versionSet.State() == s.live.(lastSeq := s.live.lastSeq + |ops|)
    {
      var records := TakeSequences(versionSet, ops);
      wal := wal + records;
      ApplyRecords(memtable, records);
    }

    method WriteBatch(ops: seq<BatchOp>)
      requires Valid()
      modifies this, memtable, versionSet
      ensures Valid() && contents == ApplyOps(old(contents), ops)
      ensures memtable == old(memtable) || fresh(memtable)
      ensures ops != [] && options.memtableSize > 0 ==> memtable.sizeBytes < options.memtableSize
      ensures ops == [] ==> State() == old(State())
      ensures var t := BatchTable(old(memtable.table), BatchRecords(ops, old(versionSet.lastSequence)));
              ops != [] ==> if TotalSize(t) < options.memtableSize then memtable.table == t && manifest == old(manifest)
                            else memtable.table == map[] && |manifest| <= |old(manifest)| + 1
    {
      hide Inv, WriteAll, BatchTable, BatchRecords, ReplayWal;
      if ops == [] {
        return;
      }
      BatchKeeps(State(), contents, ops);
      assert |Mems(imms)| == 0 && imms == [];
      AppendBatch(ops);
      contents := ApplyOps(contents, ops);
      MaybeScheduleFlush();
    }

    method MaybeScheduleFlush()
      requires Valid()
      modifies this, memtable, versionSet
      ensures Valid() && contents == old(contents)
      ensures memtable == old(memtable) || fresh(memtable)
      ensures options.memtableSize > 0 ==> memtable.sizeBytes < options.memtableSize
      ensures old(memtable.sizeBytes) < options.memtableSize ==>
                State() == old(State()) && memtable == old(memtable) && memtable.sizeBytes == old(memtable.sizeBytes)
      ensures old(memtable.sizeBytes) >= options.memtableSize ==>
                && memtable.table == map[]
                && |manifest| == |old(manifest)| + if old(memtable.table) == map[] then 0 else 1
    {
      hide Inv;
      var size := memtable.sizeBytes;
      if size >= options.memtableSize {
        var _ := Flush();
      }
    }

    /** Flushes the memtable, if it holds anything. */
    method Flush() returns (ghost size: nat)
      requires Valid()
      modifies this, memtable, versionSet
      ensures Valid() && contents == old(contents)
      ensures memtable == old(memtable) || fresh(memtable)
      ensures memtable.table == map[] && memtable.sizeBytes == 0
      ensures if old(memtable.table) == map[] then State() == old(State())
              else State() == AfterFlush(old(State()), size) && After(old(State()), WholeFlush(size)) == Some(State())
    {
      hide Inv, AfterFlush, After, WholeFlush;
      size := 0;
      EmptyIffNothing(memtable.table);
      var empty := memtable.IsEmpty();
      if memtable.sizeBytes == 0 && empty {
        return;
      }
      var fileSize: nat := *;
      ghost var before := State();
      FlushSequence(before, contents, fileSize);
      assert |Mems(imms)| == 0 && imms == [];
      RotateAndFlush(fileSize);
      size := fileSize;
    }

    /** Rotates the memtable, writes it to a new level-0 table, logs and applies the edit, retires the memtable and
        truncates the log. */
    method RotateAndFlush(fileSize: nat)
      requires memtable.Valid() && versionSet.Valid() && imms == [] && memtable.table != map[]
      requires Remaining([], Mem(memtableIdSeq, map[])) == []
      modifies this, versionSet
      ensures memtable.Valid() && versionSet.Valid() && imms == [] && contents == old(contents)
      ensures fresh(memtable) && memtable.table == map[] && memtable.sizeBytes == 0
      ensures State() == AfterFlush(old(State()), fileSize)
    {
      hide ApplyEdit, MaxSeq, Ascending, Remaining, FlushEdit, TableMeta, TotalSize, WellFormed;
      var frozen := memtable;
      var newId := memtableIdSeq;
      memtableIdSeq := newId + 1;
      memtable := new MemTable(newId);
      imms := imms + [frozen];
      assert imms == [frozen];

      WriteLevel0(frozen, fileSize);

      assert RetainOthers([frozen], frozen.id) == [];
      imms := RetainOthers(imms, frozen.id);
      var remaining := RemainingRecords(imms, memtable);
      wal := [];
      wal := wal + remaining;
    }

    /** Writes a frozen memtable to a new level-0 table, then logs and applies the edit. */
    method WriteLevel0(frozen: MemTable, fileSize: nat)
      requires frozen.Valid() && versionSet.Valid() && frozen.table != map[]
      modifies this`disk, this`manifest, versionSet
      ensures versionSet.Valid()
      ensures var es, n := Ascending(frozen.table), old(versionSet.nextFileNumber);
              var edit := FlushEdit(TableMeta(n, fileSize, es), MaxSeq(frozen.table));
              && disk == old(disk)[n := es] && manifest == old(manifest) + [edit]
              && versionSet.State() == ApplyEdit(old(versionSet.State()).(nextFile := n + 1), edit)
    {
      hide ApplyEdit, MaxSeq;
      var fileNumber := versionSet.NextFileNumber();
      var es, maxSeq := SummarizeTable(frozen.table);
      disk := disk[fileNumber := es];
      var edit := FlushEdit(TableMeta(fileNumber, fileSize, es), maxSeq);
      manifest := manifest + [edit];
      versionSet.LogAndApply(edit);
    }

    /** Runs compaction passes until none is due, at most a hundred. Passes strictly lower the weight of the levels: the
        cap can stop the loop only after a hundred such drops, so it cuts nothing short when the weight is at most a
        hundred. */
    method Compact()
      requires Valid()
      modifies this, versionSet
      ensures Valid() && contents == old(contents) && memtable == old(memtable) && wal == old(wal)
      ensures Weight(versionSet.levels, 0) <= old(Weight(versionSet.levels, 0))
      ensures !Settled(Compactor(options.maxLevels, options.baseLevelSize, 4), versionSet.levels) ==>
                Weight(versionSet.levels, 0) + 100 <= old(Weight(versionSet.levels, 0))
      ensures old(Weight(versionSet.levels, 0)) <= 100 ==>
                Settled(Compactor(options.maxLevels, options.baseLevelSize, 4), versionSet.levels)
      ensures Settled(Compactor(options.maxLevels, options.baseLevelSize, 4), old(versionSet.levels)) ==>
                State() == old(State())
      ensures |manifest| <= |old(manifest)| + 100
      ensures |manifest| < |old(manifest)| + 100 ==>
                Settled(Compactor(options.maxLevels, options.baseLevelSize, 4), versionSet.levels)
    {
      hide Inv, Weight, Settled;
      var compactor := Compactor(options.maxLevels, options.baseLevelSize, 4);
      for i := 0 to 100
        invariant Valid() && contents == old(contents) && memtable == old(memtable) && wal == old(wal)
        invariant Weight(versionSet.levels, 0) + i <= old(Weight(versionSet.levels, 0))
        invariant |manifest| == |old(manifest)| + i && (i == 0 ==> State() == old(State()))
        invariant i > 0 ==> !Settled(compactor, old(versionSet.levels))
      {
        var task := PickCompaction(compactor, versionSet.levels);
        if task.None? {
          return;
        }
        var _ := CompactPass(compactor, task.value);
      }
      if old(Weight(versionSet.levels, 0)) <= 100 {
        WeightlessIsSettled(compactor, versionSet.levels);
      }
    }

    /** One pass: merge, log the edit, apply it, delete the replaced files. */
    method CompactPass(compactor: Compactor, task: Task) returns (ghost size: nat)
      requires Valid() && compactor.maxLevels == options.maxLevels && TaskOK(versionSet.levels, task)
      modifies this, versionSet
      ensures Valid() && contents == old(contents) && memtable == old(memtable) && wal == old(wal)
      ensures Weight(versionSet.levels, 0) < old(Weight(versionSet.levels, 0)) && |manifest| == |old(manifest)| + 1
      ensures After(old(State()), MergeSteps(task, size) + RemoveSteps(|task.Files()| + 1)) == Some(State())
    {
      hide Inv, ApplyEdit, Output, EditFor, TaskOK, Weight, RemoveNumbers, After, MergeSteps, RemoveSteps;
      ghost var s0 := State();
      IdleHasNoImmutables(s0, contents);
      var fileSize: nat := *;
      TaskTarget(versionSet.levels, task);
      var edit, disk', nextFile := RunCompaction(compactor, task, disk, versionSet.nextFileNumber, fileSize);
      CompactSequence(s0, contents, task, fileSize);
      disk := disk';
      versionSet.nextFileNumber := nextFile;
      manifest := manifest + [edit];
      versionSet.LogAndApply(edit);
      disk := RemoveFiles(disk, FileNumbers(task.Files()));
      size := fileSize;
      assert State() == AfterCompaction(s0, task, fileSize);
    }

    /** Tier by tier: active memtable, immutable memtables newest first, level 0 newest first, then level by level. */
    method Get(key: Key) returns (r: Option<Bytes>)
      requires Valid()
      ensures r == Lookup(contents, key)
    {
      hide Inv, LevelsGet, ImmsGet;
      GetAgrees(State(), contents, key);
      var hit := memtable.Get(key);
      if hit.Some? {
        return hit.value;
      }
      hit := SearchImmutables(imms, key);
      if hit.Some? {
        return hit.value;
      }
      r := SearchLevels(versionSet.levels, disk, key);
    }

    /** The entries of all tiers mean the store's map. */
    lemma AllTiers()
      requires Valid()
      ensures Means(Live(versionSet.levels, disk) + MemEntries(Mems(imms)) + Contents(memtable.table), contents)
    {
      hide LevelInv, LiveFrom, Means, Contents, Replay;
      NoContents();
      assert InMemory(State()) + Live(versionSet.levels, disk)
             == Live(versionSet.levels, disk) + MemEntries(Mems(imms)) + Contents(memtable.table);
    }

    method MergeTiers() returns (merged: Table)
      requires Valid()
      ensures KeepsNewest(merged, Live(versionSet.levels, disk) + MemEntries(Mems(imms)) + Contents(memtable.table))
    {
      hide KeepsNewest, Contents, MemEntries, Mems, LiveFrom, Means, Inv, TotalSize;
      merged := ScanLevels(versionSet.levels, disk);
      merged := ScanImmutables(imms, merged, Live(versionSet.levels, disk));
      merged := ScanTable(memtable.table, merged, Live(versionSet.levels, disk) + MemEntries(Mems(imms)));
    }

    /** Merges every tier by sequence number, whatever order the tiers come in. */
    method Scan(start: Option<Key>, end: Option<Key>) returns (results: seq<(Key, Bytes)>)
      requires Valid()
      ensures IsScan(results, contents, start, end)
      ensures forall k | k in contents && (start.Some? ==> Le(start.value, k)) && (end.Some? ==> Lt(k, end.value)) ::
                (k, contents[k]) in results
      ensures forall p | p in results ::
                && p.0 in contents && p.1 == contents[p.0]
                && (start.Some? ==> Le(start.value, p.0)) && (end.Some? ==> Lt(p.0, end.value))
      ensures forall i, j | 0 <= i < j < |results| :: Lt(results[i].0, results[j].0)
    {
      hide *;
      AllTiers();
      var merged := MergeTiers();
      MergedMeans(merged, Live(versionSet.levels, disk) + MemEntries(Mems(imms)) + Contents(memtable.table), contents);
      results := EmitPairs(merged, start, end, contents);
      ScanListsBetween(results, contents, start, end);
    }
  }
}
