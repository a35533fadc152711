/** The storage engine as a state machine: atomic writes, and the steps of one flush and one compaction, interleaved in
    any order and cut by crashes (src/engine.rs). */
module System {
  import opened Keys
  import opened Entries
  import opened Versions
  import opened LevelStore
  import opened Meaning
  import opened Compaction
  import opened CompactionLaws

  // ----- Write-ahead log -----

  datatype WalRecord = WalRecord(key: Key, value: Bytes, isDelete: bool, seqNo: nat)

  function FromEntry(e: Entry): WalRecord {
    WalRecord(e.key, e.value, e.valueType == Tombstone, e.seqNo)
  }

  function ToEntry(r: WalRecord): Entry {
    if r.isDelete then NewTombstone(r.key, r.seqNo) else NewValue(r.key, r.value, r.seqNo)
  }

  /** Tombstones carry no value, so an entry survives the trip through the log. */
  predicate Canonical(e: Entry) {
    ToEntry(FromEntry(e)) == e
  }

  /** The memtable recovery builds: every logged record above `floor`, later records over earlier ones. */
  function ReplayWal(wal: seq<WalRecord>, floor: nat): Table {
    if wal == [] then map[]
    else
      var t, r := ReplayWal(wal[..|wal| - 1], floor), wal[|wal| - 1];
      if r.seqNo > floor then t[r.key := ToEntry(r)] else t
  }

  function MaxRecord(wal: seq<WalRecord>, floor: nat): nat {
    if wal == [] then floor
    else
      var n, r := MaxRecord(wal[..|wal| - 1], floor), wal[|wal| - 1];
      if r.seqNo > n then r.seqNo else n
  }

  function InsertRecord(rs: seq<WalRecord>, r: WalRecord): seq<WalRecord> {
    if rs == [] || rs[|rs| - 1].seqNo <= r.seqNo then rs + [r]
    else InsertRecord(rs[..|rs| - 1], r) + [rs[|rs| - 1]]
  }

  /** Stable sort by sequence number. */
  function SortRecords(rs: seq<WalRecord>): seq<WalRecord> {
    if rs == [] then [] else InsertRecord(SortRecords(rs[..|rs| - 1]), rs[|rs| - 1])
  }

  function RecordsOf(es: seq<Entry>): seq<WalRecord> {
    seq(|es|, i requires 0 <= i < |es| => FromEntry(es[i]))
  }

  // ----- State -----

  datatype BatchOp = Put(key: Key, value: Bytes) | Delete(key: Key)

  datatype Mem = Mem(id: nat, table: Table)

  datatype FlushPhase =
    | FlushIdle
    | Rotated(frozen: Mem)
    | TableDone(frozen: Mem, meta: FileMeta)
    | FlushLogged(frozen: Mem, meta: FileMeta)
    | FlushApplied(frozen: Mem)
    | Rewriting(records: seq<WalRecord>)

  datatype CompactPhase =
    | CompactIdle
    | Picked(task: Task)
    | MergeDone(task: Task, output: Option<FileMeta>)
    | CompactLogged(task: Task, output: Option<FileMeta>)
    | Removing(numbers: seq<nat>)

  datatype Sys = Sys(
    // lost in a crash
    active: Mem,
    imms: seq<Mem>,
    nextId: nat,
    live: Version,
    flush: FlushPhase,
    compact: CompactPhase,
    // durable
    wal: seq<WalRecord>,
    manifest: seq<VersionEdit>,
    disk: Disk)

  datatype Action =
    | Write(ops: seq<BatchOp>)
    | Rotate
    | FinishTable(size: nat)
    | LogFlush
    | ApplyFlush
    | Retire
    | RewriteWal
    | Pick(task: Task)
    | FinishMerge(size: nat)
    | LogCompaction
    | ApplyCompacted
    | RemoveFile
    | Restart

  // ----- Steps -----

  function EntryFor(op: BatchOp, seqNo: nat): Entry {
    match op
    case Put(k, v) => NewValue(k, v, seqNo)
    case Delete(k) => NewTombstone(k, seqNo)
  }

  function WriteOne(s: Sys, op: BatchOp): Sys {
    var e := EntryFor(op, s.live.lastSeq + 1);
    s.(live := s.live.(lastSeq := s.live.lastSeq + 1),
       wal := s.wal + [FromEntry(e)],
       active := s.active.(table := s.active.table[e.key := e]))
  }

  function WriteAll(s: Sys, ops: seq<BatchOp>): Sys {
    if ops == [] then s else WriteOne(WriteAll(s, ops[..|ops| - 1]), ops[|ops| - 1])
  }

  function MaxSeqOf(es: seq<Entry>): nat {
    if es == [] then 0
    else
      var n, e := MaxSeqOf(es[..|es| - 1]), es[|es| - 1];
      if e.seqNo > n then e.seqNo else n
  }

  ghost function MaxSeq(t: Table): nat {
    MaxSeqOf(Ascending(t))
  }

  function FlushEdit(meta: FileMeta, maxSeq: nat): VersionEdit {
    VersionEdit(Some(meta.number + 1), if maxSeq > 0 then Some(maxSeq) else None, [(0, meta)], [])
  }

  function TableMeta(number: nat, size: nat, es: seq<Entry>): FileMeta
    requires es != []
  {
    FileMeta(number, size, es[0].key, es[|es| - 1].key)
  }

  function WithoutId(mems: seq<Mem>, id: nat): seq<Mem> {
    if mems == [] then []
    else (if mems[0].id == id then [] else [mems[0]]) + WithoutId(mems[1..], id)
  }

  ghost function MemRecords(mems: seq<Mem>): seq<WalRecord> {
    if mems == [] then [] else RecordsOf(Ascending(mems[0].table)) + MemRecords(mems[1..])
  }

  /** Unflushed entries, oldest first: what the truncated log is rewritten with. */
  ghost function Remaining(imms: seq<Mem>, active: Mem): seq<WalRecord> {
    SortRecords(MemRecords(imms) + RecordsOf(Ascending(active.table)))
  }

  function FileNumbers(files: seq<FileMeta>): seq<nat> {
    seq(|files|, i requires 0 <= i < |files| => files[i].number)
  }

  /** The version the manifest stands for. */
  function Logged(s: Sys): Version {
    Replay(s.manifest, |s.live.levels|)
  }

  /** Opening the store on what is durable. */
  function Recover(manifest: seq<VersionEdit>, wal: seq<WalRecord>, disk: Disk, maxLevels: nat): Sys {
    var v := Replay(manifest, maxLevels);
    Sys(Mem(0, ReplayWal(wal, v.lastSeq)), [], 1, v.(lastSeq := MaxRecord(wal, v.lastSeq)), FlushIdle, CompactIdle,
        wal, manifest, disk)
  }

  ghost predicate Enabled(s: Sys, a: Action) {
    match a
    case Write(ops) => !s.flush.Rewriting?
    case Rotate => s.flush.FlushIdle? && s.active.table != map[]
    case FinishTable(_) => s.flush.Rotated? && s.flush.frozen.table != map[]
    case LogFlush => s.flush.TableDone?
    case ApplyFlush => s.flush.FlushLogged?
    case Retire => s.flush.FlushApplied?
    case RewriteWal => s.flush.Rewriting?
    case Pick(t) => s.compact.CompactIdle? && TaskOK(s.live.levels, t)
    case FinishMerge(_) => s.compact.Picked?
    case LogCompaction => s.compact.MergeDone?
    case ApplyCompacted => s.compact.CompactLogged?
    case RemoveFile => s.compact.Removing?
    case Restart => true
  }

  ghost function Do(s: Sys, a: Action): Sys
    requires Enabled(s, a)
  {
    match a
    case Write(ops) =>
      WriteAll(s, ops)
    case Rotate =>
      s.(active := Mem(s.nextId, map[]), nextId := s.nextId + 1, imms := s.imms + [s.active],
         flush := Rotated(s.active))
    case FinishTable(size) =>
      var es, n := Ascending(s.flush.frozen.table), s.live.nextFile;
      s.(live := s.live.(nextFile := n + 1), disk := s.disk[n := es],
         flush := TableDone(s.flush.frozen, TableMeta(n, size, es)))
    case LogFlush =>
      s.(manifest := s.manifest + [FlushEdit(s.flush.meta, MaxSeq(s.flush.frozen.table))],
         flush := FlushLogged(s.flush.frozen, s.flush.meta))
    case ApplyFlush =>
      s.(live := ApplyEdit(s.live, FlushEdit(s.flush.meta, MaxSeq(s.flush.frozen.table))),
         flush := FlushApplied(s.flush.frozen))
    case Retire =>
      var imms := WithoutId(s.imms, s.flush.frozen.id);
      var remaining := Remaining(imms, s.active);
      s.(imms := imms, wal := [], flush := if remaining == [] then FlushIdle else Rewriting(remaining))
    case RewriteWal =>
      s.(wal := s.wal + s.flush.records, flush := FlushIdle)
    case Pick(t) =>
      s.(compact := Picked(t))
    case FinishMerge(size) =>
      var t, n := s.compact.task, s.live.nextFile;
      var out := Output(t, s.disk, |s.live.levels|);
      if out == [] then s.(compact := MergeDone(t, None))
      else
        s.(live := s.live.(nextFile := n + 1), disk := s.disk[n := out],
           compact := MergeDone(t, Some(TableMeta(n, size, out))))
    case LogCompaction =>
      s.(manifest := s.manifest + [EditFor(s.compact.task, s.compact.output)],
         compact := CompactLogged(s.compact.task, s.compact.output))
    case ApplyCompacted =>
      s.(live := ApplyEdit(s.live, EditFor(s.compact.task, s.compact.output)),
         compact := Removing(FileNumbers(s.compact.task.Files())))
    case RemoveFile =>
      var ns := s.compact.numbers;
      if ns == [] then s.(compact := CompactIdle)
      else s.(disk := s.disk - {ns[0]}, compact := Removing(ns[1..]))
    case Restart =>
      Recover(s.manifest, s.wal, s.disk, |s.live.levels|)
  }

  // ----- The map the store stands for -----

  function ApplyOp(m: KeyValues, op: BatchOp): KeyValues {
    match op
    case Put(k, v) => m[k := v]
    case Delete(k) => m - {k}
  }

  function ApplyOps(m: KeyValues, ops: seq<BatchOp>): KeyValues {
    if ops == [] then m else ApplyOp(ApplyOps(m, ops[..|ops| - 1]), ops[|ops| - 1])
  }

  lemma {:induction false} UntouchedKey(m: KeyValues, ops: seq<BatchOp>, k: Key)
    requires forall op | op in ops :: op.key != k
    ensures Lookup(ApplyOps(m, ops), k) == Lookup(m, k)
  {
    if ops != [] {
      assert ops[|ops| - 1] in ops;
      UntouchedKey(m, ops[..|ops| - 1], k);
    }
  }

  /** Of several operations on a key the last one decides. */
  lemma {:induction false} LastOpDecides(m: KeyValues, ops: seq<BatchOp>, i: nat)
    requires i < |ops| && forall j | i < j < |ops| :: ops[j].key != ops[i].key
    ensures Lookup(ApplyOps(m, ops), ops[i].key) == if ops[i].Put? then Some(ops[i].value) else None
  {
    if i < |ops| - 1 {
      LastOpDecides(m, ops[..|ops| - 1], i);
    }
  }

  function Expect(m: KeyValues, a: Action): KeyValues {
    if a.Write? then ApplyOps(m, a.ops) else m
  }

  /** What a crash and a restart leave of the map: all of it, except between truncating the log and writing the
      remaining records back; there, exactly what the tables of the logged version hold. */
  ghost function AfterCrash(s: Sys, m: KeyValues): KeyValues {
    if s.flush.Rewriting? then MapOf(Live(Logged(s).levels, s.disk)) else m
  }

  ghost function ExpectIn(s: Sys, m: KeyValues, a: Action): KeyValues {
    if a == Restart then AfterCrash(s, m) else Expect(m, a)
  }

  // ----- The invariant -----

  ghost predicate SeqBound(es: set<Entry>, n: nat) {
    forall e | e in es :: e.seqNo <= n
  }

  ghost predicate NumbersBelow(levels: Levels, n: nat) {
    forall i, f | 0 <= i < |levels| && f in levels[i] :: f.number < n
  }

  /** Entries above `lo` and up to `hi`. */
  ghost predicate TableIn(t: Table, lo: nat, hi: nat) {
    WellFormed(t) && forall k | k in t :: lo < t[k].seqNo <= hi && Canonical(t[k])
  }

  ghost predicate WalOK(wal: seq<WalRecord>, hi: nat) {
    && (forall i, j | 0 <= i < j < |wal| :: wal[i].seqNo <= wal[j].seqNo)
    && (forall r | r in wal :: r.seqNo <= hi)
  }

  predicate HasFrozen(s: Sys) {
    s.flush.Rotated? || s.flush.TableDone? || s.flush.FlushLogged? || s.flush.FlushApplied?
  }

  function Frozen(s: Sys): Table {
    if HasFrozen(s) then s.flush.frozen.table else map[]
  }

  /** The logged version is the live one with the logged, not yet applied edits on top. */
  function Pending(levels: Levels, flush: FlushPhase, compact: CompactPhase): Levels
    requires |levels| >= 1 && (compact.CompactLogged? ==> 0 < compact.task.target < |levels|)
  {
    var compacted := if compact.CompactLogged? then CompactLevels(levels, compact.task, compact.output) else levels;
    if flush.FlushLogged? then PushLevel0(compacted, flush.meta) else compacted
  }

  ghost predicate StoreInv(s: Sys) {
    var d := Logged(s);
    && LevelInv(s.live.levels, s.disk)
    && LevelInv(d.levels, s.disk)
    && NumbersBelow(s.live.levels, s.live.nextFile)
    && NumbersBelow(d.levels, d.nextFile)
    && d.nextFile <= s.live.nextFile
    && SeqBound(Live(s.live.levels, s.disk), d.lastSeq)
    && SeqBound(Live(d.levels, s.disk), d.lastSeq)
    && d.lastSeq <= s.live.lastSeq
  }

  ghost predicate MemInv(s: Sys) {
    var floor := Logged(s).lastSeq;
    && TableIn(s.active.table, floor, s.live.lastSeq)
    && TableIn(Frozen(s), 0, s.live.lastSeq)
    && (if HasFrozen(s) then s.imms == [s.flush.frozen] && s.flush.frozen.table != map[] && s.flush.frozen.id < s.nextId
        else s.imms == [])
    && s.active.id < s.nextId
    && (HasFrozen(s) ==> s.flush.frozen.id != s.active.id)
    && (s.flush.Rotated? || s.flush.TableDone? ==>
          TableIn(Frozen(s), floor, s.live.lastSeq) && TableIn(s.active.table, MaxSeq(Frozen(s)), s.live.lastSeq))
    && (s.flush.FlushLogged? || s.flush.FlushApplied? ==> MaxSeq(Frozen(s)) <= floor)
    && (s.flush.FlushLogged? ==> Fresher(Ascending(Frozen(s)), Live(s.live.levels, s.disk)))
    && Shadows(Contents(Frozen(s)), Live(s.live.levels, s.disk))
  }

  ghost predicate WalInv(s: Sys) {
    var floor := Logged(s).lastSeq;
    && WalOK(s.wal, s.live.lastSeq)
    && (if s.flush.Rewriting? then
          && s.wal == [] && WalOK(s.flush.records, s.live.lastSeq)
          && ReplayWal(s.flush.records, floor) == s.active.table
          && s.active.table != map[]
        else if s.flush.Rotated? || s.flush.TableDone? then
          ReplayWal(s.wal, floor) == Frozen(s) + s.active.table && ReplayWal(s.wal, MaxSeq(Frozen(s))) == s.active.table
        else
          ReplayWal(s.wal, floor) == s.active.table)
  }

  ghost predicate FlushFile(s: Sys) {
    s.flush.TableDone? || s.flush.FlushLogged? ==>
      var meta := s.flush.meta;
      && meta.number < s.live.nextFile
      && meta.number in s.disk && s.disk[meta.number] == Ascending(Frozen(s)) && MetaFor(meta, Ascending(Frozen(s)))
      && Unused(s.live.levels, meta.number)
      && (s.flush.TableDone? ==> Unused(Logged(s).levels, meta.number))
  }

  ghost predicate CompactInv(s: Sys) {
    var levels, logged, n := s.live.levels, Logged(s).levels, |s.live.levels|;
    match s.compact
    case CompactIdle => true
    case Picked(t) => TaskOK(levels, t) && TaskOK(logged, t)
    case MergeDone(t, output) => Built(levels, s.disk, t, output, n) && Built(logged, s.disk, t, output, n)
    case CompactLogged(t, output) => Built(levels, s.disk, t, output, n)
    case Removing(numbers) => forall i | 0 <= i < |numbers| :: Unused(levels, numbers[i]) && Unused(logged, numbers[i])
  }

  /** Files being written and files being removed are not confused with each other. */
  ghost predicate FilesApart(s: Sys) {
    && ((s.compact.MergeDone? || s.compact.CompactLogged?) && s.compact.output.Some? ==>
          && s.compact.output.value.number < s.live.nextFile
          && (s.flush.TableDone? || s.flush.FlushLogged? ==> s.compact.output.value.number != s.flush.meta.number))
    && (s.compact.Removing? ==>
          forall i | 0 <= i < |s.compact.numbers| ::
            && s.compact.numbers[i] < s.live.nextFile
            && (s.flush.TableDone? || s.flush.FlushLogged? ==> s.compact.numbers[i] != s.flush.meta.number))
  }

  ghost predicate PendingInv(s: Sys) {
    && |s.live.levels| >= 1
    && (s.compact.CompactLogged? ==> 0 < s.compact.task.target < |s.live.levels|)
    && Logged(s).levels == Pending(s.live.levels, s.flush, s.compact)
  }

  ghost predicate Consistent(s: Sys) {
    StoreInv(s) && MemInv(s) && WalInv(s) && FlushFile(s) && CompactInv(s) && FilesApart(s) && PendingInv(s)
  }

  /** The memtable a restart would build, or is about to be able to build. */
  function DurableTable(s: Sys): Table {
    if s.flush.Rewriting? then s.active.table else ReplayWal(s.wal, Logged(s).lastSeq)
  }

  ghost function MemEntries(mems: seq<Mem>): set<Entry> {
    if mems == [] then {} else Contents(mems[0].table) + MemEntries(mems[1..])
  }

  ghost function InMemory(s: Sys): set<Entry> {
    Contents(s.active.table) + Contents(Frozen(s))
  }

  /** What reads see, what a restart would see, and what reads will see once the flushed memtable is retired. */
  ghost predicate Stands(s: Sys, m: KeyValues) {
    && Means(InMemory(s) + Live(s.live.levels, s.disk), m)
    && Means(Contents(DurableTable(s)) + Live(Logged(s).levels, s.disk), m)
    && (s.flush.FlushApplied? ==> Means(Contents(s.active.table) + Live(s.live.levels, s.disk), m))
  }

  ghost predicate Inv(s: Sys, m: KeyValues) {
    Consistent(s) && Stands(s, m)
  }
}
