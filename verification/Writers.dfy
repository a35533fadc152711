/** Any number of writes in their three separately locked actions, taking a number, appending to the log, inserting into
    the memtable (src/engine.rs:133-149), beside flushes and crashes: which of them recovery finds. */
module Writers {
  import opened Keys
  import opened Entries
  import opened System

  /** `Truncated`: the log is empty and locked, and these records are about to be written back. */
  datatype FlushStage = NoFlush | MemtableFrozen | EditLogged | Truncated(records: seq<WalRecord>)

  /** What the threads share: the memtables, the log, and of the logged version its last sequence number and its tables,
      oldest first. */
  datatype Shared = Shared(active: Table, frozen: Table, flush: FlushStage, wal: seq<WalRecord>, floor: nat,
                           tables: seq<Table>)

  /** How far a write has come, and where its entry has gone since; `Displaced` is out of the memtables and in no
      table. */
  datatype Place = Numbered | Appended | InMemtable | Displaced | InFrozen | InTable

  /** What has happened to a write. `cut`: the log was truncated with its record, and it has not been written back
      since, which it is only when its entry was in the memtable at a truncation: then it is `listed` until the records
      are written back. `overtaken`: a memtable without its entry was flushed that held a larger number. `behind`: the
      numbers of the records of its key that were logged behind its own. */
  datatype Ticket = Ticket(e: Entry, place: Place, cut: bool, overtaken: bool, behind: set<nat>, listed: bool)

  /** All writes under their numbers. */
  datatype Writers = Writers(st: Shared, lastSeq: nat, tickets: map<nat, Ticket>)

  datatype Step =
    | TakeNumber(op: BatchOp)
    | Append(n: nat)
    | Insert(n: nat)
    | RotateMemtable
    | LogEdit
    | TruncateLog
    | WriteBack
    | Crash

  const EmptyStore := Shared(map[], map[], NoFlush, [], 0, [])

  const NoWriters := Writers(EmptyStore, 0, map[])

  predicate InLog(t: Ticket) {
    !t.cut && t.place != Numbered && t.place != InTable
  }

  /** None of the three things that lose a logged write has happened to it, or what was logged behind it is flushed. */
  ghost predicate Safe(t: Ticket, floor: nat) {
    !t.cut && !t.overtaken && forall n | n in t.behind :: n <= floor
  }

  predicate Acknowledged(t: Ticket) {
    t.place == InMemtable || t.place == Displaced || t.place == InFrozen || t.place == InTable
  }

  predicate Allowed(w: Writers, step: Step) {
    match step
    case TakeNumber(_) => true
    case Append(n) => n in w.tickets && w.tickets[n].place == Numbered && !w.st.flush.Truncated?
    case Insert(n) => n in w.tickets && w.tickets[n].place == Appended
    case RotateMemtable => w.st.flush == NoFlush && w.st.active != map[]
    case LogEdit => w.st.flush == MemtableFrozen
    case TruncateLog => w.st.flush == EditLogged
    case WriteBack => w.st.flush.Truncated?
    case Crash => true
  }

  function Larger(a: nat, b: nat): nat {
    if a < b then b else a
  }

  /** The shared state after a step; a crash leaves what recovery makes of the log and the logged version. */
  ghost function SharedAfter(w: Writers, step: Step): Shared
    requires Allowed(w, step)
  {
    var st := w.st;
    match step
    case TakeNumber(_) => st
    case Append(n) => st.(wal := st.wal + [FromEntry(w.tickets[n].e)])
    case Insert(n) => st.(active := st.active[w.tickets[n].e.key := w.tickets[n].e])
    case RotateMemtable => st.(active := map[], frozen := st.active, flush := MemtableFrozen)
    case LogEdit =>
      st.(flush := EditLogged, floor := Larger(st.floor, MaxSeq(st.frozen)), tables := st.tables + [st.frozen])
    case TruncateLog =>
      st.(flush := Truncated(SortRecords(RecordsOf(Ascending(st.active)))), frozen := map[], wal := [])
    case WriteBack => st.(flush := NoFlush, wal := st.wal + st.flush.records)
    case Crash => st.(active := ReplayWal(st.wal, st.floor), frozen := map[], flush := NoFlush)
  }

  /** What a step makes of the write numbered `m`. */
  ghost function TicketAfter(w: Writers, step: Step, m: nat): Ticket
    requires Allowed(w, step) && m in w.tickets
  {
    var t := w.tickets[m];
    match step
    case TakeNumber(_) => t
    case Append(n) =>
      if n == m then t.(place := Appended)
      else if w.tickets[n].e.key == t.e.key && t.place != Numbered then t.(behind := t.behind + {n})
      else t
    case Insert(n) =>
      if n == m then t.(place := InMemtable)
      else if w.tickets[n].e.key == t.e.key && t.place == InMemtable then t.(place := Displaced)
      else t
    case RotateMemtable => if t.place == InMemtable then t.(place := InFrozen) else t
    case LogEdit =>
      if t.place == InFrozen then t.(place := InTable)
      else t.(overtaken := t.overtaken || (t.place != InTable && MaxSeq(w.st.frozen) >= m))
    case TruncateLog =>
      if t.place == Numbered || t.place == InTable then t else t.(cut := true, listed := t.place == InMemtable)
    case WriteBack => if t.listed then t.(cut := false, listed := false, behind := {}) else t
    case Crash =>
      if t.place == InTable then t else t.(place := if Safe(t, w.st.floor) then InMemtable else Displaced)
  }

  /** The writes that are left after a step: a crash forgets those with neither a record nor a table. */
  predicate Remembered(t: Ticket, step: Step) {
    step == Crash ==> t.place == InTable || InLog(t)
  }

  ghost function After(w: Writers, step: Step): Writers
    requires Allowed(w, step)
  {
    var tickets := map m | m in w.tickets && Remembered(w.tickets[m], step) :: TicketAfter(w, step, m);
    var n := w.lastSeq + 1;
    if step.TakeNumber? then
      Writers(w.st, n, tickets[n := Ticket(EntryFor(step.op, n), Numbered, false, false, {}, false)])
    else
      Writers(SharedAfter(w, step), if step == Crash then MaxRecord(w.st.wal, w.st.floor) else w.lastSeq, tickets)
  }

  ghost function Run(w: Writers, steps: seq<Step>): Option<Writers> {
    if steps == [] then Some(w)
    else
      var before, last := Run(w, steps[..|steps| - 1]), steps[|steps| - 1];
      if before.Some? && Allowed(before.value, last) then Some(After(before.value, last)) else None
  }

  // ----- What the log replays -----

  /** The log's deletions carry no value, as they are written. */
  ghost predicate PlainRecords(wal: seq<WalRecord>) {
    forall r | r in wal :: FromEntry(ToEntry(r)) == r
  }

  /** The record of `e` is above the floor, and behind it there is no other record of its key above the floor. */
  ghost predicate Leads(wal: seq<WalRecord>, floor: nat, e: Entry) {
    && e.seqNo > floor
    && exists i :: 0 <= i < |wal| && wal[i] == FromEntry(e) &&
         forall j | i < j < |wal| && wal[j].key == e.key && wal[j].seqNo > floor :: wal[j] == FromEntry(e)
  }

  lemma LeadsAppended(wal: seq<WalRecord>, r: WalRecord, floor: nat, e: Entry)
    ensures Leads(wal + [r], floor, e)
            <==> if r == FromEntry(e) then e.seqNo > floor
                 else if r.key == e.key && r.seqNo > floor then false
                 else Leads(wal, floor, e)
  {
    var more := wal + [r];
    if r == FromEntry(e) {
      assert more[|wal|] == FromEntry(e);
    } else {
      if Leads(more, floor, e) {
        var i :| 0 <= i < |more| && more[i] == FromEntry(e) &&
          forall j | i < j < |more| && more[j].key == e.key && more[j].seqNo > floor :: more[j] == FromEntry(e);
        assert wal[i] == FromEntry(e);
        assert more[|wal|] == r;
        forall j | i < j < |wal| && wal[j].key == e.key && wal[j].seqNo > floor ensures wal[j] == FromEntry(e) {
          assert more[j] == wal[j];
        }
      }
      if Leads(wal, floor, e) {
        var i :| 0 <= i < |wal| && wal[i] == FromEntry(e) &&
          forall j | i < j < |wal| && wal[j].key == e.key && wal[j].seqNo > floor :: wal[j] == FromEntry(e);
        assert more[i] == FromEntry(e);
      }
    }
  }

  /** Recovery finds an entry in the log if and only if its record leads its key. */
  lemma {:induction false} ReplayedIff(wal: seq<WalRecord>, floor: nat, e: Entry)
    requires Canonical(e) && PlainRecords(wal)
    ensures WellFormed(ReplayWal(wal, floor))
    ensures e in Contents(ReplayWal(wal, floor)) <==> Leads(wal, floor, e)
  {
    hide Leads;
    if wal == [] {
      NothingLeads(floor, e);
    } else {
      var init, last := wal[..|wal| - 1], wal[|wal| - 1];
      assert wal == init + [last];
      ReplayedIff(init, floor, e);
      LeadsAppended(init, last, floor, e);
      LeadsAbove(init, floor, e);
      assert FromEntry(ToEntry(last)) == last;
      assert last == FromEntry(e) <==> ToEntry(last) == e;
      if last.seqNo > floor {
        InsertedContents(ReplayWal(init, floor), ToEntry(last));
      }
    }
  }

  lemma LeadsAbove(wal: seq<WalRecord>, floor: nat, e: Entry)
    ensures Leads(wal, floor, e) ==> e.seqNo > floor
  {
  }

  lemma NothingLeads(floor: nat, e: Entry)
    ensures !Leads([], floor, e)
  {
  }

  lemma InsertedContents(t: Table, x: Entry)
    requires WellFormed(t)
    ensures WellFormed(t[x.key := x])
    ensures forall y :: y in Contents(t[x.key := x]) <==> y == x || (y in Contents(t) && y.key != x.key)
  {
    ContentsHold(t);
    ContentsHold(t[x.key := x]);
    forall y ensures Holds(t[x.key := x], y) <==> y == x || (Holds(t, y) && y.key != x.key) {
    }
  }

  /** The numbers of the records of the key of `e` behind its last record. */
  ghost function Behind(wal: seq<WalRecord>, e: Entry): set<nat> {
    if wal == [] then {}
    else
      var init, r := wal[..|wal| - 1], wal[|wal| - 1];
      if r == FromEntry(e) then {}
      else if r.key == e.key && FromEntry(e) in init then Behind(init, e) + {r.seqNo}
      else Behind(init, e)
  }

  lemma BehindAppended(wal: seq<WalRecord>, r: WalRecord, e: Entry)
    ensures Behind(wal + [r], e)
            == if r == FromEntry(e) then {}
               else if r.key == e.key && FromEntry(e) in wal then Behind(wal, e) + {r.seqNo}
               else Behind(wal, e)
  {
    assert (wal + [r])[..|wal|] == wal;
  }

  lemma {:induction false} LeadsIff(wal: seq<WalRecord>, floor: nat, e: Entry)
    ensures Leads(wal, floor, e)
            <==> FromEntry(e) in wal && e.seqNo > floor && forall n | n in Behind(wal, e) :: n <= floor
  {
    hide Leads, FromEntry;
    if wal == [] {
      NothingLeads(floor, e);
    } else {
      var init, last := wal[..|wal| - 1], wal[|wal| - 1];
      assert wal == init + [last];
      LeadsIff(init, floor, e);
      LeadsAppended(init, last, floor, e);
      BehindAppended(init, last, e);
      if last != FromEntry(e) && last.key == e.key && FromEntry(e) in init {
        assert last.seqNo in Behind(wal, e);
        assert forall n | n in Behind(init, e) :: n in Behind(wal, e);
      }
    }
  }

  lemma {:induction false} NoneBehind(wal: seq<WalRecord>, e: Entry)
    requires forall r | r in wal && r.key == e.key :: r == FromEntry(e)
    ensures Behind(wal, e) == {}
  {
    if wal != [] {
      var init, last := wal[..|wal| - 1], wal[|wal| - 1];
      assert forall r | r in init :: r in wal;
      NoneBehind(init, e);
      assert last in wal;
    }
  }
}
