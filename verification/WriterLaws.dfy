/** Exactly which writes recovery finds, and when a crash keeps what is found under a key (src/engine.rs:92-149). */
module WriterLaws {
  import opened Keys
  import opened Entries
  import opened System
  import opened WalLaws
  import opened Writers

  // ----- The invariant -----

  ghost predicate Known(w: Writers, x: Entry) {
    x.seqNo in w.tickets && w.tickets[x.seqNo].e == x
  }

  ghost predicate AllKnown(w: Writers, es: set<Entry>) {
    forall x | x in es :: Known(w, x)
  }

  ghost predicate Stored(tables: seq<Table>, e: Entry) {
    exists i :: 0 <= i < |tables| && e in Contents(tables[i])
  }

  ghost predicate Numbering(w: Writers) {
    && (forall n | n in w.tickets :: 0 < n <= w.lastSeq && w.tickets[n].e.seqNo == n && Canonical(w.tickets[n].e))
    && w.st.floor <= w.lastSeq
  }

  /** Every entry and every record is that of a write. */
  ghost predicate Accounted(w: Writers) {
    && WellFormed(w.st.active) && WellFormed(w.st.frozen)
    && AllKnown(w, Contents(w.st.active)) && AllKnown(w, Contents(w.st.frozen))
    && (forall i | 0 <= i < |w.st.tables| :: WellFormed(w.st.tables[i]) && AllKnown(w, Contents(w.st.tables[i])))
    && AllRecorded(w, w.st.wal) && (w.st.flush.Truncated? ==> AllRecorded(w, w.st.flush.records))
  }

  ghost predicate AllRecorded(w: Writers, rs: seq<WalRecord>) {
    forall r | r in rs :: r.seqNo in w.tickets && r == FromEntry(w.tickets[r.seqNo].e)
  }

  ghost predicate Staged(st: Shared) {
    && (st.flush == NoFlush || st.flush.Truncated? ==> st.frozen == map[])
    && (st.flush.Truncated? ==> st.wal == [])
    && (st.flush == EditLogged ==> st.tables != [] && st.tables[|st.tables| - 1] == st.frozen)
  }

  ghost predicate Placed(st: Shared, t: Ticket) {
    && (t.e in Contents(st.active) <==> t.place == InMemtable)
    && (st.flush == MemtableFrozen ==> (t.e in Contents(st.frozen) <==> t.place == InFrozen))
    && (st.flush != MemtableFrozen ==> t.place != InFrozen)
    && (Stored(st.tables, t.e) <==> t.place == InTable)
  }

  ghost predicate Tracked(st: Shared, t: Ticket) {
    && (t.place == Numbered ==> !t.cut && t.behind == {} && FromEntry(t.e) !in st.wal)
    && (t.place != Numbered && t.place != InTable ==>
          && (FromEntry(t.e) in st.wal <==> !t.cut)
          && (!t.cut ==> Behind(st.wal, t.e) == t.behind))
    && (if t.place == InTable then st.floor >= t.e.seqNo else t.overtaken <==> st.floor >= t.e.seqNo)
    && (if st.flush.Truncated? then
          && (t.place != InTable ==> (FromEntry(t.e) in st.flush.records <==> t.listed))
          && (t.listed ==> t.cut && t.place != Numbered && t.place != InTable && Behind(st.flush.records, t.e) == {})
        else !t.listed)
  }

  ghost predicate AllTracked(w: Writers) {
    forall n | n in w.tickets :: Placed(w.st, w.tickets[n]) && Tracked(w.st, w.tickets[n])
  }

  ghost predicate Good(w: Writers) {
    Numbering(w) && Accounted(w) && Staged(w.st) && AllTracked(w)
  }

  lemma NothingIn()
    ensures Contents(map[]) == {} && WellFormed(map[])
  {
  }

  lemma NoneGood()
    ensures Good(NoWriters)
  {
  }

  /** The rewritten log has the records of exactly the entries in the memtable. */
  lemma RewrittenRecords(t: Table)
    requires WellFormed(t)
    ensures forall r :: r in SortRecords(RecordsOf(Ascending(t))) <==> exists x :: x in Contents(t) && r == FromEntry(x)
  {
    var es := Ascending(t);
    AscendingFacts(t);
    ContentsHold(t);
    SortedMembers(RecordsOf(es));
    forall r | r in RecordsOf(es) ensures exists x :: x in Contents(t) && r == FromEntry(x) {
      var i :| 0 <= i < |es| && RecordsOf(es)[i] == r;
      assert es[i] in es && es[i] in Contents(t);
    }
    forall x | x in Contents(t) ensures FromEntry(x) in RecordsOf(es) {
      var i :| 0 <= i < |es| && es[i] == x;
      assert RecordsOf(es)[i] == FromEntry(x);
    }
  }

  /** A record of the log stands for the write it came from and no other. */
  lemma RecordIs(w: Writers, m: nat, r: WalRecord)
    requires Numbering(w) && Accounted(w) && m in w.tickets
    ensures r in w.st.wal && r.seqNo == m ==> r == FromEntry(w.tickets[m].e)
    ensures FromEntry(w.tickets[m].e).seqNo == m && FromEntry(w.tickets[m].e).key == w.tickets[m].e.key
  {
  }

  lemma StoredAppended(tables: seq<Table>, t: Table, e: Entry)
    ensures Stored(tables + [t], e) <==> Stored(tables, e) || e in Contents(t)
  {
    var more := tables + [t];
    if e in Contents(t) {
      assert more[|tables|] == t;
    }
    if Stored(tables, e) {
      var i :| 0 <= i < |tables| && e in Contents(tables[i]);
      assert more[i] == tables[i];
    }
  }

  lemma MaxSeqCovers(t: Table, e: Entry)
    requires WellFormed(t) && e in Contents(t)
    ensures MaxSeq(t) >= e.seqNo
  {
    ContentsHold(t);
    MaxSeqBounds(t);
  }

  // ----- Each step keeps it -----

  lemma PlacedInsert(w: Writers, n: nat, m: nat)
    requires Good(w) && Allowed(w, Insert(n)) && m in w.tickets
    ensures Placed(SharedAfter(w, Insert(n)), TicketAfter(w, Insert(n), m))
  {
    hide Contents, WellFormed, Behind, Stored, Tracked, Accounted;
    var t, e := w.tickets[m], w.tickets[n].e;
    assert WellFormed(w.st.active) by {
      ActiveWellFormed(w);
    }
    InsertedContents(w.st.active, e);
    assert n != m ==> t.e != e;
  }

  lemma ActiveWellFormed(w: Writers)
    requires Accounted(w)
    ensures WellFormed(w.st.active)
  {
  }

  lemma PlacedAfter(w: Writers, step: Step, m: nat)
    requires Good(w) && Allowed(w, step) && !step.TakeNumber? && step != Crash && m in w.tickets
    ensures Placed(SharedAfter(w, step), TicketAfter(w, step, m))
  {
    hide Contents, WellFormed, Ascending, MaxSeq, SortRecords, RecordsOf, Behind, Stored, Tracked, Accounted, Numbering;
    NothingIn();
    var t := w.tickets[m];
    match step
    case Insert(n) => PlacedInsert(w, n, m);
    case LogEdit => StoredAppended(w.st.tables, w.st.frozen, t.e);
    case _ =>
  }

  lemma TrackedAfter(w: Writers, step: Step, m: nat)
    requires Good(w) && Allowed(w, step) && !step.TakeNumber? && step != Crash && m in w.tickets
    ensures Tracked(SharedAfter(w, step), TicketAfter(w, step, m))
  {
    hide Contents, WellFormed, Ascending, MaxSeq, SortRecords, RecordsOf, Behind, Stored, Leads;
    var t := w.tickets[m];
    match step
    case Append(n) => BehindAppended(w.st.wal, FromEntry(w.tickets[n].e), t.e);
    case LogEdit =>
      if t.place == InFrozen {
        MaxSeqCovers(w.st.frozen, t.e);
      }
    case TruncateLog => RewrittenTicket(w, m);
    case WriteBack => assert w.st.wal + w.st.flush.records == w.st.flush.records;
    case _ =>
  }

  lemma RewrittenTicket(w: Writers, m: nat)
    requires Good(w) && m in w.tickets
    ensures var t, wal := w.tickets[m], SortRecords(RecordsOf(Ascending(w.st.active)));
            && (FromEntry(t.e) in wal <==> t.place == InMemtable)
            && (t.place == InMemtable ==> Behind(wal, t.e) == {})
  {
    hide Contents, WellFormed, Ascending, SortRecords, RecordsOf, Behind, Stored, Tracked;
    var t, wal := w.tickets[m], SortRecords(RecordsOf(Ascending(w.st.active)));
    RewrittenRecords(w.st.active);
    if FromEntry(t.e) in wal {
      var x :| x in Contents(w.st.active) && FromEntry(t.e) == FromEntry(x);
      assert Known(w, x);
    }
    if t.place == InMemtable {
      forall r | r in wal && r.key == t.e.key ensures r == FromEntry(t.e) {
        var x :| x in Contents(w.st.active) && r == FromEntry(x);
        OneOfKey(w.st.active, x, t.e);
      }
      NoneBehind(wal, t.e);
    }
  }

  lemma OneOfKey(t: Table, x: Entry, y: Entry)
    requires WellFormed(t) && x in Contents(t) && y in Contents(t) && x.key == y.key
    ensures x == y
  {
    ContentsHold(t);
  }

  /** Except in a crash no write is forgotten, and none changes its entry. */
  lemma SameTickets(w: Writers, step: Step)
    requires Numbering(w) && Allowed(w, step) && !step.TakeNumber? && step != Crash
    ensures After(w, step).tickets.Keys == w.tickets.Keys
    ensures forall n | n in w.tickets :: After(w, step).tickets[n] == TicketAfter(w, step, n)
    ensures forall n | n in w.tickets :: TicketAfter(w, step, n).e == w.tickets[n].e
    ensures forall x :: Known(After(w, step), x) <==> Known(w, x)
  {
    hide SharedAfter, MaxSeq, Safe;
  }

  lemma NumberingAfter(w: Writers, step: Step)
    requires Good(w) && Allowed(w, step) && !step.TakeNumber? && step != Crash
    ensures Numbering(After(w, step)) && Staged(SharedAfter(w, step))
  {
    hide TicketAfter, MaxSeq, Known, AllTracked, SortRecords, RecordsOf, Ascending, After, Accounted;
    SameTickets(w, step);
    assert After(w, step).lastSeq == w.lastSeq && After(w, step).st == SharedAfter(w, step) by {
      StateAfter(w, step);
    }
    if step == LogEdit {
      FloorBelow(w);
    }
  }

  lemma StateAfter(w: Writers, step: Step)
    requires Allowed(w, step) && !step.TakeNumber? && step != Crash
    ensures After(w, step).lastSeq == w.lastSeq && After(w, step).st == SharedAfter(w, step)
  {
    hide TicketAfter, SharedAfter;
  }

  lemma EntriesAfter(w: Writers, step: Step)
    requires Good(w) && Allowed(w, step) && !step.TakeNumber? && step != Crash
    ensures var st := SharedAfter(w, step);
            && WellFormed(st.active) && WellFormed(st.frozen)
            && AllKnown(w, Contents(st.active)) && AllKnown(w, Contents(st.frozen))
            && (forall i | 0 <= i < |st.tables| :: WellFormed(st.tables[i]) && AllKnown(w, Contents(st.tables[i])))
  {
    hide Contents, WellFormed, MaxSeq, SortRecords, RecordsOf, Ascending, Behind, Stored, AllTracked, Known, FromEntry;
    NothingIn();
    if step.Insert? {
      var e := w.tickets[step.n].e;
      InsertedContents(w.st.active, e);
      assert Known(w, e) by {
        TicketKnown(w, step.n);
      }
    }
  }

  lemma TicketKnown(w: Writers, n: nat)
    requires Numbering(w) && n in w.tickets
    ensures Known(w, w.tickets[n].e)
  {
  }

  lemma RecordsAfter(w: Writers, step: Step)
    requires Good(w) && Allowed(w, step) && !step.TakeNumber? && step != Crash
    ensures var st := SharedAfter(w, step);
            AllRecorded(w, st.wal) && (st.flush.Truncated? ==> AllRecorded(w, st.flush.records))
  {
    hide Contents, WellFormed, MaxSeq, SortRecords, RecordsOf, Ascending, Behind, Stored, AllTracked;
    if step == TruncateLog {
      RewrittenRecords(w.st.active);
    }
  }

  lemma AccountedAfter(w: Writers, step: Step)
    requires Good(w) && Allowed(w, step) && !step.TakeNumber? && step != Crash
    ensures Accounted(After(w, step))
  {
    hide After, SharedAfter, TicketAfter, Contents, WellFormed, Known, Good;
    assert Numbering(w) by {
      GoodNumbering(w);
    }
    StateAfter(w, step);
    SameTickets(w, step);
    EntriesAfter(w, step);
    RecordsAfter(w, step);
  }

  lemma GoodNumbering(w: Writers)
    requires Good(w)
    ensures Numbering(w)
  {
  }

  lemma FloorBelow(w: Writers)
    requires Numbering(w) && Accounted(w)
    ensures MaxSeq(w.st.frozen) <= w.lastSeq
  {
    hide MaxSeq;
    var t := w.st.frozen;
    MaxSeqBounds(t);
    if t != map[] {
      var k :| k in t && t[k].seqNo == MaxSeq(t);
      assert t[k] in Contents(t);
      assert Known(w, t[k]);
    } else {
      NoNumbers();
    }
  }

  lemma NoNumbers()
    ensures MaxSeq(map[]) == 0
  {
  }

  lemma LogPlain(w: Writers)
    requires Numbering(w) && Accounted(w)
    ensures PlainRecords(w.st.wal)
  {
    hide Contents, WellFormed, Known;
  }

  /** What recovery finds in the log. */
  lemma RecoveredIff(w: Writers, m: nat)
    requires Good(w) && m in w.tickets
    ensures WellFormed(ReplayWal(w.st.wal, w.st.floor))
    ensures var t := w.tickets[m];
            t.e in Contents(ReplayWal(w.st.wal, w.st.floor)) <==> InLog(t) && Safe(t, w.st.floor)
  {
    hide Contents, WellFormed, Known, Leads, Behind, Stored, ReplayWal;
    LogPlain(w);
    ReplayedIff(w.st.wal, w.st.floor, w.tickets[m].e);
    LeadsIff(w.st.wal, w.st.floor, w.tickets[m].e);
    var t := w.tickets[m];
    assert Tracked(w.st, t);
    if InLog(t) {
      assert Behind(w.st.wal, t.e) == t.behind;
      assert FromEntry(t.e) in w.st.wal;
      assert t.overtaken <==> w.st.floor >= t.e.seqNo;
      assert Leads(w.st.wal, w.st.floor, t.e)
        <==> t.e.seqNo > w.st.floor && forall n | n in Behind(w.st.wal, t.e) :: n <= w.st.floor;
      assert (forall n | n in Behind(w.st.wal, t.e) :: n <= w.st.floor)
        <==> (forall n | n in t.behind :: n <= w.st.floor);
    } else {
      assert !Leads(w.st.wal, w.st.floor, t.e);
    }
  }

  /** What recovery finds in the log is the entry of a write. */
  lemma RecoveredKnown(w: Writers, x: Entry)
    requires Good(w) && x in Contents(ReplayWal(w.st.wal, w.st.floor))
    ensures Known(w, x) && InLog(w.tickets[x.seqNo])
  {
    hide Leads, Behind, Stored;
    var r := ReplaySource(w.st.wal, w.st.floor, x);
    assert ToEntry(FromEntry(w.tickets[r.seqNo].e)) == w.tickets[r.seqNo].e;
    RecoveredIff(w, x.seqNo);
  }

  lemma {:induction false} ReplaySource(wal: seq<WalRecord>, floor: nat, x: Entry) returns (r: WalRecord)
    requires x in Contents(ReplayWal(wal, floor))
    ensures r in wal && ToEntry(r) == x
  {
    var init, last := wal[..|wal| - 1], wal[|wal| - 1];
    assert wal == init + [last];
    if x in Contents(ReplayWal(init, floor)) {
      r := ReplaySource(init, floor, x);
    } else {
      r := last;
    }
  }

  // ----- Crashes and new writes -----

  lemma CrashTickets(w: Writers)
    requires Numbering(w)
    ensures forall n :: n in After(w, Crash).tickets <==> n in w.tickets && Remembered(w.tickets[n], Crash)
    ensures forall n | n in After(w, Crash).tickets :: After(w, Crash).tickets[n] == TicketAfter(w, Crash, n)
    ensures forall n | n in w.tickets :: TicketAfter(w, Crash, n).e == w.tickets[n].e
    ensures forall x :: Known(After(w, Crash), x) <==> Known(w, x) && Remembered(w.tickets[x.seqNo], Crash)
  {
    hide SharedAfter, Safe;
  }

  lemma CrashPlaces(w: Writers, m: nat)
    requires Good(w) && m in w.tickets && Remembered(w.tickets[m], Crash)
    ensures Placed(SharedAfter(w, Crash), TicketAfter(w, Crash, m))
    ensures Tracked(SharedAfter(w, Crash), TicketAfter(w, Crash, m))
  {
    hide Contents, WellFormed, Behind, Stored, ReplayWal, Safe;
    NothingIn();
    RecoveredIff(w, m);
  }

  lemma CrashAccounted(w: Writers)
    requires Good(w)
    ensures Accounted(After(w, Crash)) && Staged(SharedAfter(w, Crash))
  {
    hide Contents, WellFormed, Behind, ReplayWal, Safe, Known;
    NothingIn();
    CrashTickets(w);
    var w' := After(w, Crash);
    LogPlain(w);
    ReplayedWellFormed(w.st.wal, w.st.floor);
    forall x | x in Contents(w'.st.active) ensures Known(w', x) {
      RecoveredKnown(w, x);
    }
    forall i, x | 0 <= i < |w.st.tables| && x in Contents(w.st.tables[i]) ensures Known(w', x) {
      assert Known(w, x);
      StoredRemembered(w, i, x);
    }
    forall r | r in w.st.wal ensures r.seqNo in w'.tickets && r == FromEntry(w'.tickets[r.seqNo].e) {
      RecordIs(w, r.seqNo, r);
      assert Tracked(w.st, w.tickets[r.seqNo]);
    }
  }

  lemma StoredRemembered(w: Writers, i: nat, x: Entry)
    requires Good(w) && i < |w.st.tables| && x in Contents(w.st.tables[i])
    ensures Known(w, x) && w.tickets[x.seqNo].place == InTable
  {
    hide Contents, WellFormed, Behind, Tracked;
    assert Known(w, x);
    assert Stored(w.st.tables, x);
    assert Placed(w.st, w.tickets[x.seqNo]);
  }

  lemma {:induction false} ReplayedWellFormed(wal: seq<WalRecord>, floor: nat)
    ensures WellFormed(ReplayWal(wal, floor))
  {
    if wal != [] {
      ReplayedWellFormed(wal[..|wal| - 1], floor);
    }
  }

  lemma CrashNumbering(w: Writers)
    requires Good(w)
    ensures Numbering(After(w, Crash))
  {
    hide Contents, WellFormed, Behind, Stored, ReplayWal, Safe, MaxRecord;
    CrashTickets(w);
    forall r | r in w.st.wal ensures r.seqNo <= w.lastSeq {
      RecordIs(w, r.seqNo, r);
    }
    MaxRecordBounds(w.st.wal, w.st.floor, w.lastSeq);
    forall n | n in w.tickets && Remembered(w.tickets[n], Crash) ensures n <= MaxRecord(w.st.wal, w.st.floor) {
      assert Tracked(w.st, w.tickets[n]);
      RecordIs(w, n, FromEntry(w.tickets[n].e));
    }
  }

  lemma NewTickets(w: Writers, op: BatchOp)
    requires Numbering(w)
    ensures var n, w' := w.lastSeq + 1, After(w, TakeNumber(op));
            && w' == Writers(w.st, n, w.tickets[n := Ticket(EntryFor(op, n), Numbered, false, false, {}, false)])
            && (forall x | Known(w, x) :: Known(w', x))
  {
    var tickets := map m | m in w.tickets && Remembered(w.tickets[m], TakeNumber(op)) ::
        TicketAfter(w, TakeNumber(op), m);
    assert tickets == w.tickets;
  }

  /** A new number is in no memtable, table or record. */
  lemma NewNumber(w: Writers, e: Entry)
    requires Good(w) && e.seqNo == w.lastSeq + 1
    ensures var t := Ticket(e, Numbered, false, false, {}, false); Placed(w.st, t) && Tracked(w.st, t)
  {
    hide Contents, WellFormed, Behind, AllTracked;
    assert !Known(w, e);
    forall i | 0 <= i < |w.st.tables| ensures e !in Contents(w.st.tables[i]) {
      assert AllKnown(w, Contents(w.st.tables[i]));
    }
  }

  lemma TakeNumberKeeps(w: Writers, op: BatchOp)
    requires Good(w)
    ensures Good(After(w, TakeNumber(op)))
  {
    hide Contents, WellFormed, Known, Placed, Tracked, After;
    NewTickets(w, op);
    NewNumber(w, EntryFor(op, w.lastSeq + 1));
  }

  lemma StepGood(w: Writers, step: Step)
    requires Good(w) && Allowed(w, step)
    ensures Good(After(w, step))
  {
    hide Good, After, SharedAfter, TicketAfter, Placed, Tracked, Numbering, Accounted, Staged;
    assert Numbering(w) by {
      GoodNumbering(w);
    }
    var w' := After(w, step);
    if step.TakeNumber? {
      TakeNumberKeeps(w, step.op);
    } else if step == Crash {
      CrashTickets(w);
      CrashNumbering(w);
      CrashAccounted(w);
      forall m | m in w'.tickets ensures Placed(w'.st, w'.tickets[m]) && Tracked(w'.st, w'.tickets[m]) {
        CrashPlaces(w, m);
        CrashState(w);
      }
      CrashState(w);
      AllGood(w');
    } else {
      SameTickets(w, step);
      StateAfter(w, step);
      NumberingAfter(w, step);
      AccountedAfter(w, step);
      forall m | m in w'.tickets ensures Placed(w'.st, w'.tickets[m]) && Tracked(w'.st, w'.tickets[m]) {
        PlacedAfter(w, step, m);
        TrackedAfter(w, step, m);
      }
      AllGood(w');
    }
  }

  lemma CrashState(w: Writers)
    ensures After(w, Crash).st == SharedAfter(w, Crash)
  {
  }

  lemma AllGood(w: Writers)
    requires Numbering(w) && Accounted(w) && Staged(w.st) && AllTracked(w)
    ensures Good(w)
  {
  }

  lemma {:induction false} RunGood(w: Writers, steps: seq<Step>)
    requires Good(w) && Run(w, steps).Some?
    ensures Good(Run(w, steps).value)
  {
    hide Good, After, Allowed;
    if steps != [] {
      RunGood(w, steps[..|steps| - 1]);
      StepGood(Run(w, steps[..|steps| - 1]).value, steps[|steps| - 1]);
    }
  }

  // ----- What a crash leaves -----

  /** An acknowledged write is found by recovery if and only if its entry is in a table, or none of three things has
      happened to it: the log was truncated with its record and the record not written back; a memtable that lacks it
      was flushed that holds a larger number; another write of its key is logged behind it, above every flushed number.
      */
  lemma AcknowledgedKeptIff(steps: seq<Step>, n: nat)
    requires Run(NoWriters, steps).Some? && n in Run(NoWriters, steps).value.tickets
    ensures var st, t := Run(NoWriters, steps).value.st, Run(NoWriters, steps).value.tickets[n];
            Acknowledged(t) ==>
              (t.e in Contents(ReplayWal(st.wal, st.floor)) || Stored(st.tables, t.e)
               <==> t.place == InTable || Safe(t, st.floor))
  {
    hide Contents, Run, Safe, ReplayWal, Stored;
    NoneGood();
    RunGood(NoWriters, steps);
    RecoveredIff(Run(NoWriters, steps).value, n);
    var w := Run(NoWriters, steps).value;
    assert Placed(w.st, w.tickets[n]);
    SafeUncut(w.tickets[n], w.st.floor);
  }

  lemma SafeUncut(t: Ticket, floor: nat)
    ensures Safe(t, floor) ==> !t.cut
  {
  }

  /** The newest table that has the key. */
  function TablesGet(tables: seq<Table>, k: Key): Option<Entry> {
    if tables == [] then None
    else if k in tables[|tables| - 1] then Some(tables[|tables| - 1][k])
    else TablesGet(tables[..|tables| - 1], k)
  }

  /** What a lookup finds now. */
  function FoundNow(st: Shared, k: Key): Option<Entry> {
    if k in st.active then Some(st.active[k])
    else if k in st.frozen then Some(st.frozen[k])
    else TablesGet(st.tables, k)
  }

  /** What it would find after a crash now. */
  function FoundAfterCrash(st: Shared, k: Key): Option<Entry> {
    var t := ReplayWal(st.wal, st.floor);
    if k in t then Some(t[k]) else TablesGet(st.tables, k)
  }

  /** In a memtable, and not in a table yet. */
  predicate Unflushed(t: Ticket) {
    t.place == InMemtable || t.place == InFrozen
  }

  /** Every write of the key that is safe in the log is the one found now. */
  ghost predicate SafeOnesAreFound(w: Writers, k: Key) {
    forall n | n in w.tickets && w.tickets[n].e.key == k && InLog(w.tickets[n]) && Safe(w.tickets[n], w.st.floor) ::
      FoundNow(w.st, k) == Some(w.tickets[n].e)
  }

  /** The write found now is safe, if it is in no table yet. */
  ghost predicate FoundOneIsSafe(w: Writers, k: Key) {
    forall n | n in w.tickets && Unflushed(w.tickets[n]) && FoundNow(w.st, k) == Some(w.tickets[n].e) ::
      Safe(w.tickets[n], w.st.floor)
  }

  lemma UnderKey(t: Table, k: Key)
    requires WellFormed(t) && k in t
    ensures t[k] in Contents(t) && t[k].key == k
  {
  }

  lemma {:induction false} TablesGetStored(tables: seq<Table>, k: Key)
    ensures TablesGet(tables, k).Some? ==> Stored(tables, TablesGet(tables, k).value)
  {
    if tables != [] {
      var init, last := tables[..|tables| - 1], tables[|tables| - 1];
      assert tables == init + [last];
      if k in last {
        assert last[k] in Contents(tables[|tables| - 1]);
      } else {
        TablesGetStored(init, k);
        if TablesGet(init, k).Some? {
          StoredAppended(init, last, TablesGet(init, k).value);
        }
      }
    }
  }

  lemma SafeIsFound(w: Writers, n: nat)
    requires Good(w) && n in w.tickets && InLog(w.tickets[n]) && Safe(w.tickets[n], w.st.floor)
    ensures FoundAfterCrash(w.st, w.tickets[n].e.key) == Some(w.tickets[n].e)
  {
    hide Safe, ReplayWal, Good, WellFormed;
    RecoveredIff(w, n);
    ContentsHold(ReplayWal(w.st.wal, w.st.floor));
  }

  lemma FoundInLog(w: Writers, k: Key) returns (n: nat)
    requires Good(w) && k in ReplayWal(w.st.wal, w.st.floor)
    ensures n in w.tickets && w.tickets[n].e == ReplayWal(w.st.wal, w.st.floor)[k] && w.tickets[n].e.key == k
    ensures InLog(w.tickets[n]) && Safe(w.tickets[n], w.st.floor)
  {
    hide Safe, ReplayWal, Good, WellFormed, Contents;
    var t := ReplayWal(w.st.wal, w.st.floor);
    ReplayedWellFormed(w.st.wal, w.st.floor);
    UnderKey(t, k);
    RecoveredKnown(w, t[k]);
    n := t[k].seqNo;
    RecoveredIff(w, n);
  }

  /** A version found in a memtable is that of a write whose place is there, or one already in the newest table. */
  lemma FoundInMemory(w: Writers, k: Key) returns (n: nat)
    requires Good(w) && (k in w.st.active || k in w.st.frozen)
    ensures n in w.tickets && FoundNow(w.st, k) == Some(w.tickets[n].e) && w.tickets[n].e.key == k
    ensures Unflushed(w.tickets[n]) || FoundNow(w.st, k) == TablesGet(w.st.tables, k)
  {
    hide Contents, WellFormed, Behind, Stored, Tracked;
    var t := if k in w.st.active then w.st.active else w.st.frozen;
    UnderKey(t, k);
    assert Known(w, t[k]);
    n := t[k].seqNo;
    assert Placed(w.st, w.tickets[n]);
  }

  lemma UnflushedFound(w: Writers, n: nat, k: Key)
    requires Good(w) && n in w.tickets && Unflushed(w.tickets[n])
    ensures TablesGet(w.st.tables, k) != Some(w.tickets[n].e)
  {
    hide Contents, WellFormed, Behind, Stored, Tracked;
    TablesGetStored(w.st.tables, k);
    assert Placed(w.st, w.tickets[n]);
  }

  lemma SafeIsLogged(t: Ticket, floor: nat)
    requires Unflushed(t) && Safe(t, floor)
    ensures InLog(t)
  {
  }

  lemma RecencyIff(w: Writers, k: Key)
    requires Good(w)
    ensures FoundAfterCrash(w.st, k) == FoundNow(w.st, k)
            <==> SafeOnesAreFound(w, k) && FoundOneIsSafe(w, k)
  {
    hide Good, Safe, InLog, Unflushed, ReplayWal, TablesGet, FoundNow;
    forall n | n in w.tickets && w.tickets[n].e.key == k && InLog(w.tickets[n]) && Safe(w.tickets[n], w.st.floor)
      ensures FoundAfterCrash(w.st, k) == Some(w.tickets[n].e)
    {
      SafeIsFound(w, n);
    }
    forall n | n in w.tickets && Unflushed(w.tickets[n]) ensures TablesGet(w.st.tables, k) != Some(w.tickets[n].e) {
      UnflushedFound(w, n, k);
    }
    assert forall n | n in w.tickets :: w.tickets[n].e.seqNo == n by {
      GoodNumbering(w);
    }
    if k in ReplayWal(w.st.wal, w.st.floor) {
      var u := FoundInLog(w, k);
    } else if k in w.st.active || k in w.st.frozen {
      var n := FoundInMemory(w, k);
      if Unflushed(w.tickets[n]) && Safe(w.tickets[n], w.st.floor) {
        SafeIsLogged(w.tickets[n], w.st.floor);
        InLogAfterAll(w, n);
      }
    } else {
      FoundBelow(w.st, k);
    }
  }

  lemma InLogAfterAll(w: Writers, n: nat)
    requires Good(w) && n in w.tickets && InLog(w.tickets[n]) && Safe(w.tickets[n], w.st.floor)
    ensures w.tickets[n].e.key in ReplayWal(w.st.wal, w.st.floor)
  {
    hide Safe, ReplayWal, Good, WellFormed;
    RecoveredIff(w, n);
    ContentsHold(ReplayWal(w.st.wal, w.st.floor));
  }

  lemma FoundBelow(st: Shared, k: Key)
    requires k !in st.active && k !in st.frozen
    ensures FoundNow(st, k) == TablesGet(st.tables, k)
  {
  }

  /** Per-key recency: a crash now keeps what is found under a key if and only if every write of the key that is safe in
      the log is the one found now, and the one found now is in a table or safe. */
  lemma CrashKeepsFoundIff(steps: seq<Step>, k: Key)
    requires Run(NoWriters, steps).Some?
    ensures var w := Run(NoWriters, steps).value;
            FoundAfterCrash(w.st, k) == FoundNow(w.st, k)
            <==> SafeOnesAreFound(w, k) && FoundOneIsSafe(w, k)
  {
    hide Run, Good;
    NoneGood();
    RunGood(NoWriters, steps);
    RecencyIff(Run(NoWriters, steps).value, k);
  }
}
