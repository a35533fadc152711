/** Acknowledged writes that the next crash loses (src/engine.rs:92-149, 337-372). */
module WriterRaces {
  import opened Keys
  import opened Entries
  import opened System
  import opened WalLaws
  import opened Writers
  import opened WriterLaws

  // ----- Four acknowledged writes that the next crash loses -----

  lemma RunStep(w: Writers, steps: seq<Step>, step: Step)
    requires Run(w, steps).Some? && Allowed(Run(w, steps).value, step)
    ensures Run(w, steps + [step]) == Some(After(Run(w, steps).value, step))
  {
    hide Allowed, After;
    assert (steps + [step])[..|steps|] == steps;
  }

  /** Two writes have their numbers, 1 and 2. */
  function TwoNumbers(op1: BatchOp, op2: BatchOp): seq<Step> {
    [TakeNumber(op1)] + [TakeNumber(op2)]
  }

  function NewTicket(op: BatchOp, n: nat): Ticket {
    Ticket(EntryFor(op, n), Numbered, false, false, {}, false)
  }

  lemma TwoNumbersRun(op1: BatchOp, op2: BatchOp)
    ensures Run(NoWriters, TwoNumbers(op1, op2))
         == Some(Writers(EmptyStore, 2, map[1 := NewTicket(op1, 1), 2 := NewTicket(op2, 2)]))
  {
    hide Run, After;
    assert Run(NoWriters, []) == Some(NoWriters) by {
      NothingRun(NoWriters);
    }
    var step1, step2 := TakeNumber(op1), TakeNumber(op2);
    RunStep(NoWriters, [], step1);
    assert [] + [step1] == [step1];
    NewTickets(NoWriters, op1);
    var w1 := After(NoWriters, step1);
    RunStep(NoWriters, [step1], step2);
    NewTickets(w1, op2);
  }

  lemma NothingRun(w: Writers)
    ensures Run(w, []) == Some(w)
  {
  }

  /** Two writes that are the only ones, after one more step that neither adds nor forgets any. */
  lemma TwoAfter(w: Writers, step: Step)
    requires w.tickets.Keys == {1, 2} && Numbering(w) && Allowed(w, step) && !step.TakeNumber? && step != Crash
    ensures After(w, step)
         == Writers(SharedAfter(w, step), w.lastSeq, map[1 := TicketAfter(w, step, 1), 2 := TicketAfter(w, step, 2)])
  {
    hide SharedAfter, TicketAfter, Safe;
    SameTickets(w, step);
    StateAfter(w, step);
    assert After(w, step).tickets == map[1 := TicketAfter(w, step, 1), 2 := TicketAfter(w, step, 2)];
  }

  /** A state of two writes reached by a run, extended by a step. */
  lemma TwoRun(steps: seq<Step>, w: Writers, step: Step)
    requires Run(NoWriters, steps) == Some(w) && w.tickets.Keys == {1, 2}
    requires Allowed(w, step) && !step.TakeNumber? && step != Crash
    ensures Run(NoWriters, steps + [step])
         == Some(Writers(SharedAfter(w, step), w.lastSeq,
                         map[1 := TicketAfter(w, step, 1), 2 := TicketAfter(w, step, 2)]))
  {
    hide Run, After, SharedAfter, TicketAfter;
    NoneGood();
    RunGood(NoWriters, steps);
    GoodNumbering(w);
    RunStep(NoWriters, steps, step);
    TwoAfter(w, step);
  }

  /** Both logged, in the order of their numbers. */
  function BothLogged(op1: BatchOp, op2: BatchOp): Writers {
    var e1, e2 := EntryFor(op1, 1), EntryFor(op2, 2);
    Writers(EmptyStore.(wal := [FromEntry(e1), FromEntry(e2)]), 2,
            map[1 := Ticket(e1, Appended, false, false, {2}, false),
                2 := Ticket(e2, Appended, false, false, {}, false)])
  }

  lemma EntryNumbers(op: BatchOp, n: nat)
    ensures EntryFor(op, n).key == op.key && EntryFor(op, n).seqNo == n
  {
  }

  lemma BothLoggedRun(op1: BatchOp, op2: BatchOp)
    requires op1.key == op2.key
    ensures Run(NoWriters, TwoNumbers(op1, op2) + [Append(1)] + [Append(2)]) == Some(BothLogged(op1, op2))
  {
    hide Run, After, FromEntry, EntryFor;
    EntryNumbers(op1, 1);
    EntryNumbers(op2, 2);
    TwoNumbersRun(op1, op2);
    var s0 := TwoNumbers(op1, op2);
    var w0 := Run(NoWriters, s0).value;
    TwoRun(s0, w0, Append(1));
    var w1 := Run(NoWriters, s0 + [Append(1)]).value;
    assert w1.tickets == map[1 := NewTicket(op1, 1).(place := Appended), 2 := NewTicket(op2, 2)];
    assert w1.st.wal == [FromEntry(EntryFor(op1, 1))];
    TwoRun(s0 + [Append(1)], w1, Append(2));
    var w2 := Run(NoWriters, s0 + [Append(1)] + [Append(2)]).value;
    assert w2.st.wal == [FromEntry(EntryFor(op1, 1)), FromEntry(EntryFor(op2, 2))];
    assert {} + {2} == {2};
    assert w2.tickets == BothLogged(op1, op2).tickets;
  }

  /** Two writers of one key reach the log in one order and the memtable in the other; nothing is flushed. What is found
      now is the write with the lower number, and after a crash the other. */
  lemma ReorderedWriteIsLost(k: Key, op1: BatchOp, op2: BatchOp)
    requires op1.key == op2.key == k
    ensures var run := Run(NoWriters, TwoNumbers(op1, op2) + [Append(1)] + [Append(2)] + [Insert(2)] + [Insert(1)]);
            && run.Some? && run.value.tickets.Keys == {1, 2} && run.value.st.tables == []
            && Acknowledged(run.value.tickets[1]) && Acknowledged(run.value.tickets[2])
            && FoundNow(run.value.st, k) == Some(EntryFor(op1, 1))
            && FoundAfterCrash(run.value.st, k) == Some(EntryFor(op2, 2))
  {
    hide Run, After, FromEntry, FoundAfterCrash, EntryFor, Good;
    EntryNumbers(op1, 1);
    EntryNumbers(op2, 2);
    BothLoggedRun(op1, op2);
    var s0, w0 := TwoNumbers(op1, op2) + [Append(1)] + [Append(2)], BothLogged(op1, op2);
    TwoRun(s0, w0, Insert(2));
    var w1 := Run(NoWriters, s0 + [Insert(2)]).value;
    TwoRun(s0 + [Insert(2)], w1, Insert(1));
    var w2 := Run(NoWriters, s0 + [Insert(2)] + [Insert(1)]).value;
    NoneGood();
    RunGood(NoWriters, s0 + [Insert(2)] + [Insert(1)]);
    SafeIsFound(w2, 2);
  }

  /** The write found now, and the only one acknowledged, has an earlier one logged behind it, which a crash brings
      up. */
  lemma OlderRecordIsFound(k: Key, op1: BatchOp, op2: BatchOp)
    requires op1.key == op2.key == k
    ensures var run := Run(NoWriters, TwoNumbers(op1, op2) + [Append(2)] + [Insert(2)] + [Append(1)]);
            && run.Some? && run.value.tickets.Keys == {1, 2} && run.value.st.tables == []
            && Acknowledged(run.value.tickets[2]) && !Acknowledged(run.value.tickets[1])
            && FoundNow(run.value.st, k) == Some(EntryFor(op2, 2))
            && FoundAfterCrash(run.value.st, k) == Some(EntryFor(op1, 1))
  {
    hide Run, After, FromEntry, FoundAfterCrash, EntryFor, Good;
    EntryNumbers(op1, 1);
    EntryNumbers(op2, 2);
    TwoNumbersRun(op1, op2);
    var s0 := TwoNumbers(op1, op2);
    var w0 := Run(NoWriters, s0).value;
    TwoRun(s0, w0, Append(2));
    var w1 := Run(NoWriters, s0 + [Append(2)]).value;
    TwoRun(s0 + [Append(2)], w1, Insert(2));
    var w2 := Run(NoWriters, s0 + [Append(2)] + [Insert(2)]).value;
    TwoRun(s0 + [Append(2)] + [Insert(2)], w2, Append(1));
    var w3 := Run(NoWriters, s0 + [Append(2)] + [Insert(2)] + [Append(1)]).value;
    NoneGood();
    RunGood(NoWriters, s0 + [Append(2)] + [Insert(2)] + [Append(1)]);
    SafeIsFound(w3, 1);
  }

  // ----- Lost beside a flush -----

  /** The largest number of a memtable with one entry is that of the entry. */
  lemma OneEntry(x: Entry)
    ensures MaxSeq(map[x.key := x]) == x.seqNo
  {
    var t: Table := map[x.key := x];
    MaxSeqBounds(t);
    assert t[x.key] == x;
  }

  /** Write `n` of two is logged, inserted and flushed, up to the flush edit, while the other has only its number. */
  function FlushedAlone(op1: BatchOp, op2: BatchOp, n: nat): seq<Step> {
    TwoNumbers(op1, op2) + [Append(n)] + [Insert(n)] + [RotateMemtable] + [LogEdit]
  }

  /** Where write `n` alone has come, with its entry at `place`. */
  function AloneTickets(op1: BatchOp, op2: BatchOp, n: nat, place: Place): map<nat, Ticket> {
    map[1 := Ticket(EntryFor(op1, 1), if n == 1 then place else Numbered, false, place == InTable && n == 2, {}, false),
        2 := Ticket(EntryFor(op2, 2), if n == 2 then place else Numbered, false, false, {}, false)]
  }

  function AloneEntry(op1: BatchOp, op2: BatchOp, n: nat): Entry {
    if n == 1 then EntryFor(op1, 1) else EntryFor(op2, 2)
  }

  lemma InsertedAloneRun(op1: BatchOp, op2: BatchOp, n: nat)
    requires n == 1 || n == 2
    ensures var e := AloneEntry(op1, op2, n);
            Run(NoWriters, TwoNumbers(op1, op2) + [Append(n)] + [Insert(n)])
            == Some(Writers(EmptyStore.(wal := [FromEntry(e)], active := map[e.key := e]), 2,
                            AloneTickets(op1, op2, n, InMemtable)))
  {
    hide Run, After, FromEntry, MaxSeq, EntryFor;
    EntryNumbers(op1, 1);
    EntryNumbers(op2, 2);
    TwoNumbersRun(op1, op2);
    var s0 := TwoNumbers(op1, op2);
    var w0 := Run(NoWriters, s0).value;
    var e := w0.tickets[n].e;
    TwoRun(s0, w0, Append(n));
    var w1 := Run(NoWriters, s0 + [Append(n)]).value;
    assert w1.st.wal == [FromEntry(e)];
    TwoRun(s0 + [Append(n)], w1, Insert(n));
    var w2 := Run(NoWriters, s0 + [Append(n)] + [Insert(n)]).value;
    assert w2.st.active == map[e.key := e];
    assert w2.tickets == AloneTickets(op1, op2, n, InMemtable);
  }

  function AloneInTable(op1: BatchOp, op2: BatchOp, n: nat): Writers {
    var e := AloneEntry(op1, op2, n);
    var t := map[e.key := e];
    Writers(Shared(map[], t, EditLogged, [FromEntry(e)], n, [t]), 2, AloneTickets(op1, op2, n, InTable))
  }

  lemma FlushedAloneRun(op1: BatchOp, op2: BatchOp, n: nat)
    requires n == 1 || n == 2
    ensures Run(NoWriters, FlushedAlone(op1, op2, n)) == Some(AloneInTable(op1, op2, n))
  {
    hide Run, After, FromEntry, MaxSeq, EntryFor;
    EntryNumbers(op1, 1);
    EntryNumbers(op2, 2);
    InsertedAloneRun(op1, op2, n);
    var s2 := TwoNumbers(op1, op2) + [Append(n)] + [Insert(n)];
    var w2 := Run(NoWriters, s2).value;
    var e := AloneEntry(op1, op2, n);
    OneEntry(e);
    assert e.key in w2.st.active;
    TwoRun(s2, w2, RotateMemtable);
    var w3 := Run(NoWriters, s2 + [RotateMemtable]).value;
    assert w3.tickets == AloneTickets(op1, op2, n, InFrozen);
    TwoRun(s2 + [RotateMemtable], w3, LogEdit);
    var w4 := Run(NoWriters, FlushedAlone(op1, op2, n)).value;
    assert [] + [w3.st.frozen] == [w3.st.frozen];
    assert w4.tickets == AloneTickets(op1, op2, n, InTable);
  }

  /** A write that is not safe, with no other of its key and none in a table, is gone after a crash. */
  lemma GoneAfterCrash(w: Writers, n: nat)
    requires Good(w) && n in w.tickets && !Safe(w.tickets[n], w.st.floor)
    requires forall m | m in w.tickets && m != n :: w.tickets[m].e.key != w.tickets[n].e.key
    requires forall i | 0 <= i < |w.st.tables| :: w.tickets[n].e.key !in w.st.tables[i]
    ensures FoundAfterCrash(w.st, w.tickets[n].e.key) == None
  {
    hide Good, Safe, ReplayWal;
    var k := w.tickets[n].e.key;
    NotInTables(w.st.tables, k);
    if k in ReplayWal(w.st.wal, w.st.floor) {
      var m := FoundInLog(w, k);
    }
  }

  lemma {:induction false} NotInTables(tables: seq<Table>, k: Key)
    requires forall i | 0 <= i < |tables| :: k !in tables[i]
    ensures TablesGet(tables, k) == None
  {
    if tables != [] {
      NotInTables(tables[..|tables| - 1], k);
    }
  }

  /** The first write in a table, the second logged, the log as given. */
  function Flushing(op1: BatchOp, op2: BatchOp, flush: FlushStage, wal: seq<WalRecord>, cut: bool): Writers {
    var e1, e2 := EntryFor(op1, 1), EntryFor(op2, 2);
    var t := map[e1.key := e1];
    Writers(Shared(map[], if flush == EditLogged then t else map[], flush, wal, 1, [t]), 2,
            map[1 := Ticket(e1, InTable, false, false, {}, false), 2 := Ticket(e2, Appended, cut, false, {}, false)])
  }

  lemma AppendedBeside(op1: BatchOp, op2: BatchOp)
    requires op1.key != op2.key
    ensures var wal := [FromEntry(EntryFor(op1, 1)), FromEntry(EntryFor(op2, 2))];
            Run(NoWriters, FlushedAlone(op1, op2, 1) + [Append(2)]) == Some(Flushing(op1, op2, EditLogged, wal, false))
  {
    hide Run, After, FromEntry, EntryFor;
    EntryNumbers(op1, 1);
    EntryNumbers(op2, 2);
    FlushedAloneRun(op1, op2, 1);
    var s0, w0 := FlushedAlone(op1, op2, 1), AloneInTable(op1, op2, 1);
    TwoRun(s0, w0, Append(2));
    var w1 := Run(NoWriters, s0 + [Append(2)]).value;
    assert w1.st.wal == [FromEntry(EntryFor(op1, 1)), FromEntry(EntryFor(op2, 2))];
  }

  lemma TruncatedRun(op1: BatchOp, op2: BatchOp)
    requires op1.key != op2.key
    ensures Run(NoWriters, FlushedAlone(op1, op2, 1) + [Append(2)] + [TruncateLog])
         == Some(Flushing(op1, op2, Truncated([]), [], true))
  {
    hide Run, After, FromEntry, EntryFor;
    AppendedBeside(op1, op2);
    var s1 := FlushedAlone(op1, op2, 1) + [Append(2)];
    var w1 := Run(NoWriters, s1).value;
    assert SortRecords(RecordsOf(Ascending(map[]))) == [];
    TwoRun(s1, w1, TruncateLog);
  }

  lemma CutRun(op1: BatchOp, op2: BatchOp)
    requires op1.key != op2.key
    ensures Run(NoWriters, FlushedAlone(op1, op2, 1) + [Append(2)] + [TruncateLog] + [WriteBack])
         == Some(Flushing(op1, op2, NoFlush, [], true))
  {
    hide Run, After, FromEntry, EntryFor;
    TruncatedRun(op1, op2);
    var none: seq<WalRecord> := [];
    assert none + none == none;
    TwoRun(FlushedAlone(op1, op2, 1) + [Append(2)] + [TruncateLog], Flushing(op1, op2, Truncated([]), [], true),
           WriteBack);
  }

  /** The flush of another key rewrites the log between the append of a write and its insertion: the write is
      acknowledged and found now, and gone after a crash. */
  lemma CutWriteIsLost(op1: BatchOp, op2: BatchOp)
    requires op1.key != op2.key
    ensures var run := Run(NoWriters, FlushedAlone(op1, op2, 1) + [Append(2)] + [TruncateLog] + [WriteBack]
                                      + [Insert(2)]);
            && run.Some? && 2 in run.value.tickets && Acknowledged(run.value.tickets[2])
            && !run.value.tickets[2].overtaken && run.value.tickets[2].behind == {}
            && FoundNow(run.value.st, op2.key) == Some(EntryFor(op2, 2))
            && FoundAfterCrash(run.value.st, op2.key) == None
  {
    hide Run, After, FromEntry, FoundAfterCrash, SortRecords, RecordsOf, Ascending, EntryFor, Good;
    EntryNumbers(op1, 1);
    EntryNumbers(op2, 2);
    CutRun(op1, op2);
    var s0 := FlushedAlone(op1, op2, 1);
    var w2 := Run(NoWriters, s0 + [Append(2)] + [TruncateLog] + [WriteBack]).value;
    TwoRun(s0 + [Append(2)] + [TruncateLog] + [WriteBack], w2, Insert(2));
    var w3 := Run(NoWriters, s0 + [Append(2)] + [TruncateLog] + [WriteBack] + [Insert(2)]).value;
    NoneGood();
    RunGood(NoWriters, s0 + [Append(2)] + [TruncateLog] + [WriteBack] + [Insert(2)]);
    GoneAfterCrash(w3, 2);
  }

  /** A later write is flushed while an earlier one still has only its number: the earlier one is then logged and
      acknowledged under the flushed maximum, where recovery does not replay it. */
  lemma OvertakenWriteIsLost(op1: BatchOp, op2: BatchOp)
    requires op1.key != op2.key
    ensures var run := Run(NoWriters, FlushedAlone(op1, op2, 2) + [Append(1)] + [Insert(1)]);
            && run.Some? && 1 in run.value.tickets && Acknowledged(run.value.tickets[1])
            && !run.value.tickets[1].cut && run.value.tickets[1].behind == {}
            && FoundNow(run.value.st, op1.key) == Some(EntryFor(op1, 1))
            && FoundAfterCrash(run.value.st, op1.key) == None
  {
    hide Run, After, FromEntry, FoundAfterCrash, EntryFor, Good;
    EntryNumbers(op1, 1);
    EntryNumbers(op2, 2);
    FlushedAloneRun(op1, op2, 2);
    var s0, w0 := FlushedAlone(op1, op2, 2), AloneInTable(op1, op2, 2);
    TwoRun(s0, w0, Append(1));
    var w1 := Run(NoWriters, s0 + [Append(1)]).value;
    TwoRun(s0 + [Append(1)], w1, Insert(1));
    var w2 := Run(NoWriters, s0 + [Append(1)] + [Insert(1)]).value;
    NoneGood();
    RunGood(NoWriters, s0 + [Append(1)] + [Insert(1)]);
    GoneAfterCrash(w2, 1);
  }
}
