/** Replaying, extending and rewriting the write-ahead log. */
module WalLaws {
  import opened Keys
  import opened Entries
  import opened System

  lemma ReplayAppended(wal: seq<WalRecord>, r: WalRecord, floor: nat)
    ensures ReplayWal(wal + [r], floor)
            == if r.seqNo > floor then ReplayWal(wal, floor)[r.key := ToEntry(r)] else ReplayWal(wal, floor)
  {
    assert (wal + [r])[..|wal|] == wal;
  }

  /** What is replayed lies above the floor and within the log's bound. */
  lemma {:induction false} ReplayIn(wal: seq<WalRecord>, floor: nat, hi: nat)
    requires forall r | r in wal :: r.seqNo <= hi
    ensures TableIn(ReplayWal(wal, floor), floor, hi)
  {
    if wal != [] {
      var init, r := wal[..|wal| - 1], wal[|wal| - 1];
      assert forall x | x in init :: x in wal;
      assert r in wal;
      ReplayIn(init, floor, hi);
    }
  }

  lemma {:induction false} ReplayNone(wal: seq<WalRecord>, floor: nat)
    requires forall r | r in wal :: r.seqNo <= floor
    ensures ReplayWal(wal, floor) == map[]
  {
    if wal != [] {
      assert forall x | x in wal[..|wal| - 1] :: x in wal;
      ReplayNone(wal[..|wal| - 1], floor);
      assert wal[|wal| - 1] in wal;
    }
  }

  lemma {:induction false} MaxSeqFacts(es: seq<Entry>)
    ensures forall e | e in es :: e.seqNo <= MaxSeqOf(es)
    ensures es != [] ==> exists e :: e in es && e.seqNo == MaxSeqOf(es)
  {
    if es != [] {
      var init, last := es[..|es| - 1], es[|es| - 1];
      MaxSeqFacts(init);
      assert es == init + [last];
      if last.seqNo <= MaxSeqOf(init) && init != [] {
        var e :| e in init && e.seqNo == MaxSeqOf(init);
        assert e in es;
      } else {
        assert last in es && last.seqNo == MaxSeqOf(es);
      }
    }
  }

  /** The largest sequence number of a table is attained and bounds it. */
  lemma MaxSeqBounds(t: Table)
    requires WellFormed(t)
    ensures forall k | k in t :: t[k].seqNo <= MaxSeq(t)
    ensures t != map[] ==> exists k :: k in t && t[k].seqNo == MaxSeq(t)
  {
    AscendingFacts(t);
    MaxSeqFacts(Ascending(t));
    forall k | k in t ensures t[k].seqNo <= MaxSeq(t) {
      assert Holds(t, t[k]);
    }
    if t != map[] {
      var e :| e in Ascending(t) && e.seqNo == MaxSeq(t);
      assert Holds(t, e);
      assert e.key in t && t[e.key].seqNo == MaxSeq(t);
    }
  }

  /** Once a table replayed from the log is flushed, its largest number covers the whole log: recovery replays none of
      it again. */
  lemma ReplayCovered(wal: seq<WalRecord>, floor: nat, hi: nat)
    requires WalOK(wal, hi)
    ensures ReplayWal(wal, floor) != map[] ==> ReplayWal(wal, MaxSeq(ReplayWal(wal, floor))) == map[]
  {
    if wal != [] && ReplayWal(wal, floor) != map[] {
      var t, r := ReplayWal(wal, floor), wal[|wal| - 1];
      ReplayIn(wal, floor, hi);
      MaxSeqBounds(t);
      forall x | x in wal ensures x.seqNo <= r.seqNo {
        var i :| 0 <= i < |wal| && wal[i] == x;
        assert i == |wal| - 1 || wal[i].seqNo <= wal[|wal| - 1].seqNo;
      }
      if r.seqNo <= floor {
        ReplayNone(wal, floor);
      } else {
        assert t[r.key] == ToEntry(r);
        ReplayNone(wal, MaxSeq(t));
      }
    }
  }

  lemma {:induction false} MaxRecordBounds(wal: seq<WalRecord>, floor: nat, hi: nat)
    requires floor <= hi && forall r | r in wal :: r.seqNo <= hi
    ensures floor <= MaxRecord(wal, floor) <= hi
    ensures forall r | r in wal :: r.seqNo <= MaxRecord(wal, floor)
  {
    if wal != [] {
      var init, r := wal[..|wal| - 1], wal[|wal| - 1];
      assert wal == init + [r];
      MaxRecordBounds(init, floor, hi);
    }
  }

  // ----- Rewriting the log -----

  ghost predicate AscendingSeqs(rs: seq<WalRecord>) {
    forall i, j | 0 <= i < j < |rs| :: rs[i].seqNo <= rs[j].seqNo
  }

  lemma {:induction false} InsertRecordMembers(rs: seq<WalRecord>, r: WalRecord)
    ensures multiset(InsertRecord(rs, r)) == multiset(rs) + multiset{r}
    ensures forall x :: x in InsertRecord(rs, r) <==> x in rs || x == r
  {
    if rs != [] {
      var init, last := rs[..|rs| - 1], rs[|rs| - 1];
      assert rs == init + [last];
      InsertRecordMembers(init, r);
    }
  }

  lemma {:induction false} InsertRecordFacts(rs: seq<WalRecord>, r: WalRecord)
    requires AscendingSeqs(rs)
    ensures AscendingSeqs(InsertRecord(rs, r))
  {
    if rs != [] {
      var init, last := rs[..|rs| - 1], rs[|rs| - 1];
      assert rs == init + [last];
      InsertRecordFacts(init, r);
      InsertRecordMembers(init, r);
      if last.seqNo > r.seqNo {
        var out := InsertRecord(init, r);
        forall i | 0 <= i < |out| ensures out[i].seqNo <= last.seqNo {
          assert out[i] == r || out[i] in init;
        }
      }
    }
  }

  lemma {:induction false} SortRecordsFacts(rs: seq<WalRecord>)
    ensures AscendingSeqs(SortRecords(rs))
    ensures multiset(SortRecords(rs)) == multiset(rs)
  {
    if rs != [] {
      var init, last := rs[..|rs| - 1], rs[|rs| - 1];
      assert rs == init + [last];
      SortRecordsFacts(init);
      InsertRecordFacts(SortRecords(init), last);
      InsertRecordMembers(SortRecords(init), last);
    }
  }

  ghost predicate OncePerKey(rs: seq<WalRecord>) {
    forall i, j | 0 <= i < j < |rs| :: rs[i].key != rs[j].key
  }

  lemma SortedMembers(rs: seq<WalRecord>)
    ensures forall r :: r in SortRecords(rs) <==> r in rs
    ensures |SortRecords(rs)| == |rs|
  {
    SortRecordsFacts(rs);
    forall r ensures r in SortRecords(rs) <==> r in rs {
      assert r in multiset(SortRecords(rs)) <==> r in multiset(rs);
    }
    assert |multiset(SortRecords(rs))| == |multiset(rs)|;
  }

  lemma {:induction false} InsertOnce(rs: seq<WalRecord>, r: WalRecord)
    requires OncePerKey(rs) && forall q | q in rs :: q.key != r.key
    ensures OncePerKey(InsertRecord(rs, r))
    ensures forall q :: q in InsertRecord(rs, r) <==> q in rs || q == r
  {
    if rs != [] {
      var init, last := rs[..|rs| - 1], rs[|rs| - 1];
      assert rs == init + [last];
      InsertOnce(init, r);
      forall q | q in init ensures q.key != last.key {
        var i :| 0 <= i < |init| && init[i] == q;
        assert rs[i].key != rs[|rs| - 1].key;
      }
    }
  }

  lemma {:induction false} SortOnce(rs: seq<WalRecord>)
    requires OncePerKey(rs)
    ensures OncePerKey(SortRecords(rs))
  {
    if rs != [] {
      var init, last := rs[..|rs| - 1], rs[|rs| - 1];
      SortOnce(init);
      SortedMembers(init);
      forall q | q in init ensures q.key != last.key {
        var i :| 0 <= i < |init| && init[i] == q;
        assert rs[i].key != rs[|rs| - 1].key;
      }
      InsertOnce(SortRecords(init), last);
    }
  }

  /** The table holds exactly the entries of the records. */
  ghost predicate HoldsRecords(t: Table, rs: seq<WalRecord>) {
    && WellFormed(t)
    && (forall r | r in rs :: Holds(t, ToEntry(r)))
    && (forall k | k in t :: exists r :: r in rs && ToEntry(r) == t[k])
  }

  lemma HoldsOneMore(t: Table, rs: seq<WalRecord>, last: WalRecord)
    requires HoldsRecords(t, rs) && forall r | r in rs :: r.key != last.key
    ensures HoldsRecords(t[last.key := ToEntry(last)], rs + [last])
  {
    var after, all := t[last.key := ToEntry(last)], rs + [last];
    assert all[|rs|] == last;
    forall k | k in after ensures exists r :: r in all && ToEntry(r) == after[k] {
      if k != last.key {
        var r :| r in rs && ToEntry(r) == t[k];
        assert r in all;
      }
    }
  }

  /** When no key repeats, the order of the records does not matter. */
  lemma {:induction false} ReplayOnce(rs: seq<WalRecord>, floor: nat)
    requires OncePerKey(rs) && forall r | r in rs :: r.seqNo > floor
    ensures HoldsRecords(ReplayWal(rs, floor), rs)
  {
    hide HoldsRecords;
    if rs == [] {
      NoRecords();
    } else {
      var init, last := rs[..|rs| - 1], rs[|rs| - 1];
      assert rs == init + [last];
      ReplayOnce(init, floor);
      forall r | r in init ensures r.key != last.key {
        var i :| 0 <= i < |init| && init[i] == r;
        assert rs[i].key != rs[|rs| - 1].key;
      }
      HoldsOneMore(ReplayWal(init, floor), init, last);
    }
  }

  lemma NoRecords()
    ensures HoldsRecords(map[], [])
  {
  }

  lemma RecordsOfFacts(t: Table, floor: nat, hi: nat)
    requires TableIn(t, floor, hi)
    ensures var raw := RecordsOf(Ascending(t));
            && OncePerKey(raw)
            && (forall r | r in raw :: Holds(t, ToEntry(r)) && floor < r.seqNo <= hi)
            && (forall k | k in t :: FromEntry(t[k]) in raw)
  {
    var es := Ascending(t);
    var raw := RecordsOf(es);
    AscendingFacts(t);
    forall i, j | 0 <= i < j < |raw| ensures raw[i].key != raw[j].key {
      assert Lt(es[i].key, es[j].key);
      LtIrreflexive(es[i].key);
    }
    forall r | r in raw ensures Holds(t, ToEntry(r)) && floor < r.seqNo <= hi {
      var i :| 0 <= i < |raw| && raw[i] == r;
      assert es[i] in es;
      assert Holds(t, es[i]);
    }
    forall k | k in t ensures FromEntry(t[k]) in raw {
      assert Holds(t, t[k]);
      var i :| 0 <= i < |es| && es[i] == t[k];
      assert raw[i] == FromEntry(t[k]);
    }
  }

  lemma RewriteOrder(t: Table, floor: nat, hi: nat)
    requires TableIn(t, floor, hi)
    ensures var rs := SortRecords(RecordsOf(Ascending(t)));
            WalOK(rs, hi) && (rs == [] <==> t == map[])
  {
    var raw := RecordsOf(Ascending(t));
    RecordsOfFacts(t, floor, hi);
    SortRecordsFacts(raw);
    SortedMembers(raw);
    assert |SortRecords(raw)| == |t|;
  }

  lemma ReplayHasAll(t: Table, rs: seq<WalRecord>, u: Table)
    requires forall r | r in rs :: Holds(u, ToEntry(r))
    requires forall k | k in t :: Canonical(t[k]) && FromEntry(t[k]) in rs
    ensures forall k | k in t :: Holds(u, t[k])
  {
    forall k | k in t ensures Holds(u, t[k]) {
      assert Holds(u, ToEntry(FromEntry(t[k])));
    }
  }

  lemma SameTable(t: Table, u: Table)
    requires WellFormed(t) && WellFormed(u)
    requires forall k | k in t :: Holds(u, t[k])
    requires forall k | k in u :: Holds(t, u[k])
    ensures t == u
  {
  }

  /** Rewriting the log from a memtable, sorted by sequence number, recovers exactly that memtable. */
  lemma RewriteRecovers(t: Table, floor: nat, hi: nat)
    requires TableIn(t, floor, hi)
    ensures ReplayWal(SortRecords(RecordsOf(Ascending(t))), floor) == t
  {
    var raw := RecordsOf(Ascending(t));
    RecordsOfFacts(t, floor, hi);
    SortedMembers(raw);
    SortOnce(raw);
    var rs := SortRecords(raw);
    var u := ReplayWal(rs, floor);
    ReplayOnce(rs, floor);
    ReplayHasAll(t, rs, u);
    forall k | k in u ensures Holds(t, u[k]) {
      var r :| r in rs && ToEntry(r) == u[k];
    }
    SameTable(t, u);
  }
}
