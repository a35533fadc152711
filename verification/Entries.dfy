/** Entries, the ordered map a memtable keeps them in, and the sorted runs a table file stores. */
module Entries {
  import opened Keys
  import opened Lists

  datatype ValueType = Value | Tombstone

  datatype Entry = Entry(key: Key, value: Bytes, valueType: ValueType, seqNo: nat) {
    /** Key and value bytes, eight bytes of sequence number and one type byte. */
    function EstimatedSize(): nat {
      |key| + |value| + 8 + 1
    }

    /** What a lookup that stops at this entry answers. */
    function Answer(): Option<Bytes> {
      if valueType == Tombstone then None else Some(value)
    }
  }

  function NewValue(key: Key, value: Bytes, seqNo: nat): Entry {
    Entry(key, value, Value, seqNo)
  }

  function NewTombstone(key: Key, seqNo: nat): Entry {
    Entry(key, [], Tombstone, seqNo)
  }

  // ----- The ordered map behind a memtable -----

  type Table = map<Key, Entry>

  ghost predicate WellFormed(t: Table) {
    forall k | k in t :: t[k].key == k
  }

  predicate Holds(t: Table, e: Entry) {
    e.key in t && t[e.key] == e
  }

  ghost function Contents(t: Table): set<Entry> {
    set k | k in t :: t[k]
  }

  lemma ContentsHold(t: Table)
    requires WellFormed(t)
    ensures forall e :: e in Contents(t) <==> Holds(t, e)
  {
    forall e | Holds(t, e) ensures e in Contents(t) {
      assert t[e.key] == e;
    }
  }

  // ----- Sorted runs -----

  ghost predicate Strict(es: seq<Entry>) {
    forall i, j | 0 <= i < j < |es| :: Lt(es[i].key, es[j].key)
  }

  lemma StrictKeys(es: seq<Entry>, e: Entry, f: Entry)
    requires Strict(es) && e in es && f in es && e.key == f.key
    ensures e == f
  {
    var i :| 0 <= i < |es| && es[i] == e;
    var j :| 0 <= j < |es| && es[j] == f;
    LtIrreflexive(e.key);
  }

  lemma StrictBounds(es: seq<Entry>, e: Entry)
    requires Strict(es) && e in es
    ensures Le(es[0].key, e.key) && Le(e.key, es[|es| - 1].key)
  {
    LinearOrder();
    var i :| 0 <= i < |es| && es[i] == e;
    assert i == 0 || Lt(es[0].key, es[i].key);
    assert i == |es| - 1 || Lt(es[i].key, es[|es| - 1].key);
  }

  /** A table lookup: the entry stored under `k`, if any. */
  function Find(es: seq<Entry>, k: Key): (r: Option<Entry>)
    ensures r.Some? ==> r.value in es && r.value.key == k
    ensures r.None? ==> forall e | e in es :: e.key != k
  {
    if es == [] then None
    else if es[0].key == k then Some(es[0])
    else
      assert forall e | e in es :: e == es[0] || e in es[1..];
      Find(es[1..], k)
  }

  ghost predicate LeastKey(t: Table, k: Key) {
    k in t && forall x | x in t :: Le(k, x)
  }

  ghost function Least(t: Table): (k: Key)
    requires t != map[]
    ensures LeastKey(t, k)
  {
    assert exists k :: LeastKey(t, k) by {
      var k := LeastKeyExists(t.Keys);
      assert LeastKey(t, k);
    }
    var k :| LeastKey(t, k);
    k
  }

  /** The entries of an ordered map in key order: what iterating a `BTreeMap` yields. */
  ghost function Ascending(t: Table): (es: seq<Entry>)
    ensures |es| == |t|
    decreases |t|
  {
    if t == map[] then []
    else
      var k := Least(t);
      assert (t - {k}).Keys == t.Keys - {k};
      [t[k]] + Ascending(t - {k})
  }

  lemma {:induction false} AscendingFacts(t: Table)
    requires WellFormed(t)
    ensures Strict(Ascending(t))
    ensures forall e :: e in Ascending(t) <==> Holds(t, e)
    decreases |t|
  {
    if t != map[] {
      var k := Least(t);
      assert (t - {k}).Keys == t.Keys - {k};
      AscendingFacts(t - {k});
      var rest := Ascending(t - {k});
      forall j | 0 <= j < |rest| ensures Lt(k, rest[j].key) {
        assert Holds(t - {k}, rest[j]);
        LtTotal(k, rest[j].key);
      }
      forall e ensures e in Ascending(t) <==> Holds(t, e) {
        assert Holds(t, e) <==> e == t[k] || Holds(t - {k}, e);
      }
    }
  }

  /** A strictly ascending list with exactly the entries of `t` is `Ascending(t)`: key order fixes the iteration. */
  lemma AscendingUnique(t: Table, es: seq<Entry>)
    requires WellFormed(t) && Strict(es)
    requires forall e :: e in es <==> Holds(t, e)
    ensures es == Ascending(t)
  {
    AscendingFacts(t);
    LinearOrder();
    MembersDetermine(KeyBefore, es, Ascending(t));
  }

  predicate KeyBefore(e: Entry, f: Entry) {
    Lt(e.key, f.key)
  }

  predicate LeastOf(keys: set<Key>, k: Key) {
    k in keys && forall x | x in keys :: Le(k, x)
  }

  /** The entries outside `rest`, in order, all before the keys of `rest`. */
  ghost predicate Iterated(t: Table, es: seq<Entry>, rest: set<Key>) {
    && rest <= t.Keys && Strict(es)
    && (forall e :: e in es <==> Holds(t, e) && e.key !in rest)
    && (forall e, k | e in es && k in rest :: Lt(e.key, k))
  }

  lemma IterateStep(t: Table, es: seq<Entry>, rest: set<Key>, k: Key)
    requires WellFormed(t) && Iterated(t, es, rest) && LeastOf(rest, k)
    ensures k in t && Iterated(t, es + [t[k]], rest - {k})
  {
    hide Lt;
    forall x | x in rest && x != k ensures Lt(k, x) {
      LtTotal(k, x);
    }
    var after := es + [t[k]];
    forall e ensures e in after <==> Holds(t, e) && e.key !in rest - {k} {
      assert e in after <==> e in es || e == t[k];
    }
    forall i, j | 0 <= i < j < |after| ensures Lt(after[i].key, after[j].key) {
      assert after[i] in es;
    }
  }

  /** Runs the iterator of an ordered map: repeatedly takes the entry under the least remaining key. */
  method IterateAscending(t: Table) returns (es: seq<Entry>)
    requires WellFormed(t)
    ensures es == Ascending(t)
    ensures forall i, j | 0 <= i < j < |es| :: Lt(es[i].key, es[j].key)
  {
    hide Lt, Ascending;
    es := [];
    var rest := t.Keys;
    while rest != {}
      invariant Iterated(t, es, rest)
      decreases |rest|
    {
      ghost var least := LeastKeyExists(rest);
      assert LeastOf(rest, least);
      var k :| LeastOf(rest, k);
      IterateStep(t, es, rest, k);
      es, rest := es + [t[k]], rest - {k};
    }
    AscendingUnique(t, es);
    AscendingFacts(t);
  }
}
