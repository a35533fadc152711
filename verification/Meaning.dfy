/** What a set of stored versions means: the map from keys to their newest non-deleted values. */
module Meaning {
  import opened Keys
  import opened Entries

  type KeyValues = map<Key, Bytes>

  /** `e` is the newest version of its key in `es`. */
  ghost predicate Top(es: set<Entry>, e: Entry) {
    e in es && forall x | x in es && x.key == e.key :: x.seqNo <= e.seqNo
  }

  /** The answer recorded in `e` is the map's answer for its key. */
  ghost predicate Agrees(m: KeyValues, e: Entry) {
    if e.valueType == Tombstone then e.key !in m else e.key in m && m[e.key] == e.value
  }

  ghost predicate Means(es: set<Entry>, m: KeyValues) {
    && (forall e | Top(es, e) :: Agrees(m, e))
    && (forall k | k in m :: exists e :: e in es && e.key == k)
  }

  function Lookup(m: KeyValues, k: Key): Option<Bytes> {
    if k in m then Some(m[k]) else None
  }

  /** Every key that occurs has a newest version. */
  lemma {:induction false} TopExists(es: set<Entry>, e: Entry) returns (t: Entry)
    requires e in es
    ensures Top(es, t) && t.key == e.key && t.seqNo >= e.seqNo
    decreases es
  {
    if x :| x in es && x.key == e.key && x.seqNo > e.seqNo {
      t := TopExists(es - {e}, x);
      assert forall y | y in es && y.key == e.key :: y == e || y in es - {e};
    } else {
      t := e;
    }
  }

  lemma SameLookups(m: KeyValues, n: KeyValues)
    requires forall k :: Lookup(m, k) == Lookup(n, k)
    ensures m == n
  {
    assert forall k :: k in m <==> Lookup(m, k).Some?;
    assert forall k :: k in n <==> Lookup(n, k).Some?;
    assert forall k | k in m :: m[k] == Lookup(m, k).value && n[k] == Lookup(n, k).value;
  }

  /** A set of versions means at most one map. */
  lemma MeansUnique(es: set<Entry>, m: KeyValues, n: KeyValues)
    requires Means(es, m) && Means(es, n)
    ensures m == n
  {
    forall k ensures Lookup(m, k) == Lookup(n, k) {
      if k in m || k in n {
        var e :| e in es && e.key == k;
        var t := TopExists(es, e);
        assert Agrees(m, t) && Agrees(n, t);
      }
    }
    SameLookups(m, n);
  }

  /** Sequence numbers tell the versions of a key apart. */
  ghost predicate Told(es: set<Entry>) {
    forall e, d | e in es && d in es && e.key == d.key && e.seqNo == d.seqNo :: e == d
  }

  ghost function KeysOf(es: set<Entry>): set<Key> {
    set e | e in es :: e.key
  }

  ghost function NewestOf(es: set<Entry>, k: Key): (t: Entry)
    requires k in KeysOf(es)
    ensures Top(es, t) && t.key == k
  {
    var e :| e in es && e.key == k;
    assert exists t :: Top(es, t) && t.key == k by {
      var t := TopExists(es, e);
    }
    var t :| Top(es, t) && t.key == k;
    t
  }

  /** The map a set of versions stands for. */
  ghost function MapOf(es: set<Entry>): KeyValues {
    map k | k in KeysOf(es) && NewestOf(es, k).valueType == Value :: NewestOf(es, k).value
  }

  /** Versions told apart by their sequence numbers stand for a map. */
  lemma MapOfMeans(es: set<Entry>)
    requires Told(es)
    ensures Means(es, MapOf(es))
  {
    forall e | Top(es, e) ensures Agrees(MapOf(es), e) {
      assert e.key in KeysOf(es);
      assert NewestOf(es, e.key) == e;
    }
  }

  /** Changing only the versions of one key to a newer one changes the map at that key. */
  lemma MeansWrite(es: set<Entry>, es': set<Entry>, m: KeyValues, e: Entry)
    requires Means(es, m)
    requires e in es' && forall x | x in es :: x.seqNo < e.seqNo
    requires forall x: Entry :: x.key != e.key ==> (x in es' <==> x in es)
    requires forall x | x in es' && x.key == e.key && x != e :: x in es
    ensures Means(es', if e.valueType == Tombstone then m - {e.key} else m[e.key := e.value])
  {
    var m' := if e.valueType == Tombstone then m - {e.key} else m[e.key := e.value];
    forall t | Top(es', t) ensures Agrees(m', t) {
      if t.key == e.key {
        assert t == e;
      } else {
        assert Top(es, t);
      }
    }
    forall k | k in m' ensures exists x :: x in es' && x.key == k {
      if k != e.key {
        var x :| x in es && x.key == k;
        assert x in es';
      }
    }
  }

  /** Adding versions that are already superseded changes nothing. */
  lemma MeansSuperseded(es: set<Entry>, es': set<Entry>, m: KeyValues)
    requires Means(es, m) && es <= es'
    requires forall x | x in es' && x !in es :: exists y :: y in es && y.key == x.key && y.seqNo > x.seqNo
    ensures Means(es', m)
  {
    forall t | Top(es', t) ensures Agrees(m, t) {
      assert t in es;
      assert Top(es, t);
    }
  }

  /** `after` drops only superseded versions, and newest versions that are tombstones of keys it drops altogether. */
  ghost predicate Condenses(before: set<Entry>, after: set<Entry>) {
    && after <= before
    && forall e | Top(before, e) :: e in after || (e.valueType == Tombstone && forall x | x in after :: x.key != e.key)
  }

  lemma MeansCondensed(before: set<Entry>, after: set<Entry>, m: KeyValues)
    requires Means(before, m) && Condenses(before, after)
    ensures Means(after, m)
  {
    forall t | Top(after, t) ensures Agrees(m, t) {
      var u := TopExists(before, t);
      assert u in after;
      assert Top(before, t);
    }
    forall k | k in m ensures exists e :: e in after && e.key == k {
      var e :| e in before && e.key == k;
      var t := TopExists(before, e);
      assert Agrees(m, t);
    }
  }

  /** In-memory versions shadow the stored ones: each is newer than, or the same as, any stored version of its key. */
  ghost predicate Shadows(mem: set<Entry>, stored: set<Entry>) {
    forall x, y | x in mem && y in stored && x.key == y.key :: y.seqNo < x.seqNo || x == y
  }

  /** Condensing what is stored condenses the whole store, whatever memory holds above it. */
  lemma CondensesUnder(mem: set<Entry>, before: set<Entry>, after: set<Entry>)
    requires Condenses(before, after) && Shadows(mem, before)
    ensures Condenses(mem + before, mem + after)
  {
    forall e | Top(mem + before, e)
      ensures e in mem + after || (e.valueType == Tombstone && forall x | x in mem + after :: x.key != e.key)
    {
      if e !in mem {
        assert Top(before, e);
        assert forall x | x in mem :: x.key != e.key;
      }
    }
  }
}
