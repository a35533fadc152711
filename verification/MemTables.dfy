/** The memtable and its byte accounting (src/memtable). */
module MemTables {
  import opened Keys
  import opened Entries

  /** The estimated size of all live entries. */
  ghost function TotalSize(t: Table): nat
    decreases |t|
  {
    if t == map[] then 0
    else
      var k := Least(t);
      assert (t - {k}).Keys == t.Keys - {k};
      t[k].EstimatedSize() + TotalSize(t - {k})
  }

  lemma {:induction false} TotalWithout(t: Table, k: Key)
    requires k in t
    ensures TotalSize(t) == t[k].EstimatedSize() + TotalSize(t - {k})
    decreases |t|
  {
    var l := Least(t);
    if l != k {
      assert (t - {l}).Keys == t.Keys - {l} && (t - {k}).Keys == t.Keys - {k};
      TotalWithout(t - {l}, k);
      TotalWithout(t - {k}, l);
      assert t - {l} - {k} == t - {k} - {l};
    }
  }

  /** Inserting replaces the size of the old entry, if any, by that of the new one. */
  lemma TotalInserted(t: Table, e: Entry)
    ensures TotalSize(t[e.key := e])
            == TotalSize(t) + e.EstimatedSize() - if e.key in t then t[e.key].EstimatedSize() else 0
  {
    var u := t[e.key := e];
    TotalWithout(u, e.key);
    if e.key in t {
      TotalWithout(t, e.key);
      assert u - {e.key} == t - {e.key};
    } else {
      assert u - {e.key} == t;
    }
  }

  lemma EmptyIffNothing(t: Table)
    ensures TotalSize(t) == 0 <==> t == map[]
  {
  }

  /** The byte count after an entry of `length` value bytes is stored under the key: a new key adds its own bytes and
      nine more, a known one only the difference of the values. */
  function GrownBy(size: nat, t: Table, key: Key, length: nat): int {
    if key in t then size + length - |t[key].value| else size + |key| + length + 9
  }

  class MemTable {
    const id: nat
    var table: Table
    var sizeBytes: nat

    ghost predicate Valid()
      reads this
    {
      WellFormed(table) && sizeBytes == TotalSize(table)
    }

    constructor (id: nat)
      ensures Valid() && this.id == id && table == map[] && sizeBytes == 0
    {
      this.id := id;
      table, sizeBytes := map[], 0;
    }

    /** The backing map's insert: returns the size of the replaced entry. */
    method Insert(entry: Entry) returns (replaced: Option<nat>)
      requires WellFormed(table)
      modifies this`table
      ensures table == old(table)[entry.key := entry]
      ensures replaced == if entry.key in old(table) then Some(|entry.key| + |old(table)[entry.key].value| + 9)
                          else None
    {
      replaced := if entry.key in table then Some(table[entry.key].EstimatedSize()) else None;
      table := table[entry.key := entry];
    }

    /** Adds or subtracts the difference; the subtraction never goes below zero. */
    method UpdateSizeBytes(newSize: nat, oldSize: nat)
      requires oldSize <= sizeBytes + newSize
      modifies this`sizeBytes
      ensures sizeBytes == old(sizeBytes) + newSize - oldSize
    {
      if newSize > oldSize {
        sizeBytes := sizeBytes + (newSize - oldSize);
      } else if oldSize > newSize {
        sizeBytes := sizeBytes - (oldSize - newSize);
      }
    }

    method Add(entry: Entry)
      requires Valid()
      modifies this
      ensures Valid() && table == old(table)[entry.key := entry]
      ensures sizeBytes == GrownBy(old(sizeBytes), old(table), entry.key, |entry.value|)
    {
      TotalInserted(table, entry);
      if entry.key in table {
        TotalWithout(table, entry.key);
      }
      var newSize := entry.EstimatedSize();
      var replaced := Insert(entry);
      UpdateSizeBytes(newSize, if replaced.Some? then replaced.value else 0);
    }

    method Put(key: Key, value: Bytes, seqNo: nat)
      requires Valid()
      modifies this
      ensures Valid() && table == old(table)[key := NewValue(key, value, seqNo)]
      ensures key !in old(table) ==> sizeBytes == old(sizeBytes) + |key| + |value| + 9
      ensures key in old(table) ==> sizeBytes == old(sizeBytes) + |value| - |old(table)[key].value|
    {
      Add(NewValue(key, value, seqNo));
    }

    method Delete(key: Key, seqNo: nat)
      requires Valid()
      modifies this
      ensures Valid() && table == old(table)[key := NewTombstone(key, seqNo)]
      ensures key !in old(table) ==> sizeBytes == old(sizeBytes) + |key| + 9
      ensures key in old(table) ==> sizeBytes == old(sizeBytes) - |old(table)[key].value|
    {
      Add(NewTombstone(key, seqNo));
    }

    /** `None`: unknown here; `Some(None)`: deleted; `Some(Some(v))`: stored. */
    method Get(key: Key) returns (r: Option<Option<Bytes>>)
      requires Valid()
      ensures r.None? <==> key !in table
      ensures r.Some? ==> r.value == table[key].Answer()
    {
      r := if key in table then Some(table[key].Answer()) else None;
    }

    method IsEmpty() returns (b: bool)
      requires Valid()
      ensures b <==> table == map[]
    {
      b := |table| == 0;
    }
  }
}
