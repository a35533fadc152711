/** Table files: entries cut into blocks, an index of first keys and a Bloom filter (src/sstable/builder.rs,
    src/sstable/reader.rs:74-103, src/sstable/block.rs:93-119). */
module TableFiles {
  import opened Keys
  import opened Entries
  import opened BloomFilters

  datatype TableFile = TableFile(blocks: seq<seq<Entry>>, firstKeys: seq<Key>, filter: Filter)

  function Flatten(blocks: seq<seq<Entry>>): seq<Entry> {
    if blocks == [] then [] else blocks[0] + Flatten(blocks[1..])
  }

  function KeyList(es: seq<Entry>): (keys: seq<Key>)
    ensures |keys| == |es|
  {
    seq(|es|, i requires 0 <= i < |es| => es[i].key)
  }

  /** The index names the first key of every block, none of which is empty. */
  ghost predicate Indexed(blocks: seq<seq<Entry>>, firstKeys: seq<Key>) {
    && |firstKeys| == |blocks|
    && forall i | 0 <= i < |blocks| :: blocks[i] != [] && firstKeys[i] == blocks[i][0].key
  }

  function BlockSize(es: seq<Entry>): nat {
    if es == [] then 0 else BlockSize(es[..|es| - 1]) + es[|es| - 1].EstimatedSize()
  }

  lemma BlockSizeAppend(es: seq<Entry>, e: Entry)
    ensures BlockSize(es + [e]) == BlockSize(es) + |e.key| + |e.value| + 9
  {
    assert (es + [e])[..|es|] == es;
  }

  /** A block ends with the first entry that brings it to the block size. */
  ghost predicate FullBlock(block: seq<Entry>, blockSize: nat) {
    && block != [] && BlockSize(block) >= blockSize
    && (|block| > 1 ==> BlockSize(block[..|block| - 1]) < blockSize)
  }

  ghost predicate FullBlocks(blocks: seq<seq<Entry>>, blockSize: nat) {
    forall i | 0 <= i < |blocks| :: FullBlock(blocks[i], blockSize)
  }

  /** The file stores the entries `es`. */
  ghost predicate Stores(file: TableFile, es: seq<Entry>, hash: Key -> Hash) {
    && Flatten(file.blocks) == es && Indexed(file.blocks, file.firstKeys)
    && BuiltFrom(file.filter, KeyList(es), hash)
  }

  lemma {:induction false} FlattenAppend(blocks: seq<seq<Entry>>, block: seq<Entry>)
    ensures Flatten(blocks + [block]) == Flatten(blocks) + block
  {
    if blocks == [] {
      assert [block][1..] == [];
      assert Flatten([block]) == block + Flatten([]);
    } else {
      FlattenAppend(blocks[1..], block);
      assert (blocks + [block])[1..] == blocks[1..] + [block];
    }
  }

  lemma {:induction false} FlattenMembers(blocks: seq<seq<Entry>>)
    ensures forall e :: e in Flatten(blocks) <==> exists i :: 0 <= i < |blocks| && e in blocks[i]
  {
    if blocks != [] {
      FlattenMembers(blocks[1..]);
      forall e | e in Flatten(blocks) ensures exists i :: 0 <= i < |blocks| && e in blocks[i] {
        if e !in blocks[0] {
          assert e in Flatten(blocks[1..]);
          var i :| 0 <= i < |blocks| - 1 && e in blocks[1..][i];
          assert e in blocks[i + 1];
        }
      }
    }
  }

  // ----- Building -----

  lemma SizeOf(e: Entry)
    ensures e.EstimatedSize() == |e.key| + |e.value| + 9
  {
  }

  lemma EntryJoins(blocks: seq<seq<Entry>>, firstKeys: seq<Key>, current: seq<Entry>, e: Entry)
    requires Indexed(if current == [] then blocks else blocks + [current], firstKeys)
    ensures Indexed(blocks + [current + [e]], if current == [] then firstKeys + [e.key] else firstKeys)
  {
    var more := blocks + [current + [e]];
    forall i | 0 <= i < |blocks| ensures more[i] == blocks[i] && blocks[i] != [] && firstKeys[i] == blocks[i][0].key {
      assert current != [] ==> (blocks + [current])[i] == blocks[i];
    }
    assert current != [] ==> (blocks + [current])[|blocks|] == current;
  }

  lemma BlockFills(blocks: seq<seq<Entry>>, current: seq<Entry>, e: Entry, blockSize: nat)
    requires FullBlocks(blocks, blockSize) && (current != [] ==> BlockSize(current) < blockSize)
    ensures BlockSize(current + [e]) >= blockSize ==> FullBlocks(blocks + [current + [e]], blockSize)
  {
    hide BlockSize;
    assert (current + [e])[..|current|] == current;
  }

  class TableBuilder {
    const blockSize: nat
    const bitsPerKey: nat
    const probes: nat
    var currentEntries: seq<Entry>
    var currentBlockSize: nat
    /** The blocks written so far. */
    var blocks: seq<seq<Entry>>
    var firstKeys: seq<Key>
    var allKeys: seq<Key>

    ghost predicate Valid()
      reads this
    {
      && Indexed(if currentEntries == [] then blocks else blocks + [currentEntries], firstKeys)
      && allKeys == KeyList(Added())
      && currentBlockSize == BlockSize(currentEntries)
    }

    /** Between two calls every block written is full and the current one is not. */
    ghost predicate Filling()
      reads this
    {
      FullBlocks(blocks, blockSize) && (currentEntries != [] ==> currentBlockSize < blockSize)
    }

    ghost function Added(): seq<Entry>
      reads this
    {
      Flatten(blocks) + currentEntries
    }

    constructor (blockSize: nat, bitsPerKey: nat, probes: nat)
      ensures Valid() && Filling() && Added() == []
      ensures this.blockSize == blockSize && this.bitsPerKey == bitsPerKey && this.probes == probes
    {
      this.blockSize, this.bitsPerKey, this.probes := blockSize, bitsPerKey, probes;
      currentEntries, currentBlockSize, blocks, firstKeys, allKeys := [], 0, [], [], [];
    }

    method Add(entry: Entry)
      requires Valid() && Filling()
      modifies this
      ensures Valid() && Filling() && Added() == old(Added()) + [entry]
    {
      hide Flatten, BlockSize, FullBlock, FullBlocks, Indexed, Entry.EstimatedSize;
      BlockSizeAppend(currentEntries, entry);
      EntryJoins(blocks, firstKeys, currentEntries, entry);
      BlockFills(blocks, currentEntries, entry, blockSize);
      assert entry.EstimatedSize() == |entry.key| + |entry.value| + 9 by {
        SizeOf(entry);
      }
      if currentEntries == [] {
        firstKeys := firstKeys + [entry.key];
      }
      allKeys := allKeys + [entry.key];
      currentBlockSize := currentBlockSize + entry.EstimatedSize();
      currentEntries := currentEntries + [entry];
      assert allKeys == KeyList(Added());
      if currentBlockSize >= blockSize {
        FlushBlock();
      }
    }

    method FlushBlock()
      requires Valid()
      modifies this
      ensures Valid() && Added() == old(Added()) && currentEntries == []
      ensures blocks == old(blocks) + if old(currentEntries) == [] then [] else [old(currentEntries)]
    {
      if currentEntries == [] {
        return;
      }
      FlattenAppend(blocks, currentEntries);
      blocks := blocks + [currentEntries];
      currentEntries, currentBlockSize := [], 0;
      assert Added() == old(Added());
    }

    method Finish(hash: Key -> Hash) returns (file: TableFile)
      requires Valid() && Filling() && (Added() != [] ==> Count(FilterBits(|Added()|, bitsPerKey)) > 0)
      modifies this
      ensures Stores(file, old(Added()), hash)
      ensures forall i | 0 <= i < |file.blocks| - 1 :: FullBlock(file.blocks[i], blockSize)
      ensures file.blocks != [] ==>
                var last := file.blocks[|file.blocks| - 1]; FullBlock(last, blockSize) || BlockSize(last) < blockSize
    {
      FlushBlock();
      var filter := BuildFromKeys(allKeys, bitsPerKey, probes, hash);
      file := TableFile(blocks, firstKeys, filter);
    }
  }

  // ----- Looking up -----

  /** Where a binary search of a sorted list stops: at the key, or where it would be inserted. */
  function InsertionPoint(keys: seq<Key>, key: Key): (i: nat)
    ensures i <= |keys|
    ensures forall a | 0 <= a < i :: Lt(keys[a], key)
    ensures i < |keys| ==> !Lt(keys[i], key)
  {
    if keys == [] || !Lt(keys[0], key) then 0 else 1 + InsertionPoint(keys[1..], key)
  }

  /** The one block that is searched. */
  function ChosenBlock(firstKeys: seq<Key>, key: Key): nat {
    var i := InsertionPoint(firstKeys, key);
    if i < |firstKeys| && firstKeys[i] == key then i else if i == 0 then 0 else i - 1
  }

  /** Blocks of a strict list are strict and follow one another. */
  lemma {:induction false} StrictBlocks(blocks: seq<seq<Entry>>)
    requires Strict(Flatten(blocks))
    ensures forall i | 0 <= i < |blocks| :: Strict(blocks[i])
    ensures forall i, j, x, y | 0 <= i < j < |blocks| && x in blocks[i] && y in blocks[j] :: Lt(x.key, y.key)
  {
    if blocks != [] {
      var head, rest := blocks[0], Flatten(blocks[1..]);
      StrictParts(head, rest);
      StrictBlocks(blocks[1..]);
      FlattenMembers(blocks[1..]);
      forall i, j, x, y | 0 <= i < j < |blocks| && x in blocks[i] && y in blocks[j] ensures Lt(x.key, y.key) {
        assert blocks[j] == blocks[1..][j - 1];
        if i > 0 {
          assert blocks[i] == blocks[1..][i - 1];
        }
      }
      forall i | 0 <= i < |blocks| ensures Strict(blocks[i]) {
        if i > 0 {
          assert blocks[i] == blocks[1..][i - 1];
        }
      }
    }
  }

  lemma StrictParts(xs: seq<Entry>, ys: seq<Entry>)
    requires Strict(xs + ys)
    ensures Strict(xs) && Strict(ys)
    ensures forall x, y | x in xs && y in ys :: Lt(x.key, y.key)
  {
    var es := xs + ys;
    forall i, j | 0 <= i < j < |xs| ensures Lt(xs[i].key, xs[j].key) {
      assert es[i] == xs[i] && es[j] == xs[j];
    }
    forall i, j | 0 <= i < j < |ys| ensures Lt(ys[i].key, ys[j].key) {
      assert es[|xs| + i] == ys[i] && es[|xs| + j] == ys[j];
    }
    forall x, y | x in xs && y in ys ensures Lt(x.key, y.key) {
      var i :| 0 <= i < |xs| && xs[i] == x;
      var j :| 0 <= j < |ys| && ys[j] == y;
      assert es[i] == x && es[|xs| + j] == y;
    }
  }

  lemma ChosenBetween(firstKeys: seq<Key>, key: Key, j: nat)
    requires j < |firstKeys| && (firstKeys[j] == key || Lt(firstKeys[j], key))
    requires forall a | 0 <= a < j :: Lt(firstKeys[a], key)
    requires forall b | j < b < |firstKeys| :: Lt(key, firstKeys[b])
    ensures ChosenBlock(firstKeys, key) == j
  {
    hide Lt;
    LinearOrder();
    assert !Lt(key, key);
    if j + 1 < |firstKeys| {
      assert !Lt(firstKeys[j + 1], key);
    }
  }

  /** If any block holds the key, the chosen one does. */
  lemma ChosenBlockHolds(blocks: seq<seq<Entry>>, firstKeys: seq<Key>, j: nat, e: Entry)
    requires Indexed(blocks, firstKeys) && Strict(Flatten(blocks)) && j < |blocks| && e in blocks[j]
    ensures ChosenBlock(firstKeys, e.key) == j
  {
    hide Lt, Strict;
    StrictBlocks(blocks);
    StrictBounds(blocks[j], e);
    LinearOrder();
    forall a | 0 <= a < j ensures Lt(firstKeys[a], e.key) {
      assert blocks[a][0] in blocks[a];
    }
    forall b | j < b < |blocks| ensures Lt(e.key, firstKeys[b]) {
      assert blocks[b][0] in blocks[b];
    }
    ChosenBetween(firstKeys, e.key, j);
  }

  /** Searching the chosen block finds what searching the whole table would. */
  lemma ChosenBlockFinds(blocks: seq<seq<Entry>>, firstKeys: seq<Key>, key: Key)
    requires Indexed(blocks, firstKeys) && Strict(Flatten(blocks)) && blocks != []
    ensures ChosenBlock(firstKeys, key) < |blocks|
    ensures Find(blocks[ChosenBlock(firstKeys, key)], key) == Find(Flatten(blocks), key)
  {
    var es, i := Flatten(blocks), ChosenBlock(firstKeys, key);
    FlattenMembers(blocks);
    assert forall e | e in blocks[i] :: e in es;
    var all, one := Find(es, key), Find(blocks[i], key);
    if all.Some? {
      var j :| 0 <= j < |blocks| && all.value in blocks[j];
      ChosenBlockHolds(blocks, firstKeys, j, all.value);
      assert one.Some?;
      StrictKeys(es, all.value, one.value);
    }
  }

  /** Binary search in a block for the first entry that is not below the key. */
  method GetByKey(block: seq<Entry>, key: Key) returns (r: Option<Entry>)
    requires Strict(block)
    ensures r == Find(block, key)
  {
    LinearOrder();
    var low, high := 0, |block|;
    while low < high
      invariant 0 <= low <= high <= |block|
      invariant forall a | 0 <= a < low :: Lt(block[a].key, key)
      invariant forall a | high <= a < |block| :: !Lt(block[a].key, key)
    {
      var mid := low + (high - low) / 2;
      if Lt(block[mid].key, key) {
        forall a | 0 <= a < mid ensures Lt(block[a].key, key) {
          assert Lt(block[a].key, block[mid].key);
        }
        low := mid + 1;
      } else {
        forall a | mid < a < |block| ensures !Lt(block[a].key, key) {
          assert Lt(block[mid].key, block[a].key);
        }
        high := mid;
      }
    }
    if low < |block| && block[low].key == key {
      StrictKeys(block, block[low], Find(block, key).value);
      return Some(block[low]);
    }
    NotInBlock(block, key, low);
    return None;
  }

  lemma NotInBlock(block: seq<Entry>, key: Key, low: nat)
    requires Strict(block) && low <= |block|
    requires forall a | 0 <= a < low :: Lt(block[a].key, key)
    requires forall a | low <= a < |block| :: !Lt(block[a].key, key)
    requires low < |block| ==> block[low].key != key
    ensures Find(block, key) == None
  {
    LinearOrder();
    forall e | e in block ensures e.key != key {
      var a :| 0 <= a < |block| && block[a] == e;
      if a > low {
        assert Lt(block[low].key, block[a].key);
      }
    }
  }

  /** A lookup in a table file answers as a search of all its entries would: unknown, deleted or a value. */
  method Get(file: TableFile, key: Key, hash: Key -> Hash, ghost es: seq<Entry>) returns (r: Option<Option<Bytes>>)
    requires Stores(file, es, hash) && Strict(es)
    ensures r == match Find(es, key) case None => None case Some(e) => Some(e.Answer())
  {
    if file.blocks == [] {
      return None;
    }
    var admitted := MayContain(file.filter, key, hash);
    if !admitted {
      NotAdmitted(file, key, hash, es);
      return None;
    }
    var i := ChosenBlock(file.firstKeys, key);
    ChosenBlockFinds(file.blocks, file.firstKeys, key);
    StrictBlocks(file.blocks);
    var entry := GetByKey(file.blocks[i], key);
    r := match entry case None => None case Some(e) => Some(e.Answer());
  }

  /** The filter never turns a stored key away. */
  lemma NotAdmitted(file: TableFile, key: Key, hash: Key -> Hash, es: seq<Entry>)
    requires Stores(file, es, hash) && !Admits(file.filter, hash(key))
    ensures Find(es, key) == None
  {
    if Find(es, key).Some? {
      var e := Find(es, key).value;
      var i :| 0 <= i < |es| && es[i] == e;
      assert KeyList(es)[i] == key;
      BuiltAdmits(file.filter, KeyList(es), hash, key);
    }
  }
}
