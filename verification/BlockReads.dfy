/** Reading the blocks of a table file through the cache (src/sstable/reader.rs:105-144). */
module BlockReads {
  import opened Keys
  import opened LruCaches

  function BlockKeys(file: nat, n: nat): (keys: seq<BlockKey>)
    ensures |keys| == n
  {
    seq(n, i requires 0 <= i < n => BlockKey(file, i))
  }

  /** In a cache that block reads have filled, a block is found as it is in its file. */
  lemma OneMoreRead(history: seq<BlockKey>, key: BlockKey, source: BlockSource, capacity: nat)
    ensures var items := AccessAll(history, source, capacity);
            && AccessAll(history + [key], source, capacity) == Access(items, key, source, capacity)
            && (Has(items, key) ==> Found(items, key) == Some(source(key)))
  {
    assert (history + [key])[..|history|] == history;
    HitsAreTrue(history, source, capacity, key);
  }

  class TableReader {
    const fileNumber: nat
    /** The bytes of each block in the file. */
    const blocks: seq<Bytes>
    const cache: Option<LruInner>

    constructor (fileNumber: nat, blocks: seq<Bytes>, cache: Option<LruInner>)
      ensures this.fileNumber == fileNumber && this.blocks == blocks && this.cache == cache
    {
      this.fileNumber, this.blocks, this.cache := fileNumber, blocks, cache;
    }

    /** This file is where its blocks come from. */
    ghost predicate Holds(source: BlockSource) {
      forall i | 0 <= i < |blocks| :: blocks[i] == source(BlockKey(fileNumber, i))
    }

    /** The cache is what block reads, of this file and others, have made of it. */
    ghost predicate CacheAfter(history: seq<BlockKey>, source: BlockSource)
      reads if cache.Some? then {cache.value} else {}
    {
      cache.Some? ==> cache.value.Valid() && cache.value.Items() == AccessAll(history, source, cache.value.capacity)
    }

    /** One block read: the cached bytes, or those of the file, which then go into the cache. */
    method ReadBlock(index: nat, ghost source: BlockSource) returns (r: Bytes)
      requires index < |blocks| && Holds(source) && (cache.Some? ==> cache.value.Valid())
      modifies if cache.Some? then {cache.value} else {}
      ensures cache.None? ==> r == blocks[index]
      ensures cache.Some? ==>
                var key, items := BlockKey(fileNumber, index), old(cache.value.Items());
                && cache.value.Valid()
                && cache.value.Items() == Access(items, key, source, cache.value.capacity)
                && Some(r) == if Has(items, key) then Found(items, key) else Some(blocks[index])
    {
      var key := BlockKey(fileNumber, index);
      if cache.Some? {
        var hit := cache.value.Get(key);
        if hit.Some? {
          return hit.value;
        }
      }
      r := blocks[index];
      if cache.Some? {
        cache.value.Insert(key, r);
      }
    }

    /** All blocks in order. */
    method ReadAllBlocks(ghost history: seq<BlockKey>, ghost source: BlockSource) returns (r: seq<Bytes>)
      requires Holds(source) && CacheAfter(history, source)
      modifies if cache.Some? then {cache.value} else {}
      ensures r == blocks && CacheAfter(history + BlockKeys(fileNumber, |blocks|), source)
    {
      hide AccessAll, Access, Has, Found, LruInner.Valid, LruInner.Items;
      r := [];
      assert history + BlockKeys(fileNumber, 0) == history;
      for i := 0 to |blocks|
        invariant r == blocks[..i] && CacheAfter(history + BlockKeys(fileNumber, i), source)
      {
        if cache.Some? {
          OneMoreRead(history + BlockKeys(fileNumber, i), BlockKey(fileNumber, i), source, cache.value.capacity);
        }
        var block := ReadBlock(i, source);
        assert history + BlockKeys(fileNumber, i) + [BlockKey(fileNumber, i)] == history + BlockKeys(fileNumber, i + 1);
        r := r + [block];
      }
    }
  }
}
