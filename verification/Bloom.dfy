/** The Bloom filter of a table (src/sstable/bloom.rs). */
module BloomFilters {
  import opened Keys

  const U32_VALUES: nat := 0x1_0000_0000

  type Hash = n: nat | n < U32_VALUES

  /** The bits and the number of probes; an empty filter admits everything. */
  datatype Filter = NoFilter | Filter(bits: seq<bool>, probes: nat)

  function RotateLeft15(h: Hash): (r: Hash) {
    h * 0x8000 % U32_VALUES + h / 0x20000
  }

  /** Rotation by fifteen bits: the low seventeen move up and the high fifteen come round. */
  lemma RotationMovesBits(high: nat, low: nat)
    requires high < 0x8000 && low < 0x20000
    ensures high * 0x20000 + low < U32_VALUES
    ensures RotateLeft15(high * 0x20000 + low) == low * 0x8000 + high
  {
    var h := high * 0x20000 + low;
    assert h / 0x20000 == high;
    assert h * 0x8000 == high * U32_VALUES + low * 0x8000;
    assert h * 0x8000 % U32_VALUES == low * 0x8000;
  }

  /** The bit of probe `i`: 32-bit sums of the hash and its rotation. */
  function Probe(hash: Hash, size: nat, i: nat): (bit: nat)
    requires size > 0
    ensures bit < size
  {
    (hash + i * RotateLeft15(hash)) % U32_VALUES % size
  }

  /** The running hash of the loop: each round adds the rotation of the first hash, in 32 bits. */
  function RunningHash(hash: Hash, i: nat): Hash {
    if i == 0 then hash else (RunningHash(hash, i - 1) + RotateLeft15(hash)) % U32_VALUES
  }

  lemma ProbeIs(hash: Hash, size: nat, i: nat)
    requires size > 0
    ensures Probe(hash, size, i) == (hash + i * RotateLeft15(hash)) % U32_VALUES % size
  {
    hide RotateLeft15;
  }

  lemma {:induction false} ProbesRun(hash: Hash, size: nat, i: nat)
    requires size > 0
    ensures Probe(hash, size, i) == RunningHash(hash, i) % size
    ensures RunningHash(hash, i) == (hash + i * RotateLeft15(hash)) % U32_VALUES
  {
    hide RotateLeft15;
    if i > 0 {
      ProbesRun(hash, size, i - 1);
      hide Probe;
      NextProbe(hash, RunningHash(hash, i - 1), i - 1);
      ProbeIs(hash, size, i);
    } else {
      assert 0 * RotateLeft15(hash) == 0;
    }
  }

  /** Bits are counted in 32 bits; a count that wraps to zero makes the source divide by it. */
  function Count(bits: nat): nat {
    bits % U32_VALUES
  }

  function FilterBits(keys: nat, bitsPerKey: nat): nat {
    var bits := if keys * bitsPerKey < 64 then 64 else keys * bitsPerKey;
    (bits + 7) / 8 * 8
  }

  /** Whole bytes, at least eight of them, and no more than the keys need. */
  lemma FilterBitsFit(keys: nat, bitsPerKey: nat)
    ensures var n := FilterBits(keys, bitsPerKey);
            && (n < U32_VALUES ==> Count(n) == n) && Count(n + U32_VALUES) == Count(n)
            && n % 8 == 0 && n >= 64 && n >= keys * bitsPerKey && (n == 64 || n < keys * bitsPerKey + 8)
  {
  }

  /** Some probe of one of the keys falls on the bit. */
  ghost predicate Probed(keys: seq<Key>, hash: Key -> Hash, size: nat, probes: nat, bit: nat)
    requires size > 0
  {
    exists a, i: nat :: 0 <= a < |keys| && i < probes && Probe(hash(keys[a]), size, i) == bit
  }

  ghost predicate BuiltFrom(f: Filter, keys: seq<Key>, hash: Key -> Hash) {
    if keys == [] then f == NoFilter
    else
      && f.Filter? && Count(|f.bits|) > 0
      && forall b | 0 <= b < |f.bits| :: f.bits[b] <==> Probed(keys, hash, Count(|f.bits|), f.probes, b)
  }

  /** The wrapping addition of the loop makes the next probe. */
  lemma NextProbe(hash: Hash, h: nat, i: nat)
    requires h == (hash + i * RotateLeft15(hash)) % U32_VALUES
    ensures (h + RotateLeft15(hash)) % U32_VALUES == (hash + (i + 1) * RotateLeft15(hash)) % U32_VALUES
  {
    var n, d := hash + i * RotateLeft15(hash), RotateLeft15(hash);
    assert hash + (i + 1) * d == n + d;
    assert n == n / U32_VALUES * U32_VALUES + h;
    SumWraps(h, d, n / U32_VALUES);
  }

  lemma SumWraps(h: nat, d: nat, q: nat)
    ensures (h + d) % U32_VALUES == (q * U32_VALUES + h + d) % U32_VALUES
  {
  }

  /** Sets every bit a key is probed at, and no other. */
  method BuildFromKeys(keys: seq<Key>, bitsPerKey: nat, probes: nat, hash: Key -> Hash) returns (f: Filter)
    requires keys != [] ==> Count(FilterBits(|keys|, bitsPerKey)) > 0
    ensures BuiltFrom(f, keys, hash)
    ensures keys != [] ==> |f.bits| == FilterBits(|keys|, bitsPerKey) >= 64 && f.probes == probes
  {
    if keys == [] {
      return NoFilter;
    }
    hide RotateLeft15;
    var bits := seq(FilterBits(|keys|, bitsPerKey), _ => false);
    var size := Count(|bits|);
    for a := 0 to |keys|
      invariant |bits| == FilterBits(|keys|, bitsPerKey)
      invariant forall b | 0 <= b < |bits| :: bits[b] <==> Probed(keys[..a], hash, size, probes, b)
    {
      bits := SetProbes(bits, hash(keys[a]), size, probes);
      ProbedMore(keys[..a], keys[a], hash, size, probes);
      assert keys[..a + 1] == keys[..a] + [keys[a]];
    }
    assert keys[..|keys|] == keys;
    f := Filter(bits, probes);
  }

  lemma ProbedMore(keys: seq<Key>, key: Key, hash: Key -> Hash, size: nat, probes: nat)
    requires size > 0
    ensures forall b :: Probed(keys + [key], hash, size, probes, b)
                        <==> Probed(keys, hash, size, probes, b) || ProbedUpTo(hash(key), size, probes, b)
  {
    hide Probe;
    var more := keys + [key];
    forall b: nat | Probed(keys, hash, size, probes, b) ensures Probed(more, hash, size, probes, b) {
      var a, i: nat :| 0 <= a < |keys| && i < probes && Probe(hash(keys[a]), size, i) == b;
      assert more[a] == keys[a];
    }
    forall b: nat | ProbedUpTo(hash(key), size, probes, b) ensures Probed(more, hash, size, probes, b) {
      assert more[|keys|] == key;
    }
    forall b: nat | Probed(more, hash, size, probes, b)
      ensures Probed(keys, hash, size, probes, b) || ProbedUpTo(hash(key), size, probes, b)
    {
      var a, i: nat :| 0 <= a < |more| && i < probes && Probe(hash(more[a]), size, i) == b;
    }
  }

  ghost predicate ProbedUpTo(h: Hash, size: nat, n: nat, bit: nat)
    requires size > 0
  {
    exists i: nat :: i < n && Probe(h, size, i) == bit
  }

  lemma OneMoreProbe(h: Hash, size: nat, n: nat)
    requires size > 0
    ensures forall b: nat :: ProbedUpTo(h, size, n + 1, b) <==> ProbedUpTo(h, size, n, b) || Probe(h, size, n) == b
  {
    hide Probe;
    assert ProbedUpTo(h, size, n + 1, Probe(h, size, n));
  }

  method SetProbes(bits: seq<bool>, hash: Hash, size: nat, probes: nat) returns (r: seq<bool>)
    requires 0 < size <= |bits|
    ensures |r| == |bits|
    ensures forall b | 0 <= b < |bits| :: r[b] <==> bits[b] || ProbedUpTo(hash, size, probes, b)
  {
    hide RotateLeft15;
    r := bits;
    var h: nat := hash;
    for i := 0 to probes
      invariant |r| == |bits| && h == (hash + i * RotateLeft15(hash)) % U32_VALUES
      invariant forall b | 0 <= b < |bits| :: r[b] <==> bits[b] || ProbedUpTo(hash, size, i, b)
    {
      OneMoreProbe(hash, size, i);
      r := r[h % size := true];
      NextProbe(hash, h, i);
      h := (h + RotateLeft15(hash)) % U32_VALUES;
    }
  }

  /** Every bit the key is probed at is set. */
  ghost predicate Admits(f: Filter, hash: Hash) {
    f.NoFilter? || (0 < Count(|f.bits|) <= |f.bits| &&
                    forall i: nat | i < f.probes :: f.bits[Probe(hash, Count(|f.bits|), i)])
  }

  method MayContain(f: Filter, key: Key, hash: Key -> Hash) returns (admitted: bool)
    requires f.Filter? ==> Count(|f.bits|) > 0
    ensures admitted <==> Admits(f, hash(key))
  {
    if f.NoFilter? {
      return true;
    }
    hide RotateLeft15;
    var h: nat := hash(key);
    var size := Count(|f.bits|);
    for i := 0 to f.probes
      invariant h == (hash(key) + i * RotateLeft15(hash(key))) % U32_VALUES
      invariant forall j: nat | j < i :: f.bits[Probe(hash(key), size, j)]
    {
      if !f.bits[h % size] {
        assert Probe(hash(key), size, i) == h % size;
        return false;
      }
      NextProbe(hash(key), h, i);
      h := (h + RotateLeft15(hash(key))) % U32_VALUES;
    }
    return true;
  }

  /** No false negatives: a filter admits every key it was built from. */
  lemma BuiltAdmits(f: Filter, keys: seq<Key>, hash: Key -> Hash, key: Key)
    requires BuiltFrom(f, keys, hash) && key in keys
    ensures Admits(f, hash(key))
  {
    hide Probe;
    var a :| 0 <= a < |keys| && keys[a] == key;
    var size := Count(|f.bits|);
    forall i: nat | i < f.probes ensures f.bits[Probe(hash(key), size, i)] {
      assert Probed(keys, hash, size, f.probes, Probe(hash(keys[a]), size, i));
    }
  }
}
