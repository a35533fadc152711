/** Keys and values are byte strings; keys are ordered lexicographically by unsigned byte, as `Bytes` is. */
module Keys {

  datatype Option<+T> = None | Some(value: T)

  newtype Byte = x: int | 0 <= x < 256

  type Key = seq<Byte>

  type Bytes = seq<Byte>

  predicate Lt(a: Key, b: Key) {
    b != [] && (a == [] || a[0] < b[0] || (a[0] == b[0] && Lt(a[1..], b[1..])))
  }

  /** `a` comes first: at the first place where they differ it has the smaller byte, or it ends there. */
  lemma {:induction false} LtFirstDifference(a: Key, b: Key)
    ensures Lt(a, b)
            <==> exists n: nat :: n <= |a| && n < |b| && a[..n] == b[..n] && (n == |a| || a[n] < b[n])
  {
    if b == [] || a == [] || a[0] != b[0] {
      assert a[..0] == b[..0] == [];
      forall n: nat | 0 < n <= |a| && n < |b| && a[0] != b[0] ensures a[..n] != b[..n] {
        assert a[..n][0] == a[0] && b[..n][0] == b[0];
      }
    } else {
      LtFirstDifference(a[1..], b[1..]);
      forall n: nat | n < |a| && n + 1 < |b| ensures a[1..][..n] == b[1..][..n] <==> a[..n + 1] == b[..n + 1] {
        assert a[..n + 1] == [a[0]] + a[1..][..n] && b[..n + 1] == [b[0]] + b[1..][..n];
      }
      if Lt(a, b) {
        var n: nat :| n <= |a[1..]| && n < |b[1..]| && a[1..][..n] == b[1..][..n]
                      && (n == |a[1..]| || a[1..][n] < b[1..][n]);
        assert a[..n + 1] == b[..n + 1];
      }
      if n: nat :| n <= |a| && n < |b| && a[..n] == b[..n] && (n == |a| || a[n] < b[n]) {
        assert n > 0;
        assert a[1..][..n - 1] == b[1..][..n - 1];
      }
    }
  }

  predicate Le(a: Key, b: Key) {
    !Lt(b, a)
  }

  lemma {:induction false} LtIrreflexive(a: Key)
    ensures !Lt(a, a)
  {
    if a != [] {
      LtIrreflexive(a[1..]);
    }
  }

  lemma {:induction false} LtTotal(a: Key, b: Key)
    ensures Lt(a, b) || a == b || Lt(b, a)
  {
    if a != [] && b != [] && a[0] == b[0] {
      LtTotal(a[1..], b[1..]);
      if a[1..] == b[1..] {
        assert a == [a[0]] + a[1..] && b == [b[0]] + b[1..];
      }
    }
  }

  lemma {:induction false} LtTransitive(a: Key, b: Key, c: Key)
    requires Lt(a, b) && Lt(b, c)
    ensures Lt(a, c)
  {
    if a != [] && a[0] == b[0] && b[0] == c[0] {
      LtTransitive(a[1..], b[1..], c[1..]);
    }
  }

  /** `Lt` is a strict linear order, so `Le` is its reflexive closure. */
  lemma LinearOrder()
    ensures forall a: Key {:trigger Lt(a, a)} :: !Lt(a, a)
    ensures forall a: Key, b: Key {:trigger Lt(a, b)} :: Lt(a, b) || a == b || Lt(b, a)
    ensures forall a: Key, b: Key, c: Key {:trigger Lt(a, b), Lt(b, c)} :: Lt(a, b) && Lt(b, c) ==> Lt(a, c)
  {
    forall a: Key {
      LtIrreflexive(a);
    }
    forall a: Key, b: Key {
      LtTotal(a, b);
    }
    forall a: Key, b: Key, c: Key | Lt(a, b) && Lt(b, c) {
      LtTransitive(a, b, c);
    }
  }

  /** A non-empty finite set of keys has a least element. */
  lemma {:induction false} LeastKeyExists(keys: set<Key>) returns (least: Key)
    requires keys != {}
    ensures least in keys && forall k | k in keys :: Le(least, k)
  {
    LinearOrder();
    var k :| k in keys;
    if keys == {k} {
      least := k;
    } else {
      var rest := LeastKeyExists(keys - {k});
      least := if Lt(k, rest) then k else rest;
      assert forall x | x in keys :: x == k || x in keys - {k};
    }
  }
}
