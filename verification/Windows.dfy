/** Overlapping windows over a sequence: the arithmetic shared by the fixed-window chunkers
    (src/rag/chunker.rs:45-74). */
module Windows {

  /** Consecutive windows share at most `size - 1` elements. */
  function Shared(size: nat, overlap: nat): nat
    requires size > 0
  {
    if overlap < size - 1 then overlap else size - 1
  }

  lemma SharedIs(size: nat, overlap: nat)
    requires size > 0
    ensures Shared(size, overlap) == if overlap < size then overlap else size - 1
  {
  }

  function Min(a: nat, b: nat): nat {
    if a < b then a else b
  }

  function CeilDiv(a: nat, b: nat): nat
    requires b > 0
  {
    (a + b - 1) / b
  }

  /** One window, and another for every further step needed to reach the end. */
  function WindowCount(total: nat, size: nat, overlap: nat): nat
    requires size > 0
  {
    1 + CeilDiv(if total > size then total - size else 0, size - Shared(size, overlap))
  }

  function WindowStart(size: nat, overlap: nat, w: nat): nat
    requires size > 0
  {
    w * (size - Shared(size, overlap))
  }

  function WindowEnd(total: nat, size: nat, overlap: nat, w: nat): nat
    requires size > 0
  {
    Min(WindowStart(size, overlap, w) + size, total)
  }

  lemma CeilDivBounds(a: nat, b: nat)
    requires b > 0
    ensures CeilDiv(a, b) * b >= a && CeilDiv(a, b) * b < a + b
  {
    var n := a + b - 1;
    assert n == b * (n / b) + n % b;
  }

  lemma TimesMonotone(a: nat, b: nat, c: nat)
    requires a <= b
    ensures a * c <= b * c
  {
  }

  lemma OneMoreStep(w: nat, step: nat)
    ensures (w + 1) * step == w * step + step
    ensures 0 * step == 0
  {
  }

  /** Windows start inside the sequence, and the last one is the only one that reaches the end. */
  lemma LastWindowReachesEnd(total: nat, size: nat, overlap: nat, w: nat)
    requires size > 0 && total > 0 && w < WindowCount(total, size, overlap)
    ensures WindowStart(size, overlap, w) < total
    ensures WindowStart(size, overlap, w) + size >= total <==> w == WindowCount(total, size, overlap) - 1
    ensures WindowStart(size, overlap, w + 1) == WindowStart(size, overlap, w) + size - Shared(size, overlap)
    ensures WindowStart(size, overlap, 0) == 0
  {
    var step := size - Shared(size, overlap);
    var far := if total > size then total - size else 0;
    var last := CeilDiv(far, step);
    hide CeilDiv;
    CeilDivBounds(far, step);
    OneMoreStep(w, step);
    TimesMonotone(w, last, step);
    if w < last {
      TimesMonotone(w + 1, last, step);
    }
  }

  /** The place of every window, in the two parameters alone, and their number: the least that reaches the end. */
  lemma WindowPlaces(total: nat, size: nat, overlap: nat, w: nat)
    requires size > 0 && total > 0 && w < WindowCount(total, size, overlap)
    ensures var o, n := if overlap < size then overlap else size - 1, WindowCount(total, size, overlap);
            && WindowStart(size, overlap, w) == w * (size - o) < total
            && WindowEnd(total, size, overlap, w) == Min(w * (size - o) + size, total)
            && (n - 1) * (size - o) + size >= total
            && (n > 1 ==> (n - 2) * (size - o) + size < total)
  {
    hide WindowCount;
    var n := WindowCount(total, size, overlap);
    LastWindowReachesEnd(total, size, overlap, w);
    LastWindowReachesEnd(total, size, overlap, n - 1);
    if n > 1 {
      LastWindowReachesEnd(total, size, overlap, n - 2);
    }
  }

  /** The last elements of a slice are the first of one that starts inside it. */
  lemma SlicesMeet<T>(s: seq<T>, from: nat, to: nat, next: nat, end: nat, o: nat)
    requires from <= next <= to == next + o <= end <= |s|
    ensures s[from..to][next - from..] == s[next..end][..o]
  {
  }

  /** Every window but the last is full, and its last elements are the first of its successor. */
  lemma NeighboursShare<T>(s: seq<T>, size: nat, overlap: nat, w: nat)
    requires size > 0 && s != [] && w + 1 < WindowCount(|s|, size, overlap)
    ensures var o, p, q := if overlap < size then overlap else size - 1,
                           Part(s, size, overlap, w), Part(s, size, overlap, w + 1);
            |p| == size && o < |q| && p[size - o..] == q[..o]
  {
    hide WindowCount, WindowStart, WindowEnd;
    WindowPlaces(|s|, size, overlap, w);
    WindowPlaces(|s|, size, overlap, w + 1);
    LastWindowReachesEnd(|s|, size, overlap, w);
    var o := if overlap < size then overlap else size - 1;
    var step, from, next := size - o, w * (size - o), (w + 1) * (size - o);
    OneMoreStep(w, step);
    assert next == from + step;
    var p, q := Part(s, size, overlap, w), Part(s, size, overlap, w + 1);
    assert p == s[from..from + size];
    assert q == s[next..Min(next + size, |s|)];
    assert next + o == from + size < |s|;
    SlicesMeet(s, from, from + size, next, Min(next + size, |s|), o);
  }

  /** Joins the windows again, dropping from each later one what it shares with its predecessor. */
  function Stitch<T>(parts: seq<seq<T>>, shared: nat): seq<T>
    decreases |parts|
  {
    if parts == [] then []
    else if |parts| == 1 then parts[0]
    else
      var last := parts[|parts| - 1];
      Stitch(parts[..|parts| - 1], shared) + if shared <= |last| then last[shared..] else []
  }

  /** Window `w` of a sequence. */
  function Part<T>(s: seq<T>, size: nat, overlap: nat, w: nat): (part: seq<T>)
    requires size > 0 && s != [] && w < WindowCount(|s|, size, overlap)
  {
    LastWindowReachesEnd(|s|, size, overlap, w);
    s[WindowStart(size, overlap, w)..WindowEnd(|s|, size, overlap, w)]
  }

  ghost function Parts<T>(s: seq<T>, size: nat, overlap: nat, n: nat): (parts: seq<seq<T>>)
    requires size > 0 && s != [] && n <= WindowCount(|s|, size, overlap)
    ensures |parts| == n
  {
    seq(n, w requires 0 <= w < n => Part(s, size, overlap, w))
  }

  /** Two neighbouring windows: the later one begins with what the earlier one ends with. */
  lemma Neighbours<T>(s: seq<T>, size: nat, overlap: nat, w: nat)
    requires size > 0 && s != [] && 0 < w < WindowCount(|s|, size, overlap)
    ensures WindowEnd(|s|, size, overlap, w - 1) <= WindowEnd(|s|, size, overlap, w) <= |s|
    ensures Shared(size, overlap) <= |Part(s, size, overlap, w)|
    ensures Part(s, size, overlap, w)[Shared(size, overlap)..]
         == s[WindowEnd(|s|, size, overlap, w - 1)..WindowEnd(|s|, size, overlap, w)]
  {
    hide WindowCount, WindowStart;
    LastWindowReachesEnd(|s|, size, overlap, w - 1);
    LastWindowReachesEnd(|s|, size, overlap, w);
  }

  lemma {:induction false} StitchPrefix<T>(s: seq<T>, size: nat, overlap: nat, n: nat)
    requires size > 0 && s != [] && 0 < n <= WindowCount(|s|, size, overlap)
    ensures WindowEnd(|s|, size, overlap, n - 1) <= |s|
    ensures Stitch(Parts(s, size, overlap, n), Shared(size, overlap)) == s[..WindowEnd(|s|, size, overlap, n - 1)]
  {
    hide WindowCount, WindowStart, Shared;
    var parts := Parts(s, size, overlap, n);
    LastWindowReachesEnd(|s|, size, overlap, n - 1);
    if n == 1 {
      LastWindowReachesEnd(|s|, size, overlap, 0);
      assert parts[0] == s[..WindowEnd(|s|, size, overlap, 0)];
    } else {
      hide Part, WindowEnd;
      StitchPrefix(s, size, overlap, n - 1);
      Neighbours(s, size, overlap, n - 1);
      var from, to := WindowEnd(|s|, size, overlap, n - 2), WindowEnd(|s|, size, overlap, n - 1);
      assert s[..from] + s[from..to] == s[..to];
      assert parts[..n - 1] == Parts(s, size, overlap, n - 1);
      assert parts[n - 1] == Part(s, size, overlap, n - 1);
    }
  }

  /** The windows, stitched together without what they share, are the sequence again. */
  lemma StitchRebuilds<T>(s: seq<T>, size: nat, overlap: nat)
    requires size > 0 && s != []
    ensures Stitch(Parts(s, size, overlap, WindowCount(|s|, size, overlap)), Shared(size, overlap)) == s
  {
    hide WindowStart, Shared;
    var n := WindowCount(|s|, size, overlap);
    StitchPrefix(s, size, overlap, n);
    LastWindowReachesEnd(|s|, size, overlap, n - 1);
    assert s[..|s|] == s;
  }
}
