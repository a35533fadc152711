/** Append-only logs of frames (src/manifest/mod.rs:31-75, src/wal/mod.rs:31-130): how a log is read back when its last
    frame is torn, and when more frames are appended behind the tear. */
module Framings {
  import opened Keys

  const U32_RANGE: nat := 0x1_0000_0000

  // ----- Lengths -----

  function ToLeBytes(n: nat): (bytes: Bytes)
    requires n < U32_RANGE
    ensures |bytes| == 4
  {
    [(n % 256) as Byte, (n / 256 % 256) as Byte, (n / 65536 % 256) as Byte, (n / 16777216) as Byte]
  }

  function FromLeBytes(bytes: Bytes): (n: nat)
    requires |bytes| == 4
    ensures n < U32_RANGE
  {
    bytes[0] as int + 256 * (bytes[1] as int) + 65536 * (bytes[2] as int) + 16777216 * (bytes[3] as int)
  }

  /** The byte order: the least significant byte comes first. */
  lemma LittleEndian(low: Byte, rest: nat)
    requires rest < U32_RANGE / 256
    ensures ToLeBytes(low as int + 256 * rest) == [low] + ToLeBytes(rest)[..3]
    ensures ToLeBytes(0) == [0, 0, 0, 0]
  {
    var n := low as int + 256 * rest;
    assert n / 256 == rest && n % 256 == low as int;
    assert n / 65536 == rest / 256 && n / 16777216 == rest / 65536;
  }

  /** A length is cast to 32 bits, so it can be read back exactly when it fits. */
  lemma HeaderExactIff(n: nat)
    ensures FromLeBytes(ToLeBytes(n % U32_RANGE)) == n <==> n < U32_RANGE
  {
    var m := n % U32_RANGE;
    var a, b, c := m / 256, m / 65536, m / 16777216;
    assert m == 256 * a + m % 256;
    assert a / 256 == b && a == 256 * b + a % 256;
    assert b / 256 == c && b == 256 * c + b % 256;
  }

  // ----- Frames -----

  /** How an item is written, and how the item at the front of a log is read, with the length of its frame. */
  datatype Framing<!T> = Framing(frame: T -> Bytes, next: Bytes -> Option<(T, nat)>)

  function Frames<T>(f: Framing<T>, xs: seq<T>): Bytes {
    if xs == [] then [] else f.frame(xs[0]) + Frames(f, xs[1..])
  }

  /** Reading takes frames off the front until one is torn or does not decode. */
  function Parse<T>(f: Framing<T>, log: Bytes): seq<T>
    decreases |log|
  {
    match f.next(log)
    case None => []
    case Some((x, n)) => if 0 < n <= |log| then [x] + Parse(f, log[n..]) else []
  }

  /** The frame of `x` reads back whatever follows it, and cut anywhere it reads as nothing. */
  ghost predicate Framed<T>(f: Framing<T>, x: T) {
    && |f.frame(x)| > 0
    && (forall tail: Bytes :: f.next(f.frame(x) + tail) == Some((x, |f.frame(x)|)))
    && (forall cut: nat | cut < |f.frame(x)| :: f.next(f.frame(x)[..cut]) == None)
  }

  ghost predicate AllFramed<T>(f: Framing<T>, xs: seq<T>) {
    forall i | 0 <= i < |xs| :: Framed(f, xs[i])
  }

  lemma {:induction false} FramesAppend<T>(f: Framing<T>, xs: seq<T>, more: seq<T>)
    ensures Frames(f, xs + more) == Frames(f, xs) + Frames(f, more)
  {
    if xs == [] {
      assert xs + more == more;
    } else {
      FramesAppend(f, xs[1..], more);
      assert (xs + more)[1..] == xs[1..] + more && (xs + more)[0] == xs[0];
      assert f.frame(xs[0]) + Frames(f, xs[1..]) + Frames(f, more)
        == f.frame(xs[0]) + (Frames(f, xs[1..]) + Frames(f, more));
    }
  }

  lemma FrameOfOne<T>(f: Framing<T>, x: T)
    ensures Frames(f, [x]) == f.frame(x)
  {
    assert Frames(f, [x]) == f.frame(x) + [];
  }

  lemma FrameFirst<T>(f: Framing<T>, x: T, tail: Bytes)
    requires Framed(f, x)
    ensures Parse(f, f.frame(x) + tail) == [x] + Parse(f, tail)
  {
    assert (f.frame(x) + tail)[|f.frame(x)|..] == tail;
  }

  /** Whatever follows the logged items, they are read first. */
  lemma {:induction false} FramesReadFirst<T>(f: Framing<T>, xs: seq<T>, tail: Bytes)
    requires AllFramed(f, xs)
    ensures Parse(f, Frames(f, xs) + tail) == xs + Parse(f, tail)
  {
    hide Framed, Parse;
    if xs == [] {
      assert Frames(f, xs) + tail == tail;
    } else {
      FramesReadFirst(f, xs[1..], tail);
      assert Frames(f, xs) + tail == f.frame(xs[0]) + (Frames(f, xs[1..]) + tail);
      FrameFirst(f, xs[0], Frames(f, xs[1..]) + tail);
      assert [xs[0]] + (xs[1..] + Parse(f, tail)) == xs + Parse(f, tail);
    }
  }

  lemma EmptyReads<T>(f: Framing<T>, xs: seq<T>)
    requires AllFramed(f, xs) && f.next([]) == None
    ensures Parse(f, Frames(f, xs)) == xs
  {
    FramesReadFirst(f, xs, []);
    assert Frames(f, xs) + [] == Frames(f, xs);
  }

  // ----- Torn logs -----

  /** `n` is the number of frames that lie wholly in the first `cut` bytes. */
  ghost predicate WholeFrames<T>(f: Framing<T>, xs: seq<T>, cut: nat, n: nat) {
    && n <= |xs|
    && |Frames(f, xs[..n])| <= cut
    && (n < |xs| ==> cut < |Frames(f, xs[..n + 1])|)
  }

  lemma {:induction false} WholeFramesExist<T>(f: Framing<T>, xs: seq<T>, cut: nat) returns (n: nat)
    ensures WholeFrames(f, xs, cut, n)
    decreases |xs|
  {
    assert xs[..|xs|] == xs;
    if |Frames(f, xs)| <= cut {
      n := |xs|;
    } else {
      var init := xs[..|xs| - 1];
      n := WholeFramesExist(f, init, cut);
      assert xs[..n] == init[..n];
      if n < |init| {
        assert xs[..n + 1] == init[..n + 1];
      } else {
        assert xs[..n + 1] == xs;
      }
    }
  }

  /** What is left behind the whole frames of a cut log: nothing, or a frame cut short. */
  function Torn<T>(f: Framing<T>, xs: seq<T>, cut: nat, n: nat): Bytes
    requires n <= |xs| && |Frames(f, xs[..n])| <= cut <= |Frames(f, xs)|
  {
    Frames(f, xs)[|Frames(f, xs[..n])|..cut]
  }

  /** The log around the frame of item `n`. */
  lemma FrameAt<T>(f: Framing<T>, xs: seq<T>, n: nat)
    requires n < |xs|
    ensures Frames(f, xs[..n + 1]) == Frames(f, xs[..n]) + f.frame(xs[n])
    ensures Frames(f, xs) == Frames(f, xs[..n + 1]) + Frames(f, xs[n + 1..])
  {
    hide Frames;
    FrameOfOne(f, xs[n]);
    assert xs[..n + 1] == xs[..n] + [xs[n]];
    FramesAppend(f, xs[..n], [xs[n]]);
    assert xs == xs[..n + 1] + xs[n + 1..];
    FramesAppend(f, xs[..n + 1], xs[n + 1..]);
  }

  lemma CutLog<T>(f: Framing<T>, xs: seq<T>, cut: nat, n: nat)
    requires cut <= |Frames(f, xs)| && WholeFrames(f, xs, cut, n)
    ensures Frames(f, xs)[..cut] == Frames(f, xs[..n]) + Torn(f, xs, cut, n)
    ensures if n == |xs| then Torn(f, xs, cut, n) == []
            else var size := cut - |Frames(f, xs[..n])|;
                 size < |f.frame(xs[n])| && Torn(f, xs, cut, n) == f.frame(xs[n])[..size]
  {
    hide Frames;
    if n == |xs| {
      assert xs[..n] == xs;
    } else {
      FrameAt(f, xs, n);
    }
  }

  /** Round trip with a torn tail: a log cut at any byte reads as exactly the items whose frames survived whole. */
  lemma TornLogReadsWholeFrames<T>(f: Framing<T>, xs: seq<T>, cut: nat) returns (n: nat)
    requires AllFramed(f, xs) && f.next([]) == None && cut <= |Frames(f, xs)|
    ensures WholeFrames(f, xs, cut, n) && Parse(f, Frames(f, xs)[..cut]) == xs[..n]
    ensures forall i: nat | WholeFrames(f, xs, cut, i) :: i == n
    ensures cut == |Frames(f, xs)| ==> n == |xs|
  {
    n := WholeFramesExist(f, xs, cut);
    WholeFramesReadBack(f, xs, cut, n);
    forall i: nat | WholeFrames(f, xs, cut, i) ensures i == n {
      WholeFramesReadBack(f, xs, cut, i);
      assert |xs[..i]| == |xs[..n]|;
    }
    assert xs[..|xs|] == xs;
    assert cut == |Frames(f, xs)| ==> WholeFrames(f, xs, cut, |xs|);
  }

  lemma WholeFramesReadBack<T>(f: Framing<T>, xs: seq<T>, cut: nat, n: nat)
    requires AllFramed(f, xs) && f.next([]) == None && cut <= |Frames(f, xs)| && WholeFrames(f, xs, cut, n)
    ensures Parse(f, Frames(f, xs)[..cut]) == xs[..n]
  {
    hide Frames;
    CutLog(f, xs, cut, n);
    FramesReadFirst(f, xs[..n], Torn(f, xs, cut, n));
    if n < |xs| {
      assert Framed(f, xs[n]);
    }
  }

  // ----- Appending behind a tear -----

  /** Frames appended to a cut log. */
  function Reopened<T>(f: Framing<T>, xs: seq<T>, cut: nat, more: seq<T>): Bytes
    requires cut <= |Frames(f, xs)|
  {
    Frames(f, xs)[..cut] + Frames(f, more)
  }

  lemma FramedPrefix<T>(f: Framing<T>, xs: seq<T>, n: nat)
    requires AllFramed(f, xs) && n <= |xs|
    ensures AllFramed(f, xs[..n])
  {
    hide Framed;
  }

  lemma NothingReadIff<T>(f: Framing<T>, log: Bytes)
    requires f.next(log).Some? ==> 0 < f.next(log).value.1 <= |log|
    ensures Parse(f, log) == [] <==> f.next(log) == None
  {
  }

  /** Neither the whole frames nor what is read from the tear on depends on the other; with no tear everything is read,
      and nothing behind the whole frames is, if and only if the bytes from the tear on do not begin with a frame. */
  lemma ReopenedReads<T>(f: Framing<T>, xs: seq<T>, cut: nat, more: seq<T>, n: nat)
    requires AllFramed(f, xs) && AllFramed(f, more) && f.next([]) == None
    requires forall log: Bytes | f.next(log).Some? :: 0 < f.next(log).value.1 <= |log|
    requires cut <= |Frames(f, xs)| && WholeFrames(f, xs, cut, n)
    ensures var torn, read := Torn(f, xs, cut, n), Parse(f, Reopened(f, xs, cut, more));
            && read == xs[..n] + Parse(f, torn + Frames(f, more))
            && (torn == [] ==> read == xs[..n] + more)
            && (read == xs[..n] <==> f.next(torn + Frames(f, more)) == None)
  {
    hide Frames, Framed, Parse, AllFramed;
    var torn := Torn(f, xs, cut, n);
    CutLog(f, xs, cut, n);
    FramedPrefix(f, xs, n);
    hide Torn;
    FramesReadFirst(f, xs[..n], torn + Frames(f, more));
    NothingReadIff(f, torn + Frames(f, more));
    assert Reopened(f, xs, cut, more) == Frames(f, xs[..n]) + (torn + Frames(f, more));
    if torn == [] {
      assert torn + Frames(f, more) == Frames(f, more);
      EmptyReads(f, more);
    }
  }
}
