/** Text as the chunkers see it: characters, their UTF-8 byte offsets, and white space. */
module Texts {

  /** The bytes UTF-8 needs for a character. */
  function Width(c: char): (w: nat)
    ensures 1 <= w <= 4
  {
    if c as int < 0x80 then 1 else if c as int < 0x800 then 2 else if c as int < 0x10000 then 3 else 4
  }

  /** The bits of a character number that `n` bytes of UTF-8 carry (section 3 of RFC 3629). */
  function BitsOf(n: nat): nat {
    if n <= 1 then 7 else 5 * n + 1
  }

  function Power2(n: nat): nat {
    if n == 0 then 1 else 2 * Power2(n - 1)
  }

  /** A character takes the fewest bytes that carry its number. */
  lemma WidthIsLeast(c: char)
    ensures (c as int) < Power2(BitsOf(Width(c)))
    ensures forall n: nat | 1 <= n < Width(c) :: c as int >= Power2(BitsOf(n))
  {
    assert Power2(7) == 0x80;
    assert Power2(11) == 0x10 * Power2(7);
    assert Power2(16) == 0x20 * Power2(11);
    assert Power2(21) == 0x20 * Power2(16);
    assert BitsOf(1) == 7 && BitsOf(2) == 11 && BitsOf(3) == 16 && BitsOf(4) == 21;
  }

  /** The Unicode White_Space property. */
  predicate Blank(c: char) {
    var n := c as int;
    || 0x9 <= n <= 0xD || n == 0x20 || n == 0x85 || n == 0xA0 || n == 0x1680 || 0x2000 <= n <= 0x200A
    || n == 0x2028 || n == 0x2029 || n == 0x202F || n == 0x205F || n == 0x3000
  }

  const WHITE_SPACE: string :=
    "\t\n\U{0B}\U{0C}\r \U{85}\U{A0}\U{1680}\U{2000}\U{2001}\U{2002}\U{2003}\U{2004}\U{2005}\U{2006}\U{2007}\U{2008}"
    + "\U{2009}\U{200A}\U{2028}\U{2029}\U{202F}\U{205F}\U{3000}"

  /** The twenty-five characters of white space. */
  lemma BlankIsWhiteSpace(c: char)
    ensures |WHITE_SPACE| == 25
    ensures Blank(c) <==> c in WHITE_SPACE
  {
  }

  function ByteLen(s: string): nat {
    if s == "" then 0 else ByteLen(s[..|s| - 1]) + Width(s[|s| - 1])
  }

  /** The byte offset of character `i`; `Offset(text, |text|)` is the length in bytes. */
  function Offset(text: string, i: nat): nat
    requires i <= |text|
  {
    ByteLen(text[..i])
  }

  lemma OffsetStep(text: string, i: nat)
    requires i < |text|
    ensures Offset(text, i + 1) == Offset(text, i) + Width(text[i])
  {
    assert text[..i + 1][..i] == text[..i];
  }

  lemma {:induction false} OffsetsAscend(text: string, i: nat, j: nat)
    requires i < j <= |text|
    ensures Offset(text, i) < Offset(text, j)
    decreases j - i
  {
    OffsetStep(text, j - 1);
    if i < j - 1 {
      OffsetsAscend(text, i, j - 1);
    }
  }

  // ----- Slicing by bytes -----

  ghost predicate Boundary(text: string, b: nat) {
    exists i: nat :: i <= |text| && Offset(text, i) == b
  }

  /** The character a boundary stands before. */
  function IndexAt(text: string, b: nat): (i: nat)
    requires Boundary(text, b)
    ensures i <= |text| && Offset(text, i) == b
  {
    assert text[..|text|] == text;
    if ByteLen(text) == b then |text|
    else
      var init := text[..|text| - 1];
      assert forall i | 0 <= i <= |init| :: init[..i] == text[..i];
      assert forall i: nat | i <= |init| :: Offset(init, i) == Offset(text, i);
      IndexAt(init, b)
  }

  /** Offsets are boundaries, each of one character only. */
  lemma OffsetsAreBoundaries(text: string, i: nat)
    requires i <= |text|
    ensures Boundary(text, Offset(text, i)) && IndexAt(text, Offset(text, i)) == i
  {
    var j := IndexAt(text, Offset(text, i));
    if i < j {
      OffsetsAscend(text, i, j);
    } else if j < i {
      OffsetsAscend(text, j, i);
    }
  }

  /** The slice between two byte offsets; slicing off a character boundary, or backwards, panics. */
  function Slice(text: string, from: nat, to: nat): string
    requires Boundary(text, from) && Boundary(text, to) && IndexAt(text, from) <= IndexAt(text, to)
  {
    text[IndexAt(text, from)..IndexAt(text, to)]
  }

  lemma SliceOfOffsets(text: string, i: nat, j: nat)
    requires i <= j <= |text|
    ensures Boundary(text, Offset(text, i)) && Boundary(text, Offset(text, j))
    ensures IndexAt(text, Offset(text, i)) <= IndexAt(text, Offset(text, j))
    ensures Slice(text, Offset(text, i), Offset(text, j)) == text[i..j]
  {
    OffsetsAreBoundaries(text, i);
    OffsetsAreBoundaries(text, j);
  }

  /** Every character with its byte offset. */
  method CharIndices(text: string) returns (chars: seq<(nat, char)>)
    ensures |chars| == |text| && forall i | 0 <= i < |text| :: chars[i] == (Offset(text, i), text[i])
  {
    chars := [];
    var offset := 0;
    for i := 0 to |text|
      invariant |chars| == i && offset == Offset(text, i)
      invariant forall j | 0 <= j < i :: chars[j] == (Offset(text, j), text[j])
    {
      OffsetStep(text, i);
      chars := chars + [(offset, text[i])];
      offset := offset + Width(text[i]);
    }
  }

  // ----- Trimming -----

  function TrimStart(s: string): string {
    if s != "" && Blank(s[0]) then TrimStart(s[1..]) else s
  }

  function TrimEnd(s: string): string {
    if s != "" && Blank(s[|s| - 1]) then TrimEnd(s[..|s| - 1]) else s
  }

  function Trim(s: string): string {
    TrimEnd(TrimStart(s))
  }

  lemma {:induction false} TrimStartCuts(s: string) returns (i: nat)
    ensures i <= |s| && TrimStart(s) == s[i..] && (forall k | 0 <= k < i :: Blank(s[k])) && (i < |s| ==> !Blank(s[i]))
  {
    if s != "" && Blank(s[0]) {
      var j := TrimStartCuts(s[1..]);
      i := j + 1;
      forall k | 0 <= k < i ensures Blank(s[k]) {
        assert k > 0 ==> s[k] == s[1..][k - 1];
      }
    } else {
      i := 0;
    }
  }

  lemma {:induction false} TrimEndCuts(s: string) returns (j: nat)
    ensures j <= |s| && TrimEnd(s) == s[..j] && (forall k | j <= k < |s| :: Blank(s[k])) && (j > 0 ==> !Blank(s[j - 1]))
  {
    if s != "" && Blank(s[|s| - 1]) {
      j := TrimEndCuts(s[..|s| - 1]);
    } else {
      j := |s|;
    }
  }

  /** Trimming cuts off exactly the white space at both ends. */
  lemma TrimCuts(s: string) returns (i: nat, j: nat)
    ensures i <= j <= |s| && Trim(s) == s[i..j]
    ensures (forall k | 0 <= k < i || j <= k < |s| :: Blank(s[k])) && (i < j ==> !Blank(s[i]) && !Blank(s[j - 1]))
  {
    i := TrimStartCuts(s);
    var n := TrimEndCuts(s[i..]);
    j := i + n;
    forall k | j <= k < |s| ensures Blank(s[k]) {
      assert s[k] == s[i..][k - i];
    }
  }

  /** The text without its white space. */
  function Squeeze(s: string): string {
    if s == "" then "" else Squeeze(s[..|s| - 1]) + if Blank(s[|s| - 1]) then "" else [s[|s| - 1]]
  }

  /** With `SqueezeJoin` this says which characters stay. */
  lemma SqueezeOne(c: char)
    ensures Squeeze([c]) == if Blank(c) then "" else [c]
  {
    assert [c][..0] == "";
  }

  lemma {:induction false} SqueezeJoin(s: string, t: string)
    ensures Squeeze(s + t) == Squeeze(s) + Squeeze(t)
  {
    if t == "" {
      assert s + t == s;
    } else {
      SqueezeJoin(s, t[..|t| - 1]);
      assert (s + t)[..|s + t| - 1] == s + t[..|t| - 1];
    }
  }

  lemma {:induction false} SqueezeTrimStart(s: string)
    ensures Squeeze(TrimStart(s)) == Squeeze(s)
  {
    if s != "" && Blank(s[0]) {
      SqueezeTrimStart(s[1..]);
      assert s == [s[0]] + s[1..];
      SqueezeJoin([s[0]], s[1..]);
      assert Squeeze([s[0]]) == "" by {
        assert [s[0]][..0] == "";
      }
    }
  }

  lemma {:induction false} SqueezeTrimEnd(s: string)
    ensures Squeeze(TrimEnd(s)) == Squeeze(s)
  {
    if s != "" && Blank(s[|s| - 1]) {
      SqueezeTrimEnd(s[..|s| - 1]);
    }
  }

  lemma SqueezeTrim(s: string)
    ensures Squeeze(Trim(s)) == Squeeze(s)
  {
    SqueezeTrimStart(s);
    SqueezeTrimEnd(TrimStart(s));
  }
}
