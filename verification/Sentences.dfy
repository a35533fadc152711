/** The sentence chunker (src/rag/chunker.rs:174-237). */
module SentenceChunkers {
  import opened Texts
  import opened Chunkers

  // ----- Where the document is cut -----

  /** A full stop, exclamation or question mark before white space, a quote or the end; or a line break. */
  predicate EndsSentence(text: string, i: nat)
    requires i < |text|
  {
    match text[i]
    case '.' | '!' | '?' => i + 1 == |text| || Blank(text[i + 1]) || text[i + 1] == '"' || text[i + 1] == '\''
    case '\n' => true
    case _ => false
  }

  /** A chunk from `s` may end before `e`: a sentence ends there and the trimmed text is long enough. */
  predicate CutAt(text: string, minimum: nat, s: nat, e: nat) {
    s < e <= |text| && EndsSentence(text, e - 1) && ByteLen(Trim(text[s..e])) >= minimum
  }

  ghost predicate NoCutBefore(text: string, minimum: nat, s: nat, e: nat) {
    forall x: nat | s < x < e :: !CutAt(text, minimum, s, x)
  }

  ghost predicate FirstCut(text: string, minimum: nat, s: nat, e: nat) {
    CutAt(text, minimum, s, e) && NoCutBefore(text, minimum, s, e)
  }

  ghost predicate Ascend(text: string, cuts: seq<nat>) {
    && cuts != [] && cuts[0] == 0
    && (forall i | 0 <= i < |cuts| :: cuts[i] <= |text|)
    && (forall i | 0 <= i < |cuts| - 1 :: cuts[i] < cuts[i + 1])
  }

  /** Each cut is the first possible one after its predecessor, up to character `seen`. */
  ghost predicate CutsUpTo(text: string, minimum: nat, cuts: seq<nat>, seen: nat) {
    && Ascend(text, cuts)
    && (forall i | 0 <= i < |cuts| - 1 :: FirstCut(text, minimum, cuts[i], cuts[i + 1]))
    && NoCutBefore(text, minimum, cuts[|cuts| - 1], seen + 1)
  }

  ghost predicate IsCuts(text: string, minimum: nat, cuts: seq<nat>) {
    CutsUpTo(text, minimum, cuts, |text|)
  }

  /** A document has one list of cuts. */
  lemma CutsUnique(text: string, minimum: nat, xs: seq<nat>, ys: seq<nat>)
    requires IsCuts(text, minimum, xs) && IsCuts(text, minimum, ys)
    ensures xs == ys
  {
    CutsPrefix(text, minimum, xs, ys, |xs| - 1);
    CutsPrefix(text, minimum, ys, xs, |ys| - 1);
  }

  lemma {:induction false} CutsPrefix(text: string, minimum: nat, xs: seq<nat>, ys: seq<nat>, n: nat)
    requires IsCuts(text, minimum, xs) && IsCuts(text, minimum, ys) && n < |xs|
    ensures n < |ys| && xs[..n + 1] == ys[..n + 1]
  {
    hide CutAt;
    if n > 0 {
      CutsPrefix(text, minimum, xs, ys, n - 1);
      assert xs[n - 1] == xs[..n][n - 1] == ys[..n][n - 1] == ys[n - 1];
      assert FirstCut(text, minimum, xs[n - 1], xs[n - 1 + 1]);
      if n < |ys| {
        assert FirstCut(text, minimum, ys[n - 1], ys[n - 1 + 1]);
      }
    }
  }

  // ----- The chunks -----

  function Piece(text: string, s: nat, e: nat): Chunk
    requires s <= e <= |text|
  {
    Chunk(Offset(text, s), Offset(text, e), Trim(text[s..e]))
  }

  ghost function Pieces(text: string, cuts: seq<nat>): (chunks: seq<Chunk>)
    requires Ascend(text, cuts)
    ensures |chunks| == |cuts| - 1
  {
    if |cuts| == 1 then []
    else
      var n := |cuts| - 1;
      assert cuts[n - 1] < cuts[n - 1 + 1];
      Pieces(text, cuts[..n]) + [Piece(text, cuts[n - 1], cuts[n])]
  }

  lemma {:induction false} PieceAt(text: string, cuts: seq<nat>, i: nat)
    requires Ascend(text, cuts) && i < |cuts| - 1
    ensures cuts[i] <= cuts[i + 1] <= |text| && Pieces(text, cuts)[i] == Piece(text, cuts[i], cuts[i + 1])
    decreases |cuts|
  {
    hide Piece;
    assert cuts[i] < cuts[i + 1];
    if i < |cuts| - 2 {
      PieceAt(text, cuts[..|cuts| - 1], i);
    }
  }

  /** A short remainder joins the last chunk; a longer one, or the only one, is a chunk of its own. */
  function WithRest(text: string, minimum: nat, chunks: seq<Chunk>, start: nat): seq<Chunk>
    requires start <= |text|
  {
    var rest := Trim(text[start..]);
    if rest == "" then chunks
    else if chunks != [] && ByteLen(rest) < minimum then
      var last := chunks[|chunks| - 1];
      chunks[..|chunks| - 1] + [Chunk(last.start, ByteLen(text), last.text + " " + rest)]
    else chunks + [Chunk(Offset(text, start), ByteLen(text), rest)]
  }

  ghost function SentenceChunks(text: string, minimum: nat, cuts: seq<nat>): seq<Chunk>
    requires Ascend(text, cuts)
  {
    WithRest(text, minimum, Pieces(text, cuts), cuts[|cuts| - 1])
  }

  lemma CutHere(text: string, minimum: nat, cuts: seq<nat>, i: nat)
    requires CutsUpTo(text, minimum, cuts, i) && i < |text| && CutAt(text, minimum, cuts[|cuts| - 1], i + 1)
    ensures CutsUpTo(text, minimum, cuts + [i + 1], i + 1)
    ensures Ascend(text, cuts + [i + 1])
  {
    hide CutAt, NoCutBefore;
    var after := cuts + [i + 1];
    CutInside(text, minimum, cuts[|cuts| - 1], i + 1);
    NoRoom(text, minimum, i + 1);
    FirstHere(text, minimum, cuts, i);
    forall j | 0 <= j < |after| - 1 ensures FirstCut(text, minimum, after[j], after[j + 1]) && after[j] < after[j + 1] {
      hide FirstCut;
      if j < |cuts| - 1 {
        assert FirstCut(text, minimum, cuts[j], cuts[j + 1]);
      }
    }
  }

  lemma FirstHere(text: string, minimum: nat, cuts: seq<nat>, i: nat)
    requires CutsUpTo(text, minimum, cuts, i) && i < |text| && CutAt(text, minimum, cuts[|cuts| - 1], i + 1)
    ensures FirstCut(text, minimum, cuts[|cuts| - 1], i + 1)
  {
    hide CutAt, NoCutBefore;
  }

  lemma PiecesStep(text: string, cuts: seq<nat>, e: nat)
    requires Ascend(text, cuts) && Ascend(text, cuts + [e])
    ensures cuts[|cuts| - 1] <= e <= |text|
    ensures Pieces(text, cuts + [e]) == Pieces(text, cuts) + [Piece(text, cuts[|cuts| - 1], e)]
  {
    hide Piece;
    var after := cuts + [e];
    assert after[|cuts| - 1] < after[|cuts| - 1 + 1];
    assert after[..|cuts|] == cuts;
  }

  lemma CutInside(text: string, minimum: nat, s: nat, e: nat)
    requires CutAt(text, minimum, s, e)
    ensures s < e <= |text|
  {
  }

  lemma NoRoom(text: string, minimum: nat, s: nat)
    ensures NoCutBefore(text, minimum, s, s + 1)
  {
  }

  lemma NoCutHere(text: string, minimum: nat, cuts: seq<nat>, i: nat)
    requires CutsUpTo(text, minimum, cuts, i) && i < |text| && !CutAt(text, minimum, cuts[|cuts| - 1], i + 1)
    ensures CutsUpTo(text, minimum, cuts, i + 1)
  {
  }

  lemma FirstCuts(text: string, minimum: nat)
    ensures CutsUpTo(text, minimum, [0], 0) && Pieces(text, [0]) == []
    ensures Offset(text, 0) == 0 && Offset(text, |text|) == ByteLen(text)
  {
    assert text[..|text|] == text;
  }

  method ChunkSentences(text: string, minimum: nat) returns (chunks: seq<Chunk>)
    ensures exists cuts: seq<nat> :: IsCuts(text, minimum, cuts) && chunks == SentenceChunks(text, minimum, cuts)
  {
    hide CutAt, CutsUpTo, Piece, Pieces, Offset, ByteLen, Trim, Slice, EndsSentence;
    chunks := [];
    ghost var cuts: seq<nat> := [0];
    FirstCuts(text, minimum);
    var chars := CharIndices(text);
    if |chars| == 0 {
      EmptyText(text, minimum);
      assert IsCuts(text, minimum, cuts) && chunks == SentenceChunks(text, minimum, cuts);
      return;
    }
    var start := 0;
    var i := 0;
    while i < |chars|
      invariant i <= |chars| && CutsUpTo(text, minimum, cuts, i) && Ascend(text, cuts) && cuts[|cuts| - 1] <= i
      invariant start == Offset(text, cuts[|cuts| - 1]) && chunks == Pieces(text, cuts)
    {
      var isSentenceEnd := EndsSentence(text, i);
      var nextByte := if i + 1 < |chars| then chars[i + 1].0 else ByteLen(text);
      ghost var from := cuts[|cuts| - 1];
      CutMeans(text, minimum, from, i + 1);
      SliceOfOffsets(text, from, i + 1);
      if isSentenceEnd {
        var trimmed := Trim(Slice(text, start, nextByte));
        if ByteLen(trimmed) >= minimum {
          CutHere(text, minimum, cuts, i);
          PieceIs(text, from, i + 1);
          PiecesStep(text, cuts, i + 1);
          chunks := chunks + [Chunk(start, nextByte, trimmed)];
          start := nextByte;
          cuts := cuts + [i + 1];
        } else {
          NoCutHere(text, minimum, cuts, i);
        }
      } else {
        NoCutHere(text, minimum, cuts, i);
      }
      i := i + 1;
    }
    ghost var from := cuts[|cuts| - 1];
    SliceOfOffsets(text, from, |text|);
    assert text[from..|text|] == text[from..];
    if start < ByteLen(text) {
      var trimmed := Trim(Slice(text, start, ByteLen(text)));
      if trimmed != "" {
        if chunks != [] {
          if ByteLen(trimmed) < minimum {
            var last := chunks[|chunks| - 1];
            chunks := chunks[|chunks| - 1 := Chunk(last.start, ByteLen(text), last.text + " " + trimmed)];
          } else {
            chunks := chunks + [Chunk(start, ByteLen(text), trimmed)];
          }
        } else {
          chunks := chunks + [Chunk(start, ByteLen(text), trimmed)];
        }
      }
    } else {
      NothingAfterEnd(text, from);
    }
    assert IsCuts(text, minimum, cuts) && chunks == SentenceChunks(text, minimum, cuts);
  }

  lemma CutMeans(text: string, minimum: nat, s: nat, e: nat)
    requires s < e <= |text|
    ensures CutAt(text, minimum, s, e) <==> EndsSentence(text, e - 1) && ByteLen(Trim(text[s..e])) >= minimum
  {
  }

  lemma PieceIs(text: string, s: nat, e: nat)
    requires s <= e <= |text|
    ensures Piece(text, s, e) == Chunk(Offset(text, s), Offset(text, e), Trim(text[s..e]))
  {
  }

  lemma EmptyText(text: string, minimum: nat)
    requires text == ""
    ensures IsCuts(text, minimum, [0]) && SentenceChunks(text, minimum, [0]) == []
  {
    assert text[0..] == "";
    assert Trim("") == "";
  }

  lemma NothingAfterEnd(text: string, i: nat)
    requires i <= |text| && Offset(text, i) >= ByteLen(text)
    ensures Trim(text[i..]) == ""
  {
    assert text[..|text|] == text;
    if i < |text| {
      OffsetsAscend(text, i, |text|);
    }
    assert text[i..] == "";
    assert Trim("") == "";
  }

  // ----- What the chunks keep -----

  function Concat(parts: seq<string>): string {
    if parts == [] then "" else Concat(parts[..|parts| - 1]) + parts[|parts| - 1]
  }

  lemma {:induction false} PiecesKeep(text: string, cuts: seq<nat>)
    requires Ascend(text, cuts)
    ensures Squeeze(Concat(ChunkTexts(Pieces(text, cuts)))) == Squeeze(text[..cuts[|cuts| - 1]])
    decreases |cuts|
  {
    hide Trim, Offset, ByteLen, Squeeze;
    if |cuts| == 1 {
      assert text[..0] == "";
    } else {
      var n := |cuts| - 1;
      var init, s, e := cuts[..n], cuts[n - 1], cuts[n - 1 + 1];
      PiecesKeep(text, init);
      var texts := ChunkTexts(Pieces(text, cuts));
      assert Pieces(text, cuts) == Pieces(text, init) + [Piece(text, s, e)];
      assert texts == ChunkTexts(Pieces(text, init)) + [Trim(text[s..e])];
      SqueezeJoin(Concat(texts[..n - 1]), texts[n - 1]);
      SqueezeTrim(text[s..e]);
      SqueezeJoin(text[..s], text[s..e]);
      assert text[..s] + text[s..e] == text[..e];
    }
  }

  /** Nothing but white space is lost, and the order is kept. */
  lemma SentencesLoseNothing(text: string, minimum: nat, cuts: seq<nat>)
    requires Ascend(text, cuts)
    ensures Squeeze(Concat(ChunkTexts(SentenceChunks(text, minimum, cuts)))) == Squeeze(text)
  {
    hide Trim, Offset, ByteLen, Squeeze, Concat, WithRest, Pieces;
    var chunks, start := Pieces(text, cuts), cuts[|cuts| - 1];
    var rest := Trim(text[start..]);
    PiecesKeep(text, cuts);
    SqueezeTrim(text[start..]);
    SqueezeJoin(text[..start], text[start..]);
    assert text[..start] + text[start..] == text;
    RestKeeps(text, minimum, chunks, start);
    SqueezeJoin(Concat(ChunkTexts(chunks)), rest);
  }

  lemma RestKeeps(text: string, minimum: nat, chunks: seq<Chunk>, start: nat)
    requires start <= |text|
    ensures Squeeze(Concat(ChunkTexts(WithRest(text, minimum, chunks, start))))
         == Squeeze(Concat(ChunkTexts(chunks)) + Trim(text[start..]))
  {
    hide Trim, ByteLen, Offset;
    var rest := Trim(text[start..]);
    var before, after := ChunkTexts(chunks), ChunkTexts(WithRest(text, minimum, chunks, start));
    if rest == "" {
      assert Concat(before) + rest == Concat(before);
    } else if chunks != [] && ByteLen(rest) < minimum {
      var n := |before| - 1;
      assert after[..n] == before[..n];
      assert after[n] == before[n] + " " + rest;
      assert Concat(after) == (Concat(before) + " ") + rest;
      SqueezeJoin(Concat(before) + " ", rest);
      SqueezeJoin(Concat(before), " ");
      SqueezeJoin(Concat(before), rest);
      assert Squeeze(" ") == "" by {
        assert " "[..0] == "";
      }
    } else {
      assert after[..|before|] == before;
    }
  }

  lemma EmptySqueeze()
    ensures Squeeze("") == ""
  {
  }

  /** The spans start at zero and follow one another without a gap; what lies after the last of them is blank. */
  lemma SentencesTile(text: string, minimum: nat, cuts: seq<nat>)
    requires Ascend(text, cuts)
    ensures var chunks := SentenceChunks(text, minimum, cuts);
            && (chunks == [] ==> Squeeze(text) == "")
            && (chunks != [] ==> chunks[0].start == 0)
            && (forall i | 0 <= i < |chunks| - 1 :: chunks[i].end == chunks[i + 1].start)
            && (chunks != [] ==> exists e: nat ::
                  e <= |text| && chunks[|chunks| - 1].end == Offset(text, e) && Squeeze(text[e..]) == "")
  {
    hide Trim, ByteLen, Squeeze, Pieces;
    var chunks, start := SentenceChunks(text, minimum, cuts), cuts[|cuts| - 1];
    var rest := Trim(text[start..]);
    EmptySqueeze();
    SqueezeTrim(text[start..]);
    assert text[..|text|] == text && text[|text|..] == "" && text[0..] == text;
    FirstCuts(text, minimum);
    var e := if rest == "" then start else |text|;
    forall i | 0 <= i < |cuts| - 1
      ensures Pieces(text, cuts)[i].start == Offset(text, cuts[i])
              && Pieces(text, cuts)[i].end == Offset(text, cuts[i + 1])
    {
      PieceAt(text, cuts, i);
    }
    assert chunks != [] ==> chunks[|chunks| - 1].end == Offset(text, e) && Squeeze(text[e..]) == "";
  }

  /** The document is cut behind a line break, or behind a full stop, exclamation or question mark that white space, a
      quote or the end follows; and where such a place is passed over, the trimmed text up to it is too short. */
  lemma CutsAreFirstLongEnough(text: string, minimum: nat, cuts: seq<nat>, i: nat, x: nat)
    requires IsCuts(text, minimum, cuts) && i < |cuts| && cuts[i] < x <= |text|
    requires i + 1 < |cuts| ==> x <= cuts[i + 1]
    ensures var c := text[x - 1];
            var ends := c == '\n' || ((c == '.' || c == '!' || c == '?')
                                      && (x == |text| || Blank(text[x]) || text[x] == '"' || text[x] == '\''));
            if i + 1 < |cuts| && x == cuts[i + 1] then ends && ByteLen(Trim(text[cuts[i]..x])) >= minimum
            else !ends || ByteLen(Trim(text[cuts[i]..x])) < minimum
  {
    hide Trim, ByteLen, Blank;
    if i + 1 < |cuts| {
      assert FirstCut(text, minimum, cuts[i], cuts[i + 1]);
    }
    CutMeans(text, minimum, cuts[i], x);
  }

  /** The text of every chunk: the trimmed span between two cuts; and for what lies behind the last cut, unless it is
      blank, either a chunk of its own or, when it is too short and not alone, a space and the trimmed remainder on the
      last chunk. */
  lemma SentenceTexts(text: string, minimum: nat, cuts: seq<nat>)
    requires Ascend(text, cuts)
    ensures var chunks, n := SentenceChunks(text, minimum, cuts), |cuts| - 1;
            var rest := Trim(text[cuts[n]..]);
            && (forall i | 0 <= i < n && i < |chunks| - 1 ::
                  cuts[i] <= cuts[i + 1] && chunks[i].text == Trim(text[cuts[i]..cuts[i + 1]]))
            && if rest == "" then
                 && |chunks| == n
                 && (n > 0 ==> cuts[n - 1] <= cuts[n] && chunks[n - 1].text == Trim(text[cuts[n - 1]..cuts[n]]))
               else if n > 0 && ByteLen(rest) < minimum then
                 && |chunks| == n && cuts[n - 1] <= cuts[n] && chunks[n - 1].end == ByteLen(text)
                 && chunks[n - 1].text == Trim(text[cuts[n - 1]..cuts[n]]) + " " + rest
               else
                 && |chunks| == n + 1 && chunks[n] == Chunk(Offset(text, cuts[n]), ByteLen(text), rest)
                 && (n > 0 ==> cuts[n - 1] <= cuts[n] && chunks[n - 1].text == Trim(text[cuts[n - 1]..cuts[n]]))
  {
    hide Trim, ByteLen, Offset;
    var n := |cuts| - 1;
    forall i | 0 <= i < n ensures cuts[i] <= cuts[i + 1]
                                  && Pieces(text, cuts)[i].text == Trim(text[cuts[i]..cuts[i + 1]])
    {
      PieceAt(text, cuts, i);
    }
    assert n > 0 ==> cuts[n - 1] < cuts[n - 1 + 1];
    assert n > 0 ==> Pieces(text, cuts)[n - 1].text == Trim(text[cuts[n - 1]..cuts[n - 1 + 1]]);
  }

  /** Only a document that makes a single chunk can make one below the minimum. */
  lemma SentencesReachMinimum(text: string, minimum: nat, cuts: seq<nat>)
    requires IsCuts(text, minimum, cuts)
    ensures var chunks := SentenceChunks(text, minimum, cuts);
            |chunks| > 1 ==> forall c | c in chunks :: ByteLen(c.text) >= minimum
  {
    hide Trim, Offset, ByteLen, NoCutBefore, EndsSentence;
    var pieces, rest := Pieces(text, cuts), Trim(text[cuts[|cuts| - 1]..]);
    forall i | 0 <= i < |pieces| ensures ByteLen(pieces[i].text) >= minimum {
      PieceAt(text, cuts, i);
      assert FirstCut(text, minimum, cuts[i], cuts[i + 1]);
    }
    if pieces != [] {
      var last := pieces[|pieces| - 1];
      ByteLenGrows(last.text, " " + rest);
      assert last.text + (" " + rest) == last.text + " " + rest;
    }
  }

  lemma {:induction false} ByteLenGrows(s: string, t: string)
    ensures ByteLen(s + t) >= ByteLen(s)
  {
    if t == "" {
      assert s + t == s;
    } else {
      ByteLenGrows(s, t[..|t| - 1]);
      assert (s + t)[..|s + t| - 1] == s + t[..|t| - 1];
    }
  }
}
