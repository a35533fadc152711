/** The fixed-window chunkers (src/rag/chunker.rs:29-132). */
module Chunkers {
  import opened Lists
  import opened Texts
  import opened Windows

  /** Byte offsets into the document and the text between them. */
  datatype Chunk = Chunk(start: nat, end: nat, text: string)

  // ----- Dropping small windows -----

  function BigEnough(chunks: seq<Chunk>, minimum: nat): seq<Chunk> {
    if chunks == [] then []
    else
      var last := chunks[|chunks| - 1];
      BigEnough(chunks[..|chunks| - 1], minimum) + if ByteLen(Trim(last.text)) >= minimum then [last] else []
  }

  /** The windows of at least the minimum size; when there is none, the last window alone. */
  function Kept(chunks: seq<Chunk>, minimum: nat): seq<Chunk>
    requires chunks != []
  {
    var big := BigEnough(chunks, minimum);
    if big == [] then [chunks[|chunks| - 1]] else big
  }

  lemma {:induction false} NoMinimumKeepsAll(chunks: seq<Chunk>)
    ensures BigEnough(chunks, 0) == chunks
    ensures chunks != [] ==> Kept(chunks, 0) == chunks
  {
    if chunks != [] {
      NoMinimumKeepsAll(chunks[..|chunks| - 1]);
      assert chunks == chunks[..|chunks| - 1] + [chunks[|chunks| - 1]];
    }
  }

  /** Which windows stay, in their order: all that reach the minimum; or, when none does, the last. */
  lemma KeptWindows(windows: seq<Chunk>, minimum: nat) returns (places: seq<nat>)
    requires windows != []
    ensures Picks(windows, places, Kept(windows, minimum)) && places != []
    ensures forall i, j | 0 <= i < j < |places| :: places[i] < places[j]
    ensures forall w | w in places :: ByteLen(Trim(windows[w].text)) >= minimum || places == [|windows| - 1]
    ensures forall w | 0 <= w < |windows| && ByteLen(Trim(windows[w].text)) >= minimum :: w in places
  {
    hide Trim, ByteLen, BigEnough;
    places := BigEnoughPlaces(windows, minimum);
    if places == [] {
      places := [|windows| - 1];
    } else {
      forall w | w in places ensures ByteLen(Trim(windows[w].text)) >= minimum {
      }
    }
  }

  /** The windows at these places. */
  ghost predicate Picks(windows: seq<Chunk>, places: seq<nat>, chunks: seq<Chunk>) {
    && |chunks| == |places| && (forall w | w in places :: w < |windows|)
    && forall i | 0 <= i < |places| :: places[i] < |windows| && chunks[i] == windows[places[i]]
  }

  /** The places of the windows that reach the minimum. */
  ghost predicate AreBigPlaces(windows: seq<Chunk>, minimum: nat, places: seq<nat>) {
    && (forall w | w in places :: w < |windows|)
    && (forall i, j | 0 <= i < j < |places| :: places[i] < places[j])
    && (forall w | 0 <= w < |windows| :: w in places <==> ByteLen(Trim(windows[w].text)) >= minimum)
  }

  lemma {:induction false} BigEnoughPlaces(windows: seq<Chunk>, minimum: nat) returns (places: seq<nat>)
    ensures AreBigPlaces(windows, minimum, places)
    ensures Picks(windows, places, BigEnough(windows, minimum))
  {
    hide AreBigPlaces, Picks;
    if windows == [] {
      places := [];
      NoPlaces(minimum);
    } else {
      var init, c := windows[..|windows| - 1], windows[|windows| - 1];
      assert windows == init + [c];
      var before := BigEnoughPlaces(init, minimum);
      places := if ByteLen(Trim(c.text)) >= minimum then before + [|init|] else before;
      OneMorePlace(init, c, minimum, before);
      BigEnoughStep(init, c, minimum);
      assert BigEnough(init, minimum) + [] == BigEnough(init, minimum);
      PicksMore(init, before, BigEnough(init, minimum), c, ByteLen(Trim(c.text)) >= minimum);
    }
  }

  lemma NoPlaces(minimum: nat)
    ensures AreBigPlaces([], minimum, []) && Picks([], [], BigEnough([], minimum))
  {
  }

  lemma PicksMore(windows: seq<Chunk>, places: seq<nat>, chunks: seq<Chunk>, c: Chunk, picked: bool)
    requires Picks(windows, places, chunks)
    ensures Picks(windows + [c], if picked then places + [|windows|] else places,
                  if picked then chunks + [c] else chunks)
  {
    forall i | 0 <= i < |places| ensures places[i] < |windows| && chunks[i] == (windows + [c])[places[i]] {
    }
  }

  lemma OneMorePlace(windows: seq<Chunk>, c: Chunk, minimum: nat, places: seq<nat>)
    requires AreBigPlaces(windows, minimum, places)
    ensures AreBigPlaces(windows + [c], minimum,
                         if ByteLen(Trim(c.text)) >= minimum then places + [|windows|] else places)
  {
    hide Trim, ByteLen;
    var more := if ByteLen(Trim(c.text)) >= minimum then places + [|windows|] else places;
    forall i | 0 <= i < |places| ensures places[i] < |windows| {
      assert places[i] in places;
    }
    forall w | 0 <= w < |windows| + 1
      ensures w in more <==> ByteLen(Trim((windows + [c])[w].text)) >= minimum
    {
      assert w in more <==> w in places || (w == |windows| && |more| > |places|);
      assert w == |windows| ==> w !in places;
    }
  }

  lemma BigEnoughStep(chunks: seq<Chunk>, c: Chunk, minimum: nat)
    ensures BigEnough(chunks + [c], minimum)
         == BigEnough(chunks, minimum) + if ByteLen(Trim(c.text)) >= minimum then [c] else []
  {
    assert (chunks + [c])[..|chunks|] == chunks;
  }

  // ----- Windows of characters -----

  function CharWindow(text: string, size: nat, overlap: nat, w: nat): Chunk
    requires size > 0 && text != "" && w < WindowCount(|text|, size, overlap)
  {
    LastWindowReachesEnd(|text|, size, overlap, w);
    var from, to := WindowStart(size, overlap, w), WindowEnd(|text|, size, overlap, w);
    Chunk(Offset(text, from), Offset(text, to), Part(text, size, overlap, w))
  }

  ghost function CharWindows(text: string, size: nat, overlap: nat, n: nat): (chunks: seq<Chunk>)
    requires size > 0 && text != "" && n <= WindowCount(|text|, size, overlap)
    ensures |chunks| == n
  {
    seq(n, w requires 0 <= w < n => CharWindow(text, size, overlap, w))
  }

  /** What one round of the loop adds. */
  lemma NextCharWindow(text: string, size: nat, overlap: nat, w: nat, start: nat)
    requires size > 0 && text != "" && w < WindowCount(|text|, size, overlap) && start == WindowStart(size, overlap, w)
    ensures start < |text| && (start + size >= |text| <==> w + 1 == WindowCount(|text|, size, overlap))
    ensures WindowStart(size, overlap, w + 1) == start + size - Shared(size, overlap)
    ensures CharWindows(text, size, overlap, w + 1)
         == CharWindows(text, size, overlap, w)
          + [Chunk(Offset(text, start), Offset(text, Min(start + size, |text|)),
                   text[start..Min(start + size, |text|)])]
  {
    hide WindowCount, WindowStart, Shared, Offset;
    LastWindowReachesEnd(|text|, size, overlap, w);
  }

  lemma FirstCharWindow(text: string, size: nat, overlap: nat, minimum: nat)
    requires size > 0 && text != ""
    ensures WindowCount(|text|, size, overlap) > 0 && WindowStart(size, overlap, 0) == 0
    ensures BigEnough(CharWindows(text, size, overlap, 0), minimum) == []
    ensures Offset(text, |text|) == ByteLen(text)
  {
    assert text[..|text|] == text;
  }

  method ChunkFixedChars(text: string, size: nat, overlap: nat, minimum: nat) returns (chunks: seq<Chunk>)
    ensures size == 0 || text == "" ==> chunks == []
    ensures size > 0 && text != "" ==>
              chunks == Kept(CharWindows(text, size, overlap, WindowCount(|text|, size, overlap)), minimum)
  {
    if size == 0 {
      return [];
    }
    var chars := CharIndices(text);
    if chars == [] {
      return [];
    }
    hide WindowCount, WindowStart, BigEnough, Trim, ByteLen, CharWindows, Stitch;
    var step := size - Shared(size, overlap);
    chunks := [];
    var start := 0;
    ghost var w, count := 0, WindowCount(|text|, size, overlap);
    FirstCharWindow(text, size, overlap, minimum);
    while start < |chars|
      invariant w < count && start == WindowStart(size, overlap, w) < |text|
      invariant chunks == BigEnough(CharWindows(text, size, overlap, w), minimum)
      decreases |chars| - start
    {
      NextCharWindow(text, size, overlap, w, start);
      var end := Min(start + size, |chars|);
      var byteStart := chars[start].0;
      var byteEnd := if end < |chars| then chars[end].0 else ByteLen(text);
      SliceOfOffsets(text, start, end);
      var slice := Slice(text, byteStart, byteEnd);
      BigEnoughStep(CharWindows(text, size, overlap, w), Chunk(byteStart, byteEnd, slice), minimum);
      if ByteLen(Trim(slice)) >= minimum || (chunks == [] && end >= |chars|) {
        chunks := chunks + [Chunk(byteStart, byteEnd, slice)];
      }
      if end >= |chars| {
        break;
      }
      start := start + step;
      w := w + 1;
    }
  }

  /** The chunk is the slice of the document between its byte offsets, which fall on character boundaries. */
  ghost predicate IsSlice(text: string, c: Chunk) {
    && Boundary(text, c.start) && Boundary(text, c.end)
    && IndexAt(text, c.start) < IndexAt(text, c.end)
    && c.text == Slice(text, c.start, c.end)
  }

  lemma SliceIsSlice(text: string, i: nat, j: nat)
    requires i < j <= |text|
    ensures IsSlice(text, Chunk(Offset(text, i), Offset(text, j), text[i..j]))
  {
    OffsetsAreBoundaries(text, i);
    OffsetsAreBoundaries(text, j);
  }

  /** Without a minimum the chunks rebuild the document: the first, then each later one without the characters it shares
      with its predecessor. */
  lemma FixedCharsRebuild(text: string, size: nat, overlap: nat, chunks: seq<Chunk>)
    requires size > 0 && text != ""
    requires chunks == Kept(CharWindows(text, size, overlap, WindowCount(|text|, size, overlap)), 0)
    ensures var shared := if overlap < size then overlap else size - 1;
            && Stitch(ChunkTexts(chunks), shared) == text
            && |chunks| == 1 + CeilDiv(if |text| > size then |text| - size else 0, size - shared)
    ensures forall c | c in chunks :: IsSlice(text, c)
  {
    hide WindowStart, Shared, IsSlice, Part, Stitch, BigEnough, Kept;
    SharedIs(size, overlap);
    var n := WindowCount(|text|, size, overlap);
    NoMinimumKeepsAll(CharWindows(text, size, overlap, n));
    StitchRebuilds(text, size, overlap);
    assert ChunkTexts(chunks) == Parts(text, size, overlap, n);
    forall w: nat | w < n ensures IsSlice(text, chunks[w]) {
      CharWindowIsSlice(text, size, overlap, w);
    }
  }

  /** The chunks in `size` and `overlap` alone, without a minimum: where each one lies, what it shares with its
      successor, and how many there are. */
  lemma FixedCharsOverlap(text: string, size: nat, overlap: nat, chunks: seq<Chunk>, w: nat, o: nat, from: nat)
    requires size > 0 && text != "" && w < |chunks|
    requires chunks == Kept(CharWindows(text, size, overlap, WindowCount(|text|, size, overlap)), 0)
    requires o == (if overlap < size then overlap else size - 1) && from == w * (size - o)
    ensures from < |text|
    ensures from + size < |text| <==> w + 1 < |chunks|
    ensures var to := if from + size < |text| then from + size else |text|;
            chunks[w] == Chunk(Offset(text, from), Offset(text, to), text[from..to])
    ensures w + 1 < |chunks| ==>
              |chunks[w].text| == size && o < |chunks[w + 1].text|
              && chunks[w].text[size - o..] == chunks[w + 1].text[..o]
  {
    hide WindowCount, WindowStart, WindowEnd, Shared, Kept, BigEnough, Offset, Part;
    var n := WindowCount(|text|, size, overlap);
    FirstCharWindow(text, size, overlap, 0);
    NoMinimumKeepsAll(CharWindows(text, size, overlap, n));
    CharWindowAt(text, size, overlap, w, o, from);
    assert chunks[w] == CharWindow(text, size, overlap, w);
    if w + 1 < n {
      NeighboursShare(text, size, overlap, w);
      assert chunks[w + 1] == CharWindow(text, size, overlap, w + 1);
    }
  }

  lemma CharWindowAt(text: string, size: nat, overlap: nat, w: nat, o: nat, from: nat)
    requires size > 0 && text != "" && w < WindowCount(|text|, size, overlap)
    requires o == (if overlap < size then overlap else size - 1) && from == w * (size - o)
    ensures from < |text| && (from + size < |text| <==> w + 1 < WindowCount(|text|, size, overlap))
    ensures var to := if from + size < |text| then from + size else |text|;
            CharWindow(text, size, overlap, w) == Chunk(Offset(text, from), Offset(text, to), text[from..to])
  {
    hide WindowCount, WindowStart, WindowEnd, Shared, Offset;
    WindowPlaces(|text|, size, overlap, w);
    LastWindowReachesEnd(|text|, size, overlap, w);
  }

  lemma CharWindowIsSlice(text: string, size: nat, overlap: nat, w: nat)
    requires size > 0 && text != "" && w < WindowCount(|text|, size, overlap)
    ensures IsSlice(text, CharWindow(text, size, overlap, w))
  {
    hide WindowCount, WindowStart, Shared, IsSlice;
    LastWindowReachesEnd(|text|, size, overlap, w);
    SliceIsSlice(text, WindowStart(size, overlap, w), WindowEnd(|text|, size, overlap, w));
  }

  ghost function ChunkTexts(chunks: seq<Chunk>): seq<string> {
    seq(|chunks|, i requires 0 <= i < |chunks| => chunks[i].text)
  }

  // ----- Windows of words -----

  /** A span of characters. */
  type Span = (nat, nat)

  /** A maximal run of characters that are not white space. */
  ghost predicate IsWord(text: string, w: Span) {
    && w.0 < w.1 <= |text|
    && (forall k | w.0 <= k < w.1 :: !Blank(text[k]))
    && (w.0 == 0 || Blank(text[w.0 - 1]))
    && (w.1 == |text| || Blank(text[w.1]))
  }

  ghost predicate InOrder(words: seq<Span>) {
    forall i, j | 0 <= i < j < |words| :: words[i].1 < words[j].0
  }

  /** All the words of the text, in order. */
  ghost predicate IsWords(text: string, words: seq<Span>) {
    && (forall w | w in words :: IsWord(text, w))
    && InOrder(words)
    && (forall k | 0 <= k < |text| && !Blank(text[k]) :: exists w :: w in words && w.0 <= k < w.1)
  }

  lemma SameWord(text: string, v: Span, w: Span, k: nat)
    requires IsWord(text, v) && IsWord(text, w) && v.0 <= k < v.1 && w.0 <= k < w.1
    ensures v == w
  {
    assert forall u | u == v || u == w :: u.0 == 0 || Blank(text[u.0 - 1]);
    assert forall u | u == v || u == w :: u.1 == |text| || Blank(text[u.1]);
  }

  /** A text has one list of words. */
  lemma WordsUnique(text: string, xs: seq<Span>, ys: seq<Span>)
    requires IsWords(text, xs) && IsWords(text, ys)
    ensures xs == ys
  {
    WordsInBoth(text, xs, ys);
    WordsInBoth(text, ys, xs);
    assert forall w | w in xs :: IsWord(text, w);
    MembersDetermine(SpanBefore, xs, ys);
  }

  lemma WordsInBoth(text: string, xs: seq<Span>, ys: seq<Span>)
    requires IsWords(text, xs) && IsWords(text, ys)
    ensures forall w | w in xs :: w in ys
  {
    forall w | w in xs ensures w in ys {
      assert IsWord(text, w) && !Blank(text[w.0]);
      var v :| v in ys && v.0 <= w.0 < v.1;
      SameWord(text, v, w, w.0);
    }
  }

  predicate SpanBefore(v: Span, w: Span) {
    v.1 < w.0
  }

  function ByteSpan(text: string, w: Span): Span
    requires w.0 <= |text| && w.1 <= |text|
  {
    (Offset(text, w.0), Offset(text, w.1))
  }

  /** The scan at character `i`: complete words, and perhaps one begun at `open`. */
  ghost predicate Scanned(text: string, i: nat, words: seq<Span>, open: int) {
    && i <= |text| && -1 <= open < i
    && (forall w | w in words :: IsWord(text, w) && w.1 < if open >= 0 then open else i)
    && InOrder(words)
    && (if open < 0 then i == 0 || Blank(text[i - 1])
        else (open == 0 || Blank(text[open - 1])) && forall k | open <= k < i :: !Blank(text[k]))
    && (forall k | 0 <= k < i && !Blank(text[k]) :: (exists w :: w in words && w.0 <= k < w.1) || 0 <= open <= k)
  }

  lemma CloseWord(text: string, i: nat, words: seq<Span>, open: int)
    requires Scanned(text, i, words, open) && open >= 0 && (i == |text| || Blank(text[i]))
    ensures IsWord(text, (open, i))
    ensures i < |text| ==> Scanned(text, i + 1, words + [(open, i)], -1)
    ensures i == |text| ==> IsWords(text, words + [(open, i)])
  {
    var after := words + [(open, i)];
    assert forall w :: w in after <==> w in words || w == (open, i);
    forall a, b | 0 <= a < b < |after| ensures after[a].1 < after[b].0 {
      assert after[a] in words;
    }
  }

  lemma StepWord(text: string, i: nat, words: seq<Span>, open: int)
    requires Scanned(text, i, words, open) && i < |text| && (Blank(text[i]) ==> open < 0)
    ensures Scanned(text, i + 1, words, if Blank(text[i]) then -1 else if open >= 0 then open else i)
  {
  }

  /** The byte offsets of a list of words. */
  ghost predicate SpansOf(text: string, words: seq<Span>, spans: seq<Span>) {
    && |spans| == |words|
    && (forall i | 0 <= i < |words| :: words[i].0 <= |text| && words[i].1 <= |text|
          && spans[i] == ByteSpan(text, words[i]))
  }

  /** Splits the text at white space. */
  method TokenSpans(text: string) returns (spans: seq<Span>)
    ensures exists words :: IsWords(text, words) && SpansOf(text, words, spans)
  {
    ghost var words: seq<Span> := [];
    hide IsWord, IsWords, Offset, Scanned, InOrder;
    var chars := CharIndices(text);
    spans := [];
    var startIdx: int := -1;
    ghost var open: int := -1;
    NothingScanned(text);
    for i := 0 to |chars|
      invariant Scanned(text, i, words, open) && |spans| == |words|
      invariant if open < 0 then startIdx == -1 else open < i && startIdx == Offset(text, open)
      invariant SpansOf(text, words, spans)
    {
      var (byteIdx, ch) := chars[i];
      if Blank(ch) && startIdx >= 0 {
        CloseWord(text, i, words, open);
        spans, words := spans + [(startIdx, byteIdx)], words + [(open, i)];
        startIdx, open := -1, -1;
      } else {
        StepWord(text, i, words, open);
        if !Blank(ch) && startIdx < 0 {
          startIdx, open := byteIdx, i;
        }
      }
    }
    ScanEnds(text, words, open);
    WholeText(text);
    if startIdx >= 0 {
      spans, words := spans + [(startIdx, ByteLen(text))], words + [(open, |text|)];
    }
  }

  lemma NothingScanned(text: string)
    ensures Scanned(text, 0, [], -1)
  {
  }

  lemma WholeText(text: string)
    ensures Offset(text, |text|) == ByteLen(text)
  {
    assert text[..|text|] == text;
  }

  lemma ScanEnds(text: string, words: seq<Span>, open: int)
    requires Scanned(text, |text|, words, open)
    ensures open < |text|
    ensures var all := if open >= 0 then words + [(open, |text|)] else words;
            IsWords(text, all) && forall w | w in all :: IsWord(text, w)
  {
    if open >= 0 {
      CloseWord(text, |text|, words, open);
    }
  }

  lemma WordRange(text: string, words: seq<Span>, i: nat, j: nat)
    requires IsWords(text, words) && i < j <= |words|
    ensures words[i].0 < words[j - 1].1 <= |text|
  {
    assert IsWord(text, words[i]) && IsWord(text, words[j - 1]);
  }

  /** From the first character of a window's first word to the last character of its last word. */
  ghost function TokenWindow(text: string, words: seq<Span>, size: nat, overlap: nat, w: nat): Chunk
    requires IsWords(text, words) && size > 0 && words != [] && w < WindowCount(|words|, size, overlap)
  {
    LastWindowReachesEnd(|words|, size, overlap, w);
    var from, to := WindowStart(size, overlap, w), WindowEnd(|words|, size, overlap, w);
    WordRange(text, words, from, to);
    Chunk(Offset(text, words[from].0), Offset(text, words[to - 1].1), text[words[from].0..words[to - 1].1])
  }

  ghost function TokenWindows(text: string, words: seq<Span>, size: nat, overlap: nat, n: nat): (chunks: seq<Chunk>)
    requires IsWords(text, words) && size > 0 && words != [] && n <= WindowCount(|words|, size, overlap)
    ensures |chunks| == n
  {
    seq(n, w requires 0 <= w < n => TokenWindow(text, words, size, overlap, w))
  }

  lemma NextTokenWindow(text: string, words: seq<Span>, size: nat, overlap: nat, w: nat, start: nat, end: nat)
    requires IsWords(text, words) && size > 0 && words != [] && w < WindowCount(|words|, size, overlap)
    requires start == WindowStart(size, overlap, w) && end == Min(start + size, |words|)
    ensures start < end && (start + size >= |words| <==> w + 1 == WindowCount(|words|, size, overlap))
    ensures WindowStart(size, overlap, w + 1) == start + size - Shared(size, overlap)
    ensures words[start].0 < words[end - 1].1 <= |text|
    ensures TokenWindows(text, words, size, overlap, w + 1)
         == TokenWindows(text, words, size, overlap, w)
          + [Chunk(Offset(text, words[start].0), Offset(text, words[end - 1].1),
                   text[words[start].0..words[end - 1].1])]
  {
    hide WindowCount, WindowStart, Shared, Offset, IsWords;
    LastWindowReachesEnd(|words|, size, overlap, w);
    WordRange(text, words, start, end);
  }

  lemma FirstTokenWindow(text: string, words: seq<Span>, size: nat, overlap: nat, minimum: nat)
    requires IsWords(text, words) && size > 0 && words != []
    ensures WindowCount(|words|, size, overlap) > 0 && WindowStart(size, overlap, 0) == 0
    ensures BigEnough(TokenWindows(text, words, size, overlap, 0), minimum) == []
  {
  }

  /** The chunks of the words: the windows that reach the minimum, or the last one. */
  ghost predicate IsTokenChunking(text: string, words: seq<Span>, size: nat, overlap: nat, minimum: nat,
                                  chunks: seq<Chunk>) {
    && IsWords(text, words)
    && chunks ==
       if size == 0 || words == [] then []
       else Kept(TokenWindows(text, words, size, overlap, WindowCount(|words|, size, overlap)), minimum)
  }

  method ChunkFixedTokens(text: string, size: nat, overlap: nat, minimum: nat) returns (chunks: seq<Chunk>)
    ensures exists words :: IsTokenChunking(text, words, size, overlap, minimum, chunks)
  {
    hide IsWords, IsWord, WindowCount, WindowStart, BigEnough, Trim, ByteLen, Offset, TokenWindows, Slice;
    var spans := TokenSpans(text);
    ghost var words: seq<Span> :| IsWords(text, words) && SpansOf(text, words, spans);
    if size == 0 || spans == [] {
      chunks := [];
      assert IsTokenChunking(text, words, size, overlap, minimum, chunks);
      return;
    }
    var step := size - Shared(size, overlap);
    chunks := [];
    var start := 0;
    ghost var w, count := 0, WindowCount(|words|, size, overlap);
    FirstTokenWindow(text, words, size, overlap, minimum);
    while start < |spans|
      invariant w < count && start == WindowStart(size, overlap, w) < |spans|
      invariant chunks == BigEnough(TokenWindows(text, words, size, overlap, w), minimum)
      decreases |spans| - start
    {
      var end := Min(start + size, |spans|);
      NextTokenWindow(text, words, size, overlap, w, start, end);
      var byteStart, byteEnd := spans[start].0, spans[end - 1].1;
      SliceOfOffsets(text, words[start].0, words[end - 1].1);
      var slice := Slice(text, byteStart, byteEnd);
      BigEnoughStep(TokenWindows(text, words, size, overlap, w), Chunk(byteStart, byteEnd, slice), minimum);
      if ByteLen(Trim(slice)) >= minimum || (chunks == [] && end >= |spans|) {
        chunks := chunks + [Chunk(byteStart, byteEnd, slice)];
      }
      if end >= |spans| {
        break;
      }
      start := start + step;
      w := w + 1;
      StartsInside(|words|, size, overlap, w);
    }
    assert IsTokenChunking(text, words, size, overlap, minimum, chunks);
  }

  lemma StartsInside(total: nat, size: nat, overlap: nat, w: nat)
    requires size > 0 && total > 0 && w < WindowCount(total, size, overlap)
    ensures WindowStart(size, overlap, w) < total
  {
    LastWindowReachesEnd(total, size, overlap, w);
  }

  // ----- What the words of the chunks are -----

  function Shift(words: seq<Span>, offset: nat): seq<Span>
    requires forall w | w in words :: offset <= w.0 && offset <= w.1
  {
    seq(|words|, i requires 0 <= i < |words| => assert words[i] in words; (words[i].0 - offset, words[i].1 - offset))
  }

  lemma WordsBetween(text: string, words: seq<Span>, i: nat, j: nat, k: nat)
    requires IsWords(text, words) && i <= k < j <= |words|
    ensures words[i].0 <= words[k].0 < words[k].1 <= words[j - 1].1 <= |text| && IsWord(text, words[k])
  {
    assert IsWord(text, words[i]) && IsWord(text, words[k]) && IsWord(text, words[j - 1]);
    assert k == i || words[i].1 < words[k].0;
    assert k == j - 1 || words[k].1 < words[j - 1].0;
  }

  lemma ShiftedWord(text: string, from: nat, to: nat, w: Span)
    requires IsWord(text, w) && from <= w.0 && w.1 <= to <= |text|
    ensures IsWord(text[from..to], (w.0 - from, w.1 - from))
  {
    var part := text[from..to];
    forall k | w.0 - from <= k < w.1 - from ensures !Blank(part[k]) {
      assert part[k] == text[k + from];
    }
  }

  lemma SliceOfWords(text: string, words: seq<Span>, i: nat, j: nat)
    requires IsWords(text, words) && i < j <= |words|
    ensures words[i].0 < words[j - 1].1 <= |text|
    ensures forall w | w in words[i..j] :: words[i].0 <= w.0 < w.1 <= words[j - 1].1 && IsWord(text, w)
  {
    hide IsWord, IsWords;
    WordRange(text, words, i, j);
    forall k | 0 <= k < j - i
      ensures words[i].0 <= words[i..j][k].0 < words[i..j][k].1 <= words[j - 1].1 && IsWord(text, words[i..j][k])
    {
      WordsBetween(text, words, i, j, i + k);
    }
  }

  lemma ShiftedOrder(words: seq<Span>, i: nat, j: nat)
    requires InOrder(words) && i < j <= |words| && forall w | w in words[i..j] :: words[i].0 <= w.0 < w.1
    ensures InOrder(Shift(words[i..j], words[i].0))
  {
  }

  lemma ShiftedWords(text: string, words: seq<Span>, from: nat, to: nat)
    requires from <= to <= |text| && forall w | w in words :: IsWord(text, w) && from <= w.0 < w.1 <= to
    ensures forall w | w in Shift(words, from) :: IsWord(text[from..to], w)
  {
    hide IsWord;
    var shifted := Shift(words, from);
    forall w | w in shifted ensures IsWord(text[from..to], w) {
      var k :| 0 <= k < |shifted| && shifted[k] == w;
      assert words[k] in words;
      ShiftedWord(text, from, to, words[k]);
    }
  }

  lemma ShiftedCover(text: string, words: seq<Span>, i: nat, j: nat, k: nat)
    requires IsWords(text, words) && i < j <= |words| && words[i].0 <= k < words[j - 1].1
    requires forall w | w in words[i..j] :: words[i].0 <= w.0 < w.1
    requires k < |text| && !Blank(text[k])
    ensures exists w :: w in Shift(words[i..j], words[i].0) && w.0 <= k - words[i].0 < w.1
  {
    hide IsWords;
    WordAround(text, words, i, j, k);
    var m :| i <= m < j && words[m].0 <= k < words[m].1;
    var shifted := Shift(words[i..j], words[i].0);
    assert words[i..j][m - i] == words[m];
    assert shifted[m - i] in shifted;
  }

  /** A slice from the start of one word to the end of another contains exactly the words between. */
  lemma WordsOfSlice(text: string, words: seq<Span>, i: nat, j: nat)
    requires IsWords(text, words) && i < j <= |words|
    ensures words[i].0 < words[j - 1].1 <= |text|
    ensures forall w | w in words[i..j] :: words[i].0 <= w.0 < w.1 <= words[j - 1].1
    ensures IsWords(text[words[i].0..words[j - 1].1], Shift(words[i..j], words[i].0))
  {
    hide IsWord, InOrder, Shift;
    SliceOfWords(text, words, i, j);
    ShiftedOrder(words, i, j);
    var from, to := words[i].0, words[j - 1].1;
    var part := text[from..to];
    ShiftedWords(text, words[i..j], from, to);
    forall k | 0 <= k < |part| && !Blank(part[k])
      ensures exists w :: w in Shift(words[i..j], from) && w.0 <= k < w.1
    {
      ShiftedCover(text, words, i, j, from + k);
    }
  }

  lemma OrderedSpans(words: seq<Span>, a: nat, b: nat)
    requires InOrder(words) && a < |words| && b < |words|
    ensures a < b ==> words[a].1 < words[b].0
  {
  }

  lemma WordAround(text: string, words: seq<Span>, i: nat, j: nat, k: nat)
    requires IsWords(text, words) && i < j <= |words| && words[i].0 <= k < words[j - 1].1
    requires k < |text| && !Blank(text[k])
    ensures exists m :: i <= m < j && words[m].0 <= k < words[m].1
  {
    var v :| v in words && v.0 <= k < v.1;
    var m :| 0 <= m < |words| && words[m] == v;
    WordRange(text, words, i, j);
    WordsBetween(text, words, 0, |words|, i);
    WordsBetween(text, words, 0, |words|, j - 1);
    OrderedSpans(words, m, i);
    OrderedSpans(words, j - 1, m);
  }

  /** Without a minimum every chunk holds exactly the words of its window, and those windows rebuild the words of the
      document, whose number gives the number of chunks. */
  lemma FixedTokensRebuild(text: string, words: seq<Span>, size: nat, overlap: nat, chunks: seq<Chunk>, w: nat)
    requires IsTokenChunking(text, words, size, overlap, 0, chunks) && size > 0 && words != []
    requires w < |chunks|
    ensures var shared := if overlap < size then overlap else size - 1;
            && |chunks| == 1 + CeilDiv(if |words| > size then |words| - size else 0, size - shared)
            && Stitch(Parts(words, size, overlap, |chunks|), shared) == words
    ensures IsSlice(text, chunks[w])
    ensures var part := Part(words, size, overlap, w);
            part != [] && (forall v | v in part :: part[0].0 <= v.0 <= v.1)
            && IsWords(chunks[w].text, Shift(part, part[0].0))
  {
    hide IsWords, IsSlice, Shared, Part, TokenWindow, Kept;
    SharedIs(size, overlap);
    var n := WindowCount(|words|, size, overlap);
    NoMinimumKeepsAll(TokenWindows(text, words, size, overlap, n));
    StitchRebuilds(words, size, overlap);
    assert |chunks| == n;
    WordsOfWindow(text, words, size, overlap, w);
  }

  /** The chunks in `size` and `overlap` alone, without a minimum: which words each one spans, and how many there are.
      */
  lemma FixedTokensOverlap(text: string, words: seq<Span>, size: nat, overlap: nat, chunks: seq<Chunk>, w: nat,
                           from: nat, to: nat)
    requires IsTokenChunking(text, words, size, overlap, 0, chunks) && size > 0 && words != [] && w < |chunks|
    requires from == w * (size - if overlap < size then overlap else size - 1)
    requires to == if from + size < |words| then from + size else |words|
    ensures from < to && words[from].0 < words[to - 1].1 <= |text|
    ensures from + size < |words| <==> w + 1 < |chunks|
    ensures chunks[w] == Chunk(Offset(text, words[from].0), Offset(text, words[to - 1].1),
                               text[words[from].0..words[to - 1].1])
  {
    hide IsWords, WindowCount, WindowStart, WindowEnd, Shared, Kept, BigEnough, Offset, TokenWindow;
    var n := WindowCount(|words|, size, overlap);
    var windows := TokenWindows(text, words, size, overlap, n);
    FirstTokenWindow(text, words, size, overlap, 0);
    NoMinimumKeepsAll(windows);
    assert chunks == windows;
    TokenWindowAt(text, words, size, overlap, w, from, to);
  }

  lemma TokenWindowAt(text: string, words: seq<Span>, size: nat, overlap: nat, w: nat, from: nat, to: nat)
    requires IsWords(text, words) && size > 0 && words != [] && w < WindowCount(|words|, size, overlap)
    requires from == w * (size - if overlap < size then overlap else size - 1)
    requires to == if from + size < |words| then from + size else |words|
    ensures from < to && words[from].0 < words[to - 1].1 <= |text|
    ensures from + size < |words| <==> w + 1 < WindowCount(|words|, size, overlap)
    ensures TokenWindow(text, words, size, overlap, w)
         == Chunk(Offset(text, words[from].0), Offset(text, words[to - 1].1), text[words[from].0..words[to - 1].1])
  {
    hide IsWords, WindowCount, WindowStart, WindowEnd, Shared, Offset;
    WindowPlaces(|words|, size, overlap, w);
    LastWindowReachesEnd(|words|, size, overlap, w);
    WordRange(text, words, from, to);
  }

  lemma WordsOfWindow(text: string, words: seq<Span>, size: nat, overlap: nat, w: nat)
    requires IsWords(text, words) && size > 0 && words != [] && w < WindowCount(|words|, size, overlap)
    ensures var c, part := TokenWindow(text, words, size, overlap, w), Part(words, size, overlap, w);
            && IsSlice(text, c)
            && part != [] && (forall v | v in part :: part[0].0 <= v.0 <= v.1)
            && IsWords(c.text, Shift(part, part[0].0))
  {
    hide IsWords, IsSlice, Shared, WindowStart, Offset, WindowCount, Shift;
    LastWindowReachesEnd(|words|, size, overlap, w);
    var from, to := WindowStart(size, overlap, w), WindowEnd(|words|, size, overlap, w);
    WordsOfSlice(text, words, from, to);
    SliceIsSlice(text, words[from].0, words[to - 1].1);
  }
}
