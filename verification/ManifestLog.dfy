/** The manifest log: a four-byte little-endian length before every edit (src/manifest/mod.rs:16-75). */
module ManifestLogs {
  import opened Keys
  import opened Versions
  import opened Framings

  /** The serializer, of which only the laws below matter. */
  datatype Codec = Codec(encode: VersionEdit -> Bytes, decode: Bytes -> Option<VersionEdit>)

  ghost predicate Lawful(c: Codec) {
    forall e :: c.decode(c.encode(e)) == Some(e)
  }

  /** An encoding says where it ends: cut short it does not decode. */
  ghost predicate SelfDelimiting(c: Codec) {
    forall e, n: nat | n < |c.encode(e)| :: c.decode(c.encode(e)[..n]) == None
  }

  function Frame(c: Codec, e: VersionEdit): Bytes {
    ToLeBytes(|c.encode(e)| % U32_RANGE) + c.encode(e)
  }

  /** The edit at the front of the log, if its frame is whole and decodes. */
  function Next(c: Codec, log: Bytes): Option<(VersionEdit, nat)> {
    if |log| < 4 then None
    else
      var len := FromLeBytes(log[..4]);
      if 4 + len > |log| then None
      else
        match c.decode(log[4..4 + len])
        case None => None
        case Some(e) => Some((e, 4 + len))
  }

  function Edits(c: Codec): Framing<VersionEdit> {
    Framing(e => Frame(c, e), log => Next(c, log))
  }

  ghost predicate Short(c: Codec, edits: seq<VersionEdit>) {
    forall e | e in edits :: |c.encode(e)| < U32_RANGE
  }

  lemma DecodesBack(c: Codec, e: VersionEdit)
    requires Lawful(c)
    ensures c.decode(c.encode(e)) == Some(e)
  {
  }

  lemma NextOfFrame(c: Codec, e: VersionEdit, tail: Bytes)
    requires Lawful(c) && |c.encode(e)| < U32_RANGE
    ensures Next(c, Frame(c, e) + tail) == Some((e, |Frame(c, e)|))
  {
    hide FromLeBytes, ToLeBytes, Lawful;
    DecodesBack(c, e);
    var log, body := Frame(c, e) + tail, c.encode(e);
    HeaderExactIff(|body|);
    assert log[..4] == ToLeBytes(|body|);
    assert log[4..4 + |body|] == body;
  }

  /** A frame cut anywhere reads as nothing. */
  lemma TornFrame(c: Codec, e: VersionEdit, cut: nat)
    requires |c.encode(e)| < U32_RANGE && cut < |Frame(c, e)|
    ensures Next(c, Frame(c, e)[..cut]) == None
  {
    hide FromLeBytes, ToLeBytes;
    var log, body := Frame(c, e)[..cut], c.encode(e);
    HeaderExactIff(|body|);
    if cut >= 4 {
      assert Frame(c, e)[..4] == ToLeBytes(|body|);
      assert log[..4] == Frame(c, e)[..4];
    }
  }

  /** So the logs of short edits are read back, torn or not, as `Framings` says. */
  lemma EditsFramed(c: Codec, edits: seq<VersionEdit>)
    requires Lawful(c) && Short(c, edits)
    ensures AllFramed(Edits(c), edits) && Edits(c).next([]) == None
  {
    hide Next, Frame;
    forall i | 0 <= i < |edits| ensures Framed(Edits(c), edits[i]) {
      var e := edits[i];
      forall tail: Bytes ensures Next(c, Frame(c, e) + tail) == Some((e, |Frame(c, e)|)) {
        NextOfFrame(c, e, tail);
      }
      forall cut: nat | cut < |Frame(c, e)| ensures Next(c, Frame(c, e)[..cut]) == None {
        TornFrame(c, e, cut);
      }
      FrameNotEmpty(c, e);
    }
    NothingNext(c);
  }

  lemma FrameNotEmpty(c: Codec, e: VersionEdit)
    ensures |Frame(c, e)| >= 4
  {
  }

  lemma NothingNext(c: Codec)
    ensures Next(c, []) == None
  {
  }

  /** The frame of an edit reads back exactly when its encoding is shorter than 2^32; the frame of a longer one stops
      the reader, which then sees none of the edits behind it either. */
  lemma FrameReadsBackIff(c: Codec, e: VersionEdit, tail: Bytes)
    requires Lawful(c) && SelfDelimiting(c)
    ensures Parse(Edits(c), Frame(c, e) + tail) == [e] + Parse(Edits(c), tail) <==> |c.encode(e)| < U32_RANGE
    ensures |c.encode(e)| >= U32_RANGE ==> Parse(Edits(c), Frame(c, e) + tail) == []
  {
    hide Frame, Lawful, SelfDelimiting;
    if |c.encode(e)| < U32_RANGE {
      EditsFramed(c, [e]);
      assert Framed(Edits(c), [e][0]);
      FrameFirst(Edits(c), e, tail);
    } else {
      LongFrameStops(c, e, tail);
    }
  }

  lemma LongFrameStops(c: Codec, e: VersionEdit, tail: Bytes)
    requires SelfDelimiting(c) && |c.encode(e)| >= U32_RANGE
    ensures Next(c, Frame(c, e) + tail) == None
  {
    hide FromLeBytes, ToLeBytes, SelfDelimiting;
    var log, body := Frame(c, e) + tail, c.encode(e);
    var n := |body| % U32_RANGE;
    HeaderExactIff(n);
    assert log[..4] == ToLeBytes(n);
    assert log[4..4 + n] == body[..n];
    PrefixFails(c, e, n);
  }

  lemma PrefixFails(c: Codec, e: VersionEdit, n: nat)
    requires SelfDelimiting(c) && n < |c.encode(e)|
    ensures c.decode(c.encode(e)[..n]) == None
  {
  }

  /** The bytes behind a tear complete the torn edit to one that decodes. */
  predicate Completes(c: Codec, e: VersionEdit, torn: Bytes, behind: Bytes) {
    var body := c.encode(e);
    && 4 <= |torn| <= 4 + |body| <= |torn| + |behind|
    && c.decode(torn[4..] + behind[..4 + |body| - |torn|]).Some?
  }

  /** An edit torn behind its length is taken for whole exactly when what was appended completes it. */
  lemma TornNextIff(c: Codec, e: VersionEdit, size: nat, behind: Bytes)
    requires |c.encode(e)| < U32_RANGE && 4 <= size < |Frame(c, e)|
    ensures Next(c, Frame(c, e)[..size] + behind).Some? <==> Completes(c, e, Frame(c, e)[..size], behind)
  {
    hide FromLeBytes, ToLeBytes;
    var whole, body := Frame(c, e), c.encode(e);
    HeaderExactIff(|body|);
    assert whole[..4] == ToLeBytes(|body|);
    var torn := whole[..size];
    var log := torn + behind;
    assert log[..4] == whole[..4];
    if 4 + |body| <= |log| {
      assert log[4..4 + |body|] == torn[4..] + behind[..4 + |body| - size];
    }
  }

  /** What a manifest reads as that was cut at any byte, opened again and logged to: the edits whose frames survived
      whole, and behind them all the new ones when the cut left no torn frame. Otherwise none of the new ones, nor
      anything else, is read if and only if the bytes from the tear on do not pass for a frame; behind a torn edit that
      has its length, that is if and only if the new ones do not complete it. */
  lemma ReopenedManifestReads(c: Codec, edits: seq<VersionEdit>, cut: nat, more: seq<VersionEdit>, n: nat)
    requires Lawful(c) && Short(c, edits) && Short(c, more)
    requires cut <= |Frames(Edits(c), edits)| && WholeFrames(Edits(c), edits, cut, n)
    ensures var torn, read := Torn(Edits(c), edits, cut, n), Parse(Edits(c), Reopened(Edits(c), edits, cut, more));
            && edits[..n] <= read
            && (torn == [] ==> read == edits[..n] + more)
            && (read == edits[..n] <==> Next(c, torn + Frames(Edits(c), more)) == None)
            && (|torn| >= 4 ==>
                  && n < |edits|
                  && (read == edits[..n] <==> !Completes(c, edits[n], torn, Frames(Edits(c), more))))
  {
    hide Frames, Parse, Next, Frame, Completes;
    EditsFramed(c, edits);
    EditsFramed(c, more);
    forall log: Bytes | Edits(c).next(log).Some? ensures 0 < Edits(c).next(log).value.1 <= |log| {
      NextSizes(c, log);
    }
    ReopenedReads(Edits(c), edits, cut, more, n);
    CutLog(Edits(c), edits, cut, n);
    var torn := Torn(Edits(c), edits, cut, n);
    if |torn| >= 4 {
      TornNextIff(c, edits[n], |torn|, Frames(Edits(c), more));
    }
  }

  lemma NextSizes(c: Codec, log: Bytes)
    ensures Next(c, log).Some? ==> 0 < Next(c, log).value.1 <= |log|
  {
  }

  // ----- The log file -----

  class Manifest {
    const codec: Codec
    var file: Bytes

    /** Opens a file for appending, with whatever it holds. */
    constructor (codec: Codec, file: Bytes)
      ensures this.codec == codec && this.file == file
    {
      this.codec, this.file := codec, file;
    }

    /** Appends the length, cast to 32 bits, and then the encoding. */
    method LogEdit(e: VersionEdit)
      modifies this
      ensures file == old(file) + ToLeBytes(|codec.encode(e)| % U32_RANGE) + codec.encode(e)
      ensures forall edits | old(file) == Frames(Edits(codec), edits) :: file == Frames(Edits(codec), edits + [e])
    {
      var encoded := codec.encode(e);
      file := file + ToLeBytes(|encoded| % U32_RANGE);
      file := file + encoded;
      forall edits | old(file) == Frames(Edits(codec), edits) ensures file == Frames(Edits(codec), edits + [e]) {
        FramesAppend(Edits(codec), edits, [e]);
        FrameOfOne(Edits(codec), e);
      }
    }
  }

  /** Scans the frames by offset; stops at the first frame that is torn or does not decode. */
  method ReadAllEdits(codec: Codec, buffer: Bytes) returns (edits: seq<VersionEdit>)
    ensures edits == Parse(Edits(codec), buffer)
  {
    edits := [];
    var offset := 0;
    assert buffer[0..] == buffer;
    while offset + 4 <= |buffer|
      invariant offset <= |buffer|
      invariant edits + Parse(Edits(codec), buffer[offset..]) == Parse(Edits(codec), buffer)
      decreases |buffer| - offset
    {
      var rest := buffer[offset..];
      assert buffer[offset..offset + 4] == rest[..4];
      var len := FromLeBytes(buffer[offset..offset + 4]);
      offset := offset + 4;
      if offset + len > |buffer| {
        break;
      }
      assert buffer[offset..offset + len] == rest[4..4 + len];
      match codec.decode(buffer[offset..offset + len]) {
        case Some(edit) =>
          edits := edits + [edit];
          offset := offset + len;
          assert buffer[offset..] == rest[4 + len..];
        case None =>
          break;
      }
    }
  }
}
