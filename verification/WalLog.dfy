/** The bytes of the write-ahead log: a checksum and a length before every record (src/wal/mod.rs,
    src/wal/record.rs). */
module WalLogs {
  import opened Keys
  import opened System
  import opened Framings

  type Checksum = n: nat | n < U32_RANGE

  /** The serializer and the checksum, of which only the law below matters. */
  datatype WalCodec = WalCodec(encode: WalRecord -> Bytes, decode: Bytes -> Option<WalRecord>, sum: Bytes -> Checksum)

  ghost predicate Lawful(c: WalCodec) {
    forall r :: c.decode(c.encode(r)) == Some(r)
  }

  function EncodeRecord(c: WalCodec, r: WalRecord): Bytes {
    var payload := c.encode(r);
    ToLeBytes(c.sum(payload)) + ToLeBytes(|payload| % U32_RANGE) + payload
  }

  /** One record; the source's three errors are one here, since its reader stops at any of them. */
  function DecodeRecord(c: WalCodec, data: Bytes): Option<WalRecord> {
    if |data| < 8 then None
    else
      var sum, length := FromLeBytes(data[..4]), FromLeBytes(data[4..8]);
      if |data| < 8 + length || c.sum(data[8..8 + length]) != sum then None else c.decode(data[8..8 + length])
  }

  /** The record at the front of the log, if it is whole, has its checksum and decodes. */
  function Next(c: WalCodec, log: Bytes): Option<(WalRecord, nat)> {
    if |log| < 8 then None
    else
      var size := 8 + FromLeBytes(log[4..8]);
      if size > |log| then None
      else
        match DecodeRecord(c, log[..size])
        case None => None
        case Some(r) => Some((r, size))
  }

  function Records(c: WalCodec): Framing<WalRecord> {
    Framing(r => EncodeRecord(c, r), log => Next(c, log))
  }

  ghost predicate Short(c: WalCodec, rs: seq<WalRecord>) {
    forall r | r in rs :: |c.encode(r)| < U32_RANGE
  }

  lemma DecodesBack(c: WalCodec, r: WalRecord)
    requires Lawful(c)
    ensures c.decode(c.encode(r)) == Some(r)
  {
  }

  lemma SumReadsBack(n: nat)
    requires n < U32_RANGE
    ensures FromLeBytes(ToLeBytes(n)) == n
  {
    hide FromLeBytes, ToLeBytes;
    HeaderExactIff(n);
  }

  /** Where the parts of an encoded record lie, whatever follows it. */
  lemma RecordParts(c: WalCodec, r: WalRecord, tail: Bytes)
    requires |c.encode(r)| < U32_RANGE
    ensures var payload, log := c.encode(r), EncodeRecord(c, r) + tail;
            && |EncodeRecord(c, r)| == 8 + |payload|
            && FromLeBytes(log[..4]) == c.sum(payload) && FromLeBytes(log[4..8]) == |payload|
            && log[8..8 + |payload|] == payload && log[..8 + |payload|] == EncodeRecord(c, r)
  {
    hide FromLeBytes, ToLeBytes;
    var payload, log := c.encode(r), EncodeRecord(c, r) + tail;
    SumReadsBack(c.sum(payload));
    SumReadsBack(|payload|);
    assert log[..4] == ToLeBytes(c.sum(payload));
    assert log[4..8] == ToLeBytes(|payload|);
  }

  lemma NextOfRecord(c: WalCodec, r: WalRecord, tail: Bytes)
    requires Lawful(c) && |c.encode(r)| < U32_RANGE
    ensures Next(c, EncodeRecord(c, r) + tail) == Some((r, |EncodeRecord(c, r)|))
  {
    hide FromLeBytes, ToLeBytes, Lawful, EncodeRecord;
    DecodesBack(c, r);
    RecordParts(c, r, tail);
    RecordParts(c, r, []);
    assert EncodeRecord(c, r) + [] == EncodeRecord(c, r);
  }

  /** A record cut anywhere reads as nothing. */
  lemma TornRecord(c: WalCodec, r: WalRecord, cut: nat)
    requires |c.encode(r)| < U32_RANGE && cut < |EncodeRecord(c, r)|
    ensures Next(c, EncodeRecord(c, r)[..cut]) == None
  {
    hide FromLeBytes, ToLeBytes, EncodeRecord;
    RecordParts(c, r, []);
    var whole := EncodeRecord(c, r);
    assert whole + [] == whole;
    if cut >= 8 {
      assert whole[..cut][4..8] == whole[4..8];
    }
  }

  /** So the log is read back, torn or not, as `Framings` says. */
  lemma RecordsFramed(c: WalCodec, rs: seq<WalRecord>)
    requires Lawful(c) && Short(c, rs)
    ensures AllFramed(Records(c), rs) && Records(c).next([]) == None
  {
    hide Next, EncodeRecord;
    forall i | 0 <= i < |rs| ensures Framed(Records(c), rs[i]) {
      var r := rs[i];
      forall tail: Bytes ensures Next(c, EncodeRecord(c, r) + tail) == Some((r, |EncodeRecord(c, r)|)) {
        NextOfRecord(c, r, tail);
      }
      forall cut: nat | cut < |EncodeRecord(c, r)| ensures Next(c, EncodeRecord(c, r)[..cut]) == None {
        TornRecord(c, r, cut);
      }
      RecordParts(c, r, []);
    }
    NextSizes(c, []);
  }

  lemma NextSizes(c: WalCodec, log: Bytes)
    ensures Next(c, log).Some? ==> 0 < Next(c, log).value.1 <= |log|
  {
    hide DecodeRecord;
  }

  // ----- Reopening a torn log -----

  /** The bytes behind a tear complete the torn record to one that passes: enough of them, with the checksum of what was
      torn. */
  predicate Completes(c: WalCodec, r: WalRecord, torn: Bytes, behind: Bytes) {
    var payload := c.encode(r);
    && 8 <= |torn| <= 8 + |payload| <= |torn| + |behind|
    && var spliced := torn[8..] + behind[..8 + |payload| - |torn|];
       c.sum(spliced) == c.sum(payload) && c.decode(spliced).Some?
  }

  /** A record torn behind its header is taken for whole exactly when what was appended completes it. */
  lemma TornNextIff(c: WalCodec, r: WalRecord, size: nat, behind: Bytes)
    requires |c.encode(r)| < U32_RANGE && 8 <= size < |EncodeRecord(c, r)|
    ensures Next(c, EncodeRecord(c, r)[..size] + behind).Some?
            <==> Completes(c, r, EncodeRecord(c, r)[..size], behind)
  {
    hide FromLeBytes, ToLeBytes, EncodeRecord;
    RecordParts(c, r, []);
    var whole, payload := EncodeRecord(c, r), c.encode(r);
    assert whole + [] == whole;
    var torn := whole[..size];
    var log := torn + behind;
    assert log[..4] == whole[..4] && log[4..8] == whole[4..8];
    if 8 + |payload| <= |log| {
      var data := log[..8 + |payload|];
      assert data[..4] == log[..4] && data[4..8] == log[4..8];
      assert data[8..8 + |payload|] == torn[8..] + behind[..8 + |payload| - size];
    }
  }

  /** What a log reads as that was cut at any byte, opened again and written to: the records whose frames survived
      whole, and behind them, when the cut left no torn record, all the new ones. Otherwise nothing more is read if and
      only if the bytes from the tear on do not pass for a record; behind a torn record that has its header, that is if
      and only if the new records do not complete it. */
  lemma ReopenedLogReads(c: WalCodec, rs: seq<WalRecord>, cut: nat, more: seq<WalRecord>, n: nat)
    requires Lawful(c) && Short(c, rs) && Short(c, more)
    requires cut <= |Frames(Records(c), rs)| && WholeFrames(Records(c), rs, cut, n)
    ensures var torn, read := Torn(Records(c), rs, cut, n), Parse(Records(c), Reopened(Records(c), rs, cut, more));
            && rs[..n] <= read
            && (torn == [] ==> read == rs[..n] + more)
            && (read == rs[..n] <==> Next(c, torn + Frames(Records(c), more)) == None)
            && (|torn| >= 8 ==>
                  && n < |rs|
                  && (read == rs[..n] <==> !Completes(c, rs[n], torn, Frames(Records(c), more))))
  {
    hide Frames, Parse, Next, EncodeRecord, Completes;
    RecordsFramed(c, rs);
    RecordsFramed(c, more);
    forall log: Bytes | Records(c).next(log).Some? ensures 0 < Records(c).next(log).value.1 <= |log| {
      NextSizes(c, log);
    }
    ReopenedReads(Records(c), rs, cut, more, n);
    CutLog(Records(c), rs, cut, n);
    var torn := Torn(Records(c), rs, cut, n);
    if |torn| >= 8 {
      TornNextIff(c, rs[n], |torn|, Frames(Records(c), more));
    }
  }

  /** The records appended behind a tear are unreadable, whatever the checksum, as long as they are shorter than the
      part torn off. */
  lemma ShortTailIsLost(c: WalCodec, rs: seq<WalRecord>, r: WalRecord, size: nat, more: seq<WalRecord>)
    requires Lawful(c) && Short(c, rs + [r]) && Short(c, more) && 8 <= size
    requires size + |Frames(Records(c), more)| < |EncodeRecord(c, r)|
    ensures var cut := |Frames(Records(c), rs)| + size;
            && cut <= |Frames(Records(c), rs + [r])|
            && Parse(Records(c), Reopened(Records(c), rs + [r], cut, more)) == rs
  {
    hide Frames, Parse, Next, EncodeRecord;
    var all, cut := rs + [r], |Frames(Records(c), rs)| + size;
    FramesAppend(Records(c), rs, [r]);
    FrameOfOne(Records(c), r);
    assert all[..|rs|] == rs && all[..|rs| + 1] == all;
    ReopenedLogReads(c, all, cut, more, |rs|);
    RecordParts(c, r, []);
  }

  // ----- The log file -----

  class WalWriter {
    const codec: WalCodec
    var file: Bytes

    /** Opens a file and goes to its end, whatever it holds. */
    constructor (codec: WalCodec, file: Bytes)
      ensures this.codec == codec && this.file == file
    {
      this.codec, this.file := codec, file;
    }

    method Append(r: WalRecord)
      modifies this
      ensures file == old(file) + Frames(Records(codec), [r])
      ensures var payload := codec.encode(r);
              file == old(file) + ToLeBytes(codec.sum(payload)) + ToLeBytes(|payload| % U32_RANGE) + payload
    {
      file := file + EncodeRecord(codec, r);
      FrameOfOne(Records(codec), r);
    }

    method AppendBatch(rs: seq<WalRecord>)
      modifies this
      ensures file == old(file) + Frames(Records(codec), rs)
    {
      if rs == [] {
        return;
      }
      var buffer: Bytes := [];
      for i := 0 to |rs|
        invariant file == old(file) && buffer == Frames(Records(codec), rs[..i])
      {
        assert rs[..i + 1] == rs[..i] + [rs[i]];
        FramesAppend(Records(codec), rs[..i], [rs[i]]);
        FrameOfOne(Records(codec), rs[i]);
        buffer := buffer + EncodeRecord(codec, rs[i]);
      }
      assert rs[..|rs|] == rs;
      file := file + buffer;
    }
  }

  /** Scans the records by offset; stops at the first that is torn, fails its checksum or does not decode. */
  method ReadAll(codec: WalCodec, buffer: Bytes) returns (records: seq<WalRecord>)
    ensures records == Parse(Records(codec), buffer)
  {
    hide DecodeRecord, FromLeBytes;
    records := [];
    var offset := 0;
    assert buffer[0..] == buffer;
    while offset + 8 <= |buffer|
      invariant offset <= |buffer|
      invariant records + Parse(Records(codec), buffer[offset..]) == Parse(Records(codec), buffer)
      decreases |buffer| - offset
    {
      var rest := buffer[offset..];
      assert buffer[offset + 4..offset + 8] == rest[4..8];
      var size := 8 + FromLeBytes(buffer[offset + 4..offset + 8]);
      if offset + size > |buffer| {
        break;
      }
      assert buffer[offset..offset + size] == rest[..size];
      match DecodeRecord(codec, buffer[offset..offset + size]) {
        case Some(r) =>
          records := records + [r];
          offset := offset + size;
          assert buffer[offset..] == rest[size..];
        case None =>
          break;
      }
    }
  }
}
