/** What a failed append costs the records that come after it.  The writer moves its offset in the block on, whether or
    not the bytes got to the file (db/log_writer.cc); the reader goes by the bytes (db/log_reader.cc). */
module LogFailures {
  import opened Keys
  import opened Coding
  import opened LogFormat
  import opened LogReader
  import opened LogRecovery
  import opened LogWriter
  import LogDamage

  /** The bytes of records written undisturbed from `blockOffset` on. */
  function Emissions(crc: Crc, blockOffset: nat, rs: seq<Bytes>): Bytes
    requires blockOffset <= BLOCK_SIZE
    decreases |rs|
  {
    if rs == [] then []
    else Emission(crc, blockOffset, rs[0], true) + Emissions(crc, OffsetAfter(blockOffset, rs[0]), rs[1..])
  }

  /** The file once the writer, at `blockOffset`, has added `rs` to `dest`. */
  function LogAfter(crc: Crc, dest: Bytes, blockOffset: nat, rs: seq<Bytes>): LogFile
    requires blockOffset <= BLOCK_SIZE
  {
    LogFile(dest + Emissions(crc, blockOffset, rs), crc, true)
  }

  lemma {:induction false} AtTrueOffset(crc: Crc, records: seq<Bytes>, rs: seq<Bytes>, blockOffset: nat)
    requires AtOffset(blockOffset, |Encode(crc, records)|)
    ensures Encode(crc, records) + Emissions(crc, blockOffset, rs) == Encode(crc, records + rs)
    decreases |rs|
  {
    hide Encode, Emission, OffsetAfter, AtOffset;
    assert blockOffset <= BLOCK_SIZE by { InBlock(blockOffset, |Encode(crc, records)|); }
    if rs == [] {
      assert records + rs == records;
    } else {
      EncodeHolds(crc, records);
      EmissionExtends(crc, records, rs[0], blockOffset);
      AtTrueOffset(crc, records + [rs[0]], rs[1..], OffsetAfter(blockOffset, rs[0]));
      assert (records + [rs[0]]) + rs[1..] == records + rs;
    }
  }

  lemma InBlock(blockOffset: nat, at: nat)
    requires AtOffset(blockOffset, at)
    ensures blockOffset <= BLOCK_SIZE
  {
  }

  /** Behind a log of records, reading first gives the records. */
  lemma {:induction false} ReadsThrough(log: LogFile, records: seq<Bytes>, r: nat)
    requires Encode(log.crc, records) <= log.bytes && r <= |records|
    ensures |Encode(log.crc, records[..r])| <= |Encode(log.crc, records)|
    ensures ReadFrom(log, |Encode(log.crc, records[..r])|, None).records
         == records[r..] + ReadFrom(log, |Encode(log.crc, records)|, None).records
    decreases |records| - r
  {
    hide RecordAt, Fragments, Layout, Encode, LogEnd, Holds;
    EncodeHolds(log.crc, records);
    if r == |records| {
      assert records[..r] == records;
    } else {
      var at := |Encode(log.crc, records[..r])|;
      LogOfRecords(log.crc, records, r);
      forall f | f in Fragments(records[r], [], true, at, r) ensures Holds(log.bytes, log.crc, f) {
        HoldsInLonger(Encode(log.crc, records), log.bytes, log.crc, f);
      }
      ReadRest(log, log.bytes, records[r], [], true, at, r);
      ReadsThrough(log, records, r + 1);
      assert [] + records[r] == records[r] && [records[r]] + records[r+1..] == records[r..];
    }
  }

  ghost predicate ReadsOn(crc: Crc, records: seq<Bytes>, blockOffset: nat, rs: seq<Bytes>)
    requires blockOffset <= BLOCK_SIZE
  {
    ReadFrom(LogAfter(crc, Encode(crc, records), blockOffset, rs), 0, None).records == records + rs
  }

  /** Whatever the checksum function and the records so far: everything added later reads back exactly when the
      writer's offset is where the file ends. */
  lemma LaterRecordsReadBack(crc: Crc, records: seq<Bytes>, blockOffset: nat)
    requires blockOffset <= BLOCK_SIZE
    ensures (forall rs :: ReadsOn(crc, records, blockOffset, rs)) <==> AtOffset(blockOffset, |Encode(crc, records)|)
  {
    hide ReadFrom, Encode, AtOffset, Emissions;
    var dest := Encode(crc, records);
    if AtOffset(blockOffset, |dest|) {
      forall rs ensures ReadsOn(crc, records, blockOffset, rs) {
        AtTrueOffset(crc, records, rs, blockOffset);
        WholeLog(crc, true, records + rs);
      }
    } else {
      var rs := Misplaced(crc, dest, blockOffset);
      var log := LogAfter(crc, dest, blockOffset, rs);
      ReadsThrough(log, records, 0);
      EmptyLog(crc);
      assert records[..0] == [] && records[0..] == records;
      OtherTail(records, ReadFrom(log, |dest|, None).records, rs);
      assert !ReadsOn(crc, records, blockOffset, rs);
    }
  }

  lemma OtherTail<T>(a: seq<T>, b: seq<T>, c: seq<T>)
    requires b != c
    ensures a + b != a + c
  {
    assert (a + b)[|a|..] == b && (a + c)[|a|..] == c;
  }

  lemma EmptyLog(crc: Crc)
    ensures |Encode(crc, [])| == 0
  {
  }

  // ----- records that get lost -----

  /** No room for a header: nothing is read. */
  lemma TooShort(log: LogFile, at: nat, partial: Option<Bytes>)
    requires at <= |log.bytes| < HeaderAt(at) + HEADER_SIZE
    ensures ReadFrom(log, at, partial).records == []
  {
    LogDamage.UnfoldRead(log, at, partial);
    hide ReadFrom;
    assert PhysicalAt(log, at).kind == EOF;
  }

  /** Zeros read as nothing. */
  lemma {:induction false} ZerosRead(log: LogFile, at: nat)
    requires at <= |log.bytes| && forall k :: at <= k < |log.bytes| ==> log.bytes[k] == 0
    ensures ReadFrom(log, at, None).records == []
    decreases |log.bytes| - at
  {
    hide ReadFrom;
    LogDamage.UnfoldRead(log, at, None);
    var p := PhysicalAt(log, at);
    assert p.kind == EOF || p.kind == BAD_RECORD by { ZerosParse(log, at); }
    if p.kind != EOF {
      ZerosRead(log, at + p.used);
    }
  }

  lemma ZerosParse(log: LogFile, at: nat)
    requires at <= |log.bytes| && forall k :: at <= k < |log.bytes| ==> log.bytes[k] == 0
    ensures var p := PhysicalAt(log, at); p.kind == EOF || p.kind == BAD_RECORD
  {
    hide LoadCrc;
  }

  /** A record that fits one fragment. */
  lemma OneFragmentEmission(crc: Crc, blockOffset: nat, payload: Bytes)
    requires blockOffset <= BLOCK_SIZE && HeaderOffset(blockOffset) + HEADER_SIZE + |payload| <= BLOCK_SIZE
    ensures Emission(crc, blockOffset, payload, true)
         == Trailer(blockOffset) + (Header(crc, FULL_TYPE, payload) + payload)
    ensures OffsetAfter(blockOffset, payload) == HeaderOffset(blockOffset) + HEADER_SIZE + |payload|
  {
    hide Header, Trailer;
    UnfoldEmission(crc, blockOffset, payload, true);
    assert payload[..|payload|] == payload;
  }

  lemma OneRecordLog(crc: Crc, dest: Bytes, blockOffset: nat, payload: Bytes)
    requires blockOffset <= BLOCK_SIZE && HeaderOffset(blockOffset) + HEADER_SIZE + |payload| <= BLOCK_SIZE
    ensures LogAfter(crc, dest, blockOffset, [payload]).bytes
         == dest + (Trailer(blockOffset) + (Header(crc, FULL_TYPE, payload) + payload))
  {
    OneFragmentEmission(crc, blockOffset, payload);
    hide Emission, Header, Trailer;
    assert Emissions(crc, OffsetAfter(blockOffset, payload), [payload][1..]) == [];
  }

  /** The reader skips more bytes to the next block than the writer filled with zeros: it finds no room for the header
      of an empty record. */
  lemma BeyondTheEnd(crc: Crc, dest: Bytes, blockOffset: nat)
    requires blockOffset <= BLOCK_SIZE && HeaderAt(|dest|) - |dest| > |Trailer(blockOffset)|
    ensures ReadFrom(LogAfter(crc, dest, blockOffset, [[]]), |dest|, None).records == []
  {
    hide ReadFrom, Header, Trailer;
    OneRecordLog(crc, dest, blockOffset, []);
    TooShort(LogAfter(crc, dest, blockOffset, [[]]), |dest|, None);
  }

  /** Four zeros are loaded as the checksum that is stored as four zeros. */
  lemma ZeroChecksum(b: Bytes)
    requires |b| >= 4 && b[0] == 0 && b[1] == 0 && b[2] == 0 && b[3] == 0
    ensures StoredCrc(LoadCrc(b)) == [0, 0, 0, 0]
  {
    UnmaskInvertsMask(0);
    hide Mask, Unmask;
    assert DecodeFixed32(b) == 0;
  }

  /** A record that the reader takes for another one when it stands behind `shift` zeros that belong to no trailer. */
  function Mistakable(shift: nat): Bytes { if shift == 3 then [0] else [] }

  /** The buffer starts with `shift` zeros, and goes on with `h`. */
  predicate BehindZeros(buffer: Bytes, shift: nat, h: Bytes) {
    |buffer| <= shift + |h| && forall i :: 0 <= i < |buffer| ==> buffer[i] == if i < shift then 0 else h[i-shift]
  }

  predicate Shifted(crc: Crc, buffer: Bytes, shift: nat) {
    1 <= shift <= 6 && BehindZeros(buffer, shift, Header(crc, FULL_TYPE, Mistakable(shift)) + Mistakable(shift))
  }

  /** Whatever the reader makes of it, it is not that record. */
  lemma ShiftedParse(log: LogFile, buffer: Bytes, shift: nat, torn: bool)
    requires Shifted(log.crc, buffer, shift) && |buffer| >= HEADER_SIZE && log.checksum
    ensures var p := Parse(log, buffer, torn);
      p.used >= HEADER_SIZE && !(p.kind == FULL_TYPE as nat && p.payload == Mistakable(shift))
  {
    hide StoredCrc, LoadCrc;
    var p := Parse(log, buffer, torn);
    var h := Header(log.crc, FULL_TYPE, Mistakable(shift));
    assert h[4] as nat == |Mistakable(shift)| && h[5] == 0;
    if shift <= 2 {
      assert buffer[6] == h[6-shift] == 0;
    } else if shift == 3 {
      assert |buffer| > 7 ==> buffer[7] == h[4] && buffer[HEADER_SIZE..8] == [buffer[7]];
    } else {
      var c := StoredCrc(log.crc([FULL_TYPE]));
      assert [FULL_TYPE] + [] == [FULL_TYPE];
      assert buffer[6] == FULL_TYPE ==> buffer[6..HEADER_SIZE] == [FULL_TYPE];
      ZeroChecksum(buffer);
      assert h == c + [0, 0, FULL_TYPE];
      assert buffer[6] == h[6-shift] == c[6-shift];
    }
  }

  /** The writer fills a block with zeros that the reader does not skip. */
  lemma ShiftedHeader(crc: Crc, dest: Bytes, blockOffset: nat)
    requires blockOffset <= BLOCK_SIZE && HeaderAt(|dest|) - |dest| < |Trailer(blockOffset)|
    ensures var payload := Mistakable(|Trailer(blockOffset)| - (HeaderAt(|dest|) - |dest|));
      ReadFrom(LogAfter(crc, dest, blockOffset, [payload]), |dest|, None).records != [payload]
  {
    hide ReadFrom, Header, PhysicalAt, Trailer, LogAfter, HeaderAt, HeaderOffset, Parse;
    var payload := Mistakable(|Trailer(blockOffset)| - (HeaderAt(|dest|) - |dest|));
    var log, at := LogAfter(crc, dest, blockOffset, [payload]), |dest|;
    assert |payload| <= 1;
    hide Mistakable;
    StartsABlock(blockOffset);
    OneRecordLog(crc, dest, blockOffset, payload);
    LogGrows(crc, dest, blockOffset, [payload]);
    ShiftedPhysical(crc, dest, blockOffset, payload, log);
    AnotherRecord(log, at, payload);
  }

  lemma StartsABlock(blockOffset: nat)
    requires blockOffset <= BLOCK_SIZE && Trailer(blockOffset) != []
    ensures HeaderOffset(blockOffset) == 0
  {
  }

  /** A physical record that is not `record`, with no room for a header behind. */
  lemma AnotherRecord(log: LogFile, at: nat, record: Bytes)
    requires at <= |log.bytes|
    requires var p := PhysicalAt(log, at);
      |log.bytes| < at + p.used + HEADER_SIZE && !(p.kind == FULL_TYPE as nat && p.payload == record)
    ensures ReadFrom(log, at, None).records != [record]
  {
    hide ReadFrom, PhysicalAt, HeaderAt;
    LogDamage.UnfoldRead(log, at, None);
    var p := PhysicalAt(log, at);
    NoHeaderBehind(at + p.used, |log.bytes|);
    match StepOn(None, p) {
      case Complete(other, _) =>
        assert other != record && ReadFrom(log, at, None).records[0] == other;
      case Carry(after, _) => TooShort(log, at + p.used, after);
      case Stop =>
    }
  }

  lemma NoHeaderBehind(at: nat, size: nat)
    ensures size < at + HEADER_SIZE ==> size < HeaderAt(at) + HEADER_SIZE
  {
  }

  lemma ShiftedPhysical(crc: Crc, dest: Bytes, blockOffset: nat, payload: Bytes, log: LogFile)
    requires blockOffset <= BLOCK_SIZE && HeaderAt(|dest|) - |dest| < |Trailer(blockOffset)|
    requires payload == Mistakable(|Trailer(blockOffset)| - (HeaderAt(|dest|) - |dest|))
    requires log == LogFile(dest + (Trailer(blockOffset) + (Header(crc, FULL_TYPE, payload) + payload)), crc, true)
    ensures var p := PhysicalAt(log, |dest|);
      && |log.bytes| < |dest| + p.used + HEADER_SIZE
      && !(p.kind == FULL_TYPE as nat && p.payload == payload)
  {
    hide Parse, Header, Trailer, BehindZeros;
    var at, start, t := |dest|, HeaderAt(|dest|), |Trailer(blockOffset)|;
    HeaderFits(start, |log.bytes|);
    var buffer := log.bytes[start..BlockEnd(|log.bytes|, start)];
    TrailerIsZeros(blockOffset);
    ShiftedBuffer(dest, Trailer(blockOffset), Header(crc, FULL_TYPE, payload) + payload, start, |buffer|);
    assert Shifted(crc, buffer, t - (start - at));
    ShiftedParse(log, buffer, t - (start - at), Torn(|log.bytes|, start));
  }

  lemma TrailerIsZeros(blockOffset: nat)
    requires blockOffset <= BLOCK_SIZE
    ensures |Trailer(blockOffset)| <= 6 && forall i :: 0 <= i < |Trailer(blockOffset)| ==> Trailer(blockOffset)[i] == 0
  {
  }

  lemma ShiftedBuffer(dest: Bytes, zeros: Bytes, h: Bytes, start: nat, n: nat)
    requires |dest| <= start && start - |dest| < |zeros| && start + n <= |dest| + |zeros| + |h|
    requires forall i :: 0 <= i < |zeros| ==> zeros[i] == 0
    ensures BehindZeros((dest + (zeros + h))[start..start+n], |zeros| - (start - |dest|), h)
  {
  }

  /** The writer believes to be earlier in the block than it is.  A record that it takes to end with the block reaches
      into the next one; the reader drops it for its bad length, and finds zeros behind. */
  lemma CrossesTheBlock(crc: Crc, dest: Bytes, blockOffset: nat)
    requires blockOffset <= BLOCK_SIZE && Trailer(blockOffset) == [] && HeaderAt(|dest|) == |dest|
    requires HeaderOffset(blockOffset) < |dest| % BLOCK_SIZE
    ensures var payload := Zeros(BLOCK_SIZE - HEADER_SIZE - HeaderOffset(blockOffset));
      ReadFrom(LogAfter(crc, dest, blockOffset, [payload]), |dest|, None).records == []
  {
    hide ReadFrom, PhysicalAt, Zeros, Trailer, LogAfter, HeaderOffset, HeaderAt, Parse;
    var payload := Zeros(BLOCK_SIZE - HEADER_SIZE - HeaderOffset(blockOffset));
    var log, at := LogAfter(crc, dest, blockOffset, [payload]), |dest|;
    LogGrows(crc, dest, blockOffset, [payload]);
    CrossingParse(crc, dest, blockOffset);
    LogDamage.UnfoldRead(log, at, None);
    ZerosRead(log, NextBlock(at));
  }

  lemma CrossingParse(crc: Crc, dest: Bytes, blockOffset: nat)
    requires blockOffset <= BLOCK_SIZE && Trailer(blockOffset) == [] && HeaderAt(|dest|) == |dest|
    requires HeaderOffset(blockOffset) < |dest| % BLOCK_SIZE
    ensures var payload := Zeros(BLOCK_SIZE - HEADER_SIZE - HeaderOffset(blockOffset));
      var log, at := LogAfter(crc, dest, blockOffset, [payload]), |dest|;
      && NextBlock(at) <= |log.bytes| && (forall k :: NextBlock(at) <= k < |log.bytes| ==> log.bytes[k] == 0)
      && PhysicalAt(log, at).kind == BAD_RECORD && PhysicalAt(log, at).used == NextBlock(at) - at
  {
    hide LoadCrc, StoredCrc, Emissions;
    var payload := Zeros(BLOCK_SIZE - HEADER_SIZE - HeaderOffset(blockOffset));
    var log, at := LogAfter(crc, dest, blockOffset, [payload]), |dest|;
    OneRecordLog(crc, dest, blockOffset, payload);
    var h := Header(crc, FULL_TYPE, payload);
    assert log.bytes == dest + (h + payload);
    assert forall i :: 0 <= i < HEADER_SIZE ==> log.bytes[at+i] == h[i];
    assert forall k :: at + HEADER_SIZE <= k < |log.bytes| ==> log.bytes[k] == payload[k - at - HEADER_SIZE];
    var buffer := log.bytes[at..NextBlock(at)];
    assert buffer[4] == h[4] && buffer[5] == h[5];
  }

  /** Where a misplaced writer and the reader part. */
  lemma TheyPart(at: nat, blockOffset: nat)
    requires blockOffset <= BLOCK_SIZE && !AtOffset(blockOffset, at)
    ensures HeaderAt(at) - at == |Trailer(blockOffset)| ==>
              Trailer(blockOffset) == [] && HeaderAt(at) == at && HeaderOffset(blockOffset) != at % BLOCK_SIZE
  {
  }

  /** A misplaced writer, and records that do not read back once it has added them. */
  lemma Misplaced(crc: Crc, dest: Bytes, blockOffset: nat) returns (rs: seq<Bytes>)
    requires blockOffset <= BLOCK_SIZE && !AtOffset(blockOffset, |dest|)
    ensures ReadFrom(LogAfter(crc, dest, blockOffset, rs), |dest|, None).records != rs
  {
    var skipped, filled := HeaderAt(|dest|) - |dest|, |Trailer(blockOffset)|;
    var q := HeaderOffset(blockOffset);
    TheyPart(|dest|, blockOffset);
    hide ReadFrom, LogAfter, Zeros, HeaderAt, Trailer, HeaderOffset, AtOffset;
    if skipped > filled {
      rs := [[]];
      BeyondTheEnd(crc, dest, blockOffset);
    } else if skipped < filled {
      rs := [Mistakable(filled - skipped)];
      ShiftedHeader(crc, dest, blockOffset);
    } else if q < |dest| % BLOCK_SIZE {
      rs := [Zeros(BLOCK_SIZE - HEADER_SIZE - q)];
      CrossesTheBlock(crc, dest, blockOffset);
    } else {
      rs := FullBlockFirst(crc, dest, blockOffset);
    }
  }

  /** What the file is after a record that, for the writer, ends with the block. */
  function FilledUp(crc: Crc, dest: Bytes, blockOffset: nat): Bytes {
    var first := Zeros(BLOCK_SIZE - HEADER_SIZE - HeaderOffset(blockOffset));
    dest + (Header(crc, FULL_TYPE, first) + first)
  }

  /** The writer believes to be later in the block than it is.  Once it believes the block is full, the reader has
      read along, but is still in that block. */
  lemma FullBlockFirst(crc: Crc, dest: Bytes, blockOffset: nat) returns (rs: seq<Bytes>)
    requires blockOffset <= BLOCK_SIZE && Trailer(blockOffset) == [] && HeaderAt(|dest|) == |dest|
    requires |dest| % BLOCK_SIZE < HeaderOffset(blockOffset)
    ensures ReadFrom(LogAfter(crc, dest, blockOffset, rs), |dest|, None).records != rs
  {
    hide ReadFrom, Emissions, Zeros, Header, HeaderAt, Trailer, FilledUp, LogAfter, HeaderOffset, Parse;
    var first := Zeros(BLOCK_SIZE - HEADER_SIZE - HeaderOffset(blockOffset));
    var dest' := FilledUp(crc, dest, blockOffset);
    var more;
    StillInTheBlock(|dest|, HeaderOffset(blockOffset));
    FilledUpLength(crc, dest, blockOffset);
    FullBlock();
    if HeaderAt(|dest'|) > |dest'| {
      more := [[]];
      BeyondTheEnd(crc, dest', BLOCK_SIZE);
    } else {
      more := [Zeros(BLOCK_SIZE - HEADER_SIZE)];
      CrossesTheBlock(crc, dest', BLOCK_SIZE);
    }
    rs := [first] + more;
    FirstReads(crc, dest, blockOffset, more);
    LogGrows(crc, dest', BLOCK_SIZE, more);
    OtherTail([first], ReadFrom(LogAfter(crc, dest', BLOCK_SIZE, more), |dest'|, None).records, more);
  }

  lemma FilledUpLength(crc: Crc, dest: Bytes, blockOffset: nat)
    ensures |FilledUp(crc, dest, blockOffset)| == |dest| + BLOCK_SIZE - HeaderOffset(blockOffset)
  {
  }

  lemma StillInTheBlock(at: nat, q: nat)
    requires at % BLOCK_SIZE < q < BLOCK_SIZE
    ensures 0 < (at + BLOCK_SIZE - q) % BLOCK_SIZE
  {
  }

  lemma FullBlock()
    ensures Trailer(BLOCK_SIZE) == [] && HeaderOffset(BLOCK_SIZE) == 0
  {
  }

  lemma FirstReads(crc: Crc, dest: Bytes, blockOffset: nat, more: seq<Bytes>)
    requires blockOffset <= BLOCK_SIZE && Trailer(blockOffset) == [] && HeaderAt(|dest|) == |dest|
    requires |dest| % BLOCK_SIZE < HeaderOffset(blockOffset)
    ensures var first := Zeros(BLOCK_SIZE - HEADER_SIZE - HeaderOffset(blockOffset));
      var dest' := FilledUp(crc, dest, blockOffset);
      && ReadFrom(LogAfter(crc, dest, blockOffset, [first] + more), |dest|, None).records
         == [first] + ReadFrom(LogAfter(crc, dest', BLOCK_SIZE, more), |dest'|, None).records
  {
    hide ReadFrom, LogAfter, Header, Zeros, HeaderAt, FilledUp, Holds, PhysicalAt, HeaderOffset, Trailer, Parse, StepOn;
    var first := Zeros(BLOCK_SIZE - HEADER_SIZE - HeaderOffset(blockOffset));
    var dest' := FilledUp(crc, dest, blockOffset);
    var log := LogAfter(crc, dest, blockOffset, [first] + more);
    FilledUpLog(crc, dest, blockOffset, more);
    LogGrows(crc, dest', BLOCK_SIZE, more);
    var f := Fragment(0, |dest|, FULL_TYPE, first, 0, []);
    FilledUpHolds(crc, dest, blockOffset, log.bytes, f);
    ReadFragment(log, log.bytes, |dest|, f);
    LogDamage.UnfoldRead(log, |dest|, None);
    LogDamage.StepOnSeen(f, None, f.End() - |dest|);
    assert [] + first == first;
  }

  lemma LogGrows(crc: Crc, dest: Bytes, blockOffset: nat, rs: seq<Bytes>)
    requires blockOffset <= BLOCK_SIZE
    ensures var log := LogAfter(crc, dest, blockOffset, rs); log == LogFile(log.bytes, crc, true) && dest <= log.bytes
  {
    hide Emissions;
  }

  lemma FilledUpLog(crc: Crc, dest: Bytes, blockOffset: nat, more: seq<Bytes>)
    requires blockOffset <= BLOCK_SIZE && Trailer(blockOffset) == []
    ensures LogAfter(crc, dest, blockOffset, [Zeros(BLOCK_SIZE - HEADER_SIZE - HeaderOffset(blockOffset))] + more)
         == LogAfter(crc, FilledUp(crc, dest, blockOffset), BLOCK_SIZE, more)
  {
    var first := Zeros(BLOCK_SIZE - HEADER_SIZE - HeaderOffset(blockOffset));
    OneFragmentEmission(crc, blockOffset, first);
    assert ([first] + more)[1..] == more;
    hide Emission, OffsetAfter, Header, Zeros, Trailer, HeaderOffset;
    assert [] + (Header(crc, FULL_TYPE, first) + first) == Header(crc, FULL_TYPE, first) + first;
  }

  lemma FilledUpHolds(crc: Crc, dest: Bytes, blockOffset: nat, bytes: Bytes, f: Fragment)
    requires FilledUp(crc, dest, blockOffset) <= bytes && |dest| % BLOCK_SIZE < HeaderOffset(blockOffset)
    requires f == Fragment(0, |dest|, FULL_TYPE, Zeros(BLOCK_SIZE - HEADER_SIZE - HeaderOffset(blockOffset)), 0, [])
    ensures Holds(bytes, crc, f) && f.End() == |FilledUp(crc, dest, blockOffset)|
  {
    hide Header, Zeros, HeaderOffset;
    assert bytes[f.start..f.End()] == FilledUp(crc, dest, blockOffset)[|dest|..];
  }

  /** On a new log the append of a one-byte record fails, and nothing gets to the file.  Two more appends work; the
      second record is all in the file, and is not read. */
  lemma LostAfterFailedAppend(crc: Crc)
    ensures var rs := [Zeros(32753), Zeros(32761)];
      && ReadFrom(LogAfter(crc, [], 8, rs), 0, None).records == [Zeros(32753)]
  {
    hide ReadFrom, Zeros, Header, Emissions, LogAfter, FilledUp, Parse;
    var dest' := FilledUp(crc, [], 8);
    FilledUpLength(crc, [], 8);
    assert HeaderOffset(8) == 8 && Trailer(8) == [];
    FullBlock();
    FirstReads(crc, [], 8, [Zeros(32761)]);
    CrossesTheBlock(crc, dest', BLOCK_SIZE);
    assert [Zeros(32753), Zeros(32761)] == [Zeros(32753)] + [Zeros(32761)];
  }

  // ----- what a failed append leaves behind -----

  /** A fragment that begins a record is read alike whatever came before it. */
  lemma PartialDoesNotMatter(log: LogFile, at: nat, partial: Option<Bytes>)
    requires at <= |log.bytes|
    requires var kind := PhysicalAt(log, at).kind; kind == FULL_TYPE as nat || kind == FIRST_TYPE as nat
    ensures RecordAt(log, at, partial).record == RecordAt(log, at, None).record
    ensures RecordAt(log, at, partial).next == RecordAt(log, at, None).next
  {
    UnfoldRecord(log, at, partial, []);
    UnfoldRecord(log, at, None, []);
    hide RecordAt, PhysicalAt;
  }

  lemma RecordsOfReading(log: LogFile, at: nat, partial: Option<Bytes>)
    requires at <= |log.bytes|
    ensures var r := RecordAt(log, at, partial);
      ReadFrom(log, at, partial).records
        == if r.record.Some? then [r.record.value] + ReadFrom(log, r.next, None).records else []
  {
    hide RecordAt;
  }

  /** Behind any whole fragments, a writer whose offset is true adds what reads back, even when the last of them belong to
      a record that was never finished. */
  lemma {:induction false} UnfinishedIsHarmless(log: LogFile, prior: seq<Fragment>, blockOffset: nat, rs: seq<Bytes>,
                                                partial: Option<Bytes>)
    requires AllInBlock(prior) && AtOffset(blockOffset, |Render(log.crc, prior)|) && blockOffset <= BLOCK_SIZE
    requires log.bytes == Render(log.crc, prior) + Emissions(log.crc, blockOffset, rs)
    ensures ReadFrom(log, |Render(log.crc, prior)|, partial).records == rs
    decreases |rs|
  {
    hide Render, RecordAt, ReadFrom, Fragments, Emission, OffsetAfter, AtOffset, Holds, PhysicalAt, LogEnd;
    var at := |Render(log.crc, prior)|;
    if rs == [] {
      TooShort(log, at, partial) by { NoHeaderBehind(at, |log.bytes|); }
    } else {
      var fs := Fragments(rs[0], [], true, at, 0);
      EmissionRenders(log.crc, prior, rs[0], [], true, at, 0, blockOffset);
      RenderFragments(log.crc, prior, rs[0], [], true, at, 0);
      var offset := OffsetAfter(blockOffset, rs[0]);
      var so := Render(log.crc, prior + fs);
      assert log.bytes == so + Emissions(log.crc, offset, rs[1..]);
      forall f | f in fs ensures Holds(log.bytes, log.crc, f) {
        HoldsInLonger(so, log.bytes, log.crc, f);
      }
      ReadRest(log, log.bytes, rs[0], [], true, at, 0);
      FirstBegins(log, rs[0], at, fs);
      PartialDoesNotMatter(log, at, partial);
      RecordsOfReading(log, at, partial);
      UnfinishedIsHarmless(log, prior + fs, offset, rs[1..], None);
      assert [] + rs[0] == rs[0] && [rs[0]] + rs[1..] == rs;
    }
  }

  lemma FirstBegins(log: LogFile, record: Bytes, at: nat, fs: seq<Fragment>)
    requires fs == Fragments(record, [], true, at, 0) && at <= |log.bytes|
    requires forall f :: f in fs ==> Holds(log.bytes, log.crc, f)
    ensures var kind := PhysicalAt(log, at).kind; kind == FULL_TYPE as nat || kind == FIRST_TYPE as nat
  {
    hide Fragments, PhysicalAt, HeaderAt, Header;
    FragmentsStart(record, [], true, at, 0);
    NextFragmentFacts(record, [], true, at, 0);
    var f := NextFragment(record, [], true, at, 0);
    ReadFragment(log, log.bytes, at, f);
  }

  /** Reading on to fragment `f` of a record the earlier fragments of which are whole. */
  lemma {:induction false} ReadsToFragment(log: LogFile, rest: Bytes, before: Bytes, begin: bool, at: nat, r: nat,
                                           f: Fragment)
    returns (there: nat, partial: Option<Bytes>)
    requires at <= |log.bytes| && (begin ==> before == []) && f in Fragments(rest, before, begin, at, r)
    requires forall g :: g in Fragments(rest, before, begin, at, r) && g.End() <= f.start ==> Holds(log.bytes, log.crc, g)
    ensures there <= |log.bytes| && HeaderAt(there) == f.start && (partial.Some? ==> partial.value == f.before)
    ensures ReadFrom(log, at, if begin then None else Some(before)).records == ReadFrom(log, there, partial).records
    decreases |rest|, if Available(at) == 0 then 1 else 0
  {
    hide HeaderAt, Available, Holds, PhysicalAt, ReadFrom, StepOn, Fragments, NextFragment;
    var g := NextFragment(rest, before, begin, at, r);
    FragmentsStart(rest, before, begin, at, r);
    UnfoldFragments(rest, before, begin, at, r);
    NextFragmentFacts(rest, before, begin, at, r);
    partial := if begin then None else Some(before);
    if f == g {
      there := at;
    } else {
      BehindFirst(rest, before, begin, at, r, f);
      HoldsEnds(log.bytes, log.crc, g);
      ReadFragment(log, log.bytes, at, g);
      StepOnFragment(g, begin, partial, g.End() - at);
      LogDamage.UnfoldRead(log, at, partial);
      there, partial := ReadsToFragment(log, rest[|g.payload|..], before + g.payload, false, g.End(), r, f);
    }
  }

  /** Later fragments begin at or behind the end of the first. */
  lemma BehindFirst(rest: Bytes, before: Bytes, begin: bool, at: nat, r: nat, f: Fragment)
    requires f in Fragments(rest, before, begin, at, r) && f != NextFragment(rest, before, begin, at, r)
    ensures var g := NextFragment(rest, before, begin, at, r);
      !g.Ends() && f in Fragments(rest[|g.payload|..], before + g.payload, false, g.End(), r) && g.End() <= f.start
  {
    hide NextFragment, HeaderAt;
    UnfoldFragments(rest, before, begin, at, r);
    var g := NextFragment(rest, before, begin, at, r);
    if !g.Ends() {
      StartsBehind(rest[|g.payload|..], before + g.payload, false, g.End(), r, f);
    }
  }

  lemma {:induction false} StartsBehind(rest: Bytes, before: Bytes, begin: bool, at: nat, r: nat, f: Fragment)
    requires f in Fragments(rest, before, begin, at, r)
    ensures at <= f.start
    decreases |rest|, if Available(at) == 0 then 1 else 0
  {
    hide Fragments, NextFragment, HeaderAt, Available;
    UnfoldFragments(rest, before, begin, at, r);
    NextFragmentFacts(rest, before, begin, at, r);
    FragmentsStart(rest, before, begin, at, r);
    var g := NextFragment(rest, before, begin, at, r);
    if f != g {
      StartsBehind(rest[|g.payload|..], before + g.payload, false, g.End(), r, f);
    }
  }

  /** A fragment with a part of its payload missing, and fewer bytes than a header behind the place where it would have
      ended: whatever is read there, it is not an empty record. */
  lemma TornIsNotEmpty(log: LogFile, at: nat, partial: Option<Bytes>, f: Fragment)
    requires at <= |log.bytes| && f.InBlock() && HeaderAt(at) == f.start && |f.payload| > 0
    requires f.start + HEADER_SIZE <= |log.bytes| < f.End() + HEADER_SIZE
    requires log.bytes[f.start..f.start+HEADER_SIZE] == Header(log.crc, f.kind, f.payload)
    ensures ReadFrom(log, at, partial).records != [[]]
  {
    hide ReadFrom, PhysicalAt, HeaderAt, Header, StepOn;
    TornPhysical(log, at, f);
    LogDamage.UnfoldRead(log, at, partial);
    var p := PhysicalAt(log, at);
    NoHeaderBehind(at + p.used, |log.bytes|);
    match StepOn(partial, p) {
      case Complete(record, _) =>
        CompletedBy(partial, p, record);
        assert record != [] && ReadFrom(log, at, partial).records[0] == record;
      case Carry(after, _) => TooShort(log, at + p.used, after);
      case Stop =>
    }
  }

  lemma TornPhysical(log: LogFile, at: nat, f: Fragment)
    requires at <= |log.bytes| && f.InBlock() && HeaderAt(at) == f.start && |f.payload| > 0
    requires f.start + HEADER_SIZE <= |log.bytes| < f.End() + HEADER_SIZE
    requires log.bytes[f.start..f.start+HEADER_SIZE] == Header(log.crc, f.kind, f.payload)
    ensures var p := PhysicalAt(log, at);
      && |log.bytes| < at + p.used + HEADER_SIZE
      && (FULL_TYPE as nat <= p.kind <= LAST_TYPE as nat ==> p.payload != [])
  {
    hide StoredCrc, LoadCrc;
    var size, start := |log.bytes|, f.start;
    BlockBounds(f, size);
    HeaderFits(start, size);
    var buffer := log.bytes[start..BlockEnd(size, start)];
    var h := log.bytes[start..start+HEADER_SIZE];
    assert buffer[4] == h[4] && buffer[5] == h[5] && buffer[6] == h[6];
  }

  /** Behind `records` and a torn `record`, reading gets to the torn fragment with the records and nothing else. */
  lemma ReadsToTorn(log: LogFile, records: seq<Bytes>, record: Bytes, f: Fragment, n: nat)
    returns (there: nat, partial: Option<Bytes>)
    requires f in Fragments(record, [], true, |Encode(log.crc, records)|, |records|)
    requires f.start <= n < f.End() && n <= |Encode(log.crc, records + [record])|
    requires Encode(log.crc, records + [record])[..n] <= log.bytes
    ensures Holds(Encode(log.crc, records + [record]), log.crc, f)
    ensures there <= |log.bytes| && HeaderAt(there) == f.start && (partial.Some? ==> partial.value == f.before)
    ensures ReadFrom(log, 0, None).records == records + ReadFrom(log, there, partial).records
  {
    hide Encode, ReadFrom, Fragments, Header, Holds, HeaderAt, PhysicalAt, Layout, LogEnd;
    var full, at := Encode(log.crc, records + [record]), |Encode(log.crc, records)|;
    EncodeHolds(log.crc, records + [record]);
    assert (records + [record])[..|records|] == records;
    LogOfRecords(log.crc, records + [record], |records|);
    StartsBehind(record, [], true, at, |records|, f);
    assert Encode(log.crc, records) <= log.bytes;
    forall g | g in Fragments(record, [], true, at, |records|) && g.End() <= f.start ensures Holds(log.bytes, log.crc, g) {
      HoldsInPrefix(full, log.bytes, n, log.crc, g);
    }
    ReadsThrough(log, records, 0);
    EmptyLog(log.crc);
    assert records[..0] == [] && records[0..] == records;
    there, partial := ReadsToFragment(log, record, [], true, at, |records|, f);
  }

  /** When an append fails in the midst of a payload, and the writer's offset has room for a header (and, for all that,
      may be where the file ends), the next record may not read back. */
  lemma TornPayloadLosesNext(crc: Crc, records: seq<Bytes>, record: Bytes, f: Fragment, n: nat, blockOffset: nat)
    requires f in Fragments(record, [], true, |Encode(crc, records)|, |records|)
    requires f.start + HEADER_SIZE <= n < f.End() && n <= |Encode(crc, records + [record])|
    requires blockOffset <= BLOCK_SIZE && Trailer(blockOffset) == []
    ensures ReadFrom(LogAfter(crc, Encode(crc, records + [record])[..n], blockOffset, [[]]), 0, None).records != records + [[]]
  {
    hide Encode, ReadFrom, Fragments, Header, Holds, LogAfter, Trailer, HeaderAt;
    var full := Encode(crc, records + [record]);
    var log := LogAfter(crc, full[..n], blockOffset, [[]]);
    TornLog(crc, full[..n], blockOffset, []);
    var there, partial := ReadsToTorn(log, records, record, f, n);
    HoldsEnds(full, crc, f);
    HeaderInPrefix(full, log.bytes, n, crc, f);
    TornIsNotEmpty(log, there, partial, f);
    OtherTail(records, ReadFrom(log, there, partial).records, [[]]);
  }

  /** When an append fails in the midst of a header, and the writer's block has room for a short record, the next record
      may not read back. */
  lemma TornHeaderLosesNext(crc: Crc, records: seq<Bytes>, record: Bytes, f: Fragment, n: nat, blockOffset: nat)
    returns (next: Bytes)
    requires f in Fragments(record, [], true, |Encode(crc, records)|, |records|)
    requires f.start < n < f.start + HEADER_SIZE && n <= |Encode(crc, records + [record])|
    requires blockOffset + HEADER_SIZE + 12 <= BLOCK_SIZE
    ensures ReadFrom(LogAfter(crc, Encode(crc, records + [record])[..n], blockOffset, [next]), 0, None).records
         != records + [next]
  {
    hide Encode, ReadFrom, Fragments, Header, Holds, LogAfter, HeaderAt, Zeros;
    var full := Encode(crc, records + [record]);
    var m: nat := if |f.before| > 6 then 6 else 12;
    next := Zeros(m);
    var log := LogAfter(crc, full[..n], blockOffset, [next]);
    TornLog(crc, full[..n], blockOffset, next);
    var there, partial := ReadsToTorn(log, records, record, f, n);
    HoldsEnds(full, crc, f);
    TornHeaderIsNotZeros(log, there, partial, f, n, m);
    OtherTail(records, ReadFrom(log, there, partial).records, [next]);
  }

  /** A part of a header, and then a record of zeros: whatever is read there, it is not that record.  What is taken for
      its payload either holds the type of the record's own header or is too short, and what comes after has type zero. */
  lemma TornHeaderIsNotZeros(log: LogFile, at: nat, partial: Option<Bytes>, f: Fragment, n: nat, m: nat)
    requires at <= |log.bytes| && HeaderAt(at) == f.start && f.start < n < f.start + HEADER_SIZE && n <= |log.bytes|
    requires m == if |f.before| > 6 then 6 else 12
    requires log.bytes[n..] == Header(log.crc, FULL_TYPE, Zeros(m)) + Zeros(m)
    requires partial.Some? ==> partial.value == f.before
    ensures ReadFrom(log, at, partial).records != [Zeros(m)]
  {
    hide ReadFrom, PhysicalAt, HeaderAt, Header, StepOn;
    var p := PhysicalAt(log, at);
    ZerosFrom(log, n, m);
    LogDamage.UnfoldRead(log, at, partial);
    TakenForPayload(log, at, n);
    match StepOn(partial, p) {
      case Complete(record, _) =>
        CompletedBy(partial, p, record);
        NotTheZeros(log, p, if record == p.payload then [] else f.before, n - f.start, m);
        assert ReadFrom(log, at, partial).records[0] == record;
      case Carry(after, _) => NothingInZeros(log, at + p.used, after, n + HEADER_SIZE);
      case Stop =>
    }
  }

  lemma ZerosFrom(log: LogFile, n: nat, m: nat)
    requires m <= 12 && n <= |log.bytes| && log.bytes[n..] == Header(log.crc, FULL_TYPE, Zeros(m)) + Zeros(m)
    ensures n + HEADER_SIZE <= |log.bytes| && log.bytes[n+6] == FULL_TYPE
    ensures forall k :: n + HEADER_SIZE <= k < |log.bytes| ==> log.bytes[k] == 0
  {
    var tail := log.bytes[n..];
    assert tail[6] == FULL_TYPE;
    forall k | n + HEADER_SIZE <= k < |log.bytes| ensures log.bytes[k] == 0 {
      assert tail[k-n] == 0;
    }
  }

  /** A completed record is the payload alone, or comes behind what was read before. */
  lemma CompletedBy(partial: Option<Bytes>, p: Physical, record: Bytes)
    requires StepOn(partial, p).Complete? && StepOn(partial, p).record == record
    ensures FULL_TYPE as nat <= p.kind <= LAST_TYPE as nat
    ensures record == p.payload || (partial.Some? && record == partial.value + p.payload)
  {
  }

  /** A payload read from a header less than a header's length before `n`: the byte at `n + 6` is in it, unless it is too
      short. */
  lemma TakenForPayload(log: LogFile, at: nat, n: nat)
    requires at <= |log.bytes| && HeaderAt(at) < n < HeaderAt(at) + HEADER_SIZE && n + HEADER_SIZE <= |log.bytes|
    ensures var p, k := PhysicalAt(log, at), n - HeaderAt(at);
      && at + p.used > n
      && (FULL_TYPE as nat <= p.kind <= LAST_TYPE as nat ==> |p.payload| < k || p.payload[k-1] == log.bytes[n+6])
  {
    hide LoadCrc;
    var size, start := |log.bytes|, HeaderAt(at);
    HeaderFits(start, size);
    var buffer := log.bytes[start..BlockEnd(size, start)];
  }

  lemma NotTheZeros(log: LogFile, p: Physical, before: Bytes, k: nat, m: nat)
    requires 1 <= k < HEADER_SIZE && (|p.payload| < k || p.payload[k-1] == FULL_TYPE)
    requires 6 <= m <= 12 && (if |before| > 6 then m == 6 else before == [] || m == 12)
    ensures before + p.payload != Zeros(m)
  {
    if |p.payload| >= k {
      assert (before + p.payload)[|before|+k-1] == FULL_TYPE;
    } else {
      assert |before + p.payload| != m;
    }
  }

  /** Where the type of every header still to come is zero, nothing is read. */
  lemma {:induction false} NothingInZeros(log: LogFile, at: nat, partial: Option<Bytes>, from: nat)
    requires at <= |log.bytes| && from <= at + 6 && forall k :: from <= k < |log.bytes| ==> log.bytes[k] == 0
    ensures ReadFrom(log, at, partial).records == []
    decreases |log.bytes| - at
  {
    hide ReadFrom, PhysicalAt, StepOn;
    LogDamage.UnfoldRead(log, at, partial);
    TypeZero(log, at, partial, from);
    var p := PhysicalAt(log, at);
    if StepOn(partial, p).Carry? {
      NothingInZeros(log, at + p.used, StepOn(partial, p).partial, from);
    }
  }

  lemma TypeZero(log: LogFile, at: nat, partial: Option<Bytes>, from: nat)
    requires at <= |log.bytes| && from <= at + 6 && forall k :: from <= k < |log.bytes| ==> log.bytes[k] == 0
    ensures !StepOn(partial, PhysicalAt(log, at)).Complete?
  {
    hide LoadCrc;
    var size, start := |log.bytes|, HeaderAt(at);
    if start + HEADER_SIZE <= size {
      HeaderFits(start, size);
      assert log.bytes[start..BlockEnd(size, start)][6] == log.bytes[start+6];
    }
  }

  lemma TornLog(crc: Crc, dest: Bytes, blockOffset: nat, next: Bytes)
    requires blockOffset <= BLOCK_SIZE && Trailer(blockOffset) == []
    requires HeaderOffset(blockOffset) + HEADER_SIZE + |next| <= BLOCK_SIZE
    ensures var log := LogAfter(crc, dest, blockOffset, [next]);
      && log == LogFile(log.bytes, crc, true) && dest <= log.bytes && |log.bytes| == |dest| + HEADER_SIZE + |next|
      && log.bytes[|dest|..] == Header(crc, FULL_TYPE, next) + next
  {
    OneRecordLog(crc, dest, blockOffset, next);
    LogGrows(crc, dest, blockOffset, [next]);
    hide LogAfter, Header;
    assert [] + (Header(crc, FULL_TYPE, next) + next) == Header(crc, FULL_TYPE, next) + next;
  }

  lemma HoldsEnds(bytes: Bytes, crc: Crc, g: Fragment)
    requires Holds(bytes, crc, g)
    ensures g.End() <= |bytes| && g.InBlock()
  {
    hide Header;
  }

  lemma HoldsInPrefix(full: Bytes, bytes: Bytes, n: nat, crc: Crc, g: Fragment)
    requires n <= |full| && full[..n] <= bytes && Holds(full, crc, g) && g.End() <= n
    ensures Holds(bytes, crc, g)
  {
    hide Header;
    assert bytes[g.start..g.End()] == full[g.start..g.End()];
  }

  lemma HeaderInPrefix(full: Bytes, bytes: Bytes, n: nat, crc: Crc, f: Fragment)
    requires n <= |full| && full[..n] <= bytes && Holds(full, crc, f) && f.start + HEADER_SIZE <= n
    ensures bytes[f.start..f.start+HEADER_SIZE] == Header(crc, f.kind, f.payload)
  {
    hide Header;
    assert bytes[f.start..f.start+HEADER_SIZE] == full[f.start..f.End()][..HEADER_SIZE];
  }

  /** A first append dies after one byte of its payload, and the offset comes round to where the file ends: an empty
      record, appended without a failure, is not read. */
  lemma TornAtTrueOffset(crc: Crc)
    ensures var dest := Header(crc, FULL_TYPE, Zeros(100)) + [0];
      && AtOffset(8, |dest|) && ReadFrom(LogAfter(crc, dest, 8, [[]]), 0, None).records == []
  {
    hide ReadFrom, Header, LogAfter, Zeros;
    var dest := Header(crc, FULL_TYPE, Zeros(100)) + [0];
    var log := LogAfter(crc, dest, 8, [[]]);
    TornLog(crc, dest, 8, []);
    TornEnds(log, dest);
    LogDamage.UnfoldRead(log, 0, None);
  }

  lemma TornEnds(log: LogFile, dest: Bytes)
    requires dest == Header(log.crc, FULL_TYPE, Zeros(100)) + [0] && dest <= log.bytes && |log.bytes| == 15
    ensures PhysicalAt(log, 0) == Physical(EOF, [], 15, None)
  {
    hide StoredCrc;
    assert HeaderAt(0) == 0 && BlockEnd(15, 0) == 15;
    assert log.bytes[0..15][4] == dest[4] == 100 && log.bytes[0..15][5] == dest[5] == 0;
  }
}
