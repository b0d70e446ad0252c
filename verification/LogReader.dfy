/** db/log_reader.cc, reading a file from its start. */
module LogReader {
  import opened Keys
  import opened Coding
  import opened LogFormat

  const EOF: nat := 5
  const BAD_RECORD: nat := 6

  datatype LogFile = LogFile(bytes: Bytes, crc: Crc, checksum: bool)

  /** A physical record, the end of the file, or something damaged whose block is dropped; `used` counts the bytes
      it takes. */
  datatype Physical = Physical(kind: nat, payload: Bytes, used: nat, dropped: Option<nat>)

  /** What a buffer holding the rest of a block starts with; `torn` says that the block is the file's short last. */
  function Parse(log: LogFile, buffer: Bytes, torn: bool): (p: Physical)
    requires |buffer| >= HEADER_SIZE
    ensures 0 < p.used <= |buffer| && (p.dropped.Some? ==> p.kind == BAD_RECORD)
  {
    var kind, length := buffer[6], buffer[4] as nat + buffer[5] as nat * 256;
    if HEADER_SIZE + length > |buffer| then
      if torn then Physical(EOF, [], |buffer|, None) else Physical(BAD_RECORD, [], |buffer|, Some(|buffer|))
    else if kind == ZERO_TYPE && length == 0 then Physical(BAD_RECORD, [], |buffer|, None)
    else if log.checksum && LoadCrc(buffer) != log.crc(buffer[6..HEADER_SIZE+length]) then
      Physical(BAD_RECORD, [], |buffer|, Some(|buffer|))
    else Physical(kind as nat, buffer[HEADER_SIZE..HEADER_SIZE+length], HEADER_SIZE + length, None)
  }

  function NextBlock(at: nat): (next: nat)
    ensures at < next <= at + BLOCK_SIZE
  {
    (at / BLOCK_SIZE + 1) * BLOCK_SIZE
  }

  predicate Torn(size: nat, at: nat) { size < NextBlock(at) }

  function BlockEnd(size: nat, at: nat): nat { if Torn(size, at) then size else NextBlock(at) }

  /** What lies at a position of the file. */
  function PhysicalAt(log: LogFile, at: nat): (p: Physical)
    requires at <= |log.bytes|
    ensures at + p.used <= |log.bytes|
    ensures p.kind != EOF ==> p.used > 0
    ensures p.dropped.Some? ==> p.kind == BAD_RECORD
  {
    var size, start := |log.bytes|, HeaderAt(at);
    if size < start + HEADER_SIZE then Physical(EOF, [], size - at, None)
    else
      HeaderFits(start, size);
      var p := Parse(log, log.bytes[start..BlockEnd(size, start)], Torn(size, start));
      p.(used := start - at + p.used)
  }

  lemma HeaderFits(start: nat, size: nat)
    requires start + HEADER_SIZE <= size && start % BLOCK_SIZE + HEADER_SIZE <= BLOCK_SIZE
    ensures start + HEADER_SIZE <= BlockEnd(size, start) <= size
  {
  }

  /** What a physical record does to the unfinished record `partial`: it completes a record, ends the file, or leaves
      another unfinished one; `drops` are the byte counts reported. */
  datatype Step = Complete(record: Bytes, drops: seq<nat>) | Stop | Carry(partial: Option<Bytes>, drops: seq<nat>)

  function StepOn(partial: Option<Bytes>, p: Physical): Step {
    var scratch := if partial.Some? then partial.value else [];
    var unfinished := if scratch != [] then [|scratch|] else [];
    if p.kind == FULL_TYPE as nat then Complete(p.payload, unfinished)
    else if p.kind == FIRST_TYPE as nat then Carry(Some(p.payload), unfinished)
    else if p.kind == MIDDLE_TYPE as nat then
      if partial.Some? then Carry(Some(scratch + p.payload), []) else Carry(None, [|p.payload|])
    else if p.kind == LAST_TYPE as nat then
      if partial.Some? then Complete(scratch + p.payload, []) else Carry(None, [|p.payload|])
    else if p.kind == EOF then Stop
    else if p.kind == BAD_RECORD then
      Carry(None, (if p.dropped.Some? then [p.dropped.value] else []) + if partial.Some? then [|scratch|] else [])
    else Carry(None, [|p.payload| + |scratch|])
  }

  datatype Reading = Reading(record: Option<Bytes>, next: nat, drops: seq<nat>)

  /** The record read from a position on. */
  function RecordAt(log: LogFile, at: nat, partial: Option<Bytes>): (r: Reading)
    requires at <= |log.bytes|
    ensures at <= r.next <= |log.bytes|
    ensures r.record.Some? ==> at < r.next
    decreases |log.bytes| - at
  {
    var p := PhysicalAt(log, at);
    match StepOn(partial, p) {
      case Complete(record, drops) => Reading(Some(record), at + p.used, drops)
      case Stop => Reading(None, at + p.used, [])
      case Carry(after, drops) =>
        var rest := RecordAt(log, at + p.used, after);
        rest.(drops := drops + rest.drops)
    }
  }

  lemma UnfoldRecord(log: LogFile, at: nat, partial: Option<Bytes>, before: seq<nat>)
    requires at <= |log.bytes|
    ensures var p, r := PhysicalAt(log, at), RecordAt(log, at, partial);
      match StepOn(partial, p)
      case Complete(record, drops) => r == Reading(Some(record), at + p.used, drops)
      case Stop => r == Reading(None, at + p.used, [])
      case Carry(after, drops) =>
        var rest := RecordAt(log, at + p.used, after);
        r.record == rest.record && r.next == rest.next && before + r.drops == (before + drops) + rest.drops
  {
    hide PhysicalAt, StepOn;
  }

  datatype Contents = Contents(records: seq<Bytes>, drops: seq<nat>)

  /** Everything ReadRecord returns and reports until it returns false. */
  function ReadFrom(log: LogFile, at: nat, partial: Option<Bytes>): Contents
    requires at <= |log.bytes|
    decreases |log.bytes| - at
  {
    var r := RecordAt(log, at, partial);
    match r.record {
      case None => Contents([], r.drops)
      case Some(record) =>
        var rest := ReadFrom(log, r.next, None);
        Contents([record] + rest.records, r.drops + rest.drops)
    }
  }

  /** The buffer never reaches past the block that holds the position. */
  predicate Window(size: nat, at: nat, end: nat, eof: bool) {
    && at <= end <= size
    && if eof then end == size && at % BLOCK_SIZE + (end - at) < BLOCK_SIZE
       else end % BLOCK_SIZE == 0 && end - at <= BLOCK_SIZE
  }

  lemma WindowMoves(size: nat, at: nat, end: nat, eof: bool, next: nat)
    requires Window(size, at, end, eof) && at <= next <= end
    ensures Window(size, next, end, eof)
  {
  }

  lemma WindowReads(size: nat, end: nat, next: nat)
    requires Window(size, end, end, false) && end <= next <= size
    requires next == if size - end > BLOCK_SIZE then end + BLOCK_SIZE else size
    ensures Window(size, end, next, next - end < BLOCK_SIZE)
  {
  }

  /** Looking from either position finds the same. */
  predicate SameFrom(log: LogFile, at: nat, later: nat)
    requires at <= |log.bytes| && later <= |log.bytes|
  {
    var p, q := PhysicalAt(log, at), PhysicalAt(log, later);
    p.kind == q.kind && p.payload == q.payload && p.dropped == q.dropped && at + p.used == later + q.used
  }

  /** A short buffer holds no header. */
  lemma ShortBuffer(log: LogFile, at: nat, end: nat, eof: bool)
    requires Window(|log.bytes|, at, end, eof) && end - at < HEADER_SIZE
    ensures if eof then PhysicalAt(log, at) == Physical(EOF, [], end - at, None)
            else SameFrom(log, at, end)
  {
    hide Parse;
  }

  lemma LongBuffer(log: LogFile, at: nat, end: nat, eof: bool)
    requires Window(|log.bytes|, at, end, eof) && end - at >= HEADER_SIZE
    ensures PhysicalAt(log, at) == Parse(log, log.bytes[at..end], eof)
  {
    assert HeaderAt(at) == at && BlockEnd(|log.bytes|, at) == end && Torn(|log.bytes|, at) == eof;
  }

  class Reader {
    const log: LogFile
    /** Bytes of the file read into the buffer so far. */
    var endOfBufferOffset: nat
    var buffer: Bytes
    var eof: bool
    /** The byte counts reported as corruption. */
    var drops: seq<nat>

    ghost predicate Valid()
      reads this
    {
      && |buffer| <= endOfBufferOffset <= |log.bytes|
      && buffer == log.bytes[Position()..endOfBufferOffset]
      && Window(|log.bytes|, Position(), endOfBufferOffset, eof)
    }

    ghost function Position(): nat
      requires |buffer| <= endOfBufferOffset
      reads this
    {
      endOfBufferOffset - |buffer|
    }

    constructor (log: LogFile)
      ensures Valid() && this.log == log && Position() == 0 && drops == []
    {
      this.log := log;
      endOfBufferOffset := 0;
      buffer := [];
      eof := false;
      drops := [];
    }

    /** Reads one block, or what is left of the file. */
    method ReadBlock()
      requires Valid() && !eof && |buffer| < HEADER_SIZE
      modifies this
      ensures Valid() && drops == old(drops)
      ensures Position() == old(endOfBufferOffset) && SameFrom(log, old(Position()), Position())
      ensures eof || |buffer| == BLOCK_SIZE
    {
      hide Window, SameFrom;
      ShortBuffer(log, Position(), endOfBufferOffset, false);
      WindowMoves(|log.bytes|, Position(), endOfBufferOffset, false, endOfBufferOffset);
      var n := |log.bytes| - endOfBufferOffset;
      if n > BLOCK_SIZE {
        n := BLOCK_SIZE;
      }
      WindowReads(|log.bytes|, endOfBufferOffset, endOfBufferOffset + n);
      buffer := log.bytes[endOfBufferOffset..endOfBufferOffset+n];
      endOfBufferOffset := endOfBufferOffset + n;
      if |buffer| < BLOCK_SIZE {
        eof := true;
      }
    }

    method ReadPhysicalRecord() returns (kind: nat, result: Bytes)
      requires Valid()
      modifies this
      ensures Valid()
      ensures var p := PhysicalAt(log, old(Position()));
        && kind == p.kind && result == p.payload && Position() == old(Position()) + p.used
        && drops == old(drops) + if p.dropped.Some? then [p.dropped.value] else []
    {
      hide Window, PhysicalAt, Parse;
      ghost var start := Position();
      while |buffer| < HEADER_SIZE
        invariant Valid() && drops == old(drops) && SameFrom(log, start, Position())
        decreases !eof, HEADER_SIZE - |buffer|
      {
        if eof {
          ShortBuffer(log, Position(), endOfBufferOffset, true);
          WindowMoves(|log.bytes|, Position(), endOfBufferOffset, true, endOfBufferOffset);
          buffer := [];
          return EOF, [];
        }
        ReadBlock();
      }
      ghost var p := Parse(log, buffer, eof);
      LongBuffer(log, Position(), endOfBufferOffset, eof);
      WindowMoves(|log.bytes|, Position(), endOfBufferOffset, eof, Position() + p.used);
      kind, result := ParseBuffer();
    }

    /** Takes one physical record, or the whole buffer, from the front of the buffer. */
    method ParseBuffer() returns (kind: nat, result: Bytes)
      requires |buffer| >= HEADER_SIZE
      modifies `buffer, `drops
      ensures var p := Parse(log, old(buffer), eof);
        && kind == p.kind && result == p.payload && buffer == old(buffer)[p.used..]
        && drops == old(drops) + if p.dropped.Some? then [p.dropped.value] else []
    {
      hide LoadCrc;
      var header := buffer;
      var length := header[4] as nat + header[5] as nat * 256;
      var t := header[6];
      if HEADER_SIZE + length > |buffer| {
        var dropSize := |buffer|;
        buffer := [];
        if !eof {
          drops := drops + [dropSize];
          return BAD_RECORD, [];
        }
        return EOF, [];
      }
      if t == ZERO_TYPE && length == 0 {
        buffer := [];
        return BAD_RECORD, [];
      }
      if log.checksum {
        var expected := LoadCrc(header);
        var actual := log.crc(header[6..HEADER_SIZE+length]);
        if actual != expected {
          var dropSize := |buffer|;
          buffer := [];
          drops := drops + [dropSize];
          return BAD_RECORD, [];
        }
      }
      buffer := buffer[HEADER_SIZE+length..];
      return t as nat, header[HEADER_SIZE..HEADER_SIZE+length];
    }

    method ReadRecord() returns (ok: bool, record: Bytes)
      requires Valid()
      modifies this
      ensures Valid()
      ensures var r := RecordAt(log, old(Position()), None);
        && ok == r.record.Some? && (ok ==> record == r.record.value)
        && Position() == r.next && drops == old(drops) + r.drops
    {
      hide PhysicalAt, Window, RecordAt;
      var scratch: Bytes, inFragmentedRecord := [], false;
      record := [];
      ghost var whole := RecordAt(log, Position(), None);
      while true
        invariant Valid() && (inFragmentedRecord || scratch == [])
        invariant Remains(whole, old(drops), inFragmentedRecord, scratch)
        decreases |log.bytes| - Position()
      {
        ghost var partial := if inFragmentedRecord then Some(scratch) else None;
        UnfoldRecord(log, Position(), partial, drops);
        var kind, fragment := ReadPhysicalRecord();
        if kind == FULL_TYPE as nat {
          if inFragmentedRecord && scratch != [] {
            drops := drops + [|scratch|];
          }
          return true, fragment;
        } else if kind == FIRST_TYPE as nat {
          if inFragmentedRecord && scratch != [] {
            drops := drops + [|scratch|];
          }
          scratch := fragment;
          inFragmentedRecord := true;
        } else if kind == MIDDLE_TYPE as nat {
          if !inFragmentedRecord {
            drops := drops + [|fragment|];
          } else {
            scratch := scratch + fragment;
          }
        } else if kind == LAST_TYPE as nat {
          if !inFragmentedRecord {
            drops := drops + [|fragment|];
          } else {
            scratch := scratch + fragment;
            return true, scratch;
          }
        } else if kind == EOF {
          return false, [];
        } else if kind == BAD_RECORD {
          if inFragmentedRecord {
            drops := drops + [|scratch|];
            inFragmentedRecord := false;
            scratch := [];
          }
        } else {
          drops := drops + [|fragment| + if inFragmentedRecord then |scratch| else 0];
          inFragmentedRecord := false;
          scratch := [];
        }
      }
    }

    /** The reading still to come completes `whole`. */
    ghost predicate Remains(whole: Reading, before: seq<nat>, inFragmentedRecord: bool, scratch: Bytes)
      requires Valid()
      reads this
    {
      var rest := RecordAt(log, Position(), if inFragmentedRecord then Some(scratch) else None);
      rest.record == whole.record && rest.next == whole.next && drops + rest.drops == before + whole.drops
    }
  }

  /** The recovery loop: reads records until there are no more. */
  method ReadLog(log: LogFile) returns (contents: Contents)
    ensures contents == ReadFrom(log, 0, None)
  {
    hide RecordAt;
    var reader := new Reader(log);
    var records := [];
    while true
      invariant reader.Valid() && reader.log == log && fresh(reader)
      invariant var rest := ReadFrom(log, reader.Position(), None);
        ReadFrom(log, 0, None) == Contents(records + rest.records, reader.drops + rest.drops)
      decreases |log.bytes| - reader.Position()
    {
      var ok, record := reader.ReadRecord();
      if !ok {
        return Contents(records, reader.drops);
      }
      records := records + [record];
    }
  }
}
