/** db/log_writer.cc */
module LogWriter {
  import opened Keys
  import opened Coding
  import opened LogFormat

  /** What becomes of a call on the file: it works, or it fails after at most `kept` bytes have got there. */
  datatype Fate = Works | Fails(kept: nat)

  class Writer {
    const crc: Crc
    /** What becomes of each call on the file, by number. */
    const fate: nat -> Fate
    var dest: Bytes
    var blockOffset: nat
    /** Calls on the file so far. */
    var calls: nat
    /** The records added before any call on the file failed. */
    ghost var records: seq<Bytes>

    ghost predicate AllWork(from: nat, to: nat)
    {
      forall k :: from <= k < to ==> fate(k).Works?
    }

    /** No call on the file has failed since it was opened. */
    ghost predicate Sound()
      reads this
    {
      AllWork(0, calls)
    }

    ghost predicate Valid()
      reads this
    {
      && blockOffset <= BLOCK_SIZE
      && (Sound() ==> && dest == Encode(crc, records) && |dest| == LogEnd(Layout(records))
                      && AtOffset(blockOffset, |dest|))
    }

    constructor (crc: Crc, fate: nat -> Fate)
      ensures Valid() && Sound() && records == [] && dest == [] && this.crc == crc && this.fate == fate
    {
      this.crc, this.fate := crc, fate;
      dest, blockOffset, calls := [], 0, 0;
      records := [];
    }

    /** While no call fails, the file goes on to be the log of the records.  Whatever failed before, an undisturbed
        call adds what `Emission` says at the offset the writer believes in. */
    method AddRecord(record: Bytes) returns (ok: bool)
      requires Valid()
      modifies this
      ensures Valid() && old(calls) < calls && old(dest) <= dest
      ensures AllWork(old(calls), calls) ==>
                && ok && dest == old(dest) + Emission(crc, old(blockOffset), record, true)
                && blockOffset == OffsetAfter(old(blockOffset), record)
      ensures Sound() ==> old(Sound()) && ok && dest == Encode(crc, old(records) + [record])
      ensures records == if Sound() then old(records) + [record] else old(records)
    {
      hide AtOffset, Layout, LogEnd, Encode, HeaderOffset, FragmentType, Trailer, Emitting, AllWork, Padded, Emitted,
           Emission, OffsetAfter;
      var ptr, begin, more := 0, true, true;
      ok := true;
      EmittingStarts(crc, dest, blockOffset, record);
      NoCalls(calls);
      while more
        invariant ptr <= |record| && blockOffset <= BLOCK_SIZE && old(dest) <= dest && records == old(records)
        invariant old(calls) <= calls && (old(calls) == calls ==> more)
        invariant if AllWork(old(calls), calls)
                  then ok && Emitting(crc, old(dest), old(blockOffset), record, dest, blockOffset, ptr, begin, more)
                  else !more || ok
        decreases |record| - ptr, StepsWithoutProgress(more, blockOffset)
      {
        ghost var before, offset, called := dest, blockOffset, calls;
        SwitchBlock();
        ghost var switched := calls;
        var avail := BLOCK_SIZE - blockOffset - HEADER_SIZE;
        var left := |record| - ptr;
        var fragmentLength := if left < avail then left else avail;
        var end := left == fragmentLength;
        FragmentFits(offset, left, fragmentLength);
        var emitted := EmitPhysicalRecord(FragmentType(begin, end), record[ptr..ptr+fragmentLength]);
        CallsTogether(old(calls), called, calls);
        CallsTogether(called, switched, calls);
        if AllWork(old(calls), calls) {
          EmittingStep(crc, old(dest), old(blockOffset), record, before, offset, ptr, begin);
        }
        ok := emitted;
        ptr := ptr + fragmentLength;
        begin := false;
        more := ok && |record| - ptr > 0;
      }
      CallsTogether(0, old(calls), calls);
      if AllWork(old(calls), calls) {
        EmittingEnds(crc, old(dest), old(blockOffset), record, dest, blockOffset, ptr, begin);
        if AllWork(0, old(calls)) {
          EmissionExtends(crc, records, record, old(blockOffset));
          records := records + [record];
        }
      }
    }

    lemma NoCalls(n: nat)
      ensures AllWork(n, n)
    {
    }

    lemma CallsTogether(a: nat, b: nat, c: nat)
      requires a <= b <= c
      ensures AllWork(a, c) <==> AllWork(a, b) && AllWork(b, c)
    {
    }

    /** WritableFile::Append. */
    method Append(data: Bytes) returns (ok: bool)
      modifies `dest, `calls
      ensures calls == old(calls) + 1 && (ok <==> AllWork(old(calls), calls))
      ensures old(dest) <= dest <= old(dest) + data && (ok ==> dest == old(dest) + data)
    {
      var outcome := fate(calls);
      calls := calls + 1;
      match outcome {
        case Works =>
          dest := dest + data;
          ok := true;
        case Fails(kept) =>
          dest := dest + data[..if kept < |data| then kept else |data|];
          ok := false;
      }
    }

    method Flush() returns (ok: bool)
      modifies `calls
      ensures calls == old(calls) + 1 && (ok <==> AllWork(old(calls), calls))
    {
      ok := fate(calls).Works?;
      calls := calls + 1;
    }

    /** Goes to a new block when this one cannot hold a header.  Nobody looks at whether filling the old one worked. */
    method SwitchBlock()
      requires blockOffset <= BLOCK_SIZE
      modifies `dest, `blockOffset, `calls
      ensures old(calls) <= calls && blockOffset == HeaderOffset(old(blockOffset))
      ensures old(dest) <= dest <= Padded(old(dest), old(blockOffset))
      ensures AllWork(old(calls), calls) ==> dest == Padded(old(dest), old(blockOffset))
    {
      var leftover := BLOCK_SIZE - blockOffset;
      if leftover < HEADER_SIZE {
        if leftover > 0 {
          var _ := Append([0, 0, 0, 0, 0, 0][..leftover]);
        }
        blockOffset := 0;
      }
    }

    /** The offset moves on even if the file does not. */
    method EmitPhysicalRecord(kind: byte, payload: Bytes) returns (ok: bool)
      requires blockOffset + HEADER_SIZE + |payload| <= BLOCK_SIZE
      modifies `dest, `blockOffset, `calls
      ensures old(calls) < calls && (ok <==> AllWork(old(calls), calls))
      ensures old(dest) <= dest <= Emitted(crc, old(dest), kind, payload)
      ensures ok ==> dest == Emitted(crc, old(dest), kind, payload)
      ensures blockOffset == old(blockOffset) + HEADER_SIZE + |payload|
    {
      var checksum := crc([kind] + payload);
      var buf := StoredCrc(checksum)
              + [(|payload| % 256) as byte, (|payload| / 256) as byte, kind];
      assert dest + buf <= dest + (buf + payload);
      assert (dest + buf) + payload == dest + (buf + payload);
      ok := Append(buf);
      if ok {
        ok := Append(payload);
        if ok {
          ok := Flush();
        }
      }
      blockOffset := blockOffset + HEADER_SIZE + |payload|;
    }
  }

  /** The writer's offset in the block, for a file of `at` bytes; a full block may stand as its size or as 0. */
  predicate AtOffset(blockOffset: nat, at: nat)
  {
    blockOffset <= BLOCK_SIZE && blockOffset % BLOCK_SIZE == at % BLOCK_SIZE
  }

  /** The zeros that fill a block whose rest cannot hold a header. */
  function Trailer(blockOffset: nat): Bytes
    requires blockOffset <= BLOCK_SIZE
  {
    if BLOCK_SIZE - blockOffset < HEADER_SIZE then [0, 0, 0, 0, 0, 0][..BLOCK_SIZE - blockOffset] else []
  }

  function Padded(dest: Bytes, blockOffset: nat): Bytes
    requires blockOffset <= BLOCK_SIZE
  {
    dest + Trailer(blockOffset)
  }

  function Emitted(crc: Crc, dest: Bytes, kind: byte, payload: Bytes): Bytes
    requires |payload| <= 0xffff
  {
    dest + (Header(crc, kind, payload) + payload)
  }

  function HeaderOffset(blockOffset: nat): (r: nat)
    ensures r + HEADER_SIZE <= BLOCK_SIZE
  {
    if blockOffset + HEADER_SIZE > BLOCK_SIZE then 0 else blockOffset
  }

  function FragmentLength(blockOffset: nat, left: nat): (n: nat)
    ensures n <= left && HeaderOffset(blockOffset) + HEADER_SIZE + n <= BLOCK_SIZE
  {
    var avail := BLOCK_SIZE - HeaderOffset(blockOffset) - HEADER_SIZE;
    if left < avail then left else avail
  }

  /** A block with room for a header only takes an empty fragment. */
  function StepsWithoutProgress(more: bool, blockOffset: nat): nat {
    if !more then 0 else if HeaderOffset(blockOffset) + HEADER_SIZE == BLOCK_SIZE then 2 else 1
  }

  lemma FragmentFits(blockOffset: nat, left: nat, n: nat)
    requires n == FragmentLength(blockOffset, left)
    ensures n == 0 && left > 0 ==>
              StepsWithoutProgress(true, HeaderOffset(blockOffset) + HEADER_SIZE + n) < StepsWithoutProgress(true, blockOffset)
  {
  }

  /** The bytes of a record written undisturbed from `blockOffset` on. */
  function Emission(crc: Crc, blockOffset: nat, rest: Bytes, begin: bool): Bytes
    requires blockOffset <= BLOCK_SIZE
    decreases |rest|, StepsWithoutProgress(true, blockOffset)
  {
    var n := FragmentLength(blockOffset, |rest|);
    FragmentFits(blockOffset, |rest|, n);
    Trailer(blockOffset)
    + (Header(crc, FragmentType(begin, n == |rest|), rest[..n]) + rest[..n])
    + if n == |rest| then [] else Emission(crc, HeaderOffset(blockOffset) + HEADER_SIZE + n, rest[n..], false)
  }

  /** Where in a block the writer then believes to be. */
  function OffsetAfter(blockOffset: nat, rest: Bytes): (offset: nat)
    requires blockOffset <= BLOCK_SIZE
    ensures offset <= BLOCK_SIZE
    decreases |rest|, StepsWithoutProgress(true, blockOffset)
  {
    var n := FragmentLength(blockOffset, |rest|);
    FragmentFits(blockOffset, |rest|, n);
    if n == |rest| then HeaderOffset(blockOffset) + HEADER_SIZE + n
    else OffsetAfter(HeaderOffset(blockOffset) + HEADER_SIZE + n, rest[n..])
  }

  /** `dest` is on the way from `was` to `was` with all of the record, of which `ptr` bytes have been emitted. */
  predicate Emitting(crc: Crc, was: Bytes, start: nat, record: Bytes, dest: Bytes, blockOffset: nat, ptr: nat,
                     begin: bool, more: bool)
  {
    && start <= BLOCK_SIZE && blockOffset <= BLOCK_SIZE && ptr <= |record|
    && was + Emission(crc, start, record, true)
       == dest + (if more then Emission(crc, blockOffset, record[ptr..], begin) else [])
    && OffsetAfter(start, record) == if more then OffsetAfter(blockOffset, record[ptr..]) else blockOffset
  }

  lemma EmittingStarts(crc: Crc, dest: Bytes, blockOffset: nat, record: Bytes)
    requires blockOffset <= BLOCK_SIZE
    ensures Emitting(crc, dest, blockOffset, record, dest, blockOffset, 0, true, true)
  {
    assert record[0..] == record;
  }

  lemma EmittingStep(crc: Crc, was: Bytes, start: nat, record: Bytes, dest: Bytes, blockOffset: nat, ptr: nat, begin: bool)
    requires Emitting(crc, was, start, record, dest, blockOffset, ptr, begin, true)
    ensures var n := FragmentLength(blockOffset, |record| - ptr);
      var end := n == |record| - ptr;
      Emitting(crc, was, start, record,
               Emitted(crc, Padded(dest, blockOffset), FragmentType(begin, end), record[ptr..ptr+n]),
               HeaderOffset(blockOffset) + HEADER_SIZE + n, ptr + n, false, !end)
  {
    hide FragmentLength, Header, HeaderOffset, Trailer, FragmentType;
    var n := FragmentLength(blockOffset, |record| - ptr);
    assert record[ptr..][..n] == record[ptr..ptr+n] && record[ptr..][n..] == record[ptr+n..];
  }

  lemma EmittingEnds(crc: Crc, was: Bytes, start: nat, record: Bytes, dest: Bytes, blockOffset: nat, ptr: nat, begin: bool)
    requires Emitting(crc, was, start, record, dest, blockOffset, ptr, begin, false)
    ensures start <= BLOCK_SIZE && dest == was + Emission(crc, start, record, true) && blockOffset == OffsetAfter(start, record)
  {
    assert dest + [] == dest;
  }

  // ----- At the true offset, the log of one more record -----

  lemma SameHeader(blockOffset: nat, at: nat)
    requires AtOffset(blockOffset, at)
    ensures HeaderAt(at) % BLOCK_SIZE == HeaderOffset(blockOffset)
    ensures Zeros(HeaderAt(at) - at) == Trailer(blockOffset)
  {
  }

  /** The fragment due at the end of the file is the one the writer emits. */
  lemma SameFragment(rest: Bytes, before: Bytes, begin: bool, at: nat, r: nat, blockOffset: nat)
    requires AtOffset(blockOffset, at)
    ensures var f, n := NextFragment(rest, before, begin, at, r), FragmentLength(blockOffset, |rest|);
      && f.payload == rest[..n] && |f.payload| == n && f.kind == FragmentType(begin, n == |rest|)
      && (f.Ends() <==> n == |rest|) && f.start == at + f.pad
      && Zeros(f.pad) == Trailer(blockOffset) && AtOffset(HeaderOffset(blockOffset) + HEADER_SIZE + n, f.End())
  {
    hide HeaderAt, HeaderOffset, Trailer, Zeros;
    SameHeader(blockOffset, at);
  }

  /** The first fragment of what is emitted, and of what is due. */
  lemma FirstFragment(crc: Crc, rest: Bytes, before: Bytes, begin: bool, at: nat, r: nat, blockOffset: nat)
    requires AtOffset(blockOffset, at)
    ensures blockOffset <= BLOCK_SIZE
    ensures var f, n := NextFragment(rest, before, begin, at, r), FragmentLength(blockOffset, |rest|);
      var offset := HeaderOffset(blockOffset) + HEADER_SIZE + n;
      && |f.payload| == n && f.start == at + f.pad && AtOffset(offset, f.End())
      && (f.Ends() <==> n == |rest|)
      && Emission(crc, blockOffset, rest, begin)
         == FragmentBytes(crc, f) + (if f.Ends() then [] else Emission(crc, offset, rest[n..], false))
      && OffsetAfter(blockOffset, rest) == (if f.Ends() then offset else OffsetAfter(offset, rest[n..]))
      && Fragments(rest, before, begin, at, r)
         == [f] + if f.Ends() then [] else Fragments(rest[n..], before + f.payload, false, f.End(), r)
  {
    assert blockOffset <= BLOCK_SIZE;
    hide NextFragment, FragmentLength, HeaderOffset, Trailer, Header, AtOffset, Zeros, Emission, OffsetAfter, Fragments;
    SameFragment(rest, before, begin, at, r, blockOffset);
    UnfoldEmission(crc, blockOffset, rest, begin);
    UnfoldFragments(rest, before, begin, at, r);
  }

  lemma UnfoldEmission(crc: Crc, blockOffset: nat, rest: Bytes, begin: bool)
    requires blockOffset <= BLOCK_SIZE
    ensures var n := FragmentLength(blockOffset, |rest|);
      var offset := HeaderOffset(blockOffset) + HEADER_SIZE + n;
      && Emission(crc, blockOffset, rest, begin)
         == Trailer(blockOffset) + (Header(crc, FragmentType(begin, n == |rest|), rest[..n]) + rest[..n])
            + (if n == |rest| then [] else Emission(crc, offset, rest[n..], false))
      && OffsetAfter(blockOffset, rest) == (if n == |rest| then offset else OffsetAfter(offset, rest[n..]))
  {
    hide FragmentLength, HeaderOffset, Trailer, Header;
  }

  lemma UnfoldFragments(rest: Bytes, before: Bytes, begin: bool, at: nat, r: nat)
    ensures var f := NextFragment(rest, before, begin, at, r);
      Fragments(rest, before, begin, at, r)
        == [f] + if f.Ends() then [] else Fragments(rest[|f.payload|..], before + f.payload, false, f.End(), r)
  {
    hide NextFragment;
  }

  lemma {:induction false} EmissionRenders(crc: Crc, prior: seq<Fragment>, rest: Bytes, before: Bytes, begin: bool,
                                           at: nat, r: nat, blockOffset: nat)
    requires AllInBlock(prior) && |Render(crc, prior)| == at && AtOffset(blockOffset, at)
    ensures var fs := Fragments(rest, before, begin, at, r);
      && AllInBlock(prior + fs)
      && Render(crc, prior + fs) == Render(crc, prior) + Emission(crc, blockOffset, rest, begin)
      && |Render(crc, prior + fs)| == LogEnd(fs) && AtOffset(OffsetAfter(blockOffset, rest), LogEnd(fs))
    decreases |rest|, StepsWithoutProgress(true, blockOffset)
  {
    hide Render, NextFragment, FragmentLength, HeaderOffset, AtOffset, StepsWithoutProgress, Emission, OffsetAfter,
         Fragments, FragmentBytes;
    var f, n := NextFragment(rest, before, begin, at, r), FragmentLength(blockOffset, |rest|);
    FirstFragment(crc, rest, before, begin, at, r, blockOffset);
    AppendFragment(crc, prior, f);
    FragmentFits(blockOffset, |rest|, n);
    if f.Ends() {
      assert FragmentBytes(crc, f) + [] == FragmentBytes(crc, f) && [f] + [] == [f];
    } else {
      var offset := HeaderOffset(blockOffset) + HEADER_SIZE + n;
      var tail, more := Fragments(rest[n..], before + f.payload, false, f.End(), r), Emission(crc, offset, rest[n..], false);
      EmissionRenders(crc, prior + [f], rest[n..], before + f.payload, false, f.End(), r, offset);
      assert (prior + [f]) + tail == prior + ([f] + tail);
      assert (Render(crc, prior) + FragmentBytes(crc, f)) + more == Render(crc, prior) + (FragmentBytes(crc, f) + more);
    }
  }

  lemma AppendFragment(crc: Crc, fs: seq<Fragment>, f: Fragment)
    requires AllInBlock(fs) && f.InBlock() && f.start == |Render(crc, fs)| + f.pad
    ensures AllInBlock(fs + [f]) && Render(crc, fs + [f]) == Render(crc, fs) + FragmentBytes(crc, f)
    ensures |Render(crc, fs + [f])| == f.End()
  {
    assert (fs + [f])[..|fs|] == fs;
  }

  lemma EmissionExtends(crc: Crc, records: seq<Bytes>, record: Bytes, blockOffset: nat)
    requires |Encode(crc, records)| == LogEnd(Layout(records)) && AtOffset(blockOffset, |Encode(crc, records)|)
    ensures Encode(crc, records + [record]) == Encode(crc, records) + Emission(crc, blockOffset, record, true)
    ensures var after := |Encode(crc, records + [record])|;
      after == LogEnd(Layout(records + [record])) && AtOffset(OffsetAfter(blockOffset, record), after)
  {
    hide Render, Fragments, AtOffset, Emission, OffsetAfter;
    LayoutInBlock(records);
    LayoutInBlock(records + [record]);
    assert (records + [record])[..|records|] == records;
    var prior := Layout(records);
    EmissionRenders(crc, prior, record, [], true, LogEnd(prior), |records|, blockOffset);
  }
}
