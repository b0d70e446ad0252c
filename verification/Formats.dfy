/** The bytes themselves, as the format documents and the tests have them (doc/log_format.txt, doc/table_format.txt,
    util/coding_test.cc): what a round trip alone would not tell. */
module Formats {
  import opened Keys
  import opened Coding
  import opened LogFormat
  import opened TableFormat
  import opened VersionEdits
  import opened WriteBatches
  import BlockFormat
  import LogWriter

  // ----- Numbers -----

  lemma LittleEndian32(v: Word)
    ensures var b := EncodeFixed32(v);
      v == b[0] as nat + b[1] as nat * 256 + b[2] as nat * 65536 + b[3] as nat * 16777216
  {
  }

  lemma LittleEndian64(v: DoubleWord)
    ensures var b := EncodeFixed64(v);
      && |b| == 8 && v % 0x1_0000_0000 == b[0] as nat + b[1] as nat * 256 + b[2] as nat * 65536 + b[3] as nat * 16777216
      && v / 0x1_0000_0000 == b[4] as nat + b[5] as nat * 256 + b[6] as nat * 65536 + b[7] as nat * 16777216
  {
    hide EncodeFixed32;
    LittleEndian32(v % 0x1_0000_0000);
    LittleEndian32(v / 0x1_0000_0000);
  }

  /** The numbers of the coding test. */
  lemma TestedBytes()
    ensures EncodeFixed32(0x0403_0201) == [1, 2, 3, 4]
    ensures EncodeFixed64(0x0807_0605_0403_0201) == [1, 2, 3, 4, 5, 6, 7, 8]
  {
  }

  /** Seven bits a byte, the lowest first. */
  function Base128(b: Bytes): nat { if b == [] then 0 else b[0] as nat % 128 + 128 * Base128(b[1..]) }

  /** A varint is its number in base 128, and its last byte alone has the top bit clear. */
  lemma {:induction false} VarintIsBase128(v: nat)
    ensures var b := EncodeVarint(v);
      b != [] && Base128(b) == v && forall i :: 0 <= i < |b| ==> (b[i] < 128 <==> i == |b| - 1)
  {
    if v >= 128 {
      VarintIsBase128(v / 128);
      assert EncodeVarint(v)[1..] == EncodeVarint(v / 128);
      assert Base128(EncodeVarint(v)) == v % 128 + 128 * (v / 128);
    } else {
      assert Base128([v as byte][1..]) == 0;
    }
  }

  /** Of any bytes a varint is what leads up to the first byte with a clear top bit, if that is one of the first `k`. */
  lemma {:induction false} VarintEndsAtClearBit(b: Bytes, k: nat, n: nat)
    requires n < k && n < |b| && b[n] < 128 && forall i :: 0 <= i < n ==> b[i] >= 128
    ensures ParseVarint(b, k) == Some((Base128(b[..n+1]), b[n+1..]))
  {
    if n > 0 {
      VarintEndsAtClearBit(b[1..], k - 1, n - 1);
      assert b[1..][..n] == b[..n+1][1..] && b[1..][n..] == b[n+1..];
    } else {
      assert Base128(b[..1][1..]) == 0;
    }
  }

  lemma {:induction false} EndlessVarint(b: Bytes, k: nat)
    requires forall i :: 0 <= i < k && i < |b| ==> b[i] >= 128
    ensures ParseVarint(b, k) == None
  {
    if k > 0 && b != [] {
      EndlessVarint(b[1..], k - 1);
    }
  }

  /** Rotated right by 15 bits, plus a constant. */
  lemma MaskedChecksums()
    ensures Mask(0) == 0xa282_ead8 && Mask(1) == 0xa284_ead8 && Mask(0x8000) == 0xa282_ead9
  {
  }

  // ----- The log -----

  /** A fragment's header: the masked checksum of type and payload, the length, the type. */
  lemma HeaderFields(crc: Crc, kind: byte, payload: Bytes)
    requires |payload| <= 0xffff
    ensures var h := Header(crc, kind, payload);
      && DecodeFixed32(h) == Mask(crc([kind] + payload)) as nat
      && h[4] as nat + h[5] as nat * 256 == |payload| && h[6] == kind
  {
    hide Mask, EncodeFixed32, DecodeFixed32;
    var word, rest := Mask(crc([kind] + payload)) as Word, [(|payload| % 256) as byte, (|payload| / 256) as byte, kind];
    Fixed32RoundTrip(word, rest);
  }

  /** FULL, FIRST, MIDDLE and LAST. */
  lemma TypesOfFragments()
    ensures FragmentType(true, true) == 1 && FragmentType(true, false) == 2
    ensures FragmentType(false, false) == 3 && FragmentType(false, true) == 4
  {
  }

  /** The records of the documented example. */
  predicate IsExample(a: Bytes, b: Bytes, c: Bytes) { |a| == 1000 && |b| == 97270 && |c| == 8000 }

  /** The first is whole in the first block; the second fills up that block and the next, and leaves six bytes of the third;
      the last is whole in the fourth. */
  lemma DocumentedExample(a: Bytes, b: Bytes, c: Bytes)
    requires IsExample(a, b, c)
    ensures Layout([a, b, c])
         == [Fragment(0, 0, 1, a, 0, []),
             Fragment(0, 1007, 2, b[..31754], 1, []), Fragment(0, 32768, 3, b[31754..64515], 1, b[..31754]),
             Fragment(0, 65536, 4, b[64515..], 1, b[..64515]),
             Fragment(6, 98304, 1, c, 2, [])]
  {
    assert [a, b, c][..2] == [a, b] && [a, b][..1] == [a] && [a][..0] == [];
    OneFragment(a, 0, 0);
    ThreeFragments(b);
    OneFragment(c, 98298, 2);
    hide Fragments;
    assert Layout([]) == [];
    assert Layout([a]) == [] + Fragments(a, [], true, 0, 0);
    assert Layout([a, b]) == Layout([a]) + Fragments(b, [], true, LogEnd(Layout([a])), 1);
    assert Layout([a, b, c]) == Layout([a, b]) + Fragments(c, [], true, LogEnd(Layout([a, b])), 2);
  }

  lemma OneFragment(record: Bytes, at: nat, r: nat)
    requires |record| <= Available(at)
    ensures Fragments(record, [], true, at, r) == [Fragment(HeaderAt(at) - at, HeaderAt(at), 1, record, r, [])]
  {
    assert record[..|record|] == record;
  }

  lemma ThreeFragments(b: Bytes)
    requires |b| == 97270
    ensures Fragments(b, [], true, 1007, 1)
         == [Fragment(0, 1007, 2, b[..31754], 1, []), Fragment(0, 32768, 3, b[31754..64515], 1, b[..31754]),
             Fragment(0, 65536, 4, b[64515..], 1, b[..64515])]
  {
    var second, third := b[31754..], b[64515..];
    LogWriter.UnfoldFragments(b, [], true, 1007, 1);
    LogWriter.UnfoldFragments(second, b[..31754], false, 32768, 1);
    LogWriter.UnfoldFragments(third, b[..64515], false, 65536, 1);
    hide Fragments;
    assert NextFragment(b, [], true, 1007, 1) == Fragment(0, 1007, 2, b[..31754], 1, []);
    assert [] + b[..31754] == b[..31754];
    assert second[..32761] == b[31754..64515] && second[32761..] == third;
    assert NextFragment(second, b[..31754], false, 32768, 1) == Fragment(0, 32768, 3, b[31754..64515], 1, b[..31754]);
    assert b[..31754] + b[31754..64515] == b[..64515];
    assert third[..32755] == third;
    assert NextFragment(third, b[..64515], false, 65536, 1) == Fragment(0, 65536, 4, third, 1, b[..64515]);
  }

  // ----- Batches -----

  lemma UpdateBytes(key: Bytes, value: Bytes)
    ensures Record(Put(key, value)) == [1] + EncodeVarint(|key|) + key + EncodeVarint(|value|) + value
    ensures Record(Delete(key)) == [0] + EncodeVarint(|key|) + key
  {
    hide EncodeVarint;
    var k, v := EncodeVarint(|key|), EncodeVarint(|value|);
    assert [1] + (k + key) + (v + value) == [1] + k + key + v + value;
    assert [0] + (k + key) == [0] + k + key;
  }

  lemma BatchHeader(sequence: DoubleWord, ops: seq<Op>)
    requires |ops| <= MAX_COUNT
    ensures BatchBytes(sequence, ops)[..8] == EncodeFixed64(sequence)
    ensures BatchBytes(sequence, ops)[8..12] == EncodeFixed32(|ops|)
    ensures BatchBytes(sequence, ops)[12..] == Records(ops)
  {
    hide EncodeFixed64, EncodeFixed32, Records;
    HeaderSplit(sequence, ops);
  }

  /** No other tag is taken for an update, and what is stands in the bytes: the tag, then the key and, last, the value. */
  lemma UpdatesAreTagged(b: Bytes)
    requires b != []
    ensures b[0] > 1 ==> ParseRecord(b) == None
    ensures ParseRecord(b).Some? ==>
              var (op, rest) := ParseRecord(b).value;
              var end := |b| - |rest|;
              && b[0] == (if op.Put? then 1 else 0) && b[end..] == rest
              && var last := if op.Put? then op.value else op.key;
                 |last| < end && b[end-|last|..end] == last
  {
    if ParseRecord(b).Some? {
      var (key, rest) := GetLengthPrefixed(b[1..]).value;
      hide GetLengthPrefixed;
      KeyAtEnd(b);
      if ParseRecord(b).value.0.Put? {
        ValueAtEnd(b, rest);
      }
    }
  }

  lemma KeyAtEnd(b: Bytes)
    requires b != [] && GetLengthPrefixed(b[1..]).Some?
    ensures var (key, rest) := GetLengthPrefixed(b[1..]).value;
      var end := |b| - |rest|;
      b[end..] == rest && |key| < end && b[end-|key|..end] == key
  {
    hide GetLengthPrefixed;
    PrefixedAtEnd(b[1..]);
    var (key, rest) := GetLengthPrefixed(b[1..]).value;
    var last := |b| - 1 - |rest|;
    SliceFrom(b, 1, last, |b| - 1);
    SliceFrom(b, 1, last - |key|, last);
  }

  lemma ValueAtEnd(b: Bytes, rest: Bytes)
    requires |rest| <= |b| && rest == b[|b|-|rest|..] && GetLengthPrefixed(rest).Some?
    ensures var (value, after) := GetLengthPrefixed(rest).value;
      var end := |b| - |after|;
      b[end..] == after && |value| < end && b[end-|value|..end] == value
  {
    hide GetLengthPrefixed;
    PrefixedAtEnd(rest);
    var (value, after) := GetLengthPrefixed(rest).value;
    var last := |rest| - |after|;
    SliceFrom(b, |b| - |rest|, last, |rest|);
    SliceFrom(b, |b| - |rest|, last - |value|, last);
  }

  lemma SliceFrom(b: Bytes, at: nat, i: nat, j: nat)
    requires at <= |b| && i <= j <= |b| - at
    ensures b[at..][i..j] == b[at+i..at+j]
  {
  }

  lemma PrefixedAtEnd(b: Bytes)
    requires GetLengthPrefixed(b).Some?
    ensures var (s, rest) := GetLengthPrefixed(b).value;
      var end := |b| - |rest|;
      b[end..] == rest && |s| < end && b[end-|s|..end] == s
  {
    var (n, after) := GetVarint32(b).value;
    VarintLeavesSuffix(b, VARINT32_BYTES);
    assert after == b[|b|-|after|..];
  }

  lemma {:induction false} VarintLeavesSuffix(b: Bytes, k: nat)
    requires ParseVarint(b, k).Some?
    ensures var rest := ParseVarint(b, k).value.1; |rest| < |b| && rest == b[|b|-|rest|..]
  {
    if b[0] >= 128 {
      VarintLeavesSuffix(b[1..], k - 1);
    }
  }

  // ----- Version edits -----

  /** Any other tag makes an edit undecodable. */
  lemma UnknownField(tag: Word, b: Bytes)
    requires tag == 0 || tag == 8 || tag > 9
    ensures DecodeBody(tag, b) == None
  {
  }

  /** Each field of an edit begins with its tag; number 8 is no longer used. */
  lemma FieldBytes(n: DoubleWord, level: Word, s: Bytes, m: FileMeta)
    ensures FieldIs(ComparatorName(s), 1, LengthPrefixed(s))
    ensures FieldIs(LogNumber(n), 2, EncodeVarint(n)) && FieldIs(NextFileNumber(n), 3, EncodeVarint(n))
    ensures FieldIs(LastSequence(n), 4, EncodeVarint(n)) && FieldIs(PrevLogNumber(n), 9, EncodeVarint(n))
    ensures FieldIs(CompactPointer(level, s), 5, EncodeVarint(level) + LengthPrefixed(s))
    ensures FieldIs(DeletedFile(level, n), 6, EncodeVarint(level) + EncodeVarint(n))
    ensures FieldIs(NewFile(level, m), 7, EncodeVarint(level) + EncodeVarint(m.number) + EncodeVarint(m.fileSize)
                                          + LengthPrefixed(m.smallest) + LengthPrefixed(m.largest))
  {
    hide LengthPrefixed;
    forall f: Field ensures EncodeFields([f]) == [f.Tag() as byte] + EncodeBody(f) {
      assert EncodeFields([f][1..]) == [];
      assert EncodeVarint(f.Tag()) == [f.Tag() as byte];
    }
  }

  predicate FieldIs(f: Field, tag: byte, body: Bytes) { EncodeFields([f]) == [tag] + body }

  // ----- Tables -----

  /** An entry of a block: three varints, the rest of the key, the value. */
  lemma EntryFields(shared: nat, item: BlockFormat.Item)
    requires shared <= |item.key|
    ensures BlockFormat.EntryBytes(shared, item)
         == EncodeVarint(shared) + EncodeVarint(|item.key| - shared) + EncodeVarint(|item.value|) + item.key[shared..] + item.value
  {
  }

  /** Behind a block stand the type 0, for no compression, and the masked checksum of the block and the type. */
  lemma StoredFields(crc: TableFormat.Crc, contents: Bytes)
    ensures var b := StoredBlock(crc, contents);
      && |b| == |contents| + 5 && b[..|contents|] == contents && b[|contents|] == 0
      && DecodeFixed32(b[|contents|+1..]) == Mask(crc(contents + [0])) as nat
  {
    hide Mask, EncodeFixed32, DecodeFixed32;
    var b := StoredBlock(crc, contents);
    Fixed32RoundTrip(Mask(crc(contents + [0])) as Word, []);
    assert b[|contents|+1..] == StoredCrc(crc(contents + [0])) + [];
  }
  lemma MaskInvertsUnmask(w: bv32)
    ensures Mask(Unmask(w)) == w
  {
  }

  /** The first four bytes, as a machine word. */
  function WordAt(b: Bytes): bv32
    requires |b| >= 4
  {
    DecodeFixed32(b) as bv32
  }

  lemma LoadedIsMasked(b: Bytes)
    requires |b| >= 4
    ensures WordAt(b) == Mask(LoadCrc(b))
  {
    hide Mask, Unmask, DecodeFixed32;
    MaskInvertsUnmask(DecodeFixed32(b) as bv32);
  }

  /** With checksums verified, only what was stored is read. */
  lemma OnlyIntactBlocks(file: Bytes, crc: TableFormat.Crc, h: Handle)
    requires ReadBlock(file, crc, true, h).Some?
    ensures var c, end := ReadBlock(file, crc, true, h).value, h.offset + h.size;
      && end + 5 <= |file| && file[h.offset..end] == c && file[end] == 0
      && WordAt(file[end+1..]) == Mask(crc(c + [0]))
  {
    hide Mask, WordAt, LoadCrc;
    var end := h.offset + h.size;
    assert file[h.offset..end+1] == file[h.offset..end] + [file[end]];
    LoadedIsMasked(file[end+1..]);
  }
}
