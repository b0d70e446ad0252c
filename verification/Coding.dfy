/** Integers and slices as bytes (util/coding.cc), and the stored form of a checksum (util/crc32c.h). */
module Coding {
  import opened Keys

  type Word = n: nat | n < 0x1_0000_0000
  type DoubleWord = n: nat | n < 0x1_0000_0000_0000_0000

  const MASK_DELTA: bv32 := 0xa282ead8

  function Mask(crc: bv32): bv32 { ((crc >> 15) | (crc << 17)) + MASK_DELTA }

  function Unmask(maskedCrc: bv32): bv32 {
    var rot := maskedCrc - MASK_DELTA;
    (rot >> 17) | (rot << 15)
  }

  function EncodeFixed32(v: Word): (b: Bytes)
    ensures |b| == 4
  {
    [(v % 256) as byte, (v / 0x100 % 256) as byte, (v / 0x1_0000 % 256) as byte, (v / 0x100_0000) as byte]
  }

  function DecodeFixed32(b: Bytes): Word
    requires |b| >= 4
  {
    b[0] as nat + b[1] as nat * 0x100 + b[2] as nat * 0x1_0000 + b[3] as nat * 0x100_0000
  }

  lemma Fixed32RoundTrip(v: Word, rest: Bytes)
    ensures DecodeFixed32(EncodeFixed32(v) + rest) == v
  {
    assert (EncodeFixed32(v) + rest)[..4] == EncodeFixed32(v);
    assert v / 0x1_0000 == v / 0x100 / 256 && v / 0x100_0000 == v / 0x1_0000 / 256;
  }

  /** Words one after the other. */
  function Fixed32Array(words: seq<Word>): (b: Bytes)
    ensures |b| == 4 * |words|
  {
    if words == [] then []
    else Fixed32Array(words[..|words|-1]) + EncodeFixed32(words[|words|-1])
  }

  lemma {:induction false} Fixed32ArrayAt(words: seq<Word>, rest: Bytes, i: nat)
    requires i < |words|
    ensures DecodeFixed32((Fixed32Array(words) + rest)[4*i..]) == words[i]
  {
    hide EncodeFixed32, DecodeFixed32;
    var last := |words| - 1;
    var init, tail := Fixed32Array(words[..last]), EncodeFixed32(words[last]) + rest;
    assert Fixed32Array(words) + rest == init + tail;
    if i == last {
      assert (init + tail)[4*i..] == tail;
      Fixed32RoundTrip(words[last], rest);
    } else {
      Fixed32ArrayAt(words[..last], tail, i);
    }
  }

  function EncodeFixed64(v: DoubleWord): (b: Bytes)
    ensures |b| == 8
  {
    EncodeFixed32(v % 0x1_0000_0000) + EncodeFixed32(v / 0x1_0000_0000)
  }

  function DecodeFixed64(b: Bytes): DoubleWord
    requires |b| >= 8
  {
    DecodeFixed32(b) + 0x1_0000_0000 * DecodeFixed32(b[4..])
  }

  lemma Fixed64RoundTrip(v: DoubleWord, rest: Bytes)
    ensures DecodeFixed64(EncodeFixed64(v) + rest) == v
  {
    hide EncodeFixed32, DecodeFixed32;
    var low, high := EncodeFixed32(v % 0x1_0000_0000), EncodeFixed32(v / 0x1_0000_0000);
    var b := EncodeFixed64(v) + rest;
    assert b == low + (high + rest) && b[4..] == high + rest;
    Fixed32RoundTrip(v % 0x1_0000_0000, high + rest);
    Fixed32RoundTrip(v / 0x1_0000_0000, rest);
  }

  lemma UnmaskInvertsMask(crc: bv32)
    ensures Unmask(Mask(crc)) == crc && Mask(Unmask(crc)) == crc
  {
  }

  lemma WordRoundTrip(w: bv32)
    ensures (w as Word) as bv32 == w
  {
  }

  /** How a checksum stands in a header. */
  function StoredCrc(crc: bv32): (b: Bytes)
    ensures |b| == 4
  {
    EncodeFixed32(Mask(crc) as Word)
  }

  function LoadCrc(header: Bytes): bv32
    requires |header| >= 4
  {
    Unmask(DecodeFixed32(header) as bv32)
  }

  /** The checksum survives masking, storing, loading and unmasking. */
  lemma StoredChecksum(crc: bv32, rest: Bytes)
    ensures LoadCrc(StoredCrc(crc) + rest) == crc
  {
    hide Mask, Unmask, EncodeFixed32, DecodeFixed32;
    UnmaskInvertsMask(crc);
    WordRoundTrip(Mask(crc));
    Fixed32RoundTrip(Mask(crc) as Word, rest);
  }

  function Power128(k: nat): nat { if k == 0 then 1 else 128 * Power128(k - 1) }

  /** Seven bits a byte, low bits first; the top bit of a byte says that more follow. */
  function EncodeVarint(v: nat): Bytes {
    if v < 128 then [v as byte] else [(v % 128 + 128) as byte] + EncodeVarint(v / 128)
  }

  /** The number in at most `k` leading bytes, and what follows it. */
  function ParseVarint(b: Bytes, k: nat): (r: Option<(nat, Bytes)>)
    ensures r.Some? ==> |r.value.1| < |b|
  {
    if k == 0 || b == [] then None
    else if b[0] < 128 then Some((b[0] as nat, b[1..]))
    else match ParseVarint(b[1..], k - 1) {
      case None => None
      case Some(r) => Some((b[0] as nat - 128 + 128 * r.0, r.1))
    }
  }

  lemma {:induction false} VarintRoundTrip(v: nat, rest: Bytes, k: nat)
    requires k > 0 && v < Power128(k)
    ensures ParseVarint(EncodeVarint(v) + rest, k) == Some((v, rest))
  {
    var b := EncodeVarint(v) + rest;
    if v < 128 {
      assert b[1..] == rest;
    } else {
      assert k > 1;
      VarintRoundTrip(v / 128, rest, k - 1);
      assert b[1..] == EncodeVarint(v / 128) + rest;
    }
  }

  /** The most bytes a 32-bit and a 64-bit number take. */
  const VARINT32_BYTES: nat := 5
  const VARINT64_BYTES: nat := 10

  lemma VarintWidths()
    ensures Power128(VARINT32_BYTES) == 0x8_0000_0000
    ensures Power128(VARINT64_BYTES) == 0x40_0000_0000_0000_0000
  {
    assert Power128(1) == 128 && Power128(2) == 0x4000 && Power128(3) == 0x20_0000 && Power128(4) == 0x1000_0000;
    assert Power128(6) == 0x400_0000_0000 && Power128(7) == 0x2_0000_0000_0000;
    assert Power128(8) == 0x100_0000_0000_0000 && Power128(9) == 0x8000_0000_0000_0000;
  }

  /** Bits beyond the word are shifted out. */
  function GetVarint32(b: Bytes): (r: Option<(Word, Bytes)>)
    ensures r.Some? ==> |r.value.1| < |b|
  {
    match ParseVarint(b, VARINT32_BYTES) {
      case None => None
      case Some(r) => Some((r.0 % 0x1_0000_0000, r.1))
    }
  }

  function GetVarint64(b: Bytes): (r: Option<(DoubleWord, Bytes)>)
    ensures r.Some? ==> |r.value.1| < |b|
  {
    match ParseVarint(b, VARINT64_BYTES) {
      case None => None
      case Some(r) => Some((r.0 % 0x1_0000_0000_0000_0000, r.1))
    }
  }

  lemma Varint32RoundTrip(v: Word, rest: Bytes)
    ensures GetVarint32(EncodeVarint(v) + rest) == Some((v, rest))
  {
    VarintWidths();
    VarintRoundTrip(v, rest, VARINT32_BYTES);
  }

  lemma Varint64RoundTrip(v: DoubleWord, rest: Bytes)
    ensures GetVarint64(EncodeVarint(v) + rest) == Some((v, rest))
  {
    VarintWidths();
    VarintRoundTrip(v, rest, VARINT64_BYTES);
  }

  /** EncodeVarint64; EncodeVarint32 is the same loop unrolled. */
  method PutVarint(dst: Bytes, value: DoubleWord) returns (r: Bytes)
    ensures r == dst + EncodeVarint(value)
  {
    r := dst;
    var v: nat := value;
    while v >= 128
      invariant r + EncodeVarint(v) == dst + EncodeVarint(value)
    {
      r := r + [(v % 128 + 128) as byte];
      v := v / 128;
    }
    r := r + [v as byte];
  }

  function ShiftedIn(result: nat, scale: nat, bits: nat): nat { result + bits * scale }

  lemma ShiftedInTwice(result: nat, scale: nat, low: nat, high: nat)
    ensures ShiftedIn(result, scale, low + 128 * high) == ShiftedIn(ShiftedIn(result, scale, low), scale * 128, high)
  {
  }

  /** GetVarint32Ptr and GetVarint64Ptr: shift and accumulate, `k` bytes at most. */
  method GetVarintPtr(input: Bytes, k: nat) returns (r: Option<(nat, Bytes)>)
    ensures r == ParseVarint(input, k)
  {
    var result: nat, scale: nat, i := 0, 1, 0;
    assert input[0..] == input;
    while i < k && i < |input|
      invariant i <= k && i <= |input|
      invariant ParseVarint(input, k) == match ParseVarint(input[i..], k - i) {
                                           case None => None
                                           case Some(p) => Some((ShiftedIn(result, scale, p.0), p.1))
                                         }
    {
      hide ShiftedIn;
      var b := input[i];
      assert input[i..][1..] == input[i+1..];
      if b >= 128 {
        ghost var next := ParseVarint(input[i+1..], k - i - 1);
        if next.Some? {
          ShiftedInTwice(result, scale, b as nat - 128, next.value.0);
        }
        result := ShiftedIn(result, scale, b as nat - 128);
        scale := scale * 128;
        i := i + 1;
      } else {
        return Some((ShiftedIn(result, scale, b as nat), input[i+1..]));
      }
    }
    return None;
  }

  function LengthPrefixed(s: Bytes): Bytes { EncodeVarint(|s|) + s }

  function GetLengthPrefixed(b: Bytes): (r: Option<(Bytes, Bytes)>)
    ensures r.Some? ==> |r.value.1| < |b|
  {
    match GetVarint32(b) {
      case Some((n, rest)) => if n <= |rest| then Some((rest[..n], rest[n..])) else None
      case None => None
    }
  }

  lemma LengthPrefixedRoundTrip(s: Bytes, rest: Bytes)
    requires |s| < 0x1_0000_0000
    ensures GetLengthPrefixed(LengthPrefixed(s) + rest) == Some((s, rest))
  {
    assert LengthPrefixed(s) + rest == EncodeVarint(|s|) + (s + rest);
    Varint32RoundTrip(|s|, s + rest);
  }
}
