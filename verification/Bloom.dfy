/** util/bloom.cc: a filter that may say yes wrongly but never says no wrongly. */
module Bloom {
  import opened Keys
  import opened Coding

  /** Bit `i` of a number, bit 0 being the lowest. */
  predicate Bit(n: nat, i: nat) {
    if i == 0 then n % 2 == 1 else Bit(n / 2, i - 1)
  }

  /** n | (1 << i) */
  function WithBit(n: nat, i: nat): nat {
    if i == 0 then (if n % 2 == 1 then n else n + 1) else 2 * WithBit(n / 2, i - 1) + n % 2
  }

  function Power2(k: nat): nat { if k == 0 then 1 else 2 * Power2(k - 1) }

  lemma {:induction false} WithBitSets(n: nat, i: nat, j: nat)
    ensures Bit(WithBit(n, i), j) <==> j == i || Bit(n, j)
  {
    if i > 0 {
      var half := WithBit(n / 2, i - 1);
      assert WithBit(n, i) / 2 == half && WithBit(n, i) % 2 == n % 2;
      if j > 0 {
        WithBitSets(n / 2, i - 1, j - 1);
      }
    } else {
      assert WithBit(n, 0) / 2 == n / 2;
    }
  }

  lemma {:induction false} WithBitFits(n: nat, i: nat, k: nat)
    requires n < Power2(k) && i < k
    ensures WithBit(n, i) < Power2(k)
  {
    if i > 0 {
      WithBitFits(n / 2, i - 1, k - 1);
    }
  }

  /** A bit of a bit array stored eight to a byte. */
  predicate BitAt(bitArray: Bytes, pos: nat)
    requires pos < 8 * |bitArray|
  {
    Bit(bitArray[pos / 8] as nat, pos % 8)
  }

  lemma Power2Of8()
    ensures Power2(8) == 256
  {
    assert Power2(4) == 16;
  }

  function SetBitAt(bitArray: Bytes, pos: nat): (r: Bytes)
    requires pos < 8 * |bitArray|
    ensures |r| == |bitArray|
  {
    Power2Of8();
    WithBitFits(bitArray[pos / 8] as nat, pos % 8, 8);
    bitArray[pos / 8 := WithBit(bitArray[pos / 8] as nat, pos % 8) as byte]
  }

  lemma SetBitAtSets(bitArray: Bytes, pos: nat)
    requires pos < 8 * |bitArray|
    ensures forall q :: 0 <= q < 8 * |bitArray| ==> (BitAt(SetBitAt(bitArray, pos), q) <==> q == pos || BitAt(bitArray, q))
  {
    forall q | 0 <= q < 8 * |bitArray| ensures BitAt(SetBitAt(bitArray, pos), q) <==> q == pos || BitAt(bitArray, q) {
      WithBitSets(bitArray[pos / 8] as nat, pos % 8, q % 8);
    }
  }

  type HashFunction = Bytes -> Word

  /** Rotates right by 17 bits. */
  function Delta(h: Word): Word { h / 0x2_0000 + h % 0x2_0000 * 0x8000 }

  /** 32-bit addition. */
  function Plus(a: Word, b: Word): Word { (a + b) % 0x1_0000_0000 }

  /** The hash value behind probe number `j`. */
  function ProbeAt(h: Word, delta: Word, j: nat): Word {
    if j == 0 then h else Plus(ProbeAt(h, delta, j - 1), delta)
  }

  /** One of the `k` probes for a hash value looks at bit `q`. */
  predicate Hits(h: Word, bits: nat, k: nat, q: int)
    requires bits > 0
  {
    exists j :: 0 <= j < k && ProbeAt(h, Delta(h), j) % bits == q
  }

  /** The bits probed from hash value `h` on are all set. */
  predicate Probes(bitArray: Bytes, bits: nat, h: Word, delta: Word, k: nat)
    requires bits > 0 && bits <= 8 * |bitArray|
    decreases k
  {
    k == 0 || (BitAt(bitArray, h % bits) && Probes(bitArray, bits, Plus(h, delta), delta, k - 1))
  }

  lemma {:induction false} ProbesStay(a: Bytes, b: Bytes, bits: nat, h: Word, delta: Word, k: nat)
    requires bits > 0 && bits <= 8 * |a| && |a| <= |b| && Probes(a, bits, h, delta, k)
    requires forall q :: 0 <= q < bits && BitAt(a, q) ==> BitAt(b, q)
    ensures Probes(b, bits, h, delta, k)
    decreases k
  {
    if k > 0 {
      ProbesStay(a, b, bits, Plus(h, delta), delta, k - 1);
    }
  }

  predicate HoldsKey(bitArray: Bytes, bits: nat, h: Word, k: nat)
    requires bits > 0 && bits <= 8 * |bitArray|
  {
    Probes(bitArray, bits, h, Delta(h), k)
  }

  /** What a filter for any number of probes says of a hash value. */
  predicate MayMatch(filter: Bytes, h: Word) {
    && |filter| >= 2
    && (filter[|filter|-1] as nat > 30
        || Probes(filter[..|filter|-1], 8 * (|filter| - 1), h, Delta(h), filter[|filter|-1] as nat))
  }

  lemma OneMoreProbe(h: Word, bits: nat, k: nat)
    requires bits > 0
    ensures forall q :: Hits(h, bits, k + 1, q) <==> Hits(h, bits, k, q) || q == ProbeAt(h, Delta(h), k) % bits
  {
    forall q | Hits(h, bits, k, q) ensures Hits(h, bits, k + 1, q) {
      var j :| 0 <= j < k && ProbeAt(h, Delta(h), j) % bits == q;
    }
    assert Hits(h, bits, k + 1, ProbeAt(h, Delta(h), k) % bits);
  }

  /** Every bit set is one that some of the hash values probes. */
  ghost predicate OnlyProbed(bitArray: Bytes, hashes: seq<Word>, k: nat) {
    forall q :: 0 <= q < 8 * |bitArray| && BitAt(bitArray, q)
                ==> exists m :: 0 <= m < |hashes| && Hits(hashes[m], 8 * |bitArray|, k, q)
  }

  lemma NoBitSet(zeros: Bytes, k: nat)
    requires forall i :: 0 <= i < |zeros| ==> zeros[i] == 0
    ensures OnlyProbed(zeros, [], k)
  {
    forall q | 0 <= q < 8 * |zeros| ensures !BitAt(zeros, q) {
      ZeroBits(q % 8);
    }
  }

  lemma OneMoreHash(before: Bytes, after: Bytes, hashes: seq<Word>, h: Word, k: nat)
    requires OnlyProbed(before, hashes, k) && |before| == |after| > 0
    requires forall q :: 0 <= q < 8 * |before| ==> (BitAt(after, q) <==> BitAt(before, q) || Hits(h, 8 * |before|, k, q))
    ensures OnlyProbed(after, hashes + [h], k)
  {
    hide BitAt, Hits;
    var more := hashes + [h];
    forall q | 0 <= q < 8 * |after| && BitAt(after, q)
      ensures exists m :: 0 <= m < |more| && Hits(more[m], 8 * |after|, k, q)
    {
      if BitAt(before, q) {
        var m :| 0 <= m < |hashes| && Hits(hashes[m], 8 * |before|, k, q);
        assert more[m] == hashes[m];
      } else {
        assert more[|hashes|] == h;
      }
    }
  }

  lemma {:induction false} ZeroBits(i: nat)
    ensures !Bit(0, i)
  {
    if i > 0 {
      ZeroBits(i - 1);
    }
  }

  lemma NoProbes(bitArray: Bytes, bits: nat, h: Word, delta: Word)
    requires bits > 0 && bits <= 8 * |bitArray|
    ensures Probes(bitArray, bits, h, delta, 0)
  {
  }

  lemma NotProbed(bitArray: Bytes, bits: nat, h: Word, delta: Word, k: nat)
    requires bits > 0 && bits <= 8 * |bitArray| && k > 0
    ensures Probes(bitArray, bits, h, delta, k)
         == (BitAt(bitArray, h % bits) && Probes(bitArray, bits, Plus(h, delta), delta, k - 1))
  {
  }

  // ----- What a filter answers -----

  /** The bit that probe number `j` looks at: the hash value and `j` times its rotation, added in 32 bits. */
  function Position(h: Word, j: nat, bits: nat): (q: nat)
    requires bits > 0
    ensures q < bits
  {
    (h + j * Delta(h)) % 0x1_0000_0000 % bits
  }

  /** The rotation takes the high 15 bits down and the low 17 bits up. */
  lemma DeltaRotates(high: nat, low: nat)
    requires high < 0x8000 && low < 0x2_0000
    ensures Delta(high * 0x2_0000 + low) == low * 0x8000 + high
  {
  }

  lemma {:induction false} ProbeIsOffset(h: Word, delta: Word, j: nat)
    ensures ProbeAt(h, delta, j) == (h + j * delta) % 0x1_0000_0000
  {
    if j > 0 {
      var x := h + (j - 1) * delta;
      ProbeIsOffset(h, delta, j - 1);
      PlusWraps(x, delta);
      assert h + j * delta == x + delta by { OneMoreTime(j, delta); }
      hide Plus;
    }
  }

  lemma OneMoreTime(j: nat, d: nat)
    requires j > 0
    ensures j * d == (j - 1) * d + d
  {
  }

  lemma PlusWraps(x: nat, d: Word)
    ensures Plus(x % 0x1_0000_0000, d) == (x + d) % 0x1_0000_0000
  {
  }

  lemma PositionIsProbe(h: Word, j: nat, bits: nat)
    requires bits > 0
    ensures Position(h, j, bits) == ProbeAt(h, Delta(h), j) % bits
  {
    hide Delta, ProbeAt;
    ProbeIsOffset(h, Delta(h), j);
  }

  lemma HitsArePositions(h: Word, bits: nat, k: nat, q: nat)
    requires bits > 0
    ensures Hits(h, bits, k, q) <==> exists j: nat :: j < k && Position(h, j, bits) == q
  {
    hide Delta, ProbeAt, Position;
    forall j: nat ensures Position(h, j, bits) == ProbeAt(h, Delta(h), j) % bits {
      PositionIsProbe(h, j, bits);
    }
    if Hits(h, bits, k, q) {
      var j :| 0 <= j < k && ProbeAt(h, Delta(h), j) % bits == q;
      assert Position(h, j, bits) == q;
    }
    if j: nat :| j < k && Position(h, j, bits) == q {
      assert ProbeAt(h, Delta(h), j) % bits == q;
    }
  }

  lemma {:induction false} ProbesFrom(bitArray: Bytes, bits: nat, h: Word, j: nat, k: nat)
    requires bits > 0 && bits <= 8 * |bitArray|
    ensures Probes(bitArray, bits, ProbeAt(h, Delta(h), j), Delta(h), k)
       <==> forall m: nat :: j <= m < j + k ==> BitAt(bitArray, Position(h, m, bits))
    decreases k
  {
    hide BitAt, Plus, Delta, Position;
    if k > 0 {
      PositionIsProbe(h, j, bits);
      ProbesFrom(bitArray, bits, h, j + 1, k - 1);
    }
  }

  lemma HoldsAtPositions(bitArray: Bytes, bits: nat, h: Word, k: nat)
    requires bits > 0 && bits <= 8 * |bitArray|
    ensures HoldsKey(bitArray, bits, h, k) <==> forall m: nat :: m < k ==> BitAt(bitArray, Position(h, m, bits))
  {
    hide BitAt, Plus, Delta, Position, Probes;
    ProbesFrom(bitArray, bits, h, 0, k);
  }

  /** Some probe for one of the hash values looks at the bit. */
  ghost predicate Probed(hashes: seq<Word>, bits: nat, k: nat, q: nat)
    requires bits > 0
  {
    exists m: nat, i: nat :: m < |hashes| && i < k && Position(hashes[m], i, bits) == q
  }

  /** Every probe for the hash value looks at a bit that some probe for the others does. */
  ghost predicate SharesProbes(h: Word, hashes: seq<Word>, bits: nat, k: nat)
    requires bits > 0
  {
    forall j: nat :: j < k ==> Probed(hashes, bits, k, Position(h, j, bits))
  }

  /** A bit array with exactly the bits set that the hash values probe holds exactly those that share all their probes with
      them. */
  lemma HoldsExactly(bitArray: Bytes, hashes: seq<Word>, k: nat)
    requires |bitArray| > 0 && OnlyProbed(bitArray, hashes, k)
    requires forall m :: 0 <= m < |hashes| ==> HoldsKey(bitArray, 8 * |bitArray|, hashes[m], k)
    ensures forall h :: HoldsKey(bitArray, 8 * |bitArray|, h, k) <==> SharesProbes(h, hashes, 8 * |bitArray|, k)
  {
    hide BitAt, Probes, Position, OnlyProbed, HoldsKey, Probed;
    var bits := 8 * |bitArray|;
    forall q: nat | q < bits ensures BitAt(bitArray, q) <==> Probed(hashes, bits, k, q) {
      SetExactly(bitArray, hashes, k, q);
    }
    forall h ensures HoldsKey(bitArray, bits, h, k) <==> SharesProbes(h, hashes, bits, k) {
      HoldsAtPositions(bitArray, bits, h, k);
    }
  }

  lemma SetExactly(bitArray: Bytes, hashes: seq<Word>, k: nat, q: nat)
    requires q < 8 * |bitArray| && OnlyProbed(bitArray, hashes, k)
    requires forall m :: 0 <= m < |hashes| ==> HoldsKey(bitArray, 8 * |bitArray|, hashes[m], k)
    ensures BitAt(bitArray, q) <==> Probed(hashes, 8 * |bitArray|, k, q)
  {
    hide BitAt, Probes, Position, HoldsKey, Hits;
    var bits := 8 * |bitArray|;
    if m: nat, i: nat :| m < |hashes| && i < k && Position(hashes[m], i, bits) == q {
      HoldsAtPositions(bitArray, bits, hashes[m], k);
    }
    if BitAt(bitArray, q) {
      var m :| 0 <= m < |hashes| && Hits(hashes[m], bits, k, q);
      HitsArePositions(hashes[m], bits, k, q);
    }
  }

  class BloomFilterPolicy {
    const bitsPerKey: nat
    /** The number of probes, 0.69 times bitsPerKey but from 1 to 30. */
    const k: nat
    const hash: HashFunction

    constructor (bitsPerKey: nat, k: nat, hash: HashFunction)
      requires 1 <= k <= 30
      ensures this.bitsPerKey == bitsPerKey && this.k == k && this.hash == hash
    {
      this.bitsPerKey, this.k, this.hash := bitsPerKey, k, hash;
    }

    function Hashes(keys: seq<Bytes>): (hs: seq<Word>)
      ensures |hs| == |keys| && forall i :: 0 <= i < |keys| ==> hs[i] == hash(keys[i])
    {
      seq(|keys|, i requires 0 <= i < |keys| => hash(keys[i]))
    }

    /** Bytes for the bits of `n` keys, at least 64 bits. */
    function FilterSize(n: nat): (r: nat)
      ensures 8 * r >= 64 && 8 * r >= n * bitsPerKey && (8 * r < 64 + 8 || 8 * r < n * bitsPerKey + 8)
    {
      ((if n * bitsPerKey < 64 then 64 else n * bitsPerKey) + 7) / 8
    }

    /** Appends a filter that matches all the keys and has no bit set that none of them probes: it answers yes exactly for
        what shares all its probes with them. */
    method CreateFilter(keys: seq<Bytes>, dst: Bytes) returns (r: Bytes)
      requires 1 <= k <= 30
      ensures var bytes := FilterSize(|keys|);
        && dst <= r && |r| == |dst| + bytes + 1 && r[|r|-1] == k as byte
        && OnlyProbed(r[|dst|..|dst|+bytes], Hashes(keys), k)
      ensures forall i :: 0 <= i < |keys| ==> MayMatch(r[|dst|..], hash(keys[i]))
      ensures forall h :: MayMatch(r[|dst|..], h) <==> SharesProbes(h, Hashes(keys), 8 * FilterSize(|keys|), k)
    {
      hide Probes, BitAt, Delta, Hits, OnlyProbed, SharesProbes;
      var bits := |keys| * bitsPerKey;
      if bits < 64 {
        bits := 64;
      }
      var bytes := (bits + 7) / 8;
      bits := bytes * 8;
      var bitArray: Bytes := seq(bytes, _ => 0);
      NoBitSet(bitArray, k);
      ghost var hashes: seq<Word> := [];
      for i := 0 to |keys|
        invariant |bitArray| == bytes
        invariant forall m :: 0 <= m < i ==> HoldsKey(bitArray, bits, hash(keys[m]), k)
        invariant OnlyProbed(bitArray, hashes, k)
        invariant |hashes| == i && forall m :: 0 <= m < i ==> hashes[m] == hash(keys[m])
      {
        ghost var before := bitArray;
        bitArray := AddKey(bitArray, bits, hash(keys[i]));
        OneMoreHash(before, bitArray, hashes, hash(keys[i]), k);
        hashes := hashes + [hash(keys[i])];
        forall m | 0 <= m < i ensures HoldsKey(bitArray, bits, hash(keys[m]), k) {
          ProbesStay(before, bitArray, bits, hash(keys[m]), Delta(hash(keys[m])), k);
        }
      }
      assert hashes == Hashes(keys);
      r := dst + bitArray + [k as byte];
      assert r[|dst|..] == bitArray + [k as byte];
      assert (bitArray + [k as byte])[..bytes] == bitArray == r[|dst|..|dst|+bytes];
      HoldsExactly(bitArray, hashes, k);
    }

    /** Sets the bits of one key. */
    method AddKey(bitArray: Bytes, bits: nat, hashed: Word) returns (r: Bytes)
      requires 0 < bits <= 8 * |bitArray|
      ensures |r| == |bitArray| && Probes(r, bits, hashed, Delta(hashed), k)
      ensures forall q :: 0 <= q < bits ==> (BitAt(r, q) <==> BitAt(bitArray, q) || Hits(hashed, bits, k, q))
    {
      hide BitAt, Delta, Plus;
      r := bitArray;
      var h: Word, delta: Word := hashed, Delta(hashed);
      ghost var hs: seq<Word> := [h];
      for j := 0 to k
        invariant |r| == |bitArray| && |hs| == j + 1 && hs[0] == hashed && h == hs[j]
        invariant h == ProbeAt(hashed, delta, j)
        invariant forall m :: 0 <= m < j ==> hs[m+1] == Plus(hs[m], delta) && BitAt(r, hs[m] % bits)
        invariant forall q :: 0 <= q < bits ==> (BitAt(r, q) <==> BitAt(bitArray, q) || Hits(hashed, bits, j, q))
      {
        SetBitAtSets(r, h % bits);
        OneMoreProbe(hashed, bits, j);
        r := SetBitAt(r, h % bits);
        h := Plus(h, delta);
        hs := hs + [h];
      }
      ProbesOf(r, bits, hs, delta, k, 0);
    }

    method KeyMayMatch(key: Bytes, filter: Bytes) returns (r: bool)
      ensures r == MayMatch(filter, hash(key))
    {
      hide BitAt, Delta, Plus, Probes;
      if |filter| < 2 {
        return false;
      }
      var bitArray, bits := filter[..|filter|-1], (|filter| - 1) * 8;
      var probes := filter[|filter|-1] as nat;
      if probes > 30 {
        return true;
      }
      var h: Word := hash(key);
      var delta: Word := Delta(h);
      for j := 0 to probes
        invariant MayMatch(filter, hash(key)) == Probes(bitArray, bits, h, delta, probes - j)
      {
        NotProbed(bitArray, bits, h, delta, probes - j);
        if !BitAt(bitArray, h % bits) {
          return false;
        }
        h := Plus(h, delta);
      }
      NoProbes(bitArray, bits, h, delta);
      return true;
    }
  }

  lemma {:induction false} ProbesOf(bitArray: Bytes, bits: nat, hs: seq<Word>, delta: Word, k: nat, j: nat)
    requires 0 < bits <= 8 * |bitArray| && |hs| == k + 1 && j <= k
    requires forall m :: 0 <= m < k ==> hs[m+1] == Plus(hs[m], delta) && BitAt(bitArray, hs[m] % bits)
    ensures Probes(bitArray, bits, hs[j], delta, k - j)
    decreases k - j
  {
    if j < k {
      ProbesOf(bitArray, bits, hs, delta, k, j + 1);
    }
  }
}
