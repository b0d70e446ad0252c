/** Batches of updates as one byte string (db/write_batch.cc). */
module WriteBatches {
  import opened Keys
  import opened Coding
  import opened Comparator
  import opened Visibility

  datatype Op = Put(key: Bytes, value: Bytes) | Delete(key: Bytes) {
    function Kind(): Kind { if Put? then TYPE_VALUE else TYPE_DELETION }
    function Value(): Bytes { if Put? then value else [] }
    /** Lengths are written as 32-bit numbers. */
    predicate Fits() { |key| < 0x1_0000_0000 && |Value()| < 0x1_0000_0000 }
  }

  /** An 8-byte sequence number and a 4-byte count. */
  const HEADER: nat := 12
  /** The count is a C int. */
  const MAX_COUNT: nat := 0x7fff_ffff

  function Record(op: Op): (b: Bytes)
    ensures |b| > 0
  {
    if op.Put? then [TYPE_VALUE as byte] + LengthPrefixed(op.key) + LengthPrefixed(op.value)
    else [TYPE_DELETION as byte] + LengthPrefixed(op.key)
  }

  function Records(ops: seq<Op>): Bytes {
    if ops == [] then [] else Record(ops[0]) + Records(ops[1..])
  }

  lemma {:induction false} RecordsAppend(a: seq<Op>, b: seq<Op>)
    ensures Records(a + b) == Records(a) + Records(b)
  {
    if a == [] {
      assert a + b == b;
    } else {
      assert (a + b)[1..] == a[1..] + b;
      RecordsAppend(a[1..], b);
    }
  }

  /** The updates a handler sees before the end or the first malformed record. */
  datatype Parsed = Parsed(ops: seq<Op>, ok: bool)

  function ParseRecord(b: Bytes): (r: Option<(Op, Bytes)>)
    requires b != []
    ensures r.Some? ==> |r.value.1| < |b|
  {
    var tag, input := b[0], b[1..];
    if tag == TYPE_VALUE as byte then
      match GetLengthPrefixed(input) {
        case None => None
        case Some((key, rest)) =>
          match GetLengthPrefixed(rest) {
            case None => None
            case Some((value, after)) => Some((Put(key, value), after))
          }
      }
    else if tag == TYPE_DELETION as byte then
      match GetLengthPrefixed(input) {
        case None => None
        case Some((key, rest)) => Some((Delete(key), rest))
      }
    else None
  }

  function ParseRecords(b: Bytes): Parsed
    decreases |b|
  {
    if b == [] then Parsed([], true)
    else match ParseRecord(b) {
      case None => Parsed([], false)
      case Some(r) => var p := ParseRecords(r.1); Parsed([r.0] + p.ops, p.ok)
    }
  }

  function Iterated(rep: Bytes): Parsed {
    if |rep| < HEADER then Parsed([], false)
    else
      var p := ParseRecords(rep[HEADER..]);
      Parsed(p.ops, p.ok && |p.ops| == DecodeFixed32(rep[8..]))
  }

  lemma RecordRoundTrip(op: Op, rest: Bytes)
    requires op.Fits()
    ensures ParseRecord(Record(op) + rest) == Some((op, rest))
  {
    hide LengthPrefixed, GetLengthPrefixed;
    var b := Record(op) + rest;
    if op.Put? {
      var tail := LengthPrefixed(op.value) + rest;
      assert b[1..] == LengthPrefixed(op.key) + tail;
      LengthPrefixedRoundTrip(op.key, tail);
      LengthPrefixedRoundTrip(op.value, rest);
    } else {
      assert b[1..] == LengthPrefixed(op.key) + rest;
      LengthPrefixedRoundTrip(op.key, rest);
    }
  }

  lemma {:induction false} RecordsRoundTrip(ops: seq<Op>)
    requires forall i :: 0 <= i < |ops| ==> ops[i].Fits()
    ensures ParseRecords(Records(ops)) == Parsed(ops, true)
  {
    if ops != [] {
      RecordRoundTrip(ops[0], Records(ops[1..]));
      RecordsRoundTrip(ops[1..]);
    }
  }

  function BatchBytes(sequence: DoubleWord, ops: seq<Op>): Bytes
    requires |ops| <= MAX_COUNT
  {
    EncodeFixed64(sequence) + EncodeFixed32(|ops|) + Records(ops)
  }

  predicate WellFormed(ops: seq<Op>) {
    |ops| <= MAX_COUNT && forall i :: 0 <= i < |ops| ==> ops[i].Fits()
  }

  /** Iterating over a batch gives back the updates put into it, and its header the numbers. */
  lemma BatchRoundTrip(sequence: DoubleWord, ops: seq<Op>)
    requires WellFormed(ops)
    ensures var rep := BatchBytes(sequence, ops);
      && |rep| >= HEADER && rep[HEADER..] == Records(ops)
      && Iterated(rep) == Parsed(ops, true) && DecodeFixed64(rep) == sequence && DecodeFixed32(rep[8..]) == |ops|
  {
    hide EncodeFixed32, DecodeFixed32, EncodeFixed64, DecodeFixed64, Records, ParseRecords;
    HeaderSplit(sequence, ops);
    Fixed64RoundTrip(sequence, EncodeFixed32(|ops|) + Records(ops));
    Fixed32RoundTrip(|ops|, Records(ops));
    RecordsRoundTrip(ops);
  }

  lemma HeaderSplit(sequence: DoubleWord, ops: seq<Op>)
    requires |ops| <= MAX_COUNT
    ensures var rep := BatchBytes(sequence, ops);
      && rep == EncodeFixed64(sequence) + (EncodeFixed32(|ops|) + Records(ops))
      && |rep| >= HEADER && rep[..8] == EncodeFixed64(sequence) && rep[HEADER..] == Records(ops)
      && rep[8..] == EncodeFixed32(|ops|) + Records(ops)
  {
    hide EncodeFixed32, EncodeFixed64, Records;
    Split(EncodeFixed64(sequence), EncodeFixed32(|ops|), Records(ops));
  }

  lemma Split(a: Bytes, b: Bytes, c: Bytes)
    requires |a| == 8 && |b| == 4
    ensures var s := a + b + c;
      s == a + (b + c) && |s| >= HEADER && s[..8] == a && s[HEADER..] == c && s[8..] == b + c
  {
  }

  /** The memtable entries of a batch: consecutive sequence numbers from its own on. */
  function Numbered(ops: seq<Op>, first: nat): (es: seq<Entry>)
    requires first + |ops| <= MAX_SEQUENCE + 1
    ensures |es| == |ops|
  {
    seq(|ops|, i requires 0 <= i < |ops| => Entry(InternalKey(BytewiseRank(ops[i].key), first + i, ops[i].Kind()), ops[i].Value()))
  }

  lemma NumberedOneMore(ops: seq<Op>, op: Op, first: nat)
    requires first + |ops| + 1 <= MAX_SEQUENCE + 1
    ensures Numbered(ops + [op], first)
         == Numbered(ops, first) + [Entry(InternalKey(BytewiseRank(op.key), first + |ops|, op.Kind()), op.Value())]
  {
  }

  lemma NumberedNone(first: nat)
    requires first <= MAX_SEQUENCE + 1
    ensures Numbered([], first) == []
  {
  }

  // ----- What a reader finds of the updates -----

  /** No later update touches the key of update `i`. */
  predicate LastOfItsKey(ops: seq<Op>, i: nat) {
    i < |ops| && forall j :: i < j < |ops| ==> ops[j].key != ops[i].key
  }

  predicate Touched(ops: seq<Op>, key: Bytes) { exists i :: 0 <= i < |ops| && ops[i].key == key }

  /** A reader at `s` finds of every key what the last update of it says: the value put, or nothing once it was deleted or
      if it was never put. */
  ghost predicate Leaves(data: set<Entry>, s: Sequence, ops: seq<Op>) {
    && (forall i: nat :: LastOfItsKey(ops, i)
          ==> Lookup(data, BytewiseRank(ops[i].key), s) == if ops[i].Put? then Some(ops[i].value) else None)
    && (forall key :: !Touched(ops, key) ==> Lookup(data, BytewiseRank(key), s) == None)
  }

  /** The entries say, one for one, what the updates say. */
  ghost predicate Tell(es: seq<Entry>, ops: seq<Op>) {
    && |es| == |ops|
    && forall i :: 0 <= i < |es| ==>
         && es[i].key.user == BytewiseRank(ops[i].key) && es[i].key.Parses()
         && (es[i].key.kind == TYPE_VALUE <==> ops[i].Put?) && (ops[i].Put? ==> es[i].value == ops[i].value)
  }

  predicate Increasing(es: seq<Entry>) {
    forall i, j :: 0 <= i < j < |es| ==> es[i].key.sequence < es[j].key.sequence
  }

  lemma NumberedTell(ops: seq<Op>, first: nat)
    requires first + |ops| <= MAX_SEQUENCE + 1
    ensures Tell(Numbered(ops, first), ops) && Increasing(Numbered(ops, first))
    ensures forall i :: 0 <= i < |ops| ==> Numbered(ops, first)[i].key.sequence == first + i
  {
    hide BytewiseRank;
  }

  lemma TellAppend(a: seq<Entry>, x: seq<Op>, b: seq<Entry>, y: seq<Op>)
    requires Tell(a, x) && Tell(b, y)
    ensures Tell(a + b, x + y)
  {
    hide BytewiseRank;
  }

  lemma OneEach(es: seq<Entry>)
    requires Increasing(es)
    ensures OneEntryPerSequence(Elements(es))
  {
    forall a, b | a in Elements(es) && b in Elements(es) && a.key.sequence == b.key.sequence ensures a == b {
      var i :| 0 <= i < |es| && es[i] == a;
      var j :| 0 <= j < |es| && es[j] == b;
      assert !(i < j) && !(j < i);
    }
  }

  /** Of entries in the order of their sequence numbers, those a reader may see answer for the updates they carry. */
  lemma LastDecides(es: seq<Entry>, ops: seq<Op>, n: nat, s: Sequence)
    requires Tell(es, ops) && Increasing(es) && n <= |es|
    requires forall i :: 0 <= i < |es| ==> (es[i].key.sequence <= s <==> i < n)
    ensures Leaves(Elements(es), s, ops[..n])
  {
    hide BytewiseRank, Lookup;
    var data, seen := Elements(es), ops[..n];
    OneEach(es);
    forall i: nat | LastOfItsKey(seen, i)
      ensures Lookup(data, BytewiseRank(seen[i].key), s) == if seen[i].Put? then Some(seen[i].value) else None
    {
      LastIsNewest(es, ops, n, s, i);
      LookupIsOutcome(data, BytewiseRank(seen[i].key), s, es[i]);
    }
    forall key | !Touched(seen, key) ensures Lookup(data, BytewiseRank(key), s) == None {
      forall e | e in data ensures !Readable(e, BytewiseRank(key), s) {
        var k :| 0 <= k < |es| && es[k] == e;
        RankKeepsOrder(ops[k].key, key);
        assert k < n ==> seen[k] == ops[k];
      }
      LookupOfNothing(data, BytewiseRank(key), s);
    }
  }

  lemma LastIsNewest(es: seq<Entry>, ops: seq<Op>, n: nat, s: Sequence, i: nat)
    requires Tell(es, ops) && Increasing(es) && n <= |es| && LastOfItsKey(ops[..n], i)
    requires forall i :: 0 <= i < |es| ==> (es[i].key.sequence <= s <==> i < n)
    ensures Newest(Elements(es), BytewiseRank(ops[i].key), s, es[i])
  {
    hide BytewiseRank;
    forall o | o in Elements(es) && Readable(o, BytewiseRank(ops[i].key), s) ensures o.key.sequence <= es[i].key.sequence {
      var k :| 0 <= k < |es| && es[k] == o;
      RankKeepsOrder(ops[k].key, ops[i].key);
      assert ops[..n][k] == ops[k] && ops[..n][i] == ops[i];
    }
  }

  /** The entries have consecutive sequence numbers, and after any number of them, and no more, a reader finds what as many
      updates leave. */
  ghost predicate AddOneByOne(es: seq<Entry>, first: nat, ops: seq<Op>)
    requires first + |ops| <= MAX_SEQUENCE + 1
  {
    && |es| == |ops| && (forall i :: 0 <= i < |es| ==> es[i].key.sequence == first + i)
    && forall n :: 1 <= n <= |ops| ==> Leaves(Elements(es), first + n - 1, ops[..n])
  }

  lemma InsertedLeave(ops: seq<Op>, first: nat)
    requires first + |ops| <= MAX_SEQUENCE + 1
    ensures AddOneByOne(Numbered(ops, first), first, ops)
  {
    hide Leaves, Numbered;
    NumberedTell(ops, first);
    forall n | 1 <= n <= |ops| ensures Leaves(Elements(Numbered(ops, first)), first + n - 1, ops[..n]) {
      LastDecides(Numbered(ops, first), ops, n, first + n - 1);
    }
  }

  /** Hands every record to the inserter, until one is malformed. */
  method IterateRecords(records: Bytes, first: nat) returns (ok: bool, entries: seq<Entry>)
    requires first + |ParseRecords(records).ops| <= MAX_SEQUENCE + 1
    ensures var all := ParseRecords(records); ok == all.ok && entries == Numbered(all.ops, first)
  {
    hide ParseRecord, Numbered;
    var input, s: nat := records, first;
    ghost var all, done := ParseRecords(input), [];
    entries := [];
    NumberedNone(first);
    while input != []
      invariant s == first + |done| && |done| + |ParseRecords(input).ops| == |all.ops|
      invariant entries == Numbered(done, first)
      invariant all == Parsed(done + ParseRecords(input).ops, ParseRecords(input).ok)
      decreases |input|
    {
      var parsed := ParseRecord(input);
      if parsed == None {
        assert done + [] == done;
        return false, entries;
      }
      var (op, after) := parsed.value;
      NumberedOneMore(done, op, first);
      assert done + ([op] + ParseRecords(after).ops) == (done + [op]) + ParseRecords(after).ops;
      done := done + [op];
      input := after;
      entries := entries + [Entry(InternalKey(BytewiseRank(op.key), s, op.Kind()), op.Value())];
      s := s + 1;
    }
    assert done + [] == done;
    ok := true;
  }

  class WriteBatch {
    var rep: Bytes
    ghost var ops: seq<Op>
    ghost var sequence: DoubleWord

    ghost predicate Valid()
      reads this
    {
      WellFormed(ops) && rep == BatchBytes(sequence, ops)
    }

    constructor ()
      ensures Valid() && ops == []
    {
      rep := [0, 0, 0, 0, 0, 0, 0, 0, 0, 0, 0, 0];
      ops, sequence := [], 0;
      assert EncodeFixed64(0) + EncodeFixed32(0) == [0, 0, 0, 0, 0, 0, 0, 0, 0, 0, 0, 0];
    }

    method Clear()
      modifies this
      ensures Valid() && ops == [] && sequence == 0
    {
      rep := [0, 0, 0, 0, 0, 0, 0, 0, 0, 0, 0, 0];
      ops, sequence := [], 0;
      assert EncodeFixed64(0) + EncodeFixed32(0) == [0, 0, 0, 0, 0, 0, 0, 0, 0, 0, 0, 0];
    }

    /** Any bytes may come in. */
    method SetContents(contents: Bytes)
      modifies `rep
      ensures rep == contents
    {
      rep := contents;
    }

    function Count(): (n: nat)
      requires Valid()
      reads this
      ensures n == |ops|
    {
      BatchRoundTrip(sequence, ops);
      DecodeFixed32(rep[8..])
    }

    function Sequence(): (s: nat)
      requires Valid()
      reads this
      ensures s == sequence
    {
      BatchRoundTrip(sequence, ops);
      DecodeFixed64(rep)
    }

    method SetSequence(s: DoubleWord)
      requires Valid()
      modifies this
      ensures Valid() && ops == old(ops) && sequence == s
    {
      HeaderSplit(sequence, ops);
      rep := EncodeFixed64(s) + rep[8..];
      sequence := s;
      HeaderSplit(s, ops);
    }

    method Put(key: Bytes, value: Bytes)
      requires Valid() && |ops| < MAX_COUNT && Op.Put(key, value).Fits()
      modifies this
      ensures Valid() && ops == old(ops) + [Op.Put(key, value)] && sequence == old(sequence)
    {
      AddRecord(Op.Put(key, value));
    }

    method Delete(key: Bytes)
      requires Valid() && |ops| < MAX_COUNT && Op.Delete(key).Fits()
      modifies this
      ensures Valid() && ops == old(ops) + [Op.Delete(key)] && sequence == old(sequence)
    {
      AddRecord(Op.Delete(key));
    }

    method AddRecord(op: Op)
      requires Valid() && |ops| < MAX_COUNT && op.Fits()
      modifies this
      ensures Valid() && ops == old(ops) + [op] && sequence == old(sequence)
    {
      AppendRecords(1, Record(op), [op]);
    }

    /** Raises the count and appends `bytes`. */
    method AppendRecords(n: nat, bytes: Bytes, ghost more: seq<Op>)
      requires Valid() && |ops| + n <= MAX_COUNT && WellFormed(more) && n == |more| && bytes == Records(more)
      modifies this
      ensures Valid() && ops == old(ops) + more && sequence == old(sequence)
    {
      hide EncodeFixed32, EncodeFixed64, DecodeFixed32, Records;
      HeaderSplit(sequence, ops);
      RecordsAppend(ops, more);
      rep := rep[..8] + EncodeFixed32(Count() + n) + rep[12..];
      rep := rep + bytes;
      ops := ops + more;
    }

    method Append(src: WriteBatch)
      requires Valid() && src.Valid() && src != this && |ops| + |src.ops| <= MAX_COUNT
      modifies this
      ensures Valid() && ops == old(ops) + src.ops && sequence == old(sequence)
    {
      BatchRoundTrip(src.sequence, src.ops);
      AppendRecords(src.Count(), src.rep[HEADER..], src.ops);
    }

    /** Iterates with a memtable inserter; `entries` are what it adds, in order, whatever the bytes are. */
    method InsertInto() returns (ok: bool, entries: seq<Entry>)
      requires |rep| >= HEADER ==> DecodeFixed64(rep) + |Iterated(rep).ops| <= MAX_SEQUENCE + 1
      ensures ok == Iterated(rep).ok
      ensures entries == if |rep| < HEADER then [] else Numbered(Iterated(rep).ops, DecodeFixed64(rep))
      ensures Valid() ==> ok && sequence + |ops| <= MAX_SEQUENCE + 1 && AddOneByOne(entries, sequence, ops)
    {
      hide DecodeFixed32, DecodeFixed64, ParseRecords, Numbered, AddOneByOne, BatchBytes, WellFormed;
      if Valid() {
        BatchRoundTrip(sequence, ops);
        InsertedLeave(ops, sequence);
      }
      if |rep| < HEADER {
        return false, [];
      }
      ok, entries := IterateRecords(rep[HEADER..], DecodeFixed64(rep));
      if ok {
        ok := |entries| == DecodeFixed32(rep[8..]);
      }
    }
  }
}
