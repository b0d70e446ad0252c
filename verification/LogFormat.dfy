/** The log file format (db/log_format.h): records cut into fragments that never cross a 32 KB block. */
module LogFormat {
  import opened Keys
  import opened Coding

  const BLOCK_SIZE: nat := 32768
  /** Checksum (4 bytes), length (2 bytes), type (1 byte). */
  const HEADER_SIZE: nat := 7

  const ZERO_TYPE: byte := 0
  const FULL_TYPE: byte := 1
  const FIRST_TYPE: byte := 2
  const MIDDLE_TYPE: byte := 3
  const LAST_TYPE: byte := 4

  /** The checksum function, of the type byte and the payload. */
  type Crc = Bytes -> bv32

  function FragmentType(begin: bool, end: bool): byte {
    if begin && end then FULL_TYPE else if begin then FIRST_TYPE else if end then LAST_TYPE else MIDDLE_TYPE
  }

  function Header(crc: Crc, kind: byte, payload: Bytes): (h: Bytes)
    requires |payload| <= 0xffff
    ensures |h| == HEADER_SIZE
  {
    StoredCrc(crc([kind] + payload))
    + [(|payload| % 256) as byte, (|payload| / 256) as byte, kind]
  }

  function Zeros(n: nat): (r: Bytes)
    ensures |r| == n
  {
    seq(n, _ => 0)
  }

  /** A physical record: `pad` zero bytes to the end of a block, then a header at `start`, then the payload, which
      follows `before` in record number `record`. */
  datatype Fragment = Fragment(pad: nat, start: nat, kind: byte, payload: Bytes, record: nat, before: Bytes) {
    function End(): nat { start + HEADER_SIZE + |payload| }
    predicate Begins() { kind == FULL_TYPE || kind == FIRST_TYPE }
    predicate Ends() { kind == FULL_TYPE || kind == LAST_TYPE }
    function Block(): nat { start / BLOCK_SIZE }
    predicate InBlock() {
      && start % BLOCK_SIZE + HEADER_SIZE + |payload| <= BLOCK_SIZE
      && FULL_TYPE <= kind <= LAST_TYPE
    }
  }

  /** Where the next header goes once the log has `at` bytes: a block's last six bytes never hold one. */
  function HeaderAt(at: nat): (start: nat)
    ensures at <= start < at + HEADER_SIZE
    ensures start % BLOCK_SIZE + HEADER_SIZE <= BLOCK_SIZE
    ensures start == at || start == (at / BLOCK_SIZE + 1) * BLOCK_SIZE
  {
    if BLOCK_SIZE - at % BLOCK_SIZE < HEADER_SIZE then (at / BLOCK_SIZE + 1) * BLOCK_SIZE else at
  }

  function Available(at: nat): nat { BLOCK_SIZE - HEADER_SIZE - HeaderAt(at) % BLOCK_SIZE }

  /** The next fragment of a record of which `rest` is still to be written. */
  function NextFragment(rest: Bytes, before: Bytes, begin: bool, at: nat, r: nat): (f: Fragment)
    ensures f.InBlock() && f.record == r && f.before == before && |f.payload| <= |rest|
  {
    var start := HeaderAt(at);
    var n := if |rest| < Available(at) then |rest| else Available(at);
    Fragment(start - at, start, FragmentType(begin, n == |rest|), rest[..n], r, before)
  }

  function Fragments(rest: Bytes, before: Bytes, begin: bool, at: nat, r: nat): (fs: seq<Fragment>)
    ensures |fs| > 0
    decreases |rest|, if Available(at) == 0 then 1 else 0
  {
    var f := NextFragment(rest, before, begin, at, r);
    if f.Ends() then [f]
    else [f] + Fragments(rest[|f.payload|..], before + f.payload, false, f.End(), r)
  }

  function LogEnd(fs: seq<Fragment>): nat { if fs == [] then 0 else fs[|fs|-1].End() }

  function Layout(records: seq<Bytes>): seq<Fragment> {
    if records == [] then []
    else
      var r := |records| - 1;
      var prior := Layout(records[..r]);
      prior + Fragments(records[r], [], true, LogEnd(prior), r)
  }

  function FragmentBytes(crc: Crc, f: Fragment): Bytes
    requires f.InBlock()
  {
    Zeros(f.pad) + Header(crc, f.kind, f.payload) + f.payload
  }

  predicate AllInBlock(fs: seq<Fragment>) { forall i :: 0 <= i < |fs| ==> fs[i].InBlock() }

  function Render(crc: Crc, fs: seq<Fragment>): Bytes
    requires AllInBlock(fs)
  {
    if fs == [] then []
    else Render(crc, fs[..|fs|-1]) + FragmentBytes(crc, fs[|fs|-1])
  }

  lemma {:induction false} FragmentsInBlock(rest: Bytes, before: Bytes, begin: bool, at: nat, r: nat)
    ensures AllInBlock(Fragments(rest, before, begin, at, r))
    decreases |rest|, if Available(at) == 0 then 1 else 0
  {
    var f := NextFragment(rest, before, begin, at, r);
    if !f.Ends() {
      FragmentsInBlock(rest[|f.payload|..], before + f.payload, false, f.End(), r);
    }
  }

  lemma {:induction false} LayoutInBlock(records: seq<Bytes>)
    ensures AllInBlock(Layout(records))
  {
    if records != [] {
      var r := |records| - 1;
      LayoutInBlock(records[..r]);
      FragmentsInBlock(records[r], [], true, LogEnd(Layout(records[..r])), r);
    }
  }

  /** The log file of a list of records. */
  ghost function Encode(crc: Crc, records: seq<Bytes>): Bytes {
    LayoutInBlock(records);
    Render(crc, Layout(records))
  }
}
