/** Reading a damaged log: fragments of different records are never joined, and exactly the records every fragment
    of which can still be reached come back. */
module LogDamage {
  import opened Keys
  import opened Coding
  import opened LogFormat
  import opened LogReader
  import opened LogRecovery

  /** How a fragment continues the one before it. */
  predicate Joined(prev: Fragment, next: Fragment) {
    && next.start == HeaderAt(prev.End())
    && if prev.Ends() then next.Begins() && next.record == prev.record + 1
       else !next.Begins() && next.record == prev.record && next.before == prev.before + prev.payload
  }

  predicate Belongs(f: Fragment, records: seq<Bytes>) {
    && f.InBlock() && f.record < |records|
    && (f.Begins() ==> f.before == [])
    && (f.Ends() ==> f.before + f.payload == records[f.record])
  }

  predicate Story(fs: seq<Fragment>, records: seq<Bytes>) {
    && (forall i :: 0 <= i < |fs| ==> Belongs(fs[i], records))
    && (forall i :: 0 < i < |fs| ==> Joined(fs[i-1], fs[i]))
    && (fs == [] <==> records == [])
    && (fs != [] ==> fs[0].Begins() && fs[0].record == 0 && fs[0].start == 0)
    && (fs != [] ==> fs[|fs|-1].Ends() && fs[|fs|-1].record == |records| - 1)
  }

  lemma {:induction false} FragmentsStory(rest: Bytes, before: Bytes, begin: bool, at: nat, r: nat, records: seq<Bytes>)
    requires r < |records| && before + rest == records[r] && (begin ==> before == [])
    ensures var fs := Fragments(rest, before, begin, at, r);
      && (forall i :: 0 <= i < |fs| ==> Belongs(fs[i], records))
      && (forall i :: 0 < i < |fs| ==> Joined(fs[i-1], fs[i]))
      && fs[0].record == r && fs[0].before == before && fs[0].start == HeaderAt(at) && (fs[0].Begins() <==> begin)
      && fs[|fs|-1].Ends() && fs[|fs|-1].record == r
    decreases |rest|, if Available(at) == 0 then 1 else 0
  {
    var f, fs := NextFragment(rest, before, begin, at, r), Fragments(rest, before, begin, at, r);
    NextFragmentFacts(rest, before, begin, at, r);
    hide NextFragment, Available, HeaderAt;
    if !f.Ends() {
      PayloadIsPrefix(rest, before, begin, at, r);
      var tail := Fragments(rest[|f.payload|..], before + f.payload, false, f.End(), r);
      assert before + f.payload + rest[|f.payload|..] == before + rest;
      FragmentsStory(rest[|f.payload|..], before + f.payload, false, f.End(), r, records);
      assert fs == [f] + tail;
    } else {
      assert fs == [f];
    }
  }

  lemma PayloadIsPrefix(rest: Bytes, before: Bytes, begin: bool, at: nat, r: nat)
    ensures var f := NextFragment(rest, before, begin, at, r); f.payload == rest[..|f.payload|]
  {
  }

  lemma {:induction false} LayoutStory(records: seq<Bytes>)
    ensures Story(Layout(records), records)
  {
    hide Fragments, HeaderAt, Story;
    if records == [] {
      NoStory();
    } else {
      var r := |records| - 1;
      var init, prior := records[..r], Layout(records[..r]);
      LayoutStory(init);
      FragmentsStory(records[r], [], true, LogEnd(prior), r, records);
      var fs := Fragments(records[r], [], true, LogEnd(prior), r);
      assert Layout(records) == prior + fs;
      StoryGrows(prior, fs, init, records);
    }
  }

  /** The fragments of one more record continue the story. */
  lemma StoryGrows(prior: seq<Fragment>, fs: seq<Fragment>, init: seq<Bytes>, records: seq<Bytes>)
    requires Story(prior, init) && fs != [] && records != [] && init == records[..|records|-1]
    requires forall i :: 0 <= i < |fs| ==> Belongs(fs[i], records)
    requires forall i :: 0 < i < |fs| ==> Joined(fs[i-1], fs[i])
    requires fs[0].record == |init| && fs[0].start == HeaderAt(LogEnd(prior)) && fs[0].Begins()
    requires fs[|fs|-1].Ends() && fs[|fs|-1].record == |init|
    ensures Story(prior + fs, records)
  {
    hide HeaderAt;
    assert prior == [] ==> fs[0].start == 0 by { FirstHeader(); }
    forall i | 0 <= i < |prior| ensures Belongs((prior + fs)[i], records) {
      assert Belongs(prior[i], init);
    }
    forall i | 0 < i < |prior + fs| ensures Joined((prior + fs)[i-1], (prior + fs)[i]) {
      if i > |prior| {
        assert Joined(fs[i-|prior|-1], fs[i-|prior|]);
      }
    }
  }

  lemma NoStory()
    ensures Story([], [])
  {
  }

  lemma FirstHeader()
    ensures HeaderAt(0) == 0
  {
  }

  /** The fragment reads back as it was written. */
  predicate Seen(log: LogFile, f: Fragment) {
    f.start <= |log.bytes| && PhysicalAt(log, f.start) == Physical(f.kind as nat, f.payload, HEADER_SIZE + |f.payload|, None)
  }

  /** The reader finds damage, or the file's torn end, where the fragment should be, and drops the rest of the block. */
  predicate Skipped(log: LogFile, f: Fragment) {
    f.start <= |log.bytes| ==>
      var p := PhysicalAt(log, f.start);
      && f.start + p.used == BlockEnd(|log.bytes|, f.start)
      && (p.kind == BAD_RECORD || (p.kind == EOF && Torn(|log.bytes|, f.start)))
  }

  /** Everything before the fragment in its block reads back, so the reader gets to it. */
  ghost predicate LookedAt(log: LogFile, fs: seq<Fragment>, i: nat)
    requires i < |fs|
  {
    forall j :: 0 <= j < i && fs[j].Block() == fs[i].Block() ==> Seen(log, fs[j])
  }

  /** No damage that the reader gets to goes unnoticed. */
  ghost predicate DamageDetected(log: LogFile, fs: seq<Fragment>) {
    && |log.bytes| <= LogEnd(fs)
    && forall i :: 0 <= i < |fs| && LookedAt(log, fs, i) ==> Seen(log, fs[i]) || Skipped(log, fs[i])
  }

  /** What the reader takes for damage: a bad length, the zero type or a wrong checksum. */
  lemma DetectedDamage(log: LogFile, f: Fragment)
    requires f.InBlock() && f.start + HEADER_SIZE <= |log.bytes|
    requires var end := BlockEnd(|log.bytes|, f.start);
      var length := log.bytes[f.start+4] as nat + log.bytes[f.start+5] as nat * 256;
      || f.start + HEADER_SIZE + length > end
      || (log.bytes[f.start+6] == ZERO_TYPE && length == 0)
      || (f.start + HEADER_SIZE + length <= end && log.checksum
          && LoadCrc(log.bytes[f.start..])
             != log.crc(log.bytes[f.start+6..f.start+HEADER_SIZE+length]))
    ensures Skipped(log, f)
  {
    hide LoadCrc;
    HeaderFits(f.start, |log.bytes|);
    var end := BlockEnd(|log.bytes|, f.start);
    var length := log.bytes[f.start+4] as nat + log.bytes[f.start+5] as nat * 256;
    var buffer := log.bytes[f.start..end];
    FirstFourBytes(buffer, log.bytes[f.start..]);
    if f.start + HEADER_SIZE + length <= end {
      SliceOfSlice(log.bytes, f.start, end, 6, HEADER_SIZE + length);
    }
    assert buffer[4] == log.bytes[f.start+4] && buffer[5] == log.bytes[f.start+5] && buffer[6] == log.bytes[f.start+6];
    var p := Parse(log, buffer, Torn(|log.bytes|, f.start));
    assert p.used == |buffer| && (p.kind == BAD_RECORD || (p.kind == EOF && Torn(|log.bytes|, f.start)));
    assert HeaderAt(f.start) == f.start;
  }

  lemma SliceOfSlice(s: Bytes, a: nat, b: nat, i: nat, j: nat)
    requires a <= b <= |s| && i <= j <= b - a
    ensures s[a..b][i..j] == s[a+i..a+j]
  {
    assert |s[a..b][i..j]| == j - i == |s[a+i..a+j]|;
    forall k | 0 <= k < j - i ensures s[a..b][i..j][k] == s[a+i..a+j][k] {
    }
  }

  lemma FirstFourBytes(a: Bytes, b: Bytes)
    requires |a| >= 4 && a <= b
    ensures LoadCrc(a) == LoadCrc(b)
  {
    hide Unmask, DecodeFixed32;
    SameFixed32(a, b);
  }

  lemma SameFixed32(a: Bytes, b: Bytes)
    requires |a| >= 4 && a <= b
    ensures DecodeFixed32(a) == DecodeFixed32(b)
  {
  }

  /** Nothing before the fragment in its block, nor the fragment itself, is damaged. */
  ghost predicate Reached(log: LogFile, fs: seq<Fragment>, i: nat)
    requires i < |fs|
  {
    forall j :: 0 <= j <= i && fs[j].Block() == fs[i].Block() ==> Seen(log, fs[j])
  }

  ghost predicate Survives(log: LogFile, fs: seq<Fragment>, r: nat) {
    forall i :: 0 <= i < |fs| && fs[i].record == r ==> Reached(log, fs, i)
  }

  /** The surviving records from number `r` on. */
  ghost function Surviving(log: LogFile, fs: seq<Fragment>, records: seq<Bytes>, r: nat): seq<Bytes>
    decreases |records| - r
  {
    if r >= |records| then []
    else (if Survives(log, fs, r) then [records[r]] else []) + Surviving(log, fs, records, r + 1)
  }

  lemma {:induction false} InOrder(fs: seq<Fragment>, records: seq<Bytes>, i: nat, j: nat)
    requires Story(fs, records) && i < j < |fs|
    ensures fs[i].End() <= fs[j].start && fs[i].record <= fs[j].record
    ensures fs[i].Ends() ==> fs[i].record < fs[j].record
    ensures fs[i].Block() <= fs[j].Block()
    decreases j - i
  {
    if i + 1 < j {
      InOrder(fs, records, i + 1, j);
      assert Joined(fs[i], fs[i+1]);
    }
    BlocksGrow(fs[i].start, fs[j].start);
  }

  lemma BlocksGrow(a: nat, b: nat)
    requires a <= b
    ensures a / BLOCK_SIZE <= b / BLOCK_SIZE
  {
  }

  /** Records of which some fragment among `i`..`stop` cannot be reached are lost. */
  lemma {:induction false} LostUpTo(log: LogFile, fs: seq<Fragment>, records: seq<Bytes>, i: nat, stop: nat)
    requires Story(fs, records) && i <= stop <= |fs| && i < |fs|
    requires forall j: nat :: i <= j < stop ==> !Reached(log, fs, j)
    ensures Surviving(log, fs, records, fs[i].record)
         == (if stop < |fs| then Surviving(log, fs, records, fs[stop].record) else [])
    decreases stop - i
  {
    hide Reached, Surviving, Story;
    if i < stop {
      LostOne(log, fs, records, i);
      if i + 1 < |fs| {
        LostUpTo(log, fs, records, i + 1, stop);
      }
    }
  }

  lemma LostOne(log: LogFile, fs: seq<Fragment>, records: seq<Bytes>, i: nat)
    requires Story(fs, records) && i < |fs| && !Reached(log, fs, i)
    ensures Surviving(log, fs, records, fs[i].record)
         == (if i + 1 < |fs| then Surviving(log, fs, records, fs[i+1].record) else [])
  {
    hide Reached, Survives, Story;
    SurvivesReached(log, fs, i);
    NextRecord(fs, records, i);
    assert Surviving(log, fs, records, |records|) == [];
    assert Surviving(log, fs, records, fs[i].record) == [] + Surviving(log, fs, records, fs[i].record + 1);
  }

  lemma SurvivesReached(log: LogFile, fs: seq<Fragment>, i: nat)
    requires i < |fs|
    ensures Survives(log, fs, fs[i].record) ==> Reached(log, fs, i)
  {
    hide Reached;
  }

  lemma NextRecord(fs: seq<Fragment>, records: seq<Bytes>, i: nat)
    requires Story(fs, records) && i < |fs|
    ensures fs[i].record < |records|
    ensures if i + 1 < |fs| then fs[i].record <= fs[i+1].record <= fs[i].record + 1 else fs[i].record + 1 == |records|
  {
    hide HeaderAt;
    assert i + 1 < |fs| ==> Joined(fs[i+1-1], fs[i+1]);
  }

  /** A reader at `at` is due to find fragment `i`, with `partial` of its record read so far. */
  ghost predicate Due(log: LogFile, fs: seq<Fragment>, i: nat, at: nat, partial: Option<Bytes>) {
    && i <= |fs| && at <= |log.bytes|
    && (i == |fs| ==> at == |log.bytes| && partial == None)
    && (i < |fs| ==> && fs[i].start == HeaderAt(at)
                     && LookedAt(log, fs, i)
                     && (fs[i].Begins() ==> partial == None)
                     && (!fs[i].Begins() && partial == None ==> !Survives(log, fs, fs[i].record))
                     && (partial.Some? ==>
                           && partial.value == fs[i].before
                           && forall j: nat :: j < i && fs[j].record == fs[i].record ==> Reached(log, fs, j)))
  }

  /** What is still to come at fragment `i`. */
  ghost function Coming(log: LogFile, fs: seq<Fragment>, records: seq<Bytes>, i: nat): seq<Bytes> {
    if i < |fs| then Surviving(log, fs, records, fs[i].record) else []
  }

  lemma SeenThere(log: LogFile, f: Fragment, at: nat)
    requires Seen(log, f) && at <= |log.bytes| && f.start == HeaderAt(at)
    ensures PhysicalAt(log, at) == Physical(f.kind as nat, f.payload, f.End() - at, None)
    ensures at < f.End() <= |log.bytes|
  {
  }

  lemma UnfoldRead(log: LogFile, at: nat, partial: Option<Bytes>)
    requires at <= |log.bytes|
    ensures var p, r := PhysicalAt(log, at), ReadFrom(log, at, partial);
      match StepOn(partial, p)
      case Complete(record, _) => p.used > 0 && r.records == [record] + ReadFrom(log, at + p.used, None).records
      case Stop => r.records == []
      case Carry(after, _) => p.used > 0 && r.records == ReadFrom(log, at + p.used, after).records
  {
    hide RecordAt, PhysicalAt;
    UnfoldRecord(log, at, partial, []);
  }

  /** The fragments of one record are those that end with its ending one. */
  lemma EndsItsRecord(log: LogFile, fs: seq<Fragment>, records: seq<Bytes>, i: nat)
    requires Story(fs, records) && i < |fs| && fs[i].Ends() && Reached(log, fs, i)
    requires forall j: nat :: j < i && fs[j].record == fs[i].record ==> Reached(log, fs, j)
    ensures Survives(log, fs, fs[i].record)
  {
    forall j: nat | j < |fs| && fs[j].record == fs[i].record ensures Reached(log, fs, j) {
      if j > i {
        InOrder(fs, records, i, j);
      }
    }
  }

  lemma BeginsItsRecord(fs: seq<Fragment>, records: seq<Bytes>, i: nat, j: nat)
    requires Story(fs, records) && j < i < |fs| && fs[i].Begins()
    ensures fs[j].record < fs[i].record
  {
    InOrder(fs, records, j, i);
    assert Joined(fs[i-1], fs[i]);
    if j < i - 1 {
      InOrder(fs, records, j, i - 1);
    }
  }

  /** After a fragment that reads back, the reader is due at the next one. */
  lemma DueNext(log: LogFile, fs: seq<Fragment>, records: seq<Bytes>, i: nat, at: nat, partial: Option<Bytes>)
    requires Story(fs, records) && DamageDetected(log, fs) && i < |fs| && Due(log, fs, i, at, partial) && Seen(log, fs[i])
    ensures var f := fs[i];
      var next := if f.Ends() || (partial == None && !f.Begins()) then None else Some(f.before + f.payload);
      && at < f.End() <= |log.bytes| && PhysicalAt(log, at) == Physical(f.kind as nat, f.payload, f.End() - at, None)
      && Due(log, fs, i + 1, f.End(), next) && Reached(log, fs, i)
  {
    hide HeaderAt, PhysicalAt, Seen;
    var f := fs[i];
    SeenThere(log, f, at);
    assert Reached(log, fs, i);
    if i + 1 < |fs| {
      assert Joined(f, fs[i+1]);
      forall j: nat | j <= i && fs[j].Block() == fs[i+1].Block() ensures Seen(log, fs[j]) {
        if j < i {
          InOrder(fs, records, j, i);
        }
        InOrder(fs, records, i, i + 1);
      }
      forall j: nat | j < i && f.Begins() ensures fs[j].record != f.record {
        BeginsItsRecord(fs, records, i, j);
      }
    }
  }

  lemma ComingNext(log: LogFile, fs: seq<Fragment>, records: seq<Bytes>, i: nat, at: nat, partial: Option<Bytes>)
    requires Story(fs, records) && i < |fs| && Due(log, fs, i, at, partial) && Reached(log, fs, i)
    ensures var f := fs[i];
      Coming(log, fs, records, i)
         == (if f.Ends() && (f.Begins() || partial.Some?) then [records[f.record]] else [])
            + Coming(log, fs, records, i + 1)
  {
    hide HeaderAt, Seen, Reached;
    var f := fs[i];
    if i + 1 < |fs| {
      assert Joined(f, fs[i+1]);
    }
    if f.Ends() {
      assert Coming(log, fs, records, i + 1) == Surviving(log, fs, records, f.record + 1);
      if f.Begins() || partial.Some? {
        forall j: nat | j < i && f.Begins() ensures fs[j].record != f.record {
          BeginsItsRecord(fs, records, i, j);
        }
        EndsItsRecord(log, fs, records, i);
      }
    }
  }

  /** A header that does not fit the block of `f` goes to the start of the next one. */
  lemma HeaderInNextBlock(f: Fragment, prev: Fragment)
    requires prev.InBlock() && prev.Block() == f.Block() && HeaderAt(prev.End()) / BLOCK_SIZE != f.Block()
    ensures HeaderAt(prev.End()) == NextBlock(f.start)
  {
  }

  lemma BlockFacts(f: Fragment, g: Fragment)
    ensures f.Block() < g.Block() ==> NextBlock(f.start) <= g.start
    ensures f.Block() == g.Block() && g.InBlock() ==> g.End() <= NextBlock(f.start)
    ensures HeaderAt(NextBlock(f.start)) == NextBlock(f.start)
  {
  }

  lemma PhysicalAtHeader(log: LogFile, at: nat)
    requires at <= |log.bytes|
    ensures var start := HeaderAt(at);
      if start <= |log.bytes| then PhysicalAt(log, at) == PhysicalAt(log, start).(used := start - at + PhysicalAt(log, start).used)
      else PhysicalAt(log, at).kind == EOF
  {
    assert HeaderAt(HeaderAt(at)) == HeaderAt(at);
  }

  /** From a torn block on, nothing is reached. */
  lemma NothingReached(log: LogFile, fs: seq<Fragment>, records: seq<Bytes>, i: nat, j: nat)
    requires Story(fs, records) && i <= j < |fs| && !Seen(log, fs[i])
    requires fs[i].Block() == fs[j].Block() || |log.bytes| < NextBlock(fs[i].start) || |log.bytes| < fs[i].start
    ensures !Reached(log, fs, j)
  {
    hide HeaderAt, PhysicalAt;
    if i < j {
      InOrder(fs, records, i, j);
      BlockFacts(fs[i], fs[j]);
    }
  }

  /** The first fragment of a later block. */
  lemma LaterBlock(fs: seq<Fragment>, records: seq<Bytes>, i: nat) returns (k: nat)
    requires Story(fs, records) && i < |fs|
    ensures i < k <= |fs| && forall j :: i <= j < k ==> fs[j].Block() == fs[i].Block()
    ensures k < |fs| ==> fs[k].start == NextBlock(fs[i].start) && forall j :: 0 <= j < k ==> fs[j].Block() < fs[k].Block()
    ensures k == |fs| ==> LogEnd(fs) <= NextBlock(fs[i].start)
  {
    hide HeaderAt, NextBlock;
    k := i + 1;
    while k < |fs| && fs[k].Block() == fs[i].Block()
      invariant i < k <= |fs| && forall j :: i <= j < k ==> fs[j].Block() == fs[i].Block()
    {
      k := k + 1;
    }
    BlockFacts(fs[i], fs[k-1]);
    if k < |fs| {
      assert Joined(fs[k-1], fs[k]);
      HeaderInNextBlock(fs[i], fs[k-1]);
      InOrder(fs, records, i, k);
      forall j | 0 <= j < k ensures fs[j].Block() < fs[k].Block() {
        if j < i {
          InOrder(fs, records, j, i);
        }
      }
    }
  }

  /** Damage, or the file's end, at fragment `i`: the reader goes on with the next block, at fragment `k`, and
      nothing before `k` could be reached. */
  lemma AfterSkipped(log: LogFile, fs: seq<Fragment>, records: seq<Bytes>, i: nat, at: nat, partial: Option<Bytes>)
    returns (k: nat)
    requires Story(fs, records) && DamageDetected(log, fs) && i < |fs| && Due(log, fs, i, at, partial)
    requires !Seen(log, fs[i])
    ensures i < k <= |fs| && forall j: nat :: i <= j < k ==> !Reached(log, fs, j)
    ensures forall j :: i <= j < k ==> fs[j].Block() == fs[i].Block() || |log.bytes| < fs[j].start + HEADER_SIZE
    ensures var p := PhysicalAt(log, at);
      if p.kind == EOF then k == |fs|
      else p.kind == BAD_RECORD && p.used > 0 && at + p.used <= |log.bytes| && Due(log, fs, k, at + p.used, None)
  {
    hide HeaderAt, PhysicalAt, NextBlock, Seen, Surviving, LookedAt, Story, DamageDetected, Reached;
    var f, size := fs[i], |log.bytes|;
    PhysicalAtHeader(log, at);
    SkippedThere(log, fs, i);
    if size < f.start || Torn(size, f.start) {
      k := |fs|;
      forall j | i <= j < k ensures fs[j].Block() == fs[i].Block() || size < fs[j].start {
        if i < j {
          InOrder(fs, records, i, j);
          BlockFacts(f, fs[j]);
        }
      }
    } else {
      k := LaterBlock(fs, records, i);
      BlockFacts(f, f);
      if k < |fs| {
        DueInNextBlock(log, fs, records, i, k);
      } else {
        EndsInBlock(log, fs, f);
      }
    }
    forall j: nat | i <= j < k ensures !Reached(log, fs, j) {
      NothingReached(log, fs, records, i, j);
    }
    if k < |fs| {
      LostWithBlock(log, fs, records, i, k);
    }
  }

  lemma SkippedThere(log: LogFile, fs: seq<Fragment>, i: nat)
    requires DamageDetected(log, fs) && i < |fs| && LookedAt(log, fs, i) && !Seen(log, fs[i])
    ensures Skipped(log, fs[i])
  {
    hide Seen, Skipped, LookedAt;
  }

  lemma EndsInBlock(log: LogFile, fs: seq<Fragment>, f: Fragment)
    requires DamageDetected(log, fs) && LogEnd(fs) <= NextBlock(f.start) && f.start <= |log.bytes|
    ensures |log.bytes| <= NextBlock(f.start)
  {
  }

  /** The first fragment of the next block is looked at. */
  lemma DueInNextBlock(log: LogFile, fs: seq<Fragment>, records: seq<Bytes>, i: nat, k: nat)
    requires i < k < |fs| && fs[k].start == NextBlock(fs[i].start)
    requires forall j :: 0 <= j < k ==> fs[j].Block() < fs[k].Block()
    ensures fs[k].start == HeaderAt(NextBlock(fs[i].start)) && LookedAt(log, fs, k)
  {
    hide Seen;
    BlockFacts(fs[i], fs[i]);
  }

  /** A record that goes on in the next block is lost with the end of this one. */
  lemma LostWithBlock(log: LogFile, fs: seq<Fragment>, records: seq<Bytes>, i: nat, k: nat)
    requires Story(fs, records) && i < k < |fs| && forall j: nat :: i <= j < k ==> !Reached(log, fs, j)
    ensures !fs[k].Begins() ==> !Survives(log, fs, fs[k].record)
  {
    hide HeaderAt, Reached;
    assert Joined(fs[k-1], fs[k]);
    assert !Reached(log, fs, k - 1);
  }

  /** From wherever the reader is due, it returns the survivors still to come. */
  lemma {:induction false} ReadsSurvivors(log: LogFile, fs: seq<Fragment>, records: seq<Bytes>, i: nat, at: nat,
                                          partial: Option<Bytes>)
    requires Story(fs, records) && DamageDetected(log, fs) && Due(log, fs, i, at, partial)
    ensures ReadFrom(log, at, partial).records == Coming(log, fs, records, i)
    decreases |fs| - i
  {
    hide Due, Story, DamageDetected, ReadFrom, Seen, Surviving, Reached;
    DueWithin(log, fs, i, at, partial);
    if i == |fs| {
      AtTheEnd(log, partial);
      UnfoldRead(log, at, partial);
    } else if Seen(log, fs[i]) {
      var next := AfterSeen(log, fs, records, i, at, partial);
      ReadsSurvivors(log, fs, records, i + 1, fs[i].End(), next);
    } else {
      var k := AfterSkipped(log, fs, records, i, at, partial);
      LostUpTo(log, fs, records, i, k);
      var p := PhysicalAt(log, at);
      hide PhysicalAt, StepOn;
      UnfoldRead(log, at, partial);
      StepOnSkipped(partial, p);
      if p.kind != EOF {
        ReadsSurvivors(log, fs, records, k, at + p.used, None);
      }
    }
  }

  lemma DueWithin(log: LogFile, fs: seq<Fragment>, i: nat, at: nat, partial: Option<Bytes>)
    requires Due(log, fs, i, at, partial)
    ensures i <= |fs| && at <= |log.bytes| && (i == |fs| ==> at == |log.bytes|)
  {
    hide HeaderAt, LookedAt, Survives, Reached;
  }

  /** A fragment that reads back takes the reader and the survivors still to come one on, alike. */
  lemma AfterSeen(log: LogFile, fs: seq<Fragment>, records: seq<Bytes>, i: nat, at: nat, partial: Option<Bytes>)
    returns (next: Option<Bytes>)
    requires Story(fs, records) && DamageDetected(log, fs) && i < |fs| && Due(log, fs, i, at, partial) && Seen(log, fs[i])
    ensures at < fs[i].End() <= |log.bytes| && Due(log, fs, i + 1, fs[i].End(), next)
    ensures exists read :: ReadFrom(log, at, partial).records == read + ReadFrom(log, fs[i].End(), next).records
                           && Coming(log, fs, records, i) == read + Coming(log, fs, records, i + 1)
  {
    hide HeaderAt, PhysicalAt, ReadFrom, Seen, Reached, Survives, StepOn, DamageDetected, Coming, LookedAt;
    var f := fs[i];
    DueNext(log, fs, records, i, at, partial);
    ComingNext(log, fs, records, i, at, partial);
    UnfoldRead(log, at, partial);
    StepOnSeen(f, partial, f.End() - at);
    next := if f.Ends() || (partial == None && !f.Begins()) then None else Some(f.before + f.payload);
    var rest := ReadFrom(log, f.End(), next).records;
    assert [] + rest == rest;
  }

  lemma AtTheEnd(log: LogFile, partial: Option<Bytes>)
    ensures StepOn(partial, PhysicalAt(log, |log.bytes|)) == Stop
  {
  }

  lemma StepOnSeen(f: Fragment, partial: Option<Bytes>, used: nat)
    requires f.InBlock() && (f.Begins() ==> partial == None && f.before == [])
    requires partial.Some? ==> partial.value == f.before
    ensures var step := StepOn(partial, Physical(f.kind as nat, f.payload, used, None));
      if partial == None && !f.Begins() then step == Carry(None, [|f.payload|])
      else if f.Ends() then step == Complete(f.before + f.payload, [])
      else step == Carry(Some(f.before + f.payload), [])
  {
    assert f.Begins() ==> f.before + f.payload == f.payload;
  }

  lemma StepOnSkipped(partial: Option<Bytes>, p: Physical)
    requires p.kind == EOF || p.kind == BAD_RECORD
    ensures if p.kind == EOF then StepOn(partial, p) == Stop else StepOn(partial, p).Carry? && StepOn(partial, p).partial == None
  {
  }

  /** Whatever detected damage a log has taken, wherever it was cut: reading it returns exactly the records of which
      every fragment can be reached, each whole and in order. */
  lemma DamagedLog(log: LogFile, records: seq<Bytes>)
    requires DamageDetected(log, Layout(records))
    ensures ReadFrom(log, 0, None).records == Surviving(log, Layout(records), records, 0)
  {
    var fs := Layout(records);
    LayoutStory(records);
    if fs == [] {
      AtTheEnd(log, None);
    }
    ReadsSurvivors(log, fs, records, 0, 0, None);
  }

  // ---------- what is reported ----------

  /** Damage that the reader reports: a length beyond the end of a whole block, or a wrong checksum.  An empty header of
      type zero, and a length beyond the end of the file, are passed over in silence. */
  predicate ReportedDamage(log: LogFile, start: nat)
    requires start + HEADER_SIZE <= |log.bytes| && start % BLOCK_SIZE + HEADER_SIZE <= BLOCK_SIZE
  {
    HeaderFits(start, |log.bytes|);
    var length := log.bytes[start+4] as nat + log.bytes[start+5] as nat * 256;
    if start + HEADER_SIZE + length > BlockEnd(|log.bytes|, start) then NextBlock(start) <= |log.bytes|
    else && !(log.bytes[start+6] == ZERO_TYPE && length == 0)
         && log.checksum && LoadCrc(log.bytes[start..]) != log.crc(log.bytes[start+6..start+HEADER_SIZE+length])
  }

  /** Exactly such damage is reported, with the bytes from the damaged header to the end of its block. */
  lemma ReportedExactly(log: LogFile, at: nat)
    requires at <= |log.bytes| && HeaderAt(at) + HEADER_SIZE <= |log.bytes|
    ensures var p, start := PhysicalAt(log, at), HeaderAt(at);
      && p.dropped == (if ReportedDamage(log, start) then Some(BlockEnd(|log.bytes|, start) - start) else None)
      && (ReportedDamage(log, start) ==> p.kind == BAD_RECORD && at + p.used == BlockEnd(|log.bytes|, start))
  {
    hide LoadCrc;
    var start := HeaderAt(at);
    HeaderFits(start, |log.bytes|);
    var end := BlockEnd(|log.bytes|, start);
    var length := log.bytes[start+4] as nat + log.bytes[start+5] as nat * 256;
    var buffer := log.bytes[start..end];
    FirstFourBytes(buffer, log.bytes[start..]);
    if start + HEADER_SIZE + length <= end {
      SliceOfSlice(log.bytes, start, end, 6, HEADER_SIZE + length);
    }
    assert buffer[4] == log.bytes[start+4] && buffer[5] == log.bytes[start+5] && buffer[6] == log.bytes[start+6];
  }

  lemma UnfoldDrops(log: LogFile, at: nat, partial: Option<Bytes>)
    requires at <= |log.bytes|
    ensures var p, r := PhysicalAt(log, at), ReadFrom(log, at, partial);
      match StepOn(partial, p)
      case Complete(_, drops) => r.drops == drops + ReadFrom(log, at + p.used, None).drops
      case Stop => r.drops == []
      case Carry(after, drops) => r.drops == drops + ReadFrom(log, at + p.used, after).drops
  {
    hide RecordAt, PhysicalAt, ReadFrom, StepOn;
    UnfoldRecord(log, at, partial, []);
    DropsOfReading(log, at, partial);
    var p, r := PhysicalAt(log, at), RecordAt(log, at, partial);
    assert [] + r.drops == r.drops;
    if StepOn(partial, p).Carry? {
      var after, drops := StepOn(partial, p).partial, StepOn(partial, p).drops;
      assert [] + drops == drops;
      DropsOfReading(log, at + p.used, after);
      var rest := RecordAt(log, at + p.used, after);
      var later := if rest.record.Some? then ReadFrom(log, rest.next, None).drops else [];
      assert (drops + rest.drops) + later == drops + (rest.drops + later);
    }
  }

  lemma DropsOfReading(log: LogFile, at: nat, partial: Option<Bytes>)
    requires at <= |log.bytes|
    ensures var r := RecordAt(log, at, partial);
      ReadFrom(log, at, partial).drops == r.drops + (if r.record.Some? then ReadFrom(log, r.next, None).drops else [])
  {
    hide RecordAt;
    var r := RecordAt(log, at, partial);
    assert r.drops + [] == r.drops;
  }

  lemma DroppedIsReported(log: LogFile, at: nat, partial: Option<Bytes>, n: nat)
    requires at <= |log.bytes| && PhysicalAt(log, at).dropped == Some(n)
    ensures n in ReadFrom(log, at, partial).drops
  {
    hide ReadFrom, PhysicalAt;
    UnfoldDrops(log, at, partial);
  }

  lemma LaterDrops(log: LogFile, at: nat, partial: Option<Bytes>, next: nat, after: Option<Bytes>)
    requires at <= next <= |log.bytes| && PhysicalAt(log, at).used == next - at
    requires match StepOn(partial, PhysicalAt(log, at))
      case Complete(_, _) => after == None
      case Stop => false
      case Carry(c, _) => after == c
    ensures forall n :: n in ReadFrom(log, next, after).drops ==> n in ReadFrom(log, at, partial).drops
  {
    hide ReadFrom, PhysicalAt, StepOn;
    UnfoldDrops(log, at, partial);
  }

  /** From wherever the reader is due, it gets to every fragment that is looked at, and reports its damage. */
  lemma {:induction false} DamageAhead(log: LogFile, fs: seq<Fragment>, records: seq<Bytes>, i: nat, at: nat,
                                       partial: Option<Bytes>, k: nat)
    requires Story(fs, records) && DamageDetected(log, fs) && Due(log, fs, i, at, partial)
    requires i <= k < |fs| && LookedAt(log, fs, k) && fs[k].InBlock() && fs[k].start + HEADER_SIZE <= |log.bytes|
    requires ReportedDamage(log, fs[k].start)
    ensures BlockEnd(|log.bytes|, fs[k].start) - fs[k].start in ReadFrom(log, at, partial).drops
    decreases |fs| - i
  {
    hide Due, Story, DamageDetected, ReadFrom, Seen, Surviving, Reached, ReportedDamage, LookedAt;
    DueWithin(log, fs, i, at, partial);
    if i == k {
      DueAt(log, fs, i, at, partial);
      ReportedExactly(log, at);
      hide PhysicalAt, HeaderAt;
      DroppedIsReported(log, at, partial, BlockEnd(|log.bytes|, fs[k].start) - fs[k].start);
    } else if Seen(log, fs[i]) {
      var next := StepSeen(log, fs, records, i, at, partial);
      DamageAhead(log, fs, records, i + 1, fs[i].End(), next, k);
      hide PhysicalAt, StepOn;
      LaterDrops(log, at, partial, fs[i].End(), next);
    } else {
      var j := AfterSkipped(log, fs, records, i, at, partial);
      SeenBefore(log, fs, i, k);
      assert j <= k;
      var p := PhysicalAt(log, at);
      hide PhysicalAt, StepOn;
      StepOnSkipped(partial, p);
      DamageAhead(log, fs, records, j, at + p.used, None, k);
      LaterDrops(log, at, partial, at + p.used, None);
    }
  }

  lemma SeenBefore(log: LogFile, fs: seq<Fragment>, i: nat, k: nat)
    requires i < k < |fs| && LookedAt(log, fs, k) && !Seen(log, fs[i])
    ensures fs[i].Block() != fs[k].Block()
  {
    hide Seen;
  }

  lemma DueAt(log: LogFile, fs: seq<Fragment>, i: nat, at: nat, partial: Option<Bytes>)
    requires i < |fs| && Due(log, fs, i, at, partial)
    ensures fs[i].start == HeaderAt(at)
  {
    hide HeaderAt, LookedAt, Survives, Reached;
  }

  lemma StepSeen(log: LogFile, fs: seq<Fragment>, records: seq<Bytes>, i: nat, at: nat, partial: Option<Bytes>)
    returns (next: Option<Bytes>)
    requires Story(fs, records) && DamageDetected(log, fs) && i < |fs| && Due(log, fs, i, at, partial) && Seen(log, fs[i])
    ensures at < fs[i].End() <= |log.bytes| && PhysicalAt(log, at).used == fs[i].End() - at
    ensures Due(log, fs, i + 1, fs[i].End(), next)
    ensures match StepOn(partial, PhysicalAt(log, at))
      case Complete(_, _) => next == None
      case Stop => false
      case Carry(c, _) => next == c
  {
    hide HeaderAt, PhysicalAt, Seen, Reached, Survives, StepOn, DamageDetected, LookedAt;
    var f := fs[i];
    DueNext(log, fs, records, i, at, partial);
    StepOnSeen(f, partial, f.End() - at);
    next := if f.Ends() || (partial == None && !f.Begins()) then None else Some(f.before + f.payload);
  }

  /** Reading a damaged log reports, for every fragment the reader gets to that has a wrong checksum or a bad length in a
      whole block, the bytes from there to the end of the block. */
  lemma DamageIsReported(log: LogFile, records: seq<Bytes>, k: nat)
    requires DamageDetected(log, Layout(records)) && k < |Layout(records)| && LookedAt(log, Layout(records), k)
    requires var start := Layout(records)[k].start;
      && start + HEADER_SIZE <= |log.bytes| && start % BLOCK_SIZE + HEADER_SIZE <= BLOCK_SIZE && ReportedDamage(log, start)
    ensures var start := Layout(records)[k].start;
      BlockEnd(|log.bytes|, start) - start in ReadFrom(log, 0, None).drops
  {
    var fs := Layout(records);
    LayoutStory(records);
    hide ReadFrom, DamageDetected, ReportedDamage, LookedAt, Layout;
    StoryStarts(log, fs, records);
    DamageAhead(log, fs, records, 0, 0, None, k);
  }

  lemma StoryStarts(log: LogFile, fs: seq<Fragment>, records: seq<Bytes>)
    requires Story(fs, records) && fs != []
    ensures Due(log, fs, 0, 0, None) && forall i :: 0 <= i < |fs| ==> fs[i].InBlock()
  {
    FirstHeader();
  }

  // ---------- no byte is lost unreported ----------

  function Total(lengths: seq<nat>): nat { if lengths == [] then 0 else lengths[0] + Total(lengths[1..]) }

  lemma {:induction false} TotalAppend(a: seq<nat>, b: seq<nat>)
    ensures Total(a + b) == Total(a) + Total(b)
  {
    if a == [] {
      assert a + b == b;
    } else {
      assert (a + b)[1..] == a[1..] + b;
      TotalAppend(a[1..], b);
    }
  }

  function Lengths(records: seq<Bytes>): seq<nat> { seq(|records|, i requires 0 <= i < |records| => |records[i]|) }

  function Length(partial: Option<Bytes>): nat { if partial.Some? then |partial.value| else 0 }

  /** The payload that the physical records bring, and the bytes of damage. */
  function Brought(p: Physical): nat {
    if p.kind == BAD_RECORD then (if p.dropped.Some? then p.dropped.value else 0) else |p.payload|
  }

  /** All that the physical records from a position on bring, until the reader stops. */
  function Ahead(log: LogFile, at: nat): nat
    requires at <= |log.bytes|
    decreases |log.bytes| - at
  {
    var p := PhysicalAt(log, at);
    if p.kind == EOF then 0 else Brought(p) + Ahead(log, at + p.used)
  }

  /** What the reader was in the midst of when it stopped. */
  function Unfinished(log: LogFile, at: nat, partial: Option<Bytes>): Option<Bytes>
    requires at <= |log.bytes|
    decreases |log.bytes| - at
  {
    var p := PhysicalAt(log, at);
    match StepOn(partial, p)
    case Complete(_, _) => Unfinished(log, at + p.used, None)
    case Stop => partial
    case Carry(after, _) => Unfinished(log, at + p.used, after)
  }

  /** Whatever the file holds: each byte of payload comes back in a record, or is reported, or belongs to the record that
      the end of the file cut short; and so does each byte of damage reported by the physical records. */
  lemma {:induction false} NothingLostUnreported(log: LogFile, at: nat, partial: Option<Bytes>)
    requires at <= |log.bytes|
    ensures var r := ReadFrom(log, at, partial);
      Total(Lengths(r.records)) + Total(r.drops) + Length(Unfinished(log, at, partial)) == Length(partial) + Ahead(log, at)
    decreases |log.bytes| - at
  {
    hide ReadFrom, PhysicalAt, Total, Length;
    UnfoldRead(log, at, partial);
    UnfoldDrops(log, at, partial);
    var p := PhysicalAt(log, at);
    StepBalances(partial, p);
    match StepOn(partial, p) {
      case Complete(record, drops) =>
        var rest := ReadFrom(log, at + p.used, None);
        NothingLostUnreported(log, at + p.used, None);
        TotalAppend(drops, rest.drops);
        TotalAppend([|record|], Lengths(rest.records));
        assert Lengths([record] + rest.records) == [|record|] + Lengths(rest.records);
      case Carry(after, drops) =>
        NothingLostUnreported(log, at + p.used, after);
        TotalAppend(drops, ReadFrom(log, at + p.used, after).drops);
      case Stop =>
        assert Lengths([]) == [] && Total([]) == 0 by { NoTotal(); }
    }
  }

  lemma NoTotal()
    ensures Total([]) == 0 && Lengths([]) == [] && Length(None) == 0
  {
  }

  /** No step of the reader loses a byte unreported. */
  lemma StepBalances(partial: Option<Bytes>, p: Physical)
    requires p.kind != EOF ==> p.used > 0
    ensures match StepOn(partial, p)
      case Complete(record, drops) => p.kind != EOF && Total([|record|]) + Total(drops) == Length(partial) + Brought(p) && Length(None) == 0
      case Stop => p.kind == EOF
      case Carry(after, drops) => p.kind != EOF && Length(after) + Total(drops) == Length(partial) + Brought(p)
  {
    var reported := if p.dropped.Some? then [p.dropped.value] else [];
    var unfinished := if partial.Some? then [|partial.value|] else [];
    TotalAppend(reported, unfinished);
  }

  // ---------- a log where an undamaged record is lost ----------

  const TWO_RECORDS: seq<Bytes> := [[1], [2]]

  /** The log of the two records with the header of the first one overwritten by zeros. */
  function ZeroedHeader(crc: Crc): LogFile {
    LogFile(Zeros(HEADER_SIZE) + [1] + (Header(crc, FULL_TYPE, [2]) + [2]), crc, true)
  }

  lemma TwoRecordsLayout()
    ensures Layout(TWO_RECORDS) == [Fragment(0, 0, FULL_TYPE, [1], 0, []), Fragment(0, 8, FULL_TYPE, [2], 1, [])]
  {
    assert TWO_RECORDS[..1] == [[1]] && TWO_RECORDS[..1][..0] == [];
    assert Layout([]) == [];
    OneByteRecord(1, 0, 0);
    OneByteRecord(2, 8, 1);
    assert Layout([[1]]) == [] + Fragments([1], [], true, 0, 0);
  }

  lemma OneByteRecord(b: byte, at: nat, r: nat)
    requires at <= 8
    ensures Fragments([b], [], true, at, r) == [Fragment(0, at, FULL_TYPE, [b], r, [])]
  {
    assert [b][..1] == [b];
  }

  lemma TwoRecordsBytes(crc: Crc)
    ensures Encode(crc, TWO_RECORDS) == (Header(crc, FULL_TYPE, [1]) + [1]) + (Header(crc, FULL_TYPE, [2]) + [2])
  {
    hide Header;
    TwoRecordsLayout();
    LayoutInBlock(TWO_RECORDS);
    var fs := Layout(TWO_RECORDS);
    assert fs[..1] == [fs[0]] && fs[..1][..0] == [];
    assert Render(crc, fs[..1][..0]) == [];
    assert Render(crc, fs[..1]) == [] + FragmentBytes(crc, fs[0]);
    assert Render(crc, fs) == Render(crc, fs[..1]) + FragmentBytes(crc, fs[1]);
  }

  /** A zeroed header takes the rest of its block with it: the second record is all there, and is not read. */
  lemma ZeroedHeaderLosesNext(crc: Crc)
    ensures var log := ZeroedHeader(crc);
      && DamageDetected(log, Layout(TWO_RECORDS))
      && |log.bytes| == |Encode(crc, TWO_RECORDS)| == 16 && log.bytes[8..] == Encode(crc, TWO_RECORDS)[8..]
      && ReadFrom(log, 0, None).records == []
  {
    var log := ZeroedHeader(crc);
    TwoRecordsBytes(crc);
    TwoRecordsLayout();
    FirstIsDropped(crc);
    SecondIsSeen(crc);
    hide Header, Encode, Layout, PhysicalAt, Zeros, ReadFrom;
    UnfoldRead(log, 0, None);
    UnfoldRead(log, 16, None);
    AtTheEnd(log, None);
  }

  lemma FirstIsDropped(crc: Crc)
    ensures |ZeroedHeader(crc).bytes| == 16
    ensures PhysicalAt(ZeroedHeader(crc), 0) == Physical(BAD_RECORD, [], 16, None)
  {
    hide Header;
    var log := ZeroedHeader(crc);
    assert log.bytes[..16] == log.bytes && log.bytes[4] == 0 && log.bytes[5] == 0 && log.bytes[6] == 0;
    assert HeaderAt(0) == 0 && BlockEnd(16, 0) == 16;
  }

  lemma SecondIsSeen(crc: Crc)
    ensures Seen(ZeroedHeader(crc), Fragment(0, 8, FULL_TYPE, [2], 1, []))
  {
    hide Header, Parse;
    var log := ZeroedHeader(crc);
    assert log.bytes[8..16] == Header(crc, FULL_TYPE, [2]) + [2] + [];
    ParseInvertsHeader(log, FULL_TYPE, [2], [], true);
    assert HeaderAt(8) == 8 && BlockEnd(16, 8) == 16;
  }
}
