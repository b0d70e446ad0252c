/** What reading a log back returns: the round trip under truncation, and what is lost to damage. */
module LogRecovery {
  import opened Keys
  import opened Coding
  import opened LogFormat
  import opened LogReader

  /** The bytes hold the fragment. */
  predicate Holds(bytes: Bytes, crc: Crc, f: Fragment) {
    && f.InBlock() && f.End() <= |bytes|
    && bytes[f.start..f.End()] == Header(crc, f.kind, f.payload) + f.payload
  }

  lemma HoldsInLonger(a: Bytes, b: Bytes, crc: Crc, f: Fragment)
    requires Holds(a, crc, f) && a <= b
    ensures Holds(b, crc, f)
  {
    assert b[f.start..f.End()] == a[f.start..f.End()];
  }

  lemma RenderOneMore(crc: Crc, prior: seq<Fragment>, f: Fragment)
    requires AllInBlock(prior) && f.InBlock() && f.start == |Render(crc, prior)| + f.pad
    ensures AllInBlock(prior + [f]) && |Render(crc, prior + [f])| == f.End()
    ensures Render(crc, prior) <= Render(crc, prior + [f]) && Holds(Render(crc, prior + [f]), crc, f)
  {
    assert (prior + [f])[..|prior|] == prior;
  }

  lemma {:induction false} RenderFragments(crc: Crc, prior: seq<Fragment>, rest: Bytes, before: Bytes, begin: bool,
                                           at: nat, r: nat)
    requires AllInBlock(prior) && |Render(crc, prior)| == at
    ensures var fs := Fragments(rest, before, begin, at, r);
      && AllInBlock(prior + fs) && |Render(crc, prior + fs)| == LogEnd(fs)
      && Render(crc, prior) <= Render(crc, prior + fs)
      && forall f :: f in fs ==> Holds(Render(crc, prior + fs), crc, f)
    decreases |rest|, if Available(at) == 0 then 1 else 0
  {
    hide Render, HeaderAt, Holds, Header;
    var f := NextFragment(rest, before, begin, at, r);
    var fs := Fragments(rest, before, begin, at, r);
    RenderOneMore(crc, prior, f);
    if f.Ends() {
      assert fs == [f];
    } else {
      RenderFragments(crc, prior + [f], rest[|f.payload|..], before + f.payload, false, f.End(), r);
      var tail := Fragments(rest[|f.payload|..], before + f.payload, false, f.End(), r);
      assert fs == [f] + tail && (prior + [f]) + tail == prior + fs;
      HoldsInLonger(Render(crc, prior + [f]), Render(crc, prior + fs), crc, f);
    }
  }

  /** A log starts with the log of any prefix of its records, and holds every fragment. */
  lemma {:induction false} EncodeHolds(crc: Crc, records: seq<Bytes>)
    ensures |Encode(crc, records)| == LogEnd(Layout(records))
    ensures forall k :: 0 <= k <= |records| ==> Encode(crc, records[..k]) <= Encode(crc, records)
    ensures forall f :: f in Layout(records) ==> Holds(Encode(crc, records), crc, f)
  {
    if records != [] {
      var r := |records| - 1;
      var init, prior := records[..r], Layout(records[..r]);
      EncodeHolds(crc, init);
      LayoutInBlock(init);
      RenderFragments(crc, prior, records[r], [], true, LogEnd(prior), r);
      hide Render, Holds, Fragments;
      forall k | 0 <= k <= |records| ensures Encode(crc, records[..k]) <= Encode(crc, records) {
        if k <= r {
          assert records[..k] == init[..k];
        } else {
          assert records[..k] == records;
        }
      }
      forall f | f in Layout(records) ensures Holds(Encode(crc, records), crc, f) {
        if f in prior {
          HoldsInLonger(Encode(crc, init), Encode(crc, records), crc, f);
        }
      }
    }
  }

  /** Parsing the header and payload that were written gives them back. */
  lemma ParseInvertsHeader(log: LogFile, kind: byte, payload: Bytes, rest: Bytes, torn: bool)
    requires |payload| <= 0xffff && FULL_TYPE <= kind <= LAST_TYPE
    ensures Parse(log, Header(log.crc, kind, payload) + payload + rest, torn)
         == Physical(kind as nat, payload, HEADER_SIZE + |payload|, None)
  {
    hide StoredCrc, LoadCrc;
    var stored := StoredCrc(log.crc([kind] + payload));
    var buffer := Header(log.crc, kind, payload) + payload + rest;
    var tail := buffer[4..];
    assert buffer == stored + tail;
    StoredChecksum(log.crc([kind] + payload), tail);
    assert buffer[6..HEADER_SIZE+|payload|] == [kind] + payload;
    assert buffer[HEADER_SIZE..HEADER_SIZE+|payload|] == payload;
    assert buffer[4] == (|payload| % 256) as byte && buffer[5] == (|payload| / 256) as byte;
  }

  /** Too few bytes for the header's length: the writer died here. */
  lemma ParseCutShort(log: LogFile, kind: byte, payload: Bytes, buffer: Bytes)
    requires |payload| <= 0xffff && HEADER_SIZE <= |buffer| < HEADER_SIZE + |payload|
    requires buffer[..HEADER_SIZE] == Header(log.crc, kind, payload)
    ensures Parse(log, buffer, true) == Physical(EOF, [], |buffer|, None)
  {
    hide StoredCrc;
    assert buffer[..HEADER_SIZE][4] == buffer[4] && buffer[..HEADER_SIZE][5] == buffer[5];
  }

  /** Where a written fragment is due, a prefix of the file has it whole or ends. */
  lemma ReadFragment(log: LogFile, full: Bytes, at: nat, f: Fragment)
    requires log.bytes <= full && Holds(full, log.crc, f) && at <= |log.bytes| && f.start == HeaderAt(at)
    ensures PhysicalAt(log, at) == if f.End() <= |log.bytes| then Physical(f.kind as nat, f.payload, f.End() - at, None)
                                   else Physical(EOF, [], |log.bytes| - at, None)
  {
    var n := |log.bytes|;
    if f.start + HEADER_SIZE <= n {
      BlockBounds(f, n);
      var buffer := log.bytes[f.start..BlockEnd(n, f.start)];
      if f.End() <= n {
        assert buffer == full[f.start..f.End()] + full[f.End()..BlockEnd(n, f.start)];
        ParseInvertsHeader(log, f.kind, f.payload, full[f.End()..BlockEnd(n, f.start)], Torn(n, f.start));
      } else {
        assert buffer[..HEADER_SIZE] == full[f.start..f.End()][..HEADER_SIZE];
        ParseCutShort(log, f.kind, f.payload, buffer);
      }
    }
  }

  lemma BlockBounds(f: Fragment, n: nat)
    requires f.InBlock()
    ensures f.End() <= NextBlock(f.start)
  {
  }

  /** Reading where `rest` was written completes the record, or finds the file cut short. */
  lemma {:induction false} ReadRest(log: LogFile, full: Bytes, rest: Bytes, before: Bytes, begin: bool, at: nat, r: nat)
    requires log.bytes <= full && at <= |log.bytes| && (begin ==> before == [])
    requires forall f :: f in Fragments(rest, before, begin, at, r) ==> Holds(full, log.crc, f)
    ensures RecordAt(log, at, if begin then None else Some(before))
         == var end := LogEnd(Fragments(rest, before, begin, at, r));
            if end <= |log.bytes| then Reading(Some(before + rest), end, [])
            else Reading(None, |log.bytes|, [])
    decreases |rest|, if Available(at) == 0 then 1 else 0
  {
    hide HeaderAt, Available, Holds, PhysicalAt, RecordAt, StepOn, Fragments;
    var f := NextFragment(rest, before, begin, at, r);
    var fs := Fragments(rest, before, begin, at, r);
    var partial := if begin then None else Some(before);
    FragmentsStart(rest, before, begin, at, r);
    ReadFragment(log, full, at, f);
    UnfoldRecord(log, at, partial, []);
    if f.End() <= |log.bytes| {
      StepOnFragment(f, begin, partial, f.End() - at);
      if !f.Ends() {
        ReadRest(log, full, rest[|f.payload|..], before + f.payload, false, f.End(), r);
        assert before + f.payload + rest[|f.payload|..] == before + rest;
      }
    } else {
      if !f.Ends() {
        LaterFragments(rest[|f.payload|..], before + f.payload, false, f.End(), r);
      }
      assert StepOn(partial, PhysicalAt(log, at)) == Stop by { StopsAtEof(partial, |log.bytes| - at); }
    }
  }

  lemma FragmentsStart(rest: Bytes, before: Bytes, begin: bool, at: nat, r: nat)
    ensures var f, fs := NextFragment(rest, before, begin, at, r), Fragments(rest, before, begin, at, r);
      && f in fs && f.start == HeaderAt(at) && f.kind == FragmentType(begin, f.payload == rest)
      && if f.Ends() then LogEnd(fs) == f.End() && f.payload == rest
         else var tail := Fragments(rest[|f.payload|..], before + f.payload, false, f.End(), r);
           && LogEnd(fs) == LogEnd(tail) && (forall g :: g in tail ==> g in fs)
           && (rest[|f.payload|..] != [])
           && (f.payload == [] ==> Available(at) == 0 && Available(f.End()) > 0)
  {
    var f, fs := NextFragment(rest, before, begin, at, r), Fragments(rest, before, begin, at, r);
    NextFragmentFacts(rest, before, begin, at, r);
    hide NextFragment, Available, HeaderAt;
    if !f.Ends() {
      var tail := Fragments(rest[|f.payload|..], before + f.payload, false, f.End(), r);
      assert fs == [f] + tail;
      assert forall g :: g in tail ==> g in fs;
      assert fs[|fs|-1] == tail[|tail|-1];
    }
    assert fs[0] == f;
  }

  lemma NextFragmentFacts(rest: Bytes, before: Bytes, begin: bool, at: nat, r: nat)
    ensures var f := NextFragment(rest, before, begin, at, r);
      && f.start == HeaderAt(at) && f.kind == FragmentType(begin, f.payload == rest)
      && (f.Ends() <==> f.payload == rest)
      && (f.Begins() <==> begin)
      && (!f.Ends() ==> rest[|f.payload|..] != [])
      && (!f.Ends() && f.payload == [] ==> Available(at) == 0 && Available(f.End()) > 0)
  {
  }

  lemma StepOnFragment(f: Fragment, begin: bool, partial: Option<Bytes>, used: nat)
    requires f.InBlock() && (f.Begins() <==> begin) && partial == if begin then None else Some(f.before)
    requires begin ==> f.before == []
    ensures StepOn(partial, Physical(f.kind as nat, f.payload, used, None))
         == if f.Ends() then Complete(f.before + f.payload, []) else Carry(Some(f.before + f.payload), [])
  {
    assert begin ==> f.before + f.payload == f.payload;
  }

  lemma StopsAtEof(partial: Option<Bytes>, used: nat)
    ensures StepOn(partial, Physical(EOF, [], used, None)) == Stop
  {
  }

  lemma {:induction false} LaterFragments(rest: Bytes, before: Bytes, begin: bool, at: nat, r: nat)
    ensures LogEnd(Fragments(rest, before, begin, at, r)) > at
    decreases |rest|, if Available(at) == 0 then 1 else 0
  {
    var f := NextFragment(rest, before, begin, at, r);
    if !f.Ends() {
      LaterFragments(rest[|f.payload|..], before + f.payload, false, f.End(), r);
    }
  }

  lemma {:induction false} LogOfRecords(crc: Crc, records: seq<Bytes>, r: nat)
    requires r < |records|
    ensures var at := |Encode(crc, records[..r])|;
      var fs := Fragments(records[r], [], true, at, r);
      && LogEnd(fs) == |Encode(crc, records[..r+1])| && at < LogEnd(fs)
      && forall f :: f in fs ==> Holds(Encode(crc, records), crc, f)
  {
    var to := records[..r+1];
    assert to[..r] == records[..r];
    EncodeHolds(crc, records[..r]);
    EncodeHolds(crc, to);
    EncodeHolds(crc, records);
    var fs := Fragments(records[r], [], true, |Encode(crc, records[..r])|, r);
    assert Layout(to) == Layout(records[..r]) + fs;
    LaterFragments(records[r], [], true, |Encode(crc, records[..r])|, r);
    forall f | f in fs ensures Holds(Encode(crc, records), crc, f) {
      assert f in Layout(to);
      HoldsInLonger(Encode(crc, to), Encode(crc, records), crc, f);
    }
  }

  /** The number of records whose last fragment lies inside the first `n` bytes. */
  lemma {:induction false} WholeRecords(crc: Crc, records: seq<Bytes>, n: nat) returns (k: nat)
    ensures k <= |records| && |Encode(crc, records[..k])| <= n
    ensures k < |records| ==> n < |Encode(crc, records[..k+1])|
  {
    k := 0;
    assert records[..0] == [];
    while k < |records| && |Encode(crc, records[..k+1])| <= n
      invariant k <= |records| && |Encode(crc, records[..k])| <= n
    {
      k := k + 1;
    }
  }

  lemma {:induction false} ReadsTo(log: LogFile, records: seq<Bytes>, r: nat, k: nat)
    requires log.bytes <= Encode(log.crc, records) && r <= k <= |records|
    requires |Encode(log.crc, records[..r])| <= |Encode(log.crc, records[..k])| <= |log.bytes|
    requires k < |records| ==> |log.bytes| < |Encode(log.crc, records[..k+1])|
    ensures ReadFrom(log, |Encode(log.crc, records[..r])|, None) == Contents(records[r..k], [])
    decreases k - r
  {
    hide RecordAt, Fragments, Layout, Encode, LogEnd, Holds;
    var at := |Encode(log.crc, records[..r])|;
    if r == |records| {
      assert records[..r] == records;
      NothingAfterTheEnd(log);
    } else {
      LogOfRecords(log.crc, records, r);
      ReadRest(log, Encode(log.crc, records), records[r], [], true, at, r);
      if r < k {
        EncodeHolds(log.crc, records[..k]);
        assert records[..k][..r+1] == records[..r+1];
        assert |Encode(log.crc, records[..r+1])| <= |Encode(log.crc, records[..k])|;
        ReadsTo(log, records, r + 1, k);
        assert [] + records[r] == records[r] && [records[r]] + records[r+1..k] == records[r..k];
      }
    }
  }

  lemma NothingAfterTheEnd(log: LogFile)
    ensures RecordAt(log, |log.bytes|, None) == Reading(None, |log.bytes|, [])
  {
  }

  /** The round trip under truncation: any prefix of a log reads back as exactly the records that lie whole inside
      it, in order, and nothing is reported as corrupt. */
  lemma TruncatedLog(crc: Crc, checksum: bool, records: seq<Bytes>, n: nat, k: nat)
    requires n <= |Encode(crc, records)| && k <= |records| && |Encode(crc, records[..k])| <= n
    requires k < |records| ==> n < |Encode(crc, records[..k+1])|
    ensures ReadFrom(LogFile(Encode(crc, records)[..n], crc, checksum), 0, None) == Contents(records[..k], [])
  {
    assert records[..0] == [] && records[0..k] == records[..k];
    ReadsTo(LogFile(Encode(crc, records)[..n], crc, checksum), records, 0, k);
  }

  lemma WholeLog(crc: Crc, checksum: bool, records: seq<Bytes>)
    ensures ReadFrom(LogFile(Encode(crc, records), crc, checksum), 0, None) == Contents(records, [])
  {
    var n := |Encode(crc, records)|;
    assert records[..|records|] == records && Encode(crc, records)[..n] == Encode(crc, records);
    TruncatedLog(crc, checksum, records, n, |records|);
  }
}
