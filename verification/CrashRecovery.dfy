/** Replaying a log file after a crash (db/db_impl.cc, RecoverLogFile), and what of the write queue's work it finds. */
module CrashRecovery {
  import opened Keys
  import opened Coding
  import opened GroupCommit
  import opened LogFormat
  import opened LogReader
  import opened LogRecovery
  import opened LogFailures
  import opened WriteBatches
  import opened WriteQueue
  import LogDamage

  /** The record's sequence numbers do not run out. */
  predicate InRange(rep: Bytes) {
    |rep| >= HEADER ==> DecodeFixed64(rep) + |Iterated(rep).ops| <= MAX_SEQUENCE + 1
  }

  predicate WellFormedRecord(rep: Bytes) { |rep| >= HEADER && Iterated(rep).ok }

  function EntriesIn(rep: Bytes): seq<Entry>
    requires InRange(rep)
  {
    if |rep| < HEADER then [] else Numbered(Iterated(rep).ops, DecodeFixed64(rep))
  }

  predicate AllInRange(records: seq<Bytes>) { forall i :: 0 <= i < |records| ==> InRange(records[i]) }

  /** The memtable entries of the records, in order; a malformed record gives its updates up to the first bad one. */
  function Replayed(records: seq<Bytes>): seq<Entry>
    requires AllInRange(records)
  {
    if records == [] then [] else Replayed(records[..|records|-1]) + EntriesIn(records[|records|-1])
  }

  /** The last sequence number that a record's header claims, in 64-bit arithmetic. */
  function LastClaimed(rep: Bytes): nat
    requires |rep| >= HEADER
  {
    (DecodeFixed64(rep) + DecodeFixed32(rep[8..]) + 0xffff_ffff_ffff_ffff) % 0x1_0000_0000_0000_0000
  }

  function MaxClaimed(records: seq<Bytes>, start: nat): nat {
    if records == [] then start
    else
      var before, rep := MaxClaimed(records[..|records|-1], start), records[|records|-1];
      if |rep| >= HEADER && LastClaimed(rep) > before then LastClaimed(rep) else before
  }

  lemma OneMoreRecord(records: seq<Bytes>, rep: Bytes, start: nat)
    requires AllInRange(records) && InRange(rep)
    ensures AllInRange(records + [rep]) && Replayed(records + [rep]) == Replayed(records) + EntriesIn(rep)
    ensures MaxClaimed(records + [rep], start)
         == var before := MaxClaimed(records, start);
            if |rep| >= HEADER && LastClaimed(rep) > before then LastClaimed(rep) else before
  {
    assert (records + [rep])[..|records|] == records;
  }

  predicate AllWellFormed(records: seq<Bytes>) { forall i :: 0 <= i < |records| ==> WellFormedRecord(records[i]) }

  /** What replaying a log comes to.  With paranoid checks, any corruption makes it fail. */
  ghost predicate Outcome(c: Contents, paranoid: bool, start: nat, ok: bool, mem: seq<Entry>, maxSequence: nat)
    requires AllInRange(c.records)
  {
    && (ok <==> !paranoid || (c.drops == [] && AllWellFormed(c.records)))
    && (ok ==> mem == Replayed(c.records) && maxSequence == MaxClaimed(c.records, start))
  }

  /** The records `done` of the log have been replayed; the reader is at `at`. */
  ghost predicate Replaying(log: LogFile, done: seq<Bytes>, at: nat, drops: seq<nat>, paranoid: bool, start: nat,
                            ok: bool, mem: seq<Entry>, maxSequence: nat) {
    && at <= |log.bytes| && AllInRange(done)
    && (var rest := ReadFrom(log, at, None);
        ReadFrom(log, 0, None) == Contents(done + rest.records, drops + rest.drops))
    && (if ok then mem == Replayed(done) && maxSequence == MaxClaimed(done, start)
                   && (paranoid ==> drops == [] && AllWellFormed(done))
        else paranoid && !AllWellFormed(done))
  }

  lemma ReplayStarts(log: LogFile, paranoid: bool, start: nat)
    ensures Replaying(log, [], 0, [], paranoid, start, true, [], start)
  {
  }

  lemma ReplayEnds(log: LogFile, done: seq<Bytes>, at: nat, drops: seq<nat>, paranoid: bool, start: nat,
                   ok: bool, mem: seq<Entry>, maxSequence: nat)
    requires Replaying(log, done, at, drops, paranoid, start, ok, mem, maxSequence) && AllInRange(ReadFrom(log, 0, None).records)
    requires RecordAt(log, at, None).record == None
    ensures Outcome(ReadFrom(log, 0, None), paranoid, start,
                    ok && !(paranoid && drops + RecordAt(log, at, None).drops != []), mem, maxSequence)
  {
    hide RecordAt, WellFormedRecord, Replayed, MaxClaimed;
    assert done + [] == done;
  }

  lemma ReplayContinues(log: LogFile, done: seq<Bytes>, at: nat, drops: seq<nat>, paranoid: bool, start: nat,
                        ok: bool, mem: seq<Entry>, maxSequence: nat)
    requires Replaying(log, done, at, drops, paranoid, start, ok, mem, maxSequence) && AllInRange(ReadFrom(log, 0, None).records)
    requires RecordAt(log, at, None).record.Some?
    ensures var r, c := RecordAt(log, at, None), ReadFrom(log, 0, None);
      && InRange(r.record.value) && AllInRange(done + [r.record.value])
      && (var rest := ReadFrom(log, r.next, None);
          c == Contents((done + [r.record.value]) + rest.records, (drops + r.drops) + rest.drops))
      && (!ok || (paranoid && drops + r.drops != []) ==> Outcome(c, paranoid, start, false, mem, maxSequence))
  {
    hide RecordAt, WellFormedRecord, Replayed, MaxClaimed, InRange;
    var r, c := RecordAt(log, at, None), ReadFrom(log, 0, None);
    var rest := ReadFrom(log, r.next, None);
    assert done + ([r.record.value] + rest.records) == (done + [r.record.value]) + rest.records == c.records;
    assert drops + (r.drops + rest.drops) == (drops + r.drops) + rest.drops == c.drops;
    assert forall i :: 0 <= i < |done| ==> c.records[i] == done[i];
    assert c.records[|done|] == r.record.value;
  }

  lemma ReplayAdvances(log: LogFile, done: seq<Bytes>, rep: Bytes, next: nat, drops: seq<nat>, paranoid: bool, start: nat,
                       before: seq<Entry>, claimed: nat, ok: bool, mem: seq<Entry>, maxSequence: nat)
    requires next <= |log.bytes| && AllInRange(done) && InRange(rep)
    requires var rest := ReadFrom(log, next, None);
      ReadFrom(log, 0, None) == Contents((done + [rep]) + rest.records, drops + rest.drops)
    requires before == Replayed(done) && claimed == MaxClaimed(done, start)
    requires paranoid ==> drops == [] && AllWellFormed(done)
    requires ok == (!paranoid || WellFormedRecord(rep))
    requires ok ==> mem == before + EntriesIn(rep)
                    && maxSequence == if |rep| >= HEADER && LastClaimed(rep) > claimed then LastClaimed(rep) else claimed
    ensures Replaying(log, done + [rep], next, drops, paranoid, start, ok, mem, maxSequence)
  {
    hide ReadFrom, WellFormedRecord, Replayed, MaxClaimed, InRange, LastClaimed, EntriesIn;
    OneMoreRecord(done, rep, start);
    assert (done + [rep])[|done|] == rep;
  }

  /** Replays one record. */
  method ReplayRecord(batch: WriteBatch, record: Bytes, paranoid: bool, before: seq<Entry>, claimed: nat)
    returns (ok: bool, mem: seq<Entry>, maxSequence: nat)
    requires InRange(record)
    modifies batch
    ensures ok == (!paranoid || WellFormedRecord(record))
    ensures ok ==> mem == before + EntriesIn(record)
    ensures ok ==> maxSequence == if |record| >= HEADER && LastClaimed(record) > claimed then LastClaimed(record) else claimed
  {
    hide Iterated, DecodeFixed64, DecodeFixed32, Numbered, LastClaimed;
    if |record| < HEADER {
      return !paranoid, before, claimed;
    }
    batch.SetContents(record);
    var inserted, entries := batch.InsertInto();
    if !inserted && paranoid {
      return false, before, claimed;
    }
    var lastSeq := LastClaimed(record);
    return true, before + entries, if lastSeq > claimed then lastSeq else claimed;
  }

  /** Replays the whole log into a memtable.  Without paranoid checks, corruption is passed over. */
  method RecoverLogFile(log: LogFile, paranoid: bool, start: nat) returns (ok: bool, mem: seq<Entry>, maxSequence: nat)
    requires AllInRange(ReadFrom(log, 0, None).records)
    ensures Outcome(ReadFrom(log, 0, None), paranoid, start, ok, mem, maxSequence)
    ensures ok && (paranoid || CountsSuffice(ReadFrom(log, 0, None).records)) ==> AtOrAbove(mem, start, maxSequence)
    ensures ok && (paranoid || AllWellFormed(ReadFrom(log, 0, None).records)) && NoneEmpty(ReadFrom(log, 0, None).records)
            ==> Largest(mem, start, maxSequence)
  {
    hide RecordAt, ReadFrom, Replaying, Outcome, AllInRange, InRange, WellFormedRecord, Replayed, MaxClaimed, EntriesIn;
    var reader := new Reader(log);
    var batch := new WriteBatch();
    ghost var done := [];
    ok, mem, maxSequence := true, [], start;
    ReplayStarts(log, paranoid, start);
    while true
      invariant reader.Valid() && reader.log == log && fresh(reader) && fresh(batch)
      invariant Replaying(log, done, reader.Position(), reader.drops, paranoid, start, ok, mem, maxSequence)
      decreases |log.bytes| - reader.Position()
    {
      ghost var at, drops := reader.Position(), reader.drops;
      var more, record := reader.ReadRecord();
      if !more {
        ReplayEnds(log, done, at, drops, paranoid, start, ok, mem, maxSequence);
        ok := ok && !(paranoid && reader.drops != []);
        OutcomeCovers(ReadFrom(log, 0, None), paranoid, start, ok, mem, maxSequence);
        return;
      }
      ReplayContinues(log, done, at, drops, paranoid, start, ok, mem, maxSequence);
      if !ok || (paranoid && reader.drops != []) {
        ok := false;
        return;
      }
      ghost var before, claimed := mem, maxSequence;
      ReplayFacts(log, done, at, drops, paranoid, start, mem, maxSequence);
      ok, mem, maxSequence := ReplayRecord(batch, record, paranoid, mem, maxSequence);
      ReplayAdvances(log, done, record, reader.Position(), reader.drops, paranoid, start, before, claimed, ok, mem, maxSequence);
      done := done + [record];
    }
  }

  lemma ReplayFacts(log: LogFile, done: seq<Bytes>, at: nat, drops: seq<nat>, paranoid: bool, start: nat,
                    mem: seq<Entry>, maxSequence: nat)
    requires Replaying(log, done, at, drops, paranoid, start, true, mem, maxSequence)
    ensures AllInRange(done) && mem == Replayed(done) && maxSequence == MaxClaimed(done, start)
    ensures paranoid ==> AllWellFormed(done)
  {
  }

  // ----- Damage with paranoid checks -----

  /** With paranoid checks, recovery fails on a log one of whose fragments that the reader gets to has a wrong checksum, or
      a bad length in a whole block. */
  lemma DamageFailsRecovery(log: LogFile, records: seq<Bytes>, k: nat, start: nat, ok: bool, mem: seq<Entry>,
                            maxSequence: nat)
    requires LogDamage.DamageDetected(log, Layout(records)) && k < |Layout(records)|
    requires LogDamage.LookedAt(log, Layout(records), k)
    requires var at := Layout(records)[k].start;
      && at + HEADER_SIZE <= |log.bytes| && at % BLOCK_SIZE + HEADER_SIZE <= BLOCK_SIZE
      && LogDamage.ReportedDamage(log, at)
    requires var c := ReadFrom(log, 0, None);
      AllInRange(c.records) && Outcome(c, true, start, ok, mem, maxSequence)
    ensures !ok
  {
    hide ReadFrom, Replayed, MaxClaimed, AllWellFormed, AllInRange, Layout;
    LogDamage.DamageIsReported(log, records, k);
  }

  /** A file of one record whose checksum does not match. */
  predicate WrongChecksum(bytes: Bytes, crc: Crc) {
    && HEADER_SIZE < |bytes| <= BLOCK_SIZE && bytes[6] == FULL_TYPE
    && bytes[4] as nat + bytes[5] as nat * 256 == |bytes| - HEADER_SIZE && LoadCrc(bytes) != crc(bytes[6..])
  }

  /** It is reported as a whole, nothing is read, and recovery with paranoid checks fails. */
  lemma WrongChecksumFails(bytes: Bytes, crc: Crc, start: nat, ok: bool, mem: seq<Entry>, maxSequence: nat)
    requires WrongChecksum(bytes, crc)
    ensures ReadFrom(LogFile(bytes, crc, true), 0, None) == Contents([], [|bytes|])
    ensures AllInRange([]) && (Outcome(Contents([], [|bytes|]), true, start, ok, mem, maxSequence) ==> !ok)
  {
    hide ReadFrom, LoadCrc;
    var log := LogFile(bytes, crc, true);
    OneBadRecord(log);
    LogDamage.UnfoldRead(log, 0, None);
    LogDamage.UnfoldDrops(log, 0, None);
    TooShort(log, |bytes|, None);
    LogDamage.UnfoldDrops(log, |bytes|, None);
  }

  lemma OneBadRecord(log: LogFile)
    requires WrongChecksum(log.bytes, log.crc) && log.checksum
    ensures PhysicalAt(log, 0) == Physical(BAD_RECORD, [], |log.bytes|, Some(|log.bytes|))
    ensures PhysicalAt(log, |log.bytes|) == Physical(EOF, [], 0, None)
  {
    hide LoadCrc;
    assert HeaderAt(0) == 0 && BlockEnd(|log.bytes|, 0) == |log.bytes|;
    assert log.bytes[0..|log.bytes|] == log.bytes && log.bytes[6..HEADER_SIZE + (|log.bytes| - HEADER_SIZE)] == log.bytes[6..];
  }

  // ----- The last sequence number recovered -----

  /** The header counts no fewer updates than the record holds. */
  predicate CountSuffices(rep: Bytes) { |rep| >= HEADER ==> |Iterated(rep).ops| <= DecodeFixed32(rep[8..]) }

  /** The number claimed lies at or above the record's entries exactly when the header counts no fewer updates than there
      are (or, for none counted from 0 on, wraps around). */
  lemma ClaimCovers(rep: Bytes)
    requires |rep| >= HEADER && InRange(rep)
    ensures (forall e :: e in EntriesIn(rep) ==> e.key.sequence <= LastClaimed(rep))
       <==> CountSuffices(rep) || (DecodeFixed64(rep) == 0 && DecodeFixed32(rep[8..]) == 0)
    ensures CountSuffices(rep) && Iterated(rep).ops != [] && |Iterated(rep).ops| == DecodeFixed32(rep[8..])
            ==> exists e :: e in EntriesIn(rep) && e.key.sequence == LastClaimed(rep)
  {
    hide DecodeFixed32, DecodeFixed64, Iterated, Numbered;
    var ops, first := Iterated(rep).ops, DecodeFixed64(rep);
    NumberedTell(ops, first);
    var es := EntriesIn(rep);
    if ops != [] {
      assert es[|es|-1] in es && es[|es|-1].key.sequence == first + |ops| - 1;
    }
  }

  predicate CountsSuffice(records: seq<Bytes>) { forall i :: 0 <= i < |records| ==> CountSuffices(records[i]) }

  predicate NoneEmpty(records: seq<Bytes>) { forall i :: 0 <= i < |records| && |records[i]| >= HEADER ==> Iterated(records[i]).ops != [] }

  /** `m` is at or above `start` and all entries. */
  predicate AtOrAbove(es: seq<Entry>, start: nat, m: nat) {
    start <= m && forall e :: e in es ==> e.key.sequence <= m
  }

  /** And no greater than it has to be. */
  predicate Largest(es: seq<Entry>, start: nat, m: nat) {
    AtOrAbove(es, start, m) && (m == start || exists e :: e in es && e.key.sequence == m)
  }

  /** When no record counts too few updates, the number recovered lies at or above all entries; when every record is
      well formed and holds some update, it is the largest of theirs and the one started with. */
  lemma {:induction false} ClaimsCover(records: seq<Bytes>, start: nat)
    requires AllInRange(records) && CountsSuffice(records)
    ensures AtOrAbove(Replayed(records), start, MaxClaimed(records, start))
    ensures AllWellFormed(records) && NoneEmpty(records) ==> Largest(Replayed(records), start, MaxClaimed(records, start))
  {
    hide InRange, EntriesIn, LastClaimed, Iterated, DecodeFixed32;
    if records != [] {
      var init, rep := records[..|records|-1], records[|records|-1];
      ClaimsCover(init, start);
      if |rep| >= HEADER {
        ClaimCovers(rep);
      } else {
        NoEntriesIn(rep);
      }
      if AllWellFormed(records) && NoneEmpty(records) {
        assert AllWellFormed(init) && NoneEmpty(init) && WellFormedRecord(rep) && |rep| >= HEADER;
        RecordCounts(rep);
        var e :| e in EntriesIn(rep) && e.key.sequence == LastClaimed(rep);
        assert e in Replayed(records);
      }
    }
  }

  lemma NoEntriesIn(rep: Bytes)
    requires InRange(rep) && |rep| < HEADER
    ensures EntriesIn(rep) == []
  {
  }

  lemma RecordCounts(rep: Bytes)
    requires WellFormedRecord(rep)
    ensures CountSuffices(rep) && |Iterated(rep).ops| == DecodeFixed32(rep[8..])
  {
  }

  lemma WellFormedSuffice(records: seq<Bytes>)
    requires AllWellFormed(records)
    ensures CountsSuffice(records)
  {
    forall i | 0 <= i < |records| ensures CountSuffices(records[i]) {
      RecordCounts(records[i]);
    }
  }

  lemma OutcomeCovers(c: Contents, paranoid: bool, start: nat, ok: bool, mem: seq<Entry>, maxSequence: nat)
    requires AllInRange(c.records) && Outcome(c, paranoid, start, ok, mem, maxSequence)
    ensures ok && (paranoid || CountsSuffice(c.records)) ==> AtOrAbove(mem, start, maxSequence)
    ensures ok && (paranoid || AllWellFormed(c.records)) && NoneEmpty(c.records) ==> Largest(mem, start, maxSequence)
  {
    hide AllInRange, AllWellFormed, CountsSuffice, NoneEmpty, AtOrAbove, Largest, Replayed, MaxClaimed;
    if AllWellFormed(c.records) {
      WellFormedSuffice(c.records);
    }
    if CountsSuffice(c.records) {
      ClaimsCover(c.records, start);
    }
  }

  const TWO_DELETIONS: seq<Op> := [Delete([97]), Delete([98])]

  /** A record of two updates that counts one: without paranoid checks both are inserted, and the last sequence number
      recovered lies below the second. */
  lemma ShortCountEscapes()
    ensures var rep := EncodeFixed64(10) + EncodeFixed32(1) + Records(TWO_DELETIONS);
      && InRange(rep) && !WellFormedRecord(rep) && MaxClaimed([rep], 0) == 10
      && |EntriesIn(rep)| == 2 && EntriesIn(rep)[1].key.sequence == 11
  {
    var rep := EncodeFixed64(10) + EncodeFixed32(1) + Records(TWO_DELETIONS);
    hide EncodeFixed64, EncodeFixed32, DecodeFixed64, DecodeFixed32, Records, ParseRecords;
    RecordsRoundTrip(TWO_DELETIONS);
    Split(EncodeFixed64(10), EncodeFixed32(1), Records(TWO_DELETIONS));
    Fixed64RoundTrip(10, EncodeFixed32(1) + Records(TWO_DELETIONS));
    Fixed32RoundTrip(1, Records(TWO_DELETIONS));
    assert MaxClaimed([rep][..0], 0) == 0;
  }

  // ----- What survives a crash -----

  /** The batches of the log's records can be written as they are. */
  predicate Writable(log: seq<LogRecord>) {
    forall i :: 0 <= i < |log| ==> log[i].first + |log[i].ops| <= MAX_SEQUENCE + 1 && WellFormed(log[i].ops)
  }

  /** The bytes of the records, as the leader hands them to the log. */
  function RecordBytes(log: seq<LogRecord>): (bs: seq<Bytes>)
    requires Writable(log)
    ensures |bs| == |log| && forall i :: 0 <= i < |log| ==> bs[i] == BatchBytes(log[i].first, log[i].ops)
  {
    seq(|log|, i requires 0 <= i < |log| => BatchBytes(log[i].first, log[i].ops))
  }

  function LogEntries(log: seq<LogRecord>): seq<Entry>
    requires Writable(log)
  {
    if log == [] then []
    else var r := log[|log|-1]; LogEntries(log[..|log|-1]) + Numbered(r.ops, r.first)
  }

  /** Replaying records written gives back their entries. */
  lemma {:induction false} ReplayInvertsWriting(log: seq<LogRecord>)
    requires Writable(log)
    ensures AllInRange(RecordBytes(log)) && Replayed(RecordBytes(log)) == LogEntries(log)
    ensures forall i :: 0 <= i < |log| ==> WellFormedRecord(RecordBytes(log)[i])
  {
    hide BatchBytes, Iterated, DecodeFixed64, DecodeFixed32, Numbered;
    forall i | 0 <= i < |log|
      ensures InRange(RecordBytes(log)[i]) && WellFormedRecord(RecordBytes(log)[i])
      ensures EntriesIn(RecordBytes(log)[i]) == Numbered(log[i].ops, log[i].first)
    {
      BatchRoundTrip(log[i].first, log[i].ops);
    }
    if log != [] {
      var init := log[..|log|-1];
      ReplayInvertsWriting(init);
      assert RecordBytes(log)[..|log|-1] == RecordBytes(init);
    }
  }

  /** The updates of the records, in order. */
  function OpsOf(log: seq<LogRecord>): seq<Op> {
    if log == [] then [] else OpsOf(log[..|log|-1]) + log[|log|-1].ops
  }

  /** The entries of records in order carry their updates, in order. */
  lemma {:induction false} EntriesTell(log: seq<LogRecord>, next: nat)
    requires Writable(log) && LogInOrder(log, next)
    ensures Tell(LogEntries(log), OpsOf(log)) && Increasing(LogEntries(log))
    ensures forall e :: e in LogEntries(log) ==> e.key.sequence < next
  {
    hide Tell, Numbered, WellFormed;
    if log == [] {
      NothingTold();
    } else {
      var init, r := log[..|log|-1], log[|log|-1];
      EntriesTell(init, r.first);
      NumberedTell(r.ops, r.first);
      TellAppend(LogEntries(init), OpsOf(init), Numbered(r.ops, r.first), r.ops);
      var a, b := LogEntries(init), Numbered(r.ops, r.first);
      forall i: nat | i < |a| ensures a[i].key.sequence < r.first {
        assert a[i] in a;
      }
      assert Increasing(a + b);
    }
  }

  /** The sequence number after which writing goes on: that of the last update recovered, unless it is behind `start`. */
  function LastNumber(log: seq<LogRecord>, start: nat): nat {
    if log != [] && log[|log|-1].first + |log[|log|-1].ops| > start + 1
    then log[|log|-1].first + |log[|log|-1].ops| - 1 else start
  }

  lemma ClaimOf(r: LogRecord)
    requires 0 < r.first && r.first + |r.ops| <= MAX_SEQUENCE + 1 && WellFormed(r.ops)
    ensures |BatchBytes(r.first, r.ops)| >= HEADER && LastClaimed(BatchBytes(r.first, r.ops)) == r.first + |r.ops| - 1
  {
    hide BatchBytes, DecodeFixed64, DecodeFixed32, Iterated;
    BatchRoundTrip(r.first, r.ops);
  }

  /** Of records in order, as the write queue leaves them, the last claims the most, updates or none. */
  lemma {:induction false} LastClaimsMost(log: seq<LogRecord>, next: nat, start: nat)
    requires Writable(log) && LogInOrder(log, next)
    ensures MaxClaimed(RecordBytes(log), start) == LastNumber(log, start)
  {
    hide BatchBytes, LastClaimed, WellFormed;
    if log != [] {
      var init, r := log[..|log|-1], log[|log|-1];
      LastClaimsMost(init, r.first, start);
      assert RecordBytes(log)[..|log|-1] == RecordBytes(init);
      ClaimOf(r);
    }
  }

  /** What replaying such records recovers: every key reads as the last update of it says, at a sequence number that no
      recovered entry exceeds. */
  ghost predicate Recovers(log: seq<LogRecord>, start: nat, mem: seq<Entry>, maxSequence: nat) {
    && maxSequence == LastNumber(log, start) && (forall e :: e in mem ==> e.key.sequence <= maxSequence)
    && (maxSequence <= MAX_SEQUENCE ==> Leaves(Elements(mem), maxSequence, OpsOf(log)))
  }

  lemma LogIsRecovered(log: seq<LogRecord>, next: nat, start: nat)
    requires Writable(log) && LogInOrder(log, next)
    ensures AllInRange(RecordBytes(log))
    ensures Recovers(log, start, Replayed(RecordBytes(log)), MaxClaimed(RecordBytes(log), start))
  {
    hide Replayed, LogEntries, MaxClaimed, InRange, WellFormedRecord, Leaves, RecordBytes, Tell;
    ReplayInvertsWriting(log);
    LastClaimsMost(log, next, start);
    EntriesTell(log, next);
    var es, m := LogEntries(log), LastNumber(log, start);
    EntriesBelow(log, next);
    if m <= MAX_SEQUENCE {
      SameCount(es, OpsOf(log));
      LastDecides(es, OpsOf(log), |es|, m) by {
        assert forall i :: 0 <= i < |es| ==> es[i] in es;
      }
      assert OpsOf(log)[..|es|] == OpsOf(log);
    }
  }

  lemma EntriesBelow(log: seq<LogRecord>, next: nat)
    requires Writable(log) && LogInOrder(log, next)
    ensures forall start: nat, e :: e in LogEntries(log) ==> e.key.sequence <= LastNumber(log, start)
  {
    hide Tell, Numbered, WellFormed, LogEntries;
    if log == [] {
      assert LogEntries([]) == [] by { NoLogEntries(); }
    } else {
      EntriesTell(log, log[|log|-1].first + |log[|log|-1].ops|);
    }
  }

  lemma NoLogEntries()
    ensures LogEntries([]) == []
  {
  }

  lemma {:induction false} RecordsLonger(crc: Crc, records: seq<Bytes>, k: nat, j: nat)
    requires k <= j <= |records|
    ensures |Encode(crc, records[..k])| <= |Encode(crc, records[..j])|
  {
    EncodeHolds(crc, records[..j]);
    assert records[..j][..k] == records[..k];
  }

  /** Where record number `j` ends in the log file. */
  ghost function EndOf(log: seq<LogRecord>, crc: Crc, j: nat): nat
    requires Writable(log) && j < |log|
  {
    |Encode(crc, RecordBytes(log)[..j+1])|
  }

  /** A crash that cuts the log anywhere loses whole groups from its end: replaying it, with paranoid checks or not,
      gives the entries of the first `k` groups, and these include every group whose bytes are all there. */
  lemma CrashLosesWholeGroups(log: seq<LogRecord>, crc: Crc, n: nat) returns (k: nat)
    requires Writable(log) && n <= |Encode(crc, RecordBytes(log))|
    ensures k <= |log|
    ensures var c := ReadFrom(LogFile(Encode(crc, RecordBytes(log))[..n], crc, true), 0, None);
      && c.drops == [] && AllInRange(c.records) && AllWellFormed(c.records)
      && c.records == RecordBytes(log)[..k] && Replayed(c.records) == LogEntries(log[..k])
    ensures forall start: nat :: AtOrAbove(Replayed(RecordBytes(log)[..k]), start, MaxClaimed(RecordBytes(log)[..k], start))
    ensures forall j: nat :: j < |log| && EndOf(log, crc, j) <= n ==> j < k
  {
    hide Encode, ReadFrom, Replayed, LogEntries, InRange, WellFormedRecord, MaxClaimed;
    var records := RecordBytes(log);
    k := WholeRecords(crc, records, n);
    TruncatedLog(crc, true, records, n, k);
    ReplayInvertsWriting(log[..k]);
    assert RecordBytes(log[..k]) == records[..k];
    WellFormedSuffice(records[..k]);
    forall start: nat ensures AtOrAbove(Replayed(records[..k]), start, MaxClaimed(records[..k], start)) {
      ClaimsCover(records[..k], start);
    }
    forall j: nat | j < |log| && EndOf(log, crc, j) <= n ensures j < k {
      if k <= j {
        RecordsLonger(crc, records, k + 1, j + 1);
      }
    }
  }

  /** Recovering a log of the queue that was cut anywhere succeeds, with paranoid checks or not, and gives back what the
      first `k` groups leave; writing goes on above all of it. */
  lemma CrashRecovers(log: seq<LogRecord>, next: nat, crc: Crc, n: nat, paranoid: bool, start: nat, ok: bool,
                      mem: seq<Entry>, maxSequence: nat)
    returns (k: nat)
    requires Writable(log) && LogInOrder(log, next) && n <= |Encode(crc, RecordBytes(log))|
    requires var c := ReadFrom(LogFile(Encode(crc, RecordBytes(log))[..n], crc, true), 0, None);
      AllInRange(c.records) && Outcome(c, paranoid, start, ok, mem, maxSequence)
    ensures k <= |log| && ok && Recovers(log[..k], start, mem, maxSequence)
    ensures forall j: nat :: j < |log| && EndOf(log, crc, j) <= n ==> j < k
  {
    hide Encode, ReadFrom, Replayed, LogEntries, InRange, WellFormedRecord, MaxClaimed, Recovers, EndOf, AllInRange,
         AllWellFormed, WellFormed;
    k := CrashLosesWholeGroups(log, crc, n);
    LogIsRecovered(log[..k], next, start);
    assert RecordBytes(log[..k]) == RecordBytes(log)[..k];
  }

  /** Whatever follows the records of `log` in the file, a crash that keeps the first `j + 1` of them whole loses
      none of these. */
  lemma CrashKeepsWhole(log: seq<LogRecord>, crc: Crc, bytes: Bytes, n: nat, j: nat)
    requires Writable(log) && j < |log| && Encode(crc, RecordBytes(log)) <= bytes && EndOf(log, crc, j) <= n <= |bytes|
    ensures RecordBytes(log)[..j+1] <= ReadFrom(LogFile(bytes[..n], crc, true), 0, None).records
  {
    hide Encode, ReadFrom;
    var records := RecordBytes(log);
    EncodeHolds(crc, records);
    var cut := LogFile(bytes[..n], crc, true);
    assert Encode(crc, records[..j+1]) <= cut.bytes;
    ReadsThrough(cut, records[..j+1], 0);
    EmptyLog(crc);
    assert records[..j+1][..0] == [] && records[..j+1][0..] == records[..j+1];
  }

  predicate StandsAt(part: seq<Entry>, es: seq<Entry>, a: nat) {
    a + |part| <= |es| && forall m :: 0 <= m < |part| ==> es[a+m] == part[m]
  }

  /** `part` stands in `es` from some place on. */
  ghost predicate StandsIn(part: seq<Entry>, es: seq<Entry>) {
    exists a: nat :: StandsAt(part, es, a)
  }

  lemma {:induction false} GroupStandsIn(log: seq<LogRecord>, j: nat)
    requires Writable(log) && j < |log|
    ensures StandsIn(Numbered(log[j].ops, log[j].first), LogEntries(log))
  {
    hide Numbered;
    var init, r := log[..|log|-1], log[|log|-1];
    var before, last := LogEntries(init), Numbered(r.ops, r.first);
    var all := LogEntries(log);
    assert all == before + last;
    if j == |log| - 1 {
      assert StandsAt(last, all, |before|);
    } else {
      GroupStandsIn(init, j);
      var part := Numbered(log[j].ops, log[j].first);
      var a: nat :| StandsAt(part, before, a);
      assert StandsAt(part, all, a);
    }
  }

  lemma PartOfGroup(r: LogRecord, first: nat, ops: seq<Op>, es: seq<Entry>)
    requires RecordHolds(r, first, ops) && r.first + |r.ops| <= MAX_SEQUENCE + 1
    requires StandsIn(Numbered(r.ops, r.first), es)
    ensures StandsIn(Numbered(ops, first), es)
  {
    var d := first - r.first;
    var a: nat :| StandsAt(Numbered(r.ops, r.first), es, a);
    var group, part := Numbered(r.ops, r.first), Numbered(ops, first);
    forall m | 0 <= m < |part| ensures es[a+d+m] == part[m] {
      assert es[a+(d+m)] == group[d+m] && r.ops[d..d+|ops|][m] == r.ops[d+m];
    }
    assert StandsAt(Numbered(ops, first), es, a + d);
  }
}
