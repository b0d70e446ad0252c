/** The write queue together with its log file (db/db_impl.cc, Write; db/log_writer.cc).  An append may fail and leave
    anything behind; the queue goes on with the same file, and only an error on sync stops it. */
module DurableQueue {
  import opened Keys
  import opened Coding
  import opened CrashRecovery
  import opened GroupCommit
  import opened LogFailures
  import opened LogFormat
  import opened LogReader
  import opened LogRecovery
  import opened LogWriter
  import opened WriteBatches
  import Q = WriteQueue

  /** `sound` says that no call on the file has failed since it was opened; `good` counts the records appended before
      the first one did. */
  datatype LogState = LogState(dest: Bytes, blockOffset: nat, sound: bool, good: nat)

  datatype State = State(queue: Q.State, file: LogState)

  /** What adding a record may do to the file: all calls work, and the bytes are those emitted where the writer believes
      to be; or one fails, and what was there before stays there. */
  ghost predicate Appended(crc: Crc, f: LogState, f': LogState, record: Bytes, ok: bool) {
    && f.blockOffset <= BLOCK_SIZE
    && ((&& f'.dest == f.dest + Emission(crc, f.blockOffset, record, true)
         && f'.blockOffset == OffsetAfter(f.blockOffset, record)
         && f'.sound == f.sound && f'.good == (if f.sound then f.good + 1 else f.good) && ok)
        || (f.dest <= f'.dest && f'.blockOffset <= BLOCK_SIZE && !f'.sound && f'.good == f.good))
  }

  ghost function StateOf(w: LogWriter.Writer): LogState
    reads w
  {
    LogState(w.dest, w.blockOffset, w.Sound(), |w.records|)
  }

  /** The writer does to the file what the machine lets it. */
  method AddGroup(w: LogWriter.Writer, record: Bytes) returns (ok: bool)
    requires w.Valid()
    modifies w
    ensures w.Valid() && Appended(w.crc, old(StateOf(w)), StateOf(w), record, ok)
  {
    ghost var before := w.calls;
    ok := w.AddRecord(record);
    w.CallsTogether(0, before, w.calls);
  }

  // ----- The steps -----

  /** The leader adds its group's record. */
  ghost predicate LogStep(crc: Crc, s: State, t: State, ok: bool, kept: bool) {
    && Q.AppendToLog(s.queue, t.queue, ok, kept)
    && s.queue.phase.group.first <= MAX_SEQUENCE + 1 && |s.queue.phase.group.ops| <= MAX_COUNT
    && Appended(crc, s.file, t.file, BatchBytes(s.queue.phase.group.first, s.queue.phase.group.ops), ok)
  }

  /** Any other step leaves the file alone.  A group's batch is well formed, as BuildBatchGroup leaves it. */
  ghost predicate OtherStep(s: State, t: State) {
    && t.file == s.file
    && (|| (exists n: nat :: Q.StartGroup(s.queue, t.queue, n) && WellFormed(t.queue.phase.group.ops))
        || (exists ok :: Q.StartAlone(s.queue, t.queue, ok)) || (exists ok :: Q.Sync(s.queue, t.queue, ok))
        || Q.Insert(s.queue, t.queue) || Q.Finish(s.queue, t.queue) || (exists w :: Q.Enqueue(s.queue, t.queue, w))
        || Q.BackgroundError(s.queue, t.queue))
  }

  ghost predicate Step(crc: Crc, s: State, t: State) {
    (exists ok, kept :: LogStep(crc, s, t, ok, kept)) || OtherStep(s, t)
  }

  ghost predicate Initial(s: State, initial: nat) {
    Q.Initial(s.queue, initial) && s.file == LogState([], 0, true, 0)
  }

  // ----- The invariant -----

  predicate GroupWellFormed(p: Q.Phase) {
    p.Logging? || p.Syncing? || p.Inserting? ==> WellFormed(p.group.ops)
  }

  /** The first `good` records stand in the file, and as long as nothing failed they are all there is. */
  ghost predicate FileOk(crc: Crc, log: seq<Q.LogRecord>, f: LogState) {
    && Writable(log) && f.good <= |log| && f.blockOffset <= BLOCK_SIZE
    && Encode(crc, RecordBytes(log[..f.good])) <= f.dest
    && (f.sound ==> && f.good == |log| && f.dest == Encode(crc, RecordBytes(log))
                    && |f.dest| == LogEnd(Layout(RecordBytes(log))) && AtOffset(f.blockOffset, |f.dest|))
  }

  ghost predicate Invariant(crc: Crc, s: State, initial: nat) {
    Q.Invariant(s.queue, initial) && GroupWellFormed(s.queue.phase) && FileOk(crc, s.queue.log, s.file)
  }

  lemma InitialInvariant(crc: Crc, s: State, initial: nat)
    requires Initial(s, initial)
    ensures Invariant(crc, s, initial)
  {
    hide Encode, Q.Invariant, BatchBytes;
    Q.InitialInvariant(s.queue, initial);
    assert RecordBytes([]) == [];
    EmptyLog(crc);
    assert Layout([]) == [];
  }

  /** Whether a record is synced does not show in its bytes. */
  lemma SameBytes(crc: Crc, a: seq<Q.LogRecord>, b: seq<Q.LogRecord>, f: LogState)
    requires FileOk(crc, a, f) && |a| == |b|
    requires forall i :: 0 <= i < |a| ==> b[i].first == a[i].first && b[i].ops == a[i].ops
    ensures FileOk(crc, b, f)
  {
    hide Encode, BatchBytes, Layout;
    assert RecordBytes(b) == RecordBytes(a) && RecordBytes(b[..f.good]) == RecordBytes(a[..f.good]);
  }

  lemma OneMoreRecord(log: seq<Q.LogRecord>, r: Q.LogRecord)
    requires Writable(log) && r.first + |r.ops| <= MAX_SEQUENCE + 1 && WellFormed(r.ops)
    ensures Writable(log + [r]) && RecordBytes(log + [r]) == RecordBytes(log) + [BatchBytes(r.first, r.ops)]
  {
    hide BatchBytes, WellFormed;
  }

  lemma LogStepKeepsFile(crc: Crc, log: seq<Q.LogRecord>, r: Q.LogRecord, f: LogState, f': LogState, ok: bool, kept: bool)
    requires FileOk(crc, log, f) && (ok ==> kept)
    requires r.first + |r.ops| <= MAX_SEQUENCE + 1 && WellFormed(r.ops)
    requires Appended(crc, f, f', BatchBytes(r.first, r.ops), ok)
    ensures FileOk(crc, if kept then log + [r] else log, f')
  {
    hide Encode, BatchBytes, Layout, AtOffset, Emission, OffsetAfter;
    var log' := if kept then log + [r] else log;
    OneMoreRecord(log, r);
    if f'.sound {
      EmissionExtends(crc, RecordBytes(log), BatchBytes(r.first, r.ops), f.blockOffset);
      assert log'[..f'.good] == log';
    } else {
      assert log'[..f.good] == log[..f.good];
      assert f.sound || f'.good == f.good;
      assert f.dest <= f'.dest;
    }
  }

  lemma GroupIsWritable(s: Q.State, initial: nat)
    requires Q.Invariant(s, initial) && s.phase.Logging? && WellFormed(s.phase.group.ops)
    ensures s.phase.group.first + |s.phase.group.ops| <= MAX_SEQUENCE + 1
  {
    hide AllOps, Q.Taken, Q.Applied, Q.Consecutive, Q.AllLogged, Q.LogInOrder, WellFormed;
  }

  lemma LogStepKeepsInvariant(crc: Crc, s: State, t: State, ok: bool, kept: bool, initial: nat)
    requires Invariant(crc, s, initial) && LogStep(crc, s, t, ok, kept)
    ensures Invariant(crc, t, initial)
  {
    hide Q.Invariant, FileOk, Appended, WellFormed, BatchBytes;
    assert Q.Step(s.queue, t.queue);
    Q.StepKeepsInvariant(s.queue, t.queue, initial);
    GroupIsWritable(s.queue, initial);
    var g := s.queue.phase.group;
    LogStepKeepsFile(crc, s.queue.log, Q.LogRecord(g.first, g.ops, false), s.file, t.file, ok, kept);
  }

  lemma OtherStepKeepsInvariant(crc: Crc, s: State, t: State, initial: nat)
    requires Invariant(crc, s, initial) && OtherStep(s, t)
    ensures Invariant(crc, t, initial)
  {
    hide Q.Invariant, FileOk, WellFormed;
    assert Q.Step(s.queue, t.queue);
    Q.StepKeepsInvariant(s.queue, t.queue, initial);
    SameBytes(crc, s.queue.log, t.queue.log, t.file);
  }

  lemma StepKeepsInvariant(crc: Crc, s: State, t: State, initial: nat)
    requires Invariant(crc, s, initial) && Step(crc, s, t)
    ensures Invariant(crc, t, initial)
  {
    hide Invariant, LogStep, OtherStep;
    if ok, kept :| LogStep(crc, s, t, ok, kept) {
      LogStepKeepsInvariant(crc, s, t, ok, kept, initial);
    } else {
      OtherStepKeepsInvariant(crc, s, t, initial);
    }
  }

  ghost predicate IsRun(crc: Crc, run: seq<State>, initial: nat) {
    && run != [] && Initial(run[0], initial)
    && forall i :: 0 <= i < |run| - 1 ==> Step(crc, run[i], run[i+1])
  }

  lemma {:induction false} RunKeepsInvariant(crc: Crc, run: seq<State>, initial: nat, k: nat)
    requires IsRun(crc, run, initial) && k < |run|
    ensures Invariant(crc, run[k], initial)
  {
    hide Invariant, Step;
    if k == 0 {
      InitialInvariant(crc, run[0], initial);
    } else {
      RunKeepsInvariant(crc, run, initial, k - 1);
      assert Step(crc, run[k-1], run[k-1+1]);
      StepKeepsInvariant(crc, run[k-1], run[k], initial);
    }
  }

  // ----- What survives a crash -----

  /** The write stands in a record appended before any failure, and synced if the write asked for that. */
  ghost predicate AppendedSoundly(s: State, d: Q.Done) {
    exists j: nat :: HeldBy(s, d, j)
  }

  ghost predicate HeldBy(s: State, d: Q.Done, j: nat) {
    && d.first.Some? && j < s.file.good && j < |s.queue.log|
    && Q.RecordHolds(s.queue.log[j], d.first.value, d.writer.Ops())
    && (d.writer.sync ==> s.queue.log[j].synced)
  }

  /** While no call on the file has failed, that goes for every acknowledged write. */
  lemma AcknowledgedSoundly(crc: Crc, s: State, initial: nat, i: nat)
    requires Invariant(crc, s, initial) && s.file.sound
    requires i < |s.queue.done| && s.queue.done[i].ok && s.queue.done[i].first.Some?
    ensures AppendedSoundly(s, s.queue.done[i])
  {
    var d := s.queue.done[i];
    assert Q.Logged(s.queue.log, d);
    var j: nat :| j < |s.queue.log| && Q.RecordHolds(s.queue.log[j], d.first.value, d.writer.Ops())
                  && (d.writer.sync ==> s.queue.log[j].synced);
    assert HeldBy(s, d, j);
  }

  /** And it stays so, whatever fails later. */
  lemma StaysAppended(crc: Crc, s: State, t: State, d: Q.Done)
    requires FileOk(crc, s.queue.log, s.file) && Step(crc, s, t) && AppendedSoundly(s, d)
    ensures AppendedSoundly(t, d)
  {
    hide AllOps, Numbered, BatchBytes, Emission, OffsetAfter, Encode, FileOk;
    var j: nat :| HeldBy(s, d, j);
    assert HeldBy(t, d, j);
  }

  lemma {:induction false} StaysAppendedInRun(crc: Crc, run: seq<State>, initial: nat, a: nat, b: nat, d: Q.Done)
    requires IsRun(crc, run, initial) && a <= b < |run| && AppendedSoundly(run[a], d)
    ensures AppendedSoundly(run[b], d)
    decreases b
  {
    hide Step, AppendedSoundly, FileOk;
    if a < b {
      StaysAppendedInRun(crc, run, initial, a, b - 1, d);
      RunKeepsInvariant(crc, run, initial, b - 1);
      assert Step(crc, run[b-1], run[b-1+1]);
      StaysAppended(crc, run[b-1], run[b], d);
    }
  }

  function GoodLog(s: State): seq<Q.LogRecord>
    requires s.file.good <= |s.queue.log|
  {
    s.queue.log[..s.file.good]
  }

  /** A crash may cut the file anywhere, but not within what was synced. */
  ghost predicate CutKeepsSynced(crc: Crc, s: State, n: nat) {
    && n <= |s.file.dest| && s.file.good <= |s.queue.log| && Writable(GoodLog(s))
    && forall j: nat :: j < s.file.good && s.queue.log[j].synced ==> EndOf(GoodLog(s), crc, j) <= n
  }

  /** What the reader finds in the file after the crash. */
  ghost function Found(crc: Crc, s: State, n: nat): seq<Bytes>
    requires n <= |s.file.dest|
  {
    ReadFrom(LogFile(s.file.dest[..n], crc, true), 0, None).records
  }

  lemma {:induction false} ReplayedPrefix(a: seq<Bytes>, b: seq<Bytes>)
    requires AllInRange(b) && a <= b
    ensures AllInRange(a) && Replayed(a) <= Replayed(b)
    decreases |b|
  {
    hide EntriesIn, InRange;
    if a != b {
      ReplayedPrefix(a, b[..|b|-1]);
    }
  }

  lemma StandsInLonger(part: seq<Entry>, a: seq<Entry>, b: seq<Entry>)
    requires StandsIn(part, a) && a <= b
    ensures StandsIn(part, b)
  {
    var p: nat :| StandsAt(part, a, p);
    assert StandsAt(part, b, p);
  }

  /** A synced write appended before any failure is found: its record is read, and replaying gives back its updates,
      in order, under the sequence numbers they had. */
  lemma FoundAfterCrash(crc: Crc, s: State, d: Q.Done, n: nat)
    requires FileOk(crc, s.queue.log, s.file) && AppendedSoundly(s, d) && d.writer.sync && CutKeepsSynced(crc, s, n)
    ensures d.first.value + |d.writer.Ops()| <= MAX_SEQUENCE + 1
    ensures AllInRange(Found(crc, s, n)) ==>
              StandsIn(Numbered(d.writer.Ops(), d.first.value), Replayed(Found(crc, s, n)))
  {
    var log := GoodLog(s);
    var j: nat :| HeldBy(s, d, j);
    assert log[j] == s.queue.log[j] && log[j].first + |log[j].ops| <= MAX_SEQUENCE + 1;
    assert EndOf(log, crc, j) <= n;
    hide FileOk, CutKeepsSynced, Encode, ReadFrom, Numbered, Replayed, LogEntries, InRange, BatchBytes, EndOf, WellFormed;
    GoodIsInFile(crc, s);
    CrashKeepsWhole(log, crc, s.file.dest, n, j);
    FirstRecords(log, j);
    if AllInRange(Found(crc, s, n)) {
      ReplayedPrefix(RecordBytes(log[..j+1]), Found(crc, s, n));
      ReplayInvertsWriting(log[..j+1]);
      GroupStandsIn(log[..j+1], j);
      StandsInLonger(Numbered(log[j].ops, log[j].first), LogEntries(log[..j+1]), Replayed(Found(crc, s, n)));
      PartOfGroup(log[j], d.first.value, d.writer.Ops(), Replayed(Found(crc, s, n)));
    }
  }

  lemma GoodIsInFile(crc: Crc, s: State)
    requires FileOk(crc, s.queue.log, s.file)
    ensures s.file.good <= |s.queue.log| && Writable(GoodLog(s)) && Encode(crc, RecordBytes(GoodLog(s))) <= s.file.dest
  {
    hide Encode;
  }

  lemma FirstRecords(log: seq<Q.LogRecord>, j: nat)
    requires Writable(log) && j < |log|
    ensures Writable(log[..j+1]) && RecordBytes(log[..j+1]) == RecordBytes(log)[..j+1]
  {
    hide BatchBytes, WellFormed;
  }

  /** An acknowledged sync write survives every crash that keeps what was synced, provided no call on the log file had
      failed by the time it was acknowledged; failures after that do it no harm. */
  lemma SyncedWritesSurvive(crc: Crc, run: seq<State>, initial: nat, a: nat, b: nat, i: nat, n: nat)
    requires IsRun(crc, run, initial) && a <= b < |run|
    requires run[a].file.sound && i < |run[a].queue.done|
    requires var d := run[a].queue.done[i]; d.ok && d.first.Some? && d.writer.sync
    requires CutKeepsSynced(crc, run[b], n)
    ensures var d, found := run[a].queue.done[i], Found(crc, run[b], n);
      && d.first.value + |d.writer.Ops()| <= MAX_SEQUENCE + 1
      && (AllInRange(found) ==> StandsIn(Numbered(d.writer.Ops(), d.first.value), Replayed(found)))
  {
    hide AppendedSoundly, IsRun, CutKeepsSynced, ReadFrom, Numbered, Replayed, InRange, StandsIn, FileOk;
    RunKeepsInvariant(crc, run, initial, a);
    RunKeepsInvariant(crc, run, initial, b);
    AcknowledgedSoundly(crc, run[a], initial, i);
    StaysAppendedInRun(crc, run, initial, a, b, run[a].queue.done[i]);
    FoundAfterCrash(crc, run[b], run[a].queue.done[i], n);
  }

  /** While nothing has failed, a crash leaves exactly the first groups of the queue's log, and replaying them, with
      paranoid checks or not, gives their entries. */
  lemma SoundFileLosesWholeGroups(crc: Crc, run: seq<State>, initial: nat, b: nat, n: nat) returns (k: nat)
    requires IsRun(crc, run, initial) && b < |run| && run[b].file.sound && n <= |run[b].file.dest|
    ensures k <= |run[b].queue.log| && Writable(run[b].queue.log)
    ensures var c := ReadFrom(LogFile(run[b].file.dest[..n], crc, true), 0, None);
      && c.drops == [] && AllInRange(c.records) && AllWellFormed(c.records)
      && Replayed(c.records) == LogEntries(run[b].queue.log[..k])
    ensures forall j: nat :: j < |run[b].queue.log| && EndOf(run[b].queue.log, crc, j) <= n ==> j < k
  {
    hide IsRun, ReadFrom, Replayed, LogEntries, InRange, WellFormedRecord, Encode, EndOf;
    RunKeepsInvariant(crc, run, initial, b);
    k := CrashLosesWholeGroups(run[b].queue.log, crc, n);
  }

  /** And recovery, with paranoid checks or not, gives back what their updates leave, at a last sequence number that no
      recovered entry exceeds. */
  lemma SoundFileRecovers(crc: Crc, run: seq<State>, initial: nat, b: nat, n: nat, paranoid: bool, start: nat, ok: bool,
                          mem: seq<Entry>, maxSequence: nat)
    returns (k: nat)
    requires IsRun(crc, run, initial) && b < |run| && run[b].file.sound && n <= |run[b].file.dest|
    requires var c := ReadFrom(LogFile(run[b].file.dest[..n], crc, true), 0, None);
      AllInRange(c.records) && Outcome(c, paranoid, start, ok, mem, maxSequence)
    ensures k <= |run[b].queue.log| && Writable(run[b].queue.log)
    ensures ok && Recovers(run[b].queue.log[..k], start, mem, maxSequence)
    ensures forall j: nat :: j < |run[b].queue.log| && EndOf(run[b].queue.log, crc, j) <= n ==> j < k
  {
    hide IsRun, ReadFrom, Outcome, Recovers, InRange, Encode, EndOf;
    RunKeepsInvariant(crc, run, initial, b);
    k := CrashRecovers(run[b].queue.log, Q.NextFirst(run[b].queue), crc, n, paranoid, start, ok, mem, maxSequence);
  }
}
