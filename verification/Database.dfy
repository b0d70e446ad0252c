/** The database as a step machine: writes, memtable flushes, compactions and snapshots (db/db_impl.cc).  A flush
    or a compaction begins in one step and is installed in another, and other steps may come in between.
    Over every run, each read at a live snapshot is answered as the history of writes says. */
module Database {
  import opened Keys
  import opened Visibility
  import opened Versions
  import opened VersionBuilder
  import opened CompactionInputs
  import opened LevelMoves
  import opened Compactions
  import opened DropRule

  /** A compaction under way: its inputs, the version they were chosen from, the smallest snapshot at that time, and
      the file numbers its outputs have taken. */
  datatype Job = Job(level: nat, inputs0: seq<File>, inputs1: seq<File>, chosenFrom: seq<seq<File>>,
                     smallestSnapshot: Sequence, numbers: seq<nat>)

  ghost function Inputs(job: Job): set<Entry> { FilesData(job.inputs0) + FilesData(job.inputs1) }

  /** `flush` is the file number of a memtable flush under way.  `history` holds every entry ever written and `horizon`
      the largest smallest-snapshot of any compaction; these two exist only to state what reads must return. */
  datatype State = State(mem: set<Entry>, imm: set<Entry>, levels: seq<seq<File>>, lastSequence: Sequence,
                         snapshots: seq<Sequence>, nextNumber: nat, flush: Option<nat>, job: Option<Job>,
                         history: set<Entry>, horizon: Sequence)

  ghost function Data(db: State): set<Entry>
    requires |db.levels| == NUM_LEVELS
  {
    db.mem + db.imm + LevelsData(db.levels, 0)
  }

  ghost predicate FilesInOrder(db: State) {
    && LevelsInOrder(db.levels)
    && forall l, f :: 0 <= l < NUM_LEVELS && f in db.levels[l] ==> f.number < db.nextNumber
  }

  /** Memtables are newer than files, and everything stems from the history of writes. */
  ghost predicate LayersInOrder(db: State)
    requires |db.levels| == NUM_LEVELS
  {
    && Newer(db.mem, db.imm) && Newer(db.mem + db.imm, LevelsData(db.levels, 0))
    && WellFormedData(db.history) && Data(db) <= db.history
    && forall e :: e in db.history ==> e.key.sequence <= db.lastSequence
  }

  ghost predicate SnapshotsInOrder(db: State) {
    && db.horizon <= db.lastSequence
    && (forall s :: s in db.snapshots ==> db.horizon <= s <= db.lastSequence)
    && (forall i, j :: 0 <= i < j < |db.snapshots| ==> db.snapshots[i] <= db.snapshots[j])
  }

  ghost predicate ReadsAgree(db: State)
    requires |db.levels| == NUM_LEVELS
  {
    forall u :: SameReads(Data(db), db.history, u, db.horizon)
  }

  ghost predicate JobFits(job: Job, levels: seq<seq<File>>) {
    && |levels| == NUM_LEVELS && VersionOk(job.chosenFrom)
    && InputsReady(levels, job.level, job.inputs0, job.inputs1)
    && HoldsBase(job.chosenFrom, levels, job.level, Inputs(job))
  }

  ghost predicate JobOnTime(job: Job, db: State) {
    && job.smallestSnapshot <= db.lastSequence
    && forall s :: s in db.snapshots ==> job.smallestSnapshot <= s
  }

  /** The numbers taken for outputs are known and belong to no file, nor to a flush. */
  ghost predicate NumbersTaken(numbers: seq<nat>, db: State) {
    && (forall i, j :: 0 <= i < j < |numbers| ==> numbers[i] != numbers[j])
    && (forall n :: n in numbers ==> n < db.nextNumber && db.flush != Some(n))
    && (forall l, f :: 0 <= l < |db.levels| && f in db.levels[l] ==> f.number !in numbers)
  }

  /** A compaction under way can be installed, and so can a flush. */
  ghost predicate PendingInOrder(db: State) {
    && (db.job.Some? ==> JobFits(db.job.value, db.levels) && JobOnTime(db.job.value, db)
                         && NumbersTaken(db.job.value.numbers, db))
    && (db.flush.Some? ==> db.flush.value < db.nextNumber && UnusedNumber(db.levels, db.flush.value))
  }

  ghost predicate Invariant(db: State) {
    && |db.levels| == NUM_LEVELS
    && FilesInOrder(db) && LayersInOrder(db) && SnapshotsInOrder(db) && PendingInOrder(db) && ReadsAgree(db)
  }

  ghost predicate Init(db: State) {
    db == State({}, {}, seq(NUM_LEVELS, _ => []), 0, [], 2, None, None, {}, 0)
  }

  // ---------- steps ----------

  /** A committed group adds entries with fresh sequence numbers; a failed one may only use numbers up. */
  ghost predicate WriteStep(db: State, db': State, batch: set<Entry>) {
    && (forall e :: e in batch ==> e.key.Parses() && db.lastSequence < e.key.sequence <= db'.lastSequence)
    && (forall a, b :: a in batch && b in batch && a.key.sequence == b.key.sequence ==> a == b)
    && db.lastSequence <= db'.lastSequence
    && db' == db.(mem := db.mem + batch, history := db.history + batch, lastSequence := db'.lastSequence)
  }

  ghost predicate SwitchMemTableStep(db: State, db': State) {
    db.imm == {} && db' == db.(mem := {}, imm := db.mem)
  }

  /** A flush takes its file number first; writes may come in before it is installed. */
  ghost predicate BeginFlushStep(db: State, db': State) {
    db.flush == None && db' == db.(flush := Some(db.nextNumber), nextNumber := db.nextNumber + 1)
  }

  /** The entries of the immutable memtable become file `f` of `level`. */
  ghost predicate Flushed(db: State, db': State, f: File, level: nat)
    requires |db.levels| == NUM_LEVELS
  {
    && FileOk(f) && Elements(f.entries) == db.imm && db.flush == Some(f.number)
    && level <= MAX_MEM_COMPACT_LEVEL
    && (level > 0 ==> ClearAbove(db.levels, level + 1, UserRange(f.smallest, f.largest)))
    && |db'.levels| == NUM_LEVELS && Replaced(db.levels[level], [], [f], db'.levels[level])
    && (forall l :: 0 <= l < NUM_LEVELS && l != level ==> db'.levels[l] == db.levels[l])
    && db' == db.(imm := {}, levels := db'.levels, flush := None)
  }

  /** A file flushed to the level that a compaction under way writes to lies outside all the inputs. */
  ghost predicate StandsClear(job: Option<Job>, f: File, level: nat) {
    job.Some? && level == job.value.level + 1 ==> Outside(f, job.value.inputs0 + job.value.inputs1)
  }

  ghost predicate FlushStep(db: State, db': State, f: File, level: nat)
    requires |db.levels| == NUM_LEVELS
  {
    Flushed(db, db', f, level) && StandsClear(db.job, f, level)
  }

  /** The flush found nothing to write, failed, or met a shutdown. */
  ghost predicate AbandonFlushStep(db: State, db': State) {
    db.flush.Some? && db' == db.(flush := None)
  }

  /** SnapshotList::oldest, or the last sequence number when no snapshot is live. */
  function SmallestSnapshot(db: State): Sequence {
    if db.snapshots == [] then db.lastSequence else db.snapshots[0]
  }

  /** A compaction fixes its inputs, the smallest snapshot and the version it looks for deeper files in. */
  ghost predicate BeginCompactionStep(db: State, db': State, level: nat, inputs0: seq<File>, inputs1: seq<File>) {
    && db.job == None && ChosenInputs(db.levels, level, inputs0, inputs1)
    && NoOlderLeftBehind(db.levels[level], inputs0) && NoOlderLeftBehind(db.levels[level+1], inputs1)
    && db' == db.(job := Some(Job(level, inputs0, inputs1, db.levels, SmallestSnapshot(db), [])))
  }

  ghost predicate OpenOutputStep(db: State, db': State) {
    && db.job.Some?
    && db' == db.(job := Some(db.job.value.(numbers := db.job.value.numbers + [db.nextNumber])),
                  nextNumber := db.nextNumber + 1)
  }

  /** The outputs are numbered as they were opened. */
  predicate NumberedFrom(outputs: seq<File>, numbers: seq<nat>) {
    |outputs| <= |numbers| && forall i :: 0 <= i < |outputs| ==> outputs[i].number == numbers[i]
  }

  ghost predicate InstallStep(db: State, db': State, outputs: seq<File>, input: seq<Entry>) {
    && db.job.Some?
    && var job := db.job.value;
    && Sorted(input) && Elements(input) == Inputs(job)
    && Concat(outputs) == Kept(input, |input|, job.smallestSnapshot, IsBase(job.chosenFrom, job.level))
    && FilesOk(outputs) && Disjoint(outputs) && NumberedFrom(outputs, job.numbers)
    && Relisted(db.levels, db'.levels, job.level, job.inputs0, job.inputs1, outputs)
    && db' == db.(levels := db'.levels, job := None,
                  horizon := if db.horizon < job.smallestSnapshot then job.smallestSnapshot else db.horizon)
  }

  ghost predicate AbandonCompactionStep(db: State, db': State) {
    db.job.Some? && db' == db.(job := None)
  }

  ghost predicate TrivialMoveStep(db: State, db': State, level: nat, f: File) {
    && db.job == None && ChosenInputs(db.levels, level, [f], [])
    && NoOlderLeftBehind(db.levels[level], [f])
    && Relisted(db.levels, db'.levels, level, [f], [], [f])
    && db' == db.(levels := db'.levels)
  }

  /** File numbers also go to logs, and to files that a failed or empty flush or compaction leaves unused. */
  ghost predicate SpendNumbersStep(db: State, db': State) {
    db'.nextNumber >= db.nextNumber && db' == db.(nextNumber := db'.nextNumber)
  }

  ghost predicate TakeSnapshotStep(db: State, db': State) {
    db' == db.(snapshots := db.snapshots + [db.lastSequence])
  }

  ghost predicate ReleaseSnapshotStep(db: State, db': State, i: nat) {
    i < |db.snapshots| && db' == db.(snapshots := db.snapshots[..i] + db.snapshots[i+1..])
  }

  ghost predicate Step(db: State, db': State)
    requires |db.levels| == NUM_LEVELS
  {
    || (exists batch :: WriteStep(db, db', batch))
    || SwitchMemTableStep(db, db')
    || BeginFlushStep(db, db')
    || (exists f, level :: FlushStep(db, db', f, level))
    || AbandonFlushStep(db, db')
    || (exists level, inputs0, inputs1 :: BeginCompactionStep(db, db', level, inputs0, inputs1))
    || OpenOutputStep(db, db')
    || (exists outputs, input :: InstallStep(db, db', outputs, input))
    || AbandonCompactionStep(db, db')
    || (exists level, f :: TrivialMoveStep(db, db', level, f))
    || SpendNumbersStep(db, db')
    || TakeSnapshotStep(db, db')
    || (exists i :: ReleaseSnapshotStep(db, db', i))
  }

  // ---------- every step keeps the invariant ----------

  lemma SameReadsFrom(a: set<Entry>, b: set<Entry>, c: set<Entry>, u: UserKey, early: Sequence, late: Sequence)
    requires SameReads(b, c, u, early) && SameReads(a, b, u, late)
    ensures SameReads(a, c, u, if early < late then late else early)
  {
  }

  lemma WriteReads(data: set<Entry>, history: set<Entry>, batch: set<Entry>, u: UserKey, from: Sequence)
    requires data <= history && SameReads(data, history, u, from) && WellFormedData(history + batch)
    requires Newer(batch, history)
    ensures SameReads(data + batch, history + batch, u, from)
  {
    forall s: Sequence | from <= s ensures Lookup(data + batch, u, s) == Lookup(history + batch, u, s) {
      if e :| e in batch && Readable(e, u, s) {
        var n := NewestExists(batch, u, s, e);
        assert Newest(data + batch, u, s, n) && Newest(history + batch, u, s, n);
        LookupIsOutcome(data + batch, u, s, n);
        LookupIsOutcome(history + batch, u, s, n);
      } else {
        assert OneEntryPerSequence(data) && OneEntryPerSequence(history);
        SameReadableSameLookup(data + batch, data, u, s);
        SameReadableSameLookup(history + batch, history, u, s);
      }
    }
  }

  lemma WriteKeepsInvariant(db: State, db': State, batch: set<Entry>)
    requires Invariant(db) && WriteStep(db, db', batch)
    ensures Invariant(db')
  {
    hide LevelsInOrder, JobFits;
    assert Newer(batch, db.history) && WellFormedData(db.history + batch);
    assert Data(db') == Data(db) + batch;
    assert LayersInOrder(db');
    forall u ensures SameReads(Data(db'), db'.history, u, db'.horizon) {
      WriteReads(Data(db), db.history, batch, u, db.horizon);
    }
  }

  lemma SwitchKeepsInvariant(db: State, db': State)
    requires Invariant(db) && SwitchMemTableStep(db, db')
    ensures Invariant(db')
  {
    hide LevelsInOrder, JobFits;
    assert Data(db') == Data(db);
  }

  lemma ReadyIsOnTop(top: set<Entry>, levels: seq<seq<File>>, level: nat, inputs0: seq<File>, inputs1: seq<File>)
    requires LevelsInOrder(levels) && Newer(top, LevelsData(levels, 0)) && InputsReady(levels, level, inputs0, inputs1)
    ensures InputsOnTop(top, levels, level, inputs0, inputs1)
  {
  }

  /** Moving files down keeps the levels in order and invents no entry. */
  lemma MovedFiles(levels: seq<seq<File>>, levels': seq<seq<File>>, level: nat,
                   inputs0: seq<File>, inputs1: seq<File>, outputs: seq<File>)
    requires LevelsInOrder(levels) && InputsReady(levels, level, inputs0, inputs1)
    requires Relisted(levels, levels', level, inputs0, inputs1, outputs)
    requires FilesOk(outputs) && Disjoint(outputs) && OutputNumbersFresh(levels, level, inputs0, outputs)
    requires FilesData(outputs) <= FilesData(inputs0) + FilesData(inputs1)
    ensures LevelsInOrder(levels')
    ensures LevelsData(levels', 0) <= LevelsData(levels, 0)
  {
    ReadyIsOnTop({}, levels, level, inputs0, inputs1);
    MovedDownInOrder(levels, levels', level, inputs0, inputs1, outputs);
    DataBefore({}, levels, levels', level, inputs0, inputs1, outputs);
    DataAfter({}, levels, levels', level, inputs0, inputs1, outputs);
    assert LevelsData(levels', 0) <= {} + LevelsData(levels', 0) <= {} + LevelsData(levels, 0);
  }

  lemma TrivialMoveIsReady(levels: seq<seq<File>>, level: nat, f: File)
    requires LevelsInOrder(levels) && ChosenInputs(levels, level, [f], []) && NoOlderLeftBehind(levels[level], [f])
    ensures InputsReady(levels, level, [f], [])
    ensures FilesOk([f]) && Disjoint([f]) && OutputNumbersFresh(levels, level, [f], [f])
    ensures FilesData([f]) <= FilesData([f]) + FilesData([])
  {
    ChoiceStandsApart(levels, level, [f], []);
    assert f in [f];
  }

  lemma TrivialMoveKeepsInvariant(db: State, db': State, level: nat, f: File)
    requires Invariant(db) && TrivialMoveStep(db, db', level, f)
    ensures Invariant(db')
  {
    hide LevelsInOrder, LayersInOrder, ReadsAgree, OutputNumbersFresh, UniqueNumbers, VersionOk, InputsReady, Newer;
    hide ChosenInputs, NoOlderLeftBehind, Relisted, LevelsData, FilesData, Upper, UnusedNumber, FilesOk, Disjoint;
    var top := db.mem + db.imm;
    TrivialMoveIsReady(db.levels, level, f);
    MovedFiles(db.levels, db'.levels, level, [f], [], [f]);
    DataBefore(top, db.levels, db'.levels, level, [f], [], [f]);
    DataAfter(top, db.levels, db'.levels, level, [f], [], [f]);
    assert FilesData([]) == {} by { NoFilesNoData(); }
    NumbersStaySmall(db.levels, db'.levels, level, [f], [], [f], db.nextNumber) by {
      InputsAreListed(db.levels, level, [f], []);
    }
    if db.flush.Some? {
      NumberStaysUnused(db.levels, db'.levels, level, [f], [], [f], db.flush.value);
    }
    RelistedLength(db.levels, db'.levels, level, [f], [], [f]);
    SameDataSameReads(db, db');
  }

  lemma RelistedLength(levels: seq<seq<File>>, levels': seq<seq<File>>, level: nat, inputs0: seq<File>,
                       inputs1: seq<File>, outputs: seq<File>)
    requires Relisted(levels, levels', level, inputs0, inputs1, outputs)
    ensures |levels'| == |levels|
  {
  }

  lemma InputsAreListed(levels: seq<seq<File>>, level: nat, inputs0: seq<File>, inputs1: seq<File>)
    requires InputsReady(levels, level, inputs0, inputs1)
    ensures level + 1 < |levels| && forall f :: f in inputs0 ==> f in levels[level]
  {
  }

  lemma NoFilesNoData()
    ensures FilesData([]) == {}
  {
  }

  lemma LayersInOrderParts(db: State)
    requires |db.levels| == NUM_LEVELS && LayersInOrder(db)
    ensures Newer(db.mem + db.imm, LevelsData(db.levels, 0)) && WellFormedData(Data(db))
  {
  }

  lemma SameDataSameReads(db: State, db': State)
    requires |db.levels| == NUM_LEVELS == |db'.levels| && LayersInOrder(db) && ReadsAgree(db)
    requires db' == db.(levels := db'.levels)
    requires db'.mem + db'.imm + LevelsData(db'.levels, 0) == db.mem + db.imm + LevelsData(db.levels, 0)
    requires LevelsData(db'.levels, 0) <= LevelsData(db.levels, 0)
    ensures LayersInOrder(db') && ReadsAgree(db')
  {
    hide SameReads;
    assert Data(db') == Data(db);
  }

  lemma NumbersStaySmall(levels: seq<seq<File>>, levels': seq<seq<File>>, level: nat, inputs0: seq<File>,
                         inputs1: seq<File>, outputs: seq<File>, bound: nat)
    requires Relisted(levels, levels', level, inputs0, inputs1, outputs)
    requires forall l, f :: 0 <= l < |levels| && f in levels[l] ==> f.number < bound
    requires forall f :: f in outputs ==> f.number < bound
    ensures forall l, f :: 0 <= l < |levels| && f in levels'[l] ==> f.number < bound
  {
  }

  lemma NumberStaysUnused(levels: seq<seq<File>>, levels': seq<seq<File>>, level: nat, inputs0: seq<File>,
                          inputs1: seq<File>, outputs: seq<File>, number: nat)
    requires Relisted(levels, levels', level, inputs0, inputs1, outputs) && UnusedNumber(levels, number)
    requires forall f :: f in outputs ==> f.number != number || f in inputs0
    ensures UnusedNumber(levels', number)
  {
  }

  // ---------- a compaction, from its choice to its installation ----------

  lemma SnapshotsAboveSmallest(db: State)
    requires SnapshotsInOrder(db)
    ensures SmallestSnapshot(db) <= db.lastSequence && forall s :: s in db.snapshots ==> SmallestSnapshot(db) <= s
    ensures SmallestSnapshot(db) in db.snapshots || (db.snapshots == [] && SmallestSnapshot(db) == db.lastSequence)
  {
    if db.snapshots != [] {
      assert db.snapshots[0] in db.snapshots;
      forall s | s in db.snapshots ensures db.snapshots[0] <= s {
        var i :| 0 <= i < |db.snapshots| && db.snapshots[i] == s;
      }
    }
  }

  lemma BeginCompactionKeepsInvariant(db: State, db': State, level: nat, inputs0: seq<File>, inputs1: seq<File>)
    requires Invariant(db) && BeginCompactionStep(db, db', level, inputs0, inputs1)
    ensures Invariant(db')
  {
    hide LevelsInOrder, ChosenInputs, VersionOk, UnusedNumber, FilesInOrder, LayersInOrder, ReadsAgree, NoOlderLeftBehind,
         LeftOutside, NoSharedUser, HoldsBase, IsBase, JobFits;
    ChosenLevel(db.levels, level, inputs0, inputs1);
    FilesAreOk(db);
    ChosenJobFits(db'.job.value, db.levels);
    SnapshotsAboveSmallest(db);
    SameFilesAndLayers(db, db');
  }

  lemma ChosenLevel(levels: seq<seq<File>>, level: nat, inputs0: seq<File>, inputs1: seq<File>)
    requires ChosenInputs(levels, level, inputs0, inputs1)
    ensures |levels| == NUM_LEVELS && level + 1 < NUM_LEVELS
  {
  }

  lemma ChosenJobFits(job: Job, levels: seq<seq<File>>)
    requires VersionOk(levels) && job.chosenFrom == levels && ChosenInputs(levels, job.level, job.inputs0, job.inputs1)
    requires NoOlderLeftBehind(levels[job.level], job.inputs0) && NoOlderLeftBehind(levels[job.level+1], job.inputs1)
    ensures JobFits(job, levels)
  {
    hide NoOlderLeftBehind, LeftOutside, NoSharedUser, HoldsBase, IsBase, Within, VersionOk, ChosenInputs;
    ChosenLevel(levels, job.level, job.inputs0, job.inputs1);
    ChoiceStandsApart(levels, job.level, job.inputs0, job.inputs1);
    DeeperIsNotBase(levels, job.level, Inputs(job));
  }

  lemma SameFilesAndLayers(db: State, db': State)
    requires |db.levels| == NUM_LEVELS && FilesInOrder(db) && LayersInOrder(db) && ReadsAgree(db)
    requires db'.mem == db.mem && db'.imm == db.imm && db'.levels == db.levels && db'.history == db.history
    requires db'.lastSequence == db.lastSequence && db'.horizon == db.horizon && db'.nextNumber >= db.nextNumber
    ensures FilesInOrder(db') && LayersInOrder(db') && ReadsAgree(db')
  {
    hide LevelsInOrder, SameReads, WellFormedData;
    assert Data(db') == Data(db);
  }

  lemma InstallReads(top: set<Entry>, levels: seq<seq<File>>, levels': seq<seq<File>>, job: Job, outputs: seq<File>,
                     input: seq<Entry>, u: UserKey)
    requires JobFits(job, levels) && InputsOnTop(top, levels, job.level, job.inputs0, job.inputs1)
    requires Relisted(levels, levels', job.level, job.inputs0, job.inputs1, outputs)
    requires WellFormedData(top + LevelsData(levels, 0))
    requires Sorted(input) && Elements(input) == Inputs(job)
    requires FilesData(outputs)
          == Elements(Kept(input, |input|, job.smallestSnapshot, IsBase(job.chosenFrom, job.level)))
    ensures SameReads(top + LevelsData(levels', 0), top + LevelsData(levels, 0), u, job.smallestSnapshot)
  {
    var isBase := IsBase(job.chosenFrom, job.level);
    assert |levels| == NUM_LEVELS && job.level + 1 < NUM_LEVELS;
    hide InputsReady, Relisted, VersionOk, InputsOnTop, HoldsBase, Sorted, Kept, Upper, LevelsData, FilesData;
    hide OneEntryPerSequence, SameReads, Surrounds;
    var upper, deep := Upper(top, levels, job.level, job.inputs0, job.inputs1), LevelsData(levels, job.level + 2);
    InstallByParts(top, levels, levels', job, outputs, input);
    InputsAreSurrounded(top, job.chosenFrom, levels, job.level, job.inputs0, job.inputs1, input);
    ElementsParse(input, top + LevelsData(levels, 0));
    CompactionPreservesReads(upper, input, deep, job.smallestSnapshot, isBase, u);
  }

  lemma InstallByParts(top: set<Entry>, levels: seq<seq<File>>, levels': seq<seq<File>>, job: Job, outputs: seq<File>,
                       input: seq<Entry>)
    requires Relisted(levels, levels', job.level, job.inputs0, job.inputs1, outputs) && Elements(input) == Inputs(job)
    ensures var upper := Upper(top, levels, job.level, job.inputs0, job.inputs1);
      var deep := LevelsData(levels, job.level + 2);
      && top + LevelsData(levels, 0) == upper + Elements(input) + deep
      && top + LevelsData(levels', 0) == upper + FilesData(outputs) + deep
  {
    assert job.level + 1 < |levels|;
    hide Relisted, Upper, LevelsData, FilesData;
    DataBefore(top, levels, levels', job.level, job.inputs0, job.inputs1, outputs);
    DataAfter(top, levels, levels', job.level, job.inputs0, job.inputs1, outputs);
  }

  lemma ElementsParse(table: seq<Entry>, data: set<Entry>)
    requires Elements(table) <= data && WellFormedData(data)
    ensures AllParse(table)
  {
    forall i | 0 <= i < |table| ensures table[i].key.Parses() {
      assert table[i] in Elements(table);
    }
  }

  lemma OutputsData(outputs: seq<File>, input: seq<Entry>, smallestSnapshot: Sequence, isBase: UserKey -> bool)
    requires Concat(outputs) == Kept(input, |input|, smallestSnapshot, isBase)
    ensures FilesData(outputs) == Elements(Kept(input, |input|, smallestSnapshot, isBase)) <= Elements(input)
  {
    ConcatData(outputs);
    KeptMembers(input, |input|, smallestSnapshot, isBase);
  }

  lemma OutputNumbers(db: State, job: Job, outputs: seq<File>)
    requires NumbersTaken(job.numbers, db) && NumberedFrom(outputs, job.numbers)
    ensures OutputNumbersFresh(db.levels, job.level, job.inputs0, outputs)
    ensures forall f :: f in outputs ==> f.number < db.nextNumber && db.flush != Some(f.number)
  {
    forall f | f in outputs ensures f.number in job.numbers {
      var i :| 0 <= i < |outputs| && outputs[i] == f;
      assert f.number == job.numbers[i];
    }
    forall f, g | f in outputs && g in outputs && f.number == g.number ensures f == g {
      var i :| 0 <= i < |outputs| && outputs[i] == f;
      var j :| 0 <= j < |outputs| && outputs[j] == g;
    }
  }

  lemma FittingIsReady(job: Job, levels: seq<seq<File>>)
    requires JobFits(job, levels)
    ensures |levels| == NUM_LEVELS && InputsReady(levels, job.level, job.inputs0, job.inputs1) && job.level + 1 < NUM_LEVELS
  {
    hide VersionOk, HoldsBase;
  }

  lemma InstalledFiles(db: State, db': State, outputs: seq<File>, input: seq<Entry>)
    requires Invariant(db) && InstallStep(db, db', outputs, input)
    ensures FilesInOrder(db') && PendingInOrder(db') && LevelsData(db'.levels, 0) <= LevelsData(db.levels, 0)
  {
    hide LevelsInOrder, InputsReady, JobFits, OutputNumbersFresh, Relisted, FilesOk, Disjoint, LayersInOrder, ReadsAgree;
    hide NumberedFrom, UnusedNumber, NumbersTaken, SnapshotsInOrder, LevelsData, FilesData, Concat, Kept, Sorted;
    var job := db.job.value;
    FittingIsReady(job, db.levels);
    OutputsData(outputs, input, job.smallestSnapshot, IsBase(job.chosenFrom, job.level));
    OutputNumbers(db, job, outputs);
    MovedFiles(db.levels, db'.levels, job.level, job.inputs0, job.inputs1, outputs);
    NumbersStaySmall(db.levels, db'.levels, job.level, job.inputs0, job.inputs1, outputs, db.nextNumber);
    if db.flush.Some? {
      NumberStaysUnused(db.levels, db'.levels, job.level, job.inputs0, job.inputs1, outputs, db.flush.value);
    }
    RelistedLength(db.levels, db'.levels, job.level, job.inputs0, job.inputs1, outputs);
  }

  lemma InstalledReads(db: State, db': State, outputs: seq<File>, input: seq<Entry>)
    requires Invariant(db) && InstallStep(db, db', outputs, input) && |db'.levels| == NUM_LEVELS
    ensures ReadsAgree(db')
  {
    var job := db.job.value;
    assert LevelsInOrder(db.levels) && InputsReady(db.levels, job.level, job.inputs0, job.inputs1);
    hide InputsReady, JobFits, Relisted, FilesOk, Disjoint, LevelsInOrder, LayersInOrder, UnusedNumber, NumbersTaken;
    hide NumberedFrom, InputsOnTop, SnapshotsInOrder, LevelsData, FilesData;
    OutputsData(outputs, input, job.smallestSnapshot, IsBase(job.chosenFrom, job.level));
    LayersInOrderParts(db);
    ReadyIsOnTop(db.mem + db.imm, db.levels, job.level, job.inputs0, job.inputs1);
    forall u ensures SameReads(Data(db'), db'.history, u, db'.horizon) {
      InstallReads(db.mem + db.imm, db.levels, db'.levels, job, outputs, input, u);
      SameReadsFrom(Data(db'), Data(db), db.history, u, db.horizon, job.smallestSnapshot);
    }
  }

  lemma InstallKeepsInvariant(db: State, db': State, outputs: seq<File>, input: seq<Entry>)
    requires Invariant(db) && InstallStep(db, db', outputs, input)
    ensures Invariant(db')
  {
    hide JobFits, Relisted, FilesOk, Disjoint, FilesInOrder, LayersInOrder, ReadsAgree;
    hide Sorted, Concat, Kept, LevelsData, FilesData, NumbersTaken, NumberedFrom, UnusedNumber;
    var job := db.job.value;
    RelistedLength(db.levels, db'.levels, job.level, job.inputs0, job.inputs1, outputs);
    InstalledFiles(db, db', outputs, input);
    InstalledReads(db, db', outputs, input);
    LayersStayInOrder(db, db');
  }

  /** What a compaction installs holds, of its inputs, exactly what reads at or above its smallest snapshot may still
      find; overwritten values and idle deletions are gone. */
  lemma InstallReclaims(db: State, db': State, outputs: seq<File>, input: seq<Entry>)
    requires Invariant(db) && InstallStep(db, db', outputs, input)
    ensures var job := db.job.value;
      && OneOfEachUser(FilesData(outputs), job.smallestSnapshot)
      && NoIdleDeletion(FilesData(outputs), job.chosenFrom, job.level, job.smallestSnapshot)
      && forall e :: e in FilesData(outputs)
                     <==> e in input && MustKeep(input, job.chosenFrom, job.level, job.smallestSnapshot, e)
  {
    var job := db.job.value;
    InstalledInputs(db, db', outputs, input);
    hide Invariant, Relisted, FilesOk, Disjoint, NumberedFrom, LevelsData, FilesData, Kept, Concat, Sorted, OneOfEachUser,
         NoIdleDeletion, MustKeep, IsBase;
    ElementsParse(input, Data(db));
    assert OneEntryPerSequence(Elements(input)) by {
      assert Elements(input) <= Data(db);
    }
    OnlyWhatItMust(outputs, input, job.chosenFrom, job.level, job.smallestSnapshot);
  }

  lemma ReadyAreWithin(levels: seq<seq<File>>, level: nat, inputs0: seq<File>, inputs1: seq<File>)
    requires InputsReady(levels, level, inputs0, inputs1)
    ensures level + 1 < |levels| && Within(inputs0, levels[level]) && Within(inputs1, levels[level+1])
  {
    hide NoOlderLeftBehind, LeftOutside, NoSharedUser;
  }

  lemma InstalledInputs(db: State, db': State, outputs: seq<File>, input: seq<Entry>)
    requires Invariant(db) && InstallStep(db, db', outputs, input)
    ensures Elements(input) <= Data(db) && WellFormedData(Data(db))
  {
    hide FilesInOrder, JobFits, ReadsAgree, JobOnTime, NumbersTaken, UnusedNumber, FilesOk, Disjoint, Sorted, Kept, Concat,
         NumberedFrom, Relisted, LevelsData, FilesData, WellFormedData, SnapshotsInOrder;
    var job := db.job.value;
    FittingIsReady(job, db.levels);
    ReadyAreWithin(db.levels, job.level, job.inputs0, job.inputs1);
    LayersInOrderParts(db);
    InputsInLevels(db.levels, job.level, job.inputs0, job.inputs1);
  }

  lemma LayersStayInOrder(db: State, db': State)
    requires |db.levels| == NUM_LEVELS == |db'.levels| && LayersInOrder(db)
    requires db'.mem == db.mem && db'.imm == db.imm && db'.history == db.history && db'.lastSequence == db.lastSequence
    requires LevelsData(db'.levels, 0) <= LevelsData(db.levels, 0)
    ensures LayersInOrder(db')
  {
  }

  // ---------- a flush ----------

  lemma FlushKeepsJob(db: State, db': State, f: File, level: nat)
    requires Invariant(db) && FlushStep(db, db', f, level) && db.job.Some? && VersionOk(db'.levels)
    requires Newer(Elements(f.entries), LevelsData(db.levels, 0))
    ensures JobFits(db'.job.value, db'.levels)
  {
    var job := db.job.value;
    assert VersionOk(db.levels);
    hide LevelsInOrder, LayersInOrder, VersionOk, InputsReady, HoldsBase, Outside, Replaced, ClearAbove, NumbersTaken;
    AddedFileKeepsReady(db.levels, db'.levels, level, f, job.level, job.inputs0, job.inputs1);
    AddedFileHoldsBase(job.chosenFrom, db.levels, db'.levels, level, f, job.level, job.inputs0, job.inputs1);
  }

  lemma FlushKeepsNumbers(db: State, db': State, f: File, level: nat, numbers: seq<nat>)
    requires |db.levels| == NUM_LEVELS && FlushStep(db, db', f, level) && NumbersTaken(numbers, db)
    ensures NumbersTaken(numbers, db')
  {
    AddedToLevels(db.levels, db'.levels, level, f);
  }

  /** A flush moves the entries of the immutable memtable to a file. */
  lemma FlushedLayers(db: State, db': State, f: File, level: nat)
    requires Invariant(db) && FlushStep(db, db', f, level)
    ensures FilesInOrder(db') && LayersInOrder(db') && SnapshotsInOrder(db') && ReadsAgree(db')
    ensures Newer(Elements(f.entries), LevelsData(db.levels, 0))
  {
    hide JobFits, NumbersTaken, LevelsInOrder, ClearAbove, Outside, InputsReady;
    NewerParts(db.mem + db.imm, LevelsData(db.levels, 0), db.imm, LevelsData(db.levels, 0));
    AddedFileInOrder(db.levels, db'.levels, level, f);
    assert Data(db') == Data(db);
    assert LevelsData(db'.levels, 0) == LevelsData(db.levels, 0) + db.imm;
    hide FileOk, SameReads, UnusedNumber;
    assert LayersInOrder(db') && FilesInOrder(db') && SnapshotsInOrder(db') && ReadsAgree(db');
  }

  lemma FlushKeepsInvariant(db: State, db': State, f: File, level: nat)
    requires Invariant(db) && FlushStep(db, db', f, level)
    ensures Invariant(db')
  {
    hide FilesInOrder, LayersInOrder, SnapshotsInOrder, ReadsAgree, LevelsInOrder, JobFits, NumbersTaken, VersionOk;
    hide Outside, ClearAbove, FileOk, Replaced, UnusedNumber;
    FlushedLayers(db, db', f, level);
    if db.job.Some? {
      assert VersionOk(db'.levels) by { FilesAreOk(db'); }
      FlushKeepsJob(db, db', f, level);
      FlushKeepsNumbers(db, db', f, level, db.job.value.numbers);
    }
  }

  lemma FilesAreOk(db: State)
    requires FilesInOrder(db)
    ensures VersionOk(db.levels)
  {
  }

  // ---------- the machine ----------

  lemma StepKeepsInvariant(db: State, db': State)
    requires Invariant(db) && Step(db, db')
    ensures Invariant(db')
  {
    hide FilesInOrder, LayersInOrder, SnapshotsInOrder, PendingInOrder, ReadsAgree;
    if batch :| WriteStep(db, db', batch) {
      WriteKeepsInvariant(db, db', batch);
    } else if SwitchMemTableStep(db, db') {
      SwitchKeepsInvariant(db, db');
    } else if f, level :| FlushStep(db, db', f, level) {
      FlushKeepsInvariant(db, db', f, level);
    } else if level, inputs0, inputs1 :| BeginCompactionStep(db, db', level, inputs0, inputs1) {
      BeginCompactionKeepsInvariant(db, db', level, inputs0, inputs1);
    } else if outputs, input :| InstallStep(db, db', outputs, input) {
      InstallKeepsInvariant(db, db', outputs, input);
    } else if level, f :| TrivialMoveStep(db, db', level, f) {
      TrivialMoveKeepsInvariant(db, db', level, f);
    } else {
      SmallStepKeepsInvariant(db, db');
    }
  }

  /** Steps that touch neither entries nor files. */
  ghost predicate SmallStep(db: State, db': State) {
    || BeginFlushStep(db, db') || AbandonFlushStep(db, db')
    || OpenOutputStep(db, db') || AbandonCompactionStep(db, db')
    || SpendNumbersStep(db, db')
    || TakeSnapshotStep(db, db') || (exists i :: ReleaseSnapshotStep(db, db', i))
  }

  lemma SmallStepKeepsInvariant(db: State, db': State)
    requires Invariant(db) && SmallStep(db, db')
    ensures Invariant(db')
  {
    SmallStepKeepsData(db, db');
    SnapshotsStayInOrder(db, db');
    PendingStaysInOrder(db, db');
    hide SmallStep, FilesInOrder, LayersInOrder, ReadsAgree;
    SameFilesAndLayers(db, db');
  }

  lemma SmallStepKeepsData(db: State, db': State)
    requires SmallStep(db, db')
    ensures db'.mem == db.mem && db'.imm == db.imm && db'.levels == db.levels && db'.history == db.history
    ensures db'.lastSequence == db.lastSequence && db'.horizon == db.horizon && db'.nextNumber >= db.nextNumber
  {
  }

  lemma PendingStaysInOrder(db: State, db': State)
    requires |db.levels| == NUM_LEVELS
    requires FilesInOrder(db) && SnapshotsInOrder(db) && PendingInOrder(db) && SmallStep(db, db')
    ensures PendingInOrder(db')
  {
    hide LevelsInOrder, JobFits;
    if i: nat :| ReleaseSnapshotStep(db, db', i) {
      assert forall s :: s in db'.snapshots ==> s in db.snapshots;
    } else if OpenOutputStep(db, db') {
      OpenedNumberIsTaken(db, db');
      RenumberedFits(db.job.value, db.levels, db'.job.value.numbers);
    }
  }

  lemma RenumberedFits(job: Job, levels: seq<seq<File>>, numbers: seq<nat>)
    requires JobFits(job, levels)
    ensures JobFits(job.(numbers := numbers), levels)
  {
    hide InputsReady, HoldsBase, VersionOk;
  }

  lemma OpenedNumberIsTaken(db: State, db': State)
    requires |db.levels| == NUM_LEVELS && FilesInOrder(db) && PendingInOrder(db) && OpenOutputStep(db, db')
    ensures NumbersTaken(db'.job.value.numbers, db')
  {
    hide LevelsInOrder, JobFits;
    var numbers := db.job.value.numbers;
    assert forall i :: 0 <= i < |numbers| ==> numbers[i] in numbers;
    forall l, f | 0 <= l < |db'.levels| && f in db'.levels[l] ensures f.number !in db'.job.value.numbers {
      assert f in db.levels[l];
    }
  }

  lemma SnapshotsStayInOrder(db: State, db': State)
    requires SnapshotsInOrder(db) && SmallStep(db, db')
    ensures SnapshotsInOrder(db')
  {
    assert forall k :: 0 <= k < |db.snapshots| ==> db.snapshots[k] in db.snapshots;
    if i: nat :| ReleaseSnapshotStep(db, db', i) {
      RemovingKeepsOrder(db.snapshots, i);
    }
  }

  lemma RemovingKeepsOrder(list: seq<Sequence>, i: nat)
    requires i < |list| && forall a, b :: 0 <= a < b < |list| ==> list[a] <= list[b]
    ensures var rest := list[..i] + list[i+1..];
      && (forall s :: s in rest ==> s in list)
      && (forall a, b :: 0 <= a < b < |rest| ==> rest[a] <= rest[b])
  {
    var rest := list[..i] + list[i+1..];
    forall k | 0 <= k < |rest| ensures rest[k] == list[if k < i then k else k + 1] {
    }
  }

  // ---------- whole runs ----------

  ghost predicate IsRun(run: seq<State>) {
    && |run| > 0 && Init(run[0])
    && (forall i :: 0 <= i < |run| ==> |run[i].levels| == NUM_LEVELS)
    && (forall i :: 0 <= i < |run| - 1 ==> Step(run[i], run[i+1]))
  }

  lemma EmptyLevelsInOrder(levels: seq<seq<File>>)
    requires |levels| == NUM_LEVELS && forall l :: 0 <= l < NUM_LEVELS ==> levels[l] == []
    ensures LevelsInOrder(levels)
  {
  }

  lemma InitHasInvariant(db: State)
    requires Init(db)
    ensures Invariant(db)
  {
    EmptyLevelsInOrder(db.levels);
    hide LevelsInOrder, UnusedNumber, JobFits;
    assert Data(db) == {};
    forall u ensures SameReads(Data(db), db.history, u, db.horizon) {
    }
  }

  lemma {:induction false} RunKeepsInvariant(run: seq<State>, i: nat)
    requires IsRun(run) && i < |run|
    ensures Invariant(run[i])
  {
    if i == 0 {
      InitHasInvariant(run[0]);
    } else {
      RunKeepsInvariant(run, i - 1);
      assert Step(run[i-1], run[i-1+1]);
      StepKeepsInvariant(run[i-1], run[i]);
    }
  }

  /** At every point of every run, a read at a live snapshot, or at the latest sequence number, returns what the
      history of all writes says. */
  lemma ReadsFollowHistory(run: seq<State>, i: nat, u: UserKey, s: Sequence)
    requires IsRun(run) && i < |run|
    requires s in run[i].snapshots || s == run[i].lastSequence
    ensures Lookup(Data(run[i]), u, s) == Lookup(run[i].history, u, s)
  {
    RunKeepsInvariant(run, i);
    assert SameReads(Data(run[i]), run[i].history, u, run[i].horizon);
  }

  lemma StepGrowsHistory(db: State, db': State)
    requires |db.levels| == NUM_LEVELS && Step(db, db')
    ensures db.history <= db'.history && db.lastSequence <= db'.lastSequence
    ensures forall e :: e in db'.history && e !in db.history ==> e.key.sequence > db.lastSequence
  {
  }

  lemma {:induction false} HistoryOnlyGrows(run: seq<State>, i: nat, j: nat)
    requires IsRun(run) && i <= j < |run|
    ensures run[i].history <= run[j].history && run[i].lastSequence <= run[j].lastSequence
    ensures forall e :: e in run[j].history && e !in run[i].history ==> e.key.sequence > run[i].lastSequence
    decreases j
  {
    hide Step, Init;
    if i < j {
      HistoryOnlyGrows(run, i, j - 1);
      assert Step(run[j-1], run[j-1+1]);
      StepGrowsHistory(run[j-1], run[j]);
    }
  }

  /** Whatever writes, flushes and compactions happen in between, a snapshot keeps returning the same answers. */
  lemma SnapshotIsFrozen(run: seq<State>, i: nat, j: nat, u: UserKey, s: Sequence)
    requires IsRun(run) && i <= j < |run|
    requires s in run[i].snapshots && s in run[j].snapshots
    ensures Lookup(Data(run[j]), u, s) == Lookup(Data(run[i]), u, s)
  {
    ReadsFollowHistory(run, i, u, s);
    ReadsFollowHistory(run, j, u, s);
    RunKeepsInvariant(run, i);
    RunKeepsInvariant(run, j);
    HistoryOnlyGrows(run, i, j);
    SameReadableSameLookup(run[i].history, run[j].history, u, s);
  }
}
