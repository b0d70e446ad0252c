/** The operations that make the steps of the database machine (db/db_impl.cc): reads, memtable flushes and
    compactions. */
module Background {
  import opened Keys
  import opened Visibility
  import opened Versions
  import opened VersionBuilder
  import opened CompactionInputs
  import opened Compactions
  import opened OutputCuts
  import opened DropRule
  import opened LevelMoves
  import opened Database
  import DbIters

  /** A memtable lookup: seek, then compare user keys. */
  function MemTableGet(table: seq<Entry>, u: UserKey, s: Sequence): SaverState {
    SaveValue(FirstFrom(table, SeekKey(u, s)), u)
  }

  lemma MemTableSettles(table: seq<Entry>, u: UserKey, s: Sequence)
    requires Sorted(table) && AllParse(table)
    ensures Settles(Elements(table), u, s, MemTableGet(table, u, s))
  {
    FirstFromIsNewest(table, u, s);
  }

  /** Newer layers shadow older ones. */
  lemma LayeredRead(mem: set<Entry>, imm: set<Entry>, files: set<Entry>, u: UserKey, s: Sequence,
                    inMem: SaverState, inImm: SaverState)
    requires Newer(mem, imm) && Newer(mem + imm, files) && WellFormedData(mem + imm + files)
    requires Settles(mem, u, s, inMem) && Settles(imm, u, s, inImm)
    ensures var all := Lookup(mem + imm + files, u, s);
      if inMem != StateNotFound then ResultOf(inMem) == Answer(all)
      else if inImm != StateNotFound then ResultOf(inImm) == Answer(all)
      else all == Lookup(files, u, s)
  {
    var all := mem + imm + files;
    assert all == mem + (imm + files);
    if inMem != StateNotFound {
      NewestOfNewer(mem, imm + files, u, s, inMem);
      SettledAnswer(all, u, s, inMem);
    } else if inImm != StateNotFound {
      NewestOfNewer(imm, files, u, s, inImm);
      NothingInNewer(mem, imm + files, u, s, inImm);
      SettledAnswer(all, u, s, inImm);
    } else {
      SameReadableSameLookup(files, all, u, s);
    }
  }

  /** DBImpl::Get asks the memtable, then the immutable one, then the current version.  At a live snapshot it
      returns what the history of writes says. */
  method Get(db: State, mem: seq<Entry>, imm: seq<Entry>, u: UserKey, s: Sequence,
             tableGet: (File, InternalKey) -> Option<Entry>)
    returns (r: ReadResult)
    requires Invariant(db) && (s in db.snapshots || s == db.lastSequence) && TableLookups(tableGet)
    requires Sorted(mem) && Elements(mem) == db.mem && Sorted(imm) && Elements(imm) == db.imm
    ensures r == Answer(Lookup(db.history, u, s))
  {
    assert SameReads(Data(db), db.history, u, db.horizon);
    assert WellFormedData(Data(db));
    ElementsParse(mem, Data(db));
    ElementsParse(imm, Data(db));
    MemTableSettles(mem, u, s);
    MemTableSettles(imm, u, s);
    var inMem := MemTableGet(mem, u, s);
    LayeredRead(db.mem, db.imm, LevelsData(db.levels, 0), u, s, inMem, MemTableGet(imm, u, s));
    if inMem != StateNotFound {
      return ResultOf(inMem);
    }
    var inImm := MemTableGet(imm, u, s);
    if inImm != StateNotFound {
      return ResultOf(inImm);
    }
    r := Versions.Get(db.levels, u, s, tableGet);
  }

  /** The view of a list of all entries of the database, at a live snapshot, holds exactly the pairs that the history
      of writes holds there. */
  lemma ListedFollowsHistory(db: State, entries: seq<Entry>, s: Sequence, u: UserKey, v: Bytes)
    requires Invariant(db) && (s in db.snapshots || s == db.lastSequence)
    requires Sorted(entries) && Elements(entries) == Data(db)
    ensures (u, v) in DbIters.Pairs(entries, s, |entries|) <==> Lookup(db.history, u, s) == Some(v)
  {
    hide FilesInOrder;
    assert SameReads(Data(db), db.history, u, db.horizon);
    assert WellFormedData(Data(db));
    DbIters.PairsAreReads(entries, s, u, v);
  }

  ghost function Listed(files: seq<File>): set<File> { set f | f in files }

  ghost function KnownIds(levels: seq<seq<File>>): set<(nat, nat)>
    requires |levels| == NUM_LEVELS
  {
    set l, i | 0 <= l < NUM_LEVELS && 0 <= i < |levels[l]| :: (l, levels[l][i].number)
  }

  /** With the edit applied, no two files of a sorted level overlap. */
  ghost predicate LeavesLevelsApart(levels: seq<seq<File>>, changes: FileChanges)
    requires |levels| == NUM_LEVELS
  {
    forall l, f, g :: (1 <= l < NUM_LEVELS && f in Applied(Listed(levels[l]), changes, l)
                       && g in Applied(Listed(levels[l]), changes, l) && f != g) ==> Apart(f, g)
  }

  ghost predicate AppliedFilesOk(levels: seq<seq<File>>, changes: FileChanges)
    requires |levels| == NUM_LEVELS
  {
    forall l, f :: 0 <= l < NUM_LEVELS && f in Applied(Listed(levels[l]), changes, l) ==> FileOk(f)
  }

  /** LogAndApply's new version: the level lists with the edit applied. */
  method ApplyEdit(levels: seq<seq<File>>, changes: FileChanges) returns (after: seq<seq<File>>)
    requires |levels| == NUM_LEVELS && (forall l :: 0 <= l < NUM_LEVELS ==> SortedBySmallest(levels[l]))
    requires changes.LevelsOk() && AddsFresh(changes, KnownIds(levels))
    requires LeavesLevelsApart(levels, changes) && AppliedFilesOk(levels, changes)
    ensures |after| == NUM_LEVELS
    ensures forall l :: 0 <= l < NUM_LEVELS ==> SortedBySmallest(after[l])
    ensures forall l, f :: 0 <= l < NUM_LEVELS ==> (f in after[l] <==> f in Applied(Listed(levels[l]), changes, l))
  {
    var builder := new Builder(levels);
    builder.Apply(changes);
    forall l | 1 <= l < NUM_LEVELS ensures Separated(builder.base[l], builder.added[l], builder.deleted[l]) {
      assert forall f :: Survives(builder.base[l], builder.added[l], builder.deleted[l], f) ==> f in builder.Files(l);
      forall f, g | f in builder.Files(l) && g in builder.Files(l) && BySmallest(f, g) ensures Less(f.largest, g.smallest) {
        ApartInOrder(f, g);
      }
    }
    var asserted;
    after, asserted := builder.SaveTo();
    ChecksHold(after);
    assert asserted;
  }

  lemma ChecksHold(levels: seq<seq<File>>)
    requires forall l :: 1 <= l < |levels| ==> Disjoint(levels[l])
    ensures LevelsBehind(levels)
  {
  }

  lemma ApartInOrder(f: File, g: File)
    requires FileOk(f) && FileOk(g) && (f != g ==> Apart(f, g)) && BySmallest(f, g)
    ensures Less(f.largest, g.smallest)
  {
    EntryWithinFile(f, f.entries[0]);
    EntryWithinFile(g, g.entries[0]);
  }

  lemma LargestKeysParse(levels: seq<seq<File>>)
    requires VersionOk(levels) && WellFormedData(LevelsData(levels, 0))
    ensures forall l, f :: 0 <= l < NUM_LEVELS && f in levels[l] ==> f.largest.Parses()
  {
    forall l, f | 0 <= l < NUM_LEVELS && f in levels[l] ensures f.largest.Parses() {
      assert f.entries[|f.entries|-1] in f.entries && f.entries[|f.entries|-1] in FilesData(levels[l]);
    }
  }

  lemma FlushEditFits(levels: seq<seq<File>>, level: nat, f: File, changes: FileChanges)
    requires VersionOk(levels) && level < NUM_LEVELS && FileOk(f)
    requires level > 0 ==> ClearAbove(levels, level + 1, UserRange(f.smallest, f.largest))
    requires changes == FileChanges({}, [(level, f)])
    ensures forall l :: 0 <= l < NUM_LEVELS ==>
              Applied(Listed(levels[l]), changes, l) == Listed(levels[l]) + if l == level then {f} else {}
    ensures LeavesLevelsApart(levels, changes) && AppliedFilesOk(levels, changes)
  {
    forall l: nat ensures NewFiles(changes, l) == if l == level then {f} else {} {
      assert changes.added[0] == (level, f);
    }
    forall l, g, h | 1 <= l < NUM_LEVELS && g in Listed(levels[l]) && h in Listed(levels[l]) && g != h ensures Apart(g, h) {
      DisjointIsApart(levels[l], g, h);
    }
    if level > 0 {
      ClearLevelSharesNothing(levels[level], f);
    }
  }

  /** The immutable memtable, written as a table file, goes to the level picked for it, unless there was nothing to
      write, building the table or logging the edit failed, or the database is shutting down. */
  method CompactMemTable(db: State, imm: seq<Entry>, tableSize: nat, built: bool, shuttingDown: bool, logged: bool)
    returns (db': State, file: Option<File>, level: nat)
    requires Invariant(db) && Sorted(imm) && Elements(imm) == db.imm && db.flush.Some?
    ensures imm != [] && built && !shuttingDown && logged ==>
              file.Some? && Flushed(db, db', file.value, level)
              && IsPick(db.levels, UserRange(file.value.smallest, file.value.largest), level)
    ensures imm == [] || !built || shuttingDown || !logged ==> file.None? && AbandonFlushStep(db, db')
  {
    if imm == [] || !built || shuttingDown || !logged {
      return db.(flush := None), None, 0;
    }
    hide LevelsInOrder, LayersInOrder, PendingInOrder, ReadsAgree, UnusedNumber, IsPick, ClearAbove, Replaced, VersionOk;
    var f := File(db.flush.value, tableSize, imm[0].key, imm[|imm|-1].key, imm);
    DataIsWellFormed(db);
    LargestKeysParse(db.levels);
    level := PickLevelForMemTableOutput(db.levels, f.smallest.user, f.largest.user);
    var levels := FlushedLevels(db, level, f);
    db' := db.(imm := {}, levels := levels, flush := None);
    file := Some(f);
  }

  lemma DataIsWellFormed(db: State)
    requires Invariant(db)
    ensures VersionOk(db.levels) && WellFormedData(LevelsData(db.levels, 0))
  {
  }

  lemma FlushParts(db: State)
    requires Invariant(db) && db.flush.Some?
    ensures |db.levels| == NUM_LEVELS && VersionOk(db.levels) && UnusedNumber(db.levels, db.flush.value)
    ensures forall l :: 0 <= l < NUM_LEVELS ==> SortedBySmallest(db.levels[l])
  {
    hide LayersInOrder, ReadsAgree, JobFits, NumbersTaken, AgeOrdered, UniqueNumbers;
  }

  lemma UnusedIsUnknown(levels: seq<seq<File>>, number: nat, level: nat)
    requires |levels| == NUM_LEVELS && UnusedNumber(levels, number)
    ensures (level, number) !in KnownIds(levels)
  {
    forall l, i | 0 <= l < NUM_LEVELS && 0 <= i < |levels[l]| ensures levels[l][i].number != number {
      assert levels[l][i] in levels[l];
    }
  }

  method FlushedLevels(db: State, level: nat, f: File) returns (levels: seq<seq<File>>)
    requires Invariant(db) && db.flush == Some(f.number) && FileOk(f)
    requires IsPick(db.levels, UserRange(f.smallest, f.largest), level)
    ensures level <= MAX_MEM_COMPACT_LEVEL
    ensures level > 0 ==> ClearAbove(db.levels, level + 1, UserRange(f.smallest, f.largest))
    ensures |levels| == NUM_LEVELS && Replaced(db.levels[level], [], [f], levels[level])
    ensures forall l :: 0 <= l < NUM_LEVELS && l != level ==> levels[l] == db.levels[l]
  {
    hide Invariant, ClearAbove, MayPass, FileOk, UnusedNumber, VersionOk, AppliedFilesOk, LeavesLevelsApart, SortedBySmallest;
    FlushParts(db);
    var changes := FileChanges({}, [(level, f)]);
    FlushEditFits(db.levels, level, f, changes);
    UnusedIsUnknown(db.levels, f.number, level);
    levels := ApplyEdit(db.levels, changes);
    forall l | 0 <= l < NUM_LEVELS && l != level ensures levels[l] == db.levels[l] {
      SortedListIsItsSet(levels[l], db.levels[l]);
    }
  }

  /** AddInputDeletions and the output files: the edit a compaction installs. */
  function CompactionEdit(level: nat, inputs0: seq<File>, inputs1: seq<File>, outputs: seq<File>): FileChanges {
    FileChanges((set f | f in inputs0 :: (level, f.number)) + (set f | f in inputs1 :: (level + 1, f.number)),
                seq(|outputs|, i requires 0 <= i < |outputs| => (level + 1, outputs[i])))
  }

  lemma CompactionEditApplied(levels: seq<seq<File>>, level: nat, inputs0: seq<File>, inputs1: seq<File>,
                              outputs: seq<File>, l: nat, f: File)
    requires |levels| == NUM_LEVELS && level + 1 < NUM_LEVELS && l < NUM_LEVELS && UniqueNumbers(levels)
    requires Within(inputs0, levels[level]) && Within(inputs1, levels[level+1])
    ensures f in Applied(Listed(levels[l]), CompactionEdit(level, inputs0, inputs1, outputs), l)
       <==> (f in levels[l] && (l == level ==> f !in inputs0) && (l == level + 1 ==> f !in inputs1))
            || (l == level + 1 && f in outputs)
  {
    var changes := CompactionEdit(level, inputs0, inputs1, outputs);
    assert f in NewFiles(changes, l) <==> l == level + 1 && f in outputs by {
      if f in outputs {
        var i :| 0 <= i < |outputs| && outputs[i] == f;
        assert changes.added[i] == (level + 1, f);
      }
    }
    if f in levels[l] {
      assert (l, f.number) in changes.deleted <==> (l == level && f in inputs0) || (l == level + 1 && f in inputs1);
    }
  }

  lemma CompactionEditFits(levels: seq<seq<File>>, level: nat, inputs0: seq<File>, inputs1: seq<File>, outputs: seq<File>)
    requires VersionOk(levels) && UniqueNumbers(levels) && level + 1 < NUM_LEVELS
    requires LeftOutside(levels[level+1], inputs0, inputs1)
    requires Within(inputs0, levels[level]) && Within(inputs1, levels[level+1])
    requires FilesOk(outputs) && Disjoint(outputs)
    requires FilesData(outputs) <= FilesData(inputs0) + FilesData(inputs1)
    ensures LeavesLevelsApart(levels, CompactionEdit(level, inputs0, inputs1, outputs))
    ensures AppliedFilesOk(levels, CompactionEdit(level, inputs0, inputs1, outputs))
  {
    var changes := CompactionEdit(level, inputs0, inputs1, outputs);
    hide CompactionEdit, LeftOutside, Applied, Within, UniqueNumbers;
    forall l, f | 0 <= l < NUM_LEVELS && f in Applied(Listed(levels[l]), changes, l) ensures FileOk(f) {
      CompactionEditApplied(levels, level, inputs0, inputs1, outputs, l, f);
    }
    forall l, f, g | 1 <= l < NUM_LEVELS && f in Applied(Listed(levels[l]), changes, l)
                     && g in Applied(Listed(levels[l]), changes, l) && f != g
      ensures Apart(f, g)
    {
      CompactionEditApplied(levels, level, inputs0, inputs1, outputs, l, f);
      CompactionEditApplied(levels, level, inputs0, inputs1, outputs, l, g);
      if l == level + 1 {
        NextLevelApart(levels, level, inputs0, inputs1, outputs, f, g);
      } else {
        DisjointIsApart(levels[l], f, g);
      }
    }
  }

  /** The edit deletes the inputs and adds the outputs one level down. */
  method InstallEdit(levels: seq<seq<File>>, level: nat, inputs0: seq<File>, inputs1: seq<File>, outputs: seq<File>)
    returns (after: seq<seq<File>>)
    requires LevelsInOrder(levels) && level + 1 < NUM_LEVELS && LeftOutside(levels[level+1], inputs0, inputs1)
    requires Within(inputs0, levels[level]) && Within(inputs1, levels[level+1])
    requires FilesOk(outputs) && Disjoint(outputs) && OutputNumbersFresh(levels, level, inputs0, outputs)
    requires forall i, j :: 0 <= i < j < |outputs| ==> outputs[i].number != outputs[j].number
    requires FilesData(outputs) <= FilesData(inputs0) + FilesData(inputs1)
    ensures Relisted(levels, after, level, inputs0, inputs1, outputs)
  {
    hide LeftOutside, AgeOrdered, FilesOk, Disjoint, OutputNumbersFresh, Within;
    CompactionEditFits(levels, level, inputs0, inputs1, outputs);
    CompactionEditIsFresh(levels, level, inputs0, inputs1, outputs);
    after := ApplyEdit(levels, CompactionEdit(level, inputs0, inputs1, outputs));
    EditRelists(levels, after, level, inputs0, inputs1, outputs);
  }

  lemma CompactionEditIsFresh(levels: seq<seq<File>>, level: nat, inputs0: seq<File>, inputs1: seq<File>,
                              outputs: seq<File>)
    requires |levels| == NUM_LEVELS && level + 1 < NUM_LEVELS && OutputNumbersFresh(levels, level, inputs0, outputs)
    requires forall i, j :: 0 <= i < j < |outputs| ==> outputs[i].number != outputs[j].number
    ensures CompactionEdit(level, inputs0, inputs1, outputs).LevelsOk()
    ensures AddsFresh(CompactionEdit(level, inputs0, inputs1, outputs), KnownIds(levels))
  {
    var known := KnownIds(levels);
    forall i | 0 <= i < |outputs| ensures (level + 1, outputs[i].number) !in known {
      assert outputs[i] in outputs;
    }
  }

  lemma EditRelists(levels: seq<seq<File>>, after: seq<seq<File>>, level: nat,
                    inputs0: seq<File>, inputs1: seq<File>, outputs: seq<File>)
    requires |levels| == NUM_LEVELS == |after| && level + 1 < NUM_LEVELS && UniqueNumbers(levels)
    requires Within(inputs0, levels[level]) && Within(inputs1, levels[level+1])
    requires forall l :: 0 <= l < NUM_LEVELS ==> SortedBySmallest(levels[l]) && SortedBySmallest(after[l])
    requires forall l, f :: 0 <= l < NUM_LEVELS ==>
               (f in after[l] <==> f in Applied(Listed(levels[l]), CompactionEdit(level, inputs0, inputs1, outputs), l))
    ensures Relisted(levels, after, level, inputs0, inputs1, outputs)
  {
    hide CompactionEdit, Applied, UniqueNumbers, SortedBySmallest;
    forall l: nat, f: File | l < NUM_LEVELS
      ensures f in after[l] <==> (f in levels[l] && (l == level ==> f !in inputs0) && (l == level + 1 ==> f !in inputs1))
                                 || (l == level + 1 && f in outputs)
    {
      CompactionEditApplied(levels, level, inputs0, inputs1, outputs, l, f);
    }
    forall l | 0 <= l < NUM_LEVELS && l != level && l != level + 1 ensures after[l] == levels[l] {
      forall f ensures f in after[l] <==> f in levels[l] {
        CompactionEditApplied(levels, level, inputs0, inputs1, outputs, l, f);
      }
      SortedListIsItsSet(after[l], levels[l]);
    }
  }

  // ---------- a compaction ----------

  /** The choice of a compaction's inputs.  It is a step of the machine whenever no older entry of their user keys is
      left behind at the two levels. */
  method BeginCompaction(db: State, level: nat, chosen: seq<File>) returns (db': State, grandparents: seq<File>)
    requires Invariant(db) && db.job == None && StartingInputs(db.levels, level, chosen)
    ensures db'.job.Some? && var job := db'.job.value;
      && ChosenInputs(db.levels, level, job.inputs0, job.inputs1) && (forall f :: f in chosen ==> f in job.inputs0)
      && (NoOlderLeftBehind(db.levels[level], job.inputs0) && NoOlderLeftBehind(db.levels[level+1], job.inputs1)
          ==> BeginCompactionStep(db, db', level, job.inputs0, job.inputs1))
    ensures var job := db'.job.value;
      && db' == db.(job := Some(Job(level, job.inputs0, job.inputs1, db.levels, SmallestSnapshot(db), [])))
      && GrownIfPossible(db.levels, level, chosen, job.inputs0, job.inputs1)
      && if level + 2 < NUM_LEVELS
         then forall range :: IsHullRange(job.inputs0 + job.inputs1, range) ==> grandparents == Overlapping(db.levels[level+2], range)
         else grandparents == []
  {
    DataIsWellFormed(db);
    hide VersionOk, StartingInputs, ChosenInputs, NoOlderLeftBehind, GrownIfPossible, Overlapping, IsHullRange;
    var inputs0, inputs1, largest;
    inputs0, inputs1, grandparents, largest := SetupOtherInputs(db.levels, level, chosen);
    db' := db.(job := Some(Job(level, inputs0, inputs1, db.levels, SmallestSnapshot(db), [])));
  }

  predicate IsTrivialMove(inputs0: seq<File>, inputs1: seq<File>, grandparents: seq<File>) {
    |inputs0| == 1 && |inputs1| == 0 && TotalFileSize(grandparents) <= MAX_GRANDPARENT_OVERLAP_BYTES
  }

  /** A lone input that meets nothing at the next level moves there as it is. */
  method MoveDown(db: State, level: nat, inputs0: seq<File>, inputs1: seq<File>, grandparents: seq<File>)
    returns (db': State)
    requires Invariant(db) && db.job == None
    requires ChosenInputs(db.levels, level, inputs0, inputs1) && IsTrivialMove(inputs0, inputs1, grandparents)
    ensures db' == db.(levels := db'.levels) && Relisted(db.levels, db'.levels, level, inputs0, [], inputs0)
    ensures NoOlderLeftBehind(db.levels[level], inputs0) ==> TrivialMoveStep(db, db', level, inputs0[0])
  {
    assert inputs0 == [inputs0[0]] && inputs1 == [];
    MovedFileFits(db.levels, level, inputs0[0]) by { DataIsWellFormed(db); }
    hide LevelsInOrder, ChosenInputs, NoOlderLeftBehind, Relisted, OutputNumbersFresh, LeftOutside;
    var levels := InstallEdit(db.levels, level, inputs0, inputs1, inputs0);
    db' := db.(levels := levels);
  }

  lemma MovedFileFits(levels: seq<seq<File>>, level: nat, f: File)
    requires LevelsInOrder(levels) && ChosenInputs(levels, level, [f], [])
    ensures level + 1 < NUM_LEVELS && LeftOutside(levels[level+1], [f], [])
    ensures Within([f], levels[level]) && FilesOk([f]) && Disjoint([f]) && OutputNumbersFresh(levels, level, [f], [f])
    ensures FilesData([f]) <= FilesData([f]) + FilesData([])
  {
    ChoiceStandsApart(levels, level, [f], []);
    assert f in [f];
  }

  /** A compaction that began earlier runs over its input stream and installs its outputs in the database as it is by
      then.  Its loop reads nothing of the database but the version it began with, and takes nothing from it but the
      numbers of its outputs. */
  method RunCompaction(db: State, input: seq<Entry>, grandparents: seq<File>, env: Env, logged: bool)
    returns (ok: bool, db': State, outputs: seq<File>)
    requires Invariant(db) && db.job.Some? && env.numbers == db.job.value.numbers
    requires Sorted(input) && Elements(input) == Inputs(db.job.value)
    requires db.job.value.smallestSnapshot < MAX_SEQUENCE
    ensures ok ==> InstallStep(db, db', outputs, input)
    ensures !ok ==> AbandonCompactionStep(db, db')
    ensures env.NothingFails(|input|) && logged ==> ok
    ensures ok ==> WellCut(outputs, grandparents, TARGET_FILE_SIZE, env.tableSize)
  {
    hide FilesInOrder, LayersInOrder, PendingInOrder, ReadsAgree, VersionOk, FilesOk, Disjoint, OutputNumbersFresh, WellCut;
    hide FilesData, Sorted, Relisted, OneOfEachUser, NoIdleDeletion, MustKeep, AllParse, OneEntryPerSequence, InputsReady;
    hide NumbersTaken, LevelsInOrder;
    var job := db.job.value;
    JobParts(db);
    var c := new Compaction(job.level, job.chosenFrom, grandparents);
    ok, outputs := DoCompactionWork(c, input, job.smallestSnapshot, env);
    if !ok || !logged {
      return false, db.(job := None), outputs;
    }
    OutputsData(outputs, input, job.smallestSnapshot, IsBase(job.chosenFrom, job.level));
    OutputNumbers(db, job, outputs);
    var levels := InstallCompactionResults(db, outputs);
    db' := db.(levels := levels, job := None,
               horizon := if db.horizon < job.smallestSnapshot then job.smallestSnapshot else db.horizon);
  }

  lemma JobParts(db: State)
    requires Invariant(db) && db.job.Some?
    ensures var job := db.job.value;
      && LevelsInOrder(db.levels) && VersionOk(job.chosenFrom) && job.level + 1 < NUM_LEVELS
      && NumbersTaken(job.numbers, db) && InputsReady(db.levels, job.level, job.inputs0, job.inputs1)
  {
    hide LevelsInOrder, LayersInOrder, ReadsAgree, NumbersTaken;
  }

  method InstallCompactionResults(db: State, outputs: seq<File>) returns (levels: seq<seq<File>>)
    requires Invariant(db) && db.job.Some? && NumberedFrom(outputs, db.job.value.numbers)
    requires FilesOk(outputs) && Disjoint(outputs) && FilesData(outputs) <= Inputs(db.job.value)
    ensures var job := db.job.value; Relisted(db.levels, levels, job.level, job.inputs0, job.inputs1, outputs)
  {
    var job := db.job.value;
    JobParts(db);
    OutputNumbers(db, job, outputs);
    forall i, j | 0 <= i < j < |outputs| ensures outputs[i].number != outputs[j].number {
      assert job.numbers[i] != job.numbers[j];
    }
    hide FilesInOrder, LayersInOrder, PendingInOrder, ReadsAgree, LevelsInOrder, FilesOk, Disjoint, OutputNumbersFresh;
    hide FilesData, Relisted, LeftOutside, NoOlderLeftBehind, NoSharedUser;
    levels := InstallEdit(db.levels, job.level, job.inputs0, job.inputs1, outputs);
  }
}
