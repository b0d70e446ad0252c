/** The iterator under a database iterator (db/db_impl.cc, NewInternalIterator; db/version_set.cc, AddIterators): the
    memtables, every file of level 0 and one concatenation for each deeper level, merged. */
module InternalIterators {
  import opened Keys
  import opened Visibility
  import opened Versions
  import opened Compactions
  import opened LevelMoves
  import opened Merger
  import opened TwoLevel
  import opened Database
  import Background
  import DbIters

  /** LevelFileNumIterator: one entry for each file, its largest key with what names the file. */
  function LevelIndex(files: seq<File>, nameOf: File -> Bytes): (r: seq<Entry>)
    ensures |r| == |files|
  {
    seq(|files|, i requires 0 <= i < |files| => Entry(files[i].largest, nameOf(files[i])))
  }

  /** Opening a file by its name gives the file's entries. */
  ghost predicate Opens(files: seq<File>, nameOf: File -> Bytes, open: Bytes -> seq<Entry>) {
    forall f :: f in files ==> open(nameOf(f)) == f.entries
  }

  /** The largest keys of a sorted level bound its files as an index bounds its blocks. */
  lemma LevelBounds(files: seq<File>, nameOf: File -> Bytes, open: Bytes -> seq<Entry>)
    requires FilesOk(files) && Disjoint(files) && Opens(files, nameOf, open)
    ensures Bounds(LevelIndex(files, nameOf), open)
  {
    hide Sorted, Less, FileOk;
    var index := LevelIndex(files, nameOf);
    IndexSorted(files, nameOf);
    forall i | 0 <= i < |files| ensures open(index[i].value) == files[i].entries && Sorted(files[i].entries) {
      assert files[i] in files;
      OwnEntriesSorted(files[i]);
    }
    forall i, e | 0 <= i < |files| && e in files[i].entries
      ensures AtMost(e.key, index[i].key) && (i > 0 ==> Less(index[i-1].key, e.key))
    {
      EntryAfterIndex(files, i, e);
    }
  }

  lemma OwnEntriesSorted(f: File)
    requires FileOk(f)
    ensures Sorted(f.entries)
  {
  }

  lemma IndexSorted(files: seq<File>, nameOf: File -> Bytes)
    requires FilesOk(files) && Disjoint(files)
    ensures Sorted(LevelIndex(files, nameOf))
  {
    forall i, j | 0 <= i < j < |files| ensures Less(files[i].largest, files[j].largest) {
      EntryWithinFile(files[j], files[j].entries[0]);
    }
  }

  lemma EntryAfterIndex(files: seq<File>, i: nat, e: Entry)
    requires FilesOk(files) && Disjoint(files) && i < |files| && e in files[i].entries
    ensures AtMost(e.key, files[i].largest) && (i > 0 ==> Less(files[i-1].largest, e.key))
  {
    EntryWithinFile(files[i], e);
  }

  /** Behind it stand the entries of the files, one file after the other. */
  lemma {:induction false} LevelFlat(files: seq<File>, nameOf: File -> Bytes, open: Bytes -> seq<Entry>, n: nat)
    requires Opens(files, nameOf, open) && n <= |files|
    ensures Flat(LevelIndex(files, nameOf), open, n) == Concat(files[..n])
  {
    if n > 0 {
      LevelFlat(files, nameOf, open, n - 1);
      assert files[..n][..n-1] == files[..n-1];
      assert files[n-1] in files;
    }
  }

  function ZeroRuns(files: seq<File>): seq<seq<Entry>> {
    seq(|files|, i requires 0 <= i < |files| => files[i].entries)
  }

  /** The concatenating iterators; a level without files adds nothing. */
  function LevelRuns(levels: seq<seq<File>>, nameOf: File -> Bytes, open: Bytes -> seq<Entry>): seq<seq<Entry>>
    requires |levels| == NUM_LEVELS
  {
    seq(NUM_LEVELS - 1, i requires 0 <= i < NUM_LEVELS - 1 =>
      Flat(LevelIndex(levels[i+1], nameOf), open, |levels[i+1]|))
  }

  function Runs(mem: seq<Entry>, imm: seq<Entry>, levels: seq<seq<File>>, nameOf: File -> Bytes,
                open: Bytes -> seq<Entry>): seq<seq<Entry>>
    requires |levels| == NUM_LEVELS
  {
    [mem, imm] + (ZeroRuns(levels[0]) + LevelRuns(levels, nameOf, open))
  }

  lemma LevelRun(levels: seq<seq<File>>, nameOf: File -> Bytes, open: Bytes -> seq<Entry>, l: nat)
    requires VersionOk(levels) && 1 <= l < NUM_LEVELS && Opens(levels[l], nameOf, open)
    ensures var run := LevelRuns(levels, nameOf, open)[l-1]; Sorted(run) && Elements(run) == FilesData(levels[l])
  {
    var files := levels[l];
    assert FilesOk(files) && Disjoint(files);
    assert LevelRuns(levels, nameOf, open)[l-1] == Flat(LevelIndex(files, nameOf), open, |files|);
    hide VersionOk, FilesOk, Disjoint, Bounds, LevelRuns, LevelIndex, Flat, Opens;
    LevelBounds(files, nameOf, open);
    FlatSorted(LevelIndex(files, nameOf), open, |files|);
    LevelFlat(files, nameOf, open, |files|);
    assert files[..|files|] == files;
    ConcatData(files);
  }

  lemma AgesApart(a: seq<Entry>, b: seq<Entry>)
    requires Newer(Elements(a), Elements(b)) || Newer(Elements(b), Elements(a))
    ensures NoSharedKey(a, b)
  {
    forall i, j | 0 <= i < |a| && 0 <= j < |b| ensures a[i].key != b[j].key {
      assert a[i] in Elements(a) && b[j] in Elements(b);
    }
  }

  /** The runs over the files merge, and together hold what the levels hold. */
  lemma FileRunsMerge(levels: seq<seq<File>>, nameOf: File -> Bytes, open: Bytes -> seq<Entry>)
    requires VersionOk(levels) && AgeOrdered(levels)
    requires forall l :: 1 <= l < NUM_LEVELS ==> Opens(levels[l], nameOf, open)
    ensures Mergeable(ZeroRuns(levels[0]) + LevelRuns(levels, nameOf, open))
    ensures forall e :: e in LevelsData(levels, 0) <==>
              exists i :: 0 <= i < |ZeroRuns(levels[0]) + LevelRuns(levels, nameOf, open)|
                          && e in (ZeroRuns(levels[0]) + LevelRuns(levels, nameOf, open))[i]
  {
    var zero, deep := ZeroRuns(levels[0]), LevelRuns(levels, nameOf, open);
    var runs, n := zero + deep, |levels[0]|;
    forall i | 0 <= i < |runs|
      ensures Sorted(runs[i]) && Elements(runs[i]) == RunData(levels, i) <= FilesData(levels[RunLevel(levels, i)])
    {
      RunOfFiles(levels, nameOf, open, i);
    }
    hide VersionOk, AgeOrdered, ZeroRuns, LevelRuns, FilesData, NoSharedKey, Opens;
    forall i, j | 0 <= i < j < |runs| ensures NoSharedKey(runs[i], runs[j]) {
      RunsByAge(levels, i, j);
      AgesApart(runs[i], runs[j]);
    }
    forall e ensures e in LevelsData(levels, 0) <==> exists i :: 0 <= i < |runs| && e in runs[i] {
      RunsCover(levels, e);
      assert forall i :: 0 <= i < |runs| ==> (e in runs[i] <==> e in Elements(runs[i]));
    }
  }

  /** The level a run over files belongs to. */
  function RunLevel(levels: seq<seq<File>>, i: nat): nat
    requires |levels| == NUM_LEVELS && i < |levels[0]| + NUM_LEVELS - 1
  {
    if i < |levels[0]| then 0 else i - |levels[0]| + 1
  }

  ghost function RunData(levels: seq<seq<File>>, i: nat): set<Entry>
    requires |levels| == NUM_LEVELS && i < |levels[0]| + NUM_LEVELS - 1
  {
    if i < |levels[0]| then Elements(levels[0][i].entries) else FilesData(levels[RunLevel(levels, i)])
  }

  lemma RunOfFiles(levels: seq<seq<File>>, nameOf: File -> Bytes, open: Bytes -> seq<Entry>, i: nat)
    requires VersionOk(levels) && i < |levels[0]| + NUM_LEVELS - 1
    requires forall l :: 1 <= l < NUM_LEVELS ==> Opens(levels[l], nameOf, open)
    ensures var run := (ZeroRuns(levels[0]) + LevelRuns(levels, nameOf, open))[i];
      Sorted(run) && Elements(run) == RunData(levels, i) <= FilesData(levels[RunLevel(levels, i)])
  {
    if i < |levels[0]| {
      assert levels[0][i] in levels[0] && FileOk(levels[0][i]);
    } else {
      LevelRun(levels, nameOf, open, RunLevel(levels, i));
    }
  }

  lemma RunsByAge(levels: seq<seq<File>>, i: nat, j: nat)
    requires AgeOrdered(levels) && i < j < |levels[0]| + NUM_LEVELS - 1
    ensures Newer(RunData(levels, i), RunData(levels, j)) || Newer(RunData(levels, j), RunData(levels, i))
  {
    if j < |levels[0]| {
      var f, g := levels[0][i], levels[0][j];
      assert f in levels[0] && g in levels[0] && f.number != g.number;
    } else {
      var a, b := RunLevel(levels, i), RunLevel(levels, j);
      if i < |levels[0]| {
        assert levels[0][i] in levels[0];
      }
      NewerParts(FilesData(levels[a]), FilesData(levels[b]), RunData(levels, i), RunData(levels, j));
    }
  }

  lemma RunsCover(levels: seq<seq<File>>, e: Entry)
    requires |levels| == NUM_LEVELS
    ensures e in LevelsData(levels, 0) <==> exists i :: 0 <= i < |levels[0]| + NUM_LEVELS - 1 && e in RunData(levels, i)
  {
    if e in LevelsData(levels, 0) {
      var l :| 0 <= l < NUM_LEVELS && e in FilesData(levels[l]);
      if l == 0 {
        var f: File :| f in levels[0] && e in f.entries;
        var i :| 0 <= i < |levels[0]| && levels[0][i] == f;
        assert e in RunData(levels, i);
      } else {
        assert e in RunData(levels, |levels[0]| + l - 1);
      }
    }
    if i :| 0 <= i < |levels[0]| + NUM_LEVELS - 1 && e in RunData(levels, i) {
      assert e in FilesData(levels[RunLevel(levels, i)]) by {
        if i < |levels[0]| {
          assert levels[0][i] in levels[0];
        }
      }
    }
  }

  lemma MemTablesMerge(mem: seq<Entry>, imm: seq<Entry>, files: seq<seq<Entry>>, data: set<Entry>)
    requires Sorted(mem) && Sorted(imm) && Mergeable(files) && Newer(Elements(mem), Elements(imm))
    requires Newer(Elements(mem) + Elements(imm), data)
    requires forall e :: e in data <==> exists i :: 0 <= i < |files| && e in files[i]
    ensures Mergeable([mem, imm] + files)
  {
    hide Newer, NoSharedKey;
    AgesApart(mem, imm);
    forall i | 0 <= i < |files| ensures NoSharedKey(mem, files[i]) && NoSharedKey(imm, files[i]) {
      assert Elements(files[i]) <= data;
      NewerParts(Elements(mem) + Elements(imm), data, Elements(mem), Elements(files[i]));
      NewerParts(Elements(mem) + Elements(imm), data, Elements(imm), Elements(files[i]));
      AgesApart(mem, files[i]);
      AgesApart(imm, files[i]);
    }
  }

  lemma AgesOfLayers(db: State)
    requires Invariant(db)
    ensures VersionOk(db.levels) && AgeOrdered(db.levels)
    ensures Newer(db.mem, db.imm) && Newer(db.mem + db.imm, LevelsData(db.levels, 0))
  {
    hide JobFits, NumbersTaken, UnusedNumber, ReadsAgree;
  }

  /** All the runs merge into one sorted list of everything the database holds. */
  lemma MergedRuns(db: State, mem: seq<Entry>, imm: seq<Entry>, nameOf: File -> Bytes, open: Bytes -> seq<Entry>)
    requires Invariant(db) && Sorted(mem) && Elements(mem) == db.mem && Sorted(imm) && Elements(imm) == db.imm
    requires forall l :: 1 <= l < NUM_LEVELS ==> Opens(db.levels[l], nameOf, open)
    ensures Mergeable(Runs(mem, imm, db.levels, nameOf, open))
    ensures var merged := MergeAll(Runs(mem, imm, db.levels, nameOf, open));
      Sorted(merged) && Elements(merged) == Data(db)
  {
    assert |db.levels| == NUM_LEVELS;
    hide Invariant, ZeroRuns, LevelRuns, LevelsData, Opens, Newer, Mergeable, Sorted, MergeAll, VersionOk, AgeOrdered;
    var files := ZeroRuns(db.levels[0]) + LevelRuns(db.levels, nameOf, open);
    AgesOfLayers(db);
    FileRunsMerge(db.levels, nameOf, open);
    MemTablesMerge(mem, imm, files, LevelsData(db.levels, 0));
    MergeAllSorted([mem, imm] + files);
    RunsData(mem, imm, files, LevelsData(db.levels, 0));
  }

  lemma RunsData(mem: seq<Entry>, imm: seq<Entry>, files: seq<seq<Entry>>, data: set<Entry>)
    requires forall e :: e in data <==> exists i :: 0 <= i < |files| && e in files[i]
    ensures Elements(MergeAll([mem, imm] + files)) == Elements(mem) + Elements(imm) + data
  {
    var runs := [mem, imm] + files;
    MergeAllMembers(runs);
    forall e ensures e in MergeAll(runs) <==> e in mem || e in imm || e in data {
      if e in mem {
        assert e in runs[0];
      }
      if e in imm {
        assert e in runs[1];
      }
      if i :| 0 <= i < |files| && e in files[i] {
        assert e in runs[i+2];
      }
      if i :| 0 <= i < |runs| && e in runs[i] {
        assert i >= 2 ==> e in files[i-2];
      }
    }
  }

  /** Iterating over the database at a live snapshot lists exactly the pairs that the history of writes holds there. */
  lemma IterationFollowsHistory(db: State, mem: seq<Entry>, imm: seq<Entry>, nameOf: File -> Bytes,
                                open: Bytes -> seq<Entry>, s: Sequence, u: UserKey, v: Bytes)
    requires Invariant(db) && (s in db.snapshots || s == db.lastSequence)
    requires Sorted(mem) && Elements(mem) == db.mem && Sorted(imm) && Elements(imm) == db.imm
    requires forall l :: 1 <= l < NUM_LEVELS ==> Opens(db.levels[l], nameOf, open)
    ensures var merged := MergeAll(Runs(mem, imm, db.levels, nameOf, open));
      (u, v) in DbIters.Pairs(merged, s, |merged|) <==> Lookup(db.history, u, s) == Some(v)
  {
    assert |db.levels| == NUM_LEVELS;
    hide Runs, MergeAll, Invariant, Opens;
    MergedRuns(db, mem, imm, nameOf, open);
    Background.ListedFollowsHistory(db, MergeAll(Runs(mem, imm, db.levels, nameOf, open)), s, u, v);
  }
}
