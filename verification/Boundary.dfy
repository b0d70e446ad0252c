/** What a compaction does to reads when files outside it hold older entries of its user keys.  This version of the
    store takes no boundary files along, so such files can exist (db/version_set.cc, SetupOtherInputs).  A read goes
    level by level, so an older entry left behind at an input level is found first once the newer one has moved down. */
module Boundary {
  import opened Keys
  import opened Visibility
  import opened DropRule
  import opened Versions
  import opened VersionBuilder
  import opened CompactionInputs
  import opened Compactions
  import opened LevelMoves

  /** The newest entry of `u` at `s` is among those taken, and the newest of the rest says something else. */
  ghost predicate Disagrees(rest: set<Entry>, taken: set<Entry>, u: UserKey, s: Sequence) {
    exists i, e :: i in taken && Newest(rest + taken, u, s, i) && Newest(rest, u, s, e) && Outcome(e) != Outcome(i)
  }

  /** The newest entry of `u` at `s` is a deletion that the compaction drops, and the newest of the rest is a value. */
  ghost predicate Undeletes(rest: set<Entry>, taken: set<Entry>, u: UserKey, s: Sequence, smallestSnapshot: Sequence,
                            isBase: UserKey -> bool) {
    exists i, e :: i in taken && Newest(rest + taken, u, s, i) && Obsolete(i, smallestSnapshot, isBase)
                   && Newest(rest, u, s, e) && Outcome(e) != None
  }

  /** The reads that taking `inputs0` and `inputs1` changes: no level above knows the key, and a file left behind at
      the upper input level holds an older entry with another outcome; or no level down to there knows the key, and a
      file left behind at the lower one holds a value that a dropped deletion hid. */
  ghost predicate Exposed(levels: seq<seq<File>>, level: nat, inputs0: seq<File>, inputs1: seq<File>, u: UserKey,
                          s: Sequence, smallestSnapshot: Sequence)
    requires level + 1 < |levels|
  {
    && !Knows(Shallow(levels, level), u, s)
    && (|| Disagrees(LeftBehind(levels[level], inputs0), FilesData(inputs0), u, s)
        || (&& !Knows(FilesData(levels[level]), u, s)
            && Undeletes(LeftBehind(levels[level+1], inputs1), FilesData(inputs1), u, s, smallestSnapshot,
                         IsBase(levels, level))))
  }

  // ---------- reading two levels, as collections of entries ----------

  ghost function TwoLevels(upper: set<Entry>, lower: set<Entry>, deep: Option<Bytes>, u: UserKey, s: Sequence): Option<Bytes> {
    if Knows(upper, u, s) then Lookup(upper, u, s)
    else if Knows(lower, u, s) then Lookup(lower, u, s)
    else deep
  }

  /** What the compacted entries make of the newest input entry of `u` at `s`: it survives, unless it is an obsolete
      deletion, and then nothing of `u` survives that `s` can read. */
  ghost predicate Settled(input: set<Entry>, kept: set<Entry>, u: UserKey, s: Sequence, smallestSnapshot: Sequence,
                          isBase: UserKey -> bool) {
    && kept <= input
    && forall n :: Newest(input, u, s, n) ==> if Obsolete(n, smallestSnapshot, isBase) then !Knows(kept, u, s) else n in kept
  }

  lemma NewestKnown(data: set<Entry>, u: UserKey, s: Sequence) returns (n: Entry)
    requires OneEntryPerSequence(data) && Knows(data, u, s)
    ensures Newest(data, u, s, n) && Lookup(data, u, s) == Outcome(n)
  {
    var e :| e in data && Readable(e, u, s);
    n := NewestExists(data, u, s, e);
    LookupIsOutcome(data, u, s, n);
  }

  lemma NewestIsOne(data: set<Entry>, u: UserKey, s: Sequence, a: Entry, b: Entry)
    requires OneEntryPerSequence(data) && Newest(data, u, s, a) && Newest(data, u, s, b)
    ensures a == b
  {
  }

  /** Where the rest of the upper level knows the key, the read changes exactly when the newest entry there was taken
      and the rest disagrees. */
  lemma RestKnows(rest0: set<Entry>, in0: set<Entry>, u: UserKey, s: Sequence)
    requires OneEntryPerSequence(rest0 + in0) && Knows(rest0, u, s)
    ensures Lookup(rest0, u, s) != Lookup(rest0 + in0, u, s) <==> Disagrees(rest0, in0, u, s)
  {
    assert OneEntryPerSequence(rest0);
    var e := NewestKnown(rest0, u, s);
    assert Knows(rest0 + in0, u, s);
    var n := NewestKnown(rest0 + in0, u, s);
    if n in rest0 {
      NewestIsOne(rest0, u, s, e, n);
    }
    if i, e' :| i in in0 && Newest(rest0 + in0, u, s, i) && Newest(rest0, u, s, e') && Outcome(e') != Outcome(i) {
      NewestIsOne(rest0, u, s, e, e');
      NewestIsOne(rest0 + in0, u, s, n, i);
    }
  }

  /** Where only the taken part of the upper level knows the key, its newest entry answers as before from below. */
  lemma OnlyTakenKnows(in0: set<Entry>, rest1: set<Entry>, in1: set<Entry>, kept: set<Entry>, deep: Option<Bytes>,
                       u: UserKey, s: Sequence, smallestSnapshot: Sequence, isBase: UserKey -> bool)
    requires OneEntryPerSequence(in0 + rest1 + in1) && Newer(in0, in1) && NoSharedUser(rest1, in0)
    requires Knows(in0, u, s) && Settled(in0 + in1, kept, u, s, smallestSnapshot, isBase)
    requires isBase(u) ==> deep == None
    ensures (if Knows(rest1 + kept, u, s) then Lookup(rest1 + kept, u, s) else deep) == Lookup(in0, u, s)
  {
    assert OneEntryPerSequence(in0) && OneEntryPerSequence(rest1 + kept);
    var n := NewestKnown(in0, u, s);
    assert Newest(in0 + in1, u, s, n);
    assert forall e :: e in rest1 ==> !Readable(e, u, s);
    if n in kept {
      assert Newest(rest1 + kept, u, s, n);
      LookupIsOutcome(rest1 + kept, u, s, n);
    }
  }

  /** Where the upper level does not know the key, the read changes exactly when a dropped deletion was the newest
      entry of the lower level and the rest there has a value. */
  lemma NoneAboveKnows(in0: set<Entry>, rest1: set<Entry>, in1: set<Entry>, kept: set<Entry>, deep: Option<Bytes>,
                       u: UserKey, s: Sequence, smallestSnapshot: Sequence, isBase: UserKey -> bool)
    requires OneEntryPerSequence(in0 + rest1 + in1)
    requires !Knows(in0, u, s) && Settled(in0 + in1, kept, u, s, smallestSnapshot, isBase)
    requires isBase(u) ==> deep == None
    ensures (if Knows(rest1 + kept, u, s) then Lookup(rest1 + kept, u, s) else deep)
         != (if Knows(rest1 + in1, u, s) then Lookup(rest1 + in1, u, s) else deep)
       <==> Undeletes(rest1, in1, u, s, smallestSnapshot, isBase)
  {
    assert OneEntryPerSequence(rest1 + in1) && OneEntryPerSequence(rest1 + kept) && OneEntryPerSequence(rest1);
    if Knows(rest1 + in1, u, s) {
      var n := NewestKnown(rest1 + in1, u, s);
      UndeletesNewest(rest1, in1, u, s, n, smallestSnapshot, isBase);
      if n in rest1 {
        assert Newest(rest1 + kept, u, s, n) && Newest(rest1, u, s, n);
        LookupIsOutcome(rest1 + kept, u, s, n);
      } else {
        assert Newest(in0 + in1, u, s, n);
        if Obsolete(n, smallestSnapshot, isBase) {
          SameReadableSameLookup(rest1 + kept, rest1, u, s);
          LookupAsOutcome(rest1, u, s);
        } else {
          assert Newest(rest1 + kept, u, s, n);
          LookupIsOutcome(rest1 + kept, u, s, n);
        }
      }
    }
  }

  lemma UndeletesNewest(rest1: set<Entry>, in1: set<Entry>, u: UserKey, s: Sequence, n: Entry,
                        smallestSnapshot: Sequence, isBase: UserKey -> bool)
    requires OneEntryPerSequence(rest1 + in1) && Newest(rest1 + in1, u, s, n)
    ensures Undeletes(rest1, in1, u, s, smallestSnapshot, isBase)
       <==> n in in1 && Obsolete(n, smallestSnapshot, isBase)
            && exists e :: Newest(rest1, u, s, e) && Outcome(e) != None
  {
    forall i | Newest(rest1 + in1, u, s, i) ensures i == n {
      NewestIsOne(rest1 + in1, u, s, i, n);
    }
  }

  lemma LookupAsOutcome(data: set<Entry>, u: UserKey, s: Sequence)
    requires OneEntryPerSequence(data)
    ensures (exists e :: Newest(data, u, s, e) && Outcome(e) != None) <==> Lookup(data, u, s) != None
    ensures Lookup(data, u, s) != None ==> Knows(data, u, s)
  {
  }

  /** Reading the two levels before and after. */
  lemma TwoLevelsChange(rest0: set<Entry>, in0: set<Entry>, rest1: set<Entry>, in1: set<Entry>, kept: set<Entry>,
                        deep: Option<Bytes>, u: UserKey, s: Sequence, smallestSnapshot: Sequence,
                        isBase: UserKey -> bool)
    requires OneEntryPerSequence(rest0 + in0 + (rest1 + in1)) && Newer(rest0 + in0, rest1 + in1)
    requires NoSharedUser(rest1, in0) && Settled(in0 + in1, kept, u, s, smallestSnapshot, isBase)
    requires isBase(u) ==> deep == None
    ensures TwoLevels(rest0, rest1 + kept, deep, u, s) != TwoLevels(rest0 + in0, rest1 + in1, deep, u, s)
       <==> Disagrees(rest0, in0, u, s)
            || (!Knows(rest0 + in0, u, s) && Undeletes(rest1, in1, u, s, smallestSnapshot, isBase))
  {
    hide Settled, Undeletes, Lookup;
    assert Knows(rest0 + in0, u, s) <==> Knows(rest0, u, s) || Knows(in0, u, s) by { KnowsEither(rest0, in0, u, s); }
    assert OneEntryPerSequence(rest0 + in0) && OneEntryPerSequence(in0 + rest1 + in1);
    if Knows(rest0, u, s) {
      RestKnows(rest0, in0, u, s);
    } else {
      assert !Disagrees(rest0, in0, u, s);
      if Knows(in0, u, s) {
        assert Newer(in0, in1);
        OnlyTakenKnows(in0, rest1, in1, kept, deep, u, s, smallestSnapshot, isBase);
        SameReadableSameLookup(rest0 + in0, in0, u, s);
      } else {
        NoneAboveKnows(in0, rest1, in1, kept, deep, u, s, smallestSnapshot, isBase);
      }
    }
  }

  lemma KnowsEither(a: set<Entry>, b: set<Entry>, u: UserKey, s: Sequence)
    ensures Knows(a + b, u, s) <==> Knows(a, u, s) || Knows(b, u, s)
  {
    if e :| e in a && Readable(e, u, s) {
      assert e in a + b;
    }
    if e :| e in b && Readable(e, u, s) {
      assert e in a + b;
    }
  }

  // ---------- reading level by level ----------

  lemma {:induction false} ReadFromLevel(levels: seq<seq<File>>, levels': seq<seq<File>>, level: nat, u: UserKey,
                                         s: Sequence, from: nat)
    requires |levels| == |levels'| && from <= level <= |levels|
    requires forall l :: 0 <= l < level ==> levels'[l] == levels[l]
    requires forall l :: 0 <= l < from ==> !Knows(FilesData(levels[l]), u, s)
    ensures Knows(Shallow(levels, level), u, s) ==> LevelRead(levels', u, s, from) == LevelRead(levels, u, s, from)
    ensures !Knows(Shallow(levels, level), u, s) ==>
              LevelRead(levels, u, s, from) == LevelRead(levels, u, s, level)
              && LevelRead(levels', u, s, from) == LevelRead(levels', u, s, level)
    decreases level - from
  {
    if from == level {
      if e :| e in Shallow(levels, level) && Readable(e, u, s) {
        var l :| 0 <= l < level && e in FilesData(levels[l]);
        assert Knows(FilesData(levels[l]), u, s);
      }
    } else if e :| e in FilesData(levels[from]) && Readable(e, u, s) {
      assert e in Shallow(levels, level);
    } else {
      ReadFromLevel(levels, levels', level, u, s, from + 1);
    }
  }

  lemma {:induction false} SameDeepRead(levels: seq<seq<File>>, levels': seq<seq<File>>, u: UserKey, s: Sequence, from: nat)
    requires |levels| == |levels'| && from <= |levels|
    requires forall l :: from <= l < |levels| ==> levels'[l] == levels[l]
    ensures LevelRead(levels', u, s, from) == LevelRead(levels, u, s, from)
    decreases |levels| - from
  {
    if from < |levels| {
      SameDeepRead(levels, levels', u, s, from + 1);
    }
  }

  /** A read below the shallow levels is a read of the two levels that change, and then of those that do not. */
  lemma ReadAtLevel(levels: seq<seq<File>>, u: UserKey, s: Sequence, level: nat)
    requires level + 1 < |levels|
    ensures LevelRead(levels, u, s, level)
         == TwoLevels(FilesData(levels[level]), FilesData(levels[level+1]), LevelRead(levels, u, s, level + 2), u, s)
  {
  }

  lemma BaseReadsNothingDeeper(levels: seq<seq<File>>, level: nat, u: UserKey, s: Sequence, from: nat)
    requires VersionOk(levels) && level + 2 <= from <= NUM_LEVELS && IsBase(levels, level)(u)
    ensures LevelRead(levels, u, s, from) == None
    decreases NUM_LEVELS - from
  {
    if from < NUM_LEVELS {
      forall e | e in FilesData(levels[from]) ensures !Readable(e, u, s) {
        var f: File :| f in levels[from] && e in f.entries;
        var i :| 0 <= i < |levels[from]| && levels[from][i] == f;
        EntryWithinFile(f, e);
      }
      BaseReadsNothingDeeper(levels, level, u, s, from + 1);
    }
  }

  /** Both ways of moving files down: by rewriting their entries or as they are.  `kept` are outputs' entries that read
      as all of them do. */
  lemma ReadChange(levels: seq<seq<File>>, levels': seq<seq<File>>, level: nat, inputs0: seq<File>, inputs1: seq<File>,
                   outputs: seq<File>, kept: set<Entry>, u: UserKey, s: Sequence, smallestSnapshot: Sequence,
                   isBase: UserKey -> bool)
    requires LevelsInOrder(levels) && OneEntryPerSequence(LevelsData(levels, 0))
    requires ChosenInputs(levels, level, inputs0, inputs1)
    requires Relisted(levels, levels', level, inputs0, inputs1, outputs)
    requires Settled(FilesData(inputs0) + FilesData(inputs1), kept, u, s, smallestSnapshot, isBase)
    requires var rest0, rest1 := LeftBehind(levels[level], inputs0), LeftBehind(levels[level+1], inputs1);
      forall deep :: TwoLevels(rest0, rest1 + FilesData(outputs), deep, u, s) == TwoLevels(rest0, rest1 + kept, deep, u, s)
    requires isBase(u) ==> LevelRead(levels, u, s, level + 2) == None
    ensures LevelRead(levels', u, s, 0) != LevelRead(levels, u, s, 0)
       <==> !Knows(Shallow(levels, level), u, s)
            && (Disagrees(LeftBehind(levels[level], inputs0), FilesData(inputs0), u, s)
                || (!Knows(FilesData(levels[level]), u, s)
                    && Undeletes(LeftBehind(levels[level+1], inputs1), FilesData(inputs1), u, s, smallestSnapshot, isBase)))
  {
    hide Settled, Undeletes, Disagrees, Lookup, LevelRead, Shallow, TwoLevels, FilesData, LevelsData, LeftBehind, Newer;
    hide ChosenInputs, NoSharedUser, UniqueNumbers, SortedBySmallest, NumberedByAge, OneEntryPerSequence;
    var rest0, rest1 := LeftBehind(levels[level], inputs0), LeftBehind(levels[level+1], inputs1);
    var in0, in1 := FilesData(inputs0), FilesData(inputs1);
    assert |levels| == |levels'| && forall l :: 0 <= l < |levels| && l != level && l != level + 1 ==> levels'[l] == levels[l];
    ReadFromLevel(levels, levels', level, u, s, 0);
    if !Knows(Shallow(levels, level), u, s) {
      ReadAtLevel(levels, u, s, level);
      ReadAtLevel(levels', u, s, level);
      SameDeepRead(levels, levels', u, s, level + 2);
      ChoiceStandsApart(levels, level, inputs0, inputs1);
      ReplacedParts(levels, levels', level, inputs0, inputs1, outputs);
      assert Newer(FilesData(levels[level]), FilesData(levels[level+1]));
      OnlyTwoLevels(levels, level);
      TwoLevelsChange(rest0, in0, rest1, in1, kept, LevelRead(levels, u, s, level + 2), u, s, smallestSnapshot, isBase);
    }
  }

  lemma ReplacedParts(levels: seq<seq<File>>, levels': seq<seq<File>>, level: nat, inputs0: seq<File>,
                      inputs1: seq<File>, outputs: seq<File>)
    requires Relisted(levels, levels', level, inputs0, inputs1, outputs)
    ensures FilesData(levels[level]) == LeftBehind(levels[level], inputs0) + FilesData(inputs0)
    ensures FilesData(levels[level+1]) == LeftBehind(levels[level+1], inputs1) + FilesData(inputs1)
    ensures FilesData(levels'[level]) == LeftBehind(levels[level], inputs0)
    ensures FilesData(levels'[level+1]) == LeftBehind(levels[level+1], inputs1) + FilesData(outputs)
  {
    ReplacedData(levels[level], inputs0, [], levels'[level]);
    ReplacedData(levels[level+1], inputs1, outputs, levels'[level+1]);
    assert FilesData([]) == {};
  }

  lemma OnlyTwoLevels(levels: seq<seq<File>>, level: nat)
    requires level + 1 < |levels| && OneEntryPerSequence(LevelsData(levels, 0))
    ensures OneEntryPerSequence(FilesData(levels[level]) + FilesData(levels[level+1]))
  {
    assert FilesData(levels[level]) + FilesData(levels[level+1]) <= LevelsData(levels, 0);
  }

  // ---------- the drop rule, and the exact condition ----------

  /** The surviving entries settle every read from the smallest snapshot on. */
  lemma KeptSettles(input: seq<Entry>, u: UserKey, s: Sequence, smallestSnapshot: Sequence, isBase: UserKey -> bool)
    requires Sorted(input) && AllParse(input) && OneEntryPerSequence(Elements(input)) && smallestSnapshot <= s
    ensures Settled(Elements(input), Elements(Kept(input, |input|, smallestSnapshot, isBase)), u, s, smallestSnapshot, isBase)
  {
    hide Kept, Sorted;
    KeptMembers(input, |input|, smallestSnapshot, isBase);
    forall n | Newest(Elements(input), u, s, n)
      ensures var kept := Elements(Kept(input, |input|, smallestSnapshot, isBase));
              if Obsolete(n, smallestSnapshot, isBase) then !Knows(kept, u, s) else n in kept
    {
      var i :| 0 <= i < |input| && input[i] == n;
      NewestIsNotShadowed(Elements(input), input, smallestSnapshot, i, s);
      if Obsolete(n, smallestSnapshot, isBase) {
        forall j | 0 <= j < |input| && Readable(input[j], u, s) ensures Dropped(input, j, smallestSnapshot, isBase) {
          BehindDroppedDeletion(input, u, s, smallestSnapshot, isBase, i, j);
        }
      } else {
        forall j | 0 <= j < |input| && input[j] == n ensures !Dropped(input, j, smallestSnapshot, isBase) {
          NewestIsNotShadowed(Elements(input), input, smallestSnapshot, j, s);
        }
      }
    }
  }

  lemma BehindDroppedDeletion(input: seq<Entry>, u: UserKey, s: Sequence, smallestSnapshot: Sequence,
                              isBase: UserKey -> bool, i: nat, j: nat)
    requires Sorted(input) && AllParse(input) && i < |input| && j < |input| && smallestSnapshot <= s
    requires OneEntryPerSequence(Elements(input))
    requires Newest(Elements(input), u, s, input[i]) && Obsolete(input[i], smallestSnapshot, isBase)
    requires Readable(input[j], u, s)
    ensures Dropped(input, j, smallestSnapshot, isBase)
  {
    assert input[j] in Elements(input);
    if j < i {
      assert Less(input[j].key, input[i].key);
    } else if i < j {
      assert Less(input[i].key, input[j].key) && Less(input[j-1].key, input[j].key);
      assert i == j - 1 || Less(input[i].key, input[j-1].key);
    }
  }

  /** Whatever the compaction leaves behind at its two levels, a read at or above the smallest snapshot changes exactly
      when it is exposed. */
  lemma CompactionChangesReads(levels: seq<seq<File>>, levels': seq<seq<File>>, level: nat, inputs0: seq<File>,
                               inputs1: seq<File>, outputs: seq<File>, input: seq<Entry>, u: UserKey, s: Sequence,
                               smallestSnapshot: Sequence)
    requires LevelsInOrder(levels) && WellFormedData(LevelsData(levels, 0)) && ChosenInputs(levels, level, inputs0, inputs1)
    requires Relisted(levels, levels', level, inputs0, inputs1, outputs) && smallestSnapshot <= s
    requires Sorted(input) && Elements(input) == FilesData(inputs0) + FilesData(inputs1)
    requires Concat(outputs) == Kept(input, |input|, smallestSnapshot, IsBase(levels, level))
    ensures LevelRead(levels', u, s, 0) != LevelRead(levels, u, s, 0)
       <==> Exposed(levels, level, inputs0, inputs1, u, s, smallestSnapshot)
  {
    var isBase := IsBase(levels, level);
    assert VersionOk(levels) && level + 1 < NUM_LEVELS;
    hide LevelsInOrder, VersionOk, ChosenInputs, Relisted, Settled, Disagrees, Undeletes, LevelRead, Kept, Concat, Sorted;
    hide LeftBehind, Shallow;
    InputsAreWellFormed(levels, levels', level, inputs0, inputs1, outputs, input);
    KeptSettles(input, u, s, smallestSnapshot, isBase);
    ConcatData(outputs);
    if isBase(u) {
      BaseReadsNothingDeeper(levels, level, u, s, level + 2);
    }
    ReadChange(levels, levels', level, inputs0, inputs1, outputs, FilesData(outputs), u, s, smallestSnapshot, isBase);
  }

  lemma InputsAreWellFormed(levels: seq<seq<File>>, levels': seq<seq<File>>, level: nat, inputs0: seq<File>,
                            inputs1: seq<File>, outputs: seq<File>, input: seq<Entry>)
    requires Relisted(levels, levels', level, inputs0, inputs1, outputs) && WellFormedData(LevelsData(levels, 0))
    requires Elements(input) == FilesData(inputs0) + FilesData(inputs1)
    ensures AllParse(input) && OneEntryPerSequence(Elements(input))
  {
    assert Elements(input) <= LevelsData(levels, 0) by {
      InputsInLevels(levels, level, inputs0, inputs1);
    }
    forall i | 0 <= i < |input| ensures input[i].key.Parses() {
      assert input[i] in Elements(input);
    }
  }

  /** A file moved as it is changes exactly the reads whose newest entry it takes past an older one of another
      outcome. */
  lemma MoveChangesReads(levels: seq<seq<File>>, levels': seq<seq<File>>, level: nat, f: File, u: UserKey, s: Sequence)
    requires LevelsInOrder(levels) && WellFormedData(LevelsData(levels, 0)) && ChosenInputs(levels, level, [f], [])
    requires Relisted(levels, levels', level, [f], [], [f])
    ensures LevelRead(levels', u, s, 0) != LevelRead(levels, u, s, 0)
       <==> !Knows(Shallow(levels, level), u, s)
            && Disagrees(LeftBehind(levels[level], [f]), FilesData([f]), u, s)
  {
    hide LevelsInOrder, VersionOk, ChosenInputs, Relisted, Disagrees, LevelRead, LeftBehind, Shallow;
    assert FilesData([f]) + FilesData([]) == FilesData([f]);
    ReadChange(levels, levels', level, [f], [], [f], FilesData([f]), u, s, 0, _ => false);
  }

  /** With nothing older left behind, no read is exposed. */
  lemma NothingOlderNothingExposed(levels: seq<seq<File>>, level: nat, inputs0: seq<File>, inputs1: seq<File>, u: UserKey,
                                   s: Sequence, smallestSnapshot: Sequence)
    requires level + 1 < |levels|
    requires NoOlderLeftBehind(levels[level], inputs0) && NoOlderLeftBehind(levels[level+1], inputs1)
    ensures !Exposed(levels, level, inputs0, inputs1, u, s, smallestSnapshot)
  {
    RestIsNewer(levels[level], inputs0, u, s);
    RestIsNewer(levels[level+1], inputs1, u, s);
  }

  lemma RestIsNewer(files: seq<File>, taken: seq<File>, u: UserKey, s: Sequence)
    requires NoOlderLeftBehind(files, taken)
    ensures forall i, e :: i in FilesData(taken) && Newest(LeftBehind(files, taken), u, s, e) ==>
              !Newest(LeftBehind(files, taken) + FilesData(taken), u, s, i)
  {
    forall i, e | i in FilesData(taken) && Newest(LeftBehind(files, taken), u, s, e)
      ensures !Newest(LeftBehind(files, taken) + FilesData(taken), u, s, i)
    {
      var f: File :| f in files && f !in taken && e in f.entries;
      assert Readable(e, u, s);
    }
  }

  // ---------- a version in order where it happens ----------

  const OLDER: Entry := Entry(InternalKey(KEY, 1, TYPE_VALUE), [])
  const DELETED: Entry := Entry(InternalKey(KEY, 2, TYPE_DELETION), [])
  const NEWER: Entry := Entry(InternalKey(KEY, 2, TYPE_VALUE), [7])

  /** A table of one entry. */
  function FileOf(number: nat, e: Entry): File { File(number, 1, e.key, e.key, [e]) }

  /** A version whose level 1 holds `files`, and level 2 `below`. */
  predicate Levels(levels: seq<seq<File>>, files: seq<File>, below: seq<File>) {
    |levels| == NUM_LEVELS && levels[1] == files && levels[2] == below
    && forall l :: 0 <= l < NUM_LEVELS && l != 1 && l != 2 ==> levels[l] == []
  }

  lemma ReadOfLevels(levels: seq<seq<File>>, e: Entry, files: seq<File>, below: seq<File>, s: Sequence)
    requires Levels(levels, files, below) && e.key.user == KEY && e.key.sequence <= s && e.key.Parses()
    requires OneEntryPerSequence(FilesData(files)) && Newest(FilesData(files), KEY, s, e)
    ensures LevelRead(levels, KEY, s, 0) == Outcome(e)
  {
    assert levels[0] == [] && FilesData(levels[0]) == {};
    assert Knows(FilesData(levels[1]), KEY, s);
    LookupIsOutcome(FilesData(files), KEY, s, e);
    assert LevelRead(levels, KEY, s, 0) == LevelRead(levels, KEY, s, 1);
  }

  lemma StraddledIsInOrder(levels: seq<seq<File>>, top: Entry)
    requires Levels(levels, [FileOf(3, top), FileOf(4, OLDER)], []) && (top == DELETED || top == NEWER)
    ensures LevelsInOrder(levels) && WellFormedData(LevelsData(levels, 0))
  {
    hide VersionOk, AgeOrdered, UniqueNumbers, WellFormedData;
    StraddledIsOk(levels, top);
    StraddledAges(levels, top);
    StraddledNumbers(levels, top);
    StraddledData(levels, top);
  }

  lemma StraddledData(levels: seq<seq<File>>, top: Entry)
    requires Levels(levels, [FileOf(3, top), FileOf(4, OLDER)], []) && (top == DELETED || top == NEWER)
    ensures WellFormedData(LevelsData(levels, 0))
  {
    forall e | e in LevelsData(levels, 0) ensures e == top || e == OLDER {
      var l :| 0 <= l < NUM_LEVELS && e in FilesData(levels[l]);
      assert l == 1;
    }
  }

  lemma StraddledIsOk(levels: seq<seq<File>>, top: Entry)
    requires Levels(levels, [FileOf(3, top), FileOf(4, OLDER)], []) && (top == DELETED || top == NEWER)
    ensures VersionOk(levels) && forall l :: 0 <= l < NUM_LEVELS ==> SortedBySmallest(levels[l])
  {
  }

  lemma StraddledAges(levels: seq<seq<File>>, top: Entry)
    requires Levels(levels, [FileOf(3, top), FileOf(4, OLDER)], [])
    ensures AgeOrdered(levels)
  {
    forall i, j | 0 <= i < j < NUM_LEVELS ensures Newer(FilesData(levels[i]), FilesData(levels[j])) {
      assert levels[i] == [] || levels[j] == [];
    }
  }

  lemma StraddledNumbers(levels: seq<seq<File>>, top: Entry)
    requires Levels(levels, [FileOf(3, top), FileOf(4, OLDER)], [])
    ensures UniqueNumbers(levels)
  {
    forall l, f | 0 <= l < |levels| && f in levels[l] ensures l == 1 && (f == FileOf(3, top) || f == FileOf(4, OLDER)) {
    }
  }

  lemma FirstIsChosen(levels: seq<seq<File>>, top: Entry)
    requires Levels(levels, [FileOf(3, top), FileOf(4, OLDER)], [])
    ensures ChosenInputs(levels, 1, [FileOf(3, top)], [])
  {
    assert levels[1][0] == FileOf(3, top);
  }

  lemma DataOfFiles(top: Entry)
    ensures FilesData([FileOf(3, top), FileOf(4, OLDER)]) == {top, OLDER}
    ensures FilesData([FileOf(3, top)]) == {top} && FilesData([FileOf(4, OLDER)]) == {OLDER}
  {
    var both := [FileOf(3, top), FileOf(4, OLDER)];
    assert both[0] in both && both[1] in both && top in both[0].entries && OLDER in both[1].entries;
  }

  /** A user key straddles two files of level 1.  Compacting the first one alone is a legal choice of inputs: the
      deletion in it goes, and the older value in the other file comes back. */
  lemma BoundaryFileBringsBack(levels: seq<seq<File>>, after: seq<seq<File>>)
    requires Levels(levels, [FileOf(3, DELETED), FileOf(4, OLDER)], []) && Levels(after, [FileOf(4, OLDER)], [])
    ensures LevelsInOrder(levels) && WellFormedData(LevelsData(levels, 0))
    ensures ChosenInputs(levels, 1, [FileOf(3, DELETED)], [])
    ensures Relisted(levels, after, 1, [FileOf(3, DELETED)], [], [])
    ensures FilesData([FileOf(3, DELETED)]) == {DELETED} && Kept([DELETED], 1, 2, IsBase(levels, 1)) == []
    ensures LevelRead(levels, KEY, 2, 0) == None && LevelRead(after, KEY, 2, 0) == Some(OLDER.value)
  {
    hide LevelsInOrder, WellFormedData, ChosenInputs, Relisted, FilesData, LevelsData, LevelRead, Kept, IsBase;
    StraddledIsInOrder(levels, DELETED);
    FirstIsChosen(levels, DELETED);
    DeletionIsDropped(levels);
    FirstGoes(levels, after, DELETED, []);
    DataOfFiles(DELETED);
    ReadBefore(levels, DELETED);
    ReadAfter(after, []);
  }

  lemma ReadBefore(levels: seq<seq<File>>, top: Entry)
    requires Levels(levels, [FileOf(3, top), FileOf(4, OLDER)], []) && (top == DELETED || top == NEWER)
    ensures LevelRead(levels, KEY, 2, 0) == Outcome(top)
  {
    DataOfFiles(top);
    assert Newest({top, OLDER}, KEY, 2, top);
    ReadOfLevels(levels, top, levels[1], [], 2);
  }

  lemma ReadAfter(levels: seq<seq<File>>, below: seq<File>)
    requires Levels(levels, [FileOf(4, OLDER)], below)
    ensures LevelRead(levels, KEY, 2, 0) == Some(OLDER.value)
  {
    DataOfFiles(OLDER);
    ReadOfLevels(levels, OLDER, levels[1], below, 2);
  }

  /** With a newer value in the first file nothing is dropped, and yet moving that file down alone, or compacting it
      alone, makes reads find the older value in the other file first. */
  lemma BoundaryFileOvertakes(levels: seq<seq<File>>, after: seq<seq<File>>)
    requires Levels(levels, [FileOf(3, NEWER), FileOf(4, OLDER)], [])
    requires Levels(after, [FileOf(4, OLDER)], [FileOf(3, NEWER)])
    ensures LevelsInOrder(levels) && WellFormedData(LevelsData(levels, 0))
    ensures ChosenInputs(levels, 1, [FileOf(3, NEWER)], [])
    ensures Relisted(levels, after, 1, [FileOf(3, NEWER)], [], [FileOf(3, NEWER)])
    ensures FilesData([FileOf(3, NEWER)]) == {NEWER} && Kept([NEWER], 1, 2, IsBase(levels, 1)) == [NEWER]
    ensures LevelRead(levels, KEY, 2, 0) == Some([7]) && LevelRead(after, KEY, 2, 0) == Some(OLDER.value)
  {
    assert Kept([NEWER], 1, 2, IsBase(levels, 1)) == [NEWER] by {
      assert Kept([NEWER], 0, 2, IsBase(levels, 1)) == [];
    }
    hide LevelsInOrder, WellFormedData, ChosenInputs, Relisted, FilesData, LevelsData, LevelRead, Kept, IsBase;
    StraddledIsInOrder(levels, NEWER);
    FirstIsChosen(levels, NEWER);
    FirstGoes(levels, after, NEWER, [FileOf(3, NEWER)]);
    DataOfFiles(NEWER);
    ReadBefore(levels, NEWER);
    ReadAfter(after, [FileOf(3, NEWER)]);
  }

  lemma DeletionIsDropped(levels: seq<seq<File>>)
    requires Levels(levels, [FileOf(3, DELETED), FileOf(4, OLDER)], [])
    ensures Kept([DELETED], 1, 2, IsBase(levels, 1)) == []
  {
    assert BaseLevel(levels, 1, KEY);
    assert Dropped([DELETED], 0, 2, IsBase(levels, 1));
    assert Kept([DELETED], 0, 2, IsBase(levels, 1)) == [];
  }

  lemma FirstGoes(levels: seq<seq<File>>, after: seq<seq<File>>, top: Entry, below: seq<File>)
    requires Levels(levels, [FileOf(3, top), FileOf(4, OLDER)], []) && Levels(after, [FileOf(4, OLDER)], below)
    requires below == [] || below == [FileOf(3, top)]
    ensures Relisted(levels, after, 1, [FileOf(3, top)], [], below)
  {
    assert levels[1][0] == FileOf(3, top) && levels[1][1] == FileOf(4, OLDER) && after[1][0] == FileOf(4, OLDER);
    assert Replaced(levels[1], [FileOf(3, top)], [], after[1]);
    assert Replaced(levels[2], [], below, after[2]);
  }
}
