/** How file lists change when files are added to a level or move down one, and what that keeps. */
module LevelMoves {
  import opened Keys
  import opened Visibility
  import opened Versions
  import opened VersionBuilder
  import opened CompactionInputs
  import opened Compactions
  import opened DropRule

  ghost predicate LevelsInOrder(levels: seq<seq<File>>) {
    && VersionOk(levels) && AgeOrdered(levels)
    && (forall l :: 0 <= l < NUM_LEVELS ==> SortedBySmallest(levels[l]))
    && UniqueNumbers(levels)
  }

  /** A file number names one file, at one level. */
  ghost predicate UniqueNumbers(levels: seq<seq<File>>) {
    forall l, k, f, g :: (0 <= l < |levels| && 0 <= k < |levels| && f in levels[l] && g in levels[k] && f.number == g.number)
                         ==> l == k && f == g
  }

  /** The list `after` is `before` without `removed` and with `added`. */
  ghost predicate Replaced(before: seq<File>, removed: seq<File>, added: seq<File>, after: seq<File>) {
    && SortedBySmallest(after)
    && forall f :: f in after <==> (f in before && f !in removed) || f in added
  }

  /** No file left behind holds, for a user key of the files taken, anything but newer entries. */
  ghost predicate NoOlderLeftBehind(files: seq<File>, taken: seq<File>) {
    forall f, e, i :: (f in files && f !in taken && e in f.entries && i in FilesData(taken) && e.key.user == i.key.user)
                      ==> e.key.sequence > i.key.sequence
  }

  ghost function Shallow(levels: seq<seq<File>>, level: nat): set<Entry>
    requires level <= |levels|
  {
    set l, e | 0 <= l < level && e in FilesData(levels[l]) :: e
  }

  /** The entries of the files that are not taken. */
  ghost function LeftBehind(files: seq<File>, taken: seq<File>): set<Entry> {
    set f, e | f in files && f !in taken && e in f.entries :: e
  }

  ghost predicate Within(files: seq<File>, level: seq<File>) {
    forall f :: f in files ==> f in level
  }

  ghost predicate NoSharedUser(a: set<Entry>, b: set<Entry>) {
    forall x, y :: x in a && y in b ==> x.key.user != y.key.user
  }

  /** Everything that stays above the compacted entries; `top` are the memtables. */
  ghost function Upper(top: set<Entry>, levels: seq<seq<File>>, level: nat, inputs0: seq<File>, inputs1: seq<File>): set<Entry>
    requires level + 1 < |levels|
  {
    top + Shallow(levels, level) + LeftBehind(levels[level], inputs0) + LeftBehind(levels[level+1], inputs1)
  }

  lemma SplitAtLevel(levels: seq<seq<File>>, level: nat)
    requires level + 1 < |levels|
    ensures LevelsData(levels, 0)
         == Shallow(levels, level) + FilesData(levels[level]) + FilesData(levels[level+1]) + LevelsData(levels, level + 2)
  {
    forall e | e in LevelsData(levels, 0)
      ensures e in Shallow(levels, level) + FilesData(levels[level]) + FilesData(levels[level+1]) + LevelsData(levels, level + 2)
    {
      var l :| 0 <= l < |levels| && e in FilesData(levels[l]);
    }
  }

  lemma ReplacedData(before: seq<File>, removed: seq<File>, added: seq<File>, after: seq<File>)
    requires Replaced(before, removed, added, after)
    ensures FilesData(after) == LeftBehind(before, removed) + FilesData(added)
    ensures Within(removed, before) ==> FilesData(before) == LeftBehind(before, removed) + FilesData(removed)
  {
  }

  /** The two lists that change, and the rest that does not. */
  ghost predicate Relisted(levels: seq<seq<File>>, levels': seq<seq<File>>, level: nat,
                           inputs0: seq<File>, inputs1: seq<File>, outputs: seq<File>) {
    && level + 1 < |levels| == |levels'|
    && Within(inputs0, levels[level]) && Within(inputs1, levels[level+1])
    && Replaced(levels[level], inputs0, [], levels'[level])
    && Replaced(levels[level+1], inputs1, outputs, levels'[level+1])
    && (forall l :: 0 <= l < |levels| && l != level && l != level + 1 ==> levels'[l] == levels[l])
  }

  /** What choosing the inputs guarantees about the files around them. */
  lemma ChoiceStandsApart(levels: seq<seq<File>>, level: nat, inputs0: seq<File>, inputs1: seq<File>)
    requires VersionOk(levels) && ChosenInputs(levels, level, inputs0, inputs1)
    ensures Within(inputs0, levels[level]) && Within(inputs1, levels[level+1])
    ensures LeftOutside(levels[level+1], inputs0, inputs1)
    ensures NoSharedUser(LeftBehind(levels[level+1], inputs1), FilesData(inputs0))
  {
    LeftOutsideTheHull(levels, level, inputs0, inputs1);
    var smallest, largest := HullOf(inputs0);
    var range := UserRange(smallest, largest);
    assert IsHullRange(inputs0, range);
    assert inputs1 == Overlapping(levels[level+1], range);
    LeftBehindSharesNothing(levels[level], levels[level+1], inputs0, smallest, largest);
  }

  lemma LeftBehindSharesNothing(level: seq<File>, next: seq<File>, inputs0: seq<File>, smallest: InternalKey, largest: InternalKey)
    requires FilesOk(level) && FilesOk(next) && Within(inputs0, level) && IsHull(inputs0, smallest, largest)
    ensures NoSharedUser(LeftBehind(next, Overlapping(next, UserRange(smallest, largest))), FilesData(inputs0))
  {
    var range := UserRange(smallest, largest);
    forall x, y | x in LeftBehind(next, Overlapping(next, range)) && y in FilesData(inputs0)
      ensures x.key.user != y.key.user
    {
      var f: File :| f in next && f !in Overlapping(next, range) && x in f.entries;
      var g: File :| g in inputs0 && y in g.entries;
      OutsideRange(f, x, g, y, smallest, largest);
    }
  }

  lemma OutsideRange(f: File, x: Entry, g: File, y: Entry, smallest: InternalKey, largest: InternalKey)
    requires FileOk(f) && FileOk(g) && x in f.entries && y in g.entries
    requires !UserRange(smallest, largest).Overlaps(f)
    requires AtMost(smallest, g.smallest) && AtMost(g.largest, largest)
    ensures x.key.user != y.key.user
  {
    EntryWithinFile(f, x);
    EntryWithinFile(g, y);
  }

  lemma DataByParts(top: set<Entry>, levels: seq<seq<File>>, level: nat,
                    rest0: set<Entry>, in0: set<Entry>, rest1: set<Entry>, in1: set<Entry>)
    requires level + 1 < |levels|
    requires FilesData(levels[level]) == rest0 + in0 && FilesData(levels[level+1]) == rest1 + in1
    ensures top + LevelsData(levels, 0)
         == (top + Shallow(levels, level) + rest0 + rest1) + (in0 + in1) + LevelsData(levels, level + 2)
  {
    SplitAtLevel(levels, level);
    Regroup(top, Shallow(levels, level), rest0, in0, rest1, in1, LevelsData(levels, level + 2));
  }

  lemma Regroup<T>(top: set<T>, shallow: set<T>, rest0: set<T>, in0: set<T>, rest1: set<T>, in1: set<T>, deep: set<T>)
    ensures top + (shallow + (rest0 + in0) + (rest1 + in1) + deep) == (top + shallow + rest0 + rest1) + (in0 + in1) + deep
  {
  }

  lemma DataBefore(top: set<Entry>, levels: seq<seq<File>>, levels': seq<seq<File>>, level: nat,
                   inputs0: seq<File>, inputs1: seq<File>, outputs: seq<File>)
    requires Relisted(levels, levels', level, inputs0, inputs1, outputs)
    ensures top + LevelsData(levels, 0) == Upper(top, levels, level, inputs0, inputs1)
              + (FilesData(inputs0) + FilesData(inputs1)) + LevelsData(levels, level + 2)
  {
    ReplacedData(levels[level], inputs0, [], levels'[level]);
    ReplacedData(levels[level+1], inputs1, outputs, levels'[level+1]);
    DataByParts(top, levels, level, LeftBehind(levels[level], inputs0), FilesData(inputs0),
                LeftBehind(levels[level+1], inputs1), FilesData(inputs1));
  }

  lemma DataAfter(top: set<Entry>, levels: seq<seq<File>>, levels': seq<seq<File>>, level: nat,
                  inputs0: seq<File>, inputs1: seq<File>, outputs: seq<File>)
    requires Relisted(levels, levels', level, inputs0, inputs1, outputs)
    ensures top + LevelsData(levels', 0) == Upper(top, levels, level, inputs0, inputs1)
              + FilesData(outputs) + LevelsData(levels, level + 2)
  {
    ReplacedData(levels[level], inputs0, [], levels'[level]);
    ReplacedData(levels[level+1], inputs1, outputs, levels'[level+1]);
    assert FilesData([]) == {};
    DataByParts(top, levels', level, LeftBehind(levels[level], inputs0), {},
                LeftBehind(levels[level+1], inputs1), FilesData(outputs));
    SameElsewhere(levels, levels', level);
    assert {} + FilesData(outputs) == FilesData(outputs);
  }

  lemma SameElsewhere(levels: seq<seq<File>>, levels': seq<seq<File>>, level: nat)
    requires level + 1 < |levels| == |levels'|
    requires forall l :: 0 <= l < |levels| && l != level && l != level + 1 ==> levels'[l] == levels[l]
    ensures Shallow(levels', level) == Shallow(levels, level)
    ensures LevelsData(levels', level + 2) == LevelsData(levels, level + 2)
  {
  }

  /** What the compacted entries need from the data around them. */
  ghost predicate InputsOnTop(top: set<Entry>, levels: seq<seq<File>>, level: nat, inputs0: seq<File>, inputs1: seq<File>)
    requires level + 1 < |levels|
  {
    && AgeOrdered(levels) && Newer(top, LevelsData(levels, 0))
    && Within(inputs0, levels[level]) && Within(inputs1, levels[level+1])
    && NoOlderLeftBehind(levels[level], inputs0) && NoOlderLeftBehind(levels[level+1], inputs1)
    && NoSharedUser(LeftBehind(levels[level+1], inputs1), FilesData(inputs0))
  }

  lemma UpperIsNewer(top: set<Entry>, levels: seq<seq<File>>, level: nat, inputs0: seq<File>, inputs1: seq<File>)
    requires level + 1 < |levels| && InputsOnTop(top, levels, level, inputs0, inputs1)
    ensures Newer(Upper(top, levels, level, inputs0, inputs1), FilesData(inputs0) + FilesData(inputs1))
  {
    var in0, in1 := FilesData(inputs0), FilesData(inputs1);
    InputsInLevels(levels, level, inputs0, inputs1);
    ShallowIsNewer(levels, level);
    assert Newer(top, in0 + in1);
    assert Newer(Shallow(levels, level), in0 + in1);
    assert Newer(LeftBehind(levels[level], inputs0), in0 + in1) by {
      assert LeftBehind(levels[level], inputs0) <= FilesData(levels[level]);
      assert Newer(FilesData(levels[level]), FilesData(levels[level+1]));
    }
    assert Newer(LeftBehind(levels[level+1], inputs1), in0 + in1);
  }

  lemma InputsInLevels(levels: seq<seq<File>>, level: nat, inputs0: seq<File>, inputs1: seq<File>)
    requires level + 1 < |levels| && Within(inputs0, levels[level]) && Within(inputs1, levels[level+1])
    ensures FilesData(inputs0) <= FilesData(levels[level]) <= LevelsData(levels, 0)
    ensures FilesData(inputs1) <= FilesData(levels[level+1]) <= LevelsData(levels, 0)
  {
  }

  lemma ShallowIsNewer(levels: seq<seq<File>>, level: nat)
    requires AgeOrdered(levels) && level + 1 < NUM_LEVELS
    ensures Newer(Shallow(levels, level), FilesData(levels[level]) + FilesData(levels[level+1]))
  {
    forall l | 0 <= l < level
      ensures Newer(FilesData(levels[l]), FilesData(levels[level])) && Newer(FilesData(levels[l]), FilesData(levels[level+1]))
    {
    }
  }

  /** Whatever lies more than one level below the compaction was seen by `chosenFrom` to cover its user keys. */
  ghost predicate HoldsBase(chosenFrom: seq<seq<File>>, levels: seq<seq<File>>, level: nat, data: set<Entry>)
    requires level + 2 <= |levels|
  {
    forall d, x :: d in LevelsData(levels, level + 2) && x in data && d.key.user == x.key.user
                   ==> !IsBase(chosenFrom, level)(d.key.user)
  }

  lemma DeeperIsNotBase(levels: seq<seq<File>>, level: nat, data: set<Entry>)
    requires VersionOk(levels)
    requires level + 1 < NUM_LEVELS
    ensures HoldsBase(levels, levels, level, data)
  {
    forall d | d in LevelsData(levels, level + 2) ensures !IsBase(levels, level)(d.key.user) {
      var l :| level + 2 <= l < NUM_LEVELS && d in FilesData(levels[l]);
      var f: File :| f in levels[l] && d in f.entries;
      var i :| 0 <= i < |levels[l]| && levels[l][i] == f;
      EntryWithinFile(f, d);
    }
  }

  /** A compaction's inputs are surrounded as the drop rule needs. */
  lemma InputsAreSurrounded(top: set<Entry>, chosenFrom: seq<seq<File>>, levels: seq<seq<File>>, level: nat,
                            inputs0: seq<File>, inputs1: seq<File>, input: seq<Entry>)
    requires level + 1 < NUM_LEVELS == |levels| && InputsOnTop(top, levels, level, inputs0, inputs1)
    requires HoldsBase(chosenFrom, levels, level, FilesData(inputs0) + FilesData(inputs1))
    requires Elements(input) == FilesData(inputs0) + FilesData(inputs1)
    ensures Surrounds(Upper(top, levels, level, inputs0, inputs1), input, LevelsData(levels, level + 2),
                      IsBase(chosenFrom, level))
  {
    hide InputsOnTop, Upper, IsBase, FilesData, LevelsData;
    UpperIsNewer(top, levels, level, inputs0, inputs1);
    assert forall b :: b in input ==> b in Elements(input);
  }

  /** The inputs of a compaction that may be installed: nothing left behind at its two levels is older than they
      are, and the outputs will fit between what is left at the next level. */
  ghost predicate InputsReady(levels: seq<seq<File>>, level: nat, inputs0: seq<File>, inputs1: seq<File>) {
    && level + 1 < |levels|
    && Within(inputs0, levels[level]) && Within(inputs1, levels[level+1])
    && NoOlderLeftBehind(levels[level], inputs0) && NoOlderLeftBehind(levels[level+1], inputs1)
    && LeftOutside(levels[level+1], inputs0, inputs1)
    && NoSharedUser(LeftBehind(levels[level+1], inputs1), FilesData(inputs0))
  }

  // ---------- levels stay sorted, disjoint and ordered by age ----------

  predicate Apart(f: File, g: File) {
    Less(f.largest, g.smallest) || Less(g.largest, f.smallest)
  }

  lemma ApartIsDisjoint(files: seq<File>)
    requires FilesOk(files) && SortedBySmallest(files)
    requires forall f, g :: f in files && g in files && f != g ==> Apart(f, g)
    ensures Disjoint(files)
  {
    forall i, j | 0 <= i < j < |files| ensures Less(files[i].largest, files[j].smallest) {
      assert BySmallest(files[i], files[j]);
      assert files[i] in files && files[j] in files;
      EntryWithinFile(files[i], files[i].entries[0]);
      EntryWithinFile(files[j], files[j].entries[0]);
    }
  }

  lemma DisjointIsApart(files: seq<File>, f: File, g: File)
    requires Disjoint(files) && f in files && g in files && f != g
    ensures Apart(f, g)
  {
    var i :| 0 <= i < |files| && files[i] == f;
    var j :| 0 <= j < |files| && files[j] == g;
  }

  lemma DistinctAfterReplace(before: seq<File>, removed: seq<File>, added: seq<File>, after: seq<File>)
    requires Replaced(before, removed, added, after) && DistinctNumbers(before) && DistinctNumbers(added)
    requires forall f, g :: f in before && g in added ==> f.number != g.number
    ensures DistinctNumbers(after)
  {
    assert forall f, g :: f in after && g in after && f.number == g.number ==> f == g;
    forall i, j | 0 <= i < j < |after| ensures after[i].number != after[j].number {
      assert after[i] in after && after[j] in after;
      assert BySmallest(after[i], after[j]);
    }
  }

  /** An output lies within the hull of the inputs whose entries it holds. */
  lemma OutputOutsideLeftBehind(levels: seq<seq<File>>, level: nat, inputs0: seq<File>, inputs1: seq<File>,
                                g: File, out: File)
    requires VersionOk(levels) && level + 1 < NUM_LEVELS && LeftOutside(levels[level+1], inputs0, inputs1)
    requires Within(inputs0, levels[level]) && Within(inputs1, levels[level+1])
    requires g in levels[level+1] && g !in inputs1
    requires FileOk(out) && Elements(out.entries) <= FilesData(inputs0) + FilesData(inputs1)
    ensures Apart(g, out)
  {
    assert Outside(g, inputs0 + inputs1);
    var first, last := out.entries[0], out.entries[|out.entries|-1];
    assert first in Elements(out.entries) && last in Elements(out.entries);
    var a: File :| a in inputs0 + inputs1 && first in a.entries;
    var b: File :| b in inputs0 + inputs1 && last in b.entries;
    EntryWithinFile(a, first);
    EntryWithinFile(b, last);
  }

  lemma NextLevelApart(levels: seq<seq<File>>, level: nat, inputs0: seq<File>, inputs1: seq<File>,
                       outputs: seq<File>, f: File, g: File)
    requires VersionOk(levels) && level + 1 < NUM_LEVELS && LeftOutside(levels[level+1], inputs0, inputs1)
    requires Within(inputs0, levels[level]) && Within(inputs1, levels[level+1])
    requires FilesOk(outputs) && Disjoint(outputs)
    requires FilesData(outputs) <= FilesData(inputs0) + FilesData(inputs1)
    requires (f in levels[level+1] && f !in inputs1) || f in outputs
    requires (g in levels[level+1] && g !in inputs1) || g in outputs
    requires f != g
    ensures Apart(f, g)
  {
    if f in outputs && g in outputs {
      DisjointIsApart(outputs, f, g);
    } else if f in outputs {
      assert Elements(f.entries) <= FilesData(outputs);
      OutputOutsideLeftBehind(levels, level, inputs0, inputs1, g, f);
    } else if g in outputs {
      assert Elements(g.entries) <= FilesData(outputs);
      OutputOutsideLeftBehind(levels, level, inputs0, inputs1, f, g);
    } else {
      DisjointIsApart(levels[level+1], f, g);
    }
  }

  /** The level invariant: after any compaction the next level is sorted and disjoint again. */
  lemma NextLevelStaysDisjoint(levels: seq<seq<File>>, level: nat, inputs0: seq<File>, inputs1: seq<File>,
                               outputs: seq<File>, after: seq<File>)
    requires VersionOk(levels) && level + 1 < NUM_LEVELS && LeftOutside(levels[level+1], inputs0, inputs1)
    requires Within(inputs0, levels[level]) && Within(inputs1, levels[level+1])
    requires FilesOk(outputs) && Disjoint(outputs)
    requires FilesData(outputs) <= FilesData(inputs0) + FilesData(inputs1)
    requires Replaced(levels[level+1], inputs1, outputs, after)
    ensures FilesOk(after) && Disjoint(after)
  {
    forall i | 0 <= i < |after| ensures FileOk(after[i]) {
      assert after[i] in after;
    }
    forall f, g | f in after && g in after && f != g ensures Apart(f, g) {
      NextLevelApart(levels, level, inputs0, inputs1, outputs, f, g);
    }
    ApartIsDisjoint(after);
  }

  lemma SublistStaysDisjoint(before: seq<File>, removed: seq<File>, after: seq<File>)
    requires FilesOk(before) && Replaced(before, removed, [], after)
    ensures FilesOk(after)
    ensures Disjoint(before) ==> Disjoint(after)
  {
    forall i | 0 <= i < |after| ensures FileOk(after[i]) {
      assert after[i] in after;
    }
    if Disjoint(before) {
      forall f, g | f in after && g in after && f != g ensures Apart(f, g) {
        DisjointIsApart(before, f, g);
      }
      ApartIsDisjoint(after);
    }
  }

  lemma MovedDownVersionOk(levels: seq<seq<File>>, levels': seq<seq<File>>, level: nat,
                           inputs0: seq<File>, inputs1: seq<File>, outputs: seq<File>)
    requires VersionOk(levels) && level + 1 < NUM_LEVELS && LeftOutside(levels[level+1], inputs0, inputs1)
    requires Relisted(levels, levels', level, inputs0, inputs1, outputs)
    requires FilesOk(outputs) && Disjoint(outputs)
    requires FilesData(outputs) <= FilesData(inputs0) + FilesData(inputs1)
    ensures VersionOk(levels')
  {
    SublistStaysDisjoint(levels[level], inputs0, levels'[level]);
    NextLevelStaysDisjoint(levels, level, inputs0, inputs1, outputs, levels'[level+1]);
  }

  lemma NewerParts(a: set<Entry>, b: set<Entry>, a': set<Entry>, b': set<Entry>)
    requires Newer(a, b) && a' <= a && b' <= b
    ensures Newer(a', b')
  {
  }

  lemma NewerThanOutputs(levels: seq<seq<File>>, levels': seq<seq<File>>, level: nat,
                         inputs0: seq<File>, inputs1: seq<File>, outputs: seq<File>, i: nat)
    requires Relisted(levels, levels', level, inputs0, inputs1, outputs) && |levels| == NUM_LEVELS
    requires InputsOnTop({}, levels, level, inputs0, inputs1)
    requires FilesData(outputs) <= FilesData(inputs0) + FilesData(inputs1)
    requires i <= level
    ensures Newer(FilesData(levels'[i]), FilesData(outputs))
  {
    ReplacedData(levels[level], inputs0, [], levels'[level]);
    UpperIsNewer({}, levels, level, inputs0, inputs1);
    assert i < level ==> FilesData(levels[i]) <= Shallow(levels, level);
    var upper := Upper({}, levels, level, inputs0, inputs1);
    NewerParts(upper, FilesData(inputs0) + FilesData(inputs1), FilesData(levels'[i]), FilesData(outputs));
  }

  lemma MovedDownAges(levels: seq<seq<File>>, levels': seq<seq<File>>, level: nat,
                      inputs0: seq<File>, inputs1: seq<File>, outputs: seq<File>, i: nat, j: nat)
    requires Relisted(levels, levels', level, inputs0, inputs1, outputs) && |levels| == NUM_LEVELS
    requires InputsOnTop({}, levels, level, inputs0, inputs1)
    requires FilesData(outputs) <= FilesData(inputs0) + FilesData(inputs1)
    requires i < j < NUM_LEVELS
    ensures Newer(FilesData(levels'[i]), FilesData(levels'[j]))
  {
    var above, below := FilesData(levels'[i]), FilesData(levels'[j]);
    var rest1 := LeftBehind(levels[level+1], inputs1);
    ReplacedData(levels[level], inputs0, [], levels'[level]);
    ReplacedData(levels[level+1], inputs1, outputs, levels'[level+1]);
    assert FilesData([]) == {};
    if j == level + 1 {
      NewerThanOutputs(levels, levels', level, inputs0, inputs1, outputs, i);
      NewerParts(FilesData(levels[i]), FilesData(levels[j]), above, rest1);
    } else if i == level + 1 {
      NewerParts(FilesData(levels[level]), FilesData(levels[j]), FilesData(inputs0), below);
      NewerParts(FilesData(levels[i]), FilesData(levels[j]), FilesData(inputs1), below);
      NewerParts(FilesData(inputs0) + FilesData(inputs1), below, FilesData(outputs), below);
      NewerParts(FilesData(levels[i]), FilesData(levels[j]), rest1, below);
    } else {
      NewerParts(FilesData(levels[i]), FilesData(levels[j]), above, below);
    }
  }

  /** An output has a new number, unless it is an input moved as it is. */
  ghost predicate OutputNumbersFresh(levels: seq<seq<File>>, level: nat, inputs0: seq<File>, outputs: seq<File>) {
    && (forall f, g :: f in outputs && g in outputs && f.number == g.number ==> f == g)
    && (forall l, f, g :: (0 <= l < |levels| && f in levels[l] && g in outputs && f.number == g.number)
                          ==> l == level && f in inputs0)
  }

  lemma MovedDownNumbers(levels: seq<seq<File>>, levels': seq<seq<File>>, level: nat,
                         inputs0: seq<File>, inputs1: seq<File>, outputs: seq<File>)
    requires UniqueNumbers(levels) && OutputNumbersFresh(levels, level, inputs0, outputs)
    requires Relisted(levels, levels', level, inputs0, inputs1, outputs)
    ensures UniqueNumbers(levels')
  {
    assert |levels| == |levels'|;
    forall l, f | 0 <= l < |levels| && f in levels'[l]
      ensures (f in levels[l] && (l == level ==> f !in inputs0)) || (l == level + 1 && f in outputs)
    {
    }
    hide Relisted, Replaced;
  }

  lemma UniqueIsDistinct(files: seq<File>)
    requires SortedBySmallest(files)
    requires forall f, g :: f in files && g in files && f.number == g.number ==> f == g
    ensures DistinctNumbers(files)
  {
    forall i, j | 0 <= i < j < |files| ensures files[i].number != files[j].number {
      assert files[i] in files && files[j] in files && BySmallest(files[i], files[j]);
    }
  }

  lemma MovedDownInOrder(levels: seq<seq<File>>, levels': seq<seq<File>>, level: nat,
                         inputs0: seq<File>, inputs1: seq<File>, outputs: seq<File>)
    requires LevelsInOrder(levels) && level + 1 < NUM_LEVELS && LeftOutside(levels[level+1], inputs0, inputs1)
    requires Relisted(levels, levels', level, inputs0, inputs1, outputs)
    requires InputsOnTop({}, levels, level, inputs0, inputs1)
    requires FilesOk(outputs) && Disjoint(outputs) && OutputNumbersFresh(levels, level, inputs0, outputs)
    requires FilesData(outputs) <= FilesData(inputs0) + FilesData(inputs1)
    ensures LevelsInOrder(levels')
  {
    hide VersionOk, AgeOrdered, UniqueNumbers, Relisted, InputsOnTop, LeftOutside, OutputNumbersFresh, SortedBySmallest;
    RelistedIsSorted(levels, levels', level, inputs0, inputs1, outputs);
    MovedDownVersionOk(levels, levels', level, inputs0, inputs1, outputs);
    MovedDownNumbers(levels, levels', level, inputs0, inputs1, outputs);
    MovedDownAgeOrder(levels, levels', level, inputs0, inputs1, outputs);
  }

  lemma RelistedIsSorted(levels: seq<seq<File>>, levels': seq<seq<File>>, level: nat,
                         inputs0: seq<File>, inputs1: seq<File>, outputs: seq<File>)
    requires LevelsInOrder(levels) && Relisted(levels, levels', level, inputs0, inputs1, outputs)
    ensures |levels| == |levels'| == NUM_LEVELS && forall l :: 0 <= l < NUM_LEVELS ==> SortedBySmallest(levels'[l])
  {
    hide SortedBySmallest, AgeOrdered, UniqueNumbers;
  }

  lemma MovedDownAgeOrder(levels: seq<seq<File>>, levels': seq<seq<File>>, level: nat,
                          inputs0: seq<File>, inputs1: seq<File>, outputs: seq<File>)
    requires Relisted(levels, levels', level, inputs0, inputs1, outputs) && |levels| == NUM_LEVELS
    requires InputsOnTop({}, levels, level, inputs0, inputs1)
    requires FilesData(outputs) <= FilesData(inputs0) + FilesData(inputs1)
    requires UniqueNumbers(levels') && SortedBySmallest(levels'[0])
    ensures AgeOrdered(levels')
  {
    forall i, j | 0 <= i < j < NUM_LEVELS ensures Newer(FilesData(levels'[i]), FilesData(levels'[j])) {
      MovedDownAges(levels, levels', level, inputs0, inputs1, outputs, i, j);
    }
    UniqueIsDistinct(levels'[0]);
  }

  // ---------- a new file at a level ----------

  lemma ClearLevelSharesNothing(files: seq<File>, f: File)
    requires FilesOk(files) && FileOk(f)
    requires forall g :: g in files ==> !UserRange(f.smallest, f.largest).Overlaps(g)
    ensures NoSharedUser(FilesData(files), Elements(f.entries))
    ensures forall g :: g in files ==> Apart(g, f)
  {
    forall x, y | x in FilesData(files) && y in f.entries ensures x.key.user != y.key.user {
      var g: File :| g in files && x in g.entries;
      EntryWithinFile(g, x);
      EntryWithinFile(f, y);
    }
  }

  /** No file has the number, and every file of level 0 has a smaller one. */
  ghost predicate UnusedNumber(levels: seq<seq<File>>, number: nat) {
    && (forall l, g :: 0 <= l < |levels| && g in levels[l] ==> g.number != number)
    && (|levels| > 0 ==> forall g :: g in levels[0] ==> g.number < number)
  }

  /** Flushing data newer than every level into a level that is clear down to there keeps everything in order. */
  lemma AddedFileInOrder(levels: seq<seq<File>>, levels': seq<seq<File>>, level: nat, f: File)
    requires LevelsInOrder(levels) && level < NUM_LEVELS && |levels'| == NUM_LEVELS && FileOk(f)
    requires level > 0 ==> ClearAbove(levels, level + 1, UserRange(f.smallest, f.largest))
    requires Replaced(levels[level], [], [f], levels'[level])
    requires forall l :: 0 <= l < NUM_LEVELS && l != level ==> levels'[l] == levels[l]
    requires Newer(Elements(f.entries), LevelsData(levels, 0))
    requires UnusedNumber(levels, f.number)
    ensures LevelsInOrder(levels')
    ensures LevelsData(levels', 0) == LevelsData(levels, 0) + Elements(f.entries)
  {
    assert forall l :: 0 <= l < NUM_LEVELS ==> SortedBySmallest(levels'[l]);
    hide VersionOk, AgeOrdered, UniqueNumbers;
    AddedFileData(levels, levels', level, f);
    AddedFileVersionOk(levels, levels', level, f);
    AddedFileNumbers(levels, levels', level, f);
    AddedFileAgeOrder(levels, levels', level, f);
  }

  lemma AddedFileNumbers(levels: seq<seq<File>>, levels': seq<seq<File>>, level: nat, f: File)
    requires UniqueNumbers(levels) && |levels| == NUM_LEVELS && level < NUM_LEVELS && |levels'| == NUM_LEVELS
    requires Replaced(levels[level], [], [f], levels'[level])
    requires forall l :: 0 <= l < NUM_LEVELS && l != level ==> levels'[l] == levels[l]
    requires UnusedNumber(levels, f.number)
    ensures UniqueNumbers(levels')
  {
    forall l, g | 0 <= l < NUM_LEVELS && g in levels'[l] ensures g in levels[l] || (l == level && g == f) {
    }
  }

  lemma AddedFileAgeOrder(levels: seq<seq<File>>, levels': seq<seq<File>>, level: nat, f: File)
    requires LevelsInOrder(levels) && level < NUM_LEVELS && |levels'| == NUM_LEVELS && FileOk(f)
    requires level > 0 ==> ClearAbove(levels, level + 1, UserRange(f.smallest, f.largest))
    requires Replaced(levels[level], [], [f], levels'[level])
    requires FilesData(levels'[level]) == FilesData(levels[level]) + Elements(f.entries)
    requires forall l :: 0 <= l < NUM_LEVELS && l != level ==> levels'[l] == levels[l]
    requires Newer(Elements(f.entries), LevelsData(levels, 0))
    requires UnusedNumber(levels, f.number)
    ensures AgeOrdered(levels')
  {
    assert NumberedByAge(levels[0]);
    hide UniqueNumbers, VersionOk;
    forall i, j | 0 <= i < j < NUM_LEVELS ensures Newer(FilesData(levels'[i]), FilesData(levels'[j])) {
      AddedFileAges(levels, levels', level, f, i, j);
    }
    if level == 0 {
      assert FilesData(levels[0]) <= LevelsData(levels, 0);
      AddedToLevelZero(levels[0], levels'[0], f);
    }
  }

  lemma AddedFileData(levels: seq<seq<File>>, levels': seq<seq<File>>, level: nat, f: File)
    requires |levels| == NUM_LEVELS && level < NUM_LEVELS && |levels'| == NUM_LEVELS
    requires Replaced(levels[level], [], [f], levels'[level])
    requires forall l :: 0 <= l < NUM_LEVELS && l != level ==> levels'[l] == levels[l]
    ensures FilesData(levels'[level]) == FilesData(levels[level]) + Elements(f.entries)
    ensures LevelsData(levels', 0) == LevelsData(levels, 0) + Elements(f.entries)
  {
    ReplacedData(levels[level], [], [f], levels'[level]);
    assert FilesData([f]) == Elements(f.entries) && LeftBehind(levels[level], []) == FilesData(levels[level]);
    forall e | e in LevelsData(levels, 0) + Elements(f.entries) ensures e in LevelsData(levels', 0) {
      if e in LevelsData(levels, 0) {
        var l :| 0 <= l < NUM_LEVELS && e in FilesData(levels[l]);
        assert e in FilesData(levels'[l]);
      } else {
        assert e in FilesData(levels'[level]);
      }
    }
  }

  lemma AddedToLevelZero(before: seq<File>, after: seq<File>, f: File)
    requires Replaced(before, [], [f], after) && NumberedByAge(before)
    requires Newer(Elements(f.entries), FilesData(before)) && forall g :: g in before ==> g.number < f.number
    ensures NumberedByAge(after)
  {
    DistinctAfterReplace(before, [], [f], after);
    forall g | g in before ensures Newer(Elements(f.entries), Elements(g.entries)) {
      assert Elements(g.entries) <= FilesData(before);
    }
  }

  lemma AddedFileVersionOk(levels: seq<seq<File>>, levels': seq<seq<File>>, level: nat, f: File)
    requires VersionOk(levels) && level < NUM_LEVELS && |levels'| == NUM_LEVELS && FileOk(f)
    requires level > 0 ==> ClearAbove(levels, level + 1, UserRange(f.smallest, f.largest))
    requires Replaced(levels[level], [], [f], levels'[level])
    requires forall l :: 0 <= l < NUM_LEVELS && l != level ==> levels'[l] == levels[l]
    ensures VersionOk(levels')
  {
    forall i | 0 <= i < |levels'[level]| ensures FileOk(levels'[level][i]) {
      assert levels'[level][i] in levels'[level];
    }
    if level > 0 {
      ClearLevelSharesNothing(levels[level], f);
      forall g, h | g in levels'[level] && h in levels'[level] && g != h ensures Apart(g, h) {
        if g != f && h != f {
          DisjointIsApart(levels[level], g, h);
        }
      }
      ApartIsDisjoint(levels'[level]);
    }
  }

  lemma AddedFileAges(levels: seq<seq<File>>, levels': seq<seq<File>>, level: nat, f: File, i: nat, j: nat)
    requires VersionOk(levels) && level < NUM_LEVELS && |levels'| == NUM_LEVELS && FileOk(f)
    requires level > 0 ==> ClearAbove(levels, level + 1, UserRange(f.smallest, f.largest))
    requires FilesData(levels'[level]) == FilesData(levels[level]) + Elements(f.entries)
    requires forall l :: 0 <= l < NUM_LEVELS && l != level ==> levels'[l] == levels[l]
    requires Newer(Elements(f.entries), LevelsData(levels, 0)) && i < j < NUM_LEVELS
    requires Newer(FilesData(levels[i]), FilesData(levels[j]))
    ensures Newer(FilesData(levels'[i]), FilesData(levels'[j]))
  {
    if i == level {
      assert FilesData(levels[j]) <= LevelsData(levels, 0);
      NewerParts(Elements(f.entries), LevelsData(levels, 0), Elements(f.entries), FilesData(levels[j]));
    } else if j == level {
      ClearLevelSharesNothing(levels[i], f);
    }
  }

  // ---------- a file added while a compaction is under way ----------

  lemma AddedFileStaysBehind(before: seq<File>, after: seq<File>, taken: seq<File>, f: File)
    requires forall g :: g in after ==> g in before || g == f
    requires forall g :: g in before ==> g in after
    requires Within(taken, before) && NoOlderLeftBehind(before, taken) && Newer(Elements(f.entries), FilesData(before))
    ensures Within(taken, after) && NoOlderLeftBehind(after, taken)
    ensures LeftBehind(after, taken) <= LeftBehind(before, taken) + Elements(f.entries)
  {
    assert FilesData(taken) <= FilesData(before);
  }

  /** A file flushed to a level that is clear of its range spoils no compaction that is under way, if at the level
      the compaction writes to it lies outside all inputs. */
  lemma AddedFileKeepsReady(levels: seq<seq<File>>, levels': seq<seq<File>>, at: nat, f: File,
                            level: nat, inputs0: seq<File>, inputs1: seq<File>)
    requires VersionOk(levels) && VersionOk(levels') && at < NUM_LEVELS && FileOk(f)
    requires at > 0 ==> ClearAbove(levels, at + 1, UserRange(f.smallest, f.largest))
    requires Replaced(levels[at], [], [f], levels'[at])
    requires forall l :: 0 <= l < NUM_LEVELS && l != at ==> levels'[l] == levels[l]
    requires Newer(Elements(f.entries), LevelsData(levels, 0))
    requires InputsReady(levels, level, inputs0, inputs1)
    requires at == level + 1 ==> Outside(f, inputs0 + inputs1)
    ensures InputsReady(levels', level, inputs0, inputs1)
  {
    AddedToLevels(levels, levels', at, f);
    hide VersionOk, ClearAbove, FileOk, Outside, Newer, NoOlderLeftBehind, LeftBehind;
    forall l | 0 <= l < NUM_LEVELS ensures Newer(Elements(f.entries), FilesData(levels[l])) {
      PartOfLevels(levels, l);
      NewerParts(Elements(f.entries), LevelsData(levels, 0), Elements(f.entries), FilesData(levels[l]));
    }
    AddedFileStaysBehind(levels[level], levels'[level], inputs0, f);
    AddedFileStaysBehind(levels[level+1], levels'[level+1], inputs1, f);
    if at == level + 1 {
      ClearAboveSharesNothing(levels, at, f, level);
      assert FilesData(inputs0) <= FilesData(levels[level]);
    }
  }

  lemma AddedToLevels(levels: seq<seq<File>>, levels': seq<seq<File>>, at: nat, f: File)
    requires |levels| == NUM_LEVELS == |levels'| && at < NUM_LEVELS && Replaced(levels[at], [], [f], levels'[at])
    requires forall l :: 0 <= l < NUM_LEVELS && l != at ==> levels'[l] == levels[l]
    ensures forall l, g :: 0 <= l < NUM_LEVELS && g in levels'[l] ==> g in levels[l] || (g == f && l == at)
    ensures forall l, g :: 0 <= l < NUM_LEVELS && g in levels[l] ==> g in levels'[l]
  {
  }

  lemma PartOfLevels(levels: seq<seq<File>>, l: nat)
    requires l < |levels|
    ensures FilesData(levels[l]) <= LevelsData(levels, 0)
  {
  }

  lemma ClearAboveSharesNothing(levels: seq<seq<File>>, at: nat, f: File, l: nat)
    requires VersionOk(levels) && FileOk(f) && l <= at < NUM_LEVELS
    requires ClearAbove(levels, at + 1, UserRange(f.smallest, f.largest))
    ensures NoSharedUser(FilesData(levels[l]), Elements(f.entries))
  {
    ClearLevelSharesNothing(levels[l], f);
  }

  lemma AddedFileHoldsBase(chosenFrom: seq<seq<File>>, levels: seq<seq<File>>, levels': seq<seq<File>>, at: nat, f: File,
                           level: nat, inputs0: seq<File>, inputs1: seq<File>)
    requires VersionOk(levels) && VersionOk(levels') && at < NUM_LEVELS && FileOk(f)
    requires at > 0 ==> ClearAbove(levels, at + 1, UserRange(f.smallest, f.largest))
    requires Replaced(levels[at], [], [f], levels'[at])
    requires forall l :: 0 <= l < NUM_LEVELS && l != at ==> levels'[l] == levels[l]
    requires InputsReady(levels, level, inputs0, inputs1)
    requires HoldsBase(chosenFrom, levels, level, FilesData(inputs0) + FilesData(inputs1))
    ensures HoldsBase(chosenFrom, levels', level, FilesData(inputs0) + FilesData(inputs1))
  {
    hide VersionOk, ClearAbove, FileOk, InputsReady, Replaced, IsBase, NoSharedUser, LevelsData, FilesData;
    assert |levels| == NUM_LEVELS == |levels'| by {
      VersionLength(levels);
      VersionLength(levels');
    }
    InputsInReady(levels, level, inputs0, inputs1);
    var data := FilesData(inputs0) + FilesData(inputs1);
    forall d, x | d in LevelsData(levels', level + 2) && x in data && d.key.user == x.key.user
      ensures d in LevelsData(levels, level + 2)
    {
      AddedDeepEntry(levels, levels', at, f, level + 2, d);
      if d !in LevelsData(levels, level + 2) {
        ClearAboveSharesNothing(levels, at, f, level);
        ClearAboveSharesNothing(levels, at, f, level + 1);
        SharedAtOneOf(levels, level, f, d, x);
      }
    }
  }

  lemma VersionLength(levels: seq<seq<File>>)
    requires VersionOk(levels)
    ensures |levels| == NUM_LEVELS
  {
  }

  lemma InputsInReady(levels: seq<seq<File>>, level: nat, inputs0: seq<File>, inputs1: seq<File>)
    requires InputsReady(levels, level, inputs0, inputs1)
    ensures level + 1 < |levels|
    ensures FilesData(inputs0) <= FilesData(levels[level]) && FilesData(inputs1) <= FilesData(levels[level+1])
  {
    hide LeftOutside, NoOlderLeftBehind, NoSharedUser;
  }

  lemma AddedDeepEntry(levels: seq<seq<File>>, levels': seq<seq<File>>, at: nat, f: File, from: nat, d: Entry)
    requires |levels| == NUM_LEVELS == |levels'| && at < NUM_LEVELS && Replaced(levels[at], [], [f], levels'[at])
    requires forall l :: 0 <= l < NUM_LEVELS && l != at ==> levels'[l] == levels[l]
    requires from <= NUM_LEVELS && d in LevelsData(levels', from)
    ensures d in LevelsData(levels, from) || (from <= at && d in f.entries)
  {
    AddedToLevels(levels, levels', at, f);
    hide Replaced;
    var l :| from <= l < NUM_LEVELS && d in FilesData(levels'[l]);
    var g: File :| g in levels'[l] && d in g.entries;
    if g in levels[l] {
      assert d in FilesData(levels[l]);
    }
  }

  lemma SharedAtOneOf(levels: seq<seq<File>>, level: nat, f: File, d: Entry, x: Entry)
    requires level + 1 < |levels| && d in f.entries
    requires x in FilesData(levels[level]) || x in FilesData(levels[level+1])
    requires NoSharedUser(FilesData(levels[level]), Elements(f.entries))
    requires NoSharedUser(FilesData(levels[level+1]), Elements(f.entries))
    ensures d.key.user != x.key.user
  {
  }
}
