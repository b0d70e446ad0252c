/** Which files a compaction takes in (db/version_set.cc, GetOverlappingInputs and SetupOtherInputs). */
module CompactionInputs {
  import opened Keys
  import opened Versions

  const TARGET_FILE_SIZE: nat := 2 * 1048576
  const MAX_GRANDPARENT_OVERLAP_BYTES: nat := 10 * TARGET_FILE_SIZE
  const EXPANDED_COMPACTION_BYTE_SIZE_LIMIT: nat := 25 * TARGET_FILE_SIZE

  /** A range of user keys; None is an open end. */
  datatype Range = Range(begin: Option<UserKey>, end: Option<UserKey>) {
    predicate Overlaps(f: File) {
      && !(begin.Some? && f.largest.user < begin.value)
      && !(end.Some? && f.smallest.user > end.value)
    }

    predicate Contains(inner: Range) {
      && (begin.Some? ==> inner.begin.Some? && begin.value <= inner.begin.value)
      && (end.Some? ==> inner.end.Some? && inner.end.value <= end.value)
    }

    predicate Covers(f: File) {
      && (begin.Some? ==> begin.value <= f.smallest.user)
      && (end.Some? ==> f.largest.user <= end.value)
    }

    /** Every file that meets the range lies inside it. */
    predicate ClosedFor(files: seq<File>) {
      forall f :: f in files && Overlaps(f) ==> Covers(f)
    }
  }

  function Overlapping(files: seq<File>, range: Range): (r: seq<File>)
    ensures forall f :: f in r <==> f in files && range.Overlaps(f)
  {
    if files == [] then []
    else
      var n := |files| - 1;
      var before := Overlapping(files[..n], range);
      if range.Overlaps(files[n]) then before + [files[n]] else before
  }

  /** Level 0 restarts whenever a chosen file widens the range.  It ends with exactly the files that meet the
      least overlap-closed range around the requested one. */
  method GetOverlappingInputs(files: seq<File>, isLevelZero: bool, range: Range) returns (inputs: seq<File>, reached: Range)
    requires FilesOk(files)
    ensures inputs == Overlapping(files, reached)
    ensures !isLevelZero ==> reached == range
    ensures isLevelZero ==> reached.ClosedFor(files) && reached.Contains(range)
    ensures isLevelZero ==> forall r: Range :: r.ClosedFor(files) && r.Contains(range) ==> r.Contains(reached)
    ensures Around(files, isLevelZero, range, inputs)
  {
    hide StartsBefore, EndsAfter;
    inputs, reached := [], range;
    var i := 0;
    while i < |files|
      invariant i <= |files|
      invariant inputs == Overlapping(files[..i], reached)
      invariant !isLevelZero ==> reached == range
      invariant isLevelZero ==> reached.ClosedFor(files[..i]) && reached.Contains(range)
      invariant isLevelZero ==> LeastSoFar(files, range, reached)
      decreases StartsBefore(files, reached), EndsAfter(files, reached), |files| - i
    {
      var f := files[i];
      i := i + 1;
      assert files[..i][..i-1] == files[..i-1];
      EntryWithinFile(f, f.entries[0]);
      if reached.begin.Some? && f.largest.user < reached.begin.value {
      } else if reached.end.Some? && f.smallest.user > reached.end.value {
      } else {
        inputs := inputs + [f];
        if isLevelZero {
          assert f in files;
          if reached.begin.Some? && f.smallest.user < reached.begin.value {
            WidenBegin(files, range, reached, i - 1);
            reached := reached.(begin := Some(f.smallest.user));
            inputs, i := [], 0;
          } else if reached.end.Some? && f.largest.user > reached.end.value {
            WidenEnd(files, range, reached, i - 1);
            reached := reached.(end := Some(f.largest.user));
            inputs, i := [], 0;
          }
        }
      }
    }
    assert files[..|files|] == files;
    assert Reach(files, isLevelZero, range, reached);
  }

  /** The range itself; at level 0, the least overlap-closed range around it. */
  ghost predicate Reach(files: seq<File>, isLevelZero: bool, range: Range, reached: Range) {
    if isLevelZero then reached.ClosedFor(files) && reached.Contains(range) && LeastSoFar(files, range, reached)
    else reached == range
  }

  /** The files that a range takes in. */
  ghost predicate Around(files: seq<File>, isLevelZero: bool, range: Range, inputs: seq<File>) {
    exists reached :: Reach(files, isLevelZero, range, reached) && inputs == Overlapping(files, reached)
  }

  lemma AroundIsUnique(files: seq<File>, isLevelZero: bool, range: Range, a: seq<File>, b: seq<File>)
    requires Around(files, isLevelZero, range, a) && Around(files, isLevelZero, range, b)
    ensures a == b
  {
    var ra :| Reach(files, isLevelZero, range, ra) && a == Overlapping(files, ra);
    var rb :| Reach(files, isLevelZero, range, rb) && b == Overlapping(files, rb);
    assert isLevelZero ==> ra.Contains(rb) && rb.Contains(ra);
  }

  /** A wider range that meets no more files meets the same. */
  lemma {:induction false} NoMoreIsSame(files: seq<File>, range: Range, wider: Range)
    requires wider.Contains(range)
    ensures |Overlapping(files, range)| <= |Overlapping(files, wider)|
    ensures |Overlapping(files, range)| == |Overlapping(files, wider)| ==> Overlapping(files, range) == Overlapping(files, wider)
  {
    if files != [] {
      NoMoreIsSame(files[..|files|-1], range, wider);
    }
  }

  /** Every overlap-closed range around the requested one holds the range reached. */
  ghost predicate LeastSoFar(files: seq<File>, range: Range, reached: Range) {
    forall r: Range :: r.ClosedFor(files) && r.Contains(range) ==> r.Contains(reached)
  }

  lemma WidenBegin(files: seq<File>, range: Range, was: Range, i: nat)
    requires i < |files| && was.Overlaps(files[i]) && was.Contains(range) && LeastSoFar(files, range, was)
    requires was.begin.Some? && files[i].smallest.user < was.begin.value
    ensures var now := was.(begin := Some(files[i].smallest.user));
      && now.Contains(range) && LeastSoFar(files, range, now)
      && StartsBefore(files, now) < StartsBefore(files, was) && EndsAfter(files, now) == EndsAfter(files, was)
  {
    var now := was.(begin := Some(files[i].smallest.user));
    assert files[i] in files;
    assert i in StartsBefore(files, was) && i !in StartsBefore(files, now);
  }

  lemma WidenEnd(files: seq<File>, range: Range, was: Range, i: nat)
    requires i < |files| && was.Overlaps(files[i]) && was.Contains(range) && LeastSoFar(files, range, was)
    requires was.end.Some? && files[i].largest.user > was.end.value
    ensures var now := was.(end := Some(files[i].largest.user));
      && now.Contains(range) && LeastSoFar(files, range, now)
      && StartsBefore(files, now) == StartsBefore(files, was) && EndsAfter(files, now) < EndsAfter(files, was)
  {
    var now := was.(end := Some(files[i].largest.user));
    assert files[i] in files;
    assert i in EndsAfter(files, was) && i !in EndsAfter(files, now);
  }

  ghost function StartsBefore(files: seq<File>, range: Range): set<int> {
    set i | 0 <= i < |files| && range.begin.Some? && files[i].smallest.user < range.begin.value
  }

  ghost function EndsAfter(files: seq<File>, range: Range): set<int> {
    set i | 0 <= i < |files| && range.end.Some? && files[i].largest.user > range.end.value
  }

  function TotalFileSize(files: seq<File>): nat {
    if files == [] then 0 else TotalFileSize(files[..|files|-1]) + files[|files|-1].size
  }

  /** The least range, in internal-key order, around all files. */
  ghost predicate IsHull(files: seq<File>, smallest: InternalKey, largest: InternalKey) {
    && (exists f :: f in files && f.smallest == smallest)
    && (exists f :: f in files && f.largest == largest)
    && forall f :: f in files ==> AtMost(smallest, f.smallest) && AtMost(f.largest, largest)
  }

  method GetRange(inputs: seq<File>) returns (smallest: InternalKey, largest: InternalKey)
    requires |inputs| > 0
    ensures IsHull(inputs, smallest, largest)
  {
    smallest, largest := inputs[0].smallest, inputs[0].largest;
    assert inputs[0] in inputs[..1];
    for i := 1 to |inputs|
      invariant IsHull(inputs[..i], smallest, largest)
    {
      var f := inputs[i];
      assert inputs[..i+1] == inputs[..i] + [f];
      if Less(f.smallest, smallest) {
        smallest := f.smallest;
      }
      if Less(largest, f.largest) {
        largest := f.largest;
      }
    }
    assert inputs[..|inputs|] == inputs;
  }

  ghost predicate IsHullRange(files: seq<File>, range: Range) {
    exists smallest, largest :: IsHull(files, smallest, largest) && range == UserRange(smallest, largest)
  }

  function UserRange(smallest: InternalKey, largest: InternalKey): Range {
    Range(Some(smallest.user), Some(largest.user))
  }

  /** The inputs of a compaction from `level`: some files there, all files of the next level that meet their
      hull, and, at level 0, no file left behind that meets their hull. */
  ghost predicate ChosenInputs(levels: seq<seq<File>>, level: nat, inputs0: seq<File>, inputs1: seq<File>) {
    && |levels| == NUM_LEVELS && level + 1 < NUM_LEVELS
    && |inputs0| > 0
    && (forall f :: f in inputs0 ==> f in levels[level])
    && (forall range :: IsHullRange(inputs0, range) ==>
         && inputs1 == Overlapping(levels[level+1], range)
         && (level == 0 ==> forall f :: f in levels[0] && range.Overlaps(f) ==> f in inputs0))
  }

  /** The files a compaction starts from: any at a deeper level, an overlap-closed choice at level 0. */
  ghost predicate StartingInputs(levels: seq<seq<File>>, level: nat, inputs0: seq<File>) {
    && |levels| == NUM_LEVELS && level + 1 < NUM_LEVELS
    && |inputs0| > 0
    && (forall f :: f in inputs0 ==> f in levels[level])
    && (level == 0 ==> forall range, f :: IsHullRange(inputs0, range) && f in levels[0] && range.Overlaps(f)
                                          ==> f in inputs0)
  }

  lemma HullIsUnique(files: seq<File>, smallest: InternalKey, largest: InternalKey, range: Range)
    requires IsHull(files, smallest, largest) && IsHullRange(files, range)
    ensures range == UserRange(smallest, largest)
  {
    var s, l :| IsHull(files, s, l) && range == UserRange(s, l);
    var f :| f in files && f.smallest == s;
    var g :| g in files && g.largest == l;
    assert AtMost(smallest, s) && AtMost(l, largest);
    var f' :| f' in files && f'.smallest == smallest;
    var g' :| g' in files && g'.largest == largest;
    assert AtMost(s, smallest) && AtMost(largest, l);
  }

  lemma FirstChoice(levels: seq<seq<File>>, level: nat, inputs0: seq<File>, smallest: InternalKey, largest: InternalKey)
    requires StartingInputs(levels, level, inputs0) && IsHull(inputs0, smallest, largest)
    ensures ChosenInputs(levels, level, inputs0, Overlapping(levels[level+1], UserRange(smallest, largest)))
  {
    forall range | IsHullRange(inputs0, range) ensures range == UserRange(smallest, largest) {
      HullIsUnique(inputs0, smallest, largest, range);
    }
  }

  /** Growing the inputs at the starting level keeps them a legal choice. */
  lemma ExpandedChoice(levels: seq<seq<File>>, level: nat, chosen: seq<File>, inputs1: seq<File>,
                       allStart: InternalKey, allLimit: InternalKey, reached: Range)
    requires StartingInputs(levels, level, chosen) && FilesOk(levels[level])
    requires IsHull(chosen + inputs1, allStart, allLimit)
    requires reached.Contains(UserRange(allStart, allLimit))
    requires level == 0 ==> reached.ClosedFor(levels[0])
    ensures StartingInputs(levels, level, Overlapping(levels[level], reached))
    ensures forall f :: f in chosen ==> f in Overlapping(levels[level], reached)
  {
    var expanded := Overlapping(levels[level], reached);
    forall f | f in chosen ensures f in expanded {
      assert f in chosen + inputs1;
      EntryWithinFile(f, f.entries[0]);
    }
    assert chosen[0] in expanded;
    if level == 0 {
      forall range, f | IsHullRange(expanded, range) && f in levels[0] && range.Overlaps(f) ensures f in expanded {
        var s, l :| IsHull(expanded, s, l) && range == UserRange(s, l);
      }
    }
  }

  /** What the choice at the starting level may be grown to: all that its next-level files reach there, if that is
      more, and not too much. */
  ghost predicate Larger(levels: seq<seq<File>>, level: nat, chosen: seq<File>, inputs1: seq<File>, grown: seq<File>)
    requires level < |levels|
  {
    && inputs1 != [] && |grown| > |chosen|
    && (forall range :: IsHullRange(chosen + inputs1, range) ==> Around(levels[level], level == 0, range, grown))
    && TotalFileSize(inputs1) + TotalFileSize(grown) < EXPANDED_COMPACTION_BYTE_SIZE_LIMIT
  }

  /** Growing takes in no more files of the next level. */
  ghost predicate SameBelow(next: seq<File>, inputs1: seq<File>, grown: seq<File>) {
    forall range :: IsHullRange(grown, range) ==> |Overlapping(next, range)| == |inputs1|
  }

  /** The next-level files stay those of the starting choice, which grows when it can without changing them. */
  ghost predicate GrownIfPossible(levels: seq<seq<File>>, level: nat, chosen: seq<File>, inputs0: seq<File>, inputs1: seq<File>)
    requires level + 1 < |levels|
  {
    && (forall range :: IsHullRange(chosen, range) ==> inputs1 == Overlapping(levels[level+1], range))
    && if inputs0 == chosen
       then forall grown :: Larger(levels, level, chosen, inputs1, grown) ==> !SameBelow(levels[level+1], inputs1, grown)
       else Larger(levels, level, chosen, inputs1, inputs0) && SameBelow(levels[level+1], inputs1, inputs0)
  }

  /** The choice stays, or grows to `grown`, as the guards say. */
  lemma GrowsOrStays(levels: seq<seq<File>>, level: nat, chosen: seq<File>, inputs1: seq<File>, smallest: InternalKey,
                     largest: InternalKey, all: Range, grown: seq<File>, now: seq<File>, below: seq<File>)
    requires level + 1 < |levels| && IsHull(chosen, smallest, largest) && IsHullRange(chosen + inputs1, all)
    requires inputs1 == Overlapping(levels[level+1], UserRange(smallest, largest))
    requires inputs1 != [] ==> Around(levels[level], level == 0, all, grown)
    requires var larger := inputs1 != [] && |grown| > |chosen|
                           && TotalFileSize(inputs1) + TotalFileSize(grown) < EXPANDED_COMPACTION_BYTE_SIZE_LIMIT;
      && (larger ==> forall range :: IsHullRange(grown, range) ==> below == Overlapping(levels[level+1], range))
      && (larger ==> exists range :: IsHullRange(grown, range))
      && now == if larger && |below| == |inputs1| then grown else chosen
    ensures GrownIfPossible(levels, level, chosen, now, inputs1)
  {
    hide Overlapping, IsHull, Around, TotalFileSize, UserRange;
    forall range | IsHullRange(chosen, range) ensures range == UserRange(smallest, largest) {
      HullIsUnique(chosen, smallest, largest, range);
    }
    forall range | IsHullRange(chosen + inputs1, range) ensures range == all {
      HullRangeIsUnique(chosen + inputs1, range, all);
    }
    forall g | Larger(levels, level, chosen, inputs1, g) ensures g == grown {
      AroundIsUnique(levels[level], level == 0, all, g, grown);
    }
  }

  lemma HullRangeIsUnique(files: seq<File>, a: Range, b: Range)
    requires IsHullRange(files, a) && IsHullRange(files, b)
    ensures a == b
  {
    var s, l :| IsHull(files, s, l) && a == UserRange(s, l);
    HullIsUnique(files, s, l, b);
  }

  lemma HullsContain(files: seq<File>, more: seq<File>, s: InternalKey, l: InternalKey, sMore: InternalKey, lMore: InternalKey)
    requires IsHull(files, s, l) && IsHull(more, sMore, lMore) && forall f :: f in files ==> f in more
    ensures UserRange(sMore, lMore).Contains(UserRange(s, l))
  {
  }

  method SetupOtherInputs(levels: seq<seq<File>>, level: nat, chosen: seq<File>)
    returns (inputs0: seq<File>, inputs1: seq<File>, grandparents: seq<File>, largest: InternalKey)
    requires VersionOk(levels) && StartingInputs(levels, level, chosen)
    ensures ChosenInputs(levels, level, inputs0, inputs1)
    ensures forall f :: f in chosen ==> f in inputs0
    ensures exists smallest :: IsHull(inputs0, smallest, largest)
    ensures GrownIfPossible(levels, level, chosen, inputs0, inputs1)
    ensures if level + 2 < NUM_LEVELS
            then forall range :: IsHullRange(inputs0 + inputs1, range) ==> grandparents == Overlapping(levels[level+2], range)
            else grandparents == []
  {
    hide Overlapping, IsHull, Around, TotalFileSize, StartingInputs, ChosenInputs, GrownIfPossible, FilesOk, Disjoint;
    StartIsSome(levels, level, chosen);
    inputs0 := chosen;
    var smallest;
    smallest, largest := GetRange(inputs0);
    var reached;
    inputs1, reached := GetOverlappingInputs(levels[level+1], false, UserRange(smallest, largest));
    FirstChoice(levels, level, inputs0, smallest, largest);
    var allStart, allLimit := GetRange(inputs0 + inputs1);
    ghost var all, start, limit, grown, below := UserRange(allStart, allLimit), smallest, largest, [], [];

    if |inputs1| > 0 {
      var expanded0, reached0 := GetOverlappingInputs(levels[level], level == 0, UserRange(allStart, allLimit));
      grown := expanded0;
      if |expanded0| > |inputs0|
         && TotalFileSize(inputs1) + TotalFileSize(expanded0) < EXPANDED_COMPACTION_BYTE_SIZE_LIMIT {
        ExpandedChoice(levels, level, inputs0, inputs1, allStart, allLimit, reached0);
        var newStart, newLimit := GetRange(expanded0);
        FirstChoice(levels, level, expanded0, newStart, newLimit);
        var expanded1, reached1 := GetOverlappingInputs(levels[level+1], false, UserRange(newStart, newLimit));
        below := expanded1;
        HullOnly(expanded0, newStart, newLimit);
        HullsContain(chosen, expanded0, smallest, largest, newStart, newLimit);
        NoMoreIsSame(levels[level+1], UserRange(smallest, largest), UserRange(newStart, newLimit));
        if |expanded1| == |inputs1| {
          smallest, largest := newStart, newLimit;
          inputs0, inputs1 := expanded0, expanded1;
          allStart, allLimit := GetRange(inputs0 + inputs1);
        }
      }
    }
    GrowsOrStays(levels, level, chosen, inputs1, start, limit, all, grown, inputs0, below);
    HullOnly(inputs0 + inputs1, allStart, allLimit);

    if level + 2 < NUM_LEVELS {
      grandparents, reached := GetOverlappingInputs(levels[level+2], false, UserRange(allStart, allLimit));
    } else {
      grandparents := [];
    }
  }

  lemma StartIsSome(levels: seq<seq<File>>, level: nat, chosen: seq<File>)
    requires StartingInputs(levels, level, chosen)
    ensures |levels| == NUM_LEVELS && level + 1 < NUM_LEVELS && |chosen| > 0
  {
  }

  lemma HullOnly(files: seq<File>, smallest: InternalKey, largest: InternalKey)
    requires IsHull(files, smallest, largest)
    ensures IsHullRange(files, UserRange(smallest, largest))
    ensures forall range :: IsHullRange(files, range) ==> range == UserRange(smallest, largest)
  {
    forall range | IsHullRange(files, range) ensures range == UserRange(smallest, largest) {
      HullIsUnique(files, smallest, largest, range);
    }
  }

  lemma ClosedRangeIsAStart(levels: seq<seq<File>>, level: nat, reached: Range)
    requires VersionOk(levels) && level + 1 < NUM_LEVELS
    requires level == 0 ==> reached.ClosedFor(levels[0])
    requires |Overlapping(levels[level], reached)| > 0
    ensures StartingInputs(levels, level, Overlapping(levels[level], reached))
  {
    var inputs := Overlapping(levels[level], reached);
    if level == 0 {
      forall range, f | IsHullRange(inputs, range) && f in levels[0] && range.Overlaps(f) ensures f in inputs {
        var s, l :| IsHull(inputs, s, l) && range == UserRange(s, l);
      }
    }
  }

  /** PickCompaction widens its choice at level 0 to everything that overlaps it. */
  method PickInputs(levels: seq<seq<File>>, level: nat, picked: File) returns (inputs: seq<File>)
    requires VersionOk(levels) && level + 1 < NUM_LEVELS && picked in levels[level]
    ensures StartingInputs(levels, level, inputs) && picked in inputs
    ensures if level == 0 then Around(levels[0], true, UserRange(picked.smallest, picked.largest), inputs)
            else inputs == [picked]
  {
    inputs := [picked];
    if level == 0 {
      var smallest, largest := GetRange(inputs);
      var reached;
      inputs, reached := GetOverlappingInputs(levels[0], true, UserRange(smallest, largest));
      EntryWithinFile(picked, picked.entries[0]);
      ClosedRangeIsAStart(levels, 0, reached);
    }
  }

  /** The files up to the one with which they are big enough, or all of them. */
  ghost predicate CutBySize(files: seq<File>, inputs: seq<File>) {
    && inputs <= files && (files != [] ==> inputs != [])
    && (inputs != files ==> TotalFileSize(inputs) >= TARGET_FILE_SIZE)
    && (inputs != [] ==> TotalFileSize(inputs[..|inputs|-1]) < TARGET_FILE_SIZE)
  }

  method CutShort(files: seq<File>) returns (inputs: seq<File>)
    ensures CutBySize(files, inputs)
  {
    var total := 0;
    for i := 0 to |files|
      invariant total == TotalFileSize(files[..i]) && total < TARGET_FILE_SIZE
    {
      assert files[..i+1][..i] == files[..i];
      total := total + files[i].size;
      if total >= TARGET_FILE_SIZE {
        return files[..i+1];
      }
    }
    OneLess(files);
    return files;
  }

  lemma OneLess(files: seq<File>)
    ensures files != [] ==> TotalFileSize(files[..|files|-1]) <= TotalFileSize(files[..|files|])
  {
    assert files[..|files|] == files;
  }

  /** CompactRange takes the files that meet a requested range, cut short by size at deeper levels. */
  method CompactRangeInputs(levels: seq<seq<File>>, level: nat, range: Range) returns (inputs: seq<File>)
    requires VersionOk(levels) && level + 1 < NUM_LEVELS
    ensures |inputs| == 0 <==> forall f :: f in levels[level] ==> !range.Overlaps(f)
    ensures |inputs| > 0 ==> StartingInputs(levels, level, inputs)
    ensures level == 0 ==> Around(levels[0], true, range, inputs)
    ensures level > 0 ==> CutBySize(Overlapping(levels[level], range), inputs)
  {
    var reached;
    inputs, reached := GetOverlappingInputs(levels[level], level == 0, range);
    if |inputs| == 0 {
      forall f | f in levels[level] ensures !range.Overlaps(f) {
        assert f !in inputs;
      }
      return;
    }
    ClosedRangeIsAStart(levels, level, reached);
    if level > 0 {
      assert inputs[0] in inputs;
      inputs := CutShort(inputs);
    } else {
      assert range.ClosedFor(levels[0]) ==> range.Contains(reached);
      assert inputs[0] in inputs;
    }
  }

  /** `g` ends before every one of `files` begins, or begins after every one ends, in internal-key order. */
  ghost predicate Outside(g: File, files: seq<File>) {
    || (forall f :: f in files ==> Less(g.largest, f.smallest))
    || (forall f :: f in files ==> Less(f.largest, g.smallest))
  }

  /** Every file of the next level that is left out of the compaction lies outside all its inputs. */
  ghost predicate LeftOutside(next: seq<File>, inputs0: seq<File>, inputs1: seq<File>) {
    forall g :: g in next && g !in inputs1 ==> Outside(g, inputs0 + inputs1)
  }

  lemma LeftOutsideTheHull(levels: seq<seq<File>>, level: nat, inputs0: seq<File>, inputs1: seq<File>)
    requires VersionOk(levels) && ChosenInputs(levels, level, inputs0, inputs1)
    ensures LeftOutside(levels[level+1], inputs0, inputs1)
  {
    var smallest, largest := HullOf(inputs0);
    var range := UserRange(smallest, largest);
    assert IsHullRange(inputs0, range);
    var files := levels[level+1];
    forall g | g in files && g !in inputs1 ensures Outside(g, inputs0 + inputs1) {
      forall f | f in inputs0 + inputs1
        ensures g.largest.user < smallest.user ==> Less(g.largest, f.smallest)
        ensures largest.user < g.smallest.user ==> Less(f.largest, g.smallest)
      {
        if f in inputs1 {
          SideOfNeighbour(files, g, f, range);
        }
      }
      assert !range.Overlaps(g);
    }
  }

  /** Of two files of a sorted level, the one that misses a range lies on the same side of the one that meets it. */
  lemma SideOfNeighbour(files: seq<File>, g: File, f: File, range: Range)
    requires FilesOk(files) && Disjoint(files) && f in files && g in files && f != g
    requires range.Overlaps(f) && range.begin.Some? && range.end.Some?
    ensures g.largest.user < range.begin.value ==> Less(g.largest, f.smallest)
    ensures range.end.value < g.smallest.user ==> Less(f.largest, g.smallest)
  {
    var n :| 0 <= n < |files| && files[n] == f;
    var at :| 0 <= at < |files| && files[at] == g;
    EntryWithinFile(f, f.entries[0]);
    EntryWithinFile(g, g.entries[0]);
    assert n < at ==> Less(f.largest, g.smallest);
    assert at < n ==> Less(g.largest, f.smallest);
  }

  lemma HullOf(files: seq<File>) returns (smallest: InternalKey, largest: InternalKey)
    requires |files| > 0
    ensures IsHull(files, smallest, largest)
  {
    if |files| == 1 {
      smallest, largest := files[0].smallest, files[0].largest;
      assert files[0] in files;
    } else {
      var s, l := HullOf(files[1..]);
      smallest := if Less(files[0].smallest, s) then files[0].smallest else s;
      largest := if Less(l, files[0].largest) then files[0].largest else l;
      assert files[0] in files;
    }
  }

  /** Does some file of the level meet the range?  Sorted levels answer by binary search. */
  method SomeFileOverlapsRange(files: seq<File>, disjointSorted: bool, range: Range) returns (r: bool)
    requires FilesOk(files) && (disjointSorted ==> Disjoint(files))
    requires forall f :: f in files ==> f.largest.Parses()
    ensures r <==> exists f :: f in files && range.Overlaps(f)
  {
    if !disjointSorted {
      for i := 0 to |files|
        invariant forall k :: 0 <= k < i ==> !range.Overlaps(files[k])
      {
        var f := files[i];
        if (range.begin.Some? && range.begin.value > f.largest.user)
           || (range.end.Some? && range.end.value < f.smallest.user) {
        } else {
          assert f in files;
          return true;
        }
      }
      return false;
    }
    var index := 0;
    if range.begin.Some? {
      index := FindFile(files, SeekKey(range.begin.value, MAX_SEQUENCE));
      forall i | 0 <= i < index ensures !range.Overlaps(files[i]) {
        assert files[i] in files;
      }
    }
    if index >= |files| {
      return false;
    }
    assert files[index] in files;
    forall i | index <= i < |files| ensures files[index].smallest.user <= files[i].smallest.user {
      EntryWithinFile(files[index], files[index].entries[0]);
    }
    r := !(range.end.Some? && range.end.value < files[index].smallest.user);
  }

  const MAX_MEM_COMPACT_LEVEL: nat := 2

  /** No file of the first `n` levels meets the range. */
  ghost predicate ClearAbove(levels: seq<seq<File>>, n: nat, range: Range)
    requires n <= |levels|
  {
    forall l, f :: 0 <= l < n && f in levels[l] ==> !range.Overlaps(f)
  }

  /** A file over `range` may pass from level `l - 1` to level `l`: nothing there meets the range, and not too much
      of the level below does. */
  ghost predicate MayPass(levels: seq<seq<File>>, l: nat, range: Range)
    requires 1 <= l && l + 1 < |levels|
  {
    && (forall f :: f in levels[l] ==> !range.Overlaps(f))
    && TotalFileSize(Overlapping(levels[l+1], range)) <= MAX_GRANDPARENT_OVERLAP_BYTES
  }

  /** The level for a flushed memtable over `range`: 0 when a file there meets it, else as deep as it may pass. */
  ghost predicate IsPick(levels: seq<seq<File>>, range: Range, level: nat)
    requires |levels| == NUM_LEVELS
  {
    && level <= MAX_MEM_COMPACT_LEVEL && (level > 0 ==> ClearAbove(levels, level + 1, range))
    && if exists f :: f in levels[0] && range.Overlaps(f) then level == 0
       else && (forall l :: 1 <= l <= level ==> MayPass(levels, l, range))
            && (level < MAX_MEM_COMPACT_LEVEL ==> !MayPass(levels, level + 1, range))
  }

  method PickLevelForMemTableOutput(levels: seq<seq<File>>, smallest: UserKey, largest: UserKey) returns (level: nat)
    requires VersionOk(levels)
    requires forall l, f :: 0 <= l < NUM_LEVELS && f in levels[l] ==> f.largest.Parses()
    ensures IsPick(levels, Range(Some(smallest), Some(largest)), level)
  {
    hide FilesOk, Disjoint, Overlapping, TotalFileSize, Range.Overlaps, InternalKey.Parses;
    var range := Range(Some(smallest), Some(largest));
    level := 0;
    var overlaps := SomeFileOverlapsRange(levels[0], false, range);
    if !overlaps {
      while level < MAX_MEM_COMPACT_LEVEL
        invariant level <= MAX_MEM_COMPACT_LEVEL && ClearAbove(levels, level + 1, range)
        invariant forall l :: 1 <= l <= level ==> MayPass(levels, l, range)
      {
        overlaps := SomeFileOverlapsRange(levels[level+1], true, range);
        if overlaps {
          break;
        }
        var grandparents, reached := GetOverlappingInputs(levels[level+2], false, range);
        if TotalFileSize(grandparents) > MAX_GRANDPARENT_OVERLAP_BYTES {
          break;
        }
        level := level + 1;
      }
    }
  }
}
