/** What a compaction does to point reads when its input holds keys that do not decode.  An iterator passes over such a
    key (db/db_iter.cc, ParseKey); Version::Get stops at one and reports corruption (db/version_set.cc, SaveValue). */
module PointReads {
  import opened Keys
  import opened Visibility
  import opened DropRule
  import opened Versions
  import opened VersionBuilder
  import opened CompactionInputs
  import opened Compactions
  import opened LevelMoves
  import opened Boundary
  import DbIters

  // ---------- iterators ----------

  /** An iterator over everything lists, from the smallest snapshot on, the same for `u` before and after, exactly when
      no undecodable key stands between an obsolete deletion of `u` and an older value of `u`. */
  lemma IterationPreservedExactly(upper: set<Entry>, input: seq<Entry>, deeper: set<Entry>, smallestSnapshot: Sequence,
                                  isBase: UserKey -> bool, u: UserKey, before: seq<Entry>, after: seq<Entry>)
    requires Sorted(input) && OneEntryPerSequence(upper + Elements(input) + deeper)
    requires Surrounds(upper, input, deeper, isBase)
    requires Sorted(before) && Elements(before) == upper + Elements(input) + deeper
    requires Sorted(after)
    requires Elements(after) == upper + Elements(Kept(input, |input|, smallestSnapshot, isBase)) + deeper
    ensures ShowAlike(before, after, u, smallestSnapshot)
       <==> !Resurrects(upper, input, smallestSnapshot, isBase, u)
  {
    hide Kept, Resurrects, Surrounds, Lookup, SameReads, ShowAlike;
    SurvivorsAreOne(upper, input, deeper, smallestSnapshot, isBase);
    PreservedExactly(upper, input, deeper, smallestSnapshot, isBase, u);
    AlikeIsSameReads(before, after, u, smallestSnapshot);
  }

  lemma SurvivorsAreOne(upper: set<Entry>, input: seq<Entry>, deeper: set<Entry>, smallestSnapshot: Sequence,
                        isBase: UserKey -> bool)
    requires OneEntryPerSequence(upper + Elements(input) + deeper)
    ensures OneEntryPerSequence(upper + Elements(Kept(input, |input|, smallestSnapshot, isBase)) + deeper)
  {
    hide Kept;
    KeptMembers(input, |input|, smallestSnapshot, isBase);
    assert upper + Elements(Kept(input, |input|, smallestSnapshot, isBase)) + deeper <= upper + Elements(input) + deeper;
  }

  /** What the list shows for a user key at a sequence number. */
  ghost predicate Shows(es: seq<Entry>, s: Sequence, u: UserKey, v: Bytes) {
    (u, v) in DbIters.Pairs(es, s, |es|)
  }

  ghost predicate AlikeAt(before: seq<Entry>, after: seq<Entry>, u: UserKey, s: Sequence) {
    forall v :: Shows(after, s, u, v) <==> Shows(before, s, u, v)
  }

  ghost predicate ShowAlike(before: seq<Entry>, after: seq<Entry>, u: UserKey, from: Sequence) {
    forall s: Sequence :: from <= s ==> AlikeAt(before, after, u, s)
  }

  lemma ShowsRead(es: seq<Entry>, s: Sequence, u: UserKey)
    requires Sorted(es) && OneEntryPerSequence(Elements(es))
    ensures forall v :: Shows(es, s, u, v) <==> Lookup(Elements(es), u, s) == Some(v)
  {
    forall v ensures Shows(es, s, u, v) <==> Lookup(Elements(es), u, s) == Some(v) {
      DbIters.PairsAreReads(es, s, u, v);
    }
  }

  /** Two lists show the same for a user key exactly when reads of it agree. */
  lemma AlikeIsSameReads(before: seq<Entry>, after: seq<Entry>, u: UserKey, from: Sequence)
    requires Sorted(before) && OneEntryPerSequence(Elements(before))
    requires Sorted(after) && OneEntryPerSequence(Elements(after))
    ensures ShowAlike(before, after, u, from) <==> SameReads(Elements(after), Elements(before), u, from)
  {
    hide Lookup, Shows, OneEntryPerSequence, Sorted;
    forall s: Sequence | from <= s
      ensures AlikeAt(before, after, u, s) <==> Lookup(Elements(after), u, s) == Lookup(Elements(before), u, s)
    {
      ShowsRead(after, s, u);
      ShowsRead(before, s, u);
      SameOption(Lookup(Elements(after), u, s), Lookup(Elements(before), u, s));
    }
  }

  lemma SameOption(a: Option<Bytes>, b: Option<Bytes>)
    ensures a == b <==> forall v :: a == Some(v) <==> b == Some(v)
  {
    if a != b {
      var v := if a.Some? then a.value else b.value;
      assert (a == Some(v)) != (b == Some(v));
    }
  }

  // ---------- point reads of one sorted run ----------

  /** What a table of the entries hands over, and what the read makes of it. */
  function RunRead(es: seq<Entry>, u: UserKey, s: Sequence): SaverState {
    SaveValue(FirstFrom(es, SeekKey(u, s)), u)
  }

  /** The first entry at or after the lookup key is an obsolete deletion, and of those behind it the first that is not
      dropped does not decode. */
  ghost predicate StruckBehind(input: seq<Entry>, smallestSnapshot: Sequence, isBase: UserKey -> bool, u: UserKey,
                               s: Sequence, i: nat, j: nat)
  {
    && i < j < |input| && BeginsAt(input, SeekKey(u, s), i)
    && Obsolete(input[i], smallestSnapshot, isBase)
    && (forall k :: i < k < j ==> Dropped(input, k, smallestSnapshot, isBase))
    && !input[j].key.Parses()
  }

  /** The first surviving entry among those from `i` on. */
  lemma FirstSurvivor(input: seq<Entry>, smallestSnapshot: Sequence, isBase: UserKey -> bool, i: nat) returns (j: nat)
    requires i <= |input|
    ensures i <= j <= |input| && forall k :: i <= k < j ==> Dropped(input, k, smallestSnapshot, isBase)
    ensures j < |input| ==> !Dropped(input, j, smallestSnapshot, isBase)
  {
    j := i;
    while j < |input| && Dropped(input, j, smallestSnapshot, isBase)
      invariant i <= j <= |input| && forall k :: i <= k < j ==> Dropped(input, k, smallestSnapshot, isBase)
    {
      j := j + 1;
    }
  }

  lemma InOrder(es: seq<Entry>, i: nat, j: nat)
    requires Sorted(es) && i < |es| && j < |es|
    ensures (i < j ==> Less(es[i].key, es[j].key)) && (j < i ==> Less(es[j].key, es[i].key))
  {
  }

  /** `i` is where the entries at or after the key begin. */
  ghost predicate BeginsAt(input: seq<Entry>, key: InternalKey, i: nat) {
    && i <= |input| && (forall k :: 0 <= k < i ==> Less(input[k].key, key))
    && (forall k :: i <= k < |input| ==> AtMost(key, input[k].key))
  }

  lemma SeekSurvivor(input: seq<Entry>, smallestSnapshot: Sequence, isBase: UserKey -> bool, key: InternalKey, i: nat, j: nat)
    requires Sorted(input) && BeginsAt(input, key, i) && i <= j <= |input|
    requires forall k :: i <= k < j ==> Dropped(input, k, smallestSnapshot, isBase)
    requires j < |input| ==> !Dropped(input, j, smallestSnapshot, isBase)
    ensures FirstFrom(Kept(input, |input|, smallestSnapshot, isBase), key) == if j < |input| then Some(input[j]) else None
  {
    hide Kept, Dropped;
    var kept := Kept(input, |input|, smallestSnapshot, isBase);
    KeptMembers(input, |input|, smallestSnapshot, isBase);
    KeptIsSorted(input, |input|, smallestSnapshot, isBase);
    FirstFromIsFirst(kept, key);
    var r := FirstFrom(kept, key);
    if j < |input| {
      assert input[j] in kept && input[j] in Elements(kept);
      var m :| 0 <= m < |input| && input[m] == r.value && !Dropped(input, m, smallestSnapshot, isBase);
      InOrder(input, j, m);
    }
  }

  lemma SeekFirst(input: seq<Entry>, key: InternalKey, i: nat)
    requires Sorted(input) && BeginsAt(input, key, i)
    ensures FirstFrom(input, key) == if i < |input| then Some(input[i]) else None
  {
    FirstFromIsFirst(input, key);
    if i < |input| {
      assert input[i] in Elements(input);
      var r := FirstFrom(input, key).value;
      var m :| 0 <= m < |input| && input[m] == r;
      InOrder(input, i, m);
    }
  }

  lemma SomeBeginning(input: seq<Entry>, key: InternalKey) returns (i: nat)
    requires Sorted(input)
    ensures BeginsAt(input, key, i)
  {
    i := 0;
    while i < |input| && Less(input[i].key, key)
      invariant i <= |input| && forall k :: 0 <= k < i ==> Less(input[k].key, key)
    {
      i := i + 1;
    }
    forall k | i <= k < |input| ensures AtMost(key, input[k].key) {
      InOrder(input, i, k);
    }
  }

  /** The entry that a read at or above the smallest snapshot finds is never dropped for an entry before it. */
  lemma FoundIsNotShadowed(input: seq<Entry>, smallestSnapshot: Sequence, u: UserKey, s: Sequence, i: nat)
    requires i < |input| && smallestSnapshot <= s && BeginsAt(input, SeekKey(u, s), i)
    ensures !Shadowed(input, i, smallestSnapshot)
  {
  }

  /** Behind a dropped deletion that the read finds, no entry of its user key survives before one that does not
      decode. */
  lemma NoSurvivorBehind(input: seq<Entry>, smallestSnapshot: Sequence, isBase: UserKey -> bool, i: nat, j: nat)
    requires Sorted(input) && i < j < |input| && Obsolete(input[i], smallestSnapshot, isBase)
    requires forall k :: i <= k < j ==> Dropped(input, k, smallestSnapshot, isBase)
    requires !Dropped(input, j, smallestSnapshot, isBase) && input[j].key.Parses()
    ensures input[j].key.user > input[i].key.user
  {
    assert Less(input[i].key, input[j].key) && Less(input[j-1].key, input[j].key);
    assert i == j - 1 || Less(input[i].key, input[j-1].key);
    assert Dropped(input, j - 1, smallestSnapshot, isBase);
  }

  /** Dropping entries changes a point read of the run, at or above the smallest snapshot, exactly when the read found an
      obsolete deletion and an undecodable key comes up in its place; and then from not found to corruption. */
  lemma RunReadExactly(input: seq<Entry>, smallestSnapshot: Sequence, isBase: UserKey -> bool, u: UserKey, s: Sequence)
    requires Sorted(input) && smallestSnapshot <= s
    ensures var kept := Kept(input, |input|, smallestSnapshot, isBase);
      ResultOf(RunRead(kept, u, s)) != ResultOf(RunRead(input, u, s))
      <==> exists i: nat, j: nat :: StruckBehind(input, smallestSnapshot, isBase, u, s, i, j)
    ensures var before, after := RunRead(input, u, s), RunRead(Kept(input, |input|, smallestSnapshot, isBase), u, s);
      ResultOf(after) != ResultOf(before) ==> ResultOf(before) == NotFound && ResultOf(after) == Corruption
  {
    hide Kept, FirstFrom, BeginsAt, Shadowed;
    var key := SeekKey(u, s);
    if i: nat, j: nat :| StruckBehind(input, smallestSnapshot, isBase, u, s, i, j) {
      UndecodableSurvives(input, smallestSnapshot, isBase, j);
      SeekFirst(input, key, i);
      SeekSurvivor(input, smallestSnapshot, isBase, key, i, j);
    } else {
      var i := SomeBeginning(input, key);
      var j := FirstSurvivor(input, smallestSnapshot, isBase, i);
      SeekFirst(input, key, i);
      SeekSurvivor(input, smallestSnapshot, isBase, key, i, j);
      if i < j {
        assert Dropped(input, i, smallestSnapshot, isBase);
        FoundIsNotShadowed(input, smallestSnapshot, u, s, i);
        assert !StruckBehind(input, smallestSnapshot, isBase, u, s, i, j);
        FoundIsBeyond(input, u, s, i);
        if j < |input| {
          NoSurvivorBehind(input, smallestSnapshot, isBase, i, j);
        }
      }
    }
  }

  lemma UndecodableSurvives(input: seq<Entry>, smallestSnapshot: Sequence, isBase: UserKey -> bool, j: nat)
    requires j < |input| && !input[j].key.Parses()
    ensures !Dropped(input, j, smallestSnapshot, isBase)
  {
  }

  lemma FoundIsBeyond(input: seq<Entry>, u: UserKey, s: Sequence, i: nat)
    requires i < |input| && BeginsAt(input, SeekKey(u, s), i)
    ensures u <= input[i].key.user
  {
  }

  /** A deletion before an undecodable key: point reads of the key report corruption once the deletion is gone. */
  lemma DeletionHidesUndecodable(isBase: UserKey -> bool)
    requires isBase(KEY)
    ensures var input := [DELETION, UNDECODABLE];
      && Sorted(input) && OneEntryPerSequence({} + Elements(input) + {}) && Surrounds({}, input, {}, isBase)
      && !Resurrects({}, input, 3, isBase, KEY)
      && RunRead(input, KEY, 3) == StateDeleted
      && Kept(input, 2, 3, isBase) == [UNDECODABLE] && RunRead([UNDECODABLE], KEY, 3) == StateCorrupt
  {
    var input := [DELETION, UNDECODABLE];
    assert Kept(input, 2, 3, isBase) == [UNDECODABLE] by {
      assert Kept(input, 0, 3, isBase) == [] && Kept(input, 1, 3, isBase) == [];
    }
    hide Kept;
  }

  /** Nor does the undecodable key have to be of the same user key. */
  lemma DeletionHidesUndecodableNeighbour(isBase: UserKey -> bool)
    requires isBase(KEY)
    ensures var other := Entry(InternalKey(KEY + 1.0, 2, 9), []);
      var input := [DELETION, other];
      && Sorted(input) && RunRead(input, KEY, 3) == StateDeleted
      && Kept(input, 2, 3, isBase) == [other] && RunRead([other], KEY, 3) == StateCorrupt
  {
    var other := Entry(InternalKey(KEY + 1.0, 2, 9), []);
    var input := [DELETION, other];
    assert Kept(input, 2, 3, isBase) == [other] by {
      assert Kept(input, 0, 3, isBase) == [] && Kept(input, 1, 3, isBase) == [];
    }
    hide Kept;
  }

  /** Where an iterator finds the value again, a point read reports corruption. */
  lemma PointReadOfBroughtBack(isBase: UserKey -> bool, s: Sequence)
    requires isBase(KEY) && 3 <= s
    ensures var input := [DELETION, UNDECODABLE, HIDDEN];
      && RunRead(input, KEY, s) == StateDeleted && RunRead(Kept(input, 3, 3, isBase), KEY, s) == StateCorrupt
  {
    var input := [DELETION, UNDECODABLE, HIDDEN];
    assert Kept(input, 3, 3, isBase) == [UNDECODABLE, HIDDEN] by {
      assert Kept(input, 0, 3, isBase) == [] && Kept(input, 1, 3, isBase) == [];
      assert Kept(input, 2, 3, isBase) == [UNDECODABLE];
    }
    hide Kept;
  }

  // ---------- where a search of the levels meets an undecodable key ----------

  /** The search gets down to level `l`, and there meets an undecodable key. */
  ghost predicate StruckAt(levels: seq<seq<File>>, u: UserKey, s: Sequence, tableGet: (File, InternalKey) -> Option<Entry>,
                           l: nat)
    requires |levels| > 0 && DistinctNumbers(levels[0])
  {
    && l < |levels| && LevelState(levels, l, u, s, tableGet) == StateCorrupt
    && forall k :: 0 <= k < l ==> LevelState(levels, k, u, s, tableGet) == StateNotFound
  }

  ghost predicate Struck(levels: seq<seq<File>>, u: UserKey, s: Sequence, tableGet: (File, InternalKey) -> Option<Entry>)
    requires |levels| > 0 && DistinctNumbers(levels[0])
  {
    exists l: nat :: StruckAt(levels, u, s, tableGet, l)
  }

  lemma {:induction false} StruckIsCorruption(levels: seq<seq<File>>, u: UserKey, s: Sequence,
                                              tableGet: (File, InternalKey) -> Option<Entry>, from: nat)
    requires 0 < |levels| && DistinctNumbers(levels[0]) && from <= |levels|
    requires forall k :: 0 <= k < from ==> LevelState(levels, k, u, s, tableGet) == StateNotFound
    ensures PointRead(levels, u, s, tableGet, from) == Corruption <==> Struck(levels, u, s, tableGet)
    decreases |levels| - from
  {
    hide LevelState;
    if from < |levels| {
      var st := LevelState(levels, from, u, s, tableGet);
      if st == StateNotFound {
        StruckIsCorruption(levels, u, s, tableGet, from + 1);
      } else if st == StateCorrupt {
        assert StruckAt(levels, u, s, tableGet, from);
      }
    }
  }

  /** Level 0 strikes exactly when a table in reach of the user key hands over what does not decode, and no newer table
      in reach knows the key or does so too. */
  lemma ZeroLevelStrikes(files: seq<File>, u: UserKey, s: Sequence, tableGet: (File, InternalKey) -> Option<Entry>)
    requires DistinctNumbers(files)
    ensures ZeroState(files, u, s, tableGet) == StateCorrupt <==> exists f :: StrikesFirst(files, u, s, tableGet, f)
  {
    hide TableState, Overlaps, ByNumber;
    var tried := ByNumber(Overlaps(files, u));
    var i := 0;
    while i < |tried| && TableState(tried[i], u, s, tableGet) == StateNotFound
      invariant i <= |tried| && forall k :: 0 <= k < i ==> TableState(tried[k], u, s, tableGet) == StateNotFound
    {
      i := i + 1;
    }
    FirstStateFrom(tried, i, u, s, tableGet);
    if i < |tried| && TableState(tried[i], u, s, tableGet) == StateCorrupt {
      assert tried[i] in tried;
      forall g | g in files && UserOverlap(g, u) && g.number > tried[i].number
        ensures TableState(g, u, s, tableGet) == StateNotFound
      {
        assert g in tried;
        var k :| 0 <= k < |tried| && tried[k] == g;
      }
      assert StrikesFirst(files, u, s, tableGet, tried[i]);
    }
    if f :| StrikesFirst(files, u, s, tableGet, f) {
      assert f in tried;
      var k :| 0 <= k < |tried| && tried[k] == f;
      forall m | 0 <= m < k ensures TableState(tried[m], u, s, tableGet) == StateNotFound {
        assert tried[m] in tried;
      }
      FirstStateFrom(tried, k, u, s, tableGet);
    }
  }

  ghost predicate StrikesFirst(files: seq<File>, u: UserKey, s: Sequence, tableGet: (File, InternalKey) -> Option<Entry>,
                               f: File)
  {
    && f in files && UserOverlap(f, u) && TableState(f, u, s, tableGet) == StateCorrupt
    && forall g :: g in files && UserOverlap(g, u) && g.number > f.number ==> TableState(g, u, s, tableGet) == StateNotFound
  }

  /** A table in reach of the user key hands the entry over. */
  ghost predicate HandedOver(files: seq<File>, u: UserKey, s: Sequence, tableGet: (File, InternalKey) -> Option<Entry>,
                             e: Entry)
  {
    exists f :: f in files && UserOverlap(f, u) && e in f.entries && tableGet(f, SeekKey(u, s)) == Some(e)
  }

  /** A sorted level strikes exactly when its first entry at or after the lookup key does not decode and is handed over;
      an entry of the sought user key always is. */
  lemma SortedLevelStrikes(files: seq<File>, u: UserKey, s: Sequence, tableGet: (File, InternalKey) -> Option<Entry>)
    requires FilesOk(files) && Disjoint(files) && TableLookups(tableGet)
    ensures SortedState(files, u, s, tableGet) == StateCorrupt
       <==> exists e :: FirstAt(FilesData(files), SeekKey(u, s), e) && !e.key.Parses() && HandedOver(files, u, s, tableGet, e)
    ensures forall e :: FirstAt(FilesData(files), SeekKey(u, s), e) && e.key.user == u && !e.key.Parses()
                        ==> SortedState(files, u, s, tableGet) == StateCorrupt
  {
    var key := SeekKey(u, s);
    var index := SomeIndex(files, key);
    LevelFirst(files, key, index);
    SortedStateAt(files, index, u, s, tableGet);
    forall e | FirstAt(FilesData(files), key, e) && e.key.user == u && !e.key.Parses()
      ensures SortedState(files, u, s, tableGet) == StateCorrupt
    {
      OwnEntryHanded(files, u, s, tableGet, e);
    }
    if index < |files| {
      LedToStrikes(files, index, u, s, tableGet);
    }
  }

  lemma LedToStrikes(files: seq<File>, index: nat, u: UserKey, s: Sequence, tableGet: (File, InternalKey) -> Option<Entry>)
    requires FilesOk(files) && Disjoint(files) && TableLookups(tableGet)
    requires LedTo(files, SeekKey(u, s), index) && index < |files|
    ensures u >= files[index].smallest.user && TableState(files[index], u, s, tableGet) == StateCorrupt
       <==> exists e :: FirstAt(FilesData(files), SeekKey(u, s), e) && !e.key.Parses() && HandedOver(files, u, s, tableGet, e)
  {
    var key, f := SeekKey(u, s), files[index];
    LevelFirst(files, key, index);
    var r := FirstFrom(f.entries, key).value;
    assert TableAnswer(f.entries, key, tableGet(f, key)) && f in files;
    if e :| FirstAt(FilesData(files), key, e) && !e.key.Parses() && HandedOver(files, u, s, tableGet, e) {
      var g: File :| g in files && UserOverlap(g, u) && e in g.entries && tableGet(g, key) == Some(e);
      SameFirst(FilesData(files), key, e, r);
      OneFileHolds(files, f, r, g, e);
    }
    if u >= f.smallest.user && TableState(f, u, s, tableGet) == StateCorrupt {
      EntryWithinFile(f, r);
      assert HandedOver(files, u, s, tableGet, r);
    }
  }

  /** In a sorted level a key stands in one file. */
  lemma OneFileHolds(files: seq<File>, f: File, a: Entry, g: File, b: Entry)
    requires FilesOk(files) && Disjoint(files) && f in files && g in files && a in f.entries && b in g.entries
    requires a.key == b.key
    ensures f == g
  {
    var i :| 0 <= i < |files| && files[i] == f;
    var j :| 0 <= j < |files| && files[j] == g;
    if i < j {
      EarlierFileEarlierKey(files, i, j, a, b);
    } else if j < i {
      EarlierFileEarlierKey(files, j, i, b, a);
    }
  }

  /** With nothing known down to a level and no corruption found at all, that level is not struck. */
  lemma {:induction false} CleanDownTo(levels: seq<seq<File>>, u: UserKey, s: Sequence,
                                       tableGet: (File, InternalKey) -> Option<Entry>, level: nat, from: nat)
    requires VersionOk(levels) && NumberedByAge(levels[0]) && TableLookups(tableGet) && from <= level < NUM_LEVELS
    requires forall l :: from <= l < level ==> !Knows(FilesData(levels[l]), u, s)
    requires PointRead(levels, u, s, tableGet, from) != Corruption
    ensures LevelState(levels, level, u, s, tableGet) != StateCorrupt
    decreases level - from
  {
    hide LevelState;
    LevelStateSettles(levels, from, u, s, tableGet);
    if from < level {
      var st := LevelState(levels, from, u, s, tableGet);
      if st != StateCorrupt {
        UnknownState(FilesData(levels[from]), u, s, st);
      }
      CleanDownTo(levels, u, s, tableGet, level, from + 1);
    }
  }

  lemma UnknownState(data: set<Entry>, u: UserKey, s: Sequence, st: SaverState)
    requires Settles(data, u, s, st)
    ensures st == StateNotFound || Knows(data, u, s)
  {
  }

  // ---------- what a compaction changes ----------

  /** When an obsolete deletion is dropped and yet an entry behind it can be read, an undecodable key of the user key
      survives between them. */
  lemma UndecodableBetween(input: seq<Entry>, u: UserKey, s: Sequence, smallestSnapshot: Sequence,
                           isBase: UserKey -> bool, n: Entry, e: Entry)
    returns (x: Entry)
    requires Sorted(input) && OneEntryPerSequence(Elements(input)) && smallestSnapshot <= s
    requires Newest(Elements(input), u, s, n) && Obsolete(n, smallestSnapshot, isBase)
    requires e in Kept(input, |input|, smallestSnapshot, isBase) && Readable(e, u, s)
    ensures x in Kept(input, |input|, smallestSnapshot, isBase) && !x.key.Parses() && x.key.user == u
    ensures AtMost(SeekKey(u, s), x.key) && Less(x.key, e.key)
  {
    hide Kept;
    KeptMembers(input, |input|, smallestSnapshot, isBase);
    var i :| 0 <= i < |input| && input[i] == n;
    var j :| 0 <= j < |input| && input[j] == e && !Dropped(input, j, smallestSnapshot, isBase);
    assert e in Elements(input) && i != j;
    InOrder(input, j, i);
    assert i < j && Less(input[i].key, input[j].key) && Less(input[j-1].key, input[j].key);
    assert i == j - 1 || Less(input[i].key, input[j-1].key);
    x := input[j-1];
    assert !Dropped(input, j - 1, smallestSnapshot, isBase);
  }

  /** The entries that a read cannot see. */
  ghost function Unseen(data: set<Entry>, u: UserKey, s: Sequence): set<Entry> {
    set e | e in data && !Readable(e, u, s)
  }

  /** All survivors settle the read, or, beside an obsolete deletion, the survivors that it cannot see. */
  lemma SettledOrUnseen(input: seq<Entry>, u: UserKey, s: Sequence, smallestSnapshot: Sequence, isBase: UserKey -> bool)
    requires Sorted(input) && OneEntryPerSequence(Elements(input)) && smallestSnapshot <= s
    ensures var all, kept := Elements(input), Elements(Kept(input, |input|, smallestSnapshot, isBase));
      || Settled(all, kept, u, s, smallestSnapshot, isBase)
      || (Settled(all, Unseen(kept, u, s), u, s, smallestSnapshot, isBase)
          && exists n :: Newest(all, u, s, n) && Obsolete(n, smallestSnapshot, isBase))
  {
    hide Kept;
    KeptMembers(input, |input|, smallestSnapshot, isBase);
    var all, kept := Elements(input), Elements(Kept(input, |input|, smallestSnapshot, isBase));
    assert kept <= all && Unseen(kept, u, s) <= all;
    if n :| Newest(all, u, s, n) {
      assert forall m :: Newest(all, u, s, m) ==> m == n;
      var i :| 0 <= i < |input| && input[i] == n;
      NewestIsNotShadowed(all, input, smallestSnapshot, i, s);
      assert !Knows(Unseen(kept, u, s), u, s);
      if !Obsolete(n, smallestSnapshot, isBase) {
        assert n in kept;
      }
    }
  }

  /** If the level after is not struck, what brings the value back is hidden by a newer entry in a file left behind, and
      then the entries that the read cannot see are all that matters. */
  lemma UnseenSuffices(files: seq<File>, rest: set<Entry>, input: seq<Entry>, u: UserKey, s: Sequence,
                       smallestSnapshot: Sequence, isBase: UserKey -> bool, n: Entry,
                       tableGet: (File, InternalKey) -> Option<Entry>)
    requires FilesOk(files) && Disjoint(files) && TableLookups(tableGet)
    requires Sorted(input) && OneEntryPerSequence(Elements(input)) && smallestSnapshot <= s
    requires Newest(Elements(input), u, s, n) && Obsolete(n, smallestSnapshot, isBase)
    requires FilesData(files) == rest + Elements(Kept(input, |input|, smallestSnapshot, isBase))
    requires OneEntryPerSequence(FilesData(files)) && SortedState(files, u, s, tableGet) != StateCorrupt
    ensures var kept := Elements(Kept(input, |input|, smallestSnapshot, isBase));
      forall deep :: TwoLevels({}, rest + kept, deep, u, s) == TwoLevels({}, rest + Unseen(kept, u, s), deep, u, s)
  {
    hide Kept, SortedState, FilesOk, Disjoint, TableLookups, FilesData, Lookup, Sorted;
    var kept := Elements(Kept(input, |input|, smallestSnapshot, isBase));
    var all, less := rest + kept, rest + Unseen(kept, u, s);
    if e :| e in kept && Readable(e, u, s) {
      var n' := FirstSeen(files, rest, input, u, s, smallestSnapshot, isBase, n, e, tableGet);
      assert Newest(less, u, s, n') && OneEntryPerSequence(less);
      LookupIsOutcome(all, u, s, n');
      LookupIsOutcome(less, u, s, n');
      assert Knows(all, u, s) && Knows(less, u, s);
    } else {
      assert less == all;
    }
  }

  lemma FirstSeen(files: seq<File>, rest: set<Entry>, input: seq<Entry>, u: UserKey, s: Sequence,
                  smallestSnapshot: Sequence, isBase: UserKey -> bool, n: Entry, e: Entry,
                  tableGet: (File, InternalKey) -> Option<Entry>)
    returns (first: Entry)
    requires FilesOk(files) && Disjoint(files) && TableLookups(tableGet)
    requires Sorted(input) && OneEntryPerSequence(Elements(input)) && smallestSnapshot <= s
    requires Newest(Elements(input), u, s, n) && Obsolete(n, smallestSnapshot, isBase)
    requires FilesData(files) == rest + Elements(Kept(input, |input|, smallestSnapshot, isBase))
    requires SortedState(files, u, s, tableGet) != StateCorrupt
    requires e in Kept(input, |input|, smallestSnapshot, isBase) && Readable(e, u, s)
    ensures first in rest && Newest(FilesData(files), u, s, first)
  {
    hide Kept, SortedState, FilesOk, Disjoint, TableLookups, Sorted;
    var key := SeekKey(u, s);
    var x := UndecodableBetween(input, u, s, smallestSnapshot, isBase, n, e);
    first := FirstOfLevel(files, key, x);
    assert first.key.user == u;
    OwnEntryHanded(files, u, s, tableGet, first);
    FirstIsNewest(FilesData(files), u, s, first);
    NotASurvivor(FilesData(files), input, u, s, smallestSnapshot, isBase, n, first);
  }

  lemma NotASurvivor(data: set<Entry>, input: seq<Entry>, u: UserKey, s: Sequence, smallestSnapshot: Sequence,
                     isBase: UserKey -> bool, n: Entry, first: Entry)
    requires Sorted(input) && OneEntryPerSequence(Elements(input)) && smallestSnapshot <= s
    requires Newest(Elements(input), u, s, n) && Obsolete(n, smallestSnapshot, isBase)
    requires Elements(Kept(input, |input|, smallestSnapshot, isBase)) <= data
    requires FirstAt(data, SeekKey(u, s), first) && Readable(first, u, s)
    ensures first !in Kept(input, |input|, smallestSnapshot, isBase)
  {
    hide Kept, Sorted;
    if first in Kept(input, |input|, smallestSnapshot, isBase) {
      var y := UndecodableBetween(input, u, s, smallestSnapshot, isBase, n, first);
    }
  }

  lemma FirstOfLevel(files: seq<File>, key: InternalKey, x: Entry) returns (first: Entry)
    requires FilesOk(files) && Disjoint(files) && x in FilesData(files) && AtMost(key, x.key)
    ensures FirstAt(FilesData(files), key, first) && AtMost(first.key, x.key)
  {
    var index := SomeIndex(files, key);
    LevelFirst(files, key, index);
    first := FirstFrom(files[index].entries, key).value;
  }

  lemma TwoLevelsBelow(rest0: set<Entry>, lower: set<Entry>, deep: Option<Bytes>, u: UserKey, s: Sequence)
    ensures TwoLevels(rest0, lower, deep, u, s)
         == if Knows(rest0, u, s) then Lookup(rest0, u, s) else TwoLevels({}, lower, deep, u, s)
  {
  }

  /** The version after the compaction can be searched like the one before. */
  lemma SearchableAfter(levels: seq<seq<File>>, levels': seq<seq<File>>, level: nat, inputs0: seq<File>,
                        inputs1: seq<File>, outputs: seq<File>)
    requires LevelsInOrder(levels) && OneEntryPerSequence(LevelsData(levels, 0))
    requires ChosenInputs(levels, level, inputs0, inputs1) && Relisted(levels, levels', level, inputs0, inputs1, outputs)
    requires FilesOk(outputs) && Disjoint(outputs) && FilesData(outputs) <= FilesData(inputs0) + FilesData(inputs1)
    ensures VersionOk(levels') && NumberedByAge(levels'[0]) && OneEntryPerSequence(LevelsData(levels', 0))
  {
    assert VersionOk(levels) && level + 1 < NUM_LEVELS;
    ChoiceStandsApart(levels, level, inputs0, inputs1);
    MovedDownVersionOk(levels, levels', level, inputs0, inputs1, outputs);
    LevelZeroAfter(levels, levels', level, inputs0, inputs1, outputs);
    hide VersionOk, ChosenInputs, LevelsInOrder, Relisted, LevelsData, FilesData;
    DataBefore({}, levels, levels', level, inputs0, inputs1, outputs);
    DataAfter({}, levels, levels', level, inputs0, inputs1, outputs);
    assert LevelsData(levels', 0) <= {} + LevelsData(levels', 0) <= {} + LevelsData(levels, 0);
  }

  lemma LevelZeroAfter(levels: seq<seq<File>>, levels': seq<seq<File>>, level: nat, inputs0: seq<File>,
                       inputs1: seq<File>, outputs: seq<File>)
    requires |levels| == NUM_LEVELS && NumberedByAge(levels[0])
    requires Relisted(levels, levels', level, inputs0, inputs1, outputs)
    ensures NumberedByAge(levels'[0])
  {
    if level == 0 {
      DistinctAfterReplace(levels[0], inputs0, [], levels'[0]);
    }
  }

  /** With no undecodable key met after the compaction, the levels answer differently exactly when the read is exposed
      by a file left behind. */
  lemma CleanReadsChange(levels: seq<seq<File>>, levels': seq<seq<File>>, level: nat, inputs0: seq<File>,
                         inputs1: seq<File>, outputs: seq<File>, input: seq<Entry>, u: UserKey, s: Sequence,
                         smallestSnapshot: Sequence, tableGet: (File, InternalKey) -> Option<Entry>)
    requires LevelsInOrder(levels) && OneEntryPerSequence(LevelsData(levels, 0))
    requires ChosenInputs(levels, level, inputs0, inputs1) && Relisted(levels, levels', level, inputs0, inputs1, outputs)
    requires Sorted(input) && Elements(input) == FilesData(inputs0) + FilesData(inputs1) && smallestSnapshot <= s
    requires Concat(outputs) == Kept(input, |input|, smallestSnapshot, IsBase(levels, level))
    requires VersionOk(levels') && NumberedByAge(levels'[0]) && OneEntryPerSequence(LevelsData(levels', 0))
    requires TableLookups(tableGet) && PointRead(levels', u, s, tableGet, 0) != Corruption
    ensures LevelRead(levels', u, s, 0) != LevelRead(levels, u, s, 0)
       <==> Exposed(levels, level, inputs0, inputs1, u, s, smallestSnapshot)
  {
    hide LevelsInOrder, VersionOk, ChosenInputs, Relisted, Settled, Disagrees, Undeletes, LevelRead, Kept, Concat, Sorted,
         LeftBehind, Shallow, FilesData, LevelsData, NumberedByAge, TwoLevels, LevelState, PointRead, OneEntryPerSequence,
         TableLookups, IsBase, Lookup, Knows;
    OrderedParts(levels);
    SameAbove(levels, levels', level, inputs0, inputs1, outputs);
    if Knows(Shallow(levels, level), u, s) {
      ReadFromLevel(levels, levels', level, u, s, 0);
    } else {
      var isBase := IsBase(levels, level);
      if isBase(u) {
        BaseReadsNothingDeeper(levels, level, u, s, level + 2);
      }
      var kept := UsefulSurvivors(levels, levels', level, inputs0, inputs1, outputs, input, u, s, smallestSnapshot, tableGet);
      ReadChange(levels, levels', level, inputs0, inputs1, outputs, kept, u, s, smallestSnapshot, isBase);
    }
  }

  lemma SameAbove(levels: seq<seq<File>>, levels': seq<seq<File>>, level: nat, inputs0: seq<File>,
                  inputs1: seq<File>, outputs: seq<File>)
    requires Relisted(levels, levels', level, inputs0, inputs1, outputs)
    ensures level + 1 < |levels| == |levels'| && forall l :: 0 <= l < level ==> levels'[l] == levels[l]
  {
  }

  lemma InputsAreOne(levels: seq<seq<File>>, levels': seq<seq<File>>, level: nat, inputs0: seq<File>,
                     inputs1: seq<File>, outputs: seq<File>)
    requires Relisted(levels, levels', level, inputs0, inputs1, outputs) && OneEntryPerSequence(LevelsData(levels, 0))
    ensures OneEntryPerSequence(FilesData(inputs0) + FilesData(inputs1))
  {
    InputsInLevels(levels, level, inputs0, inputs1);
  }

  lemma UnknownAbove(levels: seq<seq<File>>, level: nat, u: UserKey, s: Sequence)
    requires level <= |levels| && !Knows(Shallow(levels, level), u, s)
    ensures forall l :: 0 <= l < level ==> !Knows(FilesData(levels[l]), u, s)
  {
    hide Knows, Shallow;
    forall l | 0 <= l < level ensures !Knows(FilesData(levels[l]), u, s) {
      KnownAbove(levels, level, l, u, s);
    }
  }

  lemma KnownAbove(levels: seq<seq<File>>, level: nat, l: nat, u: UserKey, s: Sequence)
    requires l < level <= |levels|
    ensures Knows(FilesData(levels[l]), u, s) ==> Knows(Shallow(levels, level), u, s)
  {
    if e :| e in FilesData(levels[l]) && Readable(e, u, s) {
      assert e in Shallow(levels, level);
    }
  }

  lemma UsefulSurvivors(levels: seq<seq<File>>, levels': seq<seq<File>>, level: nat, inputs0: seq<File>,
                        inputs1: seq<File>, outputs: seq<File>, input: seq<Entry>, u: UserKey, s: Sequence,
                        smallestSnapshot: Sequence, tableGet: (File, InternalKey) -> Option<Entry>)
    returns (kept: set<Entry>)
    requires |levels| == NUM_LEVELS && level + 1 < NUM_LEVELS && OneEntryPerSequence(LevelsData(levels, 0))
    requires Relisted(levels, levels', level, inputs0, inputs1, outputs)
    requires Sorted(input) && Elements(input) == FilesData(inputs0) + FilesData(inputs1) && smallestSnapshot <= s
    requires Concat(outputs) == Kept(input, |input|, smallestSnapshot, IsBase(levels, level))
    requires VersionOk(levels') && NumberedByAge(levels'[0]) && OneEntryPerSequence(LevelsData(levels', 0))
    requires TableLookups(tableGet) && PointRead(levels', u, s, tableGet, 0) != Corruption
    requires !Knows(Shallow(levels, level), u, s)
    ensures Settled(FilesData(inputs0) + FilesData(inputs1), kept, u, s, smallestSnapshot, IsBase(levels, level))
    ensures var rest0, rest1 := LeftBehind(levels[level], inputs0), LeftBehind(levels[level+1], inputs1);
      forall deep :: TwoLevels(rest0, rest1 + FilesData(outputs), deep, u, s) == TwoLevels(rest0, rest1 + kept, deep, u, s)
  {
    hide VersionOk, Relisted, Settled, Kept, Concat, Sorted, LeftBehind, Shallow, FilesData, LevelsData, NumberedByAge,
         TwoLevels, LevelState, PointRead, OneEntryPerSequence, TableLookups, FilesOk, Disjoint, Lookup, IsBase;
    var rest0, rest1, isBase := LeftBehind(levels[level], inputs0), LeftBehind(levels[level+1], inputs1), IsBase(levels, level);
    SameAbove(levels, levels', level, inputs0, inputs1, outputs);
    LevelOk(levels', level + 1);
    ReplacedParts(levels, levels', level, inputs0, inputs1, outputs);
    InputsAreOne(levels, levels', level, inputs0, inputs1, outputs);
    ConcatData(outputs);
    SettledOrUnseen(input, u, s, smallestSnapshot, isBase);
    kept := FilesData(outputs);
    if !Settled(Elements(input), kept, u, s, smallestSnapshot, isBase) {
      kept := Unseen(FilesData(outputs), u, s);
      var n :| Newest(Elements(input), u, s, n) && Obsolete(n, smallestSnapshot, isBase);
      forall deep ensures TwoLevels(rest0, rest1 + FilesData(outputs), deep, u, s) == TwoLevels(rest0, rest1 + kept, deep, u, s) {
        TwoLevelsBelow(rest0, rest1 + FilesData(outputs), deep, u, s);
        TwoLevelsBelow(rest0, rest1 + kept, deep, u, s);
        if !Knows(rest0, u, s) {
          NextLevelClean(levels, levels', level, u, s, tableGet);
          PartIsOne(levels', level + 1);
          UnseenSuffices(levels'[level+1], rest1, input, u, s, smallestSnapshot, isBase, n, tableGet);
        }
      }
    }
  }

  lemma LevelOk(levels: seq<seq<File>>, l: nat)
    requires VersionOk(levels) && 1 <= l < NUM_LEVELS
    ensures |levels| == NUM_LEVELS && FilesOk(levels[l]) && Disjoint(levels[l])
  {
  }

  lemma PartIsOne(levels: seq<seq<File>>, l: nat)
    requires l < |levels| && OneEntryPerSequence(LevelsData(levels, 0))
    ensures OneEntryPerSequence(FilesData(levels[l]))
  {
    assert FilesData(levels[l]) <= LevelsData(levels, 0);
  }

  lemma NextLevelClean(levels: seq<seq<File>>, levels': seq<seq<File>>, level: nat, u: UserKey, s: Sequence,
                       tableGet: (File, InternalKey) -> Option<Entry>)
    requires |levels| == NUM_LEVELS && level + 1 < NUM_LEVELS && !Knows(Shallow(levels, level), u, s)
    requires VersionOk(levels') && NumberedByAge(levels'[0]) && forall l :: 0 <= l < level ==> levels'[l] == levels[l]
    requires !Knows(FilesData(levels'[level]), u, s)
    requires TableLookups(tableGet) && PointRead(levels', u, s, tableGet, 0) != Corruption
    ensures SortedState(levels'[level+1], u, s, tableGet) != StateCorrupt
  {
    hide Shallow, PointRead, FilesData, VersionOk, NumberedByAge, TableLookups;
    UnknownAbove(levels, level, u, s);
    CleanDownTo(levels', u, s, tableGet, level + 1, 0);
  }

  /** Whatever does not decode and whatever is left behind: a point read at or above the smallest snapshot changes
      exactly when just one of the searches, before and after, meets an undecodable key, or neither does and the read is
      exposed by a file left behind. */
  lemma CompactionChangesPointReads(levels: seq<seq<File>>, levels': seq<seq<File>>, level: nat, inputs0: seq<File>,
                                    inputs1: seq<File>, outputs: seq<File>, input: seq<Entry>, u: UserKey, s: Sequence,
                                    smallestSnapshot: Sequence, tableGet: (File, InternalKey) -> Option<Entry>)
    requires LevelsInOrder(levels) && OneEntryPerSequence(LevelsData(levels, 0))
    requires ChosenInputs(levels, level, inputs0, inputs1) && Relisted(levels, levels', level, inputs0, inputs1, outputs)
    requires Sorted(input) && Elements(input) == FilesData(inputs0) + FilesData(inputs1) && smallestSnapshot <= s
    requires Concat(outputs) == Kept(input, |input|, smallestSnapshot, IsBase(levels, level))
    requires FilesOk(outputs) && Disjoint(outputs) && TableLookups(tableGet)
    ensures DistinctNumbers(levels[0]) && |levels'| == |levels| > 0 && DistinctNumbers(levels'[0])
    ensures PointRead(levels', u, s, tableGet, 0) != PointRead(levels, u, s, tableGet, 0)
       <==> if Struck(levels, u, s, tableGet) || Struck(levels', u, s, tableGet)
            then Struck(levels, u, s, tableGet) != Struck(levels', u, s, tableGet)
            else Exposed(levels, level, inputs0, inputs1, u, s, smallestSnapshot)
  {
    hide LevelsInOrder, VersionOk, NumberedByAge, ChosenInputs, Relisted, Exposed, LevelRead, Kept, Concat, Sorted, Struck,
         FilesData, LevelsData, PointRead, OneEntryPerSequence, TableLookups, FilesOk, Disjoint, DistinctNumbers;
    OrderedParts(levels);
    SurvivorsWithin(outputs, input, smallestSnapshot, IsBase(levels, level));
    SearchableAfter(levels, levels', level, inputs0, inputs1, outputs);
    SearchableParts(levels);
    SearchableParts(levels');
    StruckIsCorruption(levels, u, s, tableGet, 0);
    StruckIsCorruption(levels', u, s, tableGet, 0);
    PointReadAnswers(levels, u, s, tableGet, 0);
    PointReadAnswers(levels', u, s, tableGet, 0);
    if !Struck(levels', u, s, tableGet) {
      CleanReadsChange(levels, levels', level, inputs0, inputs1, outputs, input, u, s, smallestSnapshot, tableGet);
    }
  }

  lemma OrderedParts(levels: seq<seq<File>>)
    requires LevelsInOrder(levels)
    ensures VersionOk(levels) && |levels| == NUM_LEVELS && NumberedByAge(levels[0])
  {
  }

  lemma SearchableParts(levels: seq<seq<File>>)
    requires VersionOk(levels) && NumberedByAge(levels[0])
    ensures |levels| == NUM_LEVELS && DistinctNumbers(levels[0])
  {
  }

  lemma SurvivorsWithin(outputs: seq<File>, input: seq<Entry>, smallestSnapshot: Sequence, isBase: UserKey -> bool)
    requires Concat(outputs) == Kept(input, |input|, smallestSnapshot, isBase)
    ensures FilesData(outputs) <= Elements(input)
  {
    ConcatData(outputs);
    KeptMembers(input, |input|, smallestSnapshot, isBase);
  }

  /** After the compaction its level strikes exactly when the first entry at or after the lookup key, of those left
      behind and those that survive, does not decode and is handed over. */
  lemma OutputLevelStrikes(levels: seq<seq<File>>, levels': seq<seq<File>>, level: nat, inputs0: seq<File>,
                           inputs1: seq<File>, outputs: seq<File>, input: seq<Entry>, u: UserKey, s: Sequence,
                           smallestSnapshot: Sequence, tableGet: (File, InternalKey) -> Option<Entry>)
    requires Relisted(levels, levels', level, inputs0, inputs1, outputs) && VersionOk(levels') && DistinctNumbers(levels'[0])
    requires Concat(outputs) == Kept(input, |input|, smallestSnapshot, IsBase(levels, level)) && TableLookups(tableGet)
    ensures var there := LeftBehind(levels[level+1], inputs1)
                         + Elements(Kept(input, |input|, smallestSnapshot, IsBase(levels, level)));
      && (LevelState(levels', level + 1, u, s, tableGet) == StateCorrupt
          <==> exists e :: FirstAt(there, SeekKey(u, s), e) && !e.key.Parses()
                           && HandedOver(levels'[level+1], u, s, tableGet, e))
      && (forall e :: FirstAt(there, SeekKey(u, s), e) && e.key.user == u && !e.key.Parses()
                      ==> LevelState(levels', level + 1, u, s, tableGet) == StateCorrupt)
  {
    ConcatData(outputs);
    ReplacedParts(levels, levels', level, inputs0, inputs1, outputs);
    SortedLevelStrikes(levels'[level+1], u, s, tableGet);
  }

  // ---------- reads that met no undecodable key before ----------

  /** The first entry at or after the lookup key does not decode, and the files hand it over. */
  ghost predicate BrokenFirst(data: set<Entry>, files: seq<File>, u: UserKey, s: Sequence,
                              tableGet: (File, InternalKey) -> Option<Entry>)
  {
    exists e :: FirstAt(data, SeekKey(u, s), e) && !e.key.Parses() && HandedOver(files, u, s, tableGet, e)
  }

  /** The reads that come upon an undecodable key once `inputs0` and `inputs1` are gone and the survivors are there: no
      level above knows the user key, and an undecodable key comes first in what is left behind at the upper level; or
      that does not know the user key either, and an undecodable key comes first among what is left behind at the lower
      level and the survivors. */
  ghost predicate Uncovered(levels: seq<seq<File>>, levels': seq<seq<File>>, level: nat, inputs0: seq<File>,
                            inputs1: seq<File>, survivors: set<Entry>, u: UserKey, s: Sequence,
                            tableGet: (File, InternalKey) -> Option<Entry>)
    requires level + 1 < |levels| == |levels'|
  {
    var rest0, rest1 := LeftBehind(levels[level], inputs0), LeftBehind(levels[level+1], inputs1);
    && !Knows(Shallow(levels, level), u, s)
    && (|| (level > 0 && BrokenFirst(rest0, levels'[level], u, s, tableGet))
        || (!Knows(rest0, u, s) && BrokenFirst(rest1 + survivors, levels'[level+1], u, s, tableGet)))
  }

  lemma SortedLevelBroken(files: seq<File>, u: UserKey, s: Sequence, tableGet: (File, InternalKey) -> Option<Entry>)
    requires FilesOk(files) && Disjoint(files) && TableLookups(tableGet)
    ensures SortedState(files, u, s, tableGet) == StateCorrupt <==> BrokenFirst(FilesData(files), files, u, s, tableGet)
  {
    SortedLevelStrikes(files, u, s, tableGet);
  }

  lemma NotFoundIsUnknown(levels: seq<seq<File>>, u: UserKey, s: Sequence,
                          tableGet: (File, InternalKey) -> Option<Entry>, l: nat)
    requires VersionOk(levels) && NumberedByAge(levels[0]) && TableLookups(tableGet) && l < NUM_LEVELS
    requires LevelState(levels, l, u, s, tableGet) != StateCorrupt
    ensures LevelState(levels, l, u, s, tableGet) == StateNotFound <==> !Knows(FilesData(levels[l]), u, s)
  {
    hide LevelState;
    LevelStateSettles(levels, l, u, s, tableGet);
    SettledIsKnown(FilesData(levels[l]), u, s, LevelState(levels, l, u, s, tableGet));
  }

  lemma SettledIsKnown(data: set<Entry>, u: UserKey, s: Sequence, st: SaverState)
    requires Settles(data, u, s, st)
    ensures st == StateNotFound <==> !Knows(data, u, s)
  {
  }

  /** While a read meets no undecodable key, the levels above find nothing exactly when they do not know the key. */
  lemma NotFoundAbove(levels: seq<seq<File>>, level: nat, u: UserKey, s: Sequence,
                      tableGet: (File, InternalKey) -> Option<Entry>)
    requires VersionOk(levels) && NumberedByAge(levels[0]) && TableLookups(tableGet) && level < NUM_LEVELS
    requires PointRead(levels, u, s, tableGet, 0) != Corruption
    ensures (forall l :: 0 <= l < level ==> LevelState(levels, l, u, s, tableGet) == StateNotFound)
       <==> !Knows(Shallow(levels, level), u, s)
  {
    hide VersionOk, NumberedByAge, TableLookups, LevelState, PointRead, Knows, FilesData, Shallow;
    SearchableParts(levels);
    if !Knows(Shallow(levels, level), u, s) {
      UnknownAbove(levels, level, u, s);
      forall l | 0 <= l < level ensures LevelState(levels, l, u, s, tableGet) == StateNotFound {
        CleanDownTo(levels, u, s, tableGet, l, 0);
        NotFoundIsUnknown(levels, u, s, tableGet, l);
      }
    }
    if forall l :: 0 <= l < level ==> LevelState(levels, l, u, s, tableGet) == StateNotFound {
      forall l | 0 <= l < level ensures !Knows(FilesData(levels[l]), u, s) {
        NotFoundIsUnknown(levels, u, s, tableGet, l);
      }
      UnknownShallow(levels, level, u, s);
    }
  }

  lemma UnknownShallow(levels: seq<seq<File>>, level: nat, u: UserKey, s: Sequence)
    requires level <= |levels| && forall l :: 0 <= l < level ==> !Knows(FilesData(levels[l]), u, s)
    ensures !Knows(Shallow(levels, level), u, s)
  {
    forall e | e in Shallow(levels, level) ensures !Readable(e, u, s) {
      var l :| 0 <= l < level && e in FilesData(levels[l]);
      assert !Knows(FilesData(levels[l]), u, s);
    }
  }

  lemma SameStates(levels: seq<seq<File>>, levels': seq<seq<File>>, level: nat, inputs0: seq<File>, inputs1: seq<File>,
                   outputs: seq<File>, u: UserKey, s: Sequence, tableGet: (File, InternalKey) -> Option<Entry>)
    requires Relisted(levels, levels', level, inputs0, inputs1, outputs)
    requires DistinctNumbers(levels[0]) && DistinctNumbers(levels'[0])
    ensures forall l :: 0 <= l < |levels| && l != level && l != level + 1
                        ==> LevelState(levels', l, u, s, tableGet) == LevelState(levels, l, u, s, tableGet)
  {
  }

  /** Files left behind at level 0 are read as before. */
  lemma LevelZeroStrikesBefore(levels: seq<seq<File>>, levels': seq<seq<File>>, inputs0: seq<File>, inputs1: seq<File>,
                               outputs: seq<File>, u: UserKey, s: Sequence,
                               tableGet: (File, InternalKey) -> Option<Entry>)
    requires VersionOk(levels) && ChosenInputs(levels, 0, inputs0, inputs1)
    requires Relisted(levels, levels', 0, inputs0, inputs1, outputs)
    requires DistinctNumbers(levels[0]) && DistinctNumbers(levels'[0])
    requires ZeroState(levels'[0], u, s, tableGet) == StateCorrupt
    ensures ZeroState(levels[0], u, s, tableGet) == StateCorrupt
  {
    hide ZeroState, TableState, ChosenInputs, VersionOk;
    ZeroLevelStrikes(levels[0], u, s, tableGet);
    ZeroLevelStrikes(levels'[0], u, s, tableGet);
    var f :| StrikesFirst(levels'[0], u, s, tableGet, f);
    forall g | g in levels[0] && UserOverlap(g, u) ensures g in levels'[0] {
      if g in inputs0 {
        ChosenTogether(levels, inputs0, inputs1, u, g, f);
      }
    }
    assert StrikesFirst(levels[0], u, s, tableGet, f);
  }

  lemma ChosenTogether(levels: seq<seq<File>>, inputs0: seq<File>, inputs1: seq<File>, u: UserKey, g: File, f: File)
    requires ChosenInputs(levels, 0, inputs0, inputs1) && g in inputs0 && f in levels[0]
    requires UserOverlap(g, u) && UserOverlap(f, u)
    ensures f in inputs0
  {
    var smallest, largest := HullOf(inputs0);
    assert IsHullRange(inputs0, UserRange(smallest, largest));
    assert AtMost(smallest, g.smallest) && AtMost(g.largest, largest);
  }

  /** An uncovered read reports corruption. */
  lemma UncoveredIsStruck(levels: seq<seq<File>>, levels': seq<seq<File>>, level: nat, inputs0: seq<File>,
                          inputs1: seq<File>, outputs: seq<File>, u: UserKey, s: Sequence,
                          tableGet: (File, InternalKey) -> Option<Entry>)
    requires VersionOk(levels) && NumberedByAge(levels[0]) && level + 1 < NUM_LEVELS
    requires Relisted(levels, levels', level, inputs0, inputs1, outputs)
    requires VersionOk(levels') && NumberedByAge(levels'[0]) && TableLookups(tableGet)
    requires PointRead(levels, u, s, tableGet, 0) != Corruption
    requires Uncovered(levels, levels', level, inputs0, inputs1, FilesData(outputs), u, s, tableGet)
    ensures Struck(levels', u, s, tableGet)
  {
    hide VersionOk, NumberedByAge, TableLookups, PointRead, Knows, FilesData, Shallow, Relisted, BrokenFirst, LeftBehind,
         SortedState, ZeroState, FilesOk, Disjoint, DistinctNumbers;
    SearchableParts(levels);
    SearchableParts(levels');
    ReplacedParts(levels, levels', level, inputs0, inputs1, outputs);
    NotFoundAbove(levels, level, u, s, tableGet);
    SameStates(levels, levels', level, inputs0, inputs1, outputs, u, s, tableGet);
    LevelOk(levels', level + 1);
    SortedLevelBroken(levels'[level+1], u, s, tableGet);
    if level > 0 && BrokenFirst(LeftBehind(levels[level], inputs0), levels'[level], u, s, tableGet) {
      LevelOk(levels', level);
      SortedLevelBroken(levels'[level], u, s, tableGet);
      assert StruckAt(levels', u, s, tableGet, level);
    } else if LevelState(levels', level, u, s, tableGet) == StateCorrupt {
      assert StruckAt(levels', u, s, tableGet, level);
    } else {
      NotFoundIsUnknown(levels', u, s, tableGet, level);
      assert StruckAt(levels', u, s, tableGet, level + 1);
    }
  }

  /** What no surviving entry tells of any more was an obsolete deletion, and no deeper file is in reach of its user
      key. */
  lemma ForgottenIsBase(input: seq<Entry>, rest0: set<Entry>, in0: set<Entry>, rest1: set<Entry>, in1: set<Entry>,
                        u: UserKey, s: Sequence, smallestSnapshot: Sequence, isBase: UserKey -> bool)
    requires Sorted(input) && OneEntryPerSequence(Elements(input)) && Elements(input) == in0 + in1
    requires smallestSnapshot <= s && (Knows(rest0 + in0, u, s) || Knows(rest1 + in1, u, s))
    requires !Knows(rest0, u, s)
    requires !Knows(rest1 + Elements(Kept(input, |input|, smallestSnapshot, isBase)), u, s)
    ensures isBase(u)
  {
    hide Kept, Sorted;
    KeptMembers(input, |input|, smallestSnapshot, isBase);
    var kept := Elements(Kept(input, |input|, smallestSnapshot, isBase));
    KnowsEither(rest0, in0, u, s);
    KnowsEither(rest1, in1, u, s);
    KnowsEither(rest1, kept, u, s);
    KnowsEither(in0, in1, u, s);
    var n := NewestKnown(Elements(input), u, s);
    var i :| 0 <= i < |input| && input[i] == n;
    NewestIsNotShadowed(Elements(input), input, smallestSnapshot, i, s);
    assert n !in kept;
  }

  lemma BaseIsNotStruck(levels: seq<seq<File>>, level: nat, u: UserKey, s: Sequence,
                        tableGet: (File, InternalKey) -> Option<Entry>, l: nat)
    requires VersionOk(levels) && level + 2 <= l < NUM_LEVELS && IsBase(levels, level)(u) && TableLookups(tableGet)
    ensures SortedState(levels[l], u, s, tableGet) != StateCorrupt
  {
    hide TableLookups;
    SortedLevelBroken(levels[l], u, s, tableGet);
    if e :| FirstAt(FilesData(levels[l]), SeekKey(u, s), e) && HandedOver(levels[l], u, s, tableGet, e) {
      var f: File :| f in levels[l] && UserOverlap(f, u);
      var i :| 0 <= i < |levels[l]| && levels[l][i] == f;
    }
  }

  /** A read that reports corruption, and did not before, is uncovered. */
  lemma StruckIsUncovered(levels: seq<seq<File>>, levels': seq<seq<File>>, level: nat, inputs0: seq<File>,
                          inputs1: seq<File>, outputs: seq<File>, input: seq<Entry>, u: UserKey, s: Sequence,
                          smallestSnapshot: Sequence, tableGet: (File, InternalKey) -> Option<Entry>)
    requires VersionOk(levels) && NumberedByAge(levels[0]) && OneEntryPerSequence(LevelsData(levels, 0))
    requires ChosenInputs(levels, level, inputs0, inputs1) && Relisted(levels, levels', level, inputs0, inputs1, outputs)
    requires Sorted(input) && Elements(input) == FilesData(inputs0) + FilesData(inputs1) && smallestSnapshot <= s
    requires Concat(outputs) == Kept(input, |input|, smallestSnapshot, IsBase(levels, level))
    requires VersionOk(levels') && NumberedByAge(levels'[0]) && TableLookups(tableGet)
    requires PointRead(levels, u, s, tableGet, 0) != Corruption && PointRead(levels', u, s, tableGet, 0) == Corruption
    ensures level + 1 < |levels| == |levels'|
    ensures Uncovered(levels, levels', level, inputs0, inputs1, FilesData(outputs), u, s, tableGet)
  {
    hide VersionOk, NumberedByAge, TableLookups, PointRead, Knows, FilesData, Shallow, Relisted, BrokenFirst, LeftBehind,
         SortedState, ZeroState, FilesOk, Disjoint, DistinctNumbers, ChosenInputs, LevelsData, Kept, Concat, Sorted, IsBase,
         OneEntryPerSequence;
    SameAbove(levels, levels', level, inputs0, inputs1, outputs);
    SearchableParts(levels);
    SearchableParts(levels');
    StruckIsCorruption(levels, u, s, tableGet, 0);
    StruckIsCorruption(levels', u, s, tableGet, 0);
    ReplacedParts(levels, levels', level, inputs0, inputs1, outputs);
    SameStates(levels, levels', level, inputs0, inputs1, outputs, u, s, tableGet);
    NotFoundAbove(levels, level, u, s, tableGet);
    var l: nat :| StruckAt(levels', u, s, tableGet, l);
    if l < level {
      StruckAsBefore(levels, levels', u, s, tableGet, l);
    } else if l == level {
      if level == 0 {
        LevelZeroStrikesBefore(levels, levels', inputs0, inputs1, outputs, u, s, tableGet);
        StruckAtOnce(levels, u, s, tableGet);
      } else {
        LevelOk(levels', level);
        SortedLevelBroken(levels'[level], u, s, tableGet);
      }
    } else {
      NotFoundIsUnknown(levels', u, s, tableGet, level);
      if l == level + 1 {
        LevelOk(levels', level + 1);
        SortedLevelBroken(levels'[level+1], u, s, tableGet);
      } else {
        NotFoundIsUnknown(levels', u, s, tableGet, level + 1);
        KnownBefore(levels, level, u, s, tableGet, l);
        InputsAreOne(levels, levels', level, inputs0, inputs1, outputs);
        ConcatData(outputs);
        ForgottenIsBase(input, LeftBehind(levels[level], inputs0), FilesData(inputs0), LeftBehind(levels[level+1], inputs1),
                        FilesData(inputs1), u, s, smallestSnapshot, IsBase(levels, level));
        BaseIsNotStruck(levels, level, u, s, tableGet, l);
      }
    }
  }

  lemma StruckAsBefore(levels: seq<seq<File>>, levels': seq<seq<File>>, u: UserKey, s: Sequence,
                       tableGet: (File, InternalKey) -> Option<Entry>, l: nat)
    requires 0 < |levels| == |levels'| && DistinctNumbers(levels[0]) && DistinctNumbers(levels'[0])
    requires StruckAt(levels', u, s, tableGet, l)
    requires forall k :: 0 <= k <= l ==> LevelState(levels', k, u, s, tableGet) == LevelState(levels, k, u, s, tableGet)
    ensures Struck(levels, u, s, tableGet)
  {
    hide LevelState;
    assert StruckAt(levels, u, s, tableGet, l);
  }

  lemma StruckAtOnce(levels: seq<seq<File>>, u: UserKey, s: Sequence, tableGet: (File, InternalKey) -> Option<Entry>)
    requires |levels| > 0 && DistinctNumbers(levels[0]) && ZeroState(levels[0], u, s, tableGet) == StateCorrupt
    ensures Struck(levels, u, s, tableGet)
  {
    assert StruckAt(levels, u, s, tableGet, 0);
  }

  /** A deeper level that would strike was not reached: the search was struck before, or one of the two levels knew the
      key. */
  lemma KnownBefore(levels: seq<seq<File>>, level: nat, u: UserKey, s: Sequence,
                    tableGet: (File, InternalKey) -> Option<Entry>, l: nat)
    requires VersionOk(levels) && NumberedByAge(levels[0]) && TableLookups(tableGet) && level + 2 <= l < NUM_LEVELS
    requires DistinctNumbers(levels[0])
    requires LevelState(levels, l, u, s, tableGet) == StateCorrupt
    requires forall k :: 0 <= k < l && k != level && k != level + 1 ==> LevelState(levels, k, u, s, tableGet) == StateNotFound
    ensures Struck(levels, u, s, tableGet) || Knows(FilesData(levels[level]), u, s) || Knows(FilesData(levels[level+1]), u, s)
  {
    hide VersionOk, NumberedByAge, TableLookups, LevelState, Knows, FilesData, DistinctNumbers;
    LevelCount(levels);
    if LevelState(levels, level, u, s, tableGet) == StateCorrupt {
      assert StruckAt(levels, u, s, tableGet, level);
    } else {
      NotFoundIsUnknown(levels, u, s, tableGet, level);
      if LevelState(levels, level, u, s, tableGet) == StateNotFound {
        if LevelState(levels, level + 1, u, s, tableGet) == StateCorrupt {
          assert StruckAt(levels, u, s, tableGet, level + 1);
        } else {
          NotFoundIsUnknown(levels, u, s, tableGet, level + 1);
          if LevelState(levels, level + 1, u, s, tableGet) == StateNotFound {
            assert StruckAt(levels, u, s, tableGet, l);
          }
        }
      }
    }
  }

  lemma LevelCount(levels: seq<seq<File>>)
    requires VersionOk(levels)
    ensures |levels| == NUM_LEVELS
  {
  }

  /** A point read at or above the smallest snapshot that met no undecodable key before: it reports corruption after the
      compaction exactly when it is uncovered, and changes exactly when it is uncovered or exposed.  Both can be told from
      the version, the inputs and the drop rule, before the compaction is installed, but for which of the new tables'
      filters pass the key. */
  lemma CleanPointReadsChange(levels: seq<seq<File>>, levels': seq<seq<File>>, level: nat, inputs0: seq<File>,
                              inputs1: seq<File>, outputs: seq<File>, input: seq<Entry>, u: UserKey, s: Sequence,
                              smallestSnapshot: Sequence, tableGet: (File, InternalKey) -> Option<Entry>)
    requires LevelsInOrder(levels) && OneEntryPerSequence(LevelsData(levels, 0)) && DistinctNumbers(levels[0])
    requires ChosenInputs(levels, level, inputs0, inputs1) && Relisted(levels, levels', level, inputs0, inputs1, outputs)
    requires Sorted(input) && Elements(input) == FilesData(inputs0) + FilesData(inputs1) && smallestSnapshot <= s
    requires Concat(outputs) == Kept(input, |input|, smallestSnapshot, IsBase(levels, level))
    requires FilesOk(outputs) && Disjoint(outputs) && TableLookups(tableGet)
    requires PointRead(levels, u, s, tableGet, 0) != Corruption
    ensures |levels'| == |levels| > 0 && DistinctNumbers(levels'[0])
    ensures var survivors := Elements(Kept(input, |input|, smallestSnapshot, IsBase(levels, level)));
      && (PointRead(levels', u, s, tableGet, 0) == Corruption
          <==> Uncovered(levels, levels', level, inputs0, inputs1, survivors, u, s, tableGet))
      && (PointRead(levels', u, s, tableGet, 0) != PointRead(levels, u, s, tableGet, 0)
          <==> Uncovered(levels, levels', level, inputs0, inputs1, survivors, u, s, tableGet)
               || Exposed(levels, level, inputs0, inputs1, u, s, smallestSnapshot))
  {
    hide LevelsInOrder, VersionOk, NumberedByAge, ChosenInputs, Relisted, Exposed, LevelRead, Kept, Concat, Sorted, Struck,
         FilesData, LevelsData, PointRead, OneEntryPerSequence, TableLookups, FilesOk, Disjoint, DistinctNumbers, Uncovered,
         IsBase;
    OrderedParts(levels);
    SurvivorsWithin(outputs, input, smallestSnapshot, IsBase(levels, level));
    SearchableAfter(levels, levels', level, inputs0, inputs1, outputs);
    SearchableParts(levels');
    SameAbove(levels, levels', level, inputs0, inputs1, outputs);
    ConcatData(outputs);
    CompactionChangesPointReads(levels, levels', level, inputs0, inputs1, outputs, input, u, s, smallestSnapshot, tableGet);
    StruckIsCorruption(levels, u, s, tableGet, 0);
    StruckIsCorruption(levels', u, s, tableGet, 0);
    if PointRead(levels', u, s, tableGet, 0) == Corruption {
      StruckIsUncovered(levels, levels', level, inputs0, inputs1, outputs, input, u, s, smallestSnapshot, tableGet);
    } else if Uncovered(levels, levels', level, inputs0, inputs1, FilesData(outputs), u, s, tableGet) {
      UncoveredIsStruck(levels, levels', level, inputs0, inputs1, outputs, u, s, tableGet);
    }
  }

  // ---------- a version in order where it happens ----------

  const MARKED: File := File(3, 1, DELETION.key, UNDECODABLE.key, [DELETION, UNDECODABLE])
  const UNMARKED: File := File(5, 1, UNDECODABLE.key, UNDECODABLE.key, [UNDECODABLE])

  lemma MarkedIsInOrder(levels: seq<seq<File>>)
    requires Levels(levels, [MARKED], [])
    ensures LevelsInOrder(levels) && OneEntryPerSequence(LevelsData(levels, 0))
  {
    hide VersionOk, AgeOrdered, UniqueNumbers, OneEntryPerSequence, SortedBySmallest, Levels;
    MarkedIsOk(levels);
    MarkedLists(levels);
    MarkedAges(levels);
    MarkedData(levels);
  }

  lemma MarkedIsOk(levels: seq<seq<File>>)
    requires Levels(levels, [MARKED], [])
    ensures VersionOk(levels)
  {
    assert FileOk(MARKED);
  }

  lemma MarkedLists(levels: seq<seq<File>>)
    requires Levels(levels, [MARKED], [])
    ensures UniqueNumbers(levels) && forall l :: 0 <= l < NUM_LEVELS ==> SortedBySmallest(levels[l])
  {
    forall l, f | 0 <= l < |levels| && f in levels[l] ensures l == 1 && f == MARKED {
    }
    hide BySmallest;
  }

  lemma MarkedAges(levels: seq<seq<File>>)
    requires Levels(levels, [MARKED], [])
    ensures AgeOrdered(levels)
  {
    forall i, j | 0 <= i < j < NUM_LEVELS ensures Newer(FilesData(levels[i]), FilesData(levels[j])) {
      assert levels[i] == [] || levels[j] == [];
    }
  }

  lemma MarkedData(levels: seq<seq<File>>)
    requires Levels(levels, [MARKED], [])
    ensures OneEntryPerSequence(LevelsData(levels, 0))
  {
    forall e | e in LevelsData(levels, 0) ensures e == DELETION || e == UNDECODABLE {
      var l :| 0 <= l < NUM_LEVELS && e in FilesData(levels[l]);
      assert l == 1;
    }
  }

  /** One file at level 1 holds a deletion and, behind it, an undecodable key of the same user key.  Compacting it drops
      the deletion, and point reads of the key turn from not found to corruption, whatever the tables. */
  lemma CompactionTurnsCorrupt(levels: seq<seq<File>>, after: seq<seq<File>>, tableGet: (File, InternalKey) -> Option<Entry>)
    requires Levels(levels, [MARKED], []) && Levels(after, [], [UNMARKED]) && TableLookups(tableGet)
    ensures LevelsInOrder(levels) && OneEntryPerSequence(LevelsData(levels, 0))
    ensures ChosenInputs(levels, 1, [MARKED], []) && Relisted(levels, after, 1, [MARKED], [], [UNMARKED])
    ensures Kept([DELETION, UNDECODABLE], 2, 3, IsBase(levels, 1)) == [UNDECODABLE]
    ensures DistinctNumbers(levels[0]) && DistinctNumbers(after[0])
    ensures PointRead(levels, KEY, 3, tableGet, 0) == NotFound && PointRead(after, KEY, 3, tableGet, 0) == Corruption
  {
    hide LevelsInOrder, ChosenInputs, Relisted, LevelsData, FilesData, OneEntryPerSequence, PointRead, TableLookups, RunRead;
    MarkedIsInOrder(levels);
    MarkedIsReplaced(levels, after);
    assert BaseLevel(levels, 1, KEY);
    DeletionHidesUndecodable(IsBase(levels, 1));
    ReadAtLevelOne(levels, tableGet);
    ReadAtLevelTwo(after, tableGet);
  }

  lemma MarkedIsReplaced(levels: seq<seq<File>>, after: seq<seq<File>>)
    requires Levels(levels, [MARKED], []) && Levels(after, [], [UNMARKED])
    ensures ChosenInputs(levels, 1, [MARKED], []) && Relisted(levels, after, 1, [MARKED], [], [UNMARKED])
  {
    assert levels[1][0] == MARKED;
    assert Replaced(levels[1], [MARKED], [], after[1]);
    assert Replaced(levels[2], [], [UNMARKED], after[2]);
  }

  lemma ReadAtLevelOne(levels: seq<seq<File>>, tableGet: (File, InternalKey) -> Option<Entry>)
    requires Levels(levels, [MARKED], []) && TableLookups(tableGet)
    ensures PointRead(levels, KEY, 3, tableGet, 0) == NotFound
  {
    assert DELETION in MARKED.entries && UNDECODABLE in MARKED.entries;
    OwnEntryHanded([MARKED], KEY, 3, tableGet, DELETION);
    assert LevelState(levels, 0, KEY, 3, tableGet) == StateNotFound;
    assert LevelState(levels, 1, KEY, 3, tableGet) == StateDeleted;
    assert PointRead(levels, KEY, 3, tableGet, 1) == NotFound;
  }

  lemma ReadAtLevelTwo(levels: seq<seq<File>>, tableGet: (File, InternalKey) -> Option<Entry>)
    requires Levels(levels, [], [UNMARKED]) && TableLookups(tableGet)
    ensures PointRead(levels, KEY, 3, tableGet, 0) == Corruption
  {
    assert UNDECODABLE in UNMARKED.entries;
    OwnEntryHanded([UNMARKED], KEY, 3, tableGet, UNDECODABLE);
    assert LevelState(levels, 0, KEY, 3, tableGet) == StateNotFound;
    assert LevelState(levels, 1, KEY, 3, tableGet) == StateNotFound;
    assert LevelState(levels, 2, KEY, 3, tableGet) == StateCorrupt;
    assert PointRead(levels, KEY, 3, tableGet, 2) == Corruption;
    assert PointRead(levels, KEY, 3, tableGet, 1) == Corruption;
  }
}
