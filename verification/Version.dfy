/** A version of the database: the table files of each level, and how a read searches them (db/version_set.cc). */
module Versions {
  import opened Cursors
  import opened Keys
  import opened Visibility

  const NUM_LEVELS: nat := 7

  datatype File = File(number: nat, size: nat, smallest: InternalKey, largest: InternalKey, entries: seq<Entry>)

  /** The recorded bounds are those of the table's entries. */
  predicate FileOk(f: File) {
    && |f.entries| > 0 && Sorted(f.entries)
    && f.smallest == f.entries[0].key && f.largest == f.entries[|f.entries|-1].key
  }

  predicate FilesOk(fs: seq<File>) { forall i :: 0 <= i < |fs| ==> FileOk(fs[i]) }

  predicate Disjoint(fs: seq<File>) {
    forall i, j :: 0 <= i < j < |fs| ==> Less(fs[i].largest, fs[j].smallest)
  }

  predicate VersionOk(levels: seq<seq<File>>) {
    && |levels| == NUM_LEVELS
    && (forall l :: 0 <= l < NUM_LEVELS ==> FilesOk(levels[l]))
    && (forall l :: 1 <= l < NUM_LEVELS ==> Disjoint(levels[l]))
  }

  ghost function FilesData(fs: seq<File>): set<Entry> {
    set f, e | f in fs && e in f.entries :: e
  }

  ghost function LevelsData(levels: seq<seq<File>>, from: nat): set<Entry>
    requires from <= |levels|
  {
    set l, e | from <= l < |levels| && e in FilesData(levels[l]) :: e
  }

  /** Every entry of `a` is newer than every entry of `b` for the same user key. */
  ghost predicate Newer(a: set<Entry>, b: set<Entry>) {
    forall x, y :: (x in a && y in b && x.key.user == y.key.user) ==> x.key.sequence > y.key.sequence
  }

  /** Within level 0, larger file numbers hold newer data. */
  ghost predicate NumberedByAge(files: seq<File>) {
    && (forall f, g :: f in files && g in files && f.number > g.number
                       ==> Newer(Elements(f.entries), Elements(g.entries)))
    && DistinctNumbers(files)
  }

  /** Smaller levels hold newer data; within level 0, so do larger file numbers. */
  ghost predicate AgeOrdered(levels: seq<seq<File>>) {
    && |levels| == NUM_LEVELS
    && (forall i, j :: 0 <= i < j < NUM_LEVELS ==> Newer(FilesData(levels[i]), FilesData(levels[j])))
    && NumberedByAge(levels[0])
  }

  ghost predicate WellFormedData(data: set<Entry>) {
    OneEntryPerSequence(data) && forall e :: e in data ==> e.key.Parses()
  }

  predicate UserOverlap(f: File, u: UserKey) { f.smallest.user <= u <= f.largest.user }

  lemma EntryWithinFile(f: File, e: Entry)
    requires FileOk(f) && e in f.entries
    ensures AtMost(f.smallest, e.key) && AtMost(e.key, f.largest) && UserOverlap(f, e.key.user)
  {
    var i :| 0 <= i < |f.entries| && f.entries[i] == e;
  }

  /** Binary search for the first file whose largest key is at or after `key`. */
  method FindFile(files: seq<File>, key: InternalKey) returns (right: nat)
    requires FilesOk(files) && Disjoint(files)
    ensures right <= |files|
    ensures forall i :: 0 <= i < right ==> Less(files[i].largest, key)
    ensures forall i :: right <= i < |files| ==> AtMost(key, files[i].largest)
  {
    var left := 0;
    right := |files|;
    while left < right
      invariant left <= right <= |files|
      invariant forall i :: 0 <= i < left ==> Less(files[i].largest, key)
      invariant forall i :: right <= i < |files| ==> AtMost(key, files[i].largest)
    {
      var mid := (left + right) / 2;
      forall i | 0 <= i < |files| && i != mid
        ensures i < mid ==> Less(files[i].largest, files[mid].largest)
        ensures mid < i ==> Less(files[mid].largest, files[i].largest)
      {
        EntryWithinFile(files[mid], files[mid].entries[0]);
        EntryWithinFile(files[i], files[i].entries[0]);
      }
      if Less(files[mid].largest, key) {
        left := mid + 1;
      } else {
        right := mid;
      }
    }
  }

  /** The first entry at or after `key`, by linear search: what a table lookup stands for. */
  function FirstFrom(es: seq<Entry>, key: InternalKey): (r: Option<Entry>)
    ensures r.Some? ==> r.value in es && AtMost(key, r.value.key)
    ensures r == None ==> forall i :: 0 <= i < |es| ==> Less(es[i].key, key)
  {
    if es == [] then None
    else if Less(es[0].key, key) then FirstFrom(es[1..], key)
    else Some(es[0])
  }

  lemma {:induction false} SeekIsFirstFrom(es: seq<Entry>, key: InternalKey, p: nat)
    requires IsSeek(es, key, p)
    ensures FirstFrom(es, key) == if p < |es| then Some(es[p]) else None
  {
    if es != [] && p > 0 {
      SeekIsFirstFrom(es[1..], key, p - 1);
    }
  }

  /** What a table may hand back for `key`: the first entry at or after it, or nothing, but never nothing when
      that entry has the sought user key. */
  predicate TableAnswer(es: seq<Entry>, key: InternalKey, r: Option<Entry>) {
    var first := FirstFrom(es, key);
    && (r == first || r == None)
    && (first.Some? && first.value.key.user == key.user ==> r == first)
  }

  /** An entry found with the sought user key is the newest one, if it decodes. */
  lemma {:induction false} FirstFromIsNewest(es: seq<Entry>, u: UserKey, s: Sequence)
    requires Sorted(es)
    ensures var r := FirstFrom(es, SeekKey(u, s));
      && (r.Some? && r.value.key.user == u && r.value.key.Parses() ==> Newest(Elements(es), u, s, r.value))
      && (r.None? || r.value.key.user != u ==> forall e :: e in es ==> !Readable(e, u, s))
  {
    if es != [] {
      if Less(es[0].key, SeekKey(u, s)) {
        FirstFromIsNewest(es[1..], u, s);
        assert forall e :: e in es <==> e == es[0] || e in es[1..];
        assert !Readable(es[0], u, s);
      } else {
        forall e | e in es ensures e == es[0] || Less(es[0].key, e.key) {
          var i :| 0 <= i < |es| && es[i] == e;
        }
      }
    }
  }

  datatype ReadResult = Value(value: Bytes) | NotFound | Corruption

  function Answer(v: Option<Bytes>): ReadResult {
    match v
    case Some(x) => Value(x)
    case None => NotFound
  }

  datatype SaverState = StateNotFound | StateFound(value: Bytes) | StateDeleted | StateCorrupt

  /** The callback a table lookup hands its entry to. */
  function SaveValue(handed: Option<Entry>, u: UserKey): SaverState {
    match handed
    case None => StateNotFound
    case Some(e) =>
      if !e.key.Parses() then StateCorrupt
      else if e.key.user != u then StateNotFound
      else if e.key.kind == TYPE_VALUE then StateFound(e.value)
      else StateDeleted
  }

  predicate NewestFirst(fs: seq<File>) {
    forall i, j :: 0 <= i < j < |fs| ==> fs[i].number > fs[j].number
  }

  predicate DistinctNumbers(fs: seq<File>) {
    forall i, j :: 0 <= i < j < |fs| ==> fs[i].number != fs[j].number
  }

  function InsertByNumber(f: File, fs: seq<File>): (r: seq<File>)
    requires NewestFirst(fs) && forall g :: g in fs ==> g.number != f.number
    ensures NewestFirst(r) && |r| == |fs| + 1
    ensures forall g :: g in r <==> g == f || g in fs
  {
    if fs == [] then [f]
    else if f.number > fs[0].number then [f] + fs
    else
      var tail := InsertByNumber(f, fs[1..]);
      assert forall j :: 0 <= j < |tail| ==> tail[j] in tail;
      [fs[0]] + tail
  }

  function ByNumber(fs: seq<File>): (r: seq<File>)
    requires DistinctNumbers(fs)
    ensures NewestFirst(r) && |r| == |fs|
    ensures forall f :: f in r <==> f in fs
  {
    if fs == [] then [] else InsertByNumber(fs[|fs|-1], ByNumber(fs[..|fs|-1]))
  }

  /** std::sort by descending file number. */
  method SortNewestFirst(fs: seq<File>) returns (r: seq<File>)
    requires DistinctNumbers(fs)
    ensures r == ByNumber(fs)
  {
    r := [];
    for i := 0 to |fs|
      invariant r == ByNumber(fs[..i])
    {
      assert fs[..i+1][..i] == fs[..i];
      r := InsertByNumber(fs[i], r);
    }
    assert fs[..|fs|] == fs;
  }

  function ResultOf(st: SaverState): ReadResult {
    match st
    case StateFound(v) => Value(v)
    case StateCorrupt => Corruption
    case _ => NotFound
  }

  /** `st` is what reading `u` at `s` in `data` alone amounts to. */
  ghost predicate Settles(data: set<Entry>, u: UserKey, s: Sequence, st: SaverState) {
    match st
    case StateNotFound => forall e :: e in data ==> !Readable(e, u, s)
    case StateCorrupt => false
    case _ => exists e :: Newest(data, u, s, e) && st == SaveValue(Some(e), u)
  }

  ghost predicate TableLookups(tableGet: (File, InternalKey) -> Option<Entry>) {
    forall f, k :: FileOk(f) ==> TableAnswer(f.entries, k, tableGet(f, k))
  }

  function TableState(f: File, u: UserKey, s: Sequence, tableGet: (File, InternalKey) -> Option<Entry>): SaverState {
    SaveValue(tableGet(f, SeekKey(u, s)), u)
  }

  /** A table settles the read of its entries, unless it hands over an entry that does not decode. */
  lemma FileSettles(f: File, u: UserKey, s: Sequence, tableGet: (File, InternalKey) -> Option<Entry>)
    requires FileOk(f) && TableLookups(tableGet)
    ensures var st := TableState(f, u, s, tableGet);
      st == StateCorrupt || Settles(Elements(f.entries), u, s, st)
    ensures AllParse(f.entries) ==> TableState(f, u, s, tableGet) != StateCorrupt
  {
    var key := SeekKey(u, s);
    assert TableAnswer(f.entries, key, tableGet(f, key));
    FirstFromIsNewest(f.entries, u, s);
    if tableGet(f, key).Some? {
      assert tableGet(f, key).value in f.entries;
    }
  }

  lemma SettledAnswer(data: set<Entry>, u: UserKey, s: Sequence, st: SaverState)
    requires WellFormedData(data) && Settles(data, u, s, st)
    ensures ResultOf(st) == Answer(Lookup(data, u, s))
  {
    if st == StateNotFound {
      LookupOfNothing(data, u, s);
    } else {
      var e :| Newest(data, u, s, e) && st == SaveValue(Some(e), u);
      LookupIsOutcome(data, u, s, e);
    }
  }

  lemma NewestOfNewer(a: set<Entry>, b: set<Entry>, u: UserKey, s: Sequence, st: SaverState)
    requires Newer(a, b) && Settles(a, u, s, st) && st != StateNotFound
    ensures Settles(a + b, u, s, st)
  {
    var e :| Newest(a, u, s, e) && st == SaveValue(Some(e), u);
    assert Newest(a + b, u, s, e);
  }

  lemma NothingInNewer(a: set<Entry>, b: set<Entry>, u: UserKey, s: Sequence, st: SaverState)
    requires Settles(a, u, s, StateNotFound) && Settles(b, u, s, st)
    ensures Settles(a + b, u, s, st)
  {
    if st != StateNotFound {
      var e :| Newest(b, u, s, e) && st == SaveValue(Some(e), u);
      assert Newest(a + b, u, s, e);
    }
  }

  lemma FileParses(files: seq<File>, f: File)
    requires f in files && forall e :: e in FilesData(files) ==> e.key.Parses()
    ensures AllParse(f.entries)
  {
    forall k | 0 <= k < |f.entries| ensures f.entries[k].key.Parses() {
      assert f.entries[k] in f.entries;
    }
  }

  /** The files whose range holds the user key. */
  function Overlaps(files: seq<File>, u: UserKey): (r: seq<File>)
    requires DistinctNumbers(files)
    ensures DistinctNumbers(r)
    ensures forall f :: f in r <==> f in files && UserOverlap(f, u)
  {
    if files == [] then []
    else
      var n := |files| - 1;
      var before := Overlaps(files[..n], u);
      assert forall a :: 0 <= a < |before| ==> before[a] in before;
      if UserOverlap(files[n], u) then before + [files[n]] else before
  }

  method OverlappingFiles(files: seq<File>, u: UserKey) returns (tmp: seq<File>)
    requires DistinctNumbers(files)
    ensures tmp == Overlaps(files, u)
  {
    tmp := [];
    for i := 0 to |files|
      invariant tmp == Overlaps(files[..i], u)
    {
      var f := files[i];
      assert files[..i+1][..i] == files[..i];
      if u >= f.smallest.user && u <= f.largest.user {
        tmp := tmp + [f];
      }
    }
    assert files[..|files|] == files;
  }

  /** The first of the tables that knows the key, or hands over what does not decode. */
  function FirstState(files: seq<File>, u: UserKey, s: Sequence, tableGet: (File, InternalKey) -> Option<Entry>): SaverState {
    if files == [] then StateNotFound
    else if TableState(files[0], u, s, tableGet) != StateNotFound then TableState(files[0], u, s, tableGet)
    else FirstState(files[1..], u, s, tableGet)
  }

  /** A read of level 0: every file whose range holds the user key, newest file first. */
  function ZeroState(files: seq<File>, u: UserKey, s: Sequence, tableGet: (File, InternalKey) -> Option<Entry>): SaverState
    requires DistinctNumbers(files)
  {
    FirstState(ByNumber(Overlaps(files, u)), u, s, tableGet)
  }

  lemma {:induction false} FirstStateFrom(files: seq<File>, i: nat, u: UserKey, s: Sequence,
                                          tableGet: (File, InternalKey) -> Option<Entry>)
    requires i <= |files| && forall k :: 0 <= k < i ==> TableState(files[k], u, s, tableGet) == StateNotFound
    ensures FirstState(files, u, s, tableGet) == FirstState(files[i..], u, s, tableGet)
  {
    if i > 0 {
      FirstStateFrom(files[1..], i - 1, u, s, tableGet);
      assert files[1..][i-1..] == files[i..];
    }
  }

  method SearchLevelZero(files: seq<File>, u: UserKey, s: Sequence, tableGet: (File, InternalKey) -> Option<Entry>)
    returns (st: SaverState)
    requires FilesOk(files) && TableLookups(tableGet) && NumberedByAge(files)
    ensures st == ZeroState(files, u, s, tableGet)
    ensures st == StateCorrupt || Settles(FilesData(files), u, s, st)
    ensures (forall e :: e in FilesData(files) ==> e.key.Parses()) ==> st != StateCorrupt
  {
    var tmp := OverlappingFiles(files, u);
    var sorted := SortNewestFirst(tmp);
    st := StateNotFound;
    ZeroStateSettles(files, u, s, tableGet);
    for i := 0 to |sorted|
      invariant st == StateNotFound
      invariant forall k :: 0 <= k < i ==> TableState(sorted[k], u, s, tableGet) == StateNotFound
    {
      FirstStateFrom(sorted, i, u, s, tableGet);
      var handed := tableGet(sorted[i], SeekKey(u, s));
      st := SaveValue(handed, u);
      if st != StateNotFound {
        return;
      }
    }
    FirstStateFrom(sorted, |sorted|, u, s, tableGet);
  }

  lemma ZeroStateSettles(files: seq<File>, u: UserKey, s: Sequence, tableGet: (File, InternalKey) -> Option<Entry>)
    requires FilesOk(files) && TableLookups(tableGet) && NumberedByAge(files)
    ensures var st := ZeroState(files, u, s, tableGet); st == StateCorrupt || Settles(FilesData(files), u, s, st)
    ensures (forall e :: e in FilesData(files) ==> e.key.Parses()) ==> ZeroState(files, u, s, tableGet) != StateCorrupt
  {
    hide FilesOk, TableLookups, Overlaps, ByNumber, TableState;
    var sorted := ByNumber(Overlaps(files, u));
    var i := 0;
    NothingTried(sorted, u, s);
    while i < |sorted| && TableState(sorted[i], u, s, tableGet) == StateNotFound
      invariant i <= |sorted| && Settles(FilesData(sorted[..i]), u, s, StateNotFound)
      invariant forall k :: 0 <= k < i ==> TableState(sorted[k], u, s, tableGet) == StateNotFound
    {
      assert sorted[i] in sorted;
      FileSettles(sorted[i], u, s, tableGet) by { FileIsOk(files, sorted[i]); }
      OneMoreFile(sorted, i);
      i := i + 1;
    }
    FirstStateFrom(sorted, i, u, s, tableGet);
    if i < |sorted| {
      var st := TableState(sorted[i], u, s, tableGet);
      assert sorted[i] in sorted;
      FileSettles(sorted[i], u, s, tableGet) by { FileIsOk(files, sorted[i]); }
      if st != StateCorrupt {
        LevelZeroSettled(files, sorted, i, u, s, st);
      } else if forall e :: e in FilesData(files) ==> e.key.Parses() {
        FileParses(files, sorted[i]);
      }
    } else {
      forall e | e in FilesData(files) ensures !Readable(e, u, s) {
        OutsideOverlapping(files, sorted, u, s, e);
      }
    }
  }

  lemma NothingTried(files: seq<File>, u: UserKey, s: Sequence)
    ensures Settles(FilesData(files[..0]), u, s, StateNotFound)
  {
  }

  lemma FileIsOk(files: seq<File>, f: File)
    requires FilesOk(files) && f in files
    ensures FileOk(f)
  {
  }

  lemma OneMoreFile(files: seq<File>, i: nat)
    requires i < |files|
    ensures FilesData(files[..i+1]) == FilesData(files[..i]) + Elements(files[i].entries)
  {
    forall e | e in FilesData(files[..i]) ensures e in FilesData(files[..i+1]) {
      var f :| f in files[..i] && e in f.entries;
      assert f in files[..i+1];
    }
    forall e | e in files[i].entries ensures e in FilesData(files[..i+1]) {
      assert files[i] in files[..i+1];
    }
    forall e | e in FilesData(files[..i+1]) && e !in files[i].entries ensures e in FilesData(files[..i]) {
      var f :| f in files[..i+1] && e in f.entries;
      assert f in files[..i];
    }
  }

  lemma OutsideOverlapping(files: seq<File>, overlapping: seq<File>, u: UserKey, s: Sequence, e: Entry)
    requires FilesOk(files) && e in FilesData(files)
    requires forall f :: f in overlapping <==> f in files && UserOverlap(f, u)
    requires Settles(FilesData(overlapping[..|overlapping|]), u, s, StateNotFound)
    ensures !Readable(e, u, s)
  {
    var f :| f in files && e in f.entries;
    EntryWithinFile(f, e);
    assert overlapping[..|overlapping|] == overlapping;
  }

  lemma LevelZeroSettled(files: seq<File>, sorted: seq<File>, i: nat, u: UserKey, s: Sequence, st: SaverState)
    requires FilesOk(files) && i < |sorted| && st != StateNotFound
    requires forall f :: f in sorted <==> f in files && UserOverlap(f, u)
    requires NewestFirst(sorted)
    requires forall f, g :: f in files && g in files && f.number > g.number
                            ==> Newer(Elements(f.entries), Elements(g.entries))
    requires Settles(FilesData(sorted[..i]), u, s, StateNotFound)
    requires Settles(Elements(sorted[i].entries), u, s, st)
    ensures Settles(FilesData(files), u, s, st)
  {
    hide SaveValue, FileOk;
    var n :| Newest(Elements(sorted[i].entries), u, s, n) && st == SaveValue(Some(n), u);
    assert sorted[i] in sorted;
    forall e | e in FilesData(files) && Readable(e, u, s) ensures e.key.sequence <= n.key.sequence {
      var f: File :| f in files && e in f.entries;
      EntryWithinFile(f, e);
      assert f in sorted;
      var k: nat :| k < |sorted| && sorted[k] == f;
      NotTriedBefore(sorted, i, k, u, s, e);
      if k > i {
        assert sorted[i].number > sorted[k].number;
        assert Newer(Elements(sorted[i].entries), Elements(sorted[k].entries));
      }
    }
    assert n in FilesData(files);
    assert Newest(FilesData(files), u, s, n);
  }

  lemma NotTriedBefore(files: seq<File>, i: nat, k: nat, u: UserKey, s: Sequence, e: Entry)
    requires i <= |files| && k < |files| && e in files[k].entries && Readable(e, u, s)
    requires Settles(FilesData(files[..i]), u, s, StateNotFound)
    ensures i <= k
  {
    forall j: nat, o | j < i && o in files[j].entries ensures o in FilesData(files[..i]) {
      assert files[..i][j] == files[j];
    }
  }

  lemma EarlierFileEarlierKey(fs: seq<File>, i: nat, j: nat, e: Entry, o: Entry)
    requires FilesOk(fs) && Disjoint(fs) && i < j < |fs| && e in fs[i].entries && o in fs[j].entries
    ensures Less(e.key, o.key)
  {
    EntryWithinFile(fs[i], e);
    EntryWithinFile(fs[j], o);
  }

  /** A read of a deeper level: the first file that ends at or after the key, if it begins in time. */
  function SortedState(files: seq<File>, u: UserKey, s: Sequence, tableGet: (File, InternalKey) -> Option<Entry>): SaverState {
    if files == [] then StateNotFound
    else if Less(files[0].largest, SeekKey(u, s)) then SortedState(files[1..], u, s, tableGet)
    else if u < files[0].smallest.user then StateNotFound
    else TableState(files[0], u, s, tableGet)
  }

  lemma {:induction false} SortedStateAt(files: seq<File>, index: nat, u: UserKey, s: Sequence,
                                         tableGet: (File, InternalKey) -> Option<Entry>)
    requires index <= |files| && forall i :: 0 <= i < index ==> Less(files[i].largest, SeekKey(u, s))
    requires index < |files| ==> AtMost(SeekKey(u, s), files[index].largest)
    ensures SortedState(files, u, s, tableGet)
         == if index < |files| && u >= files[index].smallest.user then TableState(files[index], u, s, tableGet) else StateNotFound
  {
    if index > 0 {
      SortedStateAt(files[1..], index - 1, u, s, tableGet);
    }
  }

  /** A deeper level: the one file that binary search points to. */
  method SearchSortedLevel(files: seq<File>, u: UserKey, s: Sequence, tableGet: (File, InternalKey) -> Option<Entry>)
    returns (st: SaverState)
    requires FilesOk(files) && Disjoint(files) && TableLookups(tableGet)
    ensures st == SortedState(files, u, s, tableGet)
    ensures st == StateCorrupt || Settles(FilesData(files), u, s, st)
    ensures (forall e :: e in FilesData(files) ==> e.key.Parses()) ==> st != StateCorrupt
  {
    SortedStateSettles(files, u, s, tableGet);
    var key := SeekKey(u, s);
    var index := FindFile(files, key);
    st := StateNotFound;
    SortedStateAt(files, index, u, s, tableGet);
    if index < |files| {
      var f := files[index];
      if u < f.smallest.user {
      } else {
        var handed := tableGet(f, key);
        st := SaveValue(handed, u);
      }
    }
  }

  /** `e` is the first of the entries at or after the key. */
  ghost predicate FirstAt(data: set<Entry>, key: InternalKey, e: Entry) {
    && e in data && AtMost(key, e.key)
    && forall o :: o in data && AtMost(key, o.key) ==> AtMost(e.key, o.key)
  }

  /** The first file that ends at or after the key. */
  ghost predicate LedTo(files: seq<File>, key: InternalKey, index: nat) {
    && index <= |files| && (forall i :: 0 <= i < index ==> Less(files[i].largest, key))
    && (index < |files| ==> AtMost(key, files[index].largest))
  }

  lemma SomeIndex(files: seq<File>, key: InternalKey) returns (index: nat)
    ensures LedTo(files, key, index)
  {
    index := 0;
    while index < |files| && Less(files[index].largest, key)
      invariant index <= |files| && forall i :: 0 <= i < index ==> Less(files[i].largest, key)
    {
      index := index + 1;
    }
  }

  lemma {:induction false} FirstFromIsFirst(es: seq<Entry>, key: InternalKey)
    requires Sorted(es)
    ensures var r := FirstFrom(es, key);
      if r.Some? then FirstAt(Elements(es), key, r.value) else forall e :: e in es ==> Less(e.key, key)
  {
    if es != [] {
      assert forall e :: e in es <==> e == es[0] || e in es[1..];
      if Less(es[0].key, key) {
        FirstFromIsFirst(es[1..], key);
      } else {
        forall e | e in es ensures AtMost(es[0].key, e.key) {
          var i :| 0 <= i < |es| && es[i] == e;
          assert i > 0 ==> Less(es[0].key, es[i].key);
        }
      }
    }
  }

  /** The first entry of a sorted level at or after the key is that of the file the search is led to. */
  lemma LevelFirst(files: seq<File>, key: InternalKey, index: nat)
    requires FilesOk(files) && Disjoint(files) && LedTo(files, key, index)
    ensures if index < |files|
            then var r := FirstFrom(files[index].entries, key); r.Some? && FirstAt(FilesData(files), key, r.value)
            else forall e :: e in FilesData(files) ==> Less(e.key, key)
  {
    forall i, e | 0 <= i < index && e in files[i].entries ensures Less(e.key, key) {
      EntryWithinFile(files[i], e);
    }
    if index < |files| {
      var f := files[index];
      var last := f.entries[|f.entries|-1];
      assert last in f.entries && f in files;
      FirstFromIsFirst(f.entries, key);
      var r := FirstFrom(f.entries, key).value;
      forall o | o in FilesData(files) && AtMost(key, o.key) ensures AtMost(r.key, o.key) {
        var g: File :| g in files && o in g.entries;
        var j :| 0 <= j < |files| && files[j] == g;
        if j > index {
          EarlierFileEarlierKey(files, index, j, r, o);
        }
      }
    }
  }

  /** An entry of the sought user key is always handed over. */
  lemma OwnEntryHanded(files: seq<File>, u: UserKey, s: Sequence, tableGet: (File, InternalKey) -> Option<Entry>, e: Entry)
    requires FilesOk(files) && Disjoint(files) && TableLookups(tableGet)
    requires FirstAt(FilesData(files), SeekKey(u, s), e) && e.key.user == u
    ensures SortedState(files, u, s, tableGet) == SaveValue(Some(e), u)
  {
    var key := SeekKey(u, s);
    var index := SomeIndex(files, key);
    LevelFirst(files, key, index);
    SortedStateAt(files, index, u, s, tableGet);
    var f := files[index];
    var r := FirstFrom(f.entries, key).value;
    EntryWithinFile(f, r);
    SameFirst(FilesData(files), key, e, r);
    assert TableAnswer(f.entries, key, tableGet(f, key));
  }

  lemma SameFirst(data: set<Entry>, key: InternalKey, a: Entry, b: Entry)
    requires FirstAt(data, key, a) && FirstAt(data, key, b)
    ensures a.key == b.key
  {
    SameTag(a.key, b.key);
  }

  lemma SameTag(a: InternalKey, b: InternalKey)
    requires AtMost(a, b) && AtMost(b, a)
    ensures a == b
  {
  }

  lemma SortedStateSettles(files: seq<File>, u: UserKey, s: Sequence, tableGet: (File, InternalKey) -> Option<Entry>)
    requires FilesOk(files) && Disjoint(files) && TableLookups(tableGet)
    ensures var st := SortedState(files, u, s, tableGet); st == StateCorrupt || Settles(FilesData(files), u, s, st)
    ensures (forall e :: e in FilesData(files) ==> e.key.Parses()) ==> SortedState(files, u, s, tableGet) != StateCorrupt
  {
    var key := SeekKey(u, s);
    var index := SomeIndex(files, key);
    LevelFirst(files, key, index);
    SortedStateAt(files, index, u, s, tableGet);
    if index < |files| {
      var f := files[index];
      var r := FirstFrom(f.entries, key).value;
      EntryWithinFile(f, r);
      assert TableAnswer(f.entries, key, tableGet(f, key));
      if r.key.user == u && r.key.Parses() {
        FirstIsNewest(FilesData(files), u, s, r);
      } else if r.key.user != u {
        NothingOfTheUser(FilesData(files), u, s, r);
      }
    }
  }

  lemma FirstIsNewest(data: set<Entry>, u: UserKey, s: Sequence, e: Entry)
    requires FirstAt(data, SeekKey(u, s), e) && e.key.user == u && e.key.Parses()
    ensures Newest(data, u, s, e)
  {
    forall o | o in data && Readable(o, u, s) ensures o.key.sequence <= e.key.sequence {
      assert AtMost(SeekKey(u, s), o.key);
    }
  }

  lemma NothingOfTheUser(data: set<Entry>, u: UserKey, s: Sequence, e: Entry)
    requires FirstAt(data, SeekKey(u, s), e) && e.key.user != u
    ensures forall o :: o in data ==> !Readable(o, u, s)
  {
    forall o | o in data && Readable(o, u, s) ensures false {
      assert AtMost(SeekKey(u, s), o.key);
    }
  }

  lemma SplitLevels(levels: seq<seq<File>>, level: nat)
    requires level < |levels|
    ensures LevelsData(levels, level) == FilesData(levels[level]) + LevelsData(levels, level + 1)
  {
  }

  ghost predicate Knows(data: set<Entry>, u: UserKey, s: Sequence) {
    exists e :: e in data && Readable(e, u, s)
  }

  /** A read of the levels from `from` on: the first level that knows the key answers. */
  ghost function LevelRead(levels: seq<seq<File>>, u: UserKey, s: Sequence, from: nat): Option<Bytes>
    requires from <= |levels|
    decreases |levels| - from
  {
    if from == |levels| then None
    else if Knows(FilesData(levels[from]), u, s) then Lookup(FilesData(levels[from]), u, s)
    else LevelRead(levels, u, s, from + 1)
  }

  lemma LevelAbove(levels: seq<seq<File>>, level: nat)
    requires AgeOrdered(levels) && level < NUM_LEVELS
    ensures Newer(FilesData(levels[level]), LevelsData(levels, level + 1))
  {
    forall x, y | x in FilesData(levels[level]) && y in LevelsData(levels, level + 1) && x.key.user == y.key.user
      ensures x.key.sequence > y.key.sequence
    {
      var l :| level < l < NUM_LEVELS && y in FilesData(levels[l]);
      assert Newer(FilesData(levels[level]), FilesData(levels[l]));
    }
  }

  /** While smaller levels hold newer data, reading level by level is reading everything at once. */
  lemma {:induction false} LevelReadIsLookup(levels: seq<seq<File>>, u: UserKey, s: Sequence, from: nat)
    requires AgeOrdered(levels) && from <= NUM_LEVELS && OneEntryPerSequence(LevelsData(levels, from))
    ensures LevelRead(levels, u, s, from) == Lookup(LevelsData(levels, from), u, s)
    decreases NUM_LEVELS - from
  {
    hide AgeOrdered;
    assert |levels| == NUM_LEVELS by {
      AgeOrderedLength(levels);
    }
    if from == NUM_LEVELS {
      assert LevelsData(levels, from) == {};
    } else {
      var here, below := FilesData(levels[from]), LevelsData(levels, from + 1);
      SplitLevels(levels, from);
      LevelReadIsLookup(levels, u, s, from + 1);
      LevelAbove(levels, from);
      assert OneEntryPerSequence(here);
      if e :| e in here && Readable(e, u, s) {
        var n := NewestExists(here, u, s, e);
        assert Newest(here + below, u, s, n);
        LookupIsOutcome(here, u, s, n);
        LookupIsOutcome(here + below, u, s, n);
      } else {
        SameReadableSameLookup(below, here + below, u, s);
      }
    }
  }

  lemma AgeOrderedLength(levels: seq<seq<File>>)
    requires AgeOrdered(levels)
    ensures |levels| == NUM_LEVELS
  {
  }

  function LevelState(levels: seq<seq<File>>, level: nat, u: UserKey, s: Sequence,
                      tableGet: (File, InternalKey) -> Option<Entry>): SaverState
    requires level < |levels| && DistinctNumbers(levels[0])
  {
    if level == 0 then ZeroState(levels[0], u, s, tableGet) else SortedState(levels[level], u, s, tableGet)
  }

  /** What Version::Get comes to from level `from` on, with tables that may hold keys that do not decode. */
  function PointRead(levels: seq<seq<File>>, u: UserKey, s: Sequence, tableGet: (File, InternalKey) -> Option<Entry>,
                     from: nat): ReadResult
    requires from <= |levels| && (|levels| > 0 ==> DistinctNumbers(levels[0]))
    decreases |levels| - from
  {
    if from == |levels| then NotFound
    else
      var st := LevelState(levels, from, u, s, tableGet);
      if st != StateNotFound then ResultOf(st) else PointRead(levels, u, s, tableGet, from + 1)
  }

  lemma LevelStateSettles(levels: seq<seq<File>>, level: nat, u: UserKey, s: Sequence,
                          tableGet: (File, InternalKey) -> Option<Entry>)
    requires VersionOk(levels) && NumberedByAge(levels[0]) && TableLookups(tableGet) && level < NUM_LEVELS
    ensures var st := LevelState(levels, level, u, s, tableGet);
      st == StateCorrupt || Settles(FilesData(levels[level]), u, s, st)
    ensures (forall e :: e in FilesData(levels[level]) ==> e.key.Parses())
            ==> LevelState(levels, level, u, s, tableGet) != StateCorrupt
  {
    if level == 0 {
      ZeroStateSettles(levels[0], u, s, tableGet);
    } else {
      SortedStateSettles(levels[level], u, s, tableGet);
    }
  }

  lemma SettledAtLevel(levels: seq<seq<File>>, level: nat, u: UserKey, s: Sequence, st: SaverState)
    requires level < |levels| && OneEntryPerSequence(FilesData(levels[level])) && Settles(FilesData(levels[level]), u, s, st)
    ensures st != StateNotFound ==> ResultOf(st) == Answer(LevelRead(levels, u, s, level))
    ensures st == StateNotFound ==> LevelRead(levels, u, s, level) == LevelRead(levels, u, s, level + 1)
  {
    if st != StateNotFound {
      var e :| Newest(FilesData(levels[level]), u, s, e) && st == SaveValue(Some(e), u);
      LookupIsOutcome(FilesData(levels[level]), u, s, e);
      assert Knows(FilesData(levels[level]), u, s);
    }
  }

  /** A read that meets no undecodable key finds what the first level that knows the key says. */
  lemma {:induction false} PointReadAnswers(levels: seq<seq<File>>, u: UserKey, s: Sequence,
                                            tableGet: (File, InternalKey) -> Option<Entry>, from: nat)
    requires VersionOk(levels) && NumberedByAge(levels[0]) && OneEntryPerSequence(LevelsData(levels, 0))
    requires TableLookups(tableGet) && from <= NUM_LEVELS
    ensures var r := PointRead(levels, u, s, tableGet, from); r == Corruption || r == Answer(LevelRead(levels, u, s, from))
    ensures WellFormedData(LevelsData(levels, 0)) ==> PointRead(levels, u, s, tableGet, from) != Corruption
    decreases NUM_LEVELS - from
  {
    hide LevelState;
    if from < NUM_LEVELS {
      assert FilesData(levels[from]) <= LevelsData(levels, 0);
      LevelStateSettles(levels, from, u, s, tableGet);
      var st := LevelState(levels, from, u, s, tableGet);
      if st != StateCorrupt {
        SettledAtLevel(levels, from, u, s, st);
        PointReadAnswers(levels, u, s, tableGet, from + 1);
      }
    }
  }

  /** Version::Get searches level by level and stops at the first level that knows the key, or at a key that does not
      decode.  Without such keys, and when smaller levels hold newer data, it answers as a search of all entries of the
      version would. */
  method Get(levels: seq<seq<File>>, u: UserKey, s: Sequence, tableGet: (File, InternalKey) -> Option<Entry>)
    returns (r: ReadResult)
    requires VersionOk(levels) && NumberedByAge(levels[0]) && OneEntryPerSequence(LevelsData(levels, 0))
    requires TableLookups(tableGet)
    ensures r == PointRead(levels, u, s, tableGet, 0)
    ensures r == Corruption || r == Answer(LevelRead(levels, u, s, 0))
    ensures WellFormedData(LevelsData(levels, 0)) ==> r == Answer(LevelRead(levels, u, s, 0))
    ensures WellFormedData(LevelsData(levels, 0)) && AgeOrdered(levels) ==> r == Answer(Lookup(LevelsData(levels, 0), u, s))
  {
    hide AgeOrdered, WellFormedData, LevelRead, LevelsData, Lookup, PointRead, ZeroState, SortedState, TableLookups,
         OneEntryPerSequence, Settles, FilesOk, Disjoint, FilesData, NumberedByAge, VersionOk, DistinctNumbers;
    LevelsAreOk(levels);
    PointReadAnswers(levels, u, s, tableGet, 0);
    if AgeOrdered(levels) {
      LevelReadIsLookup(levels, u, s, 0);
    }
    for level := 0 to NUM_LEVELS
      invariant PointRead(levels, u, s, tableGet, 0) == PointRead(levels, u, s, tableGet, level)
    {
      var st;
      if level == 0 {
        st := SearchLevelZero(levels[0], u, s, tableGet);
      } else {
        st := SearchSortedLevel(levels[level], u, s, tableGet);
      }
      PointReadStep(levels, u, s, tableGet, level);
      if st != StateNotFound {
        return ResultOf(st);
      }
    }
    NothingDeeper(levels, u, s, tableGet);
    return NotFound;
  }

  lemma LevelsAreOk(levels: seq<seq<File>>)
    requires VersionOk(levels) && NumberedByAge(levels[0])
    ensures |levels| == NUM_LEVELS && DistinctNumbers(levels[0])
    ensures forall l :: 0 <= l < NUM_LEVELS ==> FilesOk(levels[l])
    ensures forall l :: 1 <= l < NUM_LEVELS ==> Disjoint(levels[l])
  {
  }

  lemma PointReadStep(levels: seq<seq<File>>, u: UserKey, s: Sequence, tableGet: (File, InternalKey) -> Option<Entry>,
                      level: nat)
    requires level < |levels| && DistinctNumbers(levels[0])
    ensures var st := LevelState(levels, level, u, s, tableGet);
      PointRead(levels, u, s, tableGet, level)
      == if st != StateNotFound then ResultOf(st) else PointRead(levels, u, s, tableGet, level + 1)
  {
    hide LevelState;
  }

  lemma NothingDeeper(levels: seq<seq<File>>, u: UserKey, s: Sequence, tableGet: (File, InternalKey) -> Option<Entry>)
    requires |levels| == NUM_LEVELS && DistinctNumbers(levels[0])
    ensures PointRead(levels, u, s, tableGet, NUM_LEVELS) == NotFound
  {
  }
}
