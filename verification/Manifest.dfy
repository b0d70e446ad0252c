/** The manifest (db/version_set.cc, LogAndApply and Recover): a log of version edits, replayed through one builder. */
module Manifests {
  import opened Keys
  import opened Coding
  import opened Comparator
  import opened DbFormat
  import opened LogFormat
  import opened LogReader
  import opened LogRecovery
  import opened VersionBuilder
  import opened VersionEdits
  import opened Versions

  /** The table's entries are not in the manifest. */
  function FileOf(m: FileMeta): File { File(m.number, m.fileSize, KeyOf(m.smallest), KeyOf(m.largest), []) }

  function ChangesOf(e: Edit): FileChanges {
    FileChanges(set i | 0 <= i < |e.deletedFiles| :: (e.deletedFiles[i].0 as nat, e.deletedFiles[i].1 as nat),
                seq(|e.newFiles|, i requires 0 <= i < |e.newFiles| => (e.newFiles[i].0 as nat, FileOf(e.newFiles[i].1))))
  }

  /** The files of a level after applying edits one by one to an empty version. */
  function FilesAfter(edits: seq<FileChanges>, l: nat): set<File> {
    if edits == [] then {} else Applied(FilesAfter(edits[..|edits|-1], l), edits[|edits|-1], l)
  }

  function IdsAdded(edits: seq<FileChanges>): set<(nat, nat)> {
    if edits == [] then {} else IdsAdded(edits[..|edits|-1]) + Ids(edits[|edits|-1])
  }

  /** The files have proper ranges, any two of which lie apart. */
  predicate SeparatedFiles(files: set<File>) {
    && (forall f :: f in files ==> AtMost(f.smallest, f.largest))
    && forall f, g :: f in files && g in files && f != g ==> Less(f.largest, g.smallest) || Less(g.largest, f.smallest)
  }

  /** No (level, number) is added twice, and levels exist. */
  predicate Sound(edits: seq<FileChanges>) {
    forall i :: 0 <= i < |edits| ==> edits[i].LevelsOk() && AddsFresh(edits[i], IdsAdded(edits[..i]))
  }

  /** The file lists of the version that the edits make. */
  ghost predicate IsVersion(levels: seq<seq<File>>, edits: seq<FileChanges>) {
    && |levels| == NUM_LEVELS
    && (forall l :: 0 <= l < NUM_LEVELS ==> SortedBySmallest(levels[l]))
    && (forall l, f :: 0 <= l < NUM_LEVELS ==> (f in levels[l] <==> f in FilesAfter(edits, l)))
  }

  /** There is only one such version. */
  lemma VersionIsUnique(a: seq<seq<File>>, b: seq<seq<File>>, edits: seq<FileChanges>)
    requires IsVersion(a, edits) && IsVersion(b, edits)
    ensures a == b
  {
    forall l | 0 <= l < NUM_LEVELS ensures a[l] == b[l] {
      SortedListIsItsSet(a[l], b[l]);
    }
  }

  /** Every file of a version was added by one of its edits. */
  lemma {:induction false} FilesWereAdded(edits: seq<FileChanges>, l: nat, f: File)
    requires f in FilesAfter(edits, l)
    ensures (l, f.number) in IdsAdded(edits)
  {
    var last := edits[|edits|-1];
    if f in NewFiles(last, l) {
      var i :| 0 <= i < |last.added| && last.added[i].0 == l && last.added[i].1 == f;
      assert (last.added[i].0, last.added[i].1.number) in Ids(last);
    } else {
      FilesWereAdded(edits[..|edits|-1], l, f);
    }
  }

  lemma SoundPrefix(edits: seq<FileChanges>, n: nat)
    requires Sound(edits) && n <= |edits|
    ensures Sound(edits[..n])
  {
    forall i | 0 <= i <= n ensures edits[..n][..i] == edits[..i] {
    }
  }

  lemma OneMoreEdit(edits: seq<FileChanges>, n: nat)
    requires n < |edits|
    ensures forall l :: FilesAfter(edits[..n+1], l) == Applied(FilesAfter(edits[..n], l), edits[n], l)
    ensures IdsAdded(edits[..n+1]) == IdsAdded(edits[..n]) + Ids(edits[n])
  {
    assert edits[..n+1][..n] == edits[..n];
  }

  lemma LastEdit(edits: seq<FileChanges>, changes: FileChanges)
    requires Sound(edits + [changes])
    ensures changes.LevelsOk() && AddsFresh(changes, IdsAdded(edits))
    ensures forall l :: FilesAfter(edits + [changes], l) == Applied(FilesAfter(edits, l), changes, l)
  {
    var all, n := edits + [changes], |edits|;
    assert all[..n] == edits && all[n] == changes && all[..n+1] == all;
    OneMoreEdit(all, n);
    assert AddsFresh(all[n], IdsAdded(all[..n]));
  }

  lemma StillFresh(changes: FileChanges, known: set<(nat, nat)>, more: set<(nat, nat)>)
    requires AddsFresh(changes, more) && known <= more
    ensures AddsFresh(changes, known)
  {
  }

  /** A builder's survivors are its files. */
  lemma SurvivorsSeparate(base: seq<File>, added: seq<File>, deleted: set<nat>, files: set<File>)
    requires SeparatedFiles(files) && forall f :: f in files <==> (f in base || f in added) && f.number !in deleted
    ensures VersionBuilder.Separated(base, added, deleted)
  {
  }

  lemma BaseWasAdded(levels: seq<seq<File>>, edits: seq<FileChanges>, known: set<(nat, nat)>)
    requires IsVersion(levels, edits)
    requires known == set l, i | 0 <= l < NUM_LEVELS && 0 <= i < |levels[l]| :: (l, levels[l][i].number)
    ensures known <= IdsAdded(edits)
  {
    forall id | id in known ensures id in IdsAdded(edits) {
      var l: nat, i: nat :| l < NUM_LEVELS && i < |levels[l]| && id == (l, levels[l][i].number);
      assert levels[l][i] in levels[l];
      FilesWereAdded(edits, l, levels[l][i]);
    }
  }

  /** LogAndApply: one edit, on the current version. */
  method LogAndApply(levels: seq<seq<File>>, changes: FileChanges, ghost edits: seq<FileChanges>)
    returns (next: seq<seq<File>>, asserted: bool)
    requires Sound(edits + [changes]) && IsVersion(levels, edits)
    ensures IsVersion(next, edits + [changes]) && (asserted <==> LevelsBehind(next))
    ensures AllSeparated(edits + [changes]) ==> Disjoined(next) && asserted
  {
    hide Sound, FilesAfter, IdsAdded, AllSeparated, Applied, AddsFresh, LevelsBehind, Disjoined;
    LastEdit(edits, changes);
    var builder := new Builder(levels);
    BaseWasAdded(levels, edits, builder.known);
    StillFresh(changes, builder.known, IdsAdded(edits));
    forall l | 0 <= l < NUM_LEVELS ensures builder.Files(l) == FilesAfter(edits, l) {
    }
    builder.Apply(changes);
    next, asserted := Save(builder, edits + [changes]);
  }

  /** Above level 0 the version of the edits has no overlapping files. */
  ghost predicate AllSeparated(edits: seq<FileChanges>) {
    forall l :: 1 <= l < NUM_LEVELS ==> SeparatedFiles(FilesAfter(edits, l))
  }

  predicate Disjoined(levels: seq<seq<File>>) {
    forall l :: 1 <= l < |levels| ==> Disjoint(levels[l])
  }

  /** Turns what a builder gathered into the version of the edits.  The checks on the way hold exactly when, above
      level 0, each file begins behind the one before, and so whenever the files do not overlap. */
  method Save(builder: Builder, ghost edits: seq<FileChanges>) returns (levels: seq<seq<File>>, asserted: bool)
    requires builder.Valid() && forall l :: 0 <= l < NUM_LEVELS ==> builder.Files(l) == FilesAfter(edits, l)
    ensures IsVersion(levels, edits) && (asserted <==> LevelsBehind(levels))
    ensures AllSeparated(edits) ==> Disjoined(levels) && asserted
  {
    hide FilesAfter, SeparatedFiles, VersionBuilder.Separated, LevelsBehind, Disjoint, SortedBySmallest;
    levels, asserted := builder.SaveTo();
    if AllSeparated(edits) {
      forall l | 1 <= l < NUM_LEVELS ensures VersionBuilder.Separated(builder.base[l], builder.added[l], builder.deleted[l]) {
        assert forall f :: f in builder.Files(l) <==>
                             (f in builder.base[l] || f in builder.added[l]) && f.number !in builder.deleted[l];
        SurvivorsSeparate(builder.base[l], builder.added[l], builder.deleted[l], FilesAfter(edits, l));
      }
      DisjointBehind(levels);
    }
  }

  lemma DisjointBehind(levels: seq<seq<File>>)
    requires Disjoined(levels)
    ensures LevelsBehind(levels)
  {
  }

  /** Applying edits one at a time, a version after each. */
  method ApplyOneByOne(edits: seq<FileChanges>) returns (levels: seq<seq<File>>)
    requires Sound(edits)
    ensures IsVersion(levels, edits)
  {
    hide Sound, AddsFresh;
    levels := seq(NUM_LEVELS, _ => []);
    for n := 0 to |edits|
      invariant IsVersion(levels, edits[..n])
    {
      assert edits[..n+1] == edits[..n] + [edits[n]];
      SoundPrefix(edits, n + 1);
      var asserted;
      levels, asserted := LogAndApply(levels, edits[n], edits[..n]);
    }
    assert edits[..|edits|] == edits;
  }

  /** The manifest record of an edit. */
  function RecordOf(e: Edit): Bytes { EncodeFields(FieldsOf(e)) }

  ghost function AllChanges(edits: seq<Edit>): (cs: seq<FileChanges>)
    ensures |cs| == |edits| && forall i :: 0 <= i < |cs| ==> cs[i] == ChangesOf(edits[i])
  {
    seq(|edits|, i requires 0 <= i < |edits| => ChangesOf(edits[i]))
  }

  /** The numbers an edit may carry. */
  datatype Counter = OfLog | OfPrevLog | OfNextFile | OfSequence

  function NumberIn(e: Edit, c: Counter): Option<DoubleWord> {
    match c
    case OfLog => e.logNumber
    case OfPrevLog => e.prevLogNumber
    case OfNextFile => e.nextFileNumber
    case OfSequence => e.lastSequence
  }

  /** What the last edit that carries the number says. */
  function Latest(edits: seq<Edit>, c: Counter): Option<DoubleWord> {
    if edits == [] then None
    else if NumberIn(edits[|edits|-1], c).Some? then NumberIn(edits[|edits|-1], c)
    else Latest(edits[..|edits|-1], c)
  }

  lemma {:induction false} LatestIsLast(edits: seq<Edit>, c: Counter) returns (i: nat)
    ensures Latest(edits, c) == None ==> forall k :: 0 <= k < |edits| ==> NumberIn(edits[k], c) == None
    ensures Latest(edits, c).Some? ==>
              && i < |edits| && NumberIn(edits[i], c) == Latest(edits, c)
              && forall k :: i < k < |edits| ==> NumberIn(edits[k], c) == None
  {
    hide NumberIn;
    i := 0;
    if edits != [] {
      var last := |edits| - 1;
      if NumberIn(edits[last], c).Some? {
        i := last;
      } else {
        i := LatestIsLast(edits[..last], c);
      }
    }
  }

  predicate SameComparator(edits: seq<Edit>, name: Bytes) {
    forall i :: 0 <= i < |edits| && edits[i].comparator.Some? ==> edits[i].comparator == Some(name)
  }

  /** The edits are made for this comparator, and some of them say where the log, the file numbers and the sequence
      numbers stand. */
  predicate Recoverable(edits: seq<Edit>, name: Bytes) {
    && SameComparator(edits, name) && Latest(edits, OfNextFile).Some?
    && Latest(edits, OfLog).Some? && Latest(edits, OfSequence).Some?
  }

  /** The numbers the version set goes on with. */
  datatype Numbers = Numbers(log: nat, prevLog: nat, manifest: nat, nextFile: nat, lastSequence: nat)

  function NumbersOf(edits: seq<Edit>): Numbers
    requires Latest(edits, OfNextFile).Some? && Latest(edits, OfLog).Some?
    requires Latest(edits, OfSequence).Some?
  {
    NumbersFrom(Latest(edits, OfLog).value, Latest(edits, OfPrevLog), Latest(edits, OfNextFile).value,
                Latest(edits, OfSequence).value)
  }

  function NumbersFrom(log: DoubleWord, prevLog: Option<DoubleWord>, nextFile: DoubleWord, lastSequence: DoubleWord): Numbers {
    Numbers(log, if prevLog.Some? then prevLog.value else 0, nextFile, (nextFile as nat + 1) % 0x1_0000_0000_0000_0000,
            lastSequence)
  }

  predicate Known(edits: seq<Edit>, log: Option<DoubleWord>, prevLog: Option<DoubleWord>, nextFile: Option<DoubleWord>,
                  lastSequence: Option<DoubleWord>) {
    && log == Latest(edits, OfLog) && prevLog == Latest(edits, OfPrevLog)
    && nextFile == Latest(edits, OfNextFile) && lastSequence == Latest(edits, OfSequence)
  }

  function OrElse(now: Option<DoubleWord>, before: Option<DoubleWord>): Option<DoubleWord> {
    if now.Some? then now else before
  }

  lemma OneMoreKnown(edits: seq<Edit>, n: nat, log: Option<DoubleWord>, prevLog: Option<DoubleWord>,
                     nextFile: Option<DoubleWord>, lastSequence: Option<DoubleWord>)
    requires n < |edits| && Known(edits[..n], log, prevLog, nextFile, lastSequence)
    ensures var e := edits[n];
      Known(edits[..n+1], OrElse(e.logNumber, log), OrElse(e.prevLogNumber, prevLog), OrElse(e.nextFileNumber, nextFile),
            OrElse(e.lastSequence, lastSequence))
  {
    assert edits[..n+1][..n] == edits[..n];
  }

  method ReadEdit(record: Bytes, ghost e: Edit) returns (edit: Edit)
    requires EditFits(e) && LevelsOk(e) && record == RecordOf(e)
    ensures edit == e
  {
    hide RecordOf, EditFits, LevelsOk;
    var decoder := new VersionEdit();
    var decoded := decoder.DecodeFrom(record);
    assert decoded && decoder.View() == e by { RecordReadsBack(e); }
    edit := decoder.View();
  }

  // ----- The same, by the edits' own fields -----

  /** `v` is the last number said. */
  ghost predicate LastSaid(said: seq<Option<DoubleWord>>, v: nat) {
    exists i :: 0 <= i < |said| && said[i].Some? && said[i].value == v && forall j :: i < j < |said| ==> said[j] == None
  }

  predicate NeverSaid(said: seq<Option<DoubleWord>>) { forall i :: 0 <= i < |said| ==> said[i] == None }

  function LogsSaid(edits: seq<Edit>): seq<Option<DoubleWord>> {
    seq(|edits|, i requires 0 <= i < |edits| => edits[i].logNumber)
  }

  function PrevLogsSaid(edits: seq<Edit>): seq<Option<DoubleWord>> {
    seq(|edits|, i requires 0 <= i < |edits| => edits[i].prevLogNumber)
  }

  function NextFilesSaid(edits: seq<Edit>): seq<Option<DoubleWord>> {
    seq(|edits|, i requires 0 <= i < |edits| => edits[i].nextFileNumber)
  }

  function SequencesSaid(edits: seq<Edit>): seq<Option<DoubleWord>> {
    seq(|edits|, i requires 0 <= i < |edits| => edits[i].lastSequence)
  }

  /** The numbers are those said last; the manifest takes the next file number, and the one after it comes next. */
  ghost predicate SaidLast(edits: seq<Edit>, n: Numbers) {
    && LastSaid(LogsSaid(edits), n.log) && LastSaid(SequencesSaid(edits), n.lastSequence)
    && (if NeverSaid(PrevLogsSaid(edits)) then n.prevLog == 0 else LastSaid(PrevLogsSaid(edits), n.prevLog))
    && LastSaid(NextFilesSaid(edits), n.manifest)
    && n.nextFile == if n.manifest == 0xffff_ffff_ffff_ffff then 0 else n.manifest + 1
  }

  lemma LatestSaid(edits: seq<Edit>, c: Counter, said: seq<Option<DoubleWord>>)
    requires |said| == |edits| && forall i :: 0 <= i < |edits| ==> said[i] == NumberIn(edits[i], c)
    ensures if Latest(edits, c) == None then NeverSaid(said) else LastSaid(said, Latest(edits, c).value) && !NeverSaid(said)
  {
    hide NumberIn, Latest;
    var i := LatestIsLast(edits, c);
  }

  lemma NumbersAreSaidLast(edits: seq<Edit>)
    requires Latest(edits, OfNextFile).Some? && Latest(edits, OfLog).Some? && Latest(edits, OfSequence).Some?
    ensures SaidLast(edits, NumbersOf(edits))
  {
    hide Latest, LastSaid, NeverSaid;
    LatestSaid(edits, OfLog, LogsSaid(edits));
    LatestSaid(edits, OfPrevLog, PrevLogsSaid(edits));
    LatestSaid(edits, OfNextFile, NextFilesSaid(edits));
    LatestSaid(edits, OfSequence, SequencesSaid(edits));
  }

  /** Recovery succeeds when every comparator named is this one, and the log, the next file and the last sequence number
      are said. */
  predicate MeantFor(edits: seq<Edit>, name: Bytes) {
    && (forall i :: 0 <= i < |edits| && edits[i].comparator.Some? ==> edits[i].comparator.value == name)
    && !NeverSaid(NextFilesSaid(edits)) && !NeverSaid(LogsSaid(edits)) && !NeverSaid(SequencesSaid(edits))
  }

  lemma MeantIsRecoverable(edits: seq<Edit>, name: Bytes)
    ensures MeantFor(edits, name) <==> Recoverable(edits, name)
  {
    hide Latest, LastSaid, NeverSaid;
    LatestSaid(edits, OfLog, LogsSaid(edits));
    LatestSaid(edits, OfNextFile, NextFilesSaid(edits));
    LatestSaid(edits, OfSequence, SequencesSaid(edits));
  }

  /** `k` is the key that an encoded internal key stands for. */
  ghost predicate StandsFor(b: Bytes, k: InternalKey) {
    forall user, tag: DoubleWord :: b == EncodeKey(user, tag) ==> k == InternalKey(BytewiseRank(user), tag / 256, tag % 256)
  }

  /** What an edit says of a file it adds. */
  lemma FileIsAsDescribed(m: FileMeta)
    ensures var f := FileOf(m);
      f.number == m.number && f.size == m.fileSize && StandsFor(m.smallest, f.smallest) && StandsFor(m.largest, f.largest)
  {
    hide EncodeKey, KeyOf;
    forall user, tag: DoubleWord ensures KeyOf(EncodeKey(user, tag)) == InternalKey(BytewiseRank(user), tag / 256, tag % 256) {
      EncodedKeyOf(user, tag);
    }
  }

  /** New file `k` of edit `i` at the level, which no later edit deletes. */
  predicate AddedForGood(edits: seq<Edit>, l: nat, i: nat, k: nat) {
    && i < |edits| && k < |edits[i].newFiles| && edits[i].newFiles[k].0 as nat == l
    && forall j, d :: i < j < |edits| && 0 <= d < |edits[j].deletedFiles|
                      ==> !(edits[j].deletedFiles[d].0 as nat == l
                            && edits[j].deletedFiles[d].1 == edits[i].newFiles[k].1.number)
  }

  ghost predicate AddedAndKept(edits: seq<Edit>, l: nat, f: File) {
    exists i: nat, k: nat :: AddedForGood(edits, l, i, k) && f == FileOf(edits[i].newFiles[k].1)
  }

  /** The files of a level are those that some edit added there and none after it deleted. */
  lemma {:induction false} FilesAreAddedAndKept(edits: seq<Edit>, l: nat)
    ensures forall f :: f in FilesAfter(AllChanges(edits), l) <==> AddedAndKept(edits, l, f)
  {
    hide FileOf, AddedForGood;
    if edits == [] {
      NothingAdded(l);
    } else {
      var init, e := edits[..|edits|-1], edits[|edits|-1];
      FilesAreAddedAndKept(init, l);
      assert AllChanges(edits)[..|edits|-1] == AllChanges(init);
      forall f ensures f in FilesAfter(AllChanges(edits), l) <==> AddedAndKept(edits, l, f) {
        OneMoreAddedAndKept(edits, l, f);
        AppliedByFields(e, FilesAfter(AllChanges(init), l), l, f);
      }
    }
  }

  lemma NothingAdded(l: nat)
    ensures forall f :: !AddedAndKept([], l, f)
  {
  }

  predicate Deletes(e: Edit, l: nat, n: nat) {
    exists d :: 0 <= d < |e.deletedFiles| && e.deletedFiles[d].0 as nat == l && e.deletedFiles[d].1 as nat == n
  }

  predicate Adds(e: Edit, l: nat, f: File) {
    exists k :: 0 <= k < |e.newFiles| && e.newFiles[k].0 as nat == l && f == FileOf(e.newFiles[k].1)
  }

  lemma AppliedByFields(e: Edit, files: set<File>, l: nat, f: File)
    ensures f in Applied(files, ChangesOf(e), l) <==> (f in files && !Deletes(e, l, f.number)) || Adds(e, l, f)
  {
    hide FileOf;
    var c := ChangesOf(e);
    if Deletes(e, l, f.number) {
      var d :| 0 <= d < |e.deletedFiles| && e.deletedFiles[d].0 as nat == l && e.deletedFiles[d].1 as nat == f.number;
      assert (e.deletedFiles[d].0 as nat, e.deletedFiles[d].1 as nat) in c.deleted;
    }
    if Adds(e, l, f) {
      var k :| 0 <= k < |e.newFiles| && e.newFiles[k].0 as nat == l && f == FileOf(e.newFiles[k].1);
      assert c.added[k] == (l, f);
    }
    if f in NewFiles(c, l) {
      var k :| 0 <= k < |c.added| && c.added[k].0 == l && c.added[k].1 == f;
      assert e.newFiles[k].0 as nat == l && f == FileOf(e.newFiles[k].1);
    }
  }

  lemma OneMoreAddedAndKept(edits: seq<Edit>, l: nat, f: File)
    requires edits != []
    ensures var init, e := edits[..|edits|-1], edits[|edits|-1];
      AddedAndKept(edits, l, f) <==> (AddedAndKept(init, l, f) && !Deletes(e, l, f.number)) || Adds(e, l, f)
  {
    hide KeyOf;
    var n, init, e := |edits| - 1, edits[..|edits|-1], edits[|edits|-1];
    if i: nat, k: nat :| AddedForGood(edits, l, i, k) && f == FileOf(edits[i].newFiles[k].1) {
      if i < n {
        assert init[i] == edits[i];
        assert AddedForGood(init, l, i, k);
      }
    }
    if AddedAndKept(init, l, f) && !Deletes(e, l, f.number) {
      var i: nat, k: nat :| AddedForGood(init, l, i, k) && f == FileOf(init[i].newFiles[k].1);
      forall j, d | i < j < |edits| && 0 <= d < |edits[j].deletedFiles|
        ensures !(edits[j].deletedFiles[d].0 as nat == l && edits[j].deletedFiles[d].1 == edits[i].newFiles[k].1.number)
      {
        assert j < n ==> init[j] == edits[j];
      }
      assert AddedForGood(edits, l, i, k);
    }
    if k :| 0 <= k < |e.newFiles| && e.newFiles[k].0 as nat == l && f == FileOf(e.newFiles[k].1) {
      assert AddedForGood(edits, l, n, k);
    }
  }

  /** Every level lists the files added there and not deleted since. */
  ghost predicate ListsAddedAndKept(levels: seq<seq<File>>, edits: seq<Edit>) {
    && |levels| == NUM_LEVELS
    && forall l, f :: 0 <= l < NUM_LEVELS ==> (f in levels[l] <==> AddedAndKept(edits, l, f))
  }

  lemma VersionLists(levels: seq<seq<File>>, edits: seq<Edit>)
    requires IsVersion(levels, AllChanges(edits))
    ensures ListsAddedAndKept(levels, edits)
  {
    hide FilesAfter, AddedAndKept;
    forall l: nat | l < NUM_LEVELS ensures forall f :: f in levels[l] <==> AddedAndKept(edits, l, f) {
      FilesAreAddedAndKept(edits, l);
    }
  }

  /** Recovery folds all the edits into one builder and makes one version. */
  method Recover(records: seq<Bytes>, comparator: Bytes, ghost edits: seq<Edit>)
    returns (ok: bool, levels: seq<seq<File>>, numbers: Numbers)
    requires |records| == |edits| && Sound(AllChanges(edits))
    requires forall i :: 0 <= i < |edits| ==> EditFits(edits[i]) && LevelsOk(edits[i]) && records[i] == RecordOf(edits[i])
    ensures ok <==> MeantFor(edits, comparator)
    ensures ok ==> SaidLast(edits, numbers) && ListsAddedAndKept(levels, edits)
    ensures ok <==> Recoverable(edits, comparator)
    ensures ok ==> IsVersion(levels, AllChanges(edits)) && numbers == NumbersOf(edits)
    ensures ok && AllSeparated(AllChanges(edits)) ==> Disjoined(levels)
  {
    hide Sound, FilesAfter, IdsAdded, AllSeparated, Applied, AddsFresh, Ids, EditFits, LevelsOk, RecordOf, ChangesOf,
         Latest, Known, OrElse, NumbersFrom, MeantFor, SaidLast, ListsAddedAndKept;
    MeantIsRecoverable(edits, comparator);
    ghost var changes := AllChanges(edits);
    var builder := new Builder(seq(NUM_LEVELS, _ => []));
    var logNumber, prevLogNumber, nextFile, lastSequence: Option<DoubleWord> := None, None, None, None;
    NoEdits();
    assert Known(edits[..0], None, None, None, None) by { NothingKnown(edits[..0]); }
    ok, levels, numbers := true, [], Numbers(0, 0, 0, 0, 0);
    var n := 0;
    while n < |records| && ok
      invariant 0 <= n <= |records| && builder.Valid() && fresh(builder) && builder.known <= IdsAdded(changes[..n])
      invariant ok ==> forall l :: 0 <= l < NUM_LEVELS ==> builder.Files(l) == FilesAfter(changes[..n], l)
      invariant ok ==> SameComparator(edits[..n], comparator)
      invariant !ok ==> !SameComparator(edits, comparator)
      invariant Known(edits[..n], logNumber, prevLogNumber, nextFile, lastSequence)
    {
      var edit := ReadEdit(records[n], edits[n]);
      ok := !(edit.comparator.Some? && edit.comparator.value != comparator);
      NextEdit(changes, n, builder.known);
      if ok {
        builder.Apply(ChangesOf(edit));
      }
      OneMoreKnown(edits, n, logNumber, prevLogNumber, nextFile, lastSequence);
      logNumber := OrElse(edit.logNumber, logNumber);
      prevLogNumber := OrElse(edit.prevLogNumber, prevLogNumber);
      nextFile := OrElse(edit.nextFileNumber, nextFile);
      lastSequence := OrElse(edit.lastSequence, lastSequence);
      n := n + 1;
    }
    if !ok {
      return;
    }
    assert changes[..n] == changes && edits[..n] == edits;
    KnownNumbers(edits, logNumber, prevLogNumber, nextFile, lastSequence);
    if nextFile == None || logNumber == None || lastSequence == None {
      return false, levels, numbers;
    }
    var asserted;
    levels, asserted := Save(builder, changes);
    numbers := NumbersFrom(logNumber.value, prevLogNumber, nextFile.value, lastSequence.value);
    NumbersAreSaidLast(edits);
    VersionLists(levels, edits);
  }

  lemma KnownNumbers(edits: seq<Edit>, log: Option<DoubleWord>, prevLog: Option<DoubleWord>, nextFile: Option<DoubleWord>,
                     lastSequence: Option<DoubleWord>)
    requires Known(edits, log, prevLog, nextFile, lastSequence)
    ensures Latest(edits, OfNextFile) == nextFile && Latest(edits, OfLog) == log && Latest(edits, OfSequence) == lastSequence
    ensures Latest(edits, OfPrevLog) == prevLog
  {
  }

  lemma NoEdits()
    ensures forall l :: FilesAfter([], l) == {}
    ensures IdsAdded([]) == {}
  {
  }

  lemma NothingKnown(edits: seq<Edit>)
    requires edits == []
    ensures Known(edits, None, None, None, None)
  {
  }

  lemma NextEdit(edits: seq<FileChanges>, n: nat, known: set<(nat, nat)>)
    requires Sound(edits) && n < |edits| && known <= IdsAdded(edits[..n])
    ensures edits[n].LevelsOk() && AddsFresh(edits[n], known)
    ensures forall l :: FilesAfter(edits[..n+1], l) == Applied(FilesAfter(edits[..n], l), edits[n], l)
    ensures known + Ids(edits[n]) <= IdsAdded(edits[..n+1])
  {
    hide AddsFresh, Applied, Ids;
    StillFresh(edits[n], known, IdsAdded(edits[..n]));
    OneMoreEdit(edits, n);
  }

  lemma RecordReadsBack(e: Edit)
    requires EditFits(e) && LevelsOk(e)
    ensures DecodeFields(EMPTY_EDIT, RecordOf(e)) == (e, true)
  {
    hide EditFits, LevelsOk, EncodeFields, FieldsOf, DecodeFields;
    EditRoundTrip(EMPTY_EDIT, e);
  }

  /** A manifest cut short anywhere, as by a crash, recovers to the version and the numbers of the edits whose records
      are whole in it, the same as if just these had been applied one by one. */
  method RecoverManifest(log: LogFile, comparator: Bytes, ghost edits: seq<Edit>, ghost records: seq<Bytes>, ghost k: nat)
    returns (ok: bool, levels: seq<seq<File>>, numbers: Numbers)
    requires |records| == |edits| && k <= |edits| && Sound(AllChanges(edits))
    requires forall i :: 0 <= i < |edits| ==> EditFits(edits[i]) && LevelsOk(edits[i]) && records[i] == RecordOf(edits[i])
    requires log.bytes <= Encode(log.crc, records) && |Encode(log.crc, records[..k])| <= |log.bytes|
    requires k < |records| ==> |log.bytes| < |Encode(log.crc, records[..k+1])|
    ensures ok <==> Recoverable(edits[..k], comparator)
    ensures ok ==> IsVersion(levels, AllChanges(edits[..k])) && numbers == NumbersOf(edits[..k])
    ensures ok <==> MeantFor(edits[..k], comparator)
    ensures ok ==> SaidLast(edits[..k], numbers) && ListsAddedAndKept(levels, edits[..k])
    ensures ok && AllSeparated(AllChanges(edits[..k])) ==> Disjoined(levels)
  {
    hide Sound, RecordOf, Encode, EditFits, LevelsOk, Recoverable, Latest, MeantFor, SaidLast, ListsAddedAndKept;
    TruncatedLog(log.crc, log.checksum, records, |log.bytes|, k);
    assert log == LogFile(Encode(log.crc, records)[..|log.bytes|], log.crc, log.checksum);
    var contents := ReadLog(log);
    SoundPrefix(AllChanges(edits), k);
    assert AllChanges(edits[..k]) == AllChanges(edits)[..k];
    ok, levels, numbers := Recover(contents.records, comparator, edits[..k]);
  }
}
