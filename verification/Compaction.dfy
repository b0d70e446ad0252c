/** Running a compaction (db/version_set.cc, class Compaction; db/db_impl.cc, DoCompactionWork). */
module Compactions {
  import opened Keys
  import opened Versions
  import opened CompactionInputs
  import opened DropRule
  import opened OutputCuts
  import opened Visibility

  /** No file more than one level below the compaction covers the user key. */
  ghost predicate BaseLevel(levels: seq<seq<File>>, level: nat, u: UserKey) {
    forall l, i :: level + 2 <= l < |levels| && 0 <= i < |levels[l]| ==> !UserOverlap(levels[l][i], u)
  }

  ghost function IsBase(levels: seq<seq<File>>, level: nat): UserKey -> bool {
    u => BaseLevel(levels, level, u)
  }

  predicate AllBefore(files: seq<File>, p: nat, u: UserKey) {
    p <= |files| && forall i :: 0 <= i < p ==> files[i].largest.user < u
  }

  class Compaction {
    const level: nat
    const maxOutputFileSize: nat
    const levels: seq<seq<File>>
    const grandparents: seq<File>
    const levelPtrs: array<nat>
    var grandparentIndex: nat
    var seenKey: bool
    var overlappedBytes: nat
    /** The largest user key asked about so far. */
    ghost var asked: Option<UserKey>

    ghost predicate Valid()
      reads this, levelPtrs
    {
      && VersionOk(levels) && level + 1 < NUM_LEVELS && levelPtrs.Length == NUM_LEVELS
      && (forall l :: level + 2 <= l < NUM_LEVELS ==>
           if asked.Some? then AllBefore(levels[l], levelPtrs[l], asked.value) else levelPtrs[l] == 0)
      && grandparentIndex <= |grandparents|
    }

    /** No key was asked about yet. */
    ghost predicate New()
      reads this
    {
      asked == None && grandparentIndex == 0 && !seenKey && overlappedBytes == 0
    }

    constructor (level: nat, levels: seq<seq<File>>, grandparents: seq<File>)
      requires VersionOk(levels) && level + 1 < NUM_LEVELS
      ensures Valid() && fresh(levelPtrs) && New() && maxOutputFileSize == TARGET_FILE_SIZE
      ensures this.level == level && this.levels == levels && this.grandparents == grandparents
    {
      this.level, this.levels, this.grandparents := level, levels, grandparents;
      maxOutputFileSize := TARGET_FILE_SIZE;
      levelPtrs := new nat[NUM_LEVELS](_ => 0);
      grandparentIndex, seenKey, overlappedBytes, asked := 0, false, 0, None;
    }

    /** The per-level pointers only move forward, yet for nondecreasing user keys the answer is that of a full
        scan of the deeper levels. */
    method IsBaseLevelForKey(u: UserKey) returns (r: bool)
      requires Valid() && (asked.Some? ==> asked.value <= u)
      modifies levelPtrs, `asked
      ensures Valid() && asked == Some(u)
      ensures r <==> BaseLevel(levels, level, u)
    {
      asked := Some(u);
      var lvl := level + 2;
      while lvl < NUM_LEVELS
        invariant lvl <= NUM_LEVELS && Valid()
        invariant asked == Some(u)
        invariant forall l, i :: level + 2 <= l < lvl && 0 <= i < |levels[l]| ==> !UserOverlap(levels[l][i], u)
      {
        var files := levels[lvl];
        while levelPtrs[lvl] < |files|
          invariant Valid() && asked == Some(u)
          invariant AllBefore(files, levelPtrs[lvl], u)
          decreases |files| - levelPtrs[lvl]
        {
          var f := files[levelPtrs[lvl]];
          if u <= f.largest.user {
            if u >= f.smallest.user {
              return false;
            }
            LaterFilesAreBeyond(files, levelPtrs[lvl], u);
            break;
          }
          levelPtrs[lvl] := levelPtrs[lvl] + 1;
        }
        lvl := lvl + 1;
      }
      return true;
    }

    /** Moves past the grandparents that end before `key`, and asks for a new output once those passed since the
        last cut hold too many bytes. */
    method ShouldStopBefore(key: InternalKey) returns (stop: bool)
      requires Valid()
      modifies `grandparentIndex, `seenKey, `overlappedBytes
      ensures Valid() && seenKey
      ensures old(grandparentIndex) <= grandparentIndex
      ensures forall i :: old(grandparentIndex) <= i < grandparentIndex ==> Less(grandparents[i].largest, key)
      ensures grandparentIndex < |grandparents| ==> AtMost(key, grandparents[grandparentIndex].largest)
      ensures var passed := if old(seenKey) then TotalFileSize(grandparents[old(grandparentIndex)..grandparentIndex]) else 0;
              && (stop <==> old(overlappedBytes) + passed > MAX_GRANDPARENT_OVERLAP_BYTES)
              && overlappedBytes == if stop then 0 else old(overlappedBytes) + passed
    {
      hide VersionOk, AllBefore, TotalFileSize;
      ghost var start := grandparentIndex;
      NoSize(grandparents, start);
      while grandparentIndex < |grandparents| && Less(grandparents[grandparentIndex].largest, key)
        invariant Valid() && start <= grandparentIndex && seenKey == old(seenKey)
        invariant forall i :: start <= i < grandparentIndex ==> Less(grandparents[i].largest, key)
        invariant overlappedBytes == old(overlappedBytes)
                    + if seenKey then TotalFileSize(grandparents[start..grandparentIndex]) else 0
        decreases |grandparents| - grandparentIndex
      {
        if seenKey {
          overlappedBytes := overlappedBytes + grandparents[grandparentIndex].size;
        }
        OneMoreSize(grandparents, start, grandparentIndex);
        grandparentIndex := grandparentIndex + 1;
      }
      seenKey := true;
      stop := overlappedBytes > MAX_GRANDPARENT_OVERLAP_BYTES;
      if stop {
        overlappedBytes := 0;
      }
    }
  }

  lemma NoSize(files: seq<File>, i: nat)
    requires i <= |files|
    ensures TotalFileSize(files[i..i]) == 0
  {
  }

  lemma OneMoreSize(files: seq<File>, start: nat, i: nat)
    requires start <= i < |files|
    ensures TotalFileSize(files[start..i+1]) == TotalFileSize(files[start..i]) + files[i].size
  {
    assert files[start..i+1][..i-start] == files[start..i];
  }

  lemma LaterFilesAreBeyond(files: seq<File>, p: nat, u: UserKey)
    requires FilesOk(files) && Disjoint(files) && p < |files| && u < files[p].smallest.user
    ensures forall i :: p <= i < |files| ==> u < files[i].smallest.user
  {
    EntryWithinFile(files[p], files[p].entries[0]);
  }

  /** What the environment decides: shutdown, the file numbers handed out to the outputs in turn, file errors, and
      the sizes of a half-built table and of a finished one.  Other users of file numbers may come in between two outputs. */
  datatype Env = Env(shuttingDown: nat -> bool, numbers: seq<nat>, openOk: nat -> bool, finishOk: nat -> bool,
                     inputOk: bool, tableSize: seq<Entry> -> nat, fileSize: seq<Entry> -> nat)
  {
    /** Nothing goes wrong in a compaction of `n` entries. */
    ghost predicate NothingFails(n: nat) {
      && inputOk && n <= |numbers| && (forall i :: 0 <= i < n ==> !shuttingDown(i))
      && forall number :: number in numbers ==> openOk(number) && finishOk(number)
    }
  }

  function Concat(files: seq<File>): seq<Entry> {
    if files == [] then [] else Concat(files[..|files|-1]) + files[|files|-1].entries
  }

  predicate Recorded(f: File) {
    && |f.entries| > 0
    && f.smallest == f.entries[0].key && f.largest == f.entries[|f.entries|-1].key
  }

  lemma {:induction false} SortedPieces(files: seq<File>)
    requires Sorted(Concat(files)) && forall f :: f in files ==> Recorded(f)
    ensures FilesOk(files) && Disjoint(files)
  {
    if files != [] {
      var n := |files| - 1;
      var init, last := files[..n], files[n];
      var all, before := Concat(files), Concat(init);
      assert forall i :: 0 <= i < |before| ==> all[i] == before[i];
      assert forall i :: 0 <= i < |last.entries| ==> all[|before| + i] == last.entries[i];
      assert Sorted(before) && Sorted(last.entries);
      SortedPieces(init);
      assert last in files && FileOk(last);
      assert forall i :: 0 <= i < n ==> files[i] == init[i];
      forall i | 0 <= i < n ensures Less(files[i].largest, last.smallest) {
        var e := files[i].entries[|files[i].entries|-1];
        assert files[i] in files && last in files;
        InConcat(init, i, e);
        var k :| 0 <= k < |before| && before[k] == e;
        assert all[k] == e && all[|before|] == last.entries[0];
      }
    }
  }

  lemma {:induction false} InConcat(files: seq<File>, i: nat, e: Entry)
    requires i < |files| && e in files[i].entries
    ensures e in Concat(files)
  {
    if i < |files| - 1 {
      InConcat(files[..|files|-1], i, e);
    }
  }

  lemma {:induction false} ConcatData(files: seq<File>)
    ensures FilesData(files) == Elements(Concat(files))
  {
    if files != [] {
      var n := |files| - 1;
      ConcatData(files[..n]);
      assert files[..n+1] == files;
      OneMoreFile(files, n);
    }
  }

  class CompactionState {
    const env: Env
    var outputs: seq<File>
    var out: Output

    ghost predicate Valid()
      reads this
    {
      && (forall f :: f in outputs ==> Recorded(f))
      && |outputs| <= |env.numbers|
      && (forall k :: 0 <= k < |outputs| ==> outputs[k].number == env.numbers[k])
      && (forall f :: f in outputs ==> env.openOk(f.number) && env.finishOk(f.number) && f.size == env.fileSize(f.entries))
      && (out.Open? ==>
            && Recorded(Finished(out, 0)) && |outputs| < |env.numbers| && out.number == env.numbers[|outputs|]
            && env.openOk(out.number))
    }

    /** Every entry handed to a table builder so far. */
    ghost function Written(): seq<Entry>
      reads this
    {
      Concat(outputs) + if out.Open? then out.entries else []
    }

    constructor (env: Env)
      ensures Valid() && Written() == [] && outputs == [] && out.Closed? && this.env == env
    {
      this.env := env;
      outputs, out := [], Closed;
    }

    /** How many outputs there are, with the one being written. */
    function Count(): nat
      reads this
    {
      |outputs| + if out.Open? then 1 else 0
    }

    /** The number of the next output to be finished. */
    ghost function NextNumber(): nat
      reads this
    {
      if |outputs| < |env.numbers| then env.numbers[|outputs|] else 0
    }

    method FinishCompactionOutputFile() returns (ok: bool)
      requires Valid() && out.Open?
      modifies this
      ensures Valid() && Written() == old(Written()) && ok == env.finishOk(old(out).number)
      ensures if ok then outputs == old(outputs) + [Finished(old(out), env.fileSize(old(out).entries))] && out == Closed
              else outputs == old(outputs) && out == old(out)
    {
      if !env.finishOk(out.number) {
        return false;
      }
      var file := Finished(out, env.fileSize(out.entries));
      assert (outputs + [file])[..|outputs|] == outputs;
      outputs, out := outputs + [file], Closed;
      return true;
    }

    /** Opens an output first when there is none, and closes it once it is big enough. */
    method Add(e: Entry, maxSize: nat) returns (ok: bool)
      requires Valid()
      modifies this
      ensures Valid()
      ensures ok ==> Written() == old(Written()) + [e]
      ensures ok ==>
                var more := old(out).With(old(NextNumber()), e);
                if env.tableSize(more.entries) < maxSize then outputs == old(outputs) && out == more
                else outputs == old(outputs) + [Finished(more, env.fileSize(more.entries))] && out == Closed
      ensures ok <==> || (old(out).Open? && (env.tableSize(old(out).entries + [e]) >= maxSize ==> env.finishOk(old(out).number)))
                      || (old(out).Closed? && old(|outputs|) < |env.numbers| && env.openOk(old(NextNumber()))
                          && (env.tableSize([e]) >= maxSize ==> env.finishOk(old(NextNumber()))))
    {
      if out.Closed? {
        if |outputs| >= |env.numbers| || !env.openOk(env.numbers[|outputs|]) {
          return false;
        }
        out := Open(env.numbers[|outputs|], e.key, e.key, [e]);
      } else {
        out := out.(largest := e.key, entries := out.entries + [e]);
      }
      ok := true;
      if env.tableSize(out.entries) >= maxSize {
        ok := FinishCompactionOutputFile();
      }
    }
  }

  /** What the loop remembers of the key before: its user key, if it decoded, and its sequence number. */
  datatype LastKey = LastKey(hasUserKey: bool, userKey: UserKey, sequence: Sequence) {
    predicate Tracks(input: seq<Entry>, i: nat)
      requires i <= |input|
    {
      && (hasUserKey <==> i > 0 && input[i-1].key.Parses())
      && (if hasUserKey then userKey == input[i-1].key.user && sequence == input[i-1].key.sequence
          else sequence == MAX_SEQUENCE)
    }
  }

  method DecideDrop(c: Compaction, ghost input: seq<Entry>, ghost i: nat, key: InternalKey, smallestSnapshot: Sequence,
                    last: LastKey)
    returns (drop: bool, now: LastKey)
    requires c.Valid() && smallestSnapshot < MAX_SEQUENCE && i < |input| && input[i].key == key
    requires last.Tracks(input, i) && (c.asked.Some? ==> c.asked.value <= key.user)
    modifies c`asked, c.levelPtrs
    ensures c.Valid() && (c.asked.Some? ==> c.asked.value <= key.user)
    ensures now.Tracks(input, i + 1)
    ensures drop == Dropped(input, i, smallestSnapshot, IsBase(c.levels, c.level))
  {
    drop, now := false, last;
    if !key.Parses() {
      return false, LastKey(false, last.userKey, MAX_SEQUENCE);
    }
    if !now.hasUserKey || key.user != now.userKey {
      now := LastKey(true, key.user, MAX_SEQUENCE);
    }
    if now.sequence <= smallestSnapshot {
      drop := true;
    } else if key.kind == TYPE_DELETION && key.sequence <= smallestSnapshot {
      drop := c.IsBaseLevelForKey(key.user);
    }
    now := now.(sequence := key.sequence);
  }

  /** The outputs so far are cut where they should be, and the grandparents before the key last seen are passed. */
  ghost predicate CutSoFar(c: Compaction, state: CompactionState, input: seq<Entry>, i: nat)
    requires i <= |input|
    reads c, state
  {
    && c.seenKey == (i > 0) && c.grandparentIndex == (if i == 0 then 0 else Ended(c.grandparents, input[i-1].key))
    && (i == 0 ==> state.outputs == [] && state.out.Closed?)
    && Cutting(state.outputs, state.out, c.grandparents, c.grandparentIndex, c.overlappedBytes, c.maxOutputFileSize,
               state.env.tableSize)
  }

  /** Ends the output before a key if it would meet too much of the grandparents. */
  method CutBefore(c: Compaction, state: CompactionState, input: seq<Entry>, i: nat) returns (ok: bool)
    requires c.Valid() && state.Valid() && i < |input| && Sorted(input) && CutSoFar(c, state, input, i)
    modifies c`grandparentIndex, c`seenKey, c`overlappedBytes, state
    ensures c.Valid() && state.Valid() && state.Written() == old(state.Written()) && state.Count() <= old(state.Count())
    ensures ok ==> CutSoFar(c, state, input, i + 1)
    ensures !ok ==> state.out.Open? && !state.env.finishOk(state.out.number)
  {
    hide Cutting, VersionOk, Ended, Concat;
    ok := true;
    ghost var index, bytes := c.grandparentIndex, c.overlappedBytes;
    var stop := c.ShouldStopBefore(input[i].key);
    PassesTo(state.outputs, state.out, c.grandparents, index, bytes, c.maxOutputFileSize, state.env.tableSize,
             state.env.fileSize, if i == 0 then None else Some(input[i-1].key), input[i].key, c.grandparentIndex,
             if i == 0 then 0 else TotalFileSize(c.grandparents[index..c.grandparentIndex]));
    if stop && state.out.Open? {
      ok := state.FinishCompactionOutputFile();
    }
  }

  /** One round of the compaction loop. */
  method ProcessEntry(c: Compaction, state: CompactionState, input: seq<Entry>, i: nat, smallestSnapshot: Sequence,
                      last: LastKey)
    returns (ok: bool, now: LastKey)
    requires c.Valid() && state.Valid() && i < |input| && smallestSnapshot < MAX_SEQUENCE && Sorted(input)
    requires last.Tracks(input, i) && (c.asked.Some? ==> c.asked.value <= input[i].key.user)
    requires CutSoFar(c, state, input, i)
    modifies c, c.levelPtrs, state
    ensures c.Valid() && state.Valid()
    ensures ok ==> (c.asked.Some? ==> c.asked.value <= input[i].key.user)
    ensures ok ==> now.Tracks(input, i + 1)
    ensures ok ==> state.Written() == if Dropped(input, i, smallestSnapshot, IsBase(c.levels, c.level))
                                      then old(state.Written()) else old(state.Written()) + [input[i]]
    ensures ok ==> CutSoFar(c, state, input, i + 1)
    ensures state.env.NothingFails(|input|) && old(state.Count()) <= i ==> ok && state.Count() <= i + 1
  {
    hide Cutting, Dropped, VersionOk, Ended, Concat, Sorted;
    now := last;
    ok := CutBefore(c, state, input, i);
    if ok {
      var drop;
      drop, now := DecideDrop(c, input, i, input[i].key, smallestSnapshot, last);
      if !drop {
        Grows(state.outputs, state.out, c.grandparents, c.grandparentIndex, c.overlappedBytes, c.maxOutputFileSize,
              state.env.tableSize, state.env.fileSize, state.NextNumber(), input[i]);
        ok := state.Add(input[i], c.maxOutputFileSize);
      }
    }
  }

  /** A file two or more levels further down covers the user key. */
  ghost predicate Covered(levels: seq<seq<File>>, level: nat, u: UserKey) {
    exists l, f :: level + 2 <= l < |levels| && f in levels[l] && f.smallest.user <= u <= f.largest.user
  }

  /** No deletion at or below the sequence number is left of a user key that is not covered. */
  ghost predicate NoIdleDeletion(data: set<Entry>, levels: seq<seq<File>>, level: nat, s: Sequence) {
    forall e :: e in data && e.key.kind == TYPE_DELETION && e.key.sequence <= s ==> Covered(levels, level, e.key.user)
  }

  /** What a compaction must keep of its input: what some read at or above the smallest snapshot finds, except deletions
      that every live snapshot sees and that no deeper file has use for. */
  ghost predicate MustKeep(input: seq<Entry>, levels: seq<seq<File>>, level: nat, s: Sequence, e: Entry) {
    && Wanted(input, e, s)
    && (e.key.kind == TYPE_DELETION && e.key.sequence <= s ==> Covered(levels, level, e.key.user))
  }

  lemma CoveredIsNotBase(levels: seq<seq<File>>, level: nat, u: UserKey)
    ensures Covered(levels, level, u) <==> !BaseLevel(levels, level, u)
  {
    if !BaseLevel(levels, level, u) {
      var l, i :| level + 2 <= l < |levels| && 0 <= i < |levels[l]| && UserOverlap(levels[l][i], u);
      assert levels[l][i] in levels[l];
    }
    if l, f :| level + 2 <= l < |levels| && f in levels[l] && f.smallest.user <= u <= f.largest.user {
      var i :| 0 <= i < |levels[l]| && levels[l][i] == f;
      assert UserOverlap(levels[l][i], u);
    }
  }

  /** Of decodable input a compaction keeps what it must, and nothing else. */
  lemma OnlyWhatItMust(outputs: seq<File>, input: seq<Entry>, levels: seq<seq<File>>, level: nat, s: Sequence)
    requires Sorted(input) && AllParse(input)
    requires Concat(outputs) == Kept(input, |input|, s, IsBase(levels, level))
    ensures OneOfEachUser(FilesData(outputs), s) && NoIdleDeletion(FilesData(outputs), levels, level, s)
    ensures OneEntryPerSequence(Elements(input)) ==>
              forall e :: e in FilesData(outputs) <==> e in input && MustKeep(input, levels, level, s, e)
  {
    var isBase := IsBase(levels, level);
    ConcatData(outputs);
    KeptMembers(input, |input|, s, isBase);
    NothingOverwrittenSurvives(input, s, isBase);
    hide Kept, Concat, OneOfEachUser, Wanted, BaseLevel, Covered;
    forall e: Entry | e in FilesData(outputs) && e.key.kind == TYPE_DELETION && e.key.sequence <= s
      ensures Covered(levels, level, e.key.user)
    {
      var k :| 0 <= k < |input| && input[k] == e && !Dropped(input, k, s, isBase);
      CoveredIsNotBase(levels, level, e.key.user);
    }
    if OneEntryPerSequence(Elements(input)) {
      forall e | e in input ensures e in FilesData(outputs) <==> MustKeep(input, levels, level, s, e) {
        CoveredIsNotBase(levels, level, e.key.user);
        SurvivorsExactly(input, s, isBase, e);
      }
    }
  }

  lemma NothingKept(input: seq<Entry>, s: Sequence, isBase: UserKey -> bool)
    ensures Kept(input, 0, s, isBase) == [] && Concat([]) == []
  {
  }

  lemma OneMoreKept(input: seq<Entry>, i: nat, s: Sequence, isBase: UserKey -> bool)
    requires i < |input|
    ensures Kept(input, i + 1, s, isBase)
         == if Dropped(input, i, s, isBase) then Kept(input, i, s, isBase) else Kept(input, i, s, isBase) + [input[i]]
  {
  }

  lemma OutputsAreGood(outputs: seq<File>, input: seq<Entry>, levels: seq<seq<File>>, level: nat, s: Sequence)
    requires Sorted(input) && Concat(outputs) == Kept(input, |input|, s, IsBase(levels, level))
    requires forall f :: f in outputs ==> Recorded(f)
    ensures FilesOk(outputs) && Disjoint(outputs)
    ensures AllParse(input) ==> OneOfEachUser(FilesData(outputs), s) && NoIdleDeletion(FilesData(outputs), levels, level, s)
    ensures AllParse(input) && OneEntryPerSequence(Elements(input)) ==>
              forall e :: e in FilesData(outputs) <==> e in input && MustKeep(input, levels, level, s, e)
  {
    hide Kept, Concat, OneOfEachUser, NoIdleDeletion, MustKeep, FilesData, FilesOk, Disjoint, Recorded;
    KeptIsSorted(input, |input|, s, IsBase(levels, level));
    SortedPieces(outputs);
    if AllParse(input) {
      OnlyWhatItMust(outputs, input, levels, level, s);
    }
  }

  /** All of the input goes through the drop rule, unless something fails on the way. */
  method ProcessAll(c: Compaction, state: CompactionState, input: seq<Entry>, smallestSnapshot: Sequence) returns (ok: bool)
    requires c.Valid() && c.New() && Sorted(input) && smallestSnapshot < MAX_SEQUENCE
    requires state.Valid() && state.Written() == [] && state.outputs == [] && state.out.Closed?
    modifies c, c.levelPtrs, state
    ensures c.Valid() && state.Valid()
    ensures ok ==> && state.Written() == Kept(input, |input|, smallestSnapshot, IsBase(c.levels, c.level))
                   && CutSoFar(c, state, input, |input|)
                   && forall k :: 0 <= k < |input| ==> !state.env.shuttingDown(k)
    ensures state.env.NothingFails(|input|) ==> ok
  {
    hide Kept, Concat, Cutting, VersionOk, Ended, Dropped;
    ghost var isBase := IsBase(c.levels, c.level);
    NothingCut(c.grandparents, c.maxOutputFileSize, state.env.tableSize);
    NothingKept(input, smallestSnapshot, isBase);
    var last := LastKey(false, 0.0, MAX_SEQUENCE);
    var i := 0;
    ok := true;
    while ok && i < |input| && !state.env.shuttingDown(i)
      invariant i <= |input| && c.Valid() && state.Valid()
      invariant ok ==> state.Written() == Kept(input, i, smallestSnapshot, isBase)
      invariant ok ==> last.Tracks(input, i)
      invariant ok && c.asked.Some? ==> i > 0 && c.asked.value <= input[i-1].key.user
      invariant ok ==> CutSoFar(c, state, input, i) && forall k :: 0 <= k < i ==> !state.env.shuttingDown(k)
      invariant state.env.NothingFails(|input|) ==> ok && state.Count() <= i
      decreases |input| - i, ok
    {
      assert i > 0 ==> Less(input[i-1].key, input[i].key);
      OneMoreKept(input, i, smallestSnapshot, isBase);
      ok, last := ProcessEntry(c, state, input, i, smallestSnapshot, last);
      if ok {
        i := i + 1;
      }
    }
    if ok && i < |input| {
      ok := false;
    }
  }

  /** The merged input stream goes through the drop rule into output files cut wherever the grandparents or the
      size limit say.  A successful run writes exactly the surviving entries, in order. */
  method DoCompactionWork(c: Compaction, input: seq<Entry>, smallestSnapshot: Sequence, env: Env)
    returns (ok: bool, outputs: seq<File>)
    requires c.Valid() && c.New() && Sorted(input) && smallestSnapshot < MAX_SEQUENCE
    modifies c, c.levelPtrs
    ensures env.NothingFails(|input|) ==> ok
    ensures ok ==> && env.inputOk && (forall k :: 0 <= k < |input| ==> !env.shuttingDown(k))
                   && forall f :: f in outputs ==> env.openOk(f.number) && env.finishOk(f.number)
                                                   && f.size == env.fileSize(f.entries)
    ensures ok ==> Concat(outputs) == Kept(input, |input|, smallestSnapshot, IsBase(c.levels, c.level))
    ensures ok && AllParse(input) ==> && OneOfEachUser(FilesData(outputs), smallestSnapshot)
                                      && NoIdleDeletion(FilesData(outputs), c.levels, c.level, smallestSnapshot)
    ensures ok && AllParse(input) && OneEntryPerSequence(Elements(input)) ==>
              forall e :: e in FilesData(outputs) <==> e in input && MustKeep(input, c.levels, c.level, smallestSnapshot, e)
    ensures ok ==> FilesOk(outputs) && Disjoint(outputs)
    ensures ok ==> WellCut(outputs, c.grandparents, c.maxOutputFileSize, env.tableSize)
    ensures |outputs| <= |env.numbers| && forall i :: 0 <= i < |outputs| ==> outputs[i].number == env.numbers[i]
  {
    hide Kept, Concat, Cutting, WellCut, OneOfEachUser, NoIdleDeletion, MustKeep, FilesOk, Disjoint, VersionOk, FilesData;
    hide OneEntryPerSequence, Recorded, Ended, Dropped, AllParse;
    var state := new CompactionState(env);
    ok := ProcessAll(c, state, input, smallestSnapshot);
    outputs := state.outputs;
    if ok {
      AllCut(state.outputs, state.out, c.grandparents, c.grandparentIndex, c.overlappedBytes, c.maxOutputFileSize,
             env.tableSize, env.fileSize);
    }
    if ok && state.out.Open? {
      ok := state.FinishCompactionOutputFile();
      outputs := state.outputs;
    }
    if ok {
      assert state.Written() == Concat(outputs) + [] == Concat(outputs);
      OutputsAreGood(outputs, input, c.levels, c.level, smallestSnapshot);
      ok := env.inputOk;
    }
  }
}
