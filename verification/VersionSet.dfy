/** The numbers a version set keeps beside its files (db/version_set.h, class VersionSet; db/version_set.cc, LogAndApply),
    and what reopening the database makes of the manifest it wrote. */
module VersionSets {
  import opened Keys
  import opened Coding
  import opened Versions
  import opened VersionBuilder
  import opened VersionEdits
  import opened Manifests

  /** Every file that the edits add has a number below `n`. */
  predicate FilesBelow(edits: seq<Edit>, n: nat) {
    forall i, k :: 0 <= i < |edits| && 0 <= k < |edits[i].newFiles| ==> edits[i].newFiles[k].1.number < n
  }

  /** What LogAndApply writes: the numbers the edit leaves open are those of the version set. */
  predicate Completes(edit: Edit, full: Edit, log: DoubleWord, prevLog: DoubleWord, nextFile: DoubleWord,
                      lastSequence: DoubleWord) {
    && full.logNumber == (if edit.logNumber.Some? then edit.logNumber else Some(log))
    && full.prevLogNumber == (if edit.prevLogNumber.Some? then edit.prevLogNumber else Some(prevLog))
    && full.nextFileNumber == Some(nextFile) && full.lastSequence == Some(lastSequence)
    && full.comparator == edit.comparator && full.compactPointers == edit.compactPointers
    && full.deletedFiles == edit.deletedFiles && full.newFiles == edit.newFiles
  }

  /** Numbers always fit. */
  lemma CompletedFits(edit: Edit, full: Edit, log: DoubleWord, prevLog: DoubleWord, nextFile: DoubleWord,
                      lastSequence: DoubleWord)
    requires Completes(edit, full, log, prevLog, nextFile, lastSequence) && EditFits(edit)
    ensures EditFits(full) && (LevelsOk(edit) ==> LevelsOk(full)) && ChangesOf(full) == ChangesOf(edit)
  {
    hide FileOf;
    forall i | 0 <= i < |FieldsOf(full)| ensures FieldsOf(full)[i].Fits() {
      var f := FieldsOf(full)[i];
      if !f.LogNumber? && !f.PrevLogNumber? && !f.NextFileNumber? && !f.LastSequence? {
        FieldStays(edit, full, f);
      }
    }
  }

  lemma FieldStays(edit: Edit, full: Edit, f: Field)
    requires full.comparator == edit.comparator && full.compactPointers == edit.compactPointers
    requires full.deletedFiles == edit.deletedFiles && full.newFiles == edit.newFiles
    requires f in FieldsOf(full) && !f.LogNumber? && !f.PrevLogNumber? && !f.NextFileNumber? && !f.LastSequence?
    ensures f in FieldsOf(edit)
  {
  }

  class VersionSet {
    var levels: seq<seq<File>>
    var logNumber: DoubleWord
    var prevLogNumber: DoubleWord
    var nextFileNumber: DoubleWord
    var lastSequence: DoubleWord
    /** The records of the manifest. */
    var manifest: seq<Bytes>
    ghost var edits: seq<Edit>

    ghost predicate Written()
      reads `levels, `manifest, `edits
    {
      && |manifest| == |edits| > 0 && Sound(AllChanges(edits)) && IsVersion(levels, AllChanges(edits))
      && forall i :: 0 <= i < |edits| ==> EditFits(edits[i]) && LevelsOk(edits[i]) && manifest[i] == RecordOf(edits[i])
    }

    /** The last edit says where the numbers stood, beyond all files and logs. */
    ghost predicate Said()
      reads `edits, `logNumber, `prevLogNumber
    {
      |edits| > 1 ==>
        var last := edits[|edits|-1];
        && last.logNumber == Some(logNumber) && last.prevLogNumber == Some(prevLogNumber)
        && last.lastSequence.Some? && last.nextFileNumber.Some?
        && logNumber < last.nextFileNumber.value && prevLogNumber < last.nextFileNumber.value
        && FilesBelow(edits, last.nextFileNumber.value)
    }

    ghost predicate Valid()
      reads this
    {
      && Written() && Said() && FilesBelow(edits, nextFileNumber)
      && logNumber < nextFileNumber && prevLogNumber < nextFileNumber
    }

    /** A new manifest begins with the files of the current version. */
    constructor (snapshot: Edit, logNumber: DoubleWord, prevLogNumber: DoubleWord, nextFileNumber: DoubleWord,
                 lastSequence: DoubleWord)
      requires EditFits(snapshot) && LevelsOk(snapshot) && Sound(AllChanges([snapshot]))
      requires FilesBelow([snapshot], nextFileNumber) && logNumber < nextFileNumber && prevLogNumber < nextFileNumber
      ensures Valid() && edits == [snapshot] && this.nextFileNumber == nextFileNumber && this.lastSequence == lastSequence
      ensures this.logNumber == logNumber && this.prevLogNumber == prevLogNumber
    {
      hide Sound, AllChanges, IsVersion, RecordOf, FilesBelow, ChangesOf;
      OneChange(snapshot);
      var version := ApplyOneByOne([ChangesOf(snapshot)]);
      levels := version;
      this.logNumber, this.prevLogNumber := logNumber, prevLogNumber;
      this.nextFileNumber, this.lastSequence := nextFileNumber, lastSequence;
      manifest, edits := [RecordOf(snapshot)], [snapshot];
    }

    method NewFileNumber() returns (n: DoubleWord)
      requires Valid() && nextFileNumber < 0xffff_ffff_ffff_ffff
      modifies `nextFileNumber
      ensures Valid() && n == old(nextFileNumber) && nextFileNumber == n + 1
      ensures FilesBelow(edits, n) && logNumber < n && prevLogNumber < n
    {
      hide Written, Said;
      n := nextFileNumber;
      nextFileNumber := nextFileNumber + 1;
    }

    /** A number just handed out and put to no use may be handed out again. */
    method ReuseFileNumber(n: DoubleWord)
      requires Valid() && FilesBelow(edits, n) && logNumber < n && prevLogNumber < n
      modifies `nextFileNumber
      ensures Valid() && nextFileNumber == if old(nextFileNumber) == n + 1 then n else old(nextFileNumber)
    {
      hide Written, Said;
      if nextFileNumber == n + 1 {
        nextFileNumber := n;
      }
    }

    method MarkFileNumberUsed(n: DoubleWord)
      requires Valid() && n < 0xffff_ffff_ffff_ffff
      modifies `nextFileNumber
      ensures Valid() && nextFileNumber == if old(nextFileNumber) <= n then n + 1 else old(nextFileNumber)
    {
      hide Written, Said;
      if nextFileNumber <= n {
        nextFileNumber := n + 1;
      }
    }

    method SetLastSequence(s: DoubleWord)
      requires Valid() && s >= lastSequence
      modifies `lastSequence
      ensures Valid() && lastSequence == s
    {
      hide Written, Said;
      lastSequence := s;
    }

    /** Writes the edit with the numbers it left open to the manifest, and makes the version it leads to the current one. */
    method LogAndApply(edit: Edit)
      requires Valid() && EditFits(edit) && LevelsOk(edit) && Sound(AllChanges(edits + [edit]))
      requires FilesBelow([edit], nextFileNumber)
      requires edit.logNumber.Some? ==> logNumber <= edit.logNumber.value < nextFileNumber
      requires edit.prevLogNumber.Some? ==> edit.prevLogNumber.value < nextFileNumber
      modifies this
      ensures Valid() && nextFileNumber == old(nextFileNumber) && lastSequence == old(lastSequence)
      ensures |edits| == old(|edits|) + 1 && edits[..old(|edits|)] == old(edits)
      ensures Completes(edit, edits[old(|edits|)], old(logNumber), old(prevLogNumber), nextFileNumber, lastSequence)
      ensures Some(logNumber) == edits[old(|edits|)].logNumber && Some(prevLogNumber) == edits[old(|edits|)].prevLogNumber
    {
      hide Sound, AllChanges, IsVersion, RecordOf, EditFits, LevelsOk, ChangesOf, LevelsBehind;
      var full := edit;
      if full.logNumber == None {
        full := full.(logNumber := Some(logNumber));
      }
      if full.prevLogNumber == None {
        full := full.(prevLogNumber := Some(prevLogNumber));
      }
      full := full.(nextFileNumber := Some(nextFileNumber));
      full := full.(lastSequence := Some(lastSequence));
      CompletedFits(edit, full, logNumber, prevLogNumber, nextFileNumber, lastSequence);
      OneMoreChange(edits, edit);
      OneMoreChange(edits, full);
      var asserted;
      levels, asserted := Manifests.LogAndApply(levels, ChangesOf(full), AllChanges(edits));
      manifest := manifest + [RecordOf(full)];
      edits := edits + [full];
      logNumber := full.logNumber.value;
      prevLogNumber := full.prevLogNumber.value;
    }

    /** Reading the manifest again gives back the version and the numbers of the last edit, and every file and log of it
        is numbered below those to come. */
    method Reopen(comparator: Bytes) returns (ok: bool, reopened: seq<seq<File>>, numbers: Numbers)
      requires Valid() && |edits| > 1
      ensures ok <==> forall i :: 0 <= i < |edits| && edits[i].comparator.Some? ==> edits[i].comparator.value == comparator
      ensures ok ==> reopened == levels && numbers.log == logNumber && numbers.prevLog == prevLogNumber
      ensures var last := edits[|edits|-1];
        last.lastSequence.Some? && last.nextFileNumber.Some?
        && (ok ==> numbers.lastSequence == last.lastSequence.value && numbers.manifest == last.nextFileNumber.value)
      ensures ok && numbers.manifest < 0xffff_ffff_ffff_ffff ==>
                && numbers.log < numbers.nextFile && numbers.prevLog < numbers.nextFile
                && numbers.manifest < numbers.nextFile
                && forall l, f :: 0 <= l < |reopened| && f in reopened[l] ==> f.number < numbers.nextFile
    {
      hide Sound, AllChanges, IsVersion, RecordOf, EditFits, LevelsOk, AllSeparated, Disjoined, Recoverable, NumbersOf;
      ok, reopened, numbers := Recover(manifest, comparator, edits);
      LastSays(edits);
      if ok {
        VersionIsUnique(levels, reopened, AllChanges(edits));
        SaidByLast(edits, numbers);
        if numbers.manifest < 0xffff_ffff_ffff_ffff {
          ListedBelow(reopened, edits, numbers.manifest);
        }
      }
    }
  }

  lemma OneMoreChange(edits: seq<Edit>, e: Edit)
    ensures AllChanges(edits + [e]) == AllChanges(edits) + [ChangesOf(e)]
  {
    hide ChangesOf;
  }

  lemma OneChange(e: Edit)
    ensures AllChanges([e]) == [ChangesOf(e)]
  {
    hide ChangesOf;
  }

  predicate SaysAll(e: Edit) {
    e.logNumber.Some? && e.prevLogNumber.Some? && e.nextFileNumber.Some? && e.lastSequence.Some?
  }

  lemma LastSays(edits: seq<Edit>)
    requires edits != [] && SaysAll(edits[|edits|-1])
    ensures !NeverSaid(LogsSaid(edits)) && !NeverSaid(PrevLogsSaid(edits))
    ensures !NeverSaid(NextFilesSaid(edits)) && !NeverSaid(SequencesSaid(edits))
  {
    var n := |edits| - 1;
    assert LogsSaid(edits)[n].Some? && PrevLogsSaid(edits)[n].Some?;
    assert NextFilesSaid(edits)[n].Some? && SequencesSaid(edits)[n].Some?;
  }

  lemma SaidByLast(edits: seq<Edit>, numbers: Numbers)
    requires edits != [] && SaysAll(edits[|edits|-1]) && SaidLast(edits, numbers)
    ensures var e := edits[|edits|-1];
      && numbers.log == e.logNumber.value && numbers.prevLog == e.prevLogNumber.value
      && numbers.manifest == e.nextFileNumber.value && numbers.lastSequence == e.lastSequence.value
  {
    LastSays(edits);
    LastIsSaid(LogsSaid(edits), numbers.log);
    LastIsSaid(PrevLogsSaid(edits), numbers.prevLog);
    LastIsSaid(NextFilesSaid(edits), numbers.manifest);
    LastIsSaid(SequencesSaid(edits), numbers.lastSequence);
  }

  lemma LastIsSaid(said: seq<Option<DoubleWord>>, v: nat)
    requires said != [] && said[|said|-1].Some? && LastSaid(said, v)
    ensures said[|said|-1].value == v
  {
  }

  lemma ListedBelow(levels: seq<seq<File>>, edits: seq<Edit>, n: nat)
    requires ListsAddedAndKept(levels, edits) && FilesBelow(edits, n)
    ensures forall l, f :: 0 <= l < |levels| && f in levels[l] ==> f.number < n
  {
    forall l, f | 0 <= l < |levels| && f in levels[l] ensures f.number < n {
      var i: nat, k: nat :| AddedForGood(edits, l, i, k) && f == FileOf(edits[i].newFiles[k].1);
    }
  }
}
