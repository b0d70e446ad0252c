/** A memtable flush in the middle of a compaction (db/db_impl.cc, DoCompactionWork).  The level for the flushed file is
    picked by looking at the files the version has now, not at those the compaction is about to install. */
module FlushInGaps {
  import opened Keys
  import opened Versions
  import opened VersionBuilder
  import opened CompactionInputs
  import opened DropRule
  import opened Compactions
  import opened LevelMoves

  /** The surviving entries, cut into output files somehow. */
  predicate IsCut(outputs: seq<File>, kept: seq<Entry>) {
    Concat(outputs) == kept && forall f :: f in outputs ==> Recorded(f)
  }

  predicate OutsideEntries(f: File, kept: seq<Entry>)
    requires |kept| > 0
  {
    Less(f.largest, kept[0].key) || Less(kept[|kept|-1].key, f.smallest)
  }

  /** A file at the level a compaction writes to stays apart from its outputs, wherever they are cut, exactly when it
      lies before all surviving entries or behind them. */
  lemma ApartFromEveryCut(f: File, kept: seq<Entry>)
    requires FileOk(f) && Sorted(kept) && |kept| > 0
    ensures (forall outputs, out :: IsCut(outputs, kept) && out in outputs ==> Apart(f, out)) <==> OutsideEntries(f, kept)
  {
    hide IsCut, FileOk, Sorted, OutsideEntries;
    WholeIsACut(kept);
    assert OutsideEntries(f, kept) <==> Apart(f, Whole(kept)) by { OutsideIsApart(f, kept); }
    forall outputs, out | OutsideEntries(f, kept) && IsCut(outputs, kept) && out in outputs ensures Apart(f, out) {
      ApartFromPiece(f, kept, outputs, out);
    }
  }

  /** All surviving entries in one file. */
  function Whole(kept: seq<Entry>): File
    requires |kept| > 0
  {
    File(0, 0, kept[0].key, kept[|kept|-1].key, kept)
  }

  lemma OutsideIsApart(f: File, kept: seq<Entry>)
    requires |kept| > 0
    ensures OutsideEntries(f, kept) <==> Apart(f, Whole(kept))
  {
  }

  lemma WholeIsACut(kept: seq<Entry>)
    requires |kept| > 0
    ensures IsCut([Whole(kept)], kept) && Whole(kept) in [Whole(kept)]
  {
    ConcatOfOne(Whole(kept));
    hide Concat;
  }

  lemma ConcatOfOne(f: File)
    ensures Concat([f]) == f.entries
  {
    assert [f][..0] == [];
  }

  lemma ApartFromPiece(f: File, kept: seq<Entry>, outputs: seq<File>, out: File)
    requires FileOk(f) && Sorted(kept) && |kept| > 0 && OutsideEntries(f, kept)
    requires IsCut(outputs, kept) && out in outputs
    ensures Apart(f, out)
  {
    hide Concat, Sorted;
    var i :| 0 <= i < |outputs| && outputs[i] == out;
    var first, last := out.entries[0], out.entries[|out.entries|-1];
    InConcat(outputs, i, first);
    InConcat(outputs, i, last);
    BetweenEnds(kept, first);
    BetweenEnds(kept, last);
    EntryWithinFile(f, f.entries[0]);
  }

  lemma BetweenEnds(es: seq<Entry>, e: Entry)
    requires Sorted(es) && e in es
    ensures AtMost(es[0].key, e.key) && AtMost(e.key, es[|es|-1].key)
  {
    var i :| 0 <= i < |es| && es[i] == e;
  }

  /** Outside the inputs is outside whatever of their entries survives. */
  lemma OutsideInputsSuffices(f: File, inputs: seq<File>, kept: seq<Entry>)
    requires FileOk(f) && FilesOk(inputs) && Outside(f, inputs)
    requires Sorted(kept) && |kept| > 0 && Elements(kept) <= FilesData(inputs)
    ensures OutsideEntries(f, kept)
  {
    var first, last := kept[0], kept[|kept|-1];
    assert first in Elements(kept) && last in Elements(kept);
    var a: File :| a in inputs && first in a.entries;
    var b: File :| b in inputs && last in b.entries;
    EntryWithinFile(a, first);
    EntryWithinFile(b, last);
  }

  // ---------- a flush that does not stay apart ----------

  const LEFT: Entry := Entry(InternalKey(1.0, 1, TYPE_VALUE), [])
  const RIGHT: Entry := Entry(InternalKey(3.0, 2, TYPE_VALUE), [])
  const MIDDLE: Entry := Entry(InternalKey(2.0, 3, TYPE_VALUE), [])
  const LEFT_FILE: File := File(3, 1, LEFT.key, LEFT.key, [LEFT])
  const RIGHT_FILE: File := File(4, 1, RIGHT.key, RIGHT.key, [RIGHT])
  const FLUSHED: File := File(6, 1, MIDDLE.key, MIDDLE.key, [MIDDLE])
  const OUTPUT: File := File(5, 2, LEFT.key, RIGHT.key, [LEFT, RIGHT])

  /** Two files of level 1 are compacted into one file of level 2.  A memtable flushed meanwhile falls into the gap
      between them, meets no file of levels 0 to 3, and so is picked for level 2 as well, in the midst of the output. */
  lemma FlushIntoTheGap(levels: seq<seq<File>>)
    requires |levels| == NUM_LEVELS && levels[1] == [LEFT_FILE, RIGHT_FILE]
    requires forall l :: 0 <= l < NUM_LEVELS && l != 1 ==> levels[l] == []
    ensures VersionOk(levels) && ChosenInputs(levels, 1, [LEFT_FILE, RIGHT_FILE], [])
    ensures Concat([OUTPUT]) == Kept([LEFT, RIGHT], 2, 2, IsBase(levels, 1))
    ensures IsPick(levels, UserRange(FLUSHED.smallest, FLUSHED.largest), 2)
    ensures forall files :: OUTPUT in files && FLUSHED in files ==> !Disjoint(files)
  {
    GapIsChosen(levels);
    GapIsPicked(levels);
    BothSurvive(levels);
    ConcatOfOne(OUTPUT);
    forall files | OUTPUT in files && FLUSHED in files && Disjoint(files) ensures false {
      DisjointIsApart(files, OUTPUT, FLUSHED);
    }
  }

  lemma GapIsChosen(levels: seq<seq<File>>)
    requires |levels| == NUM_LEVELS && levels[1] == [LEFT_FILE, RIGHT_FILE]
    requires forall l :: 0 <= l < NUM_LEVELS && l != 1 ==> levels[l] == []
    ensures ChosenInputs(levels, 1, [LEFT_FILE, RIGHT_FILE], [])
  {
  }

  lemma GapIsPicked(levels: seq<seq<File>>)
    requires |levels| == NUM_LEVELS && levels[1] == [LEFT_FILE, RIGHT_FILE]
    requires forall l :: 0 <= l < NUM_LEVELS && l != 1 ==> levels[l] == []
    ensures IsPick(levels, UserRange(FLUSHED.smallest, FLUSHED.largest), 2)
  {
    var range := UserRange(FLUSHED.smallest, FLUSHED.largest);
    assert Overlapping([], range) == [] && TotalFileSize([]) == 0;
    assert MayPass(levels, 1, range) && MayPass(levels, 2, range);
  }

  lemma BothSurvive(levels: seq<seq<File>>)
    ensures Kept([LEFT, RIGHT], 2, 2, IsBase(levels, 1)) == [LEFT, RIGHT]
  {
    assert Kept([LEFT, RIGHT], 1, 2, IsBase(levels, 1)) == [LEFT] by {
      assert Kept([LEFT, RIGHT], 0, 2, IsBase(levels, 1)) == [];
    }
  }
}
