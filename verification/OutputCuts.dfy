/** Where the outputs of a compaction are cut (db/version_set.cc, Compaction::ShouldStopBefore; db/db_impl.cc,
    DoCompactionWork): once they are big enough, and before they meet too much of the level below their own. */
module OutputCuts {
  import opened Keys
  import opened Versions
  import opened CompactionInputs

  /** How many grandparents from the front end before `key`. */
  function Ended(gs: seq<File>, key: InternalKey): (n: nat)
    ensures n <= |gs| && (forall i :: 0 <= i < n ==> Less(gs[i].largest, key))
    ensures n < |gs| ==> AtMost(key, gs[n].largest)
  {
    if gs == [] || !Less(gs[0].largest, key) then 0 else 1 + Ended(gs[1..], key)
  }

  lemma EndedGrows(gs: seq<File>, a: InternalKey, b: InternalKey)
    requires AtMost(a, b)
    ensures Ended(gs, a) <= Ended(gs, b)
  {
    assert Ended(gs, b) < |gs| ==> AtMost(b, gs[Ended(gs, b)].largest);
  }

  /** The grandparents that end within the file hold no more bytes than they may. */
  ghost predicate Narrow(f: File, gs: seq<File>) {
    var from, to := Ended(gs, f.smallest), Ended(gs, f.largest);
    from <= to && TotalFileSize(gs[from..to]) <= MAX_GRANDPARENT_OVERLAP_BYTES
  }

  /** Why a file ended before the key that `n` grandparents end before: it was big enough, or they hold too many bytes. */
  ghost predicate Cause(f: File, n: nat, gs: seq<File>, maxSize: nat, tableSize: seq<Entry> -> nat)
    requires n <= |gs|
  {
    tableSize(f.entries) >= maxSize || TotalFileSize(gs[..n]) > MAX_GRANDPARENT_OVERLAP_BYTES
  }

  /** No table of fewer of these entries was big enough already. */
  ghost predicate SmallBefore(entries: seq<Entry>, n: nat, maxSize: nat, tableSize: seq<Entry> -> nat) {
    forall m :: 0 < m < n <= |entries| ==> tableSize(entries[..m]) < maxSize
  }

  ghost predicate Fits(f: File, gs: seq<File>, maxSize: nat, tableSize: seq<Entry> -> nat) {
    Narrow(f, gs) && SmallBefore(f.entries, |f.entries|, maxSize, tableSize)
  }

  /** No output goes on beyond a limit, and none but the last ends before one. */
  ghost predicate WellCut(outputs: seq<File>, gs: seq<File>, maxSize: nat, tableSize: seq<Entry> -> nat) {
    && (forall k :: 0 <= k < |outputs| ==> Fits(outputs[k], gs, maxSize, tableSize))
    && (forall k :: 0 < k < |outputs| ==> Cause(outputs[k-1], Ended(gs, outputs[k].smallest), gs, maxSize, tableSize))
  }

  /** An output file that is being written. */
  datatype Output = Closed | Open(number: nat, smallest: InternalKey, largest: InternalKey, entries: seq<Entry>) {
    function With(number: nat, e: Entry): Output {
      if Closed? then Open(number, e.key, e.key, [e]) else this.(largest := e.key, entries := entries + [e])
    }
  }

  function Finished(out: Output, size: nat): File
    requires out.Open?
  {
    File(out.number, size, out.smallest, out.largest, out.entries)
  }

  /** The outputs so far, `index` grandparents ending before the last key, and `bytes` of them since the last cut that
      was made for their sake. */
  ghost predicate Cutting(outputs: seq<File>, out: Output, gs: seq<File>, index: nat, bytes: nat, maxSize: nat,
                          tableSize: seq<Entry> -> nat) {
    && WellCut(outputs, gs, maxSize, tableSize)
    && index <= |gs| && bytes <= TotalFileSize(gs[..index]) && bytes <= MAX_GRANDPARENT_OVERLAP_BYTES
    && (out.Open? ==> Growing(out, gs, index, bytes, maxSize, tableSize))
    && (outputs != [] ==>
          Cause(outputs[|outputs|-1], if out.Open? then Ended(gs, out.smallest) else index, gs, maxSize, tableSize))
  }

  ghost predicate Growing(out: Output, gs: seq<File>, index: nat, bytes: nat, maxSize: nat, tableSize: seq<Entry> -> nat)
    requires out.Open? && index <= |gs|
  {
    var from := Ended(gs, out.smallest);
    && from <= Ended(gs, out.largest) <= index && TotalFileSize(gs[from..index]) <= bytes
    && SmallBefore(out.entries, |out.entries|, maxSize, tableSize)
    && (out.entries != [] ==> tableSize(out.entries) < maxSize)
  }

  lemma {:induction false} SizesAdd(gs: seq<File>, a: nat, b: nat, c: nat)
    requires a <= b <= c <= |gs|
    ensures TotalFileSize(gs[a..c]) == TotalFileSize(gs[a..b]) + TotalFileSize(gs[b..c])
  {
    if b < c {
      SizesAdd(gs, a, b, c - 1);
      assert gs[a..c][..c-1-a] == gs[a..c-1] && gs[b..c][..c-1-b] == gs[b..c-1];
    }
  }

  lemma OneMoreCut(outputs: seq<File>, f: File, gs: seq<File>, maxSize: nat, tableSize: seq<Entry> -> nat)
    requires WellCut(outputs, gs, maxSize, tableSize) && Fits(f, gs, maxSize, tableSize)
    requires outputs != [] ==> Cause(outputs[|outputs|-1], Ended(gs, f.smallest), gs, maxSize, tableSize)
    ensures WellCut(outputs + [f], gs, maxSize, tableSize)
  {
    hide Fits, Cause;
  }

  /** A finished file, with a cause or as the last one. */
  lemma Closes(outputs: seq<File>, out: Output, gs: seq<File>, index: nat, bytes: nat, maxSize: nat,
               tableSize: seq<Entry> -> nat, fileSize: seq<Entry> -> nat)
    requires Cutting(outputs, out, gs, index, bytes, maxSize, tableSize) && out.Open?
    ensures WellCut(outputs + [Finished(out, fileSize(out.entries))], gs, maxSize, tableSize)
  {
    var from, to := Ended(gs, out.smallest), Ended(gs, out.largest);
    SizesAdd(gs, from, to, index);
    OneMoreCut(outputs, Finished(out, fileSize(out.entries)), gs, maxSize, tableSize);
  }

  lemma NothingCut(gs: seq<File>, maxSize: nat, tableSize: seq<Entry> -> nat)
    ensures Cutting([], Closed, gs, 0, 0, maxSize, tableSize)
  {
  }

  /** At the end the output being written ends as well. */
  lemma AllCut(outputs: seq<File>, out: Output, gs: seq<File>, index: nat, bytes: nat, maxSize: nat,
               tableSize: seq<Entry> -> nat, fileSize: seq<Entry> -> nat)
    requires Cutting(outputs, out, gs, index, bytes, maxSize, tableSize)
    ensures WellCut(if out.Closed? then outputs else outputs + [Finished(out, fileSize(out.entries))], gs, maxSize, tableSize)
  {
    if out.Open? {
      Closes(outputs, out, gs, index, bytes, maxSize, tableSize, fileSize);
    }
  }

  /** More grandparents are passed.  Without a cut their bytes add up. */
  lemma Passes(outputs: seq<File>, out: Output, gs: seq<File>, index: nat, bytes: nat, maxSize: nat,
               tableSize: seq<Entry> -> nat, fileSize: seq<Entry> -> nat, next: nat, passed: nat)
    requires Cutting(outputs, out, gs, index, bytes, maxSize, tableSize) && index <= next <= |gs|
    requires passed == TotalFileSize(gs[index..next]) || (passed == 0 && out.Closed?)
    ensures bytes + passed <= MAX_GRANDPARENT_OVERLAP_BYTES ==>
              Cutting(outputs, out, gs, next, bytes + passed, maxSize, tableSize)
    ensures bytes + passed > MAX_GRANDPARENT_OVERLAP_BYTES ==>
              if out.Open? then Cutting(outputs + [Finished(out, fileSize(out.entries))], Closed, gs, next, 0, maxSize, tableSize)
              else Cutting(outputs, Closed, gs, next, 0, maxSize, tableSize)
  {
    hide WellCut, SmallBefore;
    SizesAdd(gs, 0, index, next);
    assert gs[0..index] == gs[..index] && gs[0..next] == gs[..next];
    if out.Open? {
      SizesAdd(gs, Ended(gs, out.smallest), index, next);
      Closes(outputs, out, gs, index, bytes, maxSize, tableSize, fileSize);
    }
  }

  /** One more entry joins the output, which ends when it is big enough. */
  lemma Grows(outputs: seq<File>, out: Output, gs: seq<File>, index: nat, bytes: nat, maxSize: nat,
              tableSize: seq<Entry> -> nat, fileSize: seq<Entry> -> nat, number: nat, e: Entry)
    requires Cutting(outputs, out, gs, index, bytes, maxSize, tableSize) && index == Ended(gs, e.key)
    requires out.Open? ==> out.entries != []
    ensures var more := out.With(number, e);
      if tableSize(more.entries) < maxSize then Cutting(outputs, more, gs, index, bytes, maxSize, tableSize)
      else Cutting(outputs + [Finished(more, fileSize(more.entries))], Closed, gs, index, bytes, maxSize, tableSize)
  {
    var more := out.With(number, e);
    StillSmallBefore(out, more, maxSize, tableSize, number, e);
    hide SmallBefore, WellCut, Ended;
    var from := Ended(gs, more.smallest);
    assert TotalFileSize(gs[from..index]) <= bytes;
    if tableSize(more.entries) >= maxSize {
      OneMoreCut(outputs, Finished(more, fileSize(more.entries)), gs, maxSize, tableSize);
    }
  }

  lemma StillSmallBefore(out: Output, more: Output, maxSize: nat, tableSize: seq<Entry> -> nat, number: nat, e: Entry)
    requires more == out.With(number, e)
    requires out.Open? ==> SmallBefore(out.entries, |out.entries|, maxSize, tableSize) && tableSize(out.entries) < maxSize
    ensures SmallBefore(more.entries, |more.entries|, maxSize, tableSize)
  {
    if out.Open? {
      forall m | 0 < m < |more.entries| ensures tableSize(more.entries[..m]) < maxSize {
        assert m < |out.entries| ==> more.entries[..m] == out.entries[..m];
        assert more.entries[..|out.entries|] == out.entries;
      }
    }
  }

  /** Before a key all grandparents that end before it are passed.  If those since the last cut hold too much, the
      output ends here. */
  lemma PassesTo(outputs: seq<File>, out: Output, gs: seq<File>, index: nat, bytes: nat, maxSize: nat,
                 tableSize: seq<Entry> -> nat, fileSize: seq<Entry> -> nat, before: Option<InternalKey>,
                 key: InternalKey, next: nat, passed: nat)
    requires Cutting(outputs, out, gs, index, bytes, maxSize, tableSize)
    requires match before
             case None => index == 0 && passed == 0 && out.Closed?
             case Some(k) => Less(k, key) && index == Ended(gs, k) && index <= next <= |gs|
                             && passed == TotalFileSize(gs[index..next])
    requires index <= next <= |gs| && (forall j :: index <= j < next ==> Less(gs[j].largest, key))
    requires next < |gs| ==> AtMost(key, gs[next].largest)
    ensures next == Ended(gs, key)
    ensures if bytes + passed <= MAX_GRANDPARENT_OVERLAP_BYTES then Cutting(outputs, out, gs, next, bytes + passed, maxSize, tableSize)
            else if out.Closed? then Cutting(outputs, Closed, gs, next, 0, maxSize, tableSize)
            else Cutting(outputs + [Finished(out, fileSize(out.entries))], Closed, gs, next, 0, maxSize, tableSize)
  {
    if before.Some? {
      EndedGrows(gs, before.value, key);
    }
    Passes(outputs, out, gs, index, bytes, maxSize, tableSize, fileSize, next, passed);
  }
}
