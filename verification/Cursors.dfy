/** The iterator interface over a sorted run of internal entries.  Cursor is the plain one, an index into the run
    (as in Version::LevelFileNumIterator); the other iterators are proved to move as it does. */
module Cursors {
  import opened Keys

  /** `p` is where seeking `key` in `es` ends: the first entry at or after it. */
  predicate IsSeek(es: seq<Entry>, key: InternalKey, p: nat) {
    && p <= |es|
    && (forall i :: 0 <= i < p ==> Less(es[i].key, key))
    && (forall i :: p <= i < |es| ==> AtMost(key, es[i].key))
  }

  /** One step back; from the first entry the cursor becomes invalid, which is position `n`. */
  function StepBack(p: nat, n: nat): nat { if p == 0 then n else p - 1 }

  function LastPosition(n: nat): nat { if n == 0 then 0 else n - 1 }

  class Cursor {
    const entries: seq<Entry>
    var pos: nat

    ghost predicate Ok()
      reads this
    {
      Sorted(entries) && pos <= |entries|
    }

    predicate Valid()
      reads this
    {
      pos < |entries|
    }

    constructor (entries: seq<Entry>)
      requires Sorted(entries)
      ensures Ok() && !Valid() && this.entries == entries
    {
      this.entries := entries;
      pos := |entries|;
    }

    function Key(): InternalKey
      requires Valid()
      reads this
    {
      entries[pos].key
    }

    function Value(): Bytes
      requires Valid()
      reads this
    {
      entries[pos].value
    }

    method Next()
      requires Ok() && Valid()
      modifies this
      ensures Ok() && pos == old(pos) + 1
    {
      pos := pos + 1;
    }

    method Prev()
      requires Ok() && Valid()
      modifies this
      ensures Ok() && pos == StepBack(old(pos), |entries|)
    {
      pos := if pos == 0 then |entries| else pos - 1;
    }

    method SeekToFirst()
      requires Ok()
      modifies this
      ensures Ok() && pos == 0
    {
      pos := 0;
    }

    method SeekToLast()
      requires Ok()
      modifies this
      ensures Ok() && pos == LastPosition(|entries|)
    {
      pos := if |entries| == 0 then 0 else |entries| - 1;
    }

    method Seek(key: InternalKey)
      requires Ok()
      modifies this
      ensures Ok() && IsSeek(entries, key, pos)
    {
      var left := 0;
      pos := |entries|;
      while left < pos
        invariant left <= pos <= |entries|
        invariant forall i :: 0 <= i < left ==> Less(entries[i].key, key)
        invariant forall i :: pos <= i < |entries| ==> AtMost(key, entries[i].key)
      {
        var mid := (left + pos) / 2;
        if Less(entries[mid].key, key) {
          left := mid + 1;
        } else {
          pos := mid;
        }
      }
    }
  }
}
