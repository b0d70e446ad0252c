/** db/memtable.cc: entries in a skip list. */
module MemTables {
  import opened Cursors
  import opened Keys
  import opened SkipLists
  import opened Versions
  import opened Visibility

  class MemTable {
    const table: SkipList

    ghost predicate Valid()
      reads this, table, table.head, table.nodes
    {
      table.Valid() && AllParse(table.Entries())
    }

    ghost function Data(): set<Entry>
      requires Valid()
      reads this, table, table.head, table.nodes
    {
      Elements(table.Entries())
    }

    constructor ()
      ensures Valid() && Data() == {}
    {
      table := new SkipList();
    }

    /** Sequence numbers are never reused, so no entry has the new one's key. */
    method Add(s: Sequence, kind: Kind, u: UserKey, value: Bytes, height: nat)
      requires Valid() && kind <= TYPE_VALUE && 1 <= height <= MAX_HEIGHT
      requires forall e :: e in Data() ==> e.key != InternalKey(u, s, kind)
      modifies table, table.head, table.nodes
      ensures Valid() && Data() == old(Data()) + {Entry(InternalKey(u, s, kind), value)}
    {
      hide LevelsOk;
      var entry := Entry(InternalKey(u, s, kind), value);
      assert forall e :: e in table.Entries() ==> e in Data();
      table.Insert(entry, height);
      forall i | 0 <= i < |table.Entries()| ensures table.Entries()[i].key.Parses() {
        assert table.Entries()[i] in Elements(table.Entries());
      }
    }

    /** Answers true with a value, or with a deletion, when the first entry at or after the lookup key has its user
        key; that is the newest entry at or below the snapshot. */
    method Get(u: UserKey, s: Sequence) returns (found: bool, value: Option<Bytes>)
      requires Valid()
      ensures Settled(table.Entries(), u, s, found, value)
      ensures OneEntryPerSequence(Data()) ==> value == Lookup(Data(), u, s)
    {
      hide LevelsOk, Settled;
      var iter := new Iterator(table);
      iter.Seek(SeekKey(u, s));
      value := None;
      found := false;
      SeekSettles(table.Entries(), u, s, iter.pos);
      if iter.Valid() {
        var entry := iter.Current();
        assert entry in table.Entries();
        if entry.key.user == u {
          if entry.key.kind == TYPE_VALUE {
            return true, Some(entry.value);
          } else if entry.key.kind == TYPE_DELETION {
            return true, None;
          }
        }
      }
    }
  }

  /** The outcome is that of the newest entry at or below the snapshot, if there is one; it is also what the
      version's saver would make of the first entry at or after the lookup key. */
  ghost predicate Settled(es: seq<Entry>, u: UserKey, s: Sequence, found: bool, value: Option<Bytes>) {
    && (found ==> exists e :: Newest(Elements(es), u, s, e) && value == Outcome(e))
    && (!found ==> value == None && forall e :: e in es ==> !Readable(e, u, s))
    && var st := SaveValue(FirstFrom(es, SeekKey(u, s)), u);
      && Settles(Elements(es), u, s, st)
      && st == if !found then StateNotFound else if value == None then StateDeleted else StateFound(value.value)
  }

  /** What the table finds where a lookup seeks to. */
  lemma SeekSettles(es: seq<Entry>, u: UserKey, s: Sequence, p: nat)
    requires Sorted(es) && AllParse(es) && IsSeek(es, SeekKey(u, s), p)
    ensures var found := p < |es| && es[p].key.user == u;
      var value := if found then Outcome(es[p]) else None;
      && (found ==> es[p].key.Parses())
      && Settled(es, u, s, found, value)
      && (OneEntryPerSequence(Elements(es)) ==> value == Lookup(Elements(es), u, s))
  {
    SeekIsFirstFrom(es, SeekKey(u, s), p);
    FirstFromIsNewest(es, u, s);
    if p < |es| && es[p].key.user == u {
      if OneEntryPerSequence(Elements(es)) {
        LookupIsOutcome(Elements(es), u, s, es[p]);
      }
    } else {
      LookupOfNothing(Elements(es), u, s);
    }
  }
}
