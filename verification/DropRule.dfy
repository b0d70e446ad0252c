/** The rule by which a compaction drops entries (db/db_impl.cc, DoCompactionWork), and what it means to readers. */
module DropRule {
  import opened Keys
  import opened Visibility

  /** Entry `i` follows a readable entry of its own user key that every live snapshot already sees. */
  predicate Shadowed(input: seq<Entry>, i: nat, smallestSnapshot: Sequence)
    requires i < |input|
  {
    && input[i].key.Parses() && i > 0
    && input[i-1].key.Parses()
    && input[i-1].key.user == input[i].key.user
    && input[i-1].key.sequence <= smallestSnapshot
  }

  /** A deletion that every live snapshot sees and that hides nothing in deeper levels. */
  predicate Obsolete(e: Entry, smallestSnapshot: Sequence, isBase: UserKey -> bool) {
    && e.key.kind == TYPE_DELETION
    && e.key.sequence <= smallestSnapshot
    && isBase(e.key.user)
  }

  predicate Dropped(input: seq<Entry>, i: nat, smallestSnapshot: Sequence, isBase: UserKey -> bool)
    requires i < |input|
  {
    Shadowed(input, i, smallestSnapshot) || Obsolete(input[i], smallestSnapshot, isBase)
  }

  /** The entries among the first `n` that survive. */
  function Kept(input: seq<Entry>, n: nat, smallestSnapshot: Sequence, isBase: UserKey -> bool): (kept: seq<Entry>)
    requires n <= |input|
    ensures |kept| <= n
  {
    if n == 0 then []
    else
      var before := Kept(input, n - 1, smallestSnapshot, isBase);
      if Dropped(input, n - 1, smallestSnapshot, isBase) then before else before + [input[n-1]]
  }

  lemma {:induction false} KeptMembers(input: seq<Entry>, n: nat, smallestSnapshot: Sequence, isBase: UserKey -> bool)
    requires n <= |input|
    ensures forall e :: e in Kept(input, n, smallestSnapshot, isBase) <==>
              exists i :: 0 <= i < n && input[i] == e && !Dropped(input, i, smallestSnapshot, isBase)
  {
    if n > 0 {
      KeptMembers(input, n - 1, smallestSnapshot, isBase);
    }
  }

  lemma {:induction false} KeptIsSorted(input: seq<Entry>, n: nat, smallestSnapshot: Sequence, isBase: UserKey -> bool)
    requires n <= |input| && Sorted(input)
    ensures Sorted(Kept(input, n, smallestSnapshot, isBase))
  {
    if n > 0 {
      KeptIsSorted(input, n - 1, smallestSnapshot, isBase);
      KeptMembers(input, n - 1, smallestSnapshot, isBase);
      var before := Kept(input, n - 1, smallestSnapshot, isBase);
      forall k | 0 <= k < |before| ensures Less(before[k].key, input[n-1].key) {
        assert before[k] in before;
      }
    }
  }

  /** Data a compaction leaves alone: `upper` is newer than the input wherever they share a user key, and
      `deeper` holds nothing for the user keys of the input that count as base. */
  ghost predicate Surrounds(upper: set<Entry>, input: seq<Entry>, deeper: set<Entry>, isBase: UserKey -> bool) {
    && (forall a, b :: (a in upper && b in input && a.key.Parses() && b.key.Parses() && a.key.user == b.key.user)
                       ==> a.key.sequence > b.key.sequence)
    && (forall d, b :: d in deeper && b in input && d.key.user == b.key.user ==> !isBase(d.key.user))
  }

  ghost predicate SameReads(a: set<Entry>, b: set<Entry>, u: UserKey, from: Sequence) {
    forall s: Sequence :: from <= s ==> Lookup(a, u, s) == Lookup(b, u, s)
  }

  /** `input[i]` is the newest entry of its user key that the smallest snapshot sees; it is an obsolete deletion;
      and further down a value of the same user key comes right behind an undecodable key. */
  ghost predicate Unhides(input: seq<Entry>, smallestSnapshot: Sequence, isBase: UserKey -> bool, i: nat, j: nat) {
    && i < j < |input|
    && Obsolete(input[i], smallestSnapshot, isBase)
    && (forall k :: 0 <= k < i ==> !Readable(input[k], input[i].key.user, smallestSnapshot))
    && input[j].key.user == input[i].key.user && input[j].key.kind == TYPE_VALUE
    && !input[j-1].key.Parses()
  }

  ghost predicate Resurrects(upper: set<Entry>, input: seq<Entry>, smallestSnapshot: Sequence,
                             isBase: UserKey -> bool, u: UserKey) {
    && (forall e :: e in upper ==> !Readable(e, u, smallestSnapshot))
    && exists i: nat, j: nat :: Unhides(input, smallestSnapshot, isBase, i, j) && input[i].key.user == u
  }

  /** A compaction leaves every read of `u` at or above the smallest snapshot that passes over undecodable keys, as an
      iterator does, as it was, exactly when no undecodable key stands between an obsolete deletion of `u` and an older
      value of `u`.  Point reads stop at such keys: see PointReads. */
  lemma PreservedExactly(upper: set<Entry>, input: seq<Entry>, deeper: set<Entry>,
                         smallestSnapshot: Sequence, isBase: UserKey -> bool, u: UserKey)
    requires Sorted(input)
    requires OneEntryPerSequence(upper + Elements(input) + deeper)
    requires Surrounds(upper, input, deeper, isBase)
    ensures SameReads(upper + Elements(Kept(input, |input|, smallestSnapshot, isBase)) + deeper,
                      upper + Elements(input) + deeper, u, smallestSnapshot)
       <==> !Resurrects(upper, input, smallestSnapshot, isBase, u)
  {
    var kept := Kept(input, |input|, smallestSnapshot, isBase);
    var before, after := upper + Elements(input) + deeper, upper + Elements(kept) + deeper;
    if Resurrects(upper, input, smallestSnapshot, isBase, u) {
      ResurrectsMeansDifferent(upper, input, deeper, smallestSnapshot, isBase, u);
    } else {
      forall s: Sequence | smallestSnapshot <= s ensures Lookup(after, u, s) == Lookup(before, u, s) {
        ReadPreserved(upper, input, deeper, smallestSnapshot, isBase, u, s);
      }
    }
  }

  /** With decodable keys, nothing hidden comes back. */
  lemma CompactionPreservesReads(upper: set<Entry>, input: seq<Entry>, deeper: set<Entry>,
                                 smallestSnapshot: Sequence, isBase: UserKey -> bool, u: UserKey)
    requires Sorted(input) && AllParse(input)
    requires OneEntryPerSequence(upper + Elements(input) + deeper)
    requires Surrounds(upper, input, deeper, isBase)
    ensures SameReads(upper + Elements(Kept(input, |input|, smallestSnapshot, isBase)) + deeper,
                      upper + Elements(input) + deeper, u, smallestSnapshot)
  {
    assert forall i: nat, j: nat :: !Unhides(input, smallestSnapshot, isBase, i, j);
    PreservedExactly(upper, input, deeper, smallestSnapshot, isBase, u);
  }

  lemma ReadPreserved(upper: set<Entry>, input: seq<Entry>, deeper: set<Entry>,
                      smallestSnapshot: Sequence, isBase: UserKey -> bool, u: UserKey, s: Sequence)
    requires Sorted(input) && smallestSnapshot <= s
    requires OneEntryPerSequence(upper + Elements(input) + deeper)
    requires Surrounds(upper, input, deeper, isBase)
    requires !Resurrects(upper, input, smallestSnapshot, isBase, u)
    ensures Lookup(upper + Elements(Kept(input, |input|, smallestSnapshot, isBase)) + deeper, u, s)
         == Lookup(upper + Elements(input) + deeper, u, s)
  {
    hide Kept, Resurrects;
    var kept := Kept(input, |input|, smallestSnapshot, isBase);
    var before, after := upper + Elements(input) + deeper, upper + Elements(kept) + deeper;
    KeptMembers(input, |input|, smallestSnapshot, isBase);
    assert forall e :: e in after ==> e in before;
    if e :| e in before && Readable(e, u, s) {
      var n := NewestExists(before, u, s, e);
      LookupIsOutcome(before, u, s, n);
      if n in after {
        LookupIsOutcome(after, u, s, n);
      } else {
        var i :| 0 <= i < |input| && input[i] == n;
        NewestIsNotShadowed(before, input, smallestSnapshot, i, s);
        forall j | 0 <= j < |input| && !Dropped(input, j, smallestSnapshot, isBase)
          ensures !Readable(input[j], u, s)
        {
          assert input[j] in before;
          assert j < i ==> Less(input[j].key, input[i].key);
          if i < j {
            BehindNewest(upper, input, deeper, smallestSnapshot, isBase, i, j, s);
          }
        }
        LookupOfNothing(after, u, s);
      }
    }
  }

  lemma NewestIsNotShadowed(data: set<Entry>, input: seq<Entry>, smallestSnapshot: Sequence, i: nat, s: Sequence)
    requires Sorted(input) && i < |input| && smallestSnapshot <= s && Elements(input) <= data
    requires Newest(data, input[i].key.user, s, input[i]) && OneEntryPerSequence(data)
    ensures !Shadowed(input, i, smallestSnapshot)
  {
    if i > 0 {
      assert Less(input[i-1].key, input[i].key) && input[i-1] in Elements(input);
    }
  }

  lemma BehindNewest(upper: set<Entry>, input: seq<Entry>, deeper: set<Entry>,
                     smallestSnapshot: Sequence, isBase: UserKey -> bool, i: nat, j: nat, s: Sequence)
    requires Sorted(input) && smallestSnapshot <= s && i < j < |input|
    requires Surrounds(upper, input, deeper, isBase)
    requires OneEntryPerSequence(upper + Elements(input) + deeper)
    requires Newest(upper + Elements(input) + deeper, input[i].key.user, s, input[i])
    requires Obsolete(input[i], smallestSnapshot, isBase)
    requires !Resurrects(upper, input, smallestSnapshot, isBase, input[i].key.user)
    requires !Dropped(input, j, smallestSnapshot, isBase)
    ensures !Readable(input[j], input[i].key.user, s)
  {
    var u := input[i].key.user;
    var before := upper + Elements(input) + deeper;
    assert Less(input[i].key, input[j].key) && Less(input[j-1].key, input[j].key);
    assert i == j - 1 || Less(input[i].key, input[j-1].key);
    forall e | e in upper ensures !Readable(e, u, smallestSnapshot) {
      assert e in before;
    }
    forall k | 0 <= k < i ensures !Readable(input[k], u, smallestSnapshot) {
      assert input[k] in before && Less(input[k].key, input[i].key);
    }
    assert !Unhides(input, smallestSnapshot, isBase, i, j);
  }

  lemma ResurrectsMeansDifferent(upper: set<Entry>, input: seq<Entry>, deeper: set<Entry>,
                                 smallestSnapshot: Sequence, isBase: UserKey -> bool, u: UserKey)
    requires Sorted(input)
    requires OneEntryPerSequence(upper + Elements(input) + deeper)
    requires Surrounds(upper, input, deeper, isBase)
    requires Resurrects(upper, input, smallestSnapshot, isBase, u)
    ensures Lookup(upper + Elements(Kept(input, |input|, smallestSnapshot, isBase)) + deeper, u, smallestSnapshot)
         != Lookup(upper + Elements(input) + deeper, u, smallestSnapshot)
  {
    var i: nat, j: nat :| Unhides(input, smallestSnapshot, isBase, i, j) && input[i].key.user == u;
    DeletionIsNewest(upper, input, deeper, smallestSnapshot, isBase, i, j);
    LookupIsOutcome(upper + Elements(input) + deeper, u, smallestSnapshot, input[i]);
    AfterFindsValue(upper, input, deeper, smallestSnapshot, isBase, i, j);
  }

  lemma AfterFindsValue(upper: set<Entry>, input: seq<Entry>, deeper: set<Entry>,
                        smallestSnapshot: Sequence, isBase: UserKey -> bool, i: nat, j: nat)
    requires Sorted(input) && Surrounds(upper, input, deeper, isBase)
    requires OneEntryPerSequence(upper + Elements(input) + deeper)
    requires Unhides(input, smallestSnapshot, isBase, i, j)
    requires forall e :: e in upper ==> !Readable(e, input[i].key.user, smallestSnapshot)
    ensures Lookup(upper + Elements(Kept(input, |input|, smallestSnapshot, isBase)) + deeper,
                   input[i].key.user, smallestSnapshot) != None
  {
    hide Kept;
    var u, kept := input[i].key.user, Kept(input, |input|, smallestSnapshot, isBase);
    var after := upper + Elements(kept) + deeper;
    KeptMembers(input, |input|, smallestSnapshot, isBase);
    assert !Dropped(input, j, smallestSnapshot, isBase);
    assert Less(input[i].key, input[j].key);
    var n := NewestExists(after, u, smallestSnapshot, input[j]);
    var m :| 0 <= m < |input| && input[m] == n && !Dropped(input, m, smallestSnapshot, isBase);
    assert forall e :: e in after ==> e in upper + Elements(input) + deeper;
    LookupIsOutcome(after, u, smallestSnapshot, n);
  }

  lemma DeletionIsNewest(upper: set<Entry>, input: seq<Entry>, deeper: set<Entry>,
                         smallestSnapshot: Sequence, isBase: UserKey -> bool, i: nat, j: nat)
    requires Sorted(input) && Surrounds(upper, input, deeper, isBase)
    requires Unhides(input, smallestSnapshot, isBase, i, j)
    requires forall e :: e in upper ==> !Readable(e, input[i].key.user, smallestSnapshot)
    ensures Newest(upper + Elements(input) + deeper, input[i].key.user, smallestSnapshot, input[i])
  {
    forall o | o in Elements(input) && Readable(o, input[i].key.user, smallestSnapshot)
      ensures o.key.sequence <= input[i].key.sequence
    {
      var k :| 0 <= k < |input| && input[k] == o;
      assert k > i ==> Less(input[i].key, input[k].key);
    }
  }

  // ---------- what is left ----------

  /** Some read at or above the smallest snapshot finds the entry in the input. */
  ghost predicate Wanted(input: seq<Entry>, e: Entry, smallestSnapshot: Sequence) {
    exists s: Sequence :: smallestSnapshot <= s && Newest(Elements(input), e.key.user, s, e)
  }

  lemma OrderedTags(input: seq<Entry>, i: nat, j: nat)
    requires Sorted(input) && i < j < |input| && input[i].key.user == input[j].key.user
    ensures input[j-1].key.user == input[j].key.user && input[j-1].key.sequence <= input[i].key.sequence
    ensures input[j].key.sequence <= input[j-1].key.sequence
  {
    assert Less(input[i].key, input[j].key) && Less(input[j-1].key, input[j].key);
    assert i == j - 1 || Less(input[i].key, input[j-1].key);
  }

  /** Of two entries of a user key that every live snapshot sees, the older survives only right behind an undecodable
      key. */
  lemma OverwrittenSurvivesBehindUndecodable(input: seq<Entry>, smallestSnapshot: Sequence, isBase: UserKey -> bool,
                                             i: nat, j: nat)
    requires Sorted(input) && i < j < |input| && input[i].key.user == input[j].key.user
    requires input[i].key.sequence <= smallestSnapshot && input[j].key.Parses()
    requires input[j] in Kept(input, |input|, smallestSnapshot, isBase)
    ensures !input[j-1].key.Parses() && input[j-1].key.user == input[j].key.user
  {
    KeptMembers(input, |input|, smallestSnapshot, isBase);
    hide Kept;
    OrderedTags(input, i, j);
    var k :| 0 <= k < |input| && input[k] == input[j] && !Dropped(input, k, smallestSnapshot, isBase);
    SamePlace(input, j, k);
  }

  lemma SamePlace(input: seq<Entry>, i: nat, j: nat)
    requires Sorted(input) && i < |input| && j < |input| && input[i] == input[j]
    ensures i == j
  {
  }

  /** With decodable keys, exactly those entries survive that some read at or above the smallest snapshot finds, except
      deletions that every live snapshot sees and that hide nothing deeper. */
  lemma SurvivorsExactly(input: seq<Entry>, smallestSnapshot: Sequence, isBase: UserKey -> bool, e: Entry)
    requires Sorted(input) && AllParse(input) && OneEntryPerSequence(Elements(input)) && e in input
    ensures e in Kept(input, |input|, smallestSnapshot, isBase)
       <==> Wanted(input, e, smallestSnapshot)
            && !(e.key.kind == TYPE_DELETION && e.key.sequence <= smallestSnapshot && isBase(e.key.user))
  {
    KeptMembers(input, |input|, smallestSnapshot, isBase);
    hide Kept;
    var j: nat :| j < |input| && input[j] == e;
    WantedIsNotShadowed(input, smallestSnapshot, j);
    if e in Kept(input, |input|, smallestSnapshot, isBase) {
      var k :| 0 <= k < |input| && input[k] == e && !Dropped(input, k, smallestSnapshot, isBase);
      SamePlace(input, j, k);
    }
  }

  /** An entry is wanted exactly when it is the first of its user key, or the one before it is not seen by the smallest
      snapshot. */
  lemma WantedIsNotShadowed(input: seq<Entry>, smallestSnapshot: Sequence, j: nat)
    requires Sorted(input) && AllParse(input) && OneEntryPerSequence(Elements(input)) && j < |input|
    ensures Wanted(input, input[j], smallestSnapshot)
       <==> !(j > 0 && input[j-1].key.user == input[j].key.user && input[j-1].key.sequence <= smallestSnapshot)
  {
    var e := input[j];
    if j > 0 && input[j-1].key.user == e.key.user && input[j-1].key.sequence <= smallestSnapshot {
      StrictlyBefore(input, j);
      forall s: Sequence | smallestSnapshot <= s ensures !Newest(Elements(input), e.key.user, s, e) {
        assert input[j-1] in Elements(input) && Readable(input[j-1], e.key.user, s);
      }
    } else {
      var s := if e.key.sequence < smallestSnapshot then smallestSnapshot else e.key.sequence;
      forall o | o in Elements(input) && Readable(o, e.key.user, s) ensures o.key.sequence <= e.key.sequence {
        var k: nat :| k < |input| && input[k] == o;
        if k < j {
          OrderedTags(input, k, j);
          assert input[j-1].key.sequence <= o.key.sequence;
        } else if j < k {
          assert Less(input[j].key, input[k].key);
        }
      }
      assert Newest(Elements(input), e.key.user, s, e);
    }
  }

  lemma StrictlyBefore(input: seq<Entry>, j: nat)
    requires Sorted(input) && AllParse(input) && OneEntryPerSequence(Elements(input)) && 0 < j < |input|
    requires input[j-1].key.user == input[j].key.user
    ensures input[j].key.sequence < input[j-1].key.sequence
  {
    assert Less(input[j-1].key, input[j].key);
    assert input[j-1] in Elements(input) && input[j] in Elements(input);
  }

  /** No two entries of one user key at or below the sequence number. */
  ghost predicate OneOfEachUser(data: set<Entry>, s: Sequence) {
    forall a, b :: (a in data && b in data && a.key.user == b.key.user && a.key.sequence <= s && b.key.sequence <= s)
                   ==> a == b
  }

  /** Whatever is overwritten is gone. */
  lemma NothingOverwrittenSurvives(input: seq<Entry>, smallestSnapshot: Sequence, isBase: UserKey -> bool)
    requires Sorted(input) && AllParse(input)
    ensures OneOfEachUser(Elements(Kept(input, |input|, smallestSnapshot, isBase)), smallestSnapshot)
  {
    KeptMembers(input, |input|, smallestSnapshot, isBase);
    hide Kept;
    var kept := Kept(input, |input|, smallestSnapshot, isBase);
    forall a, b | a in kept && b in kept && a.key.user == b.key.user && a.key.sequence <= smallestSnapshot
                  && b.key.sequence <= smallestSnapshot
      ensures a == b
    {
      var i: nat :| i < |input| && input[i] == a;
      var j: nat :| j < |input| && input[j] == b;
      if i < j {
        OverwrittenSurvivesBehindUndecodable(input, smallestSnapshot, isBase, i, j);
      } else if j < i {
        OverwrittenSurvivesBehindUndecodable(input, smallestSnapshot, isBase, j, i);
      }
    }
  }

  // ---------- an input where it happens ----------

  const KEY: UserKey := 1.0
  const DELETION: Entry := Entry(InternalKey(KEY, 3, TYPE_DELETION), [])
  const UNDECODABLE: Entry := Entry(InternalKey(KEY, 2, 9), [])
  const HIDDEN: Entry := Entry(InternalKey(KEY, 1, TYPE_VALUE), [7])

  /** The undecodable key makes the loop forget the deletion it dropped before: the value behind survives, and an
      iterator, which passes over that key, lists the value again. */
  lemma UndecodableKeyBringsBack(isBase: UserKey -> bool)
    requires isBase(KEY)
    ensures var input := [DELETION, UNDECODABLE, HIDDEN];
      && Sorted(input) && OneEntryPerSequence({} + Elements(input) + {}) && Surrounds({}, input, {}, isBase)
      && Unhides(input, 3, isBase, 0, 2)
      && Lookup({} + Elements(input) + {}, KEY, 3) == None
      && Lookup({} + Elements(Kept(input, 3, 3, isBase)) + {}, KEY, 3) == Some([7])
  {
    var input := [DELETION, UNDECODABLE, HIDDEN];
    WithDeletion();
    WithoutDeletion();
    assert Kept(input, 3, 3, isBase) == [UNDECODABLE, HIDDEN] by {
      assert Kept(input, 0, 3, isBase) == [];
      assert Kept(input, 1, 3, isBase) == [];
      assert Kept(input, 2, 3, isBase) == [UNDECODABLE];
    }
    hide Kept, Lookup;
  }

  lemma WithDeletion()
    ensures var data := {} + Elements([DELETION, UNDECODABLE, HIDDEN]) + {};
      OneEntryPerSequence(data) && Lookup(data, KEY, 3) == None
  {
    var data := {} + Elements([DELETION, UNDECODABLE, HIDDEN]) + {};
    assert data == {DELETION, UNDECODABLE, HIDDEN};
    assert Newest(data, KEY, 3, DELETION);
    LookupIsOutcome(data, KEY, 3, DELETION);
  }

  lemma WithoutDeletion()
    ensures Lookup({} + Elements([UNDECODABLE, HIDDEN]) + {}, KEY, 3) == Some([7])
  {
    var data := {} + Elements([UNDECODABLE, HIDDEN]) + {};
    assert data == {UNDECODABLE, HIDDEN};
    assert Newest(data, KEY, 3, HIDDEN);
    LookupIsOutcome(data, KEY, 3, HIDDEN);
  }
}
