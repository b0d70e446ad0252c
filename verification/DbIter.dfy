/** The user-facing iterator (db/db_iter.cc, class DBIter): a cursor over the user keys that a read at its sequence
    number finds. */
module DbIters {
  import opened Keys
  import opened Visibility
  import opened Cursors

  predicate Seen(e: Entry, s: Sequence) { e.key.Parses() && e.key.sequence <= s }

  /** Entry `i` is the newest one its user key has at or below `s`, and it is a value. */
  predicate Visible(es: seq<Entry>, s: Sequence, i: nat)
    requires i < |es|
  {
    && Seen(es[i], s) && es[i].key.kind == TYPE_VALUE
    && forall j :: 0 <= j < i ==> !Readable(es[j], es[i].key.user, s)
  }

  function Pairs(es: seq<Entry>, s: Sequence, n: nat): (r: seq<(UserKey, Bytes)>)
    requires n <= |es|
    ensures |r| <= n
  {
    if n == 0 then []
    else
      var before := Pairs(es, s, n - 1);
      if Visible(es, s, n - 1) then before + [(es[n-1].key.user, es[n-1].value)] else before
  }

  // ---------- the view is the sorted map of what reads find ----------

  lemma {:induction false} PairsComeFrom(es: seq<Entry>, s: Sequence, n: nat, k: nat) returns (i: nat)
    requires n <= |es| && k < |Pairs(es, s, n)|
    ensures i < n && Visible(es, s, i) && |Pairs(es, s, i)| == k
    ensures Pairs(es, s, n)[k] == (es[i].key.user, es[i].value)
  {
    if k < |Pairs(es, s, n - 1)| {
      i := PairsComeFrom(es, s, n - 1, k);
    } else {
      i := n - 1;
    }
  }

  lemma {:induction false} VisibleIsListed(es: seq<Entry>, s: Sequence, n: nat, i: nat)
    requires i < n <= |es| && Visible(es, s, i)
    ensures |Pairs(es, s, i)| < |Pairs(es, s, n)|
    ensures Pairs(es, s, n)[|Pairs(es, s, i)|] == (es[i].key.user, es[i].value)
  {
    if i < n - 1 {
      VisibleIsListed(es, s, n - 1, i);
    }
  }

  lemma OneMorePair(es: seq<Entry>, s: Sequence, i: nat)
    requires i < |es| && Visible(es, s, i)
    ensures |Pairs(es, s, i + 1)| == |Pairs(es, s, i)| + 1
  {
  }

  lemma VisibleUsersIncrease(es: seq<Entry>, s: Sequence, i: nat, j: nat)
    requires Sorted(es) && i < j < |es| && Visible(es, s, i) && Visible(es, s, j)
    ensures es[i].key.user < es[j].key.user
  {
    assert Less(es[i].key, es[j].key);
  }

  lemma {:induction false} PairsMonotone(es: seq<Entry>, s: Sequence, i: nat, j: nat)
    requires i <= j <= |es|
    ensures Pairs(es, s, i) <= Pairs(es, s, j)
  {
    if i < j {
      PairsMonotone(es, s, i, j - 1);
    }
  }

  lemma PairsSorted(es: seq<Entry>, s: Sequence, n: nat, a: nat, b: nat)
    requires Sorted(es) && n <= |es| && a < b < |Pairs(es, s, n)|
    ensures Pairs(es, s, n)[a].0 < Pairs(es, s, n)[b].0
  {
    var i := PairsComeFrom(es, s, n, a);
    var j := PairsComeFrom(es, s, n, b);
    if j <= i {
      PairsMonotone(es, s, j, i);
    }
    VisibleUsersIncrease(es, s, i, j);
  }

  /** The pairs are exactly the user keys whose read at `s` finds a value, with that value. */
  lemma PairsAreReads(es: seq<Entry>, s: Sequence, u: UserKey, v: Bytes)
    requires Sorted(es) && OneEntryPerSequence(Elements(es))
    ensures (u, v) in Pairs(es, s, |es|) <==> Lookup(Elements(es), u, s) == Some(v)
  {
    if (u, v) in Pairs(es, s, |es|) {
      var k :| 0 <= k < |Pairs(es, s, |es|)| && Pairs(es, s, |es|)[k] == (u, v);
      var i := PairsComeFrom(es, s, |es|, k);
      FirstSeenIsNewest(es, s, i);
      LookupIsOutcome(Elements(es), u, s, es[i]);
    }
    if Lookup(Elements(es), u, s) == Some(v) {
      var e :| Newest(Elements(es), u, s, e) && e.key.kind == TYPE_VALUE;
      LookupIsOutcome(Elements(es), u, s, e);
      var i :| 0 <= i < |es| && es[i] == e;
      forall j | 0 <= j < i ensures !Readable(es[j], u, s) {
        assert Less(es[j].key, es[i].key) && es[j] in Elements(es);
      }
      VisibleIsListed(es, s, |es|, i);
    }
  }

  lemma FirstSeenIsNewest(es: seq<Entry>, s: Sequence, i: nat)
    requires Sorted(es) && i < |es| && Seen(es[i], s)
    requires forall j :: 0 <= j < i ==> !Readable(es[j], es[i].key.user, s)
    ensures Newest(Elements(es), es[i].key.user, s, es[i])
  {
    forall o | o in Elements(es) && Readable(o, es[i].key.user, s) ensures o.key.sequence <= es[i].key.sequence {
      var j :| 0 <= j < |es| && es[j] == o;
      assert i < j ==> Less(es[i].key, es[j].key);
    }
  }

  // ---------- positions ----------

  /** The first visible entry at or after `from`, or the end. */
  ghost predicate FirstVisible(es: seq<Entry>, s: Sequence, from: nat, r: nat) {
    && r <= |es|
    && (r < |es| ==> from <= r && Visible(es, s, r))
    && forall i :: from <= i < r ==> !Visible(es, s, i)
  }

  /** The last visible entry before `to`, or the end when there is none. */
  ghost predicate LastVisible(es: seq<Entry>, s: Sequence, to: nat, r: nat) {
    && to <= |es| && (r < to || r == |es|)
    && (r < |es| ==> Visible(es, s, r))
    && forall i :: (if r < |es| then r + 1 else 0) <= i < to ==> !Visible(es, s, i)
  }

  lemma {:induction false} NoneVisibleBetween(es: seq<Entry>, s: Sequence, i: nat, j: nat)
    requires i <= j <= |es| && forall k :: i <= k < j ==> !Visible(es, s, k)
    ensures Pairs(es, s, i) == Pairs(es, s, j)
  {
    if i < j {
      NoneVisibleBetween(es, s, i, j - 1);
    }
  }

  lemma FirstVisibleIndex(es: seq<Entry>, s: Sequence, from: nat, r: nat)
    requires from <= |es| && FirstVisible(es, s, from, r)
    ensures |Pairs(es, s, r)| == |Pairs(es, s, from)|
  {
    if from <= r {
      NoneVisibleBetween(es, s, from, r);
    }
  }

  lemma LastVisibleIndex(es: seq<Entry>, s: Sequence, to: nat, r: nat)
    requires LastVisible(es, s, to, r)
    ensures |Pairs(es, s, r)| == StepBack(|Pairs(es, s, to)|, |Pairs(es, s, |es|)|)
  {
    if r < |es| {
      NoneVisibleBetween(es, s, r + 1, to);
    } else {
      NoneVisibleBetween(es, s, 0, to);
    }
  }

  datatype Direction = Forward | Reverse

  class DBIter {
    const iter: Cursor
    const sequence: Sequence
    var direction: Direction
    /** None stands for a cleared string. */
    var savedKey: Option<UserKey>
    var savedValue: Bytes
    var valid: bool
    /** status_ is a corruption. */
    var corrupt: bool
    /** The entry the iterator stands at, or the number of entries when it is not valid. */
    ghost var at: nat

    /** Moving forward, the internal iterator is at the entry itself.  Moving back, it is just before the entries of
        its user key, not counting entries no read at this sequence number sees. */
    ghost predicate Ok()
      reads this, iter
    {
      && iter.Ok() && at <= |iter.entries|
      && (valid <==> at < |iter.entries|)
      && (valid ==> Visible(iter.entries, sequence, at))
      && (valid && direction == Forward ==> iter.pos == at)
      && (valid && direction == Reverse ==>
            && savedKey == Some(iter.entries[at].key.user) && savedValue == iter.entries[at].value
            && JustBefore(iter.entries, sequence, iter.pos, at))
    }

    ghost function View(): seq<(UserKey, Bytes)>
      reads this
    {
      Pairs(iter.entries, sequence, |iter.entries|)
    }

    /** The position of the iterator in its view. */
    ghost function Index(): nat
      requires at <= |iter.entries|
      reads this
    {
      |Pairs(iter.entries, sequence, at)|
    }

    constructor (iter: Cursor, sequence: Sequence)
      requires iter.Ok()
      ensures Ok() && !valid && !corrupt && this.iter == iter && this.sequence == sequence
    {
      this.iter, this.sequence := iter, sequence;
      direction, savedKey, savedValue, valid, corrupt := Forward, None, [], false, false;
      at := |iter.entries|;
    }

    method Key() returns (k: UserKey)
      requires Ok() && valid
      ensures Index() < |View()| && k == View()[Index()].0
    {
      VisibleIsListed(iter.entries, sequence, |iter.entries|, at);
      k := if direction == Forward then iter.Key().user else savedKey.value;
    }

    method Value() returns (v: Bytes)
      requires Ok() && valid
      ensures Index() < |View()| && v == View()[Index()].1
    {
      VisibleIsListed(iter.entries, sequence, |iter.entries|, at);
      v := if direction == Forward then iter.Value() else savedValue;
    }

    /** Is the current internal entry well-formed and within the sequence number?  Notes corruption. */
    method ParseKey() returns (seen: bool)
      requires iter.Ok() && iter.Valid()
      modifies `corrupt
      ensures seen == Seen(iter.entries[iter.pos], sequence)
      ensures corrupt == (old(corrupt) || !iter.entries[iter.pos].key.Parses())
    {
      if !iter.Key().Parses() {
        corrupt := true;
        return false;
      }
      return iter.Key().sequence <= sequence;
    }

    method FindNextUserEntry(skipping: bool, skip: Option<UserKey>)
      requires iter.Ok() && iter.Valid() && direction == Forward
      requires skipping ==> skip.Some? && forall i :: iter.pos <= i < |iter.entries| && Seen(iter.entries[i], sequence)
                                                      ==> skip.value <= iter.entries[i].key.user
      requires Fresh(iter.entries, sequence, iter.pos, if skipping then skip else None)
      modifies this, iter
      ensures Ok() && direction == Forward
      ensures forall i :: old(iter.pos) <= i < at && Visible(iter.entries, sequence, i)
                          ==> skipping && iter.entries[i].key.user <= skip.value
      ensures valid ==> old(iter.pos) <= at && (skipping ==> iter.entries[at].key.user > skip.value)
    {
      hide Fresh;
      ghost var from := iter.pos;
      var skipping', skip' := skipping, skip;
      while iter.Valid()
        invariant iter.Ok() && direction == Forward && from <= iter.pos
        invariant skipping' ==> skip'.Some?
        invariant skipping ==> skipping' && skip.value <= skip'.value
        invariant forall i :: from <= i < iter.pos && Visible(iter.entries, sequence, i)
                              ==> skipping && iter.entries[i].key.user <= skip.value
        invariant skipping' ==> forall i :: iter.pos <= i < |iter.entries| && Visible(iter.entries, sequence, i)
                                            && iter.entries[i].key.user <= skip'.value
                                            ==> skipping && iter.entries[i].key.user <= skip.value
        invariant Fresh(iter.entries, sequence, iter.pos, if skipping' then skip' else None)
        decreases |iter.entries| - iter.pos
      {
        ghost var was := if skipping' then skip' else None;
        var seen := ParseKey();
        if seen {
          var key := iter.Key();
          if key.kind == TYPE_DELETION {
            skip', skipping' := Some(key.user), true;
          } else if skipping' && key.user <= skip'.value {
          } else {
            FreshIsVisible(iter.entries, sequence, iter.pos, if skipping' then skip' else None);
            valid, savedKey, at := true, None, iter.pos;
            return;
          }
        }
        FreshMoves(iter.entries, sequence, iter.pos, was, if skipping' then skip' else None);
        iter.Next();
      }
      savedKey, valid, at := None, false, |iter.entries|;
    }

    method Next()
      requires Ok() && valid
      modifies this, iter
      ensures Ok() && FirstVisible(iter.entries, sequence, old(at) + 1, at)
      ensures Index() == old(Index()) + 1
    {
      hide Fresh, Pairs;
      ghost var es, was := iter.entries, at;
      var skip: Option<UserKey>;
      if direction == Reverse {
        direction := Forward;
        if !iter.Valid() {
          iter.SeekToFirst();
        } else {
          iter.Next();
        }
        if !iter.Valid() {
          assert false;
        }
        skip := savedKey;
      } else {
        skip := Some(iter.Key().user);
        savedKey := skip;
      }
      AroundEntry(es, sequence, iter.pos, was);
      FindNextUserEntry(true, skip);
      VisibleAround(es, sequence, was);
      FirstVisibleIndex(es, sequence, was + 1, at);
      OneMorePair(es, sequence, was);
    }

    /** Scans backwards over the entries up to the current one. */
    method FindPrevUserEntry()
      requires iter.Ok() && direction == Reverse
      modifies this, iter
      ensures Ok() && (direction == Reverse <==> valid)
      ensures LastVisible(iter.entries, sequence, if old(iter.Valid()) then old(iter.pos) + 1 else 0, at)
    {
      hide ScanState, Candidate, Visible, LastVisible, JustBefore;
      ghost var es := iter.entries;
      ghost var top := if iter.Valid() then iter.pos + 1 else 0;
      ghost var found: nat := |es|;
      var valueType: Kind := TYPE_DELETION;
      ScanStarts(es, sequence, iter.pos, top);
      while iter.Valid()
        invariant iter.Ok() && direction == Reverse
        invariant iter.Valid() ==> iter.pos < top
        invariant ScanState(es, sequence, iter.pos, valueType, found, top)
        invariant valueType == TYPE_VALUE ==>
                    found < |es| && savedKey == Some(es[found].key.user) && savedValue == es[found].value
        decreases if iter.Valid() then iter.pos + 1 else 0
      {
        ScanFacts(es, sequence, iter.pos, valueType, found, top);
        var seen := ParseKey();
        if seen {
          if valueType != TYPE_DELETION && iter.Key().user < savedKey.value {
            break;
          }
          ScanStep(es, sequence, iter.pos, valueType, found, top);
          valueType := iter.Key().kind;
          if valueType == TYPE_DELETION {
            savedKey, savedValue := None, [];
          } else {
            savedKey, savedValue := Some(iter.Key().user), iter.Value();
          }
          found := iter.pos;
        } else {
          ScanSkips(es, sequence, iter.pos, valueType, found, top);
        }
        iter.Prev();
      }
      ScanFacts(es, sequence, iter.pos, valueType, found, top);
      if valueType == TYPE_DELETION {
        ScanEnds(es, sequence, found, top);
        valid, savedKey, savedValue, direction, at := false, None, [], Forward, |es|;
      } else {
        valid, at := true, found;
        CandidateIsVisible(es, sequence, iter.pos, found, top);
      }
    }

    method Prev()
      requires Ok() && valid
      modifies this, iter
      ensures Ok() && LastVisible(iter.entries, sequence, old(at), at)
      ensures Index() == StepBack(old(Index()), |View()|)
    {
      ghost var es, was := iter.entries, at;
      VisibleAround(es, sequence, was);
      if direction == Forward {
        savedKey := Some(iter.Key().user);
        iter.Prev();
        while iter.Valid() && !(iter.Key().user < savedKey.value)
          invariant iter.Ok() && (iter.Valid() ==> iter.pos < was) && savedKey == Some(es[was].key.user)
          invariant forall j :: Scanned(es, iter.pos) <= j < was ==> es[j].key.user == es[was].key.user
          decreases if iter.Valid() then iter.pos + 1 else 0
        {
          assert Less(es[iter.pos].key, es[was].key);
          iter.Prev();
        }
        if !iter.Valid() {
          valid, savedKey, savedValue, at := false, None, [], |es|;
          LastVisibleIndex(es, sequence, was, at);
          return;
        }
        direction := Reverse;
      }
      ghost var top := Scanned(es, iter.pos);
      FindPrevUserEntry();
      LastVisibleIndex(es, sequence, was, at);
    }

    /** Lands on the first user key of the view at or after the target. */
    method Seek(target: UserKey)
      requires Ok()
      modifies this, iter
      ensures Ok() && Index() <= |View()|
      ensures forall k :: 0 <= k < Index() ==> View()[k].0 < target
      ensures forall k :: Index() <= k < |View()| ==> target <= View()[k].0
    {
      ghost var es := iter.entries;
      direction, savedValue, savedKey := Forward, [], None;
      iter.Seek(SeekKey(target, sequence));
      if iter.Valid() {
        FindNextUserEntry(false, None);
      } else {
        valid, at := false, |es|;
      }
      PairsMonotone(es, sequence, at, |es|);
      forall k | 0 <= k < |View()|
        ensures k < Index() ==> View()[k].0 < target
        ensures Index() <= k ==> target <= View()[k].0
      {
        var i := PairsComeFrom(es, sequence, |es|, k);
        if i < at {
          VisibleIsListed(es, sequence, at, i);
        } else {
          PairsMonotone(es, sequence, at, i);
        }
      }
    }

    method SeekToFirst()
      requires Ok()
      modifies this, iter
      ensures Ok() && Index() == 0
    {
      direction, savedValue := Forward, [];
      iter.SeekToFirst();
      if iter.Valid() {
        FindNextUserEntry(false, None);
      } else {
        valid, at := false, |iter.entries|;
      }
      FirstVisibleIndex(iter.entries, sequence, 0, at);
    }

    method SeekToLast()
      requires Ok()
      modifies this, iter
      ensures Ok() && Index() == LastPosition(|View()|)
    {
      direction, savedValue := Reverse, [];
      iter.SeekToLast();
      FindPrevUserEntry();
      LastVisibleIndex(iter.entries, sequence, |iter.entries|, at);
    }
  }

  /** Entries before `from` hide none of the entries at or after it but those up to `skip`. */
  ghost predicate Fresh(es: seq<Entry>, s: Sequence, from: nat, skip: Option<UserKey>) {
    forall j, i :: 0 <= j < from <= i < |es| && Seen(es[j], s) && es[j].key.user == es[i].key.user
                   ==> skip.Some? && es[i].key.user <= skip.value
  }

  lemma FreshMoves(es: seq<Entry>, s: Sequence, p: nat, skip: Option<UserKey>, skip': Option<UserKey>)
    requires Sorted(es) && p < |es| && Fresh(es, s, p, skip)
    requires Seen(es[p], s) ==> skip'.Some? && es[p].key.user <= skip'.value
    requires skip' == skip || skip' == Some(es[p].key.user)
    ensures Fresh(es, s, p + 1, skip')
  {
    forall j, i | 0 <= j < p + 1 <= i < |es| && Seen(es[j], s) && es[j].key.user == es[i].key.user
      ensures skip'.Some? && es[i].key.user <= skip'.value
    {
      assert Less(es[p].key, es[i].key);
      if j < p {
        assert Less(es[j].key, es[p].key);
      }
    }
  }

  lemma FreshIsVisible(es: seq<Entry>, s: Sequence, p: nat, skip: Option<UserKey>)
    requires p < |es| && Fresh(es, s, p, skip) && Seen(es[p], s) && es[p].key.kind == TYPE_VALUE
    requires skip.Some? ==> skip.value < es[p].key.user
    ensures Visible(es, s, p)
  {
  }

  /** The first entry already scanned when scanning backwards stands at `p`. */
  function Scanned(es: seq<Entry>, p: nat): nat {
    if p < |es| then p + 1 else 0
  }

  /** Scanning backwards to `p`, `q` is the last seen entry met, a value, and the only one at or after `p` that can
      still be visible. */
  ghost predicate Candidate(es: seq<Entry>, s: Sequence, p: nat, q: nat, top: nat) {
    && Scanned(es, p) <= q < top <= |es| && Seen(es[q], s) && es[q].key.kind == TYPE_VALUE
    && (forall j :: Scanned(es, p) <= j < q ==> !Seen(es[j], s))
    && (forall i :: Scanned(es, p) <= i < top && i != q ==> !Visible(es, s, i))
  }

  ghost predicate ScanState(es: seq<Entry>, s: Sequence, p: nat, valueType: Kind, q: nat, top: nat) {
    && valueType <= TYPE_VALUE
    && if valueType == TYPE_VALUE then Candidate(es, s, p, q, top)
       else forall i :: Scanned(es, p) <= i < top <= |es| ==> !Visible(es, s, i)
  }

  /** A seen entry takes the place of the candidate, whose user key it shares. */
  lemma ScanStep(es: seq<Entry>, s: Sequence, p: nat, valueType: Kind, q: nat, top: nat)
    requires Sorted(es) && p < top <= |es| && Seen(es[p], s) && ScanState(es, s, p, valueType, q, top)
    requires valueType == TYPE_VALUE ==> es[q].key.user <= es[p].key.user
    ensures ScanState(es, s, StepBack(p, |es|), es[p].key.kind, p, top)
  {
    if valueType == TYPE_VALUE {
      assert Less(es[p].key, es[q].key);
      assert Readable(es[p], es[q].key.user, s);
    }
  }

  lemma ScanStarts(es: seq<Entry>, s: Sequence, p: nat, top: nat)
    requires p <= |es| && top == Scanned(es, p)
    ensures forall q: nat :: ScanState(es, s, p, TYPE_DELETION, q, top)
  {
  }

  lemma ScanSkips(es: seq<Entry>, s: Sequence, p: nat, valueType: Kind, q: nat, top: nat)
    requires p < |es| && !Seen(es[p], s) && ScanState(es, s, p, valueType, q, top)
    ensures ScanState(es, s, StepBack(p, |es|), valueType, q, top)
  {
  }

  lemma ScanFacts(es: seq<Entry>, s: Sequence, p: nat, valueType: Kind, q: nat, top: nat)
    requires ScanState(es, s, p, valueType, q, top)
    ensures valueType <= TYPE_VALUE
    ensures valueType == TYPE_VALUE ==> q < |es| && Candidate(es, s, p, q, top)
    ensures valueType == TYPE_VALUE && p < q && Sorted(es) ==> es[p].key.user <= es[q].key.user
  {
    if valueType == TYPE_VALUE && p < q && Sorted(es) {
      assert Less(es[p].key, es[q].key);
    }
  }

  lemma ScanEnds(es: seq<Entry>, s: Sequence, q: nat, top: nat)
    requires ScanState(es, s, |es|, TYPE_DELETION, q, top) && top <= |es|
    ensures LastVisible(es, s, top, |es|)
  {
  }

  lemma CandidateIsVisible(es: seq<Entry>, s: Sequence, p: nat, q: nat, top: nat)
    requires Sorted(es) && Candidate(es, s, p, q, top) && p <= |es|
    requires p < |es| ==> es[p].key.user < es[q].key.user
    ensures Visible(es, s, q) && LastVisible(es, s, top, q) && JustBefore(es, s, p, q)
  {
  }

  /** Where the forward scan of Next starts, nothing seen comes before the current user key. */
  lemma AroundEntry(es: seq<Entry>, s: Sequence, p: nat, at: nat)
    requires Sorted(es) && at < |es| && Visible(es, s, at) && p <= at
    requires forall j :: p <= j < at && Seen(es[j], s) ==> es[j].key.user == es[at].key.user
    requires p < at ==> forall j :: 0 <= j < p ==> es[j].key.user < es[at].key.user
    ensures forall i :: p <= i < |es| && Seen(es[i], s) ==> es[at].key.user <= es[i].key.user
    ensures Fresh(es, s, p, Some(es[at].key.user))
  {
  }

  lemma VisibleAround(es: seq<Entry>, s: Sequence, at: nat)
    requires Sorted(es) && at < |es| && Visible(es, s, at)
    ensures forall i :: 0 <= i < |es| && i != at && Visible(es, s, i) ==>
              if i < at then es[i].key.user < es[at].key.user else es[at].key.user < es[i].key.user
  {
    forall i | 0 <= i < |es| && i != at && Visible(es, s, i)
      ensures if i < at then es[i].key.user < es[at].key.user else es[at].key.user < es[i].key.user
    {
      if i < at {
        VisibleUsersIncrease(es, s, i, at);
      } else {
        VisibleUsersIncrease(es, s, at, i);
      }
    }
  }

  /** No entry between `p` and `at` that a read at `s` sees belongs to another user key than that at `at`; `p` does.
      The end of the run stands for the position before the first entry. */
  ghost predicate JustBefore(es: seq<Entry>, s: Sequence, p: nat, at: nat)
    requires p <= |es| && at < |es|
  {
    && (p < |es| ==> p < at && es[p].key.user < es[at].key.user)
    && forall j :: (if p == |es| then 0 else p + 1) <= j < at && Seen(es[j], s) ==> es[j].key.user == es[at].key.user
  }
}
