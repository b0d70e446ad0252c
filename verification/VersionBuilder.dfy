/** Applying version edits to a version (db/version_set.cc, class VersionSet::Builder). */
module VersionBuilder {
  import opened Keys
  import opened Versions

  /** The part of a version edit that changes the file lists. */
  datatype FileChanges = FileChanges(deleted: set<(nat, nat)>, added: seq<(nat, File)>) {
    predicate LevelsOk() {
      && (forall d :: d in deleted ==> d.0 < NUM_LEVELS)
      && (forall i :: 0 <= i < |added| ==> added[i].0 < NUM_LEVELS)
    }
  }

  predicate BySmallest(f: File, g: File) {
    Less(f.smallest, g.smallest) || (f.smallest == g.smallest && f.number < g.number)
  }

  predicate SortedBySmallest(fs: seq<File>) {
    forall i, j :: 0 <= i < j < |fs| ==> BySmallest(fs[i], fs[j])
  }

  /** Strictly sorted file lists with the same members are the same list. */
  lemma {:induction false} SortedListIsItsSet(a: seq<File>, b: seq<File>)
    requires SortedBySmallest(a) && SortedBySmallest(b)
    requires forall f :: f in a <==> f in b
    ensures a == b
    decreases |a|
  {
    if a == [] {
      assert forall i :: 0 <= i < |b| ==> b[i] in b;
    } else {
      assert a[0] in b && b[0] in a;
      assert a[0] == b[0];
      forall f | f in a[1..] ensures f in b[1..] {
        var i :| 0 <= i < |a[1..]| && a[1..][i] == f;
        assert a[i+1] in a && f in b;
        var j :| 0 <= j < |b| && b[j] == f;
        assert BySmallest(a[0], a[i+1]);
      }
      forall f | f in b[1..] ensures f in a[1..] {
        var i :| 0 <= i < |b[1..]| && b[1..][i] == f;
        assert b[i+1] in b && f in a;
        var j :| 0 <= j < |a| && a[j] == f;
        assert BySmallest(b[0], b[i+1]);
      }
      SortedListIsItsSet(a[1..], b[1..]);
    }
  }

  /** std::set::insert: nothing happens when an equivalent element is there. */
  function SetInsert(f: File, fs: seq<File>): (r: seq<File>)
    requires SortedBySmallest(fs)
    ensures SortedBySmallest(r)
    ensures forall g :: g in r ==> g == f || g in fs
    ensures forall g :: g in fs ==> g in r
    ensures (forall g :: g in fs ==> BySmallest(f, g) || BySmallest(g, f)) ==> f in r
  {
    if fs == [] then [f]
    else if BySmallest(f, fs[0]) then [f] + fs
    else if BySmallest(fs[0], f) then
      var tail := SetInsert(f, fs[1..]);
      assert forall j :: 0 <= j < |tail| ==> tail[j] in tail;
      assert forall g :: g in fs <==> g == fs[0] || g in fs[1..];
      [fs[0]] + tail
    else fs
  }

  method UpperBound(files: seq<File>, from: nat, f: File) returns (pos: nat)
    requires SortedBySmallest(files) && from <= |files|
    ensures from <= pos <= |files|
    ensures forall i :: from <= i < pos ==> !BySmallest(f, files[i])
    ensures forall i :: pos <= i < |files| ==> BySmallest(f, files[i])
  {
    var left := from;
    pos := |files|;
    while left < pos
      invariant from <= left <= pos <= |files|
      invariant forall i :: from <= i < left ==> !BySmallest(f, files[i])
      invariant forall i :: pos <= i < |files| ==> BySmallest(f, files[i])
    {
      var mid := (left + pos) / 2;
      if BySmallest(f, files[mid]) {
        pos := mid;
      } else {
        left := mid + 1;
      }
    }
  }

  ghost predicate Survives(base: seq<File>, added: seq<File>, deleted: set<nat>, f: File) {
    (f in base || f in added) && f.number !in deleted
  }

  /** No added file is equivalent to a base file. */
  ghost predicate NothingAddedTwice(base: seq<File>, added: seq<File>) {
    forall f, g :: f in base && g in added ==> BySmallest(f, g) || BySmallest(g, f)
  }

  /** Surviving files do not overlap, in the order of their smallest keys. */
  ghost predicate Separated(base: seq<File>, added: seq<File>, deleted: set<nat>) {
    forall f, g :: Survives(base, added, deleted, f) && Survives(base, added, deleted, g) && BySmallest(f, g)
                   ==> Less(f.largest, g.smallest)
  }

  /** Above level 0 the file added must begin behind the last one; `asserted` says whether it does. */
  method MaybeAddFile(files: seq<File>, f: File, deleted: set<nat>, mayOverlap: bool)
    returns (r: seq<File>, asserted: bool)
    requires SortedBySmallest(files)
    requires forall g :: g in files ==> BySmallest(g, f)
    ensures r == if f.number in deleted then files else files + [f]
    ensures asserted <==> mayOverlap || r == files || files == [] || Less(files[|files|-1].largest, f.smallest)
    ensures SortedBySmallest(r)
  {
    if f.number in deleted {
      r, asserted := files, true;
    } else {
      asserted := !(!mayOverlap && |files| > 0) || Less(files[|files|-1].largest, f.smallest);
      assert forall i :: 0 <= i < |files| ==> files[i] in files;
      r := files + [f];
    }
  }

  /** Each file begins behind the one before. */
  predicate EachBehind(files: seq<File>) {
    forall i :: 0 < i < |files| ==> Less(files[i-1].largest, files[i].smallest)
  }

  lemma OneMoreBehind(files: seq<File>, f: File, r: seq<File>)
    requires r == files || r == files + [f]
    ensures EachBehind(r) <==> EachBehind(files) && (r == files || files == [] || Less(files[|files|-1].largest, f.smallest))
  {
    if r != files {
      assert forall i :: 0 <= i < |files| ==> r[i] == files[i];
      assert r[|files|] == f;
      if EachBehind(r) {
        assert files != [] ==> Less(r[|files|-1].largest, r[|files|].smallest);
        assert forall i :: 0 < i < |files| ==> Less(r[i-1].largest, r[i].smallest);
      }
    }
  }

  /** `files` holds the survivors among the first `b` base and first `a` added files, and these all come before
      the rest. */
  ghost predicate Merging(files: seq<File>, base: seq<File>, b: nat, added: seq<File>, a: nat, deleted: set<nat>) {
    && b <= |base| && a <= |added|
    && SortedBySmallest(base) && SortedBySmallest(added) && SortedBySmallest(files)
    && (forall f :: f in files <==> Survives(base[..b], added[..a], deleted, f))
    && (forall i, j :: 0 <= i < a && b <= j < |base| ==> BySmallest(added[i], base[j]))
    && (forall i, j :: 0 <= i < b && a <= j < |added| ==> BySmallest(base[i], added[j]))
  }

  lemma MergeBase(files: seq<File>, base: seq<File>, b: nat, added: seq<File>, a: nat, deleted: set<nat>)
    requires Merging(files, base, b, added, a, deleted) && b < |base|
    requires forall j :: a <= j < |added| ==> BySmallest(base[b], added[j])
    ensures forall g :: g in files ==> BySmallest(g, base[b]) && Survives(base, added, deleted, g)
    ensures base[b] in base && SortedBySmallest(files)
    ensures Merging(if base[b].number in deleted then files else files + [base[b]], base, b + 1, added, a, deleted)
  {
    forall g | g in files ensures BySmallest(g, base[b]) && Survives(base, added, deleted, g) {
      assert Survives(base[..b], added[..a], deleted, g);
    }
    assert forall i :: 0 <= i < |files| ==> files[i] in files;
    assert base[..b+1] == base[..b] + [base[b]];
  }

  lemma MergeAdded(files: seq<File>, base: seq<File>, b: nat, added: seq<File>, a: nat, deleted: set<nat>)
    requires Merging(files, base, b, added, a, deleted) && a < |added|
    requires forall j :: b <= j < |base| ==> BySmallest(added[a], base[j])
    ensures forall g :: g in files ==> BySmallest(g, added[a]) && Survives(base, added, deleted, g)
    ensures added[a] in added && SortedBySmallest(files)
    ensures Merging(if added[a].number in deleted then files else files + [added[a]], base, b, added, a + 1, deleted)
  {
    forall g | g in files ensures BySmallest(g, added[a]) && Survives(base, added, deleted, g) {
      assert Survives(base[..b], added[..a], deleted, g);
    }
    assert forall i :: 0 <= i < |files| ==> files[i] in files;
    assert added[..a+1] == added[..a] + [added[a]];
  }

  /** Merges the added files into the base list, leaving out the deleted ones.  The checks made on the way hold, above
      level 0, exactly when each file begins behind the one before. */
  method SaveLevel(base: seq<File>, added: seq<File>, deleted: set<nat>, mayOverlap: bool)
    returns (files: seq<File>, asserted: bool)
    requires SortedBySmallest(base) && SortedBySmallest(added) && NothingAddedTwice(base, added)
    ensures SortedBySmallest(files)
    ensures forall f :: f in files <==> Survives(base, added, deleted, f)
    ensures asserted <==> mayOverlap || EachBehind(files)
    ensures Separated(base, added, deleted) ==> Disjoint(files) && asserted
  {
    hide Merging, SortedBySmallest, EachBehind;
    files, asserted := [], true;
    var b := 0;
    MergeStart(base, added, deleted);
    assert EachBehind([]) by { NoneBehind(); }
    for a := 0 to |added|
      invariant b <= |base| && Merging(files, base, b, added, a, deleted)
      invariant asserted <==> mayOverlap || EachBehind(files)
    {
      var bpos := UpperBound(base, b, added[a]);
      while b < bpos
        invariant b <= bpos <= |base| && Merging(files, base, b, added, a, deleted)
        invariant asserted <==> mayOverlap || EachBehind(files)
      {
        BeforeTheRest(base[b], base, added, a);
        MergeBase(files, base, b, added, a, deleted);
        files, asserted := AddChecked(files, base[b], deleted, mayOverlap, asserted);
        b := b + 1;
      }
      MergeAdded(files, base, b, added, a, deleted);
      files, asserted := AddChecked(files, added[a], deleted, mayOverlap, asserted);
    }
    while b < |base|
      invariant b <= |base| && Merging(files, base, b, added, |added|, deleted)
      invariant asserted <==> mayOverlap || EachBehind(files)
    {
      MergeBase(files, base, b, added, |added|, deleted);
      files, asserted := AddChecked(files, base[b], deleted, mayOverlap, asserted);
      b := b + 1;
    }
    MergeEnd(files, base, added, deleted);
    if Separated(base, added, deleted) {
      SeparatedIsDisjoint(files, base, added, deleted);
    }
  }

  method AddChecked(files: seq<File>, f: File, deleted: set<nat>, mayOverlap: bool, before: bool)
    returns (r: seq<File>, asserted: bool)
    requires SortedBySmallest(files) && forall g :: g in files ==> BySmallest(g, f)
    requires before <==> mayOverlap || EachBehind(files)
    ensures r == if f.number in deleted then files else files + [f]
    ensures SortedBySmallest(r) && (asserted <==> mayOverlap || EachBehind(r))
  {
    hide EachBehind, SortedBySmallest;
    r, asserted := MaybeAddFile(files, f, deleted, mayOverlap);
    OneMoreBehind(files, f, r);
    asserted := before && asserted;
  }

  /** That goes for every level above 0. */
  predicate LevelsBehind(levels: seq<seq<File>>) {
    forall l :: 1 <= l < |levels| ==> EachBehind(levels[l])
  }

  lemma OneMoreLevel(levels: seq<seq<File>>, files: seq<File>)
    ensures LevelsBehind(levels + [files]) <==> LevelsBehind(levels) && (levels == [] || EachBehind(files))
  {
    hide EachBehind;
    var all := levels + [files];
    assert all[|levels|] == files && forall l :: 0 <= l < |levels| ==> all[l] == levels[l];
  }

  lemma NoLevels()
    ensures LevelsBehind([])
  {
  }

  lemma NoneBehind()
    ensures EachBehind([])
  {
  }

  /** Files that hold their entries between their bounds are disjoint as soon as each begins behind the one before. */
  lemma {:induction false} BehindIsDisjoint(files: seq<File>)
    requires FilesOk(files) && EachBehind(files)
    ensures Disjoint(files)
  {
    if files != [] {
      var n := |files| - 1;
      BehindIsDisjoint(files[..n]);
      forall i | 0 <= i < n ensures Less(files[i].largest, files[n].smallest) {
        assert Less(files[n-1].largest, files[n].smallest);
        EntryWithinFile(files[n-1], files[n-1].entries[0]);
        assert i < n - 1 ==> Less(files[..n][i].largest, files[..n][n-1].smallest);
      }
    }
  }

  lemma MergeStart(base: seq<File>, added: seq<File>, deleted: set<nat>)
    requires SortedBySmallest(base) && SortedBySmallest(added)
    ensures Merging([], base, 0, added, 0, deleted)
  {
  }

  lemma MergeEnd(files: seq<File>, base: seq<File>, added: seq<File>, deleted: set<nat>)
    requires Merging(files, base, |base|, added, |added|, deleted)
    ensures SortedBySmallest(files) && forall f :: f in files <==> Survives(base, added, deleted, f)
  {
    assert base[..|base|] == base && added[..|added|] == added;
  }

  /** A base file that does not come after the next added file comes before all of those left. */
  lemma BeforeTheRest(f: File, base: seq<File>, added: seq<File>, a: nat)
    requires SortedBySmallest(added) && NothingAddedTwice(base, added) && f in base
    requires a < |added| && !BySmallest(added[a], f)
    ensures forall j :: a <= j < |added| ==> BySmallest(f, added[j])
  {
    assert added[a] in added;
  }

  lemma SeparatedIsDisjoint(files: seq<File>, base: seq<File>, added: seq<File>, deleted: set<nat>)
    requires SortedBySmallest(files) && Separated(base, added, deleted)
    requires forall f :: f in files ==> Survives(base, added, deleted, f)
    ensures Disjoint(files) && EachBehind(files)
  {
    forall i, j | 0 <= i < j < |files| ensures Less(files[i].largest, files[j].smallest) {
      assert files[i] in files && files[j] in files;
    }
  }

  function NewFiles(changes: FileChanges, l: nat): set<File> {
    set i | 0 <= i < |changes.added| && changes.added[i].0 == l :: changes.added[i].1
  }

  /** What one edit does to the files of a level. */
  function Applied(files: set<File>, changes: FileChanges, l: nat): set<File> {
    (set f | f in files && (l, f.number) !in changes.deleted) + NewFiles(changes, l)
  }

  /** The edit adds no (level, number) twice, and none in `known`. */
  predicate AddsFresh(changes: FileChanges, known: set<(nat, nat)>) {
    && (forall i :: 0 <= i < |changes.added| ==> (changes.added[i].0, changes.added[i].1.number) !in known)
    && (forall i, j :: 0 <= i < j < |changes.added|
          ==> (changes.added[i].0, changes.added[i].1.number) != (changes.added[j].0, changes.added[j].1.number))
  }

  class Builder {
    const base: seq<seq<File>>
    var deleted: seq<set<nat>>
    var added: seq<seq<File>>
    /** Every (level, number) in the base or added so far. */
    ghost var known: set<(nat, nat)>

    ghost predicate Valid()
      reads this
    {
      && |base| == NUM_LEVELS && |deleted| == NUM_LEVELS && |added| == NUM_LEVELS
      && (forall l :: 0 <= l < NUM_LEVELS ==> SortedBySmallest(base[l]) && SortedBySmallest(added[l]))
      && (forall l, f :: 0 <= l < NUM_LEVELS && (f in base[l] || f in added[l]) ==> (l, f.number) in known)
      && (forall l, f, g :: 0 <= l < NUM_LEVELS && f in base[l] && g in added[l] ==> f.number != g.number)
    }

    ghost function Files(l: nat): set<File>
      requires Valid() && l < NUM_LEVELS
      reads this
    {
      set f | f in base[l] + added[l] && f.number !in deleted[l]
    }

    constructor (base: seq<seq<File>>)
      requires |base| == NUM_LEVELS && forall l :: 0 <= l < NUM_LEVELS ==> SortedBySmallest(base[l])
      ensures Valid() && this.base == base
      ensures known == set l, i | 0 <= l < NUM_LEVELS && 0 <= i < |base[l]| :: (l, base[l][i].number)
      ensures forall l :: 0 <= l < NUM_LEVELS ==> Files(l) == set f | f in base[l]
    {
      this.base := base;
      deleted := seq(NUM_LEVELS, _ => {});
      added := seq(NUM_LEVELS, _ => []);
      known := set l, i | 0 <= l < NUM_LEVELS && 0 <= i < |base[l]| :: (l, base[l][i].number);
    }

    method DeleteFiles(changes: FileChanges)
      requires Valid() && changes.LevelsOk()
      modifies `deleted
      ensures Valid()
      ensures forall l :: 0 <= l < NUM_LEVELS ==>
                Files(l) == set f | f in old(Files(l)) && (l, f.number) !in changes.deleted
    {
      var rest := changes.deleted;
      while rest != {}
        invariant Valid() && rest <= changes.deleted
        invariant forall l, n: nat :: 0 <= l < NUM_LEVELS ==>
                    (n in deleted[l] <==> n in old(deleted[l]) || (l, n) in changes.deleted - rest)
        decreases rest
      {
        var d :| d in rest;
        deleted := deleted[d.0 := deleted[d.0] + {d.1}];
        rest := rest - {d};
      }
    }

    method AddFile(l: nat, f: File)
      requires Valid() && l < NUM_LEVELS && (l, f.number) !in known
      modifies this
      ensures Valid() && known == old(known) + {(l, f.number)}
      ensures Files(l) == old(Files(l)) + {f}
      ensures forall k :: 0 <= k < NUM_LEVELS && k != l ==> Files(k) == old(Files(k))
    {
      forall g | g in added[l] ensures BySmallest(f, g) || BySmallest(g, f) {
        assert g.number != f.number;
      }
      deleted := deleted[l := deleted[l] - {f.number}];
      added := added[l := SetInsert(f, added[l])];
      known := known + {(l, f.number)};
      assert forall g :: g in old(added[l]) + base[l] ==> g.number != f.number;
    }

    /** One edit changes every level as it would change the files gathered so far. */
    method Apply(changes: FileChanges)
      requires Valid() && changes.LevelsOk() && AddsFresh(changes, known)
      modifies this
      ensures Valid() && known == old(known) + Ids(changes)
      ensures forall l :: 0 <= l < NUM_LEVELS ==> Files(l) == Applied(old(Files(l)), changes, l)
    {
      hide SortedBySmallest;
      DeleteFiles(changes);
      label Deleted:
      for i := 0 to |changes.added|
        invariant Valid() && known == old(known) + Ids(Prefix(changes, i))
        invariant forall l :: 0 <= l < NUM_LEVELS ==>
                    Files(l) == old@Deleted(Files(l)) + NewFiles(Prefix(changes, i), l)
      {
        var (l, f) := changes.added[i];
        OneMoreId(changes, i);
        forall k | 0 <= k < NUM_LEVELS
          ensures NewFiles(Prefix(changes, i + 1), k) == NewFiles(Prefix(changes, i), k) + if k == l then {f} else {}
        {
          OneMoreNewFile(changes, i, k);
        }
        AddFile(l, f);
      }
      assert Prefix(changes, |changes.added|) == changes;
    }

    /** `files` is the list of a level's files gathered. */
    ghost predicate Saved(files: seq<File>, l: nat)
      requires Valid() && l < NUM_LEVELS
      reads this
    {
      && SortedBySmallest(files) && (forall f :: f in files <==> f in Files(l))
      && (Separated(base[l], added[l], deleted[l]) ==> Disjoint(files))
    }

    method SaveFiles(l: nat) returns (files: seq<File>, asserted: bool)
      requires Valid() && l < NUM_LEVELS
      ensures Saved(files, l) && (asserted <==> l == 0 || EachBehind(files))
    {
      hide Separated, EachBehind, Disjoint;
      files, asserted := SaveLevel(base[l], added[l], deleted[l], l == 0);
    }

    /** The sorted lists of the files gathered; `asserted` is what the checks on the way come to. */
    method SaveTo() returns (levels: seq<seq<File>>, asserted: bool)
      requires Valid()
      ensures |levels| == NUM_LEVELS && forall l :: 0 <= l < NUM_LEVELS ==> Saved(levels[l], l)
      ensures asserted <==> LevelsBehind(levels)
    {
      hide EachBehind, LevelsBehind, Saved;
      levels, asserted := [], true;
      assert LevelsBehind([]) by { NoLevels(); }
      for l := 0 to NUM_LEVELS
        invariant |levels| == l && (forall k :: 0 <= k < l ==> Saved(levels[k], k))
        invariant asserted <==> LevelsBehind(levels)
      {
        var files, inOrder := SaveFiles(l);
        OneMoreLevel(levels, files);
        levels, asserted := levels + [files], asserted && inOrder;
      }
    }
  }

  function Prefix(changes: FileChanges, n: nat): FileChanges
    requires n <= |changes.added|
  {
    changes.(added := changes.added[..n])
  }

  function Ids(changes: FileChanges): set<(nat, nat)> {
    set i | 0 <= i < |changes.added| :: (changes.added[i].0, changes.added[i].1.number)
  }

  lemma OneMoreId(changes: FileChanges, i: nat)
    requires i < |changes.added|
    ensures Ids(Prefix(changes, i + 1)) == Ids(Prefix(changes, i)) + {(changes.added[i].0, changes.added[i].1.number)}
    ensures AddsFresh(changes, {}) ==> (changes.added[i].0, changes.added[i].1.number) !in Ids(Prefix(changes, i))
  {
    var before, after := Prefix(changes, i), Prefix(changes, i + 1);
    assert forall n :: 0 <= n < i ==> after.added[n] == before.added[n] == changes.added[n];
    assert after.added[i] == changes.added[i];
  }

  lemma OneMoreNewFile(changes: FileChanges, i: nat, k: nat)
    requires i < |changes.added|
    ensures NewFiles(Prefix(changes, i + 1), k)
         == NewFiles(Prefix(changes, i), k) + if k == changes.added[i].0 then {changes.added[i].1} else {}
  {
    var before, after := Prefix(changes, i), Prefix(changes, i + 1);
    assert forall n :: 0 <= n < i ==> after.added[n] == before.added[n] == changes.added[n];
    assert after.added[i] == changes.added[i];
  }
}
