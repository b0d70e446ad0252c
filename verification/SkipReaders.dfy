/** Readers run beside an insertion, without a lock (db/skiplist.h): a search reads one pointer at a time, and any
    number of links may be published between two reads. */
module SkipReaders {
  import opened Keys
  import opened SkipLists

  /** The keys of each level. */
  type Levels = seq<seq<InternalKey>>

  predicate KeysAscend(ks: seq<InternalKey>) {
    forall i, j :: 0 <= i < j < |ks| ==> Less(ks[i], ks[j])
  }

  predicate Ordered(levels: Levels) {
    && |levels| == MAX_HEIGHT
    && (forall l :: 0 <= l < MAX_HEIGHT ==> KeysAscend(levels[l]))
    && (forall l :: 1 <= l < MAX_HEIGHT ==> forall k :: k in levels[l] ==> k in levels[l-1])
  }

  /** One pointer is published: `key` enters level `l` at position `p`. */
  predicate LinkStep(s: Levels, t: Levels, l: nat, p: nat, key: InternalKey) {
    && Ordered(s) && Ordered(t) && l < MAX_HEIGHT && p <= |s[l]|
    && t == s[l := s[l][..p] + [key] + s[l][p..]]
  }

  /** A search for `target`, at the head (None) or at a node of its level, or done with a node or none. */
  datatype Search =
    | At(node: Option<InternalKey>, level: nat)
    | Found(before: Option<InternalKey>, atOrAfter: Option<InternalKey>)

  /** The key that follows `node` in a level. */
  function Next(ks: seq<InternalKey>, node: Option<InternalKey>): Option<InternalKey> {
    if ks == [] then None
    else if node == None then Some(ks[0])
    else if ks[0] == node.value then (if |ks| > 1 then Some(ks[1]) else None)
    else Next(ks[1..], node)
  }

  /** The search reads the next pointer of its node and moves on, down, or is done. */
  function SearchStep(levels: Levels, r: Search, target: InternalKey): Search
    requires |levels| == MAX_HEIGHT && (r.At? ==> r.level < MAX_HEIGHT)
  {
    if r.Found? then r
    else
      var next := Next(levels[r.level], r.node);
      if next.Some? && Less(next.value, target) then At(next, r.level)
      else if r.level == 0 then Found(r.node, next)
      else At(r.node, r.level - 1)
  }

  /** The search stands at the head or at a node of its level whose key comes before the target. */
  predicate OnTrack(levels: Levels, r: Search, target: InternalKey)
    requires |levels| == MAX_HEIGHT
  {
    r.At? ==> r.level < MAX_HEIGHT && (r.node.Some? ==> r.node.value in levels[r.level] && Less(r.node.value, target))
  }

  /** `before` and `atOrAfter` are the neighbours of the target in the list. */
  predicate Neighbours(ks: seq<InternalKey>, target: InternalKey, before: Option<InternalKey>, atOrAfter: Option<InternalKey>) {
    && (forall k :: k in ks && Less(k, target) ==> before.Some? && AtMost(k, before.value))
    && (forall k :: k in ks && AtMost(target, k) ==> atOrAfter.Some? && AtMost(atOrAfter.value, k))
    && (before.Some? ==> before.value in ks && Less(before.value, target))
    && (atOrAfter.Some? ==> atOrAfter.value in ks && AtMost(target, atOrAfter.value))
  }

  lemma {:induction false} NextIsNeighbour(ks: seq<InternalKey>, node: Option<InternalKey>, target: InternalKey)
    requires KeysAscend(ks) && (node.Some? ==> node.value in ks && Less(node.value, target))
    ensures var next := Next(ks, node);
      && (next.Some? ==> next.value in ks)
      && (next == None || !Less(next.value, target) ==> Neighbours(ks, target, node, next))
  {
    if ks != [] {
      assert forall k :: k in ks[1..] ==> Less(ks[0], k);
      assert forall k :: k in ks <==> k == ks[0] || k in ks[1..];
      if node == None {
      } else if ks[0] == node.value {
        if |ks| > 1 {
          assert forall k :: k in ks[1..] ==> k == ks[1] || Less(ks[1], k);
        }
      } else {
        NextIsNeighbour(ks[1..], node, target);
      }
    }
  }

  /** A read keeps the search on track; one that ends it finds the neighbours the target has at that moment. */
  lemma SearchStepKeeps(levels: Levels, r: Search, target: InternalKey)
    requires Ordered(levels) && OnTrack(levels, r, target) && r.At?
    ensures var after := SearchStep(levels, r, target);
      && OnTrack(levels, after, target)
      && (after.Found? ==> Neighbours(levels[0], target, after.before, after.atOrAfter))
  {
    NextIsNeighbour(levels[r.level], r.node, target);
  }

  /** A link published meanwhile does not lead the search astray. */
  lemma LinkKeepsSearch(s: Levels, t: Levels, l: nat, p: nat, key: InternalKey, r: Search, target: InternalKey)
    requires LinkStep(s, t, l, p, key) && OnTrack(s, r, target)
    ensures OnTrack(t, r, target)
    ensures forall m :: 0 <= m < MAX_HEIGHT ==> forall k :: k in s[m] ==> k in t[m]
  {
    forall m, k | 0 <= m < MAX_HEIGHT && k in s[m] ensures k in t[m] {
      if m == l {
        var i :| 0 <= i < |s[l]| && s[l][i] == k;
        assert t[l][if i < p then i else i + 1] == k;
      }
    }
  }

  /** The list and one search; each step publishes a link or reads a pointer. */
  datatype State = State(levels: Levels, search: Search)

  ghost predicate Step(s: State, t: State, target: InternalKey) {
    || (s.search == t.search && exists l, p, key :: LinkStep(s.levels, t.levels, l, p, key))
    || (s.levels == t.levels && |s.levels| == MAX_HEIGHT && s.search.At? && s.search.level < MAX_HEIGHT
        && t.search == SearchStep(s.levels, s.search, target))
  }

  /** A search starts at the head, on any level: it may have seen an old or a new height of the list. */
  ghost predicate IsRun(run: seq<State>, target: InternalKey) {
    && run != [] && Ordered(run[0].levels) && run[0].search.At? && run[0].search.node == None
    && run[0].search.level < MAX_HEIGHT
    && forall i :: 0 <= i < |run| - 1 ==> Step(run[i], run[i+1], target)
  }

  lemma {:induction false} RunStaysOnTrack(run: seq<State>, target: InternalKey, k: nat)
    requires IsRun(run, target) && k < |run|
    ensures Ordered(run[k].levels) && OnTrack(run[k].levels, run[k].search, target)
  {
    if k > 0 {
      RunStaysOnTrack(run, target, k - 1);
      var s, t := run[k-1], run[k-1+1];
      assert Step(s, t, target);
      if l, p, key :| s.search == t.search && LinkStep(s.levels, t.levels, l, p, key) {
        LinkKeepsSearch(s.levels, t.levels, l, p, key, s.search, target);
      } else {
        SearchStepKeeps(s.levels, s.search, target);
      }
    }
  }

  /** Whatever links are published while a search runs, what it finds in the end are the neighbours the target has
      in the list at the moment of its last read. */
  lemma SearchIsAtomic(run: seq<State>, target: InternalKey, k: nat)
    requires IsRun(run, target) && k + 1 < |run| && run[k].search.At? && run[k+1].search.Found?
    ensures Neighbours(run[k].levels[0], target, run[k+1].search.before, run[k+1].search.atOrAfter)
  {
    RunStaysOnTrack(run, target, k);
    assert Step(run[k], run[k+1], target);
    SearchStepKeeps(run[k].levels, run[k].search, target);
  }

  function KeysOf(ns: seq<Node>): (ks: seq<InternalKey>)
    ensures |ks| == |ns| && forall i :: 0 <= i < |ks| ==> ks[i] == ns[i].entry.key
  {
    seq(|ns|, i requires 0 <= i < |ns| => ns[i].entry.key)
  }

  function KeyLevels(levels: seq<seq<Node>>): (ks: Levels)
    ensures |ks| == |levels| && forall l :: 0 <= l < |ks| ==> ks[l] == KeysOf(levels[l])
  {
    seq(|levels|, l requires 0 <= l < |levels| => KeysOf(levels[l]))
  }

  lemma SkippingKeys(upper: seq<Node>, lower: seq<Node>)
    requires Skips(upper, lower)
    ensures forall k :: k in KeysOf(upper) ==> k in KeysOf(lower)
  {
    forall k | k in KeysOf(upper) ensures k in KeysOf(lower) {
      var i :| 0 <= i < |upper| && KeysOf(upper)[i] == k;
      assert upper[i] in upper;
      var j :| 0 <= j < |lower| && lower[j] == upper[i];
      assert KeysOf(lower)[j] == k;
    }
  }

  lemma ListIsOrdered(head: Node, levels: seq<seq<Node>>, nodes: set<Node>, links: map<Node, seq<Node?>>)
    requires |levels| == MAX_HEIGHT && LevelsOk(head, levels, nodes, links)
    ensures Ordered(KeyLevels(levels))
  {
    var ks := KeyLevels(levels);
    forall l | 1 <= l < MAX_HEIGHT ensures forall k :: k in ks[l] ==> k in ks[l-1] {
      assert Skips(levels[l], levels[l-1]);
      SkippingKeys(levels[l], levels[l-1]);
    }
    forall l | 0 <= l < MAX_HEIGHT ensures KeysAscend(ks[l]) {
      assert Ascending(levels[l]);
    }
  }

  /** What SkipList.Link does is such a step. */
  lemma LinkIsStep(head: Node, before: seq<seq<Node>>, after: seq<seq<Node>>, nodes: set<Node>, known: set<Node>,
                   links: map<Node, seq<Node?>>, relinked: map<Node, seq<Node?>>, l: nat, p: nat, x: Node)
    requires |before| == MAX_HEIGHT && l < MAX_HEIGHT && p <= |before[l]|
    requires after == before[l := Inserted(before[l], p, x)]
    requires LevelsOk(head, before, known, links) && LevelsOk(head, after, nodes, relinked)
    ensures LinkStep(KeyLevels(before), KeyLevels(after), l, p, x.entry.key)
  {
    ListIsOrdered(head, before, known, links);
    ListIsOrdered(head, after, nodes, relinked);
    hide LevelsOk, Ordered;
    var s, t := KeyLevels(before), KeyLevels(after);
    assert t[l] == s[l][..p] + [x.entry.key] + s[l][p..];
    assert t == s[l := t[l]];
  }
}
