/** db/skiplist.h: nodes with a pointer for each of their levels. */
module SkipLists {
  import opened Cursors
  import opened Keys

  const MAX_HEIGHT: nat := 12

  class Node {
    const entry: Entry
    /** next[l] is the node after this one at level `l`; the length is the node's height. */
    var next: seq<Node?>

    constructor (entry: Entry, height: nat)
      ensures this.entry == entry && |next| == height
    {
      this.entry := entry;
      next := seq(height, _ => null);
    }
  }

  function Before(head: Node, ns: seq<Node>, i: nat): Node
    requires i <= |ns|
  {
    if i == 0 then head else ns[i-1]
  }

  /** The `l`-th pointer of the node at position `i`, counted from the head, leads to the next one. */
  predicate LinkAt(links: map<Node, seq<Node?>>, head: Node, ns: seq<Node>, l: nat, i: nat)
    requires i <= |ns|
  {
    var n := Before(head, ns, i);
    n in links && l < |links[n]| && links[n][l] == if i < |ns| then ns[i] else null
  }

  /** The links of level `l` run from the head through `ns` to the end. */
  predicate Chain(links: map<Node, seq<Node?>>, head: Node, ns: seq<Node>, l: nat) {
    forall i :: 0 <= i <= |ns| ==> LinkAt(links, head, ns, l, i)
  }

  predicate Ascending(ns: seq<Node>) {
    forall i, j :: 0 <= i < j < |ns| ==> Less(ns[i].entry.key, ns[j].entry.key)
  }

  /** Each level skips some nodes of the level below. */
  predicate Skips(upper: seq<Node>, lower: seq<Node>) {
    forall n :: n in upper ==> n in lower
  }

  /** How many nodes of a level come before the key. */
  predicate Splits(ns: seq<Node>, key: InternalKey, p: nat) {
    && p <= |ns|
    && (forall i :: 0 <= i < p ==> Less(ns[i].entry.key, key))
    && (forall i :: p <= i < |ns| ==> AtMost(key, ns[i].entry.key))
  }

  function EntriesOf(ns: seq<Node>): (es: seq<Entry>)
    ensures |es| == |ns| && forall i :: 0 <= i < |ns| ==> es[i] == ns[i].entry
  {
    seq(|ns|, i requires 0 <= i < |ns| => ns[i].entry)
  }

  /** The key belongs at position `p`. */
  predicate FitsAt(ns: seq<Node>, p: nat, key: InternalKey) {
    && p <= |ns|
    && (p > 0 ==> Less(ns[p-1].entry.key, key))
    && (p < |ns| ==> Less(key, ns[p].entry.key))
  }

  function Inserted(ns: seq<Node>, p: nat, x: Node): seq<Node>
    requires p <= |ns|
  {
    ns[..p] + [x] + ns[p..]
  }

  ghost predicate LevelsOk(head: Node, levels: seq<seq<Node>>, nodes: set<Node>, links: map<Node, seq<Node?>>)
    requires |levels| == MAX_HEIGHT
  {
    && head !in nodes
    && (forall l :: 0 <= l < MAX_HEIGHT ==> forall n :: n in levels[l] ==> n in nodes)
    && (forall n :: n in nodes ==> n in levels[0])
    && (forall l :: 0 <= l < MAX_HEIGHT ==> Ascending(levels[l]))
    && (forall l :: 0 <= l < MAX_HEIGHT ==> Chain(links, head, levels[l], l))
    && (forall l :: 1 <= l < MAX_HEIGHT ==> Skips(levels[l], levels[l-1]))
  }

  class SkipList {
    const head: Node
    var maxHeight: nat
    /** The nodes of each level, in order. */
    ghost var levels: seq<seq<Node>>
    ghost var nodes: set<Node>

    /** What readers rely on at any time, between any two links of an insertion. */
    ghost predicate Valid()
      reads this, head, nodes
    {
      && |levels| == MAX_HEIGHT && 1 <= maxHeight <= MAX_HEIGHT
      && (forall l :: maxHeight <= l < MAX_HEIGHT ==> levels[l] == [])
      && LevelsOk(head, levels, nodes, Links())
    }

    /** The pointers of every node. */
    ghost function Links(): map<Node, seq<Node?>>
      reads this, head, nodes
    {
      map n | n in nodes + {head} :: n.next
    }

    ghost function Entries(): (es: seq<Entry>)
      requires Valid()
      reads this, head, nodes
      ensures Sorted(es)
    {
      EntriesOf(levels[0])
    }

    constructor ()
      ensures Valid() && Entries() == [] && fresh(this) && fresh(head) && fresh(nodes)
    {
      head := new Node(Entry(InternalKey(0.0, 0, TYPE_VALUE), []), MAX_HEIGHT);
      maxHeight := 1;
      levels := seq(MAX_HEIGHT, _ => []);
      nodes := {};
      new;
      head.next := seq(MAX_HEIGHT, _ => null);
    }

    /** The earliest node at or after the key; prev[l] is the last node before the key at level `l`, and `ps[l]` its
        position. */
    method FindGreaterOrEqual(key: InternalKey) returns (node: Node?, prev: seq<Node>, ghost ps: seq<nat>)
      requires Valid()
      ensures |prev| == |ps| == maxHeight
      ensures forall l :: 0 <= l < maxHeight ==> ps[l] <= |levels[l]| && prev[l] == Before(head, levels[l], ps[l])
      ensures forall l :: 0 <= l < maxHeight ==> Splits(levels[l], key, ps[l])
      ensures node == if ps[0] < |levels[0]| then levels[0][ps[0]] else null
    {
      hide Chain, Ascending, Skips, Splits;
      var x := head;
      var level := maxHeight - 1;
      ghost var p: nat := 0;
      prev, ps := [], [];
      while true
        invariant 0 <= level < maxHeight && p <= |levels[level]| && x == Before(head, levels[level], p)
        invariant p > 0 ==> Less(x.entry.key, key)
        invariant |prev| == |ps| == maxHeight - 1 - level
        invariant forall l :: level < l < maxHeight ==>
                    && Splits(levels[l], key, ps[l - level - 1]) && ps[l - level - 1] <= |levels[l]|
                    && prev[l - level - 1] == Before(head, levels[l], ps[l - level - 1])
        decreases level, |levels[level]| - p
      {
        NextInChain(Links(), head, levels[level], level, p);
        var next := x.next[level];
        if next != null && Less(next.entry.key, key) {
          x := next;
          p := p + 1;
        } else {
          SplitsHere(levels[level], key, p);
          prev, ps := [x] + prev, [p] + ps;
          if level == 0 {
            node := next;
            return;
          }
          p := StepDown(head, levels[level], levels[level-1], p, x);
          level := level - 1;
        }
      }
    }

    /** The last node before the key, or the head. */
    method FindLessThan(key: InternalKey) returns (x: Node, ghost p: nat)
      requires Valid()
      ensures p <= |levels[0]| && x == Before(head, levels[0], p) && Splits(levels[0], key, p)
    {
      hide Chain, Ascending, Skips, Splits;
      x := head;
      var level := maxHeight - 1;
      p := 0;
      while true
        invariant 0 <= level < maxHeight && p <= |levels[level]| && x == Before(head, levels[level], p)
        invariant p > 0 ==> Less(x.entry.key, key)
        decreases level, |levels[level]| - p
      {
        NextInChain(Links(), head, levels[level], level, p);
        var next := x.next[level];
        if next == null || AtMost(key, next.entry.key) {
          if level == 0 {
            SplitsHere(levels[0], key, p);
            return;
          }
          p := StepDown(head, levels[level], levels[level-1], p, x);
          level := level - 1;
        } else {
          x := next;
          p := p + 1;
        }
      }
    }

    /** The last node, or the head. */
    method FindLast() returns (x: Node)
      requires Valid()
      ensures x == Before(head, levels[0], |levels[0]|)
    {
      hide Chain, Ascending, Skips;
      x := head;
      var level := maxHeight - 1;
      ghost var p: nat := 0;
      while true
        invariant 0 <= level < maxHeight && p <= |levels[level]| && x == Before(head, levels[level], p)
        decreases level, |levels[level]| - p
      {
        NextInChain(Links(), head, levels[level], level, p);
        var next := x.next[level];
        if next == null {
          if level == 0 {
            return;
          }
          p := StepDown(head, levels[level], levels[level-1], p, x);
          level := level - 1;
        } else {
          x := next;
          p := p + 1;
        }
      }
    }

    method Contains(key: InternalKey) returns (found: bool)
      requires Valid()
      ensures found <==> exists e :: e in Entries() && e.key == key
    {
      hide Chain, Ascending, Skips;
      var node, _, ps := FindGreaterOrEqual(key);
      assert Splits(levels[0], key, ps[0]);
      if node != null && node.entry.key == key {
        assert Entries()[ps[0]].key == key;
        return true;
      }
      AbsentKey(levels[0], key, ps[0]);
      return false;
    }

    /** Publishes `x` at level `l`, behind `prev`. */
    method Link(l: nat, x: Node, prev: Node, ghost p: nat)
      requires Valid() && l < maxHeight && x != head && l < |x.next| && p <= |levels[l]|
      requires prev == Before(head, levels[l], p)
      requires FitsAt(levels[l], p, x.entry.key)
      requires if l == 0 then x !in nodes else x in levels[l-1]
      modifies this, x, prev
      ensures Valid() && levels == old(levels)[l := Inserted(old(levels[l]), p, x)] && nodes == old(nodes) + {x}
      ensures maxHeight == old(maxHeight) && |x.next| == old(|x.next|)
    {
      hide LevelsOk, FitsAt;
      ghost var links := Links();
      HasPointer(head, levels, nodes, links, l, p);
      x.next := x.next[l := prev.next[l]];
      prev.next := prev.next[l := x];
      levels := levels[l := Inserted(levels[l], p, x)];
      nodes := nodes + {x};
      LinkKeepsLevels(head, old(levels), old(nodes), links, Links(), l, p, x, prev);
    }

    /** `height` is the random height. */
    method Insert(entry: Entry, height: nat)
      requires Valid() && 1 <= height <= MAX_HEIGHT
      requires forall e :: e in Entries() ==> e.key != entry.key
      modifies this, head, nodes
      ensures Valid() && fresh(nodes - old(nodes))
      ensures Elements(Entries()) == old(Elements(Entries())) + {entry} && |Entries()| == old(|Entries()|) + 1
      ensures forall l :: 0 <= l < height ==>
                Elements(EntriesOf(levels[l])) == Elements(EntriesOf(old(levels)[l])) + {entry}
      ensures forall l :: height <= l < MAX_HEIGHT ==> levels[l] == old(levels)[l]
    {
      hide Chain, Skips, Ascending, Splits;
      var node, prev, ps := FindGreaterOrEqual(entry.key);
      NoDuplicate(levels, maxHeight, nodes, entry.key, ps);
      hide FitsAt;
      EmptyFits(entry.key);
      ghost var links := Links();
      if height > maxHeight {
        prev := prev + seq(height - maxHeight, _ => head);
        ps := ps + seq(height - maxHeight, _ => 0);
        maxHeight := height;
      }
      var x := new Node(entry, height);
      assert Links() == links;
      assert Valid();
      ghost var before := levels;
      LinkAll(x, height, prev, ps);
      forall l | 0 <= l < height ensures Elements(EntriesOf(levels[l])) == Elements(EntriesOf(before[l])) + {entry} {
        InsertedElements(before[l], ps[l], x);
      }
    }

    /** Publishes `x` level by level, the lowest first. */
    method LinkAll(x: Node, height: nat, prev: seq<Node>, ghost ps: seq<nat>)
      requires Valid() && 1 <= height <= maxHeight && x != head && x !in nodes && |x.next| == height
      requires |prev| == |ps| >= height
      requires forall l :: 0 <= l < height ==> ps[l] <= |levels[l]| && prev[l] == Before(head, levels[l], ps[l])
      requires forall l :: 0 <= l < height ==> FitsAt(levels[l], ps[l], x.entry.key)
      modifies this, x, head, nodes
      ensures Valid() && nodes == old(nodes) + {x}
      ensures forall l :: 0 <= l < MAX_HEIGHT ==>
                levels[l] == if l < height then Inserted(old(levels[l]), ps[l], x) else old(levels[l])
    {
      hide Chain, Skips, Ascending, FitsAt;
      ghost var before, known := levels, nodes;
      for i := 0 to height
        invariant Valid() && maxHeight == old(maxHeight) && |x.next| == height
        invariant nodes == known + if i > 0 then {x} else {}
        invariant forall l :: 0 <= l < MAX_HEIGHT ==> levels[l] == if l < i then Inserted(before[l], ps[l], x) else before[l]
      {
        if i > 0 {
          HoldsInserted(before[i-1], ps[i-1], x);
        }
        Link(i, x, prev[i], ps[i]);
      }
    }
  }

  lemma EmptyFits(key: InternalKey)
    ensures FitsAt([], 0, key)
  {
  }

  lemma HoldsInserted(ns: seq<Node>, p: nat, x: Node)
    requires p <= |ns|
    ensures x in Inserted(ns, p, x)
  {
    assert Inserted(ns, p, x)[p] == x;
  }

  lemma InsertedElements(ns: seq<Node>, p: nat, x: Node)
    requires p <= |ns|
    ensures Elements(EntriesOf(Inserted(ns, p, x))) == Elements(EntriesOf(ns)) + {x.entry}
  {
    var a, r := EntriesOf(ns), EntriesOf(Inserted(ns, p, x));
    assert r[p] == x.entry;
    forall i | 0 <= i < |ns| ensures a[i] in r {
      assert r[if i < p then i else i + 1] == a[i];
    }
  }

  lemma KeysCompare(a: InternalKey, b: InternalKey)
    ensures a == b || Less(a, b) || Less(b, a)
  {
  }

  /** The nodes around a new key's place compare strictly. */
  lemma NoDuplicate(levels: seq<seq<Node>>, maxHeight: nat, nodes: set<Node>, key: InternalKey, ps: seq<nat>)
    requires |levels| == MAX_HEIGHT >= maxHeight == |ps|
    requires forall l, n :: 0 <= l < maxHeight && n in levels[l] ==> n in nodes
    requires forall n :: n in nodes ==> n.entry.key != key
    requires forall l :: 0 <= l < maxHeight ==> Splits(levels[l], key, ps[l])
    ensures forall l :: 0 <= l < maxHeight ==> ps[l] <= |levels[l]| && FitsAt(levels[l], ps[l], key)
  {
    forall l | 0 <= l < maxHeight ensures FitsAt(levels[l], ps[l], key) {
      if ps[l] < |levels[l]| {
        assert levels[l][ps[l]] in nodes;
        KeysCompare(key, levels[l][ps[l]].entry.key);
      }
    }
  }

  /** The new node is one more in either level, and in the lower one if in the upper. */
  lemma SkipsStill(upper: seq<Node>, lower: seq<Node>, newUpper: seq<Node>, newLower: seq<Node>, x: Node)
    requires Skips(upper, lower)
    requires forall n :: n in newUpper ==> n in upper || n == x
    requires forall n :: n in lower ==> n in newLower
    requires x in newUpper && x !in upper ==> x in newLower
    ensures Skips(newUpper, newLower)
  {
  }

  lemma SkipsAfterLink(before: seq<seq<Node>>, levels: seq<seq<Node>>, l: nat, p: nat, x: Node)
    requires |before| == MAX_HEIGHT && l < MAX_HEIGHT && p <= |before[l]| && levels == before[l := Inserted(before[l], p, x)]
    requires forall k :: 1 <= k < MAX_HEIGHT ==> Skips(before[k], before[k-1])
    requires l > 0 ==> x in before[l-1]
    requires forall n :: n in Inserted(before[l], p, x) <==> n in before[l] || n == x
    ensures forall k :: 1 <= k < MAX_HEIGHT ==> Skips(levels[k], levels[k-1])
  {
    forall k | 1 <= k < MAX_HEIGHT ensures Skips(levels[k], levels[k-1]) {
      SkipsStill(before[k], before[k-1], levels[k], levels[k-1], x);
    }
  }

  /** Pointer `l` of `prev` now leads to `x`, and that of `x` to where it led; nothing else changed. */
  ghost predicate Relinked(links: map<Node, seq<Node?>>, after: map<Node, seq<Node?>>, l: nat, x: Node, prev: Node) {
    && x in after && l < |after[x]| && prev in links && prev in after && l < |links[prev]| && prev != x
    && after[x][l] == links[prev][l] && after[prev] == links[prev][l := x]
    && (x in links ==> l < |links[x]| && after[x] == links[x][l := links[prev][l]])
    && (forall n :: n in links && n != x && n != prev ==> n in after && after[n] == links[n])
  }

  lemma OtherChain(links: map<Node, seq<Node?>>, after: map<Node, seq<Node?>>, head: Node, ns: seq<Node>, k: nat,
                   l: nat, x: Node, prev: Node)
    requires Relinked(links, after, l, x, prev) && Chain(links, head, ns, k) && k != l
    ensures Chain(after, head, ns, k)
  {
    forall i: nat | i <= |ns| ensures LinkAt(after, head, ns, k, i) {
      assert LinkAt(links, head, ns, k, i);
    }
  }

  lemma LinkedChain(links: map<Node, seq<Node?>>, after: map<Node, seq<Node?>>, head: Node, ns: seq<Node>, l: nat,
                    p: nat, x: Node, prev: Node)
    requires Relinked(links, after, l, x, prev) && Chain(links, head, ns, l) && p <= |ns| && prev == Before(head, ns, p)
    requires forall i :: 0 <= i <= |ns| && i != p ==> Before(head, ns, i) != prev
    requires x !in ns && x != head
    ensures Chain(after, head, Inserted(ns, p, x), l)
  {
    var r := Inserted(ns, p, x);
    forall i: nat | i <= |r| ensures LinkAt(after, head, r, l, i) {
      InsertedBefore(head, ns, p, x, i);
      var j := if i <= p then i else i - 1;
      assert LinkAt(links, head, ns, l, j) && (j > 0 ==> ns[j-1] in ns);
      assert LinkAt(links, head, ns, l, p);
    }
  }

  /** `x` enters that level alone. */
  lemma ChainsAfterLink(links: map<Node, seq<Node?>>, after: map<Node, seq<Node?>>, head: Node, before: seq<seq<Node>>,
                        levels: seq<seq<Node>>, l: nat, p: nat, x: Node, prev: Node)
    requires |before| == MAX_HEIGHT && l < MAX_HEIGHT && p <= |before[l]| && prev == Before(head, before[l], p)
    requires levels == before[l := Inserted(before[l], p, x)]
    requires forall k :: 0 <= k < MAX_HEIGHT ==> Chain(links, head, before[k], k)
    requires forall i :: 0 <= i <= |before[l]| && i != p ==> Before(head, before[l], i) != prev
    requires x !in before[l] && x != head && Relinked(links, after, l, x, prev)
    ensures forall k :: 0 <= k < MAX_HEIGHT ==> Chain(after, head, levels[k], k)
  {
    hide Chain, Relinked;
    forall k | 0 <= k < MAX_HEIGHT ensures Chain(after, head, levels[k], k) {
      if k == l {
        LinkedChain(links, after, head, before[l], l, p, x, prev);
      } else {
        OtherChain(links, after, head, before[k], k, l, x, prev);
      }
    }
  }

  lemma HasPointer(head: Node, levels: seq<seq<Node>>, nodes: set<Node>, links: map<Node, seq<Node?>>, l: nat, p: nat)
    requires |levels| == MAX_HEIGHT > l && LevelsOk(head, levels, nodes, links) && p <= |levels[l]|
    ensures var x := Before(head, levels[l], p);
      && x in nodes + {head} && x in links && l < |links[x]|
      && links[x][l] == if p < |levels[l]| then levels[l][p] else null
  {
    NextInChain(links, head, levels[l], l, p);
    assert p > 0 ==> levels[l][p-1] in nodes;
  }

  lemma LinkKeepsLevels(head: Node, before: seq<seq<Node>>, nodes: set<Node>, links: map<Node, seq<Node?>>,
                        after: map<Node, seq<Node?>>, l: nat, p: nat, x: Node, prev: Node)
    requires |before| == MAX_HEIGHT && l < MAX_HEIGHT && LevelsOk(head, before, nodes, links)
    requires x != head && p <= |before[l]| && prev == Before(head, before[l], p)
    requires FitsAt(before[l], p, x.entry.key) && if l == 0 then x !in nodes else x in before[l-1]
    requires x in after && l < |after[x]| && prev in links && prev in after && l < |links[prev]|
    requires x != prev ==> after[x][l] == links[prev][l] && after[prev] == links[prev][l := x]
    requires x in links && x != prev ==> l < |links[x]| && after[x] == links[x][l := links[prev][l]]
    requires forall n :: n in links && n != x && n != prev ==> n in after && after[n] == links[n]
    ensures LevelsOk(head, before[l := Inserted(before[l], p, x)], nodes + {x}, after)
  {
    hide Chain, Skips, FitsAt, Ascending;
    var ns, levels := before[l], before[l := Inserted(before[l], p, x)];
    Distinct(head, ns, nodes, p);
    InsertedAscends(ns, p, x);
    assert p > 0 ==> ns[p-1] in ns;
    ChainsAfterLink(links, after, head, before, levels, l, p, x, prev);
    SkipsAfterLink(before, levels, l, p, x);
  }

  lemma AbsentKey(ns: seq<Node>, key: InternalKey, p: nat)
    requires Ascending(ns) && Splits(ns, key, p) && (p < |ns| ==> ns[p].entry.key != key)
    ensures forall e :: e in EntriesOf(ns) ==> e.key != key
  {
    forall i | 0 <= i < |ns| ensures EntriesOf(ns)[i].key != key {
      if i >= p {
        KeysCompare(ns[p].entry.key, key);
      }
    }
  }

  /** SkipList::Iterator. */
  class Iterator {
    const list: SkipList
    var node: Node?
    /** The node's position in the list; the list's length when there is no node. */
    ghost var pos: nat

    ghost predicate Ok()
      reads this, list, list.head, list.nodes
    {
      && list.Valid() && pos <= |list.levels[0]|
      && node == if pos < |list.levels[0]| then list.levels[0][pos] else null
    }

    predicate Valid()
      reads this
    {
      node != null
    }

    constructor (list: SkipList)
      requires list.Valid()
      ensures Ok() && !Valid() && this.list == list
    {
      this.list := list;
      node := null;
      pos := |list.levels[0]|;
    }

    function Current(): (e: Entry)
      requires Ok() && Valid()
      reads this, list, list.head, list.nodes
      ensures e == list.Entries()[pos]
    {
      node.entry
    }

    method Next()
      requires Ok() && Valid()
      modifies this
      ensures Ok() && pos == old(pos) + 1
    {
      hide Chain, Ascending, Skips;
      NextInChain(list.Links(), list.head, list.levels[0], 0, pos + 1);
      node := node.next[0];
      pos := pos + 1;
    }

    /** There are no links back: Prev searches for the last node before this one's key. */
    method Prev()
      requires Ok() && Valid()
      modifies this
      ensures Ok() && pos == StepBack(old(pos), |list.Entries()|)
    {
      hide Chain, Skips;
      ghost var p;
      ghost var key := node.entry.key;
      node, p := list.FindLessThan(node.entry.key);
      OnlySplit(list.levels[0], key, p, pos);
      if node == list.head {
        HeadIsFirst(list.head, list.levels[0], list.nodes, p);
        node := null;
      }
      pos := StepBack(pos, |list.levels[0]|);
    }

    method Seek(target: InternalKey)
      requires Ok()
      modifies this
      ensures Ok() && IsSeek(list.Entries(), target, pos)
    {
      hide Chain, Ascending, Skips;
      var found, _, ps := list.FindGreaterOrEqual(target);
      node := found;
      pos := ps[0];
      assert Splits(list.levels[0], target, pos);
    }

    method SeekToFirst()
      requires Ok()
      modifies this
      ensures Ok() && pos == 0
    {
      hide Chain, Ascending, Skips;
      NextInChain(list.Links(), list.head, list.levels[0], 0, 0);
      node := list.head.next[0];
      pos := 0;
    }

    method SeekToLast()
      requires Ok()
      modifies this
      ensures Ok() && pos == LastPosition(|list.Entries()|)
    {
      hide Chain, Ascending, Skips;
      node := list.FindLast();
      HeadIsFirst(list.head, list.levels[0], list.nodes, |list.levels[0]|);
      if node == list.head {
        node := null;
      }
      pos := LastPosition(|list.levels[0]|);
    }
  }

  lemma HeadIsFirst(head: Node, ns: seq<Node>, nodes: set<Node>, p: nat)
    requires head !in nodes && (forall n :: n in ns ==> n in nodes) && p <= |ns|
    ensures Before(head, ns, p) == head <==> p == 0
  {
    assert p > 0 ==> ns[p-1] in nodes;
  }

  lemma OnlySplit(ns: seq<Node>, key: InternalKey, p: nat, q: nat)
    requires Ascending(ns) && Splits(ns, key, p) && q < |ns| && ns[q].entry.key == key
    ensures p == q
  {
    assert forall i :: 0 <= i < q ==> Less(ns[i].entry.key, ns[q].entry.key);
    assert p < |ns| ==> AtMost(key, ns[p].entry.key);
  }

  lemma NextInChain(links: map<Node, seq<Node?>>, head: Node, ns: seq<Node>, l: nat, p: nat)
    requires Chain(links, head, ns, l) && p <= |ns|
    ensures var x := Before(head, ns, p);
      x in links && l < |links[x]| && links[x][l] == if p < |ns| then ns[p] else null
  {
    assert LinkAt(links, head, ns, l, p);
  }

  lemma Distinct(head: Node, ns: seq<Node>, nodes: set<Node>, p: nat)
    requires Ascending(ns) && head !in nodes && (forall n :: n in ns ==> n in nodes) && p <= |ns|
    ensures forall i :: 0 <= i <= |ns| && i != p ==> Before(head, ns, i) != Before(head, ns, p)
  {
    forall i | 0 <= i <= |ns| && i != p ensures Before(head, ns, i) != Before(head, ns, p) {
      assert i > 0 ==> ns[i-1] in nodes;
      assert p > 0 ==> ns[p-1] in nodes;
    }
  }

  lemma InsertedBefore(head: Node, ns: seq<Node>, p: nat, x: Node, i: nat)
    requires p <= |ns| && i <= |ns| + 1
    ensures Before(head, Inserted(ns, p, x), i)
         == if i <= p then Before(head, ns, i) else if i == p + 1 then x else Before(head, ns, i - 1)
  {
  }

  lemma InsertedAscends(ns: seq<Node>, p: nat, x: Node)
    requires Ascending(ns) && FitsAt(ns, p, x.entry.key)
    ensures Ascending(Inserted(ns, p, x)) && x !in ns
    ensures forall n :: n in Inserted(ns, p, x) <==> n in ns || n == x
  {
    var r := Inserted(ns, p, x);
    assert forall i :: 0 <= i < p ==> Less(ns[i].entry.key, x.entry.key);
    assert forall i :: p <= i < |ns| ==> Less(x.entry.key, ns[i].entry.key);
    forall n | n in ns ensures n in r {
      var i :| 0 <= i < |ns| && ns[i] == n;
      assert r[if i < p then i else i + 1] == n;
    }
    assert r[p] == x;
  }

  /** A node before the key with none before the key after it. */
  lemma SplitsHere(ns: seq<Node>, key: InternalKey, p: nat)
    requires Ascending(ns) && p <= |ns|
    requires p > 0 ==> Less(ns[p-1].entry.key, key)
    requires p < |ns| ==> AtMost(key, ns[p].entry.key)
    ensures Splits(ns, key, p)
  {
  }

  /** The node is in the level below as well. */
  lemma StepDown(head: Node, upper: seq<Node>, lower: seq<Node>, p: nat, x: Node) returns (q: nat)
    requires Skips(upper, lower) && p <= |upper| && x == Before(head, upper, p)
    ensures q <= |lower| && x == Before(head, lower, q) && (q > 0 <==> p > 0)
  {
    if p == 0 {
      q := 0;
    } else {
      assert upper[p-1] in lower;
      var i :| 0 <= i < |lower| && lower[i] == x;
      q := i + 1;
    }
  }
}
