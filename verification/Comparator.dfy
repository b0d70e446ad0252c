/** The default comparator (util/comparator.cc) and the embedding of its order into the reals. */
module Comparator {
  import opened Keys

  /** memcmp of the common prefix, then the shorter first. */
  predicate BytewiseLess(a: Bytes, b: Bytes) {
    b != [] && (a == [] || a[0] < b[0] || (a[0] == b[0] && BytewiseLess(a[1..], b[1..])))
  }

  /** A byte string as a fraction in base 257, so that the end of the string counts below every byte. */
  function BytewiseRank(s: Bytes): (r: UserKey)
    ensures 0.0 <= r < 1.0
  {
    if s == [] then 0.0 else (s[0] as int as real + 1.0 + BytewiseRank(s[1..])) / 257.0
  }

  /** The embedding keeps the order and tells all strings apart. */
  lemma {:induction false} RankKeepsOrder(a: Bytes, b: Bytes)
    ensures BytewiseLess(a, b) <==> BytewiseRank(a) < BytewiseRank(b)
    ensures a == b <==> BytewiseRank(a) == BytewiseRank(b)
  {
    if a != [] && b != [] {
      RankKeepsOrder(a[1..], b[1..]);
      var x, y := a[0] as int as real, b[0] as int as real;
      if a[0] < b[0] {
        assert x + 1.0 <= y;
      } else if b[0] < a[0] {
        assert y + 1.0 <= x;
      } else {
        assert a == [a[0]] + a[1..] && b == [b[0]] + b[1..];
      }
    }
  }

  /** A difference after a common prefix decides. */
  lemma {:induction false} LessAfterPrefix(prefix: Bytes, a: Bytes, b: Bytes)
    requires BytewiseLess(a, b)
    ensures BytewiseLess(prefix + a, prefix + b)
  {
    if prefix == [] {
      assert prefix + a == a && prefix + b == b;
    } else {
      LessAfterPrefix(prefix[1..], a, b);
      assert (prefix + a)[1..] == prefix[1..] + a && (prefix + b)[1..] == prefix[1..] + b;
    }
  }

  /** Cutting a string after a byte and raising that byte gives a later string. */
  lemma RaisedIsLater(s: Bytes, i: nat, limit: Bytes)
    requires i < |s| && s[i] < 255
    ensures BytewiseLess(s, s[..i] + [s[i] + 1])
    ensures i < |limit| && s[..i] == limit[..i] && s[i] + 1 < limit[i] ==> BytewiseLess(s[..i] + [s[i] + 1], limit)
  {
    assert s == s[..i] + s[i..];
    LessAfterPrefix(s[..i], s[i..], [s[i] + 1]);
    if i < |limit| && s[..i] == limit[..i] && s[i] + 1 < limit[i] {
      assert limit == limit[..i] + limit[i..];
      LessAfterPrefix(s[..i], [s[i] + 1], limit[i..]);
    }
  }

  /** Nothing shorter lies between two strings that agree up to there. */
  lemma {:induction false} ShortestBetween(a: Bytes, i: nat, b: Bytes, t: Bytes)
    requires i < |a| && i < |b| && a[..i] == b[..i] && BytewiseLess(a, t) && BytewiseLess(t, b)
    ensures i < |t|
  {
    if i > 0 {
      assert a[0] == a[..i][0] == b[..i][0] == b[0];
      assert a[1..][..i-1] == a[..i][1..] == b[..i][1..] == b[1..][..i-1];
      ShortestBetween(a[1..], i - 1, b[1..], t[1..]);
    }
  }

  /** The two differ first at `i`, and some byte lies between those there. */
  predicate RoomAt(start: Bytes, limit: Bytes, i: nat) {
    && i < |start| && i < |limit| && start[..i] == limit[..i]
    && start[i] as int + 1 < limit[i] as int
  }

  lemma AgreeBefore(a: Bytes, b: Bytes, n: nat)
    requires n <= |a| && n <= |b| && a[..n] == b[..n]
    ensures forall i :: 0 <= i < n ==> a[i] == b[i]
  {
    assert forall i :: 0 <= i < n ==> a[..n][i] == a[i] && b[..n][i] == b[i];
  }

  lemma RoomIsBehind(start: Bytes, limit: Bytes, n: nat, i: nat)
    requires n <= |start| && n <= |limit| && start[..n] == limit[..n] && RoomAt(start, limit, i)
    ensures n <= i && (n < |start| && n < |limit| && start[n] != limit[n] ==> n == i)
  {
    AgreeBefore(start, limit, n);
    AgreeBefore(start, limit, i);
  }

  /** Where the two differ first the byte is raised by one, if that stays below the limit: no string between the two
      is shorter. */
  method FindShortestSeparator(start: Bytes, limit: Bytes) returns (r: Bytes)
    ensures r == start || (|r| <= |start| && BytewiseLess(start, r) && BytewiseLess(r, limit))
    ensures r != start ==> forall t :: BytewiseLess(start, t) && BytewiseLess(t, limit) ==> |r| <= |t|
    ensures forall i: nat :: RoomAt(start, limit, i) ==> r == start[..i] + [start[i] + 1]
    ensures r != start ==> exists i: nat :: RoomAt(start, limit, i)
  {
    var minLength := if |start| < |limit| then |start| else |limit|;
    var diffIndex := 0;
    while diffIndex < minLength && start[diffIndex] == limit[diffIndex]
      invariant diffIndex <= minLength && start[..diffIndex] == limit[..diffIndex]
    {
      diffIndex := diffIndex + 1;
    }
    r := start;
    forall i: nat | RoomAt(start, limit, i)
      ensures diffIndex <= i && (diffIndex < minLength ==> diffIndex == i)
    {
      RoomIsBehind(start, limit, diffIndex, i);
    }
    if diffIndex < minLength {
      var diffByte := start[diffIndex];
      if diffByte < 255 && diffByte + 1 < limit[diffIndex] {
        RaisedIsLater(start, diffIndex, limit);
        r := start[..diffIndex] + [diffByte + 1];
        assert RoomAt(start, limit, diffIndex);
        forall t | BytewiseLess(start, t) && BytewiseLess(t, limit) ensures |r| <= |t| {
          ShortestBetween(start, diffIndex, limit, t);
        }
      }
    }
  }

  /** Nothing shorter comes after a string that begins with so many bytes 255. */
  lemma {:induction false} ShortestAfter(a: Bytes, i: nat, t: Bytes)
    requires i < |a| && (forall j :: 0 <= j < i ==> a[j] == 255) && BytewiseLess(a, t)
    ensures i < |t|
  {
    if i > 0 {
      assert a[0] == 255;
      ShortestAfter(a[1..], i - 1, t[1..]);
    }
  }

  /** The first byte below 255 is raised by one: no string after `key` is shorter. */
  method FindShortSuccessor(key: Bytes) returns (r: Bytes)
    ensures r == key || (|r| <= |key| && BytewiseLess(key, r))
    ensures r == key <==> forall i :: 0 <= i < |key| ==> key[i] == 255
    ensures r != key ==> forall t :: BytewiseLess(key, t) ==> |r| <= |t|
    ensures forall i :: 0 <= i < |key| && key[i] < 255 ==> |r| <= i + 1
    ensures r != key ==> |r| > 0 && r[..|r|-1] == key[..|r|-1] && r[|r|-1] as int == key[|r|-1] as int + 1
  {
    for i := 0 to |key|
      invariant forall j :: 0 <= j < i ==> key[j] == 255
    {
      if key[i] != 255 {
        RaisedIsLater(key, i, []);
        r := key[..i] + [key[i] + 1];
        assert r[i] != key[i];
        forall t | BytewiseLess(key, t) ensures |r| <= |t| {
          ShortestAfter(key, i, t);
        }
        return;
      }
    }
    r := key;
  }
}
