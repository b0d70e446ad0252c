/** Internal keys as bytes (db/dbformat.cc): the user key, then the packed sequence number and type. */
module DbFormat {
  import opened Keys
  import opened Coding
  import opened Comparator
  import opened BlockFormat

  /** The 8 bytes that follow the user key. */
  const TRAILER: nat := 8

  function EncodeKey(user: Bytes, tag: DoubleWord): Bytes { user + EncodeFixed64(tag) }

  function ExtractUserKey(k: Bytes): Bytes
    requires |k| >= TRAILER
  {
    k[..|k|-TRAILER]
  }

  function ExtractTag(k: Bytes): DoubleWord
    requires |k| >= TRAILER
  {
    DecodeFixed64(k[|k|-TRAILER..])
  }

  /** The internal key that bytes stand for; strings too short for a trailer have the highest tag. */
  function KeyOf(k: Bytes): InternalKey {
    if |k| < TRAILER then InternalKey(BytewiseRank(k), MAX_SEQUENCE, 255)
    else InternalKey(BytewiseRank(ExtractUserKey(k)), ExtractTag(k) / 256, ExtractTag(k) % 256)
  }

  /** InternalKeyComparator::Compare: user keys ascending, then tags descending. */
  function Compare(a: Bytes, b: Bytes): int
    requires |a| >= TRAILER && |b| >= TRAILER
  {
    if BytewiseLess(ExtractUserKey(a), ExtractUserKey(b)) then -1
    else if ExtractUserKey(a) != ExtractUserKey(b) then 1
    else if ExtractTag(a) > ExtractTag(b) then -1
    else if ExtractTag(a) < ExtractTag(b) then 1
    else 0
  }

  function InternalLess(a: Bytes, b: Bytes): bool { Less(KeyOf(a), KeyOf(b)) }

  /** Comparing the bytes is comparing the keys they stand for. */
  lemma CompareIsLess(a: Bytes, b: Bytes)
    requires |a| >= TRAILER && |b| >= TRAILER
    ensures Compare(a, b) < 0 <==> Less(KeyOf(a), KeyOf(b))
    ensures Compare(a, b) > 0 <==> Less(KeyOf(b), KeyOf(a))
    ensures Compare(a, b) == 0 <==> KeyOf(a) == KeyOf(b)
  {
    hide ExtractTag, ExtractUserKey, BytewiseLess, BytewiseRank;
    RankKeepsOrder(ExtractUserKey(a), ExtractUserKey(b));
    RankKeepsOrder(ExtractUserKey(b), ExtractUserKey(a));
  }

  lemma InternalLessOrders()
    ensures IsComparator(InternalLess)
  {
    hide KeyOf;
    assert forall a, b :: InternalLess(a, b) == Less(KeyOf(a), KeyOf(b));
  }

  lemma EncodedKeyOf(user: Bytes, tag: DoubleWord)
    ensures |EncodeKey(user, tag)| >= TRAILER
    ensures ExtractUserKey(EncodeKey(user, tag)) == user && ExtractTag(EncodeKey(user, tag)) == tag
    ensures KeyOf(EncodeKey(user, tag)) == InternalKey(BytewiseRank(user), tag / 256, tag % 256)
  {
    hide EncodeFixed64, DecodeFixed64;
    var k := EncodeKey(user, tag);
    assert k[|k|-TRAILER..] == EncodeFixed64(tag) + [];
    Fixed64RoundTrip(tag, []);
  }

  /** The trailer that sorts first among those of a user key. */
  const SEEK_TAG: DoubleWord := MAX_SEQUENCE * 256 + TYPE_FOR_SEEK

  /** `r` is the key itself, or has a user key strictly between. */
  predicate Separates(start: Bytes, limit: Bytes, r: Bytes) {
    r == start || (KeyOf(start).user < KeyOf(r).user < KeyOf(limit).user)
  }

  method FindShortestSeparator(start: Bytes, limit: Bytes) returns (r: Bytes)
    requires |start| >= TRAILER && |limit| >= TRAILER
    ensures |r| >= TRAILER && |r| <= |start| && Separates(start, limit, r)
    ensures r != start ==> |r| < |start| && ExtractTag(r) == SEEK_TAG
    ensures r != start ==> forall t :: BytewiseLess(ExtractUserKey(start), t) && BytewiseLess(t, ExtractUserKey(limit))
                                       ==> |ExtractUserKey(r)| <= |t|
    ensures forall i: nat :: RoomAt(ExtractUserKey(start), ExtractUserKey(limit), i) && i + 1 < |ExtractUserKey(start)|
                             ==> r != start
  {
    var userStart, userLimit := ExtractUserKey(start), ExtractUserKey(limit);
    var tmp := Comparator.FindShortestSeparator(userStart, userLimit);
    r := start;
    if |tmp| < |userStart| && BytewiseLess(userStart, tmp) {
      RankKeepsOrder(userStart, tmp);
      RankKeepsOrder(tmp, userLimit);
      EncodedKeyOf(tmp, SEEK_TAG);
      r := EncodeKey(tmp, SEEK_TAG);
    }
  }

  method FindShortSuccessor(key: Bytes) returns (r: Bytes)
    requires |key| >= TRAILER
    ensures |r| >= TRAILER && |r| <= |key| && (r == key || KeyOf(key).user < KeyOf(r).user)
    ensures r != key ==> |r| < |key| && ExtractTag(r) == SEEK_TAG
    ensures r != key ==> forall t :: BytewiseLess(ExtractUserKey(key), t) ==> |ExtractUserKey(r)| <= |t|
    ensures forall i :: 0 <= i < |ExtractUserKey(key)| - 1 && ExtractUserKey(key)[i] < 255 ==> r != key
  {
    var userKey := ExtractUserKey(key);
    var tmp := Comparator.FindShortSuccessor(userKey);
    r := key;
    if |tmp| < |userKey| && BytewiseLess(userKey, tmp) {
      RankKeepsOrder(userKey, tmp);
      EncodedKeyOf(tmp, SEEK_TAG);
      r := EncodeKey(tmp, SEEK_TAG);
    }
  }
}
