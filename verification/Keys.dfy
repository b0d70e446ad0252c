/** Internal keys (db/dbformat.h, db/dbformat.cc).

    A user key is a point of the user comparator's order.  The engine only ever compares user keys, and
    every countable total order embeds into the reals, so `real` stands for the keys of any comparator
    (Comparator.BytewiseRank gives the embedding for the default, bytewise one). */
module Keys {
  datatype Option<+T> = None | Some(value: T)

  newtype byte = x: int | 0 <= x < 256
  type Bytes = seq<byte>

  type UserKey = real

  const MAX_SEQUENCE: nat := 0xFF_FFFF_FFFF_FFFF
  const TYPE_DELETION: Kind := 0
  const TYPE_VALUE: Kind := 1
  const TYPE_FOR_SEEK: Kind := TYPE_VALUE

  type Sequence = s: nat | s <= MAX_SEQUENCE
  /** The low byte of the 8-byte trailer; only 0 and 1 are value types, anything else is corruption. */
  type Kind = k: nat | k < 256

  datatype InternalKey = InternalKey(user: UserKey, sequence: Sequence, kind: Kind) {
    /** The 64-bit number packed behind the user key. */
    function Tag(): nat { sequence * 256 + kind }

    /** ParseInternalKey succeeds. */
    predicate Parses() { kind <= TYPE_VALUE }
  }

  datatype Entry = Entry(key: InternalKey, value: Bytes)

  /** User keys ascending, then packed numbers descending. */
  predicate Less(a: InternalKey, b: InternalKey) {
    a.user < b.user || (a.user == b.user && a.Tag() > b.Tag())
  }

  predicate AtMost(a: InternalKey, b: InternalKey) { !Less(b, a) }

  predicate Sorted(es: seq<Entry>) {
    forall i, j :: 0 <= i < j < |es| ==> Less(es[i].key, es[j].key)
  }

  predicate AllParse(es: seq<Entry>) {
    forall i :: 0 <= i < |es| ==> es[i].key.Parses()
  }

  ghost function Elements(es: seq<Entry>): set<Entry> { set e | e in es }

  /** The key a lookup of `u` at sequence `s` seeks to. */
  function SeekKey(u: UserKey, s: Sequence): InternalKey { InternalKey(u, s, TYPE_FOR_SEEK) }
}
