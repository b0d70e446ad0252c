/** Version edits as bytes (db/version_edit.cc). */
module VersionEdits {
  import opened Keys
  import opened Coding
  import opened Versions

  datatype FileMeta = FileMeta(number: DoubleWord, fileSize: DoubleWord, smallest: Bytes, largest: Bytes)

  /** One tagged field of an edit.  The levels are C ints, written as 32-bit numbers. */
  datatype Field =
    | ComparatorName(name: Bytes)
    | LogNumber(number: DoubleWord)
    | PrevLogNumber(number: DoubleWord)
    | NextFileNumber(number: DoubleWord)
    | LastSequence(number: DoubleWord)
    | CompactPointer(level: Word, key: Bytes)
    | DeletedFile(level: Word, number: DoubleWord)
    | NewFile(level: Word, file: FileMeta)
  {
    /** Strings are short enough for their lengths to be written. */
    predicate Fits() {
      match this {
        case ComparatorName(name) => |name| < 0x1_0000_0000
        case CompactPointer(_, key) => |key| < 0x1_0000_0000
        case NewFile(_, f) => |f.smallest| < 0x1_0000_0000 && |f.largest| < 0x1_0000_0000
        case _ => true
      }
    }

    predicate LevelOk() {
      match this {
        case CompactPointer(l, _) => l < NUM_LEVELS
        case DeletedFile(l, _) => l < NUM_LEVELS
        case NewFile(l, _) => l < NUM_LEVELS
        case _ => true
      }
    }

    function Tag(): (t: Word)
      ensures 0 < t < 10
    {
      match this {
        case ComparatorName(_) => 1
        case LogNumber(_) => 2
        case NextFileNumber(_) => 3
        case LastSequence(_) => 4
        case CompactPointer(_, _) => 5
        case DeletedFile(_, _) => 6
        case NewFile(_, _) => 7
        case PrevLogNumber(_) => 9
      }
    }
  }

  datatype Edit = Edit(comparator: Option<Bytes>, logNumber: Option<DoubleWord>, prevLogNumber: Option<DoubleWord>,
                       nextFileNumber: Option<DoubleWord>, lastSequence: Option<DoubleWord>,
                       compactPointers: seq<(Word, Bytes)>, deletedFiles: seq<(Word, DoubleWord)>,
                       newFiles: seq<(Word, FileMeta)>)

  const EMPTY_EDIT := Edit(None, None, None, None, None, [], [], [])

  predicate PairLess(a: (Word, DoubleWord), b: (Word, DoubleWord)) {
    a.0 < b.0 || (a.0 == b.0 && a.1 < b.1)
  }

  /** The order in which a std::set of pairs is iterated. */
  predicate Ascending(ps: seq<(Word, DoubleWord)>) {
    forall i, j :: 0 <= i < j < |ps| ==> PairLess(ps[i], ps[j])
  }

  /** std::set::insert */
  function InsertPair(p: (Word, DoubleWord), ps: seq<(Word, DoubleWord)>): (r: seq<(Word, DoubleWord)>)
    requires Ascending(ps)
    ensures Ascending(r) && forall q :: q in r <==> q == p || q in ps
  {
    if ps == [] then [p]
    else if PairLess(p, ps[0]) then [p] + ps
    else if p == ps[0] then ps
    else
      var tail := InsertPair(p, ps[1..]);
      assert forall j :: 0 <= j < |tail| ==> tail[j] in tail;
      assert forall q :: q in ps <==> q == ps[0] || q in ps[1..];
      [ps[0]] + tail
  }

  lemma {:induction false} InsertLast(p: (Word, DoubleWord), ps: seq<(Word, DoubleWord)>)
    requires Ascending(ps + [p])
    ensures Ascending(ps) && InsertPair(p, ps) == ps + [p]
  {
    forall i, j | 0 <= i < j < |ps| ensures PairLess(ps[i], ps[j]) {
      assert (ps + [p])[i] == ps[i] && (ps + [p])[j] == ps[j];
    }
    if ps != [] {
      assert PairLess((ps + [p])[0], (ps + [p])[|ps|]);
      assert (ps + [p])[1..] == ps[1..] + [p];
      InsertLast(p, ps[1..]);
    }
  }

  // ----- Encoding -----

  function EncodeBody(f: Field): Bytes {
    match f {
      case ComparatorName(name) => LengthPrefixed(name)
      case LogNumber(n) => EncodeVarint(n)
      case PrevLogNumber(n) => EncodeVarint(n)
      case NextFileNumber(n) => EncodeVarint(n)
      case LastSequence(n) => EncodeVarint(n)
      case CompactPointer(level, key) => EncodeVarint(level) + LengthPrefixed(key)
      case DeletedFile(level, n) => EncodeVarint(level) + EncodeVarint(n)
      case NewFile(level, f) =>
        EncodeVarint(level) + EncodeVarint(f.number) + EncodeVarint(f.fileSize)
        + LengthPrefixed(f.smallest) + LengthPrefixed(f.largest)
    }
  }

  function EncodeFields(fs: seq<Field>): Bytes {
    if fs == [] then [] else EncodeVarint(fs[0].Tag()) + EncodeBody(fs[0]) + EncodeFields(fs[1..])
  }

  lemma {:induction false} EncodeAppend(a: seq<Field>, b: seq<Field>)
    ensures EncodeFields(a + b) == EncodeFields(a) + EncodeFields(b)
  {
    if a == [] {
      assert a + b == b;
    } else {
      assert (a + b)[1..] == a[1..] + b;
      EncodeAppend(a[1..], b);
    }
  }

  /** A field that is there, or nothing. */
  function Opt(f: Option<Field>): seq<Field> { if f.Some? then [f.value] else [] }

  function NameField(e: Edit): Option<Field> { if e.comparator.Some? then Some(ComparatorName(e.comparator.value)) else None }
  function LogField(e: Edit): Option<Field> { if e.logNumber.Some? then Some(LogNumber(e.logNumber.value)) else None }
  function PrevLogField(e: Edit): Option<Field> {
    if e.prevLogNumber.Some? then Some(PrevLogNumber(e.prevLogNumber.value)) else None
  }
  function NextFileField(e: Edit): Option<Field> {
    if e.nextFileNumber.Some? then Some(NextFileNumber(e.nextFileNumber.value)) else None
  }
  function SequenceField(e: Edit): Option<Field> {
    if e.lastSequence.Some? then Some(LastSequence(e.lastSequence.value)) else None
  }

  function ScalarFields(e: Edit): seq<Field> {
    Opt(NameField(e)) + Opt(LogField(e)) + Opt(PrevLogField(e)) + Opt(NextFileField(e)) + Opt(SequenceField(e))
  }

  function PointerFields(ps: seq<(Word, Bytes)>): seq<Field> {
    seq(|ps|, i requires 0 <= i < |ps| => CompactPointer(ps[i].0, ps[i].1))
  }

  function DeletedFields(ps: seq<(Word, DoubleWord)>): seq<Field> {
    seq(|ps|, i requires 0 <= i < |ps| => DeletedFile(ps[i].0, ps[i].1))
  }

  function NewFields(ps: seq<(Word, FileMeta)>): seq<Field> {
    seq(|ps|, i requires 0 <= i < |ps| => NewFile(ps[i].0, ps[i].1))
  }

  /** The fields of an edit in the order in which they are written. */
  function FieldsOf(e: Edit): seq<Field> {
    ScalarFields(e) + PointerFields(e.compactPointers) + DeletedFields(e.deletedFiles) + NewFields(e.newFiles)
  }

  // ----- Decoding -----

  function GetLevel(b: Bytes): (r: Option<(Word, Bytes)>)
    ensures r.Some? ==> |r.value.1| < |b|
  {
    match GetVarint32(b) {
      case None => None
      case Some(v) => if v.0 < NUM_LEVELS then Some(v) else None
    }
  }

  function DecodeBody(tag: Word, b: Bytes): (r: Option<(Field, Bytes)>)
    ensures r.Some? ==> |r.value.1| < |b|
  {
    if tag == 1 then
      match GetLengthPrefixed(b) { case None => None case Some(s) => Some((ComparatorName(s.0), s.1)) }
    else if tag == 2 then
      match GetVarint64(b) { case None => None case Some(n) => Some((LogNumber(n.0), n.1)) }
    else if tag == 9 then
      match GetVarint64(b) { case None => None case Some(n) => Some((PrevLogNumber(n.0), n.1)) }
    else if tag == 3 then
      match GetVarint64(b) { case None => None case Some(n) => Some((NextFileNumber(n.0), n.1)) }
    else if tag == 4 then
      match GetVarint64(b) { case None => None case Some(n) => Some((LastSequence(n.0), n.1)) }
    else if tag == 5 then
      match GetLevel(b) {
        case None => None
        case Some(l) =>
          match GetLengthPrefixed(l.1) { case None => None case Some(s) => Some((CompactPointer(l.0, s.0), s.1)) }
      }
    else if tag == 6 then
      match GetLevel(b) {
        case None => None
        case Some(l) =>
          match GetVarint64(l.1) { case None => None case Some(n) => Some((DeletedFile(l.0, n.0), n.1)) }
      }
    else if tag == 7 then DecodeNewFile(b)
    else None
  }

  function DecodeNewFile(b: Bytes): (r: Option<(Field, Bytes)>)
    ensures r.Some? ==> |r.value.1| < |b|
  {
    match GetLevel(b) {
      case None => None
      case Some(l) =>
        match GetVarint64(l.1) {
          case None => None
          case Some(n) =>
            match GetVarint64(n.1) {
              case None => None
              case Some(z) =>
                match GetLengthPrefixed(z.1) {
                  case None => None
                  case Some(s) =>
                    match GetLengthPrefixed(s.1) {
                      case None => None
                      case Some(t) => Some((NewFile(l.0, FileMeta(n.0, z.0, s.0, t.0)), t.1))
                    }
                }
            }
        }
    }
  }

  lemma BodyRoundTrip(f: Field, rest: Bytes)
    requires f.Fits() && f.LevelOk()
    ensures DecodeBody(f.Tag(), EncodeBody(f) + rest) == Some((f, rest))
  {
    hide EncodeVarint, GetVarint32, GetVarint64, LengthPrefixed, GetLengthPrefixed;
    match f {
      case ComparatorName(name) => LengthPrefixedRoundTrip(name, rest);
      case LogNumber(n) => Varint64RoundTrip(n, rest);
      case PrevLogNumber(n) => Varint64RoundTrip(n, rest);
      case NextFileNumber(n) => Varint64RoundTrip(n, rest);
      case LastSequence(n) => Varint64RoundTrip(n, rest);
      case CompactPointer(level, key) =>
        assert EncodeBody(f) + rest == EncodeVarint(level) + (LengthPrefixed(key) + rest);
        Varint32RoundTrip(level, LengthPrefixed(key) + rest);
        LengthPrefixedRoundTrip(key, rest);
      case DeletedFile(level, n) =>
        assert EncodeBody(f) + rest == EncodeVarint(level) + (EncodeVarint(n) + rest);
        Varint32RoundTrip(level, EncodeVarint(n) + rest);
        Varint64RoundTrip(n, rest);
      case NewFile(_, _) => NewFileRoundTrip(f, rest);
    }
  }

  lemma NewFileRoundTrip(f: Field, rest: Bytes)
    requires f.NewFile? && f.Fits() && f.LevelOk()
    ensures DecodeNewFile(EncodeBody(f) + rest) == Some((f, rest))
  {
    hide EncodeVarint, GetVarint32, GetVarint64, LengthPrefixed, GetLengthPrefixed;
    var m := f.file;
    var t4 := LengthPrefixed(m.largest) + rest;
    var t3 := LengthPrefixed(m.smallest) + t4;
    var t2 := EncodeVarint(m.fileSize) + t3;
    var t1 := EncodeVarint(m.number) + t2;
    assert EncodeBody(f) + rest == EncodeVarint(f.level) + t1;
    Varint32RoundTrip(f.level, t1);
    Varint64RoundTrip(m.number, t2);
    Varint64RoundTrip(m.fileSize, t3);
    LengthPrefixedRoundTrip(m.smallest, t4);
    LengthPrefixedRoundTrip(m.largest, rest);
  }

  /** A level there is not makes the field undecodable. */
  lemma BadLevel(f: Field, rest: Bytes)
    requires !f.LevelOk()
    ensures DecodeBody(f.Tag(), EncodeBody(f) + rest) == None
  {
    hide EncodeVarint, GetVarint32, GetVarint64, LengthPrefixed, GetLengthPrefixed;
    match f {
      case CompactPointer(level, key) =>
        assert EncodeBody(f) + rest == EncodeVarint(level) + (LengthPrefixed(key) + rest);
        Varint32RoundTrip(level, LengthPrefixed(key) + rest);
      case DeletedFile(level, n) =>
        assert EncodeBody(f) + rest == EncodeVarint(level) + (EncodeVarint(n) + rest);
        Varint32RoundTrip(level, EncodeVarint(n) + rest);
      case NewFile(level, m) =>
        var t1 := EncodeVarint(m.number) + EncodeVarint(m.fileSize) + LengthPrefixed(m.smallest) + LengthPrefixed(m.largest) + rest;
        assert EncodeBody(f) + rest == EncodeVarint(level) + t1;
        Varint32RoundTrip(level, t1);
    }
  }

  /** What reading a field does to the edit. */
  function WithField(e: Edit, f: Field): (r: Edit)
    requires Ascending(e.deletedFiles)
    ensures Ascending(r.deletedFiles)
  {
    match f {
      case ComparatorName(name) => e.(comparator := Some(name))
      case LogNumber(n) => e.(logNumber := Some(n))
      case PrevLogNumber(n) => e.(prevLogNumber := Some(n))
      case NextFileNumber(n) => e.(nextFileNumber := Some(n))
      case LastSequence(n) => e.(lastSequence := Some(n))
      case CompactPointer(l, key) => e.(compactPointers := e.compactPointers + [(l, key)])
      case DeletedFile(l, n) => e.(deletedFiles := InsertPair((l, n), e.deletedFiles))
      case NewFile(l, file) => e.(newFiles := e.newFiles + [(l, file)])
    }
  }

  /** The edit left by decoding, and whether the status is ok. */
  function DecodeFields(e: Edit, b: Bytes): (r: (Edit, bool))
    requires Ascending(e.deletedFiles)
    decreases |b|
  {
    match GetVarint32(b) {
      case None => (e, b == [])
      case Some(t) =>
        match DecodeBody(t.0, t.1) {
          case None => (e, false)
          case Some(f) => DecodeFields(WithField(e, f.0), f.1)
        }
    }
  }

  function WithFields(e: Edit, fs: seq<Field>): (r: Edit)
    requires Ascending(e.deletedFiles)
    ensures Ascending(r.deletedFiles)
    decreases |fs|
  {
    if fs == [] then e else WithFields(WithField(e, fs[0]), fs[1..])
  }

  /** Decoding written fields applies them one after the other, and succeeds if and only if all levels exist. */
  lemma {:induction false} DecodeInvertsEncode(e: Edit, fs: seq<Field>)
    requires Ascending(e.deletedFiles) && forall i :: 0 <= i < |fs| ==> fs[i].Fits()
    ensures DecodeFields(e, EncodeFields(fs)).1 <==> forall i :: 0 <= i < |fs| ==> fs[i].LevelOk()
    ensures (forall i :: 0 <= i < |fs| ==> fs[i].LevelOk()) ==> DecodeFields(e, EncodeFields(fs)).0 == WithFields(e, fs)
    decreases |fs|
  {
    hide EncodeVarint, GetVarint32, DecodeBody, EncodeBody, WithField;
    if fs == [] {
      NoVarint();
    } else {
      var f, rest := fs[0], EncodeFields(fs[1..]);
      assert EncodeFields(fs) == EncodeVarint(f.Tag()) + (EncodeBody(f) + rest);
      Varint32RoundTrip(f.Tag(), EncodeBody(f) + rest);
      if f.LevelOk() {
        BodyRoundTrip(f, rest);
        DecodeInvertsEncode(WithField(e, f), fs[1..]);
        assert forall i :: 0 < i < |fs| ==> fs[i] == fs[1..][i-1];
      } else {
        BadLevel(f, rest);
      }
    }
  }

  lemma NoVarint()
    ensures GetVarint32([]) == None
  {
  }

  lemma {:induction false} WithMoreFields(e: Edit, a: seq<Field>, b: seq<Field>)
    requires Ascending(e.deletedFiles)
    ensures WithFields(e, a + b) == WithFields(WithFields(e, a), b)
    decreases |a|
  {
    hide WithField;
    if a == [] {
      assert a + b == b;
    } else {
      assert (a + b)[1..] == a[1..] + b && (a + b)[0] == a[0];
      WithMoreFields(WithField(e, a[0]), a[1..], b);
    }
  }

  lemma {:induction false} WithPointers(e: Edit, ps: seq<(Word, Bytes)>)
    requires Ascending(e.deletedFiles)
    ensures WithFields(e, PointerFields(ps)) == e.(compactPointers := e.compactPointers + ps)
    decreases |ps|
  {
    var fs := PointerFields(ps);
    if ps == [] {
      assert fs == [] && e.compactPointers + ps == e.compactPointers;
    } else {
      assert fs[1..] == PointerFields(ps[1..]);
      WithPointers(WithField(e, fs[0]), ps[1..]);
      assert e.compactPointers + [ps[0]] + ps[1..] == e.compactPointers + ps;
    }
  }

  lemma {:induction false} WithNewFiles(e: Edit, ps: seq<(Word, FileMeta)>)
    requires Ascending(e.deletedFiles)
    ensures WithFields(e, NewFields(ps)) == e.(newFiles := e.newFiles + ps)
    decreases |ps|
  {
    var fs := NewFields(ps);
    if ps == [] {
      assert fs == [] && e.newFiles + ps == e.newFiles;
    } else {
      assert fs[1..] == NewFields(ps[1..]);
      WithNewFiles(WithField(e, fs[0]), ps[1..]);
      assert e.newFiles + [ps[0]] + ps[1..] == e.newFiles + ps;
    }
  }

  lemma {:induction false} WithDeleted(e: Edit, ps: seq<(Word, DoubleWord)>)
    requires Ascending(e.deletedFiles + ps)
    ensures Ascending(e.deletedFiles) && WithFields(e, DeletedFields(ps)) == e.(deletedFiles := e.deletedFiles + ps)
    decreases |ps|
  {
    var fs, all := DeletedFields(ps), e.deletedFiles + ps;
    assert forall i :: 0 <= i < |e.deletedFiles| ==> all[i] == e.deletedFiles[i];
    if ps == [] {
      assert fs == [] && all == e.deletedFiles;
    } else {
      var more := e.deletedFiles + [ps[0]];
      assert forall i :: 0 <= i < |more| ==> all[i] == more[i];
      InsertLast(ps[0], e.deletedFiles);
      assert fs[1..] == DeletedFields(ps[1..]);
      assert more + ps[1..] == all;
      WithDeleted(WithField(e, fs[0]), ps[1..]);
    }
  }

  predicate EditFits(e: Edit) {
    Ascending(e.deletedFiles) && forall i :: 0 <= i < |FieldsOf(e)| ==> FieldsOf(e)[i].Fits()
  }

  predicate LevelsOk(e: Edit) {
    && (forall i :: 0 <= i < |e.compactPointers| ==> e.compactPointers[i].0 < NUM_LEVELS)
    && (forall i :: 0 <= i < |e.deletedFiles| ==> e.deletedFiles[i].0 < NUM_LEVELS)
    && (forall i :: 0 <= i < |e.newFiles| ==> e.newFiles[i].0 < NUM_LEVELS)
  }

  lemma LevelsOfFields(e: Edit)
    ensures LevelsOk(e) <==> forall i :: 0 <= i < |FieldsOf(e)| ==> FieldsOf(e)[i].LevelOk()
  {
    var s, p, d, n := ScalarFields(e), PointerFields(e.compactPointers), DeletedFields(e.deletedFiles), NewFields(e.newFiles);
    var all := FieldsOf(e);
    hide ScalarFields;
    assert forall i :: 0 <= i < |s| ==> s[i].LevelOk() by { ScalarsHaveNoLevel(e); }
    if forall i :: 0 <= i < |all| ==> all[i].LevelOk() {
      forall i | 0 <= i < |p| ensures e.compactPointers[i].0 < NUM_LEVELS {
        assert all[|s| + i] == p[i];
      }
      forall i | 0 <= i < |d| ensures e.deletedFiles[i].0 < NUM_LEVELS {
        assert all[|s| + |p| + i] == d[i];
      }
      forall i | 0 <= i < |n| ensures e.newFiles[i].0 < NUM_LEVELS {
        assert all[|s| + |p| + |d| + i] == n[i];
      }
    }
  }

  lemma ScalarsHaveNoLevel(e: Edit)
    ensures forall i :: 0 <= i < |ScalarFields(e)| ==> ScalarFields(e)[i].LevelOk()
  {
  }

  lemma WithScalars(start: Edit, e: Edit)
    requires start == EMPTY_EDIT.(compactPointers := start.compactPointers)
    ensures WithFields(start, ScalarFields(e))
         == e.(compactPointers := start.compactPointers, deletedFiles := [], newFiles := [])
  {
    hide WithFields, Opt;
    var c, l, p, n, s := Opt(NameField(e)), Opt(LogField(e)), Opt(PrevLogField(e)), Opt(NextFileField(e)), Opt(SequenceField(e));
    WithMoreFields(start, c + l + p + n, s);
    WithMoreFields(start, c + l + p, n);
    WithMoreFields(start, c + l, p);
    WithMoreFields(start, c, l);
    WithOpt(start, NameField(e));
    var e1 := WithFields(start, c);
    WithOpt(e1, LogField(e));
    var e2 := WithFields(e1, l);
    WithOpt(e2, PrevLogField(e));
    var e3 := WithFields(e2, p);
    WithOpt(e3, NextFileField(e));
    WithOpt(WithFields(e3, n), SequenceField(e));
  }

  lemma WithOpt(e: Edit, f: Option<Field>)
    requires Ascending(e.deletedFiles)
    ensures WithFields(e, Opt(f)) == if f.Some? then WithField(e, f.value) else e
  {
    hide WithField;
    assert f.Some? ==> WithFields(e, [f.value]) == WithFields(WithField(e, f.value), [f.value][1..]);
  }

  /** Decoding an encoded edit succeeds exactly when its levels exist.  Into a fresh edit it gives the edit back; an
      edit that has compaction pointers already keeps them, as they are not cleared. */
  lemma EditRoundTrip(start: Edit, e: Edit)
    requires EditFits(e) && start == EMPTY_EDIT.(compactPointers := start.compactPointers)
    ensures var r := DecodeFields(start, EncodeFields(FieldsOf(e)));
      && (r.1 <==> LevelsOk(e))
      && (r.1 ==> r.0 == e.(compactPointers := start.compactPointers + e.compactPointers))
      && (r.1 ==> (r.0 == e <==> start.compactPointers == []))
  {
    hide WithFields, ScalarFields, PointerFields, DeletedFields, NewFields, DecodeFields, EncodeFields;
    var s, p, d, n := ScalarFields(e), PointerFields(e.compactPointers), DeletedFields(e.deletedFiles), NewFields(e.newFiles);
    DecodeInvertsEncode(start, FieldsOf(e));
    LevelsOfFields(e);
    WithMoreFields(start, s + p + d, n);
    WithMoreFields(start, s + p, d);
    WithMoreFields(start, s, p);
    WithScalars(start, e);
    var e1 := WithFields(start, s);
    WithPointers(e1, e.compactPointers);
    var e2 := WithFields(e1, p);
    assert e2.deletedFiles + e.deletedFiles == e.deletedFiles;
    WithDeleted(e2, e.deletedFiles);
    var e3 := WithFields(e2, d);
    WithNewFiles(e3, e.newFiles);
    assert e3.newFiles + e.newFiles == e.newFiles;
    assert |start.compactPointers + e.compactPointers| == |e.compactPointers| <==> start.compactPointers == [];
    assert start.compactPointers == [] ==> start.compactPointers + e.compactPointers == e.compactPointers;
  }

  /** An empty edit, decoded into one that still has a compaction pointer from before, is not what it was. */
  lemma ClearedEditKeepsPointer(key: Bytes)
    requires |key| <= 0xffff_ffff
    ensures var start := EMPTY_EDIT.(compactPointers := [(1, key)]);
      DecodeFields(start, EncodeFields(FieldsOf(EMPTY_EDIT))) == (start, true) && start != EMPTY_EDIT
  {
    var start := EMPTY_EDIT.(compactPointers := [(1, key)]);
    EditRoundTrip(start, EMPTY_EDIT);
  }

  class VersionEdit {
    var comparator: Option<Bytes>
    var logNumber: Option<DoubleWord>
    var prevLogNumber: Option<DoubleWord>
    var nextFileNumber: Option<DoubleWord>
    var lastSequence: Option<DoubleWord>
    var compactPointers: seq<(Word, Bytes)>
    var deletedFiles: seq<(Word, DoubleWord)>
    var newFiles: seq<(Word, FileMeta)>

    function View(): Edit
      reads this
    {
      Edit(comparator, logNumber, prevLogNumber, nextFileNumber, lastSequence, compactPointers, deletedFiles, newFiles)
    }

    constructor ()
      ensures View() == EMPTY_EDIT
    {
      comparator, logNumber, prevLogNumber, nextFileNumber, lastSequence := None, None, None, None, None;
      compactPointers, deletedFiles, newFiles := [], [], [];
    }

    /** Compaction pointers stay. */
    method Clear()
      modifies this
      ensures View() == EMPTY_EDIT.(compactPointers := old(compactPointers))
    {
      comparator, logNumber, prevLogNumber, nextFileNumber, lastSequence := None, None, None, None, None;
      deletedFiles, newFiles := [], [];
    }

    method EncodeTo(dst: Bytes) returns (r: Bytes)
      ensures r == dst + EncodeFields(FieldsOf(View()))
    {
      hide EncodeBody, EncodeVarint, EncodeFields;
      ghost var s, p, d, n := ScalarFields(View()), PointerFields(compactPointers), DeletedFields(deletedFiles), NewFields(newFiles);
      r := PutScalars(dst);
      ghost var r1 := r;
      NoFields();
      for i := 0 to |compactPointers|
        invariant r == r1 + EncodeFields(p[..i])
      {
        OneMoreField(p, i);
        r := PutField(r, CompactPointer(compactPointers[i].0, compactPointers[i].1));
      }
      ghost var r2 := r;
      assert p[..|p|] == p;
      for i := 0 to |deletedFiles|
        invariant r == r2 + EncodeFields(d[..i])
      {
        OneMoreField(d, i);
        r := PutField(r, DeletedFile(deletedFiles[i].0, deletedFiles[i].1));
      }
      ghost var r3 := r;
      assert d[..|d|] == d;
      for i := 0 to |newFiles|
        invariant r == r3 + EncodeFields(n[..i])
      {
        OneMoreField(n, i);
        r := PutField(r, NewFile(newFiles[i].0, newFiles[i].1));
      }
      assert n[..|n|] == n;
      EncodeAppend(s, p);
      EncodeAppend(s + p, d);
      EncodeAppend(s + p + d, n);
    }

    method PutScalars(dst: Bytes) returns (r: Bytes)
      ensures r == dst + EncodeFields(ScalarFields(View()))
    {
      hide EncodeFields, Opt, ScalarFields, NameField, LogField, PrevLogField, NextFileField, SequenceField;
      r := PutOptional(dst, NameField(View()));
      r := PutOptional(r, LogField(View()));
      r := PutOptional(r, PrevLogField(View()));
      r := PutOptional(r, NextFileField(View()));
      r := PutOptional(r, SequenceField(View()));
      EncodeScalars(View());
    }

    /** Reads fields until one is malformed or the input ends. */
    method DecodeFrom(src: Bytes) returns (ok: bool)
      modifies this
      ensures (View(), ok) == DecodeFields(EMPTY_EDIT.(compactPointers := old(compactPointers)), src)
    {
      hide DecodeBody, GetVarint32, WithField;
      Clear();
      ghost var start := View();
      var input, msg := src, false;
      while !msg
        invariant !msg ==> Ascending(deletedFiles) && DecodeFields(start, src) == DecodeFields(View(), input)
        invariant msg ==> DecodeFields(start, src) == (View(), false)
        decreases |input| + if msg then 0 else 1
      {
        var tag := GetVarint32(input);
        if tag == None {
          break;
        }
        input := tag.value.1;
        var read := ReadField(tag.value.0, input);
        if read.Some? {
          input := read.value;
        } else {
          msg := true;
        }
      }
      if !msg && input != [] {
        msg := true;
      }
      ok := !msg;
    }

    /** Reads what follows a tag; returns what is left of the input. */
    method ReadField(tag: Word, input: Bytes) returns (rest: Option<Bytes>)
      requires Ascending(deletedFiles)
      modifies this
      ensures match DecodeBody(tag, input)
              case None => rest == None && View() == old(View())
              case Some(f) => rest == Some(f.1) && View() == WithField(old(View()), f.0)
    {
      hide GetVarint32, GetVarint64, GetLengthPrefixed, InsertPair;
      if tag == 1 {
        var name := GetLengthPrefixed(input);
        if name.Some? {
          comparator := Some(name.value.0);
          return Some(name.value.1);
        }
      } else if tag == 2 {
        var number := GetVarint64(input);
        if number.Some? {
          logNumber := Some(number.value.0);
          return Some(number.value.1);
        }
      } else if tag == 9 {
        var number := GetVarint64(input);
        if number.Some? {
          prevLogNumber := Some(number.value.0);
          return Some(number.value.1);
        }
      } else if tag == 3 {
        var number := GetVarint64(input);
        if number.Some? {
          nextFileNumber := Some(number.value.0);
          return Some(number.value.1);
        }
      } else if tag == 4 {
        var number := GetVarint64(input);
        if number.Some? {
          lastSequence := Some(number.value.0);
          return Some(number.value.1);
        }
      } else if tag == 5 {
        var level := GetLevel(input);
        if level.Some? {
          var key := GetLengthPrefixed(level.value.1);
          if key.Some? {
            compactPointers := compactPointers + [(level.value.0, key.value.0)];
            return Some(key.value.1);
          }
        }
      } else if tag == 6 {
        var level := GetLevel(input);
        if level.Some? {
          var number := GetVarint64(level.value.1);
          if number.Some? {
            deletedFiles := InsertPair((level.value.0, number.value.0), deletedFiles);
            return Some(number.value.1);
          }
        }
      } else if tag == 7 {
        var level := GetLevel(input);
        if level.Some? {
          var number := GetVarint64(level.value.1);
          if number.Some? {
            var size := GetVarint64(number.value.1);
            if size.Some? {
              var smallest := GetLengthPrefixed(size.value.1);
              if smallest.Some? {
                var largest := GetLengthPrefixed(smallest.value.1);
                if largest.Some? {
                  var f := FileMeta(number.value.0, size.value.0, smallest.value.0, largest.value.0);
                  newFiles := newFiles + [(level.value.0, f)];
                  return Some(largest.value.1);
                }
              }
            }
          }
        }
      }
      return None;
    }
  }

  method PutOptional(dst: Bytes, f: Option<Field>) returns (r: Bytes)
    ensures r == dst + EncodeFields(Opt(f))
  {
    r := dst;
    if f.Some? {
      r := PutField(r, f.value);
    }
  }

  lemma EncodeScalars(e: Edit)
    ensures EncodeFields(ScalarFields(e))
         == EncodeFields(Opt(NameField(e))) + EncodeFields(Opt(LogField(e))) + EncodeFields(Opt(PrevLogField(e)))
            + EncodeFields(Opt(NextFileField(e))) + EncodeFields(Opt(SequenceField(e)))
  {
    hide EncodeFields, Opt;
    var c, l, p, n, s := Opt(NameField(e)), Opt(LogField(e)), Opt(PrevLogField(e)), Opt(NextFileField(e)), Opt(SequenceField(e));
    EncodeAppend(c + l + p + n, s);
    EncodeAppend(c + l + p, n);
    EncodeAppend(c + l, p);
    EncodeAppend(c, l);
  }

  /** The tag of a field and the field. */
  method PutField(dst: Bytes, f: Field) returns (r: Bytes)
    ensures r == dst + EncodeFields([f])
  {
    hide EncodeBody, EncodeVarint;
    r := dst + EncodeVarint(f.Tag());
    r := r + EncodeBody(f);
    assert EncodeFields([f]) == EncodeVarint(f.Tag()) + EncodeBody(f);
  }

  lemma NoFields()
    ensures EncodeFields([]) == []
  {
  }

  lemma OneMoreField(fs: seq<Field>, i: nat)
    requires i < |fs|
    ensures EncodeFields(fs[..i+1]) == EncodeFields(fs[..i]) + EncodeFields([fs[i]])
  {
    assert fs[..i+1] == fs[..i] + [fs[i]];
    EncodeAppend(fs[..i], [fs[i]]);
  }
}
