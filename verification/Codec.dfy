/**
 The generated `read` and `write` members of hbase_types.cpp, for any field table: reading from
 bytes, the algebra of reading self-describing wire values, and the theorem that on well-formed
 input the first is exactly the second.
 */
module Codec {
  import opened Bytes
  import opened ThriftBinary
  import opened Schema

  // ---------------------------------------------------------------- reading bytes

  /** The object being read and the `isset_x` locals raised so far */
  datatype Progress = Progress(obj: Value, seen: set<nat>)

  predicate GoodProgress(fs: seq<Field>, p: Progress) {
    TypedStruct(fs, p.obj)
  }

  function Accept(fs: seq<Field>, p: Progress, i: nat, v: Value): (r: Progress)
    requires GoodProgress(fs, p) && i < |fs| && TypedField(fs[i], v)
    ensures GoodProgress(fs, r)
  {
    Progress(Store(fs, p.obj, i, v), p.seen + {i})
  }

  /** The checks after the loop: `if (!isset_x) throw TProtocolException(INVALID_DATA)` */
  predicate AllRequiredSeen(fs: seq<Field>, seen: set<nat>) {
    forall i | 0 <= i < |fs| :: fs[i].kind.Required? ==> i in seen
  }

  /** Reading a member of the given shape into its present value */
  function ReadValue(s: Shape, was: Value, bs: bytes): (r: Parsed<Value>)
    requires GoodShape(s) && Typed(s, was)
    ensures r.Ok? ==> Typed(s, r.val) && |r.rest| <= |bs|
    decreases |bs|, 1, 0
  {
    match s
    case SBool => if bs == [] then Fail(EndOfFile) else Ok(VBool(bs[0] != 0), bs[1..])
    case SInt(width) =>
      ReadIntRange(width, bs);
      var (n, bs1) :- ReadInt(width, bs);
      Ok(VInt(n), bs1)
    case SStr =>
      var (str, bs1) :- ReadBinary(bs);
      Ok(VStr(str), bs1)
    case SStruct(fs) =>
      var (p, bs1) :- ReadFields(fs, Progress(was, {}), bs);
      if AllRequiredSeen(fs, p.seen) then Ok(p.obj, bs1) else Fail(InvalidData)
    case SList(e) =>
      if bs == [] then Fail(EndOfFile)
      else
        var (n, bs1) :- ReadSize(bs[1..]);
        var (es, bs2) :- ReadElems(e, n, bs1);
        Ok(VList(es), bs2)
    case SMap =>
      if |bs| < 2 then Fail(EndOfFile)
      else
        var (n, bs1) :- ReadSize(bs[2..]);
        var (es, bs2) :- ReadEntries(n, [], bs1);
        Ok(VMap(es), bs2)
  }

  /** The `while (true)` loop over fields, up to and including the stop byte */
  function ReadFields(fs: seq<Field>, p: Progress, bs: bytes): (r: Parsed<Progress>)
    requires GoodFields(fs) && GoodProgress(fs, p)
    ensures r.Ok? ==> GoodProgress(fs, r.val) && |r.rest| <= |bs|
    decreases |bs|, 0, 0
  {
    if bs == [] then Fail(EndOfFile)
    else if bs[0] == T_STOP then Ok(p, bs[1..])
    else
      var (id, bs1) :- ReadInt(2, bs[1..]);
      var i := Target(fs, id, bs[0]);
      if i < |fs| then
        assert GoodField(fs[i]) && TypedField(fs[i], p.obj.vals[i]);
        var (v, bs2) :- ReadValue(fs[i].shape, p.obj.vals[i], bs1);
        ReadFields(fs, Accept(fs, p, i, v), bs2)
      else
        var (_, bs2) :- Skip(bs[0], bs1);
        ReadFields(fs, p, bs2)
  }

  /** The element loop after `clear` and `resize`: every element starts from its default */
  function ReadElems(e: Shape, n: nat, bs: bytes): (r: Parsed<seq<Value>>)
    requires GoodShape(e)
    ensures r.Ok? ==> |r.val| == n && |r.rest| <= |bs|
    ensures r.Ok? ==> forall i | 0 <= i < n :: Typed(e, r.val[i])
    decreases |bs|, 2, n
  {
    if n == 0 then Ok([], bs)
    else
      var (v, bs1) :- ReadValue(e, Default(e), bs);
      var (vs, bs2) :- ReadElems(e, n - 1, bs1);
      Ok([v] + vs, bs2)
  }

  /** The map loop: read a key, insert it by reference, read the value into the reference */
  function ReadEntries(n: nat, acc: seq<Entry>, bs: bytes): (r: Parsed<seq<Entry>>)
    requires Sorted(acc) && GoodEntries(acc)
    ensures r.Ok? ==> Sorted(r.val) && GoodEntries(r.val) && |r.val| <= |acc| + n && |r.rest| <= |bs|
    decreases n
  {
    if n == 0 then Ok(acc, bs)
    else
      var (k, bs1) :- ReadBinary(bs);
      var (v, bs2) :- ReadBinary(bs1);
      InsertSorted(acc, k, v);
      ReadEntries(n - 1, Insert(acc, k, v), bs2)
  }

  // ---------------------------------------------------------------- reading wire values

  /** Where the reader knows the field, the payload has the schema's shape. Fields that the reader
      skips are unconstrained. */
  predicate Conforms(s: Shape, w: Wire)
    decreases w, 1
  {
    match s
    case SBool => w.WBool?
    case SInt(width) => w.WInt? && w.width == width
    case SStr => w.WStr?
    case SStruct(fs) => w.WStruct? && ConformsFields(fs, w.fields)
    case SList(e) => w.WList? && !w.isSet && ConformsElems(e, w.elems)
    case SMap => w.WMap? && ConformsEntries(w.entries)
  }

  predicate ConformsField(fs: seq<Field>, f: WireField)
    decreases f, 2
  {
    var i := Target(fs, f.id, TagOf(f.w));
    i < |fs| ==> Conforms(fs[i].shape, f.w)
  }

  predicate ConformsFields(fs: seq<Field>, ws: seq<WireField>)
    decreases ws, 0
  {
    forall k | 0 <= k < |ws| :: ConformsField(fs, ws[k])
  }

  predicate ConformsElems(e: Shape, ws: seq<Wire>)
    decreases ws, 0
  {
    forall k | 0 <= k < |ws| :: Conforms(e, ws[k])
  }

  predicate ConformsEntries(ps: seq<WirePair>) {
    forall k | 0 <= k < |ps| :: ps[k].key.WStr? && ps[k].val.WStr?
  }

  /** What `read` makes of a value, or None when it throws INVALID_DATA */
  function Absorb(s: Shape, was: Value, w: Wire): (r: Option<Value>)
    requires GoodShape(s) && Typed(s, was) && WellFormed(w) && Conforms(s, w)
    ensures r.Some? ==> Typed(s, r.value)
    decreases w, 1
  {
    match s
    case SBool => Some(VBool(w.b))
    case SInt(_) => Some(VInt(w.n))
    case SStr => Some(VStr(w.s))
    case SStruct(fs) =>
      var p :- AbsorbFields(fs, Progress(was, {}), w.fields);
      if AllRequiredSeen(fs, p.seen) then Some(p.obj) else None
    case SList(e) =>
      var es :- AbsorbElems(e, w.etype, w.elems);
      Some(VList(es))
    case SMap => Some(VMap(AbsorbEntries([], w.ktype, w.vtype, w.entries)))
  }

  function AbsorbField(fs: seq<Field>, p: Progress, f: WireField): (r: Option<Progress>)
    requires GoodFields(fs) && GoodProgress(fs, p) && WellFormedField(f) && ConformsField(fs, f)
    ensures r.Some? ==> GoodProgress(fs, r.value)
    decreases f, 2
  {
    var i := Target(fs, f.id, TagOf(f.w));
    if i < |fs| then
      assert GoodField(fs[i]) && TypedField(fs[i], p.obj.vals[i]);
      var v :- Absorb(fs[i].shape, p.obj.vals[i], f.w);
      Some(Accept(fs, p, i, v))
    else Some(p)
  }

  function AbsorbFields(fs: seq<Field>, p: Progress, ws: seq<WireField>): (r: Option<Progress>)
    requires GoodFields(fs) && GoodProgress(fs, p) && WellFormedFields(ws) && ConformsFields(fs, ws)
    ensures r.Some? ==> GoodProgress(fs, r.value)
    decreases ws, 0
  {
    if ws == [] then Some(p)
    else
      var p1 :- AbsorbField(fs, p, ws[0]);
      AbsorbFields(fs, p1, ws[1..])
  }

  function AbsorbElems(e: Shape, et: byte, ws: seq<Wire>): (r: Option<seq<Value>>)
    requires GoodShape(e) && WellFormedElems(et, ws) && ConformsElems(e, ws)
    ensures r.Some? ==> |r.value| == |ws| && forall i | 0 <= i < |ws| :: Typed(e, r.value[i])
    decreases ws, 0
  {
    if ws == [] then Some([])
    else
      var v :- Absorb(e, Default(e), ws[0]);
      var vs :- AbsorbElems(e, et, ws[1..]);
      Some([v] + vs)
  }

  lemma {:induction false} StringPair(kt: byte, vt: byte, p: WirePair)
    requires WellFormedPair(kt, vt, p) && p.key.WStr? && p.val.WStr?
    ensures FitsSize(|p.key.s|) && FitsSize(|p.val.s|)
    ensures SerPair(kt, vt, p) == EncBinary(p.key.s) + EncBinary(p.val.s)
  {
    assert WellFormed(p.key) && WellFormed(p.val);
  }

  function AbsorbEntries(acc: seq<Entry>, kt: byte, vt: byte, ps: seq<WirePair>): (r: seq<Entry>)
    requires Sorted(acc) && GoodEntries(acc) && WellFormedPairs(kt, vt, ps) && ConformsEntries(ps)
    ensures Sorted(r) && GoodEntries(r) && |r| <= |acc| + |ps|
    decreases ps
  {
    if ps == [] then acc
    else
      StringPair(kt, vt, ps[0]);
      InsertSorted(acc, ps[0].key.s, ps[0].val.s);
      AbsorbEntries(Insert(acc, ps[0].key.s, ps[0].val.s), kt, vt, ps[1..])
  }

  // ---------------------------------------------------------------- bytes refine the algebra

  function Reply<T>(r: Option<T>, rest: bytes): Parsed<T> {
    match r
    case Some(v) => Ok(v, rest)
    case None => Fail(InvalidData)
  }

  /** `read` on the bytes of a well-formed value, followed by anything: it computes Absorb,
      consumes exactly the value's bytes, and the only exception it can throw is INVALID_DATA. */
  lemma {:induction false} ReadIsAbsorb(s: Shape, was: Value, w: Wire, rest: bytes)
    requires GoodShape(s) && Typed(s, was) && WellFormed(w) && Conforms(s, w)
    ensures ReadValue(s, was, Ser(w) + rest) == Reply(Absorb(s, was, w), rest)
    decreases w, 1
  {
    match s {
      case SBool =>
        assert (Ser(w) + rest)[1..] == rest;
      case SInt(width) =>
        ReadIntEnc(width, w.n, rest);
      case SStr =>
        ReadBinaryEnc(w.s, rest);
      case SStruct(fs) =>
        ReadFieldsIsAbsorb(fs, Progress(was, {}), w.fields, rest);
      case SList(e) =>
        ListHeader(w, rest);
        ReadElemsIsAbsorb(e, w.etype, w.elems, rest);
      case SMap =>
        MapHeader(w, rest);
        ReadEntriesIsAbsorb([], w.ktype, w.vtype, w.entries, rest);
    }
  }

  lemma {:induction false} ReadFieldIsAbsorb(fs: seq<Field>, p: Progress, f: WireField, rest: bytes)
    requires GoodFields(fs) && GoodProgress(fs, p) && WellFormedField(f) && ConformsField(fs, f)
    ensures var r := AbsorbField(fs, p, f);
            ReadFields(fs, p, SerField(f) + rest) ==
            if r.Some? then ReadFields(fs, r.value, rest) else Fail(InvalidData)
    decreases f, 2
  {
    FieldHeader(f, rest);
    var i := Target(fs, f.id, TagOf(f.w));
    if i < |fs| {
      assert GoodField(fs[i]) && TypedField(fs[i], p.obj.vals[i]);
      ReadIsAbsorb(fs[i].shape, p.obj.vals[i], f.w, rest);
    } else {
      SkipConsumesExactly(f.w, rest);
    }
  }

  lemma {:induction false} ReadFieldsIsAbsorb(fs: seq<Field>, p: Progress, ws: seq<WireField>, rest: bytes)
    requires GoodFields(fs) && GoodProgress(fs, p) && WellFormedFields(ws) && ConformsFields(fs, ws)
    ensures ReadFields(fs, p, SerFields(ws) + rest) == Reply(AbsorbFields(fs, p, ws), rest)
    decreases ws, 0
  {
    if ws == [] {
      assert ([T_STOP] + rest)[1..] == rest;
    } else {
      var tail := SerFields(ws[1..]) + rest;
      assert SerFields(ws) + rest == SerField(ws[0]) + tail;
      ReadFieldIsAbsorb(fs, p, ws[0], tail);
      var r := AbsorbField(fs, p, ws[0]);
      if r.Some? {
        ReadFieldsIsAbsorb(fs, r.value, ws[1..], rest);
      }
    }
  }

  lemma {:induction false} ElemsStep(e: Shape, et: byte, ws: seq<Wire>, bs: bytes, tail: bytes, rest: bytes)
    requires GoodShape(e) && ws != [] && WellFormedElems(et, ws) && ConformsElems(e, ws)
    requires ReadValue(e, Default(e), bs) == Reply(Absorb(e, Default(e), ws[0]), tail)
    requires ReadElems(e, |ws| - 1, tail) == Reply(AbsorbElems(e, et, ws[1..]), rest)
    ensures ReadElems(e, |ws|, bs) == Reply(AbsorbElems(e, et, ws), rest)
  {
  }

  lemma {:induction false} SerElemsSplit(et: byte, ws: seq<Wire>, rest: bytes)
    requires ws != [] && WellFormedElems(et, ws)
    ensures SerElems(et, ws) + rest == Ser(ws[0]) + (SerElems(et, ws[1..]) + rest)
  {
  }

  lemma {:induction false} ReadElemsIsAbsorb(e: Shape, et: byte, ws: seq<Wire>, rest: bytes)
    requires GoodShape(e) && WellFormedElems(et, ws) && ConformsElems(e, ws)
    ensures ReadElems(e, |ws|, SerElems(et, ws) + rest) == Reply(AbsorbElems(e, et, ws), rest)
    decreases ws, 0
  {
    if ws == [] {
      assert [] + rest == rest;
    } else {
      var tail := SerElems(et, ws[1..]) + rest;
      var bs := SerElems(et, ws) + rest;
      SerElemsSplit(et, ws, rest);
      ReadIsAbsorb(e, Default(e), ws[0], tail);
      assert ReadValue(e, Default(e), bs) == Reply(Absorb(e, Default(e), ws[0]), tail);
      ReadElemsIsAbsorb(e, et, ws[1..], rest);
      ElemsStep(e, et, ws, bs, tail, rest);
    }
  }

  lemma {:induction false} ReadEntry(n: nat, acc: seq<Entry>, k: bytes, v: bytes, tail: bytes)
    requires Sorted(acc) && GoodEntries(acc) && FitsSize(|k|) && FitsSize(|v|) && n > 0
    ensures Sorted(Insert(acc, k, v)) && GoodEntries(Insert(acc, k, v))
    ensures ReadEntries(n, acc, EncBinary(k) + (EncBinary(v) + tail)) == ReadEntries(n - 1, Insert(acc, k, v), tail)
  {
    ReadBinaryEnc(k, EncBinary(v) + tail);
    ReadBinaryEnc(v, tail);
    InsertSorted(acc, k, v);
  }

  lemma {:induction false} PairsSplit(kt: byte, vt: byte, ps: seq<WirePair>, rest: bytes)
    requires ps != [] && WellFormedPairs(kt, vt, ps) && ConformsEntries(ps)
    ensures FitsSize(|ps[0].key.s|) && FitsSize(|ps[0].val.s|)
    ensures SerPairs(kt, vt, ps) + rest ==
            EncBinary(ps[0].key.s) + (EncBinary(ps[0].val.s) + (SerPairs(kt, vt, ps[1..]) + rest))
  {
    StringPair(kt, vt, ps[0]);
    Regroup(EncBinary(ps[0].key.s), EncBinary(ps[0].val.s), SerPairs(kt, vt, ps[1..]), rest);
  }

  lemma {:induction false} Regroup(a: bytes, b: bytes, c: bytes, d: bytes)
    ensures ((a + b) + c) + d == a + (b + (c + d))
  {
  }

  lemma {:induction false} AbsorbEntry(acc: seq<Entry>, kt: byte, vt: byte, ps: seq<WirePair>)
    requires Sorted(acc) && GoodEntries(acc) && WellFormedPairs(kt, vt, ps) && ConformsEntries(ps) && ps != []
    ensures FitsSize(|ps[0].key.s|) && FitsSize(|ps[0].val.s|)
    ensures var later := Insert(acc, ps[0].key.s, ps[0].val.s);
            && Sorted(later) && GoodEntries(later)
            && AbsorbEntries(acc, kt, vt, ps) == AbsorbEntries(later, kt, vt, ps[1..])
  {
    StringPair(kt, vt, ps[0]);
    InsertSorted(acc, ps[0].key.s, ps[0].val.s);
  }

  lemma {:induction false} ReadEntriesIsAbsorb(acc: seq<Entry>, kt: byte, vt: byte, ps: seq<WirePair>, rest: bytes)
    requires Sorted(acc) && GoodEntries(acc) && WellFormedPairs(kt, vt, ps) && ConformsEntries(ps)
    ensures ReadEntries(|ps|, acc, SerPairs(kt, vt, ps) + rest) == Ok(AbsorbEntries(acc, kt, vt, ps), rest)
    decreases ps
  {
    if ps == [] {
      assert [] + rest == rest;
    } else {
      var k, v := ps[0].key.s, ps[0].val.s;
      AbsorbEntry(acc, kt, vt, ps);
      PairsSplit(kt, vt, ps, rest);
      ReadEntry(|ps|, acc, k, v, SerPairs(kt, vt, ps[1..]) + rest);
      LaterEntries(Insert(acc, k, v), kt, vt, ps, rest);
    }
  }

  lemma {:induction false} LaterEntries(acc: seq<Entry>, kt: byte, vt: byte, ps: seq<WirePair>, rest: bytes)
    requires Sorted(acc) && GoodEntries(acc) && WellFormedPairs(kt, vt, ps) && ConformsEntries(ps) && ps != []
    ensures ReadEntries(|ps| - 1, acc, SerPairs(kt, vt, ps[1..]) + rest) ==
            Ok(AbsorbEntries(acc, kt, vt, ps[1..]), rest)
    decreases ps, 0
  {
    ReadEntriesIsAbsorb(acc, kt, vt, ps[1..], rest);
  }
}
