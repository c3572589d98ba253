/**
 The part of the Thrift binary protocol that the generated HBase code is written against
 (TBinaryProtocol, the default protocol of thrift_helper.h): primitive readers and writers over
 bytes, self-describing wire values, their serialisation, and `skip`.
 */
module ThriftBinary {

  import opened Bytes

  datatype Error = EndOfFile | NegativeSize | SizeLimit | BadVersion | InvalidData

  /** A read either yields a value and the unread bytes, or throws. */
  datatype Parsed<+T> = Ok(val: T, rest: bytes) | Fail(error: Error) {
    predicate IsFailure() {
      Fail?
    }

    function PropagateFailure<U>(): Parsed<U>
      requires Fail?
    {
      Fail(error)
    }

    function Extract(): (T, bytes)
      requires Ok?
    {
      (val, rest)
    }
  }

  // Type tags: section "Struct" of the Thrift binary protocol encoding
  const T_STOP: byte := 0
  const T_BOOL: byte := 2
  const T_BYTE: byte := 3
  const T_DOUBLE: byte := 4
  const T_I16: byte := 6
  const T_I32: byte := 8
  const T_I64: byte := 10
  const T_STRING: byte := 11
  const T_STRUCT: byte := 12
  const T_MAP: byte := 13
  const T_SET: byte := 14
  const T_LIST: byte := 15

  // ---------------------------------------------------------------- integers

  function Pow256(k: nat): (p: nat)
    ensures p > 0
  {
    if k == 0 then 1 else 256 * Pow256(k - 1)
  }

  predicate InRange(k: nat, n: int) {
    0 <= 2 * n + Pow256(k) < 2 * Pow256(k)
  }

  function BigEndian(k: nat, n: nat): (bs: bytes)
    ensures |bs| == k
  {
    if k == 0 then [] else BigEndian(k - 1, n / 256) + [n % 256]
  }

  function FromBigEndian(bs: bytes): nat {
    if bs == [] then 0 else 256 * FromBigEndian(bs[..|bs| - 1]) + bs[|bs| - 1]
  }

  lemma {:induction false} BigEndianRoundTrip(k: nat, n: nat)
    requires n < Pow256(k)
    ensures FromBigEndian(BigEndian(k, n)) == n
  {
    if k > 0 {
      var bs := BigEndian(k, n);
      assert bs[..|bs| - 1] == BigEndian(k - 1, n / 256);
      BigEndianRoundTrip(k - 1, n / 256);
    }
  }

  /** writeByte, writeI16, writeI32, writeI64: two's complement, k bytes, most significant first */
  function EncInt(k: nat, n: int): (bs: bytes)
    requires InRange(k, n)
    ensures |bs| == k
  {
    BigEndian(k, if n < 0 then n + Pow256(k) else n)
  }

  function ReadInt(k: nat, bs: bytes): (r: Parsed<int>)
    ensures r.Ok? ==> |r.rest| + k == |bs|
  {
    if |bs| < k then Fail(EndOfFile)
    else
      var u := FromBigEndian(bs[..k]);
      Ok(if 2 * u >= Pow256(k) then u - Pow256(k) else u, bs[k..])
  }

  lemma {:induction false} ReadIntEnc(k: nat, n: int, rest: bytes)
    requires InRange(k, n)
    ensures ReadInt(k, EncInt(k, n) + rest) == Ok(n, rest)
  {
    var u := if n < 0 then n + Pow256(k) else n;
    BigEndianRoundTrip(k, u);
    assert (EncInt(k, n) + rest)[..k] == EncInt(k, n);
    assert (EncInt(k, n) + rest)[k..] == rest;
  }

  /** Most significant byte first */
  lemma {:induction false} IdBytes(n: nat)
    requires n < 0x8000
    ensures InRange(2, n) && EncInt(2, n) == [n / 256, n % 256]
  {
    assert BigEndian(1, n / 256) == [n / 256 % 256] && BigEndian(2, n) == BigEndian(1, n / 256) + [n % 256];
  }

  lemma {:induction false} IntBytes(n: int)
    requires -0x8000_0000 <= n < 0x8000_0000
    ensures var u := if n < 0 then n + 0x1_0000_0000 else n;
            InRange(4, n) && EncInt(4, n) == [u / 0x100_0000, u / 0x1_0000 % 256, u / 256 % 256, u % 256]
  {
    var u := if n < 0 then n + 0x1_0000_0000 else n;
    assert Pow256(4) == 0x1_0000_0000;
    Big4(u);
  }

  lemma {:induction false} Big4(u: nat)
    requires u < 0x1_0000_0000
    ensures BigEndian(4, u) == [u / 0x100_0000, u / 0x1_0000 % 256, u / 256 % 256, u % 256]
  {
    assert u / 256 / 256 == u / 0x1_0000 && u / 0x1_0000 / 256 == u / 0x100_0000;
    assert BigEndian(1, u / 0x100_0000) == [u / 0x100_0000 % 256];
    assert BigEndian(2, u / 0x1_0000) == BigEndian(1, u / 0x100_0000) + [u / 0x1_0000 % 256];
    assert BigEndian(3, u / 256) == BigEndian(2, u / 0x1_0000) + [u / 256 % 256];
    assert BigEndian(4, u) == BigEndian(3, u / 256) + [u % 256];
  }

  lemma {:induction false} FromBigEndianBound(bs: bytes)
    ensures FromBigEndian(bs) < Pow256(|bs|)
  {
    if bs != [] {
      FromBigEndianBound(bs[..|bs| - 1]);
    }
  }

  lemma {:induction false} ReadIntRange(k: nat, bs: bytes)
    ensures ReadInt(k, bs).Ok? ==> InRange(k, ReadInt(k, bs).val)
  {
    if |bs| >= k {
      FromBigEndianBound(bs[..k]);
    }
  }

  // ---------------------------------------------------------------- strings and sizes

  predicate FitsSize(n: nat) {
    n < 0x8000_0000
  }

  /** writeBinary / writeString: an i32 length, then the bytes */
  function EncBinary(s: bytes): bytes
    requires FitsSize(|s|)
  {
    EncInt(4, |s|) + s
  }

  /** The size field of a string, list, set or map */
  function ReadSize(bs: bytes): (r: Parsed<nat>)
    ensures r.Ok? ==> |r.rest| + 4 == |bs| && FitsSize(r.val)
  {
    ReadIntRange(4, bs);
    var (n, bs1) :- ReadInt(4, bs);
    if n < 0 then Fail(NegativeSize) else Ok(n, bs1)
  }

  function ReadBinary(bs: bytes): (r: Parsed<bytes>)
    ensures r.Ok? ==> |r.rest| + 4 + |r.val| == |bs| && FitsSize(|r.val|)
  {
    var (n, bs1) :- ReadSize(bs);
    if |bs1| < n then Fail(EndOfFile) else Ok(bs1[..n], bs1[n..])
  }

  lemma {:induction false} ReadSizeEnc(n: nat, rest: bytes)
    requires FitsSize(n)
    ensures ReadSize(EncInt(4, n) + rest) == Ok(n, rest)
  {
    ReadIntEnc(4, n, rest);
  }

  lemma {:induction false} ReadBinaryEnc(s: bytes, rest: bytes)
    requires FitsSize(|s|)
    ensures ReadBinary(EncBinary(s) + rest) == Ok(s, rest)
  {
    assert EncBinary(s) + rest == EncInt(4, |s|) + (s + rest);
    ReadSizeEnc(|s|, s + rest);
    assert (s + rest)[..|s|] == s && (s + rest)[|s|..] == rest;
  }

  // ---------------------------------------------------------------- wire values

  datatype WireField = WireField(id: int, w: Wire)

  datatype WirePair = WirePair(key: Wire, val: Wire)

  /** What one peer may put on the wire: every value carries its own shape. */
  datatype Wire =
    | WBool(b: bool)
    | WInt(width: nat, n: int)
    | WDouble(bits: int)
    | WStr(s: bytes)
    | WStruct(fields: seq<WireField>)
    | WList(isSet: bool, etype: byte, elems: seq<Wire>)
    | WMap(ktype: byte, vtype: byte, entries: seq<WirePair>)

  function IntTag(width: nat): byte {
    if width == 1 then T_BYTE else if width == 2 then T_I16 else if width == 4 then T_I32 else T_I64
  }

  function TagOf(w: Wire): (t: byte)
    ensures t != T_STOP
  {
    match w
    case WBool(_) => T_BOOL
    case WInt(width, _) => IntTag(width)
    case WDouble(_) => T_DOUBLE
    case WStr(_) => T_STRING
    case WStruct(_) => T_STRUCT
    case WList(isSet, _, _) => if isSet then T_SET else T_LIST
    case WMap(_, _, _) => T_MAP
  }

  /** The grammar: integers fit their width, sizes fit an i32, containers are uniformly tagged. */
  predicate WellFormed(w: Wire)
    decreases w, 1
  {
    match w
    case WBool(_) => true
    case WInt(width, n) => width in {1, 2, 4, 8} && InRange(width, n)
    case WDouble(bits) => InRange(8, bits)
    case WStr(s) => FitsSize(|s|)
    case WStruct(fs) => WellFormedFields(fs)
    case WList(_, et, es) => FitsSize(|es|) && WellFormedElems(et, es)
    case WMap(kt, vt, ps) => FitsSize(|ps|) && WellFormedPairs(kt, vt, ps)
  }

  predicate WellFormedField(f: WireField)
    decreases f, 2
  {
    InRange(2, f.id) && WellFormed(f.w)
  }

  predicate WellFormedPair(kt: byte, vt: byte, p: WirePair)
    decreases p, 2
  {
    TagOf(p.key) == kt && WellFormed(p.key) && TagOf(p.val) == vt && WellFormed(p.val)
  }

  predicate WellFormedFields(fs: seq<WireField>)
    decreases fs, 0
  {
    forall i | 0 <= i < |fs| :: WellFormedField(fs[i])
  }

  predicate WellFormedElems(et: byte, es: seq<Wire>)
    decreases es, 0
  {
    forall i | 0 <= i < |es| :: TagOf(es[i]) == et && WellFormed(es[i])
  }

  predicate WellFormedPairs(kt: byte, vt: byte, ps: seq<WirePair>)
    decreases ps, 0
  {
    forall i | 0 <= i < |ps| :: WellFormedPair(kt, vt, ps[i])
  }

  function Ser(w: Wire): (bs: bytes)
    requires WellFormed(w)
    decreases w, 1
  {
    match w
    case WBool(b) => [if b then 1 else 0]
    case WInt(width, n) => EncInt(width, n)
    case WDouble(bits) => EncInt(8, bits)
    case WStr(s) => EncBinary(s)
    case WStruct(fs) => SerFields(fs)
    case WList(_, et, es) => [et] + EncInt(4, |es|) + SerElems(et, es)
    case WMap(kt, vt, ps) => [kt, vt] + EncInt(4, |ps|) + SerPairs(kt, vt, ps)
  }

  function SerField(f: WireField): bytes
    requires WellFormedField(f)
    decreases f, 2
  {
    [TagOf(f.w)] + EncInt(2, f.id) + Ser(f.w)
  }

  function SerFields(fs: seq<WireField>): (bs: bytes)
    requires WellFormedFields(fs)
    ensures |bs| >= 1
    decreases fs, 0
  {
    if fs == [] then [T_STOP] else SerField(fs[0]) + SerFields(fs[1..])
  }

  function SerElems(et: byte, es: seq<Wire>): bytes
    requires WellFormedElems(et, es)
    decreases es, 0
  {
    if es == [] then [] else Ser(es[0]) + SerElems(et, es[1..])
  }

  function SerPair(kt: byte, vt: byte, p: WirePair): bytes
    requires WellFormedPair(kt, vt, p)
    decreases p, 2
  {
    Ser(p.key) + Ser(p.val)
  }

  function SerPairs(kt: byte, vt: byte, ps: seq<WirePair>): bytes
    requires WellFormedPairs(kt, vt, ps)
    decreases ps, 0
  {
    if ps == [] then [] else SerPair(kt, vt, ps[0]) + SerPairs(kt, vt, ps[1..])
  }

  // ---------------------------------------------------------------- skip

  function Take(k: nat, bs: bytes): (r: Parsed<()>)
    ensures r.Ok? ==> |r.rest| + k == |bs|
  {
    if |bs| < k then Fail(EndOfFile) else Ok((), bs[k..])
  }

  /** TProtocol::skip: a tag the protocol does not know is skipped by reading nothing */
  function Skip(t: byte, bs: bytes): (r: Parsed<()>)
    ensures r.Ok? ==> |r.rest| <= |bs|
    decreases |bs|, 1, 0
  {
    if t == T_BOOL || t == T_BYTE then Take(1, bs)
    else if t == T_I16 then Take(2, bs)
    else if t == T_I32 then Take(4, bs)
    else if t == T_I64 || t == T_DOUBLE then Take(8, bs)
    else if t == T_STRING then
      var (_, bs1) :- ReadBinary(bs);
      Ok((), bs1)
    else if t == T_STRUCT then SkipFields(bs)
    else if t == T_LIST || t == T_SET then
      if bs == [] then Fail(EndOfFile)
      else
        var (n, bs1) :- ReadSize(bs[1..]);
        SkipElems(bs[0], n, bs1)
    else if t == T_MAP then
      if |bs| < 2 then Fail(EndOfFile)
      else
        var (n, bs1) :- ReadSize(bs[2..]);
        SkipPairs(bs[0], bs[1], n, bs1)
    else Ok((), bs)
  }

  function SkipFields(bs: bytes): (r: Parsed<()>)
    ensures r.Ok? ==> |r.rest| <= |bs|
    decreases |bs|, 0, 0
  {
    if bs == [] then Fail(EndOfFile)
    else if bs[0] == T_STOP then Ok((), bs[1..])
    else
      var (_, bs1) :- ReadInt(2, bs[1..]);
      var (_, bs2) :- Skip(bs[0], bs1);
      SkipFields(bs2)
  }

  function SkipElems(et: byte, n: nat, bs: bytes): (r: Parsed<()>)
    ensures r.Ok? ==> |r.rest| <= |bs|
    decreases |bs|, 2, n
  {
    if n == 0 then Ok((), bs)
    else
      var (_, bs1) :- Skip(et, bs);
      SkipElems(et, n - 1, bs1)
  }

  function SkipPairs(kt: byte, vt: byte, n: nat, bs: bytes): (r: Parsed<()>)
    ensures r.Ok? ==> |r.rest| <= |bs|
    decreases |bs|, 2, n
  {
    if n == 0 then Ok((), bs)
    else
      var (_, bs1) :- Skip(kt, bs);
      var (_, bs2) :- Skip(vt, bs1);
      SkipPairs(kt, vt, n - 1, bs2)
  }

  lemma {:induction false} SkipScalarExactly(w: Wire, rest: bytes)
    requires WellFormed(w) && (w.WBool? || w.WInt? || w.WDouble? || w.WStr?)
    ensures Skip(TagOf(w), Ser(w) + rest) == Ok((), rest)
  {
    match w
    case WBool(_) =>
    case WInt(width, n) =>
      assert (EncInt(width, n) + rest)[width..] == rest;
    case WDouble(bits) =>
      assert (EncInt(8, bits) + rest)[8..] == rest;
    case WStr(s) =>
      ReadBinaryEnc(s, rest);
  }

  lemma {:induction false} ListHeader(w: Wire, rest: bytes)
    requires WellFormed(w) && w.WList?
    ensures var bs := Ser(w) + rest;
            bs[0] == w.etype && ReadSize(bs[1..]) == Ok(|w.elems|, SerElems(w.etype, w.elems) + rest)
  {
    var tail := SerElems(w.etype, w.elems) + rest;
    assert (Ser(w) + rest)[1..] == EncInt(4, |w.elems|) + tail;
    ReadSizeEnc(|w.elems|, tail);
  }

  lemma {:induction false} MapHeader(w: Wire, rest: bytes)
    requires WellFormed(w) && w.WMap?
    ensures var bs := Ser(w) + rest;
            |bs| >= 2 && bs[0] == w.ktype && bs[1] == w.vtype &&
            ReadSize(bs[2..]) == Ok(|w.entries|, SerPairs(w.ktype, w.vtype, w.entries) + rest)
  {
    var tail := SerPairs(w.ktype, w.vtype, w.entries) + rest;
    assert (Ser(w) + rest)[2..] == EncInt(4, |w.entries|) + tail;
    ReadSizeEnc(|w.entries|, tail);
  }

  /** Skipping a well-formed value of any depth consumes exactly its bytes. */
  lemma {:induction false} SkipConsumesExactly(w: Wire, rest: bytes)
    requires WellFormed(w)
    ensures Skip(TagOf(w), Ser(w) + rest) == Ok((), rest)
    decreases w, 1
  {
    match w {
      case WStruct(fs) =>
        SkipFieldsExactly(fs, rest);
      case WList(_, _, _) =>
        SkipListExactly(w, rest);
      case WMap(_, _, _) =>
        SkipMapExactly(w, rest);
      case _ =>
        SkipScalarExactly(w, rest);
    }
  }

  lemma {:induction false} SkipListExactly(w: Wire, rest: bytes)
    requires w.WList? && WellFormed(w)
    ensures Skip(TagOf(w), Ser(w) + rest) == Ok((), rest)
    decreases w, 0
  {
    ListHeader(w, rest);
    SkipElemsExactly(w.etype, w.elems, rest);
  }

  lemma {:induction false} SkipMapExactly(w: Wire, rest: bytes)
    requires w.WMap? && WellFormed(w)
    ensures Skip(TagOf(w), Ser(w) + rest) == Ok((), rest)
    decreases w, 0
  {
    MapHeader(w, rest);
    SkipPairsExactly(w.ktype, w.vtype, w.entries, rest);
  }

  lemma {:induction false} FieldHeader(f: WireField, rest: bytes)
    requires WellFormedField(f)
    ensures var bs := SerField(f) + rest;
            |bs| >= 3 && bs[0] == TagOf(f.w) && ReadInt(2, bs[1..]) == Ok(f.id, Ser(f.w) + rest)
  {
    assert (SerField(f) + rest)[1..] == EncInt(2, f.id) + (Ser(f.w) + rest);
    ReadIntEnc(2, f.id, Ser(f.w) + rest);
  }

  lemma {:induction false} SkipFieldExactly(f: WireField, rest: bytes)
    requires WellFormedField(f)
    ensures Skip(TagOf(f.w), Ser(f.w) + rest) == Ok((), rest)
    decreases f, 2
  {
    SkipConsumesExactly(f.w, rest);
  }

  lemma {:induction false} SkipFieldsExactly(fs: seq<WireField>, rest: bytes)
    requires WellFormedFields(fs)
    ensures SkipFields(SerFields(fs) + rest) == Ok((), rest)
    decreases fs, 0
  {
    if fs == [] {
      assert ([T_STOP] + rest)[1..] == rest;
    } else {
      var tail := SerFields(fs[1..]) + rest;
      assert SerFields(fs) + rest == SerField(fs[0]) + tail;
      FieldHeader(fs[0], tail);
      SkipFieldExactly(fs[0], tail);
      SkipFieldsExactly(fs[1..], rest);
    }
  }

  lemma {:induction false} SkipElemsExactly(et: byte, es: seq<Wire>, rest: bytes)
    requires WellFormedElems(et, es)
    ensures SkipElems(et, |es|, SerElems(et, es) + rest) == Ok((), rest)
    decreases es, 0
  {
    if es == [] {
      assert [] + rest == rest;
    } else {
      var tail := SerElems(et, es[1..]) + rest;
      assert SerElems(et, es) + rest == Ser(es[0]) + tail;
      SkipConsumesExactly(es[0], tail);
      SkipElemsExactly(et, es[1..], rest);
    }
  }

  lemma {:induction false} SkipPairExactly(kt: byte, vt: byte, p: WirePair, rest: bytes)
    requires WellFormedPair(kt, vt, p)
    ensures SerPair(kt, vt, p) + rest == Ser(p.key) + (Ser(p.val) + rest)
    ensures Skip(kt, SerPair(kt, vt, p) + rest) == Ok((), Ser(p.val) + rest)
    ensures Skip(vt, Ser(p.val) + rest) == Ok((), rest)
    decreases p, 2
  {
    assert SerPair(kt, vt, p) + rest == Ser(p.key) + (Ser(p.val) + rest);
    SkipConsumesExactly(p.key, Ser(p.val) + rest);
    SkipConsumesExactly(p.val, rest);
  }

  lemma {:induction false} SkipPairsExactly(kt: byte, vt: byte, ps: seq<WirePair>, rest: bytes)
    requires WellFormedPairs(kt, vt, ps)
    ensures SkipPairs(kt, vt, |ps|, SerPairs(kt, vt, ps) + rest) == Ok((), rest)
    decreases ps, 0
  {
    if ps == [] {
      assert [] + rest == rest;
    } else {
      var tail := SerPairs(kt, vt, ps[1..]) + rest;
      assert SerPairs(kt, vt, ps) + rest == SerPair(kt, vt, ps[0]) + tail;
      SkipPairExactly(kt, vt, ps[0], tail);
      SkipPairsExactly(kt, vt, ps[1..], rest);
    }
  }

  // ---------------------------------------------------------------- messages

  const T_CALL: byte := 1
  const T_REPLY: byte := 2
  const T_EXCEPTION: byte := 3
  const T_ONEWAY: byte := 4

  datatype MessageHeader = MessageHeader(name: bytes, mtype: byte, seqid: int) {
    predicate Valid() {
      FitsSize(|name|) && InRange(4, seqid)
    }
  }

  // 0x80010000 read as an int32
  const VERSION_1: int := -0x7fff_0000

  /** writeMessageBegin in strict mode: version and type, name, sequence id (section "Message") */
  function EncMessageBegin(h: MessageHeader): bytes
    requires h.Valid()
  {
    EncInt(4, VERSION_1 + h.mtype) + EncBinary(h.name) + EncInt(4, h.seqid)
  }

  /** The version word carries the message type in its last byte. */
  lemma {:induction false} MessageBeginBytes(h: MessageHeader)
    requires h.Valid()
    ensures EncMessageBegin(h) == [0x80, 1, 0, h.mtype] + (EncInt(4, |h.name|) + h.name) + EncInt(4, h.seqid)
  {
    IntBytes(VERSION_1 + h.mtype);
  }

  /** readMessageBegin: the strict form, or the old unversioned form that starts with the name */
  function ReadMessageBegin(bs: bytes): (r: Parsed<MessageHeader>)
    ensures r.Ok? ==> |r.rest| < |bs| && r.val.Valid()
  {
    ReadIntRange(4, bs);
    var (sz, bs1) :- ReadInt(4, bs);
    if sz < 0 then
      if VERSION_1 <= sz < VERSION_1 + 0x1_0000 then ReadStrictHeader((sz - VERSION_1) % 256, bs1)
      else Fail(BadVersion)
    else ReadOldHeader(sz, bs1)
  }

  function ReadStrictHeader(mtype: byte, bs: bytes): (r: Parsed<MessageHeader>)
    ensures r.Ok? ==> |r.rest| < |bs| && r.val.Valid()
  {
    var (name, bs1) :- ReadBinary(bs);
    ReadIntRange(4, bs1);
    var (seqid, bs2) :- ReadInt(4, bs1);
    Ok(MessageHeader(name, mtype, seqid), bs2)
  }

  function ReadOldHeader(size: nat, bs: bytes): (r: Parsed<MessageHeader>)
    requires FitsSize(size)
    ensures r.Ok? ==> |r.rest| < |bs| && r.val.Valid()
  {
    if |bs| < size then Fail(EndOfFile)
    else
      var (t, bs1) :- ReadInt(1, bs[size..]);
      ReadIntRange(4, bs1);
      var (seqid, bs2) :- ReadInt(4, bs1);
      Ok(MessageHeader(bs[..size], t % 256, seqid), bs2)
  }

  lemma {:induction false} ReadStrictHeaderEnc(h: MessageHeader, rest: bytes)
    requires h.Valid()
    ensures ReadStrictHeader(h.mtype, EncBinary(h.name) + (EncInt(4, h.seqid) + rest)) == Ok(h, rest)
  {
    ReadBinaryEnc(h.name, EncInt(4, h.seqid) + rest);
    ReadIntEnc(4, h.seqid, rest);
  }

  lemma {:induction false} ReadMessageBeginEnc(h: MessageHeader, rest: bytes)
    requires h.Valid()
    ensures ReadMessageBegin(EncMessageBegin(h) + rest) == Ok(h, rest)
  {
    var word := VERSION_1 + h.mtype;
    var tail := EncBinary(h.name) + (EncInt(4, h.seqid) + rest);
    assert EncMessageBegin(h) + rest == EncInt(4, word) + tail;
    assert ReadInt(4, EncInt(4, word) + tail) == Ok(word, tail) by {
      ReadIntEnc(4, word, tail);
    }
    ReadStrictHeaderEnc(h, rest);
  }

  /** The old form, without a version: name, type and sequence id */
  lemma {:induction false} OldFormReads(h: MessageHeader, rest: bytes)
    requires h.Valid() && h.mtype < 128
    ensures ReadMessageBegin(EncBinary(h.name) + ([h.mtype] + (EncInt(4, h.seqid) + rest))) == Ok(h, rest)
  {
    var tail := [h.mtype] + (EncInt(4, h.seqid) + rest);
    var bs := EncBinary(h.name) + tail;
    assert bs == EncInt(4, |h.name|) + (h.name + tail);
    ReadIntEnc(4, |h.name|, h.name + tail);
    OldHeaderReads(h, rest);
  }

  lemma {:induction false} OldHeaderReads(h: MessageHeader, rest: bytes)
    requires h.Valid() && h.mtype < 128
    ensures ReadOldHeader(|h.name|, h.name + ([h.mtype] + (EncInt(4, h.seqid) + rest))) == Ok(h, rest)
  {
    var later := EncInt(4, h.seqid) + rest;
    var tail := [h.mtype] + later;
    assert (h.name + tail)[..|h.name|] == h.name && (h.name + tail)[|h.name|..] == tail;
    assert EncInt(1, h.mtype) == [h.mtype] by {
      assert Pow256(1) == 256 && BigEndian(1, h.mtype) == BigEndian(0, 0) + [h.mtype];
    }
    ReadIntEnc(1, h.mtype, later);
    ReadIntEnc(4, h.seqid, rest);
  }
}
