/**
 The bytes of the HBase structs, requests and replies, with their field ids and type tags written out:
 what another implementation of the thrift2 service has to agree on.
 */
module HBaseWire {
  import opened Bytes
  import opened ThriftBinary
  import opened Schema
  import opened Codec
  import opened CodecLaws
  import opened RoundTrip
  import opened HBaseTypes
  import opened Rpc
  import opened HBaseService
  import ConcurrentClient

  // ---------------------------------------------------------------- pieces

  function Join(parts: seq<bytes>): bytes {
    if parts == [] then [] else parts[0] + Join(parts[1..])
  }

  /** A field: type tag, two bytes of id, value */
  function Fld(tag: byte, id: byte, value: bytes): bytes {
    [tag, 0, id] + value
  }

  function IfSet(isset: bool, field: bytes): bytes {
    if isset then field else []
  }

  function Bool(v: Value): bytes {
    if v.VBool? then [if v.b then 1 else 0] else []
  }

  function Int(width: nat, v: Value): bytes {
    if v.VInt? && InRange(width, v.n) then EncInt(width, v.n) else []
  }

  function Str(v: Value): bytes {
    if v.VStr? && FitsSize(|v.s|) then EncInt(4, |v.s|) + v.s else []
  }

  function Struct(s: Shape, v: Value): bytes {
    if GoodShape(s) && Typed(s, v) then Write(s, v) else []
  }

  /** A list: tag of the elements, number of elements, elements */
  function List(tag: byte, e: Shape, v: Value): bytes {
    if v.VList? && FitsSize(|v.elems|) then [tag] + EncInt(4, |v.elems|) + Join(Elems(e, v.elems)) else []
  }

  function Elems(e: Shape, vs: seq<Value>): seq<bytes> {
    seq(|vs|, k requires 0 <= k < |vs| => Struct(e, vs[k]))
  }

  /** A map from strings to strings */
  function Map(v: Value): bytes {
    if v.VMap? && FitsSize(|v.entries|) then [11, 11] + EncInt(4, |v.entries|) + Join(Pairs(v.entries)) else []
  }

  function Pairs(es: seq<Entry>): seq<bytes> {
    seq(|es|, k requires 0 <= k < |es| => Str(VStr(es[k].key)) + Str(VStr(es[k].val)))
  }

  /** A value of any shape */
  function Payload(s: Shape, v: Value): bytes {
    match s
    case SBool => Bool(v)
    case SInt(width) => Int(width, v)
    case SStr => Str(v)
    case SStruct(_) => Struct(s, v)
    case SList(e) => List(TagOfShape(e), e, v)
    case SMap => Map(v)
  }

  lemma {:induction false} ElemsAreJoined(e: Shape, vs: seq<Value>)
    requires GoodShape(e) && forall k | 0 <= k < |vs| :: Typed(e, vs[k])
    ensures SerElems(TagOfShape(e), ToWireElems(e, vs)) == Join(Elems(e, vs))
    decreases |vs|
  {
    if vs != [] {
      ElemsAreJoined(e, vs[1..]);
      assert ToWireElems(e, vs)[1..] == ToWireElems(e, vs[1..]);
      assert Elems(e, vs)[1..] == Elems(e, vs[1..]);
    }
  }

  lemma {:induction false} PairsAreJoined(es: seq<Entry>)
    requires GoodEntries(es)
    ensures SerPairs(T_STRING, T_STRING, ToWireEntries(es)) == Join(Pairs(es))
    decreases |es|
  {
    if es != [] {
      PairsAreJoined(es[1..]);
      FirstPair(es);
      assert Pairs(es)[1..] == Pairs(es[1..]);
    }
  }

  lemma {:induction false} FirstPair(es: seq<Entry>)
    requires GoodEntries(es) && es != []
    ensures SerPairs(T_STRING, T_STRING, ToWireEntries(es)) ==
            Pairs(es)[0] + SerPairs(T_STRING, T_STRING, ToWireEntries(es[1..]))
  {
    var ps := ToWireEntries(es);
    assert ps[1..] == ToWireEntries(es[1..]);
    StringPair(T_STRING, T_STRING, ps[0]);
  }

  lemma {:induction false} WriteIsPayload(s: Shape, v: Value)
    requires GoodShape(s) && Typed(s, v)
    ensures Write(s, v) == Payload(s, v)
  {
    match s {
      case SList(e) =>
        ElemsAreJoined(e, v.elems);
      case SMap =>
        PairsAreJoined(v.entries);
      case _ =>
    }
  }

  // ---------------------------------------------------------------- structs

  /** One member: optional ones are there if they are set */
  function Piece(f: Field, v: Value, isset: bool): bytes {
    if f.kind.Optional? then IfSet(isset, Head(f) + Payload(f.shape, v)) else Head(f) + Payload(f.shape, v)
  }

  /** Type tag and id */
  function Head(f: Field): bytes {
    if 0 <= f.id < 256 then [TagOfShape(f.shape), 0, f.id] else []
  }

  predicate SmallIds(fs: seq<Field>) {
    forall i | 0 <= i < |fs| :: 0 <= fs[i].id < 256
  }

  /** The members from one on */
  function Pieces(fs: seq<Field>, v: Value, from: nat): seq<bytes>
    requires TypedStruct(fs, v) && from <= |fs|
  {
    seq(|fs| - from, k requires 0 <= k < |fs| - from => Piece(fs[from + k], v.vals[from + k], v.isset[from + k]))
  }

  lemma {:induction false} FieldsAreJoined(fs: seq<Field>, v: Value, from: nat)
    requires GoodFields(fs) && SmallIds(fs) && TypedStruct(fs, v) && from <= |fs|
    ensures SerFields(ToWireFields(fs, v, from)) == Join(Pieces(fs, v, from) + [[0]])
    decreases |fs| - from
  {
    if from < |fs| {
      FieldsAreJoined(fs, v, from + 1);
      PieceIsField(fs, v, from);
      FirstPiece(fs, v, from);
      FirstField(fs, v, from);
    } else {
      assert Pieces(fs, v, from) + [[0]] == [[0]] && [[0]][1..] == [];
      assert [0] + [] == [0];
    }
  }

  lemma {:induction false} FirstPiece(fs: seq<Field>, v: Value, from: nat)
    requires TypedStruct(fs, v) && from < |fs|
    ensures Join(Pieces(fs, v, from) + [[0]]) ==
            Piece(fs[from], v.vals[from], v.isset[from]) + Join(Pieces(fs, v, from + 1) + [[0]])
  {
    var ps := Pieces(fs, v, from) + [[0]];
    assert ps[1..] == Pieces(fs, v, from + 1) + [[0]];
  }

  lemma {:induction false} FirstField(fs: seq<Field>, v: Value, from: nat)
    requires GoodFields(fs) && TypedStruct(fs, v) && from < |fs|
    requires GoodField(fs[from]) && TypedField(fs[from], v.vals[from])
    ensures SerFields(ToWireFields(fs, v, from)) ==
            (if Written(fs, v, from) then SerField(ToWireField(fs[from], v.vals[from])) else []) +
            SerFields(ToWireFields(fs, v, from + 1))
  {
    if Written(fs, v, from) {
      var later := ToWireFields(fs, v, from + 1);
      assert ([ToWireField(fs[from], v.vals[from])] + later)[1..] == later;
    }
  }

  lemma {:induction false} PieceIsField(fs: seq<Field>, v: Value, i: nat)
    requires GoodFields(fs) && SmallIds(fs) && TypedStruct(fs, v) && i < |fs|
    ensures GoodField(fs[i]) && TypedField(fs[i], v.vals[i])
    ensures Piece(fs[i], v.vals[i], v.isset[i]) ==
            if Written(fs, v, i) then SerField(ToWireField(fs[i], v.vals[i])) else []
  {
    assert GoodField(fs[i]) && TypedField(fs[i], v.vals[i]);
    MemberIsField(fs[i], v.vals[i]);
  }

  lemma {:induction false} MemberIsField(f: Field, v: Value)
    requires GoodField(f) && 0 <= f.id < 256 && TypedField(f, v)
    ensures Head(f) + Payload(f.shape, v) == SerField(ToWireField(f, v))
  {
    IdBytes(f.id);
    WriteIsPayload(f.shape, v);
    assert Head(f) == [TagOfShape(f.shape)] + EncInt(2, f.id);
  }

  /** A struct is its members that are written, in the order of the table, then a stop byte. */
  lemma {:induction false} StructIsJoined(s: Shape, v: Value, ps: seq<bytes>)
    requires s.SStruct? && GoodShape(s) && SmallIds(s.fields) && TypedStruct(s.fields, v)
    requires |ps| == |s.fields| + 1 && ps[|s.fields|] == [0]
    requires forall i | 0 <= i < |s.fields| :: ps[i] == Piece(s.fields[i], v.vals[i], v.isset[i])
    ensures Write(s, v) == Join(ps)
  {
    FieldsAreJoined(s.fields, v, 0);
    assert ps == Pieces(s.fields, v, 0) + [[0]];
  }

  function TTimeRangePieces(x: seq<Value>, isset: seq<bool>): seq<bytes>
    requires |x| == 2 == |isset|
  {
    [
      Fld(10, 1, Int(8, x[0])),
      Fld(10, 2, Int(8, x[1])),
      [0]]
  }

  lemma {:induction false} TTimeRangeBytes(v: Value)
    requires TypedStruct(TTimeRange.fields, v)
    ensures GoodShape(TTimeRange) && Write(TTimeRange, v) == Join(TTimeRangePieces(v.vals, v.isset))
  {
    LeafTablesAreGood();
    StructIsJoined(TTimeRange, v, TTimeRangePieces(v.vals, v.isset));
  }

  function TColumnPieces(x: seq<Value>, isset: seq<bool>): seq<bytes>
    requires |x| == 3 == |isset|
  {
    [
      Fld(11, 1, Str(x[0])),
      IfSet(isset[1], Fld(11, 2, Str(x[1]))),
      IfSet(isset[2], Fld(10, 3, Int(8, x[2]))),
      [0]]
  }

  lemma {:induction false} TColumnBytes(v: Value)
    requires TypedStruct(TColumn.fields, v)
    ensures GoodShape(TColumn) && Write(TColumn, v) == Join(TColumnPieces(v.vals, v.isset))
  {
    LeafTablesAreGood();
    StructIsJoined(TColumn, v, TColumnPieces(v.vals, v.isset));
  }

  function TColumnValuePieces(x: seq<Value>, isset: seq<bool>): seq<bytes>
    requires |x| == 5 == |isset|
  {
    [
      Fld(11, 1, Str(x[0])),
      Fld(11, 2, Str(x[1])),
      Fld(11, 3, Str(x[2])),
      IfSet(isset[3], Fld(10, 4, Int(8, x[3]))),
      IfSet(isset[4], Fld(11, 5, Str(x[4]))),
      [0]]
  }

  lemma {:induction false} TColumnValueMembers1To4(x: seq<Value>, isset: seq<bool>)
    requires |x| == 5 == |isset|
    ensures |TColumnValue.fields| == 5
    ensures forall i | 0 <= i < 4 :: TColumnValuePieces(x, isset)[i] == Piece(TColumnValue.fields[i], x[i], isset[i])
  {
  }

  lemma {:induction false} TColumnValueMembers5To5(x: seq<Value>, isset: seq<bool>)
    requires |x| == 5 == |isset|
    ensures |TColumnValue.fields| == 5
    ensures forall i | 4 <= i < 5 :: TColumnValuePieces(x, isset)[i] == Piece(TColumnValue.fields[i], x[i], isset[i])
  {
  }

  lemma {:induction false} TColumnValueBytes(v: Value)
    requires TypedStruct(TColumnValue.fields, v)
    ensures GoodShape(TColumnValue) && Write(TColumnValue, v) == Join(TColumnValuePieces(v.vals, v.isset))
  {
    LeafTablesAreGood();
    TColumnValueMembers1To4(v.vals, v.isset);
    TColumnValueMembers5To5(v.vals, v.isset);
    StructIsJoined(TColumnValue, v, TColumnValuePieces(v.vals, v.isset));
  }

  function TColumnIncrementPieces(x: seq<Value>, isset: seq<bool>): seq<bytes>
    requires |x| == 3 == |isset|
  {
    [
      Fld(11, 1, Str(x[0])),
      Fld(11, 2, Str(x[1])),
      IfSet(isset[2], Fld(10, 3, Int(8, x[2]))),
      [0]]
  }

  lemma {:induction false} TColumnIncrementBytes(v: Value)
    requires TypedStruct(TColumnIncrement.fields, v)
    ensures GoodShape(TColumnIncrement) && Write(TColumnIncrement, v) == Join(TColumnIncrementPieces(v.vals, v.isset))
  {
    LeafTablesAreGood();
    StructIsJoined(TColumnIncrement, v, TColumnIncrementPieces(v.vals, v.isset));
  }

  function TResultPieces(x: seq<Value>, isset: seq<bool>): seq<bytes>
    requires |x| == 2 == |isset|
  {
    [
      IfSet(isset[0], Fld(11, 1, Str(x[0]))),
      Fld(15, 2, List(12, TColumnValue, x[1])),
      [0]]
  }

  lemma {:induction false} TResultBytes(v: Value)
    requires TypedStruct(TResult.fields, v)
    ensures GoodShape(TResult) && Write(TResult, v) == Join(TResultPieces(v.vals, v.isset))
  {
    LeafTablesAreGood();
    StructIsJoined(TResult, v, TResultPieces(v.vals, v.isset));
  }

  function TAuthorizationPieces(x: seq<Value>, isset: seq<bool>): seq<bytes>
    requires |x| == 1 == |isset|
  {
    [
      IfSet(isset[0], Fld(15, 1, List(11, SStr, x[0]))),
      [0]]
  }

  lemma {:induction false} TAuthorizationBytes(v: Value)
    requires TypedStruct(TAuthorization.fields, v)
    ensures GoodShape(TAuthorization) && Write(TAuthorization, v) == Join(TAuthorizationPieces(v.vals, v.isset))
  {
    LeafTablesAreGood();
    StructIsJoined(TAuthorization, v, TAuthorizationPieces(v.vals, v.isset));
  }

  function TCellVisibilityPieces(x: seq<Value>, isset: seq<bool>): seq<bytes>
    requires |x| == 1 == |isset|
  {
    [
      IfSet(isset[0], Fld(11, 1, Str(x[0]))),
      [0]]
  }

  lemma {:induction false} TCellVisibilityBytes(v: Value)
    requires TypedStruct(TCellVisibility.fields, v)
    ensures GoodShape(TCellVisibility) && Write(TCellVisibility, v) == Join(TCellVisibilityPieces(v.vals, v.isset))
  {
    LeafTablesAreGood();
    StructIsJoined(TCellVisibility, v, TCellVisibilityPieces(v.vals, v.isset));
  }

  function TGetPieces(x: seq<Value>, isset: seq<bool>): seq<bytes>
    requires |x| == 8 == |isset|
  {
    [
      Fld(11, 1, Str(x[0])),
      IfSet(isset[1], Fld(15, 2, List(12, TColumn, x[1]))),
      IfSet(isset[2], Fld(10, 3, Int(8, x[2]))),
      IfSet(isset[3], Fld(12, 4, Struct(TTimeRange, x[3]))),
      IfSet(isset[4], Fld(8, 5, Int(4, x[4]))),
      IfSet(isset[5], Fld(11, 6, Str(x[5]))),
      IfSet(isset[6], Fld(13, 7, Map(x[6]))),
      IfSet(isset[7], Fld(12, 8, Struct(TAuthorization, x[7]))),
      [0]]
  }

  lemma {:induction false} TGetMembers1To4(x: seq<Value>, isset: seq<bool>)
    requires |x| == 8 == |isset|
    ensures |TGet.fields| == 8
    ensures forall i | 0 <= i < 4 :: TGetPieces(x, isset)[i] == Piece(TGet.fields[i], x[i], isset[i])
  {
  }

  lemma {:induction false} TGetMembers5To8(x: seq<Value>, isset: seq<bool>)
    requires |x| == 8 == |isset|
    ensures |TGet.fields| == 8
    ensures forall i | 4 <= i < 8 :: TGetPieces(x, isset)[i] == Piece(TGet.fields[i], x[i], isset[i])
  {
  }

  lemma {:induction false} TGetBytes(v: Value)
    requires TypedStruct(TGet.fields, v)
    ensures GoodShape(TGet) && Write(TGet, v) == Join(TGetPieces(v.vals, v.isset))
  {
    ReadTablesAreGood();
    TGetMembers1To4(v.vals, v.isset);
    TGetMembers5To8(v.vals, v.isset);
    StructIsJoined(TGet, v, TGetPieces(v.vals, v.isset));
  }

  function TPutPieces(x: seq<Value>, isset: seq<bool>): seq<bytes>
    requires |x| == 6 == |isset|
  {
    [
      Fld(11, 1, Str(x[0])),
      Fld(15, 2, List(12, TColumnValue, x[1])),
      IfSet(isset[2], Fld(10, 3, Int(8, x[2]))),
      IfSet(isset[3], Fld(13, 5, Map(x[3]))),
      IfSet(isset[4], Fld(8, 6, Int(4, x[4]))),
      IfSet(isset[5], Fld(12, 7, Struct(TCellVisibility, x[5]))),
      [0]]
  }

  lemma {:induction false} TPutMembers1To4(x: seq<Value>, isset: seq<bool>)
    requires |x| == 6 == |isset|
    ensures |TPut.fields| == 6
    ensures forall i | 0 <= i < 4 :: TPutPieces(x, isset)[i] == Piece(TPut.fields[i], x[i], isset[i])
  {
  }

  lemma {:induction false} TPutMembers5To6(x: seq<Value>, isset: seq<bool>)
    requires |x| == 6 == |isset|
    ensures |TPut.fields| == 6
    ensures forall i | 4 <= i < 6 :: TPutPieces(x, isset)[i] == Piece(TPut.fields[i], x[i], isset[i])
  {
  }

  lemma {:induction false} TPutBytes(v: Value)
    requires TypedStruct(TPut.fields, v)
    ensures GoodShape(TPut) && Write(TPut, v) == Join(TPutPieces(v.vals, v.isset))
  {
    WriteTablesAreGood();
    TPutMembers1To4(v.vals, v.isset);
    TPutMembers5To6(v.vals, v.isset);
    StructIsJoined(TPut, v, TPutPieces(v.vals, v.isset));
  }

  function TDeletePieces(x: seq<Value>, isset: seq<bool>): seq<bytes>
    requires |x| == 6 == |isset|
  {
    [
      Fld(11, 1, Str(x[0])),
      IfSet(isset[1], Fld(15, 2, List(12, TColumn, x[1]))),
      IfSet(isset[2], Fld(10, 3, Int(8, x[2]))),
      IfSet(isset[3], Fld(8, 4, Int(4, x[3]))),
      IfSet(isset[4], Fld(13, 6, Map(x[4]))),
      IfSet(isset[5], Fld(8, 7, Int(4, x[5]))),
      [0]]
  }

  lemma {:induction false} TDeleteMembers1To4(x: seq<Value>, isset: seq<bool>)
    requires |x| == 6 == |isset|
    ensures |TDelete.fields| == 6
    ensures forall i | 0 <= i < 4 :: TDeletePieces(x, isset)[i] == Piece(TDelete.fields[i], x[i], isset[i])
  {
  }

  lemma {:induction false} TDeleteMembers5To6(x: seq<Value>, isset: seq<bool>)
    requires |x| == 6 == |isset|
    ensures |TDelete.fields| == 6
    ensures forall i | 4 <= i < 6 :: TDeletePieces(x, isset)[i] == Piece(TDelete.fields[i], x[i], isset[i])
  {
  }

  lemma {:induction false} TDeleteBytes(v: Value)
    requires TypedStruct(TDelete.fields, v)
    ensures GoodShape(TDelete) && Write(TDelete, v) == Join(TDeletePieces(v.vals, v.isset))
  {
    WriteTablesAreGood();
    TDeleteMembers1To4(v.vals, v.isset);
    TDeleteMembers5To6(v.vals, v.isset);
    StructIsJoined(TDelete, v, TDeletePieces(v.vals, v.isset));
  }

  function TIncrementPieces(x: seq<Value>, isset: seq<bool>): seq<bytes>
    requires |x| == 5 == |isset|
  {
    [
      Fld(11, 1, Str(x[0])),
      Fld(15, 2, List(12, TColumnIncrement, x[1])),
      IfSet(isset[2], Fld(13, 4, Map(x[2]))),
      IfSet(isset[3], Fld(8, 5, Int(4, x[3]))),
      IfSet(isset[4], Fld(12, 6, Struct(TCellVisibility, x[4]))),
      [0]]
  }

  lemma {:induction false} TIncrementMembers1To4(x: seq<Value>, isset: seq<bool>)
    requires |x| == 5 == |isset|
    ensures |TIncrement.fields| == 5
    ensures forall i | 0 <= i < 4 :: TIncrementPieces(x, isset)[i] == Piece(TIncrement.fields[i], x[i], isset[i])
  {
  }

  lemma {:induction false} TIncrementMembers5To5(x: seq<Value>, isset: seq<bool>)
    requires |x| == 5 == |isset|
    ensures |TIncrement.fields| == 5
    ensures forall i | 4 <= i < 5 :: TIncrementPieces(x, isset)[i] == Piece(TIncrement.fields[i], x[i], isset[i])
  {
  }

  lemma {:induction false} TIncrementBytes(v: Value)
    requires TypedStruct(TIncrement.fields, v)
    ensures GoodShape(TIncrement) && Write(TIncrement, v) == Join(TIncrementPieces(v.vals, v.isset))
  {
    WriteTablesAreGood();
    TIncrementMembers1To4(v.vals, v.isset);
    TIncrementMembers5To5(v.vals, v.isset);
    StructIsJoined(TIncrement, v, TIncrementPieces(v.vals, v.isset));
  }

  function TAppendPieces(x: seq<Value>, isset: seq<bool>): seq<bytes>
    requires |x| == 5 == |isset|
  {
    [
      Fld(11, 1, Str(x[0])),
      Fld(15, 2, List(12, TColumnValue, x[1])),
      IfSet(isset[2], Fld(13, 3, Map(x[2]))),
      IfSet(isset[3], Fld(8, 4, Int(4, x[3]))),
      IfSet(isset[4], Fld(12, 5, Struct(TCellVisibility, x[4]))),
      [0]]
  }

  lemma {:induction false} TAppendMembers1To4(x: seq<Value>, isset: seq<bool>)
    requires |x| == 5 == |isset|
    ensures |TAppend.fields| == 5
    ensures forall i | 0 <= i < 4 :: TAppendPieces(x, isset)[i] == Piece(TAppend.fields[i], x[i], isset[i])
  {
  }

  lemma {:induction false} TAppendMembers5To5(x: seq<Value>, isset: seq<bool>)
    requires |x| == 5 == |isset|
    ensures |TAppend.fields| == 5
    ensures forall i | 4 <= i < 5 :: TAppendPieces(x, isset)[i] == Piece(TAppend.fields[i], x[i], isset[i])
  {
  }

  lemma {:induction false} TAppendBytes(v: Value)
    requires TypedStruct(TAppend.fields, v)
    ensures GoodShape(TAppend) && Write(TAppend, v) == Join(TAppendPieces(v.vals, v.isset))
  {
    WriteTablesAreGood();
    TAppendMembers1To4(v.vals, v.isset);
    TAppendMembers5To5(v.vals, v.isset);
    StructIsJoined(TAppend, v, TAppendPieces(v.vals, v.isset));
  }

  function TScanPieces(x: seq<Value>, isset: seq<bool>): seq<bytes>
    requires |x| == 11 == |isset|
  {
    [
      IfSet(isset[0], Fld(11, 1, Str(x[0]))),
      IfSet(isset[1], Fld(11, 2, Str(x[1]))),
      IfSet(isset[2], Fld(15, 3, List(12, TColumn, x[2]))),
      IfSet(isset[3], Fld(8, 4, Int(4, x[3]))),
      IfSet(isset[4], Fld(8, 5, Int(4, x[4]))),
      IfSet(isset[5], Fld(12, 6, Struct(TTimeRange, x[5]))),
      IfSet(isset[6], Fld(11, 7, Str(x[6]))),
      IfSet(isset[7], Fld(8, 8, Int(4, x[7]))),
      IfSet(isset[8], Fld(13, 9, Map(x[8]))),
      IfSet(isset[9], Fld(12, 10, Struct(TAuthorization, x[9]))),
      IfSet(isset[10], Fld(2, 11, Bool(x[10]))),
      [0]]
  }

  lemma {:induction false} TScanMembers1To3(x: seq<Value>, isset: seq<bool>)
    requires |x| == 11 == |isset|
    ensures |TScan.fields| == 11
    ensures forall i | 0 <= i < 3 :: TScanPieces(x, isset)[i] == Piece(TScan.fields[i], x[i], isset[i])
  {
  }

  lemma {:induction false} TScanMembers4To6(x: seq<Value>, isset: seq<bool>)
    requires |x| == 11 == |isset|
    ensures |TScan.fields| == 11
    ensures forall i | 3 <= i < 6 :: TScanPieces(x, isset)[i] == Piece(TScan.fields[i], x[i], isset[i])
  {
  }

  lemma {:induction false} TScanMembers7To9(x: seq<Value>, isset: seq<bool>)
    requires |x| == 11 == |isset|
    ensures |TScan.fields| == 11
    ensures forall i | 6 <= i < 9 :: TScanPieces(x, isset)[i] == Piece(TScan.fields[i], x[i], isset[i])
  {
  }

  lemma {:induction false} TScanMembers10To11(x: seq<Value>, isset: seq<bool>)
    requires |x| == 11 == |isset|
    ensures |TScan.fields| == 11
    ensures forall i | 9 <= i < 11 :: TScanPieces(x, isset)[i] == Piece(TScan.fields[i], x[i], isset[i])
  {
  }

  lemma {:induction false} TScanBytes(v: Value)
    requires TypedStruct(TScan.fields, v)
    ensures GoodShape(TScan) && Write(TScan, v) == Join(TScanPieces(v.vals, v.isset))
  {
    ReadTablesAreGood();
    TScanMembers1To3(v.vals, v.isset);
    TScanMembers4To6(v.vals, v.isset);
    TScanMembers7To9(v.vals, v.isset);
    TScanMembers10To11(v.vals, v.isset);
    StructIsJoined(TScan, v, TScanPieces(v.vals, v.isset));
  }

  function TMutationPieces(x: seq<Value>, isset: seq<bool>): seq<bytes>
    requires |x| == 2 == |isset|
  {
    [
      Fld(12, 1, Struct(TPut, x[0])),
      Fld(12, 2, Struct(TDelete, x[1])),
      [0]]
  }

  lemma {:induction false} TMutationBytes(v: Value)
    requires TypedStruct(TMutation.fields, v)
    ensures GoodShape(TMutation) && Write(TMutation, v) == Join(TMutationPieces(v.vals, v.isset))
  {
    WriteTablesAreGood();
    StructIsJoined(TMutation, v, TMutationPieces(v.vals, v.isset));
  }

  function TRowMutationsPieces(x: seq<Value>, isset: seq<bool>): seq<bytes>
    requires |x| == 2 == |isset|
  {
    [
      Fld(11, 1, Str(x[0])),
      Fld(15, 2, List(12, TMutation, x[1])),
      [0]]
  }

  lemma {:induction false} TRowMutationsBytes(v: Value)
    requires TypedStruct(TRowMutations.fields, v)
    ensures GoodShape(TRowMutations) && Write(TRowMutations, v) == Join(TRowMutationsPieces(v.vals, v.isset))
  {
    WriteTablesAreGood();
    StructIsJoined(TRowMutations, v, TRowMutationsPieces(v.vals, v.isset));
  }

  function TIOErrorPieces(x: seq<Value>, isset: seq<bool>): seq<bytes>
    requires |x| == 1 == |isset|
  {
    [
      IfSet(isset[0], Fld(11, 1, Str(x[0]))),
      [0]]
  }

  lemma {:induction false} TIOErrorBytes(v: Value)
    requires TypedStruct(TIOError.fields, v)
    ensures GoodShape(TIOError) && Write(TIOError, v) == Join(TIOErrorPieces(v.vals, v.isset))
  {
    LeafTablesAreGood();
    StructIsJoined(TIOError, v, TIOErrorPieces(v.vals, v.isset));
  }

  function TIllegalArgumentPieces(x: seq<Value>, isset: seq<bool>): seq<bytes>
    requires |x| == 1 == |isset|
  {
    [
      IfSet(isset[0], Fld(11, 1, Str(x[0]))),
      [0]]
  }

  lemma {:induction false} TIllegalArgumentBytes(v: Value)
    requires TypedStruct(TIllegalArgument.fields, v)
    ensures GoodShape(TIllegalArgument) && Write(TIllegalArgument, v) == Join(TIllegalArgumentPieces(v.vals, v.isset))
  {
    LeafTablesAreGood();
    StructIsJoined(TIllegalArgument, v, TIllegalArgumentPieces(v.vals, v.isset));
  }

  // ---------------------------------------------------------------- what a new object holds, what a reader requires

  /** The members that start with a value other than zero or empty, which is 1 each time, and set */
  lemma {:induction false} IncrementPreset()
    ensures GoodShape(TColumnIncrement)
    ensures Default(TColumnIncrement) == VStruct([VStr([]), VStr([]), VInt(1)], [false, false, true])
  {
    LeafTablesAreGood();
    var d := DefaultStruct(TColumnIncrement.fields);
    assert d.vals == [VStr([]), VStr([]), VInt(1)] && d.isset == [false, false, true];
  }

  lemma {:induction false} DeletePreset()
    ensures GoodShape(TDelete)
    ensures |Default(TDelete).isset| == 6 && forall i | 0 <= i < 6 :: Default(TDelete).isset[i] == (i == 3)
    ensures Default(TDelete).vals[3] == VInt(1)
  {
    WriteTablesAreGood();
  }

  lemma {:induction false} ScanPreset()
    ensures GoodShape(TScan)
    ensures |Default(TScan).isset| == 11 && forall i | 0 <= i < 11 :: Default(TScan).isset[i] == (i == 4)
    ensures Default(TScan).vals[4] == VInt(1)
  {
    ReadTablesAreGood();
  }

  /** Without these a reader throws INVALID_DATA. */
  predicate Requires(s: Shape, ids: set<int>) {
    s.SStruct? && forall i | 0 <= i < |s.fields| :: s.fields[i].kind.Required? <==> s.fields[i].id in ids
  }

  lemma {:induction false} RequiredInParts()
    ensures Requires(TTimeRange, {1, 2}) && Requires(TColumn, {1}) && Requires(TColumnValue, {1, 2, 3})
    ensures Requires(TColumnIncrement, {1, 2}) && Requires(TResult, {2}) && Requires(TAuthorization, {})
    ensures Requires(TCellVisibility, {}) && Requires(TIOError, {}) && Requires(TIllegalArgument, {})
  {
  }

  lemma {:induction false} RequiredInOperations()
    ensures Requires(TGet, {1}) && Requires(TPut, {1, 2}) && Requires(TDelete, {1}) && Requires(TIncrement, {1, 2})
    ensures Requires(TAppend, {1, 2}) && Requires(TScan, {}) && Requires(TMutation, {})
    ensures Requires(TRowMutations, {1, 2})
  {
  }

  // ---------------------------------------------------------------- requests

  /** Methods of a table and a struct: place in the registry, name, and the struct */
  predicate TakesStruct(i: nat, name: string, s: Shape) {
    || (i == 0 && name == "exists" && s == TGet) || (i == 1 && name == "get" && s == TGet)
    || (i == 3 && name == "put" && s == TPut) || (i == 6 && name == "deleteSingle" && s == TDelete)
    || (i == 9 && name == "increment" && s == TIncrement) || (i == 10 && name == "append" && s == TAppend)
    || (i == 11 && name == "openScanner" && s == TScan) || (i == 14 && name == "mutateRow" && s == TRowMutations)
  }

  /** Methods of a table and a list of structs */
  predicate TakesList(i: nat, name: string, s: Shape) {
    || (i == 2 && name == "getMultiple" && s == TGet) || (i == 5 && name == "putMultiple" && s == TPut)
    || (i == 7 && name == "deleteMultiple" && s == TDelete)
  }

  /** Methods of a table, a cell, a value and a struct */
  predicate TakesCheck(i: nat, name: string, s: Shape) {
    (i == 4 && name == "checkAndPut" && s == TPut) || (i == 8 && name == "checkAndDelete" && s == TDelete)
  }

  lemma {:induction false} StructSignature(i: nat, name: string, s: Shape)
    requires TakesStruct(i, name, s)
    ensures s.SStruct? && GoodShape(s)
    ensures i < |Methods()| && Methods()[i].name == Ascii(name) && Methods()[i].args == TableAnd(Req(2, s))
  {
    ReadTablesAreGood();
    WriteTablesAreGood();
  }

  lemma {:induction false} ListSignature(i: nat, name: string, s: Shape)
    requires TakesList(i, name, s)
    ensures s.SStruct? && GoodShape(s)
    ensures i < |Methods()| && Methods()[i].name == Ascii(name) && Methods()[i].args == TableAnd(Req(2, SList(s)))
  {
    ReadTablesAreGood();
    WriteTablesAreGood();
  }

  lemma {:induction false} CheckSignature(i: nat, name: string, s: Shape)
    requires TakesCheck(i, name, s)
    ensures s.SStruct? && GoodShape(s)
    ensures i < |Methods()| && Methods()[i].name == Ascii(name) && Methods()[i].args == CheckAnd(s)
  {
    WriteTablesAreGood();
  }

  lemma {:induction false} StructRequest(i: nat, name: string, s: Shape, v: Value)
    requires TakesStruct(i, name, s) && i < |Methods()| && Typed(Methods()[i].args, v)
    ensures Methods()[i].name == Ascii(name) && GoodShape(Methods()[i].args) && v.VStruct? && |v.vals| == 2
    ensures Write(Methods()[i].args, v) ==
            Join([Fld(11, 1, Str(v.vals[0])), Fld(12, 2, Struct(s, v.vals[1])), [0]])
  {
    StructSignature(i, name, s);
    TableAndBytes(s, v, [Fld(11, 1, Str(v.vals[0])), Fld(12, 2, Struct(s, v.vals[1])), [0]]);
  }

  lemma {:induction false} TableAndBytes(s: Shape, v: Value, ps: seq<bytes>)
    requires GoodShape(s) && Typed(TableAnd(Req(2, s)), v) && v.VStruct? && |v.vals| == 2
    requires ps == [Fld(11, 1, Str(v.vals[0])), Fld(TagOfShape(s), 2, Payload(s, v.vals[1])), [0]]
    ensures GoodShape(TableAnd(Req(2, s))) && Write(TableAnd(Req(2, s)), v) == Join(ps)
  {
    TableAndIsGood(s);
    StructIsJoined(TableAnd(Req(2, s)), v, ps);
  }

  lemma {:induction false} ListRequest(i: nat, name: string, s: Shape, v: Value)
    requires TakesList(i, name, s) && i < |Methods()| && Typed(Methods()[i].args, v)
    ensures Methods()[i].name == Ascii(name) && GoodShape(Methods()[i].args) && v.VStruct? && |v.vals| == 2
    ensures Write(Methods()[i].args, v) ==
            Join([Fld(11, 1, Str(v.vals[0])), Fld(15, 2, List(12, s, v.vals[1])), [0]])
  {
    ListSignature(i, name, s);
    GoodList(s);
    TableAndBytes(SList(s), v, [Fld(11, 1, Str(v.vals[0])), Fld(15, 2, List(12, s, v.vals[1])), [0]]);
  }

  lemma {:induction false} CheckRequest(i: nat, name: string, s: Shape, v: Value)
    requires TakesCheck(i, name, s) && i < |Methods()| && Typed(Methods()[i].args, v)
    ensures Methods()[i].name == Ascii(name) && GoodShape(Methods()[i].args) && v.VStruct? && |v.vals| == 6
    ensures Write(Methods()[i].args, v) == Join(CheckPieces(s, v.vals))
  {
    CheckSignature(i, name, s);
    CheckAndIsGood(s);
    CheckMembers1To3(s, v.vals, v.isset);
    CheckMembers4To6(s, v.vals, v.isset);
    StructIsJoined(CheckAnd(s), v, CheckPieces(s, v.vals));
  }

  function CheckPieces(s: Shape, x: seq<Value>): seq<bytes>
    requires |x| == 6
  {
    [Fld(11, 1, Str(x[0])), Fld(11, 2, Str(x[1])), Fld(11, 3, Str(x[2])), Fld(11, 4, Str(x[3])),
     Fld(11, 5, Str(x[4])), Fld(12, 6, Struct(s, x[5])), [0]]
  }

  lemma {:induction false} CheckMembers1To3(s: Shape, x: seq<Value>, isset: seq<bool>)
    requires |x| == 6 == |isset| && s.SStruct?
    ensures |CheckAnd(s).fields| == 6
    ensures forall i | 0 <= i < 3 :: CheckPieces(s, x)[i] == Piece(CheckAnd(s).fields[i], x[i], isset[i])
  {
  }

  lemma {:induction false} CheckMembers4To6(s: Shape, x: seq<Value>, isset: seq<bool>)
    requires |x| == 6 == |isset| && s.SStruct?
    ensures |CheckAnd(s).fields| == 6
    ensures forall i | 3 <= i < 6 :: CheckPieces(s, x)[i] == Piece(CheckAnd(s).fields[i], x[i], isset[i])
  {
  }

  function ScannerMethod(i: nat): string {
    if i == 12 then "getScannerRows" else if i == 13 then "closeScanner" else "getScannerResults"
  }

  /** The methods of scanners */
  lemma {:induction false} ScannerRequest(i: nat, v: Value)
    requires (i == 12 || i == 13 || i == 15) && i < |Methods()| && Typed(Methods()[i].args, v)
    ensures Methods()[i].name == Ascii(ScannerMethod(i))
    ensures GoodShape(Methods()[i].args) && v.VStruct? && |v.vals| == (if i == 12 then 2 else if i == 13 then 1 else 3)
    ensures Write(Methods()[i].args, v) == Join(ScannerPieces(v.vals))
  {
    ScanMethodsAreGood();
    ScannerSignature(i);
    StructIsJoined(Methods()[i].args, v, ScannerPieces(v.vals));
  }

  /** A scanner id, alone or with a number of rows; or a table, a scan and a number of rows */
  function ScannerPieces(x: seq<Value>): seq<bytes> {
    if |x| == 1 then [Fld(8, 1, Int(4, x[0])), [0]]
    else if |x| == 2 then [Fld(8, 1, Int(4, x[0])), Fld(8, 2, Int(4, x[1])), [0]]
    else if |x| == 3 then [Fld(11, 1, Str(x[0])), Fld(12, 2, Struct(TScan, x[1])), Fld(8, 3, Int(4, x[2])), [0]]
    else []
  }

  lemma {:induction false} ScannerSignature(i: nat)
    requires i == 12 || i == 13 || i == 15
    ensures i < |Methods()|
    ensures Methods()[i].name == Ascii(ScannerMethod(i))
    ensures Methods()[i].args ==
            if i == 12 then SStruct([Req(1, I32), AlwaysPreset(2, I32, 1)])
            else if i == 13 then SStruct([Req(1, I32)])
            else SStruct([Req(1, SStr), Req(2, TScan), AlwaysPreset(3, I32, 1)])
  {
  }

  // ---------------------------------------------------------------- replies

  /** The body of a reply: a returned value is field 0, the declared exceptions are fields 1 and 2, a void
      method that returns writes nothing, and any other exception is a TApplicationException of type 0. */
  lemma {:induction false} ReplyBytes(m: Method, o: Outcome)
    requires GoodMethod(m) && GoodOutcome(m, o)
    ensures ReplyBody(m, o) == match o
      case Returned(v) =>
        if v.Some? then Join([Fld(TagOfShape(m.ret.value), 0, Payload(m.ret.value, v.value)), [0]]) else [0]
      case ThrewIO(e) => Join([Fld(12, 1, Struct(TIOError, e)), [0]])
      case ThrewIA(e) => Join([Fld(12, 2, Struct(TIllegalArgument, e)), [0]])
      case ThrewOther(w) => Join([Fld(11, 1, EncInt(4, |w|) + w), Fld(8, 2, [0, 0, 0, 0]), [0]])
  {
    if o.ThrewOther? {
      ErrorBytes(o.what);
    } else {
      ArmsAreGood(m);
      ServerResultArm(m, o);
      ArmBytes(m, o);
    }
  }

  lemma {:induction false} ErrorBytes(what: bytes)
    requires FitsSize(|what|)
    ensures GoodShape(AppException)
    ensures Write(AppException, AppValue(what, UNKNOWN)) ==
            Join([Fld(11, 1, EncInt(4, |what|) + what), Fld(8, 2, [0, 0, 0, 0]), [0]])
  {
    AppExceptionIsGood();
    IntBytes(0);
    StructIsJoined(AppException, AppValue(what, UNKNOWN),
                   [Fld(11, 1, EncInt(4, |what|) + what), Fld(8, 2, [0, 0, 0, 0]), [0]]);
  }

  lemma {:induction false} ArmBytes(m: Method, o: Outcome)
    requires GoodMethod(m) && GoodOutcome(m, o) && !o.ThrewOther?
    ensures GoodFields(Arms(m)) && TypedStruct(Arms(m), ServerResult(m, o)) && ArmOf(m, o).value <= |Arms(m)|
    ensures var fs, i, r := Arms(m), ArmOf(m, o).value, ServerResult(m, o);
            && (i == |fs| ==> Ser(ResultToWire(fs, r)) == [0])
            && (i < |fs| ==> Ser(ResultToWire(fs, r)) == Join([Piece(fs[i], r.vals[i], r.isset[i]), [0]]))
  {
    ArmsAreGood(m);
    ServerResultArm(m, o);
    var fs, i, r := Arms(m), ArmOf(m, o).value, ServerResult(m, o);
    if i < |fs| {
      OneArmBytes(fs, r, i);
    }
  }

  lemma {:induction false} OneArmBytes(fs: seq<Field>, r: Value, i: nat)
    requires GoodFields(fs) && SmallIds(fs) && TypedStruct(fs, r) && i < |fs| && i == FirstSet(r.isset)
    requires forall k | 0 <= k < |fs| :: fs[k].kind.Plain?
    ensures Ser(ResultToWire(fs, r)) == Join([Piece(fs[i], r.vals[i], r.isset[i]), [0]])
  {
    PieceIsField(fs, r, i);
    var f := ToWireField(fs[i], r.vals[i]);
    assert [f][1..] == [];
    assert SerFields([f]) == SerField(f) + [0];
    JoinTwo(SerField(f), [0]);
  }

  lemma {:induction false} JoinTwo(p: bytes, q: bytes)
    ensures Join([p, q]) == p + q
  {
    assert [p, q][1..] == [q] && [q][1..] == [];
    assert Join([q]) == q + Join([]) == q;
  }

  /** What the methods return, and which of them declare TIllegalArgument */
  lemma {:induction false} Returns(i: nat)
    requires i < |Methods()|
    ensures Methods()[i].hasIa <==> i == 12 || i == 13
    ensures Methods()[i].ret ==
            if i == 0 || i == 4 || i == 8 then Some(SBool)
            else if i == 1 || i == 9 || i == 10 then Some(TResult)
            else if i == 2 || i == 12 || i == 15 then Some(SList(TResult))
            else if i == 7 then Some(SList(TDelete))
            else if i == 11 then Some(SInt(4))
            else None
  {
  }

  /** All that is proved of the concurrent client holds of this service. */
  lemma {:induction false} ServiceIsGood()
    ensures ConcurrentClient.GoodService(Methods())
  {
    MethodsAreGood();
  }
}
