/** The sixteen methods of THBaseService, and what the general laws say about its own structs. */
module HBaseService {
  import opened Bytes
  import opened ThriftBinary
  import opened Schema
  import opened Codec
  import opened CodecLaws
  import opened RoundTrip
  import opened HBaseTypes
  import opened Rpc
  import opened Dispatcher

  function TableAnd(f: Field): Shape {
    SStruct([Req(1, SStr), f])
  }

  function CheckAnd(s: Shape): Shape {
    SStruct([Req(1, SStr), Req(2, SStr), Req(3, SStr), Req(4, SStr), Always(5, SStr), Req(6, s)])
  }

  function Throws(name: bytes, args: Shape, ret: Option<Shape>): Method {
    Method(name, args, ret, false)
  }

  /** processMap_, in the order of registration */
  function Methods(): seq<Method> {
    [
      Throws(Ascii("exists"), TableAnd(Req(2, TGet)), Some(SBool)),
      Throws(Ascii("get"), TableAnd(Req(2, TGet)), Some(TResult)),
      Throws(Ascii("getMultiple"), TableAnd(Req(2, SList(TGet))), Some(SList(TResult))),
      Throws(Ascii("put"), TableAnd(Req(2, TPut)), None),
      Throws(Ascii("checkAndPut"), CheckAnd(TPut), Some(SBool)),
      Throws(Ascii("putMultiple"), TableAnd(Req(2, SList(TPut))), None),
      Throws(Ascii("deleteSingle"), TableAnd(Req(2, TDelete)), None),
      Throws(Ascii("deleteMultiple"), TableAnd(Req(2, SList(TDelete))), Some(SList(TDelete))),
      Throws(Ascii("checkAndDelete"), CheckAnd(TDelete), Some(SBool)),
      Throws(Ascii("increment"), TableAnd(Req(2, TIncrement)), Some(TResult)),
      Throws(Ascii("append"), TableAnd(Req(2, TAppend)), Some(TResult)),
      Throws(Ascii("openScanner"), TableAnd(Req(2, TScan)), Some(I32)),
      Method(Ascii("getScannerRows"), SStruct([Req(1, I32), AlwaysPreset(2, I32, 1)]), Some(SList(TResult)), true),
      Method(Ascii("closeScanner"), SStruct([Req(1, I32)]), None, true),
      Throws(Ascii("mutateRow"), TableAnd(Req(2, TRowMutations)), None),
      Throws(Ascii("getScannerResults"), SStruct([Req(1, SStr), Req(2, TScan), AlwaysPreset(3, I32, 1)]),
             Some(SList(TResult)))
    ]
  }

  lemma {:induction false} TableAndIsGood(s: Shape)
    requires GoodShape(s)
    ensures GoodShape(TableAnd(Req(2, s)))
  {
    GoodTable(TableAnd(Req(2, s)).fields);
  }

  lemma {:induction false} CheckAndIsGood(s: Shape)
    requires GoodShape(s)
    ensures GoodShape(CheckAnd(s))
  {
    GoodTable(CheckAnd(s).fields);
  }

  lemma {:induction false} GetMethodsAreGood()
    ensures var ms := Methods(); GoodMethod(ms[0]) && GoodMethod(ms[1]) && GoodMethod(ms[2])
  {
    LeafTablesAreGood();
    ReadTablesAreGood();
    TableAndIsGood(TGet);
    GoodList(TGet);
    TableAndIsGood(SList(TGet));
    GoodList(TResult);
  }

  lemma {:induction false} ScanMethodsAreGood()
    ensures var ms := Methods();
            GoodMethod(ms[11]) && GoodMethod(ms[12]) && GoodMethod(ms[13]) && GoodMethod(ms[15])
  {
    LeafTablesAreGood();
    ReadTablesAreGood();
    TableAndIsGood(TScan);
    GoodList(TResult);
    GoodTable([Req(1, I32), AlwaysPreset(2, I32, 1)]);
    GoodTable([Req(1, I32)]);
    GoodTable([Req(1, SStr), Req(2, TScan), AlwaysPreset(3, I32, 1)]);
  }

  lemma {:induction false} PutMethodsAreGood()
    ensures var ms := Methods();
            GoodMethod(ms[3]) && GoodMethod(ms[4]) && GoodMethod(ms[5]) && GoodMethod(ms[14])
  {
    WriteTablesAreGood();
    TableAndIsGood(TPut);
    CheckAndIsGood(TPut);
    GoodList(TPut);
    TableAndIsGood(SList(TPut));
    TableAndIsGood(TRowMutations);
  }

  lemma {:induction false} DeleteMethodsAreGood()
    ensures var ms := Methods();
            GoodMethod(ms[6]) && GoodMethod(ms[7]) && GoodMethod(ms[8]) && GoodMethod(ms[9]) && GoodMethod(ms[10])
  {
    LeafTablesAreGood();
    WriteTablesAreGood();
    TableAndIsGood(TDelete);
    CheckAndIsGood(TDelete);
    GoodList(TDelete);
    TableAndIsGood(SList(TDelete));
    TableAndIsGood(TIncrement);
    TableAndIsGood(TAppend);
  }

  lemma {:induction false} Sixteen(ms: seq<Method>)
    requires |ms| == 16
    requires GoodMethod(ms[0]) && GoodMethod(ms[1]) && GoodMethod(ms[2]) && GoodMethod(ms[3])
    requires GoodMethod(ms[4]) && GoodMethod(ms[5]) && GoodMethod(ms[6]) && GoodMethod(ms[7])
    requires GoodMethod(ms[8]) && GoodMethod(ms[9]) && GoodMethod(ms[10]) && GoodMethod(ms[11])
    requires GoodMethod(ms[12]) && GoodMethod(ms[13]) && GoodMethod(ms[14]) && GoodMethod(ms[15])
    ensures forall i | 0 <= i < |ms| :: GoodMethod(ms[i])
  {
  }

  lemma {:induction false} NamesAreShort()
    ensures forall i | 0 <= i < |Methods()| :: |Methods()[i].name| <= 17
  {
  }

  lemma {:induction false} MethodsAreGood()
    ensures GoodMethods(Methods())
    ensures forall i | 0 <= i < |Methods()| :: FitsSize(|InvalidName(Methods()[i].name)|)
  {
    var ms := Methods();
    assert forall i | 0 <= i < |ms| :: GoodMethod(ms[i]) by {
      GetMethodsAreGood();
      ScanMethodsAreGood();
      PutMethodsAreGood();
      DeleteMethodsAreGood();
      Sixteen(ms);
    }
    NamesDiffer();
    NamesAreShort();
  }

  /** Length and first letter of each name */
  const NAME_KEYS: seq<(int, char)> := [
    (6, 'e'), (3, 'g'), (11, 'g'), (3, 'p'), (11, 'c'), (11, 'p'), (12, 'd'), (14, 'd'),
    (14, 'c'), (9, 'i'), (6, 'a'), (11, 'o'), (14, 'g'), (12, 'c'), (9, 'm'), (17, 'g')]

  lemma {:induction false} NameKeys()
    ensures |Methods()| == 16 == |NAME_KEYS|
    ensures forall i | 0 <= i < 16 :: HasKey(Methods()[i].name, NAME_KEYS[i])
  {
  }

  predicate HasKey(name: bytes, key: (int, char)) {
    |name| == key.0 > 0 && name[0] == key.1 as int % 128
  }

  // No two keys are equal.
  lemma {:induction false} KeysDiffer(names: seq<bytes>)
    requires |names| == 16 == |NAME_KEYS| && forall i | 0 <= i < 16 :: HasKey(names[i], NAME_KEYS[i])
    ensures forall i, j | 0 <= i < j < 16 :: names[i] != names[j]
  {
    forall i, j | 0 <= i < j < 16 ensures names[i] != names[j] {
      assert HasKey(names[i], NAME_KEYS[i]) && HasKey(names[j], NAME_KEYS[j]);
      assert NAME_KEYS[i].0 != NAME_KEYS[j].0 || NAME_KEYS[i].1 as int % 128 != NAME_KEYS[j].1 as int % 128;
    }
  }

  lemma {:induction false} NamesDiffer()
    ensures forall i, j | 0 <= i < j < |Methods()| :: Methods()[i].name != Methods()[j].name
  {
    NameKeys();
    var ms := Methods();
    var names := seq(16, i requires 0 <= i < 16 => ms[i].name);
    KeysDiffer(names);
    assert forall i | 0 <= i < 16 :: names[i] == ms[i].name;
  }

  // ---------------------------------------------------------------- presets

  /** No member at any depth has an IDL default */
  predicate PresetFree(s: Shape)
    decreases s, 1
  {
    match s
    case SStruct(fs) => PresetFreeFields(fs)
    case SList(e) => PresetFree(e)
    case _ => true
  }

  predicate PresetFreeFields(fs: seq<Field>)
    decreases fs, 0
  {
    forall i | 0 <= i < |fs| :: PresetFreeField(fs[i])
  }

  predicate PresetFreeField(f: Field)
    decreases f, 2
  {
    f.preset.None? && PresetFree(f.shape)
  }

  lemma {:induction false} PresetFreeIsBuilt(s: Shape, v: Value)
    requires Typed(s, v) && PresetFree(s)
    ensures Built(s, v)
    decreases s, 1
  {
    match s {
      case SStruct(fs) =>
        forall i | 0 <= i < |fs| ensures TypedField(fs[i], v.vals[i]) && BuiltField(fs[i], v.vals[i]) {
          assert TypedField(fs[i], v.vals[i]) && PresetFreeField(fs[i]);
          PresetFreeFieldIsBuilt(fs[i], v.vals[i]);
        }
        assert forall i | 0 <= i < |fs| :: PresetFreeField(fs[i]);
      case SList(e) =>
        forall k | 0 <= k < |v.elems| ensures Built(e, v.elems[k]) {
          PresetFreeIsBuilt(e, v.elems[k]);
        }
      case _ =>
    }
  }

  lemma {:induction false} PresetFreeFieldIsBuilt(f: Field, v: Value)
    requires TypedField(f, v) && PresetFreeField(f)
    ensures BuiltField(f, v)
    decreases f, 2
  {
    PresetFreeIsBuilt(f.shape, v);
  }

  /** Structs without presets round-trip whatever their flags and members are. */
  lemma {:induction false} PresetFreeRoundTrips(s: Shape, v: Value, rest: bytes)
    requires GoodShape(s) && Typed(s, v) && PresetFree(s)
    ensures var r := ReadValue(s, Default(s), Write(s, v) + rest);
            r.Ok? && r.rest == rest && Same(s, v, r.val)
  {
    PresetFreeIsBuilt(s, v);
    RoundTrips(s, v, rest);
  }

  lemma {:induction false} PresetFreeIsFresh(s: Shape, v: Value)
    requires GoodShape(s) && Typed(s, v) && PresetFree(s)
    ensures Fresh(s, Default(s), v)
  {
    PresetFreeIsBuilt(s, v);
    BuiltIsFresh(s, v);
  }

  /** TColumnIncrement: a program that clears `__isset.amount` by hand loses equality on a round
      trip, because the reader's flag starts true. No setter and no read does that (Built). */
  lemma {:induction false} IncrementRoundTripsExactly(v: Value)
    requires GoodShape(TColumnIncrement) && TypedStruct(TColumnIncrement.fields, v)
    ensures Same(TColumnIncrement, v, Overlay(TColumnIncrement, Default(TColumnIncrement), v)) <==> v.isset[2]
  {
    var fs, u := TColumnIncrement.fields, Default(TColumnIncrement);
    SameExactlyWhenFresh(TColumnIncrement, u, v);
    assert FreshMember(fs, u, v, 0) && FreshMember(fs, u, v, 1);
    assert FreshMember(fs, u, v, 2) <==> v.isset[2];
  }

  // ---------------------------------------------------------------- arguments that a request leaves out

  /** A member without a well-typed occurrence keeps its default, and its flag the default's. */
  lemma {:induction false} AbsentKeepsDefault(fs: seq<Field>, ws: seq<WireField>, i: nat)
    requires GoodShape(SStruct(fs)) && WellFormedFields(ws) && ConformsFields(fs, ws)
    requires i < |fs| && GoodField(fs[i]) && !Occurs(fs, i, ws)
    ensures var r := Absorb(SStruct(fs), Default(SStruct(fs)), WStruct(ws));
            r.Some? ==> r.value.vals[i] == DefaultField(fs[i]) && r.value.isset[i] == fs[i].preset.Some?
  {
    var d := DefaultStruct(fs);
    OccursInOccurrences(fs, i, ws);
    FieldsAreIndependent(fs, Progress(d, {}), ws);
    var p := AbsorbFields(fs, Progress(d, {}), ws);
    if p.Some? {
      assert TypedField(fs[i], d.vals[i]);
      assert FoldMember(fs, d, i, ws) == Some(p.value.obj.vals[i]);
      assert i !in Supplied(fs, ws);
    }
  }

  /** So the handler sees the default of an argument that the request leaves out or mistypes. */
  lemma {:induction false} AbsentArgument(ms: seq<Method>, i: nat, k: nat, h: Handler, r: Request, s: Served)
    requires GoodMethods(ms) && GoodHandler(h) && GoodRequest(ms, r) && Refusal(ms, r).None? && Answers(ms, h, r, s)
    requires i < |ms| && r.name == ms[i].name && GoodMethod(ms[i]) && k < |ms[i].args.fields|
    requires !Occurs(ms[i].args.fields, k, r.args.fields)
    ensures s.call.Some? && s.call.value.m == ms[i]
    ensures Typed(ms[i].args, s.call.value.args) && GoodField(ms[i].args.fields[k])
    ensures s.call.value.args.vals[k] == DefaultField(ms[i].args.fields[k])
  {
    FindOwnMethod(ms, i);
    assert GoodFields(ms[i].args.fields) && GoodField(ms[i].args.fields[k]);
    AbsentKeepsDefault(ms[i].args.fields, r.args.fields, k);
  }

  /** getScannerRows or getScannerResults, and where their numRows stands */
  predicate IsNumRows(m: Method, k: nat) {
    (m == Methods()[12] && k == 1) || (m == Methods()[15] && k == 2)
  }

  lemma {:induction false} NumRowsPreset(m: Method, k: nat)
    requires IsNumRows(m, k)
    ensures m.args.SStruct? && k < |m.args.fields| && m.args.fields[k].preset == Some(1)
  {
  }

  /** A scanner request without a well-typed numRows calls the handler with 1, the IDL's default. */
  lemma {:induction false} NumRowsDefaultsToOne(ms: seq<Method>, i: nat, k: nat, h: Handler, r: Request, s: Served)
    requires GoodMethods(ms) && GoodHandler(h) && GoodRequest(ms, r) && Refusal(ms, r).None? && Answers(ms, h, r, s)
    requires i < |ms| && r.name == ms[i].name && IsNumRows(ms[i], k)
    requires ms[i].args.SStruct? && !Occurs(ms[i].args.fields, k, r.args.fields)
    ensures s.call.Some? && s.call.value.m == ms[i] && s.call.value.args.VStruct?
    ensures |s.call.value.args.vals| > k && s.call.value.args.vals[k] == VInt(1)
  {
    NumRowsPreset(ms[i], k);
    AbsentArgument(ms, i, k, h, r, s);
  }

  /** `get` with a table and nothing else is a well-formed message, and gets no reply: the exception
      out of `args.read` leaves process_get. */
  lemma {:induction false} MissingArgumentGetsNoReply(table: bytes, seqid: int, h: Handler, rest: bytes)
    requires GoodMethods(Methods()) && GoodHandler(h) && FitsSize(|table|) && InRange(4, seqid)
    ensures var r := Request(Ascii("get"), seqid, WStruct([WireField(1, WStr(table))]));
            && GoodRequest(Methods(), r)
            && Process(Methods(), h, RequestBytes(Methods(), r) + rest) == Fail(InvalidData)
  {
    var ms := Methods();
    var f := WireField(1, WStr(table));
    var r := Request(Ascii("get"), seqid, WStruct([f]));
    FindOwnMethod(ms, 1);
    var fs := ms[1].args.fields;
    assert WellFormed(f.w) && WellFormedField(f) && ConformsField(fs, f);
    assert InRange(2, 1);
    assert ConformsFields(fs, [f]);
    assert !Occurs(fs, 1, [f]);
    assert fs[1].kind.Required?;
    assert IncompleteStruct(fs, [f]);
    ProcessAnswers(ms, h, r, rest);
  }

  // ---------------------------------------------------------------- TMutation

  /** `TMutation::write` ignores the flags and writes both arms, so the receiver sees both flags
      raised: which arm the sender meant survives iff it had raised both itself. */
  lemma {:induction false} MutationFlagsAreLost(u: Value, v: Value)
    requires GoodShape(TMutation) && TypedStruct(TMutation.fields, u) && TypedStruct(TMutation.fields, v)
    ensures Overlay(TMutation, u, v).isset == [true, true]
    ensures Overlay(TMutation, u, v).isset == v.isset <==> v.isset[0] && v.isset[1]
  {
    var fs := TMutation.fields;
    var r := OverlayStruct(fs, u, v);
    assert r.isset[0] && r.isset[1];
    assert r.isset == [true, true];
    assert v.isset == [v.isset[0], v.isset[1]];
  }

  /** Yet the members themselves arrive, for every mutation the program can build. */
  lemma {:induction false} MutationRoundTrips(v: Value, rest: bytes)
    requires GoodShape(TMutation) && Typed(TMutation, v) && Built(TMutation, v)
    ensures var r := ReadValue(TMutation, Default(TMutation), Write(TMutation, v) + rest);
            r.Ok? && r.rest == rest && Same(TMutation, v, r.val) && r.val.isset == [true, true]
  {
    RoundTrips(TMutation, v, rest);
    WriteThenRead(TMutation, Default(TMutation), v, rest);
    MutationFlagsAreLost(Default(TMutation), v);
  }

  // ---------------------------------------------------------------- get, append, increment

  lemma {:induction false} ResultRowsArePresetFree()
    ensures PresetFree(SList(TColumnValue))
  {
    assert PresetFreeFields(TColumnValue.fields);
    assert PresetFree(TColumnValue);
  }

  /** `get(_return, ...)` reads into the caller's TResult without clearing it: what the caller gets
      equals what the handler returned iff the reply has a row or the caller's object had none. */
  lemma {:induction false} GetReturnsExactly(target: Value, v: Value)
    requires GoodShape(TResult) && TypedStruct(TResult.fields, target) && TypedStruct(TResult.fields, v)
    ensures Same(TResult, v, Overlay(TResult, target, v)) <==> (v.isset[0] || !target.isset[0])
  {
    var fs := TResult.fields;
    SameExactlyWhenFresh(TResult, target, v);
    ResultRowsArePresetFree();
    LeafTablesAreGood();
    GoodList(TColumnValue);
    assert TypedField(fs[1], v.vals[1]) && TypedField(fs[1], target.vals[1]);
    PresetFreeIsFresh(SList(TColumnValue), v.vals[1]);
    assert FreshMember(fs, target, v, 1);
    assert FreshMember(fs, target, v, 0) <==> (v.isset[0] || !target.isset[0]);
  }

  /** HBase answers a get of an absent row with an empty result. Reusing the object of an earlier
      get then reports the earlier row: this is what `recv_get` makes of the reply's own bytes, and
      likewise for the other methods that return a TResult. */
  lemma {:induction false} StaleRow(m: Method, row: bytes, seqid: int, rest: bytes) returns (reported: Value)
    requires GoodMethod(m) && m.ret == Some(TResult) && FitsSize(|row|) && InRange(4, seqid)
    ensures var earlier, o := EarlierResult(row), EmptyResult();
            && GoodTarget(m, Some(earlier)) && GoodOutcome(m, o)
            && RecvPlain(m, Some(earlier), EncMessageBegin(ReplyHeader(m, seqid, o)) + (ReplyBody(m, o) + rest))
               == Ok(Return(Some(reported)), rest)
    ensures HasRow(reported, row) && !SameResult(EmptyResult().v.value, reported)
  {
    LeafTablesAreGood();
    var earlier, o := EarlierResult(row), EmptyResult();
    assert TypedField(TResult.fields[0], VStr(row)) && TypedField(TResult.fields[1], VList([]));
    EmptyIsDefault();
    reported := StaleValue(earlier);
    ReplyIsDelivered(m, Some(earlier), seqid, o, rest);
  }

  predicate HasRow(v: Value, row: bytes) {
    TypedStruct(TResult.fields, v) && v.isset[0] && v.vals[0] == VStr(row)
  }

  predicate SameResult(a: Value, b: Value) {
    TypedStruct(TResult.fields, a) && TypedStruct(TResult.fields, b) && SameStruct(TResult.fields, a, b)
  }

  lemma {:induction false} EmptyIsDefault()
    ensures GoodShape(TResult) && EmptyResult().v.value == Default(TResult)
  {
    LeafTablesAreGood();
    var fs, d := TResult.fields, DefaultStruct(TResult.fields);
    assert d.vals[0] == DefaultField(fs[0]) == VStr([]) && d.vals[1] == DefaultField(fs[1]) == VList([]);
    assert d.vals == [VStr([]), VList([])] && d.isset == [false, false];
  }

  function EarlierResult(row: bytes): Value {
    VStruct([VStr(row), VList([])], [true, false])
  }

  function EmptyResult(): Outcome {
    Returned(Some(VStruct([VStr([]), VList([])], [false, false])))
  }

  lemma {:induction false} ResultMethods(i: nat)
    requires i == 1 || i == 9 || i == 10
    ensures i < |Methods()| && GoodMethod(Methods()[i]) && Methods()[i].ret == Some(TResult)
  {
    GetMethodsAreGood();
    DeleteMethodsAreGood();
  }

  lemma {:induction false} StaleValue(earlier: Value) returns (reported: Value)
    requires GoodShape(TResult) && TypedStruct(TResult.fields, earlier) && earlier.isset[0]
    ensures reported == Overlay(TResult, earlier, Default(TResult)) && Typed(TResult, reported)
    ensures reported.vals[0] == earlier.vals[0] && reported.isset[0]
    ensures !Same(TResult, Default(TResult), reported)
  {
    reported := OverlayStruct(TResult.fields, earlier, Default(TResult));
    assert !Default(TResult).isset[0];
    GetReturnsExactly(earlier, Default(TResult));
  }
}
