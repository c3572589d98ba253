/**
 The generated service code of THBaseService: argument and result wrappers in their asymmetric
 client and server forms, the dispatcher, and what the clients make of a reply.
 */
module Rpc {
  import opened Bytes
  import opened ThriftBinary
  import opened Schema
  import opened Codec
  import opened RoundTrip
  import opened HBaseTypes

  /** `ret` is None for a void method; `hasIa` says that TIllegalArgument is declared */
  datatype Method = Method(name: bytes, args: Shape, ret: Option<Shape>, hasIa: bool)

  predicate GoodMethod(m: Method) {
    && FitsSize(|m.name|)
    && m.args.SStruct? && GoodShape(m.args)
    && (m.ret.Some? ==> GoodShape(m.ret.value))
  }

  predicate GoodMethods(ms: seq<Method>) {
    && (forall i | 0 <= i < |ms| :: GoodMethod(ms[i]))
    && (forall i, j | 0 <= i < j < |ms| :: ms[i].name != ms[j].name)
  }

  /** processMap_.find(fname), or |ms| for end() */
  function FindMethod(ms: seq<Method>, name: bytes): (i: nat)
    ensures i <= |ms|
    ensures i < |ms| ==> ms[i].name == name
    ensures forall k | 0 <= k < i :: ms[k].name != name
  {
    if ms == [] || ms[0].name == name then 0
    else
      var i := FindMethod(ms[1..], name);
      assert forall k | 1 <= k < i + 1 :: ms[k] == ms[1..][k - 1];
      i + 1
  }

  lemma {:induction false} FindOwnMethod(ms: seq<Method>, i: nat)
    requires GoodMethods(ms) && i < |ms|
    ensures FindMethod(ms, ms[i].name) == i
  {
    assert FindMethod(ms, ms[i].name) <= i;
  }

  // ---------------------------------------------------------------- outcomes

  /** How the handler behind `iface_` ends: an exception that the method does not declare is only
      known by its what(). */
  datatype Outcome =
    | Returned(v: Option<Value>)
    | ThrewIO(io: Value)
    | ThrewIA(ia: Value)
    | ThrewOther(what: bytes)

  predicate GoodOutcome(m: Method, o: Outcome)
    requires GoodMethod(m)
  {
    match o
    case Returned(v) =>
      v.Some? == m.ret.Some? && (v.Some? ==> Typed(m.ret.value, v.value))
    case ThrewIO(e) => Typed(TIOError, e)
    case ThrewIA(e) => m.hasIa && Typed(TIllegalArgument, e)
    case ThrewOther(w) => FitsSize(|w|)
  }

  // ---------------------------------------------------------------- result wrappers

  function SuccessArm(m: Method): seq<Field> {
    if m.ret.Some? then [Always(0, m.ret.value)] else []
  }

  function Arms(m: Method): seq<Field> {
    SuccessArm(m) + [Always(1, TIOError)] + if m.hasIa then [Always(2, TIllegalArgument)] else []
  }

  function IoArm(m: Method): nat {
    |SuccessArm(m)|
  }

  lemma {:induction false} ArmsAreGood(m: Method)
    requires GoodMethod(m)
    ensures GoodShape(SStruct(Arms(m))) && GoodFields(Arms(m))
  {
    LeafTablesAreGood();
    GoodTable(Arms(m));
  }

  /** Where `process_x` puts the outcome, or None when it answers with an application exception */
  function ArmOf(m: Method, o: Outcome): Option<nat> {
    match o
    case Returned(v) => if v.Some? then Some(0) else Some(|Arms(m)|)
    case ThrewIO(_) => Some(IoArm(m))
    case ThrewIA(_) => Some(IoArm(m) + 1)
    case ThrewOther(_) => None
  }

  /** The `result` object of `process_x` after the try block */
  function ServerResult(m: Method, o: Outcome): (r: Value)
    requires GoodMethod(m) && GoodOutcome(m, o) && !o.ThrewOther?
    ensures TypedStruct(Arms(m), r)
  {
    ArmsAreGood(m);
    LeafTablesAreGood();
    var d := DefaultStruct(Arms(m));
    match o
    case Returned(v) => if v.Some? then Store(Arms(m), d, 0, v.value) else d
    case ThrewIO(e) => Store(Arms(m), d, IoArm(m), e)
    case ThrewIA(e) => Store(Arms(m), d, IoArm(m) + 1, e)
  }

  function FirstSet(isset: seq<bool>): (i: nat)
    ensures i <= |isset|
    ensures i < |isset| ==> isset[i]
    ensures forall k | 0 <= k < i :: !isset[k]
  {
    if isset == [] || isset[0] then 0 else 1 + FirstSet(isset[1..])
  }

  lemma {:induction false} FirstSetOf(isset: seq<bool>, i: nat)
    requires i <= |isset| && (forall k | 0 <= k < i :: !isset[k]) && (i < |isset| ==> isset[i])
    ensures FirstSet(isset) == i
  {
    assert FirstSet(isset) >= i;
  }

  /** `x_result::write`: an else-if chain over the arms, so at most one is written */
  function ResultToWire(fs: seq<Field>, r: Value): (w: Wire)
    requires GoodFields(fs) && TypedStruct(fs, r)
    ensures w.WStruct? && |w.fields| <= 1 && WellFormed(w) && Conforms(SStruct(fs), w)
  {
    var i := FirstSet(r.isset);
    if i == |fs| then WStruct([])
    else
      assert GoodField(fs[i]) && TypedField(fs[i], r.vals[i]);
      TargetOfField(fs, i);
      var f := ToWireField(fs[i], r.vals[i]);
      assert ConformsField(fs, f);
      WStruct([f])
  }

  // ---------------------------------------------------------------- application exceptions

  const AppException := SStruct([Always(1, SStr), Always(2, I32)])
  const UNKNOWN := 0
  const UNKNOWN_METHOD := 1

  function AppValue(message: bytes, kind: int): (v: Value)
    requires FitsSize(|message|) && InRange(4, kind)
    ensures Typed(AppException, v)
  {
    var v := VStruct([VStr(message), VInt(kind)], [true, true]);
    assert TypedField(Always(1, SStr), v.vals[0]) && TypedField(Always(2, I32), v.vals[1]);
    v
  }

  lemma {:induction false} AppExceptionIsGood()
    ensures GoodShape(AppException)
  {
    GoodTable(AppException.fields);
  }

  // ---------------------------------------------------------------- the server

  function ReplyHeader(m: Method, seqid: int, o: Outcome): MessageHeader {
    MessageHeader(m.name, if o.ThrewOther? then T_EXCEPTION else T_REPLY, seqid)
  }

  function ReplyBody(m: Method, o: Outcome): bytes
    requires GoodMethod(m) && GoodOutcome(m, o)
  {
    ArmsAreGood(m);
    AppExceptionIsGood();
    if o.ThrewOther? then Write(AppException, AppValue(o.what, UNKNOWN))
    else Ser(ResultToWire(Arms(m), ServerResult(m, o)))
  }

  /** "Invalid method name: '" + fname + "'" */
  function InvalidName(name: bytes): bytes {
    Ascii("Invalid method name: '") + name + Ascii("'")
  }

  function UnknownMethodReply(name: bytes, seqid: int): bytes
    requires FitsSize(|InvalidName(name)|) && InRange(4, seqid)
  {
    AppExceptionIsGood();
    EncMessageBegin(MessageHeader(name, T_EXCEPTION, seqid)) +
    Write(AppException, AppValue(InvalidName(name), UNKNOWN_METHOD))
  }

  /** A handler: what `iface_` does with a call. Its state is its own affair, so a run is given one
      handler per request. */
  type Handler = (Method, Value) -> Outcome

  ghost predicate GoodHandler(h: Handler) {
    forall m, a :: GoodMethod(m) && Typed(m.args, a) ==> GoodOutcome(m, h(m, a))
  }

  /** What one dispatched request did: the reply, and the call made on the handler if there was one */
  datatype Served = Served(reply: bytes, call: Option<Handled>)

  datatype Handled = Handled(m: Method, args: Value, outcome: Outcome)

  /** dispatchCall and the `process_x` it selects; an exception out of `args.read` is not caught */
  ghost function Dispatch(ms: seq<Method>, h: Handler, hdr: MessageHeader, bs: bytes): (r: Parsed<Served>)
    requires GoodMethods(ms) && GoodHandler(h) && hdr.Valid()
    ensures r.Ok? ==> |r.rest| <= |bs|
  {
    var i := FindMethod(ms, hdr.name);
    AppExceptionIsGood();
    if i == |ms| then
      var (_, bs1) :- Skip(T_STRUCT, bs);
      if !FitsSize(|InvalidName(hdr.name)|) then Fail(SizeLimit)
      else Ok(Served(UnknownMethodReply(hdr.name, hdr.seqid), None), bs1)
    else
      var m := ms[i];
      assert GoodMethod(m);
      var (args, bs1) :- ReadValue(m.args, Default(m.args), bs);
      var o := h(m, args);
      Ok(Served(EncMessageBegin(ReplyHeader(m, hdr.seqid, o)) + ReplyBody(m, o), Some(Handled(m, args, o))), bs1)
  }

  /** What dispatchCall has already written when it throws: for an unknown method whose error message
      is too long, a reply that breaks off at the message's field header */
  function BrokenOff(ms: seq<Method>, hdr: MessageHeader, bs: bytes): bytes
    requires hdr.Valid()
  {
    if FindMethod(ms, hdr.name) == |ms| && Skip(T_STRUCT, bs).Ok? && !FitsSize(|InvalidName(hdr.name)|)
    then BrokenReply(hdr.name, hdr.seqid)
    else []
  }

  function BrokenReply(name: bytes, seqid: int): bytes
    requires FitsSize(|name|) && InRange(4, seqid)
  {
    EncMessageBegin(MessageHeader(name, T_EXCEPTION, seqid)) + ([T_STRING] + EncInt(2, 1))
  }

  // ---------------------------------------------------------------- the client

  datatype Result =
    | Return(v: Option<Value>)
    | RaiseIO(io: Value)
    | RaiseIA(ia: Value)
    | RaiseApp(message: bytes, kind: int)
    | MissingResult
    | BadState

  /** Leaving recv_x without `sentry.commit()` kills the connection for every thread. */
  predicate Commits(r: Result) {
    !r.MissingResult? && !r.BadState?
  }

  /** `_return`: the caller's object that `presult.success` points to */
  predicate GoodTarget(m: Method, target: Option<Value>)
    requires GoodMethod(m)
  {
    target.Some? == m.ret.Some? && (target.Some? ==> Typed(m.ret.value, target.value))
  }

  /** The presult object before reading: fresh, except that success is the caller's object */
  function Presult(m: Method, target: Option<Value>): (r: Value)
    requires GoodMethod(m) && GoodTarget(m, target)
    ensures TypedStruct(Arms(m), r)
    ensures forall i | 0 <= i < |Arms(m)| :: !r.isset[i]
  {
    ArmsAreGood(m);
    var d := DefaultStruct(Arms(m));
    if target.Some? then
      var r := VStruct(d.vals[0 := target.value], d.isset);
      assert forall i | 0 <= i < |Arms(m)| :: TypedField(Arms(m)[i], d.vals[i]);
      assert forall i | 0 <= i < |Arms(m)| :: TypedField(Arms(m)[i], r.vals[i]);
      r
    else d
  }

  /** The tests after `result.read` */
  function Classify(m: Method, r: Value): Result
    requires TypedStruct(Arms(m), r)
  {
    if m.ret.Some? && r.isset[0] then Return(Some(r.vals[0]))
    else if r.isset[IoArm(m)] then RaiseIO(r.vals[IoArm(m)])
    else if m.hasIa && r.isset[IoArm(m) + 1] then RaiseIA(r.vals[IoArm(m) + 1])
    else if m.ret.Some? then MissingResult
    else Return(None)
  }

  function ReadAppException(bs: bytes): (r: Parsed<Result>)
    ensures r.Ok? ==> |r.rest| <= |bs|
  {
    AppExceptionIsGood();
    var (x, bs1) :- ReadValue(AppException, Default(AppException), bs);
    assert TypedField(Always(1, SStr), x.vals[0]) && TypedField(Always(2, I32), x.vals[1]);
    Ok(RaiseApp(x.vals[0].s, x.vals[1].n), bs1)
  }

  function SkipUnless(ok: bool, bs: bytes): (r: Parsed<()>)
    ensures r.Ok? ==> |r.rest| <= |bs|
  {
    if ok then Ok((), bs) else Skip(T_STRUCT, bs)
  }

  /** recv_x of the concurrent client once the header carries its own seqid: after a message that
      is no REPLY it skips and falls through, a wrong name is a bad state. */
  function RecvBody(m: Method, target: Option<Value>, hdr: MessageHeader, bs: bytes): (r: Parsed<Result>)
    requires GoodMethod(m) && GoodTarget(m, target)
    ensures r.Ok? ==> |r.rest| <= |bs|
  {
    if hdr.mtype == T_EXCEPTION then ReadAppException(bs)
    else
      var (_, bs1) :- SkipUnless(hdr.mtype == T_REPLY, bs);
      if hdr.name != m.name then
        var (_, bs2) :- Skip(T_STRUCT, bs1);
        Ok(BadState, bs2)
      else
        ArmsAreGood(m);
        var (r, bs2) :- ReadValue(SStruct(Arms(m)), Presult(m, target), bs1);
        Ok(Classify(m, r), bs2)
  }

  /** recv_x of the plain client: a wrong name, too, is skipped and falls through */
  function RecvPlain(m: Method, target: Option<Value>, bs: bytes): (r: Parsed<Result>)
    requires GoodMethod(m) && GoodTarget(m, target)
  {
    var (hdr, bs1) :- ReadMessageBegin(bs);
    if hdr.mtype == T_EXCEPTION then ReadAppException(bs1)
    else
      var (_, bs2) :- SkipUnless(hdr.mtype == T_REPLY, bs1);
      var (_, bs3) :- SkipUnless(hdr.name == m.name, bs2);
      ArmsAreGood(m);
      var (r, bs4) :- ReadValue(SStruct(Arms(m)), Presult(m, target), bs3);
      Ok(Classify(m, r), bs4)
  }

  // ---------------------------------------------------------------- replies reach the caller

  /** The outcome as the caller sees it: same arm, with the value overlaid on the caller's object */
  function Delivered(m: Method, target: Option<Value>, o: Outcome): Result
    requires GoodMethod(m) && GoodTarget(m, target) && GoodOutcome(m, o)
  {
    LeafTablesAreGood();
    match o
    case Returned(v) =>
      if v.Some? then Return(Some(Overlay(m.ret.value, target.value, v.value))) else Return(None)
    case ThrewIO(e) => RaiseIO(Overlay(TIOError, Default(TIOError), e))
    case ThrewIA(e) => RaiseIA(Overlay(TIllegalArgument, Default(TIllegalArgument), e))
    case ThrewOther(w) => RaiseApp(w, 0)
  }

  lemma {:induction false} ServerResultArm(m: Method, o: Outcome)
    requires GoodMethod(m) && GoodOutcome(m, o) && !o.ThrewOther?
    ensures FirstSet(ServerResult(m, o).isset) == ArmOf(m, o).value <= |Arms(m)|
  {
    ArmsAreGood(m);
    var d := DefaultStruct(Arms(m));
    var i := ArmOf(m, o).value;
    assert forall k | 0 <= k < |Arms(m)| :: Arms(m)[k].kind.Plain? && !d.isset[k];
    var flags := ServerResult(m, o).isset;
    assert flags == if i < |Arms(m)| then d.isset[i := true] else d.isset;
    assert |flags| == |Arms(m)|;
    FirstSetOf(flags, i);
  }

  lemma {:induction false} AbsorbOneArm(fs: seq<Field>, p: Value, i: nat, v: Value)
    requires GoodShape(SStruct(fs)) && GoodFields(fs) && TypedStruct(fs, p) && i < |fs|
    requires forall k | 0 <= k < |fs| :: fs[k].kind.Plain?
    requires GoodField(fs[i]) && TypedField(fs[i], v) && TypedField(fs[i], p.vals[i])
    ensures var w := WStruct([ToWireField(fs[i], v)]);
            && WellFormed(w) && Conforms(SStruct(fs), w)
            && Absorb(SStruct(fs), p, w) == Some(Store(fs, p, i, OverlayField(fs[i], p.vals[i], v)))
  {
    var f := ToWireField(fs[i], v);
    var w := WStruct([f]);
    TargetOfField(fs, i);
    assert ConformsField(fs, f);
    AbsorbWrittenField(fs[i], p.vals[i], v);
    var q := AbsorbField(fs, Progress(p, {}), f);
    assert q.Some?;
    assert AbsorbFields(fs, q.value, [f][1..]) == q;
  }

  lemma {:induction false} PresultAbsorbsResult(m: Method, target: Option<Value>, o: Outcome)
    requires GoodMethod(m) && GoodTarget(m, target) && GoodOutcome(m, o) && !o.ThrewOther?
    ensures GoodShape(SStruct(Arms(m))) && GoodFields(Arms(m))
    ensures var r := Absorb(SStruct(Arms(m)), Presult(m, target), ResultToWire(Arms(m), ServerResult(m, o)));
            r.Some? && Classify(m, r.value) == Delivered(m, target, o)
  {
    ArmsAreGood(m);
    ServerResultArm(m, o);
    var fs, p := Arms(m), Presult(m, target);
    var i := ArmOf(m, o).value;
    if i < |fs| {
      ArmDelivered(m, target, o);
      AbsorbOneArm(fs, p, i, ServerResult(m, o).vals[i]);
    } else {
      assert AbsorbFields(fs, Progress(p, {}), []) == Some(Progress(p, {}));
    }
  }

  lemma {:induction false} PresultReadsResult(m: Method, target: Option<Value>, o: Outcome, rest: bytes)
    requires GoodMethod(m) && GoodTarget(m, target) && GoodOutcome(m, o) && !o.ThrewOther?
    ensures GoodShape(SStruct(Arms(m)))
    ensures var r := ReadValue(SStruct(Arms(m)), Presult(m, target), ReplyBody(m, o) + rest);
            r.Ok? && r.rest == rest && Classify(m, r.val) == Delivered(m, target, o)
  {
    PresultAbsorbsResult(m, target, o);
    ReadIsAbsorb(SStruct(Arms(m)), Presult(m, target), ResultToWire(Arms(m), ServerResult(m, o)), rest);
  }

  lemma {:induction false} ArmDelivered(m: Method, target: Option<Value>, o: Outcome)
    requires GoodMethod(m) && GoodTarget(m, target) && GoodOutcome(m, o) && !o.ThrewOther?
    requires ArmOf(m, o).value < |Arms(m)|
    ensures var fs, i := Arms(m), ArmOf(m, o).value;
            && GoodField(fs[i])
            && TypedField(fs[i], ServerResult(m, o).vals[i]) && TypedField(fs[i], Presult(m, target).vals[i])
            && Classify(m, Store(fs, Presult(m, target), i,
                                 OverlayField(fs[i], Presult(m, target).vals[i], ServerResult(m, o).vals[i])))
               == Delivered(m, target, o)
  {
    ArmsAreGood(m);
    LeafTablesAreGood();
    var fs, i := Arms(m), ArmOf(m, o).value;
    assert GoodField(fs[i]);
    assert TypedField(fs[i], ServerResult(m, o).vals[i]) && TypedField(fs[i], Presult(m, target).vals[i]);
  }

  lemma {:induction false} AppExceptionArrives(message: bytes, kind: int, rest: bytes)
    requires FitsSize(|message|) && InRange(4, kind)
    ensures GoodShape(AppException)
    ensures ReadAppException(Write(AppException, AppValue(message, kind)) + rest) == Ok(RaiseApp(message, kind), rest)
  {
    AppExceptionIsGood();
    var v := AppValue(message, kind);
    WriteThenRead(AppException, Default(AppException), v, rest);
    assert AppException.fields[0] == Always(1, SStr) && AppException.fields[1] == Always(2, I32);
    assert Overlay(AppException, Default(AppException), v) ==
           OverlayStruct(AppException.fields, Default(AppException), v);
    assert OverlayField(Always(1, SStr), VStr([]), v.vals[0]) == v.vals[0];
    assert OverlayField(Always(2, I32), VInt(0), v.vals[1]) == v.vals[1];
  }

  /** Both clients turn the reply of `process_x` into exactly the handler's outcome, consume exactly
      the reply, and commit: the branches that would kill the connection are not taken. */
  lemma {:induction false} ReplyIsDelivered(m: Method, target: Option<Value>, seqid: int, o: Outcome, rest: bytes)
    requires GoodMethod(m) && GoodTarget(m, target) && GoodOutcome(m, o) && InRange(4, seqid)
    ensures RecvBody(m, target, ReplyHeader(m, seqid, o), ReplyBody(m, o) + rest) == Ok(Delivered(m, target, o), rest)
    ensures RecvPlain(m, target, EncMessageBegin(ReplyHeader(m, seqid, o)) + (ReplyBody(m, o) + rest)) ==
            Ok(Delivered(m, target, o), rest)
    ensures Commits(Delivered(m, target, o))
  {
    ReadMessageBeginEnc(ReplyHeader(m, seqid, o), ReplyBody(m, o) + rest);
    if o.ThrewOther? {
      AppExceptionArrives(o.what, UNKNOWN, rest);
    } else {
      PresultReadsResult(m, target, o, rest);
    }
  }

  /** The caller gets the handler's own outcome, up to the generated `operator==`. */
  predicate SameOutcome(m: Method, o: Outcome, r: Result)
    requires GoodMethod(m) && GoodOutcome(m, o)
  {
    match o
    case Returned(v) =>
      r.Return? && r.v.Some? == v.Some? &&
      (v.Some? ==> Typed(m.ret.value, r.v.value) && Same(m.ret.value, v.value, r.v.value))
    case ThrewIO(e) => r.RaiseIO? && Typed(TIOError, r.io) && Same(TIOError, e, r.io)
    case ThrewIA(e) => r.RaiseIA? && Typed(TIllegalArgument, r.ia) && Same(TIllegalArgument, e, r.ia)
    case ThrewOther(w) => r == RaiseApp(w, 0)
  }

  /** Exceptions always arrive unchanged; a returned value does iff the caller's `_return` object
      had no optional member set that the value leaves unset. */
  lemma {:induction false} SameOutcomeExactly(m: Method, target: Option<Value>, o: Outcome)
    requires GoodMethod(m) && GoodTarget(m, target) && GoodOutcome(m, o)
    ensures SameOutcome(m, o, Delivered(m, target, o)) <==>
            (o.Returned? && o.v.Some? ==> Fresh(m.ret.value, target.value, o.v.value))
  {
    LeafTablesAreGood();
    match o {
      case Returned(v) =>
        if v.Some? {
          SameExactlyWhenFresh(m.ret.value, target.value, v.value);
        }
      case ThrewIO(e) =>
        ErrorIsBuilt(TIOError, e);
        BuiltIsFresh(TIOError, e);
        SameExactlyWhenFresh(TIOError, Default(TIOError), e);
      case ThrewIA(e) =>
        ErrorIsBuilt(TIllegalArgument, e);
        BuiltIsFresh(TIllegalArgument, e);
        SameExactlyWhenFresh(TIllegalArgument, Default(TIllegalArgument), e);
      case ThrewOther(_) =>
    }
  }

  lemma {:induction false} ErrorIsBuilt(s: Shape, e: Value)
    requires s == TIOError && Typed(s, e)
    ensures Built(s, e)
  {
    assert TypedField(s.fields[0], e.vals[0]);
  }

  /** Whatever a handler may do reaches the caller of the plain client: a value in the caller's object, ... */
  lemma {:induction false} EveryReturnArrives(m: Method, target: Option<Value>, seqid: int, v: Value, rest: bytes)
    requires GoodMethod(m) && GoodTarget(m, target) && InRange(4, seqid)
    ensures m.ret.None? ==> Received(m, target, seqid, Returned(None), rest) == Ok(Return(None), rest)
    ensures m.ret.Some? && Typed(m.ret.value, v) ==>
              Received(m, target, seqid, Returned(Some(v)), rest) ==
              Ok(Return(Some(Overlay(m.ret.value, target.value, v))), rest)
  {
    if m.ret.None? {
      ReplyIsDelivered(m, target, seqid, Returned(None), rest);
    } else if Typed(m.ret.value, v) {
      ReplyIsDelivered(m, target, seqid, Returned(Some(v)), rest);
    }
  }

  /** ... the declared exceptions equal to those thrown, ... */
  lemma {:induction false} EveryExceptionArrives(m: Method, target: Option<Value>, seqid: int, v: Value, rest: bytes)
    requires GoodMethod(m) && GoodTarget(m, target) && InRange(4, seqid)
    ensures Typed(TIOError, v) ==>
              exists e :: Received(m, target, seqid, ThrewIO(v), rest) == Ok(RaiseIO(e), rest)
                          && Typed(TIOError, e) && Same(TIOError, v, e)
    ensures m.hasIa && Typed(TIllegalArgument, v) ==>
              exists e :: Received(m, target, seqid, ThrewIA(v), rest) == Ok(RaiseIA(e), rest)
                          && Typed(TIllegalArgument, e) && Same(TIllegalArgument, v, e)
  {
    if Typed(TIOError, v) {
      ReplyIsDelivered(m, target, seqid, ThrewIO(v), rest);
      SameOutcomeExactly(m, target, ThrewIO(v));
    }
    if m.hasIa && Typed(TIllegalArgument, v) {
      ReplyIsDelivered(m, target, seqid, ThrewIA(v), rest);
      SameOutcomeExactly(m, target, ThrewIA(v));
    }
  }

  /** ... and any other exception by its text, as an application exception of type 0. */
  lemma {:induction false} EveryErrorArrives(m: Method, target: Option<Value>, seqid: int, what: bytes, rest: bytes)
    requires GoodMethod(m) && GoodTarget(m, target) && InRange(4, seqid) && |what| < 0x8000_0000
    ensures Received(m, target, seqid, ThrewOther(what), rest) == Ok(RaiseApp(what, 0), rest)
  {
    ReplyIsDelivered(m, target, seqid, ThrewOther(what), rest);
  }

  /** What the plain client makes of the server's reply to that outcome */
  function Received(m: Method, target: Option<Value>, seqid: int, o: Outcome, rest: bytes): Parsed<Result>
    requires GoodMethod(m) && GoodTarget(m, target) && InRange(4, seqid)
  {
    if GoodOutcome(m, o)
    then RecvPlain(m, target, EncMessageBegin(ReplyHeader(m, seqid, o)) + (ReplyBody(m, o) + rest))
    else Fail(EndOfFile)
  }
}
