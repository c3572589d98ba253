/** Runs of the server over a byte stream of requests, and calls through both ends. */
module Dispatcher {
  import opened Bytes
  import opened ThriftBinary
  import opened Schema
  import opened Codec
  import opened CodecLaws
  import opened RoundTrip
  import opened Rpc

  /** One message: read its header, then dispatch */
  ghost function Process(ms: seq<Method>, h: Handler, bs: bytes): (r: Parsed<Served>)
    requires GoodMethods(ms) && GoodHandler(h)
    ensures r.Ok? ==> |r.rest| < |bs|
  {
    var (hdr, bs1) :- ReadMessageBegin(bs);
    Dispatch(ms, h, hdr, bs1)
  }

  /** A connection: the requests served in full, what an exception left of a reply, and how it ended */
  datatype Connection = Connection(served: seq<Served>, broken: bytes, end: Parsed<()>)

  function BrokenAt(ms: seq<Method>, bs: bytes): bytes {
    var r := ReadMessageBegin(bs);
    if r.Ok? then BrokenOff(ms, r.val, r.rest) else []
  }

  /** A run: one message per handler, until an exception ends it */
  ghost function ServeAll(ms: seq<Method>, hs: seq<Handler>, bs: bytes): Connection
    requires GoodMethods(ms) && forall k | 0 <= k < |hs| :: GoodHandler(hs[k])
  {
    if hs == [] then Connection([], [], Ok((), bs))
    else
      var p := Process(ms, hs[0], bs);
      if p.Fail? then Connection([], BrokenAt(ms, bs), Fail(p.error))
      else
        var c := ServeAll(ms, hs[1..], p.rest);
        c.(served := [p.val] + c.served)
  }

  // ---------------------------------------------------------------- requests

  datatype Request = Request(name: bytes, seqid: int, args: Wire)

  /** Any method name; the arguments of a known method conform to it where it knows the field, those of
      an unknown one are any struct. */
  predicate GoodRequest(ms: seq<Method>, r: Request) {
    && InRange(4, r.seqid) && FitsSize(|r.name|)
    && WellFormed(r.args) && r.args.WStruct?
    && var i := FindMethod(ms, r.name);
       i < |ms| ==> Conforms(ms[i].args, r.args)
  }

  /** The exception that a request causes instead of a reply: arguments lack something required, or the
      reply to an unknown name would exceed the size limit. */
  function Refusal(ms: seq<Method>, r: Request): Option<Error> {
    var i := FindMethod(ms, r.name);
    if i < |ms| then (if Incomplete(ms[i].args, r.args) then Some(InvalidData) else None)
    else if FitsSize(|InvalidName(r.name)|) then None else Some(SizeLimit)
  }

  /** The first request that is refused, or |rs| */
  function FirstRefused(ms: seq<Method>, rs: seq<Request>): (n: nat)
    ensures n <= |rs|
    ensures forall k | 0 <= k < n :: Refusal(ms, rs[k]).None?
    ensures n < |rs| ==> Refusal(ms, rs[n]).Some?
  {
    if rs == [] || Refusal(ms, rs[0]).Some? then 0
    else
      var n := FirstRefused(ms, rs[1..]);
      assert forall k | 1 <= k < n + 1 :: rs[k] == rs[1..][k - 1];
      n + 1
  }

  predicate GoodRequests(ms: seq<Method>, rs: seq<Request>) {
    forall k | 0 <= k < |rs| :: GoodRequest(ms, rs[k])
  }

  function RequestBytes(ms: seq<Method>, r: Request): bytes
    requires GoodRequest(ms, r)
  {
    EncMessageBegin(MessageHeader(r.name, T_CALL, r.seqid)) + Ser(r.args)
  }

  function Stream(ms: seq<Method>, rs: seq<Request>): bytes
    requires GoodRequests(ms, rs)
  {
    if rs == [] then [] else RequestBytes(ms, rs[0]) + Stream(ms, rs[1..])
  }

  /** What a request deserves: the handler's outcome for the arguments it carried */
  ghost predicate Answers(ms: seq<Method>, h: Handler, r: Request, s: Served)
    requires GoodMethods(ms) && GoodHandler(h) && GoodRequest(ms, r) && Refusal(ms, r).None?
  {
    var i := FindMethod(ms, r.name);
    if i == |ms| then s == Served(UnknownMethodReply(r.name, r.seqid), None)
    else
      assert GoodMethod(ms[i]);
      var a := Absorb(ms[i].args, Default(ms[i].args), r.args);
      && a.Some?
      && var o := h(ms[i], a.value);
         s == Served(EncMessageBegin(ReplyHeader(ms[i], r.seqid, o)) + ReplyBody(ms[i], o),
                     Some(Handled(ms[i], a.value, o)))
  }

  /** One well-formed request: it is consumed up to its boundary and answered iff nothing refuses it;
      otherwise there is no reply but the exception. */
  lemma {:induction false} ProcessAnswers(ms: seq<Method>, h: Handler, r: Request, rest: bytes)
    requires GoodMethods(ms) && GoodHandler(h) && GoodRequest(ms, r)
    ensures var p, refusal := Process(ms, h, RequestBytes(ms, r) + rest), Refusal(ms, r);
            if refusal.Some? then p == Fail(refusal.value) else p.Ok? && p.rest == rest && Answers(ms, h, r, p.val)
  {
    RequestHeader(ms, r, rest);
    var i := FindMethod(ms, r.name);
    if i == |ms| {
      SkipConsumesExactly(r.args, rest);
    } else {
      var m := ms[i];
      assert GoodMethod(m);
      ReadIsAbsorb(m.args, Default(m.args), r.args, rest);
      InvalidDataExactly(m.args, Default(m.args), r.args);
    }
  }

  lemma {:induction false} RequestHeader(ms: seq<Method>, r: Request, rest: bytes)
    requires GoodRequest(ms, r)
    ensures ReadMessageBegin(RequestBytes(ms, r) + rest) ==
            Ok(MessageHeader(r.name, T_CALL, r.seqid), Ser(r.args) + rest)
  {
    var hdr := MessageHeader(r.name, T_CALL, r.seqid);
    var body := Ser(r.args) + rest;
    assert RequestBytes(ms, r) + rest == EncMessageBegin(hdr) + body;
    ReadMessageBeginEnc(hdr, body);
  }

  lemma {:induction false} RefusalBreaksOff(ms: seq<Method>, r: Request, rest: bytes)
    requires GoodMethods(ms) && GoodRequest(ms, r) && Refusal(ms, r).Some?
    ensures BrokenAt(ms, RequestBytes(ms, r) + rest) == LeftOf(ms, r)
  {
    RequestHeader(ms, r, rest);
    SkipConsumesExactly(r.args, rest);
  }

  /** What a refused request leaves in the output */
  function LeftOf(ms: seq<Method>, r: Request): bytes
    requires GoodRequest(ms, r)
  {
    if FindMethod(ms, r.name) == |ms| then BrokenReply(r.name, r.seqid) else []
  }

  /** A request that nothing refuses, and its answer */
  ghost predicate Answered(ms: seq<Method>, h: Handler, r: Request, s: Served) {
    && GoodMethods(ms) && GoodHandler(h) && GoodRequest(ms, r) && Refusal(ms, r).None?
    && Answers(ms, h, r, s)
  }

  ghost predicate AllAnswered(ms: seq<Method>, hs: seq<Handler>, rs: seq<Request>, ss: seq<Served>)
    requires |hs| == |rs|
  {
    |ss| <= |rs| && forall k | 0 <= k < |ss| :: Answered(ms, hs[k], rs[k], ss[k])
  }

  /** Every request before the first refused one has its answer, in order; that one ends the run. */
  ghost predicate AnsweredUntilRefused(ms: seq<Method>, hs: seq<Handler>, rs: seq<Request>, rest: bytes, c: Connection)
    requires GoodMethods(ms) && |hs| == |rs| && GoodRequests(ms, rs)
    requires forall k | 0 <= k < |hs| :: GoodHandler(hs[k])
  {
    var n := FirstRefused(ms, rs);
    && |c.served| == n && AllAnswered(ms, hs, rs, c.served)
    && if n == |rs| then c.broken == [] && c.end == Ok((), rest)
       else c.broken == LeftOf(ms, rs[n]) && c.end == Fail(Refusal(ms, rs[n]).value)
  }

  /** For every finite sequence of well-formed requests, with known and unknown names mixed, and
      whatever the handlers do: each request before the first refused one is answered in order; if none
      is refused, the server stops exactly at the boundary after the last one. */
  lemma {:induction false} EveryRequestIsAnswered(ms: seq<Method>, hs: seq<Handler>, rs: seq<Request>, rest: bytes)
    requires GoodMethods(ms) && |hs| == |rs| && GoodRequests(ms, rs)
    requires forall k | 0 <= k < |hs| :: GoodHandler(hs[k])
    ensures AnsweredUntilRefused(ms, hs, rs, rest, ServeAll(ms, hs, Stream(ms, rs) + rest))
    decreases |rs|
  {
    if rs == [] {
      assert Stream(ms, rs) + rest == rest;
    } else {
      var tail := Stream(ms, rs[1..]) + rest;
      assert Stream(ms, rs) + rest == RequestBytes(ms, rs[0]) + tail;
      if Refusal(ms, rs[0]).Some? {
        RefusedHead(ms, hs, rs, tail, rest);
      } else {
        EveryRequestIsAnswered(ms, hs[1..], rs[1..], rest);
        AnsweredHead(ms, hs, rs, tail, rest);
      }
    }
  }

  lemma {:induction false} RefusedHead(ms: seq<Method>, hs: seq<Handler>, rs: seq<Request>, tail: bytes, rest: bytes)
    requires GoodMethods(ms) && |hs| == |rs| > 0 && GoodRequests(ms, rs)
    requires forall k | 0 <= k < |hs| :: GoodHandler(hs[k])
    requires Refusal(ms, rs[0]).Some?
    ensures AnsweredUntilRefused(ms, hs, rs, rest, ServeAll(ms, hs, RequestBytes(ms, rs[0]) + tail))
  {
    ProcessAnswers(ms, hs[0], rs[0], tail);
    RefusalBreaksOff(ms, rs[0], tail);
  }

  lemma {:induction false} AnsweredHead(ms: seq<Method>, hs: seq<Handler>, rs: seq<Request>, tail: bytes, rest: bytes)
    requires GoodMethods(ms) && |hs| == |rs| > 0 && GoodRequests(ms, rs)
    requires forall k | 0 <= k < |hs| :: GoodHandler(hs[k])
    requires Refusal(ms, rs[0]).None?
    requires AnsweredUntilRefused(ms, hs[1..], rs[1..], rest, ServeAll(ms, hs[1..], tail))
    ensures AnsweredUntilRefused(ms, hs, rs, rest, ServeAll(ms, hs, RequestBytes(ms, rs[0]) + tail))
  {
    ProcessAnswers(ms, hs[0], rs[0], tail);
    OneMoreAnswered(ms, hs, rs, Process(ms, hs[0], RequestBytes(ms, rs[0]) + tail).val,
                    ServeAll(ms, hs[1..], tail).served);
  }

  lemma {:induction false} OneMoreAnswered(ms: seq<Method>, hs: seq<Handler>, rs: seq<Request>,
                                           s: Served, ss: seq<Served>)
    requires |hs| == |rs| > 0 && Answered(ms, hs[0], rs[0], s) && AllAnswered(ms, hs[1..], rs[1..], ss)
    ensures AllAnswered(ms, hs, rs, [s] + ss)
  {
    var all := [s] + ss;
    forall k | 0 <= k < |all| ensures Answered(ms, hs[k], rs[k], all[k]) {
      if k > 0 {
        assert rs[k] == rs[1..][k - 1] && hs[k] == hs[1..][k - 1] && all[k] == ss[k - 1];
      }
    }
  }

  /** An answer is one message, of type REPLY or EXCEPTION, that carries the request's own name and
      sequence id; an unknown method is answered with an exception. */
  lemma {:induction false} AnswerHeader(ms: seq<Method>, h: Handler, r: Request, s: Served, rest: bytes)
    requires GoodMethods(ms) && GoodHandler(h) && GoodRequest(ms, r) && Refusal(ms, r).None? && Answers(ms, h, r, s)
    ensures var p := ReadMessageBegin(s.reply + rest);
            && p.Ok? && p.val.name == r.name && p.val.seqid == r.seqid
            && (p.val.mtype == 2 || p.val.mtype == 3)
            && (s.call.None? ==> p.val.mtype == 3)
            && Skip(T_STRUCT, p.rest) == Ok((), rest)
  {
    var i := FindMethod(ms, r.name);
    if i == |ms| {
      var hdr := MessageHeader(r.name, T_EXCEPTION, r.seqid);
      AppExceptionIsGood();
      var body := Write(AppException, AppValue(InvalidName(r.name), UNKNOWN_METHOD));
      assert s.reply + rest == EncMessageBegin(hdr) + (body + rest);
      ReadMessageBeginEnc(hdr, body + rest);
      SkipConsumesExactly(ToWire(AppException, AppValue(InvalidName(r.name), UNKNOWN_METHOD)), rest);
    } else {
      var m, o := ms[i], s.call.value.outcome;
      assert GoodMethod(m);
      var hdr := ReplyHeader(m, r.seqid, o);
      assert s.reply + rest == EncMessageBegin(hdr) + (ReplyBody(m, o) + rest);
      ReadMessageBeginEnc(hdr, ReplyBody(m, o) + rest);
      ReplyBodyIsAStruct(m, o, rest);
    }
  }

  /** The exception that reports an unknown method: UNKNOWN_METHOD, which is 1, with this message */
  function NoSuchMethod(name: bytes): Result {
    RaiseApp(Ascii("Invalid method name: '") + name + Ascii("'"), 1)
  }

  /** Its reply is an EXCEPTION, which is 3, of that name and sequence id, and every client that reads it
      raises that. */
  lemma {:induction false} UnknownMethodReplyReads(name: bytes, seqid: int, more: bytes)
    requires |name| + 23 < 0x8000_0000 && InRange(4, seqid)
    ensures FitsSize(|InvalidName(name)|)
    ensures var q := ReadMessageBegin(UnknownMethodReply(name, seqid) + more);
            q.Ok? && q.val == MessageHeader(name, 3, seqid) && ReadAppException(q.rest) == Ok(NoSuchMethod(name), more)
    ensures forall m, target | GoodMethod(m) && GoodTarget(m, target) ::
              RecvPlain(m, target, UnknownMethodReply(name, seqid) + more) == Ok(NoSuchMethod(name), more)
  {
    var hdr, text := MessageHeader(name, T_EXCEPTION, seqid), InvalidName(name);
    AppExceptionIsGood();
    var body := Write(AppException, AppValue(text, UNKNOWN_METHOD));
    assert UnknownMethodReply(name, seqid) + more == EncMessageBegin(hdr) + (body + more);
    ReadMessageBeginEnc(hdr, body + more);
    AppExceptionArrives(text, UNKNOWN_METHOD, more);
  }

  /** A request of unknown name, whatever it carries, is consumed and reported so. */
  lemma {:induction false} UnknownMethodIsReported(ms: seq<Method>, h: Handler, r: Request, rest: bytes, more: bytes)
    returns (s: Served)
    requires GoodMethods(ms) && GoodHandler(h) && forall i | 0 <= i < |ms| :: ms[i].name != r.name
    requires InRange(4, r.seqid) && WellFormed(r.args) && r.args.WStruct?
    requires |r.name| + 23 < 0x8000_0000
    ensures GoodRequest(ms, r) && Process(ms, h, RequestBytes(ms, r) + rest) == Ok(s, rest) && s.call.None?
    ensures var q := ReadMessageBegin(s.reply + more);
            && q.Ok? && q.val == MessageHeader(r.name, 3, r.seqid)
            && ReadAppException(q.rest) == Ok(NoSuchMethod(r.name), more)
    ensures forall m, target | GoodMethod(m) && GoodTarget(m, target) ::
              RecvPlain(m, target, s.reply + more) == Ok(NoSuchMethod(r.name), more)
  {
    UnknownMethodReplyReads(r.name, r.seqid, more);
    ProcessAnswers(ms, h, r, rest);
    s := Process(ms, h, RequestBytes(ms, r) + rest).val;
  }

  lemma {:induction false} ReplyBodyIsAStruct(m: Method, o: Outcome, rest: bytes)
    requires GoodMethod(m) && GoodOutcome(m, o)
    ensures Skip(T_STRUCT, ReplyBody(m, o) + rest) == Ok((), rest)
  {
    ArmsAreGood(m);
    AppExceptionIsGood();
    if o.ThrewOther? {
      SkipConsumesExactly(ToWire(AppException, AppValue(o.what, UNKNOWN)), rest);
    } else {
      SkipConsumesExactly(ResultToWire(Arms(m), ServerResult(m, o)), rest);
    }
  }

  // ---------------------------------------------------------------- one call, end to end

  /** `send_x`: pargs.write, which writes what args.write would */
  function CallRequest(m: Method, seqid: int, args: Value): Request
    requires GoodMethod(m) && Typed(m.args, args)
  {
    Request(m.name, seqid, ToWire(m.args, args))
  }

  lemma {:induction false} CallRequestIsGood(ms: seq<Method>, i: nat, seqid: int, args: Value)
    requires GoodMethods(ms) && i < |ms| && GoodMethod(ms[i]) && Typed(ms[i].args, args)
    requires InRange(4, seqid) && FitsSize(|InvalidName(ms[i].name)|)
    ensures GoodRequest(ms, CallRequest(ms[i], seqid, args)) && Refusal(ms, CallRequest(ms[i], seqid, args)).None?
  {
    var m := ms[i];
    FindOwnMethod(ms, i);
    AbsorbWritten(m.args, Default(m.args), args);
    InvalidDataExactly(m.args, Default(m.args), ToWire(m.args, args));
  }

  /** The arguments as the server reads them */
  function ArgsReceived(m: Method, args: Value): (r: Value)
    requires GoodMethod(m) && Typed(m.args, args)
    ensures Typed(m.args, r)
  {
    Overlay(m.args, Default(m.args), args)
  }

  /** The arguments arrive equal iff no flag that starts true was cleared by hand, so for all that the
      program can build without doing that. */
  lemma {:induction false} ArgumentsArrive(m: Method, args: Value)
    requires GoodMethod(m) && Typed(m.args, args)
    ensures Same(m.args, args, ArgsReceived(m, args)) <==> Fresh(m.args, Default(m.args), args)
    ensures Built(m.args, args) ==> Same(m.args, args, ArgsReceived(m, args))
  {
    SameExactlyWhenFresh(m.args, Default(m.args), args);
    if Built(m.args, args) {
      BuiltIsFresh(m.args, args);
    }
  }

  lemma {:induction false} ServerAnswersCall(ms: seq<Method>, i: nat, seqid: int, args: Value, h: Handler, rest: bytes)
    requires GoodMethods(ms) && i < |ms| && GoodMethod(ms[i]) && GoodHandler(h)
    requires Typed(ms[i].args, args) && InRange(4, seqid) && FitsSize(|InvalidName(ms[i].name)|)
    ensures GoodRequest(ms, CallRequest(ms[i], seqid, args))
    ensures var m, a := ms[i], ArgsReceived(ms[i], args);
            var o := h(m, a);
            && GoodOutcome(m, o)
            && Process(ms, h, RequestBytes(ms, CallRequest(m, seqid, args)) + rest) ==
               Ok(Served(EncMessageBegin(ReplyHeader(m, seqid, o)) + ReplyBody(m, o), Some(Handled(m, a, o))), rest)
  {
    CallRequestIsGood(ms, i, seqid, args);
    ProcessAnswers(ms, h, CallRequest(ms[i], seqid, args), rest);
    FindOwnMethod(ms, i);
    AbsorbWritten(ms[i].args, Default(ms[i].args), args);
  }

  lemma {:induction false} WholeReplyIsDelivered(m: Method, target: Option<Value>, seqid: int, o: Outcome, rest: bytes)
    requires GoodMethod(m) && GoodTarget(m, target) && GoodOutcome(m, o) && InRange(4, seqid)
    ensures RecvPlain(m, target, (EncMessageBegin(ReplyHeader(m, seqid, o)) + ReplyBody(m, o)) + rest) ==
            Ok(Delivered(m, target, o), rest)
  {
    var head, body := EncMessageBegin(ReplyHeader(m, seqid, o)), ReplyBody(m, o);
    assert (head + body) + rest == head + (body + rest);
    ReplyIsDelivered(m, target, seqid, o, rest);
  }

  /** The handler is called once, with arguments equal to the caller's, and the caller gets exactly
      what it did. Both streams are left at the next message. */
  lemma {:induction false} CallEndToEnd(ms: seq<Method>, i: nat, seqid: int, args: Value, target: Option<Value>,
                                        h: Handler, restIn: bytes, restOut: bytes) returns (s: Served, c: Handled)
    requires GoodMethods(ms) && i < |ms| && GoodMethod(ms[i]) && GoodHandler(h)
    requires Typed(ms[i].args, args) && GoodTarget(ms[i], target)
    requires InRange(4, seqid) && FitsSize(|InvalidName(ms[i].name)|)
    ensures GoodRequest(ms, CallRequest(ms[i], seqid, args))
    ensures Process(ms, h, RequestBytes(ms, CallRequest(ms[i], seqid, args)) + restIn) == Ok(s, restIn)
    ensures s.call == Some(c) && c.m == ms[i] && c.outcome == h(ms[i], c.args)
    ensures Typed(ms[i].args, c.args) && GoodOutcome(ms[i], c.outcome)
    ensures Same(ms[i].args, args, c.args) <==> Fresh(ms[i].args, Default(ms[i].args), args)
    ensures Built(ms[i].args, args) ==> Same(ms[i].args, args, c.args)
    ensures RecvPlain(ms[i], target, s.reply + restOut) == Ok(Delivered(ms[i], target, c.outcome), restOut)
  {
    var m, a := ms[i], ArgsReceived(ms[i], args);
    var o := h(m, a);
    ServerAnswersCall(ms, i, seqid, args, h, restIn);
    ArgumentsArrive(m, args);
    c := Handled(m, a, o);
    s := Served(EncMessageBegin(ReplyHeader(m, seqid, o)) + ReplyBody(m, o), Some(c));
    WholeReplyIsDelivered(m, target, seqid, o, restOut);
  }
}
