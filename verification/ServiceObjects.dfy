/** The processor and the plain client as the objects they are: they consume one protocol's bytes and
    append to another's. */
module ServiceObjects {
  import opened Bytes
  import opened ThriftBinary
  import opened Schema
  import opened Codec
  import opened RoundTrip
  import opened Protocol
  import opened StructObject
  import opened Rpc
  import opened Dispatcher

  /** One reply per served request, in order */
  ghost function Replies(ss: seq<Served>): bytes {
    if ss == [] then [] else Replies(ss[..|ss| - 1]) + ss[|ss| - 1].reply
  }

  class THBaseServiceProcessor {
    const methods: seq<Method>

    ghost predicate Valid() {
      GoodMethods(methods)
    }

    constructor (ms: seq<Method>)
      requires GoodMethods(ms)
      ensures Valid() && methods == ms
    {
      methods := ms;
    }

    /** An exception out of here has left no reply, except that one may have broken off. */
    method DispatchCall(iprot: TProtocol, oprot: TProtocol, hdr: MessageHeader, h: Handler) returns (c: Call<()>)
      requires Valid() && GoodHandler(h) && hdr.Valid() && iprot != oprot
      modifies iprot, oprot
      ensures var r := Dispatch(methods, h, hdr, old(iprot.buf));
              if r.Fail? then
                c == Throw(r.error) && oprot.buf == old(oprot.buf) + BrokenOff(methods, hdr, old(iprot.buf))
              else c.Done? && iprot.buf == r.rest && oprot.buf == old(oprot.buf) + r.val.reply
    {
      assert oprot.buf + [] == oprot.buf;
      var i := 0;
      while i < |methods| && methods[i].name != hdr.name
        invariant 0 <= i <= |methods|
        invariant forall k | 0 <= k < i :: methods[k].name != hdr.name
      {
        i := i + 1;
      }
      FoundMethod(methods, hdr.name, i);
      if i == |methods| {
        c := RejectUnknown(iprot, oprot, hdr);
      } else {
        assert GoodMethod(methods[i]);
        c := ProcessMethod(methods[i], iprot, oprot, hdr.seqid, h);
      }
    }

    method RejectUnknown(iprot: TProtocol, oprot: TProtocol, hdr: MessageHeader) returns (c: Call<()>)
      requires Valid() && hdr.Valid() && iprot != oprot
      modifies iprot, oprot
      ensures var r := Skip(T_STRUCT, old(iprot.buf));
              if r.Fail? then c == Throw(r.error) && oprot.buf == old(oprot.buf)
              else if !FitsSize(|InvalidName(hdr.name)|) then
                c == Throw(SizeLimit) && oprot.buf == old(oprot.buf) + BrokenReply(hdr.name, hdr.seqid)
              else c.Done? && iprot.buf == r.rest &&
                   oprot.buf == old(oprot.buf) + UnknownMethodReply(hdr.name, hdr.seqid)
    {
      var k :- iprot.SkipField(T_STRUCT);
      var n := oprot.WriteMessageHeader(MessageHeader(hdr.name, T_EXCEPTION, hdr.seqid));
      if !FitsSize(|InvalidName(hdr.name)|) {
        // x.write gets as far as its first string
        var f := oprot.WriteFieldBegin(T_STRING, 1);
        return Throw(SizeLimit);
      }
      AppExceptionIsGood();
      var m := TStruct.WriteMember(AppException, AppValue(InvalidName(hdr.name), UNKNOWN_METHOD), oprot);
      return Done((), 0);
    }

    /** `process_x` */
    method ProcessMethod(m: Method, iprot: TProtocol, oprot: TProtocol, seqid: int, h: Handler) returns (c: Call<()>)
      requires Valid() && GoodMethod(m) && GoodHandler(h) && InRange(4, seqid) && iprot != oprot
      modifies iprot, oprot
      ensures var r := ReadValue(m.args, Default(m.args), old(iprot.buf));
              if r.Fail? then c == Throw(r.error) && oprot.buf == old(oprot.buf)
              else
                && c.Done? && iprot.buf == r.rest
                && var o := h(m, r.val);
                   oprot.buf == old(oprot.buf) + (EncMessageBegin(ReplyHeader(m, seqid, o)) + ReplyBody(m, o))
    {
      var args :- TStruct.ReadMember(m.args, Default(m.args), iprot);
      var o := h(m, args.val);
      WriteReply(m, seqid, o, oprot);
      return Done((), 0);
    }

    method WriteReply(m: Method, seqid: int, o: Outcome, oprot: TProtocol)
      requires GoodMethod(m) && GoodOutcome(m, o) && InRange(4, seqid)
      modifies oprot
      ensures oprot.buf == old(oprot.buf) + (EncMessageBegin(ReplyHeader(m, seqid, o)) + ReplyBody(m, o))
    {
      ArmsAreGood(m);
      AppExceptionIsGood();
      var n := oprot.WriteMessageHeader(ReplyHeader(m, seqid, o));
      if o.ThrewOther? {
        var x := TStruct.WriteMember(AppException, AppValue(o.what, UNKNOWN), oprot);
      } else {
        WriteResult(Arms(m), ServerResult(m, o), oprot);
      }
    }

    /** `x_result::write`: if / else if over the arms */
    method WriteResult(fs: seq<Field>, r: Value, oprot: TProtocol)
      requires GoodFields(fs) && TypedStruct(fs, r)
      modifies oprot
      ensures oprot.buf == old(oprot.buf) + Ser(ResultToWire(fs, r))
    {
      var i := 0;
      while i < |fs| && !r.isset[i]
        invariant 0 <= i <= |fs|
        invariant forall k | 0 <= k < i :: !r.isset[k]
      {
        i := i + 1;
      }
      FirstSetOf(r.isset, i);
      if i < |fs| {
        assert GoodField(fs[i]) && TypedField(fs[i], r.vals[i]);
        var n := TStruct.WriteField(fs[i], r.vals[i], oprot);
        OneField(ToWireField(fs[i], r.vals[i]));
        assert ResultToWire(fs, r) == WStruct([ToWireField(fs[i], r.vals[i])]);
      } else {
        assert ResultToWire(fs, r) == WStruct([]);
      }
      var k := oprot.WriteFieldStop();
    }

    /** One message of the connection */
    method ProcessNext(iprot: TProtocol, oprot: TProtocol, h: Handler) returns (c: Call<()>)
      requires Valid() && GoodHandler(h) && iprot != oprot
      modifies iprot, oprot
      ensures var r := Process(methods, h, old(iprot.buf));
              if r.Fail? then c == Throw(r.error) && oprot.buf == old(oprot.buf) + BrokenAt(methods, old(iprot.buf))
              else c.Done? && iprot.buf == r.rest && oprot.buf == old(oprot.buf) + r.val.reply
    {
      assert oprot.buf + [] == oprot.buf;
      var hdr :- iprot.ReadMessageHeader();
      c := DispatchCall(iprot, oprot, hdr.val, h);
    }

    /** A connection, for as many messages as handlers are given: it answers them one by one and stops
        at the first exception, with every earlier reply emitted. */
    method Run(iprot: TProtocol, oprot: TProtocol, hs: seq<Handler>) returns (c: Call<()>)
      requires Valid() && iprot != oprot && forall k | 0 <= k < |hs| :: GoodHandler(hs[k])
      modifies iprot, oprot
      ensures var r := ServeAll(methods, hs, old(iprot.buf));
              && oprot.buf == old(oprot.buf) + Replies(r.served) + r.broken
              && if r.end.Fail? then c == Throw(r.end.error) else c.Done? && iprot.buf == r.end.rest
    {
      ghost var o0 := oprot.buf;
      ghost var total := ServeAll(methods, hs, iprot.buf);
      ghost var served: seq<Served> := [];
      assert hs[0..] == hs && served + total.served == total.served;
      for i := 0 to |hs|
        invariant oprot.buf == o0 + Replies(served)
        invariant total == After(served, ServeAll(methods, hs[i..], iprot.buf))
      {
        ghost var p := Process(methods, hs[i], iprot.buf);
        RunTurn(methods, hs[i..], iprot.buf, served);
        assert hs[i..][1..] == hs[i + 1..];
        var d :- ProcessNext(iprot, oprot, hs[i]);
        RepliesAppend(o0, served, p.val);
        served := served + [p.val];
      }
      assert hs[|hs|..] == [] && served + [] == served;
      return Done((), 0);
    }
  }

  class THBaseServiceClient {
    constructor () {
    }

    /** `send_x`, with sequence id 0 */
    method Send(m: Method, args: Value, oprot: TProtocol)
      requires GoodMethod(m) && Typed(m.args, args)
      modifies oprot
      ensures oprot.buf == old(oprot.buf) + (EncMessageBegin(MessageHeader(m.name, T_CALL, 0)) + Write(m.args, args))
    {
      var n := oprot.WriteMessageHeader(MessageHeader(m.name, T_CALL, 0));
      var k := TStruct.WriteMember(m.args, args, oprot);
    }

    /** `recv_x`: `target` is what `_return` refers to */
    method Receive(m: Method, target: Option<Value>, iprot: TProtocol) returns (c: Call<Result>)
      requires GoodMethod(m) && GoodTarget(m, target)
      modifies iprot
      ensures var r := RecvPlain(m, target, old(iprot.buf));
              if r.Fail? then c == Throw(r.error) else c.Done? && c.val == r.val && iprot.buf == r.rest
    {
      ArmsAreGood(m);
      AppExceptionIsGood();
      var hdr :- iprot.ReadMessageHeader();
      if hdr.val.mtype == T_EXCEPTION {
        var x :- TStruct.ReadMember(AppException, Default(AppException), iprot);
        assert TypedField(AppException.fields[0], x.val.vals[0]) && TypedField(AppException.fields[1], x.val.vals[1]);
        return Done(RaiseApp(x.val.vals[0].s, x.val.vals[1].n), 0);
      }
      if hdr.val.mtype != T_REPLY {
        var k :- iprot.SkipField(T_STRUCT);
      }
      if hdr.val.name != m.name {
        var k :- iprot.SkipField(T_STRUCT);
      }
      var result :- TStruct.ReadMember(SStruct(Arms(m)), Presult(m, target), iprot);
      return Done(Classify(m, result.val), 0);
    }
  }

  /** A call through both objects, over empty transports: the server calls
      the handler once, with arguments equal to the caller's, and the caller is given its outcome. */
  method CallThrough(client: THBaseServiceClient, server: THBaseServiceProcessor, i: nat, args: Value,
                     target: Option<Value>, h: Handler, request: TProtocol, reply: TProtocol)
    returns (c: Call<Result>, seen: Value)
    requires server.Valid() && i < |server.methods| && GoodMethod(server.methods[i]) && GoodHandler(h)
    requires Typed(server.methods[i].args, args)
    requires GoodTarget(server.methods[i], target) && FitsSize(|InvalidName(server.methods[i].name)|)
    requires request != reply && request.buf == [] && reply.buf == []
    modifies request, reply
    ensures var m := server.methods[i];
            && Typed(m.args, seen) && (Same(m.args, args, seen) <==> Fresh(m.args, Default(m.args), args))
            && (Built(m.args, args) ==> Same(m.args, args, seen))
            && GoodOutcome(m, h(m, seen))
            && c.Done? && c.val == Delivered(m, target, h(m, seen))
            && (SameOutcome(m, h(m, seen), c.val) <==>
                  (h(m, seen).Returned? && h(m, seen).v.Some? ==>
                     Fresh(m.ret.value, target.value, h(m, seen).v.value)))
    ensures request.buf == [] && reply.buf == []
  {
    var m := server.methods[i];
    seen := ArgsReceived(m, args);
    ghost var s, d := CallEndToEnd(server.methods, i, 0, args, target, h, [], []);
    client.Send(m, args, request);
    assert request.buf == RequestBytes(server.methods, CallRequest(m, 0, args)) + [];
    ServerAnswersCall(server.methods, i, 0, args, h, []);
    var p := server.ProcessNext(request, reply, h);
    assert reply.buf == s.reply + [];
    c := client.Receive(m, target, reply);
    SameOutcomeExactly(m, target, h(m, seen));
  }

  /** A call of a method that the server does not have */
  method CallUnknown(client: THBaseServiceClient, server: THBaseServiceProcessor, m: Method, args: Value,
                     target: Option<Value>, h: Handler, request: TProtocol, reply: TProtocol)
    returns (c: Call<Result>)
    requires server.Valid() && GoodMethod(m) && GoodHandler(h) && |m.name| + 23 < 0x8000_0000
    requires forall i | 0 <= i < |server.methods| :: server.methods[i].name != m.name
    requires Typed(m.args, args) && GoodTarget(m, target)
    requires request != reply && request.buf == [] && reply.buf == []
    modifies request, reply
    ensures c.Done? && c.val == NoSuchMethod(m.name)
    ensures request.buf == [] && reply.buf == []
  {
    ghost var r := CallRequest(m, 0, args);
    ghost var s := UnknownMethodIsReported(server.methods, h, r, [], []);
    client.Send(m, args, request);
    assert request.buf == RequestBytes(server.methods, r) + [];
    var p := server.ProcessNext(request, reply, h);
    assert reply.buf == s.reply + [];
    c := client.Receive(m, target, reply);
  }

  /** What the messages so far and those to come amount to */
  ghost function After(done: seq<Served>, c: Connection): Connection {
    c.(served := done + c.served)
  }

  lemma {:induction false} RepliesAppend(o: bytes, done: seq<Served>, s: Served)
    ensures (o + Replies(done)) + s.reply == o + Replies(done + [s])
  {
    assert (done + [s])[..|done|] == done;
  }

  lemma {:induction false} RunTurn(ms: seq<Method>, hs: seq<Handler>, bs: bytes, done: seq<Served>)
    requires GoodMethods(ms) && hs != [] && forall k | 0 <= k < |hs| :: GoodHandler(hs[k])
    ensures var p := Process(ms, hs[0], bs);
            After(done, ServeAll(ms, hs, bs)) ==
            if p.Ok? then After(done + [p.val], ServeAll(ms, hs[1..], p.rest))
            else Connection(done, BrokenAt(ms, bs), Fail(p.error))
  {
    var p := Process(ms, hs[0], bs);
    if p.Ok? {
      var c := ServeAll(ms, hs[1..], p.rest);
      assert done + ([p.val] + c.served) == (done + [p.val]) + c.served;
    } else {
      assert done + [] == done;
    }
  }

  lemma {:induction false} OneField(f: WireField)
    requires WellFormedField(f)
    ensures SerFields([f]) == SerField(f) + [T_STOP]
  {
    assert [f][1..] == [];
    assert SerFields([]) == [T_STOP];
  }

  lemma {:induction false} FoundMethod(ms: seq<Method>, name: bytes, i: nat)
    requires i <= |ms| && (forall k | 0 <= k < i :: ms[k].name != name) && (i < |ms| ==> ms[i].name == name)
    ensures FindMethod(ms, name) == i
  {
    assert FindMethod(ms, name) >= i;
  }

  /** Replies come out in request order, each with the request's own name and sequence id, up to the
      first refused request: what a run emits is exactly the concatenation of the answers, and then what
      the refusal leaves. */
  lemma {:induction false} RunAnswersAll(ms: seq<Method>, hs: seq<Handler>, rs: seq<Request>, rest: bytes)
    requires GoodMethods(ms) && |hs| == |rs| && GoodRequests(ms, rs)
    requires forall k | 0 <= k < |hs| :: GoodHandler(hs[k])
    ensures var c := ServeAll(ms, hs, Stream(ms, rs) + rest);
            && AnsweredUntilRefused(ms, hs, rs, rest, c)
            && forall k | 0 <= k < |c.served| :: CarriesHeaderOf(rs[k], c.served[k].reply)
  {
    EveryRequestIsAnswered(ms, hs, rs, rest);
    var ss := ServeAll(ms, hs, Stream(ms, rs) + rest).served;
    forall k | 0 <= k < |ss| ensures CarriesHeaderOf(rs[k], ss[k].reply) {
      assert Answered(ms, hs[k], rs[k], ss[k]);
      AnswerHeader(ms, hs[k], rs[k], ss[k], []);
      assert ss[k].reply + [] == ss[k].reply;
    }
  }

  /** One whole message with the request's name and sequence id */
  predicate CarriesHeaderOf(r: Request, reply: bytes) {
    var q := ReadMessageBegin(reply);
    q.Ok? && q.val.name == r.name && q.val.seqid == r.seqid && Skip(T_STRUCT, q.rest) == Ok((), [])
  }
}
