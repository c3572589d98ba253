/**
 THBaseServiceConcurrentClient: any number of threads share one connection. Replies may come back
 in any order; a thread that reads a header which is not its own parks it in the single pending
 slot of TConcurrentClientSyncInfo and lets others work.

 TConcurrentClientSyncInfo itself belongs to the Thrift runtime and is not part of this model. What
 is assumed of it: a generated sequence id is not that of an outstanding call; a message is sent
 whole under the send mutex; the read mutex is held from the receive sentry on, except inside
 waitForWork, which returns only when the pending header is the thread's own or a wake-up is
 outstanding; a sentry that commits leaves a wake-up, getPending takes it back; updatePending throws
 when nobody waits for the id; leaving without commit kills the connection. A call in progress is an
 entry of its monitor map.
 */
module ConcurrentClient {
  import opened Bytes
  import opened ThriftBinary
  import opened Schema
  import opened RoundTrip
  import opened Rpc
  import opened Dispatcher

  datatype Call = Call(mi: nat, seqid: int, args: Value, target: Option<Value>)

  datatype Thread =
    | Idle
    | Waiting(call: Call)                              // sent, about to enter the receive sentry
    | Parked(call: Call)                               // in waitForWork
    | Reading(call: Call, hdr: Option<MessageHeader>)  // in the recv_x loop, with the read mutex
    | Finished(call: Call, result: Result, handled: Option<Handled>)

  /** A request on its way: its bytes, and for the proof whose it is */
  datatype Sent = Sent(seqid: int, raw: bytes)

  /** A reply whose body has not been consumed */
  datatype InFlight = InFlight(hdr: MessageHeader, body: bytes)

  /** `replies` and `log` are history variables: no step of a client thread depends on them. */
  datatype State = State(
    threads: seq<Thread>,
    monitors: map<int, Call>,
    reader: Option<nat>,
    pending: Option<MessageHeader>,
    wakeup: bool,
    dead: bool,
    outbound: seq<Sent>,
    input: bytes,
    replies: seq<InFlight>,
    log: map<int, Handled>)

  predicate GoodService(ms: seq<Method>) {
    GoodMethods(ms) && forall i | 0 <= i < |ms| :: FitsSize(|InvalidName(ms[i].name)|)
  }

  predicate GoodCall(ms: seq<Method>, c: Call)
    requires GoodService(ms)
  {
    && c.mi < |ms| && InRange(4, c.seqid)
    && GoodMethod(ms[c.mi])
    && Typed(ms[c.mi].args, c.args)
    && GoodTarget(ms[c.mi], c.target)
  }

  function SendBytes(ms: seq<Method>, c: Call): bytes
    requires GoodService(ms) && GoodCall(ms, c)
  {
    EncMessageBegin(MessageHeader(ms[c.mi].name, T_CALL, c.seqid)) + Write(ms[c.mi].args, c.args)
  }

  // ---------------------------------------------------------------- steps

  predicate Init(s: State) {
    && (forall t | 0 <= t < |s.threads| :: s.threads[t].Idle?)
    && s.monitors == map[] && s.reader.None? && s.pending.None? && !s.wakeup && !s.dead
    && s.outbound == [] && s.input == [] && s.replies == [] && s.log == map[]
  }

  /** generateSeqId and send_x */
  predicate Send(ms: seq<Method>, s: State, t: nat, c: Call, s': State)
    requires GoodService(ms)
  {
    && t < |s.threads| && (s.threads[t].Idle? || s.threads[t].Finished?)
    && GoodCall(ms, c) && c.seqid !in s.monitors
    && s' == s.(threads := s.threads[t := Waiting(c)],
                monitors := s.monitors[c.seqid := c],
                outbound := s.outbound + [Sent(c.seqid, SendBytes(ms, c))])
  }

  /** The server takes any outstanding request and answers it */
  ghost predicate Serve(ms: seq<Method>, s: State, k: nat, h: Handler, s': State)
    requires GoodService(ms)
  {
    && k < |s.outbound| && GoodHandler(h)
    && var p := Process(ms, h, s.outbound[k].raw);
    && p.Ok? && p.rest == []
    && var r := ReadMessageBegin(p.val.reply);
    && r.Ok?
    && s' == s.(outbound := s.outbound[..k] + s.outbound[k + 1..],
                input := s.input + p.val.reply,
                replies := s.replies + [InFlight(r.val, r.rest)],
                log := if p.val.call.Some? then s.log[s.outbound[k].seqid := p.val.call.value] else s.log)
  }

  /** The receive sentry takes the read mutex whenever it is free. waitForWork gets it back only for the
      thread's own header or for a wake-up. */
  predicate MayLock(s: State, t: nat) {
    && t < |s.threads| && s.reader.None? && !s.dead
    && match s.threads[t]
       case Waiting(_) => true
       case Parked(c) => s.wakeup || (s.pending.Some? && s.pending.value.seqid == c.seqid)
       case _ => false
  }

  predicate Lock(s: State, t: nat, s': State) {
    && MayLock(s, t)
    && s' == s.(threads := s.threads[t := Reading(s.threads[t].call, None)], reader := Some(t))
  }

  /** `if (!sync_.getPending(...)) iprot_->readMessageBegin(...)` */
  predicate TakeHeader(s: State, t: nat, s': State) {
    && t < |s.threads| && s.reader == Some(t) && s.threads[t].Reading? && s.threads[t].hdr.None?
    && if s.pending.Some? then
         s' == s.(threads := s.threads[t := Reading(s.threads[t].call, s.pending)], pending := None, wakeup := false)
       else
         var r := ReadMessageBegin(s.input);
         && r.Ok?
         && s' == s.(threads := s.threads[t := Reading(s.threads[t].call, Some(r.val))],
                     input := r.rest, wakeup := false)
  }

  /** `seqid == rseqid`: read the body, commit, and give up the read mutex; or leave uncommitted */
  predicate Finish(ms: seq<Method>, s: State, t: nat, s': State)
    requires GoodService(ms)
  {
    && t < |s.threads| && s.reader == Some(t) && s.threads[t].Reading? && s.threads[t].hdr.Some?
    && var c := s.threads[t].call;
    && GoodCall(ms, c) && s.threads[t].hdr.value.seqid == c.seqid
    && var r := RecvBody(ms[c.mi], c.target, s.threads[t].hdr.value, s.input);
       if r.Ok? && Commits(r.val) then
         var handled := if c.seqid in s.log then Some(s.log[c.seqid]) else None;
         s' == s.(threads := s.threads[t := Finished(c, r.val, handled)],
                  monitors := s.monitors - {c.seqid},
                  reader := None,
                  wakeup := true,
                  input := r.rest,
                  replies := if s.replies == [] then [] else s.replies[1..])
       else s' == s.(dead := true)
  }

  /** `seqid != rseqid`: updatePending, then waitForWork */
  predicate PutBack(s: State, t: nat, s': State) {
    && t < |s.threads| && s.reader == Some(t) && s.threads[t].Reading? && s.threads[t].hdr.Some?
    && var c := s.threads[t].call;
    && s.threads[t].hdr.value.seqid != c.seqid
    && if s.threads[t].hdr.value.seqid in s.monitors then
         s' == s.(threads := s.threads[t := Parked(c)], pending := s.threads[t].hdr, reader := None)
       else s' == s.(dead := true)
  }

  ghost predicate Next(ms: seq<Method>, s: State, s': State)
    requires GoodService(ms)
  {
    (exists t: nat, c :: Send(ms, s, t, c, s')) || Proceed(ms, s, s')
  }

  /** Every step but the start of a new call */
  ghost predicate Proceed(ms: seq<Method>, s: State, s': State)
    requires GoodService(ms)
  {
    || (exists k: nat, h :: Serve(ms, s, k, h, s'))
    || (exists t: nat :: Lock(s, t, s'))
    || (exists t: nat :: TakeHeader(s, t, s'))
    || (exists t: nat :: Finish(ms, s, t, s'))
    || (exists t: nat :: PutBack(s, t, s'))
  }

  // ---------------------------------------------------------------- invariant

  predicate Active(th: Thread) {
    th.Waiting? || th.Parked? || th.Reading?
  }

  predicate MonitorsOk(ms: seq<Method>, monitors: map<int, Call>)
    requires GoodService(ms)
  {
    forall q | q in monitors :: GoodCall(ms, monitors[q]) && monitors[q].seqid == q
  }

  /** Every call in progress has its own sequence id and one thread; only the reader reads. */
  predicate ThreadsOk(threads: seq<Thread>, monitors: map<int, Call>, reader: Option<nat>) {
    && (forall t | 0 <= t < |threads| && Active(threads[t]) ::
          threads[t].call.seqid in monitors && monitors[threads[t].call.seqid] == threads[t].call)
    && (forall t, u | 0 <= t < u < |threads| && Active(threads[t]) && Active(threads[u]) ::
          threads[t].call.seqid != threads[u].call.seqid)
    && (forall t | 0 <= t < |threads| :: threads[t].Reading? <==> reader == Some(t))
    && (reader.Some? ==> reader.value < |threads|)
    && (forall q | q in monitors :: Owned(threads, q))
  }

  /** Some thread is in that call. */
  predicate Owned(threads: seq<Thread>, q: int) {
    exists t :: 0 <= t < |threads| && Active(threads[t]) && threads[t].call.seqid == q
  }

  lemma {:induction false} StillOwned(threads: seq<Thread>, monitors: map<int, Call>, t: nat, th: Thread)
    requires t < |threads|
    requires forall q | q in monitors :: Owned(threads, q)
    requires Active(threads[t]) ==>
               threads[t].call.seqid !in monitors || (Active(th) && th.call.seqid == threads[t].call.seqid)
    ensures forall q | q in monitors :: Owned(threads[t := th], q)
  {
    forall q | q in monitors ensures Owned(threads[t := th], q) {
      var u :| 0 <= u < |threads| && Active(threads[u]) && threads[u].call.seqid == q;
      assert u != t ==> threads[t := th][u] == threads[u];
      assert threads[t := th][t] == th;
    }
  }

  /** The handler was given this call's own arguments. */
  predicate HandledFor(ms: seq<Method>, c: Call, d: Handled)
    requires GoodService(ms) && GoodCall(ms, c)
  {
    && d.m == ms[c.mi]
    && d.args == ArgsReceived(ms[c.mi], c.args)
    && GoodOutcome(ms[c.mi], d.outcome)
  }

  predicate RequestOf(ms: seq<Method>, monitors: map<int, Call>, r: Sent)
    requires GoodService(ms) && MonitorsOk(ms, monitors)
  {
    r.seqid in monitors && r.raw == SendBytes(ms, monitors[r.seqid])
  }

  predicate RequestsOk(ms: seq<Method>, monitors: map<int, Call>, outbound: seq<Sent>)
    requires GoodService(ms) && MonitorsOk(ms, monitors)
  {
    forall k | 0 <= k < |outbound| :: RequestOf(ms, monitors, outbound[k])
  }

  predicate ReplyOf(ms: seq<Method>, monitors: map<int, Call>, log: map<int, Handled>, r: InFlight)
    requires GoodService(ms) && MonitorsOk(ms, monitors)
  {
    var q := r.hdr.seqid;
    && q in monitors && q in log
    && HandledFor(ms, monitors[q], log[q])
    && r.hdr == ReplyHeader(ms[monitors[q].mi], q, log[q].outcome)
    && r.body == ReplyBody(ms[monitors[q].mi], log[q].outcome)
  }

  predicate RepliesOk(ms: seq<Method>, monitors: map<int, Call>, log: map<int, Handled>, replies: seq<InFlight>)
    requires GoodService(ms) && MonitorsOk(ms, monitors)
  {
    forall k | 0 <= k < |replies| :: ReplyOf(ms, monitors, log, replies[k])
  }

  /** The sequence ids of all messages in flight, requests first */
  function Ids(outbound: seq<Sent>, replies: seq<InFlight>): (r: seq<int>)
    ensures |r| == |outbound| + |replies|
  {
    seq(|outbound|, i requires 0 <= i < |outbound| => outbound[i].seqid) +
    seq(|replies|, i requires 0 <= i < |replies| => replies[i].hdr.seqid)
  }

  /** Each call in progress is exactly one message: a request not yet served or a reply not yet
      consumed. */
  predicate OneMessageEach(monitors: map<int, Call>, outbound: seq<Sent>, replies: seq<InFlight>) {
    var ids := Ids(outbound, replies);
    && (forall j, k | 0 <= j < k < |ids| :: ids[j] != ids[k])
    && (forall q | q in monitors :: q in ids)
    && (forall q | q in ids :: q in monitors)
  }

  /** The header that has left the stream while its body has not */
  function Taken(threads: seq<Thread>, reader: Option<nat>, pending: Option<MessageHeader>): Option<MessageHeader> {
    if pending.Some? then pending
    else if reader.Some? && reader.value < |threads| && threads[reader.value].Reading? then threads[reader.value].hdr
    else None
  }

  predicate GoodHeaders(rs: seq<InFlight>) {
    forall k | 0 <= k < |rs| :: rs[k].hdr.Valid()
  }

  function Flat(rs: seq<InFlight>): bytes
    requires GoodHeaders(rs)
  {
    if rs == [] then [] else EncMessageBegin(rs[0].hdr) + rs[0].body + Flat(rs[1..])
  }

  /** The unread bytes are whole replies, except that the first one's header may have been taken. */
  predicate Aligned(taken: Option<MessageHeader>, input: bytes, replies: seq<InFlight>) {
    && GoodHeaders(replies)
    && match taken
       case None => input == Flat(replies)
       case Some(h) => replies != [] && replies[0].hdr == h && input == replies[0].body + Flat(replies[1..])
  }

  predicate FinishedThread(ms: seq<Method>, th: Thread)
    requires GoodService(ms) && th.Finished?
  {
    && GoodCall(ms, th.call) && th.handled.Some? && HandledFor(ms, th.call, th.handled.value)
    && th.result == Delivered(ms[th.call.mi], th.call.target, th.handled.value.outcome)
  }

  predicate FinishedOk(ms: seq<Method>, threads: seq<Thread>)
    requires GoodService(ms)
  {
    forall t | 0 <= t < |threads| && threads[t].Finished? :: FinishedThread(ms, threads[t])
  }

  predicate Inv(ms: seq<Method>, s: State)
    requires GoodService(ms)
  {
    && !s.dead
    && MonitorsOk(ms, s.monitors)
    && ThreadsOk(s.threads, s.monitors, s.reader)
    && RequestsOk(ms, s.monitors, s.outbound)
    && RepliesOk(ms, s.monitors, s.log, s.replies)
    && OneMessageEach(s.monitors, s.outbound, s.replies)
    && Aligned(Taken(s.threads, s.reader, s.pending), s.input, s.replies)
    // the pending slot is empty whenever the reader has a header in hand
    && (s.pending.Some? ==> Taken(s.threads, s.reader, None).None?)
    && FinishedOk(ms, s.threads)
    && NoLostWakeup(s)
  }

  /** While the read mutex is free and a call is in progress, some thread has a reason to take it. */
  predicate NoLostWakeup(s: State) {
    s.reader.None? && s.monitors != map[] ==> s.wakeup || s.pending.Some? || SomeoneWaits(s.threads)
  }

  predicate SomeoneWaits(threads: seq<Thread>) {
    exists t :: 0 <= t < |threads| && threads[t].Waiting?
  }

  // ---------------------------------------------------------------- every step keeps it

  lemma {:induction false} FlatAppend(rs: seq<InFlight>, r: InFlight)
    requires GoodHeaders(rs + [r])
    ensures GoodHeaders(rs) && r.hdr.Valid()
    ensures Flat(rs + [r]) == Flat(rs) + (EncMessageBegin(r.hdr) + r.body)
  {
    assert (rs + [r])[|rs|] == r;
    assert forall k | 0 <= k < |rs| :: (rs + [r])[k] == rs[k];
    if rs == [] {
      assert Flat([r]) == EncMessageBegin(r.hdr) + r.body + Flat([]);
    } else {
      assert (rs + [r])[1..] == rs[1..] + [r];
      FlatAppend(rs[1..], r);
    }
  }

  lemma {:induction false} Associative(a: bytes, b: bytes, c: bytes)
    ensures (a + b) + c == a + (b + c)
  {
  }

  lemma {:induction false} AlignedAppend(taken: Option<MessageHeader>, input: bytes, replies: seq<InFlight>,
                                         r: InFlight)
    requires Aligned(taken, input, replies) && r.hdr.Valid()
    ensures Aligned(taken, input + (EncMessageBegin(r.hdr) + r.body), replies + [r])
  {
    assert GoodHeaders(replies + [r]);
    if taken.None? {
      FlatAppend(replies, r);
    } else {
      var tail := replies[1..];
      assert (replies + [r])[1..] == tail + [r] && (replies + [r])[0] == replies[0];
      FlatAppend(tail, r);
      Associative(replies[0].body, Flat(tail), EncMessageBegin(r.hdr) + r.body);
    }
  }

  lemma {:induction false} InitInv(ms: seq<Method>, s: State)
    requires GoodService(ms) && Init(s)
    ensures Inv(ms, s)
  {
  }

  lemma {:induction false} SendIds(monitors: map<int, Call>, outbound: seq<Sent>, replies: seq<InFlight>, c: Call,
                                   r: Sent)
    requires OneMessageEach(monitors, outbound, replies) && c.seqid !in monitors && r.seqid == c.seqid
    ensures OneMessageEach(monitors[c.seqid := c], outbound + [r], replies)
  {
    var ids, ids' := Ids(outbound, replies), Ids(outbound + [r], replies);
    var n := |outbound|;
    assert ids' == ids[..n] + [c.seqid] + ids[n..];
    assert ids == ids[..n] + ids[n..];
    assert c.seqid !in ids;
  }

  lemma {:induction false} SendRequests(ms: seq<Method>, monitors: map<int, Call>, outbound: seq<Sent>, c: Call)
    requires GoodService(ms) && MonitorsOk(ms, monitors) && RequestsOk(ms, monitors, outbound)
    requires GoodCall(ms, c) && c.seqid !in monitors
    ensures MonitorsOk(ms, monitors[c.seqid := c])
    ensures RequestsOk(ms, monitors[c.seqid := c], outbound + [Sent(c.seqid, SendBytes(ms, c))])
  {
    forall k | 0 <= k < |outbound| ensures RequestOf(ms, monitors[c.seqid := c], outbound[k]) {
      assert RequestOf(ms, monitors, outbound[k]);
    }
  }

  lemma {:induction false} SendReplies(ms: seq<Method>, monitors: map<int, Call>, log: map<int, Handled>,
                                       replies: seq<InFlight>, c: Call)
    requires GoodService(ms) && MonitorsOk(ms, monitors) && RepliesOk(ms, monitors, log, replies)
    requires c.seqid !in monitors && MonitorsOk(ms, monitors[c.seqid := c])
    ensures RepliesOk(ms, monitors[c.seqid := c], log, replies)
  {
    forall k | 0 <= k < |replies| ensures ReplyOf(ms, monitors[c.seqid := c], log, replies[k]) {
      assert ReplyOf(ms, monitors, log, replies[k]);
    }
  }

  lemma {:induction false} SendThreads(threads: seq<Thread>, monitors: map<int, Call>, reader: Option<nat>, t: nat,
                                       c: Call)
    requires ThreadsOk(threads, monitors, reader) && t < |threads| && !Active(threads[t]) && c.seqid !in monitors
    ensures ThreadsOk(threads[t := Waiting(c)], monitors[c.seqid := c], reader)
  {
    StillOwned(threads, monitors, t, Waiting(c));
    assert Owned(threads[t := Waiting(c)], c.seqid) by {
      assert threads[t := Waiting(c)][t].call.seqid == c.seqid;
    }
  }

  lemma {:induction false} SendInv(ms: seq<Method>, s: State, t: nat, c: Call, s': State)
    requires GoodService(ms) && Inv(ms, s) && Send(ms, s, t, c, s')
    ensures Inv(ms, s')
  {
    SendRequests(ms, s.monitors, s.outbound, c);
    SendReplies(ms, s.monitors, s.log, s.replies, c);
    SendIds(s.monitors, s.outbound, s.replies, c, Sent(c.seqid, SendBytes(ms, c)));
    SendThreads(s.threads, s.monitors, s.reader, t, c);
    assert s'.threads[t].Waiting?;
    assert Taken(s'.threads, s'.reader, s'.pending) == Taken(s.threads, s.reader, s.pending);
  }

  lemma {:induction false} ServedReply(ms: seq<Method>, s: State, k: nat, h: Handler, s': State)
    returns (c: Call, d: Handled)
    requires GoodService(ms) && Inv(ms, s) && Serve(ms, s, k, h, s')
    ensures s.outbound[k].seqid in s.monitors && c == s.monitors[s.outbound[k].seqid]
    ensures HandledFor(ms, c, d) && s.outbound[k] == Sent(c.seqid, SendBytes(ms, c))
    ensures d == Handled(ms[c.mi], ArgsReceived(ms[c.mi], c.args), h(ms[c.mi], ArgsReceived(ms[c.mi], c.args)))
    ensures s'.log == s.log[c.seqid := d]
    ensures s'.replies == s.replies + [InFlight(ReplyHeader(d.m, c.seqid, d.outcome), ReplyBody(d.m, d.outcome))]
    ensures s'.input == s.input + (EncMessageBegin(ReplyHeader(d.m, c.seqid, d.outcome)) + ReplyBody(d.m, d.outcome))
  {
    assert RequestOf(ms, s.monitors, s.outbound[k]);
    c := s.monitors[s.outbound[k].seqid];
    var m, a := ms[c.mi], ArgsReceived(ms[c.mi], c.args);
    ServerAnswersCall(ms, c.mi, c.seqid, c.args, h, []);
    d := Handled(m, a, h(m, a));
    assert RequestBytes(ms, CallRequest(m, c.seqid, c.args)) == SendBytes(ms, c);
    assert SendBytes(ms, c) + [] == SendBytes(ms, c);
    ReadMessageBeginEnc(ReplyHeader(m, c.seqid, d.outcome), ReplyBody(m, d.outcome));
  }

  lemma {:induction false} ServeIds(monitors: map<int, Call>, outbound: seq<Sent>, replies: seq<InFlight>, k: nat,
                                    r: InFlight)
    requires OneMessageEach(monitors, outbound, replies) && k < |outbound| && r.hdr.seqid == outbound[k].seqid
    ensures OneMessageEach(monitors, outbound[..k] + outbound[k + 1..], replies + [r])
  {
    var ids, ids' := Ids(outbound, replies), Ids(outbound[..k] + outbound[k + 1..], replies + [r]);
    assert ids' == ids[..k] + ids[k + 1..] + [ids[k]];
    assert ids == ids[..k] + [ids[k]] + ids[k + 1..];
  }

  lemma {:induction false} ServeReplies(ms: seq<Method>, monitors: map<int, Call>, log: map<int, Handled>,
                                        replies: seq<InFlight>,
                     c: Call, d: Handled, r: InFlight)
    requires GoodService(ms) && MonitorsOk(ms, monitors) && RepliesOk(ms, monitors, log, replies)
    requires c.seqid in monitors && monitors[c.seqid] == c && HandledFor(ms, c, d)
    requires forall k | 0 <= k < |replies| :: replies[k].hdr.seqid != c.seqid
    requires r == InFlight(ReplyHeader(d.m, c.seqid, d.outcome), ReplyBody(d.m, d.outcome))
    ensures RepliesOk(ms, monitors, log[c.seqid := d], replies + [r])
  {
    forall k | 0 <= k < |replies| ensures ReplyOf(ms, monitors, log[c.seqid := d], replies[k]) {
      assert ReplyOf(ms, monitors, log, replies[k]);
    }
  }

  lemma {:induction false} NotYetReplied(monitors: map<int, Call>, outbound: seq<Sent>, replies: seq<InFlight>, k: nat)
    requires OneMessageEach(monitors, outbound, replies) && k < |outbound|
    ensures forall j | 0 <= j < |replies| :: replies[j].hdr.seqid != outbound[k].seqid
  {
    var ids := Ids(outbound, replies);
    forall j | 0 <= j < |replies| ensures replies[j].hdr.seqid != outbound[k].seqid {
      assert ids[k] != ids[|outbound| + j];
    }
  }

  lemma {:induction false} ServeRequests(ms: seq<Method>, monitors: map<int, Call>, outbound: seq<Sent>, k: nat)
    requires GoodService(ms) && MonitorsOk(ms, monitors) && RequestsOk(ms, monitors, outbound) && k < |outbound|
    ensures RequestsOk(ms, monitors, outbound[..k] + outbound[k + 1..])
  {
    var r := outbound[..k] + outbound[k + 1..];
    assert forall j | 0 <= j < |r| :: r[j] == outbound[if j < k then j else j + 1];
  }

  lemma {:induction false} ServeInv(ms: seq<Method>, s: State, k: nat, h: Handler, s': State)
    requires GoodService(ms) && Inv(ms, s) && Serve(ms, s, k, h, s')
    ensures Inv(ms, s')
  {
    var c, d := ServedReply(ms, s, k, h, s');
    var r := InFlight(ReplyHeader(d.m, c.seqid, d.outcome), ReplyBody(d.m, d.outcome));
    NotYetReplied(s.monitors, s.outbound, s.replies, k);
    ServeRequests(ms, s.monitors, s.outbound, k);
    ServeReplies(ms, s.monitors, s.log, s.replies, c, d, r);
    ServeIds(s.monitors, s.outbound, s.replies, k, r);
    AlignedAppend(Taken(s.threads, s.reader, s.pending), s.input, s.replies, r);
  }

  lemma {:induction false} LockThreads(threads: seq<Thread>, monitors: map<int, Call>, t: nat)
    requires ThreadsOk(threads, monitors, None) && t < |threads| && (threads[t].Waiting? || threads[t].Parked?)
    ensures ThreadsOk(threads[t := Reading(threads[t].call, None)], monitors, Some(t))
  {
    StillOwned(threads, monitors, t, Reading(threads[t].call, None));
  }

  lemma {:induction false} LockInv(ms: seq<Method>, s: State, t: nat, s': State)
    requires GoodService(ms) && Inv(ms, s) && Lock(s, t, s')
    ensures Inv(ms, s')
  {
    LockThreads(s.threads, s.monitors, t);
    assert Taken(s'.threads, s'.reader, s'.pending) == Taken(s.threads, s.reader, s.pending);
  }

  lemma {:induction false} HeaderAvailable(input: bytes, replies: seq<InFlight>)
    requires Aligned(None, input, replies) && replies != []
    ensures ReadMessageBegin(input) == Ok(replies[0].hdr, replies[0].body + Flat(replies[1..]))
  {
    var r := replies[0];
    assert input == EncMessageBegin(r.hdr) + (r.body + Flat(replies[1..]));
    ReadMessageBeginEnc(r.hdr, r.body + Flat(replies[1..]));
  }

  lemma {:induction false} NextHeader(input: bytes, replies: seq<InFlight>)
    requires Aligned(None, input, replies) && ReadMessageBegin(input).Ok?
    ensures Aligned(Some(ReadMessageBegin(input).val), ReadMessageBegin(input).rest, replies)
  {
    if replies != [] {
      HeaderAvailable(input, replies);
    }
  }

  lemma {:induction false} HeaderThreads(threads: seq<Thread>, monitors: map<int, Call>, reader: Option<nat>, t: nat,
                                         h: Option<MessageHeader>)
    requires ThreadsOk(threads, monitors, reader) && t < |threads| && threads[t].Reading?
    ensures ThreadsOk(threads[t := Reading(threads[t].call, h)], monitors, reader)
  {
    StillOwned(threads, monitors, t, Reading(threads[t].call, h));
  }

  lemma {:induction false} HeaderFinished(ms: seq<Method>, threads: seq<Thread>, t: nat, h: Option<MessageHeader>)
    requires GoodService(ms) && FinishedOk(ms, threads) && t < |threads| && threads[t].Reading?
    ensures FinishedOk(ms, threads[t := Reading(threads[t].call, h)])
  {
  }

  lemma {:induction false} TakeHeaderInv(ms: seq<Method>, s: State, t: nat, s': State)
    requires GoodService(ms) && Inv(ms, s) && TakeHeader(s, t, s')
    ensures Inv(ms, s')
  {
    HeaderThreads(s.threads, s.monitors, s.reader, t, s'.threads[t].hdr);
    HeaderFinished(ms, s.threads, t, s'.threads[t].hdr);
    assert Taken(s'.threads, s'.reader, s'.pending) == s'.threads[t].hdr;
    if s.pending.None? {
      NextHeader(s.input, s.replies);
    }
  }

  /** When the header in hand carries the reader's id, the body next in the stream is the reply to
      its own call, so reading it commits and leaves the stream at the next message. */
  lemma {:induction false} OwnReplyIsNext(ms: seq<Method>, s: State, t: nat)
    requires GoodService(ms) && Inv(ms, s)
    requires t < |s.threads| && s.reader == Some(t) && s.threads[t].Reading? && s.threads[t].hdr.Some?
    requires s.threads[t].hdr.value.seqid == s.threads[t].call.seqid
    ensures var c := s.threads[t].call;
            && s.pending.None? && s.replies != [] && s.replies[0].hdr.seqid == c.seqid
            && c.seqid in s.monitors && s.monitors[c.seqid] == c
            && GoodCall(ms, c) && c.seqid in s.log && HandledFor(ms, c, s.log[c.seqid])
            && GoodHeaders(s.replies[1..])
            && RecvBody(ms[c.mi], c.target, s.threads[t].hdr.value, s.input) ==
               Ok(Delivered(ms[c.mi], c.target, s.log[c.seqid].outcome), Flat(s.replies[1..]))
            && Commits(Delivered(ms[c.mi], c.target, s.log[c.seqid].outcome))
  {
    var c := s.threads[t].call;
    assert ReplyOf(ms, s.monitors, s.log, s.replies[0]);
    ReplyIsDelivered(ms[c.mi], c.target, c.seqid, s.log[c.seqid].outcome, Flat(s.replies[1..]));
  }

  lemma {:induction false} RemoveAt(ids: seq<int>, n: nat)
    requires n < |ids| && forall j, k | 0 <= j < k < |ids| :: ids[j] != ids[k]
    ensures var r := ids[..n] + ids[n + 1..];
            && (forall j, k | 0 <= j < k < |r| :: r[j] != r[k])
            && ids[n] !in r
            && (forall q | q in ids :: q == ids[n] || q in r)
            && (forall q | q in r :: q in ids)
  {
    assert ids == ids[..n] + [ids[n]] + ids[n + 1..];
  }

  lemma {:induction false} FinishIds(monitors: map<int, Call>, outbound: seq<Sent>, replies: seq<InFlight>)
    requires OneMessageEach(monitors, outbound, replies) && replies != []
    ensures OneMessageEach(monitors - {replies[0].hdr.seqid}, outbound, replies[1..])
  {
    var ids, n := Ids(outbound, replies), |outbound|;
    assert Ids(outbound, replies[1..]) == ids[..n] + ids[n + 1..];
    RemoveAt(ids, n);
  }

  lemma {:induction false} FinishRequests(ms: seq<Method>, monitors: map<int, Call>, outbound: seq<Sent>, q: int)
    requires GoodService(ms) && MonitorsOk(ms, monitors) && RequestsOk(ms, monitors, outbound)
    requires forall k | 0 <= k < |outbound| :: outbound[k].seqid != q
    ensures MonitorsOk(ms, monitors - {q}) && RequestsOk(ms, monitors - {q}, outbound)
  {
    forall k | 0 <= k < |outbound| ensures RequestOf(ms, monitors - {q}, outbound[k]) {
      assert RequestOf(ms, monitors, outbound[k]);
    }
  }

  lemma {:induction false} FinishReplies(ms: seq<Method>, monitors: map<int, Call>, log: map<int, Handled>,
                                         replies: seq<InFlight>, q: int)
    requires GoodService(ms) && MonitorsOk(ms, monitors) && MonitorsOk(ms, monitors - {q})
    requires RepliesOk(ms, monitors, log, replies) && forall k | 0 <= k < |replies| :: replies[k].hdr.seqid != q
    ensures RepliesOk(ms, monitors - {q}, log, replies)
  {
    forall k | 0 <= k < |replies| ensures ReplyOf(ms, monitors - {q}, log, replies[k]) {
      assert ReplyOf(ms, monitors, log, replies[k]);
    }
  }

  /** The first reply's id is in no other message. */
  lemma {:induction false} FirstReplyIsAlone(monitors: map<int, Call>, outbound: seq<Sent>, replies: seq<InFlight>)
    requires OneMessageEach(monitors, outbound, replies) && replies != []
    ensures forall k | 0 <= k < |outbound| :: outbound[k].seqid != replies[0].hdr.seqid
    ensures forall k | 0 <= k < |replies[1..]| :: replies[1..][k].hdr.seqid != replies[0].hdr.seqid
  {
    var ids, n := Ids(outbound, replies), |outbound|;
    forall k | 0 <= k < n ensures outbound[k].seqid != replies[0].hdr.seqid {
      assert ids[k] != ids[n];
    }
    forall k | 0 <= k < |replies| - 1 ensures replies[1..][k].hdr.seqid != replies[0].hdr.seqid {
      assert ids[n] != ids[n + 1 + k];
    }
  }

  lemma {:induction false} FinishThreads(threads: seq<Thread>, monitors: map<int, Call>, reader: Option<nat>, t: nat,
                                         th: Thread)
    requires ThreadsOk(threads, monitors, reader) && t < |threads| && reader == Some(t) && threads[t].Reading?
    requires th.Finished?
    ensures ThreadsOk(threads[t := th], monitors - {threads[t].call.seqid}, None)
  {
    var q := threads[t].call.seqid;
    StillOwned(threads, monitors - {q}, t, th);
    forall u | 0 <= u < |threads| && Active(threads[t := th][u])
      ensures threads[u].call.seqid in monitors - {q} && (monitors - {q})[threads[u].call.seqid] == threads[u].call
    {
      assert u != t && Active(threads[u]) && Active(threads[t]);
      assert if u < t then threads[u].call.seqid != threads[t].call.seqid
             else threads[t].call.seqid != threads[u].call.seqid;
    }
  }

  lemma {:induction false} FinishInv(ms: seq<Method>, s: State, t: nat, s': State)
    requires GoodService(ms) && Inv(ms, s) && Finish(ms, s, t, s')
    ensures Inv(ms, s')
  {
    OwnReplyIsNext(ms, s, t);
    FinishMessages(ms, s);
    FinishThreads(s.threads, s.monitors, s.reader, t, s'.threads[t]);
  }

  lemma {:induction false} FinishMessages(ms: seq<Method>, s: State)
    requires GoodService(ms) && Inv(ms, s) && s.replies != []
    ensures var monitors := s.monitors - {s.replies[0].hdr.seqid};
            && MonitorsOk(ms, monitors) && RequestsOk(ms, monitors, s.outbound)
            && RepliesOk(ms, monitors, s.log, s.replies[1..])
            && OneMessageEach(monitors, s.outbound, s.replies[1..])
  {
    FinishIds(s.monitors, s.outbound, s.replies);
    FirstReplyIsAlone(s.monitors, s.outbound, s.replies);
    FinishRequests(ms, s.monitors, s.outbound, s.replies[0].hdr.seqid);
    assert RepliesOk(ms, s.monitors, s.log, s.replies[1..]);
    FinishReplies(ms, s.monitors, s.log, s.replies[1..], s.replies[0].hdr.seqid);
  }

  lemma {:induction false} ParkThreads(threads: seq<Thread>, monitors: map<int, Call>, t: nat)
    requires ThreadsOk(threads, monitors, Some(t)) && t < |threads| && threads[t].Reading?
    ensures ThreadsOk(threads[t := Parked(threads[t].call)], monitors, None)
  {
    StillOwned(threads, monitors, t, Parked(threads[t].call));
  }

  lemma {:induction false} ParkFinished(ms: seq<Method>, threads: seq<Thread>, t: nat)
    requires GoodService(ms) && FinishedOk(ms, threads) && t < |threads| && threads[t].Reading?
    ensures FinishedOk(ms, threads[t := Parked(threads[t].call)])
  {
  }

  lemma {:induction false} PutBackInv(ms: seq<Method>, s: State, t: nat, s': State)
    requires GoodService(ms) && Inv(ms, s) && PutBack(s, t, s')
    ensures Inv(ms, s')
  {
    assert ReplyOf(ms, s.monitors, s.log, s.replies[0]);
    ParkThreads(s.threads, s.monitors, t);
    ParkFinished(ms, s.threads, t);
    assert Taken(s'.threads, s'.reader, s'.pending) == Taken(s.threads, s.reader, s.pending);
  }

  lemma {:induction false} NextInv(ms: seq<Method>, s: State, s': State)
    requires GoodService(ms) && Inv(ms, s) && Next(ms, s, s')
    ensures Inv(ms, s')
  {
    if t: nat, c :| Send(ms, s, t, c, s') {
      SendInv(ms, s, t, c, s');
    } else {
      ProceedInv(ms, s, s');
    }
  }

  lemma {:induction false} ProceedInv(ms: seq<Method>, s: State, s': State)
    requires GoodService(ms) && Inv(ms, s) && Proceed(ms, s, s')
    ensures Inv(ms, s')
  {
    if k: nat, h :| Serve(ms, s, k, h, s') {
      ServeInv(ms, s, k, h, s');
    } else if t: nat :| Lock(s, t, s') {
      LockInv(ms, s, t, s');
    } else if t: nat :| TakeHeader(s, t, s') {
      TakeHeaderInv(ms, s, t, s');
    } else if t: nat :| Finish(ms, s, t, s') {
      FinishInv(ms, s, t, s');
    } else {
      var t: nat :| PutBack(s, t, s');
      PutBackInv(ms, s, t, s');
    }
  }

  // ---------------------------------------------------------------- runs

  ghost predicate Run(ms: seq<Method>, trace: seq<State>)
    requires GoodService(ms)
  {
    && trace != [] && Init(trace[0])
    && forall i | 0 <= i < |trace| - 1 :: Next(ms, trace[i], trace[i + 1])
  }

  lemma {:induction false} RunInv(ms: seq<Method>, trace: seq<State>, i: nat)
    requires GoodService(ms) && Run(ms, trace) && i < |trace|
    ensures Inv(ms, trace[i])
  {
    if i == 0 {
      InitInv(ms, trace[0]);
    } else {
      RunInv(ms, trace, i - 1);
      NextInv(ms, trace[i - 1], trace[i]);
    }
  }

  // ---------------------------------------------------------------- where outcomes come from

  /** The thread leaves Idle or Finished for a new call. */
  predicate NewCall(s: State, s': State, t: nat) {
    && t < |s.threads| && t < |s'.threads|
    && !Active(s.threads[t]) && Active(s'.threads[t])
  }

  /** Step m of the run is the last Send of thread t before state i, and it sent call c. */
  ghost predicate SentAt(ms: seq<Method>, trace: seq<State>, m: nat, i: nat, t: nat, c: Call)
    requires GoodService(ms) && i < |trace|
  {
    && m < i && Send(ms, trace[m], t, c, trace[m + 1])
    && forall j | m < j < i :: !NewCall(trace[j], trace[j + 1], t)
  }

  /** Step n of the run is the server answering that call's own request: d is what handler h did with the
      call's own arguments. */
  ghost predicate ServedAt(ms: seq<Method>, trace: seq<State>, n: nat, k: nat, h: Handler, c: Call, d: Handled)
    requires GoodService(ms) && GoodCall(ms, c)
  {
    && n + 1 < |trace| && Serve(ms, trace[n], k, h, trace[n + 1])
    && trace[n].outbound[k] == Sent(c.seqid, SendBytes(ms, c))
    && var m, a := ms[c.mi], ArgsReceived(ms[c.mi], c.args);
       d == Handled(m, a, h(m, a))
  }

  ghost predicate ServedBetween(ms: seq<Method>, trace: seq<State>, m: nat, i: nat, c: Call, d: Handled)
    requires GoodService(ms) && GoodCall(ms, c)
  {
    exists n: nat, k: nat, h :: m < n < i && ServedAt(ms, trace, n, k, h, c, d)
  }

  ghost predicate CallSent(ms: seq<Method>, trace: seq<State>, i: nat, t: nat, c: Call)
    requires GoodService(ms) && i < |trace|
  {
    exists m: nat :: SentAt(ms, trace, m, i, t, c)
  }

  /** d is what a handler did for thread t's current call c, after t had sent it. */
  ghost predicate HandledSince(ms: seq<Method>, trace: seq<State>, i: nat, t: nat, c: Call, d: Handled)
    requires GoodService(ms) && i < |trace|
  {
    GoodCall(ms, c) && exists m: nat :: SentAt(ms, trace, m, i, t, c) && ServedBetween(ms, trace, m, i, c, d)
  }

  ghost predicate CallsSent(ms: seq<Method>, trace: seq<State>, i: nat)
    requires GoodService(ms) && i < |trace|
  {
    forall t: nat | t < |trace[i].threads| && Active(trace[i].threads[t]) ::
      CallSent(ms, trace, i, t, trace[i].threads[t].call)
  }

  /** For whoever is in the call that reply r answers */
  ghost predicate ReplyHandled(ms: seq<Method>, trace: seq<State>, i: nat, r: InFlight)
    requires GoodService(ms) && i < |trace|
  {
    forall t: nat | t < |trace[i].threads| && InCall(trace[i].threads[t], r.hdr.seqid) ::
      && r.hdr.seqid in trace[i].log
      && HandledSince(ms, trace, i, t, trace[i].threads[t].call, trace[i].log[r.hdr.seqid])
  }

  predicate InCall(th: Thread, q: int) {
    Active(th) && th.call.seqid == q
  }

  ghost predicate ThreadHandled(ms: seq<Method>, trace: seq<State>, i: nat, t: nat, th: Thread)
    requires GoodService(ms) && i < |trace| && th.Finished?
  {
    th.handled.Some? && HandledSince(ms, trace, i, t, th.call, th.handled.value)
  }

  ghost predicate RepliesHandled(ms: seq<Method>, trace: seq<State>, i: nat)
    requires GoodService(ms) && i < |trace|
  {
    forall r | r in trace[i].replies :: ReplyHandled(ms, trace, i, r)
  }

  ghost predicate ThreadsHandled(ms: seq<Method>, trace: seq<State>, i: nat)
    requires GoodService(ms) && i < |trace|
  {
    forall t: nat | t < |trace[i].threads| && trace[i].threads[t].Finished? ::
      ThreadHandled(ms, trace, i, t, trace[i].threads[t])
  }

  lemma {:induction false} StillSentAt(ms: seq<Method>, trace: seq<State>, m: nat, i: nat, t: nat, c: Call)
    requires GoodService(ms) && i + 1 < |trace| && SentAt(ms, trace, m, i, t, c)
    requires !NewCall(trace[i], trace[i + 1], t)
    ensures SentAt(ms, trace, m, i + 1, t, c)
  {
  }

  lemma {:induction false} StillSent(ms: seq<Method>, trace: seq<State>, i: nat, t: nat, c: Call)
    requires GoodService(ms) && i + 1 < |trace| && CallSent(ms, trace, i, t, c)
    requires !NewCall(trace[i], trace[i + 1], t)
    ensures CallSent(ms, trace, i + 1, t, c)
  {
    var m: nat :| SentAt(ms, trace, m, i, t, c);
    StillSentAt(ms, trace, m, i, t, c);
  }

  lemma {:induction false} StillServed(ms: seq<Method>, trace: seq<State>, m: nat, i: nat, c: Call, d: Handled)
    requires GoodService(ms) && GoodCall(ms, c) && ServedBetween(ms, trace, m, i, c, d)
    ensures ServedBetween(ms, trace, m, i + 1, c, d)
  {
    var n: nat, k: nat, h :| m < n < i && ServedAt(ms, trace, n, k, h, c, d);
    assert m < n < i + 1;
  }

  lemma {:induction false} StillHandled(ms: seq<Method>, trace: seq<State>, i: nat, t: nat, c: Call, d: Handled)
    requires GoodService(ms) && i + 1 < |trace| && HandledSince(ms, trace, i, t, c, d)
    requires !NewCall(trace[i], trace[i + 1], t)
    ensures HandledSince(ms, trace, i + 1, t, c, d)
  {
    var m: nat :| SentAt(ms, trace, m, i, t, c) && ServedBetween(ms, trace, m, i, c, d);
    StillSentAt(ms, trace, m, i, t, c);
    StillServed(ms, trace, m, i, c, d);
  }

  /** Each thread stays in its call or leaves it; only thread t may start one. */
  predicate OnlyStarts(s: State, s': State, t: int) {
    && |s'.threads| == |s.threads|
    && forall u: nat | u < |s.threads| && u != t && Active(s'.threads[u]) ::
         Active(s.threads[u]) && s'.threads[u].call == s.threads[u].call
  }

  lemma {:induction false} CallsStillSent(ms: seq<Method>, trace: seq<State>, i: nat, t: int)
    requires GoodService(ms) && i + 1 < |trace| && CallsSent(ms, trace, i) && OnlyStarts(trace[i], trace[i + 1], t)
    requires 0 <= t < |trace[i].threads| ==>
               Active(trace[i + 1].threads[t]) && CallSent(ms, trace, i + 1, t, trace[i + 1].threads[t].call)
    ensures CallsSent(ms, trace, i + 1)
  {
    var s, s' := trace[i], trace[i + 1];
    forall u: nat | u < |s'.threads| && Active(s'.threads[u])
      ensures CallSent(ms, trace, i + 1, u, s'.threads[u].call)
    {
      if u != t {
        StillSent(ms, trace, i, u, s.threads[u].call);
      }
    }
  }

  /** A reply that was in flight before, whose log entry is as it was, and whose call nobody enters */
  lemma {:induction false} ReplyStillHandled(ms: seq<Method>, trace: seq<State>, i: nat, t: int, r: InFlight)
    requires GoodService(ms) && i + 1 < |trace| && ReplyHandled(ms, trace, i, r)
    requires OnlyStarts(trace[i], trace[i + 1], t)
    requires 0 <= t < |trace[i].threads| ==> !InCall(trace[i + 1].threads[t], r.hdr.seqid)
    requires var q, s, s' := r.hdr.seqid, trace[i], trace[i + 1];
             q in s.log ==> q in s'.log && s'.log[q] == s.log[q]
    ensures ReplyHandled(ms, trace, i + 1, r)
  {
    var q, s, s' := r.hdr.seqid, trace[i], trace[i + 1];
    forall u: nat | u < |s'.threads| && InCall(s'.threads[u], q)
      ensures q in s'.log && HandledSince(ms, trace, i + 1, u, s'.threads[u].call, s'.log[q])
    {
      assert InCall(s.threads[u], q);
      StillHandled(ms, trace, i, u, s.threads[u].call, s.log[q]);
    }
  }

  /** Threads other than t that have finished stay so, or start another call. */
  lemma {:induction false} ThreadsStillHandled(ms: seq<Method>, trace: seq<State>, i: nat, t: int)
    requires GoodService(ms) && i + 1 < |trace| && ThreadsHandled(ms, trace, i)
    requires |trace[i + 1].threads| == |trace[i].threads|
    requires forall u: nat | u < |trace[i].threads| && u != t && trace[i + 1].threads[u].Finished? ::
               trace[i + 1].threads[u] == trace[i].threads[u]
    requires 0 <= t < |trace[i].threads| && trace[i + 1].threads[t].Finished? ==>
               ThreadHandled(ms, trace, i + 1, t, trace[i + 1].threads[t])
    ensures ThreadsHandled(ms, trace, i + 1)
  {
    var s' := trace[i + 1];
    forall u: nat | u < |s'.threads| && s'.threads[u].Finished?
      ensures ThreadHandled(ms, trace, i + 1, u, s'.threads[u])
    {
      if u != t {
        var th := trace[i].threads[u];
        assert ThreadHandled(ms, trace, i, u, th);
        StillHandled(ms, trace, i, u, th.call, th.handled.value);
      }
    }
  }

  /** A served request: its outcome joins the log, and no reply that was there is touched. */
  lemma {:induction false} ServeEffect(ms: seq<Method>, s: State, k: nat, h: Handler, s': State)
    returns (c: Call, d: Handled)
    requires GoodService(ms) && Inv(ms, s) && Serve(ms, s, k, h, s')
    ensures c.seqid in s.monitors && c == s.monitors[c.seqid] && GoodCall(ms, c)
    ensures s.outbound[k] == Sent(c.seqid, SendBytes(ms, c))
    ensures d == Handled(ms[c.mi], ArgsReceived(ms[c.mi], c.args), h(ms[c.mi], ArgsReceived(ms[c.mi], c.args)))
    ensures s'.log == s.log[c.seqid := d]
    ensures |s'.replies| == |s.replies| + 1 && s'.replies[..|s.replies|] == s.replies
    ensures s'.replies[|s.replies|].hdr.seqid == c.seqid
    ensures forall r | r in s.replies :: r.hdr.seqid != c.seqid
    ensures forall t: nat | t < |s.threads| && InCall(s.threads[t], c.seqid) :: s.threads[t].call == c
    ensures s'.threads == s.threads
  {
    c, d := ServedReply(ms, s, k, h, s');
    NotYetReplied(s.monitors, s.outbound, s.replies, k);
  }

  lemma {:induction false} NewReplyHandled(ms: seq<Method>, trace: seq<State>, i: nat, t: nat, k: nat, h: Handler,
                                           c: Call, d: Handled)
    requires GoodService(ms) && i + 1 < |trace| && GoodCall(ms, c) && CallSent(ms, trace, i, t, c)
    requires ServedAt(ms, trace, i, k, h, c, d) && trace[i + 1].threads == trace[i].threads
    ensures HandledSince(ms, trace, i + 1, t, c, d)
  {
    var m: nat :| SentAt(ms, trace, m, i, t, c);
    StillSentAt(ms, trace, m, i, t, c);
    assert m < i < i + 1 && ServedAt(ms, trace, i, k, h, c, d);
  }

  lemma {:induction false} ServeHandled(ms: seq<Method>, trace: seq<State>, i: nat, k: nat, h: Handler, c: Call,
                                        d: Handled)
    requires GoodService(ms) && i + 1 < |trace| && RepliesHandled(ms, trace, i) && CallsSent(ms, trace, i)
    requires GoodCall(ms, c) && ServedAt(ms, trace, i, k, h, c, d)
    requires var s, s' := trace[i], trace[i + 1];
             && s'.log == s.log[c.seqid := d] && s'.threads == s.threads
             && |s'.replies| == |s.replies| + 1 && s'.replies[..|s.replies|] == s.replies
             && s'.replies[|s.replies|].hdr.seqid == c.seqid
             && (forall r | r in s.replies :: r.hdr.seqid != c.seqid)
             && forall t: nat | t < |s.threads| && InCall(s.threads[t], c.seqid) :: s.threads[t].call == c
    ensures RepliesHandled(ms, trace, i + 1)
  {
    var s, s' := trace[i], trace[i + 1];
    forall r | r in s'.replies ensures ReplyHandled(ms, trace, i + 1, r) {
      if r in s.replies {
        ReplyStillHandled(ms, trace, i, -1, r);
      } else {
        assert s'.replies == s'.replies[..|s.replies|] + [s'.replies[|s.replies|]];
        forall t: nat | t < |s'.threads| && InCall(s'.threads[t], c.seqid)
          ensures HandledSince(ms, trace, i + 1, t, s'.threads[t].call, d)
        {
          NewReplyHandled(ms, trace, i, t, k, h, c, d);
        }
      }
    }
  }

  /** A finished call: it takes its log entry with it, and leaves the other replies alone. */
  predicate FinishEffect(ms: seq<Method>, s: State, t: nat, s': State)
    requires GoodService(ms)
  {
    && t < |s.threads| && s.threads[t].Reading? && s.replies != []
    && var c := s.threads[t].call;
    && GoodCall(ms, c) && c.seqid in s.monitors && s.monitors[c.seqid] == c && c.seqid in s.log
    && s.replies[0].hdr.seqid == c.seqid && s'.replies == s.replies[1..]
    && (forall r | r in s.replies[1..] :: r.hdr.seqid != c.seqid)
    && s'.monitors == s.monitors - {c.seqid} && s'.log == s.log && s'.reader.None?
    && |s'.threads| == |s.threads| && s'.threads[t].Finished?
    && s'.threads[t].call == c && s'.threads[t].handled == Some(s.log[c.seqid])
    && (forall u | 0 <= u < |s.threads| && u != t :: s'.threads[u] == s.threads[u])
  }

  lemma {:induction false} FinishHasEffect(ms: seq<Method>, s: State, t: nat, s': State)
    requires GoodService(ms) && Inv(ms, s) && Finish(ms, s, t, s')
    ensures FinishEffect(ms, s, t, s')
  {
    OwnReplyIsNext(ms, s, t);
    FirstReplyIsAlone(s.monitors, s.outbound, s.replies);
  }

  lemma {:induction false} FinishedThreadHandled(ms: seq<Method>, trace: seq<State>, i: nat, t: nat)
    requires GoodService(ms) && i + 1 < |trace| && RepliesHandled(ms, trace, i)
    requires FinishEffect(ms, trace[i], t, trace[i + 1])
    ensures ThreadHandled(ms, trace, i + 1, t, trace[i + 1].threads[t])
  {
    var s := trace[i];
    var c := s.threads[t].call;
    assert ReplyHandled(ms, trace, i, s.replies[0]) && InCall(s.threads[t], c.seqid);
    StillHandled(ms, trace, i, t, c, s.log[c.seqid]);
  }

  lemma {:induction false} FinishHandled(ms: seq<Method>, trace: seq<State>, i: nat, t: nat)
    requires GoodService(ms) && i + 1 < |trace| && RepliesHandled(ms, trace, i) && ThreadsHandled(ms, trace, i)
    requires CallsSent(ms, trace, i) && FinishEffect(ms, trace[i], t, trace[i + 1])
    ensures RepliesHandled(ms, trace, i + 1) && ThreadsHandled(ms, trace, i + 1) && CallsSent(ms, trace, i + 1)
  {
    var s' := trace[i + 1];
    assert OnlyStarts(trace[i], s', -1);
    forall r | r in s'.replies ensures ReplyHandled(ms, trace, i + 1, r) {
      ReplyStillHandled(ms, trace, i, -1, r);
    }
    CallsStillSent(ms, trace, i, -1);
    FinishedThreadHandled(ms, trace, i, t);
    ThreadsStillHandled(ms, trace, i, t);
  }

  /** Lock, TakeHeader and PutBack: the thread stays in its call. */
  predicate Quiet(s: State, s': State, t: nat) {
    && t < |s.threads| && s'.replies == s.replies && s'.log == s.log
    && |s'.threads| == |s.threads|
    && Active(s.threads[t]) && Active(s'.threads[t]) && s'.threads[t].call == s.threads[t].call
    && (forall u: nat | u < |s.threads| && u != t :: s'.threads[u] == s.threads[u])
  }

  lemma {:induction false} QuietHandled(ms: seq<Method>, trace: seq<State>, i: nat, t: nat)
    requires GoodService(ms) && i + 1 < |trace| && Quiet(trace[i], trace[i + 1], t)
    requires RepliesHandled(ms, trace, i) && ThreadsHandled(ms, trace, i) && CallsSent(ms, trace, i)
    ensures RepliesHandled(ms, trace, i + 1) && ThreadsHandled(ms, trace, i + 1) && CallsSent(ms, trace, i + 1)
  {
    var s' := trace[i + 1];
    assert OnlyStarts(trace[i], s', -1);
    forall r | r in s'.replies ensures ReplyHandled(ms, trace, i + 1, r) {
      ReplyStillHandled(ms, trace, i, -1, r);
    }
    CallsStillSent(ms, trace, i, -1);
    ThreadsStillHandled(ms, trace, i, t);
  }

  lemma {:induction false} SendHandled(ms: seq<Method>, trace: seq<State>, i: nat, t: nat, c: Call)
    requires GoodService(ms) && i + 1 < |trace| && Send(ms, trace[i], t, c, trace[i + 1])
    requires RepliesHandled(ms, trace, i) && ThreadsHandled(ms, trace, i) && CallsSent(ms, trace, i)
    requires forall r | r in trace[i].replies :: r.hdr.seqid != c.seqid
    ensures RepliesHandled(ms, trace, i + 1) && ThreadsHandled(ms, trace, i + 1) && CallsSent(ms, trace, i + 1)
  {
    var s' := trace[i + 1];
    assert OnlyStarts(trace[i], s', t);
    assert SentAt(ms, trace, i, i + 1, t, c);
    forall r | r in s'.replies ensures ReplyHandled(ms, trace, i + 1, r) {
      ReplyStillHandled(ms, trace, i, t, r);
    }
    CallsStillSent(ms, trace, i, t);
    ThreadsStillHandled(ms, trace, i, t);
  }

  lemma {:induction false} FreshId(ms: seq<Method>, s: State, q: int)
    requires GoodService(ms) && Inv(ms, s) && q !in s.monitors
    ensures forall r | r in s.replies :: r.hdr.seqid != q
  {
    forall r | r in s.replies ensures r.hdr.seqid != q {
      assert ReplyOf(ms, s.monitors, s.log, r);
    }
  }

  lemma {:induction false} ReaderIsQuiet(s: State, t: nat, s': State)
    requires Lock(s, t, s') || TakeHeader(s, t, s') || PutBack(s, t, s')
    ensures Quiet(s, s', t)
  {
  }

  lemma {:induction false} StepHandled(ms: seq<Method>, trace: seq<State>, i: nat)
    requires GoodService(ms) && i + 1 < |trace| && Inv(ms, trace[i]) && Next(ms, trace[i], trace[i + 1])
    requires RepliesHandled(ms, trace, i) && ThreadsHandled(ms, trace, i) && CallsSent(ms, trace, i)
    ensures RepliesHandled(ms, trace, i + 1) && ThreadsHandled(ms, trace, i + 1) && CallsSent(ms, trace, i + 1)
  {
    var s, s' := trace[i], trace[i + 1];
    if k: nat, h :| Serve(ms, s, k, h, s') {
      var c, d := ServeEffect(ms, s, k, h, s');
      ServeHandled(ms, trace, i, k, h, c, d);
      CallsStillSent(ms, trace, i, -1);
      ThreadsStillHandled(ms, trace, i, -1);
    } else if t: nat :| Finish(ms, s, t, s') {
      FinishHasEffect(ms, s, t, s');
      FinishHandled(ms, trace, i, t);
    } else if t: nat, c :| Send(ms, s, t, c, s') {
      FreshId(ms, s, c.seqid);
      SendHandled(ms, trace, i, t, c);
    } else {
      var t: nat :| Lock(s, t, s') || TakeHeader(s, t, s') || PutBack(s, t, s');
      ReaderIsQuiet(s, t, s');
      QuietHandled(ms, trace, i, t);
    }
  }

  lemma {:induction false} NextHandled(ms: seq<Method>, trace: seq<State>, i: nat)
    requires GoodService(ms) && Run(ms, trace) && i + 1 < |trace|
    requires RepliesHandled(ms, trace, i) && ThreadsHandled(ms, trace, i) && CallsSent(ms, trace, i)
    ensures RepliesHandled(ms, trace, i + 1) && ThreadsHandled(ms, trace, i + 1) && CallsSent(ms, trace, i + 1)
  {
    RunInv(ms, trace, i);
    StepHandled(ms, trace, i);
  }

  lemma {:induction false} OutcomesAreHandled(ms: seq<Method>, trace: seq<State>, i: nat)
    requires GoodService(ms) && Run(ms, trace) && i < |trace|
    ensures RepliesHandled(ms, trace, i) && ThreadsHandled(ms, trace, i) && CallsSent(ms, trace, i)
  {
    if i > 0 {
      OutcomesAreHandled(ms, trace, i - 1);
      NextHandled(ms, trace, i - 1);
    }
  }

  /** In every run, with any number of threads and any order of replies: a call that has completed
      got exactly the outcome that a handler produced for that call's own arguments, at a step of the run
      after the thread had sent this very call. The arguments are equal to the handler's iff no flag that
      starts true was cleared by hand, and a returned value is equal to the handler's iff the caller's
      `_return` object was Fresh for it. */
  lemma {:induction false} EveryCallGetsItsOwnOutcome(ms: seq<Method>, trace: seq<State>, i: nat, t: nat)
    requires GoodService(ms) && Run(ms, trace) && i < |trace|
    requires t < |trace[i].threads| && trace[i].threads[t].Finished?
    ensures var th := trace[i].threads[t];
            && FinishedThread(ms, th)
            && HandledSince(ms, trace, i, t, th.call, th.handled.value)
            && EqualExactly(ms[th.call.mi], th.call, th.handled.value, th.result)
  {
    RunInv(ms, trace, i);
    OutcomesAreHandled(ms, trace, i);
    OwnOutcome(ms, trace[i].threads[t]);
    assert ThreadHandled(ms, trace, i, t, trace[i].threads[t]);
  }

  predicate EqualExactly(m: Method, c: Call, d: Handled, result: Result)
    requires GoodMethod(m) && Typed(m.args, c.args) && GoodTarget(m, c.target)
    requires Typed(m.args, d.args) && GoodOutcome(m, d.outcome)
  {
    && (Same(m.args, c.args, d.args) <==> Fresh(m.args, Default(m.args), c.args))
    && (SameOutcome(m, d.outcome, result) <==>
        (d.outcome.Returned? && d.outcome.v.Some? ==> Fresh(m.ret.value, c.target.value, d.outcome.v.value)))
  }

  lemma {:induction false} OwnOutcome(ms: seq<Method>, th: Thread)
    requires GoodService(ms) && th.Finished? && FinishedThread(ms, th)
    ensures EqualExactly(ms[th.call.mi], th.call, th.handled.value, th.result)
  {
    ArgumentsArrive(ms[th.call.mi], th.call.args);
    SameOutcomeExactly(ms[th.call.mi], th.call.target, th.handled.value.outcome);
  }

  /** In every run the connection never dies, and whenever nobody holds the read mutex the stream is
      at a message boundary, or the pending slot holds the header of the message whose body is next
      and a call in progress is waiting for it. A reader with a header in hand finds the slot empty. */
  lemma {:induction false} StreamStaysAligned(ms: seq<Method>, trace: seq<State>, i: nat)
    requires GoodService(ms) && Run(ms, trace) && i < |trace|
    ensures var s := trace[i];
            && !s.dead
            && GoodHeaders(s.replies)
            && (s.reader.None? && s.pending.None? ==> s.input == Flat(s.replies))
            && (s.reader.None? && s.pending.Some? ==>
                  && s.replies != [] && s.pending == Some(s.replies[0].hdr)
                  && s.input == s.replies[0].body + Flat(s.replies[1..])
                  && s.pending.value.seqid in s.monitors)
            && (s.reader.Some? ==>
                  && s.reader.value < |s.threads| && s.threads[s.reader.value].Reading?
                  && (s.threads[s.reader.value].hdr.Some? ==> s.pending.None?))
  {
    RunInv(ms, trace, i);
    var s := trace[i];
    if s.replies != [] {
      assert ReplyOf(ms, s.monitors, s.log, s.replies[0]);
    }
  }

  /** In every step of every run: a header in the pending slot is not overwritten; a reply leaves the
      stream only when a thread completes, it is the first one, and it is that thread's own, read
      to its last byte. So every body is consumed once, and by its owner. */
  lemma {:induction false} BodiesGoToTheirOwners(ms: seq<Method>, trace: seq<State>, i: nat)
    requires GoodService(ms) && Run(ms, trace) && i + 1 < |trace|
    ensures Orderly(trace[i], trace[i + 1])
  {
    var s, s' := trace[i], trace[i + 1];
    RunInv(ms, trace, i);
    if t: nat :| Finish(ms, s, t, s') {
      FinishOrderly(ms, s, t, s');
    } else if t: nat :| PutBack(s, t, s') {
      PutBackOrderly(ms, s, t, s');
    } else {
      OthersOrderly(ms, s, s');
    }
  }

  ghost predicate Orderly(s: State, s': State) {
    && (s.pending.Some? && s'.pending.Some? ==> s'.pending == s.pending)
    && (s.replies <= s'.replies || exists t: nat :: OwnBodyConsumed(s, t, s'))
  }

  lemma {:induction false} OthersOrderly(ms: seq<Method>, s: State, s': State)
    requires GoodService(ms) && Next(ms, s, s')
    requires (forall t: nat :: !Finish(ms, s, t, s')) && (forall t: nat :: !PutBack(s, t, s'))
    ensures Orderly(s, s')
  {
    if t: nat, c :| Send(ms, s, t, c, s') {
      assert s'.replies == s.replies;
    } else if k: nat, h :| Serve(ms, s, k, h, s') {
      assert s.replies <= s'.replies;
    } else if t: nat :| Lock(s, t, s') {
      assert s'.replies == s.replies;
    } else {
      var t: nat :| TakeHeader(s, t, s');
      assert s'.replies == s.replies;
    }
  }

  lemma {:induction false} FinishOrderly(ms: seq<Method>, s: State, t: nat, s': State)
    requires GoodService(ms) && Inv(ms, s) && Finish(ms, s, t, s')
    ensures Orderly(s, s')
  {
    OwnReplyIsNext(ms, s, t);
    assert OwnBodyConsumed(s, t, s');
  }

  lemma {:induction false} PutBackOrderly(ms: seq<Method>, s: State, t: nat, s': State)
    requires GoodService(ms) && Inv(ms, s) && PutBack(s, t, s')
    ensures Orderly(s, s')
  {
  }

  predicate OwnBodyConsumed(s: State, t: nat, s': State) {
    && t < |s.threads| == |s'.threads|
    && s.threads[t].Reading? && s'.threads[t].Finished? && s'.threads[t].call == s.threads[t].call
    && s.replies != [] && s.replies[0].hdr.seqid == s.threads[t].call.seqid
    && s'.replies == s.replies[1..] && s.input == s.replies[0].body + s'.input
  }

  /** Nobody is stuck, whatever handlers the server has: while a call is in progress, some step other than
      starting a new call is possible. */
  lemma {:induction false} NoDeadlock(ms: seq<Method>, s: State, q: int, h: Handler)
    requires GoodService(ms) && Inv(ms, s) && q in s.monitors && GoodHandler(h)
    ensures exists s' :: Proceed(ms, s, s')
  {
    if s.reader.None? {
      var t := SomeoneMayLock(ms, s, q);
      var s' := LockStep(ms, s, t);
    } else {
      var t := s.reader.value;
      assert s.threads[t].Reading?;
      if s.threads[t].hdr.Some? {
        var s' := HeaderIsUsed(ms, s, t);
      } else if s.replies != [] {
        var s' := HeaderIsTaken(ms, s, t);
        assert Proceed(ms, s, s');
      } else {
        assert q in Ids(s.outbound, s.replies);
        ServerTakes(ms, s.monitors, s.outbound[0], h);
        var s' := ServeIsPossible(ms, s, 0, h);
      }
    }
  }

  /** The thread in the call that the first reply answers */
  lemma {:induction false} OwnerOfFirst(ms: seq<Method>, s: State) returns (t: nat)
    requires GoodService(ms) && Inv(ms, s) && s.replies != []
    ensures t < |s.threads| && InCall(s.threads[t], s.replies[0].hdr.seqid)
  {
    var q := s.replies[0].hdr.seqid;
    assert ReplyOf(ms, s.monitors, s.log, s.replies[0]);
    assert Owned(s.threads, q);
    t :| t < |s.threads| && Active(s.threads[t]) && s.threads[t].call.seqid == q;
  }

  lemma {:induction false} SomeoneMayLock(ms: seq<Method>, s: State, q: int) returns (t: nat)
    requires GoodService(ms) && Inv(ms, s) && q in s.monitors && s.reader.None?
    ensures MayLock(s, t)
  {
    if s.pending.Some? {
      t := OwnerOfFirst(ms, s);
    } else if s.wakeup {
      assert Owned(s.threads, q);
      t :| t < |s.threads| && Active(s.threads[t]) && s.threads[t].call.seqid == q;
    } else {
      assert SomeoneWaits(s.threads);
      t :| t < |s.threads| && s.threads[t].Waiting?;
    }
  }

  lemma {:induction false} LockStep(ms: seq<Method>, s: State, t: nat) returns (s': State)
    requires GoodService(ms) && Inv(ms, s) && MayLock(s, t)
    ensures Lock(s, t, s') && Proceed(ms, s, s') && Inv(ms, s')
  {
    s' := s.(threads := s.threads[t := Reading(s.threads[t].call, None)], reader := Some(t));
    assert Lock(s, t, s');
    LockInv(ms, s, t, s');
  }

  lemma {:induction false} HeaderIsUsed(ms: seq<Method>, s: State, t: nat) returns (s': State)
    requires GoodService(ms) && Inv(ms, s)
    requires t < |s.threads| && s.reader == Some(t) && s.threads[t].Reading? && s.threads[t].hdr.Some?
    ensures Proceed(ms, s, s')
  {
    if s.threads[t].hdr.value.seqid == s.threads[t].call.seqid {
      s' := OwnReplyIsRead(ms, s, t);
    } else {
      s' := ForeignHeaderIsPutBack(ms, s, t);
    }
  }

  lemma {:induction false} ServerTakes(ms: seq<Method>, monitors: map<int, Call>, r: Sent, h: Handler)
    requires GoodService(ms) && MonitorsOk(ms, monitors) && RequestOf(ms, monitors, r) && GoodHandler(h)
    ensures var p := Process(ms, h, r.raw);
            p.Ok? && p.rest == [] && p.val.call.Some? && ReadMessageBegin(p.val.reply).Ok?
  {
    var c := monitors[r.seqid];
    var m := ms[c.mi];
    ServerAnswersCall(ms, c.mi, c.seqid, c.args, h, []);
    assert RequestBytes(ms, CallRequest(m, c.seqid, c.args)) == r.raw == r.raw + [];
    var o := h(m, ArgsReceived(m, c.args));
    ReadMessageBeginEnc(ReplyHeader(m, c.seqid, o), ReplyBody(m, o));
  }

  lemma {:induction false} ServeIsPossible(ms: seq<Method>, s: State, k: nat, h: Handler) returns (s': State)
    requires GoodService(ms) && GoodHandler(h) && k < |s.outbound|
    requires var p := Process(ms, h, s.outbound[k].raw);
             p.Ok? && p.rest == [] && p.val.call.Some? && ReadMessageBegin(p.val.reply).Ok?
    ensures Serve(ms, s, k, h, s') && Proceed(ms, s, s')
  {
    var p := Process(ms, h, s.outbound[k].raw);
    var r := ReadMessageBegin(p.val.reply);
    s' := s.(outbound := s.outbound[..k] + s.outbound[k + 1..],
             input := s.input + p.val.reply,
             replies := s.replies + [InFlight(r.val, r.rest)],
             log := s.log[s.outbound[k].seqid := p.val.call.value]);
    assert Serve(ms, s, k, h, s');
  }

  // ---------------------------------------------------------------- every call can complete

  ghost predicate Steps(ms: seq<Method>, run: seq<State>)
    requires GoodService(ms)
  {
    run != [] && forall i | 0 <= i < |run| - 1 :: Proceed(ms, run[i], run[i + 1])
  }

  /** A run from one state to another without new calls */
  ghost predicate Leads(ms: seq<Method>, s: State, run: seq<State>, s': State)
    requires GoodService(ms)
  {
    Steps(ms, run) && run[0] == s && run[|run| - 1] == s'
  }

  lemma {:induction false} OneStep(ms: seq<Method>, s: State, s': State)
    requires GoodService(ms) && Proceed(ms, s, s')
    ensures Leads(ms, s, [s, s'], s')
  {
  }

  lemma {:induction false} Chain(ms: seq<Method>, s: State, a: seq<State>, m: State, b: seq<State>, s': State)
    requires GoodService(ms) && Leads(ms, s, a, m) && Leads(ms, m, b, s')
    ensures Leads(ms, s, a + b[1..], s')
  {
    var run := a + b[1..];
    forall i | 0 <= i < |run| - 1 ensures Proceed(ms, run[i], run[i + 1]) {
      if i < |a| - 1 {
        assert run[i] == a[i] && run[i + 1] == a[i + 1];
      } else {
        assert run[i] == b[i - |a| + 1] && run[i + 1] == b[i - |a| + 2];
      }
    }
  }

  predicate Completed(s: State, c: Call) {
    exists t :: 0 <= t < |s.threads| && s.threads[t].Finished? && s.threads[t].call == c
  }

  /** The reply to that call is in the stream, or its body is. */
  predicate Replied(s: State, c: Call) {
    && c.seqid in s.monitors && s.monitors[c.seqid] == c
    && exists k :: 0 <= k < |s.replies| && s.replies[k].hdr.seqid == c.seqid
  }

  lemma {:induction false} FindRequest(s: State, q: int) returns (n: nat)
    requires OneMessageEach(s.monitors, s.outbound, s.replies) && q in s.monitors && !Replied(s, s.monitors[q])
    requires s.monitors[q].seqid == q
    ensures n < |s.outbound| && s.outbound[n].seqid == q
  {
    var ids := Ids(s.outbound, s.replies);
    assert q in ids;
    n :| n < |ids| && ids[n] == q;
    assert forall k | 0 <= k < |s.replies| ::
        s.replies[k].hdr.seqid != q && ids[|s.outbound| + k] == s.replies[k].hdr.seqid;
  }

  lemma {:induction false} RequestIsServed(ms: seq<Method>, s: State, q: int, h: Handler) returns (n: nat, s': State)
    requires GoodService(ms) && Inv(ms, s) && q in s.monitors && !Replied(s, s.monitors[q]) && GoodHandler(h)
    ensures Serve(ms, s, n, h, s') && Proceed(ms, s, s') && Inv(ms, s') && Replied(s', s.monitors[q])
  {
    n := FindRequest(s, q);
    ServerTakes(ms, s.monitors, s.outbound[n], h);
    s' := ServeIsPossible(ms, s, n, h);
    ServeInv(ms, s, n, h, s');
    var c, d := ServeEffect(ms, s, n, h, s');
  }

  lemma {:induction false} HeaderIsTaken(ms: seq<Method>, s: State, t: nat) returns (s': State)
    requires GoodService(ms) && Inv(ms, s) && s.replies != []
    requires t < |s.threads| && s.reader == Some(t) && s.threads[t].Reading? && s.threads[t].hdr.None?
    ensures TakeHeader(s, t, s') && Inv(ms, s')
  {
    if s.pending.Some? {
      s' := s.(threads := s.threads[t := Reading(s.threads[t].call, s.pending)], pending := None, wakeup := false);
    } else {
      HeaderAvailable(s.input, s.replies);
      var p := ReadMessageBegin(s.input);
      s' := s.(threads := s.threads[t := Reading(s.threads[t].call, Some(p.val))], input := p.rest, wakeup := false);
    }
    TakeHeaderInv(ms, s, t, s');
  }

  lemma {:induction false} OwnReplyIsRead(ms: seq<Method>, s: State, t: nat) returns (s': State)
    requires GoodService(ms) && Inv(ms, s)
    requires t < |s.threads| && s.reader == Some(t) && s.threads[t].Reading? && s.threads[t].hdr.Some?
    requires s.threads[t].hdr.value.seqid == s.threads[t].call.seqid
    ensures Finish(ms, s, t, s') && Inv(ms, s') && FinishEffect(ms, s, t, s')
  {
    OwnReplyIsNext(ms, s, t);
    var c := s.threads[t].call;
    var r := RecvBody(ms[c.mi], c.target, s.threads[t].hdr.value, s.input);
    s' := s.(threads := s.threads[t := Finished(c, r.val, Some(s.log[c.seqid]))],
             monitors := s.monitors - {c.seqid}, reader := None, wakeup := true,
             input := r.rest, replies := s.replies[1..]);
    assert Finish(ms, s, t, s');
    FinishInv(ms, s, t, s');
    FinishHasEffect(ms, s, t, s');
  }

  lemma {:induction false} ForeignHeaderIsPutBack(ms: seq<Method>, s: State, t: nat) returns (s': State)
    requires GoodService(ms) && Inv(ms, s)
    requires t < |s.threads| && s.reader == Some(t) && s.threads[t].Reading? && s.threads[t].hdr.Some?
    requires s.threads[t].hdr.value.seqid != s.threads[t].call.seqid
    ensures PutBack(s, t, s') && Inv(ms, s')
    ensures s'.replies == s.replies && s'.monitors == s.monitors && s'.reader.None? && s'.pending == s.threads[t].hdr
  {
    assert ReplyOf(ms, s.monitors, s.log, s.replies[0]);
    s' := s.(threads := s.threads[t := Parked(s.threads[t].call)], pending := s.threads[t].hdr, reader := None);
    PutBackInv(ms, s, t, s');
  }

  /** What a reader's turn comes to for a call whose reply is in the stream */
  predicate Nearer(s: State, s': State, c: Call) {
    Completed(s', c) || (Replied(s', c) && s'.reader.None? && |s'.replies| <= |s.replies|)
  }

  lemma {:induction false} FinishIsNearer(ms: seq<Method>, s: State, t: nat, s': State, c: Call)
    requires GoodService(ms) && Replied(s, c) && FinishEffect(ms, s, t, s')
    ensures Nearer(s, s', c) && (Completed(s', c) || |s'.replies| < |s.replies|)
  {
    if s.threads[t].call.seqid == c.seqid {
      assert s'.threads[t].call == c;
    } else {
      var k :| 0 <= k < |s.replies| && s.replies[k].hdr.seqid == c.seqid;
      assert s'.replies[k - 1] == s.replies[k];
    }
  }

  lemma {:induction false} HeaderIsDealtWith(ms: seq<Method>, s: State, t: nat, c: Call) returns (s': State)
    requires GoodService(ms) && Inv(ms, s) && Replied(s, c)
    requires t < |s.threads| && s.reader == Some(t) && s.threads[t].Reading? && s.threads[t].hdr.Some?
    ensures Proceed(ms, s, s') && Inv(ms, s') && Nearer(s, s', c)
    ensures if s.threads[t].hdr.value.seqid == s.threads[t].call.seqid
            then Completed(s', c) || |s'.replies| < |s.replies|
            else s'.pending == s.threads[t].hdr && s'.replies == s.replies
  {
    if s.threads[t].hdr.value.seqid == s.threads[t].call.seqid {
      s' := OwnReplyIsRead(ms, s, t);
      FinishIsNearer(ms, s, t, s', c);
    } else {
      s' := ForeignHeaderIsPutBack(ms, s, t);
    }
  }

  /** A reader without a header takes the next one and deals with it. */
  lemma {:induction false} ReaderTakesTurn(ms: seq<Method>, s: State, t: nat, c: Call)
    returns (run: seq<State>, s': State)
    requires GoodService(ms) && Inv(ms, s) && Replied(s, c)
    requires t < |s.threads| && s.reader == Some(t) && s.threads[t].Reading? && s.threads[t].hdr.None?
    ensures Leads(ms, s, run, s') && Inv(ms, s') && Nearer(s, s', c)
    ensures if s.replies[0].hdr.seqid == s.threads[t].call.seqid then Completed(s', c) || |s'.replies| < |s.replies|
            else s'.pending == Some(s.replies[0].hdr) && s'.replies == s.replies
  {
    var s1 := HeaderIsTaken(ms, s, t);
    TakenIsFirst(ms, s1, t);
    s' := HeaderIsDealtWith(ms, s1, t, c);
    run := TwoSteps(ms, s, s1, s');
  }

  lemma {:induction false} TwoSteps(ms: seq<Method>, s: State, s1: State, s2: State) returns (run: seq<State>)
    requires GoodService(ms) && Proceed(ms, s, s1) && Proceed(ms, s1, s2)
    ensures Leads(ms, s, run, s2)
  {
    OneStep(ms, s, s1);
    OneStep(ms, s1, s2);
    Chain(ms, s, [s, s1], s1, [s1, s2], s2);
    run := [s, s1] + [s1, s2][1..];
  }

  /** The reader, if there is one, can be made to give up the read mutex. */
  lemma {:induction false} ReaderGivesUp(ms: seq<Method>, s: State, c: Call) returns (run: seq<State>, s': State)
    requires GoodService(ms) && Inv(ms, s) && Replied(s, c)
    ensures Leads(ms, s, run, s') && Inv(ms, s') && Nearer(s, s', c)
  {
    if s.reader.None? {
      run, s' := [s], s;
    } else if s.threads[s.reader.value].hdr.Some? {
      s' := HeaderIsDealtWith(ms, s, s.reader.value, c);
      OneStep(ms, s, s');
      run := [s, s'];
    } else {
      run, s' := ReaderTakesTurn(ms, s, s.reader.value, c);
    }
  }

  /** A thread that may lock does, takes the next header and deals with it. */
  lemma {:induction false} ThreadTakesTurn(ms: seq<Method>, s: State, t: nat, c: Call)
    returns (run: seq<State>, s': State)
    requires GoodService(ms) && Inv(ms, s) && Replied(s, c) && MayLock(s, t)
    ensures Leads(ms, s, run, s') && Inv(ms, s') && Nearer(s, s', c)
    ensures if s.replies[0].hdr.seqid == s.threads[t].call.seqid then Completed(s', c) || |s'.replies| < |s.replies|
            else s'.pending == Some(s.replies[0].hdr) && s'.replies == s.replies
  {
    var s1 := LockStep(ms, s, t);
    OneStep(ms, s, s1);
    run, s' := ReaderTakesTurn(ms, s1, t, c);
    Chain(ms, s, [s, s1], s1, run, s');
    run := [s, s1] + run[1..];
  }

  /** Once its header is pending, the owner of the first reply may lock and read it. */
  lemma {:induction false} OwnerTakesTurn(ms: seq<Method>, s: State, c: Call) returns (run: seq<State>, s': State)
    requires GoodService(ms) && Inv(ms, s) && Replied(s, c) && s.reader.None?
    requires s.pending == Some(s.replies[0].hdr)
    ensures Leads(ms, s, run, s') && Inv(ms, s') && Nearer(s, s', c)
    ensures Completed(s', c) || |s'.replies| < |s.replies|
  {
    var t := OwnerOfFirst(ms, s);
    run, s' := ThreadTakesTurn(ms, s, t, c);
  }

  /** Whoever may lock first, the first reply can be read: by its owner at once, or after another thread
      has put its header into the slot. */
  lemma {:induction false} FirstReplyIsRead(ms: seq<Method>, s: State, c: Call) returns (run: seq<State>, s': State)
    requires GoodService(ms) && Inv(ms, s) && Replied(s, c) && s.reader.None?
    ensures Leads(ms, s, run, s') && Inv(ms, s') && Nearer(s, s', c)
    ensures Completed(s', c) || |s'.replies| < |s.replies|
  {
    var t := SomeoneMayLock(ms, s, c.seqid);
    run, s' := ThreadTakesTurn(ms, s, t, c);
    if !Completed(s', c) && |s'.replies| == |s.replies| {
      var run1, s1 := OwnerTakesTurn(ms, s', c);
      Chain(ms, s, run, s', run1, s1);
      run, s' := run + run1[1..], s1;
    }
  }

  lemma {:induction false} TakenIsFirst(ms: seq<Method>, s: State, t: nat)
    requires GoodService(ms) && Inv(ms, s)
    requires t < |s.threads| && s.reader == Some(t) && s.threads[t].Reading? && s.threads[t].hdr.Some?
    ensures s.replies != [] && s.replies[0].hdr == s.threads[t].hdr.value
  {
  }

  lemma {:induction false} RepliedCallCompletes(ms: seq<Method>, s: State, c: Call) returns (run: seq<State>, s': State)
    requires GoodService(ms) && Inv(ms, s) && Replied(s, c)
    ensures Leads(ms, s, run, s') && Inv(ms, s') && Completed(s', c)
    decreases |s.replies|
  {
    run, s' := ReaderGivesUp(ms, s, c);
    if !Completed(s', c) {
      var run1, s1 := FirstReplyIsRead(ms, s', c);
      Chain(ms, s, run, s', run1, s1);
      run, s' := run + run1[1..], s1;
      if !Completed(s', c) {
        var run2, s2 := RepliedCallCompletes(ms, s', c);
        Chain(ms, s, run, s', run2, s2);
        run, s' := run + run2[1..], s2;
      }
    }
  }

  lemma {:induction false} CallCompletes(ms: seq<Method>, s: State, q: int, h: Handler)
    returns (run: seq<State>, s': State)
    requires GoodService(ms) && Inv(ms, s) && q in s.monitors && GoodHandler(h)
    ensures Leads(ms, s, run, s') && Completed(s', s.monitors[q])
    ensures !Replied(s, s.monitors[q]) ==> AnsweredFirst(ms, run, h)
  {
    var c := s.monitors[q];
    if Replied(s, c) {
      run, s' := RepliedCallCompletes(ms, s, c);
    } else {
      var n, s1 := RequestIsServed(ms, s, q, h);
      run, s' := RepliedCallCompletes(ms, s1, c);
      run := AnsweredThen(ms, s, n, h, s1, run, s');
    }
  }

  /** The run starts with an answer by handler h. */
  ghost predicate AnsweredFirst(ms: seq<Method>, run: seq<State>, h: Handler)
    requires GoodService(ms)
  {
    |run| > 1 && exists n: nat :: Serve(ms, run[0], n, h, run[1])
  }

  lemma {:induction false} AnsweredThen(ms: seq<Method>, s: State, n: nat, h: Handler, s1: State, run1: seq<State>,
                                        s': State)
    returns (run: seq<State>)
    requires GoodService(ms) && Serve(ms, s, n, h, s1) && Proceed(ms, s, s1) && Leads(ms, s1, run1, s')
    ensures Leads(ms, s, run, s') && AnsweredFirst(ms, run, h)
  {
    OneStep(ms, s, s1);
    Chain(ms, s, [s, s1], s1, run1, s');
    run := [s, s1] + run1[1..];
    assert run[0] == s && run[1] == s1;
  }

  /** From every state of every run, for every call in progress and whatever handler the server has:
      finitely many steps of the server and the clients' threads, without any new call, complete it. A
      request that has not been answered is answered by that handler. No call is ever lost for good. */
  lemma {:induction false} EveryCallCanComplete(ms: seq<Method>, trace: seq<State>, i: nat, q: int, h: Handler)
    returns (run: seq<State>, s': State)
    requires GoodService(ms) && Run(ms, trace) && i < |trace| && q in trace[i].monitors && GoodHandler(h)
    ensures Leads(ms, trace[i], run, s') && Completed(s', trace[i].monitors[q])
    ensures !Replied(trace[i], trace[i].monitors[q]) ==> AnsweredFirst(ms, run, h)
  {
    RunInv(ms, trace, i);
    run, s' := CallCompletes(ms, trace[i], q, h);
  }

  // ---------------------------------------------------------------- what the steps do not forbid

  /** In every state of every run, every thread without a call can start any call under any free sequence
      id, however many calls are in progress. What it sends is the call message: type CALL, which is 1. */
  lemma {:induction false} IdleThreadCanSend(ms: seq<Method>, trace: seq<State>, i: nat, t: nat, c: Call)
    returns (s': State)
    requires GoodService(ms) && Run(ms, trace) && i < |trace| && t < |trace[i].threads|
    requires trace[i].threads[t].Idle? || trace[i].threads[t].Finished?
    requires c.mi < |ms| && GoodMethod(ms[c.mi]) && -0x8000_0000 <= c.seqid < 0x8000_0000
    requires Typed(ms[c.mi].args, c.args) && c.target.Some? == ms[c.mi].ret.Some?
    requires c.target.Some? ==> Typed(ms[c.mi].ret.value, c.target.value)
    requires c.seqid !in trace[i].monitors
    ensures Next(ms, trace[i], s') && s'.threads == trace[i].threads[t := Waiting(c)]
    ensures MessageHeader(ms[c.mi].name, 1, c.seqid).Valid()
    ensures s'.outbound == trace[i].outbound +
              [Sent(c.seqid, EncMessageBegin(MessageHeader(ms[c.mi].name, 1, c.seqid)) + Write(ms[c.mi].args, c.args))]
    ensures s'.input == trace[i].input && s'.replies == trace[i].replies
  {
    var s := trace[i];
    assert InRange(4, c.seqid) by {
      IntBytes(c.seqid);
    }
    s' := SendStep(ms, s, t, c);
  }

  lemma {:induction false} SendStep(ms: seq<Method>, s: State, t: nat, c: Call) returns (s': State)
    requires GoodService(ms) && t < |s.threads| && (s.threads[t].Idle? || s.threads[t].Finished?)
    requires GoodCall(ms, c) && c.seqid !in s.monitors
    ensures Send(ms, s, t, c, s') && Next(ms, s, s')
    ensures s' == s.(threads := s.threads[t := Waiting(c)],
                     monitors := s.monitors[c.seqid := c],
                     outbound := s.outbound + [Sent(c.seqid, SendBytes(ms, c))])
  {
    s' := s.(threads := s.threads[t := Waiting(c)],
             monitors := s.monitors[c.seqid := c],
             outbound := s.outbound + [Sent(c.seqid, SendBytes(ms, c))]);
    assert Send(ms, s, t, c, s');
  }

  /** And the server can answer the requests in any order, with any handler. */
  lemma {:induction false} AnyRequestCanBeServed(ms: seq<Method>, trace: seq<State>, i: nat, k: nat, h: Handler)
    returns (s': State)
    requires GoodService(ms) && Run(ms, trace) && i < |trace| && k < |trace[i].outbound| && GoodHandler(h)
    ensures Next(ms, trace[i], s') && s'.threads == trace[i].threads
    ensures s'.outbound == trace[i].outbound[..k] + trace[i].outbound[k + 1..]
    ensures |s'.replies| == |trace[i].replies| + 1 && s'.replies[..|trace[i].replies|] == trace[i].replies
    ensures s'.replies[|trace[i].replies|].hdr.seqid == trace[i].outbound[k].seqid
  {
    RunInv(ms, trace, i);
    s' := RequestStep(ms, trace[i], k, h);
  }

  lemma {:induction false} RequestStep(ms: seq<Method>, s: State, k: nat, h: Handler) returns (s': State)
    requires GoodService(ms) && Inv(ms, s) && k < |s.outbound| && GoodHandler(h)
    ensures Proceed(ms, s, s') && Next(ms, s, s') && Inv(ms, s') && s'.threads == s.threads && s'.reader == s.reader
    ensures s'.monitors == s.monitors && s'.pending == s.pending && s'.dead == s.dead
    ensures s'.outbound == s.outbound[..k] + s.outbound[k + 1..]
    ensures |s'.replies| == |s.replies| + 1 && s'.replies[..|s.replies|] == s.replies
    ensures s'.replies[|s.replies|].hdr.seqid == s.outbound[k].seqid
  {
    assert RequestOf(ms, s.monitors, s.outbound[k]);
    ServerTakes(ms, s.monitors, s.outbound[k], h);
    s' := ServeIsPossible(ms, s, k, h);
    ServeInv(ms, s, k, h, s');
    var c, d := ServeEffect(ms, s, k, h, s');
  }

  /** A call in progress stays so until it completes, and a completed one stays that until its thread
      starts another. */
  predicate InProgress(s: State, c: Call) {
    c.seqid in s.monitors && s.monitors[c.seqid] == c
  }

  lemma {:induction false} ProceedKeeps(ms: seq<Method>, s: State, s': State, c: Call)
    requires GoodService(ms) && Inv(ms, s) && Proceed(ms, s, s')
    ensures InProgress(s, c) ==> InProgress(s', c) || Completed(s', c)
    ensures Completed(s, c) ==> Completed(s', c)
  {
    if k: nat, h :| Serve(ms, s, k, h, s') {
      assert s'.threads == s.threads && s'.monitors == s.monitors;
    } else if t: nat :| Finish(ms, s, t, s') {
      FinishHasEffect(ms, s, t, s');
      FinishKeeps(ms, s, t, s', c);
    } else {
      var t: nat :| Lock(s, t, s') || TakeHeader(s, t, s') || PutBack(s, t, s');
      ReaderKeeps(ms, s, t, s', c);
    }
  }

  lemma {:induction false} FinishKeeps(ms: seq<Method>, s: State, t: nat, s': State, c: Call)
    requires GoodService(ms) && FinishEffect(ms, s, t, s')
    ensures InProgress(s, c) ==> InProgress(s', c) || Completed(s', c)
    ensures Completed(s, c) ==> Completed(s', c)
  {
    if Completed(s, c) {
      var u :| 0 <= u < |s.threads| && s.threads[u].Finished? && s.threads[u].call == c;
      assert s'.threads[u] == s.threads[u];
    }
    if InProgress(s, c) && s.threads[t].call.seqid == c.seqid {
      assert s'.threads[t].call == c;
    }
  }

  lemma {:induction false} ReaderKeeps(ms: seq<Method>, s: State, t: nat, s': State, c: Call)
    requires Lock(s, t, s') || TakeHeader(s, t, s') || PutBack(s, t, s')
    ensures InProgress(s, c) ==> InProgress(s', c)
    ensures Completed(s, c) ==> Completed(s', c)
  {
    if Completed(s, c) {
      var u :| 0 <= u < |s.threads| && s.threads[u].Finished? && s.threads[u].call == c;
      assert u != t && s'.threads[u] == s.threads[u];
    }
  }

  lemma {:induction false} LeadsKeeps(ms: seq<Method>, s: State, run: seq<State>, s': State, c: Call)
    requires GoodService(ms) && Inv(ms, s) && Leads(ms, s, run, s')
    ensures InProgress(s, c) ==> InProgress(s', c) || Completed(s', c)
    ensures Completed(s, c) ==> Completed(s', c)
    decreases |run|
  {
    if |run| > 1 {
      ProceedKeeps(ms, s, run[1], c);
      ProceedInv(ms, s, run[1]);
      var later := run[1..];
      forall i | 0 <= i < |later| - 1 ensures Proceed(ms, later[i], later[i + 1]) {
        assert later[i] == run[i + 1] && later[i + 1] == run[i + 2];
      }
      LeadsKeeps(ms, run[1], later, s', c);
    }
  }

  lemma {:induction false} NextInRun(ms: seq<Method>, trace: seq<State>, i: nat, s: State, s': State)
    requires GoodService(ms) && Run(ms, trace) && i + 1 < |trace| && s == trace[i] && s' == trace[i + 1]
    ensures Next(ms, s, s')
  {
  }

  lemma {:induction false} NextInSteps(ms: seq<Method>, run: seq<State>, i: nat, s: State, s': State)
    requires GoodService(ms) && Steps(ms, run) && i + 1 < |run| && s == run[i] && s' == run[i + 1]
    ensures Next(ms, s, s')
  {
    assert Proceed(ms, run[i], run[i + 1]);
  }

  lemma {:induction false} RunThen(ms: seq<Method>, trace: seq<State>, run: seq<State>, s': State)
    requires GoodService(ms) && Run(ms, trace) && Leads(ms, trace[|trace| - 1], run, s')
    ensures var longer := trace + run[1..];
            Run(ms, longer) && longer[|longer| - 1] == s' && longer[..|trace|] == trace
  {
    var longer, m := trace + run[1..], |trace| - 1;
    forall i | 0 <= i < |longer| - 1 ensures Next(ms, longer[i], longer[i + 1]) {
      if i < m {
        NextInRun(ms, trace, i, longer[i], longer[i + 1]);
      } else {
        NextInSteps(ms, run, i - m, longer[i], longer[i + 1]);
      }
    }
  }

  /** The state in which the first caller has parked the second caller's header */
  predicate OutOfOrder(s: State, t1: nat, t2: nat, c1: Call, c2: Call) {
    && t1 < |s.threads| && t2 < |s.threads|
    && s.threads[t1] == Parked(c1) && s.threads[t2] == Waiting(c2) && InProgress(s, c1) && InProgress(s, c2)
    && |s.outbound| == 1 && s.outbound[0].seqid == c1.seqid
    && s.pending.Some? && s.pending.value.seqid == c2.seqid && s.reader.None?
  }

  lemma {:induction false} TwoCallsSent(ms: seq<Method>, n: nat, t1: nat, t2: nat, c1: Call, c2: Call)
    returns (trace: seq<State>)
    requires GoodService(ms) && t1 < n && t2 < n && t1 != t2
    requires GoodCall(ms, c1) && GoodCall(ms, c2) && c1.seqid != c2.seqid
    ensures Run(ms, trace) && |trace| == 3
    ensures var s := trace[2];
            && |s.threads| == n && s.threads[t1] == Waiting(c1) && s.threads[t2] == Waiting(c2)
            && s.monitors == map[c1.seqid := c1, c2.seqid := c2]
            && |s.outbound| == 2 && s.outbound[0].seqid == c1.seqid && s.outbound[1].seqid == c2.seqid
            && s.replies == [] && s.reader.None? && s.pending.None? && !s.dead
  {
    var s0 := State(seq(n, _ => Idle), map[], None, None, false, false, [], [], [], map[]);
    var s1 := SendStep(ms, s0, t1, c1);
    var s2 := SendStep(ms, s1, t2, c2);
    trace := [s0, s1, s2];
    assert s2.monitors == map[c1.seqid := c1, c2.seqid := c2];
  }

  /** Both calls are sent, nothing is answered. */
  predicate BothSent(s: State, t1: nat, t2: nat, c1: Call, c2: Call) {
    && t1 < |s.threads| && t2 < |s.threads| && t1 != t2 && c1.seqid != c2.seqid
    && s.threads[t1] == Waiting(c1) && s.threads[t2] == Waiting(c2) && InProgress(s, c1) && InProgress(s, c2)
    && |s.outbound| == 2 && s.outbound[0].seqid == c1.seqid && s.outbound[1].seqid == c2.seqid
    && s.replies == [] && s.reader.None? && s.pending.None? && !s.dead
  }

  /** The second one is answered, and the first caller is about to read. */
  predicate SecondAnswered(s: State, t1: nat, t2: nat, c1: Call, c2: Call) {
    && t1 < |s.threads| && t2 < |s.threads| && t1 != t2 && c1.seqid != c2.seqid
    && s.threads[t1] == Reading(c1, None) && s.threads[t2] == Waiting(c2) && InProgress(s, c1) && InProgress(s, c2)
    && |s.outbound| == 1 && s.outbound[0].seqid == c1.seqid
    && |s.replies| == 1 && s.replies[0].hdr.seqid == c2.seqid && s.reader == Some(t1)
  }

  lemma {:induction false} AnswerSecond(ms: seq<Method>, s: State, t1: nat, t2: nat, c1: Call, c2: Call, h: Handler)
    returns (run: seq<State>, s': State)
    requires GoodService(ms) && Inv(ms, s) && GoodHandler(h) && BothSent(s, t1, t2, c1, c2)
    ensures Leads(ms, s, run, s') && Inv(ms, s') && SecondAnswered(s', t1, t2, c1, c2)
  {
    var s1 := RequestStep(ms, s, 1, h);
    s' := LockStep(ms, s1, t1);
    run := TwoSteps(ms, s, s1, s');
  }

  lemma {:induction false} ParkSecond(ms: seq<Method>, s: State, t1: nat, t2: nat, c1: Call, c2: Call)
    returns (run: seq<State>, s': State)
    requires GoodService(ms) && Inv(ms, s) && SecondAnswered(s, t1, t2, c1, c2)
    ensures Leads(ms, s, run, s') && Inv(ms, s') && OutOfOrder(s', t1, t2, c1, c2) && Replied(s', c2)
  {
    var s1 := HeaderIsTaken(ms, s, t1);
    TakenIsFirst(ms, s1, t1);
    s' := ForeignHeaderIsPutBack(ms, s1, t1);
    assert Proceed(ms, s, s1) && Proceed(ms, s1, s');
    run := TwoSteps(ms, s, s1, s');
  }

  lemma {:induction false} CallsGetOutOfOrder(ms: seq<Method>, n: nat, t1: nat, t2: nat, c1: Call, c2: Call, h: Handler)
    returns (trace: seq<State>)
    requires GoodService(ms) && t1 < n && t2 < n && t1 != t2 && GoodHandler(h)
    requires GoodCall(ms, c1) && GoodCall(ms, c2) && c1.seqid != c2.seqid
    ensures Run(ms, trace) && Inv(ms, trace[|trace| - 1])
    ensures OutOfOrder(trace[|trace| - 1], t1, t2, c1, c2) && Replied(trace[|trace| - 1], c2)
  {
    trace := TwoCallsSent(ms, n, t1, t2, c1, c2);
    RunInv(ms, trace, 2);
    var run1, s1 := AnswerSecond(ms, trace[2], t1, t2, c1, c2, h);
    RunThen(ms, trace, run1, s1);
    trace := trace + run1[1..];
    var run2, s2 := ParkSecond(ms, s1, t1, t2, c1, c2);
    RunThen(ms, trace, run2, s2);
    trace := trace + run2[1..];
  }

  /** Any two calls of two threads can overlap: both in progress, the second answered first, its header
      parked by the first caller, and both completed in the end. */
  lemma {:induction false} CallsOverlap(ms: seq<Method>, n: nat, t1: nat, t2: nat, c1: Call, c2: Call, h: Handler)
    returns (trace: seq<State>, k: nat)
    requires GoodService(ms) && t1 < n && t2 < n && t1 != t2 && GoodHandler(h)
    requires GoodCall(ms, c1) && GoodCall(ms, c2) && c1.seqid != c2.seqid
    ensures Run(ms, trace) && k < |trace| && OutOfOrder(trace[k], t1, t2, c1, c2)
    ensures Completed(trace[|trace| - 1], c1) && Completed(trace[|trace| - 1], c2)
  {
    var front := CallsGetOutOfOrder(ms, n, t1, t2, c1, c2, h);
    k := |front| - 1;
    var run, s' := BothComplete(ms, front[k], c1, c2, h);
    RunThen(ms, front, run, s');
    trace := front + run[1..];
  }

  lemma {:induction false} BothComplete(ms: seq<Method>, s: State, c1: Call, c2: Call, h: Handler)
    returns (run: seq<State>, s': State)
    requires GoodService(ms) && Inv(ms, s) && GoodHandler(h) && InProgress(s, c1) && Replied(s, c2)
    ensures Leads(ms, s, run, s') && Completed(s', c1) && Completed(s', c2)
  {
    run, s' := RepliedCallCompletes(ms, s, c2);
    LeadsKeeps(ms, s, run, s', c1);
    if !Completed(s', c1) {
      var run1, s1 := CallCompletes(ms, s', c1.seqid, h);
      LeadsKeeps(ms, s', run1, s1, c2);
      Chain(ms, s, run, s', run1, s1);
      run, s' := run + run1[1..], s1;
    }
  }
}
