/**
 redis_queue_mover: threads times queues movers, each popping a batch from the right of its source
 list and pushing it to the left of its destination list, retrying the push until it succeeds.
 The model covers every interleaving and every pattern of failing pops and pushes.
 */
module QueueMover {
  import opened Decimals

  type Item = string

  /** Control points of move_thread_proc: the loop test, the pop, the push retry loop, and after */
  datatype Pc = Head | Pop | Push | Exited

  /** `values` is the local vector. The other members are history: the batches popped and done with, each
      with the number of times it reached the destination, and how often the current batch already has. */
  datatype Thread = Thread(pc: Pc, values: seq<Item>, done: seq<Batch>, landed: nat)

  datatype Batch = Batch(items: seq<Item>, copies: nat)

  /** Redis lists, leftmost element first; `moved` is g_num_moved */
  datatype State = State(lists: seq<seq<Item>>, threads: seq<Thread>, stop: bool, moved: nat)

  /** Where queue q's source and destination are among the lists; keys may coincide */
  datatype Config = Config(batch: int, src: seq<nat>, dst: seq<nat>) {
    predicate Valid(s: State) {
      && |src| == |dst| > 0
      && (forall q | 0 <= q < |src| :: src[q] < |s.lists| && dst[q] < |s.lists|)
    }

    function Queue(t: nat): (q: nat)
      requires |src| > 0
      ensures q < |src|
    {
      t % |src|
    }

    /** `batch > 1` pops up to batch values, otherwise one */
    function Count(): (n: nat)
      ensures n >= 1
    {
      if batch > 1 then batch else 1
    }
  }

  function Reverse(xs: seq<Item>): (r: seq<Item>)
    ensures |r| == |xs|
  {
    if xs == [] then [] else Reverse(xs[1..]) + [xs[0]]
  }

  /** The order in which rpop takes a list's elements */
  function PopOrder(xs: seq<Item>): (r: seq<Item>)
    ensures |r| == |xs|
  {
    Reverse(xs)
  }

  /** rpop with a count: what is taken, and what remains */
  function Taken(xs: seq<Item>, n: nat): seq<Item> {
    var k := if n < |xs| then n else |xs|;
    Reverse(xs[|xs| - k..])
  }

  function Left(xs: seq<Item>, n: nat): seq<Item> {
    var k := if n < |xs| then n else |xs|;
    xs[..|xs| - k]
  }

  /** lpush puts one value after the other at the left end */
  function Lpush(xs: seq<Item>, vs: seq<Item>): seq<Item>
    decreases vs
  {
    if vs == [] then xs else Lpush([vs[0]] + xs, vs[1..])
  }

  // ---------------------------------------------------------------- steps

  predicate Init(c: Config, s: State) {
    && c.Valid(s)
    && (forall t | 0 <= t < |s.threads| :: s.threads[t] == Thread(Head, [], [], 0))
    && !s.stop && s.moved == 0
  }

  /** `while (!g_stop)`, and the clearing of the vector */
  predicate Test(s: State, t: nat, s': State) {
    && t < |s.threads| && s.threads[t].pc.Head?
    && s' == s.(threads := s.threads[t :=
                  if s.stop then s.threads[t].(pc := Exited) else s.threads[t].(pc := Pop, values := [])])
  }

  predicate PopSucceeds(c: Config, s: State, t: nat, s': State)
    requires c.Valid(s)
  {
    && t < |s.threads| && s.threads[t].pc.Pop?
    && var i := c.src[c.Queue(t)];
    && var vs := Taken(s.lists[i], c.Count());
       s' == s.(lists := s.lists[i := Left(s.lists[i], c.Count())],
                threads := s.threads[t := s.threads[t].(values := vs, pc := if vs == [] then Head else Push)])
  }

  /** A pop that throws is logged; with no values the loop sleeps and starts over. */
  predicate PopThrows(s: State, t: nat, s': State) {
    && t < |s.threads| && s.threads[t].pc.Pop?
    && s' == s.(threads := s.threads[t := s.threads[t].(pc := Head)])
  }

  /** The pop took effect on the server, but the client saw an exception: nobody has the batch. */
  predicate PopThrowsLate(c: Config, s: State, t: nat, s': State)
    requires c.Valid(s)
  {
    && t < |s.threads| && s.threads[t].pc.Pop?
    && var i, th := c.src[c.Queue(t)], s.threads[t];
    && var vs := Taken(s.lists[i], c.Count());
       s' == s.(lists := s.lists[i := Left(s.lists[i], c.Count())],
                threads := s.threads[t := th.(pc := Head, done := th.done + [Batch(vs, 0)])])
  }

  predicate PushSucceeds(c: Config, s: State, t: nat, s': State)
    requires c.Valid(s)
  {
    && t < |s.threads| && s.threads[t].pc.Push?
    && var i, th := c.dst[c.Queue(t)], s.threads[t];
       s' == s.(lists := s.lists[i := Lpush(s.lists[i], th.values)],
                threads := s.threads[t := Thread(Head, th.values, th.done + [Batch(th.values, th.landed + 1)], 0)],
                moved := s.moved + |th.values|)
  }

  /** A push that throws is retried, whatever g_stop says. */
  predicate PushThrows(s: State, t: nat, s': State) {
    t < |s.threads| && s.threads[t].pc.Push? && s' == s
  }

  /** The push took effect on the server, but the client saw an exception. */
  predicate PushThrowsLate(c: Config, s: State, t: nat, s': State)
    requires c.Valid(s)
  {
    && t < |s.threads| && s.threads[t].pc.Push?
    && var i, th := c.dst[c.Queue(t)], s.threads[t];
       s' == s.(lists := s.lists[i := Lpush(s.lists[i], th.values)],
                threads := s.threads[t := th.(landed := th.landed + 1)])
  }

  predicate Stop(s: State, s': State) {
    s' == s.(stop := true)
  }

  /** One step when failed pops and pushes have no effect */
  ghost predicate Atomic(c: Config, s: State, s': State)
    requires c.Valid(s)
  {
    || (exists t: nat :: Test(s, t, s'))
    || (exists t: nat :: PopSucceeds(c, s, t, s'))
    || (exists t: nat :: PopThrows(s, t, s'))
    || (exists t: nat :: PushSucceeds(c, s, t, s'))
    || (exists t: nat :: PushThrows(s, t, s'))
    || Stop(s, s')
  }

  ghost predicate Next(c: Config, s: State, s': State)
    requires c.Valid(s)
  {
    || Atomic(c, s, s')
    || (exists t: nat :: PushThrowsLate(c, s, t, s'))
    || (exists t: nat :: PopThrowsLate(c, s, t, s'))
  }

  // ---------------------------------------------------------------- lists

  lemma {:induction false} ReverseConcat(xs: seq<Item>, ys: seq<Item>)
    ensures Reverse(xs + ys) == Reverse(ys) + Reverse(xs)
  {
    if xs == [] {
      assert xs + ys == ys;
    } else {
      assert (xs + ys)[1..] == xs[1..] + ys;
      ReverseConcat(xs[1..], ys);
    }
  }

  lemma {:induction false} ReverseBag(xs: seq<Item>)
    ensures multiset(Reverse(xs)) == multiset(xs)
  {
    if xs != [] {
      ReverseBag(xs[1..]);
      assert xs == [xs[0]] + xs[1..];
    }
  }

  /** A pop takes the front of the pop order. */
  lemma {:induction false} TakenIsPrefix(xs: seq<Item>, n: nat)
    ensures PopOrder(xs) == Taken(xs, n) + PopOrder(Left(xs, n))
  {
    var k := if n < |xs| then n else |xs|;
    assert xs == xs[..|xs| - k] + xs[|xs| - k..];
    ReverseConcat(xs[..|xs| - k], xs[|xs| - k..]);
  }

  /** A push of several values appends them, in order, to the pop order. */
  lemma {:induction false} LpushAppends(xs: seq<Item>, vs: seq<Item>)
    ensures PopOrder(Lpush(xs, vs)) == PopOrder(xs) + vs
    decreases |vs|
  {
    if vs != [] {
      LpushAppends([vs[0]] + xs, vs[1..]);
      ReverseConcat([vs[0]], xs);
      assert Reverse([vs[0]]) == [vs[0]] by {
        assert Reverse([]) == [];
      }
      assert PopOrder(xs) + vs == (PopOrder(xs) + [vs[0]]) + vs[1..];
    } else {
      assert PopOrder(xs) + vs == PopOrder(xs);
    }
  }

  // ---------------------------------------------------------------- conservation

  /** How often an item occurs in all lists together */
  function InLists(lists: seq<seq<Item>>, x: Item): nat {
    if lists == [] then 0 else multiset(lists[0])[x] + InLists(lists[1..], x)
  }

  /** Popped but not yet pushed */
  function InFlight(th: Thread): seq<Item> {
    if th.pc.Push? then th.values else []
  }

  function AllInFlight(ths: seq<Thread>, x: Item): nat {
    if ths == [] then 0 else multiset(InFlight(ths[0]))[x] + AllInFlight(ths[1..], x)
  }

  function Everywhere(s: State, x: Item): nat {
    InLists(s.lists, x) + AllInFlight(s.threads, x)
  }

  lemma {:induction false} ListUpdate(lists: seq<seq<Item>>, i: nat, xs: seq<Item>, x: Item)
    requires i < |lists|
    ensures InLists(lists[i := xs], x) + multiset(lists[i])[x] == InLists(lists, x) + multiset(xs)[x]
  {
    if i == 0 {
      assert lists[i := xs][1..] == lists[1..];
    } else {
      assert lists[i := xs][1..] == lists[1..][i - 1 := xs];
      ListUpdate(lists[1..], i - 1, xs, x);
    }
  }

  lemma {:induction false} ThreadUpdate(ths: seq<Thread>, t: nat, th: Thread, x: Item)
    requires t < |ths|
    ensures AllInFlight(ths[t := th], x) + multiset(InFlight(ths[t]))[x] ==
            AllInFlight(ths, x) + multiset(InFlight(th))[x]
  {
    if t == 0 {
      assert ths[t := th][1..] == ths[1..];
    } else {
      assert ths[t := th][1..] == ths[1..][t - 1 := th];
      ThreadUpdate(ths[1..], t - 1, th, x);
    }
  }

  lemma {:induction false} TakenBag(xs: seq<Item>, n: nat)
    ensures multiset(xs) == multiset(Taken(xs, n)) + multiset(Left(xs, n))
  {
    TakenIsPrefix(xs, n);
    ReverseBag(xs);
    ReverseBag(Left(xs, n));
  }

  lemma {:induction false} LpushBag(xs: seq<Item>, vs: seq<Item>)
    ensures multiset(Lpush(xs, vs)) == multiset(xs) + multiset(vs)
  {
    LpushAppends(xs, vs);
    ReverseBag(xs);
    ReverseBag(Lpush(xs, vs));
  }

  lemma {:induction false} PopConserves(c: Config, s: State, t: nat, s': State, x: Item)
    requires c.Valid(s) && PopSucceeds(c, s, t, s')
    ensures Everywhere(s', x) == Everywhere(s, x)
  {
    var i := c.src[c.Queue(t)];
    ListUpdate(s.lists, i, Left(s.lists[i], c.Count()), x);
    ThreadUpdate(s.threads, t, s'.threads[t], x);
    TakenBag(s.lists[i], c.Count());
  }

  lemma {:induction false} PushConserves(c: Config, s: State, t: nat, s': State, x: Item)
    requires c.Valid(s) && PushSucceeds(c, s, t, s')
    ensures Everywhere(s', x) == Everywhere(s, x)
  {
    var i, vs := c.dst[c.Queue(t)], s.threads[t].values;
    ListUpdate(s.lists, i, Lpush(s.lists[i], vs), x);
    ThreadUpdate(s.threads, t, s'.threads[t], x);
    LpushBag(s.lists[i], vs);
  }

  /** Nothing is lost or duplicated by any step whose failures are atomic, even when sources and
      destinations share keys. */
  lemma {:induction false} StepConserves(c: Config, s: State, s': State, x: Item)
    requires c.Valid(s) && Atomic(c, s, s')
    ensures c.Valid(s') && |s'.threads| == |s.threads| && Everywhere(s', x) == Everywhere(s, x)
  {
    if t: nat :| PopSucceeds(c, s, t, s') {
      PopConserves(c, s, t, s', x);
    } else if t: nat :| PushSucceeds(c, s, t, s') {
      PushConserves(c, s, t, s', x);
    } else if t: nat :| Test(s, t, s') || PopThrows(s, t, s') {
      ThreadUpdate(s.threads, t, s'.threads[t], x);
    }
  }

  ghost predicate AtomicRun(c: Config, trace: seq<State>) {
    && trace != [] && Init(c, trace[0])
    && forall i | 0 <= i < |trace| - 1 :: c.Valid(trace[i]) && Atomic(c, trace[i], trace[i + 1])
  }

  /** In every run, for every item: its occurrences in all source and destination lists and in the
      batches in hand add up to what the lists held at the start. */
  lemma {:induction false} Conservation(c: Config, trace: seq<State>, i: nat, x: Item)
    requires AtomicRun(c, trace) && i < |trace|
    ensures c.Valid(trace[i]) && Everywhere(trace[i], x) == InLists(trace[0].lists, x)
  {
    if i == 0 {
      NothingInFlight(trace[0].threads, x);
    } else {
      Conservation(c, trace, i - 1, x);
      StepConserves(c, trace[i - 1], trace[i], x);
    }
  }

  lemma {:induction false} NothingInFlight(ths: seq<Thread>, x: Item)
    requires forall t | 0 <= t < |ths| :: !ths[t].pc.Push?
    ensures AllInFlight(ths, x) == 0
  {
    if ths != [] {
      NothingInFlight(ths[1..], x);
    }
  }

  /** Once every thread has left its loop, all items are in the lists, even if g_stop was set while
      pushes were failing. */
  lemma {:induction false} NothingInFlightAtExit(c: Config, trace: seq<State>, i: nat, x: Item)
    requires AtomicRun(c, trace) && i < |trace|
    requires forall t | 0 <= t < |trace[i].threads| :: trace[i].threads[t].pc.Exited?
    ensures InLists(trace[i].lists, x) == InLists(trace[0].lists, x)
  {
    Conservation(c, trace, i, x);
    NothingInFlight(trace[i].threads, x);
  }

  // ---------------------------------------------------------------- the count

  function Items(bs: seq<Batch>): seq<Item> {
    if bs == [] then [] else Items(bs[..|bs| - 1]) + bs[|bs| - 1].items
  }

  /** Items of batches that a push has finished with */
  function Finished(bs: seq<Batch>): nat {
    if bs == [] then 0
    else Finished(bs[..|bs| - 1]) + if bs[|bs| - 1].copies > 0 then |bs[|bs| - 1].items| else 0
  }

  function Pushed(ths: seq<Thread>): nat {
    if ths == [] then 0 else Finished(ths[0].done) + Pushed(ths[1..])
  }

  lemma {:induction false} PushedUpdate(ths: seq<Thread>, t: nat, th: Thread)
    requires t < |ths|
    ensures Pushed(ths[t := th]) + Finished(ths[t].done) == Pushed(ths) + Finished(th.done)
  {
    if t == 0 {
      assert ths[t := th][1..] == ths[1..];
    } else {
      assert ths[t := th][1..] == ths[1..][t - 1 := th];
      PushedUpdate(ths[1..], t - 1, th);
    }
  }

  lemma {:induction false} FinishedAppend(bs: seq<Batch>, b: Batch)
    ensures Finished(bs + [b]) == Finished(bs) + if b.copies > 0 then |b.items| else 0
  {
    assert (bs + [b])[..|bs|] == bs;
  }

  lemma {:induction false} StepCounts(c: Config, s: State, s': State)
    requires c.Valid(s) && Next(c, s, s') && s.moved == Pushed(s.threads)
    ensures s'.moved == Pushed(s'.threads)
  {
    if t: nat :| PushSucceeds(c, s, t, s') {
      PushedUpdate(s.threads, t, s'.threads[t]);
      FinishedAppend(s.threads[t].done, Batch(s.threads[t].values, s.threads[t].landed + 1));
    } else if t: nat :| PopThrowsLate(c, s, t, s') {
      PushedUpdate(s.threads, t, s'.threads[t]);
      FinishedAppend(s.threads[t].done, s'.threads[t].done[|s.threads[t].done|]);
    } else if t: nat :| PopSucceeds(c, s, t, s') || PushThrowsLate(c, s, t, s') {
      PushedUpdate(s.threads, t, s'.threads[t]);
    } else if t: nat :| Test(s, t, s') || PopThrows(s, t, s') {
      PushedUpdate(s.threads, t, s'.threads[t]);
    }
  }

  /** g_num_moved counts every item of every pushed batch once, however often the batch landed, and
      nothing of a batch that a failing pop took away. */
  lemma {:induction false} MovedCountsItems(c: Config, trace: seq<State>, i: nat)
    requires Run(c, trace) && i < |trace|
    ensures trace[i].moved == Pushed(trace[i].threads)
  {
    if i == 0 {
      NothingPushed(trace[0].threads);
    } else {
      MovedCountsItems(c, trace, i - 1);
      StepCounts(c, trace[i - 1], trace[i]);
    }
  }

  lemma {:induction false} NothingPushed(ths: seq<Thread>)
    requires forall t | 0 <= t < |ths| :: ths[t].done == []
    ensures Pushed(ths) == 0
  {
    if ths != [] {
      NothingPushed(ths[1..]);
    }
  }

  // ---------------------------------------------------------------- order and duplicates

  function Repeat(xs: seq<Item>, n: nat): seq<Item> {
    if n == 0 then [] else Repeat(xs, n - 1) + xs
  }

  /** What the destination received: every batch, as often as it landed */
  function Landed(bs: seq<Batch>): seq<Item> {
    if bs == [] then [] else Landed(bs[..|bs| - 1]) + Repeat(bs[|bs| - 1].items, bs[|bs| - 1].copies)
  }

  /** One thread per queue, and no list is used twice */
  predicate OneEach(c: Config, s: State) {
    && c.Valid(s) && |s.threads| == |c.src|
    && (forall p, q | 0 <= p < q < |c.src| :: c.src[p] != c.src[q] && c.dst[p] != c.dst[q])
    && (forall p, q | 0 <= p < |c.src| && 0 <= q < |c.src| :: c.src[p] != c.dst[q])
  }

  /** For queue t, against its initial source `s0` and destination `d0` in pop order: the batches
      popped, the batch in hand and the rest of the source are the source, in order; and the
      destination gained those batches in order, each as a whole as often as it landed. */
  predicate InOrder(c: Config, s: State, t: nat, s0: seq<Item>, d0: seq<Item>)
    requires OneEach(c, s) && t < |c.src|
  {
    Ordered(s.threads[t], s.lists[c.src[t]], s.lists[c.dst[t]], s0, d0)
  }

  predicate Ordered(th: Thread, src: seq<Item>, dst: seq<Item>, s0: seq<Item>, d0: seq<Item>) {
    && Items(th.done) + InFlight(th) + PopOrder(src) == s0
    && PopOrder(dst) == d0 + Landed(th.done) + Repeat(InFlight(th), th.landed)
    && (th.landed > 0 ==> th.pc.Push?)
  }

  lemma {:induction false} ItemsAppend(bs: seq<Batch>, b: Batch)
    ensures Items(bs + [b]) == Items(bs) + b.items
    ensures Landed(bs + [b]) == Landed(bs) + Repeat(b.items, b.copies)
  {
    assert (bs + [b])[..|bs|] == bs;
  }

  lemma {:induction false} PoppedBatch(front: seq<Item>, xs: seq<Item>, n: nat)
    ensures front + [] + PopOrder(xs) == front + Taken(xs, n) + PopOrder(Left(xs, n))
  {
    TakenIsPrefix(xs, n);
    assert front + [] == front;
    Associative(front, Taken(xs, n), PopOrder(Left(xs, n)));
  }

  lemma {:induction false} PushedBatch(bs: seq<Batch>, vs: seq<Item>, n: nat, source: seq<Item>, d0: seq<Item>)
    ensures var after := bs + [Batch(vs, n + 1)];
            && Items(after) + [] + source == Items(bs) + vs + source
            && d0 + Landed(after) + [] == d0 + Landed(bs) + Repeat(vs, n + 1)
  {
    var b := Batch(vs, n + 1);
    ItemsAppend(bs, b);
    assert Items(bs + [b]) + [] == Items(bs + [b]);
    Associative(d0, Landed(bs), Repeat(vs, n + 1));
    assert d0 + Landed(bs + [b]) + [] == d0 + Landed(bs + [b]);
  }

  lemma {:induction false} PopOrdered(th: Thread, src: seq<Item>, dst: seq<Item>, n: nat,
                                      s0: seq<Item>, d0: seq<Item>)
    requires Ordered(th, src, dst, s0, d0) && th.pc.Pop?
    ensures var vs := Taken(src, n);
            Ordered(th.(values := vs, pc := if vs == [] then Head else Push), Left(src, n), dst, s0, d0)
  {
    PoppedBatch(Items(th.done), src, n);
    assert th.landed == 0 && Repeat(Taken(src, n), 0) == [] == Repeat([], 0);
  }

  lemma {:induction false} LostBatch(bs: seq<Batch>, vs: seq<Item>, source: seq<Item>, d0: seq<Item>)
    ensures var after := bs + [Batch(vs, 0)];
            && Items(after) + [] + source == Items(bs) + vs + source
            && d0 + Landed(after) + [] == d0 + Landed(bs) + []
  {
    ItemsAppend(bs, Batch(vs, 0));
    assert Items(bs) + vs + [] == Items(bs) + vs;
    assert Landed(bs) + [] == Landed(bs);
  }

  lemma {:induction false} PopLateOrdered(th: Thread, src: seq<Item>, dst: seq<Item>, n: nat,
                                          s0: seq<Item>, d0: seq<Item>)
    requires Ordered(th, src, dst, s0, d0) && th.pc.Pop?
    ensures Ordered(th.(pc := Head, done := th.done + [Batch(Taken(src, n), 0)]), Left(src, n), dst, s0, d0)
  {
    PoppedBatch(Items(th.done), src, n);
    LostBatch(th.done, Taken(src, n), PopOrder(Left(src, n)), d0);
    assert th.landed == 0 && Repeat([], 0) == [];
  }

  lemma {:induction false} PushOrdered(th: Thread, src: seq<Item>, dst: seq<Item>, s0: seq<Item>, d0: seq<Item>)
    requires Ordered(th, src, dst, s0, d0) && th.pc.Push?
    ensures Ordered(Thread(Head, th.values, th.done + [Batch(th.values, th.landed + 1)], 0),
                    src, Lpush(dst, th.values), s0, d0)
  {
    LpushAppends(dst, th.values);
    LandsAgain(d0 + Landed(th.done), th.values, th.landed);
    PushedBatch(th.done, th.values, th.landed, PopOrder(src), d0);
    assert Repeat([], 0) == [];
  }

  lemma {:induction false} PushLateOrdered(th: Thread, src: seq<Item>, dst: seq<Item>, s0: seq<Item>, d0: seq<Item>)
    requires Ordered(th, src, dst, s0, d0) && th.pc.Push?
    ensures Ordered(th.(landed := th.landed + 1), src, Lpush(dst, th.values), s0, d0)
  {
    LpushAppends(dst, th.values);
    LandsAgain(d0 + Landed(th.done), th.values, th.landed);
  }

  lemma {:induction false} Associative(a: seq<Item>, b: seq<Item>, c: seq<Item>)
    ensures a + b + c == a + (b + c)
  {
  }

  lemma {:induction false} LandsAgain(front: seq<Item>, vs: seq<Item>, n: nat)
    ensures front + Repeat(vs, n) + vs == front + Repeat(vs, n + 1)
  {
    Associative(front, Repeat(vs, n), vs);
  }

  lemma {:induction false} IdleInOrder(c: Config, s: State, t: nat, s': State, u: nat, s0: seq<Item>, d0: seq<Item>)
    requires OneEach(c, s) && u < |c.src| && InOrder(c, s, u, s0, d0)
    requires Test(s, t, s') || PopThrows(s, t, s')
    ensures OneEach(c, s') && InOrder(c, s', u, s0, d0)
  {
    assert InFlight(s'.threads[t]) == InFlight(s.threads[t]);
  }

  /** The thread, the source and the destination of queue t after t's own step */
  lemma {:induction false} OwnStep(c: Config, s: State, t: nat, th: Thread, src: seq<Item>, dst: seq<Item>, s': State)
    requires OneEach(c, s) && t < |c.src| && s'.threads == s.threads[t := th]
    requires s'.lists == s.lists[c.src[t] := src][c.dst[t] := dst]
    ensures OneEach(c, s') && s'.threads[t] == th && s'.lists[c.src[t]] == src && s'.lists[c.dst[t]] == dst
    ensures forall u: nat | u < |c.src| && u != t ::
              && s'.threads[u] == s.threads[u]
              && s'.lists[c.src[u]] == s.lists[c.src[u]] && s'.lists[c.dst[u]] == s.lists[c.dst[u]]
  {
  }

  lemma {:induction false} OwnQueue(c: Config, s: State, t: nat)
    requires OneEach(c, s) && t < |s.threads|
    ensures c.Queue(t) == t
  {
  }

  lemma {:induction false} PopStep(c: Config, s: State, t: nat, s': State)
    requires OneEach(c, s) && (PopSucceeds(c, s, t, s') || PopThrowsLate(c, s, t, s'))
    ensures t < |c.src| && s'.threads == s.threads[t := s'.threads[t]]
    ensures s'.lists == s.lists[c.src[t] := Left(s.lists[c.src[t]], c.Count())][c.dst[t] := s.lists[c.dst[t]]]
  {
    OwnQueue(c, s, t);
    var src := Left(s.lists[c.src[t]], c.Count());
    assert s.lists[c.src[t] := src][c.dst[t] := s.lists[c.dst[t]]] == s.lists[c.src[t] := src];
  }

  lemma {:induction false} PopInOrder(c: Config, s: State, t: nat, s': State, u: nat, s0: seq<Item>, d0: seq<Item>)
    requires OneEach(c, s) && u < |c.src| && InOrder(c, s, u, s0, d0)
    requires PopSucceeds(c, s, t, s') || PopThrowsLate(c, s, t, s')
    ensures OneEach(c, s') && InOrder(c, s', u, s0, d0)
  {
    OwnQueue(c, s, t);
    PopStep(c, s, t, s');
    var src, dst := s.lists[c.src[t]], s.lists[c.dst[t]];
    OwnStep(c, s, t, s'.threads[t], Left(src, c.Count()), dst, s');
    if t == u {
      PopOrdered(s.threads[t], src, dst, c.Count(), s0, d0);
      PopLateOrdered(s.threads[t], src, dst, c.Count(), s0, d0);
    }
  }

  lemma {:induction false} PushStep(c: Config, s: State, t: nat, s': State)
    requires OneEach(c, s) && (PushSucceeds(c, s, t, s') || PushThrowsLate(c, s, t, s'))
    ensures t < |c.src| && s'.threads == s.threads[t := s'.threads[t]]
    ensures s'.lists ==
            s.lists[c.src[t] := s.lists[c.src[t]]][c.dst[t] := Lpush(s.lists[c.dst[t]], s.threads[t].values)]
  {
    OwnQueue(c, s, t);
    assert s.lists[c.src[t] := s.lists[c.src[t]]] == s.lists;
  }

  lemma {:induction false} OwnPushInOrder(c: Config, s: State, t: nat, s': State, s0: seq<Item>, d0: seq<Item>)
    requires OneEach(c, s) && t < |c.src| && InOrder(c, s, t, s0, d0)
    requires PushSucceeds(c, s, t, s') || PushThrowsLate(c, s, t, s')
    ensures Ordered(s'.threads[t], s.lists[c.src[t]], Lpush(s.lists[c.dst[t]], s.threads[t].values), s0, d0)
  {
    var src, dst := s.lists[c.src[t]], s.lists[c.dst[t]];
    PushOrdered(s.threads[t], src, dst, s0, d0);
    PushLateOrdered(s.threads[t], src, dst, s0, d0);
  }

  lemma {:induction false} PushInOrder(c: Config, s: State, t: nat, s': State, u: nat, s0: seq<Item>, d0: seq<Item>)
    requires OneEach(c, s) && u < |c.src| && InOrder(c, s, u, s0, d0)
    requires PushSucceeds(c, s, t, s') || PushThrowsLate(c, s, t, s')
    ensures OneEach(c, s') && InOrder(c, s', u, s0, d0)
  {
    PushStep(c, s, t, s');
    OwnStep(c, s, t, s'.threads[t], s.lists[c.src[t]], Lpush(s.lists[c.dst[t]], s.threads[t].values), s');
    if t == u {
      OwnPushInOrder(c, s, t, s', s0, d0);
    }
  }

  lemma {:induction false} StepInOrder(c: Config, s: State, s': State, u: nat, s0: seq<Item>, d0: seq<Item>)
    requires OneEach(c, s) && Next(c, s, s') && u < |c.src| && InOrder(c, s, u, s0, d0)
    ensures OneEach(c, s') && InOrder(c, s', u, s0, d0)
  {
    if t: nat :| PopSucceeds(c, s, t, s') || PopThrowsLate(c, s, t, s') {
      PopInOrder(c, s, t, s', u, s0, d0);
    } else if t: nat :| PushSucceeds(c, s, t, s') || PushThrowsLate(c, s, t, s') {
      PushInOrder(c, s, t, s', u, s0, d0);
    } else if t: nat :| Test(s, t, s') || PopThrows(s, t, s') {
      IdleInOrder(c, s, t, s', u, s0, d0);
    }
  }

  ghost predicate Run(c: Config, trace: seq<State>) {
    && trace != [] && Init(c, trace[0])
    && forall i | 0 <= i < |trace| - 1 :: c.Valid(trace[i]) && Next(c, trace[i], trace[i + 1])
  }

  lemma {:induction false} RunStep(c: Config, trace: seq<State>, i: nat)
    requires Run(c, trace) && i + 1 < |trace|
    ensures c.Valid(trace[i]) && Next(c, trace[i], trace[i + 1])
  {
  }

  /** In every run, for every batch size and failure pattern, including pops and pushes that fail after
      taking effect: order is kept, and only whole batches are ever missing or repeated. */
  lemma {:induction false} FifoAtLeastOnce(c: Config, trace: seq<State>, i: nat, u: nat)
    requires Run(c, trace) && OneEach(c, trace[0]) && i < |trace| && u < |c.src|
    ensures OneEach(c, trace[i])
    ensures InOrder(c, trace[i], u, PopOrder(trace[0].lists[c.src[u]]), PopOrder(trace[0].lists[c.dst[u]]))
  {
    var s0, d0 := PopOrder(trace[0].lists[c.src[u]]), PopOrder(trace[0].lists[c.dst[u]]);
    if i == 0 {
      assert Items([]) + [] + s0 == s0 && d0 + Landed([]) + Repeat([], 0) == d0;
    } else {
      FifoAtLeastOnce(c, trace, i - 1, u);
      StepInOrder(c, trace[i - 1], trace[i], u, s0, d0);
    }
  }

  /** Step n is a pop of thread u that fails after taking the batch that becomes u's k-th. */
  ghost predicate LostAt(c: Config, trace: seq<State>, n: nat, u: nat, k: nat) {
    && n + 1 < |trace| && c.Valid(trace[n]) && PopThrowsLate(c, trace[n], u, trace[n + 1])
    && |trace[n].threads[u].done| == k
  }

  ghost predicate LostBefore(c: Config, trace: seq<State>, i: nat, u: nat, k: nat) {
    exists n: nat :: n < i && LostAt(c, trace, n, u, k)
  }

  /** What a step does to the batches that thread u is done with */
  lemma {:induction false} StepAppends(c: Config, s: State, s': State, u: nat)
    requires c.Valid(s) && Next(c, s, s') && u < |s.threads|
    ensures |s'.threads| == |s.threads|
    ensures var bs, bs' := s.threads[u].done, s'.threads[u].done;
            if PopThrowsLate(c, s, u, s') then |bs'| == |bs| + 1 && bs'[..|bs|] == bs && bs'[|bs|].copies == 0
            else bs' == bs || (|bs'| == |bs| + 1 && bs'[..|bs|] == bs && bs'[|bs|].copies > 0)
  {
    if t: nat :| PopThrowsLate(c, s, t, s') {
      assert t != u ==> s'.threads[u] == s.threads[u];
    } else if t: nat :| PushSucceeds(c, s, t, s') {
      assert t != u ==> s'.threads[u] == s.threads[u];
    } else if t: nat :| PopSucceeds(c, s, t, s') || PushThrowsLate(c, s, t, s') {
      assert s'.threads[u].done == s.threads[u].done;
    } else if t: nat :| Test(s, t, s') || PopThrows(s, t, s') {
      assert s'.threads[u].done == s.threads[u].done;
    }
  }

  /** What the i-th step does to them */
  lemma {:induction false} RunAppends(c: Config, trace: seq<State>, i: nat, u: nat)
    requires Run(c, trace) && i + 1 < |trace| && u < |trace[i + 1].threads|
    ensures u < |trace[i].threads|
    ensures var bs, bs' := trace[i].threads[u].done, trace[i + 1].threads[u].done;
            && |bs| <= |bs'| <= |bs| + 1 && bs'[..|bs|] == bs
            && (|bs'| > |bs| ==> (bs'[|bs|].copies == 0 <==> LostAt(c, trace, i, u, |bs|)))
            && forall k: nat :: LostAt(c, trace, i, u, k) ==> k == |bs| < |bs'|
  {
    RunStep(c, trace, i);
    SameThreads(c, trace[i], trace[i + 1]);
    StepAppends(c, trace[i], trace[i + 1], u);
  }

  lemma {:induction false} SameThreads(c: Config, s: State, s': State)
    requires c.Valid(s) && Next(c, s, s')
    ensures |s'.threads| == |s.threads|
  {
  }

  /** A batch never reaches the destination iff it was popped by a pop that failed after taking effect. */
  lemma {:induction false} LostExactly(c: Config, trace: seq<State>, i: nat, u: nat, k: nat)
    requires Run(c, trace) && i < |trace| && u < |trace[i].threads| && k < |trace[i].threads[u].done|
    ensures trace[i].threads[u].done[k].copies == 0 <==> LostBefore(c, trace, i, u, k)
  {
    if i > 0 {
      RunAppends(c, trace, i - 1, u);
      LostBeforeStep(c, trace, i - 1, u, k);
      var bs, bs' := trace[i - 1].threads[u].done, trace[i].threads[u].done;
      if k < |bs| {
        assert bs'[k] == bs'[..|bs|][k];
        LostExactly(c, trace, i - 1, u, k);
      } else {
        NotLostYet(c, trace, i - 1, u, k);
      }
    }
  }

  lemma {:induction false} LostBeforeStep(c: Config, trace: seq<State>, i: nat, u: nat, k: nat)
    ensures LostBefore(c, trace, i + 1, u, k) <==> LostBefore(c, trace, i, u, k) || LostAt(c, trace, i, u, k)
  {
    if n: nat :| n < i && LostAt(c, trace, n, u, k) {
      assert n < i + 1;
    }
  }

  /** A batch that is still to come has not been lost. */
  lemma {:induction false} NotLostYet(c: Config, trace: seq<State>, i: nat, u: nat, k: nat)
    requires Run(c, trace) && i < |trace| && u < |trace[i].threads| && k >= |trace[i].threads[u].done|
    ensures !LostBefore(c, trace, i, u, k)
  {
    if i > 0 {
      RunAppends(c, trace, i - 1, u);
      NotLostYet(c, trace, i - 1, u, k);
      LostBeforeStep(c, trace, i - 1, u, k);
    }
  }

  /** So nothing is lost where no pop fails late. */
  lemma {:induction false} NothingLost(c: Config, trace: seq<State>, i: nat, u: nat, k: nat)
    requires Run(c, trace) && i < |trace| && u < |trace[i].threads| && k < |trace[i].threads[u].done|
    requires forall n: nat :: !LostAt(c, trace, n, u, k)
    ensures trace[i].threads[u].done[k].copies >= 1
  {
    LostExactly(c, trace, i, u, k);
  }

  // ---------------------------------------------------------------- every item accounted for

  function TakenBy(th: Thread): seq<Item> {
    Items(th.done) + InFlight(th)
  }

  function LandedBy(th: Thread): seq<Item> {
    Landed(th.done) + Repeat(InFlight(th), th.landed)
  }

  function Takes(ths: seq<Thread>): seq<seq<Item>> {
    seq(|ths|, t requires 0 <= t < |ths| => TakenBy(ths[t]))
  }

  function Lands(ths: seq<Thread>): seq<seq<Item>> {
    seq(|ths|, t requires 0 <= t < |ths| => LandedBy(ths[t]))
  }

  function AllTaken(ths: seq<Thread>, x: Item): nat {
    InLists(Takes(ths), x)
  }

  function AllLanded(ths: seq<Thread>, x: Item): nat {
    InLists(Lands(ths), x)
  }

  lemma {:induction false} TakenUpdate(ths: seq<Thread>, t: nat, th: Thread, x: Item)
    requires t < |ths|
    ensures AllTaken(ths[t := th], x) + multiset(TakenBy(ths[t]))[x] == AllTaken(ths, x) + multiset(TakenBy(th))[x]
  {
    assert Takes(ths[t := th]) == Takes(ths)[t := TakenBy(th)];
    ListUpdate(Takes(ths), t, TakenBy(th), x);
  }

  lemma {:induction false} LandedUpdate(ths: seq<Thread>, t: nat, th: Thread, x: Item)
    requires t < |ths|
    ensures AllLanded(ths[t := th], x) + multiset(LandedBy(ths[t]))[x] == AllLanded(ths, x) + multiset(LandedBy(th))[x]
  {
    assert Lands(ths[t := th]) == Lands(ths)[t := LandedBy(th)];
    ListUpdate(Lands(ths), t, LandedBy(th), x);
  }

  predicate LandsInPushOnly(s: State) {
    forall t | 0 <= t < |s.threads| :: s.threads[t].landed > 0 ==> s.threads[t].pc.Push?
  }

  /** What is in the lists now, and what was taken from them, is what was there and what was put there. */
  predicate Accounted(s: State, x: Item, initially: nat) {
    InLists(s.lists, x) + AllTaken(s.threads, x) == initially + AllLanded(s.threads, x)
  }

  lemma {:induction false} PopThread(th: Thread, vs: seq<Item>, late: bool)
    requires th.pc.Pop? && th.landed == 0
    ensures var th' := if late then th.(pc := Head, done := th.done + [Batch(vs, 0)])
                       else th.(values := vs, pc := if vs == [] then Head else Push);
            TakenBy(th') == TakenBy(th) + vs && LandedBy(th') == LandedBy(th)
  {
    assert forall xs: seq<Item> :: Repeat(xs, 0) == [];
    if late {
      ItemsAppend(th.done, Batch(vs, 0));
    }
  }

  function AfterPush(th: Thread, late: bool): Thread {
    if late then th.(landed := th.landed + 1)
    else Thread(Head, th.values, th.done + [Batch(th.values, th.landed + 1)], 0)
  }

  lemma {:induction false} PushThread(th: Thread, late: bool)
    requires th.pc.Push?
    ensures TakenBy(AfterPush(th, late)) == TakenBy(th)
    ensures LandedBy(AfterPush(th, late)) == LandedBy(th) + th.values
  {
    Associative(Landed(th.done), Repeat(th.values, th.landed), th.values);
    if !late {
      ItemsAppend(th.done, Batch(th.values, th.landed + 1));
      assert Repeat([], 0) == [];
    }
  }

  lemma {:induction false} PopAccounts(c: Config, s: State, t: nat, s': State, x: Item, initially: nat)
    requires c.Valid(s) && LandsInPushOnly(s) && Accounted(s, x, initially)
    requires PopSucceeds(c, s, t, s') || PopThrowsLate(c, s, t, s')
    ensures Accounted(s', x, initially)
  {
    var i, th := c.src[c.Queue(t)], s.threads[t];
    var vs := Taken(s.lists[i], c.Count());
    ListUpdate(s.lists, i, Left(s.lists[i], c.Count()), x);
    TakenUpdate(s.threads, t, s'.threads[t], x);
    LandedUpdate(s.threads, t, s'.threads[t], x);
    TakenBag(s.lists[i], c.Count());
    PopThread(th, vs, true);
    PopThread(th, vs, false);
    CountBoth(TakenBy(th), vs, x);
  }

  lemma {:induction false} CountBoth(a: seq<Item>, b: seq<Item>, x: Item)
    ensures multiset(a + b)[x] == multiset(a)[x] + multiset(b)[x]
  {
  }

  lemma {:induction false} PushTaken(ths: seq<Thread>, t: nat, late: bool, x: Item)
    requires t < |ths| && ths[t].pc.Push?
    ensures AllTaken(ths[t := AfterPush(ths[t], late)], x) == AllTaken(ths, x)
    ensures AllLanded(ths[t := AfterPush(ths[t], late)], x) == AllLanded(ths, x) + multiset(ths[t].values)[x]
  {
    PushThread(ths[t], late);
    CountBoth(LandedBy(ths[t]), ths[t].values, x);
    TakenUpdate(ths, t, AfterPush(ths[t], late), x);
    LandedUpdate(ths, t, AfterPush(ths[t], late), x);
  }

  lemma {:induction false} PushLists(lists: seq<seq<Item>>, i: nat, vs: seq<Item>, x: Item)
    requires i < |lists|
    ensures InLists(lists[i := Lpush(lists[i], vs)], x) == InLists(lists, x) + multiset(vs)[x]
  {
    ListUpdate(lists, i, Lpush(lists[i], vs), x);
    LpushBag(lists[i], vs);
  }

  lemma {:induction false} PushEffect(c: Config, s: State, t: nat, s': State)
    requires c.Valid(s) && (PushSucceeds(c, s, t, s') || PushThrowsLate(c, s, t, s'))
    ensures t < |s.threads| && s.threads[t].pc.Push?
    ensures exists late :: s'.threads == s.threads[t := AfterPush(s.threads[t], late)]
    ensures var i := c.dst[c.Queue(t)]; s'.lists == s.lists[i := Lpush(s.lists[i], s.threads[t].values)]
  {
    if PushSucceeds(c, s, t, s') {
      assert s'.threads == s.threads[t := AfterPush(s.threads[t], false)];
    } else {
      assert s'.threads == s.threads[t := AfterPush(s.threads[t], true)];
    }
  }

  lemma {:induction false} PushAccounts(c: Config, s: State, t: nat, s': State, x: Item, initially: nat)
    requires c.Valid(s) && Accounted(s, x, initially)
    requires PushSucceeds(c, s, t, s') || PushThrowsLate(c, s, t, s')
    ensures Accounted(s', x, initially)
  {
    PushEffect(c, s, t, s');
    var late :| s'.threads == s.threads[t := AfterPush(s.threads[t], late)];
    PushTaken(s.threads, t, late, x);
    PushLists(s.lists, c.dst[c.Queue(t)], s.threads[t].values, x);
  }

  lemma {:induction false} IdleAccounts(s: State, t: nat, s': State, x: Item, initially: nat)
    requires LandsInPushOnly(s) && Accounted(s, x, initially) && (Test(s, t, s') || PopThrows(s, t, s'))
    ensures Accounted(s', x, initially)
  {
    TakenUpdate(s.threads, t, s'.threads[t], x);
    LandedUpdate(s.threads, t, s'.threads[t], x);
    assert InFlight(s'.threads[t]) == InFlight(s.threads[t]);
  }

  lemma {:induction false} StepAccounts(c: Config, s: State, s': State, x: Item, initially: nat)
    requires c.Valid(s) && Next(c, s, s') && LandsInPushOnly(s) && Accounted(s, x, initially)
    ensures Accounted(s', x, initially)
  {
    if t: nat :| PopSucceeds(c, s, t, s') || PopThrowsLate(c, s, t, s') {
      PopAccounts(c, s, t, s', x, initially);
    } else if t: nat :| PushSucceeds(c, s, t, s') || PushThrowsLate(c, s, t, s') {
      PushAccounts(c, s, t, s', x, initially);
    } else if t: nat :| Test(s, t, s') || PopThrows(s, t, s') {
      IdleAccounts(s, t, s', x, initially);
    }
  }

  lemma {:induction false} StepLandsInPush(c: Config, s: State, s': State)
    requires c.Valid(s) && Next(c, s, s') && LandsInPushOnly(s)
    ensures LandsInPushOnly(s')
  {
  }

  lemma {:induction false} EmptyLists(lists: seq<seq<Item>>, x: Item)
    requires forall i | 0 <= i < |lists| :: lists[i] == []
    ensures InLists(lists, x) == 0
  {
    if lists != [] {
      EmptyLists(lists[1..], x);
    }
  }

  lemma {:induction false} NothingAccounted(ths: seq<Thread>, x: Item)
    requires forall t | 0 <= t < |ths| :: ths[t] == Thread(Head, [], [], 0)
    ensures AllTaken(ths, x) == 0 == AllLanded(ths, x)
  {
    assert Repeat([], 0) == [];
    EmptyLists(Takes(ths), x);
    EmptyLists(Lands(ths), x);
  }

  lemma {:induction false} RunLandsInPush(c: Config, trace: seq<State>, i: nat)
    requires Run(c, trace) && i < |trace|
    ensures LandsInPushOnly(trace[i])
  {
    if i > 0 {
      RunLandsInPush(c, trace, i - 1);
      RunStep(c, trace, i - 1);
      StepLandsInPush(c, trace[i - 1], trace[i]);
    }
  }

  lemma {:induction false} RunAccounts(c: Config, trace: seq<State>, i: nat, x: Item, initially: nat)
    requires Run(c, trace) && i + 1 < |trace| && Accounted(trace[i], x, initially)
    ensures Accounted(trace[i + 1], x, initially)
  {
    RunStep(c, trace, i);
    RunLandsInPush(c, trace, i);
    StepAccounts(c, trace[i], trace[i + 1], x, initially);
  }

  /** Conservation with every kind of failure, any number of threads and shared keys: the lists hold what
      they held at the start, less the batches popped, plus each batch as often as it landed. Together
      with LostExactly: what is missing is exactly the batches whose pop failed late. */
  lemma {:induction false} EveryItemIsAccountedFor(c: Config, trace: seq<State>, i: nat, x: Item)
    requires Run(c, trace) && i < |trace|
    ensures Accounted(trace[i], x, InLists(trace[0].lists, x))
  {
    if i == 0 {
      NothingAccounted(trace[0].threads, x);
    } else {
      EveryItemIsAccountedFor(c, trace, i - 1, x);
      RunAccounts(c, trace, i - 1, x, InLists(trace[0].lists, x));
    }
  }

  // ---------------------------------------------------------------- atomic failures

  predicate LandedOnce(s: State) {
    forall t | 0 <= t < |s.threads| ::
      s.threads[t].landed == 0 && forall k | 0 <= k < |s.threads[t].done| :: s.threads[t].done[k].copies == 1
  }

  lemma {:induction false} AtomicLandsOnce(c: Config, trace: seq<State>, i: nat)
    requires AtomicRun(c, trace) && i < |trace|
    ensures LandedOnce(trace[i])
  {
    if i > 0 {
      AtomicLandsOnce(c, trace, i - 1);
    }
  }

  lemma {:induction false} LandedIsItems(bs: seq<Batch>)
    requires forall k | 0 <= k < |bs| :: bs[k].copies == 1
    ensures Landed(bs) == Items(bs)
  {
    if bs != [] {
      LandedIsItems(bs[..|bs| - 1]);
      var b := bs[|bs| - 1];
      assert Repeat(b.items, 1) == Repeat(b.items, 0) + b.items == b.items;
    }
  }

  /** With atomic failures the pop order of destination, batch in hand and source never changes. */
  lemma {:induction false} FifoExactlyOnce(c: Config, trace: seq<State>, i: nat, u: nat)
    requires AtomicRun(c, trace) && OneEach(c, trace[0]) && i < |trace| && u < |c.src|
    ensures OneEach(c, trace[i])
    ensures var s := trace[i];
            PopOrder(s.lists[c.dst[u]]) + InFlight(s.threads[u]) + PopOrder(s.lists[c.src[u]]) ==
            PopOrder(trace[0].lists[c.dst[u]]) + PopOrder(trace[0].lists[c.src[u]])
  {
    assert Run(c, trace);
    FifoAtLeastOnce(c, trace, i, u);
    AtomicLandsOnce(c, trace, i);
    var s, th := trace[i], trace[i].threads[u];
    LandedIsItems(th.done);
    var d0 := PopOrder(trace[0].lists[c.dst[u]]);
    assert d0 + Landed(th.done) + Repeat(InFlight(th), 0) == d0 + Items(th.done);
    Associative(d0, Items(th.done), InFlight(th));
    Associative(d0, Items(th.done) + InFlight(th), PopOrder(s.lists[c.src[u]]));
  }

  // ---------------------------------------------------------------- what can happen

  /** Any lists, any number of threads and any assignment of lists to queues can be the start of a run. */
  lemma {:induction false} AnyStart(c: Config, lists: seq<seq<Item>>, n: nat) returns (s: State)
    requires |c.src| == |c.dst| > 0
    requires forall q | 0 <= q < |c.src| :: c.src[q] < |lists| && c.dst[q] < |lists|
    ensures s.lists == lists && |s.threads| == n && !s.stop && AtomicRun(c, [s]) && Run(c, [s])
  {
    s := State(lists, seq(n, _ => Thread(Head, [], [], 0)), false, 0);
  }

  /** g_stop can be set at any time, and any pop and any push can fail, before or after taking effect; a
      push that has failed leaves the thread where it is, whatever g_stop says. */
  lemma {:induction false} AnythingCanFail(c: Config, s: State, t: nat)
    requires c.Valid(s) && t < |s.threads|
    ensures Next(c, s, s.(stop := true))
    ensures s.threads[t].pc.Push? ==> Next(c, s, s)
    ensures s.threads[t].pc.Pop? ==> Next(c, s, s.(threads := s.threads[t := s.threads[t].(pc := Head)]))
    ensures s.threads[t].pc.Pop? ==> exists s' :: Next(c, s, s') && PopThrowsLate(c, s, t, s')
    ensures s.threads[t].pc.Push? ==> exists s' :: Next(c, s, s') && PushThrowsLate(c, s, t, s')
  {
    var th := s.threads[t];
    if th.pc.Push? {
      assert PushThrows(s, t, s);
      var i := c.dst[c.Queue(t)];
      var s' := s.(lists := s.lists[i := Lpush(s.lists[i], th.values)],
                   threads := s.threads[t := th.(landed := th.landed + 1)]);
      assert PushThrowsLate(c, s, t, s');
    }
    if th.pc.Pop? {
      assert PopThrows(s, t, s.(threads := s.threads[t := th.(pc := Head)]));
      var i := c.src[c.Queue(t)];
      var vs := Taken(s.lists[i], c.Count());
      var s' := s.(lists := s.lists[i := Left(s.lists[i], c.Count())],
                   threads := s.threads[t := th.(pc := Head, done := th.done + [Batch(vs, 0)])]);
      assert PopThrowsLate(c, s, t, s');
    }
  }

  /** The first threads serve a queue each, and the others the same queues over and over. */
  lemma {:induction false} QueuesAreShared(c: Config, t: nat)
    requires |c.src| > 0
    ensures t < |c.src| ==> c.Queue(t) == t
    ensures t == t / |c.src| * |c.src| + c.Queue(t)
  {
  }

  // ---------------------------------------------------------------- stopping

  lemma {:induction false} StopStays(c: Config, s: State, s': State, t: nat)
    requires c.Valid(s) && Next(c, s, s') && t < |s.threads|
    ensures |s'.threads| == |s.threads| && (s.stop ==> s'.stop)
    ensures s'.threads[t].pc.Exited? ==> s.threads[t].pc.Exited? || s.stop
    ensures s.stop && s.threads[t].pc.Head? ==> s'.threads[t].pc.Head? || s'.threads[t].pc.Exited?
    ensures s.threads[t].pc.Exited? ==> s'.threads[t].pc.Exited?
  {
    SameThreads(c, s, s');
  }

  lemma {:induction false} ExitsWhenStopped(c: Config, trace: seq<State>, i: nat, t: nat)
    requires Run(c, trace) && i + 1 < |trace| && t < |trace[i + 1].threads| && trace[i + 1].threads[t].pc.Exited?
    ensures t < |trace[i].threads| && (trace[i].stop ==> trace[i + 1].stop)
    ensures trace[i].threads[t].pc.Exited? || trace[i].stop
  {
    RunStep(c, trace, i);
    SameThreads(c, trace[i], trace[i + 1]);
    StopStays(c, trace[i], trace[i + 1], t);
  }

  /** `while (!g_stop)`: in every run, a thread has left its loop only if g_stop is set. */
  lemma {:induction false} ExitedOnlyIfStopped(c: Config, trace: seq<State>, i: nat, t: nat)
    requires Run(c, trace) && i < |trace| && t < |trace[i].threads| && trace[i].threads[t].pc.Exited?
    ensures trace[i].stop
  {
    if i > 0 {
      ExitsWhenStopped(c, trace, i - 1, t);
      if trace[i - 1].threads[t].pc.Exited? {
        ExitedOnlyIfStopped(c, trace, i - 1, t);
      }
    }
  }

  /** And once it is set, no thread that is at the head of its loop pops again. */
  lemma {:induction false} NoPopAfterStop(c: Config, trace: seq<State>, i: nat, t: nat)
    requires Run(c, trace) && i + 1 < |trace| && t < |trace[i].threads|
    requires trace[i].stop && trace[i].threads[t].pc.Head?
    ensures t < |trace[i + 1].threads| && trace[i + 1].stop
    ensures trace[i + 1].threads[t].pc.Head? || trace[i + 1].threads[t].pc.Exited?
  {
    RunStep(c, trace, i);
    StopStays(c, trace[i], trace[i + 1], t);
  }

  // ---------------------------------------------------------------- progress

  /** A run of steps whose failures are atomic */
  ghost predicate Leads(c: Config, s: State, run: seq<State>, s': State) {
    && run != [] && run[0] == s && run[|run| - 1] == s'
    && forall i | 0 <= i < |run| - 1 :: c.Valid(run[i]) && Atomic(c, run[i], run[i + 1])
  }

  lemma {:induction false} OneStep(c: Config, s: State, s': State)
    requires c.Valid(s) && Atomic(c, s, s')
    ensures Leads(c, s, [s, s'], s')
  {
  }

  lemma {:induction false} Chain(c: Config, s: State, a: seq<State>, m: State, b: seq<State>, s': State)
    requires Leads(c, s, a, m) && Leads(c, m, b, s')
    ensures Leads(c, s, a + b[1..], s')
  {
    var run := a + b[1..];
    forall i | 0 <= i < |run| - 1 ensures c.Valid(run[i]) && Atomic(c, run[i], run[i + 1]) {
      if i < |a| - 1 {
        assert run[i] == a[i] && run[i + 1] == a[i + 1];
      } else {
        assert run[i] == b[i - |a| + 1] && run[i + 1] == b[i - |a| + 2];
      }
    }
  }

  lemma {:induction false} TestStep(c: Config, s: State, t: nat) returns (s': State)
    requires c.Valid(s) && t < |s.threads| && s.threads[t].pc.Head?
    ensures Atomic(c, s, s') && c.Valid(s') && |s'.threads| == |s.threads|
    ensures s'.lists == s.lists && s'.stop == s.stop && s'.threads[t].done == s.threads[t].done
    ensures s'.threads[t].pc == if s.stop then Exited else Pop
  {
    var th := s.threads[t];
    s' := s.(threads := s.threads[t := if s.stop then th.(pc := Exited) else th.(pc := Pop, values := [])]);
    assert Test(s, t, s');
  }

  lemma {:induction false} PopOnce(c: Config, s: State, t: nat) returns (s': State)
    requires c.Valid(s) && t < |s.threads| && s.threads[t].pc.Pop?
    ensures Atomic(c, s, s') && c.Valid(s') && |s'.threads| == |s.threads| && s'.stop == s.stop
    ensures var i := c.src[c.Queue(t)];
            && s'.lists == s.lists[i := Left(s.lists[i], c.Count())]
            && s'.threads[t].pc == (if s.lists[i] == [] then Head else Push)
            && s'.threads[t].done == s.threads[t].done
  {
    var i, th := c.src[c.Queue(t)], s.threads[t];
    var vs := Taken(s.lists[i], c.Count());
    s' := s.(lists := s.lists[i := Left(s.lists[i], c.Count())],
             threads := s.threads[t := th.(values := vs, pc := if vs == [] then Head else Push)]);
    assert PopSucceeds(c, s, t, s');
  }

  lemma {:induction false} PushOnce(c: Config, s: State, t: nat) returns (s': State)
    requires c.Valid(s) && t < |s.threads| && s.threads[t].pc.Push?
    ensures Atomic(c, s, s') && c.Valid(s') && |s'.threads| == |s.threads| && s'.stop == s.stop
    ensures var i, th := c.dst[c.Queue(t)], s.threads[t];
            && s'.lists == s.lists[i := Lpush(s.lists[i], th.values)]
            && s'.threads[t].pc == Head && s'.threads[t].done == th.done + [Batch(th.values, th.landed + 1)]
  {
    var i, th := c.dst[c.Queue(t)], s.threads[t];
    s' := s.(lists := s.lists[i := Lpush(s.lists[i], th.values)],
             threads := s.threads[t := Thread(Head, th.values, th.done + [Batch(th.values, th.landed + 1)], 0)],
             moved := s.moved + |th.values|);
    assert PushSucceeds(c, s, t, s');
  }

  /** A thread that has not exited can get back to the head of its loop, pushing what it holds. */
  lemma {:induction false} ReachesHead(c: Config, s: State, t: nat) returns (run: seq<State>, s': State)
    requires c.Valid(s) && t < |s.threads| && !s.threads[t].pc.Exited?
    ensures Leads(c, s, run, s') && c.Valid(s') && |s'.threads| == |s.threads| && s'.stop == s.stop
    ensures s'.threads[t].pc.Head? && s.threads[t].done <= s'.threads[t].done
    ensures var th := s.threads[t];
            th.pc.Push? ==> s'.threads[t].done == th.done + [Batch(th.values, th.landed + 1)]
  {
    if s.threads[t].pc.Head? {
      run, s' := [s], s;
    } else if s.threads[t].pc.Push? {
      s' := PushOnce(c, s, t);
      OneStep(c, s, s');
      run := [s, s'];
    } else {
      var s1 := PopOnce(c, s, t);
      OneStep(c, s, s1);
      if s1.threads[t].pc.Head? {
        run, s' := [s, s1], s1;
      } else {
        s' := PushOnce(c, s1, t);
        OneStep(c, s1, s');
        Chain(c, s, [s, s1], s1, [s1, s'], s');
        run := [s, s1] + [s1, s'][1..];
      }
    }
  }

  /** From every state in which g_stop is set, each thread can exit, after pushing what it holds. */
  lemma {:induction false} StoppedThreadCanExit(c: Config, s: State, t: nat) returns (run: seq<State>, s': State)
    requires c.Valid(s) && s.stop && t < |s.threads|
    ensures Leads(c, s, run, s') && t < |s'.threads| && s'.threads[t].pc.Exited?
    ensures var th := s.threads[t];
            th.pc.Push? ==> s'.threads[t].done == th.done + [Batch(th.values, th.landed + 1)]
  {
    if s.threads[t].pc.Exited? {
      run, s' := [s], s;
    } else {
      var s1;
      run, s1 := ReachesHead(c, s, t);
      s' := TestStep(c, s1, t);
      OneStep(c, s1, s');
      Chain(c, s, run, s1, [s1, s'], s');
      run := run + [s1, s'][1..];
    }
  }

  /** Thread u is at the head of its loop, and nothing has become longer in its source. */
  predicate AtHead(c: Config, s: State, u: nat, most: nat) {
    OneEach(c, s) && u < |c.src| && !s.stop && s.threads[u].pc.Head? && |s.lists[c.src[u]]| <= most
  }

  lemma {:induction false} ReachesHeadAlone(c: Config, s: State, u: nat) returns (run: seq<State>, s': State)
    requires OneEach(c, s) && u < |c.src| && !s.stop && !s.threads[u].pc.Exited?
    ensures Leads(c, s, run, s') && AtHead(c, s', u, |s.lists[c.src[u]]|)
    ensures s.threads[u].pc.Pop? && s.lists[c.src[u]] != [] ==> |s'.lists[c.src[u]]| < |s.lists[c.src[u]]|
  {
    OwnQueue(c, s, u);
    if s.threads[u].pc.Head? {
      run, s' := [s], s;
    } else if s.threads[u].pc.Push? {
      s' := PushOnce(c, s, u);
      OneStep(c, s, s');
      run := [s, s'];
    } else {
      var s1 := PopOnce(c, s, u);
      OneStep(c, s, s1);
      if s1.threads[u].pc.Head? {
        run, s' := [s, s1], s1;
      } else {
        s' := PushOnce(c, s1, u);
        OneStep(c, s1, s');
        Chain(c, s, [s, s1], s1, [s1, s'], s');
        run := [s, s1] + [s1, s'][1..];
      }
    }
  }

  lemma {:induction false} Round(c: Config, s: State, u: nat) returns (run: seq<State>, s': State)
    requires OneEach(c, s) && u < |c.src| && AtHead(c, s, u, |s.lists[c.src[u]]|) && s.lists[c.src[u]] != []
    ensures Leads(c, s, run, s') && AtHead(c, s', u, |s.lists[c.src[u]]| - 1)
  {
    var s1 := TestStep(c, s, u);
    OneStep(c, s, s1);
    run, s' := ReachesHeadAlone(c, s1, u);
    Chain(c, s, [s, s1], s1, run, s');
    run := [s, s1] + run[1..];
  }

  lemma {:induction false} Rounds(c: Config, s: State, u: nat) returns (run: seq<State>, s': State)
    requires OneEach(c, s) && u < |c.src| && AtHead(c, s, u, |s.lists[c.src[u]]|)
    ensures Leads(c, s, run, s') && AtHead(c, s', u, 0)
    decreases |s.lists[c.src[u]]|
  {
    if s.lists[c.src[u]] == [] {
      run, s' := [s], s;
    } else {
      var s1;
      run, s1 := Round(c, s, u);
      var run1;
      run1, s' := Rounds(c, s1, u);
      Chain(c, s, run, s1, run1, s');
      run := run + run1[1..];
    }
  }

  lemma {:induction false} ExtendedRun(c: Config, trace: seq<State>, i: nat, run: seq<State>, s': State)
    requires AtomicRun(c, trace) && i < |trace| && Leads(c, trace[i], run, s')
    ensures var longer := trace[..i + 1] + run[1..];
            AtomicRun(c, longer) && longer[0] == trace[0] && longer[|longer| - 1] == s'
  {
    var longer := trace[..i + 1] + run[1..];
    forall k | 0 <= k < |longer| - 1 ensures c.Valid(longer[k]) && Atomic(c, longer[k], longer[k + 1]) {
      if k < i {
        assert longer[k] == trace[k] && longer[k + 1] == trace[k + 1];
      } else {
        assert longer[k] == run[k - i] && longer[k + 1] == run[k - i + 1];
      }
    }
  }

  /** As long as g_stop is not set, finitely many steps empty any queue's source and leave in its
      destination, in pop order, what was there at the start and then what the source held. */
  lemma {:induction false} EverythingCanBeMoved(c: Config, trace: seq<State>, i: nat, u: nat)
    returns (run: seq<State>, s': State)
    requires AtomicRun(c, trace) && OneEach(c, trace[0]) && i < |trace| && u < |c.src| && !trace[i].stop
    ensures Leads(c, trace[i], run, s') && OneEach(c, s')
    ensures s'.lists[c.src[u]] == []
    ensures PopOrder(s'.lists[c.dst[u]]) == PopOrder(trace[0].lists[c.dst[u]]) + PopOrder(trace[0].lists[c.src[u]])
  {
    assert Run(c, trace);
    FifoAtLeastOnce(c, trace, i, u);
    if trace[i].threads[u].pc.Exited? {
      ExitedOnlyIfStopped(c, trace, i, u);
    }
    var run1, s1 := ReachesHeadAlone(c, trace[i], u);
    var run2;
    run2, s' := Rounds(c, s1, u);
    Chain(c, trace[i], run1, s1, run2, s');
    run := run1 + run2[1..];
    ExtendedRun(c, trace, i, run, s');
    var longer := trace[..i + 1] + run[1..];
    FifoExactlyOnce(c, longer, |longer| - 1, u);
    var d := PopOrder(s'.lists[c.dst[u]]);
    assert d + [] + [] == d && PopOrder([]) == [];
  }

  // ---------------------------------------------------------------- the size of a batch

  /** A pop takes as much as there is, up to `batch` items, or one item when `batch` is at most 1. */
  lemma {:induction false} PopTakesExactly(c: Config, s: State, t: nat, s': State)
    requires c.Valid(s) && (PopSucceeds(c, s, t, s') || PopThrowsLate(c, s, t, s'))
    ensures var there, most := |s.lists[c.src[c.Queue(t)]]|, if c.batch > 1 then c.batch else 1;
            var taken := if there < most then there else most;
            && (PopSucceeds(c, s, t, s') ==> |s'.threads[t].values| == taken)
            && (PopThrowsLate(c, s, t, s') ==> |s'.threads[t].done[|s.threads[t].done|].items| == taken)
  {
  }

  predicate BatchesFit(c: Config, th: Thread) {
    var most := if c.batch > 1 then c.batch else 1;
    && (th.pc.Push? ==> 0 < |th.values| <= most)
    && forall k | 0 <= k < |th.done| :: |th.done[k].items| <= most
  }

  lemma {:induction false} StepFits(c: Config, s: State, s': State, t: nat)
    requires c.Valid(s) && Next(c, s, s') && t < |s.threads| && BatchesFit(c, s.threads[t])
    ensures t < |s'.threads| && BatchesFit(c, s'.threads[t])
  {
  }

  /** So in every run no batch, in hand or done with, is larger. */
  lemma {:induction false} NoBatchIsLarger(c: Config, trace: seq<State>, i: nat, t: nat)
    requires Run(c, trace) && i < |trace| && t < |trace[i].threads|
    ensures BatchesFit(c, trace[i].threads[t])
  {
    if i > 0 {
      RunStep(c, trace, i - 1);
      SameThreads(c, trace[i - 1], trace[i]);
      NoBatchIsLarger(c, trace, i - 1, t);
      StepFits(c, trace[i - 1], trace[i], t);
    }
  }

  // ---------------------------------------------------------------- keys

  /** get_src_key and get_dst_key */
  function Key(onlyPrefix: int, prefix: string, queue: nat): string {
    if onlyPrefix == 1 then prefix else prefix + Decimal(queue)
  }

  /** The prefix, and behind it the number of the queue unless only the prefix is used */
  lemma {:induction false} KeySpells(onlyPrefix: int, prefix: string, queue: nat)
    ensures |prefix| <= |Key(onlyPrefix, prefix, queue)| && Key(onlyPrefix, prefix, queue)[..|prefix|] == prefix
    ensures var rest := Key(onlyPrefix, prefix, queue)[|prefix|..];
            if onlyPrefix == 1 then rest == [] else rest != [] && Number(rest) == queue
  {
    DecimalReads(queue);
    assert onlyPrefix != 1 ==> Key(onlyPrefix, prefix, queue)[|prefix|..] == Decimal(queue);
  }

  /** Two queues share a key iff they are one queue or only the prefix is used. */
  lemma {:induction false} KeysCollideExactly(onlyPrefix: int, prefix: string, p: nat, q: nat)
    ensures Key(onlyPrefix, prefix, p) == Key(onlyPrefix, prefix, q) <==> p == q || onlyPrefix == 1
  {
    if onlyPrefix != 1 && Key(onlyPrefix, prefix, p) == Key(onlyPrefix, prefix, q) {
      assert Decimal(p) == (prefix + Decimal(p))[|prefix|..];
      assert Decimal(q) == (prefix + Decimal(q))[|prefix|..];
      DecimalInjective(p, q);
    }
  }
}
