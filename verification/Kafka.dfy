/**
 Batches into Kafka (CRedis2kafkaMover::kafka_produce over CKafkaProducer) and out of it
 (CKafkaConsumer::consume_batch). What librdkafka answers is an arbitrary function of the call number,
 and for consume also of the timeout that it is given.
 */
module Kafka {
  import opened Decimals

  const NO_ERROR := 0
  const ERR_QUEUE_FULL := -184
  const ERR_TIMED_OUT := -185
  const ERR_PARTITION_EOF := -191

  // ---------------------------------------------------------------- partitions

  /** CStringUtils::hash. On a uint32_t, `h ^ (g >> 24) ^ g` for the top four bits g clears these and
      adds them, without carry, to the bits 4 to 7. */
  function Hash(key: string, h: nat := 0): nat {
    if key == [] then h else Hash(key[1..], HashStep(h, Code(key[0])))
  }

  function Code(c: char): (n: nat)
    ensures n < 128
  {
    c as int % 128
  }

  function HashStep(h: nat, c: nat): nat {
    var h1 := (16 * h + c) % 0x1_0000_0000;
    var top, low := h1 / 0x1000_0000, h1 % 0x1000_0000;
    var nibble := low / 16 % 16;
    low - 16 * nibble + 16 * Xor(nibble, top)
  }

  /** Exclusive or of two numbers below 16 */
  function Xor(a: nat, b: nat): nat {
    XorBit(a, b, 8) + XorBit(a, b, 4) + XorBit(a, b, 2) + XorBit(a, b, 1)
  }

  function XorBit(a: nat, b: nat, bit: nat): (n: nat)
    requires bit > 0
    ensures n == 0 || n == bit
  {
    if a / bit % 2 == b / bit % 2 then 0 else bit
  }

  /** Folding the top four bits back leaves them clear. */
  lemma {:induction false} HashStepFits(h: nat, c: nat)
    ensures HashStep(h, c) < 0x1000_0000
  {
    var low := (16 * h + c) % 0x1_0000_0000 % 0x1000_0000;
    LowFits(low);
  }

  lemma {:induction false} LowFits(low: nat)
    requires low < 0x1000_0000
    ensures 0 <= low - 16 * (low / 16 % 16) <= 0x1000_0000 - 256 + 15
  {
    var rest := low / 256;
    assert low == 256 * rest + 16 * (low / 16 % 16) + low % 16;
  }

  /** There are no more than 2^28 hash values. */
  lemma {:induction false} HashFits(key: string, h: nat)
    requires h < 0x1000_0000
    ensures Hash(key, h) < 0x1000_0000
  {
    if key != [] {
      HashStepFits(h, Code(key[0]));
      HashFits(key[1..], HashStep(h, Code(key[0])));
    }
  }

  /** While nothing reaches the top four bits, a step shifts by four bits and adds. */
  lemma {:induction false} PlainStep(h: nat, c: nat)
    requires 16 * h + c < 0x1000_0000
    ensures HashStep(h, c) == 16 * h + c
  {
    var h1 := 16 * h + c;
    SmallNumber(h1);
    XorZero(h1 / 16 % 16);
  }

  lemma {:induction false} SmallNumber(n: nat)
    requires n < 0x1000_0000
    ensures n % 0x1_0000_0000 == n && n / 0x1000_0000 == 0 && n % 0x1000_0000 == n
  {
  }

  lemma {:induction false} XorZero(a: nat)
    requires a < 16
    ensures Xor(a, 0) == a
  {
    assert a == a / 8 % 2 * 8 + a / 4 % 2 * 4 + a / 2 % 2 * 2 + a % 2;
  }

  /** The characters as the digits of a number to the base 16, each below 128 */
  function Polynomial(key: string): nat {
    if key == [] then 0 else 16 * Polynomial(key[..|key| - 1]) + Code(key[|key| - 1])
  }

  lemma {:induction false} HashAppend(key: string, c: char, h: nat)
    ensures Hash(key + [c], h) == HashStep(Hash(key, h), Code(c))
  {
    if key == [] {
      assert [c][1..] == [];
    } else {
      assert (key + [c])[1..] == key[1..] + [c];
      HashAppend(key[1..], c, HashStep(h, Code(key[0])));
    }
  }

  function Pow16(n: nat): nat {
    if n == 0 then 1 else 16 * Pow16(n - 1)
  }

  lemma {:induction false} PolynomialBound(key: string)
    ensures 15 * Polynomial(key) <= 127 * (Pow16(|key|) - 1)
  {
    if key != [] {
      PolynomialBound(key[..|key| - 1]);
    }
  }

  /** The hash of a key of at most six characters is that number, so all characters count. */
  lemma {:induction false} ShortHash(key: string)
    requires |key| <= 6
    ensures Hash(key) == Polynomial(key)
  {
    if key != [] {
      var front, c := key[..|key| - 1], key[|key| - 1];
      ShortHash(front);
      assert key == front + [c];
      HashAppend(front, c, 0);
      PolynomialBound(key);
      ShortPowers(|key|);
      PlainStep(Polynomial(front), Code(c));
    }
  }

  lemma {:induction false} ShortPowers(n: nat)
    requires n <= 6
    ensures Pow16(n) <= 0x100_0000
  {
    assert Pow16(6) == 16 * Pow16(5) && Pow16(5) == 16 * Pow16(4) && Pow16(4) == 16 * Pow16(3);
    assert Pow16(3) == 16 * Pow16(2) && Pow16(2) == 16 * Pow16(1) && Pow16(1) == 16;
  }

  /** So the partition of such a key is that number modulo the number of partitions. */
  lemma {:induction false} ShortPartition(key: string, count: nat)
    requires |key| <= 6 && count > 0
    ensures Partition(key, count) == Polynomial(key) % count
  {
    ShortHash(key);
  }

  /** DefPartitionerImpl::partitioner_cb */
  function Partition(key: string, count: nat): (p: nat)
    requires count > 0
    ensures p < count
  {
    Hash(key) % count
  }

  datatype Message = Message(key: string, log: string, partition: nat)

  /** The messages of some logs under one key: they all go to one partition */
  function Messages(key: string, logs: seq<string>, count: nat): (ms: seq<Message>)
    requires count > 0
    ensures |ms| == |logs|
    ensures forall i | 0 <= i < |ms| :: ms[i] == Message(key, logs[i], Partition(key, count))
  {
    seq(|logs|, i requires 0 <= i < |logs| => Message(key, logs[i], Partition(key, count)))
  }

  // ---------------------------------------------------------------- producing

  class CKafkaProducer {
    const partitions: nat
    /** what librdkafka says to the n-th message offered to it */
    const answer: nat -> int
    var offered: nat
    var queue: seq<Message>

    ghost predicate Valid() {
      partitions > 0
    }

    constructor (partitions: nat, answer: nat -> int)
      requires partitions > 0
      ensures Valid() && this.partitions == partitions && this.answer == answer && offered == 0 && queue == []
    {
      this.partitions := partitions;
      this.answer := answer;
      offered := 0;
      queue := [];
    }

    /** RdKafka::Producer::produce: enqueued exactly when it answers ERR_NO_ERROR */
    method Enqueue(key: string, log: string) returns (err: int)
      requires Valid()
      modifies this
      ensures err == answer(old(offered)) && offered == old(offered) + 1
      ensures queue ==
              old(queue) + if err == NO_ERROR then [Message(key, log, Partition(key, partitions))] else []
    {
      err := answer(offered);
      offered := offered + 1;
      if err == NO_ERROR {
        queue := queue + [Message(key, log, Partition(key, partitions))];
      }
    }

    method Produce(key: string, log: string) returns (ok: bool, errcode: int)
      requires Valid()
      modifies this
      ensures errcode == answer(old(offered)) && ok == (errcode == NO_ERROR) && offered == old(offered) + 1
      ensures queue == old(queue) + if ok then Messages(key, [log], partitions) else []
    {
      errcode := Enqueue(key, log);
      ok := errcode == NO_ERROR;
      assert Messages(key, [log], partitions) == [Message(key, log, Partition(key, partitions))];
    }

    /** Enqueues the longest prefix that librdkafka takes, and reports the refusal that ended it. */
    method ProduceBatch(key: string, logs: seq<string>) returns (num_logs: nat, errcode: int)
      requires Valid()
      modifies this
      ensures num_logs <= |logs|
      ensures forall k: nat | old(offered) <= k < old(offered) + num_logs :: answer(k) == NO_ERROR
      ensures errcode == if num_logs == |logs| then NO_ERROR else answer(old(offered) + num_logs)
      ensures num_logs < |logs| ==> errcode != NO_ERROR
      ensures offered == old(offered) + num_logs + if num_logs < |logs| then 1 else 0
      ensures queue == old(queue) + Messages(key, logs[..num_logs], partitions)
    {
      num_logs := 0;
      errcode := NO_ERROR;
      for i := 0 to |logs|
        invariant num_logs == i && errcode == NO_ERROR && offered == old(offered) + i
        invariant forall k: nat | old(offered) <= k < old(offered) + i :: answer(k) == NO_ERROR
        invariant queue == old(queue) + Messages(key, logs[..i], partitions)
      {
        var err := Enqueue(key, logs[i]);
        if err == NO_ERROR {
          num_logs := num_logs + 1;
          assert Messages(key, logs[..i + 1], partitions) ==
                 Messages(key, logs[..i], partitions) + [Message(key, logs[i], Partition(key, partitions))];
        } else {
          errcode := err;
          break;
        }
      }
    }
  }

  /** What the refused attempts of one batch left in the queue: a prefix each */
  function Prefixes(logs: seq<string>, attempts: seq<nat>): seq<string>
    requires forall k | 0 <= k < |attempts| :: attempts[k] < |logs|
  {
    if attempts == [] then []
    else Prefixes(logs, attempts[..|attempts| - 1]) + logs[..attempts[|attempts| - 1]]
  }

  /** What a batch left in the queue altogether */
  function Enqueued(logs: seq<string>, attempts: seq<nat>, ok: bool): seq<string>
    requires forall k | 0 <= k < |attempts| :: attempts[k] < |logs|
  {
    if ok then Prefixes(logs, attempts) + logs else Prefixes(logs, attempts)
  }

  /** How often the log at position i was enqueued */
  function Copies(i: nat, attempts: seq<nat>, ok: bool): nat {
    if attempts == [] then (if ok then 1 else 0)
    else Copies(i, attempts[..|attempts| - 1], ok) + if attempts[|attempts| - 1] > i then 1 else 0
  }

  /** How often x was enqueued, summed over its positions before n in the batch */
  function CopiesOf(x: string, logs: seq<string>, n: nat, attempts: seq<nat>, ok: bool): nat
    requires n <= |logs|
  {
    if n == 0 then 0
    else CopiesOf(x, logs, n - 1, attempts, ok) + if logs[n - 1] == x then Copies(n - 1, attempts, ok) else 0
  }

  lemma {:induction false} NextLog(x: string, logs: seq<string>, n: nat)
    requires 0 < n <= |logs|
    ensures multiset(logs[..n])[x] == multiset(logs[..n - 1])[x] + if logs[n - 1] == x then 1 else 0
  {
    assert logs[..n] == logs[..n - 1] + [logs[n - 1]];
  }

  lemma {:induction false} CopiesOfAccepted(x: string, logs: seq<string>, n: nat, ok: bool)
    requires n <= |logs|
    ensures CopiesOf(x, logs, n, [], ok) == if ok then multiset(logs[..n])[x] else 0
  {
    if n > 0 {
      CopiesOfAccepted(x, logs, n - 1, ok);
      NextLog(x, logs, n);
    }
  }

  lemma {:induction false} CopiesOfAttempt(x: string, logs: seq<string>, n: nat, attempts: seq<nat>, ok: bool)
    requires n <= |logs| && attempts != []
    ensures var a := attempts[|attempts| - 1];
            CopiesOf(x, logs, n, attempts, ok) ==
            CopiesOf(x, logs, n, attempts[..|attempts| - 1], ok) + multiset(logs[..if a < n then a else n])[x]
  {
    if n > 0 {
      CopiesOfAttempt(x, logs, n - 1, attempts, ok);
      NextLog(x, logs, n);
    }
  }

  /** What a batch put into the queue holds each log as often as Copies says. */
  lemma {:induction false} EnqueuedCopies(x: string, logs: seq<string>, attempts: seq<nat>, ok: bool)
    requires forall k | 0 <= k < |attempts| :: attempts[k] < |logs|
    ensures multiset(Enqueued(logs, attempts, ok))[x] == CopiesOf(x, logs, |logs|, attempts, ok)
    decreases attempts
  {
    if attempts == [] {
      CopiesOfAccepted(x, logs, |logs|, ok);
      assert logs[..|logs|] == logs;
    } else {
      EnqueuedCopies(x, logs, attempts[..|attempts| - 1], ok);
      CopiesOfAttempt(x, logs, |logs|, attempts, ok);
    }
  }

  lemma {:induction false} MessagesConcat(q0: seq<Message>, key: string, a: seq<string>, b: seq<string>, count: nat)
    requires count > 0
    ensures (q0 + Messages(key, a, count)) + Messages(key, b, count) == q0 + Messages(key, a + b, count)
  {
    assert Messages(key, a + b, count) == Messages(key, a, count) + Messages(key, b, count);
    Regroup(q0, Messages(key, a, count), Messages(key, b, count));
  }

  lemma {:induction false} Regroup(a: seq<Message>, b: seq<Message>, c: seq<Message>)
    ensures (a + b) + c == a + (b + c)
  {
  }

  /** A further attempt appends the prefix that it got through, under the same key. */
  lemma {:induction false} AttemptLands(q0: seq<Message>, key: string, logs: seq<string>, attempts: seq<nat>,
                                        taken: nat, count: nat)
    requires count > 0 && taken <= |logs| && forall k | 0 <= k < |attempts| :: attempts[k] < |logs|
    ensures (q0 + Messages(key, Prefixes(logs, attempts), count)) + Messages(key, logs[..taken], count) ==
            q0 + Messages(key,
                          if taken < |logs| then Prefixes(logs, attempts + [taken]) else Enqueued(logs, attempts, true),
                          count)
  {
    MessagesConcat(q0, key, Prefixes(logs, attempts), logs[..taken], count);
    if taken < |logs| {
      PrefixesAppend(logs, attempts, taken);
    } else {
      assert logs[..taken] == logs;
    }
  }

  lemma {:induction false} PrefixesAppend(logs: seq<string>, attempts: seq<nat>, a: nat)
    requires a < |logs| && forall k | 0 <= k < |attempts| :: attempts[k] < |logs|
    ensures Prefixes(logs, attempts + [a]) == Prefixes(logs, attempts) + logs[..a]
  {
    assert (attempts + [a])[..|attempts|] == attempts;
  }

  /** Earlier logs are enqueued at least as often as later ones; the last one is enqueued once if the
      batch was accepted and never otherwise, so it is never duplicated. */
  lemma {:induction false} LastLogIffAccepted(logs: seq<string>, attempts: seq<nat>, ok: bool, i: nat, j: nat)
    requires i <= j < |logs| && forall k | 0 <= k < |attempts| :: attempts[k] < |logs|
    ensures Copies(|logs| - 1, attempts, ok) == if ok then 1 else 0
    ensures Copies(i, attempts, ok) >= Copies(j, attempts, ok) >= if ok then 1 else 0
  {
    if attempts != [] {
      LastLogIffAccepted(logs, attempts[..|attempts| - 1], ok, i, j);
    }
  }

  // ---------------------------------------------------------------- the retry loop on answers alone

  /** How many of n messages in a row are taken, from the from-th offer on */
  function Accepted(answer: nat -> int, from: nat, n: nat): (k: nat)
    ensures k <= n
    ensures forall j: nat | from <= j < from + k :: answer(j) == NO_ERROR
    ensures k < n ==> answer(from + k) != NO_ERROR
    decreases n
  {
    if n == 0 || answer(from) != NO_ERROR then 0 else Accepted(answer, from + 1, n - 1) + 1
  }

  lemma {:induction false} AcceptedIs(answer: nat -> int, from: nat, n: nat, k: nat)
    requires k <= n && (forall j: nat | from <= j < from + k :: answer(j) == NO_ERROR)
    requires k < n ==> answer(from + k) != NO_ERROR
    ensures Accepted(answer, from, n) == k
  {
    var a := Accepted(answer, from, n);
  }

  /** How a batch ends: the prefixes that refused attempts enqueued, and the last errcode unless the
      patience ran out first */
  datatype Ending = Ending(attempts: seq<nat>, finished: bool, errcode: int) {
    predicate Ok() {
      finished && errcode == NO_ERROR
    }

    /** Refused attempts, if any, enqueued nothing. */
    predicate Once() {
      Ok() && forall k | 0 <= k < |attempts| :: attempts[k] == 0
    }
  }

  /** What kafka_produce does with a batch of n logs */
  function Retry(answer: nat -> int, from: nat, n: nat, patience: nat): (e: Ending)
    requires n > 0
    ensures |e.attempts| <= patience && forall k | 0 <= k < |e.attempts| :: e.attempts[k] < n
    decreases patience
  {
    if patience == 0 then Ending([], false, ERR_QUEUE_FULL)
    else
      var k := Accepted(answer, from, n);
      if k == n then Ending([], true, NO_ERROR)
      else if answer(from + k) != ERR_QUEUE_FULL then Ending([k], true, answer(from + k))
      else
        var later := Retry(answer, from + k + 1, n, patience - 1);
        later.(attempts := [k] + later.attempts)
  }

  /** The first log is refused with QUEUE_FULL `full` times, and then the whole batch is taken. */
  predicate FullThenTaken(answer: nat -> int, from: nat, n: nat, full: nat) {
    && (forall j: nat | from <= j < from + full :: answer(j) == ERR_QUEUE_FULL)
    && (forall j: nat | from + full <= j < from + full + n :: answer(j) == NO_ERROR)
  }

  ghost predicate TakenAtOnce(answer: nat -> int, from: nat, n: nat, patience: nat) {
    exists full: nat :: full < patience && FullThenTaken(answer, from, n, full)
  }

  /** A batch is enqueued exactly once iff it is refused, if at all, only at its first log and only with
      QUEUE_FULL, and then taken whole. */
  lemma {:induction false} OnceIffTakenAtOnce(answer: nat -> int, from: nat, n: nat, patience: nat)
    requires n > 0
    ensures Retry(answer, from, n, patience).Once() <==> TakenAtOnce(answer, from, n, patience)
    decreases patience
  {
    if patience > 0 {
      var k := Accepted(answer, from, n);
      if Retry(answer, from, n, patience).Once() {
        OnceIsTaken(answer, from, n, patience);
      }
      if full: nat :| full < patience && FullThenTaken(answer, from, n, full) {
        TakenIsOnce(answer, from, n, patience, full);
      }
    }
  }

  lemma {:induction false} LaterOnce(k: nat, later: Ending)
    ensures later.(attempts := [k] + later.attempts).Once() <==> k == 0 && later.Once()
  {
    var e := later.(attempts := [k] + later.attempts);
    assert e.attempts[0] == k && forall j | 0 <= j < |later.attempts| :: later.attempts[j] == e.attempts[j + 1];
  }

  /** The first attempt of a batch that is enqueued once: it takes all, or it is refused at the first log. */
  lemma {:induction false} OnceTurn(answer: nat -> int, from: nat, n: nat, patience: nat)
    requires n > 0 && Retry(answer, from, n, patience).Once()
    ensures patience > 0
    ensures var k := Accepted(answer, from, n);
            || k == n
            || (k == 0 && answer(from) == ERR_QUEUE_FULL && Retry(answer, from + 1, n, patience - 1).Once())
  {
    var k := Accepted(answer, from, n);
    if k < n && answer(from + k) == ERR_QUEUE_FULL {
      LaterOnce(k, Retry(answer, from + k + 1, n, patience - 1));
    }
  }

  lemma {:induction false} OneMoreFull(answer: nat -> int, from: nat, n: nat, full: nat)
    requires answer(from) == ERR_QUEUE_FULL && FullThenTaken(answer, from + 1, n, full)
    ensures FullThenTaken(answer, from, n, full + 1)
  {
  }

  lemma {:induction false} OnceIsTaken(answer: nat -> int, from: nat, n: nat, patience: nat)
    requires n > 0 && Retry(answer, from, n, patience).Once()
    ensures TakenAtOnce(answer, from, n, patience)
    decreases patience
  {
    OnceTurn(answer, from, n, patience);
    if Accepted(answer, from, n) == n {
      assert FullThenTaken(answer, from, n, 0);
    } else {
      OnceIsTaken(answer, from + 1, n, patience - 1);
      var full: nat :| full < patience - 1 && FullThenTaken(answer, from + 1, n, full);
      OneMoreFull(answer, from, n, full);
    }
  }

  lemma {:induction false} TakenIsOnce(answer: nat -> int, from: nat, n: nat, patience: nat, full: nat)
    requires n > 0 && full < patience && FullThenTaken(answer, from, n, full)
    ensures Retry(answer, from, n, patience).Once()
    decreases patience
  {
    if full == 0 {
      AcceptedIs(answer, from, n, n);
    } else {
      AcceptedIs(answer, from, n, 0);
      TakenIsOnce(answer, from + 1, n, patience - 1, full - 1);
    }
  }

  predicate EachOnce(n: nat, attempts: seq<nat>, ok: bool) {
    forall i: nat | i < n :: Copies(i, attempts, ok) == 1
  }

  /** Each log is enqueued exactly once iff the batch was accepted and no refused attempt got anywhere. */
  lemma {:induction false} OnceExactly(n: nat, attempts: seq<nat>, ok: bool)
    requires n > 0 && forall k | 0 <= k < |attempts| :: attempts[k] < n
    ensures EachOnce(n, attempts, ok) <==> ok && forall k | 0 <= k < |attempts| :: attempts[k] == 0
  {
    FirstAndLast(n, attempts, ok);
    if ok && forall k | 0 <= k < |attempts| :: attempts[k] == 0 {
      forall i: nat | i < n ensures Copies(i, attempts, ok) == 1 {
        NothingRepeated(i, attempts);
      }
    } else {
      assert Copies(0, attempts, ok) != 1 || Copies(n - 1, attempts, ok) != 1;
    }
  }

  lemma {:induction false} NothingRepeated(i: nat, attempts: seq<nat>)
    requires forall k | 0 <= k < |attempts| :: attempts[k] == 0
    ensures Copies(i, attempts, true) == 1
  {
    if attempts != [] {
      NothingRepeated(i, attempts[..|attempts| - 1]);
    }
  }

  lemma {:induction false} FirstAndLast(n: nat, attempts: seq<nat>, ok: bool)
    requires n > 0 && forall k | 0 <= k < |attempts| :: attempts[k] < n
    ensures Copies(n - 1, attempts, ok) == if ok then 1 else 0
    ensures Copies(0, attempts, ok) >= if ok then 1 else 0
    ensures (exists k | 0 <= k < |attempts| :: attempts[k] > 0) ==> Copies(0, attempts, ok) > if ok then 1 else 0
  {
    if attempts != [] {
      FirstAndLast(n, attempts[..|attempts| - 1], ok);
    }
  }

  /** A log is enqueued at all iff the batch was accepted or some attempt got beyond it. The others are
      lost: the batch has already been popped. */
  lemma {:induction false} KeptExactly(i: nat, attempts: seq<nat>, ok: bool)
    ensures Copies(i, attempts, ok) >= 1 <==> ok || exists k | 0 <= k < |attempts| :: attempts[k] > i
  {
    if attempts != [] {
      var earlier, last := attempts[..|attempts| - 1], attempts[|attempts| - 1];
      KeptExactly(i, earlier, ok);
      if k :| 0 <= k < |attempts| && attempts[k] > i {
        assert k < |earlier| ==> earlier[k] > i;
      }
    }
  }

  /** Two logs, and an answer other than QUEUE_FULL to the second: it is lost, and the first is kept. */
  lemma {:induction false} RefusedLogIsLost(answer: nat -> int, a: string, b: string, patience: nat)
    requires answer(0) == NO_ERROR && answer(1) != NO_ERROR && answer(1) != ERR_QUEUE_FULL && patience > 0
    ensures Retry(answer, 0, 2, patience) == Ending([1], true, answer(1))
    ensures Enqueued([a, b], [1], false) == [a]
    ensures Copies(1, [1], false) == 0
  {
    AcceptedIs(answer, 0, 2, 1);
    PrefixesAppend([a, b], [], 1);
    assert [] + [1] == [1] && [a, b][..1] == [a];
  }

  /** Two logs, and a queue that is full when the second is offered: the first is enqueued twice. */
  lemma {:induction false} RefusedBatchRepeatsItsPrefix(answer: nat -> int, a: string, b: string)
    requires answer(0) == NO_ERROR && answer(1) == ERR_QUEUE_FULL && answer(2) == answer(3) == NO_ERROR
    ensures Retry(answer, 0, 2, 2) == Ending([1], true, NO_ERROR)
    ensures Prefixes([a, b], [1]) + [a, b] == [a, a, b]
  {
    AcceptedIs(answer, 0, 2, 1);
    AcceptedIs(answer, 2, 2, 2);
    assert Retry(answer, 2, 2, 1) == Ending([], true, NO_ERROR);
    assert [1][..0] == [];
  }

  // ---------------------------------------------------------------- the retry loop

  /** The same with the refused attempts so far handed on, as the loop does */
  function RetryOn(answer: nat -> int, from: nat, n: nat, patience: nat, attempts: seq<nat>): Ending
    requires n > 0
    decreases patience
  {
    if patience == 0 then Ending(attempts, false, ERR_QUEUE_FULL)
    else
      var k := Accepted(answer, from, n);
      if k == n then Ending(attempts, true, NO_ERROR)
      else if answer(from + k) != ERR_QUEUE_FULL then Ending(attempts + [k], true, answer(from + k))
      else RetryOn(answer, from + k + 1, n, patience - 1, attempts + [k])
  }

  lemma {:induction false} Handed(attempts: seq<nat>, k: nat, later: Ending)
    ensures later.(attempts := (attempts + [k]) + later.attempts) ==
            var e := later.(attempts := [k] + later.attempts); e.(attempts := attempts + e.attempts)
  {
    assert attempts + ([k] + later.attempts) == (attempts + [k]) + later.attempts;
  }

  lemma {:induction false} RetryOnIsRetry(answer: nat -> int, from: nat, n: nat, patience: nat, attempts: seq<nat>)
    requires n > 0
    ensures var e := Retry(answer, from, n, patience);
            RetryOn(answer, from, n, patience, attempts) == e.(attempts := attempts + e.attempts)
    decreases patience
  {
    assert attempts + [] == attempts;
    if patience > 0 {
      var k := Accepted(answer, from, n);
      if k < n && answer(from + k) == ERR_QUEUE_FULL {
        RetryOnIsRetry(answer, from + k + 1, n, patience - 1, attempts + [k]);
        Handed(attempts, k, Retry(answer, from + k + 1, n, patience - 1));
      }
    }
  }

  /** One call of kafka_produce: librdkafka's answers, the queue at the start, and how it will end */
  datatype Job = Job(answer: nat -> int, logs: seq<string>, patience: nat, key: string, count: nat,
                     queue: seq<Message>, ending: Ending)

  predicate GoodJob(j: Job) {
    j.logs != [] && j.count > 0
  }

  /** What remains of the job once `attempts` have been refused: at most `left` further ones */
  ghost predicate Trying(j: Job, attempts: seq<nat>, offered: nat, left: nat)
    requires GoodJob(j)
  {
    && |attempts| + left == j.patience
    && j.ending == RetryOn(j.answer, offered, |j.logs|, left, attempts)
  }

  /** What the job has put into the queue by then */
  predicate Landed(j: Job, attempts: seq<nat>, ok: bool, queue: seq<Message>)
    requires GoodJob(j)
  {
    && (forall k | 0 <= k < |attempts| :: attempts[k] < |j.logs|)
    && queue == j.queue + Messages(j.key, Enqueued(j.logs, attempts, ok), j.count)
  }

  lemma {:induction false} FirstTry(j: Job, from: nat)
    requires GoodJob(j) && j.ending == Retry(j.answer, from, |j.logs|, j.patience)
    ensures Trying(j, [], from, j.patience) && Landed(j, [], false, j.queue)
  {
    RetryOnIsRetry(j.answer, from, |j.logs|, j.patience, []);
    assert [] + j.ending.attempts == j.ending.attempts;
  }

  lemma {:induction false} NextTry(j: Job, attempts: seq<nat>, offered: nat, left: nat, taken: nat)
    requires GoodJob(j) && Trying(j, attempts, offered, left) && left > 0
    requires taken == Accepted(j.answer, offered, |j.logs|)
    ensures taken == |j.logs| ==> j.ending == Ending(attempts, true, NO_ERROR)
    ensures taken < |j.logs| && j.answer(offered + taken) == ERR_QUEUE_FULL ==>
              Trying(j, attempts + [taken], offered + taken + 1, left - 1)
    ensures taken < |j.logs| && j.answer(offered + taken) != ERR_QUEUE_FULL ==>
              j.ending == Ending(attempts + [taken], true, j.answer(offered + taken))
  {
  }

  lemma {:induction false} NextLands(j: Job, attempts: seq<nat>, queue: seq<Message>, taken: nat)
    requires GoodJob(j) && Landed(j, attempts, false, queue) && taken <= |j.logs|
    ensures var queue' := queue + Messages(j.key, j.logs[..taken], j.count);
            if taken == |j.logs| then Landed(j, attempts, true, queue')
            else Landed(j, attempts + [taken], false, queue')
  {
    AttemptLands(j.queue, j.key, j.logs, attempts, taken, j.count);
  }

  /** What the answers to one attempt make of its job */
  lemma {:induction false} Tried(j: Job, attempts: seq<nat>, offered: nat, left: nat, queue: seq<Message>,
                                 taken: nat, errcode: int)
    requires GoodJob(j) && Trying(j, attempts, offered, left) && left > 0 && Landed(j, attempts, false, queue)
    requires taken == Accepted(j.answer, offered, |j.logs|)
    requires errcode == if taken == |j.logs| then NO_ERROR else j.answer(offered + taken)
    ensures var queue' := queue + Messages(j.key, j.logs[..taken], j.count);
            && (errcode == NO_ERROR ==>
                  j.ending == Ending(attempts, true, NO_ERROR) && Landed(j, attempts, true, queue'))
            && (errcode != NO_ERROR ==> Landed(j, attempts + [taken], false, queue'))
            && (errcode == ERR_QUEUE_FULL ==> Trying(j, attempts + [taken], offered + taken + 1, left - 1))
            && (errcode != NO_ERROR && errcode != ERR_QUEUE_FULL ==>
                  j.ending == Ending(attempts + [taken], true, errcode))
  {
    NextTry(j, attempts, offered, left, taken);
    NextLands(j, attempts, queue, taken);
  }

  lemma {:induction false} LastTry(j: Job, attempts: seq<nat>, offered: nat)
    requires GoodJob(j) && Trying(j, attempts, offered, 0)
    ensures j.ending == Ending(attempts, false, ERR_QUEUE_FULL)
  {
  }

  lemma {:induction false} EachOnceIffTakenAtOnce(answer: nat -> int, from: nat, n: nat, patience: nat, e: Ending)
    requires n > 0 && e == Retry(answer, from, n, patience)
    ensures EachOnce(n, e.attempts, e.Ok()) <==> TakenAtOnce(answer, from, n, patience)
  {
    OnceExactly(n, e.attempts, e.Ok());
    OnceIffTakenAtOnce(answer, from, n, patience);
  }

  class CRedis2kafkaMover {
    const producer: CKafkaProducer
    var kafka_key: nat  // uint32_t
    var pop_number: nat
    var produce_number: nat
    var kafka_error_number: nat

    ghost predicate Valid() {
      producer.Valid()
    }

    constructor (producer: CKafkaProducer)
      requires producer.Valid()
      ensures Valid() && this.producer == producer && kafka_key == 0
      ensures pop_number == 0 && produce_number == 0 && kafka_error_number == 0
    {
      this.producer := producer;
      kafka_key, pop_number, produce_number, kafka_error_number := 0, 0, 0, 0;
    }

    /** One turn of the retry loop: a single log goes through produce, several through produce_batch */
    method Attempt(key: string, logs: seq<string>) returns (taken: nat, errcode: int)
      requires Valid() && logs != []
      modifies producer
      ensures taken == Accepted(producer.answer, old(producer.offered), |logs|)
      ensures errcode == if taken == |logs| then NO_ERROR else producer.answer(old(producer.offered) + taken)
      ensures producer.offered == old(producer.offered) + taken + if taken < |logs| then 1 else 0
      ensures producer.queue == old(producer.queue) + Messages(key, logs[..taken], producer.partitions)
    {
      if |logs| == 1 {
        var ok;
        ok, errcode := producer.Produce(key, logs[0]);
        taken := if ok then 1 else 0;
        assert logs[..taken] == if ok then [logs[0]] else [];
      } else {
        taken, errcode := producer.ProduceBatch(key, logs);
      }
      AcceptedIs(producer.answer, old(producer.offered), |logs|, taken);
    }

    /** An attempt as a step of its job */
    method Try(ghost j: Job, ghost attempts: seq<nat>, ghost left: nat, key: string, logs: seq<string>)
      returns (taken: nat, errcode: int)
      requires Valid() && GoodJob(j) && j.logs == logs && j.key == key
      requires j.answer == producer.answer && j.count == producer.partitions
      requires Trying(j, attempts, producer.offered, left) && left > 0 && Landed(j, attempts, false, producer.queue)
      modifies producer
      ensures errcode == NO_ERROR ==>
                j.ending == Ending(attempts, true, NO_ERROR) && Landed(j, attempts, true, producer.queue)
      ensures errcode != NO_ERROR ==> Landed(j, attempts + [taken], false, producer.queue)
      ensures errcode == ERR_QUEUE_FULL ==> Trying(j, attempts + [taken], producer.offered, left - 1)
      ensures errcode != NO_ERROR && errcode != ERR_QUEUE_FULL ==>
                j.ending == Ending(attempts + [taken], true, errcode)
    {
      ghost var offered, queue := producer.offered, producer.queue;
      taken, errcode := Attempt(key, logs);
      Tried(j, attempts, offered, left, queue, taken, errcode);
    }

    /** kafka_produce, followed for at most `patience` attempts, since a queue that stays full is
        retried for ever. `attempts` are the lengths of the prefixes that refused attempts enqueued. */
    method KafkaProduce(logs: seq<string>, patience: nat) returns (finished: bool, errcode: int, attempts: seq<nat>)
      requires Valid() && logs != []
      modifies this, producer
      ensures Ending(attempts, finished, errcode) == Retry(producer.answer, old(producer.offered), |logs|, patience)
      ensures forall k | 0 <= k < |attempts| :: attempts[k] < |logs|
      ensures var accepted := finished && errcode == NO_ERROR;
              && producer.queue == old(producer.queue) +
                   Messages(Decimal(old(kafka_key)), Enqueued(logs, attempts, accepted), producer.partitions)
              && produce_number == old(produce_number) + (if accepted then |logs| else 0)
              && (EachOnce(|logs|, attempts, accepted) <==>
                    TakenAtOnce(producer.answer, old(producer.offered), |logs|, patience))
      ensures pop_number == old(pop_number) + |logs| && kafka_error_number == old(kafka_error_number) + |attempts|
      ensures kafka_key == (old(kafka_key) + 1) % 0x1_0000_0000
      ensures finished ==> errcode != ERR_QUEUE_FULL
      ensures !finished ==> |attempts| == patience
    {
      var key := Decimal(kafka_key);
      kafka_key := (kafka_key + 1) % 0x1_0000_0000;
      pop_number := pop_number + |logs|;
      ghost var from, ending := producer.offered, Retry(producer.answer, producer.offered, |logs|, patience);
      ghost var j := Job(producer.answer, logs, patience, key, producer.partitions, producer.queue, ending);
      FirstTry(j, from);
      finished, errcode, attempts := TryUntilTaken(j, key, logs, patience);
      EachOnceIffTakenAtOnce(producer.answer, from, |logs|, patience, ending);
    }

    /** Its loop: `while (true)`, for as long as the queue is full */
    method TryUntilTaken(ghost j: Job, key: string, logs: seq<string>, patience: nat)
      returns (finished: bool, errcode: int, attempts: seq<nat>)
      requires Valid() && GoodJob(j) && j.logs == logs && j.key == key && j.patience == patience
      requires j.answer == producer.answer && j.count == producer.partitions
      requires Trying(j, [], producer.offered, patience) && Landed(j, [], false, producer.queue)
      modifies this`produce_number, this`kafka_error_number, producer
      ensures j.ending == Ending(attempts, finished, errcode) && Landed(j, attempts, j.ending.Ok(), producer.queue)
      ensures produce_number == old(produce_number) + (if finished && errcode == NO_ERROR then |logs| else 0)
      ensures kafka_error_number == old(kafka_error_number) + |attempts|
      ensures if finished then errcode != ERR_QUEUE_FULL else |attempts| == patience
    {
      finished, errcode, attempts := false, ERR_QUEUE_FULL, [];
      ghost var left: nat := patience;
      while |attempts| < patience
        invariant !finished && errcode == ERR_QUEUE_FULL
        invariant Trying(j, attempts, producer.offered, left) && Landed(j, attempts, false, producer.queue)
        invariant kafka_error_number == old(kafka_error_number) + |attempts| && produce_number == old(produce_number)
        decreases patience - |attempts|
      {
        var taken;
        taken, errcode := Try(j, attempts, left, key, logs);
        if errcode == NO_ERROR {
          produce_number := produce_number + |logs|;
          finished := true;
          break;
        }
        kafka_error_number := kafka_error_number + 1;
        attempts := attempts + [taken];
        if errcode != ERR_QUEUE_FULL {
          finished := true;
          break;
        }
        left := left - 1;
      }
      if !finished {
        LastTry(j, attempts, producer.offered);
      }
    }
  }

  // ---------------------------------------------------------------- consuming

  /** One answer of KafkaConsumer::consume, and by how much the clock moves while it waits */
  datatype Event = Event(err: int, payload: string, elapsed: int)

  /** One call of consume_batch: answers from the from-th on, each to the timeout passed to it */
  datatype Window = Window(answer: (nat, int) -> Event, from: nat, start: int, timeout_ms: int) {
    /** The clock after k answers */
    function Clock(k: nat): int {
      if k == 0 then start else Clock(k - 1) + answer(from + (k - 1), Deadline() - Clock(k - 1)).elapsed
    }

    function Deadline(): int {
      start + timeout_ms
    }

    /** What consume answers when it is given the time that is left */
    function Got(k: nat): Event {
      answer(from + k, Deadline() - Clock(k))
    }

    /** The first n answers are messages, and time was left before each but the first. */
    predicate Taken(n: nat) {
      forall k: nat | k < n :: Got(k).err == NO_ERROR && (k > 0 ==> Clock(k) < Deadline())
    }

    /** Why it ended with n messages after `calls` calls: there were enough, no time was left, or an
        answer was an error. */
    predicate Stopped(n: nat, enough: nat, calls: int) {
      || (calls == n == enough)
      || (calls == n > 0 && Clock(n) >= Deadline())
      || (calls == n + 1 && n < enough && Got(n).err != NO_ERROR && (n > 0 ==> Clock(n) < Deadline()))
    }

    function Payloads(n: nat): seq<string> {
      seq(n, i requires 0 <= i < n => Got(i).payload)
    }
  }

  /** consume(t) returns within t milliseconds, whatever t it is given, by a clock that does not go back. */
  ghost predicate Prompt(answer: (nat, int) -> Event) {
    forall k: nat, t: int | t >= 0 :: 0 <= answer(k, t).elapsed <= t
  }

  /** With a prompt consume the clock never passes the deadline, because what is left is what is passed. */
  lemma {:induction false} WithinDeadline(w: Window, k: nat)
    ensures Prompt(w.answer) && w.timeout_ms >= 0 ==> w.start <= w.Clock(k) <= w.Deadline()
  {
    if k > 0 && Prompt(w.answer) && w.timeout_ms >= 0 {
      WithinDeadline(w, k - 1);
      assert w.Clock(k) == w.Clock(k - 1) + w.Got(k - 1).elapsed;
    }
  }

  /** After i messages and nothing else */
  predicate Reading(w: Window, i: nat, logs0: seq<string>, logs: seq<string>, next: nat, clock: int) {
    && next == w.from + i && clock == w.Clock(i)
    && logs == logs0 + w.Payloads(i) && w.Taken(i)
  }

  lemma {:induction false} NextAnswer(w: Window, i: nat, logs0: seq<string>, logs: seq<string>, next: nat, clock: int)
    requires Reading(w, i, logs0, logs, next, clock) && (i > 0 ==> clock < w.Deadline())
    ensures var m := w.answer(next, w.Deadline() - clock);
            && m == w.Got(i) && clock + m.elapsed == w.Clock(i + 1)
            && (m.err == NO_ERROR ==> Reading(w, i + 1, logs0, logs + [m.payload], next + 1, clock + m.elapsed))
  {
    assert w.Payloads(i + 1) == w.Payloads(i) + [w.Got(i).payload];
  }

  class CKafkaConsumer {
    const answer: (nat, int) -> Event
    var next: nat
    var clock: int

    constructor (answer: (nat, int) -> Event, clock: int)
      ensures this.answer == answer && this.clock == clock && next == 0
    {
      this.answer := answer;
      this.clock := clock;
      next := 0;
    }

    method Consume(timeout_ms: int) returns (message: Event)
      modifies this
      ensures message == answer(old(next), timeout_ms)
      ensures next == old(next) + 1 && clock == old(clock) + message.elapsed
    {
      message := answer(next, timeout_ms);
      next := next + 1;
      clock := clock + message.elapsed;
    }

    /** It takes consecutive messages, until there are enough, one is an error, or time is up. */
    method ConsumeBatch(batch_size: nat, logs0: seq<string>, timeout_ms: int)
      returns (num_logs: nat, logs: seq<string>, timeout: bool, empty: bool)
      modifies this
      ensures var w := Window(answer, old(next), old(clock), timeout_ms);
              && num_logs <= batch_size && logs == logs0 + w.Payloads(num_logs)
              && w.Taken(num_logs) && w.Stopped(num_logs, batch_size, next - w.from)
              && timeout == (num_logs == 0 < batch_size && w.Got(0).err == ERR_TIMED_OUT)
              && empty == (num_logs == 0 < batch_size && w.Got(0).err == ERR_PARTITION_EOF)
      ensures timeout_ms >= 0 && Prompt(answer) ==> old(clock) <= clock <= old(clock) + timeout_ms
    {
      ghost var w := Window(answer, next, clock, timeout_ms);
      num_logs, logs, timeout, empty := ConsumeUntil(w, batch_size, logs0, clock + timeout_ms, timeout_ms);
      WithinDeadline(w, next - w.from);
    }

    /** Its loop */
    method ConsumeUntil(ghost w: Window, batch_size: nat, logs0: seq<string>, end: int, timeout_ms: int)
      returns (num_logs: nat, logs: seq<string>, timeout: bool, empty: bool)
      requires w == Window(answer, next, clock, timeout_ms) && end == w.Deadline()
      modifies this
      ensures num_logs <= batch_size && logs == logs0 + w.Payloads(num_logs)
      ensures next >= w.from && w.Taken(num_logs) && w.Stopped(num_logs, batch_size, next - w.from)
      ensures clock == w.Clock(next - w.from)
      ensures timeout == (num_logs == 0 < batch_size && w.Got(0).err == ERR_TIMED_OUT)
      ensures empty == (num_logs == 0 < batch_size && w.Got(0).err == ERR_PARTITION_EOF)
    {
      var remaining_timeout := timeout_ms;
      num_logs, logs, timeout, empty := 0, logs0, false, false;
      assert Reading(w, 0, logs0, logs, next, clock);
      for i := 0 to batch_size
        invariant num_logs == i && !timeout && !empty
        invariant Reading(w, i, logs0, logs, next, clock) && (i > 0 ==> clock < end)
        invariant remaining_timeout == end - clock
      {
        NextAnswer(w, i, logs0, logs, next, clock);
        var message := Consume(remaining_timeout);
        if message.err == NO_ERROR {
          logs := logs + [message.payload];
          num_logs := num_logs + 1;
          remaining_timeout := end - clock;
          if remaining_timeout <= 0 {
            break;
          }
        } else {
          if message.err == ERR_TIMED_OUT && num_logs == 0 {
            timeout := true;
          }
          if message.err == ERR_PARTITION_EOF && num_logs == 0 {
            empty := true;
          }
          break;
        }
      }
    }
  }
}
