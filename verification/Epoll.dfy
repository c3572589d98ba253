/**
 CEpoller and CEpollable: the cached event mask of each epollable against the kernel's interest set,
 and the wait loop that survives interrupted system calls. The kernel is a map from descriptors to
 masks; closing a descriptor removes it, and a closed descriptor's number may be handed out again.
 */
module Epoll {

  const EEXIST := 17
  const ENOENT := 2

  /** Why epoll_ctl fails when the descriptor's registration is not to blame, or 0 */
  type Fault = e: int | e != EEXIST && e != ENOENT

  class CEpollable {
    var fd: int
    var epoll_events: int

    constructor ()
      ensures fd == -1 && epoll_events == -1
    {
      fd, epoll_events := -1, -1;
    }
  }

  class Kernel {
    var interest: map<int, int>

    constructor ()
      ensures interest == map[]
    {
      interest := map[];
    }

    /** epoll_ctl with EPOLL_CTL_ADD or EPOLL_CTL_MOD */
    method Control(add: bool, fd: int, events: int, fault: Fault) returns (errno: int)
      modifies this
      ensures errno == if add && fd in old(interest) then EEXIST
                       else if !add && fd !in old(interest) then ENOENT else fault
      ensures interest == if errno == 0 then old(interest)[fd := events] else old(interest)
    {
      if add && fd in interest {
        return EEXIST;
      }
      if !add && fd !in interest {
        return ENOENT;
      }
      if fault == 0 {
        interest := interest[fd := events];
      }
      return fault;
    }

    /** epoll_ctl with EPOLL_CTL_DEL */
    method Delete(fd: int, fault: Fault) returns (errno: int)
      modifies this
      ensures errno == if fd in old(interest) then fault else ENOENT
      ensures interest == if errno == 0 then old(interest) - {fd} else old(interest)
    {
      if fd !in interest {
        return ENOENT;
      }
      if fault == 0 {
        interest := interest - {fd};
      }
      return fault;
    }

    /** close(2) */
    method Forget(fd: int)
      modifies this
      ensures interest == old(interest) - {fd}
    {
      interest := interest - {fd};
    }
  }

  /** The epollables of one epoller, and the descriptors they own */
  class CEpoller {
    const kernel: Kernel
    ghost var members: set<CEpollable>

    /** What one epollable's cache says about the kernel */
    ghost predicate Agrees(e: CEpollable)
      reads kernel, e
    {
      if e.fd == -1 then e.epoll_events == -1
      else
        && (e.epoll_events == -1 <==> e.fd !in kernel.interest)
        && (e.fd in kernel.interest ==> kernel.interest[e.fd] == e.epoll_events)
    }

    /** The caches agree with the kernel, descriptors are not shared, and the kernel watches nothing
        that is not open. */
    ghost predicate Valid()
      reads this, kernel, members
    {
      && (forall e | e in members :: Agrees(e))
      && (forall e, f | e in members && f in members && e != f && e.fd != -1 :: e.fd != f.fd)
      && (forall fd | fd in kernel.interest :: exists e :: e in members && e.fd == fd)
      && -1 !in kernel.interest
    }

    constructor (kernel: Kernel)
      requires kernel.interest == map[]
      ensures this.kernel == kernel && members == {} && Valid()
    {
      this.kernel := kernel;
      members := {};
    }

    /** A fresh or closed epollable gets a descriptor, possibly one that was closed before */
    method Attach(e: CEpollable, fd: int)
      requires Valid() && fd >= 0 && e.fd == -1 && e.epoll_events == -1
      requires forall f | f in members :: f.fd != fd
      modifies this`members, e
      ensures members == old(members) + {e} && Valid()
      ensures e.fd == fd && e.epoll_events == -1
    {
      e.fd := fd;
      members := members + {e};
    }

    /** set_events without `force`: an unchanged mask is not sent, ADD is for the first mask, MOD for
        the others, and only a fault of the kernel's own makes it throw, with nothing changed. */
    method SetEvents(e: CEpollable, events: int, fault: Fault) returns (errno: int)
      requires Valid() && e in members
      modifies kernel, e`epoll_events
      ensures errno == if e.fd == -1 || old(e.epoll_events) == events then 0 else fault
      ensures e.epoll_events == if e.fd == -1 || errno != 0 then old(e.epoll_events) else events
      ensures kernel.interest ==
              if e.fd == -1 || old(e.epoll_events) == events || errno != 0 then old(kernel.interest)
              else old(kernel.interest)[e.fd := events]
      ensures Valid() <==> !(errno == 0 && e.fd != -1 && events == -1 && old(e.epoll_events) != -1)
    {
      if e.fd == -1 {
        return 0;
      }
      var old_epoll_events := e.epoll_events;
      if old_epoll_events == events {
        return 0;
      }
      errno := kernel.Control(old_epoll_events == -1, e.fd, events, fault);
      if errno != 0 {
        return;
      }
      e.epoll_events := events;
      if events != -1 {
        assert forall f | f in members && f != e :: f.fd == -1 || f.fd != e.fd;
      } else {
        assert !Agrees(e);
      }
    }

    /** del_events: throws ENOENT if the descriptor is not registered, or the kernel's fault, and then
        changes nothing. */
    method DelEvents(e: CEpollable, fault: Fault) returns (errno: int)
      requires Valid() && e in members
      modifies kernel, e`epoll_events
      ensures Valid()
      ensures errno == if e.fd == -1 then 0 else if old(e.epoll_events) == -1 then ENOENT else fault
      ensures e.epoll_events == if errno == 0 then -1 else old(e.epoll_events)
      ensures kernel.interest == if errno == 0 then old(kernel.interest) - {e.fd} else old(kernel.interest)
    {
      if e.fd == -1 {
        return 0;
      }
      errno := kernel.Delete(e.fd, fault);
      if errno != 0 {
        return;
      }
      e.epoll_events := -1;
    }

    /** close and do_close; the kernel forgets the descriptor */
    method Close(e: CEpollable)
      requires Valid() && e in members
      modifies kernel, e
      ensures Valid() && e.fd == -1 && e.epoll_events == -1
      ensures kernel.interest == old(kernel.interest) - {old(e.fd)}
    {
      if e.fd != -1 {
        e.epoll_events := -1;
        kernel.Forget(e.fd);
        e.fd := -1;
      }
    }

    /** detach gives the descriptor away without closing it and keeps the cached mask: the caches go on
        agreeing with the kernel iff nothing had been registered. */
    method Detach(e: CEpollable)
      requires Valid() && e in members
      modifies e`fd
      ensures e.fd == -1
      ensures Valid() <==> old(e.fd) == -1 || e.epoll_events == -1
    {
      ghost var fd := e.fd;
      assert Agrees(e);
      e.fd := -1;
      if fd != -1 && e.epoll_events != -1 {
        assert !Agrees(e);
      } else {
        forall k | k in kernel.interest ensures exists f :: f in members && f.fd == k {
          assert k != fd;
          var f :| f in members && old(f.fd) == k;
          assert f.fd == k;
        }
      }
    }

    /** Any sequence of operations on any epollables, with descriptors reused as the system pleases:
        agreement holds throughout, so ADD never meets a registered descriptor and MOD never an absent
        one. The system does not hand out a descriptor that is open, and refuses the mask -1. */
    method Run(es: seq<CEpollable>, ops: seq<Op>) returns (refused: bool)
      requires Valid() && members == (set e | e in es)
      requires forall k | 0 <= k < |ops| :: ops[k].i < |es|
      requires forall k | 0 <= k < |ops| :: ops[k].Set? && ops[k].events == -1 ==> ops[k].fault != 0
      modifies this`members, kernel, es
      ensures Valid() && members == old(members)
      ensures !refused
    {
      refused := false;
      for k := 0 to |ops|
        invariant Valid() && members == old(members) && !refused
      {
        var op := ops[k];
        var e := es[op.i];
        match op
        case Open(_, fd) =>
          if e.fd == -1 && fd >= 0 && forall j | 0 <= j < |es| :: es[j].fd != fd {
            assert Agrees(e);
            Attach(e, fd);
          }
        case Set(_, events, fault) =>
          var errno := SetEvents(e, events, fault);
          refused := refused || errno == EEXIST || errno == ENOENT;
        case Del(_, fault) =>
          var errno := DelEvents(e, fault);
        case Shut(_) =>
          Close(e);
      }
    }
  }

  datatype Op =
    | Open(i: nat, fd: int)
    | Set(i: nat, events: int, fault: Fault)
    | Del(i: nat, fault: Fault)
    | Shut(i: nat)

  // ---------------------------------------------------------------- timed_wait

  const UINT32 := 0x1_0000_0000

  /** The timeout after an interrupted wait that time() put at `seconds`, which may be negative */
  function Remaining(remaining: nat, seconds: int): (r: nat)
    requires remaining < UINT32
    ensures r < UINT32
  {
    var gone := seconds * 1000 + 10;
    if remaining > gone % UINT32 then (remaining - gone) % UINT32 else 0
  }

  /** 1000k + 10 is 2 modulo 8, so its residue modulo 2^32 is never below 2. */
  lemma {:induction false} GoneIsPositive(seconds: int)
    ensures (seconds * 1000 + 10) % UINT32 >= 2
  {
    var gone := seconds * 1000 + 10;
    var q, g := gone / UINT32, gone % UINT32;
    assert gone == q * UINT32 + g;
    assert g == 8 * (125 * seconds - 0x2000_0000 * q) + 10;
  }

  /** Whatever the clock does, an interrupted wait shortens the timeout by at least 2 ms or ends it. */
  lemma {:induction false} RemainingShrinks(remaining: nat, seconds: int)
    requires remaining < UINT32
    ensures Remaining(remaining, seconds) <= if remaining > 2 then remaining - 2 else 0
  {
    GoneIsPositive(seconds);
    var gone := seconds * 1000 + 10;
    var q, g := gone / UINT32, gone % UINT32;
    if remaining > g {
      assert remaining - gone == (remaining - g) + (0 - q) * UINT32;
      Residue(remaining - g, 0 - q);
    }
  }

  lemma {:induction false} Residue(n: nat, q: int)
    requires n < UINT32
    ensures (n + q * UINT32) % UINT32 == n
  {
  }

  /** With a clock that does not go back, and waits below 2^32 ms, by at least 10 ms. */
  lemma {:induction false} RemainingShrinksByTen(remaining: nat, seconds: nat)
    requires remaining < UINT32 && seconds * 1000 + 10 < UINT32
    ensures var gone := seconds * 1000 + 10;
            Remaining(remaining, seconds) == if remaining > gone then remaining - gone else 0
  {
  }

  /** One return of epoll_wait: the number of events or -1, whether errno is EINTR, and time() around it */
  datatype Wait = Wait(retval: int, interrupted: bool, before: int, after: int)

  /** time() does not go back during a wait, and no wait lasts 2^32 ms */
  predicate Steady(w: Wait) {
    w.before <= w.after && (w.after - w.before) * 1000 + 10 < UINT32
  }

  predicate SteadyClock(ws: seq<Wait>) {
    forall i | 0 <= i < |ws| :: Steady(ws[i])
  }

  function AtLeastZero(n: int): nat {
    if n < 0 then 0 else n
  }

  /** The timeout of the n-th call of epoll_wait, if the calls before it were interrupted */
  function TimeoutAt(milliseconds: nat, waits: seq<Wait>, n: nat): (t: nat)
    requires milliseconds < UINT32 && n <= |waits|
    ensures t < UINT32
  {
    if n == 0 then milliseconds
    else Remaining(TimeoutAt(milliseconds, waits, n - 1), waits[n - 1].after - waits[n - 1].before)
  }

  /** Whatever the clock does, each interruption shortens the timeout until it is 0, and after n of them
      it is at most milliseconds - 2n. */
  lemma {:induction false} TimeoutShrinks(milliseconds: nat, waits: seq<Wait>, n: nat)
    requires milliseconds < UINT32 && n <= |waits|
    ensures TimeoutAt(milliseconds, waits, n) <= AtLeastZero(milliseconds - 2 * n)
    ensures n > 0 ==>
              var before := TimeoutAt(milliseconds, waits, n - 1);
              before == 0 == TimeoutAt(milliseconds, waits, n) || TimeoutAt(milliseconds, waits, n) < before
  {
    if n > 0 {
      TimeoutShrinks(milliseconds, waits, n - 1);
      RemainingShrinks(TimeoutAt(milliseconds, waits, n - 1), waits[n - 1].after - waits[n - 1].before);
    }
  }

  /** With a steady clock it takes at most ceil(milliseconds / 10) interruptions to reach 0. */
  lemma {:induction false} TimeoutShrinksByTen(milliseconds: nat, waits: seq<Wait>, n: nat)
    requires milliseconds < UINT32 && n <= |waits| && SteadyClock(waits)
    ensures TimeoutAt(milliseconds, waits, n) <= AtLeastZero(milliseconds - 10 * n)
  {
    if n > 0 {
      TimeoutShrinksByTen(milliseconds, waits, n - 1);
      assert Steady(waits[n - 1]);
      RemainingShrinksByTen(TimeoutAt(milliseconds, waits, n - 1), waits[n - 1].after - waits[n - 1].before);
    }
  }

  /** What an interruption takes off the timeout: 1000 ms for each second that time() advanced and 10 ms
      more, on uint32_t */
  function GoneIn(w: Wait): (g: nat) {
    ((w.after - w.before) * 1000 + 10) % UINT32
  }

  function Gone(waits: seq<Wait>, n: nat): (g: nat)
    requires n <= |waits|
  {
    if n == 0 then 0 else Gone(waits, n - 1) + GoneIn(waits[n - 1])
  }

  lemma {:induction false} RemainingExactly(remaining: nat, seconds: int)
    requires remaining < UINT32
    ensures Remaining(remaining, seconds) == AtLeastZero(remaining - (seconds * 1000 + 10) % UINT32)
  {
    var gone := seconds * 1000 + 10;
    var q, g := gone / UINT32, gone % UINT32;
    if remaining > g {
      assert remaining - gone == (remaining - g) + (0 - q) * UINT32;
      Residue(remaining - g, 0 - q);
    }
  }

  /** For every clock, the n-th timeout is what was asked for less what is gone, and never below 0. */
  lemma {:induction false} TimeoutExactly(milliseconds: nat, waits: seq<Wait>, n: nat)
    requires milliseconds < UINT32 && n <= |waits|
    ensures TimeoutAt(milliseconds, waits, n) == AtLeastZero(milliseconds - Gone(waits, n))
  {
    if n > 0 {
      TimeoutExactly(milliseconds, waits, n - 1);
      RemainingExactly(TimeoutAt(milliseconds, waits, n - 1), waits[n - 1].after - waits[n - 1].before);
    }
  }

  /** The same sum without wrap-around */
  function Elapsed(waits: seq<Wait>, n: nat): int
    requires n <= |waits|
  {
    if n == 0 then 0
    else Elapsed(waits, n - 1) + ((waits[n - 1].after - waits[n - 1].before) * 1000 + 10)
  }

  lemma {:induction false} SteadyTimeout(milliseconds: nat, waits: seq<Wait>, n: nat)
    requires milliseconds < UINT32 && n <= |waits| && SteadyClock(waits)
    ensures TimeoutAt(milliseconds, waits, n) == AtLeastZero(milliseconds - Elapsed(waits, n))
  {
    TimeoutExactly(milliseconds, waits, n);
    SteadyGone(waits, n);
  }

  lemma {:induction false} SteadyGone(waits: seq<Wait>, n: nat)
    requires n <= |waits| && SteadyClock(waits)
    ensures Gone(waits, n) == Elapsed(waits, n)
  {
    if n > 0 {
      SteadyGone(waits, n - 1);
      assert Steady(waits[n - 1]);
    }
  }

  /** A uint32_t passed as an int */
  function AsInt(n: nat): int
    requires n < UINT32
  {
    if n < 0x8000_0000 then n else n - UINT32
  }

  /** epoll_wait takes a negative timeout as an infinite one. timed_wait passes one iff it is asked for
      2^31 ms or more, and then from the start. */
  lemma {:induction false} WaitsForeverExactly(milliseconds: nat, waits: seq<Wait>, n: nat)
    requires milliseconds < UINT32 && n <= |waits|
    ensures AsInt(TimeoutAt(milliseconds, waits, 0)) < 0 <==> milliseconds >= 0x8000_0000
    ensures milliseconds < 0x8000_0000 ==> 0 <= AsInt(TimeoutAt(milliseconds, waits, n)) <= milliseconds
  {
    TimeoutShrinks(milliseconds, waits, n);
  }

  /** The timeout after an interruption */
  method Shorten(remaining: nat, w: Wait) returns (left: nat)
    requires remaining < UINT32
    ensures left == AtLeastZero(remaining - GoneIn(w))
  {
    RemainingExactly(remaining, w.after - w.before);
    left := Remaining(remaining, w.after - w.before);
  }

  /** What is left of the time after n interruptions, as an int */
  function LeftAsInt(milliseconds: nat, waits: seq<Wait>, n: nat): int
    requires milliseconds < UINT32 && n <= |waits|
  {
    AsInt(AtLeastZero(milliseconds - Gone(waits, n)))
  }

  /** timed_wait against any sequence of returns of epoll_wait: it ends with the first that is not an
      interruption, a negative one being thrown, having passed what was left of the time each time. */
  method TimedWait(milliseconds: nat, waits: seq<Wait>) returns (done: bool, retval: int, timeouts: seq<int>)
    requires milliseconds < UINT32
    ensures |timeouts| <= |waits|
    ensures forall i | 0 <= i < |timeouts| :: timeouts[i] == LeftAsInt(milliseconds, waits, i)
    ensures forall i | 0 <= i < |timeouts| - 1 :: waits[i].retval <= -1 && waits[i].interrupted
    ensures done ==>
              && timeouts != [] && retval == waits[|timeouts| - 1].retval
              && (retval <= -1 ==> !waits[|timeouts| - 1].interrupted)
    ensures !done ==>
              |timeouts| == |waits| && forall i | 0 <= i < |waits| :: waits[i].retval <= -1 && waits[i].interrupted
  {
    var remaining: nat := milliseconds;
    done, timeouts, retval := false, [], -1;
    for n := 0 to |waits|
      invariant !done && |timeouts| == n && remaining == AtLeastZero(milliseconds - Gone(waits, n))
      invariant forall i | 0 <= i < n :: timeouts[i] == LeftAsInt(milliseconds, waits, i)
      invariant forall i | 0 <= i < n :: waits[i].retval <= -1 && waits[i].interrupted
    {
      var w := waits[n];
      timeouts := timeouts + [AsInt(remaining)];
      retval := w.retval;
      if !(retval <= -1 && w.interrupted) {
        done := true;
        break;
      }
      remaining := Shorten(remaining, w);
    }
  }
}
