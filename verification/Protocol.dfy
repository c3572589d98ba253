/** TBinaryProtocol over an in-memory transport, as the generated code calls it. */
module Protocol {
  import opened Bytes
  import opened ThriftBinary
  import opened Schema

  const UINT32 := 0x1_0000_0000

  /** A byte count as a uint32_t */
  function Wrap(n: nat): (x: nat)
    ensures x < UINT32
  {
    n % UINT32
  }

  /** `xfer + n` on uint32_t */
  function Plus(a: nat, b: nat): (x: nat)
    ensures x < UINT32
  {
    (a + b) % UINT32
  }

  /** However often `xfer` wraps on the way, it ends as the exact count modulo 2^32. */
  lemma {:induction false} PlusWraps(a: nat, b: nat)
    ensures Plus(Wrap(a), Wrap(b)) == Wrap(a + b)
  {
  }

  /** x counts the bytes that reading has taken off the front */
  predicate Consumed(x: nat, before: bytes, after: bytes) {
    |after| <= |before| && x == Wrap(|before| - |after|)
  }

  lemma {:induction false} ConsumedMore(x: nat, y: nat, b0: bytes, b1: bytes, b2: bytes)
    requires Consumed(x, b0, b1) && Consumed(y, b1, b2)
    ensures Consumed(Plus(x, y), b0, b2)
  {
    PlusWraps(|b0| - |b1|, |b1| - |b2|);
  }

  /** x counts the bytes that writing has appended */
  predicate Appended(x: nat, before: bytes, after: bytes) {
    |before| <= |after| && x == Wrap(|after| - |before|)
  }

  lemma {:induction false} AppendedMore(x: nat, y: nat, b0: bytes, b1: bytes, b2: bytes)
    requires Appended(x, b0, b1) && Appended(y, b1, b2)
    ensures Appended(Plus(x, y), b0, b2)
  {
    PlusWraps(|b1| - |b0|, |b2| - |b1|);
  }

  /** How a call on the protocol ends: with a value and the byte count, or by throwing */
  datatype Call<+T> = Done(val: T, xfer: nat) | Throw(error: Error) {
    predicate IsFailure() {
      Throw?
    }

    function PropagateFailure<U>(): Call<U>
      requires Throw?
    {
      Throw(error)
    }

    function Extract(): (c: Call<T>)
      requires Done?
      ensures c.Done?
    {
      this
    }
  }

  /** The call did what the specification reads from the same bytes. */
  ghost predicate Reads<T>(r: Parsed<T>, before: bytes, c: Call<T>, after: bytes) {
    match r
    case Ok(v, rest) =>
      c.Done? && c.val == v && after == rest && Consumed(c.xfer, before, rest)
    case Fail(e) => c == Throw(e)
  }

  class TProtocol {
    /** unread bytes of an input protocol, written bytes of an output protocol */
    var buf: bytes

    constructor (bs: bytes)
      ensures buf == bs
    {
      buf := bs;
    }

    method ReadByte() returns (c: Call<byte>)
      modifies this
      ensures c == if old(buf) == [] then Throw(EndOfFile) else Done(old(buf)[0], 1)
      ensures old(buf) != [] ==> buf == old(buf)[1..]
    {
      if buf == [] {
        return Throw(EndOfFile);
      }
      var b := buf[0];
      buf := buf[1..];
      return Done(b, 1);
    }

    /** readI16, readI32, readI64: accumulate big-endian, then apply the sign */
    method ReadI(width: nat) returns (c: Call<int>)
      requires width in {1, 2, 4, 8}
      modifies this
      ensures Reads(ReadInt(width, old(buf)), old(buf), c, buf)
    {
      if |buf| < width {
        return Throw(EndOfFile);
      }
      var u: nat := 0;
      for i := 0 to width
        invariant u == FromBigEndian(buf[..i])
        invariant buf == old(buf)
      {
        assert buf[..i + 1][..i] == buf[..i];
        u := 256 * u + buf[i];
      }
      buf := buf[width..];
      return Done(if 2 * u >= Pow256(width) then u - Pow256(width) else u, width);
    }

    method ReadCount() returns (c: Call<nat>)
      modifies this
      ensures Reads(ReadSize(old(buf)), old(buf), c, buf)
    {
      var n :- ReadI(4);
      if n.val < 0 {
        return Throw(NegativeSize);
      }
      return Done(n.val, n.xfer);
    }

    /** readBinary, readString */
    method ReadStr() returns (c: Call<bytes>)
      modifies this
      ensures Reads(ReadBinary(old(buf)), old(buf), c, buf)
    {
      var n :- ReadCount();
      if |buf| < n.val {
        return Throw(EndOfFile);
      }
      var s := buf[..n.val];
      buf := buf[n.val..];
      return Done(s, n.xfer + n.val);
    }

    /** A stop byte has no field id; the id returned with it means nothing. */
    method ReadFieldBegin() returns (c: Call<(byte, int)>)
      modifies this
      ensures old(buf) == [] ==> c == Throw(EndOfFile)
      ensures old(buf) != [] && old(buf)[0] == T_STOP ==> c == Done((T_STOP, 0), 1) && buf == old(buf)[1..]
      ensures old(buf) != [] && old(buf)[0] != T_STOP ==>
                match ReadInt(2, old(buf)[1..])
                case Ok(id, rest) => c == Done((old(buf)[0], id), 3) && buf == rest
                case Fail(e) => c == Throw(e)
    {
      var t :- ReadByte();
      if t.val == T_STOP {
        return Done((t.val, 0), t.xfer);
      }
      var id :- ReadI(2);
      return Done((t.val, id.val), t.xfer + id.xfer);
    }

    /** readListBegin: the element type is read and not looked at */
    method ReadListBegin() returns (c: Call<nat>)
      modifies this
      ensures old(buf) == [] ==> c == Throw(EndOfFile)
      ensures old(buf) != [] ==>
                match ReadSize(old(buf)[1..])
                case Ok(n, rest) => c == Done(n, 5) && buf == rest
                case Fail(e) => c == Throw(e)
    {
      var t :- ReadByte();
      var n :- ReadCount();
      return Done(n.val, t.xfer + n.xfer);
    }

    method ReadMapBegin() returns (c: Call<nat>)
      modifies this
      ensures |old(buf)| < 2 ==> c == Throw(EndOfFile)
      ensures |old(buf)| >= 2 ==>
                match ReadSize(old(buf)[2..])
                case Ok(n, rest) => c == Done(n, 6) && buf == rest
                case Fail(e) => c == Throw(e)
    {
      var k :- ReadByte();
      var v :- ReadByte();
      assert old(buf)[1..][1..] == old(buf)[2..];
      var n :- ReadCount();
      return Done(n.val, k.xfer + v.xfer + n.xfer);
    }

    method SkipField(t: byte) returns (c: Call<()>)
      modifies this
      ensures Reads(Skip(t, old(buf)), old(buf), c, buf)
    {
      var r := Skip(t, buf);
      if r.Fail? {
        return Throw(r.error);
      }
      var n := |buf| - |r.rest|;
      buf := r.rest;
      return Done(r.val, Wrap(n));
    }

    /** readMessageBegin: versioned, or the old form that starts with the name */
    method ReadMessageHeader() returns (c: Call<MessageHeader>)
      modifies this
      ensures Reads(ReadMessageBegin(old(buf)), old(buf), c, buf)
    {
      ghost var b0 := buf;
      ReadIntRange(4, buf);
      var sz :- ReadI(4);
      if sz.val >= 0 {
        c := ReadOldForm(sz.val);
      } else if VERSION_1 <= sz.val < VERSION_1 + 0x1_0000 {
        c := ReadStrictForm((sz.val - VERSION_1) % 256);
      } else {
        return Throw(BadVersion);
      }
      if c.Done? {
        ConsumedMore(sz.xfer, c.xfer, b0, b0[4..], buf);
        return Done(c.val, Plus(sz.xfer, c.xfer));
      }
    }

    method ReadStrictForm(mtype: byte) returns (c: Call<MessageHeader>)
      modifies this
      ensures Reads(ReadStrictHeader(mtype, old(buf)), old(buf), c, buf)
    {
      ghost var b0 := buf;
      var name :- ReadStr();
      ghost var b1 := buf;
      var seqid :- ReadI(4);
      ConsumedMore(name.xfer, seqid.xfer, b0, b1, buf);
      return Done(MessageHeader(name.val, mtype, seqid.val), Plus(name.xfer, seqid.xfer));
    }

    method ReadOldForm(size: nat) returns (c: Call<MessageHeader>)
      requires FitsSize(size)
      modifies this
      ensures Reads(ReadOldHeader(size, old(buf)), old(buf), c, buf)
    {
      if |buf| < size {
        return Throw(EndOfFile);
      }
      var name := buf[..size];
      buf := buf[size..];
      var t :- ReadI(1);
      var seqid :- ReadI(4);
      return Done(MessageHeader(name, t.val % 256, seqid.val), Wrap(|name| + t.xfer + seqid.xfer));
    }

    // ---------------------------------------------------------------- output

    method WriteMessageHeader(h: MessageHeader) returns (xfer: nat)
      requires h.Valid()
      modifies this
      ensures buf == old(buf) + EncMessageBegin(h) && xfer == Wrap(|EncMessageBegin(h)|)
    {
      var m := EncMessageBegin(h);
      buf := buf + m;
      xfer := Wrap(|m|);
    }

    method WriteFieldBegin(t: byte, id: int) returns (xfer: nat)
      requires InRange(2, id)
      modifies this
      ensures buf == old(buf) + ([t] + EncInt(2, id)) && xfer == 3
    {
      buf := buf + ([t] + EncInt(2, id));
      xfer := 3;
    }

    method WriteFieldStop() returns (xfer: nat)
      modifies this
      ensures buf == old(buf) + [T_STOP] && xfer == 1
    {
      buf := buf + [T_STOP];
      xfer := 1;
    }

    method WriteBool(b: bool) returns (xfer: nat)
      modifies this
      ensures buf == old(buf) + [if b then 1 else 0] && xfer == 1
    {
      buf := buf + [if b then 1 else 0];
      xfer := 1;
    }

    method WriteI(width: nat, n: int) returns (xfer: nat)
      requires InRange(width, n)
      modifies this
      ensures buf == old(buf) + EncInt(width, n) && xfer == width
    {
      buf := buf + EncInt(width, n);
      xfer := width;
    }

    method WriteStr(s: bytes) returns (xfer: nat)
      requires FitsSize(|s|)
      modifies this
      ensures buf == old(buf) + EncBinary(s) && xfer == |EncBinary(s)|
    {
      buf := buf + EncBinary(s);
      xfer := 4 + |s|;
    }

    method WriteListBegin(t: byte, n: nat) returns (xfer: nat)
      requires FitsSize(n)
      modifies this
      ensures buf == old(buf) + ([t] + EncInt(4, n)) && xfer == 5
    {
      buf := buf + ([t] + EncInt(4, n));
      xfer := 5;
    }

    method WriteMapBegin(kt: byte, vt: byte, n: nat) returns (xfer: nat)
      requires FitsSize(n)
      modifies this
      ensures buf == old(buf) + ([kt, vt] + EncInt(4, n)) && xfer == 6
    {
      buf := buf + ([kt, vt] + EncInt(4, n));
      xfer := 6;
    }
  }
}
