/**
 A generated struct as the object it is: members and __isset flags updated in place by the setters
 and the `read` loop, and the `write` sequence. The code generator emits the same statements for
 every struct; here the struct's own field table selects them.
 */
module StructObject {
  import opened Bytes
  import opened ThriftBinary
  import opened Schema
  import opened Codec
  import opened RoundTrip
  import opened Protocol

  // ---------------------------------------------------------------- turns of the field loop

  /** One field after its header: read into its member, or skipped */
  ghost function FieldTurn(fs: seq<Field>, p: Progress, id: int, tag: byte, bs: bytes): (r: Parsed<Progress>)
    requires GoodFields(fs) && GoodProgress(fs, p)
    ensures r.Ok? ==> GoodProgress(fs, r.val) && |r.rest| <= |bs|
  {
    var i := Target(fs, id, tag);
    if i < |fs| then
      assert GoodField(fs[i]) && TypedField(fs[i], p.obj.vals[i]);
      var (v, bs1) :- ReadValue(fs[i].shape, p.obj.vals[i], bs);
      Ok(Accept(fs, p, i, v), bs1)
    else
      var (_, bs1) :- Skip(tag, bs);
      Ok(p, bs1)
  }

  lemma {:induction false} LoopTurn(fs: seq<Field>, p: Progress, bs: bytes, id: int, rest: bytes)
    requires GoodFields(fs) && GoodProgress(fs, p) && bs != [] && bs[0] != T_STOP
    requires ReadInt(2, bs[1..]) == Ok(id, rest)
    ensures var r := FieldTurn(fs, p, id, bs[0], rest);
            ReadFields(fs, p, bs) == if r.Ok? then ReadFields(fs, r.val, r.rest) else Fail(r.error)
  {
    var i := Target(fs, id, bs[0]);
    if i < |fs| {
      assert GoodField(fs[i]) && TypedField(fs[i], p.obj.vals[i]);
    }
  }

  /** Elements read so far, then what the element loop will still read */
  ghost function Prepend(vs: seq<Value>, r: Parsed<seq<Value>>): Parsed<seq<Value>> {
    if r.Ok? then Ok(vs + r.val, r.rest) else r
  }

  /** The state of the element loop: i elements read, the others as `resize` left them */
  ghost predicate Filling(e: Shape, elems: seq<Value>, i: nat, bs: bytes, total: Parsed<seq<Value>>) {
    && GoodShape(e) && i <= |elems|
    && Prepend(elems[..i], ReadElems(e, |elems| - i, bs)) == total
    && forall k | i <= k < |elems| :: elems[k] == Default(e)
  }

  lemma {:induction false} FillStart(e: Shape, elems: seq<Value>, bs: bytes)
    requires GoodShape(e) && forall k | 0 <= k < |elems| :: elems[k] == Default(e)
    ensures Filling(e, elems, 0, bs, ReadElems(e, |elems|, bs))
  {
    var total := ReadElems(e, |elems|, bs);
    if total.Ok? {
      assert elems[..0] + total.val == total.val;
    }
  }

  lemma {:induction false} FillTurn(e: Shape, elems: seq<Value>, i: nat, bs: bytes, total: Parsed<seq<Value>>)
    requires Filling(e, elems, i, bs, total) && i < |elems|
    ensures Typed(e, elems[i])
    ensures var r := ReadValue(e, elems[i], bs);
            if r.Ok? then Filling(e, elems[i := r.val], i + 1, r.rest, total) else total == Fail(r.error)
  {
    var r := ReadValue(e, elems[i], bs);
    if r.Ok? {
      assert elems[i := r.val][..i + 1] == elems[..i] + [r.val];
      var t := ReadElems(e, |elems| - i - 1, r.rest);
      if t.Ok? {
        Regroup(elems[..i], r.val, t.val);
      }
    }
  }

  lemma {:induction false} Regroup(front: seq<Value>, v: Value, tail: seq<Value>)
    ensures front + ([v] + tail) == (front + [v]) + tail
  {
  }

  lemma {:induction false} FillEnd(e: Shape, elems: seq<Value>, bs: bytes, total: Parsed<seq<Value>>)
    requires Filling(e, elems, |elems|, bs, total)
    ensures total == Ok(elems, bs)
  {
    assert elems[..|elems|] + [] == elems;
  }

  lemma {:induction false} EntryTurn(n: nat, acc: seq<Entry>, bs: bytes)
    requires Sorted(acc) && GoodEntries(acc) && n > 0
    ensures var k := ReadBinary(bs);
            if k.Fail? then ReadEntries(n, acc, bs) == Fail(k.error)
            else
              var v := ReadBinary(k.rest);
              if v.Fail? then ReadEntries(n, acc, bs) == Fail(v.error)
              else
                var acc' := Insert(acc, k.val, v.val);
                Sorted(acc') && GoodEntries(acc') && ReadEntries(n, acc, bs) == ReadEntries(n - 1, acc', v.rest)
  {
    var k := ReadBinary(bs);
    if k.Ok? && ReadBinary(k.rest).Ok? {
      InsertSorted(acc, k.val, ReadBinary(k.rest).val);
    }
  }

  // ---------------------------------------------------------------- the sequence of written fields

  /** What `write` has still to emit from field i on */
  ghost function Unwritten(fs: seq<Field>, v: Value, i: nat): bytes
    requires GoodFields(fs) && TypedStruct(fs, v) && i <= |fs|
  {
    SerFields(ToWireFields(fs, v, i))
  }

  lemma {:induction false} WriteTurn(fs: seq<Field>, v: Value, i: nat)
    requires GoodFields(fs) && TypedStruct(fs, v) && i < |fs|
    ensures GoodField(fs[i]) && TypedField(fs[i], v.vals[i])
    ensures Unwritten(fs, v, i) ==
            (if Written(fs, v, i) then SerField(ToWireField(fs[i], v.vals[i])) else []) + Unwritten(fs, v, i + 1)
  {
    assert GoodField(fs[i]) && TypedField(fs[i], v.vals[i]);
    var later := ToWireFields(fs, v, i + 1);
    if Written(fs, v, i) {
      var f := ToWireField(fs[i], v.vals[i]);
      assert ([f] + later)[1..] == later;
    }
  }

  class TStruct {
    const fields: seq<Field>
    var vals: seq<Value>
    var isset: seq<bool>

    function View(): Value
      reads this
    {
      VStruct(vals, isset)
    }

    ghost predicate Valid()
      reads this
    {
      GoodFields(fields) && TypedStruct(fields, View())
    }

    constructor (fs: seq<Field>, v: Value)
      requires GoodFields(fs) && TypedStruct(fs, v)
      ensures Valid() && fields == fs && View() == v
    {
      fields := fs;
      vals := v.vals;
      isset := v.isset;
    }

    /** `__set_x`: the member is on the wire from now on. Nothing else changes, and a flag that must be
        up stays up. */
    method Set(i: nat, v: Value)
      requires Valid() && i < |fields| && TypedField(fields[i], v)
      modifies this
      ensures Valid() && vals[i] == v && Written(fields, View(), i)
      ensures isset[i] == (old(isset[i]) || fields[i].kind.Optional?)
      ensures forall k | 0 <= k < |fields| && k != i :: vals[k] == old(vals[k]) && isset[k] == old(isset[k])
      ensures old(BuiltStruct(fields, View())) && BuiltField(fields[i], v) ==> BuiltStruct(fields, View())
    {
      if BuiltStruct(fields, View()) && BuiltField(fields[i], v) {
        SetterKeepsBuilt(fields, View(), i, v);
      }
      vals := vals[i := v];
      if fields[i].kind.Optional? {
        isset := isset[i := true];
      }
    }

    /** `this->x` has been read, and its flag, if it has one, raised: it will be written again */
    method Assign(i: nat, v: Value)
      requires Valid() && i < |fields| && TypedField(fields[i], v)
      modifies this
      ensures Valid() && vals[i] == v && Written(fields, View(), i)
      ensures isset[i] == (old(isset[i]) || !fields[i].kind.Required?)
      ensures forall k | 0 <= k < |fields| && k != i :: vals[k] == old(vals[k]) && isset[k] == old(isset[k])
    {
      vals := vals[i := v];
      if !fields[i].kind.Required? {
        isset := isset[i := true];
      }
    }

    method Read(iprot: TProtocol) returns (c: Call<()>)
      requires Valid()
      modifies this, iprot
      ensures Valid()
      ensures var r := ReadValue(SStruct(fields), old(View()), old(iprot.buf));
              if r.Fail? then c == Throw(r.error)
              else View() == r.val && Reads(Ok((), r.rest), old(iprot.buf), c, iprot.buf)
      decreases |iprot.buf|, 1
    {
      var xfer := 0;
      var seen: set<nat> := {};
      ghost var b0 := iprot.buf;
      ghost var total := ReadFields(fields, Progress(View(), {}), b0);
      while true
        invariant Valid()
        invariant ReadFields(fields, Progress(View(), seen), iprot.buf) == total
        invariant Consumed(xfer, b0, iprot.buf)
        decreases |iprot.buf|
      {
        ghost var p, bs := Progress(View(), seen), iprot.buf;
        var h :- iprot.ReadFieldBegin();
        var ftype, fid := h.val.0, h.val.1;
        ConsumedMore(xfer, h.xfer, b0, bs, iprot.buf);
        xfer := Plus(xfer, h.xfer);
        if ftype == T_STOP {
          break;
        }
        LoopTurn(fields, p, bs, fid, iprot.buf);
        ghost var b1 := iprot.buf;
        var f :- ReadField(ftype, fid, seen, iprot);
        ConsumedMore(xfer, f.xfer, b0, b1, iprot.buf);
        xfer, seen := Plus(xfer, f.xfer), f.val;
      }
      if AllRequiredSeen(fields, seen) {
        return Done((), xfer);
      }
      return Throw(InvalidData);
    }

    /** `switch (fid)`; the result is the set of members seen so far */
    method ReadField(ftype: byte, fid: int, seen: set<nat>, iprot: TProtocol) returns (c: Call<set<nat>>)
      requires Valid()
      modifies this, iprot
      ensures Valid()
      ensures var r := FieldTurn(fields, Progress(old(View()), seen), fid, ftype, old(iprot.buf));
              if r.Fail? then c == Throw(r.error)
              else View() == r.val.obj && Reads(Ok(r.val.seen, r.rest), old(iprot.buf), c, iprot.buf)
      decreases |iprot.buf|, 3
    {
      ghost var obj := View();
      var i := Target(fields, fid, ftype);
      if i < |fields| {
        assert GoodField(fields[i]) && TypedField(fields[i], vals[i]);
        var m :- ReadMember(fields[i].shape, vals[i], iprot);
        Assign(i, m.val);
        assert View() == Store(fields, obj, i, m.val);
        return Done(seen + {i}, m.xfer);
      }
      var k :- iprot.SkipField(ftype);
      return Done(seen, k.xfer);
    }

    /** The reading statements of one `case`, by the member's shape */
    static method ReadMember(s: Shape, was: Value, iprot: TProtocol) returns (c: Call<Value>)
      requires GoodShape(s) && Typed(s, was)
      modifies iprot
      ensures Reads(ReadValue(s, was, old(iprot.buf)), old(iprot.buf), c, iprot.buf)
      decreases |iprot.buf|, 2
    {
      match s
      case SBool =>
        var b :- iprot.ReadByte();
        return Done(VBool(b.val != 0), b.xfer);
      case SInt(width) =>
        var n :- iprot.ReadI(width);
        return Done(VInt(n.val), n.xfer);
      case SStr =>
        var str :- iprot.ReadStr();
        return Done(VStr(str.val), str.xfer);
      case SStruct(fs) =>
        var member := new TStruct(fs, was);
        var r :- member.Read(iprot);
        return Done(member.View(), r.xfer);
      case SList(e) =>
        c := ReadList(e, iprot);
      case SMap =>
        c := ReadMap(iprot);
    }

    /** clear, resize, then read every element in place */
    static method ReadList(e: Shape, iprot: TProtocol) returns (c: Call<Value>)
      requires GoodShape(e)
      modifies iprot
      ensures Reads(ReadValue(SList(e), VList([]), old(iprot.buf)), old(iprot.buf), c, iprot.buf)
      decreases |iprot.buf|, 1
    {
      ghost var b0 := iprot.buf;
      var size :- iprot.ReadListBegin();
      ghost var b1 := iprot.buf;
      var elems :- ReadElements(e, size.val, iprot);
      ConsumedMore(size.xfer, elems.xfer, b0, b1, iprot.buf);
      return Done(VList(elems.val), Plus(size.xfer, elems.xfer));
    }

    static method ReadElements(e: Shape, n: nat, iprot: TProtocol) returns (c: Call<seq<Value>>)
      requires GoodShape(e)
      modifies iprot
      ensures Reads(ReadElems(e, n, old(iprot.buf)), old(iprot.buf), c, iprot.buf)
      decreases |iprot.buf|, 3
    {
      ghost var b0, total := iprot.buf, ReadElems(e, n, iprot.buf);
      var xfer := 0;
      var elems := seq(n, _ => Default(e));
      FillStart(e, elems, iprot.buf);
      for i := 0 to n
        invariant |elems| == n && Filling(e, elems, i, iprot.buf, total)
        invariant Consumed(xfer, b0, iprot.buf)
      {
        FillTurn(e, elems, i, iprot.buf, total);
        ghost var b1 := iprot.buf;
        var m :- ReadMember(e, elems[i], iprot);
        ConsumedMore(xfer, m.xfer, b0, b1, iprot.buf);
        xfer := Plus(xfer, m.xfer);
        elems := elems[i := m.val];
      }
      FillEnd(e, elems, iprot.buf, total);
      return Done(elems, xfer);
    }

    /** clear, then insert by reference */
    static method ReadMap(iprot: TProtocol) returns (c: Call<Value>)
      modifies iprot
      ensures Reads(ReadValue(SMap, VMap([]), old(iprot.buf)), old(iprot.buf), c, iprot.buf)
    {
      ghost var b0 := iprot.buf;
      var size :- iprot.ReadMapBegin();
      ghost var b1 := iprot.buf;
      var entries :- ReadPairs(size.val, iprot);
      ConsumedMore(size.xfer, entries.xfer, b0, b1, iprot.buf);
      return Done(VMap(entries.val), Plus(size.xfer, entries.xfer));
    }

    static method ReadPairs(n: nat, iprot: TProtocol) returns (c: Call<seq<Entry>>)
      modifies iprot
      ensures Reads(ReadEntries(n, [], old(iprot.buf)), old(iprot.buf), c, iprot.buf)
    {
      ghost var b0, total := iprot.buf, ReadEntries(n, [], iprot.buf);
      var xfer := 0;
      var entries: seq<Entry> := [];
      for i := 0 to n
        invariant Sorted(entries) && GoodEntries(entries)
        invariant ReadEntries(n - i, entries, iprot.buf) == total
        invariant Consumed(xfer, b0, iprot.buf)
      {
        EntryTurn(n - i, entries, iprot.buf);
        ghost var b1 := iprot.buf;
        var key :- iprot.ReadStr();
        ConsumedMore(xfer, key.xfer, b0, b1, iprot.buf);
        xfer := Plus(xfer, key.xfer);
        ghost var b2 := iprot.buf;
        var val :- iprot.ReadStr();
        ConsumedMore(xfer, val.xfer, b0, b2, iprot.buf);
        xfer := Plus(xfer, val.xfer);
        entries := Insert(entries, key.val, val.val);
      }
      return Done(entries, xfer);
    }

    method Write(oprot: TProtocol) returns (xfer: nat)
      requires Valid()
      modifies oprot
      ensures oprot.buf == old(oprot.buf) + RoundTrip.Write(SStruct(fields), View())
      ensures Appended(xfer, old(oprot.buf), oprot.buf)
      decreases fields, 0
    {
      xfer := 0;
      ghost var b0, v := oprot.buf, View();
      ghost var goal := b0 + Unwritten(fields, v, 0);
      for i := 0 to |fields|
        invariant oprot.buf + Unwritten(fields, v, i) == goal
        invariant Appended(xfer, b0, oprot.buf)
      {
        ghost var b1 := oprot.buf;
        var n := WriteIfSet(i, oprot);
        AppendedMore(xfer, n, b0, b1, oprot.buf);
        xfer := Plus(xfer, n);
      }
      ghost var b2 := oprot.buf;
      var n := oprot.WriteFieldStop();
      AppendedMore(xfer, n, b0, b2, oprot.buf);
      xfer := Plus(xfer, n);
    }

    /** One member, or nothing if it is optional and not set */
    method WriteIfSet(i: nat, oprot: TProtocol) returns (xfer: nat)
      requires Valid() && i < |fields|
      modifies oprot
      ensures oprot.buf + Unwritten(fields, View(), i + 1) == old(oprot.buf) + Unwritten(fields, View(), i)
      ensures Appended(xfer, old(oprot.buf), oprot.buf)
      decreases fields, -1
    {
      WriteTurn(fields, View(), i);
      xfer := 0;
      if !fields[i].kind.Optional? || isset[i] {
        xfer := WriteField(fields[i], vals[i], oprot);
      }
    }

    static method WriteField(f: Field, v: Value, oprot: TProtocol) returns (xfer: nat)
      requires GoodField(f) && TypedField(f, v)
      modifies oprot
      ensures oprot.buf == old(oprot.buf) + SerField(ToWireField(f, v))
      ensures Appended(xfer, old(oprot.buf), oprot.buf)
      decreases f, 2
    {
      ghost var b0 := oprot.buf;
      xfer := oprot.WriteFieldBegin(TagOfShape(f.shape), f.id);
      ghost var b1 := oprot.buf;
      var n := WriteMember(f.shape, v, oprot);
      AppendedMore(xfer, n, b0, b1, oprot.buf);
      xfer := Plus(xfer, n);
    }

    static method WriteMember(s: Shape, v: Value, oprot: TProtocol) returns (xfer: nat)
      requires GoodShape(s) && Typed(s, v)
      modifies oprot
      ensures oprot.buf == old(oprot.buf) + RoundTrip.Write(s, v)
      ensures Appended(xfer, old(oprot.buf), oprot.buf)
      decreases s, 1
    {
      match s
      case SBool =>
        xfer := oprot.WriteBool(v.b);
      case SInt(width) =>
        xfer := oprot.WriteI(width, v.n);
      case SStr =>
        xfer := oprot.WriteStr(v.s);
      case SStruct(fs) =>
        var member := new TStruct(fs, v);
        xfer := member.Write(oprot);
      case SList(e) =>
        xfer := WriteList(e, v.elems, oprot);
      case SMap =>
        xfer := WriteMap(v.entries, oprot);
    }

    static method WriteList(e: Shape, vs: seq<Value>, oprot: TProtocol) returns (xfer: nat)
      requires GoodShape(e) && FitsSize(|vs|) && forall k | 0 <= k < |vs| :: Typed(e, vs[k])
      modifies oprot
      ensures oprot.buf == old(oprot.buf) + RoundTrip.Write(SList(e), VList(vs))
      ensures Appended(xfer, old(oprot.buf), oprot.buf)
      decreases e, 2
    {
      ghost var b0 := oprot.buf;
      var t := TagOfShape(e);
      xfer := oprot.WriteListBegin(t, |vs|);
      ghost var goal := oprot.buf + SerElems(t, ToWireElems(e, vs));
      assert goal == b0 + RoundTrip.Write(SList(e), VList(vs));
      assert vs[0..] == vs;
      for i := 0 to |vs|
        invariant oprot.buf + SerElems(t, ToWireElems(e, vs[i..])) == goal
        invariant Appended(xfer, b0, oprot.buf)
      {
        assert vs[i..][1..] == vs[i + 1..];
        ListTurn(oprot.buf, e, vs[i..]);
        ghost var b1 := oprot.buf;
        var n := WriteMember(e, vs[i], oprot);
        AppendedMore(xfer, n, b0, b1, oprot.buf);
        xfer := Plus(xfer, n);
      }
    }

    static method WriteMap(es: seq<Entry>, oprot: TProtocol) returns (xfer: nat)
      requires FitsSize(|es|) && GoodEntries(es) && Sorted(es)
      modifies oprot
      ensures oprot.buf == old(oprot.buf) + RoundTrip.Write(SMap, VMap(es))
      ensures Appended(xfer, old(oprot.buf), oprot.buf)
    {
      ghost var b0 := oprot.buf;
      xfer := oprot.WriteMapBegin(T_STRING, T_STRING, |es|);
      ghost var goal := oprot.buf + SerPairs(T_STRING, T_STRING, ToWireEntries(es));
      assert goal == b0 + RoundTrip.Write(SMap, VMap(es));
      assert es[0..] == es;
      for i := 0 to |es|
        invariant oprot.buf + SerPairs(T_STRING, T_STRING, ToWireEntries(es[i..])) == goal
        invariant Appended(xfer, b0, oprot.buf)
      {
        assert es[i..][1..] == es[i + 1..];
        MapTurn(oprot.buf, es[i..]);
        ghost var b1 := oprot.buf;
        var n := WritePair(es[i], oprot);
        AppendedMore(xfer, n, b0, b1, oprot.buf);
        xfer := Plus(xfer, n);
      }
    }

    static method WritePair(e: Entry, oprot: TProtocol) returns (xfer: nat)
      requires FitsSize(|e.key|) && FitsSize(|e.val|)
      modifies oprot
      ensures oprot.buf == (old(oprot.buf) + EncBinary(e.key)) + EncBinary(e.val)
      ensures Appended(xfer, old(oprot.buf), oprot.buf)
    {
      ghost var b0 := oprot.buf;
      xfer := oprot.WriteStr(e.key);
      ghost var b1 := oprot.buf;
      var n := oprot.WriteStr(e.val);
      AppendedMore(xfer, n, b0, b1, oprot.buf);
      xfer := Plus(xfer, n);
    }
  }

  /** `a.write`, then `b.read` into a new object, with other messages behind: `b` equals `a`, the rest is
      left, and both sides count the same number of bytes. */
  method CopyThroughWire(a: TStruct, behind: bytes) returns (b: TStruct, left: bytes, written: nat, c: Call<()>)
    requires a.Valid() && BuiltStruct(a.fields, a.View())
    ensures b.Valid() && b.fields == a.fields
    ensures SameStruct(a.fields, a.View(), b.View()) && left == behind
    ensures c == Done((), written) && written == Wrap(|RoundTrip.Write(SStruct(a.fields), a.View())|)
  {
    var s := SStruct(a.fields);
    var transport := new TProtocol([]);
    written := a.Write(transport);
    var sent := transport.buf;
    assert sent == RoundTrip.Write(s, a.View());
    transport := new TProtocol(sent + behind);
    b := new TStruct(a.fields, Default(s));
    RoundTrips(s, a.View(), behind);
    c := b.Read(transport);
    left := transport.buf;
  }

  lemma {:induction false} MapTurn(buf: bytes, es: seq<Entry>)
    requires GoodEntries(es) && es != []
    ensures buf + SerPairs(T_STRING, T_STRING, ToWireEntries(es)) ==
            ((buf + EncBinary(es[0].key)) + EncBinary(es[0].val)) + SerPairs(T_STRING, T_STRING, ToWireEntries(es[1..]))
  {
    var ps := ToWireEntries(es);
    assert ps[1..] == ToWireEntries(es[1..]);
    StringPair(T_STRING, T_STRING, ps[0]);
  }

  lemma {:induction false} ListTurn(buf: bytes, e: Shape, vs: seq<Value>)
    requires GoodShape(e) && vs != [] && forall k | 0 <= k < |vs| :: Typed(e, vs[k])
    ensures buf + SerElems(TagOfShape(e), ToWireElems(e, vs)) ==
            (buf + RoundTrip.Write(e, vs[0])) + SerElems(TagOfShape(e), ToWireElems(e, vs[1..]))
  {
    assert ToWireElems(e, vs)[1..] == ToWireElems(e, vs[1..]);
  }
}
