/**
 The generated `write`, and what reading its output back gives: exactly, for any target object,
 and when the result equals the original under the generated `operator==`.
 */
module RoundTrip {
  import opened Bytes
  import opened ThriftBinary
  import opened Schema
  import opened Codec
  import opened CodecLaws

  // ---------------------------------------------------------------- write

  /** `if (this->__isset.x)` guards the optional members only */
  predicate Written(fs: seq<Field>, v: Value, i: nat)
    requires TypedStruct(fs, v) && i < |fs|
  {
    !fs[i].kind.Optional? || v.isset[i]
  }

  /** The value that `write` serialises */
  function ToWire(s: Shape, v: Value): (w: Wire)
    requires GoodShape(s) && Typed(s, v)
    ensures WellFormed(w) && Conforms(s, w) && TagOf(w) == TagOfShape(s)
    decreases s, 1, 0
  {
    match s
    case SBool => WBool(v.b)
    case SInt(width) => WInt(width, v.n)
    case SStr => WStr(v.s)
    case SStruct(fs) => WStruct(ToWireFields(fs, v, 0))
    case SList(e) => WList(false, TagOfShape(e), ToWireElems(e, v.elems))
    case SMap => ToWireMap(v.entries)
  }

  function ToWireField(f: Field, v: Value): (w: WireField)
    requires GoodField(f) && TypedField(f, v)
    ensures WellFormedField(w) && w.id == f.id && TagOf(w.w) == TagOfShape(f.shape) && Conforms(f.shape, w.w)
    decreases f, 2, 0
  {
    WireField(f.id, ToWire(f.shape, v))
  }

  function ToWireFields(fs: seq<Field>, v: Value, from: nat): (ws: seq<WireField>)
    requires GoodFields(fs) && TypedStruct(fs, v) && from <= |fs|
    ensures WellFormedFields(ws) && ConformsFields(fs, ws)
    decreases fs, 0, |fs| - from
  {
    if from == |fs| then []
    else
      var later := ToWireFields(fs, v, from + 1);
      assert GoodField(fs[from]) && TypedField(fs[from], v.vals[from]);
      if Written(fs, v, from) then
        var f := ToWireField(fs[from], v.vals[from]);
        TargetOfField(fs, from);
        [f] + later
      else later
  }

  function ToWireElems(e: Shape, vs: seq<Value>): (ws: seq<Wire>)
    requires GoodShape(e) && forall k | 0 <= k < |vs| :: Typed(e, vs[k])
    ensures |ws| == |vs| && WellFormedElems(TagOfShape(e), ws) && ConformsElems(e, ws)
    decreases e, 2, |vs|
  {
    if vs == [] then [] else [ToWire(e, vs[0])] + ToWireElems(e, vs[1..])
  }

  function ToWireEntries(es: seq<Entry>): (ps: seq<WirePair>)
    requires GoodEntries(es)
    ensures |ps| == |es| && WellFormedPairs(T_STRING, T_STRING, ps) && ConformsEntries(ps)
  {
    if es == [] then []
    else
      var p := WirePair(WStr(es[0].key), WStr(es[0].val));
      assert WellFormed(p.key) && WellFormed(p.val);
      assert WellFormedPair(T_STRING, T_STRING, p);
      [p] + ToWireEntries(es[1..])
  }

  /** A std::map is written in key order */
  function ToWireMap(es: seq<Entry>): (w: Wire)
    requires GoodEntries(es) && FitsSize(|es|)
    ensures w.WMap? && WellFormed(w) && Conforms(SMap, w)
  {
    WMap(T_STRING, T_STRING, ToWireEntries(es))
  }

  /** The bytes that `write` emits */
  function Write(s: Shape, v: Value): bytes
    requires GoodShape(s) && Typed(s, v)
  {
    Ser(ToWire(s, v))
  }

  // ---------------------------------------------------------------- reading it back

  /** `u` after v's serialisation was read into it: members that were written overwrite or, for
      nested structs, merge; the others keep u's value and flag. */
  function Overlay(s: Shape, u: Value, v: Value): (r: Value)
    requires GoodShape(s) && Typed(s, u) && Typed(s, v)
    ensures Typed(s, r)
    decreases s, 1
  {
    match s
    case SStruct(fs) => OverlayStruct(fs, u, v)
    case SList(e) => VList(OverlayElems(e, v.elems))
    case _ => v
  }

  function OverlayField(f: Field, u: Value, v: Value): (r: Value)
    requires GoodField(f) && TypedField(f, u) && TypedField(f, v)
    ensures TypedField(f, r)
    decreases f, 2
  {
    Overlay(f.shape, u, v)
  }

  function OverlayStruct(fs: seq<Field>, u: Value, v: Value): (r: Value)
    requires GoodFields(fs) && TypedStruct(fs, u) && TypedStruct(fs, v)
    ensures TypedStruct(fs, r)
    decreases fs, 0
  {
    VStruct(
      seq(|fs|, i requires 0 <= i < |fs| =>
        if Written(fs, v, i) then OverlayField(fs[i], u.vals[i], v.vals[i]) else u.vals[i]),
      seq(|fs|, i requires 0 <= i < |fs| => u.isset[i] || (!fs[i].kind.Required? && Written(fs, v, i))))
  }

  function OverlayElems(e: Shape, vs: seq<Value>): (r: seq<Value>)
    requires GoodShape(e) && forall k | 0 <= k < |vs| :: Typed(e, vs[k])
    ensures |r| == |vs| && forall k | 0 <= k < |vs| :: Typed(e, r[k])
    decreases e, 2
  {
    seq(|vs|, k requires 0 <= k < |vs| => Overlay(e, Default(e), vs[k]))
  }

  lemma {:induction false} WrittenOccurrence(fs: seq<Field>, v: Value, from: nat, i: nat)
    requires GoodFields(fs) && TypedStruct(fs, v) && from <= |fs| && i < |fs|
    requires GoodField(fs[i]) && TypedField(fs[i], v.vals[i])
    ensures Occurrences(fs, i, ToWireFields(fs, v, from)) ==
            if from <= i && Written(fs, v, i) then [ToWire(fs[i].shape, v.vals[i])] else []
    decreases |fs| - from
  {
    if from < |fs| {
      WrittenOccurrence(fs, v, from + 1, i);
      if Written(fs, v, from) {
        assert GoodField(fs[from]) && TypedField(fs[from], v.vals[from]);
        TargetOfField(fs, from);
        OccurrencesStep(fs, ToWireFields(fs, v, from), i);
        assert ToWireFields(fs, v, from)[1..] == ToWireFields(fs, v, from + 1);
      }
    }
  }

  lemma {:induction false} AbsorbWritten(s: Shape, u: Value, v: Value)
    requires GoodShape(s) && Typed(s, u) && Typed(s, v)
    ensures Absorb(s, u, ToWire(s, v)) == Some(Overlay(s, u, v))
    decreases s, 1, 0
  {
    match s {
      case SStruct(fs) =>
        AbsorbWrittenStruct(fs, u, v);
      case SList(e) =>
        AbsorbWrittenElems(e, v.elems);
      case SMap =>
        assert [] + v.entries == v.entries;
        AbsorbWrittenEntries([], v.entries);
      case _ =>
    }
  }

  lemma {:induction false} AbsorbWrittenMember(fs: seq<Field>, u: Value, v: Value, i: nat)
    requires GoodFields(fs) && TypedStruct(fs, u) && TypedStruct(fs, v) && i < |fs|
    requires GoodField(fs[i]) && TypedField(fs[i], u.vals[i]) && TypedField(fs[i], v.vals[i])
    requires Absorb(fs[i].shape, u.vals[i], ToWire(fs[i].shape, v.vals[i])) ==
             Some(OverlayField(fs[i], u.vals[i], v.vals[i]))
    ensures FoldMember(fs, u, i, ToWireFields(fs, v, 0)) == Some(OverlayStruct(fs, u, v).vals[i])
    ensures i in Supplied(fs, ToWireFields(fs, v, 0)) <==> Written(fs, v, i)
  {
    WrittenOccurrence(fs, v, 0, i);
    var ws := Occurrences(fs, i, ToWireFields(fs, v, 0));
    if Written(fs, v, i) {
      var r := OverlayField(fs[i], u.vals[i], v.vals[i]);
      assert Fold(fs[i].shape, r, ws[1..]) == Some(r);
    }
  }

  lemma {:induction false} AbsorbWrittenField(f: Field, u: Value, v: Value)
    requires GoodField(f) && TypedField(f, u) && TypedField(f, v)
    ensures Absorb(f.shape, u, ToWire(f.shape, v)) == Some(OverlayField(f, u, v))
    decreases f, 2, 0
  {
    AbsorbWritten(f.shape, u, v);
  }

  lemma {:induction false} AbsorbWrittenStruct(fs: seq<Field>, u: Value, v: Value)
    requires GoodFields(fs) && TypedStruct(fs, u) && TypedStruct(fs, v)
    ensures Absorb(SStruct(fs), u, WStruct(ToWireFields(fs, v, 0))) == Some(OverlayStruct(fs, u, v))
    decreases fs, 0, 0
  {
    var ws := ToWireFields(fs, v, 0);
    var p := Progress(u, {});
    forall i: nat | i < |fs|
      ensures FoldMember(fs, u, i, ws) == Some(OverlayStruct(fs, u, v).vals[i])
      ensures i in Supplied(fs, ws) <==> Written(fs, v, i)
    {
      assert GoodField(fs[i]) && TypedField(fs[i], u.vals[i]) && TypedField(fs[i], v.vals[i]);
      AbsorbWrittenField(fs[i], u.vals[i], v.vals[i]);
      AbsorbWrittenMember(fs, u, v, i);
    }
    FieldsAreIndependent(fs, p, ws);
    var r := AbsorbFields(fs, p, ws).value;
    assert r.obj.vals == OverlayStruct(fs, u, v).vals;
    assert r.obj.isset == OverlayStruct(fs, u, v).isset;
  }

  lemma {:induction false} AbsorbWrittenElems(e: Shape, vs: seq<Value>)
    requires GoodShape(e) && forall k | 0 <= k < |vs| :: Typed(e, vs[k])
    ensures AbsorbElems(e, TagOfShape(e), ToWireElems(e, vs)) == Some(OverlayElems(e, vs))
    decreases e, 2, |vs|
  {
    if vs != [] {
      AbsorbWritten(e, Default(e), vs[0]);
      AbsorbWrittenElems(e, vs[1..]);
      OverlayHead(e, vs);
      assert ToWireElems(e, vs)[1..] == ToWireElems(e, vs[1..]);
    }
  }

  lemma {:induction false} OverlayHead(e: Shape, vs: seq<Value>)
    requires GoodShape(e) && vs != [] && forall k | 0 <= k < |vs| :: Typed(e, vs[k])
    ensures OverlayElems(e, vs) == [Overlay(e, Default(e), vs[0])] + OverlayElems(e, vs[1..])
  {
  }

  lemma {:induction false} AbsorbWrittenEntries(acc: seq<Entry>, es: seq<Entry>)
    requires GoodEntries(acc) && GoodEntries(es) && Sorted(acc + es)
    ensures Sorted(acc)
    ensures AbsorbEntries(acc, T_STRING, T_STRING, ToWireEntries(es)) == acc + es
    decreases es
  {
    assert forall i | 0 <= i < |acc| :: (acc + es)[i] == acc[i];
    if es == [] {
      assert acc + es == acc;
    } else {
      var e := es[0];
      assert acc + es == (acc + [e]) + es[1..];
      assert Sorted(acc + [e]) by {
        assert forall i | 0 <= i < |acc| + 1 :: (acc + es)[i] == (acc + [e])[i];
      }
      InsertLast(acc, e.key, e.val);
      assert e == Entry(e.key, e.val);
      AbsorbWrittenEntries(acc + [e], es[1..]);
      assert ToWireEntries(es)[1..] == ToWireEntries(es[1..]);
    }
  }

  // ---------------------------------------------------------------- the theorems

  /** Reading what was written, into any object and with anything after it: the reader consumes
      exactly the bytes written and never throws. */
  lemma {:induction false} WriteThenRead(s: Shape, u: Value, v: Value, rest: bytes)
    requires GoodShape(s) && Typed(s, u) && Typed(s, v)
    ensures ReadValue(s, u, Write(s, v) + rest) == Ok(Overlay(s, u, v), rest)
  {
    AbsorbWritten(s, u, v);
    ReadIsAbsorb(s, u, ToWire(s, v), rest);
  }

  /** The only way a read-back can differ: an optional member unset in the value written, and so
      absent from the wire, was already set in the object read into. */
  predicate Fresh(s: Shape, u: Value, v: Value)
    requires GoodShape(s) && Typed(s, u) && Typed(s, v)
    decreases s, 1
  {
    match s
    case SStruct(fs) => FreshStruct(fs, u, v)
    case SList(e) => forall k | 0 <= k < |v.elems| :: Fresh(e, Default(e), v.elems[k])
    case _ => true
  }

  predicate FreshField(f: Field, u: Value, v: Value)
    requires GoodField(f) && TypedField(f, u) && TypedField(f, v)
    decreases f, 2
  {
    Fresh(f.shape, u, v)
  }

  predicate FreshStruct(fs: seq<Field>, u: Value, v: Value)
    requires GoodFields(fs) && TypedStruct(fs, u) && TypedStruct(fs, v)
    decreases fs, 1
  {
    forall i | 0 <= i < |fs| :: FreshMember(fs, u, v, i)
  }

  predicate FreshMember(fs: seq<Field>, u: Value, v: Value, i: nat)
    requires GoodFields(fs) && TypedStruct(fs, u) && TypedStruct(fs, v) && i < |fs|
    decreases fs, 0
  {
    assert GoodField(fs[i]) && TypedField(fs[i], u.vals[i]) && TypedField(fs[i], v.vals[i]);
    if Written(fs, v, i) then FreshField(fs[i], u.vals[i], v.vals[i]) else !u.isset[i]
  }

  /** The read-back equals the original under the generated `operator==` iff the target was Fresh. */
  lemma {:induction false} SameExactlyWhenFresh(s: Shape, u: Value, v: Value)
    requires GoodShape(s) && Typed(s, u) && Typed(s, v)
    ensures Same(s, v, Overlay(s, u, v)) <==> Fresh(s, u, v)
    decreases s, 1
  {
    match s {
      case SStruct(fs) =>
        SameStructExactlyWhenFresh(fs, u, v);
      case SList(e) =>
        var r := OverlayElems(e, v.elems);
        forall k | 0 <= k < |v.elems|
          ensures Same(e, v.elems[k], r[k]) <==> Fresh(e, Default(e), v.elems[k])
        {
          SameExactlyWhenFresh(e, Default(e), v.elems[k]);
        }
        assert Overlay(s, u, v) == VList(r);
      case _ =>
    }
  }

  lemma {:induction false} SameStructExactlyWhenFresh(fs: seq<Field>, u: Value, v: Value)
    requires GoodFields(fs) && TypedStruct(fs, u) && TypedStruct(fs, v)
    ensures SameStruct(fs, v, OverlayStruct(fs, u, v)) <==> FreshStruct(fs, u, v)
    decreases fs, 0
  {
    var r := OverlayStruct(fs, u, v);
    forall i | 0 <= i < |fs|
      ensures TypedField(fs[i], v.vals[i]) && TypedField(fs[i], r.vals[i])
      ensures SameField(fs[i], v.vals[i], v.isset[i], r.vals[i], r.isset[i]) <==> FreshMember(fs, u, v, i)
    {
      assert GoodField(fs[i]);
      assert TypedField(fs[i], u.vals[i]) && TypedField(fs[i], v.vals[i]) && TypedField(fs[i], r.vals[i]);
      SameFieldExactlyWhenFresh(fs[i], u.vals[i], v.vals[i]);
    }
  }

  lemma {:induction false} SameFieldExactlyWhenFresh(f: Field, u: Value, v: Value)
    requires GoodField(f) && TypedField(f, u) && TypedField(f, v)
    ensures Same(f.shape, v, OverlayField(f, u, v)) <==> FreshField(f, u, v)
    decreases f, 2
  {
    SameExactlyWhenFresh(f.shape, u, v);
  }

  // ---------------------------------------------------------------- equality

  lemma {:induction false} SameIsWrittenAlike(s: Shape, a: Value, b: Value)
    requires GoodShape(s) && Typed(s, a) && Typed(s, b) && Same(s, a, b)
    ensures ToWire(s, a) == ToWire(s, b)
    decreases s, 1, 0
  {
    match s {
      case SStruct(fs) =>
        SameFieldsAreWrittenAlike(fs, a, b, 0);
      case SList(e) =>
        SameElemsAreWrittenAlike(e, a.elems, b.elems);
      case _ =>
    }
  }

  lemma {:induction false} SameFieldIsWrittenAlike(f: Field, a: Value, b: Value)
    requires GoodField(f) && TypedField(f, a) && TypedField(f, b) && Same(f.shape, a, b)
    ensures ToWireField(f, a) == ToWireField(f, b)
    decreases f, 2, 0
  {
    SameIsWrittenAlike(f.shape, a, b);
  }

  lemma {:induction false} SameFieldsAreWrittenAlike(fs: seq<Field>, a: Value, b: Value, from: nat)
    requires GoodFields(fs) && TypedStruct(fs, a) && TypedStruct(fs, b) && SameStruct(fs, a, b) && from <= |fs|
    ensures ToWireFields(fs, a, from) == ToWireFields(fs, b, from)
    decreases fs, 0, |fs| - from
  {
    if from < |fs| {
      SameFieldsAreWrittenAlike(fs, a, b, from + 1);
      assert GoodField(fs[from]) && TypedField(fs[from], a.vals[from]) && TypedField(fs[from], b.vals[from]);
      assert SameField(fs[from], a.vals[from], a.isset[from], b.vals[from], b.isset[from]);
      if Written(fs, a, from) {
        SameFieldIsWrittenAlike(fs[from], a.vals[from], b.vals[from]);
      }
    }
  }

  lemma {:induction false} SameElemsAreWrittenAlike(e: Shape, vs: seq<Value>, us: seq<Value>)
    requires GoodShape(e) && |vs| == |us|
    requires forall k | 0 <= k < |vs| :: Typed(e, vs[k]) && Typed(e, us[k]) && Same(e, vs[k], us[k])
    ensures ToWireElems(e, vs) == ToWireElems(e, us)
    decreases e, 2, |vs|
  {
    if vs != [] {
      SameIsWrittenAlike(e, vs[0], us[0]);
      SameElemsAreWrittenAlike(e, vs[1..], us[1..]);
    }
  }

  /** Two values that are written alike, whatever follows, are the same, and so is what follows. */
  lemma {:induction false} WrittenAlikeIsSame(s: Shape, a: Value, b: Value, p: bytes, q: bytes)
    requires GoodShape(s) && Typed(s, a) && Typed(s, b) && Write(s, a) + p == Write(s, b) + q
    ensures Same(s, a, b) && p == q
    decreases s, 1, 0
  {
    match s {
      case SStruct(fs) =>
        FieldsWrittenAlike(fs, a, b, 0, p, q);
      case SList(e) =>
        ListsWrittenAlike(e, a.elems, b.elems, p, q);
      case _ =>
        WriteThenRead(s, a, a, p);
        WriteThenRead(s, a, b, q);
    }
  }

  lemma {:induction false} ListsWrittenAlike(e: Shape, vs: seq<Value>, us: seq<Value>, p: bytes, q: bytes)
    requires GoodShape(SList(e)) && Typed(SList(e), VList(vs)) && Typed(SList(e), VList(us))
    requires Write(SList(e), VList(vs)) + p == Write(SList(e), VList(us)) + q
    ensures Same(SList(e), VList(vs), VList(us)) && p == q
    decreases e, 3, 0
  {
    var t := TagOfShape(e);
    ListHeader(ToWire(SList(e), VList(vs)), p);
    ListHeader(ToWire(SList(e), VList(us)), q);
    ElemsWrittenAlike(e, vs, us, p, q);
  }

  lemma {:induction false} ElemsWrittenAlike(e: Shape, vs: seq<Value>, us: seq<Value>, p: bytes, q: bytes)
    requires GoodShape(e) && |vs| == |us| && forall k | 0 <= k < |vs| :: Typed(e, vs[k]) && Typed(e, us[k])
    requires SerElems(TagOfShape(e), ToWireElems(e, vs)) + p == SerElems(TagOfShape(e), ToWireElems(e, us)) + q
    ensures (forall k | 0 <= k < |vs| :: Same(e, vs[k], us[k])) && p == q
    decreases e, 2, |vs|
  {
    var t := TagOfShape(e);
    if vs == [] {
      assert [] + p == p && [] + q == q;
    } else {
      ElemsSplit(e, vs, p);
      ElemsSplit(e, us, q);
      var p1, q1 := SerElems(t, ToWireElems(e, vs[1..])) + p, SerElems(t, ToWireElems(e, us[1..])) + q;
      WrittenAlikeIsSame(e, vs[0], us[0], p1, q1);
      ElemsWrittenAlike(e, vs[1..], us[1..], p, q);
    }
  }

  lemma {:induction false} ElemsSplit(e: Shape, vs: seq<Value>, p: bytes)
    requires GoodShape(e) && vs != [] && forall k | 0 <= k < |vs| :: Typed(e, vs[k])
    ensures SerElems(TagOfShape(e), ToWireElems(e, vs)) + p ==
            Write(e, vs[0]) + (SerElems(TagOfShape(e), ToWireElems(e, vs[1..])) + p)
  {
    var ws, later := ToWireElems(e, vs), ToWireElems(e, vs[1..]);
    assert ws[0] == ToWire(e, vs[0]) && ws[1..] == later;
    SerElemsSplit(TagOfShape(e), ws, p);
  }

  /** What is written from field i on, and what follows */
  function Tail(fs: seq<Field>, v: Value, i: nat, p: bytes): bytes
    requires GoodFields(fs) && TypedStruct(fs, v) && i <= |fs|
  {
    SerFields(ToWireFields(fs, v, i)) + p
  }

  lemma {:induction false} TailUnwritten(fs: seq<Field>, v: Value, i: nat, p: bytes)
    requires GoodFields(fs) && TypedStruct(fs, v) && i < |fs| && !Written(fs, v, i)
    ensures Tail(fs, v, i, p) == Tail(fs, v, i + 1, p)
  {
  }

  lemma {:induction false} TailWritten(fs: seq<Field>, v: Value, i: nat, p: bytes)
    requires GoodFields(fs) && TypedStruct(fs, v) && i < |fs| && Written(fs, v, i)
    ensures GoodField(fs[i]) && TypedField(fs[i], v.vals[i])
    ensures var t := Tail(fs, v, i, p);
            && |t| >= 3 && t[0] != T_STOP
            && ReadInt(2, t[1..]) == Ok(fs[i].id, Write(fs[i].shape, v.vals[i]) + Tail(fs, v, i + 1, p))
  {
    assert GoodField(fs[i]) && TypedField(fs[i], v.vals[i]);
    var f := ToWireField(fs[i], v.vals[i]);
    var later := ToWireFields(fs, v, i + 1);
    assert ([f] + later)[1..] == later;
    assert Tail(fs, v, i, p) == SerField(f) + Tail(fs, v, i + 1, p);
    FieldHeader(f, Tail(fs, v, i + 1, p));
  }

  /** What follows field i starts with a stop byte or with the id of a later field. */
  lemma {:induction false} TailStarts(fs: seq<Field>, v: Value, i: nat, p: bytes)
    requires GoodFields(fs) && TypedStruct(fs, v) && i <= |fs|
    ensures var t := Tail(fs, v, i, p);
            && t != []
            && (t[0] == T_STOP ||
                exists j, rest :: i <= j < |fs| && ReadInt(2, t[1..]) == Ok(fs[j].id, rest))
    decreases |fs| - i
  {
    if i == |fs| {
      assert Tail(fs, v, i, p)[0] == T_STOP;
    } else if Written(fs, v, i) {
      TailWritten(fs, v, i, p);
    } else {
      TailUnwritten(fs, v, i, p);
      TailStarts(fs, v, i + 1, p);
    }
  }

  /** A written field is not mistaken for anything that comes later. */
  lemma {:induction false} WrittenOnOneSide(fs: seq<Field>, a: Value, b: Value, i: nat, p: bytes, q: bytes)
    requires GoodFields(fs) && TypedStruct(fs, a) && TypedStruct(fs, b) && i < |fs|
    requires Written(fs, a, i) && !Written(fs, b, i)
    ensures Tail(fs, a, i, p) != Tail(fs, b, i, q)
  {
    TailWritten(fs, a, i, p);
    TailUnwritten(fs, b, i, q);
    TailStarts(fs, b, i + 1, q);
  }

  lemma {:induction false} FieldsWrittenAlike(fs: seq<Field>, a: Value, b: Value, i: nat, p: bytes, q: bytes)
    requires GoodFields(fs) && TypedStruct(fs, a) && TypedStruct(fs, b) && i <= |fs|
    requires Tail(fs, a, i, p) == Tail(fs, b, i, q)
    ensures forall k | i <= k < |fs| :: SameField(fs[k], a.vals[k], a.isset[k], b.vals[k], b.isset[k])
    ensures p == q
    decreases fs, 0, |fs| - i
  {
    if i == |fs| {
      assert ([T_STOP] + p)[1..] == p && ([T_STOP] + q)[1..] == q;
    } else {
      assert GoodField(fs[i]) && TypedField(fs[i], a.vals[i]) && TypedField(fs[i], b.vals[i]);
      if Written(fs, a, i) && Written(fs, b, i) {
        TailWritten(fs, a, i, p);
        TailWritten(fs, b, i, q);
        MemberWrittenAlike(fs[i], a.vals[i], b.vals[i], Tail(fs, a, i + 1, p), Tail(fs, b, i + 1, q));
      } else if Written(fs, a, i) {
        WrittenOnOneSide(fs, a, b, i, p, q);
      } else if Written(fs, b, i) {
        WrittenOnOneSide(fs, b, a, i, q, p);
      } else {
        TailUnwritten(fs, a, i, p);
        TailUnwritten(fs, b, i, q);
      }
      FieldsWrittenAlike(fs, a, b, i + 1, p, q);
    }
  }

  lemma {:induction false} MemberWrittenAlike(f: Field, a: Value, b: Value, p: bytes, q: bytes)
    requires GoodField(f) && TypedField(f, a) && TypedField(f, b)
    requires Write(f.shape, a) + p == Write(f.shape, b) + q
    ensures Same(f.shape, a, b) && p == q
    decreases f, 2, 0
  {
    WrittenAlikeIsSame(f.shape, a, b, p, q);
  }

  /** Two objects are equal under the generated `operator==` exactly when they are written alike. */
  lemma {:induction false} SameExactlyWhenWrittenAlike(s: Shape, a: Value, b: Value)
    requires GoodShape(s) && Typed(s, a) && Typed(s, b)
    ensures Same(s, a, b) <==> Write(s, a) == Write(s, b)
  {
    if Same(s, a, b) {
      SameIsWrittenAlike(s, a, b);
    }
    if Write(s, a) == Write(s, b) {
      WrittenAlikeIsSame(s, a, b, [], []);
    }
  }

  // ---------------------------------------------------------------- objects the program can build

  /** Flags that start true are true, at every depth */
  predicate Built(s: Shape, v: Value)
    requires Typed(s, v)
    decreases s, 1
  {
    match s
    case SStruct(fs) => BuiltStruct(fs, v)
    case SList(e) => forall k | 0 <= k < |v.elems| :: Built(e, v.elems[k])
    case _ => true
  }

  predicate BuiltField(f: Field, v: Value)
    requires TypedField(f, v)
    decreases f, 2
  {
    Built(f.shape, v)
  }

  predicate BuiltStruct(fs: seq<Field>, v: Value)
    requires TypedStruct(fs, v)
    decreases fs, 0
  {
    forall i | 0 <= i < |fs| :: (fs[i].preset.Some? ==> v.isset[i]) && BuiltField(fs[i], v.vals[i])
  }

  lemma {:induction false} DefaultIsBuilt(s: Shape)
    requires GoodShape(s)
    ensures Built(s, Default(s))
    decreases s, 1
  {
    if s.SStruct? {
      var v := Default(s);
      forall i | 0 <= i < |s.fields|
        ensures TypedField(s.fields[i], v.vals[i]) && BuiltField(s.fields[i], v.vals[i])
      {
        assert GoodField(s.fields[i]);
        DefaultFieldIsBuilt(s.fields[i]);
      }
    }
  }

  lemma {:induction false} DefaultFieldIsBuilt(f: Field)
    requires GoodField(f)
    ensures BuiltField(f, DefaultField(f))
    decreases f, 2
  {
    DefaultIsBuilt(f.shape);
  }

  lemma {:induction false} SetterKeepsBuilt(fs: seq<Field>, obj: Value, i: nat, v: Value)
    requires GoodFields(fs) && TypedStruct(fs, obj) && i < |fs| && TypedField(fs[i], v)
    requires BuiltStruct(fs, obj) && BuiltField(fs[i], v)
    ensures BuiltStruct(fs, Setter(fs, obj, i, v))
    ensures Setter(fs, obj, i, v).vals[i] == v && Written(fs, Setter(fs, obj, i, v), i)
  {
    var r := Setter(fs, obj, i, v);
    forall j | 0 <= j < |fs|
      ensures TypedField(fs[j], r.vals[j]) && BuiltField(fs[j], r.vals[j]) && (fs[j].preset.Some? ==> r.isset[j])
    {
      assert GoodField(fs[j]) && TypedField(fs[j], obj.vals[j]);
    }
  }

  lemma {:induction false} ReadKeepsBuilt(s: Shape, u: Value, w: Wire)
    requires GoodShape(s) && Typed(s, u) && WellFormed(w) && Conforms(s, w)
    requires Built(s, u) && Absorb(s, u, w).Some?
    ensures Built(s, Absorb(s, u, w).value)
    decreases w, 1
  {
    match s {
      case SStruct(fs) =>
        ReadFieldsKeepsBuilt(fs, Progress(u, {}), w.fields);
      case SList(e) =>
        ReadElemsKeepsBuilt(e, w.etype, w.elems);
      case _ =>
    }
  }

  lemma {:induction false} ReadFieldKeepsBuilt(fs: seq<Field>, p: Progress, f: WireField)
    requires GoodFields(fs) && GoodProgress(fs, p) && WellFormedField(f) && ConformsField(fs, f)
    requires BuiltStruct(fs, p.obj) && AbsorbField(fs, p, f).Some?
    ensures BuiltStruct(fs, AbsorbField(fs, p, f).value.obj)
    decreases f, 2
  {
    var i := TargetOf(fs, f);
    if i < |fs| {
      assert GoodField(fs[i]) && TypedField(fs[i], p.obj.vals[i]);
      assert BuiltField(fs[i], p.obj.vals[i]);
      ReadKeepsBuilt(fs[i].shape, p.obj.vals[i], f.w);
      var v := Absorb(fs[i].shape, p.obj.vals[i], f.w).value;
      StoreKeepsBuilt(fs, p.obj, i, v);
    }
  }

  lemma {:induction false} StoreKeepsBuilt(fs: seq<Field>, obj: Value, i: nat, v: Value)
    requires GoodFields(fs) && TypedStruct(fs, obj) && i < |fs| && TypedField(fs[i], v)
    requires BuiltStruct(fs, obj) && BuiltField(fs[i], v)
    ensures BuiltStruct(fs, Store(fs, obj, i, v))
  {
    var r := Store(fs, obj, i, v);
    forall j | 0 <= j < |fs|
      ensures TypedField(fs[j], r.vals[j]) && BuiltField(fs[j], r.vals[j]) && (fs[j].preset.Some? ==> r.isset[j])
    {
      assert TypedField(fs[j], obj.vals[j]);
    }
  }

  lemma {:induction false} ReadFieldsKeepsBuilt(fs: seq<Field>, p: Progress, ws: seq<WireField>)
    requires GoodFields(fs) && GoodProgress(fs, p) && WellFormedFields(ws) && ConformsFields(fs, ws)
    requires BuiltStruct(fs, p.obj) && AbsorbFields(fs, p, ws).Some?
    ensures BuiltStruct(fs, AbsorbFields(fs, p, ws).value.obj)
    decreases ws, 0
  {
    if ws != [] {
      ReadFieldKeepsBuilt(fs, p, ws[0]);
      ReadFieldsKeepsBuilt(fs, AbsorbField(fs, p, ws[0]).value, ws[1..]);
    }
  }

  lemma {:induction false} ReadElemsKeepsBuilt(e: Shape, et: byte, ws: seq<Wire>)
    requires GoodShape(e) && WellFormedElems(et, ws) && ConformsElems(e, ws)
    requires AbsorbElems(e, et, ws).Some?
    ensures forall k | 0 <= k < |ws| :: Built(e, AbsorbElems(e, et, ws).value[k])
    decreases ws, 0
  {
    if ws != [] {
      DefaultIsBuilt(e);
      ReadKeepsBuilt(e, Default(e), ws[0]);
      ReadElemsKeepsBuilt(e, et, ws[1..]);
    }
  }

  lemma {:induction false} BuiltIsFresh(s: Shape, v: Value)
    requires GoodShape(s) && Typed(s, v) && Built(s, v)
    ensures Fresh(s, Default(s), v)
    decreases s, 1
  {
    match s {
      case SStruct(fs) =>
        var u := Default(s);
        forall i | 0 <= i < |fs|
          ensures TypedField(fs[i], u.vals[i]) && TypedField(fs[i], v.vals[i]) && GoodField(fs[i])
          ensures FreshMember(fs, u, v, i)
        {
          assert GoodField(fs[i]) && TypedField(fs[i], v.vals[i]) && BuiltField(fs[i], v.vals[i]);
          BuiltFieldIsFresh(fs[i], v.vals[i]);
        }
        assert FreshStruct(fs, u, v);
      case SList(e) =>
        forall k | 0 <= k < |v.elems| ensures Fresh(e, Default(e), v.elems[k]) {
          BuiltIsFresh(e, v.elems[k]);
        }
      case _ =>
    }
  }

  lemma {:induction false} BuiltFieldIsFresh(f: Field, v: Value)
    requires GoodField(f) && TypedField(f, v) && BuiltField(f, v)
    ensures FreshField(f, DefaultField(f), v)
    decreases f, 2
  {
    if f.shape.SStruct? || f.shape.SList? {
      BuiltIsFresh(f.shape, v);
    }
  }

  /** The round trip: any object the program can build survives write and read into a fresh object
      unchanged under `operator==`, with the following bytes untouched. */
  lemma {:induction false} RoundTrips(s: Shape, v: Value, rest: bytes)
    requires GoodShape(s) && Typed(s, v) && Built(s, v)
    ensures var r := ReadValue(s, Default(s), Write(s, v) + rest);
            r.Ok? && r.rest == rest && Same(s, v, r.val)
  {
    WriteThenRead(s, Default(s), v, rest);
    BuiltIsFresh(s, v);
    SameExactlyWhenFresh(s, Default(s), v);
  }
}
