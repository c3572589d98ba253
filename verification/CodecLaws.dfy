/**
 Laws of the generated readers, for every field table: members are independent folds of their own
 occurrences, INVALID_DATA has an exact cause, and what an older reader does not know it does not
 notice.
 */
module CodecLaws {
  import opened Bytes
  import opened ThriftBinary
  import opened Schema
  import opened Codec

  // ---------------------------------------------------------------- members are independent

  function TargetOf(fs: seq<Field>, f: WireField): nat {
    Target(fs, f.id, TagOf(f.w))
  }

  /** The well-typed occurrences of member i, in wire order */
  function Occurrences(fs: seq<Field>, i: nat, ws: seq<WireField>): (r: seq<Wire>)
    requires i < |fs| && WellFormedFields(ws) && ConformsFields(fs, ws)
    ensures AllConform(fs[i].shape, r)
  {
    if ws == [] then []
    else
      var later := Occurrences(fs, i, ws[1..]);
      assert WellFormedField(ws[0]) && ConformsField(fs, ws[0]);
      if TargetOf(fs, ws[0]) == i then [ws[0].w] + later else later
  }

  predicate AllConform(s: Shape, ws: seq<Wire>) {
    forall k | 0 <= k < |ws| :: WellFormed(ws[k]) && Conforms(s, ws[k])
  }

  /** Reading one member's occurrences one after the other */
  function Fold(s: Shape, v: Value, ws: seq<Wire>): (r: Option<Value>)
    requires GoodShape(s) && Typed(s, v) && AllConform(s, ws)
    ensures r.Some? ==> Typed(s, r.value)
    decreases ws
  {
    if ws == [] then Some(v)
    else
      var v1 :- Absorb(s, v, ws[0]);
      Fold(s, v1, ws[1..])
  }

  function FoldMember(fs: seq<Field>, obj: Value, i: nat, ws: seq<WireField>): Option<Value>
    requires GoodFields(fs) && TypedStruct(fs, obj) && i < |fs|
    requires WellFormedFields(ws) && ConformsFields(fs, ws)
  {
    assert GoodField(fs[i]) && TypedField(fs[i], obj.vals[i]);
    Fold(fs[i].shape, obj.vals[i], Occurrences(fs, i, ws))
  }

  function Supplied(fs: seq<Field>, ws: seq<WireField>): set<nat>
    requires WellFormedFields(ws) && ConformsFields(fs, ws)
  {
    set i: nat | i < |fs| && Occurrences(fs, i, ws) != []
  }

  /** The field loop as a whole: each member ends as the fold of its own occurrences, its flag is
      raised iff it occurred, and the loop throws iff some member's own fold throws. */
  ghost predicate MemberWise(fs: seq<Field>, p: Progress, ws: seq<WireField>, r: Option<Progress>)
    requires GoodFields(fs) && GoodProgress(fs, p) && WellFormedFields(ws) && ConformsFields(fs, ws)
  {
    && (r.Some? <==> forall i: nat | i < |fs| :: FoldMember(fs, p.obj, i, ws).Some?)
    && (r.Some? ==>
          && GoodProgress(fs, r.value)
          && r.value.seen == p.seen + Supplied(fs, ws)
          && forall i: nat | i < |fs| ::
               && FoldMember(fs, p.obj, i, ws) == Some(r.value.obj.vals[i])
               && r.value.obj.isset[i] == (p.obj.isset[i] || (!fs[i].kind.Required? && i in Supplied(fs, ws))))
  }

  lemma {:induction false} OccurrencesStep(fs: seq<Field>, ws: seq<WireField>, i: nat)
    requires i < |fs| && ws != [] && WellFormedFields(ws) && ConformsFields(fs, ws)
    ensures Occurrences(fs, i, ws) ==
            (if TargetOf(fs, ws[0]) == i then [ws[0].w] else []) + Occurrences(fs, i, ws[1..])
  {
  }

  lemma {:induction false} FoldMemberStep(fs: seq<Field>, p: Progress, ws: seq<WireField>, p1: Progress, i: nat)
    requires GoodFields(fs) && GoodProgress(fs, p) && WellFormedFields(ws) && ConformsFields(fs, ws)
    requires ws != [] && AbsorbField(fs, p, ws[0]) == Some(p1) && i < |fs|
    ensures FoldMember(fs, p.obj, i, ws) == FoldMember(fs, p1.obj, i, ws[1..])
  {
    OccurrencesStep(fs, ws, i);
    var later := Occurrences(fs, i, ws[1..]);
    if TargetOf(fs, ws[0]) == i {
      assert GoodField(fs[i]) && TypedField(fs[i], p.obj.vals[i]);
      assert ([ws[0].w] + later)[1..] == later;
    } else {
      assert p1.obj.vals[i] == p.obj.vals[i];
      assert [] + later == later;
    }
  }

  lemma {:induction false} FailingHead(fs: seq<Field>, p: Progress, ws: seq<WireField>)
    requires GoodFields(fs) && GoodProgress(fs, p) && WellFormedFields(ws) && ConformsFields(fs, ws)
    requires ws != [] && AbsorbField(fs, p, ws[0]).None?
    ensures TargetOf(fs, ws[0]) < |fs| && FoldMember(fs, p.obj, TargetOf(fs, ws[0]), ws).None?
  {
    var i := TargetOf(fs, ws[0]);
    OccurrencesStep(fs, ws, i);
    assert GoodField(fs[i]) && TypedField(fs[i], p.obj.vals[i]);
  }

  lemma {:induction false} SuppliedStep(fs: seq<Field>, ws: seq<WireField>)
    requires ws != [] && WellFormedFields(ws) && ConformsFields(fs, ws)
    ensures Supplied(fs, ws) ==
            (if TargetOf(fs, ws[0]) < |fs| then {TargetOf(fs, ws[0])} else {}) + Supplied(fs, ws[1..])
  {
    forall i: nat | i < |fs|
      ensures i in Supplied(fs, ws) <==> i == TargetOf(fs, ws[0]) || i in Supplied(fs, ws[1..])
    {
      OccurrencesStep(fs, ws, i);
    }
  }

  lemma {:induction false} MemberWiseStep(fs: seq<Field>, p: Progress, ws: seq<WireField>, p1: Progress,
                                          r: Option<Progress>)
    requires GoodFields(fs) && GoodProgress(fs, p) && WellFormedFields(ws) && ConformsFields(fs, ws)
    requires ws != [] && AbsorbField(fs, p, ws[0]) == Some(p1)
    requires MemberWise(fs, p1, ws[1..], r)
    ensures MemberWise(fs, p, ws, r)
  {
    forall i: nat | i < |fs|
      ensures FoldMember(fs, p.obj, i, ws) == FoldMember(fs, p1.obj, i, ws[1..])
    {
      FoldMemberStep(fs, p, ws, p1, i);
    }
    SuppliedStep(fs, ws);
    FlagsStep(fs, p, ws[0], p1);
    assert p1.seen + Supplied(fs, ws[1..]) == p.seen + Supplied(fs, ws);
  }

  lemma {:induction false} FlagsStep(fs: seq<Field>, p: Progress, f: WireField, p1: Progress)
    requires GoodFields(fs) && GoodProgress(fs, p) && WellFormedField(f) && ConformsField(fs, f)
    requires AbsorbField(fs, p, f) == Some(p1)
    ensures p1.seen == p.seen + (if TargetOf(fs, f) < |fs| then {TargetOf(fs, f)} else {})
    ensures forall i: nat | i < |fs| ::
              p1.obj.isset[i] == (p.obj.isset[i] || (!fs[i].kind.Required? && i == TargetOf(fs, f)))
  {
  }

  lemma {:induction false} FieldsAreIndependent(fs: seq<Field>, p: Progress, ws: seq<WireField>)
    requires GoodFields(fs) && GoodProgress(fs, p) && WellFormedFields(ws) && ConformsFields(fs, ws)
    ensures MemberWise(fs, p, ws, AbsorbFields(fs, p, ws))
    decreases ws
  {
    if ws == [] {
      assert Supplied(fs, ws) == {};
    } else {
      var head := AbsorbField(fs, p, ws[0]);
      if head.None? {
        FailingHead(fs, p, ws);
      } else {
        FieldsAreIndependent(fs, head.value, ws[1..]);
        MemberWiseStep(fs, p, ws, head.value, AbsorbFields(fs, p, ws));
      }
    }
  }

  /** Two messages that agree on every member's own occurrences are read alike: the order in which
      different members are interleaved, and everything skipped, is immaterial. */
  lemma {:induction false} OnlyOccurrencesMatter(fs: seq<Field>, v: Value, ws: seq<WireField>, us: seq<WireField>)
    requires GoodShape(SStruct(fs)) && TypedStruct(fs, v)
    requires WellFormedFields(ws) && ConformsFields(fs, ws) && WellFormedFields(us) && ConformsFields(fs, us)
    requires forall i: nat | i < |fs| :: Occurrences(fs, i, ws) == Occurrences(fs, i, us)
    ensures Absorb(SStruct(fs), v, WStruct(ws)) == Absorb(SStruct(fs), v, WStruct(us))
  {
    var p := Progress(v, {});
    FieldsAreIndependent(fs, p, ws);
    FieldsAreIndependent(fs, p, us);
    assert Supplied(fs, ws) == Supplied(fs, us);
    assert forall i: nat | i < |fs| :: FoldMember(fs, v, i, ws) == FoldMember(fs, v, i, us);
    var a, b := AbsorbFields(fs, p, ws), AbsorbFields(fs, p, us);
    if a.Some? {
      assert a.value.obj.vals == b.value.obj.vals;
      assert a.value.obj.isset == b.value.obj.isset;
      assert a.value == b.value;
    }
  }

  predicate DistinctIds(ws: seq<WireField>) {
    forall j, k | 0 <= j < k < |ws| :: ws[j].id != ws[k].id
  }

  ghost predicate Carries(fs: seq<Field>, i: nat, ws: seq<WireField>, w: Wire) {
    exists k :: 0 <= k < |ws| && TargetOf(fs, ws[k]) == i && ws[k].w == w
  }

  lemma {:induction false} OccurrenceMembers(fs: seq<Field>, i: nat, ws: seq<WireField>, w: Wire)
    requires i < |fs| && WellFormedFields(ws) && ConformsFields(fs, ws)
    ensures w in Occurrences(fs, i, ws) <==> Carries(fs, i, ws, w)
  {
    if ws != [] {
      var t := ws[1..];
      OccurrenceMembers(fs, i, t, w);
      OccurrencesStep(fs, ws, i);
      if Carries(fs, i, ws, w) {
        var k :| 0 <= k < |ws| && TargetOf(fs, ws[k]) == i && ws[k].w == w;
        assert k > 0 ==> t[k - 1] == ws[k];
      }
      if Carries(fs, i, t, w) {
        var k :| 0 <= k < |t| && TargetOf(fs, t[k]) == i && t[k].w == w;
        assert ws[k + 1] == t[k];
      }
    }
  }

  lemma {:induction false} OccurrenceOfDistinct(fs: seq<Field>, i: nat, ws: seq<WireField>)
    requires i < |fs| && WellFormedFields(ws) && ConformsFields(fs, ws) && DistinctIds(ws)
    ensures |Occurrences(fs, i, ws)| <= 1
  {
    if ws != [] {
      var t := ws[1..];
      OccurrenceOfDistinct(fs, i, t);
      OccurrencesStep(fs, ws, i);
      if Occurrences(fs, i, t) != [] {
        OccurrenceMembers(fs, i, t, Occurrences(fs, i, t)[0]);
        var k :| 0 <= k < |t| && TargetOf(fs, t[k]) == i;
        assert ws[k + 1].id == fs[i].id && ws[0].id != ws[k + 1].id;
      }
    }
  }

  /** Permuting fields with pairwise distinct ids does not change what is read. */
  lemma {:induction false} PermutationInvariant(fs: seq<Field>, v: Value, ws: seq<WireField>, us: seq<WireField>)
    requires GoodShape(SStruct(fs)) && TypedStruct(fs, v)
    requires WellFormedFields(ws) && ConformsFields(fs, ws) && WellFormedFields(us) && ConformsFields(fs, us)
    requires DistinctIds(ws) && DistinctIds(us) && (forall f :: f in ws <==> f in us)
    ensures Absorb(SStruct(fs), v, WStruct(ws)) == Absorb(SStruct(fs), v, WStruct(us))
  {
    forall i: nat | i < |fs|
      ensures Occurrences(fs, i, ws) == Occurrences(fs, i, us)
    {
      SameOccurrence(fs, i, ws, us);
    }
    OnlyOccurrencesMatter(fs, v, ws, us);
  }

  lemma {:induction false} SameOccurrence(fs: seq<Field>, i: nat, ws: seq<WireField>, us: seq<WireField>)
    requires i < |fs|
    requires WellFormedFields(ws) && ConformsFields(fs, ws) && WellFormedFields(us) && ConformsFields(fs, us)
    requires DistinctIds(ws) && DistinctIds(us) && (forall f :: f in ws <==> f in us)
    ensures Occurrences(fs, i, ws) == Occurrences(fs, i, us)
  {
    OccurrenceOfDistinct(fs, i, ws);
    OccurrenceOfDistinct(fs, i, us);
    OccurrenceSubset(fs, i, ws, us);
    OccurrenceSubset(fs, i, us, ws);
    SameSingleton(Occurrences(fs, i, ws), Occurrences(fs, i, us));
  }

  lemma {:induction false} SameSingleton<T>(a: seq<T>, b: seq<T>)
    requires |a| <= 1 && |b| <= 1 && (forall x | x in a :: x in b) && (forall x | x in b :: x in a)
    ensures a == b
  {
    assert a != [] ==> a[0] in b;
    assert b != [] ==> b[0] in a;
  }

  lemma {:induction false} OccurrenceSubset(fs: seq<Field>, i: nat, ws: seq<WireField>, us: seq<WireField>)
    requires i < |fs|
    requires WellFormedFields(ws) && ConformsFields(fs, ws) && WellFormedFields(us) && ConformsFields(fs, us)
    requires forall f :: f in ws ==> f in us
    ensures forall w | w in Occurrences(fs, i, ws) :: w in Occurrences(fs, i, us)
  {
    forall w | w in Occurrences(fs, i, ws) ensures w in Occurrences(fs, i, us) {
      OccurrenceMembers(fs, i, ws, w);
      OccurrenceMembers(fs, i, us, w);
      var k :| 0 <= k < |ws| && TargetOf(fs, ws[k]) == i && ws[k].w == w;
      assert ws[k] in us;
    }
  }

  // ---------------------------------------------------------------- repeated fields

  lemma {:induction false} AbsorbIgnoresTarget(s: Shape, v: Value, u: Value, w: Wire)
    requires GoodShape(s) && Typed(s, v) && Typed(s, u) && WellFormed(w) && Conforms(s, w) && !s.SStruct?
    ensures Absorb(s, v, w) == Absorb(s, u, w)
  {
  }

  /** A repeated scalar, list or map is last-wins. */
  lemma {:induction false} LastWins(s: Shape, v: Value, ws: seq<Wire>)
    requires GoodShape(s) && Typed(s, v) && AllConform(s, ws) && !s.SStruct? && ws != []
    requires Fold(s, v, ws).Some?
    ensures Fold(s, v, ws) == Absorb(s, v, ws[|ws| - 1])
    decreases ws
  {
    var v1 := Absorb(s, v, ws[0]).value;
    if |ws| == 1 {
      assert Fold(s, v1, ws[1..]) == Some(v1);
    } else {
      LastWins(s, v1, ws[1..]);
      AbsorbIgnoresTarget(s, v, v1, ws[|ws| - 1]);
    }
  }

  lemma {:induction false} AbsorbFieldsConcat(fs: seq<Field>, p: Progress, ws: seq<WireField>, us: seq<WireField>)
    requires GoodFields(fs) && GoodProgress(fs, p)
    requires WellFormedFields(ws) && ConformsFields(fs, ws) && WellFormedFields(us) && ConformsFields(fs, us)
    ensures WellFormedFields(ws + us) && ConformsFields(fs, ws + us)
    ensures var r := AbsorbFields(fs, p, ws);
            AbsorbFields(fs, p, ws + us) == if r.Some? then AbsorbFields(fs, r.value, us) else None
    decreases ws
  {
    if ws == [] {
      assert [] + us == us;
    } else {
      assert (ws + us)[1..] == ws[1..] + us;
      var head := AbsorbField(fs, p, ws[0]);
      AbsorbFieldsConcat(fs, if head.Some? then head.value else p, ws[1..], us);
    }
  }

  lemma {:induction false} SeenIsAdditive(fs: seq<Field>, obj: Value, s0: set<nat>, s1: set<nat>, ws: seq<WireField>)
    requires GoodFields(fs) && TypedStruct(fs, obj) && WellFormedFields(ws) && ConformsFields(fs, ws)
    ensures var a, b := AbsorbFields(fs, Progress(obj, s0), ws), AbsorbFields(fs, Progress(obj, s0 + s1), ws);
            if a.Some? then b == Some(Progress(a.value.obj, a.value.seen + s1)) else b.None?
    decreases ws
  {
    if ws != [] {
      var a, b := AbsorbField(fs, Progress(obj, s0), ws[0]), AbsorbField(fs, Progress(obj, s0 + s1), ws[0]);
      if a.Some? {
        assert b.value.seen == a.value.seen + s1;
        SeenIsAdditive(fs, a.value.obj, a.value.seen, s1, ws[1..]);
      }
    }
  }

  /** A repeated nested struct merges: reading it twice is reading the concatenation of its fields
      once. Each occurrence on its own must carry the required fields. */
  lemma {:induction false} RepeatedStructsMerge(fs: seq<Field>, v: Value, ws: seq<WireField>, us: seq<WireField>)
    requires GoodShape(SStruct(fs)) && TypedStruct(fs, v)
    requires WellFormedFields(ws) && ConformsFields(fs, ws) && WellFormedFields(us) && ConformsFields(fs, us)
    requires Absorb(SStruct(fs), v, WStruct(ws)).Some?
    requires Absorb(SStruct(fs), Absorb(SStruct(fs), v, WStruct(ws)).value, WStruct(us)).Some?
    ensures WellFormedFields(ws + us) && ConformsFields(fs, ws + us)
    ensures Absorb(SStruct(fs), v, WStruct(ws + us)) ==
            Absorb(SStruct(fs), Absorb(SStruct(fs), v, WStruct(ws)).value, WStruct(us))
  {
    var p := AbsorbFields(fs, Progress(v, {}), ws).value;
    AbsorbFieldsConcat(fs, Progress(v, {}), ws, us);
    SeenIsAdditive(fs, p.obj, {}, p.seen, us);
    assert {} + p.seen == p.seen;
  }

  // ---------------------------------------------------------------- INVALID_DATA

  predicate Occurs(fs: seq<Field>, i: nat, ws: seq<WireField>) {
    exists k | 0 <= k < |ws| :: TargetOf(fs, ws[k]) == i
  }

  /** Some struct that the reader actually reads, at any depth, lacks a well-typed required field. */
  predicate Incomplete(s: Shape, w: Wire)
    decreases w, 1
  {
    match s
    case SStruct(fs) => w.WStruct? && IncompleteStruct(fs, w.fields)
    case SList(e) => w.WList? && exists k | 0 <= k < |w.elems| :: Incomplete(e, w.elems[k])
    case _ => false
  }

  predicate IncompleteStruct(fs: seq<Field>, ws: seq<WireField>)
    decreases ws, 0
  {
    || (exists i: nat | i < |fs| :: fs[i].kind.Required? && !Occurs(fs, i, ws))
    || (exists k | 0 <= k < |ws| :: IncompleteField(fs, ws[k]))
  }

  predicate IncompleteField(fs: seq<Field>, f: WireField)
    decreases f, 2
  {
    var i := TargetOf(fs, f);
    i < |fs| && Incomplete(fs[i].shape, f.w)
  }

  lemma {:induction false} OccursInOccurrences(fs: seq<Field>, i: nat, ws: seq<WireField>)
    requires i < |fs| && WellFormedFields(ws) && ConformsFields(fs, ws)
    ensures Occurs(fs, i, ws) <==> Occurrences(fs, i, ws) != []
  {
    if ws != [] {
      OccursInOccurrences(fs, i, ws[1..]);
      if k :| 0 <= k < |ws| && TargetOf(fs, ws[k]) == i {
        assert k > 0 ==> ws[1..][k - 1] == ws[k];
      }
      if k :| 0 <= k < |ws[1..]| && TargetOf(fs, ws[1..][k]) == i {
        assert ws[k + 1] == ws[1..][k];
      }
    }
  }

  /** On well-formed input, `read` throws INVALID_DATA exactly when the input is Incomplete,
      whatever the object read into held before. */
  lemma {:induction false} InvalidDataExactly(s: Shape, v: Value, w: Wire)
    requires GoodShape(s) && Typed(s, v) && WellFormed(w) && Conforms(s, w)
    ensures Absorb(s, v, w).None? <==> Incomplete(s, w)
    decreases w, 1
  {
    match s {
      case SStruct(fs) =>
        var p := Progress(v, {});
        InvalidFieldsExactly(fs, p, w.fields);
        FieldsAreIndependent(fs, p, w.fields);
        forall i: nat | i < |fs| ensures Occurs(fs, i, w.fields) <==> i in Supplied(fs, w.fields) {
          OccursInOccurrences(fs, i, w.fields);
        }
      case SList(e) =>
        InvalidElemsExactly(e, w.etype, w.elems);
      case _ =>
    }
  }

  lemma {:induction false} InvalidFieldExactly(fs: seq<Field>, p: Progress, f: WireField)
    requires GoodFields(fs) && GoodProgress(fs, p) && WellFormedField(f) && ConformsField(fs, f)
    ensures AbsorbField(fs, p, f).None? <==> IncompleteField(fs, f)
    decreases f, 2
  {
    var i := TargetOf(fs, f);
    if i < |fs| {
      assert GoodField(fs[i]) && TypedField(fs[i], p.obj.vals[i]);
      InvalidDataExactly(fs[i].shape, p.obj.vals[i], f.w);
    }
  }

  lemma {:induction false} InvalidFieldsExactly(fs: seq<Field>, p: Progress, ws: seq<WireField>)
    requires GoodFields(fs) && GoodProgress(fs, p) && WellFormedFields(ws) && ConformsFields(fs, ws)
    ensures AbsorbFields(fs, p, ws).None? <==> exists k | 0 <= k < |ws| :: IncompleteField(fs, ws[k])
    decreases ws, 0
  {
    if ws != [] {
      InvalidFieldExactly(fs, p, ws[0]);
      var head := AbsorbField(fs, p, ws[0]);
      if head.Some? {
        InvalidFieldsExactly(fs, head.value, ws[1..]);
        if k :| 0 <= k < |ws| && IncompleteField(fs, ws[k]) {
          assert ws[1..][k - 1] == ws[k];
        }
        if k :| 0 <= k < |ws[1..]| && IncompleteField(fs, ws[1..][k]) {
          assert ws[k + 1] == ws[1..][k];
        }
      }
    }
  }

  lemma {:induction false} InvalidElemsExactly(e: Shape, et: byte, ws: seq<Wire>)
    requires GoodShape(e) && WellFormedElems(et, ws) && ConformsElems(e, ws)
    ensures AbsorbElems(e, et, ws).None? <==> exists k | 0 <= k < |ws| :: Incomplete(e, ws[k])
    decreases ws, 0
  {
    if ws != [] {
      InvalidDataExactly(e, Default(e), ws[0]);
      InvalidElemsExactly(e, et, ws[1..]);
      if k :| 0 <= k < |ws| && Incomplete(e, ws[k]) {
        assert k > 0 ==> ws[1..][k - 1] == ws[k];
      }
      if k :| 0 <= k < |ws[1..]| && Incomplete(e, ws[1..][k]) {
        assert ws[k + 1] == ws[1..][k];
      }
    }
  }

  // ---------------------------------------------------------------- forward compatibility

  /** The value with everything the reader does not know removed, at every depth */
  function Strip(s: Shape, w: Wire): (r: Wire)
    requires WellFormed(w) && Conforms(s, w)
    ensures WellFormed(r) && Conforms(s, r) && TagOf(r) == TagOf(w)
    decreases w, 1
  {
    match s
    case SStruct(fs) => WStruct(StripFields(fs, w.fields))
    case SList(e) => WList(false, w.etype, StripElems(e, w.etype, w.elems))
    case _ => w
  }

  function StripField(fs: seq<Field>, f: WireField): (r: WireField)
    requires WellFormedField(f) && ConformsField(fs, f) && TargetOf(fs, f) < |fs|
    ensures WellFormedField(r) && ConformsField(fs, r) && TargetOf(fs, r) == TargetOf(fs, f)
    decreases f, 2
  {
    WireField(f.id, Strip(fs[TargetOf(fs, f)].shape, f.w))
  }

  function StripFields(fs: seq<Field>, ws: seq<WireField>): (r: seq<WireField>)
    requires WellFormedFields(ws) && ConformsFields(fs, ws)
    ensures WellFormedFields(r) && ConformsFields(fs, r)
    decreases ws, 0
  {
    if ws == [] then []
    else
      var later := StripFields(fs, ws[1..]);
      if TargetOf(fs, ws[0]) < |fs| then [StripField(fs, ws[0])] + later else later
  }

  function StripElems(e: Shape, et: byte, ws: seq<Wire>): (r: seq<Wire>)
    requires WellFormedElems(et, ws) && ConformsElems(e, ws)
    ensures |r| == |ws| && WellFormedElems(et, r) && ConformsElems(e, r)
    decreases ws, 0
  {
    if ws == [] then [] else [Strip(e, ws[0])] + StripElems(e, et, ws[1..])
  }

  lemma {:induction false} StripPreservesMeaning(s: Shape, v: Value, w: Wire)
    requires GoodShape(s) && Typed(s, v) && WellFormed(w) && Conforms(s, w)
    ensures Absorb(s, v, Strip(s, w)) == Absorb(s, v, w)
    decreases w, 1
  {
    match s {
      case SStruct(fs) =>
        StripFieldsPreservesMeaning(fs, Progress(v, {}), w.fields);
      case SList(e) =>
        StripElemsPreservesMeaning(e, w.etype, w.elems);
      case _ =>
    }
  }

  lemma {:induction false} StripFieldPreservesMeaning(fs: seq<Field>, p: Progress, f: WireField)
    requires GoodFields(fs) && GoodProgress(fs, p) && WellFormedField(f) && ConformsField(fs, f)
    requires TargetOf(fs, f) < |fs|
    ensures AbsorbField(fs, p, StripField(fs, f)) == AbsorbField(fs, p, f)
    decreases f, 2
  {
    var i := TargetOf(fs, f);
    assert GoodField(fs[i]) && TypedField(fs[i], p.obj.vals[i]);
    StripPreservesMeaning(fs[i].shape, p.obj.vals[i], f.w);
  }

  lemma {:induction false} StripFieldsPreservesMeaning(fs: seq<Field>, p: Progress, ws: seq<WireField>)
    requires GoodFields(fs) && GoodProgress(fs, p) && WellFormedFields(ws) && ConformsFields(fs, ws)
    ensures AbsorbFields(fs, p, StripFields(fs, ws)) == AbsorbFields(fs, p, ws)
    decreases ws, 0
  {
    if ws != [] {
      var later := StripFields(fs, ws[1..]);
      if TargetOf(fs, ws[0]) < |fs| {
        StripFieldPreservesMeaning(fs, p, ws[0]);
        assert ([StripField(fs, ws[0])] + later)[1..] == later;
      }
      var head := AbsorbField(fs, p, ws[0]);
      if head.Some? {
        StripFieldsPreservesMeaning(fs, head.value, ws[1..]);
      }
    }
  }

  lemma {:induction false} StripElemsPreservesMeaning(e: Shape, et: byte, ws: seq<Wire>)
    requires GoodShape(e) && WellFormedElems(et, ws) && ConformsElems(e, ws)
    ensures AbsorbElems(e, et, StripElems(e, et, ws)) == AbsorbElems(e, et, ws)
    decreases ws, 0
  {
    if ws != [] {
      StripPreservesMeaning(e, Default(e), ws[0]);
      StripElemsPreservesMeaning(e, et, ws[1..]);
      assert StripElems(e, et, ws)[1..] == StripElems(e, et, ws[1..]);
    }
  }

  /** Inserting a field of unknown id or unexpected type, carrying anything, at any position ... */
  lemma {:induction false} InsertedFieldIsStripped(fs: seq<Field>, ws: seq<WireField>, k: nat, f: WireField)
    requires WellFormedFields(ws) && ConformsFields(fs, ws) && k <= |ws|
    requires WellFormedField(f) && TargetOf(fs, f) == |fs|
    ensures WellFormedFields(ws[..k] + [f] + ws[k..]) && ConformsFields(fs, ws[..k] + [f] + ws[k..])
    ensures StripFields(fs, ws[..k] + [f] + ws[k..]) == StripFields(fs, ws)
  {
    var us := ws[..k] + [f] + ws[k..];
    assert ConformsField(fs, f);
    if k == 0 {
      assert us[1..] == ws;
    } else {
      InsertedFieldIsStripped(fs, ws[1..], k - 1, f);
      assert us[1..] == ws[1..][..k - 1] + [f] + ws[1..][k - 1..];
    }
  }

  /** ... and doing so inside the value of a known field ... */
  lemma {:induction false} ReplacedFieldIsStripped(fs: seq<Field>, ws: seq<WireField>, k: nat, f: WireField)
    requires WellFormedFields(ws) && ConformsFields(fs, ws) && k < |ws|
    requires WellFormedField(f) && ConformsField(fs, f) && TargetOf(fs, f) == TargetOf(fs, ws[k]) < |fs|
    requires StripField(fs, f) == StripField(fs, ws[k])
    ensures WellFormedFields(ws[k := f]) && ConformsFields(fs, ws[k := f])
    ensures StripFields(fs, ws[k := f]) == StripFields(fs, ws)
  {
    var us := ws[k := f];
    if k == 0 {
      assert us[1..] == ws[1..];
    } else {
      ReplacedFieldIsStripped(fs, ws[1..], k - 1, f);
      assert us[1..] == ws[1..][k - 1 := f];
    }
  }

  /** ... or of a list element, leaves the stripped value as it was ... */
  lemma {:induction false} ReplacedElemIsStripped(e: Shape, et: byte, ws: seq<Wire>, k: nat, w: Wire)
    requires WellFormedElems(et, ws) && ConformsElems(e, ws) && k < |ws|
    requires WellFormed(w) && Conforms(e, w) && TagOf(w) == et && Strip(e, w) == Strip(e, ws[k])
    ensures WellFormedElems(et, ws[k := w]) && ConformsElems(e, ws[k := w])
    ensures StripElems(e, et, ws[k := w]) == StripElems(e, et, ws)
  {
    var us := ws[k := w];
    if k == 0 {
      assert us[1..] == ws[1..];
    } else {
      ReplacedElemIsStripped(e, et, ws[1..], k - 1, w);
      assert us[1..] == ws[1..][k - 1 := w];
    }
  }

  /** ... so values that differ only in such insertions decode to the same object and leave the
      same unread bytes. */
  lemma {:induction false} ForwardCompatible(s: Shape, v: Value, w: Wire, u: Wire, rest: bytes)
    requires GoodShape(s) && Typed(s, v)
    requires WellFormed(w) && Conforms(s, w) && WellFormed(u) && Conforms(s, u)
    requires Strip(s, w) == Strip(s, u)
    ensures ReadValue(s, v, Ser(w) + rest) == ReadValue(s, v, Ser(u) + rest)
  {
    StripPreservesMeaning(s, v, w);
    StripPreservesMeaning(s, v, u);
    ReadIsAbsorb(s, v, w, rest);
    ReadIsAbsorb(s, v, u, rest);
  }
}
