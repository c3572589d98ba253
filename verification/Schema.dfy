/**
 What the generated structs of hbase_types have in common: a table of fields (id, shape,
 requiredness, preset value), the data members with their __isset flags, default construction,
 setters, and `operator==`.
 */
module Schema {
  import opened Bytes
  import opened ThriftBinary

  datatype Option<+T> = None | Some(value: T) {
    predicate IsFailure() {
      None?
    }

    function PropagateFailure<U>(): Option<U>
      requires None?
    {
      None
    }

    function Extract(): T
      requires Some?
    {
      value
    }
  }

  /** Required fields have no __isset flag; optional ones are written and compared only if set;
      plain ones have a flag that only `read` touches and that `write` and `operator==` ignore. */
  datatype Kind = Required | Optional | Plain

  datatype Shape =
    | SBool
    | SInt(width: nat)
    | SStr
    | SStruct(fields: seq<Field>)
    | SList(elem: Shape)
    | SMap  // std::map<std::string, std::string>, the only map type in the service

  /** `preset` is the default of the IDL: the member starts with it and its flag starts true. */
  datatype Field = Field(id: int, shape: Shape, kind: Kind, preset: Option<int>)

  datatype Value =
    | VBool(b: bool)
    | VInt(n: int)
    | VStr(s: bytes)
    | VList(elems: seq<Value>)
    | VMap(entries: seq<Entry>)
    | VStruct(vals: seq<Value>, isset: seq<bool>)

  datatype Entry = Entry(key: bytes, val: bytes)

  function TagOfShape(s: Shape): (t: byte)
    ensures t != T_STOP
  {
    match s
    case SBool => T_BOOL
    case SInt(width) => IntTag(width)
    case SStr => T_STRING
    case SStruct(_) => T_STRUCT
    case SList(_) => T_LIST
    case SMap => T_MAP
  }

  // ---------------------------------------------------------------- schemas

  predicate GoodShape(s: Shape)
    decreases s, 1
  {
    match s
    case SInt(width) => width in {1, 2, 4, 8}
    case SStruct(fs) => GoodFields(fs)
    case SList(e) => GoodShape(e)
    case _ => true
  }

  predicate GoodField(f: Field)
    decreases f, 2
  {
    && InRange(2, f.id)
    && GoodShape(f.shape)
    && (f.preset.Some? ==> !f.kind.Required? && f.shape.SInt? && InRange(f.shape.width, f.preset.value))
  }

  predicate GoodFields(fs: seq<Field>)
    decreases fs, 0
  {
    && (forall i | 0 <= i < |fs| :: GoodField(fs[i]))
    && (forall i, j | 0 <= i < j < |fs| :: fs[i].id != fs[j].id)
  }

  /** The `switch (fid)` of the generated readers: the case for an id, or |fs| for `default` */
  function Find(fs: seq<Field>, id: int, from: nat := 0): (i: nat)
    requires from <= |fs|
    ensures from <= i <= |fs|
    ensures i < |fs| ==> fs[i].id == id
    ensures forall k | from <= k < i :: fs[k].id != id
    decreases |fs| - from
  {
    if from == |fs| || fs[from].id == id then from else Find(fs, id, from + 1)
  }

  /** The case that accepts a field header: known id and the expected type, or |fs| to skip */
  function Target(fs: seq<Field>, id: int, tag: byte): (i: nat)
    ensures i <= |fs|
    ensures i < |fs| ==> fs[i].id == id && TagOfShape(fs[i].shape) == tag
  {
    var i := Find(fs, id);
    if i < |fs| && TagOfShape(fs[i].shape) == tag then i else |fs|
  }

  lemma {:induction false} TargetOfField(fs: seq<Field>, i: nat)
    requires GoodFields(fs) && i < |fs|
    ensures Target(fs, fs[i].id, TagOfShape(fs[i].shape)) == i
  {
    assert Find(fs, fs[i].id) <= i;
  }

  // ---------------------------------------------------------------- std::map

  /** std::string comparison: bytewise, a proper prefix is smaller */
  predicate Less(a: bytes, b: bytes)
  {
    b != [] && (a == [] || a[0] < b[0] || (a[0] == b[0] && Less(a[1..], b[1..])))
  }

  /** Up to position k the strings agree, and there a ends or has the smaller byte. */
  predicate DiffersAt(a: bytes, b: bytes, k: nat) {
    k <= |a| && k < |b| && a[..k] == b[..k] && (k == |a| || a[k] < b[k])
  }

  lemma {:induction false} LessExactly(a: bytes, b: bytes)
    ensures Less(a, b) <==> exists k: nat :: DiffersAt(a, b, k)
  {
    if Less(a, b) {
      var k := FirstDifference(a, b);
    }
    if k: nat :| DiffersAt(a, b, k) {
      DifferenceIsLess(a, b, k);
    }
  }

  lemma {:induction false} FirstDifference(a: bytes, b: bytes) returns (k: nat)
    requires Less(a, b)
    ensures DiffersAt(a, b, k)
  {
    if a == [] || a[0] < b[0] {
      k := 0;
      assert DiffersAt(a, b, 0);
    } else {
      k := FirstDifference(a[1..], b[1..]);
      k := k + 1;
      assert a[..k] == [a[0]] + a[1..][..k - 1] && b[..k] == [b[0]] + b[1..][..k - 1];
    }
  }

  lemma {:induction false} DifferenceIsLess(a: bytes, b: bytes, k: nat)
    requires DiffersAt(a, b, k)
    ensures Less(a, b)
  {
    if k > 0 {
      assert a[0] == a[..k][0] && b[0] == b[..k][0];
      assert a[1..][..k - 1] == a[..k][1..] && b[1..][..k - 1] == b[..k][1..];
      DifferenceIsLess(a[1..], b[1..], k - 1);
    }
  }

  lemma {:induction false} LessTransitive(a: bytes, b: bytes, c: bytes)
    requires Less(a, b) && Less(b, c)
    ensures Less(a, c)
  {
    if a != [] && a[0] == b[0] && b[0] == c[0] {
      LessTransitive(a[1..], b[1..], c[1..]);
    }
  }

  lemma {:induction false} LessTotal(a: bytes, b: bytes)
    ensures Less(a, b) || a == b || Less(b, a)
  {
    if a != [] && b != [] && a[0] == b[0] {
      LessTotal(a[1..], b[1..]);
      assert a == [a[0]] + a[1..] && b == [b[0]] + b[1..];
    }
  }

  lemma {:induction false} LessIrreflexive(a: bytes)
    ensures !Less(a, a)
  {
    if a != [] {
      LessIrreflexive(a[1..]);
    }
  }

  /** A std::map is its in-order sequence of entries. */
  predicate Sorted(es: seq<Entry>) {
    forall i, j | 0 <= i < j < |es| :: Less(es[i].key, es[j].key)
  }

  /** `m[key] = val` */
  function Insert(es: seq<Entry>, k: bytes, v: bytes): (r: seq<Entry>)
    ensures |r| <= |es| + 1
    ensures forall i | 0 <= i < |r| :: r[i] == Entry(k, v) || r[i] in es
  {
    if es == [] || Less(k, es[0].key) then [Entry(k, v)] + es
    else if k == es[0].key then [Entry(k, v)] + es[1..]
    else [es[0]] + Insert(es[1..], k, v)
  }

  lemma {:induction false} InsertSorted(es: seq<Entry>, k: bytes, v: bytes)
    requires Sorted(es)
    ensures Sorted(Insert(es, k, v))
  {
    if es == [] {
    } else if Less(k, es[0].key) {
      forall j | 0 <= j < |es| ensures Less(k, es[j].key) {
        if j > 0 {
          LessTransitive(k, es[0].key, es[j].key);
        }
      }
    } else if k != es[0].key {
      InsertSorted(es[1..], k, v);
      LessTotal(k, es[0].key);
    }
  }

  /** Appending in key order, as a written map is read back */
  lemma {:induction false} InsertLast(es: seq<Entry>, k: bytes, v: bytes)
    requires Sorted(es + [Entry(k, v)])
    ensures Insert(es, k, v) == es + [Entry(k, v)]
  {
    if es != [] {
      var all := es + [Entry(k, v)];
      assert Less(all[0].key, all[|es|].key);
      if Less(k, es[0].key) {
        LessTransitive(k, es[0].key, k);
      }
      LessIrreflexive(k);
      assert es[1..] + [Entry(k, v)] == all[1..];
      InsertLast(es[1..], k, v);
    }
  }

  function Lookup(es: seq<Entry>, k: bytes): Option<bytes> {
    if es == [] then None
    else if es[0].key == k then Some(es[0].val)
    else Lookup(es[1..], k)
  }

  /** A repeated key keeps the last value read and disturbs no other key. */
  lemma {:induction false} InsertLookup(es: seq<Entry>, k: bytes, v: bytes, q: bytes)
    requires Sorted(es)
    ensures Lookup(Insert(es, k, v), q) == if q == k then Some(v) else Lookup(es, q)
  {
    if es == [] || Less(k, es[0].key) {
      assert ([Entry(k, v)] + es)[1..] == es;
    } else if k == es[0].key {
      assert ([Entry(k, v)] + es[1..])[1..] == es[1..];
    } else {
      assert Insert(es, k, v)[1..] == Insert(es[1..], k, v);
      InsertLookup(es[1..], k, v, q);
    }
  }

  // ---------------------------------------------------------------- values

  predicate Typed(s: Shape, v: Value)
    decreases s, 1
  {
    match s
    case SBool => v.VBool?
    case SInt(width) => v.VInt? && InRange(width, v.n)
    case SStr => v.VStr? && FitsSize(|v.s|)
    case SStruct(fs) => TypedStruct(fs, v)
    case SList(e) => v.VList? && FitsSize(|v.elems|) && forall i | 0 <= i < |v.elems| :: Typed(e, v.elems[i])
    case SMap => v.VMap? && FitsSize(|v.entries|) && Sorted(v.entries) && GoodEntries(v.entries)
  }

  predicate TypedField(f: Field, v: Value)
    decreases f, 2
  {
    Typed(f.shape, v)
  }

  predicate TypedStruct(fs: seq<Field>, v: Value)
    decreases fs, 0
  {
    && v.VStruct?
    && |v.vals| == |fs| == |v.isset|
    && forall i | 0 <= i < |fs| :: TypedField(fs[i], v.vals[i])
  }

  predicate GoodEntries(es: seq<Entry>) {
    forall i | 0 <= i < |es| :: FitsSize(|es[i].key|) && FitsSize(|es[i].val|)
  }

  /** The default constructor */
  function Default(s: Shape): (v: Value)
    requires GoodShape(s)
    ensures Typed(s, v)
    decreases s, 1
  {
    match s
    case SBool => VBool(false)
    case SInt(_) => VInt(0)
    case SStr => VStr([])
    case SStruct(fs) => DefaultStruct(fs)
    case SList(_) => VList([])
    case SMap => VMap([])
  }

  function DefaultField(f: Field): (v: Value)
    requires GoodField(f)
    ensures TypedField(f, v)
    decreases f, 2
  {
    if f.preset.Some? then VInt(f.preset.value) else Default(f.shape)
  }

  function DefaultStruct(fs: seq<Field>): (v: Value)
    requires GoodFields(fs)
    ensures TypedStruct(fs, v)
    ensures forall i | 0 <= i < |fs| :: v.vals[i] == DefaultField(fs[i]) && v.isset[i] == fs[i].preset.Some?
    decreases fs, 0
  {
    VStruct(seq(|fs|, i requires 0 <= i < |fs| => DefaultField(fs[i])),
            seq(|fs|, i requires 0 <= i < |fs| => fs[i].preset.Some?))
  }

  /** Reading a value into member `i`: required members have no flag to raise */
  function Store(fs: seq<Field>, obj: Value, i: nat, v: Value): (r: Value)
    requires TypedStruct(fs, obj) && i < |fs| && TypedField(fs[i], v)
    ensures TypedStruct(fs, r)
  {
    VStruct(obj.vals[i := v], if fs[i].kind.Required? then obj.isset else obj.isset[i := true])
  }

  /** The generated `__set_x` setters: only those of optional members raise the flag */
  function Setter(fs: seq<Field>, obj: Value, i: nat, v: Value): (r: Value)
    requires TypedStruct(fs, obj) && i < |fs| && TypedField(fs[i], v)
    ensures TypedStruct(fs, r)
  {
    VStruct(obj.vals[i := v], if fs[i].kind.Optional? then obj.isset[i := true] else obj.isset)
  }

  /** The generated `operator==` */
  predicate Same(s: Shape, a: Value, b: Value)
    requires Typed(s, a) && Typed(s, b)
    decreases s, 1
  {
    match s
    case SStruct(fs) => SameStruct(fs, a, b)
    case SList(e) =>
      |a.elems| == |b.elems| && forall i | 0 <= i < |a.elems| :: Same(e, a.elems[i], b.elems[i])
    case _ => a == b
  }

  predicate SameField(f: Field, a: Value, aSet: bool, b: Value, bSet: bool)
    requires TypedField(f, a) && TypedField(f, b)
    decreases f, 2
  {
    if f.kind.Optional? then aSet == bSet && (aSet ==> Same(f.shape, a, b)) else Same(f.shape, a, b)
  }

  predicate SameStruct(fs: seq<Field>, a: Value, b: Value)
    requires TypedStruct(fs, a) && TypedStruct(fs, b)
    decreases fs, 0
  {
    forall i | 0 <= i < |fs| :: SameField(fs[i], a.vals[i], a.isset[i], b.vals[i], b.isset[i])
  }

  lemma {:induction false} SameReflexive(s: Shape, a: Value)
    requires Typed(s, a)
    ensures Same(s, a, a)
    decreases s, 1
  {
    match s
    case SStruct(fs) =>
      forall i | 0 <= i < |fs| ensures SameField(fs[i], a.vals[i], a.isset[i], a.vals[i], a.isset[i]) {
        SameFieldReflexive(fs[i], a.vals[i], a.isset[i]);
      }
    case SList(e) =>
      forall i | 0 <= i < |a.elems| ensures Same(e, a.elems[i], a.elems[i]) {
        SameReflexive(e, a.elems[i]);
      }
    case _ =>
  }

  lemma {:induction false} SameFieldReflexive(f: Field, a: Value, isset: bool)
    requires TypedField(f, a)
    ensures SameField(f, a, isset, a, isset)
    decreases f, 2
  {
    SameReflexive(f.shape, a);
  }
}
