/**
  Go values that can become tensors: scalars, and slices and arrays nested to any depth.
 */
module TensorValues {
  // The kinds of the table of tensor types; every other kind is Other.
  datatype Kind =
    | Float32 | Float64 | Int32 | Uint32 | Uint8 | Int16 | Int8 | String | Complex64 | Int64 | Uint64 | Bool
    | Uint16 | Complex128 | Other

  datatype GoType = Prim(kind: Kind) | Slice(elem: GoType) | Array(len: nat, elem: GoType)

  // payload stands for the bits of a number or the bytes of a string.
  datatype Elem = Elem(kind: Kind, payload: seq<int>)

  datatype Val = Leaf(elem: Elem) | List(elems: seq<Val>)

  // Byte number index of the representation of an element; a string is represented by a TF_TString.
  datatype Byte = Byte(of: Elem, index: nat)

  const SIZEOF_TF_TSTRING := 24

  function SizeOf(kind: Kind): (size: nat)
    ensures size > 0
  {
    match kind
    case Uint8 | Int8 | Bool => 1
    case Int16 | Uint16 => 2
    case Float32 | Int32 | Uint32 => 4
    case Complex128 => 16
    case String => SIZEOF_TF_TSTRING
    case _ => 8
  }

  // What n elements of a kind take in Go, where a string is a TF_TString.
  ghost predicate TakesBytes(kind: Kind, n: nat, bytes: nat) {
    && (kind in {Uint8, Int8, Bool} ==> bytes == n)
    && (kind in {Uint16, Int16} ==> bytes == 2 * n)
    && (kind in {Uint32, Int32, Float32} ==> bytes == 4 * n)
    && (kind in {Uint64, Int64, Float64, Complex64} ==> bytes == 8 * n)
    && (kind == Complex128 ==> bytes == 16 * n)
    && (kind == String ==> bytes == 24 * n)
  }

  lemma SizesInBytes(kind: Kind, n: nat)
    ensures TakesBytes(kind, n, SizeOf(kind) * n)
  {
  }

  function Memory(e: Elem): seq<Byte> {
    seq(SizeOf(e.kind), k requires 0 <= k < SizeOf(e.kind) => Byte(e, k))
  }

  function MemoryOf(es: seq<Elem>): seq<Byte> {
    if es == [] then [] else MemoryOf(es[..|es| - 1]) + Memory(es[|es| - 1])
  }

  function Depth(typ: GoType): nat {
    if typ.Prim? then 0 else 1 + Depth(typ.elem)
  }

  function KindOf(typ: GoType): Kind {
    if typ.Prim? then typ.kind else KindOf(typ.elem)
  }

  predicate HasType(v: Val, typ: GoType) {
    match typ
    case Prim(kind) => v.Leaf? && v.elem.kind == kind
    case Slice(elem) => v.List? && forall i | 0 <= i < |v.elems| :: HasType(v.elems[i], elem)
    case Array(len, elem) => v.List? && |v.elems| == len && forall i | 0 <= i < |v.elems| :: HasType(v.elems[i], elem)
  }

  // ---- Shapes

  function NumElements(shape: seq<nat>): nat {
    if shape == [] then 1 else NumElements(shape[..|shape| - 1]) * shape[|shape| - 1]
  }

  // All slices at one depth have the length that the shape gives for that depth.
  predicate Conforms(v: Val, shape: seq<nat>)
    decreases |shape|
  {
    if shape == [] then v.Leaf?
    else v.List? && |v.elems| == shape[0] && forall i | 0 <= i < |v.elems| :: Conforms(v.elems[i], shape[1..])
  }

  ghost predicate Rectangular(v: Val) {
    exists shape :: Conforms(v, shape)
  }

  // The lengths found by following first elements; below an empty list, all lengths are 0.
  function FirstPath(v: Val, typ: GoType): seq<nat> {
    if typ.Prim? then []
    else if v.List? && |v.elems| > 0 then [|v.elems|] + FirstPath(v.elems[0], typ.elem)
    else [0] + FirstPath(v, typ.elem)
  }

  // Wherever the first path has length n > 0 in an array, that is the length of the array.
  predicate Fits(typ: GoType, shape: seq<nat>) {
    if typ.Prim? then shape == []
    else
      && shape != [] && |shape| == Depth(typ) && (typ.Array? ==> typ.len == shape[0])
      && (shape[0] > 0 ==> Fits(typ.elem, shape[1..]))
  }

  lemma {:induction false} FirstPathLength(v: Val, typ: GoType)
    ensures |FirstPath(v, typ)| == Depth(typ)
  {
    if !typ.Prim? {
      FirstPathLength(if v.List? && |v.elems| > 0 then v.elems[0] else v, typ.elem);
    }
  }

  lemma {:induction false} FirstPathFits(v: Val, typ: GoType)
    requires HasType(v, typ)
    ensures Fits(typ, FirstPath(v, typ))
  {
    FirstPathLength(v, typ);
    if !typ.Prim? && |v.elems| > 0 {
      FirstPathFits(v.elems[0], typ.elem);
    }
  }

  // A rectangular value has the shape of its first path.
  lemma {:induction false} ConformsToFirstPath(v: Val, w: Val, typ: GoType, shape: seq<nat>)
    requires HasType(v, typ) && HasType(w, typ) && Conforms(v, shape) && Conforms(w, shape)
    ensures Conforms(w, FirstPath(v, typ))
    decreases typ
  {
    if !typ.Prim? {
      var first := FirstPath(v, typ);
      forall i | 0 <= i < |w.elems|
        ensures Conforms(w.elems[i], first[1..])
      {
        ConformsToFirstPath(v.elems[0], w.elems[i], typ.elem, shape[1..]);
      }
    }
  }

  // ---- Elements in order

  function Flatten(v: Val): seq<Elem> {
    if v.Leaf? then [v.elem] else FlattenAll(v.elems)
  }

  function FlattenAll(vs: seq<Val>): seq<Elem> {
    if vs == [] then [] else FlattenAll(vs[..|vs| - 1]) + Flatten(vs[|vs| - 1])
  }

  lemma {:induction false} MemoryOfSum(a: seq<Elem>, b: seq<Elem>)
    ensures MemoryOf(a + b) == MemoryOf(a) + MemoryOf(b)
  {
    if b == [] {
      assert a + b == a;
    } else {
      var front, last := b[..|b| - 1], b[|b| - 1];
      MemoryOfSum(a, front);
      assert (a + b)[..|a + b| - 1] == a + front && (a + b)[|a + b| - 1] == last;
      hide Memory;
      assert (MemoryOf(a) + MemoryOf(front)) + Memory(last) == MemoryOf(a) + (MemoryOf(front) + Memory(last));
    }
  }

  lemma Scaled(j: int, n: nat, size: nat)
    requires 0 <= j < n && size > 0
    ensures 0 <= j * size < n * size && (n - 1) * size + size == n * size
  {
  }

  lemma {:induction false} MemoryOfLength(es: seq<Elem>, kind: Kind)
    requires forall i | 0 <= i < |es| :: es[i].kind == kind
    ensures |MemoryOf(es)| == |es| * SizeOf(kind)
  {
    hide SizeOf;
    if es != [] {
      MemoryOfLength(es[..|es| - 1], kind);
      Scaled(0, |es|, SizeOf(kind));
    }
  }

  lemma {:induction false} ElementAt(es: seq<Elem>, kind: Kind, j: nat)
    requires (forall i | 0 <= i < |es| :: es[i].kind == kind) && j < |es|
    ensures 0 <= j * SizeOf(kind) < |MemoryOf(es)| && MemoryOf(es)[j * SizeOf(kind)].of == es[j]
  {
    hide SizeOf;
    var front := es[..|es| - 1];
    MemoryOfLength(front, kind);
    MemoryOfLength(es, kind);
    Scaled(j, |es|, SizeOf(kind));
    if j < |front| {
      ElementAt(front, kind, j);
    } else {
      assert MemoryOf(es)[j * SizeOf(kind)] == Memory(es[j])[0];
    }
  }

  // Element j lies at byte j times the size of an element.
  lemma MemoryOfAt(es: seq<Elem>, kind: Kind)
    requires forall i | 0 <= i < |es| :: es[i].kind == kind
    ensures |MemoryOf(es)| == |es| * SizeOf(kind)
    ensures forall j | 0 <= j < |es| ::
              0 <= j * SizeOf(kind) < |MemoryOf(es)| && MemoryOf(es)[j * SizeOf(kind)].of == es[j]
  {
    hide MemoryOf, SizeOf;
    MemoryOfLength(es, kind);
    forall j | 0 <= j < |es|
      ensures 0 <= j * SizeOf(kind) < |MemoryOf(es)| && MemoryOf(es)[j * SizeOf(kind)].of == es[j]
    {
      ElementAt(es, kind, j);
    }
  }

  lemma {:induction false} FlattenKinds(v: Val, typ: GoType)
    requires HasType(v, typ)
    ensures forall i | 0 <= i < |Flatten(v)| :: Flatten(v)[i].kind == KindOf(typ)
    decreases v, 0
  {
    if v.List? {
      FlattenAllKinds(v.elems, typ.elem);
    }
  }

  lemma {:induction false} FlattenAllKinds(vs: seq<Val>, typ: GoType)
    requires forall i | 0 <= i < |vs| :: HasType(vs[i], typ)
    ensures forall i | 0 <= i < |FlattenAll(vs)| :: FlattenAll(vs)[i].kind == KindOf(typ)
    decreases vs, |vs|
  {
    if vs != [] {
      FlattenAllKinds(vs[..|vs| - 1], typ);
      FlattenKinds(vs[|vs| - 1], typ);
    }
  }

  // A value has as many elements as its shape says.
  lemma {:induction false} FlattenCount(v: Val, shape: seq<nat>)
    requires Conforms(v, shape)
    ensures |Flatten(v)| == NumElements(shape)
    decreases v, 0
  {
    if v.List? {
      FlattenAllCount(v.elems, shape[1..]);
      NumElementsHead(shape);
    }
  }

  lemma {:induction false} FlattenAllCount(vs: seq<Val>, shape: seq<nat>)
    requires forall i | 0 <= i < |vs| :: Conforms(vs[i], shape)
    ensures |FlattenAll(vs)| == |vs| * NumElements(shape)
    decreases vs, |vs|
  {
    if vs != [] {
      FlattenAllCount(vs[..|vs| - 1], shape);
      FlattenCount(vs[|vs| - 1], shape);
      var n := NumElements(shape);
      hide NumElements, Conforms, Flatten;
      assert |vs| * n == (|vs| - 1) * n + n;
    }
  }

  lemma {:induction false} NumElementsHead(shape: seq<nat>)
    requires shape != []
    ensures NumElements(shape) == shape[0] * NumElements(shape[1..])
  {
    if |shape| > 1 {
      var front := shape[..|shape| - 1];
      NumElementsHead(front);
      assert front[1..] == shape[1..][..|shape| - 2];
      var last := shape[|shape| - 1];
      assert shape[0] * NumElements(front[1..]) * last == shape[0] * (NumElements(front[1..]) * last);
    }
  }
}
