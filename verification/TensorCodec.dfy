/**
  The Go binding turns nested Go values into tensors and back.
 */
module TensorCodec {
  import opened TensorValues

  datatype Tensor = Tensor(kind: Kind, shape: seq<nat>, raw: seq<Byte>)

  datatype Failure = UnsupportedType | MismatchedLengths | SizeBug
  datatype Result<+T> = Ok(value: T) | Err(failure: Failure)

  // bytes.Buffer
  class Buffer {
    var data: seq<Byte>

    constructor ()
      ensures data == []
    {
      data := [];
    }

    // copyPtr
    method Copy(bytes: seq<Byte>)
      modifies this
      ensures data == old(data) + bytes
    {
      data := data + bytes;
    }
  }

  // isAllArray: a value of the type is one piece of memory, with no strings in it.
  predicate IsAllArray(typ: GoType): (r: bool)
    ensures r ==> KindOf(typ) != String
    ensures typ.Slice? ==> !r
    ensures typ.Prim? && typ.kind != String ==> r
  {
    match typ
    case Slice(_) => false
    case Array(_, elem) => IsAllArray(elem)
    case Prim(kind) => kind != String
  }

  // ---- The shape

  predicate SameLengths(vs: seq<Val>) {
    forall i | 0 <= i < |vs| :: vs[i].List? && vs[0].List? && |vs[i].elems| == |vs[0].elems|
  }

  // What the first path shows of whether slices that are siblings have the same length.
  predicate SiblingsAgree(v: Val, typ: GoType) {
    !typ.Prim? && v.List? && |v.elems| > 0 ==>
      (typ.elem.Slice? ==> SameLengths(v.elems)) && SiblingsAgree(v.elems[0], typ.elem)
  }

  // The inner loop of shapeAndDataTypeOf.
  method CheckLengths(vs: seq<Val>) returns (same: bool)
    requires |vs| > 0 && forall i | 0 <= i < |vs| :: vs[i].List?
    ensures same == SameLengths(vs)
  {
    var expected := |vs[0].elems|;
    for i := 1 to |vs|
      invariant forall k | 0 <= k < i :: |vs[k].elems| == expected
    {
      if |vs[i].elems| != expected {
        return false;
      }
    }
    return true;
  }

  predicate Walks(val: Val, t: GoType) {
    HasType(val, t) || val == List([])
  }

  // One round of shapeAndDataTypeOf: an empty list is not descended into.
  lemma WalkStep(val: Val, t: GoType, next: Val)
    requires Walks(val, t) && !t.Prim? && val.List? && next == if |val.elems| > 0 then val.elems[0] else val
    ensures Walks(next, t.elem) && KindOf(t) == KindOf(t.elem)
    ensures FirstPath(val, t) == [|val.elems|] + FirstPath(next, t.elem)
    ensures SiblingsAgree(val, t) <==>
            (|val.elems| > 0 && t.elem.Slice? ==> SameLengths(val.elems)) && SiblingsAgree(next, t.elem)
    ensures |val.elems| > 0 && t.elem.Slice? ==> forall i | 0 <= i < |val.elems| :: val.elems[i].List?
  {
    if |val.elems| > 0 && t.elem.Slice? {
      assert forall i | 0 <= i < |val.elems| :: HasType(val.elems[i], t.elem);
    }
    NothingBelowEmpty(t.elem);
  }

  lemma {:induction false} NothingBelowEmpty(t: GoType)
    ensures SiblingsAgree(List([]), t)
  {
  }

  lemma Reassociate<T>(a: seq<T>, b: seq<T>, c: seq<T>)
    ensures a + (b + c) == (a + b) + c
  {
  }

  // shapeAndDataTypeOf
  method ShapeAndDataTypeOf(v: Val, typ: GoType) returns (r: Result<(seq<nat>, Kind)>)
    requires HasType(v, typ)
    ensures r.Ok? <==> SiblingsAgree(v, typ) && !KindOf(typ).Other?
    ensures r.Ok? ==> r.value == (FirstPath(v, typ), KindOf(typ))
    ensures r.Err? ==> r.failure == if SiblingsAgree(v, typ) then UnsupportedType else MismatchedLengths
  {
    var shape: seq<nat>, val, t := [], v, typ;
    while !t.Prim?
      invariant Walks(val, t)
      invariant shape + FirstPath(val, t) == FirstPath(v, typ)
      invariant SiblingsAgree(val, t) <==> SiblingsAgree(v, typ)
      invariant KindOf(t) == KindOf(typ)
      decreases t
    {
      ghost var next := if |val.elems| > 0 then val.elems[0] else val;
      WalkStep(val, t, next);
      hide FirstPath, SiblingsAgree, KindOf, HasType, SameLengths;
      Reassociate(shape, [|val.elems|], FirstPath(next, t.elem));
      shape := shape + [|val.elems|];
      if |val.elems| > 0 {
        if t.elem.Slice? {
          var same := CheckLengths(val.elems);
          if !same {
            return Err(MismatchedLengths);
          }
        }
        val := val.elems[0];
      }
      t := t.elem;
    }
    assert shape + [] == shape;
    if t.kind.Other? {
      return Err(UnsupportedType);
    }
    return Ok((shape, t.kind));
  }

  // If siblings disagree on the first path, the value is not rectangular.
  lemma {:induction false} DisagreeingSiblings(v: Val, typ: GoType, shape: seq<nat>)
    requires HasType(v, typ) && Conforms(v, shape)
    ensures SiblingsAgree(v, typ)
    decreases typ
  {
    if !typ.Prim? && |v.elems| > 0 {
      DisagreeingSiblings(v.elems[0], typ.elem, shape[1..]);
      if typ.elem.Slice? {
        forall i | 0 <= i < |v.elems|
          ensures v.elems[i].List? && v.elems[0].List? && |v.elems[i].elems| == |v.elems[0].elems|
        {
          assert HasType(v.elems[i], typ.elem) && Conforms(v.elems[i], shape[1..]) && Conforms(v.elems[0], shape[1..]);
        }
      }
    }
  }

  // ---- Encoding

  // encodeTensorWithSlices; addressable tells whether v can be addressed, as the elements of a
  // slice can. It returns how much it has written.
  method EncodeTensorWithSlices(w: Buffer, v: Val, typ: GoType, shape: seq<nat>, addressable: bool)
    returns (n: nat, r: Result<()>)
    requires HasType(v, typ) && Fits(typ, shape) && (addressable || !IsAllArray(typ))
    requires typ.Prim? ==> typ.kind == String
    modifies w
    ensures r.Ok? <==> Conforms(v, shape)
    ensures r.Err? ==> r.failure == MismatchedLengths
    ensures r.Ok? ==> w.data == old(w.data) + MemoryOf(Flatten(v))
    ensures |w.data| == |old(w.data)| + n
    decreases typ, 0
  {
    if typ.Slice? {
      if |v.elems| != shape[0] {
        return 0, Err(MismatchedLengths);
      }
    } else if typ.Prim? {
      w.Copy(Memory(v.elem));
      assert MemoryOf([v.elem]) == Memory(v.elem);
      return SizeOf(String), Ok(());
    }
    if |shape| == 1 && |v.elems| > 0 && typ.elem != Prim(String) {
      assert typ.elem.Prim?;
      if !addressable && !typ.Slice? {
        assert false; // "cannot take address"
      }
      LeavesConform(v, typ, shape);
      w.Copy(MemoryOf(Flatten(v)));
      return |v.elems| * SizeOf(typ.elem.kind), Ok(());
    }
    ElementsReady(v, typ, shape);
    hide Conforms, HasType, KindOf, Fits, IsAllArray, MemoryOf, Flatten, FlattenAll;
    n, r := EncodeElements(w, v.elems, typ.elem, shape[1..], addressable || typ.Slice?);
    if r.Ok? {
      AllConform(v, shape);
    }
  }

  // The loop of encodeTensorWithSlices.
  method EncodeElements(w: Buffer, vs: seq<Val>, typ: GoType, shape: seq<nat>, addressable: bool)
    returns (n: nat, r: Result<()>)
    requires forall i | 0 <= i < |vs| :: HasType(vs[i], typ) && Fits(typ, shape)
    requires addressable || !IsAllArray(typ)
    requires typ.Prim? && |vs| > 0 ==> typ.kind == String
    modifies w
    ensures r.Ok? <==> forall i | 0 <= i < |vs| :: Conforms(vs[i], shape)
    ensures r.Err? ==> r.failure == MismatchedLengths
    ensures r.Ok? ==> w.data == old(w.data) + MemoryOf(FlattenAll(vs))
    ensures |w.data| == |old(w.data)| + n
    decreases typ, 1
  {
    hide Conforms, HasType, Fits, IsAllArray, MemoryOf, Flatten, FlattenAll, Written;
    WrittenEnds(old(w.data), vs);
    n := 0;
    for i := 0 to |vs|
      invariant forall k | 0 <= k < i :: Conforms(vs[k], shape)
      invariant w.data == Written(old(w.data), vs, i) && |w.data| == |old(w.data)| + n
    {
      var j, err := EncodeTensorWithSlices(w, vs[i], typ, shape, addressable);
      n := n + j;
      if err.Err? {
        return n, err;
      }
      WrittenNext(old(w.data), vs, i);
    }
    r := Ok(());
  }

  // What is there once the first i elements have been written behind the data.
  ghost function Written(data: seq<Byte>, vs: seq<Val>, i: nat): seq<Byte>
    requires i <= |vs|
  {
    data + MemoryOf(FlattenAll(vs[..i]))
  }

  lemma WrittenEnds(data: seq<Byte>, vs: seq<Val>)
    ensures Written(data, vs, 0) == data && Written(data, vs, |vs|) == data + MemoryOf(FlattenAll(vs))
  {
    assert vs[..|vs|] == vs;
  }

  lemma WrittenNext(data: seq<Byte>, vs: seq<Val>, i: nat)
    requires i < |vs|
    ensures Written(data, vs, i + 1) == Written(data, vs, i) + MemoryOf(Flatten(vs[i]))
  {
    assert vs[..i + 1][..i] == vs[..i];
    MemoryOfSum(FlattenAll(vs[..i]), Flatten(vs[i]));
  }

  // What the recursive calls of encodeTensorWithSlices may rely on.
  lemma ElementsReady(v: Val, typ: GoType, shape: seq<nat>)
    requires HasType(v, typ) && !typ.Prim? && Fits(typ, shape) && (typ.Slice? ==> |v.elems| == shape[0])
    ensures forall i | 0 <= i < |v.elems| :: HasType(v.elems[i], typ.elem) && Fits(typ.elem, shape[1..])
    ensures IsAllArray(typ.elem) ==> typ.Slice? || IsAllArray(typ)
    ensures typ.elem.Prim? ==> |shape| == 1
    ensures Conforms(v, shape) ==> forall i | 0 <= i < |v.elems| :: Conforms(v.elems[i], shape[1..])
    ensures |v.elems| == shape[0] && Flatten(v) == FlattenAll(v.elems)
  {
    assert |v.elems| == shape[0];
    assert typ.elem.Prim? ==> Depth(typ) == 1;
    assert |v.elems| > 0 ==> Fits(typ.elem, shape[1..]);
  }

  lemma AllConform(v: Val, shape: seq<nat>)
    requires v.List? && shape != [] && |v.elems| == shape[0]
    requires forall i | 0 <= i < |v.elems| :: Conforms(v.elems[i], shape[1..])
    ensures Conforms(v, shape)
  {
  }

  // A list of scalars lies in one piece of memory.
  lemma LeavesConform(v: Val, typ: GoType, shape: seq<nat>)
    requires HasType(v, typ) && !typ.Prim? && Depth(typ) == 1 == |shape| && |v.elems| == shape[0]
    ensures Conforms(v, shape) && typ.elem.Prim? && |MemoryOf(Flatten(v))| == |v.elems| * SizeOf(typ.elem.kind)
  {
    hide Memory, MemoryOf, SizeOf;
    LeafElements(v, typ, shape);
    FlattenKinds(v, typ);
    hide Conforms, HasType, NumElements, Flatten, FlattenAll, KindOf, Depth;
    FlattenAllCount(v.elems, []);
    MemoryOfAt(Flatten(v), KindOf(typ));
  }

  lemma LeafElements(v: Val, typ: GoType, shape: seq<nat>)
    requires HasType(v, typ) && !typ.Prim? && Depth(typ) == 1 == |shape| && |v.elems| == shape[0]
    ensures Conforms(v, shape) && typ.elem.Prim? && KindOf(typ) == typ.elem.kind && Flatten(v) == FlattenAll(v.elems)
    ensures NumElements([]) == 1 && forall i | 0 <= i < |v.elems| :: Conforms(v.elems[i], [])
  {
    hide Memory, MemoryOf, SizeOf;
    assert typ.elem.Prim? && shape[1..] == [];
    assert forall i | 0 <= i < |v.elems| :: HasType(v.elems[i], typ.elem);
  }

  // NewTensor
  method NewTensor(v: Val, typ: GoType) returns (r: Result<Tensor>)
    requires HasType(v, typ)
    ensures r.Ok? <==> Rectangular(v) && !KindOf(typ).Other?
    ensures r.Ok? ==> r.value.kind == KindOf(typ) && r.value.shape == FirstPath(v, typ) && Conforms(v, r.value.shape)
    ensures r.Ok? ==> && r.value.raw == MemoryOf(Flatten(v))
                      && |r.value.raw| == SizeOf(r.value.kind) * NumElements(r.value.shape)
    ensures r.Ok? ==> TakesBytes(r.value.kind, NumElements(r.value.shape), |r.value.raw|)
    ensures r.Err? ==> r.failure == UnsupportedType || r.failure == MismatchedLengths
  {
    RectangularShape(v, typ);
    SizesInBytes(KindOf(typ), NumElements(FirstPath(v, typ)));
    hide Rectangular, Conforms, HasType, Fits, FirstPath, SiblingsAgree, KindOf;
    hide NumElements, MemoryOf, Flatten, IsAllArray, SizeOf, Depth, TakesBytes;
    var s := ShapeAndDataTypeOf(v, typ);
    if s.Err? {
      return Err(s.failure);
    }
    var (shape, kind) := s.value;
    var nbytes := SizeOf(kind) * NumElements(shape);
    var buf := new Buffer();
    if IsAllArray(typ) {
      ArraysConform(v, typ);
      buf.Copy(MemoryOf(Flatten(v)));
    } else {
      var _, err := EncodeTensorWithSlices(buf, v, typ, shape, false);
      if err.Err? {
        return Err(err.failure);
      }
    }
    RightSize(v, typ, shape);
    if |buf.data| != nbytes {
      return Err(SizeBug);
    }
    return Ok(Tensor(kind, shape, buf.data));
  }

  lemma RectangularShape(v: Val, typ: GoType)
    requires HasType(v, typ)
    ensures Rectangular(v) <==> Conforms(v, FirstPath(v, typ))
    ensures Rectangular(v) ==> SiblingsAgree(v, typ)
    ensures Fits(typ, FirstPath(v, typ)) && (typ.Prim? && !IsAllArray(typ) ==> typ.kind == String)
  {
    FirstPathFits(v, typ);
    if shape :| Conforms(v, shape) {
      DisagreeingSiblings(v, typ, shape);
      ConformsToFirstPath(v, v, typ, shape);
    }
  }

  lemma RightSize(v: Val, typ: GoType, shape: seq<nat>)
    requires HasType(v, typ) && Conforms(v, shape)
    ensures |MemoryOf(Flatten(v))| == SizeOf(KindOf(typ)) * NumElements(shape)
  {
    hide NumElements, Conforms, HasType, Flatten, KindOf, MemoryOf, SizeOf;
    FlattenCount(v, shape);
    FlattenKinds(v, typ);
    MemoryOfAt(Flatten(v), KindOf(typ));
  }

  // Arrays all the way down are rectangular.
  lemma {:induction false} ArraysConform(v: Val, typ: GoType)
    requires HasType(v, typ) && IsAllArray(typ)
    ensures Conforms(v, FirstPath(v, typ))
  {
    if !typ.Prim? {
      forall i | 0 <= i < |v.elems|
        ensures Conforms(v.elems[i], FirstPath(v, typ)[1..])
      {
        ArraysConform(v.elems[0], typ.elem);
        ArraysConform(v.elems[i], typ.elem);
        ArraysAlike(v.elems[0], v.elems[i], typ.elem);
      }
    }
  }

  lemma {:induction false} ArraysAlike(v: Val, w: Val, typ: GoType)
    requires HasType(v, typ) && HasType(w, typ) && IsAllArray(typ)
    ensures FirstPath(v, typ) == FirstPath(w, typ)
  {
    if typ.Array? {
      if typ.len > 0 {
        ArraysAlike(v.elems[0], w.elems[0], typ.elem);
      }
    }
  }
}
