/**
  Reading a tensor back: the binding groups the elements from the innermost dimension
  outwards, which gives the nested value unless an inner dimension hides behind a zero.
 */
module TensorDecoding {
  import opened TensorValues
  import opened TensorCodec

  // ---- What a tensor means, from the outermost dimension inwards

  function Part<T>(s: seq<T>, i: nat, size: nat): seq<T>
    requires (i + 1) * size <= |s|
  {
    assert i * size <= (i + 1) * size;
    s[i * size..(i + 1) * size]
  }

  lemma PartInRange(i: nat, n: nat, size: nat)
    requires i < n
    ensures (i + 1) * size <= n * size
  {
  }

  function Unflatten(elems: seq<Elem>, shape: seq<nat>): Val
    requires |elems| == NumElements(shape)
    decreases |shape|
  {
    if shape == [] then Leaf(elems[0])
    else
      NumElementsHead(shape);
      List(seq(shape[0], i requires 0 <= i < shape[0] =>
        PartInRange(i, shape[0], NumElements(shape[1..]));
        Unflatten(Part(elems, i, NumElements(shape[1..])), shape[1..])))
  }

  lemma {:induction false} UnflattenConforms(elems: seq<Elem>, shape: seq<nat>)
    requires |elems| == NumElements(shape)
    ensures Conforms(Unflatten(elems, shape), shape)
    decreases |shape|
  {
    if shape != [] {
      NumElementsHead(shape);
      forall i | 0 <= i < shape[0]
        ensures Conforms(Unflatten(elems, shape).elems[i], shape[1..])
      {
        PartInRange(i, shape[0], NumElements(shape[1..]));
        UnflattenConforms(Part(elems, i, NumElements(shape[1..])), shape[1..]);
      }
    }
  }

  // The elements of item i of a rectangular list are part i of all elements.
  lemma {:induction false} FlattenParts(vs: seq<Val>, shape: seq<nat>, i: nat)
    requires i < |vs| && forall k | 0 <= k < |vs| :: Conforms(vs[k], shape)
    ensures |FlattenAll(vs)| == |vs| * NumElements(shape) && (i + 1) * NumElements(shape) <= |vs| * NumElements(shape)
    ensures Part(FlattenAll(vs), i, NumElements(shape)) == Flatten(vs[i])
    decreases |vs|
  {
    var size := NumElements(shape);
    var front, last := vs[..|vs| - 1], vs[|vs| - 1];
    FlattenAllCount(vs, shape);
    FlattenAllCount(front, shape);
    FlattenCount(last, shape);
    PartInRange(i, |vs|, size);
    if i < |front| {
      FlattenParts(front, shape, i);
      PartOfSum(FlattenAll(front), Flatten(last), i, size);
    } else {
      assert i * size == |FlattenAll(front)|;
    }
  }

  lemma PartOfSum<T>(a: seq<T>, b: seq<T>, i: nat, size: nat)
    requires (i + 1) * size <= |a|
    ensures Part(a + b, i, size) == Part(a, i, size)
  {
  }

  // Unflattening undoes flattening.
  lemma {:induction false} UnflattenFlatten(v: Val, shape: seq<nat>)
    requires Conforms(v, shape)
    ensures |Flatten(v)| == NumElements(shape) && Unflatten(Flatten(v), shape) == v
    decreases |shape|
  {
    FlattenCount(v, shape);
    if shape != [] {
      NumElementsHead(shape);
      forall i | 0 <= i < shape[0]
        ensures Unflatten(Flatten(v), shape).elems[i] == v.elems[i]
      {
        FlattenParts(v.elems, shape[1..], i);
        UnflattenFlatten(v.elems[i], shape[1..]);
      }
      assert Unflatten(Flatten(v), shape).elems == v.elems;
    }
  }

  lemma PartOfIndex(x: nat, n: nat, size: nat)
    requires x < n * size
    ensures size > 0 && x / size < n
    ensures x / size * size <= x < (x / size + 1) * size <= n * size
  {
    var i := x / size;
    assert x == i * size + x % size;
    assert i >= n ==> n * size <= i * size;
    PartInRange(i, n, size);
  }

  ghost predicate SamePart<T>(a: seq<T>, b: seq<T>, i: nat, size: nat) {
    (i + 1) * size <= |a| == |b| && Part(a, i, size) == Part(b, i, size)
  }

  lemma EqualByParts<T>(a: seq<T>, b: seq<T>, n: nat, size: nat)
    requires |a| == |b| == n * size && forall i | 0 <= i < n :: SamePart(a, b, i, size)
    ensures a == b
  {
    forall x | 0 <= x < |a|
      ensures a[x] == b[x]
    {
      PartOfIndex(x, n, size);
      var i := x / size;
      assert SamePart(a, b, i, size);
      assert Part(a, i, size)[x - i * size] == Part(b, i, size)[x - i * size];
    }
  }

  // Flattening undoes unflattening.
  lemma {:induction false} FlattenUnflatten(elems: seq<Elem>, shape: seq<nat>)
    requires |elems| == NumElements(shape)
    ensures Flatten(Unflatten(elems, shape)) == elems
    decreases |shape|, 1
  {
    if shape == [] {
      assert NumElements(shape) == 1;
    } else {
      var v := Unflatten(elems, shape);
      UnflattenedList(elems, shape);
      hide NumElements, Unflatten, Flatten, FlattenAll, SamePart;
      forall i | 0 <= i < shape[0]
        ensures SamePart(FlattenAll(v.elems), elems, i, NumElements(shape[1..]))
      {
        PartsOfUnflattened(elems, shape, i);
      }
      EqualByParts(FlattenAll(v.elems), elems, shape[0], NumElements(shape[1..]));
    }
  }

  lemma {:induction false} PartsOfUnflattened(elems: seq<Elem>, shape: seq<nat>, i: nat)
    requires |elems| == NumElements(shape) && shape != [] && i < shape[0]
    ensures SamePart(FlattenAll(Unflatten(elems, shape).elems), elems, i, NumElements(shape[1..]))
    decreases |shape|, 0
  {
    var v := Unflatten(elems, shape);
    NumElementsHead(shape);
    PartInRange(i, shape[0], NumElements(shape[1..]));
    UnflattenConforms(elems, shape);
    FlattenParts(v.elems, shape[1..], i);
    FlattenUnflatten(Part(elems, i, NumElements(shape[1..])), shape[1..]);
  }

  lemma UnflattenedList(elems: seq<Elem>, shape: seq<nat>)
    requires |elems| == NumElements(shape) && shape != []
    ensures var v := Unflatten(elems, shape);
            v.List? && Flatten(v) == FlattenAll(v.elems)
            && |FlattenAll(v.elems)| == |elems| == shape[0] * NumElements(shape[1..])
  {
    NumElementsHead(shape);
    UnflattenConforms(elems, shape);
    FlattenCount(Unflatten(elems, shape), shape);
  }

  // ---- Levels of a rectangular value

  function Children(nodes: seq<Val>): seq<Val>
    requires forall i | 0 <= i < |nodes| :: nodes[i].List?
  {
    if nodes == [] then [] else Children(nodes[..|nodes| - 1]) + nodes[|nodes| - 1].elems
  }

  // n consecutive groups of sub items each
  function Grouped(items: seq<Val>, sub: nat, n: nat): seq<Val>
    requires n * sub <= |items|
  {
    seq(n, j requires 0 <= j < n => PartInRange(j, n, sub); List(Part(items, j, sub)))
  }

  ghost predicate SameLength(nodes: seq<Val>, sub: nat) {
    forall i | 0 <= i < |nodes| :: nodes[i].List? && |nodes[i].elems| == sub
  }

  lemma {:induction false} CountChildren(nodes: seq<Val>, sub: nat)
    requires SameLength(nodes, sub)
    ensures |Children(nodes)| == |nodes| * sub
  {
    if nodes != [] {
      CountChildren(nodes[..|nodes| - 1], sub);
      assert (|nodes| - 1) * sub + sub == |nodes| * sub;
    }
  }

  lemma {:induction false} ChildrenPart(nodes: seq<Val>, sub: nat, j: nat)
    requires SameLength(nodes, sub) && j < |nodes|
    ensures (j + 1) * sub <= |Children(nodes)| && Part(Children(nodes), j, sub) == nodes[j].elems
  {
    var front, last := nodes[..|nodes| - 1], nodes[|nodes| - 1];
    CountChildren(nodes, sub);
    CountChildren(front, sub);
    PartInRange(j, |nodes|, sub);
    if j < |front| {
      ChildrenPart(front, sub, j);
      PartOfSum(Children(front), last.elems, j, sub);
    } else {
      assert j * sub == |Children(front)|;
    }
  }

  lemma GroupedChildren(nodes: seq<Val>, sub: nat)
    requires SameLength(nodes, sub)
    ensures |Children(nodes)| == |nodes| * sub
    ensures Grouped(Children(nodes), sub, |nodes|) == nodes
  {
    CountChildren(nodes, sub);
    forall j | 0 <= j < |nodes|
      ensures Grouped(Children(nodes), sub, |nodes|)[j] == nodes[j]
    {
      ChildrenPart(nodes, sub, j);
    }
  }

  ghost predicate AllConform(nodes: seq<Val>, shape: seq<nat>) {
    forall i | 0 <= i < |nodes| :: Conforms(nodes[i], shape)
  }

  lemma {:induction false} ChildrenConform(nodes: seq<Val>, shape: seq<nat>)
    requires shape != [] && AllConform(nodes, shape)
    ensures forall i | 0 <= i < |nodes| :: nodes[i].List?
    ensures AllConform(Children(nodes), shape[1..]) && FlattenAll(Children(nodes)) == FlattenAll(nodes)
  {
    if nodes != [] {
      var front, last := nodes[..|nodes| - 1], nodes[|nodes| - 1];
      ChildrenConform(front, shape);
      FlattenAllSum(Children(front), last.elems);
    }
  }

  lemma {:induction false} FlattenAllSum(a: seq<Val>, b: seq<Val>)
    ensures FlattenAll(a + b) == FlattenAll(a) + FlattenAll(b)
  {
    if b == [] {
      assert a + b == a;
    } else {
      var front, last := b[..|b| - 1], b[|b| - 1];
      FlattenAllSum(a, front);
      assert (a + b)[..|a + b| - 1] == a + front && (a + b)[|a + b| - 1] == last;
    }
  }

  // The nodes at depth d, in order.
  function Level(v: Val, shape: seq<nat>, d: nat): (nodes: seq<Val>)
    requires Conforms(v, shape) && d <= |shape|
    ensures forall i | 0 <= i < |nodes| :: Conforms(nodes[i], shape[d..])
    ensures FlattenAll(nodes) == Flatten(v) && |nodes| == NumElements(shape[..d])
  {
    if d == 0 then [v]
    else
      var above := Level(v, shape, d - 1);
      LevelStep(above, shape, d);
      Children(above)
  }

  lemma LevelStep(above: seq<Val>, shape: seq<nat>, d: nat)
    requires 0 < d <= |shape| && AllConform(above, shape[d - 1..]) && |above| == NumElements(shape[..d - 1])
    ensures SameLength(above, shape[d - 1])
    ensures AllConform(Children(above), shape[d..]) && FlattenAll(Children(above)) == FlattenAll(above)
    ensures |Children(above)| == NumElements(shape[..d])
  {
    assert shape[d - 1..][1..] == shape[d..] && shape[..d][..d - 1] == shape[..d - 1];
    ChildrenConform(above, shape[d - 1..]);
    GroupedChildren(above, shape[d - 1]);
  }

  // The last level holds the elements.
  lemma {:induction false} FlattenLeaves(nodes: seq<Val>)
    requires forall i | 0 <= i < |nodes| :: nodes[i].Leaf?
    ensures |FlattenAll(nodes)| == |nodes| && forall i | 0 <= i < |nodes| :: nodes[i] == Leaf(FlattenAll(nodes)[i])
  {
    if nodes != [] {
      FlattenLeaves(nodes[..|nodes| - 1]);
    }
  }

  // ---- Decoding

  function Front(shape: seq<nat>): seq<nat>
    requires shape != []
  {
    shape[..|shape| - 1]
  }

  // No dimension but the last is 0, or the first one is.
  predicate Decodable(shape: seq<nat>) {
    shape == [] || shape[0] == 0 || forall i | 0 <= i < |shape| - 1 :: shape[i] != 0
  }

  lemma {:induction false} NoZeroDimension(shape: seq<nat>)
    ensures NumElements(shape) != 0 <==> forall i | 0 <= i < |shape| :: shape[i] != 0
  {
    if shape != [] {
      NoZeroDimension(Front(shape));
    }
  }

  lemma PrefixElements(shape: seq<nat>, d: nat)
    requires d < |shape|
    ensures NumElements(shape[..d + 1]) == NumElements(shape[..d]) * shape[d]
  {
    assert shape[..d + 1][..d] == shape[..d];
  }

  // The elements that the bytes of a tensor represent.
  function Elements(t: Tensor): seq<Elem>
    requires |t.raw| == SizeOf(t.kind) * NumElements(t.shape)
  {
    seq(NumElements(t.shape), j requires 0 <= j < NumElements(t.shape) => ElementAt(t, j))
  }

  function ElementAt(t: Tensor, j: nat): Elem
    requires |t.raw| == SizeOf(t.kind) * NumElements(t.shape) && j < NumElements(t.shape)
  {
    assert j * SizeOf(t.kind) < NumElements(t.shape) * SizeOf(t.kind);
    t.raw[j * SizeOf(t.kind)].of
  }

  // numElements
  method CountElements(shape: seq<nat>) returns (n: nat)
    ensures n == NumElements(shape)
  {
    n := 1;
    for i := 0 to |shape|
      invariant n == NumElements(shape[..i])
    {
      PrefixElements(shape, i);
      n := n * shape[i];
    }
    assert shape[..|shape|] == shape;
  }

  // One round of the loop of decodeTensor. The groups are slices into the memory of the items,
  // so they must lie within it.
  method Group(items: seq<Val>, sub: nat, n: nat) returns (groups: seq<Val>)
    requires n * sub <= |items|
    ensures groups == Grouped(items, sub, n)
  {
    groups := [];
    for j := 0 to n
      invariant |groups| == j && forall k | 0 <= k < j :: groups[k] == Grouped(items, sub, n)[k]
    {
      PartInRange(j, n, sub);
      groups := groups + [List(items[j * sub..(j + 1) * sub])];
    }
  }

  ghost predicate InnerNonZero(shape: seq<nat>) {
    forall i | 0 <= i < |shape| - 1 :: shape[i] != 0
  }

  // Where the loop of decodeTensor stands: the items are the nodes at depth d; n counts them,
  // except that for a last dimension of 0 it already counts the nodes above.
  ghost predicate Standing(v: Val, shape: seq<nat>, d: nat, items: seq<Val>, n: nat) {
    && 0 < d <= |shape| && Conforms(v, shape) && items == Level(v, shape, d)
    && n == if d == |shape| && shape[d - 1] == 0 then NumElements(shape[..d - 1]) else NumElements(shape[..d])
  }

  lemma GroupLevel(v: Val, shape: seq<nat>, d: nat, items: seq<Val>, n: nat)
    requires Standing(v, shape, d, items, n) && InnerNonZero(shape) && d > 1
    ensures var sub := shape[d - 1];
            var m := if sub != 0 then n / sub else n;
            m * sub <= |items| && Standing(v, shape, d - 1, Grouped(items, sub, m), m)
  {
    var above, sub := Level(v, shape, d - 1), shape[d - 1];
    PrefixElements(shape, d - 1);
    LevelStep(above, shape, d);
    GroupedChildren(above, sub);
    assert items == Children(above);
    hide Level, NumElements, Grouped, Children, Conforms;
    if sub != 0 {
      Quotient(|above|, sub);
    }
  }

  lemma Quotient(m: nat, sub: nat)
    requires sub != 0
    ensures m * sub / sub == m
  {
    var q := m * sub / sub;
    assert m * sub == q * sub + m * sub % sub;
    assert q < m ==> (q + 1) * sub <= m * sub;
    assert q > m ==> (m + 1) * sub <= q * sub;
  }

  lemma BaseLevel(t: Tensor, items: seq<Val>)
    requires |t.raw| == SizeOf(t.kind) * NumElements(t.shape) && |items| == NumElements(t.shape)
    requires forall k | 0 <= k < |items| :: items[k] == Leaf(ElementAt(t, k))
    ensures var v := Unflatten(Elements(t), t.shape);
            Conforms(v, t.shape) && items == Level(v, t.shape, |t.shape|)
  {
    var v := Unflatten(Elements(t), t.shape);
    UnflattenConforms(Elements(t), t.shape);
    FlattenUnflatten(Elements(t), t.shape);
    var leaves := Level(v, t.shape, |t.shape|);
    FlattenLeaves(leaves);
  }

  lemma TopLevel(v: Val, shape: seq<nat>)
    requires Conforms(v, shape) && shape != []
    ensures v == List(Level(v, shape, 1))
  {
    assert Level(v, shape, 0) == [v];
    assert Children([v]) == Children([]) + v.elems;
  }

  lemma BaseStanding(shape: seq<nat>, items: seq<Val>, whole: Val)
    requires |shape| > 1 && Conforms(whole, shape) && items == Level(whole, shape, |shape|)
    ensures var n := if NumElements(shape) == 0 then NumElements(Front(shape)) else NumElements(shape);
            if InnerNonZero(shape) then Standing(whole, shape, |shape|, items, n) else n == 0
    ensures Decodable(shape) <==> shape[0] == 0 || InnerNonZero(shape)
    ensures shape[0] == 0 ==> whole == List([]) && !InnerNonZero(shape)
  {
    assert shape[..|shape|] == shape;
    NoZeroDimension(shape);
    NoZeroDimension(Front(shape));
  }

  // decodeTensor. Where it does not give the value that the elements make up, it gives an empty
  // list; it never reaches outside the memory of a slice.
  method DecodeTensor(t: Tensor) returns (v: Val)
    requires |t.raw| == SizeOf(t.kind) * NumElements(t.shape)
    ensures v == if Decodable(t.shape) then Unflatten(Elements(t), t.shape) else List([])
  {
    var shape := t.shape;
    var n := CountElements(shape);
    var slice: seq<Val> := [];
    for j := 0 to n
      invariant |slice| == j && forall k | 0 <= k < j :: slice[k] == Leaf(ElementAt(t, k))
    {
      slice := slice + [Leaf(ElementAt(t, j))];
    }
    ghost var whole := Unflatten(Elements(t), shape);
    BaseLevel(t, slice);
    if |shape| == 0 {
      return slice[0];
    }
    TopLevel(whole, shape);
    if |shape| == 1 {
      return List(slice);
    }
    BaseStanding(shape, slice, whole);
    hide NumElements, Level, Conforms, Unflatten, Elements, InnerNonZero, Standing;
    if n == 0 {
      n := CountElements(shape[..|shape| - 1]);
    }
    slice := GroupAll(shape, slice, n, whole);
    return List(slice);
  }

  // The loop of decodeTensor.
  method GroupAll(shape: seq<nat>, base: seq<Val>, elements: nat, ghost whole: Val) returns (slice: seq<Val>)
    requires |shape| > 1
    requires if InnerNonZero(shape) then Standing(whole, shape, |shape|, base, elements) else elements == 0
    ensures if InnerNonZero(shape) then Conforms(whole, shape) && slice == Level(whole, shape, 1) else slice == []
  {
    hide NumElements, Level, Conforms;
    slice := base;
    var n, i := elements, |shape| - 1;
    while i > 0
      invariant 0 <= i < |shape|
      invariant if InnerNonZero(shape) then Standing(whole, shape, i + 1, slice, n)
                else n == 0 && (i < |shape| - 1 ==> slice == [])
    {
      if InnerNonZero(shape) {
        GroupLevel(whole, shape, i + 1, slice, n);
      }
      i := i - 1;
      var subsliceLen := shape[i + 1];
      if subsliceLen != 0 {
        n := n / subsliceLen;
      }
      slice := Group(slice, subsliceLen, n);
    }
  }

  // A value that can be made into a tensor is read back, with slices for its arrays, exactly if
  // no dimension but the last is 0 or the first one is.
  method RoundTrip(v: Val, typ: GoType) returns (r: Result<Val>)
    requires HasType(v, typ)
    ensures r.Ok? <==> Rectangular(v) && !KindOf(typ).Other?
    ensures r.Ok? ==> (r.value == v <==> Decodable(FirstPath(v, typ)))
  {
    var t := NewTensor(v, typ);
    if t.Err? {
      return Err(t.failure);
    }
    EncodedElements(v, typ, t.value);
    var w := DecodeTensor(t.value);
    return Ok(w);
  }

  // The shortest shape that is lost: a [][][]int32 with two empty rows comes back as an empty list.
  lemma InnerZeroIsLost()
    ensures var v, typ := List([List([]), List([])]), Slice(Slice(Slice(Prim(Int32))));
            HasType(v, typ) && Rectangular(v) && FirstPath(v, typ) == [2, 0, 0] && !Decodable(FirstPath(v, typ))
  {
    var v, typ := List([List([]), List([])]), Slice(Slice(Slice(Prim(Int32))));
    assert FirstPath(List([]), Prim(Int32)) == [];
    assert FirstPath(List([]), Slice(Prim(Int32))) == [0];
    assert FirstPath(List([]), Slice(Slice(Prim(Int32)))) == [0, 0];
    assert FirstPath(v, typ) == [2, 0, 0];
    assert Conforms(List([]), [0, 0]);
    assert [2, 0, 0][1..] == [0, 0];
    assert Conforms(v, [2, 0, 0]);
  }

  lemma EncodedElements(v: Val, typ: GoType, t: Tensor)
    requires HasType(v, typ) && Conforms(v, t.shape) && t.kind == KindOf(typ) && t.raw == MemoryOf(Flatten(v))
    requires |t.raw| == SizeOf(t.kind) * NumElements(t.shape)
    ensures Unflatten(Elements(t), t.shape) == v
    ensures !Decodable(t.shape) ==> v != List([])
  {
    FlattenKinds(v, typ);
    MemoryOfAt(Flatten(v), t.kind);
    UnflattenFlatten(v, t.shape);
    assert Elements(t) == Flatten(v);
  }
}
