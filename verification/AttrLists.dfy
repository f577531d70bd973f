/**
  Lists of strings and of shapes as attributes: the C API packs them into storage that the
  caller has sized by the metadata, and the Go binding packs and unpacks them.
 */
module AttrLists {
  import opened Options

  // A partially known shape: None is a shape of unknown rank, -1 a dimension of unknown size.
  type Shape = Option<seq<int>>

  // PartialTensorShape takes no dimension below -1.
  predicate ValidShape(s: Shape) {
    s.Some? ==> forall j | 0 <= j < |s.value| :: s.value[j] >= -1
  }

  // PartialTensorShape::dims, Shape.NumDimensions
  function NumDimensions(s: Shape): (n: int)
    ensures s.None? <==> n == -1
    ensures s.Some? ==> n == |s.value|
  {
    if s.None? then -1 else |s.value|
  }

  // ---- Packing

  function Concat<T>(pieces: seq<seq<T>>): seq<T> {
    if pieces == [] then [] else Concat(pieces[..|pieces| - 1]) + pieces[|pieces| - 1]
  }

  lemma ConcatNext<T>(pieces: seq<seq<T>>, i: nat)
    requires i < |pieces|
    ensures Concat(pieces[..i + 1]) == Concat(pieces[..i]) + pieces[i]
  {
    assert pieces[..i + 1][..i] == pieces[..i];
  }

  // Piece k lies behind the pieces before it.
  ghost predicate Lies<T>(pieces: seq<seq<T>>, n: nat, k: nat)
    requires k < n <= |pieces|
  {
    var at := |Concat(pieces[..k])|;
    at + |pieces[k]| <= |Concat(pieces[..n])| && Concat(pieces[..n])[at..at + |pieces[k]|] == pieces[k]
  }

  lemma {:induction false} PieceLies<T>(pieces: seq<seq<T>>, n: nat, k: nat)
    requires k < n <= |pieces|
    ensures Lies(pieces, n, k)
  {
    ConcatNext(pieces, n - 1);
    if k < n - 1 {
      PieceLies(pieces, n - 1, k);
    }
  }

  lemma {:induction false} ConcatGrows<T>(pieces: seq<seq<T>>, i: nat, n: nat)
    requires i <= n <= |pieces|
    ensures |Concat(pieces[..i])| <= |Concat(pieces[..n])|
  {
    if i < n {
      ConcatGrows(pieces, i, n - 1);
      ConcatNext(pieces, n - 1);
    }
  }

  // The dimensions that take room.
  function Pieces(list: seq<Shape>): (pieces: seq<seq<int>>)
    ensures |pieces| == |list|
  {
    seq(|list|, i requires 0 <= i < |list| => if list[i].None? then [] else list[i].value)
  }

  function Min(a: nat, b: nat): (min: nat)
    ensures min <= a && min <= b && (min == a || min == b)
  {
    if a < b then a else b
  }

  // The storage once its first elements have been filled in.
  function Packed<T>(storage: seq<T>, done: seq<T>): seq<T>
    requires |done| <= |storage|
  {
    done + storage[|done|..]
  }

  function Overwritten<T>(storage: seq<T>, p: nat, s: seq<T>): seq<T>
    requires p + |s| <= |storage|
  {
    storage[..p] + s + storage[p + |s|..]
  }

  lemma PackNext<T>(storage: seq<T>, done: seq<T>, s: seq<T>)
    requires |done| + |s| <= |storage|
    ensures Overwritten(Packed(storage, done), |done|, s) == Packed(storage, done + s)
  {
  }

  lemma PackedRest<T>(storage: seq<T>, done: seq<T>, size: nat)
    requires |done| <= size <= |storage|
    ensures Packed(storage, done)[size..] == storage[size..]
  {
  }

  // memcpy
  method CopyInto<T>(storage: array<T>, p: nat, s: seq<T>)
    requires p + |s| <= storage.Length
    modifies storage
    ensures storage[..] == Overwritten(old(storage[..]), p, s)
  {
    for j := 0 to |s|
      invariant forall k | 0 <= k < storage.Length :: storage[k] == if p <= k < p + j then s[k - p] else old(storage[k])
    {
      storage[p + j] := s[j];
    }
  }

  // The first n pieces lie at the places and have the lengths that have been reported.
  ghost predicate Reported<T>(places: seq<nat>, lengths: seq<int>, pieces: seq<seq<T>>, sizes: seq<int>, n: nat) {
    && n <= |places| && n <= |lengths| && n <= |pieces| && n <= |sizes|
    && forall k | 0 <= k < n :: places[k] == |Concat(pieces[..k])| && lengths[k] == sizes[k]
  }

  lemma ReportNext<T>(places: seq<nat>, lengths: seq<int>, pieces: seq<seq<T>>, sizes: seq<int>, n: nat)
    requires Reported(places, lengths, pieces, sizes, n)
    requires n < |places| && n < |lengths| && n < |pieces| && n < |sizes|
    ensures Reported(places[n := |Concat(pieces[..n])|], lengths[n := sizes[n]], pieces, sizes, n + 1)
  {
  }

  function Sizes<T>(pieces: seq<seq<T>>): seq<int> {
    seq(|pieces|, i requires 0 <= i < |pieces| => |pieces[i]|)
  }

  function Ranks(list: seq<Shape>): seq<int> {
    seq(|list|, i requires 0 <= i < |list| => NumDimensions(list[i]))
  }

  // ---- The C API

  // What TF_OperationGetAttrMetadata reports of a list of strings.
  method StringListMetadata(list: seq<string>) returns (listSize: nat, totalSize: nat)
    ensures listSize == |list| && totalSize == |Concat(list)|
  {
    listSize, totalSize := |list|, 0;
    for i := 0 to |list|
      invariant totalSize == |Concat(list[..i])|
    {
      ConcatNext(list, i);
      totalSize := totalSize + |list[i]|;
    }
    assert list[..|list|] == list;
  }

  // What TF_OperationGetAttrMetadata reports of a list of shapes.
  method ShapeListMetadata(list: seq<Shape>) returns (listSize: nat, totalSize: nat)
    ensures listSize == |list| && totalSize == |Concat(Pieces(list))|
  {
    listSize, totalSize := |list|, 0;
    for i := 0 to |list|
      invariant totalSize == |Concat(Pieces(list)[..i])|
    {
      ConcatNext(Pieces(list), i);
      totalSize := totalSize + if list[i].None? then 0 else |list[i].value|;
    }
    assert Pieces(list)[..|list|] == Pieces(list);
  }

  // TF_OperationGetAttrStringList packs the strings one behind the other. It fails exactly if
  // the storage is too small for the strings asked for, and never writes past the storage size.
  method GetAttrStringList(list: seq<string>, values: array<nat>, lengths: array<int>, maxValues: nat,
                           storage: array<char>, storageSize: nat) returns (ok: bool)
    requires Min(maxValues, |list|) <= values.Length && Min(maxValues, |list|) <= lengths.Length
    requires storageSize <= storage.Length
    modifies values, lengths, storage
    ensures var all := Concat(list[..Min(maxValues, |list|)]);
            && (ok <==> |all| <= storageSize)
            && (ok ==> storage[..] == Packed(old(storage[..]), all))
    ensures ok ==> Reported(values[..], lengths[..], list, Sizes(list), Min(maxValues, |list|))
    ensures storage[..][storageSize..] == old(storage[..])[storageSize..]
  {
    var len := Min(maxValues, |list|);
    ghost var original := storage[..];
    assert Packed(original, Concat(list[..0])) == original;
    hide Concat, Packed, Overwritten, Reported;
    ghost var done: string := [];
    var p := 0;
    for i := 0 to len
      invariant p == |done| <= storageSize && done == Concat(list[..i])
      invariant storage[..] == Packed(original, done)
      invariant Reported(values[..], lengths[..], list, Sizes(list), i)
    {
      var s := list[i];
      ReportNext(values[..], lengths[..], list, Sizes(list), i);
      values[i] := p;
      lengths[i] := |s|;
      ConcatNext(list, i);
      ConcatGrows(list, i + 1, len);
      PackedRest(original, done, storageSize);
      if p + |s| > storageSize {
        return false;
      }
      PackNext(original, done, s);
      CopyInto(storage, p, s);
      done, p := done + s, p + |s|;
    }
    PackedRest(original, done, storageSize);
    return true;
  }

  // TF_OperationGetAttrShapeList, likewise; a shape of unknown rank takes no room.
  method GetAttrShapeList(list: seq<Shape>, dims: array<nat>, numDims: array<int>, numShapes: nat,
                          storage: array<int>, storageSize: nat) returns (ok: bool)
    requires numDims != storage && Min(numShapes, |list|) <= dims.Length && Min(numShapes, |list|) <= numDims.Length
    requires storageSize <= storage.Length
    modifies dims, numDims, storage
    ensures var all := Concat(Pieces(list)[..Min(numShapes, |list|)]);
            && (ok <==> |all| <= storageSize)
            && (ok ==> storage[..] == Packed(old(storage[..]), all))
    ensures ok ==> Reported(dims[..], numDims[..], Pieces(list), Ranks(list), Min(numShapes, |list|))
    ensures storage[..][storageSize..] == old(storage[..])[storageSize..]
  {
    var len := Min(numShapes, |list|);
    ghost var original, pieces := storage[..], Pieces(list);
    assert Packed(original, Concat(pieces[..0])) == original;
    hide Concat, Packed, Overwritten, Reported;
    ghost var done: seq<int> := [];
    var p, storageLeft := 0, storageSize;
    for i := 0 to len
      invariant p == |done| && done == Concat(pieces[..i]) && 0 <= storageLeft == storageSize - p
      invariant storage[..] == Packed(original, done)
      invariant Reported(dims[..], numDims[..], pieces, Ranks(list), i)
    {
      var n := NumDimensions(list[i]);
      ReportNext(dims[..], numDims[..], pieces, Ranks(list), i);
      numDims[i] := n;
      dims[i] := p;
      ConcatNext(pieces, i);
      ConcatGrows(pieces, i + 1, len);
      PackedRest(original, done, storageSize);
      if n >= 0 {
        if storageLeft < n {
          return false;
        }
        storageLeft := storageLeft - n;
        PackNext(original, done, pieces[i]);
        CopyInto(storage, p, list[i].value);
        done, p := done + pieces[i], p + n;
      } else {
        assert done + [] == done;
      }
    }
    PackedRest(original, done, storageSize);
    return true;
  }

  // TF_SetAttrShapeList reads num_dims[i] dimensions from dims[i], here a place in the flat list.
  method SetAttrShapeList(flatDims: seq<int>, dims: seq<nat>, numDims: seq<int>) returns (attr: seq<Shape>)
    requires |dims| == |numDims|
    requires forall i | 0 <= i < |dims| && numDims[i] >= 0 :: dims[i] + numDims[i] <= |flatDims|
    ensures |attr| == |dims|
    ensures forall i | 0 <= i < |dims| ::
              attr[i] == if numDims[i] < 0 then None else Some(flatDims[dims[i]..dims[i] + numDims[i]])
  {
    attr := [];
    for i := 0 to |dims|
      invariant |attr| == i
      invariant forall k | 0 <= k < i ::
                  attr[k] == if numDims[k] < 0 then None else Some(flatDims[dims[k]..dims[k] + numDims[k]])
    {
      if numDims[i] < 0 {
        attr := attr + [None];
      } else {
        attr := attr + [Some(flatDims[dims[i]..dims[i] + numDims[i]])];
      }
    }
  }

  // ---- The Go binding

  // The []Shape case of setAttr, with TF_SetAttrShapeList_Helper: what is stored is the list.
  method SetShapes(value: seq<Shape>) returns (attr: seq<Shape>)
    requires forall i | 0 <= i < |value| :: ValidShape(value[i])
    ensures attr == value
  {
    if |value| == 0 {
      attr := SetAttrShapeList([], [], []);
      return;
    }
    ghost var pieces := Pieces(value);
    var flatDims: seq<int>, ndims: seq<int> := [], [];
    for i := 0 to |value|
      invariant flatDims == Concat(pieces[..i]) && ndims == Ranks(value)[..i]
    {
      ConcatNext(pieces, i);
      ndims := ndims + [NumDimensions(value[i])];
      if value[i].Some? {
        flatDims := flatDims + value[i].value;
      }
    }
    assert pieces[..|value|] == pieces && Ranks(value)[..|value|] == Ranks(value);
    attr := SetAttrShapeListHelper(value, flatDims, ndims);
  }

  // TF_SetAttrShapeList_Helper
  method SetAttrShapeListHelper(ghost value: seq<Shape>, flatDims: seq<int>, numDims: seq<int>) returns (attr: seq<Shape>)
    requires flatDims == Concat(Pieces(value)) && numDims == Ranks(value)
    ensures attr == value
  {
    ghost var pieces := Pieces(value);
    assert pieces[..|value|] == pieces;
    var dims: seq<nat>, at := [], 0;
    for i := 0 to |numDims|
      invariant |dims| == i && at == |Concat(pieces[..i])|
      invariant forall k | 0 <= k < i :: dims[k] == |Concat(pieces[..k])|
    {
      dims := dims + [at];
      ConcatNext(pieces, i);
      if numDims[i] > 0 {
        at := at + numDims[i];
      }
    }
    DimsAreThere(value, flatDims, dims, numDims);
    hide Concat, Pieces, Ranks;
    attr := SetAttrShapeList(flatDims, dims, numDims);
    assert forall k | 0 <= k < |value| :: attr[k] == value[k];
  }

  lemma DimsAreThere(value: seq<Shape>, flatDims: seq<int>, dims: seq<nat>, numDims: seq<int>)
    requires flatDims == Concat(Pieces(value)) && numDims == Ranks(value) && |dims| == |value|
    requires forall k | 0 <= k < |dims| :: dims[k] == |Concat(Pieces(value)[..k])|
    ensures forall k | 0 <= k < |dims| && numDims[k] < 0 :: value[k].None?
    ensures forall k | 0 <= k < |dims| && numDims[k] >= 0 ::
              dims[k] + numDims[k] <= |flatDims| && Some(flatDims[dims[k]..dims[k] + numDims[k]]) == value[k]
  {
    hide Concat;
    assert Pieces(value)[..|value|] == Pieces(value);
    forall k | 0 <= k < |dims| && numDims[k] >= 0
      ensures dims[k] + numDims[k] <= |flatDims| && Some(flatDims[dims[k]..dims[k] + numDims[k]]) == value[k]
    {
      PieceLies(Pieces(value), |value|, k);
    }
  }

  // The list of shapes that listAttribute makes of a stored list: with storage sized by the
  // metadata, reading never fails and gives the list.
  method GetShapes(attr: seq<Shape>) returns (list: seq<Shape>)
    ensures list == attr
  {
    var listSize, totalSize := ShapeListMetadata(attr);
    if listSize == 0 {
      return [];
    }
    var dims: array<nat> := new nat[listSize];
    var numDims: array<int> := new int[listSize];
    var storage := new int[totalSize + 1];
    ghost var pieces := Pieces(attr);
    assert pieces[..|attr|] == pieces;
    var ok := GetAttrShapeList(attr, dims, numDims, listSize, storage, totalSize);
    assert ok;
    list := UnpackShapes(attr, dims[..], numDims[..], storage[..]);
  }

  method UnpackShapes(ghost attr: seq<Shape>, dims: seq<nat>, numDims: seq<int>, storage: seq<int>)
    returns (list: seq<Shape>)
    requires |dims| == |numDims| == |attr| && Reported(dims, numDims, Pieces(attr), Ranks(attr), |attr|)
    requires Concat(Pieces(attr)) <= storage
    ensures list == attr
  {
    ghost var pieces := Pieces(attr);
    assert pieces[..|attr|] == pieces;
    hide Concat;
    list := [];
    for i := 0 to |dims|
      invariant list == attr[..i]
    {
      PieceLies(pieces, |attr|, i);
      assert numDims[i] == Ranks(attr)[i];
      if numDims[i] < 0 {
        list := list + [None];
      } else {
        assert storage[dims[i]..dims[i] + numDims[i]] == Concat(pieces)[dims[i]..dims[i] + numDims[i]];
        list := list + [Some(storage[dims[i]..dims[i] + numDims[i]])];
      }
    }
  }

  // The same for a list of strings.
  method GetStrings(attr: seq<string>) returns (list: seq<string>)
    ensures list == attr
  {
    var listSize, totalSize := StringListMetadata(attr);
    if listSize == 0 {
      return [];
    }
    var values: array<nat> := new nat[listSize];
    var lengths: array<int> := new int[listSize];
    var storage := new char[totalSize + 1];
    assert attr[..|attr|] == attr;
    var ok := GetAttrStringList(attr, values, lengths, listSize, storage, totalSize);
    assert ok;
    list := UnpackStrings(attr, values[..], lengths[..], storage[..]);
  }

  method UnpackStrings(ghost attr: seq<string>, values: seq<nat>, lengths: seq<int>, storage: string)
    returns (list: seq<string>)
    requires |values| == |lengths| == |attr| && Reported(values, lengths, attr, Sizes(attr), |attr|)
    requires Concat(attr) <= storage
    ensures list == attr
  {
    assert attr[..|attr|] == attr;
    hide Concat;
    list := [];
    for i := 0 to |values|
      invariant list == attr[..i]
    {
      PieceLies(attr, |attr|, i);
      assert lengths[i] == Sizes(attr)[i];
      assert storage[values[i]..values[i] + lengths[i]] == Concat(attr)[values[i]..values[i] + lengths[i]];
      list := list + [storage[values[i]..values[i] + lengths[i]]];
    }
  }

  // Setting an attribute to a list of shapes and reading it back gives the list.
  method SetThenGetShapes(value: seq<Shape>) returns (list: seq<Shape>)
    requires forall i | 0 <= i < |value| :: ValidShape(value[i])
    ensures list == value
  {
    var attr := SetShapes(value);
    list := GetShapes(attr);
  }
}
