/** The number of bytes a tensor needs, or nothing where the runtime ABI cannot express it. */
module StorageSize {
  import opened Prelude
  import opened Ast

  const UINT64_MAX: nat := 0xFFFF_FFFF_FFFF_FFFF

  type UInt64 = n: nat | n <= UINT64_MAX

  function ElementSize(ty: TensorType): UInt64 {
    if ty.elementType == "f32" then 4
    else if ty.elementType == "f64" || ty.elementType == "i64" then 8
    else 0
  }

  /** The mathematical number of elements. */
  function Elements(shape: seq<nat>): nat {
    if shape == [] then 1 else Elements(shape[..|shape| - 1]) * shape[|shape| - 1]
  }

  ghost predicate Storable(ty: TensorType) {
    && 0 < ElementSize(ty) && ty.shape != []
    && (forall i :: 0 <= i < |ty.shape| ==> 0 < ty.shape[i])
    && ElementSize(ty) * Elements(ty.shape) <= UINT64_MAX
  }

  /** The exact size of a storable tensor. */
  ghost function Size(ty: TensorType): Option<UInt64> {
    if Storable(ty) then Some(ElementSize(ty) * Elements(ty.shape)) else None
  }

  /** With positive dimensions, more of them never make the product smaller. */
  lemma {:induction false} PrefixBound(shape: seq<nat>, n: nat)
    requires n <= |shape| && forall i :: 0 <= i < |shape| ==> 0 < shape[i]
    ensures 0 < Elements(shape[..n]) <= Elements(shape)
    decreases |shape|
  {
    var last := |shape| - 1;
    if n == |shape| {
      assert shape[..n] == shape;
      if shape != [] {
        PrefixBound(shape[..last], last);
        assert shape[..last][..last] == shape[..last];
        assert Elements(shape) == Elements(shape[..last]) * shape[last];
        Positive(Elements(shape[..last]), shape[last]);
      }
    } else {
      PrefixBound(shape[..last], n);
      assert shape[..last][..n] == shape[..n];
      Positive(Elements(shape[..last]), shape[last]);
    }
  }

  lemma Positive(a: nat, b: nat)
    requires 0 < a && 0 < b
    ensures 0 < a <= a * b
  {
  }

  lemma Scale(a: nat, b: nat, c: nat)
    requires b <= c
    ensures a * b <= a * c
  {
  }

  /** The guard refuses exactly the multiplications that would exceed 64 bits. */
  lemma GuardExact(size: UInt64, dimension: nat)
    requires 0 < size
    ensures dimension > UINT64_MAX / size <==> size * dimension > UINT64_MAX
  {
    var q := UINT64_MAX / size;
    assert size * q <= UINT64_MAX < size * (q + 1);
    if dimension > q {
      Scale(size, q + 1, dimension);
    } else {
      Scale(size, dimension, q);
    }
  }

  method TensorStorageSize(ty: TensorType) returns (result: Option<UInt64>)
    ensures result == Size(ty)
  {
    var elementSize := ElementSize(ty);
    if elementSize == 0 || ty.shape == [] {
      return None;
    }
    var size: UInt64 := elementSize;
    for i := 0 to |ty.shape|
      invariant 0 < size && size == elementSize * Elements(ty.shape[..i])
      invariant forall j :: 0 <= j < i ==> 0 < ty.shape[j]
    {
      var dimension := ty.shape[i];
      assert ty.shape[..i + 1][..i] == ty.shape[..i];
      assert Elements(ty.shape[..i + 1]) == Elements(ty.shape[..i]) * dimension;
      GuardExact(size, dimension);
      Regroup(elementSize, Elements(ty.shape[..i]), dimension);
      if dimension == 0 || dimension > UINT64_MAX / size {
        if Storable(ty) {
          PrefixBound(ty.shape, i + 1);
          Scale(elementSize, Elements(ty.shape[..i + 1]), Elements(ty.shape));
        }
        return None;
      }
      Positive(size, dimension);
      size := size * dimension;
    }
    assert ty.shape[..|ty.shape|] == ty.shape;
    result := Some(size);
  }

  lemma Regroup(a: nat, b: nat, c: nat)
    ensures (a * b) * c == a * (b * c)
  {
  }

  /** The bytes of one element: four for f32, eight for f64 and i64, and no other element can be stored. */
  predicate ElementBytes(elementType: string, bytes: nat) {
    || (bytes == 4 && elementType == "f32")
    || (bytes == 8 && elementType in {"f64", "i64"})
  }

  /** The number of elements, by its laws: one dimension counts itself, and one more multiplies. */
  lemma ElementsExact(shape: seq<nat>, d: nat)
    ensures Elements([d]) == d && Elements(shape + [d]) == Elements(shape) * d
  {
    assert [d][..0] == [] && Elements([]) == 1;
    assert (shape + [d])[..|shape|] == shape;
  }

  /** Exactly which tensors have a size: a storable element type, at least one dimension, no empty one, and fewer than
      2^64 bytes; and that many bytes is the size. */
  lemma SizeExact(ty: TensorType, size: nat)
    ensures Size(ty).Some? && Size(ty).value == size <==>
      && ty.shape != [] && (forall i :: 0 <= i < |ty.shape| ==> ty.shape[i] >= 1)
      && size < 0x1_0000_0000_0000_0000
      && exists bytes: nat :: ElementBytes(ty.elementType, bytes) && size == bytes * Elements(ty.shape)
  {
    var bytes := ElementSize(ty);
    if bytes != 0 {
      assert ElementBytes(ty.elementType, bytes);
    }
  }

  /** One dimension takes that many elements. */
  lemma SizeOne(elementType: string, d: nat, bytes: nat)
    requires ElementBytes(elementType, bytes) && 0 < d
    ensures Size(TensorType(elementType, [d])) == if bytes * d < 0x1_0000_0000_0000_0000 then Some(bytes * d) else None
  {
    ElementsExact([], d);
  }

  /** One more dimension multiplies the size. */
  lemma SizeMore(elementType: string, shape: seq<nat>, d: nat)
    requires Size(TensorType(elementType, shape)).Some? && 0 < d
    ensures var size := Size(TensorType(elementType, shape)).value;
      Size(TensorType(elementType, shape + [d])) == if size * d < 0x1_0000_0000_0000_0000 then Some(size * d) else None
  {
    hide Elements;
    var bytes := ElementSize(TensorType(elementType, shape));
    ElementsExact(shape, d);
    Regroup(bytes, Elements(shape), d);
    assert forall i :: 0 <= i < |shape| ==> (shape + [d])[i] == shape[i];
  }
}
