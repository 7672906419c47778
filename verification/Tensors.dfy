/**
  Dense tensors in row-major order, with the shape operations of the tensor library that the
  converters call: `reshape`, `permute`, `transpose` and `cat` along the first dimension.
  Elements are real numbers; rounding plays no part in moving them around.
 */
module Tensors {
  import opened Arith
  import opened Options

  datatype Tensor = Tensor(shape: seq<nat>, data: seq<real>)

  // ------------------------------------------------------------------ row-major layout

  function Prod(shape: seq<nat>): nat {
    if shape == [] then 1 else Prod(shape[..|shape| - 1]) * shape[|shape| - 1]
  }

  predicate Positive(shape: seq<nat>) {
    forall i :: 0 <= i < |shape| ==> shape[i] > 0
  }

  predicate Valid(t: Tensor) {
    Positive(t.shape) && |t.data| == Prod(t.shape)
  }

  predicate InBounds(idx: seq<nat>, shape: seq<nat>) {
    |idx| == |shape| && forall i :: 0 <= i < |idx| ==> idx[i] < shape[i]
  }

  function Init<T>(s: seq<T>): (r: seq<T>)
    requires s != []
  {
    s[..|s| - 1]
  }

  function Last<T>(s: seq<T>): T
    requires s != []
  {
    s[|s| - 1]
  }

  /** The position of an index in the data. */
  function Flat(shape: seq<nat>, idx: seq<nat>): nat
    requires |idx| == |shape|
  {
    if shape == [] then 0 else Flat(Init(shape), Init(idx)) * Last(shape) + Last(idx)
  }

  /** The index of a position in the data. */
  function Unflat(shape: seq<nat>, k: nat): (idx: seq<nat>)
    requires Positive(shape)
    ensures |idx| == |shape|
  {
    if shape == [] then [] else Unflat(Init(shape), k / Last(shape)) + [k % Last(shape)]
  }

  function At(t: Tensor, idx: seq<nat>): real
    requires Valid(t) && InBounds(idx, t.shape)
  {
    FlatBound(t.shape, idx);
    t.data[Flat(t.shape, idx)]
  }

  lemma {:induction false} ProdPositive(shape: seq<nat>)
    requires Positive(shape)
    ensures Prod(shape) > 0
  {
    if shape != [] {
      ProdPositive(Init(shape));
      assert Prod(Init(shape)) * Last(shape) > 0;
    }
  }

  lemma {:induction false} FlatBound(shape: seq<nat>, idx: seq<nat>)
    requires InBounds(idx, shape)
    ensures Flat(shape, idx) < Prod(shape)
  {
    if shape != [] {
      FlatBound(Init(shape), Init(idx));
      RowBound(Flat(Init(shape), Init(idx)), Last(idx), Prod(Init(shape)), Last(shape));
    }
  }

  lemma {:induction false} UnflatOfFlat(shape: seq<nat>, idx: seq<nat>)
    requires Positive(shape) && InBounds(idx, shape)
    ensures Unflat(shape, Flat(shape, idx)) == idx
  {
    if shape != [] {
      UnflatOfFlat(Init(shape), Init(idx));
      DivModOf(Flat(Init(shape), Init(idx)), Last(idx), Last(shape));
      assert idx == Init(idx) + [Last(idx)];
    }
  }

  lemma OneMoreIndex(shape: seq<nat>, idx: seq<nat>, r: nat)
    requires shape != [] && InBounds(idx, Init(shape)) && r < Last(shape)
    ensures InBounds(idx + [r], shape) && Flat(shape, idx + [r]) == Flat(Init(shape), idx) * Last(shape) + r
  {
    assert Init(idx + [r]) == idx;
  }

  lemma UnflatInner(shape: seq<nat>, k: nat, q: nat, r: nat)
    requires shape != [] && Positive(shape) && q == k / Last(shape) && r == k % Last(shape)
    ensures Positive(Init(shape)) && r < Last(shape) && Unflat(shape, k) == Unflat(Init(shape), q) + [r]
  {
  }

  lemma {:induction false} FlatOfUnflat(shape: seq<nat>, k: nat)
    requires Positive(shape) && k < Prod(shape)
    ensures InBounds(Unflat(shape, k), shape) && Flat(shape, Unflat(shape, k)) == k
  {
    if shape != [] {
      var q, r := SplitPosition(k, Prod(Init(shape)), Last(shape));
      UnflatInner(shape, k, q, r);
      FlatOfUnflat(Init(shape), q);
      OneMoreIndex(shape, Unflat(Init(shape), q), r);
    }
  }

  // ---------------------------------------------------------------------------- reshape

  function ProdOf(dims: seq<int>): int {
    if dims == [] then 1 else ProdOf(Init(dims)) * Last(dims)
  }

  /** One -1 stands for the dimension that makes the sizes agree. */
  function Inferred(dims: seq<int>, d: int): (r: seq<int>)
    ensures |r| == |dims|
  {
    seq(|dims|, i requires 0 <= i < |dims| => if dims[i] == -1 then d else dims[i])
  }

  predicate AtMostOneInferred(dims: seq<int>) {
    forall i, j :: 0 <= i < j < |dims| ==> dims[i] != -1 || dims[j] != -1
  }

  predicate Natural(dims: seq<int>) {
    forall i :: 0 <= i < |dims| ==> dims[i] >= 0
  }

  function AsShape(dims: seq<int>): (s: seq<nat>)
    requires Natural(dims)
    ensures |s| == |dims| && s == dims
  {
    seq<nat>(|dims|, i requires 0 <= i < |dims| => dims[i])
  }

  function ReshapeTo(t: Tensor, dims: seq<int>): (r: Option<Tensor>)
    requires Valid(t)
    ensures r.Some? ==> Valid(r.value)
  {
    if Natural(dims) && Prod(AsShape(dims)) == |t.data| then
      ProdPositive(t.shape);
      PositiveFactors(AsShape(dims));
      Some(Tensor(AsShape(dims), t.data))
    else None
  }

  lemma {:induction false} PositiveFactors(shape: seq<nat>)
    requires Prod(shape) > 0
    ensures Positive(shape)
  {
    if shape != [] {
      assert Prod(Init(shape)) > 0 && Last(shape) > 0;
      PositiveFactors(Init(shape));
      assert forall i :: 0 <= i < |shape| - 1 ==> shape[i] == Init(shape)[i];
    }
  }

  /** `torch.reshape`. */
  function Reshape(t: Tensor, dims: seq<int>): (r: Option<Tensor>)
    requires Valid(t)
    ensures r.Some? ==> Valid(r.value)
  {
    if -1 !in dims then ReshapeTo(t, dims)
    else
      var known := ProdOf(Inferred(dims, 1));
      if !AtMostOneInferred(dims) || known == 0 || |t.data| % known != 0 then None
      else ReshapeTo(t, Inferred(dims, |t.data| / known))
  }

  // ---------------------------------------------------------------------------- permute

  predicate IsPermutation(dims: seq<nat>) {
    && (forall i :: 0 <= i < |dims| ==> dims[i] < |dims|)
    && (forall i, j :: 0 <= i < j < |dims| ==> dims[i] != dims[j])
    && (forall d :: 0 <= d < |dims| ==> d in dims)
  }

  function PositionOf(dims: seq<nat>, d: nat): (i: nat)
    requires d in dims
    ensures i < |dims| && dims[i] == d
  {
    if dims[0] == d then 0 else 1 + PositionOf(dims[1..], d)
  }

  /** The index before permuting: its component `dims[i]` is component `i` of `idx`. */
  function Unpermuted(idx: seq<nat>, dims: seq<nat>): (r: seq<nat>)
    requires IsPermutation(dims) && |idx| == |dims|
    ensures |r| == |idx|
  {
    seq(|idx|, d requires 0 <= d < |idx| => idx[PositionOf(dims, d)])
  }

  lemma UnpermutedAt(idx: seq<nat>, dims: seq<nat>, i: nat)
    requires IsPermutation(dims) && |idx| == |dims| && i < |idx|
    ensures Unpermuted(idx, dims)[dims[i]] == idx[i]
  {
    var p := PositionOf(dims, dims[i]);
    assert dims[p] == dims[i];
  }

  function PermutedShape(shape: seq<nat>, dims: seq<nat>): (r: seq<nat>)
    requires IsPermutation(dims) && |shape| == |dims|
    ensures |r| == |shape|
  {
    seq(|shape|, i requires 0 <= i < |shape| => shape[dims[i]])
  }

  lemma UnpermutedInBounds(idx: seq<nat>, shape: seq<nat>, dims: seq<nat>)
    requires IsPermutation(dims) && |shape| == |dims| && InBounds(idx, PermutedShape(shape, dims))
    ensures InBounds(Unpermuted(idx, dims), shape)
  {
    forall d | 0 <= d < |shape|
      ensures Unpermuted(idx, dims)[d] < shape[d]
    {
      var i := PositionOf(dims, d);
      assert PermutedShape(shape, dims)[i] == shape[d];
    }
  }

  /** Where the element at position `k` of the permuted tensor comes from. */
  function SourceOf(shape: seq<nat>, dims: seq<nat>, k: nat): nat
    requires IsPermutation(dims) && |shape| == |dims| && Positive(PermutedShape(shape, dims))
  {
    Flat(shape, Unpermuted(Unflat(PermutedShape(shape, dims), k), dims))
  }

  lemma SourceBound(shape: seq<nat>, dims: seq<nat>, k: nat)
    requires IsPermutation(dims) && |shape| == |dims| && Positive(PermutedShape(shape, dims))
    requires k < Prod(PermutedShape(shape, dims))
    ensures SourceOf(shape, dims, k) < Prod(shape)
  {
    var s := PermutedShape(shape, dims);
    FlatOfUnflat(s, k);
    UnpermutedInBounds(Unflat(s, k), shape, dims);
    FlatBound(shape, Unpermuted(Unflat(s, k), dims));
  }

  function Permuted(t: Tensor, dims: seq<nat>): (r: Tensor)
    requires Valid(t) && IsPermutation(dims) && |t.shape| == |dims|
    ensures Valid(r) && r.shape == PermutedShape(t.shape, dims)
  {
    var s := PermutedShape(t.shape, dims);
    Tensor(s, seq(Prod(s), k requires 0 <= k < Prod(s) => SourceBound(t.shape, dims, k); t.data[SourceOf(t.shape, dims, k)]))
  }

  /** What permuting means, index by index. */
  lemma PermutedAt(t: Tensor, dims: seq<nat>, idx: seq<nat>)
    requires Valid(t) && IsPermutation(dims) && |t.shape| == |dims|
    requires InBounds(idx, PermutedShape(t.shape, dims))
    ensures InBounds(Unpermuted(idx, dims), t.shape)
    ensures At(Permuted(t, dims), idx) == At(t, Unpermuted(idx, dims))
  {
    var s := PermutedShape(t.shape, dims);
    UnpermutedInBounds(idx, t.shape, dims);
    FlatBound(s, idx);
    UnflatOfFlat(s, idx);
  }

  /** A dimension counted from the end, as Python counts. */
  function Wrapped(d: int, n: nat): int {
    if d < 0 then d + n else d
  }

  function WrappedDims(dims: seq<int>, n: nat): (r: seq<int>)
    ensures |r| == |dims|
  {
    seq(|dims|, i requires 0 <= i < |dims| => Wrapped(dims[i], n))
  }

  predicate GoodDims(dims: seq<int>, n: nat) {
    |dims| == n && Natural(WrappedDims(dims, n)) && IsPermutation(AsShape(WrappedDims(dims, n)))
  }

  /** `torch.permute`. */
  function Permute(t: Tensor, dims: seq<int>): (r: Option<Tensor>)
    requires Valid(t)
    ensures r.Some? ==> Valid(r.value)
  {
    if GoodDims(dims, |t.shape|) then Some(Permuted(t, AsShape(WrappedDims(dims, |t.shape|)))) else None
  }

  /** 0, 1, ..., n - 1 with positions `i` and `j` exchanged. */
  function Exchange(n: nat, i: nat, j: nat): (dims: seq<int>)
    requires i < n && j < n
    ensures |dims| == n
  {
    seq(n, k requires 0 <= k < n => if k == i then j else if k == j then i else k)
  }

  predicate IsDim(d: int, n: nat) {
    0 <= d + n && d < n
  }

  /** `torch.transpose` (and `swapaxes`). */
  function Transpose(t: Tensor, dim0: int, dim1: int): (r: Option<Tensor>)
    requires Valid(t)
    ensures r.Some? ==> Valid(r.value)
  {
    var n := |t.shape|;
    if IsDim(dim0, n) && IsDim(dim1, n) then Permute(t, Exchange(n, Wrapped(dim0, n), Wrapped(dim1, n))) else None
  }

  lemma ExchangeIsGood(n: nat, i: nat, j: nat)
    requires i < n && j < n
    ensures GoodDims(Exchange(n, i, j), n)
  {
    var dims := Exchange(n, i, j);
    var w := WrappedDims(dims, n);
    assert w == dims;
    var s := AsShape(w);
    forall d | 0 <= d < n
      ensures d in s
    {
      assert s[if d == i then j else if d == j then i else d] == d;
    }
  }

  // -------------------------------------------------------------------------------- cat

  function Flatten(ts: seq<Tensor>): seq<real> {
    if ts == [] then [] else ts[0].data + Flatten(ts[1..])
  }

  function Rows(ts: seq<Tensor>): nat
    requires forall i :: 0 <= i < |ts| ==> ts[i].shape != []
  {
    if ts == [] then 0 else ts[0].shape[0] + Rows(ts[1..])
  }

  /** `torch.cat` along the first dimension: in row-major order the data follow one another. */
  function Cat(ts: seq<Tensor>): (r: Option<Tensor>) {
    if ts == [] then None
    else if exists i :: 0 <= i < |ts| && (ts[i].shape == [] || ts[0].shape == [] || ts[i].shape[1..] != ts[0].shape[1..]) then None
    else Some(Tensor([Rows(ts)] + ts[0].shape[1..], Flatten(ts)))
  }
}
