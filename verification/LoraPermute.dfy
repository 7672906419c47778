/**
  Permuting and transposing LoRA pairs.
 */
module LoraPermute {
  import opened Arith
  import opened Options
  import opened Tensors
  import opened Lora

  // ------------------------------------------------- permutations that keep the last dimension

  predicate KeepsLast(dims: seq<nat>) {
    dims != [] && IsPermutation(dims) && Last(dims) == |dims| - 1
  }

  lemma InitPermutes(dims: seq<nat>)
    requires KeepsLast(dims)
    ensures IsPermutation(Init(dims))
  {
    var p := Init(dims);
    forall d | 0 <= d < |p|
      ensures d in p
    {
      var i := PositionOf(dims, d);
      assert p[i] == d;
    }
  }

  lemma SamePositions(idx: seq<nat>, dims: seq<nat>, r: nat)
    requires KeepsLast(dims) && |idx| == |dims| - 1
    ensures IsPermutation(Init(dims))
    ensures Unpermuted(idx + [r], dims) == Unpermuted(idx, Init(dims)) + [r]
  {
    InitPermutes(dims);
    var p, n := Init(dims), |idx|;
    var u, v := Unpermuted(idx + [r], dims), Unpermuted(idx, p) + [r];
    forall d | 0 <= d <= n
      ensures u[d] == v[d]
    {
      if d == n {
        UnpermutedAt(idx + [r], dims, n);
      } else {
        var i := PositionOf(p, d);
        UnpermutedAt(idx, p, i);
        UnpermutedAt(idx + [r], dims, i);
      }
    }
  }

  lemma SplitShape(shape: seq<nat>, dims: seq<nat>)
    requires KeepsLast(dims) && |shape| == |dims|
    ensures IsPermutation(Init(dims))
    ensures PermutedShape(shape, dims) == PermutedShape(Init(shape), Init(dims)) + [Last(shape)]
  {
    InitPermutes(dims);
  }

  /** Such a permutation moves whole rows: where row `q` comes from does not depend on how
      long the rows are. */
  lemma RowsMove(shape: seq<nat>, dims: seq<nat>, q: nat, r: nat)
    requires KeepsLast(dims) && |shape| == |dims| && Positive(PermutedShape(shape, dims)) && r < Last(shape)
    ensures IsPermutation(Init(dims)) && Positive(PermutedShape(Init(shape), Init(dims)))
    ensures SourceOf(shape, dims, q * Last(shape) + r) == SourceOf(Init(shape), Init(dims), q) * Last(shape) + r
  {
    SplitShape(shape, dims);
    var s := PermutedShape(Init(shape), Init(dims));
    assert forall i :: 0 <= i < |s| ==> s[i] == PermutedShape(shape, dims)[i];
    DivModOf(q, r, Last(shape));
    assert Init(s + [Last(shape)]) == s;
    var idx := Unflat(s, q);
    SamePositions(idx, dims, r);
    assert Init(Unpermuted(idx, Init(dims)) + [r]) == Unpermuted(idx, Init(dims));
  }

  // ---------------------------------------------------------------------------- permute

  /** Dimensions counted from the end, as the converter normalises them. */
  function FromEnd(dims: seq<int>, n: nat): (r: seq<int>)
    ensures |r| == |dims|
  {
    seq(|dims|, i requires 0 <= i < |dims| => if dims[i] >= 0 then dims[i] - n else dims[i])
  }

  function PermutePair(l: Pair, dims: seq<int>): Option<Pair>
    requires IsPair(l)
  {
    var n := |ShapeOf(l)|;
    var d := FromEnd(dims, n);
    if d == [] then None
    else if Last(d) == -1 then
      if !Unit(l) then None
      else
        match Permute(l.b, d)
        case None => None
        case Some(b) => Some(Pair(l.a, b))
    else if n == 2 && |d| >= 2 && Last(d) == -2 && d[|d| - 2] == -1 then
      var a, b := Permute(l.b, d), Permute(l.a, d);
      if a.Some? && b.Some? then Some(Pair(a.value, b.value)) else None
    else None
  }

  lemma FromEndWraps(dims: seq<int>, n: nat)
    requires GoodDims(dims, n)
    ensures WrappedDims(FromEnd(dims, n), n) == WrappedDims(dims, n) && GoodDims(FromEnd(dims, n), n)
    ensures n > 0 ==> (Last(FromEnd(dims, n)) == -1 <==> KeepsLast(AsShape(WrappedDims(dims, n))))
  {
    var w := WrappedDims(dims, n);
    assert AsShape(w) == w;
    forall i | 0 <= i < n
      ensures WrappedDims(FromEnd(dims, n), n)[i] == w[i]
    {
      assert 0 <= w[i] < n by { assert AsShape(w)[i] < n; }
    }
  }

  /** Where row `q` of the permuted tensor comes from. */
  function SourceRow(t: Tensor, dims: seq<nat>, q: nat): (from: nat)
    requires Valid(t) && KeepsLast(dims) && |dims| == |t.shape| && q < Prod(Init(Permuted(t, dims).shape))
    ensures from < Prod(Init(t.shape))
  {
    RowShapes(t, dims);
    SourceBound(Init(t.shape), Init(dims), q);
    SourceOf(Init(t.shape), Init(dims), q)
  }

  lemma RowShapes(t: Tensor, dims: seq<nat>)
    requires Valid(t) && KeepsLast(dims) && |dims| == |t.shape|
    ensures IsPermutation(Init(dims)) && Positive(PermutedShape(Init(t.shape), Init(dims)))
    ensures Permuted(t, dims).shape == PermutedShape(Init(t.shape), Init(dims)) + [Last(t.shape)]
    ensures Init(Permuted(t, dims).shape) == PermutedShape(Init(t.shape), Init(dims))
    ensures Last(Permuted(t, dims).shape) == Last(t.shape)
  {
    SplitShape(t.shape, dims);
    var s := PermutedShape(Init(t.shape), Init(dims));
    assert forall i :: 0 <= i < |s| ==> s[i] == Permuted(t, dims).shape[i];
  }

  lemma PermutedData(t: Tensor, dims: seq<nat>, k: nat)
    requires Valid(t) && IsPermutation(dims) && |t.shape| == |dims| && k < |Permuted(t, dims).data|
    ensures Positive(PermutedShape(t.shape, dims))
    ensures SourceOf(t.shape, dims, k) < |t.data| && Permuted(t, dims).data[k] == t.data[SourceOf(t.shape, dims, k)]
  {
    SourceBound(t.shape, dims, k);
  }

  lemma CellBounds(t: Tensor, dims: seq<nat>, q: nat, r: nat)
    requires Valid(t) && KeepsLast(dims) && |dims| == |t.shape| && q < Prod(Init(Permuted(t, dims).shape))
    requires r < Last(t.shape)
    ensures q * Last(t.shape) + r < |Permuted(t, dims).data| && SourceRow(t, dims, q) * Last(t.shape) + r < |t.data|
    ensures Positive(PermutedShape(t.shape, dims))
  {
    RowShapes(t, dims);
    RowBound(q, r, Prod(Init(Permuted(t, dims).shape)), Last(t.shape));
    RowBound(SourceRow(t, dims, q), r, Prod(Init(t.shape)), Last(t.shape));
  }

  lemma RowSource(t: Tensor, dims: seq<nat>, q: nat, r: nat)
    requires Valid(t) && KeepsLast(dims) && |dims| == |t.shape| && q < Prod(Init(Permuted(t, dims).shape))
    requires r < Last(t.shape) && Positive(PermutedShape(t.shape, dims))
    ensures SourceOf(t.shape, dims, q * Last(t.shape) + r) == SourceRow(t, dims, q) * Last(t.shape) + r
  {
    RowsMove(t.shape, dims, q, r);
  }

  lemma CellFrom(t: Tensor, dims: seq<nat>, k: nat, from: nat)
    requires Valid(t) && IsPermutation(dims) && |t.shape| == |dims| && k < |Permuted(t, dims).data| && from < |t.data|
    requires Positive(PermutedShape(t.shape, dims)) && SourceOf(t.shape, dims, k) == from
    ensures Permuted(t, dims).data[k] == t.data[from]
  {
    PermutedData(t, dims, k);
  }

  lemma PermutedCell(t: Tensor, dims: seq<nat>, q: nat, r: nat, cols: nat, from: nat, k: nat, at: nat)
    requires Valid(t) && KeepsLast(dims) && |dims| == |t.shape| && q < Prod(Init(Permuted(t, dims).shape))
    requires r < cols == Last(t.shape) && from == SourceRow(t, dims, q) && k == q * cols + r && at == from * cols + r
    ensures k < |Permuted(t, dims).data| && at < |t.data| && Permuted(t, dims).data[k] == t.data[at]
  {
    CellBounds(t, dims, q, r);
    RowSource(t, dims, q, r);
    CellFrom(t, dims, k, at);
  }

  /** Row `q` of the permuted tensor is the row it comes from. */
  lemma RowOfPermuted(t: Tensor, dims: seq<nat>, q: nat)
    requires Valid(t) && KeepsLast(dims) && |dims| == |t.shape| && q < Prod(Init(Permuted(t, dims).shape))
    requires |Permuted(t, dims).data| == Prod(Init(Permuted(t, dims).shape)) * Last(t.shape)
    ensures Row(Permuted(t, dims).data, q, Prod(Init(Permuted(t, dims).shape)), Last(t.shape))
         == Row(t.data, SourceRow(t, dims, q), Prod(Init(t.shape)), Last(t.shape))
  {
    var rows, cols, from := Prod(Init(Permuted(t, dims).shape)), Last(t.shape), SourceRow(t, dims, q);
    var u, v := Row(Permuted(t, dims).data, q, rows, cols), Row(t.data, from, Prod(Init(t.shape)), cols);
    forall r | 0 <= r < cols
      ensures u[r] == v[r]
    {
      var k, at := q * cols + r, from * cols + r;
      PermutedCell(t, dims, q, r, cols, from, k, at);
      RowAt(Permuted(t, dims).data, q, rows, cols, r, k);
      RowAt(t.data, from, Prod(Init(t.shape)), cols, r, at);
    }
  }

  lemma RowAt(m: seq<real>, i: nat, rows: nat, cols: nat, r: nat, k: nat)
    requires |m| == rows * cols && i < rows && r < cols && k == i * cols + r
    ensures k < |m| && Row(m, i, rows, cols)[r] == m[k]
  {
    RowBound(i, r, rows, cols);
  }

  lemma SameSource(l: Pair, dims: seq<nat>, q: nat)
    requires IsPair(l) && Unit(l) && KeepsLast(dims) && |dims| == |l.b.shape|
    requires q < Prod(Init(Permuted(l.b, dims).shape))
    ensures Init(ShapeOf(l)) == Init(l.b.shape) && q < Prod(Init(Permuted(Product(l), dims).shape))
    ensures SourceRow(Product(l), dims, q) == SourceRow(l.b, dims, q)
  {
    RowShapes(l.b, dims);
    RowShapes(Product(l), dims);
    assert Init(ShapeOf(l)) == Init(l.b.shape);
  }

  /** An entry of the product of the permuted pair: row `q` of the permuted B is a row of B. */
  lemma MovedProduct(l: Pair, m: Pair, dims: seq<nat>, q: nat, j: nat, from: nat, k: nat, at: nat)
    requires IsPair(l) && Unit(l) && KeepsLast(dims) && |dims| == |l.b.shape|
    requires IsPair(m) && Unit(m) && m == Pair(l.a, Permuted(l.b, dims))
    requires q < Prod(Init(m.b.shape)) && j < Columns(l)
    requires from == SourceRow(l.b, dims, q) && k == q * Columns(l) + j && at == from * Columns(l) + j
    ensures k < |Product(m).data| && at < |Product(l).data| && Product(m).data[k] == Product(l).data[at]
  {
    RowShapes(l.b, dims);
    EntryIs(m, Prod(Init(m.b.shape)), Rank(l), Columns(l), q, j, k);
    EntryIs(l, Prod(Init(l.b.shape)), Rank(l), Columns(l), from, j, at);
    RowOfPermuted(l.b, dims, q);
  }

  lemma MovedDense(l: Pair, t: Tensor, dims: seq<nat>, q: nat, j: nat, from: nat, k: nat, at: nat)
    requires IsPair(l) && Unit(l) && KeepsLast(dims) && |dims| == |l.b.shape| && t == Product(l)
    requires q < Prod(Init(Permuted(l.b, dims).shape)) && j < Columns(l)
    requires from == SourceRow(l.b, dims, q) && k == q * Columns(l) + j && at == from * Columns(l) + j
    ensures k < |Permuted(t, dims).data| && at < |t.data| && Permuted(t, dims).data[k] == t.data[at]
  {
    SameSource(l, dims, q);
    assert Last(t.shape) == Columns(l);
    PermutedCell(t, dims, q, j, Columns(l), from, k, at);
  }

  lemma MovedEntry(l: Pair, m: Pair, dims: seq<nat>, q: nat, j: nat, k: nat)
    requires IsPair(l) && Unit(l) && KeepsLast(dims) && |dims| == |l.b.shape|
    requires IsPair(m) && Unit(m) && m == Pair(l.a, Permuted(l.b, dims))
    requires q < Prod(Init(m.b.shape)) && j < Columns(l) && k == q * Columns(l) + j
    ensures k < |Permuted(Product(l), dims).data| && k < |Product(m).data|
    ensures Product(m).data[k] == Permuted(Product(l), dims).data[k]
  {
    var from := SourceRow(l.b, dims, q);
    var at := from * Columns(l) + j;
    MovedProduct(l, m, dims, q, j, from, k, at);
    MovedDense(l, Product(l), dims, q, j, from, k, at);
  }

  lemma SameTensor(s: Tensor, t: Tensor)
    requires s.shape == t.shape && |s.data| == |t.data| && forall k :: 0 <= k < |s.data| ==> s.data[k] == t.data[k]
    ensures s == t
  {
  }

  lemma MovedAt(l: Pair, m: Pair, dims: seq<nat>, k: nat)
    requires IsPair(l) && Unit(l) && KeepsLast(dims) && |dims| == |l.b.shape|
    requires IsPair(m) && Unit(m) && m == Pair(l.a, Permuted(l.b, dims)) && Columns(m) == Columns(l) > 0
    requires k < Prod(Init(m.b.shape)) * Columns(l)
    ensures k < |Permuted(Product(l), dims).data| && k < |Product(m).data|
    ensures Product(m).data[k] == Permuted(Product(l), dims).data[k]
  {
    var q, j := SplitPosition(k, Prod(Init(m.b.shape)), Columns(l));
    MovedEntry(l, m, dims, q, j, k);
  }

  /** Rows move alike in B and in the product, so the entries agree. */
  lemma RowsOfPair(l: Pair, dims: seq<nat>)
    requires IsPair(l) && Unit(l) && KeepsLast(dims) && |dims| == |l.b.shape|
    ensures var m := Pair(l.a, Permuted(l.b, dims));
            IsPair(m) && Unit(m) && Product(m) == Permuted(Product(l), dims)
  {
    var m := Pair(l.a, Permuted(l.b, dims));
    RowsOfPairShape(l, dims);
    forall k | 0 <= k < |Product(m).data|
      ensures k < |Permuted(Product(l), dims).data| && Product(m).data[k] == Permuted(Product(l), dims).data[k]
    {
      MovedAt(l, m, dims, k);
    }
    SameTensor(Product(m), Permuted(Product(l), dims));
  }

  lemma RowsOfPairShape(l: Pair, dims: seq<nat>)
    requires IsPair(l) && Unit(l) && KeepsLast(dims) && |dims| == |l.b.shape|
    ensures var m := Pair(l.a, Permuted(l.b, dims));
            && IsPair(m) && Unit(m) && ShapeOf(m) == Permuted(Product(l), dims).shape
            && Columns(m) == Columns(l) > 0 && Prod(ShapeOf(m)) == Prod(Init(m.b.shape)) * Columns(l)
  {
    RowShapes(l.b, dims);
    RowShapes(Product(l), dims);
    assert Init(ShapeOf(l)) == Init(l.b.shape);
    Sizes(Pair(l.a, Permuted(l.b, dims)));
  }

  // ---------------------------------------------------------------- transposing a matrix

  const SWAP: seq<nat> := [1, 0]

  lemma SwapIsPermutation()
    ensures IsPermutation(SWAP)
  {
    assert SWAP[0] == 1 && SWAP[1] == 0;
  }

  lemma MatrixFlat(r: nat, c: nat, i: nat, j: nat)
    ensures Flat([r, c], [i, j]) == i * c + j
    ensures Prod([r, c]) == r * c
  {
    assert Init([r, c]) == [r] && Init([i, j]) == [i] && Init([r]) == [] && Init([i]) == [];
    assert Flat([r], [i]) == Flat([], []) * r + i == i;
    assert Prod([r]) == Prod([]) * r == r;
  }

  lemma SwapSource(shape: seq<nat>, j: nat, i: nat)
    requires |shape| == 2 && Positive(shape) && i < shape[0] && j < shape[1]
    ensures IsPermutation(SWAP) && PermutedShape(shape, SWAP) == [shape[1], shape[0]]
    ensures SourceOf(shape, SWAP, j * shape[0] + i) == i * shape[1] + j
  {
    SwapIsPermutation();
    var s := PermutedShape(shape, SWAP);
    assert s == [shape[1], shape[0]] && shape == [shape[0], shape[1]];
    MatrixFlat(shape[1], shape[0], j, i);
    UnflatOfFlat(s, [j, i]);
    UnpermutedAt([j, i], SWAP, 0);
    UnpermutedAt([j, i], SWAP, 1);
    assert Unpermuted([j, i], SWAP) == [i, j];
    MatrixFlat(shape[0], shape[1], i, j);
  }

  /** A permuted tensor that is the transposed matrix. */
  predicate IsSwapped(t: Tensor, p: Tensor) {
    && |t.shape| == 2 && Valid(t) && Valid(p) && p.shape == [t.shape[1], t.shape[0]]
    && |t.data| == t.shape[0] * t.shape[1] && |p.data| == t.shape[1] * t.shape[0]
  }

  lemma SwappedShape(t: Tensor)
    requires Valid(t) && |t.shape| == 2
    ensures IsPermutation(SWAP) && IsSwapped(t, Permuted(t, SWAP))
  {
    assert t.shape == [t.shape[0], t.shape[1]];
    SwapSource(t.shape, 0, 0);
    MatrixFlat(t.shape[0], t.shape[1], 0, 0);
    MatrixFlat(t.shape[1], t.shape[0], 0, 0);
  }

  lemma SwappedCell(t: Tensor, rows: nat, cols: nat, i: nat, j: nat, k: nat, at: nat)
    requires Valid(t) && t.shape == [rows, cols] && IsPermutation(SWAP) && IsSwapped(t, Permuted(t, SWAP)) && i < rows && j < cols
    requires k == j * rows + i && at == i * cols + j
    ensures k < cols * rows && at < rows * cols && Permuted(t, SWAP).data[k] == t.data[at]
  {
    RowBound(j, i, cols, rows);
    RowBound(i, j, rows, cols);
    SwapSource(t.shape, j, i);
  }

  /** The rows of a transposed matrix are the columns of the matrix. */
  lemma SwappedRow(t: Tensor, j: nat)
    requires Valid(t) && |t.shape| == 2 && IsPermutation(SWAP) && IsSwapped(t, Permuted(t, SWAP)) && j < t.shape[1]
    ensures Row(Permuted(t, SWAP).data, j, t.shape[1], t.shape[0]) == Column(t.data, j, t.shape[0], t.shape[1])
  {
    var u := Row(Permuted(t, SWAP).data, j, t.shape[1], t.shape[0]);
    var v := Column(t.data, j, t.shape[0], t.shape[1]);
    forall i | 0 <= i < t.shape[0]
      ensures u[i] == v[i]
    {
      SwappedCell(t, t.shape[0], t.shape[1], i, j, j * t.shape[0] + i, i * t.shape[1] + j);
    }
  }

  lemma SwappedColumn(t: Tensor, i: nat)
    requires Valid(t) && |t.shape| == 2 && IsPermutation(SWAP) && IsSwapped(t, Permuted(t, SWAP)) && i < t.shape[0]
    ensures Column(Permuted(t, SWAP).data, i, t.shape[1], t.shape[0]) == Row(t.data, i, t.shape[0], t.shape[1])
  {
    var u := Column(Permuted(t, SWAP).data, i, t.shape[1], t.shape[0]);
    var v := Row(t.data, i, t.shape[0], t.shape[1]);
    forall j | 0 <= j < t.shape[1]
      ensures u[j] == v[j]
    {
      SwappedCell(t, t.shape[0], t.shape[1], i, j, j * t.shape[0] + i, i * t.shape[1] + j);
    }
  }

  lemma MatrixPair(l: Pair)
    requires IsPair(l) && |l.a.shape| == 2
    ensures Unit(l) && ShapeOf(l) == [l.b.shape[0], Columns(l)]
    ensures Prod(Init(l.b.shape)) == l.b.shape[0] && Prod(ShapeOf(l)) == l.b.shape[0] * Columns(l)
    ensures l.a.shape == [Rank(l), Columns(l)] && l.b.shape == [l.b.shape[0], Rank(l)]
  {
    assert Init(l.b.shape) == [l.b.shape[0]];
    assert Prod([l.b.shape[0]]) == Prod([]) * l.b.shape[0];
    MatrixFlat(l.b.shape[0], Columns(l), 0, 0);
  }

  /** B and A exchanged and transposed. */
  function SwappedPair(l: Pair): Pair
    requires IsPair(l) && |l.a.shape| == 2 && IsPermutation(SWAP)
  {
    Pair(Permuted(l.b, SWAP), Permuted(l.a, SWAP))
  }

  lemma SwappedPairShape(l: Pair)
    requires IsPair(l) && |l.a.shape| == 2 && IsPermutation(SWAP)
    ensures var m := SwappedPair(l);
            && IsPair(m) && m.b.shape == [Columns(l), Rank(l)] && m.a.shape == [Rank(l), l.b.shape[0]]
            && Unit(l) && Permuted(Product(l), SWAP).shape == ShapeOf(m)
  {
    MatrixPair(l);
    SwappedShape(l.a);
    SwappedShape(l.b);
    SwappedShape(Product(l));
    MatrixPair(SwappedPair(l));
  }

  lemma SwappedProduct(l: Pair, rows: nat, cols: nat, i: nat, j: nat, k: nat, at: nat)
    requires IsPair(l) && |l.a.shape| == 2 && IsPermutation(SWAP) && rows == l.b.shape[0] && cols == Columns(l)
    requires IsPair(SwappedPair(l)) && Unit(SwappedPair(l)) && Unit(l)
    requires i < rows && j < cols && k == j * rows + i && at == i * cols + j
    ensures k < |Product(SwappedPair(l)).data| && at < |Product(l).data| && Product(SwappedPair(l)).data[k] == Product(l).data[at]
  {
    var m, rank := SwappedPair(l), Rank(l);
    SwappedPairShape(l);
    MatrixPair(l);
    MatrixPair(m);
    EntryIs(m, cols, rank, rows, j, i, k);
    EntryIs(l, rows, rank, cols, i, j, at);
    SwappedShape(l.a);
    SwappedShape(l.b);
    SwappedRow(l.a, j);
    SwappedColumn(l.b, i);
    InnerCommutes(Row(l.b.data, i, rows, rank), Column(l.a.data, j, rank, cols));
  }

  lemma SwappedDense(l: Pair, t: Tensor, rows: nat, cols: nat, i: nat, j: nat, k: nat, at: nat)
    requires IsPair(l) && |l.a.shape| == 2 && IsPermutation(SWAP) && rows == l.b.shape[0] && cols == Columns(l)
    requires Unit(l) && t == Product(l) && i < rows && j < cols && k == j * rows + i && at == i * cols + j
    ensures k < |Permuted(t, SWAP).data| && at < |t.data| && Permuted(t, SWAP).data[k] == t.data[at]
  {
    MatrixPair(l);
    SwappedShape(t);
    SwappedCell(t, rows, cols, i, j, k, at);
  }

  lemma SwappedEntry(l: Pair, i: nat, j: nat, k: nat)
    requires IsPair(l) && |l.a.shape| == 2 && IsPermutation(SWAP) && i < l.b.shape[0] && j < Columns(l)
    requires IsPair(SwappedPair(l)) && Unit(SwappedPair(l)) && Unit(l) && k == j * l.b.shape[0] + i
    ensures k < |Product(SwappedPair(l)).data| && k < |Permuted(Product(l), SWAP).data|
    ensures Product(SwappedPair(l)).data[k] == Permuted(Product(l), SWAP).data[k]
  {
    var rows, cols := l.b.shape[0], Columns(l);
    SwappedProduct(l, rows, cols, i, j, k, i * cols + j);
    SwappedDense(l, Product(l), rows, cols, i, j, k, i * cols + j);
  }

  lemma SwappedPairSize(l: Pair)
    requires IsPair(l) && |l.a.shape| == 2 && IsPermutation(SWAP) && IsPair(SwappedPair(l))
    ensures Prod(ShapeOf(SwappedPair(l))) == Columns(l) * l.b.shape[0] && l.b.shape[0] > 0
  {
    SwappedPairShape(l);
    MatrixPair(SwappedPair(l));
  }

  lemma SwappedAt(l: Pair, k: nat)
    requires IsPair(l) && |l.a.shape| == 2 && IsPermutation(SWAP)
    requires IsPair(SwappedPair(l)) && Unit(SwappedPair(l)) && Unit(l) && k < Columns(l) * l.b.shape[0]
    ensures k < |Product(SwappedPair(l)).data| && k < |Permuted(Product(l), SWAP).data|
    ensures Product(SwappedPair(l)).data[k] == Permuted(Product(l), SWAP).data[k]
  {
    var rows := l.b.shape[0];
    SwappedPairSize(l);
    var q, j := SplitPosition(k, Columns(l), rows);
    SwappedEntry(l, j, q, k);
  }

  lemma SwapMeans(l: Pair)
    requires IsPair(l) && |l.a.shape| == 2 && IsPermutation(SWAP)
    ensures Unit(l) && IsPair(SwappedPair(l)) && Unit(SwappedPair(l))
    ensures Product(SwappedPair(l)) == Permuted(Product(l), SWAP)
  {
    SwappedPairShape(l);
    SwappedPairSize(l);
    forall k | 0 <= k < |Product(SwappedPair(l)).data|
      ensures k < |Permuted(Product(l), SWAP).data| && Product(SwappedPair(l)).data[k] == Permuted(Product(l), SWAP).data[k]
    {
      SwappedAt(l, k);
    }
    SameTensor(Product(SwappedPair(l)), Permuted(Product(l), SWAP));
  }

  /** The dimensions as the tensor library reads them. */
  function Read(dims: seq<int>, n: nat): (w: seq<nat>)
    requires GoodDims(dims, n)
    ensures IsPermutation(w) && |w| == n && forall i :: 0 <= i < n ==> w[i] == Wrapped(dims[i], n)
  {
    AsShape(WrappedDims(dims, n))
  }

  lemma PermuteKeepingLast(l: Pair, dims: seq<int>)
    requires IsPair(l) && Unit(l) && GoodDims(dims, |ShapeOf(l)|) && KeepsLast(Read(dims, |ShapeOf(l)|))
    ensures var m := Pair(l.a, Permuted(l.b, Read(dims, |ShapeOf(l)|)));
            && PermutePair(l, dims) == Some(m) && IsPair(m) && Unit(m)
            && Product(m) == Permuted(Product(l), Read(dims, |ShapeOf(l)|))
  {
    FromEndWraps(dims, |ShapeOf(l)|);
    RowsOfPair(l, Read(dims, |ShapeOf(l)|));
  }

  lemma PermuteMatrix(l: Pair, dims: seq<int>)
    requires IsPair(l) && |ShapeOf(l)| == 2 && GoodDims(dims, 2) && !KeepsLast(Read(dims, 2))
    ensures IsPermutation(SWAP) && Read(dims, 2) == SWAP && Unit(l)
    ensures var m := SwappedPair(l);
            PermutePair(l, dims) == Some(m) && IsPair(m) && Unit(m) && Product(m) == Permuted(Product(l), SWAP)
  {
    OtherIsSwap(Read(dims, 2));
    MatrixDimsFromEnd(dims);
    FromEndWraps(dims, 2);
    SwapMeans(l);
  }

  /** Permuting the pair permutes the product.  Among the permutations the tensor library
      accepts, the pair supports exactly those that keep the last dimension last, and every
      one of a matrix. */
  lemma PermuteMeans(l: Pair, dims: seq<int>)
    requires IsPair(l) && Unit(l) && Permute(Product(l), dims).Some?
    ensures var n := |ShapeOf(l)|;
            PermutePair(l, dims).Some? <==> (Wrapped(Last(dims), n) == n - 1 || n == 2)
    ensures PermutePair(l, dims).Some? ==>
              var m := PermutePair(l, dims).value;
              IsPair(m) && Unit(m) && Product(m) == Permute(Product(l), dims).value
  {
    var n := |ShapeOf(l)|;
    PermuteIs(Product(l), dims);
    if KeepsLast(Read(dims, n)) {
      PermuteKeepingLast(l, dims);
    } else if n == 2 {
      PermuteMatrix(l, dims);
    } else {
      PermuteRefused(l, dims);
    }
  }

  lemma PermuteIs(t: Tensor, dims: seq<int>)
    requires Valid(t) && Permute(t, dims).Some? && t.shape != []
    ensures GoodDims(dims, |t.shape|) && Permute(t, dims).value == Permuted(t, Read(dims, |t.shape|))
    ensures KeepsLast(Read(dims, |t.shape|)) <==> Wrapped(Last(dims), |t.shape|) == |t.shape| - 1
  {
  }

  lemma PermuteRefused(l: Pair, dims: seq<int>)
    requires IsPair(l) && |ShapeOf(l)| != 2 && GoodDims(dims, |ShapeOf(l)|) && !KeepsLast(Read(dims, |ShapeOf(l)|))
    ensures PermutePair(l, dims).None?
  {
    FromEndWraps(dims, |ShapeOf(l)|);
  }

  lemma OtherIsSwap(w: seq<nat>)
    requires |w| == 2 && IsPermutation(w) && !KeepsLast(w)
    ensures w == SWAP
  {
    assert w[0] != w[1];
  }

  lemma MatrixDimsFromEnd(dims: seq<int>)
    requires GoodDims(dims, 2) && AsShape(WrappedDims(dims, 2)) == SWAP
    ensures FromEnd(dims, 2) == [-1, -2]
  {
    assert WrappedDims(dims, 2)[0] == 1 && WrappedDims(dims, 2)[1] == 0;
  }

  // -------------------------------------------------------------------------- transpose

  function TransposePair(l: Pair, dim0: int, dim1: int): Option<Pair>
    requires IsPair(l)
  {
    var n := |ShapeOf(l)|;
    if IsDim(dim0, n) && IsDim(dim1, n) then PermutePair(l, Exchange(n, Wrapped(dim0, n), Wrapped(dim1, n))) else None
  }

  lemma ExchangeLast(n: nat, i: nat, j: nat)
    requires i < n && j < n
    ensures Wrapped(Last(Exchange(n, i, j)), n) == n - 1 <==> i == j || (i != n - 1 && j != n - 1)
  {
  }

  lemma ExchangeMeans(l: Pair, n: nat, i: nat, j: nat, pair: Option<Pair>, dense: Option<Tensor>)
    requires IsPair(l) && Unit(l) && n == |ShapeOf(l)| && i < n && j < n
    requires pair == PermutePair(l, Exchange(n, i, j)) && dense == Permute(Product(l), Exchange(n, i, j))
    ensures dense.Some? && (pair.Some? <==> n == 2 || i == j || (i != n - 1 && j != n - 1))
    ensures pair.Some? ==> IsPair(pair.value) && Unit(pair.value) && Product(pair.value) == dense.value
  {
    ExchangeIsGood(n, i, j);
    ExchangeLast(n, i, j);
    PermuteMeans(l, Exchange(n, i, j));
  }

  /** `transpose` and `swapaxes`: supported unless they move the last of three or more dimensions. */
  lemma TransposeMeans(l: Pair, dim0: int, dim1: int, pair: Option<Pair>, dense: Option<Tensor>)
    requires IsPair(l) && Unit(l) && pair == TransposePair(l, dim0, dim1) && dense == Transpose(Product(l), dim0, dim1)
    ensures var n := |ShapeOf(l)|;
            pair.Some? <==>
              && IsDim(dim0, n) && IsDim(dim1, n)
              && (n == 2 || Wrapped(dim0, n) == Wrapped(dim1, n) || (Wrapped(dim0, n) != n - 1 && Wrapped(dim1, n) != n - 1))
    ensures pair.Some? ==> dense.Some? && IsPair(pair.value) && Unit(pair.value) && Product(pair.value) == dense.value
  {
    var n := |ShapeOf(l)|;
    if IsDim(dim0, n) && IsDim(dim1, n) {
      ExchangeMeans(l, n, Wrapped(dim0, n), Wrapped(dim1, n), pair, dense);
    }
  }
}
