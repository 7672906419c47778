/**
  The head permutation of the Llama converter (`reshape`, `swapaxes`, `reshape`), on dense
  weights and on LoRA pairs.
 */
module LlamaHeads {
  import opened Arith
  import opened Options
  import opened Tensors
  import opened Lora
  import opened LoraPermute

  function Heads(nHead: nat, nHeadKv: Option<nat>): nat {
    if nHeadKv.Some? && nHead != nHeadKv.value then nHeadKv.value else nHead
  }

  /** (heads, 2, half a head, the other dimensions). */
  function HeadDims(shape: seq<nat>, heads: nat): (dims: seq<nat>)
    requires shape != [] && heads > 0
    ensures |dims| == |shape| + 2
  {
    [heads, 2, shape[0] / heads / 2] + shape[1..]
  }

  function PermuteHeads(w: Tensor, nHead: nat, nHeadKv: Option<nat>): (r: Option<Tensor>)
    requires Valid(w) && w.shape != []
  {
    var heads := Heads(nHead, nHeadKv);
    if heads == 0 then None else MergeHeads(Reshape(w, HeadDims(w.shape, heads)), w.shape)
  }

  /** Exchanges the two halves with the rows of a head, and goes back to `shape`. */
  function MergeHeads(split: Option<Tensor>, shape: seq<nat>): (r: Option<Tensor>)
    requires split.Some? ==> Valid(split.value)
  {
    if split.None? then None
    else
      var swapped := Transpose(split.value, 1, 2);
      if swapped.None? then None else Reshape(swapped.value, shape)
  }

  function PermuteHeadsPair(l: Pair, nHead: nat, nHeadKv: Option<nat>): (r: Option<Pair>)
    requires IsPair(l)
  {
    var heads := Heads(nHead, nHeadKv);
    if heads == 0 then None else MergeHeadsPair(ReshapePair(l, HeadDims(ShapeOf(l), heads)), ShapeOf(l))
  }

  function MergeHeadsPair(split: Option<Pair>, shape: seq<nat>): (r: Option<Pair>)
  {
    if split.None? || !IsPair(split.value) then None
    else
      var swapped := TransposePair(split.value, 1, 2);
      if swapped.Some? && IsPair(swapped.value) then ReshapePair(swapped.value, shape) else None
  }

  // --------------------------------------------------------------- pairs against the product

  lemma ReshapeShape(t: Tensor, shape: seq<nat>)
    requires Valid(t)
    ensures Reshape(t, shape).Some? <==> Prod(shape) == |t.data|
    ensures Reshape(t, shape).Some? ==> Reshape(t, shape).value == Tensor(shape, t.data)
  {
    assert AsShape(shape) == shape;
    if Prod(shape) == |t.data| {
      ProdPositive(t.shape);
      PositiveFactors(shape);
    }
  }

  lemma ReshapePairShape(l: Pair, shape: seq<nat>)
    requires IsPair(l) && Unit(l) && |shape| >= 2 && Last(shape) == Columns(l)
    ensures StandsFor(ReshapePair(l, shape), Reshape(Product(l), shape))
    ensures ReshapePair(l, shape).Some? ==> ShapeOf(ReshapePair(l, shape).value) == shape
  {
    ReshapeShape(Product(l), shape);
    ReshapeAgrees(l, shape);
  }

  /** The pair stands for the dense tensor, or both are refused. */
  ghost predicate StandsFor(l: Option<Pair>, t: Option<Tensor>) {
    (l.Some? <==> t.Some?) && (l.Some? ==> IsPair(l.value) && Unit(l.value) && Product(l.value) == t.value)
  }

  /** Permuting the heads of a pair permutes the heads of the product, and succeeds exactly
      when that does. */
  lemma PermuteHeadsMeans(l: Pair, nHead: nat, nHeadKv: Option<nat>)
    requires IsPair(l) && Unit(l)
    ensures StandsFor(PermuteHeadsPair(l, nHead, nHeadKv), PermuteHeads(Product(l), nHead, nHeadKv))
  {
    var heads := Heads(nHead, nHeadKv);
    if heads > 0 {
      var dims := HeadDims(ShapeOf(l), heads);
      ReshapePairShape(l, dims);
      MergeHeadsMeans(ReshapePair(l, dims), Reshape(Product(l), dims), ShapeOf(l));
    }
  }

  lemma MergeHeadsMeans(split: Option<Pair>, dense: Option<Tensor>, shape: seq<nat>)
    requires StandsFor(split, dense) && |shape| >= 2
    requires split.Some? ==> |ShapeOf(split.value)| > 3 && Last(shape) == Columns(split.value)
    ensures dense.Some? ==> Valid(dense.value)
    ensures StandsFor(MergeHeadsPair(split, shape), MergeHeads(dense, shape))
  {
    if split.Some? {
      TransposeMeans(split.value, 1, 2, TransposePair(split.value, 1, 2), Transpose(Product(split.value), 1, 2));
      var swapped := TransposePair(split.value, 1, 2).value;
      TransposeKeepsColumns(split.value, swapped);
      ReshapePairShape(swapped, shape);
    }
  }

  lemma TransposeKeepsColumns(l: Pair, m: Pair)
    requires IsPair(l) && Unit(l) && |ShapeOf(l)| > 3 && TransposePair(l, 1, 2) == Some(m)
    ensures IsPair(m) && Columns(m) == Columns(l)
  {
    TransposeMeans(l, 1, 2, TransposePair(l, 1, 2), Transpose(Product(l), 1, 2));
    var n := |ShapeOf(l)|;
    ExchangeIsGood(n, 1, 2);
    FromEndWraps(Exchange(n, 1, 2), n);
    assert WrappedDims(Exchange(n, 1, 2), n) == Exchange(n, 1, 2);
    assert m.a == l.a;
  }

  // ------------------------------------------------------------------ which rows go where

  /** The row of the source that becomes row `q`, for heads of `2 * d` rows. */
  function HeadSource(d: nat, q: nat): nat
    requires d > 0
  {
    ((q / 2 / d) * 2 + q % 2) * d + q / 2 % d
  }

  /** The row that row `p` of the source becomes. */
  function HeadTarget(d: nat, p: nat): nat
    requires d > 0
  {
    ((p / d / 2) * d + p % d) * 2 + p / d % 2
  }

  /** No row is lost or doubled: the two maps undo each other, within every whole number of
      heads. */
  lemma HeadRowsBijective(heads: nat, d: nat, q: nat)
    requires d > 0 && q < heads * 2 * d
    ensures HeadSource(d, q) < heads * 2 * d && HeadTarget(d, HeadSource(d, q)) == q
    ensures HeadTarget(d, q) < heads * 2 * d && HeadSource(d, HeadTarget(d, q)) == q
  {
    SourceParts(heads, d, q);
    TargetParts(heads, d, q);
  }

  lemma HalfBound(q: nat, heads: nat, d: nat)
    requires q < heads * 2 * d
    ensures q / 2 < heads * d
  {
    assert heads * 2 * d == 2 * (heads * d);
  }

  lemma SourceParts(heads: nat, d: nat, q: nat)
    requires d > 0 && q < heads * 2 * d
    ensures HeadSource(d, q) < heads * 2 * d && HeadTarget(d, HeadSource(d, q)) == q
  {
    HalfBound(q, heads, d);
    var x, y := SplitPosition(q / 2, heads, d);
    RowBound(x, q % 2, heads, 2);
    RowBound(x * 2 + q % 2, y, heads * 2, d);
    DivModOf(x * 2 + q % 2, y, d);
  }

  lemma TargetParts(heads: nat, d: nat, p: nat)
    requires d > 0 && p < heads * 2 * d
    ensures HeadTarget(d, p) < heads * 2 * d && HeadSource(d, HeadTarget(d, p)) == p
  {
    var row, y := SplitPosition(p, heads * 2, d);
    var x, z := row / 2, row % 2;
    TargetBound(heads, d, x, y, z);
    TargetDigits(d, x, y, z);
  }

  lemma TargetBound(heads: nat, d: nat, x: nat, y: nat, z: nat)
    requires x < heads && y < d && z < 2
    ensures (x * d + y) * 2 + z < heads * 2 * d
  {
    RowBound(x, y, heads, d);
    assert heads * d * 2 == heads * 2 * d;
  }

  /** The digits of a target row. */
  lemma TargetDigits(d: nat, x: nat, y: nat, z: nat)
    requires y < d && z < 2
    ensures var t := (x * d + y) * 2 + z; t % 2 == z && t / 2 % d == y && t / 2 / d == x
  {
    DivModOf(x * d + y, z, 2);
    DivModOf(x, y, d);
  }

  lemma CubeFlat(a: nat, b: nat, c: nat, i: nat, j: nat, k: nat)
    ensures Flat([a, b, c], [i, j, k]) == (i * b + j) * c + k
    ensures Prod([a, b, c]) == a * b * c
  {
    assert Init([a, b, c]) == [a, b] && Init([i, j, k]) == [i, j];
    MatrixFlat(a, b, i, j);
  }

  /** 0, 2, 1, 3, ...: what exchanging dimensions 1 and 2 of `n` dimensions reads as. */
  function Middle(n: nat): (dims: seq<nat>)
    requires n >= 3
    ensures |dims| == n && IsPermutation(dims)
  {
    ExchangeIsGood(n, 1, 2);
    Read(Exchange(n, 1, 2), n)
  }

  lemma MiddleGrows(n: nat)
    requires n >= 3
    ensures KeepsLast(Middle(n + 1)) && Init(Middle(n + 1)) == Middle(n)
  {
  }

  lemma MiddlePositive(shape: seq<nat>)
    requires |shape| >= 3 && Positive(shape)
    ensures Positive(PermutedShape(shape, Middle(|shape|)))
  {
  }

  /** Where position `k` comes from when dimensions 1 and 2 are exchanged. */
  function MiddleSource(shape: seq<nat>, k: nat): nat
    requires |shape| >= 3 && Positive(shape)
  {
    MiddlePositive(shape);
    SourceOf(shape, Middle(|shape|), k)
  }

  lemma CubeUnpermuted(x: nat, y: nat, z: nat)
    ensures Unpermuted([x, y, z], Middle(3)) == [x, z, y]
  {
    var dims := Middle(3);
    assert dims[0] == 0 && dims[1] == 2 && dims[2] == 1;
    UnpermutedAt([x, y, z], dims, 0);
    UnpermutedAt([x, y, z], dims, 1);
    UnpermutedAt([x, y, z], dims, 2);
  }

  lemma CubeShape(h: nat, d: nat)
    ensures PermutedShape([h, 2, d], Middle(3)) == [h, d, 2]
  {
    var dims := Middle(3);
    assert dims[0] == 0 && dims[1] == 2 && dims[2] == 1;
  }

  lemma CubeSource(h: nat, d: nat, x: nat, y: nat, z: nat)
    requires x < h && y < d && z < 2
    ensures MiddleSource([h, 2, d], (x * d + y) * 2 + z) == (x * 2 + z) * d + y
  {
    CubeShape(h, d);
    CubeFlat(h, d, 2, x, y, z);
    UnflatOfFlat([h, d, 2], [x, y, z]);
    CubeUnpermuted(x, y, z);
    CubeFlat(h, 2, d, x, z, y);
  }

  lemma Regroup(q: nat, p: nat, m: nat, n: nat, a: nat, r: nat, j: nat, inner: nat)
    requires n == p * m && j == a * m + r && inner == q * p + a
    ensures q * n + j == inner * m + r
  {
    assert inner * m == q * (p * m) + a * m;
  }

  /** The dimensions after the first three only make the rows longer. */
  lemma {:induction false} TailSource(s: seq<nat>, tail: seq<nat>, q: nat, j: nat, k: nat, from: nat)
    requires |s| == 3 && Positive(s) && Positive(s + tail) && j < Prod(tail)
    requires from == MiddleSource(s, q) && k == q * Prod(tail) + j
    ensures MiddleSource(s + tail, k) == from * Prod(tail) + j
    decreases |tail|
  {
    if tail == [] {
      assert s + tail == s;
    } else {
      TailShape(s, tail);
      var p, m := Prod(Init(tail)), Last(tail);
      var a, r := SplitPosition(j, p, m);
      var inner, innerFrom := q * p + a, from * p + a;
      TailSource(s, Init(tail), q, a, inner, from);
      Regroup(q, p, m, Prod(tail), a, r, j, inner);
      Regroup(from, p, m, Prod(tail), a, r, j, innerFrom);
      TailStep(s, tail, inner, r, k, innerFrom);
    }
  }

  lemma TailShape(s: seq<nat>, tail: seq<nat>)
    requires tail != [] && Positive(s + tail)
    ensures Init(s + tail) == s + Init(tail) && Last(s + tail) == Last(tail) > 0 && Positive(s + Init(tail))
  {
    assert (s + tail)[|s + tail| - 1] == Last(tail);
    assert forall i :: 0 <= i < |s + Init(tail)| ==> (s + Init(tail))[i] == (s + tail)[i];
  }

  lemma TailStep(s: seq<nat>, tail: seq<nat>, q: nat, r: nat, k: nat, from: nat)
    requires |s| == 3 && tail != [] && Positive(s + tail) && Positive(s + Init(tail)) && r < Last(tail)
    requires k == q * Last(tail) + r && from == MiddleSource(s + Init(tail), q)
    ensures MiddleSource(s + tail, k) == from * Last(tail) + r
  {
    TailShape(s, tail);
    MiddleGrows(|s + tail| - 1);
    MiddlePositive(s + tail);
    RowsMove(s + tail, Middle(|s + tail|), q, r);
  }

  lemma {:induction false} ProdCons(a: nat, s: seq<nat>)
    ensures Prod([a] + s) == a * Prod(s)
  {
    if s == [] {
      assert Init([a]) == [];
      assert [a] + s == [a];
      assert Prod([a]) == Prod([]) * a;
    } else {
      ProdCons(a, Init(s));
      assert Init([a] + s) == [a] + Init(s);
    }
  }

  lemma SizeOfSplit(shape: seq<nat>, heads: nat)
    requires shape != [] && heads > 0
    ensures Prod(shape) == shape[0] * Prod(shape[1..])
    ensures Prod(HeadDims(shape, heads)) == heads * 2 * (shape[0] / heads / 2) * Prod(shape[1..])
  {
    var d, tail := shape[0] / heads / 2, shape[1..];
    assert shape == [shape[0]] + tail;
    ProdCons(shape[0], tail);
    assert HeadDims(shape, heads) == [heads] + ([2] + ([d] + tail));
    ProdCons(d, tail);
    ProdCons(2, [d] + tail);
    ProdCons(heads, [2] + ([d] + tail));
    Associate(heads, 2, d, Prod(tail));
  }

  lemma Associate(a: nat, b: nat, c: nat, m: nat)
    ensures a * (b * (c * m)) == a * b * c * m
  {
    assert a * (b * (c * m)) == (a * b) * (c * m);
  }

  /** Entry `j` of row `q` of the output is entry `j` of row `from` of the input. */
  predicate EntryMoved(input: seq<real>, output: seq<real>, cols: nat, q: nat, from: nat, j: nat) {
    q * cols + j < |output| && from * cols + j < |input| && output[q * cols + j] == input[from * cols + j]
  }

  /** What the permutation does to the weights, for `n_head_kv` heads when that is given: the
      shape stays, and row `q` is row `HeadSource(d, q)` of the input.  With `HeadRowsBijective` it is a bijection on rows. */
  lemma PermuteHeadsMovesRows(w: Tensor, nHead: nat, nHeadKv: Option<nat>, out: Tensor, q: nat, j: nat)
    requires Valid(w) && w.shape != [] && PermuteHeads(w, nHead, nHeadKv) == Some(out)
    requires q < w.shape[0] && j < Prod(w.shape[1..])
    ensures var heads := if nHeadKv.Some? then nHeadKv.value else nHead;
            && heads > 0 && var d := w.shape[0] / heads / 2;
            && d > 0 && heads * 2 * d == w.shape[0] && HeadSource(d, q) < w.shape[0] && out.shape == w.shape
            && EntryMoved(w.data, out.data, Prod(w.shape[1..]), q, HeadSource(d, q), j)
  {
    var heads := Heads(nHead, nHeadKv);
    var d := w.shape[0] / heads / 2;
    HeadsDivide(w, heads);
    HeadRowsBijective(heads, d, q);
    PermutedHeads(w, heads, nHead, nHeadKv, out);
    HeadMoved(w.data, w.shape[0], heads, d, w.shape[1..], q, j, HeadSource(d, q));
  }

  /** It works exactly when the rows are a whole number of pairs of halves for those heads. */
  lemma PermuteHeadsWorks(w: Tensor, nHead: nat, nHeadKv: Option<nat>)
    requires Valid(w) && w.shape != []
    ensures var heads := if nHeadKv.Some? then nHeadKv.value else nHead;
            PermuteHeads(w, nHead, nHeadKv).Some? <==> heads > 0 && heads * 2 * (w.shape[0] / heads / 2) == w.shape[0]
  {
    var heads := Heads(nHead, nHeadKv);
    if heads > 0 {
      var split := Tensor(HeadDims(w.shape, heads), w.data);
      ReshapeShape(w, split.shape);
      SizeOfSplit(w.shape, heads);
      if Reshape(w, split.shape).Some? {
        HeadsDivide(w, heads);
        TransposeIs(split);
        SameSize(split, Middle(|split.shape|));
        ReshapeShape(Permuted(split, Middle(|split.shape|)), w.shape);
      }
    }
  }

  /** Row by row: within a head of `2 * d` rows, the two rows `2 * i` and `2 * i + 1` come from
      place `i` of the first and of the second half. */
  lemma HeadRows(d: nat, h: nat, i: nat, z: nat)
    requires i < d && z < 2
    ensures HeadSource(d, (h * d + i) * 2 + z) == (h * 2 + z) * d + i
  {
    TargetDigits(d, h, i, z);
  }

  lemma HeadMoved(data: seq<real>, rows: nat, heads: nat, d: nat, tail: seq<nat>, q: nat, j: nat, from: nat)
    requires d > 0 && rows == heads * 2 * d && |data| == rows * Prod(tail) && Valid(Tensor([heads, 2, d] + tail, data))
    requires q < rows && j < Prod(tail) && from == HeadSource(d, q) < rows
    ensures EntryMoved(data, Permuted(Tensor([heads, 2, d] + tail, data), Middle(|[heads, 2, d] + tail|)).data, Prod(tail), q, from, j)
  {
    RowBound(q, j, rows, Prod(tail));
    RowBound(from, j, rows, Prod(tail));
    SwapHeads(Tensor([heads, 2, d] + tail, data), heads, d, tail, q, j, q * Prod(tail) + j, from * Prod(tail) + j);
  }

  /** The three tensor operations in one: the data is that of the exchanged dimensions. */
  lemma PermutedHeads(w: Tensor, heads: nat, nHead: nat, nHeadKv: Option<nat>, out: Tensor)
    requires Valid(w) && w.shape != [] && PermuteHeads(w, nHead, nHeadKv) == Some(out) && heads == Heads(nHead, nHeadKv) > 0
    ensures var split := Tensor(HeadDims(w.shape, heads), w.data);
            && Valid(split) && |split.shape| >= 3 && out.shape == w.shape
            && out.data == Permuted(split, Middle(|split.shape|)).data
  {
    var split := Tensor(HeadDims(w.shape, heads), w.data);
    HeadsDivide(w, heads);
    ReshapeShape(w, split.shape);
    TransposeIs(split);
    ReshapeShape(Permuted(split, Middle(|split.shape|)), w.shape);
  }

  lemma HeadsDivide(w: Tensor, heads: nat)
    requires Valid(w) && w.shape != [] && heads > 0 && Reshape(w, HeadDims(w.shape, heads)).Some?
    ensures var d := w.shape[0] / heads / 2; d > 0 && heads * 2 * d == w.shape[0]
    ensures |w.data| == w.shape[0] * Prod(w.shape[1..]) && Positive(HeadDims(w.shape, heads))
    ensures Prod(HeadDims(w.shape, heads)) == |w.data|
  {
    var dims, d := HeadDims(w.shape, heads), w.shape[0] / heads / 2;
    ReshapeShape(w, dims);
    SizeOfSplit(w.shape, heads);
    ProdPositive(w.shape);
    PositiveFactors(dims);
    assert dims[2] == d;
    Cancel(heads * 2 * d, w.shape[0], Prod(w.shape[1..]));
  }

  lemma SwapHeads(split: Tensor, heads: nat, d: nat, tail: seq<nat>, q: nat, j: nat, k: nat, from: nat)
    requires Valid(split) && split.shape == [heads, 2, d] + tail && q < heads * 2 * d && j < Prod(tail)
    requires d > 0 && k == q * Prod(tail) + j < |split.data| && from == HeadSource(d, q) * Prod(tail) + j < |split.data|
    ensures k < |Permuted(split, Middle(|split.shape|)).data| && Permuted(split, Middle(|split.shape|)).data[k] == split.data[from]
  {
    SameSize(split, Middle(|split.shape|));
    MovedBy(split, k);
    HeadRowSource(heads, d, tail, q, j);
  }

  lemma MovedBy(t: Tensor, k: nat)
    requires Valid(t) && |t.shape| >= 3 && k < |Permuted(t, Middle(|t.shape|)).data|
    ensures MiddleSource(t.shape, k) < |t.data|
    ensures Permuted(t, Middle(|t.shape|)).data[k] == t.data[MiddleSource(t.shape, k)]
  {
    SourceBound(t.shape, Middle(|t.shape|), k);
  }

  lemma TransposeIs(t: Tensor)
    requires Valid(t) && |t.shape| >= 3
    ensures Transpose(t, 1, 2) == Some(Permuted(t, Middle(|t.shape|)))
  {
    var n := |t.shape|;
    ExchangeIsGood(n, 1, 2);
    PermuteIs(t, Exchange(n, 1, 2));
  }

  lemma HeadRowSource(heads: nat, d: nat, tail: seq<nat>, q: nat, j: nat)
    requires d > 0 && q < heads * 2 * d && j < Prod(tail) && Positive([heads, 2, d] + tail)
    ensures MiddleSource([heads, 2, d] + tail, q * Prod(tail) + j) == HeadSource(d, q) * Prod(tail) + j
  {
    assert ([heads, 2, d] + tail)[0] == heads;
    CubeRowSource(heads, d, q);
    TailSource([heads, 2, d], tail, q, j, q * Prod(tail) + j, HeadSource(d, q));
  }

  lemma CubeRowSource(heads: nat, d: nat, q: nat)
    requires heads > 0 && d > 0 && q < heads * 2 * d
    ensures MiddleSource([heads, 2, d], q) == HeadSource(d, q)
  {
    HalfBound(q, heads, d);
    var x, y := SplitPosition(q / 2, heads, d);
    CubeSource(heads, d, x, y, q % 2);
  }

  lemma SameSize(t: Tensor, dims: seq<nat>)
    requires Valid(t) && |t.shape| == |dims| >= 3 && dims == Middle(|t.shape|)
    ensures |Permuted(t, dims).data| == |t.data|
  {
    MiddleProd(t.shape);
  }

  lemma {:induction false} MiddleProd(shape: seq<nat>)
    requires |shape| >= 3
    ensures Prod(PermutedShape(shape, Middle(|shape|))) == Prod(shape)
    decreases |shape|
  {
    if |shape| == 3 {
      var dims := Middle(3);
      assert dims[0] == 0 && dims[1] == 2 && dims[2] == 1;
      assert PermutedShape(shape, dims) == [shape[0], shape[2], shape[1]] && shape == [shape[0], shape[1], shape[2]];
      CubeFlat(shape[0], shape[1], shape[2], 0, 0, 0);
      CubeFlat(shape[0], shape[2], shape[1], 0, 0, 0);
    } else {
      MiddleGrows(|shape| - 1);
      SplitShape(shape, Middle(|shape|));
      MiddleProd(Init(shape));
      assert Init(PermutedShape(shape, Middle(|shape|))) == PermutedShape(Init(shape), Middle(|shape| - 1));
    }
  }
}
