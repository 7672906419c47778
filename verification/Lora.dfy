/**
  LoRA pairs: a tensor that is known only as the product B·A of two factors.  The shape
  operations work on the factors; each must mean the same operation on the product.
 */
module Lora {
  import opened Arith
  import opened Options
  import opened Tensors

  /** A has shape (..., rank, columns), B has shape (..., rank). */
  datatype Pair = Pair(a: Tensor, b: Tensor)

  predicate IsPair(l: Pair) {
    && Valid(l.a) && Valid(l.b)
    && |l.a.shape| == |l.b.shape| >= 2
    && l.a.shape[|l.a.shape| - 2] == Last(l.b.shape)
  }

  /** All leading dimensions of A are 1. */
  predicate Unit(l: Pair) {
    forall i :: 0 <= i < |l.a.shape| - 2 ==> l.a.shape[i] == 1
  }

  function Rank(l: Pair): nat
    requires IsPair(l)
  {
    Last(l.b.shape)
  }

  function Columns(l: Pair): nat
    requires IsPair(l)
  {
    Last(l.a.shape)
  }

  function ShapeOf(l: Pair): seq<nat>
    requires IsPair(l)
  {
    Init(l.b.shape) + [Columns(l)]
  }

  // ------------------------------------------------------------------------ the product

  /** Row `i` of a matrix stored row by row. */
  function Row(m: seq<real>, i: nat, rows: nat, cols: nat): (v: seq<real>)
    requires |m| == rows * cols && i < rows
    ensures |v| == cols
  {
    seq(cols, j requires 0 <= j < cols => RowBound(i, j, rows, cols); m[i * cols + j])
  }

  function Column(m: seq<real>, j: nat, rows: nat, cols: nat): (v: seq<real>)
    requires |m| == rows * cols && j < cols
    ensures |v| == rows
  {
    seq(rows, i requires 0 <= i < rows => RowBound(i, j, rows, cols); m[i * cols + j])
  }

  function Inner(u: seq<real>, v: seq<real>): real
    requires |u| == |v|
  {
    if u == [] then 0.0 else Inner(Init(u), Init(v)) + Last(u) * Last(v)
  }

  lemma {:induction false} InnerCommutes(u: seq<real>, v: seq<real>)
    requires |u| == |v|
    ensures Inner(u, v) == Inner(v, u)
  {
    if u != [] {
      InnerCommutes(Init(u), Init(v));
    }
  }

  lemma {:induction false} OnesProd(shape: seq<nat>)
    requires forall i :: 0 <= i < |shape| ==> shape[i] == 1
    ensures Prod(shape) == 1
  {
    if shape != [] {
      OnesProd(Init(shape));
    }
  }

  lemma Sizes(l: Pair)
    requires IsPair(l)
    ensures |l.b.data| == Prod(Init(l.b.shape)) * Rank(l)
    ensures Unit(l) ==> |l.a.data| == Rank(l) * Columns(l)
    ensures Prod(ShapeOf(l)) == Prod(Init(l.b.shape)) * Columns(l)
    ensures Positive(ShapeOf(l)) && Rank(l) > 0 && Columns(l) > 0
  {
    var s := l.a.shape;
    assert Init(ShapeOf(l)) == Init(l.b.shape);
    if Unit(l) {
      OnesProd(Init(Init(s)));
      assert Prod(Init(s)) == Prod(Init(Init(s))) * Last(Init(s)) == Rank(l);
    }
  }

  /** Entry `k`, counted row by row, of the product. */
  function Entry(l: Pair, k: nat): real
    requires IsPair(l) && Unit(l) && k < Prod(ShapeOf(l))
  {
    Sizes(l);
    var rows := Prod(Init(l.b.shape));
    QuotientBound(k, rows, Columns(l));
    Inner(Row(l.b.data, k / Columns(l), rows, Rank(l)), Column(l.a.data, k % Columns(l), Rank(l), Columns(l)))
  }

  function Product(l: Pair): (t: Tensor)
    requires IsPair(l) && Unit(l)
    ensures Valid(t) && t.shape == ShapeOf(l)
  {
    Sizes(l);
    Tensor(ShapeOf(l), seq(Prod(ShapeOf(l)), k requires 0 <= k < Prod(ShapeOf(l)) => Entry(l, k)))
  }

  /** Entry (`i`, `j`) of the product, for row `i` of B and column `j` of A. */
  lemma EntryAt(l: Pair, i: nat, j: nat)
    requires IsPair(l) && Unit(l) && i < Prod(Init(l.b.shape)) && j < Columns(l)
    ensures |l.b.data| == Prod(Init(l.b.shape)) * Rank(l) && |l.a.data| == Rank(l) * Columns(l)
    ensures i * Columns(l) + j < Prod(ShapeOf(l)) == |Product(l).data|
    ensures Product(l).data[i * Columns(l) + j]
         == Inner(Row(l.b.data, i, Prod(Init(l.b.shape)), Rank(l)), Column(l.a.data, j, Rank(l), Columns(l)))
  {
    Sizes(l);
    RowBound(i, j, Prod(Init(l.b.shape)), Columns(l));
    DivModOf(i, j, Columns(l));
  }

  /** The same with the sizes given. */
  lemma EntryIs(l: Pair, n: nat, rank: nat, cols: nat, i: nat, j: nat, k: nat)
    requires IsPair(l) && Unit(l) && n == Prod(Init(l.b.shape)) && rank == Rank(l) && cols == Columns(l)
    requires i < n && j < cols && k == i * cols + j
    ensures |l.b.data| == n * rank && |l.a.data| == rank * cols && k < |Product(l).data|
    ensures Product(l).data[k] == Inner(Row(l.b.data, i, n, rank), Column(l.a.data, j, rank, cols))
  {
    EntryAt(l, i, j);
  }

  /** The batched matrix product, index by index: the rows of B at `idx` times the columns of
      the one matrix that A holds. */
  ghost function Term(l: Pair, idx: seq<nat>, col: nat, r: nat): real
    requires IsPair(l) && Unit(l) && InBounds(idx, Init(l.b.shape)) && col < Columns(l) && r < Rank(l)
  {
    At(l.b, idx + [r]) * At(l.a, Zeros(|l.a.shape| - 2) + [r, col])
  }

  function Zeros(n: nat): (z: seq<nat>)
    ensures |z| == n && forall i :: 0 <= i < n ==> z[i] == 0
  {
    seq<nat>(n, i => 0)
  }

  ghost function Terms(l: Pair, idx: seq<nat>, col: nat, n: nat): real
    requires IsPair(l) && Unit(l) && InBounds(idx, Init(l.b.shape)) && col < Columns(l) && n <= Rank(l)
  {
    if n == 0 then 0.0 else Terms(l, idx, col, n - 1) + Term(l, idx, col, n - 1)
  }

  lemma {:induction false} ZerosAreFirst(shape: seq<nat>, z: seq<nat>)
    requires |z| == |shape| && forall i :: 0 <= i < |z| ==> z[i] == 0
    ensures Flat(shape, z) == 0
  {
    if shape != [] {
      ZerosAreFirst(Init(shape), Init(z));
    }
  }

  lemma FlatOfA(l: Pair, r: nat, col: nat)
    requires IsPair(l) && Unit(l) && r < Rank(l) && col < Columns(l)
    ensures Flat(l.a.shape, Zeros(|l.a.shape| - 2) + [r, col]) == r * Columns(l) + col
  {
    var n := |l.a.shape|;
    var idx := Zeros(n - 2) + [r, col];
    assert Init(idx) == Zeros(n - 2) + [r] && Init(Init(idx)) == Zeros(n - 2);
    ZerosAreFirst(Init(Init(l.a.shape)), Zeros(n - 2));
  }

  lemma TermAt(l: Pair, idx: seq<nat>, col: nat, r: nat)
    requires IsPair(l) && Unit(l) && InBounds(idx, Init(l.b.shape)) && col < Columns(l) && r < Rank(l)
    ensures var i, j := Flat(Init(l.b.shape), idx) * Rank(l) + r, r * Columns(l) + col;
            i < |l.b.data| && j < |l.a.data| && Term(l, idx, col, r) == l.b.data[i] * l.a.data[j]
  {
    FlatOfA(l, r, col);
    assert Init(idx + [r]) == idx;
    FlatBound(l.b.shape, idx + [r]);
    FlatBound(l.a.shape, Zeros(|l.a.shape| - 2) + [r, col]);
  }

  lemma {:induction false} InnerIsTerms(l: Pair, idx: seq<nat>, col: nat, u: seq<real>, v: seq<real>)
    requires IsPair(l) && Unit(l) && InBounds(idx, Init(l.b.shape)) && col < Columns(l)
    requires |u| == |v| <= Rank(l)
    requires forall r :: 0 <= r < |u| ==> u[r] * v[r] == Term(l, idx, col, r)
    ensures Inner(u, v) == Terms(l, idx, col, |u|)
  {
    if u != [] {
      InnerIsTerms(l, idx, col, Init(u), Init(v));
    }
  }

  /** What `Product` is: the matrix product at every index of the result. */
  lemma ProductAt(l: Pair, idx: seq<nat>, col: nat)
    requires IsPair(l) && Unit(l) && InBounds(idx, Init(l.b.shape)) && col < Columns(l)
    ensures InBounds(idx + [col], ShapeOf(l)) && At(Product(l), idx + [col]) == Terms(l, idx, col, Rank(l))
  {
    var q := Flat(Init(l.b.shape), idx);
    FlatBound(Init(l.b.shape), idx);
    EntryAt(l, q, col);
    FlatOfRow(Init(l.b.shape), Columns(l), idx, col);
    RowTimesColumn(l, idx, col);
  }

  lemma FlatOfRow(shape: seq<nat>, m: nat, idx: seq<nat>, j: nat)
    requires InBounds(idx, shape) && j < m
    ensures InBounds(idx + [j], shape + [m]) && Flat(shape + [m], idx + [j]) == Flat(shape, idx) * m + j
  {
    assert Init(idx + [j]) == idx && Init(shape + [m]) == shape;
  }

  lemma RowTimesColumn(l: Pair, idx: seq<nat>, col: nat)
    requires IsPair(l) && Unit(l) && InBounds(idx, Init(l.b.shape)) && col < Columns(l)
    requires |l.b.data| == Prod(Init(l.b.shape)) * Rank(l) && |l.a.data| == Rank(l) * Columns(l)
    requires Flat(Init(l.b.shape), idx) < Prod(Init(l.b.shape))
    ensures Inner(Row(l.b.data, Flat(Init(l.b.shape), idx), Prod(Init(l.b.shape)), Rank(l)),
                  Column(l.a.data, col, Rank(l), Columns(l))) == Terms(l, idx, col, Rank(l))
  {
    var u := Row(l.b.data, Flat(Init(l.b.shape), idx), Prod(Init(l.b.shape)), Rank(l));
    var v := Column(l.a.data, col, Rank(l), Columns(l));
    forall r | 0 <= r < Rank(l)
      ensures u[r] * v[r] == Term(l, idx, col, r)
    {
      TermAt(l, idx, col, r);
    }
    InnerIsTerms(l, idx, col, u, v);
  }

  // ---------------------------------------------------------------------------- reshape

  function Ones(n: nat): (s: seq<int>)
    ensures |s| == n && forall i :: 0 <= i < n ==> s[i] == 1
  {
    seq(n, i => 1)
  }

  /** The shape after the -1 in it is replaced, if the sizes divide. */
  function Expanded(size: nat, newShape: seq<int>): Option<seq<int>> {
    if -1 !in newShape then Some(newShape)
    else
      var known := ProdOf(Inferred(newShape, 1));
      if known == 0 || size % known != 0 then None else Some(Inferred(newShape, size / known))
  }

  /** What the pair is reshaped to, when it keeps two dimensions and the last one: every -1
      stands for the same quotient. */
  function TargetShape(l: Pair, newShape: seq<int>): (shape: Option<seq<int>>)
    requires IsPair(l)
    ensures shape.Some? ==> |shape.value| == |newShape| >= 2 && Last(shape.value) == Columns(l)
  {
    if |newShape| < 2 then None
    else
      var shape := Expanded(Prod(ShapeOf(l)), newShape);
      if shape.Some? && Last(shape.value) == Last(ShapeOf(l)) then shape else None
  }

  function ReshapeFactors(l: Pair, shape: seq<int>): Option<Pair>
    requires IsPair(l) && |shape| >= 2
  {
    var a := ReshapeTo(l.a, Ones(|shape| - 2) + [Rank(l), Columns(l)]);
    var b := ReshapeTo(l.b, Init(shape) + [Rank(l)]);
    if a.Some? && b.Some? then Some(Pair(a.value, b.value)) else None
  }

  function ReshapePair(l: Pair, newShape: seq<int>): Option<Pair>
    requires IsPair(l)
  {
    var shape := TargetShape(l, newShape);
    if shape.None? then None else ReshapeFactors(l, shape.value)
  }

  lemma Cancel(x: nat, y: nat, m: nat)
    requires m > 0
    ensures x * m == y * m <==> x == y
  {
    MulMonotone(x + 1, y, m);
    MulMonotone(y + 1, x, m);
  }

  /** The factors can take a shape with the same last dimension exactly when the product can. */
  lemma FactorsReshape(l: Pair, shape: seq<int>)
    requires IsPair(l) && Unit(l) && |shape| >= 2 && Last(shape) == Columns(l)
    ensures ReshapeTo(l.a, Ones(|shape| - 2) + [Rank(l), Columns(l)]).Some?
    ensures ReshapeTo(l.b, Init(shape) + [Rank(l)]).Some? <==> ReshapeTo(Product(l), shape).Some?
  {
    Sizes(l);
    var sa := Ones(|shape| - 2) + [Rank(l), Columns(l)];
    assert Natural(sa);
    var na := AsShape(sa);
    OnesProd(Init(Init(na)));
    assert Prod(Init(na)) == Prod(Init(Init(na))) * Last(Init(na)) == Rank(l);
    var sb := Init(shape) + [Rank(l)];
    assert forall i :: 0 <= i < |shape| - 1 ==> shape[i] == sb[i];
    assert Natural(sb) <==> Natural(shape);
    if Natural(shape) {
      var rows := Prod(Init(AsShape(shape)));
      assert Init(AsShape(sb)) == Init(AsShape(shape));
      Cancel(rows, Prod(Init(l.b.shape)), Rank(l));
      Cancel(rows, Prod(Init(l.b.shape)), Columns(l));
    }
  }

  /** Pairs with the same data, rank and columns have the same entries. */
  lemma SameEntries(l: Pair, m: Pair)
    requires IsPair(l) && Unit(l) && IsPair(m) && Unit(m)
    requires l.a.data == m.a.data && l.b.data == m.b.data && Rank(l) == Rank(m) && Columns(l) == Columns(m)
    ensures Product(l).data == Product(m).data
  {
    Sizes(l);
    Sizes(m);
    Cancel(Prod(Init(l.b.shape)), Prod(Init(m.b.shape)), Rank(l));
  }

  lemma ReshapeToMeans(l: Pair, shape: seq<int>)
    requires IsPair(l) && Unit(l) && |shape| >= 2 && Last(shape) == Columns(l)
    requires ReshapeTo(Product(l), shape).Some?
    ensures var a := ReshapeTo(l.a, Ones(|shape| - 2) + [Rank(l), Columns(l)]);
            var b := ReshapeTo(l.b, Init(shape) + [Rank(l)]);
            && a.Some? && b.Some? && IsPair(Pair(a.value, b.value)) && Unit(Pair(a.value, b.value))
            && Product(Pair(a.value, b.value)) == ReshapeTo(Product(l), shape).value
  {
    FactorsReshape(l, shape);
    var a := ReshapeTo(l.a, Ones(|shape| - 2) + [Rank(l), Columns(l)]).value;
    var b := ReshapeTo(l.b, Init(shape) + [Rank(l)]).value;
    var m := Pair(a, b);
    assert Columns(m) == Columns(l) && Rank(m) == Rank(l);
    SameEntries(l, m);
    assert ShapeOf(m) == AsShape(shape) by {
      assert Init(b.shape) == Init(AsShape(shape));
      assert AsShape(shape) == Init(AsShape(shape)) + [Last(shape)];
    }
  }

  lemma FactorsMean(l: Pair, shape: seq<int>)
    requires IsPair(l) && Unit(l) && |shape| >= 2 && Last(shape) == Columns(l)
    ensures ReshapeFactors(l, shape).Some? <==> ReshapeTo(Product(l), shape).Some?
    ensures ReshapeFactors(l, shape).Some? ==>
              var m := ReshapeFactors(l, shape).value;
              IsPair(m) && Unit(m) && Some(Product(m)) == ReshapeTo(Product(l), shape)
  {
    FactorsReshape(l, shape);
    if ReshapeTo(Product(l), shape).Some? {
      ReshapeToMeans(l, shape);
    }
  }

  /** Reshaping the pair reshapes the product, for every shape: it succeeds exactly when the
      shape, with its -1 replaced, has at least two dimensions, keeps the last one and is one
      the product can take. */
  lemma ReshapeMeans(l: Pair, newShape: seq<int>)
    requires IsPair(l) && Unit(l)
    ensures var shape := TargetShape(l, newShape);
            && (ReshapePair(l, newShape).Some? <==> shape.Some? && ReshapeTo(Product(l), shape.value).Some?)
            && (ReshapePair(l, newShape).Some? ==>
                  var m := ReshapePair(l, newShape).value;
                  IsPair(m) && Unit(m) && Some(Product(m)) == ReshapeTo(Product(l), shape.value))
  {
    var target := TargetShape(l, newShape);
    if target.Some? {
      FactorsMean(l, target.value);
    }
  }

  /** With at most one -1 that is what the tensor library does to the product.  With more it
      refuses, while the pair takes each of them for the same quotient. */
  lemma ReshapeAgrees(l: Pair, newShape: seq<int>)
    requires IsPair(l) && Unit(l) && AtMostOneInferred(newShape)
    ensures var dense := Reshape(Product(l), newShape);
            ReshapePair(l, newShape).Some? <==>
              dense.Some? && |newShape| >= 2 && Last(dense.value.shape) == Last(ShapeOf(l))
    ensures ReshapePair(l, newShape).Some? ==>
              var m := ReshapePair(l, newShape).value;
              IsPair(m) && Unit(m) && Product(m) == Reshape(Product(l), newShape).value
  {
    Sizes(l);
    ReshapeMeans(l, newShape);
    assert |Product(l).data| == Prod(ShapeOf(l));
    if |newShape| >= 2 && Expanded(Prod(ShapeOf(l)), newShape).Some? {
      assert Reshape(Product(l), newShape) == ReshapeTo(Product(l), Expanded(Prod(ShapeOf(l)), newShape).value);
    }
  }
}
