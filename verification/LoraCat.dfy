/**
  Concatenating LoRA pairs of matrices along the rows: the B factors are stacked when all the
  pairs share one A.
 */
module LoraCat {
  import opened Arith
  import opened Options
  import opened Tensors
  import opened Lora
  import opened LoraPermute

  predicate Matrices(ls: seq<Pair>) {
    forall i :: 0 <= i < |ls| ==> IsPair(ls[i]) && |ls[i].a.shape| == 2
  }

  predicate SameA(ls: seq<Pair>) {
    forall i :: 0 <= i < |ls| ==> ls[i].a == ls[0].a
  }

  function Bs(ls: seq<Pair>): (bs: seq<Tensor>)
    ensures |bs| == |ls| && forall i :: 0 <= i < |ls| ==> bs[i] == ls[i].b
  {
    seq(|ls|, i requires 0 <= i < |ls| => ls[i].b)
  }

  function Products(ls: seq<Pair>): (ts: seq<Tensor>)
    requires Matrices(ls)
    ensures |ts| == |ls| && forall i :: 0 <= i < |ls| ==> ts[i] == Product(ls[i])
  {
    seq(|ls|, i requires 0 <= i < |ls| => Product(ls[i]))
  }

  function CatPairs(ls: seq<Pair>): Option<Pair>
    requires Matrices(ls)
  {
    if ls == [] || !SameA(ls) then None
    else
      match Cat(Bs(ls))
      case None => None
      case Some(b) => Some(Pair(ls[0].a, b))
  }

  // ---------------------------------------------------------------- products of plain data

  function MatMul(b: seq<real>, a: seq<real>, rows: nat, rank: nat, cols: nat): (m: seq<real>)
    requires |b| == rows * rank && |a| == rank * cols && cols > 0
    ensures |m| == rows * cols
  {
    seq(rows * cols, k requires 0 <= k < rows * cols =>
      QuotientBound(k, rows, cols);
      Inner(Row(b, k / cols, rows, rank), Column(a, k % cols, rank, cols)))
  }

  lemma MatMulCell(b: seq<real>, a: seq<real>, rows: nat, rank: nat, cols: nat, i: nat, j: nat)
    requires |b| == rows * rank && |a| == rank * cols && i < rows && j < cols
    ensures i * cols + j < rows * cols
    ensures MatMul(b, a, rows, rank, cols)[i * cols + j] == Inner(Row(b, i, rows, rank), Column(a, j, rank, cols))
  {
    RowBound(i, j, rows, cols);
    DivModOf(i, j, cols);
  }

  lemma RowOfTop(top: seq<real>, bottom: seq<real>, i: nat, n: nat, m: nat, rank: nat)
    requires |top| == n * rank && |bottom| == m * rank && |top + bottom| == (n + m) * rank && i < n
    ensures Row(top + bottom, i, n + m, rank) == Row(top, i, n, rank)
  {
    forall r | 0 <= r < rank
      ensures Row(top + bottom, i, n + m, rank)[r] == Row(top, i, n, rank)[r]
    {
      RowBound(i, r, n, rank);
    }
  }

  lemma RowOfBottom(top: seq<real>, bottom: seq<real>, i: nat, n: nat, m: nat, rank: nat)
    requires |top| == n * rank && |bottom| == m * rank && |top + bottom| == (n + m) * rank && i < m
    ensures Row(top + bottom, n + i, n + m, rank) == Row(bottom, i, m, rank)
  {
    forall r | 0 <= r < rank
      ensures Row(top + bottom, n + i, n + m, rank)[r] == Row(bottom, i, m, rank)[r]
    {
      RowBound(i, r, m, rank);
      RowBound(n + i, r, n + m, rank);
      assert (n + i) * rank + r == |top| + (i * rank + r);
    }
  }

  lemma TopCell(top: seq<real>, bottom: seq<real>, a: seq<real>, n: nat, m: nat, rank: nat, cols: nat, k: nat)
    requires |top| == n * rank && |bottom| == m * rank && |top + bottom| == (n + m) * rank
    requires |a| == rank * cols && cols > 0 && k < n * cols <= (n + m) * cols
    ensures MatMul(top + bottom, a, n + m, rank, cols)[k] == MatMul(top, a, n, rank, cols)[k]
  {
    var i, _ := SplitPosition(k, n, cols);
    RowOfTop(top, bottom, i, n, m, rank);
  }

  lemma BelowTop(n: nat, i: nat, j: nat, cols: nat)
    ensures n * cols + (i * cols + j) == (n + i) * cols + j
  {
  }

  lemma BottomCell(top: seq<real>, bottom: seq<real>, a: seq<real>, n: nat, m: nat, rank: nat, cols: nat, k: nat)
    requires |top| == n * rank && |bottom| == m * rank && |top + bottom| == (n + m) * rank
    requires |a| == rank * cols && cols > 0 && k < m * cols && (n + m) * cols == n * cols + m * cols
    ensures MatMul(top + bottom, a, n + m, rank, cols)[n * cols + k] == MatMul(bottom, a, m, rank, cols)[k]
  {
    var i, j := SplitPosition(k, m, cols);
    BelowTop(n, i, j, cols);
    MatMulCell(top + bottom, a, n + m, rank, cols, n + i, j);
    RowOfBottom(top, bottom, i, n, m, rank);
  }

  /** Stacking the rows of the left factor stacks the rows of the product. */
  lemma MatMulStacks(top: seq<real>, bottom: seq<real>, a: seq<real>, n: nat, m: nat, rank: nat, cols: nat)
    requires |top| == n * rank && |bottom| == m * rank && |a| == rank * cols && cols > 0
    ensures |top + bottom| == (n + m) * rank
    ensures MatMul(top + bottom, a, n + m, rank, cols) == MatMul(top, a, n, rank, cols) + MatMul(bottom, a, m, rank, cols)
  {
    assert (n + m) * rank == n * rank + m * rank && (n + m) * cols == n * cols + m * cols;
    var whole := MatMul(top + bottom, a, n + m, rank, cols);
    var parts := MatMul(top, a, n, rank, cols) + MatMul(bottom, a, m, rank, cols);
    forall k | 0 <= k < (n + m) * cols
      ensures whole[k] == parts[k]
    {
      if k < n * cols {
        TopCell(top, bottom, a, n, m, rank, cols, k);
      } else {
        BottomCell(top, bottom, a, n, m, rank, cols, k - n * cols);
      }
    }
  }

  lemma ProductIsMatMul(l: Pair)
    requires IsPair(l) && |l.a.shape| == 2
    ensures |l.b.data| == l.b.shape[0] * Rank(l) && |l.a.data| == Rank(l) * Columns(l) && Columns(l) > 0 && Unit(l)
    ensures Product(l).data == MatMul(l.b.data, l.a.data, l.b.shape[0], Rank(l), Columns(l))
    ensures l.b.shape == [l.b.shape[0], Rank(l)] && Product(l).shape == [l.b.shape[0], Columns(l)]
  {
    MatrixPair(l);
    Sizes(l);
  }

  // ------------------------------------------------------------------------- whole lists

  lemma {:induction false} ListIsMatMul(ls: seq<Pair>, a: Tensor, rank: nat, cols: nat)
    requires Matrices(ls) && a.shape == [rank, cols] && |a.data| == rank * cols && cols > 0
    requires forall i :: 0 <= i < |ls| ==> ls[i].a == a
    ensures Rows(Products(ls)) == Rows(Bs(ls)) && |Flatten(Bs(ls))| == Rows(Bs(ls)) * rank
    ensures Flatten(Products(ls)) == MatMul(Flatten(Bs(ls)), a.data, Rows(Bs(ls)), rank, cols)
    decreases |ls|
  {
    if ls != [] {
      var rest := ls[1..];
      assert forall i :: 0 <= i < |rest| ==> rest[i] == ls[i + 1];
      ListIsMatMul(rest, a, rank, cols);
      ListCons(ls);
      ProductIsMatMul(ls[0]);
      MatMulStacks(ls[0].b.data, Flatten(Bs(rest)), a.data, ls[0].b.shape[0], Rows(Bs(rest)), rank, cols);
    }
  }

  lemma ListCons(ls: seq<Pair>)
    requires Matrices(ls) && ls != []
    ensures Matrices(ls[1..])
    ensures Rows(Bs(ls)) == ls[0].b.shape[0] + Rows(Bs(ls[1..])) && Flatten(Bs(ls)) == ls[0].b.data + Flatten(Bs(ls[1..]))
    ensures Flatten(Products(ls)) == Product(ls[0]).data + Flatten(Products(ls[1..]))
    ensures Rows(Products(ls)) == Product(ls[0]).shape[0] + Rows(Products(ls[1..]))
  {
    assert Bs(ls)[1..] == Bs(ls[1..]) && Products(ls)[1..] == Products(ls[1..]);
  }

  lemma CatOfMatrices(ts: seq<Tensor>, cols: nat)
    requires ts != [] && forall i :: 0 <= i < |ts| ==> |ts[i].shape| == 2 && ts[i].shape[1] == cols
    ensures Cat(ts) == Some(Tensor([Rows(ts), cols], Flatten(ts)))
  {
    assert forall i :: 0 <= i < |ts| ==> ts[i].shape[1..] == [cols];
    assert ts[0].shape[1..] == [cols];
    assert [Rows(ts)] + [cols] == [Rows(ts), cols];
  }

  lemma RowsPositive(ts: seq<Tensor>)
    requires ts != [] && forall i :: 0 <= i < |ts| ==> ts[i].shape != [] && ts[i].shape[0] > 0
    ensures Rows(ts) > 0
  {
  }

  lemma SharedA(ls: seq<Pair>, i: nat)
    requires Matrices(ls) && SameA(ls) && i < |ls|
    ensures |ls[i].b.shape| == 2 && ls[i].b.shape[1] == Rank(ls[0]) && ls[i].b.shape[0] > 0
    ensures Unit(ls[i]) && Product(ls[i]).shape == [ls[i].b.shape[0], Columns(ls[0])]
  {
    assert ls[i].a == ls[0].a;
    ProductIsMatMul(ls[i]);
  }

  lemma CatPair(ls: seq<Pair>)
    requires Matrices(ls) && ls != [] && SameA(ls)
    ensures var b := Tensor([Rows(Bs(ls)), Rank(ls[0])], Flatten(Bs(ls)));
            && CatPairs(ls) == Some(Pair(ls[0].a, b)) && IsPair(Pair(ls[0].a, b))
  {
    ProductIsMatMul(ls[0]);
    MatrixPair(ls[0]);
    forall i | 0 <= i < |ls|
      ensures |Bs(ls)[i].shape| == 2 && Bs(ls)[i].shape[1] == Rank(ls[0]) && Bs(ls)[i].shape[0] > 0
    {
      SharedA(ls, i);
    }
    CatOfMatrices(Bs(ls), Rank(ls[0]));
    RowsPositive(Bs(ls));
    ListIsMatMul(ls, ls[0].a, Rank(ls[0]), Columns(ls[0]));
    MatrixFlat(Rows(Bs(ls)), Rank(ls[0]), 0, 0);
  }

  /** Concatenating the pairs concatenates the products; it is supported exactly when there
      is a pair and all pairs have the same A. */
  lemma CatMeans(ls: seq<Pair>)
    requires Matrices(ls)
    ensures CatPairs(ls).Some? <==> ls != [] && SameA(ls)
    ensures CatPairs(ls).Some? ==>
              && IsPair(CatPairs(ls).value) && Unit(CatPairs(ls).value)
              && Cat(Products(ls)) == Some(Product(CatPairs(ls).value))
  {
    if ls != [] && SameA(ls) {
      CatPair(ls);
      ProductIsMatMul(CatPairs(ls).value);
      ProductIsMatMul(ls[0]);
      MatrixPair(ls[0]);
      ListIsMatMul(ls, ls[0].a, Rank(ls[0]), Columns(ls[0]));
      forall i | 0 <= i < |ls|
        ensures |Products(ls)[i].shape| == 2 && Products(ls)[i].shape[1] == Columns(ls[0])
      {
        SharedA(ls, i);
      }
      CatOfMatrices(Products(ls), Columns(ls[0]));
    }
  }
}
