/**
  Reshaping and permuting LoRA pairs with the arguments at the edge: several inferred
  dimensions, and dimensions that are out of range.
 */
module LoraShapes {
  import opened Arith
  import opened Options
  import opened Tensors
  import opened Lora
  import opened LoraPermute

  // ------------------------------------------------------------------ inferred dimensions

  lemma InferredLast(dims: seq<int>, d: int)
    requires dims != []
    ensures Init(Inferred(dims, d)) == Inferred(Init(dims), d)
    ensures Last(Inferred(dims, d)) == if Last(dims) == -1 then d else Last(dims)
  {
  }

  lemma NoneInferred(dims: seq<int>, d: int)
    requires -1 !in dims
    ensures Inferred(dims, d) == dims
  {
  }

  lemma TimesInAnyOrder(a: int, b: int, c: int)
    ensures a * b * c == a * c * b
  {
  }

  /** The one inferred dimension is a factor of the product. */
  lemma {:induction false} KnownTimes(dims: seq<int>, d: int)
    requires AtMostOneInferred(dims) && -1 in dims
    ensures ProdOf(Inferred(dims, d)) == ProdOf(Inferred(dims, 1)) * d
  {
    var p := Init(dims);
    InferredLast(dims, d);
    InferredLast(dims, 1);
    if Last(dims) == -1 {
      NoneInferred(p, d);
      NoneInferred(p, 1);
    } else {
      KnownTimes(p, d);
      TimesInAnyOrder(ProdOf(Inferred(p, 1)), d, Last(dims));
    }
  }

  lemma {:induction false} ProdOfShape(dims: seq<int>, shape: seq<nat>)
    requires dims == shape
    ensures ProdOf(dims) == Prod(shape)
  {
    if shape != [] {
      ProdOfShape(Init(dims), Init(shape));
    }
  }

  /** A shape that agrees with the dimensions that are given. */
  predicate Fits(shape: seq<nat>, dims: seq<int>) {
    |shape| == |dims| && forall i :: 0 <= i < |dims| ==> dims[i] == -1 || dims[i] == shape[i]
  }

  lemma FactorOf(size: nat, known: int, d: nat)
    requires size > 0 && known * d == size
    ensures known > 0 && d > 0 && size % known == 0 && size / known == d
  {
    if known <= 0 {
      MulMonotone(known, 0, d);
    }
    DivModOf(d, 0, known);
  }

  lemma FittingShape(t: Tensor, dims: seq<int>, shape: seq<nat>)
    requires Valid(t) && AtMostOneInferred(dims) && Fits(shape, dims) && Prod(shape) == |t.data|
    ensures Reshape(t, dims) == Some(Tensor(shape, t.data))
  {
    ProdPositive(t.shape);
    if -1 in dims {
      var p :| 0 <= p < |dims| && dims[p] == -1;
      var d := shape[p];
      assert Inferred(dims, d) == shape;
      KnownTimes(dims, d);
      ProdOfShape(Inferred(dims, d), shape);
      FactorOf(|t.data|, ProdOf(Inferred(dims, 1)), d);
    } else {
      assert dims == shape;
    }
  }

  /** What reshaping a dense tensor means: at most one dimension is inferred, and the data keep
      their order under a shape that agrees with the others and has the same size. */
  lemma ReshapeInfers(t: Tensor, dims: seq<int>)
    requires Valid(t)
    ensures Reshape(t, dims).Some? <==>
              AtMostOneInferred(dims) && exists shape :: Fits(shape, dims) && Prod(shape) == |t.data|
    ensures Reshape(t, dims).Some? ==> Fits(Reshape(t, dims).value.shape, dims) && Reshape(t, dims).value.data == t.data
  {
    if AtMostOneInferred(dims) {
      if shape :| Fits(shape, dims) && Prod(shape) == |t.data| {
        FittingShape(t, dims, shape);
      }
    }
    if Reshape(t, dims).Some? {
      assert Fits(Reshape(t, dims).value.shape, dims);
    }
  }

  /** Replacing every -1 by `d` multiplies the product at least once by it, */
  lemma {:induction false} SomeTimes(dims: seq<int>, d: int)
    requires -1 in dims && d >= 1 && Natural(Inferred(dims, 1))
    ensures 0 <= ProdOf(Inferred(dims, 1)) * d <= ProdOf(Inferred(dims, d))
  {
    var p := Init(dims);
    InferredLast(dims, d);
    InferredLast(dims, 1);
    InitNatural(dims);
    if Last(dims) == -1 {
      OthersGrow(p, d);
      MulMonotone(ProdOf(Inferred(p, 1)), ProdOf(Inferred(p, d)), d);
    } else {
      SomeTimes(p, d);
      TimesInAnyOrder(ProdOf(Inferred(p, 1)), d, Last(dims));
      MulMonotone(ProdOf(Inferred(p, 1)) * d, ProdOf(Inferred(p, d)), Last(dims));
    }
  }

  lemma InitNatural(dims: seq<int>)
    requires dims != [] && Natural(Inferred(dims, 1))
    ensures Natural(Inferred(Init(dims), 1)) && (Last(dims) == -1 || Last(dims) >= 0)
  {
    InferredLast(dims, 1);
  }

  lemma {:induction false} OthersGrow(dims: seq<int>, d: int)
    requires d >= 1 && Natural(Inferred(dims, 1))
    ensures 0 <= ProdOf(Inferred(dims, 1)) <= ProdOf(Inferred(dims, d))
  {
    if dims != [] {
      var p := Init(dims);
      InferredLast(dims, d);
      InferredLast(dims, 1);
      InitNatural(dims);
      OthersGrow(p, d);
      if Last(dims) == -1 {
        MulMonotone(1, d, ProdOf(Inferred(p, d)));
      } else {
        MulMonotone(ProdOf(Inferred(p, 1)), ProdOf(Inferred(p, d)), Last(dims));
      }
    }
  }

  lemma Grows(a: int, b: int, d: int)
    requires a > 0 && d >= 2 && a * d <= b
    ensures b * d > a * d
  {
    MulMonotone(2, d, a);
    MulMonotone(a + 1, b, d);
  }

  lemma PositiveParts(a: nat, b: nat)
    requires a * b > 0
    ensures a > 0 && b > 0
  {
  }

  lemma TimesLast(a: int, b: int, d: int, last: nat)
    requires b > a * d && last > 0
    ensures b * last > a * last * d
  {
    TimesInAnyOrder(a, d, last);
    MulMonotone(a * d + 1, b, last);
  }

  /** and more than once when there are several. */
  lemma {:induction false} SeveralTimes(dims: seq<int>, d: int)
    requires !AtMostOneInferred(dims) && d >= 2 && Natural(Inferred(dims, 1)) && ProdOf(Inferred(dims, 1)) > 0
    ensures ProdOf(Inferred(dims, d)) > ProdOf(Inferred(dims, 1)) * d
  {
    var p := Init(dims);
    InferredLast(dims, d);
    InferredLast(dims, 1);
    InitNatural(dims);
    if Last(dims) == -1 {
      SomeTimes(p, d);
      Grows(ProdOf(Inferred(p, 1)), ProdOf(Inferred(p, d)), d);
    } else {
      OthersGrow(p, d);
      PositiveParts(ProdOf(Inferred(p, 1)), Last(dims));
      SeveralTimes(p, d);
      TimesLast(ProdOf(Inferred(p, 1)), ProdOf(Inferred(p, d)), d, Last(dims));
    }
  }

  lemma ExpandedWhole(size: nat, newShape: seq<int>, one: seq<int>)
    requires -1 in newShape && one == Inferred(newShape, 1) && ProdOf(one) == size > 0
    ensures Expanded(size, newShape) == Some(one) == Expanded(size, one)
  {
  }

  lemma SameTarget(l: Pair, newShape: seq<int>, one: seq<int>)
    requires IsPair(l) && Unit(l) && -1 in newShape && one == Inferred(newShape, 1) && ProdOf(one) == Prod(ShapeOf(l)) > 0
    ensures ReshapePair(l, newShape) == ReshapePair(l, one)
  {
    ExpandedWhole(Prod(ShapeOf(l)), newShape, one);
  }

  lemma OneIsRefused(l: Pair, newShape: seq<int>, one: seq<int>)
    requires IsPair(l) && Unit(l) && one == Inferred(newShape, 1) && ProdOf(one) != Prod(ShapeOf(l))
    ensures ReshapePair(l, one).None?
  {
    assert -1 !in one;
    Sizes(l);
    ReshapeMeans(l, one);
    if ReshapePair(l, one).Some? {
      ProdOfShape(one, AsShape(one));
    }
  }

  lemma SeveralAreRefused(l: Pair, newShape: seq<int>)
    requires IsPair(l) && Unit(l) && !AtMostOneInferred(newShape)
    requires ProdOf(Inferred(newShape, 1)) != Prod(ShapeOf(l)) && Prod(ShapeOf(l)) > 0
    ensures ReshapePair(l, newShape).None?
  {
    Sizes(l);
    ReshapeMeans(l, newShape);
    if ReshapePair(l, newShape).Some? {
      var d := ExpandedTo(Prod(ShapeOf(l)), newShape);
      SizeOfReshaped(Product(l), Inferred(newShape, d));
      SeveralFit(newShape, Prod(ShapeOf(l)), d);
    }
  }

  lemma ExpandedTo(size: nat, newShape: seq<int>) returns (d: int)
    requires Expanded(size, newShape).Some? && -1 in newShape
    ensures Expanded(size, newShape).value == Inferred(newShape, d) && ProdOf(Inferred(newShape, 1)) * d == size
  {
    d := size / ProdOf(Inferred(newShape, 1));
  }

  lemma SizeOfReshaped(t: Tensor, shape: seq<int>)
    requires Valid(t) && ReshapeTo(t, shape).Some?
    ensures Natural(shape) && Prod(AsShape(shape)) == |t.data|
  {
  }

  /** Several inferred dimensions are each 1: the pair takes such a shape exactly when it takes
      the shape with 1 for every -1, where the tensor library refuses it. */
  lemma SeveralInferredAreOne(l: Pair, newShape: seq<int>)
    requires IsPair(l) && Unit(l) && !AtMostOneInferred(newShape)
    ensures ReshapePair(l, newShape) == ReshapePair(l, Inferred(newShape, 1))
    ensures Reshape(Product(l), newShape).None?
  {
    var one := Inferred(newShape, 1);
    Sizes(l);
    ProdPositive(ShapeOf(l));
    if ProdOf(one) == Prod(ShapeOf(l)) {
      SameTarget(l, newShape, one);
    } else {
      OneIsRefused(l, newShape, one);
      SeveralAreRefused(l, newShape);
    }
  }

  lemma SeveralFit(dims: seq<int>, size: nat, d: int)
    requires !AtMostOneInferred(dims) && size > 0 && Natural(Inferred(dims, d)) && Prod(AsShape(Inferred(dims, d))) == size
    requires ProdOf(Inferred(dims, 1)) * d == size
    ensures d == 1
  {
    ProdOfShape(Inferred(dims, d), AsShape(Inferred(dims, d)));
    var p :| 0 <= p < |dims| && dims[p] == -1;
    assert Inferred(dims, d)[p] == d;
    FactorOf(size, ProdOf(Inferred(dims, 1)), d);
    forall i | 0 <= i < |dims|
      ensures Inferred(dims, 1)[i] >= 0
    {
      assert Inferred(dims, d)[i] >= 0;
    }
    if d >= 2 {
      SeveralTimes(dims, d);
    }
  }

  // ------------------------------------------------------------------- any dimensions

  lemma ReadAgain(dims: seq<int>, n: nat)
    requires GoodDims(dims, n)
    ensures var w: seq<int> := Read(dims, n); GoodDims(w, n) && WrappedDims(w, n) == WrappedDims(dims, n)
  {
    var w: seq<int> := Read(dims, n);
    assert WrappedDims(w, n) == WrappedDims(dims, n);
  }

  lemma PermuteAsRead(t: Tensor, dims: seq<int>, other: seq<int>)
    requires Valid(t) && |dims| == |other| && WrappedDims(dims, |t.shape|) == WrappedDims(other, |t.shape|)
    ensures Permute(t, dims) == Permute(t, other)
  {
  }

  /** The pair reads dimensions modulo their number: it takes exactly those that, once n is
      taken from every one that is not negative, the library takes and that keep the last
      dimension or turn a matrix over; the result is what the library makes of these.  The
      library takes the dimensions themselves only if none is too large. */
  lemma PermuteAnyDims(l: Pair, dims: seq<int>)
    requires IsPair(l) && Unit(l)
    ensures var n, d := |ShapeOf(l)|, FromEnd(dims, |ShapeOf(l)|);
            PermutePair(l, dims).Some? <==> GoodDims(d, n) && (Last(d) == -1 || d == [-1, -2])
    ensures PermutePair(l, dims).Some? ==>
              var m := PermutePair(l, dims).value;
              IsPair(m) && Unit(m) && Some(Product(m)) == Permute(Product(l), FromEnd(dims, |ShapeOf(l)|))
    ensures PermutePair(l, dims).Some? ==>
              (Permute(Product(l), dims).Some? <==> forall i :: 0 <= i < |dims| ==> dims[i] < |ShapeOf(l)|)
  {
    var n := |ShapeOf(l)|;
    var d := FromEnd(dims, n);
    if GoodDims(d, n) && (Last(d) == -1 || d == [-1, -2]) {
      var w: seq<int> := Read(d, n);
      ReadAgain(d, n);
      SameFromEnd(l, dims, w);
      PermuteMeans(l, w);
      PermuteAsRead(Product(l), w, d);
      InRangeOnly(dims, n);
    }
  }

  lemma SameFromEnd(l: Pair, dims: seq<int>, w: seq<int>)
    requires IsPair(l) && Unit(l) && GoodDims(FromEnd(dims, |ShapeOf(l)|), |ShapeOf(l)|)
    requires Last(FromEnd(dims, |ShapeOf(l)|)) == -1 || FromEnd(dims, |ShapeOf(l)|) == [-1, -2]
    requires w == Read(FromEnd(dims, |ShapeOf(l)|), |ShapeOf(l)|)
    ensures PermutePair(l, dims) == PermutePair(l, w)
  {
    var n := |ShapeOf(l)|;
    var d, e := FromEnd(dims, n), FromEnd(w, n);
    assert WrappedDims(e, n) == WrappedDims(d, n);
    if Last(d) == -1 {
      PermuteAsRead(l.b, d, e);
    } else {
      assert d == e;
    }
  }

  lemma InRangeOnly(dims: seq<int>, n: nat)
    requires GoodDims(FromEnd(dims, n), n)
    ensures GoodDims(dims, n) <==> forall i :: 0 <= i < |dims| ==> dims[i] < n
  {
    var d := FromEnd(dims, n);
    if forall i :: 0 <= i < |dims| ==> dims[i] < n {
      assert WrappedDims(dims, n) == WrappedDims(d, n);
    } else {
      var i :| 0 <= i < |dims| && dims[i] >= n;
      assert WrappedDims(dims, n)[i] == dims[i];
    }
  }
}
