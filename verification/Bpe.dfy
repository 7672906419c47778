/**
  Byte pair encoding as the converter replays it to find the merge that makes each token.
 */
module Bpe {
  import opened Options

  type Byte = bv8
  type Bytes = seq<Byte>
  type Ranks = map<Bytes, int>

  predicate Below(rank: int, max: Option<int>) {
    max.None? || rank < max.value
  }

  /** A limit that lets through everything that `a` does. */
  predicate AtMost(a: Option<int>, b: Option<int>) {
    b.None? || (a.Some? && a.value <= b.value)
  }

  predicate Mergeable(ranks: Ranks, parts: seq<Bytes>, i: nat) {
    i + 1 < |parts| && parts[i] + parts[i + 1] in ranks
  }

  function PairRank(ranks: Ranks, parts: seq<Bytes>, i: nat): int
    requires Mergeable(ranks, parts, i)
  {
    ranks[parts[i] + parts[i + 1]]
  }

  /** Among the first `k` pairs, `i` is the first of the lowest rank. */
  predicate IsLowest(ranks: Ranks, parts: seq<Bytes>, k: nat, i: nat) {
    && i < k && Mergeable(ranks, parts, i)
    && (forall j :: 0 <= j < k && Mergeable(ranks, parts, j) ==> PairRank(ranks, parts, i) <= PairRank(ranks, parts, j))
    && (forall j :: 0 <= j < i && Mergeable(ranks, parts, j) ==> PairRank(ranks, parts, i) < PairRank(ranks, parts, j))
  }

  function Lowest(ranks: Ranks, parts: seq<Bytes>, k: nat): (best: Option<nat>)
    requires k < |parts| || k == 0
    ensures best.Some? ==> IsLowest(ranks, parts, k, best.value)
    ensures best.None? ==> forall j :: 0 <= j < k ==> !Mergeable(ranks, parts, j)
  {
    if k == 0 then None
    else
      var best := Lowest(ranks, parts, k - 1);
      if Mergeable(ranks, parts, k - 1)
         && (best.None? || PairRank(ranks, parts, k - 1) < PairRank(ranks, parts, best.value)) then Some(k - 1)
      else best
  }

  function Merge(parts: seq<Bytes>, i: nat): (r: seq<Bytes>)
    requires i + 1 < |parts|
    ensures |r| == |parts| - 1
  {
    parts[..i] + [parts[i] + parts[i + 1]] + parts[i + 2..]
  }

  /** The pair that the next round merges, if any. */
  function Next(ranks: Ranks, parts: seq<Bytes>, max: Option<int>): (i: Option<nat>)
    ensures i.Some? ==> Mergeable(ranks, parts, i.value) && Below(PairRank(ranks, parts, i.value), max)
    ensures i.None? ==> forall j :: 0 <= j < |parts| && Mergeable(ranks, parts, j) ==> !Below(PairRank(ranks, parts, j), max)
  {
    if |parts| < 2 then None
    else
      var best := Lowest(ranks, parts, |parts| - 1);
      if best.Some? && Below(PairRank(ranks, parts, best.value), max) then best else None
  }

  function Run(ranks: Ranks, parts: seq<Bytes>, max: Option<int>): seq<Bytes>
    decreases |parts|
  {
    var next := Next(ranks, parts, max);
    if next.None? then parts else Run(ranks, Merge(parts, next.value), max)
  }

  function Singles(token: Bytes): (parts: seq<Bytes>)
    ensures |parts| == |token| && forall i :: 0 <= i < |token| ==> parts[i] == [token[i]]
  {
    seq(|token|, i requires 0 <= i < |token| => [token[i]])
  }

  /** The loop over the pairs. */
  method LowestPair(ranks: Ranks, parts: seq<Bytes>) returns (minIdx: Option<nat>, minRank: Option<int>)
    ensures minIdx == if |parts| < 2 then None else Lowest(ranks, parts, |parts| - 1)
    ensures minRank == if minIdx.None? then None else Some(PairRank(ranks, parts, minIdx.value))
  {
    minIdx, minRank := None, None;
    var i := 0;
    while i + 1 < |parts|
      invariant i < |parts| || i == 0
      invariant minIdx == Lowest(ranks, parts, i)
      invariant minRank == if minIdx.None? then None else Some(PairRank(ranks, parts, minIdx.value))
    {
      var pair := parts[i] + parts[i + 1];
      if pair in ranks && (minRank.None? || ranks[pair] < minRank.value) {
        minIdx, minRank := Some(i), Some(ranks[pair]);
      }
      i := i + 1;
    }
  }

  method Encode(ranks: Ranks, token: Bytes, max: Option<int>) returns (parts: seq<Bytes>)
    ensures parts == Run(ranks, Singles(token), max)
  {
    parts := Singles(token);
    while true
      invariant Run(ranks, parts, max) == Run(ranks, Singles(token), max)
      decreases |parts|
    {
      var minIdx, minRank := LowestPair(ranks, parts);
      if minRank.None? || (max.Some? && minRank.value >= max.value) {
        break;
      }
      var i := minIdx.value;
      parts := parts[..i] + [parts[i] + parts[i + 1]] + parts[i + 2..];
    }
  }

  // -------------------------------------------------------------------- what a run keeps

  function Concat(parts: seq<Bytes>): Bytes {
    if parts == [] then [] else parts[0] + Concat(parts[1..])
  }

  lemma {:induction false} ConcatOf(a: seq<Bytes>, b: seq<Bytes>)
    ensures Concat(a + b) == Concat(a) + Concat(b)
  {
    if a == [] {
      assert a + b == b;
    } else {
      assert (a + b)[1..] == a[1..] + b;
      ConcatOf(a[1..], b);
      assert a[0] + (Concat(a[1..]) + Concat(b)) == (a[0] + Concat(a[1..])) + Concat(b);
    }
  }

  lemma ConcatShort(parts: seq<Bytes>)
    ensures |parts| == 0 ==> Concat(parts) == []
    ensures |parts| == 1 ==> Concat(parts) == parts[0]
    ensures |parts| == 2 ==> Concat(parts) == parts[0] + parts[1]
  {
    if |parts| == 2 {
      assert |parts[1..][1..]| == 0;
    } else if |parts| == 1 {
      assert |parts[1..]| == 0;
    }
  }

  lemma SameMiddle(a: seq<Bytes>, x: seq<Bytes>, y: seq<Bytes>, b: seq<Bytes>)
    requires Concat(x) == Concat(y)
    ensures Concat(a + x + b) == Concat(a + y + b)
  {
    ConcatOf(a + x, b);
    ConcatOf(a + y, b);
    ConcatOf(a, x);
    ConcatOf(a, y);
  }

  lemma ThreeParts(parts: seq<Bytes>, i: nat, j: nat)
    requires i <= j <= |parts|
    ensures parts == parts[..i] + parts[i..j] + parts[j..]
  {
  }

  lemma MergeKeepsBytes(parts: seq<Bytes>, i: nat)
    requires i + 1 < |parts|
    ensures Concat(Merge(parts, i)) == Concat(parts)
  {
    ConcatShort(parts[i..i + 2]);
    ConcatShort([parts[i] + parts[i + 1]]);
    SameMiddle(parts[..i], parts[i..i + 2], [parts[i] + parts[i + 1]], parts[i + 2..]);
    ThreeParts(parts, i, i + 2);
  }

  lemma {:induction false} SinglesConcat(token: Bytes)
    ensures Concat(Singles(token)) == token
  {
    if token != [] {
      SinglesConcat(token[1..]);
      assert Singles(token)[1..] == Singles(token[1..]);
      assert [token[0]] + token[1..] == token;
    }
  }

  /** Every part is one byte or an entry of the vocabulary ranked below the limit. */
  predicate Formed(ranks: Ranks, parts: seq<Bytes>, max: Option<int>) {
    forall i :: 0 <= i < |parts| ==> |parts[i]| == 1 || (|parts[i]| > 1 && parts[i] in ranks && Below(ranks[parts[i]], max))
  }

  predicate Settled(ranks: Ranks, parts: seq<Bytes>, max: Option<int>) {
    forall j :: 0 <= j < |parts| && Mergeable(ranks, parts, j) ==> !Below(PairRank(ranks, parts, j), max)
  }

  lemma MergeKeepsFormed(ranks: Ranks, parts: seq<Bytes>, max: Option<int>, i: nat)
    requires Formed(ranks, parts, max) && Mergeable(ranks, parts, i) && Below(PairRank(ranks, parts, i), max)
    ensures Formed(ranks, Merge(parts, i), max)
  {
    var r := Merge(parts, i);
    forall j | 0 <= j < |r|
      ensures |r[j]| == 1 || (|r[j]| > 1 && r[j] in ranks && Below(ranks[r[j]], max))
    {
      assert j < i ==> r[j] == parts[j];
      assert j > i ==> r[j] == parts[j + 1];
    }
  }

  /** A run keeps the bytes, forms only parts the limit allows and stops only when no adjacent
      pair can be merged any more. */
  lemma {:induction false} RunSettles(ranks: Ranks, parts: seq<Bytes>, max: Option<int>)
    requires Formed(ranks, parts, max)
    ensures Concat(Run(ranks, parts, max)) == Concat(parts)
    ensures Formed(ranks, Run(ranks, parts, max), max)
    ensures Settled(ranks, Run(ranks, parts, max), max)
    decreases |parts|
  {
    var next := Next(ranks, parts, max);
    if next.Some? {
      MergeKeepsBytes(parts, next.value);
      MergeKeepsFormed(ranks, parts, max, next.value);
      RunSettles(ranks, Merge(parts, next.value), max);
    }
  }

  lemma EncodingOfToken(ranks: Ranks, token: Bytes, max: Option<int>)
    ensures var parts := Run(ranks, Singles(token), max);
            Concat(parts) == token && Formed(ranks, parts, max) && Settled(ranks, parts, max)
  {
    RunSettles(ranks, Singles(token), max);
    SinglesConcat(token);
  }

  // -------------------------------------------------------------------------- bounded runs

  lemma NextUnderLargerLimit(ranks: Ranks, parts: seq<Bytes>, small: Option<int>, large: Option<int>)
    requires AtMost(small, large) && Next(ranks, parts, small).Some?
    ensures Next(ranks, parts, large) == Next(ranks, parts, small)
  {
  }

  /** A bounded run is the beginning of every run with a larger limit, or none: going on from
      where it stopped gives the same parts. */
  lemma {:induction false} RunContinues(ranks: Ranks, parts: seq<Bytes>, small: Option<int>, large: Option<int>)
    requires AtMost(small, large)
    ensures Run(ranks, Run(ranks, parts, small), large) == Run(ranks, parts, large)
    decreases |parts|
  {
    var next := Next(ranks, parts, small);
    if next.Some? {
      NextUnderLargerLimit(ranks, parts, small, large);
      RunContinues(ranks, Merge(parts, next.value), small, large);
    }
  }

  /** Bounded by its own rank, a token of several bytes is never put together completely. */
  lemma OwnRankLeavesTwo(ranks: Ranks, token: Bytes)
    requires token in ranks && |token| >= 2
    ensures |Run(ranks, Singles(token), Some(ranks[token]))| >= 2
  {
    var parts := Run(ranks, Singles(token), Some(ranks[token]));
    EncodingOfToken(ranks, token, Some(ranks[token]));
    ConcatShort(parts);
  }

  predicate DistinctRanks(ranks: Ranks) {
    forall a, b :: a in ranks && b in ranks && ranks[a] == ranks[b] ==> a == b
  }

  lemma {:induction false} NonEmptyParts(ranks: Ranks, parts: seq<Bytes>, max: Option<int>)
    requires Formed(ranks, parts, max)
    ensures |Concat(parts)| >= |parts|
  {
    if parts != [] {
      assert Formed(ranks, parts[1..], max);
      NonEmptyParts(ranks, parts[1..], max);
    }
  }

  lemma PartsAround(parts: seq<Bytes>, i: nat)
    requires i + 1 < |parts|
    ensures |Concat(parts)| == |Concat(parts[..i])| + |parts[i] + parts[i + 1]| + |Concat(parts[i + 2..])|
  {
    var pair := parts[i..i + 2];
    assert parts == parts[..i] + pair + parts[i + 2..];
    ConcatOf(parts[..i] + pair, parts[i + 2..]);
    ConcatOf(parts[..i], pair);
    ConcatShort(pair);
  }

  /** Two neighbours that make up all the bytes are all the parts. */
  lemma WholeInTwo(ranks: Ranks, parts: seq<Bytes>, max: Option<int>, i: nat)
    requires Formed(ranks, parts, max) && i + 1 < |parts| && Concat(parts) == parts[i] + parts[i + 1]
    ensures |parts| == 2
  {
    PartsAround(parts, i);
    NonEmptyParts(ranks, parts[..i], max);
    NonEmptyParts(ranks, parts[i + 2..], max);
  }

  lemma LastMerge(ranks: Ranks, parts: seq<Bytes>, token: Bytes)
    requires |parts| == 2 && Concat(parts) == token && token in ranks
    ensures Run(ranks, parts, Some(ranks[token] + 1)) == [token]
  {
    ConcatShort(parts);
    assert Mergeable(ranks, parts, 0);
    assert Merge(parts, 0) == [token];
  }

  lemma MadeOfTwo(ranks: Ranks, parts: seq<Bytes>, token: Bytes)
    requires token in ranks && DistinctRanks(ranks) && |parts| >= 2 && Concat(parts) == token
    requires Formed(ranks, parts, Some(ranks[token])) && Settled(ranks, parts, Some(ranks[token]))
    requires Run(ranks, parts, Some(ranks[token] + 1)) == [token]
    ensures |parts| == 2
  {
    var next := Next(ranks, parts, Some(ranks[token] + 1));
    assert next.Some?;
    assert PairRank(ranks, parts, next.value) == ranks[token];
    WholeInTwo(ranks, parts, Some(ranks[token]), next.value);
  }

  lemma TwoPartsIffMade(ranks: Ranks, parts: seq<Bytes>, token: Bytes)
    requires token in ranks && DistinctRanks(ranks) && |parts| >= 2 && Concat(parts) == token
    requires Formed(ranks, parts, Some(ranks[token])) && Settled(ranks, parts, Some(ranks[token]))
    ensures |parts| == 2 <==> Run(ranks, parts, Some(ranks[token] + 1)) == [token]
  {
    if |parts| == 2 {
      LastMerge(ranks, parts, token);
    }
    if Run(ranks, parts, Some(ranks[token] + 1)) == [token] {
      MadeOfTwo(ranks, parts, token);
    }
  }

  lemma OwnRun(ranks: Ranks, token: Bytes) returns (parts: seq<Bytes>)
    requires token in ranks && |token| >= 2
    ensures parts == Run(ranks, Singles(token), Some(ranks[token]))
    ensures |parts| >= 2 && Concat(parts) == token
    ensures Formed(ranks, parts, Some(ranks[token])) && Settled(ranks, parts, Some(ranks[token]))
    ensures Run(ranks, parts, Some(ranks[token] + 1)) == Run(ranks, Singles(token), Some(ranks[token] + 1))
  {
    parts := Run(ranks, Singles(token), Some(ranks[token]));
    EncodingOfToken(ranks, token, Some(ranks[token]));
    OwnRankLeavesTwo(ranks, token);
    RunContinues(ranks, Singles(token), Some(ranks[token]), Some(ranks[token] + 1));
  }

  /** The converter takes for granted that exactly two parts are left.  That holds exactly when
      the vocabulary can make the token at all with what is ranked up to it. */
  lemma TwoPartsIffReachable(ranks: Ranks, token: Bytes)
    requires token in ranks && |token| >= 2 && DistinctRanks(ranks)
    ensures |Run(ranks, Singles(token), Some(ranks[token]))| == 2 <==>
            Run(ranks, Singles(token), Some(ranks[token] + 1)) == [token]
  {
    var parts := OwnRun(ranks, token);
    TwoPartsIffMade(ranks, parts, token);
  }
}
