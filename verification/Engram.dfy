/**
  The engram constants of DeepSeek-V4.1: hash multipliers, one prime for every layer, n-gram
  size and head, and the offsets of the table ranges those primes span.
 */
module Engram {
  import opened Arith
  import opened Primes

  // --------------------------------------------------------------------- the primes

  /** `s` is the list of the first |s| primes from `v` on, in ascending order. */
  ghost predicate FirstPrimes(s: seq<int>, v: int) {
    && (forall i :: 0 <= i < |s| ==> Prime(s[i]) && v <= s[i])
    && (forall i, j :: 0 <= i < j < |s| ==> s[i] < s[j])
    && (forall i, q :: 0 <= i < |s| && v <= q <= s[i] && Prime(q) ==> q in s)
  }

  /** The list is determined by its length. */
  lemma {:induction false} FirstPrimesUnique(s: seq<int>, t: seq<int>, v: int)
    requires FirstPrimes(s, v) && FirstPrimes(t, v) && |s| == |t|
    ensures s == t
  {
    if s != [] {
      var n := |s| - 1;
      FirstPrimesInit(s, v);
      FirstPrimesInit(t, v);
      FirstPrimesUnique(s[..n], t[..n], v);
      SameLast(s, t, v);
      SameEnd(s, t);
    }
  }

  lemma SameEnd(s: seq<int>, t: seq<int>)
    requires |s| == |t| > 0 && s[..|s| - 1] == t[..|t| - 1] && s[|s| - 1] == t[|t| - 1]
    ensures s == t
  {
    assert s == s[..|s| - 1] + [s[|s| - 1]] && t == t[..|t| - 1] + [t[|t| - 1]];
  }

  lemma SameLast(s: seq<int>, t: seq<int>, v: int)
    requires FirstPrimes(s, v) && FirstPrimes(t, v) && |s| == |t| > 0 && s[..|s| - 1] == t[..|t| - 1]
    ensures s[|s| - 1] == t[|t| - 1]
  {
    FirstPrimesInit(s, v);
    FirstPrimesInit(t, v);
  }

  lemma FirstPrimesInit(s: seq<int>, v: int)
    requires FirstPrimes(s, v) && s != []
    ensures var n := |s| - 1;
            && FirstPrimes(s[..n], v) && s[n] !in s[..n]
            && (forall q :: v <= q < s[n] && Prime(q) ==> q in s[..n])
  {
    var p := s[..|s| - 1];
    forall q | v <= q < s[|s| - 1] && Prime(q)
      ensures q in p
    {
      var j :| 0 <= j < |s| && s[j] == q;
      assert p[j] == q;
    }
    forall i, q | 0 <= i < |p| && v <= q <= p[i] && Prime(q)
      ensures q in p
    {
      var j :| 0 <= j < |s| && s[j] == q;
      assert s[i] < s[|s| - 1];
      assert p[j] == q;
    }
  }

  /** The least prime from `v` on that is not in the list continues it. */
  lemma FirstPrimesExtend(s: seq<int>, v: int, p: int)
    requires FirstPrimes(s, v) && Prime(p) && v <= p && p !in s
    requires forall q :: v <= q < p && Prime(q) ==> q in s
    ensures FirstPrimes(s + [p], v)
  {
    assert forall i :: 0 <= i < |s| ==> s[i] != p && (p < s[i] ==> p in s);
  }

  /** The next prime that no earlier bucket uses. */
  method NextUnused(current: int, seen: set<int>) returns (candidate: int)
    ensures candidate > current && Prime(candidate) && candidate !in seen
    ensures forall q :: current < q < candidate && Prime(q) ==> q in seen
  {
    candidate := current + 1;
    ghost var bound := BoundOf(seen);
    ghost var p := PrimeAbove(bound + if current < 0 then 0 else current + 1);
    while true
      invariant current < candidate <= p
      invariant forall q :: current < q < candidate && Prime(q) ==> q in seen
      decreases p - candidate
    {
      var prime := IsPrime(candidate);
      if prime && candidate !in seen {
        return;
      }
      assert candidate != p;
      candidate := candidate + 1;
    }
  }

  // --------------------------------------------------------------------- the offsets

  function Sum(s: seq<int>): int {
    if s == [] then 0 else Sum(s[..|s| - 1]) + s[|s| - 1]
  }

  /** The offsets of one layer: the running sums of its primes, and a lone 0 for no primes. */
  function Offsets(per: seq<int>): (o: seq<int>)
    ensures |o| == if per == [] then 1 else |per|
  {
    seq(if per == [] then 1 else |per|, k requires 0 <= k <= |per| => Sum(per[..k]))
  }

  method LayerOffsets(per: seq<int>, offsets: seq<int>) returns (extended: seq<int>)
    ensures extended == offsets + Offsets(per)
  {
    extended := offsets;
    var off := 0;
    var n := if per == [] then 0 else |per| - 1;
    for k := 0 to n
      invariant off == Sum(per[..k])
      invariant extended == offsets + Offsets(per)[..k]
    {
      extended := extended + [off];
      assert per[..k + 1][..k] == per[..k];
      off := off + per[k];
    }
    extended := extended + [off];
    assert Offsets(per)[..n] + [Sum(per[..n])] == Offsets(per);
  }

  /** The offsets of the first `layers` layers, whose primes are blocks of `width`. */
  function AllOffsets(primes: seq<int>, width: nat, layers: nat): (o: seq<int>)
    requires layers * width <= |primes|
  {
    if layers == 0 then []
    else
      Block(layers - 1, layers, width);
      AllOffsets(primes, width, layers - 1) + Offsets(primes[(layers - 1) * width..layers * width])
  }

  lemma Block(i: nat, n: nat, width: nat)
    requires i < n
    ensures (i + 1) * width == i * width + width && (i + 1) * width <= n * width
  {
    MulMonotone(i + 1, n, width);
  }

  lemma {:induction false} AllOffsetsOfPrefix(primes: seq<int>, more: seq<int>, width: nat, layers: nat)
    requires layers * width <= |primes|
    ensures layers * width <= |primes + more|
    ensures AllOffsets(primes + more, width, layers) == AllOffsets(primes, width, layers)
  {
    if layers > 0 {
      Block(layers - 1, layers, width);
      AllOffsetsOfPrefix(primes, more, width, layers - 1);
      assert (primes + more)[(layers - 1) * width..layers * width] == primes[(layers - 1) * width..layers * width];
    }
  }

  // ------------------------------------------------------------------- the generator

  function Count(n: int): nat {
    if n > 0 then n else 0
  }

  /** Part (c) of the generator, for `layers` engram layers.  The flattened primes are exactly
      the first primes from `vocab` on, across all layers, n-gram sizes and heads. */
  method PrimesAndOffsets(layers: nat, maxNgram: int, vocab: int, heads: int)
      returns (primes: seq<int>, offsets: seq<int>)
    ensures |primes| == layers * (Count(maxNgram - 1) * Count(heads))
    ensures FirstPrimes(primes, vocab)
    ensures offsets == AllOffsets(primes, Count(maxNgram - 1) * Count(heads), layers)
  {
    ghost var width := Count(maxNgram - 1) * Count(heads);
    var seen: set<int> := {};
    primes, offsets := [], [];
    for l := 0 to layers
      invariant |primes| == l * width && FirstPrimes(primes, vocab)
      invariant Records(seen, primes)
      invariant offsets == AllOffsets(primes, width, l)
    {
      var per;
      per, seen := LayerPrimes(maxNgram, vocab, heads, seen, primes);
      AllOffsetsOfPrefix(primes, per, width, l);
      Block(l, layers, width);
      assert (primes + per)[l * width..(l + 1) * width] == per;
      primes := primes + per;
      offsets := LayerOffsets(per, offsets);
    }
  }

  /** `seen` holds exactly the primes of the list. */
  ghost predicate Records(seen: set<int>, s: seq<int>) {
    forall p :: p in seen <==> p in s
  }

  lemma RecordsExtend(seen: set<int>, s: seq<int>, p: int)
    requires Records(seen, s)
    ensures Records(seen + {p}, s + [p])
  {
  }

  lemma OneMoreTimes(g: nat, n: nat)
    ensures (g + 1) * n == g * n + n
  {
  }

  method LayerPrimes(maxNgram: int, vocab: int, heads: int, seen: set<int>, ghost primes: seq<int>)
      returns (per: seq<int>, seen': set<int>)
    requires FirstPrimes(primes, vocab) && Records(seen, primes)
    ensures |per| == Count(maxNgram - 1) * Count(heads)
    ensures FirstPrimes(primes + per, vocab) && Records(seen', primes + per)
  {
    per, seen' := [], seen;
    assert primes + per == primes;
    for g := 0 to Count(maxNgram - 1)
      invariant |per| == g * Count(heads)
      invariant FirstPrimes(primes + per, vocab) && Records(seen', primes + per)
    {
      var group;
      group, seen' := GroupPrimes(vocab, heads, seen', primes + per);
      assert primes + (per + group) == (primes + per) + group;
      per := per + group;
      OneMoreTimes(g, Count(heads));
    }
  }

  /** The primes of one n-gram size: the search starts over at `vocab`. */
  method GroupPrimes(vocab: int, heads: int, seen: set<int>, ghost earlier: seq<int>)
      returns (group: seq<int>, seen': set<int>)
    requires FirstPrimes(earlier, vocab) && Records(seen, earlier)
    ensures |group| == Count(heads)
    ensures FirstPrimes(earlier + group, vocab) && Records(seen', earlier + group)
  {
    group, seen' := [], seen;
    assert earlier + group == earlier;
    var current := vocab - 1;
    for h := 0 to Count(heads)
      invariant |group| == h && vocab - 1 <= current
      invariant FirstPrimes(earlier + group, vocab) && Records(seen', earlier + group)
      invariant forall q :: vocab <= q <= current && Prime(q) ==> q in seen'
    {
      var candidate := NextUnused(current, seen');
      FirstPrimesExtend(earlier + group, vocab, candidate);
      RecordsExtend(seen', earlier + group, candidate);
      assert earlier + (group + [candidate]) == (earlier + group) + [candidate];
      seen' := seen' + {candidate};
      group := group + [candidate];
      current := candidate;
    }
  }

  // ------------------------------------------------------------- what the layout is for

  /** The table row that bucket `b` of a layer reads for a hash value. */
  function RowOf(per: seq<int>, b: nat, hash: nat): int
    requires b < |per| && per[b] > 0
  {
    hash % per[b] + Offsets(per)[b]
  }

  predicate AllPositive(per: seq<int>) {
    forall i :: 0 <= i < |per| ==> per[i] > 0
  }

  lemma {:induction false} SumsAscend(per: seq<int>, i: nat, j: nat)
    requires AllPositive(per) && i < j <= |per|
    ensures 0 <= Sum(per[..i]) && Sum(per[..i]) + per[i] <= Sum(per[..j])
    decreases j
  {
    assert per[..j][..j - 1] == per[..j - 1];
    if i < j - 1 {
      SumsAscend(per, i, j - 1);
    } else if i > 0 {
      SumsAscend(per, 0, i);
    }
  }

  /** The bucket whose range holds row `t`. */
  lemma {:induction false} BucketOf(per: seq<int>, n: nat, t: nat) returns (b: nat)
    requires AllPositive(per) && n <= |per| && t < Sum(per[..n])
    ensures b < n && Offsets(per)[b] <= t < Offsets(per)[b] + per[b]
    decreases n
  {
    assert per[..0] == [];
    assert per[..n][..n - 1] == per[..n - 1];
    if Sum(per[..n - 1]) <= t {
      b := n - 1;
    } else {
      b := BucketOf(per, n - 1, t);
    }
  }

  /** The ranges of a layer's buckets tile its table: rows of different buckets never meet,
      rows of one bucket meet only for equal residues, and all rows are inside. */
  lemma RangesTile(per: seq<int>)
    requires AllPositive(per)
    ensures forall b, h :: 0 <= b < |per| && 0 <= h ==> 0 <= RowOf(per, b, h) < Sum(per)
    ensures forall b, c, h, k :: 0 <= b < |per| && 0 <= c < |per| && 0 <= h && 0 <= k ==>
              (RowOf(per, b, h) == RowOf(per, c, k) <==> b == c && h % per[b] == k % per[b])
  {
    assert per[..|per|] == per;
    forall b, h | 0 <= b < |per| && 0 <= h
      ensures 0 <= RowOf(per, b, h) < Sum(per)
    {
      SumsAscend(per, b, |per|);
    }
    forall b, c, h, k | 0 <= b < |per| && 0 <= c < |per| && 0 <= h && 0 <= k
      ensures RowOf(per, b, h) == RowOf(per, c, k) <==> b == c && h % per[b] == k % per[b]
    {
      if b < c {
        SumsAscend(per, b, c);
      } else if c < b {
        SumsAscend(per, c, b);
      }
    }
  }

  /** Every row of the table belongs to a bucket; by `RangesTile`, to one only. */
  lemma RowHasBucket(per: seq<int>, t: nat) returns (b: nat)
    requires AllPositive(per) && t < Sum(per)
    ensures b < |per| && Offsets(per)[b] <= t && t == RowOf(per, b, t - Offsets(per)[b])
  {
    assert per[..|per|] == per;
    b := BucketOf(per, |per|, t);
  }

  /** Layer `l` of the written layout: its block of the primes and of the offsets. */
  function LayerOf(s: seq<int>, width: nat, layers: nat, l: nat): (per: seq<int>)
    requires |s| == layers * width && l < layers
    ensures |per| == width
  {
    Block(l, layers, width);
    s[l * width..(l + 1) * width]
  }

  lemma SliceOfConcat(a: seq<int>, b: seq<int>, i: nat, j: nat)
    requires i <= j <= |a|
    ensures (a + b)[i..j] == a[i..j]
  {
  }

  lemma SecondOfConcat(a: seq<int>, b: seq<int>)
    ensures (a + b)[|a|..|a| + |b|] == b
  {
  }

  /** The offsets of the first `n` layers, up to the last of them. */
  lemma OneMoreLayer(primes: seq<int>, width: nat, n: nat, start: nat, size: nat)
    requires n > 0 && width > 0 && start == (n - 1) * width && size == n * width <= |primes|
    ensures size == start + width && |AllOffsets(primes, width, n - 1)| == start && |Offsets(primes[start..size])| == width
    ensures AllOffsets(primes, width, n) == AllOffsets(primes, width, n - 1) + Offsets(primes[start..size])
  {
    OneMoreTimes(n - 1, width);
    OffsetLength(primes, width, n - 1);
  }

  lemma EarlierLayer(primes: seq<int>, width: nat, n: nat, from: nat, to: nat)
    requires n > 0 && width > 0 && 0 <= (n - 1) * width <= n * width <= |primes| && from <= to <= (n - 1) * width
    ensures to <= |AllOffsets(primes, width, n - 1)| && to <= |AllOffsets(primes, width, n)|
    ensures AllOffsets(primes, width, n)[from..to] == AllOffsets(primes, width, n - 1)[from..to]
  {
    var start, size := (n - 1) * width, n * width;
    OneMoreLayer(primes, width, n, start, size);
    SliceOfConcat(AllOffsets(primes, width, n - 1), Offsets(primes[start..size]), from, to);
  }

  lemma LastLayer(primes: seq<int>, width: nat, n: nat, from: nat, to: nat)
    requires n > 0 && width > 0 && from == (n - 1) * width && to == n * width && from <= to <= |primes|
    ensures |AllOffsets(primes, width, n)| == to
    ensures AllOffsets(primes, width, n)[from..to] == Offsets(primes[from..to])
  {
    OneMoreLayer(primes, width, n, from, to);
    SecondOfConcat(AllOffsets(primes, width, n - 1), Offsets(primes[from..to]));
  }

  /** The offsets written for layer `l`, at `from..to`, are those of the primes written for it. */
  lemma {:induction false} LayerOffsetsOf(primes: seq<int>, width: nat, n: nat, l: nat, from: nat, to: nat)
    requires width > 0 && l < n && n * width <= |primes| && from == l * width && to == (l + 1) * width
    ensures from <= to <= n * width == |AllOffsets(primes, width, n)|
    ensures AllOffsets(primes, width, n)[from..to] == Offsets(primes[from..to])
    decreases n
  {
    OneMoreTimes(l, width);
    MulMonotone(l + 1, n, width);
    OffsetLength(primes, width, n);
    if l < n - 1 {
      OneMoreTimes(n - 1, width);
      LayerOffsetsOf(primes, width, n - 1, l, from, to);
      EarlierLayer(primes, width, n, from, to);
    } else {
      LastLayer(primes, width, n, from, to);
    }
  }

  lemma LayerPositive(primes: seq<int>, vocab: int, width: nat, layers: nat, l: nat)
    requires FirstPrimes(primes, vocab) && |primes| == layers * width && l < layers
    ensures AllPositive(LayerOf(primes, width, layers, l))
  {
    var per := LayerOf(primes, width, layers, l);
    forall i | 0 <= i < |per|
      ensures per[i] > 0
    {
      Block(l, layers, width);
      assert per[i] == primes[l * width + i];
    }
  }

  /** The row that bucket `b` of layer `l` reads, from the written arrays. */
  function WrittenRow(primes: seq<int>, offsets: seq<int>, width: nat, layers: nat, l: nat, b: nat, hash: nat): int
    requires |primes| == |offsets| == layers * width && l < layers && b < width && LayerOf(primes, width, layers, l)[b] > 0
  {
    hash % LayerOf(primes, width, layers, l)[b] + LayerOf(offsets, width, layers, l)[b]
  }

  /** The written layout tiles every layer: with the arrays that the generator writes, the rows
      of a layer's buckets stay inside its table and meet only for one bucket and residue. */
  lemma WrittenLayoutTiles(primes: seq<int>, vocab: int, width: nat, layers: nat, l: nat)
    requires FirstPrimes(primes, vocab) && |primes| == layers * width && width > 0 && l < layers
    ensures |AllOffsets(primes, width, layers)| == |primes| && AllPositive(LayerOf(primes, width, layers, l))
    ensures var o, per := AllOffsets(primes, width, layers), LayerOf(primes, width, layers, l);
            && (forall b, h :: 0 <= b < width && 0 <= h ==> 0 <= WrittenRow(primes, o, width, layers, l, b, h) < Sum(per))
            && forall b, c, h, k :: 0 <= b < width && 0 <= c < width && 0 <= h && 0 <= k ==>
                 (WrittenRow(primes, o, width, layers, l, b, h) == WrittenRow(primes, o, width, layers, l, c, k) <==> b == c && h % per[b] == k % per[b])
  {
    var o, per := AllOffsets(primes, width, layers), LayerOf(primes, width, layers, l);
    LayerOffsetsOf(primes, width, layers, l, l * width, (l + 1) * width);
    LayerPositive(primes, vocab, width, layers, l);
    RangesTile(per);
    forall b, h | 0 <= b < width && 0 <= h
      ensures WrittenRow(primes, o, width, layers, l, b, h) == RowOf(per, b, h)
    {
    }
  }

  // ------------------------------------------------------------- what the loader accepts

  const LLAMA_MAX_LAYERS: nat := 512

  /** What the loader asks of the engram parameters before it reads the arrays. */
  predicate ParametersAccepted(layerIds: seq<nat>, modelLayers: nat, heads: int, maxNgram: int) {
    && 0 < |layerIds| <= LLAMA_MAX_LAYERS && heads > 0 && maxNgram >= 2
    && forall i :: 0 <= i < |layerIds| ==> layerIds[i] < modelLayers
  }

  /** The loader's checks of an engram layout, with the number of multipliers. */
  predicate LoaderAccepts(layerIds: seq<nat>, modelLayers: nat, heads: int, maxNgram: int, multipliers: nat, primes: seq<int>, offsets: seq<int>) {
    && ParametersAccepted(layerIds, modelLayers, heads, maxNgram)
    && multipliers == |layerIds| * maxNgram
    && |primes| == |layerIds| * ((maxNgram - 1) * heads) && |offsets| == |primes|
    && forall i :: 0 <= i < |primes| ==> primes[i] != 0
  }

  /** The arrays themselves are never refused. */
  lemma {:induction false} WrittenArraysLoad(layers: nat, heads: int, maxNgram: int, vocab: int, primes: seq<int>, width: nat)
    requires heads > 0 && maxNgram >= 2 && width == Count(maxNgram - 1) * Count(heads)
    requires FirstPrimes(primes, vocab) && |primes| == layers * width
    ensures |primes| == layers * ((maxNgram - 1) * heads) && |AllOffsets(primes, width, layers)| == |primes|
    ensures forall i :: 0 <= i < |primes| ==> primes[i] != 0
  {
    MulMonotone(1, maxNgram - 1, heads);
    OffsetCount(primes, width, layers);
  }

  /** The loader accepts what the generator writes exactly when it accepts the parameters. */
  lemma {:induction false} WrittenLayoutLoads(layerIds: seq<nat>, modelLayers: nat, heads: int, maxNgram: int, vocab: int, primes: seq<int>)
    requires FirstPrimes(primes, vocab) && |primes| == |layerIds| * (Count(maxNgram - 1) * Count(heads))
    ensures var offsets := AllOffsets(primes, Count(maxNgram - 1) * Count(heads), |layerIds|);
            LoaderAccepts(layerIds, modelLayers, heads, maxNgram, |layerIds| * Count(maxNgram), primes, offsets)
            <==> && 0 < |layerIds| <= 512 && heads > 0 && maxNgram >= 2
                 && forall i :: 0 <= i < |layerIds| ==> layerIds[i] < modelLayers
  {
    var width := Count(maxNgram - 1) * Count(heads);
    if heads > 0 && maxNgram >= 2 {
      WrittenArraysLoad(|layerIds|, heads, maxNgram, vocab, primes, width);
      WholeArraysLoad(layerIds, modelLayers, heads, maxNgram, |layerIds| * Count(maxNgram), primes, AllOffsets(primes, width, |layerIds|));
    }
  }

  lemma WholeArraysLoad(layerIds: seq<nat>, modelLayers: nat, heads: int, maxNgram: int, multipliers: nat, primes: seq<int>, offsets: seq<int>)
    requires multipliers == |layerIds| * maxNgram && |primes| == |layerIds| * ((maxNgram - 1) * heads) == |offsets|
    requires forall i :: 0 <= i < |primes| ==> primes[i] != 0
    ensures LoaderAccepts(layerIds, modelLayers, heads, maxNgram, multipliers, primes, offsets)
            <==> && 0 < |layerIds| <= 512 && heads > 0 && maxNgram >= 2
                 && forall i :: 0 <= i < |layerIds| ==> layerIds[i] < modelLayers
  {
  }

  /** As many offsets as primes are written exactly when there is no layer or every layer has a
      bucket: a layer without buckets still writes one offset. */
  lemma OffsetCount(primes: seq<int>, width: nat, layers: nat)
    requires |primes| == layers * width
    ensures |AllOffsets(primes, width, layers)| == |primes| <==> layers == 0 || width > 0
  {
    OffsetLength(primes, width, layers);
  }

  lemma {:induction false} OffsetLength(primes: seq<int>, width: nat, layers: nat)
    requires layers * width <= |primes|
    ensures |AllOffsets(primes, width, layers)| == layers * (if width == 0 then 1 else width)
  {
    if layers > 0 {
      Block(layers - 1, layers, width);
      OffsetLength(primes, width, layers - 1);
      assert layers * (if width == 0 then 1 else width)
          == (layers - 1) * (if width == 0 then 1 else width) + (if width == 0 then 1 else width);
    }
  }

  // ------------------------------------------------------------------ the multipliers

  const INT64_MAX: int := 0x7FFF_FFFF_FFFF_FFFF

  /** The bound below which the random values are drawn. */
  function MultiplierBound(compressedVocab: nat): int
    requires compressedVocab > 0
  {
    var b := INT64_MAX / compressedVocab / 2;
    if b > 1 then b else 1
  }

  function Multiplier(drawn: int): int {
    drawn * 2 + 1
  }

  /** Every multiplier is odd, and times any compressed token it stays within int64. */
  lemma MultipliersFit(compressedVocab: nat, drawn: int, token: nat)
    requires 0 < compressedVocab <= INT64_MAX && 0 <= drawn < MultiplierBound(compressedVocab) && token < compressedVocab
    ensures Multiplier(drawn) % 2 == 1 && 0 <= Multiplier(drawn) * token <= INT64_MAX
  {
    var q := INT64_MAX / compressedVocab;
    assert q * compressedVocab <= INT64_MAX;
    if q / 2 > 1 {
      assert Multiplier(drawn) <= q;
      MulMonotone(Multiplier(drawn), q, token);
      MulMonotone(token, compressedVocab, q);
    } else {
      assert Multiplier(drawn) == 1;
    }
  }

  /** The draws reach every odd number below twice the bound, each once. */
  lemma MultipliersCover(compressedVocab: nat, m: int)
    requires compressedVocab > 0
    ensures (exists drawn :: 0 <= drawn < MultiplierBound(compressedVocab) && Multiplier(drawn) == m)
            <==> m % 2 == 1 && 0 < m < 2 * MultiplierBound(compressedVocab)
  {
    if m % 2 == 1 && 0 < m < 2 * MultiplierBound(compressedVocab) {
      assert Multiplier(m / 2) == m;
    }
  }

  /** No larger bound would do: it is 1, or twice the bound fits, and twice the next does not. */
  lemma BoundIsLargest(compressedVocab: nat)
    requires 0 < compressedVocab
    ensures var b := MultiplierBound(compressedVocab);
            && (b == 1 || 2 * b * compressedVocab <= 0x7FFF_FFFF_FFFF_FFFF)
            && 2 * (b + 1) * compressedVocab > 0x7FFF_FFFF_FFFF_FFFF
  {
    var q, b := INT64_MAX / compressedVocab, MultiplierBound(compressedVocab);
    assert INT64_MAX == q * compressedVocab + INT64_MAX % compressedVocab;
    MulMonotone(q + 1, 2 * (b + 1), compressedVocab);
    MulMonotone(2 * b, q, compressedVocab);
  }

  /** The offsets of a layer in order: 0, and every next one further by the prime before it. */
  lemma RunningSums(per: seq<int>, b: nat)
    requires b < |per|
    ensures Offsets(per)[0] == 0
    ensures b + 1 < |per| ==> Offsets(per)[b + 1] == Offsets(per)[b] + per[b]
  {
    assert per[..0] == [];
    assert per[..b + 1][..b] == per[..b];
  }
}
