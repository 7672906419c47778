/**
  When every entry of a vocabulary comes out of `bpe` in two parts.

  The converter replays the encoding of every entry, bounded by its own rank, and takes the two
  parts left over for the merge that makes the entry.  A table says where every entry would be
  cut.  The main theorem decides by the ranks and the table alone, without encoding anything,
  whether these are the merges the replay finds: along every cut the two sides are taken apart
  in the order in which they were put together, and no pair that faces across the cut may be an
  entry that would have been merged earlier.
 */
module BpeTable {
  import opened Options
  import opened Bpe

  /** Where every entry of several bytes is cut in two. */
  type Table = map<Bytes, nat>

  predicate Lower(ranks: Ranks, p: Bytes, rank: int) {
    |p| == 1 || (|p| > 1 && p in ranks && ranks[p] < rank)
  }

  /** Both halves of an entry are single bytes or entries of lower rank. */
  predicate IsCut(ranks: Ranks, t: Table, e: Bytes) {
    e in ranks && |e| > 1 ==>
      e in t && 0 < t[e] < |e| && Lower(ranks, e[..t[e]], ranks[e]) && Lower(ranks, e[t[e]..], ranks[e])
  }

  ghost predicate IsTable(ranks: Ranks, t: Table) {
    [] !in ranks && forall e :: IsCut(ranks, t, e)
  }

  predicate Known(ranks: Ranks, p: Bytes) {
    |p| == 1 || (|p| > 1 && p in ranks)
  }

  function Left(ranks: Ranks, t: Table, p: Bytes): (l: Bytes)
    requires IsTable(ranks, t) && Known(ranks, p) && |p| > 1
    ensures Known(ranks, l) && 0 < |l| < |p| && Lower(ranks, l, ranks[p])
  {
    assert IsCut(ranks, t, p);
    p[..t[p]]
  }

  function Right(ranks: Ranks, t: Table, p: Bytes): (r: Bytes)
    requires IsTable(ranks, t) && Known(ranks, p) && |p| > 1
    ensures Known(ranks, r) && 0 < |r| < |p| && Lower(ranks, r, ranks[p]) && Left(ranks, t, p) + r == p
  {
    assert IsCut(ranks, t, p);
    p[t[p]..]
  }

  // ------------------------------------------------------------------- the local condition

  /** The merge that ends the time during which two parts face each other across a cut. */
  datatype Deadline = Deadline(rank: int, toTheRight: bool)

  /** A merge at the cut would come first: by its rank, or at equal rank by its place. */
  predicate ComesFirst(rank: int, d: Deadline) {
    rank < d.rank || (rank == d.rank && d.toTheRight)
  }

  /** Which side the cut is taken into next: the one whose own merge is the later. */
  predicate TakesRight(ranks: Ranks, x: Bytes, y: Bytes)
    requires Known(ranks, x) && Known(ranks, y)
  {
    |y| > 1 && (|x| == 1 || ranks[x] <= ranks[y])
  }

  /** Whether the parts `x` and `y` stay apart until the deadline, and before them the parts
      they were made of: the one made last is taken apart first. */
  predicate Apart(ranks: Ranks, t: Table, x: Bytes, y: Bytes, d: Deadline)
    requires IsTable(ranks, t) && Known(ranks, x) && Known(ranks, y)
    decreases |x| + |y|
  {
    && (x + y in ranks ==> !ComesFirst(ranks[x + y], d))
    && (if TakesRight(ranks, x, y) then Apart(ranks, t, x, Left(ranks, t, y), Deadline(ranks[y], true))
        else if |x| > 1 then Apart(ranks, t, Right(ranks, t, x), y, Deadline(ranks[x], false))
        else true)
  }

  predicate CutHolds(ranks: Ranks, t: Table, e: Bytes)
    requires IsTable(ranks, t) && e in ranks && |e| > 1
  {
    Apart(ranks, t, Left(ranks, t, e), Right(ranks, t, e), Deadline(ranks[e], false))
  }

  predicate HoldsFor(ranks: Ranks, t: Table, e: Bytes)
    requires IsTable(ranks, t)
  {
    e in ranks && |e| > 1 ==> CutHolds(ranks, t, e)
  }

  /** The sides of every cut stay apart. */
  ghost predicate Compatible(ranks: Ranks, t: Table)
    requires IsTable(ranks, t)
  {
    forall e :: HoldsFor(ranks, t, e)
  }

  predicate HoldsAt(ranks: Ranks, t: Table, size: nat, e: Bytes)
    requires IsTable(ranks, t)
  {
    |e| < size ==> HoldsFor(ranks, t, e)
  }

  /** The same for the entries of fewer than `size` bytes. */
  ghost predicate HoldsBelow(ranks: Ranks, t: Table, size: nat)
    requires IsTable(ranks, t)
  {
    forall e :: HoldsAt(ranks, t, size, e)
  }

  // -------------------------------------------------------------------- merges in order

  /** Merges happen by rank and, at equal rank, from left to right. */
  datatype Time = Start | At(rank: int, offset: nat)

  predicate Before(a: Time, b: Time) {
    b.At? && (a.Start? || a.rank < b.rank || (a.rank == b.rank && a.offset < b.offset))
  }

  function After(a: Time): (b: Time)
    requires a.At?
    ensures Before(a, b) && b.At?
  {
    At(a.rank, a.offset + 1)
  }

  predicate Formed(ranks: Ranks, p: Bytes, o: nat, now: Time)
    requires Known(ranks, p)
  {
    |p| == 1 || Before(At(ranks[p], o), now)
  }

  /** The parts of `p`, which starts at byte `o`, when everything due before `now` is merged. */
  function Cover(ranks: Ranks, t: Table, p: Bytes, o: nat, now: Time): (parts: seq<Bytes>)
    requires IsTable(ranks, t) && Known(ranks, p)
    ensures parts != []
    decreases |p|
  {
    if Formed(ranks, p, o, now) then [p]
    else
      var l, r := Left(ranks, t, p), Right(ranks, t, p);
      Cover(ranks, t, l, o, now) + Cover(ranks, t, r, o + |l|, now)
  }

  /** The first merge within `p` that is still to come. */
  function Least(ranks: Ranks, t: Table, p: Bytes, o: nat, now: Time): (first: Time)
    requires IsTable(ranks, t) && Known(ranks, p) && !Formed(ranks, p, o, now)
    ensures first.At? && !Before(first, now) && !Before(At(ranks[p], o), first)
    ensures o <= first.offset < o + |p|
    decreases |p|
  {
    var l, r := Left(ranks, t, p), Right(ranks, t, p);
    var m := o + |l|;
    if Formed(ranks, l, o, now) then
      if Formed(ranks, r, m, now) then At(ranks[p], o) else Least(ranks, t, r, m, now)
    else if Formed(ranks, r, m, now) then Least(ranks, t, l, o, now)
    else
      var a, b := Least(ranks, t, l, o, now), Least(ranks, t, r, m, now);
      if Before(b, a) then b else a
  }

  predicate Solid(parts: seq<Bytes>) {
    forall i :: 0 <= i < |parts| ==> |parts[i]| > 0
  }

  function OffsetOf(parts: seq<Bytes>, i: nat): nat
    requires i <= |parts|
  {
    |Concat(parts[..i])|
  }

  lemma OffsetNext(parts: seq<Bytes>, i: nat)
    requires i < |parts|
    ensures OffsetOf(parts, i + 1) == OffsetOf(parts, i) + |parts[i]|
  {
    assert parts[..i + 1] == parts[..i] + [parts[i]];
    ConcatOf(parts[..i], [parts[i]]);
    ConcatShort([parts[i]]);
  }

  lemma {:induction false} OffsetsAscend(parts: seq<Bytes>, i: nat, j: nat)
    requires Solid(parts) && i < j <= |parts|
    ensures OffsetOf(parts, i) < OffsetOf(parts, j)
    decreases j
  {
    OffsetNext(parts, j - 1);
    if i < j - 1 {
      OffsetsAscend(parts, i, j - 1);
    }
  }

  lemma OffsetInFirst(a: seq<Bytes>, b: seq<Bytes>, i: nat)
    requires i <= |a|
    ensures OffsetOf(a + b, i) == OffsetOf(a, i)
  {
    assert (a + b)[..i] == a[..i];
  }

  lemma OffsetInSecond(a: seq<Bytes>, b: seq<Bytes>, i: nat)
    requires i <= |b|
    ensures OffsetOf(a + b, |a| + i) == |Concat(a)| + OffsetOf(b, i)
  {
    assert (a + b)[..|a| + i] == a + b[..i];
    ConcatOf(a, b[..i]);
  }

  lemma {:induction false} CoverIs(ranks: Ranks, t: Table, p: Bytes, o: nat, now: Time)
    requires IsTable(ranks, t) && Known(ranks, p)
    ensures Concat(Cover(ranks, t, p, o, now)) == p && Solid(Cover(ranks, t, p, o, now))
    decreases |p|
  {
    if Formed(ranks, p, o, now) {
      ConcatShort([p]);
    } else {
      var l, r := Left(ranks, t, p), Right(ranks, t, p);
      CoverIs(ranks, t, l, o, now);
      CoverIs(ranks, t, r, o + |l|, now);
      ConcatOf(Cover(ranks, t, l, o, now), Cover(ranks, t, r, o + |l|, now));
    }
  }

  lemma {:induction false} CoverAtStart(ranks: Ranks, t: Table, p: Bytes, o: nat)
    requires IsTable(ranks, t) && Known(ranks, p)
    ensures Cover(ranks, t, p, o, Start) == Singles(p)
    decreases |p|
  {
    if |p| == 1 {
      assert p == [p[0]];
    } else {
      var l, r := Left(ranks, t, p), Right(ranks, t, p);
      CoverAtStart(ranks, t, l, o);
      CoverAtStart(ranks, t, r, o + |l|);
      SinglesOf(l, r);
    }
  }

  lemma SinglesOf(a: Bytes, b: Bytes)
    ensures Singles(a + b) == Singles(a) + Singles(b)
  {
  }

  // ------------------------------------------------------------------- time passing

  lemma LeastOfHalf(ranks: Ranks, t: Table, p: Bytes, o: nat, now: Time)
    requires IsTable(ranks, t) && Known(ranks, p) && !Formed(ranks, p, o, now)
    ensures var l, r := Left(ranks, t, p), Right(ranks, t, p);
            && (!Formed(ranks, l, o, now) ==> !Before(Least(ranks, t, l, o, now), Least(ranks, t, p, o, now)))
            && (!Formed(ranks, r, o + |l|, now) ==> !Before(Least(ranks, t, r, o + |l|, now), Least(ranks, t, p, o, now)))
  {
  }

  /** Within `p` nothing is merged from `now` until `then`. */
  predicate Rests(ranks: Ranks, t: Table, p: Bytes, o: nat, now: Time, later: Time)
    requires IsTable(ranks, t) && Known(ranks, p)
  {
    !Formed(ranks, p, o, now) ==> !Before(Least(ranks, t, p, o, now), later)
  }

  lemma RestsInHalves(ranks: Ranks, t: Table, p: Bytes, o: nat, now: Time, later: Time)
    requires IsTable(ranks, t) && Known(ranks, p) && !Formed(ranks, p, o, now) && Rests(ranks, t, p, o, now, later)
    ensures !Before(At(ranks[p], o), later)
    ensures var l, r := Left(ranks, t, p), Right(ranks, t, p);
            Rests(ranks, t, l, o, now, later) && Rests(ranks, t, r, o + |l|, now, later)
  {
    LeastOfHalf(ranks, t, p, o, now);
  }

  /** Nothing changes before the first merge still to come. */
  lemma {:induction false} SameCover(ranks: Ranks, t: Table, p: Bytes, o: nat, a: Time, b: Time)
    requires IsTable(ranks, t) && Known(ranks, p) && !Before(b, a) && Rests(ranks, t, p, o, a, b)
    ensures Cover(ranks, t, p, o, b) == Cover(ranks, t, p, o, a)
    decreases |p|
  {
    if !Formed(ranks, p, o, a) {
      var l, r := Left(ranks, t, p), Right(ranks, t, p);
      RestsInHalves(ranks, t, p, o, a, b);
      SameCover(ranks, t, l, o, a, b);
      SameCover(ranks, t, r, o + |l|, a, b);
    }
  }

  lemma MergeInFirst(a: seq<Bytes>, b: seq<Bytes>, i: nat)
    requires i + 1 < |a|
    ensures Merge(a + b, i) == Merge(a, i) + b
  {
  }

  lemma MergeInSecond(a: seq<Bytes>, b: seq<Bytes>, i: nat)
    requires i + 1 < |b|
    ensures Merge(a + b, |a| + i) == a + Merge(b, i)
  {
  }

  /** When a pair of adjacent parts would be merged. */
  function Due(ranks: Ranks, parts: seq<Bytes>, o: nat, i: nat): Time
    requires Mergeable(ranks, parts, i)
  {
    At(PairRank(ranks, parts, i), o + OffsetOf(parts, i))
  }

  lemma DueInFirst(ranks: Ranks, a: seq<Bytes>, b: seq<Bytes>, o: nat, i: nat)
    requires i + 1 < |a|
    ensures Mergeable(ranks, a + b, i) <==> Mergeable(ranks, a, i)
    ensures Mergeable(ranks, a, i) ==> Due(ranks, a + b, o, i) == Due(ranks, a, o, i)
  {
    OffsetInFirst(a, b, i);
  }

  lemma DueInSecond(ranks: Ranks, a: seq<Bytes>, b: seq<Bytes>, o: nat, i: nat)
    requires i < |b|
    ensures Mergeable(ranks, a + b, |a| + i) <==> Mergeable(ranks, b, i)
    ensures Mergeable(ranks, b, i) ==> Due(ranks, a + b, o, |a| + i) == Due(ranks, b, o + |Concat(a)|, i)
  {
    OffsetInSecond(a, b, i);
    assert (a + b)[|a| + i] == b[i];
    if i + 1 < |b| {
      assert (a + b)[|a| + i + 1] == b[i + 1];
    }
  }

  lemma DueAtCut(ranks: Ranks, a: seq<Bytes>, b: seq<Bytes>, o: nat)
    requires a != [] && b != []
    ensures var i := |a| - 1;
            && (Mergeable(ranks, a + b, i) <==> a[i] + b[0] in ranks)
            && |Concat(a)| >= |a[i]|
            && (Mergeable(ranks, a + b, i) ==> Due(ranks, a + b, o, i) == At(ranks[a[i] + b[0]], o + |Concat(a)| - |a[i]|))
  {
    var i := |a| - 1;
    OffsetNext(a, i);
    assert a[..i + 1] == a;
    OffsetInFirst(a, b, i);
  }

  /** Merging pair `i` is what is due at time `first`, and leads to `next`. */
  predicate Merges(ranks: Ranks, parts: seq<Bytes>, o: nat, i: nat, first: Time, next: seq<Bytes>) {
    Mergeable(ranks, parts, i) && Due(ranks, parts, o, i) == first && Merge(parts, i) == next
  }

  lemma MergesInFirst(ranks: Ranks, a: seq<Bytes>, b: seq<Bytes>, o: nat, i: nat, first: Time, next: seq<Bytes>)
    requires Merges(ranks, a, o, i, first, next)
    ensures Merges(ranks, a + b, o, i, first, next + b)
  {
    DueInFirst(ranks, a, b, o, i);
    MergeInFirst(a, b, i);
  }

  lemma MergesInSecond(ranks: Ranks, a: seq<Bytes>, b: seq<Bytes>, o: nat, i: nat, first: Time, next: seq<Bytes>)
    requires Merges(ranks, b, o + |Concat(a)|, i, first, next)
    ensures Merges(ranks, a + b, o, |a| + i, first, a + next)
  {
    DueInSecond(ranks, a, b, o, i);
    MergeInSecond(a, b, i);
  }

  lemma HalvesMerge(ranks: Ranks, l: Bytes, r: Bytes, o: nat)
    requires l + r in ranks
    ensures Merges(ranks, [l] + [r], o, 0, At(ranks[l + r], o), [l + r])
  {
    assert ([l] + [r])[..0] == [];
  }

  lemma StillOpen(ranks: Ranks, t: Table, p: Bytes, o: nat, first: Time)
    requires IsTable(ranks, t) && Known(ranks, p) && |p| > 1 && first.At? && first.rank < ranks[p]
    ensures !Formed(ranks, p, o, After(first))
  {
  }

  /** The half `h` at `o` holds the first merge, and the other half nothing before it passes. */
  predicate HoldsFirst(ranks: Ranks, t: Table, h: Bytes, o: nat, other: Bytes, oo: nat, now: Time, first: Time)
    requires IsTable(ranks, t) && Known(ranks, h) && Known(ranks, other)
  {
    !Formed(ranks, h, o, now) && Least(ranks, t, h, o, now) == first && Rests(ranks, t, other, oo, now, After(first))
  }

  /** Where the first merge still to come is when a half is not yet formed. */
  lemma LeastIn(ranks: Ranks, t: Table, p: Bytes, o: nat, now: Time, l: Bytes, r: Bytes) returns (first: Time)
    requires IsTable(ranks, t) && Known(ranks, p) && !Formed(ranks, p, o, now) && l == Left(ranks, t, p) && r == Right(ranks, t, p)
    requires !Formed(ranks, l, o, now) || !Formed(ranks, r, o + |l|, now)
    ensures first == Least(ranks, t, p, o, now) && first.rank < ranks[p]
    ensures HoldsFirst(ranks, t, l, o, r, o + |l|, now, first) || HoldsFirst(ranks, t, r, o + |l|, l, o, now, first)
  {
    first := Least(ranks, t, p, o, now);
  }

  predicate IsLeastPair(ranks: Ranks, t: Table, p: Bytes, o: nat, now: Time, i: nat)
    requires IsTable(ranks, t) && Known(ranks, p) && !Formed(ranks, p, o, now)
  {
    var first := Least(ranks, t, p, o, now);
    Merges(ranks, Cover(ranks, t, p, o, now), o, i, first, Cover(ranks, t, p, o, After(first)))
  }

  /** The same with the parts of both halves given. */
  lemma PairInFirst(ranks: Ranks, t: Table, p: Bytes, o: nat, now: Time, i: nat, a: seq<Bytes>, b: seq<Bytes>, next: seq<Bytes>)
    requires IsTable(ranks, t) && Known(ranks, p) && !Formed(ranks, p, o, now)
    requires var first := Least(ranks, t, p, o, now);
             Cover(ranks, t, p, o, now) == a + b && Cover(ranks, t, p, o, After(first)) == next + b && Merges(ranks, a, o, i, first, next)
    ensures IsLeastPair(ranks, t, p, o, now, i)
  {
    MergesInFirst(ranks, a, b, o, i, Least(ranks, t, p, o, now), next);
  }

  lemma PairInSecond(ranks: Ranks, t: Table, p: Bytes, o: nat, now: Time, i: nat, a: seq<Bytes>, b: seq<Bytes>, next: seq<Bytes>, m: nat)
    requires IsTable(ranks, t) && Known(ranks, p) && !Formed(ranks, p, o, now) && m == o + |Concat(a)|
    requires var first := Least(ranks, t, p, o, now);
             Cover(ranks, t, p, o, now) == a + b && Cover(ranks, t, p, o, After(first)) == a + next && Merges(ranks, b, m, i, first, next)
    ensures IsLeastPair(ranks, t, p, o, now, |a| + i)
  {
    MergesInSecond(ranks, a, b, o, i, Least(ranks, t, p, o, now), next);
  }

  lemma CoverHalves(ranks: Ranks, t: Table, p: Bytes, o: nat, now: Time, l: Bytes, r: Bytes)
    requires IsTable(ranks, t) && Known(ranks, p) && !Formed(ranks, p, o, now) && l == Left(ranks, t, p) && r == Right(ranks, t, p)
    ensures Cover(ranks, t, p, o, now) == Cover(ranks, t, l, o, now) + Cover(ranks, t, r, o + |l|, now)
  {
  }

  /** The parts of the two halves before and after the first merge, which is in `h`. */
  lemma HalvesAround(ranks: Ranks, t: Table, h: Bytes, o: nat, other: Bytes, oo: nat, now: Time, first: Time, i: nat)
    requires IsTable(ranks, t) && Known(ranks, h) && Known(ranks, other)
    requires HoldsFirst(ranks, t, h, o, other, oo, now, first) && IsLeastPair(ranks, t, h, o, now, i)
    ensures Merges(ranks, Cover(ranks, t, h, o, now), o, i, first, Cover(ranks, t, h, o, After(first)))
    ensures Cover(ranks, t, other, oo, After(first)) == Cover(ranks, t, other, oo, now)
  {
    SameCover(ranks, t, other, oo, now, After(first));
  }

  /** The parts of an entry before and after its first merge, when that is in the left half. */
  lemma PartsInLeft(ranks: Ranks, t: Table, p: Bytes, o: nat, now: Time, i: nat, first: Time, l: Bytes, r: Bytes, m: nat)
      returns (a: seq<Bytes>, b: seq<Bytes>, next: seq<Bytes>)
    requires IsTable(ranks, t) && Known(ranks, p) && !Formed(ranks, p, o, now) && first.At? && first.rank < ranks[p]
    requires l == Left(ranks, t, p) && r == Right(ranks, t, p) && m == o + |l|
    requires HoldsFirst(ranks, t, l, o, r, m, now, first) && IsLeastPair(ranks, t, l, o, now, i)
    ensures Cover(ranks, t, p, o, now) == a + b && Cover(ranks, t, p, o, After(first)) == next + b && Merges(ranks, a, o, i, first, next)
  {
    StillOpen(ranks, t, p, o, first);
    CoverHalves(ranks, t, p, o, now, l, r);
    CoverHalves(ranks, t, p, o, After(first), l, r);
    HalvesAround(ranks, t, l, o, r, m, now, first, i);
    a, b, next := Cover(ranks, t, l, o, now), Cover(ranks, t, r, m, now), Cover(ranks, t, l, o, After(first));
  }

  lemma PartsInRight(ranks: Ranks, t: Table, p: Bytes, o: nat, now: Time, i: nat, first: Time, l: Bytes, r: Bytes, m: nat)
      returns (a: seq<Bytes>, b: seq<Bytes>, next: seq<Bytes>)
    requires IsTable(ranks, t) && Known(ranks, p) && !Formed(ranks, p, o, now) && first.At? && first.rank < ranks[p]
    requires l == Left(ranks, t, p) && r == Right(ranks, t, p) && m == o + |l|
    requires HoldsFirst(ranks, t, r, m, l, o, now, first) && IsLeastPair(ranks, t, r, m, now, i)
    ensures Cover(ranks, t, p, o, now) == a + b && Cover(ranks, t, p, o, After(first)) == a + next && Merges(ranks, b, m, i, first, next)
    ensures m == o + |Concat(a)|
  {
    StillOpen(ranks, t, p, o, first);
    CoverHalves(ranks, t, p, o, now, l, r);
    CoverHalves(ranks, t, p, o, After(first), l, r);
    HalvesAround(ranks, t, r, m, l, o, now, first, i);
    CoverIs(ranks, t, l, o, now);
    a, b, next := Cover(ranks, t, l, o, now), Cover(ranks, t, r, m, now), Cover(ranks, t, r, m, After(first));
  }

  lemma LeastPairInLeft(ranks: Ranks, t: Table, p: Bytes, o: nat, now: Time, i: nat, first: Time, l: Bytes, r: Bytes, m: nat)
    requires IsTable(ranks, t) && Known(ranks, p) && !Formed(ranks, p, o, now) && first == Least(ranks, t, p, o, now) && first.rank < ranks[p]
    requires l == Left(ranks, t, p) && r == Right(ranks, t, p) && m == o + |l|
    requires HoldsFirst(ranks, t, l, o, r, m, now, first) && IsLeastPair(ranks, t, l, o, now, i)
    ensures IsLeastPair(ranks, t, p, o, now, i)
  {
    var a, b, next := PartsInLeft(ranks, t, p, o, now, i, first, l, r, m);
    PairInFirst(ranks, t, p, o, now, i, a, b, next);
  }

  lemma LeastPairInRight(ranks: Ranks, t: Table, p: Bytes, o: nat, now: Time, j: nat, first: Time, l: Bytes, r: Bytes, m: nat) returns (i: nat)
    requires IsTable(ranks, t) && Known(ranks, p) && !Formed(ranks, p, o, now) && first == Least(ranks, t, p, o, now) && first.rank < ranks[p]
    requires l == Left(ranks, t, p) && r == Right(ranks, t, p) && m == o + |l|
    requires HoldsFirst(ranks, t, r, m, l, o, now, first) && IsLeastPair(ranks, t, r, m, now, j)
    ensures IsLeastPair(ranks, t, p, o, now, i)
  {
    var a, b, next := PartsInRight(ranks, t, p, o, now, j, first, l, r, m);
    PairInSecond(ranks, t, p, o, now, j, a, b, next, m);
    i := |a| + j;
  }

  lemma LeastPairOfHalves(ranks: Ranks, t: Table, p: Bytes, o: nat, now: Time)
    requires IsTable(ranks, t) && Known(ranks, p) && !Formed(ranks, p, o, now)
    requires Formed(ranks, Left(ranks, t, p), o, now) && Formed(ranks, Right(ranks, t, p), o + |Left(ranks, t, p)|, now)
    ensures IsLeastPair(ranks, t, p, o, now, 0) && Least(ranks, t, p, o, now) == At(ranks[p], o)
    ensures Cover(ranks, t, p, o, now) == [Left(ranks, t, p), Right(ranks, t, p)]
  {
    HalvesMerge(ranks, Left(ranks, t, p), Right(ranks, t, p), o);
  }

  /** The first merge still to come is a pair of adjacent parts, and doing it passes its time. */
  lemma {:induction false} LeastPair(ranks: Ranks, t: Table, p: Bytes, o: nat, now: Time) returns (i: nat)
    requires IsTable(ranks, t) && Known(ranks, p) && !Formed(ranks, p, o, now)
    ensures IsLeastPair(ranks, t, p, o, now, i)
    decreases |p|
  {
    var l, r := Left(ranks, t, p), Right(ranks, t, p);
    if Formed(ranks, l, o, now) && Formed(ranks, r, o + |l|, now) {
      i := 0;
      LeastPairOfHalves(ranks, t, p, o, now);
    } else {
      var first := LeastIn(ranks, t, p, o, now, l, r);
      if HoldsFirst(ranks, t, l, o, r, o + |l|, now, first) {
        i := LeastPair(ranks, t, l, o, now);
        LeastPairInLeft(ranks, t, p, o, now, i, first, l, r, o + |l|);
      } else {
        var j := LeastPair(ranks, t, r, o + |l|, now);
        i := LeastPairInRight(ranks, t, p, o, now, j, first, l, r, o + |l|);
      }
    }
  }

  // ------------------------------------------------------------------- across a cut

  function LastOf(parts: seq<Bytes>): Bytes
    requires parts != []
  {
    parts[|parts| - 1]
  }

  lemma LastOfCover(ranks: Ranks, t: Table, p: Bytes, o: nat, now: Time)
    requires IsTable(ranks, t) && Known(ranks, p) && !Formed(ranks, p, o, now)
    ensures var l, r := Left(ranks, t, p), Right(ranks, t, p);
            && LastOf(Cover(ranks, t, p, o, now)) == LastOf(Cover(ranks, t, r, o + |l|, now))
            && Cover(ranks, t, p, o, now)[0] == Cover(ranks, t, l, o, now)[0]
  {
  }

  /** The merge at a cut, when the parts that face each other there are an entry. */
  function AtCut(ranks: Ranks, x: Bytes, y: Bytes, m: nat): Time
    requires x + y in ranks && |x| <= m
  {
    At(ranks[x + y], m - |x|)
  }

  lemma LaterIsOpen(ranks: Ranks, x: Bytes, ox: nat, y: Bytes, m: nat, now: Time)
    requires Known(ranks, x) && Known(ranks, y) && ox < m && !(Formed(ranks, x, ox, now) && Formed(ranks, y, m, now))
    ensures if TakesRight(ranks, x, y) then !Formed(ranks, y, m, now) else |x| > 1 && !Formed(ranks, x, ox, now)
  {
  }

  /** The pair that faces each other across the cut at byte `m` is not due before `bound`. */
  predicate NotDue(ranks: Ranks, u: Bytes, v: Bytes, m: nat, bound: Time) {
    |u| <= m && (u + v in ranks ==> !Before(AtCut(ranks, u, v, m), bound))
  }

  /** The deadline stands for the time `due`, when that is not before `bound`. */
  predicate IsDeadline(d: Deadline, ox: nat, due: Time, bound: Time) {
    due.At? && d.rank == due.rank && (d.toTheRight <==> ox < due.offset) && !Before(due, bound)
  }

  lemma FacingFormed(ranks: Ranks, t: Table, x: Bytes, ox: nat, y: Bytes, d: Deadline, due: Time, now: Time, bound: Time)
    requires IsTable(ranks, t) && Known(ranks, x) && Known(ranks, y) && Apart(ranks, t, x, y, d) && IsDeadline(d, ox, due, bound)
    requires Formed(ranks, x, ox, now) && Formed(ranks, y, ox + |x|, now)
    ensures NotDue(ranks, LastOf(Cover(ranks, t, x, ox, now)), Cover(ranks, t, y, ox + |x|, now)[0], ox + |x|, bound)
  {
  }

  lemma RightTakenApart(ranks: Ranks, t: Table, x: Bytes, ox: nat, y: Bytes, m: nat, d: Deadline, now: Time, bound: Time) returns (l: Bytes)
    requires IsTable(ranks, t) && Known(ranks, x) && Known(ranks, y) && Apart(ranks, t, x, y, d) && ox < m
    requires TakesRight(ranks, x, y) && !Formed(ranks, y, m, now) && Rests(ranks, t, y, m, now, bound)
    ensures Known(ranks, l) && |l| < |y| && Apart(ranks, t, x, l, Deadline(ranks[y], true))
    ensures IsDeadline(Deadline(ranks[y], true), ox, At(ranks[y], m), bound) && Rests(ranks, t, l, m, now, bound)
    ensures Cover(ranks, t, y, m, now)[0] == Cover(ranks, t, l, m, now)[0]
  {
    l := Left(ranks, t, y);
    LastOfCover(ranks, t, y, m, now);
    RestsInHalves(ranks, t, y, m, now, bound);
  }

  lemma LeftTakenApart(ranks: Ranks, t: Table, x: Bytes, ox: nat, y: Bytes, d: Deadline, now: Time, bound: Time) returns (r: Bytes, o: nat)
    requires IsTable(ranks, t) && Known(ranks, x) && Known(ranks, y) && Apart(ranks, t, x, y, d)
    requires |x| > 1 && !TakesRight(ranks, x, y) && !Formed(ranks, x, ox, now) && Rests(ranks, t, x, ox, now, bound)
    ensures Known(ranks, r) && |r| < |x| && o + |r| == ox + |x| && Apart(ranks, t, r, y, Deadline(ranks[x], false))
    ensures IsDeadline(Deadline(ranks[x], false), o, At(ranks[x], ox), bound) && Rests(ranks, t, r, o, now, bound)
    ensures LastOf(Cover(ranks, t, x, ox, now)) == LastOf(Cover(ranks, t, r, o, now))
  {
    r, o := Right(ranks, t, x), ox + |Left(ranks, t, x)|;
    LastOfCover(ranks, t, x, ox, now);
    RestsInHalves(ranks, t, x, ox, now, bound);
  }

  /** Taking the sides apart finds every pair that ever faces the other across the cut: while
      they face each other, their merge is not due before the first merge within the sides. */
  lemma {:induction false} Facing(ranks: Ranks, t: Table, x: Bytes, ox: nat, y: Bytes, d: Deadline, due: Time, now: Time, bound: Time, u: Bytes, v: Bytes)
    requires IsTable(ranks, t) && Known(ranks, x) && Known(ranks, y) && Apart(ranks, t, x, y, d) && IsDeadline(d, ox, due, bound)
    requires Rests(ranks, t, x, ox, now, bound) && Rests(ranks, t, y, ox + |x|, now, bound)
    requires u == LastOf(Cover(ranks, t, x, ox, now)) && v == Cover(ranks, t, y, ox + |x|, now)[0]
    ensures NotDue(ranks, u, v, ox + |x|, bound)
    decreases |x| + |y|
  {
    var m := ox + |x|;
    if Formed(ranks, x, ox, now) && Formed(ranks, y, m, now) {
      FacingFormed(ranks, t, x, ox, y, d, due, now, bound);
    } else {
      LaterIsOpen(ranks, x, ox, y, m, now);
      if TakesRight(ranks, x, y) {
        var l := RightTakenApart(ranks, t, x, ox, y, m, d, now, bound);
        Facing(ranks, t, x, ox, l, Deadline(ranks[y], true), At(ranks[y], m), now, bound, u, v);
      } else {
        var r, o := LeftTakenApart(ranks, t, x, ox, y, d, now, bound);
        Facing(ranks, t, r, o, y, Deadline(ranks[x], false), At(ranks[x], ox), now, bound, u, v);
      }
    }
  }

  // ------------------------------------------------------------------- no pair comes earlier

  /** No pair of adjacent parts is due before `bound`. */
  ghost predicate NoneDue(ranks: Ranks, parts: seq<Bytes>, o: nat, bound: Time) {
    forall j :: Mergeable(ranks, parts, j) ==> !Before(Due(ranks, parts, o, j), bound)
  }

  /** None but the pair `k`. */
  ghost predicate NoneDueBut(ranks: Ranks, parts: seq<Bytes>, o: nat, bound: Time, k: nat) {
    forall j :: Mergeable(ranks, parts, j) && j != k ==> !Before(Due(ranks, parts, o, j), bound)
  }

  lemma NoneDueInBoth(ranks: Ranks, a: seq<Bytes>, b: seq<Bytes>, o: nat, bound: Time)
    requires a != [] && b != [] && NoneDue(ranks, a, o, bound) && NoneDue(ranks, b, o + |Concat(a)|, bound)
    ensures NoneDueBut(ranks, a + b, o, bound, |a| - 1)
  {
    forall j: nat | Mergeable(ranks, a + b, j) && j != |a| - 1
      ensures !Before(Due(ranks, a + b, o, j), bound)
    {
      if j < |a| - 1 {
        DueInFirst(ranks, a, b, o, j);
      } else {
        DueInSecond(ranks, a, b, o, j - |a|);
      }
    }
  }

  lemma NoneDueAtCut(ranks: Ranks, a: seq<Bytes>, b: seq<Bytes>, o: nat, bound: Time)
    requires a != [] && b != [] && NoneDueBut(ranks, a + b, o, bound, |a| - 1)
    requires NotDue(ranks, LastOf(a), b[0], o + |Concat(a)|, bound)
    ensures NoneDue(ranks, a + b, o, bound)
  {
    DueAtCut(ranks, a, b, o);
  }

  lemma SinglePartRests(ranks: Ranks, p: Bytes, o: nat, bound: Time)
    ensures NoneDue(ranks, [p], o, bound)
  {
  }

  lemma NoneDueWithin(ranks: Ranks, t: Table, p: Bytes, o: nat, now: Time, size: nat, bound: Time)
    requires IsTable(ranks, t) && Known(ranks, p) && HoldsBelow(ranks, t, size) && |p| < size
    requires Rests(ranks, t, p, o, now, bound)
    ensures NoneDue(ranks, Cover(ranks, t, p, o, now), o, bound)
    decreases |p|, 1
  {
    if Formed(ranks, p, o, now) {
      SinglePartRests(ranks, p, o, bound);
    } else {
      NoneDueElsewhere(ranks, t, p, o, now, size, bound);
      CutNotDue(ranks, t, p, o, now, size, bound);
      var l, r := Left(ranks, t, p), Right(ranks, t, p);
      CoverIs(ranks, t, l, o, now);
      NoneDueAtCut(ranks, Cover(ranks, t, l, o, now), Cover(ranks, t, r, o + |l|, now), o, bound);
    }
  }

  /** Within an entry whose halves are cut right only the pair at its own cut may come early. */
  lemma NoneDueElsewhere(ranks: Ranks, t: Table, p: Bytes, o: nat, now: Time, size: nat, bound: Time)
    requires IsTable(ranks, t) && Known(ranks, p) && HoldsBelow(ranks, t, size) && |p| <= size
    requires !Formed(ranks, p, o, now) && Rests(ranks, t, p, o, now, bound)
    ensures NoneDueBut(ranks, Cover(ranks, t, p, o, now), o, bound, |Cover(ranks, t, Left(ranks, t, p), o, now)| - 1)
    decreases |p|, 0
  {
    var l, r := Left(ranks, t, p), Right(ranks, t, p);
    RestsInHalves(ranks, t, p, o, now, bound);
    NoneDueWithin(ranks, t, l, o, now, size, bound);
    NoneDueWithin(ranks, t, r, o + |l|, now, size, bound);
    NoneDueInHalves(ranks, t, p, o, now, bound, l, r);
  }

  lemma NoneDueInHalves(ranks: Ranks, t: Table, p: Bytes, o: nat, now: Time, bound: Time, l: Bytes, r: Bytes)
    requires IsTable(ranks, t) && Known(ranks, p) && !Formed(ranks, p, o, now) && l == Left(ranks, t, p) && r == Right(ranks, t, p)
    requires NoneDue(ranks, Cover(ranks, t, l, o, now), o, bound) && NoneDue(ranks, Cover(ranks, t, r, o + |l|, now), o + |l|, bound)
    ensures NoneDueBut(ranks, Cover(ranks, t, p, o, now), o, bound, |Cover(ranks, t, l, o, now)| - 1)
  {
    CoverIs(ranks, t, l, o, now);
    CoverHalves(ranks, t, p, o, now, l, r);
    NoneDueInBoth(ranks, Cover(ranks, t, l, o, now), Cover(ranks, t, r, o + |l|, now), o, bound);
  }

  lemma CutNotDue(ranks: Ranks, t: Table, p: Bytes, o: nat, now: Time, size: nat, bound: Time)
    requires IsTable(ranks, t) && Known(ranks, p) && HoldsBelow(ranks, t, size) && |p| < size
    requires !Formed(ranks, p, o, now) && Rests(ranks, t, p, o, now, bound)
    ensures var l, r := Left(ranks, t, p), Right(ranks, t, p);
            NotDue(ranks, LastOf(Cover(ranks, t, l, o, now)), Cover(ranks, t, r, o + |l|, now)[0], o + |l|, bound)
  {
    assert HoldsAt(ranks, t, size, p);
    RestsInHalves(ranks, t, p, o, now, bound);
    var l, r := Left(ranks, t, p), Right(ranks, t, p);
    Facing(ranks, t, l, o, r, Deadline(ranks[p], false), At(ranks[p], o), now, bound, LastOf(Cover(ranks, t, l, o, now)), Cover(ranks, t, r, o + |l|, now)[0]);
  }

  // ------------------------------------------------------------------- the next merge

  /** The pair due first, and no other as early, is the one the next round merges. */
  lemma NextIsFirstDue(ranks: Ranks, parts: seq<Bytes>, i: nat, max: int)
    requires Mergeable(ranks, parts, i) && PairRank(ranks, parts, i) < max && Solid(parts)
    requires NoneDueBut(ranks, parts, 0, Due(ranks, parts, 0, i), i)
    ensures Next(ranks, parts, Some(max)) == Some(i)
  {
    var best := Lowest(ranks, parts, |parts| - 1);
    assert best.Some?;
    if best.value < i {
      OffsetsAscend(parts, best.value, i);
    }
  }

  lemma RunOn(ranks: Ranks, parts: seq<Bytes>, i: nat, max: int)
    requires Next(ranks, parts, Some(max)) == Some(i)
    ensures Run(ranks, parts, Some(max)) == Run(ranks, Merge(parts, i), Some(max))
  {
  }

  /** The replay of an entry stands at the cover of some time before the entry is due. */
  predicate Open(ranks: Ranks, e: Bytes, now: Time)
    requires e in ranks
  {
    |e| > 1 && !Before(At(ranks[e], 0), now)
  }

  predicate HalvesFormed(ranks: Ranks, t: Table, e: Bytes, now: Time)
    requires IsTable(ranks, t) && e in ranks && Open(ranks, e, now)
  {
    Formed(ranks, Left(ranks, t, e), 0, now) && Formed(ranks, Right(ranks, t, e), |Left(ranks, t, e)|, now)
  }

  /** The pair at the cut of the entry. */
  predicate CutIsLate(ranks: Ranks, t: Table, e: Bytes, now: Time)
    requires IsTable(ranks, t) && e in ranks && Open(ranks, e, now)
  {
    var l, r := Left(ranks, t, e), Right(ranks, t, e);
    NotDue(ranks, LastOf(Cover(ranks, t, l, 0, now)), Cover(ranks, t, r, |l|, now)[0], |l|, Least(ranks, t, e, 0, now))
  }

  lemma FirstDueBefore(ranks: Ranks, t: Table, e: Bytes, now: Time)
    requires IsTable(ranks, t) && e in ranks && Open(ranks, e, now) && !HalvesFormed(ranks, t, e, now)
    ensures Least(ranks, t, e, 0, now).rank < ranks[e] && Open(ranks, e, After(Least(ranks, t, e, 0, now)))
  {
    var first := LeastIn(ranks, t, e, 0, now, Left(ranks, t, e), Right(ranks, t, e));
  }

  /** As long as the pair at the cut is not due, the replay follows the table. */
  lemma FollowsTable(ranks: Ranks, t: Table, e: Bytes, now: Time)
    requires IsTable(ranks, t) && e in ranks && Open(ranks, e, now) && !HalvesFormed(ranks, t, e, now)
    requires HoldsBelow(ranks, t, |e|) && CutIsLate(ranks, t, e, now)
    ensures var first, max := Least(ranks, t, e, 0, now), Some(ranks[e]);
            Run(ranks, Cover(ranks, t, e, 0, now), max) == Run(ranks, Cover(ranks, t, e, 0, After(first)), max)
    ensures |Cover(ranks, t, e, 0, After(Least(ranks, t, e, 0, now)))| < |Cover(ranks, t, e, 0, now)|
  {
    var first, parts := Least(ranks, t, e, 0, now), Cover(ranks, t, e, 0, now);
    var l, r := Left(ranks, t, e), Right(ranks, t, e);
    FirstDueBefore(ranks, t, e, now);
    NoneDueElsewhere(ranks, t, e, 0, now, |e|, first);
    CoverIs(ranks, t, l, 0, now);
    CoverIs(ranks, t, e, 0, now);
    NoneDueAtCut(ranks, Cover(ranks, t, l, 0, now), Cover(ranks, t, r, |l|, now), 0, first);
    var i := LeastPair(ranks, t, e, 0, now);
    NextIsFirstDue(ranks, parts, i, ranks[e]);
    RunOn(ranks, parts, i, ranks[e]);
  }

  /** When it is due, the replay merges across the cut. */
  lemma CrossesCut(ranks: Ranks, t: Table, e: Bytes, now: Time)
    requires IsTable(ranks, t) && e in ranks && Open(ranks, e, now) && !HalvesFormed(ranks, t, e, now)
    requires HoldsBelow(ranks, t, |e|) && !CutIsLate(ranks, t, e, now)
    ensures Next(ranks, Cover(ranks, t, e, 0, now), Some(ranks[e])) == Some(|Cover(ranks, t, Left(ranks, t, e), 0, now)| - 1)
  {
    var l, r := Left(ranks, t, e), Right(ranks, t, e);
    FirstDueBefore(ranks, t, e, now);
    NoneDueElsewhere(ranks, t, e, 0, now, |e|, Least(ranks, t, e, 0, now));
    CoverIs(ranks, t, l, 0, now);
    CoverIs(ranks, t, e, 0, now);
    EarlyPairIsNext(ranks, Cover(ranks, t, l, 0, now), Cover(ranks, t, r, |l|, now), Least(ranks, t, e, 0, now), ranks[e]);
  }

  lemma EarlyPairIsNext(ranks: Ranks, a: seq<Bytes>, b: seq<Bytes>, first: Time, max: int)
    requires a != [] && b != [] && Solid(a + b) && first.At? && first.rank < max
    requires NoneDueBut(ranks, a + b, 0, first, |a| - 1) && !NotDue(ranks, LastOf(a), b[0], |Concat(a)|, first)
    ensures Next(ranks, a + b, Some(max)) == Some(|a| - 1)
  {
    DueAtCut(ranks, a, b, 0);
    NextIsFirstDue(ranks, a + b, |a| - 1, max);
  }

  // ------------------------------------------------------------------- cuts are never restored

  /** Some part ends at byte `m`. */
  ghost predicate HasCut(parts: seq<Bytes>, m: nat) {
    exists k :: 0 <= k <= |parts| && OffsetOf(parts, k) == m
  }

  lemma OffsetOfMerge(parts: seq<Bytes>, i: nat, k: nat)
    requires i + 1 < |parts| && k <= |Merge(parts, i)|
    ensures OffsetOf(Merge(parts, i), k) == OffsetOf(parts, if k <= i then k else k + 1)
  {
    var merged := Merge(parts, i);
    if k <= i {
      assert merged[..k] == parts[..k];
    } else {
      assert merged[..k] == Merge(parts[..k + 1], i);
      MergeKeepsBytes(parts[..k + 1], i);
    }
  }

  lemma MergeKeepsNoCut(parts: seq<Bytes>, i: nat, m: nat)
    requires i + 1 < |parts| && HasCut(Merge(parts, i), m)
    ensures HasCut(parts, m) && (Solid(parts) ==> m != OffsetOf(parts, i + 1))
  {
    var k :| 0 <= k <= |Merge(parts, i)| && OffsetOf(Merge(parts, i), k) == m;
    OffsetOfMerge(parts, i, k);
    var j := if k <= i then k else k + 1;
    assert OffsetOf(parts, j) == m;
    if Solid(parts) {
      if j < i + 1 {
        OffsetsAscend(parts, j, i + 1);
      } else {
        OffsetsAscend(parts, i + 1, j);
      }
    }
  }

  lemma {:induction false} RunKeepsNoCut(ranks: Ranks, parts: seq<Bytes>, max: Option<int>, m: nat)
    requires HasCut(Run(ranks, parts, max), m)
    ensures HasCut(parts, m)
    decreases |parts|
  {
    var next := Next(ranks, parts, max);
    if next.Some? {
      RunKeepsNoCut(ranks, Merge(parts, next.value), max, m);
      MergeKeepsNoCut(parts, next.value, m);
    }
  }

  lemma HalvesHaveCut(l: Bytes, r: Bytes)
    ensures HasCut([l, r], |l|)
  {
    assert [l, r][..1] == [l];
    ConcatShort([l]);
    assert OffsetOf([l, r], 1) == |l|;
  }

  lemma MergeAcross(a: seq<Bytes>, b: seq<Bytes>)
    requires a != [] && b != [] && Solid(a + b)
    ensures !HasCut(Merge(a + b, |a| - 1), |Concat(a)|)
  {
    var m := |Concat(a)|;
    OffsetInFirst(a, b, |a|);
    assert a[..|a|] == a;
    assert OffsetOf(a + b, |a| - 1 + 1) == m;
    if HasCut(Merge(a + b, |a| - 1), m) {
      MergeKeepsNoCut(a + b, |a| - 1, m);
    }
  }

  /** A replay that merges across the cut does not end in the two halves. */
  lemma CrossedIsLost(ranks: Ranks, a: seq<Bytes>, b: seq<Bytes>, l: Bytes, r: Bytes, max: int)
    requires a != [] && b != [] && Solid(a + b) && Concat(a) == l && Next(ranks, a + b, Some(max)) == Some(|a| - 1)
    ensures Run(ranks, a + b, Some(max)) != [l, r]
  {
    MergeAcross(a, b);
    RunOn(ranks, a + b, |a| - 1, max);
    HalvesHaveCut(l, r);
    if HasCut(Run(ranks, Merge(a + b, |a| - 1), Some(max)), |l|) {
      RunKeepsNoCut(ranks, Merge(a + b, |a| - 1), Some(max), |l|);
    }
  }

  lemma EndsInHalves(ranks: Ranks, t: Table, e: Bytes, now: Time)
    requires IsTable(ranks, t) && e in ranks && Open(ranks, e, now) && !HalvesFormed(ranks, t, e, now) && HoldsBelow(ranks, t, |e|)
    requires Run(ranks, Cover(ranks, t, e, 0, now), Some(ranks[e])) == [Left(ranks, t, e), Right(ranks, t, e)]
    ensures CutIsLate(ranks, t, e, now)
  {
    if !CutIsLate(ranks, t, e, now) {
      var l, r := Left(ranks, t, e), Right(ranks, t, e);
      CrossesCut(ranks, t, e, now);
      CoverIs(ranks, t, e, 0, now);
      CoverIs(ranks, t, l, 0, now);
      CrossedIsLost(ranks, Cover(ranks, t, l, 0, now), Cover(ranks, t, r, |l|, now), l, r, ranks[e]);
    }
  }

  // ------------------------------------------------------------------- the main theorem

  /** Where every cut holds, the replay of an entry ends in its two halves. */
  lemma {:induction false} CompatibleEnds(ranks: Ranks, t: Table, e: Bytes, now: Time)
    requires IsTable(ranks, t) && e in ranks && Open(ranks, e, now) && HoldsBelow(ranks, t, |e| + 1)
    ensures Run(ranks, Cover(ranks, t, e, 0, now), Some(ranks[e])) == [Left(ranks, t, e), Right(ranks, t, e)]
    decreases |Cover(ranks, t, e, 0, now)|
  {
    if HalvesFormed(ranks, t, e, now) {
      HalvesStay(ranks, t, e, now);
    } else {
      CutNotDue(ranks, t, e, 0, now, |e| + 1, Least(ranks, t, e, 0, now));
      HoldsBelowLess(ranks, t, |e|, |e| + 1);
      FollowsTable(ranks, t, e, now);
      FirstDueBefore(ranks, t, e, now);
      CompatibleEnds(ranks, t, e, After(Least(ranks, t, e, 0, now)));
    }
  }

  lemma HoldsBelowLess(ranks: Ranks, t: Table, less: nat, size: nat)
    requires IsTable(ranks, t) && less <= size && HoldsBelow(ranks, t, size)
    ensures HoldsBelow(ranks, t, less)
  {
    forall e
      ensures HoldsAt(ranks, t, less, e)
    {
      assert HoldsAt(ranks, t, size, e);
    }
  }

  lemma HalvesStay(ranks: Ranks, t: Table, e: Bytes, now: Time)
    requires IsTable(ranks, t) && e in ranks && Open(ranks, e, now) && HalvesFormed(ranks, t, e, now)
    ensures Cover(ranks, t, e, 0, now) == [Left(ranks, t, e), Right(ranks, t, e)]
    ensures Run(ranks, [Left(ranks, t, e), Right(ranks, t, e)], Some(ranks[e])) == [Left(ranks, t, e), Right(ranks, t, e)]
  {
  }

  /** A replay that ends in the two halves is at the cover of every time before the entry. */
  lemma {:induction false} Passes(ranks: Ranks, t: Table, e: Bytes, now: Time, later: Time)
    requires IsTable(ranks, t) && e in ranks && Open(ranks, e, later) && !Before(later, now) && HoldsBelow(ranks, t, |e|)
    requires Open(ranks, e, now) && Run(ranks, Cover(ranks, t, e, 0, now), Some(ranks[e])) == [Left(ranks, t, e), Right(ranks, t, e)]
    ensures Run(ranks, Cover(ranks, t, e, 0, later), Some(ranks[e])) == [Left(ranks, t, e), Right(ranks, t, e)]
    decreases |Cover(ranks, t, e, 0, now)|
  {
    if HalvesFormed(ranks, t, e, now) {
      HalvesStay(ranks, t, e, now);
      HalvesStay(ranks, t, e, later);
    } else {
      var first := Least(ranks, t, e, 0, now);
      if Before(first, later) {
        EndsInHalves(ranks, t, e, now);
        FollowsTable(ranks, t, e, now);
        FirstDueBefore(ranks, t, e, now);
        Passes(ranks, t, e, After(first), later);
      } else {
        SameCover(ranks, t, e, 0, now, later);
      }
    }
  }

  /** What has been taken apart down to `x` and `y` faces each other until `due`. */
  ghost predicate Faces(ranks: Ranks, t: Table, e: Bytes, x: Bytes, ox: nat, y: Bytes, due: Time)
    requires IsTable(ranks, t) && e in ranks && |e| > 1 && Known(ranks, x) && Known(ranks, y)
  {
    forall now :: !Before(due, now) ==> FacesAt(ranks, t, e, x, ox, y, now)
  }

  predicate FacesAt(ranks: Ranks, t: Table, e: Bytes, x: Bytes, ox: nat, y: Bytes, now: Time)
    requires IsTable(ranks, t) && e in ranks && |e| > 1 && Known(ranks, x) && Known(ranks, y)
  {
    var l, r := Left(ranks, t, e), Right(ranks, t, e);
    && LastOf(Cover(ranks, t, l, 0, now)) == LastOf(Cover(ranks, t, x, ox, now))
    && Cover(ranks, t, r, |l|, now)[0] == Cover(ranks, t, y, ox + |x|, now)[0]
  }

  /** The pair that faces each other until `due` is not merged before. */
  lemma NotMergedFirst(ranks: Ranks, t: Table, e: Bytes, x: Bytes, ox: nat, y: Bytes, d: Deadline, due: Time)
    requires IsTable(ranks, t) && e in ranks && Known(ranks, x) && Known(ranks, y) && HoldsBelow(ranks, t, |e|)
    requires Open(ranks, e, due) && IsDeadline(d, ox, due, due) && ox + |x| == |Left(ranks, t, e)|
    requires Formed(ranks, x, ox, due) && Formed(ranks, y, ox + |x|, due) && Faces(ranks, t, e, x, ox, y, due)
    requires Run(ranks, Cover(ranks, t, e, 0, due), Some(ranks[e])) == [Left(ranks, t, e), Right(ranks, t, e)]
    ensures x + y in ranks ==> !ComesFirst(ranks[x + y], d)
  {
    assert FacesAt(ranks, t, e, x, ox, y, due);
    if HalvesFormed(ranks, t, e, due) {
      assert x == Left(ranks, t, e) && y == Right(ranks, t, e);
    } else {
      EndsInHalves(ranks, t, e, due);
    }
  }

  lemma FacesInRight(ranks: Ranks, t: Table, e: Bytes, x: Bytes, ox: nat, y: Bytes, due: Time)
    requires IsTable(ranks, t) && e in ranks && |e| > 1 && Known(ranks, x) && Known(ranks, y) && |y| > 1
    requires Faces(ranks, t, e, x, ox, y, due) && Formed(ranks, y, ox + |x|, due)
    ensures Faces(ranks, t, e, x, ox, Left(ranks, t, y), At(ranks[y], ox + |x|))
  {
    var m := ox + |x|;
    forall now | !Before(At(ranks[y], m), now)
      ensures FacesAt(ranks, t, e, x, ox, Left(ranks, t, y), now)
    {
      assert FacesAt(ranks, t, e, x, ox, y, now);
      LastOfCover(ranks, t, y, m, now);
    }
  }

  lemma FacesInLeft(ranks: Ranks, t: Table, e: Bytes, x: Bytes, ox: nat, y: Bytes, due: Time)
    requires IsTable(ranks, t) && e in ranks && |e| > 1 && Known(ranks, x) && Known(ranks, y) && |x| > 1
    requires Faces(ranks, t, e, x, ox, y, due) && Formed(ranks, x, ox, due)
    ensures Faces(ranks, t, e, Right(ranks, t, x), ox + |Left(ranks, t, x)|, y, At(ranks[x], ox))
  {
    forall now | !Before(At(ranks[x], ox), now)
      ensures FacesAt(ranks, t, e, Right(ranks, t, x), ox + |Left(ranks, t, x)|, y, now)
    {
      assert FacesAt(ranks, t, e, x, ox, y, now);
      LastOfCover(ranks, t, x, ox, now);
    }
  }

  /** The pair `x`, `y` is one of those the sides of the cut are taken apart into. */
  ghost predicate Reached(ranks: Ranks, t: Table, e: Bytes, x: Bytes, ox: nat, y: Bytes, d: Deadline, due: Time)
    requires IsTable(ranks, t) && e in ranks
  {
    && Known(ranks, x) && Known(ranks, y) && Open(ranks, e, due) && IsDeadline(d, ox, due, due) && ox + |x| == |Left(ranks, t, e)|
    && Formed(ranks, x, ox, due) && Formed(ranks, y, ox + |x|, due) && Faces(ranks, t, e, x, ox, y, due)
  }

  lemma ReachedInRight(ranks: Ranks, t: Table, e: Bytes, x: Bytes, ox: nat, y: Bytes, d: Deadline, due: Time) returns (l: Bytes, next: Deadline, from: Time)
    requires IsTable(ranks, t) && e in ranks && Reached(ranks, t, e, x, ox, y, d, due) && TakesRight(ranks, x, y)
    ensures l == Left(ranks, t, y) && next == Deadline(ranks[y], true) && Reached(ranks, t, e, x, ox, l, next, from)
  {
    FacesInRight(ranks, t, e, x, ox, y, due);
    l, next, from := Left(ranks, t, y), Deadline(ranks[y], true), At(ranks[y], ox + |x|);
  }

  lemma ReachedInLeft(ranks: Ranks, t: Table, e: Bytes, x: Bytes, ox: nat, y: Bytes, d: Deadline, due: Time) returns (r: Bytes, o: nat, next: Deadline, from: Time)
    requires IsTable(ranks, t) && e in ranks && Reached(ranks, t, e, x, ox, y, d, due) && |x| > 1 && !TakesRight(ranks, x, y)
    ensures r == Right(ranks, t, x) && next == Deadline(ranks[x], false) && Reached(ranks, t, e, r, o, y, next, from)
  {
    FacesInLeft(ranks, t, e, x, ox, y, due);
    r, o, next, from := Right(ranks, t, x), ox + |Left(ranks, t, x)|, Deadline(ranks[x], false), At(ranks[x], ox);
  }

  lemma ReachedNotFirst(ranks: Ranks, t: Table, e: Bytes, x: Bytes, ox: nat, y: Bytes, d: Deadline, due: Time)
    requires IsTable(ranks, t) && e in ranks && HoldsBelow(ranks, t, |e|) && Reached(ranks, t, e, x, ox, y, d, due)
    requires Run(ranks, Singles(e), Some(ranks[e])) == [Left(ranks, t, e), Right(ranks, t, e)]
    ensures x + y in ranks ==> !ComesFirst(ranks[x + y], d)
  {
    CoverAtStart(ranks, t, e, 0);
    Passes(ranks, t, e, Start, due);
    NotMergedFirst(ranks, t, e, x, ox, y, d, due);
  }

  /** The sides of a cut that the replay ends in stay apart. */
  lemma {:induction false} EndsApart(ranks: Ranks, t: Table, e: Bytes, x: Bytes, ox: nat, y: Bytes, d: Deadline, due: Time)
    requires IsTable(ranks, t) && e in ranks && HoldsBelow(ranks, t, |e|) && Reached(ranks, t, e, x, ox, y, d, due)
    requires Run(ranks, Singles(e), Some(ranks[e])) == [Left(ranks, t, e), Right(ranks, t, e)]
    ensures Apart(ranks, t, x, y, d)
    decreases |x| + |y|
  {
    ReachedNotFirst(ranks, t, e, x, ox, y, d, due);
    if TakesRight(ranks, x, y) {
      var l, next, from := ReachedInRight(ranks, t, e, x, ox, y, d, due);
      EndsApart(ranks, t, e, x, ox, l, next, from);
    } else if |x| > 1 {
      var r, o, next, from := ReachedInLeft(ranks, t, e, x, ox, y, d, due);
      EndsApart(ranks, t, e, r, o, y, next, from);
    }
  }

  /** The replay of an entry ends in the two halves of the table. */
  predicate Replays(ranks: Ranks, t: Table, e: Bytes)
    requires IsTable(ranks, t)
  {
    e in ranks && |e| > 1 ==> Run(ranks, Singles(e), Some(ranks[e])) == [Left(ranks, t, e), Right(ranks, t, e)]
  }

  lemma {:induction false} ReplayedHolds(ranks: Ranks, t: Table, size: nat)
    requires IsTable(ranks, t) && forall e :: Replays(ranks, t, e)
    ensures HoldsBelow(ranks, t, size)
  {
    forall e
      ensures HoldsAt(ranks, t, size, e)
    {
      if e in ranks && 1 < |e| < size {
        ReplayedHolds(ranks, t, |e|);
        assert Replays(ranks, t, e);
        EndsApart(ranks, t, e, Left(ranks, t, e), 0, Right(ranks, t, e), Deadline(ranks[e], false), At(ranks[e], 0));
      }
    }
  }

  lemma CompatibleBelow(ranks: Ranks, t: Table, size: nat)
    requires IsTable(ranks, t) && Compatible(ranks, t)
    ensures HoldsBelow(ranks, t, size)
  {
    forall e
      ensures HoldsAt(ranks, t, size, e)
    {
      assert HoldsFor(ranks, t, e);
    }
  }

  /** Main theorem: a table gives the merges that the replay finds, for every entry, if and only
      if the sides of every cut stay apart. */
  lemma MergesAreTable(ranks: Ranks, t: Table)
    requires IsTable(ranks, t)
    ensures (forall e :: Replays(ranks, t, e)) <==> Compatible(ranks, t)
  {
    if Compatible(ranks, t) {
      forall e
        ensures Replays(ranks, t, e)
      {
        if e in ranks && |e| > 1 {
          CompatibleBelow(ranks, t, |e| + 1);
          CoverAtStart(ranks, t, e, 0);
          CompatibleEnds(ranks, t, e, Start);
        }
      }
    }
    if forall e :: Replays(ranks, t, e) {
      forall e
        ensures HoldsFor(ranks, t, e)
      {
        ReplayedHolds(ranks, t, |e| + 1);
        assert HoldsAt(ranks, t, |e| + 1, e);
      }
    }
  }

  // ------------------------------------------------------------------- two parts for every entry

  /** What the conversion asserts of an entry. */
  predicate TwoParts(ranks: Ranks, e: Bytes) {
    e in ranks && |e| != 1 ==> |Run(ranks, Singles(e), Some(ranks[e]))| == 2
  }

  function FirstPart(ranks: Ranks, e: Bytes): nat
    requires e in ranks && |e| > 1 && TwoParts(ranks, e)
  {
    |Run(ranks, Singles(e), Some(ranks[e]))[0]|
  }

  lemma PartsAreLower(ranks: Ranks, e: Bytes)
    requires e in ranks && |e| > 1 && TwoParts(ranks, e)
    ensures var k := FirstPart(ranks, e);
            && 0 < k < |e| && Lower(ranks, e[..k], ranks[e]) && Lower(ranks, e[k..], ranks[e])
            && Run(ranks, Singles(e), Some(ranks[e])) == [e[..k], e[k..]]
  {
    var parts := Run(ranks, Singles(e), Some(ranks[e]));
    EncodingOfToken(ranks, e, Some(ranks[e]));
    ConcatShort(parts);
    assert e[..|parts[0]|] == parts[0] && e[|parts[0]|..] == parts[1];
  }

  /** The conversion of a vocabulary finds two parts for every entry if and only if some table
      of cuts is compatible with the ranks. */
  lemma TwoPartsIffCompatible(ranks: Ranks)
    ensures (forall e :: TwoParts(ranks, e)) <==> exists t :: IsTable(ranks, t) && Compatible(ranks, t)
  {
    if t :| IsTable(ranks, t) && Compatible(ranks, t) {
      MergesAreTable(ranks, t);
      forall e
        ensures TwoParts(ranks, e)
      {
        assert Replays(ranks, t, e);
      }
    }
    if forall e :: TwoParts(ranks, e) {
      var t := CutsFound(ranks);
    }
  }

  lemma CutsFound(ranks: Ranks) returns (t: Table)
    requires forall e :: TwoParts(ranks, e)
    ensures IsTable(ranks, t) && Compatible(ranks, t)
  {
    t := map e | e in ranks && |e| > 1 && TwoParts(ranks, e) :: FirstPart(ranks, e);
    assert TwoParts(ranks, []);
    forall e
      ensures IsCut(ranks, t, e)
    {
      assert TwoParts(ranks, e);
      if e in ranks && |e| > 1 {
        PartsAreLower(ranks, e);
      }
    }
    forall e
      ensures Replays(ranks, t, e)
    {
      assert TwoParts(ranks, e);
      if e in ranks && |e| > 1 {
        PartsAreLower(ranks, e);
      }
    }
    MergesAreTable(ranks, t);
  }

  // ------------------------------------------------------------------- vocabularies that fail

  /** An entry that nothing leads to keeps all its bytes apart. */
  lemma NothingLeadsThere()
    ensures var ranks: Ranks := map[[1, 2, 3] := 0];
            Run(ranks, Singles([1, 2, 3]), Some(0)) == [[1], [2], [3]] && !TwoParts(ranks, [1, 2, 3])
  {
    var ranks: Ranks := map[[1, 2, 3] := 0];
    var parts := Singles([1, 2, 3]);
    assert parts == [[1], [2], [3]];
    assert |[1, 2]| == 2 && |parts[0] + parts[1]| == 2 && |parts[1] + parts[2]| == 2;
    assert forall j :: !Mergeable(ranks, parts, j);
  }

  /** Halves of lower rank are not enough: here the entry 2 3 is merged across the cut. */
  lemma MergedAcross()
    ensures var ranks: Ranks, t: Table := map[[2, 3] := 0, [1, 2] := 1, [3, 4] := 2, [1, 2, 3, 4] := 3], map[[2, 3] := 1, [1, 2] := 1, [3, 4] := 1, [1, 2, 3, 4] := 2];
            && IsTable(ranks, t) && !HoldsFor(ranks, t, [1, 2, 3, 4])
            && Run(ranks, Singles([1, 2, 3, 4]), Some(3)) == [[1], [2, 3], [4]] && !TwoParts(ranks, [1, 2, 3, 4])
  {
    var ranks: Ranks := map[[2, 3] := 0, [1, 2] := 1, [3, 4] := 2, [1, 2, 3, 4] := 3];
    var t: Table := map[[2, 3] := 1, [1, 2] := 1, [3, 4] := 1, [1, 2, 3, 4] := 2];
    var e: Bytes := [1, 2, 3, 4];
    assert e[..2] == [1, 2] && e[2..] == [3, 4];
    assert IsTable(ranks, t);
    var x, y := Left(ranks, t, e), Right(ranks, t, e);
    assert IsCut(ranks, t, x) && IsCut(ranks, t, y);
    assert x == [1, 2] && y == [3, 4] && ranks[x] == 1 && ranks[y] == 2;
    assert x[1..] == [2] && y[..1] == [3];
    assert Left(ranks, t, y) == [3] && Right(ranks, t, x) == [2];
    var two: Bytes, three: Bytes, pair: Bytes := [2], [3], [2, 3];
    assert two + three == pair && ranks[pair] == 0;
    assert !Apart(ranks, t, two, three, Deadline(1, false));
    assert !Apart(ranks, t, x, three, Deadline(2, true));
    assert !Apart(ranks, t, x, y, Deadline(3, false));
    AcrossRun(ranks);
  }

  lemma AcrossRun(ranks: Ranks)
    requires ranks == map[[2, 3] := 0, [1, 2] := 1, [3, 4] := 2, [1, 2, 3, 4] := 3]
    ensures Run(ranks, Singles([1, 2, 3, 4]), Some(3)) == [[1], [2, 3], [4]]
  {
    var parts: seq<Bytes>, next: seq<Bytes> := [[1], [2], [3], [4]], [[1], [2, 3], [4]];
    assert Singles([1, 2, 3, 4]) == parts;
    assert parts[0] + parts[1] == [1, 2] && parts[1] + parts[2] == [2, 3] && parts[2] + parts[3] == [3, 4];
    assert IsLowest(ranks, parts, 3, 1);
    assert Merge(parts, 1) == next;
    assert next[0] + next[1] == [1, 2, 3] && next[1] + next[2] == [2, 3, 4];
    assert [1, 2, 3] !in ranks && [2, 3, 4] !in ranks by {
      assert |[1, 2, 3]| == 3 && |[2, 3, 4]| == 3 && forall e :: e in ranks ==> |e| == 2 || |e| == 4;
    }
    assert forall j :: !Mergeable(ranks, next, j);
  }
}
