/**
  `calculate_diff_split`: what two texts share at their ends, and what each has in between.

  The result should rebuild both texts.  After the loop the code looks once more at the
  segments where the two sides stand, also when the loop has just consumed one of them;
  `Reuses` says when that spoils the result, and the main theorem that nothing else does.
 */
module DiffSplit {
  import opened Markers

  datatype Diff = Diff(prefix: string, suffix: string, left: string, right: string)

  /** The iterators, the text matched so far, and the flags: a set flag says that the one
      segment where that side stands is consumed. */
  datatype State = State(ls: nat, le: nat, rs: nat, re: nat, prefix: string, suffix: string, leftDone: bool, rightDone: bool)

  predicate InRange(l: seq<Segment>, r: seq<Segment>, x: State) {
    && x.ls <= x.le < |l| && x.rs <= x.re < |r|
    && (x.leftDone ==> x.ls == x.le) && (x.rightDone ==> x.rs == x.re)
  }

  // --------------------------------------------------------------------------- the loop

  function MatchStart(l: seq<Segment>, r: seq<Segment>, x: State): (y: State)
    requires InRange(l, r, x) && x.ls != x.le && x.rs != x.re
    ensures InRange(l, r, y) && y.le == x.le && y.re == x.re && !y.leftDone && !y.rightDone
  {
    if l[x.ls] == r[x.rs] then x.(ls := x.ls + 1, rs := x.rs + 1, prefix := x.prefix + l[x.ls].value) else x
  }

  function MatchEnd(l: seq<Segment>, r: seq<Segment>, x: State): (y: State)
    requires InRange(l, r, x) && !x.leftDone && !x.rightDone
    ensures InRange(l, r, y)
  {
    if l[x.le] == r[x.re] then
      x.(suffix := l[x.le].value + x.suffix,
         le := if x.ls != x.le then x.le - 1 else x.le, leftDone := x.ls == x.le,
         re := if x.rs != x.re then x.re - 1 else x.re, rightDone := x.rs == x.re)
    else x
  }

  function Loop(l: seq<Segment>, r: seq<Segment>, x: State): (y: State)
    requires InRange(l, r, x) && (x.ls != x.le && x.rs != x.re ==> !x.leftDone && !x.rightDone)
    ensures InRange(l, r, y)
    decreases x.le - x.ls + x.re - x.rs
  {
    if x.ls == x.le || x.rs == x.re then x
    else
      var y := MatchEnd(l, r, MatchStart(l, r, x));
      if l[x.ls] != r[x.rs] && l[x.le] != r[x.re] then y else Loop(l, r, y)
  }

  function LoopExit(l: seq<Segment>, r: seq<Segment>): (y: State)
    requires l != [] && r != []
    ensures InRange(l, r, y)
  {
    Loop(l, r, State(0, |l| - 1, 0, |r| - 1, "", "", false, false))
  }

  /** What a side still has to explain. */
  function Rest(s: seq<Segment>, from: nat, to: nat, done: bool): string
    requires from <= to < |s|
  {
    if done then "" else Join(s[from..to + 1])
  }

  /** Prefix, unconsumed segments and suffix give the text of either side. */
  predicate Balanced(l: seq<Segment>, r: seq<Segment>, x: State) {
    && InRange(l, r, x)
    && Join(l) == x.prefix + Rest(l, x.ls, x.le, x.leftDone) + x.suffix
    && Join(r) == x.prefix + Rest(r, x.rs, x.re, x.rightDone) + x.suffix
  }

  lemma TakeFirst(s: seq<Segment>, from: nat, to: nat)
    requires from <= to < |s|
    ensures Join(s[from..to + 1]) == s[from].value + Join(s[from + 1..to + 1])
  {
    assert s[from..to + 1][1..] == s[from + 1..to + 1];
  }

  lemma TakeLast(s: seq<Segment>, from: nat, to: nat)
    requires from <= to < |s|
    ensures Join(s[from..to + 1]) == Join(s[from..to]) + s[to].value
  {
    JoinExtend(s[from..to], s[to]);
    assert s[from..to] + [s[to]] == s[from..to + 1];
  }

  lemma AttachLast(all: string, prefix: string, rest: string, a: string, b: string, suffix: string)
    requires all == prefix + rest + suffix && rest == a + b
    ensures all == prefix + a + (b + suffix)
  {
  }

  lemma AttachFirst(all: string, prefix: string, rest: string, a: string, b: string, suffix: string)
    requires all == prefix + rest + suffix && rest == a + b
    ensures all == (prefix + a) + b + suffix
  {
  }

  lemma RestWithoutLast(s: seq<Segment>, from: nat, to: nat)
    requires from <= to < |s|
    ensures Rest(s, from, if from != to then to - 1 else to, from == to) == Join(s[from..to])
  {
    assert s[from..from] == [];
  }

  /** Dropping the last segment of a side, or consuming its one segment. */
  lemma DropLast(s: seq<Segment>, from: nat, to: nat, prefix: string, suffix: string)
    requires from <= to < |s| && Join(s) == prefix + Rest(s, from, to, false) + suffix
    ensures Join(s) == prefix + Rest(s, from, if from != to then to - 1 else to, from == to) + (s[to].value + suffix)
  {
    TakeLast(s, from, to);
    RestWithoutLast(s, from, to);
    AttachLast(Join(s), prefix, Join(s[from..to + 1]), Join(s[from..to]), s[to].value, suffix);
  }

  lemma DropFirst(s: seq<Segment>, from: nat, to: nat, prefix: string, suffix: string)
    requires from <= to < |s| && Join(s) == prefix + Rest(s, from, to, false) + suffix
    ensures Join(s) == (prefix + s[from].value) + Rest(s, if from != to then from + 1 else from, to, from == to) + suffix
  {
    TakeFirst(s, from, to);
    AttachFirst(Join(s), prefix, Join(s[from..to + 1]), s[from].value, Join(s[from + 1..to + 1]), suffix);
    assert s[to + 1..to + 1] == [];
  }

  lemma MatchStartBalanced(l: seq<Segment>, r: seq<Segment>, x: State)
    requires Balanced(l, r, x) && x.ls != x.le && x.rs != x.re
    ensures Balanced(l, r, MatchStart(l, r, x))
  {
    if l[x.ls] == r[x.rs] {
      DropFirst(l, x.ls, x.le, x.prefix, x.suffix);
      DropFirst(r, x.rs, x.re, x.prefix, x.suffix);
    }
  }

  lemma MatchEndBalanced(l: seq<Segment>, r: seq<Segment>, x: State)
    requires Balanced(l, r, x) && !x.leftDone && !x.rightDone
    ensures Balanced(l, r, MatchEnd(l, r, x))
  {
    if l[x.le] == r[x.re] {
      DropLast(l, x.ls, x.le, x.prefix, x.suffix);
      DropLast(r, x.rs, x.re, x.prefix, x.suffix);
    }
  }

  lemma {:induction false} LoopBalanced(l: seq<Segment>, r: seq<Segment>, x: State)
    requires Balanced(l, r, x) && (x.ls != x.le && x.rs != x.re ==> !x.leftDone && !x.rightDone)
    ensures Balanced(l, r, Loop(l, r, x))
    decreases x.le - x.ls + x.re - x.rs
  {
    if x.ls != x.le && x.rs != x.re {
      MatchStartBalanced(l, r, x);
      var m := MatchStart(l, r, x);
      MatchEndBalanced(l, r, m);
      var y := MatchEnd(l, r, m);
      if l[x.ls] == r[x.rs] || l[x.le] == r[x.re] {
        LoopBalanced(l, r, y);
      }
    }
  }

  lemma WholeIsRest(s: seq<Segment>)
    requires s != []
    ensures Join(s) == "" + Rest(s, 0, |s| - 1, false) + ""
  {
    assert s[0..|s|] == s;
    assert "" + Join(s) + "" == Join(s);
  }

  lemma StartBalanced(l: seq<Segment>, r: seq<Segment>)
    requires l != [] && r != []
    ensures Balanced(l, r, State(0, |l| - 1, 0, |r| - 1, "", "", false, false))
  {
    WholeIsRest(l);
    WholeIsRest(r);
  }

  lemma ExitBalanced(l: seq<Segment>, r: seq<Segment>)
    requires l != [] && r != []
    ensures Balanced(l, r, LoopExit(l, r))
    ensures var x := LoopExit(l, r); x.ls == x.le || x.rs == x.re || (l[x.ls] != r[x.rs] && l[x.le] != r[x.re])
  {
    var x := State(0, |l| - 1, 0, |r| - 1, "", "", false, false);
    StartBalanced(l, r);
    LoopBalanced(l, r, x);
    LoopStops(l, r, x);
  }

  lemma {:induction false} LoopStops(l: seq<Segment>, r: seq<Segment>, x: State)
    requires InRange(l, r, x) && (x.ls != x.le && x.rs != x.re ==> !x.leftDone && !x.rightDone)
    ensures var y := Loop(l, r, x); y.ls == y.le || y.rs == y.re || (l[y.ls] != r[y.rs] && l[y.le] != r[y.re])
    decreases x.le - x.ls + x.re - x.rs
  {
    if x.ls != x.le && x.rs != x.re && (l[x.ls] == r[x.rs] || l[x.le] == r[x.re]) {
      LoopStops(l, r, MatchEnd(l, r, MatchStart(l, r, x)));
    }
  }

  // ------------------------------------------------------------------- after the loop

  /** One more match where a side stands at its last segment. */
  function MatchSingle(l: seq<Segment>, r: seq<Segment>, x: State): (y: State)
    requires InRange(l, r, x)
    ensures InRange(l, r, y)
  {
    if x.ls == x.le && x.rs != x.re then
      if l[x.ls] == r[x.re] then x.(suffix := r[x.re].value + x.suffix, re := x.re - 1, leftDone := true)
      else if l[x.ls] == r[x.rs] then x.(prefix := x.prefix + r[x.rs].value, rs := x.rs + 1, leftDone := true)
      else x
    else if x.rs == x.re && x.ls != x.le then
      if l[x.le] == r[x.rs] then x.(suffix := l[x.le].value + x.suffix, le := x.le - 1, rightDone := true)
      else if l[x.ls] == r[x.rs] then x.(prefix := x.prefix + l[x.ls].value, ls := x.ls + 1, rightDone := true)
      else x
    else if x.ls == x.le && x.rs == x.re && l[x.ls] == r[x.rs] && l[x.ls].kind.Marker? then
      x.(prefix := x.prefix + r[x.rs].value, leftDone := true, rightDone := true)
    else x
  }

  function Shorter(u: string, v: string): nat {
    if |u| <= |v| then |u| else |v|
  }

  predicate AgreeAtStart(u: string, v: string, n: nat) {
    n <= Shorter(u, v) && u[..n] == v[..n]
  }

  predicate AgreeAtEnd(u: string, v: string, n: nat) {
    n <= Shorter(u, v) && u[|u| - n..] == v[|v| - n..]
  }

  lemma StartGrows(u: string, n: nat)
    requires n < |u|
    ensures u[..n + 1] == u[..n] + [u[n]]
  {
  }

  lemma EndGrows(u: string, n: nat)
    requires n < |u|
    ensures u[|u| - (n + 1)..] == [u[|u| - 1 - n]] + u[|u| - n..]
  {
  }

  /** How far two texts agree from the start, given that they agree on `n` characters. */
  function CommonPrefixFrom(u: string, v: string, n: nat): (m: nat)
    requires AgreeAtStart(u, v, n)
    ensures AgreeAtStart(u, v, m) && (m < Shorter(u, v) ==> u[m] != v[m])
    decreases Shorter(u, v) - n
  {
    if n < Shorter(u, v) && u[n] == v[n] then
      StartGrows(u, n);
      StartGrows(v, n);
      CommonPrefixFrom(u, v, n + 1)
    else n
  }

  function CommonSuffixFrom(u: string, v: string, n: nat): (m: nat)
    requires AgreeAtEnd(u, v, n)
    ensures AgreeAtEnd(u, v, m) && (m < Shorter(u, v) ==> u[|u| - 1 - m] != v[|v| - 1 - m])
    decreases Shorter(u, v) - n
  {
    if n < Shorter(u, v) && u[|u| - 1 - n] == v[|v| - 1 - n] then
      EndGrows(u, n);
      EndGrows(v, n);
      CommonSuffixFrom(u, v, n + 1)
    else n
  }

  method CommonPrefixLen(u: string, v: string) returns (n: nat)
    ensures n == CommonPrefixFrom(u, v, 0)
  {
    n := 0;
    while n < Shorter(u, v) && u[n] == v[n]
      invariant AgreeAtStart(u, v, n) && CommonPrefixFrom(u, v, n) == CommonPrefixFrom(u, v, 0)
    {
      StartGrows(u, n);
      StartGrows(v, n);
      n := n + 1;
    }
  }

  lemma SuffixStep(u: string, v: string, n: nat)
    requires AgreeAtEnd(u, v, n) && n < Shorter(u, v) && u[|u| - 1 - n] == v[|v| - 1 - n]
    ensures AgreeAtEnd(u, v, n + 1) && CommonSuffixFrom(u, v, n + 1) == CommonSuffixFrom(u, v, n)
  {
    EndGrows(u, n);
    EndGrows(v, n);
  }

  method CommonSuffixLen(u: string, v: string) returns (n: nat)
    ensures n == CommonSuffixFrom(u, v, 0)
  {
    n := 0;
    while n < Shorter(u, v) && u[|u| - 1 - n] == v[|v| - 1 - n]
      invariant AgreeAtEnd(u, v, n) && CommonSuffixFrom(u, v, n) == CommonSuffixFrom(u, v, 0)
    {
      SuffixStep(u, v, n);
      n := n + 1;
    }
  }

  function SharedEnd(u: string, v: string, atEnd: bool): (s: nat)
    ensures AgreeAtEnd(u, v, s)
  {
    if atEnd then CommonSuffixFrom(u, v, 0) else 0
  }

  /** The shared start does not reach into the shared end. */
  function SharedStart(u: string, v: string, s: nat, atStart: bool): (p: nat)
    requires s <= Shorter(u, v)
    ensures p + s <= Shorter(u, v) && AgreeAtStart(u, v, p)
  {
    var p := if atStart then CommonPrefixFrom(u[..|u| - s], v[..|v| - s], 0) else 0;
    assert u[..|u| - s][..p] == u[..p] && v[..|v| - s][..p] == v[..p];
    p
  }

  function SplitAt(prefix: string, suffix: string, u: string, v: string, p: nat, s: nat): Diff
    requires p + s <= Shorter(u, v)
  {
    Diff(prefix + u[..p], u[|u| - s..] + suffix, u[p..|u| - s], v[p..|v| - s])
  }

  /** Splits two remainders into shared text at their ends and what differs. */
  function Split(prefix: string, suffix: string, u: string, v: string, atStart: bool, atEnd: bool): Diff {
    var s := SharedEnd(u, v, atEnd);
    SplitAt(prefix, suffix, u, v, SharedStart(u, v, s, atStart), s)
  }

  function Trim(l: seq<Segment>, r: seq<Segment>, y: State): Diff
    requires InRange(l, r, y)
  {
    Split(y.prefix, y.suffix, Rest(l, y.ls, y.le, y.leftDone), Rest(r, y.rs, y.re, y.rightDone),
          l[y.ls].kind.Text? && r[y.rs].kind.Text?, l[y.le].kind.Text? && r[y.re].kind.Text?)
  }

  /** The last corrections: no difference at all, and a left text that begins the right one. */
  function Correct(left: string, right: string, d: Diff): Diff {
    var e := if d.left == "" && d.right == "" then d.(prefix := left, suffix := "") else d;
    if e.left == "" && e.right != "" && left <= right then Diff(left, "", "", right[|left|..]) else e
  }

  function DiffOf(left: string, right: string, l: seq<Segment>, r: seq<Segment>): Diff {
    if l == [] then Diff("", "", "", right)
    else if r == [] then Diff("", "", left, "")
    else Correct(left, right, Trim(l, r, MatchSingle(l, r, LoopExit(l, r))))
  }

  predicate Rebuilds(left: string, right: string, d: Diff) {
    left == d.prefix + d.left + d.suffix && right == d.prefix + d.right + d.suffix
  }

  /** The loop has consumed the one segment of exactly one side, and that segment is matched
      again after the loop.  Only a left text that begins the right one is still mended. */
  predicate Reuses(left: string, right: string, l: seq<Segment>, r: seq<Segment>) {
    l != [] && r != [] &&
    var x := LoopExit(l, r);
    || (x.leftDone && !x.rightDone &&
        if x.rs == x.re then l[x.ls] == r[x.rs] && l[x.ls].kind.Marker?
        else (l[x.ls] == r[x.re] || l[x.ls] == r[x.rs]) && !(left <= right))
    || (x.rightDone && !x.leftDone &&
        if x.ls == x.le then l[x.ls] == r[x.rs] && l[x.ls].kind.Marker?
        else l[x.le] == r[x.rs] || l[x.ls] == r[x.rs])
  }

  // -------------------------------------------------------------------- the main theorem

  lemma TrimBalanced(l: seq<Segment>, r: seq<Segment>, y: State)
    requires Balanced(l, r, y)
    ensures Rebuilds(Join(l), Join(r), Trim(l, r, y))
  {
    SplitRebuilds(y.prefix, y.suffix, Rest(l, y.ls, y.le, y.leftDone), Rest(r, y.rs, y.re, y.rightDone),
                  l[y.ls].kind.Text? && r[y.rs].kind.Text?, l[y.le].kind.Text? && r[y.re].kind.Text?);
  }

  lemma SplitRebuilds(prefix: string, suffix: string, u: string, v: string, atStart: bool, atEnd: bool)
    ensures Rebuilds(prefix + u + suffix, prefix + v + suffix, Split(prefix, suffix, u, v, atStart, atEnd))
  {
    var s := SharedEnd(u, v, atEnd);
    SplitAtRebuilds(prefix, suffix, u, v, SharedStart(u, v, s, atStart), s);
  }

  lemma SplitAtRebuilds(prefix: string, suffix: string, u: string, v: string, p: nat, s: nat)
    requires p + s <= Shorter(u, v) && AgreeAtStart(u, v, p) && AgreeAtEnd(u, v, s)
    ensures Rebuilds(prefix + u + suffix, prefix + v + suffix, SplitAt(prefix, suffix, u, v, p, s))
  {
    Cut(prefix, u, suffix, p, s);
    Cut(prefix, v, suffix, p, s);
  }

  lemma Cut(prefix: string, u: string, suffix: string, p: nat, s: nat)
    requires p + s <= |u|
    ensures prefix + u + suffix == (prefix + u[..p]) + u[p..|u| - s] + (u[|u| - s..] + suffix)
  {
    assert u == u[..p] + u[p..|u| - s] + u[|u| - s..];
  }

  lemma CorrectKeeps(left: string, right: string, d: Diff)
    requires Rebuilds(left, right, d)
    ensures Rebuilds(left, right, Correct(left, right, d))
  {
    assert left + "" + "" == left;
    assert left <= right ==> left + right[|left|..] + "" == right;
  }

  /** When no flag is set, one more match consumes one segment of each side. */
  lemma SingleBalanced(l: seq<Segment>, r: seq<Segment>, x: State)
    requires Balanced(l, r, x) && !x.leftDone && !x.rightDone
    ensures Balanced(l, r, MatchSingle(l, r, x))
  {
    if (x.ls == x.le && x.rs != x.re && l[x.ls] == r[x.re]) || (x.rs == x.re && x.ls != x.le && l[x.le] == r[x.rs]) {
      SingleAtEnd(l, r, x);
    } else if MatchSingle(l, r, x) != x {
      SingleAtStart(l, r, x);
    }
  }

  lemma SingleAtEnd(l: seq<Segment>, r: seq<Segment>, x: State)
    requires Balanced(l, r, x) && !x.leftDone && !x.rightDone && l[x.le] == r[x.re]
    ensures Balanced(l, r, MatchEnd(l, r, x))
  {
    MatchEndBalanced(l, r, x);
  }

  lemma SingleAtStart(l: seq<Segment>, r: seq<Segment>, x: State)
    requires Balanced(l, r, x) && !x.leftDone && !x.rightDone && l[x.ls] == r[x.rs]
    ensures Balanced(l, r, x.(prefix := x.prefix + l[x.ls].value,
                              ls := if x.ls < x.le then x.ls + 1 else x.ls, leftDone := x.ls == x.le,
                              rs := if x.rs < x.re then x.rs + 1 else x.rs, rightDone := x.rs == x.re))
  {
    DropFirst(l, x.ls, x.le, x.prefix, x.suffix);
    DropFirst(r, x.rs, x.re, x.prefix, x.suffix);
  }

  lemma BothDoneEqual(l: seq<Segment>, r: seq<Segment>, x: State)
    requires Balanced(l, r, x) && x.leftDone && x.rightDone
    ensures Join(l) == Join(r)
  {
  }

  /** With both sides consumed no difference is found. */
  lemma NoDifference(l: seq<Segment>, r: seq<Segment>, y: State)
    requires InRange(l, r, y) && y.leftDone && y.rightDone
    ensures Correct(Join(l), Join(r), Trim(l, r, y)) == Diff(Join(l), "", "", "")
  {
    EmptyRests(Join(l), Join(r), y.prefix, y.suffix, l[y.ls].kind.Text? && r[y.rs].kind.Text?, l[y.le].kind.Text? && r[y.re].kind.Text?);
  }

  /** Nothing left over on either side: the result is the left text and no difference. */
  lemma EmptyRests(left: string, right: string, prefix: string, suffix: string, atStart: bool, atEnd: bool)
    ensures Correct(left, right, Split(prefix, suffix, "", "", atStart, atEnd)) == Diff(left, "", "", "")
    ensures Rebuilds(left, right, Diff(left, "", "", "")) <==> left == right
  {
    assert left + "" + "" == left;
  }

  predicate AllNonempty(s: seq<Segment>) {
    forall i :: 0 <= i < |s| ==> s[i].value != ""
  }

  lemma SomethingLeft(s: seq<Segment>, from: nat, to: nat)
    requires AllNonempty(s) && from <= to < |s|
    ensures Join(s[from..to + 1]) != ""
  {
    TakeFirst(s, from, to);
  }

  /** One side consumed: the other side's rest is the difference. */
  lemma OneRest(prefix: string, suffix: string, u: string, v: string, atStart: bool, atEnd: bool)
    requires u == "" || v == ""
    ensures Split(prefix, suffix, u, v, atStart, atEnd) == Diff(prefix, suffix, u, v)
  {
    assert SharedEnd(u, v, atEnd) == 0 && SharedStart(u, v, 0, atStart) == 0;
    assert prefix + "" == prefix && "" + suffix == suffix;
  }

  /** A prefix or suffix that is too long for one side spoils the result, unless the left
      text begins the right one. */
  lemma TooLong(left: string, right: string, d: Diff)
    requires d.left != "" || d.right != ""
    requires |left| < |d.prefix| + |d.left| + |d.suffix| || |right| < |d.prefix| + |d.right| + |d.suffix|
    ensures Rebuilds(left, right, Correct(left, right, d)) <==> d.left == "" && left <= right
  {
    if d.left == "" && left <= right {
      assert left + right[|left|..] + "" == right && left + "" + "" == left;
    }
  }

  /** Only the left side consumed in the loop. */
  lemma LeftDoneOnly(l: seq<Segment>, r: seq<Segment>, x: State)
    requires Balanced(l, r, x) && x.leftDone && !x.rightDone && AllNonempty(r)
    ensures Rebuilds(Join(l), Join(r), Correct(Join(l), Join(r), Trim(l, r, MatchSingle(l, r, x)))) <==>
            !(if x.rs == x.re then l[x.ls] == r[x.rs] && l[x.ls].kind.Marker?
              else (l[x.ls] == r[x.re] || l[x.ls] == r[x.rs]) && !(Join(l) <= Join(r)))
  {
    var y := MatchSingle(l, r, x);
    SomethingLeft(r, x.rs, x.re);
    if y == x {
      TrimBalanced(l, r, x);
      CorrectKeeps(Join(l), Join(r), Trim(l, r, x));
    } else if y.rightDone {
      NoDifference(l, r, y);
      EmptyRests(Join(l), Join(r), "", "", false, false);
    } else {
      TrimAfterReuse(l, r, y);
      LeftReused(l, r, x, y, Trim(l, r, y));
    }
  }

  /** The step after the loop uses the last left segment a second time; `d` is what it leaves. */
  lemma LeftReused(l: seq<Segment>, r: seq<Segment>, x: State, y: State, d: Diff)
    requires Balanced(l, r, x) && x.leftDone && !x.rightDone && AllNonempty(r)
    requires y == MatchSingle(l, r, x) != x && !y.rightDone && d == Diff(y.prefix, y.suffix, "", Rest(r, y.rs, y.re, false))
    ensures x.rs != x.re && (l[x.ls] == r[x.re] || l[x.ls] == r[x.rs])
    ensures Rebuilds(Join(l), Join(r), Correct(Join(l), Join(r), d)) <==> Join(l) <= Join(r)
  {
    LeftReuseGrows(l, r, x);
    SomethingLeft(r, y.rs, y.re);
    LongerThanLeft(Join(l), Join(r), d);
  }

  lemma LongerThanLeft(left: string, right: string, d: Diff)
    requires d.left == "" && d.right != "" && |left| < |d.prefix| + |d.suffix|
    ensures Rebuilds(left, right, Correct(left, right, d)) <==> left <= right
  {
    TooLong(left, right, d);
  }

  lemma LeftReuseGrows(l: seq<Segment>, r: seq<Segment>, x: State)
    requires Balanced(l, r, x) && x.leftDone && !x.rightDone && AllNonempty(r)
    requires MatchSingle(l, r, x) != x && !MatchSingle(l, r, x).rightDone
    ensures x.rs != x.re && (l[x.ls] == r[x.re] || l[x.ls] == r[x.rs])
    ensures var y := MatchSingle(l, r, x);
            y.leftDone && !y.rightDone && y.rs <= y.re && |Join(l)| < |y.prefix| + |y.suffix|
  {
    assert r[x.rs].value != "" && r[x.re].value != "";
    assert |Join(l)| == |x.prefix| + |x.suffix|;
  }

  lemma TrimAfterReuse(l: seq<Segment>, r: seq<Segment>, y: State)
    requires InRange(l, r, y) && y.leftDone && !y.rightDone
    ensures Trim(l, r, y) == Diff(y.prefix, y.suffix, "", Rest(r, y.rs, y.re, false))
  {
    OneRest(y.prefix, y.suffix, "", Rest(r, y.rs, y.re, false), l[y.ls].kind.Text? && r[y.rs].kind.Text?, l[y.le].kind.Text? && r[y.re].kind.Text?);
  }

  lemma RightDoneOnly(l: seq<Segment>, r: seq<Segment>, x: State)
    requires Balanced(l, r, x) && x.rightDone && !x.leftDone && AllNonempty(l)
    ensures Rebuilds(Join(l), Join(r), Correct(Join(l), Join(r), Trim(l, r, MatchSingle(l, r, x)))) <==>
            !(if x.ls == x.le then l[x.ls] == r[x.rs] && l[x.ls].kind.Marker?
              else l[x.le] == r[x.rs] || l[x.ls] == r[x.rs])
  {
    var y := MatchSingle(l, r, x);
    SomethingLeft(l, x.ls, x.le);
    if y == x {
      TrimBalanced(l, r, x);
      CorrectKeeps(Join(l), Join(r), Trim(l, r, x));
    } else if y.leftDone {
      NoDifference(l, r, y);
      EmptyRests(Join(l), Join(r), "", "", false, false);
    } else {
      TrimAfterRightReuse(l, r, y);
      RightReused(l, r, x, y, Trim(l, r, y));
    }
  }

  lemma RightReused(l: seq<Segment>, r: seq<Segment>, x: State, y: State, d: Diff)
    requires Balanced(l, r, x) && x.rightDone && !x.leftDone && AllNonempty(l) && x.ls != x.le
    requires l[x.le] == r[x.rs] || l[x.ls] == r[x.rs]
    requires y == MatchSingle(l, r, x) && d == Diff(y.prefix, y.suffix, Rest(l, y.ls, y.le, false), "")
    ensures !Rebuilds(Join(l), Join(r), Correct(Join(l), Join(r), d))
  {
    RightReuseGrows(l, r, x);
    SomethingLeft(l, y.ls, y.le);
    LongerThanRight(Join(l), Join(r), d);
  }

  /** With something left over on the left side and too much shared text, nothing is mended. */
  lemma LongerThanRight(left: string, right: string, d: Diff)
    requires d.left != "" && d.right == "" && |right| < |d.prefix| + |d.suffix|
    ensures !Rebuilds(left, right, Correct(left, right, d))
  {
    TooLong(left, right, d);
  }

  lemma RightReuseGrows(l: seq<Segment>, r: seq<Segment>, x: State)
    requires Balanced(l, r, x) && x.rightDone && !x.leftDone && AllNonempty(l) && x.ls != x.le
    requires l[x.le] == r[x.rs] || l[x.ls] == r[x.rs]
    ensures var y := MatchSingle(l, r, x);
            y.rightDone && !y.leftDone && y.ls <= y.le && |Join(r)| < |y.prefix| + |y.suffix|
  {
    assert l[x.ls].value != "" && l[x.le].value != "";
    assert |Join(r)| == |x.prefix| + |x.suffix|;
  }

  lemma TrimAfterRightReuse(l: seq<Segment>, r: seq<Segment>, y: State)
    requires InRange(l, r, y) && y.rightDone && !y.leftDone
    ensures Trim(l, r, y) == Diff(y.prefix, y.suffix, Rest(l, y.ls, y.le, false), "")
  {
    OneRest(y.prefix, y.suffix, Rest(l, y.ls, y.le, false), "", l[y.ls].kind.Text? && r[y.rs].kind.Text?, l[y.le].kind.Text? && r[y.re].kind.Text?);
  }

  /** Main theorem: the result rebuilds both texts exactly when no consumed segment is matched
      again. */
  lemma RebuildsExactlyWithoutReuse(left: string, right: string, l: seq<Segment>, r: seq<Segment>)
    requires Segmented(l) && Segmented(r) && Join(l) == left && Join(r) == right
    ensures Rebuilds(left, right, DiffOf(left, right, l, r)) <==> !Reuses(left, right, l, r)
  {
    SegmentsNonempty(l);
    SegmentsNonempty(r);
    if l == [] || r == [] {
      assert "" + right + "" == right && "" + left + "" == left;
    } else {
      var x := LoopExit(l, r);
      ExitBalanced(l, r);
      if x.leftDone && x.rightDone {
        BothDoneEqual(l, r, x);
        NoDifference(l, r, MatchSingle(l, r, x));
        EmptyRests(left, right, "", "", false, false);
      } else if x.leftDone {
        LeftDoneOnly(l, r, x);
      } else if x.rightDone {
        RightDoneOnly(l, r, x);
      } else {
        SingleBalanced(l, r, x);
        TrimBalanced(l, r, MatchSingle(l, r, x));
        CorrectKeeps(left, right, Trim(l, r, MatchSingle(l, r, x)));
      }
    }
  }

  /** A side that the loop has consumed was consumed against a segment of the other side that
      is consumed with it. */
  predicate Taken(l: seq<Segment>, r: seq<Segment>, x: State) {
    && InRange(l, r, x)
    && (x.leftDone && !x.rightDone ==> x.re + 1 < |r| && l[x.ls] == r[x.re + 1])
    && (x.rightDone && !x.leftDone ==> x.le + 1 < |l| && r[x.rs] == l[x.le + 1])
  }

  lemma {:induction false} LoopTakes(l: seq<Segment>, r: seq<Segment>, x: State)
    requires Taken(l, r, x) && (x.ls != x.le && x.rs != x.re ==> !x.leftDone && !x.rightDone)
    ensures Taken(l, r, Loop(l, r, x))
    decreases x.le - x.ls + x.re - x.rs
  {
    if x.ls != x.le && x.rs != x.re && (l[x.ls] == r[x.rs] || l[x.le] == r[x.re]) {
      LoopTakes(l, r, MatchEnd(l, r, MatchStart(l, r, x)));
    }
  }

  predicate NoRepeats(s: seq<Segment>) {
    forall i, j :: 0 <= i < j < |s| ==> s[i] != s[j]
  }

  /** A condition on the texts alone: when no segment occurs twice in either of them, nothing is
      matched again and the result rebuilds both. */
  lemma RebuildsWithoutRepeats(left: string, right: string)
    requires NoRepeats(Segmentation(left)) && NoRepeats(Segmentation(right))
    ensures Rebuilds(left, right, DiffOf(left, right, Segmentation(left), Segmentation(right)))
  {
    SegmentationJoins(left);
    SegmentationJoins(right);
    WithoutRepeats(left, right, Segmentation(left), Segmentation(right));
  }

  lemma WithoutRepeats(left: string, right: string, l: seq<Segment>, r: seq<Segment>)
    requires Segmented(l) && Segmented(r) && Join(l) == left && Join(r) == right && NoRepeats(l) && NoRepeats(r)
    ensures Rebuilds(left, right, DiffOf(left, right, l, r))
  {
    RebuildsExactlyWithoutReuse(left, right, l, r);
    NothingReused(left, right, l, r);
  }

  lemma NothingReused(left: string, right: string, l: seq<Segment>, r: seq<Segment>)
    requires NoRepeats(l) && NoRepeats(r)
    ensures !Reuses(left, right, l, r)
  {
    if l != [] && r != [] {
      LoopTakes(l, r, State(0, |l| - 1, 0, |r| - 1, "", "", false, false));
      NotTakenAgain(l, r, LoopExit(l, r));
    }
  }

  lemma NotTakenAgain(l: seq<Segment>, r: seq<Segment>, x: State)
    requires NoRepeats(l) && NoRepeats(r) && Taken(l, r, x)
    ensures x.leftDone && !x.rightDone ==> l[x.ls] != r[x.rs] && l[x.ls] != r[x.re]
    ensures x.rightDone && !x.leftDone ==> l[x.ls] != r[x.rs] && l[x.le] != r[x.rs]
  {
  }

  lemma SegmentsNonempty(s: seq<Segment>)
    requires Segmented(s)
    ensures AllNonempty(s)
  {
    forall i | 0 <= i < |s|
      ensures s[i].value != ""
    {
      assert Fits(s, i);
    }
  }

  const TAG_A := Segment(Marker, "<a>")
  const TAG_B := Segment(Marker, "<b>")

  lemma TagsAreSegmented()
    ensures Segmented([TAG_A, TAG_B]) && Join([TAG_A, TAG_B]) == "<a><b>"
    ensures Segmented([TAG_A, TAG_B, TAG_B]) && Join([TAG_A, TAG_B, TAG_B]) == "<a><b><b>"
  {
    assert IsMarker("<a>") && IsMarker("<b>");
    assert [TAG_A, TAG_B][1..] == [TAG_B] && [TAG_B][1..] == [];
    assert Join([TAG_B]) == "<b>" && "<a>" + "<b>" == "<a><b>";
    assert [TAG_A, TAG_B, TAG_B][1..] == [TAG_B, TAG_B] && [TAG_B, TAG_B][1..] == [TAG_B];
  }

  lemma TagsExit()
    ensures LoopExit([TAG_A, TAG_B], [TAG_A, TAG_B, TAG_B]) == State(1, 1, 1, 1, "<a>", "<b>", true, false)
  {
    var l, r := [TAG_A, TAG_B], [TAG_A, TAG_B, TAG_B];
    var x := State(0, 1, 0, 2, "", "", false, false);
    assert "" + "<a>" == "<a>" && "<b>" + "" == "<b>";
    assert MatchStart(l, r, x) == State(1, 1, 1, 2, "<a>", "", false, false);
    assert MatchEnd(l, r, MatchStart(l, r, x)) == State(1, 1, 1, 1, "<a>", "<b>", true, false);
  }

  /** A pair of texts that the code does not rebuild: the second `<b>` is lost. */
  lemma LosesRepeatedMarker()
    ensures var l, r := [TAG_A, TAG_B], [TAG_A, TAG_B, TAG_B];
            && Segmented(l) && Segmented(r) && Join(l) == "<a><b>" && Join(r) == "<a><b><b>"
            && Reuses("<a><b>", "<a><b><b>", l, r)
            && DiffOf("<a><b>", "<a><b><b>", l, r) == Diff("<a><b>", "", "", "")
  {
    var l, r := [TAG_A, TAG_B], [TAG_A, TAG_B, TAG_B];
    TagsAreSegmented();
    TagsExit();
    NoDifference(l, r, MatchSingle(l, r, LoopExit(l, r)));
  }

  // ----------------------------------------------------------------------- in place

  /** The loop over the two lists of segments. */
  method MatchEnds(l: seq<Segment>, r: seq<Segment>) returns (x: State)
    requires l != [] && r != []
    ensures x == LoopExit(l, r)
  {
    var ls: nat, le: nat, rs: nat, re: nat := 0, |l| - 1, 0, |r| - 1;
    var prefix, suffix := "", "";
    var leftDone, rightDone := false, false;
    while ls != le && rs != re
      invariant InRange(l, r, State(ls, le, rs, re, prefix, suffix, leftDone, rightDone))
      invariant ls != le && rs != re ==> !leftDone && !rightDone
      invariant Loop(l, r, State(ls, le, rs, re, prefix, suffix, leftDone, rightDone)) == LoopExit(l, r)
      decreases le - ls + re - rs
    {
      ghost var before := State(ls, le, rs, re, prefix, suffix, leftDone, rightDone);
      var advanced := false;
      if l[ls] == r[rs] {
        prefix := prefix + l[ls].value;
        ls, rs := ls + 1, rs + 1;
        advanced := true;
      }
      if l[le] == r[re] {
        suffix := l[le].value + suffix;
        if ls != le {
          le := le - 1;
        } else {
          leftDone := true;
        }
        if rs != re {
          re := re - 1;
        } else {
          rightDone := true;
        }
        advanced := true;
      }
      ghost var after := State(ls, le, rs, re, prefix, suffix, leftDone, rightDone);
      assert after == MatchEnd(l, r, MatchStart(l, r, before));
      if !advanced {
        break;
      }
    }
    x := State(ls, le, rs, re, prefix, suffix, leftDone, rightDone);
  }

  method CalculateDiffSplit(left: string, right: string) returns (d: Diff)
    ensures d == DiffOf(left, right, Segmentation(left), Segmentation(right))
    ensures Rebuilds(left, right, d) <==> !Reuses(left, right, Segmentation(left), Segmentation(right))
  {
    var leftSeg := SegmentizeMarkers(left);
    var rightSeg := SegmentizeMarkers(right);
    SegmentationIs(leftSeg);
    SegmentationIs(rightSeg);
    RebuildsExactlyWithoutReuse(left, right, leftSeg, rightSeg);
    if leftSeg == [] {
      return Diff("", "", "", right);
    }
    if rightSeg == [] {
      return Diff("", "", left, "");
    }
    var x := MatchEnds(leftSeg, rightSeg);
    var y := MatchSingle(leftSeg, rightSeg, x);
    var u, v := Rest(leftSeg, y.ls, y.le, y.leftDone), Rest(rightSeg, y.rs, y.re, y.rightDone);
    d := TrimRests(y.prefix, y.suffix, u, v,
                   leftSeg[y.ls].kind.Text? && rightSeg[y.rs].kind.Text?,
                   leftSeg[y.le].kind.Text? && rightSeg[y.re].kind.Text?);
    d := CorrectDiff(left, right, d);
  }

  method TrimRests(prefix: string, suffix: string, u: string, v: string, canHavePrefix: bool, canHaveSuffix: bool) returns (d: Diff)
    ensures d == Split(prefix, suffix, u, v, canHavePrefix, canHaveSuffix)
    ensures Rebuilds(prefix + u + suffix, prefix + v + suffix, d)
  {
    var s, p := 0, 0;
    if canHaveSuffix {
      s := CommonSuffixLen(u, v);
    }
    if canHavePrefix {
      p := CommonPrefixLen(u[..|u| - s], v[..|v| - s]);
    }
    assert s == SharedEnd(u, v, canHaveSuffix) && p == SharedStart(u, v, s, canHavePrefix);
    d := SplitAt(prefix, suffix, u, v, p, s);
    SplitRebuilds(prefix, suffix, u, v, canHavePrefix, canHaveSuffix);
  }

  method CorrectDiff(left: string, right: string, d: Diff) returns (e: Diff)
    ensures e == Correct(left, right, d)
  {
    e := d;
    if e.left == "" && e.right == "" {
      e := e.(prefix := left, suffix := "");
    }
    if e.left == "" && e.right != "" && |left| <= |right| && right[..|left|] == left {
      e := Diff(left, "", "", right[|left|..]);
    }
  }
}
