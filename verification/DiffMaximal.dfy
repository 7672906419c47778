/**
  What `calculate_diff_split` finds: everything that the two texts share at their ends, up to
  the first segments, and inside text the first characters, that differ.
 */
module DiffMaximal {
  import opened Markers
  import opened DiffSplit

  // --------------------------------------------------------------------- single segments

  /** A text between an opener and the first character that closes it is one marker. */
  lemma TagIsMarker(body: string, opener: char, closer: char)
    requires (opener == '<' && closer == '>') || (opener == '[' && closer == ']')
    requires closer !in body
    ensures Segmentation([opener] + body + [closer]) == [Segment(Marker, [opener] + body + [closer])]
  {
    var x := [opener] + body + [closer];
    var s := [Segment(Marker, x)];
    forall i | 0 < i < |x| - 1
      ensures x[i] != closer
    {
      assert x[i] == body[i - 1];
    }
    assert Fits(s, 0);
    OneSegment(x, s);
  }

  /** A text without openers is one piece of text. */
  lemma PlainIsText(x: string)
    requires x != "" && '<' !in x && '[' !in x
    ensures Segmentation(x) == [Segment(Text, x)]
  {
    var s := [Segment(Text, x)];
    assert Fits(s, 0);
    OneSegment(x, s);
  }

  /** An opener that nothing closes begins text. */
  lemma UnclosedIsText(body: string, opener: char, closer: char)
    requires (opener == '<' && closer == '>') || (opener == '[' && closer == ']')
    requires closer !in body
    ensures Segmentation([opener] + body) == [Segment(Text, [opener] + body)]
  {
    var x := [opener] + body;
    var s := [Segment(Text, x)];
    forall i | 0 < i < |x|
      ensures x[i] != closer
    {
      assert x[i] == body[i - 1];
    }
    assert Fits(s, 0);
    OneSegment(x, s);
  }

  lemma OneSegment(x: string, s: seq<Segment>)
    requires |s| == 1 && s[0].value == x && Segmented(s)
    ensures Segmentation(x) == s
  {
    assert s[1..] == [] && Join(s) == x + "";
    SegmentationJoins(x);
    SegmentationUnique(Segmentation(x), s);
  }

  // ------------------------------------------------------------- how the segments match

  /** The segments consumed so far are the same on both sides and make up the prefix and the
      suffix. */
  predicate Aligned(l: seq<Segment>, r: seq<Segment>, x: State) {
    && InRange(l, r, x) && !x.leftDone && !x.rightDone
    && l[..x.ls] == r[..x.rs] && x.prefix == Join(l[..x.ls])
    && l[x.le + 1..] == r[x.re + 1..] && x.suffix == Join(l[x.le + 1..])
  }

  lemma StartStaysAligned(l: seq<Segment>, r: seq<Segment>, x: State)
    requires Aligned(l, r, x) && x.ls != x.le && x.rs != x.re
    ensures Aligned(l, r, MatchStart(l, r, x))
  {
    if l[x.ls] == r[x.rs] {
      assert l[..x.ls + 1] == l[..x.ls] + [l[x.ls]] && r[..x.rs + 1] == r[..x.rs] + [r[x.rs]];
      JoinExtend(l[..x.ls], l[x.ls]);
    }
  }

  lemma EndStaysAligned(l: seq<Segment>, r: seq<Segment>, x: State)
    requires Aligned(l, r, x)
    ensures var y := MatchEnd(l, r, x); y.leftDone || y.rightDone || Aligned(l, r, y)
  {
    if l[x.le] == r[x.re] && x.ls != x.le && x.rs != x.re {
      assert l[x.le..] == [l[x.le]] + l[x.le + 1..] && r[x.re..] == [r[x.re]] + r[x.re + 1..];
      assert l[x.le..][1..] == l[x.le + 1..];
    }
  }

  lemma {:induction false} LoopStaysAligned(l: seq<Segment>, r: seq<Segment>, x: State)
    requires Aligned(l, r, x)
    ensures var y := Loop(l, r, x); y.leftDone || y.rightDone || Aligned(l, r, y)
    decreases x.le - x.ls + x.re - x.rs
  {
    if x.ls != x.le && x.rs != x.re {
      StartStaysAligned(l, r, x);
      var m := MatchStart(l, r, x);
      EndStaysAligned(l, r, m);
      var y := MatchEnd(l, r, m);
      if l[x.ls] == r[x.rs] || l[x.le] == r[x.re] {
        if y.leftDone || y.rightDone {
          LoopEnds(l, r, y);
        } else {
          LoopStaysAligned(l, r, y);
        }
      }
    }
  }

  /** A consumed side ends the loop. */
  lemma LoopEnds(l: seq<Segment>, r: seq<Segment>, x: State)
    requires InRange(l, r, x) && (x.leftDone || x.rightDone)
    ensures Loop(l, r, x) == x
  {
  }

  lemma ExitAligned(l: seq<Segment>, r: seq<Segment>)
    requires l != [] && r != []
    ensures var x := LoopExit(l, r); x.leftDone || x.rightDone || Aligned(l, r, x)
  {
    var x := State(0, |l| - 1, 0, |r| - 1, "", "", false, false);
    assert l[..0] == r[..0] == [] && l[|l|..] == r[|r|..] == [];
    LoopStaysAligned(l, r, x);
  }

  predicate BothText(a: Segment, b: Segment) {
    a.kind == Text && b.kind == Text
  }

  /** Where the two sides stand after all matches, when neither is consumed. */
  lemma NothingMatches(l: seq<Segment>, r: seq<Segment>)
    requires l != [] && r != []
    ensures var x := LoopExit(l, r);
            var y := MatchSingle(l, r, x);
            !y.leftDone && !y.rightDone ==>
              && y == x && Aligned(l, r, y)
              && ((l[y.ls] != r[y.rs] && l[y.le] != r[y.re])
                  || (y.ls == y.le && y.rs == y.re && l[y.ls] == r[y.rs] && l[y.ls].kind == Text))
  {
    ExitBalanced(l, r);
    ExitAligned(l, r);
  }

  // ----------------------------------------------------------------------- inside text

  /** The split leaves no shared character at an end that may be cut. */
  lemma SplitIsMaximal(prefix: string, suffix: string, u: string, v: string, atStart: bool, atEnd: bool)
    ensures var d := Split(prefix, suffix, u, v, atStart, atEnd);
            d.left != "" && d.right != "" ==>
              && (if atStart then d.left[0] != d.right[0] else d.prefix == prefix)
              && (if atEnd then d.left[|d.left| - 1] != d.right[|d.right| - 1] else d.suffix == suffix)
  {
    var s := SharedEnd(u, v, atEnd);
    var p := SharedStart(u, v, s, atStart);
    var d := SplitAt(prefix, suffix, u, v, p, s);
    if d.left != "" && d.right != "" {
      assert d.left[0] == u[p] && d.right[0] == v[p];
      assert d.left[|d.left| - 1] == u[|u| - 1 - s] && d.right[|d.right| - 1] == v[|v| - 1 - s];
      if atStart {
        assert u[..|u| - s][p] == u[p] && v[..|v| - s][p] == v[p];
      }
    }
  }

  lemma SameTextLeavesNothing(prefix: string, suffix: string, u: string, atStart: bool)
    ensures Split(prefix, suffix, u, u, atStart, true).left == ""
  {
    SharedEndOfSame(u);
  }

  lemma SharedEndOfSame(u: string)
    ensures SharedEnd(u, u, true) == |u|
  {
  }

  /** With something left on both sides the last corrections do nothing. */
  lemma Uncorrected(left: string, right: string, l: seq<Segment>, r: seq<Segment>)
    requires l != [] && r != [] && DiffOf(left, right, l, r).left != "" && DiffOf(left, right, l, r).right != ""
    ensures DiffOf(left, right, l, r) == Trim(l, r, MatchSingle(l, r, LoopExit(l, r)))
  {
  }

  lemma RestOfDone(l: seq<Segment>, r: seq<Segment>, y: State)
    requires InRange(l, r, y) && Trim(l, r, y).left != "" && Trim(l, r, y).right != ""
    ensures !y.leftDone && !y.rightDone
  {
    NothingToSplit(y.prefix, y.suffix, Rest(l, y.ls, y.le, y.leftDone), Rest(r, y.rs, y.re, y.rightDone),
                   BothText(l[y.ls], r[y.rs]), BothText(l[y.le], r[y.re]));
  }

  lemma NothingToSplit(prefix: string, suffix: string, u: string, v: string, atStart: bool, atEnd: bool)
    ensures var d := Split(prefix, suffix, u, v, atStart, atEnd); d.left != "" && d.right != "" ==> u != "" && v != ""
  {
    if u == "" || v == "" {
      OneRest(prefix, suffix, u, v, atStart, atEnd);
    }
  }

  predicate EndsWith(s: string, t: string) {
    |t| <= |s| && s[|s| - |t|..] == t
  }

  /** Splitting only adds to what is shared. */
  lemma SplitKeeps(prefix: string, suffix: string, u: string, v: string, atStart: bool, atEnd: bool)
    ensures var d := Split(prefix, suffix, u, v, atStart, atEnd); prefix <= d.prefix && EndsWith(d.suffix, suffix)
  {
  }

  /** Everything before and behind what is left is shared, and nothing more could be. */
  predicate IsMaximal(l: seq<Segment>, r: seq<Segment>, y: State, d: Diff)
    requires InRange(l, r, y) && d.left != "" && d.right != ""
  {
    && l[..y.ls] == r[..y.rs] && l[y.le + 1..] == r[y.re + 1..]
    && l[y.ls] != r[y.rs] && l[y.le] != r[y.re]
    && (if BothText(l[y.ls], r[y.rs]) then d.left[0] != d.right[0] && Join(l[..y.ls]) <= d.prefix
        else d.prefix == Join(l[..y.ls]))
    && (if BothText(l[y.le], r[y.re]) then d.left[|d.left| - 1] != d.right[|d.right| - 1] && EndsWith(d.suffix, Join(l[y.le + 1..]))
        else d.suffix == Join(l[y.le + 1..]))
  }

  /** Two equal last texts would have left nothing. */
  lemma SameTextIsShared(l: seq<Segment>, r: seq<Segment>, y: State)
    requires InRange(l, r, y) && !y.leftDone && !y.rightDone && y.ls == y.le && y.rs == y.re
    requires l[y.ls] == r[y.rs] && l[y.ls].kind == Text
    ensures Trim(l, r, y).left == ""
  {
    assert l[y.ls..y.le + 1] == r[y.rs..y.re + 1];
    SameTextLeavesNothing(y.prefix, y.suffix, Rest(l, y.ls, y.le, false), true);
  }

  lemma TrimIsMaximal(l: seq<Segment>, r: seq<Segment>, y: State, d: Diff)
    requires Aligned(l, r, y) && l[y.ls] != r[y.rs] && l[y.le] != r[y.re]
    requires d == Trim(l, r, y) && d.left != "" && d.right != ""
    ensures IsMaximal(l, r, y, d)
  {
    var u, v := Rest(l, y.ls, y.le, false), Rest(r, y.rs, y.re, false);
    SplitIsMaximal(y.prefix, y.suffix, u, v, BothText(l[y.ls], r[y.rs]), BothText(l[y.le], r[y.re]));
    SplitKeeps(y.prefix, y.suffix, u, v, BothText(l[y.ls], r[y.rs]), BothText(l[y.le], r[y.re]));
  }

  /** Main theorem: when the result leaves something on both sides, everything before and behind
      is shared, and nothing more could be: the prefix and the suffix are the matched segments,
      which are the same on both sides; the next segments differ at both ends; where both next
      segments are text, the prefix (or suffix) goes on to the first character that differs;
      and a marker is never cut. */
  lemma NothingSharedRemains(left: string, right: string, l: seq<Segment>, r: seq<Segment>)
    requires l != [] && r != []
    requires DiffOf(left, right, l, r).left != "" && DiffOf(left, right, l, r).right != ""
    ensures IsMaximal(l, r, LoopExit(l, r), DiffOf(left, right, l, r))
  {
    var y := MatchSingle(l, r, LoopExit(l, r));
    Uncorrected(left, right, l, r);
    RestOfDone(l, r, y);
    NothingMatches(l, r);
    if y.ls == y.le && y.rs == y.re && l[y.ls] == r[y.rs] && l[y.ls].kind == Text {
      SameTextIsShared(l, r, y);
    }
    TrimIsMaximal(l, r, y, Trim(l, r, y));
  }

  // ------------------------------------------------------- first and last segments

  /** What the loop has matched stays matched. */
  predicate Keeps(x: State, y: State) {
    x.prefix <= y.prefix && EndsWith(y.suffix, x.suffix)
  }

  lemma KeepsAgain(x: State, y: State, z: State)
    requires Keeps(x, y) && Keeps(y, z)
    ensures Keeps(x, z)
  {
    EndsAgain(z.suffix, y.suffix, x.suffix);
  }

  lemma EndsAgain(a: string, b: string, c: string)
    requires EndsWith(a, b) && EndsWith(b, c)
    ensures EndsWith(a, c)
  {
    assert a[|a| - |c|..] == a[|a| - |b|..][|b| - |c|..];
  }

  lemma TurnKeeps(l: seq<Segment>, r: seq<Segment>, x: State)
    requires InRange(l, r, x) && x.ls != x.le && x.rs != x.re && !x.leftDone && !x.rightDone
    ensures Keeps(x, MatchEnd(l, r, MatchStart(l, r, x)))
  {
  }

  lemma {:induction false} LoopKeeps(l: seq<Segment>, r: seq<Segment>, x: State)
    requires InRange(l, r, x) && (x.ls != x.le && x.rs != x.re ==> !x.leftDone && !x.rightDone)
    ensures Keeps(x, Loop(l, r, x))
    decreases x.le - x.ls + x.re - x.rs
  {
    if x.ls != x.le && x.rs != x.re {
      TurnKeeps(l, r, x);
      if l[x.ls] == r[x.rs] || l[x.le] == r[x.re] {
        var y := MatchEnd(l, r, MatchStart(l, r, x));
        LoopKeeps(l, r, y);
        KeepsAgain(x, y, Loop(l, r, y));
      }
    } else {
      assert x.suffix[0..] == x.suffix;
    }
  }

  lemma SingleKeeps(l: seq<Segment>, r: seq<Segment>, x: State)
    requires InRange(l, r, x)
    ensures Keeps(x, MatchSingle(l, r, x))
  {
  }

  /** The first turn of the loop matches the first segments and the last ones. */
  lemma FirstTurn(l: seq<Segment>, r: seq<Segment>, x: State)
    requires |l| > 1 && |r| > 1 && x == State(0, |l| - 1, 0, |r| - 1, "", "", false, false)
    ensures var y := MatchEnd(l, r, MatchStart(l, r, x));
            && (l[0] == r[0] ==> l[0].value <= y.prefix)
            && (l[|l| - 1] == r[|r| - 1] ==> EndsWith(y.suffix, l[|l| - 1].value))
  {
  }

  lemma LongLists(l: seq<Segment>, r: seq<Segment>)
    requires |l| > 1 && |r| > 1
    ensures var y := MatchSingle(l, r, LoopExit(l, r));
            && (l[0] == r[0] ==> l[0].value <= y.prefix)
            && (l[|l| - 1] == r[|r| - 1] ==> EndsWith(y.suffix, l[|l| - 1].value))
  {
    var x := State(0, |l| - 1, 0, |r| - 1, "", "", false, false);
    var m := MatchEnd(l, r, MatchStart(l, r, x));
    FirstTurn(l, r, x);
    if l[0] == r[0] || l[|l| - 1] == r[|r| - 1] {
      LoopKeeps(l, r, m);
      SingleKeeps(l, r, LoopExit(l, r));
      KeepsAgain(m, LoopExit(l, r), MatchSingle(l, r, LoopExit(l, r)));
      if l[|l| - 1] == r[|r| - 1] {
        EndsAgain(MatchSingle(l, r, LoopExit(l, r)).suffix, m.suffix, l[|l| - 1].value);
      }
    }
  }

  lemma CorrectedKeeps(left: string, right: string, prefix: string, suffix: string, d: Diff)
    requires prefix <= d.prefix && EndsWith(d.suffix, suffix)
    ensures var e := Correct(left, right, d);
            if e.left == "" && (e.right == "" || left <= right) then e.prefix == left && e.suffix == ""
            else prefix <= e.prefix && EndsWith(e.suffix, suffix)
  {
  }

  /** What is shared by the segments is shared by the result, unless all of it is the prefix. */
  lemma ResultKeeps(left: string, right: string, l: seq<Segment>, r: seq<Segment>, y: State)
    requires l != [] && r != [] && y == MatchSingle(l, r, LoopExit(l, r))
    ensures var d := DiffOf(left, right, l, r);
            if d.left == "" && (d.right == "" || left <= right) then d.prefix == left && d.suffix == ""
            else y.prefix <= d.prefix && EndsWith(d.suffix, y.suffix)
  {
    TrimKeeps(l, r, y);
    CorrectedKeeps(left, right, y.prefix, y.suffix, Trim(l, r, y));
  }

  lemma TrimKeeps(l: seq<Segment>, r: seq<Segment>, y: State)
    requires InRange(l, r, y)
    ensures y.prefix <= Trim(l, r, y).prefix && EndsWith(Trim(l, r, y).suffix, y.suffix)
  {
    SplitKeeps(y.prefix, y.suffix, Rest(l, y.ls, y.le, y.leftDone), Rest(r, y.rs, y.re, y.rightDone),
               l[y.ls].kind.Text? && r[y.rs].kind.Text?, l[y.le].kind.Text? && r[y.re].kind.Text?);
  }

  /** Main theorem: equal last segments are in the suffix, unless the whole left text is the
      prefix. */
  lemma EqualEndsAreShared(left: string, right: string, l: seq<Segment>, r: seq<Segment>)
    requires l != [] && r != [] && Segmented(l) && Segmented(r) && Join(l) == left && Join(r) == right
    requires l[|l| - 1] == r[|r| - 1]
    ensures var d := DiffOf(left, right, l, r);
            if d.left == "" && (d.right == "" || left <= right) then d.prefix == left && d.suffix == ""
            else EndsWith(d.suffix, l[|l| - 1].value)
  {
    var y := MatchSingle(l, r, LoopExit(l, r));
    if |l| == 1 && |r| == 1 {
      OnePair(left, right, l, r);
    } else {
      if |l| > 1 && |r| > 1 {
        LongLists(l, r);
      } else {
        OneAtEnd(l, r, y);
      }
      EndKept(left, right, l, r, y, l[|l| - 1].value);
    }
  }

  lemma OneAtEnd(l: seq<Segment>, r: seq<Segment>, y: State)
    requires l != [] && r != [] && l[|l| - 1] == r[|r| - 1] && (|l| == 1) != (|r| == 1)
    requires y == MatchSingle(l, r, LoopExit(l, r))
    ensures EndsWith(y.suffix, l[|l| - 1].value)
  {
  }

  lemma EndKept(left: string, right: string, l: seq<Segment>, r: seq<Segment>, y: State, v: string)
    requires l != [] && r != [] && y == MatchSingle(l, r, LoopExit(l, r)) && EndsWith(y.suffix, v)
    ensures var d := DiffOf(left, right, l, r);
            if d.left == "" && (d.right == "" || left <= right) then d.prefix == left && d.suffix == "" else EndsWith(d.suffix, v)
  {
    ResultKeeps(left, right, l, r, y);
    var d := DiffOf(left, right, l, r);
    if !(d.left == "" && (d.right == "" || left <= right)) {
      EndsAgain(d.suffix, y.suffix, v);
    }
  }

  /** One segment on both sides, the same: the texts are equal. */
  lemma OnePair(left: string, right: string, l: seq<Segment>, r: seq<Segment>)
    requires |l| == |r| == 1 && l[0] == r[0] && Join(l) == left && Join(r) == right
    ensures DiffOf(left, right, l, r) == Diff(left, "", "", "")
  {
    var x := LoopExit(l, r);
    var y := MatchSingle(l, r, x);
    assert l == r;
    if y.leftDone {
      NoDifference(l, r, y);
    } else {
      SameTextIsShared(l, r, y);
      SameTextIsShared(r, l, y);
      TwoSame(l, y);
    }
  }

  lemma TwoSame(l: seq<Segment>, y: State)
    requires InRange(l, l, y) && Trim(l, l, y).left == ""
    requires y.ls == y.rs && y.le == y.re && y.leftDone == y.rightDone
    ensures Trim(l, l, y).right == ""
  {
  }

  /** Equal first segments are in the prefix; the one exception is a right text of one segment
      that a longer left text also ends in: there it is the suffix. */
  lemma EqualStartsAreShared(left: string, right: string, l: seq<Segment>, r: seq<Segment>)
    requires l != [] && r != [] && Segmented(l) && Segmented(r) && Join(l) == left && Join(r) == right
    requires l[0] == r[0]
    ensures var d := DiffOf(left, right, l, r);
            if |r| == 1 && |l| > 1 && l[|l| - 1] == r[0] then d == Diff("", right, Join(l[..|l| - 1]), "")
            else l[0].value <= d.prefix
  {
    ResultKeeps(left, right, l, r, MatchSingle(l, r, LoopExit(l, r)));
    JoinBegins(l);
    JoinBegins(r);
    if |l| > 1 && |r| > 1 {
      LongLists(l, r);
    } else if |l| == 1 && |r| == 1 {
      OnePair(left, right, l, r);
    } else if |r| == 1 {
      OnlyRight(left, right, l, r);
    } else {
      OnlyLeft(left, right, l, r);
    }
  }

  lemma JoinBegins(s: seq<Segment>)
    requires s != []
    ensures s[0].value <= Join(s) && (|s| == 1 ==> Join(s) == s[0].value)
  {
    if |s| == 1 {
      assert s[1..] == [] && s[0].value + "" == s[0].value;
    }
  }

  lemma CorrectedToLeft(left: string, right: string, d: Diff)
    requires d.left == "" && left <= right
    ensures Correct(left, right, d).prefix == left
  {
  }

  lemma NotCorrected(left: string, right: string, d: Diff)
    requires d.left != ""
    ensures Correct(left, right, d) == d
  {
  }

  /** The left text is one segment, with which the right text begins. */
  lemma OnlyLeft(left: string, right: string, l: seq<Segment>, r: seq<Segment>)
    requires |l| == 1 && |r| > 1 && l[0] == r[0] && Join(l) == left && Join(r) == right
    ensures DiffOf(left, right, l, r).prefix == left
  {
    JoinBegins(l);
    JoinBegins(r);
    var y := MatchSingle(l, r, LoopExit(l, r));
    LeftTaken(l, r, y);
    TrimAfterReuse(l, r, y);
    CorrectedToLeft(left, right, Trim(l, r, y));
  }

  lemma LeftTaken(l: seq<Segment>, r: seq<Segment>, y: State)
    requires |l| == 1 && |r| > 1 && l[0] == r[0] && y == MatchSingle(l, r, LoopExit(l, r))
    ensures y.leftDone && !y.rightDone
  {
  }

  lemma RightTaken(l: seq<Segment>, r: seq<Segment>, y: State)
    requires |r| == 1 && |l| > 1 && l[0] == r[0] && y == MatchSingle(l, r, LoopExit(l, r))
    ensures !y.leftDone && y.rightDone && y.ls <= y.le
    ensures if l[|l| - 1] == r[0] then y.ls == 0 && y.le == |l| - 2 && y.prefix == "" && y.suffix == r[0].value
            else y.prefix == l[0].value
  {
    assert r[0].value + "" == r[0].value && "" + l[0].value == l[0].value;
  }

  /** What is left when the right text is consumed and the left one is not. */
  lemma RightConsumed(left: string, right: string, l: seq<Segment>, r: seq<Segment>, y: State, rest: string)
    requires l != [] && r != [] && y == MatchSingle(l, r, LoopExit(l, r)) && y.rightDone && !y.leftDone
    requires rest == Rest(l, y.ls, y.le, false) && rest != ""
    ensures DiffOf(left, right, l, r) == Diff(y.prefix, y.suffix, rest, "")
  {
    TrimAfterRightReuse(l, r, y);
    NotCorrected(left, right, Diff(y.prefix, y.suffix, rest, ""));
  }

  lemma SomeRest(s: seq<Segment>, from: nat, to: nat)
    requires Segmented(s) && from <= to < |s|
    ensures Rest(s, from, to, false) != ""
  {
    SegmentsNonempty(s);
    SomethingLeft(s, from, to);
  }

  lemma RestOfAllButLast(l: seq<Segment>, from: nat, to: nat)
    requires |l| > 1 && from == 0 && to == |l| - 2
    ensures Rest(l, from, to, false) == Join(l[..|l| - 1])
  {
    assert l[0..|l| - 1] == l[..|l| - 1];
  }

  /** The right text is one segment, with which the left text begins. */
  lemma OnlyRight(left: string, right: string, l: seq<Segment>, r: seq<Segment>)
    requires |r| == 1 && |l| > 1 && l[0] == r[0] && Join(l) == left && Join(r) == right && Segmented(l)
    ensures var d := DiffOf(left, right, l, r);
            if l[|l| - 1] == r[0] then d == Diff("", right, Join(l[..|l| - 1]), "") else l[0].value <= d.prefix
  {
    var y := MatchSingle(l, r, LoopExit(l, r));
    RightTaken(l, r, y);
    RightLeaves(left, right, l, r, y);
    if l[|l| - 1] == r[0] {
      JoinBegins(r);
      RestOfAllButLast(l, y.ls, y.le);
    }
  }

  lemma RightLeaves(left: string, right: string, l: seq<Segment>, r: seq<Segment>, y: State)
    requires l != [] && r != [] && y == MatchSingle(l, r, LoopExit(l, r)) && y.rightDone && !y.leftDone && Segmented(l)
    ensures DiffOf(left, right, l, r) == Diff(y.prefix, y.suffix, Rest(l, y.ls, y.le, false), "")
  {
    SomeRest(l, y.ls, y.le);
    RightConsumed(left, right, l, r, y, Rest(l, y.ls, y.le, false));
  }

  // -------------------------------------------------------------------- texts without markers

  predicate IsLongestStart(u: string, v: string, n: nat) {
    n <= |u| && n <= |v| && u[..n] == v[..n] && (n < |u| && n < |v| ==> u[n] != v[n])
  }

  predicate IsLongestEnd(u: string, v: string, n: nat) {
    n <= |u| && n <= |v| && u[|u| - n..] == v[|v| - n..] && (n < |u| && n < |v| ==> u[|u| - 1 - n] != v[|v| - 1 - n])
  }

  /** For texts without openers the suffix is the longest common end, the prefix the longest
      common start of what is left, and a left text that begins the right one is the prefix. */
  lemma PlainTexts(left: string, right: string) returns (p: nat, s: nat)
    requires left != "" && right != "" && '<' !in left && '[' !in left && '<' !in right && '[' !in right
    ensures IsLongestEnd(left, right, s) && IsLongestStart(left[..|left| - s], right[..|right| - s], p)
    ensures DiffOf(left, right, Segmentation(left), Segmentation(right)) ==
            if left <= right && p + s == |left| then Diff(left, "", "", right[|left|..])
            else Diff(left[..p], left[|left| - s..], left[p..|left| - s], right[p..|right| - s])
  {
    PlainDiff(left, right);
    p, s := LongestEnds(left, right);
    if p + s == |left| {
      WholeLeft(left, right, p, s);
    }
    CorrectedSplit(left, right, p, s);
  }

  lemma LongestEnds(left: string, right: string) returns (p: nat, s: nat)
    ensures s <= |left| && s <= |right| && IsLongestEnd(left, right, s) && IsLongestStart(left[..|left| - s], right[..|right| - s], p)
    ensures p + s <= Shorter(left, right) && left[..p] == right[..p] && left[|left| - s..] == right[|right| - s..]
    ensures Split("", "", left, right, true, true) == SplitAt("", "", left, right, p, s)
  {
    s := SharedEnd(left, right, true);
    p := SharedStart(left, right, s, true);
  }

  lemma PlainDiff(left: string, right: string)
    requires left != "" && right != "" && '<' !in left && '[' !in left && '<' !in right && '[' !in right
    ensures DiffOf(left, right, Segmentation(left), Segmentation(right)) == Correct(left, right, Split("", "", left, right, true, true))
  {
    PlainIsText(left);
    PlainIsText(right);
    OneTextEach(left, right, [Segment(Text, left)], [Segment(Text, right)]);
  }

  lemma OneTextEach(left: string, right: string, l: seq<Segment>, r: seq<Segment>)
    requires l == [Segment(Text, left)] && r == [Segment(Text, right)]
    ensures DiffOf(left, right, l, r) == Correct(left, right, Split("", "", left, right, true, true))
  {
    assert l[0..1] == l && r[0..1] == r;
    JoinBegins(l);
    JoinBegins(r);
    assert MatchSingle(l, r, LoopExit(l, r)) == State(0, 0, 0, 0, "", "", false, false);
  }

  lemma CorrectedSplit(left: string, right: string, p: nat, s: nat)
    requires p + s <= Shorter(left, right)
    requires p + s == |left| ==> left[p..|left| - s] == "" && (right[p..|right| - s] == "" ==> left == right)
    ensures Correct(left, right, SplitAt("", "", left, right, p, s)) ==
            if left <= right && p + s == |left| then Diff(left, "", "", right[|left|..])
            else Diff(left[..p], left[|left| - s..], left[p..|left| - s], right[p..|right| - s])
  {
    assert "" + left[..p] == left[..p] && left[|left| - s..] + "" == left[|left| - s..];
    if p + s < |left| {
      assert |left[p..|left| - s]| > 0;
    }
  }

  lemma WholeLeft(left: string, right: string, p: nat, s: nat)
    requires p + s == |left| && p + s <= |right| && left[..p] == right[..p] && left[|left| - s..] == right[|right| - s..]
    ensures left[p..|left| - s] == "" && (right[p..|right| - s] == "" ==> left == right)
    ensures left == right ==> right[|left|..] == ""
  {
    if right[p..|right| - s] == "" {
      assert |right| == p + s && left == left[..p] + left[p..] && right == right[..p] + right[p..];
    }
  }
}
