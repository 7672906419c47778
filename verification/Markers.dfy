/**
  `segmentize_markers`: text cut into markers (`<...>` or `[...]`) and the text between them.
 */
module Markers {

  datatype Kind = Text | Marker
  datatype Segment = Segment(kind: Kind, value: string)

  predicate IsOpener(c: char) {
    c == '<' || c == '['
  }

  predicate ClosesMarker(opener: char, c: char) {
    (opener == '<' && c == '>') || (opener == '[' && c == ']')
  }

  function Join(s: seq<Segment>): string {
    if s == [] then "" else s[0].value + Join(s[1..])
  }

  /** A marker runs from an opener to the first character that closes it. */
  predicate IsMarker(v: string) {
    && 2 <= |v| && IsOpener(v[0]) && ClosesMarker(v[0], v[|v| - 1])
    && forall i :: 0 < i < |v| - 1 ==> !ClosesMarker(v[0], v[i])
  }

  /** Text has no opener. */
  predicate IsPlain(v: string) {
    v != "" && forall i :: 0 <= i < |v| ==> !IsOpener(v[i])
  }

  /** Text at the end may begin with an opener that nothing closes. */
  predicate IsUnclosed(v: string) {
    v != "" && IsOpener(v[0]) && forall i :: 0 < i < |v| ==> !ClosesMarker(v[0], v[i])
  }

  /** What segment `i` may be: a marker; plain text that the next segment does not continue;
      at the very end a marker that nothing closes. */
  predicate Fits(s: seq<Segment>, i: nat)
    requires i < |s|
  {
    if s[i].kind.Marker? then IsMarker(s[i].value)
    else if IsUnclosed(s[i].value) then i == |s| - 1
    else IsPlain(s[i].value) && (i < |s| - 1 ==> s[i + 1].value != "" && IsOpener(s[i + 1].value[0]))
  }

  predicate Segmented(s: seq<Segment>) {
    forall i :: 0 <= i < |s| ==> Fits(s, i)
  }

  // -------------------------------------------------------------------------- uniqueness

  lemma SegmentedTail(s: seq<Segment>)
    requires Segmented(s) && s != []
    ensures Segmented(s[1..])
  {
    forall i | 0 <= i < |s[1..]|
      ensures Fits(s[1..], i)
    {
      assert Fits(s, i + 1);
    }
  }

  /** The first position from `i` on that closes a marker, or the length. */
  function FindClose(x: string, i: nat, opener: char): (c: nat)
    requires i <= |x|
    ensures i <= c <= |x| && (c < |x| ==> ClosesMarker(opener, x[c]))
    ensures forall k :: i <= k < c ==> !ClosesMarker(opener, x[k])
    decreases |x| - i
  {
    if i == |x| || ClosesMarker(opener, x[i]) then i else FindClose(x, i + 1, opener)
  }

  function FindOpener(x: string, i: nat): (c: nat)
    requires i <= |x|
    ensures i <= c <= |x| && (c < |x| ==> IsOpener(x[c]))
    ensures forall k :: i <= k < c ==> !IsOpener(x[k])
    decreases |x| - i
  {
    if i == |x| || IsOpener(x[i]) then i else FindOpener(x, i + 1)
  }

  function FirstSegment(x: string): Segment
    requires x != ""
  {
    if !IsOpener(x[0]) then Segment(Text, x[..FindOpener(x, 0)])
    else
      var c := FindClose(x, 1, x[0]);
      if c == |x| then Segment(Text, x) else Segment(Marker, x[..c + 1])
  }

  lemma CloseIs(x: string, c: nat)
    requires 0 < c <= |x| && (c < |x| ==> ClosesMarker(x[0], x[c]))
    requires forall k :: 0 < k < c ==> !ClosesMarker(x[0], x[k])
    ensures FindClose(x, 1, x[0]) == c
  {
  }

  lemma OpenerIs(x: string, c: nat)
    requires c <= |x| && (c < |x| ==> IsOpener(x[c])) && forall k :: 0 <= k < c ==> !IsOpener(x[k])
    ensures FindOpener(x, 0) == c
  {
  }

  /** The first segment is determined by the text. */
  lemma FirstIs(s: seq<Segment>)
    requires Segmented(s) && s != []
    ensures Join(s) != "" && s[0] == FirstSegment(Join(s))
  {
    var x, v, n := Join(s), s[0].value, |s[0].value|;
    assert Fits(s, 0);
    assert x[..n] == v && forall i :: 0 <= i < n ==> v[i] == x[i];
    if s[0].kind.Marker? {
      CloseIs(x, n - 1);
    } else if IsUnclosed(v) {
      assert s[1..] == [];
      CloseIs(x, n);
    } else {
      FollowedByOpener(s);
      OpenerIs(x, n);
    }
  }

  lemma FollowedByOpener(s: seq<Segment>)
    requires Segmented(s) && s != [] && s[0].kind.Text? && !IsUnclosed(s[0].value)
    ensures var x, n := Join(s), |s[0].value|; n <= |x| && (n < |x| ==> IsOpener(x[n]))
  {
    assert Fits(s, 0);
    if |s| == 1 {
      assert s[1..] == [];
    }
  }

  lemma NotEmpty(s: seq<Segment>)
    requires Segmented(s) && s != []
    ensures Join(s) != ""
  {
    assert Fits(s, 0);
  }

  /** A text has only one segmentation. */
  lemma {:induction false} SegmentationUnique(s: seq<Segment>, t: seq<Segment>)
    requires Segmented(s) && Segmented(t) && Join(s) == Join(t)
    ensures s == t
    decreases |s|
  {
    if s != [] {
      NotEmpty(s);
    }
    if t != [] {
      NotEmpty(t);
      assert s != [];
      FirstIs(s);
      FirstIs(t);
      var x, n := Join(s), |s[0].value|;
      assert Join(s[1..]) == x[n..] && Join(t[1..]) == x[n..];
      SegmentedTail(s);
      SegmentedTail(t);
      SegmentationUnique(s[1..], t[1..]);
      assert s == [s[0]] + s[1..] && t == [t[0]] + t[1..];
    }
  }

  // ---------------------------------------------------------------------------- the loop

  lemma {:induction false} JoinConcat(s: seq<Segment>, t: seq<Segment>)
    ensures Join(s + t) == Join(s) + Join(t)
  {
    if s == [] {
      assert s + t == t;
    } else {
      assert (s + t)[1..] == s[1..] + t;
      JoinConcat(s[1..], t);
    }
  }

  lemma JoinExtend(s: seq<Segment>, t: Segment)
    ensures Join(s + [t]) == Join(s) + t.value
  {
    JoinConcat(s, [t]);
    assert Join([t]) == t.value + "";
  }

  /** Segment `i` is complete, and what follows it starts where it should. */
  predicate ReadyAt(s: seq<Segment>, i: nat, rest: string)
    requires i < |s|
  {
    if s[i].kind.Marker? then IsMarker(s[i].value)
    else
      var next := if i < |s| - 1 then s[i + 1].value else rest;
      IsPlain(s[i].value) && next != "" && IsOpener(next[0])
  }

  predicate Ready(s: seq<Segment>, rest: string) {
    forall i :: 0 <= i < |s| ==> ReadyAt(s, i, rest)
  }

  lemma Finished(s: seq<Segment>)
    requires Ready(s, "")
    ensures Segmented(s)
  {
    forall i | 0 <= i < |s|
      ensures Fits(s, i)
    {
      assert ReadyAt(s, i, "");
    }
  }

  lemma AddPlain(s: seq<Segment>, v: string, rest: string)
    requires Ready(s, v + rest) && IsPlain(v) && rest != "" && IsOpener(rest[0])
    ensures Ready(s + [Segment(Text, v)], rest)
  {
    var t := s + [Segment(Text, v)];
    forall i | 0 <= i < |t|
      ensures ReadyAt(t, i, rest)
    {
      assert i < |s| ==> ReadyAt(s, i, v + rest);
    }
  }

  lemma AddMarker(s: seq<Segment>, v: string, rest: string)
    requires Ready(s, v + rest) && IsMarker(v)
    ensures Ready(s + [Segment(Marker, v)], rest)
  {
    var t := s + [Segment(Marker, v)];
    forall i | 0 <= i < |t|
      ensures ReadyAt(t, i, rest)
    {
      assert i < |s| ==> ReadyAt(s, i, v + rest);
    }
  }

  lemma AddLast(s: seq<Segment>, v: string)
    requires Ready(s, v) && (IsPlain(v) || IsUnclosed(v))
    ensures Segmented(s + [Segment(Text, v)])
  {
    var t := s + [Segment(Text, v)];
    forall i | 0 <= i < |t|
      ensures Fits(t, i)
    {
      assert i < |s| ==> ReadyAt(s, i, v);
    }
  }

  method SegmentizeMarkers(text: string) returns (segments: seq<Segment>)
    ensures Join(segments) == text && Segmented(segments)
  {
    segments := [];
    var inMarker, opener := false, '\0';
    var lastBorder := 0;
    for cur := 0 to |text|
      invariant lastBorder <= cur && Join(segments) == text[..lastBorder]
      invariant Ready(segments, text[lastBorder..])
      invariant inMarker ==> lastBorder < cur && IsOpener(opener) && opener == text[lastBorder]
      invariant inMarker ==> forall i :: lastBorder < i < cur ==> !ClosesMarker(opener, text[i])
      invariant !inMarker ==> forall i :: lastBorder <= i < cur ==> !IsOpener(text[i])
    {
      if !inMarker && IsOpener(text[cur]) {
        if lastBorder < cur {
          segments := Push(segments, Text, text, lastBorder, cur);
        }
        lastBorder := cur;
        inMarker := true;
        opener := text[cur];
      } else if inMarker && ClosesMarker(opener, text[cur]) {
        segments := Push(segments, Marker, text, lastBorder, cur + 1);
        lastBorder := cur + 1;
        inMarker := false;
        opener := '\0';
      }
    }
    assert text[..|text|] == text;
    if lastBorder < |text| {
      var v := text[lastBorder..];
      JoinExtend(segments, Segment(Text, v));
      AddLast(segments, v);
      assert text[..lastBorder] + v == text;
      segments := segments + [Segment(Text, v)];
    } else {
      Finished(segments);
    }
  }

  /** `push_back` of the segment between two borders. */
  method Push(segments: seq<Segment>, kind: Kind, text: string, from: nat, to: nat) returns (more: seq<Segment>)
    requires from < to <= |text| && Join(segments) == text[..from] && Ready(segments, text[from..])
    requires kind.Text? ==> IsPlain(text[from..to]) && to < |text| && IsOpener(text[to])
    requires kind.Marker? ==> IsMarker(text[from..to])
    ensures more == segments + [Segment(kind, text[from..to])]
    ensures Join(more) == text[..to] && Ready(more, text[to..])
  {
    var v := text[from..to];
    more := segments + [Segment(kind, v)];
    JoinExtend(segments, Segment(kind, v));
    assert text[..from] + v == text[..to] && v + text[to..] == text[from..];
    if kind.Text? {
      AddPlain(segments, v, text[to..]);
    } else {
      AddMarker(segments, v, text[to..]);
    }
  }

  // ----------------------------------------------------------------- the one segmentation

  /** The segmentation of a text, segment by segment. */
  function Segmentation(x: string): seq<Segment>
    decreases |x|
  {
    if x == "" then []
    else
      var first := FirstSegment(x);
      [first] + Segmentation(x[|first.value|..])
  }

  lemma {:induction false} SegmentationIs(s: seq<Segment>)
    requires Segmented(s)
    ensures Segmentation(Join(s)) == s
    decreases |s|
  {
    if s != [] {
      FirstIs(s);
      SegmentedTail(s);
      SegmentationIs(s[1..]);
      AfterFirst(s);
    }
  }

  lemma AfterFirst(s: seq<Segment>)
    requires s != []
    ensures Join(s)[|s[0].value|..] == Join(s[1..]) && s == [s[0]] + s[1..]
  {
    DropText(s[0].value, Join(s[1..]));
  }

  lemma DropText(a: string, b: string)
    ensures (a + b)[|a|..] == b
  {
  }

  /** The segmentation of a text describes it. */
  lemma {:induction false} SegmentationJoins(x: string)
    ensures Join(Segmentation(x)) == x && Segmented(Segmentation(x))
    decreases |x|
  {
    if x != "" {
      var first := FirstSegment(x);
      var rest := x[|first.value|..];
      SegmentationJoins(rest);
      assert first.value + rest == x;
      FirstFits(x);
      PrependSegment(first, Segmentation(rest));
    }
  }

  lemma FirstFits(x: string)
    requires x != ""
    ensures var first := FirstSegment(x);
            var rest := x[|first.value|..];
            && first.value <= x && first.value != ""
            && (first.kind.Marker? ==> IsMarker(first.value))
            && (first.kind.Text? ==> (IsUnclosed(first.value) && rest == "") || (IsPlain(first.value) && (rest != "" ==> IsOpener(rest[0]))))
  {
  }

  lemma PrependSegment(first: Segment, rest: seq<Segment>)
    requires Segmented(rest) && first.value != ""
    requires first.kind.Marker? ==> IsMarker(first.value)
    requires first.kind.Text? ==> (IsUnclosed(first.value) && Join(rest) == "") || (IsPlain(first.value) && (Join(rest) != "" ==> IsOpener(Join(rest)[0])))
    ensures Segmented([first] + rest)
  {
    var s := [first] + rest;
    if rest != [] {
      NotEmpty(rest);
      assert Fits(rest, 0);
      assert rest[0].value != "" && Join(rest)[0] == rest[0].value[0];
    }
    forall i | 0 <= i < |s|
      ensures Fits(s, i)
    {
      if i > 0 {
        assert Fits(rest, i - 1);
      }
    }
  }
}
