/**
  What is printed of a syntax tree that is cut short, as tokens: nothing that has been parsed
  is held back, and nothing is closed that is still open.
 */
module GemmaCut {
  import opened JsonText
  import opened GemmaPrinter

  /** The tree of an input that stops somewhere: complete, or partial with complete children
      of which only the last may be cut short itself. */
  predicate CutShort(n: Node)
    decreases n
  {
    if !n.partial then Complete(n)
    else if n.text == "" then true
    else if Lists(n.rule) then
      && (forall i :: 0 <= i < |n.children| - 1 ==> Complete(n.children[i]))
      && (n.children != [] ==> CutShort(n.children[|n.children| - 1]))
    else
      && !n.rule.StringContent? && !n.rule.KeyName?
      && (IsScalar(n.rule) ==> Plain(n.text))
      && (n.rule.StringValue? ==> n.children == [] || n.children[0].rule.StringContent?)
      && (n.rule.Key? ==> n.children == [] || n.children[0].rule.KeyName?)
      && (n.rule.Value? ==> n.children == [] || CutShort(n.children[0]))
  }

  /** What such a tree shows: every child there is, with its commas, the characters of a string
      so far, and no closing bracket or quote where the input stops. */
  function Shown(n: Node): seq<Tok>
    decreases n
  {
    if !n.partial then Tokens(n)
    else if n.text == "" then []
    else if IsScalar(n.rule) then Outs(n.text)
    else match n.rule
      case StringValue => [Open] + if n.children == [] then [] else Chars(n.children[0].text)
      case Key => [Open] + if n.children == [] then [] else Chars(n.children[0].text)
      case Array => [Out('[')] + ShownChildren(n, true)
      case Dict => [Out('{')] + ShownChildren(n, true)
      case KeyValue => ShownChildren(n, false)
      case Value => if n.children == [] then [] else Shown(n.children[0])
      case _ => []
  }

  function ShownChildren(n: Node, commas: bool): seq<Tok>
    decreases n, 0
  {
    var k := |n.children|;
    if k == 0 then []
    else ChildTokens(n, k - 1, commas) + (if commas && k > 1 then [Out(',')] else []) + Shown(n.children[k - 1])
  }

  // --------------------------------------------------------------------------- reading

  /** Text that reads as these tokens and may stop inside a string. */
  predicate ReadsSoFar(s: string, ts: seq<Tok>) {
    Scan(s, false) == ts && Bad !in ts
  }

  lemma ThenReads(a: string, ta: seq<Tok>, d: int, b: string, tb: seq<Tok>)
    requires ReadsUpTo(a, ta, d) && ReadsSoFar(b, tb)
    ensures ReadsSoFar(a + b, ta + tb)
  {
    ScanConcat(a, b, false);
  }

  lemma OpenStringReads(s: string)
    ensures ReadsSoFar("\"" + Escape(s), [Open] + Chars(s))
  {
    OpenScans(Escape(s));
    EscapeScans(s, "");
    assert Escape(s) + "" == Escape(s) && Chars(s) + [] == Chars(s);
    CharsInside(s);
  }

  lemma OpenKeyReads(n: Node)
    requires CutShort(n) && n.partial && n.text != "" && n.rule.Key?
    ensures ReadsSoFar(ToJson(n), Shown(n))
  {
    if n.children == [] {
      OpenStringReads("");
      assert ToJson(n) == "\"" + "" + "" == "\"" + Escape("") && [Open] + [] == [Open] + Chars("");
    } else {
      var name := n.children[0].text;
      assert ToJson(n.children[0]) == name;
      OpenStringReads(name);
      assert ToJson(n) == "\"" + Escape(name) + "" == "\"" + Escape(name);
    }
  }

  lemma OpenValueReads(n: Node)
    requires CutShort(n) && n.partial && n.text != "" && n.rule.StringValue?
    ensures ReadsSoFar(ToJson(n), Shown(n))
  {
    if n.children == [] {
      OpenStringReads("");
      assert ToJson(n) == "\"" == "\"" + Escape("") && [Open] + [] == [Open] + Chars("");
    } else {
      var content := n.children[0].text;
      assert ToJson(n.children[0]) == Escape(content);
      OpenStringReads(content);
      assert ToJson(n) == "\"" + Escape(content) + "" == "\"" + Escape(content);
    }
  }

  lemma {:induction false} ShownChildrenRead(n: Node, commas: bool)
    requires Lists(n.rule) && CutShort(n) && n.partial && n.text != ""
    ensures ReadsSoFar(Join(n, |n.children|, commas), ShownChildren(n, commas))
    decreases n, 0
  {
    var k := |n.children|;
    if k > 0 {
      var last := n.children[k - 1];
      ChildrenRead(n, k - 1, commas);
      CutReads(last);
      var sep, tsep := if commas && k > 1 then "," else "", if commas && k > 1 then [Out(',')] else [];
      ReadsChar(',');
      ReadsConcat(Join(n, k - 1, commas), ChildTokens(n, k - 1, commas), 0, sep, tsep, 0);
      ThenReads(Join(n, k - 1, commas) + sep, ChildTokens(n, k - 1, commas) + tsep, 0, ToJson(last), Shown(last));
    }
  }

  lemma OpenBracketReads(open: char, s: string, ts: seq<Tok>)
    requires ReadsSoFar(s, ts) && (open == '[' || open == '{')
    ensures ReadsSoFar([open] + s, [Out(open)] + ts)
  {
    ReadsChar(open);
    ThenReads([open], [Out(open)], if open == '{' then 1 else 0, s, ts);
  }

  lemma {:induction false} OpenListReads(n: Node)
    requires Lists(n.rule) && CutShort(n) && n.partial && n.text != ""
    ensures ReadsSoFar(ToJson(n), Shown(n))
    decreases n, 1
  {
    var commas := !n.rule.KeyValue?;
    ShownChildrenRead(n, commas);
    var list, ts := Join(n, |n.children|, commas), ShownChildren(n, commas);
    if n.rule.Array? {
      OpenBracketReads('[', list, ts);
      assert ToJson(n) == "[" + list + "" == ['['] + list;
    } else if n.rule.Dict? {
      OpenBracketReads('{', list, ts);
      assert ToJson(n) == "{" + list + "" == ['{'] + list;
    }
  }

  /** Main theorem: the text printed for a tree cut short reads as what the tree shows. */
  lemma {:induction false} CutReads(n: Node)
    requires CutShort(n)
    ensures ReadsSoFar(ToJson(n), Shown(n))
    decreases n, 2
  {
    if !n.partial {
      CompleteReads(n);
    } else if n.text != "" {
      if Lists(n.rule) {
        OpenListReads(n);
      } else if n.rule.StringValue? {
        OpenValueReads(n);
      } else if n.rule.Key? {
        OpenKeyReads(n);
      } else if n.rule.Value? {
        if n.children != [] {
          CutReads(n.children[0]);
        }
      } else if IsScalar(n.rule) {
        NoQuoteScans(n.text);
        PlainTokens(n.text);
      }
    }
  }

  // --------------------------------------------------------------------------- streams

  /** A tree that grows into one that is merely cut short, or complete, is cut short. */
  lemma {:induction false} CutIsCutShort(a: Node, b: Node)
    requires Cut(a, b) && CutShort(b)
    ensures CutShort(a)
    decreases a
  {
    if a != b && a.text != "" {
      if Lists(a.rule) {
        ListIsCutShort(a, b);
      } else {
        if IsScalar(a.rule) {
          PrefixIsPlain(a.text, b.text);
        }
        if a.children != [] {
          FirstChildIsCut(a, b);
          if a.rule.Value? {
            CutIsCutShort(a.children[0], b.children[0]);
          }
        }
      }
    }
  }

  lemma {:induction false} ListIsCutShort(a: Node, b: Node)
    requires Cut(a, b) && a != b && CutShort(b) && a.text != "" && Lists(a.rule)
    ensures CutShort(a)
    decreases a, 0
  {
    var k := |a.children|;
    if k > 0 {
      ChildOfCutShort(b, k - 1);
      CutIsCutShort(a.children[k - 1], b.children[k - 1]);
    }
  }

  lemma ChildOfCutShort(b: Node, i: nat)
    requires CutShort(b) && Lists(b.rule) && b.text != "" && i < |b.children|
    ensures CutShort(b.children[i]) && forall j :: 0 <= j < i ==> Complete(b.children[j])
  {
    if !b.partial || i < |b.children| - 1 {
      CompleteIsCutShort(b.children[i]);
    }
  }

  lemma CompleteIsCutShort(n: Node)
    requires Complete(n)
    ensures CutShort(n)
  {
  }

  lemma PrefixIsPlain(a: string, b: string)
    requires a <= b && Plain(b)
    ensures Plain(a)
  {
    assert forall i :: 0 <= i < |a| ==> a[i] == b[i];
  }

  /** Over a stream of growing trees whose last one is complete, everything printed on the way
      reads as what the tree of that moment shows. */
  lemma {:induction false} StreamShows(trees: seq<Node>, i: nat)
    requires forall k :: 0 <= k < |trees| - 1 ==> Cut(trees[k], trees[k + 1])
    requires i < |trees| && Complete(trees[|trees| - 1])
    ensures CutShort(trees[i]) && ReadsSoFar(ToJson(trees[i]), Shown(trees[i]))
    decreases |trees| - i
  {
    if i < |trees| - 1 {
      StreamShows(trees, i + 1);
      CutIsCutShort(trees[i], trees[i + 1]);
    }
    CutReads(trees[i]);
  }

  /** Every finished child of an open list is printed already, behind the opening bracket. */
  lemma FinishedChildrenShown(n: Node, k: nat)
    requires CutShort(n) && n.partial && n.text != "" && (n.rule.Array? || n.rule.Dict?)
    requires k <= |n.children| && forall i :: 0 <= i < k ==> Complete(n.children[i])
    ensures [Out(if n.rule.Dict? then '{' else '[')] + ChildTokens(n, k, true) <= Scan(ToJson(n), false)
  {
    CutReads(n);
    ShownFrom(n, k);
    PrefixBehind(if n.rule.Dict? then Out('{') else Out('['), ChildTokens(n, k, true), ShownChildren(n, true));
  }

  lemma ShownFrom(n: Node, k: nat)
    requires k <= |n.children| && forall i :: 0 <= i < k ==> Complete(n.children[i])
    ensures ChildTokens(n, k, true) <= ShownChildren(n, true)
  {
    var l := |n.children|;
    if k < l {
      ChildTokensGrow(n, k, l - 1);
      PrefixThen(ChildTokens(n, k, true), ChildTokens(n, l - 1, true), if l > 1 then [Out(',')] else [], Shown(n.children[l - 1]));
    }
  }

  lemma PrefixThen(a: seq<Tok>, b: seq<Tok>, c: seq<Tok>, d: seq<Tok>)
    requires a <= b
    ensures a <= b + c + d
  {
  }

  lemma PrefixBehind(t: Tok, a: seq<Tok>, b: seq<Tok>)
    requires a <= b
    ensures [t] + a <= [t] + b
  {
  }

  lemma {:induction false} ChildTokensGrow(n: Node, k: nat, l: nat)
    requires k <= l <= |n.children|
    ensures ChildTokens(n, k, true) <= ChildTokens(n, l, true)
    decreases l
  {
    if k < l {
      ChildTokensGrow(n, k, l - 1);
    }
  }
}
