/**
  `gemma4_to_json`: prints the syntax tree of a tool call's arguments, complete or cut short,
  as JSON text.
 */
module GemmaPrinter {
  import opened JsonText
  import opened Text

  datatype Rule =
    | Number | Boolean | NullValue | StringContent | StringValue | Array
    | KeyName | Key | KeyValue | Dict | Value | OtherRule

  datatype Node = Node(rule: Rule, text: string, children: seq<Node>, partial: bool)

  predicate IsScalar(rule: Rule) {
    rule.Number? || rule.Boolean? || rule.NullValue?
  }

  predicate Lists(rule: Rule) {
    rule.Array? || rule.Dict? || rule.KeyValue?
  }

  function Unless(partial: bool, s: string): string {
    if partial then "" else s
  }

  function ToJson(n: Node): string
    decreases n, |n.children| + 1
  {
    if n.text == "" then ""
    else if IsScalar(n.rule) || n.rule.KeyName? then n.text
    else match n.rule
      case StringContent => Escape(n.text)
      case StringValue =>
        if n.children == [] then "\"" else "\"" + ToJson(n.children[0]) + Unless(n.partial, "\"")
      case Array => "[" + Join(n, |n.children|, true) + Unless(n.partial, "]")
      case Key =>
        "\"" + (if n.children == [] then "" else Escape(ToJson(n.children[0]))) + Unless(n.partial, "\":")
      case KeyValue => Join(n, |n.children|, false)
      case Dict => "{" + Join(n, |n.children|, true) + Unless(n.partial, "}")
      case Value => if n.children == [] then "" else ToJson(n.children[0])
      case _ => ""
  }

  /** The first `k` children, one after the other. */
  function Join(n: Node, k: nat, commas: bool): string
    requires k <= |n.children|
    decreases n, k
  {
    if k == 0 then ""
    else Join(n, k - 1, commas) + (if commas && k > 1 then "," else "") + ToJson(n.children[k - 1])
  }

  method Gemma4ToJson(n: Node) returns (r: string)
    ensures r == ToJson(n)
    ensures n.text == "" ==> r == ""
    decreases n
  {
    if n.text == "" {
      return "";
    }
    if IsScalar(n.rule) {
      return n.text;
    }
    match n.rule {
      case StringContent =>
        r := Escape(n.text);
      case StringValue =>
        r := "\"";
        if n.children != [] {
          var content := Gemma4ToJson(n.children[0]);
          r := r + content;
          if !n.partial {
            r := r + "\"";
          }
        }
      case Array =>
        var list := CommaList(n);
        r := "[" + list;
        if !n.partial {
          r := r + "]";
        }
      case KeyName =>
        r := n.text;
      case Key =>
        r := "\"";
        if n.children != [] {
          var name := Gemma4ToJson(n.children[0]);
          r := r + Escape(name);
        }
        if !n.partial {
          r := r + "\":";
        }
      case KeyValue =>
        r := "";
        for i := 0 to |n.children|
          invariant r == Join(n, i, false)
        {
          var child := Gemma4ToJson(n.children[i]);
          r := r + child;
        }
      case Dict =>
        var list := CommaList(n);
        r := "{" + list;
        if !n.partial {
          r := r + "}";
        }
      case Value =>
        r := "";
        if n.children != [] {
          r := Gemma4ToJson(n.children[0]);
        }
      case _ =>
        r := "";
    }
  }

  /** The loop that arrays and dictionaries share. */
  method CommaList(n: Node) returns (r: string)
    ensures r == Join(n, |n.children|, true)
    decreases n, 0
  {
    r := "";
    var addComma := false;
    for i := 0 to |n.children|
      invariant r == Join(n, i, true)
      invariant addComma <==> i > 0
    {
      if addComma {
        r := r + ",";
      }
      addComma := true;
      var child := Gemma4ToJson(n.children[i]);
      r := r + child;
    }
  }

  // ------------------------------------------------------------------ trees cut short

  /** `a` is the tree of a shorter input: equal to `b`, or marked partial, with a prefix of the
      text and the first children of `b`, of which only the last may be cut short itself. */
  predicate Cut(a: Node, b: Node)
    decreases a
  {
    || a == b
    || (&& a.partial && a.rule == b.rule && a.text <= b.text
        && |a.children| <= |b.children|
        && (forall i :: 0 <= i < |a.children| - 1 ==> a.children[i] == b.children[i])
        && (a.children != [] ==> Cut(a.children[|a.children| - 1], b.children[|a.children| - 1])))
  }

  lemma Extends(a: string, b: string, c: string)
    requires a <= b
    ensures c + a <= c + b && a <= b + c
  {
    assert (c + b)[..|c + a|] == c + a;
    assert (b + c)[..|a|] == a;
  }

  lemma {:induction false} SameJoin(a: Node, b: Node, k: nat, commas: bool)
    requires k <= |a.children| && k <= |b.children|
    requires forall i :: 0 <= i < k ==> a.children[i] == b.children[i]
    ensures Join(a, k, commas) == Join(b, k, commas)
  {
    if k > 0 {
      SameJoin(a, b, k - 1, commas);
    }
  }

  lemma {:induction false} JoinGrows(b: Node, k: nat, l: nat, commas: bool)
    requires k <= l <= |b.children|
    ensures Join(b, k, commas) <= Join(b, l, commas)
  {
    if k < l {
      JoinGrows(b, k, l - 1, commas);
    }
  }

  lemma {:induction false} JoinOfCut(a: Node, b: Node, commas: bool)
    requires Cut(a, b) && a != b
    ensures Join(a, |a.children|, commas) <= Join(b, |b.children|, commas)
    decreases a, 0
  {
    var k := |a.children|;
    if k > 0 {
      SameJoin(a, b, k - 1, commas);
      CutPrintsPrefix(a.children[k - 1], b.children[k - 1]);
      Extends(ToJson(a.children[k - 1]), ToJson(b.children[k - 1]), Join(b, k - 1, commas) + if commas && k > 1 then "," else "");
      JoinGrows(b, k, |b.children|, commas);
    }
  }

  /** What is printed of a tree cut short is a prefix of what is printed of the tree. */
  lemma {:induction false} CutPrintsPrefix(a: Node, b: Node)
    requires Cut(a, b)
    ensures ToJson(a) <= ToJson(b)
    decreases a, 1
  {
    if a != b && a.text != "" {
      if a.rule.Array? || a.rule.Dict? || a.rule.KeyValue? {
        JoinOfCut(a, b, true);
        JoinOfCut(a, b, false);
      } else if a.rule.StringContent? {
        EscapeMonotone(a.text, b.text);
      } else if a.children != [] {
        FirstChildIsCut(a, b);
        CutPrintsPrefix(a.children[0], b.children[0]);
        EscapeMonotone(ToJson(a.children[0]), ToJson(b.children[0]));
      }
    }
  }

  lemma FirstChildIsCut(a: Node, b: Node)
    requires Cut(a, b) && a != b && a.children != []
    ensures Cut(a.children[0], b.children[0])
  {
  }

  /** Over a whole stream, nothing printed is ever taken back. */
  lemma {:induction false} StreamOnlyGrows(trees: seq<Node>, i: nat, j: nat)
    requires forall k :: 0 <= k < |trees| - 1 ==> Cut(trees[k], trees[k + 1])
    requires i <= j < |trees|
    ensures ToJson(trees[i]) <= ToJson(trees[j])
    decreases j
  {
    if i < j {
      StreamOnlyGrows(trees, i, j - 1);
      CutPrintsPrefix(trees[j - 1], trees[j]);
    }
  }

  // ------------------------------------------------------------------- complete trees

  predicate Plain(text: string) {
    '"' !in text && '{' !in text && '}' !in text
  }

  /** A tree of a complete value: nothing is cut short, every string has its content and no
      number or word holds a quote or a brace. */
  predicate Complete(n: Node)
    decreases n
  {
    && n.text != "" && !n.partial
    && !n.rule.StringContent? && !n.rule.KeyName?
    && (IsScalar(n.rule) ==> Plain(n.text))
    && (n.rule.StringValue? ==> n.children != [] && n.children[0].rule.StringContent?)
    && (n.rule.Key? ==> n.children != [] && n.children[0].rule.KeyName?)
    && (Lists(n.rule) ==> forall i :: 0 <= i < |n.children| ==> Complete(n.children[i]))
    && (n.rule.Value? && n.children != [] ==> Complete(n.children[0]))
  }

  /** The JSON tokens that a complete tree stands for: the raw text of a string is its value. */
  function Tokens(n: Node): seq<Tok>
    decreases n, |n.children| + 1
  {
    if IsScalar(n.rule) then Outs(n.text)
    else match n.rule
      case StringValue => StringToks(if n.children == [] then "" else n.children[0].text)
      case Array => [Out('[')] + ChildTokens(n, |n.children|, true) + [Out(']')]
      case Key => StringToks(if n.children == [] then "" else n.children[0].text) + [Out(':')]
      case KeyValue => ChildTokens(n, |n.children|, false)
      case Dict => [Out('{')] + ChildTokens(n, |n.children|, true) + [Out('}')]
      case Value => if n.children == [] then [] else Tokens(n.children[0])
      case _ => []
  }

  function ChildTokens(n: Node, k: nat, commas: bool): seq<Tok>
    requires k <= |n.children|
    decreases n, k
  {
    if k == 0 then []
    else ChildTokens(n, k - 1, commas) + (if commas && k > 1 then [Out(',')] else []) + Tokens(n.children[k - 1])
  }

  lemma NoQuoteScans(s: string)
    requires '"' !in s
    ensures Scan(s, false) == Outs(s)
  {
    OutsideScans(s, "");
    assert s + "" == s && Outs(s) + [] == Outs(s);
  }

  /** Text that scans as these tokens, all valid, with `depth` braces open and no string open. */
  ghost predicate ReadsUpTo(s: string, ts: seq<Tok>, depth: int) {
    Scan(s, false) == ts && Bad !in ts && !Ends(false, ts) && TokDepth(ts) == depth
  }

  lemma ReadsConcat(a: string, ta: seq<Tok>, da: int, b: string, tb: seq<Tok>, db: int)
    requires ReadsUpTo(a, ta, da) && ReadsUpTo(b, tb, db)
    ensures ReadsUpTo(a + b, ta + tb, da + db)
  {
    ScanConcat(a, b, false);
    EndsConcat(false, ta, tb);
    TokDepthConcat(ta, tb);
  }

  lemma ReadsChar(c: char)
    requires c != '"'
    ensures ReadsUpTo([c], [Out(c)], if c == '{' then 1 else if c == '}' then -1 else 0)
  {
    NoQuoteScans([c]);
    assert Outs([c]) == [Out(c)];
    assert [Out(c)][1..] == [];
  }

  lemma {:induction false} PlainTokens(s: string)
    requires Plain(s)
    ensures Bad !in Outs(s) && !Ends(false, Outs(s)) && TokDepth(Outs(s)) == 0
  {
    if s != "" {
      PlainTokens(s[1..]);
      assert Outs(s)[1..] == Outs(s[1..]);
    }
  }

  lemma {:induction false} CharsInside(s: string)
    ensures Bad !in Chars(s) && Ends(true, Chars(s)) && TokDepth(Chars(s)) == 0
  {
    if s != "" {
      CharsInside(s[1..]);
      assert Chars(s)[1..] == Chars(s[1..]);
    }
  }

  lemma StringTokens(s: string)
    ensures Bad !in StringToks(s) && !Ends(false, StringToks(s)) && TokDepth(StringToks(s)) == 0
  {
    CharsInside(s);
    assert [Open][1..] == [] && [Close][1..] == [];
    EndsConcat(false, [Open] + Chars(s), [Close]);
    EndsConcat(false, [Open], Chars(s));
    TokDepthConcat([Open] + Chars(s), [Close]);
    TokDepthConcat([Open], Chars(s));
  }

  lemma DumpReads(s: string)
    ensures ReadsUpTo(Dump(s), StringToks(s), 0)
  {
    DumpScans(s, "");
    assert Dump(s) + "" == Dump(s) && StringToks(s) + [] == StringToks(s);
    StringTokens(s);
  }

  lemma {:induction false} ChildrenRead(n: Node, k: nat, commas: bool)
    requires k <= |n.children| && forall i :: 0 <= i < k ==> Complete(n.children[i])
    ensures ReadsUpTo(Join(n, k, commas), ChildTokens(n, k, commas), 0)
    decreases n, k
  {
    if k > 0 {
      ChildrenRead(n, k - 1, commas);
      CompleteReads(n.children[k - 1]);
      var sep, tsep := if commas && k > 1 then "," else "", if commas && k > 1 then [Out(',')] else [];
      ReadsChar(',');
      ReadsConcat(Join(n, k - 1, commas), ChildTokens(n, k - 1, commas), 0, sep, tsep, 0);
      ReadsConcat(Join(n, k - 1, commas) + sep, ChildTokens(n, k - 1, commas) + tsep, 0, ToJson(n.children[k - 1]), Tokens(n.children[k - 1]), 0);
    }
  }

  lemma BracketsRead(open: char, s: string, ts: seq<Tok>, close: char)
    requires ReadsUpTo(s, ts, 0) && ((open == '[' && close == ']') || (open == '{' && close == '}'))
    ensures ReadsUpTo([open] + s + [close], [Out(open)] + ts + [Out(close)], 0)
  {
    var d := if open == '{' then 1 else 0;
    ReadsChar(open);
    ReadsChar(close);
    ReadsConcat([open], [Out(open)], d, s, ts, 0);
    ReadsConcat([open] + s, [Out(open)] + ts, d, [close], [Out(close)], -d);
  }

  /** The text printed for a complete tree is valid at scanner level, decodes every string to
      its raw text, ends outside every string and closes all its braces. */
  lemma {:induction false} CompleteReads(n: Node)
    requires Complete(n)
    ensures ReadsUpTo(ToJson(n), Tokens(n), 0)
    decreases n, |n.children| + 1
  {
    match n.rule
    case StringValue =>
      StringReads(n);
    case Key =>
      KeyReads(n);
    case Array =>
      ChildrenRead(n, |n.children|, true);
      BracketsRead('[', Join(n, |n.children|, true), ChildTokens(n, |n.children|, true), ']');
    case Dict =>
      ChildrenRead(n, |n.children|, true);
      BracketsRead('{', Join(n, |n.children|, true), ChildTokens(n, |n.children|, true), '}');
    case KeyValue =>
      ChildrenRead(n, |n.children|, false);
    case Value =>
      if n.children != [] {
        CompleteReads(n.children[0]);
      }
    case _ =>
      if IsScalar(n.rule) {
        NoQuoteScans(n.text);
        PlainTokens(n.text);
      }
  }

  lemma StringReads(n: Node)
    requires Complete(n) && n.rule.StringValue?
    ensures ReadsUpTo(ToJson(n), Tokens(n), 0)
  {
    var content := n.children[0];
    assert ToJson(content) == Escape(content.text);
    DumpReads(content.text);
  }

  lemma KeyReads(n: Node)
    requires Complete(n) && n.rule.Key?
    ensures ReadsUpTo(ToJson(n), Tokens(n), 0)
  {
    var name := n.children[0].text;
    KeyPrints(n);
    DumpReads(name);
    ReadsChar(':');
    ReadsConcat(Dump(name), StringToks(name), 0, ":", [Out(':')], 0);
  }

  lemma KeyPrints(n: Node)
    requires n.rule.Key? && n.text != "" && !n.partial && n.children != [] && n.children[0].rule.KeyName?
    ensures ToJson(n) == Dump(n.children[0].text) + ":"
  {
    var name := n.children[0].text;
    assert ToJson(n.children[0]) == name;
    assert "\":" == "\"" + ":";
    assert "\"" + Escape(name) + "\":" == "\"" + Escape(name) + "\"" + ":";
  }

  /** So the mapper's brace counter finds nothing left to close. */
  lemma CompleteIsClosed(n: Node)
    requires Complete(n)
    ensures BraceDepth(ToJson(n), false, false) == 0
    ensures !Ends(false, Scan(ToJson(n), false))
  {
    CompleteReads(n);
    BraceDepthCountsTokens(ToJson(n), false);
  }

  // -------------------------------------------------- strings without a content child

  /** `Complete`, except that a string may lack its content child. */
  predicate Finished(n: Node)
    decreases n
  {
    && n.text != "" && !n.partial
    && !n.rule.StringContent? && !n.rule.KeyName?
    && (IsScalar(n.rule) ==> Plain(n.text))
    && (n.rule.StringValue? ==> n.children == [] || n.children[0].rule.StringContent?)
    && (n.rule.Key? ==> n.children != [] && n.children[0].rule.KeyName?)
    && (Lists(n.rule) ==> forall i :: 0 <= i < |n.children| ==> Finished(n.children[i]))
    && (n.rule.Value? && n.children != [] ==> Finished(n.children[0]))
  }

  /** How many strings without a content child are printed. */
  function LoneQuotes(n: Node): nat
    decreases n, |n.children| + 1
  {
    match n.rule
    case StringValue => if n.children == [] then 1 else 0
    case Array => LoneQuotesIn(n, |n.children|)
    case Dict => LoneQuotesIn(n, |n.children|)
    case KeyValue => LoneQuotesIn(n, |n.children|)
    case Value => if n.children == [] then 0 else LoneQuotes(n.children[0])
    case _ => 0
  }

  function LoneQuotesIn(n: Node, k: nat): nat
    requires k <= |n.children|
    decreases n, k
  {
    if k == 0 then 0 else LoneQuotesIn(n, k - 1) + LoneQuotes(n.children[k - 1])
  }

  lemma {:induction false} CompleteChildren(n: Node, k: nat)
    requires k <= |n.children| && forall i :: 0 <= i < |n.children| ==> Finished(n.children[i])
    ensures LoneQuotesIn(n, k) == 0 <==> forall i :: 0 <= i < k ==> Complete(n.children[i])
    decreases n, k
  {
    if k > 0 {
      CompleteChildren(n, k - 1);
      CompleteIffContent(n.children[k - 1]);
    }
  }

  /** A finished tree is complete exactly when every printed string has its content child. */
  lemma {:induction false} CompleteIffContent(n: Node)
    requires Finished(n)
    ensures LoneQuotes(n) == 0 <==> Complete(n)
    decreases n, |n.children| + 1
  {
    if Lists(n.rule) {
      CompleteChildren(n, |n.children|);
    } else if n.rule.Value? && n.children != [] {
      CompleteIffContent(n.children[0]);
    }
  }

  /** The tokens `ts` are valid and one character longer, for every lone quote, than the text. */
  ghost predicate Falls(s: string, ts: seq<Tok>, lone: nat) {
    Bad !in ts && |s| + lone == Cost(ts)
  }

  lemma FallsConcat(a: string, ta: seq<Tok>, la: nat, b: string, tb: seq<Tok>, lb: nat)
    requires Falls(a, ta, la) && Falls(b, tb, lb)
    ensures Falls(a + b, ta + tb, la + lb)
  {
    CostConcat(ta, tb);
  }

  lemma OutsFall(s: string)
    ensures Falls(s, Outs(s), 0)
  {
    CostOfOuts(s);
  }

  lemma CharFalls(c: char)
    ensures Falls([c], [Out(c)], 0)
  {
    OutsFall([c]);
    assert Outs([c]) == [Out(c)];
  }

  lemma StringFalls(s: string)
    ensures Falls(Dump(s), StringToks(s), 0)
  {
    DumpIsShortest(s);
    StringTokens(s);
  }

  lemma {:induction false} ChildrenFall(n: Node, k: nat, commas: bool)
    requires k <= |n.children| && forall i :: 0 <= i < |n.children| ==> Finished(n.children[i])
    ensures Falls(Join(n, k, commas), ChildTokens(n, k, commas), LoneQuotesIn(n, k))
    decreases n, k
  {
    if k > 0 {
      var child, before, tbefore, lone := n.children[k - 1], Join(n, k - 1, commas), ChildTokens(n, k - 1, commas), LoneQuotesIn(n, k - 1);
      ChildrenFall(n, k - 1, commas);
      FinishedFalls(child);
      if commas && k > 1 {
        CharFalls(',');
        FallsConcat(before, tbefore, lone, ",", [Out(',')], 0);
        FallsConcat(before + ",", tbefore + [Out(',')], lone, ToJson(child), Tokens(child), LoneQuotes(child));
      } else {
        assert before + "" == before && tbefore + [] == tbefore;
        FallsConcat(before, tbefore, lone, ToJson(child), Tokens(child), LoneQuotes(child));
      }
    }
  }

  lemma BracketsFall(open: char, s: string, ts: seq<Tok>, lone: nat, close: char)
    requires Falls(s, ts, lone)
    ensures Falls([open] + s + [close], [Out(open)] + ts + [Out(close)], lone)
  {
    CharFalls(open);
    CharFalls(close);
    FallsConcat([open], [Out(open)], 0, s, ts, lone);
    FallsConcat([open] + s, [Out(open)] + ts, lone, [close], [Out(close)], 0);
  }

  lemma KeyFalls(n: Node)
    requires Finished(n) && n.rule.Key?
    ensures Falls(ToJson(n), Tokens(n), 0)
  {
    var name := n.children[0].text;
    KeyPrints(n);
    StringFalls(name);
    CharFalls(':');
    FallsConcat(Dump(name), StringToks(name), 0, ":", [Out(':')], 0);
  }

  lemma StringValueFalls(n: Node)
    requires Finished(n) && n.rule.StringValue?
    ensures Falls(ToJson(n), Tokens(n), LoneQuotes(n))
  {
    if n.children == [] {
      StringFalls("");
      assert Dump("") == "\"\"";
    } else {
      assert ToJson(n.children[0]) == Escape(n.children[0].text);
      StringFalls(n.children[0].text);
    }
  }

  /** Every lone quote leaves the printed text one character short of its tokens. */
  lemma {:induction false} FinishedFalls(n: Node)
    requires Finished(n)
    ensures Falls(ToJson(n), Tokens(n), LoneQuotes(n))
    decreases n, |n.children| + 1
  {
    match n.rule
    case StringValue =>
      StringValueFalls(n);
    case Key =>
      KeyFalls(n);
    case Array =>
      ChildrenFall(n, |n.children|, true);
      BracketsFall('[', Join(n, |n.children|, true), ChildTokens(n, |n.children|, true), LoneQuotes(n), ']');
    case Dict =>
      ChildrenFall(n, |n.children|, true);
      BracketsFall('{', Join(n, |n.children|, true), ChildTokens(n, |n.children|, true), LoneQuotes(n), '}');
    case KeyValue =>
      ChildrenFall(n, |n.children|, false);
    case Value =>
      if n.children != [] {
        FinishedFalls(n.children[0]);
      }
    case _ =>
      if IsScalar(n.rule) {
        OutsFall(n.text);
      }
  }

  /** The exact condition: the text printed for a finished tree reads as what the tree denotes
      if and only if every printed string has its content child.  A printed text with a lone
      quote is too short for its tokens, however the other quotes pair up. */
  lemma ReadsExactlyWithContent(n: Node)
    requires Finished(n)
    ensures Scan(ToJson(n), false) == Tokens(n) <==> Complete(n)
  {
    CompleteIffContent(n);
    FinishedFalls(n);
    if Complete(n) {
      CompleteReads(n);
    }
    if Scan(ToJson(n), false) == Tokens(n) {
      ScanCosts(ToJson(n), false);
    }
  }

  lemma CharInside(c: char)
    requires c != '"' && c != '\\' && !IsControl(c)
    ensures Scan([c], true) == [Ch(c as int)]
  {
    CharScans(c, "");
    assert [c] + "" == [c];
  }

  lemma OpenEnds(before: char, after: char)
    requires before != '"' && after != '"' && after != '\\' && !IsControl(after)
    ensures Ends(false, Scan([before] + ("\"" + [after]), false))
  {
    NoQuoteScans([before]);
    OutsideScans([before], "\"" + [after]);
    OpenScans([after]);
    CharInside(after);
    var tail := [Open, Ch(after as int)];
    assert Outs([before]) + ([Open] + [Ch(after as int)]) == [Out(before)] + tail;
    var all := [Out(before)] + tail;
    assert Scan([before] + ("\"" + [after]), false) == all by {
      assert Outs([before]) == [Out(before)];
    }
    assert all[1..] == tail && tail[1..] == [Ch(after as int)] && tail[1..][1..] == [];
    assert Ends(true, tail[1..]);
  }

  /** One such tree, whose text ends inside a string. */
  lemma LoneQuote(text: string)
    requires text != ""
    ensures Ends(false, Scan(ToJson(Node(Dict, text, [Node(StringValue, text, [], false)], false)), false))
  {
    var s := Node(StringValue, text, [], false);
    var n := Node(Dict, text, [s], false);
    assert Join(n, 1, true) == Join(n, 0, true) + "" + ToJson(s);
    assert ToJson(n) == "{" + ("\"" + "}");
    OpenEnds('{', '}');
  }

  /** And one whose two lone quotes pair up around the comma: the text is closed, but reads as
      one string instead of two. */
  lemma LoneQuotesPair(text: string)
    requires text != ""
    ensures var s := Node(StringValue, text, [], false);
            Scan(ToJson(Node(Array, text, [s, s], false)), false) == [Out('['), Open, Ch(',' as int), Close, Out(']')]
  {
    var s := Node(StringValue, text, [], false);
    var n := Node(Array, text, [s, s], false);
    assert Join(n, 1, true) == Join(n, 0, true) + "" + ToJson(s);
    assert Join(n, 2, true) == Join(n, 1, true) + "," + ToJson(s);
    assert Dump(",") == "\",\"";
    assert ToJson(n) == "[" + (Dump(",") + "]");
    BracketedDump('[', ",", ']');
    assert StringToks(",") == [Open, Ch(',' as int), Close];
  }

  lemma BracketedDump(open: char, s: string, close: char)
    requires open != '"' && close != '"'
    ensures Scan([open] + (Dump(s) + [close]), false) == [Out(open)] + (StringToks(s) + [Out(close)])
  {
    OutsideScans([open], Dump(s) + [close]);
    DumpScans(s, [close]);
    NoQuoteScans([close]);
    assert Outs([open]) == [Out(open)] && Outs([close]) == [Out(close)];
  }
}
