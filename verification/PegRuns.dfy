/**
  Whole runs of nodes through the mapper, apart from tagged arguments: what content and
  reasoning nodes collect, and what the nodes of a call in JSON format (an identifier, a name
  and one text with all the arguments, in any order) leave.
 */
module PegRuns {
  import opened Options
  import opened Text
  import opened JsonText
  import opened PyQuotes
  import opened JsonObject
  import opened PegMapper
  import opened PegRoundTrip

  // ------------------------------------------------------------- content and reasoning

  /** The texts of all nodes with the tag, one after the other. */
  function TextsOf(nodes: seq<Node>, tag: Tag): string {
    if nodes == [] then "" else (if nodes[0].tag == tag then nodes[0].text else "") + TextsOf(nodes[1..], tag)
  }

  /** The same state but for the two texts. */
  function WithTexts(s: State, content: string, reasoning: string): State {
    s.(content := content, reasoning := reasoning)
  }

  lemma TargetAside(s: State, text: string, c: string, g: string)
    requires Pointed(s)
    ensures var s' := WithTexts(s, c, g);
            && Pointed(s') && Tool(s') == Tool(s) && Target(s') == Target(s)
            && WithTarget(s', text) == WithTexts(WithTarget(s, text), c, g)
  {
  }

  lemma NameAside(s: State, text: string, c: string, g: string)
    requires Pointed(s)
    ensures Pointed(WithTexts(s, c, g)) && NameTool(WithTexts(s, c, g), text) == WithTexts(NameTool(s, text), c, g)
  {
  }

  lemma CloseAside(s: State, c: string, g: string)
    requires Pointed(s)
    ensures Pointed(WithTexts(s, c, g)) && CloseTool(WithTexts(s, c, g)) == WithTexts(CloseTool(s), c, g)
  {
  }

  /** No step on a call looks at the two texts. */
  lemma ToolAside(s: State, n: Node, c: string, g: string)
    requires Pointed(s) && UsesTool(n.tag)
    ensures Pointed(WithTexts(s, c, g)) && ApplyToTool(WithTexts(s, c, g), n) == WithTexts(ApplyToTool(s, n), c, g)
  {
    match n.tag
    case ToolName => NameAside(s, n.text, c, g);
    case ToolClose => CloseAside(s, c, g);
    case ToolArgs => TargetAside(s, TrimTrailing(n.text, ALL), c, g);
    case ArgName =>
      TargetAside(s, (if Target(s) == "" then "{" else Target(s)) + Entry(s.argCount, TrimName(n.text)), c, g);
    case ArgValue => TargetAside(s, Target(s) + Normalized(TrimValue(n.text)), c, g);
    case ArgStringValue =>
      var v := TrimOneNewline(n.text);
      TargetAside(s, Target(s) + "\"", c, g);
      TargetAside(s, Target(s) + ((if s.closingQuotePending then "" else "\"") + Escape(v)), c, g);
    case ArgClose => TargetAside(s, Target(s) + "\"", c, g);
    case _ =>
  }

  lemma OneText(s: State, n: Node)
    requires Allowed(s, n)
    ensures Apply(s, n).content == s.content + if n.tag == Content then n.text else ""
    ensures Apply(s, n).reasoning == s.reasoning + if n.tag == Reasoning then n.text else ""
  {
    assert s.content + "" == s.content && s.reasoning + "" == s.reasoning;
    if UsesTool(n.tag) && !s.current.Nowhere? {
      ToolAside(s, n, s.content, s.reasoning);
      assert WithTexts(s, s.content, s.reasoning) == s;
    }
  }

  lemma {:induction false} TextsCollected(s: State, nodes: seq<Node>)
    requires Defined(s, nodes)
    ensures ApplyAll(s, nodes).content == s.content + TextsOf(nodes, Content)
    ensures ApplyAll(s, nodes).reasoning == s.reasoning + TextsOf(nodes, Reasoning)
    decreases |nodes|
  {
    if nodes == [] {
      assert s.content + "" == s.content && s.reasoning + "" == s.reasoning;
    } else {
      var n, rest := nodes[0], nodes[1..];
      OneText(s, n);
      TextsCollected(Apply(s, n), rest);
      Regroup(s.content, if n.tag == Content then n.text else "", TextsOf(rest, Content));
      Regroup(s.reasoning, if n.tag == Reasoning then n.text else "", TextsOf(rest, Reasoning));
    }
  }

  lemma Regroup(a: string, b: string, c: string)
    ensures (a + b) + c == a + (b + c)
  {
  }

  const FRESH := State("", "", [], None, Nowhere, 0, "", false)

  /** After a whole parse: all content nodes, and all reasoning nodes unless those hold nothing
      but blanks. */
  lemma TextsOfParse(nodes: seq<Node>)
    requires Defined(FRESH, nodes)
    ensures var end, reasoning := Finished(ApplyAll(FRESH, nodes)), TextsOf(nodes, Reasoning);
            && end.content == TextsOf(nodes, Content)
            && ((forall i :: 0 <= i < |reasoning| ==> reasoning[i] in " \n\r\t") ==> end.reasoning == "")
            && ((exists i :: 0 <= i < |reasoning| && reasoning[i] !in " \n\r\t") ==> end.reasoning == reasoning)
  {
    TextsCollected(FRESH, nodes);
    assert "" + TextsOf(nodes, Content) == TextsOf(nodes, Content);
    assert "" + TextsOf(nodes, Reasoning) == TextsOf(nodes, Reasoning);
    forall c: char
      ensures c in " \n\r\t" <==> IsBlank(c)
    {
      assert " \n\r\t"[0] == ' ' && " \n\r\t"[1] == '\n' && " \n\r\t"[2] == '\r' && " \n\r\t"[3] == '\t';
    }
  }

  /** A call that is still waiting at the end and has a name joins the others, with the buffered
      arguments if there are any and a closing quote if one is missing. */
  lemma FlushPushesNamed(s: State)
    requires s.pending.Some? && s.pending.value.name != ""
    ensures var p := s.pending.value;
            var args := if s.argsBuffer != "" then s.argsBuffer else p.arguments;
            Finished(s).calls == s.calls +
              [ToolCall(p.name, if s.closingQuotePending && args != "" then args + "\"" else args, p.id)]
    ensures Finished(s).pending.None?
  {
  }

  /** The nodes that are about tools. */
  function ToolNodes(nodes: seq<Node>): seq<Node> {
    if nodes == [] then []
    else (if nodes[0].tag == Content || nodes[0].tag == Reasoning then [] else [nodes[0]]) + ToolNodes(nodes[1..])
  }

  lemma TextsAside(s: State, n: Node, c: string, g: string)
    requires Allowed(s, n) && n.tag != Content && n.tag != Reasoning
    ensures Allowed(WithTexts(s, c, g), n) && Apply(WithTexts(s, c, g), n) == WithTexts(Apply(s, n), c, g)
  {
    if UsesTool(n.tag) && !s.current.Nowhere? {
      ToolAside(s, n, c, g);
    }
  }

  /** Content and reasoning nodes between the nodes of a call change nothing about it. */
  lemma {:induction false} TextsDoNotDisturb(s: State, nodes: seq<Node>, c: string, g: string)
    requires Defined(s, nodes)
    ensures Defined(WithTexts(s, c, g), ToolNodes(nodes))
    ensures ApplyAll(WithTexts(s, c, g), ToolNodes(nodes)) == WithTexts(ApplyAll(s, nodes), c, g)
    decreases |nodes|
  {
    if nodes != [] {
      var n, rest := nodes[0], nodes[1..];
      TextsDoNotDisturb(Apply(s, n), rest, c, g);
      if n.tag == Content || n.tag == Reasoning {
        assert WithTexts(Apply(s, n), c, g) == WithTexts(s, c, g);
        assert [] + ToolNodes(rest) == ToolNodes(rest);
      } else {
        TextsAside(s, n, c, g);
        Cons(WithTexts(s, c, g), n, ToolNodes(rest));
      }
    }
  }

  /** Nodes about tools do nothing until a call is opened. */
  lemma {:induction false} NothingBeforeOpen(s: State, nodes: seq<Node>)
    requires s.current.Nowhere? && forall i :: 0 <= i < |nodes| ==> nodes[i].tag != ToolOpen
    ensures Defined(s, nodes)
    ensures ApplyAll(s, nodes).calls == s.calls && ApplyAll(s, nodes).pending == s.pending
    decreases |nodes|
  {
    if nodes != [] {
      NothingBeforeOpen(Apply(s, nodes[0]), nodes[1..]);
    }
  }

  /** Arguments wait in the buffer only until the call has a name. */
  predicate BufferedUntilNamed(s: State) {
    Pointed(s) && Tool(s).name != "" ==> s.argsBuffer == ""
  }

  lemma TargetBuffered(s: State, text: string)
    requires Pointed(s) && BufferedUntilNamed(s)
    ensures BufferedUntilNamed(WithTarget(s, text))
  {
  }

  lemma ToolBuffered(s: State, n: Node)
    requires Pointed(s) && UsesTool(n.tag) && BufferedUntilNamed(s)
    ensures BufferedUntilNamed(ApplyToTool(s, n))
  {
    match n.tag
    case ToolArgs => TargetBuffered(s, TrimTrailing(n.text, ALL));
    case ArgName => TargetBuffered(s, (if Target(s) == "" then "{" else Target(s)) + Entry(s.argCount, TrimName(n.text)));
    case ArgValue => TargetBuffered(s, Target(s) + Normalized(TrimValue(n.text)));
    case ArgStringValue =>
      TargetBuffered(s, Target(s) + "\"");
      TargetBuffered(s, Target(s) + ((if s.closingQuotePending then "" else "\"") + Escape(TrimOneNewline(n.text))));
    case ArgClose => TargetBuffered(s, Target(s) + "\"");
    case _ =>
  }

  lemma NodeBuffered(s: State, n: Node)
    requires BufferedUntilNamed(s) && !(Dangling(s) && UsesTool(n.tag))
    ensures BufferedUntilNamed(Apply(s, n))
  {
    if UsesTool(n.tag) && !s.current.Nowhere? {
      ToolBuffered(s, n);
    }
  }

  lemma ClosedBuffer(s: State)
    requires BufferedUntilNamed(s) && Pointed(s)
    ensures CloseTool(s).argsBuffer == ""
  {
  }

  /** Over every run, a call that has a name has nothing in the buffer, and so it keeps nothing
      there when it is closed. */
  lemma {:induction false} NamedHasNoBuffer(s: State, nodes: seq<Node>)
    requires BufferedUntilNamed(s) && Defined(s, nodes)
    ensures BufferedUntilNamed(ApplyAll(s, nodes))
    ensures var e := ApplyAll(s, nodes); Pointed(e) ==> CloseTool(e).argsBuffer == ""
    decreases |nodes|
  {
    if nodes == [] {
      if Pointed(s) {
        ClosedBuffer(s);
      }
    } else {
      NodeBuffered(s, nodes[0]);
      NamedHasNoBuffer(Apply(s, nodes[0]), nodes[1..]);
    }
  }

  // ----------------------------------------------------------------- calls in JSON format

  /** The nodes between the opening and the closing of a call in JSON format. */
  predicate Pieces(nodes: seq<Node>) {
    forall i :: 0 <= i < |nodes| ==> nodes[i].tag.ToolId? || nodes[i].tag.ToolName? || nodes[i].tag.ToolArgs?
  }

  predicate IsObjectText(text: string) {
    var t := TrimTrailing(text, ALL);
    t != "" && t[0] == '{'
  }

  predicate HasName(nodes: seq<Node>) {
    exists i :: 0 <= i < |nodes| && nodes[i].tag.ToolName?
  }

  /** The last name, the last identifier without its quotes, and the last arguments text that
      begins an object; a text that does not leaves the arguments as they were. */
  function NameOf(nodes: seq<Node>): string {
    if nodes == [] then ""
    else if nodes[|nodes| - 1].tag.ToolName? then TrimTrailing(nodes[|nodes| - 1].text, ALL)
    else NameOf(nodes[..|nodes| - 1])
  }

  function IdOf(nodes: seq<Node>): string {
    if nodes == [] then ""
    else if nodes[|nodes| - 1].tag.ToolId? then Unquoted(TrimTrailing(nodes[|nodes| - 1].text, ALL))
    else IdOf(nodes[..|nodes| - 1])
  }

  function ArgsOf(nodes: seq<Node>): string {
    if nodes == [] then ""
    else if nodes[|nodes| - 1].tag.ToolArgs? && IsObjectText(nodes[|nodes| - 1].text) then TrimTrailing(nodes[|nodes| - 1].text, ALL)
    else ArgsOf(nodes[..|nodes| - 1])
  }

  /** What the state knows after the pieces `nodes` of a call that was opened after `calls`. */
  predicate Knows(s: State, calls: seq<ToolCall>, nodes: seq<Node>) {
    && !s.closingQuotePending
    && if HasName(nodes) then
         && s.current.AtLast? && s.pending.None? && |s.calls| == |calls| + 1 && s.calls[..|calls|] == calls
         && var t := s.calls[|calls|];
         && t.name == NameOf(nodes) && t.id == IdOf(nodes) && (t.name != "" ==> s.argsBuffer == "") && t.arguments != ""
         && (if s.argsBuffer != "" then s.argsBuffer else t.arguments) == (if ArgsOf(nodes) != "" then ArgsOf(nodes) else "{")
       else
         && s.current.AtPending? && s.calls == calls && s.pending == Some(ToolCall("", "", IdOf(nodes))) && s.argsBuffer == ArgsOf(nodes)
  }

  lemma LastPiece(nodes: seq<Node>, n: Node)
    ensures HasName(nodes + [n]) <==> n.tag.ToolName? || HasName(nodes)
    ensures NameOf(nodes + [n]) == if n.tag.ToolName? then TrimTrailing(n.text, ALL) else NameOf(nodes)
    ensures IdOf(nodes + [n]) == if n.tag.ToolId? then Unquoted(TrimTrailing(n.text, ALL)) else IdOf(nodes)
    ensures ArgsOf(nodes + [n]) == if n.tag.ToolArgs? && IsObjectText(n.text) then TrimTrailing(n.text, ALL) else ArgsOf(nodes)
  {
    var more := nodes + [n];
    assert more[..|more| - 1] == nodes && more[|more| - 1] == n;
    if HasName(nodes) {
      var i :| 0 <= i < |nodes| && nodes[i].tag.ToolName?;
      assert more[i] == nodes[i];
    }
  }

  lemma IdStep(s: State, calls: seq<ToolCall>, nodes: seq<Node>, n: Node)
    requires Knows(s, calls, nodes) && n.tag.ToolId?
    ensures Pointed(s) && Knows(Apply(s, n), calls, nodes + [n])
  {
    LastPiece(nodes, n);
  }

  lemma NameStep(s: State, calls: seq<ToolCall>, nodes: seq<Node>, n: Node)
    requires Knows(s, calls, nodes) && n.tag.ToolName?
    ensures Pointed(s) && Knows(Apply(s, n), calls, nodes + [n])
  {
    LastPiece(nodes, n);
  }

  lemma ArgsStep(s: State, calls: seq<ToolCall>, nodes: seq<Node>, n: Node)
    requires Knows(s, calls, nodes) && n.tag.ToolArgs?
    ensures Pointed(s) && Knows(Apply(s, n), calls, nodes + [n])
  {
    LastPiece(nodes, n);
  }

  lemma {:induction false} PiecesRun(s: State, calls: seq<ToolCall>, nodes: seq<Node>)
    requires Pieces(nodes) && Knows(s, calls, [])
    ensures Defined(s, nodes) && Knows(ApplyAll(s, nodes), calls, nodes)
    decreases |nodes|
  {
    if nodes != [] {
      var less, n := nodes[..|nodes| - 1], nodes[|nodes| - 1];
      assert nodes == less + [n];
      PiecesRun(s, calls, less);
      var s' := ApplyAll(s, less);
      if n.tag.ToolId? {
        IdStep(s', calls, less, n);
      } else if n.tag.ToolName? {
        NameStep(s', calls, less, n);
      } else {
        ArgsStep(s', calls, less, n);
      }
      Cons(s', n, []);
      ApplyConcat(s, less, [n]);
    }
  }

  lemma PiecesClose(s: State, calls: seq<ToolCall>, nodes: seq<Node>)
    requires Knows(s, calls, nodes)
    ensures Pointed(s)
    ensures var args := if ArgsOf(nodes) != "" then ArgsOf(nodes) else "{";
            Apply(s, Node(ToolClose, "")).calls == calls +
              if HasName(nodes) then [ToolCall(NameOf(nodes), args + Braces(BraceDepth(args, false, false)), IdOf(nodes))] else []
  {
  }

  /** Main theorem.  A call in JSON format leaves one call with the name, the identifier and
      the arguments text that were last given, in whatever order they came, the text followed
      only by the braces that the counter finds open; without any name it leaves no call. */
  lemma JsonCallRun(s: State, nodes: seq<Node>)
    requires Pieces(nodes)
    ensures var run := [Node(ToolOpen, "")] + (nodes + [Node(ToolClose, "")]);
            var args := if ArgsOf(nodes) != "" then ArgsOf(nodes) else "{";
            && Defined(s, run)
            && ApplyAll(s, run).calls == s.calls +
                 if HasName(nodes) then [ToolCall(NameOf(nodes), args + Braces(BraceDepth(args, false, false)), IdOf(nodes))] else []
  {
    var open, close := Node(ToolOpen, ""), Node(ToolClose, "");
    var s1 := Apply(s, open);
    PiecesRun(s1, s.calls, nodes);
    var s2 := ApplyAll(s1, nodes);
    PiecesClose(s2, s.calls, nodes);
    Cons(s2, close, []);
    ApplyConcat(s1, nodes, [close]);
    Cons(s, open, nodes + [close]);
  }

  /** An identifier loses its quotes when it has both, and nothing otherwise. */
  lemma UnquotedMeans(t: string)
    ensures forall v: string :: t == "\"" + v + "\"" ==> Unquoted(t) == v
    ensures |t| < 2 || t[0] != '"' || t[|t| - 1] != '"' ==> Unquoted(t) == t
  {
  }

  /** The arguments that a closed call keeps read as the text that was given: its tokens come
      first, and a text with no open brace is kept character by character. */
  lemma JsonArgumentsRead(args: string)
    requires Bad !in Scan(args, false) && !Ends(false, Scan(args, false))
    ensures var closed := args + Braces(BraceDepth(args, false, false));
            && Scan(args, false) <= Scan(closed, false) && Bad !in Scan(closed, false) && !Ends(false, Scan(closed, false))
            && (TokDepth(Scan(args, false)) <= 0 ==> closed == args)
            && (TokDepth(Scan(args, false)) >= 0 ==> TokDepth(Scan(closed, false)) == 0)
  {
    var closed := args + Braces(BraceDepth(args, false, false));
    ClosingBalances(args);
    BraceDepthCountsTokens(args, false);
    BraceDepthCountsTokens(closed, false);
    if BraceDepth(args, false, false) <= 0 {
      assert args + "" == args;
    }
  }

  /** The common case: an identifier, a name and a complete object in one call. */
  lemma CompleteJsonCall(s: State, name: string, args: string)
    requires args != "" && args[0] == '{' && !IsSpace(args[|args| - 1])
    requires Bad !in Scan(args, false) && !Ends(false, Scan(args, false)) && TokDepth(Scan(args, false)) == 0
    ensures var n, a := Node(ToolName, name), Node(ToolArgs, args);
            forall nodes :: nodes == [n, a] || nodes == [a, n] ==>
              var run := [Node(ToolOpen, "")] + (nodes + [Node(ToolClose, "")]);
              Defined(s, run) && ApplyAll(s, run).calls == s.calls + [ToolCall(TrimTrailing(name, ALL), args, "")]
  {
    var n, a := Node(ToolName, name), Node(ToolArgs, args);
    assert TrimTrailing(args, ALL) == args;
    JsonArgumentsRead(args);
    forall nodes | nodes == [n, a] || nodes == [a, n]
      ensures var run := [Node(ToolOpen, "")] + (nodes + [Node(ToolClose, "")]);
              Defined(s, run) && ApplyAll(s, run).calls == s.calls + [ToolCall(TrimTrailing(name, ALL), args, "")]
    {
      TwoPieces(nodes[0], nodes[1]);
      assert nodes == [nodes[0], nodes[1]];
      JsonCallRun(s, nodes);
    }
  }

  lemma TwoPieces(n: Node, m: Node)
    ensures HasName([n, m]) <==> n.tag.ToolName? || m.tag.ToolName?
    ensures NameOf([n, m]) == if m.tag.ToolName? then TrimTrailing(m.text, ALL) else if n.tag.ToolName? then TrimTrailing(n.text, ALL) else ""
    ensures IdOf([n, m]) == if m.tag.ToolId? then Unquoted(TrimTrailing(m.text, ALL)) else if n.tag.ToolId? then Unquoted(TrimTrailing(n.text, ALL)) else ""
    ensures ArgsOf([n, m]) == if m.tag.ToolArgs? && IsObjectText(m.text) then TrimTrailing(m.text, ALL) else if n.tag.ToolArgs? && IsObjectText(n.text) then TrimTrailing(n.text, ALL) else ""
  {
    LastPiece([], n);
    LastPiece([n], m);
    assert [] + [n] == [n] && [n] + [m] == [n, m];
  }

  // -------------------------------------------------------------------- tagged arguments

  lemma PendingIsDiscarded(s: State)
    requires Pointed(s) && s.current.AtPending? && s.pending.value.name == ""
    ensures Apply(s, Node(ToolClose, "")).calls == s.calls && Apply(s, Node(ToolClose, "")).pending.None?
  {
  }

  /** A call that is closed without ever being named leaves nothing, whatever its arguments. */
  lemma NamelessIsDiscarded(s: State, args: seq<Arg>)
    ensures var run := [Node(ToolOpen, "")] + (ArgsNodes(args) + [Node(ToolClose, "")]);
            Defined(s, run) && ApplyAll(s, run).calls == s.calls && ApplyAll(s, run).pending.None?
  {
    var open, close := Node(ToolOpen, ""), Node(ToolClose, "");
    var s1 := Apply(s, open);
    BufferedArgs(s1, args);
    var s2 := ApplyAll(s1, ArgsNodes(args));
    PendingIsDiscarded(s2);
    Cons(s2, close, []);
    ApplyConcat(s1, ArgsNodes(args), [close]);
    Cons(s, open, ArgsNodes(args) + [close]);
  }

  /** A call that is closed while its last value is still open ends as if the value had been
      closed first. */
  lemma UnclosedValue(s: State)
    requires Pointed(s) && (s.closingQuotePending ==> Target(s) != "")
    ensures Allowed(Apply(s, Node(ArgClose, "")), Node(ToolClose, ""))
    ensures Apply(Apply(s, Node(ArgClose, "")), Node(ToolClose, "")) == Apply(s, Node(ToolClose, ""))
  {
  }

  /** A new argument forgets a value that was never closed: it begins as if no quote were
      missing. */
  lemma NewArgumentForgets(s: State, a: Arg)
    requires Pointed(s)
    ensures var s' := s.(closingQuotePending := false);
            Defined(s, ArgNodes(a)) && Defined(s', ArgNodes(a)) && ApplyAll(s, ArgNodes(a)) == ApplyAll(s', ArgNodes(a))
  {
    var s' := s.(closingQuotePending := false);
    var open, rest := Node(ArgOpen, ""), ArgNodes(a)[1..];
    assert ArgNodes(a) == [open] + rest;
    assert Apply(s, open) == s' && Apply(s', open) == s';
    ArgRun(s', a);
    Cons(s, open, rest);
    Cons(s', open, rest);
  }

  /** The texts of several string values in one argument, as far as the closing quote. */
  function Chunks(texts: seq<string>): string
    decreases |texts|
  {
    if texts == [] then ""
    else
      var v := TrimOneNewline(texts[|texts| - 1]);
      Chunks(texts[..|texts| - 1]) +
      (if |texts| == 1 then "\"" + Escape(v) else if v == "" then "\"" else Escape(v))
  }

  function ChunkNodes(texts: seq<string>): (nodes: seq<Node>)
    ensures |nodes| == |texts|
  {
    seq(|texts|, i requires 0 <= i < |texts| => Node(ArgStringValue, texts[i]))
  }

  function Whole(texts: seq<string>): string
    decreases |texts|
  {
    if texts == [] then "" else Whole(texts[..|texts| - 1]) + TrimOneNewline(texts[|texts| - 1])
  }

  /** Some value after the first is empty once its line breaks are off. */
  predicate EmptyLater(texts: seq<string>) {
    exists i :: 0 < i < |texts| && TrimOneNewline(texts[i]) == ""
  }

  /** One more value of the same argument, without another opening quote. */
  lemma ChunkStep(s: State, text: string, first: bool)
    requires Pointed(s) && s.closingQuotePending == !first
    ensures var v := TrimOneNewline(text);
            Apply(s, Node(ArgStringValue, text)) ==
            WithTarget(s, Target(s) + (if first then "\"" + Escape(v) else if v == "" then "\"" else Escape(v))).(closingQuotePending := true)
  {
    var v := TrimOneNewline(text);
    assert "" + Escape(v) == Escape(v);
    assert v == "" ==> "\"" + Escape(v) == "\"";
  }

  lemma LastChunk(texts: seq<string>)
    requires texts != []
    ensures ChunkNodes(texts) == ChunkNodes(texts[..|texts| - 1]) + [Node(ArgStringValue, texts[|texts| - 1])]
  {
  }

  lemma SecondTarget(s: State, u: string, v: string)
    requires Pointed(s)
    ensures var s' := WithTarget(s, u).(closingQuotePending := true);
            && Pointed(s') && Target(s') == u
            && WithTarget(s', v).(closingQuotePending := true) == WithTarget(s, v).(closingQuotePending := true)
  {
  }

  lemma {:induction false} ChunksRun(s: State, texts: seq<string>)
    requires Pointed(s) && !s.closingQuotePending && texts != []
    ensures Defined(s, ChunkNodes(texts))
    ensures ApplyAll(s, ChunkNodes(texts)) == WithTarget(s, Target(s) + Chunks(texts)).(closingQuotePending := true)
    decreases |texts|
  {
    var less, last := texts[..|texts| - 1], texts[|texts| - 1];
    var n := Node(ArgStringValue, last);
    LastChunk(texts);
    if less == [] {
      assert [] + [n] == [n] && "" + ("\"" + Escape(TrimOneNewline(last))) == "\"" + Escape(TrimOneNewline(last));
      ChunkStep(s, last, true);
      Cons(s, n, []);
    } else {
      ChunksRun(s, less);
      var s' := ApplyAll(s, ChunkNodes(less));
      SecondTarget(s, Target(s) + Chunks(less), Target(s) + Chunks(texts));
      ChunkStep(s', last, false);
      Regroup(Target(s), Chunks(less), if TrimOneNewline(last) == "" then "\"" else Escape(TrimOneNewline(last)));
      Cons(s', n, []);
      ApplyConcat(s, ChunkNodes(less), [n]);
    }
  }

  lemma {:induction false} EscapeConcat(a: string, b: string)
    ensures Escape(a + b) == Escape(a) + Escape(b)
    decreases |a|
  {
    if a == "" {
      assert a + b == b && Escape(a) + Escape(b) == Escape(b);
    } else {
      EscapeHead(a, b);
      EscapeConcat(a[1..], b);
      EscapeFirst(a, Escape(b));
    }
  }

  lemma EscapeHead(a: string, b: string)
    requires a != ""
    ensures Escape(a + b) == DumpChar(a[0]) + Escape(a[1..] + b)
  {
    assert (a + b)[1..] == a[1..] + b;
  }

  lemma {:induction false} ChunksAreEscaped(texts: seq<string>)
    requires texts != []
    ensures |Chunks(texts)| >= 1 + |Escape(Whole(texts))|
    ensures Chunks(texts) == "\"" + Escape(Whole(texts)) <==> !EmptyLater(texts)
    decreases |texts|
  {
    var less, last := texts[..|texts| - 1], texts[|texts| - 1];
    var v := TrimOneNewline(last);
    if less == [] {
      assert "" + v == v && "" + ("\"" + Escape(v)) == "\"" + Escape(v);
    } else {
      ChunksAreEscaped(less);
      EscapeConcat(Whole(less), v);
      EmptyLast(texts);
      if v != "" {
        SameTail(Chunks(less), Escape(Whole(less)), Escape(v));
      }
      assert v == "" ==> Escape(v) == "";
    }
  }

  lemma EmptyLast(texts: seq<string>)
    requires |texts| > 1
    ensures EmptyLater(texts) <==> EmptyLater(texts[..|texts| - 1]) || TrimOneNewline(texts[|texts| - 1]) == ""
  {
    var less := texts[..|texts| - 1];
    if EmptyLater(texts) {
      var i :| 0 < i < |texts| && TrimOneNewline(texts[i]) == "";
      assert i < |texts| - 1 ==> less[i] == texts[i];
    }
    if EmptyLater(less) {
      var i :| 0 < i < |less| && TrimOneNewline(less[i]) == "";
      assert texts[i] == less[i];
    }
  }

  lemma SameTail(a: string, b: string, c: string)
    ensures a + c == "\"" + (b + c) <==> a == "\"" + b
  {
    assert "\"" + (b + c) == ("\"" + b) + c;
    if a + c == ("\"" + b) + c {
      assert (a + c)[..|a|] == a && (("\"" + b) + c)[..|"\"" + b|] == "\"" + b;
    }
  }

  /** Several string values in one argument become one string of all their texts if and only if
      none after the first is empty. */
  lemma ValuesJoin(s: State, texts: seq<string>)
    requires Pointed(s) && !s.closingQuotePending && texts != []
    ensures var run := ChunkNodes(texts) + [Node(ArgClose, "")];
            && Defined(s, run) && Pointed(ApplyAll(s, run))
            && (Target(ApplyAll(s, run)) == Target(s) + Dump(Whole(texts)) <==> !EmptyLater(texts))
  {
    var close := Node(ArgClose, "");
    ChunksRun(s, texts);
    var s1 := ApplyAll(s, ChunkNodes(texts));
    CloseQuote(s, Target(s) + Chunks(texts));
    Cons(s1, close, []);
    ApplyConcat(s, ChunkNodes(texts), [close]);
    TargetLaws(s, Target(s) + Chunks(texts) + "\"", "");
    ChunksAreEscaped(texts);
    SameDump(Target(s), Chunks(texts), Escape(Whole(texts)));
  }

  lemma SameDump(t: string, a: string, e: string)
    ensures t + a + "\"" == t + ("\"" + e + "\"") <==> a == "\"" + e
  {
    if t + a + "\"" == t + ("\"" + e + "\"") {
      var u, v := t + a + "\"", t + ("\"" + e + "\"");
      assert u[|t|..|u| - 1] == a && v[|t|..|v| - 1] == "\"" + e;
    }
  }
}
