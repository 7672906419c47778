/**
  Whole tool calls through the mapper: the nodes of one call, in the order a tagged parse
  visits them, end in arguments that read back as the keys and values of the call.
 */
module PegRoundTrip {
  import opened Options
  import opened Text
  import opened JsonText
  import opened PyQuotes
  import opened JsonObject
  import opened PegMapper

  // ------------------------------------------------------------------------ runs of nodes

  lemma {:induction false} ApplyConcat(s: State, a: seq<Node>, b: seq<Node>)
    requires Defined(s, a) && Defined(ApplyAll(s, a), b)
    ensures Defined(s, a + b) && ApplyAll(s, a + b) == ApplyAll(ApplyAll(s, a), b)
    decreases |a|
  {
    if a == [] {
      assert a + b == b;
    } else {
      assert (a + b)[1..] == a[1..] + b;
      ApplyConcat(Apply(s, a[0]), a[1..], b);
    }
  }

  /** One argument: its name, and its value as a declared string or as Python-like text. */
  datatype Arg = Arg(name: string, isString: bool, text: string)

  function ArgNodes(a: Arg): seq<Node> {
    [Node(ArgOpen, ""), Node(ArgName, a.name),
     Node(if a.isString then ArgStringValue else ArgValue, a.text), Node(ArgClose, "")]
  }

  function ArgsNodes(args: seq<Arg>): seq<Node> {
    if args == [] then [] else ArgNodes(args[0]) + ArgsNodes(args[1..])
  }

  /** A call whose name comes after the arguments `before` and ahead of the arguments `after`. */
  function CallNodes(name: string, before: seq<Arg>, after: seq<Arg>): seq<Node> {
    [Node(ToolOpen, "")] + (ArgsNodes(before) + ([Node(ToolName, name)] + (ArgsNodes(after) + [Node(ToolClose, "")])))
  }

  // ------------------------------------------------------------- the text the run builds

  function ValueText(a: Arg): string {
    if a.isString then Dump(TrimOneNewline(a.text)) else Normalized(TrimValue(a.text))
  }

  function ArgText(a: Arg): string {
    Dump(TrimName(a.name)) + ":" + ValueText(a)
  }

  function ArgTexts(args: seq<Arg>): (texts: seq<string>)
    ensures |texts| == |args|
  {
    seq(|args|, i requires 0 <= i < |args| => ArgText(args[i]))
  }

  /** The target after the text of one more argument. */
  function Grown(target: string, argCount: nat, text: string): string {
    (if target == "" then "{" else target) + (if argCount > 0 then "," + text else text)
  }

  function GrownBy(target: string, argCount: nat, texts: seq<string>): string
    decreases |texts|
  {
    if texts == [] then target else GrownBy(Grown(target, argCount, texts[0]), argCount + 1, texts[1..])
  }

  function WithArgs(s: State, target: string, n: nat): State
    requires Pointed(s)
  {
    WithTarget(s, target).(argCount := s.argCount + n, closingQuotePending := false)
  }

  lemma TargetLaws(s: State, u: string, v: string)
    requires Pointed(s)
    ensures Pointed(WithTarget(s, u)) && Target(WithTarget(s, u)) == u
    ensures WithTarget(WithTarget(s, u), v) == WithTarget(s, v)
    ensures WithTarget(s, Target(s)) == s
  {
  }

  predicate Allowed(s: State, n: Node) {
    !(Dangling(s) && UsesTool(n.tag))
  }

  lemma ApplyFour(s: State, n0: Node, n1: Node, n2: Node, n3: Node, s1: State, s2: State, s3: State)
    requires Allowed(s, n0) && s1 == Apply(s, n0)
    requires Allowed(s1, n1) && s2 == Apply(s1, n1)
    requires Allowed(s2, n2) && s3 == Apply(s2, n2)
    requires Allowed(s3, n3)
    ensures Defined(s, [n0, n1, n2, n3]) && ApplyAll(s, [n0, n1, n2, n3]) == Apply(s3, n3)
  {
    Cons(s3, n3, []);
    Cons(s2, n2, [n3]);
    Cons(s1, n1, [n2, n3]);
    Cons(s, n0, [n1, n2, n3]);
  }

  /** The name node of an argument writes the key. */
  lemma KeyRun(s: State, a: Arg)
    requires Pointed(s) && !s.closingQuotePending
    ensures var key := (if Target(s) == "" then "{" else Target(s)) + Entry(s.argCount, TrimName(a.name));
            NameEntry(s, a.name) == WithArgs(s, key, 1) && Pointed(WithArgs(s, key, 1)) && Target(WithArgs(s, key, 1)) == key
  {
  }

  lemma WithArgsTwice(s: State, u: string, v: string)
    requires Pointed(s) && !s.closingQuotePending
    ensures Pointed(WithArgs(s, u, 1)) && WithTarget(WithArgs(s, u, 1), v) == WithArgs(s, v, 1)
  {
  }

  lemma GrownText(target: string, n: nat, a: Arg)
    ensures (if target == "" then "{" else target) + Entry(n, TrimName(a.name)) + ValueText(a) == Grown(target, n, ArgText(a))
  {
    RegroupText(if target == "" then "{" else target, n, Dump(TrimName(a.name)) + ":", ValueText(a));
  }

  lemma OpenAndName(s: State, name: string)
    requires Pointed(s) && !s.closingQuotePending
    ensures Apply(s, Node(ArgOpen, "")) == s && Apply(s, Node(ArgName, name)) == NameEntry(s, name)
  {
  }

  lemma PointedAllows(s: State, n: Node)
    requires Pointed(s)
    ensures Allowed(s, n)
  {
  }

  lemma KeyAndValueRun(s: State, a: Arg)
    requires Pointed(s) && !s.closingQuotePending
    ensures Defined(s, ArgNodes(a))
    ensures var key := (if Target(s) == "" then "{" else Target(s)) + Entry(s.argCount, TrimName(a.name));
            ApplyAll(s, ArgNodes(a)) == WithArgs(s, key + ValueText(a), 1)
  {
    var key := (if Target(s) == "" then "{" else Target(s)) + Entry(s.argCount, TrimName(a.name));
    KeyRun(s, a);
    OpenAndName(s, a.name);
    WithArgsTwice(s, key, key + ValueText(a));
    ValueRun(WithArgs(s, key, 1), a);
    NodesRun(s, WithArgs(s, key, 1), a);
  }

  /** The four nodes of an argument, given what the first two do. */
  lemma NodesRun(s: State, s2: State, a: Arg)
    requires Pointed(s) && Apply(s, Node(ArgOpen, "")) == s && Apply(s, Node(ArgName, a.name)) == s2 && Pointed(s2)
    requires Pointed(Apply(s2, Node(if a.isString then ArgStringValue else ArgValue, a.text)))
    ensures Defined(s, ArgNodes(a))
    ensures ApplyAll(s, ArgNodes(a)) == Apply(Apply(s2, Node(if a.isString then ArgStringValue else ArgValue, a.text)), Node(ArgClose, ""))
  {
    var open, named, value, close := Node(ArgOpen, ""), Node(ArgName, a.name), Node(if a.isString then ArgStringValue else ArgValue, a.text), Node(ArgClose, "");
    PointedAllows(s, open);
    PointedAllows(s, named);
    PointedAllows(s2, value);
    PointedAllows(Apply(s2, value), close);
    ApplyFour(s, open, named, value, close, s, s2, Apply(s2, value));
  }

  lemma ArgRun(s: State, a: Arg)
    requires Pointed(s) && !s.closingQuotePending
    ensures Defined(s, ArgNodes(a))
    ensures ApplyAll(s, ArgNodes(a)) == WithArgs(s, Grown(Target(s), s.argCount, ArgText(a)), 1)
  {
    KeyAndValueRun(s, a);
    GrownText(Target(s), s.argCount, a);
  }

  /** An open quoted text is closed by one more quote. */
  lemma CloseQuote(s: State, text: string)
    requires Pointed(s) && !s.closingQuotePending
    ensures var s' := WithTarget(s, text).(closingQuotePending := true);
            Pointed(s') && Apply(s', Node(ArgClose, "")) == WithTarget(s, text + "\"")
  {
    TargetLaws(s, text, text + "\"");
  }

  lemma QuotedText(s: State, text: string) returns (quoted: string)
    requires Pointed(s) && !s.closingQuotePending
    ensures Apply(s, Node(ArgStringValue, text)) == WithTarget(s, quoted).(closingQuotePending := true)
    ensures quoted + "\"" == Target(s) + Dump(TrimOneNewline(text))
  {
    var v := TrimOneNewline(text);
    quoted := if v == "" then Target(s) + "\"" else Target(s) + ("\"" + Escape(v));
    QuotesAround(Target(s), Escape(v));
    assert Escape("") == "";
  }

  lemma QuotesAround(t: string, e: string)
    ensures t + ("\"" + e) + "\"" == t + ("\"" + e + "\"")
    ensures e == "" ==> t + "\"" + "\"" == t + ("\"" + e + "\"")
  {
  }

  lemma StringRun(s: State, text: string)
    requires Pointed(s) && !s.closingQuotePending
    ensures var s' := Apply(s, Node(ArgStringValue, text));
            Pointed(s') && Apply(s', Node(ArgClose, "")) == WithTarget(s, Target(s) + Dump(TrimOneNewline(text)))
  {
    var quoted := QuotedText(s, text);
    CloseQuote(s, quoted);
  }

  lemma ContainerRun(s: State, text: string)
    requires Pointed(s) && !s.closingQuotePending
    ensures var s' := Apply(s, Node(ArgValue, text));
            Pointed(s') && Apply(s', Node(ArgClose, "")) == s' == WithTarget(s, Target(s) + Normalized(TrimValue(text)))
  {
    TargetLaws(s, Target(s) + Normalized(TrimValue(text)), "");
  }

  /** The value node and the closing node of an argument append the value. */
  lemma ValueRun(s: State, a: Arg)
    requires Pointed(s) && !s.closingQuotePending
    ensures var s' := Apply(s, Node(if a.isString then ArgStringValue else ArgValue, a.text));
            Pointed(s') && Apply(s', Node(ArgClose, "")) == WithTarget(s, Target(s) + ValueText(a))
  {
    if a.isString {
      StringRun(s, a.text);
    } else {
      ContainerRun(s, a.text);
    }
  }

  /** Two runs of arguments, one after the other, in one. */
  lemma WithArgsAgain(s: State, u: string, v: string, n: nat)
    requires Pointed(s)
    ensures var s1 := WithArgs(s, u, 1);
            && Pointed(s1) && Target(s1) == u && s1.argCount == s.argCount + 1 && !s1.closingQuotePending
            && WithArgs(s1, v, n) == WithArgs(s, v, n + 1)
  {
  }

  lemma NoArgs(s: State)
    requires Pointed(s) && !s.closingQuotePending
    ensures WithArgs(s, Target(s), 0) == s
  {
    TargetLaws(s, Target(s), "");
  }

  lemma GrownByFirst(target: string, n: nat, args: seq<Arg>)
    requires args != []
    ensures GrownBy(target, n, ArgTexts(args)) == GrownBy(Grown(target, n, ArgText(args[0])), n + 1, ArgTexts(args[1..]))
  {
    assert ArgTexts(args)[1..] == ArgTexts(args[1..]);
  }

  lemma {:induction false} ArgsRun(s: State, args: seq<Arg>)
    requires Pointed(s) && !s.closingQuotePending
    ensures Defined(s, ArgsNodes(args))
    ensures ApplyAll(s, ArgsNodes(args)) == WithArgs(s, GrownBy(Target(s), s.argCount, ArgTexts(args)), |args|)
    decreases |args|
  {
    if args == [] {
      NoArgs(s);
    } else {
      var a, rest := args[0], args[1..];
      var t1 := Grown(Target(s), s.argCount, ArgText(a));
      var s1 := WithArgs(s, t1, 1);
      var text := GrownBy(t1, s.argCount + 1, ArgTexts(rest));
      WithArgsAgain(s, t1, text, |rest|);
      ArgRun(s, a);
      ArgsRun(s1, rest);
      ApplyConcat(s, ArgNodes(a), ArgsNodes(rest));
      GrownByFirst(Target(s), s.argCount, args);
    }
  }

  /** The arguments of the call just before it closes. */
  function OpenText(name: string, before: seq<Arg>, after: seq<Arg>): string {
    var buffered := GrownBy("", 0, ArgTexts(before));
    var atName := if before == [] then "{" else buffered;
    if TrimTrailing(name, ALL) != "" then GrownBy(atName, |before|, ArgTexts(after))
    else if after == [] then atName
    else GrownBy("", |before|, ArgTexts(after))
  }

  lemma {:induction false} GrownByNonempty(target: string, n: nat, texts: seq<string>)
    requires target != "" || texts != []
    ensures GrownBy(target, n, texts) != ""
    decreases |texts|
  {
    if texts != [] {
      GrownByNonempty(Grown(target, n, texts[0]), n + 1, texts[1..]);
    }
  }

  /** The state in which a call stands just before it closes. */
  predicate ReadyToClose(s: State, calls: seq<ToolCall>, name: string, text: string) {
    && Pointed(s) && s.current.AtLast? && s.pending.None? && !s.closingQuotePending
    && |s.calls| == |calls| + 1 && s.calls[..|calls|] == calls
    && Tool(s).name == name && Tool(s).id == ""
    && text == if name == "" && s.argsBuffer != "" then s.argsBuffer else Tool(s).arguments
  }

  lemma CloseRun(s: State, calls: seq<ToolCall>, name: string, text: string)
    requires ReadyToClose(s, calls, name, text)
    ensures var s' := Apply(s, Node(ToolClose, ""));
            && s'.calls == calls + [ToolCall(name, text + Braces(BraceDepth(text, false, false)), "")]
            && s'.pending.None? && !s'.closingQuotePending
  {
  }

  /** What the buffer holds when the name arrives: nothing, or the arguments before the name. */
  lemma BufferedArgs(s: State, before: seq<Arg>)
    requires Pointed(s) && s.current.AtPending? && s.pending == Some(ToolCall("", "", ""))
    requires s.argsBuffer == "" && s.argCount == 0 && !s.closingQuotePending
    ensures Defined(s, ArgsNodes(before))
    ensures ApplyAll(s, ArgsNodes(before)) == s.(argsBuffer := GrownBy("", 0, ArgTexts(before)), argCount := |before|)
    ensures GrownBy("", 0, ArgTexts(before)) == "" <==> before == []
  {
    ArgsRun(s, before);
    if before != [] {
      GrownByNonempty("", 0, ArgTexts(before));
    }
  }

  lemma NamesCall(s: State, name: string, buffer: string)
    requires s.current.AtPending? && s.pending == Some(ToolCall("", "", "")) && s.argsBuffer == buffer
    ensures NameTool(s, name) ==
            s.(calls := s.calls + [ToolCall(TrimTrailing(name, ALL), if buffer == "" then "{" else buffer, "")],
               pending := None, current := AtLast, argsBuffer := "")
  {
  }

  /** From the opening of a call to its name. */
  lemma NameRun(s: State, name: string, before: seq<Arg>)
    requires Pointed(s) && s.current.AtPending? && s.pending == Some(ToolCall("", "", ""))
    requires s.argsBuffer == "" && s.argCount == 0 && !s.closingQuotePending
    ensures Defined(s, ArgsNodes(before))
    ensures Pointed(ApplyAll(s, ArgsNodes(before)))
    ensures var s' := NameTool(ApplyAll(s, ArgsNodes(before)), name);
            && s'.calls == s.calls + [ToolCall(TrimTrailing(name, ALL), if before == [] then "{" else GrownBy("", 0, ArgTexts(before)), "")]
            && s'.current.AtLast? && s'.pending.None? && s'.argsBuffer == "" && s'.argCount == |before|
            && !s'.closingQuotePending
  {
    BufferedArgs(s, before);
    NamesCall(ApplyAll(s, ArgsNodes(before)), name, GrownBy("", 0, ArgTexts(before)));
  }

  /** From the name of a call to just before it closes. */
  lemma AfterNameRun(s: State, calls: seq<ToolCall>, name: string, before: seq<Arg>, after: seq<Arg>)
    requires s.calls == calls + [ToolCall(TrimTrailing(name, ALL), if before == [] then "{" else GrownBy("", 0, ArgTexts(before)), "")]
    requires s.current.AtLast? && s.pending.None? && s.argsBuffer == "" && s.argCount == |before| && !s.closingQuotePending
    ensures Defined(s, ArgsNodes(after))
    ensures ReadyToClose(ApplyAll(s, ArgsNodes(after)), calls, TrimTrailing(name, ALL), OpenText(name, before, after))
  {
    ArgsRun(s, after);
    if after != [] {
      GrownByNonempty("", |before|, ArgTexts(after));
    }
  }

  /** What the whole run leaves: one more call, with its braces closed. */
  lemma CallRun(s: State, name: string, before: seq<Arg>, after: seq<Arg>)
    ensures Defined(s, CallNodes(name, before, after))
    ensures var text := OpenText(name, before, after);
            var final := ApplyAll(s, CallNodes(name, before, after));
            && final.calls == s.calls + [ToolCall(TrimTrailing(name, ALL), text + Braces(BraceDepth(text, false, false)), "")]
            && final.pending.None? && !final.closingQuotePending
  {
    var open, named, close := Node(ToolOpen, ""), Node(ToolName, name), Node(ToolClose, "");
    var s1 := Apply(s, open);
    NameRun(s1, name, before);
    var s2 := ApplyAll(s1, ArgsNodes(before));
    var s3 := Apply(s2, named);
    AfterNameRun(s3, s.calls, name, before, after);
    var s4 := ApplyAll(s3, ArgsNodes(after));
    CloseRun(s4, s.calls, TrimTrailing(name, ALL), OpenText(name, before, after));
    ApplyFive(s, open, ArgsNodes(before), named, ArgsNodes(after), close, s1, s2, s3, s4);
  }

  lemma ApplyFive(s: State, n0: Node, a: seq<Node>, n1: Node, b: seq<Node>, n2: Node,
                  s1: State, s2: State, s3: State, s4: State)
    requires Allowed(s, n0) && s1 == Apply(s, n0)
    requires Defined(s1, a) && s2 == ApplyAll(s1, a)
    requires Allowed(s2, n1) && s3 == Apply(s2, n1)
    requires Defined(s3, b) && s4 == ApplyAll(s3, b)
    requires Allowed(s4, n2)
    ensures var nodes := [n0] + (a + ([n1] + (b + [n2])));
            Defined(s, nodes) && ApplyAll(s, nodes) == Apply(s4, n2)
  {
    Cons(s4, n2, []);
    ApplyConcat(s3, b, [n2]);
    Cons(s2, n1, b + [n2]);
    ApplyConcat(s1, a, [n1] + (b + [n2]));
    Cons(s, n0, a + ([n1] + (b + [n2])));
  }

  lemma Cons(s: State, n: Node, rest: seq<Node>)
    requires !(Dangling(s) && UsesTool(n.tag)) && Defined(Apply(s, n), rest)
    ensures Defined(s, [n] + rest) && ApplyAll(s, [n] + rest) == ApplyAll(Apply(s, n), rest)
  {
    assert ([n] + rest)[1..] == rest;
  }

  // ------------------------------------------------------------ the text reads back

  /** What an argument should read back as: its trimmed name, and its trimmed string value or
      the meaning of its trimmed Python-like value. */
  function MemberOf(a: Arg): Member {
    Member(Codes(Chars(TrimName(a.name))),
           if a.isString then StringToks(TrimOneNewline(a.text)) else Meaning(TrimValue(a.text), 0, Outside))
  }

  function Members(args: seq<Arg>): (ms: seq<Member>)
    ensures |ms| == |args|
  {
    seq(|args|, i requires 0 <= i < |args| => MemberOf(args[i]))
  }

  /** A Python-like value must be one complete value: nonempty, its quotes and brackets
      closed, no comma outside brackets.  A declared string may be anything. */
  predicate Complete(args: seq<Arg>) {
    forall i :: 0 <= i < |args| && !args[i].isString ==> SelfContained(Meaning(TrimValue(args[i].text), 0, Outside))
  }

  lemma CompleteMembers(args: seq<Arg>)
    requires Complete(args)
    ensures Writable(Members(args))
  {
    forall i | 0 <= i < |args|
      ensures SelfContained(MemberOf(args[i]).value)
    {
      StringIsSelfContained(TrimOneNewline(args[i].text));
    }
  }

  lemma ValueScans(a: Arg)
    ensures Scan(ValueText(a), false) == MemberOf(a).value
  {
    if a.isString {
      var v := TrimOneNewline(a.text);
      DumpScans(v, "");
      assert Dump(v) + "" == Dump(v);
    } else {
      NormalizePreservesMeaning(TrimValue(a.text));
    }
  }

  lemma MemberScans(a: Arg)
    ensures Scan(ArgText(a), false) == MemberToks(MemberOf(a))
  {
    var name, value := TrimName(a.name), ValueText(a);
    assert Dump(name) + ":" + value == Dump(name) + (":" + value);
    DumpScans(name, ":" + value);
    OutsideScans(":", value);
    assert Outs(":") == [Out(':')];
    ValueScans(a);
    assert CharToks(MemberOf(a).key) == Chars(name);
    Colon(Chars(name), MemberOf(a).value);
  }

  lemma Colon(chars: seq<Tok>, value: seq<Tok>)
    ensures ([Open] + chars + [Close]) + ([Out(':')] + value) == [Open] + chars + [Close, Out(':')] + value
  {
  }

  /** Text that reads as valid tokens and ends outside every string. */
  predicate ReadsAs(text: string, ts: seq<Tok>) {
    text != "" && Scan(text, false) == ts && Bad !in ts && !Ends(false, ts)
  }

  lemma ReadsAsConcat(a: string, u: seq<Tok>, b: string, v: seq<Tok>)
    requires ReadsAs(a, u) && Scan(b, false) == v && Bad !in v && !Ends(false, v)
    ensures ReadsAs(a + b, u + v)
  {
    ScanConcat(a, b, false);
    EndsConcat(false, u, v);
  }

  /** The tokens that the arguments `ms` add when `n` came before them. */
  function Added(n: nat, ms: seq<Member>): seq<Tok> {
    if n > 0 && ms != [] then [Out(',')] + MembersToks(ms) else MembersToks(ms)
  }

  lemma ArgReads(a: Arg)
    requires Complete([a])
    ensures Scan(ArgText(a), false) == MemberToks(MemberOf(a))
    ensures Bad !in MemberToks(MemberOf(a)) && !Ends(false, MemberToks(MemberOf(a)))
  {
    CompleteMembers([a]);
    assert MemberOf(a) == Members([a])[0];
    MemberScans(a);
    MemberDepth(MemberOf(a));
  }

  lemma LaterReads(target: string, ts: seq<Tok>, text: string, u: seq<Tok>)
    requires ReadsAs(target, ts) && Scan(text, false) == u && Bad !in u && !Ends(false, u)
    ensures ReadsAs(target + ("," + text), ts + ([Out(',')] + u))
  {
    Comma(target, ts);
    ReadsAsConcat(target + ",", ts + [Out(',')], text, u);
    assert (target + ",") + text == target + ("," + text);
    RegroupToks(ts, [Out(',')], u);
  }

  lemma GrownReads(target: string, ts: seq<Tok>, n: nat, a: Arg)
    requires ReadsAs(target, ts) && Complete([a])
    ensures ReadsAs(Grown(target, n, ArgText(a)), ts + Added(n, [MemberOf(a)]))
  {
    ArgReads(a);
    assert MembersToks([MemberOf(a)]) == MemberToks(MemberOf(a));
    if n > 0 {
      LaterReads(target, ts, ArgText(a), MemberToks(MemberOf(a)));
    } else {
      ReadsAsConcat(target, ts, ArgText(a), MemberToks(MemberOf(a)));
    }
  }

  lemma RegroupText(target: string, n: nat, key: string, value: string)
    ensures target + (if n > 0 then "," + key else key) + value == target + (if n > 0 then "," + (key + value) else key + value)
  {
  }

  lemma RegroupToks(a: seq<Tok>, b: seq<Tok>, c: seq<Tok>)
    ensures (a + b) + c == a + (b + c)
  {
  }

  lemma Comma(target: string, ts: seq<Tok>)
    requires ReadsAs(target, ts)
    ensures ReadsAs(target + ",", ts + [Out(',')])
  {
    assert Scan(",", false) == [Out(',')];
    assert Ends(false, [Out(',')]) == false;
    ReadsAsConcat(target, ts, ",", [Out(',')]);
  }

  lemma LaterTexts(args: seq<Arg>)
    requires args != []
    ensures ArgTexts(args)[1..] == ArgTexts(args[1..])
  {
  }

  lemma {:induction false} GrownByReads(target: string, ts: seq<Tok>, n: nat, args: seq<Arg>)
    requires ReadsAs(target, ts) && Complete(args)
    ensures ReadsAs(GrownBy(target, n, ArgTexts(args)), ts + Added(n, Members(args)))
    decreases |args|
  {
    if args == [] {
      assert ts + Added(n, []) == ts;
    } else {
      var first, rest := Added(n, [MemberOf(args[0])]), Added(n + 1, Members(args[1..]));
      GrownReads(target, ts, n, args[0]);
      LaterTexts(args);
      GrownByReads(Grown(target, n, ArgText(args[0])), ts + first, n + 1, args[1..]);
      AddedConcat(n, args);
      RegroupToks(ts, first, rest);
    }
  }

  lemma LaterMembers(args: seq<Arg>)
    requires args != []
    ensures Members(args)[0] == MemberOf(args[0]) && Members(args)[1..] == Members(args[1..])
  {
    forall i | 0 <= i < |args| - 1
      ensures Members(args)[1..][i] == Members(args[1..])[i]
    {
      LaterMember(args, i);
    }
  }

  lemma LaterMember(args: seq<Arg>, i: nat)
    requires i + 1 < |args|
    ensures Members(args)[i + 1] == Members(args[1..])[i]
  {
    assert args[1..][i] == args[i + 1];
  }

  lemma AddedConcat(n: nat, args: seq<Arg>)
    requires args != []
    ensures Added(n, [MemberOf(args[0])]) + Added(n + 1, Members(args[1..])) == Added(n, Members(args))
  {
    LaterMembers(args);
    AddedMembers(n, Members(args));
  }

  lemma AddedMembers(n: nat, ms: seq<Member>)
    requires ms != []
    ensures Added(n, [ms[0]]) + Added(n + 1, ms[1..]) == Added(n, ms)
  {
    var m, rest := MemberToks(ms[0]), Added(n + 1, ms[1..]);
    assert MembersToks([ms[0]]) == m;
    assert MembersToks(ms) == m + rest by {
      RegroupToks(m, [Out(',')], MembersToks(ms[1..]));
    }
    RegroupToks([Out(',')], m, rest);
  }

  lemma {:induction false} GrownByConcat(target: string, n: nat, a: seq<string>, b: seq<string>)
    ensures GrownBy(target, n, a + b) == GrownBy(GrownBy(target, n, a), n + |a|, b)
    decreases |a|
  {
    if a == [] {
      assert a + b == b;
    } else {
      assert (a + b)[1..] == a[1..] + b;
      GrownByConcat(Grown(target, n, a[0]), n + 1, a[1..], b);
    }
  }

  /** The guard under which the text of the call is whole: a name, or arguments on one side
      of it only. */
  predicate OneObject(name: string, before: seq<Arg>, after: seq<Arg>) {
    TrimTrailing(name, ALL) != "" || before == [] || after == []
  }

  lemma OpenTextReads(name: string, before: seq<Arg>, after: seq<Arg>)
    requires Complete(before + after)
    ensures ReadsAs(OpenText(name, before, after), [Out('{')] +
              if OneObject(name, before, after) then MembersToks(Members(before + after))
              else Added(|before|, Members(after)))
  {
    assert ReadsAs("{", [Out('{')]) by {
      assert Scan("{", false) == [Out('{')];
    }
    if OneObject(name, before, after) {
      OneObjectText(name, before, after);
      GrownByReads("{", [Out('{')], 0, before + after);
    } else {
      CompleteAfter(before, after);
      FirstTarget(|before|, ArgTexts(after));
      GrownByReads("{", [Out('{')], |before|, after);
    }
  }

  lemma CompleteAfter(before: seq<Arg>, after: seq<Arg>)
    requires Complete(before + after)
    ensures Complete(after)
  {
    assert forall i :: 0 <= i < |after| ==> after[i] == (before + after)[|before| + i];
  }

  lemma FirstTarget(n: nat, texts: seq<string>)
    requires texts != []
    ensures GrownBy("", n, texts) == GrownBy("{", n, texts)
  {
    assert Grown("", n, texts[0]) == Grown("{", n, texts[0]);
  }

  lemma BufferedText(before: seq<Arg>)
    ensures (if before == [] then "{" else GrownBy("", 0, ArgTexts(before))) == GrownBy("{", 0, ArgTexts(before))
  {
    if before != [] {
      FirstTarget(0, ArgTexts(before));
    }
  }

  lemma ArgTextsConcat(a: seq<Arg>, b: seq<Arg>)
    ensures ArgTexts(a + b) == ArgTexts(a) + ArgTexts(b)
  {
    forall i | 0 <= i < |a| + |b|
      ensures ArgTexts(a + b)[i] == (ArgTexts(a) + ArgTexts(b))[i]
    {
      assert (a + b)[i] == if i < |a| then a[i] else b[i - |a|];
    }
  }

  lemma NamedText(before: seq<Arg>, after: seq<Arg>)
    ensures GrownBy(GrownBy("{", 0, ArgTexts(before)), |before|, ArgTexts(after)) == GrownBy("{", 0, ArgTexts(before + after))
  {
    ArgTextsConcat(before, after);
    GrownByConcat("{", 0, ArgTexts(before), ArgTexts(after));
  }

  lemma OneSided(before: seq<Arg>, after: seq<Arg>)
    ensures after == [] ==> before + after == before
    ensures before == [] ==> before + after == after
  {
  }

  lemma OneObjectText(name: string, before: seq<Arg>, after: seq<Arg>)
    requires OneObject(name, before, after)
    ensures OpenText(name, before, after) == GrownBy("{", 0, ArgTexts(before + after))
  {
    BufferedText(before);
    BufferedText(after);
    NamedText(before, after);
    OneSided(before, after);
  }

  lemma ClosesOnce(text: string, body: seq<Tok>)
    requires ReadsAs(text, [Out('{')] + body) && TokDepth(body) == 0
    ensures BraceDepth(text, false, false) == 1
    ensures ReadsAs(text + "}", [Out('{')] + body + [Out('}')]) && BraceDepth(text + "}", false, false) == 0
  {
    var ts := [Out('{')] + body;
    assert ts[1..] == body;
    BraceDepthCountsTokens(text, false);
    assert Scan("}", false) == [Out('}')];
    ReadsAsConcat(text, ts, "}", [Out('}')]);
    TokDepthConcat(ts, [Out('}')]);
    BraceDepthCountsTokens(text + "}", false);
  }

  /** The arguments text of a call that keeps its object whole. */
  lemma WholeText(name: string, before: seq<Arg>, after: seq<Arg>)
    requires Complete(before + after) && OneObject(name, before, after)
    ensures var args := OpenText(name, before, after) + "}";
            && BraceDepth(OpenText(name, before, after), false, false) == 1
            && Bad !in Scan(args, false) && !Ends(false, Scan(args, false)) && BraceDepth(args, false, false) == 0
            && ParseObject(Scan(args, false)) == Object(Members(before + after))
  {
    OpenTextReads(name, before, after);
    CompleteMembers(before + after);
    MembersDepth(Members(before + after));
    ClosesOnce(OpenText(name, before, after), MembersToks(Members(before + after)));
    ObjectParses(Members(before + after));
  }

  lemma LateDepth(before: seq<Arg>, after: seq<Arg>)
    requires Complete(before + after) && after != []
    ensures TokDepth([Out(',')] + MembersToks(Members(after))) == 0
  {
    CompleteAfter(before, after);
    CompleteMembers(after);
    MembersDepth(Members(after));
    assert ([Out(',')] + MembersToks(Members(after)))[1..] == MembersToks(Members(after));
  }

  lemma StartsWithComma(late: seq<Tok>)
    ensures ParseObject([Out('{')] + ([Out(',')] + late) + [Out('}')]) == NoObject
  {
    var ts := [Out('{')] + ([Out(',')] + late) + [Out('}')];
    assert ts[1] == Out(',');
  }

  /** The text of a nameless call with arguments on both sides: the first part is lost. */
  lemma BrokenText(name: string, before: seq<Arg>, after: seq<Arg>)
    requires Complete(before + after) && !OneObject(name, before, after)
    ensures var args := OpenText(name, before, after) + "}";
            && BraceDepth(OpenText(name, before, after), false, false) == 1
            && Bad !in Scan(args, false) && !Ends(false, Scan(args, false)) && BraceDepth(args, false, false) == 0
            && ParseObject(Scan(args, false)) == NoObject
  {
    OpenTextReads(name, before, after);
    LateDepth(before, after);
    var late := MembersToks(Members(after));
    assert Added(|before|, Members(after)) == [Out(',')] + late;
    ClosesOnce(OpenText(name, before, after), [Out(',')] + late);
    StartsWithComma(late);
  }

  /** Main theorem.  A complete call adds one tool call whose arguments are valid JSON text
      with every string and brace closed.  They read back as the given keys and values, in
      order, whatever quotes, backslashes or braces those contain, exactly when the call has
      a name or has arguments on one side of its name only. */
  lemma CallRoundTrip(s: State, name: string, before: seq<Arg>, after: seq<Arg>)
    requires Complete(before + after)
    ensures Defined(s, CallNodes(name, before, after))
    ensures var calls := ApplyAll(s, CallNodes(name, before, after)).calls;
            && |calls| == |s.calls| + 1 && calls[..|s.calls|] == s.calls
            && var call := calls[|s.calls|];
            && call.name == TrimTrailing(name, ALL)
            && Bad !in Scan(call.arguments, false) && !Ends(false, Scan(call.arguments, false))
            && BraceDepth(call.arguments, false, false) == 0
            && (ParseObject(Scan(call.arguments, false)) == Object(Members(before + after))
                <==> OneObject(name, before, after))
  {
    CallRun(s, name, before, after);
    if OneObject(name, before, after) {
      WholeText(name, before, after);
    } else {
      BrokenText(name, before, after);
    }
    assert Braces(1) == "}" by {
      assert Braces(0) + "}" == "}";
    }
  }
}
