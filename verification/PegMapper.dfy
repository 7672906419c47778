/**
  `common_chat_peg_mapper`: builds tool calls from the tagged nodes of a parse, one node at a
  time.  `Apply` is what one node does to the state; the method `Map` does it in place.
  The main results are about whole runs of nodes.
 */
module PegMapper {
  import opened Options
  import opened Text
  import opened JsonText
  import opened PyQuotes

  datatype Tag =
    | Reasoning | Content
    | ToolOpen | ToolClose | ToolId | ToolName | ToolArgs
    | ArgOpen | ArgClose | ArgName | ArgValue | ArgStringValue
    | OtherTag

  datatype Node = Node(tag: Tag, text: string)

  datatype ToolCall = ToolCall(name: string, arguments: string, id: string)

  /** Where `current_tool` points: nowhere, at the pending call, or at the last call of the result. */
  datatype Current = Nowhere | AtPending | AtLast

  datatype State = State(
    reasoning: string, content: string, calls: seq<ToolCall>,
    pending: Option<ToolCall>, current: Current,
    argCount: nat, argsBuffer: string, closingQuotePending: bool)

  // -------------------------------------------------------------------------- trimming

  function TrimTrailing(s: string, most: int): string
    decreases |s|
  {
    if s != "" && IsSpace(s[|s| - 1]) && most != 0 then TrimTrailing(s[..|s| - 1], most - 1) else s
  }

  function TrimLeading(s: string, most: int): string
    decreases |s|
  {
    if s != "" && IsSpace(s[0]) && most != 0 then TrimLeading(s[1..], most - 1) else s
  }

  /** No limit: trims all the white space there is. */
  const ALL := -1

  function TrimOneNewline(s: string): string {
    var t := if "\r\n" <= s then s[2..] else if "\n" <= s then s[1..] else s;
    if 2 <= |t| && t[|t| - 2..] == "\r\n" then t[..|t| - 2]
    else if t != "" && t[|t| - 1] == '\n' then t[..|t| - 1]
    else t
  }

  function TrimName(s: string): string {
    TrimTrailing(TrimLeading(s, 1), ALL)
  }

  function TrimValue(s: string): string {
    TrimTrailing(TrimLeading(s, 1), 1)
  }

  // --------------------------------------------------------------- what one node does

  /** `current_tool` points at a call that exists. */
  predicate Pointed(s: State) {
    (s.current.AtPending? && s.pending.Some?) || (s.current.AtLast? && s.calls != [])
  }

  /** After a call is discarded `current_tool` still points at its place.  Only a new
      `tool-open` may follow, or nodes that are not about tools. */
  predicate Dangling(s: State) {
    !s.current.Nowhere? && !Pointed(s)
  }

  predicate UsesTool(t: Tag) {
    t.ToolClose? || t.ToolId? || t.ToolName? || t.ToolArgs? || t.ArgClose? || t.ArgName? || t.ArgValue? || t.ArgStringValue?
  }

  function Tool(s: State): ToolCall
    requires Pointed(s)
  {
    if s.current.AtPending? then s.pending.value else s.calls[|s.calls| - 1]
  }

  function WithTool(s: State, t: ToolCall): State
    requires Pointed(s)
  {
    if s.current.AtPending? then s.(pending := Some(t)) else s.(calls := s.calls[|s.calls| - 1 := t])
  }

  /** `args_target`: the arguments of a named call, the buffer before a name is known. */
  function Target(s: State): string
    requires Pointed(s)
  {
    if Tool(s).name != "" then Tool(s).arguments else s.argsBuffer
  }

  function WithTarget(s: State, text: string): State
    requires Pointed(s)
  {
    if Tool(s).name != "" then WithTool(s, Tool(s).(arguments := text)) else s.(argsBuffer := text)
  }

  function Unquoted(s: string): string {
    if 2 <= |s| && s[0] == '"' && s[|s| - 1] == '"' then s[1..|s| - 1] else s
  }

  function NameTool(s: State, text: string): State
    requires Pointed(s)
  {
    var t := Tool(s).(name := TrimTrailing(text, ALL));
    var t' := if s.argsBuffer != "" then t.(arguments := s.argsBuffer)
              else if t.arguments == "" then t.(arguments := "{")
              else t;
    var s' := WithTool(s.(argsBuffer := ""), t');
    if s'.pending.Some? then s'.(calls := s'.calls + [s'.pending.value], pending := None, current := AtLast) else s'
  }

  function Args(s: State, text: string): State
    requires Pointed(s)
  {
    var t := TrimTrailing(text, ALL);
    if t != "" && t[0] == '{' then WithTarget(s, t) else s
  }

  /** What an argument name adds: the key, after a comma unless it is the first. */
  function Entry(argCount: nat, name: string): string {
    if argCount > 0 then "," + (Dump(name) + ":") else Dump(name) + ":"
  }

  function NameEntry(s: State, text: string): State
    requires Pointed(s)
  {
    var start := if Target(s) == "" then "{" else Target(s);
    WithTarget(s, start + Entry(s.argCount, TrimName(text))).(argCount := s.argCount + 1)
  }

  function StringValue(s: State, text: string): State
    requires Pointed(s)
  {
    var v := TrimOneNewline(text);
    if v == "" then WithTarget(s, Target(s) + "\"").(closingQuotePending := true)
    else WithTarget(s, Target(s) + ((if s.closingQuotePending then "" else "\"") + Escape(v))).(closingQuotePending := true)
  }

  function ContainerValue(s: State, text: string): State
    requires Pointed(s)
  {
    WithTarget(s, Target(s) + Normalized(TrimValue(text)))
  }

  function Braces(n: int): (b: string)
    ensures |b| == if n > 0 then n else 0
  {
    if n > 0 then Braces(n - 1) + "}" else ""
  }

  /** The arguments of the current call when it closes. */
  function ClosedArguments(s: State): string
    requires Pointed(s)
  {
    var t := Tool(s);
    var text := if t.name == "" && s.argsBuffer != "" then s.argsBuffer else t.arguments;
    var args := if s.closingQuotePending then text + "\"" else text;
    args + Braces(BraceDepth(args, false, false))
  }

  function CloseTool(s: State): State
    requires Pointed(s)
  {
    var t := Tool(s);
    var buffer := if t.name == "" then "" else s.argsBuffer;
    var s' := WithTool(s, t.(arguments := ClosedArguments(s))).(argsBuffer := buffer, closingQuotePending := false);
    if s'.pending.Some? then
      s'.(calls := if t.name != "" then s'.calls + [s'.pending.value] else s'.calls, pending := None)
    else s'
  }

  function ApplyToTool(s: State, n: Node): State
    requires Pointed(s) && UsesTool(n.tag)
  {
    if n.tag.ToolId? then WithTool(s, Tool(s).(id := Unquoted(TrimTrailing(n.text, ALL))))
    else if n.tag.ToolName? then NameTool(s, n.text)
    else if n.tag.ToolArgs? then Args(s, n.text)
    else if n.tag.ArgName? then NameEntry(s, n.text)
    else if n.tag.ArgValue? then ContainerValue(s, n.text)
    else if n.tag.ArgStringValue? then StringValue(s, n.text)
    else if n.tag.ToolClose? then CloseTool(s)
    else if s.closingQuotePending then WithTarget(s, Target(s) + "\"").(closingQuotePending := false)
    else s
  }

  function Apply(s: State, n: Node): State
    requires !(Dangling(s) && UsesTool(n.tag))
  {
    match n.tag
    case Reasoning => s.(reasoning := s.reasoning + n.text)
    case Content => s.(content := s.content + n.text)
    case ToolOpen => s.(pending := Some(ToolCall("", "", "")), current := AtPending,
                        argCount := 0, argsBuffer := "", closingQuotePending := false)
    case ArgOpen => s.(closingQuotePending := false)
    case OtherTag => s
    case _ => if s.current.Nowhere? then s else ApplyToTool(s, n)
  }

  /** No node of the run uses a call that was discarded before. */
  predicate Defined(s: State, nodes: seq<Node>)
    decreases |nodes|
  {
    nodes == [] || (!(Dangling(s) && UsesTool(nodes[0].tag)) && Defined(Apply(s, nodes[0]), nodes[1..]))
  }

  function ApplyAll(s: State, nodes: seq<Node>): State
    requires Defined(s, nodes)
    decreases |nodes|
  {
    if nodes == [] then s else ApplyAll(Apply(s, nodes[0]), nodes[1..])
  }

  // ------------------------------------------------------------- the end of the parse

  /** `from_ast` pushes a pending call that has a name. */
  function Flushed(s: State): State {
    if s.pending.Some? && s.pending.value.name != "" then
      var p := s.pending.value;
      var args := if s.argsBuffer != "" then s.argsBuffer else p.arguments;
      var args' := if s.closingQuotePending && args != "" then args + "\"" else args;
      s.(calls := s.calls + [p.(arguments := args')], pending := None)
    else s
  }

  predicate IsBlank(c: char) {
    c == ' ' || c == '\n' || c == '\r' || c == '\t'
  }

  /** Reasoning that is all white space is discarded. */
  function Finished(s: State): State {
    var f := Flushed(s);
    if forall i :: 0 <= i < |f.reasoning| ==> IsBlank(f.reasoning[i]) then f.(reasoning := "") else f
  }

  /** A pending call has no name yet: it moves to the result with its name. */
  predicate PendingNameless(s: State) {
    s.pending.Some? ==> s.pending.value.name == ""
  }

  /** In every run a call waits only until it is named, so the final flush never adds one. */
  lemma {:induction false} FlushAddsNothing(s: State, nodes: seq<Node>)
    requires PendingNameless(s) && Defined(s, nodes)
    ensures PendingNameless(ApplyAll(s, nodes))
    ensures Finished(ApplyAll(s, nodes)).calls == ApplyAll(s, nodes).calls
    decreases |nodes|
  {
    if nodes != [] {
      NamedCallsMove(s, nodes[0]);
      FlushAddsNothing(Apply(s, nodes[0]), nodes[1..]);
    }
  }

  lemma NamedCallsMove(s: State, n: Node)
    requires PendingNameless(s) && !(Dangling(s) && UsesTool(n.tag))
    ensures PendingNameless(Apply(s, n))
  {
    if UsesTool(n.tag) && !s.current.Nowhere? {
      ToolStaysNameless(s, n);
    }
  }

  lemma ToolStaysNameless(s: State, n: Node)
    requires PendingNameless(s) && Pointed(s) && UsesTool(n.tag)
    ensures PendingNameless(ApplyToTool(s, n))
  {
    match n.tag
    case ToolName => NamedCallMoves(s, n.text);
    case ToolArgs => TargetStaysNameless(s, TrimTrailing(n.text, ALL));
    case ArgName =>
      TargetStaysNameless(s, (if Target(s) == "" then "{" else Target(s)) + Entry(s.argCount, TrimName(n.text)));
    case ArgValue => TargetStaysNameless(s, Target(s) + Normalized(TrimValue(n.text)));
    case ArgStringValue =>
      var v := TrimOneNewline(n.text);
      TargetStaysNameless(s, Target(s) + "\"");
      TargetStaysNameless(s, Target(s) + ((if s.closingQuotePending then "" else "\"") + Escape(v)));
    case ArgClose => TargetStaysNameless(s, Target(s) + "\"");
    case _ =>
  }

  lemma NamedCallMoves(s: State, text: string)
    requires PendingNameless(s) && Pointed(s)
    ensures PendingNameless(NameTool(s, text))
  {
  }

  lemma TargetStaysNameless(s: State, text: string)
    requires PendingNameless(s) && Pointed(s)
    ensures PendingNameless(WithTarget(s, text))
  {
  }

  // ------------------------------------------------------------------------- the mapper

  /** Closes every brace that the brace counter finds open. */
  method CloseBraces(args: string) returns (closed: string)
    ensures closed == args + Braces(BraceDepth(args, false, false))
  {
    var depth := JsonBraceDepth(args);
    closed := args;
    var d := depth;
    while d > 0
      invariant d == depth || 0 <= d <= depth
      invariant closed == args + Braces(depth - d)
    {
      closed := closed + "}";
      d := d - 1;
    }
  }

  lemma {:induction false} BracesScan(n: int)
    ensures Scan(Braces(n), false) == Outs(Braces(n)) && TokDepth(Outs(Braces(n))) == -|Braces(n)|
    ensures Bad !in Outs(Braces(n)) && !Ends(false, Outs(Braces(n)))
  {
    if n > 0 {
      BracesScan(n - 1);
      var b := Braces(n - 1);
      assert Scan("}", false) == [Out('}')];
      ScanConcat(b, "}", false);
      assert Outs(b + "}") == Outs(b) + [Out('}')];
      TokDepthConcat(Outs(b), [Out('}')]);
      EndsConcat(false, Outs(b), [Out('}')]);
    }
  }

  /** Closing arguments that end outside every string leaves no brace open, changes nothing
      inside them and adds nothing when they are closed already. */
  lemma ClosingBalances(args: string)
    requires Bad !in Scan(args, false) && !Ends(false, Scan(args, false))
    ensures var depth := BraceDepth(args, false, false);
            var closed := args + Braces(depth);
            && Bad !in Scan(closed, false) && !Ends(false, Scan(closed, false))
            && BraceDepth(closed, false, false) == (if depth > 0 then 0 else depth)
            && Scan(args, false) <= Scan(closed, false)
            && closed + Braces(BraceDepth(closed, false, false)) == closed
  {
    var depth := BraceDepth(args, false, false);
    var ts, bs := Scan(args, false), Outs(Braces(depth));
    BracesScan(depth);
    ScanConcat(args, Braces(depth), false);
    EndsConcat(false, ts, bs);
    TokDepthConcat(ts, bs);
    BraceDepthCountsTokens(args, false);
    BraceDepthCountsTokens(args + Braces(depth), false);
  }

  class Mapper {
    var reasoning: string
    var content: string
    var calls: seq<ToolCall>
    var pending: Option<ToolCall>
    var current: Current
    var argCount: nat
    var argsBuffer: string
    var closingQuotePending: bool

    ghost function Abs(): State
      reads this
    {
      State(reasoning, content, calls, pending, current, argCount, argsBuffer, closingQuotePending)
    }

    constructor ()
      ensures Abs() == State("", "", [], None, Nowhere, 0, "", false)
    {
      reasoning, content, calls, pending, current := "", "", [], None, Nowhere;
      argCount, argsBuffer, closingQuotePending := 0, "", false;
    }

    method CurrentTool() returns (t: ToolCall)
      requires Pointed(Abs())
      ensures t == Tool(Abs())
    {
      t := if current.AtPending? then pending.value else calls[|calls| - 1];
    }

    method SetCurrent(t: ToolCall)
      requires Pointed(Abs())
      modifies this
      ensures Abs() == WithTool(old(Abs()), t)
    {
      if current.AtPending? {
        pending := Some(t);
      } else {
        calls := calls[|calls| - 1 := t];
      }
    }

    /** Appends to `args_target()`. */
    method Append(text: string)
      requires Pointed(Abs())
      modifies this
      ensures Abs() == WithTarget(old(Abs()), Target(old(Abs())) + text)
    {
      var t := CurrentTool();
      if t.name != "" {
        SetCurrent(t.(arguments := t.arguments + text));
      } else {
        argsBuffer := argsBuffer + text;
      }
    }

    method MapName(text: string)
      requires Pointed(Abs())
      modifies this
      ensures Abs() == NameTool(old(Abs()), text)
    {
      var t := CurrentTool();
      t := t.(name := TrimTrailing(text, ALL));
      if argsBuffer != "" {
        t := t.(arguments := argsBuffer);
        argsBuffer := "";
      } else if t.arguments == "" {
        t := t.(arguments := "{");
      }
      SetCurrent(t);
      if pending.Some? {
        calls := calls + [pending.value];
        pending := None;
        current := AtLast;
      }
    }

    method MapArgName(text: string)
      requires Pointed(Abs())
      modifies this
      ensures Abs() == NameEntry(old(Abs()), text)
    {
      var entry := Dump(TrimName(text)) + ":";
      if argCount > 0 {
        entry := "," + entry;
      }
      argCount := argCount + 1;
      var t := CurrentTool();
      if (if t.name != "" then t.arguments else argsBuffer) == "" {
        Append("{");
        assert "" + "{" == "{";
      }
      Append(entry);
    }

    method MapValue(text: string, isString: bool)
      requires Pointed(Abs())
      modifies this
      ensures Abs() == if isString then StringValue(old(Abs()), text) else ContainerValue(old(Abs()), text)
    {
      var content := if isString then TrimOneNewline(text) else TrimValue(text);
      var add := "";
      if content == "" && isString {
        add := "\"";
        closingQuotePending := true;
      } else if content != "" && isString {
        if !closingQuotePending {
          add := "\"";
          closingQuotePending := true;
        }
        add := add + Escape(content);
      } else if content != "" {
        add := NormalizeQuotesToJson(content);
      }
      Append(add);
    }

    method MapClose()
      requires Pointed(Abs())
      modifies this
      ensures Abs() == CloseTool(old(Abs()))
    {
      var t := CurrentTool();
      if t.name == "" && argsBuffer != "" {
        t := t.(arguments := argsBuffer);
        argsBuffer := "";
      }
      if closingQuotePending {
        t := t.(arguments := t.arguments + "\"");
        closingQuotePending := false;
      }
      var closed := CloseBraces(t.arguments);
      t := t.(arguments := closed);
      SetCurrent(t);
      if pending.Some? {
        if t.name != "" {
          calls := calls + [pending.value];
        }
        pending := None;
      }
    }

    /** `map`: one node. */
    method Map(node: Node)
      requires !(Dangling(Abs()) && UsesTool(node.tag))
      modifies this
      ensures Abs() == Apply(old(Abs()), node)
    {
      if node.tag.Reasoning? {
        reasoning := reasoning + node.text;
      }
      if node.tag.Content? {
        content := content + node.text;
      }
      if node.tag.ToolOpen? {
        pending := Some(ToolCall("", "", ""));
        current := AtPending;
        argCount := 0;
        argsBuffer := "";
        closingQuotePending := false;
      }
      if node.tag.ArgOpen? {
        closingQuotePending := false;
      }
      if !UsesTool(node.tag) || current.Nowhere? {
        return;
      }
      var t := CurrentTool();
      if node.tag.ToolId? {
        SetCurrent(t.(id := Unquoted(TrimTrailing(node.text, ALL))));
      } else if node.tag.ToolName? {
        MapName(node.text);
      } else if node.tag.ToolArgs? {
        var text := TrimTrailing(node.text, ALL);
        if text != "" && text[0] == '{' {
          if t.name != "" {
            SetCurrent(t.(arguments := text));
          } else {
            argsBuffer := text;
          }
        }
      } else if node.tag.ArgName? {
        MapArgName(node.text);
      } else if node.tag.ArgValue? || node.tag.ArgStringValue? {
        MapValue(node.text, node.tag.ArgStringValue?);
      } else if node.tag.ArgClose? {
        if closingQuotePending {
          Append("\"");
          closingQuotePending := false;
        }
      } else {
        MapClose();
      }
    }

    /** `from_ast`: the nodes in the order of the visit, then the flush. */
    method FromAst(nodes: seq<Node>)
      requires Defined(Abs(), nodes)
      modifies this
      ensures Abs() == Finished(ApplyAll(old(Abs()), nodes))
    {
      for i := 0 to |nodes|
        invariant Defined(Abs(), nodes[i..])
        invariant ApplyAll(Abs(), nodes[i..]) == ApplyAll(old(Abs()), nodes)
      {
        assert nodes[i..][1..] == nodes[i + 1..];
        Map(nodes[i]);
      }
      if pending.Some? && pending.value.name != "" {
        if argsBuffer != "" {
          pending := Some(pending.value.(arguments := argsBuffer));
        }
        if closingQuotePending && pending.value.arguments != "" {
          pending := Some(pending.value.(arguments := pending.value.arguments + "\""));
        }
        calls := calls + [pending.value];
        pending := None;
      }
      if reasoning != "" {
        var allWhitespace := true;
        for i := 0 to |reasoning|
          invariant allWhitespace == forall k :: 0 <= k < i ==> IsBlank(reasoning[k])
        {
          if !IsBlank(reasoning[i]) {
            allWhitespace := false;
            break;
          }
        }
        if allWhitespace {
          reasoning := "";
        }
      }
    }
  }
}
