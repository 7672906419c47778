/**
  JSON text at the level of its strings: a scanner that reads strings as section 7 of
  RFC 8259 defines them, the brace counter of the chat code, and the escaping used when a
  string is dumped.
 */
module JsonText {
  import opened Text

  /** What a scan of JSON text meets, one after the other. */
  datatype Tok =
    | Out(c: char)     // a character outside every string
    | Open             // the quote that opens a string
    | Ch(code: nat)    // one decoded character of a string
    | Close            // the quote that closes a string
    | Bad              // not a JSON string: raw control character or unknown escape

  predicate IsShortEscape(c: char) {
    c == '"' || c == '\\' || c == '/' || c == 'b' || c == 'f' || c == 'n' || c == 'r' || c == 't'
  }

  /** The character a two-character escape stands for. */
  function ShortEscape(c: char): char
    requires IsShortEscape(c)
  {
    match c
    case 'b' => '\U{8}'
    case 'f' => '\U{c}'
    case 'n' => '\n'
    case 'r' => '\r'
    case 't' => '\t'
    case _ => c
  }

  /** The first token of `y` and how many characters it takes. */
  function First(y: string, inString: bool): (r: (Tok, nat))
    requires y != ""
    ensures 0 < r.1 <= |y|
  {
    var c := y[0];
    if !inString then (if c == '"' then Open else Out(c), 1)
    else if c == '"' then (Close, 1)
    else if c == '\\' then
      if 2 <= |y| && IsShortEscape(y[1]) then (Ch(ShortEscape(y[1]) as int), 2)
      else if 6 <= |y| && y[1] == 'u' && AllHex(y[2..6]) then (Ch(Hex4(y[2..6])), 6)
      else (Bad, |y|)
    else if IsControl(c) then (Bad, |y|)
    else (Ch(c as int), 1)
  }

  predicate InStringAfter(inString: bool, t: Tok) {
    t.Open? || (inString && !t.Close?)
  }

  function Scan(y: string, inString: bool): seq<Tok>
    decreases |y|
  {
    if y == "" then []
    else
      var (t, n) := First(y, inString);
      [t] + Scan(y[n..], InStringAfter(inString, t))
  }

  /** Whether a scan that met `ts` ends inside a string. */
  predicate Ends(inString: bool, ts: seq<Tok>)
    decreases |ts|
  {
    if ts == [] then inString else Ends(InStringAfter(inString, ts[0]), ts[1..])
  }

  function Outs(s: string): (ts: seq<Tok>)
    ensures |ts| == |s| && forall i :: 0 <= i < |s| ==> ts[i] == Out(s[i])
  {
    seq(|s|, i requires 0 <= i < |s| => Out(s[i]))
  }

  function Chars(s: string): (ts: seq<Tok>)
    ensures |ts| == |s| && forall i :: 0 <= i < |s| ==> ts[i] == Ch(s[i] as int)
  {
    seq(|s|, i requires 0 <= i < |s| => Ch(s[i] as int))
  }

  /** The tokens of one complete string whose value is `s`. */
  function StringToks(s: string): seq<Tok> {
    [Open] + Chars(s) + [Close]
  }

  // ---------------------------------------------------------------- the brace counter

  /** What `json_brace_depth` adds up from its current position on. */
  function BraceDepth(s: string, inString: bool, escaped: bool): int
    decreases |s|
  {
    if s == "" then 0
    else if escaped then BraceDepth(s[1..], inString, false)
    else if s[0] == '\\' && inString then BraceDepth(s[1..], inString, true)
    else if s[0] == '"' then BraceDepth(s[1..], !inString, false)
    else (if !inString && s[0] == '{' then 1 else if !inString && s[0] == '}' then -1 else 0)
         + BraceDepth(s[1..], inString, false)
  }

  method JsonBraceDepth(s: string) returns (depth: int)
    ensures depth == BraceDepth(s, false, false)
  {
    depth := 0;
    var inString, escaped := false, false;
    for i := 0 to |s|
      invariant depth + BraceDepth(s[i..], inString, escaped) == BraceDepth(s, false, false)
    {
      var c := s[i];
      assert s[i..][1..] == s[i + 1..];
      if escaped {
        escaped := false;
        continue;
      }
      if c == '\\' && inString {
        escaped := true;
        continue;
      }
      if c == '"' {
        inString := !inString;
        continue;
      }
      if !inString {
        if c == '{' {
          depth := depth + 1;
        } else if c == '}' {
          depth := depth - 1;
        }
      }
    }
  }

  /** Open minus closed braces among the tokens outside strings. */
  function TokDepth(ts: seq<Tok>): int {
    if ts == [] then 0
    else (if ts[0] == Out('{') then 1 else if ts[0] == Out('}') then -1 else 0) + TokDepth(ts[1..])
  }

  lemma {:induction false} TokDepthConcat(a: seq<Tok>, b: seq<Tok>)
    ensures TokDepth(a + b) == TokDepth(a) + TokDepth(b)
  {
    if a == [] {
      assert a + b == b;
    } else {
      assert (a + b)[1..] == a[1..] + b;
      TokDepthConcat(a[1..], b);
    }
  }

  lemma {:induction false} EndsConcat(q: bool, a: seq<Tok>, b: seq<Tok>)
    ensures Ends(q, a + b) == Ends(Ends(q, a), b)
    decreases |a|
  {
    if a == [] {
      assert a + b == b;
    } else {
      assert (a + b)[1..] == a[1..] + b;
      EndsConcat(InStringAfter(q, a[0]), a[1..], b);
    }
  }

  lemma {:induction false} HexRunHasNoBraces(y: string, n: nat)
    requires n <= |y| && AllHex(y[..n])
    ensures BraceDepth(y, true, false) == BraceDepth(y[n..], true, false)
  {
    if n == 0 {
      assert y[0..] == y;
    } else {
      assert IsHex(y[..n][0]);
      assert y[1..][..n - 1] == y[..n][1..] && y[1..][n - 1..] == y[n..];
      HexRunHasNoBraces(y[1..], n - 1);
    }
  }

  /** On text whose strings are JSON strings, the brace counter counts exactly the braces
      that the scanner finds outside strings. */
  lemma {:induction false} BraceDepthCountsTokens(y: string, inString: bool)
    requires Bad !in Scan(y, inString)
    ensures BraceDepth(y, inString, false) == TokDepth(Scan(y, inString))
    decreases |y|
  {
    if y != "" {
      var (t, n) := First(y, inString);
      var rest := Scan(y[n..], InStringAfter(inString, t));
      assert Scan(y, inString) == [t] + rest;
      assert ([t] + rest)[1..] == rest && t != Bad;
      BraceDepthCountsTokens(y[n..], InStringAfter(inString, t));
      if n == 2 {
        assert y[1..][1..] == y[2..];
      } else if n == 6 {
        assert y[1..][1..] == y[2..] && y[2..][..4] == y[2..6] && y[2..][4..] == y[6..];
        HexRunHasNoBraces(y[2..], 4);
      }
    }
  }

  // ------------------------------------------------------------------ dumping a string

  /** `\u00` and two lower-case hexadecimal digits. */
  function U00(c: char): (s: string)
    requires IsControl(c)
    ensures |s| == 6 && s[0] == '\\' && s[1] == 'u' && AllHex(s[2..6])
    ensures Hex4(s[2..6]) == c as int
  {
    var v := c as int;
    var s := "\\u00" + [HexDigit(v / 16), HexDigit(v % 16)];
    assert s[2..6] == ['0', '0', HexDigit(v / 16), HexDigit(v % 16)];
    s
  }

  /** How the JSON library writes one character of a string. */
  function DumpChar(c: char): string {
    match c
    case '"' => "\\\""
    case '\\' => "\\\\"
    case '\U{8}' => "\\b"
    case '\U{c}' => "\\f"
    case '\n' => "\\n"
    case '\r' => "\\r"
    case '\t' => "\\t"
    case _ => if IsControl(c) then U00(c) else [c]
  }

  /** `escape_json_string_inner`: a dumped string without its quotes. */
  function Escape(s: string): string {
    if s == "" then "" else DumpChar(s[0]) + Escape(s[1..])
  }

  function Dump(s: string): string {
    "\"" + Escape(s) + "\""
  }

  lemma ShortEscapeScans(c: char, rest: string)
    requires IsShortEscape(c)
    ensures Scan(['\\', c] + rest, true) == [Ch(ShortEscape(c) as int)] + Scan(rest, true)
  {
    assert (['\\', c] + rest)[2..] == rest;
  }

  lemma UnicodeEscapeScans(u: string, rest: string)
    requires |u| == 6 && u[0] == '\\' && u[1] == 'u' && AllHex(u[2..6])
    ensures Scan(u + rest, true) == [Ch(Hex4(u[2..6]))] + Scan(rest, true)
  {
    assert (u + rest)[6..] == rest && (u + rest)[2..6] == u[2..6];
  }

  lemma CharScans(c: char, rest: string)
    requires c != '"' && c != '\\' && !IsControl(c)
    ensures Scan([c] + rest, true) == [Ch(c as int)] + Scan(rest, true)
  {
    assert ([c] + rest)[1..] == rest;
  }

  lemma CloseScans(rest: string)
    ensures Scan("\"" + rest, true) == [Close] + Scan(rest, false)
  {
    assert ("\"" + rest)[1..] == rest;
  }

  /** Valid text is scanned the same way whatever follows it. */
  lemma {:induction false} ScanConcat(a: string, b: string, q: bool)
    requires Bad !in Scan(a, q)
    ensures Scan(a + b, q) == Scan(a, q) + Scan(b, Ends(q, Scan(a, q)))
    decreases |a|
  {
    if a == "" {
      assert a + b == b;
    } else {
      var (t, n) := First(a, q);
      var q' := InStringAfter(q, t);
      var tail := Scan(a[n..], q');
      ScanStep(a, q);
      FirstOfValid(t, tail, q);
      FirstConcat(a, b, q);
      assert (a + b)[n..] == a[n..] + b;
      ScanStep(a + b, q);
      ScanConcat(a[n..], b, q');
      ConsConcat(t, tail, Scan(b, Ends(q', tail)));
    }
  }

  lemma FirstOfValid(t: Tok, tail: seq<Tok>, q: bool)
    requires Bad !in [t] + tail
    ensures t != Bad && Bad !in tail && Ends(q, [t] + tail) == Ends(InStringAfter(q, t), tail)
  {
    assert ([t] + tail)[0] == t && ([t] + tail)[1..] == tail;
  }

  lemma ConsConcat(t: Tok, a: seq<Tok>, b: seq<Tok>)
    ensures [t] + (a + b) == ([t] + a) + b
  {
  }

  lemma ScanStep(y: string, q: bool)
    requires y != ""
    ensures Scan(y, q) == [First(y, q).0] + Scan(y[First(y, q).1..], InStringAfter(q, First(y, q).0))
  {
  }

  lemma FirstConcat(a: string, b: string, q: bool)
    requires a != "" && First(a, q).0 != Bad
    ensures First(a + b, q) == First(a, q)
  {
    if First(a, q).1 == 6 {
      assert (a + b)[2..6] == a[2..6];
    }
  }

  /** Text without a quote scans as itself outside strings. */
  lemma {:induction false} OutsideScans(s: string, rest: string)
    requires '"' !in s
    ensures Scan(s + rest, false) == Outs(s) + Scan(rest, false)
  {
    if s == "" {
      assert s + rest == rest;
    } else {
      var tail := s[1..] + rest;
      calc {
        Scan(s + rest, false);
        { assert s + rest == [s[0]] + tail && ([s[0]] + tail)[1..] == tail; }
        [Out(s[0])] + Scan(tail, false);
        { OutsideScans(s[1..], rest); }
        [Out(s[0])] + (Outs(s[1..]) + Scan(rest, false));
        { assert Outs(s) == [Out(s[0])] + Outs(s[1..]); }
        Outs(s) + Scan(rest, false);
      }
    }
  }

  lemma DumpCharScans(c: char, rest: string)
    ensures Scan(DumpChar(c) + rest, true) == [Ch(c as int)] + Scan(rest, true)
  {
    if c == '"' || c == '\\' {
      ShortEscapeScans(c, rest);
    } else if DumpChar(c) == [c] {
      CharScans(c, rest);
    } else if |DumpChar(c)| == 6 {
      UnicodeEscapeScans(U00(c), rest);
    } else {
      ShortEscapeScans(DumpChar(c)[1], rest);
    }
  }

  lemma EscapeFirst(s: string, rest: string)
    requires s != ""
    ensures Escape(s) + rest == DumpChar(s[0]) + (Escape(s[1..]) + rest)
  {
  }

  lemma CharsFirst(s: string, rest: seq<Tok>)
    requires s != ""
    ensures Chars(s) + rest == [Ch(s[0] as int)] + (Chars(s[1..]) + rest)
  {
    assert Chars(s) == [Ch(s[0] as int)] + Chars(s[1..]);
  }

  /** Round trip of the escaping: inside a string, escaped text reads back as the text. */
  lemma {:induction false} EscapeScans(s: string, rest: string)
    ensures Scan(Escape(s) + rest, true) == Chars(s) + Scan(rest, true)
  {
    if s == "" {
      assert Escape(s) + rest == rest;
    } else {
      EscapeFirst(s, rest);
      DumpCharScans(s[0], Escape(s[1..]) + rest);
      EscapeScans(s[1..], rest);
      CharsFirst(s, Scan(rest, true));
    }
  }

  lemma OpenScans(rest: string)
    ensures Scan("\"" + rest, false) == [Open] + Scan(rest, true)
  {
    assert ("\"" + rest)[1..] == rest;
  }

  lemma DumpScans(s: string, rest: string)
    ensures Scan(Dump(s) + rest, false) == StringToks(s) + Scan(rest, false)
  {
    var tail := "\"" + rest;
    calc {
      Scan(Dump(s) + rest, false);
      { assert Dump(s) + rest == "\"" + (Escape(s) + tail); OpenScans(Escape(s) + tail); }
      [Open] + Scan(Escape(s) + tail, true);
      { EscapeScans(s, tail); }
      [Open] + (Chars(s) + Scan(tail, true));
      { assert tail[1..] == rest; }
      [Open] + (Chars(s) + ([Close] + Scan(rest, false)));
      StringToks(s) + Scan(rest, false);
    }
  }

  /** Escaping is monotone: a longer text extends the escaped form of its prefixes. */
  lemma {:induction false} EscapeMonotone(p: string, s: string)
    requires p <= s
    ensures Escape(p) <= Escape(s)
  {
    if p != "" {
      EscapeMonotone(p[1..], s[1..]);
    }
  }

  // ------------------------------------------------------- the shortest text for tokens

  /** The least number of characters that can be read as a token. */
  function Width(t: Tok): nat {
    if !t.Ch? then 1
    else if t.code == 34 || t.code == 92 || (8 <= t.code <= 13 && t.code != 11) then 2
    else if t.code < 32 then 6
    else 1
  }

  function Cost(ts: seq<Tok>): nat {
    if ts == [] then 0 else Width(ts[0]) + Cost(ts[1..])
  }

  lemma {:induction false} CostConcat(a: seq<Tok>, b: seq<Tok>)
    ensures Cost(a + b) == Cost(a) + Cost(b)
  {
    if a == [] {
      assert a + b == b;
    } else {
      assert (a + b)[1..] == a[1..] + b;
      CostConcat(a[1..], b);
    }
  }

  lemma FirstCosts(y: string, q: bool)
    requires y != "" && First(y, q).0 != Bad
    ensures Width(First(y, q).0) <= First(y, q).1
  {
  }

  /** No text is shorter than what its tokens cost. */
  lemma {:induction false} ScanCosts(y: string, q: bool)
    requires Bad !in Scan(y, q)
    ensures Cost(Scan(y, q)) <= |y|
    decreases |y|
  {
    if y != "" {
      var (t, n) := First(y, q);
      var rest := Scan(y[n..], InStringAfter(q, t));
      ScanStep(y, q);
      assert Scan(y, q)[0] == t && Scan(y, q)[1..] == rest;
      FirstCosts(y, q);
      ScanCosts(y[n..], InStringAfter(q, t));
    }
  }

  lemma {:induction false} CostOfOuts(s: string)
    ensures Cost(Outs(s)) == |s|
  {
    if s != "" {
      CostOfOuts(s[1..]);
      assert Outs(s)[1..] == Outs(s[1..]);
    }
  }

  lemma DumpCharCost(c: char)
    ensures |DumpChar(c)| == Width(Ch(c as int))
  {
  }

  /** Escaping writes the shortest text there is. */
  lemma {:induction false} EscapeIsShortest(s: string)
    ensures |Escape(s)| == Cost(Chars(s))
  {
    if s != "" {
      DumpCharCost(s[0]);
      EscapeIsShortest(s[1..]);
      assert Chars(s)[1..] == Chars(s[1..]);
    }
  }

  lemma DumpIsShortest(s: string)
    ensures |Dump(s)| == Cost(StringToks(s))
  {
    EscapeIsShortest(s);
    CostConcat([Open] + Chars(s), [Close]);
    CostConcat([Open], Chars(s));
    assert [Open][1..] == [] && [Close][1..] == [];
  }
}
