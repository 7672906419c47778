/**
  What the normaliser writes for words and quoted strings, stated by the characters
  themselves and without the functions that the loop is specified with.
 */
module PySpelling {
  import opened Text
  import opened JsonText
  import opened PyQuotes
  import opened PyStreaming

  // ------------------------------------------------------------------------ bare words

  /** Spelling of a word: a beginning of a Python literal becomes the beginning, of the same
      length, of the JSON literal; every other word is copied. */
  predicate Spells(w: string, j: string) {
    && |j| == |w|
    && (w <= "True" ==> j <= "true")
    && (w <= "False" ==> j <= "false")
    && (w <= "None" ==> j <= "null")
    && (!(w <= "True") && !(w <= "False") && !(w <= "None") ==> j == w)
  }

  lemma WordSpelling(w: string)
    requires w != ""
    ensures Spells(w, JsonWord(w))
  {
    assert "True"[0] == 'T' && "False"[0] == 'F' && "None"[0] == 'N';
    if w <= "True" {
      assert w[0] == 'T' && |w| <= 4;
    } else if w <= "False" {
      assert w[0] == 'F' && |w| <= 5;
    } else if w <= "None" {
      assert w[0] == 'N' && |w| <= 4;
    }
  }

  /** Every bare word of every input is spelled so, and nothing else is written for it. */
  lemma WordsAreSpelled(x: string, i: nat) returns (j: string)
    requires i < |x| && WordStart(x, i) && IsWord(x[i])
    ensures Spells(x[i..WordEnd(x, i)], j)
    ensures NormalizedFrom(x, i, Outside) == j + NormalizedFrom(x, WordEnd(x, i), Outside)
  {
    var w := x[i..WordEnd(x, i)];
    assert w[0] == x[i];
    WordSpelling(w);
    WritesWord(x, i);
    j := JsonWord(w);
  }

  lemma WholeLiterals()
    ensures Normalized("True") == "true" && Normalized("False") == "false" && Normalized("None") == "null"
  {
    TrueSpelling();
    FalseSpelling();
    NoneSpelling();
  }

  lemma TrueSpelling()
    ensures Normalized("True") == "true"
  {
    WholeWord("True", "true");
  }

  lemma FalseSpelling()
    ensures Normalized("False") == "false"
  {
    WholeWord("False", "false");
  }

  lemma NoneSpelling()
    ensures Normalized("None") == "null"
  {
    WholeWord("None", "null");
  }

  lemma {:induction false} WholeWord(w: string, j: string)
    requires w != "" && |j| == |w| && forall i :: 0 <= i < |w| ==> IsWord(w[i])
    requires forall u :: Spells(w, u) ==> u == j
    ensures Normalized(w) == j
  {
    OneWord(w);
    WordSpelling(w);
  }

  /** A letter, digit or underscore behind a literal makes it another word; other characters
      end it. */
  lemma {:induction false} LiteralsEnd(c: char)
    requires '0' <= c <= '9' || 'a' <= c <= 'z' || 'A' <= c <= 'Z' || c == '_'
    ensures Normalized("True" + [c]) == "True" + [c]
    ensures Normalized("True-") == "true-"
  {
    var w := "True" + [c];
    assert |w| == 5 && w[0] == 'T' && "False"[0] == 'F' && "None"[0] == 'N';
    OneWord(w);
    WordSpelling(w);
    WritesWord("True-", 0);
    assert WordEnd("True-", 4) == 4;
    assert WordEnd("True-", 0) == 4;
    assert "True-"[0..4] == "True";
    WordSpelling("True");
    assert NormalizedFrom("True-", 5, Outside) == "";
    assert StepAt("True-", 4, Outside) == Step("-", 5, Outside);
    assert "-" + "" == "-" && "true" + "-" == "true-";
  }

  // -------------------------------------------------------------------- quoted strings

  function WrittenChar(c: char): string {
    if IsControl(c) then ControlEscape(c) else if c == '"' then "\\\"" else [c]
  }

  /** What the loop writes inside a quoted string that holds no escape, from position `k` on. */
  function Written(s: string, k: nat): string
    requires k <= |s|
    decreases |s| - k
  {
    if k == |s| then "" else WrittenChar(s[k]) + Written(s, k + 1)
  }

  /** Neither the quote itself nor a backslash. */
  predicate NoEscapes(s: string, quote: char) {
    quote !in s && '\\' !in s
  }

  lemma {:induction false} CharStep(x: string, i: nat, quote: char)
    requires i < |x| && (quote == '"' || quote == '\'') && x[i] != quote && x[i] != '\\'
    ensures var q := if quote == '"' then Double else Single;
            StepAt(x, i, q) == Step(WrittenChar(x[i]), i + 1, q)
  {
  }

  lemma {:induction false} QuoteEnds(x: string, i: nat, quote: char)
    requires i + 1 == |x| && (quote == '"' || quote == '\'') && x[i] == quote
    ensures NormalizedFrom(x, i, if quote == '"' then Double else Single) == "\""
  {
    assert NormalizedFrom(x, i + 1, Outside) == "";
  }

  lemma {:induction false} CharOfQuoted(x: string, s: string, quote: char, k: nat)
    requires (quote == '"' || quote == '\'') && NoEscapes(s, quote) && x == [quote] + s + [quote] && k < |s|
    ensures var q := if quote == '"' then Double else Single;
            NormalizedFrom(x, k + 1, q) == WrittenChar(s[k]) + NormalizedFrom(x, k + 2, q)
  {
    CharInside(x, s, quote, k);
    CharStep(x, k + 1, quote);
    StepWrites(x, k + 1, if quote == '"' then Double else Single, WrittenChar(s[k]));
  }

  lemma CharInside(x: string, s: string, quote: char, k: nat)
    requires NoEscapes(s, quote) && x == [quote] + s + [quote] && k < |s|
    ensures k + 1 < |x| && x[k + 1] == s[k] && s[k] != quote && s[k] != '\\'
  {
    assert s[k] in s;
  }

  lemma {:induction false} StepWrites(x: string, i: nat, q: Quote, out: string)
    requires i < |x| && StepAt(x, i, q) == Step(out, i + 1, q)
    ensures NormalizedFrom(x, i, q) == out + NormalizedFrom(x, i + 1, q)
  {
  }

  lemma {:induction false} WritesInside(x: string, s: string, quote: char, k: nat)
    requires (quote == '"' || quote == '\'') && NoEscapes(s, quote) && x == [quote] + s + [quote] && k <= |s|
    ensures NormalizedFrom(x, k + 1, if quote == '"' then Double else Single) == Written(s, k) + "\""
    decreases |s| - k
  {
    if k == |s| {
      QuoteEnds(x, k + 1, quote);
    } else {
      CharOfQuoted(x, s, quote, k);
      WritesInside(x, s, quote, k + 1);
      Attach(WrittenChar(s[k]), Written(s, k + 1), "\"");
    }
  }

  lemma Attach(a: string, b: string, c: string)
    ensures a + (b + c) == (a + b) + c
  {
  }

  lemma WritesQuoted(s: string, quote: char)
    requires (quote == '"' || quote == '\'') && NoEscapes(s, quote)
    ensures Normalized([quote] + s + [quote]) == "\"" + (Written(s, 0) + "\"")
  {
    var x := [quote] + s + [quote];
    WritesInside(x, s, quote, 0);
    assert StepAt(x, 0, Outside) == Step("\"", 1, if quote == '"' then Double else Single);
  }

  /** Backspace and form feed: the two characters that the library writes shorter. */
  predicate HasShorter(s: string) {
    '\U{8}' in s || '\U{c}' in s
  }

  lemma {:induction false} WrittenIsEscaped(s: string, k: nat)
    requires k <= |s| && '\\' !in s
    ensures |Written(s, k)| >= |Escape(s[k..])|
    ensures Written(s, k) == Escape(s[k..]) <==> !HasShorter(s[k..])
    decreases |s| - k
  {
    if k < |s| {
      WrittenIsEscaped(s, k + 1);
      EscapeAt(s, k);
      RestHas(s, k);
      CharWritten(s[k]);
      if WrittenChar(s[k]) == DumpChar(s[k]) {
        SameHead(DumpChar(s[k]), Written(s, k + 1), Escape(s[k + 1..]));
      }
    }
  }

  lemma SameHead(a: string, u: string, v: string)
    ensures a + u == a + v <==> u == v
  {
    if a + u == a + v {
      assert (a + u)[|a|..] == u && (a + v)[|a|..] == v;
    }
  }

  lemma EscapeAt(s: string, k: nat)
    requires k < |s|
    ensures Escape(s[k..]) == DumpChar(s[k]) + Escape(s[k + 1..])
  {
    assert s[k..][1..] == s[k + 1..];
  }

  lemma RestHas(s: string, k: nat)
    requires k < |s|
    ensures HasShorter(s[k..]) <==> s[k] == '\U{8}' || s[k] == '\U{c}' || HasShorter(s[k + 1..])
  {
    assert s[k..] == [s[k]] + s[k + 1..];
  }

  lemma CharWritten(c: char)
    requires c != '\\'
    ensures if c == '\U{8}' || c == '\U{c}' then |WrittenChar(c)| > |DumpChar(c)| else WrittenChar(c) == DumpChar(c)
  {
  }

  /** A quoted string without escapes becomes exactly what the JSON library writes for its
      value, unless the value has a backspace or a form feed, which the library writes shorter. */
  lemma QuotedIsDumped(s: string, quote: char)
    requires (quote == '"' || quote == '\'') && NoEscapes(s, quote)
    ensures Normalized([quote] + s + [quote]) == Dump(s) <==> !HasShorter(s)
  {
    WritesQuoted(s, quote);
    WrittenIsEscaped(s, 0);
    assert s[0..] == s;
    SameInside(Written(s, 0), Escape(s));
  }

  lemma SameInside(a: string, b: string)
    ensures "\"" + (a + "\"") == "\"" + b + "\"" <==> a == b
  {
    if "\"" + (a + "\"") == "\"" + b + "\"" {
      var u, v := "\"" + (a + "\""), "\"" + b + "\"";
      assert u[1..|u| - 1] == a && v[1..|v| - 1] == b;
    }
  }

  // ---------------------------------------------------------------------- JSON escapes

  /** The escapes of section 7 of RFC 8259, one by one. */
  lemma StandardEscapes(rest: string)
    ensures Scan("\\\"" + rest, true) == [Ch(0x22)] + Scan(rest, true)
    ensures Scan("\\\\" + rest, true) == [Ch(0x5c)] + Scan(rest, true)
    ensures Scan("\\/" + rest, true) == [Ch(0x2f)] + Scan(rest, true)
    ensures Scan("\\b" + rest, true) == [Ch(0x08)] + Scan(rest, true)
    ensures Scan("\\f" + rest, true) == [Ch(0x0c)] + Scan(rest, true)
    ensures Scan("\\n" + rest, true) == [Ch(0x0a)] + Scan(rest, true)
    ensures Scan("\\r" + rest, true) == [Ch(0x0d)] + Scan(rest, true)
    ensures Scan("\\t" + rest, true) == [Ch(0x09)] + Scan(rest, true)
  {
    OneEscape('"', rest);
    OneEscape('\\', rest);
    OneEscape('/', rest);
    OneEscape('b', rest);
    OneEscape('f', rest);
    OneEscape('n', rest);
    OneEscape('r', rest);
    OneEscape('t', rest);
  }

  lemma OneEscape(c: char, rest: string)
    requires IsShortEscape(c)
    ensures Scan("\\" + [c] + rest, true) == [Ch(ShortEscape(c) as int)] + Scan(rest, true)
  {
    ShortEscapeScans(c, rest);
    assert "\\" + [c] == ['\\', c];
  }

  /** A run of four digits stands for the number it writes, in either case of the letters. */
  lemma FourDigits(a: nat, b: nat, c: nat, d: nat)
    requires a < 16 && b < 16 && c < 16 && d < 16
    ensures var u := [HexDigit(a), HexDigit(b), HexDigit(c), HexDigit(d)];
            AllHex(u) && Hex4(u) == a * 4096 + b * 256 + c * 16 + d
    ensures a < 10 ==> HexDigit(a) == '0' + a as char
    ensures a >= 10 ==> HexDigit(a) == 'a' + (a - 10) as char && HexValue('A' + (a - 10) as char) == a
  {
  }
}
