/**
  `normalize_quotes_to_json`: Python-like text to JSON text, one step at a time.

  `Normalized` gives the steps of the loop; the method `NormalizeQuotesToJson` is the loop
  itself.  `Meaning` is an independent reading of the input: what the Python-like text
  denotes, without any reference to what is written for it.
 */
module PyQuotes {
  import opened Text
  import opened JsonText

  /** The two flags of the loop; they are never set together. */
  datatype Quote = Outside | Single | Double

  // -------------------------------------------------------------------- bare words

  /** The end of the run of word characters that contains position `i`. */
  function WordEnd(x: string, i: nat): (e: nat)
    requires i <= |x|
    ensures i <= e <= |x|
    ensures forall k :: i <= k < e ==> IsWord(x[k])
    ensures e < |x| ==> !IsWord(x[e])
    decreases |x| - i
  {
    if i < |x| && IsWord(x[i]) then WordEnd(x, i + 1) else i
  }

  /** `w` is a nonempty prefix of one of the Python literals. */
  predicate IsLiteral(w: string) {
    w != "" && (w <= "True" || w <= "False" || w <= "None")
  }

  /** The JSON spelling of the literal that `w` begins, cut to the length of `w`. */
  function JsonLiteral(w: string): (j: string)
    requires IsLiteral(w)
    ensures |j| == |w|
  {
    if w <= "True" then "true"[..|w|] else if w <= "False" then "false"[..|w|] else "null"[..|w|]
  }

  predicate StartsLiteral(c: char) {
    c == 'T' || c == 'F' || c == 'N'
  }

  /** Position `i` is not inside a word: the character before it, if any, is no word character. */
  predicate WordStart(x: string, i: nat)
    requires i <= |x|
  {
    i == 0 || !IsWord(x[i - 1])
  }

  // ------------------------------------------------------------------ the transducer

  /** One turn of the loop: what it appends, the next position and the next flags; or the
      early end on input that stops in the middle of an escape. */
  datatype Step = Step(out: string, next: nat, quote: Quote) | Wait

  /** How many hexadecimal digits follow position `i`, at most `most`. */
  function HexRun(x: string, i: nat, most: nat): (n: nat)
    requires i <= |x|
    ensures n <= most && i + n <= |x| && AllHex(x[i..i + n])
    ensures n < most && i + n < |x| ==> !IsHex(x[i + n])
    decreases most
  {
    if most == 0 || i == |x| || !IsHex(x[i]) then 0
    else
      var n := HexRun(x, i + 1, most - 1);
      assert x[i..i + 1 + n] == [x[i]] + x[i + 1..i + 1 + n];
      1 + n
  }

  function EscapeStep(x: string, i: nat, q: Quote): (s: Step)
    requires i + 1 < |x| && x[i] == '\\' && q != Outside
    ensures s.Step? ==> i < s.next <= |x| && s.quote == q
  {
    var next := x[i + 1];
    if next == '\'' then Step("'", i + 2, q)
    else if IsShortEscape(next) then Step(['\\', next], i + 2, q)
    else if next == 'u' then
      var n := HexRun(x, i + 2, 4);
      if n < 4 && i + 2 + n == |x| then Wait
      else if n == 4 then Step(x[i..i + 6], i + 6, q)
      else Step("\\\\u", i + 2, q)
    else Step("\\\\" + (if IsControl(next) then U00(next) else [next]), i + 2, q)
  }

  function QuoteStep(c: char, i: nat, q: Quote): Step
    requires c == '"' || c == '\''
  {
    if c == '"' then
      match q
      case Single => Step("\\\"", i + 1, q)
      case Outside => Step("\"", i + 1, Double)
      case Double => Step("\"", i + 1, Outside)
    else
      match q
      case Double => Step("'", i + 1, q)
      case Single => Step("\"", i + 1, Outside)
      case Outside => Step("\"", i + 1, Single)
  }

  function ControlEscape(c: char): string
    requires IsControl(c)
  {
    match c
    case '\n' => "\\n"
    case '\r' => "\\r"
    case '\t' => "\\t"
    case _ => U00(c)
  }

  function StepAt(x: string, i: nat, q: Quote): (s: Step)
    requires i < |x|
    ensures s.Step? ==> i < s.next <= |x|
  {
    var c := x[i];
    if c == '\\' && i + 1 < |x| then
      if q != Outside then EscapeStep(x, i, q) else Step([c], i + 1, q)
    else if c == '\\' && q != Outside then Wait
    else if q != Outside && IsControl(c) then Step(ControlEscape(c), i + 1, q)
    else if c == '"' || c == '\'' then QuoteStep(c, i, q)
    else if q == Outside && StartsLiteral(c) && WordStart(x, i) then
      var w := x[i..WordEnd(x, i)];
      if IsLiteral(w) then Step(JsonLiteral(w), i + |w|, q) else Step([c], i + 1, q)
    else Step([c], i + 1, q)
  }

  /** Everything the loop appends from position `i` on. */
  function NormalizedFrom(x: string, i: nat, q: Quote): string
    requires i <= |x|
    decreases |x| - i
  {
    if i == |x| then ""
    else
      match StepAt(x, i, q)
      case Wait => ""
      case Step(out, next, q') => out + NormalizedFrom(x, next, q')
  }

  function Normalized(x: string): string {
    NormalizedFrom(x, 0, Outside)
  }

  lemma Advances(x: string, i: nat, q: Quote, before: string)
    requires i < |x| && StepAt(x, i, q).Step?
    ensures var s := StepAt(x, i, q);
            before + NormalizedFrom(x, i, q) == (before + s.out) + NormalizedFrom(x, s.next, s.quote)
  {
  }

  function QuoteOf(inSingleQuoted: bool, inDoubleQuoted: bool): Quote {
    if inSingleQuoted then Single else if inDoubleQuoted then Double else Outside
  }

  method NormalizeQuotesToJson(input: string) returns (result: string)
    ensures result == Normalized(input)
  {
    result := "";
    var inSingleQuoted, inDoubleQuoted := false, false;
    var i := 0;
    while i < |input|
      invariant i <= |input| && !(inSingleQuoted && inDoubleQuoted)
      invariant result + NormalizedFrom(input, i, QuoteOf(inSingleQuoted, inDoubleQuoted)) == Normalized(input)
    {
      var c := input[i];
      var inString := inSingleQuoted || inDoubleQuoted;
      ghost var q := QuoteOf(inSingleQuoted, inDoubleQuoted);
      ghost var before, start := result, i;
      ghost var step := StepAt(input, i, q);
      if c == '\\' && i + 1 < |input| {
        var next := input[i + 1];
        if inString {
          if next == '\'' {
            result := result + "'";
          } else if IsShortEscape(next) {
            result := result + [c, next];
          } else if next == 'u' {
            var ok := HexRun(input, i + 2, 4);
            if ok < 4 && i + 2 + ok == |input| {
              return;
            }
            if ok == 4 {
              result := result + input[i..i + 6];
              i := i + 4;
            } else {
              result := result + "\\\\u";
            }
          } else {
            result := result + ("\\\\" + (if IsControl(next) then U00(next) else [next]));
          }
          i := i + 2;
        } else {
          result := result + [c];
          i := i + 1;
        }
      } else if c == '\\' && inString {
        break;
      } else if inString && IsControl(c) {
        result := result + ControlEscape(c);
        i := i + 1;
      } else if c == '"' {
        if inSingleQuoted {
          result := result + "\\\"";
        } else {
          inDoubleQuoted := !inDoubleQuoted;
          result := result + [c];
        }
        i := i + 1;
      } else if c == '\'' {
        if inDoubleQuoted {
          result := result + [c];
        } else {
          inSingleQuoted := !inSingleQuoted;
          result := result + "\"";
        }
        i := i + 1;
      } else if !inString && StartsLiteral(c) && (i == 0 || !IsWord(input[i - 1])) {
        var w := input[i..WordEnd(input, i)];
        if IsLiteral(w) {
          result := result + JsonLiteral(w);
          i := i + |w|;
        } else {
          result := result + [c];
          i := i + 1;
        }
      } else {
        result := result + [c];
        i := i + 1;
      }
      assert step.Step? && result == before + step.out && i == step.next;
      Advances(input, start, q, before);
    }
  }

  // ------------------------------------------------------------------- what it means

  /** A word outside strings as JSON spells it. */
  function JsonWord(w: string): string {
    if IsLiteral(w) then JsonLiteral(w) else w
  }

  /** What the text from `i` on denotes: quoted strings as their decoded characters, other
      text as it stands with the Python literals in JSON spelling.  `\'` is a quote, the
      JSON escapes decode, any other backslash is literal; an escape that the end of the
      input cuts off denotes nothing yet. */
  function Meaning(x: string, i: nat, q: Quote): seq<Tok>
    requires i <= |x|
    decreases |x| - i
  {
    if i == |x| then []
    else if q == Outside then
      if IsWord(x[i]) then Outs(JsonWord(x[i..WordEnd(x, i)])) + Meaning(x, WordEnd(x, i), Outside)
      else if x[i] == '"' then [Open] + Meaning(x, i + 1, Double)
      else if x[i] == '\'' then [Open] + Meaning(x, i + 1, Single)
      else [Out(x[i])] + Meaning(x, i + 1, Outside)
    else if x[i] == '\\' then
      if i + 1 == |x| then []
      else if x[i + 1] == '\'' then [Ch('\'' as int)] + Meaning(x, i + 2, q)
      else if IsShortEscape(x[i + 1]) then [Ch(ShortEscape(x[i + 1]) as int)] + Meaning(x, i + 2, q)
      else if x[i + 1] == 'u' && i + 6 <= |x| && AllHex(x[i + 2..i + 6]) then
        [Ch(Hex4(x[i + 2..i + 6]))] + Meaning(x, i + 6, q)
      else if x[i + 1] == 'u' && |x| < i + 6 && AllHex(x[i + 2..]) then []
      else [Ch('\\' as int), Ch(x[i + 1] as int)] + Meaning(x, i + 2, q)
    else if x[i] == (if q == Single then '\'' else '"') then [Close] + Meaning(x, i + 1, Outside)
    else [Ch(x[i] as int)] + Meaning(x, i + 1, q)
  }

  lemma HexRunFull(x: string, i: nat)
    requires i <= |x|
    ensures HexRun(x, i, 4) == 4 <==> i + 4 <= |x| && AllHex(x[i..i + 4])
  {
    var n := HexRun(x, i, 4);
    if n < 4 && i + n < |x| && i + 4 <= |x| {
      assert x[i..i + 4][n] == x[i + n];
    }
  }

  lemma HexRunCutOff(x: string, i: nat)
    requires i <= |x|
    ensures HexRun(x, i, 4) < 4 && i + HexRun(x, i, 4) == |x| <==> |x| < i + 4 && AllHex(x[i..])
  {
    var n := HexRun(x, i, 4);
    if i + n == |x| {
      assert x[i..] == x[i..i + n];
    } else if n < 4 {
      assert x[i..][n] == x[i + n];
    }
  }

  lemma HexRunDecides(x: string, i: nat)
    requires i <= |x|
    ensures var n := HexRun(x, i, 4);
            && (n == 4 <==> i + 4 <= |x| && AllHex(x[i..i + 4]))
            && (n < 4 && i + n == |x| <==> |x| < i + 4 && AllHex(x[i..]))
  {
    HexRunFull(x, i);
    HexRunCutOff(x, i);
  }

  lemma ConcatFirst(x: string, i: nat, e: nat, rest: string)
    requires i < e <= |x|
    ensures [x[i]] + (x[i + 1..e] + rest) == x[i..e] + rest
  {
  }

  lemma CopiesLetter(x: string, i: nat)
    requires 0 < i < |x| && IsWord(x[i - 1]) && IsWord(x[i])
    ensures NormalizedFrom(x, i, Outside) == [x[i]] + NormalizedFrom(x, i + 1, Outside)
  {
    assert StepAt(x, i, Outside) == Step([x[i]], i + 1, Outside);
  }

  /** Outside strings and inside a word the loop copies to the end of the word. */
  lemma {:induction false} CopiesRestOfWord(x: string, i: nat)
    requires 0 < i <= |x| && IsWord(x[i - 1])
    ensures NormalizedFrom(x, i, Outside) == x[i..WordEnd(x, i)] + NormalizedFrom(x, WordEnd(x, i), Outside)
    decreases |x| - i
  {
    if i < |x| && IsWord(x[i]) {
      CopiesRestOfWord(x, i + 1);
      CopiesLetter(x, i);
      ConcatFirst(x, i, WordEnd(x, i), NormalizedFrom(x, WordEnd(x, i), Outside));
    }
  }

  lemma LiteralWordStep(x: string, i: nat)
    requires i < |x| && WordStart(x, i) && IsWord(x[i])
    ensures var w := x[i..WordEnd(x, i)];
            StepAt(x, i, Outside) == if IsLiteral(w) then Step(JsonLiteral(w), WordEnd(x, i), Outside)
                                     else Step([x[i]], i + 1, Outside)
  {
    assert x[i..WordEnd(x, i)][0] == x[i];
  }

  /** A word is written as `JsonWord` spells it, whichever branch of the loop takes it. */
  lemma WritesWord(x: string, i: nat)
    requires i < |x| && WordStart(x, i) && IsWord(x[i])
    ensures NormalizedFrom(x, i, Outside) ==
            JsonWord(x[i..WordEnd(x, i)]) + NormalizedFrom(x, WordEnd(x, i), Outside)
  {
    LiteralWordStep(x, i);
    if !IsLiteral(x[i..WordEnd(x, i)]) {
      CopiesRestOfWord(x, i + 1);
      ConcatFirst(x, i, WordEnd(x, i), NormalizedFrom(x, WordEnd(x, i), Outside));
    }
  }

  predicate Boundary(x: string, i: nat)
    requires i <= |x|
  {
    WordStart(x, i) || i == |x| || !IsWord(x[i])
  }

  lemma ControlEscapeScans(c: char, rest: string)
    requires IsControl(c)
    ensures Scan(ControlEscape(c) + rest, true) == [Ch(c as int)] + Scan(rest, true)
  {
    if |ControlEscape(c)| == 6 {
      UnicodeEscapeScans(U00(c), rest);
    } else {
      ShortEscapeScans(ControlEscape(c)[1], rest);
    }
  }

  /** An unknown escape: a literal backslash, then the character itself. */
  lemma BackslashThen(shown: string, code: nat, rest: string)
    requires Scan(shown + rest, true) == [Ch(code)] + Scan(rest, true)
    ensures Scan(("\\\\" + shown) + rest, true) == [Ch('\\' as int), Ch(code)] + Scan(rest, true)
  {
    assert ("\\\\" + shown) + rest == ['\\', '\\'] + (shown + rest);
    ShortEscapeScans('\\', shown + rest);
  }

  lemma LiteralBackslashScans(next: char, rest: string)
    requires next != '"' && next != '\\'
    ensures Scan(("\\\\" + (if IsControl(next) then U00(next) else [next])) + rest, true)
            == [Ch('\\' as int), Ch(next as int)] + Scan(rest, true)
  {
    if IsControl(next) {
      UnicodeEscapeScans(U00(next), rest);
      BackslashThen(U00(next), next as int, rest);
    } else {
      CharScans(next, rest);
      BackslashThen([next], next as int, rest);
    }
  }

  /** Escapes that the loop passes through, decodes or makes literal, except `\u`. */
  lemma ShortEscapeMeaning(x: string, i: nat, q: Quote, rest: string) returns (ts: seq<Tok>)
    requires i + 1 < |x| && x[i] == '\\' && q != Outside && x[i + 1] != 'u'
    ensures EscapeStep(x, i, q).Step?
    ensures Scan(EscapeStep(x, i, q).out + rest, true) == ts + Scan(rest, true)
    ensures Meaning(x, i, q) == ts + Meaning(x, EscapeStep(x, i, q).next, q)
  {
    var next := x[i + 1];
    if next == '\'' {
      ts := [Ch('\'' as int)];
      CharScans('\'', rest);
    } else if IsShortEscape(next) {
      ts := [Ch(ShortEscape(next) as int)];
      ShortEscapeScans(next, rest);
    } else {
      ts := [Ch('\\' as int), Ch(next as int)];
      LiteralBackslashScans(next, rest);
    }
  }

  predicate IsUnicode(x: string, i: nat) {
    i + 6 <= |x| && AllHex(x[i + 2..i + 6])
  }

  predicate IsCutOff(x: string, i: nat) {
    i + 2 <= |x| < i + 6 && AllHex(x[i + 2..])
  }

  /** What the step and the meaning do at `\u`: both look at the same four digits. */
  lemma UnicodeStep(x: string, i: nat, q: Quote)
    requires i + 1 < |x| && x[i] == '\\' && q != Outside && x[i + 1] == 'u'
    ensures EscapeStep(x, i, q) == if IsUnicode(x, i) then Step(x[i..i + 6], i + 6, q)
                                   else if IsCutOff(x, i) then Wait
                                   else Step("\\\\u", i + 2, q)
  {
    HexRunDecides(x, i + 2);
  }

  lemma UnicodeMeaning(x: string, i: nat, q: Quote)
    requires i + 1 < |x| && x[i] == '\\' && q != Outside && x[i + 1] == 'u'
    ensures Meaning(x, i, q) == if IsUnicode(x, i) then [Ch(Hex4(x[i + 2..i + 6]))] + Meaning(x, i + 6, q)
                                else if IsCutOff(x, i) then []
                                else [Ch('\\' as int), Ch('u' as int)] + Meaning(x, i + 2, q)
  {
  }

  lemma UnicodeScans(x: string, i: nat, rest: string)
    requires IsUnicode(x, i) && x[i] == '\\' && x[i + 1] == 'u'
    ensures Scan(x[i..i + 6] + rest, true) == [Ch(Hex4(x[i + 2..i + 6]))] + Scan(rest, true)
  {
    var u := x[i..i + 6];
    assert u[2..6] == x[i + 2..i + 6];
    UnicodeEscapeScans(u, rest);
  }

  lemma LiteralUnicodeScans(rest: string)
    ensures Scan("\\\\u" + rest, true) == [Ch('\\' as int), Ch('u' as int)] + Scan(rest, true)
  {
    LiteralBackslashScans('u', rest);
    assert "\\\\" + "u" == "\\\\u";
  }

  lemma WholeUnicode(x: string, i: nat, q: Quote, rest: string) returns (ts: seq<Tok>)
    requires i + 1 < |x| && x[i] == '\\' && q != Outside && x[i + 1] == 'u' && IsUnicode(x, i)
    ensures Scan(x[i..i + 6] + rest, true) == ts + Scan(rest, true)
    ensures Meaning(x, i, q) == ts + Meaning(x, i + 6, q)
  {
    UnicodeMeaning(x, i, q);
    UnicodeScans(x, i, rest);
    ts := [Ch(Hex4(x[i + 2..i + 6]))];
  }

  lemma BrokenUnicode(x: string, i: nat, q: Quote, rest: string) returns (ts: seq<Tok>)
    requires i + 1 < |x| && x[i] == '\\' && q != Outside && x[i + 1] == 'u' && !IsUnicode(x, i) && !IsCutOff(x, i)
    ensures Scan("\\\\u" + rest, true) == ts + Scan(rest, true)
    ensures Meaning(x, i, q) == ts + Meaning(x, i + 2, q)
  {
    UnicodeMeaning(x, i, q);
    LiteralUnicodeScans(rest);
    ts := [Ch('\\' as int), Ch('u' as int)];
  }

  lemma UnicodeEscapeMeaning(x: string, i: nat, q: Quote, rest: string) returns (ts: seq<Tok>)
    requires i + 1 < |x| && x[i] == '\\' && q != Outside && x[i + 1] == 'u'
    ensures EscapeStep(x, i, q).Wait? ==> Meaning(x, i, q) == []
    ensures EscapeStep(x, i, q).Step? ==>
              && Scan(EscapeStep(x, i, q).out + rest, true) == ts + Scan(rest, true)
              && Meaning(x, i, q) == ts + Meaning(x, EscapeStep(x, i, q).next, q)
  {
    UnicodeStep(x, i, q);
    UnicodeMeaning(x, i, q);
    ts := [];
    if IsUnicode(x, i) {
      ts := WholeUnicode(x, i, q, rest);
    } else if !IsCutOff(x, i) {
      ts := BrokenUnicode(x, i, q, rest);
    }
  }

  /** One escape denotes the tokens `ts`, and what the step writes for it scans as `ts`. */
  lemma EscapeStepMeaning(x: string, i: nat, q: Quote, rest: string) returns (ts: seq<Tok>)
    requires i + 1 < |x| && x[i] == '\\' && q != Outside
    ensures EscapeStep(x, i, q).Wait? ==> Meaning(x, i, q) == []
    ensures EscapeStep(x, i, q).Step? ==>
              && Scan(EscapeStep(x, i, q).out + rest, true) == ts + Scan(rest, true)
              && Meaning(x, i, q) == ts + Meaning(x, EscapeStep(x, i, q).next, q)
  {
    if x[i + 1] == 'u' {
      ts := UnicodeEscapeMeaning(x, i, q, rest);
    } else {
      ts := ShortEscapeMeaning(x, i, q, rest);
    }
  }

  lemma QuoteOpens(x: string, i: nat, rest: string)
    requires i < |x| && (x[i] == '"' || x[i] == '\'')
    ensures var s := StepAt(x, i, Outside);
            && s.Step? && s.next == i + 1 && s.quote != Outside && Scan(s.out + rest, false) == [Open] + Scan(rest, true)
            && Meaning(x, i, Outside) == [Open] + Meaning(x, i + 1, s.quote)
  {
    OpenScans(rest);
  }

  lemma OtherOutside(x: string, i: nat, rest: string)
    requires i < |x| && !IsWord(x[i]) && x[i] != '"' && x[i] != '\''
    ensures StepAt(x, i, Outside) == Step([x[i]], i + 1, Outside)
    ensures Scan([x[i]] + rest, false) == [Out(x[i])] + Scan(rest, false)
    ensures Meaning(x, i, Outside) == [Out(x[i])] + Meaning(x, i + 1, Outside)
  {
    assert Outs([x[i]]) == [Out(x[i])];
    OutsideScans([x[i]], rest);
  }

  lemma OutsideStepMeaning(x: string, i: nat, rest: string) returns (ts: seq<Tok>)
    requires i < |x| && !IsWord(x[i])
    ensures var s := StepAt(x, i, Outside);
            && s.Step? && Scan(s.out + rest, false) == ts + Scan(rest, s.quote != Outside)
            && Meaning(x, i, Outside) == ts + Meaning(x, s.next, s.quote)
  {
    if x[i] == '"' || x[i] == '\'' {
      ts := [Open];
      QuoteOpens(x, i, rest);
    } else {
      ts := [Out(x[i])];
      OtherOutside(x, i, rest);
    }
  }

  lemma InsideStepMeaning(x: string, i: nat, q: Quote, rest: string) returns (ts: seq<Tok>)
    requires i < |x| && q != Outside && x[i] != '\\'
    ensures var s := StepAt(x, i, q);
            && s.Step? && Scan(s.out + rest, true) == ts + Scan(rest, s.quote != Outside)
            && Meaning(x, i, q) == ts + Meaning(x, s.next, s.quote)
  {
    var c := x[i];
    if c == (if q == Single then '\'' else '"') {
      ts := [Close];
      CloseScans(rest);
    } else {
      ts := [Ch(c as int)];
      if IsControl(c) {
        ControlEscapeScans(c, rest);
      } else if c == '"' {
        ShortEscapeScans(c, rest);
      } else {
        CharScans(c, rest);
      }
    }
  }

  /** The same for every step, except at a word outside strings. */
  lemma StepMeaning(x: string, i: nat, q: Quote, rest: string) returns (ts: seq<Tok>)
    requires i < |x| && (q == Outside ==> !IsWord(x[i]))
    ensures StepAt(x, i, q).Wait? ==> Meaning(x, i, q) == []
    ensures StepAt(x, i, q).Step? ==>
              var s := StepAt(x, i, q);
              && Scan(s.out + rest, q != Outside) == ts + Scan(rest, s.quote != Outside)
              && Meaning(x, i, q) == ts + Meaning(x, s.next, s.quote)
  {
    ts := [];
    if q == Outside {
      ts := OutsideStepMeaning(x, i, rest);
    } else if x[i] != '\\' {
      ts := InsideStepMeaning(x, i, q, rest);
    } else if i + 1 < |x| {
      ts := EscapeStepMeaning(x, i, q, rest);
    }
  }

  lemma JsonWordHasNoQuote(w: string)
    requires forall k :: 0 <= k < |w| ==> IsWord(w[k])
    ensures '"' !in JsonWord(w)
  {
  }

  lemma PreservesWord(x: string, i: nat)
    requires i < |x| && IsWord(x[i]) && WordStart(x, i)
    requires var e := WordEnd(x, i); Scan(NormalizedFrom(x, e, Outside), false) == Meaning(x, e, Outside)
    ensures Scan(NormalizedFrom(x, i, Outside), false) == Meaning(x, i, Outside)
  {
    var e := WordEnd(x, i);
    WritesWord(x, i);
    JsonWordHasNoQuote(x[i..e]);
    OutsideScans(JsonWord(x[i..e]), NormalizedFrom(x, e, Outside));
  }

  lemma PreservesStep(x: string, i: nat, q: Quote)
    requires i < |x| && (q == Outside ==> !IsWord(x[i])) && StepAt(x, i, q).Step?
    requires var s := StepAt(x, i, q);
             Scan(NormalizedFrom(x, s.next, s.quote), s.quote != Outside) == Meaning(x, s.next, s.quote)
    ensures Scan(NormalizedFrom(x, i, q), q != Outside) == Meaning(x, i, q)
  {
    var s := StepAt(x, i, q);
    var ts := StepMeaning(x, i, q, NormalizedFrom(x, s.next, s.quote));
  }

  /** Meaning is preserved from every position and in every state of the loop. */
  lemma {:induction false} PreservesMeaningFrom(x: string, i: nat, q: Quote)
    requires i <= |x| && (q == Outside ==> Boundary(x, i))
    ensures Scan(NormalizedFrom(x, i, q), q != Outside) == Meaning(x, i, q)
    decreases |x| - i
  {
    if i < |x| {
      if q == Outside && IsWord(x[i]) {
        PreservesMeaningFrom(x, WordEnd(x, i), Outside);
        PreservesWord(x, i);
      } else {
        var s := StepAt(x, i, q);
        if s.Step? {
          PreservesMeaningFrom(x, s.next, s.quote);
          PreservesStep(x, i, q);
        } else {
          var ts := StepMeaning(x, i, q, "");
        }
      }
    }
  }

  lemma {:induction false} MeaningIsValid(x: string, i: nat, q: Quote)
    requires i <= |x|
    ensures Bad !in Meaning(x, i, q)
    decreases |x| - i
  {
    if i < |x| {
      if q == Outside {
        if IsWord(x[i]) {
          MeaningIsValid(x, WordEnd(x, i), Outside);
        } else {
          MeaningIsValid(x, i + 1, if x[i] == '"' then Double else if x[i] == '\'' then Single else Outside);
        }
      } else if x[i] == '\\' {
        if i + 1 < |x| {
          MeaningIsValid(x, i + 2, q);
        }
        if i + 6 <= |x| {
          MeaningIsValid(x, i + 6, q);
        }
      } else {
        MeaningIsValid(x, i + 1, if x[i] == (if q == Single then '\'' else '"') then Outside else q);
      }
    }
  }

  /** Main theorem.  Read as JSON, the output holds exactly what the input denotes: it is
      inside a string where the input is inside a quoted string, every string is a JSON
      string, and it decodes to the value the source string denotes. */
  lemma NormalizePreservesMeaning(x: string)
    ensures Scan(Normalized(x), false) == Meaning(x, 0, Outside)
    ensures Bad !in Scan(Normalized(x), false)
    ensures BraceDepth(Normalized(x), false, false) == TokDepth(Meaning(x, 0, Outside))
  {
    PreservesMeaningFrom(x, 0, Outside);
    MeaningIsValid(x, 0, Outside);
    BraceDepthCountsTokens(Normalized(x), false);
  }
}
