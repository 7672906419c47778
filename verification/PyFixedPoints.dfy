/**
  Normalising again changes nothing, and the texts that normalising leaves alone are exactly
  those that are JSON at scanner level.
 */
module PyFixedPoints {
  import opened Text
  import opened JsonText
  import opened PyQuotes

  /** JSON at scanner level: every string, complete or still open, is made of JSON string
      characters (section 7 of RFC 8259); outside strings there is no single quote and no
      word that begins a Python literal. */
  predicate Clean(y: string, inString: bool, afterWord: bool)
    decreases |y|
  {
    if y == "" then true
    else if inString then
      var (t, n) := First(y, true);
      t != Bad && Clean(y[n..], !t.Close?, false)
    else
      && y[0] != '\''
      && (StartsLiteral(y[0]) && !afterWord ==> !IsLiteral(y[..WordEnd(y, 0)]))
      && Clean(y[1..], y[0] == '"', IsWord(y[0]))
  }

  // ------------------------------------------------------------- clean text is kept as it is

  lemma {:induction false} WordEndShifts(x: string, i: nat, j: nat)
    requires i <= j <= |x|
    ensures WordEnd(x, j) == i + WordEnd(x[i..], j - i)
    decreases |x| - j
  {
    if j < |x| && IsWord(x[j]) {
      WordEndShifts(x, i, j + 1);
    }
  }

  lemma SuffixOf(x: string, i: nat, n: nat)
    requires i + n <= |x|
    ensures x[i..][n..] == x[i + n..] && x[i..][..n] == x[i..i + n]
    ensures x[i..] == x[i..i + n] + x[i + n..]
  {
  }

  lemma KeepsStringStep(x: string, i: nat)
    requires i < |x| && First(x[i..], true).0 != Bad
    ensures var (t, n) := First(x[i..], true);
            StepAt(x, i, Double) == Step(x[i..i + n], i + n, if t.Close? then Outside else Double)
  {
    var y := x[i..];
    if First(y, true).1 == 6 {
      assert y[2..6] == x[i + 2..i + 6];
      HexRunDecides(x, i + 2);
    }
  }

  lemma KeepsOutsideStep(x: string, i: nat)
    requires i < |x| && x[i] != '\''
    requires StartsLiteral(x[i]) && WordStart(x, i) ==> !IsLiteral(x[i..WordEnd(x, i)])
    ensures StepAt(x, i, Outside) == Step(x[i..i + 1], i + 1, if x[i] == '"' then Double else Outside)
  {
  }

  lemma KeepsInString(x: string, i: nat)
    requires i < |x| && First(x[i..], true).0 != Bad
    requires var (t, n) := First(x[i..], true);
             NormalizedFrom(x, i + n, if t.Close? then Outside else Double) == x[i + n..]
    ensures NormalizedFrom(x, i, Double) == x[i..]
  {
    KeepsStringStep(x, i);
    SuffixOf(x, i, First(x[i..], true).1);
  }

  /** What a clean text allows outside strings, read at a position of the whole text. */
  lemma CleanFirst(y: string, afterWord: bool)
    requires y != "" && Clean(y, false, afterWord)
    ensures y[0] != '\'' && (StartsLiteral(y[0]) && !afterWord ==> !IsLiteral(y[..WordEnd(y, 0)]))
  {
  }

  lemma WordOfSuffix(x: string, i: nat)
    requires i < |x|
    ensures x[i..][..WordEnd(x[i..], 0)] == x[i..WordEnd(x, i)] && x[i..][0] == x[i]
  {
    WordEndShifts(x, i, i);
    SuffixOf(x, i, WordEnd(x, i) - i);
  }

  lemma CleanOutside(x: string, i: nat)
    requires i < |x| && Clean(x[i..], false, !WordStart(x, i))
    ensures x[i] != '\'' && (StartsLiteral(x[i]) && WordStart(x, i) ==> !IsLiteral(x[i..WordEnd(x, i)]))
  {
    CleanFirst(x[i..], !WordStart(x, i));
    WordOfSuffix(x, i);
  }

  lemma KeepsOutside(x: string, i: nat)
    requires i < |x| && Clean(x[i..], false, !WordStart(x, i))
    requires NormalizedFrom(x, i + 1, if x[i] == '"' then Double else Outside) == x[i + 1..]
    ensures NormalizedFrom(x, i, Outside) == x[i..]
  {
    CleanOutside(x, i);
    KeepsOutsideStep(x, i);
    SuffixOf(x, i, 1);
  }

  lemma CleanInString(x: string, i: nat)
    requires i < |x| && Clean(x[i..], true, false)
    ensures var (t, n) := First(x[i..], true);
            t != Bad && i + n <= |x| && Clean(x[i + n..], !t.Close?, false) && (t.Close? ==> WordStart(x, i + n))
  {
    var (t, n) := First(x[i..], true);
    SuffixOf(x, i, n);
    assert t.Close? ==> n == 1 && x[i..][0] == x[i] == '"';
  }

  lemma {:induction false} KeepsClean(x: string, i: nat, inString: bool)
    requires i <= |x| && Clean(x[i..], inString, !inString && !WordStart(x, i))
    ensures NormalizedFrom(x, i, if inString then Double else Outside) == x[i..]
    decreases |x| - i
  {
    if i == |x| {
    } else if inString {
      var (t, n) := First(x[i..], true);
      CleanInString(x, i);
      KeepsClean(x, i + n, !t.Close?);
      KeepsInString(x, i);
    } else {
      SuffixOf(x, i, 1);
      KeepsClean(x, i + 1, x[i] == '"');
      KeepsOutside(x, i);
    }
  }

  // ------------------------------------------------------------------- the output is clean

  lemma CleanStringChunk(chunk: string, rest: string)
    requires chunk != "" && First(chunk + rest, true).1 == |chunk| && First(chunk + rest, true).0 != Bad
    requires Clean(rest, !First(chunk + rest, true).0.Close?, false)
    ensures Clean(chunk + rest, true, false)
  {
    assert (chunk + rest)[|chunk|..] == rest;
  }

  lemma CleanUnicode(u: string, rest: string)
    requires |u| == 6 && u[0] == '\\' && u[1] == 'u' && AllHex(u[2..6]) && Clean(rest, true, false)
    ensures Clean(u + rest, true, false)
  {
    assert (u + rest)[2..6] == u[2..6];
    CleanStringChunk(u, rest);
  }

  lemma CleanControl(c: char, rest: string)
    requires IsControl(c) && Clean(rest, true, false)
    ensures Clean(ControlEscape(c) + rest, true, false)
  {
    if |ControlEscape(c)| == 6 {
      CleanUnicode(U00(c), rest);
    } else {
      CleanStringChunk(ControlEscape(c), rest);
    }
  }

  lemma CleanLiteralBackslash(next: char, rest: string)
    requires next != '"' && next != '\\' && Clean(rest, true, false)
    ensures Clean(("\\\\" + (if IsControl(next) then U00(next) else [next])) + rest, true, false)
  {
    var shown := if IsControl(next) then U00(next) else [next];
    if IsControl(next) {
      CleanUnicode(U00(next), rest);
    } else {
      CleanStringChunk([next], rest);
    }
    assert ("\\\\" + shown) + rest == "\\\\" + (shown + rest);
    CleanStringChunk("\\\\", shown + rest);
  }

  lemma {:induction false} CleanEscapeStep(x: string, i: nat, q: Quote, rest: string)
    requires i + 1 < |x| && x[i] == '\\' && q != Outside && EscapeStep(x, i, q).Step?
    requires Clean(rest, true, false)
    ensures Clean(EscapeStep(x, i, q).out + rest, true, false)
  {
    var next := x[i + 1];
    if next == '\'' {
      CleanStringChunk("'", rest);
    } else if IsShortEscape(next) {
      CleanStringChunk(['\\', next], rest);
    } else if next == 'u' && HexRun(x, i + 2, 4) == 4 {
      assert x[i..i + 6][2..6] == x[i + 2..i + 6];
      CleanUnicode(x[i..i + 6], rest);
    } else {
      CleanLiteralBackslash(next, rest);
    }
  }

  lemma CleanStringStep(x: string, i: nat, q: Quote, rest: string)
    requires i < |x| && q != Outside && StepAt(x, i, q).Step?
    requires Clean(rest, StepAt(x, i, q).quote != Outside, false)
    ensures Clean(StepAt(x, i, q).out + rest, true, false)
  {
    var c := x[i];
    if c == '\\' {
      CleanEscapeStep(x, i, q, rest);
    } else if IsControl(c) {
      CleanControl(c, rest);
    } else {
      CleanStringChunk(StepAt(x, i, q).out, rest);
    }
  }

  lemma CleanOutsideStep(x: string, i: nat, rest: string, afterWord: bool)
    requires i < |x| && !IsWord(x[i])
    requires Clean(rest, StepAt(x, i, Outside).quote != Outside, false)
    ensures Clean(StepAt(x, i, Outside).out + rest, false, afterWord)
  {
    var out := StepAt(x, i, Outside).out;
    assert |out| == 1 && (out + rest)[1..] == rest;
  }

  lemma {:induction false} CleanInsideWord(w: string, rest: string)
    requires forall k :: 0 <= k < |w| ==> IsWord(w[k])
    requires Clean(rest, false, true)
    ensures Clean(w + rest, false, true)
  {
    if w == "" {
      assert w + rest == rest;
    } else {
      assert (w + rest)[1..] == w[1..] + rest;
      CleanInsideWord(w[1..], rest);
    }
  }

  lemma {:induction false} WordEndOfConcat(w: string, rest: string, i: nat)
    requires forall k :: 0 <= k < |w| ==> IsWord(w[k])
    requires rest == "" || !IsWord(rest[0])
    requires i <= |w|
    ensures WordEnd(w + rest, i) == |w|
    decreases |w| - i
  {
    if i < |w| {
      WordEndOfConcat(w, rest, i + 1);
    }
  }

  lemma JsonWordKeepsWords(w: string)
    requires w != "" && forall k :: 0 <= k < |w| ==> IsWord(w[k])
    ensures var j := JsonWord(w);
            && j != "" && (forall k :: 0 <= k < |j| ==> IsWord(j[k]))
            && (StartsLiteral(j[0]) ==> !IsLiteral(j))
  {
  }

  lemma CleanWord(w: string, rest: string)
    requires w != "" && forall k :: 0 <= k < |w| ==> IsWord(w[k])
    requires StartsLiteral(w[0]) ==> !IsLiteral(w)
    requires Clean(rest, false, true) && (rest == "" || !IsWord(rest[0]))
    ensures Clean(w + rest, false, false)
  {
    WordEndOfConcat(w, rest, 0);
    assert (w + rest)[..|w|] == w;
    assert (w + rest)[1..] == w[1..] + rest;
    CleanInsideWord(w[1..], rest);
  }

  /** After a word the output goes on with a character that is no word character. */
  lemma AfterWordOutput(x: string, e: nat)
    requires e <= |x| && (e < |x| ==> !IsWord(x[e]))
    ensures var rest := NormalizedFrom(x, e, Outside); rest == "" || !IsWord(rest[0])
  {
  }

  lemma {:induction false} OutputIsClean(x: string, i: nat, q: Quote)
    requires i <= |x| && (q == Outside ==> Boundary(x, i))
    ensures Clean(NormalizedFrom(x, i, q), q != Outside, q == Outside && !WordStart(x, i))
    decreases |x| - i
  {
    if i == |x| {
    } else if q == Outside && IsWord(x[i]) {
      var e := WordEnd(x, i);
      OutputIsClean(x, e, Outside);
      AfterWordOutput(x, e);
      JsonWordKeepsWords(x[i..e]);
      CleanWord(JsonWord(x[i..e]), NormalizedFrom(x, e, Outside));
      WritesWord(x, i);
    } else {
      var s := StepAt(x, i, q);
      if s.Step? {
        OutputIsClean(x, s.next, s.quote);
        CleanStep(x, i, q);
      }
    }
  }

  lemma {:induction false} CleanStep(x: string, i: nat, q: Quote)
    requires i < |x| && (q == Outside ==> !IsWord(x[i])) && StepAt(x, i, q).Step?
    requires var s := StepAt(x, i, q);
             Clean(NormalizedFrom(x, s.next, s.quote), s.quote != Outside, s.quote == Outside && !WordStart(x, s.next))
    ensures Clean(NormalizedFrom(x, i, q), q != Outside, q == Outside && !WordStart(x, i))
  {
    var s := StepAt(x, i, q);
    var rest := NormalizedFrom(x, s.next, s.quote);
    if q == Outside {
      CleanOutsideStep(x, i, rest, !WordStart(x, i));
    } else {
      assert s.quote == Outside ==> WordStart(x, s.next);
      CleanStringStep(x, i, q, rest);
    }
  }

  /** Main theorem: normalising is idempotent on every input, and what it leaves unchanged is
      exactly the text that is already JSON at scanner level. */
  lemma NormalizeIsIdempotent(x: string)
    ensures Normalized(Normalized(x)) == Normalized(x)
    ensures Normalized(x) == x <==> Clean(x, false, false)
  {
    OutputIsClean(x, 0, Outside);
    KeepsClean(Normalized(x), 0, false);
    if Clean(x, false, false) {
      assert x[0..] == x;
      KeepsClean(x, 0, false);
    }
  }
}
