/**
  Streaming: the tool-call text arrives piece by piece and every piece is normalised again
  from the start.  The client is sent what the new output adds to the old one, so the output
  for a shorter input must be a prefix of the output for a longer one.

  That holds for exactly the inputs whose bare words beginning with T, F or N spell (a prefix
  of) a Python literal.
 */
module PyStreaming {
  import opened Text
  import opened JsonText
  import opened PyQuotes

  /** Every bare word from position `i` on that begins with T, F or N begins a literal. */
  predicate WordsSpellLiterals(x: string, i: nat, q: Quote)
    requires i <= |x|
    decreases |x| - i
  {
    if i == |x| then true
    else if q == Outside && IsWord(x[i]) then
      && (StartsLiteral(x[i]) ==> IsLiteral(x[i..WordEnd(x, i)]))
      && WordsSpellLiterals(x, WordEnd(x, i), Outside)
    else
      match StepAt(x, i, q)
      case Wait => true
      case Step(_, next, q') => WordsSpellLiterals(x, next, q')
  }

  /** However the text is cut, more input only appends to the output. */
  ghost predicate StreamsMonotonically(x: string) {
    forall j, k :: 0 <= j <= k <= |x| ==> Normalized(x[..j]) <= Normalized(x[..k])
  }

  // ------------------------------------------------------------------ cutting the input

  lemma {:induction false} CutWordEnd(x: string, i: nat, k: nat)
    requires i <= k <= |x|
    ensures WordEnd(x[..k], i) == if WordEnd(x, i) <= k then WordEnd(x, i) else k
    decreases k - i
  {
    if i < k && IsWord(x[i]) {
      CutWordEnd(x, i + 1, k);
    }
  }

  lemma {:induction false} CutHexRun(x: string, i: nat, k: nat, most: nat)
    requires i <= k <= |x|
    ensures var n := HexRun(x, i, most);
            HexRun(x[..k], i, most) == if i + n <= k then n else k - i
    decreases most
  {
    if most > 0 && i < k && IsHex(x[i]) {
      CutHexRun(x, i + 1, k, most - 1);
    }
  }

  /** A step on the cut input is the step on the whole input, or it waits for more. */
  lemma CutStep(x: string, i: nat, q: Quote, k: nat)
    requires i < k <= |x| && (q == Outside ==> !IsWord(x[i]))
    ensures StepAt(x[..k], i, q) == StepAt(x, i, q) || StepAt(x[..k], i, q) == Wait
  {
    if x[i] == '\\' && i + 1 < k {
      CutHexRun(x, i + 2, k, 4);
      if i + 6 <= k {
        assert x[..k][i..i + 6] == x[i..i + 6];
      }
    }
  }

  lemma CutWord(x: string, i: nat, k: nat)
    requires i <= |x| && WordEnd(x, i) <= k <= |x|
    ensures WordEnd(x[..k], i) == WordEnd(x, i)
    ensures x[..k][i..WordEnd(x, i)] == x[i..WordEnd(x, i)]
  {
    CutWordEnd(x, i, k);
    CutSlice(x, i, WordEnd(x, i), k);
  }

  // ---------------------------------------------------------------- literals and prefixes

  lemma JsonWordMonotone(v: string, w: string)
    requires v != "" && v <= w && (StartsLiteral(w[0]) ==> IsLiteral(w))
    ensures JsonWord(v) <= JsonWord(w)
  {
    if IsLiteral(w) {
      assert v[0] == w[0];
    } else {
      assert !IsLiteral(v);
    }
  }

  lemma LetterSpelling(c: char)
    requires StartsLiteral(c)
    ensures IsLiteral([c]) && JsonLiteral([c])[0] != c
  {
  }

  lemma WordFirst(x: string, i: nat)
    requires i < |x| && WordStart(x, i) && IsWord(x[i])
    ensures var w := JsonWord(x[i..WordEnd(x, i)]); w != "" && NormalizedFrom(x, i, Outside) != "" && NormalizedFrom(x, i, Outside)[0] == w[0]
  {
    WritesWord(x, i);
    assert x[i..WordEnd(x, i)] != "";
  }

  lemma CutToLetter(x: string, i: nat)
    requires i < |x| && IsWord(x[i])
    ensures WordEnd(x[..i + 1], i) == i + 1 && x[..i + 1][i..i + 1] == [x[i]]
  {
    CutWordEnd(x, i, i + 1);
  }

  /** The first letter of a word that begins no literal is written as it stands; cut after
      that letter, the input is written with the lower-case letter of the JSON literal. */
  lemma FirstLetterDiffers(x: string, i: nat)
    requires i < |x| && WordStart(x, i) && StartsLiteral(x[i]) && !IsLiteral(x[i..WordEnd(x, i)])
    ensures !(NormalizedFrom(x[..i + 1], i, Outside) <= NormalizedFrom(x, i, Outside))
  {
    CutToLetter(x, i);
    WordFirst(x, i);
    WordFirst(x[..i + 1], i);
    LetterSpelling(x[i]);
    assert x[i..WordEnd(x, i)][0] == x[i];
  }

  // -------------------------------------------------------------------- the two directions

  lemma CutSlice(x: string, i: nat, e: nat, k: nat)
    requires i <= e <= |x| && i <= k <= |x|
    ensures e <= k ==> x[..k][i..e] == x[i..e]
    ensures k <= e ==> x[..k][i..k] <= x[i..e]
  {
  }

  lemma {:induction false} CutKeepsWords(x: string, i: nat, q: Quote, k: nat)
    requires i <= k <= |x| && WordsSpellLiterals(x, i, q)
    ensures WordsSpellLiterals(x[..k], i, q)
    decreases |x| - i
  {
    var p := x[..k];
    if i < k {
      if q == Outside && IsWord(x[i]) {
        var e := WordEnd(x, i);
        CutSlice(x, i, e, k);
        CutWordEnd(x, i, k);
        if e <= k {
          CutKeepsWords(x, e, Outside, k);
        }
      } else {
        CutStep(x, i, q, k);
        var s := StepAt(p, i, q);
        if s.Step? {
          CutKeepsWords(x, s.next, s.quote, k);
        }
      }
    }
  }

  lemma MonotoneWord(x: string, i: nat, k: nat)
    requires i < k <= |x| && WordStart(x, i) && IsWord(x[i])
    requires StartsLiteral(x[i]) ==> IsLiteral(x[i..WordEnd(x, i)])
    requires var e := WordEnd(x, i);
             e <= k ==> NormalizedFrom(x[..k], e, Outside) <= NormalizedFrom(x, e, Outside)
    ensures NormalizedFrom(x[..k], i, Outside) <= NormalizedFrom(x, i, Outside)
  {
    var p, e := x[..k], WordEnd(x, i);
    WritesWord(x, i);
    if e <= k {
      WritesWordCut(x, i, k);
      SamePrefix(JsonWord(x[i..e]), NormalizedFrom(p, e, Outside), NormalizedFrom(x, e, Outside));
    } else {
      WritesCutWord(x, i, k);
      CutWordMonotone(x, i, k, e);
    }
  }

  lemma CutWordMonotone(x: string, i: nat, k: nat, e: nat)
    requires i < k <= e <= |x| && (StartsLiteral(x[i]) ==> IsLiteral(x[i..e]))
    ensures JsonWord(x[i..k]) <= JsonWord(x[i..e])
  {
    assert x[i..k] <= x[i..e] && x[i..e][0] == x[i];
    JsonWordMonotone(x[i..k], x[i..e]);
  }

  lemma WritesWordCut(x: string, i: nat, k: nat)
    requires i < |x| && WordStart(x, i) && IsWord(x[i]) && WordEnd(x, i) <= k <= |x|
    ensures NormalizedFrom(x[..k], i, Outside)
            == JsonWord(x[i..WordEnd(x, i)]) + NormalizedFrom(x[..k], WordEnd(x, i), Outside)
  {
    CutWord(x, i, k);
    WritesWord(x[..k], i);
  }

  lemma WritesCutWord(x: string, i: nat, k: nat)
    requires i < k <= |x| && WordStart(x, i) && IsWord(x[i]) && k < WordEnd(x, i)
    ensures NormalizedFrom(x[..k], i, Outside) == JsonWord(x[i..k])
  {
    CutWordEnd(x, i, k);
    WritesWord(x[..k], i);
    assert x[..k][i..k] == x[i..k];
    assert JsonWord(x[i..k]) + "" == JsonWord(x[i..k]);
  }

  lemma {:induction false} MonotoneFrom(x: string, i: nat, q: Quote, k: nat)
    requires i <= k <= |x| && WordsSpellLiterals(x, i, q) && (q == Outside ==> Boundary(x, i))
    ensures NormalizedFrom(x[..k], i, q) <= NormalizedFrom(x, i, q)
    decreases |x| - i
  {
    var p := x[..k];
    if i < k {
      if q == Outside && IsWord(x[i]) {
        if WordEnd(x, i) <= k {
          MonotoneFrom(x, WordEnd(x, i), Outside, k);
        }
        MonotoneWord(x, i, k);
      } else {
        CutStep(x, i, q, k);
        var s := StepAt(p, i, q);
        if s.Step? {
          MonotoneFrom(x, s.next, s.quote, k);
          SamePrefix(s.out, NormalizedFrom(p, s.next, s.quote), NormalizedFrom(x, s.next, s.quote));
        }
      }
    }
  }

  /** Inside a string hexadecimal digits are copied. */
  lemma {:induction false} CopiesHex(x: string, i: nat, k: nat, q: Quote)
    requires i <= k <= |x| && AllHex(x[i..k]) && q != Outside
    ensures NormalizedFrom(x, i, q) == x[i..k] + NormalizedFrom(x, k, q)
    decreases k - i
  {
    if i < k {
      assert IsHex(x[i..k][0]) && x[i + 1..k] == x[i..k][1..];
      CopiesHex(x, i + 1, k, q);
      assert StepAt(x, i, q) == Step([x[i]], i + 1, q);
      ConcatFirst(x, i, k, NormalizedFrom(x, k, q));
    }
  }

  lemma WaitsInEscape(x: string, i: nat, q: Quote, k: nat)
    requires i < k <= |x| && StepAt(x, i, q).Step? && StepAt(x, i, q).next < k && StepAt(x[..k], i, q) == Wait
    ensures q != Outside && x[i] == '\\' && i + 2 < k && x[i + 1] == 'u'
    ensures StepAt(x, i, q) == EscapeStep(x, i, q) && EscapeStep(x[..k], i, q) == Wait
  {
  }

  lemma WaitsAtHex(x: string, i: nat, q: Quote, k: nat)
    requires i < k <= |x| && StepAt(x, i, q).Step? && StepAt(x, i, q).next < k && StepAt(x[..k], i, q) == Wait
    ensures q != Outside && StepAt(x, i, q).next == i + 2 && StepAt(x, i, q).quote == q
    ensures AllHex(x[i + 2..k])
  {
    WaitsInEscape(x, i, q, k);
    WaitingEscape(x, i, q, k);
  }

  lemma WaitingEscape(x: string, i: nat, q: Quote, k: nat)
    requires i + 2 < k <= |x| && q != Outside && x[i] == '\\' && x[i + 1] == 'u'
    requires EscapeStep(x[..k], i, q) == Wait && EscapeStep(x, i, q).Step? && EscapeStep(x, i, q).next < k
    ensures EscapeStep(x, i, q).next == i + 2 && EscapeStep(x, i, q).quote == q && AllHex(x[i + 2..k])
  {
    CutHexRun(x, i + 2, k, 4);
    CutSlice(x, i + 2, k, k);
  }

  lemma CutInsideHex(x: string, n: nat, k: nat, q: Quote)
    requires n <= k <= |x| && AllHex(x[n..k]) && q != Outside
    ensures NormalizedFrom(x[..k], n, q) <= NormalizedFrom(x, n, q)
  {
    assert x[..k][n..k] == x[n..k];
    CopiesHex(x[..k], n, k, q);
    CopiesHex(x, n, k, q);
    assert x[n..k] + "" == x[n..k];
  }

  lemma BreaksAfterWord(x: string, i: nat, k: nat)
    requires i < |x| && WordStart(x, i) && IsWord(x[i]) && WordEnd(x, i) < k <= |x|
    requires !(NormalizedFrom(x[..k], WordEnd(x, i), Outside) <= NormalizedFrom(x, WordEnd(x, i), Outside))
    ensures !(NormalizedFrom(x[..k], i, Outside) <= NormalizedFrom(x, i, Outside))
  {
    var e := WordEnd(x, i);
    CutWord(x, i, k);
    WritesWord(x, i);
    WritesWord(x[..k], i);
    SamePrefix(JsonWord(x[i..e]), NormalizedFrom(x[..k], e, Outside), NormalizedFrom(x, e, Outside));
  }

  lemma BreaksAfterStep(x: string, i: nat, q: Quote, k: nat)
    requires i < k <= |x| && StepAt(x, i, q).Step? && StepAt(x[..k], i, q) == StepAt(x, i, q)
    requires var s := StepAt(x, i, q);
             !(NormalizedFrom(x[..k], s.next, s.quote) <= NormalizedFrom(x, s.next, s.quote))
    ensures !(NormalizedFrom(x[..k], i, q) <= NormalizedFrom(x, i, q))
  {
    var s := StepAt(x, i, q);
    SamePrefix(s.out, NormalizedFrom(x[..k], s.next, s.quote), NormalizedFrom(x, s.next, s.quote));
  }

  /** A cut inside the step takes nothing back: it waits among the digits of a `\u` that turns
      out to be incomplete, and digits are copied as they stand. */
  lemma WaitingCutKeeps(x: string, i: nat, q: Quote, k: nat, next: nat)
    requires i < k <= |x| && StepAt(x, i, q).Step? && next == StepAt(x, i, q).next < k && StepAt(x[..k], i, q) == Wait
    ensures StepAt(x, i, q).quote == q && NormalizedFrom(x[..k], next, q) <= NormalizedFrom(x, next, q)
  {
    WaitsAtHex(x, i, q, k);
    CutInsideHex(x, next, k, q);
  }

  lemma BreaksAtStep(x: string, i: nat, q: Quote, k: nat)
    requires i < |x| && (q == Outside ==> !IsWord(x[i])) && StepAt(x, i, q).Step? && StepAt(x, i, q).next < k <= |x|
    requires var s := StepAt(x, i, q); !(NormalizedFrom(x[..k], s.next, s.quote) <= NormalizedFrom(x, s.next, s.quote))
    ensures !(NormalizedFrom(x[..k], i, q) <= NormalizedFrom(x, i, q))
  {
    CutStep(x, i, q, k);
    if StepAt(x[..k], i, q) == Wait {
      WaitingCutKeeps(x, i, q, k, StepAt(x, i, q).next);
    } else {
      BreaksAfterStep(x, i, q, k);
    }
  }

  /** Where a bare word begins no literal, some cut is not extended by the whole output. */
  lemma {:induction false} BreaksFrom(x: string, i: nat, q: Quote) returns (k: nat)
    requires i <= |x| && !WordsSpellLiterals(x, i, q) && (q == Outside ==> Boundary(x, i))
    ensures i < k <= |x| && !(NormalizedFrom(x[..k], i, q) <= NormalizedFrom(x, i, q))
    decreases |x| - i
  {
    if q == Outside && IsWord(x[i]) {
      var e := WordEnd(x, i);
      if StartsLiteral(x[i]) && !IsLiteral(x[i..e]) {
        k := i + 1;
        FirstLetterDiffers(x, i);
      } else {
        k := BreaksFrom(x, e, Outside);
        BreaksAfterWord(x, i, k);
      }
    } else {
      var s := StepAt(x, i, q);
      k := BreaksFrom(x, s.next, s.quote);
      BreaksAtStep(x, i, q, k);
    }
  }

  lemma SamePrefix(a: string, u: string, v: string)
    ensures a + u <= a + v <==> u <= v
  {
    if a + u <= a + v {
      assert forall n :: 0 <= n < |u| ==> u[n] == (a + u)[|a| + n] == (a + v)[|a| + n] == v[n];
    }
  }

  /** Main theorem: an input can be streamed exactly when its bare words beginning with T, F
      or N spell literals. */
  lemma StreamsExactlyWhenWordsSpellLiterals(x: string)
    ensures StreamsMonotonically(x) <==> WordsSpellLiterals(x, 0, Outside)
  {
    if WordsSpellLiterals(x, 0, Outside) {
      forall j, k | 0 <= j <= k <= |x|
        ensures Normalized(x[..j]) <= Normalized(x[..k])
      {
        CutKeepsWords(x, 0, Outside, k);
        MonotoneFrom(x[..k], 0, Outside, j);
        assert x[..k][..j] == x[..j];
      }
    } else {
      var k := BreaksFrom(x, 0, Outside);
      assert x[..|x|] == x;
      assert !(Normalized(x[..k]) <= Normalized(x[..|x|]));
    }
  }

  /** The word `Try` streams as `t`, `tr` and then `Try`. */
  lemma TryIsTakenBack()
    ensures Normalized("T") == "t" && Normalized("Tr") == "tr" && Normalized("Try") == "Try"
    ensures !WordsSpellLiterals("Try", 0, Outside)
  {
    OneWord("T");
    OneWord("Tr");
    OneWord("Try");
    LiteralPrefix("T");
    LiteralPrefix("Tr");
    TryIsNoLiteral();
    assert "Try"[0..3] == "Try";
  }

  lemma LiteralPrefix(w: string)
    requires w == "T" || w == "Tr"
    ensures JsonWord(w) == "true"[..|w|]
  {
    assert w <= "True";
  }

  lemma TryIsNoLiteral()
    ensures !IsLiteral("Try")
  {
    assert "Try"[2] != "True"[2] && "Try"[0] != "False"[0] && "Try"[0] != "None"[0];
  }

  lemma OneWord(w: string)
    requires w != "" && forall i :: 0 <= i < |w| ==> IsWord(w[i])
    ensures WordEnd(w, 0) == |w| && Normalized(w) == JsonWord(w)
  {
    WritesWord(w, 0);
    assert w[0..|w|] == w;
    assert NormalizedFrom(w, |w|, Outside) == "";
  }
}
