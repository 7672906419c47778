/**
  What trimming leaves: the results of the trimming functions, described by what was taken
  off at either end.
 */
module PegTrim {
  import opened Text
  import opened PegMapper

  /** `isspace` in the C locale, one character at a time. */
  predicate IsBlankOrBreak(c: char) {
    c == ' ' || c == '\t' || c == '\n' || c == '\U{b}' || c == '\U{c}' || c == '\r'
  }

  predicate AllSpace(s: string) {
    forall i :: 0 <= i < |s| ==> IsBlankOrBreak(s[i])
  }

  /** `off` is all the white space that may come off the end of `kept + off`: at most `most`
      characters, or any number when `most` is negative, and fewer only if nothing is left. */
  predicate TakenOffEnd(kept: string, off: string, most: int) {
    && AllSpace(off)
    && (most >= 0 ==> |off| <= most)
    && (|off| == most || kept == "" || !IsBlankOrBreak(kept[|kept| - 1]))
  }

  predicate TakenOffStart(off: string, kept: string, most: int) {
    && AllSpace(off)
    && (most >= 0 ==> |off| <= most)
    && (|off| == most || kept == "" || !IsBlankOrBreak(kept[0]))
  }

  lemma {:induction false} TrimTrailingTakes(s: string, most: int) returns (off: string)
    ensures s == TrimTrailing(s, most) + off && TakenOffEnd(TrimTrailing(s, most), off, most)
    decreases |s|
  {
    if s != "" && IsSpace(s[|s| - 1]) && most != 0 {
      var less := TrimTrailingTakes(s[..|s| - 1], most - 1);
      off := less + [s[|s| - 1]];
      assert s == s[..|s| - 1] + [s[|s| - 1]];
      assert s == TrimTrailing(s, most) + off;
    } else {
      off := "";
    }
  }

  lemma {:induction false} TrimLeadingTakes(s: string, most: int) returns (off: string)
    ensures s == off + TrimLeading(s, most) && TakenOffStart(off, TrimLeading(s, most), most)
    decreases |s|
  {
    if s != "" && IsSpace(s[0]) && most != 0 {
      var less := TrimLeadingTakes(s[1..], most - 1);
      off := [s[0]] + less;
      assert s == [s[0]] + s[1..];
      assert s == off + TrimLeading(s, most);
    } else {
      off := "";
    }
  }

  lemma ThreeParts(s: string, lead: string, t: string, v: string, trail: string)
    requires s == lead + t && t == v + trail
    ensures s == lead + v + trail && t == v + trail
  {
  }

  /** An argument name loses one leading space and all trailing ones. */
  lemma NameIsTrimmed(s: string) returns (lead: string, trail: string)
    ensures s == lead + TrimName(s) + trail
    ensures TakenOffStart(lead, TrimName(s) + trail, 1) && TakenOffEnd(TrimName(s), trail, ALL)
  {
    lead := TrimLeadingTakes(s, 1);
    trail := TrimTrailingTakes(TrimLeading(s, 1), ALL);
    ThreeParts(s, lead, TrimLeading(s, 1), TrimName(s), trail);
  }

  /** A Python-like value loses one space at either end. */
  lemma ValueIsTrimmed(s: string) returns (lead: string, trail: string)
    ensures s == lead + TrimValue(s) + trail
    ensures TakenOffStart(lead, TrimValue(s) + trail, 1) && TakenOffEnd(TrimValue(s), trail, 1)
  {
    lead := TrimLeadingTakes(s, 1);
    trail := TrimTrailingTakes(TrimLeading(s, 1), 1);
    ThreeParts(s, lead, TrimLeading(s, 1), TrimValue(s), trail);
  }

  predicate IsBreak(s: string) {
    s == "\n" || s == "\r\n"
  }

  predicate LastIs(s: string, c: char) {
    s != "" && s[|s| - 1] == c
  }

  lemma BreakAtStart(s: string) returns (lead: string, t: string)
    ensures s == lead + t && t == if "\r\n" <= s then s[2..] else if "\n" <= s then s[1..] else s
    ensures lead == "" || IsBreak(lead)
    ensures lead == "" ==> !("\n" <= s) && !("\r\n" <= s)
  {
    t := if "\r\n" <= s then s[2..] else if "\n" <= s then s[1..] else s;
    lead := s[..|s| - |t|];
  }

  lemma BreakAtEnd(t: string) returns (v: string, trail: string)
    ensures t == v + trail
    ensures v == if 2 <= |t| && t[|t| - 2..] == "\r\n" then t[..|t| - 2] else if t != "" && t[|t| - 1] == '\n' then t[..|t| - 1] else t
    ensures trail == "" || IsBreak(trail)
    ensures trail == "" ==> !LastIs(v, '\n')
    ensures trail == "\n" ==> !LastIs(v, '\r')
  {
    if 2 <= |t| && t[|t| - 2] == '\r' && t[|t| - 1] == '\n' {
      v, trail := t[..|t| - 2], "\r\n";
      assert t[|t| - 2..] == "\r\n";
    } else {
      assert 2 <= |t| ==> t[|t| - 2..][0] == t[|t| - 2] && t[|t| - 2..][1] == t[|t| - 1];
      if t != "" && t[|t| - 1] == '\n' {
        v, trail := t[..|t| - 1], "\n";
      } else {
        v, trail := t, "";
      }
    }
  }

  lemma OneNewlineIs(s: string, t: string, v: string)
    requires t == if "\r\n" <= s then s[2..] else if "\n" <= s then s[1..] else s
    requires v == if 2 <= |t| && t[|t| - 2..] == "\r\n" then t[..|t| - 2] else if t != "" && t[|t| - 1] == '\n' then t[..|t| - 1] else t
    ensures TrimOneNewline(s) == v
  {
  }

  /** A declared string loses one line break at either end, and nothing else: no break is left
      where none was taken, and a carriage return goes with its line feed. */
  lemma StringIsTrimmed(s: string) returns (lead: string, trail: string)
    ensures s == lead + TrimOneNewline(s) + trail
    ensures lead == "" || IsBreak(lead)
    ensures lead == "" ==> !("\n" <= s) && !("\r\n" <= s)
    ensures trail == "" || IsBreak(trail)
    ensures trail == "" ==> !LastIs(TrimOneNewline(s), '\n')
    ensures trail == "\n" ==> !LastIs(TrimOneNewline(s), '\r')
  {
    var t, v;
    lead, t := BreakAtStart(s);
    v, trail := BreakAtEnd(t);
    OneNewlineIs(s, t, v);
    ThreeParts(s, lead, t, v, trail);
  }
}
