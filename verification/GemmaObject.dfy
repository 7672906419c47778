/**
  The arguments that a complete tree of the gemma4 grammar prints, read back as an object: the
  keys are the raw key names and the values the denoted values, in order.
 */
module GemmaObject {
  import opened JsonText
  import opened JsonObject
  import opened GemmaPrinter

  /** A token sequence that leads from bracket depth `d` to `e` without ending a value. */
  predicate Passes(ts: seq<Tok>, d: nat, e: nat)
    decreases |ts|
  {
    if ts == [] then d == e else !Stops(ts[0], d) && Passes(ts[1..], Nest(ts[0], d), e)
  }

  lemma {:induction false} PassesConcat(a: seq<Tok>, b: seq<Tok>, d: nat, e: nat, f: nat)
    requires Passes(a, d, e) && Passes(b, e, f)
    ensures Passes(a + b, d, f)
    decreases |a|
  {
    if a == [] {
      assert a + b == b;
    } else {
      assert (a + b)[1..] == a[1..] + b;
      PassesConcat(a[1..], b, Nest(a[0], d), e, f);
    }
  }

  lemma {:induction false} PassesStays(ts: seq<Tok>, d: nat)
    requires Passes(ts, d, 0)
    ensures Stays(ts, d)
    decreases |ts|
  {
    if ts != [] {
      PassesStays(ts[1..], Nest(ts[0], d));
    }
  }

  lemma PassesOne(t: Tok, d: nat)
    requires !Stops(t, d)
    ensures Passes([t], d, Nest(t, d))
  {
    assert [t][1..] == [];
  }

  /** Text that no bracket or comma interrupts. */
  predicate Atomic(text: string) {
    Plain(text) && '[' !in text && ']' !in text && ',' !in text
  }

  lemma {:induction false} AtomPasses(s: string, d: nat)
    requires Atomic(s)
    ensures Passes(Outs(s), d, d)
  {
    if s != "" {
      AtomPasses(s[1..], d);
      assert Outs(s)[1..] == Outs(s[1..]);
    }
  }

  lemma {:induction false} CharsPass(s: string, d: nat)
    ensures Passes(Chars(s), d, d)
  {
    if s != "" {
      CharsPass(s[1..], d);
      assert Chars(s)[1..] == Chars(s[1..]);
    }
  }

  lemma StringPasses(s: string, d: nat)
    ensures Passes(StringToks(s), d, d)
  {
    CharsPass(s, d);
    PassesOne(Open, d);
    PassesOne(Close, d);
    PassesConcat([Open], Chars(s), d, d, d);
    PassesConcat([Open] + Chars(s), [Close], d, d, d);
  }

  // -------------------------------------------------------------------- trees of the grammar

  predicate IsValueRule(rule: Rule) {
    rule.StringValue? || rule.Array? || rule.Dict? || IsScalar(rule)
  }

  /** A tree with the children that the grammar gives every node: a dictionary has entries, an
      entry a key and a value, a value one of the six kinds. */
  predicate Shaped(n: Node)
    decreases n
  {
    match n.rule
    case Array => forall i :: 0 <= i < |n.children| ==> n.children[i].rule.Value? && Shaped(n.children[i])
    case Dict => forall i :: 0 <= i < |n.children| ==> n.children[i].rule.KeyValue? && Shaped(n.children[i])
    case KeyValue => |n.children| == 2 && n.children[0].rule.Key? && n.children[1].rule.Value? && Shaped(n.children[1])
    case Value => |n.children| == 1 && IsValueRule(n.children[0].rule) && Shaped(n.children[0])
    case _ => IsScalar(n.rule) ==> Atomic(n.text)
  }

  lemma {:induction false} ListPasses(n: Node, k: nat, d: nat)
    requires k <= |n.children| && Complete(n) && Shaped(n) && (n.rule.Array? || n.rule.Dict?)
    ensures Passes(ChildTokens(n, k, true), d + 1, d + 1)
    decreases n, k
  {
    if k > 0 {
      var before, child := ChildTokens(n, k - 1, true), n.children[k - 1];
      ListPasses(n, k - 1, d);
      TokensPass(child, d + 1);
      if k > 1 {
        PassesOne(Out(','), d + 1);
        PassesConcat(before, [Out(',')], d + 1, d + 1, d + 1);
        PassesConcat(before + [Out(',')], Tokens(child), d + 1, d + 1, d + 1);
      } else {
        assert before + [] == before;
        PassesConcat(before, Tokens(child), d + 1, d + 1, d + 1);
      }
    }
  }

  lemma BracketsPass(open: char, ts: seq<Tok>, close: char, d: nat)
    requires Passes(ts, d + 1, d + 1) && ((open == '[' && close == ']') || (open == '{' && close == '}'))
    ensures Passes([Out(open)] + ts + [Out(close)], d, d)
  {
    PassesOne(Out(open), d);
    PassesOne(Out(close), d + 1);
    PassesConcat([Out(open)], ts, d, d + 1, d + 1);
    PassesConcat([Out(open)] + ts, [Out(close)], d, d + 1, d);
  }

  lemma KeyPasses(n: Node, d: nat)
    requires n.rule.Key?
    ensures Passes(Tokens(n), d, d)
  {
    var name := if n.children == [] then "" else n.children[0].text;
    StringPasses(name, d);
    PassesOne(Out(':'), d);
    PassesConcat(StringToks(name), [Out(':')], d, d, d);
  }

  lemma EntryTokens(n: Node)
    requires n.rule.KeyValue? && |n.children| == 2
    ensures Tokens(n) == Tokens(n.children[0]) + Tokens(n.children[1])
  {
    assert ChildTokens(n, 0, false) + [] + Tokens(n.children[0]) == Tokens(n.children[0]);
    assert ChildTokens(n, 1, false) == Tokens(n.children[0]);
    assert ChildTokens(n, 1, false) + [] == ChildTokens(n, 1, false);
  }

  /** The tokens of an entry or a value close all their brackets and hold no comma outside. */
  lemma {:induction false} TokensPass(n: Node, d: nat)
    requires Complete(n) && Shaped(n)
    ensures Passes(Tokens(n), d, d)
    decreases n, |n.children| + 1
  {
    match n.rule
    case StringValue =>
      StringPasses(if n.children == [] then "" else n.children[0].text, d);
    case Key =>
      KeyPasses(n, d);
    case Array =>
      ListPasses(n, |n.children|, d);
      BracketsPass('[', ChildTokens(n, |n.children|, true), ']', d);
    case Dict =>
      ListPasses(n, |n.children|, d);
      BracketsPass('{', ChildTokens(n, |n.children|, true), '}', d);
    case KeyValue =>
      EntryTokens(n);
      KeyPasses(n.children[0], d);
      TokensPass(n.children[1], d);
      PassesConcat(Tokens(n.children[0]), Tokens(n.children[1]), d, d, d);
    case Value =>
      TokensPass(n.children[0], d);
    case _ =>
      if IsScalar(n.rule) {
        AtomPasses(n.text, d);
      }
  }

  // ------------------------------------------------------------------------ reading back

  /** An entry of a dictionary: its raw key name and what its value denotes. */
  function MemberOf(n: Node): Member
    requires |n.children| == 2 && n.children[0].children != []
  {
    Member(Codes(Chars(n.children[0].children[0].text)), Tokens(n.children[1]))
  }

  predicate HasEntries(n: Node, k: nat) {
    k <= |n.children| && forall i :: 0 <= i < k ==> |n.children[i].children| == 2 && n.children[i].children[0].children != []
  }

  function MembersOf(n: Node, k: nat): (ms: seq<Member>)
    requires HasEntries(n, k)
    ensures |ms| == k && forall i :: 0 <= i < k ==> ms[i] == MemberOf(n.children[i])
  {
    seq(k, i requires 0 <= i < k => MemberOf(n.children[i]))
  }

  lemma ValueIsSelfContained(n: Node)
    requires Complete(n) && Shaped(n) && n.rule.Value?
    ensures SelfContained(Tokens(n))
  {
    CompleteReads(n);
    TokensPass(n, 0);
    PassesStays(Tokens(n), 0);
    ValueNonempty(n);
  }

  lemma ValueNonempty(n: Node)
    requires Complete(n) && Shaped(n) && n.rule.Value?
    ensures Tokens(n) != []
  {
    var v := n.children[0];
    assert Tokens(n) == Tokens(v);
    if IsScalar(v.rule) {
      assert |Outs(v.text)| > 0;
    }
  }

  lemma EntryIsMember(n: Node)
    requires Complete(n) && Shaped(n) && n.rule.KeyValue?
    ensures n.children[0].children != []
    ensures Tokens(n) == MemberToks(MemberOf(n)) && SelfContained(MemberOf(n).value)
  {
    var key, name := n.children[0], n.children[0].children[0].text;
    EntryTokens(n);
    ValueIsSelfContained(n.children[1]);
    assert CharToks(Codes(Chars(name))) == Chars(name);
    KeyTokens(Chars(name), Tokens(n.children[1]));
  }

  lemma KeyTokens(chars: seq<Tok>, value: seq<Tok>)
    ensures ([Open] + chars + [Close]) + [Out(':')] + value == [Open] + chars + [Close, Out(':')] + value
  {
  }

  lemma LastMember(n: Node, k: nat)
    requires k > 0 && HasEntries(n, k)
    ensures MembersOf(n, k) == MembersOf(n, k - 1) + [MemberOf(n.children[k - 1])]
  {
  }

  lemma DictEntry(n: Node, i: nat)
    requires Complete(n) && Shaped(n) && n.rule.Dict? && i < |n.children|
    ensures n.children[i].rule.KeyValue? && Complete(n.children[i]) && Shaped(n.children[i])
    ensures |n.children[i].children| == 2 && n.children[i].children[0].children != []
  {
    EntryIsMember(n.children[i]);
  }

  lemma AllEntries(n: Node)
    requires Complete(n) && Shaped(n) && n.rule.Dict?
    ensures HasEntries(n, |n.children|) && Writable(MembersOf(n, |n.children|))
  {
    forall i | 0 <= i < |n.children|
      ensures |n.children[i].children| == 2 && n.children[i].children[0].children != []
      ensures SelfContained(MemberOf(n.children[i]).value)
    {
      DictEntry(n, i);
      EntryIsMember(n.children[i]);
    }
  }

  lemma {:induction false} EntriesAreMembers(n: Node, k: nat)
    requires k <= |n.children| && HasEntries(n, k)
    requires forall i :: 0 <= i < k ==> Tokens(n.children[i]) == MemberToks(MemberOf(n.children[i]))
    ensures ChildTokens(n, k, true) == MembersToks(MembersOf(n, k))
  {
    if k > 0 {
      EntriesAreMembers(n, k - 1);
      LastMember(n, k);
      MembersToksLast(MembersOf(n, k - 1), MemberOf(n.children[k - 1]));
    }
  }

  lemma DictTokens(n: Node)
    requires Complete(n) && Shaped(n) && n.rule.Dict? && HasEntries(n, |n.children|)
    ensures Tokens(n) == [Out('{')] + MembersToks(MembersOf(n, |n.children|)) + [Out('}')]
  {
    forall i | 0 <= i < |n.children|
      ensures Tokens(n.children[i]) == MemberToks(MemberOf(n.children[i]))
    {
      DictEntry(n, i);
      EntryIsMember(n.children[i]);
    }
    EntriesAreMembers(n, |n.children|);
  }

  lemma {:induction false} MembersToksLast(ms: seq<Member>, m: Member)
    ensures MembersToks(ms + [m]) == MembersToks(ms) + (if |ms| > 0 then [Out(',')] else []) + MemberToks(m)
  {
    if |ms| == 0 {
      assert ms + [m] == [m];
      assert [] + [] + MemberToks(m) == MemberToks(m);
    } else {
      assert (ms + [m])[0] == ms[0] && (ms + [m])[1..] == ms[1..] + [m];
      MembersToksLast(ms[1..], m);
      if |ms| > 1 {
        RegroupTail(MemberToks(ms[0]), MembersToks(ms[1..]), MemberToks(m));
      } else {
        assert MembersToks(ms[1..]) + [] + MemberToks(m) == MemberToks(m);
      }
    }
  }

  lemma RegroupTail(a: seq<Tok>, b: seq<Tok>, c: seq<Tok>)
    ensures a + [Out(',')] + (b + [Out(',')] + c) == (a + [Out(',')] + b) + [Out(',')] + c
  {
  }

  /** Main theorem: the arguments text of a complete tree of the grammar is an object with
      exactly the keys and values of the tree, in order. */
  lemma DictReadsBack(n: Node)
    requires Complete(n) && Shaped(n) && n.rule.Dict?
    ensures HasEntries(n, |n.children|)
    ensures ParseObject(Scan(ToJson(n), false)) == Object(MembersOf(n, |n.children|))
  {
    AllEntries(n);
    DictTokens(n);
    CompleteReads(n);
    ObjectParses(MembersOf(n, |n.children|));
  }
}
