/**
  Reading scanned text as a JSON object: its members in order, each a decoded key and the
  tokens of its value.
 */
module JsonObject {
  import opened JsonText

  datatype Member = Member(key: seq<nat>, value: seq<Tok>)
  datatype Parsed = NoObject | Object(members: seq<Member>)

  /** How many string characters come first. */
  function CharRun(ts: seq<Tok>): (n: nat)
    ensures n <= |ts| && (forall i :: 0 <= i < n ==> ts[i].Ch?) && (n < |ts| ==> !ts[n].Ch?)
  {
    if ts != [] && ts[0].Ch? then 1 + CharRun(ts[1..]) else 0
  }

  function Codes(ts: seq<Tok>): (codes: seq<nat>)
    requires forall t :: t in ts ==> t.Ch?
    ensures |codes| == |ts|
  {
    seq<nat>(|ts|, i requires 0 <= i < |ts| => ts[i].code)
  }

  predicate Opens(t: Tok) {
    t == Out('{') || t == Out('[')
  }

  predicate Closes(t: Tok) {
    t == Out('}') || t == Out(']')
  }

  /** A value ends where a comma or a closing bracket stands outside all its brackets. */
  predicate Stops(t: Tok, depth: nat) {
    depth == 0 && (t == Out(',') || Closes(t))
  }

  function Nest(t: Tok, depth: nat): nat {
    if Opens(t) then depth + 1 else if Closes(t) && depth > 0 then depth - 1 else depth
  }

  function ValueEnd(ts: seq<Tok>, depth: nat): (n: nat)
    ensures n <= |ts|
    decreases |ts|
  {
    if ts == [] || Stops(ts[0], depth) then 0 else 1 + ValueEnd(ts[1..], Nest(ts[0], depth))
  }

  datatype Head = NoMember | Head(member: Member, tail: seq<Tok>)

  /** The first member and what follows its value. */
  function FirstMember(ts: seq<Tok>): (h: Head)
    ensures h.Head? ==> 0 < |h.tail| < |ts|
  {
    if ts == [] || ts[0] != Open then NoMember
    else
      var n := CharRun(ts[1..]);
      if |ts| < n + 3 || ts[n + 1] != Close || ts[n + 2] != Out(':') then NoMember
      else
        var rest := ts[n + 3..];
        var v := ValueEnd(rest, 0);
        if v == 0 || v == |rest| then NoMember
        else Head(Member(Codes(ts[1..][..n]), rest[..v]), rest[v..])
  }

  function ParseMembers(ts: seq<Tok>): Parsed
    decreases |ts|
  {
    match FirstMember(ts)
    case NoMember => NoObject
    case Head(m, tail) =>
      if tail == [Out('}')] then Object([m])
      else if tail[0] != Out(',') then NoObject
      else
        match ParseMembers(tail[1..])
        case NoObject => NoObject
        case Object(ms) => Object([m] + ms)
  }

  function ParseObject(ts: seq<Tok>): Parsed {
    if |ts| < 2 || ts[0] != Out('{') then NoObject
    else if ts[1..] == [Out('}')] then Object([])
    else ParseMembers(ts[1..])
  }

  // -------------------------------------------------------------------------- writing

  /** The value's own brackets are closed and it has no comma outside them. */
  predicate Stays(v: seq<Tok>, depth: nat)
    decreases |v|
  {
    if v == [] then depth == 0 else !Stops(v[0], depth) && Stays(v[1..], Nest(v[0], depth))
  }

  /** Tokens that can stand as the value of a member. */
  predicate SelfContained(v: seq<Tok>) {
    v != [] && Bad !in v && Stays(v, 0) && !Ends(false, v) && TokDepth(v) == 0
  }

  /** Members whose values can stand in an object. */
  predicate Writable(ms: seq<Member>) {
    forall i :: 0 <= i < |ms| ==> SelfContained(ms[i].value)
  }

  lemma {:induction false} ValueEndOf(v: seq<Tok>, depth: nat, tail: seq<Tok>)
    requires Stays(v, depth) && tail != [] && Stops(tail[0], 0)
    ensures ValueEnd(v + tail, depth) == |v|
    decreases |v|
  {
    if v == [] {
      assert v + tail == tail;
    } else {
      assert (v + tail)[1..] == v[1..] + tail;
      ValueEndOf(v[1..], Nest(v[0], depth), tail);
    }
  }

  function CharToks(codes: seq<nat>): (ts: seq<Tok>)
    ensures |ts| == |codes| && forall i :: 0 <= i < |codes| ==> ts[i] == Ch(codes[i])
  {
    seq(|codes|, i requires 0 <= i < |codes| => Ch(codes[i]))
  }

  lemma {:induction false} CharRunOf(codes: seq<nat>, tail: seq<Tok>)
    requires tail == [] || !tail[0].Ch?
    ensures CharRun(CharToks(codes) + tail) == |codes|
    decreases |codes|
  {
    if codes == [] {
      assert CharToks(codes) + tail == tail;
    } else {
      assert (CharToks(codes) + tail)[1..] == CharToks(codes[1..]) + tail;
      CharRunOf(codes[1..], tail);
    }
  }

  function MemberToks(m: Member): seq<Tok> {
    [Open] + CharToks(m.key) + [Close, Out(':')] + m.value
  }

  /** The members one after the other, with commas between them. */
  function MembersToks(ms: seq<Member>): seq<Tok> {
    if ms == [] then []
    else if |ms| == 1 then MemberToks(ms[0])
    else MemberToks(ms[0]) + [Out(',')] + MembersToks(ms[1..])
  }

  lemma FirstMemberOf(m: Member, tail: seq<Tok>)
    requires SelfContained(m.value) && tail != [] && Stops(tail[0], 0)
    ensures FirstMember(MemberToks(m) + tail) == Head(m, tail)
  {
    var ts := MemberToks(m) + tail;
    var k, v := |m.key|, |m.value|;
    var rest := m.value + tail;
    assert ts[1..] == CharToks(m.key) + ([Close, Out(':')] + rest);
    CharRunOf(m.key, [Close, Out(':')] + rest);
    assert ts[1..][..k] == CharToks(m.key) && Codes(CharToks(m.key)) == m.key;
    assert ts[k + 3..] == rest;
    ValueEndOf(m.value, 0, tail);
    assert rest[..v] == m.value && rest[v..] == tail;
  }

  lemma ParseAfterFirst(m: Member, more: seq<Tok>)
    requires SelfContained(m.value) && ParseMembers(more).Object?
    ensures ParseMembers(MemberToks(m) + ([Out(',')] + more)) == Object([m] + ParseMembers(more).members)
  {
    var tail := [Out(',')] + more;
    FirstMemberOf(m, tail);
    assert tail[0] == Out(',') && tail[1..] == more;
  }

  /** Round trip: members that can stand in an object read back in order. */
  lemma {:induction false} MembersParse(ms: seq<Member>)
    requires ms != [] && Writable(ms)
    ensures ParseMembers(MembersToks(ms) + [Out('}')]) == Object(ms)
  {
    if |ms| == 1 {
      ParseLast(ms[0]);
      assert ms == [ms[0]];
    } else {
      var more := MembersToks(ms[1..]) + [Out('}')];
      MembersParse(ms[1..]);
      ParseAfterFirst(ms[0], more);
      Regroup(MemberToks(ms[0]), [Out(',')], MembersToks(ms[1..]), [Out('}')]);
      assert [ms[0]] + ms[1..] == ms;
    }
  }

  lemma ParseLast(m: Member)
    requires SelfContained(m.value)
    ensures ParseMembers(MemberToks(m) + [Out('}')]) == Object([m])
  {
    FirstMemberOf(m, [Out('}')]);
  }

  lemma Regroup(a: seq<Tok>, b: seq<Tok>, c: seq<Tok>, d: seq<Tok>)
    ensures a + b + c + d == a + (b + (c + d))
  {
  }

  lemma ObjectParses(ms: seq<Member>)
    requires Writable(ms)
    ensures ParseObject([Out('{')] + MembersToks(ms) + [Out('}')]) == Object(ms)
  {
    var ts := [Out('{')] + MembersToks(ms) + [Out('}')];
    assert ts[1..] == MembersToks(ms) + [Out('}')];
    if ms != [] {
      assert ts[1] == Open;
      MembersParse(ms);
    }
  }

  lemma {:induction false} CharsStay(s: string, depth: nat)
    ensures Stays(Chars(s) + [Close], depth) == (depth == 0)
    ensures TokDepth(Chars(s) + [Close]) == 0
    ensures !Ends(true, Chars(s) + [Close])
    decreases |s|
  {
    var ts := Chars(s) + [Close];
    if s == "" {
      assert ts == [Close];
    } else {
      assert ts[1..] == Chars(s[1..]) + [Close];
      CharsStay(s[1..], depth);
    }
  }

  lemma StringIsSelfContained(s: string)
    ensures SelfContained(StringToks(s))
  {
    assert StringToks(s)[1..] == Chars(s) + [Close];
    CharsStay(s, 0);
  }

  lemma {:induction false} MembersDepth(ms: seq<Member>)
    requires Writable(ms)
    ensures TokDepth(MembersToks(ms)) == 0 && Bad !in MembersToks(ms) && !Ends(false, MembersToks(ms))
  {
    if ms != [] {
      MemberDepth(ms[0]);
      if |ms| > 1 {
        var tail := [Out(',')] + MembersToks(ms[1..]);
        MembersDepth(ms[1..]);
        assert tail[1..] == MembersToks(ms[1..]);
        assert MembersToks(ms) == MemberToks(ms[0]) + tail;
        TokDepthConcat(MemberToks(ms[0]), tail);
        EndsConcat(false, MemberToks(ms[0]), tail);
      }
    }
  }

  lemma {:induction false} KeyDepth(codes: seq<nat>, tail: seq<Tok>)
    ensures TokDepth(CharToks(codes) + tail) == TokDepth(tail)
    ensures Ends(true, CharToks(codes) + tail) == Ends(true, tail)
    decreases |codes|
  {
    if codes == [] {
      assert CharToks(codes) + tail == tail;
    } else {
      assert (CharToks(codes) + tail)[1..] == CharToks(codes[1..]) + tail;
      KeyDepth(codes[1..], tail);
    }
  }

  lemma MemberDepth(m: Member)
    requires SelfContained(m.value)
    ensures TokDepth(MemberToks(m)) == 0 && Bad !in MemberToks(m) && !Ends(false, MemberToks(m))
  {
    var tail := [Close, Out(':')] + m.value;
    assert MemberToks(m) == [Open] + (CharToks(m.key) + tail);
    assert MemberToks(m)[1..] == CharToks(m.key) + tail;
    KeyDepth(m.key, tail);
    assert tail[1..] == [Out(':')] + m.value && tail[1..][1..] == m.value;
  }
}
