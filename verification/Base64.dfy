/**
  Base64 with the alphabets of sections 4 and 5 of RFC 4648: encoding, decoding with a fixed
  or a detected alphabet, and decoding into the buffer that holds the input.

  A byte is its number.  Shifts are written as multiplication and division by powers of two,
  and an OR of bits that do not overlap as a sum.
 */
module Base64 {
  import opened Arith
  import opened Options

  type Byte = b: int | 0 <= b < 256

  datatype Alphabet = Auto | Standard | UrlSafe

  const PAD: Byte := 61

  /** The character for a 6-bit value: A-Z, a-z, 0-9 and the two that differ. */
  function Digit(v: nat, a: Alphabet): (c: Byte)
    requires v < 64
    ensures c != PAD
  {
    if v < 26 then 65 + v
    else if v < 52 then 97 + (v - 26)
    else if v < 62 then 48 + (v - 52)
    else if v == 62 then if a.UrlSafe? then 45 else 43
    else if a.UrlSafe? then 95 else 47
  }

  // ------------------------------------------------------------------------- encoding

  /** The characters without padding. */
  function Digits(x: seq<Byte>, a: Alphabet): seq<Byte> {
    if x == [] then []
    else if |x| == 1 then [Digit(x[0] / 4, a), Digit(x[0] % 4 * 16, a)]
    else if |x| == 2 then [Digit(x[0] / 4, a), Digit(x[0] % 4 * 16 + x[1] / 16, a), Digit(x[1] % 16 * 4, a)]
    else [Digit(x[0] / 4, a), Digit(x[0] % 4 * 16 + x[1] / 16, a),
          Digit(x[1] % 16 * 4 + x[2] / 64, a), Digit(x[2] % 64, a)] + Digits(x[3..], a)
  }

  function Pads(n: nat): (p: seq<Byte>)
    ensures |p| == n && forall i :: 0 <= i < n ==> p[i] == PAD
  {
    seq<Byte>(n, i => PAD)
  }

  function Padding(n: nat): nat {
    if n % 3 == 0 then 0 else 3 - n % 3
  }

  function Encoded(x: seq<Byte>, a: Alphabet): seq<Byte> {
    Digits(x, a) + Pads(Padding(|x|))
  }

  function RequiredEncodeSize(size: nat): nat {
    (size / 3 + if size % 3 != 0 then 1 else 0) * 4
  }

  lemma {:induction false} EncodedSize(x: seq<Byte>, a: Alphabet)
    ensures |Encoded(x, a)| == RequiredEncodeSize(|x|)
    decreases |x|
  {
    if |x| >= 3 {
      EncodedSize(x[3..], a);
    }
  }

  lemma EncodedTail(x: seq<Byte>, a: Alphabet)
    requires |x| >= 3
    ensures Encoded(x, a) == [Digit(x[0] / 4, a), Digit(x[0] % 4 * 16 + x[1] / 16, a),
                              Digit(x[1] % 16 * 4 + x[2] / 64, a), Digit(x[2] % 64, a)] + Encoded(x[3..], a)
  {
  }

  lemma EncodedEnd(x: seq<Byte>, a: Alphabet)
    ensures |x| == 1 ==> Encoded(x, a) == [Digit(x[0] / 4, a), Digit(x[0] % 4 * 16, a), PAD, PAD]
    ensures |x| == 2 ==> Encoded(x, a) == [Digit(x[0] / 4, a), Digit(x[0] % 4 * 16 + x[1] / 16, a), Digit(x[1] % 16 * 4, a), PAD]
  {
  }

  /** Four characters written one by one, in front of what is still to come. */
  lemma FourFollow(before: seq<Byte>, b0: Byte, b1: Byte, b2: Byte, b3: Byte, rest: seq<Byte>)
    ensures before + [b0] + [b1] + [b2] + [b3] == before + [b0, b1, b2, b3]
    ensures before + ([b0, b1, b2, b3] + rest) == before + [b0] + [b1] + [b2] + [b3] + rest
  {
  }

  /** What is left of the text at position `i`. */
  lemma EncodedFrom(x: seq<Byte>, i: nat, a: Alphabet)
    requires i < |x|
    ensures i + 1 == |x| ==> Encoded(x[i..], a) == [Digit(x[i] / 4, a), Digit(x[i] % 4 * 16, a), PAD, PAD]
    ensures i + 2 == |x| ==> Encoded(x[i..], a) == [Digit(x[i] / 4, a), Digit(x[i] % 4 * 16 + x[i + 1] / 16, a), Digit(x[i + 1] % 16 * 4, a), PAD]
    ensures i + 3 <= |x| ==>
              var x0, x1, x2 := x[i], x[i + 1], x[i + 2];
              Encoded(x[i..], a) == [Digit(x0 / 4, a), Digit(x0 % 4 * 16 + x1 / 16, a), Digit(x1 % 16 * 4 + x2 / 64, a), Digit(x2 % 64, a)] + Encoded(x[i + 3..], a)
  {
    EncodedEnd(x[i..], a);
    if i + 3 <= |x| {
      EncodedTail(x[i..], a);
      assert x[i..][3..] == x[i + 3..];
    }
  }

  method Encode(x: seq<Byte>, a: Alphabet) returns (out: seq<Byte>)
    ensures out == Encoded(x, a) && |out| == RequiredEncodeSize(|x|)
  {
    EncodedSize(x, a);
    out := [];
    var i := 0;
    assert x[0..] == x;
    while i < |x|
      invariant i <= |x|
      invariant out + Encoded(x[i..], a) == Encoded(x, a)
    {
      EncodedFrom(x, i, a);
      ghost var before := out;
      var i0 := x[i];
      i := i + 1;
      out := out + [Digit(i0 / 4, a)];
      if i == |x| {
        out := out + [Digit(i0 % 4 * 16, a)] + [PAD] + [PAD];
        FourFollow(before, Digit(i0 / 4, a), Digit(i0 % 4 * 16, a), PAD, PAD, []);
        break;
      }
      var i1 := x[i];
      i := i + 1;
      out := out + [Digit(i0 % 4 * 16 + i1 / 16, a)];
      if i == |x| {
        out := out + [Digit(i1 % 16 * 4, a)] + [PAD];
        FourFollow(before, Digit(i0 / 4, a), Digit(i0 % 4 * 16 + i1 / 16, a), Digit(i1 % 16 * 4, a), PAD, []);
        break;
      }
      var i2 := x[i];
      i := i + 1;
      out := out + [Digit(i1 % 16 * 4 + i2 / 64, a)];
      out := out + [Digit(i2 % 64, a)];
      FourFollow(before, Digit(i0 / 4, a), Digit(i0 % 4 * 16 + i1 / 16, a), Digit(i1 % 16 * 4 + i2 / 64, a), Digit(i2 % 64, a), Encoded(x[i..], a));
    }
  }

  // ------------------------------------------------------------------------- decoding

  /** `_base64_value`: the 6-bit value of a character, and the alphabet from then on. */
  function Value(a: Alphabet, c: Byte): (r: Option<(nat, Alphabet)>)
    ensures r.Some? ==> r.value.0 < 64
  {
    if 65 <= c <= 90 then Some((c - 65, a))
    else if 97 <= c <= 122 then Some((c - 97 + 26, a))
    else if 48 <= c <= 57 then Some((c - 48 + 52, a))
    else if c == 43 && a != UrlSafe then Some((62, Standard))
    else if c == 47 && a != UrlSafe then Some((63, Standard))
    else if c == 45 && a != Standard then Some((62, UrlSafe))
    else if c == 95 && a != Standard then Some((63, UrlSafe))
    else None
  }

  predicate IsBits(bits: int) {
    bits == 0 || bits == 2 || bits == 4 || bits == 6
  }

  lemma TopBits(last: nat)
    ensures last * 16 % 256 <= 240 && last * 64 % 256 <= 192
  {
    ModStep(last % 16 * 16, last / 16, 256);
    ModStep(last % 4 * 64, last / 4, 256);
  }

  /** The byte made of the `bits` bits left over from `last` and the top of `part`. */
  function Combine(bits: int, last: nat, part: nat): Byte
    requires IsBits(bits) && bits != 0 && last < 64 && part < 64
  {
    TopBits(last);
    if bits == 6 then last * 4 % 256 + part / 16
    else if bits == 4 then last * 16 % 256 + part / 4
    else last * 64 % 256 + part
  }

  predicate AllPads(s: seq<Byte>) {
    forall i :: 0 <= i < |s| ==> s[i] == PAD
  }

  function Prepend(b: seq<Byte>, r: Option<seq<Byte>>): Option<seq<Byte>> {
    if r.Some? then Some(b + r.value) else None
  }

  lemma PrependNothing(r: Option<seq<Byte>>)
    ensures Prepend([], r) == r
  {
    assert r.Some? ==> [] + r.value == r.value;
  }

  lemma PrependDone(b: seq<Byte>)
    ensures Prepend(b, Some([])) == Some(b)
  {
    assert b + [] == b;
  }

  lemma PrependTwice(a: seq<Byte>, b: seq<Byte>, r: Option<seq<Byte>>)
    ensures Prepend(a, Prepend(b, r)) == Prepend(a + b, r)
  {
    assert r.Some? ==> a + (b + r.value) == (a + b) + r.value;
  }

  /** What decoding makes of the rest of the input. */
  function DecodedFrom(s: seq<Byte>, bits: int, last: nat, a: Alphabet, loose: bool): Option<seq<Byte>>
    requires IsBits(bits) && last < 64
    decreases |s|
  {
    if s == [] then Some([])
    else if s[0] == PAD then if loose || AllPads(s) then Some([]) else None
    else
      match Value(a, s[0])
      case None => None
      case Some((part, a')) =>
        if bits == 0 then DecodedFrom(s[1..], 6, part, a', loose)
        else Prepend([Combine(bits, last, part)], DecodedFrom(s[1..], bits - 2, part, a', loose))
  }

  function DecodedText(s: seq<Byte>, a: Alphabet, loose: bool): Option<seq<Byte>> {
    DecodedFrom(s, 0, 0, a, loose)
  }

  function MaxDecodeSize(size: nat): nat {
    (size / 4 + if size % 4 != 0 then 1 else 0) * 3
  }

  lemma {:induction false} DecodedSize(s: seq<Byte>, bits: int, last: nat, a: Alphabet, loose: bool)
    requires IsBits(bits) && last < 64 && DecodedFrom(s, bits, last, a, loose).Some?
    ensures 8 * |DecodedFrom(s, bits, last, a, loose).value| <= 6 * |s| + bits
    decreases |s|
  {
    if s != [] && s[0] != PAD {
      var (part, a') := Value(a, s[0]).value;
      DecodedSize(s[1..], if bits == 0 then 6 else bits - 2, part, a', loose);
    }
  }

  lemma DecodedFits(s: seq<Byte>, a: Alphabet, loose: bool)
    requires DecodedText(s, a, loose).Some?
    ensures |DecodedText(s, a, loose).value| <= MaxDecodeSize(|s|)
  {
    DecodedSize(s, 0, 0, a, loose);
  }

  // ------------------------------------------------------------------------- round trip

  function Named(a: Alphabet): Alphabet {
    if a.UrlSafe? then UrlSafe else Standard
  }

  /** The decoder's alphabet accepts what was written with `a`. */
  predicate Accepts(now: Alphabet, a: Alphabet) {
    now == Auto || now == Named(a)
  }

  lemma ValueOfDigit(v: nat, a: Alphabet, now: Alphabet)
    requires v < 64 && Accepts(now, a)
    ensures Value(now, Digit(v, a)).Some? && Value(now, Digit(v, a)).value.0 == v
    ensures Accepts(Value(now, Digit(v, a)).value.1, a)
  {
  }

  /** One character that is a digit of alphabet `a`. */
  lemma DecodeDigit(v: nat, rest: seq<Byte>, bits: int, last: nat, a: Alphabet, now: Alphabet, loose: bool) returns (next: Alphabet)
    requires v < 64 && IsBits(bits) && last < 64 && Accepts(now, a)
    ensures Accepts(next, a)
    ensures DecodedFrom([Digit(v, a)] + rest, bits, last, now, loose) ==
              if bits == 0 then DecodedFrom(rest, 6, v, next, loose)
              else Prepend([Combine(bits, last, v)], DecodedFrom(rest, bits - 2, v, next, loose))
  {
    ValueOfDigit(v, a, now);
    next := Value(now, Digit(v, a)).value.1;
    assert ([Digit(v, a)] + rest)[1..] == rest;
  }

  lemma FirstByte(x: Byte, h: nat)
    requires h < 16
    ensures Combine(6, x / 4, x % 4 * 16 + h) == x
  {
    DivModOf(x % 4, h, 16);
  }

  lemma SecondByte(g: nat, y: Byte, h: nat)
    requires g < 4 && h < 4
    ensures Combine(4, g * 16 + y / 16, y % 16 * 4 + h) == y
  {
    DivModOf(y % 16, h, 4);
    assert (g * 16 + y / 16) * 16 == g * 256 + y / 16 * 16;
  }

  lemma ThirdByte(g: nat, z: Byte)
    requires g < 16
    ensures Combine(2, g * 4 + z / 64, z % 64) == z
  {
    assert (g * 4 + z / 64) * 64 == g * 256 + z / 64 * 64;
  }

  lemma DecodePads(n: nat, bits: int, last: nat, now: Alphabet, loose: bool)
    requires IsBits(bits) && last < 64
    ensures DecodedFrom(Pads(n), bits, last, now, loose) == Some([])
  {
  }

  /** The first two characters give the first byte. */
  lemma DecodeFirst(x: Byte, h: nat, rest: seq<Byte>, last: nat, a: Alphabet, now: Alphabet, loose: bool) returns (next: Alphabet)
    requires h < 16 && last < 64 && Accepts(now, a)
    ensures Accepts(next, a)
    ensures DecodedFrom([Digit(x / 4, a), Digit(x % 4 * 16 + h, a)] + rest, 0, last, now, loose)
            == Prepend([x], DecodedFrom(rest, 4, x % 4 * 16 + h, next, loose))
  {
    var c0, c1 := Digit(x / 4, a), Digit(x % 4 * 16 + h, a);
    var n := DecodeDigit(x / 4, [c1] + rest, 0, last, a, now, loose);
    next := DecodeDigit(x % 4 * 16 + h, rest, 6, x / 4, a, n, loose);
    FirstByte(x, h);
    assert [c0, c1] + rest == [c0] + ([c1] + rest);
  }

  lemma DecodeSecond(g: nat, y: Byte, h: nat, rest: seq<Byte>, a: Alphabet, now: Alphabet, loose: bool) returns (next: Alphabet)
    requires g < 4 && h < 4 && Accepts(now, a)
    ensures Accepts(next, a)
    ensures DecodedFrom([Digit(y % 16 * 4 + h, a)] + rest, 4, g * 16 + y / 16, now, loose)
            == Prepend([y], DecodedFrom(rest, 2, y % 16 * 4 + h, next, loose))
  {
    next := DecodeDigit(y % 16 * 4 + h, rest, 4, g * 16 + y / 16, a, now, loose);
    SecondByte(g, y, h);
  }

  lemma DecodeThird(g: nat, z: Byte, rest: seq<Byte>, a: Alphabet, now: Alphabet, loose: bool) returns (next: Alphabet)
    requires g < 16 && Accepts(now, a)
    ensures Accepts(next, a)
    ensures DecodedFrom([Digit(z % 64, a)] + rest, 2, g * 4 + z / 64, now, loose)
            == Prepend([z], DecodedFrom(rest, 0, z % 64, next, loose))
  {
    next := DecodeDigit(z % 64, rest, 2, g * 4 + z / 64, a, now, loose);
    ThirdByte(g, z);
  }

  lemma RoundTripOne(x: seq<Byte>, a: Alphabet, pads: nat, last: nat, now: Alphabet, loose: bool)
    requires Accepts(now, a) && last < 64 && |x| == 1
    ensures DecodedFrom(Digits(x, a) + Pads(pads), 0, last, now, loose) == Some(x)
  {
    var n := DecodeFirst(x[0], 0, Pads(pads), last, a, now, loose);
    DecodePads(pads, 4, x[0] % 4 * 16, n, loose);
    assert [x[0]] + [] == x;
  }

  lemma RoundTripTwo(x: seq<Byte>, a: Alphabet, pads: nat, last: nat, now: Alphabet, loose: bool)
    requires Accepts(now, a) && last < 64 && |x| == 2
    ensures DecodedFrom(Digits(x, a) + Pads(pads), 0, last, now, loose) == Some(x)
  {
    var c := Digit(x[1] % 16 * 4, a);
    var n := DecodeFirst(x[0], x[1] / 16, [c] + Pads(pads), last, a, now, loose);
    var m := DecodeSecond(x[0] % 4, x[1], 0, Pads(pads), a, n, loose);
    DecodePads(pads, 2, x[1] % 16 * 4, m, loose);
    assert Digits(x, a) + Pads(pads) == [Digit(x[0] / 4, a), Digit(x[0] % 4 * 16 + x[1] / 16, a)] + ([c] + Pads(pads));
    assert [x[0]] + ([x[1]] + []) == x;
  }

  lemma DecodeThree(x: seq<Byte>, rest: seq<Byte>, a: Alphabet, last: nat, now: Alphabet, loose: bool) returns (next: Alphabet)
    requires Accepts(now, a) && last < 64 && |x| >= 3
    ensures Accepts(next, a)
    ensures DecodedFrom([Digit(x[0] / 4, a), Digit(x[0] % 4 * 16 + x[1] / 16, a),
                         Digit(x[1] % 16 * 4 + x[2] / 64, a), Digit(x[2] % 64, a)] + rest, 0, last, now, loose)
            == Prepend([x[0]], Prepend([x[1]], Prepend([x[2]], DecodedFrom(rest, 0, x[2] % 64, next, loose))))
  {
    var c0, c1, c2, c3 := Digit(x[0] / 4, a), Digit(x[0] % 4 * 16 + x[1] / 16, a), Digit(x[1] % 16 * 4 + x[2] / 64, a), Digit(x[2] % 64, a);
    var n := DecodeFirst(x[0], x[1] / 16, [c2] + ([c3] + rest), last, a, now, loose);
    var m := DecodeSecond(x[0] % 4, x[1], x[2] / 64, [c3] + rest, a, n, loose);
    next := DecodeThird(x[1] % 16, x[2], rest, a, m, loose);
    assert [c0, c1, c2, c3] + rest == [c0, c1] + ([c2] + ([c3] + rest));
  }

  /** Round trip: the characters of `x`, followed by any number of padding characters, decode
      to `x`, with the alphabet they were written in or with a detected one. */
  lemma {:induction false} RoundTrip(x: seq<Byte>, a: Alphabet, pads: nat, last: nat, now: Alphabet, loose: bool)
    requires Accepts(now, a) && last < 64
    ensures DecodedFrom(Digits(x, a) + Pads(pads), 0, last, now, loose) == Some(x)
    decreases |x|
  {
    if x == [] {
      assert [] + Pads(pads) == Pads(pads);
      DecodePads(pads, 0, last, now, loose);
    } else if |x| == 1 {
      RoundTripOne(x, a, pads, last, now, loose);
    } else if |x| == 2 {
      RoundTripTwo(x, a, pads, last, now, loose);
    } else {
      var next := DecodeThree(x, Digits(x[3..], a) + Pads(pads), a, last, now, loose);
      RoundTrip(x[3..], a, pads, x[2] % 64, next, loose);
      DigitsTail(x, a, pads);
      PrependThree(x);
    }
  }

  lemma PrependThree(x: seq<Byte>)
    requires |x| >= 3
    ensures Prepend([x[0]], Prepend([x[1]], Prepend([x[2]], Some(x[3..])))) == Some(x)
  {
    assert [x[0]] + ([x[1]] + ([x[2]] + x[3..])) == x;
  }

  lemma DigitsTail(x: seq<Byte>, a: Alphabet, pads: nat)
    requires |x| >= 3
    ensures Digits(x, a) + Pads(pads) ==
            [Digit(x[0] / 4, a), Digit(x[0] % 4 * 16 + x[1] / 16, a), Digit(x[1] % 16 * 4 + x[2] / 64, a), Digit(x[2] % 64, a)]
            + (Digits(x[3..], a) + Pads(pads))
  {
  }

  /** Main theorem for whole texts: padded or with the padding stripped, with the matching or
      the detected alphabet, decoding undoes encoding. */
  lemma EncodeThenDecode(x: seq<Byte>, a: Alphabet, now: Alphabet, loose: bool)
    requires Accepts(now, a)
    ensures DecodedText(Encoded(x, a), now, loose) == Some(x)
    ensures DecodedText(Digits(x, a), now, loose) == Some(x)
  {
    RoundTrip(x, a, Padding(|x|), 0, now, loose);
    RoundTrip(x, a, 0, 0, now, loose);
    assert Digits(x, a) + Pads(0) == Digits(x, a);
  }

  // ------------------------------------------------------------------ alphabet detection

  /** Detection accepts exactly what one of the two alphabets accepts, and decodes it alike. */
  lemma {:induction false} DetectionIsUnion(s: seq<Byte>, bits: int, last: nat, loose: bool)
    requires IsBits(bits) && last < 64
    ensures var d, t, u := DecodedFrom(s, bits, last, Auto, loose), DecodedFrom(s, bits, last, Standard, loose), DecodedFrom(s, bits, last, UrlSafe, loose);
            && (d.Some? <==> t.Some? || u.Some?)
            && (t.Some? ==> d == t) && (u.Some? ==> d == u)
    decreases |s|
  {
    if s != [] && s[0] != PAD {
      DetectedValue(s[0]);
      if Value(Auto, s[0]).Some? && Value(Auto, s[0]).value.1 == Auto {
        DetectionIsUnion(s[1..], if bits == 0 then 6 else bits - 2, Value(Auto, s[0]).value.0, loose);
      }
    }
  }

  /** A character of both alphabets leaves detection open; one of the four others settles it,
      and the other alphabet rejects it. */
  lemma DetectedValue(c: Byte)
    ensures var d, t, u := Value(Auto, c), Value(Standard, c), Value(UrlSafe, c);
            if d.None? then t.None? && u.None?
            else
              var (part, a) := d.value;
              match a
              case Auto => t == Some((part, Standard)) && u == Some((part, UrlSafe))
              case Standard => t == d && u == None
              case UrlSafe => u == d && t == None
  {
  }

  // -------------------------------------------------------------------- decoding a buffer

  /** What one character contributes: a whole byte, or more bits for the next one. */
  lemma DecodeStep(s: seq<Byte>, i: nat, bits: int, last: nat, a: Alphabet, loose: bool, done: seq<Byte>)
    requires i < |s| && s[i] != PAD && IsBits(bits) && last < 64 && Value(a, s[i]).Some?
    ensures var (part, a') := Value(a, s[i]).value;
            Prepend(done, DecodedFrom(s[i..], bits, last, a, loose)) ==
            if bits == 0 then Prepend(done, DecodedFrom(s[i + 1..], 6, part, a', loose))
            else Prepend(done + [Combine(bits, last, part)], DecodedFrom(s[i + 1..], bits - 2, part, a', loose))
  {
    assert s[i..][1..] == s[i + 1..];
    if bits > 0 {
      var (part, a') := Value(a, s[i]).value;
      PrependTwice(done, [Combine(bits, last, part)], DecodedFrom(s[i + 1..], bits - 2, part, a', loose));
    }
  }

  /** A character outside the alphabet rejects the text; padding ends it, alone or, when the
      check is loose, with anything after it. */
  lemma DecodeEnd(s: seq<Byte>, i: nat, bits: int, last: nat, a: Alphabet, loose: bool)
    requires i < |s| && IsBits(bits) && last < 64
    ensures s[i] != PAD && Value(a, s[i]) == None ==> DecodedFrom(s[i..], bits, last, a, loose) == None
    ensures s[i] == PAD ==> DecodedFrom(s[i..], bits, last, a, loose) ==
                            if loose || AllPads(s[i..]) then Some([]) else None
  {
  }

  /** The scan of what follows the first padding character. */
  method OnlyPadding(src: array<Byte>, i: nat) returns (ok: bool)
    requires i < src.Length && src[i] == PAD
    ensures ok <==> AllPads(src[i..])
  {
    var j := i + 1;
    while j < src.Length
      invariant i < j <= src.Length && forall k :: i <= k < j ==> src[k] == PAD
    {
      if src[j] != PAD {
        assert src[i..][j - i] != PAD;
        return false;
      }
      j := j + 1;
    }
    return true;
  }

  /** Where the loop stands: `done` has been written over the first `out` bytes of what the
      destination held before, and the characters from `i` on are still to be decoded. */
  ghost predicate Progress(s: seq<Byte>, before: seq<Byte>, now: seq<Byte>, done: seq<Byte>, i: nat, out: nat,
                           bits: int, last: nat, a: Alphabet, alphabet: Alphabet, loose: bool) {
    && i <= |s| && IsBits(bits) && last < 64 && 6 * i == 8 * out + bits && |done| == out <= |before|
    && now == done + before[out..]
    && DecodedText(s, alphabet, loose) == Prepend(done, DecodedFrom(s[i..], bits, last, a, loose))
  }

  lemma Starts(s: seq<Byte>, before: seq<Byte>, alphabet: Alphabet, loose: bool)
    ensures Progress(s, before, before, [], 0, 0, 0, 0, alphabet, alphabet, loose)
  {
    assert s[0..] == s && [] + before[0..] == before;
    PrependNothing(DecodedText(s, alphabet, loose));
  }

  /** Every write so far landed on a position that had been read. */
  lemma Unread(s: seq<Byte>, before: seq<Byte>, now: seq<Byte>, done: seq<Byte>, i: nat, out: nat,
               bits: int, last: nat, a: Alphabet, alphabet: Alphabet, loose: bool)
    requires Progress(s, before, now, done, i, out, bits, last, a, alphabet, loose)
    ensures |now| == |before| && out <= i && now[..out] == done && now[out..] == before[out..]
    ensures before == s ==> now[i..] == s[i..]
  {
  }

  lemma Proceeds(s: seq<Byte>, before: seq<Byte>, now: seq<Byte>, done: seq<Byte>, i: nat, out: nat,
                 bits: int, last: nat, a: Alphabet, alphabet: Alphabet, loose: bool)
    requires Progress(s, before, now, done, i, out, bits, last, a, alphabet, loose)
    requires i < |s| && s[i] != PAD && Value(a, s[i]).Some? && (before == s || |before| >= MaxDecodeSize(|s|))
    ensures var (part, a') := Value(a, s[i]).value;
            && (bits == 0 ==> Progress(s, before, now, done, i + 1, out, 6, part, a', alphabet, loose))
            && (bits > 0 ==> out < |now| && Progress(s, before, now[out := Combine(bits, last, part)],
                  done + [Combine(bits, last, part)], i + 1, out + 1, bits - 2, part, a', alphabet, loose))
  {
    DecodeStep(s, i, bits, last, a, loose, done);
    if bits > 0 {
      assert 8 * out + 8 <= 6 * |s|;
      assert out < |before|;
      Written(done, before, Combine(bits, last, Value(a, s[i]).value.0));
    }
  }

  lemma Written(done: seq<Byte>, before: seq<Byte>, b: Byte)
    requires |done| < |before|
    ensures (done + before[|done|..])[|done| := b] == (done + [b]) + before[|done| + 1..]
  {
  }

  /** Collects six more bits and writes a byte when there are eight. */
  method Store(src: array<Byte>, dst: array<Byte>, i: nat, out: nat, bits: int, last: nat, part: nat,
               ghost s: seq<Byte>, ghost before: seq<Byte>, ghost done: seq<Byte>, ghost a: Alphabet, ghost alphabet: Alphabet, ghost loose: bool)
    returns (out': nat, bits': int, ghost done': seq<Byte>)
    requires Progress(s, before, dst[..], done, i, out, bits, last, a, alphabet, loose)
    requires i < |s| == src.Length && src[i..] == s[i..] && s[i] != PAD && Value(a, s[i]).Some? && part == Value(a, s[i]).value.0
    requires if dst == src then before == s else |before| >= MaxDecodeSize(|s|)
    modifies dst
    ensures Progress(s, before, dst[..], done', i + 1, out', bits', part, Value(a, s[i]).value.1, alphabet, loose)
    ensures src[i + 1..] == s[i + 1..]
  {
    Proceeds(s, before, dst[..], done, i, out, bits, last, a, alphabet, loose);
    out', bits', done' := out, bits + 6, done;
    if bits' >= 8 {
      dst[out'] := Combine(bits, last, part);
      out', bits', done' := out' + 1, bits' - 8, done + [Combine(bits, last, part)];
    }
    Unread(s, before, dst[..], done', i + 1, out', bits', part, Value(a, s[i]).value.1, alphabet, loose);
    assert dst != src ==> src[i + 1..] == old(src[i..])[1..];
  }

  /** What decoding `s` leaves in a buffer that held `before`: accepted or not as `DecodedText`
      says, the decoded bytes in front and the rest of the buffer as it was. */
  ghost predicate DecodesTo(s: seq<Byte>, before: seq<Byte>, now: seq<Byte>, alphabet: Alphabet, loose: bool, r: Option<nat>) {
    var spec := DecodedText(s, alphabet, loose);
    && (r.Some? <==> spec.Some?)
    && (r.Some? ==> r.value == |spec.value| <= |before| && now == spec.value + before[r.value..])
  }

  lemma Rejects(s: seq<Byte>, before: seq<Byte>, now: seq<Byte>, done: seq<Byte>, i: nat, out: nat,
                bits: int, last: nat, a: Alphabet, alphabet: Alphabet, loose: bool)
    requires Progress(s, before, now, done, i, out, bits, last, a, alphabet, loose) && i < |s|
    requires if s[i] == PAD then !loose && !AllPads(s[i..]) else Value(a, s[i]) == None
    ensures DecodesTo(s, before, now, alphabet, loose, None)
  {
    DecodeEnd(s, i, bits, last, a, loose);
  }

  lemma Finishes(s: seq<Byte>, before: seq<Byte>, now: seq<Byte>, done: seq<Byte>, i: nat, out: nat,
                 bits: int, last: nat, a: Alphabet, alphabet: Alphabet, loose: bool)
    requires Progress(s, before, now, done, i, out, bits, last, a, alphabet, loose)
    requires i < |s| ==> s[i] == PAD && (loose || AllPads(s[i..]))
    ensures DecodesTo(s, before, now, alphabet, loose, Some(out))
  {
    if i < |s| {
      DecodeEnd(s, i, bits, last, a, loose);
    }
    PrependDone(done);
  }

  /** After the loop: what is left must be padding, unless the check is loose. */
  method FinishDecode(src: array<Byte>, dst: array<Byte>, i: nat, out: nat, ghost s: seq<Byte>, ghost before: seq<Byte>, ghost done: seq<Byte>,
                      ghost bits: int, ghost last: nat, ghost a: Alphabet, alphabet: Alphabet, loose: bool)
    returns (r: Option<nat>)
    requires Progress(s, before, dst[..], done, i, out, bits, last, a, alphabet, loose)
    requires i <= |s| == src.Length && src[i..] == s[i..] && (i < src.Length ==> src[i] == PAD)
    ensures DecodesTo(s, before, dst[..], alphabet, loose, r)
  {
    if i < src.Length {
      assert src[i] == src[i..][0] == s[i];
      if !loose {
        var ok := OnlyPadding(src, i);
        if !ok {
          Rejects(s, before, dst[..], done, i, out, bits, last, a, alphabet, loose);
          return None;
        }
      }
    }
    Finishes(s, before, dst[..], done, i, out, bits, last, a, alphabet, loose);
    r := Some(out);
  }

  /** `decode`: from the buffer `src` to the buffer `dst`, which may be the same buffer.  Every
      write lands on a position that has been read, so the result is that of `DecodedText` on
      the input as it was. */
  method Decode(src: array<Byte>, dst: array<Byte>, alphabet: Alphabet, loose: bool) returns (r: Option<nat>)
    requires dst == src || dst.Length >= MaxDecodeSize(src.Length)
    modifies dst
    ensures DecodesTo(old(src[..]), old(dst[..]), dst[..], alphabet, loose, r)
  {
    ghost var s, before := src[..], dst[..];
    ghost var done: seq<Byte> := [];
    var a := alphabet;
    var last: nat, bits := 0, 0;
    var i, out := 0, 0;
    Starts(s, before, alphabet, loose);
    while i < src.Length && src[i] != PAD
      invariant Progress(s, before, dst[..], done, i, out, bits, last, a, alphabet, loose)
      invariant src[i..] == s[i..]
    {
      var v := Value(a, src[i]);
      assert src[i] == src[i..][0] == s[i];
      if v == None {
        Rejects(s, before, dst[..], done, i, out, bits, last, a, alphabet, loose);
        return None;
      }
      out, bits, done := Store(src, dst, i, out, bits, last, v.value.0, s, before, done, a, alphabet, loose);
      i, last, a := i + 1, v.value.0, v.value.1;
    }
    r := FinishDecode(src, dst, i, out, s, before, done, bits, last, a, alphabet, loose);
  }

  /** `decode_inplace`: the buffer is both input and output. */
  method DecodeInPlace(buffer: array<Byte>, alphabet: Alphabet, loose: bool) returns (r: Option<nat>)
    modifies buffer
    ensures DecodesTo(old(buffer[..]), old(buffer[..]), buffer[..], alphabet, loose, r)
  {
    r := Decode(buffer, buffer, alphabet, loose);
  }
}
