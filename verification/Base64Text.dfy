/**
  Base64 text in the terms of RFC 4648: the alphabets, the 24-bit groups, and exactly which
  texts are accepted and how many bytes they hold.
 */
module Base64Text {
  import opened Options
  import opened Base64

  /** The alphabets of tables 1 and 2. */
  lemma Alphabets(v: nat, a: Alphabet)
    requires v < 64
    ensures v < 26 ==> Digit(v, a) == 'A' as int + v
    ensures 26 <= v < 52 ==> Digit(v, a) == 'a' as int + (v - 26)
    ensures 52 <= v < 62 ==> Digit(v, a) == '0' as int + (v - 52)
    ensures v == 62 ==> Digit(v, a) == if a == UrlSafe then '-' as int else '+' as int
    ensures v == 63 ==> Digit(v, a) == if a == UrlSafe then '_' as int else '/' as int
    ensures PAD == '=' as int
  {
  }

  predicate Sextets(v: seq<nat>) {
    forall i :: 0 <= i < |v| ==> v[i] < 64
  }

  /** Three bytes become the four digits of one 24-bit number, high bits first. */
  lemma GroupOfThree(x: seq<Byte>, a: Alphabet) returns (v: seq<nat>)
    requires |x| >= 3
    ensures |v| == 4 && Sextets(v)
    ensures v[0] * 262144 + v[1] * 4096 + v[2] * 64 + v[3] == x[0] as int * 65536 + x[1] as int * 256 + x[2] as int
    ensures Encoded(x, a) == [Digit(v[0], a), Digit(v[1], a), Digit(v[2], a), Digit(v[3], a)] + Encoded(x[3..], a)
  {
    v := [x[0] / 4, x[0] % 4 * 16 + x[1] / 16, x[1] % 16 * 4 + x[2] / 64, x[2] % 64];
    EncodedTail(x, a);
  }

  /** One or two bytes at the end become two or three digits, filled up with zero bits and
      padding. */
  lemma GroupAtEnd(x: seq<Byte>, a: Alphabet) returns (v: seq<nat>)
    requires |x| == 1 || |x| == 2
    ensures |v| == |x| + 1 && Sextets(v)
    ensures |x| == 1 ==> v[0] * 64 + v[1] == x[0] as int * 16 && Encoded(x, a) == [Digit(v[0], a), Digit(v[1], a), PAD, PAD]
    ensures |x| == 2 ==>
              && v[0] * 4096 + v[1] * 64 + v[2] == (x[0] as int * 256 + x[1] as int) * 4
              && Encoded(x, a) == [Digit(v[0], a), Digit(v[1], a), Digit(v[2], a), PAD]
  {
    EncodedEnd(x, a);
    v := if |x| == 1 then [x[0] / 4, x[0] % 4 * 16] else [x[0] / 4, x[0] % 4 * 16 + x[1] / 16, x[1] % 16 * 4];
  }

  // -------------------------------------------------------------- what is accepted

  /** A character of the alphabet. */
  predicate InAlphabet(c: Byte, a: Alphabet) {
    || 'A' as int <= c <= 'Z' as int || 'a' as int <= c <= 'z' as int || '0' as int <= c <= '9' as int
    || (if a == UrlSafe then c == '-' as int || c == '_' as int else c == '+' as int || c == '/' as int)
  }

  /** How many characters come before the first padding character. */
  function Unpadded(s: seq<Byte>): (n: nat)
    ensures n <= |s| && (n < |s| ==> s[n] == PAD) && forall i :: 0 <= i < n ==> s[i] != PAD
  {
    if s == [] || s[0] == PAD then 0 else 1 + Unpadded(s[1..])
  }

  /** Only characters of the alphabet before the padding, and unless the check is loose only
      padding behind it. */
  predicate IsText(s: seq<Byte>, a: Alphabet, loose: bool) {
    && (forall i :: 0 <= i < Unpadded(s) ==> InAlphabet(s[i], a))
    && (loose || forall i :: Unpadded(s) <= i < |s| ==> s[i] == PAD)
  }

  lemma OneCharacter(c: Byte, a: Alphabet)
    requires a != Auto && c != PAD
    ensures Value(a, c).Some? <==> InAlphabet(c, a)
    ensures Value(a, c).Some? ==> Value(a, c).value.1 == a
  {
  }

  lemma RestIsText(s: seq<Byte>, a: Alphabet, loose: bool)
    requires s != [] && s[0] != PAD
    ensures IsText(s, a, loose) <==> InAlphabet(s[0], a) && IsText(s[1..], a, loose)
  {
    var n := Unpadded(s);
    assert n == 1 + Unpadded(s[1..]);
    if IsText(s, a, loose) {
      assert forall i :: 0 <= i < n - 1 ==> s[1..][i] == s[i + 1];
    }
    if InAlphabet(s[0], a) && IsText(s[1..], a, loose) {
      forall i | 0 <= i < n
        ensures InAlphabet(s[i], a)
      {
        assert i > 0 ==> s[i] == s[1..][i - 1];
      }
      forall i | n <= i < |s| && !loose
        ensures s[i] == PAD
      {
        assert s[i] == s[1..][i - 1];
      }
    }
  }

  /** The bits of a text so far: what is left over from the last character, and six for each
      more; every eight make a byte. */
  lemma {:induction false} AcceptsFrom(s: seq<Byte>, bits: int, last: nat, a: Alphabet, loose: bool)
    requires a != Auto && IsBits(bits) && last < 64
    ensures DecodedFrom(s, bits, last, a, loose).Some? <==> IsText(s, a, loose)
    ensures DecodedFrom(s, bits, last, a, loose).Some? ==>
              |DecodedFrom(s, bits, last, a, loose).value| == (bits + 6 * Unpadded(s)) / 8
    decreases |s|
  {
    if s != [] && s[0] != PAD {
      OneCharacter(s[0], a);
      RestIsText(s, a, loose);
      if InAlphabet(s[0], a) {
        var part := Value(a, s[0]).value.0;
        AcceptsFrom(s[1..], if bits == 0 then 6 else bits - 2, part, a, loose);
      }
    }
  }

  /** Main theorem: with a fixed alphabet a text is accepted if and only if it has characters of
      the alphabet before the padding and, unless the check is loose, only padding behind it; it
      then holds as many bytes as its characters have whole bytes of six bits each. */
  lemma AcceptsExactly(s: seq<Byte>, a: Alphabet, loose: bool)
    requires a != Auto
    ensures DecodedText(s, a, loose).Some? <==> IsText(s, a, loose)
    ensures DecodedText(s, a, loose).Some? ==> |DecodedText(s, a, loose).value| == 6 * Unpadded(s) / 8
  {
    AcceptsFrom(s, 0, 0, a, loose);
  }

  /** The size that a decoding buffer needs: three bytes for every group of four characters,
      the last of which may be incomplete; unpadded text fills it. */
  lemma RoomForGroups(size: nat, x: seq<Byte>, a: Alphabet)
    ensures MaxDecodeSize(size) % 3 == 0 && size <= MaxDecodeSize(size) / 3 * 4 < size + 4
    ensures |x| % 3 == 0 ==> |x| == MaxDecodeSize(|Encoded(x, a)|)
  {
    EncodedSize(x, a);
  }
}
