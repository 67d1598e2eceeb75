/** The encoding of section 3 of RFC 3629, and what the byte tests of the service say in its terms. */
module Utf8 {
  import opened Base64Url
  import opened Space

  /** A character number: no surrogate half, and not above U+10FFFF. */
  predicate IsScalar(r: int) {
    0 <= r < 0xD800 || 0xE000 <= r < 0x110000
  }

  /** The bytes of a character. */
  function Encoded(r: int): Bytes
    requires IsScalar(r)
  {
    if r < 0x80 then [r as char]
    else if r < 0x800 then [(0xC0 + r / 64) as char, (0x80 + r % 64) as char]
    else if r < 0x10000 then [(0xE0 + r / 64 / 64) as char, (0x80 + r / 64 % 64) as char, (0x80 + r % 64) as char]
    else [(0xF0 + r / 64 / 64 / 64) as char, (0x80 + r / 64 / 64 % 64) as char, (0x80 + r / 64 % 64) as char,
          (0x80 + r % 64) as char]
  }

  predicate AllScalar(runes: seq<int>) {
    forall k :: 0 <= k < |runes| ==> IsScalar(runes[k])
  }

  function EncodedAll(runes: seq<int>): Bytes
    requires AllScalar(runes)
  {
    if runes == [] then [] else Encoded(runes[0]) + EncodedAll(runes[1..])
  }

  /** The number of these digits in base 64. */
  function Number(a: int, b: int, c: int, d: int): int {
    ((a * 64 + b) * 64 + c) * 64 + d
  }

  lemma DivMod(hi: int, lo: int)
    requires 0 <= lo < 64
    ensures (hi * 64 + lo) / 64 == hi && (hi * 64 + lo) % 64 == lo
  {
  }

  lemma DigitsOf(a: int, b: int, c: int, d: int)
    requires 0 <= b < 64 && 0 <= c < 64 && 0 <= d < 64
    ensures var r := Number(a, b, c, d);
            r % 64 == d && r / 64 % 64 == c && r / 64 / 64 % 64 == b && r / 64 / 64 / 64 == a
  {
    DivMod(a, b);
    DivMod(a * 64 + b, c);
    DivMod((a * 64 + b) * 64 + c, d);
  }

  /** What stands at the front is the encoding of a character. */
  lemma FrontIsEncoded(s: Bytes) returns (r: int)
    requires Utf8Length(s) > 0
    ensures IsScalar(r) && Encoded(r) == s[..Utf8Length(s)]
  {
    var n := Utf8Length(s);
    if n == 1 {
      r := s[0] as int;
    } else if n == 2 {
      r := FrontOfTwo(s[0], s[1]);
    } else if n == 3 {
      r := FrontOfThree(s[0], s[1], s[2]);
    } else {
      r := FrontOfFour(s[0], s[1], s[2], s[3]);
    }
  }

  lemma FrontOfTwo(a: Octet, b: Octet) returns (r: int)
    requires Utf8Length([a, b]) == 2
    ensures IsScalar(r) && Encoded(r) == [a, b]
  {
    r := Number(0, 0, a as int - 0xC0, b as int - 0x80);
    DigitsOf(0, 0, a as int - 0xC0, b as int - 0x80);
  }

  lemma FrontOfThree(a: Octet, b: Octet, c: Octet) returns (r: int)
    requires Utf8Length([a, b, c]) == 3
    ensures IsScalar(r) && Encoded(r) == [a, b, c]
  {
    r := Number(0, a as int - 0xE0, b as int - 0x80, c as int - 0x80);
    DigitsOf(0, a as int - 0xE0, b as int - 0x80, c as int - 0x80);
  }

  lemma FrontOfFour(a: Octet, b: Octet, c: Octet, d: Octet) returns (r: int)
    requires Utf8Length([a, b, c, d]) == 4
    ensures IsScalar(r) && Encoded(r) == [a, b, c, d]
  {
    r := Number(a as int - 0xF0, b as int - 0x80, c as int - 0x80, d as int - 0x80);
    DigitsOf(a as int - 0xF0, b as int - 0x80, c as int - 0x80, d as int - 0x80);
  }

  /** The encoding of a character in front of anything is found, whole. */
  lemma EncodedIsFront(r: int, rest: Bytes)
    requires IsScalar(r)
    ensures Utf8Length(Encoded(r) + rest) == |Encoded(r)| > 0
  {
  }

  /** A byte string passes the check exactly if it is the encoding of a sequence of characters. */
  lemma {:induction false} ValidUtf8Exactly(s: Bytes)
    ensures ValidUtf8(s) <==> exists runes :: AllScalar(runes) && EncodedAll(runes) == s
    decreases |s|
  {
    if ValidUtf8(s) {
      var runes := RunesOf(s);
    }
    if runes :| AllScalar(runes) && EncodedAll(runes) == s {
      EncodedIsValid(runes);
    }
  }

  lemma {:induction false} RunesOf(s: Bytes) returns (runes: seq<int>)
    requires ValidUtf8(s)
    ensures AllScalar(runes) && EncodedAll(runes) == s
    decreases |s|
  {
    if s == [] {
      runes := [];
    } else {
      var r, rest := FirstRune(s);
      runes := RunesOf(rest);
      runes := RuneInFront(r, runes);
    }
  }

  lemma FirstRune(s: Bytes) returns (r: int, rest: Bytes)
    requires s != [] && ValidUtf8(s)
    ensures IsScalar(r) && s == Encoded(r) + rest && |rest| < |s| && ValidUtf8(rest)
  {
    r := FrontIsEncoded(s);
    rest := s[Utf8Length(s)..];
    assert s == s[..Utf8Length(s)] + rest;
  }

  lemma {:induction false} RuneInFront(r: int, rest: seq<int>) returns (runes: seq<int>)
    requires IsScalar(r) && AllScalar(rest)
    ensures AllScalar(runes) && EncodedAll(runes) == Encoded(r) + EncodedAll(rest)
  {
    runes := [r] + rest;
    assert runes[1..] == rest;
  }

  lemma {:induction false} EncodedIsValid(runes: seq<int>)
    requires AllScalar(runes)
    ensures ValidUtf8(EncodedAll(runes))
  {
    if runes != [] {
      EncodedIsValid(runes[1..]);
      EncodedIsFront(runes[0], EncodedAll(runes[1..]));
      var s := EncodedAll(runes);
      assert s[|Encoded(runes[0])|..] == EncodedAll(runes[1..]);
    }
  }

  /** The characters with the White_Space property. */
  predicate IsWhiteSpace(r: int) {
    || 0x09 <= r <= 0x0D || r == 0x20 || r == 0x85 || r == 0xA0 || r == 0x1680 || 0x2000 <= r <= 0x200A
    || r == 0x2028 || r == 0x2029 || r == 0x202F || r == 0x205F || r == 0x3000
  }

  /** What is trimmed as one character is the encoding of a white-space character. */
  lemma SpaceRunesExactly(u: Bytes)
    ensures IsSpaceRune(u) <==> exists r :: IsScalar(r) && IsWhiteSpace(r) && Encoded(r) == u
  {
    if IsSpaceRune(u) {
      var r := SpaceIsEncoded(u);
    }
    if r :| IsScalar(r) && IsWhiteSpace(r) && Encoded(r) == u {
      EncodedIsSpace(r);
    }
  }

  lemma SpaceIsEncoded(u: Bytes) returns (r: int)
    requires IsSpaceRune(u)
    ensures IsScalar(r) && IsWhiteSpace(r) && Encoded(r) == u
  {
    r := FrontIsEncoded(u);
  }

  lemma EncodedIsSpace(r: int)
    requires IsScalar(r) && IsWhiteSpace(r)
    ensures IsSpaceRune(Encoded(r))
  {
  }
}
