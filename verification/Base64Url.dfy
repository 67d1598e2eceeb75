/** The unpadded URL-safe base64 of section 5 and section 3.2 of RFC 4648, as Go's
    `base64.RawURLEncoding` reads and writes it, and the UTF-8 check of RFC 3629. */
module Base64Url {
  import opened Text

  type Octet = c: char | c as int < 256 witness 'a'

  type Bytes = seq<Octet>

  function Digit(n: int): (c: char)
    requires 0 <= n < 64
  {
    if n < 26 then ('A' as int + n) as char
    else if n < 52 then ('a' as int + n - 26) as char
    else if n < 62 then ('0' as int + n - 52) as char
    else if n == 62 then '-'
    else '_'
  }

  function DigitValue(c: char): (n: Option<int>)
    ensures n.Some? ==> 0 <= n.value < 64
  {
    if 'A' <= c <= 'Z' then Some(c as int - 'A' as int)
    else if 'a' <= c <= 'z' then Some(c as int - 'a' as int + 26)
    else if '0' <= c <= '9' then Some(c as int - '0' as int + 52)
    else if c == '-' then Some(62)
    else if c == '_' then Some(63)
    else None
  }

  lemma DigitRoundTrip(n: int)
    requires 0 <= n < 64
    ensures DigitValue(Digit(n)) == Some(n)
  {
  }

  // The six-bit regrouping: three octets read as four digits, and back.

  function First(b0: int): (d: int)
    requires 0 <= b0 < 256
    ensures 0 <= d < 64
  {
    b0 / 4
  }

  function Second(b0: int, b1: int): (d: int)
    requires 0 <= b0 < 256 && 0 <= b1 < 256
    ensures 0 <= d < 64
  {
    b0 % 4 * 16 + b1 / 16
  }

  function Third(b1: int, b2: int): (d: int)
    requires 0 <= b1 < 256 && 0 <= b2 < 256
    ensures 0 <= d < 64
  {
    b1 % 16 * 4 + b2 / 64
  }

  function Fourth(b2: int): (d: int)
    ensures 0 <= d < 64
  {
    b2 % 64
  }

  function Octet0(d0: int, d1: int): Octet
    requires 0 <= d0 < 64 && 0 <= d1 < 64
  {
    (d0 * 4 + d1 / 16) as char
  }

  function Octet1(d1: int, d2: int): Octet
    requires 0 <= d1 < 64 && 0 <= d2 < 64
  {
    (d1 % 16 * 16 + d2 / 4) as char
  }

  function Octet2(d2: int, d3: int): Octet
    requires 0 <= d2 < 64 && 0 <= d3 < 64
  {
    (d2 % 4 * 64 + d3) as char
  }

  /** Three bytes become four digits; a rest of one or two bytes becomes two or three digits. */
  function Encode(b: Bytes): string {
    if |b| == 0 then ""
    else
      var b0 := b[0] as int;
      if |b| == 1 then [Digit(First(b0)), Digit(Second(b0, 0))]
      else
        var b1 := b[1] as int;
        if |b| == 2 then [Digit(First(b0)), Digit(Second(b0, b1)), Digit(Third(b1, 0))]
        else
          var b2 := b[2] as int;
          [Digit(First(b0)), Digit(Second(b0, b1)), Digit(Third(b1, b2)), Digit(Fourth(b2))] + Encode(b[3..])
  }

  function WithoutLineBreaks(s: string): string {
    if s == "" then ""
    else (if s[0] == '\r' || s[0] == '\n' then "" else [s[0]]) + WithoutLineBreaks(s[1..])
  }

  /** Line breaks are skipped; a byte outside the alphabet or a single left-over digit is an error;
      the unused low bits of the last digit are ignored. */
  function Decode(s: string): Option<Bytes> {
    DecodeDigits(WithoutLineBreaks(s))
  }

  function DecodeDigits(s: string): Option<Bytes> {
    if |s| == 0 then Some([])
    else if |s| == 1 || DigitValue(s[0]).None? || DigitValue(s[1]).None? then None
    else
      var d0, d1 := DigitValue(s[0]).value, DigitValue(s[1]).value;
      if |s| == 2 then Some([Octet0(d0, d1)])
      else if DigitValue(s[2]).None? then None
      else
        var d2 := DigitValue(s[2]).value;
        if |s| == 3 then Some([Octet0(d0, d1), Octet1(d1, d2)])
        else if DigitValue(s[3]).None? then None
        else
          var rest := DecodeDigits(s[4..]);
          if rest.None? then None
          else Some([Octet0(d0, d1), Octet1(d1, d2), Octet2(d2, DigitValue(s[3]).value)] + rest.value)
  }

  predicate InAlphabet(s: string) {
    forall k :: 0 <= k < |s| ==> DigitValue(s[k]).Some?
  }

  lemma {:induction false} EncodeInAlphabet(b: Bytes)
    ensures InAlphabet(Encode(b))
  {
    if |b| >= 3 {
      EncodeInAlphabet(b[3..]);
    }
  }

  lemma {:induction false} NoLineBreaksInAlphabet(s: string)
    requires InAlphabet(s)
    ensures WithoutLineBreaks(s) == s
  {
    if s != "" {
      assert DigitValue(s[0]).Some?;
      NoLineBreaksInAlphabet(s[1..]);
    }
  }

  lemma SplitBy4(hi: int, lo: int)
    requires 0 <= lo < 4
    ensures (hi * 4 + lo) / 4 == hi && (hi * 4 + lo) % 4 == lo
  {
  }

  lemma SplitBy16(hi: int, lo: int)
    requires 0 <= lo < 16
    ensures (hi * 16 + lo) / 16 == hi && (hi * 16 + lo) % 16 == lo
  {
  }

  lemma Regrouping0(o0: Octet, o1: Octet)
    ensures Octet0(First(o0 as int), Second(o0 as int, o1 as int)) == o0
  {
    SplitBy16(o0 as int % 4, o1 as int / 16);
  }

  lemma Regrouping1(o0: Octet, o1: Octet, o2: Octet)
    ensures Octet1(Second(o0 as int, o1 as int), Third(o1 as int, o2 as int)) == o1
  {
    var b0, b1, b2 := o0 as int, o1 as int, o2 as int;
    SplitBy16(b0 % 4, b1 / 16);
    SplitBy4(b1 % 16, b2 / 64);
    assert Second(b0, b1) % 16 == b1 / 16 && Third(b1, b2) / 4 == b1 % 16;
    assert b1 / 16 * 16 + b1 % 16 == b1;
  }

  lemma Regrouping2(o1: Octet, o2: Octet)
    ensures Octet2(Third(o1 as int, o2 as int), Fourth(o2 as int)) == o2
  {
    SplitBy4(o1 as int % 16, o2 as int / 64);
  }

  /** Regrouping three octets loses nothing. */
  lemma Regrouping(o0: Octet, o1: Octet, o2: Octet)
    ensures Octet0(First(o0 as int), Second(o0 as int, o1 as int)) == o0
    ensures Octet1(Second(o0 as int, o1 as int), Third(o1 as int, o2 as int)) == o1
    ensures Octet2(Third(o1 as int, o2 as int), Fourth(o2 as int)) == o2
  {
    Regrouping0(o0, o1);
    Regrouping1(o0, o1, o2);
    Regrouping2(o1, o2);
  }

  lemma {:induction false} DecodeDigitsOfBlock(d0: int, d1: int, d2: int, d3: int, rest: string)
    requires 0 <= d0 < 64 && 0 <= d1 < 64 && 0 <= d2 < 64 && 0 <= d3 < 64
    ensures DecodeDigits([Digit(d0), Digit(d1)]) == Some([Octet0(d0, d1)])
    ensures DecodeDigits([Digit(d0), Digit(d1), Digit(d2)]) == Some([Octet0(d0, d1), Octet1(d1, d2)])
    ensures var r := DecodeDigits(rest);
            DecodeDigits([Digit(d0), Digit(d1), Digit(d2), Digit(d3)] + rest)
            == if r.None? then None else Some([Octet0(d0, d1), Octet1(d1, d2), Octet2(d2, d3)] + r.value)
  {
    DigitRoundTrip(d0);
    DigitRoundTrip(d1);
    DigitRoundTrip(d2);
    DigitRoundTrip(d3);
    assert ([Digit(d0), Digit(d1), Digit(d2), Digit(d3)] + rest)[4..] == rest;
  }

  /** The digits of the first block, and what they regroup to. */
  lemma FirstBlock(b: Bytes) returns (d0: int, d1: int, d2: int, d3: int)
    requires b != []
    ensures 0 <= d0 < 64 && 0 <= d1 < 64 && 0 <= d2 < 64 && 0 <= d3 < 64
    ensures Octet0(d0, d1) == b[0]
    ensures |b| >= 2 ==> Octet1(d1, d2) == b[1]
    ensures |b| >= 3 ==> Octet2(d2, d3) == b[2]
    ensures Encode(b) == if |b| == 1 then [Digit(d0), Digit(d1)]
                         else if |b| == 2 then [Digit(d0), Digit(d1), Digit(d2)]
                         else [Digit(d0), Digit(d1), Digit(d2), Digit(d3)] + Encode(b[3..])
  {
    var o1: Octet := if |b| >= 2 then b[1] else 0 as char;
    var o2: Octet := if |b| >= 3 then b[2] else 0 as char;
    Regrouping(b[0], o1, o2);
    d0, d1 := First(b[0] as int), Second(b[0] as int, o1 as int);
    d2, d3 := Third(o1 as int, o2 as int), Fourth(o2 as int);
  }

  lemma JoinFirstBlock(b: Bytes, o0: Octet, o1: Octet, o2: Octet)
    requires |b| == 1 ==> o0 == b[0]
    requires |b| == 2 ==> o0 == b[0] && o1 == b[1]
    requires |b| >= 3 ==> o0 == b[0] && o1 == b[1] && o2 == b[2]
    ensures |b| == 1 ==> [o0] == b
    ensures |b| == 2 ==> [o0, o1] == b
    ensures |b| >= 3 ==> [o0, o1, o2] + b[3..] == b
  {
  }

  lemma {:induction false} DecodeDigitsOfEncode(b: Bytes)
    ensures DecodeDigits(Encode(b)) == Some(b)
  {
    if b != [] {
      var d0, d1, d2, d3 := FirstBlock(b);
      var e := Encode(b);
      JoinFirstBlock(b, Octet0(d0, d1), Octet1(d1, d2), Octet2(d2, d3));
      if |b| >= 3 {
        DecodeDigitsOfEncode(b[3..]);
        DecodeDigitsOfBlock(d0, d1, d2, d3, Encode(b[3..]));
        assert DecodeDigits(e) == Some([Octet0(d0, d1), Octet1(d1, d2), Octet2(d2, d3)] + b[3..]);
      } else {
        DecodeDigitsOfBlock(d0, d1, d2, d3, "");
      }
    }
  }

  /** Decoding undoes encoding, for every byte string. */
  lemma {:induction false} DecodeOfEncode(b: Bytes)
    ensures Decode(Encode(b)) == Some(b)
  {
    EncodeInAlphabet(b);
    NoLineBreaksInAlphabet(Encode(b));
    DecodeDigitsOfEncode(b);
  }

  // ----- which digits, and which texts are read -----

  /** The digits of a block are those of the number its bytes stand for, the first byte and the first digit
      first; a byte that is missing counts as zero. */
  lemma BlockKeepsTheNumber(o0: Octet, o1: Octet, o2: Octet)
    ensures var b0, b1, b2 := o0 as int, o1 as int, o2 as int;
            ((First(b0) * 64 + Second(b0, b1)) * 64 + Third(b1, b2)) * 64 + Fourth(b2) == (b0 * 256 + b1) * 256 + b2
  {
  }

  /** A test vector of section 10 of RFC 4648, and the two digits in which the URL-safe alphabet differs. */
  lemma {:induction false} KnownEncodings()
    ensures Encode("foobar") == "Zm9vYmFy" && Encode("fooba") == "Zm9vYmE" && Encode("foob") == "Zm9vYg"
    ensures Encode([0xFB as char, 0xEF as char, 0xFF as char]) == "--__"
  {
    assert "foobar"[3..] == "bar" && "fooba"[3..] == "ba" && "foob"[3..] == "b" && "bar"[3..] == "";
    assert [0xFB as char, 0xEF as char, 0xFF as char][3..] == "";
  }

  predicate IsBase64Url(c: char) {
    'A' <= c <= 'Z' || 'a' <= c <= 'z' || '0' <= c <= '9' || c == '-' || c == '_'
  }

  predicate AllBase64Url(s: string) {
    forall k :: 0 <= k < |s| ==> IsBase64Url(s[k])
  }

  /** A text is decoded exactly if it holds digits alone, line breaks aside, and no single one is left over. */
  lemma {:induction false} DecodedExactly(s: string)
    ensures var digits := WithoutLineBreaks(s);
            Decode(s).Some? <==> AllBase64Url(digits) && |digits| % 4 != 1
  {
    DigitsDecodedExactly(WithoutLineBreaks(s));
  }

  /** A line break anywhere makes no difference. */
  lemma {:induction false} LineBreakIsSkipped(a: string, b: string, c: char)
    requires c == '\r' || c == '\n'
    ensures Decode(a + [c] + b) == Decode(a + b)
  {
    BreakDropped(a, b, c);
  }

  lemma {:induction false} BreakDropped(a: string, b: string, c: char)
    requires c == '\r' || c == '\n'
    ensures WithoutLineBreaks(a + [c] + b) == WithoutLineBreaks(a + b)
  {
    if a == "" {
      assert a + [c] + b == [c] + b && a + b == b;
      assert ([c] + b)[1..] == b;
    } else {
      assert (a + [c] + b)[1..] == a[1..] + [c] + b && (a + b)[1..] == a[1..] + b;
      BreakDropped(a[1..], b, c);
    }
  }

  lemma {:induction false} DigitsDecodedExactly(s: string)
    ensures DecodeDigits(s).Some? <==> AllBase64Url(s) && |s| % 4 != 1
  {
    if |s| >= 4 {
      DigitsDecodedExactly(s[4..]);
      BlockDecoded(s);
      BlockInFront(s);
    } else {
      RestDecoded(s);
    }
  }

  lemma BlockInFront(s: string)
    requires |s| >= 4
    ensures AllBase64Url(s) <==>
      && IsBase64Url(s[0]) && IsBase64Url(s[1]) && IsBase64Url(s[2]) && IsBase64Url(s[3])
      && AllBase64Url(s[4..])
  {
    assert s == s[..4] + s[4..];
  }

  lemma {:induction false} RestDecoded(s: string)
    requires |s| < 4
    ensures DecodeDigits(s).Some? <==> AllBase64Url(s) && |s| != 1
  {
  }

  /** A block of four digits in front. */
  lemma {:induction false} BlockDecoded(s: string)
    requires |s| >= 4
    ensures DecodeDigits(s).Some? <==>
      && IsBase64Url(s[0]) && IsBase64Url(s[1]) && IsBase64Url(s[2]) && IsBase64Url(s[3])
      && DecodeDigits(s[4..]).Some?
  {
  }

  // ----- UTF-8 -----

  predicate Continuation(c: Octet) { 0x80 <= c as int <= 0xBF }

  /** The length of the well-formed UTF-8 sequence at the front, 0 when there is none. */
  function Utf8Length(s: Bytes): (n: nat)
    ensures n <= |s|
  {
    if s == [] then 0
    else
      var b0 := s[0] as int;
      if b0 < 0x80 then 1
      else if |s| >= 2 && 0xC2 <= b0 <= 0xDF && Continuation(s[1]) then 2
      else if |s| >= 3 && 0xE0 <= b0 <= 0xEF && Continuation(s[1]) && Continuation(s[2])
              && (b0 == 0xE0 ==> s[1] as int >= 0xA0) && (b0 == 0xED ==> s[1] as int <= 0x9F) then 3
      else if |s| >= 4 && 0xF0 <= b0 <= 0xF4 && Continuation(s[1]) && Continuation(s[2]) && Continuation(s[3])
              && (b0 == 0xF0 ==> s[1] as int >= 0x90) && (b0 == 0xF4 ==> s[1] as int <= 0x8F) then 4
      else 0
  }

  predicate ValidUtf8(s: Bytes)
    decreases |s|
  {
    s == [] || (Utf8Length(s) > 0 && ValidUtf8(s[Utf8Length(s)..]))
  }
}
