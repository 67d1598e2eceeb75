/** `strconv.Itoa` and `strconv.Atoi` on a 64-bit platform. */
module Decimal {
  import opened Text

  const MAX_INT: int := 0x7fff_ffff_ffff_ffff
  const MIN_INT: int := -0x8000_0000_0000_0000

  function DigitOf(n: int): char
    requires 0 <= n < 10
  {
    ('0' as int + n) as char
  }

  function Digits(n: nat): (s: string)
    ensures s != ""
  {
    if n < 10 then [DigitOf(n)] else Digits(n / 10) + [DigitOf(n % 10)]
  }

  function Itoa(n: int): string {
    if n < 0 then "-" + Digits(-n) else Digits(n)
  }

  function Value(s: string): (n: Option<nat>)
    ensures n.Some? ==> s != ""
  {
    if s == "" then None
    else
      var d := s[|s| - 1];
      if !('0' <= d <= '9') then None
      else if |s| == 1 then Some(d as int - '0' as int)
      else
        var rest := Value(s[..|s| - 1]);
        if rest.None? then None else Some(rest.value * 10 + (d as int - '0' as int))
  }

  function InRange(n: int): Option<int> {
    if MIN_INT <= n <= MAX_INT then Some(n) else None
  }

  /** An optional sign and at least one digit; a value outside the range of `int` is an error. */
  function Atoi(s: string): Option<int> {
    if s == "" then None
    else
      var signed := s[0] == '-' || s[0] == '+';
      var n := Value(if signed then s[1..] else s);
      if n.None? then None else var v: int := n.value; InRange(if s[0] == '-' then -v else v)
  }

  lemma {:induction false} ValueOfDigits(n: nat)
    ensures Value(Digits(n)) == Some(n)
    ensures '0' <= Digits(n)[0] <= '9'
  {
    if n >= 10 {
      ValueOfDigits(n / 10);
      var s := Digits(n);
      assert s[..|s| - 1] == Digits(n / 10);
      assert s[0] == Digits(n / 10)[0];
    }
  }

  /** Reading what was written gives the number back. */
  lemma AtoiOfItoa(n: int)
    requires MIN_INT <= n <= MAX_INT
    ensures Atoi(Itoa(n)) == Some(n)
    ensures Itoa(n) != ""
  {
    ValueOfDigits(if n < 0 then -n else n);
    if n < 0 {
      assert Itoa(n)[1..] == Digits(-n);
    }
  }

  predicate AllDigits(s: string) {
    s != "" && forall k :: 0 <= k < |s| ==> '0' <= s[k] <= '9'
  }

  lemma {:induction false} ValueExactly(s: string)
    ensures Value(s).Some? <==> AllDigits(s)
  {
    if |s| > 1 {
      ValueExactly(s[..|s| - 1]);
    }
  }

  /** The texts that are read: digits, at least one, with or without a sign, of a number in range. A plus sign
      makes no difference, a minus sign turns the number round. */
  lemma {:induction false} AtoiExactly(digits: string)
    requires digits == "" || (digits[0] != '-' && digits[0] != '+')
    ensures Atoi(digits).Some? <==> AllDigits(digits) && Value(digits).Some? && Value(digits).value <= MAX_INT
    ensures Atoi("+" + digits) == Atoi(digits)
    ensures Atoi("-" + digits).Some? <==> AllDigits(digits) && Value(digits).Some? && Value(digits).value <= MAX_INT + 1
    ensures Atoi(digits).Some? ==> Atoi("-" + digits) == Some(-Atoi(digits).value)
  {
    ValueExactly(digits);
    assert ("+" + digits)[1..] == digits && ("-" + digits)[1..] == digits;
  }
}
