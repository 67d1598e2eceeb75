/** The request object the proxy rewrites, with Go's header-key conventions. */
module HttpRequest {

  type Header = map<string, seq<string>>

  class Request {
    var scheme: string
    var urlHost: string
    var path: string
    var rawQuery: string
    var host: string
    var header: Header

    constructor (path: string, header: Header)
      ensures this.path == path && this.header == header
    {
      this.scheme, this.urlHost, this.path, this.rawQuery, this.host := "", "", path, "", "";
      this.header := header;
    }
  }

  function LowerByte(b: char): char {
    if 'A' <= b <= 'Z' then (b as int + 32) as char else b
  }

  function UpperByte(b: char): char {
    if 'a' <= b <= 'z' then (b as int - 32) as char else b
  }

  /** `strings.ToLower` on ASCII text. */
  function Lower(s: string): (r: string)
    ensures |r| == |s|
  {
    seq(|s|, k requires 0 <= k < |s| => LowerByte(s[k]))
  }

  /** The bytes a header field name may hold (section 5.6.2 of RFC 9110, `token`). */
  predicate IsTokenByte(b: char) {
    || 'a' <= b <= 'z' || 'A' <= b <= 'Z' || '0' <= b <= '9'
    || b == '!' || '#' <= b <= '\'' || '*' <= b <= '+' || '-' <= b <= '.' || '^' <= b <= '`' || b == '|' || b == '~'
  }

  function CanonicalByte(key: string, k: nat): char
    requires k < |key|
  {
    if k == 0 || key[k - 1] == '-' then UpperByte(key[k]) else LowerByte(key[k])
  }

  /** `textproto.CanonicalMIMEHeaderKey`: a key with any other byte is left alone. */
  function CanonicalKey(key: string): string {
    if IsToken(key) then seq(|key|, k requires 0 <= k < |key| => CanonicalByte(key, k)) else key
  }

  predicate IsToken(key: string) {
    forall k :: 0 <= k < |key| ==> IsTokenByte(key[k])
  }

  lemma LowerOfUpperByte(b: char)
    ensures LowerByte(UpperByte(b)) == LowerByte(b) && LowerByte(LowerByte(b)) == LowerByte(b)
  {
  }

  /** Canonicalising only changes the case. */
  lemma CanonicalKeepsLower(key: string)
    ensures Lower(CanonicalKey(key)) == Lower(key)
  {
    var c := CanonicalKey(key);
    assert |c| == |key|;
    if c != key {
      forall k | 0 <= k < |key| ensures Lower(c)[k] == Lower(key)[k] {
        assert c[k] == CanonicalByte(key, k);
        LowerOfUpperByte(key[k]);
      }
    }
  }

  predicate IsUpper(b: char) { 'A' <= b <= 'Z' }

  predicate IsLower(b: char) { 'a' <= b <= 'z' }

  const DELIMITERS: string := "\"(),/:;<=>?@[\\]{}"

  /** Visible ASCII, and no delimiter of section 5.6.2 of RFC 9110. */
  predicate IsNameByte(b: char) {
    '!' <= b <= '~' && b !in DELIMITERS
  }

  lemma TokenBytesExactly(b: char)
    ensures IsTokenByte(b) <==> IsNameByte(b)
  {
  }

  /** A letter at the start or behind a dash is upper case, any other is lower case. */
  predicate CaseFits(key: string, k: nat)
    requires k < |key|
  {
    if k == 0 || key[k - 1] == '-' then !IsLower(key[k]) else !IsUpper(key[k])
  }

  /** A key that may be a header name gets the case the convention asks for at every letter; any other key is
      left alone. */
  lemma CanonicalExactly(key: string)
    ensures var c := CanonicalKey(key);
            && |c| == |key|
            && (if forall k :: 0 <= k < |key| ==> IsNameByte(key[k]) then forall k :: 0 <= k < |c| ==> CaseFits(c, k)
                else c == key)
  {
    forall k | 0 <= k < |key| ensures IsTokenByte(key[k]) <==> IsNameByte(key[k]) {
      TokenBytesExactly(key[k]);
    }
    var c := CanonicalKey(key);
    if IsToken(key) {
      forall k | 0 <= k < |c| ensures CaseFits(c, k) {
        assert c[k] == CanonicalByte(key, k);
        if k > 0 {
          assert c[k - 1] == CanonicalByte(key, k - 1);
          CaseOfByteTwice(key[k - 1]);
        }
      }
    }
  }

  lemma CaseOfByteTwice(b: char)
    ensures UpperByte(UpperByte(b)) == UpperByte(b) && LowerByte(LowerByte(b)) == LowerByte(b)
    ensures UpperByte(b) == '-' <==> b == '-'
    ensures LowerByte(b) == '-' <==> b == '-'
    ensures IsTokenByte(b) ==> IsTokenByte(UpperByte(b)) && IsTokenByte(LowerByte(b))
  {
  }

  lemma CanonicalByteTwice(key: string, canonical: string, k: nat)
    requires k < |key| == |canonical|
    requires canonical[k] == CanonicalByte(key, k)
    requires k > 0 ==> canonical[k - 1] == CanonicalByte(key, k - 1)
    ensures CanonicalByte(canonical, k) == canonical[k]
  {
    CaseOfByteTwice(key[k]);
    if k > 0 {
      CaseOfByteTwice(key[k - 1]);
    }
  }

  /** A canonical key stays as it is. */
  lemma CanonicalTwice(key: string)
    ensures CanonicalKey(CanonicalKey(key)) == CanonicalKey(key)
  {
    var c := CanonicalKey(key);
    if IsToken(key) {
      forall k | 0 <= k < |key| ensures IsTokenByte(c[k]) && CanonicalByte(c, k) == c[k] {
        CaseOfByteTwice(key[k]);
        CanonicalByteTwice(key, c, k);
      }
      assert IsToken(c);
      var d := CanonicalKey(c);
      assert |d| == |c| && forall k :: 0 <= k < |c| ==> d[k] == c[k];
    }
  }
}
