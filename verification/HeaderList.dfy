/** The tokenizer of the header list of a CORS preflight request (pkg/proxy/cors.go). */
module HeaderList {

  predicate IsLowerCase(b: char) { 'a' <= b <= 'z' }

  predicate IsUpperCase(b: char) { 'A' <= b <= 'Z' }

  predicate IsLetter(b: char) { IsLowerCase(b) || IsUpperCase(b) }

  predicate IsMark(b: char) { b == '-' || b == '_' || b == '.' || '0' <= b <= '9' }

  /** The bytes a header name may hold; any other byte that is no separator is dropped. */
  predicate IsLegal(b: char) { IsLetter(b) || IsMark(b) }

  predicate IsSeparator(b: char) { b == ' ' || b == ',' }

  /** The letter after one of these is written in upper case. */
  predicate IsDash(b: char) { b == '-' || b == '_' }

  function ToUpper(b: char): (r: char)
    ensures IsLegal(b) ==> IsLegal(r)
  {
    if IsLowerCase(b) then (b as int - 32) as char else b
  }

  function ToLower(b: char): (r: char)
    ensures IsLegal(b) ==> IsLegal(r)
    ensures IsSeparator(r) <==> IsSeparator(b)
    ensures IsDash(r) <==> IsDash(b)
  {
    if IsUpperCase(b) then (b as int + 32) as char else b
  }

  function Lowered(s: string): (r: string)
    ensures |r| == |s|
  {
    seq(|s|, k requires 0 <= k < |s| => ToLower(s[k]))
  }

  // ----- what the tokenizer computes on every byte string -----

  /** What one byte adds to the current token. */
  function Emitted(b: char, upper: bool): string {
    if IsLetter(b) then [if upper then ToUpper(b) else ToLower(b)]
    else if IsMark(b) then [b]
    else []
  }

  function Render(word: string, upper: bool): string {
    if word == [] then [] else Emitted(word[0], upper) + Render(word[1..], IsDash(word[0]))
  }

  function UpperAfter(word: string, upper: bool): bool {
    if word == [] then upper else IsDash(word[|word| - 1])
  }

  /** The text between the separators, empty words included. */
  function Words(s: string): (words: seq<string>)
    ensures |words| >= 1
  {
    if s == [] then [""]
    else
      var rest := Words(s[1..]);
      if IsSeparator(s[0]) then [""] + rest else [[s[0]] + rest[0]] + rest[1..]
  }

  function NonEmpty(t: string): seq<string> {
    if t == [] then [] else [t]
  }

  /** Every word rendered; the case flag outlives a word that rendered to nothing. */
  function Rendered(words: seq<string>, upper: bool): seq<string> {
    if words == [] then []
    else
      var t := Render(words[0], upper);
      NonEmpty(t) + Rendered(words[1..], t != [] || UpperAfter(words[0], upper))
  }

  function Tokens(s: string): seq<string> {
    Rendered(Words(s), true)
  }

  /** The tokens still to come when `token` is open, with `rest` unread. */
  function Remaining(token: string, upper: bool, rest: string): seq<string>
    decreases rest
  {
    if rest == [] then NonEmpty(token)
    else if IsSeparator(rest[0]) then NonEmpty(token) + Remaining([], upper || token != [], rest[1..])
    else Remaining(token + Emitted(rest[0], upper), IsDash(rest[0]), rest[1..])
  }

  lemma WordEnds(token: string, upper: bool, words: seq<string>, flag: bool)
    requires words != []
    ensures token + Render("", upper) == token && ([""] + words)[1..] == words
    ensures "" + Render(words[0], flag) == Render(words[0], flag)
    ensures Rendered(words, flag)
         == NonEmpty(Render(words[0], flag))
            + Rendered(words[1..], Render(words[0], flag) != [] || UpperAfter(words[0], flag))
  {
  }

  lemma {:induction false} FirstByteRendered(token: string, b: char, word: string, upper: bool)
    ensures token + Emitted(b, upper) + Render(word, IsDash(b)) == token + Render([b] + word, upper)
    ensures UpperAfter(word, IsDash(b)) == UpperAfter([b] + word, upper)
  {
    assert ([b] + word)[1..] == word;
  }

  lemma {:induction false} RemainingIsRendered(token: string, upper: bool, rest: string)
    ensures var words := Words(rest);
            var t := token + Render(words[0], upper);
            Remaining(token, upper, rest)
            == NonEmpty(t) + Rendered(words[1..], t != [] || UpperAfter(words[0], upper))
    decreases rest
  {
    if rest != [] {
      var words := Words(rest[1..]);
      var b := rest[0];
      if IsSeparator(b) {
        var flag := upper || token != [];
        RemainingIsRendered([], flag, rest[1..]);
        WordEnds(token, upper, words, flag);
        assert Words(rest) == [""] + words && Words(rest)[0] == "";
      } else {
        RemainingIsRendered(token + Emitted(b, upper), IsDash(b), rest[1..]);
        FirstByteRendered(token, b, words[0], upper);
        assert Words(rest) == [[b] + words[0]] + words[1..];
        assert Words(rest)[0] == [b] + words[0] && Words(rest)[1..] == words[1..];
      }
    } else {
      assert token + Render("", upper) == token;
      assert Words(rest)[1..] == [];
    }
  }

  lemma {:induction false} RemainingIsTokens(s: string)
    ensures Remaining("", true, s) == Tokens(s)
  {
    RemainingIsRendered("", true, s);
    assert "" + Render(Words(s)[0], true) == Render(Words(s)[0], true);
  }

  /** The loop's state after the byte `b`: the tokens flushed so far, the open token, the case flag. */
  lemma OneByte(headers: seq<string>, token: string, upper: bool, rest: string)
    requires rest != []
    ensures var b := rest[0];
            var h := token + Emitted(b, upper);
            headers + Remaining(token, upper, rest)
            == if IsSeparator(b) then headers + NonEmpty(h) + Remaining("", upper || h != [], rest[1..])
               else if |rest| == 1 then headers + NonEmpty(h)
               else headers + Remaining(h, IsDash(b), rest[1..])
  {
    if IsSeparator(rest[0]) {
      assert token + Emitted(rest[0], upper) == token;
      assert headers + (NonEmpty(token) + Remaining("", upper || token != [], rest[1..]))
          == headers + NonEmpty(token) + Remaining("", upper || token != [], rest[1..]);
    }
  }

  function RemainingAt(s: string, i: nat, token: string, upper: bool): seq<string>
    requires i <= |s|
  {
    Remaining(token, upper, s[i..])
  }

  /** The same for the byte at position `i`. */
  lemma ByteAt(headers: seq<string>, s: string, i: nat, token: string, upper: bool)
    requires i < |s|
    ensures var h := token + Emitted(s[i], upper);
            headers + RemainingAt(s, i, token, upper)
            == if IsSeparator(s[i]) then headers + NonEmpty(h) + RemainingAt(s, i + 1, "", upper || h != [])
               else if i == |s| - 1 then headers + NonEmpty(h)
               else headers + RemainingAt(s, i + 1, h, IsDash(s[i]))
  {
    assert s[i..][0] == s[i] && s[i..][1..] == s[i + 1..];
    OneByte(headers, token, upper, s[i..]);
  }

  /** What the loop may do next without changing the outcome: after a separator or the last byte flush a
      token that holds something, otherwise go on with the token and the flag the byte sets. */
  lemma AfterByte(headers: seq<string>, s: string, i: nat, token: string, upper: bool)
    requires i < |s|
    ensures var h := token + Emitted(s[i], upper);
            headers + RemainingAt(s, i, token, upper)
            == if !IsSeparator(s[i]) && i < |s| - 1 then headers + RemainingAt(s, i + 1, h, IsDash(s[i]))
               else if h != [] then headers + [h] + RemainingAt(s, i + 1, "", true)
               else headers + RemainingAt(s, i + 1, "", upper)
  {
    ByteAt(headers, s, i, token, upper);
    if i == |s| - 1 {
      assert s[i + 1..] == [];
    }
  }

  /** What a byte does to the buffer: a letter goes in with the case the flag asks for, a mark as it is. */
  method AppendByte(h: string, b: char, upper: bool) returns (grown: string)
    ensures grown == h + Emitted(b, upper)
  {
    grown := h;
    if 'a' <= b <= 'z' {
      grown := grown + [if upper then (b as int - 32) as char else b];
    } else if 'A' <= b <= 'Z' {
      grown := grown + [if !upper then (b as int + 32) as char else b];
    } else if b == '-' || b == '_' || b == '.' || '0' <= b <= '9' {
      grown := grown + [b];
    }
  }

  /** The one-pass loop over the bytes, with the token under construction in a buffer. */
  method ParseHeaderList(headerList: string) returns (headers: seq<string>)
    ensures headers == Tokens(headerList)
  {
    RemainingIsTokens(headerList);
    assert headerList[0..] == headerList;
    var l := |headerList|;
    var h := "";
    var upper := true;
    headers := [];
    for i := 0 to l
      invariant i == l ==> h == ""
      invariant headers + RemainingAt(headerList, i, h, upper) == Tokens(headerList)
    {
      var b := headerList[i];
      AfterByte(headers, headerList, i, h, upper);
      h := AppendByte(h, b, upper);
      if b == ' ' || b == ',' || i == l - 1 {
        if |h| > 0 {
          headers := headers + [h];
          h := "";
          upper := true;
        }
      } else {
        upper := b == '-' || b == '_';
      }
    }
    assert RemainingAt(headerList, l, "", upper) == [];
  }
}
