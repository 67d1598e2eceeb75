/** What the header-list tokenizer promises its caller. */
module HeaderListProofs {
  import opened Text
  import opened HeaderList

  // ----- the reference: split, then canonicalise -----

  /** A header name in canonical case: upper case at the start and after a dash, lower case elsewhere. */
  function Canonical(word: string): (r: string)
    ensures |r| == |word|
  {
    seq(|word|, k requires 0 <= k < |word| => CanonicalAt(word, k))
  }

  function CanonicalAt(word: string, k: nat): char
    requires k < |word|
  {
    if k == 0 || word[k - 1] == '-' || word[k - 1] == '_' then ToUpper(word[k]) else ToLower(word[k])
  }

  function EachCanonical(words: seq<string>): (r: seq<string>)
    ensures |r| == |words|
  {
    seq(|words|, k requires 0 <= k < |words| => Canonical(words[k]))
  }

  function WithoutEmpty(words: seq<string>): seq<string> {
    if words == [] then [] else NonEmpty(words[0]) + WithoutEmpty(words[1..])
  }

  /** The text split at every run of spaces and commas. */
  function Fields(s: string): seq<string> {
    WithoutEmpty(Words(s))
  }

  /** Letters, digits, `-`, `_` and `.`. */
  predicate IsNameByte(b: char) {
    'a' <= b <= 'z' || 'A' <= b <= 'Z' || '0' <= b <= '9' || b == '-' || b == '_' || b == '.'
  }

  /** The header-list alphabet: the bytes of a name, space and comma. */
  predicate IsHeaderList(s: string) {
    forall k :: 0 <= k < |s| ==> IsNameByte(s[k]) || s[k] == ' ' || s[k] == ','
  }

  predicate AllLegal(s: string) {
    forall k :: 0 <= k < |s| ==> IsLegal(s[k])
  }

  /** The bytes of `s` a header name may hold, in order. */
  function Kept(s: string): string {
    if s == "" then "" else (if IsNameByte(s[0]) then [s[0]] else "") + Kept(s[1..])
  }

  lemma {:induction false} WordsOfHeaderList(s: string)
    requires IsHeaderList(s)
    ensures forall k :: 0 <= k < |Words(s)| ==> AllLegal(Words(s)[k])
  {
    if s != "" {
      WordsOfHeaderList(s[1..]);
    }
  }

  /** Rendering a legal word from a set case flag is canonicalising it. */
  lemma {:induction false} RenderLegal(word: string, upper: bool)
    requires AllLegal(word)
    ensures |Render(word, upper)| == |word|
    ensures forall k :: 0 <= k < |word| ==>
      Render(word, upper)[k]
      == if (if k == 0 then upper else IsDash(word[k - 1])) then ToUpper(word[k]) else ToLower(word[k])
  {
    if word != "" {
      RenderLegal(word[1..], IsDash(word[0]));
      assert |Emitted(word[0], upper)| == 1;
      forall k | 0 <= k < |word|
        ensures Render(word, upper)[k]
             == if (if k == 0 then upper else IsDash(word[k - 1])) then ToUpper(word[k]) else ToLower(word[k])
      {
        if k > 0 {
          assert Render(word, upper)[k] == Render(word[1..], IsDash(word[0]))[k - 1];
          assert word[1..][k - 1] == word[k];
        }
      }
    }
  }

  lemma {:induction false} RenderIsCanonical(word: string)
    requires AllLegal(word)
    ensures Render(word, true) == Canonical(word)
  {
    RenderLegal(word, true);
  }

  lemma {:induction false} RenderedIsCanonical(words: seq<string>)
    requires forall k :: 0 <= k < |words| ==> AllLegal(words[k])
    ensures Rendered(words, true) == EachCanonical(WithoutEmpty(words))
  {
    if words != [] {
      RenderIsCanonical(words[0]);
      RenderedIsCanonical(words[1..]);
      var rest := WithoutEmpty(words[1..]);
      assert EachCanonical(NonEmpty(words[0]) + rest)
          == EachCanonical(NonEmpty(words[0])) + EachCanonical(rest);
      assert EachCanonical(NonEmpty(words[0])) == NonEmpty(Canonical(words[0]));
    }
  }

  /** On the header-list alphabet the one-pass loop is "split, then canonicalise". */
  lemma TokensOfHeaderList(s: string)
    requires IsHeaderList(s)
    ensures Tokens(s) == EachCanonical(Fields(s))
  {
    WordsOfHeaderList(s);
    RenderedIsCanonical(Words(s));
  }

  /** The alphabet matters: a dropped byte in front of a word takes its capital away. */
  lemma DroppedByteCostsTheCapital()
    ensures Tokens("a") == ["A"] && Tokens("!a") == ["a"]
    ensures EachCanonical(Fields("a")) == ["A"]
  {
    RemainingIsTokens("a");
    RemainingIsTokens("!a");
    assert Emitted('a', true) == ['A'] && "" + ['A'] == "A";
    assert Emitted('!', true) == "" && "" + "" == "" && "!a"[1..] == "a";
    assert Emitted('a', false) == ['a'] && "" + ['a'] == "a";
    assert Remaining("", true, "a") == Remaining("A", false, "");
    assert Remaining("", true, "!a") == Remaining("", false, "a") == Remaining("a", false, "");
    TokensOfHeaderList("a");
  }

  // ----- conservation -----

  lemma {:induction false} RenderConserves(word: string, upper: bool)
    ensures Lowered(Render(word, upper)) == Lowered(Kept(word))
    ensures AllLegal(Render(word, upper))
  {
    if word != "" {
      RenderConserves(word[1..], IsDash(word[0]));
      LoweredAppend(Emitted(word[0], upper), Render(word[1..], IsDash(word[0])));
      LoweredAppend(if IsLegal(word[0]) then [word[0]] else "", Kept(word[1..]));
    }
  }

  lemma LoweredAppend(a: string, b: string)
    ensures Lowered(a + b) == Lowered(a) + Lowered(b)
  {
  }

  lemma {:induction false} KeptOfWords(s: string)
    ensures Kept(Flat(Words(s))) == Kept(s)
  {
    if s != "" {
      KeptOfWords(s[1..]);
      var words := Words(s[1..]);
      if IsSeparator(s[0]) {
        assert Flat([""] + words) == Flat(words) by { FlatAppend([""], words); assert Flat([""]) == ""; }
      } else {
        var first := [s[0]] + words[0];
        assert Flat([first] + words[1..]) == [s[0]] + Flat(words) by {
          FlatAppend([first], words[1..]);
          assert Flat([first]) == first;
        }
        assert ([s[0]] + Flat(words))[1..] == Flat(words);
      }
    }
  }

  lemma {:induction false} KeptAppend(a: string, b: string)
    ensures Kept(a + b) == Kept(a) + Kept(b)
  {
    if a == "" {
      assert a + b == b;
    } else {
      var head := if IsLegal(a[0]) then [a[0]] else "";
      assert (a + b)[1..] == a[1..] + b && (a + b)[0] == a[0];
      KeptAppend(a[1..], b);
      assert Kept(a + b) == head + Kept(a[1..] + b);
      assert head + (Kept(a[1..]) + Kept(b)) == (head + Kept(a[1..])) + Kept(b);
    }
  }

  lemma {:induction false} RenderedConserves(words: seq<string>, upper: bool)
    ensures Lowered(Flat(Rendered(words, upper))) == Lowered(Kept(Flat(words)))
    ensures forall k :: 0 <= k < |Rendered(words, upper)| ==>
      Rendered(words, upper)[k] != "" && AllLegal(Rendered(words, upper)[k])
  {
    if words != [] {
      var t := Render(words[0], upper);
      var u := t != [] || UpperAfter(words[0], upper);
      RenderConserves(words[0], upper);
      RenderedConserves(words[1..], u);
      FlatAppend(NonEmpty(t), Rendered(words[1..], u));
      assert Flat(NonEmpty(t)) == t;
      LoweredAppend(t, Flat(Rendered(words[1..], u)));
      KeptAppend(words[0], Flat(words[1..]));
      LoweredAppend(Kept(words[0]), Kept(Flat(words[1..])));
    }
  }

  /** On every byte string: the tokens put together are the legal bytes of the input up to case,
      none lost and none repeated; no token is empty or holds any other byte. */
  lemma {:induction false} TokensConserveLegalBytes(s: string)
    ensures Lowered(Flat(Tokens(s))) == Lowered(Kept(s))
    ensures forall k :: 0 <= k < |Tokens(s)| ==> Tokens(s)[k] != "" && AllLegal(Tokens(s)[k])
  {
    RenderedConserves(Words(s), true);
    KeptOfWords(s);
  }

  // ----- case -----

  lemma {:induction false} RemainingIgnoresCase(token: string, upper: bool, a: string, b: string)
    requires Lowered(a) == Lowered(b)
    ensures Remaining(token, upper, a) == Remaining(token, upper, b)
    decreases a
  {
    assert |a| == |Lowered(a)| == |b|;
    if a != "" {
      assert ToLower(a[0]) == Lowered(a)[0] == Lowered(b)[0] == ToLower(b[0]);
      assert Lowered(a[1..]) == Lowered(a)[1..] && Lowered(b[1..]) == Lowered(b)[1..];
      if IsSeparator(a[0]) {
        RemainingIgnoresCase("", upper || token != "", a[1..], b[1..]);
      } else {
        assert Emitted(a[0], upper) == Emitted(b[0], upper);
        RemainingIgnoresCase(token + Emitted(a[0], upper), IsDash(a[0]), a[1..], b[1..]);
      }
    }
  }

  /** On every byte string the case of the input does not matter. */
  lemma TokensIgnoreCase(a: string, b: string)
    requires Lowered(a) == Lowered(b)
    ensures Tokens(a) == Tokens(b)
  {
    RemainingIgnoresCase("", true, a, b);
    RemainingIsTokens(a);
    RemainingIsTokens(b);
  }

  // ----- round trip -----

  lemma {:induction false} WithoutEmptyCons(word: string, words: seq<string>)
    ensures WithoutEmpty([word] + words) == NonEmpty(word) + WithoutEmpty(words)
  {
    assert ([word] + words)[1..] == words;
  }

  lemma FieldsAppend(word: string, rest: string)
    requires AllLegal(word)
    ensures Fields(word + ", " + rest) == NonEmpty(word) + Fields(rest)
  {
    var tail := ", " + rest;
    assert word + ", " + rest == word + tail;
    WordsAppend(word, tail);
    assert tail[1..][1..] == rest;
    assert Words(tail)[1..] == [""] + Words(rest);
    WithoutEmptyCons(word, [""] + Words(rest));
    WithoutEmptyCons("", Words(rest));
  }

  lemma {:induction false} WordsAppend(word: string, tail: string)
    requires AllLegal(word)
    requires tail == "" || IsSeparator(tail[0])
    ensures Words(tail)[0] == ""
    ensures Words(word + tail) == [word] + Words(tail)[1..]
  {
    if word == "" {
      assert word + tail == tail;
      assert Words(tail)[0] == "";
    } else {
      WordsAppend(word[1..], tail);
      assert (word + tail)[1..] == word[1..] + tail;
      assert [word[0]] + word[1..] == word;
    }
  }

  lemma {:induction false} FieldsOfJoin(tokens: seq<string>)
    requires forall k :: 0 <= k < |tokens| ==> tokens[k] != "" && AllLegal(tokens[k])
    ensures Fields(Join(tokens, ", ")) == tokens
    ensures IsHeaderList(Join(tokens, ", "))
  {
    if |tokens| == 1 {
      WordsAppend(tokens[0], "");
      assert tokens[0] + "" == tokens[0];
      assert Words(tokens[0]) == [tokens[0]] + [];
      WithoutEmptyCons(tokens[0], []);
      assert tokens == [tokens[0]];
    } else if |tokens| > 1 {
      FieldsOfJoin(tokens[1..]);
      FieldsAppend(tokens[0], Join(tokens[1..], ", "));
    }
  }

  lemma CaseTwice(b: char)
    ensures ToUpper(ToUpper(b)) == ToUpper(b) && ToLower(ToLower(b)) == ToLower(b)
    ensures IsDash(ToUpper(b)) <==> IsDash(b)
  {
  }

  lemma CanonicalAtTwice(word: string, k: nat)
    requires k < |word|
    ensures CanonicalAt(Canonical(word), k) == Canonical(word)[k]
  {
    var once := Canonical(word);
    assert once[k] == CanonicalAt(word, k);
    CaseTwice(word[k]);
    if k > 0 {
      assert once[k - 1] == CanonicalAt(word, k - 1);
      CaseTwice(word[k - 1]);
    }
  }

  lemma CanonicalTwice(word: string)
    ensures Canonical(Canonical(word)) == Canonical(word)
  {
    var once := Canonical(word);
    var twice := Canonical(once);
    forall k | 0 <= k < |word| ensures twice[k] == once[k] {
      CanonicalAtTwice(word, k);
    }
  }

  /** On every byte string: reading the list sent back to the client canonicalises each of its names. */
  lemma TokensOfJoin(s: string)
    ensures Tokens(Join(Tokens(s), ", ")) == EachCanonical(Tokens(s))
  {
    TokensConserveLegalBytes(s);
    FieldsOfJoin(Tokens(s));
    TokensOfHeaderList(Join(Tokens(s), ", "));
  }

  /** On the header-list alphabet the list sent back reads as itself. */
  lemma TokensRoundTrip(s: string)
    requires IsHeaderList(s)
    ensures Tokens(Join(Tokens(s), ", ")) == Tokens(s)
  {
    TokensOfJoin(s);
    TokensOfHeaderList(s);
    var fields := Fields(s);
    forall k | 0 <= k < |fields| ensures EachCanonical(EachCanonical(fields))[k] == EachCanonical(fields)[k] {
      CanonicalTwice(fields[k]);
    }
  }
}
