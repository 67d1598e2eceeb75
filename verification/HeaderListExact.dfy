/** On which byte strings the one-pass tokenizer still is "clean, split, canonicalise". */
module HeaderListExact {
  import opened HeaderList
  import opened HeaderListProofs

  /** A byte the tokenizer drops. */
  predicate IsStray(b: char) {
    !IsNameByte(b) && b != ' ' && b != ','
  }

  /** The text without its stray bytes. */
  function Cleaned(s: string): string {
    if s == "" then "" else (if IsStray(s[0]) then "" else [s[0]]) + Cleaned(s[1..])
  }

  // ----- the reference as a loop that does not let a stray byte touch the case flag -----

  function Reference(token: string, want: bool, rest: string): seq<string>
    decreases rest
  {
    if rest == "" then NonEmpty(token)
    else if IsSeparator(rest[0]) then NonEmpty(token) + Reference("", true, rest[1..])
    else if IsLegal(rest[0]) then Reference(token + Emitted(rest[0], want), IsDash(rest[0]), rest[1..])
    else Reference(token, want, rest[1..])
  }

  lemma {:induction false} CleanedIsHeaderList(s: string)
    ensures IsHeaderList(Cleaned(s))
  {
    if s != "" {
      CleanedIsHeaderList(s[1..]);
    }
  }

  lemma {:induction false} ReferenceCleans(token: string, want: bool, rest: string)
    requires token == "" ==> want
    ensures Reference(token, want, rest) == Remaining(token, want, Cleaned(rest))
    decreases rest
  {
    if rest != "" {
      var b := rest[0];
      if IsStray(b) {
        ReferenceCleans(token, want, rest[1..]);
        assert Cleaned(rest) == Cleaned(rest[1..]);
      } else {
        assert Cleaned(rest)[0] == b && Cleaned(rest)[1..] == Cleaned(rest[1..]);
        if IsSeparator(b) {
          ReferenceCleans("", true, rest[1..]);
        } else {
          ReferenceCleans(token + Emitted(b, want), IsDash(b), rest[1..]);
        }
      }
    }
  }

  lemma {:induction false} ReferenceIsCanonical(s: string)
    ensures Reference("", true, s) == EachCanonical(Fields(Cleaned(s)))
  {
    ReferenceCleans("", true, s);
    RemainingIsTokens(Cleaned(s));
    CleanedIsHeaderList(s);
    TokensOfHeaderList(Cleaned(s));
  }

  // ----- the two loops agree as long as their flags do at every letter -----

  /** `inToken`: the open token holds a byte. */
  predicate Agree(inToken: bool, upper: bool, want: bool, rest: string)
    decreases rest
  {
    if rest == "" then true
    else if IsSeparator(rest[0]) then Agree(false, upper || inToken, true, rest[1..])
    else if IsLegal(rest[0]) then
      (IsLetter(rest[0]) ==> upper == want) && Agree(true, IsDash(rest[0]), IsDash(rest[0]), rest[1..])
    else Agree(inToken, false, want, rest[1..])
  }

  lemma ListsAgree(a: string, b: string, x: seq<string>, y: seq<string>)
    requires |a| == |b|
    ensures NonEmpty(a) + x == NonEmpty(b) + y <==> a == b && x == y
  {
    assert [] + x == x && [] + y == y;
    if NonEmpty(a) + x == NonEmpty(b) + y && a != "" {
      assert (NonEmpty(a) + x)[0] == a && (NonEmpty(b) + y)[0] == b;
      assert (NonEmpty(a) + x)[1..] == x && (NonEmpty(b) + y)[1..] == y;
    }
  }

  lemma EmittedAgree(a: string, b: string, c: char, upper: bool, want: bool)
    requires |a| == |b| && IsLegal(c)
    ensures |a + Emitted(c, upper)| == |b + Emitted(c, want)|
    ensures a + Emitted(c, upper) == b + Emitted(c, want) <==> a == b && (IsLetter(c) ==> upper == want)
  {
    var x, y := a + Emitted(c, upper), b + Emitted(c, want);
    assert x[..|a|] == a && y[..|b|] == b && x[|a|] == Emitted(c, upper)[0] && y[|b|] == Emitted(c, want)[0];
  }

  lemma {:induction false} SameTokensExactly(a: string, b: string, upper: bool, want: bool, rest: string)
    requires |a| == |b|
    ensures Remaining(a, upper, rest) == Reference(b, want, rest) <==> a == b && Agree(a != "", upper, want, rest)
    decreases rest
  {
    if rest == "" {
      ListsAgree(a, b, [], []);
      assert NonEmpty(a) + [] == NonEmpty(a) && NonEmpty(b) + [] == NonEmpty(b);
    } else if IsSeparator(rest[0]) {
      SameTokensExactly("", "", upper || a != "", true, rest[1..]);
      ListsAgree(a, b, Remaining("", upper || a != "", rest[1..]), Reference("", true, rest[1..]));
    } else if IsLegal(rest[0]) {
      var c := rest[0];
      EmittedAgree(a, b, c, upper, want);
      SameTokensExactly(a + Emitted(c, upper), b + Emitted(c, want), IsDash(c), IsDash(c), rest[1..]);
    } else {
      assert a + Emitted(rest[0], upper) == a;
      SameTokensExactly(a, b, false, want, rest[1..]);
    }
  }

  // ----- where the flags part -----

  predicate NoLegalBetween(s: string, d: nat, i: nat)
    requires i <= |s|
  {
    forall k :: d < k < i ==> !IsLegal(s[k])
  }

  predicate NoSeparatorBetween(s: string, d: nat, i: nat)
    requires i <= |s|
  {
    forall k :: d < k < i ==> !IsSeparator(s[k])
  }

  predicate OpensWord(s: string, d: nat)
    requires d < |s|
  {
    d == 0 || IsSeparator(s[d - 1])
  }

  predicate FollowsDash(s: string, d: nat)
    requires d < |s|
  {
    d > 0 && IsDash(s[d - 1])
  }

  /** The stray byte at `d` takes the capital that is due at `i`: nothing kept stands in between, and it
      opens a word, or it follows a dash in the same word. */
  predicate Takes(s: string, d: nat, i: nat)
    requires d < i <= |s|
  {
    && IsStray(s[d]) && NoLegalBetween(s, d, i)
    && (OpensWord(s, d) || (FollowsDash(s, d) && NoSeparatorBetween(s, d, i)))
  }

  predicate Taken(s: string, i: nat)
    requires i <= |s|
  {
    exists d :: 0 <= d < i && Takes(s, d, i)
  }

  predicate CapitalLost(s: string) {
    exists i :: 0 <= i < |s| && IsLetter(s[i]) && Taken(s, i)
  }

  /** What the flags say about the first `n` bytes. */
  predicate FlagsFit(s: string, n: nat, inToken: bool, upper: bool, want: bool)
    requires n <= |s|
  {
    && (upper ==> want) && (!inToken ==> want)
    && (Taken(s, n) <==> upper != want)
    && (upper <==> n == 0 || (IsSeparator(s[n - 1]) && !Taken(s, n)) || IsDash(s[n - 1]))
    && (n > 0 && IsSeparator(s[n - 1]) ==> !inToken)
    && (n == 0 ==> !inToken)
    && (n > 0 && IsLegal(s[n - 1]) ==> inToken)
    && (forall d :: 0 <= d < n && Takes(s, d, n) ==> (OpensWord(s, d) <==> !inToken))
  }

  lemma TakesStep(s: string, d: nat, n: nat)
    requires d < n < |s|
    ensures Takes(s, d, n + 1) <==>
      Takes(s, d, n) && !IsLegal(s[n]) && (IsSeparator(s[n]) ==> OpensWord(s, d))
  {
  }

  lemma TakesNext(s: string, n: nat)
    requires n < |s|
    ensures Takes(s, n, n + 1) <==> IsStray(s[n]) && (OpensWord(s, n) || FollowsDash(s, n))
  {
  }

  /** One byte further: a stray byte takes the capital that is due right behind it, a separator keeps only
      what opened a word, and a legal byte ends everything. */
  lemma TakenNext(s: string, n: nat)
    requires n < |s|
    ensures IsStray(s[n]) ==> (Taken(s, n + 1) <==> Taken(s, n) || OpensWord(s, n) || FollowsDash(s, n))
    ensures IsSeparator(s[n]) ==> (Taken(s, n + 1) <==> exists d :: 0 <= d < n && Takes(s, d, n) && OpensWord(s, d))
    ensures IsLegal(s[n]) ==> !Taken(s, n + 1)
  {
    var m := n + 1;
    TakesNext(s, n);
    if d :| 0 <= d < m && Takes(s, d, m) && d != n {
      TakesStep(s, d, n);
    }
    if d :| 0 <= d < n && Takes(s, d, n) {
      TakesStep(s, d, n);
    }
    if d :| 0 <= d < n && Takes(s, d, n) && OpensWord(s, d) {
      TakesStep(s, d, n);
    }
  }

  lemma AfterStray(s: string, n: nat, inToken: bool, upper: bool, want: bool)
    requires n < |s| && FlagsFit(s, n, inToken, upper, want) && IsStray(s[n])
    ensures FlagsFit(s, n + 1, inToken, false, want)
  {
    TakenNext(s, n);
    var m := n + 1;
    forall d | 0 <= d < m && Takes(s, d, m) ensures OpensWord(s, d) <==> !inToken {
      if d < n {
        TakesStep(s, d, n);
      } else {
        TakesNext(s, n);
      }
    }
  }

  lemma AfterSeparator(s: string, n: nat, inToken: bool, upper: bool, want: bool)
    requires n < |s| && FlagsFit(s, n, inToken, upper, want) && IsSeparator(s[n])
    ensures FlagsFit(s, n + 1, false, upper || inToken, true)
  {
    TakenNext(s, n);
    var m := n + 1;
    forall d | 0 <= d < m && Takes(s, d, m) ensures OpensWord(s, d) {
      if d < n {
        TakesStep(s, d, n);
      }
    }
  }

  lemma AfterLegal(s: string, n: nat, inToken: bool, upper: bool, want: bool)
    requires n < |s| && FlagsFit(s, n, inToken, upper, want) && IsLegal(s[n])
    ensures FlagsFit(s, n + 1, true, IsDash(s[n]), IsDash(s[n]))
  {
    TakenNext(s, n);
  }

  predicate LostFrom(s: string, n: nat) {
    exists i :: n <= i < |s| && IsLetter(s[i]) && Taken(s, i)
  }

  lemma LostFromNext(s: string, n: nat)
    requires n < |s|
    ensures LostFrom(s, n) <==> (IsLetter(s[n]) && Taken(s, n)) || LostFrom(s, n + 1)
  {
  }

  lemma {:induction false} AgreeExactly(s: string, n: nat, inToken: bool, upper: bool, want: bool)
    requires n <= |s| && FlagsFit(s, n, inToken, upper, want)
    ensures Agree(inToken, upper, want, s[n..]) <==> !LostFrom(s, n)
    decreases |s| - n
  {
    if n < |s| {
      assert s[n..][0] == s[n] && s[n..][1..] == s[n + 1..];
      LostFromNext(s, n);
      if IsSeparator(s[n]) {
        AfterSeparator(s, n, inToken, upper, want);
        AgreeExactly(s, n + 1, false, upper || inToken, true);
      } else if IsLegal(s[n]) {
        AfterLegal(s, n, inToken, upper, want);
        AgreeExactly(s, n + 1, true, IsDash(s[n]), IsDash(s[n]));
      } else {
        AfterStray(s, n, inToken, upper, want);
        AgreeExactly(s, n + 1, inToken, false, want);
      }
    }
  }

  /** On every byte string: the one-pass loop is "drop the stray bytes, split, canonicalise" exactly when
      no stray byte takes a letter's capital. */
  lemma {:induction false} RefinementExactly(s: string)
    ensures Tokens(s) == EachCanonical(Fields(Cleaned(s))) <==> !CapitalLost(s)
  {
    RemainingIsTokens(s);
    ReferenceIsCanonical(s);
    SameTokensExactly("", "", true, true, s);
    assert s[0..] == s;
    AgreeExactly(s, 0, false, true, true);
    assert CapitalLost(s) <==> LostFrom(s, 0);
  }
}
