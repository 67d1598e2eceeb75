/** `strings.TrimSpace`: white space is stripped as UTF-8 encoded runes at both ends. */
module Space {
  import opened Text

  function At(s: string, k: nat): int
    requires k < |s|
  {
    s[k] as int
  }

  /** The UTF-8 encodings of the runes Go calls white space. */
  predicate IsSpaceRune(u: string) {
    || (|u| == 1 && (9 <= At(u, 0) <= 13 || At(u, 0) == 32))
    || (|u| == 2 && At(u, 0) == 0xC2 && (At(u, 1) == 0x85 || At(u, 1) == 0xA0))
    || (|u| == 3 && At(u, 0) == 0xE1 && At(u, 1) == 0x9A && At(u, 2) == 0x80)
    || (|u| == 3 && At(u, 0) == 0xE2 && At(u, 1) == 0x80
        && (0x80 <= At(u, 2) <= 0x8A || At(u, 2) == 0xA8 || At(u, 2) == 0xA9 || At(u, 2) == 0xAF))
    || (|u| == 3 && At(u, 0) == 0xE2 && At(u, 1) == 0x81 && At(u, 2) == 0x9F)
    || (|u| == 3 && At(u, 0) == 0xE3 && At(u, 1) == 0x80 && At(u, 2) == 0x80)
  }

  function LeadingSpace(s: string): (n: nat)
    ensures n <= |s|
  {
    if |s| >= 1 && IsSpaceRune(s[..1]) then 1
    else if |s| >= 2 && IsSpaceRune(s[..2]) then 2
    else if |s| >= 3 && IsSpaceRune(s[..3]) then 3
    else 0
  }

  function TrailingSpace(s: string): (n: nat)
    ensures n <= |s|
  {
    if |s| >= 1 && IsSpaceRune(s[|s| - 1..]) then 1
    else if |s| >= 2 && IsSpaceRune(s[|s| - 2..]) then 2
    else if |s| >= 3 && IsSpaceRune(s[|s| - 3..]) then 3
    else 0
  }

  function TrimLeft(s: string): string
    decreases |s|
  {
    if LeadingSpace(s) == 0 then s else TrimLeft(s[LeadingSpace(s)..])
  }

  function TrimRight(s: string): string
    decreases |s|
  {
    if TrailingSpace(s) == 0 then s else TrimRight(s[..|s| - TrailingSpace(s)])
  }

  function TrimSpace(s: string): string {
    TrimRight(TrimLeft(s))
  }

  /** Nothing left to trim. */
  predicate Trimmed(s: string) {
    LeadingSpace(s) == 0 && TrailingSpace(s) == 0
  }

  lemma RuneLength(u: string)
    requires IsSpaceRune(u)
    ensures 1 <= |u| <= 3
  {
  }

  lemma LeadingExactly(s: string)
    ensures LeadingSpace(s) == 0 <==> forall n :: 0 < n <= |s| ==> !IsSpaceRune(s[..n])
  {
    forall n | 3 < n <= |s| ensures !IsSpaceRune(s[..n]) {
      if IsSpaceRune(s[..n]) {
        RuneLength(s[..n]);
      }
    }
  }

  lemma TrailingExactly(s: string)
    ensures TrailingSpace(s) == 0 <==> forall i :: 0 <= i < |s| ==> !IsSpaceRune(s[i..])
  {
    forall i | 0 <= i < |s| - 3 ensures !IsSpaceRune(s[i..]) {
      if IsSpaceRune(s[i..]) {
        RuneLength(s[i..]);
      }
    }
  }

  /** No white-space rune stands at either end. */
  lemma TrimmedExactly(s: string)
    ensures Trimmed(s) <==>
      && (forall n :: 0 < n <= |s| ==> !IsSpaceRune(s[..n]))
      && (forall i :: 0 <= i < |s| ==> !IsSpaceRune(s[i..]))
  {
    LeadingExactly(s);
    TrailingExactly(s);
  }

  lemma {:induction false} TrimLeftStops(s: string)
    ensures LeadingSpace(TrimLeft(s)) == 0
    decreases |s|
  {
    if LeadingSpace(s) != 0 {
      TrimLeftStops(s[LeadingSpace(s)..]);
    }
  }

  lemma PrefixWithoutLeadingSpace(s: string, j: nat)
    requires j <= |s| && LeadingSpace(s) == 0
    ensures LeadingSpace(s[..j]) == 0
  {
    var t := s[..j];
    if j >= 1 { assert t[..1] == s[..1]; }
    if j >= 2 { assert t[..2] == s[..2]; }
    if j >= 3 { assert t[..3] == s[..3]; }
  }

  lemma {:induction false} TrimRightStops(s: string)
    requires LeadingSpace(s) == 0
    ensures Trimmed(TrimRight(s))
    decreases |s|
  {
    var n := TrailingSpace(s);
    if n != 0 {
      PrefixWithoutLeadingSpace(s, |s| - n);
      TrimRightStops(s[..|s| - n]);
    }
  }

  /** Trimming again changes nothing. */
  lemma TrimSpaceStable(s: string)
    ensures Trimmed(TrimSpace(s))
  {
    TrimLeftStops(s);
    TrimRightStops(TrimLeft(s));
  }

  predicate SpaceRunes(runes: seq<string>) {
    forall k :: 0 <= k < |runes| ==> IsSpaceRune(runes[k])
  }

  lemma LeadingIsRune(s: string)
    requires LeadingSpace(s) > 0
    ensures IsSpaceRune(s[..LeadingSpace(s)])
  {
  }

  lemma TrailingIsRune(s: string)
    requires TrailingSpace(s) > 0
    ensures IsSpaceRune(s[|s| - TrailingSpace(s)..])
  {
  }

  lemma {:induction false} TrimLeftTakesSpace(s: string) returns (lead: seq<string>)
    ensures s == Flat(lead) + TrimLeft(s) && SpaceRunes(lead)
    decreases |s|
  {
    var n := LeadingSpace(s);
    if n == 0 {
      lead := [];
    } else {
      var rest := TrimLeftTakesSpace(s[n..]);
      var kept := TrimLeft(s);
      TrimLeftStep(s);
      lead := LeadingRune(s, kept, rest);
    }
  }

  lemma {:induction false} TrimLeftStep(s: string)
    requires LeadingSpace(s) > 0
    ensures TrimLeft(s) == TrimLeft(s[LeadingSpace(s)..])
  {
  }

  lemma LeadingRune(s: string, kept: string, rest: seq<string>) returns (lead: seq<string>)
    requires LeadingSpace(s) > 0 && SpaceRunes(rest) && s[LeadingSpace(s)..] == Flat(rest) + kept
    ensures s == Flat(lead) + kept && SpaceRunes(lead)
  {
    LeadingIsRune(s);
    lead := RuneInFront(s, LeadingSpace(s), kept, rest);
  }

  lemma {:induction false} RuneInFront(s: string, i: nat, kept: string, rest: seq<string>) returns (lead: seq<string>)
    requires i <= |s| && IsSpaceRune(s[..i]) && SpaceRunes(rest) && s[i..] == Flat(rest) + kept
    ensures s == Flat(lead) + kept && SpaceRunes(lead)
  {
    lead := [s[..i]] + rest;
    assert lead[1..] == rest;
    Regroup(s[..i], Flat(rest), kept);
    assert s == s[..i] + s[i..];
  }

  lemma {:induction false} TrimRightTakesSpace(s: string) returns (trail: seq<string>)
    ensures s == TrimRight(s) + Flat(trail) && SpaceRunes(trail)
    decreases |s|
  {
    var n := TrailingSpace(s);
    if n == 0 {
      trail := [];
    } else {
      var rest := TrimRightTakesSpace(s[..|s| - n]);
      var kept := TrimRight(s);
      TrimRightStep(s);
      trail := TrailingRune(s, kept, rest);
    }
  }

  lemma {:induction false} TrimRightStep(s: string)
    requires TrailingSpace(s) > 0
    ensures TrimRight(s) == TrimRight(s[..|s| - TrailingSpace(s)])
  {
  }

  lemma TrailingRune(s: string, kept: string, rest: seq<string>) returns (trail: seq<string>)
    requires TrailingSpace(s) > 0 && SpaceRunes(rest) && s[..|s| - TrailingSpace(s)] == kept + Flat(rest)
    ensures s == kept + Flat(trail) && SpaceRunes(trail)
  {
    TrailingIsRune(s);
    trail := OneMoreRune(s, |s| - TrailingSpace(s), kept, rest);
  }

  lemma {:induction false} OneMoreRune(s: string, i: nat, kept: string, rest: seq<string>) returns (trail: seq<string>)
    requires i <= |s| && IsSpaceRune(s[i..]) && SpaceRunes(rest) && s[..i] == kept + Flat(rest)
    ensures s == kept + Flat(trail) && SpaceRunes(trail)
  {
    trail := rest + [s[i..]];
    FlatAppend(rest, [s[i..]]);
    FlatOfOne(s[i..]);
    assert s == s[..i] + s[i..];
    Regroup(kept, Flat(rest), s[i..]);
  }

  lemma FlatOfOne(part: string)
    ensures Flat([part]) == part
  {
    assert [part][1..] == [];
  }

  /** Trimming takes white-space runes away, at both ends, and nothing else. */
  lemma {:induction false} TrimSpaceTakesSpace(s: string) returns (lead: seq<string>, trail: seq<string>)
    ensures s == Flat(lead) + TrimSpace(s) + Flat(trail) && SpaceRunes(lead) && SpaceRunes(trail)
  {
    var left := TrimLeft(s);
    lead := TrimLeftTakesSpace(s);
    trail := TrimRightTakesSpace(left);
    Regroup(Flat(lead), TrimRight(left), Flat(trail));
  }

  lemma TrimmedIsFixed(s: string)
    requires Trimmed(s)
    ensures TrimSpace(s) == s
  {
  }

  lemma {:induction false} TrimLeftWithout(s: string, c: char)
    requires Without(s, c)
    ensures Without(TrimLeft(s), c)
    decreases |s|
  {
    if LeadingSpace(s) != 0 {
      TrimLeftWithout(s[LeadingSpace(s)..], c);
    }
  }

  lemma {:induction false} TrimRightWithout(s: string, c: char)
    requires Without(s, c)
    ensures Without(TrimRight(s), c)
    decreases |s|
  {
    if TrailingSpace(s) != 0 {
      TrimRightWithout(s[..|s| - TrailingSpace(s)], c);
    }
  }

  lemma TrimSpaceWithout(s: string, c: char)
    requires Without(s, c)
    ensures Without(TrimSpace(s), c)
  {
    TrimLeftWithout(s, c);
    TrimRightWithout(TrimLeft(s), c);
  }
}
