/** Whether a phone number is taken by a banned or by another active user
    (pkg/verification/service/verification_service.go). */
module PhoneNumbers {
  import opened Text
  import opened UserSignups
  import opened Verification

  const APPROVED: string := "approved"

  /** Ends in 32 hexadecimal digits: such a text is taken for a hash already. */
  predicate LooksLikeHash(v: string) {
    |v| >= 32 && IsHash(v[|v| - 32..])
  }

  function LabelValue(w: World, numberOrHash: string): string {
    if LooksLikeHash(numberOrHash) then numberOrHash else w.hash(numberOrHash)
  }

  predicate PhoneBanned(banned: seq<BannedUser>, hash: string) {
    exists k :: 0 <= k < |banned| && banned[k].phoneHash == hash
  }

  /** An approved signup of another user, not deactivated, with this phone hash. */
  predicate HoldsPhone(s: UserSignup, username: string, hash: string) {
    && StateLabel in s.labels && s.labels[StateLabel] == APPROVED
    && PhoneHash in s.labels && s.labels[PhoneHash] == hash
    && s.claims.preferredUsername != username && Deactivated !in s.flags
  }

  predicate PhoneHeld(signups: map<string, UserSignup>, username: string, hash: string) {
    exists n :: n in signups && HoldsPhone(signups[n], username, hash)
  }

  /** A list that cannot be read is `None`. */
  function Verdict(w: World, banned: Option<seq<BannedUser>>, signups: Option<map<string, UserSignup>>,
                   username: string, numberOrHash: string): PhoneVerdict
  {
    VerdictOnHash(banned, signups, username, LabelValue(w, numberOrHash))
  }

  function VerdictOnHash(banned: Option<seq<BannedUser>>, signups: Option<map<string, UserSignup>>,
                         username: string, hash: string): PhoneVerdict
  {
    if banned.None? then PhoneUnknown
    else if PhoneBanned(banned.value, hash) then PhoneTaken
    else if signups.None? then PhoneUnknown
    else if PhoneHeld(signups.value, username, hash) then PhoneTaken
    else PhoneFree
  }

  method PhoneNumberAlreadyInUse(w: World, host: Host, username: string, phoneNumberOrHash: string,
                                 bannedListFails: bool, signupListFails: bool) returns (verdict: PhoneVerdict)
    ensures verdict == Verdict(w, if bannedListFails then None else Some(host.banned),
                               if signupListFails then None else Some(host.signups), username, phoneNumberOrHash)
  {
    var labelValue := w.hash(phoneNumberOrHash);
    if LooksLikeHash(phoneNumberOrHash) {
      labelValue := phoneNumberOrHash;
    }
    if bannedListFails {
      return PhoneUnknown;
    }
    for i := 0 to |host.banned|
      invariant forall k :: 0 <= k < i ==> host.banned[k].phoneHash != labelValue
    {
      if host.banned[i].phoneHash == labelValue {
        return PhoneTaken;
      }
    }
    if signupListFails {
      return PhoneUnknown;
    }
    var names := host.signups.Keys;
    while names != {}
      invariant names <= host.signups.Keys
      invariant forall n :: n in host.signups && n !in names ==> !HoldsPhone(host.signups[n], username, labelValue)
      decreases names
    {
      var n :| n in names;
      if HoldsPhone(host.signups[n], username, labelValue) {
        return PhoneTaken;
      }
      names := names - {n};
    }
    return PhoneFree;
  }

  /** Another user's signup in the approved state carries the hash and is not deactivated. */
  predicate HeldByAnother(signups: map<string, UserSignup>, username: string, hash: string) {
    exists s :: s in signups.Values && s.claims.preferredUsername != username && Deactivated !in s.flags
                && s.Label(StateLabel) == "approved" && PhoneHash in s.labels && s.labels[PhoneHash] == hash
  }

  /** A number is taken if a banned user has its hash, or, once that is ruled out, if another user holds it.
      It cannot be told if the list that would have to be looked at next cannot be read. A text that ends in
      32 hexadecimal digits is compared as it is. */
  lemma VerdictExactly(w: World, banned: Option<seq<BannedUser>>, signups: Option<map<string, UserSignup>>,
                       username: string, numberOrHash: string)
    ensures var n := |numberOrHash|;
            var hashed := n >= 32 && forall k :: n - 32 <= k < n ==> IsHexDigit(numberOrHash[k]);
            var hash := if hashed then numberOrHash else w.hash(numberOrHash);
            var isBanned := banned.Some? && exists b :: b in banned.value && b.phoneHash == hash;
            var held := signups.Some? && HeldByAnother(signups.value, username, hash);
            var v := Verdict(w, banned, signups, username, numberOrHash);
            && (v == PhoneTaken <==> isBanned || (banned.Some? && held))
            && (v == PhoneUnknown <==> banned.None? || (!isBanned && signups.None?))
  {
    var n := |numberOrHash|;
    if n >= 32 {
      var tail := numberOrHash[n - 32..];
      forall k | n - 32 <= k < n ensures numberOrHash[k] == tail[k - (n - 32)] {
      }
    }
    var hash := LabelValue(w, numberOrHash);
    if banned.Some? && PhoneBanned(banned.value, hash) {
      var k :| 0 <= k < |banned.value| && banned.value[k].phoneHash == hash;
      assert banned.value[k] in banned.value;
    }
    if signups.Some? && PhoneHeld(signups.value, username, hash) {
      var m :| m in signups.value && HoldsPhone(signups.value[m], username, hash);
      assert signups.value[m] in signups.value.Values;
    }
  }

  lemma LabelOfHash(w: World, number: string)
    requires w.Lawful()
    ensures LabelValue(w, w.hash(number)) == w.hash(number)
  {
    var h := w.hash(number);
    assert IsHash(h);
    assert h[|h| - 32..] == h;
  }

  /** For a text that does not itself end in 32 hexadecimal digits, the check gives the same verdict on
      the text and on its hash, whatever is stored. */
  lemma NumberAndHashAgree(w: World, banned: Option<seq<BannedUser>>, signups: Option<map<string, UserSignup>>,
                           username: string, number: string)
    requires w.Lawful() && !LooksLikeHash(number)
    ensures Verdict(w, banned, signups, username, number) == Verdict(w, banned, signups, username, w.hash(number))
  {
    LabelOfHash(w, number);
    assert LabelValue(w, number) == w.hash(number);
  }

  /** A list of banned users on which two different hashes get different verdicts. */
  lemma SeparatingList(username: string, a: string, b: string)
    requires a != b
    ensures VerdictOnHash(Some([BannedUser("", "", a)]), None, username, a) == PhoneTaken
    ensures VerdictOnHash(Some([BannedUser("", "", a)]), None, username, b) == PhoneUnknown
  {
    assert [BannedUser("", "", a)][0].phoneHash == a;
  }

  /** Exactly the texts on which the check and the check on the hash can never part: those that are no
      hash by the look of them, and those that are their own hash. */
  lemma AgreementExactly(w: World, username: string, number: string)
    requires w.Lawful()
    ensures (forall banned, signups ::
               Verdict(w, banned, signups, username, number) == Verdict(w, banned, signups, username, w.hash(number)))
       <==> !LooksLikeHash(number) || number == w.hash(number)
  {
    LabelOfHash(w, number);
    if LooksLikeHash(number) && number != w.hash(number) {
      SeparatingList(username, number, w.hash(number));
      assert Verdict(w, Some([BannedUser("", "", number)]), None, username, number)
          != Verdict(w, Some([BannedUser("", "", number)]), None, username, w.hash(number));
    }
  }

  /** An E.164 number: a plus sign and at most fifteen digits (ITU-T recommendation E.164). */
  predicate IsE164(n: string) {
    2 <= |n| <= 16 && n[0] == '+' && forall k :: 1 <= k < |n| ==> '0' <= n[k] <= '9'
  }

  lemma InitWritesTheHash(w: World, cfg: Config, s: UserSignup, inp: InitInputs)
    requires InitDecision(w, cfg, s, inp).write.Some?
    ensures Applied(InitDecision(w, cfg, s, inp).write.value, s).Label(PhoneHash) == w.hash(inp.phone)
  {
    InitWriteIs(w, cfg, s, inp);
    AppliedLabel(InitDecision(w, cfg, s, inp).write.value, s, PhoneHash);
  }

  lemma AppliedLabel(write: Write, s: UserSignup, key: LabelKey)
    requires key in write.labels
    ensures Applied(write, s).Label(key) == write.labels[key]
  {
  }

  lemma NumberIsNoHash(n: string)
    requires IsE164(n)
    ensures !LooksLikeHash(n)
  {
  }

  /** What `InitVerification` checked on the number is what `VerifyPhoneCode` checks on the label the
      former has written. */
  lemma PhoneCodeRechecksTheNumber(w: World, cfg: Config, s: UserSignup, inp: InitInputs,
                                   banned: Option<seq<BannedUser>>, signups: Option<map<string, UserSignup>>,
                                   username: string)
    requires w.Lawful() && IsE164(inp.phone)
    requires InitDecision(w, cfg, s, inp).write.Some?
    ensures var t := Applied(InitDecision(w, cfg, s, inp).write.value, s);
            Verdict(w, banned, signups, username, t.Label(PhoneHash))
            == Verdict(w, banned, signups, username, inp.phone)
  {
    NumberIsNoHash(inp.phone);
    InitWritesTheHash(w, cfg, s, inp);
    NumberAndHashAgree(w, banned, signups, username, inp.phone);
  }
}
