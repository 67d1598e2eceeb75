/** Creating, reactivating and reading a UserSignup (pkg/signup/service/signup_service.go). */
module SignupService {
  import opened Text
  import opened UserSignups
  import opened SocialEvents
  import opened Audit
  import opened PollUpdate

  datatype VerifierResult = VerifierPhone | VerifierRejected | VerifierOther

  /** The account verifier's answer: what it decided, the text of it, and its reasons as text. */
  datatype VerifierReply = VerifierReply(result: VerifierResult, text: string, reasons: Option<string>)

  /** One signup request: the token's claims, what the captcha decided, the account verifier's answer,
      the query, and the event behind the activation code, if one was given. */
  datatype Request = Request(
    claims: Claims,
    receivedTime: string,
    verificationRequired: bool,
    captcha: Option<(string, string)>,
    verifier: Option<VerifierReply>,
    noSpace: bool,
    event: Option<Result<SocialEvent, Error>>)

  const RETAINED: set<AnnotationKey> := {ActivationCounter, LastTargetCluster}

  function UpTo(s: string, c: char): string {
    if s == "" || s[0] == c then "" else [s[0]] + UpTo(s[1..], c)
  }

  predicate HasSuffix(s: string, suffix: string) {
    |suffix| <= |s| && s[|s| - |suffix|..] == suffix
  }

  predicate IsCrtAdmin(username: string) {
    HasSuffix(UpTo(username, '@'), "crtadmin")
  }

  predicate EmailBanned(w: World, banned: seq<BannedUser>, email: string) {
    exists k :: 0 <= k < |banned| && banned[k].emailHash == w.hash(email) && banned[k].email == email
  }

  function CaptchaAnnotations(r: Request): map<AnnotationKey, string> {
    if r.captcha.Some? then map[CaptchaScore := r.captcha.value.0, CaptchaAssessment := r.captcha.value.1] else map[]
  }

  function VerifierAnnotations(r: Request): map<AnnotationKey, string> {
    if r.verifier.None? then map[]
    else if r.verifier.value.reasons.None? then map[UserSignups.VerifierResult := r.verifier.value.text]
    else map[UserSignups.VerifierResult := r.verifier.value.text, VerifierReasons := r.verifier.value.reasons.value]
  }

  function SpaceAnnotations(r: Request): map<AnnotationKey, string> {
    if r.noSpace then map[SkipAutoCreateSpace := "true"] else map[]
  }

  function FreshAnnotations(r: Request): map<AnnotationKey, string> {
    map[SendCounter := "0", RequestReceivedTime := r.receivedTime]
    + CaptchaAnnotations(r) + VerifierAnnotations(r) + SpaceAnnotations(r)
  }

  function FreshFlags(r: Request): set<Flag> {
    (if r.verificationRequired || (r.verifier.Some? && r.verifier.value.result == VerifierPhone)
     then {VerificationRequired} else {})
    + (if r.verifier.Some? && r.verifier.value.result == VerifierRejected then {Rejected} else {})
  }

  function FreshSignup(w: World, r: Request): UserSignup {
    var plain := UserSignup(map[EmailHash := w.hash(r.claims.email)], FreshAnnotations(r), FreshFlags(r), "",
                            r.claims, Status(false));
    if r.event.Some? && r.event.value.Ok? then WithSocialEvent(w, r.event.value.value, plain) else plain
  }

  /** Neither an admin nor banned, as far as the list of banned users can be read. */
  predicate MaySignUp(w: World, banned: Option<seq<BannedUser>>, r: Request) {
    !IsCrtAdmin(r.claims.preferredUsername) && banned.Some? && !EmailBanned(w, banned.value, r.claims.email)
  }

  /** `banned` is the list of banned users, `None` when it cannot be read. */
  function NewUserSignup(w: World, banned: Option<seq<BannedUser>>, r: Request): Result<UserSignup, Error> {
    if IsCrtAdmin(r.claims.preferredUsername) then Err(AdminMayNotSignUp)
    else if banned.None? then Err(BannedListUnreadable)
    else if EmailBanned(w, banned.value, r.claims.email) then Err(UserBanned)
    else if r.event.Some? && r.event.value.Err? then Err(r.event.value.error)
    else Ok(FreshSignup(w, r))
  }

  method CheckEmailBanned(w: World, banned: seq<BannedUser>, email: string) returns (found: bool)
    ensures found <==> EmailBanned(w, banned, email)
  {
    var emailHash := w.hash(email);
    for i := 0 to |banned|
      invariant forall k :: 0 <= k < i ==> !(banned[k].emailHash == emailHash && banned[k].email == email)
    {
      if banned[i].emailHash == emailHash && banned[i].email == email {
        return true;
      }
    }
    return false;
  }

  method AddVerifierAnnotations(before: map<AnnotationKey, string>, r: Request)
    returns (annotations: map<AnnotationKey, string>)
    ensures annotations == before + VerifierAnnotations(r)
  {
    annotations := before;
    if r.verifier.Some? {
      annotations := annotations[UserSignups.VerifierResult := r.verifier.value.text];
      if r.verifier.value.reasons.Some? {
        annotations := annotations[VerifierReasons := r.verifier.value.reasons.value];
      }
    }
  }

  method AddAnnotations(us: Resource, r: Request)
    requires us.annotations == map[SendCounter := "0", RequestReceivedTime := r.receivedTime]
    modifies us`annotations
    ensures us.annotations == FreshAnnotations(r)
  {
    var annotations := us.annotations;
    if r.captcha.Some? {
      annotations := annotations + map[CaptchaScore := r.captcha.value.0, CaptchaAssessment := r.captcha.value.1];
    }
    ghost var withCaptcha := us.annotations + CaptchaAnnotations(r);
    assert annotations == withCaptcha;
    annotations := AddVerifierAnnotations(annotations, r);
    if r.noSpace {
      annotations := annotations + map[SkipAutoCreateSpace := "true"];
    }
    assert annotations == withCaptcha + VerifierAnnotations(r) + SpaceAnnotations(r);
    us.annotations := annotations;
  }

  method SetFlags(us: Resource, r: Request)
    requires us.flags == {}
    modifies us`flags
    ensures us.flags == FreshFlags(r)
  {
    us.SetVerificationRequired(r.verificationRequired);
    if r.verifier.Some? {
      if r.verifier.value.result == VerifierPhone {
        us.SetVerificationRequired(true);
      }
      if r.verifier.value.result == VerifierRejected {
        us.SetRejected();
      }
    }
  }

  method BuildUserSignup(w: World, host: Host, r: Request, listFails: bool) returns (built: Result<UserSignup, Error>)
    requires w.Lawful()
    ensures built == NewUserSignup(w, if listFails then None else Some(host.banned), r)
  {
    if IsCrtAdmin(r.claims.preferredUsername) {
      return Err(AdminMayNotSignUp);
    }
    if listFails {
      return Err(BannedListUnreadable);
    }
    var banned := CheckEmailBanned(w, host.banned, r.claims.email);
    if banned {
      return Err(UserBanned);
    }
    var us := new Resource(UserSignup(map[EmailHash := w.hash(r.claims.email)],
                                      map[SendCounter := "0", RequestReceivedTime := r.receivedTime],
                                      {}, "", r.claims, Status(false)));
    AddAnnotations(us, r);
    SetFlags(us, r);
    if r.event.Some? {
      if r.event.value.Err? {
        return Err(r.event.value.error);
      }
      UpdateUserSignupWithSocialEvent(w, r.event.value.value, us);
    }
    return Ok(us.Value());
  }

  function Retained(a: map<AnnotationKey, string>): map<AnnotationKey, string> {
    map k | k in a && k in RETAINED :: a[k]
  }

  /** The freshly made resource in place of the old one, with the retained annotations of the old one and its status. */
  function Reactivated(existing: UserSignup, made: UserSignup): UserSignup {
    made.(annotations := made.annotations + Retained(existing.annotations),
           status := existing.status)
  }

  datatype SignupReply = Created(signup: UserSignup) | Refusal(error: Error)

  function RejectedReply(r: Request): bool {
    r.verifier.Some? && r.verifier.value.result == VerifierRejected
  }

  /** What a signup request stores and answers, given what is stored under the name. */
  function SignupOutcome(w: World, banned: Option<seq<BannedUser>>, stored: Option<UserSignup>, r: Request,
                         writeFails: bool)
    : (Option<UserSignup>, SignupReply)
  {
    if stored.Some? && Rejected in stored.value.flags then (stored, Refusal(SignupRejected))
    else if stored.Some? && !stored.value.status.deactivated then (stored, Refusal(SignupConflict))
    else
      var made := NewUserSignup(w, banned, r);
      if made.Err? then (stored, Refusal(made.error))
      else
        var s := if stored.Some? then Reactivated(stored.value, made.value) else made.value;
        if writeFails then (stored, Refusal(if stored.Some? then UpdateFailed else CreateFailed))
        else (Some(s), if RejectedReply(r) then Refusal(SignupRejected) else Created(s))
  }

  method ReactivateUserSignup(existing: Resource, made: UserSignup)
    modifies existing
    ensures existing.Value() == Reactivated(old(existing.Value()), made)
  {
    ghost var before := existing.Value();
    var annotations := made.annotations;
    if ActivationCounter in existing.annotations {
      annotations := annotations[ActivationCounter := existing.annotations[ActivationCounter]];
    }
    if LastTargetCluster in existing.annotations {
      annotations := annotations[LastTargetCluster := existing.annotations[LastTargetCluster]];
    }
    assert annotations == Reactivated(before, made).annotations;
    existing.annotations := annotations;
    existing.labels := made.labels;
    existing.flags, existing.targetCluster, existing.claims := made.flags, made.targetCluster, made.claims;
  }

  method Signup(w: World, host: Host, r: Request, getFails: bool, listFails: bool, writeFails: bool)
    returns (reply: SignupReply)
    requires w.Lawful()
    modifies host`signups
    ensures if getFails then host.signups == old(host.signups) && reply == Refusal(SignupUnreadable)
            else
              var name := w.encodeUsername(r.claims.preferredUsername);
              var (s, answer) := SignupOutcome(w, if listFails then None else Some(host.banned),
                                               ObjectAt(old(host.signups), name), r, writeFails);
              host.signups == WithObject(old(host.signups), name, s) && reply == answer
  {
    var name := w.encodeUsername(r.claims.preferredUsername);
    if getFails {
      return Refusal(SignupUnreadable);
    }
    if name !in host.signups {
      var built := BuildUserSignup(w, host, r, listFails);
      if built.Err? {
        return Refusal(built.error);
      }
      if writeFails {
        return Refusal(CreateFailed);
      }
      host.signups := host.signups[name := built.value];
      return if RejectedReply(r) then Refusal(SignupRejected) else Created(built.value);
    }
    ghost var before := host.signups[name];
    assert host.signups == WithObject(host.signups, name, Some(before));
    var existing := new Resource(host.signups[name]);
    if Rejected in existing.flags {
      return Refusal(SignupRejected);
    }
    if existing.status.deactivated {
      var built := BuildUserSignup(w, host, r, listFails);
      if built.Err? {
        return Refusal(built.error);
      }
      ReactivateUserSignup(existing, built.value);
      if writeFails {
        return Refusal(UpdateFailed);
      }
      host.signups := host.signups[name := existing.Value()];
      return if RejectedReply(r) then Refusal(SignupRejected) else Created(existing.Value());
    }
    return Refusal(SignupConflict);
  }

  /** The part of reading a signup that writes: the claims audit in the retry loop. `token` is `None`
      for callers without a request context. */
  method AuditedRead(w: World, host: Host, username: string, token: Option<Claims>, env: nat -> Conditions)
    returns (read: Result<Option<UserSignup>, Error>)
    requires w.Lawful()
    modifies host`signups
    ensures var name := w.encodeUsername(username);
            var stored := ObjectAt(old(host.signups), name);
            if token.None? then
              host.signups == old(host.signups)
              && read == if (forall k :: 0 <= k < MAX_ATTEMPTS ==> env(k).getFails) then Err(SignupUnreadable)
                         else Ok(stored)
            else
              var t := Polled(w, AuditClaims(token.value), stored, Locals(0, None, None), env, 0);
              host.signups == WithObject(old(host.signups), name, t.stored)
              && read == if t.failed then Err(SignupUnreadable) else Ok(t.locals.read)
  {
    var name := w.encodeUsername(username);
    if token.None? {
      var attempts := 0;
      while true
        invariant 0 <= attempts < MAX_ATTEMPTS
        invariant forall k :: 0 <= k < attempts ==> env(k).getFails
        decreases MAX_ATTEMPTS - attempts
      {
        attempts := attempts + 1;
        if !env(attempts - 1).getFails {
          return Ok(ObjectAt(host.signups, name));
        }
        if attempts > 4 {
          return Err(SignupUnreadable);
        }
      }
    }
    var ok, after := PollUpdateSignup(host, name, w, AuditClaims(token.value), Locals(0, None, None), env);
    return if !ok then Err(SignupUnreadable) else Ok(after.read);
  }

  // ----- what a freshly made resource looks like -----

  /** No code was sent, no window opened, nothing counted. */
  predicate NothingSent(a: map<AnnotationKey, string>) {
    && SendCounter in a && a[SendCounter] == "0"
    && InitTimestamp !in a && Attempts !in a && Code !in a && Expiry !in a
  }

  predicate NoHistory(a: map<AnnotationKey, string>) {
    ActivationCounter !in a && LastTargetCluster !in a
  }

  predicate IsFresh(a: map<AnnotationKey, string>) {
    NothingSent(a) && NoHistory(a)
  }

  predicate Unused(s: UserSignup) {
    NothingSent(s.annotations)
  }

  /** Annotations of a signup request, none of them about a code or a history. */
  predicate IsAboutRequest(a: map<AnnotationKey, string>) {
    a.Keys <= {CaptchaScore, CaptchaAssessment, UserSignups.VerifierResult, VerifierReasons, SkipAutoCreateSpace}
  }

  lemma StaysFresh(a: map<AnnotationKey, string>, b: map<AnnotationKey, string>)
    requires IsFresh(a) && IsAboutRequest(b)
    ensures IsFresh(a + b)
  {
  }

  lemma FreshAnnotationKeys(r: Request)
    ensures IsFresh(FreshAnnotations(r))
  {
    var a := map[SendCounter := "0", RequestReceivedTime := r.receivedTime];
    var b := a + CaptchaAnnotations(r);
    StaysFresh(a, CaptchaAnnotations(r));
    StaysFresh(b, VerifierAnnotations(r));
    StaysFresh(b + VerifierAnnotations(r), SpaceAnnotations(r));
  }

  /** A new signup is fresh, no phone number was noted, and its email-hash label fits its email claim. */
  lemma FreshSignupShape(w: World, r: Request)
    ensures IsFresh(FreshSignup(w, r).annotations) && EmailHashMatches(w, FreshSignup(w, r))
    ensures PhoneHash !in FreshSignup(w, r).labels
  {
    FreshAnnotationKeys(r);
  }

  lemma KeptAnnotation(existing: UserSignup, made: UserSignup, key: AnnotationKey)
    requires key in RETAINED && key !in made.annotations
    ensures Reactivated(existing, made).SameAnnotation(existing, key)
  {
  }

  lemma MadeAnnotation(existing: UserSignup, made: UserSignup, key: AnnotationKey)
    requires key !in RETAINED
    ensures Reactivated(existing, made).SameAnnotation(made, key)
  {
  }

  /** Reactivation keeps the activation counter and the last target cluster, and forgets everything else. */
  lemma ReactivationKeepsHistory(w: World, existing: UserSignup, r: Request)
    ensures var made := FreshSignup(w, r);
            var s := Reactivated(existing, made);
            && (forall key :: key in RETAINED ==> s.SameAnnotation(existing, key))
            && (forall key :: key !in RETAINED ==> s.SameAnnotation(made, key))
            && s.labels == made.labels && s.flags == made.flags && s.claims == made.claims
  {
    FreshSignupShape(w, r);
    var made := FreshSignup(w, r);
    forall key | key in RETAINED ensures Reactivated(existing, made).SameAnnotation(existing, key) {
      KeptAnnotation(existing, made, key);
    }
    forall key | key !in RETAINED ensures Reactivated(existing, made).SameAnnotation(made, key) {
      MadeAnnotation(existing, made, key);
    }
  }

  // ----- what is stored for whom -----

  lemma {:induction false} UpToTheFirst(s: string, c: char)
    ensures exists i :: 0 <= i <= |s| && UpTo(s, c) == s[..i] && Without(s[..i], c) && (i < |s| ==> s[i] == c)
  {
    if s != "" && s[0] != c {
      UpToTheFirst(s[1..], c);
      var i :| 0 <= i <= |s[1..]| && UpTo(s[1..], c) == s[1..][..i] && Without(s[1..][..i], c)
               && (i < |s[1..]| ==> s[1..][i] == c);
      assert s[..i + 1] == [s[0]] + s[1..][..i];
    } else {
      assert s[..0] == "";
    }
  }

  /** An admin's username ends in "crtadmin", up to the first "@" if there is one. */
  lemma {:induction false} AdminExactly(username: string)
    ensures IsCrtAdmin(username) <==>
      exists i :: 8 <= i <= |username| && username[i - 8..i] == "crtadmin"
                  && Without(username[..i], '@') && (i < |username| ==> username[i] == '@')
  {
    UpToTheFirst(username, '@');
    var i :| 0 <= i <= |username| && UpTo(username, '@') == username[..i] && Without(username[..i], '@')
             && (i < |username| ==> username[i] == '@');
    if i >= 8 {
      assert username[..i][i - 8..] == username[i - 8..i];
    }
    forall j | 0 <= j <= |username| && Without(username[..j], '@') && (j < |username| ==> username[j] == '@')
      ensures j == i
    {
    }
  }

  /** A user may sign up anew: there is no UserSignup, or a deactivated one that was not rejected. */
  predicate Open(stored: Option<UserSignup>) {
    stored.Some? ==> stored.value.status.deactivated && Rejected !in stored.value.flags
  }

  /** Somebody on the list has this email and its hash. */
  predicate OnTheList(w: World, banned: seq<BannedUser>, email: string) {
    exists b :: b in banned && b.email == email && b.emailHash == w.hash(email)
  }

  /** The signup is stored: nothing stands in its way. */
  predicate IsStored(w: World, banned: Option<seq<BannedUser>>, stored: Option<UserSignup>, r: Request,
                     writeFails: bool)
  {
    && Open(stored) && !IsCrtAdmin(r.claims.preferredUsername)
    && banned.Some? && !OnTheList(w, banned.value, r.claims.email)
    && (r.event.Some? ==> r.event.value.Ok?) && !writeFails
  }

  lemma BannedExactly(w: World, banned: seq<BannedUser>, email: string)
    ensures EmailBanned(w, banned, email) <==> OnTheList(w, banned, email)
  {
    if EmailBanned(w, banned, email) {
      var k :| 0 <= k < |banned| && banned[k].emailHash == w.hash(email) && banned[k].email == email;
      assert banned[k] in banned;
    }
  }

  /** What a signup request is answered, and when anything is stored at all. A user the account verifier
      rejects is stored and told so. */
  lemma SignupAnswersExactly(w: World, banned: Option<seq<BannedUser>>, stored: Option<UserSignup>, r: Request,
                             writeFails: bool)
    ensures var (after, reply) := SignupOutcome(w, banned, stored, r, writeFails);
            && (if IsStored(w, banned, stored, r, writeFails) then
                  && after.Some?
                  && reply == if r.verifier.Some? && r.verifier.value.result == VerifierRejected
                              then Refusal(SignupRejected) else Created(after.value)
                else after == stored && reply.Refusal?)
    ensures var reply := SignupOutcome(w, banned, stored, r, writeFails).1;
            var admin := IsCrtAdmin(r.claims.preferredUsername);
            var listed := banned.Some? && OnTheList(w, banned.value, r.claims.email);
            && (stored.Some? && Rejected in stored.value.flags ==> reply == Refusal(SignupRejected))
            && (stored.Some? && Rejected !in stored.value.flags && !stored.value.status.deactivated ==>
                  reply == Refusal(SignupConflict))
            && (Open(stored) && admin ==> reply == Refusal(AdminMayNotSignUp))
            && (Open(stored) && !admin && banned.None? ==> reply == Refusal(BannedListUnreadable))
            && (Open(stored) && !admin && listed ==> reply == Refusal(UserBanned))
            && (Open(stored) && !admin && banned.Some? && !listed ==>
                  && (r.event.Some? && r.event.value.Err? ==> reply == Refusal(r.event.value.error))
                  && ((r.event.Some? ==> r.event.value.Ok?) && writeFails ==>
                        reply == Refusal(if stored.Some? then UpdateFailed else CreateFailed)))
  {
    if banned.Some? {
      BannedExactly(w, banned.value, r.claims.email);
    }
  }

  /** An event that needs no verification came with the request. */
  predicate ApprovedByEvent(r: Request) {
    r.event.Some? && r.event.value.Ok? && !r.event.value.value.verificationRequired
  }

  predicate VerifierSays(r: Request, result: VerifierResult) {
    r.verifier.Some? && r.verifier.value.result == result
  }

  lemma StoredIsFresh(w: World, banned: Option<seq<BannedUser>>, stored: Option<UserSignup>, r: Request,
                      writeFails: bool)
    requires IsStored(w, banned, stored, r, writeFails)
    ensures SignupOutcome(w, banned, stored, r, writeFails).0
         == Some(if stored.Some? then Reactivated(stored.value, FreshSignup(w, r)) else FreshSignup(w, r))
  {
    BannedExactly(w, banned.value, r.claims.email);
  }

  /** A created or reactivated user must verify a phone number exactly when the captcha decision or the account
      verifier asks for it and no event without verification came with the request. The other flags are the
      verifier's rejection, unless that event clears it, and the event's approval; there are no more. */
  lemma MustVerifyExactly(w: World, banned: Option<seq<BannedUser>>, stored: Option<UserSignup>, r: Request,
                          writeFails: bool)
    requires w.Lawful() && IsStored(w, banned, stored, r, writeFails)
    ensures var t := SignupOutcome(w, banned, stored, r, writeFails).0.value;
            && (VerificationRequired in t.flags <==>
                  (r.verificationRequired || VerifierSays(r, VerifierPhone)) && !ApprovedByEvent(r))
            && (Rejected in t.flags <==>
                  VerifierSays(r, VerifierRejected) && !(ApprovedByEvent(r) && Rejected in w.clearedByApproval))
            && (ApprovedManually in t.flags <==> ApprovedByEvent(r))
            && t.flags <= {VerificationRequired, Rejected, ApprovedManually}
  {
    StoredIsFresh(w, banned, stored, r, writeFails);
  }

  /** What a created or reactivated UserSignup says of the request: the token's claims, the hash of the email,
      and the event's name and cluster. The status is the one before. */
  lemma StoredSaysWho(w: World, banned: Option<seq<BannedUser>>, stored: Option<UserSignup>, r: Request,
                      writeFails: bool)
    requires IsStored(w, banned, stored, r, writeFails)
    ensures var t := SignupOutcome(w, banned, stored, r, writeFails).0.value;
            && t.claims == r.claims
            && t.labels == (if r.event.None? then map[EmailHash := w.hash(r.claims.email)]
                            else map[EmailHash := w.hash(r.claims.email),
                                     SocialEventName := r.event.value.value.name])
            && t.targetCluster == (if r.event.None? then "" else r.event.value.value.targetCluster)
            && t.status == (if stored.Some? then stored.value.status else Status(false))
  {
    StoredIsFresh(w, banned, stored, r, writeFails);
  }

  /** What a request says under each key. */
  function Said(r: Request, key: AnnotationKey): Option<string> {
    match key
    case SendCounter => Some("0")
    case RequestReceivedTime => Some(r.receivedTime)
    case CaptchaScore => if r.captcha.Some? then Some(r.captcha.value.0) else None
    case CaptchaAssessment => if r.captcha.Some? then Some(r.captcha.value.1) else None
    case VerifierResult => if r.verifier.Some? then Some(r.verifier.value.text) else None
    case VerifierReasons => if r.verifier.Some? then r.verifier.value.reasons else None
    case SkipAutoCreateSpace => if r.noSpace then Some("true") else None
    case _ => None
  }

  lemma SumAt(a: map<AnnotationKey, string>, b: map<AnnotationKey, string>, key: AnnotationKey)
    ensures At(a + b, key) == if key in b then Some(b[key]) else At(a, key)
  {
  }

  lemma FreshAnnotationAt(r: Request, key: AnnotationKey)
    ensures At(FreshAnnotations(r), key) == Said(r, key)
  {
    var a := map[SendCounter := "0", RequestReceivedTime := r.receivedTime];
    var b := a + CaptchaAnnotations(r);
    var c := b + VerifierAnnotations(r);
    SumAt(a, CaptchaAnnotations(r), key);
    SumAt(b, VerifierAnnotations(r), key);
    SumAt(c, SpaceAnnotations(r), key);
    assert FreshAnnotations(r) == c + SpaceAnnotations(r);
  }

  lemma ReactivatedAt(w: World, existing: UserSignup, r: Request, key: AnnotationKey)
    ensures At(Reactivated(existing, FreshSignup(w, r)).annotations, key)
         == At(if key in RETAINED then existing.annotations else FreshSignup(w, r).annotations, key)
  {
    FreshSignupShape(w, r);
    if key in RETAINED {
      KeptAnnotation(existing, FreshSignup(w, r), key);
    } else {
      MadeAnnotation(existing, FreshSignup(w, r), key);
    }
  }

  /** Each annotation of a created or reactivated UserSignup: the two retained ones are as they were, the others
      are what the request says, and there are no more. */
  lemma StoredAnnotations(w: World, banned: Option<seq<BannedUser>>, stored: Option<UserSignup>, r: Request,
                          writeFails: bool, key: AnnotationKey)
    requires IsStored(w, banned, stored, r, writeFails)
    ensures At(SignupOutcome(w, banned, stored, r, writeFails).0.value.annotations, key)
         == if stored.Some? && key in {ActivationCounter, LastTargetCluster} then At(stored.value.annotations, key)
            else Said(r, key)
  {
    StoredIsFresh(w, banned, stored, r, writeFails);
    FreshAnnotationAt(r, key);
    assert FreshSignup(w, r).annotations == FreshAnnotations(r);
    if stored.Some? {
      ReactivatedAt(w, stored.value, r, key);
    }
  }
}
