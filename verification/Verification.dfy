/** What each verification call decides from the UserSignup it has read: the write it asks for and the
    answer it gives (pkg/verification/service/verification_service.go). */
module Verification {
  import opened Text
  import opened Decimal
  import opened UserSignups

  /** What an update closure overlays on the UserSignup it re-reads. */
  datatype Write = Write(
    labels: map<LabelKey, string>,
    annotations: map<AnnotationKey, string>,
    deletions: set<AnnotationKey>,
    reject: bool,
    unsetVerificationRequired: bool)

  function Applied(write: Write, s: UserSignup): UserSignup {
    var unset := if write.unsetVerificationRequired then s.flags - {VerificationRequired} else s.flags;
    s.(labels := s.labels + write.labels,
       annotations := (s.annotations + write.annotations) - write.deletions,
       flags := if write.reject then unset + {Rejected} else unset)
  }

  // ----- InitVerification -----

  datatype PhoneVerdict = PhoneFree | PhoneTaken | PhoneUnknown

  datatype LookupReply = LookupError | LookupReply(carrierRisk: string, blocked: bool, details: Option<string>)

  /** `code` is the generated code, `delivered` whether the message could be sent. */
  datatype InitInputs = InitInputs(phone: string, now: int, verdict: PhoneVerdict, lookup: LookupReply,
                                   code: Option<string>, delivered: bool)

  datatype LookupOutcome = LookupOutcome(reject: bool, annotations: map<AnnotationKey, string>)

  datatype Outcome = Outcome(write: Option<Write>, error: Option<Error>, sent: Option<string>)

  function Refused(e: Error): Outcome {
    Outcome(None, Some(e), None)
  }

  function BoolText(b: bool): string {
    if b then "true" else "false"
  }

  predicate IsHighRisk(r: LookupReply) {
    r.LookupReply? && (r.carrierRisk == "high" || r.blocked)
  }

  /** The look-up is skipped when disabled, for an excluded country, and for the number looked up last. */
  predicate SkipsLookup(w: World, cfg: Config, s: UserSignup, phone: string) {
    || cfg.lookupMode == LookupDisabled
    || w.countryOf(phone) in cfg.excludedCountries
    || s.Label(PhoneHash) == w.hash(phone)
  }

  function PhoneLookup(w: World, cfg: Config, s: UserSignup, phone: string, reply: LookupReply): LookupOutcome {
    if SkipsLookup(w, cfg, s, phone) || reply.LookupError? then LookupOutcome(false, map[])
    else
      var basic := map[CarrierRisk := reply.carrierRisk, NumberBlocked := BoolText(reply.blocked)];
      LookupOutcome(IsHighRisk(reply) && cfg.lookupMode == LookupEnabled,
                    if reply.details.Some? then basic[LookupDetails := reply.details.value] else basic)
  }

  /** The stored send counter; an unreadable one counts as exhausted. */
  function StoredCounter(cfg: Config, s: UserSignup): int {
    var text := s.Annotation(SendCounter);
    if text == "" then 0
    else var n := Atoi(text); if n.None? then cfg.dailyLimit else n.value
  }

  /** The window has run out, or there is none. */
  predicate WindowOver(w: World, s: UserSignup, now: int) {
    var ts := w.parseTime(s.Annotation(InitTimestamp));
    ts.None? || now > ts.value + DAY
  }

  function SendsSoFar(w: World, cfg: Config, s: UserSignup, now: int): int {
    if WindowOver(w, s, now) then 0 else StoredCounter(cfg, s)
  }

  function WindowAnnotations(w: World, cfg: Config, s: UserSignup, now: int): map<AnnotationKey, string> {
    var text := s.Annotation(SendCounter);
    var repaired := if text != "" && Atoi(text).None? then map[SendCounter := Itoa(cfg.dailyLimit)] else map[];
    if WindowOver(w, s, now) then repaired + map[InitTimestamp := w.formatTime(now), SendCounter := "0"]
    else repaired
  }

  function SentAnnotations(w: World, cfg: Config, sends: int, code: string, now: int): map<AnnotationKey, string> {
    map[Attempts := "0", SendCounter := Itoa(sends + 1), Code := code,
        Expiry := w.formatTime(now + cfg.codeExpiresInMin * MINUTE)]
  }

  /** From the budget check on, for a user who may ask for a code. */
  function SendDecision(w: World, cfg: Config, s: UserSignup, inp: InitInputs): Outcome {
    var labels := map[PhoneHash := w.hash(inp.phone)];
    var window := WindowAnnotations(w, cfg, s, inp.now);
    var sends := SendsSoFar(w, cfg, s, inp.now);
    if sends >= cfg.dailyLimit then
      Outcome(Some(Write(labels, window, {}, false, false)), Some(DailyLimitExceeded), None)
    else
      var lookup := PhoneLookup(w, cfg, s, inp.phone, inp.lookup);
      var annotations := window + lookup.annotations;
      if lookup.reject then
        Outcome(Some(Write(labels, annotations, {}, true, false)), Some(VerificationRejected), None)
      else if inp.code.None? then Refused(CodeGenerationFailed)
      else if !inp.delivered then
        Outcome(Some(Write(labels, annotations, {}, false, false)), Some(SendingFailed), None)
      else
        Outcome(Some(Write(labels, annotations + SentAnnotations(w, cfg, sends, inp.code.value, inp.now),
                           {}, false, false)),
                None, inp.code)
  }

  function InitDecision(w: World, cfg: Config, s: UserSignup, inp: InitInputs): Outcome {
    if VerificationRequired !in s.flags then Refused(VerificationNotRequired)
    else if Rejected in s.flags then Refused(VerificationRejected)
    else if inp.verdict == PhoneTaken then Refused(PhoneInUse)
    else if inp.verdict == PhoneUnknown then Refused(PhoneCheckFailed)
    else SendDecision(w, cfg, s, inp)
  }

  // ----- VerifyPhoneCode -----

  datatype PhoneInputs = PhoneInputs(code: string, now: int, verdict: PhoneVerdict)

  /** The captcha score stands in the way of automatic verification. */
  predicate NeedsManualApproval(w: World, cfg: Config, s: UserSignup) {
    var reactivation :=
      && ActivationCounter in s.annotations && cfg.allowLowScoreReactivation
      && Atoi(s.annotations[ActivationCounter]).Some? && Atoi(s.annotations[ActivationCounter]).value != 1;
    !reactivation && CaptchaScore in s.annotations && w.scoreTooLow(s.annotations[CaptchaScore])
  }

  const CODE_ANNOTATIONS: set<AnnotationKey> := {Code, Attempts, SendCounter, InitTimestamp, Expiry}

  /** The attempts counted so far; an unreadable counter counts as exhausted. */
  function PhoneAttempts(cfg: Config, s: UserSignup): int {
    var n := Atoi(s.Annotation(Attempts));
    if n.None? then cfg.attemptsAllowed else n.value
  }

  function RepairedAttempts(cfg: Config, s: UserSignup): map<AnnotationKey, string> {
    if Atoi(s.Annotation(Attempts)).None? then map[Attempts := Itoa(cfg.attemptsAllowed)] else map[]
  }

  function PhoneProblem(w: World, cfg: Config, s: UserSignup, inp: PhoneInputs): Option<Error> {
    var expiry := w.parseTime(s.Annotation(Expiry));
    if PhoneAttempts(cfg, s) >= cfg.attemptsAllowed then Some(TooManyAttempts)
    else if expiry.None? then Some(ExpiryUnreadable)
    else if inp.now > expiry.value then Some(CodeExpired)
    else if inp.code != s.Annotation(Code) then Some(CodeInvalid)
    else None
  }

  function PhoneDecision(w: World, cfg: Config, s: UserSignup, inp: PhoneInputs): Outcome {
    if NeedsManualApproval(w, cfg, s) then Refused(ManualApprovalRequired)
    else if inp.verdict != PhoneFree then Refused(PhoneInUse)
    else
      var problem := PhoneProblem(w, cfg, s, inp);
      var repaired := RepairedAttempts(cfg, s);
      var annotations :=
        if problem == Some(CodeInvalid) then map[Attempts := Itoa(PhoneAttempts(cfg, s) + 1)] else repaired;
      Outcome(Some(Write(map[], annotations, if problem.None? then CODE_ANNOTATIONS else {}, false, problem.None?)),
              problem, None)
  }

  // ----- VerifyActivationCode -----

  function CheckedAttempts(cfg: Config, s: UserSignup): Result<int, Error> {
    var text := s.Annotation(Attempts);
    if text == "" then Ok(0)
    else
      var n := Atoi(text);
      if n.None? then Err(AttemptsUnreadable)
      else if n.value >= cfg.attemptsAllowed then Err(TooManyAttempts)
      else Ok(n.value)
  }

  /** An activation code may be tried with no counter stored or with one below the limit. */
  lemma AttemptsCheckedExactly(cfg: Config, s: UserSignup)
    ensures var text := s.Annotation(Attempts);
            var checked := CheckedAttempts(cfg, s);
            && (checked.Ok? <==> text == "" || (Atoi(text).Some? && Atoi(text).value < cfg.attemptsAllowed))
            && (checked.Ok? ==> (if text == "" then checked.value == 0 else Atoi(text) == Some(checked.value)))
            && (checked == Err(AttemptsUnreadable) <==> text != "" && Atoi(text).None?)
            && (checked.Err? ==> checked.error in {AttemptsUnreadable, TooManyAttempts})
  {
  }

  // ----- what a call for a code writes -----

  /** The annotations of the message that went out, if one did. */
  function MessageAnnotations(w: World, cfg: Config, s: UserSignup, now: int, sent: Option<string>)
    : map<AnnotationKey, string>
  {
    if sent.None? then map[] else SentAnnotations(w, cfg, SendsSoFar(w, cfg, s, now), sent.value, now)
  }

  /** The annotations of the look-up, if the call got that far. */
  function LookupAnnotations(w: World, cfg: Config, s: UserSignup, inp: InitInputs): map<AnnotationKey, string> {
    if SendsSoFar(w, cfg, s, inp.now) >= cfg.dailyLimit then map[]
    else PhoneLookup(w, cfg, s, inp.phone, inp.lookup).annotations
  }

  /** The annotations of the write: those of the window, then of the look-up, then of the message. */
  lemma InitWriteIs(w: World, cfg: Config, s: UserSignup, inp: InitInputs)
    requires InitDecision(w, cfg, s, inp).write.Some?
    ensures var write := InitDecision(w, cfg, s, inp).write.value;
            && write.labels == map[PhoneHash := w.hash(inp.phone)]
            && write.deletions == {} && !write.unsetVerificationRequired
            && write.annotations
               == WindowAnnotations(w, cfg, s, inp.now) + LookupAnnotations(w, cfg, s, inp)
                  + MessageAnnotations(w, cfg, s, inp.now, InitDecision(w, cfg, s, inp).sent)
  {
  }

  // ----- what the look-up says about a number, and what it leaves behind -----

  /** There is no readable start of a window, or it is more than 24 hours ago. */
  predicate DayIsOver(w: World, s: UserSignup, now: int) {
    w.parseTime(s.Annotation(InitTimestamp)).Some? ==>
      now - w.parseTime(s.Annotation(InitTimestamp)).value > 24 * 60 * 60 * 1000
  }

  /** A look-up is asked for the number of this call, and answers. */
  predicate LookedUp(w: World, cfg: Config, s: UserSignup, inp: InitInputs) {
    && cfg.lookupMode != LookupDisabled && w.countryOf(inp.phone) !in cfg.excludedCountries
    && s.Label(PhoneHash) != w.hash(inp.phone) && inp.lookup.LookupReply?
  }

  /** An enforced look-up calls the number risky. */
  predicate CalledRisky(w: World, cfg: Config, s: UserSignup, inp: InitInputs) {
    && LookedUp(w, cfg, s, inp) && cfg.lookupMode == LookupEnabled
    && (inp.lookup.carrierRisk == "high" || inp.lookup.blocked)
  }

  /** The annotation has this value, or the one it had before. */
  predicate Becomes(t: UserSignup, s: UserSignup, key: AnnotationKey, value: Option<string>) {
    if value.Some? then key in t.annotations && t.annotations[key] == value.value else t.SameAnnotation(s, key)
  }

  lemma AppliedAt(write: Write, s: UserSignup, key: AnnotationKey)
    ensures if key in write.deletions then key !in Applied(write, s).annotations
            else Becomes(Applied(write, s), s, key, At(write.annotations, key))
  {
  }

  /** The value under one key of what a call for a code writes: the message's, else the look-up's, else the
      window's. */
  lemma InitWriteAt(w: World, cfg: Config, s: UserSignup, inp: InitInputs, key: AnnotationKey)
    requires InitDecision(w, cfg, s, inp).write.Some?
    ensures var message := MessageAnnotations(w, cfg, s, inp.now, InitDecision(w, cfg, s, inp).sent);
            var lookup := LookupAnnotations(w, cfg, s, inp);
            Becomes(Applied(InitDecision(w, cfg, s, inp).write.value, s), s, key,
                    if key in message then Some(message[key])
                    else if key in lookup then Some(lookup[key])
                    else At(WindowAnnotations(w, cfg, s, inp.now), key))
  {
    InitWriteIs(w, cfg, s, inp);
    AppliedAt(InitDecision(w, cfg, s, inp).write.value, s, key);
  }

  lemma MessageValues(w: World, cfg: Config, s: UserSignup, now: int, sent: Option<string>)
    ensures var a := MessageAnnotations(w, cfg, s, now, sent);
            && a.Keys == (if sent.None? then {} else {Attempts, SendCounter, Code, Expiry})
            && (sent.Some? ==>
                  && a[Attempts] == "0" && a[Code] == sent.value
                  && a[Expiry] == w.formatTime(now + cfg.codeExpiresInMin * 60 * 1000)
                  && a[SendCounter] == Itoa(SendsSoFar(w, cfg, s, now) + 1))
  {
  }

  /** What goes out is the code of the call, and there was a send left for it. */
  lemma SentIsTheCode(w: World, cfg: Config, s: UserSignup, inp: InitInputs)
    ensures var sent := InitDecision(w, cfg, s, inp).sent;
            sent.Some? ==> sent == inp.code && SendsSoFar(w, cfg, s, inp.now) < cfg.dailyLimit
  {
  }

  lemma LookupValues(w: World, cfg: Config, s: UserSignup, inp: InitInputs)
    ensures var a := LookupAnnotations(w, cfg, s, inp);
            if SendsSoFar(w, cfg, s, inp.now) < cfg.dailyLimit && LookedUp(w, cfg, s, inp) then
              && a.Keys == {CarrierRisk, NumberBlocked} + (if inp.lookup.details.Some? then {LookupDetails} else {})
              && a[CarrierRisk] == inp.lookup.carrierRisk
              && a[NumberBlocked] == (if inp.lookup.blocked then "true" else "false")
              && At(a, LookupDetails) == inp.lookup.details
            else a == map[]
  {
  }

  lemma WindowValues(w: World, cfg: Config, s: UserSignup, now: int)
    ensures var a := WindowAnnotations(w, cfg, s, now);
            var text := s.Annotation(SendCounter);
            && a.Keys <= {InitTimestamp, SendCounter}
            && At(a, InitTimestamp) == (if DayIsOver(w, s, now) then Some(w.formatTime(now)) else None)
            && At(a, SendCounter) == if DayIsOver(w, s, now) then Some("0")
                                     else if text != "" && Atoi(text).None? then Some(Itoa(cfg.dailyLimit)) else None
  {
  }

  lemma OnlyTheLookupHas(w: World, cfg: Config, s: UserSignup, inp: InitInputs, key: AnnotationKey)
    requires InitDecision(w, cfg, s, inp).write.Some? && key in {CarrierRisk, NumberBlocked, LookupDetails}
    ensures Becomes(Applied(InitDecision(w, cfg, s, inp).write.value, s), s, key,
                    At(LookupAnnotations(w, cfg, s, inp), key))
  {
    MessageValues(w, cfg, s, inp.now, InitDecision(w, cfg, s, inp).sent);
    WindowValues(w, cfg, s, inp.now);
    InitWriteAt(w, cfg, s, inp, key);
  }

  /** A written call with sends left records the reply of a look-up that was made: the carrier's risk, whether
      the number is blocked, and the details if there are any. Any other written call leaves all three. */
  lemma LookupIsRecorded(w: World, cfg: Config, s: UserSignup, inp: InitInputs)
    requires InitDecision(w, cfg, s, inp).write.Some?
    ensures var t := Applied(InitDecision(w, cfg, s, inp).write.value, s);
            if SendsSoFar(w, cfg, s, inp.now) < cfg.dailyLimit && LookedUp(w, cfg, s, inp) then
              && Becomes(t, s, CarrierRisk, Some(inp.lookup.carrierRisk))
              && Becomes(t, s, NumberBlocked, Some(if inp.lookup.blocked then "true" else "false"))
              && Becomes(t, s, LookupDetails, inp.lookup.details)
            else
              t.SameAnnotation(s, CarrierRisk) && t.SameAnnotation(s, NumberBlocked)
              && t.SameAnnotation(s, LookupDetails)
  {
    LookupValues(w, cfg, s, inp);
    OnlyTheLookupHas(w, cfg, s, inp, CarrierRisk);
    OnlyTheLookupHas(w, cfg, s, inp, NumberBlocked);
    OnlyTheLookupHas(w, cfg, s, inp, LookupDetails);
  }

  /** A written call opens a new window exactly when the old one is over. */
  lemma WindowIsRecorded(w: World, cfg: Config, s: UserSignup, inp: InitInputs)
    requires InitDecision(w, cfg, s, inp).write.Some?
    ensures var t := Applied(InitDecision(w, cfg, s, inp).write.value, s);
            Becomes(t, s, InitTimestamp, if DayIsOver(w, s, inp.now) then Some(w.formatTime(inp.now)) else None)
  {
    LookupValues(w, cfg, s, inp);
    MessageValues(w, cfg, s, inp.now, InitDecision(w, cfg, s, inp).sent);
    WindowValues(w, cfg, s, inp.now);
    InitWriteAt(w, cfg, s, inp, InitTimestamp);
  }

  /** The sends recorded after a written call: a message counts one more than the open window has, a new window
      without a message starts at none, and a counter of the open window that cannot be read becomes the limit. */
  lemma SendIsCounted(w: World, cfg: Config, s: UserSignup, inp: InitInputs)
    requires InitDecision(w, cfg, s, inp).write.Some?
    ensures var t := Applied(InitDecision(w, cfg, s, inp).write.value, s);
            var over := DayIsOver(w, s, inp.now);
            var text := s.Annotation(SendCounter);
            if InitDecision(w, cfg, s, inp).sent.Some? then
              if over || text == "" then Becomes(t, s, SendCounter, Some(Itoa(1)))
              else Atoi(text).Some? && Becomes(t, s, SendCounter, Some(Itoa(Atoi(text).value + 1)))
            else
              Becomes(t, s, SendCounter,
                      if over then Some("0")
                      else if text != "" && Atoi(text).None? then Some(Itoa(cfg.dailyLimit)) else None)
  {
    LookupValues(w, cfg, s, inp);
    MessageValues(w, cfg, s, inp.now, InitDecision(w, cfg, s, inp).sent);
    WindowValues(w, cfg, s, inp.now);
    SendsRead(w, cfg, s, inp.now);
    SentIsTheCode(w, cfg, s, inp);
    InitWriteAt(w, cfg, s, inp, SendCounter);
  }

  lemma SendsRead(w: World, cfg: Config, s: UserSignup, now: int)
    ensures var text := s.Annotation(SendCounter);
            SendsSoFar(w, cfg, s, now)
            == if DayIsOver(w, s, now) || text == "" then 0
               else if Atoi(text).None? then cfg.dailyLimit else Atoi(text).value
  {
  }

  lemma OnlyTheMessageHas(w: World, cfg: Config, s: UserSignup, inp: InitInputs, key: AnnotationKey)
    requires InitDecision(w, cfg, s, inp).write.Some? && key in {Code, Expiry, Attempts}
    ensures Becomes(Applied(InitDecision(w, cfg, s, inp).write.value, s), s, key,
                    At(MessageAnnotations(w, cfg, s, inp.now, InitDecision(w, cfg, s, inp).sent), key))
  {
    LookupValues(w, cfg, s, inp);
    WindowValues(w, cfg, s, inp.now);
    InitWriteAt(w, cfg, s, inp, key);
  }

  /** The code, its expiry and the attempts after a written call: those of the message, if one went out. */
  lemma MessageIsRecorded(w: World, cfg: Config, s: UserSignup, inp: InitInputs)
    requires InitDecision(w, cfg, s, inp).write.Some?
    ensures var out := InitDecision(w, cfg, s, inp);
            var t := Applied(out.write.value, s);
            var expiry := w.formatTime(inp.now + cfg.codeExpiresInMin * 60 * 1000);
            && Becomes(t, s, Code, if out.sent.Some? then inp.code else None)
            && Becomes(t, s, Expiry, if out.sent.Some? then Some(expiry) else None)
            && Becomes(t, s, Attempts, if out.sent.Some? then Some("0") else None)
  {
    MessageValues(w, cfg, s, inp.now, InitDecision(w, cfg, s, inp).sent);
    SentIsTheCode(w, cfg, s, inp);
    OnlyTheMessageHas(w, cfg, s, inp, Code);
    OnlyTheMessageHas(w, cfg, s, inp, Expiry);
    OnlyTheMessageHas(w, cfg, s, inp, Attempts);
  }

  const INIT_ANNOTATIONS: set<AnnotationKey> := CODE_ANNOTATIONS + {CarrierRisk, NumberBlocked, LookupDetails}

  lemma OtherAnnotationStays(w: World, cfg: Config, s: UserSignup, inp: InitInputs, key: AnnotationKey)
    requires InitDecision(w, cfg, s, inp).write.Some? && key !in INIT_ANNOTATIONS
    ensures Applied(InitDecision(w, cfg, s, inp).write.value, s).SameAnnotation(s, key)
  {
    LookupValues(w, cfg, s, inp);
    MessageValues(w, cfg, s, inp.now, InitDecision(w, cfg, s, inp).sent);
    WindowValues(w, cfg, s, inp.now);
    InitWriteAt(w, cfg, s, inp, key);
  }

  /** What a write leaves alone of labels, flags and the rest. */
  lemma AppliedFrame(write: Write, s: UserSignup)
    ensures var t := Applied(write, s);
            && (forall key :: key !in write.labels ==> t.SameLabel(s, key))
            && (forall key :: key in write.labels ==> key in t.labels && t.labels[key] == write.labels[key])
            && t == s.(annotations := t.annotations, labels := t.labels, flags := t.flags)
            && t.flags == s.flags - (if write.unsetVerificationRequired then {VerificationRequired} else {})
                          + (if write.reject then {Rejected} else {})
  {
  }

  /** A written call changes no other annotation, and of everything else only the number's hash and, if it
      says so, the rejection. */
  lemma NothingElseIsRecorded(w: World, cfg: Config, s: UserSignup, inp: InitInputs)
    requires InitDecision(w, cfg, s, inp).write.Some?
    ensures var out := InitDecision(w, cfg, s, inp);
            var t := Applied(out.write.value, s);
            && (forall key :: key !in INIT_ANNOTATIONS ==> t.SameAnnotation(s, key))
            && PhoneHash in t.labels && t.labels[PhoneHash] == w.hash(inp.phone)
            && (forall key :: key != PhoneHash ==> t.SameLabel(s, key))
            && t == s.(annotations := t.annotations, labels := t.labels, flags := t.flags)
            && t.flags == s.flags + if out.error == Some(VerificationRejected) then {Rejected} else {}
  {
    InitWriteIs(w, cfg, s, inp);
    RejectsExactlyWhen(w, cfg, s, inp);
    InitAnswersExactly(w, cfg, s, inp);
    AppliedFrame(InitDecision(w, cfg, s, inp).write.value, s);
    forall key | key !in INIT_ANNOTATIONS
      ensures Applied(InitDecision(w, cfg, s, inp).write.value, s).SameAnnotation(s, key)
    {
      OtherAnnotationStays(w, cfg, s, inp, key);
    }
  }

  /** The user may ask for a code for this number. */
  predicate MayAsk(s: UserSignup, inp: InitInputs) {
    VerificationRequired in s.flags && Rejected !in s.flags && inp.verdict == PhoneFree
  }

  /** The window has no send left; a counter that cannot be read counts as used up. */
  predicate LimitReached(w: World, cfg: Config, s: UserSignup, now: int) {
    var text := s.Annotation(SendCounter);
    if DayIsOver(w, s, now) || text == "" then cfg.dailyLimit <= 0
    else Atoi(text).None? || Atoi(text).value >= cfg.dailyLimit
  }

  /** Each answer to a call for a code has its own condition, in the order of the checks. */
  lemma InitAnswersExactly(w: World, cfg: Config, s: UserSignup, inp: InitInputs)
    ensures var e := InitDecision(w, cfg, s, inp).error;
            var asks := VerificationRequired in s.flags && Rejected !in s.flags;
            var goesOn := MayAsk(s, inp) && !LimitReached(w, cfg, s, inp.now);
            var passes := goesOn && !CalledRisky(w, cfg, s, inp);
            && (e == Some(VerificationNotRequired) <==> VerificationRequired !in s.flags)
            && (e == Some(PhoneInUse) <==> asks && inp.verdict == PhoneTaken)
            && (e == Some(PhoneCheckFailed) <==> asks && inp.verdict == PhoneUnknown)
            && (e == Some(DailyLimitExceeded) <==> MayAsk(s, inp) && LimitReached(w, cfg, s, inp.now))
            && (e == Some(VerificationRejected) <==>
                  || (VerificationRequired in s.flags && Rejected in s.flags)
                  || (goesOn && CalledRisky(w, cfg, s, inp)))
            && (e == Some(CodeGenerationFailed) <==> passes && inp.code.None?)
            && (e == Some(SendingFailed) <==> passes && inp.code.Some? && !inp.delivered)
            && (e == None <==> passes && inp.code.Some? && inp.delivered)
    ensures var out := InitDecision(w, cfg, s, inp);
            && out.sent == (if out.error.None? then inp.code else None)
            && (out.write.Some? <==> MayAsk(s, inp) && out.error != Some(CodeGenerationFailed))
  {
  }

  // ----- when a message goes out and when a code is accepted -----

  /** A message is sent exactly to a user who still has to verify and was not rejected, with a free
      number, with sends left in the current window, whose number the look-up lets pass. */
  lemma SendsExactlyWhen(w: World, cfg: Config, s: UserSignup, inp: InitInputs)
    ensures InitDecision(w, cfg, s, inp).sent.Some? <==>
      (&& VerificationRequired in s.flags && Rejected !in s.flags && inp.verdict == PhoneFree
       && (if WindowOver(w, s, inp.now) then 0 < cfg.dailyLimit else StoredCounter(cfg, s) < cfg.dailyLimit)
       && !CalledRisky(w, cfg, s, inp)
       && inp.code.Some? && inp.delivered)
    ensures InitDecision(w, cfg, s, inp).sent.Some? <==> InitDecision(w, cfg, s, inp).error.None?
  {
  }

  /** A call rejects the user exactly when everything up to the message stands and an enforced look-up
      calls the number risky; the user is then told so, and no message goes out. */
  lemma RejectsExactlyWhen(w: World, cfg: Config, s: UserSignup, inp: InitInputs)
    ensures var out := InitDecision(w, cfg, s, inp);
            (out.write.Some? && out.write.value.reject) <==>
              (&& VerificationRequired in s.flags && Rejected !in s.flags && inp.verdict == PhoneFree
               && SendsSoFar(w, cfg, s, inp.now) < cfg.dailyLimit
               && CalledRisky(w, cfg, s, inp))
    ensures var out := InitDecision(w, cfg, s, inp);
            out.write.Some? && out.write.value.reject ==> out.sent.None? && out.error == Some(VerificationRejected)
  {
  }

  /** The captcha holds the user back: the score is stored and too low, and nothing shows that the user was
      active before, or that does not help. */
  predicate CaptchaHoldsBack(w: World, cfg: Config, s: UserSignup) {
    && CaptchaScore in s.annotations && w.scoreTooLow(s.annotations[CaptchaScore])
    && (|| !cfg.allowLowScoreReactivation || ActivationCounter !in s.annotations
        || Atoi(s.annotations[ActivationCounter]).None? || Atoi(s.annotations[ActivationCounter]) == Some(1))
  }

  /** Each answer to a phone code has its own condition, in the order of the checks; an attempts counter that
      cannot be read counts as used up. */
  lemma PhoneAnswersExactly(w: World, cfg: Config, s: UserSignup, inp: PhoneInputs)
    ensures var e := PhoneDecision(w, cfg, s, inp).error;
            var checked := !CaptchaHoldsBack(w, cfg, s) && inp.verdict == PhoneFree;
            var n := Atoi(s.Annotation(Attempts));
            var left := checked && n.Some? && n.value < cfg.attemptsAllowed;
            var expiry := w.parseTime(s.Annotation(Expiry));
            var inTime := left && expiry.Some? && inp.now <= expiry.value;
            && (e == Some(ManualApprovalRequired) <==> CaptchaHoldsBack(w, cfg, s))
            && (e == Some(PhoneInUse) <==> !CaptchaHoldsBack(w, cfg, s) && inp.verdict != PhoneFree)
            && (e == Some(TooManyAttempts) <==> checked && (n.None? || n.value >= cfg.attemptsAllowed))
            && (e == Some(ExpiryUnreadable) <==> left && expiry.None?)
            && (e == Some(CodeExpired) <==> left && expiry.Some? && inp.now > expiry.value)
            && (e == Some(CodeInvalid) <==> inTime && inp.code != s.Annotation(Code))
            && (e == None <==> inTime && inp.code == s.Annotation(Code))
            && (PhoneDecision(w, cfg, s, inp).write.Some? <==> checked)
  {
  }

  lemma PhoneWriteIs(w: World, cfg: Config, s: UserSignup, inp: PhoneInputs)
    requires PhoneDecision(w, cfg, s, inp).write.Some?
    ensures var e := PhoneDecision(w, cfg, s, inp).error;
            var write := PhoneDecision(w, cfg, s, inp).write.value;
            var n := Atoi(s.Annotation(Attempts));
            && write.labels == map[] && !write.reject && write.unsetVerificationRequired == e.None?
            && write.deletions == (if e.None? then {Code, Attempts, SendCounter, InitTimestamp, Expiry} else {})
            && write.annotations.Keys <= {Attempts}
            && (e.Some? ==>
                  At(write.annotations, Attempts)
                  == if e == Some(CodeInvalid) && n.Some? then Some(Itoa(n.value + 1))
                     else if n.None? then Some(Itoa(cfg.attemptsAllowed)) else None)
  {
  }

  /** Each annotation after a written answer: an accepted code leaves none of the verification annotations; any
      other leaves all of them but the attempts, which a wrong code raises by one and which become the limit
      if they could not be read. No other annotation changes. */
  lemma PhoneAnswerIsRecorded(w: World, cfg: Config, s: UserSignup, inp: PhoneInputs, key: AnnotationKey)
    requires PhoneDecision(w, cfg, s, inp).write.Some?
    ensures var e := PhoneDecision(w, cfg, s, inp).error;
            var t := Applied(PhoneDecision(w, cfg, s, inp).write.value, s);
            var n := Atoi(s.Annotation(Attempts));
            if e.None? && key in {Code, Attempts, SendCounter, InitTimestamp, Expiry} then key !in t.annotations
            else if key == Attempts then
              Becomes(t, s, Attempts,
                      if e == Some(CodeInvalid) && n.Some? then Some(Itoa(n.value + 1))
                      else if n.None? then Some(Itoa(cfg.attemptsAllowed)) else None)
            else t.SameAnnotation(s, key)
  {
    PhoneWriteIs(w, cfg, s, inp);
    AppliedAt(PhoneDecision(w, cfg, s, inp).write.value, s, key);
  }

  /** A written answer to a phone code changes nothing else but the need to verify, which an accepted code ends. */
  lemma NothingElseIsAnswered(w: World, cfg: Config, s: UserSignup, inp: PhoneInputs)
    requires PhoneDecision(w, cfg, s, inp).write.Some?
    ensures var e := PhoneDecision(w, cfg, s, inp).error;
            var t := Applied(PhoneDecision(w, cfg, s, inp).write.value, s);
            && t == s.(annotations := t.annotations, flags := t.flags)
            && t.flags == s.flags - if e.None? then {VerificationRequired} else {}
  {
    PhoneWriteIs(w, cfg, s, inp);
    AppliedFrame(PhoneDecision(w, cfg, s, inp).write.value, s);
    assert s.labels + map[] == s.labels;
  }

  /** A code is accepted exactly when it is the stored one, not expired, with attempts left, for a number
      nobody else uses, from a user the captcha does not hold back. */
  lemma AcceptsExactlyWhen(w: World, cfg: Config, s: UserSignup, inp: PhoneInputs)
    ensures PhoneDecision(w, cfg, s, inp).error.None? <==>
      (&& !CaptchaHoldsBack(w, cfg, s) && inp.verdict == PhoneFree
       && Atoi(s.Annotation(Attempts)).Some? && Atoi(s.Annotation(Attempts)).value < cfg.attemptsAllowed
       && w.parseTime(s.Annotation(Expiry)).Some? && inp.now <= w.parseTime(s.Annotation(Expiry)).value
       && inp.code == s.Annotation(Code))
    ensures PhoneDecision(w, cfg, s, inp).error.None? <==>
      PhoneDecision(w, cfg, s, inp).write.Some? && PhoneDecision(w, cfg, s, inp).write.value.unsetVerificationRequired
  {
  }
}
