/** The three verification calls as they run against the host cluster
    (pkg/verification/service/verification_service.go). */
module VerificationService {
  import opened Text
  import opened Decimal
  import opened UserSignups
  import opened SocialEvents
  import opened Verification
  import opened PhoneNumbers
  import opened PollUpdate
  import SignupService

  /** The store as a call finds it, with the calls that fail. */
  datatype Faults = Faults(getFails: bool, bannedListFails: bool, signupListFails: bool, env: nat -> Conditions)

  const NO_LOCALS: Locals := Locals(0, None, None)

  /** What a decision leads to: nothing, or its write in the retry loop. */
  function Settled(w: World, stored: Option<UserSignup>, out: Outcome, env: nat -> Conditions)
    : (Option<UserSignup>, Option<Error>)
  {
    if out.write.None? then (stored, out.error)
    else
      var t := Polled(w, Overlay(out.write.value), stored, NO_LOCALS, env, 0);
      (t.stored, if t.failed then Some(UpdateFailed) else out.error)
  }

  /** Runs the look-up if it applies and adds what it found to the annotations to be written. */
  method PerformPhoneLookup(w: World, cfg: Config, s: UserSignup, phone: string, phoneHash: string,
                            annotationValues: map<AnnotationKey, string>, reply: LookupReply)
    returns (reject: bool, values: map<AnnotationKey, string>)
    requires phoneHash == w.hash(phone)
    ensures var l := PhoneLookup(w, cfg, s, phone, reply);
            reject == l.reject && values == annotationValues + l.annotations
  {
    values := annotationValues;
    if cfg.lookupMode == LookupDisabled || w.countryOf(phone) in cfg.excludedCountries {
      return false, values;
    }
    if s.Label(PhoneHash) == phoneHash {
      return false, values;
    }
    if reply.LookupError? {
      return false, values;
    }
    values := values[CarrierRisk := reply.carrierRisk];
    values := values[NumberBlocked := BoolText(reply.blocked)];
    if reply.details.Some? {
      values := values[LookupDetails := reply.details.value];
    }
    if reply.carrierRisk == "high" || reply.blocked {
      if cfg.lookupMode == LookupEnabled {
        return true, values;
      }
    }
    return false, values;
  }

  /** The sends counted in the current window, and the annotations that open a new window if it is over. */
  method ReadWindow(w: World, cfg: Config, signup: UserSignup, now: int)
    returns (counter: int, annotationValues: map<AnnotationKey, string>)
    ensures counter == SendsSoFar(w, cfg, signup, now)
    ensures annotationValues == WindowAnnotations(w, cfg, signup, now)
  {
    annotationValues := map[];
    counter := 0;
    var verificationCounter := signup.Annotation(SendCounter);
    if verificationCounter != "" {
      var n := Atoi(verificationCounter);
      if n.None? {
        annotationValues := annotationValues[SendCounter := Itoa(cfg.dailyLimit)];
        counter := cfg.dailyLimit;
      } else {
        counter := n.value;
      }
    }
    var ts := w.parseTime(signup.Annotation(InitTimestamp));
    if ts.None? || now > ts.value + DAY {
      annotationValues := annotationValues[InitTimestamp := w.formatTime(now)];
      annotationValues := annotationValues[SendCounter := "0"];
      counter := 0;
    }
  }

  /** From the budget check to the message: what is to be written, or an error that ends the call at once. */
  method SendCode(w: World, cfg: Config, signup: UserSignup, inp: InitInputs) returns (out: Outcome)
    requires VerificationRequired in signup.flags && Rejected !in signup.flags && inp.verdict == PhoneFree
    ensures out == InitDecision(w, cfg, signup, inp)
  {
    var phoneHash := w.hash(inp.phone);
    var labelValues := map[PhoneHash := phoneHash];
    var counter, annotationValues := ReadWindow(w, cfg, signup, inp.now);
    var initError: Option<Error> := None;
    var sms: Option<string> := None;
    var rejectSignup := false;
    if counter >= cfg.dailyLimit {
      initError := Some(DailyLimitExceeded);
    } else {
      rejectSignup, annotationValues :=
        PerformPhoneLookup(w, cfg, signup, inp.phone, phoneHash, annotationValues, inp.lookup);
      if rejectSignup {
        initError := Some(VerificationRejected);
      } else {
        if inp.code.None? {
          return Refused(CodeGenerationFailed);
        }
        if !inp.delivered {
          initError := Some(SendingFailed);
        } else {
          sms := inp.code;
          annotationValues := annotationValues + map[
            Attempts := "0",
            SendCounter := Itoa(counter + 1),
            Code := inp.code.value,
            Expiry := w.formatTime(inp.now + cfg.codeExpiresInMin * MINUTE)];
        }
      }
    }
    return Outcome(Some(Write(labelValues, annotationValues, {}, rejectSignup, false)), initError, sms);
  }

  /** `now`, the look-up's reply, the generated code and the delivery of the message are given; `sms` is
      the code that went out. */
  method InitVerification(w: World, cfg: Config, host: Host, username: string, phone: string, now: int,
                          reply: LookupReply, code: Option<string>, delivered: bool, f: Faults)
    returns (error: Option<Error>, sms: Option<string>)
    requires w.Lawful()
    modifies host`signups
    ensures var name := w.encodeUsername(username);
            var stored := ObjectAt(old(host.signups), name);
            if f.getFails then error == Some(SignupUnreadable) && sms == None && host.signups == old(host.signups)
            else if stored.None? then error == Some(SignupNotFound) && sms == None && host.signups == old(host.signups)
            else
              var verdict := Verdict(w, if f.bannedListFails then None else Some(host.banned),
                                     if f.signupListFails then None else Some(old(host.signups)), username, phone);
              var out := InitDecision(w, cfg, stored.value, InitInputs(phone, now, verdict, reply, code, delivered));
              var (after, answer) := Settled(w, stored, out, f.env);
              host.signups == WithObject(old(host.signups), name, after) && error == answer && sms == out.sent
  {
    var name := w.encodeUsername(username);
    if f.getFails {
      return Some(SignupUnreadable), None;
    }
    if name !in host.signups {
      return Some(SignupNotFound), None;
    }
    var signup := host.signups[name];
    assert host.signups == WithObject(host.signups, name, Some(signup));
    if VerificationRequired !in signup.flags {
      return Some(VerificationNotRequired), None;
    }
    if Rejected in signup.flags {
      return Some(VerificationRejected), None;
    }
    var inUse := PhoneNumberAlreadyInUse(w, host, username, phone, f.bannedListFails, f.signupListFails);
    if inUse == PhoneTaken {
      return Some(PhoneInUse), None;
    }
    if inUse == PhoneUnknown {
      return Some(PhoneCheckFailed), None;
    }
    var out := SendCode(w, cfg, signup, InitInputs(phone, now, inUse, reply, code, delivered));
    if out.write.None? {
      return out.error, out.sent;
    }
    var ok, _ := PollUpdateSignup(host, name, w, Overlay(out.write.value), NO_LOCALS, f.env);
    return if !ok then Some(UpdateFailed) else out.error, out.sent;
  }

  method CheckManualApproval(w: World, cfg: Config, s: UserSignup) returns (needed: bool)
    ensures needed <==> NeedsManualApproval(w, cfg, s)
  {
    var checkScore := true;
    if ActivationCounter in s.annotations && cfg.allowLowScoreReactivation {
      var activations := Atoi(s.annotations[ActivationCounter]);
      if activations.None? {
        checkScore := true;
      } else {
        checkScore := activations.value == 1;
      }
    }
    return checkScore && CaptchaScore in s.annotations && w.scoreTooLow(s.annotations[CaptchaScore]);
  }

  method VerifyPhoneCode(w: World, cfg: Config, host: Host, username: string, code: string, now: int, f: Faults)
    returns (error: Option<Error>)
    requires w.Lawful()
    modifies host`signups
    ensures var name := w.encodeUsername(username);
            var stored := ObjectAt(old(host.signups), name);
            if f.getFails then error == Some(SignupUnreadable) && host.signups == old(host.signups)
            else if stored.None? then error == Some(SignupNotFound) && host.signups == old(host.signups)
            else
              var verdict := Verdict(w, if f.bannedListFails then None else Some(host.banned),
                                     if f.signupListFails then None else Some(old(host.signups)),
                                     username, stored.value.Label(PhoneHash));
              var out := PhoneDecision(w, cfg, stored.value, PhoneInputs(code, now, verdict));
              var (after, answer) := Settled(w, stored, out, f.env);
              host.signups == WithObject(old(host.signups), name, after) && error == answer
  {
    var name := w.encodeUsername(username);
    if f.getFails {
      return Some(SignupUnreadable);
    }
    if name !in host.signups {
      return Some(SignupNotFound);
    }
    var signup := host.signups[name];
    assert host.signups == WithObject(host.signups, name, Some(signup));
    var manual := CheckManualApproval(w, cfg, signup);
    if manual {
      return Some(ManualApprovalRequired);
    }
    var annotationValues: map<AnnotationKey, string> := map[];
    var annotationsToDelete: set<AnnotationKey> := {};
    var unsetVerificationRequired := false;
    var inUse :=
      PhoneNumberAlreadyInUse(w, host, username, signup.Label(PhoneHash), f.bannedListFails, f.signupListFails);
    if inUse != PhoneFree {
      return Some(PhoneInUse);
    }
    ghost var inp := PhoneInputs(code, now, inUse);
    var verificationErr: Option<Error> := None;
    var attemptsMade;
    var parsed := Atoi(signup.Annotation(Attempts));
    if parsed.None? {
      attemptsMade := cfg.attemptsAllowed;
      annotationValues := annotationValues[Attempts := Itoa(attemptsMade)];
    } else {
      attemptsMade := parsed.value;
    }
    if attemptsMade >= cfg.attemptsAllowed {
      verificationErr := Some(TooManyAttempts);
    }
    if verificationErr.None? {
      var exp := w.parseTime(signup.Annotation(Expiry));
      if exp.None? {
        verificationErr := Some(ExpiryUnreadable);
      } else if now > exp.value {
        verificationErr := Some(CodeExpired);
      }
    }
    if verificationErr.None? {
      if code != signup.Annotation(Code) {
        attemptsMade := attemptsMade + 1;
        annotationValues := annotationValues[Attempts := Itoa(attemptsMade)];
        verificationErr := Some(CodeInvalid);
      }
    }
    if verificationErr.None? {
      unsetVerificationRequired := true;
      annotationsToDelete := annotationsToDelete + {Code};
      annotationsToDelete := annotationsToDelete + {Attempts};
      annotationsToDelete := annotationsToDelete + {SendCounter};
      annotationsToDelete := annotationsToDelete + {InitTimestamp};
      annotationsToDelete := annotationsToDelete + {Expiry};
    }
    var write := Write(map[], annotationValues, annotationsToDelete, false, unsetVerificationRequired);
    assert verificationErr == PhoneProblem(w, cfg, signup, inp);
    assert verificationErr.None? ==> annotationsToDelete == CODE_ANNOTATIONS;
    assert verificationErr != Some(CodeInvalid) ==> annotationValues == RepairedAttempts(cfg, signup);
    assert PhoneDecision(w, cfg, signup, inp) == Outcome(Some(write), verificationErr, None);
    var ok, _ := PollUpdateSignup(host, name, w, Overlay(write), NO_LOCALS, f.env);
    return if !ok then Some(UpdateFailed) else verificationErr;
  }

  /** The signup request of a user who comes with an activation code; an empty one is none. */
  function WithCode(request: SignupService.Request, code: string, event: Result<SocialEvent, Error>)
    : SignupService.Request
  {
    request.(event := if code == "" then None else Some(event))
  }

  /** The answer to an activation code: the last complaint about the code, or a failed write. */
  function ActivationAnswer(t: Tried): Option<Error> {
    if t.locals.errToReturn.Some? then t.locals.errToReturn
    else if t.failed then Some(UpdateFailed)
    else None
  }

  /** For a user without a UserSignup the code is a signup with the event behind it, `event`; `againFails`
      says whether the signup's own read of the UserSignup fails. */
  method VerifyActivationCode(w: World, cfg: Config, host: Host, username: string, code: string, f: Faults,
                              request: SignupService.Request, event: Result<SocialEvent, Error>,
                              againFails: bool, createFails: bool)
    returns (error: Option<Error>)
    requires w.Lawful() && request.claims.preferredUsername == username
    modifies host`signups
    ensures var name := w.encodeUsername(username);
            var stored := ObjectAt(old(host.signups), name);
            if f.getFails then error == Some(SignupUnreadable) && host.signups == old(host.signups)
            else if stored.None? && againFails then
              error == Some(SignupUnreadable) && host.signups == old(host.signups)
            else if stored.None? then
              var (after, reply) := SignupService.SignupOutcome(
                w, if f.bannedListFails then None else Some(host.banned), None, WithCode(request, code, event),
                createFails);
              host.signups == WithObject(old(host.signups), name, after)
              && error == if reply.Refusal? then Some(reply.error) else None
            else
              var attempts := CheckedAttempts(cfg, stored.value);
              if attempts.Err? then error == Some(attempts.error) && host.signups == old(host.signups)
              else
                var t := Polled(w, Activation, stored, Locals(attempts.value, None, None), f.env, 0);
                host.signups == WithObject(old(host.signups), name, t.stored) && error == ActivationAnswer(t)
  {
    var name := w.encodeUsername(username);
    if f.getFails {
      return Some(SignupUnreadable);
    }
    if name !in host.signups {
      var reply :=
        SignupService.Signup(w, host, WithCode(request, code, event), againFails, f.bannedListFails, createFails);
      return if reply.Refusal? then Some(reply.error) else None;
    }
    var attemptsMade := CheckedAttempts(cfg, host.signups[name]);
    if attemptsMade.Err? {
      return Some(attemptsMade.error);
    }
    var ok, after := PollUpdateSignup(host, name, w, Activation, Locals(attemptsMade.value, None, None), f.env);
    error := after.errToReturn;
    if !ok && error.None? {
      error := Some(UpdateFailed);
    }
  }

  /** A code is answered with success exactly when a try wrote and no try found the code invalid. So the
      answer is an error although the event was applied exactly when the try that wrote found the code
      valid and an earlier one had not: its complaint outlives it. And the code is answered as invalid with
      nothing recorded exactly when a try found it invalid and no try wrote. The complaint is that of the
      last try that found it invalid. */
  lemma {:induction false} AnswerAndEffect(w: World, s: UserSignup, read: int, env: nat -> Conditions)
    ensures var t := Polled(w, Activation, Some(s), Locals(read, None, None), env, 0);
            && (ActivationAnswer(t).None? <==> EndsAt(env, 0).Some? && InvalidTries(env, 0) == 0)
            && (ActivationAnswer(t).Some? && !t.failed && Attempts !in t.stored.value.annotations <==>
                  && EndsAt(env, 0).Some? && env(EndsAt(env, 0).value).event.Ok? && InvalidTries(env, 0) > 0)
            && (t.failed && t.locals.errToReturn.Some? <==> EndsAt(env, 0).None? && InvalidTries(env, 0) > 0)
            && (t.failed && t.locals.errToReturn.Some? ==>
                  t.stored == Some(s) && ActivationAnswer(t) == t.locals.errToReturn)
            && (t.failed && t.locals.errToReturn.None? ==> ActivationAnswer(t) == Some(UpdateFailed))
            && (InvalidTries(env, 0) > 0 ==>
                  exists i :: LastInvalid(env, 0, i) && ActivationAnswer(t) == Some(env(i).event.error))
  {
    ActivationIsCounted(w, s, Locals(read, None, None), env, 0);
    AnswerIsTheLastComplaint(w, s, Locals(read, None, None), env, 0);
    if EndsAt(env, 0).Some? {
      ResultAttempts(w, s, read + InvalidTries(env, 0), env(EndsAt(env, 0).value));
    }
  }
}
