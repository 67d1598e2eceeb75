/** What each step does to the verification annotations and to the flags that matter for them. */
module StepEffects {
  import opened Text
  import opened Decimal
  import opened UserSignups
  import opened SocialEvents
  import opened Verification
  import opened Audit
  import opened PollUpdate
  import opened VerificationService
  import opened Runs
  import SignupService

  const OTHERS_THAN_ATTEMPTS: set<AnnotationKey> := {Code, Expiry, SendCounter, InitTimestamp}

  predicate SameOwnFlags(s: UserSignup, t: UserSignup) {
    && (VerificationRequired in t.flags <==> VerificationRequired in s.flags)
    && (Rejected in t.flags <==> Rejected in s.flags)
  }

  /** The attempts annotation is untouched, or an unreadable one was set to the limit. */
  predicate AttemptsRepaired(cfg: Config, s: UserSignup, t: UserSignup) {
    || t.SameAnnotation(s, Attempts)
    || (&& Atoi(s.Annotation(Attempts)).None?
        && Attempts in t.annotations && t.Annotation(Attempts) == Itoa(cfg.attemptsAllowed))
  }

  /** No trace of a code, a window or a counter. */
  predicate Cleared(t: UserSignup) {
    && Code !in t.annotations && Attempts !in t.annotations && SendCounter !in t.annotations
    && InitTimestamp !in t.annotations && Expiry !in t.annotations
  }

  lemma AppliedAcceptance(s: UserSignup)
    ensures var t := Applied(Write(map[], map[], CODE_ANNOTATIONS, false, true), s);
            && t.labels == s.labels && Cleared(t) && VerificationRequired !in t.flags
            && (Rejected in t.flags <==> Rejected in s.flags)
  {
  }

  lemma AppliedAttempts(s: UserSignup, a: map<AnnotationKey, string>)
    requires a.Keys <= {Attempts}
    ensures var t := Applied(Write(map[], a, {}, false, false), s);
            && t.labels == s.labels && SameOwnFlags(s, t) && SameKeys(t, s, OTHERS_THAN_ATTEMPTS)
            && (if Attempts in a then Attempts in t.annotations && t.annotations[Attempts] == a[Attempts]
                else t.SameAnnotation(s, Attempts))
  {
  }

  /** What a call with a phone code asks to have written. */
  lemma PhoneWrites(w: World, cfg: Config, s: UserSignup, inp: PhoneInputs)
    ensures var out := PhoneDecision(w, cfg, s, inp);
            && (out.write.None? ==> out.error.Some? && out.error.value != CodeInvalid)
            && (out.write.Some? && out.error.None? ==>
                  out.write.value == Write(map[], map[], CODE_ANNOTATIONS, false, true))
            && (out.write.Some? && out.error.Some? ==>
                  var a := out.write.value.annotations;
                  && out.write.value == Write(map[], a, {}, false, false)
                  && a.Keys <= {Attempts}
                  && (if out.error.value == CodeInvalid then
                        && Atoi(s.Annotation(Attempts)).Some?
                        && Atoi(s.Annotation(Attempts)).value < cfg.attemptsAllowed
                        && Attempts in a && a[Attempts] == Itoa(Atoi(s.Annotation(Attempts)).value + 1)
                      else Attempts in a ==>
                        Atoi(s.Annotation(Attempts)).None? && a[Attempts] == Itoa(cfg.attemptsAllowed)))
  {
  }

  lemma PhoneEffect(w: World, cfg: Config, s: UserSignup, inp: PhoneInputs, env: nat -> Conditions)
    ensures var (t, kind) := AfterPhone(w, cfg, s, inp, env);
            && (kind.PhoneAccepted? || kind.WrongAnswer? || kind.Quiet?) && t.labels == s.labels
            && (Rejected in t.flags <==> Rejected in s.flags)
            && (kind.PhoneAccepted? ==>
                  && kind.code == inp.code == s.Annotation(Code)
                  && w.parseTime(s.Annotation(Expiry)).Some? && inp.now <= w.parseTime(s.Annotation(Expiry)).value
                  && Cleared(t) && VerificationRequired !in t.flags)
            && (!kind.PhoneAccepted? ==> SameOwnFlags(s, t) && SameKeys(t, s, OTHERS_THAN_ATTEMPTS))
            && (kind.WrongAnswer? ==>
                  && Atoi(s.Annotation(Attempts)).Some? && Atoi(s.Annotation(Attempts)).value < cfg.attemptsAllowed
                  && Attempts in t.annotations
                  && t.Annotation(Attempts) == Itoa(Atoi(s.Annotation(Attempts)).value + 1))
            && (kind.Quiet? ==> AttemptsRepaired(cfg, s, t))
  {
    PhoneWrites(w, cfg, s, inp);
    var out := PhoneDecision(w, cfg, s, inp);
    if out.write.Some? {
      if out.error.None? {
        AcceptsExactlyWhen(w, cfg, s, inp);
        AppliedAcceptance(s);
      } else {
        AppliedAttempts(s, out.write.value.annotations);
      }
    }
  }

  /** What an activation code leaves alone, whether it approves the user or not. */
  predicate ActivationFrame(w: World, s: UserSignup, t: UserSignup, approved: bool) {
    && SameKeys(t, s, OTHERS_THAN_ATTEMPTS) && t.SameLabel(s, PhoneHash)
    && (VerificationRequired in t.flags ==> VerificationRequired in s.flags)
    && (Rejected in t.flags ==> Rejected in s.flags)
    && (Rejected in s.flags && (Rejected !in w.clearedByApproval || !approved) ==> Rejected in t.flags)
  }

  lemma RecordedAttempt(w: World, s: UserSignup, made: int)
    ensures var t := WithAttempts(s, made);
            ActivationFrame(w, s, t, false) && Attempts in t.annotations && t.Annotation(Attempts) == Itoa(made)
  {
  }

  lemma AppliedEvent(w: World, s: UserSignup, event: SocialEvent)
    requires w.Lawful()
    ensures var t := WithoutAttempts(WithSocialEvent(w, event, s));
            ActivationFrame(w, s, t, true) && Attempts !in t.annotations
  {
    SocialEventEffect(w, event, s);
  }

  lemma ResultFrame(w: World, s: UserSignup, made: int, ending: Conditions)
    requires w.Lawful()
    ensures var t := ActivationResult(w, s, made, ending);
            && ActivationFrame(w, s, t, ending.event.Ok?)
            && (if ending.event.Err? then Attempts in t.annotations && t.Annotation(Attempts) == Itoa(made)
                else Attempts !in t.annotations)
  {
    if ending.event.Err? {
      RecordedAttempt(w, s, made);
    } else {
      AppliedEvent(w, s, ending.event.value);
    }
  }

  /** An activation code touches none of the other verification annotations. It is approved, or it is
      recorded as wrong with as many attempts as tries found it invalid, or nothing is written: it is then
      answered as wrong exactly if a try found it invalid. */
  lemma ActivationEffect(w: World, cfg: Config, s: UserSignup, env: nat -> Conditions)
    requires w.Lawful()
    ensures var (t, kind) := AfterActivation(w, cfg, s, env);
            && (kind.ActivationAccepted? || kind.WrongAnswer? || kind.UncountedGuess? || kind.Quiet?)
            && (kind.UncountedGuess? || kind.Quiet? ==> t == s)
            && (kind.UncountedGuess? ==> EndsAt(env, 0).None? && InvalidTries(env, 0) > 0)
            && ActivationFrame(w, s, t, kind.ActivationAccepted?)
            && (kind.ActivationAccepted? ==> Attempts !in t.annotations)
            && (kind.WrongAnswer? ==>
                  && CheckedAttempts(cfg, s).Ok? && InvalidTries(env, 0) >= 1 && Attempts in t.annotations
                  && t.Annotation(Attempts) == Itoa(CheckedAttempts(cfg, s).value + InvalidTries(env, 0)))
  {
    var attempts := CheckedAttempts(cfg, s);
    var end := EndsAt(env, 0);
    if attempts.Ok? && end.Some? {
      ResultFrame(w, s, attempts.value + InvalidTries(env, 0), env(end.value));
      if env(end.value).event.Err? {
        EndingTryCounts(env, 0);
      }
    }
  }

  lemma AuditEffect(w: World, s: UserSignup, token: Claims, env: nat -> Conditions)
    requires w.Lawful()
    ensures var t := AfterAudit(w, s, token, env);
            && t.annotations == s.annotations && t.flags == s.flags && t.SameLabel(s, PhoneHash)
            && (EmailHashMatches(w, s) ==> EmailHashMatches(w, t))
  {
    AuditLeavesTheRest(w, token, s);
  }

  lemma ReactivatedIsUnused(w: World, s: UserSignup, r: SignupService.Request)
    ensures var t := SignupService.Reactivated(s, SignupService.FreshSignup(w, r));
            && SignupService.Unused(t) && EmailHashMatches(w, t) && PhoneHash !in t.labels
            && t.SameAnnotation(s, ActivationCounter) && t.SameAnnotation(s, LastTargetCluster)
  {
    SignupService.FreshSignupShape(w, r);
    SignupService.ReactivationKeepsHistory(w, s, r);
  }

  /** A signup reactivates exactly a deactivated user who was not rejected, may sign up with the code
      given, and whose write succeeds; the result is unused but for its history. */
  lemma SignupEffect(w: World, s: UserSignup, step: Step)
    requires step.SignupCall?
    ensures var (t, kind) := AfterSignup(w, s, step);
            && (kind.Reactivation? || kind.Quiet?)
            && (kind.Quiet? ==> t == s)
            && (kind.Reactivation? <==>
                  && s.status.deactivated && Rejected !in s.flags && !step.writeFails
                  && SignupService.MaySignUp(w, step.banned, step.request)
                  && (step.request.event.Some? ==> step.request.event.value.Ok?))
            && (kind.Reactivation? ==> SignupService.Unused(t) && EmailHashMatches(w, t) && PhoneHash !in t.labels)
            && t.SameAnnotation(s, ActivationCounter) && t.SameAnnotation(s, LastTargetCluster)
  {
    ReactivatedIsUnused(w, s, step.request);
  }

  /** Before there is a UserSignup a step creates an unused one, or answers a wrong code, or does nothing. */
  lemma AbsentEffect(w: World, step: Step)
    ensures var (t, kind) := AfterAbsent(w, step);
            && (t.None? ==> kind.UncountedGuess? || kind.Quiet?)
            && (t.Some? ==> kind.Creation? && SignupService.Unused(t.value) && EmailHashMatches(w, t.value)
                            && PhoneHash !in t.value.labels && SignupService.NoHistory(t.value.annotations))
  {
    match step {
      case ActivationCall(_, _, first) =>
        SignupService.FreshSignupShape(w, WithCode(first.request, first.code, first.event));
      case SignupCall(_, request, _, _) => SignupService.FreshSignupShape(w, request);
      case _ =>
    }
  }

  /** An activation code of a user without a UserSignup creates one exactly if nothing stands in the way of a
      signup and a code, if there is one, leads to a usable event; it is answered as wrong, with nothing
      stored, exactly if the code alone stands in the way. */
  lemma AbsentCodeExactly(w: World, step: Step)
    requires step.ActivationCall?
    ensures var (t, kind) := AfterAbsent(w, step);
            var r := step.first.request;
            var mayCome := && !SignupService.IsCrtAdmin(r.claims.preferredUsername) && step.first.banned.Some?
                           && !SignupService.OnTheList(w, step.first.banned.value, r.claims.email);
            && (t.Some? <==> mayCome && (step.first.code == "" || step.first.event.Ok?) && !step.first.writeFails)
            && (t.Some? <==> kind.Creation?)
            && (kind.UncountedGuess? <==> mayCome && step.first.code != "" && step.first.event.Err?)
            && (t.Some? && step.first.code != "" ==> t.value.Label(SocialEventName) == step.first.event.value.name)
            && (t.Some? && step.first.code == "" ==> SocialEventName !in t.value.labels)
  {
    if step.first.banned.Some? {
      SignupService.BannedExactly(w, step.first.banned.value, step.first.request.claims.email);
    }
  }

  /** A run starts with no UserSignup, or with one that is unused. */
  predicate Startable(start: Option<UserSignup>) {
    start.Some? ==> SignupService.Unused(start.value)
  }

  /** What can have been logged before there is a UserSignup. */
  predicate BeforeCreation(log: seq<Event>) {
    forall i :: 0 <= i < |log| ==> log[i].window.None? && (log[i].kind.UncountedGuess? || log[i].kind.Quiet?)
  }

  lemma {:induction false} AbsentRun(w: World, cfg: Config, start: Option<UserSignup>, steps: seq<Step>)
    ensures var st := Run(w, cfg, start, steps); st.signup.None? ==> BeforeCreation(st.log)
  {
    if steps != [] {
      AbsentRun(w, cfg, start, steps[..|steps| - 1]);
      AbsentEffect(w, steps[|steps| - 1]);
    }
  }

  lemma OthersEffect(s: UserSignup, change: UserSignup)
    ensures var t := AfterOthers(s, change);
            && SameKeys(t, s, CODE_ANNOTATIONS) && SameOwnFlags(s, t)
            && t.SameLabel(s, EmailHash) && t.SameLabel(s, PhoneHash) && t.claims == s.claims
  {
  }
}
