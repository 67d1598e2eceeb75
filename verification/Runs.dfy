/** Runs of the service for one user, from before the UserSignup exists on: one call at a time, with what
    other controllers write in between, and the log of what happened. */
module Runs {
  import opened Text
  import opened Decimal
  import opened UserSignups
  import opened SocialEvents
  import opened Verification
  import opened Audit
  import opened PollUpdate
  import opened VerificationService
  import SignupService

  /** What the activation call needs of a user without a UserSignup: it becomes a signup. */
  datatype FirstContact = FirstContact(request: SignupService.Request, code: string, event: Result<SocialEvent, Error>,
                                       banned: Option<seq<BannedUser>>, writeFails: bool)

  /** A step and the time it happens at. `OthersWrite` is any change by another controller: it leaves
      alone the verification annotations, the two hash labels, the claims, and the two flags that ask
      for verification and reject. */
  datatype Step =
    | InitCall(init: InitInputs, env: nat -> Conditions)
    | PhoneCall(phone: PhoneInputs, env: nat -> Conditions)
    | ActivationCall(at: int, env: nat -> Conditions, first: FirstContact)
    | AuditCall(at: int, token: Claims, env: nat -> Conditions)
    | SignupCall(at: int, request: SignupService.Request, banned: Option<seq<BannedUser>>, writeFails: bool)
    | OthersWrite(at: int, change: UserSignup)
  {
    function Time(): int {
      match this
      case InitCall(init, _) => init.now
      case PhoneCall(phone, _) => phone.now
      case ActivationCall(at, _, _) => at
      case AuditCall(at, _, _) => at
      case SignupCall(at, _, _, _) => at
      case OthersWrite(at, _) => at
    }
  }

  /** `Sent`: a message went out and was recorded. `Unrecorded`: it went out and the write failed.
      `NumberNoted`: no message counts, but the call wrote its number's hash. `WrongAnswer`: a wrong phone
      or activation code was recorded. `UncountedGuess`: a wrong activation code was answered as such with
      nothing recorded, as there is no UserSignup or none of the tries could write. */
  datatype Kind =
    | Sent(code: string, phone: string)
    | Unrecorded(code: string)
    | NumberNoted(phone: string)
    | WrongAnswer
    | UncountedGuess
    | PhoneAccepted(code: string)
    | ActivationAccepted
    | Creation
    | Reactivation
    | Quiet

  /** What a step did, and the timestamp of the send window afterwards. */
  datatype Event = Event(time: int, window: Option<int>, kind: Kind)

  datatype State = State(signup: Option<UserSignup>, log: seq<Event>)

  // ----- one step -----

  /** What a write leaves behind after the retry loop, if one of the tries works. */
  function Written(s: UserSignup, write: Option<Write>, env: nat -> Conditions): UserSignup {
    if write.Some? && EndsAt(env, 0).Some? then Applied(write.value, s) else s
  }

  function AfterInit(w: World, cfg: Config, s: UserSignup, inp: InitInputs, env: nat -> Conditions)
    : (UserSignup, Kind)
  {
    var out := InitDecision(w, cfg, s, inp);
    (Written(s, out.write, env),
     if out.write.Some? && EndsAt(env, 0).Some?
     then (if out.sent.Some? then Sent(out.sent.value, inp.phone) else NumberNoted(inp.phone))
     else if out.sent.Some? then Unrecorded(out.sent.value) else Quiet)
  }

  function AfterPhone(w: World, cfg: Config, s: UserSignup, inp: PhoneInputs, env: nat -> Conditions)
    : (UserSignup, Kind)
  {
    var out := PhoneDecision(w, cfg, s, inp);
    (Written(s, out.write, env),
     if out.write.None? || EndsAt(env, 0).None? then Quiet
     else if out.error.None? then PhoneAccepted(inp.code)
     else if out.error.value == CodeInvalid then WrongAnswer
     else Quiet)
  }

  /** A code that no try could write anything for is answered as wrong if a try found it invalid. */
  function AfterActivation(w: World, cfg: Config, s: UserSignup, env: nat -> Conditions): (UserSignup, Kind) {
    var attempts := CheckedAttempts(cfg, s);
    var end := EndsAt(env, 0);
    if attempts.Err? then (s, Quiet)
    else if end.None? then (s, if InvalidTries(env, 0) > 0 then UncountedGuess else Quiet)
    else
      (ActivationResult(w, s, attempts.value + InvalidTries(env, 0), env(end.value)),
       if env(end.value).event.Err? then WrongAnswer else ActivationAccepted)
  }

  /** What is stored without a write is up to date already, or stays out of date. */
  function AfterAudit(w: World, s: UserSignup, token: Claims, env: nat -> Conditions): UserSignup {
    if EndsAt(env, 0).Some? then Audited(w, token, s) else s
  }

  predicate Reactivates(w: World, s: UserSignup, step: Step)
    requires step.SignupCall?
  {
    && Rejected !in s.flags && s.status.deactivated && !step.writeFails
    && SignupService.NewUserSignup(w, step.banned, step.request).Ok?
  }

  function AfterSignup(w: World, s: UserSignup, step: Step): (UserSignup, Kind)
    requires step.SignupCall?
  {
    (SignupService.SignupOutcome(w, step.banned, Some(s), step.request, step.writeFails).0.GetOr(s),
     if Reactivates(w, s, step) then Reactivation else Quiet)
  }

  const OWN_FLAGS: set<Flag> := {VerificationRequired, Rejected}
  const OWN_LABELS: set<LabelKey> := {EmailHash, PhoneHash}

  function AfterOthers(s: UserSignup, change: UserSignup): UserSignup {
    UserSignup(
      (map k | k in change.labels && k !in OWN_LABELS :: change.labels[k])
      + (map k | k in s.labels && k in OWN_LABELS :: s.labels[k]),
      (map k | k in change.annotations && k !in CODE_ANNOTATIONS :: change.annotations[k])
      + (map k | k in s.annotations && k in CODE_ANNOTATIONS :: s.annotations[k]),
      (change.flags - OWN_FLAGS) + (s.flags * OWN_FLAGS),
      change.targetCluster, s.claims, change.status)
  }

  /** What a step does to a UserSignup that exists. */
  function After(w: World, cfg: Config, s: UserSignup, step: Step): (UserSignup, Kind) {
    match step
    case InitCall(init, env) => AfterInit(w, cfg, s, init, env)
    case PhoneCall(phone, env) => AfterPhone(w, cfg, s, phone, env)
    case ActivationCall(_, env, _) => AfterActivation(w, cfg, s, env)
    case AuditCall(_, token, env) => (AfterAudit(w, s, token, env), Quiet)
    case SignupCall(_, _, _, _) => AfterSignup(w, s, step)
    case OthersWrite(_, change) => (AfterOthers(s, change), Quiet)
  }

  function Window(w: World, s: UserSignup): Option<int> {
    w.parseTime(s.Annotation(InitTimestamp))
  }

  /** A signup request of a user without a UserSignup. The code is looked up once nothing else is in the way. */
  function Created(w: World, banned: Option<seq<BannedUser>>, r: SignupService.Request, writeFails: bool)
    : (Option<UserSignup>, Kind)
  {
    var (s, reply) := SignupService.SignupOutcome(w, banned, None, r, writeFails);
    (s, if s.Some? then Creation
        else if SignupService.MaySignUp(w, banned, r) && r.event.Some? && r.event.value.Err? then UncountedGuess
        else Quiet)
  }

  /** What a step does while there is no UserSignup. */
  function AfterAbsent(w: World, step: Step): (Option<UserSignup>, Kind) {
    match step
    case ActivationCall(_, _, first) =>
      Created(w, first.banned, WithCode(first.request, first.code, first.event), first.writeFails)
    case SignupCall(_, request, banned, writeFails) => Created(w, banned, request, writeFails)
    case _ => (None, Quiet)
  }

  // ----- the steps are the calls -----

  /** A call for a code leaves behind what the decided write does in the retry loop, and is logged by what
      it sent and answered. */
  lemma InitStepIsTheCall(w: World, cfg: Config, s: UserSignup, inp: InitInputs, env: nat -> Conditions)
    ensures var out := InitDecision(w, cfg, s, inp);
            var (after, answer) := Settled(w, Some(s), out, env);
            var (t, kind) := AfterInit(w, cfg, s, inp, env);
            && after == Some(t)
            && (kind.Sent? <==> out.sent.Some? && answer.None?)
            && (kind.Unrecorded? <==> out.sent.Some? && answer.Some?)
            && (kind.Sent? || kind.Unrecorded? ==> Some(kind.code) == out.sent)
            && answer == (if out.write.Some? && EndsAt(env, 0).None? then Some(UpdateFailed) else out.error)
  {
    var out := InitDecision(w, cfg, s, inp);
    if out.write.Some? {
      OverlayIsWrittenOnce(w, out.write.value, s, NO_LOCALS, env, 0);
    }
  }

  /** The same for an answer to a phone code, logged by its answer. */
  lemma PhoneStepIsTheCall(w: World, cfg: Config, s: UserSignup, inp: PhoneInputs, env: nat -> Conditions)
    ensures var out := PhoneDecision(w, cfg, s, inp);
            var (after, answer) := Settled(w, Some(s), out, env);
            var (t, kind) := AfterPhone(w, cfg, s, inp, env);
            && after == Some(t)
            && answer == (if out.write.Some? && EndsAt(env, 0).None? then Some(UpdateFailed) else out.error)
            && (kind.PhoneAccepted? <==> answer.None?)
            && (kind.WrongAnswer? <==> answer == Some(CodeInvalid))
  {
    var out := PhoneDecision(w, cfg, s, inp);
    if out.write.Some? {
      OverlayIsWrittenOnce(w, out.write.value, s, NO_LOCALS, env, 0);
    }
  }

  /** A call with an activation code leaves behind what its closure does in the retry loop, and nothing if no
      attempts are left. It is logged as accepted or wrong by what was written, and as wrong but not
      recorded if nothing was written and the call still answers that the code is invalid. */
  lemma {:induction false} ActivationStepIsTheCall(w: World, cfg: Config, s: UserSignup, env: nat -> Conditions)
    ensures var attempts := CheckedAttempts(cfg, s);
            var (t, kind) := AfterActivation(w, cfg, s, env);
            if attempts.Err? then t == s && kind == Quiet
            else
              var tried := Polled(w, Activation, Some(s), Locals(attempts.value, None, None), env, 0);
              && tried.stored == Some(t)
              && (kind.WrongAnswer? <==> !tried.failed && Attempts in t.annotations)
              && (kind.ActivationAccepted? <==> !tried.failed && Attempts !in t.annotations)
              && (kind.UncountedGuess? <==> tried.failed && tried.locals.errToReturn.Some?)
  {
    var attempts := CheckedAttempts(cfg, s);
    if attempts.Ok? {
      ActivationIsCounted(w, s, Locals(attempts.value, None, None), env, 0);
      if EndsAt(env, 0).Some? {
        ResultAttempts(w, s, attempts.value + InvalidTries(env, 0), env(EndsAt(env, 0).value));
      }
    }
  }

  /** Reading a signup leaves behind what the audit does in the retry loop. */
  lemma {:induction false} AuditStepIsTheCall(w: World, s: UserSignup, token: Claims, env: nat -> Conditions)
    requires w.Lawful()
    ensures Polled(w, AuditClaims(token), Some(s), NO_LOCALS, env, 0).stored == Some(AfterAudit(w, s, token, env))
  {
    AuditIsWrittenOnce(w, token, s, NO_LOCALS, env, 0);
    AuditEnds(w, token, s, NO_LOCALS, env, 0);
  }

  function AfterStep(w: World, cfg: Config, s: Option<UserSignup>, step: Step): (Option<UserSignup>, Kind) {
    if s.None? then AfterAbsent(w, step)
    else var (t, kind) := After(w, cfg, s.value, step); (Some(t), kind)
  }

  function EventOf(w: World, step: Step, after: Option<UserSignup>, kind: Kind): Event {
    Event(step.Time(), if after.None? then None else Window(w, after.value), kind)
  }

  function Next(w: World, cfg: Config, st: State, step: Step): State {
    var (s, kind) := AfterStep(w, cfg, st.signup, step);
    State(s, st.log + [EventOf(w, step, s, kind)])
  }

  function Run(w: World, cfg: Config, start: Option<UserSignup>, steps: seq<Step>): (st: State)
    ensures |st.log| == |steps|
  {
    if steps == [] then State(start, [])
    else Next(w, cfg, Run(w, cfg, start, steps[..|steps| - 1]), steps[|steps| - 1])
  }

  /** The clock does not run backwards. */
  predicate Clocked(steps: seq<Step>) {
    forall i, j :: 0 <= i < j < |steps| ==> steps[i].Time() <= steps[j].Time()
  }

  /** The log of a run up to a point is the log of the run that stops there. */
  lemma {:induction false} LogOfPrefix(w: World, cfg: Config, start: Option<UserSignup>, steps: seq<Step>, n: nat)
    requires n <= |steps|
    ensures Run(w, cfg, start, steps[..n]).log == Run(w, cfg, start, steps).log[..n]
  {
    if n == |steps| {
      assert steps[..n] == steps;
    } else {
      var front := steps[..|steps| - 1];
      LogOfPrefix(w, cfg, start, front, n);
      assert front[..n] == steps[..n];
    }
  }

  /** The log entry of a step is what the step does to the state the steps before it lead to. */
  lemma {:induction false} EventOfStep(w: World, cfg: Config, start: Option<UserSignup>, steps: seq<Step>, i: nat)
    requires i < |steps|
    ensures var st := Run(w, cfg, start, steps[..i]);
            var (s, kind) := AfterStep(w, cfg, st.signup, steps[i]);
            && st.log == Run(w, cfg, start, steps).log[..i]
            && Run(w, cfg, start, steps).log[i] == EventOf(w, steps[i], s, kind)
            && Run(w, cfg, start, steps[..i + 1]).signup == s
  {
    LogOfPrefix(w, cfg, start, steps, i);
    LogOfPrefix(w, cfg, start, steps, i + 1);
    assert steps[..i + 1][..i] == steps[..i];
    assert Run(w, cfg, start, steps).log[i] == Run(w, cfg, start, steps[..i + 1]).log[i];
  }

  /** Once there is a UserSignup there is one for good. */
  lemma {:induction false} SignupStays(w: World, cfg: Config, start: Option<UserSignup>, steps: seq<Step>)
    ensures start.Some? ==> Run(w, cfg, start, steps).signup.Some?
  {
    if steps != [] {
      SignupStays(w, cfg, start, steps[..|steps| - 1]);
    }
  }

  // ----- what a step does to the verification annotations -----

  predicate SameKeys(s: UserSignup, t: UserSignup, keys: set<AnnotationKey>) {
    forall k :: k in keys ==> s.SameAnnotation(t, k)
  }

  lemma LookupKeepsCodeAnnotations(w: World, cfg: Config, s: UserSignup, phone: string, reply: LookupReply)
    ensures PhoneLookup(w, cfg, s, phone, reply).annotations.Keys <= {CarrierRisk, NumberBlocked, LookupDetails}
  {
  }

  predicate CounterUnreadable(s: UserSignup) {
    s.Annotation(SendCounter) != "" && Atoi(s.Annotation(SendCounter)).None?
  }

  lemma WindowWrites(w: World, cfg: Config, s: UserSignup, now: int)
    ensures var a := WindowAnnotations(w, cfg, s, now);
            && a.Keys <= {InitTimestamp, SendCounter}
            && (InitTimestamp in a <==> WindowOver(w, s, now))
            && (InitTimestamp in a ==>
                  a[InitTimestamp] == w.formatTime(now) && SendCounter in a && a[SendCounter] == "0")
            && (SendCounter in a ==> WindowOver(w, s, now) || CounterUnreadable(s))
  {
  }

  /** The annotations of a write that records no message. */
  predicate QuietWrite(w: World, s: UserSignup, a: map<AnnotationKey, string>, now: int) {
    && Attempts !in a && Code !in a && Expiry !in a
    && (InitTimestamp in a <==> WindowOver(w, s, now))
    && (InitTimestamp in a ==> a[InitTimestamp] == w.formatTime(now) && SendCounter in a && a[SendCounter] == "0")
    && (SendCounter in a ==> WindowOver(w, s, now) || CounterUnreadable(s))
  }

  /** The annotations of a write that records a message. */
  predicate MessageWrite(w: World, cfg: Config, s: UserSignup, a: map<AnnotationKey, string>, code: string, now: int) {
    && (InitTimestamp in a <==> WindowOver(w, s, now))
    && (InitTimestamp in a ==> a[InitTimestamp] == w.formatTime(now))
    && SendCounter in a && a[SendCounter] == Itoa(SendsSoFar(w, cfg, s, now) + 1)
    && Attempts in a && a[Attempts] == "0"
    && Code in a && a[Code] == code
    && Expiry in a && a[Expiry] == w.formatTime(now + cfg.codeExpiresInMin * MINUTE)
  }

  lemma LookupOnTop(w: World, cfg: Config, s: UserSignup, inp: InitInputs)
    ensures QuietWrite(w, s, WindowAnnotations(w, cfg, s, inp.now), inp.now)
    ensures QuietWrite(w, s, WindowAnnotations(w, cfg, s, inp.now)
                             + PhoneLookup(w, cfg, s, inp.phone, inp.lookup).annotations, inp.now)
  {
    LookupKeepsCodeAnnotations(w, cfg, s, inp.phone, inp.lookup);
    WindowWrites(w, cfg, s, inp.now);
  }

  lemma MessageOnTop(w: World, cfg: Config, s: UserSignup, a: map<AnnotationKey, string>, code: string, now: int)
    requires QuietWrite(w, s, a, now)
    ensures MessageWrite(w, cfg, s, a + SentAnnotations(w, cfg, SendsSoFar(w, cfg, s, now), code, now), code, now)
  {
  }

  /** What a call for a code asks to have written. */
  lemma InitWrites(w: World, cfg: Config, s: UserSignup, inp: InitInputs)
    ensures var out := InitDecision(w, cfg, s, inp);
            && (VerificationRequired !in s.flags || Rejected in s.flags ==> out.write.None?)
            && (out.write.None? ==> out.sent.None?)
            && (out.write.Some? ==>
                  var a := out.write.value.annotations;
                  && out.write.value.deletions == {} && !out.write.value.unsetVerificationRequired
                  && (if out.sent.Some? then
                        && out.error.None? && SendsSoFar(w, cfg, s, inp.now) < cfg.dailyLimit
                        && MessageWrite(w, cfg, s, a, out.sent.value, inp.now)
                      else out.error.Some? && QuietWrite(w, s, a, inp.now)))
  {
    LookupOnTop(w, cfg, s, inp);
    if inp.code.Some? {
      MessageOnTop(w, cfg, s, WindowAnnotations(w, cfg, s, inp.now)
                              + PhoneLookup(w, cfg, s, inp.phone, inp.lookup).annotations, inp.code.value, inp.now);
    }
  }

  /** The window annotations as they were, or those of a new window without a message, or a repaired counter. */
  predicate QuietWindow(w: World, s: UserSignup, t: UserSignup, now: int) {
    || SameKeys(t, s, {SendCounter, InitTimestamp})
    || (&& WindowOver(w, s, now)
        && t.Annotation(SendCounter) == "0" && t.Annotation(InitTimestamp) == w.formatTime(now))
    || (CounterUnreadable(s) && t.SameAnnotation(s, InitTimestamp))
  }

  /** A recorded message is counted in the current or a new window, with its code and expiry and no attempts. */
  predicate RecordedMessage(w: World, cfg: Config, s: UserSignup, t: UserSignup, code: string, now: int) {
    && SendsSoFar(w, cfg, s, now) < cfg.dailyLimit
    && t.Annotation(SendCounter) == Itoa(SendsSoFar(w, cfg, s, now) + 1)
    && Attempts in t.annotations && t.Annotation(Attempts) == "0"
    && Code in t.annotations && t.Annotation(Code) == code
    && Expiry in t.annotations && t.Annotation(Expiry) == w.formatTime(now + cfg.codeExpiresInMin * MINUTE)
    && (if WindowOver(w, s, now) then t.Annotation(InitTimestamp) == w.formatTime(now)
        else t.SameAnnotation(s, InitTimestamp))
  }

  /** What the write of a call for a code makes of the UserSignup it was decided on. */
  lemma InitWriteEffect(w: World, cfg: Config, s: UserSignup, inp: InitInputs)
    requires InitDecision(w, cfg, s, inp).write.Some?
    ensures var out := InitDecision(w, cfg, s, inp);
            var t := Applied(out.write.value, s);
            && PhoneHash in t.labels && t.labels[PhoneHash] == w.hash(inp.phone)
            && (if out.sent.Some? then RecordedMessage(w, cfg, s, t, out.sent.value, inp.now)
                else SameKeys(t, s, {Attempts, Code, Expiry}) && QuietWindow(w, s, t, inp.now))
  {
    InitWrites(w, cfg, s, inp);
    InitWriteIs(w, cfg, s, inp);
    AppliedInitWrite(w, cfg, s, InitDecision(w, cfg, s, inp).write.value);
  }

  lemma InitFlags(w: World, cfg: Config, s: UserSignup, inp: InitInputs)
    ensures var out := InitDecision(w, cfg, s, inp);
            && (Rejected in s.flags || VerificationRequired !in s.flags ==> out.write.None? && out.sent.None?)
            && (out.write.None? ==> out.sent.None?)
            && (out.write.Some? ==>
                  var t := Applied(out.write.value, s);
                  && (VerificationRequired in t.flags <==> VerificationRequired in s.flags)
                  && (Rejected in s.flags ==> Rejected in t.flags))
  {
    InitWrites(w, cfg, s, inp);
  }

  /** A call for a code writes nothing, or it writes its number's hash and records a message, or it writes
      the hash, sends none that counts, and opens at most a new window. */
  lemma InitEffect(w: World, cfg: Config, s: UserSignup, inp: InitInputs, env: nat -> Conditions)
    ensures var (t, kind) := AfterInit(w, cfg, s, inp, env);
            && (kind.Sent? || kind.Unrecorded? || kind.NumberNoted? || kind.Quiet?)
            && (kind.Unrecorded? || kind.Quiet? ==> t == s)
            && (kind.Sent? || kind.NumberNoted? ==>
                  kind.phone == inp.phone && PhoneHash in t.labels && t.labels[PhoneHash] == w.hash(inp.phone))
            && (VerificationRequired in t.flags <==> VerificationRequired in s.flags)
            && (Rejected in s.flags ==> Rejected in t.flags)
            && (Rejected in s.flags || VerificationRequired !in s.flags ==> kind == Quiet)
            && (kind.Sent? ==> RecordedMessage(w, cfg, s, t, kind.code, inp.now))
            && (!kind.Sent? ==> SameKeys(t, s, {Attempts, Code, Expiry}) && QuietWindow(w, s, t, inp.now))
  {
    InitFlags(w, cfg, s, inp);
    if InitDecision(w, cfg, s, inp).write.Some? {
      InitWriteEffect(w, cfg, s, inp);
    }
  }

  lemma AppliedInitWrite(w: World, cfg: Config, s: UserSignup, write: Write)
    requires write.deletions == {} && !write.unsetVerificationRequired
    ensures var t := Applied(write, s);
            && (VerificationRequired in t.flags <==> VerificationRequired in s.flags)
            && (forall k :: k in write.annotations ==> k in t.annotations && t.annotations[k] == write.annotations[k])
            && (forall k :: k !in write.annotations ==> t.SameAnnotation(s, k))
  {
  }
}
