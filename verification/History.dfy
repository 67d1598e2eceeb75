/** What a UserSignup carries through every run: the hash of its email, its history, and its rejection. */
module History {
  import opened Text
  import opened UserSignups
  import opened SocialEvents
  import opened Verification
  import opened Audit
  import opened PollUpdate
  import opened Runs
  import opened StepEffects
  import SignupService

  function HistoryOf(s: UserSignup, key: AnnotationKey): Option<string> {
    At(s.annotations, key)
  }

  /** Claims, email-hash label and retained annotations are the same in both. */
  predicate SameRecord(s: UserSignup, t: UserSignup) {
    && t.claims == s.claims && t.SameLabel(s, EmailHash)
    && (forall key :: key in SignupService.RETAINED ==> HistoryOf(t, key) == HistoryOf(s, key))
  }

  predicate LeavesRecord(write: Write) {
    && EmailHash !in write.labels
    && ActivationCounter !in write.annotations && ActivationCounter !in write.deletions
    && LastTargetCluster !in write.annotations && LastTargetCluster !in write.deletions
  }

  lemma AppliedLeavesRecord(write: Write, s: UserSignup)
    requires LeavesRecord(write)
    ensures SameRecord(s, Applied(write, s))
  {
  }

  lemma InitLeavesRecord(w: World, cfg: Config, s: UserSignup, inp: InitInputs)
    ensures InitDecision(w, cfg, s, inp).write.Some? ==> LeavesRecord(InitDecision(w, cfg, s, inp).write.value)
  {
    var window := WindowAnnotations(w, cfg, s, inp.now);
    var lookup := PhoneLookup(w, cfg, s, inp.phone, inp.lookup).annotations;
    WindowWrites(w, cfg, s, inp.now);
    LookupKeepsCodeAnnotations(w, cfg, s, inp.phone, inp.lookup);
    NoHistoryInSum(window, lookup);
    if inp.code.Some? {
      var sent := SentAnnotations(w, cfg, SendsSoFar(w, cfg, s, inp.now), inp.code.value, inp.now);
      NoHistoryInSum(window + lookup, sent);
    }
    if InitDecision(w, cfg, s, inp).write.Some? {
      InitWriteIs(w, cfg, s, inp);
    }
  }

  lemma NoHistoryInSum(a: map<AnnotationKey, string>, b: map<AnnotationKey, string>)
    requires SignupService.NoHistory(a) && SignupService.NoHistory(b)
    ensures SignupService.NoHistory(a + b)
  {
  }

  lemma PhoneLeavesRecord(w: World, cfg: Config, s: UserSignup, inp: PhoneInputs)
    ensures PhoneDecision(w, cfg, s, inp).write.Some? ==> LeavesRecord(PhoneDecision(w, cfg, s, inp).write.value)
  {
    PhoneWrites(w, cfg, s, inp);
  }

  lemma WrittenLeavesRecord(s: UserSignup, write: Option<Write>, env: nat -> Conditions)
    requires write.Some? ==> LeavesRecord(write.value)
    ensures SameRecord(s, Written(s, write, env))
  {
    if write.Some? {
      AppliedLeavesRecord(write.value, s);
    }
  }

  lemma ResultLeavesRecord(w: World, s: UserSignup, made: int, ending: Conditions)
    ensures SameRecord(s, ActivationResult(w, s, made, ending))
  {
  }

  lemma ActivationLeavesRecord(w: World, cfg: Config, s: UserSignup, env: nat -> Conditions)
    ensures SameRecord(s, AfterActivation(w, cfg, s, env).0)
  {
    var attempts := CheckedAttempts(cfg, s);
    var end := EndsAt(env, 0);
    if attempts.Ok? && end.Some? {
      ResultLeavesRecord(w, s, attempts.value + InvalidTries(env, 0), env(end.value));
    }
  }

  /** A fitting email hash stays fitting; the history stays, unless another controller writes. */
  predicate RecordStep(w: World, s: UserSignup, t: UserSignup, byOthers: bool) {
    && (EmailHashMatches(w, s) ==> EmailHashMatches(w, t))
    && (!byOthers ==> forall key :: key in SignupService.RETAINED ==> HistoryOf(t, key) == HistoryOf(s, key))
  }

  lemma SameRecordIsStep(w: World, s: UserSignup, t: UserSignup)
    requires SameRecord(s, t)
    ensures RecordStep(w, s, t, false)
  {
  }

  lemma RecordEffect(w: World, cfg: Config, s: UserSignup, step: Step)
    requires w.Lawful()
    ensures RecordStep(w, s, After(w, cfg, s, step).0, step.OthersWrite?)
  {
    match step {
      case InitCall(init, env) =>
        InitLeavesRecord(w, cfg, s, init);
        WrittenLeavesRecord(s, InitDecision(w, cfg, s, init).write, env);
        SameRecordIsStep(w, s, AfterInit(w, cfg, s, init, env).0);
      case PhoneCall(phone, env) =>
        PhoneLeavesRecord(w, cfg, s, phone);
        WrittenLeavesRecord(s, PhoneDecision(w, cfg, s, phone).write, env);
        SameRecordIsStep(w, s, AfterPhone(w, cfg, s, phone, env).0);
      case ActivationCall(_, env, _) =>
        ActivationLeavesRecord(w, cfg, s, env);
        SameRecordIsStep(w, s, AfterActivation(w, cfg, s, env).0);
      case AuditCall(_, token, env) => AuditEffect(w, s, token, env);
      case SignupCall(_, _, _, _) => SignupEffect(w, s, step);
      case OthersWrite(_, change) => OthersEffect(s, change);
    }
  }

  // ----- the email hash -----

  /** In every run from no UserSignup or from one whose label fits, the email-hash label is the hash of the
      email claim in every state. */
  lemma {:induction false} EmailHashAlwaysMatches(w: World, cfg: Config, start: Option<UserSignup>, steps: seq<Step>)
    requires w.Lawful() && (start.Some? ==> EmailHashMatches(w, start.value))
    ensures var s := Run(w, cfg, start, steps).signup; s.Some? ==> EmailHashMatches(w, s.value)
  {
    if steps != [] {
      var front, step := steps[..|steps| - 1], steps[|steps| - 1];
      EmailHashAlwaysMatches(w, cfg, start, front);
      var s := Run(w, cfg, start, front).signup;
      if s.Some? {
        RecordEffect(w, cfg, s.value, step);
      } else {
        AbsentEffect(w, step);
      }
    }
  }

  // ----- the history -----

  function RecordedHistory(s: Option<UserSignup>, key: AnnotationKey): Option<string> {
    if s.None? then None else HistoryOf(s.value, key)
  }

  /** The value under the key that another controller wrote last, or the one at the start. */
  function LastByOthers(w: World, cfg: Config, start: Option<UserSignup>, steps: seq<Step>,
                        key: AnnotationKey): Option<string> {
    if steps == [] then RecordedHistory(start, key)
    else
      var front, last := steps[..|steps| - 1], steps[|steps| - 1];
      if last.OthersWrite? && Run(w, cfg, start, front).signup.Some? then HistoryOf(last.change, key)
      else LastByOthers(w, cfg, start, front, key)
  }

  lemma OthersWriteHistory(s: UserSignup, change: UserSignup, key: AnnotationKey)
    requires key == ActivationCounter || key == LastTargetCluster
    ensures HistoryOf(AfterOthers(s, change), key) == HistoryOf(change, key)
  {
  }

  lemma HistoryStep(w: World, cfg: Config, s: UserSignup, step: Step, key: AnnotationKey)
    requires w.Lawful() && key in SignupService.RETAINED
    ensures HistoryOf(After(w, cfg, s, step).0, key) == HistoryOf(if step.OthersWrite? then step.change else s, key)
  {
    RecordEffect(w, cfg, s, step);
    if step.OthersWrite? {
      OthersWriteHistory(s, step.change, key);
    }
  }

  /** The activation counter and the last target cluster are what other controllers wrote last: no step
      of the service in any run changes, removes or adds them. */
  lemma {:induction false} HistoryIsOnlyWrittenByOthers(w: World, cfg: Config, start: Option<UserSignup>,
                                                        steps: seq<Step>,
                                                        key: AnnotationKey)
    requires w.Lawful() && key in SignupService.RETAINED
    ensures RecordedHistory(Run(w, cfg, start, steps).signup, key) == LastByOthers(w, cfg, start, steps, key)
  {
    if steps != [] {
      var front, step := steps[..|steps| - 1], steps[|steps| - 1];
      HistoryIsOnlyWrittenByOthers(w, cfg, start, front, key);
      var s := Run(w, cfg, start, front).signup;
      if s.Some? {
        HistoryStep(w, cfg, s.value, step, key);
      } else {
        AbsentEffect(w, step);
      }
    }
  }

  // ----- rejection -----

  predicate NoMessage(log: seq<Event>) {
    forall i :: 0 <= i < |log| ==> !log[i].kind.Sent? && !log[i].kind.Unrecorded?
  }

  predicate NoActivation(steps: seq<Step>) {
    forall i :: 0 <= i < |steps| ==> !steps[i].ActivationCall?
  }

  lemma RejectionEffect(w: World, cfg: Config, s: UserSignup, step: Step)
    requires w.Lawful() && Rejected in s.flags
    requires Rejected !in w.clearedByApproval || !step.ActivationCall?
    ensures var (t, kind) := After(w, cfg, s, step);
            Rejected in t.flags && !kind.Sent? && !kind.Unrecorded? && !kind.Reactivation?
  {
    match step {
      case InitCall(init, env) => InitEffect(w, cfg, s, init, env);
      case PhoneCall(phone, env) => PhoneEffect(w, cfg, s, phone, env);
      case ActivationCall(_, env, _) => ActivationEffect(w, cfg, s, env);
      case AuditCall(_, token, env) => AuditEffect(w, s, token, env);
      case SignupCall(_, _, _, _) => SignupEffect(w, s, step);
      case OthersWrite(_, change) => OthersEffect(s, change);
    }
  }

  /** A rejected UserSignup stays rejected and gets no message in any run, unless manual approval clears
      the rejection and an activation code is tried. */
  lemma {:induction false} RejectionSticks(w: World, cfg: Config, start: UserSignup, steps: seq<Step>)
    requires w.Lawful() && Rejected in start.flags
    requires Rejected !in w.clearedByApproval || NoActivation(steps)
    ensures var st := Run(w, cfg, Some(start), steps);
            st.signup.Some? && Rejected in st.signup.value.flags && NoMessage(st.log)
  {
    if steps != [] {
      var front := steps[..|steps| - 1];
      assert NoActivation(steps) ==> NoActivation(front);
      RejectionSticks(w, cfg, start, front);
      RejectionEffect(w, cfg, Run(w, cfg, Some(start), front).signup.value, steps[|steps| - 1]);
    }
  }

  predicate EndsRejected(w: World, cfg: Config, start: UserSignup, steps: seq<Step>) {
    var s := Run(w, cfg, Some(start), steps).signup;
    s.Some? && Rejected in s.value.flags
  }

  ghost predicate RejectionAlwaysSticks(w: World, cfg: Config) {
    forall start: UserSignup, steps: seq<Step> :: Rejected in start.flags ==> EndsRejected(w, cfg, start, steps)
  }

  /** Over all runs, activation codes included, rejection sticks exactly when manual approval spares it. */
  lemma RejectionSticksExactly(w: World, cfg: Config)
    requires w.Lawful()
    ensures RejectionAlwaysSticks(w, cfg) <==> Rejected !in w.clearedByApproval
  {
    if Rejected !in w.clearedByApproval {
      forall start: UserSignup, steps: seq<Step> | Rejected in start.flags ensures EndsRejected(w, cfg, start, steps) {
        RejectionSticks(w, cfg, start, steps);
      }
    } else {
      var start := UserSignup(map[], map[], {Rejected}, "",
                              Claims("", "", "", "", "", "", "", "", "", ""), Status(false));
      var event := SocialEvent("open-day", 0, 1, 0, 1, false, "");
      var steps := [ActivationCall(0, _ => Conditions(false, false, Ok(event)), NOBODY)];
      ApprovalClearsRejection(w, cfg, start, event, NOBODY);
      assert !EndsRejected(w, cfg, start, steps);
    }
  }

  const NOBODY: FirstContact :=
    FirstContact(SignupService.Request(Claims("", "", "", "", "", "", "", "", "", ""), "", false, None, None, false,
                                       None),
                 "", Err(EventNotFound), None, false)

  /** An activation code for an event that needs no verification approves a rejected user, if approval
      clears rejection. */
  lemma ApprovalClearsRejection(w: World, cfg: Config, start: UserSignup, event: SocialEvent, first: FirstContact)
    requires w.Lawful() && Rejected in w.clearedByApproval
    requires Attempts !in start.annotations && !event.verificationRequired
    ensures !EndsRejected(w, cfg, start, [ActivationCall(0, _ => Conditions(false, false, Ok(event)), first)])
  {
    var step := ActivationCall(0, _ => Conditions(false, false, Ok(event)), first);
    assert [step][..0] == [];
    assert Run(w, cfg, Some(start), [step]).signup == Some(After(w, cfg, start, step).0);
  }

  /** The account verifier rejects, and no event approves the user over its head. */
  predicate RejectedSignup(w: World, r: SignupService.Request) {
    && SignupService.RejectedReply(r)
    && !(&& r.event.Some? && r.event.value.Ok? && !r.event.value.value.verificationRequired
         && Rejected in w.clearedByApproval)
  }

  /** What makes a user rejected: an enforced look-up that calls the number of a call for a code risky,
      once written; or a reactivation that the account verifier rejects. Nothing else does. */
  lemma RejectedExactlyBy(w: World, cfg: Config, s: UserSignup, step: Step)
    requires w.Lawful() && Rejected !in s.flags
    ensures Rejected in After(w, cfg, s, step).0.flags <==>
      (|| (&& step.InitCall? && EndsAt(step.env, 0).Some?
           && VerificationRequired in s.flags && step.init.verdict == PhoneFree
           && SendsSoFar(w, cfg, s, step.init.now) < cfg.dailyLimit
           && CalledRisky(w, cfg, s, step.init))
       || (step.SignupCall? && After(w, cfg, s, step).1.Reactivation? && RejectedSignup(w, step.request)))
  {
    match step {
      case InitCall(init, env) =>
        RejectsExactlyWhen(w, cfg, s, init);
        var out := InitDecision(w, cfg, s, init);
        if out.write.Some? {
          InitWriteIs(w, cfg, s, init);
        }
      case PhoneCall(phone, env) => PhoneEffect(w, cfg, s, phone, env);
      case ActivationCall(_, env, _) => ActivationEffect(w, cfg, s, env);
      case AuditCall(_, token, env) => AuditEffect(w, s, token, env);
      case SignupCall(_, request, _, _) => ReactivatedRejection(w, s, step);
      case OthersWrite(_, change) => OthersEffect(s, change);
    }
  }

  lemma ReactivatedRejection(w: World, s: UserSignup, step: Step)
    requires w.Lawful() && step.SignupCall? && Rejected !in s.flags
    ensures var (t, kind) := AfterSignup(w, s, step);
            Rejected in t.flags <==> kind.Reactivation? && RejectedSignup(w, step.request)
  {
    SignupEffect(w, s, step);
  }
}
