/** Whether the number a code is accepted for is the number the code went to. */
module PhoneRecheck {
  import opened Text
  import opened Decimal
  import opened UserSignups
  import opened Verification
  import opened PhoneNumbers
  import opened PollUpdate
  import opened Runs
  import opened StepEffects
  import opened Acceptance
  import SignupService

  predicate NotesNumber(kind: Kind) {
    kind.Sent? || kind.NumberNoted?
  }

  /** The last event that wrote a number's hash, since the UserSignup was created or reactivated. */
  function LastNoted(log: seq<Event>): (k: Option<nat>)
    ensures k.Some? ==> k.value < |log| && NotesNumber(log[k.value].kind)
  {
    if log == [] then None
    else
      var n := |log| - 1;
      if NotesNumber(log[n].kind) then Some(n)
      else if log[n].kind.Creation? || log[n].kind.Reactivation? then None
      else LastNoted(log[..n])
  }

  predicate Renewed(log: seq<Event>) {
    exists i :: 0 <= i < |log| && (log[i].kind.Creation? || log[i].kind.Reactivation?)
  }

  /** The phone-hash label is the hash of the number noted last; without one it is missing from a renewed
      UserSignup, and otherwise what it was at the start. */
  predicate LabelKept(w: World, start: Option<UserSignup>, s: UserSignup, log: seq<Event>) {
    match LastNoted(log)
    case Some(k) => PhoneHash in s.labels && s.labels[PhoneHash] == w.hash(log[k].kind.phone)
    case None =>
      if Renewed(log) then PhoneHash !in s.labels else start.Some? && s.SameLabel(start.value, PhoneHash)
  }

  // ----- the label over a run -----

  /** What a step does to the label: writes the hash of its number, removes it, or leaves it alone. */
  predicate LabelStep(w: World, s: UserSignup, t: UserSignup, kind: Kind) {
    if NotesNumber(kind) then PhoneHash in t.labels && t.labels[PhoneHash] == w.hash(kind.phone)
    else if kind.Reactivation? then PhoneHash !in t.labels
    else !kind.Creation? && t.SameLabel(s, PhoneHash)
  }

  lemma InitLabelStep(w: World, cfg: Config, s: UserSignup, inp: InitInputs, env: nat -> Conditions)
    ensures LabelStep(w, s, AfterInit(w, cfg, s, inp, env).0, AfterInit(w, cfg, s, inp, env).1)
  {
    InitEffect(w, cfg, s, inp, env);
  }

  lemma PhoneLabelStep(w: World, cfg: Config, s: UserSignup, inp: PhoneInputs, env: nat -> Conditions)
    ensures LabelStep(w, s, AfterPhone(w, cfg, s, inp, env).0, AfterPhone(w, cfg, s, inp, env).1)
  {
    PhoneEffect(w, cfg, s, inp, env);
  }

  lemma ActivationLabelStep(w: World, cfg: Config, s: UserSignup, env: nat -> Conditions)
    requires w.Lawful()
    ensures LabelStep(w, s, AfterActivation(w, cfg, s, env).0, AfterActivation(w, cfg, s, env).1)
  {
    ActivationEffect(w, cfg, s, env);
  }

  lemma LabelEffect(w: World, cfg: Config, s: UserSignup, step: Step)
    requires w.Lawful()
    ensures LabelStep(w, s, After(w, cfg, s, step).0, After(w, cfg, s, step).1)
  {
    match step {
      case InitCall(init, env) => InitLabelStep(w, cfg, s, init, env);
      case PhoneCall(phone, env) => PhoneLabelStep(w, cfg, s, phone, env);
      case ActivationCall(_, env, _) => ActivationLabelStep(w, cfg, s, env);
      case AuditCall(_, token, env) => AuditEffect(w, s, token, env);
      case SignupCall(_, _, _, _) => SignupEffect(w, s, step);
      case OthersWrite(_, change) => OthersEffect(s, change);
    }
  }

  lemma {:induction false} NotedAppend(log: seq<Event>, e: Event)
    ensures LastNoted(log + [e])
         == if NotesNumber(e.kind) then Some(|log|)
            else if e.kind.Creation? || e.kind.Reactivation? then None else LastNoted(log)
    ensures Renewed(log + [e]) <==> Renewed(log) || e.kind.Creation? || e.kind.Reactivation?
  {
    assert (log + [e])[..|log|] == log;
    if i :| 0 <= i < |log| && (log[i].kind.Creation? || log[i].kind.Reactivation?) {
      assert (log + [e])[i] == log[i];
    }
    if e.kind.Creation? || e.kind.Reactivation? {
      assert (log + [e])[|log|] == e;
    }
  }

  lemma StepKeepsLabel(w: World, start: Option<UserSignup>, s: UserSignup, t: UserSignup, log: seq<Event>, e: Event)
    requires LabelKept(w, start, s, log) && LabelStep(w, s, t, e.kind)
    ensures LabelKept(w, start, t, log + [e])
  {
    NotedAppend(log, e);
  }

  /** In every state of every run the label is the hash of the number of the last call for a code that was
      written, sent or not. */
  lemma {:induction false} LabelIsOfTheLastNumber(w: World, cfg: Config, start: Option<UserSignup>, steps: seq<Step>)
    requires w.Lawful()
    ensures var st := Run(w, cfg, start, steps);
            st.signup.Some? ==> LabelKept(w, start, st.signup.value, st.log)
  {
    if steps != [] {
      var front, step := steps[..|steps| - 1], steps[|steps| - 1];
      LabelIsOfTheLastNumber(w, cfg, start, front);
      var st := Run(w, cfg, start, front);
      var (after, kind) := AfterStep(w, cfg, st.signup, step);
      if st.signup.Some? {
        LabelEffect(w, cfg, st.signup.value, step);
        StepKeepsLabel(w, start, st.signup.value, after.value, st.log, EventOf(w, step, after, kind));
      } else {
        AbsentEffect(w, step);
        NotedAppend(st.log, EventOf(w, step, after, kind));
      }
    }
  }

  // ----- the number of a pending code -----

  lemma {:induction false} NotedSincePending(log: seq<Event>)
    requires Pending(log).Some?
    ensures LastNoted(log).Some? && Pending(log).value <= LastNoted(log).value
    ensures forall k :: LastNoted(log).value < k < |log| ==> !NotesNumber(log[k].kind)
  {
    var n := |log| - 1;
    if !NotesNumber(log[n].kind) {
      NotedSincePending(log[..n]);
    } else if log[n].kind.NumberNoted? {
      assert Pending(log) == Pending(log[..n]);
    }
  }

  /** The in-use check gives the same verdict on the label as on the number, whatever is stored. */
  ghost predicate Rechecks(w: World, s: UserSignup, number: string) {
    forall banned, signups, username ::
      Verdict(w, banned, signups, username, s.Label(PhoneHash)) == Verdict(w, banned, signups, username, number)
  }

  lemma RechecksExactly(w: World, s: UserSignup, noted: string, number: string)
    requires w.Lawful() && !LooksLikeHash(number) && s.Label(PhoneHash) == w.hash(noted)
    ensures Rechecks(w, s, number) <==> w.hash(noted) == w.hash(number)
  {
    LabelOfHash(w, noted);
    LabelOfHash(w, number);
    var a, b := w.hash(noted), w.hash(number);
    if a != b {
      SeparatingList("", a, b);
      var banned := Some([BannedUser("", "", a)]);
      assert Verdict(w, banned, None, "", a) != Verdict(w, banned, None, "", number);
    }
  }

  /** Event `k` noted a number, and no event after it did. */
  predicate NotedLast(log: seq<Event>, k: nat) {
    k < |log| && NotesNumber(log[k].kind) && forall m :: k < m < |log| ==> !NotesNumber(log[m].kind)
  }

  /** While a code is pending, the call that answers it re-checks the number the code went to exactly when
      the last call for a code that was written, the sending one or a later one, was for a number with the
      same hash. */
  lemma {:induction false} SentNumberIsRecheckedExactly(w: World, cfg: Config, start: Option<UserSignup>,
                                                        steps: seq<Step>, k: nat)
    requires w.Lawful() && Startable(start) && Run(w, cfg, start, steps).signup.Some?
    requires Pending(Run(w, cfg, start, steps).log).Some? && NotedLast(Run(w, cfg, start, steps).log, k)
    requires var log := Run(w, cfg, start, steps).log; IsE164(log[Pending(log).value].kind.phone)
    ensures var st := Run(w, cfg, start, steps);
            var j := Pending(st.log).value;
            && j <= k
            && (Rechecks(w, st.signup.value, st.log[j].kind.phone)
                <==> w.hash(st.log[k].kind.phone) == w.hash(st.log[j].kind.phone))
  {
    var st := Run(w, cfg, start, steps);
    LabelIsOfTheLastNumber(w, cfg, start, steps);
    PendingNumber(w, start, st.signup.value, st.log, k);
  }

  lemma {:induction false} PendingNumber(w: World, start: Option<UserSignup>, s: UserSignup, log: seq<Event>, k: nat)
    requires w.Lawful() && LabelKept(w, start, s, log) && Pending(log).Some? && NotedLast(log, k)
    requires IsE164(log[Pending(log).value].kind.phone)
    ensures var j := Pending(log).value;
            j <= k && (Rechecks(w, s, log[j].kind.phone) <==> w.hash(log[k].kind.phone) == w.hash(log[j].kind.phone))
  {
    var number := log[Pending(log).value].kind.phone;
    NotedSincePending(log);
    assert LastNoted(log) == Some(k);
    NumberIsNoHash(number);
    RechecksExactly(w, s, log[k].kind.phone, number);
  }

  /** The same for a code that was accepted: event `j` sent it, event `k` noted a number last before the
      acceptance, and the check before accepting was about the number of `j` exactly when the hashes agree. */
  lemma AcceptedNumberIsRecheckedExactly(w: World, cfg: Config, start: Option<UserSignup>, steps: seq<Step>, i: nat)
    returns (j: nat, k: nat)
    requires w.Lawful() && Startable(start) && i < |steps|
    requires Run(w, cfg, start, steps).log[i].kind.PhoneAccepted?
    ensures var log := Run(w, cfg, start, steps).log;
            var before := Run(w, cfg, start, steps[..i]).signup;
            && Answers(cfg, log, j, i) && j <= k < i && NotedLast(log[..i], k) && before.Some?
            && (IsE164(log[j].kind.phone) ==>
                  (Rechecks(w, before.value, log[j].kind.phone)
                   <==> w.hash(log[k].kind.phone) == w.hash(log[j].kind.phone)))
  {
    var log := Run(w, cfg, start, steps).log;
    var st := Run(w, cfg, start, steps[..i]);
    EventOfStep(w, cfg, start, steps, i);
    AbsentEffect(w, steps[i]);
    AcceptedCodeWasSent(w, cfg, start, steps, i);
    j :| Answers(cfg, log, j, i);
    PendingIsLatest(log[..i], j);
    NotedSincePending(log[..i]);
    k := LastNoted(log[..i]).value;
    if IsE164(log[j].kind.phone) {
      SentNumberIsRecheckedExactly(w, cfg, start, steps[..i], k);
    }
  }

  // ----- a code of one number, accepted for another -----

  const NO_FAULTS: nat -> Conditions := _ => Conditions(false, false, Err(EventNotFound))

  /** A call for a code, without a look-up's reply, whose message is delivered or not. */
  function CodeFor(number: string, code: string, delivered: bool): InitInputs {
    InitInputs(number, 0, PhoneFree, LookupError, Some(code), delivered)
  }

  /** A code goes to number `a`; a second call, for `b`, delivers nothing; the code of `a` is answered. */
  function SwitchedNumber(a: string, b: string, code: string): seq<Step> {
    [InitCall(CodeFor(a, code, true), NO_FAULTS), InitCall(CodeFor(b, code, false), NO_FAULTS),
     PhoneCall(PhoneInputs(code, 0, PhoneFree), NO_FAULTS)]
  }

  /** A user who has to verify and whom the captcha does not hold back. */
  predicate MayVerify(s: UserSignup) {
    VerificationRequired in s.flags && Rejected !in s.flags && CaptchaScore !in s.annotations
  }

  lemma CallIsWritten(w: World, cfg: Config, s: UserSignup, inp: InitInputs)
    requires MayVerify(s) && inp.verdict == PhoneFree && inp.lookup.LookupError? && inp.code.Some?
    ensures var (t, kind) := AfterInit(w, cfg, s, inp, NO_FAULTS);
            && MayVerify(t)
            && (if inp.delivered && SendsSoFar(w, cfg, s, inp.now) < cfg.dailyLimit
                then kind == Sent(inp.code.value, inp.phone) else kind == NumberNoted(inp.phone))
  {
    assert EndsAt(NO_FAULTS, 0) == Some(0);
    SendsExactlyWhen(w, cfg, s, inp);
    RejectsExactlyWhen(w, cfg, s, inp);
    var write := InitDecision(w, cfg, s, inp).write;
    InitWriteIs(w, cfg, s, inp);
  }

  predicate LimitsAllow(cfg: Config) {
    cfg.Valid() && cfg.dailyLimit >= 1 && cfg.attemptsAllowed >= 1 && cfg.codeExpiresInMin >= 0
  }

  /** The code and the counters are those of the message that was just recorded. */
  predicate HoldsCode(w: World, cfg: Config, s: UserSignup, code: string) {
    && MayVerify(s) && s.Annotation(Attempts) == "0" && s.Annotation(Code) == code
    && s.Annotation(Expiry) == w.formatTime(cfg.codeExpiresInMin * MINUTE)
  }

  lemma FirstCall(w: World, cfg: Config, s: UserSignup, a: string, code: string)
    requires w.Lawful() && LimitsAllow(cfg) && SignupService.Unused(s) && MayVerify(s)
    ensures var (t, kind) := AfterInit(w, cfg, s, CodeFor(a, code, true), NO_FAULTS);
            kind == Sent(code, a) && HoldsCode(w, cfg, t, code)
  {
    CallIsWritten(w, cfg, s, CodeFor(a, code, true));
    InitEffect(w, cfg, s, CodeFor(a, code, true), NO_FAULTS);
  }

  lemma SecondCall(w: World, cfg: Config, s: UserSignup, b: string, code: string)
    requires HoldsCode(w, cfg, s, code)
    ensures var (t, kind) := AfterInit(w, cfg, s, CodeFor(b, code, false), NO_FAULTS);
            kind == NumberNoted(b) && HoldsCode(w, cfg, t, code) && t.Label(PhoneHash) == w.hash(b)
  {
    CallIsWritten(w, cfg, s, CodeFor(b, code, false));
    InitEffect(w, cfg, s, CodeFor(b, code, false), NO_FAULTS);
    var t := AfterInit(w, cfg, s, CodeFor(b, code, false), NO_FAULTS).0;
    assert t.SameAnnotation(s, Attempts) && t.SameAnnotation(s, Code) && t.SameAnnotation(s, Expiry);
  }

  /** From any unused UserSignup that has to verify: the code of `a` is accepted, what is re-checked and what
      stays on the account is the hash of `b`, and the need to verify is gone. */
  lemma {:induction false} OneNumbersCodeVerifiesAnother(w: World, cfg: Config, s: UserSignup, a: string, b: string,
                                                         code: string)
    requires w.Lawful() && LimitsAllow(cfg)
    requires SignupService.Unused(s) && MayVerify(s) && IsE164(a) && w.hash(a) != w.hash(b)
    ensures var steps := SwitchedNumber(a, b, code);
            var st := Run(w, cfg, Some(s), steps);
            var checked := Run(w, cfg, Some(s), steps[..2]).signup;
            && st.log[0].kind == Sent(code, a) && st.log[1].kind == NumberNoted(b)
            && st.log[2].kind == PhoneAccepted(code)
            && checked.Some? && !Rechecks(w, checked.value, a)
            && st.signup.Some? && VerificationRequired !in st.signup.value.flags
            && st.signup.value.Label(PhoneHash) == w.hash(b)
  {
    var s1 := AfterInit(w, cfg, s, CodeFor(a, code, true), NO_FAULTS).0;
    var s2 := AfterInit(w, cfg, s1, CodeFor(b, code, false), NO_FAULTS).0;
    FirstCall(w, cfg, s, a, code);
    SecondCall(w, cfg, s1, b, code);
    AcceptsSentCode(w, cfg, s2, code);
    ThreeSteps(w, cfg, s, SwitchedNumber(a, b, code));
    NumberIsNoHash(a);
    RechecksExactly(w, s2, b, a);
  }

  /** A run of three steps on a UserSignup, step by step. */
  lemma {:induction false} ThreeSteps(w: World, cfg: Config, s: UserSignup, steps: seq<Step>)
    requires |steps| == 3
    ensures var (s1, kind1) := After(w, cfg, s, steps[0]);
            var (s2, kind2) := After(w, cfg, s1, steps[1]);
            var (s3, kind3) := After(w, cfg, s2, steps[2]);
            var st := Run(w, cfg, Some(s), steps);
            && Run(w, cfg, Some(s), steps[..2]).signup == Some(s2) && st.signup == Some(s3)
            && st.log[0].kind == kind1 && st.log[1].kind == kind2 && st.log[2].kind == kind3
  {
    EventOfStep(w, cfg, Some(s), steps, 0);
    EventOfStep(w, cfg, Some(s), steps, 1);
    EventOfStep(w, cfg, Some(s), steps, 2);
    assert steps[..0] == [] && steps[..3] == steps;
  }

  lemma AcceptsSentCode(w: World, cfg: Config, s: UserSignup, code: string)
    requires w.Lawful() && LimitsAllow(cfg) && HoldsCode(w, cfg, s, code)
    ensures var (t, kind) := AfterPhone(w, cfg, s, PhoneInputs(code, 0, PhoneFree), NO_FAULTS);
            kind == PhoneAccepted(code) && VerificationRequired !in t.flags && t.labels == s.labels
  {
    AtoiOfItoa(0);
    assert Itoa(0) == "0";
    var inp := PhoneInputs(code, 0, PhoneFree);
    AcceptsExactlyWhen(w, cfg, s, inp);
    assert Works(NO_FAULTS(0));
    PhoneEffect(w, cfg, s, inp, NO_FAULTS);
  }
}
