/** Which phone codes are accepted: the latest one sent, in time, and once. */
module Acceptance {
  import opened Text
  import opened Decimal
  import opened UserSignups
  import opened Verification
  import opened PollUpdate
  import opened Runs
  import opened StepEffects

  /** The events after which an earlier code is worth nothing. */
  predicate EndsCode(kind: Kind) {
    kind.Sent? || kind.PhoneAccepted? || kind.Creation? || kind.Reactivation?
  }

  /** The number of the event that sent the code a user may still answer with. */
  function Pending(log: seq<Event>): (j: Option<nat>)
    ensures j.Some? ==> j.value < |log| && log[j.value].kind.Sent?
  {
    if log == [] then None
    else
      var n := |log| - 1;
      if log[n].kind.Sent? then Some(n)
      else if EndsCode(log[n].kind) then None
      else Pending(log[..n])
  }

  function Deadline(cfg: Config, sent: Event): int {
    sent.time + cfg.codeExpiresInMin * MINUTE
  }

  /** The stored code and its expiry are those of the pending message, and missing when there is none. */
  predicate CodeKept(w: World, cfg: Config, s: UserSignup, log: seq<Event>) {
    match Pending(log)
    case None => Code !in s.annotations && Expiry !in s.annotations
    case Some(j) =>
      && Code in s.annotations && s.annotations[Code] == log[j].kind.code
      && Expiry in s.annotations && s.annotations[Expiry] == w.formatTime(Deadline(cfg, log[j]))
  }

  lemma {:induction false} PendingAppend(log: seq<Event>, e: Event)
    ensures Pending(log + [e]) == if e.kind.Sent? then Some(|log|) else if EndsCode(e.kind) then None else Pending(log)
  {
    assert (log + [e])[..|log|] == log;
  }

  /** What a step does to the code: sends a new one, removes it, or leaves it alone. */
  predicate CodeStep(w: World, cfg: Config, s: UserSignup, t: UserSignup, kind: Kind, now: int) {
    if kind.Sent? then
      && Code in t.annotations && t.annotations[Code] == kind.code
      && Expiry in t.annotations && t.annotations[Expiry] == w.formatTime(now + cfg.codeExpiresInMin * MINUTE)
    else if EndsCode(kind) then Code !in t.annotations && Expiry !in t.annotations
    else t.SameAnnotation(s, Code) && t.SameAnnotation(s, Expiry)
  }

  lemma InitCodeStep(w: World, cfg: Config, s: UserSignup, inp: InitInputs, env: nat -> Conditions)
    ensures CodeStep(w, cfg, s, AfterInit(w, cfg, s, inp, env).0, AfterInit(w, cfg, s, inp, env).1, inp.now)
  {
    InitEffect(w, cfg, s, inp, env);
  }

  lemma PhoneCodeStep(w: World, cfg: Config, s: UserSignup, inp: PhoneInputs, env: nat -> Conditions)
    ensures CodeStep(w, cfg, s, AfterPhone(w, cfg, s, inp, env).0, AfterPhone(w, cfg, s, inp, env).1, inp.now)
  {
    PhoneEffect(w, cfg, s, inp, env);
  }

  lemma ActivationCodeStep(w: World, cfg: Config, s: UserSignup, env: nat -> Conditions, now: int)
    requires w.Lawful()
    ensures CodeStep(w, cfg, s, AfterActivation(w, cfg, s, env).0, AfterActivation(w, cfg, s, env).1, now)
  {
    ActivationEffect(w, cfg, s, env);
  }

  lemma CodeEffect(w: World, cfg: Config, s: UserSignup, step: Step)
    requires w.Lawful()
    ensures CodeStep(w, cfg, s, After(w, cfg, s, step).0, After(w, cfg, s, step).1, step.Time())
  {
    match step {
      case InitCall(init, env) => InitCodeStep(w, cfg, s, init, env);
      case PhoneCall(phone, env) => PhoneCodeStep(w, cfg, s, phone, env);
      case ActivationCall(_, env, _) => ActivationCodeStep(w, cfg, s, env, step.Time());
      case AuditCall(_, token, env) => AuditEffect(w, s, token, env);
      case SignupCall(_, _, _, _) => SignupEffect(w, s, step);
      case OthersWrite(_, change) => OthersEffect(s, change);
    }
  }

  lemma StepKeepsCode(w: World, cfg: Config, s: UserSignup, t: UserSignup, log: seq<Event>, e: Event)
    requires CodeKept(w, cfg, s, log) && CodeStep(w, cfg, s, t, e.kind, e.time)
    ensures CodeKept(w, cfg, t, log + [e])
  {
    PendingAppend(log, e);
  }

  lemma {:induction false} NothingPending(log: seq<Event>)
    requires BeforeCreation(log)
    ensures Pending(log) == None
  {
    if log != [] {
      NothingPending(log[..|log| - 1]);
    }
  }

  lemma CreationKeepsCode(w: World, cfg: Config, log: seq<Event>, step: Step)
    requires BeforeCreation(log) && AfterAbsent(w, step).0.Some?
    ensures var (t, kind) := AfterAbsent(w, step);
            CodeKept(w, cfg, t.value, log + [EventOf(w, step, t, kind)])
  {
    AbsentEffect(w, step);
    NothingPending(log);
    PendingAppend(log, EventOf(w, step, AfterAbsent(w, step).0, AfterAbsent(w, step).1));
  }

  lemma {:induction false} RunKeepsCode(w: World, cfg: Config, start: Option<UserSignup>, steps: seq<Step>)
    requires w.Lawful() && Startable(start)
    ensures var st := Run(w, cfg, start, steps);
            st.signup.Some? ==> CodeKept(w, cfg, st.signup.value, st.log)
  {
    if steps != [] {
      var front, step := steps[..|steps| - 1], steps[|steps| - 1];
      RunKeepsCode(w, cfg, start, front);
      var st := Run(w, cfg, start, front);
      if st.signup.Some? {
        var s := st.signup.value;
        CodeEffect(w, cfg, s, step);
        var (t, kind) := After(w, cfg, s, step);
        StepKeepsCode(w, cfg, s, t, st.log, EventOf(w, step, Some(t), kind));
      } else if AfterAbsent(w, step).0.Some? {
        AbsentRun(w, cfg, start, front);
        CreationKeepsCode(w, cfg, st.log, step);
      }
    }
  }

  /** Event `j` sent the code, and nothing before event `i` made it worthless. */
  predicate LatestSend(log: seq<Event>, j: nat, i: nat)
    requires j < i <= |log|
  {
    log[j].kind.Sent? && forall k :: j < k < i ==> !EndsCode(log[k].kind)
  }

  lemma {:induction false} PendingIsLatest(log: seq<Event>, j: nat)
    requires j < |log|
    ensures Pending(log) == Some(j) <==> LatestSend(log, j, |log|)
  {
    var n := |log| - 1;
    if j < n {
      PendingIsLatest(log[..n], j);
    }
  }

  // ----- the main results -----

  /** At any point of any run a call would accept a code exactly when the code is that of the latest
      message, nothing has used it up since, it has not expired, and no other check stands in the way. */
  lemma {:induction false} AcceptsOnlyThePendingCode(w: World, cfg: Config, start: Option<UserSignup>,
                                                     steps: seq<Step>, inp: PhoneInputs)
    requires w.Lawful() && Startable(start) && Run(w, cfg, start, steps).signup.Some?
    ensures var st := Run(w, cfg, start, steps);
            var s := st.signup.value;
            PhoneDecision(w, cfg, s, inp).error.None? <==>
              (&& Pending(st.log).Some?
               && st.log[Pending(st.log).value].kind.code == inp.code
               && inp.now <= Deadline(cfg, st.log[Pending(st.log).value])
               && Atoi(s.Annotation(Attempts)).Some? && Atoi(s.Annotation(Attempts)).value < cfg.attemptsAllowed
               && inp.verdict == PhoneFree && !CaptchaHoldsBack(w, cfg, s))
  {
    RunKeepsCode(w, cfg, start, steps);
    AcceptsExactlyWhen(w, cfg, Run(w, cfg, start, steps).signup.value, inp);
  }

  /** Event `i` accepted the code that event `j` sent, in time, with nothing in between that ends a code. */
  predicate Answers(cfg: Config, log: seq<Event>, j: nat, i: nat) {
    && j < i < |log| && log[i].kind.PhoneAccepted?
    && log[j].kind.Sent? && log[j].kind.code == log[i].kind.code
    && log[i].time <= Deadline(cfg, log[j]) && LatestSend(log, j, i)
  }

  lemma PendingIsAnswered(w: World, cfg: Config, s: UserSignup, log: seq<Event>, i: nat)
    requires w.Lawful() && i < |log| && CodeKept(w, cfg, s, log[..i])
    requires log[i].kind.PhoneAccepted? && log[i].kind.code == s.Annotation(Code)
    requires w.parseTime(s.Annotation(Expiry)).Some? && log[i].time <= w.parseTime(s.Annotation(Expiry)).value
    ensures exists j: nat :: Answers(cfg, log, j, i)
  {
    var j := Pending(log[..i]).value;
    PendingIsLatest(log[..i], j);
    assert Answers(cfg, log, j, i);
  }

  /** In every run an accepted code is the one of the latest message, accepted in time. */
  lemma {:induction false} AcceptedCodeWasSent(w: World, cfg: Config, start: Option<UserSignup>, steps: seq<Step>,
                                               i: nat)
    requires w.Lawful() && Startable(start) && i < |steps|
    requires Run(w, cfg, start, steps).log[i].kind.PhoneAccepted?
    ensures exists j: nat :: Answers(cfg, Run(w, cfg, start, steps).log, j, i)
  {
    var st := Run(w, cfg, start, steps[..i]);
    EventOfStep(w, cfg, start, steps, i);
    AbsentEffect(w, steps[i]);
    AcceptingStep(w, cfg, st.signup.value, steps[i]);
    RunKeepsCode(w, cfg, start, steps[..i]);
    PendingIsAnswered(w, cfg, st.signup.value, Run(w, cfg, start, steps).log, i);
  }

  /** Only a call with the stored code, before its stored expiry, accepts one. */
  lemma AcceptingStep(w: World, cfg: Config, s: UserSignup, step: Step)
    requires w.Lawful() && After(w, cfg, s, step).1.PhoneAccepted?
    ensures After(w, cfg, s, step).1.code == s.Annotation(Code)
    ensures w.parseTime(s.Annotation(Expiry)).Some? && step.Time() <= w.parseTime(s.Annotation(Expiry)).value
  {
    match step {
      case InitCall(init, env) => InitEffect(w, cfg, s, init, env);
      case PhoneCall(phone, env) => PhoneEffect(w, cfg, s, phone, env);
      case ActivationCall(_, env, _) => ActivationEffect(w, cfg, s, env);
      case AuditCall(_, _, _) =>
      case SignupCall(_, _, _, _) =>
      case OthersWrite(_, _) =>
    }
  }

  lemma AnswersInOrder(cfg: Config, log: seq<Event>, j: nat, i: nat, j': nat, i': nat)
    requires Answers(cfg, log, j, i) && Answers(cfg, log, j', i') && i < i'
    ensures j < i < j' < i'
  {
    assert EndsCode(log[i].kind);
  }

  /** In every run each message is good for one acceptance: two accepted codes answer two messages, the
      second sent after the first was accepted. */
  lemma {:induction false} EachSendIsAcceptedOnce(w: World, cfg: Config, start: Option<UserSignup>, steps: seq<Step>,
                                                  i: nat, i': nat)
    requires w.Lawful() && Startable(start) && i < i' < |steps|
    requires Run(w, cfg, start, steps).log[i].kind.PhoneAccepted?
    requires Run(w, cfg, start, steps).log[i'].kind.PhoneAccepted?
    ensures var log := Run(w, cfg, start, steps).log;
            exists j: nat, j': nat :: j < i < j' < i' && Answers(cfg, log, j, i) && Answers(cfg, log, j', i')
  {
    var log := Run(w, cfg, start, steps).log;
    AcceptedCodeWasSent(w, cfg, start, steps, i);
    AcceptedCodeWasSent(w, cfg, start, steps, i');
    var j: nat :| Answers(cfg, log, j, i);
    var j': nat :| Answers(cfg, log, j', i');
    AnswersInOrder(cfg, log, j, i, j', i');
  }

  /** A call with a phone code ends the need to verify only by accepting the code. */
  lemma PhoneCallClearsOnlyByAccepting(w: World, cfg: Config, s: UserSignup, phone: PhoneInputs, env: nat -> Conditions)
    ensures var (t, kind) := AfterPhone(w, cfg, s, phone, env);
            VerificationRequired in s.flags ==> (VerificationRequired !in t.flags <==> kind.PhoneAccepted?)
  {
    PhoneEffect(w, cfg, s, phone, env);
  }
}
