/** How many wrong codes a user can try, phone and activation codes counted together. */
module GuessBudget {
  import opened Text
  import opened Decimal
  import opened UserSignups
  import opened Verification
  import opened PollUpdate
  import opened Runs
  import opened StepEffects
  import opened SendRate
  import SignupService

  /** The events after which guessing starts over. */
  predicate IsReset(kind: Kind) {
    kind.Sent? || kind.PhoneAccepted? || kind.ActivationAccepted? || kind.Creation? || kind.Reactivation?
  }

  predicate IsWrong(kind: Kind) {
    kind.WrongAnswer? || kind.UncountedGuess?
  }

  function Wrongs(log: seq<Event>): nat {
    if log == [] then 0
    else Wrongs(log[..|log| - 1]) + if IsWrong(log[|log| - 1].kind) then 1 else 0
  }

  function Resets(log: seq<Event>): nat {
    if log == [] then 0
    else Resets(log[..|log| - 1]) + if IsReset(log[|log| - 1].kind) then 1 else 0
  }

  /** The wrong answers nothing was recorded for. */
  function Uncounted(log: seq<Event>): nat {
    if log == [] then 0
    else Uncounted(log[..|log| - 1]) + if log[|log| - 1].kind.UncountedGuess? then 1 else 0
  }

  /** The recorded wrong answers since the last reset. */
  function WrongsSinceReset(log: seq<Event>): nat {
    if log == [] || IsReset(log[|log| - 1].kind) then 0
    else WrongsSinceReset(log[..|log| - 1]) + if log[|log| - 1].kind.WrongAnswer? then 1 else 0
  }

  /** One activation code may be tried while no counter is stored, whatever the setting. */
  function Budget(cfg: Config): nat {
    if cfg.attemptsAllowed < 1 then 1 else cfg.attemptsAllowed
  }

  /** The stored counter never says less than the truth. */
  predicate Counted(cfg: Config, s: UserSignup, log: seq<Event>) {
    && WrongsSinceReset(log) <= Budget(cfg)
    && (if Attempts !in s.annotations then WrongsSinceReset(log) == 0
        else
          var n := Atoi(s.annotations[Attempts]);
          && n.Some?
          && (WrongsSinceReset(log) <= n.value || (WrongsSinceReset(log) == 0 && n.value == cfg.attemptsAllowed)))
  }

  lemma {:induction false} WrongsAppend(log: seq<Event>, e: Event)
    ensures WrongsSinceReset(log + [e])
         == if IsReset(e.kind) then 0 else WrongsSinceReset(log) + if e.kind.WrongAnswer? then 1 else 0
  {
    assert (log + [e])[..|log|] == log;
  }

  /** A recorded wrong answer: the counter was below the limit, or missing, and rises. */
  lemma WrongStep(cfg: Config, s: UserSignup, t: UserSignup, log: seq<Event>, e: Event, read: int, rise: nat)
    requires cfg.Valid() && Counted(cfg, s, log) && e.kind.WrongAnswer?
    requires 1 <= rise <= 5
    requires if Attempts in s.annotations then Atoi(s.annotations[Attempts]) == Some(read) && read < cfg.attemptsAllowed
             else read == 0
    requires Attempts in t.annotations && t.Annotation(Attempts) == Itoa(read + rise)
    requires MIN_INT <= read
    ensures Counted(cfg, t, log + [e])
  {
    WrongsAppend(log, e);
    AtoiOfItoa(read + rise);
  }

  /** Any other step: the counter is as it was, or repaired. */
  lemma OtherStep(cfg: Config, s: UserSignup, t: UserSignup, log: seq<Event>, e: Event)
    requires cfg.Valid() && Counted(cfg, s, log) && !e.kind.WrongAnswer? && !IsReset(e.kind)
    requires AttemptsRepaired(cfg, s, t)
    ensures Counted(cfg, t, log + [e])
  {
    WrongsAppend(log, e);
    AtoiOfItoa(cfg.attemptsAllowed);
    assert Atoi("").None?;
  }

  lemma ResetStep(cfg: Config, t: UserSignup, log: seq<Event>, e: Event)
    requires IsReset(e.kind)
    requires Attempts !in t.annotations || t.annotations[Attempts] == "0"
    ensures Counted(cfg, t, log + [e])
  {
    WrongsAppend(log, e);
    AtoiOfItoa(0);
    assert Itoa(0) == "0";
  }

  lemma AtoiAtLeastMin(s: string)
    ensures Atoi(s).Some? ==> MIN_INT <= Atoi(s).value
  {
  }

  lemma PhoneKeepsCount(w: World, cfg: Config, s: UserSignup, log: seq<Event>, inp: PhoneInputs,
                        env: nat -> Conditions, e: Event)
    requires cfg.Valid() && Counted(cfg, s, log) && e.kind == AfterPhone(w, cfg, s, inp, env).1
    ensures Counted(cfg, AfterPhone(w, cfg, s, inp, env).0, log + [e])
  {
    var (t, kind) := AfterPhone(w, cfg, s, inp, env);
    PhoneEffect(w, cfg, s, inp, env);
    if kind.PhoneAccepted? {
      ResetStep(cfg, t, log, e);
    } else if kind.WrongAnswer? {
      AtoiAtLeastMin(s.Annotation(Attempts));
      assert Atoi("").None?;
      WrongStep(cfg, s, t, log, e, Atoi(s.Annotation(Attempts)).value, 1);
    } else {
      OtherStep(cfg, s, t, log, e);
    }
  }

  lemma ActivationKeepsCount(w: World, cfg: Config, s: UserSignup, log: seq<Event>, env: nat -> Conditions, e: Event)
    requires w.Lawful() && cfg.Valid() && Counted(cfg, s, log) && e.kind == AfterActivation(w, cfg, s, env).1
    ensures Counted(cfg, AfterActivation(w, cfg, s, env).0, log + [e])
  {
    var (t, kind) := AfterActivation(w, cfg, s, env);
    ActivationEffect(w, cfg, s, env);
    if kind.ActivationAccepted? {
      ResetStep(cfg, t, log, e);
    } else if kind.WrongAnswer? {
      AtoiAtLeastMin(s.Annotation(Attempts));
      assert Atoi("").None?;
      WrongStep(cfg, s, t, log, e, CheckedAttempts(cfg, s).value, InvalidTries(env, 0));
    } else {
      OtherStep(cfg, s, t, log, e);
    }
  }

  lemma StepKeepsCount(w: World, cfg: Config, s: UserSignup, log: seq<Event>, step: Step)
    requires w.Lawful() && cfg.Valid() && Counted(cfg, s, log)
    ensures var (t, kind) := After(w, cfg, s, step);
            Counted(cfg, t, log + [EventOf(w, step, Some(t), kind)])
  {
    var (t, kind) := After(w, cfg, s, step);
    var e := EventOf(w, step, Some(t), kind);
    match step {
      case InitCall(init, env) =>
        InitEffect(w, cfg, s, init, env);
        if kind.Sent? { ResetStep(cfg, t, log, e); } else { OtherStep(cfg, s, t, log, e); }
      case PhoneCall(phone, env) =>
        PhoneKeepsCount(w, cfg, s, log, phone, env, e);
      case ActivationCall(_, env, _) =>
        ActivationKeepsCount(w, cfg, s, log, env, e);
      case AuditCall(_, token, env) =>
        AuditEffect(w, s, token, env);
        OtherStep(cfg, s, t, log, e);
      case SignupCall(_, _, _, _) =>
        SignupEffect(w, s, step);
        if kind.Reactivation? { ResetStep(cfg, t, log, e); } else { OtherStep(cfg, s, t, log, e); }
      case OthersWrite(_, change) =>
        OthersEffect(s, change);
        assert t.SameAnnotation(s, Attempts);
        OtherStep(cfg, s, t, log, e);
    }
  }

  lemma CreationStep(w: World, cfg: Config, log: seq<Event>, step: Step)
    requires AfterAbsent(w, step).0.Some?
    ensures var (t, kind) := AfterAbsent(w, step);
            Counted(cfg, t.value, log + [EventOf(w, step, t, kind)])
  {
    AbsentEffect(w, step);
    var (t, kind) := AfterAbsent(w, step);
    ResetStep(cfg, t.value, log, EventOf(w, step, t, kind));
  }

  /** Before there is a UserSignup nothing is recorded. */
  lemma {:induction false} NothingRecorded(log: seq<Event>)
    requires BeforeCreation(log)
    ensures WrongsSinceReset(log) == 0
  {
    if log != [] {
      NothingRecorded(log[..|log| - 1]);
    }
  }

  lemma {:induction false} RunKeepsCount(w: World, cfg: Config, start: Option<UserSignup>, steps: seq<Step>)
    requires w.Lawful() && cfg.Valid() && Startable(start)
    ensures var st := Run(w, cfg, start, steps);
            && (st.signup.Some? ==> Counted(cfg, st.signup.value, st.log))
            && WrongsSinceReset(st.log) <= Budget(cfg)
  {
    if steps != [] {
      var front, last := steps[..|steps| - 1], steps[|steps| - 1];
      RunKeepsCount(w, cfg, start, front);
      var st := Run(w, cfg, start, front);
      if st.signup.Some? {
        StepKeepsCount(w, cfg, st.signup.value, st.log, last);
      } else if AfterAbsent(w, last).0.Some? {
        CreationStep(w, cfg, st.log, last);
      } else {
        AbsentRun(w, cfg, start, steps);
        NothingRecorded(Run(w, cfg, start, steps).log);
      }
    }
  }

  // ----- stretches of the log -----

  predicate PrefixesCounted(cfg: Config, log: seq<Event>) {
    forall k :: 0 <= k <= |log| ==> WrongsSinceReset(log[..k]) <= Budget(cfg)
  }

  lemma SliceEnd(log: seq<Event>, i: nat, j: nat)
    requires i < j <= |log|
    ensures log[i..j][..j - i - 1] == log[i..j - 1] && log[i..j][j - i - 1] == log[j - 1]
    ensures log[..j][..j - 1] == log[..j - 1]
  {
  }

  /** Within a stretch, the recorded answers before its last reset and those after it are bounded apart. */
  lemma {:induction false} StretchBound(cfg: Config, log: seq<Event>, i: nat, j: nat)
    requires i <= j <= |log|
    requires PrefixesCounted(cfg, log)
    ensures Wrongs(log[i..j]) <= Resets(log[i..j]) * Budget(cfg) + WrongsSinceReset(log[..j]) + Uncounted(log[i..j])
    decreases j
  {
    if i < j {
      StretchBound(cfg, log, i, j - 1);
      SliceEnd(log, i, j);
      assert WrongsSinceReset(log[..j - 1]) <= Budget(cfg);
      OneMore(Resets(log[i..j - 1]), Budget(cfg));
    } else {
      assert log[i..j] == [];
    }
  }

  lemma {:induction false} PrefixesAreCounted(w: World, cfg: Config, start: Option<UserSignup>, steps: seq<Step>)
    requires w.Lawful() && cfg.Valid() && Startable(start)
    ensures PrefixesCounted(cfg, Run(w, cfg, start, steps).log)
  {
    var log := Run(w, cfg, start, steps).log;
    forall k | 0 <= k <= |log| ensures WrongsSinceReset(log[..k]) <= Budget(cfg) {
      LogOfPrefix(w, cfg, start, steps, k);
      RunKeepsCount(w, cfg, start, steps[..k]);
    }
  }

  lemma OneMore(r: nat, budget: nat)
    ensures (r + 1) * budget == r * budget + budget
  {
  }

  /** Every stretch of the log with `r` resets has at most `r + 1` budgets of wrong answers, and those for
      which nothing was recorded. */
  predicate BudgetPerReset(cfg: Config, log: seq<Event>) {
    forall i, j :: 0 <= i <= j <= |log| ==>
      Wrongs(log[i..j]) <= (Resets(log[i..j]) + 1) * Budget(cfg) + Uncounted(log[i..j])
  }

  lemma CountedIsBudgeted(cfg: Config, log: seq<Event>)
    requires PrefixesCounted(cfg, log)
    ensures BudgetPerReset(cfg, log)
  {
    forall i, j | 0 <= i <= j <= |log|
      ensures Wrongs(log[i..j]) <= (Resets(log[i..j]) + 1) * Budget(cfg) + Uncounted(log[i..j])
    {
      StretchOfCounted(cfg, log, i, j);
    }
  }

  /** In every run a stretch with `r` resets has at most `r + 1` budgets of wrong answers and those for which
      nothing was recorded; so between consecutive resets there is at most one budget of recorded ones. */
  lemma {:induction false} WrongAnswersAreBounded(w: World, cfg: Config, start: Option<UserSignup>, steps: seq<Step>)
    requires w.Lawful() && cfg.Valid() && Startable(start)
    ensures BudgetPerReset(cfg, Run(w, cfg, start, steps).log)
  {
    PrefixesAreCounted(w, cfg, start, steps);
    CountedIsBudgeted(cfg, Run(w, cfg, start, steps).log);
  }

  lemma StretchOfCounted(cfg: Config, log: seq<Event>, i: nat, j: nat)
    requires i <= j <= |log|
    requires PrefixesCounted(cfg, log)
    ensures Wrongs(log[i..j]) <= (Resets(log[i..j]) + 1) * Budget(cfg) + Uncounted(log[i..j])
    ensures Resets(log[i..j]) == 0 ==> Wrongs(log[i..j]) <= Budget(cfg) + Uncounted(log[i..j])
  {
    StretchBound(cfg, log, i, j);
    OneMore(Resets(log[i..j]), Budget(cfg));
    assert WrongsSinceReset(log[..j]) <= Budget(cfg);
  }

  /** With a limit of at least one the budget is the limit. */
  lemma {:induction false} BudgetBetweenResets(w: World, cfg: Config, start: Option<UserSignup>, steps: seq<Step>,
                                               i: nat, j: nat)
    requires w.Lawful() && cfg.Valid() && Startable(start) && i <= j <= |steps|
    requires cfg.attemptsAllowed >= 1
    requires Resets(Run(w, cfg, start, steps).log[i..j]) == 0
    ensures var stretch := Run(w, cfg, start, steps).log[i..j];
            Wrongs(stretch) <= cfg.attemptsAllowed + Uncounted(stretch)
  {
    PrefixesAreCounted(w, cfg, start, steps);
    StretchOfCounted(cfg, Run(w, cfg, start, steps).log, i, j);
  }

  // ----- when nothing is recorded for a wrong answer -----

  /** There is a UserSignup when step `n` is about to run. */
  predicate Exists(w: World, cfg: Config, start: Option<UserSignup>, steps: seq<Step>, n: nat)
    requires n <= |steps|
  {
    Run(w, cfg, start, steps[..n]).signup.Some?
  }

  lemma {:induction false} ExistsLater(w: World, cfg: Config, start: Option<UserSignup>, steps: seq<Step>, n: nat,
                                       k: nat)
    requires n <= k <= |steps| && Exists(w, cfg, start, steps, n)
    ensures Exists(w, cfg, start, steps, k)
    decreases k
  {
    if n < k {
      ExistsLater(w, cfg, start, steps, n, k - 1);
      assert steps[..k][..k - 1] == steps[..k - 1];
    }
  }

  /** No activation call finds the code invalid and then runs out of tries. */
  predicate GetsThrough(step: Step) {
    step.ActivationCall? && InvalidTries(step.env, 0) > 0 ==> EndsAt(step.env, 0).Some?
  }

  lemma PresentGuessIsRecorded(w: World, cfg: Config, s: UserSignup, step: Step)
    requires w.Lawful() && GetsThrough(step)
    ensures !After(w, cfg, s, step).1.UncountedGuess?
  {
    match step {
      case InitCall(init, env) => InitEffect(w, cfg, s, init, env);
      case PhoneCall(phone, env) => PhoneEffect(w, cfg, s, phone, env);
      case ActivationCall(_, env, _) => ActivationEffect(w, cfg, s, env);
      case AuditCall(_, _, _) =>
      case SignupCall(_, _, _, _) =>
      case OthersWrite(_, _) =>
    }
  }

  /** The calls of a stretch of steps all get through. */
  predicate AllGetThrough(steps: seq<Step>, i: nat, j: nat)
    requires i <= j <= |steps|
  {
    forall k :: i <= k < j ==> GetsThrough(steps[k])
  }

  lemma {:induction false} NoneUncounted(log: seq<Event>, i: nat, j: nat)
    requires i <= j <= |log| && forall k :: i <= k < j ==> !log[k].kind.UncountedGuess?
    ensures Uncounted(log[i..j]) == 0
    decreases j
  {
    if i < j {
      NoneUncounted(log, i, j - 1);
      SliceEnd(log, i, j);
    }
  }

  lemma {:induction false} GuessIsRecorded(w: World, cfg: Config, start: Option<UserSignup>, steps: seq<Step>, k: nat)
    requires w.Lawful() && k < |steps| && Exists(w, cfg, start, steps, k) && GetsThrough(steps[k])
    ensures !Run(w, cfg, start, steps).log[k].kind.UncountedGuess?
  {
    EventOfStep(w, cfg, start, steps, k);
    PresentGuessIsRecorded(w, cfg, Run(w, cfg, start, steps[..k]).signup.value, steps[k]);
  }

  lemma {:induction false} NothingUncounted(w: World, cfg: Config, start: Option<UserSignup>, steps: seq<Step>,
                                            i: nat, j: nat)
    requires w.Lawful() && i <= j <= |steps| && Exists(w, cfg, start, steps, i) && AllGetThrough(steps, i, j)
    ensures Uncounted(Run(w, cfg, start, steps).log[i..j]) == 0
  {
    var log := Run(w, cfg, start, steps).log;
    forall k | i <= k < j ensures !log[k].kind.UncountedGuess? {
      ExistsLater(w, cfg, start, steps, i, k);
      GuessIsRecorded(w, cfg, start, steps, k);
    }
    NoneUncounted(log, i, j);
  }

  // ----- exactly when the configured limit bounds the guessing -----

  /** A stretch of steps without a reset that starts with a UserSignup (or, unless `present`, without one);
      if `through`, no activation call in it that finds the code invalid runs out of tries. */
  predicate Stretch(w: World, cfg: Config, start: Option<UserSignup>, steps: seq<Step>, i: nat, j: nat,
                    present: bool, through: bool)
    requires i <= j <= |steps|
  {
    && Startable(start) && Exists(w, cfg, start, steps, i) == present && (through ==> AllGetThrough(steps, i, j))
    && Resets(Run(w, cfg, start, steps).log[i..j]) == 0
  }

  /** In every run such a stretch has no more wrong answers than the configured limit. */
  ghost predicate LimitIsKept(w: World, cfg: Config, present: bool, through: bool) {
    forall start, steps, i, j :: 0 <= i <= j <= |steps| && Stretch(w, cfg, start, steps, i, j, present, through) ==>
      Wrongs(Run(w, cfg, start, steps).log[i..j]) <= Cap(cfg.attemptsAllowed)
  }

  /** An invalid activation code, tried by somebody with or without a UserSignup; the writes of the call
      all fail, or all work. */
  function Guess(writesFail: bool): Step {
    var nobody := Claims("", "", "", "", "", "", "", "", "", "");
    ActivationCall(0, _ => Conditions(false, writesFail, Err(EventNotFound)),
                   FirstContact(SignupService.Request(nobody, "", false, None, None, false, None),
                                "wrong", Err(EventNotFound), Some([]), false))
  }

  function Guesses(n: nat, writesFail: bool): (steps: seq<Step>)
    ensures |steps| == n
    ensures forall k :: 0 <= k < n ==> steps[k] == Guess(writesFail)
  {
    seq(n, k requires 0 <= k < n => Guess(writesFail))
  }

  lemma GuessTries(writesFail: bool)
    ensures var env := Guess(writesFail).env;
            EndsAt(env, 0) == (if writesFail then None else Some(0))
            && InvalidTries(env, 0) == (if writesFail then 5 else 1)
  {
    var env := Guess(writesFail).env;
    if writesFail {
      assert EndsAt(env, 4) == EndsAt(env, 3) == EndsAt(env, 2) == EndsAt(env, 1) == None;
      assert InvalidTries(env, 4) == 1 && InvalidTries(env, 3) == 2 && InvalidTries(env, 2) == 3;
      assert InvalidTries(env, 1) == 4;
    }
  }

  /** Without a UserSignup, or with one whose writes fail, the code is answered as wrong and nothing changes;
      otherwise it is recorded. */
  lemma GuessOnce(w: World, cfg: Config, st: State, writesFail: bool)
    requires w.Lawful()
    requires st.signup.Some? ==> SignupService.Unused(st.signup.value)
    ensures var after := Next(w, cfg, st, Guess(writesFail));
            && |after.log| == |st.log| + 1 && after.log[..|st.log|] == st.log
            && after.log[|st.log|].kind == (if st.signup.Some? && !writesFail then WrongAnswer else UncountedGuess)
            && (st.signup.None? || writesFail ==> after.signup == st.signup)
  {
    if st.signup.Some? {
      var s := st.signup.value;
      GuessTries(writesFail);
      assert CheckedAttempts(cfg, s) == Ok(0);
    }
  }

  lemma {:induction false} OneMoreWrong(log: seq<Event>, e: Event)
    requires IsWrong(e.kind)
    ensures Wrongs(log + [e]) == Wrongs(log) + 1 && Resets(log + [e]) == Resets(log)
  {
    assert (log + [e])[..|log|] == log;
  }

  lemma {:induction false} RunAppend(w: World, cfg: Config, start: Option<UserSignup>, steps: seq<Step>, step: Step)
    ensures Run(w, cfg, start, steps + [step]) == Next(w, cfg, Run(w, cfg, start, steps), step)
  {
    assert (steps + [step])[..|steps|] == steps;
  }

  /** With no attempts allowed, the first invalid activation code is recorded all the same. */
  lemma {:induction false} OneGuessIsFree(w: World, cfg: Config, s: UserSignup)
    requires w.Lawful() && SignupService.Unused(s) && cfg.attemptsAllowed <= 0
    ensures var st := Run(w, cfg, Some(s), [Guess(false)]);
            && st.log[0].kind == WrongAnswer && Resets(st.log) == 0 && Wrongs(st.log) == 1
  {
    RunAppend(w, cfg, Some(s), [], Guess(false));
    assert [] + [Guess(false)] == [Guess(false)];
    GuessOnce(w, cfg, State(Some(s), []), false);
    var e := Run(w, cfg, Some(s), [Guess(false)]).log[0];
    assert Run(w, cfg, Some(s), [Guess(false)]).log == [] + [e];
    OneMoreWrong([], e);
  }

  lemma {:induction false} GuessesChangeNothing(w: World, cfg: Config, start: Option<UserSignup>, steps: seq<Step>,
                                                writesFail: bool)
    requires w.Lawful() && Startable(start) && (start.None? || writesFail)
    requires forall k :: 0 <= k < |steps| ==> steps[k] == Guess(writesFail)
    ensures var st := Run(w, cfg, start, steps);
            st.signup == start && Wrongs(st.log) == |steps| && Resets(st.log) == 0
  {
    if steps != [] {
      var front := steps[..|steps| - 1];
      GuessesChangeNothing(w, cfg, start, front, writesFail);
      GuessAgain(w, cfg, Run(w, cfg, start, front), writesFail);
    }
  }

  /** Without a UserSignup, and with one while the writes fail, any number of wrong activation codes is
      answered: nothing is stored, nothing counted, and no reset is in between. */
  lemma {:induction false} GuessesAreUnbounded(w: World, cfg: Config, start: Option<UserSignup>, n: nat,
                                               writesFail: bool)
    requires w.Lawful() && Startable(start) && (start.None? || writesFail)
    ensures var st := Run(w, cfg, start, Guesses(n, writesFail));
            st.signup == start && Wrongs(st.log) == n && Resets(st.log) == 0
  {
    GuessesChangeNothing(w, cfg, start, Guesses(n, writesFail), writesFail);
  }

  lemma {:induction false} GuessAgain(w: World, cfg: Config, st: State, writesFail: bool)
    requires w.Lawful() && Startable(st.signup) && (st.signup.None? || writesFail)
    ensures var after := Next(w, cfg, st, Guess(writesFail));
            && after.signup == st.signup && Wrongs(after.log) == Wrongs(st.log) + 1
            && Resets(after.log) == Resets(st.log)
  {
    GuessOnce(w, cfg, st, writesFail);
    var after := Next(w, cfg, st, Guess(writesFail)).log;
    assert after == st.log + [after[|st.log|]];
    OneMoreWrong(st.log, after[|st.log|]);
  }

  lemma GuessesGetThrough(n: nat)
    ensures forall k :: 0 <= k < n ==> GetsThrough(Guesses(n, false)[k])
  {
    GuessTries(false);
  }

  lemma {:induction false} WholeLog(w: World, cfg: Config, start: Option<UserSignup>, steps: seq<Step>, present: bool,
                                    through: bool)
    requires LimitIsKept(w, cfg, present, through)
    requires Startable(start) && start.Some? == present && (through ==> AllGetThrough(steps, 0, |steps|))
    requires Resets(Run(w, cfg, start, steps).log) == 0
    ensures Wrongs(Run(w, cfg, start, steps).log) <= Cap(cfg.attemptsAllowed)
  {
    var n := |steps|;
    var log := Run(w, cfg, start, steps).log;
    assert steps[..0] == [] && log[0..n] == log;
    assert Stretch(w, cfg, start, steps, 0, n, present, through);
  }

  lemma {:induction false} StretchIsKept(w: World, cfg: Config, start: Option<UserSignup>, steps: seq<Step>, i: nat,
                                         j: nat)
    requires w.Lawful() && cfg.Valid() && cfg.attemptsAllowed >= 1 && Startable(start) && i <= j <= |steps|
    requires Exists(w, cfg, start, steps, i) && AllGetThrough(steps, i, j)
    requires Resets(Run(w, cfg, start, steps).log[i..j]) == 0
    ensures Wrongs(Run(w, cfg, start, steps).log[i..j]) <= Cap(cfg.attemptsAllowed)
  {
    BudgetBetweenResets(w, cfg, start, steps, i, j);
    NothingUncounted(w, cfg, start, steps, i, j);
  }

  function UnusedUser(): UserSignup {
    UserSignup(map[], map[SendCounter := "0"], {}, "", Claims("", "", "", "", "", "", "", "", "", ""), Status(false))
  }

  /** Every setting but the three conditions has a run with too many wrong answers. */
  lemma LimitIsBroken(w: World, cfg: Config, present: bool, through: bool)
    requires w.Lawful() && LimitIsKept(w, cfg, present, through)
    ensures cfg.attemptsAllowed >= 1 && present && through
  {
    var n := Cap(cfg.attemptsAllowed) + 1;
    if !present {
      GuessesAreUnbounded(w, cfg, None, n, false);
      GuessesGetThrough(n);
      WholeLog(w, cfg, None, Guesses(n, false), present, through);
    } else if !through {
      GuessesAreUnbounded(w, cfg, Some(UnusedUser()), n, true);
      WholeLog(w, cfg, Some(UnusedUser()), Guesses(n, true), present, through);
    } else if cfg.attemptsAllowed < 1 {
      OneGuessIsFree(w, cfg, UnusedUser());
      GuessTries(false);
      WholeLog(w, cfg, Some(UnusedUser()), [Guess(false)], present, through);
    }
  }

  /** The configured limit bounds the wrong answers between resets exactly when it allows at least one,
      the guessing starts with a UserSignup, and no call that finds the code invalid runs out of tries. */
  lemma LimitIsKeptExactly(w: World, cfg: Config, present: bool, through: bool)
    requires w.Lawful() && cfg.Valid()
    ensures LimitIsKept(w, cfg, present, through) <==> cfg.attemptsAllowed >= 1 && present && through
  {
    if cfg.attemptsAllowed >= 1 && present && through {
      forall start, steps, i, j | 0 <= i <= j <= |steps| && Stretch(w, cfg, start, steps, i, j, present, through)
        ensures Wrongs(Run(w, cfg, start, steps).log[i..j]) <= Cap(cfg.attemptsAllowed)
      {
        StretchIsKept(w, cfg, start, steps, i, j);
      }
    } else if LimitIsKept(w, cfg, present, through) {
      LimitIsBroken(w, cfg, present, through);
    }
  }

  // ----- one send window -----

  /** The stretch lies in one send window and holds no accepted code and no reactivation. */
  predicate OneWindow(stretch: seq<Event>, window: int) {
    forall k :: 0 <= k < |stretch| ==>
      && stretch[k].window == Some(window)
      && !stretch[k].kind.PhoneAccepted? && !stretch[k].kind.ActivationAccepted?
      && !stretch[k].kind.Creation? && !stretch[k].kind.Reactivation?
  }

  lemma {:induction false} ResetsAreSends(stretch: seq<Event>, window: int)
    requires OneWindow(stretch, window)
    ensures Resets(stretch) == SendsIn(stretch, window)
  {
    if stretch != [] {
      ResetsAreSends(stretch[..|stretch| - 1], window);
    }
  }

  /** Without an accepted code one send window sees at most (daily limit + 1) budgets of wrong answers, and
      those for which nothing was recorded. */
  ghost predicate BudgetPerWindow(cfg: Config, log: seq<Event>) {
    forall i, j, window :: 0 <= i <= j <= |log| && OneWindow(log[i..j], window) ==>
      Wrongs(log[i..j]) <= (Cap(cfg.dailyLimit) + 1) * Budget(cfg) + Uncounted(log[i..j])
  }

  lemma {:induction false} BudgetOfWindow(cfg: Config, log: seq<Event>, i: nat, j: nat, window: int)
    requires i <= j <= |log| && BudgetPerReset(cfg, log) && SendsIn(log[i..j], window) <= Cap(cfg.dailyLimit)
    requires OneWindow(log[i..j], window)
    ensures Wrongs(log[i..j]) <= (Cap(cfg.dailyLimit) + 1) * Budget(cfg) + Uncounted(log[i..j])
  {
    ResetsAreSends(log[i..j], window);
    Monotone(Resets(log[i..j]) + 1, Cap(cfg.dailyLimit) + 1, Budget(cfg));
  }

  lemma WindowHasNoReactivation(stretch: seq<Event>, window: int)
    requires OneWindow(stretch, window)
    ensures NoReactivation(stretch)
  {
  }

  /** In every run each send window keeps to its budget. */
  lemma {:induction false} WrongAnswersPerWindow(w: World, cfg: Config, start: Option<UserSignup>, steps: seq<Step>)
    requires w.Lawful() && cfg.Valid() && Startable(start) && Clocked(steps)
    ensures BudgetPerWindow(cfg, Run(w, cfg, start, steps).log)
  {
    var log := Run(w, cfg, start, steps).log;
    WrongAnswersAreBounded(w, cfg, start, steps);
    forall i, j, window | 0 <= i <= j <= |log| && OneWindow(log[i..j], window)
      ensures Wrongs(log[i..j]) <= (Cap(cfg.dailyLimit) + 1) * Budget(cfg) + Uncounted(log[i..j])
    {
      WindowHasNoReactivation(log[i..j], window);
      StretchIsPaced(w, cfg, start, steps, i, j);
      BudgetOfWindow(cfg, log, i, j, window);
    }
  }

  lemma Monotone(a: nat, b: nat, c: nat)
    requires a <= b
    ensures a * c <= b * c
  {
  }
}
