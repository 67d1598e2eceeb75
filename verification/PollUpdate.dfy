/** The bounded retry loop every write runs in, and the update closures that run inside it
    (pkg/signup/signup.go and the closures of both services). */
module PollUpdate {
  import opened Text
  import opened Decimal
  import opened UserSignups
  import opened SocialEvents
  import opened Verification
  import opened Audit

  /** A closure: what it overlays, whose activation attempt it records, or whose claims it audits. */
  datatype Updater =
    | Overlay(write: Write)
    | Activation
    | AuditClaims(token: Claims)

  /** The variables a closure shares with its caller. They outlive a failed attempt. */
  datatype Locals = Locals(attemptsMade: int, errToReturn: Option<Error>, read: Option<UserSignup>)

  /** What one attempt meets: failing calls, and the event the activation code leads to. */
  datatype Conditions = Conditions(getFails: bool, updateFails: bool, event: Result<SocialEvent, Error>)

  /** The object after an attempt, the closure's variables, and whether the attempt failed. */
  datatype Tried = Tried(stored: Option<UserSignup>, locals: Locals, failed: bool)

  function WithAttempts(s: UserSignup, attempts: int): UserSignup {
    s.(annotations := s.annotations[Attempts := Itoa(attempts)])
  }

  function WithoutAttempts(s: UserSignup): UserSignup {
    s.(annotations := s.annotations - {Attempts})
  }

  /** What a closure makes of the object it has read. */
  function Draft(w: World, u: Updater, s: UserSignup, locals: Locals, c: Conditions): (UserSignup, Locals) {
    match u
    case Overlay(write) => (Applied(write, s), locals)
    case AuditClaims(token) =>
      var t := Audited(w, token, s);
      (t, locals.(read := Some(t)))
    case Activation =>
      if c.event.Err? then
        (WithAttempts(s, locals.attemptsMade + 1),
         locals.(attemptsMade := locals.attemptsMade + 1, errToReturn := Some(c.event.error)))
      else (WithoutAttempts(WithSocialEvent(w, c.event.value, s)), locals)
  }

  predicate NothingToWrite(w: World, u: Updater, s: UserSignup) {
    u.AuditClaims? && !NeedsUpdate(w, u.token, s)
  }

  function Attempt(w: World, u: Updater, stored: Option<UserSignup>, locals: Locals, c: Conditions): Tried {
    if c.getFails then Tried(stored, locals, true)
    else if stored.None? then Tried(stored, locals, !u.AuditClaims?)
    else
      var (draft, after) := Draft(w, u, stored.value, locals, c);
      if NothingToWrite(w, u, stored.value) then Tried(stored, after, false)
      else if c.updateFails then Tried(stored, after, true)
      else Tried(Some(draft), after, false)
  }

  const MAX_ATTEMPTS: nat := 5

  /** The attempts from number `k` on, until one succeeds or the last has failed. */
  function Polled(w: World, u: Updater, stored: Option<UserSignup>, locals: Locals, env: nat -> Conditions,
                  k: nat): Tried
    requires k < MAX_ATTEMPTS
    decreases MAX_ATTEMPTS - k
  {
    var t := Attempt(w, u, stored, locals, env(k));
    if !t.failed || k + 1 == MAX_ATTEMPTS then t
    else Polled(w, u, t.stored, t.locals, env, k + 1)
  }

  method RunUpdater(host: Host, name: string, w: World, u: Updater, locals: Locals, c: Conditions)
    returns (failed: bool, after: Locals)
    requires w.Lawful()
    modifies host`signups
    ensures var t := Attempt(w, u, ObjectAt(old(host.signups), name), locals, c);
            failed == t.failed && after == t.locals
            && host.signups == WithObject(old(host.signups), name, t.stored)
            && ObjectAt(host.signups, name) == t.stored
  {
    after := locals;
    if c.getFails {
      return true, after;
    }
    if name !in host.signups {
      return !u.AuditClaims?, after;
    }
    var signup := new Resource(host.signups[name]);
    ghost var before := host.signups[name];
    match u {
      case Overlay(write) =>
        signup.labels := signup.labels + write.labels;
        if write.unsetVerificationRequired {
          signup.SetVerificationRequired(false);
        }
        signup.annotations := signup.annotations + write.annotations;
        signup.annotations := signup.annotations - write.deletions;
        if write.reject {
          signup.SetRejected();
        }
      case Activation =>
        if c.event.Err? {
          after := after.(attemptsMade := after.attemptsMade + 1);
          signup.annotations := signup.annotations[Attempts := Itoa(after.attemptsMade)];
          after := after.(errToReturn := Some(c.event.error));
        } else {
          UpdateUserSignupWithSocialEvent(w, c.event.value, signup);
          signup.annotations := signup.annotations - {Attempts};
        }
      case AuditClaims(token) =>
        var updated := AuditUserSignupAgainstClaims(w, token, signup);
        after := after.(read := Some(signup.Value()));
        if !updated {
          assert host.signups == WithObject(old(host.signups), name, Some(before));
          return false, after;
        }
    }
    assert signup.Value() == Draft(w, u, before, locals, c).0;
    if c.updateFails {
      return true, after;
    }
    host.signups := host.signups[name := signup.Value()];
    return false, after;
  }

  lemma WithObjectTwice(signups: map<string, UserSignup>, name: string, a: Option<UserSignup>, b: Option<UserSignup>)
    requires a.Some? ==> b.Some?
    ensures WithObject(WithObject(signups, name, a), name, b) == WithObject(signups, name, b)
  {
  }

  lemma AttemptKeepsTheObject(w: World, u: Updater, stored: Option<UserSignup>, locals: Locals, c: Conditions)
    ensures stored.Some? <==> Attempt(w, u, stored, locals, c).stored.Some?
  {
  }

  method PollUpdateSignup(host: Host, name: string, w: World, u: Updater, locals: Locals, env: nat -> Conditions)
    returns (ok: bool, after: Locals)
    requires w.Lawful()
    modifies host`signups
    ensures var t := Polled(w, u, ObjectAt(old(host.signups), name), locals, env, 0);
            ok == !t.failed && after == t.locals
            && host.signups == WithObject(old(host.signups), name, t.stored)
  {
    var attempts := 0;
    after := locals;
    ghost var before := host.signups;
    ghost var stored := ObjectAt(before, name);
    ghost var result := Polled(w, u, stored, locals, env, 0);
    while true
      invariant 0 <= attempts < MAX_ATTEMPTS
      invariant host.signups == WithObject(before, name, stored)
      invariant stored == ObjectAt(host.signups, name)
      invariant Polled(w, u, stored, after, env, attempts) == result
      decreases MAX_ATTEMPTS - attempts
    {
      ghost var t := Attempt(w, u, stored, after, env(attempts));
      AttemptKeepsTheObject(w, u, stored, after, env(attempts));
      WithObjectTwice(before, name, stored, t.stored);
      attempts := attempts + 1;
      var failed;
      failed, after := RunUpdater(host, name, w, u, after, env(attempts - 1));
      stored := t.stored;
      if !failed {
        return true, after;
      }
      if attempts > 4 {
        return false, after;
      }
    }
  }

  // ----- what polling does to the stored object -----

  predicate Works(c: Conditions) {
    !c.getFails && !c.updateFails
  }

  /** An attempt that leaves the object as it was is a failed one, or one with nothing to write. */
  lemma FailedAttemptChangesNothing(w: World, u: Updater, stored: Option<UserSignup>, locals: Locals, c: Conditions)
    ensures Attempt(w, u, stored, locals, c).failed ==> Attempt(w, u, stored, locals, c).stored == stored
    ensures stored.Some? ==> (Attempt(w, u, stored, locals, c).failed <==>
              c.getFails || (c.updateFails && !NothingToWrite(w, u, stored.value)))
    ensures stored.None? ==>
              && Attempt(w, u, stored, locals, c).stored.None? && Attempt(w, u, stored, locals, c).locals == locals
              && (Attempt(w, u, stored, locals, c).failed <==> c.getFails || !u.AuditClaims?)
  {
  }

  /** The attempt that ends the loop with a write, if one does. */
  function EndsAt(env: nat -> Conditions, k: nat): (end: Option<nat>)
    requires k < MAX_ATTEMPTS
    ensures end.Some? ==> k <= end.value < MAX_ATTEMPTS && Works(env(end.value))
    decreases MAX_ATTEMPTS - k
  {
    if Works(env(k)) then Some(k)
    else if k + 1 == MAX_ATTEMPTS then None
    else EndsAt(env, k + 1)
  }

  /** It is the first attempt whose calls both succeed. */
  lemma {:induction false} EndsAtTheFirst(env: nat -> Conditions, k: nat)
    requires k < MAX_ATTEMPTS
    ensures EndsAt(env, k).None? <==> forall i :: k <= i < MAX_ATTEMPTS ==> !Works(env(i))
    ensures EndsAt(env, k).Some? ==> forall i :: k <= i < EndsAt(env, k).value ==> !Works(env(i))
    decreases MAX_ATTEMPTS - k
  {
    if !Works(env(k)) && k + 1 < MAX_ATTEMPTS {
      EndsAtTheFirst(env, k + 1);
    }
  }

  /** An overlay is written at most once however many attempts it takes, and it is written exactly when
      one of the five attempts works. */
  lemma {:induction false} OverlayIsWrittenOnce(w: World, write: Write, s: UserSignup, locals: Locals,
                                                env: nat -> Conditions, k: nat)
    requires k < MAX_ATTEMPTS
    ensures var t := Polled(w, Overlay(write), Some(s), locals, env, k);
            && (!t.failed <==> EndsAt(env, k).Some?)
            && t.stored == Some(if t.failed then s else Applied(write, s))
    decreases MAX_ATTEMPTS - k
  {
    if !Works(env(k)) && k + 1 < MAX_ATTEMPTS {
      OverlayIsWrittenOnce(w, write, s, locals, env, k + 1);
    }
  }

  // ----- what recording an activation attempt leads to -----

  /** The attempt reads the object and finds the code invalid, whether or not its write succeeds. */
  predicate FindsInvalid(c: Conditions) {
    !c.getFails && c.event.Err?
  }

  /** The attempts from `k` on that find the code invalid, up to the one that ends the loop. */
  function InvalidTries(env: nat -> Conditions, k: nat): (n: nat)
    requires k < MAX_ATTEMPTS
    ensures n <= MAX_ATTEMPTS - k
    decreases MAX_ATTEMPTS - k
  {
    (if FindsInvalid(env(k)) then 1 else 0)
    + if Works(env(k)) || k + 1 == MAX_ATTEMPTS then 0 else InvalidTries(env, k + 1)
  }

  /** The try that ends the loop is one of them if it finds the code invalid. */
  lemma {:induction false} EndingTryCounts(env: nat -> Conditions, k: nat)
    requires k < MAX_ATTEMPTS && EndsAt(env, k).Some? && env(EndsAt(env, k).value).event.Err?
    ensures InvalidTries(env, k) >= 1
    decreases MAX_ATTEMPTS - k
  {
    if !Works(env(k)) {
      EndingTryCounts(env, k + 1);
    }
  }

  lemma ActivationAttempt(w: World, s: UserSignup, locals: Locals, c: Conditions)
    ensures var t := Attempt(w, Activation, Some(s), locals, c);
            && (t.failed <==> !Works(c)) && (t.failed ==> t.stored == Some(s))
            && t.locals.attemptsMade == locals.attemptsMade + (if FindsInvalid(c) then 1 else 0)
            && (t.locals.errToReturn.Some? <==> locals.errToReturn.Some? || FindsInvalid(c))
            && (!t.failed ==> t.stored == Some(ActivationResult(w, s, t.locals.attemptsMade, c)))
  {
  }

  /** What the try that ends the loop writes, after `made` attempts. */
  function ActivationResult(w: World, s: UserSignup, made: int, ending: Conditions): UserSignup {
    if ending.event.Err? then WithAttempts(s, made) else WithoutAttempts(WithSocialEvent(w, ending.event.value, s))
  }

  lemma ResultAttempts(w: World, s: UserSignup, made: int, ending: Conditions)
    ensures var t := ActivationResult(w, s, made, ending);
            && (Attempts in t.annotations <==> ending.event.Err?)
            && (ending.event.Err? ==> t.annotations[Attempts] == Itoa(made))
            && (forall key :: key != Attempts ==> t.SameAnnotation(s, key))
            && (ending.event.Err? ==> t == s.(annotations := t.annotations))
  {
  }

  /** The shared counter rises by the number of tries that find the code invalid. The try that ends the
      loop writes the counter if it finds the code invalid too, and else applies its event; without such
      a try nothing is written. An answer is pending exactly when some try found the code invalid. */
  lemma {:induction false} ActivationIsCounted(w: World, s: UserSignup, locals: Locals, env: nat -> Conditions, k: nat)
    requires k < MAX_ATTEMPTS
    ensures var t := Polled(w, Activation, Some(s), locals, env, k);
            var made := locals.attemptsMade + InvalidTries(env, k);
            var end := EndsAt(env, k);
            && t.locals.attemptsMade == made && (t.failed <==> end.None?)
            && t.stored == Some(if end.None? then s else ActivationResult(w, s, made, env(end.value)))
            && (t.locals.errToReturn.Some? <==> locals.errToReturn.Some? || InvalidTries(env, k) > 0)
    decreases MAX_ATTEMPTS - k
  {
    ActivationAttempt(w, s, locals, env(k));
    if !Works(env(k)) && k + 1 < MAX_ATTEMPTS {
      ActivationIsCounted(w, s, Attempt(w, Activation, Some(s), locals, env(k)).locals, env, k + 1);
    }
  }

  /** The tries before number `i` have all failed. */
  predicate Reached(env: nat -> Conditions, k: nat, i: nat) {
    forall j :: k <= j < i ==> !Works(env(j))
  }

  /** Try `i` is the last of those made that finds the code invalid. */
  predicate LastInvalid(env: nat -> Conditions, k: nat, i: nat) {
    && k <= i < MAX_ATTEMPTS && Reached(env, k, i) && FindsInvalid(env(i))
    && forall j :: i < j < MAX_ATTEMPTS && Reached(env, k, j) ==> !FindsInvalid(env(j))
  }

  /** The pending answer is the complaint of the last try that found the code invalid, or the one from before. */
  lemma {:induction false} AnswerIsTheLastComplaint(w: World, s: UserSignup, locals: Locals, env: nat -> Conditions,
                                                    k: nat)
    requires k < MAX_ATTEMPTS
    ensures var pending := Polled(w, Activation, Some(s), locals, env, k).locals.errToReturn;
            if InvalidTries(env, k) == 0 then pending == locals.errToReturn
            else exists i :: LastInvalid(env, k, i) && pending == Some(env(i).event.error)
    decreases MAX_ATTEMPTS - k
  {
    var t := Attempt(w, Activation, Some(s), locals, env(k));
    if Works(env(k)) || k + 1 == MAX_ATTEMPTS {
      assert FindsInvalid(env(k)) ==> LastInvalid(env, k, k);
    } else {
      AnswerIsTheLastComplaint(w, s, t.locals, env, k + 1);
      ActivationAttempt(w, s, locals, env(k));
      if InvalidTries(env, k + 1) == 0 {
        NoneInvalid(env, k + 1);
        assert FindsInvalid(env(k)) ==> LastInvalid(env, k, k);
      } else {
        var i :| LastInvalid(env, k + 1, i)
                 && Polled(w, Activation, Some(s), t.locals, env, k + 1).locals.errToReturn
                    == Some(env(i).event.error);
        assert LastInvalid(env, k, i);
      }
    }
  }

  lemma {:induction false} NoneInvalid(env: nat -> Conditions, k: nat)
    requires k < MAX_ATTEMPTS && InvalidTries(env, k) == 0
    ensures forall j :: k <= j < MAX_ATTEMPTS && Reached(env, k, j) ==> !FindsInvalid(env(j))
    decreases MAX_ATTEMPTS - k
  {
    if !Works(env(k)) && k + 1 < MAX_ATTEMPTS {
      NoneInvalid(env, k + 1);
    }
  }

  /** A wrong code that is recorded is recorded as one attempt exactly when one try alone found it invalid. */
  lemma {:induction false} WrongCodeCountsOnceExactly(w: World, s: UserSignup, read: int, env: nat -> Conditions)
    requires MIN_INT <= read <= MAX_INT - 5
    requires EndsAt(env, 0).Some? && env(EndsAt(env, 0).value).event.Err?
    ensures Polled(w, Activation, Some(s), Locals(read, None, None), env, 0).stored == Some(WithAttempts(s, read + 1))
       <==> InvalidTries(env, 0) == 1
  {
    ActivationIsCounted(w, s, Locals(read, None, None), env, 0);
    DifferentCounts(s, read + 1, read + InvalidTries(env, 0));
  }

  lemma DifferentCounts(s: UserSignup, m: int, n: int)
    requires MIN_INT <= m <= MAX_INT && MIN_INT <= n <= MAX_INT
    ensures WithAttempts(s, m) == WithAttempts(s, n) <==> m == n
  {
    AtoiOfItoa(m);
    AtoiOfItoa(n);
    assert WithAttempts(s, m).annotations[Attempts] == Itoa(m) && WithAttempts(s, n).annotations[Attempts] == Itoa(n);
  }

  /** Four writes that fail and a fifth that succeeds: one wrong code is recorded as five attempts. */
  lemma OneCodeCanCountFive(w: World, s: UserSignup, read: int, problem: Error)
    ensures exists env: nat -> Conditions ::
      && (forall k :: env(k).event == Err(problem))
      && Polled(w, Activation, Some(s), Locals(read, None, None), env, 0).stored == Some(WithAttempts(s, read + 5))
  {
    var env: nat -> Conditions := k => Conditions(false, k < 4, Err(problem));
    ActivationIsCounted(w, s, Locals(read, None, None), env, 0);
    assert EndsAt(env, 4) == EndsAt(env, 3) == EndsAt(env, 2) == EndsAt(env, 1) == EndsAt(env, 0) == Some(4);
    assert InvalidTries(env, 4) == 1 && InvalidTries(env, 3) == 2 && InvalidTries(env, 2) == 3;
    assert InvalidTries(env, 1) == 4 && InvalidTries(env, 0) == 5;
  }

  /** The loop has approved the user: it wrote, and removed the counter. */
  predicate Approved(t: Tried) {
    !t.failed && t.stored.Some? && Attempts !in t.stored.value.annotations
  }

  lemma ResultOfLookup(w: World, s: UserSignup, made: int, ending: Conditions, lookup: EventLookup, now: int)
    requires ending.event == ValidatedEvent(lookup, now)
    ensures var t := ActivationResult(w, s, made, ending);
            && (Attempts !in t.annotations <==> Usable(lookup, now))
            && (Usable(lookup, now) ==> t == WithoutAttempts(WithSocialEvent(w, lookup.event, s)))
  {
    ValidatedExactly(lookup, now);
    ResultAttempts(w, s, made, ending);
  }

  /** `t` is what the retry loop leads to, `lookup` and `now` what the try that ends it looks up, and when. A
      code approves the user exactly when a try gets through and the event had room and was under way at
      that very try; the earlier tries do not matter for it. */
  lemma {:induction false} ApprovedByAUsableEvent(w: World, s: UserSignup, read: int, env: nat -> Conditions,
                                                  lookup: EventLookup, now: int, t: Tried)
    requires t == Polled(w, Activation, Some(s), Locals(read, None, None), env, 0)
    requires EndsAt(env, 0).Some? ==> env(EndsAt(env, 0).value).event == ValidatedEvent(lookup, now)
    ensures Approved(t) <==> EndsAt(env, 0).Some? && Usable(lookup, now)
    ensures Approved(t) ==> t.stored == Some(WithoutAttempts(WithSocialEvent(w, lookup.event, s)))
  {
    ActivationIsCounted(w, s, Locals(read, None, None), env, 0);
    var end := EndsAt(env, 0);
    if end.Some? {
      ResultOfLookup(w, s, read + InvalidTries(env, 0), env(end.value), lookup, now);
    }
  }

  /** Auditing writes the audited resource, whenever it writes. */
  lemma {:induction false} AuditIsWrittenOnce(w: World, token: Claims, s: UserSignup, locals: Locals,
                                              env: nat -> Conditions, k: nat)
    requires w.Lawful() && k < MAX_ATTEMPTS
    ensures var t := Polled(w, AuditClaims(token), Some(s), locals, env, k);
            && t.stored == Some(if t.failed then s else Audited(w, token, s))
            && (!t.failed ==> t.locals.read == Some(Audited(w, token, s)))
    decreases MAX_ATTEMPTS - k
  {
    FlagSaysChanged(w, token, s);
    var t := Attempt(w, AuditClaims(token), Some(s), locals, env(k));
    if t.failed && k + 1 < MAX_ATTEMPTS {
      AuditIsWrittenOnce(w, token, s, t.locals, env, k + 1);
    }
  }

  /** The audit fails only if no try could write, and what it has to write is then missing. */
  lemma {:induction false} AuditEnds(w: World, token: Claims, s: UserSignup, locals: Locals, env: nat -> Conditions,
                                     k: nat)
    requires w.Lawful() && k < MAX_ATTEMPTS
    ensures var t := Polled(w, AuditClaims(token), Some(s), locals, env, k);
            && (EndsAt(env, k).Some? ==> !t.failed)
            && (EndsAt(env, k).None? && !t.failed ==> Audited(w, token, s) == s)
    decreases MAX_ATTEMPTS - k
  {
    FlagSaysChanged(w, token, s);
    var t := Attempt(w, AuditClaims(token), Some(s), locals, env(k));
    if t.failed && k + 1 < MAX_ATTEMPTS {
      AuditEnds(w, token, s, t.locals, env, k + 1);
    }
  }
}
