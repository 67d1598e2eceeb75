/** How many messages a user can have sent: the daily limit per window, twice the limit in any 24 hours. */
module SendRate {
  import opened Text
  import opened Decimal
  import opened UserSignups
  import opened Verification
  import opened Runs
  import opened StepEffects
  import SignupService

  /** The recorded messages whose window opened at `window`. */
  function SendsIn(log: seq<Event>, window: int): nat {
    if log == [] then 0
    else
      var e := log[|log| - 1];
      SendsIn(log[..|log| - 1], window) + if e.kind.Sent? && e.window == Some(window) then 1 else 0
  }

  predicate SentWithin(e: Event, lo: int, hi: int) {
    e.kind.Sent? && lo <= e.time <= hi
  }

  /** The messages recorded at `lo` or later and at `hi` or earlier. */
  function SendsBetween(log: seq<Event>, lo: int, hi: int): nat {
    if log == [] then 0
    else SendsBetween(log[..|log| - 1], lo, hi) + if SentWithin(log[|log| - 1], lo, hi) then 1 else 0
  }

  /** The messages recorded in the 24 hours from `lo` on. */
  function SendsInDay(log: seq<Event>, lo: int): nat {
    SendsBetween(log, lo, lo + DAY)
  }

  function Cap(limit: int): nat {
    if limit < 0 then 0 else limit
  }

  /** `f` was logged in a window that was over before `window` opened, and `f` happened before that. */
  predicate EndedBefore(f: Event, window: int) {
    f.window.Some? && f.window.value + DAY < window && f.time <= window
  }

  /** The windows of the log, whether or not they hold a message: each is the one before, or it opened more
      than a day after the one before did. */
  predicate Paced(log: seq<Event>) {
    forall i, j :: 0 <= i < j < |log| && log[i].window.Some? && log[j].window.Some? ==>
      log[i].window == log[j].window || EndedBefore(log[i], log[j].window.value)
  }

  /** Every message falls into its window. */
  predicate InWindow(log: seq<Event>) {
    forall i :: 0 <= i < |log| && log[i].kind.Sent? ==>
      log[i].window.Some? && log[i].window.value <= log[i].time <= log[i].window.value + DAY
  }

  ghost predicate WithinLimit(log: seq<Event>, limit: int) {
    forall window :: SendsIn(log, window) <= Cap(limit)
  }

  predicate NoWindowYet(log: seq<Event>) {
    forall i :: 0 <= i < |log| ==> log[i].window.None?
  }

  /** Every logged window is the current one or ended before it. */
  predicate Current(log: seq<Event>, window: int) {
    forall i :: 0 <= i < |log| && log[i].window.Some? ==> log[i].window.value == window || EndedBefore(log[i], window)
  }

  /** The annotations say which window is open and, while the user has to verify, what it has used. */
  predicate WindowKept(w: World, s: UserSignup, log: seq<Event>, now: int) {
    match Window(w, s)
    case None =>
      VerificationRequired in s.flags ==> s.Annotation(SendCounter) == "0" && NoWindowYet(log)
    case Some(window) =>
      && window <= now && Current(log, window)
      && (VerificationRequired in s.flags ==> s.Annotation(SendCounter) == Itoa(SendsIn(log, window)))
  }

  ghost predicate Kept(w: World, cfg: Config, s: UserSignup, log: seq<Event>, now: int) {
    && Paced(log) && InWindow(log) && WithinLimit(log, cfg.dailyLimit)
    && (forall i :: 0 <= i < |log| ==> log[i].time <= now)
    && WindowKept(w, s, log, now)
  }

  ghost predicate Invariant(w: World, cfg: Config, s: Option<UserSignup>, log: seq<Event>, now: int) {
    if s.Some? then Kept(w, cfg, s.value, log, now)
    else BeforeCreation(log) && forall i :: 0 <= i < |log| ==> log[i].time <= now
  }

  lemma {:induction false} NoSendsIn(log: seq<Event>, window: int)
    requires forall i :: 0 <= i < |log| && log[i].kind.Sent? ==> log[i].window != Some(window)
    ensures SendsIn(log, window) == 0
  {
    if log != [] {
      NoSendsIn(log[..|log| - 1], window);
    }
  }

  lemma {:induction false} SendsAppend(log: seq<Event>, e: Event, window: int)
    ensures SendsIn(log + [e], window)
         == SendsIn(log, window) + if e.kind.Sent? && e.window == Some(window) then 1 else 0
  {
    assert (log + [e])[..|log|] == log;
  }

  lemma {:induction false} CounterReads(w: World, cfg: Config, s: UserSignup, log: seq<Event>, now: int)
    requires w.Lawful() && cfg.Valid() && Kept(w, cfg, s, log, now) && VerificationRequired in s.flags
    ensures !CounterUnreadable(s)
    ensures Window(w, s).Some? ==> StoredCounter(cfg, s) == SendsIn(log, Window(w, s).value)
  {
    if Window(w, s).Some? {
      var c := SendsIn(log, Window(w, s).value);
      assert c <= Cap(cfg.dailyLimit);
      AtoiOfItoa(c);
    } else {
      AtoiOfItoa(0);
      assert Itoa(0) == "0";
    }
  }

  /** A window that opens now holds no earlier message, and every logged window ended before it. */
  lemma {:induction false} NewWindowIsEmpty(w: World, cfg: Config, s: UserSignup, log: seq<Event>, before: int,
                                            now: int)
    requires w.Lawful() && Kept(w, cfg, s, log, before) && VerificationRequired in s.flags
    requires before <= now && WindowOver(w, s, now)
    ensures SendsIn(log, now) == 0 && Itoa(0) == "0"
    ensures forall i :: 0 <= i < |log| && log[i].window.Some? ==> EndedBefore(log[i], now)
    ensures Current(log, now)
  {
    forall i | 0 <= i < |log| && log[i].window.Some? ensures EndedBefore(log[i], now) {
      assert log[i].time <= before;
      assert Window(w, s).Some?;
      assert log[i].window == Window(w, s) || EndedBefore(log[i], Window(w, s).value);
    }
    NoSendsIn(log, now);
  }

  /** Appending an event of the current window, or of none. */
  lemma PacedAppend(log: seq<Event>, e: Event)
    requires Paced(log) && (e.window.Some? ==> Current(log, e.window.value))
    ensures Paced(log + [e])
    ensures e.window.Some? ==> Current(log + [e], e.window.value)
  {
    var more := log + [e];
    forall i, j | 0 <= i < j < |more| && more[i].window.Some? && more[j].window.Some?
      ensures more[i].window == more[j].window || EndedBefore(more[i], more[j].window.value)
    {
      if j == |log| {
        assert more[i] == log[i];
      }
    }
  }

  /** A step that records no message keeps the invariant if it leaves the window alone, clears it with
      the need to verify, or opens a new one after the old one is over. */
  lemma QuietStep(w: World, cfg: Config, s: UserSignup, t: UserSignup, log: seq<Event>, before: int, e: Event)
    requires w.Lawful() && cfg.Valid() && Kept(w, cfg, s, log, before)
    requires !e.kind.Sent? && before <= e.time && e.window == Window(w, t)
    requires VerificationRequired in t.flags ==> VerificationRequired in s.flags
    requires || (VerificationRequired in s.flags && QuietWindow(w, s, t, e.time))
             || (VerificationRequired !in t.flags && Window(w, t).None?)
             || SameKeys(t, s, {SendCounter, InitTimestamp})
    ensures Kept(w, cfg, t, log + [e], e.time)
  {
    forall window ensures SendsIn(log + [e], window) == SendsIn(log, window) {
      SendsAppend(log, e, window);
    }
    if VerificationRequired in s.flags {
      CounterReads(w, cfg, s, log, before);
    }
    if SameKeys(t, s, {SendCounter, InitTimestamp}) {
      assert t.SameAnnotation(s, SendCounter) && t.SameAnnotation(s, InitTimestamp);
      assert Window(w, t) == Window(w, s);
    } else if Window(w, t).Some? {
      assert Window(w, t) == Some(e.time);
      NewWindowIsEmpty(w, cfg, s, log, before, e.time);
    }
    PacedAppend(log, e);
  }

  /** The window a message is recorded in, with what it held before. */
  predicate SentInto(cfg: Config, t: UserSignup, log: seq<Event>, e: Event, window: int) {
    && window <= e.time <= window + DAY && Current(log, window)
    && SendsIn(log, window) < cfg.dailyLimit && t.Annotation(SendCounter) == Itoa(SendsIn(log, window) + 1)
  }

  lemma SentWindow(w: World, cfg: Config, s: UserSignup, t: UserSignup, log: seq<Event>, before: int, e: Event)
    returns (window: int)
    requires w.Lawful() && cfg.Valid() && Kept(w, cfg, s, log, before)
    requires e.kind.Sent? && before <= e.time && VerificationRequired in s.flags
    requires RecordedMessage(w, cfg, s, t, e.kind.code, e.time)
    ensures Window(w, t) == Some(window) && SentInto(cfg, t, log, e, window)
  {
    CounterReads(w, cfg, s, log, before);
    if WindowOver(w, s, e.time) {
      window := e.time;
      NewWindowIsEmpty(w, cfg, s, log, before, e.time);
    } else {
      window := Window(w, s).value;
      assert Window(w, t) == Window(w, s);
    }
  }

  /** Recording a message keeps the invariant. */
  lemma SentStep(w: World, cfg: Config, s: UserSignup, t: UserSignup, log: seq<Event>, before: int, e: Event)
    requires w.Lawful() && cfg.Valid() && Kept(w, cfg, s, log, before)
    requires e.kind.Sent? && before <= e.time && e.window == Window(w, t)
    requires VerificationRequired in s.flags
    requires RecordedMessage(w, cfg, s, t, e.kind.code, e.time)
    ensures Kept(w, cfg, t, log + [e], e.time)
  {
    var window := SentWindow(w, cfg, s, t, log, before, e);
    LimitAfterSend(cfg, t, log, e, window);
    SendsAppend(log, e, window);
    PacedAppend(log, e);
  }

  lemma LimitAfterSend(cfg: Config, t: UserSignup, log: seq<Event>, e: Event, window: int)
    requires WithinLimit(log, cfg.dailyLimit) && e.window == Some(window) && SentInto(cfg, t, log, e, window)
    ensures WithinLimit(log + [e], cfg.dailyLimit)
  {
    forall other ensures SendsIn(log + [e], other) <= Cap(cfg.dailyLimit) {
      SendsAppend(log, e, other);
    }
  }

  lemma StepKeepsInvariant(w: World, cfg: Config, s: UserSignup, log: seq<Event>, before: int, step: Step)
    requires w.Lawful() && cfg.Valid() && Kept(w, cfg, s, log, before) && before <= step.Time()
    requires !After(w, cfg, s, step).1.Reactivation?
    ensures var (t, kind) := After(w, cfg, s, step);
            Kept(w, cfg, t, log + [EventOf(w, step, Some(t), kind)], step.Time())
  {
    var (t, kind) := After(w, cfg, s, step);
    var e := EventOf(w, step, Some(t), kind);
    WindowEffect(w, cfg, s, step);
    if kind.Sent? {
      SentStep(w, cfg, s, t, log, before, e);
    } else {
      QuietStep(w, cfg, s, t, log, before, e);
    }
  }

  /** What a step without reactivation does to the window. */
  lemma WindowEffect(w: World, cfg: Config, s: UserSignup, step: Step)
    requires w.Lawful() && !After(w, cfg, s, step).1.Reactivation?
    ensures var (t, kind) := After(w, cfg, s, step);
            if kind.Sent? then VerificationRequired in s.flags && RecordedMessage(w, cfg, s, t, kind.code, step.Time())
            else
              && (VerificationRequired in t.flags ==> VerificationRequired in s.flags)
              && (|| (VerificationRequired in s.flags && QuietWindow(w, s, t, step.Time()))
                  || (VerificationRequired !in t.flags && Window(w, t).None?)
                  || SameKeys(t, s, {SendCounter, InitTimestamp}))
  {
    var (t, kind) := After(w, cfg, s, step);
    match step {
      case InitCall(init, env) => InitEffect(w, cfg, s, init, env);
      case PhoneCall(phone, env) =>
        PhoneEffect(w, cfg, s, phone, env);
        assert !kind.PhoneAccepted? ==> t.SameAnnotation(s, SendCounter) && t.SameAnnotation(s, InitTimestamp);
      case ActivationCall(_, env, _) =>
        ActivationEffect(w, cfg, s, env);
        assert t.SameAnnotation(s, SendCounter) && t.SameAnnotation(s, InitTimestamp);
      case AuditCall(_, token, env) => AuditEffect(w, s, token, env);
      case SignupCall(_, _, _, _) => SignupEffect(w, s, step);
      case OthersWrite(_, change) =>
        OthersEffect(s, change);
        assert t.SameAnnotation(s, SendCounter) && t.SameAnnotation(s, InitTimestamp);
    }
  }

  /** An unused UserSignup, behind a log without messages or windows. */
  lemma UnusedKept(w: World, cfg: Config, s: UserSignup, log: seq<Event>, now: int)
    requires w.Lawful() && SignupService.Unused(s) && NoWindowYet(log)
    requires forall i :: 0 <= i < |log| ==> !log[i].kind.Sent? && log[i].time <= now
    ensures Kept(w, cfg, s, log, now)
  {
    assert Window(w, s).None?;
    forall window ensures SendsIn(log, window) <= Cap(cfg.dailyLimit) {
      NoSendsIn(log, window);
    }
  }

  lemma AbsentStep(w: World, cfg: Config, log: seq<Event>, before: int, step: Step)
    requires w.Lawful() && Invariant(w, cfg, None, log, before) && before <= step.Time()
    ensures var (t, kind) := AfterAbsent(w, step);
            Invariant(w, cfg, t, log + [EventOf(w, step, t, kind)], step.Time())
  {
    AbsentEffect(w, step);
    var (t, kind) := AfterAbsent(w, step);
    if t.Some? {
      assert Window(w, t.value).None?;
      UnusedKept(w, cfg, t.value, log + [EventOf(w, step, t, kind)], step.Time());
    }
  }

  predicate NoReactivation(log: seq<Event>) {
    forall i :: 0 <= i < |log| ==> !log[i].kind.Reactivation?
  }

  /** The log since the last reactivation. */
  function Since(log: seq<Event>): seq<Event> {
    if log == [] || log[|log| - 1].kind.Reactivation? then []
    else Since(log[..|log| - 1]) + [log[|log| - 1]]
  }

  lemma {:induction false} SinceAppend(log: seq<Event>, e: Event)
    ensures Since(log + [e]) == if e.kind.Reactivation? then [] else Since(log) + [e]
  {
    assert (log + [e])[..|log|] == log;
  }

  lemma {:induction false} NextKeepsInvariant(w: World, cfg: Config, st: State, before: int, step: Step)
    requires w.Lawful() && cfg.Valid() && Invariant(w, cfg, st.signup, Since(st.log), before) && before <= step.Time()
    ensures var after := Next(w, cfg, st, step); Invariant(w, cfg, after.signup, Since(after.log), step.Time())
  {
    if st.signup.None? {
      NextOfAbsent(w, cfg, st, before, step);
    } else {
      NextOfPresent(w, cfg, st, before, step);
    }
  }

  lemma {:induction false} NextOfAbsent(w: World, cfg: Config, st: State, before: int, step: Step)
    requires w.Lawful() && Invariant(w, cfg, None, Since(st.log), before) && before <= step.Time() && st.signup.None?
    ensures var after := Next(w, cfg, st, step); Invariant(w, cfg, after.signup, Since(after.log), step.Time())
  {
    AbsentEffect(w, step);
    var (t, kind) := AfterAbsent(w, step);
    var e := EventOf(w, step, t, kind);
    assert Next(w, cfg, st, step) == State(t, st.log + [e]);
    SinceAppend(st.log, e);
    AbsentStep(w, cfg, Since(st.log), before, step);
  }

  lemma {:induction false} NextOfPresent(w: World, cfg: Config, st: State, before: int, step: Step)
    requires w.Lawful() && cfg.Valid() && before <= step.Time() && st.signup.Some?
    requires Kept(w, cfg, st.signup.value, Since(st.log), before)
    ensures var after := Next(w, cfg, st, step); Invariant(w, cfg, after.signup, Since(after.log), step.Time())
  {
    var (t, kind) := After(w, cfg, st.signup.value, step);
    var e := EventOf(w, step, Some(t), kind);
    assert Next(w, cfg, st, step) == State(Some(t), st.log + [e]);
    SinceAppend(st.log, e);
    PresentStep(w, cfg, st.signup.value, Since(st.log), before, step);
  }

  lemma PresentStep(w: World, cfg: Config, s: UserSignup, since: seq<Event>, before: int, step: Step)
    requires w.Lawful() && cfg.Valid() && Kept(w, cfg, s, since, before) && before <= step.Time()
    ensures var (t, kind) := After(w, cfg, s, step);
            Kept(w, cfg, t, if kind.Reactivation? then [] else since + [EventOf(w, step, Some(t), kind)], step.Time())
  {
    var (t, kind) := After(w, cfg, s, step);
    if kind.Reactivation? {
      ReactivationEffect(w, cfg, s, step);
      UnusedKept(w, cfg, t, [], step.Time());
    } else {
      StepKeepsInvariant(w, cfg, s, since, before, step);
    }
  }

  lemma ReactivationEffect(w: World, cfg: Config, s: UserSignup, step: Step)
    requires w.Lawful() && After(w, cfg, s, step).1.Reactivation?
    ensures SignupService.Unused(After(w, cfg, s, step).0)
  {
    match step {
      case InitCall(init, env) => InitEffect(w, cfg, s, init, env);
      case PhoneCall(phone, env) => PhoneEffect(w, cfg, s, phone, env);
      case ActivationCall(_, env, _) => ActivationEffect(w, cfg, s, env);
      case AuditCall(_, _, _) =>
      case SignupCall(_, _, _, _) => SignupEffect(w, s, step);
      case OthersWrite(_, _) =>
    }
  }

  lemma {:induction false} RunKeepsInvariant(w: World, cfg: Config, start: Option<UserSignup>, steps: seq<Step>)
    returns (now: int)
    requires w.Lawful() && cfg.Valid() && Startable(start) && Clocked(steps)
    ensures var st := Run(w, cfg, start, steps); Invariant(w, cfg, st.signup, Since(st.log), now)
    ensures steps != [] ==> now == steps[|steps| - 1].Time()
  {
    if steps == [] {
      now := 0;
      if start.Some? {
        UnusedKept(w, cfg, start.value, [], now);
      }
    } else {
      var front, last := steps[..|steps| - 1], steps[|steps| - 1];
      var before := RunKeepsInvariant(w, cfg, start, front);
      if front == [] {
        before := last.Time();
        if start.Some? {
          UnusedKept(w, cfg, start.value, [], before);
        }
      }
      NextKeepsInvariant(w, cfg, Run(w, cfg, start, front), before, last);
      now := last.Time();
    }
  }

  // ----- stretches of the log without reactivation -----

  lemma {:induction false} SuffixOfSince(log: seq<Event>, i: nat) returns (k: nat)
    requires i <= |log| && NoReactivation(log[i..])
    ensures k <= |Since(log)| && Since(log)[k..] == log[i..]
    decreases |log|
  {
    if i == |log| {
      k := |Since(log)|;
    } else {
      var n := |log| - 1;
      assert log[i..][n - i] == log[n];
      assert log[..n][i..] == log[i..][..n - i];
      k := SuffixOfSince(log[..n], i);
      assert log[i..] == log[..n][i..] + [log[n]];
    }
  }

  lemma {:induction false} SendsOfSuffix(log: seq<Event>, k: nat, window: int)
    requires k <= |log|
    ensures SendsIn(log[k..], window) <= SendsIn(log, window)
    decreases |log|
  {
    if k < |log| {
      var n := |log| - 1;
      SendsOfSuffix(log[..n], k, window);
      assert log[k..][..n - k] == log[..n][k..] && log[k..][n - k] == log[n];
    }
  }

  lemma SuffixIsPaced(log: seq<Event>, k: nat, limit: int)
    requires k <= |log| && Paced(log) && InWindow(log) && WithinLimit(log, limit)
    ensures Paced(log[k..]) && InWindow(log[k..]) && WithinLimit(log[k..], limit)
  {
    forall window ensures SendsIn(log[k..], window) <= Cap(limit) {
      SendsOfSuffix(log, k, window);
    }
    SuffixKeepsPace(log, k);
  }

  lemma SuffixKeepsPace(log: seq<Event>, k: nat)
    requires k <= |log| && Paced(log) && InWindow(log)
    ensures Paced(log[k..]) && InWindow(log[k..])
  {
    var suffix := log[k..];
    forall i | 0 <= i < |suffix| ensures suffix[i] == log[k + i] {
    }
  }

  // ----- any 24 hours -----

  lemma {:induction false} TwoWindowsHoldThemAll(log: seq<Event>, lo: int, hi: int, a: int, b: int)
    requires forall i :: 0 <= i < |log| && SentWithin(log[i], lo, hi) ==> log[i].window in {Some(a), Some(b)}
    ensures SendsBetween(log, lo, hi) <= SendsIn(log, a) + SendsIn(log, b)
  {
    if log != [] {
      TwoWindowsHoldThemAll(log[..|log| - 1], lo, hi, a, b);
    }
  }

  lemma {:induction false} FirstAndLast(log: seq<Event>, lo: int, hi: int) returns (first: int, last: int)
    ensures first == -1 <==> SendsBetween(log, lo, hi) == 0
    ensures first == -1 ==> forall k :: 0 <= k < |log| ==> !SentWithin(log[k], lo, hi)
    ensures first != -1 ==>
      && 0 <= first <= last < |log| && SentWithin(log[first], lo, hi) && SentWithin(log[last], lo, hi)
      && forall k :: 0 <= k < |log| && SentWithin(log[k], lo, hi) ==> first <= k <= last
  {
    if log == [] {
      first, last := -1, -1;
    } else {
      var n := |log| - 1;
      first, last := FirstAndLast(log[..n], lo, hi);
      if SentWithin(log[n], lo, hi) {
        first, last := if first == -1 then n else first, n;
      }
    }
  }

  /** Of three events of one day in the order of the log, the middle one shares a window with another. */
  lemma TwoWindowsADay(f: Event, m: Event, l: Event, lo: int)
    requires SentWithin(f, lo, lo + DAY) && SentWithin(l, lo, lo + DAY)
    requires f.window.Some? && m.window.Some? && l.window.Some? && l.window.value <= l.time
    requires f.window == m.window || EndedBefore(f, m.window.value)
    requires m.window == l.window || EndedBefore(m, l.window.value)
    ensures m.window == f.window || m.window == l.window
  {
  }

  lemma AnyDay(log: seq<Event>, limit: int, lo: int)
    requires Paced(log) && InWindow(log) && WithinLimit(log, limit)
    ensures SendsInDay(log, lo) <= 2 * Cap(limit)
  {
    var first, last := FirstAndLast(log, lo, lo + DAY);
    if first != -1 {
      var a, b := log[first].window.value, log[last].window.value;
      forall k | 0 <= k < |log| && SentWithin(log[k], lo, lo + DAY)
        ensures log[k].window in {Some(a), Some(b)}
      {
        if first < k < last {
          TwoWindowsADay(log[first], log[k], log[last], lo);
        }
      }
      TwoWindowsHoldThemAll(log, lo, lo + DAY, a, b);
      assert SendsIn(log, a) <= Cap(limit) && SendsIn(log, b) <= Cap(limit);
    }
  }

  // ----- the bound -----

  /** Windows of the log that differ opened more than 24 hours apart, the later one later. */
  predicate DaysApart(log: seq<Event>) {
    forall i, j :: 0 <= i < j < |log| && log[i].window.Some? && log[j].window.Some? ==>
      log[i].window == log[j].window || log[i].window.value + DAY < log[j].window.value
  }

  /** The messages that went out in the 24 hours from `lo` on, whether or not their write worked. */
  function MessagesInDay(log: seq<Event>, lo: int): nat {
    if log == [] then 0
    else
      var e := log[|log| - 1];
      MessagesInDay(log[..|log| - 1], lo)
      + if (e.kind.Sent? || e.kind.Unrecorded?) && lo <= e.time <= lo + DAY then 1 else 0
  }

  /** The messages of the log whose write failed in every try. */
  function UnrecordedMessages(log: seq<Event>): nat {
    if log == [] then 0
    else UnrecordedMessages(log[..|log| - 1]) + if log[|log| - 1].kind.Unrecorded? then 1 else 0
  }

  lemma {:induction false} MessagesAreEither(log: seq<Event>, lo: int)
    ensures MessagesInDay(log, lo) <= SendsInDay(log, lo) + UnrecordedMessages(log)
  {
    if log != [] {
      MessagesAreEither(log[..|log| - 1], lo);
    }
  }

  /** In every run, from before the UserSignup exists or from an unused one, and in every stretch of it
      without reactivation: each window has at most the daily limit of recorded messages and every such
      message falls into its window; different windows, with messages or without, open more than 24 hours
      apart; and in any 24 hours at most twice the limit goes out, and one for each message whose write failed. */
  lemma {:induction false} SendRateIsBounded(w: World, cfg: Config, start: Option<UserSignup>, steps: seq<Step>,
                                             i: nat, j: nat)
    requires w.Lawful() && cfg.Valid() && Startable(start) && Clocked(steps)
    requires i <= j <= |steps| && NoReactivation(Run(w, cfg, start, steps).log[i..j])
    ensures var stretch := Run(w, cfg, start, steps).log[i..j];
            && (forall window :: SendsIn(stretch, window) <= Cap(cfg.dailyLimit))
            && InWindow(stretch) && DaysApart(stretch)
            && (forall lo :: MessagesInDay(stretch, lo) <= 2 * Cap(cfg.dailyLimit) + UnrecordedMessages(stretch))
  {
    StretchIsPaced(w, cfg, start, steps, i, j);
    BoundsOfPaced(Run(w, cfg, start, steps).log[i..j], cfg.dailyLimit);
  }

  lemma {:induction false} LogIsPaced(w: World, cfg: Config, start: Option<UserSignup>, steps: seq<Step>)
    requires w.Lawful() && cfg.Valid() && Startable(start) && Clocked(steps)
    ensures var log := Since(Run(w, cfg, start, steps).log);
            Paced(log) && InWindow(log) && WithinLimit(log, cfg.dailyLimit)
  {
    var now := RunKeepsInvariant(w, cfg, start, steps);
    var st := Run(w, cfg, start, steps);
    if st.signup.None? {
      forall window ensures SendsIn(Since(st.log), window) <= Cap(cfg.dailyLimit) {
        NoSendsIn(Since(st.log), window);
      }
    }
  }

  lemma {:induction false} StretchIsPaced(w: World, cfg: Config, start: Option<UserSignup>, steps: seq<Step>, i: nat,
                                          j: nat)
    requires w.Lawful() && cfg.Valid() && Startable(start) && Clocked(steps)
    requires i <= j <= |steps| && NoReactivation(Run(w, cfg, start, steps).log[i..j])
    ensures var stretch := Run(w, cfg, start, steps).log[i..j];
            Paced(stretch) && InWindow(stretch) && WithinLimit(stretch, cfg.dailyLimit)
  {
    var log := Run(w, cfg, start, steps).log;
    LogOfPrefix(w, cfg, start, steps, j);
    LogIsPaced(w, cfg, start, steps[..j]);
    assert log[..j][i..] == log[i..j];
    var k := SuffixOfSince(log[..j], i);
    SuffixIsPaced(Since(log[..j]), k, cfg.dailyLimit);
  }

  lemma {:induction false} BoundsOfPaced(log: seq<Event>, limit: int)
    requires Paced(log) && InWindow(log) && WithinLimit(log, limit)
    ensures forall window :: SendsIn(log, window) <= Cap(limit)
    ensures DaysApart(log)
    ensures forall lo :: MessagesInDay(log, lo) <= 2 * Cap(limit) + UnrecordedMessages(log)
  {
    forall lo ensures MessagesInDay(log, lo) <= 2 * Cap(limit) + UnrecordedMessages(log) {
      AnyDay(log, limit, lo);
      MessagesAreEither(log, lo);
    }
  }
}
