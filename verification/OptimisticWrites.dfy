/** Any number of requests at once on one UserSignup: each reads it, changes its copy and writes it back,
    and the API server refuses a copy that is no longer current. */
module OptimisticWrites {
  import opened Text
  import opened Decimal
  import opened UserSignups
  import opened SocialEvents
  import opened Verification
  import opened Audit
  import opened PollUpdate
  import SignupService

  /** What a committed closure does to the object it replaces. `CodeAsked` is the write a call for a code
      decided on what it read at version `checked`. `AttemptCounted` is a wrong phone or activation code of
      a request that read the counter `base` at that version and found the code invalid in `invalid` tries.
      `OthersWrote` is a write of another controller, which may change anything. */
  datatype Effect =
    | CodeAsked(checked: nat, inp: InitInputs, write: Write)
    | AnswerApplied(checked: nat, answer: PhoneInputs, write: Write)
    | AuditedWith(token: Claims)
    | AttemptCounted(checked: nat, base: int, invalid: nat)
    | EventApplied(event: SocialEvent)
    | ReactivatedAs(made: UserSignup)
    | OthersWrote(change: UserSignup)

  function Effected(w: World, e: Effect, s: UserSignup): UserSignup {
    match e
    case CodeAsked(_, _, write) => Applied(write, s)
    case AnswerApplied(_, _, write) => Applied(write, s)
    case AuditedWith(token) => Audited(w, token, s)
    case AttemptCounted(_, base, invalid) => WithAttempts(s, base + invalid)
    case EventApplied(event) => WithoutAttempts(WithSocialEvent(w, event, s))
    case ReactivatedAs(made) => SignupService.Reactivated(s, made)
    case OthersWrote(change) => change
  }

  /** The calls of the service. The first three read the UserSignup once before their retry loop; the
      closure then writes what they decided on that read. Reactivation writes in a single try. */
  datatype Request =
    | AskCode(inp: InitInputs)
    | AnswerCode(answer: PhoneInputs)
    | TryActivation
    | ReadSignup(token: Claims)
    | Reactivate(made: UserSignup)

  datatype Ending = Written | NothingToDo | Refused | GaveUp

  /** `Unchecked`: the request has not made its first read yet. `Holding`: it has a changed copy of the
      object as it was at a version. */
  datatype Phase =
    | Unchecked
    | Idle
    | Holding(version: nat, draft: UserSignup, effect: Effect)
    | Finished(ending: Ending)

  /** `task` is the closure, `attempts` counts the failed tries. A request keeps the version of its first
      read, the attempts counter it read, and the tries that found its code invalid. */
  datatype Client = Client(request: Request, task: Updater, locals: Locals, attempts: nat, phase: Phase,
                           checked: nat, base: int, invalid: nat)

  datatype Commit = Commit(author: Option<nat>, effect: Effect, before: UserSignup, after: UserSignup)

  datatype System = System(version: nat, signup: UserSignup, clients: seq<Client>, commits: seq<Commit>)

  /** One call of one request to the API server, or a write of another controller. `event` is the event
      behind the activation code, which the closure looks up on every try. */
  datatype Step =
    | Check(client: nat)
    | Read(client: nat, event: Result<SocialEvent, Error>)
    | ReadFails(client: nat)
    | Update(client: nat, fails: bool)
    | Others(change: UserSignup)

  const NO_WRITE: Write := Write(map[], map[], {}, false, false)
  const NO_LOCALS: Locals := Locals(0, None, None)

  function Task(write: Option<Write>): Option<(Updater, Locals)> {
    if write.None? then None else Some((Overlay(write.value), NO_LOCALS))
  }

  /** The closure a request runs and its variables, decided on the UserSignup as first read. */
  function FirstRead(w: World, cfg: Config, r: Request, s: UserSignup): Option<(Updater, Locals)> {
    match r
    case AskCode(inp) => Task(InitDecision(w, cfg, s, inp).write)
    case AnswerCode(inp) => Task(PhoneDecision(w, cfg, s, inp).write)
    case TryActivation =>
      var attempts := CheckedAttempts(cfg, s);
      if attempts.Err? then None else Some((Activation, Locals(attempts.value, None, None)))
    case ReadSignup(token) => Some((AuditClaims(token), NO_LOCALS))
    case Reactivate(_) => None
  }

  predicate ReadsFirst(r: Request) {
    r.AskCode? || r.AnswerCode? || r.TryActivation?
  }

  predicate AnswersWrongly(w: World, cfg: Config, r: Request, s: UserSignup) {
    r.AnswerCode? && PhoneDecision(w, cfg, s, r.answer).error == Some(CodeInvalid)
  }

  function AfterCheck(w: World, cfg: Config, c: Client, version: nat, s: UserSignup): Client {
    match FirstRead(w, cfg, c.request, s)
    case None => c.(phase := Finished(Refused))
    case Some((task, locals)) =>
      c.(phase := Idle, task := task, locals := locals, checked := version,
         base := if c.request.AnswerCode? then PhoneAttempts(cfg, s) else locals.attemptsMade,
         invalid := if AnswersWrongly(w, cfg, c.request, s) then 1 else 0)
  }

  function InvalidAfter(c: Client, event: Result<SocialEvent, Error>): nat {
    c.invalid + if c.request.TryActivation? && event.Err? then 1 else 0
  }

  function WriteOf(u: Updater): Write {
    if u.Overlay? then u.write else NO_WRITE
  }

  function EffectOf(c: Client, event: Result<SocialEvent, Error>): Effect {
    match c.request
    case AskCode(inp) => CodeAsked(c.checked, inp, WriteOf(c.task))
    case AnswerCode(inp) =>
      if c.invalid > 0 then AttemptCounted(c.checked, c.base, c.invalid)
      else AnswerApplied(c.checked, inp, WriteOf(c.task))
    case TryActivation =>
      if event.Err? then AttemptCounted(c.checked, c.base, InvalidAfter(c, event)) else EventApplied(event.value)
    case ReadSignup(token) => AuditedWith(token)
    case Reactivate(made) => ReactivatedAs(made)
  }

  function AfterFailure(c: Client): Client {
    c.(attempts := c.attempts + 1,
       phase := if c.request.Reactivate? || c.attempts + 1 >= MAX_ATTEMPTS then Finished(GaveUp) else Idle)
  }

  function AfterRead(w: World, c: Client, version: nat, s: UserSignup, event: Result<SocialEvent, Error>): Client {
    if c.request.Reactivate? then
      if Rejected in s.flags || !s.status.deactivated then c.(phase := Finished(GaveUp))
      else c.(phase := Holding(version, SignupService.Reactivated(s, c.request.made), EffectOf(c, event)))
    else
      var (draft, locals) := Draft(w, c.task, s, c.locals, Conditions(false, false, event));
      c.(locals := locals, invalid := InvalidAfter(c, event),
         phase := if NothingToWrite(w, c.task, s) then Finished(NothingToDo)
                  else Holding(version, draft, EffectOf(c, event)))
  }

  function WithClient(sys: System, c: nat, client: Client): System
    requires c < |sys.clients|
  {
    sys.(clients := sys.clients[c := client])
  }

  function Committed(sys: System, author: Option<nat>, effect: Effect, after: UserSignup): System {
    sys.(version := sys.version + 1, signup := after,
         commits := sys.commits + [Commit(author, effect, sys.signup, after)])
  }

  /** A step of a request that is not at that point, or does not exist, is no step. */
  function Next(w: World, cfg: Config, sys: System, step: Step): System {
    match step
    case Check(c) =>
      if c < |sys.clients| && sys.clients[c].phase.Unchecked? then
        WithClient(sys, c, AfterCheck(w, cfg, sys.clients[c], sys.version, sys.signup))
      else sys
    case Others(change) => Committed(sys, None, OthersWrote(change), change)
    case Read(c, event) =>
      if c < |sys.clients| && sys.clients[c].phase.Idle? then
        WithClient(sys, c, AfterRead(w, sys.clients[c], sys.version, sys.signup, event))
      else sys
    case ReadFails(c) =>
      if c < |sys.clients| && sys.clients[c].phase.Idle? then WithClient(sys, c, AfterFailure(sys.clients[c])) else sys
    case Update(c, fails) =>
      if c < |sys.clients| && sys.clients[c].phase.Holding? then
        var client := sys.clients[c];
        if fails || client.phase.version != sys.version then WithClient(sys, c, AfterFailure(client))
        else
          Committed(WithClient(sys, c, client.(phase := Finished(Written))),
                    Some(c), client.phase.effect, client.phase.draft)
      else sys
  }

  function Fresh(r: Request): Client {
    Client(r, if r.ReadSignup? then AuditClaims(r.token) else Overlay(NO_WRITE), NO_LOCALS, 0,
           if ReadsFirst(r) then Unchecked else Idle, 0, 0, 0)
  }

  function Start(s: UserSignup, requests: seq<Request>): System {
    System(0, s, seq(|requests|, i requires 0 <= i < |requests| => Fresh(requests[i])), [])
  }

  function Run(w: World, cfg: Config, sys: System, steps: seq<Step>): System {
    if steps == [] then sys else Next(w, cfg, Run(w, cfg, sys, steps[..|steps| - 1]), steps[|steps| - 1])
  }

  // ----- the invariant -----

  /** The effects of the commits one after the other. */
  function Folded(w: World, s: UserSignup, commits: seq<Commit>): UserSignup {
    if commits == [] then s else Effected(w, commits[|commits| - 1].effect, Folded(w, s, commits[..|commits| - 1]))
  }

  /** What the first `n` commits left. */
  function Left(s: UserSignup, commits: seq<Commit>, n: nat): UserSignup
    requires n <= |commits|
  {
    if n == 0 then s else commits[n - 1].after
  }

  /** Commit `i` replaced what the ones before left, and left just its own effect on it. */
  predicate Linked(w: World, s: UserSignup, commits: seq<Commit>, i: nat)
    requires i < |commits|
  {
    && commits[i].before == Left(s, commits, i)
    && commits[i].after == Effected(w, commits[i].effect, commits[i].before)
  }

  predicate Chained(w: World, s: UserSignup, commits: seq<Commit>) {
    forall i :: 0 <= i < |commits| ==> Linked(w, s, commits, i)
  }

  lemma ChainedFront(w: World, s: UserSignup, commits: seq<Commit>)
    requires Chained(w, s, commits) && commits != []
    ensures Chained(w, s, commits[..|commits| - 1])
  {
    var front := commits[..|commits| - 1];
    forall i | 0 <= i < |front| ensures Linked(w, s, front, i) {
      assert Linked(w, s, commits, i);
    }
  }

  lemma ChainedAppend(w: World, s: UserSignup, commits: seq<Commit>, commit: Commit)
    requires Chained(w, s, commits)
    requires commit.before == Left(s, commits, |commits|)
    requires commit.after == Effected(w, commit.effect, commit.before)
    ensures Chained(w, s, commits + [commit])
  {
    var more := commits + [commit];
    forall i | 0 <= i < |more| ensures Linked(w, s, more, i) {
      if i < |commits| {
        assert Linked(w, s, commits, i);
      }
    }
  }

  function CommitsBy(commits: seq<Commit>, c: nat): nat {
    if commits == [] then 0
    else CommitsBy(commits[..|commits| - 1], c) + if commits[|commits| - 1].author == Some(c) then 1 else 0
  }

  /** The effect is one the request may have. */
  predicate IsEffectOf(r: Request, e: Effect) {
    match r
    case AskCode(inp) => e.CodeAsked? && e.inp == inp
    case AnswerCode(answer) => e.AttemptCounted? || (e.AnswerApplied? && e.answer == answer)
    case TryActivation => e.AttemptCounted? || e.EventApplied?
    case ReadSignup(token) => e == AuditedWith(token)
    case Reactivate(made) => e == ReactivatedAs(made)
  }

  /** No try of the client's has written or is about to. */
  predicate FailedSoFar(client: Client) {
    client.phase.Idle? || client.phase == Finished(GaveUp)
  }

  /** The request does what it decided on the object as it was at its first read. */
  predicate CheckOk(w: World, cfg: Config, s: UserSignup, commits: seq<Commit>, client: Client) {
    && client.checked <= |commits|
    && var read := Left(s, commits, client.checked);
       match client.request
       case AskCode(inp) => FirstRead(w, cfg, client.request, read) == Some((client.task, NO_LOCALS))
       case AnswerCode(inp) =>
         && FirstRead(w, cfg, client.request, read) == Some((client.task, NO_LOCALS))
         && client.base == PhoneAttempts(cfg, read)
         && client.invalid == if AnswersWrongly(w, cfg, client.request, read) then 1 else 0
       case TryActivation =>
         && client.task == Activation && CheckedAttempts(cfg, read) == Ok(client.base)
         && client.locals.attemptsMade == client.base + client.invalid
         && client.invalid <= client.attempts + (if FailedSoFar(client) then 0 else 1)
       case _ => true
  }

  /** The effect a client holds is its request's, with what it read. */
  predicate HeldOk(client: Client)
    requires client.phase.Holding?
  {
    match client.request
    case TryActivation =>
      client.phase.effect.AttemptCounted? ==>
        client.phase.effect == AttemptCounted(client.checked, client.base, client.invalid) && client.invalid >= 1
    case _ => client.phase.effect == EffectOf(client, Err(EventNotFound))
  }

  /** A held copy that is still current is the object with the request's effect. */
  predicate ClientOk(w: World, cfg: Config, s: UserSignup, sys: System, c: nat)
    requires c < |sys.clients|
  {
    var client := sys.clients[c];
    && client.attempts <= MAX_ATTEMPTS
    && (!client.phase.Finished? || client.phase == Finished(Written) ==> client.attempts < MAX_ATTEMPTS)
    && (client.phase == Finished(NothingToDo) ==> client.request.ReadSignup?)
    && (client.phase == Finished(GaveUp) && !client.request.Reactivate? ==> client.attempts == MAX_ATTEMPTS)
    && (client.phase.Unchecked? || client.phase == Finished(Refused) ==> ReadsFirst(client.request))
    && (client.phase.Unchecked? ==> client.invalid == 0 && client.attempts == 0)
    && (client.request.ReadSignup? ==> client.task == AuditClaims(client.request.token))
    && (ReadsFirst(client.request) && !client.phase.Unchecked? && client.phase != Finished(Refused) ==>
          CheckOk(w, cfg, s, sys.commits, client))
    && CommitsBy(sys.commits, c) == (if client.phase == Finished(Written) then 1 else 0)
    && (client.phase.Holding? ==>
          && client.phase.version <= sys.version && IsEffectOf(client.request, client.phase.effect) && HeldOk(client)
          && (client.phase.version == sys.version ==>
                client.phase.draft == Effected(w, client.phase.effect, sys.signup)))
  }

  predicate CommitsOk(sys: System) {
    forall i :: 0 <= i < |sys.commits| && sys.commits[i].author.Some? ==>
      && sys.commits[i].author.value < |sys.clients|
      && IsEffectOf(sys.clients[sys.commits[i].author.value].request, sys.commits[i].effect)
  }

  /** On the UserSignup as read the answer has this write and is not wrong. */
  predicate AnswerRead(w: World, cfg: Config, read: UserSignup, inp: PhoneInputs, write: Write) {
    var out := PhoneDecision(w, cfg, read, inp);
    out.write == Some(write) && out.error != Some(CodeInvalid)
  }

  /** A counted attempt adds one to five tries to a counter that was stored when its request read it, and a
      call for a code writes what it decided on what was stored then. */
  predicate CountOk(w: World, cfg: Config, s: UserSignup, commits: seq<Commit>, i: nat)
    requires i < |commits|
  {
    match commits[i].effect
    case AttemptCounted(checked, base, invalid) =>
      && checked <= i && CheckedAttempts(cfg, Left(s, commits, checked)) == Ok(base) && 1 <= invalid <= MAX_ATTEMPTS
    case CodeAsked(checked, inp, write) =>
      checked <= i && InitDecision(w, cfg, Left(s, commits, checked), inp).write == Some(write)
    case AnswerApplied(checked, inp, write) => checked <= i && AnswerRead(w, cfg, Left(s, commits, checked), inp, write)
    case _ => true
  }

  predicate CountsOk(w: World, cfg: Config, s: UserSignup, commits: seq<Commit>) {
    forall i :: 0 <= i < |commits| ==> CountOk(w, cfg, s, commits, i)
  }

  predicate Latest(s: UserSignup, sys: System) {
    && sys.version == |sys.commits|
    && sys.signup == Left(s, sys.commits, |sys.commits|)
  }

  predicate ClientsOk(w: World, cfg: Config, s: UserSignup, sys: System) {
    forall c :: 0 <= c < |sys.clients| ==> ClientOk(w, cfg, s, sys, c)
  }

  predicate Invariant(w: World, cfg: Config, s: UserSignup, sys: System) {
    && Chained(w, s, sys.commits) && CountsOk(w, cfg, s, sys.commits) && Latest(s, sys) && CommitsOk(sys)
    && ClientsOk(w, cfg, s, sys)
  }

  /** A wrong phone code read the counter, with attempts left, and writes the next number. */
  lemma WrongAnswerCounts(w: World, cfg: Config, r: Request, read: UserSignup, s: UserSignup)
    requires AnswersWrongly(w, cfg, r, read)
    ensures var write := PhoneDecision(w, cfg, read, r.answer).write;
            && write.Some? && CheckedAttempts(cfg, read) == Ok(PhoneAttempts(cfg, read))
            && Applied(write.value, s) == WithAttempts(s, PhoneAttempts(cfg, read) + 1)
  {
    assert s.annotations + map[Attempts := Itoa(PhoneAttempts(cfg, read) + 1)] - {}
        == s.annotations[Attempts := Itoa(PhoneAttempts(cfg, read) + 1)];
    assert s.labels + map[] == s.labels;
  }

  /** What a client makes of the current object is the object with its effect. */
  lemma DraftIsEffect(w: World, cfg: Config, s: UserSignup, commits: seq<Commit>, c: Client, current: UserSignup,
                      event: Result<SocialEvent, Error>)
    requires !c.request.Reactivate? && (c.request.ReadSignup? ==> c.task == AuditClaims(c.request.token))
    requires ReadsFirst(c.request) ==> CheckOk(w, cfg, s, commits, c)
    ensures var (draft, locals) := Draft(w, c.task, current, c.locals, Conditions(false, false, event));
            && draft == Effected(w, EffectOf(c, event), current)
            && (c.request.TryActivation? ==> locals.attemptsMade == c.base + InvalidAfter(c, event))
    ensures IsEffectOf(c.request, EffectOf(c, event))
    ensures NothingToWrite(w, c.task, current) ==> c.request.ReadSignup?
  {
    if c.request.AnswerCode? && c.invalid > 0 {
      WrongAnswerCounts(w, cfg, c.request, Left(s, commits, c.checked), current);
    }
  }

  /** A client's own move keeps the invariant if the moved client is in order. */
  lemma ClientMoves(w: World, cfg: Config, s: UserSignup, sys: System, c: nat, client: Client)
    requires Invariant(w, cfg, s, sys) && c < |sys.clients| && client.request == sys.clients[c].request
    requires ClientOk(w, cfg, s, WithClient(sys, c, client), c)
    ensures Invariant(w, cfg, s, WithClient(sys, c, client))
  {
    var after := WithClient(sys, c, client);
    forall d | 0 <= d < |after.clients| ensures ClientOk(w, cfg, s, after, d) {
      if d != c {
        assert ClientOk(w, cfg, s, sys, d);
      }
    }
  }

  lemma {:induction false} CommitsAppend(commits: seq<Commit>, commit: Commit, c: nat)
    ensures CommitsBy(commits + [commit], c) == CommitsBy(commits, c) + if commit.author == Some(c) then 1 else 0
  {
    assert (commits + [commit])[..|commits|] == commits;
  }

  lemma LeftAppend(s: UserSignup, commits: seq<Commit>, commit: Commit, n: nat)
    requires n <= |commits|
    ensures Left(s, commits + [commit], n) == Left(s, commits, n)
  {
  }

  /** A commit makes every copy held elsewhere stale, and changes nothing about what was read before. */
  lemma CommitKeepsClient(w: World, cfg: Config, s: UserSignup, sys: System, author: Option<nat>, effect: Effect,
                          after: UserSignup, d: nat)
    requires d < |sys.clients| && ClientOk(w, cfg, s, sys, d) && author != Some(d)
    ensures ClientOk(w, cfg, s, Committed(sys, author, effect, after), d)
  {
    var commit := Commit(author, effect, sys.signup, after);
    CommitsAppend(sys.commits, commit, d);
    if sys.clients[d].checked <= |sys.commits| {
      LeftAppend(s, sys.commits, commit, sys.clients[d].checked);
    }
  }

  /** The effect carries what was stored at the version it names. */
  predicate EffectReads(w: World, cfg: Config, s: UserSignup, commits: seq<Commit>, e: Effect) {
    match e
    case AttemptCounted(checked, base, invalid) =>
      && checked <= |commits| && CheckedAttempts(cfg, Left(s, commits, checked)) == Ok(base)
      && 1 <= invalid <= MAX_ATTEMPTS
    case CodeAsked(checked, inp, write) =>
      checked <= |commits| && InitDecision(w, cfg, Left(s, commits, checked), inp).write == Some(write)
    case AnswerApplied(checked, inp, write) =>
      checked <= |commits| && AnswerRead(w, cfg, Left(s, commits, checked), inp, write)
    case _ => true
  }

  lemma CountsAppend(w: World, cfg: Config, s: UserSignup, commits: seq<Commit>, commit: Commit)
    requires CountsOk(w, cfg, s, commits) && EffectReads(w, cfg, s, commits, commit.effect)
    ensures CountsOk(w, cfg, s, commits + [commit])
  {
    var more := commits + [commit];
    forall i | 0 <= i < |more| ensures CountOk(w, cfg, s, more, i) {
      if i < |commits| {
        assert CountOk(w, cfg, s, commits, i);
      }
      var e := more[i].effect;
      if (e.AttemptCounted? || e.CodeAsked? || e.AnswerApplied?) && e.checked <= |commits| {
        LeftAppend(s, commits, commit, e.checked);
      }
    }
  }

  lemma HeldEffectReads(w: World, cfg: Config, s: UserSignup, sys: System, c: nat)
    requires Invariant(w, cfg, s, sys) && c < |sys.clients| && sys.clients[c].phase.Holding?
    ensures EffectReads(w, cfg, s, sys.commits, sys.clients[c].phase.effect)
  {
    var client := sys.clients[c];
    assert ClientOk(w, cfg, s, sys, c);
    if client.request.AnswerCode? && client.invalid > 0 {
      WrongAnswerCounts(w, cfg, client.request, Left(s, sys.commits, client.checked), sys.signup);
    }
  }

  lemma OthersKeepInvariant(w: World, cfg: Config, s: UserSignup, sys: System, change: UserSignup)
    requires Invariant(w, cfg, s, sys)
    ensures Invariant(w, cfg, s, Next(w, cfg, sys, Others(change)))
  {
    var commit := Commit(None, OthersWrote(change), sys.signup, change);
    ChainedAppend(w, s, sys.commits, commit);
    CountsAppend(w, cfg, s, sys.commits, commit);
    forall d | 0 <= d < |sys.clients| ensures ClientOk(w, cfg, s, Next(w, cfg, sys, Others(change)), d) {
      CommitKeepsClient(w, cfg, s, sys, None, OthersWrote(change), change, d);
    }
  }

  lemma CheckKeepsInvariant(w: World, cfg: Config, s: UserSignup, sys: System, c: nat)
    requires Invariant(w, cfg, s, sys)
    ensures Invariant(w, cfg, s, Next(w, cfg, sys, Check(c)))
  {
    if c < |sys.clients| && sys.clients[c].phase.Unchecked? {
      assert ClientOk(w, cfg, s, sys, c);
      ClientMoves(w, cfg, s, sys, c, AfterCheck(w, cfg, sys.clients[c], sys.version, sys.signup));
    }
  }

  lemma ReadKeepsInvariant(w: World, cfg: Config, s: UserSignup, sys: System, c: nat, event: Result<SocialEvent, Error>)
    requires Invariant(w, cfg, s, sys)
    ensures Invariant(w, cfg, s, Next(w, cfg, sys, Read(c, event)))
  {
    if c < |sys.clients| && sys.clients[c].phase.Idle? {
      var client := sys.clients[c];
      assert ClientOk(w, cfg, s, sys, c);
      if !client.request.Reactivate? {
        DraftIsEffect(w, cfg, s, sys.commits, client, sys.signup, event);
      }
      ClientMoves(w, cfg, s, sys, c, AfterRead(w, client, sys.version, sys.signup, event));
    }
  }

  lemma FailureKeepsInvariant(w: World, cfg: Config, s: UserSignup, sys: System, c: nat)
    requires Invariant(w, cfg, s, sys) && c < |sys.clients|
    requires sys.clients[c].phase.Idle? || sys.clients[c].phase.Holding?
    ensures Invariant(w, cfg, s, WithClient(sys, c, AfterFailure(sys.clients[c])))
  {
    assert ClientOk(w, cfg, s, sys, c);
    ClientMoves(w, cfg, s, sys, c, AfterFailure(sys.clients[c]));
  }

  /** A current copy is the object with the request's own effect, so committing it loses nothing. */
  lemma CommitKeepsInvariant(w: World, cfg: Config, s: UserSignup, sys: System, c: nat)
    requires Invariant(w, cfg, s, sys) && c < |sys.clients|
    requires sys.clients[c].phase.Holding? && sys.clients[c].phase.version == sys.version
    ensures Invariant(w, cfg, s, Next(w, cfg, sys, Update(c, false)))
  {
    var client := sys.clients[c];
    var commit := Commit(Some(c), client.phase.effect, sys.signup, client.phase.draft);
    assert ClientOk(w, cfg, s, sys, c);
    ChainedAppend(w, s, sys.commits, commit);
    HeldEffectReads(w, cfg, s, sys, c);
    CountsAppend(w, cfg, s, sys.commits, commit);
    forall d | 0 <= d < |sys.clients| ensures ClientOk(w, cfg, s, Next(w, cfg, sys, Update(c, false)), d) {
      CommitKeepsClients(w, cfg, s, sys, c, d);
    }
  }

  /** The committing client itself ends in order. */
  lemma CommitFinishes(w: World, cfg: Config, s: UserSignup, sys: System, c: nat)
    requires c < |sys.clients| && ClientOk(w, cfg, s, sys, c)
    requires sys.clients[c].phase.Holding? && sys.clients[c].phase.version == sys.version
    ensures ClientOk(w, cfg, s, Next(w, cfg, sys, Update(c, false)), c)
  {
    var client := sys.clients[c];
    var commit := Commit(Some(c), client.phase.effect, sys.signup, client.phase.draft);
    CommitsAppend(sys.commits, commit, c);
    if client.checked <= |sys.commits| {
      LeftAppend(s, sys.commits, commit, client.checked);
    }
  }

  lemma CommitKeepsClients(w: World, cfg: Config, s: UserSignup, sys: System, c: nat, d: nat)
    requires c < |sys.clients| && d < |sys.clients| && ClientOk(w, cfg, s, sys, c) && ClientOk(w, cfg, s, sys, d)
    requires sys.clients[c].phase.Holding? && sys.clients[c].phase.version == sys.version
    ensures ClientOk(w, cfg, s, Next(w, cfg, sys, Update(c, false)), d)
  {
    var client := sys.clients[c];
    if d == c {
      CommitFinishes(w, cfg, s, sys, c);
    } else {
      var moved := WithClient(sys, c, client.(phase := Finished(Written)));
      assert moved.clients[d] == sys.clients[d];
      CommitKeepsClient(w, cfg, s, moved, Some(c), client.phase.effect, client.phase.draft, d);
    }
  }

  lemma StepKeepsInvariant(w: World, cfg: Config, s: UserSignup, sys: System, step: Step)
    requires Invariant(w, cfg, s, sys)
    ensures Invariant(w, cfg, s, Next(w, cfg, sys, step))
  {
    match step {
      case Others(change) => OthersKeepInvariant(w, cfg, s, sys, change);
      case Check(c) => CheckKeepsInvariant(w, cfg, s, sys, c);
      case Read(c, event) => ReadKeepsInvariant(w, cfg, s, sys, c, event);
      case ReadFails(c) =>
        if c < |sys.clients| && sys.clients[c].phase.Idle? {
          FailureKeepsInvariant(w, cfg, s, sys, c);
        }
      case Update(c, fails) =>
        if c < |sys.clients| && sys.clients[c].phase.Holding? {
          if fails || sys.clients[c].phase.version != sys.version {
            FailureKeepsInvariant(w, cfg, s, sys, c);
          } else {
            CommitKeepsInvariant(w, cfg, s, sys, c);
          }
        }
    }
  }

  lemma {:induction false} RunKeepsInvariant(w: World, cfg: Config, s: UserSignup, requests: seq<Request>,
                                             steps: seq<Step>)
    ensures Invariant(w, cfg, s, Run(w, cfg, Start(s, requests), steps))
  {
    if steps != [] {
      var front := steps[..|steps| - 1];
      RunKeepsInvariant(w, cfg, s, requests, front);
      StepKeepsInvariant(w, cfg, s, Run(w, cfg, Start(s, requests), front), steps[|steps| - 1]);
    }
  }

  lemma {:induction false} ChainIsFold(w: World, s: UserSignup, commits: seq<Commit>)
    requires Chained(w, s, commits)
    ensures Folded(w, s, commits) == Left(s, commits, |commits|)
  {
    if commits != [] {
      ChainedFront(w, s, commits);
      ChainIsFold(w, s, commits[..|commits| - 1]);
      assert Linked(w, s, commits, |commits| - 1);
    }
  }

  // ----- the main results -----

  /** However the requests interleave, the object is the fold of the committed effects in commit order, and
      each commit replaced what the one before it left by that with its own effect. */
  lemma {:induction false} NoLostUpdates(w: World, cfg: Config, s: UserSignup, requests: seq<Request>, steps: seq<Step>)
    ensures var sys := Run(w, cfg, Start(s, requests), steps);
            && sys.signup == Folded(w, s, sys.commits)
            && sys.version == |sys.commits|
            && (forall i :: 0 <= i < |sys.commits| ==> Linked(w, s, sys.commits, i))
  {
    RunKeepsInvariant(w, cfg, s, requests, steps);
    ChainIsFold(w, s, Run(w, cfg, Start(s, requests), steps).commits);
  }

  lemma {:induction false} RunKeepsRequests(w: World, cfg: Config, s: UserSignup, requests: seq<Request>,
                                            steps: seq<Step>)
    ensures var sys := Run(w, cfg, Start(s, requests), steps);
            |sys.clients| == |requests| && forall c :: 0 <= c < |requests| ==> sys.clients[c].request == requests[c]
  {
    if steps != [] {
      RunKeepsRequests(w, cfg, s, requests, steps[..|steps| - 1]);
    }
  }

  /** A request commits once if it reports success and never otherwise; an audit with nothing to write
      never commits. A polled request gives up after exactly five failed tries, and what a request commits
      is the effect it was made for. */
  lemma {:induction false} SuccessMeansOneCommit(w: World, cfg: Config, s: UserSignup, requests: seq<Request>,
                                                 steps: seq<Step>, c: nat)
    requires c < |requests|
    ensures var sys := Run(w, cfg, Start(s, requests), steps);
            && c < |sys.clients|
            && CommitsBy(sys.commits, c) == (if sys.clients[c].phase == Finished(Written) then 1 else 0)
            && (sys.clients[c].phase == Finished(NothingToDo) ==> requests[c].ReadSignup?)
            && sys.clients[c].attempts <= MAX_ATTEMPTS
            && (sys.clients[c].phase == Finished(GaveUp) && !requests[c].Reactivate? ==>
                  sys.clients[c].attempts == MAX_ATTEMPTS)
            && (forall i :: 0 <= i < |sys.commits| && sys.commits[i].author == Some(c) ==>
                  IsEffectOf(requests[c], sys.commits[i].effect))
  {
    RunKeepsInvariant(w, cfg, s, requests, steps);
    RunKeepsRequests(w, cfg, s, requests, steps);
    assert ClientOk(w, cfg, s, Run(w, cfg, Start(s, requests), steps), c);
  }

  /** A call for a code, and an answer that was not wrong, commit the write they decided on the UserSignup as a
      commit before them left it; a wrong answer is committed as a counted attempt and in no other way. */
  lemma {:induction false} CommitsAsRead(w: World, cfg: Config, s: UserSignup, requests: seq<Request>,
                                         steps: seq<Step>, i: nat)
    requires i < |Run(w, cfg, Start(s, requests), steps).commits|
    ensures var commits := Run(w, cfg, Start(s, requests), steps).commits;
            var e := commits[i].effect;
            && (e.CodeAsked? ==>
                  && e.checked <= i
                  && InitDecision(w, cfg, Left(s, commits, e.checked), e.inp).write == Some(e.write))
            && (e.AnswerApplied? ==>
                  && e.checked <= i
                  && PhoneDecision(w, cfg, Left(s, commits, e.checked), e.answer).write == Some(e.write)
                  && PhoneDecision(w, cfg, Left(s, commits, e.checked), e.answer).error != Some(CodeInvalid))
  {
    RunKeepsInvariant(w, cfg, s, requests, steps);
    assert CountOk(w, cfg, s, Run(w, cfg, Start(s, requests), steps).commits, i);
  }

  /** The effect may change the annotation. */
  predicate Touches(e: Effect, key: AnnotationKey) {
    match e
    case CodeAsked(_, _, write) => key in write.annotations || key in write.deletions
    case AnswerApplied(_, _, write) => key in write.annotations || key in write.deletions
    case AuditedWith(_) => false
    case AttemptCounted(_, _, _) => key == Attempts
    case EventApplied(_) => key == Attempts
    case ReactivatedAs(made) => key !in SignupService.RETAINED || key in made.annotations
    case OthersWrote(_) => true
  }

  lemma UntouchedStays(w: World, e: Effect, s: UserSignup, key: AnnotationKey)
    requires !Touches(e, key)
    ensures Effected(w, e, s).SameAnnotation(s, key)
  {
  }

  /** An annotation keeps the value a commit left it with until a later commit touches that annotation;
      one that no commit touches keeps the value it had at the start. */
  lemma {:induction false} AnnotationsSurvive(w: World, cfg: Config, s: UserSignup, requests: seq<Request>,
                                              steps: seq<Step>, i: nat,
                           key: AnnotationKey)
    requires i <= |Run(w, cfg, Start(s, requests), steps).commits|
    requires forall k :: i <= k < |Run(w, cfg, Start(s, requests), steps).commits| ==>
               !Touches(Run(w, cfg, Start(s, requests), steps).commits[k].effect, key)
    ensures var sys := Run(w, cfg, Start(s, requests), steps);
            sys.signup.SameAnnotation(Left(s, sys.commits, i), key)
  {
    RunKeepsInvariant(w, cfg, s, requests, steps);
    ChainSurvives(w, s, Run(w, cfg, Start(s, requests), steps).commits, i, key);
  }

  lemma ChainSurvives(w: World, s: UserSignup, commits: seq<Commit>, i: nat, key: AnnotationKey)
    requires Chained(w, s, commits) && i <= |commits|
    requires forall k :: i <= k < |commits| ==> !Touches(commits[k].effect, key)
    ensures Left(s, commits, |commits|).SameAnnotation(Left(s, commits, i), key)
  {
    if i < |commits| {
      ChainedFront(w, s, commits);
      ChainSurvives(w, s, commits[..|commits| - 1], i, key);
      assert Linked(w, s, commits, |commits| - 1);
      UntouchedStays(w, commits[|commits| - 1].effect, commits[|commits| - 1].before, key);
    }
  }

  // ----- the email hash under interleaving -----

  /** The effect leaves a matching email-hash label behind. */
  predicate KeepsHash(w: World, e: Effect) {
    match e
    case CodeAsked(_, _, write) => EmailHash !in write.labels
    case AnswerApplied(_, _, write) => EmailHash !in write.labels
    case ReactivatedAs(made) => EmailHashMatches(w, made)
    case OthersWrote(change) => EmailHashMatches(w, change)
    case _ => true
  }

  /** A reactivation brings a fitting label along. */
  predicate AsksWell(w: World, r: Request) {
    r.Reactivate? ==> EmailHashMatches(w, r.made)
  }

  /** No call for a code and no answer writes the email-hash label. */
  lemma HeldKeepsHash(w: World, cfg: Config, s: UserSignup, sys: System, c: nat)
    requires Invariant(w, cfg, s, sys) && c < |sys.clients| && sys.clients[c].phase.Holding?
    requires AsksWell(w, sys.clients[c].request)
    ensures KeepsHash(w, sys.clients[c].phase.effect)
  {
    var client := sys.clients[c];
    assert ClientOk(w, cfg, s, sys, c);
    if client.request.AskCode? {
      InitWriteIs(w, cfg, Left(s, sys.commits, client.checked), client.request.inp);
    }
  }

  predicate OthersWriteWell(w: World, steps: seq<Step>) {
    forall i :: 0 <= i < |steps| && steps[i].Others? ==> EmailHashMatches(w, steps[i].change)
  }

  lemma {:induction false} CommitsKeepHash(w: World, cfg: Config, s: UserSignup, requests: seq<Request>,
                                           steps: seq<Step>)
    requires OthersWriteWell(w, steps) && forall c :: 0 <= c < |requests| ==> AsksWell(w, requests[c])
    ensures forall i :: 0 <= i < |Run(w, cfg, Start(s, requests), steps).commits| ==>
              KeepsHash(w, Run(w, cfg, Start(s, requests), steps).commits[i].effect)
  {
    if steps != [] {
      var front, step := steps[..|steps| - 1], steps[|steps| - 1];
      var sys := Run(w, cfg, Start(s, requests), front);
      CommitsKeepHash(w, cfg, s, requests, front);
      RunKeepsInvariant(w, cfg, s, requests, front);
      RunKeepsRequests(w, cfg, s, requests, front);
      if step.Update? && step.client < |sys.clients| && sys.clients[step.client].phase.Holding? {
        HeldKeepsHash(w, cfg, s, sys, step.client);
      }
    }
  }

  lemma {:induction false} FoldKeepsHash(w: World, s: UserSignup, commits: seq<Commit>)
    requires EmailHashMatches(w, s) && forall i :: 0 <= i < |commits| ==> KeepsHash(w, commits[i].effect)
    ensures EmailHashMatches(w, Folded(w, s, commits))
  {
    if commits != [] {
      FoldKeepsHash(w, s, commits[..|commits| - 1]);
    }
  }

  /** The email-hash label is the hash of the email claim however audits, verification calls and
      reactivations interleave, as long as other controllers leave it so. */
  lemma {:induction false} EmailHashSurvivesInterleaving(w: World, cfg: Config, s: UserSignup, requests: seq<Request>,
                                                         steps: seq<Step>)
    requires EmailHashMatches(w, s) && OthersWriteWell(w, steps)
    requires forall c :: 0 <= c < |requests| ==> AsksWell(w, requests[c])
    ensures EmailHashMatches(w, Run(w, cfg, Start(s, requests), steps).signup)
  {
    CommitsKeepHash(w, cfg, s, requests, steps);
    NoLostUpdates(w, cfg, s, requests, steps);
    FoldKeepsHash(w, s, Run(w, cfg, Start(s, requests), steps).commits);
  }

  // ----- one request on its own -----

  /** One try of the only request. */
  function Try(w: World, cfg: Config, sys: System, c: Conditions): (tried: System)
    requires |sys.clients| == 1
  {
    if c.getFails then Next(w, cfg, sys, ReadFails(0))
    else Next(w, cfg, Next(w, cfg, sys, Read(0, c.event)), Update(0, c.updateFails))
  }

  /** The only request, from a try on, until it is finished. */
  function Alone(w: World, cfg: Config, sys: System, env: nat -> Conditions, k: nat): System
    requires |sys.clients| == 1 && k < MAX_ATTEMPTS
    decreases MAX_ATTEMPTS - k
  {
    var tried := Try(w, cfg, sys, env(k));
    if k + 1 == MAX_ATTEMPTS || !tried.clients[0].phase.Idle? then tried else Alone(w, cfg, tried, env, k + 1)
  }

  lemma TryIsAttempt(w: World, cfg: Config, sys: System, u: Updater, c: Conditions)
    requires |sys.clients| == 1 && sys.clients[0].task == u && sys.clients[0].phase.Idle?
    requires !sys.clients[0].request.Reactivate?
    ensures var t := Attempt(w, u, Some(sys.signup), sys.clients[0].locals, c);
            var tried := Try(w, cfg, sys, c);
            var client := tried.clients[0];
            && t.stored == Some(tried.signup) && t.locals == client.locals && client.task == u
            && client.request == sys.clients[0].request
            && Ended(client, t.failed, sys.clients[0].attempts + 1)
  {
  }

  /** The client after a try that failed or not, with so many failures if it did. */
  predicate Ended(client: Client, failed: bool, failures: nat) {
    if !failed then client.phase == Finished(Written) || client.phase == Finished(NothingToDo)
    else client.attempts == failures && client.phase == if failures < MAX_ATTEMPTS then Idle else Finished(GaveUp)
  }

  /** The retry loop and the lone request end with the same object, the same variables and the same verdict. */
  predicate SameEnd(t: Tried, after: System) {
    && |after.clients| == 1 && after.clients[0].phase.Finished?
    && t.stored == Some(after.signup) && t.locals == after.clients[0].locals
    && (t.failed <==> after.clients[0].phase == Finished(GaveUp))
  }

  lemma {:induction false} TriesAgree(w: World, cfg: Config, sys: System, u: Updater, env: nat -> Conditions, k: nat,
                                      t: Tried, after: System)
    requires |sys.clients| == 1 && k < MAX_ATTEMPTS
    requires sys.clients[0].task == u && sys.clients[0].attempts == k && sys.clients[0].phase.Idle?
    requires !sys.clients[0].request.Reactivate?
    requires t == Polled(w, u, Some(sys.signup), sys.clients[0].locals, env, k) && after == Alone(w, cfg, sys, env, k)
    ensures SameEnd(t, after)
    decreases MAX_ATTEMPTS - k
  {
    TryIsAttempt(w, cfg, sys, u, env(k));
    var tried := Try(w, cfg, sys, env(k));
    if tried.clients[0].phase.Idle? {
      TriesAgree(w, cfg, tried, u, env, k + 1, t, after);
    }
  }

  /** The only request, ready for its first try, with its first read done if it makes one. */
  function Ready(w: World, cfg: Config, s: UserSignup, r: Request): (sys: System)
    ensures |sys.clients| == 1
  {
    var sys := Start(s, [r]);
    if ReadsFirst(r) then Next(w, cfg, sys, Check(0)) else sys
  }

  /** Without other writers the interleaved model does what the sequential calls do: the closure decided on
      the first read, in the retry loop. */
  lemma {:induction false} AloneIsPolling(w: World, cfg: Config, s: UserSignup, r: Request, env: nat -> Conditions)
    requires !r.Reactivate? && FirstRead(w, cfg, r, s).Some?
    ensures var (u, locals) := FirstRead(w, cfg, r, s).value;
            SameEnd(Polled(w, u, Some(s), locals, env, 0), Alone(w, cfg, Ready(w, cfg, s, r), env, 0))
  {
    var (u, locals) := FirstRead(w, cfg, r, s).value;
    var sys := Ready(w, cfg, s, r);
    TriesAgree(w, cfg, sys, u, env, 0, Polled(w, u, Some(s), locals, env, 0), Alone(w, cfg, sys, env, 0));
  }

  /** A reactivation without other writers ends as the signup call does, in its single try. */
  lemma {:induction false} AloneIsSignup(w: World, cfg: Config, s: UserSignup, banned: Option<seq<BannedUser>>,
                                         r: SignupService.Request, writeFails: bool)
    requires SignupService.NewUserSignup(w, banned, r).Ok?
    ensures var request := Reactivate(SignupService.NewUserSignup(w, banned, r).value);
            var (after, reply) := SignupService.SignupOutcome(w, banned, Some(s), r, writeFails);
            var read := Next(w, cfg, Start(s, [request]), Read(0, Err(EventNotFound)));
            var end := Next(w, cfg, read, Update(0, writeFails));
            && after == Some(end.signup)
            && (end.commits != [] <==>
                  s.status.deactivated && Rejected !in s.flags && !writeFails)
            && (reply.Created? ==> end.clients[0].phase == Finished(Written))
  {
    var request := Reactivate(SignupService.NewUserSignup(w, banned, r).value);
    var start := Start(s, [request]);
    assert start.clients == [Fresh(request)] && start.clients[0].phase.Idle?;
  }

  // ----- two requests at once -----

  /** Two requests make their first read, then one after the other makes one try, which succeeds. */
  function AtOnce(event: Result<SocialEvent, Error>): seq<Step> {
    [Check(0), Check(1), Read(0, event), Update(0, false), Read(1, event), Update(1, false)]
  }

  lemma {:induction false} RunStep(w: World, cfg: Config, sys: System, steps: seq<Step>, k: nat)
    requires k < |steps|
    ensures Run(w, cfg, sys, steps[..k + 1]) == Next(w, cfg, Run(w, cfg, sys, steps[..k]), steps[k])
  {
    assert steps[..k + 1][..k] == steps[..k];
  }

  lemma {:induction false} TwoSteps(w: World, cfg: Config, sys: System, steps: seq<Step>, k: nat, before: System)
    requires k + 2 <= |steps| && Run(w, cfg, sys, steps[..k]) == before
    ensures Run(w, cfg, sys, steps[..k + 2]) == Next(w, cfg, Next(w, cfg, before, steps[k]), steps[k + 1])
  {
    RunStep(w, cfg, sys, steps, k);
    RunStep(w, cfg, sys, steps, k + 1);
  }

  /** The request after its first read of the UserSignup. */
  function Checked(w: World, cfg: Config, s: UserSignup, r: Request): Client {
    AfterCheck(w, cfg, Fresh(r), 0, s)
  }

  lemma BothCheck(w: World, cfg: Config, s: UserSignup, a: Request, b: Request)
    requires ReadsFirst(a) && ReadsFirst(b)
    ensures Next(w, cfg, Next(w, cfg, Start(s, [a, b]), Check(0)), Check(1))
         == System(0, s, [Checked(w, cfg, s, a), Checked(w, cfg, s, b)], [])
  {
  }

  /** A client that is ready makes one try, undisturbed between its read and its write. */
  lemma OneTry(w: World, cfg: Config, sys: System, c: nat, event: Result<SocialEvent, Error>)
    requires c < |sys.clients| && sys.clients[c].phase.Idle? && !sys.clients[c].task.AuditClaims?
    requires !sys.clients[c].request.Reactivate?
    ensures var client := sys.clients[c];
            var after := Next(w, cfg, Next(w, cfg, sys, Read(c, event)), Update(c, false));
            && |after.clients| == |sys.clients|
            && (forall d :: 0 <= d < |sys.clients| && d != c ==> after.clients[d] == sys.clients[d])
            && after.signup == Draft(w, client.task, sys.signup, client.locals, Conditions(false, false, event)).0
            && after.commits == sys.commits + [Commit(Some(c), EffectOf(client, event), sys.signup, after.signup)]
  {
  }

  lemma TryCommitsEffect(w: World, cfg: Config, s: UserSignup, sys: System, c: nat, r: Request,
                         event: Result<SocialEvent, Error>)
    requires ReadsFirst(r) && FirstRead(w, cfg, r, s).Some?
    requires c < |sys.clients| && sys.clients[c] == Checked(w, cfg, s, r)
    ensures var e := EffectOf(Checked(w, cfg, s, r), event);
            var after := Next(w, cfg, Next(w, cfg, sys, Read(c, event)), Update(c, false));
            && |after.clients| == |sys.clients|
            && (forall d :: 0 <= d < |sys.clients| && d != c ==> after.clients[d] == sys.clients[d])
            && after.signup == Effected(w, e, sys.signup)
            && after.commits == sys.commits + [Commit(Some(c), e, sys.signup, after.signup)]
  {
    OneTry(w, cfg, sys, c, event);
    DraftIsEffect(w, cfg, s, [], Checked(w, cfg, s, r), sys.signup, event);
  }

  lemma TwoTries(w: World, cfg: Config, s: UserSignup, a: Request, b: Request, sys: System,
                 event: Result<SocialEvent, Error>)
    requires ReadsFirst(a) && ReadsFirst(b) && FirstRead(w, cfg, a, s).Some? && FirstRead(w, cfg, b, s).Some?
    requires sys == System(0, s, [Checked(w, cfg, s, a), Checked(w, cfg, s, b)], [])
    ensures var mid := Next(w, cfg, Next(w, cfg, sys, Read(0, event)), Update(0, false));
            var end := Next(w, cfg, Next(w, cfg, mid, Read(1, event)), Update(1, false));
            var e, f := EffectOf(Checked(w, cfg, s, a), event), EffectOf(Checked(w, cfg, s, b), event);
            && end.signup == Effected(w, f, Effected(w, e, s))
            && end.commits == [Commit(Some(0), e, s, Effected(w, e, s)),
                               Commit(Some(1), f, Effected(w, e, s), end.signup)]
  {
    TryCommitsEffect(w, cfg, s, sys, 0, a, event);
    TryCommitsEffect(w, cfg, s, Next(w, cfg, Next(w, cfg, sys, Read(0, event)), Update(0, false)), 1, b, event);
  }

  /** Both requests commit what they decided on the UserSignup they both read first. */
  lemma {:induction false} BothCommit(w: World, cfg: Config, s: UserSignup, a: Request, b: Request,
                                      event: Result<SocialEvent, Error>)
    requires ReadsFirst(a) && ReadsFirst(b) && FirstRead(w, cfg, a, s).Some? && FirstRead(w, cfg, b, s).Some?
    ensures var sys := Run(w, cfg, Start(s, [a, b]), AtOnce(event));
            var e, f := EffectOf(Checked(w, cfg, s, a), event), EffectOf(Checked(w, cfg, s, b), event);
            && sys.signup == Effected(w, f, Effected(w, e, s))
            && sys.commits == [Commit(Some(0), e, s, Effected(w, e, s)),
                               Commit(Some(1), f, Effected(w, e, s), sys.signup)]
  {
    SixSteps(w, cfg, Start(s, [a, b]), AtOnce(event));
    BothCheck(w, cfg, s, a, b);
    TwoTries(w, cfg, s, a, b, System(0, s, [Checked(w, cfg, s, a), Checked(w, cfg, s, b)], []), event);
  }

  lemma {:induction false} SixSteps(w: World, cfg: Config, sys: System, steps: seq<Step>)
    requires |steps| == 6
    ensures var two := Next(w, cfg, Next(w, cfg, sys, steps[0]), steps[1]);
            var four := Next(w, cfg, Next(w, cfg, two, steps[2]), steps[3]);
            Run(w, cfg, sys, steps) == Next(w, cfg, Next(w, cfg, four, steps[4]), steps[5])
  {
    var two := Next(w, cfg, Next(w, cfg, sys, steps[0]), steps[1]);
    var four := Next(w, cfg, Next(w, cfg, two, steps[2]), steps[3]);
    assert steps[..0] == [] && steps[..6] == steps;
    TwoSteps(w, cfg, sys, steps, 0, sys);
    TwoSteps(w, cfg, sys, steps, 2, two);
    TwoSteps(w, cfg, sys, steps, 4, four);
  }
}
