/** What the send counter is worth when calls for a code interleave. */
module SendCounts {
  import opened Text
  import opened Decimal
  import opened UserSignups
  import opened Verification
  import opened OptimisticWrites
  import opened Ledger
  import Runs

  /** The stored send counter, 0 when there is none. */
  function SendNumber(s: UserSignup): Option<int> {
    if s.Annotation(SendCounter) == "" then Some(0) else Atoi(s.Annotation(SendCounter))
  }

  /** The commit records a message that went out. */
  predicate Records(e: Effect) {
    e.CodeAsked? && Code in e.write.annotations
  }

  lemma SendsInRange(w: World, cfg: Config, s: UserSignup, now: int)
    requires cfg.Valid()
    ensures MIN_INT <= SendsSoFar(w, cfg, s, now)
    ensures !WindowOver(w, s, now) && SendNumber(s).Some? ==> SendsSoFar(w, cfg, s, now) == SendNumber(s).value
  {
  }

  /** A recording write stores the next number after what its call has read, which was below the limit. */
  lemma RecordingWrite(w: World, cfg: Config, read: UserSignup, inp: InitInputs, write: Write, s: UserSignup)
    requires cfg.Valid() && InitDecision(w, cfg, read, inp).write == Some(write) && Code in write.annotations
    ensures SendsSoFar(w, cfg, read, inp.now) < cfg.dailyLimit && InitDecision(w, cfg, read, inp).sent.Some?
    ensures SendNumber(Applied(write, s)) == Some(SendsSoFar(w, cfg, read, inp.now) + 1)
  {
    Runs.InitWrites(w, cfg, read, inp);
    SendsInRange(w, cfg, read, inp.now);
    var n := SendsSoFar(w, cfg, read, inp.now) + 1;
    AtoiOfItoa(n);
    assert Atoi("").None?;
    assert Applied(write, s).Annotation(SendCounter) == Itoa(n);
  }

  /** In every run a commit that records a message stores the next number after the sends its call had read
      in the window, which were below the limit then. */
  lemma {:induction false} RecordedSends(w: World, cfg: Config, s: UserSignup, requests: seq<Request>,
                                         steps: seq<Step>, i: nat)
    requires cfg.Valid()
    requires var commits := Run(w, cfg, Start(s, requests), steps).commits;
             i < |commits| && Records(commits[i].effect)
    ensures var commits := Run(w, cfg, Start(s, requests), steps).commits;
            var e := commits[i].effect;
            && e.checked <= i
            && SendsSoFar(w, cfg, Left(s, commits, e.checked), e.inp.now) < cfg.dailyLimit
            && SendNumber(commits[i].after) == Some(SendsSoFar(w, cfg, Left(s, commits, e.checked), e.inp.now) + 1)
  {
    RunKeepsInvariant(w, cfg, s, requests, steps);
    var commits := Run(w, cfg, Start(s, requests), steps).commits;
    assert CountOk(w, cfg, s, commits, i) && Linked(w, s, commits, i);
    var e := commits[i].effect;
    RecordingWrite(w, cfg, Left(s, commits, e.checked), e.inp, e.write, commits[i].before);
  }

  // ----- how far the counter is from the number of recorded messages -----

  /** All recorded messages fall into the window that was open when their call read it, and nothing else
      writes the counter. */
  predicate InOneWindow(w: World, s: UserSignup, commits: seq<Commit>) {
    forall i :: 0 <= i < |commits| ==>
      if Records(commits[i].effect) then
        commits[i].effect.checked <= i ==>
          !WindowOver(w, Left(s, commits, commits[i].effect.checked), commits[i].effect.inp.now)
      else !Touches(commits[i].effect, SendCounter)
  }

  function SendEntry(e: Effect): Entry {
    if Records(e) then Counted(e.checked, 0) else Kept
  }

  function SendEntries(commits: seq<Commit>): (entries: seq<Entry>)
    ensures |entries| == |commits|
    ensures forall i :: 0 <= i < |commits| ==> entries[i] == SendEntry(commits[i].effect)
  {
    seq(|commits|, i requires 0 <= i < |commits| => SendEntry(commits[i].effect))
  }

  predicate Recorded(w: World, cfg: Config, s: UserSignup, commits: seq<Commit>) {
    Chained(w, s, commits) && CountsOk(w, cfg, s, commits) && InOneWindow(w, s, commits)
  }

  lemma EntriesAreValid(w: World, cfg: Config, s: UserSignup, commits: seq<Commit>)
    requires Recorded(w, cfg, s, commits)
    ensures Valid(SendEntries(commits))
  {
    forall i | 0 <= i < |commits| && Records(commits[i].effect) ensures commits[i].effect.checked <= i {
      assert CountOk(w, cfg, s, commits, i);
    }
  }

  lemma OneCommit(w: World, cfg: Config, s: UserSignup, commits: seq<Commit>, i: nat)
    requires cfg.Valid() && Recorded(w, cfg, s, commits) && i < |commits|
    ensures var e := commits[i].effect;
            if Records(e) then
              && e.checked <= i
              && (SendNumber(Left(s, commits, e.checked)).Some? ==>
                    SendNumber(Left(s, commits, i + 1)) == Some(SendNumber(Left(s, commits, e.checked)).value + 1))
            else SendNumber(Left(s, commits, i + 1)) == SendNumber(Left(s, commits, i))
  {
    assert Linked(w, s, commits, i) && CountOk(w, cfg, s, commits, i);
    var e := commits[i].effect;
    if Records(e) {
      RecordingWrite(w, cfg, Left(s, commits, e.checked), e.inp, e.write, commits[i].before);
      SendsInRange(w, cfg, Left(s, commits, e.checked), e.inp.now);
    } else {
      UntouchedStays(w, e, commits[i].before, SendCounter);
    }
  }

  /** The stored counter is the one of the ledger. */
  lemma {:induction false} CounterIsNumber(w: World, cfg: Config, s: UserSignup, commits: seq<Commit>, n: nat)
    requires cfg.Valid() && Recorded(w, cfg, s, commits) && SendNumber(s).Some? && n <= |commits|
    requires Valid(SendEntries(commits))
    ensures SendNumber(Left(s, commits, n)) == Some(Number(SendNumber(s).value, SendEntries(commits), n))
  {
    if n > 0 {
      OneCommit(w, cfg, s, commits, n - 1);
      var e := commits[n - 1].effect;
      CounterIsNumber(w, cfg, s, commits, if Records(e) then e.checked else n - 1);
    }
  }

  /** No call missed a message that another recorded between its read and its commit. */
  predicate NoneMissed(entries: seq<Entry>)
    requires Valid(entries)
  {
    forall i :: 0 <= i < |entries| && entries[i].Counted? ==> Missed(entries, i) == 0
  }

  /** In every run whose recorded messages fall into one window: the counter counts them exactly if and only
      if no call missed a message that another recorded between its read and its commit. */
  lemma {:induction false} SendCountIsKeptExactly(w: World, cfg: Config, s: UserSignup, requests: seq<Request>,
                                                  steps: seq<Step>)
    requires cfg.Valid() && SendNumber(s).Some?
    requires InOneWindow(w, s, Run(w, cfg, Start(s, requests), steps).commits)
    ensures var commits := Run(w, cfg, Start(s, requests), steps).commits;
            var entries := SendEntries(commits);
            var first := SendNumber(s).value;
            && Valid(entries)
            && (forall n :: 0 <= n <= |commits| ==> SendNumber(Left(s, commits, n)) == Some(Number(first, entries, n)))
            && (AlwaysExact(first, entries) <==> NoneMissed(entries))
  {
    RunKeepsInvariant(w, cfg, s, requests, steps);
    LedgerOfCommits(w, cfg, s, Run(w, cfg, Start(s, requests), steps).commits);
  }

  lemma LedgerOfCommits(w: World, cfg: Config, s: UserSignup, commits: seq<Commit>)
    requires cfg.Valid() && Recorded(w, cfg, s, commits) && SendNumber(s).Some?
    ensures var entries := SendEntries(commits);
            var first := SendNumber(s).value;
            && Valid(entries)
            && (forall n :: 0 <= n <= |commits| ==> SendNumber(Left(s, commits, n)) == Some(Number(first, entries, n)))
            && (AlwaysExact(first, entries) <==> NoneMissed(entries))
  {
    EntriesAreValid(w, cfg, s, commits);
    forall n | 0 <= n <= |commits|
      ensures SendNumber(Left(s, commits, n)) == Some(Number(SendNumber(s).value, SendEntries(commits), n))
    {
      CounterIsNumber(w, cfg, s, commits, n);
    }
    ExactExactly(SendNumber(s).value, SendEntries(commits));
    assert ExtrasMatch(SendEntries(commits)) <==> NoneMissed(SendEntries(commits));
  }

  // ----- two calls at once -----

  /** From every UserSignup on which both calls would send, within the open window: called at once, both
      messages go out and are recorded, and the counter rises by one. With one send left the limit is
      exceeded. */
  lemma {:induction false} SendsCanCollapse(w: World, cfg: Config, s: UserSignup, a: InitInputs, b: InitInputs)
    requires cfg.Valid() && SendNumber(s).Some? && !WindowOver(w, s, a.now) && !WindowOver(w, s, b.now)
    requires InitDecision(w, cfg, s, a).sent.Some? && InitDecision(w, cfg, s, b).sent.Some?
    ensures var sys := Run(w, cfg, Start(s, [AskCode(a), AskCode(b)]), AtOnce(Err(EventNotFound)));
            && |sys.commits| == 2 && sys.commits[0].author == Some(0) && sys.commits[1].author == Some(1)
            && Records(sys.commits[0].effect) && Records(sys.commits[1].effect)
            && SendNumber(sys.signup) == Some(SendNumber(s).value + 1)
  {
    DecisionRecords(w, cfg, s, a);
    DecisionRecords(w, cfg, s, b);
    BothCommit(w, cfg, s, AskCode(a), AskCode(b), Err(EventNotFound));
    var write := InitDecision(w, cfg, s, b).write.value;
    var first := Applied(InitDecision(w, cfg, s, a).write.value, s);
    RecordingWrite(w, cfg, s, b, write, first);
    SendsInRange(w, cfg, s, b.now);
  }

  lemma DecisionRecords(w: World, cfg: Config, s: UserSignup, inp: InitInputs)
    requires InitDecision(w, cfg, s, inp).sent.Some?
    ensures InitDecision(w, cfg, s, inp).write.Some? && Code in InitDecision(w, cfg, s, inp).write.value.annotations
  {
    Runs.InitWrites(w, cfg, s, inp);
  }
}
