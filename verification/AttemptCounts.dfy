/** What the attempts counter is worth when activation requests interleave. */
module AttemptCounts {
  import opened Text
  import opened Decimal
  import opened UserSignups
  import opened Verification
  import opened PollUpdate
  import opened OptimisticWrites
  import opened Ledger

  /** The stored counter, 0 when there is none. */
  function CounterOf(s: UserSignup): Option<int> {
    if s.Annotation(Attempts) == "" then Some(0) else Atoi(s.Annotation(Attempts))
  }

  lemma CheckReadsCounter(cfg: Config, s: UserSignup)
    requires cfg.Valid() && CheckedAttempts(cfg, s).Ok?
    ensures CounterOf(s) == Some(CheckedAttempts(cfg, s).value)
    ensures MIN_INT <= CheckedAttempts(cfg, s).value <= 0x8000_0000
  {
  }

  lemma CountedReadsBack(s: UserSignup, n: int)
    requires MIN_INT <= n <= MAX_INT
    ensures CounterOf(WithAttempts(s, n)) == Some(n)
  {
    AtoiOfItoa(n);
    assert Atoi("").None?;
  }

  /** In every run a commit that counts a wrong phone or activation code stores what its request had read
      plus its own tries that found the code invalid, one to five. So the counter is then exactly that
      number, and it has risen exactly if it was below. */
  lemma {:induction false} CountedCommits(w: World, cfg: Config, s: UserSignup, requests: seq<Request>,
                                          steps: seq<Step>, i: nat)
    requires cfg.Valid()
    requires var commits := Run(w, cfg, Start(s, requests), steps).commits;
             i < |commits| && commits[i].effect.AttemptCounted?
    ensures var commits := Run(w, cfg, Start(s, requests), steps).commits;
            var e := commits[i].effect;
            && e.checked <= i && 1 <= e.invalid <= MAX_ATTEMPTS
            && CheckedAttempts(cfg, Left(s, commits, e.checked)) == Ok(e.base)
            && CounterOf(commits[i].after) == Some(e.base + e.invalid)
            && (CounterOf(commits[i].before).Some? ==>
                  (CounterOf(commits[i].after).value > CounterOf(commits[i].before).value
                   <==> CounterOf(commits[i].before).value < e.base + e.invalid))
  {
    RunKeepsInvariant(w, cfg, s, requests, steps);
    var commits := Run(w, cfg, Start(s, requests), steps).commits;
    assert CountOk(w, cfg, s, commits, i) && Linked(w, s, commits, i);
    var e := commits[i].effect;
    CheckReadsCounter(cfg, Left(s, commits, e.checked));
    CountedReadsBack(commits[i].before, e.base + e.invalid);
  }

  // ----- how far the counter is from the number of recorded attempts -----

  /** Nothing else writes the counter: no event is applied, no message is recorded, no code accepted, no
      reactivation, no other controller. */
  predicate OnlyCounts(commits: seq<Commit>) {
    forall i :: 0 <= i < |commits| ==> commits[i].effect.AttemptCounted? || !Touches(commits[i].effect, Attempts)
  }

  /** A recorded attempt adds one to what its request read, and one for every further try that found the
      code invalid. */
  function AttemptEntry(e: Effect): Entry {
    if e.AttemptCounted? then Counted(e.checked, e.invalid - 1) else Kept
  }

  function AttemptEntries(commits: seq<Commit>): (entries: seq<Entry>)
    ensures |entries| == |commits|
    ensures forall i :: 0 <= i < |commits| ==> entries[i] == AttemptEntry(commits[i].effect)
  {
    seq(|commits|, i requires 0 <= i < |commits| => AttemptEntry(commits[i].effect))
  }

  predicate Recorded(w: World, cfg: Config, s: UserSignup, commits: seq<Commit>) {
    Chained(w, s, commits) && CountsOk(w, cfg, s, commits) && OnlyCounts(commits)
  }

  lemma EntriesAreValid(w: World, cfg: Config, s: UserSignup, commits: seq<Commit>)
    requires Recorded(w, cfg, s, commits)
    ensures Valid(AttemptEntries(commits))
  {
    forall i | 0 <= i < |commits| && commits[i].effect.AttemptCounted? ensures commits[i].effect.checked <= i {
      assert CountOk(w, cfg, s, commits, i);
    }
  }

  lemma OneCommit(w: World, cfg: Config, s: UserSignup, commits: seq<Commit>, i: nat)
    requires cfg.Valid() && Recorded(w, cfg, s, commits) && i < |commits|
    ensures var e := commits[i].effect;
            if e.AttemptCounted? then
              && e.checked <= i && CounterOf(Left(s, commits, e.checked)).Some?
              && CounterOf(Left(s, commits, i + 1)) == Some(CounterOf(Left(s, commits, e.checked)).value + e.invalid)
            else CounterOf(Left(s, commits, i + 1)) == CounterOf(Left(s, commits, i))
  {
    assert Linked(w, s, commits, i) && CountOk(w, cfg, s, commits, i);
    var e := commits[i].effect;
    if e.AttemptCounted? {
      CheckReadsCounter(cfg, Left(s, commits, e.checked));
      CountedReadsBack(commits[i].before, e.base + e.invalid);
    } else {
      UntouchedStays(w, e, commits[i].before, Attempts);
    }
  }

  /** The stored counter is the one of the ledger. */
  lemma {:induction false} CounterIsNumber(w: World, cfg: Config, s: UserSignup, commits: seq<Commit>, n: nat)
    requires cfg.Valid() && Recorded(w, cfg, s, commits) && CounterOf(s).Some? && n <= |commits|
    requires Valid(AttemptEntries(commits))
    ensures CounterOf(Left(s, commits, n)) == Some(Number(CounterOf(s).value, AttemptEntries(commits), n))
  {
    if n > 0 {
      OneCommit(w, cfg, s, commits, n - 1);
      var e := commits[n - 1].effect;
      CounterIsNumber(w, cfg, s, commits, if e.AttemptCounted? then e.checked else n - 1);
    }
  }

  /** In every run in which nothing else writes the counter: it is at every commit the number the ledger of
      the recorded attempts gives. So it counts them exactly if and only if each spent one extra try for
      each attempt recorded by others between its read and its commit; and it never counts too few if and
      only if no chain of reads missed more attempts than it spent extra tries, for which it is enough that
      no attempt did. */
  lemma {:induction false} CountIsKeptExactly(w: World, cfg: Config, s: UserSignup, requests: seq<Request>,
                                              steps: seq<Step>)
    requires cfg.Valid() && CounterOf(s).Some? && OnlyCounts(Run(w, cfg, Start(s, requests), steps).commits)
    ensures var commits := Run(w, cfg, Start(s, requests), steps).commits;
            var entries := AttemptEntries(commits);
            var first := CounterOf(s).value;
            && Valid(entries)
            && (forall n :: 0 <= n <= |commits| ==> CounterOf(Left(s, commits, n)) == Some(Number(first, entries, n)))
            && (AlwaysExact(first, entries) <==> ExtrasMatch(entries))
            && (AlwaysCovers(first, entries) <==> NeverInDebt(entries))
            && (ExtrasSuffice(entries) ==> AlwaysCovers(first, entries))
  {
    RunKeepsInvariant(w, cfg, s, requests, steps);
    LedgerOfCommits(w, cfg, s, Run(w, cfg, Start(s, requests), steps).commits);
  }

  lemma LedgerOfCommits(w: World, cfg: Config, s: UserSignup, commits: seq<Commit>)
    requires cfg.Valid() && Recorded(w, cfg, s, commits) && CounterOf(s).Some?
    ensures var entries := AttemptEntries(commits);
            var first := CounterOf(s).value;
            && Valid(entries)
            && (forall n :: 0 <= n <= |commits| ==> CounterOf(Left(s, commits, n)) == Some(Number(first, entries, n)))
            && (AlwaysExact(first, entries) <==> ExtrasMatch(entries))
            && (AlwaysCovers(first, entries) <==> NeverInDebt(entries))
            && (ExtrasSuffice(entries) ==> AlwaysCovers(first, entries))
  {
    EntriesAreValid(w, cfg, s, commits);
    forall n | 0 <= n <= |commits|
      ensures CounterOf(Left(s, commits, n)) == Some(Number(CounterOf(s).value, AttemptEntries(commits), n))
    {
      CounterIsNumber(w, cfg, s, commits, n);
    }
    ExactExactly(CounterOf(s).value, AttemptEntries(commits));
    CoversExactly(CounterOf(s).value, AttemptEntries(commits));
  }

  // ----- two requests at once -----

  /** From every UserSignup with attempts left: two invalid activation codes tried at once are both
      recorded, and the counter rises by one. */
  lemma {:induction false} CountsCanCollapse(w: World, cfg: Config, s: UserSignup, problem: Error)
    requires cfg.Valid() && CheckedAttempts(cfg, s).Ok?
    ensures var sys := Run(w, cfg, Start(s, [TryActivation, TryActivation]), AtOnce(Err(problem)));
            && |sys.commits| == 2 && sys.commits[0].author == Some(0) && sys.commits[1].author == Some(1)
            && sys.commits[0].effect.AttemptCounted? && sys.commits[1].effect.AttemptCounted?
            && CounterOf(s).Some? && CounterOf(sys.signup) == Some(CounterOf(s).value + 1)
  {
    var read := CheckedAttempts(cfg, s).value;
    BothCommit(w, cfg, s, TryActivation, TryActivation, Err(problem));
    CheckReadsCounter(cfg, s);
    CountedReadsBack(WithAttempts(s, read + 1), read + 1);
  }
}
