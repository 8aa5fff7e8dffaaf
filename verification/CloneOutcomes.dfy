/** When cloning fails, and what becomes of a repository that asks for credentials. */
module CloneOutcomes {
  import opened Wrappers
  import opened CloneProtocol

  // ---- what happened, read off the actions alone ----

  /** The clone of `k` ended with `result`, and the consuming task took note of it. */
  predicate Took(run: seq<Action>, k: Key, result: CloneResult) {
    run != [] &&
      (Took(run[..|run| - 1], k, result) || (run[|run| - 1] == Take(k) && Finish(k, result) in run[..|run| - 1]))
  }

  /** A look-up, clone, move or marker that failed; under CI also a first pass that needed credentials. */
  ghost predicate FailsNow(c: Config, before: seq<Action>, a: Action) {
    || a.ScanFails? || a == Rename(false) || (a.Mark? && !a.ok) || a == FinishRetry(false)
    || (a.Take? && Finish(a.key, OtherError) in before)
    || (a == EndFirstPass && c.ci && exists k :: Took(before, k, AuthError))
  }

  ghost predicate FailureOccurs(c: Config, run: seq<Action>) {
    run != [] && (FailureOccurs(c, run[..|run| - 1]) || FailsNow(c, run[..|run| - 1], run[|run| - 1]))
  }

  // ---- the state agrees with what happened ----

  /** Finished clones are those whose results wait to be taken. */
  ghost predicate ResultsAgree(s: State, run: seq<Action>) {
    && (forall k | k in s.stages && s.stages[k].Finished? :: Finish(k, s.stages[k].result) in run)
    && (forall k, r | Finish(k, r) in run :: Finished(s, k, r))
  }

  /** Repositories waiting for a retry are those taken with an authentication error and not retried yet. */
  ghost predicate RetriesAgree(s: State, run: seq<Action>) {
    && (forall k, r | Took(run, k, r) :: k in s.stages && s.stages[k] in {Taken, AuthFailed, Ready})
    && (forall k | k in s.stages :: s.stages[k] == AuthFailed <==> Took(run, k, AuthError) && Retry(k) !in run)
    && (forall k | Retry(k) in run :: Took(run, k, AuthError))
  }

  ghost predicate PhasesAgree(c: Config, s: State, run: seq<Action>) {
    && (s.phase in {Scanning, FirstPass} <==> EndFirstPass !in run)
    && (forall k | Retry(k) in run :: !c.ci && EndFirstPass in run)
    && (EndRetry in run ==> !c.ci)
    && (s.phase == Returned(true) <==> if c.ci then EndFirstPass in run else EndRetry in run)
  }

  ghost predicate Agrees(c: Config, s: State, run: seq<Action>) {
    ResultsAgree(s, run) && RetriesAgree(s, run) && PhasesAgree(c, s, run)
  }

  lemma TookSnoc(run: seq<Action>, a: Action, k: Key, r: CloneResult)
    ensures Took(run + [a], k, r) <==> Took(run, k, r) || (a == Take(k) && Finish(k, r) in run)
  {
    assert (run + [a])[..|run|] == run;
  }

  lemma InSnoc(run: seq<Action>, a: Action, b: Action)
    ensures b in run + [a] <==> b in run || b == a
  {
  }

  lemma ResultsStillAgree(c: Config, s: State, run: seq<Action>, a: Action)
    requires Enabled(c, s, a) && TaskOwnsRepo(s) && ResultsAgree(s, run) && Step(c, s, a).phase != Returned(false)
    ensures ResultsAgree(Step(c, s, a), run + [a])
  {
    var s' := Step(c, s, a);
    forall k | k in s'.stages && s'.stages[k].Finished?
      ensures Finish(k, s'.stages[k].result) in run + [a]
    {
      InSnoc(run, a, Finish(k, s'.stages[k].result));
    }
    forall k, r | Finish(k, r) in run + [a]
      ensures Finished(s', k, r)
    {
      InSnoc(run, a, Finish(k, r));
      FinishedStays(c, s, a, k, r, Finish(k, r) in run);
    }
  }

  predicate Finished(s: State, k: Key, r: CloneResult) {
    k in s.stages && s.stages[k] !in {Unseen, Pending, Running} && (s.stages[k].Finished? ==> s.stages[k].result == r)
  }

  lemma FinishedStays(c: Config, s: State, a: Action, k: Key, r: CloneResult, before: bool)
    requires Enabled(c, s, a) && TaskOwnsRepo(s) && (if before then Finished(s, k, r) else a == Finish(k, r))
    ensures Finished(Step(c, s, a), k, r)
  {
  }

  lemma TakenStaysTaken(c: Config, s: State, run: seq<Action>, a: Action, k: Key, r: CloneResult)
    requires Enabled(c, s, a) && TaskOwnsRepo(s) && Agrees(c, s, run) && Step(c, s, a).phase != Returned(false)
    requires Took(run + [a], k, r)
    ensures k in Step(c, s, a).stages && Step(c, s, a).stages[k] in {Taken, AuthFailed, Ready}
  {
    TookSnoc(run, a, k, r);
  }

  lemma WaitingStillAgrees(c: Config, s: State, run: seq<Action>, a: Action, k: Key)
    requires Enabled(c, s, a) && TaskOwnsRepo(s) && Agrees(c, s, run) && Step(c, s, a).phase != Returned(false)
    ensures var s' := Step(c, s, a);
      && (k in s'.stages ==> (s'.stages[k] == AuthFailed <==> Took(run + [a], k, AuthError) && Retry(k) !in run + [a]))
      && (Retry(k) in run + [a] ==> Took(run + [a], k, AuthError))
  {
    InSnoc(run, a, Retry(k));
    TookSnoc(run, a, k, AuthError);
    if a == Take(k) {
      NotTakenYet(s, run, k);
    }
  }

  lemma NotTakenYet(s: State, run: seq<Action>, k: Key)
    requires RetriesAgree(s, run) && k in s.stages && s.stages[k].Finished?
    ensures !Took(run, k, AuthError) && Retry(k) !in run
  {
  }

  lemma PhasesStillAgree(c: Config, s: State, run: seq<Action>, a: Action)
    requires Enabled(c, s, a) && PhasesAgree(c, s, run) && PhasesInOrder(c, s) && Step(c, s, a).phase != Returned(false)
    ensures PhasesAgree(c, Step(c, s, a), run + [a])
  {
    InSnoc(run, a, EndFirstPass);
    InSnoc(run, a, EndRetry);
    forall k | Retry(k) in run + [a]
      ensures !c.ci && EndFirstPass in run + [a]
    {
      InSnoc(run, a, Retry(k));
    }
  }

  /** A step ends in failure exactly when the action just taken is a failing one. */
  lemma StepFailsIff(c: Config, s: State, run: seq<Action>, a: Action)
    requires Enabled(c, s, a) && Agrees(c, s, run)
    ensures Step(c, s, a).phase == Returned(false) <==> FailsNow(c, run, a)
  {
    if a == EndFirstPass {
      assert forall k | k in s.stages :: s.stages[k] == AuthFailed <==> k in InStage(s, AuthFailed);
      assert forall k | Took(run, k, AuthError) :: k in InStage(s, AuthFailed);
    }
  }

  lemma {:induction false} RunAgrees(c: Config, requested: set<Key>, start: Disk, run: seq<Action>)
    requires Injective(c, requested) && MarkersSound(c, start) && Legal(c, requested, start, run)
    ensures var s := After(c, requested, start, run);
      && (s.phase == Returned(false) <==> FailureOccurs(c, run))
      && (s.phase != Returned(false) ==> Agrees(c, s, run))
  {
    if run != [] {
      var init, a := run[..|run| - 1], run[|run| - 1];
      var s := After(c, requested, start, init);
      assert run == init + [a];
      RunAgrees(c, requested, start, init);
      ReachableValid(c, requested, start, init);
      StepFailsIff(c, s, init, a);
      if Step(c, s, a).phase != Returned(false) {
        AgreesNext(c, s, init, a);
      }
    }
  }

  lemma AgreesNext(c: Config, s: State, run: seq<Action>, a: Action)
    requires Enabled(c, s, a) && TaskOwnsRepo(s) && PhasesInOrder(c, s) && Agrees(c, s, run)
    requires Step(c, s, a).phase != Returned(false)
    ensures Agrees(c, Step(c, s, a), run + [a])
  {
    ResultsStillAgree(c, s, run, a);
    PhasesStillAgree(c, s, run, a);
    forall k, r | Took(run + [a], k, r) {
      TakenStaysTaken(c, s, run, a, k, r);
    }
    forall k {
      WaitingStillAgrees(c, s, run, a, k);
    }
  }

  // ---- the outcomes ----

  /** A run has failed if and only if one of the failures occurred in it. */
  lemma FailsIff(c: Config, requested: set<Key>, start: Disk, run: seq<Action>)
    requires Injective(c, requested) && MarkersSound(c, start) && Legal(c, requested, start, run)
    ensures After(c, requested, start, run).phase == Returned(false) <==> FailureOccurs(c, run)
  {
    RunAgrees(c, requested, start, run);
  }

  /** It has succeeded if and only if it came to the end of its last pass without one. */
  lemma SucceedsIff(c: Config, requested: set<Key>, start: Disk, run: seq<Action>)
    requires Injective(c, requested) && MarkersSound(c, start) && Legal(c, requested, start, run)
    ensures After(c, requested, start, run).phase == Returned(true)
      <==> !FailureOccurs(c, run) && if c.ci then EndFirstPass in run else EndRetry in run
  {
    RunAgrees(c, requested, start, run);
  }

  /** A successful run has retried exactly the repositories that asked for credentials; under CI there were none. */
  lemma AuthErrorsAreRetried(c: Config, requested: set<Key>, start: Disk, run: seq<Action>, k: Key)
    requires Injective(c, requested) && MarkersSound(c, start) && Legal(c, requested, start, run)
    requires After(c, requested, start, run).phase == Returned(true)
    ensures Took(run, k, AuthError) <==> Retry(k) in run
    ensures Took(run, k, AuthError) ==> !c.ci
  {
    RunAgrees(c, requested, start, run);
    ReachableValid(c, requested, start, run);
  }

  // ---- both ways of ending, for a private repository ----

  lemma OneMore(c: Config, requested: set<Key>, start: Disk, run: seq<Action>, a: Action)
    requires Legal(c, requested, start, run) && Enabled(c, After(c, requested, start, run), a)
    ensures Legal(c, requested, start, run + [a])
    ensures After(c, requested, start, run + [a]) == Step(c, After(c, requested, start, run), a)
  {
    assert (run + [a])[..|run|] == run;
  }

  /** Up to the point where the result of the only clone is taken. */
  function FirstTry(k: Key, result: CloneResult): seq<Action> {
    [Scan(k)] + [EndScan] + [Start(k)] + [Finish(k, result)] + [Take(k)]
  }

  /** The state of a run for one repository. */
  predicate Only(s: State, k: Key, phase: Phase, stage: Stage, task: Task) {
    s.phase == phase && s.stages == map[k := stage] && s.task == task
  }

  lemma Scanned(c: Config, k: Key, start: Disk)
    requires c.window > 0 && !Marked(start, c.name(k))
    ensures var run := [Scan(k)] + [EndScan];
      Legal(c, {k}, start, run) && Only(After(c, {k}, start, run), k, FirstPass, Pending, Idle)
  {
    assert Only(Initial({k}, start), k, Scanning, Unseen, Idle);
    OneMore(c, {k}, start, [], Scan(k));
    assert [] + [Scan(k)] == [Scan(k)];
    assert InStage(After(c, {k}, start, [Scan(k)]), Unseen) == {};
    OneMore(c, {k}, start, [Scan(k)], EndScan);
  }

  lemma Started(c: Config, k: Key, start: Disk)
    requires c.window > 0 && !Marked(start, c.name(k))
    ensures var run := [Scan(k)] + [EndScan] + [Start(k)];
      Legal(c, {k}, start, run) && Only(After(c, {k}, start, run), k, FirstPass, Running, Idle)
  {
    Scanned(c, k, start);
    assert InFlight(After(c, {k}, start, [Scan(k)] + [EndScan])) == {};
    OneMore(c, {k}, start, [Scan(k)] + [EndScan], Start(k));
  }

  /** A clone may end in any way. */
  lemma FirstTryIsLegal(c: Config, k: Key, start: Disk, result: CloneResult)
    requires c.window > 0 && !Marked(start, c.name(k))
    ensures Legal(c, {k}, start, FirstTry(k, result))
    ensures var s := After(c, {k}, start, FirstTry(k, result));
      match result
      case Cloned => Only(s, k, FirstPass, Taken, Persisting(k, Removing))
      case AuthError => Only(s, k, FirstPass, AuthFailed, Idle)
      case OtherError => s.phase == Returned(false)
  {
    Started(c, k, start);
    OneMore(c, {k}, start, [Scan(k)] + [EndScan] + [Start(k)], Finish(k, result));
    OneMore(c, {k}, start, [Scan(k)] + [EndScan] + [Start(k)] + [Finish(k, result)], Take(k));
  }

  /** Without authentication the first pass ends: under CI in failure, otherwise in a retry. */
  lemma FirstPassWithoutCredentials(c: Config, k: Key, start: Disk)
    requires c.window > 0 && !Marked(start, c.name(k))
    ensures var run := FirstTry(k, AuthError) + [EndFirstPass];
      && Legal(c, {k}, start, run)
      && Only(After(c, {k}, start, run), k, if c.ci then Returned(false) else Retrying, AuthFailed, Idle)
  {
    FirstTryIsLegal(c, k, start, AuthError);
    var s := After(c, {k}, start, FirstTry(k, AuthError));
    assert InStage(s, Pending) == {} && InFlight(s) == {} && k in InStage(s, AuthFailed);
    OneMore(c, {k}, start, FirstTry(k, AuthError), EndFirstPass);
  }

  /** From the prompt to the end. */
  function PromptedTry(k: Key): seq<Action> {
    FirstTry(k, AuthError) + [EndFirstPass] + [Retry(k)] + [FinishRetry(true)] + [Remove(None)] + [Rename(true)] + [Mark(true, true)]
      + [EndRetry]
  }

  /** Outside CI, a repository that asks for credentials can be cloned with a prompt. */
  lemma PrivateRepoCanSucceed(c: Config, k: Key, start: Disk)
    requires c.window > 0 && !c.ci && !Marked(start, c.name(k))
    ensures Injective(c, {k}) && Legal(c, {k}, start, PromptedTry(k))
    ensures After(c, {k}, start, PromptedTry(k)).phase == Returned(true)
  {
    var prompted := FirstTry(k, AuthError) + [EndFirstPass] + [Retry(k)] + [FinishRetry(true)];
    FirstPassWithoutCredentials(c, k, start);
    Prompted(c, k, start, FirstTry(k, AuthError) + [EndFirstPass]);
    Moved(c, k, start, prompted);
    var moved := prompted + [Remove(None)] + [Rename(true)];
    MarkedReady(c, k, start, moved);
    Done(c, k, start, moved + [Mark(true, true)]);
  }

  lemma Prompted(c: Config, k: Key, start: Disk, run: seq<Action>)
    requires Legal(c, {k}, start, run) && Only(After(c, {k}, start, run), k, Retrying, AuthFailed, Idle)
    ensures var prompted := run + [Retry(k)] + [FinishRetry(true)];
      Legal(c, {k}, start, prompted) && Only(After(c, {k}, start, prompted), k, Retrying, Taken, Persisting(k, Removing))
  {
    OneMore(c, {k}, start, run, Retry(k));
    OneMore(c, {k}, start, run + [Retry(k)], FinishRetry(true));
  }

  lemma Moved(c: Config, k: Key, start: Disk, run: seq<Action>)
    requires Legal(c, {k}, start, run) && Only(After(c, {k}, start, run), k, Retrying, Taken, Persisting(k, Removing))
    ensures var moved := run + [Remove(None)] + [Rename(true)];
      Legal(c, {k}, start, moved) && Only(After(c, {k}, start, moved), k, Retrying, Taken, Persisting(k, Marking))
  {
    OneMore(c, {k}, start, run, Remove(None));
    OneMore(c, {k}, start, run + [Remove(None)], Rename(true));
  }

  lemma MarkedReady(c: Config, k: Key, start: Disk, run: seq<Action>)
    requires Legal(c, {k}, start, run) && Only(After(c, {k}, start, run), k, Retrying, Taken, Persisting(k, Marking))
    ensures var marked := run + [Mark(true, true)];
      Legal(c, {k}, start, marked) && Only(After(c, {k}, start, marked), k, Retrying, Ready, Idle)
  {
    OneMore(c, {k}, start, run, Mark(true, true));
  }

  lemma Done(c: Config, k: Key, start: Disk, run: seq<Action>)
    requires Legal(c, {k}, start, run) && Only(After(c, {k}, start, run), k, Retrying, Ready, Idle)
    ensures Legal(c, {k}, start, run + [EndRetry]) && After(c, {k}, start, run + [EndRetry]).phase == Returned(true)
  {
    NothingToRetry(After(c, {k}, start, run), k);
    OneMore(c, {k}, start, run, EndRetry);
  }

  lemma NothingToRetry(s: State, k: Key)
    requires s.stages == map[k := Ready]
    ensures InStage(s, AuthFailed) == {}
  {
  }
}
