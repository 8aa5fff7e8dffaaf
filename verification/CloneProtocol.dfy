/**
  Cloning remote repositories into the store (`clone_repos`).

  Pending repositories are cloned in parallel with terminal prompts disabled; what fails to
  authenticate is retried afterwards, one at a time, with prompts enabled.  A clone is made in scratch
  space, moved over its target directory and only then marked.  Every step below is a point where the
  process may stop, so an invariant of all reachable states is a statement about every crash.
 */
module CloneProtocol {
  import opened Wrappers

  type Dir = string

  datatype Key = Key(source: string, rev: string)

  datatype Content = Junk | Clone(key: Key)

  datatype Target = Target(content: Content, marker: bool)

  type Disk = map<Dir, Target>

  datatype CloneResult = Cloned | AuthError | OtherError

  /** Where one requested repository stands. */
  datatype Stage = Unseen | Pending | Running | Finished(result: CloneResult) | Taken | AuthFailed | Ready

  datatype PersistStep = Removing | Renaming | Marking

  /** What the (single) consuming task is doing. */
  datatype Task = Idle | Persisting(key: Key, step: PersistStep) | Prompting(key: Key)

  datatype Phase = Scanning | FirstPass | Retrying | Returned(ok: bool)

  datatype State = State(
    phase: Phase,
    stages: map<Key, Stage>,
    task: Task,
    cloned: map<Key, Dir>,
    disk: Disk)

  /** The fixed surroundings: directory names (a hash in the program), parallelism, CI. */
  datatype Config = Config(name: Key -> Dir, window: nat, ci: bool)

  predicate Injective(c: Config, keys: set<Key>) {
    forall a, b | a in keys && b in keys && c.name(a) == c.name(b) :: a == b
  }

  datatype Action =
    | Scan(key: Key)
    | ScanFails(key: Key)
    | EndScan
    | Start(key: Key)
    | Finish(key: Key, result: CloneResult)
    | Take(key: Key)
    | Remove(left: Option<Target>)
    | Rename(ok: bool)
    | Mark(ok: bool, created: bool)
    | EndFirstPass
    | Retry(key: Key)
    | FinishRetry(ok: bool)
    | EndRetry

  function InStage(s: State, stage: Stage): set<Key> {
    set k | k in s.stages && s.stages[k] == stage
  }

  /** Clones occupying a slot of the bounded window. */
  function InFlight(s: State): set<Key> {
    set k | k in s.stages && (s.stages[k] == Running || s.stages[k].Finished?)
  }

  predicate Marked(disk: Disk, d: Dir) {
    d in disk && disk[d].marker
  }

  predicate Enabled(c: Config, s: State, a: Action) {
    match a
    case Scan(k) => s.phase == Scanning && k in s.stages && s.stages[k] == Unseen
    case ScanFails(k) => s.phase == Scanning && k in s.stages && s.stages[k] == Unseen
    case EndScan => s.phase == Scanning && InStage(s, Unseen) == {}
    case Start(k) => s.phase == FirstPass && k in s.stages && s.stages[k] == Pending && |InFlight(s)| < c.window
    case Finish(k, _) => s.phase == FirstPass && k in s.stages && s.stages[k] == Running
    case Take(k) => s.phase == FirstPass && s.task == Idle && k in s.stages && s.stages[k].Finished?
    case Remove(left) =>
      // removal may fail half-way, but it never creates a marker
      && !s.phase.Returned? && s.task.Persisting? && s.task.step == Removing
      && (left != None ==> left.value.content == Junk && (left.value.marker ==> Marked(s.disk, c.name(s.task.key))))
    case Rename(_) => !s.phase.Returned? && s.task.Persisting? && s.task.step == Renaming
    case Mark(ok, created) => !s.phase.Returned? && s.task.Persisting? && s.task.step == Marking && (ok ==> created)
    case EndFirstPass => s.phase == FirstPass && s.task == Idle && InStage(s, Pending) == {} && InFlight(s) == {}
    case Retry(k) => s.phase == Retrying && s.task == Idle && k in s.stages && s.stages[k] == AuthFailed
    case FinishRetry(_) => s.phase == Retrying && s.task.Prompting?
    case EndRetry => s.phase == Retrying && s.task == Idle && InStage(s, AuthFailed) == {}
  }

  function Fail(s: State): State {
    s.(phase := Returned(false))
  }

  function Step(c: Config, s: State, a: Action): State
    requires Enabled(c, s, a)
  {
    match a
    case Scan(k) =>
      if Marked(s.disk, c.name(k))
      then s.(stages := s.stages[k := Ready], cloned := s.cloned[k := c.name(k)])
      else s.(stages := s.stages[k := Pending])
    case ScanFails(_) => Fail(s)
    case EndScan => s.(phase := FirstPass)
    case Start(k) => s.(stages := s.stages[k := Running])
    case Finish(k, result) => s.(stages := s.stages[k := Finished(result)])
    case Take(k) =>
      (match s.stages[k].result
       case Cloned => s.(stages := s.stages[k := Taken], task := Persisting(k, Removing))
       case AuthError => s.(stages := s.stages[k := AuthFailed])
       case OtherError => Fail(s))
    case Remove(left) =>
      var d := c.name(s.task.key);
      s.(task := s.task.(step := Renaming),
         disk := match left case None => s.disk - {d} case Some(t) => s.disk[d := t])
    case Rename(ok) =>
      if !ok then Fail(s)
      else
        s.(task := s.task.(step := Marking),
           disk := s.disk[c.name(s.task.key) := Target(Clone(s.task.key), false)])
    case Mark(ok, created) =>
      var k := s.task.key;
      var d := c.name(k);
      var s' := s.(disk := s.disk[d := Target(Clone(k), created)]);
      if !ok then Fail(s')
      else s'.(task := Idle, stages := s.stages[k := Ready], cloned := s.cloned[k := d])
    case EndFirstPass =>
      if !c.ci then s.(phase := Retrying)
      else if InStage(s, AuthFailed) != {} then Fail(s)
      else s.(phase := Returned(true))
    case Retry(k) => s.(stages := s.stages[k := Taken], task := Prompting(k))
    case FinishRetry(ok) => if ok then s.(task := Persisting(s.task.key, Removing)) else Fail(s)
    case EndRetry => s.(phase := Returned(true))
  }

  function Initial(requested: set<Key>, disk: Disk): State {
    State(Scanning, map k | k in requested :: Unseen, Idle, map[], disk)
  }

  /** The state after a sequence of actions; a disabled action would change nothing. */
  function After(c: Config, requested: set<Key>, disk: Disk, run: seq<Action>): State {
    if run == [] then Initial(requested, disk)
    else
      var before := After(c, requested, disk, run[..|run| - 1]);
      if Enabled(c, before, run[|run| - 1]) then Step(c, before, run[|run| - 1]) else before
  }

  /** Every action of the run was possible when it was taken. */
  predicate Legal(c: Config, requested: set<Key>, disk: Disk, run: seq<Action>) {
    run != [] ==>
      && Legal(c, requested, disk, run[..|run| - 1])
      && Enabled(c, After(c, requested, disk, run[..|run| - 1]), run[|run| - 1])
  }

  // ---- invariants ----

  /** A marker is only ever found on a finished clone of the repository the directory is named after. */
  predicate MarkersSound(c: Config, disk: Disk) {
    forall d | d in disk && disk[d].marker :: disk[d].content.Clone? && c.name(disk[d].content.key) == d
  }

  /** The result map holds exactly the repositories that are ready, under their marked directories. */
  predicate ResultsMarked(c: Config, s: State) {
    && (forall k | k in s.cloned :: k in s.stages && s.stages[k] == Ready)
    && (forall k | k in s.stages && s.stages[k] == Ready ::
          k in s.cloned && s.cloned[k] == c.name(k) && Marked(s.disk, c.name(k)))
  }

  predicate TaskOwnsRepo(s: State) {
    && (s.task != Idle ==> s.task.key in s.stages && s.stages[s.task.key] == Taken)
    && (forall k | k in s.stages && s.stages[k] == Taken :: s.task != Idle && s.task.key == k)
  }

  /** Between the move and the marker the target is a finished clone. */
  predicate MovedBeforeMarked(c: Config, s: State) {
    s.task.Persisting? && s.task.step == Marking ==>
      c.name(s.task.key) in s.disk && s.disk[c.name(s.task.key)].content == Clone(s.task.key)
  }

  predicate PhasesInOrder(c: Config, s: State) {
    match s.phase
    case Scanning => s.task == Idle && forall k | k in s.stages :: s.stages[k] in {Unseen, Pending, Ready}
    case FirstPass => !s.task.Prompting? && forall k | k in s.stages :: s.stages[k] != Unseen
    case Retrying => !c.ci && forall k | k in s.stages :: s.stages[k] in {AuthFailed, Taken, Ready}
    case Returned(ok) => ok ==> s.task == Idle && forall k | k in s.stages :: s.stages[k] == Ready
  }

  /** A prompt-enabled clone runs alone and never under CI. */
  predicate PromptsAlone(c: Config, s: State) {
    s.task.Prompting? ==> !c.ci && forall k | k in s.stages :: s.stages[k] in {AuthFailed, Taken, Ready}
  }

  /** The directories the run may write: requested and not marked at the start. */
  function Writable(c: Config, requested: set<Key>, start: Disk): set<Dir> {
    set k | k in requested && !Marked(start, c.name(k)) :: c.name(k)
  }

  /** A repository found marked is only ever reported. */
  predicate MarkedLeftAlone(c: Config, start: Disk, s: State) {
    && (s.phase == Scanning ==> s.disk == start)
    && (forall k | k in s.stages && Marked(start, c.name(k)) :: s.stages[k] == Unseen || s.stages[k] == Ready)
  }

  predicate OthersUntouched(c: Config, requested: set<Key>, start: Disk, s: State) {
    && (forall d | d in start && d !in Writable(c, requested, start) :: d in s.disk && s.disk[d] == start[d])
    && (forall d | d in s.disk && d !in Writable(c, requested, start) :: d in start)
  }

  /** While the run goes on, a requested repository that is not ready has no marker. */
  predicate UnreadyUnmarked(c: Config, start: Disk, s: State) {
    !s.phase.Returned? ==>
      forall k | k in s.stages && s.stages[k] != Ready && !Marked(start, c.name(k)) :: !Marked(s.disk, c.name(k))
  }

  predicate Valid(c: Config, requested: set<Key>, start: Disk, s: State) {
    && s.stages.Keys == requested
    && MarkersSound(c, s.disk) && ResultsMarked(c, s) && TaskOwnsRepo(s) && MovedBeforeMarked(c, s)
    && PhasesInOrder(c, s) && PromptsAlone(c, s)
    && MarkedLeftAlone(c, start, s) && UnreadyUnmarked(c, start, s) && OthersUntouched(c, requested, start, s)
    && |InFlight(s)| <= c.window
  }

  // ---- every step keeps them ----

  /** The repository being worked on was not marked at the start, and its directory is writable. */
  lemma TaskDirWritable(c: Config, requested: set<Key>, start: Disk, s: State)
    requires Valid(c, requested, start, s) && s.task != Idle
    ensures c.name(s.task.key) in Writable(c, requested, start) && !Marked(start, c.name(s.task.key))
  {
    assert s.stages[s.task.key] == Taken;
  }

  /** Actions that write the store. */
  predicate Writes(a: Action) {
    a.Remove? || a.Rename? || a.Mark?
  }

  lemma MarkersStaySound(c: Config, requested: set<Key>, start: Disk, s: State, a: Action)
    requires Valid(c, requested, start, s) && Enabled(c, s, a)
    ensures MarkersSound(c, Step(c, s, a).disk) && MovedBeforeMarked(c, Step(c, s, a))
  {
    if a.Remove? {
      TaskDirWritable(c, requested, start, s);
    }
  }

  lemma ScanKeepsResults(c: Config, start: Disk, s: State, k: Key)
    requires Enabled(c, s, Scan(k)) && ResultsMarked(c, s) && UnreadyUnmarked(c, start, s)
    ensures ResultsMarked(c, Step(c, s, Scan(k))) && UnreadyUnmarked(c, start, Step(c, s, Scan(k)))
  {
  }

  /** Neither the disk, nor the results, nor who is ready. */
  predicate SameResults(s: State, s': State) {
    && s'.disk == s.disk && s'.cloned == s.cloned && s'.stages.Keys == s.stages.Keys
    && (s.phase.Returned? ==> s'.phase.Returned?)
    && forall k | k in s.stages :: s'.stages[k] == Ready <==> s.stages[k] == Ready
  }

  lemma QuietStep(c: Config, s: State, a: Action)
    requires Enabled(c, s, a) && !Writes(a) && !a.Scan? && TaskOwnsRepo(s)
    ensures SameResults(s, Step(c, s, a))
  {
  }

  lemma SameResultsMarked(c: Config, start: Disk, s: State, s': State)
    requires SameResults(s, s') && ResultsMarked(c, s) && UnreadyUnmarked(c, start, s)
    ensures ResultsMarked(c, s') && UnreadyUnmarked(c, start, s')
  {
  }

  lemma QuietKeepsResults(c: Config, start: Disk, s: State, a: Action)
    requires Enabled(c, s, a) && !Writes(a) && !a.Scan? && TaskOwnsRepo(s)
    requires ResultsMarked(c, s) && UnreadyUnmarked(c, start, s)
    ensures ResultsMarked(c, Step(c, s, a)) && UnreadyUnmarked(c, start, Step(c, s, a))
  {
    QuietStep(c, s, a);
    SameResultsMarked(c, start, s, Step(c, s, a));
  }

  /** The writing task works on a repository of its own that is not ready. */
  predicate WriterReady(c: Config, start: Disk, s: State) {
    && Injective(c, s.stages.Keys) && s.task != Idle
    && s.task.key in s.stages && s.stages[s.task.key] == Taken && !Marked(start, c.name(s.task.key))
  }

  /** Writing one target directory changes no other repository's marker. */
  lemma OtherMarkersStay(c: Config, start: Disk, s: State, disk: Disk, k: Key)
    requires WriterReady(c, start, s) && k in s.stages && k != s.task.key
    requires forall d | d != c.name(s.task.key) :: Marked(disk, d) == Marked(s.disk, d)
    ensures Marked(disk, c.name(k)) == Marked(s.disk, c.name(k))
  {
  }

  lemma MoveKeepsResults(c: Config, start: Disk, s: State, a: Action)
    requires Enabled(c, s, a) && (a.Remove? || a.Rename?) && WriterReady(c, start, s)
    requires ResultsMarked(c, s) && UnreadyUnmarked(c, start, s)
    ensures ResultsMarked(c, Step(c, s, a)) && UnreadyUnmarked(c, start, Step(c, s, a))
  {
    var s' := Step(c, s, a);
    forall k | k in s.stages && k != s.task.key
      ensures Marked(s'.disk, c.name(k)) == Marked(s.disk, c.name(k))
    {
      OtherMarkersStay(c, start, s, s'.disk, k);
    }
    assert !Marked(s'.disk, c.name(s.task.key));
  }

  lemma MarkKeepsResults(c: Config, start: Disk, s: State, a: Action)
    requires Enabled(c, s, a) && a.Mark? && WriterReady(c, start, s)
    requires ResultsMarked(c, s) && UnreadyUnmarked(c, start, s)
    ensures ResultsMarked(c, Step(c, s, a)) && UnreadyUnmarked(c, start, Step(c, s, a))
  {
    var s' := Step(c, s, a);
    forall k | k in s.stages && k != s.task.key
      ensures Marked(s'.disk, c.name(k)) == Marked(s.disk, c.name(k))
    {
      OtherMarkersStay(c, start, s, s'.disk, k);
    }
  }

  lemma ResultsStayMarked(c: Config, requested: set<Key>, start: Disk, s: State, a: Action)
    requires Injective(c, requested) && Valid(c, requested, start, s) && Enabled(c, s, a)
    ensures ResultsMarked(c, Step(c, s, a)) && UnreadyUnmarked(c, start, Step(c, s, a))
  {
    if Writes(a) {
      TaskDirWritable(c, requested, start, s);
      if a.Mark? {
        MarkKeepsResults(c, start, s, a);
      } else {
        MoveKeepsResults(c, start, s, a);
      }
    } else if a.Scan? {
      ScanKeepsResults(c, start, s, a.key);
    } else {
      QuietKeepsResults(c, start, s, a);
    }
  }

  lemma TaskStaysOwner(c: Config, s: State, a: Action)
    requires TaskOwnsRepo(s) && Enabled(c, s, a)
    ensures Step(c, s, a).stages.Keys == s.stages.Keys && TaskOwnsRepo(Step(c, s, a))
  {
    if a.Take? || a.Retry? || a.Mark? {
      TaskChangesOwner(c, s, a);
    } else {
      TaskKeepsOwner(c, s, a);
    }
  }

  lemma TaskChangesOwner(c: Config, s: State, a: Action)
    requires TaskOwnsRepo(s) && Enabled(c, s, a) && (a.Take? || a.Retry? || a.Mark?)
    ensures Step(c, s, a).stages.Keys == s.stages.Keys && TaskOwnsRepo(Step(c, s, a))
  {
  }

  lemma TaskKeepsOwner(c: Config, s: State, a: Action)
    requires TaskOwnsRepo(s) && Enabled(c, s, a) && !(a.Take? || a.Retry? || a.Mark?)
    ensures Step(c, s, a).stages.Keys == s.stages.Keys && TaskOwnsRepo(Step(c, s, a))
  {
    var s' := Step(c, s, a);
    assert s'.task != Idle <==> s.task != Idle;
    assert s.task != Idle ==> s'.task.key == s.task.key;
    assert forall k | k in s.stages :: s'.stages[k] == Taken <==> s.stages[k] == Taken;
  }

  lemma PhasesStayInOrder(c: Config, s: State, a: Action)
    requires PhasesInOrder(c, s) && PromptsAlone(c, s) && TaskOwnsRepo(s) && Enabled(c, s, a)
    ensures PhasesInOrder(c, Step(c, s, a)) && PromptsAlone(c, Step(c, s, a))
  {
    if a.EndScan? {
      assert forall k | k in s.stages :: k !in InStage(s, Unseen);
    } else if a.EndFirstPass? {
      assert forall k | k in s.stages :: k !in InStage(s, Pending) && k !in InFlight(s) && (k in InStage(s, AuthFailed) <==> s.stages[k] == AuthFailed);
    } else if a.EndRetry? {
      assert forall k | k in s.stages :: k !in InStage(s, AuthFailed);
    }
  }

  lemma MarkedStayAlone(c: Config, requested: set<Key>, start: Disk, s: State, a: Action)
    requires MarkedLeftAlone(c, start, s) && OthersUntouched(c, requested, start, s) && PhasesInOrder(c, s)
    requires s.task != Idle ==> s.task.key in s.stages && c.name(s.task.key) in Writable(c, requested, start) && !Marked(start, c.name(s.task.key))
    requires Enabled(c, s, a)
    ensures MarkedLeftAlone(c, start, Step(c, s, a)) && OthersUntouched(c, requested, start, Step(c, s, a))
  {
    if Writes(a) {
      WriteLeavesOthers(c, requested, start, s, a);
    } else {
      assert Step(c, s, a).disk == s.disk;
    }
  }

  lemma WriteLeavesOthers(c: Config, requested: set<Key>, start: Disk, s: State, a: Action)
    requires MarkedLeftAlone(c, start, s) && OthersUntouched(c, requested, start, s) && PhasesInOrder(c, s)
    requires s.task != Idle && s.task.key in s.stages
    requires c.name(s.task.key) in Writable(c, requested, start) && !Marked(start, c.name(s.task.key))
    requires Enabled(c, s, a) && Writes(a)
    ensures MarkedLeftAlone(c, start, Step(c, s, a)) && OthersUntouched(c, requested, start, Step(c, s, a))
  {
    var s' := Step(c, s, a);
    assert forall d | d != c.name(s.task.key) :: (d in s'.disk <==> d in s.disk) && (d in s.disk ==> s'.disk[d] == s.disk[d]);
  }

  lemma WindowHolds(c: Config, s: State, a: Action)
    requires |InFlight(s)| <= c.window && Enabled(c, s, a)
    ensures |InFlight(Step(c, s, a))| <= c.window
  {
    var s' := Step(c, s, a);
    if a.Start? {
      assert InFlight(s') == InFlight(s) + {a.key};
    } else {
      forall k | k in InFlight(s')
        ensures k in InFlight(s)
      {
      }
      SubsetSize(InFlight(s'), InFlight(s));
    }
  }

  lemma SubsetSize(a: set<Key>, b: set<Key>)
    requires a <= b
    ensures |a| <= |b|
  {
    assert a + (b - a) == b;
  }

  lemma StepKeepsValid(c: Config, requested: set<Key>, start: Disk, s: State, a: Action)
    requires Injective(c, requested) && Valid(c, requested, start, s) && Enabled(c, s, a)
    ensures Valid(c, requested, start, Step(c, s, a))
  {
    MarkersStaySound(c, requested, start, s, a);
    ResultsStayMarked(c, requested, start, s, a);
    TaskStaysOwner(c, s, a);
    PhasesStayInOrder(c, s, a);
    if s.task != Idle {
      TaskDirWritable(c, requested, start, s);
    }
    MarkedStayAlone(c, requested, start, s, a);
    WindowHolds(c, s, a);
  }

  /** Every reachable state is valid, whatever the order of completion. */
  lemma {:induction false} ReachableValid(c: Config, requested: set<Key>, start: Disk, run: seq<Action>)
    requires Injective(c, requested) && MarkersSound(c, start) && Legal(c, requested, start, run)
    ensures Valid(c, requested, start, After(c, requested, start, run))
  {
    if run == [] {
      assert InFlight(Initial(requested, start)) == {};
    } else {
      ReachableValid(c, requested, start, run[..|run| - 1]);
      StepKeepsValid(c, requested, start, After(c, requested, start, run[..|run| - 1]), run[|run| - 1]);
    }
  }

  // ---- what the protocol promises ----

  /** A repository that this run made ready lies in its directory. */
  predicate OwnClones(c: Config, start: Disk, s: State) {
    forall k | k in s.stages && s.stages[k] == Ready && !Marked(start, c.name(k)) ::
      c.name(k) in s.disk && s.disk[c.name(k)].content == Clone(k)
  }

  lemma WriteKeepsOwnClones(c: Config, start: Disk, s: State, a: Action)
    requires Enabled(c, s, a) && Writes(a) && WriterReady(c, start, s) && OwnClones(c, start, s)
    ensures OwnClones(c, start, Step(c, s, a))
  {
    var s' := Step(c, s, a);
    forall k | k in s'.stages && s'.stages[k] == Ready && !Marked(start, c.name(k))
      ensures c.name(k) in s'.disk && s'.disk[c.name(k)].content == Clone(k)
    {
      if k != s.task.key {
        assert c.name(k) != c.name(s.task.key);
      }
    }
  }

  lemma StepKeepsOwnClones(c: Config, requested: set<Key>, start: Disk, s: State, a: Action)
    requires Injective(c, requested) && Valid(c, requested, start, s) && Enabled(c, s, a) && OwnClones(c, start, s)
    ensures OwnClones(c, start, Step(c, s, a))
  {
    if Writes(a) {
      TaskDirWritable(c, requested, start, s);
      WriteKeepsOwnClones(c, start, s, a);
    } else if a.Scan? {
      ScanKeepsOwnClones(c, requested, start, s, a.key);
    } else {
      QuietStep(c, s, a);
    }
  }

  /** While scanning nothing has been written. */
  lemma ScanKeepsOwnClones(c: Config, requested: set<Key>, start: Disk, s: State, k: Key)
    requires Valid(c, requested, start, s) && Enabled(c, s, Scan(k)) && OwnClones(c, start, s)
    ensures OwnClones(c, start, Step(c, s, Scan(k)))
  {
    assert s.disk == start;
  }

  lemma {:induction false} ReachableOwnClones(c: Config, requested: set<Key>, start: Disk, run: seq<Action>)
    requires Injective(c, requested) && MarkersSound(c, start) && Legal(c, requested, start, run)
    ensures OwnClones(c, start, After(c, requested, start, run))
  {
    if run != [] {
      var init := run[..|run| - 1];
      ReachableOwnClones(c, requested, start, init);
      ReachableValid(c, requested, start, init);
      StepKeepsOwnClones(c, requested, start, After(c, requested, start, init), run[|run| - 1]);
    }
  }

  /**
    Success means that the result holds exactly the requested repositories, each under its own directory,
    and that directory is marked and holds a finished clone: of the repository itself if this run made it,
    and of one of the same directory name if it was marked before.
   */
  lemma SuccessHoldsExactlyTheRequest(c: Config, requested: set<Key>, start: Disk, run: seq<Action>)
    requires Injective(c, requested) && MarkersSound(c, start) && Legal(c, requested, start, run)
    requires After(c, requested, start, run).phase == Returned(true)
    ensures var s := After(c, requested, start, run);
      && s.cloned.Keys == requested
      && forall k | k in requested :: Held(c, start, s, k)
  {
    ReachableValid(c, requested, start, run);
    ReachableOwnClones(c, requested, start, run);
    forall k | k in requested
      ensures Held(c, start, After(c, requested, start, run), k)
    {
      SuccessHolds(c, requested, start, After(c, requested, start, run), k);
    }
  }

  /** `k` is in the result, at its own directory, marked, as this run or an earlier one left it. */
  predicate Held(c: Config, start: Disk, s: State, k: Key) {
    var d := c.name(k);
    && k in s.cloned && s.cloned[k] == d && Marked(s.disk, d)
    && s.disk[d].content.Clone? && c.name(s.disk[d].content.key) == d
    && (if Marked(start, d) then s.disk[d] == start[d] else s.disk[d].content == Clone(k))
  }

  lemma SuccessHolds(c: Config, requested: set<Key>, start: Disk, s: State, k: Key)
    requires Valid(c, requested, start, s) && OwnClones(c, start, s) && Injective(c, requested)
    requires s.phase == Returned(true) && k in requested
    ensures Held(c, start, s, k)
  {
    assert s.stages[k] == Ready;
    assert Marked(start, c.name(k)) ==> c.name(k) !in Writable(c, requested, start);
  }

  /** At every point where the run may stop, a marker means a finished clone. */
  lemma MarkerMeansFinishedClone(c: Config, requested: set<Key>, start: Disk, run: seq<Action>, d: Dir)
    requires Injective(c, requested) && MarkersSound(c, start) && Legal(c, requested, start, run)
    requires Marked(After(c, requested, start, run).disk, d)
    ensures var t := After(c, requested, start, run).disk[d];
      t.content.Clone? && c.name(t.content.key) == d
  {
    ReachableValid(c, requested, start, run);
  }

  /** A clone with prompts enabled never overlaps another clone and never happens under CI. */
  lemma PromptedCloneRunsAlone(c: Config, requested: set<Key>, start: Disk, run: seq<Action>)
    requires Injective(c, requested) && MarkersSound(c, start) && Legal(c, requested, start, run)
    requires After(c, requested, start, run).task.Prompting?
    ensures var s := After(c, requested, start, run);
      && !c.ci && InFlight(s) == {}
      && forall more | Legal(c, requested, start, run + more) :: InFlight(After(c, requested, start, run + more)) == {}
  {
    ReachableValid(c, requested, start, run);
    forall more | Legal(c, requested, start, run + more)
      ensures InFlight(After(c, requested, start, run + more)) == {}
    {
      NoFirstPassLater(c, requested, start, run, more);
    }
  }

  predicate PastFirstPass(s: State) {
    s.phase != Scanning && s.phase != FirstPass && forall k | k in s.stages :: s.stages[k] in {AuthFailed, Taken, Ready}
  }

  lemma StaysPastFirstPass(c: Config, s: State, a: Action)
    requires PastFirstPass(s) && Enabled(c, s, a)
    ensures PastFirstPass(Step(c, s, a)) && InFlight(Step(c, s, a)) == {}
  {
  }

  lemma {:induction false} NoFirstPassLater(c: Config, requested: set<Key>, start: Disk, run: seq<Action>, more: seq<Action>)
    requires PastFirstPass(After(c, requested, start, run))
    requires Legal(c, requested, start, run + more)
    ensures PastFirstPass(After(c, requested, start, run + more))
    ensures InFlight(After(c, requested, start, run + more)) == {}
  {
    if more == [] {
      assert run + more == run;
    } else {
      assert (run + more)[..|run + more| - 1] == run + more[..|more| - 1];
      NoFirstPassLater(c, requested, start, run, more[..|more| - 1]);
      StaysPastFirstPass(c, After(c, requested, start, run + more[..|more| - 1]), more[|more| - 1]);
    }
  }

  /** Directories that are not requested, or that were marked to begin with, are never written. */
  lemma OtherDirectoriesUntouched(c: Config, requested: set<Key>, start: Disk, run: seq<Action>, d: Dir)
    requires Injective(c, requested) && MarkersSound(c, start) && Legal(c, requested, start, run)
    requires d !in Writable(c, requested, start)
    ensures var disk := After(c, requested, start, run).disk;
      (d in disk <==> d in start) && (d in start ==> disk[d] == start[d])
  {
    ReachableValid(c, requested, start, run);
  }

  // ---- the protocol always comes to an end ----

  function StepsLeft(stage: Stage): nat {
    match stage
    case Unseen => 9 case Pending => 8 case Running => 7 case Finished(_) => 6 case AuthFailed => 5 case Taken => 0 case Ready => 0
  }

  function TaskLeft(task: Task): nat {
    match task
    case Idle => 0
    case Prompting(_) => 4
    case Persisting(_, step) => (match step case Removing => 3 case Renaming => 2 case Marking => 1)
  }

  function PhaseLeft(phase: Phase): nat {
    match phase
    case Scanning => 3 case FirstPass => 2 case Retrying => 1 case Returned(_) => 0
  }

  ghost function StagesLeft(stages: map<Key, Stage>): nat {
    if stages == map[] then 0
    else
      var k :| k in stages;
      StepsLeft(stages[k]) + StagesLeft(stages - {k})
  }

  lemma {:induction false} StagesLeftOf(stages: map<Key, Stage>, k: Key)
    requires k in stages
    ensures StagesLeft(stages) == StepsLeft(stages[k]) + StagesLeft(stages - {k})
    decreases |stages|
  {
    var j :| j in stages && StagesLeft(stages) == StepsLeft(stages[j]) + StagesLeft(stages - {j});
    if j != k {
      StagesLeftOf(stages - {j}, k);
      StagesLeftOf(stages - {k}, j);
      assert stages - {j} - {k} == stages - {k} - {j};
    }
  }

  ghost function Left(s: State): nat {
    StagesLeft(s.stages) + TaskLeft(s.task) + PhaseLeft(s.phase)
  }

  lemma StageChange(stages: map<Key, Stage>, k: Key, stage: Stage)
    requires k in stages
    ensures StagesLeft(stages[k := stage]) == StagesLeft(stages) - StepsLeft(stages[k]) + StepsLeft(stage)
  {
    StagesLeftOf(stages, k);
    StagesLeftOf(stages[k := stage], k);
    assert stages[k := stage] - {k} == stages - {k};
  }

  /** Before a repository is taken. */
  lemma FirstPassProgresses(c: Config, s: State, a: Action)
    requires Enabled(c, s, a) && (a.Scan? || a.Start? || a.Finish?)
    ensures Left(Step(c, s, a)) < Left(s)
  {
    StageChange(s.stages, a.key, Step(c, s, a).stages[a.key]);
  }

  lemma TakingProgresses(c: Config, s: State, a: Action)
    requires Enabled(c, s, a) && (a.Take? || a.Retry?)
    ensures Left(Step(c, s, a)) < Left(s)
  {
    StageChange(s.stages, a.key, Step(c, s, a).stages[a.key]);
    assert s.task == Idle;
  }

  lemma MarkingProgresses(c: Config, s: State, a: Action)
    requires Enabled(c, s, a) && a.Mark? && TaskOwnsRepo(s)
    ensures Left(Step(c, s, a)) < Left(s)
  {
    StageChange(s.stages, s.task.key, Ready);
  }

  /** Every action uses up some of a budget that is fixed at the start. */
  lemma StepProgresses(c: Config, s: State, a: Action)
    requires Enabled(c, s, a) && TaskOwnsRepo(s)
    ensures Left(Step(c, s, a)) < Left(s)
  {
    if a.Scan? || a.Start? || a.Finish? {
      FirstPassProgresses(c, s, a);
    } else if a.Take? || a.Retry? {
      TakingProgresses(c, s, a);
    } else if a.Mark? {
      MarkingProgresses(c, s, a);
    } else {
      assert Step(c, s, a).stages == s.stages;
    }
  }

  lemma {:induction false} AllUnseen(requested: set<Key>)
    ensures StagesLeft(map k | k in requested :: Unseen) == 9 * |requested|
  {
    if k :| k in requested {
      var stages: map<Key, Stage> := map k | k in requested :: Unseen;
      StagesLeftOf(stages, k);
      assert stages - {k} == map j | j in requested - {k} :: Unseen;
      AllUnseen(requested - {k});
    } else {
      assert (map k | k in requested :: Unseen) == map[];
    }
  }

  lemma {:induction false} RunUsesBudget(c: Config, requested: set<Key>, start: Disk, run: seq<Action>)
    requires Injective(c, requested) && MarkersSound(c, start) && Legal(c, requested, start, run)
    ensures |run| + Left(After(c, requested, start, run)) <= 9 * |requested| + 3
  {
    if run == [] {
      AllUnseen(requested);
    } else {
      var init := run[..|run| - 1];
      RunUsesBudget(c, requested, start, init);
      ReachableValid(c, requested, start, init);
      StepProgresses(c, After(c, requested, start, init), run[|run| - 1]);
    }
  }

  /** No run takes more than nine actions per repository, plus three. */
  lemma RunsAreFinite(c: Config, requested: set<Key>, start: Disk, run: seq<Action>)
    requires Injective(c, requested) && MarkersSound(c, start) && Legal(c, requested, start, run)
    ensures |run| <= 9 * |requested| + 3
  {
    RunUsesBudget(c, requested, start, run);
  }

  /** Until it returns, some action is always possible. */
  lemma NeverStuck(c: Config, requested: set<Key>, start: Disk, run: seq<Action>)
    requires Injective(c, requested) && MarkersSound(c, start) && Legal(c, requested, start, run) && c.window > 0
    requires !After(c, requested, start, run).phase.Returned?
    ensures exists a :: Legal(c, requested, start, run + [a])
  {
    ReachableValid(c, requested, start, run);
    var a := NextAction(c, After(c, requested, start, run));
    assert (run + [a])[..|run|] == run;
    assert Legal(c, requested, start, run + [a]);
  }

  lemma NextAction(c: Config, s: State) returns (a: Action)
    requires c.window > 0 && !s.phase.Returned? && PhasesInOrder(c, s) && TaskOwnsRepo(s)
    ensures Enabled(c, s, a)
  {
    if s.task.Persisting? {
      a := match s.task.step case Removing => Remove(None) case Renaming => Rename(true) case Marking => Mark(true, true);
    } else if s.task.Prompting? {
      a := FinishRetry(true);
    } else if k :| s.phase == Scanning && k in InStage(s, Unseen) {
      a := Scan(k);
    } else if s.phase == Scanning {
      a := EndScan;
    } else if k :| s.phase == FirstPass && k in InFlight(s) {
      a := if s.stages[k] == Running then Finish(k, Cloned) else Take(k);
    } else if k :| s.phase == FirstPass && k in InStage(s, Pending) {
      assert InFlight(s) == {};
      a := Start(k);
    } else if s.phase == FirstPass {
      assert InFlight(s) == {} && InStage(s, Pending) == {};
      a := EndFirstPass;
    } else if k :| k in InStage(s, AuthFailed) {
      a := Retry(k);
    } else {
      assert InStage(s, AuthFailed) == {};
      a := EndRetry;
    }
  }
}
