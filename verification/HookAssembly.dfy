/**
  From project configurations to hooks: which repositories to clone, in which order hooks are numbered,
  and why the lookup of a cloned repository cannot miss.
 */
module HookAssembly {
  import opened Wrappers
  import opened CloneProtocol
  import Workspace

  /** A repository entry of a configuration, with the ids of the hooks it selects. */
  datatype RepoEntry = Remote(key: Key, hooks: seq<string>) | NonRemote(hooks: seq<string>)

  /** What is left of a project's configuration after filtering. */
  datatype Plan = Plan(projectIdx: nat, repos: seq<RepoEntry>)

  // ---- repositories to clone ----

  function RemoteKeys(repos: seq<RepoEntry>): seq<Key> {
    if repos == [] then []
    else
      RemoteKeys(repos[..|repos| - 1])
      + match repos[|repos| - 1] case Remote(key, _) => [key] case NonRemote(_) => []
  }

  function PlanKeys(plans: seq<Plan>): seq<Key> {
    if plans == [] then [] else PlanKeys(plans[..|plans| - 1]) + RemoteKeys(plans[|plans| - 1].repos)
  }

  /** The keys in order of first occurrence. */
  function FirstOccurrences(keys: seq<Key>): seq<Key> {
    if keys == [] then []
    else
      var init := FirstOccurrences(keys[..|keys| - 1]);
      if keys[|keys| - 1] in keys[..|keys| - 1] then init else init + [keys[|keys| - 1]]
  }

  /** No key is listed twice and none is missed. */
  lemma {:induction false} FirstOccurrencesAreTheSet(keys: seq<Key>)
    ensures var once := FirstOccurrences(keys);
      && (forall k :: k in once <==> k in keys)
      && (forall i, j | 0 <= i < j < |once| :: once[i] != once[j])
  {
    if keys != [] {
      FirstOccurrencesAreTheSet(keys[..|keys| - 1]);
      assert forall k :: k in keys <==> k in keys[..|keys| - 1] || k == keys[|keys| - 1];
    }
  }

  /** The listing grows as keys are mentioned, so it is ordered by first mention. */
  lemma {:induction false} FirstOccurrencesInOrder(keys: seq<Key>, n: nat)
    requires n <= |keys|
    ensures FirstOccurrences(keys[..n]) <= FirstOccurrences(keys)
    decreases |keys| - n
  {
    if n == |keys| {
      assert keys[..n] == keys;
    } else {
      FirstOccurrencesInOrder(keys, n + 1);
      assert keys[..n + 1] == keys[..n] + [keys[n]];
    }
  }

  lemma OneMoreKey(before: seq<Key>, repos: seq<RepoEntry>, j: nat)
    requires j < |repos|
    ensures before + RemoteKeys(repos[..j + 1])
         == before + RemoteKeys(repos[..j]) + (if repos[j].Remote? then [repos[j].key] else [])
  {
    assert repos[..j + 1][..j] == repos[..j];
  }

  /** `remote_configs_to_clone`. */
  method RemoteConfigsToClone(plans: seq<Plan>) returns (configs: seq<Key>)
    ensures configs == FirstOccurrences(PlanKeys(plans))
  {
    var seen: set<Key> := {};
    configs := [];
    for i := 0 to |plans|
      invariant configs == FirstOccurrences(PlanKeys(plans[..i]))
      invariant forall k :: k in seen <==> k in PlanKeys(plans[..i])
    {
      var repos := plans[i].repos;
      ghost var before := PlanKeys(plans[..i]);
      ghost var keys := before;
      for j := 0 to |repos|
        invariant keys == before + RemoteKeys(repos[..j])
        invariant configs == FirstOccurrences(keys)
        invariant forall k :: k in seen <==> k in keys
      {
        OneMoreKey(before, repos, j);
        match repos[j]
        case NonRemote(_) =>
        case Remote(key, _) =>
          keys := keys + [key];
          if key !in seen {
            seen := seen + {key};
            configs := configs + [key];
          }
      }
      assert repos[..|repos|] == repos;
      assert plans[..i + 1][..i] == plans[..i];
    }
    assert plans[..|plans|] == plans;
  }

  lemma {:induction false} EntryKeyListed(repos: seq<RepoEntry>, entry: RepoEntry)
    requires entry in repos && entry.Remote?
    ensures entry.key in RemoteKeys(repos)
  {
    if entry != repos[|repos| - 1] {
      EntryKeyListed(repos[..|repos| - 1], entry);
    }
  }

  lemma {:induction false} PlanKeyListed(plans: seq<Plan>, plan: Plan, entry: RepoEntry)
    requires plan in plans && entry in plan.repos && entry.Remote?
    ensures entry.key in PlanKeys(plans)
  {
    if plan == plans[|plans| - 1] {
      EntryKeyListed(plan.repos, entry);
    } else {
      PlanKeyListed(plans[..|plans| - 1], plan, entry);
    }
  }

  /** Once cloning succeeds, the repository of every entry of every plan is found in its result. */
  lemma LookupNeverMisses(c: Config, start: Disk, run: seq<Action>, plans: seq<Plan>, plan: Plan, entry: RepoEntry)
    requires plan in plans && entry in plan.repos && entry.Remote?
    requires var requested := set k | k in FirstOccurrences(PlanKeys(plans));
      && Injective(c, requested) && MarkersSound(c, start) && Legal(c, requested, start, run)
      && After(c, requested, start, run).phase == Returned(true)
    ensures var requested := set k | k in FirstOccurrences(PlanKeys(plans));
      entry.key in After(c, requested, start, run).cloned
  {
    var requested := set k | k in FirstOccurrences(PlanKeys(plans));
    PlanKeyListed(plans, plan, entry);
    FirstOccurrencesAreTheSet(PlanKeys(plans));
    SuccessHoldsExactlyTheRequest(c, requested, start, run);
  }

  // ---- numbering hooks ----

  datatype HookKey = HookKey(projectIdx: nat, hookIdx: nat)

  datatype Hook = Hook(key: HookKey, repo: Option<Key>, id: string)

  datatype Error = HookNotFound(id: string) | RepoMissing

  /** The hook ids each cloned repository's manifest declares. */
  type Manifests = map<Key, set<string>>

  function EntryRepo(entry: RepoEntry): Option<Key> {
    match entry case Remote(key, _) => Some(key) case NonRemote(_) => None
  }

  /** The hooks a plan asks for, in configuration order. */
  function Wanted(repos: seq<RepoEntry>): seq<(Option<Key>, string)> {
    if repos == [] then []
    else
      var last := repos[|repos| - 1];
      Wanted(repos[..|repos| - 1]) + WantedOf(last)
  }

  /** Hooks numbered by their position in the project. */
  function Numbered(projectIdx: nat, wanted: seq<(Option<Key>, string)>): (hooks: seq<Hook>)
    ensures |hooks| == |wanted|
  {
    seq(|wanted|, i requires 0 <= i < |wanted| => Hook(HookKey(projectIdx, i), wanted[i].0, wanted[i].1))
  }

  /** The entry's clone is there and declares every hook the entry selects. */
  predicate Declared(manifests: Manifests, entry: RepoEntry) {
    entry.Remote? ==> entry.key in manifests && forall i | 0 <= i < |entry.hooks| :: entry.hooks[i] in manifests[entry.key]
  }

  function WantedOf(entry: RepoEntry): (w: seq<(Option<Key>, string)>)
    ensures |w| == |entry.hooks|
  {
    seq(|entry.hooks|, i requires 0 <= i < |entry.hooks| => (EntryRepo(entry), entry.hooks[i]))
  }

  /** The hooks of one repository entry, numbered on from `hooks`. */
  method PushHooks(projectIdx: nat, hooks: seq<Hook>, entry: RepoEntry, manifests: Manifests) returns (r: Result<seq<Hook>, Error>)
    ensures r.Ok? <==> Declared(manifests, entry)
    ensures r.Ok? ==> |r.value| == |hooks| + |entry.hooks| && hooks <= r.value
    ensures r.Ok? ==> forall i | 0 <= i < |entry.hooks| ::
      r.value[|hooks| + i] == Hook(HookKey(projectIdx, |hooks| + i), EntryRepo(entry), entry.hooks[i])
    ensures r == Err(RepoMissing) <==> entry.Remote? && entry.key !in manifests
  {
    if entry.Remote? && entry.key !in manifests {
      return Err(RepoMissing);
    }
    var all := hooks;
    for i := 0 to |entry.hooks|
      invariant |all| == |hooks| + i && hooks <= all
      invariant forall n | 0 <= n < i :: all[|hooks| + n] == Hook(HookKey(projectIdx, |hooks| + n), EntryRepo(entry), entry.hooks[n])
      invariant entry.Remote? ==> forall n | 0 <= n < i :: entry.hooks[n] in manifests[entry.key]
    {
      if entry.Remote? && entry.hooks[i] !in manifests[entry.key] {
        return Err(HookNotFound(entry.hooks[i]));
      }
      all := all + [Hook(HookKey(projectIdx, |all|), EntryRepo(entry), entry.hooks[i])];
    }
    return Ok(all);
  }

  /** `Project::build_hooks`: stops at the first entry or hook that is missing. */
  method BuildHooks(plan: Plan, manifests: Manifests) returns (r: Result<seq<Hook>, Error>)
    ensures r.Ok? <==> forall j | 0 <= j < |plan.repos| :: Declared(manifests, plan.repos[j])
    ensures r.Ok? ==> r.value == Numbered(plan.projectIdx, Wanted(plan.repos))
    ensures r == Err(RepoMissing) ==> exists e | e in plan.repos :: e.Remote? && e.key !in manifests
  {
    var hooks: seq<Hook> := [];
    var repos := plan.repos;
    for j := 0 to |repos|
      invariant hooks == Numbered(plan.projectIdx, Wanted(repos[..j]))
      invariant forall n | 0 <= n < j :: Declared(manifests, repos[n])
    {
      assert repos[..j + 1][..j] == repos[..j];
      var more := PushHooks(plan.projectIdx, hooks, repos[j], manifests);
      if more.Err? {
        return more;
      }
      hooks := more.value;
    }
    assert repos[..|repos|] == repos;
    return Ok(hooks);
  }

  /** The hooks of all selected projects, as `Workspace::init_hooks` lists them. */
  function AllHooks(plans: seq<Plan>): seq<Hook> {
    if plans == [] then []
    else AllHooks(plans[..|plans| - 1]) + Numbered(plans[|plans| - 1].projectIdx, Wanted(plans[|plans| - 1].repos))
  }

  predicate DistinctProjects(plans: seq<Plan>) {
    forall i, j | 0 <= i < j < |plans| :: plans[i].projectIdx != plans[j].projectIdx
  }

  lemma {:induction false} HookOfSomePlan(plans: seq<Plan>, h: Hook)
    requires h in AllHooks(plans)
    ensures exists i | 0 <= i < |plans| :: plans[i].projectIdx == h.key.projectIdx
  {
    var init, last := plans[..|plans| - 1], plans[|plans| - 1];
    if h in AllHooks(init) {
      HookOfSomePlan(init, h);
    } else {
      assert plans[|plans| - 1].projectIdx == h.key.projectIdx;
    }
  }

  /** Hooks of projects with different numbers have different keys. */
  lemma {:induction false} KeysOfDistinctProjects(plans: seq<Plan>, i: nat, j: nat)
    requires DistinctProjects(plans) && i < j < |AllHooks(plans)|
    ensures AllHooks(plans)[i].key != AllHooks(plans)[j].key
  {
    var init, last := plans[..|plans| - 1], plans[|plans| - 1];
    var before := AllHooks(init);
    if j < |before| {
      KeysOfDistinctProjects(init, i, j);
    } else if i < |before| {
      HookOfSomePlan(init, before[i]);
      assert AllHooks(plans)[i] == before[i];
    }
  }

  /** The plans of the projects a selection keeps, in list order. */
  function SelectedPlans(projects: seq<Workspace.Project>, selected: Workspace.Project -> bool,
                         reposOf: Workspace.Project -> seq<RepoEntry>): seq<Plan>
  {
    if projects == [] then []
    else
      var last := projects[|projects| - 1];
      SelectedPlans(projects[..|projects| - 1], selected, reposOf)
      + if selected(last) then [Plan(last.idx, reposOf(last))] else []
  }

  /** The plans are those of the selected projects, each under its project's number. */
  lemma {:induction false} SelectedOnly(projects: seq<Workspace.Project>, selected: Workspace.Project -> bool,
                                        reposOf: Workspace.Project -> seq<RepoEntry>, plan: Plan)
    ensures plan in SelectedPlans(projects, selected, reposOf)
      <==> exists project :: project in projects && selected(project) && plan == Plan(project.idx, reposOf(project))
  {
    if projects != [] {
      var init, last := projects[..|projects| - 1], projects[|projects| - 1];
      SelectedOnly(init, selected, reposOf, plan);
      assert projects == init + [last];
    }
  }

  /** Numbering by position gives the selected projects different numbers. */
  lemma {:induction false} SelectedProjectsDistinct(projects: seq<Workspace.Project>, selected: Workspace.Project -> bool,
                                                    reposOf: Workspace.Project -> seq<RepoEntry>)
    requires Workspace.Indexed(projects)
    ensures var plans := SelectedPlans(projects, selected, reposOf);
      DistinctProjects(plans) && forall i | 0 <= i < |plans| :: plans[i].projectIdx < |projects|
  {
    if projects != [] {
      SelectedProjectsDistinct(projects[..|projects| - 1], selected, reposOf);
    }
  }

  /** No two hooks of a workspace share a key, whichever of its sorted and numbered projects are selected. */
  lemma HookKeysUnique(projects: seq<Workspace.Project>, selected: Workspace.Project -> bool,
                       reposOf: Workspace.Project -> seq<RepoEntry>, i: nat, j: nat)
    requires Workspace.Indexed(projects)
    requires i < j < |AllHooks(SelectedPlans(projects, selected, reposOf))|
    ensures var hooks := AllHooks(SelectedPlans(projects, selected, reposOf)); hooks[i].key != hooks[j].key
  {
    SelectedProjectsDistinct(projects, selected, reposOf);
    KeysOfDistinctProjects(SelectedPlans(projects, selected, reposOf), i, j);
  }
}
