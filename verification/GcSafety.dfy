/** What a collection keeps, what a second one finds, and what a dry one reports. */
module GcSafety {
  import opened Wrappers
  import opened HookSpecs
  import opened Sweeping
  import opened CacheGc

  // ---- the version sweep, bucket by bucket ----

  predicate Distinct(buckets: seq<ToolBucket>) {
    forall i, j | 0 <= i < j < |buckets| :: buckets[i] != buckets[j]
  }

  lemma ToolNamesDiffer(a: ToolBucket, b: ToolBucket)
    ensures ToolName(a) == ToolName(b) <==> a == b
  {
    match a
    case UvTool => case PythonTool => case NodeTool => case GoTool => case RubyTool =>
    case RustupTool => case BunTool => case DotnetTool => case DenoTool => case MiseTool =>
  }

  lemma AllBucketsListed(b: ToolBucket)
    ensures b in ALL_BUCKETS && Distinct(ALL_BUCKETS)
  {
    match b
    case UvTool => assert ALL_BUCKETS[0] == b;
    case PythonTool => assert ALL_BUCKETS[1] == b;
    case NodeTool => assert ALL_BUCKETS[2] == b;
    case GoTool => assert ALL_BUCKETS[3] == b;
    case RubyTool => assert ALL_BUCKETS[4] == b;
    case RustupTool => assert ALL_BUCKETS[5] == b;
    case BunTool => assert ALL_BUCKETS[6] == b;
    case DotnetTool => assert ALL_BUCKETS[7] == b;
    case DenoTool => assert ALL_BUCKETS[8] == b;
    case MiseTool => assert ALL_BUCKETS[9] == b;
  }

  /** A directory that is no listed bucket is left alone, and no bucket appears or disappears. */
  lemma {:induction false} OthersUntouched(tools: map<string, Node<Versions>>, buckets: seq<ToolBucket>,
                                            keep: ToolBucket -> set<string>, dryRun: bool, name: string)
    ensures var left := SweptVersions(tools, buckets, keep, dryRun).tools;
      && (name in left <==> name in tools)
      && (name in tools && (forall b | b in buckets :: ToolName(b) != name) ==> left[name] == tools[name])
  {
    if buckets != [] {
      OthersUntouched(tools, buckets[..|buckets| - 1], keep, dryRun, name);
    }
  }

  /** A listed bucket is swept once, with its own kept versions; only an error can leave it unswept. */
  lemma {:induction false} BucketSwept(tools: map<string, Node<Versions>>, buckets: seq<ToolBucket>,
                                       keep: ToolBucket -> set<string>, dryRun: bool, b: ToolBucket)
    requires Distinct(buckets) && b in buckets && ToolName(b) in tools
    ensures var left := SweptVersions(tools, buckets, keep, dryRun);
      && ToolName(b) in left.tools
      && (left.tools[ToolName(b)] == BucketAfter(tools[ToolName(b)], keep(b), dryRun)
          || (left.tools[ToolName(b)] == tools[ToolName(b)] && !left.ok))
  {
    var init, last := buckets[..|buckets| - 1], buckets[|buckets| - 1];
    if b == last {
      forall c | c in init
        ensures ToolName(c) != ToolName(b)
      {
        ToolNamesDiffer(c, b);
      }
      OthersUntouched(tools, init, keep, dryRun, ToolName(b));
    } else {
      BucketSwept(tools, init, keep, dryRun, b);
      ToolNamesDiffer(b, last);
    }
  }

  // ---- nothing still needed is removed ----

  /** A repository directory that a loaded configuration refers to stays as it is. */
  lemma NeededRepoSurvives(w: World, s: Store, dryRun: bool, path: string, repo: RepoConfig)
    requires IsLoaded(w, s, path) && repo in w.load(path).config.repos && repo.RemoteRepo?
    requires w.repoKey(repo.source, repo.rev) in s.repos
    ensures var left, key := Collected(w, s, dryRun).store.repos, w.repoKey(repo.source, repo.rev);
      key in left && left[key] == s.repos[key]
  {
    var key := w.repoKey(repo.source, repo.rev);
    assert key in ReposKeys(w, w.load(path).config.repos);
    assert key in UsedRepoKeys(w, s);
  }

  /** `r` is a requirement of a loaded tracked configuration. */
  predicate Needs(w: World, s: Store, path: string, r: Requirement) {
    IsLoaded(w, s, path) && r in ConfigRequirements(w, s, w.load(path).config)
  }

  lemma NeededIsMarked(w: World, s: Store, path: string, r: Requirement)
    requires Needs(w, s, path, r)
    ensures r in Requirements(w, s) && s.tracked != {}
  {
  }

  /** An installed environment satisfying `r`. */
  predicate Serves(w: World, s: Store, r: Requirement, name: string) {
    name in s.hooks && s.hooks[name].content != None && IsSatisfiedBy(w.versioning, r, s.hooks[name].content.value)
  }

  /** The path of a directory called `name`, wherever it lies. */
  predicate PathOf(path: Path, name: string) {
    path != [] && path[|path| - 1] == name && name != ".."
  }

  /** The marker records the directory it lies in, as installation writes it. */
  predicate SelfNamed(s: Store, name: string) {
    name in s.hooks && s.hooks[name].content != None ==> PathOf(s.hooks[name].content.value.envPath, name)
  }

  /** A visible environment survives a real collection exactly when the marker of one in use records its name. */
  lemma EnvSurvivesIff(w: World, s: Store, name: string)
    requires s.tracked != {} && name in s.hooks
    requires s.hooks[name].isDir && !s.hooks[name].stuck && !Hidden(name)
    ensures name in Collected(w, s, false).store.hooks
       <==> exists user | user in SatisfiedEnvs(w, s) :: PathOf(s.hooks[user].content.value.envPath, name)
  {
    SweepKeeps(s.hooks, UsedEnvDirs(w, s), false, name);
    forall user | user in SatisfiedEnvs(w, s)
      ensures PathOf(s.hooks[user].content.value.envPath, name) <==> FileName(s.hooks[user].content.value.envPath) == Some(name)
    {
    }
  }

  lemma ServingIsMarked(w: World, s: Store, path: string, r: Requirement, name: string)
    requires Needs(w, s, path, r) && Serves(w, s, r, name)
    ensures name in SatisfiedEnvs(w, s) && s.tracked != {} && r in Requirements(w, s)
  {
    NeededIsMarked(w, s, path, r);
    assert Satisfied(w, s, s.hooks[name].content.value);
  }

  /** Every environment satisfying a requirement survives untouched. */
  lemma NeededEnvSurvives(w: World, s: Store, dryRun: bool, path: string, r: Requirement, name: string)
    requires Needs(w, s, path, r) && Serves(w, s, r, name) && SelfNamed(s, name)
    ensures var left := Collected(w, s, dryRun).store.hooks;
      name in left && left[name] == s.hooks[name]
  {
    ServingIsMarked(w, s, path, r, name);
    SelfNamedIsUsed(w, s, name);
    SweepKeeps(s.hooks, UsedEnvDirs(w, s), dryRun, name);
    HooksAfter(w, s, dryRun);
  }

  lemma SelfNamedIsUsed(w: World, s: Store, name: string)
    requires name in SatisfiedEnvs(w, s) && SelfNamed(s, name)
    ensures name in UsedEnvDirs(w, s)
  {
    assert FileName(s.hooks[name].content.value.envPath) == Some(name);
  }

  lemma HooksAfter(w: World, s: Store, dryRun: bool)
    requires s.tracked != {}
    ensures Collected(w, s, dryRun).store.hooks == After(s.hooks, Unused(s.hooks, UsedEnvDirs(w, s)), dryRun)
  {
  }

  lemma UsedBucketSurvives(w: World, s: Store, dryRun: bool, b: ToolBucket)
    requires ToolName(b) in UsedToolNames(w, s) && ToolName(b) in s.tools
    ensures ToolName(b) in BucketsAfter(w, s, dryRun) && ToolName(b) in ToolSweep(w, s, dryRun).tools
    ensures BucketsAfter(w, s, dryRun)[ToolName(b)] == s.tools[ToolName(b)]
  {
    SweepKeeps(s.tools, UsedToolNames(w, s), dryRun, ToolName(b));
    OthersUntouched(BucketsAfter(w, s, dryRun), ALL_BUCKETS, b => UsedVersions(w, s, b), dryRun, ToolName(b));
  }

  /** The tool and cache buckets of a required language survive. */
  lemma NeededBucketsSurvive(w: World, s: Store, dryRun: bool, path: string, r: Requirement)
    requires Needs(w, s, path, r)
    ensures var left := Collected(w, s, dryRun).store;
      && (forall b | b in ToolBuckets(r.language) && ToolName(b) in s.tools :: ToolName(b) in left.tools)
      && (forall b | b in CacheBuckets(r.language) && CacheName(b) in s.caches ::
            CacheName(b) in left.caches && left.caches[CacheName(b)] == s.caches[CacheName(b)])
  {
    NeededIsMarked(w, s, path, r);
    forall b | b in ToolBuckets(r.language) && ToolName(b) in s.tools
      ensures ToolName(b) in ToolSweep(w, s, dryRun).tools
    {
      assert ToolName(b) in UsedToolNames(w, s);
      UsedBucketSurvives(w, s, dryRun, b);
    }
    forall b | b in CacheBuckets(r.language)
      ensures CacheName(b) in UsedCacheNames(w, s)
    {
    }
  }

  /** The tool buckets that installing or running a hook of the language opens. */
  function OpenedTools(language: Language): set<ToolBucket> {
    if language == Bun then {BunTool}
    else if language == Deno then {DenoTool}
    else if language == Dotnet then {DotnetTool}
    else if language == Golang then {GoTool}
    else if language == Mise then {MiseTool}
    else if language.Node? then {NodeTool}
    else if language == Python || language == Pygrep then {UvTool, PythonTool}
    else if language == Ruby then {RubyTool}
    else if language == Rust then {RustupTool}
    else {}
  }

  function OpenedCaches(language: Language): set<CacheBucket> {
    if language == Coursier then {CoursierCache}
    else if language == Deno then {DenoCache}
    else if language == Golang then {GoCache}
    else if language.Node? then {NpmCache}
    else if language == Python then {UvCache}
    else if language == Pygrep then {UvCache, PythonCache}
    else if language == Rust then {CargoCache}
    else {}
  }

  /** No bucket that a required language opens is removed, and the program's own cache never is. */
  lemma OpenedBucketsSurvive(w: World, s: Store, dryRun: bool, path: string, r: Requirement)
    requires Needs(w, s, path, r)
    ensures var left := Collected(w, s, dryRun).store;
      && (forall b | b in OpenedTools(r.language) && ToolName(b) in s.tools :: ToolName(b) in left.tools)
      && (forall b | (b in OpenedCaches(r.language) || b == PrekCache) && CacheName(b) in s.caches ::
            CacheName(b) in left.caches && left.caches[CacheName(b)] == s.caches[CacheName(b)])
  {
    NeededBucketsSurvive(w, s, dryRun, path, r);
    OpenedAreMarked(r.language);
    NeededIsMarked(w, s, path, r);
  }

  lemma OpenedAreMarked(language: Language)
    ensures OpenedTools(language) == ToolBuckets(language) && OpenedCaches(language) <= CacheBuckets(language)
  {
  }

  lemma UsedVersionSurvives(w: World, s: Store, dryRun: bool, b: ToolBucket, v: string)
    requires ToolName(b) in UsedToolNames(w, s) && ToolName(b) in s.tools
    requires v in UsedVersions(w, s, b) && v in s.tools[ToolName(b)].content
    ensures var left := ToolSweep(w, s, dryRun).tools;
      && ToolName(b) in left && v in left[ToolName(b)].content
      && left[ToolName(b)].content[v] == s.tools[ToolName(b)].content[v]
  {
    UsedBucketSurvives(w, s, dryRun, b);
    var keep := b => UsedVersions(w, s, b);
    AllBucketsListed(b);
    BucketSwept(BucketsAfter(w, s, dryRun), ALL_BUCKETS, keep, dryRun, b);
  }

  /** The toolchain lies in the directory of version `v` of the bucket. */
  predicate LiesInVersion(w: World, b: ToolBucket, v: string, toolchain: Path) {
    v != "" && w.toolsDir + [ToolName(b), v] <= toolchain
  }

  lemma VersionDirIs(w: World, b: ToolBucket, v: string, toolchain: Path)
    ensures VersionDir(w, b, toolchain) == Some(v) <==> LiesInVersion(w, b, v, toolchain)
  {
    var root := w.toolsDir + [ToolName(b)];
    assert w.toolsDir + [ToolName(b), v] == root + [v];
    if |root| < |toolchain| {
      assert toolchain[..|root| + 1] == toolchain[..|root|] + [toolchain[|root|]];
      assert (root + [v])[..|root|] == root;
    }
  }

  /** The toolchain version an environment in use runs survives both tool sweeps. */
  lemma NeededVersionSurvives(w: World, s: Store, dryRun: bool, path: string, r: Requirement, name: string,
                              b: ToolBucket, v: string)
    requires Needs(w, s, path, r) && Serves(w, s, r, name) && b in ToolBuckets(r.language)
    requires LiesInVersion(w, b, v, s.hooks[name].content.value.toolchain)
    requires ToolName(b) in s.tools && v in s.tools[ToolName(b)].content
    ensures var left := Collected(w, s, dryRun).store.tools;
      && ToolName(b) in left && v in left[ToolName(b)].content
      && left[ToolName(b)].content[v] == s.tools[ToolName(b)].content[v]
  {
    ServingIsMarked(w, s, path, r, name);
    VersionDirIs(w, b, v, s.hooks[name].content.value.toolchain);
    assert ToolName(b) in UsedToolNames(w, s);
    UsedVersionSurvives(w, s, dryRun, b, v);
  }

  /** An environment in use, of a language with this bucket, whose toolchain lies in version `v`. */
  predicate RunsVersion(w: World, s: Store, name: string, b: ToolBucket, v: string) {
    && name in SatisfiedEnvs(w, s) && b in ToolBuckets(s.hooks[name].content.value.language)
    && LiesInVersion(w, b, v, s.hooks[name].content.value.toolchain)
  }

  lemma UsedVersionsAreRun(w: World, s: Store, b: ToolBucket, v: string)
    ensures v in UsedVersions(w, s, b) <==> exists name :: RunsVersion(w, s, name, b, v)
  {
    forall name | name in SatisfiedEnvs(w, s)
      ensures VersionDir(w, b, s.hooks[name].content.value.toolchain) == Some(v)
         <==> LiesInVersion(w, b, v, s.hooks[name].content.value.toolchain)
    {
      VersionDirIs(w, b, v, s.hooks[name].content.value.toolchain);
    }
    if v in UsedVersions(w, s, b) {
      var name :| name in SatisfiedEnvs(w, s) && b in ToolBuckets(s.hooks[name].content.value.language)
        && VersionDir(w, b, s.hooks[name].content.value.toolchain) == Some(v);
      assert RunsVersion(w, s, name, b, v);
    }
  }

  /** A visible version of a used bucket survives a real collection exactly when some environment in use runs it. */
  lemma VersionSurvivesIff(w: World, s: Store, b: ToolBucket, v: string)
    requires s.tracked != {} && ToolName(b) in UsedToolNames(w, s)
    requires ToolName(b) in s.tools && v in s.tools[ToolName(b)].content
    requires var node := s.tools[ToolName(b)].content[v]; node.isDir && !node.stuck && !Hidden(v)
    requires Collected(w, s, false).summary.Done?
    ensures var left := Collected(w, s, false).store.tools;
      && ToolName(b) in left
      && (v in left[ToolName(b)].content <==> exists name :: RunsVersion(w, s, name, b, v))
  {
    UsedVersionsAreRun(w, s, b, v);
    UsedBucketSurvives(w, s, false, b);
    AllBucketsListed(b);
    BucketSwept(BucketsAfter(w, s, false), ALL_BUCKETS, b => UsedVersions(w, s, b), false, b);
  }

  /**
    As coded, a bucket none of whose recorded toolchains is recognised loses every visible
    version directory, although the comment in the source says that all versions are kept.
   */
  lemma UnrecognisedVersionsAreSwept(w: World, s: Store, b: ToolBucket, v: string)
    requires s.tracked != {} && UsedVersions(w, s, b) == {}
    requires ToolName(b) in s.tools && v in s.tools[ToolName(b)].content
    requires var node := s.tools[ToolName(b)].content[v]; node.isDir && !node.stuck && !Hidden(v)
    requires Collected(w, s, false).summary.Done?
    ensures var left := Collected(w, s, false).store.tools;
      ToolName(b) !in left || v !in left[ToolName(b)].content
  {
    var tools := BucketsAfter(w, s, false);
    AllBucketsListed(b);
    if ToolName(b) in tools {
      BucketSwept(tools, ALL_BUCKETS, b => UsedVersions(w, s, b), false, b);
    } else {
      OthersUntouched(tools, ALL_BUCKETS, b => UsedVersions(w, s, b), false, ToolName(b));
    }
  }

  // ---- an environment a run would reuse ----

  lemma {:induction false} RemoteRequirementListed(w: World, config: Config, manifest: seq<ManifestHook>, repo: RepoIdentity,
                                                   hooks: seq<RemoteHook>, hook: RemoteHook)
    requires hook in hooks && RemoteRequirement(w, config, manifest, repo, hook) != None
    ensures RemoteRequirement(w, config, manifest, repo, hook).value in RemoteRequirements(w, config, manifest, repo, hooks)
  {
    if hook != hooks[|hooks| - 1] {
      RemoteRequirementListed(w, config, manifest, repo, hooks[..|hooks| - 1], hook);
    }
  }

  lemma {:induction false} LocalRequirementListed(w: World, config: Config, hooks: seq<LocalHook>, hook: LocalHook)
    requires hook in hooks && RequirementOf(w.versioning, config, FromLocal(hook), None) != None
    ensures RequirementOf(w.versioning, config, FromLocal(hook), None).value in LocalRequirements(w, config, hooks)
  {
    if hook != hooks[|hooks| - 1] {
      LocalRequirementListed(w, config, hooks[..|hooks| - 1], hook);
    }
  }

  lemma {:induction false} RepoRequirementListed(w: World, s: Store, config: Config, repos: seq<RepoConfig>, repo: RepoConfig, r: Requirement)
    requires repo in repos && r in RepoRequirements(w, s, config, repo)
    ensures r in ReposRequirements(w, s, config, repos)
  {
    if repo != repos[|repos| - 1] {
      RepoRequirementListed(w, s, config, repos[..|repos| - 1], repo, r);
    }
  }

  /** A hook of a loaded tracked configuration, as a run would build it. */
  predicate RunsHook(w: World, s: Store, path: string, repo: RepoConfig, spec: HookSpec, clone: Repo) {
    && IsLoaded(w, s, path)
    && repo in w.load(path).config.repos
    && match repo
       case RemoteRepo(source, rev, hooks) =>
         var manifest := Manifest(s.repos, w.repoKey(source, rev));
         && clone == RemoteClone(source, rev)
         && manifest != None
         && exists hook :: hook in hooks && FindManifestHook(manifest.value, hook.id) != None
              && spec == FromRemote(FindManifestHook(manifest.value, hook.id).value, hook)
       case LocalRepo(hooks) =>
         && clone == Local
         && exists hook :: hook in hooks && spec == FromLocal(hook)
       case _ => false
  }

  lemma RunRequirementIsMarked(w: World, s: Store, path: string, repo: RepoConfig, spec: HookSpec, clone: Repo, r: Requirement)
    requires RunsHook(w, s, path, repo, spec, clone)
    requires RequirementOf(w.versioning, w.load(path).config, spec, clone.Identity()) == Some(r)
    ensures Needs(w, s, path, r)
  {
    var config := w.load(path).config;
    match repo
    case RemoteRepo(source, rev, hooks) =>
      var manifest := Manifest(s.repos, w.repoKey(source, rev)).value;
      var hook :| hook in hooks && FindManifestHook(manifest, hook.id) != None
        && spec == FromRemote(FindManifestHook(manifest, hook.id).value, hook);
      RemoteRequirementListed(w, config, manifest, RepoIdentity(source, rev), hooks, hook);
      RepoRequirementListed(w, s, config, config.repos, repo, r);
    case LocalRepo(hooks) =>
      var hook :| hook in hooks && spec == FromLocal(hook);
      LocalRequirementListed(w, config, hooks, hook);
      RepoRequirementListed(w, s, config, config.repos, repo, r);
    case _ =>
  }

  /** A run of a tracked project builds this hook and would reuse this environment for it. */
  predicate Reuses(w: World, s: Store, path: string, repo: RepoConfig, spec: HookSpec, clone: Repo, m: Metadata, name: string) {
    && RunsHook(w, s, path, repo, spec, clone)
    && var hook := BuildHook(w.versioning, w.load(path).config, clone, spec, m);
    && hook != None
    && hook.value.EnvironmentRequirement() != None
    && Serves(w, s, hook.value.EnvironmentRequirement().value, name)
  }

  /**
    An installed environment that a run of a tracked project would reuse is never removed, unless the hook's
    script adds dependencies or overrides a definite version that the environment does not have.
   */
  lemma ReusableEnvSurvives(w: World, s: Store, dryRun: bool, path: string, repo: RepoConfig, spec: HookSpec,
                            clone: Repo, m: Metadata, name: string)
    requires Reuses(w, s, path, repo, spec, clone, m, name) && SelfNamed(s, name)
    requires var plain := PlainHook(w.versioning, w.load(path).config, clone, spec).value;
      && !AddsDependencies(w.versioning, m, plain)
      && (ScriptSetsVersion(w.versioning, m, plain) ==>
            RequestSatisfied(w.versioning, plain.request, s.hooks[name].content.value))
    ensures var left := Collected(w, s, dryRun).store.hooks;
      name in left && left[name] == s.hooks[name]
  {
    var config := w.load(path).config;
    var plain := PlainHook(w.versioning, config, clone, spec).value;
    ExtractedHook(w.versioning, m, plain);
    ReusableMeetsPlainIff(w.versioning, m, plain, s.hooks[name].content.value);
    PlainRequirement(w.versioning, config, clone, spec);
    var r := plain.EnvironmentRequirement().value;
    RunRequirementIsMarked(w, s, path, repo, spec, clone, r);
    NeededEnvSurvives(w, s, dryRun, path, r, name);
  }
}
