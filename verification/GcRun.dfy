/** The collector itself: loops that fill mark sets, and a store updated in place. */
module GcRun {
  import opened Wrappers
  import opened HookSpecs
  import opened Sweeping
  import opened CacheGc
  import opened GcRepeat

  // ---- requirements of one configuration ----

  method RemoteRequirementsLoop(w: World, config: Config, manifest: seq<ManifestHook>, repo: RepoIdentity, hooks: seq<RemoteHook>)
    returns (rs: seq<Requirement>)
    ensures rs == RemoteRequirements(w, config, manifest, repo, hooks)
  {
    rs := [];
    for i := 0 to |hooks|
      invariant rs == RemoteRequirements(w, config, manifest, repo, hooks[..i])
    {
      assert hooks[..i + 1][..i] == hooks[..i];
      var found := FindManifestHook(manifest, hooks[i].id);
      if found == None {
        continue;
      }
      var requirement := RequirementOf(w.versioning, config, FromRemote(found.value, hooks[i]), Some(repo));
      if requirement != None {
        rs := rs + [requirement.value];
      }
    }
    assert hooks[..|hooks|] == hooks;
  }

  method LocalRequirementsLoop(w: World, config: Config, hooks: seq<LocalHook>) returns (rs: seq<Requirement>)
    ensures rs == LocalRequirements(w, config, hooks)
  {
    rs := [];
    for i := 0 to |hooks|
      invariant rs == LocalRequirements(w, config, hooks[..i])
    {
      assert hooks[..i + 1][..i] == hooks[..i];
      var requirement := RequirementOf(w.versioning, config, FromLocal(hooks[i]), None);
      if requirement != None {
        rs := rs + [requirement.value];
      }
    }
    assert hooks[..|hooks|] == hooks;
  }

  lemma OneMoreRepo(w: World, s: Store, config: Config, i: nat)
    requires i < |config.repos|
    ensures ReposRequirements(w, s, config, config.repos[..i + 1])
         == ReposRequirements(w, s, config, config.repos[..i]) + RepoRequirements(w, s, config, config.repos[i])
  {
    assert config.repos[..i + 1][..i] == config.repos[..i];
  }

  method HookEnvRequirementsFromConfig(w: World, s: Store, config: Config) returns (rs: seq<Requirement>)
    ensures rs == ConfigRequirements(w, s, config)
  {
    rs := [];
    var repos := config.repos;
    for i := 0 to |repos|
      invariant rs == ReposRequirements(w, s, config, repos[..i])
    {
      OneMoreRepo(w, s, config, i);
      match repos[i]
      case RemoteRepo(source, rev, hooks) =>
        var manifest := Manifest(s.repos, w.repoKey(source, rev));
        if manifest != None {
          var more := RemoteRequirementsLoop(w, config, manifest.value, RepoIdentity(source, rev), hooks);
          rs := rs + more;
        }
      case LocalRepo(hooks) =>
        var more := LocalRequirementsLoop(w, config, hooks);
        rs := rs + more;
      case _ =>
    }
    assert repos[..|repos|] == repos;
  }

  // ---- marking from configurations ----

  function Elems(rs: seq<Requirement>): set<Requirement> {
    set r | r in rs
  }

  function ConfigMarks(w: World, s: Store, path: string): set<Requirement> {
    if w.load(path).Loaded? then Elems(ConfigRequirements(w, s, w.load(path).config)) else {}
  }

  lemma RequirementsOneMore(w: World, s: Store, done: set<string>, path: string)
    ensures Requirements(w, s.(tracked := done + {path})) == Requirements(w, s.(tracked := done)) + ConfigMarks(w, s, path)
  {
    forall p | w.load(p).Loaded?
      ensures ConfigRequirements(w, s.(tracked := done), w.load(p).config) == ConfigRequirements(w, s, w.load(p).config)
      ensures ConfigRequirements(w, s.(tracked := done + {path}), w.load(p).config) == ConfigRequirements(w, s, w.load(p).config)
    {
      SameReposRequirements(w, s, s.(tracked := done), w.load(p).config, w.load(p).config.repos);
      SameReposRequirements(w, s, s.(tracked := done + {path}), w.load(p).config, w.load(p).config.repos);
    }
    var before, after := s.(tracked := done), s.(tracked := done + {path});
    forall r
      ensures r in Requirements(w, after) <==> r in Requirements(w, before) || r in ConfigMarks(w, s, path)
    {
    }
  }

  /** The first loop of the collector, for every order the tracked set may be listed in. */
  method MarkConfigs(w: World, s: Store) returns (kept: set<string>, repoKeys: set<string>, requirements: seq<Requirement>)
    ensures kept == KeptConfigs(w, s) && repoKeys == UsedRepoKeys(w, s) && Elems(requirements) == Requirements(w, s)
  {
    kept, repoKeys, requirements := {}, {}, [];
    var todo := s.tracked;
    ghost var done: set<string> := {};
    while todo != {}
      invariant done == s.tracked - todo && todo <= s.tracked
      invariant kept == KeptConfigs(w, s.(tracked := done))
      invariant repoKeys == UsedRepoKeys(w, s.(tracked := done))
      invariant Elems(requirements) == Requirements(w, s.(tracked := done))
      decreases todo
    {
      var path :| path in todo;
      todo := todo - {path};
      RequirementsOneMore(w, s, done, path);
      done := done + {path};
      match w.load(path)
      case NotFound =>
      case Broken =>
        kept := kept + {path};
      case Loaded(config) =>
        kept := kept + {path};
        var more := HookEnvRequirementsFromConfig(w, s, config);
        assert Elems(requirements + more) == Elems(requirements) + Elems(more);
        requirements := requirements + more;
        repoKeys := repoKeys + ReposKeys(w, config.repos);
    }
    assert done == s.tracked;
    assert s.(tracked := done) == s;
  }

  function ToolNamesOf(rs: set<Requirement>): set<string> {
    set r, b | r in rs && b in ToolBuckets(r.language) :: ToolName(b)
  }

  function CacheNamesOf(rs: set<Requirement>): set<string> {
    {CacheName(PrekCache)} + set r, b | r in rs && b in CacheBuckets(r.language) :: CacheName(b)
  }

  method MarkBuckets(requirements: seq<Requirement>) returns (tools: set<string>, caches: set<string>)
    ensures tools == ToolNamesOf(Elems(requirements)) && caches == CacheNamesOf(Elems(requirements))
  {
    tools, caches := {}, {CacheName(PrekCache)};
    for i := 0 to |requirements|
      invariant tools == ToolNamesOf(Elems(requirements[..i]))
      invariant caches == CacheNamesOf(Elems(requirements[..i]))
    {
      var r := requirements[i];
      assert Elems(requirements[..i + 1]) == Elems(requirements[..i]) + {r};
      tools := tools + set b | b in ToolBuckets(r.language) :: ToolName(b);
      caches := caches + set b | b in CacheBuckets(r.language) :: CacheName(b);
    }
    assert requirements[..|requirements|] == requirements;
  }

  // ---- marking from installed environments ----

  /** `keep_versions` of a bucket: no entry keeps nothing. */
  function Keep(used: map<ToolBucket, set<string>>, b: ToolBucket): set<string> {
    if b in used then used[b] else {}
  }

  function VersionMark(w: World, info: InstallInfo, b: ToolBucket): set<string> {
    if b in ToolBuckets(info.language) && VersionDir(w, b, info.toolchain) != None
    then {VersionDir(w, b, info.toolchain).value} else {}
  }

  method MarkToolVersions(w: World, info: InstallInfo, used: map<ToolBucket, set<string>>)
    returns (marked: map<ToolBucket, set<string>>)
    ensures forall b :: Keep(marked, b) == Keep(used, b) + VersionMark(w, info, b)
  {
    marked := used;
    var todo := ToolBuckets(info.language);
    while todo != {}
      invariant todo <= ToolBuckets(info.language)
      invariant forall b :: Keep(marked, b) == Keep(used, b) + if b in todo then {} else VersionMark(w, info, b)
      decreases todo
    {
      var b :| b in todo;
      todo := todo - {b};
      var version := VersionDir(w, b, info.toolchain);
      if version != None {
        marked := marked[b := Keep(marked, b) + {version.value}];
      }
    }
  }

  /** Hook directories in `names` whose marker satisfies a requirement. */
  function SatisfiedAmong(w: World, s: Store, names: set<string>): set<string> {
    set n | n in names && n in SatisfiedEnvs(w, s)
  }

  function EnvDirsOf(w: World, s: Store, names: set<string>): set<string> {
    set n | n in SatisfiedAmong(w, s, names) && FileName(s.hooks[n].content.value.envPath) != None
      :: FileName(s.hooks[n].content.value.envPath).value
  }

  function VersionsOf(w: World, s: Store, names: set<string>, b: ToolBucket): set<string> {
    set n, v | n in SatisfiedAmong(w, s, names) && v in VersionMark(w, s.hooks[n].content.value, b) :: v
  }

  lemma EnvMarksOneMore(w: World, s: Store, done: set<string>, n: string)
    requires n in SatisfiedEnvs(w, s)
    ensures var info := s.hooks[n].content.value;
      && EnvDirsOf(w, s, done + {n}) == EnvDirsOf(w, s, done) + (if FileName(info.envPath) == None then {} else {FileName(info.envPath).value})
      && forall b :: VersionsOf(w, s, done + {n}, b) == VersionsOf(w, s, done, b) + VersionMark(w, info, b)
  {
    assert SatisfiedAmong(w, s, done + {n}) == SatisfiedAmong(w, s, done) + {n};
    forall b
      ensures VersionsOf(w, s, done + {n}, b) == VersionsOf(w, s, done, b) + VersionMark(w, s.hooks[n].content.value, b)
    {
    }
  }

  lemma UnsatisfiedAddsNothing(w: World, s: Store, done: set<string>, n: string)
    requires n !in SatisfiedEnvs(w, s)
    ensures EnvDirsOf(w, s, done + {n}) == EnvDirsOf(w, s, done)
    ensures forall b :: VersionsOf(w, s, done + {n}, b) == VersionsOf(w, s, done, b)
  {
    assert SatisfiedAmong(w, s, done + {n}) == SatisfiedAmong(w, s, done);
  }

  lemma AllEnvMarks(w: World, s: Store)
    ensures EnvDirsOf(w, s, s.hooks.Keys) == UsedEnvDirs(w, s)
    ensures forall b :: VersionsOf(w, s, s.hooks.Keys, b) == UsedVersions(w, s, b)
  {
    assert SatisfiedAmong(w, s, s.hooks.Keys) == SatisfiedEnvs(w, s);
    forall b
      ensures VersionsOf(w, s, s.hooks.Keys, b) == UsedVersions(w, s, b)
    {
      forall v | v in UsedVersions(w, s, b)
        ensures v in VersionsOf(w, s, s.hooks.Keys, b)
      {
        var n :| n in SatisfiedEnvs(w, s) && b in ToolBuckets(s.hooks[n].content.value.language)
          && VersionDir(w, b, s.hooks[n].content.value.toolchain) == Some(v);
        assert v in VersionMark(w, s.hooks[n].content.value, b);
      }
    }
  }

  /** The loop over installed environments, for every order they may be loaded in. */
  method MarkInstalled(w: World, s: Store, requirements: seq<Requirement>)
    returns (envDirs: set<string>, versions: map<ToolBucket, set<string>>)
    requires Elems(requirements) == Requirements(w, s)
    ensures envDirs == UsedEnvDirs(w, s)
    ensures forall b :: Keep(versions, b) == UsedVersions(w, s, b)
  {
    envDirs, versions := {}, map[];
    var todo := s.hooks.Keys;
    ghost var done: set<string> := {};
    while todo != {}
      invariant done == s.hooks.Keys - todo && todo <= s.hooks.Keys
      invariant envDirs == EnvDirsOf(w, s, done)
      invariant forall b :: Keep(versions, b) == VersionsOf(w, s, done, b)
      decreases todo
    {
      var n :| n in todo;
      todo := todo - {n};
      var marker := s.hooks[n].content;
      assert forall r :: r in requirements <==> r in Elems(requirements);
      if marker != None && exists r | r in requirements :: IsSatisfiedBy(w.versioning, r, marker.value) {
        EnvMarksOneMore(w, s, done, n);
        var dir := FileName(marker.value.envPath);
        if dir != None {
          envDirs := envDirs + {dir.value};
        }
        versions := MarkToolVersions(w, marker.value, versions);
      } else {
        UnsatisfiedAddsNothing(w, s, done, n);
      }
      done := done + {n};
    }
    assert done == s.hooks.Keys;
    AllEnvMarks(w, s);
  }

  // ---- sweeping tools ----

  lemma {:induction false} SameKeepSameSweep(tools: map<string, Node<Versions>>, buckets: seq<ToolBucket>,
                                              keep: ToolBucket -> set<string>, keep': ToolBucket -> set<string>, dryRun: bool)
    requires forall b :: keep(b) == keep'(b)
    ensures SweptVersions(tools, buckets, keep, dryRun) == SweptVersions(tools, buckets, keep', dryRun)
  {
    if buckets != [] {
      SameKeepSameSweep(tools, buckets[..|buckets| - 1], keep, keep', dryRun);
    }
  }

  method SweepToolVersions(tools: map<string, Node<Versions>>, used: map<ToolBucket, set<string>>, dryRun: bool)
    returns (left: map<string, Node<Versions>>, total: Removal, ok: bool)
    ensures VersionSweep(left, total, ok) == SweptVersions(tools, ALL_BUCKETS, b => Keep(used, b), dryRun)
  {
    left, total, ok := tools, Removal(0, 0), true;
    for i := 0 to |ALL_BUCKETS|
      invariant VersionSweep(left, total, ok) == SweptVersions(tools, ALL_BUCKETS[..i], b => Keep(used, b), dryRun)
    {
      assert ALL_BUCKETS[..i + 1][..i] == ALL_BUCKETS[..i];
      var name := ToolName(ALL_BUCKETS[i]);
      if ok && name in left {
        if !left[name].isDir {
          ok := false;
        } else {
          var bucket := left[name];
          var versions, removal := SweepDirByName(bucket.content, Keep(used, ALL_BUCKETS[i]), dryRun);
          if !dryRun {
            left := left[name := bucket.(content := versions, bytes := Minus(bucket.bytes, removal.bytes))];
          } else {
            assert left[name := bucket] == left;
          }
          total := total.Plus(removal);
        }
      }
    }
    assert ALL_BUCKETS[..|ALL_BUCKETS|] == ALL_BUCKETS;
  }

  // ---- the store ----

  datatype Marks = Marks(
    kept: set<string>,
    repoKeys: set<string>,
    envDirs: set<string>,
    toolNames: set<string>,
    versions: map<ToolBucket, set<string>>,
    cacheNames: set<string>)

  ghost predicate MarksOf(w: World, s: Store, m: Marks) {
    && m.kept == KeptConfigs(w, s) && m.repoKeys == UsedRepoKeys(w, s)
    && m.envDirs == UsedEnvDirs(w, s) && m.toolNames == UsedToolNames(w, s)
    && m.cacheNames == UsedCacheNames(w, s)
    && forall b :: Keep(m.versions, b) == UsedVersions(w, s, b)
  }

  /** The marking phase of `cache_gc`. */
  method Mark(w: World, s: Store) returns (m: Marks)
    ensures MarksOf(w, s, m)
  {
    var kept, repoKeys, requirements := MarkConfigs(w, s);
    var toolNames, cacheNames := MarkBuckets(requirements);
    var envDirs, versions := MarkInstalled(w, s, requirements);
    m := Marks(kept, repoKeys, envDirs, toolNames, versions, cacheNames);
  }

  ghost function ToolsSwept(tools: map<string, Node<Versions>>, m: Marks, dryRun: bool): VersionSweep {
    SweptVersions(After(tools, Unused(tools, m.toolNames), dryRun), ALL_BUCKETS, b => Keep(m.versions, b), dryRun)
  }

  /** What the sweeps make of a store, given marks. */
  ghost function SweptBy(s: Store, m: Marks, now: int, dryRun: bool): Outcome {
    var versions := ToolsSwept(s.tools, m, dryRun);
    var swept := s.(repos := After(s.repos, Unused(s.repos, m.repoKeys), dryRun),
                    hooks := After(s.hooks, Unused(s.hooks, m.envDirs), dryRun),
                    tools := versions.tools);
    if !versions.ok then Outcome(swept, Failed)
    else
      Outcome(
        swept.(caches := After(s.caches, Unused(s.caches, m.cacheNames), dryRun),
               patches := After(s.patches, StalePatches(s.patches, now), dryRun),
               scratch := dryRun && s.scratch),
        Done(Report(s.repos, Unused(s.repos, m.repoKeys), dryRun),
             Report(s.hooks, Unused(s.hooks, m.envDirs), dryRun),
             Report(s.tools, Unused(s.tools, m.toolNames), dryRun).Plus(versions.removal),
             Report(s.caches, Unused(s.caches, m.cacheNames), dryRun),
             Report(s.patches, StalePatches(s.patches, now), dryRun)))
  }

  lemma CollectedIsSweptByMarks(w: World, s: Store, m: Marks, dryRun: bool)
    requires MarksOf(w, s, m) && s.tracked != {}
    ensures Collected(w, s, dryRun) == SweptBy(s.(tracked := if dryRun then s.tracked else m.kept), m, w.now, dryRun)
  {
    SameKeepSameSweep(BucketsAfter(w, s, dryRun), ALL_BUCKETS, b => Keep(m.versions, b), b => UsedVersions(w, s, b), dryRun);
  }

  class CacheStore {
    var tracked: set<string>
    var repos: map<string, Node<Option<seq<ManifestHook>>>>
    var hooks: map<string, Node<Option<InstallInfo>>>
    var tools: map<string, Node<Versions>>
    var caches: map<string, Node<()>>
    var patches: map<string, Node<PatchFile>>
    var scratch: bool

    constructor (s: Store)
      ensures Value() == s
    {
      tracked, repos, hooks, tools := s.tracked, s.repos, s.hooks, s.tools;
      caches, patches, scratch := s.caches, s.patches, s.scratch;
    }

    function Value(): Store
      reads this
    {
      Store(tracked, repos, hooks, tools, caches, patches, scratch)
    }

    /** Both tool sweeps. */
    method SweepTools(m: Marks, dryRun: bool) returns (removed: Removal, ok: bool)
      modifies `tools
      ensures var swept := ToolsSwept(old(tools), m, dryRun);
        && tools == swept.tools && ok == swept.ok
        && removed == Report(old(tools), Unused(old(tools), m.toolNames), dryRun).Plus(swept.removal)
    {
      var left, removedBuckets := SweepDirByName(tools, m.toolNames, dryRun);
      var rest, removedVersions, done := SweepToolVersions(left, m.versions, dryRun);
      tools := rest;
      return removedBuckets.Plus(removedVersions), done;
    }

    method SweepRepos(m: Marks, dryRun: bool) returns (removedRepos: Removal, removedHooks: Removal)
      modifies `repos, `hooks
      ensures repos == After(old(repos), Unused(old(repos), m.repoKeys), dryRun)
      ensures hooks == After(old(hooks), Unused(old(hooks), m.envDirs), dryRun)
      ensures removedRepos == Report(old(repos), Unused(old(repos), m.repoKeys), dryRun)
      ensures removedHooks == Report(old(hooks), Unused(old(hooks), m.envDirs), dryRun)
    {
      var left, removed := SweepDirByName(repos, m.repoKeys, dryRun);
      var leftHooks, removed' := SweepDirByName(hooks, m.envDirs, dryRun);
      repos, hooks := left, leftHooks;
      return removed, removed';
    }

    method SweepCaches(m: Marks, now: int, dryRun: bool) returns (removedCaches: Removal, removedPatches: Removal)
      modifies `caches, `patches, `scratch
      ensures caches == After(old(caches), Unused(old(caches), m.cacheNames), dryRun)
      ensures patches == After(old(patches), StalePatches(old(patches), now), dryRun)
      ensures scratch == (dryRun && old(scratch))
      ensures removedCaches == Report(old(caches), Unused(old(caches), m.cacheNames), dryRun)
      ensures removedPatches == Report(old(patches), StalePatches(old(patches), now), dryRun)
    {
      var left, removed := SweepDirByName(caches, m.cacheNames, dryRun);
      caches := left;
      if !dryRun {
        scratch := false;
      }
      var leftPatches, removed' := SweepStalePatchFiles(patches, now, dryRun);
      patches := leftPatches;
      return removed, removed';
    }

    /** The sweeping phase of `cache_gc`; a failing tool sweep ends it early. */
    method Sweep(m: Marks, now: int, dryRun: bool) returns (summary: Summary)
      modifies this
      ensures Outcome(Value(), summary) == SweptBy(old(Value()), m, now, dryRun)
    {
      var removedRepos, removedHooks := SweepRepos(m, dryRun);
      var removedTools, ok := SweepTools(m, dryRun);
      if !ok {
        return Failed;
      }
      var removedCaches, removedPatches := SweepCaches(m, now, dryRun);
      return Done(removedRepos, removedHooks, removedTools, removedCaches, removedPatches);
    }

    /** `cache_gc`: the new store and the summary are those of `Collected`. */
    method Collect(w: World, dryRun: bool) returns (summary: Summary)
      modifies this
      ensures Outcome(Value(), summary) == Collected(w, old(Value()), dryRun)
    {
      if tracked == {} {
        return NothingTracked;
      }
      var m := Mark(w, Value());
      CollectedIsSweptByMarks(w, Value(), m, dryRun);
      SubsetOfSameSize(m.kept, tracked);
      if !dryRun && |m.kept| != |tracked| {
        tracked := m.kept;
      }
      summary := Sweep(m, w.now, dryRun);
    }
  }

  lemma SubsetOfSameSize(a: set<string>, b: set<string>)
    requires a <= b
    ensures |a| == |b| ==> a == b
  {
    if a < b {
      assert |b| == |a| + |b - a|;
    }
  }
}
