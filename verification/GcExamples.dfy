/** Stores on which the collector does not do what its comments and its users expect. */
module GcExamples {
  import opened Wrappers
  import opened HookSpecs
  import opened Sweeping
  import opened CacheGc
  import opened GcSafety
  import opened GcRepeat

  /** One local Python hook without dependencies or a version. */
  const LINT := LocalHook("lint", Python, HookOptions(None, None))

  const CONFIG := Config([LocalRepo([LINT])], map[])

  const REQUIREMENT := Requirement(Python, None, [], LanguageRequest(Python, "", Managed, true))

  function TheWorld(): World {
    World(path => Loaded(CONFIG),
          (source, rev) => source + rev,
          Versioning((language: Language, text: string) => true, (language: Language, text: string) => text == "",
                     (language: Language, text: string, info: InstallInfo) => info.languageVersion == text),
          ["tools"], 0)
  }

  function Marker(dependencies: seq<string>, envName: string, toolchain: Path): InstallInfo {
    InstallInfo(true, Python, "3.12.0", None, dependencies, ["hooks", envName], toolchain)
  }

  function Directory<P>(content: P): Node<P> {
    Sweeping.Node(true, 1, false, content)
  }

  function StoreOf(hooks: map<string, Node<Option<InstallInfo>>>, tools: map<string, Node<Versions>>): Store {
    Store({".pre-commit-config.yaml"}, map[], hooks, tools, map[], map[], false)
  }

  lemma OnlyRequirement(hooks: map<string, Node<Option<InstallInfo>>>, tools: map<string, Node<Versions>>)
    ensures Requirements(TheWorld(), StoreOf(hooks, tools)) == {REQUIREMENT}
    ensures Needs(TheWorld(), StoreOf(hooks, tools), ".pre-commit-config.yaml", REQUIREMENT)
  {
    var w, s := TheWorld(), StoreOf(hooks, tools);
    assert RequirementOf(w.versioning, CONFIG, FromLocal(LINT), None) == Some(REQUIREMENT);
    LastOf([], LINT);
    assert LocalRequirements(w, CONFIG, [LINT]) == LocalRequirements(w, CONFIG, []) + [REQUIREMENT];
    LastOf([], LocalRepo([LINT]));
    assert ConfigRequirements(w, s, CONFIG) == ReposRequirements(w, s, CONFIG, []) + [REQUIREMENT];
    assert ConfigRequirements(w, s, CONFIG) == [REQUIREMENT];
    assert s.tracked == {".pre-commit-config.yaml"} && w.load(".pre-commit-config.yaml") == Loaded(CONFIG);
    forall r ensures r in Requirements(w, s) <==> r == REQUIREMENT {
      assert r == REQUIREMENT ==> r in ConfigRequirements(w, s, w.load(".pre-commit-config.yaml").config);
    }
  }

  lemma LastOf<T>(init: seq<T>, last: T)
    ensures (init + [last])[..|init|] == init
    ensures [last][..0] == []
  {
  }

  // ---- a script's dependencies ----

  const ADDED: seq<string> := ["requests"]

  const SCRIPT := Metadata(Nothing, Nothing, InlineScript(Some(ADDED), None))

  function ScriptStore(): Store {
    StoreOf(map["python-a" := Directory(Some(Marker(ADDED, "python-a", [])))], map[])
  }

  lemma ScriptEnvIsReused()
    ensures Reuses(TheWorld(), ScriptStore(), ".pre-commit-config.yaml", LocalRepo([LINT]), FromLocal(LINT), Local, SCRIPT, "python-a")
  {
    assert LINT in [LINT] && LocalRepo([LINT]) in CONFIG.repos;
  }

  /** A run reuses the environment of a hook whose script declares its dependencies; the collector removes it. */
  lemma ScriptEnvIsSwept()
    ensures var w, s := TheWorld(), ScriptStore();
      && Reuses(w, s, ".pre-commit-config.yaml", LocalRepo([LINT]), FromLocal(LINT), Local, SCRIPT, "python-a")
      && SelfNamed(s, "python-a")
      && "python-a" !in Collected(w, s, false).store.hooks
  {
    var w, s := TheWorld(), ScriptStore();
    ScriptEnvIsReused();
    OnlyRequirement(s.hooks, s.tools);
    assert SatisfiedEnvs(w, s) == {};
    EnvSurvivesIff(w, s, "python-a");
  }

  // ---- a toolchain outside the bucket ----

  function ToolStore(): Store {
    StoreOf(map["python-a" := Directory(Some(Marker([], "python-a", ["usr", "bin", "python3"])))],
            map["python" := Directory(map["3.12.0" := Directory(())])])
  }

  lemma ToolMarks()
    ensures var w, s := TheWorld(), ToolStore();
      && "python-a" in SatisfiedEnvs(w, s) && ToolName(PythonTool) in UsedToolNames(w, s)
      && UsedVersions(w, s, PythonTool) == {}
  {
    var w, s := TheWorld(), ToolStore();
    OnlyRequirement(s.hooks, s.tools);
    assert REQUIREMENT in Requirements(w, s) && PythonTool in ToolBuckets(Python);
    var root, toolchain := w.toolsDir + [ToolName(PythonTool)], s.hooks["python-a"].content.value.toolchain;
    assert toolchain[..|root|][0][0] == 'u' && root[0][0] == 't';
  }

  lemma ToolSweepDone()
    ensures Collected(TheWorld(), ToolStore(), false).summary.Done?
  {
    var w, s := TheWorld(), ToolStore();
    SweepOkIffDirs(BucketsAfter(w, s, false), ALL_BUCKETS, b => UsedVersions(w, s, b), false);
  }

  /** The environment in use runs a toolchain of the system, so its bucket loses every version. */
  lemma UsedBucketLosesVersions()
    ensures var w, s := TheWorld(), ToolStore();
      && "python-a" in SatisfiedEnvs(w, s) && ToolName(PythonTool) in UsedToolNames(w, s)
      && Collected(w, s, false).summary.Done?
      && ToolName(PythonTool) in Collected(w, s, false).store.tools
      && "3.12.0" !in Collected(w, s, false).store.tools[ToolName(PythonTool)].content
  {
    ToolMarks();
    ToolSweepDone();
    UsedVersionsAreRun(TheWorld(), ToolStore(), PythonTool, "3.12.0");
    VersionSurvivesIff(TheWorld(), ToolStore(), PythonTool, "3.12.0");
  }

  // ---- a marker that names another directory ----

  /** The marker of `python-a` records `python-b`, a directory without a marker. */
  function MovedStore(): Store {
    StoreOf(map["python-a" := Directory(Some(Marker([], "python-b", []))), "python-b" := Directory(None)], map[])
  }

  lemma NoTools(hooks: map<string, Node<Option<InstallInfo>>>)
    ensures Collected(TheWorld(), StoreOf(hooks, map[]), false).summary.Done?
  {
    var w, s := TheWorld(), StoreOf(hooks, map[]);
    SweepOkIffDirs(BucketsAfter(w, s, false), ALL_BUCKETS, b => UsedVersions(w, s, b), false);
  }

  lemma MovedMarks()
    ensures var w, s := TheWorld(), MovedStore();
      && SatisfiedEnvs(w, s) == {"python-a"} && Serves(w, s, REQUIREMENT, "python-a")
      && FileName(s.hooks["python-a"].content.value.envPath) == Some("python-b")
  {
    var w, s := TheWorld(), MovedStore();
    OnlyRequirement(s.hooks, s.tools);
    assert REQUIREMENT in Requirements(w, s);
  }

  lemma MovedOnce()
    ensures var t := Collected(TheWorld(), MovedStore(), false).store;
      && t.tracked != {} && "python-a" !in t.hooks && "python-b" in t.hooks && t.hooks["python-b"] == Directory(None)
  {
    var w, s := TheWorld(), MovedStore();
    MovedMarks();
    EnvSurvivesIff(w, s, "python-a");
    EnvSurvivesIff(w, s, "python-b");
    assert ".pre-commit-config.yaml" in KeptConfigs(w, s);
  }

  lemma MovedTwice()
    ensures var w := TheWorld(); var t := Collected(w, MovedStore(), false).store;
      "python-b" !in Collected(w, t, false).store.hooks
  {
    var w, s := TheWorld(), MovedStore();
    var t := Collected(w, s, false).store;
    MovedOnce();
    assert t.hooks.Keys <= s.hooks.Keys;
    assert SatisfiedEnvs(w, t) == {};
    EnvSurvivesIff(w, t, "python-b");
  }

  /** The needed environment is removed, and with it the mark that kept the other directory from a second collection. */
  lemma MovedEnvIsSwept()
    ensures var w, s := TheWorld(), MovedStore();
      var t := Collected(w, s, false).store;
      && Needs(w, s, ".pre-commit-config.yaml", REQUIREMENT) && Serves(w, s, REQUIREMENT, "python-a")
      && Collected(w, s, false).summary.Done?
      && "python-a" !in t.hooks && "python-b" in t.hooks && "python-b" !in Collected(w, t, false).store.hooks
  {
    OnlyRequirement(MovedStore().hooks, map[]);
    NoTools(MovedStore().hooks);
    MovedMarks();
    MovedOnce();
    MovedTwice();
  }

  lemma MovedRemovable()
    ensures RemovalsSucceed(MovedStore())
  {
  }

  lemma MovedIsNotAnchored()
    ensures !Anchored(TheWorld(), MovedStore())
  {
    MovedRemovable();
    NoTools(MovedStore().hooks);
    MovedOnce();
    MovedTwice();
    NotAnchored(TheWorld(), MovedStore(), "python-b");
  }

  lemma NotAnchored(w: World, s: Store, name: string)
    requires RemovalsSucceed(s) && Collected(w, s, false).summary.Done?
    requires var t := Collected(w, s, false).store; name in t.hooks && name !in Collected(w, t, false).store.hooks
    ensures !Anchored(w, s)
  {
    SecondRunRemovesNothingIffAnchored(w, s);
  }
}
