/**
  Merging hook definitions and deriving the environment a hook needs.

  The cache sweep and a hook run compute that requirement along different paths (`from_hook_spec` and
  `Hook::from_spec` with `environment_requirement`).  They agree exactly when the metadata of the hook's
  own files changes nothing.
 */
module HookSpecs {
  import opened Wrappers

  datatype Language =
    | Bun | Conda | Coursier | Dart | Deno | Docker | DockerImage | Dotnet | Fail | Golang | Haskell | Julia
    | Lua | Mise | Node | Perl | Php | Pygrep | Python | R | Ruby | Rust | Script | Swift | System

  predicate SupportsInstallEnv(language: Language) {
    !(language.DockerImage? || language.Fail? || language.Script? || language.System?)
  }

  predicate SupportsDependency(language: Language) {
    SupportsInstallEnv(language) && !(language.Docker? || language.Pygrep? || language.Swift?)
  }

  predicate SupportsLanguageVersion(language: Language) {
    || language.Bun? || language.Deno? || language.Dotnet? || language.Golang? || language.Mise?
    || language.Node? || language.Python? || language.Ruby? || language.Rust?
  }

  // ---- language versions ----

  datatype VersionRequest = Unspecified | Default | Explicit(text: string)

  datatype Preference = OnlyManaged | Managed | PreferSystem | OnlySystem

  datatype LanguageVersion = LanguageVersion(request: VersionRequest, preference: Option<Preference>, allowsDownload: bool)
  {
    predicate IsDefault() {
      preference == None && !request.Explicit? && allowsDownload
    }

    /** `update`: what `other` specifies wins. */
    function Updated(other: LanguageVersion): LanguageVersion {
      var v := if other.request != Unspecified then this.(request := other.request, allowsDownload := other.allowsDownload) else this;
      if other.preference != None then v.(preference := other.preference) else v
    }

    /** `apply_defaults`: what `this` specifies wins. */
    function WithDefaults(defaults: LanguageVersion): LanguageVersion {
      var v := if request == Unspecified then this.(request := defaults.request, allowsDownload := defaults.allowsDownload) else this;
      if preference == None then v.(preference := defaults.preference) else v
    }
  }

  /** A `LanguageVersion` updated in place while definitions are merged. */
  class VersionCell {
    var request: VersionRequest
    var preference: Option<Preference>
    var allowsDownload: bool

    constructor (v: LanguageVersion)
      ensures Value() == v
    {
      request, preference, allowsDownload := v.request, v.preference, v.allowsDownload;
    }

    function Value(): LanguageVersion
      reads this
    {
      LanguageVersion(request, preference, allowsDownload)
    }

    method Update(other: LanguageVersion)
      modifies this
      ensures Value() == old(Value()).Updated(other)
    {
      if other.request != Unspecified {
        request := other.request;
        allowsDownload := other.allowsDownload;
      }
      if other.preference != None {
        preference := other.preference;
      }
    }

    method ApplyDefaults(defaults: LanguageVersion)
      modifies this
      ensures Value() == old(Value()).WithDefaults(defaults)
    {
      if request == Unspecified {
        request := defaults.request;
        allowsDownload := defaults.allowsDownload;
      }
      if preference == None {
        preference := defaults.preference;
      }
    }
  }

  /** The first layer that specifies a request decides it, together with its download policy. */
  function FirstRequest(layers: seq<LanguageVersion>): (r: Option<(VersionRequest, bool)>)
    ensures r.Some? ==> r.value.0 != Unspecified
  {
    if layers == [] then None
    else if layers[0].request != Unspecified then Some((layers[0].request, layers[0].allowsDownload))
    else FirstRequest(layers[1..])
  }

  function FirstPreference(layers: seq<LanguageVersion>): Option<Preference> {
    if layers == [] then None
    else if layers[0].preference != None then layers[0].preference
    else FirstPreference(layers[1..])
  }

  /** Updating a manifest by a hook config and then applying project defaults: config, manifest, project. */
  lemma MergePrecedence(manifest: LanguageVersion, hook: LanguageVersion, project: LanguageVersion)
    ensures var v := manifest.Updated(hook).WithDefaults(project);
      var layers := [hook, manifest, project];
      && v.preference == FirstPreference(layers)
      && match FirstRequest(layers)
         case None => v.request == Unspecified
         case Some((request, allowsDownload)) => v.request == request && v.allowsDownload == allowsDownload
  {
    var two, one := [manifest, project], [project];
    assert [hook, manifest, project][1..] == two && two[1..] == one && one[1..] == [];
    assert FirstRequest(one) == if project.request != Unspecified then Some((project.request, project.allowsDownload)) else None;
    assert FirstRequest(two) == if manifest.request != Unspecified then Some((manifest.request, manifest.allowsDownload)) else FirstRequest(one);
    assert FirstPreference(one) == project.preference;
    assert FirstPreference(two) == if manifest.preference != None then manifest.preference else FirstPreference(one);
  }

  // ---- hook definitions ----

  datatype HookOptions = HookOptions(dependencies: Option<seq<string>>, version: Option<LanguageVersion>)
  {
    function Updated(other: HookOptions): HookOptions {
      HookOptions(
        if other.dependencies != None then other.dependencies else dependencies,
        match other.version
        case None => version
        case Some(v) => if version == None then Some(v) else Some(version.value.Updated(v)))
    }
  }

  datatype ManifestHook = ManifestHook(id: string, language: Language, options: HookOptions)

  datatype RemoteHook = RemoteHook(id: string, language: Option<Language>, options: HookOptions)

  datatype LocalHook = LocalHook(id: string, language: Language, options: HookOptions)

  datatype RepoConfig =
    | RemoteRepo(source: string, rev: string, remoteHooks: seq<RemoteHook>)
    | LocalRepo(localHooks: seq<LocalHook>)
    | MetaRepo
    | BuiltinRepo

  datatype Config = Config(repos: seq<RepoConfig>, defaultVersions: map<Language, LanguageVersion>)

  datatype HookSpec = HookSpec(id: string, language: Language, options: HookOptions)
  {
    function WithProjectDefaults(config: Config): HookSpec {
      if language !in config.defaultVersions then this
      else
        var project := config.defaultVersions[language];
        this.(options := options.(version := Some(
          match options.version
          case Some(v) => v.WithDefaults(project)
          case None => project)))
    }

    /** The checks on dependencies and versions made before a hook is built. */
    predicate Valid() {
      && (options.dependencies != None && options.dependencies.value != [] ==> SupportsDependency(language))
      && (!SupportsLanguageVersion(language) && options.version != None ==> options.version.value.IsDefault())
    }
  }

  function FromRemote(manifest: ManifestHook, hook: RemoteHook): HookSpec {
    HookSpec(manifest.id,
             match hook.language case Some(l) => l case None => manifest.language,
             manifest.options.Updated(hook.options))
  }

  function FromLocal(hook: LocalHook): HookSpec {
    HookSpec(hook.id, hook.language, hook.options)
  }

  function FindManifestHook(hooks: seq<ManifestHook>, id: string): Option<ManifestHook> {
    if hooks == [] then None
    else if hooks[0].id == id then Some(hooks[0])
    else FindManifestHook(hooks[1..], id)
  }

  /** The manifest's first hook of the name asked for, if it has one. */
  lemma {:induction false} FirstDeclared(hooks: seq<ManifestHook>, id: string)
    ensures match FindManifestHook(hooks, id)
      case None => forall i | 0 <= i < |hooks| :: hooks[i].id != id
      case Some(found) => exists i | 0 <= i < |hooks| ::
        hooks[i] == found && found.id == id && forall j | 0 <= j < i :: hooks[j].id != id
  {
    if hooks != [] && hooks[0].id != id {
      FirstDeclared(hooks[1..], id);
      assert forall i | 1 <= i < |hooks| :: hooks[i] == hooks[1..][i - 1];
      if i :| 0 <= i < |hooks[1..]| && FindManifestHook(hooks, id) == Some(hooks[1..][i]) && hooks[1..][i].id == id
              && forall j | 0 <= j < i :: hooks[1..][j].id != id {
        assert hooks[i + 1] == hooks[1..][i];
        assert forall j | 0 <= j < i + 1 :: hooks[j].id != id;
      }
    }
  }

  // ---- requirements ----

  datatype RepoIdentity = RepoIdentity(url: string, rev: string)

  type Path = seq<string>

  datatype InstallInfo = InstallInfo(
    currentSchema: bool,
    language: Language,
    languageVersion: string,
    repo: Option<RepoIdentity>,
    dependencies: seq<string>,
    envPath: Path,
    toolchain: Path)

  datatype LanguageRequest = LanguageRequest(language: Language, text: string, preference: Preference, allowsDownload: bool)

  /** Version parsing and matching belong to the language back ends; they are parameters here. */
  datatype Versioning = Versioning(
    parses: (Language, string) -> bool,
    isAny: (Language, string) -> bool,
    matches: (Language, string, InstallInfo) -> bool)

  function RequestFromConfig(versioning: Versioning, language: Language, version: Option<LanguageVersion>): Option<LanguageRequest> {
    var text := match version case Some(v) => (if v.request.Explicit? then v.request.text else "") case None => "";
    var preference := match version
      case Some(v) => (match v.preference case Some(p) => p case None => Managed)
      case None => Managed;
    var allows := match version case Some(v) => v.allowsDownload && preference != OnlySystem case None => true;
    if versioning.parses(language, text) then Some(LanguageRequest(language, text, preference, allows)) else None
  }

  datatype Requirement = Requirement(
    language: Language,
    repo: Option<RepoIdentity>,
    dependencies: seq<string>,
    request: LanguageRequest)

  /** A request for any version is met by every installation. */
  predicate RequestSatisfied(versioning: Versioning, request: LanguageRequest, info: InstallInfo) {
    versioning.isAny(request.language, request.text) || versioning.matches(request.language, request.text, info)
  }

  predicate IsSatisfiedBy(versioning: Versioning, r: Requirement, info: InstallInfo) {
    && info.currentSchema
    && info.language == r.language
    && info.repo == r.repo
    && info.dependencies == r.dependencies
    && RequestSatisfied(versioning, r.request, info)
  }

  /** `from_hook_spec`, with its two ways of yielding nothing (no environment, bad version) merged. */
  function RequirementOf(versioning: Versioning, config: Config, spec: HookSpec, repo: Option<RepoIdentity>): Option<Requirement> {
    var merged := spec.WithProjectDefaults(config);
    if !SupportsInstallEnv(merged.language) then None
    else
      match RequestFromConfig(versioning, merged.language, merged.options.version)
      case None => None
      case Some(request) =>
        Some(Requirement(merged.language, repo,
                         match merged.options.dependencies case Some(d) => d case None => [],
                         request))
  }

  // ---- hooks at run time ----

  datatype Repo = RemoteClone(url: string, rev: string) | Local | Meta | Builtin
  {
    function Identity(): Option<RepoIdentity> {
      if RemoteClone? then Some(RepoIdentity(url, rev)) else None
    }
  }

  datatype Hook = Hook(repo: Repo, id: string, language: Language, dependencies: seq<string>, request: LanguageRequest)
  {
    predicate NeedsInstallEnv() {
      !repo.Meta? && !repo.Builtin? && SupportsInstallEnv(language)
    }

    function EnvironmentRequirement(): Option<Requirement> {
      if NeedsInstallEnv() then Some(Requirement(language, repo.Identity(), dependencies, request)) else None
    }
  }

  /** The hook as its definition describes it. */
  function PlainHook(versioning: Versioning, config: Config, repo: Repo, spec: HookSpec): Option<Hook> {
    var merged := spec.WithProjectDefaults(config);
    if !merged.Valid() then None
    else
      match RequestFromConfig(versioning, merged.language, merged.options.version)
      case None => None
      case Some(request) =>
        Some(Hook(repo, merged.id, merged.language,
                  match merged.options.dependencies case Some(d) => d case None => [],
                  request))
  }

  /** The layers that say something about the language version, the strongest first. */
  function Given(version: Option<LanguageVersion>): seq<LanguageVersion> {
    match version case None => [] case Some(v) => [v]
  }

  function ProjectVersion(config: Config, language: Language): Option<LanguageVersion> {
    if language in config.defaultVersions then Some(config.defaultVersions[language]) else None
  }

  /** Downloading is decided with the request; without one by the weakest layer, and allowed without any. */
  function FirstDownload(layers: seq<LanguageVersion>): bool {
    match FirstRequest(layers)
    case Some((_, allows)) => allows
    case None => layers == [] || layers[|layers| - 1].allowsDownload
  }

  predicate Resolves(request: LanguageRequest, language: Language, layers: seq<LanguageVersion>) {
    && request.language == language
    && request.text == (match FirstRequest(layers) case Some((Explicit(text), _)) => text case _ => "")
    && request.preference == (match FirstPreference(layers) case Some(p) => p case None => Managed)
    && request.allowsDownload == (FirstDownload(layers) && request.preference != OnlySystem)
  }

  function FirstOf<T>(a: Option<T>, b: Option<T>): Option<T> {
    if a != None then a else b
  }

  lemma {:induction false} LayersConcat(a: seq<LanguageVersion>, b: seq<LanguageVersion>)
    ensures FirstRequest(a + b) == FirstOf(FirstRequest(a), FirstRequest(b))
    ensures FirstPreference(a + b) == FirstOf(FirstPreference(a), FirstPreference(b))
  {
    if a == [] {
      assert a + b == b;
    } else {
      assert (a + b)[1..] == a[1..] + b;
      LayersConcat(a[1..], b);
    }
  }

  lemma OneLayer(v: LanguageVersion)
    ensures FirstRequest([v]) == if v.request != Unspecified then Some((v.request, v.allowsDownload)) else None
    ensures FirstPreference([v]) == v.preference
  {
    assert [v][1..] == [];
  }

  /** One version that says what the layers say together. */
  predicate Layered(version: Option<LanguageVersion>, layers: seq<LanguageVersion>) {
    match version
    case None => layers == []
    case Some(v) =>
      && layers != []
      && v.preference == FirstPreference(layers)
      && v.request == (match FirstRequest(layers) case Some((request, _)) => request case None => Unspecified)
      && v.allowsDownload == FirstDownload(layers)
  }

  lemma OneIsLayered(v: LanguageVersion)
    ensures Layered(Some(v), [v])
  {
    OneLayer(v);
  }

  lemma UpdatedIsLayered(hook: Option<LanguageVersion>, manifest: Option<LanguageVersion>)
    ensures Layered(HookOptions(None, manifest).Updated(HookOptions(None, hook)).version, Given(hook) + Given(manifest))
  {
    if hook != None {
      OneIsLayered(hook.value);
    }
    if manifest != None {
      OneIsLayered(manifest.value);
      if hook == None {
        assert [] + [manifest.value] == [manifest.value];
      } else {
        WeakerLayer(hook.value, [hook.value], manifest.value);
      }
    } else if hook != None {
      assert [hook.value] + [] == [hook.value];
    }
  }

  /** A weaker layer fills in what the stronger ones leave open. */
  lemma WeakerLayer(v: LanguageVersion, layers: seq<LanguageVersion>, weaker: LanguageVersion)
    requires Layered(Some(v), layers)
    ensures Layered(Some(v.WithDefaults(weaker)), layers + [weaker])
    ensures weaker.Updated(v) == v.WithDefaults(weaker)
  {
    LayersConcat(layers, [weaker]);
    OneLayer(weaker);
    assert (layers + [weaker])[|layers|] == weaker;
  }

  lemma DefaultsAreLayered(version: Option<LanguageVersion>, project: LanguageVersion, layers: seq<LanguageVersion>)
    requires Layered(version, layers)
    ensures Layered(Some(match version case Some(v) => v.WithDefaults(project) case None => project), layers + [project])
  {
    if version == None {
      assert [] + [project] == [project];
      OneIsLayered(project);
    } else {
      WeakerLayer(version.value, layers, project);
    }
  }

  lemma LayeredResolves(versioning: Versioning, language: Language, version: Option<LanguageVersion>, layers: seq<LanguageVersion>)
    requires Layered(version, layers) && RequestFromConfig(versioning, language, version) != None
    ensures Resolves(RequestFromConfig(versioning, language, version).value, language, layers)
  {
  }

  /** The merged version of a hook, with all three layers or fewer. */
  lemma MergedResolves(versioning: Versioning, language: Language, hook: HookOptions, manifest: HookOptions, config: Config)
    ensures var merged := HookSpec("", language, manifest.Updated(hook)).WithProjectDefaults(config).options.version;
      var request := RequestFromConfig(versioning, language, merged);
      request != None ==> Resolves(request.value, language,
        Given(hook.version) + Given(manifest.version) + Given(ProjectVersion(config, language)))
  {
    var project := ProjectVersion(config, language);
    var updated := manifest.Updated(hook).version;
    UpdatedIsLayered(hook.version, manifest.version);
    if project == None {
      assert Given(hook.version) + Given(manifest.version) + [] == Given(hook.version) + Given(manifest.version);
    } else {
      DefaultsAreLayered(updated, project.value, Given(hook.version) + Given(manifest.version));
    }
    var merged := HookSpec("", language, manifest.Updated(hook)).WithProjectDefaults(config).options.version;
    if RequestFromConfig(versioning, language, merged) != None {
      LayeredResolves(versioning, language, merged, Given(hook.version) + Given(manifest.version) + Given(project));
    }
  }

  /**
    A remote hook as a run builds it: the hook's entry in the configuration comes before the manifest of its
    repository, and that before the project's defaults, for the language, the dependencies and the version.
   */
  lemma RemoteHookPrecedence(versioning: Versioning, config: Config, repo: Repo, manifest: ManifestHook, hook: RemoteHook)
    requires PlainHook(versioning, config, repo, FromRemote(manifest, hook)) != None
    ensures var plain := PlainHook(versioning, config, repo, FromRemote(manifest, hook)).value;
      && plain.repo == repo && plain.id == manifest.id
      && plain.language == (if hook.language != None then hook.language.value else manifest.language)
      && plain.dependencies ==
           (match FirstOf(hook.options.dependencies, manifest.options.dependencies) case Some(d) => d case None => [])
      && Resolves(plain.request, plain.language,
           Given(hook.options.version) + Given(manifest.options.version) + Given(ProjectVersion(config, plain.language)))
  {
    var language := if hook.language != None then hook.language.value else manifest.language;
    MergedResolves(versioning, language, hook.options, manifest.options, config);
  }

  /** A local hook: its own definition, then the project's defaults. */
  lemma LocalHookPrecedence(versioning: Versioning, config: Config, repo: Repo, hook: LocalHook)
    requires PlainHook(versioning, config, repo, FromLocal(hook)) != None
    ensures var plain := PlainHook(versioning, config, repo, FromLocal(hook)).value;
      && plain.repo == repo && plain.id == hook.id && plain.language == hook.language
      && plain.dependencies == (match hook.options.dependencies case Some(d) => d case None => [])
      && Resolves(plain.request, plain.language, Given(hook.options.version) + Given(ProjectVersion(config, plain.language)))
  {
    var nothing := HookOptions(None, None);
    assert nothing.Updated(hook.options) == hook.options;
    MergedResolves(versioning, hook.language, hook.options, nothing, config);
    assert Given(hook.options.version) + [] == Given(hook.options.version);
  }

  /**
    A definition is refused exactly when it gives dependencies to a language that cannot install any, when it
    asks for a version, a preference or no download from a language that has no versions, or when its version
    does not parse.
   */
  lemma RefusedIff(versioning: Versioning, config: Config, repo: Repo, spec: HookSpec)
    ensures var version := spec.WithProjectDefaults(config).options.version;
      PlainHook(versioning, config, repo, spec) == None <==>
      || (spec.options.dependencies != None && |spec.options.dependencies.value| > 0
          && spec.language in {Docker, DockerImage, Fail, Pygrep, Script, Swift, System})
      || (spec.language !in {Bun, Deno, Dotnet, Golang, Mise, Node, Python, Ruby, Rust} && version != None
          && (version.value.preference != None || version.value.request.Explicit? || !version.value.allowsDownload))
      || RequestFromConfig(versioning, spec.language, version) == None
  {
  }

  // ---- metadata in the hook's own files ----

  /** A version declared by a file of the hook's repository. */
  datatype Declared = Unreadable | Nothing | Version(text: string)

  /** The script an entry names; without one, with a shell entry or an unreadable script there is no metadata. */
  datatype InlineScript = NoScript | InlineScript(dependencies: Option<seq<string>>, requiresPython: Option<string>)

  datatype Metadata = Metadata(pyproject: Declared, goMod: Declared, script: InlineScript)

  function WithVersion(versioning: Versioning, hook: Hook, text: string): Hook {
    if versioning.parses(hook.language, text) then hook.(request := hook.request.(text := text)) else hook
  }

  /** Both repository files only refine a request for any version. */
  predicate Refinable(versioning: Versioning, hook: Hook) {
    versioning.isAny(hook.request.language, hook.request.text) && hook.repo.RemoteClone?
  }

  function Refined(versioning: Versioning, declared: Declared, hook: Hook): Hook {
    if Refinable(versioning, hook) && declared.Version? then WithVersion(versioning, hook, declared.text) else hook
  }

  /** `extract_pep723_metadata`: explicit dependencies make it skip the script. */
  function WithScript(versioning: Versioning, script: InlineScript, hook: Hook): Hook {
    if script == NoScript || hook.dependencies != [] then hook
    else
      var h := if script.dependencies == None then hook else hook.(dependencies := script.dependencies.value);
      if script.requiresPython == None then h else WithVersion(versioning, h, script.requiresPython.value)
  }

  /** The script is read unless an unreadable `pyproject.toml` has stopped the extraction. */
  predicate ScriptRead(versioning: Versioning, m: Metadata, hook: Hook) {
    && hook.language.Python? && m.script.InlineScript? && hook.dependencies == []
    && !(hook.repo.RemoteClone? && versioning.isAny(hook.request.language, hook.request.text) && m.pyproject.Unreadable?)
  }

  /** `extract_metadata`. */
  function ExtractMetadata(versioning: Versioning, m: Metadata, hook: Hook): Hook {
    if hook.language.Golang? then Refined(versioning, m.goMod, hook)
    else if !hook.language.Python? then hook
    else if Refinable(versioning, hook) && m.pyproject.Unreadable? then hook
    else WithScript(versioning, m.script, Refined(versioning, m.pyproject, hook))
  }

  /** `Hook::from_spec`. */
  function BuildHook(versioning: Versioning, config: Config, repo: Repo, spec: HookSpec, m: Metadata): Option<Hook> {
    match PlainHook(versioning, config, repo, spec)
    case None => None
    case Some(hook) => Some(ExtractMetadata(versioning, m, hook))
  }

  /** The script gives a hook without dependencies some. */
  predicate AddsDependencies(versioning: Versioning, m: Metadata, hook: Hook) {
    && ScriptRead(versioning, m, hook)
    && m.script.dependencies != None && m.script.dependencies.value != []
  }

  predicate ScriptSetsVersion(versioning: Versioning, m: Metadata, hook: Hook) {
    && ScriptRead(versioning, m, hook)
    && m.script.requiresPython != None && versioning.parses(hook.language, m.script.requiresPython.value)
  }

  predicate FileSetsVersion(versioning: Versioning, m: Metadata, hook: Hook) {
    var declared := if hook.language.Golang? then m.goMod else m.pyproject;
    && (hook.language.Golang? || hook.language.Python?)
    && hook.repo.RemoteClone? && versioning.isAny(hook.request.language, hook.request.text)
    && declared.Version? && versioning.parses(hook.language, declared.text)
  }

  /** The version the files ask for, where they ask for one; the script wins over the repository. */
  function FileVersion(versioning: Versioning, m: Metadata, hook: Hook): string {
    if ScriptSetsVersion(versioning, m, hook) then m.script.requiresPython.value
    else if FileSetsVersion(versioning, m, hook) then (if hook.language.Golang? then m.goMod.text else m.pyproject.text)
    else hook.request.text
  }

  lemma ExtractedHook(versioning: Versioning, m: Metadata, hook: Hook)
    ensures var h := ExtractMetadata(versioning, m, hook);
      && h == hook.(dependencies := h.dependencies, request := hook.request.(text := FileVersion(versioning, m, hook)))
      && h.dependencies == if AddsDependencies(versioning, m, hook) then m.script.dependencies.value else hook.dependencies
  {
    var text := FileVersion(versioning, m, hook);
    assert hook == hook.(request := hook.request.(text := hook.request.text));
  }

  /**
    For every hook a run can build from a remote or local repository: the sweep computes exactly the
    requirement the run uses if and only if the hook's files add no dependencies and ask for no other version.
   */
  lemma SweepRequirementIsRunRequirement(versioning: Versioning, config: Config, repo: Repo, spec: HookSpec, m: Metadata)
    requires repo.RemoteClone? || repo.Local?
    requires PlainHook(versioning, config, repo, spec) != None
    ensures var plain := PlainHook(versioning, config, repo, spec).value;
      RequirementOf(versioning, config, spec, repo.Identity())
         == BuildHook(versioning, config, repo, spec, m).value.EnvironmentRequirement()
      <==> !AddsDependencies(versioning, m, plain) && FileVersion(versioning, m, plain) == plain.request.text
  {
    var plain := PlainHook(versioning, config, repo, spec).value;
    ExtractedHook(versioning, m, plain);
    PlainRequirement(versioning, config, repo, spec);
    assert AddsDependencies(versioning, m, plain) ==> plain.dependencies == [];
  }

  /** The sweep computes the requirement of the hook without its files' metadata. */
  lemma PlainRequirement(versioning: Versioning, config: Config, repo: Repo, spec: HookSpec)
    requires repo.RemoteClone? || repo.Local?
    requires PlainHook(versioning, config, repo, spec) != None
    ensures RequirementOf(versioning, config, spec, repo.Identity())
         == PlainHook(versioning, config, repo, spec).value.EnvironmentRequirement()
  {
  }

  /**
    An installation the run would reuse also meets what the sweep computes, if and only if the script adds no
    dependencies and, where it overrides a definite version, the installation meets that one too.  Versions
    from `pyproject.toml` and `go.mod` never matter: they only narrow a request that anything meets.
   */
  lemma ReusableMeetsPlainIff(versioning: Versioning, m: Metadata, plain: Hook, info: InstallInfo)
    requires plain.NeedsInstallEnv()
    requires IsSatisfiedBy(versioning, ExtractMetadata(versioning, m, plain).EnvironmentRequirement().value, info)
    ensures IsSatisfiedBy(versioning, plain.EnvironmentRequirement().value, info)
       <==> && !AddsDependencies(versioning, m, plain)
            && (ScriptSetsVersion(versioning, m, plain) ==> RequestSatisfied(versioning, plain.request, info))
  {
    ExtractedHook(versioning, m, plain);
  }

  // ---- installations ----

  /** Meta and builtin hooks need no environment, and neither do the languages that run what is there already. */
  lemma NeedsEnvironmentIff(hook: Hook)
    ensures hook.EnvironmentRequirement() == None
      <==> hook.repo.Meta? || hook.repo.Builtin? || hook.language in {DockerImage, Fail, Script, System}
    ensures hook.EnvironmentRequirement() != None ==>
      hook.EnvironmentRequirement().value == Requirement(hook.language, hook.repo.Identity(), hook.dependencies, hook.request)
  {
  }

  /** `InstallInfo::new`, with the version and toolchain its installer records. */
  function NewInstall(hook: Hook, version: string, envPath: Path, toolchain: Path): InstallInfo {
    InstallInfo(true, hook.language, version, hook.repo.Identity(), hook.dependencies, envPath, toolchain)
  }

  /** What a hook installed for itself is what it asks for, as far as the version is. */
  lemma FreshInstallIsReusable(versioning: Versioning, hook: Hook, version: string, envPath: Path, toolchain: Path)
    requires hook.NeedsInstallEnv()
    ensures var info := NewInstall(hook, version, envPath, toolchain);
      IsSatisfiedBy(versioning, hook.EnvironmentRequirement().value, info)
      <==> versioning.isAny(hook.request.language, hook.request.text)
           || versioning.matches(hook.request.language, hook.request.text, info)
  {
  }

  /** Hooks share an environment only if they agree on everything but the version. */
  lemma SharedEnvironment(versioning: Versioning, a: Hook, b: Hook, info: InstallInfo)
    requires a.NeedsInstallEnv() && b.NeedsInstallEnv()
    requires IsSatisfiedBy(versioning, a.EnvironmentRequirement().value, info)
    requires IsSatisfiedBy(versioning, b.EnvironmentRequirement().value, info)
    ensures a.language == b.language && a.dependencies == b.dependencies && info.currentSchema
    ensures a.repo.RemoteClone? ==> b.repo == a.repo
    ensures a.repo.Local? ==> b.repo.Local?
  {
  }
}
