/**
  The cache collector: mark what the tracked configurations still need, sweep the rest.

  Repositories, hook environments, tool buckets, tool versions, cache buckets, recovery patches and
  scratch space are the heap; the tracked configurations are the roots.
 */
module CacheGc {
  import opened Wrappers
  import opened HookSpecs
  import opened Sweeping

  datatype ToolBucket = UvTool | PythonTool | NodeTool | GoTool | RubyTool | RustupTool | BunTool | DotnetTool | DenoTool | MiseTool

  datatype CacheBucket = UvCache | GoCache | PythonCache | CargoCache | DenoCache | NpmCache | CoursierCache | PrekCache

  function ToolName(b: ToolBucket): string {
    match b
    case UvTool => "uv" case PythonTool => "python" case NodeTool => "node" case GoTool => "go" case RubyTool => "ruby"
    case RustupTool => "rustup" case BunTool => "bun" case DotnetTool => "dotnet" case DenoTool => "deno" case MiseTool => "mise"
  }

  function CacheName(b: CacheBucket): string {
    match b
    case UvCache => "uv" case GoCache => "go" case PythonCache => "python" case CargoCache => "cargo"
    case DenoCache => "deno" case NpmCache => "npm" case CoursierCache => "coursier" case PrekCache => "prek"
  }

  function ToolBuckets(language: Language): set<ToolBucket> {
    match language
    case Bun => {BunTool} case Deno => {DenoTool} case Dotnet => {DotnetTool} case Golang => {GoTool}
    case Mise => {MiseTool} case Node => {NodeTool} case Python => {UvTool, PythonTool} case Pygrep => {UvTool, PythonTool}
    case Ruby => {RubyTool} case Rust => {RustupTool} case _ => {}
  }

  function CacheBuckets(language: Language): set<CacheBucket> {
    match language
    case Coursier => {CoursierCache} case Deno => {DenoCache} case Golang => {GoCache} case Node => {NpmCache}
    case Python => {UvCache, PythonCache} case Pygrep => {UvCache, PythonCache} case Rust => {CargoCache} case _ => {}
  }

  /** The order of `ToolBucket::iter`. */
  const ALL_BUCKETS: seq<ToolBucket> :=
    [UvTool, PythonTool, NodeTool, GoTool, RubyTool, RustupTool, BunTool, DotnetTool, DenoTool, MiseTool]

  type Versions = map<string, Node<()>>

  /** The store's directories; `None` contents are an unreadable manifest or marker. */
  datatype Store = Store(
    tracked: set<string>,
    repos: map<string, Node<Option<seq<ManifestHook>>>>,
    hooks: map<string, Node<Option<InstallInfo>>>,
    tools: map<string, Node<Versions>>,
    caches: map<string, Node<()>>,
    patches: map<string, Node<PatchFile>>,
    scratch: bool)

  datatype LoadResult = Loaded(config: Config) | NotFound | Broken

  /** Everything the collector reads that is not in the store. */
  datatype World = World(
    load: string -> LoadResult,
    repoKey: (string, string) -> string,
    versioning: Versioning,
    toolsDir: Path,
    now: int)

  // ---- requirements of one configuration ----

  function OneOrNone<T>(o: Option<T>): seq<T> {
    match o case None => [] case Some(x) => [x]
  }

  function RemoteRequirement(w: World, config: Config, manifest: seq<ManifestHook>, repo: RepoIdentity, hook: RemoteHook): Option<Requirement> {
    match FindManifestHook(manifest, hook.id)
    case None => None
    case Some(found) => RequirementOf(w.versioning, config, FromRemote(found, hook), Some(repo))
  }

  function RemoteRequirements(w: World, config: Config, manifest: seq<ManifestHook>, repo: RepoIdentity, hooks: seq<RemoteHook>): seq<Requirement> {
    if hooks == [] then []
    else
      RemoteRequirements(w, config, manifest, repo, hooks[..|hooks| - 1])
      + OneOrNone(RemoteRequirement(w, config, manifest, repo, hooks[|hooks| - 1]))
  }

  function LocalRequirements(w: World, config: Config, hooks: seq<LocalHook>): seq<Requirement> {
    if hooks == [] then []
    else
      LocalRequirements(w, config, hooks[..|hooks| - 1])
      + OneOrNone(RequirementOf(w.versioning, config, FromLocal(hooks[|hooks| - 1]), None))
  }

  /** The manifest of a clone that is present and readable. */
  function Manifest(repos: map<string, Node<Option<seq<ManifestHook>>>>, key: string): Option<seq<ManifestHook>> {
    if key in repos && repos[key].isDir then repos[key].content else None
  }

  function RepoRequirements(w: World, s: Store, config: Config, repo: RepoConfig): seq<Requirement> {
    match repo
    case RemoteRepo(source, rev, hooks) =>
      (match Manifest(s.repos, w.repoKey(source, rev))
       case None => []
       case Some(manifest) => RemoteRequirements(w, config, manifest, RepoIdentity(source, rev), hooks))
    case LocalRepo(hooks) => LocalRequirements(w, config, hooks)
    case _ => []
  }

  function ReposRequirements(w: World, s: Store, config: Config, repos: seq<RepoConfig>): seq<Requirement> {
    if repos == [] then []
    else
      ReposRequirements(w, s, config, repos[..|repos| - 1]) + RepoRequirements(w, s, config, repos[|repos| - 1])
  }

  function ConfigRequirements(w: World, s: Store, config: Config): seq<Requirement> {
    ReposRequirements(w, s, config, config.repos)
  }

  function ReposKeys(w: World, repos: seq<RepoConfig>): set<string> {
    set r | r in repos && r.RemoteRepo? :: w.repoKey(r.source, r.rev)
  }

  // ---- marks ----

  predicate IsLoaded(w: World, s: Store, path: string) {
    path in s.tracked && w.load(path).Loaded?
  }

  /** Everything but the configurations known to be gone. */
  function KeptConfigs(w: World, s: Store): set<string> {
    set p | p in s.tracked && w.load(p) != NotFound
  }

  function UsedRepoKeys(w: World, s: Store): set<string> {
    set p, k | p in s.tracked && w.load(p).Loaded? && k in ReposKeys(w, w.load(p).config.repos) :: k
  }

  function Requirements(w: World, s: Store): set<Requirement> {
    set p, r | p in s.tracked && w.load(p).Loaded? && r in ConfigRequirements(w, s, w.load(p).config) :: r
  }

  function UsedToolNames(w: World, s: Store): set<string> {
    set r, b | r in Requirements(w, s) && b in ToolBuckets(r.language) :: ToolName(b)
  }

  function UsedCacheNames(w: World, s: Store): set<string> {
    {CacheName(PrekCache)} + set r, b | r in Requirements(w, s) && b in CacheBuckets(r.language) :: CacheName(b)
  }

  predicate Satisfied(w: World, s: Store, info: InstallInfo) {
    exists r | r in Requirements(w, s) :: IsSatisfiedBy(w.versioning, r, info)
  }

  /** Hook directories whose marker satisfies some requirement. */
  function SatisfiedEnvs(w: World, s: Store): set<string> {
    set name | name in s.hooks && s.hooks[name].content != None && Satisfied(w, s, s.hooks[name].content.value)
  }

  function FileName(path: Path): Option<string> {
    if path == [] || path[|path| - 1] == ".." then None else Some(path[|path| - 1])
  }

  /** The marker's own record of where its environment lives, not where the marker was found. */
  function UsedEnvDirs(w: World, s: Store): set<string> {
    set name | name in SatisfiedEnvs(w, s) && FileName(s.hooks[name].content.value.envPath) != None
      :: FileName(s.hooks[name].content.value.envPath).value
  }

  /** `tool_version_dir_name`: the first component of the toolchain below the bucket. */
  function VersionDir(w: World, b: ToolBucket, toolchain: Path): Option<string> {
    var root := w.toolsDir + [ToolName(b)];
    if |root| < |toolchain| && toolchain[..|root|] == root && toolchain[|root|] != "" then Some(toolchain[|root|]) else None
  }

  function UsedVersions(w: World, s: Store, b: ToolBucket): set<string> {
    set name | name in SatisfiedEnvs(w, s)
        && b in ToolBuckets(s.hooks[name].content.value.language)
        && VersionDir(w, b, s.hooks[name].content.value.toolchain) != None
      :: VersionDir(w, b, s.hooks[name].content.value.toolchain).value
  }

  // ---- sweeping the versions of every bucket ----

  function Minus(a: nat, b: nat): nat {
    if a < b then 0 else a - b
  }

  /** A bucket after the sweep of its versions; its size shrinks by what was removed. */
  ghost function BucketAfter(bucket: Node<Versions>, keep: set<string>, dryRun: bool): Node<Versions> {
    if dryRun then bucket
    else
      bucket.(content := After(bucket.content, Unused(bucket.content, keep), false),
              bytes := Minus(bucket.bytes, Report(bucket.content, Unused(bucket.content, keep), false).bytes))
  }

  datatype VersionSweep = VersionSweep(tools: map<string, Node<Versions>>, removal: Removal, ok: bool)

  /** A missing bucket is skipped; a bucket that is a file stops the sweep with an error. */
  ghost function SweptBucket(before: VersionSweep, b: ToolBucket, keep: set<string>, dryRun: bool): VersionSweep {
    var name := ToolName(b);
    if !before.ok || name !in before.tools then before
    else if !before.tools[name].isDir then before.(ok := false)
    else
      var bucket := before.tools[name];
      VersionSweep(before.tools[name := BucketAfter(bucket, keep, dryRun)],
                   before.removal.Plus(Report(bucket.content, Unused(bucket.content, keep), dryRun)),
                   true)
  }

  ghost function SweptVersions(tools: map<string, Node<Versions>>, buckets: seq<ToolBucket>,
                               keep: ToolBucket -> set<string>, dryRun: bool): VersionSweep
  {
    if buckets == [] then VersionSweep(tools, Removal(0, 0), true)
    else
      var b := buckets[|buckets| - 1];
      SweptBucket(SweptVersions(tools, buckets[..|buckets| - 1], keep, dryRun), b, keep(b), dryRun)
  }

  // ---- the collector ----

  datatype Summary = NothingTracked | Failed | Done(repos: Removal, hooks: Removal, tools: Removal, caches: Removal, patches: Removal)

  datatype Outcome = Outcome(store: Store, summary: Summary)

  function BucketsAfter(w: World, s: Store, dryRun: bool): map<string, Node<Versions>> {
    After(s.tools, Unused(s.tools, UsedToolNames(w, s)), dryRun)
  }

  /** Both tool sweeps: whole buckets first, then the versions of what is left. */
  ghost function ToolSweep(w: World, s: Store, dryRun: bool): VersionSweep {
    SweptVersions(BucketsAfter(w, s, dryRun), ALL_BUCKETS, b => UsedVersions(w, s, b), dryRun)
  }

  ghost function Collected(w: World, s: Store, dryRun: bool): Outcome {
    if s.tracked == {} then Outcome(s, NothingTracked)
    else
      var unusedRepos := Unused(s.repos, UsedRepoKeys(w, s));
      var unusedHooks := Unused(s.hooks, UsedEnvDirs(w, s));
      var unusedTools := Unused(s.tools, UsedToolNames(w, s));
      var unusedCaches := Unused(s.caches, UsedCacheNames(w, s));
      var stale := StalePatches(s.patches, w.now);
      var versions := ToolSweep(w, s, dryRun);
      var swept := s.(
        tracked := if dryRun then s.tracked else KeptConfigs(w, s),
        repos := After(s.repos, unusedRepos, dryRun),
        hooks := After(s.hooks, unusedHooks, dryRun),
        tools := versions.tools);
      if !versions.ok then Outcome(swept, Failed)
      else
        Outcome(
          swept.(caches := After(s.caches, unusedCaches, dryRun),
                 patches := After(s.patches, stale, dryRun),
                 scratch := dryRun && s.scratch),
          Done(Report(s.repos, unusedRepos, dryRun),
               Report(s.hooks, unusedHooks, dryRun),
               Report(s.tools, unusedTools, dryRun).Plus(versions.removal),
               Report(s.caches, unusedCaches, dryRun),
               Report(s.patches, stale, dryRun)))
  }
}
