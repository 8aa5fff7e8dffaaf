/** A second collection finds nothing, and a dry one predicts a real one. */
module GcRepeat {
  import opened Wrappers
  import opened HookSpecs
  import opened Sweeping
  import opened CacheGc
  import opened GcSafety

  /** Every removal the collector may attempt succeeds. */
  predicate RemovalsSucceed(s: Store) {
    && NoneStuck(s.repos) && NoneStuck(s.hooks) && NoneStuck(s.tools) && NoneStuck(s.caches) && NoneStuck(s.patches)
    && forall n | n in s.tools :: NoneStuck(s.tools[n].content)
  }

  // ---- shape of the version sweep ----

  lemma {:induction false} DirsStayDirs(tools: map<string, Node<Versions>>, buckets: seq<ToolBucket>,
                                         keep: ToolBucket -> set<string>, dryRun: bool, name: string)
    requires name in tools
    ensures var left := SweptVersions(tools, buckets, keep, dryRun).tools;
      name in left && left[name].isDir == tools[name].isDir && left[name].stuck == tools[name].stuck
  {
    if buckets != [] {
      DirsStayDirs(tools, buckets[..|buckets| - 1], keep, dryRun, name);
    }
  }

  predicate AllDirs(tools: map<string, Node<Versions>>, buckets: seq<ToolBucket>) {
    forall b | b in buckets && ToolName(b) in tools :: tools[ToolName(b)].isDir
  }

  /** The version sweep fails exactly when a bucket is not a directory. */
  lemma {:induction false} SweepOkIffDirs(tools: map<string, Node<Versions>>, buckets: seq<ToolBucket>,
                                           keep: ToolBucket -> set<string>, dryRun: bool)
    ensures SweptVersions(tools, buckets, keep, dryRun).ok <==> AllDirs(tools, buckets)
  {
    if buckets != [] {
      var init, b := buckets[..|buckets| - 1], buckets[|buckets| - 1];
      SweepOkIffDirs(tools, init, keep, dryRun);
      assert forall c :: c in buckets <==> c in init || c == b;
      OthersUntouched(tools, init, keep, dryRun, ToolName(b));
      if ToolName(b) in tools {
        DirsStayDirs(tools, init, keep, dryRun, ToolName(b));
      }
    }
  }

  lemma {:induction false} NothingToSweep(tools: map<string, Node<Versions>>, buckets: seq<ToolBucket>,
                                           keep: ToolBucket -> set<string>, dryRun: bool)
    requires AllDirs(tools, buckets)
    requires forall b | b in buckets && ToolName(b) in tools :: Unused(tools[ToolName(b)].content, keep(b)) == {}
    ensures SweptVersions(tools, buckets, keep, dryRun) == VersionSweep(tools, Removal(0, 0), true)
  {
    if buckets != [] {
      var init, b := buckets[..|buckets| - 1], buckets[|buckets| - 1];
      NothingToSweep(tools, init, keep, dryRun);
      if ToolName(b) in tools {
        assert b in buckets;
        var bucket := tools[ToolName(b)];
        NothingUnused(bucket.content, Unused(bucket.content, keep(b)), false);
        NothingUnused(bucket.content, Unused(bucket.content, keep(b)), dryRun);
        assert BucketAfter(bucket, keep(b), dryRun) == bucket;
        assert tools[ToolName(b) := bucket] == tools;
      }
    }
  }

  // ---- the marks computed from the swept store ----

  lemma {:induction false} SameReposRequirements(w: World, s: Store, t: Store, config: Config, repos: seq<RepoConfig>)
    requires forall k | k in ReposKeys(w, repos) :: Manifest(t.repos, k) == Manifest(s.repos, k)
    ensures ReposRequirements(w, t, config, repos) == ReposRequirements(w, s, config, repos)
  {
    if repos != [] {
      var last := repos[|repos| - 1];
      assert last.RemoteRepo? ==> w.repoKey(last.source, last.rev) in ReposKeys(w, repos);
      SameReposRequirements(w, s, t, config, repos[..|repos| - 1]);
    }
  }

  lemma UsedManifestKept(w: World, s: Store, k: string)
    requires k in UsedRepoKeys(w, s)
    ensures Manifest(After(s.repos, Unused(s.repos, UsedRepoKeys(w, s)), false), k) == Manifest(s.repos, k)
  {
  }

  /** Sweeping repositories and dropping dead configurations changes no requirement. */
  lemma SameRequirements(w: World, s: Store, t: Store)
    requires t.tracked == KeptConfigs(w, s)
    requires t.repos == After(s.repos, Unused(s.repos, UsedRepoKeys(w, s)), false)
    ensures UsedRepoKeys(w, t) == UsedRepoKeys(w, s)
    ensures Requirements(w, t) == Requirements(w, s)
    ensures KeptConfigs(w, t) == KeptConfigs(w, s)
  {
    forall p | IsLoaded(w, s, p)
      ensures ConfigRequirements(w, t, w.load(p).config) == ConfigRequirements(w, s, w.load(p).config)
    {
      var config := w.load(p).config;
      forall k | k in ReposKeys(w, config.repos)
        ensures Manifest(t.repos, k) == Manifest(s.repos, k)
      {
        assert k in UsedRepoKeys(w, s);
        UsedManifestKept(w, s, k);
      }
      SameReposRequirements(w, s, t, config, config.repos);
    }
    assert forall p :: IsLoaded(w, t, p) <==> IsLoaded(w, s, p);
  }

  /** A satisfied environment whose own directory outlives the collection, so that it still marks next time. */
  predicate Lasting(w: World, s: Store, name: string) {
    name in SatisfiedEnvs(w, s) && (name in UsedEnvDirs(w, s) || Hidden(name) || !s.hooks[name].isDir)
  }

  // ---- when every mark is anchored ----

  /** An environment directory that the collection keeps and might have removed. */
  predicate KeptEnvDir(w: World, s: Store, name: string) {
    name in s.hooks && s.hooks[name].isDir && !Hidden(name) && name in UsedEnvDirs(w, s)
  }

  predicate KeptVersion(w: World, s: Store, b: ToolBucket, v: string) {
    && ToolName(b) in s.tools && v in s.tools[ToolName(b)].content
    && s.tools[ToolName(b)].content[v].isDir && !Hidden(v) && v in UsedVersions(w, s, b)
  }

  predicate AnchorsEnvDir(w: World, s: Store, marker: string, name: string) {
    Lasting(w, s, marker) && FileName(s.hooks[marker].content.value.envPath) == Some(name)
  }

  predicate AnchorsVersion(w: World, s: Store, marker: string, b: ToolBucket, v: string) {
    && Lasting(w, s, marker)
    && b in ToolBuckets(s.hooks[marker].content.value.language)
    && VersionDir(w, b, s.hooks[marker].content.value.toolchain) == Some(v)
  }

  ghost predicate EnvDirAnchored(w: World, s: Store, name: string) {
    exists m :: AnchorsEnvDir(w, s, m, name)
  }

  ghost predicate VersionAnchored(w: World, s: Store, b: ToolBucket, v: string) {
    exists m :: AnchorsVersion(w, s, m, b, v)
  }

  ghost predicate EnvDirsAnchored(w: World, s: Store) {
    forall name | KeptEnvDir(w, s, name) :: EnvDirAnchored(w, s, name)
  }

  ghost predicate VersionsAnchored(w: World, s: Store, b: ToolBucket) {
    forall v | KeptVersion(w, s, b, v) :: VersionAnchored(w, s, b, v)
  }

  /** Everything kept because of some marker is kept because of one that is itself kept. */
  ghost predicate Anchored(w: World, s: Store) {
    EnvDirsAnchored(w, s) && forall b :: VersionsAnchored(w, s, b)
  }

  /** Markers that record the directory they lie in anchor everything. */
  lemma SelfNamedIsAnchored(w: World, s: Store)
    requires forall name | name in s.hooks :: SelfNamed(s, name)
    ensures Anchored(w, s)
  {
    forall m | m in SatisfiedEnvs(w, s)
      ensures Lasting(w, s, m)
    {
      assert SelfNamed(s, m);
      assert FileName(s.hooks[m].content.value.envPath).value in UsedEnvDirs(w, s);
    }
    forall name | KeptEnvDir(w, s, name)
      ensures EnvDirAnchored(w, s, name)
    {
      var m :| m in SatisfiedEnvs(w, s) && FileName(s.hooks[m].content.value.envPath) == Some(name);
      assert AnchorsEnvDir(w, s, m, name);
    }
    forall b, v | KeptVersion(w, s, b, v)
      ensures VersionAnchored(w, s, b, v)
    {
      var m :| m in SatisfiedEnvs(w, s) && b in ToolBuckets(s.hooks[m].content.value.language)
        && VersionDir(w, b, s.hooks[m].content.value.toolchain) == Some(v);
      assert AnchorsVersion(w, s, m, b, v);
    }
  }

  /** The hooks directory after the first sweep, whose requirements are the same. */
  predicate HooksSwept(w: World, s: Store, t: Store) {
    && NoneStuck(s.hooks) && Requirements(w, t) == Requirements(w, s)
    && t.hooks == After(s.hooks, Unused(s.hooks, UsedEnvDirs(w, s)), false)
  }

  lemma EnvDirMarkedNext(w: World, s: Store, t: Store, name: string)
    requires HooksSwept(w, s, t)
    ensures name in UsedEnvDirs(w, t) <==> EnvDirAnchored(w, s, name)
  {
    if m :| AnchorsEnvDir(w, s, m, name) {
      assert m in SatisfiedEnvs(w, t) && FileName(t.hooks[m].content.value.envPath).value in UsedEnvDirs(w, t);
    }
    if name in UsedEnvDirs(w, t) {
      var m :| m in SatisfiedEnvs(w, t) && FileName(t.hooks[m].content.value.envPath) == Some(name);
      assert AnchorsEnvDir(w, s, m, name);
    }
  }

  lemma AnchoredVersionMarked(w: World, s: Store, t: Store, m: string, b: ToolBucket, v: string)
    requires HooksSwept(w, s, t) && AnchorsVersion(w, s, m, b, v)
    ensures v in UsedVersions(w, t, b)
  {
    assert m in SatisfiedEnvs(w, t) && VersionDir(w, b, t.hooks[m].content.value.toolchain).value in UsedVersions(w, t, b);
  }

  lemma VersionMarkedNext(w: World, s: Store, t: Store, b: ToolBucket, v: string)
    requires HooksSwept(w, s, t)
    ensures v in UsedVersions(w, t, b) <==> VersionAnchored(w, s, b, v)
  {
    if m :| AnchorsVersion(w, s, m, b, v) {
      AnchoredVersionMarked(w, s, t, m, b, v);
    }
    if v in UsedVersions(w, t, b) {
      var m :| m in SatisfiedEnvs(w, t) && b in ToolBuckets(t.hooks[m].content.value.language)
        && VersionDir(w, b, t.hooks[m].content.value.toolchain) == Some(v);
      assert AnchorsVersion(w, s, m, b, v);
    }
  }

  lemma EnvDirsSettled(w: World, s: Store, t: Store)
    requires HooksSwept(w, s, t)
    ensures Unused(t.hooks, UsedEnvDirs(w, t)) == {} <==> EnvDirsAnchored(w, s)
  {
    forall name
      ensures KeptEnvDir(w, s, name) <==> name in t.hooks && t.hooks[name].isDir && !Hidden(name)
      ensures name in UsedEnvDirs(w, t) <==> EnvDirAnchored(w, s, name)
    {
      EnvDirMarkedNext(w, s, t, name);
    }
    if EnvDirsAnchored(w, s) {
      assert Unused(t.hooks, UsedEnvDirs(w, t)) == {};
    } else {
      var name :| KeptEnvDir(w, s, name) && !EnvDirAnchored(w, s, name);
      assert name in Unused(t.hooks, UsedEnvDirs(w, t));
    }
  }

  // ---- a second collection ----

  /** A bucket left by a successful tool sweep: a directory holding exactly its kept versions. */
  lemma SweptBucketContents(w: World, s: Store, b: ToolBucket)
    requires RemovalsSucceed(s) && ToolSweep(w, s, false).ok
    requires ToolName(b) in ToolSweep(w, s, false).tools
    ensures ToolName(b) in s.tools
    ensures var bucket, versions := ToolSweep(w, s, false).tools[ToolName(b)], s.tools[ToolName(b)].content;
      bucket.isDir && bucket.content == After(versions, Unused(versions, UsedVersions(w, s, b)), false)
  {
    var tools, keep := BucketsAfter(w, s, false), b => UsedVersions(w, s, b);
    AllBucketsListed(b);
    OthersUntouched(tools, ALL_BUCKETS, keep, false, ToolName(b));
    SweepOkIffDirs(tools, ALL_BUCKETS, keep, false);
    DirsStayDirs(tools, ALL_BUCKETS, keep, false, ToolName(b));
    BucketSwept(tools, ALL_BUCKETS, keep, false, b);
  }

  /** A used bucket that is there is never removed by the first tool sweep. */
  lemma MarkedBucketStays(w: World, s: Store, b: ToolBucket, v: string)
    requires KeptVersion(w, s, b, v)
    ensures ToolName(b) in ToolSweep(w, s, false).tools
  {
    UsedBucketSurvives(w, s, false, b);
  }

  lemma AbsentBucketSettled(w: World, s: Store, t: Store, b: ToolBucket)
    requires t.tools == ToolSweep(w, s, false).tools && ToolName(b) !in t.tools
    ensures VersionsAnchored(w, s, b)
  {
    forall v
      ensures !KeptVersion(w, s, b, v)
    {
      if KeptVersion(w, s, b, v) {
        MarkedBucketStays(w, s, b, v);
      }
    }
  }

  lemma VersionsSettled(w: World, s: Store, b: ToolBucket, left: Versions, used: set<string>)
    requires forall v :: KeptVersion(w, s, b, v) <==> v in left && left[v].isDir && !Hidden(v)
    requires forall v :: v in used <==> VersionAnchored(w, s, b, v)
    ensures Unused(left, used) == {} <==> VersionsAnchored(w, s, b)
  {
    if VersionsAnchored(w, s, b) {
      assert Unused(left, used) == {};
    } else {
      var v :| KeptVersion(w, s, b, v) && !VersionAnchored(w, s, b, v);
      assert v in Unused(left, used);
    }
  }

  lemma PresentBucketSettled(w: World, s: Store, t: Store, b: ToolBucket)
    requires RemovalsSucceed(s) && HooksSwept(w, s, t)
    requires ToolSweep(w, s, false).ok && t.tools == ToolSweep(w, s, false).tools && ToolName(b) in t.tools
    ensures t.tools[ToolName(b)].isDir
    ensures Unused(t.tools[ToolName(b)].content, UsedVersions(w, t, b)) == {} <==> VersionsAnchored(w, s, b)
  {
    SweptBucketContents(w, s, b);
    var left := t.tools[ToolName(b)].content;
    forall v
      ensures KeptVersion(w, s, b, v) <==> v in left && left[v].isDir && !Hidden(v)
    {
      KeptVersionLeft(w, s, b, left, v);
    }
    forall v
      ensures v in UsedVersions(w, t, b) <==> VersionAnchored(w, s, b, v)
    {
      VersionMarkedNext(w, s, t, b, v);
    }
    VersionsSettled(w, s, b, left, UsedVersions(w, t, b));
  }

  lemma KeptVersionLeft(w: World, s: Store, b: ToolBucket, left: Versions, v: string)
    requires RemovalsSucceed(s) && ToolName(b) in s.tools
    requires var versions := s.tools[ToolName(b)].content; left == After(versions, Unused(versions, UsedVersions(w, s, b)), false)
    ensures KeptVersion(w, s, b, v) <==> v in left && left[v].isDir && !Hidden(v)
  {
    var versions := s.tools[ToolName(b)].content;
    if v in versions {
      SweepKeeps(versions, UsedVersions(w, s, b), false, v);
    }
  }

  lemma BucketSettled(w: World, s: Store, t: Store, b: ToolBucket)
    requires RemovalsSucceed(s) && HooksSwept(w, s, t)
    requires ToolSweep(w, s, false).ok && t.tools == ToolSweep(w, s, false).tools
    ensures Settled(w, t, b) <==> VersionsAnchored(w, s, b)
  {
    if ToolName(b) in t.tools {
      PresentBucketSettled(w, s, t, b);
    } else {
      AbsentBucketSettled(w, s, t, b);
    }
  }

  /** No version of the bucket is unused. */
  predicate Settled(w: World, t: Store, b: ToolBucket) {
    ToolName(b) in t.tools ==> Unused(t.tools[ToolName(b)].content, UsedVersions(w, t, b)) == {}
  }

  lemma NoBucketLeftUnused(w: World, s: Store)
    requires RemovalsSucceed(s)
    ensures Unused(ToolSweep(w, s, false).tools, UsedToolNames(w, s)) == {}
  {
    var tools, left := BucketsAfter(w, s, false), ToolSweep(w, s, false).tools;
    forall n | n in left
      ensures n in tools && left[n].isDir == tools[n].isDir
    {
      OthersUntouched(tools, ALL_BUCKETS, b => UsedVersions(w, s, b), false, n);
      DirsStayDirs(tools, ALL_BUCKETS, b => UsedVersions(w, s, b), false, n);
    }
    assert forall n | n in left :: n in Unused(left, UsedToolNames(w, s)) ==> n in Unused(tools, UsedToolNames(w, s));
  }

  /** The second tool sweep changes nothing exactly when no remaining version has become unused. */
  lemma SecondToolSweep(w: World, s: Store, t: Store)
    requires RemovalsSucceed(s) && ToolSweep(w, s, false).ok
    requires t.tools == ToolSweep(w, s, false).tools && Requirements(w, t) == Requirements(w, s)
    ensures Unused(t.tools, UsedToolNames(w, t)) == {}
    ensures (forall b :: Settled(w, t, b)) ==> ToolSweep(w, t, false) == VersionSweep(t.tools, Removal(0, 0), true)
    ensures ToolSweep(w, t, false).tools == t.tools ==> forall b :: Settled(w, t, b)
  {
    NoBucketLeftUnused(w, s);
    assert UsedToolNames(w, t) == UsedToolNames(w, s);
    NothingUnused(t.tools, Unused(t.tools, UsedToolNames(w, t)), false);
    assert BucketsAfter(w, t, false) == t.tools;
    var keep := b => UsedVersions(w, t, b);
    forall b | ToolName(b) in t.tools
      ensures t.tools[ToolName(b)].isDir && NoneStuck(t.tools[ToolName(b)].content)
    {
      SweptBucketContents(w, s, b);
    }
    SweepOkIffDirs(t.tools, ALL_BUCKETS, keep, false);
    if forall b :: Settled(w, t, b) {
      assert forall b | ToolName(b) in t.tools :: Settled(w, t, b);
      NothingToSweep(t.tools, ALL_BUCKETS, keep, false);
    }
    if ToolSweep(w, t, false).tools == t.tools {
      forall b
        ensures Settled(w, t, b)
      {
        if ToolName(b) in t.tools {
          AllBucketsListed(b);
          BucketSwept(t.tools, ALL_BUCKETS, keep, false, b);
        }
      }
    }
  }

  const NOTHING := Removal(0, 0)

  lemma SecondRunSettled(w: World, s: Store)
    requires RemovalsSucceed(s) && s.tracked != {}
    requires Collected(w, s, false).summary.Done?
    ensures var t := Collected(w, s, false).store;
      && UsedRepoKeys(w, t) == UsedRepoKeys(w, s) && Requirements(w, t) == Requirements(w, s)
      && KeptConfigs(w, t) == t.tracked
      && Unused(t.repos, UsedRepoKeys(w, t)) == {}
      && Unused(t.caches, UsedCacheNames(w, t)) == {}
      && StalePatches(t.patches, w.now) == {}
  {
    var t := Collected(w, s, false).store;
    SameRequirements(w, s, t);
    assert UsedCacheNames(w, t) == UsedCacheNames(w, s);
  }

  /** Nothing in the store is unused. */
  predicate AllUsed(w: World, t: Store) {
    && Unused(t.repos, UsedRepoKeys(w, t)) == {} && Unused(t.hooks, UsedEnvDirs(w, t)) == {}
    && Unused(t.tools, UsedToolNames(w, t)) == {} && Unused(t.caches, UsedCacheNames(w, t)) == {}
    && StalePatches(t.patches, w.now) == {}
  }

  lemma AllUsedIsStable(w: World, t: Store)
    requires t.tracked != {} && KeptConfigs(w, t) == t.tracked && !t.scratch
    requires AllUsed(w, t) && ToolSweep(w, t, false) == VersionSweep(t.tools, NOTHING, true)
    ensures Collected(w, t, false) == Outcome(t, Done(NOTHING, NOTHING, NOTHING, NOTHING, NOTHING))
  {
    var c := Collected(w, t, false);
    assert c.summary.Done?;
    assert c.store.repos == t.repos && c.summary.repos == NOTHING by {
      NothingUnused(t.repos, Unused(t.repos, UsedRepoKeys(w, t)), false);
    }
    assert c.store.hooks == t.hooks && c.summary.hooks == NOTHING by {
      NothingUnused(t.hooks, Unused(t.hooks, UsedEnvDirs(w, t)), false);
    }
    NoneReported(t.tools, UsedToolNames(w, t));
    assert c.store.caches == t.caches && c.summary.caches == NOTHING by {
      NothingUnused(t.caches, Unused(t.caches, UsedCacheNames(w, t)), false);
    }
    assert c.store.patches == t.patches && c.summary.patches == NOTHING by {
      NothingUnused(t.patches, StalePatches(t.patches, w.now), false);
    }
  }

  lemma StableKeepsHooksAndTools(w: World, t: Store)
    requires t.tracked != {} && NoneStuck(t.hooks)
    requires Collected(w, t, false).store == t
    ensures Unused(t.hooks, UsedEnvDirs(w, t)) == {} && ToolSweep(w, t, false).tools == t.tools
  {
    assert Collected(w, t, false).store.hooks == After(t.hooks, Unused(t.hooks, UsedEnvDirs(w, t)), false);
  }

  lemma AllSettledIffAnchored(w: World, s: Store, t: Store)
    requires RemovalsSucceed(s) && HooksSwept(w, s, t)
    requires ToolSweep(w, s, false).ok && t.tools == ToolSweep(w, s, false).tools
    ensures Unused(t.hooks, UsedEnvDirs(w, t)) == {} && (forall b :: Settled(w, t, b)) <==> Anchored(w, s)
  {
    EnvDirsSettled(w, s, t);
    forall b: ToolBucket
      ensures Settled(w, t, b) <==> VersionsAnchored(w, s, b)
    {
      BucketSettled(w, s, t, b);
    }
  }

  /**
    Right after a successful collection, another one changes nothing if and only if every mark was
    anchored; and then it also reports nothing.
   */
  lemma SecondRunRemovesNothingIffAnchored(w: World, s: Store)
    requires RemovalsSucceed(s)
    requires Collected(w, s, false).summary.Done?
    ensures var t := Collected(w, s, false).store;
      && (Collected(w, t, false).store == t <==> Anchored(w, s))
      && (Anchored(w, s) ==>
            || Collected(w, t, false).summary == NothingTracked
            || Collected(w, t, false).summary == Done(NOTHING, NOTHING, NOTHING, NOTHING, NOTHING))
  {
    var t := Collected(w, s, false).store;
    SecondRunSettled(w, s);
    if t.tracked == {} {
      assert Requirements(w, t) == {};
    } else {
      AllSettledIffAnchored(w, s, t);
      SecondToolSweep(w, s, t);
      if Anchored(w, s) {
        AllUsedIsStable(w, t);
      }
      if Collected(w, t, false).store == t {
        StableKeepsHooksAndTools(w, t);
      }
    }
  }

  // ---- dry runs ----

  lemma {:induction false} DryVersionsUntouched(tools: map<string, Node<Versions>>, buckets: seq<ToolBucket>, keep: ToolBucket -> set<string>)
    ensures SweptVersions(tools, buckets, keep, true).tools == tools
  {
    if buckets != [] {
      var init, b := buckets[..|buckets| - 1], buckets[|buckets| - 1];
      DryVersionsUntouched(tools, init, keep);
    }
  }

  lemma DryRunChangesNothing(w: World, s: Store)
    ensures Collected(w, s, true).store == s
  {
    DryVersionsUntouched(BucketsAfter(w, s, true), ALL_BUCKETS, b => UsedVersions(w, s, b));
  }

  /** Unsaturated totals of the version sweep, bucket by bucket. */
  ghost function VersionCount(tools: map<string, Node<Versions>>, buckets: seq<ToolBucket>, keep: ToolBucket -> set<string>): nat {
    if buckets == [] then 0
    else
      var b := buckets[|buckets| - 1];
      VersionCount(tools, buckets[..|buckets| - 1], keep)
      + if ToolName(b) in tools then |Unused(tools[ToolName(b)].content, keep(b))| else 0
  }

  ghost function UnusedBytes(versions: Versions, keep: set<string>): nat {
    Bytes(Restrict(versions, Unused(versions, keep)))
  }

  ghost function VersionBytes(tools: map<string, Node<Versions>>, buckets: seq<ToolBucket>, keep: ToolBucket -> set<string>): nat {
    if buckets == [] then 0
    else
      var b := buckets[|buckets| - 1];
      VersionBytes(tools, buckets[..|buckets| - 1], keep)
      + if ToolName(b) in tools then UnusedBytes(tools[ToolName(b)].content, keep(b)) else 0
  }

  predicate VersionsRemovable(tools: map<string, Node<Versions>>) {
    forall n | n in tools :: NoneStuck(tools[n].content)
  }

  lemma {:induction false} VersionTotals(tools: map<string, Node<Versions>>, buckets: seq<ToolBucket>,
                                          keep: ToolBucket -> set<string>, dryRun: bool)
    requires Distinct(buckets) && VersionsRemovable(tools)
    requires AllDirs(tools, buckets)
    ensures SweptVersions(tools, buckets, keep, dryRun).removal
         == Removal(VersionCount(tools, buckets, keep), Sat(VersionBytes(tools, buckets, keep)))
  {
    if buckets != [] {
      var init, b := buckets[..|buckets| - 1], buckets[|buckets| - 1];
      VersionTotals(tools, init, keep, dryRun);
      var before := SweptVersions(tools, init, keep, dryRun);
      SweepOkIffDirs(tools, init, keep, dryRun);
      forall c | c in init
        ensures ToolName(c) != ToolName(b)
      {
        ToolNamesDiffer(c, b);
      }
      OthersUntouched(tools, init, keep, dryRun, ToolName(b));
      assert b in buckets;
      BucketTotal(before, tools, b, keep(b), dryRun, VersionBytes(tools, init, keep));
    }
  }

  /** One bucket adds its unused versions, saturating the bytes. */
  lemma BucketTotal(before: VersionSweep, tools: map<string, Node<Versions>>, b: ToolBucket, keep: set<string>,
                    dryRun: bool, bytes: nat)
    requires before.ok && before.removal.bytes == Sat(bytes) && VersionsRemovable(tools)
    requires ToolName(b) in before.tools <==> ToolName(b) in tools
    requires ToolName(b) in tools ==> before.tools[ToolName(b)] == tools[ToolName(b)] && tools[ToolName(b)].isDir
    ensures SweptBucket(before, b, keep, dryRun).removal
         == Removal(before.removal.count + (if ToolName(b) in tools then |Unused(tools[ToolName(b)].content, keep)| else 0),
                    Sat(bytes + if ToolName(b) in tools then UnusedBytes(tools[ToolName(b)].content, keep) else 0))
  {
    if ToolName(b) in tools {
      var versions := tools[ToolName(b)].content;
      assert Reported(versions, Unused(versions, keep), dryRun) == Unused(versions, keep);
    }
  }

  lemma {:induction false} TotalsSplit(tools: map<string, Node<Versions>>, part: set<string>, buckets: seq<ToolBucket>,
                                        keep: ToolBucket -> set<string>)
    ensures VersionCount(tools, buckets, keep) == VersionCount(tools - part, buckets, keep) + VersionCount(Restrict(tools, part), buckets, keep)
    ensures VersionBytes(tools, buckets, keep) == VersionBytes(tools - part, buckets, keep) + VersionBytes(Restrict(tools, part), buckets, keep)
  {
    if buckets != [] {
      TotalsSplit(tools, part, buckets[..|buckets| - 1], keep);
    }
  }

  /** The buckets no required language uses. */
  function UnusedBuckets(w: World, s: Store): map<string, Node<Versions>> {
    Restrict(s.tools, Unused(s.tools, UsedToolNames(w, s)))
  }

  /** Count and bytes of the visible version directories in those buckets, which keep no version. */
  ghost function Extra(w: World, s: Store): (nat, nat) {
    var none := (b: ToolBucket) => {};
    (VersionCount(UnusedBuckets(w, s), ALL_BUCKETS, none), VersionBytes(UnusedBuckets(w, s), ALL_BUCKETS, none))
  }

  lemma {:induction false} SameKeepSameTotals(tools: map<string, Node<Versions>>, buckets: seq<ToolBucket>,
                                               keep: ToolBucket -> set<string>, keep': ToolBucket -> set<string>)
    requires forall b | b in buckets && ToolName(b) in tools :: keep(b) == keep'(b)
    ensures VersionCount(tools, buckets, keep) == VersionCount(tools, buckets, keep')
    ensures VersionBytes(tools, buckets, keep) == VersionBytes(tools, buckets, keep')
  {
    if buckets != [] {
      SameKeepSameTotals(tools, buckets[..|buckets| - 1], keep, keep');
    }
  }

  lemma DryVersionTotals(w: World, s: Store)
    requires RemovalsSucceed(s)
    ensures var keep := b => UsedVersions(w, s, b);
      && VersionCount(s.tools, ALL_BUCKETS, keep) == VersionCount(BucketsAfter(w, s, false), ALL_BUCKETS, keep) + Extra(w, s).0
      && VersionBytes(s.tools, ALL_BUCKETS, keep) == VersionBytes(BucketsAfter(w, s, false), ALL_BUCKETS, keep) + Extra(w, s).1
  {
    var keep := b => UsedVersions(w, s, b);
    var unused := Unused(s.tools, UsedToolNames(w, s));
    assert Reported(s.tools, unused, false) == unused;
    TotalsSplit(s.tools, unused, ALL_BUCKETS, keep);
    forall b | b in ALL_BUCKETS && ToolName(b) in UnusedBuckets(w, s)
      ensures keep(b) == {}
    {
    }
    SameKeepSameTotals(UnusedBuckets(w, s), ALL_BUCKETS, keep, (b: ToolBucket) => {});
  }

  /** Bytes of the version directories a real run removes. */
  ghost function SweptBytes(w: World, s: Store): nat {
    VersionBytes(BucketsAfter(w, s, false), ALL_BUCKETS, b => UsedVersions(w, s, b))
  }

  /** Bytes of all tools a real run removes. */
  ghost function ToolBytes(w: World, s: Store): nat {
    Bytes(Restrict(s.tools, Reported(s.tools, Unused(s.tools, UsedToolNames(w, s)), false))) + SweptBytes(w, s)
  }

  /**
    The tools a dry run reports exceed what a real run removes by exactly the visible version
    directories inside wholly unused buckets, which the real run has removed with the bucket.
   */
  lemma DryToolSweep(w: World, s: Store)
    requires RemovalsSucceed(s)
    ensures ToolSweep(w, s, true).ok == ToolSweep(w, s, false).ok
    ensures ToolSweep(w, s, true).ok ==>
      && ToolSweep(w, s, true).removal
           == Removal(ToolSweep(w, s, false).removal.count + Extra(w, s).0, Sat(SweptBytes(w, s) + Extra(w, s).1))
      && ToolSweep(w, s, false).removal.bytes == Sat(SweptBytes(w, s))
  {
    var keep := b => UsedVersions(w, s, b);
    var left := BucketsAfter(w, s, false);
    AllBucketsListed(UvTool);
    SweepOkIffDirs(s.tools, ALL_BUCKETS, keep, true);
    SweepOkIffDirs(left, ALL_BUCKETS, keep, false);
    if ToolSweep(w, s, true).ok {
      VersionTotals(s.tools, ALL_BUCKETS, keep, true);
      VersionTotals(left, ALL_BUCKETS, keep, false);
      DryVersionTotals(w, s);
    }
  }

  /** Whole buckets are reported alike, so the difference is that of the version sweep. */
  lemma DryToolReport(w: World, s: Store)
    requires RemovalsSucceed(s) && ToolSweep(w, s, true).ok
    ensures var unused := Unused(s.tools, UsedToolNames(w, s));
      var dry := Report(s.tools, unused, true).Plus(ToolSweep(w, s, true).removal);
      var actual := Report(s.tools, unused, false).Plus(ToolSweep(w, s, false).removal);
      && dry.count == actual.count + Extra(w, s).0
      && actual.bytes == Sat(ToolBytes(w, s)) && dry.bytes == Sat(ToolBytes(w, s) + Extra(w, s).1)
  {
    var unused := Unused(s.tools, UsedToolNames(w, s));
    DryToolSweep(w, s);
    DryReportsReal(s.tools, unused);
    var bucketBytes := ToolBytes(w, s) - SweptBytes(w, s);
  }

  /**
    A dry run reports exactly what a real run removes, except for tools, where it also counts the
    visible version directories inside wholly unused buckets.
   */
  lemma DryRunReportsRealRun(w: World, s: Store)
    requires RemovalsSucceed(s)
    ensures var dry, actual := Collected(w, s, true).summary, Collected(w, s, false).summary;
      && (dry.Done? <==> actual.Done?)
      && (dry.Done? ==>
            && dry.repos == actual.repos && dry.hooks == actual.hooks
            && dry.caches == actual.caches && dry.patches == actual.patches
            && dry.tools.count == actual.tools.count + Extra(w, s).0
            && actual.tools.bytes == Sat(ToolBytes(w, s)) && dry.tools.bytes == Sat(ToolBytes(w, s) + Extra(w, s).1))
  {
    DryToolSweep(w, s);
    if s.tracked != {} && ToolSweep(w, s, true).ok {
      DryReportsReal(s.repos, Unused(s.repos, UsedRepoKeys(w, s)));
      DryReportsReal(s.hooks, Unused(s.hooks, UsedEnvDirs(w, s)));
      DryReportsReal(s.caches, Unused(s.caches, UsedCacheNames(w, s)));
      DryReportsReal(s.patches, StalePatches(s.patches, w.now));
      DryToolReport(w, s);
    }
  }
}
