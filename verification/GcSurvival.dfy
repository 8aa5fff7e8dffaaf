/**
  Exactly what a real collection leaves, directory by directory, read off the store, the configurations and
  the names, without the collector's own mark sets.
 */
module GcSurvival {
  import opened Wrappers
  import opened HookSpecs
  import opened Sweeping
  import opened CacheGc
  import opened GcSafety

  /** A directory that a sweep removes unless something keeps it. */
  predicate Removable<P>(entries: map<string, Node<P>>, name: string) {
    name in entries && entries[name].isDir && !entries[name].stuck && !("." <= name)
  }

  lemma HiddenIsDotName(name: string)
    ensures Hidden(name) <==> "." <= name
  {
    assert name != "" ==> name[..1] == [name[0]];
  }

  /** Nothing but removable directories is ever removed, and nothing left is changed. */
  lemma OthersStay<P>(entries: map<string, Node<P>>, keep: set<string>, name: string)
    ensures var left := After(entries, Unused(entries, keep), false);
      && (name in left ==> name in entries && left[name] == entries[name])
      && (name in left <==> name in entries && (!Removable(entries, name) || name in keep))
  {
    HiddenIsDotName(name);
  }

  // ---- repositories ----

  /** A loaded tracked configuration refers to the repository stored under `key`. */
  predicate Refers(w: World, s: Store, path: string, repo: RepoConfig, key: string) {
    && path in s.tracked && w.load(path).Loaded? && repo in w.load(path).config.repos
    && repo.RemoteRepo? && w.repoKey(repo.source, repo.rev) == key
  }

  lemma UsedKeysAreReferred(w: World, s: Store, key: string)
    ensures key in UsedRepoKeys(w, s) <==> exists path, repo :: Refers(w, s, path, repo, key)
  {
    if key in UsedRepoKeys(w, s) {
      var path :| path in s.tracked && w.load(path).Loaded? && key in ReposKeys(w, w.load(path).config.repos);
      var repo :| repo in w.load(path).config.repos && repo.RemoteRepo? && key == w.repoKey(repo.source, repo.rev);
      assert Refers(w, s, path, repo, key);
    }
    if path, repo :| Refers(w, s, path, repo, key) {
      assert key in ReposKeys(w, w.load(path).config.repos);
    }
  }

  /** A repository directory survives if and only if a configuration refers to it, or it cannot be removed. */
  lemma RepoSurvivesIff(w: World, s: Store, key: string)
    requires s.tracked != {} && key in s.repos
    ensures key in Collected(w, s, false).store.repos
      <==> !Removable(s.repos, key) || exists path, repo :: Refers(w, s, path, repo, key)
  {
    UsedKeysAreReferred(w, s, key);
    OthersStay(s.repos, UsedRepoKeys(w, s), key);
  }

  // ---- tool and cache buckets ----

  predicate NeedsTool(w: World, s: Store, path: string, r: Requirement, b: ToolBucket, name: string) {
    Needs(w, s, path, r) && b in OpenedTools(r.language) && ToolName(b) == name
  }

  lemma UsedToolsAreNeeded(w: World, s: Store, name: string)
    ensures name in UsedToolNames(w, s) <==> exists path, r, b :: NeedsTool(w, s, path, r, b, name)
  {
    if name in UsedToolNames(w, s) {
      var r, b :| r in Requirements(w, s) && b in ToolBuckets(r.language) && name == ToolName(b);
      var path :| path in s.tracked && w.load(path).Loaded? && r in ConfigRequirements(w, s, w.load(path).config);
      OpenedAreMarked(r.language);
      assert NeedsTool(w, s, path, r, b, name);
    }
    if path, r, b :| NeedsTool(w, s, path, r, b, name) {
      OpenedAreMarked(r.language);
      assert r in Requirements(w, s);
    }
  }

  /** A tool bucket survives if and only if some required language opens it, or it cannot be removed. */
  lemma ToolBucketSurvivesIff(w: World, s: Store, name: string)
    requires s.tracked != {} && name in s.tools
    ensures name in Collected(w, s, false).store.tools
      <==> !Removable(s.tools, name) || exists path, r, b :: NeedsTool(w, s, path, r, b, name)
  {
    UsedToolsAreNeeded(w, s, name);
    OthersStay(s.tools, UsedToolNames(w, s), name);
    OthersUntouched(BucketsAfter(w, s, false), ALL_BUCKETS, b => UsedVersions(w, s, b), false, name);
  }

  predicate NeedsCache(w: World, s: Store, path: string, r: Requirement, b: CacheBucket, name: string) {
    Needs(w, s, path, r) && b in CacheBuckets(r.language) && CacheName(b) == name
  }

  lemma UsedCachesAreNeeded(w: World, s: Store, name: string)
    ensures name in UsedCacheNames(w, s) <==> name == "prek" || exists path, r, b :: NeedsCache(w, s, path, r, b, name)
  {
    if name in UsedCacheNames(w, s) && name != "prek" {
      var r, b :| r in Requirements(w, s) && b in CacheBuckets(r.language) && name == CacheName(b);
      var path :| path in s.tracked && w.load(path).Loaded? && r in ConfigRequirements(w, s, w.load(path).config);
      assert NeedsCache(w, s, path, r, b, name);
    }
    if path, r, b :| NeedsCache(w, s, path, r, b, name) {
      assert r in Requirements(w, s);
    }
  }

  /** A cache bucket survives if and only if it is the program's own, a required language has it, or it cannot be removed. */
  lemma CacheSurvivesIff(w: World, s: Store, name: string)
    requires s.tracked != {} && name in s.caches && Collected(w, s, false).summary.Done?
    ensures name in Collected(w, s, false).store.caches
      <==> !Removable(s.caches, name) || name == "prek" || exists path, r, b :: NeedsCache(w, s, path, r, b, name)
  {
    UsedCachesAreNeeded(w, s, name);
    OthersStay(s.caches, UsedCacheNames(w, s), name);
  }

  // ---- patches ----

  /** A visible regular file `<stem>.patch` that was last changed thirty days ago or before. */
  ghost predicate OldPatch(s: Store, now: int, name: string) {
    && name in s.patches && s.patches[name].content.isFile && !("." <= name)
    && (exists stem :: stem != "" && name == stem + ".patch")
    && s.patches[name].content.modified != None && now - s.patches[name].content.modified.value >= 2_592_000
  }

  lemma PatchNames(name: string)
    ensures HasPatchExtension(name) <==> exists stem :: stem != "" && name == stem + ".patch"
  {
    if HasPatchExtension(name) {
      assert name == name[..|name| - 6] + ".patch";
    }
  }

  /** A recovery patch goes if and only if it is old and its removal succeeds. */
  lemma PatchSurvivesIff(w: World, s: Store, name: string)
    requires s.tracked != {} && name in s.patches && Collected(w, s, false).summary.Done?
    ensures name in Collected(w, s, false).store.patches <==> !OldPatch(s, w.now, name) || s.patches[name].stuck
  {
    PatchNames(name);
    HiddenIsDotName(name);
  }

  // ---- totals ----

  /** What is removed from a bucket is taken off its size, which never becomes negative. */
  lemma BucketShrinks(bucket: Node<Versions>, keep: set<string>)
    ensures var left, gone := BucketAfter(bucket, keep, false).bytes, Report(bucket.content, Unused(bucket.content, keep), false).bytes;
      if gone <= bucket.bytes then left + gone == bucket.bytes else left == 0
  {
  }

  /** Sizes are added up to the largest 64-bit number and no further. */
  lemma SaturatedTotal(removal: Removal, bytes: nat)
    requires removal.bytes <= 0xffff_ffff_ffff_ffff
    ensures var total := removal.Plus(Removal(1, Sat(bytes)));
      && total.count == removal.count + 1
      && total.bytes <= 0xffff_ffff_ffff_ffff
      && (removal.bytes + bytes <= 0xffff_ffff_ffff_ffff ==> total.bytes == removal.bytes + bytes)
      && (removal.bytes + bytes > 0xffff_ffff_ffff_ffff ==> total.bytes == 0xffff_ffff_ffff_ffff)
  {
  }
}
