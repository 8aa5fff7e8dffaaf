/**
  The base of a pre-push check: which commits, and so which files, a push is checked against.
 */
module PushBase {
  import opened Wrappers

  // ---- the commit graph and git's answers about it ----

  type Sha = string

  /** Every commit with its parents, the first parent first. */
  type Commits = map<Sha, seq<Sha>>

  /** Parents are commits of the graph, and no commit is its own parent. */
  predicate Closed(g: Commits) {
    forall c | c in g :: forall i | 0 <= i < |g[c]| :: g[c][i] in g && g[c][i] != c
  }

  /** A walk from a commit through parents. */
  predicate Walk(g: Commits, w: seq<Sha>) {
    w != [] && (forall i | 0 <= i < |w| :: w[i] in g) && (forall i | 0 <= i < |w| - 1 :: w[i + 1] in g[w[i]])
  }

  ghost predicate Ancestor(g: Commits, a: Sha, c: Sha) {
    exists w :: Walk(g, w) && w[0] == c && w[|w| - 1] == a
  }

  /** Reachable from some ref of the remote. */
  ghost predicate Known(g: Commits, refs: set<Sha>, c: Sha) {
    exists h | h in refs :: Ancestor(g, c, h)
  }

  /** What git answers: ancestry, the commits the remote lacks oldest first, and the roots of a commit. */
  datatype Git = Git(
    isAncestor: (Sha, Sha) -> bool,
    ancestorsNotInRemote: Sha -> seq<Sha>,
    rootCommits: Sha -> set<Sha>)

  /** `rev-list --topo-order --reverse <local> --not --remotes`: exactly the unknown ancestors, no child before a parent. */
  ghost predicate RevList(g: Commits, refs: set<Sha>, local: Sha, list: seq<Sha>) {
    && (forall c :: c in list <==> Ancestor(g, c, local) && !Known(g, refs, c))
    && (forall i, j | 0 <= i < j < |list| :: list[i] in g && list[j] !in g[list[i]])
  }

  ghost predicate Truthful(g: Commits, refs: set<Sha>, git: Git) {
    && (forall a, c | a in g && c in g :: git.isAncestor(a, c) <==> Ancestor(g, a, c))
    && (forall c | c in g :: RevList(g, refs, c, git.ancestorsNotInRemote(c)))
    && (forall r, c | c in g :: r in git.rootCommits(c) <==> Ancestor(g, r, c) && r in g && g[r] == [])
  }

  lemma ParentIsAncestor(g: Commits, c: Sha, p: Sha, local: Sha)
    requires Closed(g) && Ancestor(g, c, local) && c in g && p in g[c]
    ensures Ancestor(g, p, local)
  {
    var w :| Walk(g, w) && w[0] == local && w[|w| - 1] == c;
    var i :| 0 <= i < |g[c]| && g[c][i] == p;
    assert Walk(g, w + [p]);
  }

  lemma AncestorTransitive(g: Commits, a: Sha, b: Sha, c: Sha)
    requires Ancestor(g, a, b) && Ancestor(g, b, c)
    ensures Ancestor(g, a, c)
  {
    var v :| Walk(g, v) && v[0] == c && v[|v| - 1] == b;
    var w :| Walk(g, w) && w[0] == b && w[|w| - 1] == a;
    assert Walk(g, v + w[1..]);
  }

  lemma KnownAncestors(g: Commits, refs: set<Sha>, a: Sha, c: Sha)
    requires Ancestor(g, a, c) && Known(g, refs, c)
    ensures Known(g, refs, a)
  {
    var h :| h in refs && Ancestor(g, c, h);
    AncestorTransitive(g, a, c, h);
  }

  // ---- choosing the base ----

  datatype PushInfo = PushInfo(localRef: string, localSha: Sha, remoteRef: string, remoteSha: Sha)

  datatype RunOptions = RunOptions(
    allFiles: bool, fromRef: Option<Sha>, toRef: Sha,
    remoteBranch: string, localBranch: string, remoteName: string, remoteUrl: string)

  datatype Error = GitFailed

  predicate AllZero(sha: Sha) {
    forall i | 0 <= i < |sha| :: sha[i] == '0'
  }

  /** The null object name, which git writes for a ref that is not there. */
  ghost predicate NullName(sha: Sha) {
    sha == seq(|sha|, _ => '0')
  }

  lemma AllZeroIsNullName(sha: Sha)
    ensures AllZero(sha) <==> NullName(sha)
  {
  }

  /** The remote's old value can be the base: it is set, present here, and part of what is pushed. */
  ghost predicate OldValueUsable(g: Commits, push: PushInfo) {
    !NullName(push.remoteSha) && push.remoteSha in g && Ancestor(g, push.remoteSha, push.localSha)
  }

  /** An unknown ancestor of the pushed commit with nothing unknown below it. */
  ghost predicate FirstUnknown(g: Commits, refs: set<Sha>, local: Sha, c: Sha) {
    && c in g && Ancestor(g, c, local) && !Known(g, refs, c)
    && (forall p | p in g[c] :: Known(g, refs, p))
  }

  /** The push has nothing to check: a deletion, or nothing the remote does not have. */
  ghost predicate Idle(g: Commits, refs: set<Sha>, push: PushInfo) {
    || NullName(push.localSha)
    || (&& push.localSha in g && !OldValueUsable(g, push)
        && (forall c | Ancestor(g, c, push.localSha) :: Known(g, refs, c)))
  }

  function FirstParent(g: Commits, c: Sha): Option<Sha> {
    if c in g && g[c] != [] then Some(g[c][0]) else None
  }

  /** The options carry the push; the base is its old value, or the first parent of the first commit git lists. */
  ghost predicate Checks(g: Commits, git: Git, name: string, url: string, push: PushInfo, o: RunOptions) {
    var unknown := git.ancestorsNotInRemote(push.localSha);
    && !NullName(push.localSha) && push.localSha in g
    && o == RunOptions(o.fromRef.None?, o.fromRef, push.localSha, push.remoteRef, push.localRef, name, url)
    && (OldValueUsable(g, push) ==> o.fromRef == Some(push.remoteSha))
    && (!OldValueUsable(g, push) ==> unknown != [] && o.fromRef == FirstParent(g, unknown[0]))
  }

  ghost predicate AllIdle(g: Commits, refs: set<Sha>, pushes: seq<PushInfo>) {
    forall i | 0 <= i < |pushes| :: Idle(g, refs, pushes[i])
  }

  ghost predicate Fails(g: Commits, push: PushInfo) {
    !NullName(push.localSha) && push.localSha !in g
  }

  lemma FirstOfRevList(g: Commits, refs: set<Sha>, local: Sha, list: seq<Sha>)
    requires Closed(g) && RevList(g, refs, local, list) && list != []
    ensures FirstUnknown(g, refs, local, list[0])
  {
    var c := list[0];
    assert c in list;
    forall p | p in g[c] ensures Known(g, refs, p) {
      ParentIsAncestor(g, c, p, local);
      assert forall j | 0 <= j < |list| :: list[j] != p;
    }
  }

  /** `pre_push_run_options`: nothing, or how to run, or a failing git command. */
  method PrePushRunOptions(g: Commits, ghost refs: set<Sha>, git: Git, name: string, url: string, push: PushInfo)
    returns (r: Result<Option<RunOptions>, Error>)
    requires Closed(g) && Truthful(g, refs, git)
    ensures r.Err? <==> Fails(g, push)
    ensures r.Ok? && r.value.None? ==> Idle(g, refs, push)
    ensures r.Ok? && r.value.Some? ==> Checks(g, git, name, url, push, r.value.value)
  {
    AllZeroIsNullName(push.localSha);
    AllZeroIsNullName(push.remoteSha);
    if AllZero(push.localSha) {
      return Ok(None);
    }
    if push.localSha !in g {
      return Err(GitFailed);
    }
    var fromRef: Option<Sha>;
    if !AllZero(push.remoteSha) && push.remoteSha in g && git.isAncestor(push.remoteSha, push.localSha) {
      fromRef := Some(push.remoteSha);
    } else {
      var ancestors := git.ancestorsNotInRemote(push.localSha);
      if ancestors == [] {
        return Ok(None);
      }
      FirstOfRevList(g, refs, push.localSha, ancestors);
      if ancestors[0] in git.rootCommits(push.localSha) {
        fromRef := None;
      } else if g[ancestors[0]] != [] {
        fromRef := Some(g[ancestors[0]][0]);
      } else {
        return Ok(None);
      }
    }
    r := Ok(Some(RunOptions(fromRef.None?, fromRef, push.localSha, push.remoteRef, push.localRef, name, url)));
  }

  /** The first push that is not idle is answered; without one there is nothing to run. */
  ghost predicate Answers(g: Commits, refs: set<Sha>, git: Git, name: string, url: string, pushes: seq<PushInfo>,
                          r: Result<Option<RunOptions>, Error>)
  {
    && (r == Ok(None) <==> AllIdle(g, refs, pushes))
    && (r.Err? ==> exists k :: 0 <= k < |pushes| && AllIdle(g, refs, pushes[..k]) && Fails(g, pushes[k]))
    && (r.Ok? && r.value.Some? ==>
          exists k :: 0 <= k < |pushes| && AllIdle(g, refs, pushes[..k]) && Checks(g, git, name, url, pushes[k], r.value.value))
  }

  /** The pre-push arm of `hook_run_options`: the first push with something to check decides. */
  method HookRunOptions(g: Commits, ghost refs: set<Sha>, git: Git, name: string, url: string, pushes: seq<PushInfo>)
    returns (r: Result<Option<RunOptions>, Error>)
    requires Closed(g) && Truthful(g, refs, git)
    ensures Answers(g, refs, git, name, url, pushes, r)
  {
    for i := 0 to |pushes|
      invariant AllIdle(g, refs, pushes[..i])
    {
      var one := PrePushRunOptions(g, refs, git, name, url, pushes[i]);
      if one != Ok(None) {
        if one.Ok? {
          OutcomesExclusive(g, refs, git, name, url, pushes[i], one.value.value);
        }
        return one;
      }
    }
    assert pushes[..|pushes|] == pushes;
    return Ok(None);
  }

  // ---- what a check covers ----

  /** A commit that the remote lacks is never skipped, however its name begins. */
  lemma NewCommitIsChecked(g: Commits, refs: set<Sha>, git: Git, name: string, url: string, pushes: seq<PushInfo>,
                           k: nat, i: nat, r: Result<Option<RunOptions>, Error>)
    requires Closed(g) && Truthful(g, refs, git) && k < |pushes| && AllIdle(g, refs, pushes[..k])
    requires pushes[k].localSha in g && !Known(g, refs, pushes[k].localSha)
    requires i < |pushes[k].localSha| && pushes[k].localSha[i] != '0'
    requires Answers(g, refs, git, name, url, pushes, r)
    ensures r.Ok? && r.value.Some? && Checks(g, git, name, url, pushes[k], r.value.value)
    ensures r.value.value.toRef == pushes[k].localSha
  {
    var push := pushes[k];
    assert Walk(g, [push.localSha]);
    assert Ancestor(g, push.localSha, push.localSha);
    assert !NullName(push.localSha) by {
      assert (seq(|push.localSha|, _ => '0'))[i] == '0';
    }
    assert !Idle(g, refs, push) && !Fails(g, push);
    FirstNotIdle(g, refs, git, name, url, pushes, k, r);
  }

  /** The remote's old value is the base whenever it is a commit below the pushed one. */
  lemma OldValueIsBase(g: Commits, refs: set<Sha>, git: Git, name: string, url: string, push: PushInfo, o: RunOptions, i: nat)
    requires Checks(g, git, name, url, push, o)
    requires i < |push.remoteSha| && push.remoteSha[i] != '0'
    requires push.remoteSha in g && Ancestor(g, push.remoteSha, push.localSha)
    ensures o.fromRef == Some(push.remoteSha) && !o.allFiles
  {
    assert !NullName(push.remoteSha) by {
      assert (seq(|push.remoteSha|, _ => '0'))[i] == '0';
    }
  }

  /** Deleting a ref, written as zeros, never needs a check, and a new ref, written as zeros, has no old value. */
  lemma ZerosAreNoCommit(g: Commits, refs: set<Sha>, push: PushInfo, n: nat)
    ensures push.localSha == seq(n, _ => '0') ==> Idle(g, refs, push) && !Fails(g, push)
    ensures push.remoteSha == seq(n, _ => '0') ==> !OldValueUsable(g, push)
  {
  }

  /** Without a usable old value, the first commit git lists is unknown to the remote and all its parents are known. */
  lemma FirstListed(g: Commits, refs: set<Sha>, git: Git, name: string, url: string, push: PushInfo, o: RunOptions)
    requires Closed(g) && Truthful(g, refs, git) && Checks(g, git, name, url, push, o) && !OldValueUsable(g, push)
    ensures FirstUnknown(g, refs, push.localSha, git.ancestorsNotInRemote(push.localSha)[0])
  {
    FirstOfRevList(g, refs, push.localSha, git.ancestorsNotInRemote(push.localSha));
  }

  /** A diff base belongs to the pushed history, and is the remote's old value or reachable from its refs. */
  lemma BaseIsSafe(g: Commits, refs: set<Sha>, git: Git, name: string, url: string, push: PushInfo, o: RunOptions)
    requires Closed(g) && Truthful(g, refs, git) && Checks(g, git, name, url, push, o)
    ensures o.fromRef.Some? ==>
              && Ancestor(g, o.fromRef.value, push.localSha)
              && (o.fromRef.value == push.remoteSha || Known(g, refs, o.fromRef.value))
  {
    if !OldValueUsable(g, push) && o.fromRef.Some? {
      var c := git.ancestorsNotInRemote(push.localSha)[0];
      FirstListed(g, refs, git, name, url, push, o);
      ParentIsAncestor(g, c, g[c][0], push.localSha);
    }
  }

  /** The whole tree is checked, without a diff base, if and only if the first commit git lists is a root. */
  lemma WholeTreeIffRoot(g: Commits, refs: set<Sha>, git: Git, name: string, url: string, push: PushInfo, o: RunOptions)
    requires Closed(g) && Truthful(g, refs, git) && Checks(g, git, name, url, push, o)
    ensures o.allFiles <==> o.fromRef.None?
    ensures o.allFiles <==>
      !OldValueUsable(g, push) && git.ancestorsNotInRemote(push.localSha)[0] in git.rootCommits(push.localSha)
  {
    if !OldValueUsable(g, push) {
      FirstListed(g, refs, git, name, url, push, o);
    }
  }

  /** Nothing new is left behind: what the remote lacks is never below a base taken from its refs. */
  lemma NothingNewBelowBase(g: Commits, refs: set<Sha>, git: Git, name: string, url: string, push: PushInfo,
                            o: RunOptions, c: Sha)
    requires Closed(g) && Truthful(g, refs, git) && Checks(g, git, name, url, push, o) && !OldValueUsable(g, push)
    requires Ancestor(g, c, push.localSha) && !Known(g, refs, c)
    ensures o.fromRef.Some? ==> !Ancestor(g, c, o.fromRef.value)
  {
    if o.fromRef.Some? && Ancestor(g, c, o.fromRef.value) {
      FirstListed(g, refs, git, name, url, push, o);
      KnownAncestors(g, refs, c, o.fromRef.value);
      assert false;
    }
  }

  /** The three outcomes exclude each other, so together with the method each is reached exactly when it should be. */
  lemma OutcomesExclusive(g: Commits, refs: set<Sha>, git: Git, name: string, url: string, push: PushInfo, o: RunOptions)
    requires Closed(g) && Truthful(g, refs, git)
    ensures !(Idle(g, refs, push) && Checks(g, git, name, url, push, o))
    ensures !(Fails(g, push) && (Idle(g, refs, push) || Checks(g, git, name, url, push, o)))
  {
    if Checks(g, git, name, url, push, o) && !OldValueUsable(g, push) {
      FirstListed(g, refs, git, name, url, push, o);
    }
  }

  /** The answer speaks of the first push that is not idle. */
  lemma FirstNotIdle(g: Commits, refs: set<Sha>, git: Git, name: string, url: string, pushes: seq<PushInfo>, k: nat,
                     r: Result<Option<RunOptions>, Error>)
    requires Closed(g) && Truthful(g, refs, git) && Answers(g, refs, git, name, url, pushes, r)
    requires k < |pushes| && AllIdle(g, refs, pushes[..k]) && !Idle(g, refs, pushes[k])
    ensures r.Err? ==> Fails(g, pushes[k])
    ensures r.Ok? ==> r.value.Some? && Checks(g, git, name, url, pushes[k], r.value.value)
  {
    if r.Err? {
      var j :| 0 <= j < |pushes| && AllIdle(g, refs, pushes[..j]) && Fails(g, pushes[j]);
      SamePush(g, refs, pushes, j, k);
    } else if r.value.Some? {
      var j :| 0 <= j < |pushes| && AllIdle(g, refs, pushes[..j]) && Checks(g, git, name, url, pushes[j], r.value.value);
      OutcomesExclusive(g, refs, git, name, url, pushes[j], r.value.value);
      SamePush(g, refs, pushes, j, k);
    }
  }

  lemma SamePush(g: Commits, refs: set<Sha>, pushes: seq<PushInfo>, j: nat, k: nat)
    requires j < |pushes| && k < |pushes| && AllIdle(g, refs, pushes[..j]) && AllIdle(g, refs, pushes[..k])
    requires !Idle(g, refs, pushes[j]) && !Idle(g, refs, pushes[k])
    ensures j == k
  {
    IdleBefore(g, refs, pushes, k);
    IdleBefore(g, refs, pushes, j);
  }

  lemma IdleBefore(g: Commits, refs: set<Sha>, pushes: seq<PushInfo>, k: nat)
    requires k <= |pushes| && AllIdle(g, refs, pushes[..k])
    ensures forall i | 0 <= i < k :: Idle(g, refs, pushes[i])
  {
    forall i | 0 <= i < k
      ensures Idle(g, refs, pushes[i])
    {
      assert pushes[..k][i] == pushes[i];
    }
  }

  // ---- the assumption on git can be met ----

  /** In a graph without cycles, the unknown ancestors of any commit have a listing oldest first. */
  lemma RevListExists(g: Commits, refs: set<Sha>, local: Sha, rank: Sha -> nat) returns (list: seq<Sha>)
    requires forall c, p | c in g && p in g[c] :: rank(p) < rank(c)
    ensures RevList(g, refs, local, list)
  {
    var unknown := set c | c in g && Ancestor(g, c, local) && !Known(g, refs, c);
    list := OldestFirst(g, unknown, rank);
    assert forall c :: Ancestor(g, c, local) ==> c in g;
  }

  lemma {:induction false} OldestFirst(g: Commits, commits: set<Sha>, rank: Sha -> nat) returns (list: seq<Sha>)
    requires commits <= g.Keys && forall c, p | c in g && p in g[c] :: rank(p) < rank(c)
    ensures forall c :: c in list <==> c in commits
    ensures forall i, j | 0 <= i < j < |list| :: list[i] in g && list[j] !in g[list[i]]
  {
    if commits == {} {
      list := [];
    } else {
      var youngest := Youngest(commits, rank);
      var older := OldestFirst(g, commits - {youngest}, rank);
      list := older + [youngest];
      forall i, j | 0 <= i < j < |list| ensures list[i] in g && list[j] !in g[list[i]] {
        assert list[i] in older;
      }
    }
  }

  lemma {:induction false} Youngest(commits: set<Sha>, rank: Sha -> nat) returns (c: Sha)
    requires commits != {}
    ensures c in commits && forall d | d in commits :: rank(d) <= rank(c)
  {
    c :| c in commits;
    if commits != {c} {
      var d := Youngest(commits - {c}, rank);
      c := if rank(d) > rank(c) then d else c;
    }
  }
}
