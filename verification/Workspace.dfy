/**
  Workspace discovery, project order, and assembling the hooks of all projects.
 */
module Workspace {
  import opened Wrappers
  import opened PathOrder

  // ---- discovery: a parallel walk over a directory tree ----

  datatype Project = Project(path: Path, config: string, idx: nat)

  datatype Verdict =
    | HasProject(config: string)
    | NoConfig
    | Skipped                // cookiecutter template or submodule
    | BrokenIgnored          // broken and not selected: logged, not descended into
    | BrokenSelected         // broken and selected: the walk quits with its error

  datatype Tree = Tree(name: string, verdict: Verdict, children: seq<Tree>)

  /** A directory with its path below the root of the walk. */
  datatype Directory = Directory(path: Path, tree: Tree)

  /** A walk in progress: the frontier holds the directories found but not visited. */
  datatype Walk = Walk(frontier: seq<Directory>, found: seq<Project>, failed: bool)

  predicate Descends(v: Verdict) {
    v.HasProject? || v.NoConfig?
  }

  function Entries(path: Path, ts: seq<Tree>): seq<Directory> {
    if ts == [] then [] else [Directory(path + [ts[0].name], ts[0])] + Entries(path, ts[1..])
  }

  /** Visiting the waiting directory at position `i`; the walker threads may pick any. */
  function Visit(w: Walk, i: nat): Walk {
    if i >= |w.frontier| then w
    else
      var d := w.frontier[i];
      var rest := w.frontier[..i] + w.frontier[i + 1..];
      match d.tree.verdict
      case HasProject(config) =>
        Walk(rest + Entries(d.path, d.tree.children), if w.failed then w.found else w.found + [Project(d.path, config, 0)], w.failed)
      case NoConfig => w.(frontier := rest + Entries(d.path, d.tree.children))
      case BrokenSelected => w.(frontier := rest, failed := true)
      case _ => w.(frontier := rest)
  }

  function Walked(root: Tree, visits: seq<nat>): Walk {
    if visits == [] then Walk([Directory([], root)], [], false)
    else Visit(Walked(root, visits[..|visits| - 1]), visits[|visits| - 1])
  }

  predicate IsHere(path: Path, t: Tree, p: Project) {
    t.verdict.HasProject? && p == Project(path, t.verdict.config, 0)
  }

  /** How often a complete walk from `t` at `path` finds project `p`. */
  function Finds(path: Path, t: Tree, p: Project): nat
    decreases t
  {
    (if IsHere(path, t, p) then 1 else 0) + (if Descends(t.verdict) then FindsBelow(path, t.children, p) else 0)
  }

  function FindsBelow(path: Path, ts: seq<Tree>, p: Project): nat
    decreases ts
  {
    if ts == [] then 0 else Finds(path + [ts[0].name], ts[0], p) + FindsBelow(path, ts[1..], p)
  }

  function FindsAll(ds: seq<Directory>, p: Project): nat {
    if ds == [] then 0 else Finds(ds[0].path, ds[0].tree, p) + FindsAll(ds[1..], p)
  }

  /** A complete walk from `t` meets a selected broken project. */
  predicate Fails(t: Tree) {
    t.verdict == BrokenSelected || (Descends(t.verdict) && FailsBelow(t.children))
  }

  predicate FailsBelow(ts: seq<Tree>) {
    ts != [] && (Fails(ts[0]) || FailsBelow(ts[1..]))
  }

  predicate FailsAny(ds: seq<Directory>) {
    ds != [] && (Fails(ds[0].tree) || FailsAny(ds[1..]))
  }

  lemma {:induction false} EntriesFind(path: Path, ts: seq<Tree>, p: Project)
    ensures FindsAll(Entries(path, ts), p) == FindsBelow(path, ts, p)
    ensures FailsAny(Entries(path, ts)) <==> FailsBelow(ts)
  {
    if ts != [] {
      EntriesFind(path, ts[1..], p);
    }
  }

  lemma {:induction false} FindsConcat(a: seq<Directory>, b: seq<Directory>, p: Project)
    ensures FindsAll(a + b, p) == FindsAll(a, p) + FindsAll(b, p)
    ensures FailsAny(a + b) <==> FailsAny(a) || FailsAny(b)
  {
    if a == [] {
      assert a + b == b;
    } else {
      assert (a + b)[1..] == a[1..] + b;
      FindsConcat(a[1..], b, p);
    }
  }

  lemma FindsAt(ds: seq<Directory>, i: nat, p: Project)
    requires i < |ds|
    ensures FindsAll(ds, p) == Finds(ds[i].path, ds[i].tree, p) + FindsAll(ds[..i] + ds[i + 1..], p)
    ensures FailsAny(ds) <==> Fails(ds[i].tree) || FailsAny(ds[..i] + ds[i + 1..])
  {
    assert ds == ds[..i] + ds[i..] && ds[i..][0] == ds[i] && ds[i..][1..] == ds[i + 1..];
    FindsConcat(ds[..i], ds[i..], p);
    FindsConcat(ds[..i], ds[i + 1..], p);
  }

  function Found(w: Walk, p: Project): nat {
    multiset(w.found)[p]
  }

  lemma VisitKeepsTotals(w: Walk, i: nat, p: Project)
    ensures Visit(w, i).failed || FailsAny(Visit(w, i).frontier) <==> w.failed || FailsAny(w.frontier)
    ensures !Visit(w, i).failed ==>
      Found(Visit(w, i), p) + FindsAll(Visit(w, i).frontier, p) == Found(w, p) + FindsAll(w.frontier, p)
  {
    if i < |w.frontier| {
      var d := w.frontier[i];
      FindsAt(w.frontier, i, p);
      FindsConcat(w.frontier[..i] + w.frontier[i + 1..], Entries(d.path, d.tree.children), p);
      EntriesFind(d.path, d.tree.children, p);
    }
  }

  /** However far a walk has come, what it found and what is still waiting add up to the same. */
  lemma {:induction false} WalkInvariant(root: Tree, visits: seq<nat>, p: Project)
    ensures var w := Walked(root, visits);
      && (w.failed || FailsAny(w.frontier) <==> Fails(root))
      && (!w.failed ==> Found(w, p) + FindsAll(w.frontier, p) == Finds([], root, p))
  {
    if visits == [] {
      assert [Directory([], root)][1..] == [];
    } else {
      WalkInvariant(root, visits[..|visits| - 1], p);
      VisitKeepsTotals(Walked(root, visits[..|visits| - 1]), visits[|visits| - 1], p);
    }
  }

  /** A finished walk finds the same projects whatever the visiting order, and fails for every order or none. */
  lemma DiscoveryIgnoresOrder(root: Tree, visits: seq<nat>, visits': seq<nat>)
    requires Walked(root, visits).frontier == [] && Walked(root, visits').frontier == []
    ensures var w, w' := Walked(root, visits), Walked(root, visits');
      w.failed == w'.failed && (!w.failed ==> multiset(w.found) == multiset(w'.found))
  {
    forall p: Project
      ensures var w, w' := Walked(root, visits), Walked(root, visits');
        w.failed == w'.failed && (!w.failed ==> Found(w, p) == Found(w', p))
    {
      WalkInvariant(root, visits, p);
      WalkInvariant(root, visits', p);
    }
    var w := Walked(root, visits);
    assert w.failed == Walked(root, visits').failed by {
      var p := Project([], "", 0);
      assert Found(w, p) == multiset(w.found)[p];
    }
    assert forall p :: Found(w, p) == multiset(w.found)[p];
  }

  // ---- one project per directory ----

  predicate DistinctNames(ts: seq<Tree>) {
    forall i, j | 0 <= i < j < |ts| :: ts[i].name != ts[j].name
  }

  /** A file tree: the entries of a directory have different names. */
  predicate FileTree(t: Tree) {
    DistinctNames(t.children) && forall i | 0 <= i < |t.children| :: FileTree(t.children[i])
  }

  /** Everything found lies at or below where the walk began, and is not numbered yet. */
  lemma {:induction false} FoundBelow(path: Path, t: Tree, p: Project)
    requires Finds(path, t, p) > 0
    ensures path <= p.path && p.idx == 0
    decreases t
  {
    if !IsHere(path, t, p) {
      var i := ChildOf(path, t.children, p);
    }
  }

  /** What is found below a directory is found below the entry its path names. */
  lemma {:induction false} ChildOf(path: Path, ts: seq<Tree>, p: Project) returns (i: nat)
    requires FindsBelow(path, ts, p) > 0
    ensures i < |ts| && |p.path| > |path| && path <= p.path && p.path[|path|] == ts[i].name && p.idx == 0
    ensures Finds(path + [ts[i].name], ts[i], p) > 0
    decreases ts
  {
    if Finds(path + [ts[0].name], ts[0], p) > 0 {
      i := 0;
      FoundBelow(path + [ts[0].name], ts[0], p);
      assert (path + [ts[0].name])[|path|] == ts[0].name;
    } else {
      var k := ChildOf(path, ts[1..], p);
      i := k + 1;
    }
  }

  /** Two projects found at one path are the same. */
  lemma {:induction false} PathIsProject(path: Path, t: Tree, p: Project, q: Project)
    requires FileTree(t) && Finds(path, t, p) > 0 && Finds(path, t, q) > 0 && p.path == q.path
    ensures p == q
    decreases t
  {
    if |p.path| > |path| {
      var i := ChildOf(path, t.children, p);
      var j := ChildOf(path, t.children, q);
      assert i == j;
      PathIsProject(path + [t.children[i].name], t.children[i], p, q);
    } else if FindsBelow(path, t.children, p) > 0 {
      var i := ChildOf(path, t.children, p);
    } else if FindsBelow(path, t.children, q) > 0 {
      var i := ChildOf(path, t.children, q);
    }
  }

  /** No project is found twice. */
  lemma {:induction false} FoundOnce(path: Path, t: Tree, p: Project)
    requires FileTree(t)
    ensures Finds(path, t, p) <= 1
    decreases t, 1
  {
    FoundOnceBelow(path, t.children, p);
    if FindsBelow(path, t.children, p) > 0 {
      var i := ChildOf(path, t.children, p);
    }
  }

  lemma {:induction false} FoundOnceBelow(path: Path, ts: seq<Tree>, p: Project)
    requires DistinctNames(ts) && forall i | 0 <= i < |ts| :: FileTree(ts[i])
    ensures FindsBelow(path, ts, p) <= 1
    decreases ts, 0
  {
    if ts != [] {
      FoundOnce(path + [ts[0].name], ts[0], p);
      FoundOnceBelow(path, ts[1..], p);
      assert forall k | 0 <= k < |ts[1..]| :: ts[1..][k].name != ts[0].name;
      if Finds(path + [ts[0].name], ts[0], p) > 0 {
        FoundBelow(path + [ts[0].name], ts[0], p);
        assert (path + [ts[0].name])[|path|] == ts[0].name;
        if FindsBelow(path, ts[1..], p) > 0 {
          var i := ChildOf(path, ts[1..], p);
        }
      }
    }
  }

  // ---- sorting and indexing ----

  predicate InOrder(ps: seq<Project>) {
    forall i, j | 0 <= i < j < |ps| :: Before(ps[i].path, ps[j].path)
  }

  predicate DistinctPaths(ps: seq<Project>) {
    forall i, j | 0 <= i < j < |ps| :: ps[i].path != ps[j].path
  }

  predicate Indexed(ps: seq<Project>) {
    forall i | 0 <= i < |ps| :: ps[i].idx == i
  }

  function Unindexed(ps: seq<Project>): (us: seq<Project>)
    ensures |us| == |ps|
  {
    seq(|ps|, i requires 0 <= i < |ps| => ps[i].(idx := 0))
  }

  /** `sort_and_index_projects`; the library's sort is an insertion sort here. */
  method SortAndIndex(projects: seq<Project>) returns (sorted: seq<Project>)
    ensures InOrder(sorted) && Indexed(sorted)
    ensures multiset(Unindexed(sorted)) == multiset(Unindexed(projects))
  {
    var ps: seq<Project> := [];
    for k := 0 to |projects|
      invariant InOrder(ps) && multiset(ps) == multiset(Unindexed(projects)[..k])
    {
      var p := projects[k].(idx := 0);
      assert Unindexed(projects)[..k + 1] == Unindexed(projects)[..k] + [p];
      ps := Insert(ps, p);
    }
    assert Unindexed(projects)[..|projects|] == Unindexed(projects);
    sorted := [];
    for idx := 0 to |ps|
      invariant |sorted| == idx
      invariant forall i | 0 <= i < idx :: sorted[i] == ps[i].(idx := i)
    {
      sorted := sorted + [ps[idx].(idx := idx)];
    }
    assert forall i | 0 <= i < |ps| :: ps[i].idx == 0 by {
      forall i | 0 <= i < |ps|
        ensures ps[i].idx == 0
      {
        assert ps[i] in multiset(ps);
      }
    }
    assert Unindexed(sorted) == ps;
  }

  method Insert(ps: seq<Project>, p: Project) returns (r: seq<Project>)
    requires InOrder(ps)
    ensures InOrder(r) && multiset(r) == multiset(ps) + multiset{p}
  {
    var k := 0;
    while k < |ps| && Before(ps[k].path, p.path)
      invariant 0 <= k <= |ps|
      invariant forall i | 0 <= i < k :: Before(ps[i].path, p.path)
    {
      k := k + 1;
    }
    r := ps[..k] + [p] + ps[k..];
    assert ps == ps[..k] + ps[k..];
    if k < |ps| {
      forall j | k <= j < |ps|
        ensures Before(p.path, ps[j].path)
      {
        BeforeIsTotalOrder(p.path, ps[k].path, ps[j].path);
        BeforeIsTotalOrder(ps[k].path, ps[k].path, p.path);
      }
    }
  }

  lemma SameHead(a: seq<Project>, b: seq<Project>)
    requires InOrder(a) && InOrder(b) && DistinctPaths(a)
    requires multiset(a) == multiset(b) && a != [] && b != []
    ensures a[0] == b[0]
  {
    assert a[0] in multiset(b) && b[0] in multiset(a);
    var i :| 0 <= i < |a| && a[i] == b[0];
    var j :| 0 <= j < |b| && b[j] == a[0];
    BeforeIsTotalOrder(a[0].path, b[0].path, a[0].path);
  }

  lemma DropHead(a: seq<Project>)
    requires a != []
    ensures multiset(a[1..]) == multiset(a) - multiset{a[0]}
  {
    assert a == [a[0]] + a[1..];
  }

  /** Sorting leaves one possible list: same projects with distinct paths, same order. */
  lemma {:induction false} SortedListUnique(a: seq<Project>, b: seq<Project>)
    requires InOrder(a) && InOrder(b) && DistinctPaths(a)
    requires multiset(a) == multiset(b)
    ensures a == b
  {
    assert |a| == |multiset(a)| == |multiset(b)| == |b|;
    if a != [] {
      SameHead(a, b);
      DropHead(a);
      DropHead(b);
      SortedListUnique(a[1..], b[1..]);
      assert a == [a[0]] + a[1..] && b == [b[0]] + b[1..];
    }
  }

  lemma UnindexedOrder(ps: seq<Project>)
    ensures InOrder(Unindexed(ps)) <==> InOrder(ps)
    ensures DistinctPaths(Unindexed(ps)) <==> DistinctPaths(ps)
  {
    var us := Unindexed(ps);
    assert forall i | 0 <= i < |ps| :: us[i].path == ps[i].path;
  }

  lemma DistinctPathsOfPermutation(a: seq<Project>, b: seq<Project>)
    requires multiset(a) == multiset(b) && DistinctPaths(a)
    ensures DistinctPaths(b)
  {
    forall i, j | 0 <= i < j < |b|
      ensures b[i].path != b[j].path
    {
      assert b[i] in multiset(a) && b[j] in multiset(a);
      var i' :| 0 <= i' < |a| && a[i'] == b[i];
      var j' :| 0 <= j' < |a| && a[j'] == b[j];
      if i' == j' {
        TwiceInB(b, i, j);
        OnceInDistinct(a, i');
      }
    }
  }

  lemma TwiceInB(b: seq<Project>, i: nat, j: nat)
    requires i < j < |b| && b[i] == b[j]
    ensures multiset(b)[b[i]] >= 2
  {
    assert b == b[..j] + b[j..] && b[i] in multiset(b[..j]) && b[j] in multiset(b[j..]) by {
      assert b[..j][i] == b[i] && b[j..][0] == b[j];
    }
  }

  lemma {:induction false} OnceInDistinct(a: seq<Project>, i: nat)
    requires DistinctPaths(a) && i < |a|
    ensures multiset(a)[a[i]] == 1
  {
    assert a == a[..i] + [a[i]] + a[i + 1..];
    assert a[i] !in a[..i] && a[i] !in a[i + 1..];
    assert multiset(a) == multiset(a[..i]) + multiset{a[i]} + multiset(a[i + 1..]);
  }

  lemma SortedIndexedUnique(a: seq<Project>, b: seq<Project>)
    requires InOrder(a) && Indexed(a) && InOrder(b) && Indexed(b) && DistinctPaths(a)
    requires multiset(Unindexed(a)) == multiset(Unindexed(b))
    ensures a == b
  {
    UnindexedOrder(a);
    UnindexedOrder(b);
    SortedListUnique(Unindexed(a), Unindexed(b));
    forall i | 0 <= i < |a|
      ensures a[i] == b[i]
    {
      assert Unindexed(a)[i] == Unindexed(b)[i];
    }
  }

  /** What `SortAndIndex` may return for some projects. */
  predicate IsSortOf(sorted: seq<Project>, projects: seq<Project>) {
    InOrder(sorted) && Indexed(sorted) && multiset(Unindexed(sorted)) == multiset(Unindexed(projects))
  }

  lemma UnindexedPermutation(a: seq<Project>, b: seq<Project>)
    requires forall i | 0 <= i < |a| :: a[i].idx == 0
    requires forall i | 0 <= i < |b| :: b[i].idx == 0
    requires multiset(a) == multiset(b)
    ensures multiset(Unindexed(a)) == multiset(Unindexed(b))
  {
    assert Unindexed(a) == a && Unindexed(b) == b;
  }

  lemma FoundIsFinds(root: Tree, visits: seq<nat>, p: Project)
    requires !Walked(root, visits).failed
    ensures multiset(Walked(root, visits).found)[p] <= Finds([], root, p)
  {
    WalkInvariant(root, visits, p);
  }

  /** A walk over a file tree finds projects at different paths, none numbered yet. */
  lemma FoundPathsDistinct(root: Tree, visits: seq<nat>)
    requires FileTree(root) && !Walked(root, visits).failed
    ensures var found := Walked(root, visits).found;
      DistinctPaths(found) && forall i | 0 <= i < |found| :: found[i].idx == 0
  {
    var found := Walked(root, visits).found;
    forall i | 0 <= i < |found|
      ensures Finds([], root, found[i]) > 0 && found[i].idx == 0
    {
      assert found[i] in multiset(found);
      FoundIsFinds(root, visits, found[i]);
      FoundBelow([], root, found[i]);
    }
    forall i, j | 0 <= i < j < |found|
      ensures found[i].path != found[j].path
    {
      if found[i].path == found[j].path {
        PathIsProject([], root, found[i], found[j]);
        TwiceInB(found, i, j);
        FoundIsFinds(root, visits, found[i]);
        FoundOnce([], root, found[i]);
      }
    }
  }

  /** Discovery followed by sorting gives one project list, whatever order directories were visited in. */
  lemma DiscoveryGivesOneList(root: Tree, visits: seq<nat>, visits': seq<nat>, sorted: seq<Project>, sorted': seq<Project>)
    requires FileTree(root)
    requires Walked(root, visits).frontier == [] && Walked(root, visits').frontier == []
    requires !Walked(root, visits).failed
    requires IsSortOf(sorted, Walked(root, visits).found) && IsSortOf(sorted', Walked(root, visits').found)
    ensures sorted == sorted' && DistinctPaths(sorted)
  {
    var found, found' := Walked(root, visits).found, Walked(root, visits').found;
    DiscoveryIgnoresOrder(root, visits, visits');
    FoundPathsDistinct(root, visits);
    FoundPathsDistinct(root, visits');
    UnindexedPermutation(found, found');
    UnindexedOrder(found);
    DistinctPathsOfPermutation(Unindexed(found), Unindexed(sorted));
    UnindexedOrder(sorted);
    SortedIndexedUnique(sorted, sorted');
  }

  /** A nested project is listed, and therefore indexed, before the projects around it. */
  lemma NestedComesFirst(sorted: seq<Project>, inner: nat, outer: nat)
    requires InOrder(sorted) && Indexed(sorted) && inner < |sorted| && outer < |sorted|
    requires sorted[outer].path < sorted[inner].path
    ensures sorted[inner].idx < sorted[outer].idx
  {
    assert forall i, j | 0 <= i < j < |sorted| :: Before(sorted[i].path, sorted[j].path) && |sorted[i].path| >= |sorted[j].path|;
  }
}
