/**
  Lexical path operations (`clean_path`, `relative_to`), on the components of Unix paths.
 */
module Paths {
  import opened Wrappers

  datatype Component = RootDir | CurDir | ParentDir | Name(name: string)

  type Path = seq<Component>

  /** What `Path::components` yields: a root or a leading dot only in front. */
  predicate IsPath(p: Path) {
    forall i | 0 < i < |p| :: p[i] != RootDir && p[i] != CurDir
  }

  predicate Absolute(p: Path) {
    p != [] && p[0] == RootDir
  }

  function DropDot(p: Path): Path {
    if p != [] && p[0] == CurDir then p[1..] else p
  }

  function Join(p: Path, q: Path): Path {
    if Absolute(q) || p == [] then q else p + DropDot(q)
  }

  // ---- cleaning ----

  function Push(out: Path, c: Component): Path {
    match c
    case CurDir => out
    case ParentDir =>
      if out == [] then [ParentDir]
      else
        (match out[|out| - 1]
         case RootDir => out
         case Name(_) => out[..|out| - 1]
         case _ => out + [ParentDir])
    case _ => out + [c]
  }

  function Fold(out: Path, cs: Path): Path {
    if cs == [] then out else Push(Fold(out, cs[..|cs| - 1]), cs[|cs| - 1])
  }

  function Clean(p: Path): Path {
    if Fold([], p) == [] then [CurDir] else Fold([], p)
  }

  /** `clean_path`. */
  method CleanPath(path: Path) returns (r: Path)
    ensures r == Clean(path)
  {
    var out: Path := [];
    for i := 0 to |path|
      invariant out == Fold([], path[..i])
    {
      assert path[..i + 1][..i] == path[..i];
      match path[i] {
        case CurDir =>
        case ParentDir =>
          if out != [] && out[|out| - 1] == RootDir {
          } else if out != [] && out[|out| - 1].Name? {
            out := out[..|out| - 1];
          } else {
            out := out + [ParentDir];
          }
        case component => out := out + [component];
      }
    }
    assert path[..|path|] == path;
    r := if out == [] then [CurDir] else out;
  }

  /** No dots; a root only in front; `..` only as a leading run, so never below a root. */
  predicate Normal(p: Path) {
    && (forall i | 0 <= i < |p| :: p[i] != CurDir)
    && (forall i | 0 < i < |p| :: p[i] != RootDir)
    && (forall i, j | 0 <= i < j < |p| && p[j] == ParentDir :: p[i] == ParentDir)
  }

  lemma {:induction false} FoldConcat(out: Path, a: Path, b: Path)
    ensures Fold(out, a + b) == Fold(Fold(out, a), b)
  {
    if b == [] {
      assert a + b == a;
    } else {
      assert (a + b)[..|a + b| - 1] == a + b[..|b| - 1];
      FoldConcat(out, a, b[..|b| - 1]);
    }
  }

  lemma {:induction false} FoldNormal(out: Path, cs: Path)
    requires Normal(out) && IsPath(cs) && (out != [] ==> !Absolute(cs))
    ensures Normal(Fold(out, cs))
    ensures out != [] && out[0] == RootDir ==> Absolute(Fold(out, cs))
  {
    if cs != [] {
      var init, c := cs[..|cs| - 1], cs[|cs| - 1];
      FoldNormal(out, init);
      PushNormal(Fold(out, init), c);
    }
  }

  lemma PushNormal(out: Path, c: Component)
    requires Normal(out) && (out != [] ==> c != RootDir)
    ensures Normal(Push(out, c)) && (out != [] && out[0] == RootDir ==> Absolute(Push(out, c)))
  {
  }

  lemma {:induction false} NormalIsFixed(p: Path)
    requires Normal(p)
    ensures Fold([], p) == p
  {
    if p != [] {
      NormalIsFixed(p[..|p| - 1]);
      PushLast(p);
    }
  }

  lemma PushLast(p: Path)
    requires Normal(p) && p != []
    ensures Push(p[..|p| - 1], p[|p| - 1]) == p
  {
    assert p == p[..|p| - 1] + [p[|p| - 1]];
  }

  lemma CleanIsNormal(p: Path)
    requires IsPath(p)
    ensures Normal(Fold([], p))
    ensures Clean(p) == [CurDir] || (Clean(p) != [] && Normal(Clean(p)))
  {
    FoldNormal([], p);
  }

  lemma CleanIdempotent(p: Path)
    requires IsPath(p)
    ensures Clean(Clean(p)) == Clean(p)
  {
    CleanIsNormal(p);
    NormalIsFixed(Fold([], p));
  }

  lemma FoldDropDot(out: Path, q: Path)
    ensures Fold(out, DropDot(q)) == Fold(out, q)
  {
    if q != [] && q[0] == CurDir {
      assert q == [CurDir] + q[1..];
      FoldConcat(out, [CurDir], q[1..]);
    }
  }

  lemma FoldJoin(p: Path, q: Path)
    requires !Absolute(q)
    ensures Fold([], Join(p, q)) == Fold(Fold([], p), q)
  {
    if p != [] {
      FoldConcat([], p, DropDot(q));
      FoldDropDot(Fold([], p), q);
    }
  }

  /** Cleaning the first part first changes nothing: clean(p/q) = clean(clean(p)/q) for relative q. */
  lemma CleanJoin(p: Path, q: Path)
    requires IsPath(p) && !Absolute(q)
    ensures Clean(Join(p, q)) == Clean(Join(Clean(p), q))
  {
    FoldJoin(p, q);
    FoldJoin(Clean(p), q);
    CleanIsNormal(p);
    NormalIsFixed(Fold([], p));
  }

  // ---- relative paths ----

  /** Length of the longest ancestor of `base` that is a prefix of `path`; an absolute path's last ancestor is the root. */
  function CommonPrefix(path: Path, base: Path, k: nat): Option<nat>
    requires k <= |base|
    ensures var r := CommonPrefix(path, base, k); r.Some? ==> r.value <= k && base[..r.value] <= path
  {
    if base[..k] <= path then Some(k)
    else if k == 0 || (k == 1 && Absolute(base)) then None
    else CommonPrefix(path, base, k - 1)
  }

  function Ups(n: nat): (p: Path)
    ensures |p| == n && forall i | 0 <= i < n :: p[i] == ParentDir
  {
    seq(n, _ => ParentDir)
  }

  /** `relative_to`: `None` when the paths have no common ancestor. */
  function RelativeTo(path: Path, base: Path): Option<Path> {
    match CommonPrefix(path, base, |base|)
    case None => None
    case Some(k) => Some(Join(Ups(|base| - k), path[k..]))
  }

  /** The prefix taken is the longest one: no longer prefix of the base is a prefix of the path. */
  lemma {:induction false} CommonPrefixIsLongest(path: Path, base: Path, k: nat, j: nat)
    requires j <= k <= |base| && base[..j] <= path && CommonPrefix(path, base, k).Some?
    ensures j <= CommonPrefix(path, base, k).value
  {
    if !(base[..k] <= path) {
      CommonPrefixIsLongest(path, base, k - 1, j);
    }
  }

  /** There is no relative path exactly from an absolute base to a relative path. */
  lemma RelativeFailsIff(path: Path, base: Path)
    ensures RelativeTo(path, base).None? <==> Absolute(base) && !Absolute(path)
  {
    if base != [] {
      assert base[..1] == [base[0]];
      CommonPrefixExists(path, base, |base|);
    }
  }

  lemma {:induction false} CommonPrefixExists(path: Path, base: Path, k: nat)
    requires k <= |base| && (k == 0 ==> !Absolute(base))
    ensures CommonPrefix(path, base, k).None? <==> Absolute(base) && !Absolute(path)
  {
    if base[..k] <= path {
      if Absolute(base) {
        assert base[..k][0] == path[0];
      }
    } else if k > 0 && !(k == 1 && Absolute(base)) {
      CommonPrefixExists(path, base, k - 1);
    } else {
      assert base[..k] == [RootDir];
      assert path != [] ==> path[..1] == [path[0]];
    }
  }

  predicate AllNames(p: Path) {
    forall i | 0 <= i < |p| :: p[i].Name?
  }

  // ---- climbing ----

  /** Names count up, `..` counts down. */
  function Unit(c: Component): int {
    match c case Name(_) => 1 case ParentDir => -1 case _ => 0
  }

  function Level(p: Path): int {
    if p == [] then 0 else Level(p[..|p| - 1]) + Unit(p[|p| - 1])
  }

  function Climb(p: Path, n: nat): Path {
    if n == 0 then p else Push(Climb(p, n - 1), ParentDir)
  }

  lemma {:induction false} FoldUps(p: Path, n: nat)
    ensures Fold(p, Ups(n)) == Climb(p, n)
  {
    if n > 0 {
      assert Ups(n)[..n - 1] == Ups(n - 1);
      FoldUps(p, n - 1);
    }
  }

  lemma {:induction false} ClimbMore(p: Path, m: nat, n: nat)
    ensures Climb(Climb(p, m), n) == Climb(p, m + n)
  {
    if n > 0 {
      ClimbMore(p, m, n - 1);
    }
  }

  lemma {:induction false} LevelOfNames(p: Path)
    requires Normal(p) && Absolute(p)
    ensures Level(p) == |p| - 1
  {
    if |p| > 1 {
      assert p[..|p| - 1][0] == RootDir;
      LevelOfNames(p[..|p| - 1]);
      assert p[|p| - 1].Name?;
    } else {
      assert p[..0] == [];
    }
  }

  lemma PushUp(p: Path)
    requires Normal(p)
    ensures var q := Push(p, ParentDir);
      && Normal(q) && Absolute(q) == Absolute(p)
      && Level(q) == (if p == [RootDir] then 0 else Level(p) - 1)
  {
    var q := Push(p, ParentDir);
    if p != [] && p[|p| - 1] == RootDir {
      assert p == [RootDir] && p[..0] == [];
    } else if |q| == |p| + 1 {
      assert q[..|p|] == p;
    }
  }

  /** Climbing lowers the level by one each time, and stops at a root. */
  lemma {:induction false} ClimbLevel(p: Path, n: nat)
    requires Normal(p)
    ensures var q := Climb(p, n);
      && Normal(q) && Absolute(q) == Absolute(p)
      && Level(q) == (if Absolute(p) && n > Level(p) then 0 else Level(p) - n)
      && (Absolute(p) && n >= Level(p) ==> q == [RootDir])
  {
    if Absolute(p) {
      LevelOfNames(p);
    }
    if n > 0 {
      ClimbLevel(p, n - 1);
      var q := Climb(p, n - 1);
      PushUp(q);
      if Absolute(p) {
        LevelOfNames(q);
        LevelOfNames(Climb(p, n));
      }
    } else if Absolute(p) && Level(p) <= 0 {
      assert p == [RootDir];
    }
  }

  /** Two climbs from one place agree exactly when they have one length or both reach the root. */
  lemma ClimbsAgree(p: Path, m: nat, n: nat)
    requires Normal(p)
    ensures Climb(p, m + n) == Climb(p, n) <==> m == 0 || (Absolute(p) && n >= Level(p))
  {
    if Absolute(p) && n >= Level(p) {
      ClimbLevel(p, m + n);
      ClimbLevel(p, n);
    } else if m > 0 {
      FartherIsLower(p, m, n);
    }
  }

  lemma FartherIsLower(p: Path, m: nat, n: nat)
    requires Normal(p) && m > 0 && !(Absolute(p) && n >= Level(p))
    ensures Level(Climb(p, m + n)) < Level(Climb(p, n))
  {
    ClimbedLevel(p, m + n);
    ClimbedLevel(p, n);
  }

  lemma ClimbedLevel(p: Path, n: nat)
    requires Normal(p)
    ensures Level(Climb(p, n)) == if Absolute(p) && n > Level(p) then 0 else Level(p) - n
  {
    ClimbLevel(p, n);
  }

  // ---- a normal relative path: climb, then descend ----

  function Leading(p: Path): (n: nat)
    ensures n <= |p| && (forall i | 0 <= i < n :: p[i] == ParentDir) && (n < |p| ==> p[n] != ParentDir)
  {
    if p == [] || p[0] != ParentDir then 0 else 1 + Leading(p[1..])
  }

  lemma LeadingNames(p: Path)
    requires Normal(p) && !Absolute(p)
    ensures AllNames(p[Leading(p)..])
  {
    var n := Leading(p);
    forall i | 0 <= i < |p[n..]| ensures p[n..][i].Name? {
      assert p[n..][i] == p[n + i];
      assert p[n] != ParentDir;
    }
  }

  lemma LeadingSplit(p: Path)
    requires Normal(p) && !Absolute(p)
    ensures p[..Leading(p)] == Ups(Leading(p))
  {
  }

  lemma {:induction false} FoldNames(p: Path, names: Path)
    requires AllNames(names)
    ensures Fold(p, names) == p + names
  {
    if names == [] {
      assert p + names == p;
    } else {
      FoldNames(p, names[..|names| - 1]);
      assert names == names[..|names| - 1] + [names[|names| - 1]];
    }
  }

  lemma FoldNormalTail(p: Path, q: Path)
    requires Normal(q) && !Absolute(q)
    ensures Fold(p, q) == Climb(p, Leading(q)) + q[Leading(q)..]
  {
    LeadingSplit(q);
    LeadingNames(q);
    assert q[..Leading(q)] + q[Leading(q)..] == q;
    FoldConcat(p, q[..Leading(q)], q[Leading(q)..]);
    FoldUps(p, Leading(q));
    FoldNames(Climb(p, Leading(q)), q[Leading(q)..]);
  }

  /** Only the normal form of a relative path matters to what it is folded onto. */
  lemma {:induction false} FoldRelative(p: Path, q: Path)
    requires Normal(p) && IsPath(q) && !Absolute(q)
    ensures Fold(p, q) == Fold(p, Fold([], q))
  {
    if q != [] {
      var init, c := q[..|q| - 1], q[|q| - 1];
      FoldRelative(p, init);
      FoldNormal([], init);
      FoldRelativeNotAbsolute(init);
      PushOnRelative(p, Fold([], init), c);
    }
  }

  lemma NamesSnoc(p: Path, c: Component)
    ensures AllNames(p + [c]) <==> AllNames(p) && c.Name?
  {
    assert (p + [c])[|p|] == c;
    assert forall i | 0 <= i < |p| :: (p + [c])[i] == p[i];
  }

  lemma {:induction false} FoldRelativeNotAbsolute(q: Path)
    requires IsPath(q) && !Absolute(q)
    ensures !Absolute(Fold([], q))
  {
    if q != [] {
      var init, c := q[..|q| - 1], q[|q| - 1];
      FoldRelativeNotAbsolute(init);
      FoldNormal([], init);
    }
  }

  lemma PushOnRelative(p: Path, r: Path, c: Component)
    requires Normal(p) && Normal(r) && !Absolute(r) && c != RootDir
    ensures Push(Fold(p, r), c) == Fold(p, Push(r, c))
  {
    if c == ParentDir && r != [] && r[|r| - 1].Name? {
    } else if c == ParentDir {
      assert (r + [ParentDir])[..|r|] == r;
    } else if c != CurDir {
      assert (r + [c])[..|r|] == r;
    }
  }

  // ---- the round trip ----

  /** Climbing back over `below` ends where it started, this many levels too high: one per dot, two per `..`. */
  function Excess(below: Path): (n: nat)
    ensures n == |below| - Level(below)
  {
    if below == [] then 0 else Excess(below[..|below| - 1]) + 1 - Unit(below[|below| - 1])
  }

  lemma {:induction false} ExcessCountsNonNames(below: Path)
    ensures Excess(below) == 0 <==> AllNames(below)
  {
    if below != [] {
      var init, c := below[..|below| - 1], below[|below| - 1];
      ExcessCountsNonNames(init);
      assert below == init + [c];
      NamesSnoc(init, c);
    }
  }

  lemma ClimbOverName(p: Path, c: Component, n: nat)
    requires c.Name? && n > 0
    ensures Climb(p + [c], n) == Climb(p, n - 1)
  {
    ClimbMore(p + [c], 1, n - 1);
    assert Climb(p + [c], 0) == p + [c];
    assert (p + [c])[..|p|] == p;
  }

  lemma ClimbOverUp(p: Path, n: nat)
    ensures Climb(Push(p, ParentDir), n) == Climb(p, n + 1)
  {
    ClimbMore(p, 1, n);
    assert Climb(p, 0) == p;
  }

  /** Each name costs one step back; each `..` has already taken one. */
  lemma {:induction false} ClimbBack(p: Path, below: Path, n: nat)
    requires RootDir !in below && n >= |below| && n >= Level(below)
    ensures Climb(Fold(p, below), n) == Climb(p, n - Level(below))
  {
    if below != [] {
      var init, c := below[..|below| - 1], below[|below| - 1];
      ExcessCountsNonNames(init);
      ClimbOverOne(Fold(p, init), c, n);
      ClimbBack(p, init, n - Unit(c));
    }
  }

  lemma ClimbOverOne(p: Path, c: Component, n: nat)
    requires c != RootDir && n > 0
    ensures Climb(Push(p, c), n) == Climb(p, n - Unit(c))
  {
    if c.Name? {
      ClimbOverName(p, c, n);
    } else if c == ParentDir {
      ClimbOverUp(p, n);
    }
  }

  lemma BackOver(p: Path, below: Path)
    requires RootDir !in below
    ensures Fold(Fold(p, below), Ups(|below|)) == Climb(p, Excess(below))
  {
    FoldUps(Fold(p, below), |below|);
    assert |below| - Level(below) == Excess(below);
    ClimbBack(p, below, |below|);
  }

  /** The tail of the path climbs at least up to the root of the common prefix. */
  predicate ClimbsToRoot(prefix: Path, tail: Path) {
    Absolute(prefix) && Leading(Fold([], tail)) >= Level(Fold([], prefix))
  }

  lemma ExtraClimbsNormal(p: Path, n: nat, r: Path)
    requires Normal(p) && Normal(r) && !Absolute(r)
    ensures Fold(Climb(p, n), r) == Fold(p, r) <==> n == 0 || (Absolute(p) && Leading(r) >= Level(p))
  {
    var u, names := Leading(r), r[Leading(r)..];
    FoldNormalTail(Climb(p, n), r);
    FoldNormalTail(p, r);
    ClimbMore(p, n, u);
    ClimbsAgree(p, n, u);
    SameTail(Climb(p, n + u), Climb(p, u), names);
  }

  /** Climbing `n` levels more before following `tail` makes no difference exactly in two cases. */
  lemma ExtraClimbs(prefix: Path, n: nat, tail: Path)
    requires IsPath(prefix) && IsPath(tail) && !Absolute(tail)
    ensures Fold(Climb(Fold([], prefix), n), tail) == Fold(Fold([], prefix), tail)
       <==> n == 0 || ClimbsToRoot(prefix, tail)
  {
    var p, r := Fold([], prefix), Fold([], tail);
    FoldNormal([], prefix);
    FoldAbsolute(prefix);
    FoldNormal([], tail);
    FoldRelativeNotAbsolute(tail);
    ClimbLevel(p, n);
    FoldRelative(Climb(p, n), tail);
    FoldRelative(p, tail);
    ExtraClimbsNormal(p, n, r);
  }

  lemma SameTail(a: Path, b: Path, t: Path)
    ensures a + t == b + t <==> a == b
  {
    if a + t == b + t {
      assert |a| == |b|;
      assert (a + t)[..|a|] == a && (b + t)[..|b|] == b;
    }
  }

  lemma {:induction false} FoldAbsolute(p: Path)
    requires IsPath(p)
    ensures Absolute(Fold([], p)) == Absolute(p)
  {
    if Absolute(p) {
      assert p == [RootDir] + p[1..];
      FoldConcat([], [RootDir], p[1..]);
      assert [RootDir][..0] == [];
      assert Fold([], [RootDir]) == [RootDir];
      assert forall i | 0 <= i < |p[1..]| :: p[1..][i] == p[i + 1];
      FoldNormal([RootDir], p[1..]);
    } else {
      FoldRelativeNotAbsolute(p);
    }
  }

  lemma RelativePart(path: Path, base: Path)
    requires RelativeTo(path, base).Some?
    ensures var k := CommonPrefix(path, base, |base|).value;
      k <= |base| && k <= |path| && base[..k] == path[..k] && (k == 0 ==> !Absolute(base))
  {
    CommonKeepsRoot(path, base, |base|);
  }

  lemma {:induction false} CommonKeepsRoot(path: Path, base: Path, k: nat)
    requires k <= |base| && (k == 0 ==> !Absolute(base))
    ensures var r := CommonPrefix(path, base, k); r.Some? && r.value == 0 ==> !Absolute(base)
  {
    if !(base[..k] <= path) && k > 0 && !(k == 1 && Absolute(base)) {
      CommonKeepsRoot(path, base, k - 1);
    }
  }

  /** Folding the joined path: prefix, back over the rest of the base, then the tail. */
  lemma JoinedFold(base: Path, k: nat, tail: Path)
    requires k <= |base| && !Absolute(tail) && IsPath(base)
    ensures Fold([], Join(base, Join(Ups(|base| - k), tail)))
         == Fold(Fold(Fold([], base), Ups(|base| - k)), tail)
  {
    var up := Ups(|base| - k);
    var rel := Join(up, tail);
    assert !Absolute(rel);
    FoldJoin(base, rel);
    if up == [] {
      assert Fold(Fold([], base), up) == Fold([], base);
    } else {
      FoldConcat(Fold([], base), up, DropDot(tail));
      FoldDropDot(Fold(Fold([], base), up), tail);
    }
  }

  lemma CleanAgrees(p: Path, q: Path)
    requires IsPath(p) && IsPath(q)
    ensures Clean(p) == Clean(q) <==> Fold([], p) == Fold([], q)
  {
    CleanIsNormal(p);
    CleanIsNormal(q);
    var dot: Path := [CurDir];
    assert dot[0] == CurDir && !Normal(dot);
  }

  /** The cleaned join, for a common prefix `prefix` with a relative rest. */
  lemma RoundTripFold(prefix: Path, below: Path, tail: Path)
    requires IsPath(prefix) && IsPath(below) && !Absolute(below) && IsPath(tail) && !Absolute(tail)
    ensures Fold(Fold(Fold(Fold([], prefix), below), Ups(|below|)), tail) == Fold(Fold([], prefix), tail)
       <==> AllNames(below) || ClimbsToRoot(prefix, tail)
  {
    ExcessCountsNonNames(below);
    BackOver(Fold([], prefix), below);
    ExtraClimbs(prefix, Excess(below), tail);
  }

  lemma FoldSplit(p: Path, k: nat)
    requires k <= |p|
    ensures Fold([], p) == Fold(Fold([], p[..k]), p[k..])
  {
    assert p[..k] + p[k..] == p;
    FoldConcat([], p[..k], p[k..]);
  }

  lemma RoundTripRelative(path: Path, base: Path, k: nat)
    requires IsPath(path) && IsPath(base) && k <= |base| && k <= |path| && base[..k] == path[..k]
    requires !Absolute(path[k..]) && !Absolute(base[k..])
    ensures Clean(Join(base, Join(Ups(|base| - k), path[k..]))) == Clean(path)
       <==> AllNames(base[k..]) || ClimbsToRoot(path[..k], path[k..])
  {
    SliceIsPath(base, k);
    SliceIsPath(path, k);
    FoldSplit(path, k);
    JoinedFoldSplit(base, k, path[k..]);
    RoundTripFold(path[..k], base[k..], path[k..]);
    JoinedCleanIff(base, k, path[k..], path);
  }

  lemma SliceIsPath(p: Path, k: nat)
    requires IsPath(p) && k <= |p|
    ensures IsPath(p[..k]) && IsPath(p[k..])
  {
  }

  lemma JoinedFoldSplit(base: Path, k: nat, tail: Path)
    requires k <= |base| && !Absolute(tail) && IsPath(base)
    ensures Fold([], Join(base, Join(Ups(|base| - k), tail)))
         == Fold(Fold(Fold(Fold([], base[..k]), base[k..]), Ups(|base[k..]|)), tail)
  {
    JoinedFold(base, k, tail);
    FoldSplit(base, k);
  }

  lemma JoinedCleanIff(base: Path, k: nat, tail: Path, path: Path)
    requires IsPath(base) && IsPath(tail) && !Absolute(tail) && k <= |base| && IsPath(path)
    ensures var joined := Join(base, Join(Ups(|base| - k), tail));
      Clean(joined) == Clean(path) <==> Fold([], joined) == Fold([], path)
  {
    JoinIsPath(base, k, tail);
    CleanAgrees(Join(base, Join(Ups(|base| - k), tail)), path);
  }

  /**
    Following the relative path from the base leads to the path, if and only if the base goes on below the
    common prefix with ordinary names, or the path is absolute and the base is not, or the rest of the path
    climbs to the root anyway.
   */
  lemma RelativeRoundTripIff(path: Path, base: Path)
    requires IsPath(path) && IsPath(base) && RelativeTo(path, base).Some?
    ensures var k := CommonPrefix(path, base, |base|).value;
      Clean(Join(base, RelativeTo(path, base).value)) == Clean(path)
      <==> || AllNames(base[k..])
           || (Absolute(path) && !Absolute(base))
           || ClimbsToRoot(path[..k], path[k..])
  {
    RelativePart(path, base);
    var k := CommonPrefix(path, base, |base|).value;
    if Absolute(path[k..]) {
      assert k == 0 && path[0..] == path;
    } else {
      RoundTripRelative(path, base, k);
    }
  }

  lemma JoinIsPath(base: Path, k: nat, tail: Path)
    requires IsPath(base) && IsPath(tail) && !Absolute(tail) && k <= |base|
    ensures IsPath(Join(base, Join(Ups(|base| - k), tail)))
  {
    var rel := Join(Ups(|base| - k), tail);
    assert IsPath(rel) && !Absolute(rel);
  }

  /** Relative to `a/..`, the path `x` is `../../x`, which leads to `../x`. */
  lemma LeadsElsewhereExample()
    ensures var path, base := [Name("x")], [Name("a"), ParentDir];
      && RelativeTo(path, base) == Some([ParentDir, ParentDir, Name("x")])
      && Clean(Join(base, RelativeTo(path, base).value)) != Clean(path)
  {
    var path, base := [Name("x")], [Name("a"), ParentDir];
    assert base[..2] == base && base[..1] == [Name("a")] && base[..0] == [];
    assert base[0].name[0] == 'a' && path[0].name[0] == 'x';
    assert CommonPrefix(path, base, 1) == CommonPrefix(path, base, 0) == Some(0);
    assert path[0..] == path && DropDot(path) == path;
    assert Ups(2) + path == [ParentDir, ParentDir, Name("x")];
    assert !base[1].Name?;
    RelativeRoundTripIff(path, base);
  }
}
