/** The order in which projects are listed: deeper first, then by path. */
module PathOrder {
  type Path = seq<string>

  /** Lexicographic order on names, as on their bytes. */
  predicate NameLeq(a: string, b: string) {
    a == [] || (b != [] && (a[0] < b[0] || (a[0] == b[0] && NameLeq(a[1..], b[1..]))))
  }

  lemma NotPrefix<T>(a: seq<T>, b: seq<T>)
    requires a != [] && b != [] && a[0] != b[0]
    ensures !(a <= b)
  {
  }

  lemma PrefixBelow<T>(a: seq<T>, b: seq<T>)
    requires a != [] && b != [] && a[0] == b[0]
    ensures a[1..] <= b[1..] <==> a <= b
  {
    assert a == [a[0]] + a[1..] && b == [b[0]] + b[1..];
  }

  predicate LessAt(a: string, b: string, k: nat) {
    k < |a| && k < |b| && a[..k] == b[..k] && a[k] < b[k]
  }

  lemma LessBelow(a: string, b: string, k: nat)
    requires a != [] && b != [] && a[0] == b[0]
    ensures LessAt(a, b, k + 1) <==> LessAt(a[1..], b[1..], k)
  {
    if k < |a| - 1 && k < |b| - 1 {
      assert a[..k + 1] == [a[0]] + a[1..][..k] && b[..k + 1] == [b[0]] + b[1..][..k];
      assert a[..k + 1][1..] == a[1..][..k] && b[..k + 1][1..] == b[1..][..k];
    }
  }

  /** A name comes before another if it is a prefix of it, or smaller at the first character where they differ. */
  lemma {:induction false} NameLeqIff(a: string, b: string)
    ensures NameLeq(a, b) <==> a <= b || exists k: nat :: LessAt(a, b, k)
  {
    if a != [] && b != [] {
      if a[0] == b[0] {
        NameLeqIff(a[1..], b[1..]);
        PrefixBelow(a, b);
        if k: nat :| LessAt(a[1..], b[1..], k) {
          LessBelow(a, b, k);
        }
        if k: nat :| LessAt(a, b, k) {
          LessBelow(a, b, k - 1);
        }
      } else {
        NotPrefix(a, b);
        assert LessAt(a, b, 0) <==> a[0] < b[0];
        assert forall k: nat | 0 < k < |a| && k < |b| && a[..k] == b[..k] :: a[..k][0] == b[..k][0];
      }
    }
  }

  lemma {:induction false} NameAntisymmetric(a: string, b: string)
    requires NameLeq(a, b) && NameLeq(b, a)
    ensures a == b
  {
    if a != [] {
      NameAntisymmetric(a[1..], b[1..]);
      assert a == [a[0]] + a[1..] && b == [b[0]] + b[1..];
    }
  }

  lemma {:induction false} NameTransitive(a: string, b: string, c: string)
    requires NameLeq(a, b) && NameLeq(b, c)
    ensures NameLeq(a, c)
  {
    if a != [] && a[0] == b[0] && b[0] == c[0] {
      NameTransitive(a[1..], b[1..], c[1..]);
    }
  }

  lemma {:induction false} NameTotal(a: string, b: string)
    ensures NameLeq(a, b) || NameLeq(b, a)
  {
    if a != [] && b != [] && a[0] == b[0] {
      NameTotal(a[1..], b[1..]);
    }
  }

  /** Lexicographic order on components. */
  predicate PathLeq(a: Path, b: Path) {
    a == [] || (b != [] && ((a[0] != b[0] && NameLeq(a[0], b[0])) || (a[0] == b[0] && PathLeq(a[1..], b[1..]))))
  }

  predicate SmallerAt(a: Path, b: Path, k: nat) {
    k < |a| && k < |b| && a[..k] == b[..k] && a[k] != b[k] && NameLeq(a[k], b[k])
  }

  lemma SmallerBelow(a: Path, b: Path, k: nat)
    requires a != [] && b != [] && a[0] == b[0]
    ensures SmallerAt(a, b, k + 1) <==> SmallerAt(a[1..], b[1..], k)
  {
    if k < |a| - 1 && k < |b| - 1 {
      assert a[..k + 1] == [a[0]] + a[1..][..k] && b[..k + 1] == [b[0]] + b[1..][..k];
      assert a[..k + 1][1..] == a[1..][..k] && b[..k + 1][1..] == b[1..][..k];
    }
  }

  /** Paths are compared at the first component where they differ. */
  lemma {:induction false} PathLeqIff(a: Path, b: Path)
    ensures PathLeq(a, b) <==> a <= b || exists k: nat :: SmallerAt(a, b, k)
  {
    if a != [] && b != [] {
      if a[0] == b[0] {
        PathLeqIff(a[1..], b[1..]);
        PrefixBelow(a, b);
        if k: nat :| SmallerAt(a[1..], b[1..], k) {
          SmallerBelow(a, b, k);
        }
        if k: nat :| SmallerAt(a, b, k) {
          SmallerBelow(a, b, k - 1);
        }
      } else {
        NotPrefix(a, b);
        assert SmallerAt(a, b, 0) <==> NameLeq(a[0], b[0]);
        assert forall k: nat | 0 < k < |a| && k < |b| && a[..k] == b[..k] :: a[..k][0] == b[..k][0];
      }
    }
  }

  lemma {:induction false} PathAntisymmetric(a: Path, b: Path)
    requires PathLeq(a, b) && PathLeq(b, a)
    ensures a == b
  {
    if a != [] {
      if a[0] != b[0] {
        NameAntisymmetric(a[0], b[0]);
      }
      PathAntisymmetric(a[1..], b[1..]);
      assert a == [a[0]] + a[1..] && b == [b[0]] + b[1..];
    }
  }

  lemma {:induction false} PathTransitive(a: Path, b: Path, c: Path)
    requires PathLeq(a, b) && PathLeq(b, c)
    ensures PathLeq(a, c)
  {
    if a != [] {
      if a[0] == b[0] && b[0] == c[0] {
        PathTransitive(a[1..], b[1..], c[1..]);
      } else if a[0] != b[0] && b[0] != c[0] {
        NameTransitive(a[0], b[0], c[0]);
        if a[0] == c[0] {
          NameAntisymmetric(a[0], b[0]);
        }
      }
    }
  }

  lemma {:induction false} PathTotal(a: Path, b: Path)
    ensures PathLeq(a, b) || PathLeq(b, a)
  {
    if a != [] && b != [] {
      if a[0] == b[0] {
        PathTotal(a[1..], b[1..]);
      } else {
        NameTotal(a[0], b[0]);
      }
    }
  }

  /** The comparison of `sort_and_index_projects`. */
  predicate Before(a: Path, b: Path) {
    |a| > |b| || (|a| == |b| && PathLeq(a, b))
  }

  lemma BeforeIsTotalOrder(a: Path, b: Path, c: Path)
    ensures Before(a, b) || Before(b, a)
    ensures Before(a, b) && Before(b, a) ==> a == b
    ensures Before(a, b) && Before(b, c) ==> Before(a, c)
  {
    PathTotal(a, b);
    if Before(a, b) && Before(b, a) {
      PathAntisymmetric(a, b);
    }
    if Before(a, b) && Before(b, c) && |a| == |b| == |c| {
      PathTransitive(a, b, c);
    }
  }
}
