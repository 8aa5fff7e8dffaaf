/**
  Spreading language tests over CI jobs: as few groups as the size cap allows, the longest test first, each
  into the lightest group with room.
 */
module CiMatrix {

  /** A language is its place in the table; `d` below gives every language's duration. */
  type Language = nat

  type Groups = seq<seq<Language>>

  predicate InTable(d: seq<nat>, languages: seq<Language>) {
    forall i | 0 <= i < |languages| :: languages[i] < |d|
  }

  // ---- sorting ----

  /** The order of placement: longer first, ties in table order. */
  predicate LongerFirst(d: seq<nat>, a: Language, b: Language)
    requires a < |d| && b < |d|
  {
    d[a] > d[b] || (d[a] == d[b] && a <= b)
  }

  predicate Descending(d: seq<nat>, s: seq<Language>) {
    InTable(d, s) && forall i, j | 0 <= i < j < |s| :: LongerFirst(d, s[i], s[j])
  }

  predicate InTableOrder(s: seq<Language>) {
    forall i, j | 0 <= i < j < |s| :: s[i] <= s[j]
  }

  function InsertLonger(d: seq<nat>, x: Language, s: seq<Language>): (r: seq<Language>)
    requires InTable(d, s) && x < |d|
    ensures InTable(d, r) && multiset(r) == multiset(s) + multiset{x}
  {
    if s == [] || LongerFirst(d, x, s[0]) then [x] + s
    else
      assert s == [s[0]] + s[1..];
      [s[0]] + InsertLonger(d, x, s[1..])
  }

  function SortLonger(d: seq<nat>, s: seq<Language>): (r: seq<Language>)
    requires InTable(d, s)
    ensures InTable(d, r) && multiset(r) == multiset(s)
  {
    if s == [] then []
    else
      assert s == [s[0]] + s[1..];
      InsertLonger(d, s[0], SortLonger(d, s[1..]))
  }

  function InsertOrder(x: Language, s: seq<Language>): seq<Language> {
    if s == [] || x <= s[0] then [x] + s else [s[0]] + InsertOrder(x, s[1..])
  }

  function SortOrder(s: seq<Language>): seq<Language> {
    if s == [] then [] else InsertOrder(s[0], SortOrder(s[1..]))
  }

  lemma {:induction false} InsertOrderElements(x: Language, s: seq<Language>)
    ensures multiset(InsertOrder(x, s)) == multiset(s) + multiset{x}
  {
    if s != [] && x > s[0] {
      InsertOrderElements(x, s[1..]);
      assert s == [s[0]] + s[1..];
    }
  }

  lemma {:induction false} SortOrderElements(s: seq<Language>)
    ensures multiset(SortOrder(s)) == multiset(s)
  {
    if s != [] {
      SortOrderElements(s[1..]);
      InsertOrderElements(s[0], SortOrder(s[1..]));
      assert s == [s[0]] + s[1..];
    }
  }

  lemma {:induction false} InsertLongerSorted(d: seq<nat>, x: Language, s: seq<Language>)
    requires Descending(d, s) && x < |d|
    ensures Descending(d, InsertLonger(d, x, s))
  {
    if s != [] && !LongerFirst(d, x, s[0]) {
      InsertLongerSorted(d, x, s[1..]);
      var r := InsertLonger(d, x, s[1..]);
      forall j | 0 <= j < |r| ensures LongerFirst(d, s[0], r[j]) {
        assert r[j] in multiset(r);
        assert r[j] == x || r[j] in s[1..];
      }
    }
  }

  lemma {:induction false} SortLongerSorted(d: seq<nat>, s: seq<Language>)
    requires InTable(d, s)
    ensures Descending(d, SortLonger(d, s))
  {
    if s != [] {
      SortLongerSorted(d, s[1..]);
      InsertLongerSorted(d, s[0], SortLonger(d, s[1..]));
    }
  }

  lemma {:induction false} InsertOrderSorted(x: Language, s: seq<Language>)
    requires InTableOrder(s)
    ensures InTableOrder(InsertOrder(x, s))
  {
    if s != [] && x > s[0] {
      InsertOrderSorted(x, s[1..]);
      InsertOrderElements(x, s[1..]);
      var r := InsertOrder(x, s[1..]);
      forall j | 0 <= j < |r| ensures s[0] <= r[j] {
        assert r[j] in multiset(r);
        assert r[j] == x || r[j] in s[1..];
      }
    }
  }

  lemma {:induction false} SortOrderSorted(s: seq<Language>)
    ensures InTableOrder(SortOrder(s))
  {
    if s != [] {
      SortOrderSorted(s[1..]);
      InsertOrderSorted(s[0], SortOrder(s[1..]));
    }
  }

  // ---- loads ----

  function Load(d: seq<nat>, group: seq<Language>): nat
    requires InTable(d, group)
  {
    if group == [] then 0 else d[group[0]] + Load(d, group[1..])
  }

  lemma {:induction false} LoadAppend(d: seq<nat>, group: seq<Language>, x: Language)
    requires InTable(d, group) && x < |d|
    ensures InTable(d, group + [x]) && Load(d, group + [x]) == Load(d, group) + d[x]
  {
    if group != [] {
      LoadAppend(d, group[1..], x);
      assert (group + [x])[1..] == group[1..] + [x];
    }
  }

  lemma {:induction false} LoadInsert(d: seq<nat>, x: Language, s: seq<Language>)
    requires InTable(d, s) && x < |d|
    ensures InTable(d, InsertOrder(x, s)) && Load(d, InsertOrder(x, s)) == d[x] + Load(d, s)
  {
    if s == [] || x <= s[0] {
      assert ([x] + s)[1..] == s;
    } else {
      LoadInsert(d, x, s[1..]);
      assert InsertOrder(x, s)[1..] == InsertOrder(x, s[1..]);
    }
  }

  lemma {:induction false} LoadSorted(d: seq<nat>, s: seq<Language>)
    requires InTable(d, s)
    ensures InTable(d, SortOrder(s)) && Load(d, SortOrder(s)) == Load(d, s)
  {
    if s != [] {
      LoadSorted(d, s[1..]);
      LoadInsert(d, s[0], SortOrder(s[1..]));
    }
  }

  // ---- groups ----

  predicate GroupsInTable(d: seq<nat>, groups: Groups) {
    forall i | 0 <= i < |groups| :: InTable(d, groups[i])
  }

  function Flatten(groups: Groups): seq<Language> {
    if groups == [] then [] else groups[0] + Flatten(groups[1..])
  }

  lemma {:induction false} FlattenAppend(groups: Groups, i: nat, x: Language)
    requires i < |groups|
    ensures multiset(Flatten(groups[i := groups[i] + [x]])) == multiset(Flatten(groups)) + multiset{x}
  {
    var after := groups[i := groups[i] + [x]];
    if i == 0 {
      assert after[1..] == groups[1..];
    } else {
      FlattenAppend(groups[1..], i - 1, x);
      assert after[1..] == groups[1..][i - 1 := groups[1..][i - 1] + [x]];
    }
  }

  lemma {:induction false} FlattenSize(groups: Groups, size: nat)
    ensures (forall i | 0 <= i < |groups| :: |groups[i]| >= size) ==> |Flatten(groups)| >= |groups| * size
    ensures (forall i | 0 <= i < |groups| :: |groups[i]| <= size) ==> |Flatten(groups)| <= |groups| * size
  {
    if groups != [] {
      FlattenSize(groups[1..], size);
      assert forall i | 0 <= i < |groups[1..]| :: groups[1..][i] == groups[i + 1];
      assert |groups| * size == size + |groups[1..]| * size;
    }
  }

  lemma MultisetSize(a: seq<Language>, b: seq<Language>)
    requires multiset(a) == multiset(b)
    ensures |a| == |b|
  {
    assert |a| == |multiset(a)| && |b| == |multiset(b)|;
  }

  /** The first key of `min`: load, then size, then place. */
  predicate Before(d: seq<nat>, groups: Groups, i: nat, j: nat)
    requires i < |groups| && j < |groups| && GroupsInTable(d, groups)
  {
    var (li, lj, si, sj) := (Load(d, groups[i]), Load(d, groups[j]), |groups[i]|, |groups[j]|);
    li < lj || (li == lj && (si < sj || (si == sj && i <= j)))
  }

  predicate IsLightest(d: seq<nat>, groups: Groups, size: nat, i: nat)
    requires GroupsInTable(d, groups)
  {
    && i < |groups| && |groups[i]| < size
    && forall j | 0 <= j < |groups| && |groups[j]| < size :: Before(d, groups, i, j)
  }

  /** What placing keeps, the tests placed so far being `placed`, all as long as those to come. */
  ghost predicate Spread(d: seq<nat>, size: nat, groups: Groups, placed: seq<Language>) {
    && GroupsInTable(d, groups)
    && multiset(Flatten(groups)) == multiset(placed)
    && (forall g | 0 <= g < |groups| :: |groups[g]| <= size)
    && (forall g | 0 <= g < |groups| :: forall x | x in groups[g] :: x in placed)
    && (forall g, h | 0 <= g < |groups| && 0 <= h < |groups| && |groups[g]| >= 2 :: groups[h] != [])
    && Balanced(d, size, groups)
  }

  /** Without any one of its tests, no group is heavier than a group with room. */
  ghost predicate Balanced(d: seq<nat>, size: nat, groups: Groups)
    requires GroupsInTable(d, groups)
  {
    forall g, h | 0 <= g < |groups| && 0 <= h < |groups| && |groups[h]| < size ::
      forall x | x in groups[g] :: Load(d, groups[g]) <= Load(d, groups[h]) + d[x]
  }

  lemma PlaceKeepsBalance(d: seq<nat>, size: nat, groups: Groups, i: nat, x: Language)
    requires GroupsInTable(d, groups) && Balanced(d, size, groups) && IsLightest(d, groups, size, i) && x < |d|
    requires forall y | y in groups[i] :: d[y] >= d[x]
    ensures GroupsInTable(d, groups[i := groups[i] + [x]])
    ensures Balanced(d, size, groups[i := groups[i] + [x]])
  {
    var after := groups[i := groups[i] + [x]];
    LoadAppend(d, groups[i], x);
    forall g, h | 0 <= g < |after| && 0 <= h < |after| && |after[h]| < size
      ensures forall y | y in after[g] :: Load(d, after[g]) <= Load(d, after[h]) + d[y]
    {
      forall y | y in after[g] ensures Load(d, after[g]) <= Load(d, after[h]) + d[y] {
        if g == i {
          assert h != i ==> Before(d, groups, i, h);
          assert y == x || y in groups[i];
        } else {
          assert Load(d, groups[g]) <= Load(d, groups[h]) + d[y];
        }
      }
    }
  }

  lemma PlaceKeepsSpread(d: seq<nat>, size: nat, groups: Groups, placed: seq<Language>, i: nat, x: Language)
    requires Spread(d, size, groups, placed) && IsLightest(d, groups, size, i) && x < |d|
    requires InTable(d, placed) && forall y | y in placed :: d[y] >= d[x]
    ensures Spread(d, size, groups[i := groups[i] + [x]], placed + [x])
  {
    var after := groups[i := groups[i] + [x]];
    FlattenAppend(groups, i, x);
    PlaceKeepsBalance(d, size, groups, i, x);
    PlaceKeepsFilled(d, size, groups, i, x);
  }

  lemma PlaceKeepsFilled(d: seq<nat>, size: nat, groups: Groups, i: nat, x: Language)
    requires GroupsInTable(d, groups) && IsLightest(d, groups, size, i)
    requires forall g, h | 0 <= g < |groups| && 0 <= h < |groups| && |groups[g]| >= 2 :: groups[h] != []
    ensures var after := groups[i := groups[i] + [x]];
      forall g, h | 0 <= g < |after| && 0 <= h < |after| && |after[g]| >= 2 :: after[h] != []
  {
    assert forall h | 0 <= h < |groups| && groups[h] == [] && |groups[h]| < size :: Before(d, groups, i, h);
  }

  /** There is always a group with room: the groups hold fewer than `|groups| * size` tests before the last. */
  lemma SomeRoom(size: nat, groups: Groups, placed: seq<Language>)
    requires multiset(Flatten(groups)) == multiset(placed) && |placed| < |groups| * size
    ensures exists i :: 0 <= i < |groups| && |groups[i]| < size
  {
    MultisetSize(Flatten(groups), placed);
    FlattenSize(groups, size);
  }

  /** `min` over the groups with room. */
  method Lightest(d: seq<nat>, groups: Groups, loads: seq<nat>, size: nat) returns (best: nat)
    requires GroupsInTable(d, groups) && |loads| == |groups|
    requires forall i | 0 <= i < |groups| :: loads[i] == Load(d, groups[i])
    requires exists i :: 0 <= i < |groups| && |groups[i]| < size
    ensures IsLightest(d, groups, size, best)
  {
    best := |groups|;
    for i := 0 to |groups|
      invariant best < |groups| ==> best < i && |groups[best]| < size
      invariant best >= |groups| ==> forall j | 0 <= j < i :: |groups[j]| >= size
      invariant best < |groups| ==> forall j | 0 <= j < i && |groups[j]| < size :: Before(d, groups, best, j)
    {
      if |groups[i]| < size {
        if best >= |groups|
          || loads[i] < loads[best] || (loads[i] == loads[best] && |groups[i]| < |groups[best]|) {
          best := i;
        }
      }
    }
  }

  function GroupCount(n: nat, size: nat): nat
    requires size > 0
  {
    (n + size - 1) / size
  }

  /** Room for all, and no more groups than tests. */
  lemma GroupCountFits(n: nat, size: nat)
    requires size > 0
    ensures n <= GroupCount(n, size) * size && GroupCount(n, size) <= n
  {
    AtMost(n + size - 1, n, size);
  }

  lemma AtMost(a: nat, m: nat, size: nat)
    requires size > 0 && a < m * size + size
    ensures a / size <= m
  {
    if a / size > m {
      TimesMonotone(m + 1, a / size, size);
    }
  }

  lemma {:induction false} TimesMonotone(m: nat, n: nat, size: nat)
    requires m <= n
    ensures m * size <= n * size
  {
    if m < n {
      TimesMonotone(m, n - 1, size);
      assert n * size == (n - 1) * size + size;
    }
  }

  /** What the finished groups are. */
  ghost predicate Grouping(d: seq<nat>, languages: seq<Language>, size: nat, groups: Groups)
    requires size > 0
  {
    && |groups| == GroupCount(|languages|, size)
    && GroupsInTable(d, groups)
    && multiset(Flatten(groups)) == multiset(languages)
    && (forall g | 0 <= g < |groups| :: 0 < |groups[g]| <= size && InTableOrder(groups[g]))
    && Balanced(d, size, groups)
  }

  lemma FilledGroups(d: seq<nat>, size: nat, groups: Groups, placed: seq<Language>)
    requires size > 0 && |groups| == GroupCount(|placed|, size) && Spread(d, size, groups, placed)
    ensures forall g | 0 <= g < |groups| :: groups[g] != []
  {
    GroupCountFits(|placed|, size);
    MultisetSize(Flatten(groups), placed);
    forall g | 0 <= g < |groups| ensures groups[g] != [] {
      if groups[g] == [] {
        OneEach(groups, g);
      }
    }
  }

  lemma {:induction false} OneEach(groups: Groups, empty: nat)
    requires empty < |groups| && groups[empty] == []
    requires forall g | 0 <= g < |groups| :: |groups[g]| <= 1
    ensures |Flatten(groups)| < |groups|
  {
    if empty == 0 {
      FlattenSize(groups[1..], 1);
    } else {
      OneEach(groups[1..], empty - 1);
    }
  }

  lemma {:induction false} FlattenSame(a: Groups, b: Groups)
    requires |a| == |b| && forall i | 0 <= i < |a| :: multiset(a[i]) == multiset(b[i])
    ensures multiset(Flatten(a)) == multiset(Flatten(b))
  {
    if a != [] {
      FlattenSame(a[1..], b[1..]);
    }
  }

  lemma SortedGroup(d: seq<nat>, group: seq<Language>)
    requires InTable(d, group)
    ensures var r := SortOrder(group);
      && InTable(d, r) && Load(d, r) == Load(d, group) && |r| == |group| && InTableOrder(r)
      && multiset(r) == multiset(group)
  {
    LoadSorted(d, group);
    SortOrderElements(group);
    SortOrderSorted(group);
    MultisetSize(SortOrder(group), group);
  }

  lemma SortedBalance(d: seq<nat>, size: nat, groups: Groups, r: Groups)
    requires GroupsInTable(d, groups) && GroupsInTable(d, r) && |r| == |groups| && Balanced(d, size, groups)
    requires forall g | 0 <= g < |groups| :: r[g] == SortOrder(groups[g])
    requires forall g | 0 <= g < |groups| :: Load(d, r[g]) == Load(d, groups[g]) && |r[g]| == |groups[g]|
    ensures Balanced(d, size, r)
  {
    forall g, h | 0 <= g < |r| && 0 <= h < |r| && |r[h]| < size
      ensures forall x | x in r[g] :: Load(d, r[g]) <= Load(d, r[h]) + d[x]
    {
      SortOrderElements(groups[g]);
      forall x | x in r[g] ensures x in groups[g] {
        assert x in multiset(r[g]);
      }
    }
  }

  lemma SortedGroups(d: seq<nat>, languages: seq<Language>, size: nat, groups: Groups, r: Groups)
    requires size > 0 && |groups| == GroupCount(|languages|, size) && GroupsInTable(d, groups)
    requires multiset(Flatten(groups)) == multiset(languages) && Balanced(d, size, groups)
    requires forall g | 0 <= g < |groups| :: 0 < |groups[g]| <= size
    requires |r| == |groups| && forall g | 0 <= g < |groups| :: r[g] == SortOrder(groups[g])
    ensures Grouping(d, languages, size, r)
  {
    forall g | 0 <= g < |groups|
      ensures InTable(d, r[g]) && Load(d, r[g]) == Load(d, groups[g]) && |r[g]| == |groups[g]| && InTableOrder(r[g])
      ensures multiset(r[g]) == multiset(groups[g])
    {
      SortedGroup(d, groups[g]);
    }
    FlattenSame(r, groups);
    SortedBalance(d, size, groups, r);
  }

  ghost predicate LoadsOf(d: seq<nat>, groups: Groups, loads: seq<nat>)
    requires GroupsInTable(d, groups)
  {
    |loads| == |groups| && forall g | 0 <= g < |groups| :: loads[g] == Load(d, groups[g])
  }

  lemma PlaceNext(d: seq<nat>, size: nat, groups: Groups, loads: seq<nat>, order: seq<Language>, i: nat, g: nat)
    requires Descending(d, order) && i < |order| && Spread(d, size, groups, order[..i])
    requires LoadsOf(d, groups, loads) && IsLightest(d, groups, size, g)
    ensures var after := groups[g := groups[g] + [order[i]]];
      Spread(d, size, after, order[..i + 1]) && LoadsOf(d, after, loads[g := loads[g] + d[order[i]]])
  {
    LoadAppend(d, groups[g], order[i]);
    PlaceKeepsSpread(d, size, groups, order[..i], g, order[i]);
    assert order[..i + 1] == order[..i] + [order[i]];
  }

  /** The placing loop of `language_groups`. */
  method Place(d: seq<nat>, order: seq<Language>, size: nat, count: nat) returns (groups: Groups)
    requires Descending(d, order) && |order| <= count * size
    ensures |groups| == count && Spread(d, size, groups, order)
  {
    groups := seq(count, _ => []);
    var loads: seq<nat> := seq(count, _ => 0);
    EmptySpread(d, size, groups);
    for i := 0 to |order|
      invariant |groups| == count && Spread(d, size, groups, order[..i]) && LoadsOf(d, groups, loads)
    {
      SomeRoom(size, groups, order[..i]);
      var g := Lightest(d, groups, loads, size);
      PlaceNext(d, size, groups, loads, order, i, g);
      groups, loads := groups[g := groups[g] + [order[i]]], loads[g := loads[g] + d[order[i]]];
    }
    assert order[..|order|] == order;
  }

  /** The comprehension of the result: every group that is not empty, in table order. */
  function SortedNonEmpty(groups: Groups): Groups {
    if groups == [] then []
    else
      SortedNonEmpty(groups[..|groups| - 1])
      + if groups[|groups| - 1] == [] then [] else [SortOrder(groups[|groups| - 1])]
  }

  lemma {:induction false} SortedAt(groups: Groups, g: nat)
    requires g < |groups| && forall h | 0 <= h < |groups| :: groups[h] != []
    ensures |SortedNonEmpty(groups)| == |groups| && SortedNonEmpty(groups)[g] == SortOrder(groups[g])
  {
    var init := groups[..|groups| - 1];
    if g < |init| {
      SortedAt(init, g);
    } else if init != [] {
      SortedAt(init, 0);
    }
  }

  /** `language_groups`. */
  method LanguageGroups(d: seq<nat>, languages: seq<Language>, size: nat) returns (r: Groups)
    requires size > 0 && InTable(d, languages)
    ensures Grouping(d, languages, size, r)
  {
    var order := SortLonger(d, languages);
    SortLongerSorted(d, languages);
    GroupCountFits(|languages|, size);
    MultisetSize(order, languages);
    var groups := Place(d, order, size, GroupCount(|languages|, size));
    FilledGroups(d, size, groups, order);
    r := SortedNonEmpty(groups);
    forall g | 0 <= g < |groups| ensures |r| == |groups| && r[g] == SortOrder(groups[g]) {
      SortedAt(groups, g);
    }
    SortedGroups(d, languages, size, groups, r);
  }

  lemma {:induction false} EmptySpread(d: seq<nat>, size: nat, groups: Groups)
    requires forall g | 0 <= g < |groups| :: groups[g] == []
    ensures Spread(d, size, groups, [])
  {
    if groups != [] {
      EmptySpread(d, size, groups[1..]);
    }
  }

  // ---- how good the groups are ----

  /** No grouping within the cap has fewer groups. */
  lemma FewestGroups(d: seq<nat>, languages: seq<Language>, size: nat, groups: Groups, other: Groups)
    requires size > 0 && Grouping(d, languages, size, groups)
    requires multiset(Flatten(other)) == multiset(languages)
    requires forall g | 0 <= g < |other| :: |other[g]| <= size
    ensures |groups| <= |other|
  {
    MultisetSize(Flatten(other), languages);
    FlattenSize(other, size);
    AtMost(|languages| + size - 1, |other|, size);
  }

  lemma {:induction false} LoadConcat(d: seq<nat>, a: seq<Language>, b: seq<Language>)
    requires InTable(d, a) && InTable(d, b)
    ensures InTable(d, a + b) && Load(d, a + b) == Load(d, a) + Load(d, b)
  {
    if a == [] {
      assert a + b == b;
    } else {
      LoadConcat(d, a[1..], b);
      assert (a + b)[1..] == a[1..] + b;
    }
  }

  function Shares(n: nat, least: int): int {
    if n == 0 then 0 else least + Shares(n - 1, least)
  }

  lemma {:induction false} SharesAreTimes(n: nat, least: int)
    ensures Shares(n, least) == n * least
  {
    if n > 0 {
      SharesAreTimes(n - 1, least);
    }
  }

  lemma {:induction false} TotalAtLeast(d: seq<nat>, groups: Groups, least: int)
    requires GroupsInTable(d, groups) && AllAtLeast(d, groups, least)
    ensures InTable(d, Flatten(groups)) && Load(d, Flatten(groups)) >= Shares(|groups|, least)
  {
    if groups != [] {
      RestAtLeast(d, groups, least);
      TotalAtLeast(d, groups[1..], least);
      LoadConcat(d, groups[0], Flatten(groups[1..]));
    }
  }

  predicate AllAtLeast(d: seq<nat>, groups: Groups, least: int)
    requires GroupsInTable(d, groups)
  {
    forall g | 0 <= g < |groups| :: Load(d, groups[g]) >= least
  }

  lemma RestAtLeast(d: seq<nat>, groups: Groups, least: int)
    requires groups != [] && GroupsInTable(d, groups) && AllAtLeast(d, groups, least)
    ensures InTable(d, groups[0]) && Load(d, groups[0]) >= least
    ensures GroupsInTable(d, groups[1..]) && AllAtLeast(d, groups[1..], least)
  {
    assert forall g | 0 <= g < |groups[1..]| :: groups[1..][g] == groups[g + 1];
  }

  lemma {:induction false} LoadSame(d: seq<nat>, a: seq<Language>, b: seq<Language>)
    requires InTable(d, a) && InTable(d, b) && multiset(a) == multiset(b)
    ensures Load(d, a) == Load(d, b)
  {
    if a == [] {
      MultisetSize(a, b);
    } else {
      assert a[0] in multiset(b);
      var k: nat :| k < |b| && b[k] == a[0];
      TakeOut(d, b, k);
      SameRests(a, b, k);
      LoadSame(d, a[1..], b[..k] + b[k + 1..]);
    }
  }

  lemma SameRests(a: seq<Language>, b: seq<Language>, k: nat)
    requires a != [] && k < |b| && b[k] == a[0] && multiset(a) == multiset(b)
    ensures multiset(a[1..]) == multiset(b[..k] + b[k + 1..])
  {
    assert a == [a[0]] + a[1..];
    assert b == b[..k] + ([b[k]] + b[k + 1..]);
    Cancel(multiset(a[1..]), multiset(b[..k] + b[k + 1..]), a[0]);
  }

  lemma Cancel(m: multiset<Language>, n: multiset<Language>, x: Language)
    requires multiset{x} + m == multiset{x} + n
    ensures m == n
  {
    assert m == (multiset{x} + m) - multiset{x};
    assert n == (multiset{x} + n) - multiset{x};
  }

  lemma TakeOut(d: seq<nat>, s: seq<Language>, k: nat)
    requires InTable(d, s) && k < |s|
    ensures var rest := s[..k] + s[k + 1..];
      InTable(d, rest) && Load(d, s) == d[s[k]] + Load(d, rest)
  {
    var tail := [s[k]] + s[k + 1..];
    assert s == s[..k] + tail;
    assert tail[1..] == s[k + 1..];
    LoadConcat(d, s[..k], tail);
    LoadConcat(d, s[..k], s[k + 1..]);
  }

  lemma SharesOfTotal(d: seq<nat>, languages: seq<Language>, groups: Groups, least: int)
    requires GroupsInTable(d, groups) && InTable(d, languages) && multiset(Flatten(groups)) == multiset(languages)
    requires forall h | 0 <= h < |groups| :: Load(d, groups[h]) >= least
    ensures Shares(|groups|, least) <= Load(d, languages)
  {
    TotalAtLeast(d, groups, least);
    LoadSame(d, Flatten(groups), languages);
  }

  lemma LeastEverywhere(d: seq<nat>, languages: seq<Language>, size: nat, groups: Groups, g: nat, x: Language)
    requires size > 0 && Grouping(d, languages, size, groups) && InTable(d, languages)
    requires g < |groups| && x in groups[g] && forall h | 0 <= h < |groups| :: |groups[h]| < size
    ensures Shares(|groups|, Load(d, groups[g]) - d[x]) <= Load(d, languages)
  {
    SharesOfTotal(d, languages, groups, Load(d, groups[g]) - d[x]);
  }

  /** While no group is full, every load is at most an even share of the whole plus any one test of the group. */
  lemma NearEvenShare(d: seq<nat>, languages: seq<Language>, size: nat, groups: Groups, g: nat, x: Language)
    requires size > 0 && Grouping(d, languages, size, groups) && InTable(d, languages)
    requires g < |groups| && x in groups[g] && forall h | 0 <= h < |groups| :: |groups[h]| < size
    ensures |groups| * (Load(d, groups[g]) - d[x]) <= Load(d, languages)
  {
    LeastEverywhere(d, languages, size, groups, g, x);
    SharesAreTimes(|groups|, Load(d, groups[g]) - d[x]);
  }

  // ---- the matrix ----

  datatype Job = Job(platform: nat, group: nat, languages: seq<Language>)

  /** `Platform.languages`: the table without what the platform does not support. */
  function Supported(count: nat, unsupported: set<Language>): (r: seq<Language>)
    ensures forall i | 0 <= i < |r| :: r[i] < count
  {
    if count == 0 then []
    else if count - 1 in unsupported then Supported(count - 1, unsupported)
    else Supported(count - 1, unsupported) + [count - 1]
  }

  function Times(s: seq<Language>, l: Language): nat {
    if s == [] then 0 else Times(s[..|s| - 1], l) + if s[|s| - 1] == l then 1 else 0
  }

  lemma {:induction false} TimesIsMultiplicity(s: seq<Language>, l: Language)
    ensures multiset(s)[l] == Times(s, l)
  {
    if s != [] {
      TimesIsMultiplicity(s[..|s| - 1], l);
      assert s == s[..|s| - 1] + [s[|s| - 1]];
    }
  }

  lemma {:induction false} SupportedTimes(count: nat, unsupported: set<Language>, l: Language)
    ensures Times(Supported(count, unsupported), l) == if l < count && l !in unsupported then 1 else 0
  {
    if count > 0 {
      SupportedTimes(count - 1, unsupported, l);
      var init := Supported(count - 1, unsupported);
      assert (init + [count - 1])[..|init|] == init;
    }
  }

  lemma SupportedOnce(count: nat, unsupported: set<Language>, l: Language)
    ensures multiset(Supported(count, unsupported))[l] == if l < count && l !in unsupported then 1 else 0
  {
    SupportedTimes(count, unsupported, l);
    TimesIsMultiplicity(Supported(count, unsupported), l);
  }

  function Numbered(platform: nat, groups: Groups): seq<Job> {
    if groups == [] then []
    else Numbered(platform, groups[..|groups| - 1]) + [Job(platform, |groups|, groups[|groups| - 1])]
  }

  lemma {:induction false} NumberedFromOne(platform: nat, groups: Groups, i: nat)
    requires i < |groups|
    ensures |Numbered(platform, groups)| == |groups| && Numbered(platform, groups)[i] == Job(platform, i + 1, groups[i])
  {
    var init := groups[..|groups| - 1];
    if |groups| > 1 {
      NumberedFromOne(platform, init, if i < |init| then i else 0);
    }
  }

  function Of(jobs: seq<Job>, platform: nat): seq<Job> {
    if jobs == [] then []
    else
      Of(jobs[..|jobs| - 1], platform)
      + if jobs[|jobs| - 1].platform == platform then [jobs[|jobs| - 1]] else []
  }

  function Tested(jobs: seq<Job>): seq<Language> {
    if jobs == [] then [] else Tested(jobs[..|jobs| - 1]) + jobs[|jobs| - 1].languages
  }

  /** A platform's jobs are its groups, numbered from one. */
  ghost predicate PlatformJobs(d: seq<nat>, unsupported: set<Language>, platform: nat, size: nat, jobs: seq<Job>)
    requires size > 0
  {
    exists groups :: Grouping(d, Supported(|d|, unsupported), size, groups) && jobs == Numbered(platform, groups)
  }

  /** The jobs of one platform after those of the platforms before it, and of no other platforms. */
  predicate PlatformByPlatform(jobs: seq<Job>, platforms: nat) {
    forall i, j | 0 <= i <= j < |jobs| :: jobs[i].platform <= jobs[j].platform < platforms
  }

  lemma NextOfPlatform(jobs: seq<Job>, job: Job, platform: nat)
    requires PlatformByPlatform(jobs, platform + 1) && job.platform == platform
    ensures PlatformByPlatform(jobs + [job], platform + 1)
  {
  }

  /** `generate_language_test_matrix`: `unsupported` has one entry per platform. */
  method GenerateMatrix(d: seq<nat>, unsupported: seq<set<Language>>, size: nat) returns (matrix: seq<Job>)
    requires size > 0
    ensures forall p | 0 <= p < |unsupported| :: PlatformJobs(d, unsupported[p], p, size, Of(matrix, p))
    ensures PlatformByPlatform(matrix, |unsupported|)
  {
    matrix := [];
    for p := 0 to |unsupported|
      invariant forall q | 0 <= q < p :: PlatformJobs(d, unsupported[q], q, size, Of(matrix, q))
      invariant forall q | p <= q :: Of(matrix, q) == []
      invariant PlatformByPlatform(matrix, p)
    {
      var groups := LanguageGroups(d, Supported(|d|, unsupported[p]), size);
      ghost var before := matrix;
      for i := 0 to |groups|
        invariant Of(matrix, p) == Numbered(p, groups[..i])
        invariant forall q | q != p :: Of(matrix, q) == Of(before, q)
        invariant PlatformByPlatform(matrix, p + 1)
      {
        var job := Job(p, i + 1, groups[i]);
        assert (matrix + [job])[..|matrix|] == matrix;
        assert groups[..i + 1][..i] == groups[..i];
        NextOfPlatform(matrix, job, p);
        matrix := matrix + [job];
      }
      assert groups[..|groups|] == groups;
    }
  }

  lemma {:induction false} FlattenSnoc(groups: Groups, last: seq<Language>)
    ensures Flatten(groups + [last]) == Flatten(groups) + last
  {
    if groups == [] {
      assert Flatten([last]) == last + Flatten([]);
    } else {
      FlattenSnoc(groups[1..], last);
      assert (groups + [last])[1..] == groups[1..] + [last];
    }
  }

  lemma {:induction false} NumberedTests(platform: nat, groups: Groups)
    ensures Tested(Numbered(platform, groups)) == Flatten(groups)
  {
    if groups != [] {
      var init, last := groups[..|groups| - 1], groups[|groups| - 1];
      NumberedTests(platform, init);
      FlattenSnoc(init, last);
      assert groups == init + [last];
      var jobs := Numbered(platform, groups);
      assert jobs[..|jobs| - 1] == Numbered(platform, init);
    }
  }

  /** On each platform, each supported language is tested in exactly one place, and no other at all. */
  lemma EachSupportedOnce(d: seq<nat>, unsupported: set<Language>, platform: nat, size: nat, jobs: seq<Job>, l: Language)
    requires size > 0 && PlatformJobs(d, unsupported, platform, size, jobs)
    ensures multiset(Tested(jobs))[l] == if l < |d| && l !in unsupported then 1 else 0
  {
    var groups :| Grouping(d, Supported(|d|, unsupported), size, groups) && jobs == Numbered(platform, groups);
    NumberedTests(platform, groups);
    SupportedOnce(|d|, unsupported, l);
  }
}
