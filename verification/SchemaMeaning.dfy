/** The stripped schema accepts the same null-free instances, and exactly when it does not. */
module SchemaMeaning {
  import opened Wrappers
  import opened Schema

  // ---- pieces of one node ----

  const EMPTY_OBJECT := Object(None, Absent, Absent, Absent, None, [], None, None, None, None, None, None, map[])

  lemma {:induction false} NamesWithoutNull(ts: seq<TypeName>, v: Json)
    requires !v.Null?
    ensures (exists i | 0 <= i < |ts| :: HasType(v, ts[i])) <==> exists i | 0 <= i < |WithoutNull(ts)| :: HasType(v, WithoutNull(ts)[i])
  {
    if ts != [] {
      NamesWithoutNull(ts[1..], v);
      var left, rest := WithoutNull(ts), WithoutNull(ts[1..]);
      if i :| 0 <= i < |ts| && HasType(v, ts[i]) {
        if i > 0 {
          assert ts[1..][i - 1] == ts[i];
          var j :| 0 <= j < |rest| && HasType(v, rest[j]);
          assert left[|left| - |rest| + j] == rest[j];
        } else {
          assert left[0] == ts[0];
        }
      }
      if i :| 0 <= i < |left| && HasType(v, left[i]) {
        if |left| == |rest| || i > 0 {
          assert rest[i - (|left| - |rest|)] == left[i];
          var j :| 0 <= j < |ts[1..]| && HasType(v, ts[1..][j]);
          assert ts[j + 1] == ts[1..][j];
        } else {
          assert left[0] == ts[0];
        }
      }
    }
  }

  lemma StrippedTypesAccept(types: Types, v: Json)
    requires !v.Null?
    ensures TypesAccept(StrippedTypes(types), v) == TypesAccept(types, v)
  {
    match types
    case One(t) =>
    case Many(ts) =>
      NamesWithoutNull(ts, v);
      var left := WithoutNull(ts);
      if |left| == 1 {
        assert HasType(v, left[0]) <==> exists i | 0 <= i < |left| :: HasType(v, left[i]);
      }
  }

  lemma {:induction false} RetainedAccepting(w: World, ss: seq<Schema>, v: Json)
    requires !v.Null?
    ensures Accepting(w, Retained(ss), v) == Accepting(w, ss, v)
  {
    if ss != [] {
      RetainedAccepting(w, ss[1..], v);
      if NullOnly(ss[0]) {
      } else {
        assert Retained(ss)[1..] == Retained(ss[1..]);
      }
    }
  }

  predicate HasNullOnly(ss: seq<Schema>) {
    exists i | 0 <= i < |ss| :: NullOnly(ss[i])
  }

  lemma {:induction false} NothingToRetain(ss: seq<Schema>)
    requires !HasNullOnly(ss)
    ensures Retained(ss) == ss
  {
    if ss != [] {
      assert !NullOnly(ss[0]);
      forall i | 0 <= i < |ss[1..]|
        ensures !NullOnly(ss[1..][i])
      {
        assert ss[1..][i] == ss[i + 1];
      }
      NothingToRetain(ss[1..]);
    }
  }

  predicate CombinatorAccepts(w: World, c: Combinator, ss: seq<Schema>, v: Json) {
    match c
    case AnyOf => Accepting(w, ss, v) > 0
    case OneOf => Accepting(w, ss, v) == 1
    case AllOf => Accepting(w, ss, v) == |ss|
  }

  /** The schema without one of its combinators: the wrapper's other assertions. */
  function Without(s: Schema, c: Combinator): (s': Schema)
    requires s.Object?
    ensures s'.Object?
  {
    match c case AnyOf => s.(anyOf := Absent) case OneOf => s.(oneOf := Absent) case AllOf => s.(allOf := Absent)
  }

  /** Schemas with the same keywords outside the combinators. */
  predicate SameOutside(s: Schema, t: Schema)
    requires s.Object? && t.Object?
  {
    && t.types == s.types && t.constant == s.constant && t.enumeration == s.enumeration && t.reference == s.reference
    && t.other == s.other && t.properties == s.properties && t.additional == s.additional && t.items == s.items
  }

  lemma OutsideAccepts(w: World, s: Schema, t: Schema, v: Json)
    requires s.Object? && t.Object? && SameOutside(s, t)
    ensures FlatAccept(w, t, v) == FlatAccept(w, s, v)
    ensures MembersAccept(w, t, v) == MembersAccept(w, s, v) && ItemsAccept(w, t, v) == ItemsAccept(w, s, v)
  {
  }

  lemma SplitCombinator(w: World, s: Schema, c: Combinator, ss: seq<Schema>, v: Json)
    requires s.Object?
    ensures Accepts(w, WithBranches(s, c, ss), v) <==> Accepts(w, Without(s, c), v) && CombinatorAccepts(w, c, ss, v)
  {
    var t, rest := WithBranches(s, c, ss), Without(s, c);
    OutsideAccepts(w, t, rest, v);
    assert CombinatorsAccept(w, t, v) <==> CombinatorsAccept(w, rest, v) && CombinatorAccepts(w, c, ss, v);
  }

  lemma SplitSelf(w: World, s: Schema, c: Combinator, v: Json)
    requires s.Object? && Under(s, c).Branches?
    ensures Accepts(w, s, v) <==> Accepts(w, Without(s, c), v) && CombinatorAccepts(w, c, Under(s, c).ss, v)
  {
    assert s == WithBranches(s, c, Under(s, c).ss);
    SplitCombinator(w, s, c, Under(s, c).ss, v);
  }

  // ---- what is removed, and what takes over ----

  /** The branches removed are exactly those whose `type` no instance but null has. */
  lemma NullOnlyIff(s: Schema)
    ensures NullOnly(s) <==> s.Object? && s.types != None && forall v: Json | !v.Null? :: !TypesAccept(s.types.value, v)
  {
    if s.Object? && s.types != None && !NullOnly(s) {
      match s.types.value
      case One(t) => assert HasType(Witness(t), t);
      case Many(ts) =>
        var i :| 0 <= i < |ts| && ts[i] != NullType;
        assert HasType(Witness(ts[i]), ts[i]) && TypesAccept(s.types.value, Witness(ts[i]));
    }
  }

  /** An instance of a type, not null. */
  function Witness(t: TypeName): (v: Json)
    ensures !v.Null? && (t != NullType ==> HasType(v, t))
  {
    assert 0.0.Floor == 0;
    match t case ObjectType => Obj([]) case ArrayType => Arr([]) case StringType => Str("") case BooleanType => Bool(true) case _ => Num(0.0)
  }

  /** The branch that takes over keeps its own annotations and gets the wrapper's others. */
  lemma CollapsedAnnotations(s: Schema, only: Schema, key: string)
    requires s.Object? && only.Object?
    ensures var a := Collapsed(s, only).annotations;
      && (key in a <==> key in only.annotations || key in s.annotations)
      && (key in a ==> a[key] == if key in only.annotations then only.annotations[key] else s.annotations[key])
  {
  }

  /** `anyOf` collapses before `oneOf` is looked at, and `oneOf` before `allOf`. */
  lemma FirstCombinatorWins(s: Schema)
    requires TypesLeft(s)
    ensures var left := (b: Branching) => if b.Absent? then [] else Retained(b.ss);
      var s' := WithStrippedTypes(s);
      && (|left(s.anyOf)| == 1 ==> Strip(s) == Collapsed(s', left(s.anyOf)[0]))
      && (s.anyOf == Absent && |left(s.oneOf)| == 1 ==> Strip(s) == Collapsed(s', left(s.oneOf)[0]))
      && (s.anyOf == Absent && s.oneOf == Absent && |left(s.allOf)| == 1 ==> Strip(s) == Collapsed(s', left(s.allOf)[0]))
  {
    var s' := WithStrippedTypes(s);
    assert COMBINATORS[0] == AnyOf && COMBINATORS[1] == OneOf && COMBINATORS[2] == AllOf;
    if s.anyOf == Absent {
      assert StripFrom(s', 0) == StripFrom(s', 1);
      if s.oneOf == Absent {
        assert StripFrom(s', 1) == StripFrom(s', 2);
      }
    }
  }

  // ---- exactly when stripping one node keeps a verdict ----

  /** A null-only branch of an `allOf` rejects every instance but null; dropping it forgets that. */
  predicate ForgetsRejection(c: Combinator, ss: seq<Schema>) {
    c == AllOf && HasNullOnly(ss)
  }

  /**
    What must hold of an instance for its verdict to survive the combinators from the `k`-th on: an empty `allOf`
    asserts nothing, so the schema must have rejected anyway; a collapse keeps only what the branch says; and when
    an `allOf` forgets its rejection, something else must reject.
   */
  predicate KeptFrom(w: World, s: Schema, k: nat, v: Json)
    requires s.Object? && k <= |COMBINATORS|
    decreases |COMBINATORS| - k
  {
    k == |COMBINATORS| ||
    var c := COMBINATORS[k];
    match Under(s, c)
    case Absent => KeptFrom(w, s, k + 1, v)
    case Branches(ss) =>
      var left := Retained(ss);
      if left == [] then
        c == AllOf && ss == [] ==> !Accepts(w, Without(s, c), v)
      else if |left| == 1 then
        Accepts(w, left[0], v) ==> !ForgetsRejection(c, ss) && Accepts(w, Without(s, c), v)
      else if ForgetsRejection(c, ss) then
        Accepts(w, Without(s, c), v) ==> exists i | 0 <= i < |left| :: !Accepts(w, left[i], v)
      else
        KeptFrom(w, WithBranches(s, c, left), k + 1, v)
  }

  lemma RetainedCombinator(w: World, c: Combinator, ss: seq<Schema>, v: Json)
    requires !v.Null?
    ensures CombinatorAccepts(w, c, ss, v) <==> !ForgetsRejection(c, ss) && CombinatorAccepts(w, c, Retained(ss), v)
    ensures Retained(ss) == [] ==> (CombinatorAccepts(w, c, ss, v) <==> c == AllOf && ss == [])
  {
    RetainedAccepting(w, ss, v);
    RetainedShorter(ss);
    if !HasNullOnly(ss) {
      NothingToRetain(ss);
    }
  }

  lemma {:induction false} RetainedShorter(ss: seq<Schema>)
    ensures |Retained(ss)| <= |ss| && (HasNullOnly(ss) ==> |Retained(ss)| < |ss|)
  {
    if ss != [] {
      RetainedShorter(ss[1..]);
      if !NullOnly(ss[0]) && HasNullOnly(ss) {
        var i :| 0 <= i < |ss| && NullOnly(ss[i]);
        assert NullOnly(ss[1..][i - 1]);
      }
    }
  }

  lemma OneBranchCombinator(w: World, c: Combinator, only: Schema, v: Json)
    ensures CombinatorAccepts(w, c, [only], v) == Accepts(w, only, v)
  {
  }

  lemma {:induction false} AllAccept(w: World, ss: seq<Schema>, v: Json)
    ensures Accepting(w, ss, v) == |ss| <==> forall i | 0 <= i < |ss| :: Accepts(w, ss[i], v)
  {
    if ss != [] {
      AllAccept(w, ss[1..], v);
      assert forall i | 1 <= i < |ss| :: ss[i] == ss[1..][i - 1];
      assert forall i | 0 <= i < |ss[1..]| :: ss[1..][i] == ss[i + 1];
    }
  }

  /** A collapse keeps an instance's verdict if and only if what is lost held whenever the branch does. */
  lemma CollapseIsExact(w: World, s: Schema, c: Combinator, ss: seq<Schema>, only: Schema, v: Json)
    requires s.Object? && Under(s, c) == Branches(ss) && Retained(ss) == [only] && !v.Null?
    ensures Accepts(w, Collapsed(s, only), v) == Accepts(w, s, v)
      <==> (Accepts(w, only, v) ==> !ForgetsRejection(c, ss) && Accepts(w, Without(s, c), v))
  {
    SplitSelf(w, s, c, v);
    RetainedCombinator(w, c, ss, v);
    OneBranchCombinator(w, c, only, v);
  }

  /** Past the combinators only a lone null value is looked at, which no other instance equals. */
  lemma LastChecks(w: World, s: Schema, v: Json)
    requires s.Object? && !v.Null?
    ensures Accepts(w, StripFrom(s, |COMBINATORS|), v) == Accepts(w, s, v)
  {
  }

  /** An `allOf` that forgets its rejection: the schema rejected, the rewritten one asks the rest. */
  lemma ForgottenIsExact(w: World, s: Schema, ss: seq<Schema>, v: Json)
    requires s.Object? && s.allOf == Branches(ss) && HasNullOnly(ss) && |Retained(ss)| > 1 && !v.Null?
    ensures Accepts(w, StripFrom(s, 2), v) == Accepts(w, s, v)
      <==> (Accepts(w, Without(s, AllOf), v) ==> exists i | 0 <= i < |Retained(ss)| :: !Accepts(w, Retained(ss)[i], v))
  {
    var left := Retained(ss);
    var rest := WithBranches(s, AllOf, left);
    assert COMBINATORS[2] == AllOf;
    assert StripFrom(s, 2) == StripFrom(rest, |COMBINATORS|);
    LastChecks(w, rest, v);
    SplitSelf(w, s, AllOf, v);
    RetainedCombinator(w, AllOf, ss, v);
    SplitCombinator(w, s, AllOf, left, v);
    AllAccept(w, left, v);
  }

  lemma {:induction false} StripFromIsExact(w: World, s: Schema, k: nat, v: Json)
    requires s.Object? && k <= |COMBINATORS| && !v.Null?
    ensures Accepts(w, StripFrom(s, k), v) == Accepts(w, s, v) <==> KeptFrom(w, s, k, v)
    decreases |COMBINATORS| - k
  {
    if k == |COMBINATORS| {
      LastChecks(w, s, v);
    } else {
      var c := COMBINATORS[k];
      match Under(s, c)
      case Absent => StripFromIsExact(w, s, k + 1, v);
      case Branches(ss) => BranchesAreExact(w, s, k, ss, v);
    }
  }

  lemma {:induction false} BranchesAreExact(w: World, s: Schema, k: nat, ss: seq<Schema>, v: Json)
    requires s.Object? && k < |COMBINATORS| && !v.Null? && Under(s, COMBINATORS[k]) == Branches(ss)
    ensures Accepts(w, StripFrom(s, k), v) == Accepts(w, s, v) <==> KeptFrom(w, s, k, v)
    decreases |COMBINATORS| - k, 0
  {
    var c, left := COMBINATORS[k], Retained(ss);
    SplitSelf(w, s, c, v);
    RetainedCombinator(w, c, ss, v);
    if |left| == 1 {
      assert left == [left[0]];
      CollapseIsExact(w, s, c, ss, left[0], v);
    } else if left != [] && ForgetsRejection(c, ss) {
      ForgottenIsExact(w, s, ss, v);
    } else if left != [] {
      SplitCombinator(w, s, c, left, v);
      StripFromIsExact(w, WithBranches(s, c, left), k + 1, v);
    }
  }

  lemma StrippedTypesPreserve(w: World, s: Schema, v: Json)
    requires s.Object? && !v.Null?
    ensures Accepts(w, WithStrippedTypes(s), v) == Accepts(w, s, v)
  {
    if s.types != None {
      StrippedTypesAccept(s.types.value, v);
    }
  }

  /** The node's types are not all removed: the combinators are looked at. */
  predicate TypesLeft(s: Schema) {
    s.Object? && WithStrippedTypes(s).types != Some(NOTHING_LEFT)
  }

  /** Stripping a node keeps the verdict on an instance other than null if and only if `KeptFrom` holds of it. */
  lemma StripIsExact(w: World, s: Schema, v: Json)
    requires !v.Null?
    ensures Accepts(w, Strip(s), v) == Accepts(w, s, v) <==> (TypesLeft(s) ==> KeptFrom(w, WithStrippedTypes(s), 0, v))
  {
    if s.Object? {
      StrippedTypesPreserve(w, s, v);
      if TypesLeft(s) {
        StripFromIsExact(w, WithStrippedTypes(s), 0, v);
      }
    }
  }

  // ---- when a node is safe to strip, whatever the instance and the world ----

  /** An `allOf` must have branches, and either all of them null-only or none. */
  predicate BranchesSafe(c: Combinator, ss: seq<Schema>) {
    c == AllOf ==> ss != [] && (Retained(ss) == [] || !HasNullOnly(ss))
  }

  /** A `type` keyword that every instance but null satisfies. */
  predicate Vacuous(types: Types) {
    types.Many? && BooleanType in types.ts && ObjectType in types.ts && ArrayType in types.ts && NumberType in types.ts && StringType in types.ts
  }

  predicate TypesSaid(rest: Schema, only: Schema)
    requires rest.Object?
  {
    rest.types == None || Vacuous(rest.types.value) || (only.Object? && rest.types == only.types)
  }

  /** Every assertion of `rest` is absent, vacuous, or written in `only` again. */
  predicate SaidBy(rest: Schema, only: Schema)
    requires rest.Object?
  {
    && TypesSaid(rest, only)
    && (rest.constant == None || (only.Object? && rest.constant == only.constant))
    && (rest.enumeration == None || (only.Object? && rest.enumeration == only.enumeration))
    && (rest.reference == None || (only.Object? && rest.reference == only.reference))
    && (rest.other == None || (only.Object? && rest.other == only.other))
    && (rest.anyOf == Absent || (only.Object? && rest.anyOf == only.anyOf))
    && (rest.oneOf == Absent || (only.Object? && rest.oneOf == only.oneOf))
    && (rest.allOf == Absent || (only.Object? && rest.allOf == only.allOf))
    && (rest.neg == None || (only.Object? && rest.neg == only.neg))
    && (rest.properties == [] || (only.Object? && rest.properties == only.properties))
    && (rest.additional == None || (only.Object? && rest.additional == only.additional && rest.properties == only.properties))
    && (rest.items == None || (only.Object? && rest.items == only.items))
  }

  predicate SafeFrom(s: Schema, k: nat)
    requires s.Object? && k <= |COMBINATORS|
    decreases |COMBINATORS| - k
  {
    k == |COMBINATORS| ||
    var c := COMBINATORS[k];
    match Under(s, c)
    case Absent => SafeFrom(s, k + 1)
    case Branches(ss) =>
      var left := Retained(ss);
      && BranchesSafe(c, ss)
      && (|left| == 1 ==> SaidBy(Without(s, c), left[0]))
      && (|left| > 1 ==> SafeFrom(WithBranches(s, c, left), k + 1))
  }

  predicate StripSafe(s: Schema) {
    TypesLeft(s) ==> SafeFrom(WithStrippedTypes(s), 0)
  }

  lemma VacuousAccepts(types: Types, v: Json)
    requires Vacuous(types) && !v.Null?
    ensures TypesAccept(types, v)
  {
    var t := match v case Bool(_) => BooleanType case Obj(_) => ObjectType case Arr(_) => ArrayType case Num(_) => NumberType case _ => StringType;
    assert t in types.ts && HasType(v, t);
  }

  lemma SaidByHolds(w: World, rest: Schema, only: Schema, v: Json)
    requires rest.Object? && SaidBy(rest, only) && Accepts(w, only, v) && !v.Null?
    ensures Accepts(w, rest, v)
  {
    if rest.types != None && Vacuous(rest.types.value) {
      VacuousAccepts(rest.types.value, v);
    }
    assert FlatAccept(w, rest, v);
    assert CombinatorsAccept(w, rest, v);
    assert MembersAccept(w, rest, v);
    assert ItemsAccept(w, rest, v);
  }

  lemma {:induction false} SafeIsKept(w: World, s: Schema, k: nat, v: Json)
    requires s.Object? && k <= |COMBINATORS| && !v.Null? && SafeFrom(s, k)
    ensures KeptFrom(w, s, k, v)
    decreases |COMBINATORS| - k
  {
    if k < |COMBINATORS| {
      var c := COMBINATORS[k];
      match Under(s, c)
      case Absent => SafeIsKept(w, s, k + 1, v);
      case Branches(ss) =>
        var left := Retained(ss);
        if |left| == 1 {
          if Accepts(w, left[0], v) {
            SaidByHolds(w, Without(s, c), left[0], v);
          }
        } else if |left| > 1 {
          SafeIsKept(w, WithBranches(s, c, left), k + 1, v);
        }
    }
  }

  /** Stripping a safe node keeps what it says about every instance but null. */
  lemma StripPreserves(w: World, s: Schema, v: Json)
    requires !v.Null? && StripSafe(s)
    ensures Accepts(w, Strip(s), v) == Accepts(w, s, v)
  {
    if TypesLeft(s) {
      SafeIsKept(w, WithStrippedTypes(s), 0, v);
    }
    StripIsExact(w, s, v);
  }

  // ---- a branch that is a bare reference: the safe nodes are exactly the ones kept in every world ----

  /** `{"$ref": r}`, with any annotations. */
  predicate IsReference(only: Schema, r: string) {
    only.Object? && only == EMPTY_OBJECT.(reference := Some(r), annotations := only.annotations)
  }

  /** No subschemas. */
  predicate Flat(rest: Schema)
    requires rest.Object?
  {
    && rest.anyOf == Absent && rest.oneOf == Absent && rest.allOf == Absent && rest.neg == None
    && rest.properties == [] && rest.additional == None && rest.items == None
  }

  /** Nothing beside the combinator asserts anything that the reference does not. */
  predicate NothingBeside(rest: Schema, r: string)
    requires rest.Object?
  {
    && (rest.types == None || Vacuous(rest.types.value)) && rest.constant == None && rest.enumeration == None
    && (rest.reference == None || rest.reference == Some(r)) && rest.other == None
  }

  /** A number above every number of the list. */
  function Above(vs: seq<Json>): (x: real)
    ensures forall i | 0 <= i < |vs| && vs[i].Num? :: vs[i].r < x
  {
    if vs == [] then 0.0
    else
      var x := Above(vs[1..]);
      assert forall i | 1 <= i < |vs| :: vs[i] == vs[1..][i - 1];
      if vs[0].Num? && vs[0].r >= x then vs[0].r + 1.0 else x
  }

  /** Only `r` is satisfied, and by everything. */
  function OnlyReference(r: string): World {
    World((name: string, v: Json) => name == r, (name: string, v: Json) => false)
  }

  lemma NotVacuous(types: Types) returns (v: Json)
    requires !Vacuous(types)
    ensures !v.Null? && !TypesAccept(types, v)
  {
    match types
    case One(t) => v := if t == BooleanType then Str("") else Bool(true);
    case Many(ts) =>
      v := if BooleanType !in ts then Bool(true) else if ObjectType !in ts then Obj([]) else if ArrayType !in ts then Arr([])
      else if StringType !in ts then Str("") else Num(0.5);
      assert 0.5.Floor == 0;
      forall i | 0 <= i < |ts|
        ensures !HasType(v, ts[i])
      {
        assert ts[i] in ts;
      }
  }

  /** An instance that something beside the combinator rejects, though the reference holds. */
  lemma RejectedBeside(rest: Schema, r: string) returns (v: Json)
    requires rest.Object? && !NothingBeside(rest, r)
    ensures !v.Null? && !Accepts(OnlyReference(r), rest, v)
  {
    if rest.types != None && !Vacuous(rest.types.value) {
      v := NotVacuous(rest.types.value);
    } else if rest.constant != None {
      v := if rest.constant.value == Bool(true) then Bool(false) else Bool(true);
    } else if rest.enumeration != None {
      v := Num(Above(rest.enumeration.value));
    } else {
      v := Bool(true);
    }
    assert !FlatAccept(OnlyReference(r), rest, v);
  }

  /** A node with one combinator, beside keywords without subschemas, whose one retained branch is a reference. */
  predicate WrapsReference(s: Schema, c: Combinator, r: string) {
    && s.Object? && Under(s, c).Branches? && Flat(Without(s, c))
    && |Retained(Under(s, c).ss)| == 1 && IsReference(Retained(Under(s, c).ss)[0], r)
  }

  lemma WrapperIsReached(w: World, s: Schema, c: Combinator, r: string, v: Json)
    requires WrapsReference(s, c, r) && !v.Null?
    ensures KeptFrom(w, s, 0, v) <==> (w.refs(r, v) ==> !ForgetsRejection(c, Under(s, c).ss) && Accepts(w, Without(s, c), v))
  {
    var only := Retained(Under(s, c).ss)[0];
    assert Accepts(w, only, v) <==> w.refs(r, v);
    assert COMBINATORS[0] == AnyOf && COMBINATORS[1] == OneOf && COMBINATORS[2] == AllOf;
    match c
    case AnyOf =>
    case OneOf => assert KeptFrom(w, s, 0, v) == KeptFrom(w, s, 1, v);
    case AllOf => assert KeptFrom(w, s, 0, v) == KeptFrom(w, s, 1, v) == KeptFrom(w, s, 2, v);
  }

  /**
    Stripping a node that wraps one reference keeps every verdict, in every world, if and only if no null-only
    branch of an `allOf` is dropped and nothing beside the combinator asserts more than the reference.
   */
  lemma KeptInEveryWorldIff(s: Schema, c: Combinator, r: string)
    requires WrapsReference(s, c, r) && TypesLeft(s)
    ensures (forall w: World, v: Json | !v.Null? :: Accepts(w, Strip(s), v) == Accepts(w, s, v))
      <==> !ForgetsRejection(c, Under(s, c).ss) && NothingBeside(Without(WithStrippedTypes(s), c), r)
  {
    var s' := WithStrippedTypes(s);
    var ss, rest := Under(s, c).ss, Without(s', c);
    if !ForgetsRejection(c, ss) && NothingBeside(rest, r) {
      forall w: World, v: Json | !v.Null?
        ensures Accepts(w, Strip(s), v) == Accepts(w, s, v)
      {
        if w.refs(r, v) {
          SaidByHolds(w, rest, Retained(ss)[0], v);
        }
        WrapperIsReached(w, s', c, r, v);
        StripIsExact(w, s, v);
      }
    } else {
      var w, v := OnlyReference(r), Bool(true);
      if !NothingBeside(rest, r) {
        v := RejectedBeside(rest, r);
      }
      WrapperIsReached(w, s', c, r, v);
      StripIsExact(w, s, v);
    }
  }

  // ---- the whole schema ----

  function Size(s: Schema): (n: nat)
    ensures n >= 1
    decreases s, 1
  {
    match s
    case Boolean(_) => 1
    case Object(_, anyOf, oneOf, allOf, neg, properties, additional, items, _, _, _, _, _) =>
      1 + BranchingSize(anyOf) + BranchingSize(oneOf) + BranchingSize(allOf)
      + OptionSize(neg) + PropertiesSize(properties) + OptionSize(additional) + OptionSize(items)
  }

  function BranchingSize(b: Branching): nat
    decreases b, 1
  {
    match b case Absent => 0 case Branches(ss) => SizeAll(ss)
  }

  function OptionSize(o: Option<Schema>): nat
    decreases o, 1
  {
    match o case None => 0 case Some(s) => Size(s)
  }

  function SizeAll(ss: seq<Schema>): nat
    decreases ss, 0
  {
    if ss == [] then 0 else Size(ss[0]) + SizeAll(ss[1..])
  }

  function PropertiesSize(ps: seq<Property>): nat
    decreases ps, 0
  {
    if ps == [] then 0 else Size(ps[0].schema) + PropertiesSize(ps[1..])
  }

  lemma {:induction false} RetainedSize(ss: seq<Schema>)
    ensures SizeAll(Retained(ss)) <= SizeAll(ss)
  {
    if ss != [] {
      RetainedSize(ss[1..]);
      if !NullOnly(ss[0]) {
        assert Retained(ss)[1..] == Retained(ss[1..]);
      }
    }
  }

  lemma {:induction false} StripFromSize(s: Schema, k: nat)
    requires s.Object? && k <= |COMBINATORS|
    ensures Size(StripFrom(s, k)) <= Size(s)
    decreases |COMBINATORS| - k
  {
    if k < |COMBINATORS| {
      var c := COMBINATORS[k];
      match Under(s, c)
      case Absent => StripFromSize(s, k + 1);
      case Branches(ss) =>
        var left := Retained(ss);
        RetainedSize(ss);
        if |left| == 1 {
          assert SizeAll(left) == Size(left[0]) + SizeAll(left[1..]);
        } else if |left| > 1 {
          StripFromSize(WithBranches(s, c, left), k + 1);
        }
    }
  }

  lemma StripSize(s: Schema)
    ensures Size(Strip(s)) <= Size(s)
  {
    if s.Object? {
      assert Size(WithStrippedTypes(s)) == Size(s);
      StripFromSize(WithStrippedTypes(s), 0);
    }
  }

  /** `RemoveNullTypes::transform`: strip the node, then every subschema of what is left. */
  function Transform(s: Schema): Schema
    decreases Size(s), 0
  {
    StripSize(s);
    var t := Strip(s);
    if t.Boolean? then t
    else
      t.(anyOf := TransformBranching(t.anyOf),
         oneOf := TransformBranching(t.oneOf),
         allOf := TransformBranching(t.allOf),
         neg := TransformOption(t.neg),
         properties := TransformProperties(t.properties),
         additional := TransformOption(t.additional),
         items := TransformOption(t.items))
  }

  function TransformBranching(b: Branching): Branching
    decreases BranchingSize(b), 3
  {
    match b case Absent => Absent case Branches(ss) => Branches(TransformAll(ss))
  }

  function TransformOption(o: Option<Schema>): Option<Schema>
    decreases OptionSize(o), 1
  {
    match o case None => None case Some(s) => Some(Transform(s))
  }

  function TransformAll(ss: seq<Schema>): (ts: seq<Schema>)
    ensures |ts| == |ss|
    decreases SizeAll(ss), 2
  {
    if ss == [] then [] else [Transform(ss[0])] + TransformAll(ss[1..])
  }

  function TransformProperties(ps: seq<Property>): (qs: seq<Property>)
    ensures |qs| == |ps| && forall i | 0 <= i < |ps| :: qs[i].name == ps[i].name
    decreases PropertiesSize(ps), 2
  {
    if ps == [] then [] else [Property(ps[0].name, Transform(ps[0].schema))] + TransformProperties(ps[1..])
  }

  /** Every node the transformation strips is safe to strip. */
  predicate Safe(s: Schema)
    decreases Size(s), 0
  {
    StripSize(s);
    var t := Strip(s);
    && StripSafe(s)
    && (t.Object? ==>
          && SafeBranching(t.anyOf) && SafeBranching(t.oneOf) && SafeBranching(t.allOf)
          && SafeOption(t.neg) && SafeProperties(t.properties) && SafeOption(t.additional) && SafeOption(t.items))
  }

  predicate SafeBranching(b: Branching)
    decreases BranchingSize(b), 3
  {
    b.Branches? ==> SafeAll(b.ss)
  }

  predicate SafeOption(o: Option<Schema>)
    decreases OptionSize(o), 1
  {
    o != None ==> Safe(o.value)
  }

  predicate SafeAll(ss: seq<Schema>)
    decreases SizeAll(ss), 2
  {
    ss != [] ==> Safe(ss[0]) && SafeAll(ss[1..])
  }

  predicate SafeProperties(ps: seq<Property>)
    decreases PropertiesSize(ps), 2
  {
    ps != [] ==> Safe(ps[0].schema) && SafeProperties(ps[1..])
  }

  predicate SameBranching(w: World, b: Branching, b': Branching, v: Json) {
    || (b.Absent? && b'.Absent?)
    || (b.Branches? && b'.Branches? && |b'.ss| == |b.ss| && Accepting(w, b'.ss, v) == Accepting(w, b.ss, v))
  }

  predicate SameOption(w: World, o: Option<Schema>, o': Option<Schema>, v: Json) {
    || (o.None? && o'.None?)
    || (o.Some? && o'.Some? && Accepts(w, o'.value, v) == Accepts(w, o.value, v))
  }

  predicate SameProperties(w: World, ps: seq<Property>, ps': seq<Property>, members: seq<Member>) {
    && |ps'| == |ps| && (forall j | 0 <= j < |ps| :: ps'[j].name == ps[j].name)
    && (forall i, j | 0 <= i < |members| && 0 <= j < |ps| ::
          Accepts(w, ps'[j].schema, members[i].value) == Accepts(w, ps[j].schema, members[i].value))
  }

  /** Replacing subschemas by ones with the same verdicts changes no verdict. */
  lemma SameParts(w: World, t: Schema, t': Schema, v: Json)
    requires t.Object? && t'.Object?
    requires t' == t.(anyOf := t'.anyOf, oneOf := t'.oneOf, allOf := t'.allOf, neg := t'.neg,
                      properties := t'.properties, additional := t'.additional, items := t'.items)
    requires SameBranching(w, t.anyOf, t'.anyOf, v) && SameBranching(w, t.oneOf, t'.oneOf, v) && SameBranching(w, t.allOf, t'.allOf, v)
    requires SameOption(w, t.neg, t'.neg, v)
    requires v.Obj? ==> SameProperties(w, t.properties, t'.properties, v.members)
    requires v.Obj? ==> forall i | 0 <= i < |v.members| ::
      && SameOption(w, t.additional, t'.additional, v.members[i].value)
      && Named(t'.properties, v.members[i].name) == Named(t.properties, v.members[i].name)
    requires v.Arr? ==> forall i | 0 <= i < |v.items| :: SameOption(w, t.items, t'.items, v.items[i])
    ensures Accepts(w, t', v) == Accepts(w, t, v)
  {
    SameMembers(w, t, t', v);
    assert ItemsAccept(w, t', v) == ItemsAccept(w, t, v);
    assert FlatAccept(w, t', v) == FlatAccept(w, t, v);
  }

  lemma SameMembers(w: World, t: Schema, t': Schema, v: Json)
    requires t.Object? && t'.Object?
    requires v.Obj? ==> SameProperties(w, t.properties, t'.properties, v.members)
    requires v.Obj? ==> forall i | 0 <= i < |v.members| ::
      && SameOption(w, t.additional, t'.additional, v.members[i].value)
      && Named(t'.properties, v.members[i].name) == Named(t.properties, v.members[i].name)
    ensures MembersAccept(w, t', v) == MembersAccept(w, t, v)
  {
    if v.Obj? {
      assert (forall i, j | 0 <= i < |v.members| && 0 <= j < |t.properties| && t.properties[j].name == v.members[i].name ::
                Accepts(w, t.properties[j].schema, v.members[i].value))
        <==> (forall i, j | 0 <= i < |v.members| && 0 <= j < |t'.properties| && t'.properties[j].name == v.members[i].name ::
                Accepts(w, t'.properties[j].schema, v.members[i].value));
    }
  }

  /**
    The transformed schema accepts a null-free instance exactly when the original does.
   */
  lemma {:induction false} TransformPreserves(w: World, s: Schema, v: Json)
    requires NullFree(v) && Safe(s)
    ensures Accepts(w, Transform(s), v) == Accepts(w, s, v)
    decreases Size(s), 0
  {
    StripSize(s);
    StripPreserves(w, s, v);
    var t := Strip(s);
    if t.Object? {
      BranchingPreserved(w, t.anyOf, v);
      BranchingPreserved(w, t.oneOf, v);
      BranchingPreserved(w, t.allOf, v);
      OptionPreserved(w, t.neg, v);
      if v.Obj? {
        MembersPreserved(w, t, v.members);
      }
      if v.Arr? {
        forall i | 0 <= i < |v.items|
          ensures SameOption(w, t.items, TransformOption(t.items), v.items[i])
        {
          OptionPreserved(w, t.items, v.items[i]);
        }
      }
      SameParts(w, t, Transform(s), v);
    }
  }

  lemma {:induction false} OptionPreserved(w: World, o: Option<Schema>, v: Json)
    requires NullFree(v) && SafeOption(o)
    ensures SameOption(w, o, TransformOption(o), v)
    decreases OptionSize(o), 1
  {
    if o != None {
      TransformPreserves(w, o.value, v);
    }
  }

  lemma {:induction false} BranchingPreserved(w: World, b: Branching, v: Json)
    requires NullFree(v) && SafeBranching(b)
    ensures SameBranching(w, b, TransformBranching(b), v)
    decreases BranchingSize(b), 3
  {
    if b.Branches? {
      AllPreserved(w, b.ss, v);
    }
  }

  lemma {:induction false} AllPreserved(w: World, ss: seq<Schema>, v: Json)
    requires NullFree(v) && SafeAll(ss)
    ensures Accepting(w, TransformAll(ss), v) == Accepting(w, ss, v)
    decreases SizeAll(ss), 2
  {
    if ss != [] {
      TransformPreserves(w, ss[0], v);
      AllPreserved(w, ss[1..], v);
      assert TransformAll(ss)[1..] == TransformAll(ss[1..]);
    }
  }

  lemma {:induction false} PropertyPreserved(w: World, ps: seq<Property>, j: nat, v: Json)
    requires NullFree(v) && SafeProperties(ps) && j < |ps|
    ensures Accepts(w, TransformProperties(ps)[j].schema, v) == Accepts(w, ps[j].schema, v)
    decreases PropertiesSize(ps), 2
  {
    if j == 0 {
      TransformPreserves(w, ps[0].schema, v);
    } else {
      PropertyPreserved(w, ps[1..], j - 1, v);
    }
  }

  lemma {:induction false} MembersPreserved(w: World, t: Schema, members: seq<Member>)
    requires t.Object? && SafeProperties(t.properties) && SafeOption(t.additional)
    requires forall i | 0 <= i < |members| :: NullFree(members[i].value)
    ensures SameProperties(w, t.properties, TransformProperties(t.properties), members)
    ensures forall i | 0 <= i < |members| ::
      && SameOption(w, t.additional, TransformOption(t.additional), members[i].value)
      && Named(TransformProperties(t.properties), members[i].name) == Named(t.properties, members[i].name)
    decreases PropertiesSize(t.properties) + OptionSize(t.additional), 4
  {
    forall i, j | 0 <= i < |members| && 0 <= j < |t.properties|
      ensures Accepts(w, TransformProperties(t.properties)[j].schema, members[i].value) == Accepts(w, t.properties[j].schema, members[i].value)
    {
      PropertyPreserved(w, t.properties, j, members[i].value);
    }
    forall i | 0 <= i < |members|
      ensures SameOption(w, t.additional, TransformOption(t.additional), members[i].value)
      ensures Named(TransformProperties(t.properties), members[i].name) == Named(t.properties, members[i].name)
    {
      OptionPreserved(w, t.additional, members[i].value);
      assert forall j | 0 <= j < |t.properties| :: TransformProperties(t.properties)[j].name == t.properties[j].name;
    }
  }

  // ---- schemas outside the condition ----

  function Typed(t: TypeName): (s: Schema)
    ensures s.Object?
  {
    EMPTY_OBJECT.(types := Some(One(t)))
  }

  function Wrapper(types: Option<Types>, anyOf: Branching, allOf: Branching): (s: Schema)
    ensures s.Object?
  {
    Object(types, anyOf, Absent, allOf, None, [], None, None, None, None, None, None, map[])
  }

  lemma DropNullBranch(s: Schema)
    requires !NullOnly(s)
    ensures Retained([s, Typed(NullType)]) == [s] && Retained([Typed(NullType), s]) == [s]
  {
    assert [s, Typed(NullType)][1..] == [Typed(NullType)] && [Typed(NullType)][1..] == [];
    assert [Typed(NullType), s][1..] == [s] && [s][1..] == [];
    assert Retained([s]) == [s] && Retained([Typed(NullType)]) == [];
  }

  /** A `type` beside a nullable `anyOf` is lost: the wrapper rejects `true`, the result accepts it. */
  lemma SiblingLostExample(w: World)
    ensures var s := Wrapper(Some(One(StringType)), Branches([Typed(BooleanType), Typed(NullType)]), Absent);
      !Accepts(w, s, Bool(true)) && Accepts(w, Strip(s), Bool(true))
  {
    var only := Typed(BooleanType);
    var s := Wrapper(Some(One(StringType)), Branches([only, Typed(NullType)]), Absent);
    DropNullBranch(only);
    assert COMBINATORS[0] == AnyOf && WithStrippedTypes(s) == s;
    assert Strip(s) == StripFrom(s, 0) == Collapsed(s, only);
  }

  /** An `allOf` with a null-only branch rejects every null-free instance, the result does not. */
  lemma NullAllOfExample(w: World)
    ensures var s := Wrapper(None, Absent, Branches([Typed(NullType), Typed(BooleanType)]));
      !Accepts(w, s, Bool(true)) && Accepts(w, Strip(s), Bool(true))
  {
    var only := Typed(BooleanType);
    var s := Wrapper(None, Absent, Branches([Typed(NullType), only]));
    DropNullBranch(only);
    assert COMBINATORS[0] == AnyOf && COMBINATORS[1] == OneOf && COMBINATORS[2] == AllOf && WithStrippedTypes(s) == s;
    assert StripFrom(s, 0) == StripFrom(s, 1) == StripFrom(s, 2) == Collapsed(s, only);
    assert Accepting(w, s.allOf.ss, Bool(true)) == 0 + Accepting(w, s.allOf.ss[1..], Bool(true)) < |s.allOf.ss|;
  }
}
