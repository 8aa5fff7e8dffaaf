/** When the transformed schema rejects `null`, which is what the rewriting is for, and when it does not. */
module SchemaNull {
  import opened Wrappers
  import opened Schema
  import opened SchemaMeaning

  /** The keywords without subschemas reject null, whatever the references mean. */
  predicate FlatShuts(t: Schema)
    requires t.Object?
  {
    || (t.types != None && !TypesAccept(t.types.value, Null))
    || (t.constant != None && t.constant.value != Null)
    || (t.enumeration != None && Null !in t.enumeration.value)
  }

  /** What the node becomes rejects null by itself, or by its branches. */
  predicate ShutsOutNull(s: Schema)
    decreases Size(s), 0
  {
    StripSize(s);
    var t := Strip(s);
    if t.Boolean? then !t.accepts
    else
      || FlatShuts(t)
      || (t.anyOf.Branches? && AllShut(t.anyOf.ss))
      || (t.oneOf.Branches? && AllShut(t.oneOf.ss))
      || (t.allOf.Branches? && SomeShut(t.allOf.ss))
  }

  predicate AllShut(ss: seq<Schema>)
    decreases SizeAll(ss), 2
  {
    ss != [] ==> ShutsOutNull(ss[0]) && AllShut(ss[1..])
  }

  predicate SomeShut(ss: seq<Schema>)
    decreases SizeAll(ss), 2
  {
    ss != [] && (ShutsOutNull(ss[0]) || SomeShut(ss[1..]))
  }

  /** A schema that shuts out null rejects it once transformed, in every world. */
  lemma {:induction false} NullRejected(w: World, s: Schema)
    requires ShutsOutNull(s)
    ensures !Accepts(w, Transform(s), Null)
    decreases Size(s), 0
  {
    StripSize(s);
    var t := Strip(s);
    if t.Object? && !FlatShuts(t) {
      if t.anyOf.Branches? && AllShut(t.anyOf.ss) {
        NoneAccepts(w, t.anyOf.ss);
      } else if t.oneOf.Branches? && AllShut(t.oneOf.ss) {
        NoneAccepts(w, t.oneOf.ss);
      } else {
        NotAllAccept(w, t.allOf.ss);
      }
    }
  }

  lemma {:induction false} NoneAccepts(w: World, ss: seq<Schema>)
    requires AllShut(ss)
    ensures Accepting(w, TransformAll(ss), Null) == 0
    decreases SizeAll(ss), 2
  {
    if ss != [] {
      NullRejected(w, ss[0]);
      NoneAccepts(w, ss[1..]);
      assert TransformAll(ss)[1..] == TransformAll(ss[1..]);
    }
  }

  lemma {:induction false} NotAllAccept(w: World, ss: seq<Schema>)
    requires SomeShut(ss)
    ensures Accepting(w, TransformAll(ss), Null) < |ss|
    decreases SizeAll(ss), 2
  {
    assert TransformAll(ss)[1..] == TransformAll(ss[1..]);
    if ShutsOutNull(ss[0]) {
      NullRejected(w, ss[0]);
    } else {
      NotAllAccept(w, ss[1..]);
    }
  }

  // ---- nulls at any depth ----

  /** Some null inside `v`, at any depth, lies where a schema shuts it out. */
  predicate ShutsOut(s: Schema, v: Json)
    decreases Size(s), 5
  {
    StripSize(s);
    var t := Strip(s);
    if v.Null? then ShutsOutNull(s)
    else if t.Boolean? then !t.accepts
    else
      || (v.Obj? && exists i | 0 <= i < |v.members| :: MemberShut(t, v.members[i]))
      || (v.Arr? && t.items != None && exists i | 0 <= i < |v.items| :: ShutsOut(t.items.value, v.items[i]))
      || (t.anyOf.Branches? && AllShutOut(t.anyOf.ss, v))
      || (t.oneOf.Branches? && AllShutOut(t.oneOf.ss, v))
      || (t.allOf.Branches? && SomeShutOut(t.allOf.ss, v))
  }

  /** A member is looked at by the properties of its name, and by `additionalProperties` when there is none. */
  predicate MemberShut(t: Schema, m: Member)
    requires t.Object?
    decreases Size(t), 4
  {
    AdditionalSize(t);
    || PropertyShut(t.properties, m)
    || (t.additional != None && !Named(t.properties, m.name) && ShutsOut(t.additional.value, m.value))
  }

  lemma AdditionalSize(t: Schema)
    requires t.Object?
    ensures t.additional != None ==> Size(t.additional.value) < Size(t)
    ensures PropertiesSize(t.properties) < Size(t)
  {
  }

  predicate PropertyShut(ps: seq<Property>, m: Member)
    decreases PropertiesSize(ps), 6
  {
    ps != [] && ((ps[0].name == m.name && ShutsOut(ps[0].schema, m.value)) || PropertyShut(ps[1..], m))
  }

  predicate AllShutOut(ss: seq<Schema>, v: Json)
    decreases SizeAll(ss), 6
  {
    ss != [] ==> ShutsOut(ss[0], v) && AllShutOut(ss[1..], v)
  }

  predicate SomeShutOut(ss: seq<Schema>, v: Json)
    decreases SizeAll(ss), 6
  {
    ss != [] && (ShutsOut(ss[0], v) || SomeShutOut(ss[1..], v))
  }

  /** An instance with a null that is shut out somewhere inside it is rejected once transformed, in every world. */
  lemma {:induction false} NestedNullRejected(w: World, s: Schema, v: Json)
    requires ShutsOut(s, v)
    ensures !Accepts(w, Transform(s), v)
    decreases Size(s), 5
  {
    StripSize(s);
    var t := Strip(s);
    if v.Null? {
      NullRejected(w, s);
    } else if t.Object? {
      if i :| v.Obj? && 0 <= i < |v.members| && MemberShut(t, v.members[i]) {
        MemberRejected(w, t, v.members[i]);
        assert !MembersAccept(w, Transform(s), v);
      } else if i :| v.Arr? && t.items != None && 0 <= i < |v.items| && ShutsOut(t.items.value, v.items[i]) {
        NestedNullRejected(w, t.items.value, v.items[i]);
        assert !ItemsAccept(w, Transform(s), v);
      } else if t.anyOf.Branches? && AllShutOut(t.anyOf.ss, v) {
        NoBranchAccepts(w, t.anyOf.ss, v);
      } else if t.oneOf.Branches? && AllShutOut(t.oneOf.ss, v) {
        NoBranchAccepts(w, t.oneOf.ss, v);
      } else {
        NotAllBranchesAccept(w, t.allOf.ss, v);
      }
    }
  }

  /** What the transformed keywords say of one member. */
  predicate MemberRejects(w: World, properties: seq<Property>, additional: Option<Schema>, m: Member) {
    || (exists j | 0 <= j < |properties| :: properties[j].name == m.name && !Accepts(w, properties[j].schema, m.value))
    || (additional != None && !Named(properties, m.name) && !Accepts(w, additional.value, m.value))
  }

  lemma {:induction false} MemberRejected(w: World, t: Schema, m: Member)
    requires t.Object? && MemberShut(t, m)
    ensures MemberRejects(w, TransformProperties(t.properties), TransformOption(t.additional), m)
    decreases Size(t), 4
  {
    AdditionalSize(t);
    if PropertyShut(t.properties, m) {
      var j := PropertyRejected(w, t.properties, m);
    } else {
      NestedNullRejected(w, t.additional.value, m.value);
      assert forall j | 0 <= j < |t.properties| :: TransformProperties(t.properties)[j].name == t.properties[j].name;
    }
  }

  lemma {:induction false} PropertyRejected(w: World, ps: seq<Property>, m: Member) returns (j: nat)
    requires PropertyShut(ps, m)
    ensures var qs := TransformProperties(ps);
      j < |qs| && qs[j].name == m.name && !Accepts(w, qs[j].schema, m.value)
    decreases PropertiesSize(ps), 6
  {
    if ps[0].name == m.name && ShutsOut(ps[0].schema, m.value) {
      NestedNullRejected(w, ps[0].schema, m.value);
      j := 0;
    } else {
      var i := PropertyRejected(w, ps[1..], m);
      j := i + 1;
      assert TransformProperties(ps)[j] == TransformProperties(ps[1..])[i];
    }
  }

  lemma {:induction false} NoBranchAccepts(w: World, ss: seq<Schema>, v: Json)
    requires AllShutOut(ss, v)
    ensures Accepting(w, TransformAll(ss), v) == 0
    decreases SizeAll(ss), 6
  {
    if ss != [] {
      NestedNullRejected(w, ss[0], v);
      NoBranchAccepts(w, ss[1..], v);
      assert TransformAll(ss)[1..] == TransformAll(ss[1..]);
    }
  }

  lemma {:induction false} NotAllBranchesAccept(w: World, ss: seq<Schema>, v: Json)
    requires SomeShutOut(ss, v)
    ensures Accepting(w, TransformAll(ss), v) < |ss|
    decreases SizeAll(ss), 6
  {
    assert TransformAll(ss)[1..] == TransformAll(ss[1..]);
    if ShutsOut(ss[0], v) {
      NestedNullRejected(w, ss[0], v);
    } else {
      NotAllBranchesAccept(w, ss[1..], v);
    }
  }

  /** A node whose own `type` goes unchanged, without a combinator, `const` or `enum`, is not stripped of anything. */
  lemma PlainStrip(s: Schema)
    requires s.Object? && WithStrippedTypes(s) == s && s.types != Some(NOTHING_LEFT)
    requires s.anyOf == Absent && s.oneOf == Absent && s.allOf == Absent && s.constant == None && s.enumeration == None
    ensures Strip(s) == s
  {
    assert COMBINATORS[0] == AnyOf && COMBINATORS[1] == OneOf && COMBINATORS[2] == AllOf;
    assert StripFrom(s, 2) == StripFrom(s, 3) == s;
    assert StripFrom(s, 0) == StripFrom(s, 1) == StripFrom(s, 2);
  }

  /** Under `not` the rewriting works the other way round: what the negated schema now shuts out is accepted. */
  lemma NegatedNullAccepted(w: World, n: Schema, v: Json)
    requires ShutsOut(n, v)
    ensures Accepts(w, Transform(EMPTY_OBJECT.(neg := Some(n))), v)
  {
    var s := EMPTY_OBJECT.(neg := Some(n));
    NestedNullRejected(w, n, v);
    PlainStrip(s);
    assert Transform(s) == s.(neg := Some(Transform(n)));
    OnlyNegation(w, Transform(n), v);
  }

  lemma OnlyNegation(w: World, n: Schema, v: Json)
    ensures Accepts(w, EMPTY_OBJECT.(neg := Some(n)), v) <==> !Accepts(w, n, v)
  {
    var s := EMPTY_OBJECT.(neg := Some(n));
    assert FlatAccept(w, s, v) && MembersAccept(w, s, v) && ItemsAccept(w, s, v);
    assert CombinatorsAccept(w, s, v) <==> !Accepts(w, n, v);
  }

  /** An object schema with one property whose `type` allows null: once transformed, it no longer does. */
  lemma NullablePropertyExample(w: World, name: string, rest: seq<Member>)
    ensures var nullable := EMPTY_OBJECT.(types := Some(Many([StringType, NullType])));
      var s := EMPTY_OBJECT.(types := Some(One(ObjectType)), properties := [Property(name, nullable)]);
      !Accepts(w, Transform(s), Obj([Member(name, Null)] + rest))
  {
    var nullable := EMPTY_OBJECT.(types := Some(Many([StringType, NullType])));
    var s := EMPTY_OBJECT.(types := Some(One(ObjectType)), properties := [Property(name, nullable)]);
    var v := Obj([Member(name, Null)] + rest);
    PlainStrip(s);
    NothingCollapses(nullable);
    TypedShutsOut(nullable);
    assert v.members[0] == Member(name, Null) && PropertyShut(s.properties, v.members[0]);
    assert MemberShut(s, v.members[0]);
    NestedNullRejected(w, s, v);
  }

  /** One property that accepts everything, and another schema for the other members. */
  function Rest(name: string, additional: Schema): (s: Schema)
    ensures s.Object?
  {
    EMPTY_OBJECT.(properties := [Property(name, Boolean(true))], additional := Some(additional))
  }

  lemma RestAcceptsNamed(w: World, name: string, additional: Schema)
    ensures Accepts(w, Rest(name, additional), Obj([Member(name, Null)]))
  {
    var s, v := Rest(name, additional), Obj([Member(name, Null)]);
    assert s.properties[0].name == name && Named(s.properties, name);
    assert MembersAccept(w, s, v);
  }

  lemma RestTransformed(name: string, additional: Schema)
    ensures Transform(Rest(name, additional)) == Rest(name, Transform(additional))
  {
    PlainStrip(Rest(name, additional));
    OnlyMembersVisited(Rest(name, additional));
    OneProperty(name);
  }

  lemma RestRejectsOthers(w: World, name: string, additional: Schema, other: string)
    requires other != name && ShutsOutNull(additional)
    ensures !Accepts(w, Transform(Rest(name, additional)), Obj([Member(other, Null)]))
  {
    var s, v := Rest(name, additional), Obj([Member(other, Null)]);
    PlainStrip(s);
    assert !Named(s.properties, other);
    assert MemberShut(s, v.members[0]);
    NestedNullRejected(w, s, v);
  }

  /** `additionalProperties` looks at the members that `properties` does not name, and at no others. */
  lemma AdditionalNullExample(w: World, a: string, b: string)
    requires a != b
    ensures var s := Rest(a, EMPTY_OBJECT.(types := Some(Many([StringType, NullType]))));
      Accepts(w, Transform(s), Obj([Member(a, Null)])) && !Accepts(w, Transform(s), Obj([Member(b, Null)]))
  {
    var nullable := EMPTY_OBJECT.(types := Some(Many([StringType, NullType])));
    NothingCollapses(nullable);
    TypedShutsOut(nullable);
    RestTransformed(a, nullable);
    RestAcceptsNamed(w, a, Transform(nullable));
    RestRejectsOthers(w, a, nullable, b);
  }

  lemma OnlyMembersVisited(s: Schema)
    requires s.Object? && Strip(s) == s && s.anyOf == Absent && s.oneOf == Absent && s.allOf == Absent && s.neg == None && s.items == None
    ensures Transform(s) == s.(properties := TransformProperties(s.properties), additional := TransformOption(s.additional))
  {
    StripSize(s);
    assert TransformBranching(Absent) == Absent && TransformOption(None) == None;
  }

  lemma OneProperty(name: string)
    ensures TransformProperties([Property(name, Boolean(true))]) == [Property(name, Boolean(true))]
  {
    var ps := [Property(name, Boolean(true))];
    assert ps[1..] == [] && TransformProperties(ps[1..]) == [];
    assert Transform(Boolean(true)) == Boolean(true);
    assert TransformProperties(ps) == [Property(name, Transform(Boolean(true)))] + TransformProperties(ps[1..]);
  }

  lemma NothingCollapses(s: Schema)
    requires s.Object? && s.anyOf == Absent && s.oneOf == Absent && s.allOf == Absent
    ensures NoCollapse(s, 0)
  {
    assert NoCollapse(s, 2) && NoCollapse(s, 1);
  }

  // ---- the converse, for schemas without `oneOf` and `not` ----

  /** Every reference and every keyword the model does not look into is satisfied. */
  function Permissive(): World {
    World((name: string, v: Json) => true, (name: string, v: Json) => true)
  }

  /** No node the transformation keeps has a `oneOf` or a `not`, which could reject null by accepting it too often. */
  predicate Monotone(s: Schema)
    decreases Size(s), 0
  {
    StripSize(s);
    var t := Strip(s);
    t.Object? ==>
      && t.oneOf == Absent && t.neg == None
      && (t.anyOf.Branches? ==> AllMonotone(t.anyOf.ss))
      && (t.allOf.Branches? ==> AllMonotone(t.allOf.ss))
  }

  predicate AllMonotone(ss: seq<Schema>)
    decreases SizeAll(ss), 2
  {
    ss != [] ==> Monotone(ss[0]) && AllMonotone(ss[1..])
  }

  lemma {:induction false} NullAccepted(s: Schema)
    requires Monotone(s) && !ShutsOutNull(s)
    ensures Accepts(Permissive(), Transform(s), Null)
    decreases Size(s), 0
  {
    StripSize(s);
    var t := Strip(s);
    if t.Object? {
      if t.anyOf.Branches? {
        SomeAccepts(t.anyOf.ss);
      }
      if t.allOf.Branches? {
        EveryAccepts(t.allOf.ss);
      }
      assert FlatAccept(Permissive(), Transform(s), Null);
      assert CombinatorsAccept(Permissive(), Transform(s), Null);
    }
  }

  lemma {:induction false} SomeAccepts(ss: seq<Schema>)
    requires AllMonotone(ss) && !AllShut(ss)
    ensures Accepting(Permissive(), TransformAll(ss), Null) > 0
    decreases SizeAll(ss), 2
  {
    assert TransformAll(ss)[1..] == TransformAll(ss[1..]);
    if ShutsOutNull(ss[0]) {
      SomeAccepts(ss[1..]);
    } else {
      NullAccepted(ss[0]);
    }
  }

  lemma {:induction false} EveryAccepts(ss: seq<Schema>)
    requires AllMonotone(ss) && !SomeShut(ss)
    ensures Accepting(Permissive(), TransformAll(ss), Null) == |ss|
    decreases SizeAll(ss), 2
  {
    if ss != [] {
      assert TransformAll(ss)[1..] == TransformAll(ss[1..]);
      NullAccepted(ss[0]);
      EveryAccepts(ss[1..]);
    }
  }

  /** Without `oneOf` and `not`, null is rejected in every world if and only if the schema shuts it out. */
  lemma NullRejectedIff(s: Schema)
    requires Monotone(s)
    ensures (forall w: World :: !Accepts(w, Transform(s), Null)) <==> ShutsOutNull(s)
  {
    if ShutsOutNull(s) {
      forall w: World
        ensures !Accepts(w, Transform(s), Null)
      {
        NullRejected(w, s);
      }
    } else {
      NullAccepted(s);
      assert exists w: World :: Accepts(w, Transform(s), Null);
    }
  }

  // ---- what the condition means for one node ----

  /** No combinator from the `k`-th on is left with one branch. */
  predicate NoCollapse(s: Schema, k: nat)
    requires s.Object? && k <= |COMBINATORS|
    decreases |COMBINATORS| - k
  {
    k < |COMBINATORS| ==>
      var c := COMBINATORS[k];
      && (Under(s, c).Branches? ==> |Retained(Under(s, c).ss)| != 1)
      && NoCollapse(s, k + 1)
  }

  lemma {:induction false} NoNullName(ts: seq<TypeName>)
    ensures NullType !in WithoutNull(ts)
  {
    if ts != [] {
      NoNullName(ts[1..]);
    }
  }

  lemma {:induction false} TypesSurvive(s: Schema, k: nat)
    requires s.Object? && k <= |COMBINATORS| && NoCollapse(s, k)
    ensures var t := StripFrom(s, k); t == REJECT || (t.Object? && t.types == s.types)
    decreases |COMBINATORS| - k
  {
    if k < |COMBINATORS| {
      var c := COMBINATORS[k];
      match Under(s, c)
      case Absent => TypesSurvive(s, k + 1);
      case Branches(ss) =>
        if |Retained(ss)| > 1 {
          SameAbove(s, c, Retained(ss), k);
          TypesSurvive(WithBranches(s, c, Retained(ss)), k + 1);
        }
    }
  }

  /** Rewriting one combinator leaves the later ones alone. */
  lemma SameAbove(s: Schema, c: Combinator, ss: seq<Schema>, k: nat)
    requires s.Object? && k < |COMBINATORS| && c == COMBINATORS[k]
    ensures NoCollapse(WithBranches(s, c, ss), k + 1) == NoCollapse(s, k + 1)
  {
    assert COMBINATORS[0] == AnyOf && COMBINATORS[1] == OneOf && COMBINATORS[2] == AllOf;
    var s' := WithBranches(s, c, ss);
    assert NoCollapse(s', 3) == NoCollapse(s, 3);
    if k < 2 {
      assert NoCollapse(s', 2) == NoCollapse(s, 2);
    }
  }

  /** A node with a `type` whose combinators do not collapse shuts out null; so a collapse is the only way in. */
  lemma TypedShutsOut(s: Schema)
    requires s.Object? && s.types != None && NoCollapse(s, 0)
    ensures ShutsOutNull(s)
  {
    var s' := WithStrippedTypes(s);
    assert NoCollapse(s', 0) by {
      assert COMBINATORS[0] == AnyOf && COMBINATORS[1] == OneOf && COMBINATORS[2] == AllOf;
      assert NoCollapse(s', 3) == NoCollapse(s, 3);
      assert NoCollapse(s', 2) == NoCollapse(s, 2);
      assert NoCollapse(s', 1) == NoCollapse(s, 1);
    }
    TypesSurvive(s', 0);
    match s.types.value
    case One(t) =>
    case Many(ts) =>
      NoNullName(ts);
      forall i | 0 <= i < |WithoutNull(ts)|
        ensures !HasType(Null, WithoutNull(ts)[i])
      {
        assert WithoutNull(ts)[i] in WithoutNull(ts);
      }
  }

  /** `{"anyOf": [{"type": ["string", "null"]}, {"type": "null"}]}`: the branch left is not stripped again. */
  lemma NullAcceptedExample(w: World)
    ensures var s := Wrapper(None, Branches([EMPTY_OBJECT.(types := Some(Many([StringType, NullType]))), Typed(NullType)]), Absent);
      Accepts(w, Transform(s), Null)
  {
    var only := EMPTY_OBJECT.(types := Some(Many([StringType, NullType])));
    var s := Wrapper(None, Branches([only, Typed(NullType)]), Absent);
    assert only.types.value.ts[0] == StringType && only.types.value.ts[1] == NullType;
    DropNullBranch(only);
    assert COMBINATORS[0] == AnyOf && WithStrippedTypes(s) == s;
    assert Strip(s) == StripFrom(s, 0) == Collapsed(s, only);
    assert HasType(Null, only.types.value.ts[1]);
    assert Transform(s) == only;
  }
}
