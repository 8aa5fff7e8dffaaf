/**
  Removing null acceptance from a JSON schema (`RemoveNullTypes`), and what it means for validation.

  Keywords are read as in JSON Schema Validation draft-07: sections 6.1.1 to 6.1.3 for `type`, `enum` and
  `const`, section 6.7 for the combinators.  `$ref` and the keywords the rewriting never looks at are opaque
  assertions, given by a `World`.
 */
module Schema {
  import opened Wrappers

  datatype Json = Null | Bool(b: bool) | Num(r: real) | Str(s: string) | Arr(items: seq<Json>) | Obj(members: seq<Member>)

  datatype Member = Member(name: string, value: Json)

  predicate NullFree(v: Json) {
    match v
    case Null => false
    case Arr(items) => forall i | 0 <= i < |items| :: NullFree(items[i])
    case Obj(members) => forall i | 0 <= i < |members| :: NullFree(members[i].value)
    case _ => true
  }

  datatype TypeName = NullType | BooleanType | ObjectType | ArrayType | NumberType | StringType | IntegerType

  datatype Types = One(t: TypeName) | Many(ts: seq<TypeName>)

  datatype Property = Property(name: string, schema: Schema)

  /** The branches of a combinator, if the keyword is there. */
  datatype Branching = Absent | Branches(ss: seq<Schema>)

  datatype Schema =
    | Boolean(accepts: bool)
    | Object(
        types: Option<Types>,
        anyOf: Branching,
        oneOf: Branching,
        allOf: Branching,
        neg: Option<Schema>,
        properties: seq<Property>,
        additional: Option<Schema>,
        items: Option<Schema>,
        constant: Option<Json>,
        enumeration: Option<seq<Json>>,
        reference: Option<string>,
        other: Option<string>,
        annotations: map<string, Json>)

  // ---- validation ----

  /** The meaning of `$ref` targets and of the keywords that the rewriting leaves alone. */
  datatype World = World(refs: (string, Json) -> bool, others: (string, Json) -> bool)

  predicate HasType(v: Json, t: TypeName) {
    match t
    case NullType => v.Null?
    case BooleanType => v.Bool?
    case ObjectType => v.Obj?
    case ArrayType => v.Arr?
    case NumberType => v.Num?
    case StringType => v.Str?
    case IntegerType => v.Num? && v.r.Floor as real == v.r
  }

  predicate TypesAccept(types: Types, v: Json) {
    match types
    case One(t) => HasType(v, t)
    case Many(ts) => exists i | 0 <= i < |ts| :: HasType(v, ts[i])
  }

  predicate Accepts(w: World, s: Schema, v: Json)
    decreases s, 2
  {
    match s
    case Boolean(b) => b
    case Object(_, _, _, _, _, _, _, _, _, _, _, _, _) =>
      FlatAccept(w, s, v) && CombinatorsAccept(w, s, v) && MembersAccept(w, s, v) && ItemsAccept(w, s, v)
  }

  /** The assertions without subschemas. */
  predicate FlatAccept(w: World, s: Schema, v: Json)
    requires s.Object?
  {
    && (s.types == None || TypesAccept(s.types.value, v))
    && (s.constant == None || v == s.constant.value)
    && (s.enumeration == None || v in s.enumeration.value)
    && (s.reference == None || w.refs(s.reference.value, v))
    && (s.other == None || w.others(s.other.value, v))
  }

  predicate CombinatorsAccept(w: World, s: Schema, v: Json)
    requires s.Object?
    decreases s, 1
  {
    && (s.anyOf == Absent || Accepting(w, s.anyOf.ss, v) > 0)
    && (s.oneOf == Absent || Accepting(w, s.oneOf.ss, v) == 1)
    && (s.allOf == Absent || Accepting(w, s.allOf.ss, v) == |s.allOf.ss|)
    && (s.neg == None || !Accepts(w, s.neg.value, v))
  }

  predicate MembersAccept(w: World, s: Schema, v: Json)
    requires s.Object?
    decreases s, 1
  {
    v.Obj? ==>
      && (forall i, j | 0 <= i < |v.members| && 0 <= j < |s.properties| && s.properties[j].name == v.members[i].name ::
            Accepts(w, s.properties[j].schema, v.members[i].value))
      && (s.additional != None ==> forall i | 0 <= i < |v.members| && !Named(s.properties, v.members[i].name) ::
            Accepts(w, s.additional.value, v.members[i].value))
  }

  predicate ItemsAccept(w: World, s: Schema, v: Json)
    requires s.Object?
    decreases s, 1
  {
    v.Arr? && s.items != None ==> forall i | 0 <= i < |v.items| :: Accepts(w, s.items.value, v.items[i])
  }

  /** How many of the schemas accept `v`. */
  function Accepting(w: World, ss: seq<Schema>, v: Json): (n: nat)
    ensures n <= |ss|
    decreases ss, 0
  {
    if ss == [] then 0 else (if Accepts(w, ss[0], v) then 1 else 0) + Accepting(w, ss[1..], v)
  }

  predicate Named(properties: seq<Property>, name: string) {
    exists j | 0 <= j < |properties| :: properties[j].name == name
  }

  // ---- one node ----

  /** A combinator branch removed as "explicitly null". */
  predicate NullOnly(s: Schema) {
    && s.Object? && s.types != None
    && match s.types.value
       case One(t) => t == NullType
       case Many(ts) => forall i | 0 <= i < |ts| :: ts[i] == NullType
  }

  function Retained(ss: seq<Schema>): seq<Schema> {
    if ss == [] then []
    else if NullOnly(ss[0]) then Retained(ss[1..])
    else [ss[0]] + Retained(ss[1..])
  }

  function WithoutNull(ts: seq<TypeName>): seq<TypeName> {
    if ts == [] then []
    else if ts[0] == NullType then WithoutNull(ts[1..])
    else [ts[0]] + WithoutNull(ts[1..])
  }

  const REJECT := Boolean(false)

  const NOTHING_LEFT: Types := Many([])

  function StrippedTypes(types: Types): Types {
    match types
    case One(t) => if t == NullType then NOTHING_LEFT else types
    case Many(ts) => var left := WithoutNull(ts); if |left| == 1 then One(left[0]) else Many(left)
  }

  datatype Combinator = AnyOf | OneOf | AllOf

  const COMBINATORS := [AnyOf, OneOf, AllOf]

  function Under(s: Schema, c: Combinator): Branching
    requires s.Object?
  {
    match c case AnyOf => s.anyOf case OneOf => s.oneOf case AllOf => s.allOf
  }

  function WithBranches(s: Schema, c: Combinator, ss: seq<Schema>): (s': Schema)
    requires s.Object?
    ensures s'.Object?
  {
    match c case AnyOf => s.(anyOf := Branches(ss)) case OneOf => s.(oneOf := Branches(ss)) case AllOf => s.(allOf := Branches(ss))
  }

  /** The single branch left takes over, with the wrapper's annotations where it has none of its own. */
  function Collapsed(s: Schema, only: Schema): Schema
    requires s.Object?
  {
    if only.Boolean? then only else only.(annotations := s.annotations + only.annotations)
  }

  function StrippedDefault(annotations: map<string, Json>): map<string, Json> {
    if "default" in annotations && annotations["default"] == Null then annotations - {"default"} else annotations
  }

  /** The combinators from the `k`-th on, and then the checks for a lone null value. */
  function StripFrom(s: Schema, k: nat): Schema
    requires s.Object? && k <= |COMBINATORS|
    decreases |COMBINATORS| - k
  {
    if k == |COMBINATORS| then
      if s.constant == Some(Null) then REJECT
      else if s.enumeration != None && s.enumeration.value != [] && (forall i | 0 <= i < |s.enumeration.value| :: s.enumeration.value[i] == Null) then REJECT
      else s
    else
      var c := COMBINATORS[k];
      match Under(s, c)
      case Absent => StripFrom(s, k + 1)
      case Branches(ss) =>
        var left := Retained(ss);
        if left == [] then REJECT
        else if |left| == 1 then Collapsed(s, left[0])
        else StripFrom(WithBranches(s, c, left), k + 1)
  }

  function WithStrippedTypes(s: Schema): (s': Schema)
    requires s.Object?
    ensures s'.Object?
  {
    s.(annotations := StrippedDefault(s.annotations),
       types := match s.types case None => None case Some(ts) => Some(StrippedTypes(ts)))
  }

  /** `strip_null_acceptance`. */
  function Strip(s: Schema): Schema {
    if s.Boolean? then s
    else
      var s' := WithStrippedTypes(s);
      if s'.types == Some(NOTHING_LEFT) then REJECT else StripFrom(s', 0)
  }

  /** The filter over a `type` array. */
  method RemoveNullName(ts: seq<TypeName>) returns (left: seq<TypeName>)
    ensures left == WithoutNull(ts)
  {
    left := [];
    for i := 0 to |ts|
      invariant WithoutNull(ts) == left + WithoutNull(ts[i..])
    {
      assert ts[i..][1..] == ts[i + 1..];
      if ts[i] != NullType {
        assert left + ([ts[i]] + WithoutNull(ts[i + 1..])) == left + [ts[i]] + WithoutNull(ts[i + 1..]);
        left := left + [ts[i]];
      }
    }
  }

  /** The filter over the branches of a combinator. */
  method RemoveNullBranches(ss: seq<Schema>) returns (left: seq<Schema>)
    ensures left == Retained(ss)
  {
    left := [];
    for i := 0 to |ss|
      invariant Retained(ss) == left + Retained(ss[i..])
    {
      assert ss[i..][1..] == ss[i + 1..];
      if !NullOnly(ss[i]) {
        assert left + ([ss[i]] + Retained(ss[i + 1..])) == left + [ss[i]] + Retained(ss[i + 1..]);
        left := left + [ss[i]];
      }
    }
  }

  /** The part of `strip_null_acceptance` that looks at `default` and `type`; `None` once the schema is rejected. */
  method StripTypes(schema: Schema) returns (r: Option<Schema>)
    requires schema.Object?
    ensures r == if WithStrippedTypes(schema).types == Some(NOTHING_LEFT) then None else Some(WithStrippedTypes(schema))
  {
    var s := schema;
    if "default" in s.annotations && s.annotations["default"] == Null {
      s := s.(annotations := s.annotations - {"default"});
    }
    if s.types == None {
      return Some(s);
    }
    match s.types.value {
      case One(t) =>
        if t == NullType {
          return None;
        }
      case Many(ts) =>
        var left := RemoveNullName(ts);
        if |left| == 0 {
          return None;
        }
        s := s.(types := Some(if |left| == 1 then One(left[0]) else Many(left)));
    }
    return Some(s);
  }

  /** `strip_null_acceptance` as the program runs it, rewriting one schema object. */
  method StripNullAcceptance(schema: Schema) returns (r: Schema)
    ensures r == Strip(schema)
  {
    if schema.Boolean? {
      return schema;
    }
    var typed := StripTypes(schema);
    if typed == None {
      return REJECT;
    }
    r := typed.value;
    for k := 0 to |COMBINATORS|
      invariant r.Object?
      invariant StripFrom(r, k) == Strip(schema)
    {
      var c := COMBINATORS[k];
      var under := Under(r, c);
      if under != Absent {
        var left := RemoveNullBranches(under.ss);
        if left == [] {
          return REJECT;
        }
        if |left| == 1 {
          return Collapsed(r, left[0]);
        }
        r := WithBranches(r, c, left);
      }
    }
    if r.constant == Some(Null) {
      return REJECT;
    }
    if r.enumeration != None && r.enumeration.value != [] && forall i | 0 <= i < |r.enumeration.value| :: r.enumeration.value[i] == Null {
      return REJECT;
    }
    return r;
  }
}
