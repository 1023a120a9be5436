/**
 JSON Schema validation of the keywords the contract check looks at (draft
 2020-12, with `format` as an annotation), and the fragment of documents in
 which no other keyword occurs.
*/
module JsonSchema {
  import opened Wrappers
  import opened TsTypes
  import opened WireChecker
  import opened WireMeaning
  import opened OpenApiChecker

  predicate HasType(name: string, j: Json) {
    || (name == "null" && j == Null)
    || (name == "boolean" && j.Boolean?)
    || (name == "string" && j.Text?)
    || (name == "number" && j.Number?)
    || (name == "integer" && j.Number? && Integral(j.n))
    || (name == "array" && j.List?)
    || (name == "object" && j.Dict?)
  }

  predicate TypeAdmits(t: TypeKeyword, j: Json) {
    match t
    case Untyped => true
    case One(n) => HasType(n, j)
    case Many(ns) => exists i :: 0 <= i < |ns| && HasType(ns[i], j)
  }

  /** Validation (JSON Schema draft 2020-12, with `format` as an annotation): the
      verdict once references have been followed often enough. */
  ghost predicate Conforms(defs: map<string, Schema>, s: Schema, j: Json)
    decreases j, 3
  {
    exists n: nat :: ConformsFrom(defs, s, j, n)
  }

  ghost predicate ConformsFrom(defs: map<string, Schema>, s: Schema, j: Json, n: nat)
    decreases j, 2
  {
    forall k: nat :: k >= n ==> ConformsWithin(defs, s, j, k)
  }

  ghost predicate ConformsWithin(defs: map<string, Schema>, s: Schema, j: Json, n: nat)
    decreases j, 1, n, s, 1
  {
    && s.Schema?
    && KeywordsConform(defs, s, j)
    && (s.ref.Some? ==> n > 0 && s.ref.value in defs && ConformsWithin(defs, defs[s.ref.value], j, n - 1))
    && CompositesConform(defs, s, j, n)
  }

  ghost predicate KeywordsConform(defs: map<string, Schema>, s: Schema, j: Json)
    requires s.Schema?
    decreases j, 0, 1
  {
    && TypeAdmits(s.ty, j)
    && (s.enum.Some? ==> j in s.enum.value)
    && (j.List? && s.items.Some? ==> forall i :: 0 <= i < |j.items| ==> Conforms(defs, s.items.value, j.items[i]))
    && (j.Dict? ==> DictConforms(defs, s, j))
  }

  ghost predicate CompositesConform(defs: map<string, Schema>, s: Schema, j: Json, n: nat)
    requires s.Schema?
    decreases j, 1, n, s, 0
  {
    && (s.any.Listed? ==> exists i :: 0 <= i < |s.any.list| && ConformsWithin(defs, s.any.list[i], j, n))
    && (s.one.Listed? ==>
          exists i :: 0 <= i < |s.one.list| && ConformsWithin(defs, s.one.list[i], j, n)
            && forall k :: 0 <= k < |s.one.list| && k != i ==> !ConformsWithin(defs, s.one.list[k], j, n))
    && (s.all.Listed? ==> forall i :: 0 <= i < |s.all.list| ==> ConformsWithin(defs, s.all.list[i], j, n))
  }

  ghost predicate DictConforms(defs: map<string, Schema>, s: Schema, j: Json)
    requires s.Schema? && j.Dict?
    decreases j, 0, 0
  {
    && (forall k :: k in s.required ==> k in j.fields)
    && forall k :: k in j.fields ==>
         if s.properties.Some? && k in s.properties.value then Conforms(defs, s.properties.value[k], j.fields[k])
         else !s.closed && (s.additional.Some? ==> Conforms(defs, s.additional.value, j.fields[k]))
  }

  // The fragment the checker inspects

  predicate ObjectSchema(s: Schema) {
    s.Schema? && s.ty == One("object")
    && s == EMPTY.(ty := s.ty, properties := s.properties, required := s.required, closed := s.closed,
                   annotated := s.annotated)
  }

  /** A pure reference that leads to a plain object component. */
  predicate ObjectReference(defs: map<string, Schema>, s: Schema) {
    && PureAlias(s)
    && Resolve(defs, s.ref.value, {}).Some? && ObjectSchema(Resolve(defs, s.ref.value, {}).value)
  }

  predicate Plain(s: Schema, rest: Schema) {
    s.Schema? && rest.Schema? && s == rest.(ty := s.ty, annotated := s.annotated, format := s.format)
  }

  /** Nothing but a composite keyword and annotations. */
  predicate OnlyComposite(s: Schema) {
    s.Schema? && Composite(s).Listed?
    && s == (if s.any.Listed? then EMPTY.(any := s.any) else if s.one.Listed? then EMPTY.(one := s.one)
             else EMPTY.(all := s.all)).(annotated := s.annotated)
  }

  /** No keyword occurs where the checker does not look at it. */
  predicate Fragment(defs: map<string, Schema>, go: GoType, s: Schema)
    decreases go, s
  {
    && s.Schema?
    && match Composite(s)
       case Listed(vs) =>
         && OnlyComposite(s)
         && forall i :: 0 <= i < |vs| && vs[i] != NULL_SCHEMA ==> Fragment(defs, go, vs[i])
       case Absent =>
         match Bare(go)
         case Slice(e) => Plain(s, EMPTY.(items := s.items)) && s.items.Some? && Fragment(defs, e, s.items.value)
         case Map(v) =>
           Plain(s, EMPTY.(additional := s.additional)) && s.additional.Some? && Fragment(defs, v, s.additional.value)
         case Named(_, _) => Plain(s, EMPTY.(enum := s.enum)) || ObjectReference(defs, s)
  }

  lemma FragmentParts(defs: map<string, Schema>, go: GoType, s: Schema)
    requires Fragment(defs, go, s)
    ensures s.Schema? && (Composite(s).Listed? ==> OnlyComposite(s))
    ensures s.ty.Many? ==> s.ref == None && Composite(s).Absent?
  {
    if Composite(s).Listed? { CompositeShape(s); }
  }

  // Null

  /** Whether a schema of the fragment admits null, read off its keywords. */
  predicate TakesNull(s: Schema)
    decreases s
  {
    && s.Schema? && s.ref == None && TypeAdmits(s.ty, Null)
    && (s.enum.Some? ==> Null in s.enum.value)
    && (s.any.Listed? ==> exists i :: 0 <= i < |s.any.list| && TakesNull(s.any.list[i]))
    && (s.one.Listed? ==>
          exists i :: 0 <= i < |s.one.list| && TakesNull(s.one.list[i])
            && forall k :: 0 <= k < |s.one.list| && k != i ==> !TakesNull(s.one.list[k]))
    && (s.all.Listed? ==> forall i :: 0 <= i < |s.all.list| ==> TakesNull(s.all.list[i]))
  }

  lemma {:induction false} ComponentRejectsNull(defs: map<string, Schema>, name: string, seen: set<string>, n: nat)
    requires Resolve(defs, name, seen).Some? && ObjectSchema(Resolve(defs, name, seen).value)
    ensures !ConformsWithin(defs, defs[name], Null, n)
    decreases n
  {
    var s := defs[name];
    if s.Schema? && s.ref.Some? && n > 0 {
      ComponentRejectsNull(defs, s.ref.value, seen + {name}, n - 1);
    }
  }

  /** In the fragment that reading is exact. */
  lemma {:induction false} NullConforms(defs: map<string, Schema>, go: GoType, s: Schema, n: nat)
    requires s == NULL_SCHEMA || Fragment(defs, go, s)
    ensures ConformsWithin(defs, s, Null, n) <==> TakesNull(s)
    decreases s
  {
    hide ObjectSchema, OnlyComposite;
    if s != NULL_SCHEMA {
      match Composite(s)
      case Listed(vs) =>
        forall i | 0 <= i < |vs| ensures ConformsWithin(defs, vs[i], Null, n) <==> TakesNull(vs[i]) {
          VariantSmaller(s, vs, i);
          NullConforms(defs, go, vs[i], n);
        }
        NullComposite(defs, s, n);
      case Absent =>
        if s.ref.Some? {
          if n > 0 { ComponentRejectsNull(defs, s.ref.value, {}, n - 1); }
        }
    }
  }

  lemma NullComposite(defs: map<string, Schema>, s: Schema, n: nat)
    requires OnlyComposite(s)
    requires forall i :: 0 <= i < |Composite(s).list| ==>
               (ConformsWithin(defs, Composite(s).list[i], Null, n) <==> TakesNull(Composite(s).list[i]))
    ensures ConformsWithin(defs, s, Null, n) <==> TakesNull(s)
  {
    hide OnlyComposite, ConformsWithin, KeywordsConform;
    CompositeShape(s);
    CompositeMeaning(defs, s, Null, n);
  }

  lemma VariantSmaller(s: Schema, vs: seq<Schema>, i: nat)
    requires s.Schema? && Composite(s) == Listed(vs) && i < |vs|
    ensures vs[i] < s
  {
  }

  lemma NullAt(defs: map<string, Schema>, go: GoType, s: Schema)
    requires Fragment(defs, go, s)
    ensures Conforms(defs, s, Null) <==> TakesNull(s)
  {
    hide ConformsWithin, TakesNull, Fragment;
    forall n: nat ensures ConformsWithin(defs, s, Null, n) <==> TakesNull(s) {
      NullConforms(defs, go, s, n);
    }
    if TakesNull(s) { assert ConformsFrom(defs, s, Null, 0); }
    if n: nat :| ConformsFrom(defs, s, Null, n) { assert ConformsWithin(defs, s, Null, n); }
  }

  /** A nullable schema takes null when it has no enum, or when null is an
      alternative of anyOf. */
  lemma {:induction false} NullableTakesNull(defs: map<string, Schema>, go: GoType, s: Schema)
    requires Fragment(defs, go, s) && Nullable(s)
    requires if s.ty.Many? then s.enum == None
             else s.any.Listed? && exists i :: 0 <= i < |s.any.list| && s.any.list[i] == NULL_SCHEMA
    ensures TakesNull(s)
  {
    hide Fragment;
    FragmentParts(defs, go, s);
    if s.ty.Many? {
      assert TypeAdmits(s.ty, Null) by {
        var i :| 0 <= i < |s.ty.names| && s.ty.names[i] == "null";
      }
    } else {
      CompositeShape(s);
      assert TakesNull(NULL_SCHEMA);
    }
  }

  // Composites

  lemma ConformsAt(defs: map<string, Schema>, s: Schema, j: Json, n: nat)
    requires ConformsFrom(defs, s, j, n)
    ensures Conforms(defs, s, j)
  {
  }

  lemma CompositeShape(s: Schema)
    requires OnlyComposite(s)
    ensures s.Schema? && Composite(s).Listed?
    ensures s.ty == Untyped && s.enum == None && s.items == None && s.additional == None && s.properties == None
    ensures s.required == [] && !s.closed && s.ref == None
    ensures || (s.any == Composite(s) && s.one.Absent? && s.all.Absent?)
            || (s.one == Composite(s) && s.any.Absent? && s.all.Absent?)
            || (s.all == Composite(s) && s.any.Absent? && s.one.Absent?)
  {
  }

  lemma NoKeywords(defs: map<string, Schema>, s: Schema, j: Json)
    requires s.Schema? && s.ty == Untyped && s.enum == None && s.items == None && s.additional == None
    requires s.properties == None && s.required == [] && !s.closed
    ensures KeywordsConform(defs, s, j)
  {
  }

  lemma CompositeMeaning(defs: map<string, Schema>, s: Schema, j: Json, n: nat)
    requires OnlyComposite(s)
    ensures ConformsWithin(defs, s, j, n) <==> CompositesConform(defs, s, j, n)
  {
    hide OnlyComposite, KeywordsConform, CompositesConform;
    CompositeShape(s);
    NoKeywords(defs, s, j);
  }

  lemma OnlyNull(defs: map<string, Schema>, j: Json, n: nat)
    requires j != Null
    ensures !ConformsWithin(defs, NULL_SCHEMA, j, n)
  {
  }

  /** A non-null value conforms to a composite of one alternative and nulls
      exactly when it conforms to the alternative. */
  lemma CompositeWithin(defs: map<string, Schema>, s: Schema, vs: seq<Schema>, i: nat, j: Json, n: nat)
    requires OnlyComposite(s) && Composite(s) == Listed(vs) && i < |vs| && j != Null
    requires forall k :: 0 <= k < |vs| && k != i ==> vs[k] == NULL_SCHEMA
    requires s.any.Absent? && s.one.Absent? ==> |vs| == 1
    ensures ConformsWithin(defs, s, j, n) <==> ConformsWithin(defs, vs[i], j, n)
  {
    hide ConformsWithin, OnlyComposite;
    CompositeMeaning(defs, s, j, n);
    CompositeShape(s);
    OnlyNull(defs, j, n);
    assert forall k :: 0 <= k < |vs| && k != i ==> !ConformsWithin(defs, vs[k], j, n);
  }

  lemma CompositeConforms(defs: map<string, Schema>, s: Schema, vs: seq<Schema>, i: nat, j: Json)
    requires OnlyComposite(s) && Composite(s) == Listed(vs) && i < |vs| && j != Null
    requires forall k :: 0 <= k < |vs| && k != i ==> vs[k] == NULL_SCHEMA
    requires s.any.Absent? && s.one.Absent? ==> |vs| == 1
    ensures Conforms(defs, s, j) <==> Conforms(defs, vs[i], j)
  {
    hide ConformsWithin;
    forall n: nat ensures ConformsWithin(defs, s, j, n) <==> ConformsWithin(defs, vs[i], j, n) {
      CompositeWithin(defs, s, vs, i, j, n);
    }
    if n: nat :| ConformsFrom(defs, s, j, n) { ConformsAt(defs, vs[i], j, n); }
    if n: nat :| ConformsFrom(defs, vs[i], j, n) { ConformsAt(defs, s, j, n); }
  }

  // Other nodes

  lemma ScalarNode(defs: map<string, Schema>, s: Schema, j: Json)
    requires s.Schema? && Plain(s, EMPTY.(enum := s.enum)) && TypeAdmits(s.ty, j) && !j.Dict?
    requires s.enum.Some? ==> j in s.enum.value
    ensures Conforms(defs, s, j)
  {
    forall n: nat ensures ConformsWithin(defs, s, j, n) { }
    assert ConformsFrom(defs, s, j, 0);
  }

  lemma ListConforms(defs: map<string, Schema>, s: Schema, j: Json)
    requires s.Schema? && Plain(s, EMPTY.(items := s.items)) && s.items.Some? && Types(s) == {"array"} && s.enum == None
    requires j.List? && forall i :: 0 <= i < |j.items| ==> Conforms(defs, s.items.value, j.items[i])
    ensures Conforms(defs, s, j)
  {
    assert TypeAdmits(s.ty, j) by { assert "array" in Types(s); }
    forall n: nat ensures ConformsWithin(defs, s, j, n) { }
    assert ConformsFrom(defs, s, j, 0);
  }

  lemma MapConforms(defs: map<string, Schema>, s: Schema, j: Json)
    requires s.Schema? && Plain(s, EMPTY.(additional := s.additional)) && s.additional.Some? && Types(s) == {"object"}
    requires j.Dict? && forall k :: k in j.fields ==> Conforms(defs, s.additional.value, j.fields[k])
    ensures Conforms(defs, s, j)
  {
    assert TypeAdmits(s.ty, j) by { assert "object" in Types(s); }
    assert DictConforms(defs, s, j);
    forall n: nat ensures ConformsWithin(defs, s, j, n) { }
    assert ConformsFrom(defs, s, j, 0);
  }

  lemma ObjectNode(defs: map<string, Schema>, s: Schema, j: Json)
    requires ObjectSchema(s) && s.properties.Some? && j.Dict?
    requires forall k :: k in s.required ==> k in j.fields
    requires forall k :: k in j.fields ==> k in s.properties.value && Conforms(defs, s.properties.value[k], j.fields[k])
    ensures Conforms(defs, s, j)
  {
    assert DictConforms(defs, s, j);
    forall n: nat ensures ConformsWithin(defs, s, j, n) { }
    assert ConformsFrom(defs, s, j, 0);
  }

  /** A reference conforms as its resolved component does. */
  lemma {:induction false} ResolvedConforms(defs: map<string, Schema>, name: string, seen: set<string>,
      j: Json) returns (n: nat)
    requires Resolve(defs, name, seen).Some? && Conforms(defs, Resolve(defs, name, seen).value, j)
    ensures ConformsFrom(defs, defs[name], j, n)
    decreases defs.Keys - seen
  {
    var s := defs[name];
    if s.Schema? && s.ref.Some? {
      assert name in defs.Keys - seen;
      var k := ResolvedConforms(defs, s.ref.value, seen + {name}, j);
      n := k + 1;
      forall i: nat | i >= n ensures ConformsWithin(defs, s, j, i) {
        assert ConformsWithin(defs, defs[s.ref.value], j, i - 1);
      }
    } else {
      n :| ConformsFrom(defs, s, j, n);
    }
  }

  lemma ReferenceConforms(defs: map<string, Schema>, s: Schema, j: Json)
    requires PureAlias(s) && Resolve(defs, s.ref.value, {}).Some?
             && Conforms(defs, Resolve(defs, s.ref.value, {}).value, j)
    ensures Conforms(defs, s, j)
  {
    var k := ResolvedConforms(defs, s.ref.value, {}, j);
    forall i: nat | i >= k + 1 ensures ConformsWithin(defs, s, j, i) {
      assert ConformsWithin(defs, defs[s.ref.value], j, i - 1);
    }
    assert ConformsFrom(defs, s, j, k + 1);
  }
}
