/**
 Every Go source has a document that passes both checks and is exact: it takes what
 Go writes, and nothing TypeScript does not admit.  Nullable scalars and collections
 list null beside their type, a pointer to a struct is an anyOf of its reference and
 null, and every component is closed and requires what Go always writes.
*/
module CanonicalDocument {
  import opened Wrappers
  import opened TsTypes
  import opened WireChecker
  import opened WireMeaning
  import opened WireSound
  import opened WireLimits
  import opened Canonical
  import opened OpenApiChecker
  import opened JsonSchema
  import opened OpenApiNodes
  import opened OpenApiSound
  import opened OpenApiConverse
  import opened ScalarLaws

  function KindOf(t: GoType): string
    requires t.Named?
  {
    match GoScalar(t) case Some(k) => SchemaType(k) case None => "string"
  }

  function FormatOf(t: GoType): Option<string> {
    if t == UUID then Some("uuid") else if t == TIME then Some("date-time") else None
  }

  predicate IsScalar(go: GoSource, t: GoType) { t.Named? && (GoScalar(t).Some? || t.short in go.stringTypes) }

  function ReferenceTo(name: string): Schema { EMPTY.(ref := Some(name)) }

  function SchemaOf(go: GoSource, t: GoType): Schema {
    var bare := Bare(t);
    match bare
    case Slice(e) => EMPTY.(ty := Many(["array", "null"]), items := Some(SchemaOf(go, e)))
    case Map(v) => EMPTY.(ty := Many(["object", "null"]), additional := Some(SchemaOf(go, v)))
    case Named(_, short) =>
      if IsScalar(go, bare) then
        EMPTY.(ty := if t.Pointer? then Many([KindOf(bare), "null"]) else One(KindOf(bare)), format := FormatOf(bare))
      else if t.Pointer? then EMPTY.(any := Listed([ReferenceTo(short), NULL_SCHEMA]))
      else ReferenceTo(short)
  }

  ghost function ComponentOf(go: GoSource, s: GoStruct): Schema {
    EMPTY.(ty := One("object"), properties := Some(map n | n in s :: SchemaOf(go, s[n].ty)),
           required := ListOf(RequiredNames(s)), closed := true)
  }

  ghost function DocumentOf(go: GoSource): OpenWorld {
    var own := map n | n in go.structs :: n;
    OpenWorld(WorldOf(go), own, map n | n in go.structs :: ComponentOf(go, go.structs[n]), own)
  }

  /** Predeclared names are unqualified, and nothing is raw JSON. */
  predicate Predeclared(t: GoType) {
    match t
    case Pointer(u) => Predeclared(u)
    case Slice(e) => Predeclared(e)
    case Map(v) => Predeclared(v)
    case Named(q, short) => short != "RawMessage" && (GoScalar(t).Some? ==> q == "" || t == UUID || t == TIME)
  }

  predicate Documentable(go: GoSource) {
    && Representable(go) && "RawMessage" !in go.structs && "RawMessage" !in go.stringTypes
    && forall n, f :: n in go.structs && f in go.structs[n] ==> Predeclared(go.structs[n][f].ty)
  }

  // Nodes

  lemma WithNull(kind: string, s: Schema)
    requires s.Schema? && s.ty == Many([kind, "null"]) && s.enum == None && s.ref == None
    requires s.any.Absent? && s.one.Absent? && s.all.Absent?
    ensures Nullable(s) && TakesNull(s) && (kind != "null" ==> Types(s) == {kind})
  {
    assert [kind, "null"][0] == kind && [kind, "null"][1] == "null";
    assert HasType("null", Null);
  }

  lemma OrReference(name: string, s: Schema)
    requires s == EMPTY.(any := Listed([ReferenceTo(name), NULL_SCHEMA]))
    ensures Nullable(s) && TakesNull(s) && Alternatives(s.any.list) == [0]
  {
    var vs := [ReferenceTo(name), NULL_SCHEMA];
    assert vs[..1] == [ReferenceTo(name)] && vs[..1][..0] == [];
    assert Alternatives([]) == [] && Alternatives(vs[..1]) == [0];
    assert vs[1].ty == One("null") && TakesNull(vs[1]);
  }

  /** The null rules of a canonical node. */
  lemma SchemaShape(go: GoSource, t: GoType)
    ensures var s := SchemaOf(go, t);
      && s.Schema? && !s.nullableKeyword && !s.conditional
      && (Nullable(s) <==> !t.Named?) && (TakesNull(s) <==> !t.Named?)
  {
    hide Nullable, TakesNull, GoScalar;
    var s, bare := SchemaOf(go, t), Bare(t);
    match bare
    case Slice(e) => WithNull("array", s);
    case Map(v) => WithNull("object", s);
    case Named(_, short) =>
      if t.Pointer? {
        if IsScalar(go, bare) { WithNull(KindOf(bare), s); } else { OrReference(short, s); }
      } else {
        NoNull(go, t);
      }
  }

  lemma NoNull(go: GoSource, t: GoType)
    requires t.Named?
    ensures !Nullable(SchemaOf(go, t)) && !TakesNull(SchemaOf(go, t))
  {
    assert KindOf(t) != "null";
  }

  // The comparison

  lemma {:induction false} NodeAgrees(go: GoSource, t: GoType, au: bool, rn: bool)
    requires Documentable(go) && Known(WorldOf(go), t) && Predeclared(t) && (rn ==> !t.Named?)
    ensures CompareValue(DocumentOf(go).Ctx(), t, TypeOf(go, t), SchemaOf(go, t), au, rn) == []
    decreases t
  {
    hide Documentable, Known, CompareValue, GoScalar, SchemaOf, TypeOf;
    var bare := Bare(t);
    KnownBare(WorldOf(go), t);
    PredeclaredBare(t);
    if Collection(bare) {
      var e := ElemType(bare);
      assert Known(WorldOf(go), e) by { KnownInside(WorldOf(go), bare); }
      NodeAgrees(go, e, false, e.Pointer?);
      CollectionAgrees(go, t, au, rn);
    } else {
      NamedAgrees(go, t, au, rn);
    }
  }

  lemma CollectionAgrees(go: GoSource, t: GoType, au: bool, rn: bool)
    requires Documentable(go) && Known(WorldOf(go), t) && Collection(Bare(t))
    requires var e := ElemType(Bare(t));
      CompareValue(DocumentOf(go).Ctx(), e, TypeOf(go, e), SchemaOf(go, e), false, e.Pointer?) == []
    ensures CompareValue(DocumentOf(go).Ctx(), t, TypeOf(go, t), SchemaOf(go, t), au, rn) == []
  {
    hide Expanded, Known, CompareElements, NodeProblems, Nullable, TakesNull, Types, Documentable, ComponentOf, TypeOf;
    NullRulesPass(go, t, au, rn);
    var ctx, bare, s := DocumentOf(go).Ctx(), Bare(t), SchemaOf(go, t);
    SchemaShape(go, t);
    SchemaShape(go, ElemType(bare));
    LeavesOf(go, t);
    OneItem(ctx, bare, MemberOf(go, bare), SchemaOf(go, ElemType(bare)));
    WithNull(if bare.Slice? then "array" else "object", s);
    var m := MemberOf(go, bare);
    assert forall x :: x in [m] ==> x == m;
  }

  lemma NullRulesPass(go: GoSource, t: GoType, au: bool, rn: bool)
    requires Documentable(go) && Known(WorldOf(go), t) && (rn ==> !t.Named?)
    ensures NodeProblems(DocumentOf(go).Ctx(), t, TypeOf(go, t), SchemaOf(go, t), au, rn) == []
  {
    hide Expanded, Known, Nullable, TakesNull, Documentable, ComponentOf, SchemaOf, TypeOf;
    SchemaShape(go, t);
    LeavesOf(go, t);
    BareStars(t);
  }

  lemma NamedAgrees(go: GoSource, t: GoType, au: bool, rn: bool)
    requires Documentable(go) && Known(WorldOf(go), t) && Predeclared(t) && Bare(t).Named? && (rn ==> !t.Named?)
    ensures CompareValue(DocumentOf(go).Ctx(), t, TypeOf(go, t), SchemaOf(go, t), au, rn) == []
  {
    hide Expanded, Known, CompareNamed, Nullable, TakesNull, GoScalar, Types, IsScalar, Documentable, ComponentOf;
    NullRulesPass(go, t, au, rn);
    SchemaShape(go, t);
    LeavesOf(go, t);
    PredeclaredBare(t);
    if IsScalar(go, Bare(t)) {
      ScalarPasses(go, t);
    } else {
      StructPasses(go, t);
    }
  }

  lemma PredeclaredBare(t: GoType)
    requires Predeclared(t)
    ensures Predeclared(Bare(t))
  {
  }

  lemma LeavesOf(go: GoSource, t: GoType)
    requires Documentable(go) && Known(WorldOf(go), t)
    ensures var ctx, ts := WorldOf(go).Ctx(), TypeOf(go, t);
      && Leaves(ctx, ts) == [MemberOf(go, Bare(t))] && MemberOf(go, Bare(t)) != Blank
      && (NULL in Expanded(ts, ctx.aliases) <==> !t.Named?) && UNDEFINED !in Expanded(ts, ctx.aliases)
  {
    KnownBare(WorldOf(go), t);
    if Bare(t).Named? { NameIsNoNull(go, Bare(t)); }
    TypeMembers(go, t);
    ExpandPlain(TypeOf(go, t).Members());
  }

  lemma OneItem(ctx: OpenContext, bare: GoType, m: Member, s: Schema)
    requires Collection(bare) && Form(bare, m)
    requires CompareValue(ctx, ElemType(bare), MemberElem(bare, m), s, false, ElemType(bare).Pointer?) == []
    ensures CompareElements(ctx, bare, [m], s) == []
  {
    hide CompareValue;
    assert [m][1..] == [] && CompareElements(ctx, bare, [], s) == [];
  }

  lemma ScalarPasses(go: GoSource, t: GoType)
    requires Documentable(go) && Known(WorldOf(go), t) && Predeclared(Bare(t)) && IsScalar(go, Bare(t))
    ensures CompareNamed(DocumentOf(go).Ctx(), Bare(t), TypeOf(go, t), SchemaOf(go, t)) == []
    ensures Composite(SchemaOf(go, t)).Absent?
  {
    hide Expanded, Known, Types, EnumAgrees;
    var bare, s := Bare(t), SchemaOf(go, t);
    LeavesOf(go, t);
    if bare.qualifier == "" && GoScalar(bare).Some? { FloatNames(bare); }
    assert ExpectedScalar(bare, go.stringTypes).value.0 == KindOf(bare);
    KindTypes(KindOf(bare), s);
    NoEnum(KindOf(bare), NameOf(go, bare));
  }

  lemma KindTypes(kind: string, s: Schema)
    requires kind != "null" && s.Schema? && (s.ty == One(kind) || s.ty == Many([kind, "null"]))
    ensures Types(s) == {kind}
  {
    assert [kind, "null"][0] == kind;
  }

  /** A struct by its component, with a null beside it behind a pointer. */
  lemma StructPasses(go: GoSource, t: GoType)
    requires Documentable(go) && Known(WorldOf(go), t) && Predeclared(t)
    requires Bare(t).Named? && !IsScalar(go, Bare(t))
    ensures var ctx, s := DocumentOf(go).Ctx(), SchemaOf(go, t);
      match Composite(s)
      case Absent => CompareNamed(ctx, Bare(t), TypeOf(go, t), s) == []
      case Listed(vs) =>
        && Alternatives(vs) == [0] && s.any.Listed? && s.ty == Untyped && s.ref == None
        && |vs| == 2 && vs[0].Schema? && vs[1].Schema?
        && CompareValue(ctx, t, Joined([MemberOf(go, Bare(t))]), vs[0], false, false) == []
  {
    hide Expanded, Known, EnumAgrees, Types;
    var bare, m := Bare(t), MemberOf(go, Bare(t));
    KnownBare(WorldOf(go), t);
    PredeclaredBare(t);
    ReferencePasses(go, bare, TypeOf(go, t));
    if t.Pointer? {
      OrReference(bare.short, SchemaOf(go, t));
      var j := Joined([m]);
      JoinedLeaf(m);
      NameIsNoNull(go, bare);
      OnlyRelevant(m);
      ReferencePasses(go, bare, j);
      assert m in [m] && NULL !in [m] && Blank !in [m] && UNDEFINED !in [m];
      assert !Nullable(ReferenceTo(bare.short)) && Leaves(WorldOf(go).Ctx(), j) == [m];
    }
  }

  lemma JoinedLeaf(m: Member)
    ensures Expanded(Joined([m]), map[]) == [m]
  {
    ExpandPlain([m]);
    assert Joined([m]).Members() == [m];
  }

  lemma ReferencePasses(go: GoSource, bare: GoType, ts: TsType)
    requires Documentable(go) && Known(WorldOf(go), bare) && bare.Named? && !IsScalar(go, bare) && Predeclared(bare)
    ensures CompareNamed(DocumentOf(go).Ctx(), bare, ts, ReferenceTo(bare.short)) == []
    ensures bare.short in go.structs
  {
  }

  // The fragment and readiness

  lemma ComponentFound(go: GoSource, name: string)
    requires name in go.structs
    ensures Resolve(DocumentOf(go).defs, name, {}) == Some(ComponentOf(go, go.structs[name]))
    ensures ObjectSchema(ComponentOf(go, go.structs[name]))
  {
  }

  lemma {:induction false} NodeInFragment(go: GoSource, t: GoType)
    requires Documentable(go) && Known(WorldOf(go), t) && Predeclared(t)
    ensures Fragment(DocumentOf(go).defs, t, SchemaOf(go, t))
    decreases t
  {
    hide Known, GoScalar, Resolve, ObjectSchema;
    var bare, s, defs := Bare(t), SchemaOf(go, t), DocumentOf(go).defs;
    KnownBare(WorldOf(go), t);
    PredeclaredBare(t);
    match bare
    case Slice(e) =>
      assert Known(WorldOf(go), e) by { KnownInside(WorldOf(go), bare); }
      NodeInFragment(go, e);
    case Map(v) =>
      assert Known(WorldOf(go), v) by { KnownInside(WorldOf(go), bare); }
      NodeInFragment(go, v);
    case Named(_, short) =>
      if !IsScalar(go, bare) {
        ReferencePasses(go, bare, TypeOf(go, t));
        ComponentFound(go, short);
        assert ObjectReference(defs, ReferenceTo(short));
        assert Fragment(defs, bare, ReferenceTo(short));
        assert Fragment(defs, t, ReferenceTo(short));
      }
  }

  lemma {:induction false} NodeSchemaIsReady(go: GoSource, t: GoType, nulls: bool)
    requires Documentable(go) && Known(WorldOf(go), t) && (nulls ==> !t.Named?)
    ensures SchemaReady(WorldOf(go).Ctx(), t, Leaves(WorldOf(go).Ctx(), TypeOf(go, t)), SchemaOf(go, t), nulls)
    decreases t
  {
    hide Known, GoScalar, Expanded, TakesNull, Nullable, IsScalar;
    var bare, s, ctx := Bare(t), SchemaOf(go, t), WorldOf(go).Ctx();
    var m := MemberOf(go, bare);
    SchemaShape(go, t);
    LeavesOf(go, t);
    KnownBare(WorldOf(go), t);
    match bare
    case Slice(e) =>
      assert Known(WorldOf(go), e) by { KnownInside(WorldOf(go), bare); }
      LeavesOf(go, e);
      NodeSchemaIsReady(go, e, EdgeNull(ctx, e, TypeOf(go, e)));
    case Map(v) =>
      assert Known(WorldOf(go), v) by { KnownInside(WorldOf(go), bare); }
      LeavesOf(go, v);
      NodeSchemaIsReady(go, v, EdgeNull(ctx, v, TypeOf(go, v)));
    case Named(_, _) =>
  }

  // Components

  lemma PropertyPasses(go: GoSource, g: GoField)
    requires Documentable(go) && Known(WorldOf(go), g.ty) && Predeclared(g.ty)
    ensures PropertyProblems(DocumentOf(go).Ctx(), g, TsField(g.omitempty, TypeOf(go, g.ty)), SchemaOf(go, g.ty)) == []
  {
    hide Expanded, Known, CompareValue, Nullable, TakesNull;
    SchemaShape(go, g.ty);
    LeavesOf(go, g.ty);
    NodeAgrees(go, g.ty, g.omitempty, g.ty.Pointer? && !g.omitempty);
    BareStars(g.ty);
    var m := MemberOf(go, Bare(g.ty));
    assert m in Leaves(WorldOf(go).Ctx(), TypeOf(go, g.ty));
  }

  lemma {:induction false} AllPropertiesPass(ctx: OpenContext, s: GoStruct, fields: FieldMap, ps: map<string, Schema>,
                                             order: seq<string>)
    requires s.Keys == fields.Keys == ps.Keys && forall i :: 0 <= i < |order| ==> order[i] in fields
    requires forall n :: n in fields ==> PropertyProblems(ctx, s[n], fields[n], ps[n]) == []
    ensures PropertiesProblems(ctx, s, fields, ps, order) == []
    decreases |order|
  {
    hide PropertyProblems;
    if order != [] { AllPropertiesPass(ctx, s, fields, ps, order[..|order| - 1]); }
  }

  lemma PropertiesPass(go: GoSource, name: string, order: seq<string>)
    requires Documentable(go) && name in go.structs
    requires forall i :: 0 <= i < |order| ==> order[i] in go.structs[name]
    ensures var s := go.structs[name];
      PropertiesProblems(DocumentOf(go).Ctx(), s, FieldsOf(go, s), ComponentOf(go, s).properties.value, order) == []
  {
    hide PropertyProblems, Known, Predeclared, SchemaOf, TypeOf, PropertiesProblems;
    var ctx, s := DocumentOf(go).Ctx(), go.structs[name];
    var fields, ps := FieldsOf(go, s), ComponentOf(go, s).properties.value;
    forall n | n in fields ensures PropertyProblems(ctx, s[n], fields[n], ps[n]) == [] {
      PropertyPasses(go, s[n]);
    }
    AllPropertiesPass(ctx, s, fields, ps, order);
  }

  lemma ComponentShape(go: GoSource, s: GoStruct)
    ensures var c := ComponentOf(go, s);
      && c.Schema? && Types(c) == {"object"} && c.closed && c.properties.Some? && c.properties.value.Keys == s.Keys
      && (forall i, k :: 0 <= i < k < |c.required| ==> c.required[i] != c.required[k])
      && (set n | n in c.required) == RequiredNames(s)
  {
    hide SchemaOf;
  }

  lemma ComponentPasses(go: GoSource, name: string) returns (order: seq<string>)
    requires Documentable(go) && name in go.structs
    ensures var w, fields := DocumentOf(go), FieldsOf(go, go.structs[name]);
      Enumerates(order, fields.Keys) && ComponentProblems(w, name, fields, order) == []
  {
    hide Resolve, TypeOf, ComponentOf, RequiredNames, PropertiesProblems, Documentable, Types;
    var s := go.structs[name];
    order := ListOf(FieldsOf(go, s).Keys);
    ComponentFound(go, name);
    ComponentShape(go, s);
    PropertiesPass(go, name, order);
  }

  lemma CanonicalIsOpenClean(go: GoSource)
    requires Documentable(go)
    ensures OpenClean(DocumentOf(go))
  {
    hide CompareField, TsFields, ComponentProblems, Clean, Known, ComponentOf, Representable, Predeclared, SchemaOf,
         TypeOf;
    var w := DocumentOf(go);
    CanonicalPasses(go);
    forall name, fields | PairAgrees(w.wire, name, fields)
      ensures name in w.components
      ensures exists order :: Enumerates(order, fields.Keys) && ComponentProblems(w, name, fields, order) == []
    {
      PairIsCanonical(go, name, fields);
      var order := ComponentPasses(go, name);
    }
  }

  lemma AgreedIsCanonical(go: GoSource, name: string, fields: FieldMap, s: Schema)
    requires ComponentAgrees(DocumentOf(go), name, fields, s)
    ensures name in go.structs && fields == FieldsOf(go, go.structs[name]) && s == ComponentOf(go, go.structs[name])
  {
    hide PropertyProblems, PairAgrees, Resolve;
    PairIsCanonical(go, name, fields);
    ComponentFound(go, name);
  }

  lemma CanonicalInFragment(go: GoSource)
    requires Documentable(go)
    ensures InFragment(DocumentOf(go))
  {
    hide PropertyProblems, CompareField, TsFields, Resolve, Types, Fragment, Known, Predeclared, SchemaOf, ObjectSchema;
    var w := DocumentOf(go);
    forall name, fields, s | ComponentAgrees(w, name, fields, s)
      ensures ObjectSchema(s) && name in w.nested && w.nested[name] == w.components[name]
      ensures forall n :: n in fields ==> Fragment(w.defs, w.wire.go.structs[name][n].ty, s.properties.value[n])
    {
      AgreedIsCanonical(go, name, fields, s);
      ComponentFound(go, name);
      forall n | n in fields ensures Fragment(w.defs, w.wire.go.structs[name][n].ty, s.properties.value[n]) {
        NodeInFragment(go, go.structs[name][n].ty);
      }
    }
  }

  lemma FieldIsReady(go: GoSource, name: string, n: string)
    requires Documentable(go) && name in go.structs && n in go.structs[name]
    ensures var g := go.structs[name][n];
      FieldSchemaReady(DocumentOf(go), g, FieldsOf(go, go.structs[name])[n], SchemaOf(go, g.ty))
  {
    hide SchemaReady, Known, SchemaOf, Expanded, Predeclared, ComponentOf;
    var g := go.structs[name][n];
    NodeSchemaIsReady(go, g.ty, FieldMayBeNull(g) && NULL in Expanded(TypeOf(go, g.ty), map[]));
  }

  lemma CanonicalIsOpenReady(go: GoSource)
    requires Documentable(go)
    ensures OpenReady(DocumentOf(go))
  {
    hide PropertyProblems, CompareField, TsFields, Resolve, Types, FieldSchemaReady, SchemaOf, TypeOf, Documentable;
    var w := DocumentOf(go);
    forall name, fields: FieldMap, s, n | ComponentAgrees(w, name, fields, s) && n in fields
      ensures FieldSchemaReady(w, w.wire.go.structs[name][n], fields[n], s.properties.value[n])
    {
      AgreedIsCanonical(go, name, fields, s);
      FieldIsReady(go, name, n);
    }
  }

  /** For every Go source of known types the canonical document passes both checks;
      it takes whatever Go writes and TypeScript admits, and nothing TypeScript does
      not admit. */
  lemma {:induction false} CanonicalDocumentIsExact(go: GoSource)
    requires Documentable(go)
    ensures var w := DocumentOf(go);
      && Setting(w) && OpenReady(w) && OpenSound(w) && OpenConverse(w)
      && forall name :: name in go.structs ==>
           ComponentAgrees(w, name, FieldsOf(go, go.structs[name]), ComponentOf(go, go.structs[name]))
  {
    hide ComponentAgrees, OpenClean, InFragment, Closed, OpenReady, OpenSound, OpenConverse, PairAgrees;
    var w := DocumentOf(go);
    CanonicalPasses(go);
    CanonicalIsOpenClean(go);
    CanonicalInFragment(go);
    CanonicalIsOpenReady(go);
    OpenApiSoundIffReady(w);
    forall name | name in go.structs
      ensures ComponentAgrees(w, name, FieldsOf(go, go.structs[name]), ComponentOf(go, go.structs[name]))
    {
      var s := AgreedComponent(w, name, FieldsOf(go, go.structs[name]));
      AgreedIsCanonical(go, name, FieldsOf(go, go.structs[name]), s);
    }
    forall name, fields, s | ComponentAgrees(w, name, fields, s) ensures s.Schema? && s.closed {
      AgreedIsCanonical(go, name, fields, s);
    }
    OpenConverseIffClosed(w);
  }
}
