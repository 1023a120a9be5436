/**
 Every agreed component has a conforming value, so the document takes nothing
 more than TypeScript exactly when every agreed component is closed.  Values are
 built from the schema alone: null where it is taken, empty collections, a literal
 the TypeScript type admits, and below a reference the value of its component.
*/
module OpenApiInhabited {
  import opened Wrappers
  import opened TsTypes
  import opened WireChecker
  import opened WireMeaning
  import opened WireSound
  import opened WireLimits
  import opened OpenApiChecker
  import opened JsonSchema
  import opened OpenApiLeaves
  import opened OpenApiNodes
  import opened OpenApiSound
  import opened OpenApiAgreement
  import opened OpenApiConverse
  import opened OpenApiLimits

  ghost predicate AllClosed(w: OpenWorld) {
    forall name, fields, s :: ComponentAgrees(w, name, fields, s) ==> s.closed
  }

  /** Well-founded nesting of the structs a required value must hold: `rank` falls
      along every field that is always written and whose schema does not take null. */
  ghost predicate Founded(w: OpenWorld, rank: string -> nat) {
    forall name, fields, s, k :: ComponentAgrees(w, name, fields, s) && k in fields ==>
      FieldFounded(w, rank, name, w.wire.go.structs[name][k], s.properties.value[k])
  }

  predicate FieldFounded(w: OpenWorld, rank: string -> nat, name: string, g: GoField, p: Schema) {
    !g.omitempty && IsStruct(w, Bare(g.ty)) && !TakesNull(p) ==> rank(Bare(g.ty).short) < rank(name)
  }

  /** Go itself forbids a struct that holds itself by value. */
  predicate NestingFounded(w: OpenWorld, rank: string -> nat) {
    forall name, k :: name in w.wire.go.structs && k in w.wire.go.structs[name] ==>
      var t := w.wire.go.structs[name][k].ty; IsStruct(w, t) ==> rank(t.short) < rank(name)
  }

  predicate Whole(j: Json) { j != Null && (j.Number? ==> Integral(j.n)) }

  ghost predicate HasValue(w: OpenWorld, t: TsType) { exists j :: Whole(j) && Accepts(Exact, w.wire.ts, t, j) }

  ghost predicate Inhabited(defs: map<string, Schema>, s: Schema) { exists j :: j != Null && Conforms(defs, s, j) }

  // Values of nodes

  /** A scalar's first leaf admits a value. */
  lemma ScalarHasValue(w: OpenWorld, bare: GoType, t: TsType)
    requires w.wire.ts.Valid() && bare.Named? && !IsStruct(w, bare) && LeavesFit(w, bare, Leaves(w.wire.Ctx(), t))
    ensures HasValue(w, t)
  {
    hide Expanded, Accepts, ElementsChecked, CheckNamed, ExpectedScalar;
    var ms := Leaves(w.wire.Ctx(), t);
    var at :| CheckNamed(w.wire.Ctx(), at, bare, ms) == [];
    KindMembers(w, at, bare, ms);
    var j := LeafValue(w.wire.ts, ExpectedScalar(bare, w.wire.go.stringTypes).value.0, ms[0]);
    LeafAdmits(w.wire.ts, w.wire.Ctx(), t, j);
    assert ms[0] in ms;
  }

  lemma LeafValue(ts: TsSource, kind: string, m: Member) returns (j: Json)
    requires ts.Valid() && Settled(ts, m)
    requires match kind
             case "string" => StringLike(m, ts.aliases, {})
             case "boolean" => BooleanLike(m)
             case _ => NumberLike(m)
    ensures Whole(j) && MemberAccepts(Exact, ts, m, j, 0)
  {
    match kind
    case "string" => j := Text(if m.Quoted? then m.body else "");
    case "boolean" =>
      j := Boolean(m != Word("false"));
      BooleanMember(ts, m, j.b);
    case _ => j := Number(0.0);
  }

  lemma ScalarInhabited(w: OpenWorld, bare: GoType, t: TsType, s: Schema)
    requires s.Schema? && bare.Named? && !IsStruct(w, bare) && ScalarAgrees(w, bare, t, s) && HasValue(w, t)
    requires Plain(s, EMPTY.(enum := s.enum))
    ensures Inhabited(w.defs, s)
  {
    hide Accepts, ExpectedScalar, Conforms;
    var j :| Whole(j) && Accepts(Exact, w.wire.ts, t, j);
    var (kind, format) := ExpectedScalar(bare, w.wire.go.stringTypes).value;
    KindTyped(w, bare, s, j);
    ScalarNode(w.defs, s, j);
  }

  lemma KindTyped(w: OpenWorld, bare: GoType, s: Schema, j: Json)
    requires s.Schema? && s.any.Absent? && s.one.Absent? && Whole(j)
    requires ExpectedScalar(bare, w.wire.go.stringTypes).Some?
    requires var kind := ExpectedScalar(bare, w.wire.go.stringTypes).value.0; Types(s) == {kind} && OfKind(kind, j)
    ensures TypeAdmits(s.ty, j) && !j.Dict?
  {
    hide ExpectedScalar;
    var kind := ExpectedScalar(bare, w.wire.go.stringTypes).value.0;
    ScalarNames(bare, w.wire.go.stringTypes);
    assert HasType(kind, j);
    assert kind in Types(s);
  }

  /** Below the null rules: by the alternatives, then by the type. */
  lemma {:induction false} BodyInhabited(w: OpenWorld, go: GoType, t: TsType, s: Schema)
    requires Setting(w) && Known(w.wire, go) && BodyAgrees(w, go, t, s) && Fragment(w.defs, go, s)
    requires IsStruct(w, Bare(go)) ==> StructInhabited(w, Bare(go).short)
    requires !IsStruct(w, Bare(go)) && !Collection(Bare(go)) ==> HasValue(w, t)
    ensures Inhabited(w.defs, s)
    decreases s
  {
    hide Setting, Known, Conforms, Agrees, ScalarAgrees, StructAgrees, LeavesDecide, OnlyComposite,
         ObjectReference, Plain, Types, HasValue, StructInhabited;
    match Composite(s)
    case Listed(vs) =>
      var i :| 0 <= i < |vs| && vs[i] != NULL_SCHEMA && BodyAgrees(w, go, t, vs[i])
        && (s.any.Absent? && s.one.Absent? ==> |vs| == 1)
        && forall k :: 0 <= k < |vs| && k != i ==> vs[k] == NULL_SCHEMA;
      VariantSmaller(s, vs, i);
      BodyInhabited(w, go, t, vs[i]);
      var j :| j != Null && Conforms(w.defs, vs[i], j);
      CompositeConforms(w.defs, s, vs, i, j);
    case Absent => PlainInhabited(w, go, t, s);
  }

  ghost predicate StructInhabited(w: OpenWorld, name: string) {
    forall fields, s :: ComponentAgrees(w, name, fields, s) ==> Inhabited(w.defs, s)
  }

  lemma PlainInhabited(w: OpenWorld, go: GoType, t: TsType, s: Schema)
    requires Setting(w) && Known(w.wire, go) && BodyAgrees(w, go, t, s) && Fragment(w.defs, go, s)
    requires s.Schema? && Composite(s).Absent?
    requires IsStruct(w, Bare(go)) ==> StructInhabited(w, Bare(go).short)
    requires !IsStruct(w, Bare(go)) && !Collection(Bare(go)) ==> HasValue(w, t)
    ensures Inhabited(w.defs, s)
  {
    hide Setting, Known, Conforms, Agrees, ScalarAgrees, StructAgrees, LeavesDecide, OnlyComposite,
         ObjectReference, Types, HasValue, StructInhabited;
    var bare := Bare(go);
    if bare.Slice? {
      ListConforms(w.defs, s, List([]));
    } else if bare.Map? {
      MapConforms(w.defs, s, Dict(map[]));
    } else if IsStruct(w, bare) {
      KnownBare(w.wire, go);
      ReferenceInhabited(w, bare, t, s);
    } else {
      ScalarIsPlain(w, bare, t, s);
      ScalarInhabited(w, bare, t, s);
    }
  }

  lemma ScalarIsPlain(w: OpenWorld, bare: GoType, t: TsType, s: Schema)
    requires s.Schema? && bare.Named? && !IsStruct(w, bare) && ScalarAgrees(w, bare, t, s)
    requires Plain(s, EMPTY.(enum := s.enum)) || ObjectReference(w.defs, s)
    ensures Plain(s, EMPTY.(enum := s.enum))
  {
    hide Accepts, ExpectedScalar, Resolve;
  }

  lemma ReferenceInhabited(w: OpenWorld, bare: GoType, t: TsType, s: Schema)
    requires Setting(w) && Known(w.wire, bare) && IsStruct(w, bare) && StructInhabited(w, bare.short)
    requires s.Schema? && StructAgrees(w, bare, t, s)
             && (Plain(s, EMPTY.(enum := s.enum)) || ObjectReference(w.defs, s))
    ensures Inhabited(w.defs, s)
  {
    hide Conforms, Accepts, AdmitsFields, OpenClean, Closed, Types, PropertyProblems, CompareField, TsFields, Fragment;
    var fields :| PairAgrees(w.wire, bare.short, fields) && AdmitsFields(w, t, fields);
    var component := AgreedComponent(w, bare.short, fields);
    assert s.ref == Some(w.components[bare.short]);
    var j :| j != Null && Conforms(w.defs, component, j);
    ReferenceConforms(w.defs, s, j);
  }

  // Components

  /** A field that is always written has a conforming value. */
  lemma FieldInhabited(w: OpenWorld, name: string, fields: FieldMap, s: Schema, k: string)
    requires Setting(w) && ComponentAgrees(w, name, fields, s) && k in fields
    requires var g, p := w.wire.go.structs[name][k], s.properties.value[k];
      IsStruct(w, Bare(g.ty)) && !TakesNull(p) ==> StructInhabited(w, Bare(g.ty).short)
    ensures exists j :: Conforms(w.defs, s.properties.value[k], j)
  {
    hide CompareValue, CheckProjection, Expanded, Conforms, TakesNull, CompareField, PropertyProblems, Resolve, Types,
         TsFields, StructInhabited, BodyAgrees, NullAgrees, LeavesFit, OpenClean, Closed, Fragment, Known, Clean,
         HasValue;
    var g, t, p := w.wire.go.structs[name][k], fields[k], s.properties.value[k];
    FieldKnown(w.wire, name, k);
    assert Fragment(w.defs, g.ty, p);
    if TakesNull(p) {
      NullAt(w.defs, g.ty, p);
    } else {
      assert Checkable(w) by { CleanWire(w); }
      ThreeWay(w, name, fields, s, k);
      if !IsStruct(w, Bare(g.ty)) && !Collection(Bare(g.ty)) { FieldHasValue(w, name, fields, s, k); }
      BodyInhabited(w, g.ty, t.ty, p);
    }
  }

  lemma FieldHasValue(w: OpenWorld, name: string, fields: FieldMap, s: Schema, k: string)
    requires Checkable(w) && ComponentAgrees(w, name, fields, s) && k in fields
    requires var go := w.wire.go.structs[name][k].ty;
      Known(w.wire, go) && !IsStruct(w, Bare(go)) && !Collection(Bare(go))
    ensures HasValue(w, fields[k].ty)
  {
    hide CompareValue, CheckProjection, Expanded, CompareField, PropertyProblems, Resolve, Types, TsFields, LeavesFit,
         Known, Clean, HasValue;
    var g, t, p := w.wire.go.structs[name][k], fields[k], s.properties.value[k];
    var at := name + "->" + w.wire.pairs[name] + "." + k;
    FieldParts(w.wire.Ctx(), at, g, t);
    PropertyParts(w.Ctx(), g, t, p);
    LeavesAreThere(w.Ctx(), g.ty, t.ty, p, g.omitempty && t.optional, g.ty.Pointer? && !g.omitempty);
    ProjectedLeavesFit(w, at, g.ty, t.ty, g.omitempty && t.optional, g.ty.Pointer? && !g.omitempty);
    BareLeavesFit(w, g.ty, Leaves(w.wire.Ctx(), t.ty));
    ScalarHasValue(w, Bare(g.ty), t.ty);
  }

  ghost function SomeValue(defs: map<string, Schema>, s: Schema): (j: Json)
    requires exists j :: Conforms(defs, s, j)
    ensures Conforms(defs, s, j)
  {
    var j :| Conforms(defs, s, j);
    j
  }

  lemma {:induction false} RequiredInhabited(w: OpenWorld, rank: string -> nat, name: string, fields: FieldMap,
                                             s: Schema, k: string)
    requires Setting(w) && Founded(w, rank) && ComponentAgrees(w, name, fields, s) && k in s.required
    ensures k in fields && exists j :: Conforms(w.defs, s.properties.value[k], j)
    decreases rank(name), 0
  {
    hide Setting, Conforms, TakesNull, PropertyProblems, CompareField, TsFields, Resolve, Types, StructInhabited,
         Inhabited;
    RequiredIsPresent(w, name, fields, s, k);
    RequiredIsField(w, name, fields, s, k);
    var g, p := w.wire.go.structs[name][k], s.properties.value[k];
    var bare := Bare(g.ty);
    if IsStruct(w, bare) && !TakesNull(p) {
      assert FieldFounded(w, rank, name, g, p);
      forall fs, c | ComponentAgrees(w, bare.short, fs, c) ensures Inhabited(w.defs, c) {
        ComponentInhabited(w, rank, bare.short, fs, c);
      }
      AllInhabited(w, bare.short);
    }
    FieldInhabited(w, name, fields, s, k);
  }

  lemma {:induction false} ComponentInhabited(w: OpenWorld, rank: string -> nat, name: string, fields: FieldMap,
                                              s: Schema)
    requires Setting(w) && Founded(w, rank) && ComponentAgrees(w, name, fields, s)
    ensures Inhabited(w.defs, s)
    decreases rank(name), 1
  {
    hide Setting, Founded, Conforms, PropertyProblems, PairAgrees, Resolve, Types;
    var required := set k | k in s.required;
    forall k | k in required ensures k in fields && exists j :: Conforms(w.defs, s.properties.value[k], j) {
      RequiredInhabited(w, rank, name, fields, s, k);
    }
    assert ObjectSchema(s) by { ComponentIsObject(w, name, fields, s); }
    var j := Dict(map k | k in required :: SomeValue(w.defs, s.properties.value[k]));
    ObjectNode(w.defs, s, j);
  }

  lemma ComponentIsObject(w: OpenWorld, name: string, fields: FieldMap, s: Schema)
    requires Setting(w) && ComponentAgrees(w, name, fields, s)
    ensures ObjectSchema(s)
  {
    hide ComponentAgrees, OpenClean, Closed, ObjectSchema, Fragment;
  }

  lemma AllInhabited(w: OpenWorld, name: string)
    requires forall fs, c :: ComponentAgrees(w, name, fs, c) ==> Inhabited(w.defs, c)
    ensures StructInhabited(w, name)
  {
  }

  lemma RequiredIsField(w: OpenWorld, name: string, fields: FieldMap, s: Schema, k: string)
    requires ComponentAgrees(w, name, fields, s) && k in s.required
    ensures k in fields
  {
    hide PropertyProblems, CompareField, TsFields, Resolve;
    RequiredIsPresent(w, name, fields, s, k);
  }

  // Main result

  /** Where struct nesting is well-founded, the document takes nothing that
      TypeScript does not admit exactly when every agreed component is closed. */
  lemma {:induction false} OpenConverseIffAllClosed(w: OpenWorld, rank: string -> nat)
    requires Setting(w) && Founded(w, rank)
    ensures OpenConverse(w) <==> AllClosed(w)
  {
    hide Setting, Founded, Conforms, ComponentAgrees, OpenConverse;
    OpenConverseIffClosed(w);
    if InhabitedClosed(w) {
      forall name, fields, s | ComponentAgrees(w, name, fields, s) ensures s.Schema? && s.closed {
        ComponentInhabited(w, rank, name, fields, s);
        var j :| j != Null && Conforms(w.defs, s, j);
        ConformingKeywords(w.defs, s, j);
      }
    }
  }

  /** What Go forbids and what readiness asks make struct nesting well-founded. */
  lemma NestingFounds(w: OpenWorld, rank: string -> nat)
    requires Setting(w) && OpenReady(w) && NestingFounded(w, rank)
    ensures Founded(w, rank)
  {
    hide OpenClean, Closed, Fragment, TakesNull, PropertyProblems, CompareField, TsFields, Resolve, Types, Clean,
         FieldSchemaReady, Expanded;
    forall name, fields, s, k | ComponentAgrees(w, name, fields, s) && k in fields
      ensures FieldFounded(w, rank, name, w.wire.go.structs[name][k], s.properties.value[k])
    {
      var g := w.wire.go.structs[name][k];
      assert FieldSchemaReady(w, g, fields[k], s.properties.value[k]);
      if !g.omitempty && g.ty.Pointer? { PointerTakesNull(w, g, fields[k], s.properties.value[k]); }
    }
  }

  lemma PointerTakesNull(w: OpenWorld, g: GoField, t: TsField, p: Schema)
    requires g.ty.Pointer? && !g.omitempty && FieldSchemaReady(w, g, t, p)
    requires PropertyProblems(w.Ctx(), g, t, p) == []
    ensures TakesNull(p)
  {
    hide CompareValue, Expanded;
  }

  // Both kinds of table

  /** The one-field table that is ready on both counts meets the premises, and has
      the converse exactly if its component is closed. */
  lemma {:induction false} ClosedDecides(closed: bool) returns (w: OpenWorld)
    ensures w == StringTable(closed) && Setting(w) && OpenReady(w)
    ensures OpenConverse(w) <==> closed
  {
    hide Setting, OpenReady, OpenConverse, Founded, CompareField, PropertyProblems, ComponentAgrees, PairAgrees;
    var g, t, p := GoField(STRING, false), TsField(false, Single(Word("string"))), EMPTY.(ty := One("string"));
    w := ReadyTable(closed);
    var rank: string -> nat := _ => 0;
    assert NestingFounded(w, rank) by { OneScalarField(g, t, p, closed, rank); }
    NestingFounds(w, rank);
    OpenConverseIffAllClosed(w, rank);
    StringComponent(g, t, p, closed);
    OnlyComponent(g, t, p, closed);
  }

  lemma OneScalarField(g: GoField, t: TsField, p: Schema, closed: bool, rank: string -> nat)
    requires g == GoField(STRING, false)
    ensures NestingFounded(OneProperty(g, t, p, closed), rank)
  {
    assert Projection(STRING).Some?;
  }

  lemma StringComponent(g: GoField, t: TsField, p: Schema, closed: bool)
    requires g == GoField(STRING, false) && t == TsField(false, Single(Word("string")))
    requires p == EMPTY.(ty := One("string")) && Setting(OneProperty(g, t, p, closed))
    ensures ComponentAgrees(OneProperty(g, t, p, closed), "S", map["a" := t], Component(p, closed))
  {
    hide CompareField, PropertyProblems, ComponentAgrees, Clean, ComponentProblems, Closed, InFragment;
    var w := OneProperty(g, t, p, closed);
    StringField(w.wire.Ctx(), g, t);
    StringProperty(w.Ctx(), g, t, p);
    OnePropertyAgrees(g, t, p, closed);
    var s := AgreedComponent(w, "S", map["a" := t]);
    OnlyComponent(g, t, p, closed);
  }
}
