/**
 What passing both contract checks guarantees about the OpenAPI document: a
 JSON value that Go can write and TypeScript admits, literals taken exactly,
 conforms to the property schema, exactly when no reachable null meets a schema
 that lists null as a type but not among its enum values, or a oneOf with a
 second nullable alternative.
*/
module OpenApiSound {
  import opened Wrappers
  import opened TsTypes
  import opened WireChecker
  import opened AliasMeaning
  import opened WireMeaning
  import opened WireSound
  import opened OpenApiChecker
  import opened JsonSchema
  import opened OpenApiNodes

  // From readiness to conformance

  /** A value on an edge, a field or an element: null by readiness, anything
      else by its node. */
  lemma {:induction false} EdgeConforms(w: OpenWorld, at: string, go: GoType, t: TsType, au': bool, rn': bool,
                                        s: Schema, au: bool, rn: bool, mayBeNull: bool, j: Json)
    requires Setting(w) && OpenReady(w)
    requires CheckProjection(w.wire.Ctx(), at, go, t, au', rn') == [] && Known(w.wire, go)
    requires CompareValue(w.Ctx(), go, t, s, au, rn) == [] && Fragment(w.defs, go, s)
    requires SchemaReady(w.wire.Ctx(), go, Leaves(w.wire.Ctx(), t), s,
                         mayBeNull && NULL in Expanded(t, w.wire.ts.aliases))
    requires if j == Null then mayBeNull else Emits(w.wire.go, go, j)
    requires Accepts(Exact, w.wire.ts, t, j)
    ensures Conforms(w.defs, s, j)
    decreases j, 3, s
  {
    hide CheckProjection, CompareValue, Fragment, Expanded, OpenReady, InFragment, OpenClean, Closed, Fits, Conforms,
         Clean;
    var ms := Leaves(w.wire.Ctx(), t);
    if j == Null {
      NullMeaning(Exact, w.wire.ts, t);
      NullAt(w.defs, go, s);
    } else {
      EmitsBare(w.wire.go, go, j);
      KnownBare(w.wire, go);
      if IsStruct(w, Bare(go)) {
        StructIsDict(w, Bare(go), j);
        CleanWire(w);
        StructFits(w, at, go, t, au', rn', j);
      } else {
        PlainFits(w, at, go, t, au', rn', j);
      }
      LeavesChecked(w, at, go, t, au', rn');
      LeavesWithin(w, t);
      NodeConforms(w, go, ms, t, s, au, rn, mayBeNull && NULL in Expanded(t, w.wire.ts.aliases), j);
    }
  }

  lemma {:induction false} NodeConforms(w: OpenWorld, go: GoType, ms: seq<Member>, ts: TsType, s: Schema,
                                        au: bool, rn: bool, nulls: bool, j: Json)
    requires Setting(w) && OpenReady(w)
    requires j != Null && Emits(w.wire.go, Bare(go), j) && Known(w.wire, Bare(go))
    requires CompareValue(w.Ctx(), go, ts, s, au, rn) == [] && Fragment(w.defs, go, s)
    requires SchemaReady(w.wire.Ctx(), go, ms, s, nulls)
    requires Within(w, ms, ts) && ElementsChecked(w, go, ms) && Fits(w, go, ms, j)
    ensures Conforms(w.defs, s, j)
    decreases j, 2, s
  {
    hide CompareValue, Expanded, OpenReady, InFragment, OpenClean, Closed, Conforms, Within, Fits, OnlyComposite,
         ElementsChecked, ObjectReference, Setting;
    match Composite(s)
    case Listed(vs) =>
      var i := CompositeParts(w.Ctx(), go, ts, s, vs, au, rn);
      JoinedKeeps(w, ms, ts);
      NodeConforms(w, go, ms, Joined(Leaves(w.wire.Ctx(), ts)), vs[i], false, false, false, j);
      CompositeConforms(w.defs, s, vs, i, j);
    case Absent =>
      PlainParts(w.Ctx(), go, ts, s, au, rn);
      if Collection(Bare(go)) {
        CollectionConforms(w, go, ms, ts, s, nulls, j);
      } else {
        FitsBare(w, go, ms, j);
        NamedConforms(w, Bare(go), ms, ts, s, j);
      }
  }

  lemma {:induction false} CollectionConforms(w: OpenWorld, go: GoType, ms: seq<Member>, ts: TsType, s: Schema,
                                              nulls: bool, j: Json)
    requires Setting(w) && OpenReady(w)
    requires Collection(Bare(go)) && s.Schema? && Composite(s).Absent? && ElemSchema(Bare(go), s).Some?
    requires j != Null && Emits(w.wire.go, Bare(go), j) && Known(w.wire, Bare(go))
    requires Types(s) == {if Bare(go).Slice? then "array" else "object"}
    requires CompareElements(w.Ctx(), Bare(go), Leaves(w.wire.Ctx(), ts), ElemSchema(Bare(go), s).value) == []
    requires Fragment(w.defs, go, s) && SchemaReady(w.wire.Ctx(), go, ms, s, nulls)
    requires Within(w, ms, ts) && ElementsChecked(w, go, ms) && Fits(w, go, ms, j)
    ensures Conforms(w.defs, s, j)
    decreases j, 1, s
  {
    hide CompareValue, Expanded, OpenReady, InFragment, OpenClean, Closed, Conforms, CompareElements, MemberClean,
         Types, Setting;
    var bare := Bare(go);
    var e, elem := ElemType(bare), ElemSchema(bare, s).value;
    var m :| m in ms && !Expands(w.wire.ts, m) && MemberAccepts(Exact, w.wire.ts, m, j, 0);
    ElementsCompared(w.Ctx(), bare, Leaves(w.wire.Ctx(), ts), elem, m);
    var at :| MemberClean(w.wire.Ctx(), at, bare, m);
    var t := MemberElem(bare, m);
    if bare.Slice? {
      forall i | 0 <= i < |j.items| ensures Conforms(w.defs, elem, j.items[i]) {
        ElementConforms(w, at, bare, m, elem, j.items[i]);
      }
      ListConforms(w.defs, s, j);
    } else {
      forall k | k in j.fields ensures Conforms(w.defs, elem, j.fields[k]) {
        ElementConforms(w, at, bare, m, elem, j.fields[k]);
      }
      MapConforms(w.defs, s, j);
    }
  }

  lemma {:induction false} ElementConforms(w: OpenWorld, at: string, bare: GoType, m: Member, elem: Schema, v: Json)
    requires Setting(w) && OpenReady(w) && Collection(bare) && Known(w.wire, bare)
    requires MemberClean(w.wire.Ctx(), at, bare, m) && Emits(w.wire.go, ElemType(bare), v)
    requires CompareValue(w.Ctx(), ElemType(bare), MemberElem(bare, m), elem, false, ElemType(bare).Pointer?) == []
    requires Fragment(w.defs, ElemType(bare), elem)
    requires SchemaReady(w.wire.Ctx(), ElemType(bare), Leaves(w.wire.Ctx(), MemberElem(bare, m)), elem,
                         EdgeNull(w.wire.Ctx(), ElemType(bare), MemberElem(bare, m)))
    requires Accepts(Exact, w.wire.ts, MemberElem(bare, m), v)
    ensures Conforms(w.defs, elem, v)
    decreases v, 4, elem
  {
    hide CompareValue, Expanded, OpenReady, InFragment, Closed, Conforms, CheckProjection, SchemaReady, Fragment;
    CleanWire(w);
    NullOnlyIfAllowed(w.wire, ElemType(bare), v);
    EdgeConforms(w, at + if bare.Slice? then "[]" else "{}", ElemType(bare), MemberElem(bare, m), false,
                 ElemType(bare).Pointer?, elem, false, ElemType(bare).Pointer?, MayBeNull(ElemType(bare)), v);
  }

  lemma {:induction false} NamedConforms(w: OpenWorld, bare: GoType, ms: seq<Member>, ts: TsType, s: Schema, j: Json)
    requires Setting(w) && OpenReady(w)
    requires bare.Named? && s.Schema? && Composite(s).Absent?
    requires j != Null && Emits(w.wire.go, bare, j) && Known(w.wire, bare)
    requires CompareNamed(w.Ctx(), bare, ts, s) == []
             && (Plain(s, EMPTY.(enum := s.enum)) || ObjectReference(w.defs, s))
    requires Within(w, ms, ts) && Fits(w, bare, ms, j)
    ensures Conforms(w.defs, s, j)
    decreases j, 1, s
  {
    hide Expanded, OpenReady, OpenClean, Closed, Conforms, Accepts, PairAgrees, CompareValue, EnumAgrees,
         PropertyProblems, MemberAccepts, Emits, Known;
    if Scalar(w.wire.Ctx(), bare) {
      ScalarConforms(w, bare, ms, ts, s, j);
    } else {
      StructIsDict(w, bare, j);
      var fields :| PairAgrees(w.wire, bare.short, fields) && FieldsAccept(Exact, w.wire.ts, fields, j);
      var component := AgreedComponent(w, bare.short, fields);
      ComponentConforms(w, bare.short, fields, component, j);
      ReferenceConforms(w.defs, s, j);
    }
  }

  /** A struct's JSON conforms to its component schema, field by field. */
  lemma {:induction false} ComponentConforms(w: OpenWorld, name: string, fields: FieldMap, s: Schema, j: Json)
    requires Setting(w) && OpenReady(w) && ComponentAgrees(w, name, fields, s)
    requires j.Dict? && EmitsStruct(w.wire.go, w.wire.go.structs[name], j) && FieldsAccept(Exact, w.wire.ts, fields, j)
    ensures Conforms(w.defs, s, j)
    decreases j, 0
  {
    hide Expanded, Conforms, Accepts, CompareValue, PropertyProblems, CompareField, TsFields, OpenClean, Closed,
         EmitsField, Fragment, FieldSchemaReady;
    var go := w.wire.go.structs[name];
    forall k | k in j.fields ensures k in fields && Conforms(w.defs, s.properties.value[k], j.fields[k]) {
      assert k in fields;
      assert Fragment(w.defs, go[k].ty, s.properties.value[k]);
      assert FieldSchemaReady(w, go[k], fields[k], s.properties.value[k]);
      FieldValueConforms(w, name, fields, s, k, j.fields[k]);
    }
    forall k | k in s.required ensures k in j.fields {
      RequiredIsPresent(w, name, fields, s, k);
    }
    ObjectNode(w.defs, s, j);
  }

  lemma {:induction false} FieldValueConforms(w: OpenWorld, name: string, fields: FieldMap, s: Schema, k: string,
      v: Json)
    requires Setting(w) && OpenReady(w) && ComponentAgrees(w, name, fields, s) && k in fields
    requires EmitsField(w.wire.go, w.wire.go.structs[name][k], v) && Accepts(Exact, w.wire.ts, fields[k].ty, v)
    requires Fragment(w.defs, w.wire.go.structs[name][k].ty, s.properties.value[k])
    requires FieldSchemaReady(w, w.wire.go.structs[name][k], fields[k], s.properties.value[k])
    ensures Conforms(w.defs, s.properties.value[k], v)
    decreases v, 4
  {
    hide Expanded, Conforms, Accepts, CompareValue, CompareField, TsFields, OpenReady, InFragment, EmitsField,
         Fragment, SchemaReady, CheckProjection;
    var g, t, p := w.wire.go.structs[name][k], fields[k], s.properties.value[k];
    var at := name + "->" + w.wire.pairs[name] + "." + k;
    CleanWire(w);
    FieldParts(w.wire.Ctx(), at, g, t);
    FieldEmission(w.wire, g, v);
    PropertyParts(w.Ctx(), g, t, p);
    EdgeConforms(w, at, g.ty, t.ty, g.omitempty && t.optional, g.ty.Pointer? && !g.omitempty, p,
                 g.omitempty && t.optional, g.ty.Pointer? && !g.omitempty, FieldMayBeNull(g), v);
  }

  // From conformance to readiness

  lemma {:induction false} EdgeReady(w: OpenWorld, at: string, go: GoType, t: TsType, au': bool, rn': bool,
                                     s: Schema, au: bool, rn: bool, nulls: bool)
    requires w.wire.ts.Valid()
    requires CheckProjection(w.wire.Ctx(), at, go, t, au', rn') == []
    requires CompareValue(w.Ctx(), go, t, s, au, rn) == [] && Fragment(w.defs, go, s)
    requires nulls ==> Conforms(w.defs, s, Null)
    requires forall j ::
               Solid(j) && Emits(w.wire.go, Bare(go), j) && Accepts(Exact, w.wire.ts, t, j) ==> Conforms(w.defs, s, j)
    ensures SchemaReady(w.wire.Ctx(), go, Leaves(w.wire.Ctx(), t), s, nulls)
    decreases go, 2, s
  {
    hide CheckProjection, CompareValue, Fragment, Expanded, Conforms, SchemaReady, Accepts, Emits;
    LeavesChecked(w, at, go, t, au', rn');
    LeavesWithin(w, t);
    NodeSchemaReady(w, go, t, t, s, au, rn, nulls);
  }

  lemma {:induction false} NodeSchemaReady(w: OpenWorld, go: GoType, t: TsType, ts: TsType, s: Schema,
                                           au: bool, rn: bool, nulls: bool)
    requires w.wire.ts.Valid()
    requires CompareValue(w.Ctx(), go, ts, s, au, rn) == [] && Fragment(w.defs, go, s)
    requires Within(w, Leaves(w.wire.Ctx(), t), ts) && ElementsChecked(w, go, Leaves(w.wire.Ctx(), t))
    requires nulls ==> Conforms(w.defs, s, Null)
    requires forall j ::
               Solid(j) && Emits(w.wire.go, Bare(go), j) && Accepts(Exact, w.wire.ts, t, j) ==> Conforms(w.defs, s, j)
    ensures SchemaReady(w.wire.Ctx(), go, Leaves(w.wire.Ctx(), t), s, nulls)
    decreases go, 1, s
  {
    hide CompareValue, Expanded, Conforms, Accepts, Emits, OnlyComposite, Within, ElementsChecked, ObjectReference,
         TakesNull;
    var ctx, ms := w.wire.Ctx(), Leaves(w.wire.Ctx(), t);
    if nulls { NullAt(w.defs, go, s); }
    match Composite(s)
    case Listed(vs) =>
      var i := CompositeParts(w.Ctx(), go, ts, s, vs, au, rn);
      JoinedKeeps(w, ms, ts);
      forall j | Solid(j) && Emits(w.wire.go, Bare(go), j) && Accepts(Exact, w.wire.ts, t, j)
        ensures Conforms(w.defs, vs[i], j)
      {
        CompositeConforms(w.defs, s, vs, i, j);
      }
      NodeSchemaReady(w, go, t, Joined(Leaves(w.wire.Ctx(), ts)), vs[i], false, false, false);
    case Absent =>
      PlainParts(w.Ctx(), go, ts, s, au, rn);
      if Collection(Bare(go)) {
        forall m | m in ms && Form(Bare(go), m)
          ensures SchemaReady(ctx, ElemType(Bare(go)), Leaves(ctx, MemberElem(Bare(go), m)),
                              ElemSchema(Bare(go), s).value, EdgeNull(ctx, ElemType(Bare(go)), MemberElem(Bare(go), m)))
        {
          MemberElementReady(w, go, t, ts, s, m);
        }
      }
  }

  lemma {:induction false} MemberElementReady(w: OpenWorld, go: GoType, t: TsType, ts: TsType, s: Schema, m: Member)
    requires w.wire.ts.Valid() && Collection(Bare(go)) && s.Schema? && Composite(s).Absent? && Fragment(w.defs, go, s)
    requires ElemSchema(Bare(go), s).Some?
    requires CompareElements(w.Ctx(), Bare(go), Leaves(w.wire.Ctx(), ts), ElemSchema(Bare(go), s).value) == []
    requires m in Leaves(w.wire.Ctx(), t) && Form(Bare(go), m)
    requires Within(w, Leaves(w.wire.Ctx(), t), ts) && ElementsChecked(w, go, Leaves(w.wire.Ctx(), t))
    requires forall j ::
               Solid(j) && Emits(w.wire.go, Bare(go), j) && Accepts(Exact, w.wire.ts, t, j) ==> Conforms(w.defs, s, j)
    ensures SchemaReady(w.wire.Ctx(), ElemType(Bare(go)), Leaves(w.wire.Ctx(), MemberElem(Bare(go), m)),
                        ElemSchema(Bare(go), s).value,
                        EdgeNull(w.wire.Ctx(), ElemType(Bare(go)), MemberElem(Bare(go), m)))
    decreases go, 0, s
  {
    hide CompareElements, Conforms, Accepts, Emits, CheckProjection, SchemaReady, Expanded, CompareValue;
    var bare := Bare(go);
    var e, u, elem := ElemType(bare), MemberElem(bare, m), ElemSchema(bare, s).value;
    if e == BYTE {
      NamedReady(w.wire.Ctx(), w.defs, e, Leaves(w.wire.Ctx(), u), elem);
      return;
    }
    assert m in Leaves(w.wire.Ctx(), ts);
    ElementsCompared(w.Ctx(), bare, Leaves(w.wire.Ctx(), ts), elem, m);
    var at :| MemberClean(w.wire.Ctx(), at, bare, m);
    forall v | Emits(w.wire.go, e, v) && Accepts(Exact, w.wire.ts, u, v) ensures Conforms(w.defs, elem, v) {
      SingletonFits(w, bare, t, m, v);
      SingletonConforms(w.defs, bare, s, v);
    }
    forall j | Solid(j) && Emits(w.wire.go, Bare(e), j) && Accepts(Exact, w.wire.ts, u, j)
      ensures Conforms(w.defs, elem, j)
    {
      EmitsBare(w.wire.go, e, j);
    }
    if EdgeNull(w.wire.Ctx(), e, u) {
      NullMeaning(Exact, w.wire.ts, u);
      NullEmitted(w.wire.go, e);
    }
    EdgeReady(w, at + if bare.Slice? then "[]" else "{}", e, u, false, e.Pointer?, elem, false, e.Pointer?,
              EdgeNull(w.wire.Ctx(), e, u));
  }

  // Main results

  /** For pairs that pass both checks: whatever Go writes and TypeScript admits
      conforms to the document, at every depth, exactly when every reachable null
      meets a schema that takes null. */
  lemma {:induction false} OpenApiSoundIffReady(w: OpenWorld)
    requires Setting(w)
    ensures OpenSound(w) <==> OpenReady(w)
  {
    hide Setting, PropertyProblems, Resolve, CompareField, TsFields, Types, FieldConforms, FieldSchemaReady;
    forall name, fields, s, n | ComponentAgrees(w, name, fields, s) && n in fields
      ensures OpenReady(w) ==> FieldConforms(w, w.wire.go.structs[name][n], fields[n], s.properties.value[n])
      ensures OpenSound(w) ==> FieldSchemaReady(w, w.wire.go.structs[name][n], fields[n], s.properties.value[n])
    {
      if OpenReady(w) { ReadyFieldConforms(w, name, fields, s, n); }
      if OpenSound(w) { SoundFieldReady(w, name, fields, s, n); }
    }
  }

  lemma ReadyFieldConforms(w: OpenWorld, name: string, fields: FieldMap, s: Schema, n: string)
    requires Setting(w) && OpenReady(w) && ComponentAgrees(w, name, fields, s) && n in fields
    ensures FieldConforms(w, w.wire.go.structs[name][n], fields[n], s.properties.value[n])
  {
    hide FieldSchemaReady, Fragment, Conforms, Accepts, EmitsField, PropertyProblems, OpenClean, Closed;
    var g, t, p := w.wire.go.structs[name][n], fields[n], s.properties.value[n];
    assert Fragment(w.defs, g.ty, p) && FieldSchemaReady(w, g, t, p);
    forall j | EmitsField(w.wire.go, g, j) && Accepts(Exact, w.wire.ts, t.ty, j) ensures Conforms(w.defs, p, j) {
      FieldValueConforms(w, name, fields, s, n, j);
    }
  }

  lemma SoundFieldReady(w: OpenWorld, name: string, fields: FieldMap, s: Schema, n: string)
    requires Setting(w) && OpenSound(w) && ComponentAgrees(w, name, fields, s) && n in fields
    ensures FieldSchemaReady(w, w.wire.go.structs[name][n], fields[n], s.properties.value[n])
  {
    hide Conforms, Accepts, EmitsField, OpenClean, Closed, CompareField, CheckProjection, Fragment, SchemaReady,
         CompareValue, Expanded, TsFields, Emits;
    var g, t, p := w.wire.go.structs[name][n], fields[n], s.properties.value[n];
    var at := name + "->" + w.wire.pairs[name] + "." + n;
    assert Fragment(w.defs, g.ty, p) && FieldConforms(w, g, t, p);
    FieldParts(w.wire.Ctx(), at, g, t);
    PropertyParts(w.Ctx(), g, t, p);
    FieldReach(w.wire.go, g);
    var nulls := FieldMayBeNull(g) && NULL in Expanded(t.ty, w.wire.ts.aliases);
    if nulls { NullMeaning(Exact, w.wire.ts, t.ty); }
    EdgeReady(w, at, g.ty, t.ty, g.omitempty && t.optional, g.ty.Pointer? && !g.omitempty, p,
              g.omitempty && t.optional, g.ty.Pointer? && !g.omitempty, nulls);
  }

  /** Every object a paired struct marshals to, and its TypeScript fields admit,
      conforms to the component the document declares for it. */
  lemma {:induction false} StructConforms(w: OpenWorld, name: string, fields: FieldMap, s: Schema, j: Json)
    requires Setting(w) && OpenReady(w) && ComponentAgrees(w, name, fields, s)
    requires EmitsStruct(w.wire.go, w.wire.go.structs[name], j) && FieldsAccept(Exact, w.wire.ts, fields, j)
    ensures Conforms(w.defs, s, j)
  {
    hide Setting, OpenReady, ComponentAgrees, Conforms, FieldsAccept;
    ComponentConforms(w, name, fields, s, j);
  }
}
