/**
 The nodes of a table that passes both checks: when a schema is ready for the
 nulls that can reach it, how an admitted value fits its expanded members, and
 what a comparison without problems says.  A composite hands the whole node to
 its one alternative that is not null, so every statement about a node first
 goes through composites and then speaks of a plain schema.
*/
module OpenApiNodes {
  import opened Wrappers
  import opened TsTypes
  import opened WireChecker
  import opened AliasMeaning
  import opened WireMeaning
  import opened WireConverse
  import opened WireSound
  import opened OpenApiChecker
  import opened JsonSchema

  // Readiness

  /** The document stays inside the fragment, and a nested name means the same
      component as in the table. */
  ghost predicate InFragment(w: OpenWorld) {
    forall name, fields, s :: ComponentAgrees(w, name, fields, s) ==>
      && ObjectSchema(s)
      && name in w.nested && w.nested[name] == w.components[name]
      && forall n :: n in fields ==> Fragment(w.defs, w.wire.go.structs[name][n].ty, s.properties.value[n])
  }

  /** Wherever Go can write null and TypeScript admits it, the schema takes it.
      `ms` are the non-null members the TypeScript type expands to. */
  predicate SchemaReady(ctx: Context, go: GoType, ms: seq<Member>, s: Schema, nulls: bool)
    decreases go, s
  {
    && s.Schema?
    && (nulls ==> TakesNull(s))
    && match Composite(s)
       case Listed(vs) =>
         forall i :: 0 <= i < |vs| && vs[i] != NULL_SCHEMA ==> SchemaReady(ctx, go, ms, vs[i], false)
       case Absent =>
         var bare := Bare(go);
         Collection(bare) ==>
           && ElemSchema(bare, s).Some?
           && forall m :: m in ms && Form(bare, m) ==>
                SchemaReady(ctx, ElemType(bare), Leaves(ctx, MemberElem(bare, m)), ElemSchema(bare, s).value,
                            EdgeNull(ctx, ElemType(bare), MemberElem(bare, m)))
  }

  /** A scalar or struct that no null reaches is ready. */
  lemma {:induction false} NamedReady(ctx: Context, defs: map<string, Schema>, go: GoType, ms: seq<Member>, s: Schema)
    requires Fragment(defs, go, s) && Bare(go).Named?
    ensures SchemaReady(ctx, go, ms, s, false)
    decreases s
  {
    hide TakesNull;
    match Composite(s)
    case Listed(vs) =>
      forall i | 0 <= i < |vs| && vs[i] != NULL_SCHEMA ensures SchemaReady(ctx, go, ms, vs[i], false) {
        VariantSmaller(s, vs, i);
        NamedReady(ctx, defs, go, ms, vs[i]);
      }
    case Absent =>
  }

  function ElemSchema(bare: GoType, s: Schema): Option<Schema>
    requires s.Schema?
  {
    if bare.Slice? then s.items else s.additional
  }

  predicate EdgeNull(ctx: Context, go: GoType, t: TsType) { MayBeNull(go) && NULL in Expanded(t, ctx.aliases) }

  predicate FieldSchemaReady(w: OpenWorld, g: GoField, t: TsField, s: Schema) {
    SchemaReady(w.wire.Ctx(), g.ty, Leaves(w.wire.Ctx(), t.ty), s,
                FieldMayBeNull(g) && NULL in Expanded(t.ty, w.wire.ts.aliases))
  }

  ghost predicate FieldConforms(w: OpenWorld, g: GoField, t: TsField, s: Schema) {
    forall j :: EmitsField(w.wire.go, g, j) && Accepts(Exact, w.wire.ts, t.ty, j) ==> Conforms(w.defs, s, j)
  }

  ghost predicate OpenReady(w: OpenWorld) {
    forall name, fields, s, n :: ComponentAgrees(w, name, fields, s) && n in fields ==>
      FieldSchemaReady(w, w.wire.go.structs[name][n], fields[n], s.properties.value[n])
  }

  ghost predicate OpenSound(w: OpenWorld) {
    forall name, fields, s, n :: ComponentAgrees(w, name, fields, s) && n in fields ==>
      FieldConforms(w, w.wire.go.structs[name][n], fields[n], s.properties.value[n])
  }

  /** Valid sources that both checks pass, inside the fragment. */
  ghost predicate Setting(w: OpenWorld) {
    && w.wire.ts.Valid() && OpenClean(w) && Closed(w.wire) && InFragment(w)
    && "RawMessage" !in w.wire.pairs && "RawMessage" !in w.wire.go.stringTypes
  }

  // How a value fits

  predicate IsStruct(w: OpenWorld, bare: GoType) { bare.Named? && !Scalar(w.wire.Ctx(), bare) }

  /** A non-null value is admitted by an expanded member, or by the fields of the
      pair its Go struct belongs to. */
  ghost predicate Fits(w: OpenWorld, go: GoType, ms: seq<Member>, j: Json) {
    if IsStruct(w, Bare(go)) then
      exists fields :: PairAgrees(w.wire, Bare(go).short, fields) && FieldsAccept(Exact, w.wire.ts, fields, j)
    else exists m :: m in ms && !Expands(w.wire.ts, m) && MemberAccepts(Exact, w.wire.ts, m, j, 0)
  }

  /** Every element type below the members passed the projection check. */
  ghost predicate ElementsChecked(w: OpenWorld, go: GoType, ms: seq<Member>) {
    Collection(Bare(go)) ==> forall m :: m in ms ==> exists at :: MemberClean(w.wire.Ctx(), at, Bare(go), m)
  }

  /** The members were among those the schema comparison saw. */
  ghost predicate Within(w: OpenWorld, ms: seq<Member>, ts: TsType) {
    forall m :: m in ms && !Expands(w.wire.ts, m) ==> m in Leaves(w.wire.Ctx(), ts)
  }

  /** A struct value its TypeScript type admits, the pair's fields admit. */
  lemma StructFits(w: OpenWorld, at: string, go: GoType, t: TsType, au: bool, rn: bool, j: Json)
    requires w.wire.ts.Valid() && Clean(w.wire) && CheckProjection(w.wire.Ctx(), at, go, t, au, rn) == []
    requires IsStruct(w, Bare(go)) && Known(w.wire, Bare(go)) && j.Dict? && Accepts(Exact, w.wire.ts, t, j)
    ensures Fits(w, go, Leaves(w.wire.Ctx(), t), j)
  {
    hide CheckProjection, FieldsAccept, PairAgrees, Expanded, Clean, MemberAccepts;
    var name := Bare(go).short;
    var fields := CleanPair(w.wire, name);
    var m, n := AdmittingMember(Exact, w.wire.ts, t, j);
    StructRefers(w.wire, at, go, t, au, rn, m);
    ReferringMemberAdmits(Exact, w.wire, name, fields, m, j, n);
  }

  lemma CleanWire(w: OpenWorld)
    requires OpenClean(w)
    ensures Clean(w.wire)
  {
  }

  lemma DictsComeFromMaps(w: OpenWorld, bare: GoType, j: Json)
    requires !bare.Pointer? && !IsStruct(w, bare) && Emits(w.wire.go, bare, j) && j.Dict?
    ensures bare.Map?
  {
  }

  lemma NullishAdmitsNull(ts: TsSource, m: Member, j: Json)
    requires MemberAccepts(Exact, ts, m, j, 0) && j != Null
    ensures m != NULL && m != UNDEFINED
  {
  }

  /** Any other non-null value is admitted by an expanded member. */
  lemma PlainFits(w: OpenWorld, at: string, go: GoType, t: TsType, au: bool, rn: bool, j: Json)
    requires w.wire.ts.Valid() && CheckProjection(w.wire.Ctx(), at, go, t, au, rn) == []
    requires !IsStruct(w, Bare(go)) && j != Null && Emits(w.wire.go, Bare(go), j) && Accepts(Exact, w.wire.ts, t, j)
    ensures Fits(w, go, Leaves(w.wire.Ctx(), t), j)
  {
    hide CheckProjection, Emits, MemberClean, MemberAccepts, Expand, Expands, IsStruct;
    var n: nat :| AcceptsWithin(Exact, w.wire.ts, t.Members(), j, n);
    var m := ExpandComplete(Exact, w.wire.ts, t.Members(), {}, j, n);
    if m.Object? {
      if j.Dict? {
        DictsComeFromMaps(w, Bare(go), j);
        MapMembersAreRecords(w.wire.Ctx(), at, go, t, au, rn, m);
      }
    }
    NullishAdmitsNull(w.wire.ts, m, j);
    assert m in Leaves(w.wire.Ctx(), t);
  }

  lemma LeavesChecked(w: OpenWorld, at: string, go: GoType, t: TsType, au: bool, rn: bool)
    requires CheckProjection(w.wire.Ctx(), at, go, t, au, rn) == []
    ensures ElementsChecked(w, go, Leaves(w.wire.Ctx(), t))
  {
    hide CheckProjection, CheckElements, CheckValues, CheckNamed, MemberClean, Expanded;
    var ctx, bare := w.wire.Ctx(), Bare(go);
    ProjectionParts(ctx, at, go, t, au, rn);
    if Collection(bare) {
      forall m | m in Leaves(ctx, t) ensures exists at :: MemberClean(ctx, at, bare, m) {
        ElementsClean(ctx, at, bare, Looked(ctx, go, t), m);
      }
    }
  }

  lemma LeavesWithin(w: OpenWorld, t: TsType)
    ensures Within(w, Leaves(w.wire.Ctx(), t), t)
  {
    hide Expanded;
    assert Leaves(w.wire.Ctx(), t) == Leaves(w.wire.Ctx(), t);
  }

  lemma FitsBare(w: OpenWorld, go: GoType, ms: seq<Member>, j: Json)
    requires Fits(w, go, ms, j)
    ensures Fits(w, Bare(go), ms, j)
  {
    assert Bare(Bare(go)) == Bare(go);
  }

  lemma StructIsDict(w: OpenWorld, bare: GoType, j: Json)
    requires OpenClean(w) && IsStruct(w, bare) && Known(w.wire, bare) && Emits(w.wire.go, bare, j)
    ensures j.Dict? && bare.short in w.wire.go.structs && EmitsStruct(w.wire.go, w.wire.go.structs[bare.short], j)
    ensures bare.short in w.wire.pairs
  {
    hide Emits, OpenClean, Clean, CompareField, TsFields, EmitsStruct;
    CleanWire(w);
    KnownStruct(w.wire, bare);
    var fields := CleanPair(w.wire, bare.short);
    StructWritten(w.wire, bare, j);
    WrittenIsDict(w.wire.go, w.wire.go.structs[bare.short], j);
  }

  lemma KnownStruct(w: World, bare: GoType)
    requires bare.Named? && Known(w, bare) && !Scalar(w.Ctx(), bare)
    ensures bare.short in w.pairs
  {
  }

  lemma WrittenIsDict(go: GoSource, s: GoStruct, j: Json)
    requires EmitsStruct(go, s, j)
    ensures j.Dict?
  {
  }

  // The parts of a clean comparison

  /** The one alternative of a composite that passed the comparison. */
  lemma CompositeParts(ctx: OpenContext, go: GoType, ts: TsType, s: Schema, vs: seq<Schema>, au: bool, rn: bool)
    returns (i: nat)
    requires s.Schema? && Composite(s) == Listed(vs) && CompareValue(ctx, go, ts, s, au, rn) == []
    ensures i < |vs| && vs[i] != NULL_SCHEMA && Leaves(ctx.wire, ts) != []
    ensures forall k :: 0 <= k < |vs| && k != i ==> vs[k] == NULL_SCHEMA
    ensures s.any.Absent? && s.one.Absent? ==> |vs| == 1
    ensures CompareValue(ctx, go, Joined(Leaves(ctx.wire, ts)), vs[i], false, false) == []
    ensures vs[i] < s
  {
    hide NodeProblems, Expanded, CompareNamed, CompareElements, Relevant, Types, Joined;
    AlternativesFacts(vs);
    var alts := Alternatives(vs);
    assert |alts| == 1 && alts[0] < |vs|;
    i := alts[0];
    VariantSmaller(s, vs, i);
    forall k: nat | k < |vs| && k != i ensures vs[k] == NULL_SCHEMA {
      assert vs[k] != NULL_SCHEMA ==> k in alts;
    }
  }

  /** Joining the solid members keeps the fully expanded ones. */
  lemma JoinedKeeps(w: OpenWorld, ms: seq<Member>, ts: TsType)
    requires Within(w, ms, ts) && Leaves(w.wire.Ctx(), ts) != []
    ensures Within(w, ms, Joined(Leaves(w.wire.Ctx(), ts)))
  {
    var solids := Leaves(w.wire.Ctx(), ts);
    forall m | m in ms && !Expands(w.wire.ts, m) ensures m in Leaves(w.wire.Ctx(), Joined(solids)) {
      var i :| 0 <= i < |solids| && solids[i] == m;
      assert Joined(solids).Members() == solids;
      ExpandKeeps(solids, w.wire.ts.aliases, {}, i);
    }
  }

  lemma {:induction false} ElementsCompared(ctx: OpenContext, bare: GoType, ms: seq<Member>, s: Schema, m: Member)
    requires Collection(bare) && CompareElements(ctx, bare, ms, s) == [] && m in ms
    ensures Form(bare, m)
    ensures CompareValue(ctx, ElemType(bare), MemberElem(bare, m), s, false, ElemType(bare).Pointer?) == []
    decreases ms
  {
    hide CompareValue;
    if m != ms[0] { ElementsCompared(ctx, bare, ms[1..], s, m); }
  }

  /** The parts of a clean plain node the proofs use. */
  lemma PlainParts(ctx: OpenContext, go: GoType, ts: TsType, s: Schema, au: bool, rn: bool)
    requires s.Schema? && Composite(s).Absent? && CompareValue(ctx, go, ts, s, au, rn) == []
    ensures var bare := Bare(go);
      if Collection(bare) then
        && Types(s) == {if bare.Slice? then "array" else "object"}
        && ElemSchema(bare, s).Some?
        && CompareElements(ctx, bare, Leaves(ctx.wire, ts), ElemSchema(bare, s).value) == []
      else CompareNamed(ctx, bare, ts, s) == []
  {
    hide CompareElements, CompareNamed, NodeProblems, Types, Expanded;
  }

  lemma PropertyParts(ctx: OpenContext, g: GoField, t: TsField, s: Schema)
    requires PropertyProblems(ctx, g, t, s) == []
    ensures CompareValue(ctx, g.ty, t.ty, s, g.omitempty && t.optional, g.ty.Pointer? && !g.omitempty) == []
  {
    hide CompareValue, Expanded;
  }

  lemma AgreedComponent(w: OpenWorld, name: string, fields: FieldMap) returns (s: Schema)
    requires OpenClean(w) && PairAgrees(w.wire, name, fields)
    ensures ComponentAgrees(w, name, fields, s)
  {
    hide ComponentProblems, CompareField, TsFields;
    var order :| Enumerates(order, fields.Keys) && ComponentProblems(w, name, fields, order) == [];
    s := ComponentClean(w, name, fields, order);
  }

  lemma RequiredIsPresent(w: OpenWorld, name: string, fields: FieldMap, s: Schema, k: string)
    requires ComponentAgrees(w, name, fields, s) && k in s.required
    ensures k in w.wire.go.structs[name] && !w.wire.go.structs[name][k].omitempty
  {
    hide PropertyProblems, CompareField, TsFields, Resolve;
    assert k in set n | n in s.required;
    assert k in RequiredNames(w.wire.go.structs[name]);
  }

  /** Where readiness fails: a schema that lists null as a type and has an enum
      of strings does not take null, although the null rules are satisfied. */
  lemma {:induction false} NullTypedEnumRejectsNull(ctx: OpenContext, go: GoType, ts: TsType, s: Schema, au: bool,
      rn: bool)
    requires CompareValue(ctx, go, ts, s, au, rn) == [] && s.Schema? && Composite(s).Absent?
    requires Scalar(ctx.wire, Bare(go)) && Bare(go) != Named("json", "RawMessage") && s.enum.Some?
    ensures !TakesNull(s)
  {
    hide Expanded, NodeProblems;
    PlainParts(ctx, go, ts, s, au, rn);
  }

  // Scalars and elements

  /** A literal-exact member and the agreed enum admit the same values. */
  lemma EnumAdmits(ts: TsSource, kind: string, ms: seq<Member>, enum: Option<seq<Json>>, m: Member, j: Json)
    requires EnumAgrees(kind, ms, enum) && m in ms && !Expands(ts, m) && MemberAccepts(Exact, ts, m, j, 0)
    requires if kind == "boolean" then j.Boolean? else j.Text? || j.Number?
    ensures enum.Some? ==> j in enum.value
  {
    if kind == "boolean" {
      if BooleanEnum(ms).Some? { assert BooleanLike(m); }
    } else if StringEnum(ms).Some? {
      assert m.Quoted?;
    }
  }

  lemma ScalarType(go: GoSource, bare: GoType, j: Json)
    requires bare.Named? && (Projection(bare).Some? || bare.short in go.stringTypes) && Emits(go, bare, j)
    ensures var kind := ExpectedScalar(bare, go.stringTypes).value.0;
      HasType(kind, j) && if kind == "boolean" then j.Boolean? else j.Text? || j.Number?
  {
  }

  lemma ScalarConforms(w: OpenWorld, bare: GoType, ms: seq<Member>, ts: TsType, s: Schema, j: Json)
    requires bare.Named? && Scalar(w.wire.Ctx(), bare) && s.Schema? && Emits(w.wire.go, bare, j)
    requires (bare.qualifier, bare.short) != ("json", "RawMessage")
    requires CompareNamed(w.Ctx(), bare, ts, s) == [] && Plain(s, EMPTY.(enum := s.enum))
    requires Within(w, ms, ts)
    requires exists m :: m in ms && !Expands(w.wire.ts, m) && MemberAccepts(Exact, w.wire.ts, m, j, 0)
    ensures Conforms(w.defs, s, j)
  {
    hide Expanded, EnumAgrees, HasType, MemberAccepts, Emits;
    var m :| m in ms && !Expands(w.wire.ts, m) && MemberAccepts(Exact, w.wire.ts, m, j, 0);
    ScalarType(w.wire.go, bare, j);
    var kind := ExpectedScalar(bare, w.wire.go.stringTypes).value.0;
    EnumAdmits(w.wire.ts, kind, Leaves(w.wire.Ctx(), ts), s.enum, m, j);
    assert TypeAdmits(s.ty, j) by { assert kind in Types(s); }
    ScalarNode(w.defs, s, j);
  }

  /** A collection of one element. */
  function Singleton(bare: GoType, v: Json): Json { if bare.Slice? then List([v]) else Dict(map["k" := v]) }

  lemma SingletonFits(w: OpenWorld, bare: GoType, t: TsType, m: Member, v: Json)
    requires w.wire.ts.Valid() && Collection(bare) && m in Expanded(t, w.wire.ts.aliases) && Form(bare, m)
    requires bare != Slice(BYTE)
    requires Emits(w.wire.go, ElemType(bare), v) && Accepts(Exact, w.wire.ts, MemberElem(bare, m), v)
    ensures Solid(Singleton(bare, v)) && Emits(w.wire.go, bare, Singleton(bare, v))
            && Accepts(Exact, w.wire.ts, t, Singleton(bare, v))
  {
    var j := Singleton(bare, v);
    assert if bare.Slice? then j.items[0] == v else "k" in j.fields;
    assert MemberAccepts(Exact, w.wire.ts, m, j, 0);
    LookedAccepts(Exact, w.wire.ts, t, m, j, 0);
  }

  lemma SingletonConforms(defs: map<string, Schema>, bare: GoType, s: Schema, v: Json)
    requires Collection(bare) && s.Schema? && ElemSchema(bare, s).Some? && Conforms(defs, s, Singleton(bare, v))
    requires bare.Map? ==> s.properties == None
    ensures Conforms(defs, ElemSchema(bare, s).value, v)
  {
    var j := Singleton(bare, v);
    var n: nat :| ConformsFrom(defs, s, j, n);
    assert ConformsWithin(defs, s, j, n);
    assert KeywordsConform(defs, s, j);
    if bare.Slice? {
      assert j.items[0] == v;
    } else {
      assert DictConforms(defs, s, j) && "k" in j.fields && j.fields["k"] == v;
    }
  }

  lemma NullEmitted(go: GoSource, t: GoType)
    requires MayBeNull(t)
    ensures Emits(go, t, Null)
  {
  }
}
