/**
 The three descriptions of a field agree on null, kinds, literals, presence and
 nested structs, at every depth.
*/
module OpenApiAgreement {
  import opened Wrappers
  import opened TsTypes
  import opened WireChecker
  import opened AliasMeaning
  import opened WireMeaning
  import opened WireConverse
  import opened WireSound
  import opened OpenApiChecker
  import opened JsonSchema
  import opened OpenApiLeaves
  import opened OpenApiNodes

  predicate EnumAllows(s: Schema, j: Json)
    requires s.Schema?
  {
    s.enum.Some? ==> j in s.enum.value
  }

  /** The JSON kind of a scalar; both number types are JSON numbers. */
  predicate OfKind(kind: string, j: Json) {
    match kind
    case "string" => j.Text?
    case "boolean" => j.Boolean?
    case _ => j.Number?
  }

  /** The three descriptions of one place agree. */
  ghost predicate Agrees(w: OpenWorld, go: GoType, t: TsType, s: Schema)
    decreases go, 1
  {
    NullAgrees(w, go, t, s) && BodyAgrees(w, go, t, s)
  }

  /** TypeScript admits null exactly when the schema is nullable in the checker's
      sense, and only if Go has a pointer or collection there.  Inside the fragment
      TypeScript and the schema itself agree on null exactly when a nullable schema
      really takes null. */
  ghost predicate NullAgrees(w: OpenWorld, go: GoType, t: TsType, s: Schema) {
    var admits := Accepts(Exact, w.wire.ts, t, Null);
    && (admits <==> Nullable(s)) && (admits ==> go.Pointer? || Collection(Bare(go)))
    && (Fragment(w.defs, go, s) ==> ((admits <==> Conforms(w.defs, s, Null)) <==> (Nullable(s) ==> TakesNull(s))))
  }

  /** Everything but null. */
  ghost predicate BodyAgrees(w: OpenWorld, go: GoType, t: TsType, s: Schema)
    decreases go, 0, s
  {
    && s.Schema?
    && match Composite(s)
       case Listed(vs) =>
         exists i :: 0 <= i < |vs| && vs[i] != NULL_SCHEMA && BodyAgrees(w, go, t, vs[i])
           && (s.any.Absent? && s.one.Absent? ==> |vs| == 1)
           && forall k :: 0 <= k < |vs| && k != i ==> vs[k] == NULL_SCHEMA
       case Absent =>
         if Collection(Bare(go)) then
           && Types(s) == {if Bare(go).Slice? then "array" else "object"}
           && ElemSchema(Bare(go), s).Some? && LeavesDecide(w, Bare(go), t)
           && forall m :: m in Leaves(w.wire.Ctx(), t) ==>
                Agrees(w, ElemType(Bare(go)), MemberElem(Bare(go), m), ElemSchema(Bare(go), s).value)
         else if IsStruct(w, Bare(go)) then StructAgrees(w, Bare(go), t, s)
         else ScalarAgrees(w, Bare(go), t, s)
  }

  /** The type has arrays (or records) only, at least one, and admits what they do. */
  ghost predicate LeavesDecide(w: OpenWorld, bare: GoType, t: TsType)
    requires Collection(bare)
  {
    var ms := Leaves(w.wire.Ctx(), t);
    && ms != [] && (forall m :: m in ms ==> Form(bare, m))
    && forall j :: j != Null ==>
         (Accepts(Exact, w.wire.ts, t, j) <==> exists m :: m in ms && MemberAccepts(Exact, w.wire.ts, m, j, 0))
  }

  /** The schema refers to the struct's component, and TypeScript admits exactly
      the objects of the struct's pair. */
  ghost predicate StructAgrees(w: OpenWorld, bare: GoType, t: TsType, s: Schema)
    requires s.Schema? && IsStruct(w, bare)
  {
    && (match ExpectedComponent(w.Ctx(), bare.short) case Some(c) => s.ref == Some(c) case None => "object" in Types(s))
    && StructMeans(w, bare, t)
  }

  ghost predicate StructMeans(w: OpenWorld, bare: GoType, t: TsType)
    requires IsStruct(w, bare)
  {
    exists fields :: PairAgrees(w.wire, bare.short, fields) && AdmitsFields(w, t, fields)
  }

  ghost predicate AdmitsFields(w: OpenWorld, t: TsType, fields: FieldMap) {
    forall j :: j != Null ==> (Accepts(Exact, w.wire.ts, t, j) <==> FieldsAccept(Exact, w.wire.ts, fields, j))
  }

  /** The schema has one type, that of everything Go writes, and the format that
      belongs to it, and TypeScript admits exactly the values of that kind which the
      schema's enum allows. */
  ghost predicate ScalarAgrees(w: OpenWorld, bare: GoType, t: TsType, s: Schema)
    requires s.Schema? && !Collection(bare) && !IsStruct(w, bare)
  {
    match ExpectedScalar(bare, w.wire.go.stringTypes)
    case None => false
    case Some((kind, format)) =>
      && Types(s) == {kind} && (format.Some? ==> s.format == format)
      && (forall j :: Emits(w.wire.go, bare, j) ==> HasType(kind, j))
      && forall j :: j != Null ==> (Accepts(Exact, w.wire.ts, t, j) <==> OfKind(kind, j) && EnumAllows(s, j))
  }

  // Scalars

  /** The string values a scalar node admits are those the enum lists. */
  lemma StringsAgree(w: OpenWorld, t: TsType, s: Schema, v: string)
    requires w.wire.ts.Valid() && s.Schema?
    requires var ms := Leaves(w.wire.Ctx(), t);
      && ms != [] && EnumAgrees("string", ms, s.enum)
      && forall m :: m in ms ==> !Expands(w.wire.ts, m) && StringLike(m, w.wire.ts.aliases, {})
    ensures Accepts(Exact, w.wire.ts, t, Text(v)) <==> EnumAllows(s, Text(v))
  {
    hide Expanded, Accepts;
    var ms := Leaves(w.wire.Ctx(), t);
    LeafAdmits(w.wire.ts, w.wire.Ctx(), t, Text(v));
    match StringEnum(ms)
    case None =>
      var m :| m in ms && !(m.Quoted? && m.quote != '`');
      assert MemberAccepts(Exact, w.wire.ts, m, Text(v), 0);
    case Some(ss) =>
      assert v in ss <==> exists m :: m in ms && m.Quoted? && m.body == v;
      assert EnumAllows(s, Text(v)) <==> v in ss;
      forall m | m in ms ensures MemberAccepts(Exact, w.wire.ts, m, Text(v), 0) <==> m.Quoted? && m.body == v { }
  }

  lemma BooleansAgree(w: OpenWorld, t: TsType, s: Schema, b: bool)
    requires w.wire.ts.Valid() && s.Schema?
    requires var ms := Leaves(w.wire.Ctx(), t);
      && ms != [] && EnumAgrees("boolean", ms, s.enum) && forall m :: m in ms ==> BooleanLike(m)
    ensures Accepts(Exact, w.wire.ts, t, Boolean(b)) <==> EnumAllows(s, Boolean(b))
  {
    hide Expanded, Accepts, MemberAccepts, BooleanLike, BooleanEnum;
    var ms := Leaves(w.wire.Ctx(), t);
    forall m | m in ms
      ensures !Expands(w.wire.ts, m) && !m.Object?
      ensures MemberAccepts(Exact, w.wire.ts, m, Boolean(b), 0) <==>
              m == Word("boolean") || m == Word(if b then "true" else "false")
    {
      BooleanMember(w.wire.ts, m, b);
    }
    LeafAdmits(w.wire.ts, w.wire.Ctx(), t, Boolean(b));
    BooleanEnumHas(ms, b);
    assert EnumAllows(s, Boolean(b)) <==> b in BooleanEnum(ms).value;
  }

  lemma BooleanEnumHas(ms: seq<Member>, b: bool)
    requires ms != [] && forall m :: m in ms ==> BooleanLike(m)
    ensures BooleanEnum(ms).Some?
    ensures b in BooleanEnum(ms).value <==> Word("boolean") in ms || Word(if b then "true" else "false") in ms
  {
  }

  lemma BooleanMember(ts: TsSource, m: Member, b: bool)
    requires ts.Valid() && BooleanLike(m)
    ensures !Expands(ts, m) && !m.Object?
    ensures MemberAccepts(Exact, ts, m, Boolean(b), 0) <==>
            m == Word("boolean") || m == Word(if b then "true" else "false")
  {
    assert m.name in RESERVED;
  }

  /** A number type has no enum, and all numbers are admitted. */
  lemma NumbersAgree(w: OpenWorld, kind: string, t: TsType, s: Schema, n: real)
    requires w.wire.ts.Valid() && s.Schema? && kind != "boolean"
    requires var ms := Leaves(w.wire.Ctx(), t);
      && ms != [] && EnumAgrees(kind, ms, s.enum)
      && forall m :: m in ms ==> !Expands(w.wire.ts, m) && NumberLike(m)
    ensures s.enum == None && Accepts(Exact, w.wire.ts, t, Number(n))
  {
    hide Expanded, Accepts;
    var ms := Leaves(w.wire.Ctx(), t);
    LeafAdmits(w.wire.ts, w.wire.Ctx(), t, Number(n));
    assert ms[0] in ms && !ms[0].Quoted? && MemberAccepts(Exact, w.wire.ts, ms[0], Number(n), 0);
  }

  /** A scalar's leaves admit its kind only. */
  lemma KindOnly(w: OpenWorld, kind: string, t: TsType, j: Json)
    requires w.wire.ts.Valid() && j != Null && Accepts(Exact, w.wire.ts, t, j)
    requires var ms := Leaves(w.wire.Ctx(), t);
      && (forall m :: m in ms ==> !Expands(w.wire.ts, m))
      && match kind
         case "string" => forall m :: m in ms ==> StringLike(m, w.wire.ts.aliases, {})
         case "boolean" => forall m :: m in ms ==> BooleanLike(m)
         case _ => forall m :: m in ms ==> NumberLike(m)
    ensures OfKind(kind, j)
  {
    hide Expanded, Accepts;
    LeafAdmits(w.wire.ts, w.wire.Ctx(), t, j);
  }

  /** The projection test of each kind. */
  lemma KindMembers(w: OpenWorld, at: string, bare: GoType, ms: seq<Member>)
    requires bare.Named? && !IsStruct(w, bare) && CheckNamed(w.wire.Ctx(), at, bare, ms) == []
    ensures ExpectedScalar(bare, w.wire.go.stringTypes).Some?
    ensures match ExpectedScalar(bare, w.wire.go.stringTypes).value.0
            case "string" => forall m :: m in ms ==> StringLike(m, w.wire.ts.aliases, {})
            case "boolean" => forall m :: m in ms ==> BooleanLike(m)
            case _ => forall m :: m in ms ==> NumberLike(m)
  {
  }

  /** The schema test of a scalar. */
  lemma ScalarParts(ctx: OpenContext, bare: GoType, ts: TsType, s: Schema)
    requires bare.Named? && s.Schema? && bare != Named("json", "RawMessage") && CompareNamed(ctx, bare, ts, s) == []
    requires ExpectedScalar(bare, ctx.wire.stringTypes).Some?
    ensures var (kind, format) := ExpectedScalar(bare, ctx.wire.stringTypes).value;
      Types(s) == {kind} && (format.Some? ==> s.format == format) && EnumAgrees(kind, Leaves(ctx.wire, ts), s.enum)
  {
    hide Types, EnumAgrees, Expanded, ExpectedScalar;
  }

  lemma ScalarNodeAgrees(w: OpenWorld, bare: GoType, t: TsType, ts: TsType, s: Schema)
    requires w.wire.ts.Valid() && bare.Named? && !IsStruct(w, bare) && s.Schema? && bare != Named("json", "RawMessage")
    requires LeavesFit(w, bare, Leaves(w.wire.Ctx(), t)) && Leaves(w.wire.Ctx(), ts) == Leaves(w.wire.Ctx(), t)
    requires CompareNamed(w.Ctx(), bare, ts, s) == []
    ensures ScalarAgrees(w, bare, t, s)
  {
    hide Expanded, Accepts, EnumAgrees, Types, EnumAllows, StringLike, BooleanLike, NumberLike, CheckNamed,
         CompareNamed, ExpectedScalar, Relevant, ElementsChecked;
    var ms := Leaves(w.wire.Ctx(), t);
    var at :| CheckNamed(w.wire.Ctx(), at, bare, ms) == [];
    KindMembers(w, at, bare, ms);
    ScalarParts(w.Ctx(), bare, ts, s);
    var (kind, format) := ExpectedScalar(bare, w.wire.go.stringTypes).value;
    forall j | Emits(w.wire.go, bare, j) ensures HasType(kind, j) { ScalarType(w.wire.go, bare, j); }
    forall j | j != Null ensures Accepts(Exact, w.wire.ts, t, j) <==> OfKind(kind, j) && EnumAllows(s, j) {
      if Accepts(Exact, w.wire.ts, t, j) { KindOnly(w, kind, t, j); }
      if OfKind(kind, j) {
        match j
        case Text(v) => StringsAgree(w, t, s, v);
        case Boolean(b) => BooleansAgree(w, t, s, b);
        case Number(n) =>
          NumbersAgree(w, kind, t, s, n);
          assert EnumAllows(s, j) by { NoEnumAllows(s, j); }
      }
    }
  }

  lemma NoEnumAllows(s: Schema, j: Json)
    requires s.Schema? && s.enum == None
    ensures EnumAllows(s, j)
  {
  }

  // Collections and structs

  lemma LeavesDecided(w: OpenWorld, go: GoType, t: TsType)
    requires w.wire.ts.Valid() && Collection(Bare(go)) && LeavesFit(w, go, Leaves(w.wire.Ctx(), t))
    ensures LeavesDecide(w, Bare(go), t)
  {
    hide Expanded, Accepts, MemberAccepts, MemberClean;
    var bare, ms := Bare(go), Leaves(w.wire.Ctx(), t);
    forall m | m in ms ensures Form(bare, m) {
      var at :| MemberClean(w.wire.Ctx(), at, bare, m);
      MemberForm(w.wire.Ctx(), at, bare, m);
    }
    forall j | j != Null
      ensures Accepts(Exact, w.wire.ts, t, j) <==> exists m :: m in ms && MemberAccepts(Exact, w.wire.ts, m, j, 0)
    {
      LeafAdmits(w.wire.ts, w.wire.Ctx(), t, j);
    }
  }

  lemma StructDecided(w: OpenWorld, at: string, go: GoType, t: TsType, au: bool, rn: bool)
    requires Checkable(w) && Known(w.wire, Bare(go)) && IsStruct(w, Bare(go))
    requires CheckProjection(w.wire.Ctx(), at, go, t, au, rn) == []
    ensures StructMeans(w, Bare(go), t)
  {
    hide CheckProjection, FieldsAccept, PairAgrees, Clean, Refers, Accepts, Expanded, Reference;
    var name := Bare(go).short;
    var fields := CleanPair(w.wire, name);
    ProjectionParts(w.wire.Ctx(), at, go, t, au, rn);
    forall j | j != Null ensures Accepts(Exact, w.wire.ts, t, j) <==> FieldsAccept(Exact, w.wire.ts, fields, j) {
      if Accepts(Exact, w.wire.ts, t, j) {
        var m, n := AdmittingMember(Exact, w.wire.ts, t, j);
        StructRefers(w.wire, at, go, t, au, rn, m);
        ReferringMemberAdmits(Exact, w.wire, name, fields, m, j, n);
      }
      if FieldsAccept(Exact, w.wire.ts, fields, j) {
        var m := Looked(w.wire.Ctx(), go, t)[0];
        StructRefers(w.wire, at, go, t, au, rn, m);
        FieldsReach(w.wire, name, fields, t, m, j);
      }
    }
  }

  lemma FieldsReach(w: World, name: string, fields: FieldMap, t: TsType, m: Member, j: Json)
    requires w.ts.Valid() && PairAgrees(w, name, fields) && FieldsAccept(Exact, w.ts, fields, j)
    requires m in t.Members() && Refers(w.Ctx(), w.pairs[name], [m])
    ensures Accepts(Exact, w.ts, t, j)
  {
    hide PairAgrees, Reference, FieldsAccept, Accepts;
    assert m in [m];
    var n := TargetAccepts(Exact, w, name, fields, m.name, j);
    LookedAccepts(Exact, w.ts, t, m, j, n);
  }

  // Null

  /** A clean node whose schema takes null is nullable in the checker's sense. */
  lemma {:induction false} TakesNullIsNullable(w: OpenWorld, go: GoType, t: TsType, s: Schema, au: bool, rn: bool)
    requires Fragment(w.defs, go, s) && CompareValue(w.Ctx(), go, t, s, au, rn) == []
    requires LeavesFit(w, go, Leaves(w.wire.Ctx(), t)) && Checkable(w) && Known(w.wire, go)
    ensures TakesNull(s) ==> Nullable(s)
    decreases s
  {
    hide CompareValue, Expanded, LeavesFit, Checkable, CompareElements, CompareNamed;
    match Composite(s)
    case Listed(vs) =>
      var i := CompositeParts(w.Ctx(), go, t, s, vs, au, rn);
      var ms := Leaves(w.wire.Ctx(), t);
      LeavesStay(w, go, ms);
      TakesNullIsNullable(w, go, Joined(ms), vs[i], false, false);
      NullRule(w.Ctx(), go, Joined(ms), vs[i], false, false);
      CompositeShape(s);
      assert !TakesNull(vs[i]);
    case Absent =>
      PlainParts(w.Ctx(), go, t, s, au, rn);
      KnownBare(w.wire, go);
      PlainNull(w, go, t, s);
  }

  lemma PlainNull(w: OpenWorld, go: GoType, t: TsType, s: Schema)
    requires Fragment(w.defs, go, s) && s.Schema? && Composite(s).Absent? && Checkable(w) && Known(w.wire, Bare(go))
    requires if Collection(Bare(go)) then Types(s) == {if Bare(go).Slice? then "array" else "object"}
             else CompareNamed(w.Ctx(), Bare(go), t, s) == []
    ensures TakesNull(s) ==> Nullable(s)
  {
    hide Expanded, EnumAgrees, ObjectReference, Known;
    if s.ty.One? {
      assert Types(s) == {s.ty.name};
      assert s.ty.name == "null" ==> "array" !in Types(s) && "object" !in Types(s);
      if !Collection(Bare(go)) { NotRaw(w, Bare(go)); }
    }
  }

  lemma NullRule(ctx: OpenContext, go: GoType, ts: TsType, s: Schema, au: bool, rn: bool)
    requires CompareValue(ctx, go, ts, s, au, rn) == []
    ensures NULL in Expanded(ts, ctx.wire.aliases) <==> Nullable(s)
  {
    hide Expanded, CompareNamed, CompareElements;
  }

  lemma NullDecided(w: OpenWorld, at: string, go: GoType, t: TsType, au': bool, rn': bool, s: Schema, au: bool,
      rn: bool)
    requires Checkable(w) && Known(w.wire, go) && LeavesFit(w, go, Leaves(w.wire.Ctx(), t))
    requires CheckProjection(w.wire.Ctx(), at, go, t, au', rn') == []
    requires CompareValue(w.Ctx(), go, t, s, au, rn) == []
    ensures NullAgrees(w, go, t, s)
  {
    hide CompareValue, CheckProjection, Expanded, Accepts, LeavesFit, Fragment, Conforms, TakesNull, Nullable;
    NullMeaning(Exact, w.wire.ts, t);
    NullRule(w.Ctx(), go, t, s, au, rn);
    if NULL in Expanded(t, w.wire.ts.aliases) { NullChecked(w.wire.Ctx(), at, go, t, au', rn'); }
    if Fragment(w.defs, go, s) {
      TakesNullIsNullable(w, go, t, s, au, rn);
      NullAt(w.defs, go, s);
    }
  }

  // Nodes

  /** Valid sources that pass the wire check, with nothing opaque. */
  ghost predicate Checkable(w: OpenWorld) {
    && w.wire.ts.Valid() && Clean(w.wire)
    && "RawMessage" !in w.wire.pairs && "RawMessage" !in w.wire.go.stringTypes
  }

  lemma NotRaw(w: OpenWorld, bare: GoType)
    requires Checkable(w) && bare.Named? && Known(w.wire, bare)
    ensures bare != Named("json", "RawMessage") && w.wire.ts.Valid()
  {
  }

  /** Below the null rules: by the type, then by the alternatives.  `ts` is the
      type as the comparison sees it below a composite. */
  lemma {:induction false} BodyChecked(w: OpenWorld, go: GoType, t: TsType, ts: TsType, s: Schema, au: bool, rn: bool)
    requires Checkable(w) && Known(w.wire, go) && CompareValue(w.Ctx(), go, ts, s, au, rn) == []
    requires LeavesFit(w, go, Leaves(w.wire.Ctx(), t)) && Leaves(w.wire.Ctx(), ts) == Leaves(w.wire.Ctx(), t)
    requires IsStruct(w, Bare(go)) ==> StructMeans(w, Bare(go), t)
    ensures BodyAgrees(w, go, t, s)
    decreases go, 0, s, 1
  {
    hide CompareValue, Expanded, LeavesFit, Agrees, ScalarAgrees, Checkable, Types, CompareNamed, CompareElements,
         LeavesDecide, StructMeans;
    var bare := Bare(go);
    LeavesAreThere(w.Ctx(), go, ts, s, au, rn);
    match Composite(s) {
      case Listed(vs) =>
        var i := CompositeParts(w.Ctx(), go, ts, s, vs, au, rn);
        var ms := Leaves(w.wire.Ctx(), ts);
        LeavesStay(w, go, ms);
        BodyChecked(w, go, t, Joined(ms), vs[i], false, false);
      case Absent =>
        PlainParts(w.Ctx(), go, ts, s, au, rn);
        KnownBare(w.wire, go);
        if Collection(bare) {
          ElementsAgree(w, go, t, ts, s);
        } else {
          NotRaw(w, bare);
          if IsStruct(w, bare) {
            ComponentNamed(w, bare, ts, s);
          } else {
            BareLeavesFit(w, go, Leaves(w.wire.Ctx(), t));
            ScalarNodeAgrees(w, bare, t, ts, s);
          }
        }
    }
  }

  lemma ComponentNamed(w: OpenWorld, bare: GoType, ts: TsType, s: Schema)
    requires IsStruct(w, bare) && bare != Named("json", "RawMessage") && s.Schema?
    requires CompareNamed(w.Ctx(), bare, ts, s) == []
    ensures match ExpectedComponent(w.Ctx(), bare.short)
            case Some(c) => s.ref == Some(c)
            case None => "object" in Types(s)
  {
    hide Types, Expanded, EnumAgrees;
  }

  lemma {:induction false} ElementsAgree(w: OpenWorld, go: GoType, t: TsType, ts: TsType, s: Schema)
    requires Checkable(w) && Known(w.wire, go) && Collection(Bare(go)) && s.Schema? && ElemSchema(Bare(go), s).Some?
    requires LeavesFit(w, go, Leaves(w.wire.Ctx(), t)) && Leaves(w.wire.Ctx(), ts) == Leaves(w.wire.Ctx(), t)
    requires CompareElements(w.Ctx(), Bare(go), Leaves(w.wire.Ctx(), ts), ElemSchema(Bare(go), s).value) == []
    ensures LeavesDecide(w, Bare(go), t)
    ensures forall m :: m in Leaves(w.wire.Ctx(), t) ==>
      Agrees(w, ElemType(Bare(go)), MemberElem(Bare(go), m), ElemSchema(Bare(go), s).value)
    decreases go, 0, s, 0
  {
    hide CompareValue, Expanded, Agrees, Checkable, CompareElements, CheckProjection;
    var bare, ctx := Bare(go), w.wire.Ctx();
    var elem := ElemSchema(bare, s).value;
    KnownBare(w.wire, go);
    assert w.wire.ts.Valid() by { Validity(w); }
    LeavesDecided(w, go, t);
    forall m | m in Leaves(ctx, t) ensures Agrees(w, ElemType(bare), MemberElem(bare, m), elem) {
      ElementsCompared(w.Ctx(), bare, Leaves(w.wire.Ctx(), ts), elem, m);
      var at :| MemberClean(ctx, at, bare, m);
      EdgeAgrees(w, at + if bare.Slice? then "[]" else "{}", ElemType(bare), MemberElem(bare, m), false,
                 ElemType(bare).Pointer?, elem, false, ElemType(bare).Pointer?);
    }
  }

  lemma Validity(w: OpenWorld)
    requires Checkable(w)
    ensures w.wire.ts.Valid() && Clean(w.wire)
  {
  }

  /** A field or element that passes both checks agrees at every depth. */
  lemma {:induction false} EdgeAgrees(w: OpenWorld, at: string, go: GoType, t: TsType, au': bool, rn': bool,
                                      s: Schema, au: bool, rn: bool)
    requires Checkable(w) && Known(w.wire, go) && CheckProjection(w.wire.Ctx(), at, go, t, au', rn') == []
    requires CompareValue(w.Ctx(), go, t, s, au, rn) == []
    ensures Agrees(w, go, t, s)
    decreases go, 1
  {
    hide CompareValue, CheckProjection, Expanded, BodyAgrees, NullAgrees, Accepts, Checkable, LeavesFit, StructMeans;
    Validity(w);
    LeavesAreThere(w.Ctx(), go, t, s, au, rn);
    ProjectedLeavesFit(w, at, go, t, au', rn');
    NullDecided(w, at, go, t, au', rn', s, au, rn);
    if IsStruct(w, Bare(go)) {
      KnownBare(w.wire, go);
      StructDecided(w, at, go, t, au', rn');
    }
    BodyChecked(w, go, t, t, s, au, rn);
  }

  // Main result

  /** Every field of a pair that passes both checks: required by the schema exactly
      when Go always writes it and exactly when TypeScript says it is not optional;
      and its three types agree. */
  lemma {:induction false} ThreeWay(w: OpenWorld, name: string, fields: FieldMap, s: Schema, n: string)
    requires Checkable(w) && ComponentAgrees(w, name, fields, s) && n in fields
    requires Known(w.wire, w.wire.go.structs[name][n].ty)
    ensures var g := w.wire.go.structs[name][n];
      && (n in s.required <==> !g.omitempty) && (fields[n].optional <==> g.omitempty)
      && Agrees(w, g.ty, fields[n].ty, s.properties.value[n])
  {
    hide CompareValue, CheckProjection, Expanded, Accepts, Agrees, CompareField, PropertyProblems, Resolve, Types,
         TsFields;
    var g, t, p := w.wire.go.structs[name][n], fields[n], s.properties.value[n];
    var at := name + "->" + w.wire.pairs[name] + "." + n;
    FieldParts(w.wire.Ctx(), at, g, t);
    PropertyParts(w.Ctx(), g, t, p);
    assert n in s.required <==> n in (set k | k in s.required);
    assert n in RequiredNames(w.wire.go.structs[name]) <==> !g.omitempty;
    EdgeAgrees(w, at, g.ty, t.ty, g.omitempty && t.optional, g.ty.Pointer? && !g.omitempty, p,
               g.omitempty && t.optional, g.ty.Pointer? && !g.omitempty);
  }
}
