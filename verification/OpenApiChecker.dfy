/**
 The OpenAPI half of the contract checker: every Go field and its TypeScript
 type against the property schema of the mapped component.
*/
module OpenApiChecker {
  import opened Wrappers
  import opened TsTypes
  import opened WireChecker
  import opened WireMeaning

  datatype TypeKeyword = Untyped | One(name: string) | Many(names: seq<string>)

  /** The keywords the checker looks at.  `ref` is a local component name,
      `closed` is `additionalProperties: false`, `annotated` records a title, summary
      or description, and `other` any keyword not listed here. */
  datatype Schema =
    | NotASchema
    | Schema(ty: TypeKeyword, format: Option<string>, enum: Option<seq<Json>>,
             items: Option<Schema>, additional: Option<Schema>, closed: bool,
             properties: Option<map<string, Schema>>, required: seq<string>, ref: Option<string>,
             any: Variants, one: Variants, all: Variants,
             nullableKeyword: bool, conditional: bool, annotated: bool, other: bool)

  /** The list under a composite keyword. */
  datatype Variants = Absent | Listed(list: seq<Schema>)

  const EMPTY := Schema(Untyped, None, None, None, None, false, None, [], None, Absent, Absent, Absent, false, false,
      false, false)

  const NULL_SCHEMA := EMPTY.(ty := One("null"))

  /** `_schema_types`. */
  function Types(s: Schema): set<string> {
    if s.NotASchema? then {}
    else
      match s.ty
      case One(n) => {n}
      case Many(ns) => set n | n in ns && n != "null"
      case Untyped =>
        if s.any.Listed? then set i, n | 0 <= i < |s.any.list| && n in Types(s.any.list[i]) :: n
        else if s.one.Listed? then set i, n | 0 <= i < |s.one.list| && n in Types(s.one.list[i]) :: n
        else {}
  }

  predicate HasNullType(vs: seq<Schema>) {
    exists i :: 0 <= i < |vs| && vs[i].Schema? && vs[i].ty == One("null")
  }

  /** `_schema_nullable`. */
  predicate Nullable(s: Schema) {
    && s.Schema?
    && ((s.ty.Many? && "null" in s.ty.names)
        || (s.any.Listed? && HasNullType(s.any.list))
        || (s.one.Listed? && HasNullType(s.one.list)))
  }

  /** The composite keyword handled: the first of anyOf, oneOf, allOf present. */
  function Composite(s: Schema): Variants
    requires s.Schema?
  {
    if s.any.Listed? then s.any else if s.one.Listed? then s.one else s.all
  }

  function Alternatives(vs: seq<Schema>): seq<nat> {
    if vs == [] then []
    else
      var n := |vs| - 1;
      Alternatives(vs[..n]) + if vs[n] == NULL_SCHEMA then [] else [n]
  }

  lemma {:induction false} AlternativesFacts(vs: seq<Schema>)
    ensures var r := Alternatives(vs);
      && (forall k :: 0 <= k < |r| ==> r[k] < |vs| && vs[r[k]] != NULL_SCHEMA)
      && (forall i: nat :: i < |vs| && vs[i] != NULL_SCHEMA ==> i in r)
    decreases vs
  {
    if vs != [] { AlternativesFacts(vs[..|vs| - 1]); }
  }

  datatype OpenProblem =
    | Shape | NullMismatch | Optional | SourceGap | Dialect | WrongType | WrongArray | WrongMap
    | WrongFormat | WrongEnum | WrongRef | WrongFields | WrongRequired | NotClosed | AliasCycle | Missing

  type OpenProblems = seq<OpenProblem>

  function Flag(cond: bool, p: OpenProblem): OpenProblems { if cond then [p] else [] }

  /** The expected type and format of a scalar. */
  function ExpectedScalar(t: GoType, stringTypes: set<string>): Option<(string, Option<string>)> {
    if !t.Named? then None
    else if (t.qualifier, t.short) == ("uuid", "UUID") then Some(("string", Some("uuid")))
    else if (t.qualifier, t.short) == ("time", "Time") then Some(("string", Some("date-time")))
    else
      match Projection(t)
      case Some(NumberKind) => Some((if Floating(t) then "number" else "integer", None))
      case Some(StringKind) => Some(("string", None))
      case Some(BooleanKind) => Some(("boolean", None))
      case None => if t.short in stringTypes then Some(("string", None)) else None
  }

  /** The values of a union of string literals only. */
  function StringEnum(ms: seq<Member>): Option<set<string>> {
    if ms == [] || exists m :: m in ms && !(m.Quoted? && m.quote != '`') then None
    else Some(set m | m in ms && m.Quoted? :: m.body)
  }

  function BooleanEnum(ms: seq<Member>): Option<set<bool>> {
    if ms == [] || exists m :: m in ms && !BooleanLike(m) then None
    else if Word("boolean") in ms then Some({false, true})
    else Some(set m | m in ms && m.Word? :: m.name == "true")
  }

  predicate Distinct(js: seq<Json>) { forall i, k :: 0 <= i < k < |js| ==> js[i] != js[k] }

  /** The enum must list exactly the expected values; without an expectation
      there must be none. */
  predicate EnumAgrees(kind: string, ms: seq<Member>, enum: Option<seq<Json>>) {
    if kind == "boolean" then
      match BooleanEnum(ms)
      case None => enum == None
      case Some(bs) =>
        || (bs == {false, true} && enum == None)
        || (enum.Some? && Distinct(enum.value)
            && (forall j :: j in enum.value ==> j.Boolean? && j.b in bs)
            && (forall b :: b in bs ==> Boolean(b) in enum.value))
    else
      match StringEnum(ms)
      case None => enum == None
      case Some(ss) =>
        && enum.Some? && Distinct(enum.value)
        && (forall j :: j in enum.value ==> j.Text? && j.s in ss)
        && (forall s :: s in ss ==> Text(s) in enum.value)
  }

  datatype OpenContext = OpenContext(wire: Context, defs: map<string, Schema>, nested: map<string, string>)

  /** The component a named type must refer to. */
  function ExpectedComponent(ctx: OpenContext, short: string): Option<string> {
    if short in ctx.nested then Some(ctx.nested[short])
    else if short in ctx.defs then Some(short)
    else None
  }

  /** `' | '.join(members)`. */
  function Joined(ms: seq<Member>): TsType
    requires ms != []
  {
    Union(false, ms[0], ms[1..])
  }

  /** The expanded members that are not null or undefined. */
  function Leaves(ctx: Context, t: TsType): seq<Member> { Relevant(Expanded(t, ctx.aliases)) }

  /** The null and presence rules every node starts with. */
  function NodeProblems(ctx: OpenContext, go: GoType, ts: TsType, s: Schema, allowUndefined: bool,
      requireNull: bool): OpenProblems {
    var expanded := Expanded(ts, ctx.wire.aliases);
    var nullable := Nullable(s);
    Flag(nullable && !(go.Pointer? || Collection(Bare(go))), NullMismatch)
    + Flag(requireNull && !nullable, NullMismatch)
    + Flag((NULL in expanded) != nullable, NullMismatch)
    + Flag(UNDEFINED in expanded && !allowUndefined, Optional)
  }

  /** `_compare_openapi_value`. */
  function CompareValue(ctx: OpenContext, go: GoType, ts: TsType, s: Schema, allowUndefined: bool,
      requireNull: bool): OpenProblems
    decreases go, 1, s, 0
  {
    var bare := Bare(go);
    if s.NotASchema? then [Shape]
    else
      var errors := NodeProblems(ctx, go, ts, s, allowUndefined, requireNull);
      var members := Leaves(ctx.wire, ts);
      if members == [] || Blank in members then errors + [SourceGap]
      else
        var errors := errors + Flag(s.nullableKeyword, Dialect);
        match Composite(s)
        case Listed(vs) =>
          var alts := Alternatives(vs);
          AlternativesFacts(vs);
          if vs == [] || (exists i :: 0 <= i < |vs| && vs[i].NotASchema?) || |alts| != 1
             || (s.any.Absent? && s.one.Absent? && |vs| != 1) || s.ty != Untyped || s.ref.Some?
          then errors + [Shape]
          else errors + CompareValue(ctx, go, Joined(members), vs[alts[0]], false, false)
        case Absent =>
          if s.conditional then errors + [Shape]
          else if bare.Slice? then
            if Types(s) != {"array"} then [WrongType]
            else if s.items == None || s.items.value.NotASchema? || exists m :: m in members && !ArrayMember(m)
            then [WrongArray]
            else errors + CompareElements(ctx, bare, members, s.items.value)
          else if bare.Map? then
            if Types(s) != {"object"} then [WrongType]
            else if s.additional == None || s.additional.value.NotASchema? then [WrongMap]
            else errors + CompareElements(ctx, bare, members, s.additional.value)
          else errors + CompareNamed(ctx, bare, ts, s)
  }

  /** Each array or record member against the one element schema. */
  function CompareElements(ctx: OpenContext, bare: GoType, members: seq<Member>, s: Schema): OpenProblems
    requires Collection(bare)
    decreases bare, 0, s, |members|
  {
    if members == [] then []
    else
      var m := members[0];
      var e := if bare.Slice? then bare.elem else bare.value;
      (if bare.Slice? && ArrayMember(m) then CompareValue(ctx, e, ArrayElem(m), s, false, e.Pointer?)
       else if bare.Map? && m.Record? then CompareValue(ctx, e, m.value, s, false, e.Pointer?)
       else [WrongMap])
      + CompareElements(ctx, bare, members[1..], s)
  }

  function CompareNamed(ctx: OpenContext, bare: GoType, ts: TsType, s: Schema): OpenProblems
    requires bare.Named? && s.Schema?
  {
    if (bare.qualifier, bare.short) == ("json", "RawMessage") then Flag("object" !in Types(s), WrongType)
    else
      match ExpectedScalar(bare, ctx.wire.stringTypes)
      case Some((kind, format)) =>
        Flag(Types(s) != {kind}, WrongType)
        + Flag(format.Some? && s.format != format, WrongFormat)
        + Flag(!EnumAgrees(kind, Leaves(ctx.wire, ts), s.enum), WrongEnum)
      case None =>
        match ExpectedComponent(ctx, bare.short)
        case Some(c) => Flag(s.ref != Some(c), WrongRef)
        case None => Flag("object" !in Types(s), WrongType)
  }

  // Components

  datatype OpenWorld = OpenWorld(wire: World, components: map<string, string>, defs: map<string, Schema>,
                                 nested: map<string, string>) {
    function Ctx(): OpenContext { OpenContext(wire.Ctx(), defs, nested) }
  }

  const CLOSED_COMPONENTS := {
    "Submission", "OutboundJob", "OutboundReceipt", "OutboundReceiptProgress",
    "OutboundReceiptCounts", "SubmissionCapabilities", "SubmissionContent"
  }

  /** Only a reference, beside inert annotations. */
  predicate PureAlias(s: Schema) { s.Schema? && s.ref.Some? && s == EMPTY.(ref := s.ref, annotated := s.annotated) }

  /** `resolve_schema_alias`; `None` covers its errors and a missing component. */
  function Resolve(defs: map<string, Schema>, name: string, seen: set<string>): Option<Schema>
    decreases defs.Keys - seen
  {
    if name !in defs || name in seen then None
    else
      var s := defs[name];
      if s.Schema? && s.ref.Some? then
        assert name in defs.Keys - seen;
        if PureAlias(s) then Resolve(defs, s.ref.value, seen + {name}) else None
      else Some(s)
  }

  /** The fields a Go struct always writes. */
  function RequiredNames(go: GoStruct): set<string> { set n | n in go && !go[n].omitempty }

  /** The rules for one property beside the value comparison. */
  function PropertyProblems(ctx: OpenContext, g: GoField, t: TsField, s: Schema): OpenProblems {
    var values := Expanded(t.ty, ctx.wire.aliases);
    var nullable := Nullable(s);
    Flag(!(exists m :: m in values && m != Blank && m != NULL && m != UNDEFINED), SourceGap)
    + Flag(t.optional != g.omitempty || (UNDEFINED in values && !g.omitempty), Optional)
    + Flag((NULL in values) != nullable, NullMismatch)
    + (if g.ty.Pointer? && !g.omitempty then Flag(!nullable, NullMismatch)
       else Flag(!g.ty.Pointer? && !Collection(Bare(g.ty)) && nullable, NullMismatch))
    + CompareValue(ctx, g.ty, t.ty, s, g.omitempty && t.optional, g.ty.Pointer? && !g.omitempty)
  }

  /** No problem is reported for a pair: its component resolves to an object
      schema with exactly the Go fields, of which exactly those without
      `omitempty` are required, and every property passes. */
  ghost predicate ComponentAgrees(w: OpenWorld, name: string, fields: FieldMap, s: Schema) {
    && PairAgrees(w.wire, name, fields)
    && name in w.components && Resolve(w.defs, w.components[name], {}) == Some(s)
    && s.Schema? && Types(s) == {"object"}
    && (w.components[name] in CLOSED_COMPONENTS ==> s.closed)
    && s.properties.Some? && s.properties.value.Keys == fields.Keys
    && (forall i, k :: 0 <= i < k < |s.required| ==> s.required[i] != s.required[k])
    && (set n | n in s.required) == RequiredNames(w.wire.go.structs[name])
    && forall n :: n in fields ==>
         PropertyProblems(w.Ctx(), w.wire.go.structs[name][n], fields[n], s.properties.value[n]) == []
  }

  /** The problems of one pair whose Go and TypeScript fields were found;
      `order` lists the fields. */
  function ComponentProblems(w: OpenWorld, name: string, fields: FieldMap, order: seq<string>): OpenProblems
    requires name in w.components && name in w.wire.go.structs && w.wire.go.structs[name].Keys == fields.Keys
    requires Enumerates(order, fields.Keys)
  {
    var go := w.wire.go.structs[name];
    match Resolve(w.defs, w.components[name], {})
    case None => [AliasCycle]
    case Some(s) =>
      if s.NotASchema? then [Missing]
      else if Types(s) != {"object"} then [Shape]
      else
        var errors := Flag(w.components[name] in CLOSED_COMPONENTS && !s.closed, NotClosed);
        if s.properties == None then errors + [Shape]
        else
          errors + Flag(s.properties.value.Keys != go.Keys, WrongFields)
          + Flag(exists i, k :: 0 <= i < k < |s.required| && s.required[i] == s.required[k], WrongRequired)
          + Flag((set n | n in s.required) != RequiredNames(go), WrongRequired)
          + PropertiesProblems(w.Ctx(), go, fields, s.properties.value, order)
  }

  function PropertiesProblems(ctx: OpenContext, go: GoStruct, fields: FieldMap, properties: map<string, Schema>,
                              order: seq<string>): OpenProblems
    requires go.Keys == fields.Keys && forall i :: 0 <= i < |order| ==> order[i] in fields
  {
    if order == [] then []
    else
      var init, n := order[..|order| - 1], order[|order| - 1];
      PropertiesProblems(ctx, go, fields, properties, init)
      + if n in properties then PropertyProblems(ctx, go[n], fields[n], properties[n]) else []
  }

  method CheckProperties(ctx: OpenContext, go: GoStruct, fields: FieldMap, properties: map<string, Schema>,
                         order: seq<string>) returns (errors: OpenProblems)
    requires go.Keys == fields.Keys && forall i :: 0 <= i < |order| ==> order[i] in fields
    ensures errors == PropertiesProblems(ctx, go, fields, properties, order)
  {
    hide PropertyProblems;
    errors := [];
    for i := 0 to |order|
      invariant errors == PropertiesProblems(ctx, go, fields, properties, order[..i])
    {
      var n := order[i];
      ghost var done := order[..i + 1];
      assert done[..i] == order[..i] && done[i] == n;
      if n in properties {
        errors := errors + PropertyProblems(ctx, go[n], fields[n], properties[n]);
      }
    }
    assert order[..|order|] == order;
  }

  lemma {:induction false} PropertiesClean(ctx: OpenContext, go: GoStruct, fields: FieldMap,
                                           properties: map<string, Schema>, order: seq<string>, n: string)
    requires go.Keys == fields.Keys && forall i :: 0 <= i < |order| ==> order[i] in fields
    requires PropertiesProblems(ctx, go, fields, properties, order) == [] && n in order && n in properties
    ensures PropertyProblems(ctx, go[n], fields[n], properties[n]) == []
    decreases |order|
  {
    hide PropertyProblems;
    if order[|order| - 1] != n {
      PropertiesClean(ctx, go, fields, properties, order[..|order| - 1], n);
    }
  }

  /** A pair without problems agrees with its component in every respect. */
  lemma ComponentClean(w: OpenWorld, name: string, fields: FieldMap, order: seq<string>) returns (s: Schema)
    requires PairAgrees(w.wire, name, fields) && name in w.components && Enumerates(order, fields.Keys)
    requires ComponentProblems(w, name, fields, order) == []
    ensures ComponentAgrees(w, name, fields, s)
  {
    hide PropertyProblems, TsFields, CompareField, Resolve, Types, PropertiesProblems;
    s := Resolve(w.defs, w.components[name], {}).value;
    forall n | n in fields
      ensures PropertyProblems(w.Ctx(), w.wire.go.structs[name][n], fields[n], s.properties.value[n]) == []
    {
      PropertiesClean(w.Ctx(), w.wire.go.structs[name], fields, s.properties.value, order, n);
    }
  }

  /** Every pair passes both checks. */
  ghost predicate OpenClean(w: OpenWorld) {
    && Clean(w.wire)
    && forall name, fields :: PairAgrees(w.wire, name, fields) ==>
         && name in w.components
         && exists order :: Enumerates(order, fields.Keys) && ComponentProblems(w, name, fields, order) == []
  }
}
