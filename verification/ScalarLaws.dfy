/**
 What the scalar tables of both checks hold, by Go's own names: the one TypeScript
 keyword, schema type and format each name asks for.
*/
module ScalarLaws {
  import opened Wrappers
  import opened TsTypes
  import opened WireChecker
  import opened WireMeaning
  import opened WireSound
  import opened OpenApiChecker
  import opened JsonSchema
  import opened OpenApiLeaves
  import opened OpenApiNodes

  /** The TypeScript words for what Go writes. */
  function Keywords(k: Written): set<string> {
    match k
    case AsText => {"string"}
    case AsNumber => {"number"}
    case AsInteger => {"number"}
    case AsBoolean => {"boolean", "true", "false"}
  }

  /** The JSON Schema type for what Go writes. */
  function SchemaType(k: Written): string {
    match k
    case AsText => "string"
    case AsNumber => "number"
    case AsInteger => "integer"
    case AsBoolean => "boolean"
  }

  const UUID := Named("uuid", "UUID")

  const TIME := Named("time", "Time")

  lemma OneWord(word: string, aliases: map<string, TsType>)
    requires word !in aliases
    ensures Expanded(Single(Word(word)), aliases) == [Word(word)]
    ensures Relevant([Word(word)]) == if word == "null" || word == "undefined" then [] else [Word(word)]
  {
    var ms := Single(Word(word)).Members();
    assert ms == [Word(word)];
    assert ms[1..] == [] && Expand(ms[1..], aliases, {}) == [] && Relevant(ms[1..]) == [];
    assert [Word(word)] + [] == ms;
  }

  /** A field that is always written passes against a single word exactly if the
      word is one for what Go writes. */
  lemma ScalarKeyword(ctx: Context, at: string, t: GoType, word: string)
    requires GoScalar(t).Some? && word !in ctx.aliases
    ensures CompareField(ctx, at, GoField(t, false), TsField(false, Single(Word(word)))) == []
       <==> word in Keywords(GoScalar(t).value)
  {
    OneWord(word, ctx.aliases);
    var ms := [Word(word)];
    assert Word(word) in ms && forall m :: m in ms ==> m == Word(word);
    assert Bare(t) == t;
    assert Looked(ctx, t, Single(Word(word))) == Relevant(ms);
  }

  /** A named string type is a string. */
  lemma StringTypeKeyword(ctx: Context, at: string, t: GoType, word: string)
    requires t.Named? && GoScalar(t) == None && t.short in ctx.stringTypes && word !in ctx.aliases
    ensures CompareField(ctx, at, GoField(t, false), TsField(false, Single(Word(word)))) == [] <==> word == "string"
  {
    OneWord(word, ctx.aliases);
    var ms := [Word(word)];
    assert Word(word) in ms && forall m :: m in ms ==> m == Word(word);
    assert Looked(ctx, t, Single(Word(word))) == Relevant(ms);
  }

  lemma OneMember(m: Member, aliases: map<string, TsType>)
    requires !m.Word? && m != Blank
    ensures Expanded(Single(m), aliases) == [m] && Relevant([m]) == [m]
  {
    var ms := Single(m).Members();
    assert ms == [m];
    assert ms[1..] == [] && Expand(ms[1..], aliases, {}) == [] && Relevant(ms[1..]) == [];
    assert [m] + [] == ms;
  }

  /** A single number literal passes exactly for the numbers, a quoted literal exactly
      for the strings, and a template literal for nothing. */
  lemma ScalarLiteral(ctx: Context, at: string, t: GoType, m: Member)
    requires GoScalar(t).Some? && (m.Numeral? || m.Quoted?)
    ensures CompareField(ctx, at, GoField(t, false), TsField(false, Single(m))) == [] <==>
            match m
            case Numeral(_) => GoScalar(t).value == AsNumber || GoScalar(t).value == AsInteger
            case Quoted(q, _) => GoScalar(t).value == AsText && (q == '"' || q == '\'')
            case _ => false
  {
    OneMember(m, ctx.aliases);
    assert m in [m] && forall x :: x in [m] ==> x == m;
    assert Bare(t) == t;
    assert Looked(ctx, t, Single(m)) == [m];
  }

  /** A name stands for what its alias says exactly if that is a single word that starts
      with a letter or an underscore, without a leading pipe. */
  lemma ReferenceStep(name: string, aliases: map<string, TsType>, seen: set<string>)
    requires name in aliases && name !in seen
    ensures var t := aliases[name];
      Reference(name, aliases, seen) ==
        if !t.lead && t.rest == [] && t.first.Word? && t.first.name != ""
           && ('A' <= t.first.name[0] <= 'Z' || 'a' <= t.first.name[0] <= 'z' || t.first.name[0] == '_')
        then Reference(t.first.name, aliases, seen + {name}) else Some(name)
  {
  }

  /** `undefined` may stand only at the top of an optional field's type. */
  lemma UndefinedOnlyOptional(ctx: Context, at: string, g: GoField, t: TsField)
    requires CompareField(ctx, at, g, t) == [] && UNDEFINED in Expanded(t.ty, ctx.aliases)
    ensures g.omitempty && t.optional
  {
    hide Expanded, CheckElements, CheckValues, CheckNamed, Looked;
  }

  lemma NoUndefinedInside(ctx: Context, at: string, bare: GoType, ms: seq<Member>, m: Member)
    requires Collection(bare) && m in ms
    requires if bare.Slice? then CheckElements(ctx, at, bare, ms) == [] else CheckValues(ctx, at, bare, ms) == []
    ensures Form(bare, m) && UNDEFINED !in Expanded(MemberElem(bare, m), ctx.aliases)
  {
    hide Expanded, CheckElements, CheckValues, CheckNamed, Looked;
    ElementsClean(ctx, at, bare, ms, m);
  }

  // The document

  /** The format a scalar needs; the others take any. */
  predicate FormatFits(t: GoType, format: Option<string>) {
    && (t == UUID ==> format == Some("uuid"))
    && (t == TIME ==> format == Some("date-time"))
  }

  /** A field that is always written passes against a plain schema exactly if that
      has the type of what Go writes, and its format. */
  lemma ScalarProperty(ctx: OpenContext, t: GoType, word: string, kind: string, format: Option<string>)
    requires GoScalar(t).Some? && (t == UUID || t == TIME || t.qualifier == "")
    requires word in Keywords(GoScalar(t).value) - {"true", "false"} && word !in ctx.wire.aliases
    ensures PropertyProblems(ctx, GoField(t, false), TsField(false, Single(Word(word))),
                             EMPTY.(ty := One(kind), format := format)) == []
       <==> kind == SchemaType(GoScalar(t).value) && FormatFits(t, format)
  {
    hide CompareNamed, Expanded, GoScalar;
    var s, ts := EMPTY.(ty := One(kind), format := format), Single(Word(word));
    OneWord(word, ctx.wire.aliases);
    assert Word(word) in [Word(word)] && NULL !in [Word(word)] && UNDEFINED !in [Word(word)];
    ScalarSchema(ctx, t, word, kind, format);
    assert Bare(t) == t && !Nullable(s);
    assert CompareValue(ctx, t, ts, s, false, false) == CompareNamed(ctx, t, ts, s);
  }

  lemma ScalarSchema(ctx: OpenContext, t: GoType, word: string, kind: string, format: Option<string>)
    requires GoScalar(t).Some? && (t == UUID || t == TIME || t.qualifier == "")
    requires word in Keywords(GoScalar(t).value) - {"true", "false"}
    requires Expanded(Single(Word(word)), ctx.wire.aliases) == [Word(word)]
    ensures t.Named? && word != "null" && word != "undefined"
    ensures CompareNamed(ctx, t, Single(Word(word)), EMPTY.(ty := One(kind), format := format)) == []
       <==> kind == SchemaType(GoScalar(t).value) && FormatFits(t, format)
  {
    hide EnumAgrees, Expanded;
    OneWord(word, map[]);
    var e := SchemaType(GoScalar(t).value);
    var s := EMPTY.(ty := One(kind), format := format);
    NoEnum(e, word);
    if t.qualifier == "" { FloatNames(t); }
    assert ExpectedScalar(t, ctx.wire.stringTypes).value.0 == e;
    assert Types(s) == {kind} && (kind in {e} <==> {kind} == {e});
    assert Leaves(ctx.wire, Single(Word(word))) == [Word(word)];
  }

  lemma FloatNames(t: GoType)
    requires GoScalar(t).Some? && t.Named? && t.qualifier == ""
    ensures GoScalar(t) == Some(AsNumber) ==> Floating(t)
    ensures GoScalar(t) == Some(AsInteger) ==> !Floating(t)
  {
    var name := t.short;
    if name == "float32" || name == "float64" { assert name[..5] == "float"; }
    if GoScalar(t) == Some(AsInteger) { assert name[0] == 'i' || name[0] == 'u'; }
  }

  lemma NoEnum(kind: string, word: string)
    requires kind == "boolean" ==> word == "boolean"
    ensures EnumAgrees(kind, [Word(word)], None)
  {
    assert Word(word) in [Word(word)];
  }

  /** The format stands at every plain schema the composites lead to, and they lead
      to one. */
  predicate HasFormat(s: Schema, format: string)
    decreases s
  {
    s.Schema? &&
    match Composite(s)
    case Listed(vs) =>
      && (exists i :: 0 <= i < |vs| && vs[i] != NULL_SCHEMA)
      && forall i :: 0 <= i < |vs| && vs[i] != NULL_SCHEMA ==> HasFormat(vs[i], format)
    case Absent => s.format == Some(format)
  }

  lemma {:induction false} NodeFormat(ctx: OpenContext, go: GoType, ts: TsType, s: Schema, au: bool, rn: bool,
                                      format: string)
    requires (Bare(go) == UUID && format == "uuid") || (Bare(go) == TIME && format == "date-time")
    requires CompareValue(ctx, go, ts, s, au, rn) == []
    ensures HasFormat(s, format)
    decreases s
  {
    hide CompareValue, Expanded, EnumAgrees;
    LeavesAreThere(ctx, go, ts, s, au, rn);
    match Composite(s)
    case Listed(vs) =>
      var i := CompositeParts(ctx, go, ts, s, vs, au, rn);
      NodeFormat(ctx, go, Joined(Leaves(ctx.wire, ts)), vs[i], false, false, format);
    case Absent => PlainParts(ctx, go, ts, s, au, rn);
  }

  /** A property for a UUID or a time, behind pointers or not, that passes has the
      format at its plain schema. */
  lemma FormatRequired(ctx: OpenContext, g: GoField, t: TsField, s: Schema)
    requires PropertyProblems(ctx, g, t, s) == []
    ensures Bare(g.ty) == Named("uuid", "UUID") ==> HasFormat(s, "uuid")
    ensures Bare(g.ty) == Named("time", "Time") ==> HasFormat(s, "date-time")
  {
    hide PropertyProblems, CompareValue, HasFormat;
    PropertyParts(ctx, g, t, s);
    if Bare(g.ty) == UUID {
      NodeFormat(ctx, g.ty, t.ty, s, g.omitempty && t.optional, g.ty.Pointer? && !g.omitempty, "uuid");
    } else if Bare(g.ty) == TIME {
      NodeFormat(ctx, g.ty, t.ty, s, g.omitempty && t.optional, g.ty.Pointer? && !g.omitempty, "date-time");
    }
  }

  // Keywords of a passing document

  /** A passing property is optional in TypeScript exactly if Go may omit it, and only
      then may its type name `undefined`. */
  lemma PropertyPresence(ctx: OpenContext, g: GoField, t: TsField, s: Schema)
    requires PropertyProblems(ctx, g, t, s) == []
    ensures t.optional <==> g.omitempty
    ensures UNDEFINED in Expanded(t.ty, ctx.wire.aliases) ==> g.omitempty
  {
    hide CompareValue, Expanded;
  }

  /** No node that passes uses the keyword `nullable` or a conditional keyword, and its
      type has a member, none of them empty, besides null and undefined. */
  lemma NodeDialect(ctx: OpenContext, go: GoType, ts: TsType, s: Schema, au: bool, rn: bool)
    requires CompareValue(ctx, go, ts, s, au, rn) == []
    ensures s.Schema? && !s.nullableKeyword && (Composite(s).Absent? ==> !s.conditional)
    ensures Leaves(ctx.wire, ts) != [] && Blank !in Leaves(ctx.wire, ts)
  {
    hide NodeProblems, Expanded, CompareNamed, CompareElements, Types;
  }

  /** The enum of a passing scalar lists no value twice. */
  lemma EnumIsDistinct(ctx: OpenContext, bare: GoType, ts: TsType, s: Schema)
    requires bare.Named? && s.Schema? && CompareNamed(ctx, bare, ts, s) == [] && s.enum.Some?
    requires GoScalar(bare).Some?
    ensures forall i, k :: 0 <= i < k < |s.enum.value| ==> s.enum.value[i] != s.enum.value[k]
  {
    hide Expanded, Types;
  }

  /** Raw JSON needs an object schema. */
  lemma RawIsObject(ctx: OpenContext, ts: TsType, s: Schema)
    requires s.Schema?
    ensures CompareNamed(ctx, Named("json", "RawMessage"), ts, s) == [] <==> "object" in Types(s)
  {
    hide Types;
  }

  /** The public wire components are closed. */
  lemma WireComponentsClosed(w: OpenWorld, name: string, fields: FieldMap, s: Schema)
    requires ComponentAgrees(w, name, fields, s)
    requires w.components[name] in {
      "Submission", "OutboundJob", "OutboundReceipt", "OutboundReceiptProgress", "OutboundReceiptCounts",
      "SubmissionCapabilities", "SubmissionContent"
    }
    ensures s.closed
  {
    hide PropertyProblems, PairAgrees, Resolve, Types;
  }
}
