/**
 Every Go source has a TypeScript source that passes: the canonical one, ready for
 every null Go writes.
*/
module Canonical {
  import opened Wrappers
  import opened TsTypes
  import opened WireChecker
  import opened WireMeaning
  import opened WireSound
  import opened WireLimits

  /** The type with null among its members. */
  function OrNull(t: TsType): TsType { Union(false, t.first, t.rest + [NULL]) }

  function ScalarWord(k: Written): string {
    match k
    case AsText => "string"
    case AsNumber => "number"
    case AsInteger => "number"
    case AsBoolean => "boolean"
  }

  /** A struct is written as an interface of its own name. */
  function NameOf(go: GoSource, t: GoType): string
    requires t.Named?
  {
    match GoScalar(t)
    case Some(k) => ScalarWord(k)
    case None => if t.short in go.stringTypes then "string" else t.short
  }

  function TypeOf(go: GoSource, t: GoType): TsType {
    match t
    case Pointer(u) => OrNull(TypeOf(go, u))
    case Slice(e) => OrNull(Single(Generic(TypeOf(go, e))))
    case Map(v) => OrNull(Single(Record(TypeOf(go, v))))
    case Named(_, _) => Single(Word(NameOf(go, t)))
  }

  function FieldsOf(go: GoSource, s: GoStruct): FieldMap {
    map n | n in s :: TsField(s[n].omitempty, TypeOf(go, s[n].ty))
  }

  function SourceOf(go: GoSource): TsSource {
    TsSource(map n | n in go.structs :: FieldsOf(go, go.structs[n]), map[])
  }

  function WorldOf(go: GoSource): World {
    var own := map n | n in go.structs :: n;
    World(go, SourceOf(go), own, own)
  }

  /** Struct names are no TypeScript keywords, and every field type is made of
      scalars, string types and declared structs. */
  predicate Representable(go: GoSource) {
    && (forall n :: n in go.structs ==> n !in RESERVED)
    && forall n, f :: n in go.structs && f in go.structs[n] ==> Known(WorldOf(go), go.structs[n][f].ty)
  }

  // Members of canonical types

  /** The one member that is not null. */
  function MemberOf(go: GoSource, bare: GoType): Member
    requires !bare.Pointer?
  {
    match bare
    case Slice(e) => Generic(TypeOf(go, e))
    case Map(v) => Record(TypeOf(go, v))
    case Named(_, _) => Word(NameOf(go, bare))
  }

  lemma {:induction false} RelevantAppend(a: seq<Member>, b: seq<Member>)
    ensures Relevant(a + b) == Relevant(a) + Relevant(b)
    decreases a
  {
    if a == [] {
      assert a + b == b;
    } else {
      assert (a + b)[1..] == a[1..] + b;
      RelevantAppend(a[1..], b);
    }
  }

  lemma OnlyRelevant(m: Member)
    ensures Relevant([m]) == if m == NULL || m == UNDEFINED then [] else [m]
  {
    assert [m][1..] == [] && Relevant([]) == [];
  }

  lemma {:induction false} TypeMembers(go: GoSource, t: GoType)
    requires Bare(t).Named? ==> NameOf(go, Bare(t)) !in {"null", "undefined"}
    ensures var ms := TypeOf(go, t).Members();
      && (NULL in ms <==> !t.Named?) && UNDEFINED !in ms
      && Relevant(ms) == [MemberOf(go, Bare(t))]
    decreases t
  {
    hide NameOf, Relevant;
    var m := MemberOf(go, Bare(t));
    OnlyRelevant(m);
    OnlyRelevant(NULL);
    match t
    case Pointer(u) =>
      TypeMembers(go, u);
      var ms := TypeOf(go, u).Members();
      assert TypeOf(go, t).Members() == ms + [NULL];
      RelevantAppend(ms, [NULL]);
    case Named(_, _) =>
      assert TypeOf(go, t).Members() == [m];
    case _ =>
      assert TypeOf(go, t).Members() == [m] + [NULL];
      RelevantAppend([m], [NULL]);
  }

  // Nodes

  lemma NameIsNoNull(go: GoSource, t: GoType)
    requires Representable(go) && t.Named? && Known(WorldOf(go), t)
    ensures NameOf(go, t) !in {"null", "undefined"}
  {
  }

  /** The two lists a node looks at. */
  lemma Seen(go: GoSource, t: GoType)
    requires Representable(go) && Known(WorldOf(go), t)
    ensures var w, ts := WorldOf(go), TypeOf(go, t);
      && (NULL in Expanded(ts, w.ts.aliases) <==> !t.Named?) && UNDEFINED !in Expanded(ts, w.ts.aliases)
      && Looked(w.Ctx(), t, ts) == [MemberOf(go, Bare(t))]
  {
    KnownBare(WorldOf(go), t);
    if Bare(t).Named? { NameIsNoNull(go, Bare(t)); }
    TypeMembers(go, t);
    ExpandPlain(TypeOf(go, t).Members());
  }

  lemma {:induction false} NodePasses(go: GoSource, at: string, t: GoType, au: bool, rn: bool)
    requires Representable(go) && Known(WorldOf(go), t) && (rn ==> !t.Named?)
    ensures CheckProjection(WorldOf(go).Ctx(), at, t, TypeOf(go, t), au, rn) == []
    decreases t
  {
    hide Expanded, Looked, Known, CheckElements, CheckValues, CheckNamed;
    var ctx, bare := WorldOf(go).Ctx(), Bare(t);
    Seen(go, t);
    var m := MemberOf(go, bare);
    assert [m][0] == m;
    BareStars(t);
    KnownBare(WorldOf(go), t);
    match bare {
      case Slice(e) =>
        assert Known(WorldOf(go), e) by { KnownInside(WorldOf(go), bare); }
        NodePasses(go, at + "[]", e, false, e.Pointer?);
        OneElement(ctx, at, bare, m);
      case Map(v) =>
        assert Known(WorldOf(go), v) by { KnownInside(WorldOf(go), bare); }
        NodePasses(go, at + "{}", v, false, v.Pointer?);
        OneValue(ctx, at, bare, m);
      case Named(_, _) => NamedPasses(go, at, bare);
    }
  }

  lemma BareStars(t: GoType)
    ensures !t.Named? ==> t.Pointer? || Collection(Bare(t))
  {
  }

  lemma KnownInside(w: World, t: GoType)
    requires Known(w, t)
    ensures t.Slice? ==> Known(w, t.elem)
    ensures t.Map? ==> Known(w, t.value)
  {
  }

  lemma OneElement(ctx: Context, at: string, bare: GoType, m: Member)
    requires bare.Slice? && ArrayMember(m)
    requires CheckProjection(ctx, at + "[]", bare.elem, ArrayElem(m), false, bare.elem.Pointer?) == []
    ensures CheckElements(ctx, at, bare, [m]) == []
  {
    hide CheckProjection;
    assert [m][1..] == [] && CheckElements(ctx, at, bare, []) == [];
  }

  lemma OneValue(ctx: Context, at: string, bare: GoType, m: Member)
    requires bare.Map? && m.Record?
    requires CheckProjection(ctx, at + "{}", bare.value, m.value, false, bare.value.Pointer?) == []
    ensures CheckValues(ctx, at, bare, [m]) == []
  {
    hide CheckProjection;
    assert [m][1..] == [] && CheckValues(ctx, at, bare, []) == [];
  }

  lemma NamedPasses(go: GoSource, at: string, t: GoType)
    requires Representable(go) && t.Named? && Known(WorldOf(go), t)
    ensures CheckNamed(WorldOf(go).Ctx(), at, t, [MemberOf(go, t)]) == []
  {
    var m := MemberOf(go, t);
    assert forall x :: x in [m] ==> x == m;
  }

  lemma FieldPasses(go: GoSource, at: string, g: GoField)
    requires Representable(go) && Known(WorldOf(go), g.ty)
    ensures CompareField(WorldOf(go).Ctx(), at, g, TsField(g.omitempty, TypeOf(go, g.ty))) == []
  {
    hide Expanded, Looked, Known, CheckProjection, Representable;
    Seen(go, g.ty);
    NodePasses(go, at, g.ty, g.omitempty, g.ty.Pointer? && !g.omitempty);
  }

  lemma {:induction false} NodeIsReady(go: GoSource, t: GoType, mayBeNull: bool)
    requires Representable(go) && Known(WorldOf(go), t) && (mayBeNull ==> !t.Named?)
    ensures Ready(WorldOf(go).Ctx(), t, TypeOf(go, t), mayBeNull)
    decreases t
  {
    hide Expanded, Looked, Known;
    var bare := Bare(t);
    Seen(go, t);
    var m := MemberOf(go, bare);
    assert m in [m];
    KnownBare(WorldOf(go), t);
    if bare.Slice? {
      assert Known(WorldOf(go), bare.elem) by { KnownInside(WorldOf(go), bare); }
      NodeIsReady(go, bare.elem, MayBeNull(bare.elem));
    } else if bare.Map? {
      assert Known(WorldOf(go), bare.value) by { KnownInside(WorldOf(go), bare); }
      NodeIsReady(go, bare.value, MayBeNull(bare.value));
    }
  }

  // Tables

  lemma PairIsCanonical(go: GoSource, name: string, fields: FieldMap)
    requires PairAgrees(WorldOf(go), name, fields)
    ensures name in go.structs && fields == FieldsOf(go, go.structs[name])
  {
    hide CompareField;
  }

  lemma PairPassesCheck(go: GoSource, name: string)
    requires Representable(go) && name in go.structs
    ensures PairAgrees(WorldOf(go), name, FieldsOf(go, go.structs[name]))
  {
    hide CompareField;
    var w, s := WorldOf(go), go.structs[name];
    var fields := FieldsOf(go, s);
    assert TsFields(name, w.ts) == Ok(Some(fields));
    forall n | n in fields ensures CompareField(w.Ctx(), name + "->" + w.pairs[name] + "." + n, s[n], fields[n]) == [] {
      FieldPasses(go, name + "->" + w.pairs[name] + "." + n, s[n]);
    }
  }

  /** For every Go source of known types the canonical table passes the check, is
      ready for null, and, without byte slices, admits everything Go writes. */
  lemma {:induction false} CanonicalPasses(go: GoSource)
    requires Representable(go)
    ensures var w := WorldOf(go);
      && w.ts.Valid() && Clean(w) && Closed(w) && TableReady(w)
      && (forall name :: name in go.structs ==> PairAgrees(w, name, FieldsOf(go, go.structs[name])))
      && (NoBytes(w) ==> TableSound(w))
  {
    hide CompareField, PairAgrees, Ready, Known, TableSound, Clean, PairPasses;
    var w := WorldOf(go);
    forall name | name in go.structs ensures PairAgrees(w, name, FieldsOf(go, go.structs[name])) {
      PairPassesCheck(go, name);
    }
    forall name | name in w.pairs ensures PairPasses(w, name) { Passing(w, name, FieldsOf(go, go.structs[name])); }
    AllPassIsClean(w);
    CanonicalIsReady(go);
    WireSoundIffReady(w);
  }

  lemma CanonicalIsReady(go: GoSource)
    requires Representable(go)
    ensures TableReady(WorldOf(go))
  {
    hide CompareField, TsFields, Ready, Known;
    var w := WorldOf(go);
    forall name, fields, n | PairAgrees(w, name, fields) && n in fields
      ensures FieldReady(w, w.go.structs[name][n], fields[n])
    {
      PairIsCanonical(go, name, fields);
      var g := go.structs[name][n];
      NodeIsReady(go, g.ty, FieldMayBeNull(g));
    }
  }

  lemma Passing(w: World, name: string, fields: FieldMap)
    requires PairAgrees(w, name, fields)
    ensures PairPasses(w, name)
  {
  }
}
