/**
 A document both contract checks pass although it rejects a value the other two
 sides agree on: a nullable string enum spelled with null in the type list.
 Beside it stands a table that meets every premise of the main results, so that
 none of them holds for want of an instance.  Both tables have one field and are
 built from the same parts.
*/
module OpenApiLimits {
  import opened Wrappers
  import opened TsTypes
  import opened WireChecker
  import opened WireMeaning
  import opened WireSound
  import opened WireLimits
  import opened OpenApiChecker
  import opened JsonSchema
  import opened OpenApiNodes
  import opened OpenApiSound

  /** The one-field table of `OneField`, with a component of one property. */
  function OneProperty(g: GoField, t: TsField, p: Schema, closed: bool): OpenWorld {
    OpenWorld(OneField(g, t), map["S" := "S"], map["S" := Component(p, closed)], map["S" := "S"])
  }

  function Component(p: Schema, closed: bool): Schema {
    EMPTY.(ty := One("object"), properties := Some(map["a" := p]), required := ["a"], closed := closed)
  }

  lemma OnePropertyAgrees(g: GoField, t: TsField, p: Schema, closed: bool)
    requires CompareField(OneField(g, t).Ctx(), "S->S.a", g, t) == [] && Known(OneField(g, t), g.ty) && !g.omitempty
    requires PropertyProblems(OneProperty(g, t, p, closed).Ctx(), g, t, p) == []
    ensures var w := OneProperty(g, t, p, closed);
      PairAgrees(w.wire, "S", map["a" := t]) && ComponentProblems(w, "S", map["a" := t], ["a"]) == []
  {
    hide CompareField, PropertyProblems;
    var w := OneProperty(g, t, p, closed);
    var fields: FieldMap := map["a" := t];
    assert TsFields("S", w.wire.ts) == Ok(Some(fields));
    assert "S" + "->" + "S" + "." + "a" == "S->S.a";
    assert ["a"][..0] == [];
    assert PropertiesProblems(w.Ctx(), w.wire.go.structs["S"], fields, map["a" := p], []) == [];
    assert Resolve(w.defs, "S", {}) == Some(Component(p, closed));
    assert RequiredNames(w.wire.go.structs["S"]) == {"a"};
    assert (set n | n in ["a"]) == {"a"};
  }

  /** Such a table is a setting of the main result if its field passes. */
  lemma OnePropertySetting(g: GoField, t: TsField, p: Schema, closed: bool)
    requires CompareField(OneField(g, t).Ctx(), "S->S.a", g, t) == [] && Known(OneField(g, t), g.ty) && !g.omitempty
    requires PropertyProblems(OneProperty(g, t, p, closed).Ctx(), g, t, p) == []
    requires Fragment(OneProperty(g, t, p, closed).defs, g.ty, p)
    ensures var w := OneProperty(g, t, p, closed); Setting(w) && (OpenReady(w) ==> FieldSchemaReady(w, g, t, p))
  {
    hide CompareField, PropertyProblems, Fragment, FieldSchemaReady, FieldReady, TableReady, Clean, Closed, OpenClean,
         InFragment, ComponentAgrees, PairAgrees, ComponentProblems, Known;
    var w := OneProperty(g, t, p, closed);
    OneFieldWorld(g, t);
    OnePropertyAgrees(g, t, p, closed);
    OnePropertyClean(g, t, p, closed);
    assert InFragment(w) by { OnePropertyInFragment(g, t, p, closed); }
    if OpenReady(w) { OnlyField(g, t, p, closed); }
  }

  lemma OnlyField(g: GoField, t: TsField, p: Schema, closed: bool)
    requires var w := OneProperty(g, t, p, closed);
      OpenReady(w) && ComponentAgrees(w, "S", map["a" := t], Component(p, closed))
    ensures FieldSchemaReady(OneProperty(g, t, p, closed), g, t, p)
  {
    hide ComponentAgrees, FieldSchemaReady;
    var w := OneProperty(g, t, p, closed);
    var fields: FieldMap := map["a" := t];
    assert "a" in fields && fields["a"] == t && w.wire.go.structs["S"]["a"] == g;
    assert Component(p, closed).properties.value["a"] == p;
  }

  lemma OnePropertyClean(g: GoField, t: TsField, p: Schema, closed: bool)
    requires var w := OneProperty(g, t, p, closed);
      Clean(w.wire) && PairAgrees(w.wire, "S", map["a" := t]) && ComponentProblems(w, "S", map["a" := t], ["a"]) == []
    ensures OpenClean(OneProperty(g, t, p, closed))
    ensures ComponentAgrees(OneProperty(g, t, p, closed), "S", map["a" := t], Component(p, closed))
  {
    hide CompareField, PropertyProblems, Clean, ComponentProblems;
    var w := OneProperty(g, t, p, closed);
    var fields: FieldMap := map["a" := t];
    assert Enumerates(["a"], fields.Keys);
    var s := ComponentClean(w, "S", fields, ["a"]);
    assert Resolve(w.defs, "S", {}) == Some(Component(p, closed));
  }

  lemma OnlyComponent(g: GoField, t: TsField, p: Schema, closed: bool)
    ensures forall name, fs, s :: ComponentAgrees(OneProperty(g, t, p, closed), name, fs, s) ==>
              name == "S" && fs == map["a" := t] && s == Component(p, closed)
  {
    hide CompareField, PropertyProblems;
    var w := OneProperty(g, t, p, closed);
    assert TsFields("S", w.wire.ts) == Ok(Some(map["a" := t]));
    assert Resolve(w.defs, "S", {}) == Some(Component(p, closed));
  }

  lemma OnePropertyInFragment(g: GoField, t: TsField, p: Schema, closed: bool)
    requires Fragment(OneProperty(g, t, p, closed).defs, g.ty, p)
    ensures InFragment(OneProperty(g, t, p, closed))
  {
    hide ComponentAgrees, Fragment;
    OnlyComponent(g, t, p, closed);
    var w := OneProperty(g, t, p, closed);
    assert ObjectSchema(Component(p, closed));
    assert w.wire.go.structs["S"]["a"] == g;
  }

  /** The string pointer `a` against `"x" | null` and
      `{type: [string, null], enum: ["x"]}`: no problem is reported, and null does
      not conform. */
  lemma {:induction false} NullableEnumGap() returns (w: OpenWorld)
    ensures Setting(w) && !OpenSound(w)
  {
    hide CompareField, PropertyProblems, Setting, OpenReady, OpenSound, SchemaReady;
    var g := GoField(Pointer(STRING), false);
    var t := TsField(false, Union(false, Quoted('"', "x"), [NULL]));
    var p := EMPTY.(ty := Many(["string", "null"]), enum := Some([Text("x")]));
    w := OneProperty(g, t, p, false);
    EnumField(w.wire.Ctx(), g, t);
    EnumProperty(w.Ctx(), g, t, p);
    OnePropertySetting(g, t, p, false);
    EnumNotReady(w, g, t, p);
    OpenApiSoundIffReady(w);
  }

  lemma EnumExpansion(t: TsType)
    requires t == Union(false, Quoted('"', "x"), [NULL])
    ensures Expanded(t, map[]) == [Quoted('"', "x"), NULL]
    ensures Relevant(Expanded(t, map[])) == [Quoted('"', "x")]
  {
    var q := Quoted('"', "x");
    ExpandPlain(t.Members());
    assert t.Members() == [q, NULL];
    assert [q, NULL][1..] == [NULL] && [NULL][1..] == [];
    assert Relevant([NULL]) == [];
  }

  lemma EnumField(ctx: Context, g: GoField, t: TsField)
    requires ctx.aliases == map[] && g == GoField(Pointer(STRING), false)
    requires t == TsField(false, Union(false, Quoted('"', "x"), [NULL]))
    ensures CompareField(ctx, "S->S.a", g, t) == []
  {
    EnumExpansion(t.ty);
    assert Bare(g.ty) == STRING;
    assert Looked(ctx, g.ty, t.ty) == [Quoted('"', "x")];
  }

  lemma EnumProperty(ctx: OpenContext, g: GoField, t: TsField, p: Schema)
    requires ctx.wire.aliases == map[] && g == GoField(Pointer(STRING), false)
    requires t == TsField(false, Union(false, Quoted('"', "x"), [NULL]))
    requires p == EMPTY.(ty := Many(["string", "null"]), enum := Some([Text("x")]))
    ensures PropertyProblems(ctx, g, t, p) == []
  {
    EnumExpansion(t.ty);
    var q := Quoted('"', "x");
    assert q in Expanded(t.ty, map[]);
    assert Bare(g.ty) == STRING;
    assert Types(p) == {"string"} by { assert "string" in ["string", "null"]; }
    assert "null" in p.ty.names;
    assert q in [q] && forall m :: m in [q] ==> m == q;
    assert StringEnum([q]).value == {"x"};
    assert EnumAgrees("string", [q], p.enum);
    assert CompareNamed(ctx, STRING, t.ty, p) == [];
  }

  lemma EnumNotReady(w: OpenWorld, g: GoField, t: TsField, p: Schema)
    requires w.wire.ts.aliases == map[] && g == GoField(Pointer(STRING), false)
    requires t == TsField(false, Union(false, Quoted('"', "x"), [NULL]))
    requires p == EMPTY.(ty := Many(["string", "null"]), enum := Some([Text("x")]))
    ensures !FieldSchemaReady(w, g, t, p)
  {
    EnumExpansion(t.ty);
    assert !TakesNull(p);
  }

  // A table for which everything holds

  function StringTable(closed: bool): OpenWorld {
    OneProperty(GoField(STRING, false), TsField(false, Single(Word("string"))), EMPTY.(ty := One("string")), closed)
  }

  /** A string field against `string` and `{type: string}` meets every premise and
      is ready on both counts, so all three descriptions of it agree. */
  lemma ReadyTable(closed: bool) returns (w: OpenWorld)
    ensures w == StringTable(closed)
    ensures Setting(w) && OpenReady(w) && TableReady(w.wire) && OpenSound(w) && TableSound(w.wire)
  {
    hide CompareField, PropertyProblems, Setting, OpenReady, OpenSound, TableReady, TableSound, FieldSchemaReady,
         FieldReady, Clean, Closed, OpenClean, InFragment;
    var g, t := GoField(STRING, false), TsField(false, Single(Word("string")));
    var p := EMPTY.(ty := One("string"));
    w := OneProperty(g, t, p, closed);
    StringField(w.wire.Ctx(), g, t);
    StringProperty(w.Ctx(), g, t, p);
    OnePropertySetting(g, t, p, closed);
    StringFieldReady(w, g, t, p);
    OneFieldReady(g, t);
    OnePropertyReady(g, t, p, closed);
    OpenApiSoundIffReady(w);
    OneFieldWorld(g, t);
    WireSoundIffReady(w.wire);
  }

  lemma StringField(ctx: Context, g: GoField, t: TsField)
    requires ctx.aliases == map[] && g == GoField(STRING, false) && t == TsField(false, Single(Word("string")))
    ensures CompareField(ctx, "S->S.a", g, t) == []
  {
    hide CheckProjection;
    ExpandPlain(t.ty.Members());
    StringNode(ctx, "S->S.a", g.ty, t.ty, false);
  }

  lemma StringProperty(ctx: OpenContext, g: GoField, t: TsField, p: Schema)
    requires ctx.wire.aliases == map[] && g == GoField(STRING, false) && t == TsField(false, Single(Word("string")))
    requires p == EMPTY.(ty := One("string"))
    ensures PropertyProblems(ctx, g, t, p) == []
  {
    var m := Word("string");
    ExpandPlain(t.ty.Members());
    assert Expanded(t.ty, map[]) == [m] && m in [m];
    assert [m][1..] == [] && Relevant([m]) == [m];
    assert StringEnum([m]) == None;
    assert CompareNamed(ctx, STRING, t.ty, p) == [];
  }

  lemma StringFieldReady(w: OpenWorld, g: GoField, t: TsField, p: Schema)
    requires g == GoField(STRING, false) && t == TsField(false, Single(Word("string")))
             && p == EMPTY.(ty := One("string"))
    ensures FieldReady(w.wire, g, t) && FieldSchemaReady(w, g, t, p)
  {
  }

  lemma OnePropertyReady(g: GoField, t: TsField, p: Schema, closed: bool)
    requires FieldSchemaReady(OneProperty(g, t, p, closed), g, t, p)
    ensures OpenReady(OneProperty(g, t, p, closed))
  {
    hide ComponentAgrees, FieldSchemaReady;
    OnlyComponent(g, t, p, closed);
    var w := OneProperty(g, t, p, closed);
    assert w.wire.go.structs["S"]["a"] == g && Component(p, closed).properties.value["a"] == p;
  }
}
