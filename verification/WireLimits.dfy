/**
 Where the wire projection stops: three families of Go fields pass the checker
 although the encoder can write a value their TypeScript type does not admit.
 They are nil slices, `omitempty` pointers to pointers, slices or maps, and byte
 slices.  Each is shown by a table with one field, which the equivalence of the
 main result then says is not sound.
*/
module WireLimits {
  import opened Wrappers
  import opened TsTypes
  import opened WireChecker
  import opened WireSound

  // Clean tables that are not ready

  /** One struct `S` with one field `a`, paired with an interface `S`. */
  function OneField(g: GoField, t: TsField): World {
    World(GoSource(map["S" := map["a" := g]], {}), TsSource(map["S" := map["a" := t]], map[]),
          map["S" := "S"], map["S" := "S"])
  }

  lemma OneFieldPair(w: World, fields: FieldMap, order: FieldOrder)
    requires w.pairs == map["S" := "S"] && w.ts == TsSource(map["S" := fields], map[])
    requires "S" in w.go.structs && w.go.structs["S"].Keys == {"a"} == fields.Keys && order == (_ => ["a"])
    requires CompareField(w.Ctx(), "S->S.a", w.go.structs["S"]["a"], fields["a"]) == []
    ensures TsFields("S", w.ts) == Ok(Some(fields))
    ensures OrdersFields(w, order) && PairErrors(w, order, "S") == []
  {
    hide CompareField;
    var go := w.go.structs["S"];
    assert "S->S" + "." + "a" == "S->S.a" && "S" + "->" + "S" == "S->S";
    assert ["a"][..0] == [];
    assert FieldErrors(w.Ctx(), "S->S", go, fields, []) == [];
    assert FieldErrors(w.Ctx(), "S->S", go, fields, ["a"]) == [];
  }

  /** A one-field table whose field passes is clean, and ready if the field is. */
  lemma OneFieldWorld(g: GoField, t: TsField)
    requires CompareField(OneField(g, t).Ctx(), "S->S.a", g, t) == [] && Known(OneField(g, t), g.ty)
    ensures var w := OneField(g, t);
            w.ts.Valid() && Clean(w) && Closed(w) && (TableReady(w) ==> FieldReady(w, g, t))
  {
    hide CompareField, FieldReady, PairErrors, TsFields, OrdersFields;
    var w := OneField(g, t);
    var fields: FieldMap := map["a" := t];
    var order: FieldOrder := _ => ["a"];
    OneFieldPair(w, fields, order);
    assert ["S"][..0] == [] && AllPairErrors(w, order, []) == [];
    assert AllPairErrors(w, order, ["S"]) == [];
    assert "S" + "->" + "S" + "." + "a" == "S->S.a";
    assert PairAgrees(w, "S", fields);
  }

  const STRING := Named("", "string")

  /** A nil slice is the documented gap: `[]string` against `string[]` passes,
      and the null the encoder writes for nil is not admitted. */
  lemma {:induction false} NilSliceGap() returns (w: World)
    ensures w.ts.Valid() && Clean(w) && Closed(w) && !TableSound(w)
  {
    hide CompareField, TableReady, TableSound, Clean, Closed;
    var g, t := GoField(Slice(STRING), false), TsField(false, Single(Suffix(Word("string"))));
    w := OneField(g, t);
    StringArrayField(w.Ctx(), "S->S.a", g, t);
    OneFieldWorld(g, t);
    ExpandPlain(t.ty.Members());
    assert !FieldReady(w, g, t);
    WireSoundIffReady(w);
  }

  /** An undocumented one: a non-nil pointer to a nil pointer survives
      `omitempty` and is written as null, which no rule asks TypeScript for. */
  lemma {:induction false} DoublePointerGap() returns (w: World)
    ensures w.ts.Valid() && Clean(w) && Closed(w) && !TableSound(w)
    ensures forall s, n :: s in w.go.structs && n in w.go.structs[s] ==> !Collection(Bare(w.go.structs[s][n].ty))
  {
    hide CompareField, TableReady, TableSound, Clean, Closed;
    var g, t := GoField(Pointer(Pointer(STRING)), true), TsField(true, Single(Word("string")));
    w := OneField(g, t);
    assert Bare(g.ty) == STRING;
    DoublePointerField(w.Ctx(), "S->S.a", g, t);
    OneFieldWorld(g, t);
    ExpandPlain(t.ty.Members());
    assert !FieldReady(w, g, t);
    WireSoundIffReady(w);
  }

  /** A byte slice of any kind: `[]uint8` against `number[]` passes and is ready
      for null, and is written as text. */
  lemma {:induction false} ByteSliceGap() returns (w: World)
    ensures w.ts.Valid() && Clean(w) && Closed(w) && TableReady(w) && !TableSound(w)
  {
    hide CompareField, TableReady, TableSound, Clean, Closed;
    var g, t := GoField(Slice(BYTE), true), TsField(true, Single(Suffix(Word("number"))));
    w := OneField(g, t);
    ByteArrayField(w.Ctx(), "S->S.a", g, t);
    OneFieldWorld(g, t);
    ExpandPlain(t.ty.Members());
    ByteFieldReady(w, g, t);
    OneFieldReady(g, t);
    assert HasBytes(w.go.structs["S"]["a"].ty);
    WireSoundIffReady(w);
  }

  lemma ByteArrayField(ctx: Context, at: string, g: GoField, t: TsField)
    requires g == GoField(Slice(BYTE), true) && t == TsField(true, Single(Suffix(Word("number"))))
    requires ctx.aliases == map[]
    ensures CompareField(ctx, at, g, t) == []
  {
    hide CheckProjection;
    ExpandPlain(t.ty.Members());
    ByteArrayNode(ctx, at, g.ty, t.ty);
  }

  lemma ByteArrayNode(ctx: Context, at: string, go: GoType, t: TsType)
    requires go == Slice(BYTE) && t == Single(Suffix(Word("number"))) && ctx.aliases == map[]
    ensures CheckProjection(ctx, at, go, t, true, false) == []
  {
    var m, number := Suffix(Word("number")), Single(Word("number"));
    ExpandPlain(t.Members());
    assert Looked(ctx, go, t) == [m];
    ExpandPlain(number.Members());
    assert Looked(ctx, BYTE, number) == [Word("number")];
    assert CheckProjection(ctx, at + "[]", BYTE, number, false, false) == [];
    assert [m][1..] == [];
    assert CheckElements(ctx, at, go, []) == [];
    assert CheckElements(ctx, at, go, [m]) == [];
  }

  lemma ByteFieldReady(w: World, g: GoField, t: TsField)
    requires g == GoField(Slice(BYTE), true) && t == TsField(true, Single(Suffix(Word("number"))))
    requires w.ts.aliases == map[]
    ensures FieldReady(w, g, t)
  {
    var m := Suffix(Word("number"));
    ExpandPlain(t.ty.Members());
    assert Looked(w.Ctx(), g.ty, t.ty) == [m];
    assert m in [m] && Ready(w.Ctx(), BYTE, ArrayElem(m), false);
  }

  lemma OneFieldReady(g: GoField, t: TsField)
    requires FieldReady(OneField(g, t), g, t)
    ensures TableReady(OneField(g, t))
  {
    hide CompareField, FieldReady;
    var w := OneField(g, t);
    assert TsFields("S", w.ts) == Ok(Some(map["a" := t]));
  }

  lemma {:induction false} ExpandPlain(ms: seq<Member>)
    ensures Expand(ms, map[], {}) == ms
    decreases ms
  {
    if ms != [] {
      ExpandPlain(ms[1..]);
      assert ms == [ms[0]] + ms[1..];
    }
  }

  lemma StringNode(ctx: Context, at: string, go: GoType, t: TsType, undefined: bool)
    requires Bare(go) == STRING && t == Single(Word("string")) && ctx.aliases == map[]
    ensures CheckProjection(ctx, at, go, t, undefined, false) == []
  {
    ExpandPlain(t.Members());
    assert Looked(ctx, go, t) == [Word("string")];
  }

  lemma DoublePointerField(ctx: Context, at: string, g: GoField, t: TsField)
    requires g == GoField(Pointer(Pointer(STRING)), true) && t == TsField(true, Single(Word("string")))
    requires ctx.aliases == map[]
    ensures CompareField(ctx, at, g, t) == []
  {
    hide CheckProjection;
    ExpandPlain(t.ty.Members());
    StringNode(ctx, at, g.ty, t.ty, true);
  }

  lemma StringArrayField(ctx: Context, at: string, g: GoField, t: TsField)
    requires g == GoField(Slice(STRING), false) && t == TsField(false, Single(Suffix(Word("string"))))
    requires ctx.aliases == map[]
    ensures CompareField(ctx, at, g, t) == []
  {
    hide CheckProjection;
    ExpandPlain(t.ty.Members());
    StringArrayNode(ctx, at, g.ty, t.ty);
  }

  lemma StringArrayNode(ctx: Context, at: string, go: GoType, t: TsType)
    requires go == Slice(STRING) && t == Single(Suffix(Word("string"))) && ctx.aliases == map[]
    ensures CheckProjection(ctx, at, go, t, false, false) == []
  {
    var m := Suffix(Word("string"));
    ExpandPlain(t.Members());
    assert Looked(ctx, go, t) == [m];
    StringNode(ctx, at + "[]", STRING, Single(Word("string")), false);
    assert [m][1..] == [];
    assert CheckElements(ctx, at, go, []) == [];
    assert CheckElements(ctx, at, go, [m]) == [];
  }
}
