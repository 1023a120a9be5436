/**
 What a clean pair table guarantees about the wire: Go values fit their
 TypeScript types exactly when the declared types are null-ready and hold no
 byte slice.
*/
module WireSound {
  import opened Wrappers
  import opened TsTypes
  import opened WireChecker
  import opened AliasMeaning
  import opened WireMeaning

  /** Whether the encoder can write null for a type standing on its own. */
  predicate MayBeNull(t: GoType) { !t.Named? }

  predicate FieldMayBeNull(g: GoField) {
    if g.omitempty then g.ty.Pointer? && MayBeNull(g.ty.target) else MayBeNull(g.ty)
  }

  /** Every place of `go` that may be written as null has null among the
      expanded members of `ts`; for a collection some array or record member
      must be ready for all its elements. */
  predicate Ready(ctx: Context, go: GoType, ts: TsType, mayBeNull: bool)
    decreases go
  {
    && (mayBeNull ==> NULL in Expanded(ts, ctx.aliases))
    && match Bare(go)
       case Slice(e) =>
         exists m :: m in Looked(ctx, go, ts) && ArrayMember(m) && Ready(ctx, e, ArrayElem(m), MayBeNull(e))
       case Map(v) =>
         exists m :: m in Looked(ctx, go, ts) && m.Record? && Ready(ctx, v, m.value, MayBeNull(v))
       case _ => true
  }

  /** Every name below the type is a scalar, a string type, or a struct whose
      nested mapping is its own pair: nothing opaque, nothing outside the table. */
  predicate Known(w: World, t: GoType) {
    match t
    case Pointer(u) => Known(w, u)
    case Slice(e) => Known(w, e)
    case Map(v) => Known(w, v)
    case Named(_, short) =>
      Projection(t).Some? || short in w.go.stringTypes
      || (short in w.pairs && short in w.nested && w.nested[short] == w.pairs[short])
  }

  ghost predicate Closed(w: World) {
    forall name, n :: name in w.pairs && name in w.go.structs && n in w.go.structs[name] ==>
      Known(w, w.go.structs[name][n].ty)
  }

  ghost predicate TableReady(w: World) {
    forall name, fields, n :: PairAgrees(w, name, fields) && n in fields ==>
      FieldReady(w, w.go.structs[name][n], fields[n])
  }

  predicate FieldReady(w: World, g: GoField, t: TsField) {
    Ready(w.Ctx(), g.ty, t.ty, FieldMayBeNull(g))
  }

  /** No field of a paired struct holds a byte slice anywhere. */
  ghost predicate NoBytes(w: World) {
    forall name, n :: name in w.pairs && name in w.go.structs && n in w.go.structs[name] ==>
      !HasBytes(w.go.structs[name][n].ty)
  }

  /** Every value any field of a paired struct can carry on the wire fits. */
  ghost predicate TableSound(w: World) {
    forall name, fields, n :: PairAgrees(w, name, fields) && n in fields ==>
      FieldSound(w, w.go.structs[name][n], fields[n])
  }

  ghost predicate FieldSound(w: World, g: GoField, t: TsField) {
    forall j :: EmitsField(w.go, g, j) ==> Accepts(Widened, w.ts, t.ty, j)
  }

  // From readiness to soundness

  lemma {:induction false} KnownBare(w: World, t: GoType)
    requires Known(w, t)
    ensures Known(w, Bare(t))
    decreases t
  {
    if t.Pointer? { KnownBare(w, t.target); }
  }

  lemma {:induction false} BytesBare(t: GoType)
    ensures HasBytes(Bare(t)) == HasBytes(t)
    decreases t
  {
    if t.Pointer? { BytesBare(t.target); }
  }

  lemma {:induction false} EmitsBare(go: GoSource, t: GoType, j: Json)
    ensures j != Null ==> (Emits(go, t, j) <==> Emits(go, Bare(t), j))
    decreases t
  {
    if t.Pointer? { EmitsBare(go, t.target, j); }
  }

  lemma {:induction false} StringLikeAccepts(ts: TsSource, m: Member, seen: set<string>, j: Json) returns (n: nat)
    requires ts.Valid() && StringLike(m, ts.aliases, seen) && j.Text?
    ensures MemberAccepts(Widened, ts, m, j, n)
    decreases ts.aliases.Keys - seen
  {
    n := 0;
    if m.Word? && m.name != "string" {
      var body := ts.aliases[m.name].Members();
      assert m.name in ts.aliases.Keys - seen;
      assert StringLike(body[0], ts.aliases, seen + {m.name});
      var k := StringLikeAccepts(ts, body[0], seen + {m.name}, j);
      assert Branches(body) == None;
      assert AcceptsWithin(Widened, ts, body, j, k);
      n := k + 1;
    }
  }

  /** A name that refers to a declared field map admits what the map admits. */
  lemma {:induction false} ReferenceAccepts(rd: Reading, ts: TsSource, name: string, seen: set<string>,
      j: Json) returns (n: nat)
    requires ts.Valid() && rd.Merged()
    requires var r := Reference(name, ts.aliases, seen);
             r.Some? && (r.value in ts.interfaces || UnionFields(ts, r.value).Some?)
             && var fields :=
               if r.value in ts.interfaces then ts.interfaces[r.value] else UnionFields(ts, r.value).value;
             FieldsAccept(rd, ts, fields, j)
    ensures MemberAccepts(rd, ts, Word(name), j, n)
    decreases ts.aliases.Keys - seen
  {
    n := 0;
    if name in ts.aliases {
      assert name !in RESERVED && name !in ts.interfaces;
      match IdentifierTarget(ts.aliases[name])
      case None =>
      case Some(target) =>
        assert name in ts.aliases.Keys - seen;
        var body := ts.aliases[name].Members();
        assert Branches(body) == None;
        var k := ReferenceAccepts(rd, ts, target, seen + {name}, j);
        assert MemberAccepts(rd, ts, body[0], j, k);
        n := k + 1;
    } else {
      assert name !in RESERVED;
    }
  }

  lemma LookedAccepts(rd: Reading, ts: TsSource, t: TsType, m: Member, j: Json, n: nat)
    requires ts.Valid() && MemberAccepts(rd, ts, m, j, n)
    requires m in Expanded(t, ts.aliases) || m in t.Members()
    ensures Accepts(rd, ts, t, j)
  {
    if m in Expanded(t, ts.aliases) {
      var k := ExpandSound(rd, ts, t.Members(), {}, m, j, n);
    } else {
      assert AcceptsWithin(rd, ts, t.Members(), j, n);
    }
  }

  function ElemType(bare: GoType): GoType
    requires Collection(bare)
  {
    if bare.Slice? then bare.elem else bare.value
  }

  /** The member forms a collection may have. */
  predicate Form(bare: GoType, m: Member) { if bare.Slice? then ArrayMember(m) else m.Record? }

  function MemberElem(bare: GoType, m: Member): TsType
    requires Form(bare, m)
  {
    if bare.Slice? then ArrayElem(m) else m.value
  }

  /** A member of the right form whose element type was checked and passed. */
  predicate MemberClean(ctx: Context, at: string, bare: GoType, m: Member)
    requires Collection(bare)
  {
    && Form(bare, m)
    && CheckProjection(ctx, at + if bare.Slice? then "[]" else "{}",
                       ElemType(bare), MemberElem(bare, m), false, ElemType(bare).Pointer?) == []
  }

  lemma {:induction false} ElementsClean(ctx: Context, at: string, bare: GoType, ms: seq<Member>, m: Member)
    requires m in ms
    requires bare.Slice? ==> CheckElements(ctx, at, bare, ms) == []
    requires bare.Map? ==> CheckValues(ctx, at, bare, ms) == []
    ensures Collection(bare) ==> MemberClean(ctx, at, bare, m)
    decreases ms
  {
    hide CheckProjection;
    if m != ms[0] { ElementsClean(ctx, at, bare, ms[1..], m); }
  }

  /** The parts of a clean projection the proofs below use. */
  lemma ProjectionParts(ctx: Context, at: string, go: GoType, ts: TsType, au: bool, rn: bool)
    requires CheckProjection(ctx, at, go, ts, au, rn) == []
    ensures var looked := Looked(ctx, go, ts);
      && looked != [] && Blank !in looked
      && (Bare(go).Slice? ==> CheckElements(ctx, at, Bare(go), looked) == [])
      && (Bare(go).Map? ==> CheckValues(ctx, at, Bare(go), looked) == [])
      && (Bare(go).Named? ==> CheckNamed(ctx, at, Bare(go), looked) == [])
      && (rn ==> NULL in Expanded(ts, ctx.aliases))
  {
    hide CheckElements, CheckValues, CheckNamed, Expanded;
  }

  lemma ListAccepts(ts: TsSource, t: TsType, m: Member, j: Json)
    requires ts.Valid() && m in Expanded(t, ts.aliases) && ArrayMember(m) && j.List?
    requires forall i :: 0 <= i < |j.items| ==> Accepts(Widened, ts, ArrayElem(m), j.items[i])
    ensures Accepts(Widened, ts, t, j)
  {
    assert MemberAccepts(Widened, ts, m, j, 0);
    LookedAccepts(Widened, ts, t, m, j, 0);
  }

  lemma DictAccepts(ts: TsSource, t: TsType, m: Member, j: Json)
    requires ts.Valid() && m in Expanded(t, ts.aliases) && m.Record? && j.Dict?
    requires forall k :: k in j.fields ==> Accepts(Widened, ts, m.value, j.fields[k])
    ensures Accepts(Widened, ts, t, j)
  {
    assert MemberAccepts(Widened, ts, m, j, 0);
    LookedAccepts(Widened, ts, t, m, j, 0);
  }

  /** A scalar value fits any member list its Go type passes. */
  lemma ScalarAccepts(w: World, at: string, bare: GoType, t: TsType, ms: seq<Member>, j: Json)
    requires w.ts.Valid() && bare.Named? && Scalar(w.Ctx(), bare) && ms != []
    requires forall m :: m in ms ==> m in Expanded(t, w.ts.aliases)
    requires CheckNamed(w.Ctx(), at, bare, ms) == [] && Emits(w.go, bare, j)
    ensures Accepts(Widened, w.ts, t, j)
  {
    hide Expanded;
    var m := ms[0];
    var n := 0;
    if j.Text? {
      assert StringLike(m, w.ts.aliases, {});
      n := StringLikeAccepts(w.ts, m, {}, j);
    } else {
      assert if j.Number? then NumberLike(m) else BooleanLike(m);
      assert MemberAccepts(Widened, w.ts, m, j, 0);
    }
    LookedAccepts(Widened, w.ts, t, m, j, n);
  }

  lemma StructWritten(w: World, bare: GoType, j: Json)
    requires bare.Named? && !Scalar(w.Ctx(), bare) && bare.short in w.go.structs && Emits(w.go, bare, j)
    ensures EmitsStruct(w.go, w.go.structs[bare.short], j)
  {
  }

  /** The heart of soundness, by induction on the JSON value and the Go type. */
  lemma {:induction false} NodeSound(w: World, at: string, go: GoType, t: TsType, au: bool, rn: bool, mayBeNull: bool,
      j: Json)
    requires w.ts.Valid() && Clean(w) && Closed(w) && TableReady(w) && NoBytes(w)
    requires CheckProjection(w.Ctx(), at, go, t, au, rn) == [] && !HasBytes(go)
    requires Known(w, go) && Ready(w.Ctx(), go, t, mayBeNull)
    requires if j == Null then mayBeNull else Emits(w.go, go, j)
    ensures Accepts(Widened, w.ts, t, j)
    decreases j, go
  {
    hide CheckProjection, CheckElements, CheckValues, CheckNamed, Expanded, TsFields, CompareField, GoScalar,
         Projection;
    var ctx, bare := w.Ctx(), Bare(go);
    ProjectionParts(ctx, at, go, t, au, rn);
    var looked := Looked(ctx, go, t);
    if j == Null {
      assert MemberAccepts(Widened, w.ts, NULL, j, 0);
      LookedAccepts(Widened, w.ts, t, NULL, j, 0);
      return;
    }
    EmitsBare(w.go, go, j);
    KnownBare(w, go);
    BytesBare(go);
    match bare
    case Slice(e) =>
      var m :| m in looked && ArrayMember(m) && Ready(ctx, e, ArrayElem(m), MayBeNull(e));
      ElementsClean(ctx, at, bare, looked, m);
      forall i | 0 <= i < |j.items| ensures Accepts(Widened, w.ts, ArrayElem(m), j.items[i]) {
        NullOnlyIfAllowed(w, e, j.items[i]);
        NodeSound(w, at + "[]", e, ArrayElem(m), false, e.Pointer?, MayBeNull(e), j.items[i]);
      }
      ListAccepts(w.ts, t, m, j);
    case Map(v) =>
      var m :| m in looked && m.Record? && Ready(ctx, v, m.value, MayBeNull(v));
      ElementsClean(ctx, at, bare, looked, m);
      forall k | k in j.fields ensures Accepts(Widened, w.ts, m.value, j.fields[k]) {
        NullOnlyIfAllowed(w, v, j.fields[k]);
        NodeSound(w, at + "{}", v, m.value, false, v.Pointer?, MayBeNull(v), j.fields[k]);
      }
      DictAccepts(w.ts, t, m, j);
    case Named(_, short) =>
      if Scalar(ctx, bare) {
        ScalarAccepts(w, at, bare, t, looked, j);
      } else {
        var fields := CleanPair(w, short);
        StructWritten(w, bare, j);
        forall k | k in fields && k in j.fields ensures Accepts(Widened, w.ts, fields[k].ty, j.fields[k]) {
          var g := w.go.structs[short][k];
          FieldEmission(w, g, j.fields[k]);
          var at' := short + "->" + w.pairs[short] + "." + k;
          FieldParts(ctx, at', g, fields[k]);
          NodeSound(w, at', g.ty, fields[k].ty, g.omitempty && fields[k].optional,
                    g.ty.Pointer? && !g.omitempty, FieldMayBeNull(g), j.fields[k]);
        }
        StructNode(w, at, bare, looked, fields, j);
        StructAccepts(w, short, t, looked[0], fields, j);
      }
  }

  lemma NullOnlyIfAllowed(w: World, t: GoType, j: Json)
    requires Clean(w) && Known(w, t) && Emits(w.go, t, j)
    ensures j == Null ==> MayBeNull(t)
  {
    hide Clean;
    if j == Null && t.Named? && GoScalar(t) == None && t.short !in w.go.stringTypes {
      var fields := CleanPair(w, t.short);
    }
  }

  /** What a field writes is null only where it may be, and otherwise a value of
      its type. */
  lemma FieldEmission(w: World, g: GoField, j: Json)
    requires Clean(w) && Known(w, g.ty) && EmitsField(w.go, g, j)
    ensures if j == Null then FieldMayBeNull(g) else Emits(w.go, g.ty, j)
  {
    hide Clean;
    var t := if g.omitempty && g.ty.Pointer? then g.ty.target else g.ty;
    NullOnlyIfAllowed(w, t, j);
  }

  lemma FieldParts(ctx: Context, at: string, g: GoField, t: TsField)
    requires CompareField(ctx, at, g, t) == []
    ensures g.omitempty <==> t.optional
    ensures CheckProjection(ctx, at, g.ty, t.ty, g.omitempty && t.optional, g.ty.Pointer? && !g.omitempty) == []
  {
    hide CheckProjection, Expanded;
  }

  /** Agreement settles presence, so admitted values make an admitted object. */
  lemma AgreedFieldsAccept(w: World, name: string, fields: FieldMap, j: Json)
    requires PairAgrees(w, name, fields) && EmitsStruct(w.go, w.go.structs[name], j)
    requires forall k :: k in fields && k in j.fields ==> Accepts(Widened, w.ts, fields[k].ty, j.fields[k])
    ensures FieldsAccept(Widened, w.ts, fields, j)
  {
    hide CompareField, TsFields;
    var s := w.go.structs[name];
    forall k | k in fields && k !in j.fields ensures fields[k].optional {
      FieldParts(w.Ctx(), name + "->" + w.pairs[name] + "." + k, s[k], fields[k]);
    }
  }

  /** A name resolving to the pair's target admits what the pair's fields do. */
  lemma TargetAccepts(rd: Reading, w: World, name: string, fields: FieldMap, m: string, j: Json) returns (n: nat)
    requires w.ts.Valid() && rd.Merged() && PairAgrees(w, name, fields) && FieldsAccept(rd, w.ts, fields, j)
    requires Reference(m, w.ts.aliases, {}) == Reference(w.pairs[name], w.ts.aliases, {})
    ensures MemberAccepts(rd, w.ts, Word(m), j, n)
  {
    hide CompareField;
    n := ReferenceAccepts(rd, w.ts, m, {}, j);
  }

  lemma StructNode(w: World, at: string, bare: GoType, looked: seq<Member>, fields: FieldMap, j: Json)
    requires bare.Named? && !Scalar(w.Ctx(), bare) && Known(w, bare) && PairAgrees(w, bare.short, fields)
    requires CheckNamed(w.Ctx(), at, bare, looked) == [] && Emits(w.go, bare, j)
    ensures EmitsStruct(w.go, w.go.structs[bare.short], j)
    ensures Refers(w.Ctx(), w.pairs[bare.short], looked)
  {
    hide CompareField, TsFields, Refers;
  }

  lemma StructAccepts(w: World, name: string, t: TsType, m: Member, fields: FieldMap, j: Json)
    requires w.ts.Valid() && PairAgrees(w, name, fields) && EmitsStruct(w.go, w.go.structs[name], j)
    requires m in t.Members() && Refers(w.Ctx(), w.pairs[name], [m])
    requires forall k :: k in fields && k in j.fields ==> Accepts(Widened, w.ts, fields[k].ty, j.fields[k])
    ensures Accepts(Widened, w.ts, t, j)
  {
    hide PairAgrees, Reference, FieldsAccept, EmitsStruct, Accepts;
    AgreedFieldsAccept(w, name, fields, j);
    assert m in [m];
    var n := TargetAccepts(Widened, w, name, fields, m.name, j);
    LookedAccepts(Widened, w.ts, t, m, j, n);
  }

  // From soundness to readiness

  /** A collection value a type admits, some looked-at member admits. */
  lemma LookedMember(w: World, go: GoType, t: TsType, j: Json) returns (m: Member)
    requires w.ts.Valid() && Collection(Bare(go)) && j != Null && Accepts(Widened, w.ts, t, j)
    ensures m in Looked(w.Ctx(), go, t) && (m.Object? || MemberAccepts(Widened, w.ts, m, j, 0))
  {
    var n: nat :| AcceptsWithin(Widened, w.ts, t.Members(), j, n);
    m := ExpandComplete(Widened, w.ts, t.Members(), {}, j, n);
    assert m != NULL && m != UNDEFINED;
  }

  /** A type that fits every non-null, nonempty value its Go type writes, and
      null where that may be written, is ready. */
  lemma {:induction false} NodeReady(w: World, at: string, go: GoType, t: TsType, au: bool, rn: bool, mayBeNull: bool)
    requires w.ts.Valid() && CheckProjection(w.Ctx(), at, go, t, au, rn) == []
    requires mayBeNull ==> Accepts(Widened, w.ts, t, Null)
    requires forall j :: Solid(j) && Emits(w.go, Bare(go), j) ==> Accepts(Widened, w.ts, t, j)
    ensures Ready(w.Ctx(), go, t, mayBeNull) && !HasBytes(go)
    decreases go, 1
  {
    hide CheckProjection, CheckElements, CheckValues, CheckNamed, Expanded;
    var ctx, bare := w.Ctx(), Bare(go);
    ProjectionParts(ctx, at, go, t, au, rn);
    var looked := Looked(ctx, go, t);
    if mayBeNull { NullMeaning(Widened, w.ts, t); }
    BytesBare(go);
    if bare == Slice(BYTE) {
      var j := BytesRejected(w, at, go, t, looked);
      assert false;
    } else if Collection(bare) && !(Ready(ctx, go, t, mayBeNull) && !HasBytes(bare)) {
      forall m | m in looked ensures MemberClean(w.Ctx(), at, bare, m) && !MemberReady(w, bare, m) {
        ElementsClean(ctx, at, bare, looked, m);
      }
      var vs := Rejected(w, at, bare, looked);
      var j := Pack(bare, vs);
      PackEmits(w.go, bare, vs);
      assert Accepts(Widened, w.ts, t, j);
      var m := LookedMember(w, go, t, j);
      assert MemberClean(w.Ctx(), at, bare, m);
      assert MemberAccepts(Widened, w.ts, m, j, 0);
      var v :| v in vs && !Accepts(Widened, w.ts, MemberElem(bare, m), v);
      PackHolds(bare, vs, v);
      assert false;
    }
  }

  predicate MemberReady(w: World, bare: GoType, m: Member)
    requires Collection(bare)
  {
    && Form(bare, m)
    && Ready(w.Ctx(), ElemType(bare), MemberElem(bare, m), MayBeNull(ElemType(bare))) && !HasBytes(ElemType(bare))
  }

  /** The text of a byte slice fits no array type. */
  lemma BytesRejected(w: World, at: string, go: GoType, t: TsType, looked: seq<Member>) returns (j: Json)
    requires w.ts.Valid() && Bare(go) == Slice(BYTE) && looked == Looked(w.Ctx(), go, t)
    requires CheckElements(w.Ctx(), at, Bare(go), looked) == []
    ensures Solid(j) && Emits(w.go, Bare(go), j) && !Accepts(Widened, w.ts, t, j)
  {
    hide CheckElements, Expanded, Accepts, Looked, CheckProjection;
    j := Text("AA==");
    if Accepts(Widened, w.ts, t, j) {
      var m := LookedMember(w, go, t, j);
      ElementsClean(w.Ctx(), at, Bare(go), looked, m);
    }
  }

  /** One writable element value for each member that member does not admit. */
  lemma {:induction false} Rejected(w: World, at: string, bare: GoType, ms: seq<Member>) returns (vs: seq<Json>)
    requires w.ts.Valid() && Collection(bare)
    requires forall m :: m in ms ==> Form(bare, m) && MemberClean(w.Ctx(), at, bare, m) && !MemberReady(w, bare, m)
    ensures |vs| == |ms|
    ensures forall v :: v in vs ==> Emits(w.go, ElemType(bare), v)
    ensures forall m :: m in ms ==> exists v :: v in vs && !Accepts(Widened, w.ts, MemberElem(bare, m), v)
    decreases ElemType(bare), 2, |ms|
  {
    hide CheckProjection, Ready;
    vs := [];
    if ms != [] {
      var m, e := ms[0], ElemType(bare);
      var elem, at' := MemberElem(bare, m), at + if bare.Slice? then "[]" else "{}";
      assert CheckProjection(w.Ctx(), at', e, elem, false, e.Pointer?) == [];
      var v: Json;
      if MayBeNull(e) && !Accepts(Widened, w.ts, elem, Null) {
        v := Null;
      } else if exists j :: Solid(j) && Emits(w.go, Bare(e), j) && !Accepts(Widened, w.ts, elem, j) {
        v :| Solid(v) && Emits(w.go, Bare(e), v) && !Accepts(Widened, w.ts, elem, v);
        EmitsBare(w.go, e, v);
      } else {
        NodeReady(w, at', e, elem, false, e.Pointer?, MayBeNull(e));
        assert false;
      }
      var rest := Rejected(w, at, bare, ms[1..]);
      vs := [v] + rest;
      forall x | x in ms ensures exists v :: v in vs && !Accepts(Widened, w.ts, MemberElem(bare, x), v) {
        if x == m {
          assert v in vs;
        } else {
          assert x in ms[1..];
          var y :| y in rest && !Accepts(Widened, w.ts, MemberElem(bare, x), y);
          assert y in vs;
        }
      }
    }
  }

  function Keys(n: nat): string { seq(n, _ => 'k') }

  /** The values as a list, or as a dictionary under distinct keys. */
  function Pack(bare: GoType, vs: seq<Json>): Json
    requires Collection(bare)
  {
    if bare.Slice? then List(vs)
    else Dict(map k | k in (set i | 0 <= i < |vs| :: Keys(i)) && |k| < |vs| :: vs[|k|])
  }

  lemma PackEmits(go: GoSource, bare: GoType, vs: seq<Json>)
    requires Collection(bare) && bare != Slice(BYTE) && vs != []
    requires forall v :: v in vs ==> Emits(go, ElemType(bare), v)
    ensures Solid(Pack(bare, vs)) && Emits(go, bare, Pack(bare, vs))
  {
    if bare.Map? {
      PackHolds(bare, vs, vs[0]);
    } else {
      forall i | 0 <= i < |vs| ensures Emits(go, bare.elem, vs[i]) { assert vs[i] in vs; }
    }
  }

  lemma PackHolds(bare: GoType, vs: seq<Json>, v: Json)
    requires Collection(bare) && v in vs
    ensures var j := Pack(bare, vs);
            if bare.Slice? then v in j.items else exists k :: k in j.fields && j.fields[k] == v
  {
    if bare.Map? {
      var i :| 0 <= i < |vs| && vs[i] == v;
      assert |Keys(i)| == i && Keys(i) in Pack(bare, vs).fields;
    }
  }

  // Main results

  /** For a clean, closed table: everything the Go side can write is admitted by
      the TypeScript side, at every depth, exactly when the table is null-ready and
      no field holds a byte slice. */
  lemma {:induction false} WireSoundIffReady(w: World)
    requires w.ts.Valid() && Clean(w) && Closed(w)
    ensures TableSound(w) <==> TableReady(w) && NoBytes(w)
  {
    hide Ready, CheckProjection, CompareField, TsFields, Clean;
    forall name, fields, n | PairAgrees(w, name, fields) && n in fields
      ensures TableReady(w) && NoBytes(w) ==> FieldSound(w, w.go.structs[name][n], fields[n])
      ensures TableSound(w) ==>
        FieldReady(w, w.go.structs[name][n], fields[n]) && !HasBytes(w.go.structs[name][n].ty)
    {
      var g, t, at := w.go.structs[name][n], fields[n], name + "->" + w.pairs[name] + "." + n;
      FieldParts(w.Ctx(), at, g, t);
      if TableReady(w) && NoBytes(w) {
        assert FieldReady(w, g, t) && !HasBytes(g.ty);
        forall j | EmitsField(w.go, g, j) ensures Accepts(Widened, w.ts, t.ty, j) {
          FieldEmission(w, g, j);
          NodeSound(w, at, g.ty, t.ty, g.omitempty && t.optional, g.ty.Pointer? && !g.omitempty, FieldMayBeNull(g), j);
        }
      }
      if TableSound(w) {
        assert FieldSound(w, g, t);
        FieldReach(w.go, g);
        NodeReady(w, at, g.ty, t.ty, g.omitempty && t.optional, g.ty.Pointer? && !g.omitempty, FieldMayBeNull(g));
      }
    }
    if TableSound(w) {
      forall name, n | name in w.pairs && name in w.go.structs && n in w.go.structs[name]
        ensures !HasBytes(w.go.structs[name][n].ty)
      {
        var fields := CleanPair(w, name);
      }
    }
  }

  /** A field writes null if it may, and every solid value of its type. */
  lemma FieldReach(go: GoSource, g: GoField)
    ensures FieldMayBeNull(g) ==> EmitsField(go, g, Null)
    ensures forall j :: Solid(j) && Emits(go, Bare(g.ty), j) ==> EmitsField(go, g, j)
  {
    forall j | Solid(j) && Emits(go, Bare(g.ty), j) ensures EmitsField(go, g, j) {
      EmitsBare(go, g.ty, j);
      if g.ty.Pointer? { EmitsBare(go, g.ty.target, j); }
    }
  }

  /** Every object a paired struct marshals to is admitted by the TypeScript name
      it is paired with. */
  lemma StructOnTheWire(w: World, name: string, j: Json)
    requires w.ts.Valid() && Clean(w) && Closed(w) && TableReady(w) && NoBytes(w)
    requires name in w.pairs && name in w.go.structs && EmitsStruct(w.go, w.go.structs[name], j)
    ensures Accepts(Widened, w.ts, Single(Word(w.pairs[name])), j)
  {
    hide CompareField, CheckProjection, Ready;
    var fields := CleanPair(w, name);
    WireSoundIffReady(w);
    var s := w.go.structs[name];
    forall k | k in fields && k in j.fields ensures Accepts(Widened, w.ts, fields[k].ty, j.fields[k]) {
      assert FieldSound(w, s[k], fields[k]);
    }
    AgreedFieldsAccept(w, name, fields, j);
    var n := TargetAccepts(Widened, w, name, fields, w.pairs[name], j);
    var ms := Single(Word(w.pairs[name])).Members();
    assert ms[0] == Word(w.pairs[name]);
    assert AcceptsWithin(Widened, w.ts, ms, j, n);
  }
}
