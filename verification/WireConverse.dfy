/**
 The other direction of the wire contract: a TypeScript type that passes admits
 nothing but what its Go type can write, up to the integrality of numbers and
 the empty values `omitempty` leaves out.
*/
module WireConverse {
  import opened Wrappers
  import opened TsTypes
  import opened WireChecker
  import opened AliasMeaning
  import opened WireMeaning
  import opened WireSound

  /** `Emits` with any number for an integer type and any value of its type for
      an `omitempty` field. */
  ghost predicate Loose(go: GoSource, t: GoType, j: Json)
    decreases j, 1, t
  {
    match t
    case Pointer(u) => j == Null || Loose(go, u, j)
    case Slice(e) =>
      || j == Null
      || if e == BYTE then j.Text? && Base64(j.s)
         else j.List? && forall i :: 0 <= i < |j.items| ==> Loose(go, e, j.items[i])
    case Map(v) => j == Null || (j.Dict? && forall k :: k in j.fields ==> Loose(go, v, j.fields[k]))
    case Named(_, short) =>
      match GoScalar(t)
      case Some(AsText) => j.Text?
      case Some(AsNumber) => j.Number?
      case Some(AsInteger) => j.Number?
      case Some(AsBoolean) => j.Boolean?
      case None =>
        if short in go.stringTypes then j.Text?
        else if short in go.structs then LooseStruct(go, go.structs[short], j)
        else true
  }

  ghost predicate LooseStruct(go: GoSource, s: GoStruct, j: Json)
    decreases j, 0
  {
    && j.Dict?
    && j.fields.Keys <= s.Keys
    && forall k :: k in s ==> if k in j.fields then Loose(go, s[k].ty, j.fields[k]) else s[k].omitempty
  }

  /** What Go writes is loosely what Go writes. */
  lemma {:induction false} EmitsLoosely(go: GoSource, t: GoType, j: Json)
    requires Emits(go, t, j)
    ensures Loose(go, t, j)
    decreases j, 1, t
  {
    match t
    case Pointer(u) =>
      if j != Null { EmitsLoosely(go, u, j); }
    case Slice(e) =>
      if e != BYTE && j.List? {
        forall i | 0 <= i < |j.items| ensures Loose(go, e, j.items[i]) { EmitsLoosely(go, e, j.items[i]); }
      }
    case Map(v) =>
      if j.Dict? {
        forall k | k in j.fields ensures Loose(go, v, j.fields[k]) { EmitsLoosely(go, v, j.fields[k]); }
      }
    case Named(_, short) =>
      if GoScalar(t) == None && short !in go.stringTypes && short in go.structs {
        StructLoosely(go, go.structs[short], j);
      }
  }

  lemma {:induction false} StructLoosely(go: GoSource, s: GoStruct, j: Json)
    requires EmitsStruct(go, s, j)
    ensures LooseStruct(go, s, j)
    decreases j, 0
  {
    forall k | k in s && k in j.fields ensures Loose(go, s[k].ty, j.fields[k]) {
      var v := j.fields[k];
      assert EmitsField(go, s[k], v);
      if s[k].omitempty && s[k].ty.Pointer? {
        EmitsLoosely(go, s[k].ty.target, v);
      } else {
        EmitsLoosely(go, s[k].ty, v);
      }
    }
  }

  lemma {:induction false} LooseBare(go: GoSource, t: GoType, j: Json)
    ensures if j == Null then (t.Pointer? || Collection(Bare(t)) ==> Loose(go, t, j))
            else (Loose(go, t, j) <==> Loose(go, Bare(t), j))
    decreases t
  {
    if t.Pointer? { LooseBare(go, t.target, j); }
  }

  // Which member admits a value

  lemma {:induction false} ReferenceAdmits(rd: Reading, ts: TsSource, name: string, seen: set<string>, j: Json, n: nat)
    requires ts.Valid() && rd.Merged() && MemberAccepts(rd, ts, Word(name), j, n) && name !in RESERVED
    requires var r := Reference(name, ts.aliases, seen);
             r.Some? && (r.value in ts.interfaces || UnionFields(ts, r.value).Some?)
    ensures var r := Reference(name, ts.aliases, seen).value;
            FieldsAccept(rd, ts, if r in ts.interfaces then ts.interfaces[r] else UnionFields(ts, r).value, j)
    decreases n
  {
    if name in ts.aliases {
      assert name !in ts.interfaces;
      var body := ts.aliases[name].Members();
      match IdentifierTarget(ts.aliases[name])
      case None =>
      case Some(target) =>
        assert Branches(body) == None && body == [Word(target)];
        assert MemberAccepts(rd, ts, Word(target), j, n - 1);
        ReservedEnds(ts, target, seen + {name});
        ReferenceAdmits(rd, ts, target, seen + {name}, j, n - 1);
    }
  }

  lemma ReservedEnds(ts: TsSource, name: string, seen: set<string>)
    requires ts.Valid()
    requires var r := Reference(name, ts.aliases, seen);
             r.Some? && (r.value in ts.interfaces || UnionFields(ts, r.value).Some?)
    ensures name !in RESERVED
  {
  }

  /** What a pair target's fields are, by either route to it. */
  lemma TargetFields(w: World, name: string, fields: FieldMap)
    requires PairAgrees(w, name, fields)
    ensures var r := Reference(w.pairs[name], w.ts.aliases, {});
      r.Some? && (r.value in w.ts.interfaces || UnionFields(w.ts, r.value).Some?)
      && fields == if r.value in w.ts.interfaces then w.ts.interfaces[r.value] else UnionFields(w.ts, r.value).value
  {
    hide CompareField;
  }

  lemma ReferringMemberAdmits(rd: Reading, w: World, name: string, fields: FieldMap, m: Member, j: Json, n: nat)
    requires w.ts.Valid() && PairAgrees(w, name, fields) && Refers(w.Ctx(), w.pairs[name], [m])
    requires rd.Merged() && MemberAccepts(rd, w.ts, m, j, n)
    ensures FieldsAccept(rd, w.ts, fields, j)
  {
    hide CompareField, TsFields, PairAgrees;
    assert m in [m];
    TargetFields(w, name, fields);
    ReservedEnds(w.ts, m.name, {});
    ReferenceAdmits(rd, w.ts, m.name, {}, j, n);
  }

  lemma AdmittingMember(rd: Reading, ts: TsSource, t: TsType, j: Json) returns (m: Member, n: nat)
    requires Accepts(rd, ts, t, j) && j != Null
    ensures m in t.Members() && MemberAccepts(rd, ts, m, j, n) && m != NULL && m != UNDEFINED
  {
    n :| AcceptsWithin(rd, ts, t.Members(), j, n);
    var i :| 0 <= i < |t.Members()| && MemberAccepts(rd, ts, t.Members()[i], j, n);
    m := t.Members()[i];
  }

  /** Each non-null member of a struct-typed field names the pair's target. */
  lemma StructRefers(w: World, at: string, go: GoType, t: TsType, au: bool, rn: bool, m: Member)
    requires CheckProjection(w.Ctx(), at, go, t, au, rn) == []
    requires Bare(go).Named? && !Scalar(w.Ctx(), Bare(go)) && Known(w, Bare(go))
    requires m in t.Members() && m != NULL && m != UNDEFINED
    ensures Refers(w.Ctx(), w.pairs[Bare(go).short], [m])
  {
    hide CheckProjection, Expanded, Reference;
    ProjectionParts(w.Ctx(), at, go, t, au, rn);
    assert m in Looked(w.Ctx(), go, t);
  }

  lemma MapMembersAreRecords(ctx: Context, at: string, go: GoType, t: TsType, au: bool, rn: bool, m: Member)
    requires CheckProjection(ctx, at, go, t, au, rn) == [] && Bare(go).Map?
    requires m in Expanded(t, ctx.aliases) && m != NULL && m != UNDEFINED
    ensures m.Record?
  {
    hide CheckProjection, CheckValues, CheckNamed, Expanded;
    ProjectionParts(ctx, at, go, t, au, rn);
    ElementsClean(ctx, at, Bare(go), Looked(ctx, go, t), m);
  }

  /** The node rule for null: TypeScript has it only where Go may write it. */
  lemma NullChecked(ctx: Context, at: string, go: GoType, t: TsType, au: bool, rn: bool)
    requires CheckProjection(ctx, at, go, t, au, rn) == [] && NULL in Expanded(t, ctx.aliases)
    ensures go.Pointer? || Collection(Bare(go))
  {
    hide CheckElements, CheckValues, CheckNamed, Expanded;
  }

  /** A non-null value of a node that is no struct comes through a checked member. */
  lemma LookedAdmits(w: World, at: string, go: GoType, t: TsType, au: bool, rn: bool, j: Json) returns (m: Member)
    requires w.ts.Valid() && CheckProjection(w.Ctx(), at, go, t, au, rn) == []
    requires Scalar(w.Ctx(), Bare(go)) || Collection(Bare(go))
    requires j != Null && Accepts(Widened, w.ts, t, j)
    ensures m in Looked(w.Ctx(), go, t)
    ensures m.Object? || (!Expands(w.ts, m) && MemberAccepts(Widened, w.ts, m, j, 0))
  {
    hide CheckProjection;
    var n: nat :| AcceptsWithin(Widened, w.ts, t.Members(), j, n);
    m := ExpandComplete(Widened, w.ts, t.Members(), {}, j, n);
  }

  /** A scalar's members admit values of its kind only. */
  lemma ScalarMember(w: World, at: string, bare: GoType, ms: seq<Member>, m: Member, j: Json)
    requires w.ts.Valid() && Scalar(w.Ctx(), bare) && CheckNamed(w.Ctx(), at, bare, ms) == [] && m in ms
    requires m.Object? || (!Expands(w.ts, m) && MemberAccepts(Widened, w.ts, m, j, 0))
    ensures Loose(w.go, bare, j)
  {
  }

  // Nodes

  /** Whatever a checked type admits, its Go type writes, loosely. */
  lemma {:induction false} NodeConverse(w: World, at: string, go: GoType, t: TsType, au: bool, rn: bool, j: Json)
    requires w.ts.Valid() && Clean(w) && Closed(w) && NoBytes(w) && Known(w, go) && !HasBytes(go)
    requires CheckProjection(w.Ctx(), at, go, t, au, rn) == [] && Accepts(Widened, w.ts, t, j)
    ensures Loose(w.go, go, j)
    decreases j, 2
  {
    hide CheckProjection, Accepts, Expanded, Loose, Clean, Closed, CheckNamed, CheckElements, CheckValues,
         MemberAccepts;
    var bare := Bare(go);
    LooseBare(w.go, go, j);
    KnownBare(w, go);
    BytesBare(go);
    if j == Null {
      NullMeaning(Widened, w.ts, t);
      NullChecked(w.Ctx(), at, go, t, au, rn);
    } else if Collection(bare) {
      CollectionConverse(w, at, go, t, au, rn, j);
    } else if Scalar(w.Ctx(), bare) {
      var m := LookedAdmits(w, at, go, t, au, rn, j);
      ProjectionParts(w.Ctx(), at, go, t, au, rn);
      ScalarMember(w, at, bare, Looked(w.Ctx(), go, t), m, j);
    } else {
      var fields := CleanPair(w, bare.short);
      var m, n := AdmittingMember(Widened, w.ts, t, j);
      StructRefers(w, at, go, t, au, rn, m);
      ReferringMemberAdmits(Widened, w, bare.short, fields, m, j, n);
      StructConverse(w, bare.short, fields, j);
      NamedStruct(w, bare, j);
    }
  }

  lemma NamedStruct(w: World, bare: GoType, j: Json)
    requires bare.Named? && !Scalar(w.Ctx(), bare) && bare.short in w.go.structs
    requires LooseStruct(w.go, w.go.structs[bare.short], j)
    ensures Loose(w.go, bare, j)
  {
  }

  lemma {:induction false} CollectionConverse(w: World, at: string, go: GoType, t: TsType, au: bool, rn: bool, j: Json)
    requires w.ts.Valid() && Clean(w) && Closed(w) && NoBytes(w) && Known(w, go) && !HasBytes(Bare(go))
    requires Collection(Bare(go)) && j != Null
    requires CheckProjection(w.Ctx(), at, go, t, au, rn) == [] && Accepts(Widened, w.ts, t, j)
    ensures Loose(w.go, Bare(go), j)
    decreases j, 1
  {
    hide CheckProjection, Accepts, Expanded, Clean, Closed, CheckNamed, CheckElements, CheckValues;
    var bare := Bare(go);
    KnownBare(w, go);
    var m := LookedAdmits(w, at, go, t, au, rn, j);
    ProjectionParts(w.Ctx(), at, go, t, au, rn);
    ElementsClean(w.Ctx(), at, bare, Looked(w.Ctx(), go, t), m);
    var e, u := ElemType(bare), MemberElem(bare, m);
    if bare.Slice? {
      forall i | 0 <= i < |j.items| ensures Loose(w.go, e, j.items[i]) {
        NodeConverse(w, at + "[]", e, u, false, e.Pointer?, j.items[i]);
      }
    } else {
      forall k | k in j.fields ensures Loose(w.go, e, j.fields[k]) {
        NodeConverse(w, at + "{}", e, u, false, e.Pointer?, j.fields[k]);
      }
    }
  }

  // Main results

  /** Every object the interface of a pair admits is, loosely, one its Go struct
      writes: no extra field, no field missing that Go always writes, no value of
      another kind, no null Go cannot write, at any depth. */
  lemma {:induction false} StructConverse(w: World, name: string, fields: FieldMap, j: Json)
    requires w.ts.Valid() && Clean(w) && Closed(w) && NoBytes(w) && PairAgrees(w, name, fields)
    requires FieldsAccept(Widened, w.ts, fields, j)
    ensures LooseStruct(w.go, w.go.structs[name], j)
    decreases j, 0
  {
    hide CheckProjection, Accepts, Clean, TsFields, CompareField, Loose, HasBytes;
    var s := w.go.structs[name];
    forall k | k in s ensures if k in j.fields then Loose(w.go, s[k].ty, j.fields[k]) else s[k].omitempty {
      var at := name + "->" + w.pairs[name] + "." + k;
      FieldParts(w.Ctx(), at, s[k], fields[k]);
      if k in j.fields {
        NodeConverse(w, at, s[k].ty, fields[k].ty, s[k].omitempty && fields[k].optional,
                     s[k].ty.Pointer? && !s[k].omitempty, j.fields[k]);
      }
    }
  }

  /** Every value any field's TypeScript type admits is one its Go type writes,
      loosely. */
  ghost predicate TableConverse(w: World) {
    forall name, fields, n :: PairAgrees(w, name, fields) && n in fields ==>
      FieldConverse(w, w.go.structs[name][n], fields[n])
  }

  ghost predicate FieldConverse(w: World, g: GoField, t: TsField) {
    forall j :: Accepts(Widened, w.ts, t.ty, j) ==> Loose(w.go, g.ty, j)
  }

  /** Below a byte slice sits a list: a checked type admits one Go never writes. */
  lemma {:induction false} BytesAdmitLists(w: World, at: string, go: GoType, t: TsType, au: bool,
      rn: bool) returns (j: Json)
    requires w.ts.Valid() && CheckProjection(w.Ctx(), at, go, t, au, rn) == [] && HasBytes(go)
    ensures j != Null && Accepts(Widened, w.ts, t, j) && !Loose(w.go, Bare(go), j)
    decreases go
  {
    hide CheckProjection, CheckElements, CheckValues, CheckNamed, Expanded, Accepts;
    var bare, looked := Bare(go), Looked(w.Ctx(), go, t);
    BytesBare(go);
    ProjectionParts(w.Ctx(), at, go, t, au, rn);
    var m := looked[0];
    ElementsClean(w.Ctx(), at, bare, looked, m);
    var e, u := ElemType(bare), MemberElem(bare, m);
    if bare == Slice(BYTE) {
      j := List([]);
    } else {
      var v := BytesAdmitLists(w, at + if bare.Slice? then "[]" else "{}", e, u, false, e.Pointer?);
      LooseBare(w.go, e, v);
      assert !Loose(w.go, e, v);
      j := if bare.Slice? then List([v]) else Dict(map["k" := v]);
      if bare.Slice? { assert j.items[0] == v; } else { assert "k" in j.fields && j.fields["k"] == v; }
    }
    assert MemberAccepts(Widened, w.ts, m, j, 0);
    LookedAccepts(Widened, w.ts, t, m, j, 0);
  }

  /** For a clean, closed table the converse holds exactly without byte slices. */
  lemma {:induction false} WireConverseIffNoBytes(w: World)
    requires w.ts.Valid() && Clean(w) && Closed(w)
    ensures TableConverse(w) <==> NoBytes(w)
  {
    hide CheckProjection, CompareField, TsFields, Clean, Loose, Accepts, HasBytes;
    forall name, fields, n | PairAgrees(w, name, fields) && n in fields
      ensures NoBytes(w) ==> FieldConverse(w, w.go.structs[name][n], fields[n])
      ensures HasBytes(w.go.structs[name][n].ty) ==> !FieldConverse(w, w.go.structs[name][n], fields[n])
    {
      var g, t, at := w.go.structs[name][n], fields[n], name + "->" + w.pairs[name] + "." + n;
      FieldParts(w.Ctx(), at, g, t);
      var au, rn := g.omitempty && t.optional, g.ty.Pointer? && !g.omitempty;
      if NoBytes(w) {
        forall j | Accepts(Widened, w.ts, t.ty, j) ensures Loose(w.go, g.ty, j) {
          NodeConverse(w, at, g.ty, t.ty, au, rn, j);
        }
      }
      if HasBytes(g.ty) {
        var j := BytesAdmitLists(w, at, g.ty, t.ty, au, rn);
        LooseBare(w.go, g.ty, j);
      }
    }
    if TableConverse(w) {
      forall name, n | name in w.pairs && name in w.go.structs && n in w.go.structs[name]
        ensures !HasBytes(w.go.structs[name][n].ty)
      {
        var fields := CleanPair(w, name);
      }
    }
  }
}
