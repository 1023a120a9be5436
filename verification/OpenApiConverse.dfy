/**
 The other direction for the document: what conforms to a component is admitted
 by the TypeScript fields of its pair, exactly as far as components are closed.  The
 proof follows the JSON value through references and composites, and an open
 component is refuted by a conforming object with one field more.
*/
module OpenApiConverse {
  import Strings
  import opened Wrappers
  import opened TsTypes
  import opened WireChecker
  import opened WireMeaning
  import opened WireSound
  import opened OpenApiChecker
  import opened JsonSchema
  import opened OpenApiAgreement
  import opened OpenApiNodes

  /** No open component has a conforming value. */
  ghost predicate InhabitedClosed(w: OpenWorld) {
    forall name, fields, s, j :: ComponentAgrees(w, name, fields, s) && Conforms(w.defs, s, j) ==> s.closed
  }

  /** Every conforming value is admitted by the pair's fields, literals taken
      exactly. */
  ghost predicate OpenConverse(w: OpenWorld) {
    forall name, fields, s, j :: ComponentAgrees(w, name, fields, s) && Conforms(w.defs, s, j) ==>
      FieldsAccept(Exact, w.wire.ts, fields, j)
  }

  // What conformance gives

  lemma ConformingKeywords(defs: map<string, Schema>, s: Schema, j: Json)
    requires Conforms(defs, s, j)
    ensures s.Schema? && KeywordsConform(defs, s, j)
  {
    var n: nat :| ConformsFrom(defs, s, j, n);
    assert ConformsWithin(defs, s, j, n);
  }

  lemma Referred(defs: map<string, Schema>, s: Schema, j: Json)
    requires s.Schema? && s.ref.Some? && Conforms(defs, s, j)
    ensures s.ref.value in defs && Conforms(defs, defs[s.ref.value], j)
  {
    var n: nat :| ConformsFrom(defs, s, j, n);
    assert ConformsWithin(defs, s, j, n);
    forall i: nat | i >= n ensures ConformsWithin(defs, defs[s.ref.value], j, i) {
      assert ConformsWithin(defs, s, j, i + 1);
    }
    assert ConformsFrom(defs, defs[s.ref.value], j, n);
  }

  /** What conforms to a reference conforms to the component it leads to. */
  lemma {:induction false} ConformingReference(defs: map<string, Schema>, name: string, seen: set<string>, j: Json)
    requires Resolve(defs, name, seen).Some? && Conforms(defs, defs[name], j)
    ensures Conforms(defs, Resolve(defs, name, seen).value, j)
    decreases defs.Keys - seen
  {
    hide Conforms;
    var s := defs[name];
    if s.Schema? && s.ref.Some? {
      assert name in defs.Keys - seen;
      Referred(defs, s, j);
      ConformingReference(defs, s.ref.value, seen + {name}, j);
    }
  }

  lemma ScalarKind(w: OpenWorld, bare: GoType, t: TsType, s: Schema, j: Json)
    requires s.Schema? && bare.Named? && !IsStruct(w, bare) && ScalarAgrees(w, bare, t, s) && j != Null
    requires s.any.Absent? && s.one.Absent?
    requires KeywordsConform(w.defs, s, j)
    ensures Accepts(Exact, w.wire.ts, t, j)
  {
    hide Accepts, Projection;
    var (kind, format) := ExpectedScalar(bare, w.wire.go.stringTypes).value;
    assert kind in {"string", "boolean", "number", "integer"} by { ScalarNames(bare, w.wire.go.stringTypes); }
    TypedKind(s, kind, j);
  }

  lemma ScalarNames(bare: GoType, stringTypes: set<string>)
    requires ExpectedScalar(bare, stringTypes).Some?
    ensures ExpectedScalar(bare, stringTypes).value.0 in {"string", "boolean", "number", "integer"}
  {
  }

  /** A non-null value of a schema with one type has that type. */
  lemma TypedKind(s: Schema, kind: string, j: Json)
    requires s.Schema? && Types(s) == {kind} && TypeAdmits(s.ty, j) && j != Null && s.any.Absent? && s.one.Absent?
    ensures HasType(kind, j)
  {
    match s.ty
    case Untyped =>
    case One(n) => assert n in Types(s);
    case Many(ns) =>
      var i :| 0 <= i < |ns| && HasType(ns[i], j);
      assert ns[i] in Types(s);
  }

  // Nodes

  /** A conforming value of an agreeing place is admitted by its TypeScript type. */
  lemma {:induction false} PlaceConverse(w: OpenWorld, go: GoType, t: TsType, s: Schema, j: Json)
    requires Setting(w) && InhabitedClosed(w) && Known(w.wire, go)
    requires Agrees(w, go, t, s) && Fragment(w.defs, go, s) && Conforms(w.defs, s, j)
    ensures Accepts(Exact, w.wire.ts, t, j)
    decreases j, 2, s
  {
    hide Setting, InhabitedClosed, Known, Fragment, Conforms, Accepts, BodyAgrees, Nullable;
    if j == Null {
      NullAt(w.defs, go, s);
    } else {
      BodyConverse(w, go, t, s, j);
    }
  }

  lemma {:induction false} BodyConverse(w: OpenWorld, go: GoType, t: TsType, s: Schema, j: Json)
    requires Setting(w) && InhabitedClosed(w) && Known(w.wire, go) && j != Null
    requires BodyAgrees(w, go, t, s) && Fragment(w.defs, go, s) && Conforms(w.defs, s, j)
    ensures Accepts(Exact, w.wire.ts, t, j)
    decreases j, 1, s, 1
  {
    hide Setting, InhabitedClosed, Known, Conforms, Accepts, Agrees, ScalarAgrees, StructAgrees, LeavesDecide,
         OnlyComposite, ObjectReference, Plain, Types;
    var bare := Bare(go);
    KnownBare(w.wire, go);
    match Composite(s)
    case Listed(vs) =>
      var i :| 0 <= i < |vs| && vs[i] != NULL_SCHEMA && BodyAgrees(w, go, t, vs[i])
        && (s.any.Absent? && s.one.Absent? ==> |vs| == 1)
        && forall k :: 0 <= k < |vs| && k != i ==> vs[k] == NULL_SCHEMA;
      VariantSmaller(s, vs, i);
      CompositeConforms(w.defs, s, vs, i, j);
      BodyConverse(w, go, t, vs[i], j);
    case Absent =>
      ConformingKeywords(w.defs, s, j);
      if Collection(bare) {
        CollectionAdmits(w, go, t, s, j);
      } else if IsStruct(w, bare) {
        StructAdmits(w, bare, t, s, j);
      } else {
        ScalarKind(w, bare, t, s, j);
      }
  }

  lemma {:induction false} CollectionAdmits(w: OpenWorld, go: GoType, t: TsType, s: Schema, j: Json)
    requires Setting(w) && InhabitedClosed(w) && Known(w.wire, Bare(go)) && j != Null && Collection(Bare(go))
    requires s.Schema? && Composite(s).Absent? && BodyAgrees(w, go, t, s) && Fragment(w.defs, go, s)
    requires KeywordsConform(w.defs, s, j)
    ensures Accepts(Exact, w.wire.ts, t, j)
    decreases j, 0, s
  {
    hide Setting, InhabitedClosed, Conforms, Accepts, Agrees, TypeAdmits, Types;
    var bare, ms := Bare(go), Leaves(w.wire.Ctx(), t);
    var e, elem, m := ElemType(bare), ElemSchema(bare, s).value, ms[0];
    TypedKind(s, if bare.Slice? then "array" else "object", j);
    var u := MemberElem(bare, m);
    if bare.Slice? {
      forall i | 0 <= i < |j.items| ensures Accepts(Exact, w.wire.ts, u, j.items[i]) {
        PlaceConverse(w, e, u, elem, j.items[i]);
      }
    } else {
      forall k | k in j.fields ensures Accepts(Exact, w.wire.ts, u, j.fields[k]) {
        PlaceConverse(w, e, u, elem, j.fields[k]);
      }
    }
    assert MemberAccepts(Exact, w.wire.ts, m, j, 0);
  }

  lemma {:induction false} StructAdmits(w: OpenWorld, bare: GoType, t: TsType, s: Schema, j: Json)
    requires Setting(w) && InhabitedClosed(w) && Known(w.wire, bare) && j != Null && IsStruct(w, bare)
    requires s.Schema? && StructAgrees(w, bare, t, s)
             && (Plain(s, EMPTY.(enum := s.enum)) || ObjectReference(w.defs, s))
    requires Conforms(w.defs, s, j)
    ensures Accepts(Exact, w.wire.ts, t, j)
    decreases j, 1, s, 0
  {
    hide InhabitedClosed, Conforms, Accepts, FieldsAccept, OpenClean, Closed, Types, PropertyProblems, CompareField,
         TsFields, Fragment;
    var fields :| PairAgrees(w.wire, bare.short, fields) && AdmitsFields(w, t, fields);
    var component := AgreedComponent(w, bare.short, fields);
    assert s.ref == Some(w.components[bare.short]);
    Referred(w.defs, s, j);
    ConformingReference(w.defs, s.ref.value, {}, j);
    ComponentAdmits(w, bare.short, fields, component, j);
  }

  lemma {:induction false} ComponentAdmits(w: OpenWorld, name: string, fields: FieldMap, s: Schema, j: Json)
    requires Setting(w) && InhabitedClosed(w) && ComponentAgrees(w, name, fields, s) && Conforms(w.defs, s, j)
    ensures FieldsAccept(Exact, w.wire.ts, fields, j)
    decreases j, 0
  {
    hide Conforms, Accepts, Agrees, OpenClean, Closed, Clean, Types, PropertyProblems, CompareField, TsFields,
         Fragment, Known;
    ConformingKeywords(w.defs, s, j);
    ComponentIsDict(w, name, fields, s, j);
    assert s.closed;
    assert Checkable(w) by { CleanWire(w); }
    var go := w.wire.go.structs[name];
    forall k | k in fields
      ensures if k in j.fields then Accepts(Exact, w.wire.ts, fields[k].ty, j.fields[k]) else fields[k].optional
    {
      FieldKnown(w.wire, name, k);
      ThreeWay(w, name, fields, s, k);
      if k in j.fields {
        PlaceConverse(w, go[k].ty, fields[k].ty, s.properties.value[k], j.fields[k]);
      }
    }
  }

  lemma FieldKnown(w: World, name: string, k: string)
    requires Closed(w) && name in w.pairs && name in w.go.structs && k in w.go.structs[name]
    ensures Known(w, w.go.structs[name][k].ty)
  {
  }

  lemma ComponentIsDict(w: OpenWorld, name: string, fields: FieldMap, s: Schema, j: Json)
    requires InFragment(w) && ComponentAgrees(w, name, fields, s) && KeywordsConform(w.defs, s, j)
    ensures ObjectSchema(s) && j.Dict? && DictConforms(w.defs, s, j)
  {
    hide Conforms, PropertyProblems, CompareField, TsFields, Fragment, Resolve;
  }

  // Main result

  lemma FreshName(names: set<string>) returns (k: string)
    ensures k !in names
  {
    var n := Strings.LengthBound(names);
    k := seq(n + 1, _ => 'k');
  }

  /** An open component also takes objects with one more field. */
  lemma OpenTakesMore(defs: map<string, Schema>, s: Schema, j: Json, k: string, v: Json)
    requires ObjectSchema(s) && !s.closed && s.properties.Some? && Conforms(defs, s, j)
    requires k !in s.properties.value && j.Dict?
    ensures Conforms(defs, s, Dict(j.fields[k := v]))
  {
    ConformingKeywords(defs, s, j);
    var more := Dict(j.fields[k := v]);
    assert DictConforms(defs, s, more);
    forall n: nat ensures ConformsWithin(defs, s, more, n) { }
    assert ConformsFrom(defs, s, more, 0);
  }

  /** For tables that pass both checks: everything that conforms to a component is
      admitted by the TypeScript side, at every depth, exactly when no open
      component has a conforming value. */
  lemma {:induction false} OpenConverseIffClosed(w: OpenWorld)
    requires Setting(w)
    ensures OpenConverse(w) <==> InhabitedClosed(w)
  {
    hide Setting, Conforms, FieldsAccept, ComponentAgrees;
    if InhabitedClosed(w) {
      forall name, fields, s, j | ComponentAgrees(w, name, fields, s) && Conforms(w.defs, s, j)
        ensures FieldsAccept(Exact, w.wire.ts, fields, j)
      {
        ComponentAdmits(w, name, fields, s, j);
      }
    }
    if OpenConverse(w) {
      forall name, fields, s, j | ComponentAgrees(w, name, fields, s) && Conforms(w.defs, s, j)
        ensures s.Schema? && s.closed
      {
        ConformingKeywords(w.defs, s, j);
        if !s.closed {
          var more := OpenCounterexample(w, name, fields, s, j);
        }
      }
    }
  }

  lemma OpenCounterexample(w: OpenWorld, name: string, fields: FieldMap, s: Schema, j: Json) returns (more: Json)
    requires Setting(w) && ComponentAgrees(w, name, fields, s) && Conforms(w.defs, s, j) && s.Schema? && !s.closed
    ensures Conforms(w.defs, s, more) && !FieldsAccept(Exact, w.wire.ts, fields, more)
  {
    hide Conforms, Accepts, OpenClean, Closed, PropertyProblems, CompareField, TsFields, Fragment, Resolve;
    ConformingKeywords(w.defs, s, j);
    ComponentIsDict(w, name, fields, s, j);
    var k := FreshName(s.properties.value.Keys);
    OpenTakesMore(w.defs, s, j, k, Null);
    more := Dict(j.fields[k := Null]);
    assert k in more.fields && k !in fields;
  }
}
