/**
 What is left of a TypeScript type that passes the projection check once its
 aliases are expanded: members that no further expansion changes, which admit
 the same non-null values.  An alias that survives lies on a cycle and refers to
 nothing, so no check on its form can pass; what remains are literals, scalars,
 arrays, records and names of declared field maps.
*/
module OpenApiLeaves {
  import opened Wrappers
  import opened TsTypes
  import opened WireChecker
  import opened AliasMeaning
  import opened WireMeaning
  import opened WireConverse
  import opened WireSound
  import opened OpenApiChecker
  import opened OpenApiNodes

  // Members that no expansion changes

  /** Under a cycle through `a`, nothing that leads back to `a` is string-like. */
  lemma {:induction false} CycleNotStringLike(ms: seq<Member>, aliases: map<string, TsType>, seen: set<string>,
      a: string, s: set<string>)
    returns (i: nat)
    requires a in aliases && a in s && "string" !in aliases && Word(a) in Expand(ms, aliases, seen)
    ensures i < |ms| && !StringLike(ms[i], aliases, s)
    decreases aliases.Keys - seen, |ms|
  {
    var h := ms[0];
    if h.Word? && h.name in aliases && h.name !in seen
       && Word(a) in Expand(aliases[h.name].Members(), aliases, seen + {h.name}) {
      i := 0;
      assert h.name in aliases.Keys - seen;
      if h.name !in s {
        var k := CycleNotStringLike(aliases[h.name].Members(), aliases, seen + {h.name}, a, s + {h.name});
      }
    } else if h == Word(a) && h.name in seen {
      i := 0;
    } else {
      var k := CycleNotStringLike(ms[1..], aliases, seen, a, s);
      i := k + 1;
      assert ms[i] == ms[1..][k];
    }
  }

  /** An alias that survives expansion lies on a cycle, so it is not string-like. */
  lemma {:induction false} SurvivorNotStringLike(ms: seq<Member>, aliases: map<string, TsType>, seen: set<string>,
      a: string)
    requires a in aliases && a !in seen && "string" !in aliases && Word(a) in Expand(ms, aliases, seen)
    ensures !StringLike(Word(a), aliases, {})
    decreases aliases.Keys - seen, |ms|
  {
    var h := ms[0];
    if h.Word? && h.name in aliases && h.name !in seen
       && Word(a) in Expand(aliases[h.name].Members(), aliases, seen + {h.name}) {
      assert h.name in aliases.Keys - seen;
      if h.name == a {
        var k := CycleNotStringLike(aliases[a].Members(), aliases, seen + {a}, a, {} + {a});
      } else {
        SurvivorNotStringLike(aliases[h.name].Members(), aliases, seen + {h.name}, a);
      }
    } else {
      SurvivorNotStringLike(ms[1..], aliases, seen, a);
    }
  }

  lemma {:induction false} ExpandFixed(ms: seq<Member>, aliases: map<string, TsType>)
    requires forall m :: m in ms ==> !(m.Word? && m.name in aliases)
    ensures Expand(ms, aliases, {}) == ms
    decreases ms
  {
    if ms != [] {
      assert ms[0] in ms;
      ExpandFixed(ms[1..], aliases);
      assert ms == [ms[0]] + ms[1..];
    }
  }

  lemma {:induction false} RelevantFixed(ms: seq<Member>)
    requires NULL !in ms && UNDEFINED !in ms
    ensures Relevant(ms) == ms
    decreases ms
  {
    if ms != [] {
      assert ms[0] in ms;
      RelevantFixed(ms[1..]);
      assert ms == [ms[0]] + ms[1..];
    }
  }

  /** Members without aliases stay what they are when joined and split again. */
  lemma JoinedFixed(ctx: OpenContext, ms: seq<Member>)
    requires ms != [] && NULL !in ms && UNDEFINED !in ms
    requires forall m :: m in ms ==> !(m.Word? && m.name in ctx.wire.aliases)
    ensures Leaves(ctx.wire, Joined(ms)) == ms
  {
    ExpandFixed(ms, ctx.wire.aliases);
    RelevantFixed(ms);
    assert Joined(ms).Members() == ms;
  }

  // Names of structs

  /** A member that names no alias. */
  predicate Settled(ts: TsSource, m: Member) { !Expands(ts, m) && m != NULL && m != UNDEFINED }

  /** A name that refers to a declared field map expands to the interface or to the
      object members of the union. */
  lemma {:induction false} ReferenceSettles(ts: TsSource, name: string, seen: set<string>)
    requires ts.Valid()
    requires var r := Reference(name, ts.aliases, seen);
             r.Some? && (r.value in ts.interfaces || UnionFields(ts, r.value).Some?)
    ensures Expand([Word(name)], ts.aliases, seen) != []
    ensures forall e :: e in Expand([Word(name)], ts.aliases, seen) ==> Settled(ts, e)
    decreases ts.aliases.Keys - seen
  {
    ReservedEnds(ts, name, seen);
    assert [Word(name)][1..] == [];
    if name in ts.aliases {
      var body := ts.aliases[name].Members();
      assert name in ts.aliases.Keys - seen;
      match IdentifierTarget(ts.aliases[name])
      case None => BranchesAreObjects(body, ts.aliases, seen + {name});
      case Some(target) =>
        assert body == [Word(target)];
        ReferenceSettles(ts, target, seen + {name});
    }
  }

  lemma {:induction false} MembersSettle(ts: TsSource, ms: seq<Member>)
    requires forall m :: m in ms ==>
      forall e :: e in Expand([m], ts.aliases, {}) ==> Settled(ts, e) || e == NULL || e == UNDEFINED
    ensures forall e :: e in Expand(ms, ts.aliases, {}) ==> Settled(ts, e) || e == NULL || e == UNDEFINED
    decreases ms
  {
    hide Settled;
    if ms != [] {
      MembersSettle(ts, ms[1..]);
      ExpandFirst(ms, ts.aliases);
      assert ms[0] in ms;
    }
  }

  lemma ExpandFirst(ms: seq<Member>, aliases: map<string, TsType>)
    requires ms != []
    ensures Expand(ms, aliases, {}) == Expand([ms[0]], aliases, {}) + Expand(ms[1..], aliases, {})
  {
    assert [ms[0]][1..] == [];
  }

  lemma KeywordSettles(ts: TsSource, m: Member)
    requires ts.Valid() && (m == NULL || m == UNDEFINED)
    ensures Expand([m], ts.aliases, {}) == [m]
  {
    assert [m][1..] == [];
  }

  lemma StructLeavesSettle(w: World, at: string, go: GoType, t: TsType, au: bool, rn: bool)
    requires w.ts.Valid() && Clean(w) && CheckProjection(w.Ctx(), at, go, t, au, rn) == []
    requires Bare(go).Named? && !Scalar(w.Ctx(), Bare(go)) && Known(w, Bare(go))
    ensures forall e :: e in Leaves(w.Ctx(), t) ==> Settled(w.ts, e)
  {
    hide CheckProjection, Clean, PairAgrees, Reference, Settled, Expand, Refers;
    var fields := CleanPair(w, Bare(go).short);
    TargetFields(w, Bare(go).short, fields);
    forall m, e | m in t.Members() && e in Expand([m], w.ts.aliases, {})
      ensures Settled(w.ts, e) || e == NULL || e == UNDEFINED
    {
      if m == NULL || m == UNDEFINED {
        KeywordSettles(w.ts, m);
      } else {
        StructRefers(w, at, go, t, au, rn, m);
        ReferringSettles(w, Bare(go).short, fields, m);
      }
    }
    MembersSettle(w.ts, t.Members());
  }

  lemma ReferringSettles(w: World, name: string, fields: FieldMap, m: Member)
    requires w.ts.Valid() && PairAgrees(w, name, fields) && Refers(w.Ctx(), w.pairs[name], [m])
    ensures forall e :: e in Expand([m], w.ts.aliases, {}) ==> Settled(w.ts, e)
  {
    hide PairAgrees, Reference, Settled, Expand;
    assert m in [m];
    TargetFields(w, name, fields);
    ReferenceSettles(w.ts, m.name, {});
  }

  // One node

  /** What a clean comparison and the projection check leave of a node: members of
      the right form, none of them an alias. */
  ghost predicate LeavesFit(w: OpenWorld, go: GoType, ms: seq<Member>) {
    && ms != [] && (forall m :: m in ms ==> Settled(w.wire.ts, m))
    && ElementsChecked(w, go, ms)
    && (Scalar(w.wire.Ctx(), Bare(go)) ==> exists at :: CheckNamed(w.wire.Ctx(), at, Bare(go), ms) == [])
  }

  lemma LeavesAreThere(ctx: OpenContext, go: GoType, t: TsType, s: Schema, au: bool, rn: bool)
    requires CompareValue(ctx, go, t, s, au, rn) == []
    ensures s.Schema? && Leaves(ctx.wire, t) != []
  {
    hide CompareNamed, CompareElements, NodeProblems, Expanded;
  }

  lemma ProjectedLeavesFit(w: OpenWorld, at: string, go: GoType, t: TsType, au: bool, rn: bool)
    requires w.wire.ts.Valid() && Clean(w.wire) && Known(w.wire, go)
    requires CheckProjection(w.wire.Ctx(), at, go, t, au, rn) == [] && Leaves(w.wire.Ctx(), t) != []
    ensures LeavesFit(w, go, Leaves(w.wire.Ctx(), t))
  {
    hide CheckProjection, Expanded, CheckElements, CheckValues, MemberClean, Clean, CheckNamed;
    var ctx, ms := w.wire.Ctx(), Leaves(w.wire.Ctx(), t);
    KnownBare(w.wire, go);
    ProjectionParts(ctx, at, go, t, au, rn);
    LeavesChecked(w, at, go, t, au, rn);
    if IsStruct(w, Bare(go)) {
      StructLeavesSettle(w.wire, at, go, t, au, rn);
    } else {
      forall m | m in ms && m.Word? ensures m.name !in w.wire.ts.aliases {
        if Collection(Bare(go)) {
          var at' :| MemberClean(ctx, at', Bare(go), m);
          MemberForm(ctx, at', Bare(go), m);
          assert false;
        } else if m.name in w.wire.ts.aliases {
          WordIsStringLike(w, at, Bare(go), ms, m);
          LeafExpanded(ctx, t, m);
          SurvivorNotStringLike(t.Members(), ctx.aliases, {}, m.name);
          assert false;
        }
      }
    }
  }

  lemma LeafExpanded(ctx: Context, t: TsType, m: Member)
    requires m in Leaves(ctx, t)
    ensures m in Expand(t.Members(), ctx.aliases, {})
  {
  }

  lemma MemberForm(ctx: Context, at: string, bare: GoType, m: Member)
    requires Collection(bare) && MemberClean(ctx, at, bare, m)
    ensures Form(bare, m)
  {
    hide CheckProjection;
  }

  /** A declared name can only pass a scalar test by being string-like. */
  lemma WordIsStringLike(w: OpenWorld, at: string, bare: GoType, ms: seq<Member>, m: Member)
    requires w.wire.ts.Valid() && bare.Named? && !IsStruct(w, bare) && CheckNamed(w.wire.Ctx(), at, bare, ms) == []
    requires m in ms && m.Word? && m.name in w.wire.ts.aliases
    ensures StringLike(m, w.wire.ts.aliases, {}) && "string" !in w.wire.ts.aliases
  {
    assert m.name !in RESERVED;
  }

  /** The non-null values of a type are those of its leaves. */
  lemma LeafAdmits(ts: TsSource, ctx: Context, t: TsType, j: Json)
    requires ts.Valid() && ctx.aliases == ts.aliases && j != Null
    requires forall m :: m in Leaves(ctx, t) ==> !Expands(ts, m) && !m.Object?
    ensures Accepts(Exact, ts, t, j) <==> exists m :: m in Leaves(ctx, t) && MemberAccepts(Exact, ts, m, j, 0)
  {
    if Accepts(Exact, ts, t, j) {
      var m := AdmittedThrough(Exact, ts, t, j);
      assert m in Leaves(ctx, t);
    }
    if m :| m in Leaves(ctx, t) && MemberAccepts(Exact, ts, m, j, 0) {
      LookedAccepts(Exact, ts, t, m, j, 0);
    }
  }

  lemma BareLeavesFit(w: OpenWorld, go: GoType, ms: seq<Member>)
    requires LeavesFit(w, go, ms)
    ensures LeavesFit(w, Bare(go), ms)
  {
    assert Bare(Bare(go)) == Bare(go);
  }

  /** Joining the leaves and expanding again changes nothing. */
  lemma LeavesStay(w: OpenWorld, go: GoType, ms: seq<Member>)
    requires LeavesFit(w, go, ms)
    ensures Leaves(w.wire.Ctx(), Joined(ms)) == ms && NULL !in Expanded(Joined(ms), w.wire.ts.aliases)
  {
    hide ElementsChecked;
    JoinedFixed(w.Ctx(), ms);
    ExpandFixed(ms, w.wire.ts.aliases);
    assert Joined(ms).Members() == ms;
  }
}
