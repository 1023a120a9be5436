/**
 What aliases do to meaning: merging an object-only union only adds values, and
 expanding a type keeps them all.
*/
module AliasMeaning {
  import opened Wrappers
  import opened TsTypes
  import opened WireChecker
  import opened WireMeaning

  // Object-only unions

  lemma {:induction false} AddNewContains(values: seq<Member>, more: seq<Member>, m: Member)
    ensures m in AddNew(values, more) <==> m in values || m in more
    decreases more
  {
    if more != [] {
      AddNewContains(if more[0] in values then values else values + [more[0]], more[1..], m);
    }
  }

  predicate Adds(key: string, b: FieldMap, m: Member) {
    && key in b && m in b[key].ty.Members()
    && !(b[key].optional && b[key].ty == Single(Word("never")))
  }

  /** The merged members of a key are exactly those some branch adds. */
  lemma {:induction false} MergedValuesContain(key: string, branches: seq<FieldMap>, values: seq<Member>, m: Member)
    ensures m in MergedValues(key, branches, values) <==>
            m in values || exists i :: 0 <= i < |branches| && Adds(key, branches[i], m)
    decreases branches
  {
    if branches != [] {
      var b, rest := branches[0], branches[1..];
      var skip := key !in b || (b[key].optional && b[key].ty == Single(Word("never")));
      var values' := if skip then values else AddNew(values, b[key].ty.Members());
      MergedValuesContain(key, rest, values', m);
      if !skip { AddNewContains(values, b[key].ty.Members(), m); }
      assert forall i :: 0 <= i < |rest| ==> rest[i] == branches[i + 1];
      if i :| 0 <= i < |branches| && Adds(key, branches[i], m) {
        if i > 0 { assert Adds(key, rest[i - 1], m); }
      }
    }
  }

  /** The merged field map admits every closed object some branch admits. */
  lemma MergedAcceptsBranch(rd: Reading, ts: TsSource, branches: seq<FieldMap>, f: FieldMap, i: nat, j: Json)
    requires Merge(branches) == Some(f) && i < |branches| && FieldsAccept(rd, ts, branches[i], j)
    ensures FieldsAccept(rd, ts, f, j)
  {
    hide Accepts;
    var b := branches[i];
    assert b.Keys <= f.Keys;
    forall k | k in f
      ensures if k in j.fields then Accepts(rd, ts, f[k].ty, j.fields[k]) else f[k].optional
    {
      assert f[k].optional == MergedOptional(k, branches);
      if k in j.fields {
        BranchValueMerged(rd, ts, branches, f, i, k, j.fields[k]);
      } else {
        assert k in b ==> b[k].optional;
      }
    }
  }

  lemma NothingIsNever(rd: Reading, ts: TsSource, t: TsType, v: Json)
    requires Accepts(rd, ts, t, v)
    ensures t != Single(Word("never"))
  {
    var n: nat :| AcceptsWithin(rd, ts, t.Members(), v, n);
    var i :| 0 <= i < |t.Members()| && MemberAccepts(rd, ts, t.Members()[i], v, n);
    assert t.Members()[i] != Word("never");
  }

  lemma BranchValueMerged(rd: Reading, ts: TsSource, branches: seq<FieldMap>, f: FieldMap, i: nat, k: string, v: Json)
    requires Merge(branches) == Some(f) && i < |branches| && k in f
    requires k in branches[i] && Accepts(rd, ts, branches[i][k].ty, v)
    ensures Accepts(rd, ts, f[k].ty, v)
  {
    hide MergedValues, MemberAccepts;
    var ty := branches[i][k].ty;
    var n: nat :| AcceptsWithin(rd, ts, ty.Members(), v, n);
    var p :| 0 <= p < |ty.Members()| && MemberAccepts(rd, ts, ty.Members()[p], v, n);
    var m := ty.Members()[p];
    assert Adds(k, branches[i], m) by { NothingIsNever(rd, ts, ty, v); }
    MergedValuesContain(k, branches, [], m);
    assert f[k].ty.Members() == MergedValues(k, branches, []);
    assert AcceptsWithin(rd, ts, f[k].ty.Members(), v, n);
  }

  /** The converse fails: merging `{ a: string } | { b: string }` admits the empty
      object, which neither branch does. */
  lemma MergedAcceptsMore(rd: Reading, ts: TsSource)
    ensures var text := TsField(false, Single(Word("string")));
            var branches := [map["a" := text], map["b" := text]];
            Merge(branches).Some?
            && FieldsAccept(rd, ts, Merge(branches).value, Dict(map[]))
            && forall b :: b in branches ==> !FieldsAccept(rd, ts, b, Dict(map[]))
  {
    var text := TsField(false, Single(Word("string")));
    var branches: seq<FieldMap> := [map["a" := text], map["b" := text]];
    forall k | k in AllKeys(branches)
      ensures MergedValues(k, branches, []) != [] && MergedOptional(k, branches)
    {
      var i := if k == "a" then 0 else 1;
      assert k == "a" || k == "b";
      assert Adds(k, branches[i], Word("string"));
      MergedValuesContain(k, branches, [], Word("string"));
      assert k !in branches[1 - i];
    }
    assert "a" in branches[0] && "b" in branches[1];
  }

  // Alias expansion preserves meaning

  predicate Expands(ts: TsSource, m: Member) { m.Word? && m.name in ts.aliases }

  lemma {:induction false} MemberMonotone(rd: Reading, ts: TsSource, m: Member, j: Json, n: nat)
    requires MemberAccepts(rd, ts, m, j, n)
    ensures MemberAccepts(rd, ts, m, j, n + 1)
    decreases n
  {
    if Expands(ts, m) && ReadFields(rd, ts, m.name) == None && n > 0 && m.name !in RESERVED
        && m.name !in ts.interfaces {
      var ms := ts.aliases[m.name].Members();
      var i :| 0 <= i < |ms| && MemberAccepts(rd, ts, ms[i], j, n - 1);
      MemberMonotone(rd, ts, ms[i], j, n - 1);
    }
  }

  lemma {:induction false} BranchesAreObjects(ms: seq<Member>, aliases: map<string, TsType>, seen: set<string>)
    requires Branches(ms).Some?
    ensures forall m :: m in ms ==> m.Object?
    ensures Expand(ms, aliases, seen) == ms
    decreases ms
  {
    if ms != [] {
      BranchesAreObjects(ms[1..], aliases, seen);
      assert ms == [ms[0]] + ms[1..];
    }
  }

  lemma {:induction false} BranchAt(ms: seq<Member>, i: nat)
    requires Branches(ms).Some? && i < |ms|
    ensures |Branches(ms).value| == |ms| && ms[i].Object? && BranchFields(ms[i].fields) == Some(Branches(ms).value[i])
    decreases ms
  {
    if |ms| > 1 {
      BranchAt(ms[1..], if i > 0 then i - 1 else 0);
    }
  }

  /** What an alias's body admits, the alias admits, merged or not. */
  lemma BodyAdmits(rd: Reading, ts: TsSource, name: string, j: Json, k: nat)
    requires ts.Valid() && name in ts.aliases && AcceptsWithin(rd, ts, ts.aliases[name].Members(), j, k)
    ensures MemberAccepts(rd, ts, Word(name), j, k + 1)
  {
    hide Merge;
    var body := ts.aliases[name].Members();
    if ReadFields(rd, ts, name).Some? {
      var i :| 0 <= i < |body| && MemberAccepts(rd, ts, body[i], j, k);
      BranchAt(body, i);
      MergedAcceptsBranch(rd, ts, Branches(body).value, ReadFields(rd, ts, name).value, i, j);
    }
  }

  /** A value an expanded member admits, the written type admits. */
  lemma {:induction false} ExpandSound(rd: Reading, ts: TsSource, ms: seq<Member>, seen: set<string>, m: Member,
                                       j: Json, n: nat)
      returns (k: nat)
    requires ts.Valid() && m in Expand(ms, ts.aliases, seen) && MemberAccepts(rd, ts, m, j, n)
    ensures AcceptsWithin(rd, ts, ms, j, k)
    decreases ts.aliases.Keys - seen, |ms|
  {
    hide MemberAccepts;
    var h := ms[0];
    if Expands(ts, h) && h.name !in seen && m in Expand(ts.aliases[h.name].Members(), ts.aliases, seen + {h.name}) {
      assert h.name in ts.aliases.Keys - seen;
      var k' := ExpandSound(rd, ts, ts.aliases[h.name].Members(), seen + {h.name}, m, j, n);
      BodyAdmits(rd, ts, h.name, j, k');
      k := k' + 1;
      assert MemberAccepts(rd, ts, ms[0], j, k);
    } else if m == h {
      k := n;
      assert MemberAccepts(rd, ts, ms[0], j, k);
    } else {
      k := ExpandSound(rd, ts, ms[1..], seen, m, j, n);
      var i :| 0 <= i < |ms[1..]| && MemberAccepts(rd, ts, ms[1..][i], j, k);
      assert ms[i + 1] == ms[1..][i];
    }
  }

  lemma {:induction false} ExpandKeeps(ms: seq<Member>, aliases: map<string, TsType>, seen: set<string>, i: nat)
    requires i < |ms|
    ensures ms[i].Word? && ms[i].name in aliases && ms[i].name !in seen ==>
              forall e :: e in Expand(aliases[ms[i].name].Members(), aliases, seen + {ms[i].name}) ==>
                e in Expand(ms, aliases, seen)
    ensures !(ms[i].Word? && ms[i].name in aliases && ms[i].name !in seen) ==> ms[i] in Expand(ms, aliases, seen)
    decreases ms
  {
    if i > 0 { ExpandKeeps(ms[1..], aliases, seen, i - 1); }
  }

  lemma LeafIgnoresDepth(rd: Reading, ts: TsSource, m: Member, j: Json, n: nat)
    requires !Expands(ts, m) && MemberAccepts(rd, ts, m, j, n)
    ensures MemberAccepts(rd, ts, m, j, 0)
  {
    match m
    case Word(w) =>
    case _ =>
  }

  /** A value an alias admits comes through merged fields or through its body. */
  lemma AliasOpens(rd: Reading, ts: TsSource, name: string, j: Json, n: nat)
    requires ts.Valid() && name in ts.aliases && MemberAccepts(rd, ts, Word(name), j, n)
    ensures if ReadFields(rd, ts, name).Some? then j.Dict? && Branches(ts.aliases[name].Members()).Some?
            else n > 0 && AcceptsWithin(rd, ts, ts.aliases[name].Members(), j, n - 1)
  {
    assert name !in RESERVED && name !in ts.interfaces;
  }

  /** A value the written type admits, a fully expanded member admits: cycles
      add nothing.  In a merged reading objects may instead come through merged fields. */
  lemma {:induction false} ExpandComplete(rd: Reading, ts: TsSource, ms: seq<Member>, seen: set<string>, j: Json,
      n: nat)
      returns (m: Member)
    requires ts.Valid() && AcceptsWithin(rd, ts, ms, j, n)
    requires forall s :: s in seen ==> s in ts.aliases && !MemberAccepts(rd, ts, Word(s), j, n)
    ensures m in Expand(ms, ts.aliases, seen)
    ensures (!Expands(ts, m) && MemberAccepts(rd, ts, m, j, 0)) || (rd.Merged() && m.Object? && j.Dict?)
    decreases n
  {
    hide MemberAccepts, Branches, UnionFields, Expand;
    var i :| 0 <= i < |ms| && MemberAccepts(rd, ts, ms[i], j, n);
    m := ms[i];
    ExpandKeeps(ms, ts.aliases, seen, i);
    if Expands(ts, m) {
      var name := m.name;
      assert m == Word(name) && name !in seen;
      var body := ts.aliases[name].Members();
      AliasOpens(rd, ts, name, j, n);
      if ReadFields(rd, ts, name).Some? {
        BranchesAreObjects(body, ts.aliases, seen + {name});
        m := body[0];
        assert m in body;
      } else if MemberAccepts(rd, ts, m, j, n - 1) {
        StillRefused(rd, ts, seen, j, n - 1);
        m := ExpandComplete(rd, ts, ms, seen, j, n - 1);
      } else {
        StillRefused(rd, ts, seen, j, n - 1);
        m := ExpandComplete(rd, ts, body, seen + {name}, j, n - 1);
      }
    } else {
      LeafIgnoresDepth(rd, ts, m, j, n);
    }
  }

  lemma StillRefused(rd: Reading, ts: TsSource, seen: set<string>, j: Json, n: nat)
    requires forall s :: s in seen ==> !MemberAccepts(rd, ts, Word(s), j, n + 1)
    ensures forall s :: s in seen ==> !MemberAccepts(rd, ts, Word(s), j, n)
  {
    hide MemberAccepts;
    forall s | s in seen ensures !MemberAccepts(rd, ts, Word(s), j, n) {
      if MemberAccepts(rd, ts, Word(s), j, n) { MemberMonotone(rd, ts, Word(s), j, n); }
    }
  }

  lemma AdmittedThrough(rd: Reading, ts: TsSource, t: TsType, j: Json) returns (m: Member)
    requires ts.Valid() && Accepts(rd, ts, t, j)
    ensures m in Expanded(t, ts.aliases)
    ensures (!Expands(ts, m) && MemberAccepts(rd, ts, m, j, 0)) || (rd.Merged() && m.Object? && j.Dict?)
  {
    var n: nat :| AcceptsWithin(rd, ts, t.Members(), j, n);
    m := ExpandComplete(rd, ts, t.Members(), {}, j, n);
  }

  /** On every alias table, cyclic ones included, a type denotes exactly the values
      that the fully expanded ones of its expanded members do, objects included. */
  lemma {:induction false} ExpansionPreservesMeaning(literal: bool, ts: TsSource, t: TsType, j: Json)
    requires ts.Valid()
    ensures Accepts(Branchwise(literal), ts, t, j) <==>
            exists m :: m in Expanded(t, ts.aliases) && !Expands(ts, m)
                && MemberAccepts(Branchwise(literal), ts, m, j, 0)
  {
    var rd := Branchwise(literal);
    if Accepts(rd, ts, t, j) {
      var m := AdmittedThrough(rd, ts, t, j);
    }
    if m :| m in Expanded(t, ts.aliases) && !Expands(ts, m) && MemberAccepts(rd, ts, m, j, 0) {
      var k := ExpandSound(rd, ts, t.Members(), {}, m, j, 0);
    }
  }

  /** The merged reading, for values that are no objects. */
  lemma ExpansionKeepsPlain(rd: Reading, ts: TsSource, t: TsType, j: Json)
    requires ts.Valid() && !j.Dict?
    ensures Accepts(rd, ts, t, j) <==>
            exists m :: m in Expanded(t, ts.aliases) && !Expands(ts, m) && MemberAccepts(rd, ts, m, j, 0)
  {
    if Accepts(rd, ts, t, j) {
      var m := AdmittedThrough(rd, ts, t, j);
    }
    if m :| m in Expanded(t, ts.aliases) && !Expands(ts, m) && MemberAccepts(rd, ts, m, j, 0) {
      var k := ExpandSound(rd, ts, t.Members(), {}, m, j, 0);
    }
  }

  /** In every reading a type admits null exactly when null is an expanded member. */
  lemma NullMeaning(rd: Reading, ts: TsSource, t: TsType)
    requires ts.Valid()
    ensures Accepts(rd, ts, t, Null) <==> NULL in Expanded(t, ts.aliases)
  {
    ExpansionKeepsPlain(rd, ts, t, Null);
    if NULL in Expanded(t, ts.aliases) {
      assert MemberAccepts(rd, ts, NULL, Null, 0);
    }
  }

  // The merged reading over-approximates the branches

  function MergedReading(literal: bool): Reading { if literal then Exact else Widened }

  /** Every value a type denotes, the merged reading admits, at every depth. */
  lemma {:induction false} DenotedIsAdmitted(literal: bool, ts: TsSource, t: TsType, j: Json)
    requires ts.Valid() && Accepts(Branchwise(literal), ts, t, j)
    ensures Accepts(MergedReading(literal), ts, t, j)
    decreases j, 2
  {
    hide MemberAccepts;
    var n: nat :| AcceptsWithin(Branchwise(literal), ts, t.Members(), j, n);
    var i :| 0 <= i < |t.Members()| && MemberAccepts(Branchwise(literal), ts, t.Members()[i], j, n);
    DenotedMember(literal, ts, t.Members()[i], j, n);
    assert AcceptsWithin(MergedReading(literal), ts, t.Members(), j, n);
  }

  lemma {:induction false} DenotedMember(literal: bool, ts: TsSource, m: Member, j: Json, n: nat)
    requires ts.Valid() && MemberAccepts(Branchwise(literal), ts, m, j, n)
    ensures MemberAccepts(MergedReading(literal), ts, m, j, n)
    decreases j, 1, n
  {
    hide Accepts, FieldsAccept;
    var rd, merged := Branchwise(literal), MergedReading(literal);
    match m
    case Suffix(e) =>
      forall i | 0 <= i < |j.items| ensures Accepts(merged, ts, Single(e), j.items[i]) {
        DenotedIsAdmitted(literal, ts, Single(e), j.items[i]);
      }
    case Generic(e) =>
      forall i | 0 <= i < |j.items| ensures Accepts(merged, ts, e, j.items[i]) {
        DenotedIsAdmitted(literal, ts, e, j.items[i]);
      }
    case Record(v) =>
      forall k | k in j.fields ensures Accepts(merged, ts, v, j.fields[k]) {
        DenotedIsAdmitted(literal, ts, v, j.fields[k]);
      }
    case Object(fs) => DenotedFields(literal, ts, BranchFields(fs).value, j);
    case Word(w) =>
      if w !in RESERVED && w in ts.interfaces {
        DenotedFields(literal, ts, ts.interfaces[w], j);
      } else if w !in RESERVED && w in ts.aliases {
        var body := ts.aliases[w].Members();
        var i :| 0 <= i < |body| && MemberAccepts(rd, ts, body[i], j, n - 1);
        DenotedMember(literal, ts, body[i], j, n - 1);
        BodyAdmits(merged, ts, w, j, n - 1);
      }
    case _ =>
  }

  lemma {:induction false} DenotedFields(literal: bool, ts: TsSource, f: FieldMap, j: Json)
    requires ts.Valid() && FieldsAccept(Branchwise(literal), ts, f, j)
    ensures FieldsAccept(MergedReading(literal), ts, f, j)
    decreases j, 0
  {
    hide Accepts;
    forall k | k in f && k in j.fields ensures Accepts(MergedReading(literal), ts, f[k].ty, j.fields[k]) {
      DenotedIsAdmitted(literal, ts, f[k].ty, j.fields[k]);
    }
  }

  // Acyclic tables

  /** `rank` decreases along every alias to the aliases its definition names. */
  ghost predicate Acyclic(aliases: map<string, TsType>, rank: string -> nat) {
    forall w, m :: w in aliases && m in aliases[w].Members() && m.Word? && m.name in aliases ==> rank(m.name) < rank(w)
  }

  /** On an acyclic table no alias survives expansion. */
  lemma {:induction false} AcyclicExpandsFully(aliases: map<string, TsType>, rank: string -> nat,
                                               ms: seq<Member>, seen: set<string>, bound: nat, m: Member)
    requires Acyclic(aliases, rank)
    requires forall x :: x in ms && x.Word? && x.name in aliases ==> rank(x.name) < bound
    requires forall s :: s in seen ==> rank(s) >= bound
    requires m in Expand(ms, aliases, seen)
    ensures !(m.Word? && m.name in aliases)
    decreases bound, |ms|
  {
    var h := ms[0];
    if h.Word? && h.name in aliases {
      var body := aliases[h.name].Members();
      if m in Expand(body, aliases, seen + {h.name}) {
        AcyclicExpandsFully(aliases, rank, body, seen + {h.name}, rank(h.name), m);
        return;
      }
    }
    if m != h || (h.Word? && h.name in aliases) {
      AcyclicExpandsFully(aliases, rank, ms[1..], seen, bound, m);
    }
  }
}
