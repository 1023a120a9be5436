/**
 The Go-to-TypeScript half of the contract checker: aliases, field maps, and the
 projection of Go field types.
*/
module WireChecker {
  import opened Wrappers
  import opened TsTypes

  datatype ProblemKind =
    | NullDrift | OptionalDrift | MissingNull | TypeDrift | ArrayDrift | NestedDrift
    | FieldDrift | AliasError | MissingGo | MissingTs | SourceProblem

  datatype Problem = Problem(kind: ProblemKind, at: string)

  type Problems = seq<Problem>

  // Aliases

  /** `_expanded_ts_members`: aliases are replaced by the members of their
      definitions, except one already being expanded. */
  function Expand(members: seq<Member>, aliases: map<string, TsType>, seen: set<string>): seq<Member>
    decreases aliases.Keys - seen, |members|
  {
    if members == [] then []
    else
      var m := members[0];
      (if m.Word? && m.name in aliases && m.name !in seen then
         assert m.name in aliases.Keys - seen;
         Expand(aliases[m.name].Members(), aliases, seen + {m.name})
       else [m])
      + Expand(members[1..], aliases, seen)
  }

  function Expanded(t: TsType, aliases: map<string, TsType>): seq<Member> {
    Expand(t.Members(), aliases, {})
  }

  /** The identifier an alias stands for when its whole definition is one. */
  function IdentifierTarget(t: TsType): Option<string> {
    if !t.lead && t.rest == [] && t.first.Word? && IdentifierStart(t.first.name)
    then Some(t.first.name) else None
  }

  predicate IdentifierStart(s: string) {
    s != [] && ('A' <= s[0] <= 'Z' || 'a' <= s[0] <= 'z' || s[0] == '_')
  }

  /** `_ts_reference_name` as a function; `None` is its "cyclic alias" error. */
  function Reference(name: string, aliases: map<string, TsType>, seen: set<string>): Option<string>
    decreases aliases.Keys - seen
  {
    if name !in aliases then Some(name)
    else if name in seen then None
    else
      match IdentifierTarget(aliases[name])
      case None => Some(name)
      case Some(target) =>
        assert name in aliases.Keys - seen;
        Reference(target, aliases, seen + {name})
  }

  /** The source's loop for the same. */
  method TsReferenceName(name: string, aliases: map<string, TsType>) returns (r: Option<string>)
    ensures r == Reference(name, aliases, {})
  {
    var seen: set<string> := {};
    var current := name;
    while current in aliases
      invariant Reference(current, aliases, seen) == Reference(name, aliases, {})
      decreases aliases.Keys - seen
    {
      if current in seen {
        return None;
      }
      assert current in aliases.Keys - seen;
      var target := IdentifierTarget(aliases[current]);
      if target == None {
        break;
      }
      seen := seen + {current};
      current := target.value;
    }
    return Some(current);
  }

  // Field maps

  /** The fields of an inline object type, or `None` when a name repeats. */
  function BranchFields(fields: seq<ObjectField>): Option<FieldMap> {
    if fields == [] then Some(map[])
    else
      var last := fields[|fields| - 1];
      match BranchFields(fields[..|fields| - 1])
      case None => None
      case Some(m) => if last.name in m then None else Some(m[last.name := last.ty])
  }

  function Branches(members: seq<Member>): Option<seq<FieldMap>> {
    if members == [] then Some([])
    else if !members[0].Object? then None
    else
      match (BranchFields(members[0].fields), Branches(members[1..]))
      case (Some(b), Some(bs)) => Some([b] + bs)
      case _ => None
  }

  function AddNew(values: seq<Member>, more: seq<Member>): seq<Member>
    decreases more
  {
    if more == [] then values
    else AddNew(if more[0] in values then values else values + [more[0]], more[1..])
  }

  /** The members a key can have in some branch; an optional `never` adds none. */
  function MergedValues(key: string, branches: seq<FieldMap>, values: seq<Member>): seq<Member> {
    if branches == [] then values
    else
      var b := branches[0];
      var values' :=
        if key !in b || (b[key].optional && b[key].ty == Single(Word("never"))) then values
        else AddNew(values, b[key].ty.Members());
      MergedValues(key, branches[1..], values')
  }

  predicate MergedOptional(key: string, branches: seq<FieldMap>) {
    exists i :: 0 <= i < |branches| && (key in branches[i] ==> branches[i][key].optional)
  }

  function AllKeys(branches: seq<FieldMap>): set<string> {
    set i, k | 0 <= i < |branches| && k in branches[i] :: k
  }

  /** The merged field map of an object-only union, or `None` when some key has
      no wire value. */
  function Merge(branches: seq<FieldMap>): Option<FieldMap> {
    if exists k :: k in AllKeys(branches) && MergedValues(k, branches, []) == [] then None
    else
      Some(map k | k in AllKeys(branches) ::
             var v := MergedValues(k, branches, []);
             if v == [] then TsField(false, Single(Blank))
             else TsField(MergedOptional(k, branches), Union(false, v[0], v[1..])))
  }

  /** `_ts_fields`: an error, nothing declared, or the fields behind a name. */
  function TsFields(name: string, ts: TsSource): Result<Option<FieldMap>, string> {
    match Reference(name, ts.aliases, {})
    case None => Err("cyclic alias")
    case Some(n) =>
      if n in ts.interfaces then Ok(Some(ts.interfaces[n]))
      else if n !in ts.aliases then Ok(None)
      else
        match Branches(ts.aliases[n].Members())
        case None => Err("unsupported object alias")
        case Some(bs) =>
          match Merge(bs)
          case None => Err("alias field has no wire value")
          case Some(f) => Ok(Some(f))
  }

  // Projection of one Go type

  predicate StringLike(m: Member, aliases: map<string, TsType>, seen: set<string>)
    decreases aliases.Keys - seen
  {
    match m
    case Quoted(q, _) => q == '"' || q == '\''
    case Word(w) =>
      || w == "string"
      || (w !in seen && w in aliases &&
          assert w in aliases.Keys - seen;
          forall i :: 0 <= i < |aliases[w].Members()| ==>
            StringLike(aliases[w].Members()[i], aliases, seen + {w}))
    case _ => false
  }

  predicate NumberLike(m: Member) { m == Word("number") || m.Numeral? }

  predicate BooleanLike(m: Member) { m.Word? && m.name in {"boolean", "true", "false"} }

  predicate ArrayMember(m: Member) { m.Suffix? || m.Generic? }

  function ArrayElem(m: Member): TsType
    requires ArrayMember(m)
  {
    if m.Suffix? then Single(m.elem) else m.elems
  }

  /** The member list without `null` and `undefined`. */
  function Relevant(ms: seq<Member>): (r: seq<Member>)
    ensures forall m :: m in r <==> m in ms && m != NULL && m != UNDEFINED
  {
    if ms == [] then []
    else (if ms[0] == NULL || ms[0] == UNDEFINED then [] else [ms[0]]) + Relevant(ms[1..])
  }

  datatype Context = Context(nested: map<string, string>, stringTypes: set<string>, aliases: map<string, TsType>)

  predicate Scalar(ctx: Context, bare: GoType) {
    bare.Named? && (Projection(bare).Some? || bare.short in ctx.stringTypes)
  }

  predicate Collection(bare: GoType) { bare.Slice? || bare.Map? }

  function If(cond: bool, kind: ProblemKind, at: string): Problems {
    if cond then [Problem(kind, at)] else []
  }

  /** The members `check_projection` looks at below its null tests. */
  function Looked(ctx: Context, go: GoType, ts: TsType): seq<Member> {
    Relevant(if Scalar(ctx, Bare(go)) || Collection(Bare(go)) then Expanded(ts, ctx.aliases) else ts.Members())
  }

  function CheckProjection(ctx: Context, at: string, go: GoType, ts: TsType,
                           allowUndefined: bool, requireNull: bool): Problems
    decreases go, 1, 0
  {
    var bare := Bare(go);
    var expanded := Expanded(ts, ctx.aliases);
    var nullable := go.Pointer? || Collection(bare);
    var relevant := Looked(ctx, go, ts);
    var errors :=
      If(NULL in expanded && !nullable, NullDrift, at)
      + If(UNDEFINED in expanded && !allowUndefined, OptionalDrift, at)
      + If(requireNull && NULL !in expanded, MissingNull, at);
    if relevant == [] || Blank in relevant then errors + [Problem(TypeDrift, at)]
    else if bare.Slice? then errors + CheckElements(ctx, at, bare, relevant)
    else if bare.Map? then errors + CheckValues(ctx, at, bare, relevant)
    else errors + CheckNamed(ctx, at, bare, relevant)
  }

  /** Each array member against the element type.  A container's right to be
      absent or null does not flow down to its elements. */
  function CheckElements(ctx: Context, at: string, bare: GoType, members: seq<Member>): Problems
    requires bare.Slice?
    decreases bare, 0, |members|
  {
    if members == [] then []
    else
      var m := members[0];
      (if !ArrayMember(m) then [Problem(ArrayDrift, at)]
       else CheckProjection(ctx, at + "[]", bare.elem, ArrayElem(m), false, bare.elem.Pointer?))
      + CheckElements(ctx, at, bare, members[1..])
  }

  function CheckValues(ctx: Context, at: string, bare: GoType, members: seq<Member>): Problems
    requires bare.Map?
    decreases bare, 0, |members|
  {
    if members == [] then []
    else
      var m := members[0];
      (if !m.Record? then [Problem(TypeDrift, at)]
       else CheckProjection(ctx, at + "{}", bare.value, m.value, false, bare.value.Pointer?))
      + CheckValues(ctx, at, bare, members[1..])
  }

  /** Whether every member names the expected interface, through aliases. */
  predicate Refers(ctx: Context, expected: string, members: seq<Member>) {
    var target := Reference(expected, ctx.aliases, {});
    && target.Some?
    && forall m :: m in members ==> m.Word? && Reference(m.name, ctx.aliases, {}) == target
  }

  function CheckNamed(ctx: Context, at: string, bare: GoType, members: seq<Member>): Problems
    requires bare.Named?
  {
    match Projection(bare)
    case Some(NumberKind) => If(exists m :: m in members && !NumberLike(m), TypeDrift, at)
    case Some(BooleanKind) => If(exists m :: m in members && !BooleanLike(m), TypeDrift, at)
    case Some(StringKind) => If(exists m :: m in members && !StringLike(m, ctx.aliases, {}), TypeDrift, at)
    case None =>
      if bare.short in ctx.stringTypes then
        If(exists m :: m in members && !StringLike(m, ctx.aliases, {}), TypeDrift, at)
      else if bare.short in ctx.nested then
        If(!Refers(ctx, ctx.nested[bare.short], members), NestedDrift, at)
      else []
  }

  // Structs and pairs

  function CompareField(ctx: Context, at: string, g: GoField, t: TsField): Problems {
    var members := Expanded(t.ty, ctx.aliases);
    var hasNull := NULL in members;
    var pointer := g.ty.Pointer?;
    var plain := !pointer && !g.ty.Slice? && !g.ty.Map?;
    If(pointer && !g.omitempty && !hasNull, MissingNull, at)
    + If(g.omitempty && !t.optional, OptionalDrift, at)
    + If(!g.omitempty && (t.optional || UNDEFINED in members), OptionalDrift, at)
    + If(plain && hasNull, NullDrift, at)
    + CheckProjection(ctx, at, g.ty, t.ty, g.omitempty && t.optional, pointer && !g.omitempty)
  }

  /** One struct against one field map; `order` is the sorted list of shared
      names. */
  function StructErrors(ctx: Context, at: string, go: GoStruct, ts: FieldMap, order: seq<string>): Problems
    requires forall i :: 0 <= i < |order| ==> order[i] in go && order[i] in ts
  {
    If(go.Keys != ts.Keys, FieldDrift, at) + FieldErrors(ctx, at, go, ts, order)
  }

  function FieldErrors(ctx: Context, at: string, go: GoStruct, ts: FieldMap, order: seq<string>): Problems
    requires forall i :: 0 <= i < |order| ==> order[i] in go && order[i] in ts
  {
    if order == [] then []
    else
      var init, n := order[..|order| - 1], order[|order| - 1];
      FieldErrors(ctx, at, go, ts, init) + CompareField(ctx, at + "." + n, go[n], ts[n])
  }

  predicate Enumerates(xs: seq<string>, s: set<string>) {
    && (forall i :: 0 <= i < |xs| ==> xs[i] in s)
    && (forall x :: x in s ==> x in xs)
  }

  datatype World = World(go: GoSource, ts: TsSource, pairs: map<string, string>, nested: map<string, string>) {
    function Ctx(): Context { Context(nested, go.stringTypes, ts.aliases) }
  }

  /** The order in which a struct's shared fields are visited: any enumeration
      of them, a parameter because sorting names is not modelled. */
  type FieldOrder = string -> seq<string>

  ghost predicate OrdersFields(w: World, order: FieldOrder) {
    forall n :: n in w.pairs && n in w.go.structs ==>
      match TsFields(w.pairs[n], w.ts)
      case Ok(Some(f)) => Enumerates(order(n), w.go.structs[n].Keys * f.Keys)
      case _ => true
  }

  ghost function PairErrors(w: World, order: FieldOrder, name: string): Problems
    requires name in w.pairs && OrdersFields(w, order)
  {
    var target := w.pairs[name];
    match TsFields(target, w.ts)
    case Err(_) => [Problem(AliasError, target)]
    case Ok(fields) =>
      if name !in w.go.structs then [Problem(MissingGo, name)]
      else if fields == None then [Problem(MissingTs, target)]
      else StructErrors(w.Ctx(), name + "->" + target, w.go.structs[name], fields.value, order(name))
  }

  ghost function AllPairErrors(w: World, order: FieldOrder, names: seq<string>): Problems
    requires OrdersFields(w, order) && forall i :: 0 <= i < |names| ==> names[i] in w.pairs
  {
    if names == [] then []
    else AllPairErrors(w, order, names[..|names| - 1]) + PairErrors(w, order, names[|names| - 1])
  }

  method CompareStruct(ctx: Context, at: string, go: GoStruct, ts: FieldMap, order: seq<string>)
    returns (errors: Problems)
    requires Enumerates(order, go.Keys * ts.Keys)
    ensures errors == StructErrors(ctx, at, go, ts, order)
  {
    hide CompareField;
    errors := [];
    if go.Keys != ts.Keys {
      errors := errors + [Problem(FieldDrift, at)];
    }
    for i := 0 to |order|
      invariant errors == If(go.Keys != ts.Keys, FieldDrift, at) + FieldErrors(ctx, at, go, ts, order[..i])
    {
      var n := order[i];
      assert order[..i + 1][..i] == order[..i];
      assert order[..i + 1][i] == n;
      errors := errors + CompareField(ctx, at + "." + n, go[n], ts[n]);
    }
    assert order[..|order|] == order;
  }

  /** A pair table nothing was reported about. */
  ghost predicate Clean(w: World) {
    exists order: FieldOrder, names ::
      OrdersFields(w, order) && Enumerates(names, w.pairs.Keys) && AllPairErrors(w, order, names) == []
  }

  predicate PairAgrees(w: World, name: string, fields: FieldMap) {
    && name in w.pairs && name in w.go.structs
    && TsFields(w.pairs[name], w.ts) == Ok(Some(fields))
    && w.go.structs[name].Keys == fields.Keys
    && forall n :: n in fields ==>
         CompareField(w.Ctx(), name + "->" + w.pairs[name] + "." + n, w.go.structs[name][n], fields[n]) == []
  }

  lemma {:induction false} FieldErrorsEmpty(ctx: Context, at: string, go: GoStruct, ts: FieldMap,
                                            order: seq<string>, n: string)
    requires forall i :: 0 <= i < |order| ==> order[i] in go && order[i] in ts
    requires FieldErrors(ctx, at, go, ts, order) == [] && n in order
    ensures CompareField(ctx, at + "." + n, go[n], ts[n]) == []
    decreases |order|
  {
    hide CompareField;
    if order[|order| - 1] != n {
      FieldErrorsEmpty(ctx, at, go, ts, order[..|order| - 1], n);
    }
  }

  lemma {:induction false} AllPairErrorsEmpty(w: World, order: FieldOrder, names: seq<string>, name: string)
    requires OrdersFields(w, order) && forall i :: 0 <= i < |names| ==> names[i] in w.pairs
    requires AllPairErrors(w, order, names) == [] && name in names
    ensures PairErrors(w, order, name) == []
    decreases |names|
  {
    hide PairErrors, OrdersFields;
    if names[|names| - 1] != name {
      AllPairErrorsEmpty(w, order, names[..|names| - 1], name);
    }
  }

  lemma StructErrorsEmpty(ctx: Context, at: string, go: GoStruct, ts: FieldMap, order: seq<string>)
    requires Enumerates(order, go.Keys * ts.Keys) && StructErrors(ctx, at, go, ts, order) == []
    ensures go.Keys == ts.Keys
    ensures forall n :: n in ts ==> CompareField(ctx, at + "." + n, go[n], ts[n]) == []
  {
    hide CompareField;
    forall n | n in ts ensures CompareField(ctx, at + "." + n, go[n], ts[n]) == [] {
      assert n in order;
      FieldErrorsEmpty(ctx, at, go, ts, order, n);
    }
  }

  lemma {:induction false} NoFieldErrors(ctx: Context, at: string, go: GoStruct, ts: FieldMap, order: seq<string>)
    requires forall i :: 0 <= i < |order| ==> order[i] in go && order[i] in ts
    requires forall n :: n in ts && n in go ==> CompareField(ctx, at + "." + n, go[n], ts[n]) == []
    ensures FieldErrors(ctx, at, go, ts, order) == []
    decreases |order|
  {
    hide CompareField;
    if order != [] {
      NoFieldErrors(ctx, at, go, ts, order[..|order| - 1]);
    }
  }

  /** Both sources declare the pair, with the same fields, and every field passes. */
  ghost predicate PairPasses(w: World, name: string) { exists fields :: PairAgrees(w, name, fields) }

  lemma PairErrorsMean(w: World, order: FieldOrder, name: string)
    requires name in w.pairs && OrdersFields(w, order)
    ensures PairErrors(w, order, name) == [] <==> PairPasses(w, name)
  {
    hide CompareField, TsFields, FieldErrors;
    var target := w.pairs[name];
    var at := name + "->" + target;
    if PairErrors(w, order, name) == [] {
      var fields := TsFields(target, w.ts).value.value;
      StructErrorsEmpty(w.Ctx(), at, w.go.structs[name], fields, order(name));
      assert PairAgrees(w, name, fields);
    }
    if PairPasses(w, name) {
      var fields :| PairAgrees(w, name, fields);
      NoFieldErrors(w.Ctx(), at, w.go.structs[name], fields, order(name));
    }
  }

  /** One round of `check_pairs`; nothing is reported exactly when the pair agrees. */
  method CheckPair(w: World, order: FieldOrder, name: string) returns (errors: Problems)
    requires name in w.pairs && OrdersFields(w, order)
    ensures errors == PairErrors(w, order, name)
    ensures errors == [] <==> PairPasses(w, name)
  {
    hide CompareField, StructErrors;
    PairErrorsMean(w, order, name);
    var target := w.pairs[name];
    var fields := TsFields(target, w.ts);
    if fields.Err? {
      return [Problem(AliasError, target)];
    }
    if name !in w.go.structs {
      return [Problem(MissingGo, name)];
    }
    if fields.value == None {
      return [Problem(MissingTs, target)];
    }
    errors := CompareStruct(w.Ctx(), name + "->" + target, w.go.structs[name], fields.value.value, order(name));
  }

  /** `check_pairs`: `problems` are those of merging the sources, `names` the
      order of the pair table. */
  method CheckPairs(w: World, order: FieldOrder, problems: Problems, names: seq<string>) returns (errors: Problems)
    requires OrdersFields(w, order) && Enumerates(names, w.pairs.Keys)
    ensures errors == problems + AllPairErrors(w, order, names)
    ensures errors == [] <==> problems == [] && forall name :: name in w.pairs ==> PairPasses(w, name)
    ensures errors == [] ==> Clean(w)
  {
    hide PairErrors, OrdersFields, PairPasses;
    errors := problems;
    for i := 0 to |names|
      invariant errors == problems + AllPairErrors(w, order, names[..i])
      invariant errors == [] <==> problems == [] && forall k :: 0 <= k < i ==> PairPasses(w, names[k])
    {
      ghost var done := names[..i + 1];
      assert done[..i] == names[..i] && done[i] == names[i];
      var more := CheckPair(w, order, names[i]);
      errors := errors + more;
    }
    assert names[..|names|] == names;
  }

  /** A clean table has, for every pair, a field map agreeing field by field. */
  lemma CleanPair(w: World, name: string) returns (fields: FieldMap)
    requires Clean(w) && name in w.pairs
    ensures PairAgrees(w, name, fields)
  {
    hide PairErrors, PairAgrees, OrdersFields;
    var order: FieldOrder, names :|
      OrdersFields(w, order) && Enumerates(names, w.pairs.Keys) && AllPairErrors(w, order, names) == [];
    AllPairErrorsEmpty(w, order, names, name);
    PairErrorsMean(w, order, name);
    fields :| PairAgrees(w, name, fields);
  }

  /** Some list of a finite set. */
  ghost function ListOf(s: set<string>): (r: seq<string>)
    ensures Enumerates(r, s) && forall i, k :: 0 <= i < k < |r| ==> r[i] != r[k]
  {
    if s == {} then []
    else
      var x :| x in s;
      [x] + ListOf(s - {x})
  }

  /** A table whose every pair passes is clean. */
  lemma AllPassIsClean(w: World)
    requires forall name :: name in w.pairs ==> PairPasses(w, name)
    ensures Clean(w)
  {
    hide PairPasses, PairErrors, TsFields;
    var order: FieldOrder := n => SharedNames(w, n);
    var names := ListOf(w.pairs.Keys);
    AllPairsPass(w, order, names);
  }

  ghost function SharedNames(w: World, name: string): seq<string> {
    if name !in w.pairs || name !in w.go.structs then []
    else
      match TsFields(w.pairs[name], w.ts)
      case Ok(Some(f)) => ListOf(w.go.structs[name].Keys * f.Keys)
      case _ => []
  }

  lemma {:induction false} AllPairsPass(w: World, order: FieldOrder, names: seq<string>)
    requires OrdersFields(w, order) && forall i :: 0 <= i < |names| ==> names[i] in w.pairs && PairPasses(w, names[i])
    ensures AllPairErrors(w, order, names) == []
    decreases |names|
  {
    hide PairPasses, PairErrors, OrdersFields;
    if names != [] {
      var n := |names| - 1;
      AllPairsPass(w, order, names[..n]);
      PairErrorsMean(w, order, names[n]);
    }
  }
}
