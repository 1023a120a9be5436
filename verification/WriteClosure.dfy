/**
 The write closure of the transaction inventory: which functions reach a direct
 SQL writer through calls matched by name, grown in place sweep by sweep.
*/
module WriteClosure {

  /** `direct` says that one of the function's strings is a mutation. */
  datatype Func = Func(id: string, name: string, calls: seq<string>, direct: bool)

  /** Some function with id `a` calls a name some function with id `b` has. */
  predicate Calls(funcs: seq<Func>, a: string, b: string) {
    exists i, k :: 0 <= i < |funcs| && 0 <= k < |funcs|
      && funcs[i].id == a && funcs[k].id == b && funcs[k].name in funcs[i].calls
  }

  predicate Direct(funcs: seq<Func>, id: string) {
    exists i :: 0 <= i < |funcs| && funcs[i].id == id && funcs[i].direct
  }

  type Relation = (string, string) -> bool

  /** A chain of related ids from `path[0]` to a direct writer. */
  predicate LeadsToWriter(funcs: seq<Func>, related: Relation, path: seq<string>) {
    && path != [] && Direct(funcs, path[|path| - 1])
    && forall i :: 0 <= i < |path| - 1 ==> related(path[i], path[i + 1])
  }

  ghost predicate Reaches(funcs: seq<Func>, related: Relation, id: string) {
    exists path :: LeadsToWriter(funcs, related, path) && path[0] == id
  }

  function NameMatch(funcs: seq<Func>): Relation { (a, b) => Calls(funcs, a, b) }

  /** One call of `f` reaches the set. */
  predicate CallsInto(funcs: seq<Func>, f: Func, writes: set<string>) {
    exists k :: 0 <= k < |funcs| && funcs[k].name in f.calls && funcs[k].id in writes
  }

  lemma ReachesDirect(funcs: seq<Func>, related: Relation, id: string)
    requires Direct(funcs, id)
    ensures Reaches(funcs, related, id)
  {
    assert LeadsToWriter(funcs, related, [id]);
  }

  lemma ReachesStep(funcs: seq<Func>, related: Relation, a: string, b: string)
    requires related(a, b) && Reaches(funcs, related, b)
    ensures Reaches(funcs, related, a)
  {
    var path :| LeadsToWriter(funcs, related, path) && path[0] == b;
    var longer := [a] + path;
    assert forall i :: 0 < i < |longer| ==> longer[i] == path[i - 1];
    assert LeadsToWriter(funcs, related, longer);
  }

  /** A set holding every direct writer and closed under callers holds every
      function that reaches a writer. */
  lemma {:induction false} ClosedContains(funcs: seq<Func>, related: Relation, writes: set<string>, path: seq<string>)
    requires forall id :: Direct(funcs, id) ==> id in writes
    requires forall a, b :: related(a, b) && b in writes ==> a in writes
    requires LeadsToWriter(funcs, related, path)
    ensures path[0] in writes
    decreases path
  {
    if |path| > 1 {
      var rest := path[1..];
      assert forall i :: 0 <= i < |rest| ==> rest[i] == path[i + 1];
      ClosedContains(funcs, related, writes, rest);
      assert related(path[0], path[1]);
    }
  }

  /** Nothing left to add. */
  predicate Stable(funcs: seq<Func>, writes: set<string>) {
    forall i :: 0 <= i < |funcs| && CallsInto(funcs, funcs[i], writes) ==> funcs[i].id in writes
  }

  /** Only ids that reach a writer, and every direct writer. */
  ghost predicate Sound(funcs: seq<Func>, writes: set<string>) {
    && (forall id :: Direct(funcs, id) ==> id in writes)
    && (forall id :: id in writes ==> Reaches(funcs, NameMatch(funcs), id))
  }

  function Ids(funcs: seq<Func>): set<string> { set i | 0 <= i < |funcs| :: funcs[i].id }

  /** One pass over the list, adding to the set while it is being consulted. */
  method Sweep(funcs: seq<Func>, start: set<string>) returns (writes: set<string>, changed: bool)
    requires Sound(funcs, start) && start <= Ids(funcs)
    ensures Sound(funcs, writes) && start <= writes <= Ids(funcs)
    ensures if changed then start < writes else writes == start && Stable(funcs, writes)
  {
    hide Reaches, Direct, CallsInto;
    writes, changed := start, false;
    for i := 0 to |funcs|
      invariant start <= writes <= Ids(funcs) && Sound(funcs, writes)
      invariant if changed then start < writes else writes == start
      invariant !changed ==> forall k :: 0 <= k < i && CallsInto(funcs, funcs[k], writes) ==> funcs[k].id in writes
    {
      var f := funcs[i];
      if f.id !in writes && CallsInto(funcs, f, writes) {
        CalleeReaches(funcs, i, writes);
        writes := writes + {f.id};
        changed := true;
      }
    }
  }

  /** `classify`: exactly the ids that reach a direct writer. */
  method Classify(funcs: seq<Func>) returns (writes: set<string>)
    ensures forall id :: id in writes <==> Reaches(funcs, NameMatch(funcs), id)
  {
    hide Reaches, CallsInto, Stable;
    writes := set i | 0 <= i < |funcs| && funcs[i].direct :: funcs[i].id;
    forall id | id in writes ensures Reaches(funcs, NameMatch(funcs), id) {
      ReachesDirect(funcs, NameMatch(funcs), id);
    }
    var changed := true;
    while changed
      invariant writes <= Ids(funcs) && Sound(funcs, writes)
      invariant !changed ==> Stable(funcs, writes)
      decreases |Ids(funcs) - writes|, changed
    {
      ghost var start := writes;
      writes, changed := Sweep(funcs, writes);
      if changed { Shrinks(Ids(funcs), start, writes); }
    }
    forall id | Reaches(funcs, NameMatch(funcs), id) ensures id in writes {
      StableIsComplete(funcs, writes, id);
    }
  }

  lemma CallerIsIn(funcs: seq<Func>, writes: set<string>, a: string, b: string)
    requires Stable(funcs, writes) && Calls(funcs, a, b) && b in writes
    ensures a in writes
  {
    var i, k :| 0 <= i < |funcs| && 0 <= k < |funcs|
      && funcs[i].id == a && funcs[k].id == b && funcs[k].name in funcs[i].calls;
    assert CallsInto(funcs, funcs[i], writes);
  }

  lemma StableIsComplete(funcs: seq<Func>, writes: set<string>, id: string)
    requires Sound(funcs, writes) && Stable(funcs, writes) && Reaches(funcs, NameMatch(funcs), id)
    ensures id in writes
  {
    hide Stable, Direct, Calls;
    var path :| LeadsToWriter(funcs, NameMatch(funcs), path) && path[0] == id;
    forall a, b | NameMatch(funcs)(a, b) && b in writes ensures a in writes {
      CallerIsIn(funcs, writes, a, b);
    }
    ClosedContains(funcs, NameMatch(funcs), writes, path);
  }

  lemma CalleeReaches(funcs: seq<Func>, i: nat, writes: set<string>)
    requires i < |funcs| && CallsInto(funcs, funcs[i], writes)
    requires forall id :: id in writes ==> Reaches(funcs, NameMatch(funcs), id)
    ensures Reaches(funcs, NameMatch(funcs), funcs[i].id)
  {
    var k :| 0 <= k < |funcs| && funcs[k].name in funcs[i].calls && funcs[k].id in writes;
    assert NameMatch(funcs)(funcs[i].id, funcs[k].id);
    ReachesStep(funcs, NameMatch(funcs), funcs[i].id, funcs[k].id);
  }

  lemma Shrinks(ids: set<string>, a: set<string>, b: set<string>)
    requires a < b <= ids
    ensures |ids - b| < |ids - a|
  {
    var x :| x in b && x !in a;
    assert ids - a == (ids - b) + (b - a);
    assert x in b - a;
  }

  /** More functions only reach more. */
  lemma MoreReach(funcs: seq<Func>, other: seq<Func>, id: string)
    requires (forall f :: f in funcs ==> f in other) && Reaches(funcs, NameMatch(funcs), id)
    ensures Reaches(other, NameMatch(other), id)
  {
    var path :| LeadsToWriter(funcs, NameMatch(funcs), path) && path[0] == id;
    var last := path[|path| - 1];
    var d :| 0 <= d < |funcs| && funcs[d].id == last && funcs[d].direct;
    var d' := Index(other, funcs[d]);
    forall i | 0 <= i < |path| - 1 ensures Calls(other, path[i], path[i + 1]) {
      assert NameMatch(funcs)(path[i], path[i + 1]);
      var p, q :| 0 <= p < |funcs| && 0 <= q < |funcs|
        && funcs[p].id == path[i] && funcs[q].id == path[i + 1] && funcs[q].name in funcs[p].calls;
      var p', q' := Index(other, funcs[p]), Index(other, funcs[q]);
    }
    assert LeadsToWriter(other, NameMatch(other), path);
  }

  /** The order and multiplicity of the inventory do not matter. */
  lemma OrderDoesNotMatter(funcs: seq<Func>, other: seq<Func>, id: string)
    requires forall f :: f in funcs <==> f in other
    ensures Reaches(funcs, NameMatch(funcs), id) <==> Reaches(other, NameMatch(other), id)
  {
    hide Reaches;
    if Reaches(funcs, NameMatch(funcs), id) { MoreReach(funcs, other, id); }
    if Reaches(other, NameMatch(other), id) { MoreReach(other, funcs, id); }
  }

  function Index(funcs: seq<Func>, f: Func): (i: nat)
    requires f in funcs
    ensures i < |funcs| && funcs[i] == f
  {
    if funcs[0] == f then 0 else 1 + Index(funcs[1..], f)
  }

  /** Name matching only over-approximates: whatever calls really resolve to, a
      function reaching a writer through them is in the closure. */
  lemma {:induction false} ContainsResolvedClosure(funcs: seq<Func>, resolved: Relation, id: string)
    requires forall a, b :: resolved(a, b) ==> Calls(funcs, a, b)
    requires Reaches(funcs, resolved, id)
    ensures Reaches(funcs, NameMatch(funcs), id)
  {
    var path :| LeadsToWriter(funcs, resolved, path) && path[0] == id;
    assert LeadsToWriter(funcs, NameMatch(funcs), path);
  }
}
