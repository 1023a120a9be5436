/**
 The two worklist walks over a decoded JSON value: the nesting limit and the
 deny-list of names.
*/
module JsonWalks {

  datatype Value =
    | Atom
    | Array(items: seq<Value>)
    | Object(members: seq<Member>)

  datatype Member = Member(key: string, value: Value)

  const MAX_NESTING := 64

  /** What the walks push for a node, in order. */
  function Children(v: Value): (r: seq<Value>)
    ensures forall i :: 0 <= i < |r| ==> r[i] < v
  {
    match v
    case Atom => []
    case Array(items) => items
    case Object(ms) => seq(|ms|, i requires 0 <= i < |ms| => ms[i].value)
  }

  // Nesting

  /** No value lies more than `room` levels below `v`. */
  predicate NestsWithin(v: Value, room: int)
    decreases v
  {
    room >= 0 && forall i :: 0 <= i < |Children(v)| ==> NestsWithin(Children(v)[i], room - 1)
  }

  function Size(v: Value): nat
    decreases v, 1
  {
    1 + Sizes(v, |Children(v)|)
  }

  /** The first `n` children together. */
  function Sizes(v: Value, n: nat): nat
    requires n <= |Children(v)|
    decreases v, 0, n
  {
    if n == 0 then 0 else Sizes(v, n - 1) + Size(Children(v)[n - 1])
  }

  function Total(pending: seq<(Value, nat)>): nat {
    if pending == [] then 0 else Total(pending[..|pending| - 1]) + Size(pending[|pending| - 1].0)
  }

  /** The children of a node, one level further down. */
  function Below(v: Value, depth: nat): (r: seq<(Value, nat)>)
    ensures |r| == |Children(v)| && forall i :: 0 <= i < |r| ==> r[i] == (Children(v)[i], depth + 1)
  {
    seq(|Children(v)|, i requires 0 <= i < |Children(v)| => (Children(v)[i], depth + 1))
  }

  lemma TotalAppend(rest: seq<(Value, nat)>, v: Value, depth: nat)
    ensures Total(rest + [(v, depth)]) == Total(rest) + Size(v)
  {
    hide Size;
    assert (rest + [(v, depth)])[..|rest|] == rest;
  }

  lemma {:induction false} TotalBelow(rest: seq<(Value, nat)>, v: Value, depth: nat, n: nat)
    requires n <= |Children(v)|
    ensures Total(rest + Below(v, depth)[..n]) == Total(rest) + Sizes(v, n)
    decreases n
  {
    hide Total, Size, Children, Below;
    if n == 0 {
      assert rest + Below(v, depth)[..0] == rest;
    } else {
      TotalBelow(rest, v, depth, n - 1);
      TotalAppend(rest + Below(v, depth)[..n - 1], Children(v)[n - 1], depth + 1);
      assert rest + Below(v, depth)[..n] == rest + Below(v, depth)[..n - 1] + [(Children(v)[n - 1], depth + 1)];
    }
  }

  lemma TotalShrinks(rest: seq<(Value, nat)>, node: Value, depth: nat)
    ensures Total(rest + Below(node, depth)) < Total(rest + [(node, depth)])
  {
    hide Total, Children, Below;
    TotalAppend(rest, node, depth);
    TotalBelow(rest, node, depth, |Children(node)|);
    assert Below(node, depth)[..|Children(node)|] == Below(node, depth);
  }

  predicate AllNestWithin(pending: seq<(Value, nat)>) {
    forall i :: 0 <= i < |pending| ==> NestsWithin(pending[i].0, MAX_NESTING - pending[i].1)
  }

  /** The loop of `strict_json`: the stack decides like the recursion. */
  method CheckNesting(v: Value) returns (ok: bool)
    ensures ok <==> NestsWithin(v, 64)
  {
    hide Total, Below, Children, NestsWithin;
    var pending: seq<(Value, nat)> := [(v, 0)];
    assert pending[0] == (v, 0) && MAX_NESTING - 0 == MAX_NESTING;
    while pending != []
      invariant NestsWithin(v, MAX_NESTING) <==> AllNestWithin(pending)
      decreases Total(pending)
    {
      var n := |pending| - 1;
      var (node, depth) := pending[n];
      var rest := pending[..n];
      if depth > MAX_NESTING {
        NoRoom(pending[n].0, MAX_NESTING - pending[n].1);
        return false;
      }
      assert pending == rest + [(node, depth)];
      PushKeeps(rest, node, depth);
      TotalShrinks(rest, node, depth);
      pending := rest + Below(node, depth);
    }
    return true;
  }

  lemma NoRoom(v: Value, room: int)
    requires room < 0
    ensures !NestsWithin(v, room)
  {
  }

  /** A node within the limit can be traded for its children. */
  lemma PushKeeps(rest: seq<(Value, nat)>, node: Value, depth: nat)
    requires depth <= MAX_NESTING
    ensures AllNestWithin(rest + [(node, depth)]) <==> AllNestWithin(rest + Below(node, depth))
  {
    hide Children;
    var before, below := rest + [(node, depth)], Below(node, depth);
    var after := rest + below;
    assert before[|rest|] == (node, depth);
    if AllNestWithin(before) {
      forall i | 0 <= i < |after| ensures NestsWithin(after[i].0, MAX_NESTING - after[i].1) {
        if i < |rest| {
          assert before[i] == after[i];
        } else {
          assert NestsWithin(Children(node)[i - |rest|], MAX_NESTING - depth - 1);
        }
      }
    }
    if AllNestWithin(after) {
      forall i | 0 <= i < |Children(node)| ensures NestsWithin(Children(node)[i], MAX_NESTING - depth - 1) {
        assert after[|rest| + i] == (Children(node)[i], depth + 1);
      }
      forall i | 0 <= i < |rest| ensures NestsWithin(before[i].0, MAX_NESTING - before[i].1) {
        assert after[i] == before[i];
      }
    }
  }

  /** Going down one path: a value with a chain of nested values longer than the
      limit is refused. */
  lemma {:induction false} ChainTooDeep(v: Value, path: seq<nat>, room: int)
    requires Leads(v, path) && |path| > room
    ensures !NestsWithin(v, room)
    decreases path
  {
    if path != [] && room >= 0 {
      ChainTooDeep(Children(v)[path[0]], path[1..], room - 1);
    }
  }

  /** `path` picks one child after another. */
  predicate Leads(v: Value, path: seq<nat>)
    decreases path
  {
    path == [] || (path[0] < |Children(v)| && Leads(Children(v)[path[0]], path[1..]))
  }

  /** And only such a value is. */
  lemma {:induction false} DeepChain(v: Value, room: int) returns (path: seq<nat>)
    requires !NestsWithin(v, room)
    ensures Leads(v, path) && |path| > room
    decreases v
  {
    if room < 0 {
      path := [];
    } else {
      var i :| 0 <= i < |Children(v)| && !NestsWithin(Children(v)[i], room - 1);
      var below := DeepChain(Children(v)[i], room - 1);
      path := [i] + below;
      assert path[1..] == below;
    }
  }

  // Forbidden fields

  /** The forbidden names of a value, each as often as it occurs at any depth. */
  function Secrets(v: Value, forbidden: string -> bool): multiset<string>
    decreases v, 1
  {
    Keys(v, forbidden) + SecretsBelow(v, |Children(v)|, forbidden)
  }

  function Keys(v: Value, forbidden: string -> bool): multiset<string> {
    if v.Object? then KeysOf(v.members, forbidden) else multiset{}
  }

  function KeysOf(ms: seq<Member>, forbidden: string -> bool): multiset<string> {
    if ms == [] then multiset{}
    else
      var n := |ms| - 1;
      KeysOf(ms[..n], forbidden) + if forbidden(ms[n].key) then multiset{ms[n].key} else multiset{}
  }

  function SecretsBelow(v: Value, n: nat, forbidden: string -> bool): multiset<string>
    requires n <= |Children(v)|
    decreases v, 0, n
  {
    if n == 0 then multiset{} else SecretsBelow(v, n - 1, forbidden) + Secrets(Children(v)[n - 1], forbidden)
  }

  /** What a stack of values still holds. */
  function Held(pending: seq<Value>, forbidden: string -> bool): multiset<string> {
    if pending == [] then multiset{}
    else Held(pending[..|pending| - 1], forbidden) + Secrets(pending[|pending| - 1], forbidden)
  }

  function Weight(pending: seq<Value>): nat {
    if pending == [] then 0 else Weight(pending[..|pending| - 1]) + Size(pending[|pending| - 1])
  }

  lemma HeldAppend(rest: seq<Value>, v: Value, forbidden: string -> bool)
    ensures Held(rest + [v], forbidden) == Held(rest, forbidden) + Secrets(v, forbidden)
    ensures Weight(rest + [v]) == Weight(rest) + Size(v)
  {
    assert (rest + [v])[..|rest|] == rest;
  }

  lemma {:induction false} HeldBelow(rest: seq<Value>, v: Value, n: nat, forbidden: string -> bool)
    requires n <= |Children(v)|
    ensures Held(rest + Children(v)[..n], forbidden) == Held(rest, forbidden) + SecretsBelow(v, n, forbidden)
    ensures Weight(rest + Children(v)[..n]) == Weight(rest) + Sizes(v, n)
    decreases n
  {
    hide Held, Weight, Secrets, Size, Children;
    if n == 0 {
      assert rest + Children(v)[..0] == rest;
    } else {
      HeldBelow(rest, v, n - 1, forbidden);
      HeldAppend(rest + Children(v)[..n - 1], Children(v)[n - 1], forbidden);
      assert rest + Children(v)[..n] == rest + Children(v)[..n - 1] + [Children(v)[n - 1]];
    }
  }

  /** Trading the top of the stack for its children loses only its own names. */
  lemma Opened(rest: seq<Value>, node: Value, forbidden: string -> bool)
    ensures Held(rest + [node], forbidden) == Held(rest + Children(node), forbidden) + Keys(node, forbidden)
    ensures Weight(rest + Children(node)) < Weight(rest + [node])
  {
    hide Held, Weight, Children;
    HeldAppend(rest, node, forbidden);
    HeldBelow(rest, node, |Children(node)|, forbidden);
    assert Children(node)[..|Children(node)|] == Children(node);
  }

  /** The loop of `secret_field_errors`: every forbidden name is reported as
      often as it occurs, whatever the stack's order. */
  method SecretFields(v: Value, forbidden: string -> bool) returns (errors: seq<string>)
    ensures multiset(errors) == Secrets(v, forbidden)
  {
    hide Weight, Secrets, Children, KeysOf;
    errors := [];
    var pending := [v];
    assert Held(pending, forbidden) == Secrets(v, forbidden) by {
      assert [] + [v] == pending && Held([], forbidden) == multiset{};
      HeldAppend([], v, forbidden);
    }
    while pending != []
      invariant multiset(errors) + Held(pending, forbidden) == Secrets(v, forbidden)
      decreases Weight(pending)
    {
      var n := |pending| - 1;
      var node := pending[n];
      var rest := pending[..n];
      assert pending == rest + [node];
      Opened(rest, node, forbidden);
      if node.Object? {
        var found := ForbiddenKeys(node.members, forbidden);
        errors := errors + found;
      }
      pending := rest + Children(node);
    }
  }

  method ForbiddenKeys(ms: seq<Member>, forbidden: string -> bool) returns (found: seq<string>)
    ensures multiset(found) == KeysOf(ms, forbidden)
  {
    found := [];
    for i := 0 to |ms|
      invariant multiset(found) == KeysOf(ms[..i], forbidden)
    {
      assert ms[..i + 1][..i] == ms[..i];
      if forbidden(ms[i].key) {
        found := found + [ms[i].key];
      }
    }
    assert ms[..|ms|] == ms;
  }
}
