/**
 The worklist walks over JSON values against what lies where in a value.
*/
module JsonLaws {
  import opened Wrappers
  import opened JsonWalks
  import opened WalkLaws

  /** `x` lies `n` levels below `v`. */
  predicate Lies(v: Value, x: Value, n: nat)
    decreases n
  {
    if n == 0 then x == v
    else
      match v
      case Atom => false
      case Array(items) => exists i :: 0 <= i < |items| && Lies(items[i], x, n - 1)
      case Object(ms) => exists i :: 0 <= i < |ms| && Lies(ms[i].value, x, n - 1)
  }

  lemma ThroughChild(v: Value, x: Value, n: nat) returns (i: nat)
    requires Lies(v, x, n) && n > 0
    ensures i < |Children(v)| && Lies(Children(v)[i], x, n - 1)
  {
    match v {
      case Array(items) => i :| 0 <= i < |items| && Lies(items[i], x, n - 1);
      case Object(ms) => i :| 0 <= i < |ms| && Lies(ms[i].value, x, n - 1);
    }
  }

  lemma {:induction false} NestedLies(v: Value, x: Value, n: nat, room: int)
    requires NestsWithin(v, room) && Lies(v, x, n)
    ensures n <= room
    decreases n
  {
    hide Lies, Children;
    if n > 0 {
      var i := ThroughChild(v, x, n);
      NestedLies(Children(v)[i], x, n - 1, room - 1);
    }
  }

  lemma {:induction false} TooDeepLies(v: Value, room: int) returns (x: Value, n: nat)
    requires !NestsWithin(v, room)
    ensures Lies(v, x, n) && n > room
    decreases v
  {
    hide Lies;
    x, n := v, 0;
    if room < 0 {
      LiesHere(v);
    } else {
      var kids := Children(v);
      var i :| 0 <= i < |kids| && !NestsWithin(kids[i], room - 1);
      var m: nat;
      x, m := TooDeepLies(kids[i], room - 1);
      n := m + 1;
      LiesThrough(v, i, x, m);
    }
  }

  lemma LiesHere(v: Value)
    ensures Lies(v, v, 0)
  {
  }

  lemma LiesThrough(v: Value, i: nat, x: Value, m: nat)
    requires i < |Children(v)| && Lies(Children(v)[i], x, m)
    ensures Lies(v, x, m + 1)
  {
    match v {
      case Array(items) => assert Lies(items[i], x, m);
      case Object(ms) => assert Lies(ms[i].value, x, m);
    }
  }

  /** A value passes the nesting test exactly if nothing lies more than 64 levels
      below it. */
  lemma NestingIff(v: Value)
    ensures NestsWithin(v, 64) <==> forall x, n: nat :: Lies(v, x, n) ==> n <= 64
  {
    hide NestsWithin, Lies;
    if NestsWithin(v, 64) {
      forall x, n: nat | Lies(v, x, n) ensures n <= 64 { NestedLies(v, x, n, 64); }
    } else {
      var x, n := TooDeepLies(v, 64);
      assert Lies(v, x, n) && n > 64;
    }
  }

  // Where names occur

  /** The name of the member that a list of positions leads to. */
  function NameAt(v: Value, path: seq<nat>): Option<string>
    decreases path
  {
    if path == [] then None
    else
      match v
      case Atom => None
      case Array(items) => if |path| > 1 && path[0] < |items| then NameAt(items[path[0]], path[1..]) else None
      case Object(ms) =>
        if path[0] >= |ms| then None
        else if |path| == 1 then Some(ms[path[0]].key)
        else NameAt(ms[path[0]].value, path[1..])
  }

  /** Where a name occurs: in the first members of the value itself, and in its first
      children. */
  function Own(ms: seq<Member>, n: nat, name: string): set<seq<nat>>
    requires n <= |ms|
  {
    if n == 0 then {} else Own(ms, n - 1, name) + if ms[n - 1].key == name then {[n - 1]} else {}
  }

  function Occurrences(v: Value, name: string): set<seq<nat>>
    decreases v, 1
  {
    (if v.Object? then Own(v.members, |v.members|, name) else {}) + Inner(v, |Children(v)|, name)
  }

  function Inner(v: Value, n: nat, name: string): set<seq<nat>>
    requires n <= |Children(v)|
    decreases v, 0, n
  {
    if n == 0 then {} else Inner(v, n - 1, name) + Shift(n - 1, Occurrences(Children(v)[n - 1], name))
  }

  lemma {:induction false} OwnExact(ms: seq<Member>, n: nat, name: string)
    requires n <= |ms|
    ensures forall p :: p in Own(ms, n, name) <==> |p| == 1 && p[0] < n && ms[p[0]].key == name
    decreases n
  {
    if n > 0 {
      OwnExact(ms, n - 1, name);
      forall p: seq<nat> | |p| == 1 && p[0] == n - 1 ensures p == [n - 1] {}
    }
  }

  lemma {:induction false} OwnCount(ms: seq<Member>, n: nat, name: string, forbidden: string -> bool)
    requires n <= |ms| && forbidden(name)
    ensures |Own(ms, n, name)| == KeysOf(ms[..n], forbidden)[name]
    decreases n
  {
    if n > 0 {
      OwnCount(ms, n - 1, name, forbidden);
      OwnExact(ms, n - 1, name);
      assert ms[..n][..n - 1] == ms[..n - 1];
    }
  }

  lemma {:induction false} OccurrencesExact(v: Value, name: string)
    ensures forall p :: p in Occurrences(v, name) <==> NameAt(v, p) == Some(name)
    decreases v, 1
  {
    hide Own, Inner;
    if v.Object? { OwnExact(v.members, |v.members|, name); }
    InnerExact(v, |Children(v)|, name);
  }

  lemma {:induction false} InnerExact(v: Value, n: nat, name: string)
    requires n <= |Children(v)|
    ensures forall p :: p in Inner(v, n, name) <==> |p| > 1 && p[0] < n && NameAt(v, p) == Some(name)
    decreases v, 0, n
  {
    hide Shift, Occurrences;
    if n > 0 {
      InnerExact(v, n - 1, name);
      OccurrencesExact(Children(v)[n - 1], name);
      ShiftExact(n - 1, Occurrences(Children(v)[n - 1], name));
    }
  }

  lemma {:induction false} OccurrencesCount(v: Value, name: string, forbidden: string -> bool)
    requires forbidden(name)
    ensures |Occurrences(v, name)| == Secrets(v, forbidden)[name]
    decreases v, 1
  {
    hide Own, Inner, KeysOf, SecretsBelow, NameAt;
    InnerCount(v, |Children(v)|, name, forbidden);
    InnerExact(v, |Children(v)|, name);
    if v.Object? {
      OwnCount(v.members, |v.members|, name, forbidden);
      OwnExact(v.members, |v.members|, name);
      assert v.members[..|v.members|] == v.members;
      assert Own(v.members, |v.members|, name) !! Inner(v, |Children(v)|, name);
    }
  }

  lemma {:induction false} InnerCount(v: Value, n: nat, name: string, forbidden: string -> bool)
    requires n <= |Children(v)| && forbidden(name)
    ensures |Inner(v, n, name)| == SecretsBelow(v, n, forbidden)[name]
    decreases v, 0, n
  {
    hide Shift, Occurrences, Secrets, NameAt;
    if n > 0 {
      InnerCount(v, n - 1, name, forbidden);
      OccurrencesCount(Children(v)[n - 1], name, forbidden);
      InnerExact(v, n - 1, name);
      ShiftSize(n - 1, Occurrences(Children(v)[n - 1], name));
      ShiftExact(n - 1, Occurrences(Children(v)[n - 1], name));
      assert Inner(v, n - 1, name) !! Shift(n - 1, Occurrences(Children(v)[n - 1], name));
    }
  }

  lemma {:induction false} OnlyForbidden(v: Value, name: string, forbidden: string -> bool)
    requires !forbidden(name)
    ensures Secrets(v, forbidden)[name] == 0
    decreases v, 1
  {
    if v.Object? { NoKey(v.members, name, forbidden); }
    NoneBelow(v, |Children(v)|, name, forbidden);
  }

  lemma {:induction false} NoneBelow(v: Value, n: nat, name: string, forbidden: string -> bool)
    requires n <= |Children(v)| && !forbidden(name)
    ensures SecretsBelow(v, n, forbidden)[name] == 0
    decreases v, 0, n
  {
    if n > 0 {
      NoneBelow(v, n - 1, name, forbidden);
      OnlyForbidden(Children(v)[n - 1], name, forbidden);
    }
  }

  lemma {:induction false} NoKey(ms: seq<Member>, name: string, forbidden: string -> bool)
    requires !forbidden(name)
    ensures KeysOf(ms, forbidden)[name] == 0
    decreases ms
  {
    if ms != [] { NoKey(ms[..|ms| - 1], name, forbidden); }
  }

  /** A forbidden name is reported once for every place where a member has it, and no
      other name is reported. */
  lemma SecretsAreThePlaces(v: Value, name: string, forbidden: string -> bool) returns (places: set<seq<nat>>)
    ensures forall p :: p in places <==> NameAt(v, p) == Some(name)
    ensures Secrets(v, forbidden)[name] == if forbidden(name) then |places| else 0
  {
    places := Occurrences(v, name);
    OccurrencesExact(v, name);
    if forbidden(name) { OccurrencesCount(v, name, forbidden); } else { OnlyForbidden(v, name, forbidden); }
  }
}
