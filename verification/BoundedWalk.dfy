/**
 Two directory walks that share one mutable entry budget: the metadata walk of
 excluded subtrees and the archive topology.  Trees are fixed values; what is
 kept is the order in which the source spends the budget.  Success and the
 collected names are then shown not to depend on the order in which any
 directory of the tree lists its entries.
*/
module BoundedWalk {
  import opened Strings

  /** Directory entries in listing order. */
  datatype Node = File | Directory(entries: seq<Entry>) | Symlink | Special

  datatype Entry = Entry(name: string, node: Node)

  class Budget {
    var spent: nat
    constructor ()
      ensures spent == 0
    {
      spent := 0;
    }
  }

  // Excluded subtrees

  const MAX_METADATA_ENTRIES := 4096
  const MAX_METADATA_DEPTH := 32

  /** Entries of a subtree, its own root included. */
  function Size(node: Node): nat
    decreases node, 0
  {
    1 + if node.Directory? then Sizes(node.entries) else 0
  }

  function Sizes(entries: seq<Entry>): nat
    decreases entries, 1
  {
    if entries == [] then 0
    else
      assert entries[0] in entries;
      Size(entries[0].node) + Sizes(entries[1..])
  }

  /** No entry is a link, special, named go.mod, or deeper than allowed. */
  predicate Admissible(name: string, node: Node, depth: nat)
    decreases node
  {
    && depth <= MAX_METADATA_DEPTH
    && (node.File? || node.Directory?)
    && name != "go.mod"
    && (node.Directory? ==>
          forall i :: 0 <= i < |node.entries| ==> Admissible(node.entries[i].name, node.entries[i].node, depth + 1))
  }

  /** `visit`: spends one entry before looking at anything. */
  method Visit(name: string, node: Node, depth: nat, budget: Budget) returns (ok: bool)
    modifies budget
    ensures ok <==> old(budget.spent) + Size(node) <= 4096 && Admissible(name, node, depth)
    ensures ok ==> budget.spent == old(budget.spent) + Size(node)
    decreases node
  {
    budget.spent := budget.spent + 1;
    if budget.spent > MAX_METADATA_ENTRIES || depth > MAX_METADATA_DEPTH {
      return false;
    }
    if node.Symlink? || name == "go.mod" || node.Special? {
      return false;
    }
    if node.Directory? {
      var entries := node.entries;
      for i := 0 to |entries|
        invariant budget.spent == old(budget.spent) + 1 + Sizes(entries) - Sizes(entries[i..])
        invariant budget.spent <= MAX_METADATA_ENTRIES
        invariant forall k :: 0 <= k < i ==> Admissible(entries[k].name, entries[k].node, depth + 1)
      {
        assert entries[i..][0] == entries[i] && entries[i..][1..] == entries[i + 1..];
        var fine := Visit(entries[i].name, entries[i].node, depth + 1, budget);
        if !fine {
          return false;
        }
      }
    }
    return true;
  }

  /** One pass over the excluded directories met in a walk, on one budget. */
  method VisitAll(roots: seq<Entry>) returns (ok: bool)
    ensures ok <==> Sizes(roots) <= 4096 && AllAdmissible(roots, 1)
  {
    var budget := new Budget();
    for i := 0 to |roots|
      invariant fresh(budget) && budget.spent == Sizes(roots) - Sizes(roots[i..]) <= MAX_METADATA_ENTRIES
      invariant forall k :: 0 <= k < i ==> Admissible(roots[k].name, roots[k].node, 1)
    {
      assert roots[i..][0] == roots[i] && roots[i..][1..] == roots[i + 1..];
      var fine := Visit(roots[i].name, roots[i].node, 1, budget);
      if !fine {
        return false;
      }
    }
    assert roots[|roots|..] == [];
    return true;
  }

  lemma {:induction false} SizesAppend(a: seq<Entry>, b: seq<Entry>)
    ensures Sizes(a + b) == Sizes(a) + Sizes(b)
    decreases a
  {
    if a == [] {
      assert a + b == b;
    } else {
      assert (a + b)[1..] == a[1..] + b;
      SizesAppend(a[1..], b);
    }
  }

  predicate AllAdmissible(entries: seq<Entry>, depth: nat) {
    forall i :: 0 <= i < |entries| ==> Admissible(entries[i].name, entries[i].node, depth)
  }

  lemma SizesWithout(b: seq<Entry>, k: nat)
    requires k < |b|
    ensures Sizes(b) == Size(b[k].node) + Sizes(b[..k] + b[k + 1..])
  {
    var tail := b[k..];
    assert b == b[..k] + tail && tail[0] == b[k] && tail[1..] == b[k + 1..];
    SizesAppend(b[..k], tail);
    SizesAppend(b[..k], b[k + 1..]);
  }

  lemma Without<T>(b: seq<T>, k: nat)
    requires k < |b|
    ensures multiset(b[..k] + b[k + 1..]) == multiset(b) - multiset{b[k]}
  {
    assert b == b[..k] + [b[k]] + b[k + 1..];
    assert multiset(b) == multiset(b[..k]) + multiset{b[k]} + multiset(b[k + 1..]);
  }

  lemma FirstMatch<T>(a: seq<T>, b: seq<T>) returns (k: nat)
    requires multiset(a) == multiset(b) && a != []
    ensures k < |b| && b[k] == a[0] && multiset(a[1..]) == multiset(b[..k] + b[k + 1..])
  {
    assert a[0] in multiset(b);
    k :| 0 <= k < |b| && b[k] == a[0];
    Without(b, k);
    assert a == [a[0]] + a[1..];
    assert multiset(a) == multiset{a[0]} + multiset(a[1..]);
  }

  lemma {:induction false} SameSizes(a: seq<Entry>, b: seq<Entry>)
    requires multiset(a) == multiset(b)
    ensures Sizes(a) == Sizes(b)
    decreases |a|
  {
    hide Size;
    if a == [] {
      assert |multiset(b)| == 0;
    } else {
      var k := FirstMatch(a, b);
      SameSizes(a[1..], b[..k] + b[k + 1..]);
      SizesWithout(b, k);
    }
  }

  /** The same tree with every directory listed in some other order. */
  ghost predicate Rearranged(a: Node, b: Node)
    decreases a
  {
    if a.Directory? then
      b.Directory? && exists es :: multiset(es) == multiset(b.entries) && Matched(a, es)
    else a == b
  }

  /** The entries of `a` one by one, each with its subtree rearranged. */
  ghost predicate Matched(a: Node, es: seq<Entry>)
    requires a.Directory?
    decreases a, 0
  {
    && |es| == |a.entries|
    && forall i :: 0 <= i < |es| ==> a.entries[i].name == es[i].name && Rearranged(a.entries[i].node, es[i].node)
  }

  /** Rearranging keeps the size of a tree and whether it is admissible. */
  lemma {:induction false} ListingOrder(name: string, a: Node, b: Node, depth: nat)
    requires Rearranged(a, b)
    ensures Size(a) == Size(b) && (Admissible(name, a, depth) <==> Admissible(name, b, depth))
    decreases a, 1
  {
    hide Size, Sizes;
    if a.Directory? {
      var es: seq<Entry> :| multiset(es) == multiset(b.entries) && Matched(a, es);
      MatchedSizes(a, es, |es|);
      SameSizes(es, b.entries);
      SizeOfDirectory(a);
      SizeOfDirectory(b);
      assert a.entries[..|es|] == a.entries && es[..|es|] == es;
      SameAdmissible(es, b.entries, depth + 1);
      forall i | 0 <= i < |es|
        ensures Admissible(es[i].name, a.entries[i].node, depth + 1) <==> Admissible(es[i].name, es[i].node, depth + 1)
      {
        ListingOrder(es[i].name, a.entries[i].node, es[i].node, depth + 1);
      }
      assert AllAdmissible(a.entries, depth + 1) <==> AllAdmissible(es, depth + 1);
    }
  }

  lemma SameAdmissible(a: seq<Entry>, b: seq<Entry>, depth: nat)
    requires multiset(a) == multiset(b)
    ensures AllAdmissible(a, depth) <==> AllAdmissible(b, depth)
  {
    hide Admissible;
    SameMembers(a, b);
    forall i | 0 <= i < |a| ensures a[i] in b { }
    forall i | 0 <= i < |b| ensures b[i] in a { }
  }

  lemma SizeOfDirectory(d: Node)
    requires d.Directory?
    ensures Size(d) == 1 + Sizes(d.entries)
  {
  }

  lemma {:induction false} MatchedSizes(a: Node, es: seq<Entry>, n: nat)
    requires a.Directory? && Matched(a, es) && n <= |es|
    ensures Sizes(a.entries[..n]) == Sizes(es[..n])
    decreases a, 0, n
  {
    hide Size, Admissible, Rearranged;
    if n > 0 {
      MatchedSizes(a, es, n - 1);
      ListingOrder(es[n - 1].name, a.entries[n - 1].node, es[n - 1].node, 0);
      assert a.entries[..n] == a.entries[..n - 1] + [a.entries[n - 1]] && es[..n] == es[..n - 1] + [es[n - 1]];
      SizesAppend(a.entries[..n - 1], [a.entries[n - 1]]);
      SizesAppend(es[..n - 1], [es[n - 1]]);
      SizesOne(a.entries[n - 1]);
      SizesOne(es[n - 1]);
    }
  }

  lemma SizesOne(e: Entry)
    ensures Sizes([e]) == Size(e.node)
  {
    assert [e][1..] == [];
  }

  lemma SameMembers<T>(a: seq<T>, b: seq<T>)
    requires multiset(a) == multiset(b)
    ensures |a| == |b| && forall x :: x in a <==> x in b
  {
    assert |multiset(a)| == |a| && |multiset(b)| == |b|;
    assert forall x :: x in multiset(a) <==> x in a;
    assert forall x :: x in multiset(b) <==> x in b;
  }

  /** Two series of subtrees to walk that differ only in how directories are listed
      and in which order the subtrees come. */
  ghost predicate SameRoots(a: seq<Entry>, b: seq<Entry>) { Rearranged(Directory(a), Directory(b)) }

  /** So a series of walks on one budget succeeds in every listing order or in none. */
  lemma WalksIgnoreOrder(a: seq<Entry>, b: seq<Entry>)
    requires SameRoots(a, b)
    ensures Sizes(a) == Sizes(b)
    ensures AllAdmissible(a, 1) <==> AllAdmissible(b, 1)
  {
    hide Rearranged, Size, Sizes;
    ListingOrder("", Directory(a), Directory(b), 0);
    SizeOfDirectory(Directory(a));
    SizeOfDirectory(Directory(b));
    assert Admissible("", Directory(a), 0) <==> AllAdmissible(a, 1);
    assert Admissible("", Directory(b), 0) <==> AllAdmissible(b, 1);
  }

  // The archive topology

  const MAX_ENTRIES := 100000
  const MAX_DEPTH := 64

  predicate Skipped(e: Entry, root: bool) { root && e.name == ".git" }

  predicate Ordinary(node: Node) { node.File? || node.Directory? }

  /** Entries the topology walk counts: all below, except the root's own .git. */
  function Counted(entries: seq<Entry>, root: bool): nat
    decreases entries, 1
  {
    if entries == [] then 0
    else
      var n := |entries| - 1;
      assert entries[n] in entries;
      Counted(entries[..n], root) + CountOf(entries[n], root)
  }

  function CountOf(e: Entry, root: bool): nat
    decreases e, 0
  {
    if Skipped(e, root) then 0
    else 1 + if e.node.Directory? then Counted(e.node.entries, false) else 0
  }

  /** Relative names of the files (or directories) below, under a prefix. */
  function Names(entries: seq<Entry>, prefix: string, directories: bool, root: bool): set<string>
    decreases entries, 1
  {
    if entries == [] then {}
    else
      var n := |entries| - 1;
      assert entries[n] in entries;
      Names(entries[..n], prefix, directories, root) + NamesOf(entries[n], prefix, directories, root)
  }

  function NamesOf(e: Entry, prefix: string, directories: bool, root: bool): set<string>
    decreases e, 0
  {
    if Skipped(e, root) then {}
    else
      (if e.node.Directory? == directories then {prefix + e.name} else {})
      + if e.node.Directory? then Names(e.node.entries, prefix + e.name + "/", directories, false) else {}
  }

  /** `path` names, step by step, an entry of the wanted kind outside the root's
      .git. */
  predicate Leads(entries: seq<Entry>, path: seq<string>, directories: bool, root: bool)
    decreases path
  {
    && path != []
    && exists i :: 0 <= i < |entries| && StepLeads(entries[i], path, directories, root)
  }

  predicate StepLeads(e: Entry, path: seq<string>, directories: bool, root: bool)
    requires path != []
    decreases path, 0
  {
    && !Skipped(e, root) && e.name == path[0]
    && if |path| == 1 then e.node.Directory? == directories
       else e.node.Directory? && Leads(e.node.entries, path[1..], directories, false)
  }

  lemma {:induction false} NameHasPath(entries: seq<Entry>, prefix: string, directories: bool, root: bool, name: string)
    returns (path: seq<string>)
    requires name in Names(entries, prefix, directories, root)
    ensures path != [] && Leads(entries, path, directories, root) && name == prefix + Join(path, "/")
    decreases entries, 1
  {
    hide NamesOf;
    var n := |entries| - 1;
    if name in Names(entries[..n], prefix, directories, root) {
      path := NameHasPath(entries[..n], prefix, directories, root, name);
      var i :| 0 <= i < n && StepLeads(entries[..n][i], path, directories, root);
      assert entries[i] == entries[..n][i];
    } else {
      assert entries[n] in entries;
      path := NameHasStep(entries[n], prefix, directories, root, name);
    }
  }

  lemma {:induction false} NameHasStep(e: Entry, prefix: string, directories: bool, root: bool, name: string)
    returns (path: seq<string>)
    requires name in NamesOf(e, prefix, directories, root)
    ensures path != [] && StepLeads(e, path, directories, root) && name == prefix + Join(path, "/")
    decreases e, 0
  {
    hide Names, Leads;
    if e.node.Directory? && name in Names(e.node.entries, prefix + e.name + "/", directories, false) {
      var below := NameHasPath(e.node.entries, prefix + e.name + "/", directories, false, name);
      path := [e.name] + below;
      PathStep(e.name, below, prefix);
      assert Leads(e.node.entries, path[1..], directories, false);
    } else {
      path := [e.name];
    }
  }

  lemma PathStep(name: string, below: seq<string>, prefix: string)
    requires below != []
    ensures ([name] + below)[1..] == below
    ensures prefix + Join([name] + below, "/") == (prefix + name + "/") + Join(below, "/")
  {
  }

  lemma {:induction false} PathHasName(entries: seq<Entry>, prefix: string, directories: bool, root: bool,
      path: seq<string>)
    requires Leads(entries, path, directories, root)
    ensures prefix + Join(path, "/") in Names(entries, prefix, directories, root)
    decreases path, 1
  {
    hide Names, NamesOf, StepLeads, Join;
    var i :| 0 <= i < |entries| && StepLeads(entries[i], path, directories, root);
    StepHasName(entries[i], prefix, directories, root, path);
    NamesHold(entries, prefix, directories, root, i, prefix + Join(path, "/"));
  }

  lemma {:induction false} StepHasName(e: Entry, prefix: string, directories: bool, root: bool, path: seq<string>)
    requires path != [] && StepLeads(e, path, directories, root)
    ensures prefix + Join(path, "/") in NamesOf(e, prefix, directories, root)
    decreases path, 0
  {
    hide Names, Leads;
    if |path| > 1 {
      PathHasName(e.node.entries, prefix + e.name + "/", directories, false, path[1..]);
      PathStep(path[0], path[1..], prefix);
      assert path == [path[0]] + path[1..];
    }
  }

  lemma {:induction false} NamesHold(entries: seq<Entry>, prefix: string, directories: bool, root: bool, i: nat,
      name: string)
    requires i < |entries| && name in NamesOf(entries[i], prefix, directories, root)
    ensures name in Names(entries, prefix, directories, root)
    decreases |entries|
  {
    hide NamesOf;
    var n := |entries| - 1;
    if i < n {
      assert entries[..n][i] == entries[i];
      NamesHold(entries[..n], prefix, directories, root, i, name);
    }
  }

  /** The names the walk collects are the paths to files, or to directories,
      outside the root's own .git. */
  lemma NamesAreThePaths(entries: seq<Entry>, directories: bool, name: string)
    ensures name in Names(entries, "", directories, true) <==>
            exists path :: Leads(entries, path, directories, true) && name == Join(path, "/")
  {
    hide Names, Leads, Join;
    if name in Names(entries, "", directories, true) {
      var path := NameHasPath(entries, "", directories, true, name);
      assert "" + Join(path, "/") == Join(path, "/");
    }
    if path :| Leads(entries, path, directories, true) && name == Join(path, "/") {
      PathHasName(entries, "", directories, true, path);
      assert "" + Join(path, "/") == Join(path, "/");
    }
  }

  /** Only files and directories, within the depth; the skipped .git may be either. */
  predicate Walkable(entries: seq<Entry>, depth: nat, root: bool)
    decreases entries, 1
  {
    && depth <= MAX_DEPTH
    && forall i :: 0 <= i < |entries| ==> WalkableEntry(entries[i], depth, root)
  }

  predicate WalkableEntry(e: Entry, depth: nat, root: bool)
    decreases e, 0
  {
    && Ordinary(e.node)
    && (e.node.Directory? && !Skipped(e, root) ==> Walkable(e.node.entries, depth + 1, false))
  }

  // The topology in another listing order

  /** All that the walk returns, and whether it does, for one entry. */
  ghost predicate SameTopology(a: Entry, b: Entry, root: bool) {
    && CountOf(a, root) == CountOf(b, root)
    && (forall depth: nat :: WalkableEntry(a, depth, root) <==> WalkableEntry(b, depth, root))
    && forall prefix, d :: NamesOf(a, prefix, d, root) == NamesOf(b, prefix, d, root)
  }

  lemma {:induction false} EntryIgnoresOrder(a: Entry, b: Entry, root: bool)
    requires a.name == b.name && Rearranged(a.node, b.node)
    ensures SameTopology(a, b, root)
    decreases a, 1
  {
    hide Counted, Names, Walkable;
    if a.node.Directory? {
      var c, d := a.node.entries, b.node.entries;
      assert a.node == Directory(c) && b.node == Directory(d);
      TopologyIgnoresOrder(c, d, false);
      forall depth: nat ensures WalkableEntry(a, depth, root) <==> WalkableEntry(b, depth, root) {
        assert Walkable(c, depth + 1, false) <==> Walkable(d, depth + 1, false);
      }
      forall prefix, dirs ensures NamesOf(a, prefix, dirs, root) == NamesOf(b, prefix, dirs, root) {
        var below := prefix + a.name + "/";
        assert Names(c, below, dirs, false) == Names(d, below, dirs, false);
      }
    }
  }

  /** The number of entries, the collected names and the admissibility of a tree do
      not depend on the order in which any of its directories is listed. */
  lemma {:induction false} TopologyIgnoresOrder(a: seq<Entry>, b: seq<Entry>, root: bool)
    requires SameRoots(a, b)
    ensures Counted(a, root) == Counted(b, root)
    ensures forall depth: nat :: Walkable(a, depth, root) <==> Walkable(b, depth, root)
    ensures forall prefix, d :: Names(a, prefix, d, root) == Names(b, prefix, d, root)
    decreases a, 2
  {
    hide Counted, CountOf, Names, NamesOf, WalkableEntry, Rearranged;
    var es := Arrangement(a, b);
    forall i | 0 <= i < |a| ensures SameTopology(a[i], es[i], root) {
      EntryIgnoresOrder(a[i], es[i], root);
    }
    CountedMatched(a, es, root);
    CountedSame(es, b, root);
    SameMembers(es, b);
    forall prefix, d ensures Names(a, prefix, d, root) == Names(b, prefix, d, root) {
      NamesMatched(a, es, prefix, d, root);
      NamesSame(es, b, prefix, d, root);
      NamesSame(b, es, prefix, d, root);
    }
    forall depth: nat ensures Walkable(a, depth, root) <==> Walkable(b, depth, root) {
      assert forall i :: 0 <= i < |a| ==> (WalkableEntry(a[i], depth, root) <==> WalkableEntry(es[i], depth, root));
      assert forall i :: 0 <= i < |b| ==> b[i] in es;
      assert forall i :: 0 <= i < |es| ==> es[i] in b;
    }
  }

  lemma Arrangement(a: seq<Entry>, b: seq<Entry>) returns (es: seq<Entry>)
    requires SameRoots(a, b)
    ensures multiset(es) == multiset(b) && |es| == |a|
    ensures forall i :: 0 <= i < |a| ==> a[i].name == es[i].name && Rearranged(a[i].node, es[i].node)
  {
    hide Matched;
    var c, d := Directory(a), Directory(b);
    assert Rearranged(c, d);
    es := Order(c, d);
    MatchedEntries(c, es);
  }

  lemma Order(a: Node, b: Node) returns (es: seq<Entry>)
    requires a.Directory? && Rearranged(a, b)
    ensures b.Directory? && multiset(es) == multiset(b.entries) && Matched(a, es)
  {
    es :| multiset(es) == multiset(b.entries) && Matched(a, es);
  }

  lemma MatchedEntries(a: Node, es: seq<Entry>)
    requires a.Directory? && Matched(a, es)
    ensures |es| == |a.entries|
    ensures forall i :: 0 <= i < |es| ==> a.entries[i].name == es[i].name && Rearranged(a.entries[i].node, es[i].node)
  {
  }

  lemma {:induction false} CountedMatched(a: seq<Entry>, es: seq<Entry>, root: bool)
    requires |a| == |es| && forall i :: 0 <= i < |a| ==> SameTopology(a[i], es[i], root)
    ensures Counted(a, root) == Counted(es, root)
    decreases |a|
  {
    hide CountOf, NamesOf, WalkableEntry;
    if a != [] {
      var n := |a| - 1;
      CountedMatched(a[..n], es[..n], root);
      assert SameTopology(a[n], es[n], root);
    }
  }

  lemma {:induction false} CountedAppend(a: seq<Entry>, b: seq<Entry>, root: bool)
    ensures Counted(a + b, root) == Counted(a, root) + Counted(b, root)
    decreases |b|
  {
    hide CountOf;
    if b == [] {
      assert a + b == a;
    } else {
      var n := |b| - 1;
      assert (a + b)[..|a| + n] == a + b[..n];
      CountedAppend(a, b[..n], root);
    }
  }

  lemma {:induction false} CountedSame(a: seq<Entry>, b: seq<Entry>, root: bool)
    requires multiset(a) == multiset(b)
    ensures Counted(a, root) == Counted(b, root)
    decreases |a|
  {
    hide CountOf;
    if a == [] {
      assert |multiset(b)| == 0;
    } else {
      var k := FirstMatch(a, b);
      CountedSame(a[1..], b[..k] + b[k + 1..], root);
      assert a == [a[0]] + a[1..] && b == b[..k] + ([b[k]] + b[k + 1..]);
      CountedAppend([a[0]], a[1..], root);
      CountedAppend(b[..k], [b[k]] + b[k + 1..], root);
      CountedAppend([b[k]], b[k + 1..], root);
      CountedAppend(b[..k], b[k + 1..], root);
    }
  }

  lemma {:induction false} NamesMatched(a: seq<Entry>, es: seq<Entry>, prefix: string, d: bool, root: bool)
    requires |a| == |es| && forall i :: 0 <= i < |a| ==> SameTopology(a[i], es[i], root)
    ensures Names(a, prefix, d, root) == Names(es, prefix, d, root)
    decreases |a|
  {
    hide CountOf, NamesOf, WalkableEntry;
    if a != [] {
      var n := |a| - 1;
      NamesMatched(a[..n], es[..n], prefix, d, root);
      assert SameTopology(a[n], es[n], root);
    }
  }

  lemma {:induction false} NamesSame(a: seq<Entry>, b: seq<Entry>, prefix: string, d: bool, root: bool)
    requires forall e :: e in a ==> e in b
    ensures Names(a, prefix, d, root) <= Names(b, prefix, d, root)
    decreases |a|
  {
    hide NamesOf;
    if a != [] {
      var n := |a| - 1;
      NamesSame(a[..n], b, prefix, d, root);
      assert a[n] in b;
      var k :| 0 <= k < |b| && b[k] == a[n];
      forall x | x in NamesOf(a[n], prefix, d, root) ensures x in Names(b, prefix, d, root) {
        NamesHold(b, prefix, d, root, k, x);
      }
    }
  }

  lemma {:induction false} CountedPrefix(entries: seq<Entry>, i: nat, root: bool)
    requires i <= |entries|
    ensures Counted(entries[..i], root) <= Counted(entries, root)
    decreases |entries|
  {
    if i < |entries| {
      var n := |entries| - 1;
      assert entries[..n][..i] == entries[..i];
      CountedPrefix(entries[..n], i, root);
    } else {
      assert entries[..i] == entries;
    }
  }

  lemma NextEntry(entries: seq<Entry>, i: nat, prefix: string, root: bool)
    requires i < |entries|
    ensures Counted(entries[..i + 1], root)
            == Counted(entries[..i], root) + CountOf(entries[i], root) <= Counted(entries, root)
    ensures forall d :: Names(entries[..i + 1], prefix, d, root) ==
                        Names(entries[..i], prefix, d, root) + NamesOf(entries[i], prefix, d, root)
  {
    assert entries[..i + 1][..i] == entries[..i];
    CountedPrefix(entries, i + 1, root);
  }

  lemma NoEntries(prefix: string, root: bool)
    ensures Counted([], root) == 0 && forall d :: Names([], prefix, d, root) == {}
  {
  }

  class Topology {
    var files: set<string>
    var directories: set<string>
    var spent: nat

    constructor ()
      ensures files == {} && directories == {} && spent == 0
    {
      files, directories, spent := {}, {}, 0;
    }

    /** `visit`: `prefix` is empty exactly at the root. */
    method Visit(entries: seq<Entry>, prefix: string, depth: nat) returns (ok: bool)
      requires spent <= MAX_ENTRIES
      modifies this
      ensures ok <==>
              old(spent) + Counted(entries, prefix == "") <= 100_000 && Walkable(entries, depth, prefix == "")
      ensures ok ==>
        && spent == old(spent) + Counted(entries, prefix == "")
        && files == old(files) + Names(entries, prefix, false, prefix == "")
        && directories == old(directories) + Names(entries, prefix, true, prefix == "")
      decreases entries, 1
    {
      hide Counted, Names;
      var root := prefix == "";
      NoEntries(prefix, root);
      if depth > MAX_DEPTH {
        return false;
      }
      for i := 0 to |entries|
        invariant spent == old(spent) + Counted(entries[..i], root) <= MAX_ENTRIES
        invariant files == old(files) + Names(entries[..i], prefix, false, root)
        invariant directories == old(directories) + Names(entries[..i], prefix, true, root)
        invariant forall k :: 0 <= k < i ==> WalkableEntry(entries[k], depth, root)
      {
        var e := entries[i];
        NextEntry(entries, i, prefix, root);
        if root && e.name == ".git" {
          if !(e.node.Directory? || e.node.File?) {
            return false;
          }
          continue;
        }
        ok := VisitEntry(e, prefix, depth);
        if !ok {
          return false;
        }
      }
      assert entries[..|entries|] == entries;
      return true;
    }

    method VisitEntry(e: Entry, prefix: string, depth: nat) returns (ok: bool)
      requires spent <= MAX_ENTRIES && !Skipped(e, prefix == "") && depth <= MAX_DEPTH
      modifies this
      ensures ok <==> old(spent) + CountOf(e, prefix == "") <= 100_000 && WalkableEntry(e, depth, prefix == "")
      ensures ok ==>
        && spent == old(spent) + CountOf(e, prefix == "")
        && files == old(files) + NamesOf(e, prefix, false, prefix == "")
        && directories == old(directories) + NamesOf(e, prefix, true, prefix == "")
      decreases e, 0
    {
      hide Counted, Names;
      spent := spent + 1;
      if spent > MAX_ENTRIES {
        return false;
      }
      if !(e.node.Directory? || e.node.File?) {
        return false;
      }
      if e.node.Directory? {
        directories := directories + {prefix + e.name};
        ok := Visit(e.node.entries, prefix + e.name + "/", depth + 1);
      } else {
        files := files + {prefix + e.name};
        ok := true;
      }
    }
  }
}
