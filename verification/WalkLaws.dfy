/**
 The walks against plain descriptions of what lies where in a tree or a value.
*/
module WalkLaws {
  import opened Wrappers
  import opened BoundedWalk
  import JsonWalks

  // Trees

  /** The entry that a list of positions leads to. */
  function EntryAt(e: Entry, path: seq<nat>): Option<Entry>
    decreases path
  {
    if path == [] then Some(e)
    else if e.node.Directory? && path[0] < |e.node.entries| then EntryAt(e.node.entries[path[0]], path[1..])
    else None
  }

  predicate Metadata(x: Entry, level: nat) {
    level <= 32 && (x.node.File? || x.node.Directory?) && x.name != "go.mod"
  }

  lemma {:induction false} AdmissibleBelow(e: Entry, depth: nat, path: seq<nat>)
    requires Admissible(e.name, e.node, depth) && EntryAt(e, path).Some?
    ensures Metadata(EntryAt(e, path).value, depth + |path|)
    decreases path
  {
    if path != [] { AdmissibleBelow(e.node.entries[path[0]], depth + 1, path[1..]); }
  }

  lemma {:induction false} NotAdmissible(e: Entry, depth: nat) returns (path: seq<nat>)
    requires !Admissible(e.name, e.node, depth)
    ensures EntryAt(e, path).Some? && !Metadata(EntryAt(e, path).value, depth + |path|)
    decreases e.node
  {
    path := [];
    if Metadata(e, depth) {
      var i: nat :| i < |e.node.entries| && !Admissible(e.node.entries[i].name, e.node.entries[i].node, depth + 1);
      var below := NotAdmissible(e.node.entries[i], depth + 1);
      path := [i] + below;
      assert path[1..] == below;
    }
  }

  /** A metadata subtree is admissible exactly if everything in it lies at most 32
      levels deep, is a file or a directory, and is not named go.mod. */
  lemma AdmissibleIff(e: Entry, depth: nat)
    ensures Admissible(e.name, e.node, depth) <==>
      forall path: seq<nat> :: EntryAt(e, path).Some? ==> Metadata(EntryAt(e, path).value, depth + |path|)
  {
    hide Admissible, EntryAt;
    if Admissible(e.name, e.node, depth) {
      forall path: seq<nat> | EntryAt(e, path).Some? ensures Metadata(EntryAt(e, path).value, depth + |path|) {
        AdmissibleBelow(e, depth, path);
      }
    } else {
      var path := NotAdmissible(e, depth);
    }
  }

  /** An entry `level` directories below the root's own entries. */
  predicate Archived(x: Entry, level: nat) {
    (x.node.File? || x.node.Directory?) && (x.node.Directory? ==> level + 1 <= 64)
  }

  lemma {:induction false} WalkableBelow(e: Entry, depth: nat, path: seq<nat>)
    requires WalkableEntry(e, depth, false) && EntryAt(e, path).Some?
    ensures Archived(EntryAt(e, path).value, depth + |path|)
    decreases path
  {
    if path != [] { WalkableBelow(e.node.entries[path[0]], depth + 1, path[1..]); }
  }

  lemma {:induction false} NotWalkable(e: Entry, depth: nat) returns (path: seq<nat>)
    requires !WalkableEntry(e, depth, false)
    ensures EntryAt(e, path).Some? && !Archived(EntryAt(e, path).value, depth + |path|)
    decreases e.node
  {
    path := [];
    if Archived(e, depth) {
      assert !Walkable(e.node.entries, depth + 1, false);
      var i: nat :| i < |e.node.entries| && !WalkableEntry(e.node.entries[i], depth + 1, false);
      var below := NotWalkable(e.node.entries[i], depth + 1);
      path := [i] + below;
      assert path[1..] == below;
    }
  }

  /** The archive walk gets through an entry exactly if everything in it is a file or
      a directory and no directory is opened more than 64 levels down. */
  lemma WalkableIff(e: Entry, depth: nat)
    ensures WalkableEntry(e, depth, false) <==>
      forall path: seq<nat> :: EntryAt(e, path).Some? ==> Archived(EntryAt(e, path).value, depth + |path|)
  {
    hide WalkableEntry, EntryAt;
    if WalkableEntry(e, depth, false) {
      forall path: seq<nat> | EntryAt(e, path).Some? ensures Archived(EntryAt(e, path).value, depth + |path|) {
        WalkableBelow(e, depth, path);
      }
    } else {
      var path := NotWalkable(e, depth);
    }
  }

  /** At the root, .git may be a file or a directory, and is not opened. */
  lemma WalkableRoot(entries: seq<Entry>)
    ensures Walkable(entries, 0, true) <==> forall i :: 0 <= i < |entries| ==>
      if entries[i].name == ".git" then entries[i].node.File? || entries[i].node.Directory?
      else WalkableEntry(entries[i], 0, false)
  {
  }

  // Sizes

  function Shift(i: nat, s: set<seq<nat>>): set<seq<nat>> { set p {:trigger p in s} | p in s :: [i] + p }

  lemma ShiftExact(i: nat, s: set<seq<nat>>)
    ensures forall q :: q in Shift(i, s) <==> q != [] && q[0] == i && q[1..] in s
  {
    forall q ensures q in Shift(i, s) <==> q != [] && q[0] == i && q[1..] in s {
      if q != [] && q[0] == i && q[1..] in s { assert q == [i] + q[1..]; }
      if q in Shift(i, s) {
        var p :| p in s && q == [i] + p;
        assert q[1..] == p;
      }
    }
  }

  lemma {:induction false} ShiftSize(i: nat, s: set<seq<nat>>)
    ensures |Shift(i, s)| == |s|
    decreases s
  {
    ShiftExact(i, s);
    if s == {} {
      assert Shift(i, s) == {};
    } else {
      var x :| x in s;
      ShiftSize(i, s - {x});
      ShiftExact(i, s - {x});
      var q := [i] + x;
      assert q[1..] == x;
      assert Shift(i, s) == Shift(i, s - {x}) + {q};
    }
  }

  /** All positions in an entry, and in the first `n` entries of a directory. */
  function Places(e: Entry): set<seq<nat>>
    decreases e, 1
  {
    {[]} + if e.node.Directory? then PlacesBelow(e, |e.node.entries|) else {}
  }

  function PlacesBelow(e: Entry, n: nat): set<seq<nat>>
    requires e.node.Directory? && n <= |e.node.entries|
    decreases e, 0, n
  {
    if n == 0 then {} else PlacesBelow(e, n - 1) + Shift(n - 1, Places(e.node.entries[n - 1]))
  }

  lemma {:induction false} PlacesExact(e: Entry)
    ensures forall p :: p in Places(e) <==> EntryAt(e, p).Some?
    decreases e, 1
  {
    if e.node.Directory? { BelowExact(e, |e.node.entries|); }
  }

  lemma {:induction false} BelowExact(e: Entry, n: nat)
    requires e.node.Directory? && n <= |e.node.entries|
    ensures forall p :: p in PlacesBelow(e, n) <==> p != [] && p[0] < n && EntryAt(e, p).Some?
    decreases e, 0, n
  {
    hide Shift, Places;
    if n > 0 {
      BelowExact(e, n - 1);
      PlacesExact(e.node.entries[n - 1]);
      ShiftExact(n - 1, Places(e.node.entries[n - 1]));
    }
  }

  lemma {:induction false} SizeOfPlaces(e: Entry)
    ensures |Places(e)| == Size(e.node)
    decreases e, 1
  {
    hide EntryAt, PlacesBelow, Sizes;
    if e.node.Directory? {
      BelowSizes(e, |e.node.entries|);
      BelowExact(e, |e.node.entries|);
      var entries := e.node.entries;
      assert entries[..|entries|] == entries;
    }
  }

  lemma {:induction false} BelowSizes(e: Entry, n: nat)
    requires e.node.Directory? && n <= |e.node.entries|
    ensures |PlacesBelow(e, n)| == Sizes(e.node.entries[..n])
    decreases e, 0, n
  {
    hide Shift, Places, Size, EntryAt;
    if n > 0 {
      var entries, last := e.node.entries, e.node.entries[n - 1];
      BelowSizes(e, n - 1);
      BelowExact(e, n - 1);
      SizeOfPlaces(last);
      ShiftSize(n - 1, Places(last));
      ShiftExact(n - 1, Places(last));
      assert PlacesBelow(e, n - 1) !! Shift(n - 1, Places(last));
      assert entries[..n] == entries[..n - 1] + [last];
      SizesAppend(entries[..n - 1], [last]);
      assert [last][1..] == [];
    }
  }

  /** The size of a subtree is the number of places in it. */
  lemma SizeIsNumberOfPlaces(e: Entry) returns (places: set<seq<nat>>)
    ensures |places| == Size(e.node) && forall p :: p in places <==> EntryAt(e, p).Some?
  {
    places := Places(e);
    PlacesExact(e);
    SizeOfPlaces(e);
  }

  /** The archive walk counts what the metadata walk counts, without the root's .git. */
  lemma {:induction false} CountedIsSize(entries: seq<Entry>)
    ensures Counted(entries, false) == Sizes(entries)
    ensures Counted(entries, true) == Sizes(Outside(entries))
    decreases entries
  {
    if entries != [] {
      var n := |entries| - 1;
      var init, e := entries[..n], entries[n];
      assert entries == init + [e];
      CountedIsSize(init);
      SizesAppend(init, [e]);
      SizesAppend(Outside(init), [e]);
      assert Outside(init) + [] == Outside(init);
      assert [e][1..] == [] && Sizes([e]) == Size(e.node);
      if e.node.Directory? { CountedIsSize(e.node.entries); }
    }
  }

  function Outside(entries: seq<Entry>): seq<Entry> {
    if entries == [] then []
    else
      var n := |entries| - 1;
      Outside(entries[..n]) + if entries[n].name == ".git" then [] else [entries[n]]
  }
}
