/**
 Selected build inputs: the producer's map from paths to fields, and the
 consumer that rebuilds it from the recorded local packages by string operations.
*/
module SelectedInputs {
  import opened Wrappers
  import opened Strings

  // Lexical paths

  /** A pure path: the components that survive parsing. */
  function Parts(text: string): seq<string> { Filter(Split(text, "/")) }

  function Filter(ps: seq<string>): seq<string> {
    if ps == [] then []
    else (if ps[0] == "" || ps[0] == "." then [] else [ps[0]]) + Filter(ps[1..])
  }

  predicate Absolute(text: string) { text != [] && text[0] == '/' }

  predicate Plain(p: string) { p != "" && p != "." && p != ".." && '/' !in p }

  predicate Component(p: string) { Plain(p) && '\\' !in p }

  predicate Components(ps: seq<string>) { ps != [] && forall i :: 0 <= i < |ps| ==> Component(ps[i]) }

  predicate AllPlain(ps: seq<string>) { forall i :: 0 <= i < |ps| ==> Plain(ps[i]) }

  /** The canonical text of a relative path with these components. */
  function Text(ps: seq<string>): string { if ps == [] then "." else Join(ps, "/") }

  /** `_relative`: normalising changes nothing, and the path stays inside. */
  predicate CanonicalRelative(name: string) { Components(Split(name, "/")) }

  /** `_absolute` */
  predicate CanonicalAbsolute(name: string) {
    Absolute(name) && (name == "/" || AllPlain(Split(name[1..], "/")))
  }

  /** A canonical relative path is not empty, starts with no slash, holds no backslash,
      and has no empty, `.` or `..` part. */
  lemma CanonicalRelativeIff(name: string)
    ensures CanonicalRelative(name) <==>
      && (forall p :: p in Split(name, "/") ==> p != "" && p != "." && p != ".." && '/' !in p)
      && '\\' !in name
  {
    JoinSplit(name, '/');
    BackslashParts(Split(name, "/"));
  }

  lemma {:induction false} BackslashParts(ps: seq<string>)
    ensures '\\' in Join(ps, "/") <==> exists i :: 0 <= i < |ps| && '\\' in ps[i]
    decreases ps
  {
    if |ps| > 1 {
      BackslashParts(ps[1..]);
      assert ps == [ps[0]] + ps[1..];
    }
  }

  predicate CanonicalName(name: string) {
    if Absolute(name) then CanonicalAbsolute(name) else CanonicalRelative(name)
  }

  /** `p` is `root` or below it. */
  predicate Under(p: seq<string>, root: seq<string>) { root <= p }

  // Records

  /** One listed file: its package, the package's directory, whether the package
      is a generated test main, and the field that lists it. */
  datatype Listed = Listed(package: string, directory: seq<string>, testMain: bool, field: string, name: string)

  datatype Generated = Generated(package: string, field: string, path: string)

  /** `production` holds the paths below which the consumer knows the module. */
  datatype Site = Site(root: seq<string>, cache: seq<string>, authorized: set<string>, production: set<string>) {
    predicate Valid() {
      Components(root) && Components(cache) && "." !in authorized
    }

    function RootText(): string { "/" + Join(root, "/") }

    function CacheText(): string { "/" + Join(cache, "/") }

    /** What the consumer accepts as the directory of a local package. */
    predicate Linkable(directory: string) {
      && CanonicalRelative(directory)
      && exists p :: p in production && (directory == p || p + "/" <= directory)
    }
  }

  const GO_FIELDS := {"GoFiles", "CgoFiles", "TestGoFiles", "XTestGoFiles"}

  type FieldMap = map<string, set<string>>

  function PathOf(o: Listed): seq<string> {
    if Absolute(o.name) then Parts(o.name) else o.directory + Parts(o.name)
  }

  predicate IsLocal(o: Listed, s: Site) { Under(o.directory, s.root) }

  function AddField(m: FieldMap, path: string, field: string): FieldMap {
    m[path := (if path in m then m[path] else {}) + {field}]
  }

  datatype Outcome = Outcome(local: FieldMap, generated: seq<Generated>)

  function LastPart(p: seq<string>): string { if p == [] then "" else p[|p| - 1] }

  /** One file name in `classify`; `None` is one of its errors.  A local package
      has the main module or a fork as its module, and neither can hold a file
      outside the root; other packages' files go to other records. */
  function ClassifyOne(o: Listed, s: Site, r: Outcome): Option<Outcome> {
    var path := PathOf(o);
    if o.field in GO_FIELDS && !EndsWith(o.name, ".go") && !o.testMain then None
    else if ".." in path || '\\' in o.name then None
    else if Under(path, s.root) then
      var rel := Text(path[|s.root|..]);
      if rel !in s.authorized then None else Some(r.(local := AddField(r.local, rel, o.field)))
    else if o.testMain then
      if o.field != "GoFiles" || !Absolute(o.name) || !Under(path, s.cache) || !EndsWith(LastPart(path), "-d") then None
      else Some(r.(generated := r.generated + [Generated(o.package, o.field, Text(path[|s.cache|..]))]))
    else if IsLocal(o, s) then None
    else Some(r)
  }

  function Classify(os: seq<Listed>, s: Site): Option<Outcome> {
    if os == [] then Some(Outcome(map[], []))
    else
      var n := |os| - 1;
      match Classify(os[..n], s)
      case None => None
      case Some(r) => ClassifyOne(os[n], s, r)
  }

  /** The records of local packages, in order. */
  function LocalRecords(os: seq<Listed>, s: Site): (r: seq<Listed>)
    ensures forall i :: 0 <= i < |r| ==> IsLocal(r[i], s)
  {
    if os == [] then []
    else
      var n := |os| - 1;
      LocalRecords(os[..n], s) + if IsLocal(os[n], s) then [os[n]] else []
  }

  function DirectoryText(o: Listed, s: Site): string
    requires IsLocal(o, s)
  {
    Text(o.directory[|s.root|..])
  }

  predicate MatchesRecord(g: Generated, o: Listed, s: Site) {
    g.package == o.package && g.field == o.field && o.name == s.CacheText() + "/" + g.path
  }

  function CountMatches(gs: seq<Generated>, o: Listed, s: Site): nat {
    if gs == [] then 0
    else CountMatches(gs[..|gs| - 1], o, s) + if MatchesRecord(gs[|gs| - 1], o, s) then 1 else 0
  }

  /** One record in the consumer: a name is used as text. */
  function RebuildOne(o: Listed, s: Site, gs: seq<Generated>, m: FieldMap): Option<FieldMap>
    requires IsLocal(o, s)
  {
    var directory := DirectoryText(o, s);
    if !s.Linkable(directory) || !CanonicalName(o.name) then None
    else if Absolute(o.name) then
      if s.RootText() + "/" <= o.name then Some(AddField(m, o.name[|s.RootText()| + 1..], o.field))
      else if CountMatches(gs, o, s) != 1 then None
      else Some(m)
    else Some(AddField(m, directory + "/" + o.name, o.field))
  }

  function Rebuild(os: seq<Listed>, s: Site, gs: seq<Generated>): Option<FieldMap>
    requires forall i :: 0 <= i < |os| ==> IsLocal(os[i], s)
  {
    if os == [] then Some(map[])
    else
      var n := |os| - 1;
      match Rebuild(os[..n], s, gs)
      case None => None
      case Some(m) => RebuildOne(os[n], s, gs, m)
  }

  // What the classification does

  /** A file the classification takes, whatever the others are. */
  predicate Admissible(o: Listed, s: Site) {
    var path := PathOf(o);
    && (o.field in {"GoFiles", "CgoFiles", "TestGoFiles", "XTestGoFiles"} ==> EndsWith(o.name, ".go") || o.testMain)
    && ".." !in path && '\\' !in o.name
    && (Under(path, s.root) ==> Text(path[|s.root|..]) in s.authorized)
    && (!Under(path, s.root) && o.testMain ==>
          o.field == "GoFiles" && Absolute(o.name) && Under(path, s.cache) && EndsWith(LastPart(path), "-d"))
    && (!Under(path, s.root) && !o.testMain ==> !IsLocal(o, s))
  }

  /** A listing is classified exactly if every file in it is admissible. */
  lemma {:induction false} ClassifiesIff(os: seq<Listed>, s: Site)
    ensures Classify(os, s) != None <==> forall i :: 0 <= i < |os| ==> Admissible(os[i], s)
    decreases |os|
  {
    hide Admissible, ClassifyOne;
    if os != [] {
      var n := |os| - 1;
      ClassifiesIff(os[..n], s);
      if Classify(os[..n], s).Some? { OneClassifiesIff(os[n], s, Classify(os[..n], s).value); }
    }
  }

  lemma OneClassifiesIff(o: Listed, s: Site, r: Outcome)
    ensures ClassifyOne(o, s, r) != None <==> Admissible(o, s)
  {
  }

  function RelativePath(o: Listed, s: Site): string
    requires Under(PathOf(o), s.root)
  {
    Text(PathOf(o)[|s.root|..])
  }

  /** A file outside the root that is no test main adds nothing. */
  lemma ForeignAddsNothing(o: Listed, s: Site, r: Outcome)
    requires Admissible(o, s) && !Under(PathOf(o), s.root) && !o.testMain
    ensures ClassifyOne(o, s, r) == Some(r)
  {
  }

  predicate Names(m: FieldMap, path: string, field: string) { path in m && field in m[path] }

  /** A path has a field exactly if some listed file below the root has that path and
      is listed under that field. */
  lemma {:induction false} EntriesExact(os: seq<Listed>, s: Site, r: Outcome, path: string, field: string)
    requires Classify(os, s) == Some(r)
    ensures Names(r.local, path, field) <==>
      exists i :: 0 <= i < |os| &&
        Under(PathOf(os[i]), s.root) && RelativePath(os[i], s) == path && os[i].field == field
    decreases |os|
  {
    hide ClassifyOne, RelativePath, Under, Names;
    if os != [] {
      var n := |os| - 1;
      var before := Classify(os[..n], s).value;
      EntriesExact(os[..n], s, before, path, field);
      OneEntry(os[n], s, before, path, field);
      assert os == os[..n] + [os[n]];
    } else {
      assert !Names(map[], path, field) by { NothingNamed(path, field); }
    }
  }

  lemma NothingNamed(path: string, field: string)
    ensures !Names(map[], path, field)
  {
  }

  lemma OneEntry(o: Listed, s: Site, r: Outcome, path: string, field: string)
    requires ClassifyOne(o, s, r).Some?
    ensures Names(ClassifyOne(o, s, r).value.local, path, field) <==>
            || Names(r.local, path, field)
            || (Under(PathOf(o), s.root) && RelativePath(o, s) == path && o.field == field)
  {
  }

  /** The test mains outside the root, in order. */
  function Mains(os: seq<Listed>, s: Site): seq<Listed> {
    if os == [] then []
    else
      var n := |os| - 1;
      Mains(os[..n], s) + if os[n].testMain && !Under(PathOf(os[n]), s.root) then [os[n]] else []
  }

  /** The generated records are those of the test mains outside the root, in order,
      each with its path below the cache. */
  lemma {:induction false} GeneratedExact(os: seq<Listed>, s: Site, r: Outcome)
    requires Classify(os, s) == Some(r)
    ensures |r.generated| == |Mains(os, s)|
    ensures forall k :: 0 <= k < |r.generated| ==>
              var o := Mains(os, s)[k];
              && Under(PathOf(o), s.cache)
              && r.generated[k] == Generated(o.package, o.field, Text(PathOf(o)[|s.cache|..]))
    decreases |os|
  {
    hide PathOf, Text;
    if os != [] {
      var n := |os| - 1;
      GeneratedExact(os[..n], s, Classify(os[..n], s).value);
    }
  }

  // The two loops

  method ClassifyRows(os: seq<Listed>, s: Site) returns (r: Option<Outcome>)
    ensures r == Classify(os, s)
  {
    var local: FieldMap, generated: seq<Generated> := map[], [];
    for i := 0 to |os|
      invariant Classify(os[..i], s) == Some(Outcome(local, generated))
    {
      assert os[..i + 1][..i] == os[..i];
      var next := ClassifyOne(os[i], s, Outcome(local, generated));
      if next == None {
        ClassifyFails(os, s, i + 1);
        return None;
      }
      local, generated := next.value.local, next.value.generated;
    }
    assert os[..|os|] == os;
    return Some(Outcome(local, generated));
  }

  lemma {:induction false} ClassifyFails(os: seq<Listed>, s: Site, i: nat)
    requires i <= |os| && Classify(os[..i], s) == None
    ensures Classify(os, s) == None
    decreases |os|
  {
    hide ClassifyOne;
    if i < |os| {
      var n := |os| - 1;
      assert os[..n][..i] == os[..i];
      ClassifyFails(os[..n], s, i);
    } else {
      assert os[..i] == os;
    }
  }

  method RebuildSelected(os: seq<Listed>, s: Site, gs: seq<Generated>) returns (r: Option<FieldMap>)
    requires forall i :: 0 <= i < |os| ==> IsLocal(os[i], s)
    ensures r == Rebuild(os, s, gs)
  {
    var observed: FieldMap := map[];
    for i := 0 to |os|
      invariant Rebuild(os[..i], s, gs) == Some(observed)
    {
      assert os[..i + 1][..i] == os[..i];
      var next := RebuildOne(os[i], s, gs, observed);
      if next == None {
        RebuildFails(os, s, gs, i + 1);
        return None;
      }
      observed := next.value;
    }
    assert os[..|os|] == os;
    return Some(observed);
  }

  lemma {:induction false} RebuildFails(os: seq<Listed>, s: Site, gs: seq<Generated>, i: nat)
    requires forall k :: 0 <= k < |os| ==> IsLocal(os[k], s)
    requires i <= |os| && Rebuild(os[..i], s, gs) == None
    ensures Rebuild(os, s, gs) == None
    decreases |os|
  {
    hide RebuildOne, IsLocal;
    if i < |os| {
      var n := |os| - 1;
      assert os[..n][..i] == os[..i];
      RebuildFails(os[..n], s, gs, i);
    } else {
      assert os[..i] == os;
    }
  }

  // Text against components

  lemma Regroup(x: string, y: string, z: string, sep: string)
    ensures x + sep + (y + sep + z) == (x + sep + y) + sep + z
  {
  }

  lemma {:induction false} JoinAppend(a: seq<string>, b: seq<string>, sep: string)
    requires a != [] && b != []
    ensures Join(a + b, sep) == Join(a, sep) + sep + Join(b, sep)
    decreases |a|
  {
    var ab := a + b;
    assert ab[0] == a[0] && |ab| > 1 && ab[1..] == a[1..] + b;
    if |a| > 1 {
      JoinAppend(a[1..], b, sep);
      Regroup(a[0], Join(a[1..], sep), Join(b, sep), sep);
    } else {
      assert ab[1..] == b && Join(a, sep) == a[0];
    }
  }

  // Agreement

  /** A record whose file is a test main kept in the build cache. */
  predicate IsGenerated(o: Listed, s: Site) { o.testMain && !Under(PathOf(o), s.root) }

  /** What `go list` promises: file names of local packages are canonical, other
      packages hold nothing below the root, and a generated file is not the
      cache directory itself. */
  predicate HonestRecord(o: Listed, s: Site) {
    && AllPlain(o.directory)
    && (if IsLocal(o, s) then CanonicalName(o.name) else !Under(PathOf(o), s.root))
    && (IsGenerated(o, s) ==> PathOf(o) != s.cache)
  }

  predicate SamePackage(a: Listed, b: Listed) {
    a.package == b.package ==> a.directory == b.directory && a.testMain == b.testMain
  }

  /** Import paths name one package, and no field lists a name twice. */
  predicate Honest(os: seq<Listed>, s: Site) {
    && (forall i :: 0 <= i < |os| ==> HonestRecord(os[i], s))
    && (forall i, j :: 0 <= i < |os| && 0 <= j < |os| ==> SamePackage(os[i], os[j]))
    && (forall i, j :: 0 <= i < j < |os| ==> os[i] != os[j])
  }

  lemma PlainSplits(ps: seq<string>)
    requires ps != [] && AllPlain(ps)
    ensures Split(Join(ps, "/"), "/") == ps
  {
    assert forall i :: 0 <= i < |ps| ==> Lacks(ps[i], '/');
    SplitJoined(ps, '/');
  }

  lemma {:induction false} FilterPlain(ps: seq<string>)
    requires AllPlain(ps)
    ensures Filter(ps) == ps
    decreases ps
  {
    if ps != [] {
      FilterPlain(ps[1..]);
      assert ps == [ps[0]] + ps[1..];
    }
  }

  /** The components of a canonical absolute name, which is their text again. */
  lemma AbsoluteParts(name: string)
    requires CanonicalAbsolute(name)
    ensures if name == "/" then Parts(name) == [] else Parts(name) == Split(name[1..], "/") != []
    ensures name != "/" ==> name == "/" + Join(Parts(name), "/")
  {
    assert name == "/" + name[1..];
    assert Split(name, "/") == [[]] + Split(name[1..], "/");
    var rest := Split(name[1..], "/");
    assert ([[]] + rest)[1..] == rest;
    if name == "/" {
      assert rest == [[]];
      assert [""][1..] == [] && Filter([""]) == [];
    } else {
      FilterPlain(rest);
      JoinSplit(name[1..], '/');
    }
  }

  lemma BelowText(root: seq<string>, rel: seq<string>)
    requires root != [] && rel != []
    ensures "/" + Join(root + rel, "/") == ("/" + Join(root, "/")) + "/" + Join(rel, "/")
  {
    JoinAppend(root, rel, "/");
  }

  lemma UnderHasPrefix(name: string, root: seq<string>)
    requires CanonicalAbsolute(name) && root != [] && Under(Parts(name), root) && Parts(name) != root
    ensures var text := "/" + Join(root, "/") + "/";
      text <= name && name[|text|..] == Text(Parts(name)[|root|..])
  {
    hide Join, Split, Filter, Parts, CanonicalAbsolute;
    AbsoluteParts(name);
    var text, rel := "/" + Join(root, "/") + "/", Parts(name)[|root|..];
    assert Parts(name) == root + rel;
    assert name != "/" by { assert Parts(name) != []; }
    BelowText(root, rel);
    assert name == text + Join(rel, "/");
  }

  lemma PrefixIsAbove(name: string, root: seq<string>)
    requires CanonicalAbsolute(name) && root != [] && AllPlain(root) && "/" + Join(root, "/") + "/" <= name
    ensures Under(Parts(name), root)
  {
    hide Join, Split, Filter, Parts, CanonicalAbsolute;
    AbsoluteParts(name);
    var t := Join(root, "/");
    var text := "/" + t + "/";
    var rest := name[|text|..];
    assert name == text + rest;
    assert name[1..] == t + "/" + rest;
    SplitAround(t, rest, '/');
    PlainSplits(root);
    assert name != "/" by { assert |name| >= |text| >= 2; }
  }

  /** The prefix test on text is the test on components. */
  lemma PrefixIsUnder(name: string, root: seq<string>)
    requires CanonicalAbsolute(name) && Components(root) && Parts(name) != root
    ensures var text := "/" + Join(root, "/") + "/";
      && (text <= name <==> Under(Parts(name), root))
      && (text <= name ==> name[|text|..] == Text(Parts(name)[|root|..]))
  {
    hide Join, Split, Parts, CanonicalAbsolute;
    if Under(Parts(name), root) {
      UnderHasPrefix(name, root);
    } else if "/" + Join(root, "/") + "/" <= name {
      PrefixIsAbove(name, root);
    }
  }

  lemma DotSplits()
    ensures !CanonicalRelative(".")
  {
    assert !("/" <= ".") by { assert "/"[0] != "."[0]; }
    assert "."[1..] == [] && Split("."[1..], "/") == [[]];
    assert Split(".", "/")[0] == ['.'] + [] == ".";
  }

  /** A relative name in a directory. */
  lemma RelativeText(o: Listed, s: Site)
    requires IsLocal(o, s) && !Absolute(o.name) && CanonicalRelative(o.name)
    requires CanonicalRelative(DirectoryText(o, s)) && AllPlain(o.directory)
    ensures Under(PathOf(o), s.root)
    ensures Text(PathOf(o)[|s.root|..]) == DirectoryText(o, s) + "/" + o.name
  {
    hide Split, Join, Filter;
    var d, names := o.directory[|s.root|..], Split(o.name, "/");
    DotSplits();
    FilterPlain(names);
    JoinSplit(o.name, '/');
    JoinAppend(d, names, "/");
    assert PathOf(o)[|s.root|..] == d + names;
  }

  /** A generated file of an honest package is found under its own name. */
  lemma GeneratedName(o: Listed, s: Site, r: Outcome)
    requires s.Valid() && HonestRecord(o, s) && IsLocal(o, s) && IsGenerated(o, s)
    requires ClassifyOne(o, s, r) != None
    ensures Absolute(o.name) && !(s.RootText() + "/" <= o.name)
    ensures o.name == s.CacheText() + "/" + Text(PathOf(o)[|s.cache|..])
  {
    hide Split, Join, Filter;
    AbsoluteParts(o.name);
    PrefixIsUnder(o.name, s.root);
    PrefixIsUnder(o.name, s.cache);
  }

  /** The record one file adds matches another file only when they are the same. */
  lemma MatchesItself(o: Listed, last: Listed, s: Site, before: Outcome, r0: Outcome)
    requires s.Valid() && SamePackage(last, o)
    requires HonestRecord(o, s) && IsLocal(o, s) && IsGenerated(o, s) && ClassifyOne(o, s, r0) != None
    requires HonestRecord(last, s) && ClassifyOne(last, s, before) != None
    ensures var r := ClassifyOne(last, s, before).value;
      if IsGenerated(last, s) then
        exists g :: r.generated == before.generated + [g] && (MatchesRecord(g, o, s) <==> last == o)
      else r.generated == before.generated && last != o
  {
    if IsGenerated(last, s) {
      var r := ClassifyOne(last, s, before).value;
      var g := Generated(last.package, last.field, Text(PathOf(last)[|s.cache|..]));
      assert r.generated == before.generated + [g];
      GeneratedName(o, s, r0);
      if last.package == o.package {
        GeneratedName(last, s, before);
      }
    }
  }

  /** Each generated record of a local package answers exactly one listed file. */
  lemma {:induction false} GeneratedOnce(os: seq<Listed>, s: Site, r: Outcome, o: Listed, r0: Outcome)
    requires s.Valid() && Honest(os, s) && Classify(os, s) == Some(r)
    requires HonestRecord(o, s) && IsLocal(o, s) && IsGenerated(o, s) && ClassifyOne(o, s, r0) != None
    requires forall i :: 0 <= i < |os| ==> SamePackage(os[i], o)
    ensures CountMatches(r.generated, o, s) == if o in os then 1 else 0
    decreases |os|
  {
    hide ClassifyOne, HonestRecord, IsGenerated, MatchesRecord, SamePackage, IsLocal;
    if os != [] {
      var n := |os| - 1;
      var before := Classify(os[..n], s).value;
      GeneratedOnce(os[..n], s, before, o, r0);
      assert os == os[..n] + [os[n]];
      MatchesItself(o, os[n], s, before, r0);
      if IsGenerated(os[n], s) {
        var g := r.generated[|r.generated| - 1];
        assert r.generated[..|r.generated| - 1] == before.generated;
      }
    }
  }

  /** One listed file: the consumer makes the same entry. */
  lemma RecordAgrees(o: Listed, s: Site, r: Outcome, gs: seq<Generated>)
    requires s.Valid() && HonestRecord(o, s) && ClassifyOne(o, s, r) != None && IsLocal(o, s)
    requires s.Linkable(DirectoryText(o, s))
    requires IsGenerated(o, s) ==> CountMatches(gs, o, s) == 1
    ensures RebuildOne(o, s, gs, r.local) == Some(ClassifyOne(o, s, r).value.local)
  {
    if !Absolute(o.name) {
      RelativeText(o, s);
    } else {
      var path := PathOf(o);
      if path == s.root {
        assert false;
      }
      PrefixIsUnder(o.name, s.root);
    }
  }

  lemma ForeignRecord(o: Listed, s: Site, r: Outcome)
    requires HonestRecord(o, s) && ClassifyOne(o, s, r) != None && !IsLocal(o, s)
    ensures ClassifyOne(o, s, r).value.local == r.local
  {
  }

  predicate AllLinkable(os: seq<Listed>, s: Site) {
    forall i :: 0 <= i < |os| && IsLocal(os[i], s) ==> s.Linkable(DirectoryText(os[i], s))
  }

  lemma {:induction false} RebuildFollows(os: seq<Listed>, s: Site, r: Outcome, gs: seq<Generated>)
    requires s.Valid() && Honest(os, s) && AllLinkable(os, s) && Classify(os, s) == Some(r)
    requires forall i :: 0 <= i < |os| && IsLocal(os[i], s) && IsGenerated(os[i], s) ==> CountMatches(gs, os[i], s) == 1
    ensures Rebuild(LocalRecords(os, s), s, gs) == Some(r.local)
    decreases |os|
  {
    hide RebuildOne, IsGenerated, SamePackage, ClassifyOne, HonestRecord;
    if os != [] {
      var n := |os| - 1;
      var before := Classify(os[..n], s).value;
      RebuildFollows(os[..n], s, before, gs);
      if IsLocal(os[n], s) {
        RecordAgrees(os[n], s, before, gs);
        var rest := LocalRecords(os[..n], s);
        assert (rest + [os[n]])[..|rest|] == rest;
      } else {
        ForeignRecord(os[n], s, before);
        assert LocalRecords(os, s) == LocalRecords(os[..n], s);
      }
    }
  }

  lemma RecordRejected(o: Listed, s: Site, gs: seq<Generated>, m: FieldMap)
    requires IsLocal(o, s) && !s.Linkable(DirectoryText(o, s))
    ensures RebuildOne(o, s, gs, m) == None
  {
  }

  lemma {:induction false} RebuildRejects(os: seq<Listed>, s: Site, gs: seq<Generated>, i: nat)
    requires i < |os| && IsLocal(os[i], s) && !s.Linkable(DirectoryText(os[i], s))
    ensures Rebuild(LocalRecords(os, s), s, gs) == None
    decreases |os|
  {
    hide RebuildOne, IsLocal;
    var n := |os| - 1;
    var rest := LocalRecords(os[..n], s);
    if i < n {
      RebuildRejects(os[..n], s, gs, i);
    }
    if IsLocal(os[n], s) {
      assert (rest + [os[n]])[..|rest|] == rest;
      if i == n && Rebuild(rest, s, gs).Some? {
        RecordRejected(os[n], s, gs, Rebuild(rest, s, gs).value);
      }
    } else {
      assert rest + [] == rest;
    }
  }

  lemma PrefixSucceeds(os: seq<Listed>, s: Site, k: nat)
    requires k <= |os| && Classify(os, s) != None
    ensures Classify(os[..k], s) != None
  {
    if Classify(os[..k], s) == None {
      ClassifyFails(os, s, k);
    }
  }

  /** What an honest listing classifies to passes the linkage comparison exactly
      when every local package lies in a production directory.  The capture's
      checks around the classification see to that. */
  lemma {:induction false} LinkageAgrees(os: seq<Listed>, s: Site, r: Outcome)
    requires s.Valid() && Honest(os, s) && Classify(os, s) == Some(r)
    ensures AllLinkable(os, s) ==> Rebuild(LocalRecords(os, s), s, r.generated) == Some(r.local)
    ensures !AllLinkable(os, s) ==> Rebuild(LocalRecords(os, s), s, r.generated) == None
  {
    hide RebuildOne, ClassifyOne, Rebuild, HonestRecord, IsGenerated, CountMatches, LocalRecords, SamePackage,
         DirectoryText;
    if AllLinkable(os, s) {
      forall i | 0 <= i < |os| && IsLocal(os[i], s) && IsGenerated(os[i], s)
        ensures CountMatches(r.generated, os[i], s) == 1
      {
        PrefixSucceeds(os, s, i + 1);
        assert os[..i + 1][..i] == os[..i];
        GeneratedOnce(os, s, r, os[i], Classify(os[..i], s).value);
      }
      RebuildFollows(os, s, r, r.generated);
    } else {
      var i :| 0 <= i < |os| && IsLocal(os[i], s) && !s.Linkable(DirectoryText(os[i], s));
      RebuildRejects(os, s, r.generated, i);
    }
  }

  /** In particular a package in the root directory itself would never pass. */
  lemma {:induction false} RootPackageIsRefused(os: seq<Listed>, s: Site, r: Outcome, i: nat)
    requires s.Valid() && Honest(os, s) && Classify(os, s) == Some(r)
    requires i < |os| && os[i].directory == s.root
    ensures Rebuild(LocalRecords(os, s), s, r.generated) == None
  {
    DotSplits();
    assert DirectoryText(os[i], s) == ".";
    LinkageAgrees(os, s, r);
  }

  // A small honest capture

  const SMALL_SITE := Site(["r"], ["c"], {"cmd/m.go"}, {"cmd"})

  const SOURCE_FILE := Listed("cmd", ["r", "cmd"], false, "GoFiles", "m.go")

  const FOREIGN_FILE := Listed("fmt", ["g", "src", "fmt"], false, "GoFiles", "print.go")

  const TEST_MAIN := Listed("cmd.test", ["r", "cmd"], true, "GoFiles", "/c/x-d")

  lemma OneName(p: string)
    requires Plain(p)
    ensures Split(p, "/") == [p] && Parts(p) == [p]
  {
    PlainSplits([p]);
    FilterPlain([p]);
  }

  lemma CachedName(name: string, parts: seq<string>)
    requires name == "/c/x-d" && parts == ["c", "x-d"]
    ensures Absolute(name) && CanonicalAbsolute(name) && Parts(name) == parts
  {
    hide Split, Filter, Parts;
    assert parts[1..] == ["x-d"] && Join(parts, "/") == "c/x-d";
    PlainSplits(parts);
    assert name[1..] == "c/x-d";
    AbsoluteParts(name);
  }

  lemma SourceRecord(r: Outcome)
    requires r == Outcome(map["cmd/m.go" := {"GoFiles"}], [])
    ensures PathOf(SOURCE_FILE) == ["r", "cmd", "m.go"]
    ensures ClassifyOne(SOURCE_FILE, SMALL_SITE, Outcome(map[], [])) == Some(r)
  {
    hide Split, Filter, Parts;
    var name, path := "m.go", ["r", "cmd", "m.go"];
    OneName(name);
    assert PathOf(SOURCE_FILE) == path;
    var rel := path[1..];
    assert rel == ["cmd", "m.go"] && rel[1..] == [name];
    assert Text(rel) == Join(rel, "/") == "cmd" + "/" + Join(rel[1..], "/") == "cmd/m.go";
    assert Under(path, SMALL_SITE.root) by { assert path[..1] == ["r"]; }
    assert ".." !in path && '\\' !in name;
    var none: set<string> := {};
    assert none + {"GoFiles"} == {"GoFiles"};
    assert AddField(map[], "cmd/m.go", "GoFiles") == map["cmd/m.go" := {"GoFiles"}];
    assert EndsWith(name, ".go") by { assert name[1..] == ".go"; }
  }

  lemma TestMainRecord(r: Outcome)
    ensures PathOf(TEST_MAIN) == ["c", "x-d"]
    ensures ClassifyOne(TEST_MAIN, SMALL_SITE, r)
            == Some(r.(generated := r.generated + [Generated("cmd.test", "GoFiles", "x-d")]))
  {
    hide Split, Filter, Parts, Join;
    var path := ["c", "x-d"];
    CachedName("/c/x-d", path);
    assert PathOf(TEST_MAIN) == path;
    var last := path[1];
    assert path[1..] == [last] && Text([last]) == last by { JoinOne(last); }
    assert EndsWith(last, "-d") by { assert last[1..] == "-d"; }
    assert !Under(path, SMALL_SITE.root) by { assert path[0] != SMALL_SITE.root[0]; }
  }

  lemma JoinOne(p: string)
    ensures Text([p]) == p
  {
  }

  lemma SmallIsHonest(o: Listed)
    requires o == SOURCE_FILE || o == TEST_MAIN
    ensures HonestRecord(o, SMALL_SITE) && IsLocal(o, SMALL_SITE) && SMALL_SITE.Linkable(DirectoryText(o, SMALL_SITE))
  {
    hide Split, Filter, Parts, Join, PathOf, ClassifyOne;
    SourceRecord(Outcome(map["cmd/m.go" := {"GoFiles"}], []));
    TestMainRecord(Outcome(map[], []));
    OneName("m.go");
    OneName("cmd");
    CachedName("/c/x-d", ["c", "x-d"]);
    var d := o.directory;
    assert d == ["r", "cmd"] && d[1..] == ["cmd"];
    JoinOne("cmd");
    assert CanonicalRelative("cmd") && "cmd" in SMALL_SITE.production;
  }

  /** A file of the standard library is passed over. */
  lemma ForeignRecorded(r: Outcome)
    ensures ClassifyOne(FOREIGN_FILE, SMALL_SITE, r) == Some(r)
    ensures HonestRecord(FOREIGN_FILE, SMALL_SITE) && !IsLocal(FOREIGN_FILE, SMALL_SITE)
  {
    hide Split, Filter, Parts;
    var name, path := "print.go", ["g", "src", "fmt", "print.go"];
    OneName(name);
    assert PathOf(FOREIGN_FILE) == path;
    assert EndsWith(name, ".go") by { assert name[5..] == ".go"; }
    assert !Under(path, SMALL_SITE.root) by { assert path[0] != SMALL_SITE.root[0]; }
    assert !IsLocal(FOREIGN_FILE, SMALL_SITE) by { assert FOREIGN_FILE.directory[0] != SMALL_SITE.root[0]; }
    assert ".." !in path && '\\' !in name;
  }

  /** A source file, a file of the standard library and a cached test main:
      classified, honest, and linked. */
  lemma SmallCaptureLinks() returns (os: seq<Listed>, r: Outcome)
    ensures os == [SOURCE_FILE, FOREIGN_FILE, TEST_MAIN]
    ensures SMALL_SITE.Valid() && Honest(os, SMALL_SITE) && Classify(os, SMALL_SITE) == Some(r)
    ensures r.local == map["cmd/m.go" := {"GoFiles"}] && |r.generated| == 1
    ensures Rebuild(LocalRecords(os, SMALL_SITE), SMALL_SITE, r.generated) == Some(r.local)
  {
    hide ClassifyOne, Rebuild, LocalRecords, HonestRecord, IsLocal, DirectoryText, PathOf;
    os := [SOURCE_FILE, FOREIGN_FILE, TEST_MAIN];
    var first := Outcome(map["cmd/m.go" := {"GoFiles"}], []);
    r := first.(generated := [] + [Generated("cmd.test", "GoFiles", "x-d")]);
    SourceRecord(first);
    TestMainRecord(first);
    SmallIsHonest(SOURCE_FILE);
    SmallIsHonest(TEST_MAIN);
    ForeignRecorded(first);
    assert os[..2] == [SOURCE_FILE, FOREIGN_FILE] && os[..2][..1] == [SOURCE_FILE] && [SOURCE_FILE][..0] == [];
    assert Classify([SOURCE_FILE], SMALL_SITE) == Some(first);
    assert Classify(os[..2], SMALL_SITE) == Some(first);
    LinkageAgrees(os, SMALL_SITE, r);
  }
}
