/**
 The capture around the classification: which sources it admits, and why an
 honest capture always links.
*/
module CaptureBoundary {
  import opened Wrappers
  import opened Strings
  import opened SelectedInputs

  // What a capture admits

  const BUILD_SUFFIXES := {
    ".go", ".c", ".cc", ".cpp", ".cxx", ".h", ".m", ".f", ".f90", ".s", ".S", ".syso", ".swig", ".swigcxx"
  }

  const EXCLUDED_DIRS := {
    ".git", "node_modules", ".next", ".vercel", "coverage", "__pycache__",
    ".pytest_cache", ".mypy_cache", ".cache", "out", "build", "dist"
  }

  const EMBED_FIELDS := {"EmbedFiles", "TestEmbedFiles", "XTestEmbedFiles"}

  /** The names of the source tree, those pinned by the archive registry, and the
      inputs that static embed directives name. */
  datatype Repository = Repository(files: set<string>, pinned: set<string>, embeds: set<string>)

  predicate Owned(path: string, s: Site) { exists p :: p in s.production && p + "/" <= path }

  predicate BuildInput(path: string) { exists e :: e in BUILD_SUFFIXES && EndsWith(path, e) }

  /** Below a production directory and no excluded one. */
  predicate Placed(path: string, s: Site) {
    Owned(path, s) && forall part :: part in Parts(path) ==> part !in EXCLUDED_DIRS
  }

  function GoSources(repo: Repository): set<string> {
    set p | p in repo.files && EndsWith(p, ".go") && p !in repo.pinned
  }

  /** Every build input that is not pinned is placed, and every Go source can be
      read under its name. */
  predicate BoundaryHolds(repo: Repository, s: Site) {
    && (forall p :: p in repo.files && BuildInput(p) && p !in repo.pinned ==> Placed(p, s))
    && forall p :: p in GoSources(repo) ==> CanonicalRelative(p)
  }

  /** No selected file is embedded without a directive, and no selected Go file is
      outside the sources the boundary check found. */
  predicate Covered(local: FieldMap, repo: Repository) {
    && (forall p :: p in local && local[p] * EMBED_FIELDS != {} ==> p in repo.embeds)
    && forall p :: p in local && EndsWith(p, ".go") ==> p in GoSources(repo)
  }

  /** The producer: what is listed is classified between the two checks. */
  function Capture(os: seq<Listed>, s: Site, repo: Repository): Option<Outcome> {
    if !BoundaryHolds(repo, s) || !(GoSources(repo) <= s.authorized) then None
    else
      match Classify(os, s)
      case None => None
      case Some(r) => if Covered(r.local, repo) then Some(r) else None
  }

  // The loops

  lemma GoIsBuildInput(p: string)
    requires EndsWith(p, ".go")
    ensures BuildInput(p)
  {
    assert ".go" in BUILD_SUFFIXES;
  }

  /** `check`: first the Go sources, then every other build input, then the bytes. */
  method CheckBoundary(repo: Repository, s: Site) returns (production: Option<set<string>>)
    ensures production == if BoundaryHolds(repo, s) then Some(GoSources(repo)) else None
  {
    hide CanonicalRelative, Placed, EndsWith;
    var sources := GoSources(repo);
    if exists p :: p in sources && !Placed(p, s) {
      var p :| p in sources && !Placed(p, s);
      GoIsBuildInput(p);
      return None;
    }
    var todo := repo.files;
    while todo != {}
      invariant todo <= repo.files
      invariant forall p :: p in repo.files - todo && BuildInput(p) && p !in repo.pinned ==> Placed(p, s)
    {
      var p :| p in todo;
      if BuildInput(p) && p !in repo.pinned && !Placed(p, s) {
        return None;
      }
      todo := todo - {p};
    }
    todo := sources;
    while todo != {}
      invariant todo <= sources
      invariant forall p :: p in sources - todo ==> CanonicalRelative(p)
    {
      var p :| p in todo;
      if !CanonicalRelative(p) {
        return None;
      }
      todo := todo - {p};
    }
    return Some(sources);
  }

  method CaptureInputs(os: seq<Listed>, s: Site, repo: Repository) returns (r: Option<Outcome>)
    ensures r == Capture(os, s, repo)
  {
    var production := CheckBoundary(repo, s);
    if production == None || !(production.value <= s.authorized) {
      return None;
    }
    var observed := ClassifyRows(os, s);
    if observed == None {
      return None;
    }
    var local := observed.value.local;
    if exists p :: p in local && local[p] * EMBED_FIELDS != {} && p !in repo.embeds {
      return None;
    }
    if exists p :: p in local && EndsWith(p, ".go") && p !in production.value {
      return None;
    }
    return observed;
  }

  // From an owned source to its directory

  /** A file of `d` below `p` leaves `d` at or below `p`. */
  lemma DirectoryOwned(d: string, name: string, p: string)
    requires '/' !in name && p + "/" <= d + "/" + name
    ensures d == p || p + "/" <= d
  {
    var path := d + "/" + name;
    assert path[|p|] == '/';
    assert forall i :: |d| < i < |path| ==> path[i] == name[i - |d| - 1];
    assert |p| <= |d|;
    if |p| == |d| {
      assert path[..|p|] == p && path[..|d|] == d;
    } else {
      assert (p + "/") == path[..|p| + 1] == d[..|p| + 1];
    }
  }

  lemma NameOwnsNothing(name: string, p: string)
    requires '/' !in name
    ensures !(p + "/" <= name)
  {
    assert (p + "/")[|p|] == '/';
  }

  lemma DirectoryCanonical(d: string, name: string)
    requires CanonicalRelative(d + "/" + name)
    ensures CanonicalRelative(d)
  {
    hide Split;
    SplitAround(d, name, '/');
    var ps, all := Split(d, "/"), Split(d + "/" + name, "/");
    assert d + ['/'] + name == d + "/" + name;
    assert forall i :: 0 <= i < |ps| ==> ps[i] == all[i];
  }

  /** The path of a file listed by its plain name. */
  lemma PlainPath(o: Listed, s: Site)
    requires IsLocal(o, s) && Plain(o.name)
    ensures Under(PathOf(o), s.root)
    ensures RelativePath(o, s) == if o.directory == s.root then o.name else DirectoryText(o, s) + "/" + o.name
  {
    hide Split, Join, Parts;
    OneName(o.name);
    JoinOne(o.name);
    assert !Absolute(o.name);
    var d := o.directory[|s.root|..];
    assert PathOf(o)[|s.root|..] == d + [o.name];
    if d == [] {
      assert o.directory == s.root && d + [o.name] == [o.name];
    } else {
      JoinAppend(d, [o.name], "/");
    }
  }

  /** A readable production source lies in a directory the consumer knows. */
  lemma SourceLinks(o: Listed, s: Site)
    requires IsLocal(o, s) && Plain(o.name) && Under(PathOf(o), s.root)
    requires Owned(RelativePath(o, s), s) && CanonicalRelative(RelativePath(o, s))
    ensures s.Linkable(DirectoryText(o, s))
  {
    hide CanonicalRelative;
    PlainPath(o, s);
    var p :| p in s.production && p + "/" <= RelativePath(o, s);
    if o.directory == s.root {
      NameOwnsNothing(o.name, p);
    } else {
      DirectoryOwned(DirectoryText(o, s), o.name, p);
      DirectoryCanonical(DirectoryText(o, s), o.name);
    }
  }

  // Main result

  predicate OwnSource(o: Listed) { Plain(o.name) && EndsWith(o.name, ".go") }

  /** What `go list` promises of a package directory: some package in it lists a Go
      file of its own. */
  predicate SourcesListed(os: seq<Listed>, s: Site) {
    forall i :: 0 <= i < |os| && IsLocal(os[i], s) ==>
      exists k :: 0 <= k < |os| && os[k].directory == os[i].directory && OwnSource(os[k])
  }

  lemma {:induction false} CapturedIsLinkable(os: seq<Listed>, s: Site, repo: Repository, r: Outcome)
    requires Capture(os, s, repo) == Some(r) && SourcesListed(os, s)
    ensures AllLinkable(os, s)
  {
    hide Classify, CanonicalRelative, EndsWith, Owned, RelativePath, PathOf, Plain;
    forall i | 0 <= i < |os| && IsLocal(os[i], s) ensures s.Linkable(DirectoryText(os[i], s)) {
      var k :| 0 <= k < |os| && os[k].directory == os[i].directory && OwnSource(os[k]);
      PlainPath(os[k], s);
      EntriesExact(os, s, r, RelativePath(os[k], s), os[k].field);
      var path := RelativePath(os[k], s);
      assert EndsWith(path, ".go") by { SourceSuffix(os[k], s); }
      GoIsBuildInput(path);
      assert Placed(path, s) && CanonicalRelative(path);
      SourceLinks(os[k], s);
    }
  }

  lemma SourceSuffix(o: Listed, s: Site)
    requires IsLocal(o, s) && OwnSource(o) && Under(PathOf(o), s.root)
    ensures EndsWith(RelativePath(o, s), ".go")
  {
    hide Plain;
    PlainPath(o, s);
    var path, n := RelativePath(o, s), o.name;
    assert path[|path| - |n|..] == n;
    assert path[|path| - 3..] == n[|n| - 3..];
  }

  /** Every honest capture passes the linkage comparison. */
  lemma {:induction false} CaptureLinks(os: seq<Listed>, s: Site, repo: Repository, r: Outcome)
    requires s.Valid() && Honest(os, s) && SourcesListed(os, s) && Capture(os, s, repo) == Some(r)
    ensures Rebuild(LocalRecords(os, s), s, r.generated) == Some(r.local)
  {
    hide Classify, Rebuild, Honest, SourcesListed, AllLinkable, LocalRecords;
    CapturedIsLinkable(os, s, repo, r);
    LinkageAgrees(os, s, r);
  }

  /** No capture lists a package in the root directory itself. */
  lemma RootIsNotCaptured(os: seq<Listed>, s: Site, repo: Repository, i: nat)
    requires SourcesListed(os, s) && i < |os| && os[i].directory == s.root
    ensures Capture(os, s, repo) == None
  {
    hide Capture, SourcesListed, CanonicalRelative;
    assert DirectoryText(os[i], s) == "." && !CanonicalRelative(".") by { DotSplits(); }
    if Capture(os, s, repo).Some? {
      CapturedIsLinkable(os, s, repo, Capture(os, s, repo).value);
      assert false;
    }
  }

  /** In a captured tree every source file of these languages that the archive does not
      pin lies below a production directory and in no output or cache directory. */
  lemma CapturedTreeIsPlaced(os: seq<Listed>, s: Site, repo: Repository, path: string)
    requires Capture(os, s, repo).Some? && path in repo.files && path !in repo.pinned
    requires exists e :: e in {".go", ".c", ".cc", ".cpp", ".cxx", ".h", ".m", ".f", ".f90", ".s", ".S", ".syso",
                               ".swig", ".swigcxx"} && EndsWith(path, e)
    ensures exists p :: p in s.production && p + "/" <= path
    ensures forall part :: part in {".git", "node_modules", ".next", ".vercel", "coverage", "__pycache__",
                                    ".pytest_cache", ".mypy_cache", ".cache", "out", "build", "dist"} ==>
              part !in Parts(path)
  {
    hide EndsWith, CanonicalRelative, Parts;
    assert BuildInput(path);
    assert Placed(path, s);
  }

  /** What a capture selects for embedding is named by a static directive, and what Go it
      selects was found by the boundary check. */
  lemma SelectedIsDeclared(os: seq<Listed>, s: Site, repo: Repository, r: Outcome, path: string)
    requires Capture(os, s, repo) == Some(r) && path in r.local
    ensures "EmbedFiles" in r.local[path] || "TestEmbedFiles" in r.local[path] || "XTestEmbedFiles" in r.local[path]
        ==> path in repo.embeds
    ensures EndsWith(path, ".go") ==> path in repo.files && path !in repo.pinned && CanonicalRelative(path)
  {
    hide EndsWith, CanonicalRelative, Classify, Placed;
    assert forall f :: f in r.local[path] && f in EMBED_FIELDS ==> f in r.local[path] * EMBED_FIELDS;
    assert EndsWith(path, ".go") ==> path in GoSources(repo);
  }

  // Small listings

  /** The small honest capture is taken. */
  lemma SmallCaptureIsTaken() returns (os: seq<Listed>, repo: Repository, r: Outcome)
    ensures SMALL_SITE.Valid() && Honest(os, SMALL_SITE) && SourcesListed(os, SMALL_SITE)
    ensures Capture(os, SMALL_SITE, repo) == Some(r) && FOREIGN_FILE in os && TEST_MAIN in os
  {
    hide Classify, Rebuild, Honest, LocalRecords, CanonicalRelative, Parts;
    os, r := SmallCaptureLinks();
    var path := "cmd/m.go";
    repo := Repository({path}, {}, {});
    SmallPath(path);
    assert GoSources(repo) == {path} == SMALL_SITE.authorized;
    assert BoundaryHolds(repo, SMALL_SITE);
    assert Covered(r.local, repo);
    MainSource(SOURCE_FILE);
    assert os[0] == SOURCE_FILE && os[2].directory == SOURCE_FILE.directory;
    ForeignRecorded(r);
  }

  lemma MainSource(o: Listed)
    requires o.name == "m.go"
    ensures OwnSource(o)
  {
    assert o.name[1..] == ".go";
  }

  lemma SmallPath(path: string)
    requires path == "cmd/m.go"
    ensures EndsWith(path, ".go") && CanonicalRelative(path) && Placed(path, SMALL_SITE)
  {
    hide Split, Filter;
    var parts := ["cmd", "m.go"];
    assert parts[1..] == ["m.go"] && Join(parts, "/") == path;
    PlainSplits(parts);
    FilterPlain(parts);
    assert path[5..] == ".go";
    assert "cmd" + "/" <= path;
  }

  const ROOT_FILE := Listed("m", ["r"], false, "GoFiles", "m.go")

  const ROOT_SITE := Site(["r"], ["c"], {"m.go"}, {"cmd"})

  /** A package in the root directory shows that the boundary check is needed: the
      classification alone takes it, the consumer refuses it, and no capture
      holds it. */
  lemma RootNeedsBoundary(repo: Repository) returns (os: seq<Listed>, r: Outcome)
    ensures ROOT_SITE.Valid() && Honest(os, ROOT_SITE) && SourcesListed(os, ROOT_SITE)
    ensures Classify(os, ROOT_SITE) == Some(r) && Rebuild(LocalRecords(os, ROOT_SITE), ROOT_SITE, r.generated) == None
    ensures Capture(os, ROOT_SITE, repo) == None
  {
    hide Rebuild, LocalRecords, Capture, ClassifyOne, HonestRecord, OwnSource;
    os := [ROOT_FILE];
    r := Outcome(map["m.go" := {"GoFiles"}], []);
    RootRecord(r);
    MainSource(ROOT_FILE);
    assert os[..0] == [] && Classify([], ROOT_SITE) == Some(Outcome(map[], []));
    assert os[0] == ROOT_FILE;
    RootPackageIsRefused(os, ROOT_SITE, r, 0);
    RootIsNotCaptured(os, ROOT_SITE, repo, 0);
  }

  lemma RootRecord(r: Outcome)
    requires r == Outcome(map["m.go" := {"GoFiles"}], [])
    ensures HonestRecord(ROOT_FILE, ROOT_SITE)
    ensures ClassifyOne(ROOT_FILE, ROOT_SITE, Outcome(map[], [])) == Some(r)
  {
    hide Split, Filter, Parts;
    var name := "m.go";
    OneName(name);
    JoinOne(name);
    MainSource(ROOT_FILE);
    var path := ["r", name];
    assert PathOf(ROOT_FILE) == path && path[1..] == [name];
    assert Under(path, ROOT_SITE.root) by { assert path[..1] == ["r"]; }
    var none: set<string> := {};
    assert none + {"GoFiles"} == {"GoFiles"};
    assert AddField(map[], name, "GoFiles") == r.local;
  }
}
