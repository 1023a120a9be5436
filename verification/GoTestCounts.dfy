/**
 What the counts of a test log say: for a passing log by its events, for any log by
 the record each package's own events leave.
*/
module GoTestCounts {
  import opened Wrappers
  import opened GoTestLog
  import opened GoTestLanguage

  /** `n` things have the property. */
  ghost predicate Numbers<T(!new)>(n: nat, property: T -> bool) {
    exists s: set<T> :: |s| == n && forall x :: x in s <==> property(x)
  }

  // Passing logs

  /** In a passing log a test's entry is its complete log. */
  lemma PassingEntry(lines: seq<Line>, required: set<Id>, allowed: set<Id>, exitCode: int, id: Id)
    requires PassingLog(lines, required, allowed, exitCode)
    ensures var s, log := Fold(lines, allowed), TestLog(lines, id);
      && (id in s.tests <==> log != [])
      && (Look(s.tests, id) == Some(Finished(Pass)) <==> CompleteTest(log, Pass))
      && (Look(s.tests, id) == Some(Finished(Skip)) <==> CompleteTest(log, Skip))
      && Look(s.tests, id) != Some(Finished(Fail))
      && (CompleteTest(log, Skip) ==> id in allowed)
  {
    hide TestLog, PackageLog, Fold;
    PassingStaysClean(lines, required, allowed, exitCode, |lines|);
    assert lines[..|lines|] == lines;
    assert TestFits(TestLog(lines, id), Look(Fold(lines, allowed).tests, id), id in allowed);
  }

  lemma PassingPackage(lines: seq<Line>, required: set<Id>, allowed: set<Id>, exitCode: int, p: string)
    requires PassingLog(lines, required, allowed, exitCode)
    ensures p in Fold(lines, allowed).packages <==> PackageLog(lines, p) != []
  {
    hide TestLog, PackageLog, Fold, TestFits;
    PassingStaysClean(lines, required, allowed, exitCode, |lines|);
    assert lines[..|lines|] == lines;
    assert PackageFits(PackageLog(lines, p), Look(Fold(lines, allowed).packages, p));
  }

  /** A passing log: no failure, nothing mandatory missing, and each count is the
      number of tests or packages with such events. */
  lemma CountsOfPassing(lines: seq<Line>, required: set<Id>, allowed: set<Id>, exitCode: int)
    requires PassingLog(lines, required, allowed, exitCode)
    ensures var c := CountsOf(Fold(lines, allowed), lines, required, allowed);
      && c.events == |lines| && c.failed == 0 && c.mandatory == |required| && c.missing == 0
      && Numbers(c.packages, p => PackageLog(lines, p) != [])
      && Numbers(c.started, id => TestLog(lines, id) != [])
      && Numbers(c.passed, id => CompleteTest(TestLog(lines, id), Pass))
      && Numbers(c.skipped, id => CompleteTest(TestLog(lines, id), Skip))
      && forall id :: id in c.skips <==> CompleteTest(TestLog(lines, id), Skip)
  {
    hide TestLog, PackageLog, Fold, CompleteTest, PassingLog;
    var s := Fold(lines, allowed);
    forall id
      ensures id in s.tests <==> TestLog(lines, id) != []
      ensures id in InState(s.tests, Pass) <==> CompleteTest(TestLog(lines, id), Pass)
      ensures id in InState(s.tests, Skip) <==> CompleteTest(TestLog(lines, id), Skip)
      ensures id !in InState(s.tests, Fail)
      ensures CompleteTest(TestLog(lines, id), Skip) ==> id in allowed
    {
      PassingEntry(lines, required, allowed, exitCode, id);
    }
    forall p ensures p in s.packages <==> PackageLog(lines, p) != [] {
      PassingPackage(lines, required, allowed, exitCode, p);
    }
    assert InState(s.tests, Fail) == {};
    PassingPasses(lines, required, allowed, exitCode);
    assert MissingOf(s, required) == {};
    assert |s.tests.Keys| == |s.tests| && |s.packages.Keys| == |s.packages|;
    NumbersOf(s.packages.Keys, p => PackageLog(lines, p) != []);
    NumbersOf(s.tests.Keys, id => TestLog(lines, id) != []);
    NumbersOf(InState(s.tests, Pass), id => CompleteTest(TestLog(lines, id), Pass));
    NumbersOf(InState(s.tests, Skip), id => CompleteTest(TestLog(lines, id), Skip));
  }

  lemma NumbersOf<T(!new)>(s: set<T>, property: T -> bool)
    requires forall x :: x in s <==> property(x)
    ensures Numbers(|s|, property)
  {
  }

  // Any log

  /** What a package's own events leave in the dictionaries. */
  function Record(lines: seq<Line>, p: string): Local { LocalFold(NOTHING, PackageLog(lines, p)) }

  function TestRecord(lines: seq<Line>, id: Id): Option<TestState> { Look(Record(lines, id.package).tests, id.test) }

  lemma RecordIsEntry(lines: seq<Line>, allowed: set<Id>, id: Id)
    ensures Look(Fold(lines, allowed).tests, id) == TestRecord(lines, id)
    ensures Look(Fold(lines, allowed).packages, id.package) == Record(lines, id.package).package
  {
    hide Fold, LocalFold, PackageLog;
    FoldShows(lines, allowed, id.package);
    assert id == Id(id.package, id.test);
  }

  /** Any log, passing or not: every count by the records of the packages. */
  lemma CountsOfAny(lines: seq<Line>, required: set<Id>, allowed: set<Id>)
    ensures var c := CountsOf(Fold(lines, allowed), lines, required, allowed);
      && c.events == |lines| && c.mandatory == |required|
      && Numbers(c.packages, p => Record(lines, p).package != None)
      && Numbers(c.started, id => TestRecord(lines, id) != None)
      && Numbers(c.passed, id => TestRecord(lines, id) == Some(Finished(Pass)))
      && Numbers(c.failed, id => TestRecord(lines, id) == Some(Finished(Fail)))
      && Numbers(c.skipped, id => TestRecord(lines, id) == Some(Finished(Skip)))
      && Numbers(c.missing, id => id in required && !(TestRecord(lines, id) == Some(Finished(Pass))
                                                      && Record(lines, id.package).package == Some(Ended(Pass))))
      && forall id :: id in c.skips <==> id in allowed && TestRecord(lines, id) == Some(Finished(Skip))
  {
    hide Record, TestRecord, Fold;
    var s := Fold(lines, allowed);
    forall id
      ensures Look(s.tests, id) == TestRecord(lines, id)
      ensures Look(s.packages, id.package) == Record(lines, id.package).package
    {
      RecordIsEntry(lines, allowed, id);
    }
    forall p ensures p in s.packages <==> Record(lines, p).package != None { RecordIsEntry(lines, allowed, Id(p, "")); }
    NumbersOf(s.packages.Keys, p => Record(lines, p).package != None);
    NumbersOf(s.tests.Keys, id => TestRecord(lines, id) != None);
    NumbersOf(InState(s.tests, Pass), id => TestRecord(lines, id) == Some(Finished(Pass)));
    NumbersOf(InState(s.tests, Fail), id => TestRecord(lines, id) == Some(Finished(Fail)));
    NumbersOf(InState(s.tests, Skip), id => TestRecord(lines, id) == Some(Finished(Skip)));
    NumbersOf(MissingOf(s, required), id => id in required && !(TestRecord(lines, id) == Some(Finished(Pass))
                                                      && Record(lines, id.package).package == Some(Ended(Pass))));
  }

  // Complete tests of any log

  /** The state after a test's actions, whatever they are. */
  function MoveAll(actions: seq<Action>): Option<TestState> {
    if actions == [] then None
    else
      var before := MoveAll(actions[..|actions| - 1]);
      match Move(before, actions[|actions| - 1])
      case None => before
      case Some(next) => Some(next)
  }

  lemma OpenStep(x: Local, e: Event, t: string, actions: seq<Action>)
    requires x.package == Some(Active) && e.test.Some? && Look(x.tests, t) == MoveAll(actions)
    ensures LocalStep(x, e).package == Some(Active)
    ensures Look(LocalStep(x, e).tests, t) == MoveAll(actions + if e.test == Some(t) then [e.action] else [])
  {
    assert (actions + [e.action])[..|actions|] == actions && actions + [] == actions;
  }

  lemma {:induction false} OpenRecord(es: seq<Event>, t: string)
    requires OpenPackage(es)
    ensures LocalFold(NOTHING, es).package == Some(Active)
    ensures Look(LocalFold(NOTHING, es).tests, t) == MoveAll(Actions(es, t))
    decreases es
  {
    var n := |es| - 1;
    if n == 0 {
      assert es[..0] == [] && Actions(es, t) == [] + [];
    } else {
      hide LocalStep, MoveAll, Look;
      OpenRecord(es[..n], t);
      OpenStep(LocalFold(NOTHING, es[..n]), es[n], t, Actions(es[..n], t));
    }
  }

  lemma ClosedRecord(es: seq<Event>, b: Action, t: string)
    requires ClosedPackage(es, b)
    ensures Look(LocalFold(NOTHING, es).tests, t) == MoveAll(Actions(es, t))
  {
    hide MoveAll;
    var n := |es| - 1;
    OpenRecord(es[..n], t);
    assert Actions(es, t) == Actions(es[..n], t) + [] == Actions(es[..n], t);
    assert LocalFold(NOTHING, es) == LocalStep(LocalFold(NOTHING, es[..n]), es[n]);
  }

  lemma {:induction false} AlternatingState(actions: seq<Action>)
    requires Alternates(actions)
    ensures MoveAll(actions) == Some(if |actions| % 2 == 1 then Running else Paused)
    decreases actions
  {
    var n := |actions| - 1;
    if n > 0 {
      AlternatingState(actions[..n]);
    } else {
      assert actions[..0] == [];
    }
  }

  /** In any log a test whose events make a complete run, inside a package that was
      started once and ended at most once, is recorded with its last action. */
  lemma CompleteIsRecorded(lines: seq<Line>, id: Id, a: Action, b: Action)
    requires Terminal(a) && CompleteTest(TestLog(lines, id), a)
    requires OpenPackage(PackageLog(lines, id.package)) || ClosedPackage(PackageLog(lines, id.package), b)
    ensures TestRecord(lines, id) == Some(Finished(a))
  {
    hide PackageLog, LocalFold, Actions, OpenPackage, ClosedPackage, MoveAll;
    var es := PackageLog(lines, id.package);
    if OpenPackage(es) {
      OpenRecord(es, id.test);
    } else {
      ClosedRecord(es, b, id.test);
    }
    CompleteMoves(TestLog(lines, id), a);
  }

  lemma CompleteMoves(actions: seq<Action>, a: Action)
    requires Terminal(a) && CompleteTest(actions, a)
    ensures MoveAll(actions) == Some(Finished(a))
  {
    AlternatingState(actions[..|actions| - 1]);
  }
}
