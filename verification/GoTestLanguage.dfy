/**
 The logs that pass, described without the automata; the evaluator accepts
 exactly this language, and only the order inside each package matters.
*/
module GoTestLanguage {
  import opened Wrappers
  import opened GoTestLog

  /** A non-output event of one package; `None` is the package itself. */
  datatype Event = Event(action: Action, test: Option<string>)

  function EventOf(l: Line): Event
    requires IsEvent(l)
  {
    Event(l.action.value, if l.test.Test? then Some(l.test.name) else None)
  }

  /** The lines that are events of a package: not output, and otherwise well formed. */
  predicate Concerns(l: Line, p: string) {
    && l.Object? && l.action.Some? && l.action.value != Output
    && p != "" && l.package == Some(p) && l.test != BadTest
  }

  function PackageLog(lines: seq<Line>, p: string): seq<Event> {
    if lines == [] then []
    else
      var n := |lines| - 1;
      PackageLog(lines[..n], p) + if Concerns(lines[n], p) then [EventOf(lines[n])] else []
  }

  /** The actions of one test among a package's events. */
  function Actions(es: seq<Event>, t: string): seq<Action> {
    if es == [] then []
    else
      var n := |es| - 1;
      Actions(es[..n], t) + if es[n].test == Some(t) then [es[n].action] else []
  }

  function TestLog(lines: seq<Line>, id: Id): seq<Action> { Actions(PackageLog(lines, id.package), id.test) }

  // The language

  const STARTED := Event(Start, None)

  /** One start, then only test events. */
  predicate OpenPackage(es: seq<Event>) {
    es != [] && es[0] == STARTED && forall i :: 1 <= i < |es| ==> es[i].test.Some?
  }

  predicate ClosedPackage(es: seq<Event>, a: Action) {
    |es| >= 2 && OpenPackage(es[..|es| - 1]) && es[|es| - 1] == Event(a, None)
  }

  /** One start and one passing or skipping end around the test events; a
      skipped package has none. */
  predicate GoodPackage(es: seq<Event>) {
    ClosedPackage(es, Pass) || (ClosedPackage(es, Skip) && |es| == 2)
  }

  /** run, then pauses and continuations in turn. */
  predicate Alternates(actions: seq<Action>) {
    && actions != [] && actions[0] == Run
    && forall i :: 1 <= i < |actions| ==> actions[i] == if i % 2 == 1 then Pause else Cont
  }

  predicate CompleteTest(actions: seq<Action>, a: Action) {
    var n := |actions|;
    n >= 2 && n % 2 == 0 && Alternates(actions[..n - 1]) && actions[n - 1] == a
  }

  predicate GoodTest(actions: seq<Action>, skippable: bool) {
    CompleteTest(actions, Pass) || (CompleteTest(actions, Skip) && skippable)
  }

  /** A line with an action, a package and, if any, a test by name; output has text, and
      no other line reports a failed build. */
  predicate GoodLine(l: Line) {
    && l.Object? && l.action.Some? && l.package.Some? && l.package.value != "" && l.test != BadTest
    && if l.action.value == Output then l.text else !l.failedBuild
  }

  ghost predicate PassingLog(lines: seq<Line>, required: set<Id>, allowed: set<Id>, exitCode: int) {
    && exitCode == 0
    && (forall i :: 0 <= i < |lines| ==> GoodLine(lines[i]))
    && (forall p :: PackageLog(lines, p) == [] || GoodPackage(PackageLog(lines, p)))
    && (forall id :: TestLog(lines, id) == [] || GoodTest(TestLog(lines, id), id in allowed))
    && (forall id :: id in required ==>
          CompleteTest(TestLog(lines, id), Pass) && ClosedPackage(PackageLog(lines, id.package), Pass))
    && (exists id :: TestLog(lines, id) != [])
  }

  // What the dictionaries record after a clean prefix

  predicate PackageFits(es: seq<Event>, s: Option<PackageState>) {
    match s
    case None => es == []
    case Some(Active) => OpenPackage(es)
    case Some(Ended(a)) => GoodPackage(es) && ClosedPackage(es, a)
  }

  predicate TestFits(actions: seq<Action>, s: Option<TestState>, skippable: bool) {
    match s
    case None => actions == []
    case Some(Running) => Alternates(actions) && |actions| % 2 == 1
    case Some(Paused) => Alternates(actions) && |actions| % 2 == 0
    case Some(Finished(a)) => GoodTest(actions, skippable) && CompleteTest(actions, a)
  }

  ghost predicate Sync(s: State, lines: seq<Line>, allowed: set<Id>) {
    && (forall p :: PackageFits(PackageLog(lines, p), Look(s.packages, p)))
    && (forall id :: TestFits(TestLog(lines, id), Look(s.tests, id), id in allowed))
    && (forall id :: id in s.tests && !s.tests[id].Finished? ==> Look(s.packages, id.package) == Some(Active))
  }

  lemma LogNext(lines: seq<Line>, l: Line, p: string)
    ensures PackageLog(lines + [l], p) == PackageLog(lines, p) + if Concerns(l, p) then [EventOf(l)] else []
  {
    assert (lines + [l])[..|lines|] == lines;
  }

  lemma ActionsNext(es: seq<Event>, e: Event, t: string)
    ensures Actions(es + [e], t) == Actions(es, t) + if e.test == Some(t) then [e.action] else []
  {
    assert (es + [e])[..|es|] == es;
  }

  lemma TestLogNext(lines: seq<Line>, l: Line, id: Id)
    ensures TestLog(lines + [l], id) ==
            TestLog(lines, id)
            + if Concerns(l, id.package) && EventOf(l).test == Some(id.test) then [EventOf(l).action] else []
  {
    LogNext(lines, l, id.package);
    assert PackageLog(lines, id.package) + [] == PackageLog(lines, id.package);
    assert TestLog(lines, id) + [] == TestLog(lines, id);
    if Concerns(l, id.package) { ActionsNext(PackageLog(lines, id.package), EventOf(l), id.test); }
  }

  lemma OpenNext(es: seq<Event>, e: Event)
    requires OpenPackage(es)
    ensures e.test.Some? <==> OpenPackage(es + [e])
    ensures e.test == None ==> ClosedPackage(es + [e], e.action)
  {
    var r := es + [e];
    assert r[..|es|] == es && r[0] == es[0] && r[|es|] == e;
    assert forall i :: 1 <= i < |es| ==> r[i] == es[i];
  }

  lemma AlternatesNext(actions: seq<Action>, a: Action)
    ensures Alternates(actions + [a]) <==>
            if actions == [] then a == Run
            else Alternates(actions) && a == if |actions| % 2 == 1 then Pause else Cont
  {
    var r := actions + [a];
    assert r[|actions|] == a;
    assert forall i :: 0 <= i < |actions| ==> r[i] == actions[i];
    if Alternates(r) && actions != [] {
      assert Alternates(actions) by {
        forall i | 1 <= i < |actions| ensures actions[i] == if i % 2 == 1 then Pause else Cont {
          assert actions[i] == r[i];
        }
      }
    }
  }

  /** How a test's shape grows by one action. */
  lemma TestNext(actions: seq<Action>, a: Action)
    ensures Alternates(actions + [a]) <==>
            if actions == [] then a == Run
            else Alternates(actions) && a == if |actions| % 2 == 1 then Pause else Cont
    ensures forall b :: CompleteTest(actions + [a], b) <==> a == b && Alternates(actions) && |actions| % 2 == 1
  {
    hide Alternates;
    AlternatesNext(actions, a);
    assert (actions + [a])[..|actions|] == actions;
    if actions == [] { NothingAlternates(actions); }
  }

  lemma NothingAlternates(actions: seq<Action>)
    requires actions == []
    ensures !Alternates(actions)
  {
  }

  /** A test with no events has none in a package without test events. */
  lemma {:induction false} NoTestEvents(es: seq<Event>, t: string)
    requires forall i :: 0 <= i < |es| ==> es[i].test == None
    ensures Actions(es, t) == []
    decreases es
  {
    if es != [] { NoTestEvents(es[..|es| - 1], t); }
  }

  lemma {:induction false} SomeTestEvent(es: seq<Event>, i: nat, t: string)
    requires i < |es| && es[i].test == Some(t)
    ensures Actions(es, t) != []
    decreases es
  {
    if i < |es| - 1 { SomeTestEvent(es[..|es| - 1], i, t); }
  }

  // Accepted logs are in the language

  /** A package whose tests recorded nothing holds only its start. */
  lemma OnlyStarted(es: seq<Event>)
    requires OpenPackage(es) && forall t :: Actions(es, t) == []
    ensures |es| == 1
  {
    if |es| > 1 { SomeTestEvent(es, 1, es[1].test.value); }
  }

  /** What a clean step does to one package's entry. */
  lemma StepPackage(s: State, l: Line, allowed: set<Id>, p: string)
    requires s.clean && Step(s, l, allowed).clean
    ensures var before, after := Look(s.packages, p), Look(Step(s, l, allowed).packages, p);
      if !Concerns(l, p) then after == before
      else
        var e := EventOf(l);
        if e.action == Start then e == STARTED && before == None && after == Some(Active)
        else
          && before == Some(Active)
          && if e.test.Some? then after == Some(Active)
             else
               && after == Some(Ended(e.action)) && (e.action == Pass || e.action == Skip)
               && (e.action == Skip ==> !HasTests(s, p)) && !Unfinished(s, p)
  {
    hide HasTests, Unfinished;
  }

  /** What a clean step does to one test's entry. */
  lemma StepOneTest(s: State, l: Line, allowed: set<Id>, id: Id)
    requires s.clean && Step(s, l, allowed).clean
    ensures var before, after := Look(s.tests, id), Look(Step(s, l, allowed).tests, id);
      if !(Concerns(l, id.package) && EventOf(l).test == Some(id.test)) then after == before
      else
        var a := EventOf(l).action;
        || (a == Run && before == None && after == Some(Running))
        || (a == Pause && before == Some(Running) && after == Some(Paused))
        || (a == Cont && before == Some(Paused) && after == Some(Running))
        || ((a == Pass || (a == Skip && id in allowed)) && before == Some(Running) && after == Some(Finished(a)))
  {
    hide HasTests, Unfinished;
    if IsEvent(l) && l.test.Test? {
      assert l.package.value == id.package && l.test.name == id.test ==> Id(l.package.value, l.test.name) == id;
    }
  }

  lemma PackageLogNext(s: State, lines: seq<Line>, l: Line, allowed: set<Id>, p: string)
    requires Sync(s, lines, allowed) && s.clean && Step(s, l, allowed).clean
    ensures PackageFits(PackageLog(lines + [l], p), Look(Step(s, l, allowed).packages, p))
  {
    hide Step, TestFits;
    LogNext(lines, l, p);
    StepPackage(s, l, allowed, p);
    var es := PackageLog(lines, p);
    assert es + [] == es;
    assert PackageFits(es, Look(s.packages, p));
    if Concerns(l, p) {
      var e := EventOf(l);
      if e.action == Start {
        assert es + [e] == [STARTED];
      } else {
        OpenNext(es, e);
        if e.test == None && e.action == Skip {
          forall t ensures Actions(es, t) == [] {
            assert TestFits(TestLog(lines, Id(p, t)), Look(s.tests, Id(p, t)), Id(p, t) in allowed);
            AbsentTest(s, lines, allowed, Id(p, t));
          }
          OnlyStarted(es);
        }
      }
    }
  }

  lemma AbsentTest(s: State, lines: seq<Line>, allowed: set<Id>, id: Id)
    requires TestFits(TestLog(lines, id), Look(s.tests, id), id in allowed) && id !in s.tests
    ensures TestLog(lines, id) == []
  {
  }

  lemma TestLogFits(s: State, lines: seq<Line>, l: Line, allowed: set<Id>, id: Id)
    requires Sync(s, lines, allowed) && s.clean && Step(s, l, allowed).clean
    ensures TestFits(TestLog(lines + [l], id), Look(Step(s, l, allowed).tests, id), id in allowed)
  {
    hide Step, PackageFits, TestLog;
    TestLogNext(lines, l, id);
    StepOneTest(s, l, allowed, id);
    var actions := TestLog(lines, id);
    assert actions + [] == actions;
    assert TestFits(actions, Look(s.tests, id), id in allowed);
    if Concerns(l, id.package) && EventOf(l).test == Some(id.test) {
      TestNext(actions, EventOf(l).action);
    }
  }

  lemma SyncNext(s: State, lines: seq<Line>, l: Line, allowed: set<Id>)
    requires Sync(s, lines, allowed) && s.clean && Step(s, l, allowed).clean
    ensures Sync(Step(s, l, allowed), lines + [l], allowed) && GoodLine(l)
  {
    hide PackageFits, TestFits, PackageLog, TestLog;
    forall p ensures PackageFits(PackageLog(lines + [l], p), Look(Step(s, l, allowed).packages, p)) {
      PackageLogNext(s, lines, l, allowed, p);
    }
    forall id ensures TestFits(TestLog(lines + [l], id), Look(Step(s, l, allowed).tests, id), id in allowed) {
      TestLogFits(s, lines, l, allowed, id);
    }
  }

  /** A prefix reported on without problems is in step with its events. */
  lemma {:induction false} CleanInSync(lines: seq<Line>, allowed: set<Id>)
    requires Fold(lines, allowed).clean
    ensures Sync(Fold(lines, allowed), lines, allowed)
    ensures forall i :: 0 <= i < |lines| ==> GoodLine(lines[i])
    decreases lines
  {
    if lines != [] {
      var n := |lines| - 1;
      var s := Fold(lines[..n], allowed);
      StaysDirty(s, lines[n], allowed);
      CleanInSync(lines[..n], allowed);
      SyncNext(s, lines[..n], lines[n], allowed);
      assert lines == lines[..n] + [lines[n]];
    }
  }

  lemma StaysDirty(s: State, l: Line, allowed: set<Id>)
    ensures Step(s, l, allowed).clean ==> s.clean
  {
  }

  // Logs in the language are accepted

  lemma {:induction false} LogAppend(a: seq<Line>, b: seq<Line>, p: string)
    ensures PackageLog(a + b, p) == PackageLog(a, p) + PackageLog(b, p)
    decreases b
  {
    if b == [] {
      assert a + b == a;
    } else {
      var n := |b| - 1;
      LogAppend(a, b[..n], p);
      assert (a + b)[..|a| + n] == a + b[..n];
    }
  }

  lemma {:induction false} ActionsAppend(a: seq<Event>, b: seq<Event>, t: string)
    ensures Actions(a + b, t) == Actions(a, t) + Actions(b, t)
    decreases b
  {
    if b == [] {
      assert a + b == a;
    } else {
      var n := |b| - 1;
      ActionsAppend(a, b[..n], t);
      assert (a + b)[..|a| + n] == a + b[..n];
    }
  }

  /** Where one event may stand in a good package. */
  lemma GoodPosition(before: seq<Event>, e: Event, after: seq<Event>)
    requires GoodPackage(before + [e] + after)
    ensures if before == [] then e == STARTED && after != []
            else
              && OpenPackage(before)
              && (e.test == None ==> after == [] && (e.action == Pass || (e.action == Skip && |before| == 1)))
    ensures forall a :: !ClosedPackage(before, a)
  {
    var es := before + [e] + after;
    assert es[|before|] == e;
    assert forall i :: 0 <= i < |before| ==> es[i] == before[i];
    assert forall i :: 0 <= i < |es| - 1 ==> es[..|es| - 1][i] == es[i];
    if after == [] { assert es == before + [e]; }
  }

  /** Where one action may stand in a good test. */
  lemma GoodAction(before: seq<Action>, a: Action, after: seq<Action>, skippable: bool)
    requires GoodTest(before + [a] + after, skippable)
    ensures a != Start && a != Bench && a != Output
    ensures if before == [] then a == Run
            else
              && Alternates(before)
              && if after != [] then a == if |before| % 2 == 1 then Pause else Cont
                 else |before| % 2 == 1 && (a == Pass || (a == Skip && skippable))
  {
    var r := before + [a] + after;
    var n := |r|;
    assert r[|before|] == a;
    assert forall i :: 0 <= i < |before| ==> r[i] == before[i];
    assert forall i :: 0 <= i < n - 1 ==> r[..n - 1][i] == r[i];
  }

  /** Complete tests are recorded as finished. */
  lemma CompleteRecorded(actions: seq<Action>, s: Option<TestState>, skippable: bool)
    requires TestFits(actions, s, skippable) && actions != [] && GoodTest(actions, skippable)
    ensures s.Some? && s.value.Finished?
    ensures CompleteTest(actions, Pass) ==> s == Some(Finished(Pass))
  {
    var n := |actions|;
    assert !Alternates(actions);
  }

  /** What a test with a given shape must be recorded as. */
  lemma OngoingRecorded(actions: seq<Action>, s: Option<TestState>, skippable: bool)
    requires TestFits(actions, s, skippable)
    ensures actions == [] ==> s == None
    ensures actions != [] && Alternates(actions) ==> s == Some(if |actions| % 2 == 1 then Running else Paused)
  {
    var n := |actions|;
    if actions != [] && Alternates(actions) && n % 2 == 0 { assert actions[n - 1] == Pause; }
  }

  lemma TestStepClean(s: State, before: seq<Action>, a: Action, after: seq<Action>, id: Id, allowed: set<Id>)
    requires s.clean && TestFits(before, Look(s.tests, id), id in allowed)
    requires GoodTest(before + [a] + after, id in allowed)
    ensures StepTest(s, id, a, allowed).clean
  {
    GoodAction(before, a, after, id in allowed);
    OngoingRecorded(before, Look(s.tests, id), id in allowed);
  }

  lemma EndStepClean(s: State, lines: seq<Line>, before: seq<Event>, p: string, a: Action, allowed: set<Id>)
    requires s.clean && Sync(s, lines, allowed) && before == PackageLog(lines, p) && OpenPackage(before)
    requires a == Pass || (a == Skip && |before| == 1)
    requires forall t :: Actions(before, t) == [] || GoodTest(Actions(before, t), Id(p, t) in allowed)
    ensures EndPackage(s, p, a).clean
  {
    hide TestFits, GoodTest, PackageFits, PackageLog, Actions;
    forall id | id in s.tests && id.package == p ensures s.tests[id].Finished? && a != Skip {
      var actions := TestLog(lines, id);
      assert TestFits(actions, Look(s.tests, id), id in allowed);
      assert actions == Actions(before, id.test) && id == Id(p, id.test);
      if actions == [] { EmptyRecorded(actions, Look(s.tests, id), id in allowed); }
      CompleteRecorded(actions, Look(s.tests, id), id in allowed);
      if a == Skip { NoTestEvents(before, id.test); }
    }
  }

  lemma EmptyRecorded(actions: seq<Action>, s: Option<TestState>, skippable: bool)
    requires TestFits(actions, s, skippable) && actions == []
    ensures s == None
  {
  }

  /** The events of one package and one test around a line. */
  lemma Around(pre: seq<Line>, l: Line, post: seq<Line>, p: string, t: string)
    requires Concerns(l, p)
    ensures PackageLog(pre + [l] + post, p) == PackageLog(pre, p) + [EventOf(l)] + PackageLog(post, p)
    ensures Actions(PackageLog(pre + [l] + post, p), t) ==
              Actions(PackageLog(pre, p), t) + (if EventOf(l).test == Some(t) then [EventOf(l).action] else [])
              + Actions(PackageLog(post, p), t)
  {
    LogAppend(pre + [l], post, p);
    LogNext(pre, l, p);
    ActionsAppend(PackageLog(pre, p) + [EventOf(l)], PackageLog(post, p), t);
    ActionsNext(PackageLog(pre, p), EventOf(l), t);
  }

  lemma TestLineClean(s: State, pre: seq<Line>, l: Line, post: seq<Line>, allowed: set<Id>, id: Id)
    requires s.clean && Sync(s, pre, allowed) && Concerns(l, id.package) && EventOf(l).test == Some(id.test)
    requires GoodTest(TestLog(pre + [l] + post, id), id in allowed)
    ensures StepTest(s, id, EventOf(l).action, allowed).clean
    ensures EventOf(l).action != Start
  {
    hide GoodTest, TestFits, PackageLog, StepTest;
    Around(pre, l, post, id.package, id.test);
    var x, y, a := TestLog(pre, id), TestLog(post, id), EventOf(l).action;
    assert TestLog(pre + [l] + post, id) == x + [a] + y;
    assert TestFits(x, Look(s.tests, id), id in allowed);
    GoodAction(x, a, y, id in allowed);
    TestStepClean(s, x, a, y, id, allowed);
  }

  lemma EndLineClean(s: State, pre: seq<Line>, l: Line, post: seq<Line>, allowed: set<Id>, p: string)
    requires s.clean && Sync(s, pre, allowed) && Concerns(l, p) && EventOf(l).test == None
    requires PackageLog(pre, p) != [] && GoodPackage(PackageLog(pre + [l] + post, p))
    requires forall id :: TestLog(pre + [l] + post, id) == [] || GoodTest(TestLog(pre + [l] + post, id), id in allowed)
    ensures EndPackage(s, p, EventOf(l).action).clean
  {
    hide GoodTest, PackageLog, EndPackage, Sync, GoodPackage;
    var before, e := PackageLog(pre, p), EventOf(l);
    Around(pre, l, post, p, "");
    GoodPosition(before, e, PackageLog(post, p));
    forall t ensures Actions(before, t) == [] || GoodTest(Actions(before, t), Id(p, t) in allowed) {
      Around(pre, l, post, p, t);
      assert Actions([], t) == [] && Actions(before, t) + [] + [] == Actions(before, t);
      assert TestLog(pre + [l] + post, Id(p, t)) == Actions(before, t);
    }
    EndStepClean(s, pre, before, p, e.action, allowed);
  }

  /** In a passing log no line is a misstep. */
  lemma StepClean(s: State, pre: seq<Line>, l: Line, post: seq<Line>, allowed: set<Id>)
    requires s.clean && Sync(s, pre, allowed) && GoodLine(l)
    requires forall p :: PackageLog(pre + [l] + post, p) == [] || GoodPackage(PackageLog(pre + [l] + post, p))
    requires forall id :: TestLog(pre + [l] + post, id) == [] || GoodTest(TestLog(pre + [l] + post, id), id in allowed)
    ensures Step(s, l, allowed).clean
  {
    hide TestFits, GoodTest, GoodPackage, PackageLog, TestLog, StepTest, EndPackage;
    if IsEvent(l) {
      var p, e := l.package.value, EventOf(l);
      var before := PackageLog(pre, p);
      Around(pre, l, post, p, if e.test.Some? then e.test.value else "");
      GoodPosition(before, e, PackageLog(post, p));
      assert PackageFits(before, Look(s.packages, p));
      if e.test.Some? {
        var id := Id(p, e.test.value);
        TestRecorded(pre, l, post, id);
        TestLineClean(s, pre, l, post, allowed, id);
      } else if before != [] {
        EndLineClean(s, pre, l, post, allowed, p);
      }
    }
  }

  lemma TestRecorded(pre: seq<Line>, l: Line, post: seq<Line>, id: Id)
    requires Concerns(l, id.package) && EventOf(l).test == Some(id.test)
    ensures TestLog(pre + [l] + post, id) != []
  {
    Around(pre, l, post, id.package, id.test);
  }

  lemma EmptyInSync(allowed: set<Id>)
    ensures Fold([], allowed).clean && Sync(Fold([], allowed), [], allowed)
  {
  }

  lemma {:induction false} PassingStaysClean(lines: seq<Line>, required: set<Id>, allowed: set<Id>, exitCode: int,
      k: nat)
    requires PassingLog(lines, required, allowed, exitCode) && k <= |lines|
    ensures Fold(lines[..k], allowed).clean && Sync(Fold(lines[..k], allowed), lines[..k], allowed)
  {
    hide Step, GoodPackage, GoodTest, CompleteTest, ClosedPackage, PackageFits, TestFits;
    if k == 0 {
      EmptyInSync(allowed);
    } else {
      PassingStaysClean(lines, required, allowed, exitCode, k - 1);
      var pre, l, post := lines[..k - 1], lines[k - 1], lines[k..];
      assert pre + [l] + post == lines && lines[..k] == pre + [l];
      assert lines[..k][..k - 1] == pre;
      StepClean(Fold(pre, allowed), pre, l, post, allowed);
      SyncNext(Fold(pre, allowed), pre, l, allowed);
    }
  }

  /** The evaluator passes exactly the logs of the language. */
  lemma PassesIffInLanguage(lines: seq<Line>, required: set<Id>, allowed: set<Id>, exitCode: int)
    ensures Passes(Fold(lines, allowed), lines, required, exitCode) <==> PassingLog(lines, required, allowed, exitCode)
  {
    if Passes(Fold(lines, allowed), lines, required, exitCode) {
      PassedIsPassing(lines, required, allowed, exitCode);
    }
    if PassingLog(lines, required, allowed, exitCode) {
      PassingPasses(lines, required, allowed, exitCode);
    }
  }

  lemma PassedIsPassing(lines: seq<Line>, required: set<Id>, allowed: set<Id>, exitCode: int)
    requires Passes(Fold(lines, allowed), lines, required, exitCode)
    ensures PassingLog(lines, required, allowed, exitCode)
  {
    hide PackageLog, TestLog;
    var s := Fold(lines, allowed);
    CleanInSync(lines, allowed);
    forall p ensures PackageLog(lines, p) == [] || GoodPackage(PackageLog(lines, p)) {
      assert PackageFits(PackageLog(lines, p), Look(s.packages, p));
    }
    forall id ensures TestLog(lines, id) == [] || GoodTest(TestLog(lines, id), id in allowed) {
      assert TestFits(TestLog(lines, id), Look(s.tests, id), id in allowed);
    }
    forall id | id in required
      ensures CompleteTest(TestLog(lines, id), Pass) && ClosedPackage(PackageLog(lines, id.package), Pass)
    {
      assert !MissingRequired(s, id);
      assert TestFits(TestLog(lines, id), Look(s.tests, id), id in allowed);
      assert PackageFits(PackageLog(lines, id.package), Look(s.packages, id.package));
    }
    var id :| id in s.tests;
    assert TestFits(TestLog(lines, id), Look(s.tests, id), id in allowed);
  }

  lemma PassingPasses(lines: seq<Line>, required: set<Id>, allowed: set<Id>, exitCode: int)
    requires PassingLog(lines, required, allowed, exitCode)
    ensures Passes(Fold(lines, allowed), lines, required, exitCode)
  {
    hide PackageLog, TestLog, TestFits;
    var s := Fold(lines, allowed);
    PassingStaysClean(lines, required, allowed, exitCode, |lines|);
    assert lines[..|lines|] == lines;
    forall p | p in s.packages ensures s.packages[p] != Active {
      assert PackageFits(PackageLog(lines, p), Look(s.packages, p));
      NotOpenWhenGood(PackageLog(lines, p));
    }
    forall id | TestLog(lines, id) != [] || id in s.tests ensures id in s.tests && s.tests[id].Finished? {
      assert TestFits(TestLog(lines, id), Look(s.tests, id), id in allowed);
      if TestLog(lines, id) == [] { EmptyRecorded(TestLog(lines, id), Look(s.tests, id), id in allowed); }
      CompleteRecorded(TestLog(lines, id), Look(s.tests, id), id in allowed);
    }
    forall id | id in required ensures !MissingRequired(s, id) {
      assert TestFits(TestLog(lines, id), Look(s.tests, id), id in allowed);
      CompleteRecorded(TestLog(lines, id), Look(s.tests, id), id in allowed);
      assert PackageFits(PackageLog(lines, id.package), Look(s.packages, id.package));
      NotOpenWhenGood(PackageLog(lines, id.package));
    }
    var id :| TestLog(lines, id) != [];
    assert id in s.tests;
    EmptyLogHasNoTests(lines, id);
  }

  lemma NotOpenWhenGood(es: seq<Event>)
    requires es != [] && GoodPackage(es)
    ensures !OpenPackage(es)
  {
    assert es[|es| - 1].test == None;
  }

  lemma EmptyLogHasNoTests(lines: seq<Line>, id: Id)
    requires TestLog(lines, id) != []
    ensures lines != []
  {
  }

  // Only the order inside a package matters, and there only per test

  /** One package's part of the dictionaries. */
  datatype Local = Local(package: Option<PackageState>, tests: map<string, TestState>)

  function LocalMove(x: Local, t: string, a: Action): (r: Local)
    ensures r.package == x.package
  {
    match Move(Look(x.tests, t), a)
    case None => x
    case Some(next) => x.(tests := x.tests[t := next])
  }

  function LocalStep(x: Local, e: Event): Local {
    if e.action == Start then if e.test.Some? || x.package.Some? then x else x.(package := Some(Active))
    else if x.package != Some(Active) then x
    else
      match e.test
      case None => if Terminal(e.action) then x.(package := Some(Ended(e.action))) else x
      case Some(t) => LocalMove(x, t, e.action)
  }

  function LocalFold(x: Local, es: seq<Event>): Local
    decreases es
  {
    if es == [] then x else LocalStep(LocalFold(x, es[..|es| - 1]), es[|es| - 1])
  }

  const NOTHING := Local(None, map[])

  ghost predicate Shows(s: State, p: string, x: Local) {
    && Look(s.packages, p) == x.package
    && forall t :: Look(s.tests, Id(p, t)) == Look(x.tests, t)
  }

  lemma TestShows(s: State, id: Id, a: Action, allowed: set<Id>, p: string, x: Local)
    requires Shows(s, p, x)
    ensures Shows(StepTest(s, id, a, allowed), p, if id.package == p then LocalMove(x, id.test, a) else x)
  {
    hide Move;
    assert Look(s.tests, Id(p, id.test)) == Look(x.tests, id.test);
    if id.package == p { assert id == Id(p, id.test); }
  }

  lemma StepShows(s: State, l: Line, allowed: set<Id>, p: string, x: Local)
    requires Shows(s, p, x)
    ensures Shows(Step(s, l, allowed), p, if Concerns(l, p) then LocalStep(x, EventOf(l)) else x)
  {
    hide Unfinished, HasTests, LocalMove, StepTest;
    if IsEvent(l) && l.test.Test? {
      var s' := if l.failedBuild then Dirty(s) else s;
      TestShows(s', Id(l.package.value, l.test.name), l.action.value, allowed, p, x);
    }
  }

  /** Clean or not, the dictionaries restricted to a package are determined by
      that package's events. */
  lemma {:induction false} FoldShows(lines: seq<Line>, allowed: set<Id>, p: string)
    ensures Shows(Fold(lines, allowed), p, LocalFold(NOTHING, PackageLog(lines, p)))
    decreases lines
  {
    if lines != [] {
      var n := |lines| - 1;
      FoldShows(lines[..n], allowed, p);
      var es := PackageLog(lines[..n], p);
      StepShows(Fold(lines[..n], allowed), lines[n], allowed, p, LocalFold(NOTHING, es));
      assert es + [] == es;
      if Concerns(lines[n], p) {
        assert (es + [EventOf(lines[n])])[..|es|] == es;
      }
    }
  }

  /** Two logs of the same lines with the same recorded effect and shapes. */
  ghost predicate Alike(a: seq<Line>, b: seq<Line>) {
    && multiset(a) == multiset(b)
    && (forall p :: LocalFold(NOTHING, PackageLog(a, p)) == LocalFold(NOTHING, PackageLog(b, p)))
    && (forall p :: PackageLog(a, p) == [] <==> PackageLog(b, p) == [])
    && (forall p :: GoodPackage(PackageLog(a, p)) <==> GoodPackage(PackageLog(b, p)))
    && (forall p :: ClosedPackage(PackageLog(a, p), Pass) <==> ClosedPackage(PackageLog(b, p), Pass))
    && (forall id :: TestLog(a, id) == TestLog(b, id))
  }

  lemma AlikeLogsAgree(a: seq<Line>, b: seq<Line>, required: set<Id>, allowed: set<Id>, exitCode: int)
    requires Alike(a, b)
    ensures Passes(Fold(a, allowed), a, required, exitCode) <==> Passes(Fold(b, allowed), b, required, exitCode)
    ensures CountsOf(Fold(a, allowed), a, required, allowed) == CountsOf(Fold(b, allowed), b, required, allowed)
  {
    hide Fold, LocalFold, PackageLog, TestLog, GoodPackage, ClosedPackage, GoodTest, CompleteTest;
    AlikeMembers(a, b);
    PassesIffInLanguage(a, required, allowed, exitCode);
    PassesIffInLanguage(b, required, allowed, exitCode);
    assert forall i :: 0 <= i < |a| ==> a[i] in b;
    assert forall i :: 0 <= i < |b| ==> b[i] in a;
    AlikeStates(a, b, allowed);
    var s, t := Fold(a, allowed), Fold(b, allowed);
    MissingIgnoresDirt(s, t.packages, t.tests);
    MissingIgnoresDirt(t, t.packages, t.tests);
    assert MissingOf(s, required) == MissingOf(t, required);
  }

  lemma AlikeMembers(a: seq<Line>, b: seq<Line>)
    requires multiset(a) == multiset(b)
    ensures |a| == |b| && forall l :: l in a <==> l in b
  {
    assert |multiset(a)| == |a| && |multiset(b)| == |b|;
    assert forall l :: l in multiset(a) <==> l in a;
  }

  lemma AlikeStates(a: seq<Line>, b: seq<Line>, allowed: set<Id>)
    requires Alike(a, b)
    ensures Fold(a, allowed).packages == Fold(b, allowed).packages
    ensures Fold(a, allowed).tests == Fold(b, allowed).tests
  {
    hide Fold, LocalFold, PackageLog, TestLog, GoodPackage, ClosedPackage;
    var s, t := Fold(a, allowed), Fold(b, allowed);
    forall p ensures Look(s.packages, p) == Look(t.packages, p) {
      FoldShows(a, allowed, p);
      FoldShows(b, allowed, p);
    }
    forall id: Id ensures Look(s.tests, id) == Look(t.tests, id) {
      FoldShows(a, allowed, id.package);
      FoldShows(b, allowed, id.package);
      assert Id(id.package, id.test) == id;
    }
    LookDecides(s.packages, t.packages);
    LookDecides(s.tests, t.tests);
  }

  lemma LookDecides<K(!new), V>(m: map<K, V>, n: map<K, V>)
    requires forall k :: Look(m, k) == Look(n, k)
    ensures m == n
  {
    forall k ensures k in m <==> k in n { assert Look(m, k) == Look(n, k); }
    forall k | k in m ensures m[k] == n[k] { assert Look(m, k) == Look(n, k); }
  }

  /** Permuting lines while keeping each package's own event order changes
      neither the verdict nor any count. */
  lemma PackageOrderDecides(a: seq<Line>, b: seq<Line>, required: set<Id>, allowed: set<Id>, exitCode: int)
    requires multiset(a) == multiset(b) && forall p :: PackageLog(a, p) == PackageLog(b, p)
    ensures Passes(Fold(a, allowed), a, required, exitCode) <==> Passes(Fold(b, allowed), b, required, exitCode)
    ensures CountsOf(Fold(a, allowed), a, required, allowed) == CountsOf(Fold(b, allowed), b, required, allowed)
  {
    hide Fold, CountsOf, Passes, PackageLog, LocalFold, GoodPackage, ClosedPackage, Actions;
    AlikeLogsAgree(a, b, required, allowed, exitCode);
  }

  /** So does swapping adjacent events of different tests of one package. */
  lemma TestsCommute(pre: seq<Line>, x: Line, y: Line, post: seq<Line>, p: string,
                     required: set<Id>, allowed: set<Id>, exitCode: int)
    requires Concerns(x, p) && Concerns(y, p) && x.test.Test? && y.test.Test? && x.test != y.test
    ensures var a, b := pre + [x, y] + post, pre + [y, x] + post;
      && (Passes(Fold(a, allowed), a, required, exitCode) <==> Passes(Fold(b, allowed), b, required, exitCode))
      && CountsOf(Fold(a, allowed), a, required, allowed) == CountsOf(Fold(b, allowed), b, required, allowed)
  {
    hide GoodPackage, LocalFold, Actions, ClosedPackage, Fold, CountsOf, Passes;
    var a, b := pre + [x, y] + post, pre + [y, x] + post;
    assert multiset(a) == multiset(b);
    forall q
      ensures LocalFold(NOTHING, PackageLog(a, q)) == LocalFold(NOTHING, PackageLog(b, q))
      ensures PackageLog(a, q) == [] <==> PackageLog(b, q) == []
      ensures GoodPackage(PackageLog(a, q)) <==> GoodPackage(PackageLog(b, q))
      ensures ClosedPackage(PackageLog(a, q), Pass) <==> ClosedPackage(PackageLog(b, q), Pass)
      ensures forall t :: Actions(PackageLog(a, q), t) == Actions(PackageLog(b, q), t)
    {
      SplitLog(pre, x, y, post, q);
      SplitLog(pre, y, x, post, q);
      if q == p {
        SwapEvents(PackageLog(pre, p), EventOf(x), EventOf(y), PackageLog(post, p));
      }
    }
    AlikeLogsAgree(a, b, required, allowed, exitCode);
  }

  lemma SplitLog(pre: seq<Line>, x: Line, y: Line, post: seq<Line>, p: string)
    ensures PackageLog(pre + [x, y] + post, p) ==
              PackageLog(pre, p)
              + (if Concerns(x, p) then [EventOf(x)] else []) + (if Concerns(y, p) then [EventOf(y)] else [])
              + PackageLog(post, p)
  {
    LogAppend(pre + [x, y], post, p);
    assert pre + [x, y] == pre + [x] + [y];
    LogNext(pre + [x], y, p);
    LogNext(pre, x, p);
  }

  lemma {:induction false} LocalAppend(x: Local, a: seq<Event>, b: seq<Event>)
    ensures LocalFold(x, a + b) == LocalFold(LocalFold(x, a), b)
    decreases b
  {
    if b == [] {
      assert a + b == a;
    } else {
      var n := |b| - 1;
      LocalAppend(x, a, b[..n]);
      assert (a + b)[..|a| + n] == a + b[..n];
    }
  }

  lemma LocalPair(x: Local, e: Event, f: Event)
    ensures LocalFold(x, [e, f]) == LocalStep(LocalStep(x, e), f)
  {
    assert [e, f][..1] == [e] && [e][..0] == [];
    assert LocalFold(x, []) == x;
    assert LocalFold(x, [e]) == LocalStep(x, e);
  }

  lemma MovesCommute(x: Local, t: string, a: Action, u: string, b: Action)
    requires t != u
    ensures LocalMove(LocalMove(x, t, a), u, b) == LocalMove(LocalMove(x, u, b), t, a)
  {
    hide Move;
    var y, z := LocalMove(LocalMove(x, t, a), u, b), LocalMove(LocalMove(x, u, b), t, a);
    assert y.tests == z.tests;
  }

  lemma LocalStepsCommute(x: Local, e: Event, f: Event)
    requires e.test.Some? && f.test.Some? && e.test != f.test
    ensures LocalStep(LocalStep(x, e), f) == LocalStep(LocalStep(x, f), e)
  {
    hide LocalMove;
    MovesCommute(x, e.test.value, e.action, f.test.value, f.action);
  }

  lemma SwapEvents(before: seq<Event>, e: Event, f: Event, after: seq<Event>)
    requires e.test.Some? && f.test.Some? && e.test != f.test
    ensures var a, b := before + [e] + [f] + after, before + [f] + [e] + after;
      && LocalFold(NOTHING, a) == LocalFold(NOTHING, b)
      && (GoodPackage(a) <==> GoodPackage(b))
      && (ClosedPackage(a, Pass) <==> ClosedPackage(b, Pass))
      && (forall t :: Actions(a, t) == Actions(b, t))
  {
    hide LocalFold, LocalStep, GoodPackage, ClosedPackage;
    var a, b := before + [e] + [f] + after, before + [f] + [e] + after;
    assert a == before + [e, f] + after && b == before + [f, e] + after;
    LocalAppend(NOTHING, before + [e, f], after);
    LocalAppend(NOTHING, before + [f, e], after);
    var x := LocalFold(NOTHING, before);
    LocalAppend(NOTHING, before, [e, f]);
    LocalAppend(NOTHING, before, [f, e]);
    LocalPair(x, e, f);
    LocalPair(x, f, e);
    LocalStepsCommute(x, e, f);
    SwapShapes(before, e, f, after);
    forall t ensures Actions(a, t) == Actions(b, t) {
      ActionsAppend(before + [e] + [f], after, t);
      ActionsAppend(before + [f] + [e], after, t);
      ActionsNext(before + [e], f, t);
      ActionsNext(before + [f], e, t);
      ActionsNext(before, e, t);
      ActionsNext(before, f, t);
    }
  }

  lemma SwapShapes(before: seq<Event>, e: Event, f: Event, after: seq<Event>)
    requires e.test.Some? && f.test.Some?
    ensures var a, b := before + [e] + [f] + after, before + [f] + [e] + after;
      (GoodPackage(a) <==> GoodPackage(b)) && (ClosedPackage(a, Pass) <==> ClosedPackage(b, Pass))
  {
    var a, b := before + [e] + [f] + after, before + [f] + [e] + after;
    SwapClosed(before, e, f, after, Pass);
    SwapClosed(before, f, e, after, Pass);
    SwapClosed(before, e, f, after, Skip);
    SwapClosed(before, f, e, after, Skip);
  }

  lemma SwapClosed(before: seq<Event>, e: Event, f: Event, after: seq<Event>, action: Action)
    requires e.test.Some? && f.test.Some?
    ensures ClosedPackage(before + [e] + [f] + after, action) ==> ClosedPackage(before + [f] + [e] + after, action)
  {
    var a, b := before + [e] + [f] + after, before + [f] + [e] + after;
    var n := |a| - 1;
    assert a[|before|] == e && a[|before| + 1] == f && b[|before|] == f && b[|before| + 1] == e;
    assert forall i :: 0 <= i <= n && i != |before| && i != |before| + 1 ==> a[i] == b[i];
    assert forall i :: 0 <= i < n ==> a[..n][i] == a[i] && b[..n][i] == b[i];
    if ClosedPackage(a, action) { assert a[..n][0] == STARTED; }
  }
}
