/**
 When exactly a protocol suite is green, and when exactly it is target red.
*/
module SharedVerdicts {
  import Strings
  import opened Wrappers
  import opened SharedEvents

  /** No output of the package itself holds a diagnostic or build noise. */
  predicate PackageIsQuiet(events: seq<Event>, m: Matching) {
    forall i :: 0 <= i < |events| && Is(events[i], "output") && Name(events[i]) == None ==>
      m.diagnostics(events[i].output) == [] && !m.noise(events[i].output)
  }

  lemma NoFailures(events: seq<Event>, s: Suite, exitCode: int)
    requires EventsClean(events, s.package, s.expected, exitCode)
    ensures Failures(events, s.package) == {}
  {
    hide EventsClean;
    forall i | 0 <= i < |events| ensures !Fails(events[i], s.package) {
      CleanHasNoFailure(events, s.package, s.expected, exitCode, i);
    }
  }

  /** Green exactly if the structure is clean with exit code 0, no infrastructure word
      occurs, every declared path ran once and passed, and the package is quiet. */
  lemma GreenIff(v: Verdict, events: seq<Event>, s: Suite, m: Matching, exitCode: int)
    requires Decides(v, events, s, m, exitCode)
    ensures v.productGreen <==>
      && EventsClean(events, s.package, s.expected, exitCode)
      && !m.infrastructure(AllOutput(events))
      && s.required != {} && (forall p :: p in s.required ==> OwnActions(events, p) == ["run", "pass"])
      && PackageIsQuiet(events, m)
  {
    hide EventsClean, OwnActions, AllOutput;
    if EventsClean(events, s.package, s.expected, exitCode) {
      NoFailures(events, s, exitCode);
      var failures := Failures(events, s.package);
      assert (forall i :: 0 <= i < |events| ==> Quiet(events[i], s, m, failures)) <==> PackageIsQuiet(events, m);
      forall p | OwnActions(events, p) == ["run", "fail"] ensures false {
        assert "fail" in OwnActions(events, p);
        FailWasRecorded(events, p);
        var i :| 0 <= i < |events| && Name(events[i]) == Some(p) && Is(events[i], "fail");
        CleanHasNoFailure(events, s.package, s.expected, exitCode, i);
      }
      assert Red(events, s, m) == map[];
    }
    if v.productGreen {
      assert EventsClean(events, s.package, s.expected, exitCode);
    }
  }

  // Target red

  /** The structure that is left when failures are excused. */
  predicate Excused(events: seq<Event>, s: Suite) {
    && (forall i :: 0 <= i < |events| ==>
          && events[i].package == Some(s.package) && !Is(events[i], "skip")
          && (Name(events[i]).Some? ==> Parent(Name(events[i]).value) in s.expected))
    && (PackageEnds(events) == ["pass"] || PackageEnds(events) == ["fail"])
    && forall t :: t in s.expected ==> Parent(t) == t && PassedOrFailed(OwnActions(events, t))
  }

  lemma {:induction false} EndsRead(events: seq<Event>, failures: set<string>)
    ensures var a, b := PackageEnds(events), PackageEnds(Rewritten(events, failures));
            |a| == |b| && forall i :: 0 <= i < |a| ==> b[i] == if a[i] == "fail" then "pass" else a[i]
    decreases events
  {
    if events != [] {
      var n := |events| - 1;
      EndsRead(events[..n], failures);
      assert Rewritten(events, failures)[..n] == Rewritten(events[..n], failures);
    }
  }

  lemma {:induction false} ActionsRead(events: seq<Event>, failures: set<string>, test: string)
    ensures var a, b := OwnActions(events, test), OwnActions(Rewritten(events, failures), test);
            |a| == |b| && forall i :: 0 <= i < |a| ==>
              b[i] == if a[i] == "fail" && test in failures then "pass" else a[i]
    decreases events
  {
    if events != [] {
      var n := |events| - 1;
      ActionsRead(events[..n], failures, test);
      assert Rewritten(events, failures)[..n] == Rewritten(events[..n], failures);
    }
  }

  lemma FailingIsFailure(events: seq<Event>, s: Suite, t: string)
    requires (forall i :: 0 <= i < |events| ==> events[i].package == Some(s.package)) && "fail" in OwnActions(events, t)
    ensures t in Failures(events, s.package)
  {
    hide OwnActions;
    FailWasRecorded(events, t);
    var i :| 0 <= i < |events| && Name(events[i]) == Some(t) && Is(events[i], "fail");
    assert Fails(events[i], s.package);
  }

  lemma OneEvent(e: Event, s: Suite, failures: set<string>)
    requires Is(e, "fail") && Name(e).Some? && e.package == Some(s.package) ==> Name(e).value in failures
    ensures Unremarkable(Rewrite(e, failures), s.package, s.expected) <==>
      && e.package == Some(s.package)
      && (Name(e).Some? ==> Parent(Name(e).value) in s.expected
                            && (Name(e).value != Parent(Name(e).value) ==> !Is(e, "skip")))
  {
    hide Parent;
  }

  lemma ExcusedIff(events: seq<Event>, s: Suite)
    ensures EventsClean(Rewritten(events, Failures(events, s.package)), s.package, s.expected, 0) <==>
            Excused(events, s)
  {
    hide OwnActions, PackageEnds, Parent, Unremarkable, Failures, Rewrite;
    var failures := Failures(events, s.package);
    var other := Rewritten(events, failures);
    EndsRead(events, failures);
    forall i | 0 <= i < |events|
      ensures other[i] == Rewrite(events[i], failures)
      ensures Unremarkable(other[i], s.package, s.expected) <==>
        && events[i].package == Some(s.package)
        && (Name(events[i]).Some? ==>
              && Parent(Name(events[i]).value) in s.expected
              && (Name(events[i]).value != Parent(Name(events[i]).value) ==> !Is(events[i], "skip")))
    {
      FailureListed(events, s, i);
      OneEvent(events[i], s, failures);
    }
    if EventsClean(other, s.package, s.expected, 0) {
      CleanIsExcused(events, s);
    }
    if Excused(events, s) {
      forall t | t in s.expected ensures OwnActions(other, t) == ["run", "pass"] {
        ActionsRead(events, failures, t);
        if OwnActions(events, t) == ["run", "fail"] { FailingIsFailure(events, s, t); }
      }
    }
  }

  lemma FailureListed(events: seq<Event>, s: Suite, i: nat)
    requires i < |events|
    ensures Is(events[i], "fail") && Name(events[i]).Some? && events[i].package == Some(s.package)
        ==> Name(events[i]).value in Failures(events, s.package)
  {
    assert Fails(events[i], s.package) ==> Name(events[i]).value in Failures(events, s.package);
  }

  lemma CleanIsExcused(events: seq<Event>, s: Suite)
    requires EventsClean(Rewritten(events, Failures(events, s.package)), s.package, s.expected, 0)
    ensures Excused(events, s)
  {
    hide OwnActions, PackageEnds, Parent, Failures, EventsClean;
    var failures := Failures(events, s.package);
    var other := Rewritten(events, failures);
    EndsRead(events, failures);
    StructureKept(other, s);
    forall i | 0 <= i < |events|
      ensures events[i].package == Some(s.package) && !Is(events[i], "skip")
      ensures Name(events[i]).Some? ==> Parent(Name(events[i]).value) in s.expected
    {
      OnlyExcused(events, s, failures, 0, i);
      assert Unremarkable(other[i], s.package, s.expected);
    }
    forall t | t in s.expected ensures PassedOrFailed(OwnActions(events, t)) { ActionsRead(events, failures, t); }
  }

  lemma StructureKept(events: seq<Event>, s: Suite)
    requires EventsClean(events, s.package, s.expected, 0)
    ensures forall i :: 0 <= i < |events| ==> Unremarkable(events[i], s.package, s.expected)
    ensures PackageEnds(events) == ["pass"]
    ensures forall t :: t in s.expected ==> Parent(t) == t && OwnActions(events, t) == ["run", "pass"]
  {
  }

  lemma RedIsFailing(events: seq<Event>, s: Suite, m: Matching)
    requires SharedClean(events, s, m)
    ensures Red(events, s, m) == map[] <==> Failures(events, s.package) == {}
  {
    hide PathsRan, Quiet, Admitted, Failures;
    var failures := Failures(events, s.package);
    if f :| f in failures {
      var bound := Strings.LengthBound(failures);
      var leaf := LeafBelow(failures, f, bound);
      assert leaf in Red(events, s, m);
    }
  }

  /** Target red exactly if no infrastructure word occurs, every declared path ran,
      every output is quiet and every failing leaf is a declared target with its own
      diagnostics, something failed, the rest of the structure is clean, and the exit
      code is 0 or 1. */
  lemma RedIff(v: Verdict, events: seq<Event>, s: Suite, m: Matching, exitCode: int)
    requires Decides(v, events, s, m, exitCode)
    ensures v.status == TargetRed <==>
      && !m.infrastructure(AllOutput(events)) && SharedClean(events, s, m)
      && Failures(events, s.package) != {} && Excused(events, s) && (exitCode == 0 || exitCode == 1)
  {
    hide SharedClean, Red, Failures, AllOutput, Excused, OwnActions, PackageEnds;
    if SharedClean(events, s, m) { RedIsFailing(events, s, m); }
    ExcusedIff(events, s);
    CodeApart(Rewritten(events, Failures(events, s.package)), s, if exitCode == 1 then 0 else exitCode);
  }

  lemma CodeApart(events: seq<Event>, s: Suite, code: int)
    ensures EventsClean(events, s.package, s.expected, code) <==>
            code == 0 && EventsClean(events, s.package, s.expected, 0)
  {
    hide OwnActions, PackageEnds, Unremarkable;
  }

  /** What a declared target's diagnostics look like: there are some, and each starts
      with the target's marker and a colon. */
  lemma TargetsAreMarked(v: Verdict, events: seq<Event>, s: Suite, m: Matching, exitCode: int, leaf: string, d: string)
    requires Decides(v, events, s, m, exitCode) && v.status == TargetRed && leaf in v.red
    ensures m.diagnostics(OutputOf(events, leaf)) != [] && leaf in s.allowed && s.allowed[leaf] != ""
    ensures d in m.diagnostics(OutputOf(events, leaf)) ==> s.allowed[leaf] + ":" <= d
  {
    hide EventsClean, PathsRan, Quiet, OutputOf, AllOutput;
    RedFailuresAreDeclared(v, events, s, m, exitCode);
    assert Admitted(events, s, m, leaf);
  }

  /** In a target-red run the package prints no diagnostic, and what a failing test
      prints is marked. */
  lemma OutputsAreMarked(v: Verdict, events: seq<Event>, s: Suite, m: Matching, exitCode: int, i: nat, d: string)
    requires Decides(v, events, s, m, exitCode) && v.status == TargetRed
    requires i < |events| && Is(events[i], "output") && d in m.diagnostics(events[i].output)
    ensures Name(events[i]).Some?
    ensures Name(events[i]).value in Failures(events, s.package) ==>
      && Name(events[i]).value in s.allowed && s.allowed[Name(events[i]).value] != ""
      && s.allowed[Name(events[i]).value] + ":" <= d
  {
    hide EventsClean, PathsRan, OutputOf, AllOutput, Failures, OwnActions, PackageEnds;
    RedHidesNothing(v, events, s, m, exitCode);
    assert Quiet(events[i], s, m, Failures(events, s.package));
  }

  // What is recorded

  /** The first component of a test's name. */
  lemma {:induction false} ParentIsFirst(top: string, below: string)
    requires '/' !in top
    ensures Parent(top) == top && Parent(top + "/" + below) == top
    decreases top
  {
    if top == "" {
      assert top + "/" + below == "/" + below;
    } else {
      var name := top + "/" + below;
      assert name[1..] == top[1..] + "/" + below;
      ParentIsFirst(top[1..], below);
      assert [top[0]] + top[1..] == top;
    }
  }

  /** An event adds to a test's record exactly if it names the test and starts or ends
      it. */
  lemma ActionsNext(events: seq<Event>, e: Event, test: string)
    ensures OwnActions(events + [e], test) == OwnActions(events, test) +
              if test != "" && e.test == Some(test)
                && e.action in {Some("run"), Some("pass"), Some("fail"), Some("skip")}
              then [e.action.value] else []
  {
    assert (events + [e])[..|events|] == events;
  }

  /** An event adds to the package's record exactly if it names no test and ends the
      package. */
  lemma EndsNext(events: seq<Event>, e: Event)
    ensures PackageEnds(events + [e]) == PackageEnds(events) +
              if (e.test == None || e.test == Some("")) && e.action in {Some("pass"), Some("fail"), Some("skip")}
              then [e.action.value] else []
  {
    assert (events + [e])[..|events|] == events;
  }

  predicate FailsAs(e: Event, package: string, test: string) {
    e.package == Some(package) && e.test == Some(test) && e.action == Some("fail")
  }

  /** The failing tests of a package. */
  lemma FailuresAre(events: seq<Event>, package: string, test: string)
    ensures test in Failures(events, package) <==>
            test != "" && exists i :: 0 <= i < |events| && FailsAs(events[i], package, test)
  {
    if i :| 0 <= i < |events| && FailsAs(events[i], package, test) {
      assert test != "" ==> Fails(events[i], package);
    }
  }
}
