/**
 Classification of a protocol suite's Go events: green, or "target red" with
 every failure declared, where admitting those never hides another one.
*/
module SharedEvents {
  import opened Strings
  import opened Wrappers

  /** One JSON event; missing keys are `None`, a missing output is empty. */
  datatype Event = Event(package: Option<string>, test: Option<string>, action: Option<string>, output: string)

  /** Text matching that is left abstract: the infrastructure words, the
      `file.go:line: message` diagnostics, and build noise at package level. */
  datatype Matching = Matching(infrastructure: string -> bool, diagnostics: string -> seq<string>,
      noise: string -> bool)

  datatype Suite = Suite(package: string, expected: set<string>, allowed: map<string, string>, required: set<string>)

  const LIFECYCLE := {"run", "pass", "fail", "skip"}

  predicate Is(e: Event, a: string) { e.action == Some(a) }

  /** The test an event names; an empty name counts as none. */
  function Name(e: Event): Option<string> { if e.test == Some("") then None else e.test }

  function Parent(test: string): string {
    if test == "" || test[0] == '/' then "" else [test[0]] + Parent(test[1..])
  }

  // Exact executions

  function Lifecycle(e: Event, test: string): seq<string> {
    if Name(e) == Some(test) && e.action.Some? && e.action.value in LIFECYCLE then [e.action.value] else []
  }

  /** Lifecycle actions recorded under exactly this test name. */
  function OwnActions(events: seq<Event>, test: string): seq<string> {
    if events == [] then []
    else
      var n := |events| - 1;
      OwnActions(events[..n], test) + Lifecycle(events[n], test)
  }

  function PackageEnds(events: seq<Event>): seq<string> {
    if events == [] then []
    else
      var n := |events| - 1;
      var e := events[n];
      PackageEnds(events[..n])
      + if Name(e) == None && e.action.Some? && e.action.value in {"pass", "fail", "skip"} then [e.action.value] else []
  }

  /** An event `classify_events` reports nothing about. */
  predicate Unremarkable(e: Event, package: string, expected: set<string>) {
    && e.package == Some(package)
    && (Name(e).Some? ==>
          var test := Name(e).value;
          Parent(test) in expected && (test != Parent(test) ==> !Is(e, "fail") && !Is(e, "skip")))
  }

  predicate EventsClean(events: seq<Event>, package: string, expected: set<string>, exitCode: int) {
    && (forall i :: 0 <= i < |events| ==> Unremarkable(events[i], package, expected))
    && exitCode == 0
    && PackageEnds(events) == ["pass"]
    && (forall t :: t in expected ==> Parent(t) == t && OwnActions(events, t) == ["run", "pass"])
  }

  /** What the check records for a name: nothing for a subtest. */
  function Kept(events: seq<Event>, test: string): seq<string> {
    if Parent(test) == test then OwnActions(events, test) else []
  }

  lemma NothingRecorded()
    ensures PackageEnds([]) == [] && forall t :: OwnActions([], t) == []
  {
  }

  lemma RecordedNext(events: seq<Event>, i: nat)
    requires i < |events|
    ensures forall t :: OwnActions(events[..i + 1], t) == OwnActions(events[..i], t) + Lifecycle(events[i], t)
    ensures PackageEnds(events[..i + 1]) == PackageEnds(events[..i]) +
              if Name(events[i]) == None && events[i].action.Some? && events[i].action.value in {"pass", "fail", "skip"}
              then [events[i].action.value] else []
  {
    assert events[..i + 1][..i] == events[..i];
  }

  /** `classify_events`. */
  method ClassifyEvents(events: seq<Event>, package: string, expected: set<string>, exitCode: int)
    returns (errors: nat)
    ensures errors == 0 <==> EventsClean(events, package, expected, exitCode)
  {
    hide Parent, OwnActions, PackageEnds;
    NothingRecorded();
    var states: map<string, seq<string>> := map t | t in expected :: [];
    var packageStates: seq<string> := [];
    errors := 0;
    for i := 0 to |events|
      invariant states.Keys == expected
      invariant errors == 0 <==> forall k :: 0 <= k < i ==> Unremarkable(events[k], package, expected)
      invariant errors == 0 ==> packageStates == PackageEnds(events[..i])
      invariant errors == 0 ==> forall t :: t in expected ==> states[t] == Kept(events[..i], t)
    {
      var e := events[i];
      RecordedNext(events, i);
      if e.package != Some(package) {
        errors := errors + 1;
        continue;
      }
      if Name(e).Some? {
        var test := Name(e).value;
        var parent := Parent(test);
        if parent !in states {
          errors := errors + 1;
        } else if test == parent && e.action.Some? && e.action.value in LIFECYCLE {
          states := states[parent := states[parent] + [e.action.value]];
        } else if Is(e, "fail") || Is(e, "skip") {
          errors := errors + 1;
        }
      } else if e.action.Some? && e.action.value in {"pass", "fail", "skip"} {
        packageStates := packageStates + [e.action.value];
      }
    }
    assert events[..|events|] == events;
    if exitCode != 0 {
      errors := errors + 1;
    }
    if packageStates != ["pass"] {
      errors := errors + 1;
    }
    var unfinished := CheckStates(states, expected);
    errors := errors + unfinished;
  }

  method CheckStates(states: map<string, seq<string>>, expected: set<string>) returns (errors: nat)
    requires states.Keys == expected
    ensures errors == 0 <==> forall t :: t in expected ==> states[t] == ["run", "pass"]
  {
    errors := 0;
    var todo := expected;
    while todo != {}
      invariant todo <= expected
      invariant errors == 0 <==> forall t :: t in expected && t !in todo ==> states[t] == ["run", "pass"]
      decreases todo
    {
      var t :| t in todo;
      if states[t] != ["run", "pass"] {
        errors := errors + 1;
      }
      todo := todo - {t};
    }
  }

  // Declared failures

  predicate Fails(e: Event, package: string) {
    e.package == Some(package) && Name(e).Some? && Is(e, "fail")
  }

  function Failures(events: seq<Event>, package: string): set<string> {
    set i | 0 <= i < |events| && Fails(events[i], package) :: Name(events[i]).value
  }

  predicate Below(name: string, descendant: string) { name + "/" <= descendant }

  function Marker(s: Suite, name: string): Option<string> {
    if name in s.allowed && s.allowed[name] != "" then Some(s.allowed[name]) else None
  }

  predicate Carries(diagnostics: seq<string>, marker: Option<string>) {
    marker.Some? && forall i :: 0 <= i < |diagnostics| ==> marker.value + ":" <= diagnostics[i]
  }

  /** The output of one test, concatenated. */
  function OutputOf(events: seq<Event>, test: string): string {
    if events == [] then ""
    else
      var n := |events| - 1;
      OutputOf(events[..n], test)
      + if events[n].test == Some(test) && Is(events[n], "output") then events[n].output else ""
  }

  function AllOutput(events: seq<Event>): string {
    if events == [] then "" else AllOutput(events[..|events| - 1]) + events[|events| - 1].output
  }

  /** An output event with no stray diagnostics: those of a failing test or of
      the package must carry that test's marker, and the package is quiet. */
  predicate Quiet(e: Event, s: Suite, m: Matching, failures: set<string>) {
    Is(e, "output") ==>
      var found := m.diagnostics(e.output);
      match Name(e)
      case None => found == [] && !m.noise(e.output)
      case Some(n) => found == [] || n !in failures || Carries(found, Marker(s, n))
  }

  predicate Leaf(failures: set<string>, name: string) {
    forall f :: f in failures ==> !Below(name, f)
  }

  /** A failing leaf is admitted when it has a marker and all its diagnostics,
      at least one, carry it. */
  predicate Admitted(events: seq<Event>, s: Suite, m: Matching, name: string) {
    var found := m.diagnostics(OutputOf(events, name));
    found != [] && Carries(found, Marker(s, name))
  }

  predicate PathsRan(events: seq<Event>, s: Suite) {
    && s.required != {}
    && forall p :: p in s.required ==>
         OwnActions(events, p) == ["run", "pass"] || OwnActions(events, p) == ["run", "fail"]
  }

  predicate SharedClean(events: seq<Event>, s: Suite, m: Matching) {
    var failures := Failures(events, s.package);
    && PathsRan(events, s)
    && (forall i :: 0 <= i < |events| ==> Quiet(events[i], s, m, failures))
    && (forall f :: f in failures && Leaf(failures, f) ==> Admitted(events, s, m, f))
  }

  function Red(events: seq<Event>, s: Suite, m: Matching): map<string, string> {
    var failures := Failures(events, s.package);
    map f | f in failures && Leaf(failures, f) && Admitted(events, s, m, f) :: s.allowed[f]
  }

  /** An admitted failure counts as a pass in the structural check only. */
  function Rewrite(e: Event, failures: set<string>): Event {
    if Is(e, "fail") && (Name(e) == None || Name(e).value in failures) then e.(action := Some("pass")) else e
  }

  function Rewritten(events: seq<Event>, failures: set<string>): seq<Event> {
    seq(|events|, i requires 0 <= i < |events| => Rewrite(events[i], failures))
  }

  datatype Status = ReferencePassed | ReferenceInvalid | TargetRed | SharedInvalid

  datatype Verdict = Verdict(status: Status, productGreen: bool, red: map<string, string>, errors: nat)

  method CheckPaths(events: seq<Event>, s: Suite) returns (errors: nat)
    ensures errors == 0 <==> PathsRan(events, s)
  {
    errors := if s.required == {} then 1 else 0;
    var todo := s.required;
    while todo != {}
      invariant todo <= s.required
      invariant errors == 0 <==> (s.required != {} && forall p :: p in s.required && p !in todo ==>
        OwnActions(events, p) == ["run", "pass"] || OwnActions(events, p) == ["run", "fail"])
      decreases todo
    {
      var p :| p in todo;
      var lifecycle := OwnActions(events, p);
      if lifecycle != ["run", "pass"] && lifecycle != ["run", "fail"] {
        errors := errors + 1;
      }
      todo := todo - {p};
    }
  }

  method CheckOutputs(events: seq<Event>, s: Suite, m: Matching, failures: set<string>) returns (errors: nat)
    ensures errors == 0 <==> forall i :: 0 <= i < |events| ==> Quiet(events[i], s, m, failures)
  {
    errors := 0;
    for i := 0 to |events|
      invariant errors == 0 <==> forall k :: 0 <= k < i ==> Quiet(events[k], s, m, failures)
    {
      var e := events[i];
      if !Is(e, "output") {
        continue;
      }
      var found := m.diagnostics(e.output);
      var marker := if Name(e).Some? then Marker(s, Name(e).value) else None;
      if found != [] && (Name(e) == None || Name(e).value in failures) && !Carries(found, marker) {
        errors := errors + 1;
      }
      if Name(e) == None && m.noise(e.output) {
        errors := errors + 1;
      }
    }
  }

  method CheckFailures(events: seq<Event>, s: Suite, m: Matching, failures: set<string>)
    returns (errors: nat, red: map<string, string>)
    requires failures == Failures(events, s.package)
    ensures errors == 0 <==> forall f :: f in failures && Leaf(failures, f) ==> Admitted(events, s, m, f)
    ensures red == Red(events, s, m)
  {
    errors, red := 0, map[];
    var todo := failures;
    while todo != {}
      invariant todo <= failures
      invariant errors == 0 <==>
                forall f :: f in failures && f !in todo && Leaf(failures, f) ==> Admitted(events, s, m, f)
      invariant red == map f | f in failures && f !in todo && Leaf(failures, f)
                && Admitted(events, s, m, f) :: s.allowed[f]
      decreases todo
    {
      var name :| name in todo;
      if Leaf(failures, name) {
        if Admitted(events, s, m, name) {
          red := red[name := s.allowed[name]];
        } else {
          errors := errors + 1;
        }
      }
      todo := todo - {name};
    }
  }

  ghost predicate Decides(v: Verdict, events: seq<Event>, s: Suite, m: Matching, exitCode: int) {
    var failures := Failures(events, s.package);
    var plain := EventsClean(events, s.package, s.expected, exitCode);
    if m.infrastructure(AllOutput(events)) then
      v.status == (if plain then ReferencePassed else ReferenceInvalid) && !v.productGreen && v.red == map[]
          && v.errors > 0
    else if !SharedClean(events, s, m) || Red(events, s, m) == map[] then
      && v.status == (if plain then ReferencePassed else ReferenceInvalid)
      && (v.errors == 0 <==> plain && SharedClean(events, s, m))
      && v.productGreen == (v.errors == 0) && v.red == map[]
    else
      && (v.errors == 0 <==>
            EventsClean(Rewritten(events, failures), s.package, s.expected, if exitCode == 1 then 0 else exitCode))
      && v.status == (if v.errors == 0 then TargetRed else SharedInvalid)
      && !v.productGreen && v.red == Red(events, s, m)
  }

  /** `classify_shared_events`, once the declared targets have been collected. */
  method ClassifyShared(events: seq<Event>, s: Suite, m: Matching, exitCode: int) returns (v: Verdict)
    ensures Decides(v, events, s, m, exitCode)
  {
    hide EventsClean, PathsRan, Quiet, Admitted;
    var errors := ClassifyEvents(events, s.package, s.expected, exitCode);
    var plain := if errors == 0 then ReferencePassed else ReferenceInvalid;
    if m.infrastructure(AllOutput(events)) {
      return Verdict(plain, false, map[], errors + 1);
    }
    var failures := Failures(events, s.package);
    var paths := CheckPaths(events, s);
    var outputs := CheckOutputs(events, s, m, failures);
    var leaves, red := CheckFailures(events, s, m, failures);
    if paths + outputs + leaves > 0 || red == map[] {
      errors := errors + paths + outputs + leaves;
      return Verdict(plain, errors == 0, map[], errors);
    }
    var structural := ClassifyEvents(Rewritten(events, failures), s.package, s.expected,
                                     if exitCode == 1 then 0 else exitCode);
    return Verdict(if structural == 0 then TargetRed else SharedInvalid, false, red, structural);
  }

  // Nothing is laundered

  lemma {:induction false} ActionRecorded(events: seq<Event>, test: string, i: nat)
    requires i < |events| && Name(events[i]) == Some(test) && events[i].action.Some?
             && events[i].action.value in LIFECYCLE
    ensures events[i].action.value in OwnActions(events, test)
    decreases events
  {
    if i < |events| - 1 { ActionRecorded(events[..|events| - 1], test, i); }
  }

  lemma {:induction false} EndRecorded(events: seq<Event>, i: nat)
    requires i < |events| && Name(events[i]) == None && events[i].action.Some?
    requires events[i].action.value in {"pass", "fail", "skip"}
    ensures events[i].action.value in PackageEnds(events)
    decreases events
  {
    if i < |events| - 1 { EndRecorded(events[..|events| - 1], i); }
  }

  /** A clean structural check leaves no failing or skipped event at all. */
  lemma CleanHasNoFailure(events: seq<Event>, package: string, expected: set<string>, exitCode: int, i: nat)
    requires EventsClean(events, package, expected, exitCode) && i < |events|
    ensures !Is(events[i], "fail") && !Is(events[i], "skip")
  {
    var e := events[i];
    assert Unremarkable(e, package, expected);
    if Is(e, "fail") || Is(e, "skip") {
      match Name(e)
      case None => EndRecorded(events, i);
      case Some(t) => ActionRecorded(events, t, i);
    }
  }

  /** A green verdict: nothing failed or was skipped in any scope, and every
      declared path and expected test ran once and passed. */
  lemma {:induction false} GreenHasNoFailure(v: Verdict, events: seq<Event>, s: Suite, m: Matching, exitCode: int)
    requires Decides(v, events, s, m, exitCode) && v.productGreen
    ensures exitCode == 0 && v.status == ReferencePassed && !m.infrastructure(AllOutput(events))
    ensures forall i :: 0 <= i < |events| ==>
              events[i].package == Some(s.package) && !Is(events[i], "fail") && !Is(events[i], "skip")
    ensures forall t :: t in s.expected ==> OwnActions(events, t) == ["run", "pass"]
    ensures s.required != {} && forall p :: p in s.required ==> OwnActions(events, p) == ["run", "pass"]
  {
    hide Quiet, Admitted;
    forall i | 0 <= i < |events|
      ensures events[i].package == Some(s.package) && !Is(events[i], "fail") && !Is(events[i], "skip")
    {
      assert Unremarkable(events[i], s.package, s.expected);
      CleanHasNoFailure(events, s.package, s.expected, exitCode, i);
    }
    forall p | p in s.required ensures OwnActions(events, p) == ["run", "pass"] {
      if OwnActions(events, p) == ["run", "fail"] {
        FailWasRecorded(events, p);
      }
    }
  }

  lemma {:induction false} FailWasRecorded(events: seq<Event>, p: string)
    requires "fail" in OwnActions(events, p)
    ensures exists i :: 0 <= i < |events| && Name(events[i]) == Some(p) && Is(events[i], "fail")
    decreases events
  {
    var n := |events| - 1;
    if "fail" in OwnActions(events[..n], p) {
      FailWasRecorded(events[..n], p);
      var i :| 0 <= i < n && Name(events[..n][i]) == Some(p) && Is(events[..n][i], "fail");
      assert events[i] == events[..n][i];
    } else {
      assert Name(events[n]) == Some(p) && Is(events[n], "fail");
    }
  }

  lemma BelowTransitive(a: string, b: string, c: string)
    requires Below(a, b) && Below(b, c)
    ensures Below(a, c)
  {
    assert a + "/" <= b <= b + "/" <= c;
  }


  /** Every failing test is a failing leaf or lies above one. */
  lemma {:induction false} LeafBelow(failures: set<string>, f: string, bound: nat) returns (leaf: string)
    requires f in failures && forall g :: g in failures ==> |g| <= bound
    ensures leaf in failures && Leaf(failures, leaf) && (leaf == f || Below(f, leaf))
    decreases bound - |f|
  {
    leaf := f;
    if !Leaf(failures, f) {
      var g :| g in failures && Below(f, g);
      leaf := LeafBelow(failures, g, bound);
      if leaf != g { BelowTransitive(f, g, leaf); }
    }
  }

  /** The structural check sees the recorded actions with failures read as
      passes. */
  lemma {:induction false} RewrittenActions(events: seq<Event>, failures: set<string>, test: string)
    ensures var a, b := OwnActions(events, test), OwnActions(Rewritten(events, failures), test);
            |a| == |b| && forall i :: 0 <= i < |a| ==> a[i] == b[i] || (a[i] == "fail" && b[i] == "pass")
    decreases events
  {
    if events != [] {
      var n := |events| - 1;
      RewrittenActions(events[..n], failures, test);
      assert Rewritten(events, failures)[..n] == Rewritten(events[..n], failures);
    }
  }

  lemma {:induction false} RewrittenEnds(events: seq<Event>, failures: set<string>)
    ensures var a, b := PackageEnds(events), PackageEnds(Rewritten(events, failures));
            |a| == |b| && forall i :: 0 <= i < |a| ==> a[i] == b[i] || (a[i] == "fail" && b[i] == "pass")
    decreases events
  {
    if events != [] {
      var n := |events| - 1;
      RewrittenEnds(events[..n], failures);
      assert Rewritten(events, failures)[..n] == Rewritten(events[..n], failures);
    }
  }

  lemma OnlyExcused(events: seq<Event>, s: Suite, failures: set<string>, exitCode: int, i: nat)
    requires EventsClean(Rewritten(events, failures), s.package, s.expected, exitCode) && i < |events|
    ensures events[i].package == Some(s.package) && !Is(events[i], "skip")
    ensures Is(events[i], "fail") && Name(events[i]).Some? ==> Name(events[i]).value in failures
  {
    hide OwnActions, PackageEnds, Parent;
    var other := Rewritten(events, failures);
    assert Unremarkable(other[i], s.package, s.expected);
    CleanHasNoFailure(other, s.package, s.expected, exitCode, i);
  }

  predicate PassedOrFailed(actions: seq<string>) { actions == ["run", "pass"] || actions == ["run", "fail"] }

  /** Target red, failures: each failing test is a declared target or lies above
      one that failed, and each admitted target's diagnostics carry its marker. */
  lemma {:induction false} RedFailuresAreDeclared(v: Verdict, events: seq<Event>, s: Suite, m: Matching, exitCode: int)
    requires Decides(v, events, s, m, exitCode) && v.status == TargetRed
    ensures !v.productGreen && v.red != map[] && v.errors == 0
    ensures forall f :: f in Failures(events, s.package) ==>
              exists leaf :: leaf in v.red && (leaf == f || Below(f, leaf))
    ensures forall leaf :: leaf in v.red ==>
              && leaf in Failures(events, s.package) && leaf in s.allowed && v.red[leaf] == s.allowed[leaf]
              && m.diagnostics(OutputOf(events, leaf)) != []
              && Carries(m.diagnostics(OutputOf(events, leaf)), Some(s.allowed[leaf]))
  {
    hide EventsClean, PathsRan, Quiet;
    var failures := Failures(events, s.package);
    var bound := LengthBound(failures);
    forall f | f in failures ensures exists leaf :: leaf in v.red && (leaf == f || Below(f, leaf)) {
      var leaf := LeafBelow(failures, f, bound);
      assert Admitted(events, s, m, leaf);
      assert leaf in v.red;
    }
  }

  lemma RedIsStructural(v: Verdict, events: seq<Event>, s: Suite, m: Matching, exitCode: int)
    requires Decides(v, events, s, m, exitCode) && v.status == TargetRed
    ensures SharedClean(events, s, m) && !m.infrastructure(AllOutput(events))
    ensures EventsClean(Rewritten(events, Failures(events, s.package)), s.package, s.expected,
                        if exitCode == 1 then 0 else exitCode)
  {
    hide EventsClean, SharedClean, Red, Failures;
  }

  /** Target red, everything else: only failures of the failing tests and of the
      package were excused, nothing was skipped, every expected test ran once to
      an end, and no failing scope printed a diagnostic without its own marker. */
  lemma {:induction false} RedHidesNothing(v: Verdict, events: seq<Event>, s: Suite, m: Matching, exitCode: int)
    requires Decides(v, events, s, m, exitCode) && v.status == TargetRed
    ensures exitCode == 0 || exitCode == 1
    ensures !m.infrastructure(AllOutput(events))
    ensures forall i :: 0 <= i < |events| ==>
              && events[i].package == Some(s.package) && !Is(events[i], "skip")
              && (Is(events[i], "fail") && Name(events[i]).Some?
                  ==> Name(events[i]).value in Failures(events, s.package))
              && Quiet(events[i], s, m, Failures(events, s.package))
    ensures PackageEnds(events) == ["pass"] || PackageEnds(events) == ["fail"]
    ensures forall t :: t in s.expected + s.required ==> PassedOrFailed(OwnActions(events, t))
  {
    hide Quiet, Admitted, OwnActions, PackageEnds, Unremarkable, Red, Decides, Failures;
    RedIsStructural(v, events, s, m, exitCode);
    var failures := Failures(events, s.package);
    var code := if exitCode == 1 then 0 else exitCode;
    forall i | 0 <= i < |events|
      ensures events[i].package == Some(s.package) && !Is(events[i], "skip")
      ensures Is(events[i], "fail") && Name(events[i]).Some? ==> Name(events[i]).value in failures
    {
      OnlyExcused(events, s, failures, code, i);
    }
    RewrittenEnds(events, failures);
    forall t | t in s.expected ensures PassedOrFailed(OwnActions(events, t)) {
      RewrittenActions(events, failures, t);
    }
  }

  // A run that is target red

  function EventOf(test: Option<string>, action: string, output: string): Event {
    Event(Some("p"), test, Some(action), output)
  }

  /** One declared target runs, prints one diagnostic with its marker, and fails. */
  const RED_RUN := [
    EventOf(Some("T"), "run", ""), EventOf(Some("T"), "output", "d"), EventOf(Some("T"), "fail", ""),
    EventOf(None, "fail", "")
  ]

  const RED_SUITE := Suite("p", {"T"}, map["T" := "M"], {"T"})

  const RED_MATCHING := Matching(_ => false, text => if text == "d" then ["M: boom"] else [], _ => false)

  lemma RedRunRecords(x: string)
    requires x == "pass" || x == "fail"
    ensures var es := [
                EventOf(Some("T"), "run", ""), EventOf(Some("T"), "output", "d"), EventOf(Some("T"), x, ""),
                EventOf(None, x, "")
              ];
      OwnActions(es, "T") == ["run", x] && PackageEnds(es) == [x] && OutputOf(es, "T") == "d"
  {
    var a, b := EventOf(Some("T"), "run", ""), EventOf(Some("T"), "output", "d");
    var c, d := EventOf(Some("T"), x, ""), EventOf(None, x, "");
    assert [a, b, c, d][..3] == [a, b, c] && [a, b, c][..2] == [a, b] && [a, b][..1] == [a] && [a][..0] == [];
    assert OwnActions([], "T") == [] && OwnActions([a], "T") == ["run"];
    assert OwnActions([a, b], "T") == ["run"] && OwnActions([a, b, c], "T") == ["run", x];
    assert PackageEnds([]) == [] && PackageEnds([a]) == [] && PackageEnds([a, b]) == [] && PackageEnds([a, b, c]) == [];
    assert "" + "d" == "d" && "d" + "" == "d";
    assert OutputOf([a], "T") == "";
    assert OutputOf([a, b], "T") == OutputOf([a], "T") + "d";
    assert OutputOf([a, b, c], "T") == OutputOf([a, b], "T") + "";
  }

  lemma RedRunIsClean()
    ensures Failures(RED_RUN, "p") == {"T"} && Red(RED_RUN, RED_SUITE, RED_MATCHING) == map["T" := "M"]
    ensures SharedClean(RED_RUN, RED_SUITE, RED_MATCHING)
  {
    hide OwnActions, PackageEnds, OutputOf, Parent;
    RedRunRecords("fail");
    var failures := Failures(RED_RUN, "p");
    assert Fails(RED_RUN[2], "p");
    assert failures == {"T"};
    assert Leaf(failures, "T") by { assert |"T" + "/"| > |"T"|; }
    assert RED_MATCHING.diagnostics("d") == ["M: boom"];
    assert "M" + ":" <= "M: boom";
    assert Admitted(RED_RUN, RED_SUITE, RED_MATCHING, "T");
  }

  /** Exit code 0 is no obstacle to a target-red verdict. */
  lemma RedAtEitherExit(exitCode: int) returns (v: Verdict)
    requires exitCode == 0 || exitCode == 1
    ensures v.status == TargetRed && Decides(v, RED_RUN, RED_SUITE, RED_MATCHING, exitCode)
  {
    hide OwnActions, PackageEnds, SharedClean, Red;
    RedRunIsClean();
    RedRunRecords("pass");
    var failures := Failures(RED_RUN, "p");
    var passed := Rewritten(RED_RUN, failures);
    assert passed == [
      EventOf(Some("T"), "run", ""), EventOf(Some("T"), "output", "d"), EventOf(Some("T"), "pass", ""),
      EventOf(None, "pass", "")
    ];
    assert Parent("T") == "T" by { assert "T"[1..] == "" && ['T'] + "" == "T"; }
    assert forall i :: 0 <= i < |passed| ==> Unremarkable(passed[i], "p", {"T"});
    assert EventsClean(passed, "p", {"T"}, 0);
    assert !RED_MATCHING.infrastructure(AllOutput(RED_RUN));
    var red := map["T" := "M"];
    assert "T" in red;
    v := Verdict(TargetRed, false, red, 0);
  }
}
