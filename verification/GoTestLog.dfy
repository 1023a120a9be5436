/**
 Validation of one `go test -json` log: every line drives a package automaton
 and a test automaton, and any misstep is a recorded problem.
*/
module GoTestLog {
  import opened Wrappers

  datatype Action = Start | Run | Pause | Cont | Pass | Fail | Skip | Output | Bench

  datatype TestField = NoTest | BadTest | Test(name: string)

  /** A line as parsed.  A missing, unknown or mistyped action or package is
      `None`; `BadTest` is a `Test` key without a nonempty string. */
  datatype Line =
    | NotAnObject
    | Object(action: Option<Action>, package: Option<string>, test: TestField, text: bool, failedBuild: bool)

  datatype Id = Id(package: string, test: string)

  datatype PackageState = Active | Ended(action: Action)

  datatype TestState = Running | Paused | Finished(action: Action)

  predicate Terminal(a: Action) { a == Pass || a == Fail || a == Skip }

  /** A line with an action, a named package and no malformed test name. */
  predicate Shaped(l: Line) {
    l.Object? && l.action.Some? && l.package.Some? && l.package.value != "" && l.test != BadTest
  }

  predicate IsEvent(l: Line) { Shaped(l) && l.action.value != Output }

  /** The two dictionaries, and whether no problem has been reported. */
  datatype State = State(packages: map<string, PackageState>, tests: map<Id, TestState>, clean: bool)

  function Dirty(s: State): State { s.(clean := false) }

  predicate Unfinished(s: State, p: string) {
    exists id :: id in s.tests && id.package == p && !s.tests[id].Finished?
  }

  predicate HasTests(s: State, p: string) { exists id :: id in s.tests && id.package == p }

  /** One line, in the order of the source's tests. */
  function Step(s: State, l: Line, allowed: set<Id>): State {
    if !Shaped(l) then Dirty(s)
    else if l.action.value == Output then if l.text then s else Dirty(s)
    else
      var s := if l.failedBuild then Dirty(s) else s;
      var a, p := l.action.value, l.package.value;
      if a == Start then
        if l.test.Test? || p in s.packages then Dirty(s) else s.(packages := s.packages[p := Active])
      else if p !in s.packages || s.packages[p] != Active then Dirty(s)
      else if l.test.NoTest? then EndPackage(s, p, a)
      else StepTest(s, Id(p, l.test.name), a, allowed)
  }

  function EndPackage(s: State, p: string, a: Action): State {
    if !Terminal(a) then Dirty(s)
    else
      var bad := Unfinished(s, p) || a == Fail || (a == Skip && HasTests(s, p));
      s.(packages := s.packages[p := Ended(a)], clean := s.clean && !bad)
  }

  /** The state an action moves a test to, or `None` for an invalid transition. */
  function Move(prior: Option<TestState>, a: Action): Option<TestState> {
    if a == Run then if prior.Some? then None else Some(Running)
    else if a == Pause && prior == Some(Running) then Some(Paused)
    else if a == Cont && prior == Some(Paused) then Some(Running)
    else if Terminal(a) && prior == Some(Running) then Some(Finished(a))
    else None
  }

  function Look<K, V>(m: map<K, V>, k: K): Option<V> { if k in m then Some(m[k]) else None }

  function StepTest(s: State, id: Id, a: Action, allowed: set<Id>): State {
    match Move(Look(s.tests, id), a)
    case None => Dirty(s)
    case Some(next) =>
      s.(tests := s.tests[id := next], clean := s.clean && a != Fail && (a == Skip ==> id in allowed))
  }

  function Fold(lines: seq<Line>, allowed: set<Id>): State {
    if lines == [] then State(map[], map[], true)
    else Step(Fold(lines[..|lines| - 1], allowed), lines[|lines| - 1], allowed)
  }

  predicate MissingRequired(s: State, id: Id) {
    || id !in s.tests || s.tests[id] != Finished(Pass)
    || id.package !in s.packages || s.packages[id.package] != Ended(Pass)
  }

  /** The checks after the last line. */
  predicate Passes(s: State, lines: seq<Line>, required: set<Id>, exitCode: int) {
    && exitCode == 0 && s.clean && lines != [] && s.tests != map[]
    && (forall p :: p in s.packages ==> s.packages[p] != Active)
    && (forall id :: id in s.tests ==> s.tests[id].Finished?)
    && (forall id :: id in required ==> !MissingRequired(s, id))
  }

  // The loop

  datatype Problem =
    | ExitStatus
    | BadLine(number: nat)
    | FailedBuild(package: string)
    | Package(name: string)
    | TestProblem(id: Id)
    | EmptyLog
    | NoTests
    | MissingPackage(name: string)
    | MissingTest(id: Id)
    | Mandatory(id: Id)

  const MAX_ERRORS := 100

  /** The recorder: beyond 100 problems nothing more is kept. */
  function Note(errors: seq<Problem>, p: Problem): seq<Problem> {
    if |errors| < MAX_ERRORS then errors + [p] else errors
  }

  /** `skips` are the allowed skips that were observed. */
  datatype Counts = Counts(events: nat, packages: nat, started: nat, passed: nat, failed: nat, skipped: nat,
                           mandatory: nat, missing: nat, skips: set<Id>)

  function InState(tests: map<Id, TestState>, a: Action): set<Id> {
    set id | id in tests && tests[id] == Finished(a)
  }

  function MissingOf(s: State, required: set<Id>): set<Id> { set id | id in required && MissingRequired(s, id) }

  function CountsOf(s: State, lines: seq<Line>, required: set<Id>, allowed: set<Id>): Counts {
    Counts(|lines|, |s.packages|, |s.tests|, |InState(s.tests, Pass)|, |InState(s.tests, Fail)|,
           |InState(s.tests, Skip)|, |required|, |MissingOf(s, required)|, InState(s.tests, Skip) * allowed)
  }

  // How many problems there are

  function One(b: bool): nat { if b then 1 else 0 }

  function EndProblems(s: State, p: string, a: Action): nat {
    if !Terminal(a) then 1 else One(Unfinished(s, p)) + One(a == Fail) + One(a == Skip && HasTests(s, p))
  }

  function TestProblems(s: State, id: Id, a: Action, allowed: set<Id>): nat {
    One(Move(Look(s.tests, id), a) == None || a == Fail || (a == Skip && id !in allowed))
  }

  function LineProblems(s: State, l: Line, allowed: set<Id>): nat {
    if !Shaped(l) then 1
    else if l.action.value == Output then One(!l.text)
    else
      var a, p := l.action.value, l.package.value;
      One(l.failedBuild)
      + if a == Start then One(l.test.Test? || p in s.packages)
        else if p !in s.packages || s.packages[p] != Active then 1
        else if l.test.NoTest? then EndProblems(s, p, a)
        else TestProblems(s, Id(p, l.test.name), a, allowed)
  }

  function FoldProblems(lines: seq<Line>, allowed: set<Id>): nat {
    if lines == [] then 0
    else
      var n := |lines| - 1;
      FoldProblems(lines[..n], allowed) + LineProblems(Fold(lines[..n], allowed), lines[n], allowed)
  }

  function ActiveOf(packages: map<string, PackageState>): set<string> {
    set p | p in packages && packages[p] == Active
  }

  function OpenOf(tests: map<Id, TestState>): set<Id> { set id | id in tests && !tests[id].Finished? }

  /** The problems of the checks after the last line. */
  function LastProblems(s: State, lines: seq<Line>, required: set<Id>): nat {
    One(lines == []) + One(s.tests == map[])
    + |ActiveOf(s.packages)| + |OpenOf(s.tests)|
    + |MissingOf(s, required)|
  }

  function AllProblems(lines: seq<Line>, required: set<Id>, allowed: set<Id>, exitCode: int): nat {
    One(exitCode != 0) + FoldProblems(lines, allowed) + LastProblems(Fold(lines, allowed), lines, required)
  }

  /** What the recorder keeps of `n` problems. */
  function Kept(n: nat): nat { if n < 100 then n else 100 }

  /** The source's handling of a package's own event, past its start. */
  method HandleEnd(number: nat, p: string, a: Action, packages: map<string, PackageState>,
                   tests: map<Id, TestState>, errors: seq<Problem>)
    returns (packages': map<string, PackageState>, errors': seq<Problem>)
    requires |errors| <= MAX_ERRORS
    ensures var s := EndPackage(State(packages, tests, errors == []), p, a);
            packages' == s.packages && s.tests == tests && (errors' == [] <==> s.clean)
    ensures |errors'| == Kept(|errors| + EndProblems(State(packages, tests, true), p, a))
  {
    packages', errors' := packages, errors;
    if !Terminal(a) {
      errors' := Note(errors', BadLine(number));
      return;
    }
    if exists id :: id in tests && id.package == p && !tests[id].Finished? {
      errors' := Note(errors', Package(p));
    }
    packages' := packages'[p := Ended(a)];
    if a == Fail {
      errors' := Note(errors', Package(p));
    }
    if a == Skip && exists id :: id in tests && id.package == p {
      errors' := Note(errors', Package(p));
    }
  }

  method HandleTest(id: Id, a: Action, allowed: set<Id>, packages: map<string, PackageState>,
                    tests: map<Id, TestState>, errors: seq<Problem>)
    returns (tests': map<Id, TestState>, errors': seq<Problem>)
    requires |errors| <= MAX_ERRORS
    ensures var s := StepTest(State(packages, tests, errors == []), id, a, allowed);
            tests' == s.tests && s.packages == packages && (errors' == [] <==> s.clean)
    ensures |errors'| == Kept(|errors| + TestProblems(State(packages, tests, true), id, a, allowed))
  {
    tests', errors' := tests, errors;
    if a == Run {
      if id in tests {
        errors' := Note(errors', TestProblem(id));
      } else {
        tests' := tests'[id := Running];
      }
    } else if a == Pause && id in tests && tests[id] == Running {
      tests' := tests'[id := Paused];
    } else if a == Cont && id in tests && tests[id] == Paused {
      tests' := tests'[id := Running];
    } else if Terminal(a) && id in tests && tests[id] == Running {
      tests' := tests'[id := Finished(a)];
      if a == Fail {
        errors' := Note(errors', TestProblem(id));
      } else if a == Skip && id !in allowed {
        errors' := Note(errors', TestProblem(id));
      }
    } else {
      errors' := Note(errors', TestProblem(id));
    }
  }

  method HandleLine(number: nat, l: Line, allowed: set<Id>, packages: map<string, PackageState>,
                    tests: map<Id, TestState>, errors: seq<Problem>)
    returns (packages': map<string, PackageState>, tests': map<Id, TestState>, errors': seq<Problem>)
    requires |errors| <= MAX_ERRORS
    ensures var s := Step(State(packages, tests, errors == []), l, allowed);
            packages' == s.packages && tests' == s.tests && (errors' == [] <==> s.clean)
    ensures |errors'| == Kept(|errors| + LineProblems(State(packages, tests, true), l, allowed))
  {
    hide EndPackage, StepTest, EndProblems, TestProblems;
    packages', tests', errors' := packages, tests, errors;
    if !Shaped(l) {
      errors' := Note(errors', BadLine(number));
      return;
    }
    var a, p := l.action.value, l.package.value;
    if a == Output {
      if !l.text {
        errors' := Note(errors', BadLine(number));
      }
      return;
    }
    if l.failedBuild {
      errors' := Note(errors', FailedBuild(p));
    }
    if a == Start {
      if l.test.Test? || p in packages {
        errors' := Note(errors', BadLine(number));
      } else {
        packages' := packages'[p := Active];
      }
      return;
    }
    if p !in packages || packages[p] != Active {
      errors' := Note(errors', BadLine(number));
      return;
    }
    if l.test.NoTest? {
      packages', errors' := HandleEnd(number, p, a, packages', tests', errors');
    } else {
      tests', errors' := HandleTest(Id(p, l.test.name), a, allowed, packages', tests', errors');
    }
  }

  /** `evaluate`.  The recorded problems are capped, the verdict is not. */
  method Evaluate(lines: seq<Line>, required: set<Id>, allowed: set<Id>, exitCode: int)
    returns (pass: bool, counts: Counts, errors: seq<Problem>)
    ensures pass <==> Passes(Fold(lines, allowed), lines, required, exitCode)
    ensures counts == CountsOf(Fold(lines, allowed), lines, required, allowed)
    ensures pass <==> errors == []
    ensures |errors| == Kept(AllProblems(lines, required, allowed, exitCode))
  {
    hide Step, MissingRequired, LineProblems, InState, ActiveOf, OpenOf;
    var packages: map<string, PackageState> := map[];
    var tests: map<Id, TestState> := map[];
    errors := [];
    if exitCode != 0 {
      errors := Note(errors, ExitStatus);
    }
    for i := 0 to |lines|
      invariant var s := Fold(lines[..i], allowed);
        packages == s.packages && tests == s.tests && (errors == [] <==> s.clean && exitCode == 0)
      invariant |errors| == Kept(One(exitCode != 0) + FoldProblems(lines[..i], allowed))
    {
      assert lines[..i + 1][..i] == lines[..i];
      ghost var s := Fold(lines[..i], allowed);
      StepIgnoresDirt(s, errors == [], lines[i], allowed);
      ProblemsIgnoreDirt(s, lines[i], allowed);
      packages, tests, errors := HandleLine(i, lines[i], allowed, packages, tests, errors);
    }
    assert lines[..|lines|] == lines;
    if lines == [] {
      errors := Note(errors, EmptyLog);
    }
    if tests == map[] {
      errors := Note(errors, NoTests);
    }
    errors := NoteActive(errors, packages);
    errors := NoteOpen(errors, tests);
    errors := NoteMandatory(errors, required, packages, tests);
    pass := errors == [];
    var missing := set id | id in required && MissingRequired(State(packages, tests, true), id);
    counts := Counts(|lines|, |packages|, |tests|, |InState(tests, Pass)|, |InState(tests, Fail)|,
                     |InState(tests, Skip)|, |required|, |missing|, InState(tests, Skip) * allowed);
    assert missing == MissingOf(Fold(lines, allowed), required) by {
      MissingIgnoresDirt(Fold(lines, allowed), packages, tests);
    }
  }

  lemma ProblemsIgnoreDirt(s: State, l: Line, allowed: set<Id>)
    ensures LineProblems(s, l, allowed) == LineProblems(State(s.packages, s.tests, true), l, allowed)
  {
    hide Move;
  }

  lemma MissingIgnoresDirt(s: State, packages: map<string, PackageState>, tests: map<Id, TestState>)
    requires packages == s.packages && tests == s.tests
    ensures forall id :: MissingRequired(s, id) <==> MissingRequired(State(packages, tests, true), id)
  {
  }

  /** Problems already reported change neither dictionary nor the next report. */
  lemma StepIgnoresDirt(s: State, clean: bool, l: Line, allowed: set<Id>)
    requires clean ==> s.clean
    ensures var x, y := Step(s, l, allowed), Step(s.(clean := clean), l, allowed);
      x.packages == y.packages && x.tests == y.tests
      && (y.clean <==> clean && Step(s.(clean := true), l, allowed).clean)
      && (x.clean <==> s.clean && Step(s.(clean := true), l, allowed).clean)
  {
    hide Unfinished, HasTests, Move;
  }

  method NoteActive(errors: seq<Problem>, packages: map<string, PackageState>) returns (r: seq<Problem>)
    requires |errors| <= MAX_ERRORS
    ensures r == [] <==> (errors == [] && forall p :: p in packages ==> packages[p] != Active)
    ensures |r| == Kept(|errors| + |ActiveOf(packages)|)
  {
    r := errors;
    ghost var active := ActiveOf(packages);
    var todo := packages.Keys;
    assert active - todo == {};
    while todo != {}
      invariant todo <= packages.Keys
      invariant |r| == Kept(|errors| + |active - todo|)
      invariant r == [] <==> (errors == [] && forall p :: p in packages && p !in todo ==> packages[p] != Active)
      decreases todo
    {
      var p :| p in todo;
      OneMore(active, todo, p);
      if packages[p] == Active {
        r := Note(r, MissingPackage(p));
      }
      todo := todo - {p};
    }
    assert active - {} == active;
  }

  method NoteOpen(errors: seq<Problem>, tests: map<Id, TestState>) returns (r: seq<Problem>)
    requires |errors| <= MAX_ERRORS
    ensures r == [] <==> (errors == [] && forall id :: id in tests ==> tests[id].Finished?)
    ensures |r| == Kept(|errors| + |OpenOf(tests)|)
  {
    r := errors;
    ghost var open := OpenOf(tests);
    var todo := tests.Keys;
    assert open - todo == {};
    while todo != {}
      invariant todo <= tests.Keys
      invariant |r| == Kept(|errors| + |open - todo|)
      invariant r == [] <==> (errors == [] && forall id :: id in tests && id !in todo ==> tests[id].Finished?)
      decreases todo
    {
      var id :| id in todo;
      OneMore(open, todo, id);
      if !tests[id].Finished? {
        r := Note(r, MissingTest(id));
      }
      todo := todo - {id};
    }
    assert open - {} == open;
  }

  lemma OneMore<T>(s: set<T>, todo: set<T>, x: T)
    requires x in todo
    ensures |s - (todo - {x})| == |s - todo| + One(x in s)
    ensures s - s == {}
  {
    if x in s {
      assert s - (todo - {x}) == (s - todo) + {x};
    } else {
      assert s - (todo - {x}) == s - todo;
    }
  }

  method NoteMandatory(errors: seq<Problem>, required: set<Id>,
                       packages: map<string, PackageState>, tests: map<Id, TestState>)
    returns (r: seq<Problem>)
    requires |errors| <= MAX_ERRORS
    ensures r == [] <==>
      (errors == [] && forall id :: id in required ==> !MissingRequired(State(packages, tests, true), id))
    ensures |r| == Kept(|errors| + |MissingOf(State(packages, tests, true), required)|)
  {
    hide MissingRequired;
    r := errors;
    ghost var missing := MissingOf(State(packages, tests, true), required);
    var todo := required;
    assert missing - todo == {};
    while todo != {}
      invariant todo <= required
      invariant |r| == Kept(|errors| + |missing - todo|)
      invariant r == [] <==>
        (errors == [] &&
         forall id :: id in required && id !in todo ==> !MissingRequired(State(packages, tests, true), id))
      decreases todo
    {
      var id :| id in todo;
      OneMore(missing, todo, id);
      if MissingRequired(State(packages, tests, true), id) {
        r := Note(r, Mandatory(id));
      }
      todo := todo - {id};
    }
    assert missing - {} == missing;
  }
}
