/**
 One run that is accepted, to the nanosecond, and what a change would make of it.
*/
module RunExample {
  import opened Wrappers
  import opened RunEvidence

  const SECOND := 1_000_000_000

  const ADMISSION := Admission(ToolOnly, 0, 1000 * SECOND, map["outer_owner" := 900 * SECOND])

  const CLOCK := Clock(1, 300, ADMISSION.owners, 300 * SECOND + 1)

  /** The first two phases at one moment, the others a second apart. */
  function Times(): Phases { seq(15, i requires 0 <= i < 15 => Some(if i == 0 then 2 * SECOND else (i + 1) * SECOND)) }

  const PROCESS := Process(Times(), Some(300 * SECOND + 1), Some(0), Some(0), ParentWait, false, false)

  const CLEAN := Cleanup([Some(0), Some(0), Some(0), Some(0)], [Some(true), Some(true), Some(true), Some(true)],
                         Some(false), Some(14 * SECOND))

  function At(second: int, owner: Owner, action: string, elapsed: Option<real>): Event {
    Event(true, second * SECOND, owner, action, elapsed, false, "")
  }

  /** A package starts at second `first` and ends at second `last`; its test runs from
      6 to 7 and reports its elapsed time. */
  function Events(first: int, last: int, elapsed: real): seq<Event> {
    [At(first, Package, "start", None), At(6, Test, "run", None), At(7, Test, "pass", Some(elapsed)),
     At(last, Package, "pass", Some(0.0))]
  }

  lemma ClockIsAccepted()
    ensures ClockAccepted(CLOCK, ADMISSION, [900 * SECOND]) && Lists([900 * SECOND], ADMISSION.owners)
  {
    var rest := [ADMISSION.notAfter] + [900 * SECOND];
    assert rest[1..] == [900 * SECOND] && rest[1..][1..] == [];
    assert Least(300 * SECOND + 1, rest[1..][1..]) == 300 * SECOND + 1;
    assert "outer_owner" in ADMISSION.owners;
  }

  lemma ProcessIsAccepted()
    ensures ProcessAccepted(PROCESS, CLEAN, CLOCK, true)
  {
    assert Times()[CLEANUP] == Some(14 * SECOND);
    assert PhasesInOrder(Times(), CLOCK.origin, CLOCK.deadline, true);
  }

  /** Only the exit code 0 is a success. */
  lemma OtherExitsAreRefused(exit: Option<int>)
    requires exit != Some(0)
    ensures !ProcessAccepted(PROCESS.(goExit := exit), CLEAN, CLOCK, true)
    ensures !ProcessAccepted(PROCESS.(runnerExit := exit), CLEAN, CLOCK, true)
  {
  }

  /** The child's deadline must be known and not earlier than the clock's. */
  lemma ChildDeadlineIff(deadline: Option<int>)
    ensures ProcessAccepted(PROCESS.(childDeadline := deadline), CLEAN, CLOCK, true) <==>
            deadline.Some? && deadline.value >= 300 * SECOND + 1
  {
    ProcessIsAccepted();
  }

  lemma StepOf(first: int, last: int, elapsed: real)
    ensures var es := Events(first, last, elapsed);
      && Order(es) == FULL_RUN && Output(es) == ""
      && StartOf(es[..3], Test) == Some(6 * SECOND) && StartOf(es[..4], Package) == Some(first * SECOND)
  {
    var es := Events(first, last, elapsed);
    hide Order, Output, StartOf;
    NothingYet(es);
    EventStep(es, 0);
    EventStep(es, 1);
    EventStep(es, 2);
    EventStep(es, 3);
    assert es[..4] == es;
    assert Starts(es[0], Package) && es[0].time == first * SECOND && Starts(es[1], Test) && es[1].time == 6 * SECOND;
    assert StartOf(es[..0 + 1], Package) == Some(first * SECOND);
    assert StartOf(es[..1 + 1], Package) == Some(first * SECOND) && StartOf(es[..1 + 1], Test) == Some(6 * SECOND);
    assert StartOf(es[..2 + 1], Package) == Some(first * SECOND) && StartOf(es[..2 + 1], Test) == Some(6 * SECOND);
    assert StartOf(es[..3 + 1], Package) == Some(first * SECOND);
  }

  lemma PhaseTimes()
    ensures Times()[GO_STARTED] == Some(4 * SECOND) && Times()[GO_EXIT] == Some(13 * SECOND)
    ensures Times()[CLEANUP] == Some(14 * SECOND) && Times()[PARENT_WAIT] == Some(15 * SECOND)
    ensures Seconds(CLOCK.deadline - CLOCK.origin) == 300.0
  {
  }

  /** Go starts at second 4 and exits at second 13, so the run is accepted exactly if its
      events lie between the two and the test took at most 0.1 seconds longer than its
      own two events are apart. */
  lemma RunIsAcceptedIff(first: int, last: int, elapsed: real, bad: string -> bool)
    requires !bad("")
    ensures EventsAccepted(Events(first, last, elapsed), CLOCK, PROCESS, true, bad) <==>
            4 <= first <= 6 && 7 <= last <= 13 && 0.0 <= elapsed <= 1.1
  {
    hide Order, Output, StartOf, Seconds;
    var es := Events(first, last, elapsed);
    StepOf(first, last, elapsed);
    PhaseTimes();
    FirstFits(first, last, elapsed);
    TestFits(first, last, elapsed);
    if first <= 6 { LastFits(first, last, elapsed); }
    if EventsAccepted(es, CLOCK, PROCESS, true, bad) {
      assert EventFits(es, 0, CLOCK, PROCESS, true) && EventFits(es, 1, CLOCK, PROCESS, true);
      assert EventFits(es, 2, CLOCK, PROCESS, true) && EventFits(es, 3, CLOCK, PROCESS, true);
    }
  }

  lemma FirstFits(first: int, last: int, elapsed: real)
    ensures var es := Events(first, last, elapsed);
      && (EventFits(es, 0, CLOCK, PROCESS, true) <==> 4 <= first <= 13)
      && (EventFits(es, 1, CLOCK, PROCESS, true) <==> first <= 6)
  {
    hide Seconds, StartOf;
    PhaseTimes();
  }

  lemma TestFits(first: int, last: int, elapsed: real)
    ensures EventFits(Events(first, last, elapsed), 2, CLOCK, PROCESS, true) <==> 0.0 <= elapsed <= 1.1
  {
    hide StartOf;
    StepOf(first, last, elapsed);
    PhaseTimes();
    var es := Events(first, last, elapsed);
    assert es[..2 + 1] == es[..3];
    assert Seconds(es[2].time - 6 * SECOND) == 1.0;
  }

  lemma LastFits(first: int, last: int, elapsed: real)
    requires first <= 6
    ensures EventFits(Events(first, last, elapsed), 3, CLOCK, PROCESS, true) <==> 7 <= last <= 13
  {
    hide StartOf;
    StepOf(first, last, elapsed);
    PhaseTimes();
    var es := Events(first, last, elapsed);
    assert es[..3 + 1] == es[..4];
    if 7 <= last { assert Seconds(es[3].time - first * SECOND) >= 0.0; }
  }

  /** The whole run, as its validators see it. */
  lemma AcceptedExample(bad: string -> bool)
    requires !bad("")
    ensures Lists([900 * SECOND], ADMISSION.owners) && ClockAccepted(CLOCK, ADMISSION, [900 * SECOND])
    ensures ProcessAccepted(PROCESS, CLEAN, CLOCK, true)
    ensures EventsAccepted(Events(4, 13, 1.1), CLOCK, PROCESS, true, bad)
  {
    ClockIsAccepted();
    ProcessIsAccepted();
    RunIsAcceptedIff(4, 13, 1.1, bad);
  }

  // A run that failed

  /** Killed after two phases, with nothing known about its exit. */
  const KILLED := Process(seq(15, i requires 0 <= i < 15 => if i < 2 then Some(2 + i) else None), None, None, Some(1),
                          NotObserved, true, false)

  /** As a failure it is accepted, with one event and whatever it printed; as a success
      it is not. */
  lemma KilledIsAFailure(bad: string -> bool)
    ensures var u := Cleanup([None, Some(3)], [Some(false), None], Some(true), None);
      ProcessAccepted(KILLED, u, CLOCK, false) && !ProcessAccepted(KILLED, u, CLOCK, true)
    ensures EventsAccepted([Event(true, SECOND, Test, "fail", None, true, "panic")], CLOCK, KILLED, false, bad)
  {
  }
}
