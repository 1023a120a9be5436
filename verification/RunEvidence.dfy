/**
 The time grammar of an archived benchmark run: the parent clock, the process
 phases and the raw Go event stream.  Times are nanoseconds since the epoch.
*/
module RunEvidence {
  import opened Wrappers

  const NS := 1_000_000_000

  datatype Scale = ToolOnly | Small | Medium

  function BudgetSeconds(scale: Scale): int {
    match scale case ToolOnly => 300 case Small => 1800 case Medium => 10800
  }

  /** The part of an admission a clock is held to; `owners` are approved deadlines. */
  datatype Admission = Admission(scale: Scale, notBefore: int, notAfter: int, owners: map<string, int>)

  datatype Clock = Clock(origin: int, budget: int, owners: map<string, int>, deadline: int)

  // The parent clock

  /** The smallest of a value and the listed ones. */
  function Least(first: int, rest: seq<int>): int {
    if rest == [] then first
    else
      var r := Least(first, rest[1..]);
      if rest[0] < r then rest[0] else r
  }

  lemma {:induction false} LeastFacts(first: int, rest: seq<int>)
    ensures var r := Least(first, rest); r <= first && (r == first || r in rest) && forall x :: x in rest ==> r <= x
    decreases rest
  {
    if rest != [] {
      LeastFacts(first, rest[1..]);
      assert rest == [rest[0]] + rest[1..];
    }
  }

  /** `order` lists the approved deadlines in the order of their record. */
  predicate Lists(order: seq<int>, owners: map<string, int>) {
    && (forall k :: k in owners ==> owners[k] in order)
    && (forall x :: x in order ==> exists k :: k in owners && owners[k] == x)
  }

  /** `_validate_clock_fields`, after the fixed labels. */
  predicate ClockAccepted(c: Clock, a: Admission, order: seq<int>) {
    var expected := Least(c.origin + c.budget * NS, [a.notAfter] + order);
    && c.origin >= 1 && c.budget == BudgetSeconds(a.scale)
    && a.notBefore <= c.origin < a.notAfter
    && c.owners == a.owners && c.deadline == expected && expected > c.origin
  }

  /** The accepted deadline is the greatest moment no limit forbids. */
  lemma DeadlineIsTightest(c: Clock, a: Admission, order: seq<int>, t: int)
    requires Lists(order, a.owners) && ClockAccepted(c, a, order)
    ensures t <= c.deadline <==>
              t <= c.origin + BudgetSeconds(a.scale) * NS && t <= a.notAfter
              && forall k :: k in a.owners ==> t <= a.owners[k]
  {
    LeastFacts(c.origin + c.budget * NS, [a.notAfter] + order);
    assert a.notAfter in [a.notAfter] + order;
    assert forall k :: k in a.owners ==> a.owners[k] in [a.notAfter] + order;
    if t > c.deadline && c.deadline in order {
      var k :| k in a.owners && a.owners[k] == c.deadline;
    }
  }

  // Process phases

  const PHASES := 15
  const GO_STARTED := 3
  const GO_EXIT := 12
  const CLEANUP := 13
  const PARENT_WAIT := 14

  type Phases = ps: seq<Option<int>> | |ps| == PHASES witness seq(PHASES, _ => None)

  /** The known phase times do not decrease and none precedes the origin; a
      success knows them all, before the deadline. */
  predicate PhasesInOrder(ps: seq<Option<int>>, origin: int, deadline: int, success: bool) {
    && (forall i :: 0 <= i < |ps| && ps[i].Some? ==> origin <= ps[i].value)
    && (forall i, k :: 0 <= i < k < |ps| && ps[i].Some? && ps[k].Some? ==> ps[i].value <= ps[k].value)
    && (success ==> forall i :: 0 <= i < |ps| ==> ps[i].Some? && ps[i].value < deadline)
  }

  method CheckPhases(ps: Phases, origin: int, deadline: int, success: bool) returns (ok: bool)
    ensures ok <==> PhasesInOrder(ps, origin, deadline, success)
  {
    var last := origin;
    for i := 0 to PHASES
      invariant PhasesInOrder(ps[..i], origin, deadline, success)
      invariant origin <= last
      invariant forall k :: 0 <= k < i && ps[k].Some? ==> ps[k].value <= last
      invariant last == origin || Some(last) in ps[..i]
    {
      assert ps[..i + 1] == ps[..i] + [ps[i]];
      match ps[i] {
        case None =>
          if success {
            return false;
          }
        case Some(t) =>
          if t < last {
            return false;
          }
          last := t;
          if success && last >= deadline {
            return false;
          }
      }
    }
    assert ps[..PHASES] == ps;
    return true;
  }

  datatype Observation = ParentWait | NotObserved | Unlisted

  datatype Process = Process(phases: Phases, childDeadline: Option<int>, goExit: Option<int>, runnerExit: Option<int>,
                             observation: Observation, timedOut: bool, clockReversed: bool)

  /** `open` counts what is still joined, read or connected; `absent` says what is
      gone; `None` is unknown. */
  datatype Cleanup = Cleanup(open: seq<Option<int>>, absent: seq<Option<bool>>, containmentOnly: Option<bool>,
                             completed: Option<int>)

  /** `validate_process`, after the fixed labels and the clock. */
  predicate ProcessAccepted(p: Process, u: Cleanup, c: Clock, success: bool) {
    && (p.childDeadline.Some? ==> 1 <= p.childDeadline.value && c.deadline <= p.childDeadline.value)
    && p.observation == (if p.goExit == None then NotObserved else ParentWait)
    && PhasesInOrder(p.phases, c.origin, c.deadline, success)
    && (forall i :: 0 <= i < |u.open| && u.open[i].Some? ==> u.open[i].value >= 0)
    && (u.completed.Some? ==> c.origin <= u.completed.value)
    && (success ==>
          && p.childDeadline.Some?
          && p.goExit == Some(0) && p.runnerExit == Some(0) && !p.timedOut && !p.clockReversed
          && (forall i :: 0 <= i < |u.open| ==> u.open[i] == Some(0))
          && (forall i :: 0 <= i < |u.absent| ==> u.absent[i] == Some(true))
          && u.containmentOnly == Some(false) && u.completed == p.phases[CLEANUP])
  }

  /** `validate_process` after the fixed labels and the clock, test by test. */
  method ValidateProcess(p: Process, u: Cleanup, c: Clock, success: bool) returns (ok: bool)
    ensures ok <==> ProcessAccepted(p, u, c, success)
  {
    hide PhasesInOrder;
    if p.childDeadline == None {
      if success {
        return false;
      }
    } else if p.childDeadline.value < 1 || p.childDeadline.value < c.deadline {
      return false;
    }
    if p.goExit == None && p.observation != NotObserved {
      return false;
    }
    if p.goExit != None && p.observation != ParentWait {
      return false;
    }
    var ordered := CheckPhases(p.phases, c.origin, c.deadline, success);
    if !ordered {
      return false;
    }
    for i := 0 to |u.open|
      invariant forall k :: 0 <= k < i && u.open[k].Some? ==> u.open[k].value >= 0
      invariant success ==> forall k :: 0 <= k < i ==> u.open[k] == Some(0)
    {
      if (u.open[i].Some? && u.open[i].value < 0) || (success && u.open[i] != Some(0)) {
        return false;
      }
    }
    if u.completed.Some? && u.completed.value < c.origin {
      return false;
    }
    if success {
      if p.goExit != Some(0) || p.runnerExit != Some(0) || p.timedOut || p.clockReversed {
        return false;
      }
      if exists i :: 0 <= i < |u.absent| && u.absent[i] != Some(true) {
        return false;
      }
      if u.containmentOnly != Some(false) || u.completed != p.phases[CLEANUP] {
        return false;
      }
    }
    return true;
  }

  // Go events

  datatype Owner = Package | Test

  /** `named` says that the package, the test selector, the field names and the
      time stamp are the expected ones; `failedBuild` that the event has one. */
  datatype Event = Event(named: bool, time: int, owner: Owner, action: string, elapsed: Option<real>, failedBuild: bool,
                         output: string)

  const ACTIONS := {"start", "run", "pass", "fail", "skip", "output"}

  predicate Starts(e: Event, owner: Owner) { e.owner == owner && (e.action == "start" || e.action == "run") }

  /** Whether the event is one the recorder keeps: a test is never started and a
      package never run, and such an event is passed over in silence. */
  predicate Recorded(e: Event) {
    e.action in (if e.owner == Test then {"run", "pass", "fail", "skip"} else {"start", "pass", "fail", "skip"})
  }

  /** The recorded events, in order. */
  function Order(es: seq<Event>): seq<(Owner, string)> {
    if es == [] then []
    else
      var n := |es| - 1;
      Order(es[..n]) + if Recorded(es[n]) then [(es[n].owner, es[n].action)] else []
  }

  function Output(es: seq<Event>): string {
    if es == [] then []
    else
      var n := |es| - 1;
      Output(es[..n]) + if es[n].action == "output" then es[n].output else []
  }

  /** When the owner was last seen to start. */
  function StartOf(es: seq<Event>, owner: Owner): Option<int> {
    if es == [] then None
    else
      var n := |es| - 1;
      if Starts(es[n], owner) then Some(es[n].time) else StartOf(es[..n], owner)
  }

  function Seconds(ns: int): real { ns as real / NS as real }

  /** Event `i` by itself and against what came before it. */
  predicate EventFits(es: seq<Event>, i: nat, c: Clock, p: Process, success: bool)
    requires i < |es|
    requires success ==> forall k :: 0 <= k < PHASES ==> p.phases[k].Some?
  {
    var e := es[i];
    && e.named && e.action in ACTIONS && c.origin <= e.time
    && (i > 0 ==> es[i - 1].time <= e.time)
    && (e.elapsed.Some? ==> 0.0 <= e.elapsed.value)
    && (success ==>
          && !e.failedBuild && InTime(e, c, p)
          && (e.elapsed.Some? ==> e.elapsed.value <= Seconds(c.deadline - c.origin))
          && (e.action == "pass" ==> e.elapsed.Some? && ElapsedFits(es, i)))
  }

  /** A successful run's event lies between the process phases. */
  predicate InTime(e: Event, c: Clock, p: Process)
    requires forall k :: 0 <= k < PHASES ==> p.phases[k].Some?
  {
    && e.time < c.deadline && e.time <= p.phases[PARENT_WAIT].value
    && p.phases[GO_STARTED].value <= e.time <= p.phases[GO_EXIT].value
    && e.time < p.phases[CLEANUP].value
  }

  predicate ElapsedFits(es: seq<Event>, i: nat)
    requires i < |es| && es[i].elapsed.Some?
  {
    var start := StartOf(es[..i + 1], es[i].owner);
    start.Some? && es[i].elapsed.value <= Seconds(es[i].time - start.value) + 0.1
  }

  const FULL_RUN := [(Package, "start"), (Test, "run"), (Test, "pass"), (Package, "pass")]

  /** `bad` holds of an output with one of the fatal words. */
  predicate EventsAccepted(es: seq<Event>, c: Clock, p: Process, success: bool, bad: string -> bool)
    requires success ==> forall k :: 0 <= k < PHASES ==> p.phases[k].Some?
  {
    && (forall i :: 0 <= i < |es| ==> EventFits(es, i, c, p, success))
    && (success ==> Order(es) == FULL_RUN && !bad(Output(es)))
  }

  method WithinPhases(e: Event, c: Clock, p: Process) returns (ok: bool)
    requires forall k :: 0 <= k < PHASES ==> p.phases[k].Some?
    ensures ok <==> InTime(e, c, p)
  {
    if e.time >= c.deadline || e.time > p.phases[PARENT_WAIT].value {
      return false;
    }
    if !(p.phases[GO_STARTED].value <= e.time <= p.phases[GO_EXIT].value) {
      return false;
    }
    return e.time < p.phases[CLEANUP].value;
  }

  lemma NothingYet(es: seq<Event>)
    ensures Order(es[..0]) == [] && Output(es[..0]) == [] && forall o :: StartOf(es[..0], o) == None
  {
  }

  /** What one more event adds. */
  lemma EventStep(es: seq<Event>, i: nat)
    requires i < |es|
    ensures Order(es[..i + 1]) == Order(es[..i]) + if Recorded(es[i]) then [(es[i].owner, es[i].action)] else []
    ensures Output(es[..i + 1]) == Output(es[..i]) + if es[i].action == "output" then es[i].output else []
    ensures forall o :: StartOf(es[..i + 1], o) == if Starts(es[i], o) then Some(es[i].time) else StartOf(es[..i], o)
    ensures es[i].action == "output" ==> !Recorded(es[i])
    ensures forall o :: Starts(es[i], o) ==> o == es[i].owner
  {
    assert es[..i + 1][..i] == es[..i];
  }

  method ValidateEvents(es: seq<Event>, c: Clock, p: Process, success: bool, bad: string -> bool)
    returns (ok: bool, order: seq<(Owner, string)>, output: string)
    requires success ==> forall k :: 0 <= k < PHASES ==> p.phases[k].Some?
    ensures ok <==> EventsAccepted(es, c, p, success, bad)
    ensures ok ==> order == Order(es) && output == Output(es)
  {
    hide InTime, Seconds, Order, Output, StartOf, Recorded, Starts;
    NothingYet(es);
    order, output := [], [];
    var previous: Option<int> := None;
    var starts: map<Owner, int> := map[];
    for i := 0 to |es|
      invariant order == Order(es[..i]) && output == Output(es[..i])
      invariant previous == if i == 0 then None else Some(es[i - 1].time)
      invariant forall o :: StartOf(es[..i], o) == if o in starts then Some(starts[o]) else None
      invariant forall k :: 0 <= k < i ==> EventFits(es, k, c, p, success)
    {
      var e := es[i];
      EventStep(es, i);
      ghost var fits := EventFits(es, i, c, p, success);
      if !e.named || (e.failedBuild && success) || e.time < c.origin || (previous.Some? && e.time < previous.value) {
        return false, order, output;
      }
      previous := Some(e.time);
      if success {
        var timely := WithinPhases(e, c, p);
        if !timely {
          return false, order, output;
        }
      }
      if e.action !in ACTIONS {
        return false, order, output;
      }
      if e.action == "output" {
        output := output + e.output;
      } else if Recorded(e) {
        order := order + [(e.owner, e.action)];
      }
      if Starts(e, e.owner) {
        starts := starts[e.owner := e.time];
      }
      if e.elapsed.Some? {
        if e.elapsed.value < 0.0 || (success && e.elapsed.value > Seconds(c.deadline - c.origin)) {
          return false, order, output;
        }
        if success && e.action == "pass"
            && (e.owner !in starts || e.elapsed.value > Seconds(e.time - starts[e.owner]) + 0.1) {
          return false, order, output;
        }
      } else if success && e.action == "pass" {
        return false, order, output;
      }
    }
    assert es[..|es|] == es;
    ok := !success || (order == FULL_RUN && !bad(output));
  }

  // What an accepted success says

  lemma {:induction false} TimesSorted(es: seq<Event>, i: nat, k: nat)
    requires forall m :: 0 < m < |es| ==> es[m - 1].time <= es[m].time
    requires i <= k < |es|
    ensures es[i].time <= es[k].time
    decreases k
  {
    if i < k { TimesSorted(es, i, k - 1); }
  }

  /** The last recorded event, with nothing recorded after it. */
  lemma {:induction false} LastRecorded(es: seq<Event>) returns (i: nat)
    requires Order(es) != []
    ensures i < |es| && Recorded(es[i])
    ensures Order(es) == Order(es[..i]) + [(es[i].owner, es[i].action)]
    decreases |es|
  {
    i := |es| - 1;
    if !Recorded(es[i]) {
      var init := es[..i];
      i := LastRecorded(init);
      assert init[..i] == es[..i];
    }
  }

  /** A later start is not earlier than the event that started the owner. */
  lemma {:induction false} StartNotBefore(es: seq<Event>, i: nat, owner: Owner)
    requires forall m :: 0 < m < |es| ==> es[m - 1].time <= es[m].time
    requires i < |es| && Starts(es[i], owner)
    ensures StartOf(es, owner).Some? && StartOf(es, owner).value >= es[i].time
    decreases |es|
  {
    var n := |es| - 1;
    if Starts(es[n], owner) {
      TimesSorted(es, i, n);
    } else {
      StartNotBefore(es[..n], i, owner);
    }
  }

  /** The events of a full run: the package starts, its test runs and passes, the
      package passes, and every elapsed time fits between its own two events. */
  predicate FullRun(es: seq<Event>, a: nat, b: nat, d: nat, z: nat) {
    && a < b < d < z < |es|
    && (es[a].owner, es[a].action) == (Package, "start") && (es[b].owner, es[b].action) == (Test, "run")
    && (es[d].owner, es[d].action) == (Test, "pass") && (es[z].owner, es[z].action) == (Package, "pass")
    && (forall i :: 0 <= i < |es| && Recorded(es[i]) ==> i in {a, b, d, z})
    && es[d].elapsed.Some? && es[d].elapsed.value <= Seconds(es[d].time - es[b].time) + 0.1
    && es[z].elapsed.Some? && es[z].elapsed.value <= Seconds(es[z].time - es[a].time) + 0.1
  }

  lemma {:induction false} OrderCounts(es: seq<Event>, i: nat)
    requires i < |es| && Recorded(es[i])
    ensures |Order(es)| >= |Order(es[..i])| + 1
    decreases |es|
  {
    var n := |es| - 1;
    if i < n {
      assert es[..n][..i] == es[..i];
      OrderCounts(es[..n], i);
    }
  }

  lemma PeelLast(es: seq<Event>, n: nat) returns (i: nat)
    requires 1 <= n <= |FULL_RUN| && Order(es) == FULL_RUN[..n]
    ensures i < |es| && Recorded(es[i]) && (es[i].owner, es[i].action) == FULL_RUN[n - 1]
    ensures Order(es[..i]) == FULL_RUN[..n - 1]
  {
    i := LastRecorded(es);
    var init := Order(es[..i]);
    assert (init + [(es[i].owner, es[i].action)])[..n - 1] == init;
    assert FULL_RUN[..n][..n - 1] == FULL_RUN[..n - 1];
  }

  /** The four recorded positions, found from the last to the first. */
  lemma FullRunPositions(es: seq<Event>) returns (a: nat, b: nat, d: nat, z: nat)
    requires Order(es) == FULL_RUN
    ensures a < b < d < z < |es|
    ensures Recorded(es[a]) && Recorded(es[b]) && Recorded(es[d]) && Recorded(es[z])
    ensures (es[a].owner, es[a].action) == (Package, "start") && (es[b].owner, es[b].action) == (Test, "run")
    ensures (es[d].owner, es[d].action) == (Test, "pass") && (es[z].owner, es[z].action) == (Package, "pass")
    ensures Order(es[..z]) == FULL_RUN[..3] && Order(es[..d]) == FULL_RUN[..2]
    ensures Order(es[..b]) == FULL_RUN[..1] && Order(es[..a]) == []
  {
    hide Order, Recorded;
    assert FULL_RUN[..4] == FULL_RUN;
    z := PeelLast(es, 4);
    d := PeelLast(es[..z], 3);
    assert es[..z][..d] == es[..d];
    b := PeelLast(es[..d], 2);
    assert es[..d][..b] == es[..b];
    a := PeelLast(es[..b], 1);
    assert es[..b][..a] == es[..a];
  }

  lemma NothingElseRecorded(es: seq<Event>, a: nat, b: nat, d: nat, z: nat, i: nat)
    requires Order(es) == FULL_RUN && a < b < d < z < |es|
    requires Order(es[..z]) == FULL_RUN[..3] && Order(es[..d]) == FULL_RUN[..2]
    requires Order(es[..b]) == FULL_RUN[..1] && Order(es[..a]) == []
    requires Recorded(es[a]) && Recorded(es[b]) && Recorded(es[d]) && Recorded(es[z])
    requires i < |es| && Recorded(es[i])
    ensures i in {a, b, d, z}
  {
    if i < a { Between(es, i, a); }
    else if a < i < b { Between(es, a, i); Between(es, i, b); }
    else if b < i < d { Between(es, b, i); Between(es, i, d); }
    else if d < i < z { Between(es, d, i); Between(es, i, z); }
    else if z < i { Between(es, z, i); OrderCounts(es, i); }
  }

  lemma Between(es: seq<Event>, i: nat, k: nat)
    requires i < k <= |es| && Recorded(es[i])
    ensures |Order(es[..k])| >= |Order(es[..i])| + 1
  {
    assert es[..k][..i] == es[..i];
    OrderCounts(es[..k], i);
  }

  /** From the origin to the earliest of budget, admission end and approved
      deadlines. */
  predicate Inside(t: int, c: Clock, ad: Admission) {
    && ad.notBefore <= c.origin <= t < c.origin + BudgetSeconds(ad.scale) * NS
    && t < ad.notAfter && forall k :: k in ad.owners ==> t < ad.owners[k]
  }

  lemma ClockInside(c: Clock, ad: Admission, order: seq<int>, t: int)
    requires Lists(order, ad.owners) && ClockAccepted(c, ad, order) && c.origin <= t < c.deadline
    ensures Inside(t, c, ad)
  {
    DeadlineIsTightest(c, ad, order, c.deadline);
  }

  lemma BudgetBounds(c: Clock, ad: Admission, order: seq<int>)
    requires Lists(order, ad.owners) && ClockAccepted(c, ad, order)
    ensures Seconds(c.deadline - c.origin) <= BudgetSeconds(ad.scale) as real
  {
    DeadlineIsTightest(c, ad, order, c.deadline);
    SecondsMonotone(c.deadline - c.origin, BudgetSeconds(ad.scale) * NS);
  }

  /** By an accepted clock a moment is in time exactly if it lies within 5 minutes, half
      an hour or three hours of the origin, by scale, and within every other limit. */
  lemma RunLength(c: Clock, ad: Admission, order: seq<int>, t: int)
    requires Lists(order, ad.owners) && ClockAccepted(c, ad, order)
    ensures t <= c.deadline <==>
      && t <= ad.notAfter && (forall k :: k in ad.owners ==> t <= ad.owners[k])
      && match ad.scale
         case ToolOnly => t - c.origin <= 300_000_000_000
         case Small => t - c.origin <= 1_800_000_000_000
         case Medium => t - c.origin <= 10_800_000_000_000
  {
    DeadlineIsTightest(c, ad, order, t);
  }

  /** In an accepted success every phase and every event lies in one interval, both
      in order, that ends before every limit of the admission; every event falls
      between Go's start and exit and before the cleanup; the recorded events are
      one full run whose elapsed times fit; and the process ended by itself, with
      exit code 0 on both counts, and left nothing behind. */
  lemma AcceptedRun(es: seq<Event>, c: Clock, ad: Admission, order: seq<int>, p: Process, u: Cleanup,
      bad: string -> bool)
    returns (a: nat, b: nat, d: nat, z: nat)
    requires Lists(order, ad.owners) && ClockAccepted(c, ad, order) && ProcessAccepted(p, u, c, true)
    requires EventsAccepted(es, c, p, true, bad)
    ensures forall i :: 0 <= i < PHASES ==> p.phases[i].Some? && Inside(p.phases[i].value, c, ad)
    ensures forall i, k :: 0 <= i <= k < PHASES ==> p.phases[i].value <= p.phases[k].value
    ensures forall i :: 0 <= i < |es| ==> Inside(es[i].time, c, ad)
    ensures forall i, k :: 0 <= i <= k < |es| ==>
      p.phases[GO_STARTED].value <= es[i].time <= es[k].time <= p.phases[GO_EXIT].value
    ensures forall i :: 0 <= i < |es| ==> es[i].time < p.phases[CLEANUP].value
    ensures FullRun(es, a, b, d, z)
    ensures forall i :: 0 <= i < |es| && es[i].elapsed.Some? ==>
              0.0 <= es[i].elapsed.value <= BudgetSeconds(ad.scale) as real
    ensures p.goExit == Some(0) && p.runnerExit == Some(0) && p.observation == ParentWait
    ensures !p.timedOut && !p.clockReversed && p.childDeadline.Some? && p.childDeadline.value >= c.deadline
    ensures (forall x :: x in u.open ==> x == Some(0)) && (forall x :: x in u.absent ==> x == Some(true))
    ensures u.containmentOnly == Some(false) && u.completed == p.phases[CLEANUP]
  {
    hide Order, Recorded, ElapsedFits, ClockAccepted, Lists, Seconds, Inside;
    BudgetBounds(c, ad, order);
    forall i | 0 <= i < PHASES ensures Inside(p.phases[i].value, c, ad) {
      ClockInside(c, ad, order, p.phases[i].value);
    }
    a, b, d, z := FullRunPositions(es);
    forall i | 0 <= i < |es| && Recorded(es[i]) ensures i in {a, b, d, z} {
      NothingElseRecorded(es, a, b, d, z, i);
    }
    EventsSorted(es, c, p);
    forall i, k | 0 <= i <= k < |es| ensures es[i].time <= es[k].time {
      TimesSorted(es, i, k);
    }
    forall i | 0 <= i < |es|
      ensures p.phases[GO_STARTED].value <= es[i].time <= p.phases[GO_EXIT].value
              && es[i].time < p.phases[CLEANUP].value
      ensures Inside(es[i].time, c, ad)
      ensures es[i].elapsed.Some? ==> 0.0 <= es[i].elapsed.value <= BudgetSeconds(ad.scale) as real
    {
      assert EventFits(es, i, c, p, true);
      ClockInside(c, ad, order, es[i].time);
    }
    PassFits(es, c, p, b, d);
    PassFits(es, c, p, a, z);
  }

  lemma EventsSorted(es: seq<Event>, c: Clock, p: Process)
    requires forall k :: 0 <= k < PHASES ==> p.phases[k].Some?
    requires forall i :: 0 <= i < |es| ==> EventFits(es, i, c, p, true)
    ensures forall m :: 0 < m < |es| ==> es[m - 1].time <= es[m].time
  {
    forall m | 0 < m < |es| ensures es[m - 1].time <= es[m].time {
      assert EventFits(es, m, c, p, true);
    }
  }

  lemma PassFits(es: seq<Event>, c: Clock, p: Process, start: nat, pass: nat)
    requires start < pass < |es| && es[start].owner == es[pass].owner
    requires forall k :: 0 <= k < PHASES ==> p.phases[k].Some?
    requires forall i :: 0 <= i < |es| ==> EventFits(es, i, c, p, true)
    requires Starts(es[start], es[start].owner) && es[pass].action == "pass"
    ensures es[pass].elapsed.Some? && es[pass].elapsed.value <= Seconds(es[pass].time - es[start].time) + 0.1
  {
    var upTo := es[..pass + 1];
    assert EventFits(es, pass, c, p, true);
    EventsSorted(es, c, p);
    StartNotBefore(upTo, start, es[pass].owner);
    SecondsMonotone(es[pass].time - StartOf(upTo, es[pass].owner).value, es[pass].time - es[start].time);
  }

  lemma SecondsMonotone(x: int, y: int)
    requires x <= y
    ensures Seconds(x) <= Seconds(y)
  {
  }

  /** The other way round: under an accepted process the checks against the
      origin, the deadline and the parent's wait add nothing. */
  lemma {:induction false} EventsAcceptedIff(es: seq<Event>, c: Clock, p: Process, u: Cleanup, bad: string -> bool)
    requires ProcessAccepted(p, u, c, true)
    ensures EventsAccepted(es, c, p, true, bad) <==>
      && (forall i :: 0 <= i < |es| ==> InsideGo(es, i, p) && Bounded(es, i, c))
      && Order(es) == FULL_RUN && !bad(Output(es))
  {
    hide ElapsedFits, Order, Output, Seconds;
    forall i | 0 <= i < |es|
      ensures EventFits(es, i, c, p, true) <==> InsideGo(es, i, p) && Bounded(es, i, c)
    {
      assert p.phases[GO_EXIT].value <= p.phases[PARENT_WAIT].value;
      assert c.origin <= p.phases[GO_STARTED].value && p.phases[GO_EXIT].value < c.deadline;
    }
  }

  predicate InsideGo(es: seq<Event>, i: nat, p: Process)
    requires i < |es| && forall k :: 0 <= k < PHASES ==> p.phases[k].Some?
  {
    var t := es[i].time;
    && p.phases[GO_STARTED].value <= t <= p.phases[GO_EXIT].value && t < p.phases[CLEANUP].value
    && (i > 0 ==> es[i - 1].time <= t)
  }

  predicate Bounded(es: seq<Event>, i: nat, c: Clock)
    requires i < |es|
  {
    var e := es[i];
    && e.named && e.action in ACTIONS && !e.failedBuild
    && (e.elapsed.Some? ==> 0.0 <= e.elapsed.value <= Seconds(c.deadline - c.origin))
    && (e.action == "pass" ==> e.elapsed.Some? && ElapsedFits(es, i))
  }

  /** Events outside the recorded kinds are not refused: a test `start` or a
      package `run` anywhere in an accepted stream leaves its order a full run. */
  lemma {:induction false} StrayKeepsOrder(es: seq<Event>, k: nat, stray: Event)
    requires k <= |es| && !Recorded(stray) && stray.action != "output"
    ensures Order(es[..k] + [stray] + es[k..]) == Order(es)
    ensures Output(es[..k] + [stray] + es[k..]) == Output(es)
    decreases |es| - k
  {
    var s := es[..k] + [stray] + es[k..];
    if k == |es| {
      assert es[..k] == es && es[k..] == [];
      assert s[..|s| - 1] == es;
    } else {
      var n := |es| - 1;
      assert es[..n][..k] == es[..k];
      assert s[..|s| - 1] == es[..n][..k] + [stray] + es[..n][k..];
      StrayKeepsOrder(es[..n], k, stray);
    }
  }
}
