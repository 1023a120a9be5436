/**
 The lookahead scheduler of the benchmark evidence: inputs enter a buffer of
 at most 100 ordinals, and each window takes up to 20 of them, one per mailbox
 first and the earliest others after that.
*/
module Scheduler {
  import opened Wrappers

  const LOOKAHEAD := 100
  const WINDOW := 20

  type MailboxOf = nat -> int

  // One window

  function Count(buffer: seq<nat>): nat { if |buffer| < WINDOW then |buffer| else WINDOW }

  predicate Fresh(buffer: seq<nat>, box: MailboxOf, i: nat)
    requires i < |buffer|
  {
    forall k :: 0 <= k < i ==> box(buffer[k]) != box(buffer[i])
  }

  /** The first `count` indices below `n` whose mailbox has not occurred before. */
  function FreshBelow(buffer: seq<nat>, box: MailboxOf, count: nat, n: nat): seq<nat>
    requires n <= |buffer|
  {
    if n == 0 then []
    else
      var r := FreshBelow(buffer, box, count, n - 1);
      if |r| < count && Fresh(buffer, box, n - 1) then r + [n - 1] else r
  }

  /** `selected` topped up to `count` with the earliest other indices below `n`. */
  function FillBelow(selected: seq<nat>, count: nat, n: nat): seq<nat> {
    if n == 0 then selected
    else
      var r := FillBelow(selected, count, n - 1);
      if |r| < count && n - 1 !in selected then r + [n - 1] else r
  }

  function Selected(buffer: seq<nat>, box: MailboxOf): seq<nat> {
    FillBelow(FreshBelow(buffer, box, Count(buffer), |buffer|), Count(buffer), |buffer|)
  }

  function Chosen(buffer: seq<nat>, box: MailboxOf): set<nat> {
    set i | i in Selected(buffer, box)
  }

  /** The buffer entries whose index is, or is not, in `chosen`, in order. */
  function Keep(buffer: seq<nat>, chosen: set<nat>, wanted: bool): (r: seq<nat>)
  {
    if buffer == [] then []
    else
      var n := |buffer| - 1;
      Keep(buffer[..n], chosen, wanted) + if (n in chosen) == wanted then [buffer[n]] else []
  }

  function Emit(buffer: seq<nat>, box: MailboxOf): seq<nat> { Keep(buffer, Chosen(buffer, box), true) }

  function Rest(buffer: seq<nat>, box: MailboxOf): seq<nat> { Keep(buffer, Chosen(buffer, box), false) }

  // Whole runs

  datatype State = State(buffer: seq<nat>, generated: nat, emitted: seq<nat>)

  const INITIAL := State([], 0, [])

  function Refill(s: State, messages: nat): (r: State)
    decreases messages - s.generated
  {
    if s.generated < messages && |s.buffer| < LOOKAHEAD then
      Refill(State(s.buffer + [s.generated], s.generated + 1, s.emitted), messages)
    else s
  }

  predicate Done(s: State, messages: nat) { s.generated >= messages && s.buffer == [] }

  /** Refill the buffer, then emit one window. */
  function Next(s: State, messages: nat, box: MailboxOf): State {
    var r := Refill(s, messages);
    State(Rest(r.buffer, box), r.generated, r.emitted + Emit(r.buffer, box))
  }

  /** The state after `n` windows; a finished run stays as it is. */
  function After(n: nat, messages: nat, box: MailboxOf): State {
    if n == 0 then INITIAL
    else
      var s := After(n - 1, messages, box);
      if Done(s, messages) then s else Next(s, messages, box)
  }

  // Window facts

  predicate Ascending(s: seq<nat>) { forall i, k :: 0 <= i < k < |s| ==> s[i] < s[k] }

  lemma {:induction false} FreshBelowFacts(buffer: seq<nat>, box: MailboxOf, count: nat, n: nat)
    requires n <= |buffer|
    ensures var r := FreshBelow(buffer, box, count, n);
      && Ascending(r) && |r| <= count
      && (forall i :: i in r ==> i < n && Fresh(buffer, box, i))
      && (|r| < count ==> forall i :: 0 <= i < n && Fresh(buffer, box, i) ==> i in r)
  {
    if n > 0 {
      FreshBelowFacts(buffer, box, count, n - 1);
      var r := FreshBelow(buffer, box, count, n - 1);
      assert forall i :: 0 <= i < |r| ==> r[i] in r;
    }
  }

  lemma {:induction false} FillBelowFacts(selected: seq<nat>, count: nat, n: nat)
    requires |selected| <= count && forall i, k :: 0 <= i < k < |selected| ==> selected[i] != selected[k]
    ensures var r := FillBelow(selected, count, n);
      && selected <= r && |r| <= count
      && (forall i, k :: 0 <= i < k < |r| ==> r[i] != r[k])
      && (forall i :: i in r && i !in selected ==> i < n && forall k :: 0 <= k < i ==> k in r)
      && (|r| < count ==> forall i :: 0 <= i < n ==> i in r)
  {
    if n > 0 { FillBelowFacts(selected, count, n - 1); }
  }

  lemma SetOfDistinct(r: seq<nat>, s: set<nat>)
    requires forall i, k :: 0 <= i < k < |r| ==> r[i] != r[k]
    requires forall i :: i in r <==> i in s
    ensures |s| == |r|
    decreases r
  {
    if r != [] {
      var n := |r| - 1;
      assert forall i :: i in r[..n] <==> i in s - {r[n]};
      SetOfDistinct(r[..n], s - {r[n]});
    }
  }

  lemma {:induction false} BelowSize(c: set<nat>, n: nat)
    requires forall i: nat :: i in c <==> i < n
    ensures |c| == n
  {
    if n == 0 {
      assert c == {};
    } else {
      assert c == (c - {n - 1}) + {n - 1};
      BelowSize(c - {n - 1}, n - 1);
    }
  }

  /** What is chosen: the head, exactly `Count` indices, nothing that overtakes
      an earlier input of its own mailbox, and unseen mailboxes first. */
  lemma ChosenFacts(buffer: seq<nat>, box: MailboxOf)
    ensures var c := Chosen(buffer, box);
      && |c| == Count(buffer)
      && (forall i :: i in c ==> i < |buffer|)
      && (buffer != [] ==> 0 in c)
      && (forall i, k :: i in c && 0 <= k < i && box(buffer[k]) == box(buffer[i]) ==> k in c)
      && ((forall i :: i in c ==> Fresh(buffer, box, i))
          || forall i :: 0 <= i < |buffer| && Fresh(buffer, box, i) ==> i in c)
  {
    var count, n := Count(buffer), |buffer|;
    var first := FreshBelow(buffer, box, count, n);
    FreshBelowFacts(buffer, box, count, n);
    FillBelowFacts(first, count, n);
    var r := Selected(buffer, box);
    var c := Chosen(buffer, box);
    SetOfDistinct(r, c);
    forall i | i in c ensures i < n { }
    if |r| < count {
      BelowSize(c, n);
    }
    if |first| == count {
      assert r == first;
    }
    if buffer != [] && 0 !in c {
      var i :| i in r;
      assert i in first;
      assert Fresh(buffer, box, 0);
      HeadFresh(buffer, box, count, n);
    }
  }

  lemma {:induction false} HeadFresh(buffer: seq<nat>, box: MailboxOf, count: nat, n: nat)
    requires 0 < n <= |buffer| && count > 0
    ensures 0 in FreshBelow(buffer, box, count, n)
  {
    if n > 1 { HeadFresh(buffer, box, count, n - 1); }
    else { assert FreshBelow(buffer, box, count, 0) == []; }
  }

  // Splitting the buffer

  /** Entry `p` of a kept list is some buffer entry at `p` or later; later
      still when the head of the buffer went the other way. */
  lemma {:induction false} KeepAt(buffer: seq<nat>, chosen: set<nat>, wanted: bool, p: nat) returns (i: nat)
    requires p < |Keep(buffer, chosen, wanted)|
    ensures i < |buffer| && buffer[i] == Keep(buffer, chosen, wanted)[p] && (i in chosen) == wanted
    ensures p <= i && ((0 in chosen) != wanted ==> p < i)
    ensures |Keep(buffer, chosen, wanted)| <= |buffer|
    ensures (0 in chosen) != wanted ==> |Keep(buffer, chosen, wanted)| < |buffer|
    decreases buffer
  {
    var n := |buffer| - 1;
    var r := Keep(buffer[..n], chosen, wanted);
    if p < |r| {
      i := KeepAt(buffer[..n], chosen, wanted, p);
    } else {
      i := n;
      if r != [] { var k := KeepAt(buffer[..n], chosen, wanted, |r| - 1); }
    }
  }

  lemma {:induction false} KeepHas(buffer: seq<nat>, chosen: set<nat>, wanted: bool, i: nat)
    requires i < |buffer| && (i in chosen) == wanted
    ensures buffer[i] in Keep(buffer, chosen, wanted)
    decreases buffer
  {
    var n := |buffer| - 1;
    if i < n { KeepHas(buffer[..n], chosen, wanted, i); }
  }

  lemma KeepIndex(buffer: seq<nat>, chosen: set<nat>, wanted: bool, i: nat) returns (p: nat)
    requires Ascending(buffer) && i < |buffer| && (i in chosen) == wanted
    ensures p < |Keep(buffer, chosen, wanted)| && Keep(buffer, chosen, wanted)[p] == buffer[i]
    ensures p <= i && ((0 in chosen) != wanted ==> p < i)
  {
    KeepHas(buffer, chosen, wanted, i);
    p :| 0 <= p < |Keep(buffer, chosen, wanted)| && Keep(buffer, chosen, wanted)[p] == buffer[i];
    var k := KeepAt(buffer, chosen, wanted, p);
  }

  lemma {:induction false} KeepAscending(buffer: seq<nat>, chosen: set<nat>, wanted: bool)
    requires Ascending(buffer)
    ensures Ascending(Keep(buffer, chosen, wanted))
    decreases buffer
  {
    if buffer != [] {
      var n := |buffer| - 1;
      var r := Keep(buffer[..n], chosen, wanted);
      KeepAscending(buffer[..n], chosen, wanted);
      forall p | 0 <= p < |r| ensures r[p] < buffer[n] {
        var i := KeepAt(buffer[..n], chosen, wanted, p);
      }
    }
  }

  lemma {:induction false} KeepSizes(buffer: seq<nat>, chosen: set<nat>)
    ensures |Keep(buffer, chosen, true)| + |Keep(buffer, chosen, false)| == |buffer|
    ensures (forall i :: i in chosen ==> i < |buffer|) ==> |Keep(buffer, chosen, true)| == |chosen|
    decreases buffer
  {
    if buffer == [] {
      if forall i :: i in chosen ==> i < |buffer| { assert chosen == {}; }
    } else {
      var n := |buffer| - 1;
      KeepSizes(buffer[..n], chosen);
      KeepSizes(buffer[..n], chosen - {n});
      KeepIgnores(buffer[..n], chosen, true, n);
    }
  }

  lemma {:induction false} KeepIgnores(buffer: seq<nat>, chosen: set<nat>, wanted: bool, n: nat)
    requires n >= |buffer|
    ensures Keep(buffer, chosen, wanted) == Keep(buffer, chosen - {n}, wanted)
    decreases buffer
  {
    if buffer != [] { KeepIgnores(buffer[..|buffer| - 1], chosen, wanted, n); }
  }

  // What every window keeps

  /** Everything generated is either emitted, once, or still buffered, once, and
      the buffer is in generation order. */
  predicate Counted(s: State, messages: nat) {
    && s.generated <= messages && |s.buffer| <= LOOKAHEAD
    && |s.emitted| + |s.buffer| == s.generated
    && Ascending(s.buffer)
    && (forall i :: 0 <= i < |s.buffer| ==> s.buffer[i] < s.generated)
    && (forall i, k :: 0 <= i < k < |s.emitted| ==> s.emitted[i] != s.emitted[k])
    && (forall i :: 0 <= i < |s.emitted| ==> s.emitted[i] < s.generated && s.emitted[i] !in s.buffer)
  }

  /** No mailbox is overtaken by its own later inputs. */
  predicate Fifo(s: State, box: MailboxOf) {
    && (forall i, k ::
          0 <= i < k < |s.emitted| && box(s.emitted[i]) == box(s.emitted[k]) ==> s.emitted[i] < s.emitted[k])
    && (forall i, k :: 0 <= i < |s.emitted| && 0 <= k < |s.buffer| && box(s.emitted[i]) == box(s.buffer[k]) ==>
          s.emitted[i] < s.buffer[k])
  }

  const LEAD := LOOKAHEAD - 1
  const LAG := 19 * (LOOKAHEAD - 1)

  /** Output positions stay near ordinals; 20 positions of slack per buffer slot. */
  predicate Lagged(s: State) {
    && (forall i :: 0 <= i < |s.emitted| ==> s.emitted[i] <= i + LEAD && i <= s.emitted[i] + LAG)
    && (forall i :: 0 <= i < |s.buffer| ==> |s.emitted| + WINDOW * i <= s.buffer[i] + LAG)
  }

  lemma {:induction false} RefillFacts(s: State, messages: nat)
    requires Counted(s, messages)
    ensures var r := Refill(s, messages);
      && Counted(r, messages) && r.emitted == s.emitted && s.buffer <= r.buffer
      && (|r.buffer| == LOOKAHEAD || r.generated == messages)
      && (forall i :: |s.buffer| <= i < |r.buffer| ==> r.buffer[i] == |s.emitted| + i)
    decreases messages - s.generated
  {
    if s.generated < messages && |s.buffer| < LOOKAHEAD {
      RefillFacts(State(s.buffer + [s.generated], s.generated + 1, s.emitted), messages);
    }
  }

  lemma RefillKeeps(s: State, messages: nat, box: MailboxOf)
    requires Counted(s, messages) && Fifo(s, box) && Lagged(s)
    ensures Fifo(Refill(s, messages), box) && Lagged(Refill(s, messages))
  {
    RefillFacts(s, messages);
  }

  /** The window and the remaining buffer share out the old buffer. */
  lemma WindowSplits(buffer: seq<nat>, box: MailboxOf)
    requires Ascending(buffer)
    ensures var e, rest := Emit(buffer, box), Rest(buffer, box);
      && Ascending(e) && Ascending(rest)
      && |e| == Count(buffer) && |e| + |rest| == |buffer|
      && (forall p :: 0 <= p < |e| ==> e[p] in buffer && e[p] !in rest)
      && (forall p :: 0 <= p < |rest| ==> rest[p] in buffer)
      && (buffer != [] ==> e[0] == buffer[0])
  {
    hide Selected, Count, Keep, Fresh;
    var c := Chosen(buffer, box);
    ChosenFacts(buffer, box);
    KeepSizes(buffer, c);
    KeepAscending(buffer, c, true);
    KeepAscending(buffer, c, false);
    var e, rest := Emit(buffer, box), Rest(buffer, box);
    forall p | 0 <= p < |e| ensures e[p] in buffer && e[p] !in rest {
      var i := KeepAt(buffer, c, true, p);
      if e[p] in rest {
        var q :| 0 <= q < |rest| && rest[q] == e[p];
        var k := KeepAt(buffer, c, false, q);
        assert false;
      }
    }
    forall p | 0 <= p < |rest| ensures rest[p] in buffer {
      var i := KeepAt(buffer, c, false, p);
    }
    if buffer != [] {
      KeepHas(buffer, c, true, 0);
      var p :| 0 <= p < |e| && e[p] == buffer[0];
      var i := KeepAt(buffer, c, true, 0);
    }
  }

  lemma WindowCounted(s: State, messages: nat, box: MailboxOf)
    requires Counted(s, messages)
    ensures var e := Emit(s.buffer, box);
            Counted(State(Rest(s.buffer, box), s.generated, s.emitted + e), messages)
            && |e| == Count(s.buffer) && Ascending(e)
            && (s.buffer != [] ==> e[0] == s.buffer[0])
  {
    hide Emit, Rest, Count;
    WindowSplits(s.buffer, box);
    var e, rest := Emit(s.buffer, box), Rest(s.buffer, box);
    forall p | 0 <= p < |e| ensures e[p] < s.generated && e[p] !in s.emitted {
    }
  }

  lemma WindowFifo(s: State, messages: nat, box: MailboxOf)
    requires Counted(s, messages) && Fifo(s, box)
    ensures Fifo(State(Rest(s.buffer, box), s.generated, s.emitted + Emit(s.buffer, box)), box)
  {
    hide Selected;
    var c := Chosen(s.buffer, box);
    ChosenFacts(s.buffer, box);
    WindowCounted(s, messages, box);
    var e, rest := Emit(s.buffer, box), Rest(s.buffer, box);
    forall p | 0 <= p < |e|
      ensures exists i :: 0 <= i < |s.buffer| && s.buffer[i] == e[p] && i in c
    {
      var i := KeepAt(s.buffer, c, true, p);
    }
    forall p | 0 <= p < |rest|
      ensures exists i :: 0 <= i < |s.buffer| && s.buffer[i] == rest[p] && i !in c
    {
      var i := KeepAt(s.buffer, c, false, p);
    }
  }

  lemma WindowLagged(s: State, messages: nat, box: MailboxOf)
    requires Counted(s, messages) && Lagged(s)
    ensures Lagged(State(Rest(s.buffer, box), s.generated, s.emitted + Emit(s.buffer, box)))
  {
    hide Selected, Chosen;
    var c := Chosen(s.buffer, box);
    ChosenFacts(s.buffer, box);
    WindowCounted(s, messages, box);
    var e, rest := Emit(s.buffer, box), Rest(s.buffer, box);
    var n := |s.emitted|;
    forall p | 0 <= p < |e| ensures e[p] <= n + p + LEAD && n + p <= e[p] + LAG {
      var i := KeepAt(s.buffer, c, true, p);
      AscendingGap(s.buffer, i, s.generated);
    }
    forall p | 0 <= p < |rest| ensures n + |e| + WINDOW * p <= rest[p] + LAG {
      var i := KeepAt(s.buffer, c, false, p);
    }
  }

  lemma {:induction false} AscendingGap(s: seq<nat>, i: nat, bound: nat)
    requires Ascending(s) && i < |s| && forall k :: 0 <= k < |s| ==> s[k] < bound
    ensures s[i] + (|s| - i) <= bound
    decreases |s| - i
  {
    if i + 1 < |s| { AscendingGap(s, i + 1, bound); }
  }

  // Whole-run results

  ghost predicate Good(s: State, messages: nat, box: MailboxOf) {
    Counted(s, messages) && Fifo(s, box) && Lagged(s)
  }

  /** Refilling and emitting one window keeps the invariant, and emits at least
      one ordinal, the smallest outstanding one first. */
  lemma NextGood(s: State, messages: nat, box: MailboxOf)
    requires Good(s, messages, box) && !Done(s, messages)
    ensures var r, t := Refill(s, messages), Next(s, messages, box);
      && Good(r, messages, box) && Good(t, messages, box)
      && r.buffer != [] && r.emitted == s.emitted
      && |t.emitted| == |s.emitted| + Count(r.buffer)
      && s.emitted <= t.emitted && t.emitted[|s.emitted|] == r.buffer[0]
  {
    RefillFacts(s, messages);
    RefillKeeps(s, messages, box);
    var r := Refill(s, messages);
    WindowCounted(r, messages, box);
    WindowFifo(r, messages, box);
    WindowLagged(r, messages, box);
  }

  lemma {:induction false} AfterGood(n: nat, messages: nat, box: MailboxOf)
    ensures Good(After(n, messages, box), messages, box)
    ensures Done(After(n, messages, box), messages) || |After(n, messages, box).emitted| >= n
  {
    hide Next, Refill, Emit, Rest;
    if n > 0 {
      AfterGood(n - 1, messages, box);
      var s := After(n - 1, messages, box);
      if !Done(s, messages) { NextGood(s, messages, box); }
    }
  }

  lemma {:induction false} AfterGrows(n: nat, m: nat, messages: nat, box: MailboxOf)
    requires n <= m
    ensures After(n, messages, box).emitted <= After(m, messages, box).emitted
    ensures Done(After(n, messages, box), messages) ==> After(m, messages, box) == After(n, messages, box)
    decreases m
  {
    hide Good, Next, Done, Refill;
    if n < m {
      AfterGrows(n, m - 1, messages, box);
      AfterGood(m - 1, messages, box);
      var s := After(m - 1, messages, box);
      if !Done(s, messages) { NextGood(s, messages, box); }
    }
  }

  /** The whole output: `messages` windows are always enough. */
  function Order(messages: nat, box: MailboxOf): seq<nat> { After(messages, messages, box).emitted }

  lemma {:induction false} Pigeonhole(s: seq<nat>, n: nat)
    requires |s| == n && forall i, k :: 0 <= i < k < n ==> s[i] != s[k]
    requires forall i :: 0 <= i < n ==> s[i] < n
    ensures forall k: nat :: k < n ==> k in s
  {
    var c := set x | x in s;
    SetOfDistinct(s, c);
    forall k: nat | k < n ensures k in s {
      if k !in s {
        SubsetBelow(c, n, k);
      }
    }
  }

  lemma {:induction false} SubsetBelow(c: set<nat>, n: nat, hole: nat)
    requires hole < n && hole !in c && forall i :: i in c ==> i < n
    ensures |c| < n
  {
    if n - 1 == hole {
      Bounded(c, n - 1);
    } else {
      SubsetBelow(c - {n - 1}, n - 1, hole);
    }
  }

  lemma {:induction false} Bounded(c: set<nat>, n: nat)
    requires forall i :: i in c ==> i < n
    ensures |c| <= n
  {
    if n == 0 {
      assert c == {};
    } else {
      Bounded(c - {n - 1}, n - 1);
    }
  }

  lemma Covered(s: State, messages: nat, k: nat)
    requires Counted(s, messages) && k < s.generated
    ensures k in s.emitted || k in s.buffer
  {
    Pigeonhole(s.emitted + s.buffer, s.generated);
    assert k in s.emitted + s.buffer;
  }

  /** Every ordinal is emitted exactly once. */
  lemma OrderIsPermutation(messages: nat, box: MailboxOf)
    ensures var o := Order(messages, box);
      && |o| == messages
      && (forall i, k :: 0 <= i < k < messages ==> o[i] != o[k])
      && (forall k: nat :: k < messages <==> k in o)
  {
    AfterGood(messages, messages, box);
    var s := After(messages, messages, box);
    assert s.buffer == [];
    Pigeonhole(s.emitted, messages);
  }

  /** Over the whole run each mailbox's inputs come out in order, and ordinal
      `k` comes out between positions `k - 99` and `k + 1881`. */
  lemma OrderIsFifoAndNear(messages: nat, box: MailboxOf, i: nat, k: nat)
    requires i < messages && k < messages
    ensures |Order(messages, box)| == messages
    ensures i < k && box(Order(messages, box)[i]) == box(Order(messages, box)[k]) ==>
              Order(messages, box)[i] < Order(messages, box)[k]
    ensures Order(messages, box)[i] - 99 <= i <= Order(messages, box)[i] + 1881
  {
    AfterGood(messages, messages, box);
    OrderIsPermutation(messages, box);
  }

  /** Each window starts with the smallest ordinal not yet emitted. */
  lemma WindowStartsWithSmallest(n: nat, messages: nat, box: MailboxOf, k: nat)
    requires var s := After(n, messages, box);
             !Done(s, messages) && |s.emitted| < |After(n + 1, messages, box).emitted|
             && k < After(n + 1, messages, box).emitted[|s.emitted|]
    ensures k in After(n, messages, box).emitted
  {
    var s := After(n, messages, box);
    AfterGood(n, messages, box);
    NextGood(s, messages, box);
    Covered(Refill(s, messages), messages, k);
  }

  /** A buffered input is emitted by the next window or moves up in the buffer. */
  lemma Slide(b: seq<nat>, box: MailboxOf, i: nat) returns (p: nat)
    requires Ascending(b) && i < |b|
    ensures b[i] in Emit(b, box) || (p < i && p < |Rest(b, box)| && Rest(b, box)[p] == b[i])
  {
    hide Selected, Chosen;
    var c := Chosen(b, box);
    ChosenFacts(b, box);
    p := KeepIndex(b, c, i in c, i);
  }

  lemma PrefixHas(a: seq<nat>, b: seq<nat>, x: nat)
    requires a <= b && x in a
    ensures x in b
  {
    var i :| 0 <= i < |a| && a[i] == x;
    assert b[i] == x;
  }

  /** The input in buffer slot `i` leaves within `i + 1` windows, so within 100. */
  lemma {:induction false} LeavesInTime(n: nat, messages: nat, box: MailboxOf, i: nat)
    requires !Done(After(n, messages, box), messages)
    requires i < |Refill(After(n, messages, box), messages).buffer|
    ensures i < 100
    ensures Refill(After(n, messages, box), messages).buffer[i] in After(n + i + 1, messages, box).emitted
    decreases i
  {
    hide Emit, Rest, Refill, Fifo, Lagged;
    var s := After(n, messages, box);
    AfterGood(n, messages, box);
    NextGood(s, messages, box);
    var b := Refill(s, messages).buffer;
    var t := Next(s, messages, box);
    assert t == After(n + 1, messages, box);
    AfterGrows(n + 1, n + i + 1, messages, box);
    var p := Slide(b, box, i);
    var last := After(n + i + 1, messages, box);
    if b[i] in Emit(b, box) {
      PrefixHas(t.emitted, last.emitted, b[i]);
    } else {
      RefillFacts(t, messages);
      LeavesInTime(n + 1, messages, box, p);
      AfterGrows(n + 1 + p + 1, n + i + 1, messages, box);
      PrefixHas(After(n + 1 + p + 1, messages, box).emitted, last.emitted, b[i]);
    }
  }

  // Diversity

  function Boxes(s: seq<nat>, box: MailboxOf): set<int> { set x | x in s :: box(x) }

  lemma {:induction false} BoxesBound(s: seq<nat>, box: MailboxOf)
    ensures |Boxes(s, box)| <= |s|
    ensures (forall i, k :: 0 <= i < k < |s| ==> box(s[i]) != box(s[k])) ==> |Boxes(s, box)| == |s|
    decreases s
  {
    if s != [] {
      var n := |s| - 1;
      BoxesBound(s[..n], box);
      assert s == s[..n] + [s[n]];
      assert Boxes(s, box) == Boxes(s[..n], box) + {box(s[n])};
      if box(s[n]) in Boxes(s[..n], box) {
        var x :| x in s[..n] && box(x) == box(s[n]);
      }
    }
  }

  lemma SmallerSet(a: set<int>, b: set<int>)
    requires a <= b
    ensures |a| <= |b|
  {
    assert b == a + (b - a);
  }

  lemma {:induction false} FirstOfBox(buffer: seq<nat>, box: MailboxOf, i: nat) returns (k: nat)
    requires i < |buffer|
    ensures k <= i && Fresh(buffer, box, k) && box(buffer[k]) == box(buffer[i])
    decreases i
  {
    k := i;
    if !Fresh(buffer, box, i) {
      var h :| 0 <= h < i && box(buffer[h]) == box(buffer[i]);
      k := FirstOfBox(buffer, box, h);
    }
  }

  /** A window of first occurrences only has a mailbox for each entry. */
  lemma FreshWindow(buffer: seq<nat>, box: MailboxOf, c: set<nat>)
    requires Ascending(buffer) && forall i :: i in c ==> i < |buffer| && Fresh(buffer, box, i)
    ensures |Boxes(Keep(buffer, c, true), box)| == |Keep(buffer, c, true)|
  {
    hide Keep, Boxes;
    var e := Keep(buffer, c, true);
    KeepAscending(buffer, c, true);
    forall p, q | 0 <= p < q < |e| ensures box(e[p]) != box(e[q]) {
      var i := KeepAt(buffer, c, true, p);
      var k := KeepAt(buffer, c, true, q);
      assert i < k;
    }
    BoxesBound(e, box);
  }

  /** A window with every first occurrence has every mailbox of the buffer. */
  lemma FullestWindow(buffer: seq<nat>, box: MailboxOf, c: set<nat>)
    requires forall i :: 0 <= i < |buffer| && Fresh(buffer, box, i) ==> i in c
    ensures forall x :: x in buffer ==> box(x) in Boxes(Keep(buffer, c, true), box)
  {
    hide Keep;
    var e := Keep(buffer, c, true);
    forall x | x in buffer ensures box(x) in Boxes(e, box) {
      var i :| 0 <= i < |buffer| && buffer[i] == x;
      var k := FirstOfBox(buffer, box, i);
      KeepHas(buffer, c, true, k);
    }
  }

  lemma WindowFromBuffer(buffer: seq<nat>, c: set<nat>, x: nat)
    requires x in Keep(buffer, c, true)
    ensures x in buffer
  {
    hide Keep;
    var e := Keep(buffer, c, true);
    var p :| 0 <= p < |e| && e[p] == x;
    var i := KeepAt(buffer, c, true, p);
  }

  /** A window holds as many mailboxes as its size and the buffer allow. */
  lemma WindowDiversity(buffer: seq<nat>, box: MailboxOf)
    requires Ascending(buffer)
    ensures var most := |Boxes(buffer, box)|;
            |Boxes(Emit(buffer, box), box)| == if most < Count(buffer) then most else Count(buffer)
  {
    hide Selected, Chosen, Keep, Fresh;
    var c, e := Chosen(buffer, box), Emit(buffer, box);
    ChosenFacts(buffer, box);
    KeepSizes(buffer, c);
    forall x | x in e ensures x in buffer { WindowFromBuffer(buffer, c, x); }
    SmallerSet(Boxes(e, box), Boxes(buffer, box));
    BoxesBound(e, box);
    if forall i :: i in c ==> Fresh(buffer, box, i) {
      FreshWindow(buffer, box, c);
    } else {
      FullestWindow(buffer, box, c);
      assert Boxes(e, box) == Boxes(buffer, box);
    }
  }

  /** No choice of equally many inputs from the buffer has more mailboxes. */
  lemma WindowIsMostDiverse(buffer: seq<nat>, box: MailboxOf, choice: seq<nat>)
    requires Ascending(buffer)
    requires |choice| == Count(buffer) && forall x :: x in choice ==> x in buffer
    ensures |Boxes(choice, box)| <= |Boxes(Emit(buffer, box), box)|
  {
    WindowDiversity(buffer, box);
    BoxesBound(choice, box);
    SmallerSet(Boxes(choice, box), Boxes(buffer, box));
  }

  /** A window is full whenever the outstanding inputs are a multiple of 20. */
  lemma FullWindow(s: State, messages: nat, box: MailboxOf)
    requires Good(s, messages, box) && |s.emitted| < messages && (messages - |s.emitted|) % WINDOW == 0
    ensures !Done(s, messages) && |Next(s, messages, box).emitted| == |s.emitted| + WINDOW
  {
    hide Emit, Rest, Refill, Fifo, Lagged, Next;
    NextGood(s, messages, box);
    RefillFacts(s, messages);
  }

  lemma {:induction false} FullWindows(n: nat, messages: nat, box: MailboxOf)
    requires messages % WINDOW == 0 && WINDOW * n <= messages
    ensures |After(n, messages, box).emitted| == WINDOW * n
    ensures WINDOW * n < messages ==> !Done(After(n, messages, box), messages)
  {
    hide Good, Next, Done;
    if n > 0 {
      FullWindows(n - 1, messages, box);
      AfterGood(n - 1, messages, box);
      FullWindow(After(n - 1, messages, box), messages, box);
    } else {
      assert |INITIAL.emitted| == 0;
    }
    if WINDOW * n < messages {
      AfterGood(n, messages, box);
      FullWindow(After(n, messages, box), messages, box);
    }
  }

  /** For a message count divisible by 20 the output's consecutive slices of 20
      are the windows. */
  lemma SlicesAreWindows(w: nat, messages: nat, box: MailboxOf)
    requires messages % WINDOW == 0 && WINDOW * (w + 1) <= messages
    ensures |Order(messages, box)| == messages
    ensures Ascending(Refill(After(w, messages, box), messages).buffer)
    ensures Order(messages, box)[WINDOW * w..WINDOW * (w + 1)]
            == Emit(Refill(After(w, messages, box), messages).buffer, box)
  {
    hide Emit, Rest, Refill, Good, Fifo, Lagged, Done;
    OrderIsPermutation(messages, box);
    FullWindows(w, messages, box);
    FullWindows(w + 1, messages, box);
    AfterGood(w, messages, box);
    AfterGrows(w + 1, messages, messages, box);
    var s, t := After(w, messages, box), After(w + 1, messages, box);
    WindowAscending(s, messages, box);
    assert t == Next(s, messages, box);
    SliceOf(s.emitted, Emit(Refill(s, messages).buffer, box), Order(messages, box));
  }

  lemma WindowAscending(s: State, messages: nat, box: MailboxOf)
    requires Good(s, messages, box) && !Done(s, messages)
    ensures Ascending(Refill(s, messages).buffer) && Refill(s, messages).emitted == s.emitted
  {
    hide Emit, Rest, Refill;
    NextGood(s, messages, box);
  }

  lemma SliceOf(a: seq<nat>, b: seq<nat>, whole: seq<nat>)
    requires a + b <= whole
    ensures whole[|a|..|a| + |b|] == b
  {
    assert whole[..|a + b|] == a + b;
  }

  // The generator

  /** Four of five batches of 20 go to the first tenant; each batch's last input
      goes to a shared mailbox.  `None` is the division by zero of a tenant without
      personal mailboxes. */
  function Mailbox(ordinal: nat, employees: nat): Option<nat> {
    var second := (ordinal / 20) % 5 == 4;
    var personal := if second then employees / 5 else employees * 4 / 5;
    var offset := if second then employees * 4 else 0;
    if personal == 0 then None
    else if ordinal % 20 == 19 then Some(offset + personal + (ordinal / 20) % (personal * 4))
    else Some(offset + (ordinal / 5) % (personal * 5))
  }

  predicate Defined(ordinal: nat, employees: nat) { Mailbox(ordinal, employees).Some? }

  /** The mailboxes as a total function; what it is where none is defined does not
      matter. */
  function FixtureBox(employees: nat): MailboxOf {
    (ordinal: nat) => if Defined(ordinal, employees) then Mailbox(ordinal, employees).value else 0
  }

  predicate SecondTenant(ordinal: nat) { (ordinal / 20) % 5 == 4 }

  lemma Remainder(x: nat, m: nat)
    requires m > 0
    ensures 0 <= x % m < m
  {
  }

  /** From 5 employees on every input has a mailbox; from 2 on, those of the first
      tenant have. */
  lemma DefinedWhen(ordinal: nat, employees: nat)
    ensures Defined(ordinal, employees) <==> employees >= 5 || (employees >= 2 && !SecondTenant(ordinal))
  {
  }

  /** Tenants have disjoint mailbox ranges, and every input numbered 19 modulo 20
      lands past its tenant's personal mailboxes. */
  lemma {:induction false} MailboxRanges(ordinal: nat, employees: nat)
    requires Defined(ordinal, employees)
    ensures var m := Mailbox(ordinal, employees).value;
      if SecondTenant(ordinal)
      then 4 * employees <= m < 5 * employees && (ordinal % 20 == 19 ==> m >= 4 * employees + employees / 5)
      else m < 4 * employees && (ordinal % 20 == 19 ==> m >= employees * 4 / 5)
  {
    var personal := if SecondTenant(ordinal) then employees / 5 else employees * 4 / 5;
    assert personal > 0 && personal * 5 <= if SecondTenant(ordinal) then employees else employees * 4;
    Remainder(ordinal / 20, personal * 4);
    Remainder(ordinal / 5, personal * 5);
  }

  function SecondTenantCount(messages: nat): nat {
    if messages == 0 then 0
    else SecondTenantCount(messages - 1) + if SecondTenant(messages - 1) then 1 else 0
  }

  lemma SecondTenantByHundreds(n: nat)
    ensures SecondTenant(n) <==> n % 100 >= 80
  {
    var q, r := n / 100, n % 100;
    assert n == 20 * (5 * q + r / 20) + r % 20;
    assert n / 20 == 5 * q + r / 20;
  }

  lemma {:induction false} SecondTenantCounted(messages: nat)
    ensures SecondTenantCount(messages) ==
            20 * (messages / 100) + if messages % 100 > 80 then messages % 100 - 80 else 0
  {
    hide SecondTenant;
    if messages > 0 {
      var n := messages - 1;
      SecondTenantCounted(n);
      SecondTenantByHundreds(n);
      if n % 100 == 99 {
        assert messages / 100 == n / 100 + 1 && messages % 100 == 0;
      } else {
        assert messages / 100 == n / 100 && messages % 100 == n % 100 + 1;
      }
    }
  }

  /** The tenant counts of `distribution` are the generator's. */
  lemma {:induction false} TenantDistribution(messages: nat)
    requires messages % 100 == 0
    ensures SecondTenantCount(messages) == messages / 5
    ensures messages - SecondTenantCount(messages) == messages * 80 / 100
  {
    SecondTenantCounted(messages);
  }

  // The loop itself

  lemma {:induction false} FreshSaturates(buffer: seq<nat>, box: MailboxOf, count: nat, i: nat, n: nat)
    requires i <= n <= |buffer| && |FreshBelow(buffer, box, count, i)| >= count
    ensures FreshBelow(buffer, box, count, n) == FreshBelow(buffer, box, count, i)
    decreases n
  {
    if i < n { FreshSaturates(buffer, box, count, i, n - 1); }
  }

  lemma {:induction false} FillSaturates(selected: seq<nat>, count: nat, i: nat, n: nat)
    requires i <= n && |FillBelow(selected, count, i)| >= count
    ensures FillBelow(selected, count, n) == FillBelow(selected, count, i)
    decreases n
  {
    if i < n { FillSaturates(selected, count, i, n - 1); }
  }

  /** The first loop stops at the window's size or at an input without mailbox. */
  method SelectFresh(buffer: seq<nat>, employees: nat, count: nat) returns (r: Option<seq<nat>>)
    requires buffer != [] && count > 0
    ensures match r
            case None => exists x :: x in buffer && !Defined(x, employees)
            case Some(selected) =>
              && selected == FreshBelow(buffer, FixtureBox(employees), count, |buffer|)
              && (forall i :: i in selected ==> i < |buffer| && Defined(buffer[i], employees))
              && (|selected| < count ==> forall x :: x in buffer ==> Defined(x, employees))
  {
    hide Mailbox;
    var box := FixtureBox(employees);
    var selected: seq<nat>, seen: set<int> := [], {};
    for i := 0 to |buffer|
      invariant selected == FreshBelow(buffer, box, count, i) && |selected| < count
      invariant seen == Boxes(buffer[..i], box)
      invariant forall k :: 0 <= k < i ==> Defined(buffer[k], employees)
      invariant forall k :: k in selected ==> k < i
    {
      var mailbox := Mailbox(buffer[i], employees);
      if mailbox == None {
        assert buffer[i] in buffer && !Defined(buffer[i], employees);
        return None;
      }
      var b := mailbox.value;
      assert b == box(buffer[i]);
      assert buffer[..i + 1] == buffer[..i] + [buffer[i]];
      SeenMeansNotFresh(buffer, box, i);
      if b !in seen {
        selected := selected + [i];
        seen := seen + {b};
        if |selected| == count {
          FreshSaturates(buffer, box, count, i + 1, |buffer|);
          return Some(selected);
        }
      }
    }
    return Some(selected);
  }

  lemma SeenMeansNotFresh(buffer: seq<nat>, box: MailboxOf, i: nat)
    requires i < |buffer|
    ensures box(buffer[i]) in Boxes(buffer[..i], box) <==> !Fresh(buffer, box, i)
  {
    if box(buffer[i]) in Boxes(buffer[..i], box) {
      var x :| x in buffer[..i] && box(x) == box(buffer[i]);
    }
    if !Fresh(buffer, box, i) {
      var k :| 0 <= k < i && box(buffer[k]) == box(buffer[i]);
      assert buffer[..i][k] == buffer[k];
    }
  }

  method SelectFill(first: seq<nat>, count: nat, n: nat) returns (selected: seq<nat>)
    requires |first| <= count
    ensures selected == FillBelow(first, count, n)
  {
    selected := first;
    assert FillBelow(first, count, 0) == first;
    if |selected| == count {
      FillSaturates(first, count, 0, n);
      return;
    }
    for i := 0 to n
      invariant selected == FillBelow(first, count, i) && |selected| <= count
      invariant forall x :: x in selected ==> x in first || x < i
      invariant forall x :: x in first ==> x in selected
    {
      if |selected| == count {
        FillSaturates(first, count, i, n);
        return;
      }
      if i !in selected {
        selected := selected + [i];
      }
    }
  }

  /** The chosen entries in ascending index order, as sorting the indices gives
      them, and the entries left over. */
  method TakeWindow(buffer: seq<nat>, chosen: set<nat>) returns (window: seq<nat>, rest: seq<nat>)
    ensures window == Keep(buffer, chosen, true) && rest == Keep(buffer, chosen, false)
  {
    window, rest := [], [];
    for i := 0 to |buffer|
      invariant window == Keep(buffer[..i], chosen, true) && rest == Keep(buffer[..i], chosen, false)
    {
      assert buffer[..i + 1][..i] == buffer[..i];
      if i in chosen {
        window := window + [buffer[i]];
      } else {
        rest := rest + [buffer[i]];
      }
    }
    assert buffer[..|buffer|] == buffer;
  }

  method OneWindow(buffer: seq<nat>, employees: nat) returns (r: Option<(seq<nat>, seq<nat>)>)
    requires buffer != []
    ensures match r
            case None => exists x :: x in buffer && !Defined(x, employees)
            case Some((window, rest)) =>
              && window == Emit(buffer, FixtureBox(employees)) && rest == Rest(buffer, FixtureBox(employees))
              && forall x :: x in window ==> Defined(x, employees)
  {
    hide Defined, FixtureBox, FreshBelow, FillBelow, Fresh, Keep;
    ghost var box := FixtureBox(employees);
    var count := if |buffer| < WINDOW then |buffer| else WINDOW;
    var first := SelectFresh(buffer, employees, count);
    if first == None {
      return None;
    }
    FreshBelowFacts(buffer, box, count, |buffer|);
    var selected := SelectFill(first.value, count, |buffer|);
    if |first.value| == count { FillFull(first.value, count, |buffer|); }
    var chosen := set i | i in selected;
    var window, rest := TakeWindow(buffer, chosen);
    forall x | x in window ensures Defined(x, employees) {
      var p :| 0 <= p < |window| && window[p] == x;
      var i := KeepAt(buffer, chosen, true, p);
    }
    return Some((window, rest));
  }

  lemma FillFull(first: seq<nat>, count: nat, n: nat)
    requires |first| == count
    ensures FillBelow(first, count, n) == first
  {
    assert FillBelow(first, count, 0) == first;
    FillSaturates(first, count, 0, n);
  }

  /** Whether the source divides by zero in no call for these messages. */
  predicate AllDefined(messages: nat, employees: nat) { forall k: nat :: k < messages ==> Defined(k, employees) }

  lemma AllDefinedWhen(messages: nat, employees: nat)
    ensures AllDefined(messages, employees) <==> messages == 0 || employees >= 5 || (employees >= 2 && messages <= 80)
  {
    hide Defined;
    forall k: nat ensures Defined(k, employees) <==> employees >= 5 || (employees >= 2 && !SecondTenant(k)) {
      DefinedWhen(k, employees);
    }
    assert SecondTenant(80) && !SecondTenant(0);
    assert messages > 80 ==> (AllDefined(messages, employees) ==> Defined(80, employees));
    assert messages > 0 ==> (AllDefined(messages, employees) ==> Defined(0, employees));
    forall k: nat | k < 80 ensures !SecondTenant(k) { SecondTenantByHundreds(k); }
  }

  /** `expected_scheduler_order`; `None` is its division by zero. */
  method ExpectedSchedulerOrder(messages: nat, employees: nat) returns (r: Option<seq<nat>>)
    ensures r == if AllDefined(messages, employees) then Some(Order(messages, FixtureBox(employees))) else None
  {
    hide Emit, Rest, Good, FixtureBox, Defined;
    ghost var box := FixtureBox(employees);
    var buffer: seq<nat>, generated := [], 0;
    var emitted: seq<nat> := [];
    ghost var n := 0;
    while generated < messages || buffer != []
      invariant State(buffer, generated, emitted) == After(n, messages, box)
      invariant forall x :: x in emitted ==> Defined(x, employees)
      decreases messages - |emitted|
    {
      ghost var s := After(n, messages, box);
      AfterGood(n, messages, box);
      while generated < messages && |buffer| < LOOKAHEAD
        invariant Refill(State(buffer, generated, emitted), messages) == Refill(s, messages)
      {
        buffer := buffer + [generated];
        generated := generated + 1;
      }
      NextGood(s, messages, box);
      BufferedAreMessages(State(buffer, generated, emitted), messages, box);
      EmittedBound(Next(s, messages, box), messages, box);
      var step := OneWindow(buffer, employees);
      if step == None {
        return None;
      }
      emitted := emitted + step.value.0;
      buffer := step.value.1;
      n := n + 1;
    }
    AnyEndIsTheEnd(n, messages, box);
    OrderIsPermutation(messages, box);
    return Some(emitted);
  }

  lemma BufferedAreMessages(s: State, messages: nat, box: MailboxOf)
    requires Good(s, messages, box)
    ensures forall x :: x in s.buffer ==> x < messages
  {
  }

  lemma AnyEndIsTheEnd(n: nat, messages: nat, box: MailboxOf)
    requires Done(After(n, messages, box), messages)
    ensures After(n, messages, box).emitted == Order(messages, box)
  {
    hide Emit, Rest, Refill;
    AfterGood(messages, messages, box);
    assert Done(After(messages, messages, box), messages);
    if n < messages {
      AfterGrows(n, messages, messages, box);
    } else {
      AfterGrows(messages, n, messages, box);
    }
  }

  lemma EmittedBound(s: State, messages: nat, box: MailboxOf)
    requires Good(s, messages, box)
    ensures |s.emitted| <= messages
  {
  }
}
