/**
 What the scheduler's numbers mean: how full the buffer is, exactly which entries a
 window takes, and how the order of a real run begins.
*/
module SchedulerLaws {
  import opened Wrappers
  import opened Scheduler

  /** Before every window the buffer holds 100 ordinals, or all that are left. */
  lemma BufferIsFull(n: nat, messages: nat, box: MailboxOf)
    ensures var s := After(n, messages, box);
      && |s.emitted| <= messages
      && |Refill(s, messages).buffer| == if messages - |s.emitted| < 100 then messages - |s.emitted| else 100
  {
    hide Fifo, Lagged, After, Refill;
    AfterGood(n, messages, box);
    RefillFacts(After(n, messages, box), messages);
  }

  // Exactly which entries a window takes

  /** How many of the first `n` entries bring a new mailbox. */
  function FreshCount(buffer: seq<nat>, box: MailboxOf, n: nat): (r: nat)
    requires n <= |buffer|
    ensures r <= n
  {
    if n == 0 then 0 else FreshCount(buffer, box, n - 1) + if Fresh(buffer, box, n - 1) then 1 else 0
  }

  lemma {:induction false} FreshBelowExact(buffer: seq<nat>, box: MailboxOf, count: nat, n: nat)
    requires n <= |buffer|
    ensures var r, f := FreshBelow(buffer, box, count, n), FreshCount(buffer, box, n);
      && |r| == (if f < count then f else count)
      && forall i :: i in r <==> 0 <= i < n && Fresh(buffer, box, i) && FreshCount(buffer, box, i) < count
    decreases n
  {
    hide Fresh;
    if n > 0 {
      FreshBelowExact(buffer, box, count, n - 1);
      FreshGrows(buffer, box, n - 1);
    }
  }

  lemma {:induction false} FreshGrows(buffer: seq<nat>, box: MailboxOf, n: nat)
    requires n <= |buffer|
    ensures forall i: nat :: i <= n ==> FreshCount(buffer, box, i) <= FreshCount(buffer, box, n)
    decreases n
  {
    if n > 0 { FreshGrows(buffer, box, n - 1); }
  }

  /** How many of the indices below `n` are not selected. */
  function OtherCount(selected: seq<nat>, n: nat): (r: nat)
    ensures r <= n
  {
    if n == 0 then 0 else OtherCount(selected, n - 1) + if n - 1 in selected then 0 else 1
  }

  lemma {:induction false} FillBelowSize(selected: seq<nat>, count: nat, n: nat)
    requires |selected| <= count
    ensures |FillBelow(selected, count, n)| ==
            (if |selected| + OtherCount(selected, n) < count then |selected| + OtherCount(selected, n) else count)
    decreases n
  {
    if n > 0 { FillBelowSize(selected, count, n - 1); }
  }

  lemma {:induction false} FillBelowExact(selected: seq<nat>, count: nat, n: nat, i: nat)
    requires |selected| <= count
    ensures i in FillBelow(selected, count, n) <==>
            i in selected || (i < n && |selected| + OtherCount(selected, i) < count)
    decreases n
  {
    if n > 0 {
      hide OtherCount;
      var m := n - 1;
      FillBelowExact(selected, count, m, i);
      FillBelowSize(selected, count, m);
      var r := FillBelow(selected, count, m);
      assert FillBelow(selected, count, n) == r || FillBelow(selected, count, n) == r + [m];
    }
  }

  lemma {:induction false} OthersGrow(selected: seq<nat>, n: nat)
    ensures forall i: nat :: i <= n ==> OtherCount(selected, i) <= OtherCount(selected, n)
    decreases n
  {
    if n > 0 { OthersGrow(selected, n - 1); }
  }

  lemma {:induction false} OthersAreStale(buffer: seq<nat>, box: MailboxOf, selected: seq<nat>, n: nat)
    requires n <= |buffer| && forall i :: i in selected <==> 0 <= i < |buffer| && Fresh(buffer, box, i)
    ensures OtherCount(selected, n) == n - FreshCount(buffer, box, n)
    decreases n
  {
    hide Fresh;
    if n > 0 { OthersAreStale(buffer, box, selected, n - 1); }
  }

  lemma MoreFresh(buffer: seq<nat>, box: MailboxOf, i: nat)
    requires i < |buffer| && FreshCount(buffer, box, |buffer|) >= Count(buffer)
    ensures i in Chosen(buffer, box) <==> Fresh(buffer, box, i) && FreshCount(buffer, box, i) < Count(buffer)
  {
    hide Fresh;
    var n, count := |buffer|, Count(buffer);
    var first := FreshBelow(buffer, box, count, n);
    FreshBelowExact(buffer, box, count, n);
    FillBelowExact(first, count, n, i);
  }

  lemma FewerFresh(buffer: seq<nat>, box: MailboxOf, i: nat)
    requires i < |buffer| && FreshCount(buffer, box, |buffer|) < Count(buffer)
    ensures i in Chosen(buffer, box) <==>
            || Fresh(buffer, box, i)
            || FreshCount(buffer, box, |buffer|) + (i - FreshCount(buffer, box, i)) < Count(buffer)
  {
    hide Fresh;
    var n, count := |buffer|, Count(buffer);
    var first := FreshBelow(buffer, box, count, n);
    FreshBelowExact(buffer, box, count, n);
    FreshGrows(buffer, box, n);
    FillBelowExact(first, count, n, i);
    OthersAreStale(buffer, box, first, i);
  }

  /** A window takes the first 20 entries with a new mailbox, and, if there are
      fewer, the first others that make 20. */
  lemma WindowTakes(buffer: seq<nat>, box: MailboxOf, i: nat)
    requires i < |buffer|
    ensures i in Chosen(buffer, box) <==>
      if Fresh(buffer, box, i) then FreshCount(buffer, box, i) < 20
      else FreshCount(buffer, box, |buffer|) + (i - FreshCount(buffer, box, i)) < 20
  {
    hide Fresh, Chosen;
    var n := |buffer|;
    FreshGrows(buffer, box, n);
    FreshLag(buffer, box, i + 1, n);
    if FreshCount(buffer, box, n) >= Count(buffer) {
      MoreFresh(buffer, box, i);
    } else {
      FewerFresh(buffer, box, i);
    }
  }

  lemma {:induction false} FreshLag(buffer: seq<nat>, box: MailboxOf, i: nat, n: nat)
    requires i <= n <= |buffer|
    ensures FreshCount(buffer, box, n) - FreshCount(buffer, box, i) <= n - i
    decreases n
  {
    if i < n { FreshLag(buffer, box, i, n - 1); }
  }

  // The first window of a run

  function FirstOrdinals(): seq<nat> { seq(100, i => i) }

  lemma FirstBuffer(messages: nat)
    requires messages >= 100
    ensures Refill(INITIAL, messages).buffer == FirstOrdinals()
  {
    RefillFacts(INITIAL, messages);
  }

  lemma FirstWindow(messages: nat, box: MailboxOf)
    requires messages >= 100
    ensures |Order(messages, box)| >= 20 && Order(messages, box)[..20] == Emit(FirstOrdinals(), box)
  {
    hide Fifo, Lagged, Refill, Emit, Rest;
    FirstBuffer(messages);
    assert After(0, messages, box) == INITIAL;
    AfterGood(0, messages, box);
    NextGood(INITIAL, messages, box);
    assert After(1, messages, box) == Next(INITIAL, messages, box);
    AfterGrows(1, messages, messages, box);
    assert [] + Emit(FirstOrdinals(), box) == Emit(FirstOrdinals(), box);
  }

  function Mailboxes(buffer: seq<nat>, box: MailboxOf): set<int> { set k | k in buffer :: box(k) }

  lemma OneMoreMailbox(before: seq<nat>, box: MailboxOf, x: nat)
    ensures Mailboxes(before + [x], box) == Mailboxes(before, box) + {box(x)}
  {
    assert forall k :: k in before + [x] <==> k in before || k == x;
  }

  lemma FreshIsNew(buffer: seq<nat>, box: MailboxOf, n: nat)
    requires n < |buffer|
    ensures Fresh(buffer, box, n) <==> box(buffer[n]) !in Mailboxes(buffer[..n], box)
  {
    assert forall i :: 0 <= i < n ==> buffer[..n][i] == buffer[i] && buffer[i] in buffer[..n];
  }

  lemma {:induction false} FreshMailboxes(buffer: seq<nat>, box: MailboxOf, n: nat)
    requires n <= |buffer|
    ensures FreshCount(buffer, box, n) == |Mailboxes(buffer[..n], box)|
    decreases n
  {
    hide Fresh, Mailboxes;
    if n > 0 {
      FreshMailboxes(buffer, box, n - 1);
      FreshIsNew(buffer, box, n - 1);
      OneMoreMailbox(buffer[..n - 1], box, buffer[n - 1]);
      assert buffer[..n] == buffer[..n - 1] + [buffer[n - 1]];
      var seen, x := Mailboxes(buffer[..n - 1], box), box(buffer[n - 1]);
      assert Mailboxes(buffer[..n], box) == seen + {x};
      assert x in seen ==> seen + {x} == seen;
      assert FreshCount(buffer, box, n) == FreshCount(buffer, box, n - 1) + if Fresh(buffer, box, n - 1) then 1 else 0;
    } else {
      NoMailboxes(buffer[..0], box);
    }
  }

  lemma NoMailboxes(buffer: seq<nat>, box: MailboxOf)
    requires buffer == []
    ensures Mailboxes(buffer, box) == {}
  {
  }

  /** In a run of at least 100 messages an ordinal below 100 that is the first of its
      mailbox is among the first 20 emitted if fewer than 20 mailboxes come before. */
  lemma FirstOfItsMailbox(messages: nat, box: MailboxOf, k: nat)
    requires messages >= 100 && k < 100
    requires forall i: nat :: i < k ==> box(i) != box(k)
    requires |set i: nat | i < k :: box(i)| < 20
    ensures |Order(messages, box)| >= 20 && k in Order(messages, box)[..20]
  {
    hide Chosen, Order;
    var buffer := FirstOrdinals();
    FirstWindow(messages, box);
    FreshMailboxes(buffer, box, k);
    var below := set i: nat | i < k :: box(i);
    var prefix := buffer[..k];
    assert forall i: nat :: i < k ==> prefix[i] == i && prefix[i] in prefix;
    assert forall i :: i in prefix ==> i < k;
    forall x ensures x in Mailboxes(prefix, box) <==> x in below {
      if x in below {
        var i: nat :| i < k && box(i) == x;
        assert prefix[i] == i;
      }
    }
    assert Mailboxes(buffer[..k], box) == below;
    WindowTakes(buffer, box, k);
    KeepHas(buffer, Chosen(buffer, box), true, k);
  }

  // The mailboxes of the smallest scale

  /** Blocks of five consecutive inputs share a mailbox, except for the last input of
      every 20. */
  lemma BlocksShareMailbox(block: nat, d: nat, employees: nat)
    requires d < 5 && (5 * block + d) % 20 != 19
    ensures Mailbox(5 * block + d, employees) == Mailbox(5 * block, employees)
  {
    assert (5 * block + d) / 5 == block == (5 * block) / 5;
    assert (5 * block + d) / 20 == (5 * block) / 20;
  }

  /** The first 80 mailboxes of 20 employees: 16 blocks of inputs in turn, and four
      shared ones. */
  lemma FirstMailboxes(k: nat)
    requires k < 80
    ensures Mailbox(k, 20) == Some(if k % 20 == 19 then 16 + k / 20 else k / 5)
  {
  }

  lemma LaterMailboxes(k: nat)
    requires 80 <= k < 100
    ensures Mailbox(k, 20) == Some(if k == 99 then 88 else 80 + k / 5)
  {
  }

  /** The ordinals below 80 that bring a new mailbox: block starts and last inputs. */
  lemma FirstFresh(k: nat)
    requires k < 80
    ensures Fresh(FirstOrdinals(), FixtureBox(20), k) <==> k % 5 == 0 || k % 20 == 19
  {
    var buffer, box := FirstOrdinals(), FixtureBox(20);
    forall i: nat | i < 80 ensures box(buffer[i]) == if i % 20 == 19 then 16 + i / 20 else i / 5 { FirstMailboxes(i); }
    if k % 5 != 0 && k % 20 != 19 {
      assert box(buffer[5 * (k / 5)]) == box(buffer[k]) && 5 * (k / 5) < k;
    }
  }

  /** How many those are. */
  lemma {:induction false} FreshSoFar(k: nat)
    requires k <= 80
    ensures |FirstOrdinals()| == 100 && FreshCount(FirstOrdinals(), FixtureBox(20), k) == (k + 4) / 5 + k / 20
    decreases k
  {
    hide Fresh, FixtureBox, FirstOrdinals;
    if k > 0 {
      FreshSoFar(k - 1);
      FirstFresh(k - 1);
      CountStep(k - 1);
    }
  }

  lemma CountStep(k: nat)
    ensures (k + 5) / 5 + (k + 1) / 20 == (k + 4) / 5 + k / 20 + if k % 5 == 0 || k % 20 == 19 then 1 else 0
  {
    var q, r := k / 20, k % 20;
    assert k == 20 * q + r;
    assert (k + 4) / 5 == 4 * q + (r + 4) / 5 && (k + 5) / 5 == 4 * q + (r + 5) / 5;
    assert (k + 1) / 20 == q + (r + 1) / 20 && k % 5 == r % 5;
  }

  /** What the first window of 20 employees takes below 80. */
  lemma FirstTaken(k: nat)
    requires k < 80
    ensures k in Chosen(FirstOrdinals(), FixtureBox(20)) <==> k % 5 == 0 || k % 20 == 19
  {
    hide Fresh, Chosen;
    var buffer, box := FirstOrdinals(), FixtureBox(20);
    FreshSoFar(k);
    FreshSoFar(79);
    FreshSoFar(80);
    FirstFresh(k);
    FreshGrows(buffer, box, 100);
    FreshGrows(buffer, box, 80);
    WindowTakes(buffer, box, k);
  }

  lemma {:induction false} KeepSkips(buffer: seq<nat>, chosen: set<nat>, a: nat, b: nat)
    requires a <= b <= |buffer| && forall i :: a <= i < b ==> i !in chosen
    ensures Keep(buffer[..b], chosen, true) == Keep(buffer[..a], chosen, true)
    decreases b
  {
    if a < b {
      KeepSkips(buffer, chosen, a, b - 1);
      assert buffer[..b][..b - 1] == buffer[..b - 1];
    }
  }

  lemma KeepTakes(buffer: seq<nat>, chosen: set<nat>, a: nat)
    requires a < |buffer| && a in chosen
    ensures Keep(buffer[..a + 1], chosen, true) == Keep(buffer[..a], chosen, true) + [buffer[a]]
  {
    assert buffer[..a + 1][..a] == buffer[..a];
  }

  lemma {:induction false} KeepPrefix(buffer: seq<nat>, chosen: set<nat>, a: nat, b: nat)
    requires a <= b <= |buffer|
    ensures Keep(buffer[..a], chosen, true) <= Keep(buffer[..b], chosen, true)
    decreases b
  {
    if a < b {
      KeepPrefix(buffer, chosen, a, b - 1);
      assert buffer[..b][..b - 1] == buffer[..b - 1];
    }
  }

  /** The order of the smallest scale, 1000 messages for 20 employees, starts with the
      first input of each block and the shared one. */
  lemma OrderStarts(messages: nat)
    requires messages >= 100
    ensures |Order(messages, FixtureBox(20))| >= 20
    ensures Order(messages, FixtureBox(20))[..5] == [0, 5, 10, 15, 19]
  {
    hide Chosen, Order, Keep;
    var buffer, box := FirstOrdinals(), FixtureBox(20);
    var chosen := Chosen(buffer, box);
    FirstWindow(messages, box);
    forall k: nat | k < 80 ensures k in chosen <==> k % 5 == 0 || k % 20 == 19 { FirstTaken(k); }
    assert Keep(buffer[..0], chosen, true) == [] by { NothingKept(buffer, chosen); }
    KeepTakes(buffer, chosen, 0);
    KeepSkips(buffer, chosen, 1, 5);
    KeepTakes(buffer, chosen, 5);
    KeepSkips(buffer, chosen, 6, 10);
    KeepTakes(buffer, chosen, 10);
    KeepSkips(buffer, chosen, 11, 15);
    KeepTakes(buffer, chosen, 15);
    KeepSkips(buffer, chosen, 16, 19);
    KeepTakes(buffer, chosen, 19);
    KeepPrefix(buffer, chosen, 20, 100);
    assert buffer[..100] == buffer;
  }

  lemma NothingKept(buffer: seq<nat>, chosen: set<nat>)
    ensures Keep(buffer[..0], chosen, true) == []
  {
  }
}
