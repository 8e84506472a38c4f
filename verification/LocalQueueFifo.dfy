/**
  What the local queue delivers. `head_` counts finished reads without saying which
  ones finished, so a slot can be reused while an earlier read of it is still going
  on. Delivery in order therefore needs reads to finish in ticket order.
  */
module LocalQueueFifo {
  import opened Arithmetic
  import opened LocalQueue
  import opened Sequences

  /** A read may finish only when all earlier tickets have finished. */
  ghost predicate InTicketOrder<T>(s: State<T>, step: Step<T>)
    requires Enabled(s, step)
  {
    step.PopFinish? ==> s.pops[step.n].ticket == s.head
  }

  ghost predicate TicketOk<T>(s: State<T>, n: nat)
    requires n < |s.pops|
  {
    var c := s.pops[n];
    && (HasTicket(c) ==> (c.Done? <==> c.ticket < s.head))
    && (c.Holding? || c.Done? ==> c.ticket < |s.written| && c.value == s.written[c.ticket])
  }

  ghost predicate FifoInv<T>(s: State<T>) {
    && Inv(s)
    && (forall n {:trigger TicketOk(s, n)} :: 0 <= n < |s.pops| ==> TicketOk(s, n))
    && s.head <= |s.written| && s.delivered == s.written[..s.head]
  }

  lemma OtherTicketsKept<T>(s: State<T>, t: State<T>, n: nat)
    requires FifoInv(s) && n <= |s.pops| <= |t.pops| && t.head == s.head && s.written <= t.written
    requires forall k :: 0 <= k < |s.pops| && k != n ==> t.pops[k] == s.pops[k]
    ensures forall k :: 0 <= k < |s.pops| && k != n ==> TicketOk(t, k)
  {
    forall k | 0 <= k < |s.pops| && k != n ensures TicketOk(t, k) {
      assert TicketOk(s, k);
      if s.pops[k].Holding? || s.pops[k].Done? { assert t.written[s.pops[k].ticket] == s.written[s.pops[k].ticket]; }
    }
  }

  lemma ReadInOrder<T>(s: State<T>, n: nat)
    requires FifoInv(s) && Enabled(s, PopRead(n))
    ensures FifoInv(Apply(0, s, PopRead(n)))
  {
    var t := Apply(0, s, PopRead(n));
    StepKeeps(s, PopRead(n));
    AdmissionIsSafe(s);
    ReadReturnsNewest(s, n);
    assert TicketOk(s, n);
    OtherTicketsKept(s, t, n);
    assert TicketOk(t, n);
  }

  lemma FinishInOrder<T>(s: State<T>, n: nat)
    requires FifoInv(s) && Enabled(s, PopFinish(n)) && InTicketOrder(s, PopFinish(n))
    ensures FifoInv(Apply(0, s, PopFinish(n)))
  {
    var t := Apply(0, s, PopFinish(n));
    StepKeeps(s, PopFinish(n));
    assert TicketOk(s, n);
    forall k | 0 <= k < |t.pops| ensures TicketOk(t, k) {
      assert TicketOk(s, k);
      if k < n { assert HasTicket(s.pops[k]) && HasTicket(s.pops[n]) ==> s.pops[k].ticket != s.pops[n].ticket; }
      if n < k { assert HasTicket(s.pops[k]) && HasTicket(s.pops[n]) ==> s.pops[k].ticket != s.pops[n].ticket; }
    }
  }

  lemma CallStepKeepsOrder<T>(s: State<T>, step: Step<T>)
    requires FifoInv(s) && Enabled(s, step) && (step.PopCheck? || step.PopRevoke? || step.PopTicket?)
    ensures FifoInv(Apply(0, s, step))
  {
    var t := Apply(0, s, step);
    StepKeeps(s, step);
    AdmissionIsSafe(s);
    assert TicketOk(s, step.n);
    OtherTicketsKept(s, t, step.n);
    assert TicketOk(t, step.n);
  }

  lemma OtherStepKeepsOrder<T>(s: State<T>, step: Step<T>)
    requires FifoInv(s) && Enabled(s, step)
    requires !(step.PopCheck? || step.PopRevoke? || step.PopTicket? || step.PopRead? || step.PopFinish?)
    ensures FifoInv(Apply(0, s, step))
  {
    var t := Apply(0, s, step);
    StepKeeps(s, step);
    OtherTicketsKept(s, t, |s.pops|);
    if step.PopCount? { assert TicketOk(t, |s.pops|); }
    assert t.written[..t.head] == s.written[..s.head];
  }

  lemma OrderedStepKeeps<T>(s: State<T>, step: Step<T>)
    requires FifoInv(s) && Enabled(s, step) && InTicketOrder(s, step)
    ensures FifoInv(Apply(0, s, step))
  {
    if step.PopRead? { ReadInOrder(s, step.n); }
    else if step.PopFinish? { FinishInOrder(s, step.n); }
    else if step.PopCheck? || step.PopRevoke? || step.PopTicket? { CallStepKeepsOrder(s, step); }
    else { OtherStepKeepsOrder(s, step); }
  }

  /** If reads finish in ticket order, every interleaving delivers exactly a prefix of what was published. */
  lemma {:induction false} DeliveryIsFifo<T>(trace: seq<State<T>>, steps: seq<Step<T>>, i: nat)
    requires IsRun(trace, steps) && i < |trace|
    requires forall j :: 0 <= j < |steps| ==> InTicketOrder(trace[j], steps[j])
    ensures FifoInv(trace[i])
    ensures var s := trace[i]; s.head <= s.tail <= |s.written| && s.delivered == s.written[..s.tail][..s.head]
  {
    if i > 0 {
      DeliveryIsFifo(trace, steps, i - 1);
      assert InTicketOrder(trace[i - 1], steps[i - 1]);
      OrderedStepKeeps(trace[i - 1], steps[i - 1]);
    }
    AdmissionIsSafe(trace[i]);
  }

  /** Then a store never hits the slot of an item that is published or being read and not yet delivered. */
  lemma NothingUnreadIsOverwritten<T>(s: State<T>, k: nat)
    requires FifoInv(s) && Enabled(s, PushWrite) && s.head <= k < s.tail
    ensures s.push.index % |s.data| != k % |s.data|
    ensures k < |Apply(0, s, PushWrite).written| && Apply(0, s, PushWrite).data[k % |s.data|] == s.written[k]
  {
    ModDiffers(k, s.push.index, |s.data|);
  }

  lemma {:induction false} TicketsMinusDone<T>(pops: seq<Pop<T>>)
    requires forall k :: 0 <= k < |pops| ==> !pops[k].Reading? && !pops[k].Holding?
    ensures Count(pops, HasTicket) == Count(pops, IsDone)
  {
    if pops != [] { TicketsMinusDone(pops[..|pops| - 1]); }
  }

  /** With one read at a time the order is kept without further care. */
  lemma OneReaderIsInOrder<T>(s: State<T>, n: nat)
    requires FifoInv(s) && Enabled(s, PopFinish(n))
    requires forall k :: 0 <= k < |s.pops| && k != n ==> !s.pops[k].Reading? && !s.pops[k].Holding?
    ensures InTicketOrder(s, PopFinish(n))
  {
    var c := s.pops[n];
    var d := Done(c.deq, c.stale, c.ticket, c.value);
    CountUpdate(s.pops, n, d, HasTicket);
    CountUpdate(s.pops, n, d, IsDone);
    TicketsMinusDone(s.pops[n := d]);
    assert TicketOk(s, n) && CallOk(s, n);
  }

  // --------------------------------------------------- the order is necessary

  ghost predicate DeliversPrefix<T>(s: State<T>) { s.head <= |s.written| && s.delivered == s.written[..s.head] }

  /** Of distinct items, a finish keeps delivery exact if and only if it is in ticket order. */
  lemma FinishDecides<T>(s: State<T>, n: nat)
    requires FifoInv(s) && Distinct(s.written) && Enabled(s, PopFinish(n))
    ensures DeliversPrefix(Apply(0, s, PopFinish(n))) <==> InTicketOrder(s, PopFinish(n))
  {
    AdmissionIsSafe(s);
    assert TicketOk(s, n);
    var t := Apply(0, s, PopFinish(n));
    assert t.delivered[s.head] == s.written[s.pops[n].ticket];
    assert s.head < |s.written| ==> t.written[..s.head + 1] == s.written[..s.head] + [s.written[s.head]];
  }

  /** What was written and delivered only grows, and head_ counts what was delivered. */
  lemma {:induction false} HistoryGrows<T>(trace: seq<State<T>>, steps: seq<Step<T>>, i: nat, j: nat)
    requires IsRun(trace, steps) && i <= j < |trace|
    ensures trace[i].written <= trace[j].written && trace[i].delivered <= trace[j].delivered
    ensures |trace[j].delivered| == trace[j].head <= |trace[j].written|
    decreases j
  {
    if j > 0 {
      EveryRunIsSafe(trace, steps, j - 1);
      HistoryGrows(trace, steps, if i < j then i else j - 1, j - 1);
      assert trace[j - 1 + 1] == Apply(0, trace[j - 1], steps[j - 1]);
      HistoryStep(trace[j - 1], steps[j - 1]);
    }
  }

  lemma HistoryStep<T>(s: State<T>, step: Step<T>)
    requires Inv(s) && Enabled(s, step) && |s.delivered| == s.head
    ensures var t := Apply(0, s, step);
            s.written <= t.written && s.delivered <= t.delivered && |t.delivered| == t.head <= |t.written|
  {
    StepKeeps(s, step);
    AdmissionIsSafe(Apply(0, s, step));
  }

  lemma PrefixOfPrefix<T>(delivered: seq<T>, written: seq<T>, allDelivered: seq<T>, allWritten: seq<T>)
    requires delivered <= allDelivered && written <= allWritten && |delivered| <= |written|
    requires |allDelivered| <= |allWritten|
    requires allDelivered == allWritten[..|allDelivered|]
    ensures delivered == written[..|delivered|]
  {}

  lemma {:induction false} ExactDeliveryIsInOrder<T>(trace: seq<State<T>>, steps: seq<Step<T>>, i: nat)
    requires IsRun(trace, steps) && i < |trace|
    requires Distinct(trace[|steps|].written) && DeliversPrefix(trace[|steps|])
    ensures FifoInv(trace[i]) && forall j :: 0 <= j < i ==> InTicketOrder(trace[j], steps[j])
  {
    if i > 0 {
      var s, t, last := trace[i - 1], trace[i], trace[|steps|];
      ExactDeliveryIsInOrder(trace, steps, i - 1);
      HistoryGrows(trace, steps, i - 1, |steps|);
      HistoryGrows(trace, steps, i, |steps|);
      HistoryGrows(trace, steps, i, i);
      PrefixOfPrefix(t.delivered, t.written, last.delivered, last.written);
      assert forall k :: 0 <= k < |s.written| ==> s.written[k] == last.written[k];
      assert t == Apply(0, s, steps[i - 1]);
      if steps[i - 1].PopFinish? { FinishDecides(s, steps[i - 1].n); }
      OrderedStepKeeps(s, steps[i - 1]);
    }
  }

  /**
    A run of distinct items has delivered exactly a prefix of what was written if and only if every read finished in
    ticket order.
    */
  lemma FifoIffTicketOrder<T>(trace: seq<State<T>>, steps: seq<Step<T>>)
    requires IsRun(trace, steps) && Distinct(trace[|steps|].written)
    ensures DeliversPrefix(trace[|steps|]) <==> forall j :: 0 <= j < |steps| ==> InTicketOrder(trace[j], steps[j])
  {
    if DeliversPrefix(trace[|steps|]) { ExactDeliveryIsInOrder(trace, steps, |steps|); }
    if forall j :: 0 <= j < |steps| ==> InTicketOrder(trace[j], steps[j]) { DeliveryIsFifo(trace, steps, |steps|); }
  }

  ghost predicate Reachable<T(!new)>(s: State<T>) {
    exists trace: seq<State<T>>, steps: seq<Step<T>> :: IsRun(trace, steps) && trace[|steps|] == s
  }

  lemma Extend<T(!new)>(s: State<T>, step: Step<T>)
    requires Reachable(s) && Enabled(s, step)
    ensures Reachable(Apply(0, s, step))
  {
    var trace: seq<State<T>>, steps: seq<Step<T>> :| IsRun(trace, steps) && trace[|steps|] == s;
    assert IsRun(trace + [Apply(0, s, step)], steps + [step]);
  }

  /** A ring of two places in which nothing is going on, `pops` having returned. */
  function Resting(enq: nat, deq: nat, data: seq<char>, pops: seq<Pop<char>>, written: seq<char>,
      delivered: seq<char>): State<char> {
    State(enq, 0, deq, 0, |delivered|, |written|, |delivered|, |written|, data, Idle, [], pops, written, delivered)
  }

  /** A whole push call that finds room. */
  lemma PushReaches(s: State<char>, x: char)
    requires Reachable(s) && s.push.Idle? && |s.data| == 2 && s.enqCount + 1 - s.enqRevoke - s.head <= 2
    ensures Reachable(s.(enqCount := s.enqCount + 1, tailFast := s.tailFast + 1, tail := s.tail + 1,
                         data := s.data[s.tailFast % 2 := x], written := s.written + [x]))
  {
    Extend(s, PushLoad(x));
    var s1 := Apply(0, s, PushLoad(x));
    Extend(s1, PushCount);
    var s2 := Apply(0, s1, PushCount);
    Extend(s2, PushCheck);
    var s3 := Apply(0, s2, PushCheck);
    Extend(s3, PushTake);
    var s4 := Apply(0, s3, PushTake);
    Extend(s4, PushWrite);
    var s5 := Apply(0, s4, PushWrite);
    Extend(s5, PushPublish);
    assert Apply(0, s5, PushPublish) == s.(enqCount := s.enqCount + 1, tailFast := s.tailFast + 1, tail := s.tail + 1,
                                           data := s.data[s.tailFast % 2 := x], written := s.written + [x]);
  }

  /** A pop call, up to the point where it holds its ticket. */
  lemma TicketReaches(s: State<char>)
    requires Reachable(s) && s.loaded == [] && s.deqRevoke == 0 && s.deqCount == |s.pops| < s.tail
    ensures Reachable(s.(deqCount := s.deqCount + 1, headFast := s.headFast + 1,
                         pops := s.pops + [Reading(s.deqCount + 1, 0, s.headFast)]))
  {
    var n := |s.pops|;
    Extend(s, PopLoad);
    var s1 := Apply(0, s, PopLoad);
    assert s1.loaded == [0] && s1.loaded[..0] + s1.loaded[1..] == [];
    Extend(s1, PopCount(0));
    var s2 := Apply(0, s1, PopCount(0));
    Extend(s2, PopCheck(n));
    var s3 := Apply(0, s2, PopCheck(n));
    Extend(s3, PopTicket(n));
    assert Apply(0, s3, PopTicket(n)).pops == s.pops + [Reading(s.deqCount + 1, 0, s.headFast)];
    assert Apply(0, s3, PopTicket(n)) == s.(deqCount := s.deqCount + 1, headFast := s.headFast + 1,
                                            pops := s.pops + [Reading(s.deqCount + 1, 0, s.headFast)]);
  }

  /** The rest of a pop call. */
  lemma FinishReaches(s: State<char>, n: nat)
    requires Reachable(s) && n < |s.pops| && s.pops[n].Reading? && |s.data| == 2
    ensures var c := s.pops[n];
            var v := s.data[c.ticket % 2];
            Reachable(s.(head := s.head + 1, pops := s.pops[n := Done(c.deq, c.stale, c.ticket, v)],
              delivered := s.delivered + [v]))
  {
    var c := s.pops[n];
    var v := s.data[c.ticket % 2];
    Extend(s, PopRead(n));
    var s1 := Apply(0, s, PopRead(n));
    Extend(s1, PopFinish(n));
    assert Apply(0, s1, PopFinish(n)).pops == s.pops[n := Done(c.deq, c.stale, c.ticket, v)];
    assert Apply(0, s1, PopFinish(n)) == s.(head := s.head + 1, pops := s.pops[n := Done(c.deq, c.stale, c.ticket, v)],
      delivered := s.delivered + [v]);
  }

  /** Both consumers hold their tickets, "a" and "b" being published. */
  function TwoReaders(): State<char> {
    State(2, 0, 2, 0, 0, 2, 2, 2, ['a', 'b'], Idle, [], [Reading(1, 0, 0), Reading(2, 0, 1)], ['a', 'b'], [])
  }

  /** The second one has finished first. */
  function SecondDone(): State<char> {
    State(2, 0, 2, 0, 1, 2, 2, 2, ['a', 'b'], Idle, [], [Reading(1, 0, 0), Done(2, 0, 1, 'b')], ['a', 'b'], ['b'])
  }

  /** The producer has reused the slot that the first one is still to read. */
  function Lapped(): State<char> {
    State(3, 0, 2, 0, 1, 3, 2, 3, ['c', 'b'], Idle, [], [Reading(1, 0, 0), Done(2, 0, 1, 'b')], ['a', 'b', 'c'], ['b'])
  }

  /** Both have finished. */
  function BothDone(): State<char> {
    State(3, 0, 2, 0, 2, 3, 2, 3, ['c', 'b'], Idle, [], [Done(1, 0, 0, 'c'), Done(2, 0, 1, 'b')], ['a', 'b', 'c'],
      ['b', 'c'])
  }

  lemma TwoItemsReached()
    ensures Reachable(Resting(2, 0, ['a', 'b'], [], ['a', 'b'], []))
  {
    var s0 := Resting(0, 0, ['x', 'x'], [], [], []);
    var none: seq<Step<char>> := [];
    assert IsRun([s0], none) && [s0][|none|] == s0;
    assert Reachable(s0);
    PushReaches(s0, 'a');
    PushReaches(Resting(1, 0, ['a', 'x'], [], ['a'], []), 'b');
  }

  lemma TwoReadersReached()
    ensures Reachable(TwoReaders())
  {
    TwoItemsReached();
    var s2 := Resting(2, 0, ['a', 'b'], [], ['a', 'b'], []);
    TicketReaches(s2);
    TicketReaches(s2.(deqCount := 1, headFast := 1, pops := [Reading(1, 0, 0)]));
  }

  lemma SecondDoneReached()
    ensures Reachable(SecondDone())
  {
    TwoReadersReached();
    FinishReaches(TwoReaders(), 1);
  }

  lemma LappedReached()
    ensures Reachable(Lapped())
  {
    SecondDoneReached();
    PushReaches(SecondDone(), 'c');
  }

  lemma BothDoneReached()
    ensures Reachable(BothDone())
  {
    LappedReached();
    FinishReaches(Lapped(), 0);
  }

  /** Two consumers finishing out of order lose one item and deliver another twice. */
  lemma OutOfOrderReadsLoseItems()
    ensures exists s: State<char> :: Reachable(s) && s.written == ['a', 'b', 'c'] && s.delivered == ['b', 'c', 'c']
  {
    BothDoneReached();
    TicketReaches(BothDone());
    var s := BothDone().(deqCount := 3, headFast := 3, pops := BothDone().pops + [Reading(3, 0, 2)]);
    assert Reachable(s);
    FinishReaches(s, 2);
  }
}
