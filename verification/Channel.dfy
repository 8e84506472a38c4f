/**
  Channels: any number of sends and receives around one locked buffer, and a scheduler that alerts sleeping calls.
  With capacity 0 the buffer is one value and a call goes on only after it has been woken. Each step is what one
  thread does between two points where another can run; a sleeping call may also wake for no reason.

  Alerts are kept per call, where the source has one per thread and kind. A left-over alert of an earlier call of the
  thread can wake a later one, which is one more waking for no reason; and within one channel the alerts of a thread
  are queued in the order of its calls, so that the alert of the call that sleeps is the last of them.
  */
module Channel {
  import opened Options
  import opened Paths

  datatype Kind<T> = Send(item: T) | Receive

  datatype Phase<T> =
    | Arrived                     // before its alert is queued
    | Outside                     // wants the buffer lock
    | Checking                    // has it, and evaluates the predicate of `wait`
    | Granted                     // has it, and the predicate held
    | Asleep                      // in `wait`, without the lock
    | Done(result: Option<T>)

  /** `checks` counts the evaluations of the predicate (wakeonly). */
  datatype Call<T> = Call(kind: Kind<T>, phase: Phase<T>, checks: nat)

  datatype Holder = Nobody | Scheduler | Caller(id: nat)

  /**
    `sent`, `received` and `takers` only record history: items in the order of the buffer's pushes and pops, and who
    popped.
    */
  datatype State<T> = State(
    capacity: nat, holder: Holder, buffer: seq<T>, calls: seq<Call<T>>, sendq: seq<nat>, recvq: seq<nat>,
    sent: seq<T>, received: seq<T>, takers: seq<nat>)

  datatype Step<T> =
    | Begin(kind: Kind<T>) | Enlist(i: nat) | Lock(i: nat) | Check(i: nat) | Act(i: nat) | Wake(i: nat)
    | SchedulerLock | AlertSend | AlertReceive | AlertBoth | SchedulerUnlock

  function Slots(capacity: nat): nat { if capacity == 0 then 1 else capacity }

  ghost predicate Init<T>(s: State<T>) {
    s.holder == Nobody && s.buffer == [] && s.calls == [] && s.sendq == [] && s.recvq == [] && s.sent == [] &&
      s.received == [] && s.takers == []
  }

  /** What `wait` waits for. */
  predicate CanGo<T>(kind: Kind<T>, buffer: seq<T>, capacity: nat) {
    if kind.Send? then |buffer| < Slots(capacity) else |buffer| > 0
  }

  ghost predicate Enabled<T>(s: State<T>, step: Step<T>) {
    match step
    case Begin(_) => true
    case Enlist(i) => i < |s.calls| && s.calls[i].phase.Arrived?
    case Lock(i) => i < |s.calls| && s.calls[i].phase.Outside? && s.holder.Nobody?
    case Check(i) => i < |s.calls| && s.calls[i].phase.Checking?
    case Act(i) => i < |s.calls| && s.calls[i].phase.Granted?
    case Wake(i) => i < |s.calls| && s.calls[i].phase.Asleep?
    case SchedulerLock => s.capacity > 0 && s.holder.Nobody?
    case AlertSend => s.holder.Scheduler? && |s.buffer| < s.capacity && s.sendq != []
    case AlertReceive => s.holder.Scheduler? && |s.buffer| > 0 && s.recvq != []
    case AlertBoth => s.capacity == 0 && s.sendq != [] && s.recvq != []
    case SchedulerUnlock => s.holder.Scheduler?
  }

  function At<T>(calls: seq<Call<T>>, i: nat, phase: Phase<T>): seq<Call<T>>
    requires i < |calls|
  {
    calls[i := calls[i].(phase := phase)]
  }

  /** notify_one: wakes the owner of the alert if it sleeps, and is lost otherwise. */
  function Notified<T>(calls: seq<Call<T>>, i: nat): seq<Call<T>> {
    if i < |calls| && calls[i].phase.Asleep? then At(calls, i, Outside) else calls
  }

  ghost function Next<T>(s: State<T>, step: Step<T>): State<T>
    requires Enabled(s, step)
  {
    match step
    case Begin(kind) => s.(calls := s.calls + [Call(kind, Arrived, 0)])
    case Enlist(i) =>
      if s.calls[i].kind.Send? then s.(calls := At(s.calls, i, Outside), sendq := s.sendq + [i])
      else s.(calls := At(s.calls, i, Outside), recvq := s.recvq + [i])
    case Lock(i) => s.(calls := At(s.calls, i, Checking), holder := Caller(i))
    case Check(i) =>
      var c := s.calls[i].(checks := s.calls[i].checks + 1);
      if (s.capacity > 0 || s.calls[i].checks > 0) && CanGo(c.kind, s.buffer, s.capacity)
      then s.(calls := s.calls[i := c.(phase := Granted)])
      else s.(calls := s.calls[i := c.(phase := Asleep)], holder := Nobody)
    case Act(i) =>
      (match s.calls[i].kind
       case Send(x) =>
         s.(calls := At(s.calls, i, Done(None)), holder := Nobody, buffer := s.buffer + [x], sent := s.sent + [x])
       case Receive =>
         if s.buffer == [] then s   // front() of an empty buffer
         else s.(calls := At(s.calls, i, Done(Some(s.buffer[0]))), holder := Nobody, buffer := s.buffer[1..],
                 received := s.received + [s.buffer[0]], takers := s.takers + [i]))
    case Wake(i) => s.(calls := At(s.calls, i, Outside))
    case SchedulerLock => s.(holder := Scheduler)
    case AlertSend => s.(calls := Notified(s.calls, s.sendq[0]), sendq := s.sendq[1..])
    case AlertReceive => s.(calls := Notified(s.calls, s.recvq[0]), recvq := s.recvq[1..])
    case AlertBoth =>
      s.(calls := Notified(Notified(s.calls, s.sendq[0]), s.recvq[0]), sendq := s.sendq[1..], recvq := s.recvq[1..])
    case SchedulerUnlock => s.(holder := Nobody)
  }

  // -------------------------------------------------------------------- safety

  /** A call is in its critical section exactly if it has the lock, and a granted call's predicate still holds. */
  ghost predicate CallOk<T>(calls: seq<Call<T>>, i: nat, holder: Holder, buffer: seq<T>, capacity: nat)
    requires i < |calls|
  {
    && (calls[i].phase.Checking? || calls[i].phase.Granted? <==> holder == Caller(i))
    && (calls[i].phase.Granted? ==> CanGo(calls[i].kind, buffer, capacity))
  }

  ghost predicate CallsOk<T>(calls: seq<Call<T>>, holder: Holder, buffer: seq<T>, capacity: nat) {
    && (holder.Caller? ==> holder.id < |calls|)
    && forall i {:trigger CallOk(calls, i, holder, buffer, capacity)} :: 0 <= i < |calls| ==>
         CallOk(calls, i, holder, buffer, capacity)
  }

  /** The k-th item received is what the k-th receive to finish has returned. */
  ghost predicate TakenBy<T>(calls: seq<Call<T>>, received: seq<T>, takers: seq<nat>, k: nat)
    requires k < |takers| == |received|
  {
    takers[k] < |calls| && calls[takers[k]].kind.Receive? && calls[takers[k]].phase == Done(Some(received[k]))
  }

  ghost predicate TakersOk<T>(calls: seq<Call<T>>, received: seq<T>, takers: seq<nat>) {
    && |takers| == |received|
    && (forall k {:trigger TakenBy(calls, received, takers, k)} :: 0 <= k < |takers| ==>
         TakenBy(calls, received, takers, k))
    && (forall j, k :: 0 <= j < k < |takers| ==> takers[j] != takers[k])
  }

  ghost predicate Inv<T>(s: State<T>) {
    && CallsOk(s.calls, s.holder, s.buffer, s.capacity)
    && TakersOk(s.calls, s.received, s.takers)
    && s.sent == s.received + s.buffer
    && |s.buffer| <= Slots(s.capacity)
  }

  /** A call that is not done may change its phase without disturbing who took what. */
  lemma ChangeKeepsTakers<T>(calls: seq<Call<T>>, received: seq<T>, takers: seq<nat>, i: nat, c: Call<T>)
    requires TakersOk(calls, received, takers) && i < |calls| && !calls[i].phase.Done?
    ensures TakersOk(calls[i := c], received, takers) && i !in takers
  {
    forall k | 0 <= k < |takers| ensures TakenBy(calls[i := c], received, takers, k) && takers[k] != i {
      assert TakenBy(calls, received, takers, k);
    }
  }

  /** A call outside its critical section may change to another such phase. */
  lemma ChangeKeepsCalls<T>(calls: seq<Call<T>>, i: nat, c: Call<T>, holder: Holder, buffer: seq<T>, capacity: nat)
    requires CallsOk(calls, holder, buffer, capacity) && i < |calls| && holder != Caller(i)
    requires !c.phase.Checking? && !c.phase.Granted?
    ensures CallsOk(calls[i := c], holder, buffer, capacity)
  {
    var changed := calls[i := c];
    forall j | 0 <= j < |calls| ensures CallOk(changed, j, holder, buffer, capacity) {
      assert CallOk(calls, j, holder, buffer, capacity);
    }
  }

  lemma NotifyKeeps<T>(calls: seq<Call<T>>, i: nat, holder: Holder, buffer: seq<T>, capacity: nat, received: seq<T>,
      takers: seq<nat>)
    requires CallsOk(calls, holder, buffer, capacity) && TakersOk(calls, received, takers)
    ensures CallsOk(Notified(calls, i), holder, buffer, capacity) && TakersOk(Notified(calls, i), received, takers)
  {
    if i < |calls| && calls[i].phase.Asleep? {
      assert CallOk(calls, i, holder, buffer, capacity);
      ChangeKeepsCalls(calls, i, calls[i].(phase := Outside), holder, buffer, capacity);
      ChangeKeepsTakers(calls, received, takers, i, calls[i].(phase := Outside));
    }
  }

  /** With the lock free, or the caller's own, the lock and its buffer may pass on. */
  lemma HandOver<T>(calls: seq<Call<T>>, i: nat, c: Call<T>, from: Holder, to: Holder, before: seq<T>, after: seq<T>,
      capacity: nat)
    requires CallsOk(calls, from, before, capacity) && i < |calls| && (from == Nobody || from == Caller(i))
    requires (to == Nobody || to == Caller(i))
    requires c.phase.Checking? || c.phase.Granted? <==> to == Caller(i)
    requires c.phase.Granted? ==> CanGo(c.kind, after, capacity)
    ensures CallsOk(calls[i := c], to, after, capacity)
  {
    var changed := calls[i := c];
    forall j | 0 <= j < |calls| ensures CallOk(changed, j, to, after, capacity) {
      assert CallOk(calls, j, from, before, capacity);
    }
  }

  lemma BeginKeeps<T>(s: State<T>, kind: Kind<T>)
    requires Inv(s)
    ensures Inv(Next(s, Begin(kind)))
  {
    var n := Next(s, Begin(kind));
    forall i | 0 <= i < |n.calls| ensures CallOk(n.calls, i, n.holder, n.buffer, n.capacity) {
      if i < |s.calls| { assert CallOk(s.calls, i, s.holder, s.buffer, s.capacity); }
    }
    forall k | 0 <= k < |s.takers| ensures TakenBy(n.calls, n.received, n.takers, k) {
      assert TakenBy(s.calls, s.received, s.takers, k);
    }
  }

  lemma SchedulerKeeps<T>(s: State<T>, to: Holder)
    requires Inv(s) && !s.holder.Caller? && !to.Caller?
    ensures Inv(s.(holder := to))
  {
    forall i | 0 <= i < |s.calls| ensures CallOk(s.calls, i, to, s.buffer, s.capacity) {
      assert CallOk(s.calls, i, s.holder, s.buffer, s.capacity);
    }
  }

  lemma ActKeeps<T>(s: State<T>, i: nat)
    requires Inv(s) && Enabled(s, Act(i))
    ensures Inv(Next(s, Act(i)))
  {
    var n := Next(s, Act(i));
    assert CallOk(s.calls, i, s.holder, s.buffer, s.capacity);
    HandOver(s.calls, i, n.calls[i], s.holder, Nobody, s.buffer, n.buffer, s.capacity);
    ChangeKeepsTakers(s.calls, s.received, s.takers, i, n.calls[i]);
    if s.calls[i].kind.Receive? {
      assert s.buffer == [s.buffer[0]] + s.buffer[1..];
      forall k | 0 <= k < |n.takers| ensures TakenBy(n.calls, n.received, n.takers, k) {
        if k < |s.takers| { assert TakenBy(n.calls, s.received, s.takers, k); }
      }
    }
  }

  lemma LockAndCheckKeep<T>(s: State<T>, step: Step<T>)
    requires Inv(s) && Enabled(s, step) && (step.Lock? || step.Check?)
    ensures Inv(Next(s, step))
  {
    var n, i := Next(s, step), step.i;
    assert CallOk(s.calls, i, s.holder, s.buffer, s.capacity);
    ChangeKeepsTakers(s.calls, s.received, s.takers, i, n.calls[i]);
    HandOver(s.calls, i, n.calls[i], s.holder, n.holder, s.buffer, s.buffer, s.capacity);
  }

  lemma EnlistAndWakeKeep<T>(s: State<T>, step: Step<T>)
    requires Inv(s) && Enabled(s, step) && (step.Enlist? || step.Wake?)
    ensures Inv(Next(s, step))
  {
    var n, i := Next(s, step), step.i;
    assert CallOk(s.calls, i, s.holder, s.buffer, s.capacity);
    ChangeKeepsTakers(s.calls, s.received, s.takers, i, n.calls[i]);
    ChangeKeepsCalls(s.calls, i, n.calls[i], s.holder, s.buffer, s.capacity);
  }

  lemma StepKeeps<T>(s: State<T>, step: Step<T>)
    requires Inv(s) && Enabled(s, step)
    ensures Inv(Next(s, step))
  {
    match step
    case Begin(kind) => BeginKeeps(s, kind);
    case Enlist(_) => EnlistAndWakeKeep(s, step);
    case Lock(_) => LockAndCheckKeep(s, step);
    case Check(_) => LockAndCheckKeep(s, step);
    case Act(i) => ActKeeps(s, i);
    case Wake(_) => EnlistAndWakeKeep(s, step);
    case SchedulerLock => SchedulerKeeps(s, Scheduler);
    case SchedulerUnlock => SchedulerKeeps(s, Nobody);
    case AlertSend => NotifyKeeps(s.calls, s.sendq[0], s.holder, s.buffer, s.capacity, s.received, s.takers);
    case AlertReceive => NotifyKeeps(s.calls, s.recvq[0], s.holder, s.buffer, s.capacity, s.received, s.takers);
    case AlertBoth =>
      NotifyKeeps(s.calls, s.sendq[0], s.holder, s.buffer, s.capacity, s.received, s.takers);
      NotifyKeeps(Notified(s.calls, s.sendq[0]), s.recvq[0], s.holder, s.buffer, s.capacity, s.received, s.takers);
  }

  ghost predicate IsRun<T>(run: seq<State<T>>, steps: seq<Step<T>>) {
    && |run| == |steps| + 1 && Init(run[0])
    && forall i {:trigger steps[i]} :: 0 <= i < |steps| ==>
         Enabled(run[i], steps[i]) && run[i + 1] == Next(run[i], steps[i])
  }

  /** Every state of every run: what was sent is what was received and what is buffered, in order; the bound is kept. */
  lemma {:induction false} EveryRunIsSafe<T>(run: seq<State<T>>, steps: seq<Step<T>>, n: nat)
    requires IsRun(run, steps) && n < |run|
    ensures Inv(run[n])
  {
    if n > 0 {
      EveryRunIsSafe(run, steps, n - 1);
      assert run[n - 1 + 1] == Next(run[n - 1], steps[n - 1]);
      StepKeeps(run[n - 1], steps[n - 1]);
    }
  }

  /**
    A call that goes on never takes from an empty buffer nor overwrites or overfills it, and it alone is in its
    critical section.
    */
  lemma GrantIsGood<T>(s: State<T>, i: nat, j: nat)
    requires Inv(s) && i < |s.calls| && j < |s.calls| && s.calls[i].phase.Granted?
    ensures if s.calls[i].kind.Send? then |s.buffer| < Slots(s.capacity) else s.buffer != []
    ensures s.calls[j].phase.Granted? || s.calls[j].phase.Checking? ==> i == j
  {
    assert CallOk(s.calls, i, s.holder, s.buffer, s.capacity) && CallOk(s.calls, j, s.holder, s.buffer, s.capacity);
  }

  // ------------------------------------------------------------- who goes on

  /**
    With a buffer, a check lets a send go on exactly if fewer items than the capacity are sent and not received, and a
    receive exactly if some item is.
    */
  lemma CheckWithBuffer<T>(s: State<T>, i: nat)
    requires Inv(s) && s.capacity > 0 && Enabled(s, Check(i))
    ensures var n := Next(s, Check(i)).calls[i];
            && (n.phase.Granted? <==>
                  if n.kind.Send? then |s.sent| < |s.received| + s.capacity else |s.received| < |s.sent|)
            && (!n.phase.Granted? ==> n.phase.Asleep?)
  {}

  /**
    Without one, a first check never does, and a later one exactly if no value is waiting, for a send, or one is, for
    a receive.
    */
  lemma CheckWithoutBuffer<T>(s: State<T>, i: nat)
    requires Inv(s) && s.capacity == 0 && Enabled(s, Check(i))
    ensures var n := Next(s, Check(i)).calls[i];
            && (n.phase.Granted? <==>
                  s.calls[i].checks > 0 && |s.sent| == |s.received| + if n.kind.Send? then 0 else 1)
            && (!n.phase.Granted? ==> n.phase.Asleep?)
  {}

  ghost predicate HasSlept<T>(run: seq<State<T>>, n: nat, i: nat)
    requires n < |run|
  {
    exists j :: 0 <= j <= n && i < |run[j].calls| && run[j].calls[i].phase.Asleep?
  }

  /** A call that has checked and is not asleep has slept; without a buffer one that goes on has checked before. */
  ghost predicate WokenFirst<T>(run: seq<State<T>>, n: nat, i: nat)
    requires n < |run| && i < |run[n].calls|
  {
    var c := run[n].calls[i];
    && (c.checks > 0 ==> HasSlept(run, n, i))
    && (c.phase.Granted? || c.phase.Done? ==> c.checks >= 2)
  }

  lemma SleptStays<T>(run: seq<State<T>>, m: nat, n: nat, i: nat)
    requires m <= n < |run| && HasSlept(run, m, i)
    ensures HasSlept(run, n, i)
  {
    var j :| 0 <= j <= m && i < |run[j].calls| && run[j].calls[i].phase.Asleep?;
    assert 0 <= j <= n;
  }

  lemma StepWakesFirst<T>(run: seq<State<T>>, n: nat, step: Step<T>, i: nat)
    requires n + 1 < |run| && run[n].capacity == 0 && Enabled(run[n], step) && run[n + 1] == Next(run[n], step)
    requires i < |run[n + 1].calls| && (i < |run[n].calls| ==> WokenFirst(run, n, i))
    ensures WokenFirst(run, n + 1, i)
  {
    if i < |run[n].calls| && run[n].calls[i].checks > 0 { SleptStays(run, n, n + 1, i); }
    var c := run[n + 1].calls[i];
    if c.phase.Asleep? { assert HasSlept(run, n + 1, i); }
  }

  lemma {:induction false} CapacityStays<T>(run: seq<State<T>>, steps: seq<Step<T>>, n: nat)
    requires IsRun(run, steps) && n < |run|
    ensures run[n].capacity == run[0].capacity
  {
    if n > 0 {
      CapacityStays(run, steps, n - 1);
      assert run[n - 1 + 1] == Next(run[n - 1], steps[n - 1]);
    }
  }

  /** Without a buffer, in every run, a send or receive that goes on or has finished has slept and been woken. */
  lemma {:induction false} EveryRunWakesFirst<T>(run: seq<State<T>>, steps: seq<Step<T>>, n: nat, i: nat)
    requires IsRun(run, steps) && run[0].capacity == 0 && n < |run| && i < |run[n].calls|
    ensures WokenFirst(run, n, i)
    ensures run[n].calls[i].phase.Granted? || run[n].calls[i].phase.Done? ==> HasSlept(run, n, i)
  {
    if n > 0 {
      CapacityStays(run, steps, n - 1);
      assert Enabled(run[n - 1], steps[n - 1]) && run[n - 1 + 1] == Next(run[n - 1], steps[n - 1]);
      if i < |run[n - 1].calls| { EveryRunWakesFirst(run, steps, n - 1, i); }
      StepWakesFirst(run, n - 1, steps[n - 1], i);
    }
  }

  // ------------------------------------------------------------- alerts in time

  /** The alerts of queue q are those of sends, or those of receives. */
  ghost predicate AlertsOf<T>(q: seq<nat>, calls: seq<Call<T>>, sends: bool) {
    forall k :: 0 <= k < |q| ==> q[k] < |calls| && (calls[q[k]].kind.Send? <==> sends)
  }

  /** Without a buffer the scheduler takes no lock. */
  ghost predicate QueuesOk<T>(s: State<T>) {
    AlertsOf(s.sendq, s.calls, true) && AlertsOf(s.recvq, s.calls, false) && (s.capacity == 0 ==> !s.holder.Scheduler?)
  }

  /** Calls come, but keep their kind. */
  lemma KindsStay<T>(s: State<T>, step: Step<T>)
    requires Enabled(s, step)
    ensures var calls := Next(s, step).calls;
            |s.calls| <= |calls| && forall i :: 0 <= i < |s.calls| ==> calls[i].kind == s.calls[i].kind
  {}

  lemma AlertsStay<T>(q: seq<nat>, calls: seq<Call<T>>, after: seq<Call<T>>, sends: bool)
    requires AlertsOf(q, calls, sends) && |calls| <= |after|
    requires forall i :: 0 <= i < |calls| ==> after[i].kind == calls[i].kind
    ensures AlertsOf(q, after, sends)
  {}

  lemma StepKeepsQueues<T>(s: State<T>, step: Step<T>)
    requires QueuesOk(s) && Enabled(s, step)
    ensures QueuesOk(Next(s, step))
  {
    KindsStay(s, step);
    AlertsStay(s.sendq, s.calls, Next(s, step).calls, true);
    AlertsStay(s.recvq, s.calls, Next(s, step).calls, false);
  }

  lemma {:induction false} EveryRunKeepsQueues<T>(run: seq<State<T>>, steps: seq<Step<T>>, n: nat)
    requires IsRun(run, steps) && n < |run|
    ensures QueuesOk(run[n])
  {
    if n > 0 {
      EveryRunKeepsQueues(run, steps, n - 1);
      assert Enabled(run[n - 1], steps[n - 1]) && run[n - 1 + 1] == Next(run[n - 1], steps[n - 1]);
      StepKeepsQueues(run[n - 1], steps[n - 1]);
    }
  }

  /**
    In every run, a sleeping call is alerted only when what it waits for holds, or, without a buffer, together with one
    of the other kind, whose alert is spent with its own.
    */
  lemma EveryAlertIsInTime<T>(run: seq<State<T>>, steps: seq<Step<T>>, n: nat, i: nat)
    requires IsRun(run, steps) && n < |steps| && i < |run[n].calls| && !steps[n].Wake?
    requires run[n].calls[i].phase.Asleep? && !run[n + 1].calls[i].phase.Asleep?
    ensures var s, t := run[n], run[n + 1];
            if s.capacity > 0 then
              if s.calls[i].kind.Send? then |s.sent| < |s.received| + s.capacity else |s.received| < |s.sent|
            else
              && s.sendq != [] && s.recvq != [] && t.sendq == s.sendq[1..] && t.recvq == s.recvq[1..]
              && (i == s.sendq[0] || i == s.recvq[0])
  {
    EveryRunKeepsQueues(run, steps, n);
    EveryRunIsSafe(run, steps, n);
    assert Enabled(run[n], steps[n]) && run[n + 1] == Next(run[n], steps[n]);
    assert CallOk(run[n].calls, i, run[n].holder, run[n].buffer, run[n].capacity);
  }

  /**
    With a buffer, the scheduler alerts the first call in line if what it waits for holds, and that call goes on if no
    other gets in between.
    */
  lemma AlertLetsGoOn<T>(s: State<T>, i: nat)
    requires Inv(s) && s.capacity > 0 && s.holder.Nobody? && i < |s.calls| && s.calls[i].phase.Asleep?
    requires if s.calls[i].kind.Send? then s.sendq != [] && s.sendq[0] == i else s.recvq != [] && s.recvq[0] == i
    requires if s.calls[i].kind.Send? then |s.sent| < |s.received| + s.capacity else |s.received| < |s.sent|
    ensures var a, alert := Next(s, SchedulerLock), if s.calls[i].kind.Send? then AlertSend else AlertReceive;
            && Enabled(a, alert)
            && var b := Next(Next(a, alert), SchedulerUnlock);
               && Enabled(b, Lock(i)) && Next(Next(b, Lock(i)), Check(i)).calls[i].phase.Granted?
  {}

  /** A send and a receive as a whole, once they have been alerted: lock, check, act. */
  ghost predicate GoesThrough<T>(s: State<T>, i: nat, t: State<T>) {
    && Enabled(s, Lock(i))
    && var a := Next(s, Lock(i));
       && Enabled(a, Check(i)) && Next(a, Check(i)).calls[i].phase.Granted?
       && t == Next(Next(a, Check(i)), Act(i))
  }

  /** Without a buffer, a send and a receive that both sleep can meet: the receive gets the value of the send. */
  lemma SendMeetsReceive<T>(s: State<T>, i: nat, j: nat)
    requires Inv(s) && s.capacity == 0 && s.holder.Nobody? && s.buffer == [] && i < |s.calls| && j < |s.calls|
    requires s.calls[i].phase.Asleep? && s.calls[i].kind.Send? && s.calls[i].checks > 0
    requires s.calls[j].phase.Asleep? && s.calls[j].kind.Receive? && s.calls[j].checks > 0
    requires s.sendq != [] && s.sendq[0] == i && s.recvq != [] && s.recvq[0] == j
    ensures Enabled(s, AlertBoth)
    ensures exists t, u :: GoesThrough(Next(s, AlertBoth), i, t) && GoesThrough(t, j, u) && u.buffer == [] &&
              u.calls[j].phase == Done(Some(s.calls[i].kind.item))
  {
    var a := Next(s, AlertBoth);
    var t := Next(Next(Next(a, Lock(i)), Check(i)), Act(i));
    assert GoesThrough(a, i, t);
    var u := Next(Next(Next(t, Lock(j)), Check(j)), Act(j));
    assert GoesThrough(t, j, u);
  }

  // ------------------------------------------------------------- lost wake-ups

  /** A sleeping call whose alert is spent. */
  ghost predicate Stranded<T>(s: State<T>, i: nat) {
    i < |s.calls| && s.calls[i].phase.Asleep? && i !in s.sendq && i !in s.recvq
  }

  /** Whatever the others do, it sleeps on, unless it wakes for no reason. */
  lemma StrandedForGood<T>(s: State<T>, step: Step<T>, i: nat)
    requires Stranded(s, i) && Enabled(s, step) && step != Wake(i)
    ensures Stranded(Next(s, step), i)
  {}

  /** One step, other than a waking for no reason. */
  ghost predicate Moves<T(!new)>(s: State<T>, t: State<T>) {
    exists step :: Enabled(s, step) && !step.Wake? && t == Next(s, step)
  }

  ghost predicate CanReach<T(!new)>(s: State<T>, t: State<T>) { Reaches(Moves, s, t) }

  lemma Onwards<T(!new)>(s: State<T>, t: State<T>, u: State<T>)
    requires CanReach(s, t) && CanReach(t, u)
    ensures CanReach(s, u)
  {
    Paths.Onwards(Moves, s, t, u);
  }

  lemma Then<T(!new)>(s: State<T>, t: State<T>, step: Step<T>, u: State<T>)
    requires CanReach(s, t) && Enabled(t, step) && !step.Wake? && u == Next(t, step)
    ensures CanReach(s, u)
  {
    assert Moves(t, u);
    Paths.Then(Moves, s, t, u);
  }

  lemma Stay<T(!new)>(s: State<T>)
    ensures CanReach(s, s)
  {
    Paths.Stay(Moves, s);
  }

  lemma OneStep<T(!new)>(s: State<T>, step: Step<T>, t: State<T>)
    requires Enabled(s, step) && !step.Wake? && t == Next(s, step)
    ensures CanReach(s, t)
  {
    Stay(s);
    Then(s, s, step, t);
  }

  // Whole calls, from a state in which nobody has the lock.

  ghost function AfterEnlist<T>(s: State<T>, kind: Kind<T>): State<T> {
    var t := s.(calls := s.calls + [Call(kind, Outside, 0)]);
    if kind.Send? then t.(sendq := s.sendq + [|s.calls|]) else t.(recvq := s.recvq + [|s.calls|])
  }

  lemma EnlistReaches<T(!new)>(s: State<T>, kind: Kind<T>)
    ensures CanReach(s, AfterEnlist(s, kind))
  {
    var t := Next(s, Begin(kind));
    OneStep(s, Begin(kind), t);
    assert At(t.calls, |s.calls|, Outside) == s.calls + [Call(kind, Outside, 0)];
    Then(s, t, Enlist(|s.calls|), AfterEnlist(s, kind));
  }

  /** A call that finds what it waits for goes through: lock, check, act. */
  ghost function AfterCall<T>(s: State<T>, kind: Kind<T>): State<T>
    requires CanGo(kind, s.buffer, s.capacity)
  {
    var t := AfterEnlist(s, kind);
    match kind
    case Send(x) => t.(calls := s.calls + [Call(kind, Done(None), 1)], buffer := s.buffer + [x], sent := s.sent + [x])
    case Receive =>
      t.(calls := s.calls + [Call(kind, Done(Some(s.buffer[0])), 1)], buffer := s.buffer[1..],
         received := s.received + [s.buffer[0]], takers := s.takers + [|s.calls|])
  }

  lemma CallReaches<T(!new)>(s: State<T>, kind: Kind<T>)
    requires s.holder.Nobody? && s.capacity > 0 && CanGo(kind, s.buffer, s.capacity)
    ensures CanReach(s, AfterCall(s, kind))
  {
    var i := |s.calls|;
    var t := AfterEnlist(s, kind);
    EnlistReaches(s, kind);
    var u := t.(calls := s.calls + [Call(kind, Checking, 0)], holder := Caller(i));
    Then(s, t, Lock(i), u);
    var v := u.(calls := s.calls + [Call(kind, Granted, 1)]);
    Then(s, u, Check(i), v);
    Then(s, v, Act(i), AfterCall(s, kind));
  }

  // ---------------------------------------------- a queued alert can be reached

  /** Call i sleeps, as it did, with its alert where it was or further on. */
  ghost predicate StillAsleep<T>(s: State<T>, t: State<T>, i: nat) {
    && i < |s.calls| <= |t.calls| && s.calls[i].phase.Asleep? && t.calls[i] == s.calls[i]
    && t.capacity == s.capacity && s.sendq <= t.sendq && s.recvq <= t.recvq
  }

  ghost predicate CanBeWoken<T(!new)>(s: State<T>, i: nat) {
    exists t :: CanReach(s, t) && i < |t.calls| && t.calls[i].phase.Outside?
  }

  lemma WokenAfter<T(!new)>(s: State<T>, t: State<T>, i: nat)
    requires CanReach(s, t) && CanBeWoken(t, i)
    ensures CanBeWoken(s, i)
  {
    var u :| CanReach(t, u) && i < |u.calls| && u.calls[i].phase.Outside?;
    Onwards(s, t, u);
  }

  lemma ActReleases<T(!new)>(s: State<T>, i: nat, j: nat) returns (t: State<T>)
    requires Inv(s) && i < |s.calls| && s.calls[i].phase.Asleep? && j < |s.calls| && s.calls[j].phase.Granted?
    ensures CanReach(s, t) && t.holder.Nobody? && StillAsleep(s, t, i)
  {
    GrantIsGood(s, j, j);
    t := Next(s, Act(j));
    OneStep(s, Act(j), t);
  }

  lemma CheckReleases<T(!new)>(s: State<T>, i: nat, j: nat) returns (t: State<T>)
    requires Inv(s) && i < |s.calls| && s.calls[i].phase.Asleep? && j < |s.calls| && s.calls[j].phase.Checking?
    ensures CanReach(s, t) && t.holder.Nobody? && StillAsleep(s, t, i)
  {
    var u := Next(s, Check(j));
    OneStep(s, Check(j), u);
    StepKeeps(s, Check(j));
    t := u;
    if u.calls[j].phase.Granted? {
      t := ActReleases(u, i, j);
      Onwards(s, u, t);
    }
  }

  /** Whoever has the lock gives it up. */
  lemma LockIsReleased<T(!new)>(s: State<T>, i: nat) returns (t: State<T>)
    requires Inv(s) && i < |s.calls| && s.calls[i].phase.Asleep?
    ensures CanReach(s, t) && t.holder.Nobody? && StillAsleep(s, t, i)
  {
    match s.holder
    case Nobody =>
      t := s;
      Stay(s);
    case Scheduler =>
      t := Next(s, SchedulerUnlock);
      OneStep(s, SchedulerUnlock, t);
    case Caller(j) =>
      assert CallOk(s.calls, j, s.holder, s.buffer, s.capacity);
      if s.calls[j].phase.Checking? { t := CheckReleases(s, i, j); } else { t := ActReleases(s, i, j); }
  }

  /** What the scheduler waits for before it alerts a call of this kind can be brought about by one new call. */
  lemma OneCallHelps<T(!new)>(s: State<T>, i: nat, kind: Kind<T>, x: T) returns (t: State<T>)
    requires s.holder.Nobody? && s.capacity > 0 && i < |s.calls| && s.calls[i].phase.Asleep? && |s.buffer| <= s.capacity
    ensures CanReach(s, t) && t.holder.Nobody? && StillAsleep(s, t, i) && CanGo(kind, t.buffer, t.capacity)
  {
    t := s;
    Stay(s);
    if !CanGo(kind, s.buffer, s.capacity) {
      var other := if kind.Send? then Receive else Send(x);
      CallReaches(s, other);
      t := AfterCall(s, other);
    }
  }

  lemma {:induction false} AlertSendsDownTo<T(!new)>(s: State<T>, i: nat, p: nat)
    requires s.holder.Scheduler? && |s.buffer| < s.capacity && i < |s.calls| && s.calls[i].phase.Asleep?
    requires p < |s.sendq| && s.sendq[p] == i
    ensures CanBeWoken(s, i)
    decreases p
  {
    var t := Next(s, AlertSend);
    OneStep(s, AlertSend, t);
    if s.sendq[0] != i {
      AlertSendsDownTo(t, i, p - 1);
      WokenAfter(s, t, i);
    }
  }

  lemma {:induction false} AlertReceivesDownTo<T(!new)>(s: State<T>, i: nat, p: nat)
    requires s.holder.Scheduler? && |s.buffer| > 0 && i < |s.calls| && s.calls[i].phase.Asleep?
    requires p < |s.recvq| && s.recvq[p] == i
    ensures CanBeWoken(s, i)
    decreases p
  {
    var t := Next(s, AlertReceive);
    OneStep(s, AlertReceive, t);
    if s.recvq[0] != i {
      AlertReceivesDownTo(t, i, p - 1);
      WokenAfter(s, t, i);
    }
  }

  lemma BufferedAlertWakes<T(!new)>(s: State<T>, i: nat, p: nat, x: T)
    requires Inv(s) && s.capacity > 0 && i < |s.calls| && s.calls[i].phase.Asleep?
    requires (p < |s.sendq| && s.sendq[p] == i) || (p < |s.recvq| && s.recvq[p] == i)
    ensures CanBeWoken(s, i)
  {
    var kind: Kind<T> := if p < |s.sendq| && s.sendq[p] == i then Send(x) else Receive;
    var t := LockIsReleased(s, i);
    ReachedInv(s, t);
    var u := OneCallHelps(t, i, kind, x);
    Onwards(s, t, u);
    var v := Next(u, SchedulerLock);
    Then(s, u, SchedulerLock, v);
    if kind.Send? { AlertSendsDownTo(v, i, p); } else { AlertReceivesDownTo(v, i, p); }
    WokenAfter(s, v, i);
  }

  /** Without a buffer alerts go out in pairs; new calls can be the partners. */
  lemma {:induction false} AlertPairsDownTo<T(!new)>(s: State<T>, i: nat, p: nat, x: T, sending: bool)
    requires s.capacity == 0 && i < |s.calls| && s.calls[i].phase.Asleep?
    requires if sending then p < |s.sendq| && s.sendq[p] == i else p < |s.recvq| && s.recvq[p] == i
    ensures CanBeWoken(s, i)
    decreases p
  {
    var partner: Kind<T> := if sending then Receive else Send(x);
    EnlistReaches(s, partner);
    var t := AfterEnlist(s, partner);
    var u := Next(t, AlertBoth);
    Then(s, t, AlertBoth, u);
    if u.calls[i].phase.Asleep? {
      AlertPairsDownTo(u, i, p - 1, x, sending);
      WokenAfter(s, u, i);
    }
  }

  lemma ReachedInv<T(!new)>(s: State<T>, t: State<T>)
    requires Inv(s) && CanReach(s, t)
    ensures Inv(t)
  {
    var n: nat :| Leads(Moves, s, t, n);
    forall a: State<T>, b | Inv(a) && Moves(a, b) ensures Inv(b) {
      var step :| Enabled(a, step) && !step.Wake? && b == Next(a, step);
      StepKeeps(a, step);
    }
    Kept(Moves, Inv, s, t, n);
  }

  lemma ReachedStranded<T(!new)>(s: State<T>, t: State<T>, i: nat)
    requires Stranded(s, i) && CanReach(s, t)
    ensures Stranded(t, i)
  {
    var n: nat :| Leads(Moves, s, t, n);
    forall a: State<T>, b | Stranded(a, i) && Moves(a, b) ensures Stranded(b, i) {
      var step :| Enabled(a, step) && !step.Wake? && b == Next(a, step);
      StrandedForGood(a, step, i);
    }
    Kept(Moves, (a: State<T>) => Stranded(a, i), s, t, n);
  }

  /**
    A sleeping call, of either kind and for any capacity, can still be woken if and only if its alert is still queued.
    */
  lemma AlertDecides<T(!new)>(s: State<T>, i: nat, x: T)
    requires Inv(s) && i < |s.calls| && s.calls[i].phase.Asleep?
    ensures CanBeWoken(s, i) <==> i in s.sendq || i in s.recvq
  {
    if i in s.sendq || i in s.recvq {
      var p: nat :| (p < |s.sendq| && s.sendq[p] == i) || (p < |s.recvq| && s.recvq[p] == i);
      if s.capacity == 0 {
        AlertPairsDownTo(s, i, p, x, p < |s.sendq| && s.sendq[p] == i);
      } else {
        BufferedAlertWakes(s, i, p, x);
      }
    } else if CanBeWoken(s, i) {
      var t :| CanReach(s, t) && i < |t.calls| && t.calls[i].phase.Outside?;
      ReachedStranded(s, t, i);
    }
  }

  // ------------------------------------------------- alerts are lost in fact

  /** A send that cannot be woken any more, though there is room for its item. */
  ghost predicate StrandedWithRoom<T(!new)>(s: State<T>, i: nat) {
    Stranded(s, i) && s.calls[i].kind.Send? && |s.buffer| < Slots(s.capacity) && !CanBeWoken(s, i)
  }

  /** The first call is a send on its way to the lock, its alert already spent. */
  ghost predicate Alertless<T>(s: State<T>) {
    && s.holder.Nobody? && |s.calls| > 0 && s.calls[0].kind.Send? && s.calls[0].phase.Outside? && s.calls[0].checks == 0
    && 0 !in s.sendq && 0 !in s.recvq
  }

  /** The scheduler can alert a send before it sleeps, and the alert is lost. */
  lemma AlertIsSpent<T(!new)>(s: State<T>, x: T) returns (t: State<T>)
    requires Init(s)
    ensures CanReach(s, t) && Alertless(t) && t.capacity == s.capacity && t.buffer == []
  {
    var a := AfterEnlist(s, Send(x));
    EnlistReaches(s, Send(x));
    if s.capacity == 0 {
      var b := AfterEnlist(a, Receive);
      EnlistReaches(a, Receive);
      Onwards(s, a, b);
      t := Next(b, AlertBoth);
      Then(s, b, AlertBoth, t);
    } else {
      var b := Next(a, SchedulerLock);
      Then(s, a, SchedulerLock, b);
      var c := Next(b, AlertSend);
      Then(s, b, AlertSend, c);
      t := Next(c, SchedulerUnlock);
      Then(s, c, SchedulerUnlock, t);
    }
  }

  /** Others can fill the buffer before that send gets the lock. */
  lemma {:induction false} OthersFillBuffer<T(!new)>(s: State<T>, x: T) returns (t: State<T>)
    requires Alertless(s) && s.capacity > 0 && |s.buffer| <= s.capacity
    ensures CanReach(s, t) && Alertless(t) && t.capacity == s.capacity && |t.buffer| == s.capacity
    decreases s.capacity - |s.buffer|
  {
    if |s.buffer| == s.capacity {
      t := s;
      Stay(s);
    } else {
      CallReaches(s, Send(x));
      var u := AfterCall(s, Send(x));
      t := OthersFillBuffer(u, x);
      Onwards(s, u, t);
    }
  }

  /** It then falls asleep; without a buffer its first check fails anyway. */
  lemma SendFallsAsleep<T(!new)>(s: State<T>) returns (t: State<T>)
    requires Alertless(s) && (s.capacity == 0 || |s.buffer| == s.capacity)
    ensures CanReach(s, t) && Stranded(t, 0) && t.calls[0].kind.Send? && t.holder.Nobody?
    ensures t.capacity == s.capacity && t.buffer == s.buffer
  {
    var u := Next(s, Lock(0));
    OneStep(s, Lock(0), u);
    t := Next(u, Check(0));
    Then(s, u, Check(0), t);
  }

  /** For every capacity, a run from the start strands a send for which there is room. */
  lemma WakeUpsCanBeLost<T(!new)>(s: State<T>, x: T) returns (t: State<T>)
    requires Init(s)
    ensures CanReach(s, t) && StrandedWithRoom(t, 0)
  {
    var a := AlertIsSpent(s, x);
    if s.capacity == 0 {
      t := SendFallsAsleep(a);
      Onwards(s, a, t);
    } else {
      var b := OthersFillBuffer(a, x);
      Onwards(s, a, b);
      var c := SendFallsAsleep(b);
      Onwards(s, b, c);
      CallReaches(c, Receive);
      t := AfterCall(c, Receive);
      Onwards(s, c, t);
    }
    ReachedInv(s, t);
    AlertDecides(t, 0, x);
  }
}
