/**
  The counters of the local queue are 32 bits wide. Running the protocol modulo 2^32
  is running it with unbounded counters and looking at them modulo 2^32, as long as
  no call stalls while 2^31 items pass by.
  */
module LocalQueueWrap {
  import opened Arithmetic
  import opened LocalQueue

  const WORD: nat := 0x1_0000_0000
  const HALF: nat := 0x8000_0000

  function Low(x: nat): nat { x % WORD }

  function WrapPop<T>(c: Pop<T>): Pop<T> {
    match c
    case Counted(d, r) => Counted(Low(d), Low(r))
    case Refused(d, r) => Refused(Low(d), Low(r))
    case Revoked(d, r) => Revoked(Low(d), Low(r))
    case Admitted(d, r) => Admitted(Low(d), Low(r))
    case Reading(d, r, t) => Reading(Low(d), Low(r), Low(t))
    case Holding(d, r, t, v) => Holding(Low(d), Low(r), Low(t), v)
    case Done(d, r, t, v) => Done(Low(d), Low(r), Low(t), v)
  }

  function WrapPush<T>(p: Push<T>): Push<T> {
    match p
    case Loaded(x, r) => Loaded(x, Low(r))
    case Numbered(x, r, e) => Numbered(x, Low(r), Low(e))
    case Placing(x, i) => Placing(x, Low(i))
    case Written(i) => Written(Low(i))
    case _ => p
  }

  /** The state as 32-bit counters show it. */
  function Wrap<T>(s: State<T>): State<T> {
    State(Low(s.enqCount), Low(s.enqRevoke), Low(s.deqCount), Low(s.deqRevoke),
          Low(s.head), Low(s.tail), Low(s.headFast), Low(s.tailFast),
          s.data, WrapPush(s.push), WrapAll(s.loaded), WrapPops(s.pops), s.written, s.delivered)
  }

  function WrapAll(l: seq<nat>): seq<nat> { seq(|l|, i requires 0 <= i < |l| => Low(l[i])) }

  function WrapPops<T>(pops: seq<Pop<T>>): seq<Pop<T>> { seq(|pops|, n requires 0 <= n < |pops| => WrapPop(pops[n])) }

  lemma WrapUpdate<T>(pops: seq<Pop<T>>, n: nat, c: Pop<T>)
    requires n < |pops|
    ensures WrapPops(pops[n := c]) == WrapPops(pops)[n := WrapPop(c)]
  {}

  // ---------------------------------------------------------------- arithmetic

  lemma LowInc(x: nat)
    ensures Inc(WORD, Low(x)) == Low(Inc(0, x))
  {}

  lemma LowDiff(x: int, y: int)
    ensures Diff(WORD, x % WORD, y % WORD) == Diff(0, x, y) % WORD
  {}

  /** The emptiness test on 32-bit counters is the sign test while the true difference is within half the range. */
  lemma PopTestIsExact(tail: nat, deq: nat, stale: nat)
    requires 0 - HALF <= tail - (deq - stale) < HALF
    ensures LooksEmpty(WORD, Low(tail), Low(deq), Low(stale)) <==> LooksEmpty(0, tail, deq, stale)
  {
    LowDiff(deq, stale);
    LowDiff(tail, deq - stale);
  }

  /** The fullness test is exact for one producer: the true difference is between 1 and size + 1. */
  lemma PushTestIsExact<T>(s: State<T>)
    requires Inv(s) && s.push.Numbered? && |s.data| < WORD - 1
    ensures LooksFull(WORD, Low(s.push.enq), Low(s.push.revoke), Low(s.head), |s.data|) <==>
            LooksFull(0, s.push.enq, s.push.revoke, s.head, |s.data|)
  {
    AdmissionIsSafe(s);
    FullTestIsExact(s.push.enq, s.push.revoke, s.head, |s.data|);
  }

  lemma FullTestIsExact(enq: nat, revoke: nat, head: nat, size: nat)
    requires 0 <= enq - revoke - head <= size + 1 < WORD
    ensures LooksFull(WORD, Low(enq), Low(revoke), Low(head), size) <==> LooksFull(0, enq, revoke, head, size)
  {
    LowDiff(enq, revoke);
    LowDiff(enq - revoke, head);
  }

  /** 32-bit counters select the right ring slot for every count exactly if the ring size divides 2^32. */
  lemma SlotsSurviveWrapping(q: nat)
    requires q > 0
    ensures (forall c: nat :: Low(c) % q == c % q) <==> WORD % q == 0
  {
    if WORD % q == 0 {
      forall c: nat ensures Low(c) % q == c % q { SlotSurvives(c, q); }
    } else {
      assert Low(WORD) % q == 0;
    }
  }

  lemma SlotSurvives(c: nat, q: nat)
    requires q > 0 && WORD % q == 0
    ensures Low(c) % q == c % q
  {
    var k := WORD / q;
    assert c == Low(c) + q * (k * (c / WORD)) by { assert WORD == q * k; assert c == Low(c) + (q * k) * (c / WORD); }
    AddMultiple(Low(c), k * (c / WORD), q);
  }

  // --------------------------------------------------------------- simulation

  /** No call that is about to check has been overtaken by 2^31 items, or is 2^31 calls ahead. */
  ghost predicate HazardsBounded<T>(s: State<T>) {
    forall n :: 0 <= n < |s.pops| && s.pops[n].Counted? ==>
      0 - HALF <= s.tail - (s.pops[n].deq - s.pops[n].stale) < HALF
  }

  lemma PushStepWraps<T>(s: State<T>, step: Step<T>)
    requires Enabled(s, step)
    requires step.PushLoad? || step.PushCount? || step.PushCheck? || step.PushRevoke? || step.PushTake? ||
               step.PushWrite? || step.PushPublish?
    requires step.PushCheck? ==>
               (LooksFull(WORD, Low(s.push.enq), Low(s.push.revoke), Low(s.head), |s.data|) <==>
                LooksFull(0, s.push.enq, s.push.revoke, s.head, |s.data|))
    requires step.PushWrite? ==> Low(s.push.index) % |s.data| == s.push.index % |s.data|
    ensures Enabled(Wrap(s), step) && Apply(WORD, Wrap(s), step) == Wrap(Apply(0, s, step))
  {
    match step
    case PushCount => LowInc(s.enqCount);
    case PushRevoke => LowInc(s.enqRevoke);
    case PushTake => LowInc(s.tailFast);
    case PushPublish => LowInc(s.tail);
    case _ =>
  }

  lemma PopStartWraps<T>(s: State<T>, step: Step<T>)
    requires Enabled(s, step) && (step.PopLoad? || step.PopCount?)
    ensures Enabled(Wrap(s), step) && Apply(WORD, Wrap(s), step) == Wrap(Apply(0, s, step))
  {
    LowInc(s.deqCount);
    var a, b := Apply(WORD, Wrap(s), step), Wrap(Apply(0, s, step));
    assert a.loaded == b.loaded;
    assert a.pops == b.pops;
  }

  lemma PopStepWraps<T>(s: State<T>, step: Step<T>)
    requires Enabled(s, step)
    requires step.PopCheck? || step.PopRevoke? || step.PopTicket? || step.PopRead? || step.PopFinish?
    requires var c := s.pops[step.n];
             && (step.PopCheck? ==> (LooksEmpty(WORD, Low(s.tail), Low(c.deq), Low(c.stale)) <==>
                  LooksEmpty(0, s.tail, c.deq, c.stale)))
             && (step.PopRead? ==> Low(c.ticket) % |s.data| == c.ticket % |s.data|)
    ensures Enabled(Wrap(s), step) && Apply(WORD, Wrap(s), step) == Wrap(Apply(0, s, step))
  {
    WrapUpdate(s.pops, step.n, Apply(0, s, step).pops[step.n]);
    match step
    case PopRevoke(_) => LowInc(s.deqRevoke);
    case PopTicket(_) => LowInc(s.headFast);
    case PopFinish(_) => LowInc(s.head);
    case _ =>
  }

  /** One step of the 32-bit queue is one step of the unbounded queue, seen through Wrap. */
  lemma StepWraps<T>(s: State<T>, step: Step<T>)
    requires Inv(s) && Enabled(s, step) && HazardsBounded(s)
    requires |s.data| < WORD - 1 && WORD % |s.data| == 0
    ensures Enabled(Wrap(s), step) && Apply(WORD, Wrap(s), step) == Wrap(Apply(0, s, step))
  {
    if step.PopLoad? || step.PopCount? {
      PopStartWraps(s, step);
    } else if step.PopCheck? || step.PopRevoke? || step.PopTicket? || step.PopRead? || step.PopFinish? {
      if step.PopCheck? { PopTestIsExact(s.tail, s.pops[step.n].deq, s.pops[step.n].stale); }
      if step.PopRead? { SlotSurvives(s.pops[step.n].ticket, |s.data|); }
      PopStepWraps(s, step);
    } else {
      if step.PushCheck? { PushTestIsExact(s); }
      if step.PushWrite? { SlotSurvives(s.push.index, |s.data|); }
      PushStepWraps(s, step);
    }
  }

  /** A run of the 32-bit queue with steps `steps`, from an initial state. */
  ghost predicate IsWrappedRun<T>(trace: seq<State<T>>, steps: seq<Step<T>>) {
    && |trace| == |steps| + 1
    && Init(trace[0])
    && forall i :: 0 <= i < |steps| ==> Enabled(trace[i], steps[i]) && trace[i + 1] == Apply(WORD, trace[i], steps[i])
  }

  /** Whole runs: the 32-bit queue shows exactly the unbounded run, wrapped. kLocalQueueSize, 32, divides 2^32. */
  lemma {:induction false} RunWraps<T>(trace: seq<State<T>>, wrapped: seq<State<T>>, steps: seq<Step<T>>, i: nat)
    requires IsRun(trace, steps) && IsWrappedRun(wrapped, steps) && wrapped[0] == trace[0]
    requires |trace[0].data| < WORD - 1 && WORD % |trace[0].data| == 0
    requires forall j :: 0 <= j < |trace| ==> HazardsBounded(trace[j])
    requires i < |trace|
    ensures wrapped[i] == Wrap(trace[i]) && |trace[i].data| == |trace[0].data|
  {
    if i > 0 {
      RunWraps(trace, wrapped, steps, i - 1);
      EveryRunIsSafe(trace, steps, i - 1);
      StepWraps(trace[i - 1], steps[i - 1]);
    }
  }

  /** Whether a step can be taken shows in the stages of the calls alone. */
  lemma EnabledUnwraps<T>(s: State<T>, step: Step<T>)
    requires Enabled(Wrap(s), step)
    ensures Enabled(s, step)
  {}

  /**
    For every run of the 32-bit queue there is the run of the unbounded queue with the same steps, which shows it
    wrapped, up to the first state in which a call has been overtaken by 2^31 items, if there is one.
    */
  lemma {:induction false} WrappedRunUnwraps<T>(wrapped: seq<State<T>>, steps: seq<Step<T>>)
    returns (trace: seq<State<T>>, k: nat)
    requires IsWrappedRun(wrapped, steps)
    requires |wrapped[0].data| < WORD - 1 && WORD % |wrapped[0].data| == 0
    ensures k <= |steps| && IsRun(trace, steps[..k]) && trace[0] == wrapped[0]
    ensures forall j :: 0 <= j <= k ==> wrapped[j] == Wrap(trace[j])
    ensures forall j :: 0 <= j < k ==> HazardsBounded(trace[j])
    ensures k < |steps| ==> !HazardsBounded(trace[k])
  {
    if steps == [] {
      trace, k := wrapped, 0;
    } else {
      var n := |steps| - 1;
      ShorterRun(wrapped, steps, n);
      trace, k := WrappedRunUnwraps(wrapped[..n + 1], steps[..n]);
      assert steps[..n][..k] == steps[..k];
      if k == n && HazardsBounded(trace[n]) {
        var next := UnwrapOne(wrapped, steps, trace, n);
        trace, k := trace + [next], n + 1;
      }
    }
  }

  lemma UnwrapOne<T>(wrapped: seq<State<T>>, steps: seq<Step<T>>, trace: seq<State<T>>, n: nat) returns (next: State<T>)
    requires IsWrappedRun(wrapped, steps) && n < |steps|
    requires |wrapped[0].data| < WORD - 1 && WORD % |wrapped[0].data| == 0
    requires IsRun(trace, steps[..n]) && trace[0] == wrapped[0] && wrapped[n] == Wrap(trace[n])
    requires HazardsBounded(trace[n])
    ensures IsRun(trace + [next], steps[..n + 1]) && wrapped[n + 1] == Wrap(next)
  {
    EveryRunIsSafe(trace, steps[..n], n);
    SizeStays(trace, steps[..n], n);
    EnabledUnwraps(trace[n], steps[n]);
    StepWraps(trace[n], steps[n]);
    next := Apply(0, trace[n], steps[n]);
    RunExtends(trace, steps, n, next);
  }

  lemma ShorterRun<T>(wrapped: seq<State<T>>, steps: seq<Step<T>>, n: nat)
    requires IsWrappedRun(wrapped, steps) && n <= |steps|
    ensures IsWrappedRun(wrapped[..n + 1], steps[..n])
  {}

  lemma RunExtends<T>(trace: seq<State<T>>, steps: seq<Step<T>>, n: nat, next: State<T>)
    requires n < |steps| && IsRun(trace, steps[..n]) && Enabled(trace[n], steps[n])
    requires next == Apply(0, trace[n], steps[n])
    ensures IsRun(trace + [next], steps[..n + 1])
  {
    var r, t := trace + [next], steps[..n + 1];
    forall i | 0 <= i < |t| ensures Enabled(r[i], t[i]) && r[i + 1] == Apply(0, r[i], t[i]) {
      if i < n { assert t[i] == steps[..n][i]; }
    }
  }

  lemma {:induction false} SizeStays<T>(trace: seq<State<T>>, steps: seq<Step<T>>, i: nat)
    requires IsRun(trace, steps) && i < |trace|
    ensures |trace[i].data| == |trace[0].data|
  {
    if i > 0 {
      SizeStays(trace, steps, i - 1);
      assert trace[i - 1 + 1] == Apply(0, trace[i - 1], steps[i - 1]);
    }
  }
}
