/**
  FastLocalQueue: a ring with one producer and any number of consumers. Calls are
  admitted by counters that only grow, and a refused call is compensated by a
  "revoke". Each step below is one atomic operation or one access to the ring, of
  one call; steps of different calls interleave freely.
  */
module LocalQueue {
  import opened Arithmetic

  /**
    A `pop` call after its fetch_add on dequeue_count_. `deq` is the count it got and
    `stale` the revoke count it had read before. Calls that have only read the revoke
    count are kept in `State.loaded`.
    */
  datatype Pop<T> =
    | Counted(deq: nat, stale: nat)
    | Refused(deq: nat, stale: nat)
    | Revoked(deq: nat, stale: nat)
    | Admitted(deq: nat, stale: nat)
    | Reading(deq: nat, stale: nat, ticket: nat)
    | Holding(deq: nat, stale: nat, ticket: nat, value: T)
    | Done(deq: nat, stale: nat, ticket: nat, value: T)

  /** The producer's current `push` call. */
  datatype Push<T> =
    | Idle
    | Loaded(item: T, revoke: nat)
    | Numbered(item: T, revoke: nat, enq: nat)
    | Full
    | Accepted(item: T)
    | Placing(item: T, index: nat)
    | Written(index: nat)

  /**
    The queue. `written` lists every item stored into the ring, `delivered` every item
    handed out by finished pops, both in order; they only record history.
    */
  datatype State<T> = State(
    enqCount: nat, enqRevoke: nat, deqCount: nat, deqRevoke: nat,
    head: nat, tail: nat, headFast: nat, tailFast: nat,
    data: seq<T>,
    push: Push<T>, loaded: seq<nat>, pops: seq<Pop<T>>,
    written: seq<T>, delivered: seq<T>)

  datatype Step<T> =
    | PushLoad(item: T) | PushCount | PushCheck | PushRevoke | PushTake | PushWrite | PushPublish
    | PopLoad | PopCount(at: nat) | PopCheck(n: nat) | PopRevoke(n: nat)
    | PopTicket(n: nat) | PopRead(n: nat) | PopFinish(n: nat)

  // Counter arithmetic: unbounded for m == 0, modulo m otherwise.

  function Inc(m: nat, x: nat): nat { if m == 0 then x + 1 else (x + 1) % m }

  function Diff(m: nat, x: int, y: int): int { if m == 0 then x - y else (x - y) % m }

  /** The test of `push`: more than `size` places would be in use. */
  predicate LooksFull(m: nat, enq: nat, revoke: nat, head: nat, size: nat) {
    Diff(m, Diff(m, enq, revoke), head) > size
  }

  /** The test of `pop`: the difference is negative, which modulo m shows as the upper half of the range. */
  predicate LooksEmpty(m: nat, tail: nat, deq: nat, stale: nat) {
    var d := Diff(m, tail, Diff(m, deq, stale));
    if m == 0 then d < 0 else d > m / 2 - 1
  }

  predicate Enabled<T>(s: State<T>, step: Step<T>) {
    match step
    case PushLoad(_) => s.push.Idle?
    case PushCount => s.push.Loaded?
    case PushCheck => s.push.Numbered?
    case PushRevoke => s.push.Full?
    case PushTake => s.push.Accepted?
    case PushWrite => s.push.Placing? && |s.data| > 0
    case PushPublish => s.push.Written?
    case PopLoad => true
    case PopCount(i) => i < |s.loaded|
    case PopCheck(n) => n < |s.pops| && s.pops[n].Counted?
    case PopRevoke(n) => n < |s.pops| && s.pops[n].Refused?
    case PopTicket(n) => n < |s.pops| && s.pops[n].Admitted?
    case PopRead(n) => n < |s.pops| && s.pops[n].Reading? && |s.data| > 0
    case PopFinish(n) => n < |s.pops| && s.pops[n].Holding?
  }

  function Apply<T>(m: nat, s: State<T>, step: Step<T>): State<T>
    requires Enabled(s, step)
  {
    match step
    case PushLoad(x) => s.(push := Loaded(x, s.enqRevoke))
    case PushCount =>
      s.(enqCount := Inc(m, s.enqCount), push := Numbered(s.push.item, s.push.revoke, Inc(m, s.enqCount)))
    case PushCheck =>
      s.(push := if LooksFull(m, s.push.enq, s.push.revoke, s.head, |s.data|) then Full else Accepted(s.push.item))
    case PushRevoke => s.(enqRevoke := Inc(m, s.enqRevoke), push := Idle)
    case PushTake => s.(tailFast := Inc(m, s.tailFast), push := Placing(s.push.item, s.tailFast))
    case PushWrite =>
      s.(data := s.data[s.push.index % |s.data| := s.push.item], push := Written(s.push.index),
        written := s.written + [s.push.item])
    case PushPublish => s.(tail := Inc(m, s.tail), push := Idle)
    case PopLoad => s.(loaded := s.loaded + [s.deqRevoke])
    case PopCount(i) =>
      s.(deqCount := Inc(m, s.deqCount), loaded := s.loaded[..i] + s.loaded[i + 1..],
         pops := s.pops + [Counted(Inc(m, s.deqCount), s.loaded[i])])
    case PopCheck(n) =>
      var c := s.pops[n];
      var empty := LooksEmpty(m, s.tail, c.deq, c.stale);
      var checked := if empty then Refused(c.deq, c.stale) else Admitted(c.deq, c.stale);
      s.(pops := s.pops[n := checked])
    case PopRevoke(n) =>
      s.(deqRevoke := Inc(m, s.deqRevoke), pops := s.pops[n := Revoked(s.pops[n].deq, s.pops[n].stale)])
    case PopTicket(n) =>
      s.(headFast := Inc(m, s.headFast), pops := s.pops[n := Reading(s.pops[n].deq, s.pops[n].stale, s.headFast)])
    case PopRead(n) =>
      var c := s.pops[n];
      s.(pops := s.pops[n := Holding(c.deq, c.stale, c.ticket, s.data[c.ticket % |s.data|])])
    case PopFinish(n) =>
      var c := s.pops[n];
      s.(head := Inc(m, s.head), pops := s.pops[n := Done(c.deq, c.stale, c.ticket, c.value)],
        delivered := s.delivered + [c.value])
  }

  ghost predicate Init<T>(s: State<T>) {
    && s.enqCount == s.enqRevoke == s.deqCount == s.deqRevoke == 0
    && s.head == s.tail == s.headFast == s.tailFast == 0
    && |s.data| > 0
    && s.push.Idle? && s.loaded == [] && s.pops == [] && s.written == [] && s.delivered == []
  }

  // ------------------------------------------------------------------ counting

  predicate IsRevoked<T>(c: Pop<T>) { c.Revoked? }
  predicate IsAdmitted<T>(c: Pop<T>) { c.Admitted? || c.Reading? || c.Holding? || c.Done? }
  predicate HasTicket<T>(c: Pop<T>) { c.Reading? || c.Holding? || c.Done? }
  predicate IsDone<T>(c: Pop<T>) { c.Done? }

  ghost function Count<T>(pops: seq<Pop<T>>, f: Pop<T> -> bool): nat {
    if pops == [] then 0 else Count(pops[..|pops| - 1], f) + if f(pops[|pops| - 1]) then 1 else 0
  }

  lemma CountAppend<T>(pops: seq<Pop<T>>, c: Pop<T>, f: Pop<T> -> bool)
    ensures Count(pops + [c], f) == Count(pops, f) + if f(c) then 1 else 0
  {
    assert (pops + [c])[..|pops|] == pops;
  }

  lemma {:induction false} CountUpdate<T>(pops: seq<Pop<T>>, n: nat, c: Pop<T>, f: Pop<T> -> bool)
    requires n < |pops|
    ensures Count(pops[n := c], f) + (if f(pops[n]) then 1 else 0) == Count(pops, f) + (if f(c) then 1 else 0)
  {
    var last := |pops| - 1;
    if n == last {
      assert pops[n := c][..last] == pops[..last];
    } else {
      CountUpdate(pops[..last], n, c, f);
      assert pops[n := c][..last] == pops[..last][n := c];
    }
  }

  /** In any prefix, those admitted and those revoked are different calls. */
  lemma {:induction false} AdmittedOrRevoked<T>(pops: seq<Pop<T>>)
    ensures Count(pops, IsAdmitted) + Count(pops, IsRevoked) <= |pops|
    ensures Count(pops, IsDone) <= Count(pops, HasTicket) <= Count(pops, IsAdmitted)
  {
    if pops != [] { AdmittedOrRevoked(pops[..|pops| - 1]); }
  }

  // ----------------------------------------------------------------- invariant

  /** What a call knows: its number, and a revoke count no greater than the revokes of earlier calls. */
  ghost predicate CallOk<T>(s: State<T>, n: nat)
    requires n < |s.pops|
  {
    var c := s.pops[n];
    && c.deq == n + 1
    && c.stale <= Count(s.pops[..n], IsRevoked)
    && (IsAdmitted(c) ==> c.deq - c.stale <= s.tail)
    && (HasTicket(c) ==> c.ticket < s.headFast)
  }

  ghost predicate ConsumersOk<T>(s: State<T>) {
    && s.deqCount == |s.pops|
    && s.deqRevoke == Count(s.pops, IsRevoked)
    && s.headFast == Count(s.pops, HasTicket)
    && s.head == Count(s.pops, IsDone)
    && (forall i :: 0 <= i < |s.loaded| ==> s.loaded[i] <= s.deqRevoke)
    && (forall n {:trigger CallOk(s, n)} :: 0 <= n < |s.pops| ==> CallOk(s, n))
    && (forall i, j :: 0 <= i < j < |s.pops| && HasTicket(s.pops[i]) && HasTicket(s.pops[j]) ==>
         s.pops[i].ticket != s.pops[j].ticket)
  }

  /** One if an item has been let in and is not yet published. */
  function InFlight<T>(p: Push<T>): nat { if p.Accepted? || p.Placing? || p.Written? then 1 else 0 }

  ghost predicate ProducerOk<T>(s: State<T>) {
    && s.enqCount == s.enqRevoke + s.tail + InFlight(s.push) + (if s.push.Numbered? || s.push.Full? then 1 else 0)
    && (s.push.Loaded? || s.push.Numbered? ==> s.push.revoke == s.enqRevoke)
    && (s.push.Numbered? ==> s.push.enq == s.enqCount)
    && s.tail + InFlight(s.push) <= s.head + |s.data|
    && s.tailFast == s.tail + (if s.push.Placing? || s.push.Written? then 1 else 0)
    && (s.push.Placing? || s.push.Written? ==> s.push.index == s.tail)
    && |s.written| == s.tail + (if s.push.Written? then 1 else 0)
  }

  /** The ring holds the last |data| items written. */
  ghost predicate RingOk<T>(s: State<T>) {
    && |s.data| > 0
    && forall w :: 0 <= w < |s.written| && |s.written| - |s.data| <= w ==> s.data[w % |s.data|] == s.written[w]
  }

  ghost predicate Inv<T>(s: State<T>) {
    ConsumersOk(s) && ProducerOk(s) && RingOk(s)
  }

  // -------------------------------------------------------- admission theorem

  lemma {:induction false} AdmittedInPrefix<T>(s: State<T>, m: nat)
    requires ConsumersOk(s) && m <= |s.pops|
    ensures Count(s.pops[..m], IsAdmitted) <= s.tail
  {
    if m > 0 {
      var n := m - 1;
      assert s.pops[..m][..n] == s.pops[..n];
      assert CallOk(s, n);
      if IsAdmitted(s.pops[n]) {
        AdmittedOrRevoked(s.pops[..n]);
      } else {
        AdmittedInPrefix(s, n);
      }
    }
  }

  /**
    Consumers that passed the check never outnumber the published items, so that
    head <= headFast <= admitted <= tail <= head + size, whatever the interleaving.
    */
  lemma AdmissionIsSafe<T>(s: State<T>)
    requires Inv(s)
    ensures s.head <= s.headFast <= Count(s.pops, IsAdmitted) <= s.tail <= s.head + |s.data|
    ensures forall n :: 0 <= n < |s.pops| && HasTicket(s.pops[n]) ==> s.pops[n].ticket < s.tail
  {
    AdmittedInPrefix(s, |s.pops|);
    assert s.pops[..|s.pops|] == s.pops;
    AdmittedOrRevoked(s.pops);
    forall n | 0 <= n < |s.pops| && HasTicket(s.pops[n]) ensures s.pops[n].ticket < s.tail { assert CallOk(s, n); }
  }

  // -------------------------------------------------- every step keeps it

  function One(b: bool): nat { if b then 1 else 0 }

  lemma RevokedInPrefix<T>(pops: seq<Pop<T>>, n: nat, c: Pop<T>, k: nat)
    requires n < |pops| && k <= |pops| && !pops[n].Revoked?
    ensures Count(pops[..k], IsRevoked) <= Count(pops[n := c][..k], IsRevoked)
  {
    if k <= n {
      assert pops[n := c][..k] == pops[..k];
    } else {
      assert pops[n := c][..k] == pops[..k][n := c];
      CountUpdate(pops[..k], n, c, IsRevoked);
    }
  }

  /** A call moves to its next stage and updates at most one counter. */
  lemma AdvanceKeepsConsumers<T>(s: State<T>, t: State<T>, n: nat, c: Pop<T>)
    requires ConsumersOk(s) && n < |s.pops| && t.pops == s.pops[n := c] && t.loaded == s.loaded
    requires c.deq == s.pops[n].deq && c.stale == s.pops[n].stale && !s.pops[n].Revoked?
    requires t.tail >= s.tail && t.deqCount == s.deqCount
    requires t.deqRevoke == s.deqRevoke + One(IsRevoked(c))
    requires t.headFast + One(HasTicket(s.pops[n])) == s.headFast + One(HasTicket(c)) && t.headFast >= s.headFast
    requires t.head + One(IsDone(s.pops[n])) == s.head + One(IsDone(c))
    requires IsAdmitted(c) ==> c.deq - c.stale <= t.tail
    requires HasTicket(c) ==> c.ticket == if HasTicket(s.pops[n]) then s.pops[n].ticket else s.headFast
    ensures ConsumersOk(t)
  {
    CountUpdate(s.pops, n, c, IsRevoked);
    CountUpdate(s.pops, n, c, HasTicket);
    CountUpdate(s.pops, n, c, IsDone);
    assert CallOk(s, n);
    forall k | 0 <= k < |t.pops| ensures CallOk(t, k) {
      assert CallOk(s, k);
      RevokedInPrefix(s.pops, n, c, k);
    }
    forall i, j | 0 <= i < j < |t.pops| && HasTicket(t.pops[i]) && HasTicket(t.pops[j])
      ensures t.pops[i].ticket != t.pops[j].ticket
    {
      assert CallOk(s, i) && CallOk(s, j);
    }
  }

  lemma PublishKeepsConsumers<T>(s: State<T>, t: State<T>)
    requires ConsumersOk(s) && t.pops == s.pops && t.loaded == s.loaded && t.tail >= s.tail
    requires t.deqCount == s.deqCount && t.deqRevoke == s.deqRevoke && t.head == s.head && t.headFast == s.headFast
    ensures ConsumersOk(t)
  {
    forall k | 0 <= k < |t.pops| ensures CallOk(t, k) { assert CallOk(s, k); }
  }

  lemma CountKeepsConsumers<T>(s: State<T>, at: nat)
    requires ConsumersOk(s) && at < |s.loaded|
    ensures ConsumersOk(Apply(0, s, PopCount(at)))
  {
    var t := Apply(0, s, PopCount(at));
    var c: Pop<T> := Counted(s.deqCount + 1, s.loaded[at]);
    CountAppend(s.pops, c, IsRevoked);
    CountAppend(s.pops, c, HasTicket);
    CountAppend(s.pops, c, IsDone);
    forall k | 0 <= k < |t.pops| ensures CallOk(t, k) {
      assert t.pops[..k] == s.pops[..k];
      if k < |s.pops| { assert CallOk(s, k); } else { assert s.pops[..k] == s.pops; }
    }
  }

  lemma PopStepKeeps<T>(s: State<T>, step: Step<T>)
    requires Inv(s) && Enabled(s, step)
    requires (step.PopCheck? || step.PopRevoke? || step.PopTicket? || step.PopRead? || step.PopFinish?)
    ensures Inv(Apply(0, s, step))
  {
    assert CallOk(s, step.n);
    var t := Apply(0, s, step);
    AdvanceKeepsConsumers(s, t, step.n, t.pops[step.n]);
  }

  lemma WriteKeepsRing<T>(s: State<T>)
    requires Inv(s) && s.push.Placing?
    ensures RingOk(Apply(0, s, PushWrite))
  {
    var t := Apply(0, s, PushWrite);
    var q, i := |s.data|, s.push.index;
    forall w | 0 <= w < |t.written| && |t.written| - q <= w ensures t.data[w % q] == t.written[w] {
      if w < i { ModDiffers(w, i, q); }
    }
  }

  lemma PushStepKeeps<T>(s: State<T>, step: Step<T>)
    requires Inv(s) && Enabled(s, step)
    requires step.PushLoad? || step.PushCount? || step.PushCheck? || step.PushRevoke? || step.PushTake? ||
               step.PushWrite? || step.PushPublish?
    ensures Inv(Apply(0, s, step))
  {
    PublishKeepsConsumers(s, Apply(0, s, step));
    if step.PushWrite? { WriteKeepsRing(s); }
  }

  /** One invariant for every atomic step of every call. */
  lemma StepKeeps<T>(s: State<T>, step: Step<T>)
    requires Inv(s) && Enabled(s, step)
    ensures Inv(Apply(0, s, step))
  {
    match step
    case PopLoad =>
      var t := Apply(0, s, step);
      forall k | 0 <= k < |t.pops| ensures CallOk(t, k) { assert CallOk(s, k); }
    case PopCount(at) => CountKeepsConsumers(s, at);
    case PopCheck(_) => PopStepKeeps(s, step);
    case PopRevoke(_) => PopStepKeeps(s, step);
    case PopTicket(_) => PopStepKeeps(s, step);
    case PopRead(_) => PopStepKeeps(s, step);
    case PopFinish(_) => PopStepKeeps(s, step);
    case _ => PushStepKeeps(s, step);
  }

  // ------------------------------------------------------------------- runs

  ghost predicate IsRun<T>(trace: seq<State<T>>, steps: seq<Step<T>>) {
    && |trace| == |steps| + 1
    && Init(trace[0])
    && forall i :: 0 <= i < |steps| ==> Enabled(trace[i], steps[i]) && trace[i + 1] == Apply(0, trace[i], steps[i])
  }

  /** Every state of every interleaving satisfies the invariant, hence admission safety. */
  lemma {:induction false} EveryRunIsSafe<T>(trace: seq<State<T>>, steps: seq<Step<T>>, i: nat)
    requires IsRun(trace, steps) && i < |trace|
    ensures Inv(trace[i])
    ensures var s := trace[i]; s.head <= s.headFast <= Count(s.pops, IsAdmitted) <= s.tail <= s.head + |s.data|
  {
    if i > 0 {
      EveryRunIsSafe(trace, steps, i - 1);
      StepKeeps(trace[i - 1], steps[i - 1]);
    }
    AdmissionIsSafe(trace[i]);
  }

  /** Nothing is going on: every call has returned. */
  ghost predicate Quiescent<T>(s: State<T>) {
    s.push.Idle? && s.loaded == [] && forall n :: 0 <= n < |s.pops| ==> s.pops[n].Done? || s.pops[n].Revoked?
  }

  lemma {:induction false} DoneOrRevoked<T>(pops: seq<Pop<T>>)
    requires forall n :: 0 <= n < |pops| ==> pops[n].Done? || pops[n].Revoked?
    ensures Count(pops, IsDone) + Count(pops, IsRevoked) == |pops|
    ensures Count(pops, IsDone) == Count(pops, HasTicket)
  {
    if pops != [] { DoneOrRevoked(pops[..|pops| - 1]); }
  }

  /** When nothing is going on the compensated counts are exact: revocations leave no drift. */
  lemma RevokesLeaveNoDrift<T>(s: State<T>)
    requires Inv(s) && Quiescent(s)
    ensures s.deqCount - s.deqRevoke == s.head == s.headFast
    ensures s.enqCount - s.enqRevoke == s.tail == s.tailFast == |s.written|
  {
    DoneOrRevoked(s.pops);
  }

  // ------------------------------------------------------------ what is read

  /** The newest item in the ring slot of ticket t, once w items have been written. */
  function Newest(t: nat, w: nat, q: nat): nat
    requires q > 0 && t < w
  {
    t + q * ((w - 1 - t) / q)
  }

  lemma NewestIsNewest(t: nat, w: nat, q: nat)
    requires q > 0 && t < w
    ensures t <= Newest(t, w, q) < w && w - q <= Newest(t, w, q) && Newest(t, w, q) % q == t % q
    ensures Newest(t, w, q) == t <==> w <= t + q
  {
    var d := (w - 1 - t) / q;
    assert w - 1 - t == q * d + (w - 1 - t) % q;
    TimesAtLeast(q, d);
    AddMultiple(t, d, q);
  }

  /**
    A read returns the newest item of its slot; that is the ticket's own item exactly if the producer has not lapped
    the ticket.
    */
  lemma ReadReturnsNewest<T>(s: State<T>, n: nat)
    requires Inv(s) && Enabled(s, PopRead(n))
    ensures var t := s.pops[n].ticket;
            var w := |s.written|;
            && t < w
            && Apply(0, s, PopRead(n)).pops[n].value == s.written[Newest(t, w, |s.data|)]
            && (Newest(t, w, |s.data|) == t <==> w <= t + |s.data|)
  {
    AdmissionIsSafe(s);
    NewestIsNewest(s.pops[n].ticket, |s.written|, |s.data|);
  }

  // ------------------------------------------------- who is let in, exactly

  predicate IsPending<T>(c: Pop<T>) { c.Counted? || c.Refused? }

  lemma {:induction false} CallsAreOfThreeSorts<T>(pops: seq<Pop<T>>)
    ensures Count(pops, IsAdmitted) + Count(pops, IsRevoked) + Count(pops, IsPending) == |pops|
  {
    if pops != [] { CallsAreOfThreeSorts(pops[..|pops| - 1]); }
  }

  /**
    In any interleaving a check refuses exactly if the items published are no more than the earlier calls that were
    admitted or are undecided, and those whose revoke the call has not seen.
    */
  lemma CheckRefusesExactly<T>(s: State<T>, n: nat)
    requires Inv(s) && Enabled(s, PopCheck(n))
    ensures var earlier := s.pops[..n];
            var unseen := Count(earlier, IsRevoked) - s.pops[n].stale;
            && unseen >= 0
            && (Apply(0, s, PopCheck(n)).pops[n].Refused? <==>
                  s.tail <= Count(earlier, IsAdmitted) + Count(earlier, IsPending) + unseen)
            && (!Apply(0, s, PopCheck(n)).pops[n].Refused? ==> Apply(0, s, PopCheck(n)).pops[n].Admitted?)
  {
    assert CallOk(s, n);
    CallsAreOfThreeSorts(s.pops[..n]);
  }

  /** The first steps of a pop, taken without another step in between. */
  function PopTried<T>(s: State<T>): State<T>
    requires |s.pops| == s.deqCount
  {
    var counted := Apply(0, Apply(0, s, PopLoad), PopCount(|s.loaded|));
    Apply(0, counted, PopCheck(|s.pops|))
  }

  /** Whatever other calls are under way, such a pop is let in exactly if earlier calls leave an item for it. */
  lemma PopIsLetInExactly<T>(s: State<T>)
    requires Inv(s)
    ensures var c := PopTried(s).pops[|s.pops|];
            && (c.Admitted? <==> Count(s.pops, IsAdmitted) + Count(s.pops, IsPending) < s.tail)
            && (c.Admitted? || c.Refused?)
  {
    var loaded := Apply(0, s, PopLoad);
    var counted := Apply(0, loaded, PopCount(|s.loaded|));
    StepKeeps(s, PopLoad);
    StepKeeps(loaded, PopCount(|s.loaded|));
    CheckRefusesExactly(counted, |s.pops|);
    assert counted.pops[..|s.pops|] == s.pops;
  }

  lemma {:induction false} NonePending<T>(pops: seq<Pop<T>>)
    requires forall n :: 0 <= n < |pops| ==> pops[n].Done? || pops[n].Revoked?
    ensures Count(pops, IsPending) == 0 && Count(pops, IsAdmitted) == Count(pops, IsDone)
  {
    if pops != [] { NonePending(pops[..|pops| - 1]); }
  }

  /** At rest it is let in exactly if an item is published and not delivered. */
  lemma PopAtRest<T>(s: State<T>)
    requires Inv(s) && Quiescent(s)
    ensures PopTried(s).pops[|s.pops|].Admitted? <==> s.head < s.tail
  {
    PopIsLetInExactly(s);
    NonePending(s.pops);
  }

  /** And then the whole call delivers the oldest item not delivered yet. */
  lemma WholePopAtRest<T>(s: State<T>)
    requires Inv(s) && Quiescent(s) && s.head < s.tail
    ensures var n := |s.pops|;
            var t := PopTried(s);
            && Enabled(t, PopTicket(n)) && Enabled(Apply(0, t, PopTicket(n)), PopRead(n))
            && var r := Apply(0, Apply(0, t, PopTicket(n)), PopRead(n));
               && Enabled(r, PopFinish(n)) && s.head < |s.written|
               && Apply(0, r, PopFinish(n)).delivered == s.delivered + [s.written[s.head]]
               && Apply(0, r, PopFinish(n)).head == s.head + 1
  {
    PopAtRest(s);
    var n, t := |s.pops|, PopTried(s);
    TriedKeeps(s);
    var ticketed := Apply(0, t, PopTicket(n));
    StepKeeps(t, PopTicket(n));
    RevokesLeaveNoDrift(s);
    AdmissionIsSafe(s);
    ReadReturnsNewest(ticketed, n);
  }

  lemma TriedKeeps<T>(s: State<T>)
    requires Inv(s)
    ensures Inv(PopTried(s)) && |PopTried(s).pops| == |s.pops| + 1
    ensures var t := PopTried(s);
            && t.headFast == s.headFast && t.head == s.head && t.tail == s.tail && t.data == s.data
            && t.written == s.written && t.delivered == s.delivered
  {
    var loaded := Apply(0, s, PopLoad);
    var counted := Apply(0, loaded, PopCount(|s.loaded|));
    StepKeeps(s, PopLoad);
    StepKeeps(loaded, PopCount(|s.loaded|));
    StepKeeps(counted, PopCheck(|s.pops|));
  }

  /** The first steps of a push, likewise. */
  function PushTried<T>(s: State<T>, x: T): State<T>
    requires s.push.Idle?
  {
    Apply(0, Apply(0, Apply(0, s, PushLoad(x)), PushCount), PushCheck)
  }

  /**
    Whatever pops are under way, a push is let in exactly if fewer items are published and unfinished than the ring
    holds.
    */
  lemma PushIsLetInExactly<T>(s: State<T>, x: T)
    requires Inv(s) && s.push.Idle?
    ensures s.tail - s.head < |s.data| ==> PushTried(s, x).push == Accepted(x)
    ensures s.tail - s.head >= |s.data| ==> PushTried(s, x).push == Full
  {}

  /** And then the whole call publishes the item last. */
  lemma WholePush<T>(s: State<T>, x: T)
    requires Inv(s) && s.push.Idle? && s.tail - s.head < |s.data|
    ensures var t := PushTried(s, x);
            && Enabled(t, PushTake) && Enabled(Apply(0, t, PushTake), PushWrite)
            && Enabled(Apply(0, Apply(0, t, PushTake), PushWrite), PushPublish)
            && var r := Apply(0, Apply(0, Apply(0, t, PushTake), PushWrite), PushPublish);
               r.written == s.written + [x] && r.tail == s.tail + 1 == |r.written| && r.push.Idle?
  {
    PushIsLetInExactly(s, x);
  }
}
