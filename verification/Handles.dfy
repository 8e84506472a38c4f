/**
  Producer handles and the tokens of local queues. Handles take a token from the free list or create a queue, give a
  full queue's token back and create another, and give their token back when they end; calls interleave freely.
  A local queue is safe only with one producer, so no token may be in use twice, or in use and free.
  */
module Handles {
  import opened Sequences

  const FREE_LIST_SIZE := 50   // kFreeListSize
  const QUEUE_MAX := 100       // kQueueMaxCount
  const ATTEMPTS: nat := 9     // a retry loop counts 10 down before each attempt

  /** Where a handle's own code is; a null local_ is all but Using and Moving. */
  datatype Handle =
    | Applying(left: nat)               // asking the free list
    | Creating(left: nat)               // asking for a new queue, having none
    | NoQueue                           // all attempts failed
    | Using(token: nat, pushing: bool)  // may push into queue `token`, or is inside a push
    | Moving(token: nat, left: nat)     // has given a full queue's token back and asks for a new queue
    | Dead

  datatype State = State(end: nat, free: seq<nat>, handles: seq<Handle>)

  datatype Step =
    | New
    | Again(h: nat)                     // push_hard through a handle without queue
    | Apply(h: nat, i: nat)             // one FreeList.pop, yielding item i
    | Create(h: nat)                    // one create_queue
    | BeginPush(h: nat)
    | EndPush(h: nat)
    | GiveBack(h: nat)                  // a full queue's token goes to the free list
    | Destroy(h: nat)

  const START := State(0, [], [])

  ghost predicate Enabled(s: State, step: Step) {
    match step
    case New => true
    case Again(h) => h < |s.handles| && s.handles[h].NoQueue?
    case Apply(h, i) =>
      h < |s.handles| && s.handles[h].Applying? && s.handles[h].left > 0 && (s.free != [] ==> i < |s.free|)
    case Create(h) => h < |s.handles| && (s.handles[h].Creating? || s.handles[h].Moving?) && s.handles[h].left > 0
    case BeginPush(h) => h < |s.handles| && s.handles[h].Using? && !s.handles[h].pushing
    case EndPush(h) => h < |s.handles| && s.handles[h].Using? && s.handles[h].pushing
    case GiveBack(h) => h < |s.handles| && s.handles[h].Using? && !s.handles[h].pushing
    case Destroy(h) => h < |s.handles| && (s.handles[h].NoQueue? || (s.handles[h].Using? && !s.handles[h].pushing))
  }

  /** SlowQueue::push: a full list drops the token. */
  function Returned(free: seq<nat>, token: nat): seq<nat> {
    if |free| < FREE_LIST_SIZE then free + [token] else free
  }

  /** The end of a failed attempt to create a queue. */
  function Failed(h: Handle): Handle
    requires (h.Creating? || h.Moving?) && h.left > 0
  {
    match h
    case Creating(n) => if n == 1 then NoQueue else Creating(n - 1)
    case Moving(t, n) => if n == 1 then Using(t, false) else Moving(t, n - 1)
  }

  ghost function Next(s: State, step: Step): State
    requires Enabled(s, step)
  {
    match step
    case New => s.(handles := s.handles + [Applying(ATTEMPTS)])
    case Again(h) => s.(handles := s.handles[h := Applying(ATTEMPTS)])
    case Apply(h, i) =>
      var n := s.handles[h].left;
      if s.free == [] then s.(handles := s.handles[h := if n == 1 then Creating(ATTEMPTS) else Applying(n - 1)])
      else s.(free := s.free[..i] + s.free[i + 1..], handles := s.handles[h := Using(s.free[i], false)])
    case Create(h) =>
      if s.end < QUEUE_MAX then s.(end := s.end + 1, handles := s.handles[h := Using(s.end, false)])
      else s.(end := s.end + 1, handles := s.handles[h := Failed(s.handles[h])])
    case BeginPush(h) => s.(handles := s.handles[h := s.handles[h].(pushing := true)])
    case EndPush(h) => s.(handles := s.handles[h := s.handles[h].(pushing := false)])
    case GiveBack(h) =>
      var t := s.handles[h].token;
      s.(free := Returned(s.free, t), handles := s.handles[h := Moving(t, ATTEMPTS)])
    case Destroy(h) =>
      if s.handles[h].NoQueue? then s.(handles := s.handles[h := Dead])
      else s.(free := Returned(s.free, s.handles[h].token), handles := s.handles[h := Dead])
  }

  // ---------------------------------------------------------------- discipline

  /** No token is used by two handles. */
  ghost predicate OneProducer(handles: seq<Handle>) {
    forall g, h :: 0 <= g < h < |handles| && handles[g].Using? && handles[h].Using? ==>
      handles[g].token != handles[h].token
  }

  /** No token is used and free. */
  ghost predicate UsedOrFree(handles: seq<Handle>, free: seq<nat>) {
    forall h :: 0 <= h < |handles| && handles[h].Using? ==> handles[h].token !in free
  }

  ghost predicate Disciplined(s: State) {
    Distinct(s.free) && OneProducer(s.handles) && UsedOrFree(s.handles, s.free)
  }

  /** Tokens are those of queues created, and the free list keeps its bound. */
  ghost predicate Known(s: State) {
    && |s.free| <= FREE_LIST_SIZE
    && (forall i :: 0 <= i < |s.free| ==> s.free[i] < s.end && s.free[i] < QUEUE_MAX)
    && (forall h :: 0 <= h < |s.handles| && (s.handles[h].Using? || s.handles[h].Moving?) ==>
          s.handles[h].token < s.end && s.handles[h].token < QUEUE_MAX)
  }

  ghost predicate Inv(s: State) { Known(s) && Disciplined(s) }

  /** The token that handle h has given back is free again, or another handle has taken it. */
  ghost predicate Reclaimed(s: State, h: nat)
    requires h < |s.handles| && s.handles[h].Moving?
  {
    || s.handles[h].token in s.free
    || exists g :: 0 <= g < |s.handles| && s.handles[g].Using? && s.handles[g].token == s.handles[h].token
  }

  /** A move that gives up: no queue can be created any more, so the handle goes on with the queue it gave back. */
  ghost predicate FallsBack(s: State, step: Step)
    requires Enabled(s, step)
  {
    step.Create? && s.end >= QUEUE_MAX && s.handles[step.h].Moving? && s.handles[step.h].left == 1
  }

  lemma StepKeepsKnown(s: State, step: Step)
    requires Known(s) && Enabled(s, step)
    ensures Known(Next(s, step))
  {}

  lemma ReturnKeeps(free: seq<nat>, t: nat)
    requires Distinct(free) && t !in free
    ensures Distinct(Returned(free, t))
  {}

  lemma RemoveKeeps(free: seq<nat>, i: nat)
    requires Distinct(free) && i < |free|
    ensures Distinct(free[..i] + free[i + 1..]) && free[i] !in free[..i] + free[i + 1..]
    ensures forall t :: t in free[..i] + free[i + 1..] ==> t in free
  {}

  /** Every step keeps the discipline, except exactly a fall-back onto a token that was reclaimed. */
  lemma StepKeepsUnlessReclaimed(s: State, step: Step)
    requires Inv(s) && Enabled(s, step)
    ensures Known(Next(s, step))
    ensures Disciplined(Next(s, step)) <==> !(FallsBack(s, step) && Reclaimed(s, step.h))
  {
    StepKeepsKnown(s, step);
    match step
    case Apply(h, i) => if s.free != [] { RemoveKeeps(s.free, i); }
    case GiveBack(h) => ReturnKeeps(s.free, s.handles[h].token);
    case Destroy(h) => if s.handles[h].Using? { ReturnKeeps(s.free, s.handles[h].token); }
    case Create(h) =>
      if FallsBack(s, step) && Reclaimed(s, h) { FallBackBreaks(s, h); }
    case _ =>
  }

  lemma FallBackBreaks(s: State, h: nat)
    requires h < |s.handles| && Enabled(s, Create(h)) && FallsBack(s, Create(h)) && Reclaimed(s, h)
    ensures !Disciplined(Next(s, Create(h)))
  {
    var n := Next(s, Create(h));
    var t := s.handles[h].token;
    assert n.handles[h] == Using(t, false);
    if t !in s.free {
      var g :| 0 <= g < |s.handles| && s.handles[g].Using? && s.handles[g].token == t;
      assert n.handles[g] == s.handles[g] && g != h;
    }
  }

  // ---------------------------------------------------------------------- runs

  ghost predicate IsRun(run: seq<State>) {
    && run != []
    && forall i :: 0 <= i < |run| - 1 ==> exists step :: Enabled(run[i], step) && run[i + 1] == Next(run[i], step)
  }

  lemma EndGrows(s: State, step: Step)
    requires Enabled(s, step)
    ensures s.end <= Next(s, step).end
  {}

  /**
    While no attempt to create a queue has failed, every state of every run has one producer per queue, whatever the
    free list drops.
    */
  lemma {:induction false} EveryRunIsDisciplined(run: seq<State>, n: nat)
    requires IsRun(run) && run[0] == START && n < |run| && run[n].end <= QUEUE_MAX
    ensures Inv(run[n])
  {
    if n > 0 {
      var step :| Enabled(run[n - 1], step) && run[n - 1 + 1] == Next(run[n - 1], step);
      EndGrows(run[n - 1], step);
      EveryRunIsDisciplined(run, n - 1);
      StepKeepsUnlessReclaimed(run[n - 1], step);
    }
  }

  /** So each local queue has a single producer: no two handles are inside a push on the same queue. */
  lemma OnePushPerQueue(run: seq<State>, n: nat, g: nat, h: nat)
    requires IsRun(run) && run[0] == START && n < |run| && run[n].end <= QUEUE_MAX
    requires g < |run[n].handles| && h < |run[n].handles|
    requires var (a, b) := (run[n].handles[g], run[n].handles[h]);
             a.Using? && a.pushing && b.Using? && b.pushing && a.token == b.token
    ensures g == h
  {
    EveryRunIsDisciplined(run, n);
  }

  // ------------------------------------------------- what handles obtain and give

  /** A token that is given back, by a full handle or one that ends, is free afterwards unless 50 are free already. */
  lemma TokenComesBack(s: State, h: nat, step: Step)
    requires Inv(s) && Enabled(s, step) && (step == GiveBack(h) || step == Destroy(h)) && s.handles[h].Using?
    ensures var free := Next(s, step).free;
            if |s.free| == 50 then free == s.free else s.handles[h].token in free && |free| == |s.free| + 1
  {}

  /** A push changes nothing here, and while it goes on its handle can neither give the queue back nor end. */
  lemma PushHoldsQueue(s: State, h: nat)
    requires h < |s.handles| && s.handles[h].Using?
    ensures if s.handles[h].pushing then
              && Enabled(s, EndPush(h)) && !Enabled(s, GiveBack(h)) && !Enabled(s, Destroy(h))
              && !Enabled(s, BeginPush(h))
            else
              && Enabled(s, BeginPush(h)) && var t := Next(s, BeginPush(h));
                 t.handles[h] == Using(s.handles[h].token, true) && Enabled(t, EndPush(h)) && Next(t, EndPush(h)) == s
  {}

  /** A handle that got no queue may end, or ask again like a new one. */
  lemma AskingAgainIsAsNew(s: State, h: nat)
    requires h < |s.handles| && s.handles[h].NoQueue?
    ensures Enabled(s, New) && Enabled(s, Again(h)) && Enabled(s, Destroy(h))
    ensures var (t, n) := (Next(s, Again(h)), Next(s, New));
            |t.handles| == |s.handles| && t.handles[h] == n.handles[|s.handles|] && t.free == s.free && t.end == s.end
  {}

  /** One attempt of handle h. */
  ghost predicate Attempt(u: State, h: nat, t: State) {
    exists step: Step :: (step == Create(h) || (step.Apply? && step.h == h)) && Enabled(u, step) && t == Next(u, step)
  }

  /** A new handle takes a free token if there is one; */
  lemma NewHandleTakesToken(s: State, h: nat, t: State)
    requires h < |s.handles| && s.handles[h].Applying? && s.free != [] && Attempt(s, h, t)
    ensures t.handles[h].Using? && t.handles[h].token in s.free && |t.free| == |s.free| - 1 && t.end == s.end
  {}

  /** A new handle after n steps of its own, with no free token and `end` queues at first. */
  function AfterAttempts(end: nat, n: nat): Handle {
    if n < 9 then Applying(9 - n)
    else if n == 9 then Creating(9)
    else if end < 100 then Using(end, false)
    else if n < 18 then Creating(18 - n)
    else NoQueue
  }

  ghost predicate Attempted(end: nat, h: nat, n: nat, t: State) {
    && t.free == [] && t.end == end + (if n <= 9 then 0 else n - 9)
    && h < |t.handles| && t.handles[h] == AfterAttempts(end, n)
  }

  lemma AttemptOnce(end: nat, n: nat, u: State, h: nat, t: State)
    requires Attempted(end, h, n, u) && n < (if end < 100 then 10 else 18) && Attempt(u, h, t)
    ensures Attempted(end, h, n + 1, t)
  {
    assert u.handles[h].Applying? <==> n < 9;
  }

  /**
    otherwise it asks nine times for one, then up to nine times for a new queue, of which there are 100, and gives up.
    */
  lemma {:induction false} NewHandleAlone(run: seq<State>, h: nat, n: nat)
    requires n < |run| && forall i :: 0 <= i < |run| - 1 ==> Attempt(run[i], h, run[i + 1])
    requires h < |run[0].handles| && run[0].handles[h] == Applying(9) && run[0].free == []
    requires n <= if run[0].end < 100 then 10 else 18
    ensures Attempted(run[0].end, h, n, run[n])
  {
    if n > 0 {
      NewHandleAlone(run, h, n - 1);
      assert Attempt(run[n - 1], h, run[n - 1 + 1]);
      AttemptOnce(run[0].end, n - 1, run[n - 1], h, run[n]);
    }
  }

  /** Some n steps from s lead to a state that is not disciplined. */
  ghost predicate BreaksIn(s: State, n: nat)
    decreases n
  {
    if n == 0 then !Disciplined(s) else exists step :: Enabled(s, step) && BreaksIn(Next(s, step), n - 1)
  }

  ghost predicate CanBreak(s: State) {
    exists n: nat :: BreaksIn(s, n)
  }

  lemma StepTowardsBreak(s: State, step: Step)
    requires Enabled(s, step) && CanBreak(Next(s, step))
    ensures CanBreak(s)
  {
    var n: nat :| BreaksIn(Next(s, step), n);
    assert BreaksIn(s, n + 1);
  }

  /** With no queue left to create, a move whose token lies in the free list runs out of attempts. */
  lemma {:induction false} MoveRunsOut(s: State, h: nat, left: nat)
    requires s.end >= QUEUE_MAX && h < |s.handles| && left > 0
    requires s.handles[h].Moving? && s.handles[h].left == left && s.handles[h].token in s.free
    ensures CanBreak(s)
    decreases left
  {
    var step := Create(h);
    if left == 1 {
      FallBackBreaks(s, h);
      assert BreaksIn(Next(s, step), 0);
    } else {
      MoveRunsOut(Next(s, step), h, left - 1);
    }
    StepTowardsBreak(s, step);
  }

  lemma GivingBackBreaks(s: State, h: nat)
    requires s.end >= QUEUE_MAX && h < |s.handles| && s.handles[h].Using? && !s.handles[h].pushing
    requires |s.free| < FREE_LIST_SIZE
    ensures CanBreak(s)
  {
    MoveRunsOut(Next(s, GiveBack(h)), h, ATTEMPTS);
    StepTowardsBreak(s, GiveBack(h));
  }

  /** The room is needed: once the queue list is exhausted, any handle in use can end up sharing its queue. */
  lemma ExhaustionBreaks(s: State, h: nat)
    requires Inv(s) && s.end >= QUEUE_MAX && h < |s.handles| && s.handles[h].Using?
    ensures CanBreak(s)
    decreases s.handles[h].pushing
  {
    if s.handles[h].pushing {
      ExhaustionBreaks(Next(s, EndPush(h)), h);
      StepTowardsBreak(s, EndPush(h));
    } else if |s.free| < FREE_LIST_SIZE {
      GivingBackBreaks(s, h);
    } else {
      // a new handle makes room in the free list
      var s1 := Next(s, New);
      var k := |s.handles|;
      GivingBackBreaks(Next(s1, Apply(k, 0)), h);
      StepTowardsBreak(s1, Apply(k, 0));
      StepTowardsBreak(s, New);
    }
  }

  /** One handle that fills queue after queue exhausts the list. */
  lemma {:induction false} TransfersExhaust(s: State)
    requires Inv(s) && 0 < s.end <= QUEUE_MAX && |s.handles| > 0 && s.handles[0].Using? && !s.handles[0].pushing
    ensures CanBreak(s)
    decreases QUEUE_MAX - s.end
  {
    if s.end == QUEUE_MAX {
      ExhaustionBreaks(s, 0);
    } else {
      var t := Next(s, GiveBack(0));
      StepKeepsUnlessReclaimed(s, GiveBack(0));
      StepKeepsUnlessReclaimed(t, Create(0));
      TransfersExhaust(Next(t, Create(0)));
      StepTowardsBreak(t, Create(0));
      StepTowardsBreak(s, GiveBack(0));
    }
  }

  lemma {:induction false} FirstHandleGetsQueue(s: State, left: nat)
    requires s == State(0, [], [Applying(left)]) && left > 0
    ensures CanBreak(s)
    decreases left
  {
    var t := Next(s, Apply(0, 0));
    if left > 1 {
      FirstHandleGetsQueue(t, left - 1);
    } else {
      TransfersExhaust(Next(t, Create(0)));
      StepTowardsBreak(t, Create(0));
    }
    StepTowardsBreak(s, Apply(0, 0));
  }

  /** So a run from the start ends with two handles on one queue, or one on a queue that is free. */
  lemma BreakIsReached()
    ensures CanBreak(START)
  {
    FirstHandleGetsQueue(Next(START, New), ATTEMPTS);
    StepTowardsBreak(START, New);
  }
}
