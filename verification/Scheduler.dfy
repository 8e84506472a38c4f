/**
  The coroutine scheduler: workers pop tasks, run each until it switches back, and
  requeue, park or drop it. `await(function)` parks the caller behind a fresh trigger
  and makes a child task that runs the function and then notifies the trigger. Each
  step is one shared operation of one worker; workers interleave freely. The ready
  queue is a bag and its pushes succeed; the wait queue is append-only and holds
  WAIT_QUEUE_SIZE tasks.
  */
module Scheduler {
  import opened Options

  const WAIT_QUEUE_SIZE := 1000

  /** Task::TaskStatus, without kUnknown. */
  datatype Status = Finished | Ready | Waiting

  datatype Fiber = Nil | OfWorker(worker: nat) | OfTask(task: nat)

  /** Where a worker's thread is. */
  datatype Pc =
    | Fetching                                   // about to pop a task
    | Running(task: nat)                         // in the task's fiber
    | Notifying(task: nat, trigger: nat, i: nat) // in the task's fiber, in the loop of notify
    | Dispatch(task: nat)                        // back in the worker, with the status of `call`
    | Registering(task: nat, id: int)            // on the wait queue with this id
    | Publishing                                 // registered; the child is still to be pushed
    | Stray                                      // back in some other fiber

  /** A worker with the thread-local FiberData fields. */
  datatype Worker = Worker(
    pc: Pc, status: Status, publicStatus: Status, trigger: nat, waitFor: Option<nat>, current: Fiber, caller: Fiber)

  /**
    `trigger` is what the task notifies at its end, if it is the child of an await. History: whether its
    function has returned, and the trigger of an await from which it has not resumed.
    */
  datatype Task = Task(trigger: Option<nat>, returned: bool, awaiting: Option<nat>)

  /** The ids registered with a trigger. History: the two tasks it connects, and how often it put the parent back. */
  datatype Trigger = Trigger(waiters: seq<int>, parent: nat, child: nat, requeues: nat)

  /** History: the one place where a task is. */
  datatype Place = InReady | OnWorker(w: nat) | Held(w: nat) | Parked(g: nat) | Lost(g: nat) | Over

  datatype State = State(
    tasks: seq<Task>, ready: multiset<nat>, waitQueue: seq<nat>, waitEnd: nat,
    triggers: seq<Trigger>, workers: seq<Worker>, place: seq<Place>)

  datatype Step =
    | Go
    | Fetch(w: nat, t: nat)
    | Yield(w: nat)
    | Await(w: nat)
    | Return(w: nat)
    | NotifyOne(w: nat)
    | NotifyEnd(w: nat)
    | Finish(w: nat)
    | Requeue(w: nat)
    | Enqueue(w: nat)
    | Register(w: nat)
    | Publish(w: nat)

  // --------------------------------------------------------------- transitions

  /** ToFiber: remember the fiber we leave, go to f, or back to the remembered one. */
  function ToFiber(k: Worker, f: Fiber): Worker {
    k.(caller := k.current, current := if f.Nil? then k.caller else f)
  }

  /** The task's fiber gives up control; if that leads back into worker w, `call` returns the public status. */
  function Leave(k: Worker, w: nat, t: nat): Worker {
    var back := ToFiber(k, Nil);
    if back.current == OfWorker(w) then back.(pc := Dispatch(t), status := k.publicStatus) else back.(pc := Stray)
  }

  predicate Enabled(s: State, step: Step) {
    && |s.place| == |s.tasks|
    && (!step.Go? ==> step.w < |s.workers|)
    && match step
       case Go => true
       case Fetch(w, t) => s.workers[w].pc.Fetching? && t in s.ready && t < |s.tasks|
       case Yield(w) => s.workers[w].pc.Running? && s.workers[w].pc.task < |s.tasks|
       case Await(w) => s.workers[w].pc.Running? && s.workers[w].pc.task < |s.tasks|
       case Return(w) => s.workers[w].pc.Running? && s.workers[w].pc.task < |s.tasks|
       case NotifyOne(w) =>
         var pc := s.workers[w].pc;
         pc.Notifying? && pc.trigger < |s.triggers| && pc.i < |s.triggers[pc.trigger].waiters|
       case NotifyEnd(w) =>
         var pc := s.workers[w].pc;
         pc.Notifying? && pc.trigger < |s.triggers| && pc.i == |s.triggers[pc.trigger].waiters|
       case Finish(w) => s.workers[w].pc.Dispatch? && s.workers[w].status.Finished? && s.workers[w].pc.task < |s.tasks|
       case Requeue(w) => s.workers[w].pc.Dispatch? && s.workers[w].status.Ready? && s.workers[w].pc.task < |s.tasks|
       case Enqueue(w) => s.workers[w].pc.Dispatch? && s.workers[w].status.Waiting?
       case Register(w) =>
         s.workers[w].pc.Registering? && s.workers[w].trigger < |s.triggers| && s.workers[w].pc.task < |s.tasks|
       case Publish(w) =>
         s.workers[w].pc.Publishing? && (s.workers[w].waitFor.Some? ==> s.workers[w].waitFor.value < |s.tasks|)
  }

  /** wait_queue.get on the i-th id registered with g; a negative id is refused. */
  function WaiterTask(s: State, g: nat, i: nat): Option<nat>
    requires g < |s.triggers| && i < |s.triggers[g].waiters|
  {
    var id := s.triggers[g].waiters[i];
    if 0 <= id < |s.waitQueue| then Some(s.waitQueue[id]) else None
  }

  function Apply(s: State, step: Step): State
    requires Enabled(s, step)
  {
    match step
    case Go =>
      s.(tasks := s.tasks + [Task(None, false, None)], ready := s.ready + multiset{|s.tasks|},
        place := s.place + [InReady])
    case Fetch(w, t) =>
      s.(ready := s.ready - multiset{t}, place := s.place[t := OnWorker(w)],
         tasks := s.tasks[t := s.tasks[t].(awaiting := None)],
         workers := s.workers[w := ToFiber(s.workers[w].(pc := Running(t), publicStatus := Ready), OfTask(t))])
    case Yield(w) =>
      s.(workers := s.workers[w := Leave(s.workers[w], w, s.workers[w].pc.task)])
    case Await(w) =>
      var (t, g, c) := (s.workers[w].pc.task, |s.triggers|, |s.tasks|);
      var k := s.workers[w].(trigger := g, waitFor := Some(c), publicStatus := Waiting);
      s.(triggers := s.triggers + [Trigger([], t, c, 0)],
         tasks := s.tasks[t := s.tasks[t].(awaiting := Some(g))] + [Task(Some(g), false, None)],
         place := s.place + [Held(w)],
         workers := s.workers[w := Leave(k, w, t)])
    case Return(w) =>
      var t := s.workers[w].pc.task;
      var k := if s.tasks[t].trigger.Some? then s.workers[w].(pc := Notifying(t, s.tasks[t].trigger.value, 0))
               else Leave(s.workers[w].(publicStatus := Finished), w, t);
      s.(tasks := s.tasks[t := s.tasks[t].(returned := true)], workers := s.workers[w := k])
    case NotifyOne(w) =>
      var pc := s.workers[w].pc;
      var g := s.triggers[pc.trigger];
      match WaiterTask(s, pc.trigger, pc.i) {
        case Some(p) =>
          s.(ready := s.ready + multiset{p},
             place := if p < |s.place| then s.place[p := InReady] else s.place,
             triggers := s.triggers[pc.trigger := g.(requeues := g.requeues + 1)],
             workers := s.workers[w := s.workers[w].(pc := pc.(i := pc.i + 1))])
        case None =>
          s.(workers := s.workers[w := s.workers[w].(pc := pc.(i := |g.waiters|))])
      }
    case NotifyEnd(w) =>
      s.(workers := s.workers[w := Leave(s.workers[w].(publicStatus := Finished), w, s.workers[w].pc.task)])
    case Finish(w) =>
      s.(workers := s.workers[w := s.workers[w].(pc := Fetching)], place := s.place[s.workers[w].pc.task := Over])
    case Requeue(w) =>
      var t := s.workers[w].pc.task;
      s.(workers := s.workers[w := s.workers[w].(pc := Fetching)], ready := s.ready + multiset{t},
        place := s.place[t := InReady])
    case Enqueue(w) =>
      var t := s.workers[w].pc.task;
      if s.waitEnd < WAIT_QUEUE_SIZE then
        s.(waitEnd := s.waitEnd + 1, waitQueue := s.waitQueue + [t],
           workers := s.workers[w := s.workers[w].(pc := Registering(t, s.waitEnd))])
      else
        s.(waitEnd := s.waitEnd + 1, workers := s.workers[w := s.workers[w].(pc := Registering(t, -1))])
    case Register(w) =>
      var (pc, g) := (s.workers[w].pc, s.workers[w].trigger);
      s.(triggers := s.triggers[g := s.triggers[g].(waiters := s.triggers[g].waiters + [pc.id])],
         place := s.place[pc.task := if pc.id >= 0 then Parked(g) else Lost(g)],
         workers := s.workers[w := s.workers[w].(pc := Publishing)])
    case Publish(w) =>
      match s.workers[w].waitFor {
        case Some(c) =>
          s.(ready := s.ready + multiset{c}, place := s.place[c := InReady],
             workers := s.workers[w := s.workers[w].(pc := Fetching)])
        case None =>
          s.(workers := s.workers[w := s.workers[w].(pc := Fetching)])
      }
  }

  ghost predicate Init(s: State) {
    && s.tasks == [] && s.ready == multiset{} && s.waitQueue == [] && s.waitEnd == 0 && s.triggers == []
    && s.place == []
    && forall w :: 0 <= w < |s.workers| ==> s.workers[w].pc.Fetching? && s.workers[w].current == OfWorker(w)
  }

  // ----------------------------------------------------------------- invariant

  /** The task a worker is busy with. */
  function TaskOf(pc: Pc): Option<nat> {
    match pc
    case Running(t) => Some(t)
    case Notifying(t, _, _) => Some(t)
    case Dispatch(t) => Some(t)
    case Registering(t, _) => Some(t)
    case _ => None
  }

  /** The worker is between a switch for await and the push of the child. */
  predicate HoldsChild(k: Worker) {
    (k.pc.Dispatch? && k.status.Waiting?) || k.pc.Registering? || k.pc.Publishing?
  }

  /** The worker carries out an await of task t that is not registered yet. */
  ghost predicate Awaits(s: State, k: Worker, t: nat)
    requires t < |s.tasks|
  {
    && k.trigger < |s.triggers| && s.triggers[k.trigger].parent == t && s.triggers[k.trigger].waiters == []
    && k.waitFor == Some(s.triggers[k.trigger].child)
    && !s.tasks[t].returned && s.tasks[t].awaiting == Some(k.trigger)
  }

  /** The notification of g is over: its parent, unless lost, was put back. */
  ghost predicate Settled(s: State, g: nat)
    requires g < |s.triggers|
  {
    s.triggers[g].waiters == [-1] || s.triggers[g].requeues == 1
  }

  ghost predicate WorkerOk(s: State, w: nat)
    requires w < |s.workers| && |s.place| == |s.tasks|
  {
    var k := s.workers[w];
    && (TaskOf(k.pc).Some? ==> TaskOf(k.pc).value < |s.tasks| && s.place[TaskOf(k.pc).value] == OnWorker(w))
    && (HoldsChild(k) ==> k.waitFor.Some? && k.waitFor.value < |s.tasks| && s.place[k.waitFor.value] == Held(w))
    && !k.pc.Stray?
    && (if k.pc.Running? || k.pc.Notifying? then k.current == OfTask(k.pc.task) && k.caller == OfWorker(w)
         else k.current == OfWorker(w))
    && match k.pc
       case Running(t) => !s.tasks[t].returned && s.tasks[t].awaiting.None? && k.publicStatus.Ready?
       case Notifying(t, g, i) =>
         && s.tasks[t].returned && s.tasks[t].awaiting.None? && s.tasks[t].trigger == Some(g) && g < |s.triggers|
         && i <= |s.triggers[g].waiters| == 1
         && (s.triggers[g].waiters[0] >= 0 ==> s.triggers[g].requeues == i)
       case Dispatch(t) =>
         (match k.status
          case Finished =>
            && s.tasks[t].returned && s.tasks[t].awaiting.None?
            && (s.tasks[t].trigger.Some? ==>
                  s.tasks[t].trigger.value < |s.triggers| && Settled(s, s.tasks[t].trigger.value))
          case Ready => !s.tasks[t].returned && s.tasks[t].awaiting.None?
          case Waiting => Awaits(s, k, t))
       case Registering(t, id) =>
         && Awaits(s, k, t)
         && (if id == -1 then s.waitEnd > WAIT_QUEUE_SIZE else 0 <= id < |s.waitQueue| && s.waitQueue[id] == t)
       case Publishing =>
         && k.trigger < |s.triggers| && k.waitFor == Some(s.triggers[k.trigger].child)
         && s.triggers[k.trigger].waiters != []
       case _ => true
  }

  ghost predicate TaskOk(s: State, t: nat)
    requires t < |s.tasks| == |s.place|
  {
    var x := s.tasks[t];
    && s.ready[t] == (if s.place[t].InReady? then 1 else 0)
    && (x.trigger.Some? ==> x.trigger.value < |s.triggers| && s.triggers[x.trigger.value].child == t)
    && match s.place[t]
       case InReady =>
         && !x.returned
         && (x.awaiting.Some? ==>
               var g := x.awaiting.value;
               g < |s.triggers| && s.triggers[g].parent == t && s.triggers[g].requeues == 1)
       case OnWorker(w) => w < |s.workers| && TaskOf(s.workers[w].pc) == Some(t)
       case Held(w) =>
         && w < |s.workers| && HoldsChild(s.workers[w]) && s.workers[w].waitFor == Some(t)
         && !x.returned && x.awaiting.None?
       case Parked(g) =>
         && !x.returned && x.awaiting == Some(g)
         && g < |s.triggers| && s.triggers[g].parent == t && s.triggers[g].requeues == 0
         && |s.triggers[g].waiters| == 1 && s.triggers[g].waiters[0] >= 0
       case Lost(g) =>
         && !x.returned && x.awaiting == Some(g) && s.waitEnd > WAIT_QUEUE_SIZE
         && g < |s.triggers| && s.triggers[g].parent == t && s.triggers[g].waiters == [-1]
       case Over =>
         && x.returned
         && (x.trigger.Some? ==> Settled(s, x.trigger.value))
  }

  ghost predicate TriggerOk(s: State, g: nat)
    requires g < |s.triggers| && |s.place| == |s.tasks|
  {
    var r := s.triggers[g];
    && r.parent < r.child < |s.tasks|
    && s.tasks[r.child].trigger == Some(g)
    && r.requeues <= 1 && |r.waiters| <= 1
    && (r.requeues == 1 ==> s.tasks[r.child].returned)
    && (r.waiters == [] ==> r.requeues == 0 && s.place[r.child].Held?)
    && (|r.waiters| == 1 ==>
          var id := r.waiters[0];
          if id == -1 then r.requeues == 0 && s.place[r.parent] == Lost(g)
          else
            && 0 <= id < |s.waitQueue| && s.waitQueue[id] == r.parent
            && (r.requeues == 0 ==> s.place[r.parent] == Parked(g)))
  }

  ghost predicate OverflowOk(s: State) {
    && |s.waitQueue| == (if s.waitEnd <= WAIT_QUEUE_SIZE then s.waitEnd else WAIT_QUEUE_SIZE)
    && (s.waitEnd > WAIT_QUEUE_SIZE ==>
          || (exists t :: 0 <= t < |s.place| && s.place[t].Lost?)
          || (exists w :: 0 <= w < |s.workers| && s.workers[w].pc.Registering? && s.workers[w].pc.id == -1))
  }

  ghost predicate TasksOk(s: State)
    requires |s.place| == |s.tasks|
  {
    forall t {:trigger TaskOk(s, t)} :: 0 <= t < |s.tasks| ==> TaskOk(s, t)
  }

  ghost predicate WorkersOk(s: State)
    requires |s.place| == |s.tasks|
  {
    forall w {:trigger WorkerOk(s, w)} :: 0 <= w < |s.workers| ==> WorkerOk(s, w)
  }

  ghost predicate Inv(s: State) {
    && |s.place| == |s.tasks|
    && (forall t :: t in s.ready ==> t < |s.tasks|)
    && TasksOk(s)
    && WorkersOk(s)
    && (forall g {:trigger TriggerOk(s, g)} :: 0 <= g < |s.triggers| ==> TriggerOk(s, g))
    && OverflowOk(s)
  }

  // --------------------------------------------------- every step keeps it

  /** An overflow of the wait queue stays visible in a lost task, or in a worker about to lose one. */
  lemma OverflowStays(s: State, s': State)
    requires OverflowOk(s) && s'.waitEnd == s.waitEnd && s'.waitQueue == s.waitQueue
    requires forall t :: 0 <= t < |s.place| && s.place[t].Lost? ==> t < |s'.place| && s'.place[t].Lost?
    requires forall w :: 0 <= w < |s.workers| && s.workers[w].pc.Registering? && s.workers[w].pc.id == -1 ==>
               w < |s'.workers| && s'.workers[w].pc == s.workers[w].pc
    ensures OverflowOk(s')
  {
    if s.waitEnd > WAIT_QUEUE_SIZE {
      if t :| 0 <= t < |s.place| && s.place[t].Lost? {
        assert s'.place[t].Lost?;
      } else {
        var w :| 0 <= w < |s.workers| && s.workers[w].pc.Registering? && s.workers[w].pc.id == -1;
        assert s'.workers[w].pc == s.workers[w].pc;
      }
    }
  }

  /** A worker is fine as before if nothing it relies on has changed; a trigger may have put its parent back. */
  lemma OtherWorkerKept(s: State, s': State, v: nat)
    requires v < |s.workers| == |s'.workers| && |s.place| == |s.tasks| == |s'.place| && WorkerOk(s, v)
    requires s'.workers[v] == s.workers[v] && |s'.tasks| == |s.tasks| && s'.waitQueue == s.waitQueue
    requires s'.waitEnd == s.waitEnd
    requires forall t :: 0 <= t < |s.place| && (s.place[t] == OnWorker(v) || s.place[t] == Held(v)) ==>
               s'.place[t] == s.place[t] && s'.tasks[t] == s.tasks[t]
    requires |s'.triggers| == |s.triggers|
    requires forall g :: 0 <= g < |s.triggers| ==>
               || s'.triggers[g] == s.triggers[g]
               || (s.triggers[g].requeues == 0 && s'.triggers[g] == s.triggers[g].(requeues := 1))
    requires s.workers[v].pc.Notifying? ==> s'.triggers[s.workers[v].pc.trigger] == s.triggers[s.workers[v].pc.trigger]
    ensures WorkerOk(s', v)
  {}

  lemma GoKeepsTasks(s: State)
    requires Inv(s) && Enabled(s, Go)
    ensures TasksOk(Apply(s, Go))
  {
    var s' := Apply(s, Go);
    forall x | 0 <= x < |s'.tasks| ensures TaskOk(s', x) { if x < |s.tasks| { assert TaskOk(s, x); } }
  }

  lemma GoKeeps(s: State)
    requires Inv(s) && Enabled(s, Go)
    ensures Inv(Apply(s, Go))
  {
    var s' := Apply(s, Go);
    GoKeepsTasks(s);
    forall v | 0 <= v < |s'.workers| ensures WorkerOk(s', v) { assert WorkerOk(s, v); }
    forall g | 0 <= g < |s'.triggers| ensures TriggerOk(s', g) { assert TriggerOk(s, g); }
    OverflowStays(s, s');
  }

  lemma FetchKeepsTasks(s: State, w: nat, t: nat)
    requires Inv(s) && Enabled(s, Fetch(w, t))
    ensures TasksOk(Apply(s, Fetch(w, t)))
  {
    var s' := Apply(s, Fetch(w, t));
    assert WorkerOk(s, w) && TaskOk(s, t);
    forall x | 0 <= x < |s'.tasks| ensures TaskOk(s', x) { assert TaskOk(s, x); }
  }

  lemma FetchKeepsWorkers(s: State, w: nat, t: nat)
    requires Inv(s) && Enabled(s, Fetch(w, t))
    ensures WorkersOk(Apply(s, Fetch(w, t)))
  {
    var s' := Apply(s, Fetch(w, t));
    assert WorkerOk(s, w) && TaskOk(s, t);
    forall v | 0 <= v < |s'.workers| ensures WorkerOk(s', v) { assert WorkerOk(s, v); }
  }

  lemma FetchKeeps(s: State, w: nat, t: nat)
    requires Inv(s) && Enabled(s, Fetch(w, t))
    ensures Inv(Apply(s, Fetch(w, t)))
  {
    var s' := Apply(s, Fetch(w, t));
    assert WorkerOk(s, w) && TaskOk(s, t);
    FetchKeepsTasks(s, w, t);
    FetchKeepsWorkers(s, w, t);
    forall g | 0 <= g < |s'.triggers| ensures TriggerOk(s', g) { assert TriggerOk(s, g); }
    OverflowStays(s, s');
  }

  lemma YieldKeepsTasks(s: State, w: nat)
    requires Inv(s) && Enabled(s, Yield(w))
    ensures TasksOk(Apply(s, Yield(w)))
  {
    var s' := Apply(s, Yield(w));
    assert WorkerOk(s, w) && TaskOk(s, s.workers[w].pc.task);
    forall x | 0 <= x < |s'.tasks| ensures TaskOk(s', x) { assert TaskOk(s, x); }
  }

  lemma YieldKeeps(s: State, w: nat)
    requires Inv(s) && Enabled(s, Yield(w))
    ensures Inv(Apply(s, Yield(w)))
  {
    var s' := Apply(s, Yield(w));
    assert WorkerOk(s, w) && TaskOk(s, s.workers[w].pc.task);
    YieldKeepsTasks(s, w);
    forall v | 0 <= v < |s'.workers| ensures WorkerOk(s', v) { assert WorkerOk(s, v); }
    forall g | 0 <= g < |s'.triggers| ensures TriggerOk(s', g) { assert TriggerOk(s, g); }
    OverflowStays(s, s');
  }

  lemma AwaitKeepsTasks(s: State, w: nat)
    requires Inv(s) && Enabled(s, Await(w))
    ensures TasksOk(Apply(s, Await(w)))
  {
    var s' := Apply(s, Await(w));
    assert WorkerOk(s, w) && TaskOk(s, s.workers[w].pc.task);
    forall x | 0 <= x < |s'.tasks| ensures TaskOk(s', x) { if x < |s.tasks| { assert TaskOk(s, x); } }
  }

  lemma AwaitKeepsWorkers(s: State, w: nat)
    requires Inv(s) && Enabled(s, Await(w))
    ensures WorkersOk(Apply(s, Await(w)))
  {
    var s' := Apply(s, Await(w));
    assert WorkerOk(s, w) && TaskOk(s, s.workers[w].pc.task);
    forall v | 0 <= v < |s'.workers| ensures WorkerOk(s', v) { assert WorkerOk(s, v); }
  }

  lemma AwaitKeeps(s: State, w: nat)
    requires Inv(s) && Enabled(s, Await(w))
    ensures Inv(Apply(s, Await(w)))
  {
    var s' := Apply(s, Await(w));
    assert WorkerOk(s, w) && TaskOk(s, s.workers[w].pc.task);
    AwaitKeepsTasks(s, w);
    AwaitKeepsWorkers(s, w);
    forall g | 0 <= g < |s'.triggers| ensures TriggerOk(s', g) { if g < |s.triggers| { assert TriggerOk(s, g); } }
    OverflowStays(s, s');
  }

  lemma ReturnKeepsTasks(s: State, w: nat)
    requires Inv(s) && Enabled(s, Return(w))
    ensures TasksOk(Apply(s, Return(w)))
  {
    var s' := Apply(s, Return(w));
    assert WorkerOk(s, w) && TaskOk(s, s.workers[w].pc.task);
    if s.tasks[s.workers[w].pc.task].trigger.Some? { assert TriggerOk(s, s.tasks[s.workers[w].pc.task].trigger.value); }
    forall x | 0 <= x < |s'.tasks| ensures TaskOk(s', x) { assert TaskOk(s, x); }
  }

  lemma ReturnKeepsWorkers(s: State, w: nat)
    requires Inv(s) && Enabled(s, Return(w))
    ensures WorkersOk(Apply(s, Return(w)))
  {
    var s' := Apply(s, Return(w));
    assert WorkerOk(s, w) && TaskOk(s, s.workers[w].pc.task);
    if s.tasks[s.workers[w].pc.task].trigger.Some? { assert TriggerOk(s, s.tasks[s.workers[w].pc.task].trigger.value); }
    forall v | 0 <= v < |s'.workers| ensures WorkerOk(s', v) {
      assert WorkerOk(s, v);
      if v != w { OtherWorkerKept(s, s', v); }
    }
  }

  lemma ReturnKeeps(s: State, w: nat)
    requires Inv(s) && Enabled(s, Return(w))
    ensures Inv(Apply(s, Return(w)))
  {
    var s' := Apply(s, Return(w));
    assert WorkerOk(s, w) && TaskOk(s, s.workers[w].pc.task);
    if s.tasks[s.workers[w].pc.task].trigger.Some? { assert TriggerOk(s, s.tasks[s.workers[w].pc.task].trigger.value); }
    ReturnKeepsTasks(s, w);
    ReturnKeepsWorkers(s, w);
    forall g | 0 <= g < |s'.triggers| ensures TriggerOk(s', g) { assert TriggerOk(s, g); }
    OverflowStays(s, s');
  }

  /** What notify finds: one waiter, which is the parked parent or a refused id. */
  lemma NotifyFinds(s: State, w: nat)
    requires Inv(s) && Enabled(s, NotifyOne(w))
    ensures var (g, i) := (s.workers[w].pc.trigger, s.workers[w].pc.i);
            var p := s.triggers[g].parent;
            && i == 0 && |s.triggers[g].waiters| == 1 && p < |s.tasks|
            && match WaiterTask(s, g, 0)
               case Some(q) => q == p && s.place[p] == Parked(g) && s.triggers[g].requeues == 0 && s.ready[p] == 0
               case None => s.triggers[g].waiters == [-1]
  {
    assert WorkerOk(s, w);
    assert TriggerOk(s, s.workers[w].pc.trigger);
    assert TaskOk(s, s.triggers[s.workers[w].pc.trigger].parent);
  }

  lemma NotifyOneKeepsTasks(s: State, w: nat)
    requires Inv(s) && Enabled(s, NotifyOne(w))
    ensures TasksOk(Apply(s, NotifyOne(w)))
  {
    var s' := Apply(s, NotifyOne(w));
    NotifyFinds(s, w);
    assert WorkerOk(s, w) && TaskOk(s, s.workers[w].pc.task);
    forall x | 0 <= x < |s'.tasks| ensures TaskOk(s', x) { assert TaskOk(s, x); }
  }

  lemma NotifyOneKeepsWorkers(s: State, w: nat)
    requires Inv(s) && Enabled(s, NotifyOne(w))
    ensures WorkersOk(Apply(s, NotifyOne(w)))
  {
    var s' := Apply(s, NotifyOne(w));
    NotifyFinds(s, w);
    assert WorkerOk(s, w) && TaskOk(s, s.workers[w].pc.task);
    forall v | 0 <= v < |s'.workers| ensures WorkerOk(s', v) {
      assert WorkerOk(s, v);
      if v != w {
        if s.workers[v].pc.Notifying? { assert TaskOk(s, s.workers[v].pc.task); }
        OtherWorkerKept(s, s', v);
      }
    }
  }

  lemma NotifyOneKeeps(s: State, w: nat)
    requires Inv(s) && Enabled(s, NotifyOne(w))
    ensures Inv(Apply(s, NotifyOne(w)))
  {
    var s' := Apply(s, NotifyOne(w));
    NotifyFinds(s, w);
    assert WorkerOk(s, w) && TaskOk(s, s.workers[w].pc.task);
    NotifyOneKeepsTasks(s, w);
    NotifyOneKeepsWorkers(s, w);
    forall g | 0 <= g < |s'.triggers| ensures TriggerOk(s', g) { assert TriggerOk(s, g); }
    OverflowStays(s, s');
  }

  lemma NotifyEndKeepsTasks(s: State, w: nat)
    requires Inv(s) && Enabled(s, NotifyEnd(w))
    ensures TasksOk(Apply(s, NotifyEnd(w)))
  {
    var s' := Apply(s, NotifyEnd(w));
    assert WorkerOk(s, w) && TaskOk(s, s.workers[w].pc.task) && TriggerOk(s, s.workers[w].pc.trigger);
    forall x | 0 <= x < |s'.tasks| ensures TaskOk(s', x) { assert TaskOk(s, x); }
  }

  lemma NotifyEndKeeps(s: State, w: nat)
    requires Inv(s) && Enabled(s, NotifyEnd(w))
    ensures Inv(Apply(s, NotifyEnd(w)))
  {
    var s' := Apply(s, NotifyEnd(w));
    assert WorkerOk(s, w) && TaskOk(s, s.workers[w].pc.task) && TriggerOk(s, s.workers[w].pc.trigger);
    NotifyEndKeepsTasks(s, w);
    forall v | 0 <= v < |s'.workers| ensures WorkerOk(s', v) { assert WorkerOk(s, v); }
    forall g | 0 <= g < |s'.triggers| ensures TriggerOk(s', g) { assert TriggerOk(s, g); }
    OverflowStays(s, s');
  }

  lemma FinishKeepsTasks(s: State, w: nat)
    requires Inv(s) && Enabled(s, Finish(w))
    ensures TasksOk(Apply(s, Finish(w)))
  {
    var s' := Apply(s, Finish(w));
    assert WorkerOk(s, w) && TaskOk(s, s.workers[w].pc.task);
    forall x | 0 <= x < |s'.tasks| ensures TaskOk(s', x) { assert TaskOk(s, x); }
  }

  lemma FinishKeeps(s: State, w: nat)
    requires Inv(s) && Enabled(s, Finish(w))
    ensures Inv(Apply(s, Finish(w)))
  {
    var s' := Apply(s, Finish(w));
    assert WorkerOk(s, w) && TaskOk(s, s.workers[w].pc.task);
    FinishKeepsTasks(s, w);
    forall v | 0 <= v < |s'.workers| ensures WorkerOk(s', v) {
      assert WorkerOk(s, v);
      if v != w { OtherWorkerKept(s, s', v); }
    }
    forall g | 0 <= g < |s'.triggers| ensures TriggerOk(s', g) { assert TriggerOk(s, g); }
    OverflowStays(s, s');
  }

  lemma RequeueKeepsTasks(s: State, w: nat)
    requires Inv(s) && Enabled(s, Requeue(w))
    ensures TasksOk(Apply(s, Requeue(w)))
  {
    var s' := Apply(s, Requeue(w));
    assert WorkerOk(s, w) && TaskOk(s, s.workers[w].pc.task);
    forall x | 0 <= x < |s'.tasks| ensures TaskOk(s', x) { assert TaskOk(s, x); }
  }

  lemma RequeueKeeps(s: State, w: nat)
    requires Inv(s) && Enabled(s, Requeue(w))
    ensures Inv(Apply(s, Requeue(w)))
  {
    var s' := Apply(s, Requeue(w));
    assert WorkerOk(s, w) && TaskOk(s, s.workers[w].pc.task);
    RequeueKeepsTasks(s, w);
    forall v | 0 <= v < |s'.workers| ensures WorkerOk(s', v) { assert WorkerOk(s, v); }
    forall g | 0 <= g < |s'.triggers| ensures TriggerOk(s', g) { assert TriggerOk(s, g); }
    OverflowStays(s, s');
  }

  lemma EnqueueKeepsTasks(s: State, w: nat)
    requires Inv(s) && Enabled(s, Enqueue(w))
    ensures TasksOk(Apply(s, Enqueue(w)))
  {
    var s' := Apply(s, Enqueue(w));
    assert WorkerOk(s, w) && TaskOk(s, s.workers[w].pc.task);
    forall x | 0 <= x < |s'.tasks| ensures TaskOk(s', x) { assert TaskOk(s, x); }
  }

  lemma EnqueueKeepsWorkers(s: State, w: nat)
    requires Inv(s) && Enabled(s, Enqueue(w))
    ensures WorkersOk(Apply(s, Enqueue(w)))
  {
    var s' := Apply(s, Enqueue(w));
    assert WorkerOk(s, w) && TaskOk(s, s.workers[w].pc.task);
    forall v | 0 <= v < |s'.workers| ensures WorkerOk(s', v) { assert WorkerOk(s, v); }
  }

  lemma EnqueueKeeps(s: State, w: nat)
    requires Inv(s) && Enabled(s, Enqueue(w))
    ensures Inv(Apply(s, Enqueue(w)))
  {
    var s' := Apply(s, Enqueue(w));
    assert WorkerOk(s, w) && TaskOk(s, s.workers[w].pc.task);
    EnqueueKeepsTasks(s, w);
    EnqueueKeepsWorkers(s, w);
    assert s.waitEnd >= WAIT_QUEUE_SIZE ==> s'.workers[w].pc.Registering? && s'.workers[w].pc.id == -1;
    forall g | 0 <= g < |s'.triggers| ensures TriggerOk(s', g) { assert TriggerOk(s, g); }
  }

  lemma RegisterKeepsTasks(s: State, w: nat)
    requires Inv(s) && Enabled(s, Register(w))
    ensures TasksOk(Apply(s, Register(w)))
  {
    var s' := Apply(s, Register(w));
    assert WorkerOk(s, w) && TaskOk(s, s.workers[w].pc.task) && TriggerOk(s, s.workers[w].trigger);
    forall x | 0 <= x < |s'.tasks| ensures TaskOk(s', x) { assert TaskOk(s, x); }
  }

  lemma RegisterKeepsWorkers(s: State, w: nat)
    requires Inv(s) && Enabled(s, Register(w))
    ensures WorkersOk(Apply(s, Register(w)))
  {
    var s' := Apply(s, Register(w));
    assert WorkerOk(s, w) && TaskOk(s, s.workers[w].pc.task) && TriggerOk(s, s.workers[w].trigger);
    forall v | 0 <= v < |s'.workers| ensures WorkerOk(s', v) { assert WorkerOk(s, v); }
  }

  lemma RegisterKeeps(s: State, w: nat)
    requires Inv(s) && Enabled(s, Register(w))
    ensures Inv(Apply(s, Register(w)))
  {
    var s' := Apply(s, Register(w));
    assert WorkerOk(s, w) && TaskOk(s, s.workers[w].pc.task) && TriggerOk(s, s.workers[w].trigger);
    RegisterKeepsTasks(s, w);
    RegisterKeepsWorkers(s, w);
    forall g | 0 <= g < |s'.triggers| ensures TriggerOk(s', g) { assert TriggerOk(s, g); }
    RegisterOverflow(s, w);
  }

  lemma PublishKeepsTasks(s: State, w: nat)
    requires Inv(s) && Enabled(s, Publish(w))
    ensures TasksOk(Apply(s, Publish(w)))
  {
    var s' := Apply(s, Publish(w));
    assert WorkerOk(s, w) && TaskOk(s, s.workers[w].waitFor.value) && TriggerOk(s, s.workers[w].trigger);
    forall x | 0 <= x < |s'.tasks| ensures TaskOk(s', x) { assert TaskOk(s, x); }
  }

  lemma PublishKeeps(s: State, w: nat)
    requires Inv(s) && Enabled(s, Publish(w))
    ensures Inv(Apply(s, Publish(w)))
  {
    var s' := Apply(s, Publish(w));
    assert WorkerOk(s, w) && TaskOk(s, s.workers[w].waitFor.value) && TriggerOk(s, s.workers[w].trigger);
    PublishKeepsTasks(s, w);
    forall v | 0 <= v < |s'.workers| ensures WorkerOk(s', v) { assert WorkerOk(s, v); }
    forall g | 0 <= g < |s'.triggers| ensures TriggerOk(s', g) { assert TriggerOk(s, g); }
    OverflowStays(s, s');
  }

  lemma RegisterOverflow(s: State, w: nat)
    requires Inv(s) && Enabled(s, Register(w))
    ensures OverflowOk(Apply(s, Register(w)))
  {
    var s' := Apply(s, Register(w));
    assert WorkerOk(s, w);
    if s.workers[w].pc.id == -1 {
      assert s'.place[s.workers[w].pc.task].Lost?;
    } else {
      assert TaskOk(s, s.workers[w].pc.task);
      OverflowStays(s, s');
    }
  }

  lemma StepKeeps(s: State, step: Step)
    requires Inv(s) && Enabled(s, step)
    ensures Inv(Apply(s, step))
  {
    match step
    case Go => GoKeeps(s);
    case Fetch(w, t) => FetchKeeps(s, w, t);
    case Yield(w) => YieldKeeps(s, w);
    case Await(w) => AwaitKeeps(s, w);
    case Return(w) => ReturnKeeps(s, w);
    case NotifyOne(w) => NotifyOneKeeps(s, w);
    case NotifyEnd(w) => NotifyEndKeeps(s, w);
    case Finish(w) => FinishKeeps(s, w);
    case Requeue(w) => RequeueKeeps(s, w);
    case Enqueue(w) => EnqueueKeeps(s, w);
    case Register(w) => RegisterKeeps(s, w);
    case Publish(w) => PublishKeeps(s, w);
  }

  // ------------------------------------------------------------------ theorems

  ghost predicate IsRun(trace: seq<State>, steps: seq<Step>) {
    && |trace| == |steps| + 1
    && Init(trace[0])
    && forall i :: 0 <= i < |steps| ==> Enabled(trace[i], steps[i]) && trace[i + 1] == Apply(trace[i], steps[i])
  }

  lemma StartIsOk(s: State)
    requires Init(s)
    ensures Inv(s)
  {
    forall w | 0 <= w < |s.workers| ensures WorkerOk(s, w) {}
  }

  lemma {:induction false} EveryRunKeepsInv(trace: seq<State>, steps: seq<Step>, i: nat)
    requires IsRun(trace, steps) && i < |trace|
    ensures Inv(trace[i])
  {
    if i == 0 {
      StartIsOk(trace[0]);
    } else {
      EveryRunKeepsInv(trace, steps, i - 1);
      StepKeeps(trace[i - 1], steps[i - 1]);
    }
  }

  /** The task is found at this place by looking at the queues, the workers and the triggers. */
  ghost predicate Occupies(s: State, t: nat, p: Place) {
    match p
    case InReady => t in s.ready
    case OnWorker(w) => w < |s.workers| && TaskOf(s.workers[w].pc) == Some(t)
    case Held(w) => w < |s.workers| && HoldsChild(s.workers[w]) && s.workers[w].waitFor == Some(t)
    case Parked(g) =>
      && g < |s.triggers| && s.triggers[g].requeues == 0
      && |s.triggers[g].waiters| == 1 && WaiterTask(s, g, 0) == Some(t)
    case Lost(g) => g < |s.triggers| && s.triggers[g].waiters == [-1] && s.triggers[g].parent == t
    case Over => false
  }

  lemma OccupiedPlaceIsRecorded(s: State, t: nat, p: Place)
    requires Inv(s) && Occupies(s, t, p)
    ensures t < |s.tasks| && p == s.place[t]
  {
    match p
    case InReady => assert TaskOk(s, t);
    case OnWorker(w) => assert WorkerOk(s, w);
    case Held(w) => assert WorkerOk(s, w);
    case Parked(g) => assert TriggerOk(s, g);
    case Lost(g) => assert TriggerOk(s, g);
  }

  /**
    An unfinished task is in exactly one place, and at most once in the ready queue; a finished one is nowhere. So no
    task is lost track of, run by two workers, or run after its end.
    */
  lemma ExactlyOnePlace(s: State, t: nat)
    requires Inv(s) && t < |s.tasks|
    ensures s.place[t] != Over ==> Occupies(s, t, s.place[t])
    ensures forall p :: Occupies(s, t, p) ==> p == s.place[t] && p != Over
    ensures s.ready[t] <= 1
    ensures s.place[t] == Over ==> s.tasks[t].returned
  {
    assert TaskOk(s, t);
    if s.place[t].Parked? { assert TriggerOk(s, s.place[t].g); }
    forall p | Occupies(s, t, p) ensures p == s.place[t] && p != Over { OccupiedPlaceIsRecorded(s, t, p); }
  }

  /** A parent that resumes after an await does so after the awaited function returned, and was put back once. */
  lemma ResumesAfterReturn(s: State, w: nat, t: nat)
    requires Inv(s) && Enabled(s, Fetch(w, t)) && s.tasks[t].awaiting.Some?
    ensures var g := s.tasks[t].awaiting.value;
            && g < |s.triggers| && s.triggers[g].parent == t && s.triggers[g].requeues == 1
            && s.triggers[g].child < |s.tasks| && s.tasks[s.triggers[g].child].returned
  {
    assert TaskOk(s, t);
    assert TriggerOk(s, s.tasks[t].awaiting.value);
  }

  /** A task's fiber, on whatever worker it runs, returns to that worker and to no other fiber. */
  lemma FiberReturnsToItsWorker(s: State, w: nat)
    requires Inv(s) && w < |s.workers| && (s.workers[w].pc.Running? || s.workers[w].pc.Notifying?)
    ensures s.workers[w].current == OfTask(s.workers[w].pc.task)
    ensures Leave(s.workers[w], w, s.workers[w].pc.task).pc == Dispatch(s.workers[w].pc.task)
    ensures forall v :: 0 <= v < |s.workers| && v != w ==> s.workers[v].current != s.workers[w].current
  {
    assert WorkerOk(s, w);
    forall v | 0 <= v < |s.workers| && v != w
      ensures s.workers[v].current != s.workers[w].current
    {
      assert WorkerOk(s, v);
    }
  }

  /**
    The status on which a worker dispatches is the one that the last segment of the task's fiber left: returned,
    yielded or awaited.
    */
  lemma StatusIsOfLastSegment(s: State, step: Step, w: nat)
    requires Inv(s) && Enabled(s, step) && w < |s.workers| && Apply(s, step).workers[w].pc.Dispatch?
    ensures var (k, k') := (s.workers[w], Apply(s, step).workers[w]);
            if k.pc.Dispatch? then k' == k
            else
              && TaskOf(k.pc) == Some(k'.pc.task) && !step.Go? && step.w == w
              && match k'.status
                 case Finished => step.NotifyEnd? || (step.Return? && s.tasks[k.pc.task].trigger.None?)
                 case Ready => step.Yield?
                 case Waiting => step.Await?
  {
    assert WorkerOk(s, w);
  }

  /**
    A worker that is not fetching can always take a step, and one that is can whenever a task is ready; a task that
    runs may await, yield or return, and tasks can always be added.
    */
  lemma NoWorkerIsStuck(s: State, w: nat)
    requires Inv(s) && w < |s.workers|
    ensures Enabled(s, Go)
    ensures s.workers[w].pc.Running? ==> Enabled(s, Await(w)) && Enabled(s, Yield(w)) && Enabled(s, Return(w))
    ensures !s.workers[w].pc.Fetching? ==> exists step: Step :: !step.Go? && step.w == w && Enabled(s, step)
    ensures s.workers[w].pc.Fetching? ==> forall t :: t in s.ready ==> Enabled(s, Fetch(w, t))
  {
    assert WorkerOk(s, w);
    match s.workers[w].pc
    case Fetching =>
    case Running(_) => assert Enabled(s, Yield(w));
    case Notifying(_, g, i) => assert Enabled(s, if i < |s.triggers[g].waiters| then NotifyOne(w) else NotifyEnd(w));
    case Dispatch(_) =>
      var k := s.workers[w];
      var step := if k.status.Finished? then Finish(w) else if k.status.Ready? then Requeue(w) else Enqueue(w);
      assert Enabled(s, step);
    case Registering(_, _) => assert Enabled(s, Register(w));
    case Publishing => assert Enabled(s, Publish(w));
  }

  /** Nothing is ready, running or being dispatched. */
  ghost predicate Quiescent(s: State) {
    s.ready == multiset{} && forall w :: 0 <= w < |s.workers| ==> s.workers[w].pc.Fetching?
  }

  /** Without an overflow, a task waiting at rest waits for a younger one, which waits too; there is no youngest. */
  lemma {:induction false} NoneWaits(s: State, t: nat)
    requires Inv(s) && Quiescent(s) && s.waitEnd <= WAIT_QUEUE_SIZE && t < |s.tasks|
    ensures s.place[t] == Over
    decreases |s.tasks| - t
  {
    assert TaskOk(s, t);
    if s.place[t].Parked? {
      var g := s.place[t].g;
      assert TriggerOk(s, g) && TaskOk(s, s.triggers[g].child);
      NoneWaits(s, s.triggers[g].child);
    }
  }

  /** At rest every task is finished, unless more tasks have awaited than the wait queue holds. */
  lemma AllFinishUnlessWaitQueueOverflows(s: State)
    requires Inv(s) && Quiescent(s)
    ensures (forall t :: 0 <= t < |s.tasks| ==> s.place[t] == Over) <==> s.waitEnd <= 1000
  {
    if s.waitEnd <= WAIT_QUEUE_SIZE {
      forall t | 0 <= t < |s.tasks| ensures s.place[t] == Over { NoneWaits(s, t); }
    }
  }

  // --------------------------------------------------- the overflow is reached

  /** Some run leads from s to t. */
  ghost predicate CanReach(s: State, t: State) {
    exists trace, steps :: IsRun(trace, steps) && trace[0] == s && trace[|steps|] == t
  }

  lemma Do(s: State, t: State, step: Step) returns (u: State)
    requires CanReach(s, t) && Enabled(t, step)
    ensures u == Apply(t, step) && CanReach(s, u)
  {
    u := Apply(t, step);
    var trace, steps :| IsRun(trace, steps) && trace[0] == s && trace[|steps|] == t;
    Extended(trace, steps, step);
    assert (trace + [u])[|steps + [step]|] == u;
  }

  lemma Extended(trace: seq<State>, steps: seq<Step>, step: Step)
    requires IsRun(trace, steps) && Enabled(trace[|steps|], step)
    ensures IsRun(trace + [Apply(trace[|steps|], step)], steps + [step])
  {}

  ghost predicate Resting(s: State) {
    && |s.place| == |s.tasks| && |s.workers| > 0
    && forall w :: 0 <= w < |s.workers| ==> s.workers[w].pc.Fetching? && s.workers[w].current == OfWorker(w)
  }

  /** Task 0 alone is ready, after n awaits. */
  ghost predicate AtLoop(s: State, n: nat) {
    Resting(s) && |s.tasks| > 0 && s.ready == multiset{0} && s.waitEnd == |s.waitQueue| == n
  }

  /** Task 0 is parked, or lost, behind the trigger of its child, which alone is ready. */
  ghost predicate ChildReady(s: State, n: nat, c: nat) {
    && Resting(s) && 0 < c < |s.tasks| && s.ready == multiset{c} && s.waitEnd == n + 1
    && s.tasks[c].trigger.Some? && s.tasks[c].trigger.value < |s.triggers|
    && if n < WAIT_QUEUE_SIZE
       then |s.waitQueue| == n + 1 && s.waitQueue[n] == 0 && s.triggers[s.tasks[c].trigger.value].waiters == [n]
       else s.triggers[s.tasks[c].trigger.value].waiters == [-1]
  }

  /** All but worker 0 are at rest. */
  ghost predicate OthersRest(s: State) {
    && |s.place| == |s.tasks| && |s.workers| > 0
    && forall w :: 0 < w < |s.workers| ==> s.workers[w].pc.Fetching? && s.workers[w].current == OfWorker(w)
  }

  /** Worker 0 is about to park task 0 behind the last trigger, for the last task. */
  ghost predicate ToPark(s: State, n: nat)
    requires |s.workers| > 0
  {
    var (k, c, g) := (s.workers[0], |s.tasks| - 1, |s.triggers| - 1);
    && k.pc == Dispatch(0) && k.status.Waiting? && k.current == OfWorker(0) && k.trigger == g && k.waitFor == Some(c)
    && c > 0 && s.tasks[c].trigger == Some(g) && g >= 0 && s.triggers[g].waiters == []
    && s.ready == multiset{} && s.waitEnd == |s.waitQueue| == n
  }

  lemma TaskSwitches(s: State, a: State, n: nat) returns (t: State)
    requires CanReach(s, a) && AtLoop(a, n)
    ensures CanReach(s, t) && OthersRest(t) && ToPark(t, n)
  {
    t := Do(s, a, Fetch(0, 0));
    t := Do(s, t, Await(0));
  }

  lemma TaskAwaits(s: State, a: State, n: nat) returns (t: State, c: nat)
    requires CanReach(s, a) && AtLoop(a, n) && n <= WAIT_QUEUE_SIZE
    ensures CanReach(s, t) && ChildReady(t, n, c)
  {
    t := TaskSwitches(s, a, n);
    c := |t.tasks| - 1;
    t := Do(s, t, Enqueue(0));
    t := Do(s, t, Register(0));
    t := Do(s, t, Publish(0));
  }

  /** Worker 0 has gone through the waiters of the child's trigger. */
  ghost predicate Notified(s: State, n: nat, c: nat)
    requires |s.workers| > 0
  {
    var k := s.workers[0];
    && k.pc.Notifying? && k.pc.task == c < |s.tasks| && k.pc.trigger < |s.triggers|
    && k.pc.i == |s.triggers[k.pc.trigger].waiters|
    && k.current == OfTask(c) && k.caller == OfWorker(0)
    && s.waitEnd == n + 1
    && if n < WAIT_QUEUE_SIZE then s.ready == multiset{0} && |s.waitQueue| == n + 1 else s.ready == multiset{}
  }

  lemma ChildNotifies(s: State, a: State, n: nat, c: nat) returns (t: State)
    requires CanReach(s, a) && ChildReady(a, n, c)
    ensures CanReach(s, t) && OthersRest(t) && Notified(t, n, c)
  {
    t := Do(s, a, Fetch(0, c));
    t := Do(s, t, Return(0));
    var g := a.tasks[c].trigger.value;
    assert t.workers[0].pc == Notifying(c, g, 0) && t.triggers == a.triggers;
    assert WaiterTask(t, g, 0) == if n < WAIT_QUEUE_SIZE then Some(0) else None;
    t := Do(s, t, NotifyOne(0));
  }

  lemma ChildFinishes(s: State, a: State, n: nat, c: nat) returns (t: State)
    requires CanReach(s, a) && ChildReady(a, n, c)
    ensures CanReach(s, t) && Resting(t) && t.waitEnd == n + 1
    ensures if n < WAIT_QUEUE_SIZE then AtLoop(t, n + 1) else Quiescent(t)
  {
    t := ChildNotifies(s, a, n, c);
    t := Do(s, t, NotifyEnd(0));
    t := Do(s, t, Finish(0));
  }

  /** One task that awaits again and again fills the wait queue. */
  lemma {:induction false} AwaitsReach(s: State, a: State, n: nat) returns (t: State)
    requires CanReach(s, a) && AtLoop(a, 0) && n <= WAIT_QUEUE_SIZE
    ensures CanReach(s, t) && AtLoop(t, n)
    decreases n
  {
    t := a;
    if n > 0 {
      t := AwaitsReach(s, a, n - 1);
      var c;
      t, c := TaskAwaits(s, t, n - 1);
      t := ChildFinishes(s, t, n - 1, c);
    }
  }

  /**
    With any number of workers, a run comes to rest with a task that never finishes: its 1001st await is refused a
    place.
    */
  lemma OverflowIsReached(s: State) returns (t: State)
    requires Init(s) && |s.workers| > 0
    ensures CanReach(s, t) && Quiescent(t) && t.waitEnd == 1001
    ensures exists x :: 0 <= x < |t.place| && t.place[x] != Over
  {
    var none: seq<Step> := [];
    assert IsRun([s], none) && [s][|none|] == s;
    var c;
    t := Do(s, s, Go);
    t := AwaitsReach(s, t, WAIT_QUEUE_SIZE);
    t, c := TaskAwaits(s, t, WAIT_QUEUE_SIZE);
    t := ChildFinishes(s, t, WAIT_QUEUE_SIZE, c);
    var trace, steps :| IsRun(trace, steps) && trace[0] == s && trace[|steps|] == t;
    EveryRunKeepsInv(trace, steps, |steps|);
    AllFinishUnlessWaitQueueOverflows(t);
  }
}
