/**
  The unbounded queue of local queues and its producer handles, for calls that do not overlap.
  Interleaved calls are the subject of LocalQueue, ChunkStack and Handles.
  */
module FastQueue {
  import opened Options
  import opened LocalQueueWrap
  import LocalQueue
  import SlowQueue
  import Handles

  const LOCAL_SIZE: nat := 32  // kLocalQueueSize
  const RETRY: nat := 10       // kProducerRetry

  // -------------------------------------------------------------- local queues

  /** What a ring holds from counter `from` on. */
  function Window<T>(ring: seq<T>, from: nat, n: nat): seq<T>
    requires |ring| == LOCAL_SIZE
  {
    seq(n, k requires 0 <= k < n => ring[(from + k) % LOCAL_SIZE])
  }

  lemma WindowPush<T>(ring: seq<T>, from: nat, n: nat, x: T)
    requires |ring| == LOCAL_SIZE && n < LOCAL_SIZE
    ensures Window(ring[(from + n) % LOCAL_SIZE := x], from, n + 1) == Window(ring, from, n) + [x]
  {}

  lemma WindowPop<T>(ring: seq<T>, from: nat, n: nat)
    requires |ring| == LOCAL_SIZE && n > 0
    ensures Window(ring, from + 1, n - 1) == Window(ring, from, n)[1..]
    ensures Window(ring, from, n)[0] == ring[from % LOCAL_SIZE]
  {}

  lemma SlotOf(c: nat)
    ensures Low(c) % LOCAL_SIZE == c % LOCAL_SIZE
  {
    SlotSurvives(c, LOCAL_SIZE);
  }

  /** Storing at the slot that the wrapped counter selects, and counting on. */
  lemma PushStep<T>(ring: seq<T>, pops: nat, pushes: nat, x: T)
    requires |ring| == LOCAL_SIZE && pops <= pushes < pops + LOCAL_SIZE
    ensures LocalQueue.Inc(WORD, Low(pushes)) == Low(pushes + 1)
    ensures Window(ring[Low(pushes) % LOCAL_SIZE := x], pops, pushes + 1 - pops) ==
              Window(ring, pops, pushes - pops) + [x]
  {
    SlotOf(pushes);
    WindowPush(ring, pops, pushes - pops, x);
    LowInc(pushes);
  }

  lemma PopStep<T>(ring: seq<T>, pops: nat, pushes: nat)
    requires |ring| == LOCAL_SIZE && pops < pushes
    ensures LocalQueue.Inc(WORD, Low(pops)) == Low(pops + 1)
    ensures Window(ring, pops + 1, pushes - (pops + 1)) == Window(ring, pops, pushes - pops)[1..]
    ensures Window(ring, pops, pushes - pops)[0] == ring[Low(pops) % LOCAL_SIZE]
  {
    SlotOf(pops);
    WindowPop(ring, pops, pushes - pops);
    LowInc(pops);
  }

  /** FastLocalQueue with its 32-bit counters, which the ghost counters let grow unboundedly. */
  class FastLocalQueue<T(0)> {
    var enqueueCount: nat
    var enqueueRevoke: nat
    var dequeueCount: nat
    var dequeueRevoke: nat
    var head: nat
    var tail: nat
    var headFast: nat
    var tailFast: nat
    const data: array<T>
    ghost var pushes: nat
    ghost var pops: nat
    ghost var pushRevokes: nat
    ghost var popRevokes: nat

    ghost predicate Valid()
      reads this
    {
      && data.Length == LOCAL_SIZE && pops <= pushes <= pops + LOCAL_SIZE
      && enqueueCount == Low(pushes + pushRevokes) && enqueueRevoke == Low(pushRevokes)
      && dequeueCount == Low(pops + popRevokes) && dequeueRevoke == Low(popRevokes)
      && head == headFast == Low(pops) && tail == tailFast == Low(pushes)
    }

    ghost function Items(): (s: seq<T>)
      requires Valid()
      reads this, data
      ensures |s| <= LOCAL_SIZE
    {
      Window(data[..], pops, pushes - pops)
    }

    constructor ()
      ensures Valid() && fresh(data) && Items() == []
    {
      enqueueCount, enqueueRevoke, dequeueCount, dequeueRevoke := 0, 0, 0, 0;
      head, tail, headFast, tailFast := 0, 0, 0, 0;
      pushes, pops, pushRevokes, popRevokes := 0, 0, 0, 0;
      data := new T[LOCAL_SIZE];
    }

    /** Fails exactly when the ring is full, leaving its items alone. */
    method Push(item: T) returns (ok: bool)
      requires Valid()
      modifies this, data
      ensures Valid()
      ensures ok <==> |old(Items())| < 32
      ensures Items() == if ok then old(Items()) + [item] else old(Items())
    {
      var revoke := enqueueRevoke;
      enqueueCount := LocalQueue.Inc(WORD, enqueueCount);
      PushTest(pushes, pushRevokes, pops);
      if LocalQueue.LooksFull(WORD, enqueueCount, revoke, head, LOCAL_SIZE) {
        enqueueRevoke := LocalQueue.Inc(WORD, enqueueRevoke);
        pushRevokes := pushRevokes + 1;
        return false;
      }
      PushStep(data[..], pops, pushes, item);
      data[tailFast % LOCAL_SIZE] := item;
      tailFast := LocalQueue.Inc(WORD, tailFast);
      tail := LocalQueue.Inc(WORD, tail);
      pushes := pushes + 1;
      return true;
    }

    /** Fails exactly when the ring is empty; otherwise the oldest item leaves. */
    method Pop() returns (ok: bool, ret: T)
      requires Valid()
      modifies this
      ensures Valid()
      ensures ok <==> old(Items()) != []
      ensures ok ==> ret == old(Items())[0]
      ensures Items() == if ok then old(Items())[1..] else old(Items())
    {
      var revoke := dequeueRevoke;
      dequeueCount := LocalQueue.Inc(WORD, dequeueCount);
      PopTest(pushes, pops, popRevokes);
      if LocalQueue.LooksEmpty(WORD, tail, dequeueCount, revoke) {
        dequeueRevoke := LocalQueue.Inc(WORD, dequeueRevoke);
        popRevokes := popRevokes + 1;
        return false, data[0];
      }
      PopStep(data[..], pops, pushes);
      ret := data[headFast % LOCAL_SIZE];
      headFast := LocalQueue.Inc(WORD, headFast);
      head := LocalQueue.Inc(WORD, head);
      pops := pops + 1;
      return true, ret;
    }

    method Size() returns (n: nat)
      requires Valid()
      ensures n == |Items()|
    {
      LowDiff(pushes, pops);
      n := LocalQueue.Diff(WORD, tail, head);
    }
  }

  lemma PushTest(pushes: nat, revokes: nat, pops: nat)
    requires pops <= pushes <= pops + LOCAL_SIZE
    ensures LocalQueue.Inc(WORD, Low(pushes + revokes)) == Low(pushes + revokes + 1)
    ensures LocalQueue.Inc(WORD, Low(revokes)) == Low(revokes + 1)
    ensures LocalQueue.LooksFull(WORD, Low(pushes + revokes + 1), Low(revokes), Low(pops), LOCAL_SIZE) <==>
              pushes - pops == LOCAL_SIZE
  {
    LowInc(pushes + revokes);
    LowInc(revokes);
    FullTestIsExact(pushes + revokes + 1, revokes, pops, LOCAL_SIZE);
  }

  lemma PopTest(pushes: nat, pops: nat, revokes: nat)
    requires pops <= pushes <= pops + LOCAL_SIZE
    ensures LocalQueue.Inc(WORD, Low(pops + revokes)) == Low(pops + revokes + 1)
    ensures LocalQueue.Inc(WORD, Low(revokes)) == Low(revokes + 1)
    ensures LocalQueue.LooksEmpty(WORD, Low(pushes), Low(pops + revokes + 1), Low(revokes)) <==> pushes == pops
  {
    LowInc(pops + revokes);
    LowInc(revokes);
    PopTestIsExact(pushes, pops + revokes + 1, revokes);
  }

  // ----------------------------------------------------------- a queue of queues

  /** All items, without their order. */
  function Bag<T>(all: seq<seq<T>>): multiset<T> {
    if all == [] then multiset{} else Bag(all[..|all| - 1]) + multiset(all[|all| - 1])
  }

  function Total<T>(all: seq<seq<T>>): nat {
    if all == [] then 0 else Total(all[..|all| - 1]) + |all[|all| - 1]|
  }

  lemma Cancel<T>(a: multiset<T>, b: multiset<T>, m: multiset<T>, x: multiset<T>)
    requires a + m == b + (m + x)
    ensures a == b + x
  {
    assert a == (a + m) - m && b + x == (b + (m + x)) - m;
  }

  lemma AddBoth<T>(a: multiset<T>, b: multiset<T>, l: multiset<T>, m: multiset<T>, n: multiset<T>)
    requires a + m == b + n
    ensures (a + l) + m == (b + l) + n
  {
    assert (a + l) + m == (a + m) + l && (b + l) + n == (b + n) + l;
  }

  lemma {:induction false} BagUpdate<T>(all: seq<seq<T>>, i: nat, s: seq<T>)
    requires i < |all|
    ensures Bag(all[i := s]) + multiset(all[i]) == Bag(all) + multiset(s)
  {
    var n := |all| - 1;
    if i == n {
      assert all[i := s][..n] == all[..n];
    } else {
      BagUpdate(all[..n], i, s);
      assert all[i := s][..n] == all[..n][i := s];
      AddBoth(Bag(all[..n][i := s]), Bag(all[..n]), multiset(all[n]), multiset(all[i]), multiset(s));
    }
  }

  /** An item put into any local queue joins the bag once. */
  lemma BagPush<T>(all: seq<seq<T>>, i: nat, x: T)
    requires i < |all|
    ensures Bag(all[i := all[i] + [x]]) == Bag(all) + multiset{x}
  {
    var s := all[i];
    BagUpdate(all, i, s + [x]);
    assert multiset(s + [x]) == multiset(s) + multiset{x};
    Cancel(Bag(all[i := s + [x]]), Bag(all), multiset(s), multiset{x});
  }

  /** An item taken from any local queue leaves the bag once. */
  lemma BagPop<T>(all: seq<seq<T>>, i: nat)
    requires i < |all| && all[i] != []
    ensures Bag(all) == Bag(all[i := all[i][1..]]) + multiset{all[i][0]}
  {
    var s := all[i];
    BagUpdate(all, i, s[1..]);
    assert s == [s[0]] + s[1..];
    assert multiset(s) == multiset(s[1..]) + multiset{s[0]};
    Cancel(Bag(all), Bag(all[i := s[1..]]), multiset(s[1..]), multiset{s[0]});
  }

  lemma BagGrow<T>(all: seq<seq<T>>)
    ensures Bag(all + [[]]) == Bag(all)
  {
    assert (all + [[]])[..|all|] == all;
  }

  lemma {:induction false} TotalIsBagSize<T>(all: seq<seq<T>>)
    ensures Total(all) == |Bag(all)|
  {
    if all != [] { TotalIsBagSize(all[..|all| - 1]); }
  }

  lemma TotalNext<T>(all: seq<seq<T>>, i: nat)
    requires i < |all|
    ensures Total(all[..i + 1]) == Total(all[..i]) + |all[i]|
  {
    assert all[..i + 1][..i] == all[..i];
  }

  lemma {:induction false} BagEmpty<T>(all: seq<seq<T>>)
    ensures Bag(all) == multiset{} <==> forall i :: 0 <= i < |all| ==> all[i] == []
  {
    if all != [] {
      var n := |all| - 1;
      BagEmpty(all[..n]);
      assert Bag(all) == multiset{} ==> |multiset(all[n])| == 0 && |Bag(all[..n])| == 0;
      assert forall i :: 0 <= i < n ==> all[i] == all[..n][i];
    }
  }

  ghost predicate Apart<T(0)>(queues: seq<FastLocalQueue<T>>) {
    forall i, j :: 0 <= i < j < |queues| ==> queues[i] != queues[j] && queues[i].data != queues[j].data
  }

  /** Tokens of existing queues only. */
  ghost predicate AllBelow(tokens: seq<nat>, n: nat) { forall i :: 0 <= i < |tokens| ==> tokens[i] < n }

  /** Queue `at` was not empty and has given its oldest item; the others are as before. */
  ghost predicate IsPop<T>(before: seq<seq<T>>, after: seq<seq<T>>, at: nat, ret: Option<T>) {
    && at < |before| && before[at] != [] && ret == Some(before[at][0])
    && after == before[at := before[at][1..]]
  }

  class FastQueue<T(0)> {
    var queues: seq<FastLocalQueue<T>>
    var end: nat                 // QueueList.size(), which also counts refused pushes
    const free: SlowQueue.Queue<nat>

    ghost function Arrays(): set<array<T>>
      reads this
    {
      set q <- queues :: q.data
    }

    ghost predicate Valid()
      reads this, free, free.ring, queues, Arrays()
    {
      && free.Valid() && free.maxSize == Handles.FREE_LIST_SIZE
      && |queues| == (if end < Handles.QUEUE_MAX then end else Handles.QUEUE_MAX) && Apart(queues)
      && (forall i :: 0 <= i < |queues| ==> queues[i].Valid() && (queues[i].data as object) != (free.ring as object))
      && AllBelow(free.Items(), |queues|)
    }

    /** The items of each local queue, oldest first. */
    ghost function All(): (all: seq<seq<T>>)
      requires Valid()
      reads this, free, free.ring, queues, Arrays()
      ensures |all| == |queues|
    {
      seq(|queues|, i requires 0 <= i < |queues| && Valid()
                      reads this, free, free.ring, queues, Arrays() => queues[i].Items())
    }

    constructor ()
      ensures Valid() && fresh(free) && fresh(free.ring) && free.maxSize == 50 && free.Items() == []
      ensures end == 0 && All() == []
    {
      free := new SlowQueue.Queue(Handles.FREE_LIST_SIZE);
      queues, end := [], 0;
    }

    /** A change inside local queue i shows nowhere else. */
    twostate lemma LocalChanged(i: nat)
      requires old(Valid()) && unchanged(this) && unchanged(free, free.ring) && i < |queues| && queues[i].Valid()
      requires forall j :: 0 <= j < |queues| && j != i ==> unchanged(queues[j], queues[j].data)
      ensures Valid() && All() == old(All())[i := queues[i].Items()]
    {}

    /** Nor does a change of the free list show in the items. */
    twostate lemma FreeChanged()
      requires old(Valid()) && unchanged(this) && free.Valid() && AllBelow(free.Items(), |queues|)
      requires forall j :: 0 <= j < |queues| ==> unchanged(queues[j], queues[j].data)
      ensures Valid() && All() == old(All())
    {}

    /** FreeList.pop. */
    method TakeToken() returns (ok: bool, t: nat)
      requires Valid()
      modifies free
      ensures Valid() && All() == old(All())
      ensures ok <==> old(free.Items()) != []
      ensures ok ==> t == old(free.Items())[0] && t < |queues|
      ensures free.Contents() == SlowQueue.Popped(old(free.Contents()), free.maxSize)
    {
      ghost var was := free.Items();
      ok, t := free.Pop();
      SlowQueue.PoppedItems(old(free.Contents()), free.maxSize);
      assert free.Items() == if ok then was[1..] else was;
      FreeChanged();
    }

    /** QueueList.get: null where no queue has been created. */
    function Get(token: nat): FastLocalQueue?<T>
      reads this
    {
      if token < |queues| then queues[token] else null
    }

    /** One probe: local->pop on queue `index`. */
    method Probe(index: nat) returns (ok: bool, ret: T)
      requires Valid() && index < |queues|
      modifies queues[index]
      ensures Valid()
      ensures ok <==> old(All())[index] != []
      ensures ok ==> ret == old(All())[index][0] && All() == old(All())[index := old(All())[index][1..]]
      ensures !ok ==> All() == old(All())
    {
      ok, ret := queues[index].Pop();
      LocalChanged(index);
    }

    /** The first loop of pop_hard: from the start down. */
    method ProbeDown(middle: nat) returns (ok: bool, ret: Option<T>, ghost at: nat)
      requires Valid()
      modifies queues
      ensures Valid()
      ensures ok ==> IsPop(old(All()), All(), at, ret) && at <= middle
      ensures ok ==> forall j :: at < j <= middle && j < |queues| ==> old(All())[j] == []
      ensures !ok ==> All() == old(All()) && forall j :: 0 <= j <= middle && j < |queues| ==> All()[j] == []
    {
      ghost var all := All();
      for index := middle + 1 downto 0
        invariant Valid() && All() == all
        invariant forall j :: index <= j <= middle && j < |queues| ==> all[j] == []
      {
        if Get(index) == null { continue; }
        var item;
        ok, item := Probe(index);
        if ok { return ok, Some(item), index; }
      }
      return false, None, 0;
    }

    /** The second loop: from above the start up. */
    method ProbeUp(from: nat) returns (ok: bool, ret: Option<T>, ghost at: nat)
      requires Valid() && end <= Handles.QUEUE_MAX
      modifies queues
      ensures Valid()
      ensures ok ==> IsPop(old(All()), All(), at, ret) && from <= at
      ensures ok ==> forall j :: from <= j < at && j < |queues| ==> old(All())[j] == []
      ensures !ok ==> All() == old(All()) && forall j :: from <= j < |queues| ==> All()[j] == []
    {
      ghost var all := All();
      var approximateSize := end;
      var index := from;
      while index < approximateSize
        invariant Valid() && All() == all && approximateSize == |queues| && from <= index
        invariant forall j :: from <= j < index && j < |queues| ==> all[j] == []
      {
        var item;
        ok, item := Probe(index);
        if ok { return ok, Some(item), index; }
        if index == approximateSize - 1 { approximateSize := end; }
        index := index + 1;
      }
      return false, None, 0;
    }

    /** Probes all queues from any start, down and then up; fails only when all are empty. */
    method PopHard(middle: nat) returns (ok: bool, ret: Option<T>, ghost at: nat)
      requires Valid() && middle < Handles.QUEUE_MAX && end <= Handles.QUEUE_MAX
      modifies queues
      ensures Valid()
      ensures ok <==> exists i :: 0 <= i < |queues| && old(All())[i] != []
      ensures ok ==> IsPop(old(All()), All(), at, ret)
      ensures ok ==> forall j {:trigger old(All())[j]} ::
                0 <= j < |queues| && (if at <= middle then at < j <= middle else j < at) ==> old(All())[j] == []
      ensures !ok ==> All() == old(All())
    {
      ok, ret, at := ProbeDown(middle);
      if ok { return; }
      ok, ret, at := ProbeUp(middle + 1);
    }

    /** The size of the bag. */
    method ElementCount() returns (totalCount: nat)
      requires Valid() && end <= Handles.QUEUE_MAX
      ensures totalCount == |Bag(All())|
    {
      ghost var all := All();
      var approximateSize := end;
      totalCount := 0;
      var index := 0;
      while index < approximateSize
        invariant 0 <= index <= approximateSize == |queues| && Valid() && All() == all
        invariant totalCount == Total(all[..index])
      {
        var n := queues[index].Size();
        TotalNext(all, index);
        totalCount := totalCount + n;
        if index == approximateSize - 1 { approximateSize := end; }
        index := index + 1;
      }
      assert all[..index] == all;
      TotalIsBagSize(all);
    }

    /** create_queue: refused exactly when the queue list is full. */
    method CreateQueue() returns (ok: bool, token: nat)
      requires Valid()
      modifies this
      ensures Valid() && end == old(end) + 1
      ensures ok <==> old(end) < 100
      ensures ok ==> token == old(|queues|) < |queues| && queues == old(queues) + [queues[token]]
      ensures ok ==> fresh(queues[token]) && fresh(queues[token].data)
      ensures !ok ==> queues == old(queues)
      ensures All() == old(All()) + if ok then [[]] else []
    {
      var local := new FastLocalQueue<T>();
      token := end;
      end := end + 1;
      ok := token < Handles.QUEUE_MAX;
      if ok { queues := queues + [local]; }
    }
  }

  /**
    Into queue `at` of those there were, or of those and one new queue, the item has gone last; the others are as
    before.
    */
  ghost predicate IsPush<T>(before: seq<seq<T>>, after: seq<seq<T>>, at: nat, item: T) {
    var all := if |after| == |before| then before else before + [[]];
    at < |all| && after == all[at := all[at] + [item]]
  }

  /** Seen as a bag, the queue gains the item once and loses nothing. */
  lemma PushAddsOnce<T>(before: seq<seq<T>>, after: seq<seq<T>>, at: nat, item: T)
    requires IsPush(before, after, at, item)
    ensures Bag(after) == Bag(before) + multiset{item}
  {
    BagGrow(before);
    BagPush(if |after| == |before| then before else before + [[]], at, item);
  }

  /** And a pop takes the item out once. */
  lemma PopTakesOnce<T>(before: seq<seq<T>>, after: seq<seq<T>>, at: nat, ret: Option<T>)
    requires IsPop(before, after, at, ret)
    ensures ret.Some? && Bag(before) == Bag(after) + multiset{ret.value}
  {
    BagPop(before, at);
  }

  lemma LastUpdate<T>(all: seq<T>, x: T, y: T)
    ensures (all + [x])[|all| := y] == all + [y]
  {}

  lemma PushIn<T>(before: seq<seq<T>>, mid: seq<seq<T>>, at: nat, item: T)
    requires (mid == before || mid == before + [[]]) && at < |mid|
    ensures IsPush(before, mid[at := mid[at] + [item]], at, item)
  {}

  lemma PushNew<T>(before: seq<seq<T>>, item: T)
    ensures IsPush(before, before + [[item]], |before|, item)
  {
    LastUpdate(before, [], [item]);
    assert [] + [item] == [item];
  }

  lemma NewQueueTakes<T>(all: seq<seq<T>>, item: T)
    ensures var more := all + [[]]; more[|all|] == [] && more[|all| := more[|all|] + [item]] == all + [[item]]
  {
    LastUpdate(all, [], [item]);
    assert [] + [item] == [item];
  }

  class ProducerHandle<T(0)> {
    const queue: FastQueue<T>
    var token: nat
    var local: FastLocalQueue?<T>

    ghost predicate Valid()
      reads this, queue, queue.free, queue.free.ring, queue.queues, queue.Arrays()
    {
      queue.Valid() && (local != null ==> token < |queue.queues| && queue.queues[token] == local)
    }

    /**
      The queue the next push_hard tries first: the handle's own, or the one whose token it takes from the free list.
      */
    ghost function Own(): (own: Option<nat>)
      requires Valid()
      reads this, queue, queue.free, queue.free.ring, queue.queues, queue.Arrays()
      ensures own.Some? ==> own.value < |queue.All()|
    {
      if local != null then Some(token)
      else if queue.free.Items() != [] then Some(queue.free.Items()[0])
      else None
    }

    constructor (q: FastQueue<T>)
      requires q.Valid()
      modifies q, q.free
      ensures Valid() && queue == q
      ensures local == null <==> old(q.free.Items()) == [] && old(q.end) >= Handles.QUEUE_MAX
      ensures queue.All() ==
              old(q.All()) + if old(q.free.Items()) == [] && old(q.end) < Handles.QUEUE_MAX then [[]] else []
      ensures q.free.Contents() == SlowQueue.Popped(old(q.free.Contents()), q.free.maxSize)
    {
      queue, token, local := q, 0, null;
      new;
      Acquire();
    }

    /** Takes a token from the free list, if there is one. */
    method Apply() returns (ok: bool)
      requires Valid()
      modifies this, queue.free
      ensures Valid() && queue.All() == old(queue.All())
      ensures ok <==> old(queue.free.Items()) != []
      ensures ok ==> local != null && token == old(queue.free.Items())[0]
      ensures !ok ==> local == old(local) && token == old(token)
      ensures queue.free.Contents() == SlowQueue.Popped(old(queue.free.Contents()), queue.free.maxSize)
    {
      var t;
      ok, t := queue.TakeToken();
      if !ok { return; }
      token := t;
      local := queue.Get(token);
    }

    /** Creates a new queue, while the queue list has room. */
    method Preempt() returns (ok: bool)
      requires Valid()
      modifies this, queue
      ensures Valid() && queue.end == old(queue.end) + 1
      ensures ok <==> old(queue.end) < Handles.QUEUE_MAX
      ensures ok ==> fresh(local) && fresh(local.data)
      ensures ok ==> token == |old(queue.All())| && queue.queues == old(queue.queues) + [local]
      ensures !ok ==> local == old(local) && token == old(token) && queue.queues == old(queue.queues)
      ensures queue.All() == old(queue.All()) + if ok then [[]] else []
    {
      var t;
      ok, t := queue.CreateQueue();
      if !ok { return; }
      token := t;
      local := queue.Get(token);
    }

    /** The retry loop around it. */
    method PreemptRetrying() returns (ok: bool)
      requires Valid()
      modifies this, queue
      ensures Valid()
      ensures ok <==> old(queue.end) < Handles.QUEUE_MAX
      ensures ok ==> fresh(local) && fresh(local.data)
      ensures ok ==> token == |old(queue.All())| && queue.queues == old(queue.queues) + [local]
      ensures !ok ==> local == old(local) && token == old(token) && queue.queues == old(queue.queues)
      ensures queue.All() == old(queue.All()) + if ok then [[]] else []
    {
      var retry: nat := RETRY - 1;
      ghost var all := queue.All();
      ok := false;
      while retry != 0
        invariant Valid() && queue.All() == all && !ok && local == old(local) && token == old(token)
        invariant queue.queues == old(queue.queues)
        invariant if retry == RETRY - 1 then queue.end == old(queue.end)
                    else queue.end > old(queue.end) >= Handles.QUEUE_MAX
      {
        ok := Preempt();
        if ok { return; }
        retry := retry - 1;
      }
    }

    /** And around Apply. */
    method ApplyRetrying() returns (ok: bool)
      requires Valid()
      modifies this, queue.free
      ensures Valid() && queue.All() == old(queue.All())
      ensures ok <==> old(queue.free.Items()) != []
      ensures ok ==> local != null && token == old(queue.free.Items())[0]
      ensures !ok ==> local == old(local) && token == old(token)
      ensures queue.free.Contents() == SlowQueue.Popped(old(queue.free.Contents()), queue.free.maxSize)
    {
      var retry: nat := RETRY - 1;
      ghost var all, was := queue.All(), queue.free.Contents();
      ok := false;
      while retry != 0
        invariant Valid() && queue.All() == all && !ok && local == old(local) && token == old(token)
        invariant queue.free.Contents() == was && (retry < RETRY - 1 ==> was.items == [])
      {
        ok := Apply();
        if ok { return; }
        retry := retry - 1;
      }
    }

    /** What the constructor and push_hard do for a handle without queue: the free list first, then a new queue. */
    method Acquire()
      requires Valid() && local == null
      modifies this, queue, queue.free
      ensures Valid()
      ensures old(queue.free.Items()) != [] ==>
                local != null && token == old(queue.free.Items())[0] && queue.queues == old(queue.queues) &&
                  queue.end == old(queue.end)
      ensures old(queue.free.Items()) == [] && old(queue.end) < Handles.QUEUE_MAX ==>
                local != null && fresh(local) && fresh(local.data) && token == |old(queue.All())| &&
                  queue.queues == old(queue.queues) + [local]
      ensures old(queue.free.Items()) == [] && old(queue.end) >= Handles.QUEUE_MAX ==> local == null
      ensures queue.All() ==
              if old(queue.free.Items()) == [] && old(queue.end) < Handles.QUEUE_MAX
              then old(queue.All()) + [[]]
              else old(queue.All())
      ensures queue.free.Contents() == SlowQueue.Popped(old(queue.free.Contents()), queue.free.maxSize)
    {
      var ok := ApplyRetrying();
      if !ok { ok := PreemptRetrying(); }
    }

    /** One attempt to push into the handle's own queue; fails exactly when that is full. */
    method Push(item: T) returns (ok: bool)
      requires Valid()
      modifies local, if local == null then {} else {local.data}
      ensures Valid()
      ensures ok <==> local != null && |old(queue.All())[token]| < LOCAL_SIZE
      ensures queue.All() ==
              if ok then old(queue.All())[token := old(queue.All())[token] + [item]] else old(queue.All())
    {
      if local == null { return false; }
      ok := local.Push(item);
      queue.LocalChanged(token);
    }

    /** The retry loop around it. */
    method PushRetrying(item: T) returns (ok: bool)
      requires Valid() && local != null
      modifies local, local.data
      ensures Valid()
      ensures ok <==> |old(queue.All())[token]| < LOCAL_SIZE
      ensures queue.All() ==
              if ok then old(queue.All())[token := old(queue.All())[token] + [item]] else old(queue.All())
    {
      var retry: nat := RETRY - 1;
      ghost var all := queue.All();
      ok := false;
      while retry != 0
        invariant Valid() && queue.All() == all && !ok
        invariant retry < RETRY - 1 ==> |all[token]| >= LOCAL_SIZE
      {
        ok := Push(item);
        if ok { return; }
        retry := retry - 1;
      }
    }

    /** The handle's queue goes to the free list, which may drop it. */
    method GiveBack()
      requires Valid() && local != null
      modifies queue.free, queue.free.ring
      ensures Valid() && queue.All() == old(queue.All())
      ensures queue.free.Contents() == SlowQueue.Pushed(old(queue.free.Contents()), token, queue.free.maxSize)
    {
      var _ := queue.free.Push(token);
      queue.FreeChanged();
    }

    /**
      The transfer: the full queue is given back and a new one takes the item; without room the handle stays with the
      full one.
      */
    method Transfer(item: T) returns (ok: bool)
      requires Valid() && local != null && |queue.All()[token]| == LOCAL_SIZE
      modifies this, queue, queue.free, queue.free.ring, local, local.data
      ensures Valid() && local != null
      ensures ok <==> old(queue.end) < Handles.QUEUE_MAX
      ensures if ok then token == |old(queue.All())| else local == old(local) && token == old(token)
      ensures queue.All() == old(queue.All()) + if ok then [[item]] else []
      ensures queue.free.Contents() == SlowQueue.Pushed(old(queue.free.Contents()), old(token), queue.free.maxSize)
    {
      ghost var all := queue.All();
      GiveBack();
      ok := PreemptRetrying();
      if ok { NewQueueTakes(all, item); }
      ok := PushRetrying(item);
    }

    /**
      What is on the free list after a push_hard: one token less for a handle without queue, one more for a full
      queue.
      */
    ghost function FreeAfter(): SlowQueue.View<nat>
      requires Valid()
      reads this, queue, queue.free, queue.free.ring, queue.queues, queue.Arrays()
    {
      var n := queue.free.maxSize;
      var taken := if local == null then SlowQueue.Popped(queue.free.Contents(), n) else queue.free.Contents();
      if Own().Some? && |queue.All()[Own().value]| == LOCAL_SIZE then SlowQueue.Pushed(taken, Own().value, n) else taken
    }

    /**
      Adds the item exactly once, to the handle's own queue or, when that is full, to a new one; fails exactly when
      neither is possible.
      */
    method PushHard(item: T) returns (ok: bool, ghost at: nat)
      requires Valid()
      modifies this, queue, queue.free, queue.free.ring, queue.queues, queue.Arrays()
      ensures Valid() && queue.free.Contents() == old(FreeAfter())
      ensures var own, all := old(Own()), old(queue.All());
              var hasOwn := own.Some? && |all[own.value]| < LOCAL_SIZE;
              && (ok <==> hasOwn || old(queue.end) < Handles.QUEUE_MAX)
              && (ok ==> IsPush(all, queue.All(), at, item) && local != null)
              && (ok ==> token == at == if hasOwn then own.value else |all|)
              && (!ok ==> queue.All() == all)
    {
      ghost var all, own := queue.All(), Own();
      if local == null { Acquire(); }
      if local == null { return false, 0; }
      at := token;
      ghost var mid := queue.All();
      assert if own.Some? then mid == all && at == own.value else mid == all + [[]] && at == |all| && |mid[at]| == 0;
      ok := PushRetrying(item);
      if ok {
        PushIn(all, mid, at, item);
        return;
      }
      ok := Transfer(item);
      at := token;
      PushNew(all, item);
    }

    /** The end of a handle. */
    method Destroy()
      requires Valid()
      modifies queue.free, queue.free.ring
      ensures Valid() && queue.All() == old(queue.All())
      ensures queue.free.Contents() ==
              if local == null then old(queue.free.Contents())
              else SlowQueue.Pushed(old(queue.free.Contents()), token, queue.free.maxSize)
    {
      if local != null { GiveBack(); }
    }
  }

  // ---------------------------------------------------------------------- runs

  /**
    A new handle that opened a queue, or a finished push_hard or pop_hard and the local queue it used. What else may
    happen changes nothing.
    */
  datatype Event<T> = Opened | Into(at: nat, item: T) | OutOf(at: nat, item: T)

  ghost predicate Follows<T>(before: seq<seq<T>>, e: Event<T>, after: seq<seq<T>>) {
    match e
    case Opened => after == before + [[]]
    case Into(at, item) => IsPush(before, after, at, item)
    case OutOf(at, item) => IsPop(before, after, at, Some(item))
  }

  ghost predicate IsRun<T>(run: seq<seq<seq<T>>>, events: seq<Event<T>>) {
    && |run| == |events| + 1 && run[0] == []
    && forall i {:trigger events[i]} :: 0 <= i < |events| ==> Follows(run[i], events[i], run[i + 1])
  }

  function Ins<T>(events: seq<Event<T>>, q: nat): seq<T> {
    if events == [] then []
    else
      var e := events[|events| - 1];
      Ins(events[..|events| - 1], q) + if e.Into? && e.at == q then [e.item] else []
  }

  function Outs<T>(events: seq<Event<T>>, q: nat): seq<T> {
    if events == [] then []
    else
      var e := events[|events| - 1];
      Outs(events[..|events| - 1], q) + if e.OutOf? && e.at == q then [e.item] else []
  }

  function Held<T>(all: seq<seq<T>>, q: nat): seq<T> { if q < |all| then all[q] else [] }

  lemma EventKeepsOrder<T>(before: seq<seq<T>>, e: Event<T>, after: seq<seq<T>>, q: nat, ins: seq<T>, outs: seq<T>)
    requires Follows(before, e, after) && ins == outs + Held(before, q)
    ensures (ins + if e.Into? && e.at == q then [e.item] else []) ==
            (outs + if e.OutOf? && e.at == q then [e.item] else []) + Held(after, q)
  {}

  /** In every run, what went into a local queue has left it in the same order, up to what it still holds. */
  lemma {:induction false} EveryRunIsLocallyFifo<T>(run: seq<seq<seq<T>>>, events: seq<Event<T>>, q: nat)
    requires IsRun(run, events)
    ensures Ins(events, q) == Outs(events, q) + Held(run[|events|], q)
  {
    if events != [] {
      var n := |events| - 1;
      assert events[n] == events[|events| - 1] && Follows(run[n], events[n], run[n + 1]);
      assert forall i :: 0 <= i < n ==> events[..n][i] == events[i];
      EveryRunIsLocallyFifo(run[..n + 1], events[..n], q);
      EventKeepsOrder(run[n], events[n], run[n + 1], q, Ins(events[..n], q), Outs(events[..n], q));
    }
  }

  /** Everything that went in, and everything that came out. */
  function Entered<T>(events: seq<Event<T>>): multiset<T> {
    if events == [] then multiset{}
    else
      var e := events[|events| - 1];
      Entered(events[..|events| - 1]) + if e.Into? then multiset{e.item} else multiset{}
  }

  function Left<T>(events: seq<Event<T>>): multiset<T> {
    if events == [] then multiset{}
    else
      var e := events[|events| - 1];
      Left(events[..|events| - 1]) + if e.OutOf? then multiset{e.item} else multiset{}
  }

  lemma EventKeepsBag<T>(before: seq<seq<T>>, e: Event<T>, after: seq<seq<T>>, entered: multiset<T>, left: multiset<T>)
    requires Follows(before, e, after) && entered == left + Bag(before)
    ensures (entered + if e.Into? then multiset{e.item} else multiset{}) ==
            (left + if e.OutOf? then multiset{e.item} else multiset{}) + Bag(after)
  {
    match e
    case Opened => BagGrow(before);
    case Into(at, item) => PushAddsOnce(before, after, at, item);
    case OutOf(at, item) => PopTakesOnce(before, after, at, Some(item));
  }

  /** In every run the queue is a bag: what entered is what left and what it holds. */
  lemma {:induction false} EveryRunIsABag<T>(run: seq<seq<seq<T>>>, events: seq<Event<T>>)
    requires IsRun(run, events)
    ensures Entered(events) == Left(events) + Bag(run[|events|])
  {
    if events != [] {
      var n := |events| - 1;
      assert Follows(run[n], events[n], run[n + 1]);
      assert forall i :: 0 <= i < n ==> events[..n][i] == events[i];
      EveryRunIsABag(run[..n + 1], events[..n]);
      EventKeepsBag(run[n], events[n], run[n + 1], Entered(events[..n]), Left(events[..n]));
    }
  }
}
