/**
  The locked ring buffer. Equal cursors mean empty at slot 0 and full anywhere else, so filling the ring
  while the head is at slot 0 must move both cursors to slot 1, which puts the oldest item behind all others.
  */
module SlowQueue {
  import opened Sequences

  /** What the ring stands for: its items in the order they will leave, and where its head is. */
  datatype View<T> = View(items: seq<T>, head: nat)

  function Rotated<T>(s: seq<T>): seq<T>
    requires s != []
  {
    s[1..] + [s[0]]
  }

  ghost predicate WellFormed<T>(v: View<T>, size: nat) {
    |v.items| <= size && v.head < size && (v.items == [] ==> v.head == 0)
  }

  /** A push that fills the ring from slot 0 rotates it; any other appends. */
  predicate FillsFromZero<T>(v: View<T>, size: nat) { v.head == 0 && |v.items| + 1 == size }

  function Pushed<T>(v: View<T>, x: T, size: nat): View<T> {
    if |v.items| >= size then v
    else if FillsFromZero(v, size) then View(Rotated(v.items + [x]), 1)
    else View(v.items + [x], v.head)
  }

  function Popped<T>(v: View<T>, size: nat): View<T> {
    if v.items == [] then v
    else if |v.items| == 1 then View([], 0)
    else View(v.items[1..], if v.head + 1 == size then 0 else v.head + 1)
  }

  lemma PoppedItems<T>(v: View<T>, size: nat)
    ensures Popped(v, size).items == if v.items == [] then [] else v.items[1..]
  {}

  /** What a ring holds between its cursors. */
  function Between<T>(ring: seq<T>, head: nat, tail: nat): seq<T>
    requires head < |ring| && tail < |ring|
  {
    if head < tail then ring[head..tail]
    else if head == tail == 0 then []
    else ring[head..] + ring[..tail]
  }

  /** Writing at the tail of a ring with room, and the moves of the cursors that follow. */
  lemma PushIntoRing<T>(ring: seq<T>, head: nat, tail: nat, x: T)
    requires head < |ring| && tail < |ring| && head != tail
    ensures var s, next := Between(ring, head, tail), if tail == |ring| - 1 then 0 else tail + 1;
            && |s| < |ring| && (FillsFromZero(View(s, head), |ring|) <==> head == next == 0)
            && (head == next == 0 ==> |ring| >= 2 && Between(ring[tail := x], 1, 1) == Rotated(s + [x]))
            && (head != next || next != 0 ==> Between(ring[tail := x], head, next) == s + [x])
  {
    var s, r := Between(ring, head, tail), ring[tail := x];
    var next := if tail == |ring| - 1 then 0 else tail + 1;
    if head == next == 0 {
      assert s + [x] == r;
    } else if head < tail && next == 0 {
      assert r[head..] + r[..0] == s + [x];
    } else if head < tail {
      assert r[head..next] == s + [x];
    } else {
      assert r[head..] + r[..next] == s + [x];
    }
  }

  /** Moving the head on, back to slot 0 when the ring runs empty. */
  lemma PopFromRing<T>(ring: seq<T>, head: nat, tail: nat)
    requires head < |ring| && tail < |ring| && |ring| >= 2 && !(head == tail == 0)
    ensures var s, next := Between(ring, head, tail), if head == |ring| - 1 then 0 else head + 1;
            && s != [] && s[0] == ring[head] && (|s| == 1 <==> next == tail)
            && (next != tail ==> Between(ring, next, tail) == s[1..])
  {
    var s := Between(ring, head, tail);
    if head < tail {
      assert s[1..] == ring[head + 1..tail];
    } else if head == |ring| - 1 {
      assert s[1..] == ring[..tail];
    } else {
      assert s[1..] == ring[head + 1..] + ring[..tail];
    }
  }

  class Queue<T(0)> {
    const maxSize: nat
    const ring: array<T>
    var head: nat
    var tail: nat

    ghost predicate Valid()
      reads this
    {
      2 <= maxSize == ring.Length && head < maxSize && tail < maxSize
    }

    ghost function Items(): seq<T>
      requires Valid()
      reads this, ring
    {
      Between(ring[..], head, tail)
    }

    ghost function Contents(): (v: View<T>)
      requires Valid()
      reads this, ring
      ensures WellFormed(v, maxSize)
    {
      View(Items(), head)
    }

    constructor (max: nat)
      requires max >= 2
      ensures Valid() && fresh(ring) && maxSize == max && Contents() == View([], 0)
    {
      maxSize, head, tail := max, 0, 0;
      ring := new T[max];
    }

    /** Fails exactly when the queue is empty. */
    method Pop() returns (ok: bool, ret: T)
      requires Valid()
      modifies this
      ensures Valid()
      ensures ok <==> old(Items()) != []
      ensures ok ==> ret == old(Items())[0]
      ensures Contents() == Popped(old(Contents()), maxSize)
    {
      if head == tail && tail == 0 { return false, ring[0]; }
      PopFromRing(ring[..], head, tail);
      var slot := head;
      head := if head == maxSize - 1 then 0 else head + 1;
      if head == tail { head, tail := 0, 0; }
      return true, ring[slot];
    }

    /** Fails exactly when the queue is full. */
    method Push(item: T) returns (ok: bool)
      requires Valid()
      modifies this, ring
      ensures Valid()
      ensures ok <==> |old(Items())| < maxSize
      ensures Contents() == Pushed(old(Contents()), item, maxSize)
    {
      if head == tail {
        if head == 0 {
          tail := tail + 1;
          ring[0] := item;
          return true;
        }
        return false;
      }
      PushIntoRing(ring[..], head, tail, item);
      ring[tail] := item;
      tail := if tail == maxSize - 1 then 0 else tail + 1;
      if head == tail && tail == 0 { head, tail := 1, 1; }
      return true;
    }

    method Size() returns (n: nat)
      requires Valid()
      ensures n == |Items()|
    {
      if head == tail && tail == 0 { return 0; }
      if head == tail { return maxSize; }
      if head > tail { return tail + maxSize - head; }
      return tail - head;
    }
  }

  /**
    The push that fills the ring from slot 0 leaves the oldest item last, behind the new one, and all others in order.
    */
  lemma FillingPutsOldestLast<T>(v: View<T>, x: T, size: nat)
    requires size >= 2 && WellFormed(v, size)
    ensures v.head == 0 && |v.items| == size - 1 ==>
              Pushed(v, x, size).items == v.items[1..] + [x] + [v.items[0]] && Pushed(v, x, size).head == 1
    ensures (v.head != 0 && |v.items| < size) || |v.items| < size - 1 ==>
              Pushed(v, x, size).items == v.items + [x] && Pushed(v, x, size).head == v.head
    ensures |v.items| == size ==> Pushed(v, x, size) == v
  {}

  // ---------------------------------------------------------------------- runs

  datatype Op<T> = Push(item: T) | Pop

  /** A run: the queue, what was accepted and what came out, and whether a push has filled the ring from slot 0. */
  datatype Run<T> = Run(view: View<T>, pushed: seq<T>, popped: seq<T>, rotated: bool)

  function After<T>(r: Run<T>, op: Op<T>, size: nat): Run<T> {
    match op
    case Push(x) =>
      if |r.view.items| >= size then r
      else Run(Pushed(r.view, x, size), r.pushed + [x], r.popped, r.rotated || FillsFromZero(r.view, size))
    case Pop =>
      if r.view.items == [] then r
      else Run(Popped(r.view, size), r.pushed, r.popped + [r.view.items[0]], r.rotated)
  }

  function RunOf<T>(ops: seq<Op<T>>, size: nat): Run<T> {
    if ops == [] then Run(View([], 0), [], [], false)
    else After(RunOf(ops[..|ops| - 1], size), ops[|ops| - 1], size)
  }

  ghost predicate Conserved<T>(r: Run<T>) {
    |r.pushed| == |r.popped| + |r.view.items| && multiset(r.pushed) == multiset(r.popped) + multiset(r.view.items)
  }

  ghost predicate InOrder<T>(r: Run<T>) { r.pushed == r.popped + r.view.items }

  /** An item came out at another's turn, or the full ring is about to let that happen. */
  ghost predicate Astray<T>(r: Run<T>, size: nat)
    requires |r.pushed| == |r.popped| + |r.view.items|
  {
    || (exists k :: 0 <= k < |r.popped| && r.popped[k] != r.pushed[k])
    || (|r.view.items| == size > 0 && r.view.items[0] != r.pushed[|r.popped|])
  }

  lemma RotatedBag<T>(s: seq<T>)
    requires s != []
    ensures multiset(Rotated(s)) == multiset(s)
  {
    assert s == [s[0]] + s[1..];
  }

  lemma FirstBag<T>(s: seq<T>)
    requires s != []
    ensures multiset(s) == multiset{s[0]} + multiset(s[1..])
  {
    assert s == [s[0]] + s[1..];
  }

  lemma AddToBag<T>(pushed: seq<T>, popped: seq<T>, items: seq<T>, x: T)
    requires multiset(pushed) == multiset(popped) + multiset(items)
    ensures multiset(pushed + [x]) == multiset(popped) + multiset(items + [x])
  {}

  lemma MoveInBag<T>(pushed: seq<T>, popped: seq<T>, items: seq<T>)
    requires multiset(pushed) == multiset(popped) + multiset(items) && items != []
    ensures multiset(pushed) == multiset(popped + [items[0]]) + multiset(items[1..])
  {
    FirstBag(items);
  }

  lemma OpKeepsBag<T>(r: Run<T>, op: Op<T>, size: nat)
    requires size >= 2 && WellFormed(r.view, size) && Conserved(r)
    ensures WellFormed(After(r, op, size).view, size) && Conserved(After(r, op, size))
  {
    var Run(v, pushed, popped, _) := r;
    if op.Push? {
      AddToBag(pushed, popped, v.items, op.item);
      RotatedBag(v.items + [op.item]);
    } else if v.items != [] {
      MoveInBag(pushed, popped, v.items);
      assert |v.items| == 1 ==> v.items[1..] == [];
    }
  }

  /** Nothing is lost or made up in any run: what went in is what came out and what is held. */
  lemma {:induction false} EveryRunConserves<T>(ops: seq<Op<T>>, size: nat)
    requires size >= 2
    ensures WellFormed(RunOf(ops, size).view, size) && Conserved(RunOf(ops, size))
  {
    if ops != [] {
      EveryRunConserves(ops[..|ops| - 1], size);
      OpKeepsBag(RunOf(ops[..|ops| - 1], size), ops[|ops| - 1], size);
    }
  }

  lemma OpKeepsOrder<T>(r: Run<T>, op: Op<T>, size: nat)
    requires size >= 2 && WellFormed(r.view, size) && Conserved(r) && Conserved(After(r, op, size))
    requires !r.rotated ==> InOrder(r)
    ensures !After(r, op, size).rotated ==> InOrder(After(r, op, size))
  {}

  lemma OpKeepsAstray<T>(r: Run<T>, op: Op<T>, size: nat)
    requires size >= 2 && WellFormed(r.view, size) && Conserved(r) && Conserved(After(r, op, size))
    requires Distinct(After(r, op, size).pushed)
    requires if r.rotated then Astray(r, size) else InOrder(r)
    ensures After(r, op, size).rotated ==> Astray(After(r, op, size), size)
  {
    var a := After(r, op, size);
    if r.rotated {
      if k :| 0 <= k < |r.popped| && r.popped[k] != r.pushed[k] {
        assert a.popped[k] != a.pushed[k];
      } else if op.Pop? {
        assert a.popped[|r.popped|] != a.pushed[|r.popped|];
      }
    } else if op.Push? && FillsFromZero(r.view, size) && |r.view.items| < size {
      var n := |r.popped|;
      var s := r.view.items + [op.item];
      assert a.pushed == r.popped + s;
      assert a.pushed[n] == s[0] && a.pushed[n + 1] == s[1] && a.view.items[0] == s[1];
    }
  }

  lemma {:induction false} OrderOverRuns<T>(ops: seq<Op<T>>, size: nat)
    requires size >= 2
    ensures Conserved(RunOf(ops, size))
    ensures !RunOf(ops, size).rotated ==> InOrder(RunOf(ops, size))
    ensures RunOf(ops, size).rotated && Distinct(RunOf(ops, size).pushed) ==> Astray(RunOf(ops, size), size)
  {
    EveryRunConserves(ops, size);
    if ops != [] {
      var less, op := ops[..|ops| - 1], ops[|ops| - 1];
      var r := RunOf(less, size);
      EveryRunConserves(less, size);
      OrderOverRuns(less, size);
      OpKeepsOrder(r, op, size);
      if Distinct(After(r, op, size).pushed) {
        assert forall i :: 0 <= i < |r.pushed| ==> r.pushed[i] == After(r, op, size).pushed[i];
        OpKeepsAstray(r, op, size);
      }
    }
  }

  /** A run of distinct items is first-in first-out exactly if no push ever filled the ring from slot 0. */
  lemma FifoUnlessFilledFromZero<T>(ops: seq<Op<T>>, size: nat)
    requires size >= 2 && Distinct(RunOf(ops, size).pushed)
    ensures InOrder(RunOf(ops, size)) <==> !RunOf(ops, size).rotated
  {
    var r := RunOf(ops, size);
    OrderOverRuns(ops, size);
    if r.rotated {
      var all := r.popped + r.view.items;
      if k :| 0 <= k < |r.popped| && r.popped[k] != r.pushed[k] {
        assert all[k] != r.pushed[k];
      } else {
        assert all[|r.popped|] != r.pushed[|r.popped|];
      }
    }
  }

  /** A ring that is simply filled from the start, for instance with 0, 1, 2 .. . */
  function Filling(n: nat): seq<Op<int>> { seq(n, i => Push(i)) }

  lemma {:induction false} FillingRuns(n: nat, size: nat)
    requires n < size
    ensures RunOf(Filling(n), size) == Run(View(seq(n, i => i), 0), seq(n, i => i), [], false)
  {
    if n > 0 {
      FillingRuns(n - 1, size);
      assert Filling(n)[..n - 1] == Filling(n - 1);
      assert seq(n, i => i) == seq(n - 1, i => i) + [n - 1];
    }
  }

  /** It does not deliver in order, whatever its size. */
  lemma FillingIsOutOfOrder(size: nat)
    requires size >= 2
    ensures !InOrder(RunOf(Filling(size), size))
  {
    FillingRuns(size - 1, size);
    assert Filling(size)[..size - 1] == Filling(size - 1);
    FifoUnlessFilledFromZero(Filling(size), size);
  }
}
