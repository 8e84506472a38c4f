/**
  Small objects: the size classes, and the page run that serves one class. Free
  objects of a run are threaded through their first word; a word 0 marks the
  object from which nothing further has been handed out yet.
  */
module SmallObjects {
  import opened Arithmetic
  import SpanHeap

  // ------------------------------------------------------------- size classes

  const TEMPLATE: seq<nat> := [
    0, 4, 8, 16, 32, 48, 56, 64, 72, 80, 88, 96, 112, 128, 144, 160, 176, 192,
    208, 224, 240, 256, 272, 288, 320, 352, 384, 448, 512, 576, 672, 800,
    1024, 1088, 1344, 1632, 2016, 2720, 3040, 4080]

  lemma TemplateIncreases(i: nat, j: nat)
    requires i < j < |TEMPLATE|
    ensures TEMPLATE[i] < TEMPLATE[j]
  {
    if i + 1 < j {
      TemplateIncreases(i, j - 1);
      assert TEMPLATE[j - 1] < TEMPLATE[j];
    }
  }

  lemma TemplateRows()
    ensures forall r :: 6 <= r <= 11 ==> TEMPLATE[r] == 8 * r + 8
    ensures forall r :: 12 <= r <= 23 ==> TEMPLATE[r] == 16 * r - 80
    ensures TEMPLATE[0] == 0 && TEMPLATE[1] == 4 && TEMPLATE[2] == 8 && TEMPLATE[3] == 16 && TEMPLATE[4] == 32
    ensures TEMPLATE[5] == 48
    ensures TEMPLATE[24] == 320 && TEMPLATE[39] == 4080
  {}

  /** The smallest class that can hold an object of the size. */
  ghost predicate Tightest(slot: nat, size: nat) {
    1 <= slot < |TEMPLATE| && size <= TEMPLATE[slot] && forall j :: 1 <= j < slot ==> TEMPLATE[j] < size
  }

  lemma TightestAt(slot: nat, size: nat)
    requires 1 <= slot < |TEMPLATE| && 0 < size
    ensures Tightest(slot, size) <==> TEMPLATE[slot - 1] < size <= TEMPLATE[slot]
  {
    assert TEMPLATE[0] == 0;
    forall j | 1 <= j < slot - 1 ensures TEMPLATE[j] < TEMPLATE[slot - 1] { TemplateIncreases(j, slot - 1); }
  }

  lemma TemplateEnds()
    ensures |TEMPLATE| == 40 && TEMPLATE[24] == 320 && TEMPLATE[39] == 4080
  {}

  lemma Above24(mid: nat)
    requires 24 < mid < 40
    ensures 320 < TEMPLATE[mid] && TEMPLATE[mid - 1] < TEMPLATE[mid]
  {
    TemplateIncreases(24, mid);
    TemplateIncreases(mid - 1, mid);
  }

  /** The binary search above 288 bytes never considers class 24 itself. */
  method SearchSlot(size: nat) returns (slot: nat)
    requires 288 < size <= 4080
    ensures 25 <= slot < |TEMPLATE| && size <= TEMPLATE[slot]
    ensures 320 < size ==> TEMPLATE[slot - 1] < size
    ensures size <= 320 ==> slot == 25
  {
    TemplateEnds();
    var lo, hi := 24, 39;
    while hi > lo + 1
      invariant 24 <= lo < hi <= 39
      invariant size <= TEMPLATE[hi]
      invariant 320 < size ==> TEMPLATE[lo] < size
      invariant size <= 320 ==> lo == 24
    {
      var mid := lo + (hi - lo) / 2;
      var bin := TEMPLATE[mid];
      Above24(mid);
      if bin == size {
        return mid;
      } else if bin < size { lo := mid; }
      else { hi := mid; }
    }
    return hi;
  }

  function LowSlot(size: nat): nat {
    if size <= 4 then 1 else if size <= 8 then 2 else if size <= 16 then 3 else if size <= 32 then 4 else 5
  }

  lemma LowSlotIsTightest(size: nat)
    requires 1 <= size <= 48
    ensures Tightest(LowSlot(size), size)
  {
    TemplateRows();
    TightestAt(LowSlot(size), size);
  }

  lemma RowSlotIsTightest(size: nat)
    requires 48 < size <= 288
    ensures size <= 96 ==> Tightest((size - 1) / 8, size)
    ensures size > 96 ==> Tightest((size - 1) / 16 + 6, size)
  {
    TemplateRows();
    TightestAt(if size <= 96 then (size - 1) / 8 else (size - 1) / 16 + 6, size);
  }

  lemma SearchedSlotIsTightest(size: nat, slot: nat)
    requires 288 < size && 25 <= slot < |TEMPLATE| && size <= TEMPLATE[slot]
    requires if 320 < size then TEMPLATE[slot - 1] < size else slot == 25
    ensures Tightest(slot, size) <==> size > 320
    ensures size <= 320 ==> Tightest(24, size)
  {
    TemplateRows();
    TightestAt(slot, size);
    TightestAt(24, size);
  }

  /**
    The class chosen always fits, and is the smallest that does, except for the sizes 289 to 320, which skip class 24.
    */
  method BinSlot(size: nat) returns (slot: nat)
    requires 1 <= size <= 4080
    ensures 1 <= slot < |TEMPLATE| && size <= TEMPLATE[slot]
    ensures Tightest(slot, size) <==> !(288 < size <= 320)
    ensures 288 < size <= 320 ==> Tightest(24, size) && slot == 25
  {
    if size <= 48 {
      slot := LowSlot(size);
      LowSlotIsTightest(size);
    } else if size <= 96 {
      slot := (size - 1) / 8;
      RowSlotIsTightest(size);
    } else if size <= 288 {
      slot := (size - 1) / 16 + 6;
      RowSlotIsTightest(size);
    } else {
      slot := SearchSlot(size);
      SearchedSlotIsTightest(size, slot);
    }
  }

  // ---------------------------------------------------------- one run of pages

  const PAGE_HEADER := 16

  /** Geometry of a run: `bytes` long, divided after the header into objects of `size` bytes. */
  datatype Shape = Shape(size: nat, bytes: nat, count: nat)

  ghost predicate ShapeOk(g: Shape) {
    4 <= g.size && 2 <= g.count && PAGE_HEADER + g.count * g.size <= g.bytes < PAGE_HEADER + (g.count + 1) * g.size
  }

  /** The geometry of the run of a class; its offsets fit the 16-bit fields that hold them. */
  function ClassShape(slot: nat): Shape
    requires 1 <= slot < |TEMPLATE|
  {
    TemplateIncreases(0, slot);
    Shape(TEMPLATE[slot], ClassBytes(slot), (ClassBytes(slot) - PAGE_HEADER) / TEMPLATE[slot])
  }

  function ClassBytes(slot: nat): nat { SpanHeap.BinSpanSize(slot) * 4096 }

  /** Objects of up to 800 bytes live in runs of two pages, those of up to 2720 in runs of four, the others in six. */
  lemma ClassPages(slot: nat)
    requires 1 <= slot < |TEMPLATE|
    ensures ClassBytes(slot) == 4096 * (if TEMPLATE[slot] <= 800 then 2 else if TEMPLATE[slot] <= 2720 then 4 else 6)
  {
    assert TEMPLATE[31] == 800 && TEMPLATE[32] == 1024 && TEMPLATE[37] == 2720 && TEMPLATE[38] == 3040;
    if slot < 31 { TemplateIncreases(slot, 31); }
    if slot > 32 { TemplateIncreases(32, slot); }
    if slot < 37 { TemplateIncreases(slot, 37); }
    if slot > 38 { TemplateIncreases(38, slot); }
  }

  lemma WholeObjects(n: nat, room: nat)
    requires 0 < n && 2 * n <= room
    ensures var c := room / n; 2 <= c && c * n <= room < (c + 1) * n
  {
    var c := room / n;
    assert c * n + room % n == room && (c + 1) * n == c * n + n;
    if c < 2 { MulMonotone(c + 1, 2, n); }
  }

  lemma ClassBounds(slot: nat)
    requires 1 <= slot < |TEMPLATE|
    ensures 4 <= TEMPLATE[slot] && 2 * TEMPLATE[slot] <= ClassBytes(slot) - PAGE_HEADER
  {
    TemplateRows();
    if slot > 1 { TemplateIncreases(1, slot); }
    if slot < 31 { TemplateIncreases(slot, 31); }
    if slot < 39 { TemplateIncreases(slot, 39); }
    assert TEMPLATE[31] == 800;
  }

  lemma EveryClassHasShape(slot: nat)
    requires 1 <= slot < |TEMPLATE|
    ensures TEMPLATE[slot] > 0 && ShapeOk(ClassShape(slot)) && ClassShape(slot).bytes < 0x8000
  {
    ClassBounds(slot);
    WholeObjects(TEMPLATE[slot], SpanHeap.BinSpanSize(slot) * 4096 - PAGE_HEADER);
  }

  function Offset(g: Shape, i: nat): (o: nat)
    ensures o >= PAGE_HEADER
  {
    PAGE_HEADER + i * g.size
  }

  lemma OffsetsApart(g: Shape, i: nat, j: nat)
    requires ShapeOk(g) && i < j
    ensures Offset(g, i) + g.size <= Offset(g, j)
    ensures j < g.count ==> Offset(g, j) + g.size <= g.bytes
    ensures Offset(g, i) + 2 * g.size <= g.bytes <==> i + 1 < g.count
  {
    var n := g.size;
    assert i * n + n == (i + 1) * n && j * n + n == (j + 1) * n && i * n + 2 * n == (i + 2) * n;
    MulMonotone(i + 1, j, n);
    if j < g.count { MulMonotone(j + 1, g.count, n); }
    if i + 1 < g.count { MulMonotone(i + 2, g.count, n); } else { MulMonotone(g.count + 1, i + 2, n); }
  }

  /** The header fields and the words of a run; word o is the 16-bit value at byte offset o. */
  datatype Page = Page(oFree: int, nUsed: int, word: seq<int>)

  /** Malloc's fast path, for oFree > 1. */
  function AfterMalloc(g: Shape, p: Page): Page
    requires 0 <= p.oFree < |p.word| == g.bytes && 0 < g.size
  {
    if p.word[p.oFree] == 0 && p.oFree + 2 * g.size <= g.bytes then
      var next := p.oFree + g.size;
      Page(next, p.nUsed + 1, p.word[next := 0])
    else Page(p.word[p.oFree], p.nUsed + 1, p.word)
  }

  /** Free while the run stays in use. */
  function AfterFree(p: Page, o: nat): Page
    requires o < |p.word|
  {
    Page(o, p.nUsed - 1, p.word[o := p.oFree])
  }

  ghost predicate ChainLink(g: Shape, p: Page, chain: seq<nat>, i: nat)
    requires i < |chain|
  {
    && chain[i] < g.count && Offset(g, chain[i]) < |p.word|
    && p.word[Offset(g, chain[i])] == (if i + 1 < |chain| then Offset(g, chain[i + 1]) else 0)
  }

  /** Objects up to and including this one have been handed out at least once, or are next in line. */
  ghost function Frontier(g: Shape, chain: seq<nat>): int {
    if chain == [] then g.count - 1 else chain[|chain| - 1]
  }

  /**
    oFree heads a chain of the free objects without repetition, which ends at the frontier; all others up to there are
    live.
    */
  ghost predicate Represents(g: Shape, p: Page, live: set<nat>, chain: seq<nat>) {
    && ShapeOk(g) && |p.word| == g.bytes
    && p.oFree == (if chain == [] then 0 else Offset(g, chain[0]))
    && (forall i {:trigger ChainLink(g, p, chain, i)} :: 0 <= i < |chain| ==> ChainLink(g, p, chain, i))
    && (forall i, j :: 0 <= i < j < |chain| ==> chain[i] != chain[j])
    && (forall x :: x in chain ==> x !in live && x <= Frontier(g, chain))
    && (forall x :: x in live ==> x <= Frontier(g, chain))
    && (forall x: nat :: x <= Frontier(g, chain) ==> x in live || x in chain)
    && p.nUsed == |live|
  }

  /** A live object lies between the header and the end of the run. */
  lemma LiveObjectIsInside(g: Shape, p: Page, live: set<nat>, chain: seq<nat>, i: nat)
    requires Represents(g, p, live, chain) && i in live
    ensures i < g.count && PAGE_HEADER <= Offset(g, i) && Offset(g, i) + g.size <= g.bytes
  {
    if chain != [] { assert ChainLink(g, p, chain, |chain| - 1); }
    if i == 0 { OffsetsApart(g, 0, 1); } else { OffsetsApart(g, 0, i); }
  }

  /** So do any two, and they do not overlap. */
  lemma LiveObjectsAreDisjoint(g: Shape, p: Page, live: set<nat>, chain: seq<nat>, i: nat, j: nat)
    requires Represents(g, p, live, chain) && i in live && j in live && i < j
    ensures PAGE_HEADER <= Offset(g, i) && Offset(g, i) + g.size <= Offset(g, j) && Offset(g, j) + g.size <= g.bytes
  {
    LiveObjectIsInside(g, p, live, chain, j);
    OffsetsApart(g, i, j);
  }

  ghost function ChainAfterMalloc(g: Shape, chain: seq<nat>): seq<nat>
    requires chain != []
  {
    if |chain| == 1 && chain[0] + 1 < g.count then [chain[0] + 1] else chain[1..]
  }

  lemma MallocAtFrontier(g: Shape, p: Page, live: set<nat>, c: nat)
    requires Represents(g, p, live, [c]) && c < g.count && Offset(g, c) < |p.word|
    ensures Represents(g, AfterMalloc(g, p), live + {c}, ChainAfterMalloc(g, [c]))
  {
    var chain := [c];
    assert ChainLink(g, p, chain, 0) && c in chain;
    OffsetsApart(g, c, c + 1);
    assert Offset(g, c + 1) == Offset(g, c) + g.size;
  }

  lemma MallocFromChain(g: Shape, p: Page, live: set<nat>, chain: seq<nat>)
    requires |chain| > 1 && Represents(g, p, live, chain) && Offset(g, chain[0]) < |p.word|
    ensures Represents(g, AfterMalloc(g, p), live + {chain[0]}, chain[1..])
  {
    var q, rest, c := AfterMalloc(g, p), chain[1..], chain[0];
    assert ChainLink(g, p, chain, 0) && c in chain;
    forall i | 0 <= i < |rest| ensures ChainLink(g, q, rest, i) { assert ChainLink(g, p, chain, i + 1); }
    assert Frontier(g, rest) == Frontier(g, chain);
    forall x | x in chain && x != c ensures x in rest {
      var i :| 0 <= i < |chain| && chain[i] == x;
      assert rest[i - 1] == x;
    }
    forall x | x in rest ensures x in chain && x != c {
      var i :| 0 <= i < |rest| && rest[i] == x;
      assert chain[i + 1] == x;
    }
  }

  /** Whenever a free object is offered, handing it out keeps the run in order and the object was not live. */
  lemma MallocKeeps(g: Shape, p: Page, live: set<nat>, chain: seq<nat>)
    requires Represents(g, p, live, chain) && p.oFree > 1
    ensures chain != [] && chain[0] !in live && chain[0] < g.count && p.oFree == Offset(g, chain[0]) < |p.word|
    ensures Represents(g, AfterMalloc(g, p), live + {chain[0]}, ChainAfterMalloc(g, chain))
  {
    assert ChainLink(g, p, chain, 0) && chain[0] in chain;
    if |chain| == 1 {
      assert chain == [chain[0]];
      MallocAtFrontier(g, p, live, chain[0]);
    } else {
      MallocFromChain(g, p, live, chain);
    }
  }

  /** Freeing keeps the run in order unless the run was full and the object is not the last one. */
  lemma FreeKeepsUnlessFull(g: Shape, p: Page, live: set<nat>, chain: seq<nat>, i: nat)
    requires Represents(g, p, live, chain) && i in live
    ensures i < g.count && Offset(g, i) < |p.word|
    ensures (exists c :: Represents(g, AfterFree(p, Offset(g, i)), live - {i}, c)) <==>
              !(p.oFree == 0 && i != g.count - 1)
  {
    if chain != [] { assert ChainLink(g, p, chain, |chain| - 1); assert ChainLink(g, p, chain, 0); }
    OffsetsApart(g, i, i + 1);
    var q := AfterFree(p, Offset(g, i));
    if p.oFree == 0 && i != g.count - 1 {
      forall c ensures !Represents(g, q, live - {i}, c) { StuckChain(g, p, live, c, i); }
    } else {
      FreeKeeps(g, p, live, chain, i);
    }
  }

  lemma StuckChain(g: Shape, p: Page, live: set<nat>, c: seq<nat>, i: nat)
    requires Represents(g, p, live, []) && i in live && i < g.count - 1 && Offset(g, i) < |p.word|
    ensures !Represents(g, AfterFree(p, Offset(g, i)), live - {i}, c)
  {
    var q := AfterFree(p, Offset(g, i));
    var last: nat := g.count - 1;
    assert last <= Frontier(g, []);
    assert last in live - {i};
    if c != [] {
      if c[0] < i { OffsetsApart(g, c[0], i); }
      if i < c[0] { OffsetsApart(g, i, c[0]); }
      assert Represents(g, q, live - {i}, c) ==> ChainLink(g, q, c, 0);
    }
  }

  lemma FreeKeeps(g: Shape, p: Page, live: set<nat>, chain: seq<nat>, i: nat)
    requires Represents(g, p, live, chain) && i in live && i < g.count && Offset(g, i) < |p.word|
    requires p.oFree != 0 || i == g.count - 1
    ensures Represents(g, AfterFree(p, Offset(g, i)), live - {i}, [i] + chain)
  {
    var q, more := AfterFree(p, Offset(g, i)), [i] + chain;
    assert i !in chain;
    forall j | 0 <= j < |more| ensures ChainLink(g, q, more, j) {
      if j > 0 {
        assert ChainLink(g, p, chain, j - 1) && chain[j - 1] in chain;
        if chain[j - 1] < i { OffsetsApart(g, chain[j - 1], i); } else { OffsetsApart(g, i, chain[j - 1]); }
      }
    }
    assert Frontier(g, more) == Frontier(g, chain);
  }

  /**
    After such a free the next two requests get the freed object and then its live successor, whose first word is
    cleared.
    */
  lemma FullRunHandsOutLiveObject(g: Shape, p: Page, live: set<nat>, i: nat)
    requires Represents(g, p, live, []) && i in live && i + 1 < g.count
    ensures Offset(g, i) < |p.word|
    ensures var q := AfterFree(p, Offset(g, i));
            && q.oFree == Offset(g, i)
            && var r := AfterMalloc(g, q);
               r.oFree == Offset(g, i + 1) > 1 && i + 1 in live && r.oFree < |r.word| && r.word[r.oFree] == 0
  {
    OffsetsApart(g, i, i + 1);
    assert Offset(g, i + 1) == Offset(g, i) + g.size;
    assert i + 1 <= Frontier(g, []);
  }

  lemma {:induction false} InitialSegment(n: nat) returns (all: set<nat>)
    ensures |all| == n && forall x: nat :: x in all <==> x < n
  {
    all := {};
    if n > 0 {
      all := InitialSegment(n - 1);
      all := all + {n - 1};
    }
  }

  lemma SubsetIsSmaller(a: set<nat>, b: set<nat>)
    requires a <= b
    ensures |a| <= |b| && (a != b ==> |a| < |b|)
  {
    assert b == a + (b - a);
    if a != b {
      var x :| x in b - a;
      assert |b - a| > 0;
    }
  }

  /**
    A run in order counts its live objects, offers a free one if and only if not all are live, and names none
    otherwise.
    */
  lemma FullExactly(g: Shape, p: Page, live: set<nat>)
    requires InOrder(g, p, live)
    ensures p.nUsed == |live| <= g.count && forall x :: x in live ==> x < g.count
    ensures (p.oFree > 1 <==> |live| < g.count) && (p.oFree == 0 <==> |live| == g.count)
  {
    var chain :| Represents(g, p, live, chain);
    var all := InitialSegment(g.count);
    if chain == [] {
      assert live == all;
    } else {
      assert ChainLink(g, p, chain, 0) && ChainLink(g, p, chain, |chain| - 1);
      assert chain[0] in chain && chain[0] in all;
      SubsetIsSmaller(live, all);
    }
  }

  // ----------------------------------------------------------------- whole runs

  datatype Op = Alloc | Dealloc(object: nat) | Store(object: nat, within: nat, value: int)

  function IndexOf(g: Shape, o: nat): nat
    requires g.size > 0 && o >= PAGE_HEADER
  {
    (o - PAGE_HEADER) / g.size
  }

  lemma IndexOfOffset(g: Shape, i: nat)
    requires g.size > 0
    ensures IndexOf(g, Offset(g, i)) == i
  {
    var q := IndexOf(g, Offset(g, i));
    assert q * g.size <= i * g.size < (q + 1) * g.size;
    if q < i { MulMonotone(q + 1, i, g.size); }
  }

  /**
    Objects are stored to, anywhere in them, and freed while live; nothing but the last object is freed from a full
    run.
    */
  ghost predicate Allowed(g: Shape, p: Page, live: set<nat>, op: Op) {
    match op
    case Alloc => 1 < p.oFree
    case Dealloc(i) => i in live && !(p.oFree == 0 && i != g.count - 1)
    case Store(i, within, _) => i in live && within + 2 <= g.size
  }

  ghost predicate InOrder(g: Shape, p: Page, live: set<nat>) {
    exists chain :: Represents(g, p, live, chain)
  }

  ghost function Step(g: Shape, p: Page, live: set<nat>, op: Op): (Page, set<nat>)
    requires InOrder(g, p, live) && Allowed(g, p, live, op)
  {
    var chain :| Represents(g, p, live, chain);
    match op
    case Alloc => MallocKeeps(g, p, live, chain); (AfterMalloc(g, p), live + {IndexOf(g, p.oFree)})
    case Dealloc(i) => FreeKeepsUnlessFull(g, p, live, chain, i); (AfterFree(p, Offset(g, i)), live - {i})
    case Store(i, within, v) =>
      LiveObjectIsInside(g, p, live, chain, i); (p.(word := p.word[Offset(g, i) + within := v]), live)
  }

  /** A store changes one word, inside its object. */
  lemma StoreIs(g: Shape, p: Page, live: set<nat>, i: nat, within: nat, v: int)
    requires InOrder(g, p, live) && Allowed(g, p, live, Store(i, within, v))
    ensures var at := 16 + i * g.size;
            && at <= at + within < at + g.size - 1 < |p.word|
            && Step(g, p, live, Store(i, within, v)) == (p.(word := p.word[at + within := v]), live)
  {
    var chain :| Represents(g, p, live, chain);
    LiveObjectIsInside(g, p, live, chain, i);
  }

  lemma StepKeeps(g: Shape, p: Page, live: set<nat>, op: Op)
    requires InOrder(g, p, live) && Allowed(g, p, live, op)
    ensures var (q, l) := Step(g, p, live, op); InOrder(g, q, l)
  {
    var chain :| Represents(g, p, live, chain);
    match op
    case Alloc =>
      MallocKeeps(g, p, live, chain);
      IndexOfOffset(g, chain[0]);
      assert Represents(g, AfterMalloc(g, p), live + {chain[0]}, ChainAfterMalloc(g, chain));
    case Dealloc(i) =>
      FreeKeepsUnlessFull(g, p, live, chain, i);
    case Store(i, within, v) =>
      LiveObjectIsInside(g, p, live, chain, i);
      StoreKeeps(g, p, live, chain, i, within, v);
  }

  lemma StoreKeeps(g: Shape, p: Page, live: set<nat>, chain: seq<nat>, i: nat, within: nat, v: int)
    requires Represents(g, p, live, chain) && i in live && within < g.size && Offset(g, i) + within < |p.word|
    ensures Represents(g, p.(word := p.word[Offset(g, i) + within := v]), live, chain)
  {
    var q := p.(word := p.word[Offset(g, i) + within := v]);
    forall j | 0 <= j < |chain| ensures ChainLink(g, q, chain, j) {
      assert ChainLink(g, p, chain, j) && chain[j] in chain;
      if chain[j] < i { OffsetsApart(g, chain[j], i); } else { OffsetsApart(g, i, chain[j]); }
    }
  }

  ghost predicate Orderly(g: Shape, p: Page, live: set<nat>, ops: seq<Op>)
    requires InOrder(g, p, live)
    decreases ops
  {
    ops == [] ||
    (Allowed(g, p, live, ops[0]) &&
     (StepKeeps(g, p, live, ops[0]); var (q, l) := Step(g, p, live, ops[0]); Orderly(g, q, l, ops[1..])))
  }

  ghost function Run(g: Shape, p: Page, live: set<nat>, ops: seq<Op>): (Page, set<nat>)
    requires InOrder(g, p, live) && Orderly(g, p, live, ops)
    decreases ops
  {
    if ops == [] then (p, live)
    else StepKeeps(g, p, live, ops[0]); var (q, l) := Step(g, p, live, ops[0]); Run(g, q, l, ops[1..])
  }

  /**
    The run as Malloc sets it up on memory with any contents: object 0 is live, object 1 the frontier, and its word
    alone is cleared.
    */
  function FreshPage(g: Shape, memory: seq<int>): Page
    requires PAGE_HEADER + g.size < g.bytes == |memory|
  {
    Page(PAGE_HEADER + g.size, 1, memory[PAGE_HEADER + g.size := 0])
  }

  /** Over every orderly run: the chain is exact, nUsed counts the live objects. */
  lemma {:induction false} EveryRunStaysInOrder(g: Shape, p: Page, live: set<nat>, ops: seq<Op>)
    requires InOrder(g, p, live) && Orderly(g, p, live, ops)
    ensures var (q, l) := Run(g, p, live, ops); InOrder(g, q, l) && q.nUsed == |l|
    decreases ops
  {
    if ops != [] {
      StepKeeps(g, p, live, ops[0]);
      var (q, l) := Step(g, p, live, ops[0]);
      EveryRunStaysInOrder(g, q, l, ops[1..]);
    }
  }

  lemma FreshPageIsInOrder(g: Shape, memory: seq<int>)
    requires ShapeOk(g) && |memory| == g.bytes
    ensures PAGE_HEADER + g.size < g.bytes && InOrder(g, FreshPage(g, memory), {0})
  {
    OffsetsApart(g, 0, 1);
    assert Offset(g, 1) == PAGE_HEADER + g.size;
    assert ChainLink(g, FreshPage(g, memory), [1], 0);
    assert Represents(g, FreshPage(g, memory), {0}, [1]);
  }

  lemma AllocAddsOne(g: Shape, p: Page, live: set<nat>)
    requires InOrder(g, p, live) && p.oFree > 1
    ensures Allowed(g, p, live, Alloc) && |Step(g, p, live, Alloc).1| == |live| + 1
    ensures exists i :: i !in live && i < g.count && Step(g, p, live, Alloc).1 == live + {i}
  {
    var chain :| Represents(g, p, live, chain);
    MallocKeeps(g, p, live, chain);
    IndexOfOffset(g, chain[0]);
  }

  /** A run that only hands out objects fills up. */
  lemma {:induction false} RunFillsUp(g: Shape, p: Page, live: set<nat>, c: nat) returns (ops: seq<Op>)
    requires Represents(g, p, live, [c]) && c < g.count
    ensures InOrder(g, p, live) && Orderly(g, p, live, ops)
    ensures var (q, l) := Run(g, p, live, ops); Represents(g, q, l, []) && live <= l
    decreases g.count - c
  {
    AllocAtFrontier(g, p, live, c);
    var q, l := AfterMalloc(g, p), live + {c};
    var more := [];
    if c + 1 < g.count { more := RunFillsUp(g, q, l, c + 1); }
    RunFrom(g, p, live, Alloc, more);
    ops := [Alloc] + more;
  }

  lemma AllocAtFrontier(g: Shape, p: Page, live: set<nat>, c: nat)
    requires Represents(g, p, live, [c]) && c < g.count
    ensures InOrder(g, p, live) && Allowed(g, p, live, Alloc)
    ensures 0 <= p.oFree < |p.word| == g.bytes && 0 < g.size
    ensures Step(g, p, live, Alloc) == (AfterMalloc(g, p), live + {c})
    ensures Represents(g, AfterMalloc(g, p), live + {c}, if c + 1 < g.count then [c + 1] else [])
  {
    MallocKeeps(g, p, live, [c]);
    IndexOfOffset(g, c);
  }

  lemma RunFrom(g: Shape, p: Page, live: set<nat>, op: Op, ops: seq<Op>)
    requires InOrder(g, p, live) && Allowed(g, p, live, op)
    requires var (q, l) := Step(g, p, live, op); InOrder(g, q, l) && Orderly(g, q, l, ops)
    ensures Orderly(g, p, live, [op] + ops)
    ensures var (q, l) := Step(g, p, live, op); Run(g, p, live, [op] + ops) == Run(g, q, l, ops)
  {
    assert ([op] + ops)[1..] == ops;
  }

  /** So every class has runs of operations after which freeing object 0 puts the run out of order. */
  lemma FullRunIsReached(slot: nat, memory: seq<int>) returns (ops: seq<Op>)
    requires 1 <= slot < |TEMPLATE| && |memory| == ClassBytes(slot)
    ensures var g := ClassShape(slot);
            && ShapeOk(g) && PAGE_HEADER + g.size < g.bytes && InOrder(g, FreshPage(g, memory), {0})
            && Orderly(g, FreshPage(g, memory), {0}, ops)
            && var (q, l) := Run(g, FreshPage(g, memory), {0}, ops);
               && 0 in l && Offset(g, 0) < |q.word|
               && !InOrder(g, AfterFree(q, Offset(g, 0)), l - {0})
  {
    EveryClassHasShape(slot);
    var g := ClassShape(slot);
    FreshPageIsInOrder(g, memory);
    var p := FreshPage(g, memory);
    OffsetsApart(g, 0, 1);
    assert ChainLink(g, p, [1], 0) && Represents(g, p, {0}, [1]);
    ops := RunFillsUp(g, p, {0}, 1);
    var (q, l) := Run(g, p, {0}, ops);
    FreeKeepsUnlessFull(g, q, l, [], 0);
  }

  // ------------------------------------------------------------- the run itself

  /** A run of pages serving one class, updated in place. */
  class BinRun {
    const size: nat
    const bytes: nat
    ghost const count: nat
    const word: array<int>
    var oFree: int
    var nUsed: int

    ghost function Geometry(): Shape
      reads this
    {
      Shape(size, bytes, count)
    }

    ghost function State(): Page
      reads this, word
    {
      Page(oFree, nUsed, word[..])
    }

    /** Malloc turns the pages of a free run, whatever they hold, into a run of class `slot`. */
    constructor (slot: nat, memory: seq<int>)
      requires 1 <= slot < |TEMPLATE| && |memory| == ClassBytes(slot)
      ensures Geometry() == ClassShape(slot) && word.Length == bytes && fresh(word)
      ensures PAGE_HEADER + size < bytes && State() == FreshPage(Geometry(), memory)
      ensures InOrder(Geometry(), State(), {0})
    {
      EveryClassHasShape(slot);
      FreshPageIsInOrder(ClassShape(slot), memory);
      size, bytes, count := TEMPLATE[slot], ClassBytes(slot), ClassShape(slot).count;
      oFree, nUsed := PAGE_HEADER + TEMPLATE[slot], 1;
      word := new int[|memory|](k requires 0 <= k < |memory| => memory[k]);
      new;
      word[oFree] := 0;
      assert word[..] == memory[oFree := 0];
    }

    /** The next free object, or the frontier, is handed out. */
    method Malloc(ghost live: set<nat>) returns (o: int)
      requires InOrder(Geometry(), State(), live) && oFree > 1
      modifies this, word
      ensures old(0 <= oFree < word.Length == bytes) && 0 < size
      ensures State() == AfterMalloc(Geometry(), old(State()))
      ensures exists i: nat :: o == Offset(Geometry(), i) && i !in live && i < count &&
                InOrder(Geometry(), State(), live + {i})
    {
      ghost var chain :| Represents(Geometry(), State(), live, chain);
      MallocKeeps(Geometry(), State(), live, chain);
      o := oFree;
      nUsed := nUsed + 1;
      if word[o] == 0 && o + 2 * size <= bytes {
        oFree := oFree + size;
        word[oFree] := 0;
      } else {
        oFree := word[o];
      }
      assert o == Offset(Geometry(), chain[0]);
    }

    /** An object goes back to the front of the chain. */
    method Free(o: nat, ghost i: nat, ghost live: set<nat>)
      requires InOrder(Geometry(), State(), live) && i in live && o == Offset(Geometry(), i)
      modifies this, word
      ensures o < word.Length
      ensures State() == AfterFree(old(State()), o)
      ensures InOrder(Geometry(), State(), live - {i}) <==> !(old(oFree) == 0 && i != count - 1)
    {
      ghost var chain :| Represents(Geometry(), State(), live, chain);
      FreeKeepsUnlessFull(Geometry(), State(), live, chain, i);
      nUsed := nUsed - 1;
      word[o] := oFree;
      oFree := o;
    }
  }
}
