/**
  Chunks and small objects together: the span heap, a chain of objects in each small-object run, and the lists that
  small requests are served from. A page that such a list leads to need not be a run of the class any more; a request
  or a free that would read or write its header there ends a run of the model as a wild access.
  */
module ArenaObjects {
  import opened SpanHeap
  import opened SmallObjects
  import opened Links
  import opened BinLists
  import A = Arena

  datatype RunState = RunState(slot: nat, page: Page, live: set<nat>)

  /** `hdr` holds the links in the headers of small-object runs, `bin` the heads of their lists. */
  datatype State = State(heap: Heap, runs: map<nat, RunState>, hdr: seq<Header>, bin: seq<int>)

  datatype Step =
    | GrowBy(n: nat)
    | BigRequest(pages: nat)
    | BigFree(h: nat)
    | SmallRequest(slot: nat, memory: seq<int>)   // `memory` is what a new run's pages hold
    | StoreTo(h: nat, i: nat, within: nat, value: int)
    | SmallFree(h: nat, i: nat)

  datatype Outcome = Fine(state: State) | Wild(page: int)

  // ----------------------------------------------------------------- invariant

  ghost function Slots(runs: map<nat, RunState>): map<nat, nat> { map h | h in runs :: runs[h].slot }

  ghost predicate RunOk(taken: map<nat, Span>, runs: map<nat, RunState>, h: nat)
    requires h in runs
  {
    && h in taken && taken[h].kind == Bin(runs[h].slot) && 1 <= runs[h].slot < |TEMPLATE|
    && InOrder(ClassShape(runs[h].slot), runs[h].page, runs[h].live)
  }

  /** Every small-object run has its chain, and every chain its run. */
  ghost predicate RunsOk(taken: map<nat, Span>, runs: map<nat, RunState>) {
    && (forall h {:trigger RunOk(taken, runs, h)} :: h in runs ==> RunOk(taken, runs, h))
    && (forall h :: h in taken && taken[h].kind.Bin? ==> h in runs)
  }

  ghost predicate LinksInRange(runs: map<nat, RunState>, hdr: seq<Header>, bin: seq<int>) {
    && |bin| == BIN_SLOTS + 1
    && (forall c :: 0 <= c < |bin| ==> 0 <= bin[c] < |hdr|)
    && (forall h :: h in runs ==> 0 < h < |hdr| && 0 <= hdr[h].pri < |hdr| && 0 <= hdr[h].next < |hdr|)
  }

  /** Nothing is said here about where the lists lead. */
  ghost predicate Inv(s: State) {
    && WellFormed(s.heap) && s.heap.pages < |s.hdr|
    && RunsOk(Taken(s.heap), s.runs) && LinksInRange(s.runs, s.hdr, s.bin)
  }

  ghost function ShapeOf(s: State, h: nat): (g: Shape)
    requires Inv(s) && h in s.runs
    ensures ShapeOk(g) && InOrder(g, s.runs[h].page, s.runs[h].live)
  {
    assert RunOk(Taken(s.heap), s.runs, h);
    EveryClassHasShape(s.runs[h].slot);
    ClassShape(s.runs[h].slot)
  }

  // --------------------------------------------------------------- transitions

  ghost predicate Enabled(s: State, step: Step)
    requires Inv(s)
  {
    match step
    case GrowBy(n) => 1 <= n <= SPAN_SLOTS && s.heap.pages + n < |s.hdr|
    case BigRequest(k) => 1 <= k <= SPAN_SLOTS && !SplitsNothing(s.heap, k, |s.hdr| - 1)
    case BigFree(h) => h in s.heap.spans && s.heap.spans[h].kind.Live?
    case SmallRequest(c, memory) => 1 <= c < |TEMPLATE| && |memory| == ClassBytes(c)
    case StoreTo(h, i, within, v) =>
      h in s.runs && Allowed(ShapeOf(s, h), s.runs[h].page, s.runs[h].live, Store(i, within, v))
    case SmallFree(h, i) => h in s.runs && Allowed(ShapeOf(s, h), s.runs[h].page, s.runs[h].live, Dealloc(i))
  }

  ghost predicate IsOf(s: State, c: nat, h: int) { h >= 0 && OfClass(Slots(s.runs), c, h) }

  datatype Choice = TakeNew | Serve(h: nat) | Foreign(page: int)

  /** Which page a small request is served from: the head of the list, else the one behind it, else a new run. */
  ghost function Choose(s: State, c: nat): Choice
    requires Inv(s) && c < |s.bin|
  {
    var h := s.bin[c];
    if h == 0 then TakeNew
    else if !IsOf(s, c, h) then Foreign(h)
    else if s.runs[h].page.oFree > 1 then Serve(h)
    else
      var n := s.hdr[h].next;
      if n == 0 then TakeNew
      else if !IsOf(s, c, n) then Foreign(n)
      else if s.runs[n].page.oFree > 1 then Serve(n)
      else TakeNew
  }

  ghost function AfterObject(s: State, h: nat, op: SmallObjects.Op): State
    requires Inv(s) && h in s.runs && Allowed(ShapeOf(s, h), s.runs[h].page, s.runs[h].live, op)
  {
    var (page, live) := SmallObjects.Step(ShapeOf(s, h), s.runs[h].page, s.runs[h].live, op);
    s.(runs := s.runs[h := RunState(s.runs[h].slot, page, live)])
  }

  /** A new run goes to the front of its list, with its first object handed out. */
  ghost function AfterCarve(s: State, c: nat, memory: seq<int>): State
    requires Inv(s) && 1 <= c < |TEMPLATE| && |memory| == ClassBytes(c)
  {
    match Allocate(s.heap, BinSpanSize(c), Bin(c), |s.hdr| - 1)
    case Granted(b, h) =>
      CarveFits(s, c);
      EveryClassHasShape(c);
      FreshPageIsInOrder(ClassShape(c), memory);
      State(b, s.runs[h := RunState(c, FreshPage(ClassShape(c), memory), {0})], Pushed(s.hdr, s.bin, c, h),
        s.bin[c := h])
    case _ => s
  }

  lemma CarveFits(s: State, c: nat)
    requires Inv(s) && 1 <= c < |TEMPLATE|
    ensures var r := Allocate(s.heap, BinSpanSize(c), Bin(c), |s.hdr| - 1);
            r.Granted? ==>
              && WellFormed(r.heap) && FreshRun(s.heap, r.heap, r.start, BinSpanSize(c), Bin(c))
              && r.heap.pages < |s.hdr| && 0 < r.start < |s.hdr| && r.start !in s.runs
  {
    var r := Allocate(s.heap, BinSpanSize(c), Bin(c), |s.hdr| - 1);
    if r.Granted? {
      AllocateGrantsFreshRun(s.heap, BinSpanSize(c), Bin(c), |s.hdr| - 1);
      assert r.start in s.runs ==> RunOk(Taken(s.heap), s.runs, r.start);
    }
  }

  /** The run stays: not yet empty, or its free chain begins too low, or it heads its list. */
  ghost predicate Stays(s: State, h: nat)
    requires Inv(s) && h in s.runs && s.runs[h].slot < |s.bin|
  {
    var r := s.runs[h];
    r.page.nUsed - 1 > 0 || r.page.oFree < ClassBytes(r.slot) / 8 || s.bin[r.slot] == h
  }

  /** It has become emptier than the head of its list, to whose front it moves. */
  ghost predicate MovesUp(s: State, h: nat)
    requires Inv(s) && h in s.runs && s.runs[h].slot < |s.bin|
  {
    var top := s.bin[s.runs[h].slot];
    top != h && IsOf(s, s.runs[h].slot, top) && s.runs[top].page.nUsed > s.runs[h].page.nUsed - 1
  }

  ghost function AfterFree(s: State, h: nat, i: nat): Outcome
    requires Inv(s) && Enabled(s, SmallFree(h, i))
  {
    assert RunOk(Taken(s.heap), s.runs, h);
    var c, p, n := s.runs[h].slot, s.hdr[h].pri, s.hdr[h].next;
    if Stays(s, h) then
      var t := AfterObject(s, h, Dealloc(i));
      if !IsOf(s, c, s.bin[c]) then Wild(s.bin[c])
      else if !MovesUp(s, h) then Fine(t)
      else if n != 0 && !IsOf(s, c, n) then Wild(n)
      else Fine(t.(hdr := Relinked(s.hdr, s.bin, c, h), bin := s.bin[c := h]))
    else if p != 0 && !IsOf(s, c, p) then Wild(p)
    else if n != 0 && !IsOf(s, c, n) then Wild(n)
    else
      Fine(State(Release(s.heap, h), s.runs - {h}, UnlinkedHeaders(s.hdr, h), if p == 0 then s.bin[c := n] else s.bin))
  }

  ghost function Next(s: State, step: Step): Outcome
    requires Inv(s) && Enabled(s, step)
  {
    match step
    case GrowBy(n) => Fine(s.(heap := Grow(s.heap, n)))
    case BigRequest(k) => Fine(s.(heap := AfterAllocation(s.heap, Allocate(s.heap, k, Live, |s.hdr| - 1))))
    case BigFree(h) => Fine(s.(heap := Release(s.heap, h)))
    case SmallRequest(c, memory) =>
      (match Choose(s, c)
       case Foreign(h) => Wild(h)
       case Serve(h) => Fine(AfterObject(s, h, Alloc))
       case TakeNew => Fine(AfterCarve(s, c, memory)))
    case StoreTo(h, i, within, v) => Fine(AfterObject(s, h, Store(i, within, v)))
    case SmallFree(h, i) => AfterFree(s, h, i)
  }

  // -------------------------------------------------- what every outcome keeps

  lemma RunAdded(taken: map<nat, Span>, runs: map<nat, RunState>, h: nat, k: nat, r: RunState)
    requires RunsOk(taken, runs) && h !in taken && 1 <= r.slot < |TEMPLATE|
    requires InOrder(ClassShape(r.slot), r.page, r.live)
    ensures RunsOk(taken[h := Span(k, Bin(r.slot))], runs[h := r])
  {
    var t, rs := taken[h := Span(k, Bin(r.slot))], runs[h := r];
    forall y | y in rs ensures RunOk(t, rs, y) {
      if y != h { assert RunOk(taken, runs, y); }
    }
  }

  lemma ChunkAdded(taken: map<nat, Span>, runs: map<nat, RunState>, h: nat, k: nat)
    requires RunsOk(taken, runs) && h !in taken
    ensures RunsOk(taken[h := Span(k, Live)], runs)
  {
    var t := taken[h := Span(k, Live)];
    forall y | y in runs ensures RunOk(t, runs, y) { assert RunOk(taken, runs, y); }
  }

  lemma RunRemoved(taken: map<nat, Span>, runs: map<nat, RunState>, h: nat)
    requires RunsOk(taken, runs)
    ensures RunsOk(taken - {h}, runs - {h})
  {
    var t, rs := taken - {h}, runs - {h};
    forall y | y in rs ensures RunOk(t, rs, y) { assert RunOk(taken, runs, y); }
  }

  lemma ObjectKeeps(s: State, h: nat, op: SmallObjects.Op)
    requires Inv(s) && h in s.runs && Allowed(ShapeOf(s, h), s.runs[h].page, s.runs[h].live, op)
    ensures Inv(AfterObject(s, h, op)) && Slots(AfterObject(s, h, op).runs) == Slots(s.runs)
  {
    assert RunOk(Taken(s.heap), s.runs, h);
    SmallObjects.StepKeeps(ShapeOf(s, h), s.runs[h].page, s.runs[h].live, op);
    var (page, live) := SmallObjects.Step(ShapeOf(s, h), s.runs[h].page, s.runs[h].live, op);
    RunChanged(Taken(s.heap), s.runs, h, page, live);
  }

  lemma RunChanged(taken: map<nat, Span>, runs: map<nat, RunState>, h: nat, page: Page, live: set<nat>)
    requires RunsOk(taken, runs) && h in runs && RunOk(taken, runs, h) && InOrder(ClassShape(runs[h].slot), page, live)
    ensures RunsOk(taken, runs[h := RunState(runs[h].slot, page, live)])
    ensures Slots(runs[h := RunState(runs[h].slot, page, live)]) == Slots(runs)
  {
    var rs := runs[h := RunState(runs[h].slot, page, live)];
    forall y | y in rs ensures RunOk(taken, rs, y) {
      if y != h { assert RunOk(taken, runs, y); }
    }
  }

  lemma CarveKeeps(s: State, c: nat, memory: seq<int>)
    requires Inv(s) && 1 <= c < |TEMPLATE| && |memory| == ClassBytes(c)
    ensures Inv(AfterCarve(s, c, memory))
  {
    var r := Allocate(s.heap, BinSpanSize(c), Bin(c), |s.hdr| - 1);
    if r.Granted? {
      CarveFits(s, c);
      EveryClassHasShape(c);
      FreshPageIsInOrder(ClassShape(c), memory);
      var run := RunState(c, FreshPage(ClassShape(c), memory), {0});
      RunAdded(Taken(s.heap), s.runs, r.start, BinSpanSize(c), run);
      PushInRange(s.runs, s.hdr, s.bin, c, r.start, run);
    }
  }

  lemma PushInRange(runs: map<nat, RunState>, hdr: seq<Header>, bin: seq<int>, c: nat, h: nat, run: RunState)
    requires LinksInRange(runs, hdr, bin) && 0 < h < |hdr| && c < |bin|
    ensures LinksInRange(runs[h := run], Pushed(hdr, bin, c, h), bin[c := h])
  {}

  lemma BigKeeps(s: State, step: Step)
    requires Inv(s) && Enabled(s, step) && (step.GrowBy? || step.BigRequest? || step.BigFree?)
    ensures Next(s, step).Fine? && Inv(Next(s, step).state)
  {
    match step
    case GrowBy(n) =>
      GrowKeeps(s.heap, n);
      GrowTaken(s.heap, n);
    case BigRequest(k) =>
      var r := Allocate(s.heap, k, Live, |s.hdr| - 1);
      if r.Granted? {
        AllocateGrantsFreshRun(s.heap, k, Live, |s.hdr| - 1);
        ChunkAdded(Taken(s.heap), s.runs, r.start, k);
      }
    case BigFree(h) =>
      ReleaseReturnsRun(s.heap, h);
      RunRemoved(Taken(s.heap), s.runs, h);
      assert h in s.runs ==> RunOk(Taken(s.heap), s.runs, h);
      assert s.runs - {h} == s.runs;
  }

  lemma RelinkInRange(runs: map<nat, RunState>, hdr: seq<Header>, bin: seq<int>, c: nat, h: nat)
    requires LinksInRange(runs, hdr, bin) && h in runs && c < |bin|
    ensures LinksInRange(runs, Relinked(hdr, bin, c, h), bin[c := h])
  {}

  lemma UnlinkInRange(runs: map<nat, RunState>, hdr: seq<Header>, bin: seq<int>, c: nat, h: nat)
    requires LinksInRange(runs, hdr, bin) && h in runs && c < |bin|
    ensures LinksInRange(runs - {h}, UnlinkedHeaders(hdr, h), bin)
    ensures LinksInRange(runs - {h}, UnlinkedHeaders(hdr, h), bin[c := hdr[h].next])
  {}

  lemma StayKeeps(s: State, h: nat, i: nat)
    requires Inv(s) && Enabled(s, SmallFree(h, i)) && s.runs[h].slot < |s.bin| && Stays(s, h)
    requires AfterFree(s, h, i).Fine?
    ensures Inv(AfterFree(s, h, i).state)
  {
    ObjectKeeps(s, h, Dealloc(i));
    RelinkInRange(AfterObject(s, h, Dealloc(i)).runs, s.hdr, s.bin, s.runs[h].slot, h);
  }

  lemma ReturnKeeps(s: State, h: nat, i: nat)
    requires Inv(s) && Enabled(s, SmallFree(h, i)) && s.runs[h].slot < |s.bin| && !Stays(s, h)
    requires AfterFree(s, h, i).Fine?
    ensures Inv(AfterFree(s, h, i).state)
  {
    assert RunOk(Taken(s.heap), s.runs, h);
    ReleaseReturnsRun(s.heap, h);
    RunRemoved(Taken(s.heap), s.runs, h);
    UnlinkInRange(s.runs, s.hdr, s.bin, s.runs[h].slot, h);
  }

  lemma FreeKeeps(s: State, h: nat, i: nat)
    requires Inv(s) && Enabled(s, SmallFree(h, i)) && AfterFree(s, h, i).Fine?
    ensures Inv(AfterFree(s, h, i).state)
  {
    assert RunOk(Taken(s.heap), s.runs, h);
    if Stays(s, h) { StayKeeps(s, h, i); } else { ReturnKeeps(s, h, i); }
  }

  lemma StepKeeps(s: State, step: Step)
    requires Inv(s) && Enabled(s, step) && Next(s, step).Fine?
    ensures Inv(Next(s, step).state)
  {
    match step
    case GrowBy(_) => BigKeeps(s, step);
    case BigRequest(_) => BigKeeps(s, step);
    case BigFree(_) => BigKeeps(s, step);
    case SmallRequest(c, memory) =>
      match Choose(s, c) {
        case Foreign(_) =>
        case Serve(h) => ObjectKeeps(s, h, Alloc);
        case TakeNew => CarveKeeps(s, c, memory);
      }
    case StoreTo(h, i, within, v) => ObjectKeeps(s, h, Store(i, within, v));
    case SmallFree(h, i) => FreeKeeps(s, h, i);
  }

  // ------------------------------------------------- where the lists lead

  /** The lists hold exactly the runs in use, each in the list of its class. */
  ghost predicate ListsExact(s: State) {
    exists bins: seq<seq<nat>> :: |bins| == |s.bin| && Exact(bins, Slots(s.runs), s.hdr, s.bin)
  }

  ghost predicate Relinks(s: State, step: Step)
    requires Inv(s) && Enabled(s, step)
  {
    step.SmallFree? && s.runs[step.h].slot < |s.bin| && Stays(s, step.h) && MovesUp(s, step.h)
  }

  /** The step moves a run to the front of a list that is not exactly [head, that run]. */
  ghost predicate Tangles(s: State, step: Step)
    requires Inv(s) && Enabled(s, step)
  {
    Relinks(s, step) && !IsPair(s.hdr, s.bin, s.runs[step.h].slot, step.h)
  }

  /** From exact lists every request and free finds runs of its class. */
  lemma StepIsFine(s: State, step: Step)
    requires Inv(s) && ListsExact(s) && Enabled(s, step)
    ensures Next(s, step).Fine?
  {
    if step.SmallRequest? {
      RequestIsFine(s, step.slot);
    } else if step.SmallFree? {
      FreeIsFine(s, step.h, step.i);
    }
  }

  lemma RequestIsFine(s: State, c: nat)
    requires Inv(s) && ListsExact(s) && c < |s.bin|
    ensures !Choose(s, c).Foreign?
  {
    var bins: seq<seq<nat>> :| |bins| == |s.bin| && Exact(bins, Slots(s.runs), s.hdr, s.bin);
    HeadAndNext(bins, Slots(s.runs), s.hdr, s.bin, c);
  }

  lemma FreeIsFine(s: State, h: nat, i: nat)
    requires Inv(s) && ListsExact(s) && Enabled(s, SmallFree(h, i))
    ensures AfterFree(s, h, i).Fine?
  {
    var bins: seq<seq<nat>> :| |bins| == |s.bin| && Exact(bins, Slots(s.runs), s.hdr, s.bin);
    assert IsListed(bins, Slots(s.runs), h);
    NeighboursOf(bins, Slots(s.runs), s.hdr, s.bin, h);
    HeadAndNext(bins, Slots(s.runs), s.hdr, s.bin, s.runs[h].slot);
  }

  lemma SlotsFollow(runs: map<nat, RunState>, h: nat, r: RunState)
    ensures Slots(runs[h := r]) == Slots(runs)[h := r.slot] && Slots(runs - {h}) == Slots(runs) - {h}
  {}

  lemma CarveKeepsLists(s: State, c: nat, memory: seq<int>)
    requires Inv(s) && ListsExact(s) && 1 <= c < |TEMPLATE| && |memory| == ClassBytes(c)
    ensures ListsExact(AfterCarve(s, c, memory))
  {
    var r := Allocate(s.heap, BinSpanSize(c), Bin(c), |s.hdr| - 1);
    if r.Granted? {
      CarveLinks(s, c, memory, r.start);
      NewRunKeepsLists(s, AfterCarve(s, c, memory), c, r.start);
    }
  }

  lemma CarveLinks(s: State, c: nat, memory: seq<int>, h: nat)
    requires Inv(s) && 1 <= c < |TEMPLATE| && |memory| == ClassBytes(c)
    requires var r := Allocate(s.heap, BinSpanSize(c), Bin(c), |s.hdr| - 1); r.Granted? && r.start == h
    ensures h !in s.runs && 0 < h < |s.hdr| && 0 <= s.bin[c] < |s.hdr|
    ensures var t := AfterCarve(s, c, memory);
            && h in t.runs && t.runs == s.runs[h := t.runs[h]] && t.runs[h].slot == c
            && t.runs[h].live == {0} && t.hdr == Pushed(s.hdr, s.bin, c, h) && t.bin == s.bin[c := h]
  {
    CarveFits(s, c);
  }

  lemma NewRunKeepsLists(s: State, t: State, c: nat, h: nat)
    requires ListsExact(s) && c < |s.bin| && 0 <= s.bin[c] < |s.hdr| && h !in s.runs && 0 < h < |s.hdr| && h in t.runs
    requires t.runs == s.runs[h := t.runs[h]] && t.runs[h].slot == c
    requires t.hdr == Pushed(s.hdr, s.bin, c, h) && t.bin == s.bin[c := h]
    ensures ListsExact(t)
  {
    var bins: seq<seq<nat>> :| |bins| == |s.bin| && Exact(bins, Slots(s.runs), s.hdr, s.bin);
    PushKeeps(bins, Slots(s.runs), s.hdr, s.bin, c, h);
    SlotsFollow(s.runs, h, t.runs[h]);
    assert Exact(bins[c := [h] + bins[c]], Slots(t.runs), t.hdr, t.bin);
  }

  lemma ReturnKeepsLists(s: State, h: nat, i: nat)
    requires Inv(s) && ListsExact(s) && Enabled(s, SmallFree(h, i)) && s.runs[h].slot < |s.bin| && !Stays(s, h)
    ensures AfterFree(s, h, i).Fine? && ListsExact(AfterFree(s, h, i).state)
  {
    var bins: seq<seq<nat>> :| |bins| == |s.bin| && Exact(bins, Slots(s.runs), s.hdr, s.bin);
    FreeIsFine(s, h, i);
    var bs := UnlinkKeeps(bins, Slots(s.runs), s.hdr, s.bin, h);
    SlotsFollow(s.runs, h, s.runs[h]);
  }

  lemma StayDecidesLists(s: State, h: nat, i: nat)
    requires Inv(s) && ListsExact(s) && Enabled(s, SmallFree(h, i)) && s.runs[h].slot < |s.bin| && Stays(s, h)
    ensures AfterFree(s, h, i).Fine?
    ensures ListsExact(AfterFree(s, h, i).state) <==> !Tangles(s, SmallFree(h, i))
  {
    var bins: seq<seq<nat>> :| |bins| == |s.bin| && Exact(bins, Slots(s.runs), s.hdr, s.bin);
    FreeIsFine(s, h, i);
    ObjectKeeps(s, h, Dealloc(i));
    if MovesUp(s, h) {
      assert IsListed(bins, Slots(s.runs), h);
      RelinkKeepsPairsOnly(bins, Slots(s.runs), s.hdr, s.bin, h);
    }
  }

  /** Every step keeps the lists exact, except exactly the move to the front of a list with other runs in it. */
  lemma StepKeepsLists(s: State, step: Step)
    requires Inv(s) && ListsExact(s) && Enabled(s, step)
    ensures Next(s, step).Fine?
    ensures ListsExact(Next(s, step).state) <==> !Tangles(s, step)
  {
    StepIsFine(s, step);
    match step
    case SmallRequest(c, memory) =>
      match Choose(s, c) {
        case Foreign(_) =>
        case Serve(h) => ObjectKeeps(s, h, Alloc);
        case TakeNew => CarveKeepsLists(s, c, memory);
      }
    case StoreTo(h, i, within, v) => ObjectKeeps(s, h, Store(i, within, v));
    case SmallFree(h, i) =>
      assert RunOk(Taken(s.heap), s.runs, h);
      if Stays(s, h) { StayDecidesLists(s, h, i); } else { ReturnKeepsLists(s, h, i); }
    case _ =>
  }

  // ------------------------------------------------ which run serves a request

  ghost predicate HasRoom(s: State, h: nat)
    requires Inv(s) && h in s.runs
  {
    |s.runs[h].live| < ShapeOf(s, h).count
  }

  /** The lists are these, and list c begins with runs of class c. */
  ghost predicate ListsAre(s: State, bins: seq<seq<nat>>, c: nat)
    requires Inv(s)
  {
    && |bins| == |s.bin| && Exact(bins, Slots(s.runs), s.hdr, s.bin) && c < |bins|
    && (|bins[c]| > 0 ==> bins[c][0] in s.runs) && (|bins[c]| > 1 ==> bins[c][1] in s.runs)
  }

  lemma ListsBegin(s: State, bins: seq<seq<nat>>, c: nat)
    requires Inv(s) && |bins| == |s.bin| && Exact(bins, Slots(s.runs), s.hdr, s.bin) && c < |bins|
    ensures ListsAre(s, bins, c)
  {
    FirstTwo(bins, Slots(s.runs), s.hdr, s.bin, c);
  }

  /** Whether one of the first two runs of a class has a free object. */
  ghost predicate RoomInFront(s: State, bins: seq<seq<nat>>, c: nat)
    requires Inv(s) && ListsAre(s, bins, c)
  {
    (|bins[c]| > 0 && HasRoom(s, bins[c][0])) || (|bins[c]| > 1 && HasRoom(s, bins[c][1]))
  }

  lemma RoomShows(s: State, h: nat)
    requires Inv(s) && h in s.runs
    ensures s.runs[h].page.oFree > 1 <==> HasRoom(s, h)
  {
    FullExactly(ShapeOf(s, h), s.runs[h].page, s.runs[h].live);
  }

  /**
    A request is served by the head of its list if that has a free object, else by the run behind it if that one has.
    */
  lemma RequestIsServedInFront(s: State, bins: seq<seq<nat>>, c: nat, memory: seq<int>)
    requires Inv(s) && Enabled(s, SmallRequest(c, memory)) && ListsAre(s, bins, c) && RoomInFront(s, bins, c)
    ensures Next(s, SmallRequest(c, memory)).Fine?
    ensures var t := Next(s, SmallRequest(c, memory)).state;
            var h := if HasRoom(s, bins[c][0]) then bins[c][0] else bins[c][1];
            && h in t.runs && t == s.(runs := s.runs[h := t.runs[h]]) && t.runs[h].slot == c
            && exists i :: i !in s.runs[h].live && i < ShapeOf(s, h).count && t.runs[h].live == s.runs[h].live + {i}
  {
    FirstTwo(bins, Slots(s.runs), s.hdr, s.bin, c);
    RoomShows(s, bins[c][0]);
    if |bins[c]| > 1 { RoomShows(s, bins[c][1]); }
    var h := if HasRoom(s, bins[c][0]) then bins[c][0] else bins[c][1];
    assert Choose(s, c) == Serve(h);
    AllocAddsOne(ShapeOf(s, h), s.runs[h].page, s.runs[h].live);
  }

  /**
    Otherwise it takes a new run, which goes to the front of its list, or changes nothing, exactly if memory is
    exhausted.
    */
  lemma RequestTakesNewRun(s: State, bins: seq<seq<nat>>, c: nat, memory: seq<int>)
    requires Inv(s) && Enabled(s, SmallRequest(c, memory)) && ListsAre(s, bins, c) && !RoomInFront(s, bins, c)
    ensures Next(s, SmallRequest(c, memory)).Fine?
    ensures var t := Next(s, SmallRequest(c, memory)).state;
            if Exhausted(s.heap, BinSpanSize(c), |s.hdr| - 1) then t == s
            else exists h ::
              && h !in s.runs && h in t.runs && FreshRun(s.heap, t.heap, h, BinSpanSize(c), Bin(c))
              && t.runs == s.runs[h := t.runs[h]] && t.runs[h].slot == c && t.runs[h].live == {0}
              && Exact(bins[c := [h] + bins[c]], Slots(t.runs), t.hdr, t.bin)
  {
    FirstTwo(bins, Slots(s.runs), s.hdr, s.bin, c);
    if |bins[c]| > 0 { RoomShows(s, bins[c][0]); }
    if |bins[c]| > 1 { RoomShows(s, bins[c][1]); }
    assert Choose(s, c) == TakeNew;
    NewRunInFront(s, bins, c, memory);
  }

  lemma NewRunInFront(s: State, bins: seq<seq<nat>>, c: nat, memory: seq<int>)
    requires Inv(s) && 1 <= c < |TEMPLATE| && |memory| == ClassBytes(c) && ListsAre(s, bins, c)
    ensures var t := AfterCarve(s, c, memory);
            if Exhausted(s.heap, BinSpanSize(c), |s.hdr| - 1) then t == s
            else exists h ::
              && h !in s.runs && h in t.runs && FreshRun(s.heap, t.heap, h, BinSpanSize(c), Bin(c))
              && t.runs == s.runs[h := t.runs[h]] && t.runs[h].slot == c && t.runs[h].live == {0}
              && Exact(bins[c := [h] + bins[c]], Slots(t.runs), t.hdr, t.bin)
  {
    var r := Allocate(s.heap, BinSpanSize(c), Bin(c), |s.hdr| - 1);
    AllocateFailsWhenExhausted(s.heap, BinSpanSize(c), Bin(c), |s.hdr| - 1);
    if r.Granted? {
      CarveFits(s, c);
      CarveLinks(s, c, memory, r.start);
      PushKeeps(bins, Slots(s.runs), s.hdr, s.bin, c, r.start);
      SlotsFollow(s.runs, r.start, AfterCarve(s, c, memory).runs[r.start]);
    }
  }

  /** A big request adds one chunk that meets no other run, or changes nothing, exactly if memory is exhausted. */
  lemma BigRequestAddsChunk(s: State, k: nat)
    requires Inv(s) && Enabled(s, BigRequest(k))
    ensures Next(s, BigRequest(k)).Fine?
    ensures var t := Next(s, BigRequest(k)).state;
            if Exhausted(s.heap, k, |s.hdr| - 1) then t == s
            else t == s.(heap := t.heap) && exists h :: FreshRun(s.heap, t.heap, h, k, Live)
  {
    RequestTakesOrFails(s.heap, Next(s, BigRequest(k)).state.heap, k, Live, |s.hdr| - 1);
  }

  /** Freeing a chunk takes just this one away. */
  lemma BigFreeReturnsChunk(s: State, h: nat)
    requires Inv(s) && Enabled(s, BigFree(h))
    ensures Next(s, BigFree(h)).Fine?
    ensures var t := Next(s, BigFree(h)).state; t == s.(heap := t.heap) && Taken(t.heap) == Taken(s.heap) - {h}
  {
    ReleaseReturnsRun(s.heap, h);
  }

  /** A store changes one word of its object. */
  lemma StoreChangesOneWord(s: State, h: nat, i: nat, within: nat, v: int)
    requires Inv(s) && Enabled(s, StoreTo(h, i, within, v))
    ensures Next(s, StoreTo(h, i, within, v)).Fine?
    ensures var (t, page, at) := (Next(s, StoreTo(h, i, within, v)).state, s.runs[h].page, 16 + i * ShapeOf(s, h).size);
            && at + within < |page.word|
            && t == s.(runs := s.runs[h := s.runs[h].(page := page.(word := page.word[at + within := v]))])
  {
    StoreIs(ShapeOf(s, h), s.runs[h].page, s.runs[h].live, i, within, v);
  }

  /** The run of a freed object goes back as this says, told from its live objects and its list. */
  ghost predicate GoesBack(s: State, bins: seq<seq<nat>>, h: nat)
    requires Inv(s) && h in s.runs && ListsAre(s, bins, s.runs[h].slot)
  {
    var c := s.runs[h].slot;
    |s.runs[h].live| == 1 && First(bins[c]) != h && 8 * s.runs[h].page.oFree >= 4096 * BinSpanSize(c)
  }

  /**
    What a free does: the run goes back if the object was its last, unless it heads its list or the object freed before
    lies in its first eighth; else it stays, and is in front afterwards if it was or has become emptier than the head.
    */
  lemma FreeReturnsOrStays(s: State, bins: seq<seq<nat>>, h: nat, i: nat)
    requires Inv(s) && Enabled(s, SmallFree(h, i)) && ListsAre(s, bins, s.runs[h].slot)
    ensures Next(s, SmallFree(h, i)).Fine? && First(bins[s.runs[h].slot]) in s.runs
    ensures var (t, c, top) := (Next(s, SmallFree(h, i)).state, s.runs[h].slot, First(bins[s.runs[h].slot]));
            if GoesBack(s, bins, h) then
              t.runs == s.runs - {h} && Taken(t.heap) == Taken(s.heap) - {h} && h !in t.runs
            else
              && t.heap == s.heap && h in t.runs && t.runs == s.runs[h := t.runs[h]]
              && t.runs[h].slot == c && t.runs[h].live == s.runs[h].live - {i}
              && t.bin == s.bin[c := if |s.runs[top].live| >= |s.runs[h].live| then h else top]
  {
    FreeIsFine(s, h, i);
    assert i in s.runs[h].live;
    TestsTell(s, bins, h);
    if Stays(s, h) { StayingIs(s, h, i); } else { ReturningIs(s, h, i); }
  }

  /** The tests of Free in terms of live objects and lists. */
  lemma TestsTell(s: State, bins: seq<seq<nat>>, h: nat)
    requires Inv(s) && h in s.runs && s.runs[h].live != {} && ListsAre(s, bins, s.runs[h].slot)
    ensures var (c, top) := (s.runs[h].slot, First(bins[s.runs[h].slot]));
            && c < |s.bin| && s.bin[c] == top && top in s.runs && h in s.heap.spans && s.heap.spans[h].kind == Bin(c)
            && (Stays(s, h) <==> !GoesBack(s, bins, h))
            && (MovesUp(s, h) <==> top != h && |s.runs[top].live| >= |s.runs[h].live|)
  {
    var c := s.runs[h].slot;
    assert RunOk(Taken(s.heap), s.runs, h) && IsListed(bins, Slots(s.runs), h);
    FirstTwo(bins, Slots(s.runs), s.hdr, s.bin, c);
    FullExactly(ShapeOf(s, h), s.runs[h].page, s.runs[h].live);
    FullExactly(ShapeOf(s, bins[c][0]), s.runs[bins[c][0]].page, s.runs[bins[c][0]].live);
  }

  lemma StayingIs(s: State, h: nat, i: nat)
    requires Inv(s) && Enabled(s, SmallFree(h, i)) && s.runs[h].slot < |s.bin| && Stays(s, h)
    requires AfterFree(s, h, i).Fine?
    ensures var (t, c) := (AfterFree(s, h, i).state, s.runs[h].slot);
            && t.heap == s.heap && h in t.runs && t.runs == s.runs[h := t.runs[h]]
            && t.runs[h].slot == c && t.runs[h].live == s.runs[h].live - {i}
            && t.bin == s.bin[c := if MovesUp(s, h) then h else s.bin[c]]
  {}

  lemma ReturningIs(s: State, h: nat, i: nat)
    requires Inv(s) && Enabled(s, SmallFree(h, i)) && s.runs[h].slot < |s.bin| && !Stays(s, h)
    requires AfterFree(s, h, i).Fine?
    requires h in s.heap.spans && !s.heap.spans[h].kind.Free?
    ensures var t := AfterFree(s, h, i).state;
            t.runs == s.runs - {h} && Taken(t.heap) == Taken(s.heap) - {h} && h !in t.runs
  {
    ReleaseReturnsRun(s.heap, h);
  }

  // ----------------------------------------------------------- blocks of memory

  /** What callers hold: a chunk, or object i of run h. */
  datatype Block = Chunk(h: nat) | Object(h: nat, i: nat)

  ghost predicate Held(s: State, b: Block) {
    match b
    case Chunk(h) => h in s.heap.spans && s.heap.spans[h].kind.Live?
    case Object(h, i) => h in s.runs && i in s.runs[h].live
  }

  /** The addresses of a block are those from Begin up to, but without, After. */
  ghost function Begin(s: State, b: Block): int
    requires Inv(s) && Held(s, b)
  {
    match b
    case Chunk(h) => A.PtrOf(h) + A.HEADER_BYTES
    case Object(h, i) => A.PtrOf(h) + Offset(ShapeOf(s, h), i)
  }

  ghost function After(s: State, b: Block): int
    requires Inv(s) && Held(s, b)
  {
    match b
    case Chunk(h) => A.PtrOf(h + s.heap.spans[h].len)
    case Object(h, i) => A.PtrOf(h) + Offset(ShapeOf(s, h), i) + ShapeOf(s, h).size
  }

  lemma PagesApart(h: nat, n: nat)
    ensures A.PtrOf(h + n) == A.PtrOf(h) + n * A.PAGE_BYTES
  {}

  /** A block lies in its run, behind the header that the run's first page holds. */
  lemma BlockIsInItsRun(s: State, b: Block)
    requires Inv(s) && Held(s, b)
    ensures b.h in s.heap.spans && b.h + s.heap.spans[b.h].len <= s.heap.pages + 1
    ensures A.PtrOf(b.h) + A.HEADER_BYTES <= Begin(s, b) < After(s, b) <= A.PtrOf(b.h + s.heap.spans[b.h].len)
  {
    match b
    case Chunk(h) =>
      assert SpanFits(s.heap.pages, s.heap.spans, h);
      PagesApart(h, s.heap.spans[h].len);
    case Object(h, i) =>
      assert RunOk(Taken(s.heap), s.runs, h);
      assert SpanFits(s.heap.pages, s.heap.spans, h);
      PagesApart(h, s.heap.spans[h].len);
      var g := ShapeOf(s, h);
      var chain :| SmallObjects.Represents(g, s.runs[h].page, s.runs[h].live, chain);
      LiveObjectIsInside(g, s.runs[h].page, s.runs[h].live, chain, i);
  }

  /** Every block lies behind the arena's own tables and, in an arena of this size, inside the reserved memory. */
  lemma BlockIsPlaced(s: State, b: Block)
    requires Inv(s) && Held(s, b) && |s.hdr| <= A.MAX_PAGES + 1
    ensures A.TABLES_END <= Begin(s, b) && After(s, b) <= 180224 * 4096
  {
    BlockIsInItsRun(s, b);
    assert SpanFits(s.heap.pages, s.heap.spans, b.h);
    A.PagesAreBehindTables(b.h);
    var end := b.h + s.heap.spans[b.h].len;
    PagesApart(end, A.MAX_PAGES + 1 - end);
  }

  lemma RunsApart(a: Heap, h: nat, x: nat)
    requires Tiled(a.pages, a.spans) && h in a.spans && x in a.spans && h < x
    ensures A.PtrOf(h + a.spans[h].len) <= A.PtrOf(x)
  {
    assert SpanFits(a.pages, a.spans, h);
    PagesApart(h + a.spans[h].len, x - (h + a.spans[h].len));
  }

  /** No two blocks that callers hold share a byte. */
  lemma BlocksAreApart(s: State, b: Block, c: Block)
    requires Inv(s) && Held(s, b) && Held(s, c) && b != c
    ensures After(s, b) <= Begin(s, c) || After(s, c) <= Begin(s, b)
  {
    BlockIsInItsRun(s, b);
    BlockIsInItsRun(s, c);
    if b.h < c.h {
      RunsApart(s.heap, b.h, c.h);
    } else if c.h < b.h {
      RunsApart(s.heap, c.h, b.h);
    } else {
      SameRunApart(s, b, c);
    }
  }

  lemma SameRunApart(s: State, b: Block, c: Block)
    requires Inv(s) && Held(s, b) && Held(s, c) && b != c && b.h == c.h
    ensures After(s, b) <= Begin(s, c) || After(s, c) <= Begin(s, b)
  {
    var h := b.h;
    assert h in s.runs ==> RunOk(Taken(s.heap), s.runs, h);
    assert b.Object? && c.Object?;
    var g := ShapeOf(s, h);
    var chain :| SmallObjects.Represents(g, s.runs[h].page, s.runs[h].live, chain);
    if b.i < c.i {
      LiveObjectsAreDisjoint(g, s.runs[h].page, s.runs[h].live, chain, b.i, c.i);
    } else {
      LiveObjectsAreDisjoint(g, s.runs[h].page, s.runs[h].live, chain, c.i, b.i);
    }
  }

  // ---------------------------------------------------------------------- runs

  ghost predicate IsRun(trace: seq<State>, steps: seq<Step>) {
    && |trace| == |steps| + 1
    && IsStart(trace[0])
    && forall i {:trigger steps[i]} :: 0 <= i < |steps| ==> Inv(trace[i]) ==>
         Enabled(trace[i], steps[i]) && Next(trace[i], steps[i]) == Fine(trace[i + 1])
  }

  ghost predicate IsStart(s: State) {
    && IsEmpty(s.heap) && s.runs == map[] && |s.hdr| > 0
    && |s.bin| == BIN_SLOTS + 1 && forall c :: 0 <= c < |s.bin| ==> s.bin[c] == 0
  }

  lemma StartIsOk(s: State)
    requires IsStart(s)
    ensures Inv(s)
  {
    assert Taken(s.heap) == map[];
  }

  lemma {:induction false} EveryRunKeepsInv(trace: seq<State>, steps: seq<Step>, n: nat)
    requires IsRun(trace, steps) && n < |trace|
    ensures Inv(trace[n])
  {
    if n == 0 {
      StartIsOk(trace[0]);
    } else {
      var step := steps[n - 1];
      EveryRunKeepsInv(trace, steps, n - 1);
      assert Enabled(trace[n - 1], step) && Next(trace[n - 1], step) == Fine(trace[n - 1 + 1]);
      StepKeeps(trace[n - 1], step);
    }
  }

  /** Up to the first wild access, in every state of every run the blocks held do not overlap. */
  lemma EveryRunKeepsBlocksApart(trace: seq<State>, steps: seq<Step>, n: nat, b: Block, c: Block)
    requires IsRun(trace, steps) && n < |trace| && Held(trace[n], b) && Held(trace[n], c) && b != c
    ensures Inv(trace[n]) && (After(trace[n], b) <= Begin(trace[n], c) || After(trace[n], c) <= Begin(trace[n], b))
  {
    EveryRunKeepsInv(trace, steps, n);
    BlocksAreApart(trace[n], b, c);
  }

  /**
    A run without a move to the front of a list with other runs in it goes on: small requests are served by runs in
    use only.
    */
  lemma {:induction false} UntangledRunIsNeverWild(trace: seq<State>, steps: seq<Step>, n: nat)
    requires IsRun(trace, steps) && n < |trace|
    requires forall i {:trigger steps[i]} :: 0 <= i < n ==> Inv(trace[i]) && Enabled(trace[i], steps[i]) ==>
               !Tangles(trace[i], steps[i])
    ensures Inv(trace[n]) && ListsExact(trace[n])
    ensures forall step :: Enabled(trace[n], step) ==> Next(trace[n], step).Fine?
  {
    EveryRunKeepsInv(trace, steps, n);
    if n == 0 {
      var bins: seq<seq<nat>> := seq(|trace[0].bin|, _ => []);
      assert Exact(bins, Slots(trace[0].runs), trace[0].hdr, trace[0].bin);
    } else {
      var step := steps[n - 1];
      UntangledRunIsNeverWild(trace, steps, n - 1);
      assert Enabled(trace[n - 1], step) && Next(trace[n - 1], step) == Fine(trace[n - 1 + 1]);
      StepKeepsLists(trace[n - 1], step);
    }
    forall step | Enabled(trace[n], step) ensures Next(trace[n], step).Fine? { StepIsFine(trace[n], step); }
  }
}
