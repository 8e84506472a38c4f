/**
  A run of requests and frees, each of them allowed, after which the arena serves a small request from a chunk that a
  caller holds. Three runs X, Y, Z of class 37 are filled; a free in X moves it to the front, past Y, which keeps
  pointing at it; a free in Y makes X point at itself; so X, once emptied, is returned while Y still leads to it.
  */
module ArenaTangle {
  import opened Links
  import opened BinLists
  import opened ArenaObjects
  import A = Arena
  import H = SpanHeap
  import S = SmallObjects

  const CLASS: nat := 37      // 2720 bytes, six objects to a run of four pages
  const X: nat := 1
  const Y: nat := 5
  const Z: nat := 9

  lemma ClassIs()
    ensures S.ClassShape(CLASS) == S.Shape(2720, 16384, 6) && S.ClassBytes(CLASS) == 16384 && H.BinSpanSize(CLASS) == 4
  {}

  // --------------------------------------------------------------------- runs

  ghost predicate CanReach(s: State, t: State) {
    exists trace: seq<State>, steps: seq<Step> :: IsRun(trace, steps) && trace[0] == s && trace[|steps|] == t
  }

  lemma Here(s: State)
    requires IsStart(s)
    ensures CanReach(s, s)
  {
    var none: seq<Step> := [];
    assert IsRun([s], none) && [s][|none|] == s;
  }

  lemma Do(s: State, t: State, step: Step, u: State)
    requires CanReach(s, t) && Inv(t) && Enabled(t, step) && Next(t, step) == Fine(u)
    ensures CanReach(s, u) && Inv(u)
  {
    var trace: seq<State>, steps: seq<Step> :| IsRun(trace, steps) && trace[0] == s && trace[|steps|] == t;
    StepKeeps(t, step);
    Extended(trace, steps, step, u);
    assert (trace + [u])[|steps + [step]|] == u;
  }

  lemma Extended(trace: seq<State>, steps: seq<Step>, step: Step, u: State)
    requires IsRun(trace, steps) && Inv(trace[|steps|])
    requires Enabled(trace[|steps|], step) && Next(trace[|steps|], step) == Fine(u)
    ensures IsRun(trace + [u], steps + [step])
  {
    var r, t := trace + [u], steps + [step];
    forall i {:trigger t[i]} | 0 <= i < |t| && Inv(r[i])
      ensures Enabled(r[i], t[i]) && Next(r[i], t[i]) == Fine(r[i + 1])
    {
      if i < |steps| { assert t[i] == steps[i]; }
    }
  }

  // ------------------------------------------------------ single steps in a run

  ghost predicate Has(s: State, h: nat, n: nat) { h in s.runs && s.runs[h].slot == CLASS && |s.runs[h].live| == n }

  /** Only what run h holds differs. */
  ghost predicate OnlyRun(s: State, t: State, h: nat) {
    h in t.runs && t == s.(runs := s.runs[h := t.runs[h]])
  }

  lemma RunFacts(s: State, h: nat)
    requires Inv(s) && h in s.runs && s.runs[h].slot == CLASS
    ensures h > 0 && ShapeOf(s, h) == S.Shape(2720, 16384, 6)
    ensures var r := s.runs[h];
            && r.page.nUsed == |r.live| <= 6 && (forall i :: i in r.live ==> i < 6)
            && (r.page.oFree > 1 <==> |r.live| < 6) && (r.page.oFree == 0 <==> |r.live| == 6)
  {
    ClassIs();
    assert RunOk(H.Taken(s.heap), s.runs, h);
    S.FullExactly(ShapeOf(s, h), s.runs[h].page, s.runs[h].live);
  }

  /** The head of the list serves a request. */
  lemma HeadServes(s: State, t: State, h: nat, n: nat, memory: seq<int>) returns (u: State)
    requires CanReach(s, t) && Inv(t) && Has(t, h, n) && n < 6 && t.bin[CLASS] == h && |memory| == S.ClassBytes(CLASS)
    ensures CanReach(s, u) && Inv(u) && OnlyRun(t, u, h) && Has(u, h, n + 1)
  {
    HeadHasRoom(t, h, n);
    u := AfterObject(t, h, S.Alloc);
    Do(s, t, SmallRequest(CLASS, memory), u);
  }

  lemma HeadHasRoom(t: State, h: nat, n: nat)
    requires Inv(t) && Has(t, h, n) && n < 6 && t.bin[CLASS] == h
    ensures Choose(t, CLASS) == Serve(h) && S.Allowed(ShapeOf(t, h), t.runs[h].page, t.runs[h].live, S.Alloc)
    ensures Has(AfterObject(t, h, S.Alloc), h, n + 1)
  {
    RunFacts(t, h);
    S.AllocAddsOne(ShapeOf(t, h), t.runs[h].page, t.runs[h].live);
  }

  /** Requests fill the head of the list. */
  lemma {:induction false} HeadFills(s: State, t: State, h: nat, n: nat, memory: seq<int>) returns (u: State)
    requires CanReach(s, t) && Inv(t) && Has(t, h, n) && n <= 6 && t.bin[CLASS] == h && |memory| == S.ClassBytes(CLASS)
    ensures CanReach(s, u) && Inv(u) && OnlyRun(t, u, h) && Has(u, h, 6)
    decreases 6 - n
  {
    if n == 6 {
      u := t;
    } else {
      var v := HeadServes(s, t, h, n, memory);
      u := HeadFills(s, v, h, n + 1, memory);
    }
  }

  /** The only free run starts at page `at` and reaches to page 60. */
  ghost predicate FreeFrom(a: H.Heap, at: nat) {
    && |a.lists| == 61 && 1 <= at < 57 && a.pages == 60 && a.lists[61 - at] == [at]
    && forall k :: 0 <= k < 61 && k != 61 - at ==> a.lists[k] == []
  }

  /** A request for which neither the head nor the run behind it has a free object takes a new run. */
  lemma NewRunIsTaken(s: State, t: State, at: nat, memory: seq<int>) returns (u: State)
    requires CanReach(s, t) && Inv(t) && FreeFrom(t.heap, at) && at < 53 && |memory| == S.ClassBytes(CLASS)
    requires Choose(t, CLASS).TakeNew?
    ensures CanReach(s, u) && Inv(u) && FreeFrom(u.heap, at + 4) && Has(u, at, 1) && at !in t.runs
    ensures u.runs == t.runs[at := u.runs[at]] && 0 < at < |t.hdr| && 0 <= t.bin[CLASS] < |t.hdr|
    ensures u.hdr == Pushed(t.hdr, t.bin, CLASS, at) && u.bin == t.bin[CLASS := at]
  {
    FourPagesAreCut(t.heap, at, |t.hdr| - 1);
    CarveFits(t, CLASS);
    u := AfterCarve(t, CLASS, memory);
    Do(s, t, SmallRequest(CLASS, memory), u);
  }

  lemma FourPagesAreCut(a: H.Heap, at: nat, maxPages: nat)
    requires FreeFrom(a, at) && at < 53
    ensures H.BinSpanSize(CLASS) == 4
    ensures var r := H.Allocate(a, 4, H.Bin(CLASS), maxPages); r.Granted? && r.start == at && FreeFrom(r.heap, at + 4)
  {
    A.FirstBiggerIs(a.lists, 4, 61 - at);
  }

  /** A free after which the run stays and stays where it is. */
  lemma FreeStays(s: State, t: State, h: nat, i: nat, top: nat) returns (u: State)
    requires CanReach(s, t) && Inv(t) && h in t.runs && t.runs[h].slot == CLASS && i in t.runs[h].live
    requires 1 < |t.runs[h].live| && (|t.runs[h].live| == 6 ==> i == 5)
    requires t.bin[CLASS] == top && IsOf(t, CLASS, top) && (top != h ==> |t.runs[top].live| < |t.runs[h].live|)
    ensures CanReach(s, u) && Inv(u) && OnlyRun(t, u, h) && u.runs[h].slot == CLASS
    ensures u.runs[h].live == t.runs[h].live - {i} && u.runs[h].page.oFree == 16 + 2720 * i
  {
    RunFacts(t, h);
    RunFacts(t, top);
    u := AfterObject(t, h, S.Dealloc(i));
    Do(s, t, SmallFree(h, i), u);
  }

  /** A free after which the run moves to the front. */
  lemma FreeMoves(s: State, t: State, h: nat, i: nat, top: nat) returns (u: State)
    requires CanReach(s, t) && Inv(t) && h in t.runs && t.runs[h].slot == CLASS && i in t.runs[h].live
    requires 1 < |t.runs[h].live| && (|t.runs[h].live| == 6 ==> i == 5)
    requires t.bin[CLASS] == top != h && IsOf(t, CLASS, top) && |t.runs[top].live| >= |t.runs[h].live|
    requires t.hdr[h].next == 0 || IsOf(t, CLASS, t.hdr[h].next)
    ensures CanReach(s, u) && Inv(u) && h in u.runs && u.runs[h].slot == CLASS && u.runs[h].live == t.runs[h].live - {i}
    ensures 0 <= t.bin[CLASS] < |t.hdr| && h < |t.hdr| && 0 <= t.hdr[h].next < |t.hdr|
    ensures u == t.(runs := t.runs[h := u.runs[h]], hdr := Relinked(t.hdr, t.bin, CLASS, h), bin := t.bin[CLASS := h])
  {
    RunFacts(t, h);
    RunFacts(t, top);
    u := AfterObject(t, h, S.Dealloc(i)).(hdr := Relinked(t.hdr, t.bin, CLASS, h), bin := t.bin[CLASS := h]);
    Do(s, t, SmallFree(h, i), u);
  }

  // ------------------------------------------------------------ the whole run

  ghost predicate Linked(s: State, h: nat, pri: int, next: int) {
    h < |s.hdr| && s.hdr[h].pri == pri && s.hdr[h].next == next
  }

  /** One chunk of 60 pages, and X as the first run in it. */
  lemma FirstRun(s: State, memory: seq<int>) returns (t: State)
    requires IsStart(s) && |s.hdr| > 60 && |memory| == S.ClassBytes(CLASS)
    ensures CanReach(s, t) && Inv(t) && FreeFrom(t.heap, Y) && Has(t, X, 6) && t.runs.Keys == {X}
    ensures t.bin[CLASS] == X && Linked(t, X, 0, 0) && |t.hdr| > 60
  {
    Here(s);
    StartIsOk(s);
    t := s.(heap := H.Grow(s.heap, 60));
    Do(s, s, GrowBy(60), t);
    t := NewRunIsTaken(s, t, X, memory);
    t := HeadFills(s, t, X, 1, memory);
  }

  lemma SecondRun(s: State, memory: seq<int>) returns (t: State)
    requires IsStart(s) && |s.hdr| > 60 && |memory| == S.ClassBytes(CLASS)
    ensures CanReach(s, t) && Inv(t) && FreeFrom(t.heap, Z) && Has(t, X, 6) && Has(t, Y, 6) && t.runs.Keys == {X, Y}
    ensures t.bin[CLASS] == Y && Linked(t, X, Y, 0) && Linked(t, Y, 0, X) && |t.hdr| > 60
  {
    t := FirstRun(s, memory);
    RunFacts(t, X);
    t := NewRunIsTaken(s, t, Y, memory);
    t := HeadFills(s, t, Y, 1, memory);
  }

  lemma ThirdRun(s: State, memory: seq<int>) returns (t: State)
    requires IsStart(s) && |s.hdr| > 60 && |memory| == S.ClassBytes(CLASS)
    ensures CanReach(s, t) && Inv(t) && FreeFrom(t.heap, 13) && Has(t, X, 6) && Has(t, Y, 6) && Has(t, Z, 6)
    ensures t.bin[CLASS] == Z && Linked(t, X, Y, 0) && Linked(t, Y, Z, X) && Linked(t, Z, 0, Y) && |t.hdr| > 60
  {
    t := SecondRun(s, memory);
    RunFacts(t, X);
    RunFacts(t, Y);
    t := NewRunIsTaken(s, t, Z, memory);
    t := HeadFills(s, t, Z, 1, memory);
  }

  lemma AllSix(s: State, h: nat)
    requires Inv(s) && Has(s, h, 6)
    ensures s.runs[h].live == {0, 1, 2, 3, 4, 5}
  {
    RunFacts(s, h);
    S.SubsetIsSmaller(s.runs[h].live, {0, 1, 2, 3, 4, 5});
  }

  /** X moves past Y to the front; then Y moves to the front, and X points at itself. */
  lemma Tangled(s: State, memory: seq<int>) returns (t: State)
    requires IsStart(s) && |s.hdr| > 60 && |memory| == S.ClassBytes(CLASS)
    ensures CanReach(s, t) && Inv(t) && FreeFrom(t.heap, 13)
    ensures X in t.runs && t.runs[X].slot == CLASS && t.runs[X].live == {0, 1, 2, 3, 4}
    ensures Y in t.runs && t.runs[Y].slot == CLASS && t.runs[Y].live == {0, 1, 2, 3}
    ensures t.bin[CLASS] == Y && Linked(t, X, X, X) && Linked(t, Y, 0, X)
  {
    t := ThirdRun(s, memory);
    AllSix(t, X);
    AllSix(t, Y);
    t := FreeMoves(s, t, X, 5, Z);
    assert t.runs[X].live == {0, 1, 2, 3, 4} && |t.runs[X].live| == 5;
    assert t.bin[CLASS] == X && Linked(t, X, 0, Z) && Linked(t, Y, Z, X);
    t := FreeStays(s, t, Y, 5, X);
    assert t.runs[Y].live == {0, 1, 2, 3, 4} && |t.runs[Y].live| == 5;
    t := FreeMoves(s, t, Y, 4, X);
    assert t.runs[Y].live == {0, 1, 2, 3};
  }

  /** Y keeps one object, so that X can lose all but one without moving. */
  lemma NearlyEmptied(s: State, memory: seq<int>) returns (t: State)
    requires IsStart(s) && |s.hdr| > 60 && |memory| == S.ClassBytes(CLASS)
    ensures CanReach(s, t) && Inv(t) && FreeFrom(t.heap, 13)
    ensures X in t.runs && t.runs[X].slot == CLASS && t.runs[X].live == {0} && t.runs[X].page.oFree == 2736
    ensures Y in t.runs && t.runs[Y].slot == CLASS && t.runs[Y].live == {0}
    ensures t.bin[CLASS] == Y && Linked(t, X, X, X) && Linked(t, Y, 0, X)
  {
    t := Tangled(s, memory);
    t := FreeStays(s, t, Y, 3, Y);
    assert t.runs[Y].live == {0, 1, 2};
    t := FreeStays(s, t, Y, 2, Y);
    assert t.runs[Y].live == {0, 1};
    t := FreeStays(s, t, Y, 1, Y);
    assert t.runs[Y].live == {0} && |t.runs[Y].live| == 1;
    t := EmptyDown(s, t);
  }

  lemma EmptyDown(s: State, t: State) returns (u: State)
    requires CanReach(s, t) && Inv(t) && X in t.runs && t.runs[X].slot == CLASS && t.runs[X].live == {0, 1, 2, 3, 4}
    requires t.bin[CLASS] == Y && Has(t, Y, 1)
    ensures CanReach(s, u) && Inv(u) && OnlyRun(t, u, X) && u.runs[X].slot == CLASS
    ensures u.runs[X].live == {0} && u.runs[X].page.oFree == 2736
  {
    u := FreeStays(s, t, X, 4, Y);
    assert u.runs[X].live == {0, 1, 2, 3};
    u := FreeStays(s, u, X, 3, Y);
    assert u.runs[X].live == {0, 1, 2};
    u := FreeStays(s, u, X, 2, Y);
    assert u.runs[X].live == {0, 1};
    u := FreeStays(s, u, X, 1, Y);
    assert u.runs[X].live == {0};
  }

  /** X is emptied and returned, and handed out again as a chunk; Y still leads to it. */
  lemma PageIsReused(s: State, memory: seq<int>) returns (t: State)
    requires IsStart(s) && |s.hdr| > 60 && |memory| == S.ClassBytes(CLASS)
    ensures CanReach(s, t) && Inv(t) && Held(t, Chunk(X)) && t.heap.spans[X].len == 4 && X !in t.runs
    ensures Has(t, Y, 1) && t.bin[CLASS] == Y && Linked(t, Y, 0, X)
  {
    ClassIs();
    var a := NearlyEmptied(s, memory);
    RunFacts(a, X);
    assert RunOk(H.Taken(a.heap), a.runs, X) && H.SpanFits(a.heap.pages, a.heap.spans, X);
    var b := AfterFree(a, X, 0).state;
    Do(s, a, SmallFree(X, 0), b);
    assert b.heap == H.PutBack(a.heap, X) && b.heap.lists[4] == [X];
    A.FirstBiggerIs(b.heap.lists, 4, 4);
    t := b.(heap := H.Take(b.heap, 4, H.Live));
    Do(s, b, BigRequest(4), t);
  }

  /** What lies at an offset behind the header of X's first page lies in the chunk. */
  lemma OffsetIsInChunk(t: State, w: int)
    requires Inv(t) && Held(t, Chunk(X)) && t.heap.spans[X].len == 4 && A.HEADER_BYTES <= w < 16384
    ensures Begin(t, Chunk(X)) <= A.PtrOf(X) + w < After(t, Chunk(X))
  {
    PagesApart(X, 4);
  }

  lemma LeadsToChunk(t: State)
    requires Inv(t) && Has(t, Y, 6) && t.bin[CLASS] == Y && Linked(t, Y, 0, X) && X !in t.runs
    ensures Choose(t, CLASS) == Foreign(X)
  {
    RunFacts(t, Y);
  }

  /**
    From any empty arena with room for 60 pages, a run of allowed steps ends where a small request is served from the
    pages of a chunk in use: at the offset w that the chunk's owner has stored in its first word.
    */
  lemma RequestIsServedFromChunk(s: State, memory: seq<int>, w: int) returns (t: State)
    requires IsStart(s) && |s.hdr| > 60 && |memory| == S.ClassBytes(CLASS) && A.HEADER_BYTES <= w < 16384
    ensures CanReach(s, t) && Inv(t) && Held(t, Chunk(X)) && Begin(t, Chunk(X)) <= A.PtrOf(X) + w < After(t, Chunk(X))
    ensures Enabled(t, SmallRequest(CLASS, memory)) && Next(t, SmallRequest(CLASS, memory)) == Wild(X)
  {
    t := PageIsReused(s, memory);
    t := HeadFills(s, t, Y, 1, memory);
    LeadsToChunk(t);
    OffsetIsInChunk(t, w);
  }
}
