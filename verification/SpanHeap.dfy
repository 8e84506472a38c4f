/**
  The span heap of the arena as a mathematical object: page runs ("spans") that
  tile the pages taken from the operating system, and one free list per run
  length. `Arena` refines this heap with headers threaded through the pages.
  */
module SpanHeap {
  import opened Sequences

  const SPAN_SLOTS := 60   // kSpanSlotSize: the longest span, in pages
  const BIN_SLOTS := 39    // kBinSlotSize
  const LAZY_LIMIT := 12   // spans this long are never coalesced on release

  /** Pages in the run that backs small objects of class `slot`. */
  function BinSpanSize(slot: nat): nat {
    if slot > 37 then 6 else if slot >= 32 then 4 else 2
  }

  /** A run is on a free list, handed out as a big chunk, or backs small objects. */
  datatype Kind = Free | Live | Bin(slot: nat)

  datatype Span = Span(len: nat, kind: Kind)

  /** `spans` maps the first page of every run; `lists[k]` holds the free runs of k pages, newest first. */
  datatype Heap = Heap(pages: nat, spans: map<nat, Span>, lists: seq<seq<nat>>)

  ghost predicate IsEmpty(a: Heap) {
    && a.pages == 0 && a.spans == map[]
    && |a.lists| == SPAN_SLOTS + 1 && forall k :: 0 <= k <= SPAN_SLOTS ==> a.lists[k] == []
  }

  // ---------------------------------------------------------------- invariant

  ghost predicate SpanFits(pages: nat, spans: map<nat, Span>, h: nat)
    requires h in spans
  {
    var n := spans[h].len;
    && 1 <= h && 1 <= n <= SPAN_SLOTS
    && h + n <= pages + 1
    && (h + n <= pages ==> h + n in spans)
    && (forall x :: h < x < h + n ==> x !in spans)
    && (spans[h].kind.Bin? ==> 1 <= spans[h].kind.slot <= BIN_SLOTS && n == BinSpanSize(spans[h].kind.slot))
  }

  /** Every run starts where the previous one stops; nothing starts inside a run. */
  ghost predicate Tiled(pages: nat, spans: map<nat, Span>) {
    && (pages > 0 ==> 1 in spans)
    && (forall h {:trigger SpanFits(pages, spans, h)} :: h in spans ==> SpanFits(pages, spans, h))
  }

  ghost predicate IsFreeRun(spans: map<nat, Span>, k: nat, h: nat) {
    h in spans && spans[h] == Span(k, Free)
  }

  ghost predicate OnItsList(spans: map<nat, Span>, lists: seq<seq<nat>>, h: nat)
    requires h in spans && |lists| == SPAN_SLOTS + 1
  {
    spans[h].len <= SPAN_SLOTS ==> h in lists[spans[h].len]
  }

  /** List k holds exactly the free runs of k pages, each once. */
  ghost predicate Listed(spans: map<nat, Span>, lists: seq<seq<nat>>) {
    && |lists| == SPAN_SLOTS + 1
    && lists[0] == []
    && (forall k {:trigger Distinct(lists[k])} :: 0 <= k <= SPAN_SLOTS ==> Distinct(lists[k]))
    && (forall k, h {:trigger IsFreeRun(spans, k, h)} :: 0 <= k <= SPAN_SLOTS && h in lists[k] ==>
         IsFreeRun(spans, k, h))
    && (forall h {:trigger OnItsList(spans, lists, h)} :: h in spans && spans[h].kind.Free? ==>
         OnItsList(spans, lists, h))
  }

  ghost predicate WellFormed(a: Heap) {
    Tiled(a.pages, a.spans) && Listed(a.spans, a.lists)
  }

  // --------------------------------------------------------------- operations

  function Without(s: seq<nat>, h: nat): (r: seq<nat>)
    ensures h !in r
    ensures forall x :: x in s && x != h ==> x in r
    ensures forall x :: x in r ==> x in s
    ensures |r| <= |s|
  {
    if s == [] then []
    else if s[0] == h then Without(s[1..], h)
    else [s[0]] + Without(s[1..], h)
  }

  /** New pages from the operating system become one free run. */
  function Grow(a: Heap, n: nat): Heap
    requires |a.lists| == SPAN_SLOTS + 1 && n <= SPAN_SLOTS
  {
    Heap(a.pages + n, a.spans[a.pages + 1 := Span(n, Free)], a.lists[n := [a.pages + 1] + a.lists[n]])
  }

  /** The newest free run of exactly k pages changes hands. */
  function Take(a: Heap, k: nat, kind: Kind): Heap
    requires |a.lists| == SPAN_SLOTS + 1 && k <= SPAN_SLOTS && a.lists[k] != []
  {
    a.(spans := a.spans[a.lists[k][0] := Span(k, kind)], lists := a.lists[k := a.lists[k][1..]])
  }

  /** The newest free run of `big` pages is cut: its first k pages are handed out, the rest stays free. */
  function SplitTake(a: Heap, big: nat, k: nat, kind: Kind): Heap
    requires |a.lists| == SPAN_SLOTS + 1 && k < big <= SPAN_SLOTS && a.lists[big] != []
  {
    var h := a.lists[big][0];
    var shorter := a.lists[big := a.lists[big][1..]];
    a.(spans := a.spans[h := Span(k, kind)][h + k := Span(big - k, Free)],
       lists := shorter[big - k := [h + k] + shorter[big - k]])
  }

  /** The first non-empty list above `from`, or SPAN_SLOTS + 1. */
  function FirstBigger(lists: seq<seq<nat>>, from: nat): (k: nat)
    requires |lists| == SPAN_SLOTS + 1 && from <= SPAN_SLOTS + 1
    ensures from <= k <= SPAN_SLOTS + 1
    ensures k <= SPAN_SLOTS ==> lists[k] != []
    ensures forall j :: from <= j < k ==> lists[j] == []
    decreases SPAN_SLOTS + 1 - from
  {
    if from <= SPAN_SLOTS && lists[from] == [] then FirstBigger(lists, from + 1) else from
  }

  /**
    `Corrupted`: the greatest length is cut off a new chunk of that length, and the empty rest is linked in as a run.
    */
  datatype Allocation = OutOfMemory | Corrupted | Granted(heap: Heap, start: nat)

  /** Best fit: the exact length, else the shortest longer run, else a fresh chunk if `maxPages` allows. */
  function Allocate(a: Heap, k: nat, kind: Kind, maxPages: nat): Allocation
    requires |a.lists| == SPAN_SLOTS + 1 && k <= SPAN_SLOTS
  {
    var big := FirstBigger(a.lists, k);
    if big == k then Granted(Take(a, k, kind), a.lists[k][0])
    else if big <= SPAN_SLOTS then Granted(SplitTake(a, big, k, kind), a.lists[big][0])
    else if a.pages + SPAN_SLOTS > maxPages then OutOfMemory
    else if k == SPAN_SLOTS then Corrupted
    else Granted(SplitTake(Grow(a, SPAN_SLOTS), SPAN_SLOTS, k, kind), a.pages + 1)
  }

  /** Run h goes to the front of the list of its length. */
  function PutBack(a: Heap, h: nat): Heap
    requires h in a.spans && |a.lists| == SPAN_SLOTS + 1 && a.spans[h].len <= SPAN_SLOTS
  {
    var n := a.spans[h].len;
    a.(spans := a.spans[h := Span(n, Free)], lists := a.lists[n := [h] + a.lists[n]])
  }

  /** Runs p and q, where q starts right after p, become one run of kind Live; whichever was free leaves its list. */
  function Fuse(a: Heap, p: nat, q: nat): Heap
    requires p in a.spans && q in a.spans && |a.lists| == SPAN_SLOTS + 1
    requires a.spans[p].len <= SPAN_SLOTS && a.spans[q].len <= SPAN_SLOTS
  {
    var f := if a.spans[p].kind.Free? then p else q;
    a.(spans := (a.spans - {q})[p := Span(a.spans[p].len + a.spans[q].len, Live)],
       lists := a.lists[a.spans[f].len := Without(a.lists[a.spans[f].len], f)])
  }

  predicate CanAbsorb(a: Heap, h: nat, neighbour: nat) {
    && h in a.spans && neighbour in a.spans
    && a.spans[neighbour].kind.Free?
    && a.spans[neighbour].len + a.spans[h].len <= SPAN_SLOTS
  }

  function FuseForward(a: Heap, h: nat): Heap
    requires Tiled(a.pages, a.spans) && h in a.spans && |a.lists| == SPAN_SLOTS + 1
  {
    var next := h + a.spans[h].len;
    if CanAbsorb(a, h, next) then Fuse(a, h, next) else a
  }

  /** The nearest run start at or below page p, or 0. */
  function OwnerOf(a: Heap, p: nat): (r: nat)
    ensures r <= p && (r > 0 ==> r in a.spans) && forall x :: r < x <= p ==> x !in a.spans
  {
    if p == 0 || p in a.spans then p else OwnerOf(a, p - 1)
  }

  /** Coalesce with the run below h, under the code's extra tests; the result names the surviving run. */
  function FuseBackward(a: Heap, h: nat): (Heap, nat)
    requires Tiled(a.pages, a.spans) && h in a.spans && |a.lists| == SPAN_SLOTS + 1
  {
    assert SpanFits(a.pages, a.spans, h);
    var n := a.spans[h].len;
    var prev := OwnerOf(a, h - 1);
    if prev > 0 && a.lists[n] != [] && n < LAZY_LIMIT && CanAbsorb(a, h, prev) then (Fuse(a, prev, h), prev) else (a, h)
  }

  /** Merge the run in use at h with its free neighbours: first the one above, then the one below. */
  function Coalesce(a: Heap, h: nat): (r: (Heap, nat))
    requires WellFormed(a) && h in a.spans && a.spans[h].kind.Live?
    ensures WellFormed(r.0) && r.1 in r.0.spans && r.0.spans[r.1].kind.Live? && r.0.pages == a.pages
  {
    FuseForwardKeeps(a, h);
    FuseBackwardKeeps(FuseForward(a, h), h);
    FuseBackward(FuseForward(a, h), h)
  }

  /** Hand run h back: lazily when its list is empty or it is long, else after coalescing both ways. */
  function Release(a: Heap, h: nat): (b: Heap)
    requires WellFormed(a) && h in a.spans && !a.spans[h].kind.Free?
    ensures WellFormed(b) && b.pages == a.pages
  {
    assert SpanFits(a.pages, a.spans, h);
    var n := a.spans[h].len;
    if a.lists[n] == [] || n >= LAZY_LIMIT then
      PutBackKeeps(a, h);
      PutBack(a, h)
    else
      KeepsLive(a, h);
      var (d, s) := Coalesce(a.(spans := a.spans[h := Span(n, Live)]), h);
      PutBackKeeps(d, s);
      PutBack(d, s)
  }

  // ------------------------------------------------ what each operation keeps

  lemma GrowKeeps(a: Heap, n: nat)
    requires WellFormed(a) && 1 <= n <= SPAN_SLOTS
    ensures WellFormed(Grow(a, n))
  {
    PagesBound(a);
    GrowTiles(a.pages, a.spans, n);
    PushKeepsListed(a.spans, a.lists, n, a.pages + 1);
  }

  lemma GrowTiles(pages: nat, spans: map<nat, Span>, n: nat)
    requires Tiled(pages, spans) && 1 <= n <= SPAN_SLOTS && forall h :: h in spans ==> h <= pages
    ensures Tiled(pages + n, spans[pages + 1 := Span(n, Free)])
  {
    var after := spans[pages + 1 := Span(n, Free)];
    forall h | h in after ensures SpanFits(pages + n, after, h) {
      if h in spans { assert SpanFits(pages, spans, h); }
    }
  }

  lemma PagesBound(a: Heap)
    requires Tiled(a.pages, a.spans)
    ensures forall h :: h in a.spans ==> 1 <= h <= a.pages
  {
    forall h | h in a.spans ensures 1 <= h <= a.pages { assert SpanFits(a.pages, a.spans, h); }
  }

  /** A run that is on no list may become the newest free run of n pages. */
  lemma PushKeepsListed(spans: map<nat, Span>, lists: seq<seq<nat>>, n: nat, h: nat)
    requires Listed(spans, lists) && 1 <= n <= SPAN_SLOTS
    requires h in spans ==> !spans[h].kind.Free?
    ensures Listed(spans[h := Span(n, Free)], lists[n := [h] + lists[n]])
  {
    var l := [h] + lists[n];
    var spans', lists' := spans[h := Span(n, Free)], lists[n := l];
    assert h in lists[n] ==> IsFreeRun(spans, n, h);
    assert Distinct(lists[n]) && Distinct(l);
    forall k | 0 <= k <= SPAN_SLOTS ensures Distinct(lists'[k]) { assert Distinct(lists[k]); }
    forall k, x | 0 <= k <= SPAN_SLOTS && x in lists'[k] ensures IsFreeRun(spans', k, x) {
      if x in lists[k] { assert IsFreeRun(spans, k, x); }
    }
    forall x | x in spans' && spans'[x].kind.Free? ensures OnItsList(spans', lists', x) {
      if x == h { assert l[0] == h; } else { assert OnItsList(spans, lists, x); }
    }
  }

  /** A free run may leave its list when it stops being free. */
  lemma DropKeepsListed(spans: map<nat, Span>, lists: seq<seq<nat>>, h: nat, rest: seq<nat>)
    requires Listed(spans, lists) && h in spans && spans[h].kind.Free? && 1 <= spans[h].len <= SPAN_SLOTS
    requires Distinct(rest)
    requires forall x :: x in rest <==> x in lists[spans[h].len] && x != h
    ensures Listed(spans - {h}, lists[spans[h].len := rest])
  {
    var spans', lists' := spans - {h}, lists[spans[h].len := rest];
    forall k | 0 <= k <= SPAN_SLOTS ensures Distinct(lists'[k]) { assert Distinct(lists[k]); }
    forall k, x | 0 <= k <= SPAN_SLOTS && x in lists'[k]
      ensures IsFreeRun(spans', k, x)
    {
      assert IsFreeRun(spans, k, x);
    }
    forall x | x in spans' && spans'[x].kind.Free?
      ensures OnItsList(spans', lists', x)
    {
      assert OnItsList(spans, lists, x);
    }
  }

  /** Runs in use may come, go and change without the lists noticing. */
  lemma UseKeepsListed(spans: map<nat, Span>, lists: seq<seq<nat>>, h: nat, s: Span)
    requires Listed(spans, lists) && !s.kind.Free? && (h in spans ==> !spans[h].kind.Free?)
    ensures Listed(spans[h := s], lists) && Listed(spans - {h}, lists)
  {
    var b, c := spans[h := s], spans - {h};
    forall k, x | 0 <= k <= SPAN_SLOTS && x in lists[k] ensures IsFreeRun(b, k, x) && IsFreeRun(c, k, x) {
      assert IsFreeRun(spans, k, x);
    }
    forall x | x in b && b[x].kind.Free? ensures OnItsList(b, lists, x) { assert OnItsList(spans, lists, x); }
    forall x | x in c && c[x].kind.Free? ensures OnItsList(c, lists, x) { assert OnItsList(spans, lists, x); }
  }

  /** The front of list k is a free run of k pages; taking it off leaves the others. */
  lemma FrontIsFree(a: Heap, k: nat)
    requires Listed(a.spans, a.lists) && k <= SPAN_SLOTS && a.lists[k] != []
    ensures IsFreeRun(a.spans, k, a.lists[k][0])
    ensures k > 0 ==> Listed(a.spans - {a.lists[k][0]}, a.lists[k := a.lists[k][1..]])
    ensures forall s: Span :: k > 0 && !s.kind.Free? ==>
              Listed(a.spans[a.lists[k][0] := s], a.lists[k := a.lists[k][1..]])
  {
    var h := a.lists[k][0];
    assert h in a.lists[k];
    assert Distinct(a.lists[k]) && IsFreeRun(a.spans, k, h);
    FrontOnce(a.lists[k]);
    if k > 0 {
      DropKeepsListed(a.spans, a.lists, h, a.lists[k][1..]);
      forall s: Span | !s.kind.Free? ensures Listed(a.spans[h := s], a.lists[k := a.lists[k][1..]]) {
        UseKeepsListed(a.spans - {h}, a.lists[k := a.lists[k][1..]], h, s);
        assert (a.spans - {h})[h := s] == a.spans[h := s];
      }
    }
  }

  lemma FrontOnce(s: seq<nat>)
    requires Distinct(s) && s != []
    ensures Distinct(s[1..])
    ensures forall x :: x in s[1..] <==> x in s && x != s[0]
  {
    forall x | x in s && x != s[0] ensures x in s[1..] {
      var i :| 0 <= i < |s| && s[i] == x;
      assert s[1..][i - 1] == x;
    }
  }

  ghost predicate Fits(k: nat, kind: Kind) {
    kind.Live? || (kind.Bin? && 1 <= kind.slot <= BIN_SLOTS && k == BinSpanSize(kind.slot))
  }

  lemma TakeKeeps(a: Heap, k: nat, kind: Kind)
    requires WellFormed(a) && 1 <= k <= SPAN_SLOTS && a.lists[k] != [] && Fits(k, kind)
    ensures WellFormed(Take(a, k, kind))
  {
    var b := Take(a, k, kind);
    FrontIsFree(a, k);
    forall x | x in b.spans ensures SpanFits(b.pages, b.spans, x) { assert SpanFits(a.pages, a.spans, x); }
  }

  lemma SplitTiles(a: Heap, h: nat, k: nat, kind: Kind)
    requires Tiled(a.pages, a.spans) && h in a.spans && a.spans[h].kind.Free? && 1 <= k < a.spans[h].len
    requires Fits(k, kind)
    ensures h + k !in a.spans
    ensures Tiled(a.pages, a.spans[h := Span(k, kind)][h + k := Span(a.spans[h].len - k, Free)])
  {
    assert SpanFits(a.pages, a.spans, h);
    var spans := a.spans[h := Span(k, kind)][h + k := Span(a.spans[h].len - k, Free)];
    forall x | x in spans ensures SpanFits(a.pages, spans, x) {
      if x in a.spans { assert SpanFits(a.pages, a.spans, x); }
    }
  }

  lemma SplitTakeKeeps(a: Heap, big: nat, k: nat, kind: Kind)
    requires WellFormed(a) && 1 <= k < big <= SPAN_SLOTS && a.lists[big] != [] && Fits(k, kind)
    ensures WellFormed(SplitTake(a, big, k, kind))
  {
    var h := a.lists[big][0];
    FrontIsFree(a, big);
    SplitTiles(a, h, k, kind);
    PushKeepsListed(a.spans[h := Span(k, kind)], a.lists[big := a.lists[big][1..]], big - k, h + k);
  }

  lemma PutBackKeeps(a: Heap, h: nat)
    requires WellFormed(a) && h in a.spans && !a.spans[h].kind.Free?
    ensures SpanFits(a.pages, a.spans, h) && WellFormed(PutBack(a, h))
  {
    assert SpanFits(a.pages, a.spans, h);
    var b := PutBack(a, h);
    forall x | x in b.spans ensures SpanFits(b.pages, b.spans, x) { assert SpanFits(a.pages, a.spans, x); }
    PushKeepsListed(a.spans, a.lists, a.spans[h].len, h);
  }

  lemma KeepsLive(a: Heap, h: nat)
    requires WellFormed(a) && h in a.spans && !a.spans[h].kind.Free?
    ensures WellFormed(a.(spans := a.spans[h := Span(a.spans[h].len, Live)]))
  {
    var b := a.(spans := a.spans[h := Span(a.spans[h].len, Live)]);
    UseKeepsListed(a.spans, a.lists, h, Span(a.spans[h].len, Live));
    forall x | x in b.spans ensures SpanFits(b.pages, b.spans, x) { assert SpanFits(a.pages, a.spans, x); }
  }

  lemma WithoutKeepsOrder(s: seq<nat>, h: nat)
    requires Distinct(s)
    ensures Distinct(Without(s, h))
  {
    if s != [] {
      WithoutKeepsOrder(s[1..], h);
      FrontOnce(s);
      if s[0] != h { assert s[0] !in Without(s[1..], h); }
    }
  }

  lemma FuseTiles(a: Heap, p: nat, q: nat)
    requires Tiled(a.pages, a.spans) && p in a.spans && q in a.spans && |a.lists| == SPAN_SLOTS + 1
    requires q == p + a.spans[p].len
    requires a.spans[p].len + a.spans[q].len <= SPAN_SLOTS
    ensures Tiled(a.pages, Fuse(a, p, q).spans)
  {
    assert SpanFits(a.pages, a.spans, p) && SpanFits(a.pages, a.spans, q);
    var b := Fuse(a, p, q);
    forall x | x in b.spans ensures SpanFits(b.pages, b.spans, x) {
      assert SpanFits(a.pages, a.spans, x);
      if x < p { assert x + a.spans[x].len <= p; }
    }
  }

  lemma FuseKeeps(a: Heap, p: nat, q: nat)
    requires WellFormed(a) && p in a.spans && q in a.spans
    requires q == p + a.spans[p].len
    requires a.spans[p].len + a.spans[q].len <= SPAN_SLOTS
    requires (a.spans[p].kind.Live? && a.spans[q].kind.Free?) || (a.spans[p].kind.Free? && a.spans[q].kind.Live?)
    ensures WellFormed(Fuse(a, p, q))
  {
    FuseTiles(a, p, q);
    assert SpanFits(a.pages, a.spans, p) && SpanFits(a.pages, a.spans, q);
    var f, u := if a.spans[p].kind.Free? then p else q, if a.spans[p].kind.Free? then q else p;
    var n := a.spans[f].len;
    var rest := Without(a.lists[n], f);
    var s := Span(a.spans[p].len + a.spans[q].len, Live);
    assert Distinct(a.lists[n]);
    WithoutKeepsOrder(a.lists[n], f);
    DropKeepsListed(a.spans, a.lists, f, rest);
    UseKeepsListed(a.spans - {f}, a.lists[n := rest], u, s);
    UseKeepsListed(a.spans - {f} - {u}, a.lists[n := rest], p, s);
    assert (a.spans - {f} - {u})[p := s] == (a.spans - {q})[p := s];
  }

  lemma FuseForwardKeeps(a: Heap, h: nat)
    requires WellFormed(a) && h in a.spans && a.spans[h].kind.Live?
    ensures var b := FuseForward(a, h); WellFormed(b) && h in b.spans && b.spans[h].kind.Live? && b.pages == a.pages
  {
    if CanAbsorb(a, h, h + a.spans[h].len) { FuseKeeps(a, h, h + a.spans[h].len); }
  }

  /** The run found by scanning down from a page contains that page. */
  lemma OwnerContains(a: Heap, p: nat)
    requires Tiled(a.pages, a.spans) && 1 <= p <= a.pages
    ensures var r := OwnerOf(a, p); r in a.spans && r <= p < r + a.spans[r].len
  {
    var r := OwnerOf(a, p);
    if r > 0 { assert SpanFits(a.pages, a.spans, r); }
  }

  lemma FuseBackwardKeeps(a: Heap, h: nat)
    requires WellFormed(a) && h in a.spans && a.spans[h].kind.Live?
    ensures var (b, s) := FuseBackward(a, h);
            WellFormed(b) && s in b.spans && b.spans[s].kind.Live? && b.pages == a.pages
  {
    assert SpanFits(a.pages, a.spans, h);
    var prev := OwnerOf(a, h - 1);
    if prev > 0 && CanAbsorb(a, h, prev) {
      OwnerContains(a, h - 1);
      assert SpanFits(a.pages, a.spans, prev);
      assert prev + a.spans[prev].len == h;
      FuseKeeps(a, prev, h);
    }
  }

  lemma AllocateKeeps(a: Heap, k: nat, kind: Kind, maxPages: nat)
    requires WellFormed(a) && 1 <= k <= SPAN_SLOTS && Fits(k, kind)
    ensures var r := Allocate(a, k, kind, maxPages); r.Granted? ==> WellFormed(r.heap)
  {
    var big := FirstBigger(a.lists, k);
    if big == k {
      TakeKeeps(a, k, kind);
    } else if big <= SPAN_SLOTS {
      SplitTakeKeeps(a, big, k, kind);
    } else if k < SPAN_SLOTS {
      GrowKeeps(a, SPAN_SLOTS);
      SplitTakeKeeps(Grow(a, SPAN_SLOTS), SPAN_SLOTS, k, kind);
    }
  }

  // ---------------------------------------- refinement of a map of taken runs

  /** The runs in use, with what they are used for. */
  ghost function Taken(a: Heap): map<nat, Span> {
    map h | h in a.spans && !a.spans[h].kind.Free? :: a.spans[h]
  }

  ghost function FreeRuns(a: Heap): map<nat, Span> {
    map h | h in a.spans && a.spans[h].kind.Free? :: a.spans[h]
  }

  /** Two runs never share a page, and every page belongs to a run. */
  lemma RunsPartitionPages(a: Heap, p: nat)
    requires Tiled(a.pages, a.spans) && 1 <= p <= a.pages
    ensures exists h :: h in a.spans && h <= p < h + a.spans[h].len
    ensures forall h, g ::
              h in a.spans && g in a.spans && h <= p < h + a.spans[h].len && g <= p < g + a.spans[g].len ==> h == g
  {
    OwnerContains(a, p);
    forall h, g | h in a.spans && g in a.spans && h <= p < h + a.spans[h].len && g <= p < g + a.spans[g].len
      ensures h == g
    {
      assert SpanFits(a.pages, a.spans, h) && SpanFits(a.pages, a.spans, g);
    }
  }

  lemma TakeTaken(a: Heap, k: nat, kind: Kind)
    requires Listed(a.spans, a.lists) && 1 <= k <= SPAN_SLOTS && a.lists[k] != [] && !kind.Free?
    ensures a.lists[k][0] in a.spans && a.lists[k][0] !in Taken(a)
    ensures Taken(Take(a, k, kind)) == Taken(a)[a.lists[k][0] := Span(k, kind)]
  {
    FrontIsFree(a, k);
  }

  lemma SplitTakeTaken(a: Heap, big: nat, k: nat, kind: Kind)
    requires WellFormed(a) && 1 <= k < big <= SPAN_SLOTS && a.lists[big] != [] && !kind.Free?
    ensures a.lists[big][0] in a.spans && a.lists[big][0] !in Taken(a)
    ensures Taken(SplitTake(a, big, k, kind)) == Taken(a)[a.lists[big][0] := Span(k, kind)]
  {
    FrontIsFree(a, big);
    assert SpanFits(a.pages, a.spans, a.lists[big][0]);
  }

  lemma GrowTaken(a: Heap, n: nat)
    requires Tiled(a.pages, a.spans) && |a.lists| == SPAN_SLOTS + 1 && n <= SPAN_SLOTS
    ensures Taken(Grow(a, n)) == Taken(a)
  {
    PagesBound(a);
  }

  lemma AllocateTaken(a: Heap, k: nat, kind: Kind, maxPages: nat)
    requires WellFormed(a) && 1 <= k <= SPAN_SLOTS && Fits(k, kind)
    ensures var r := Allocate(a, k, kind, maxPages);
            r.Granted? ==> r.start !in Taken(a) && Taken(r.heap) == Taken(a)[r.start := Span(k, kind)]
  {
    var big := FirstBigger(a.lists, k);
    if big == k {
      TakeTaken(a, k, kind);
    } else if big <= SPAN_SLOTS {
      SplitTakeTaken(a, big, k, kind);
    } else if k < SPAN_SLOTS {
      GrowKeeps(a, SPAN_SLOTS);
      GrowTaken(a, SPAN_SLOTS);
      SplitTakeTaken(Grow(a, SPAN_SLOTS), SPAN_SLOTS, k, kind);
    }
  }

  /** The run taken or cut is a shortest free run that is long enough; new pages are taken only when there is none. */
  lemma AllocateIsBestFit(a: Heap, k: nat, kind: Kind, maxPages: nat)
    requires WellFormed(a) && 1 <= k <= SPAN_SLOTS && Allocate(a, k, kind, maxPages).Granted?
    ensures var r := Allocate(a, k, kind, maxPages);
            if r.heap.pages == a.pages
            then IsFreeRun(a.spans, SpanLen(a, r.start), r.start) && k <= SpanLen(a, r.start) &&
              NoneBetween(a, k, SpanLen(a, r.start))
            else r.start == a.pages + 1 && NoneBetween(a, k, SPAN_SLOTS + 1)
  {
    var big := FirstBigger(a.lists, k);
    forall h | h in a.spans && a.spans[h].kind.Free? ensures a.spans[h].len < k || big <= a.spans[h].len {
      assert OnItsList(a.spans, a.lists, h);
    }
    if big <= SPAN_SLOTS { FrontIsFree(a, big); }
  }

  /**
    The runs after an allocation: the run taken, which for want of a free run that is long enough is a new one of 60
    pages, has k pages in use, and what is longer stays free behind them; all other runs are as before.
    */
  lemma AllocationCuts(a: Heap, k: nat, kind: Kind, maxPages: nat)
    requires WellFormed(a) && 1 <= k <= SPAN_SLOTS && Allocate(a, k, kind, maxPages).Granted?
    ensures var r := Allocate(a, k, kind, maxPages);
            var grown := NoneBetween(a, k, SPAN_SLOTS + 1);
            var n := if grown then 60 else SpanLen(a, r.start);
            var used := a.spans[r.start := Span(k, kind)];
            && r.heap.pages == a.pages + (if grown then 60 else 0) && k <= n
            && r.heap.spans == if n == k then used else used[r.start + k := Span(n - k, Free)]
  {
    AllocateIsBestFit(a, k, kind, maxPages);
    var big := FirstBigger(a.lists, k);
    forall h | h in a.spans && a.spans[h].kind.Free?
      ensures a.spans[h].len < k || big <= a.spans[h].len
    {
      assert OnItsList(a.spans, a.lists, h);
    }
    if big <= SPAN_SLOTS {
      FrontIsFree(a, big);
    } else {
      forall h | h in a.spans && a.spans[h].kind.Free?
        ensures a.spans[h].len < k
      {
        assert SpanFits(a.pages, a.spans, h);
      }
    }
  }

  function SpanLen(a: Heap, h: nat): nat { if h in a.spans then a.spans[h].len else 0 }

  ghost predicate NoneBetween(a: Heap, low: nat, high: nat) {
    forall h :: h in a.spans && a.spans[h].kind.Free? ==> a.spans[h].len < low || high <= a.spans[h].len
  }

  ghost predicate Exhausted(a: Heap, k: nat, maxPages: nat) {
    a.pages + SPAN_SLOTS > maxPages && forall h :: h in a.spans && a.spans[h].kind.Free? ==> a.spans[h].len < k
  }

  /** A request of the greatest length that has to grow the heap. */
  ghost predicate SplitsNothing(a: Heap, k: nat, maxPages: nat)
    requires |a.lists| == SPAN_SLOTS + 1
  {
    k == SPAN_SLOTS && a.lists[k] == [] && a.pages + SPAN_SLOTS <= maxPages
  }

  /**
    Best fit with growth fails exactly when no free run is long enough and no further chunk fits, and goes wrong in
    one case only.
    */
  lemma AllocateFailsWhenExhausted(a: Heap, k: nat, kind: Kind, maxPages: nat)
    requires WellFormed(a) && 1 <= k <= SPAN_SLOTS
    ensures Allocate(a, k, kind, maxPages).OutOfMemory? <==> Exhausted(a, k, maxPages)
    ensures Allocate(a, k, kind, maxPages).Corrupted? <==> SplitsNothing(a, k, maxPages)
  {
    var big := FirstBigger(a.lists, k);
    if big <= SPAN_SLOTS {
      FrontIsFree(a, big);
    } else {
      forall h | h in a.spans && a.spans[h].kind.Free? ensures a.spans[h].len < k {
        assert SpanFits(a.pages, a.spans, h);
        assert OnItsList(a.spans, a.lists, h);
      }
    }
  }

  /** From a to b exactly one run changes hands: k pages at h, none of which belonged to a run in use. */
  ghost predicate FreshRun(a: Heap, b: Heap, h: nat, k: nat, kind: Kind) {
    && h > 0 && h + k <= b.pages + 1
    && h !in Taken(a) && Taken(b) == Taken(a)[h := Span(k, kind)]
    && forall x :: x in Taken(a) ==> x + Taken(a)[x].len <= h || h + k <= x
  }

  lemma TakenRunIsFresh(a: Heap, b: Heap, h: nat, k: nat, kind: Kind)
    requires Tiled(b.pages, b.spans) && !kind.Free? && h !in Taken(a) && Taken(b) == Taken(a)[h := Span(k, kind)]
    ensures FreshRun(a, b, h, k, kind)
  {
    assert h in Taken(b);
    assert SpanFits(b.pages, b.spans, h);
    forall x | x in Taken(a) ensures x + Taken(a)[x].len <= h || h + k <= x {
      assert x in Taken(b) && Taken(b)[x] == Taken(a)[x];
      assert SpanFits(b.pages, b.spans, x);
    }
  }

  /** An allocation adds one run of k pages, made of pages no run in use has, and disturbs no run in use. */
  lemma AllocateGrantsFreshRun(a: Heap, k: nat, kind: Kind, maxPages: nat)
    requires WellFormed(a) && 1 <= k <= SPAN_SLOTS && Fits(k, kind)
    requires Allocate(a, k, kind, maxPages).Granted?
    ensures var r := Allocate(a, k, kind, maxPages); WellFormed(r.heap) && FreshRun(a, r.heap, r.start, k, kind)
  {
    var r := Allocate(a, k, kind, maxPages);
    AllocateKeeps(a, k, kind, maxPages);
    AllocateTaken(a, k, kind, maxPages);
    TakenRunIsFresh(a, r.heap, r.start, k, kind);
  }

  lemma FuseTaken(a: Heap, p: nat, q: nat)
    requires |a.lists| == SPAN_SLOTS + 1 && p in a.spans && q in a.spans && p != q
    requires a.spans[p].len <= SPAN_SLOTS && a.spans[q].len <= SPAN_SLOTS
    ensures Taken(Fuse(a, p, q)) - {p} == Taken(a) - {p, q}
  {}

  lemma FuseForwardTaken(a: Heap, h: nat)
    requires Tiled(a.pages, a.spans) && h in a.spans && |a.lists| == SPAN_SLOTS + 1
    ensures Taken(FuseForward(a, h)) - {h} == Taken(a) - {h}
  {
    assert SpanFits(a.pages, a.spans, h);
    var next := h + a.spans[h].len;
    if CanAbsorb(a, h, next) {
      assert SpanFits(a.pages, a.spans, next);
      FuseTaken(a, h, next);
      assert Taken(a) - {h, next} == Taken(a) - {h};
    }
  }

  lemma FuseBackwardTaken(a: Heap, h: nat)
    requires Tiled(a.pages, a.spans) && h in a.spans && |a.lists| == SPAN_SLOTS + 1
    ensures var (b, s) := FuseBackward(a, h); Taken(b) - {s} == Taken(a) - {h}
  {
    assert SpanFits(a.pages, a.spans, h);
    var (b, s) := FuseBackward(a, h);
    if s != h {
      assert SpanFits(a.pages, a.spans, s);
      FuseTaken(a, s, h);
      assert Taken(a) - {s, h} == Taken(a) - {h};
    }
  }

  lemma PutBackTaken(a: Heap, h: nat)
    requires h in a.spans && |a.lists| == SPAN_SLOTS + 1 && a.spans[h].len <= SPAN_SLOTS
    ensures Taken(PutBack(a, h)) == Taken(a) - {h}
  {}

  /** A release gives up exactly the released run, whatever it is merged with. */
  lemma ReleaseReturnsRun(a: Heap, h: nat)
    requires WellFormed(a) && h in a.spans && !a.spans[h].kind.Free?
    ensures Taken(Release(a, h)) == Taken(a) - {h}
  {
    assert SpanFits(a.pages, a.spans, h);
    var n := a.spans[h].len;
    if a.lists[n] == [] || n >= LAZY_LIMIT {
      PutBackTaken(a, h);
    } else {
      var b := a.(spans := a.spans[h := Span(n, Live)]);
      KeepsLive(a, h);
      assert Taken(b) - {h} == Taken(a) - {h};
      FuseForwardKeeps(b, h);
      FuseForwardTaken(b, h);
      FuseBackwardTaken(FuseForward(b, h), h);
      var (d, s) := Coalesce(b, h);
      assert SpanFits(d.pages, d.spans, s);
      PutBackTaken(d, s);
    }
  }

  /**
    Whether a release of h merges at all, with the run above, and then with the run below; told from the state before
    it.
    */
  ghost predicate Merges(a: Heap, n: nat) { n < LAZY_LIMIT && n < |a.lists| && a.lists[n] != [] }

  ghost predicate MergesUp(a: Heap, h: nat)
    requires h in a.spans
  {
    Merges(a, a.spans[h].len) && CanAbsorb(a, h, h + a.spans[h].len)
  }

  ghost function LenAfterUp(a: Heap, h: nat): nat
    requires h in a.spans
  {
    a.spans[h].len + if MergesUp(a, h) then a.spans[h + a.spans[h].len].len else 0
  }

  ghost predicate MergesDown(a: Heap, h: nat)
    requires h in a.spans && h > 0
  {
    var prev, m := OwnerOf(a, h - 1), LenAfterUp(a, h);
    && Merges(a, a.spans[h].len) && Merges(a, m)
    && prev in a.spans && prev > 0 && a.spans[prev].kind.Free? && a.spans[prev].len + m <= SPAN_SLOTS
  }

  /**
    Which runs there are after a release: all as before, except for the released one and the one or two it has merged
    with.
    */
  lemma ReleaseMerges(a: Heap, h: nat)
    requires WellFormed(a) && h in a.spans && !a.spans[h].kind.Free?
    ensures h > 0
    ensures var prev, m := OwnerOf(a, h - 1), LenAfterUp(a, h);
            var rest := if MergesUp(a, h) then a.spans - {h + a.spans[h].len} else a.spans;
            Release(a, h).spans ==
              if MergesDown(a, h) then (rest - {h})[prev := Span(a.spans[prev].len + m, Free)]
              else rest[h := Span(m, Free)]
  {
    assert SpanFits(a.pages, a.spans, h);
    if Merges(a, a.spans[h].len) {
      var m := LenAfterUp(a, h);
      UpMerged(a, h, Upwards(a, h));
      DownIsDecided(a, h);
      ReleaseInSteps(a, h);
      Overwritten(if MergesUp(a, h) then a.spans - {h + a.spans[h].len} else a.spans, h, Span(m, Live), Span(m, Free));
    }
  }

  /** The heap between the two merges. */
  ghost function Upwards(a: Heap, h: nat): (c: Heap)
    requires WellFormed(a) && h in a.spans && !a.spans[h].kind.Free?
    ensures WellFormed(c) && h in c.spans && c.spans[h].kind.Live?
  {
    KeepsLive(a, h);
    FuseForwardKeeps(a.(spans := a.spans[h := Span(a.spans[h].len, Live)]), h);
    FuseForward(a.(spans := a.spans[h := Span(a.spans[h].len, Live)]), h)
  }

  /** The merge downwards is decided as MergesDown says. */
  lemma DownIsDecided(a: Heap, h: nat)
    requires WellFormed(a) && h in a.spans && !a.spans[h].kind.Free? && Merges(a, a.spans[h].len)
    ensures h > 0
    ensures var c := Upwards(a, h);
            var prev := OwnerOf(a, h - 1);
            && prev == OwnerOf(c, h - 1) && c.spans[h].len == LenAfterUp(a, h)
            && (prev > 0 && Merges(c, c.spans[h].len) && CanAbsorb(c, h, prev) <==> MergesDown(a, h))
            && (MergesDown(a, h) ==> c.spans[prev] == a.spans[prev])
  {
    var c := Upwards(a, h);
    assert SpanFits(a.pages, a.spans, h) && SpanFits(c.pages, c.spans, h);
    UpMerged(a, h, c);
    SameOwner(a, c, h - 1);
  }

  lemma Overwritten(spans: map<nat, Span>, h: nat, x: Span, y: Span)
    ensures spans[h := x] - {h} == spans - {h} && spans[h := x][h := y] == spans[h := y]
  {}

  lemma ReleaseInSteps(a: Heap, h: nat)
    requires WellFormed(a) && h in a.spans && !a.spans[h].kind.Free? && Merges(a, a.spans[h].len)
    ensures h > 0
    ensures var c := Upwards(a, h);
            var prev, m := OwnerOf(c, h - 1), c.spans[h].len;
            && m <= SPAN_SLOTS
            && Release(a, h).spans ==
                 if prev > 0 && Merges(c, m) && CanAbsorb(c, h, prev)
                 then (c.spans - {h})[prev := Span(c.spans[prev].len + m, Free)]
                 else c.spans[h := Span(m, Free)]
  {
    DownMerged(Upwards(a, h), h);
  }

  lemma DownMerged(c: Heap, h: nat)
    requires WellFormed(c) && h in c.spans && c.spans[h].kind.Live?
    ensures h > 0
    ensures var prev, m := OwnerOf(c, h - 1), c.spans[h].len;
            var (d, s) := FuseBackward(c, h);
            && m <= SPAN_SLOTS && s in d.spans && |d.lists| == SPAN_SLOTS + 1 && d.spans[s].len <= SPAN_SLOTS
            && PutBack(d, s).spans ==
                 if prev > 0 && c.lists[m] != [] && m < LAZY_LIMIT && CanAbsorb(c, h, prev)
                 then (c.spans - {h})[prev := Span(c.spans[prev].len + m, Free)]
                 else c.spans[h := Span(m, Free)]
  {
    assert SpanFits(c.pages, c.spans, h);
    FuseBackwardKeeps(c, h);
    var (d, s) := FuseBackward(c, h);
    assert SpanFits(d.pages, d.spans, s);
  }

  /** A run of 12 pages or more goes back as it is. */
  lemma LongRunsStayApart(a: Heap, h: nat)
    requires WellFormed(a) && h in a.spans && !a.spans[h].kind.Free? && a.spans[h].len >= 12
    ensures Release(a, h).spans == a.spans[h := Span(a.spans[h].len, Free)]
  {
    ReleaseMerges(a, h);
  }

  lemma UpIsGone(a: Heap, h: nat)
    requires WellFormed(a) && h in a.spans && !a.spans[h].kind.Free? && h + a.spans[h].len in a.spans
    ensures h + a.spans[h].len in Release(a, h).spans <==> !MergesUp(a, h)
  {
    ReleaseMerges(a, h);
    assert SpanFits(a.pages, a.spans, h);
  }

  /**
    A shorter one, if its list is not empty, merges with the run above whenever that is free and 60 pages are enough
    for both.
    */
  lemma ShortRunsMergeUp(a: Heap, h: nat)
    requires WellFormed(a) && h in a.spans && !a.spans[h].kind.Free? && a.spans[h].len < 12
    ensures h > 0 && a.spans[h].len < |a.lists|
    ensures var (n, up) := (a.spans[h].len, h + a.spans[h].len);
            up in a.spans ==>
              (up in Release(a, h).spans <==>
                 !(a.lists[n] != [] && a.spans[up].kind.Free? && n + a.spans[up].len <= 60))
  {
    assert SpanFits(a.pages, a.spans, h);
    if h + a.spans[h].len in a.spans { UpIsGone(a, h); }
  }

  /** After the merge upwards: the runs, and the list that decides on the merge downwards. */
  lemma UpMerged(a: Heap, h: nat, c: Heap)
    requires WellFormed(a) && h in a.spans && !a.spans[h].kind.Free? && Merges(a, a.spans[h].len) && c == Upwards(a, h)
    ensures var rest := if MergesUp(a, h) then a.spans - {h + a.spans[h].len} else a.spans;
            c.spans == rest[h := Span(LenAfterUp(a, h), Live)]
    ensures |c.lists| == |a.lists|
    ensures (LenAfterUp(a, h) <= SPAN_SLOTS ==> c.lists[LenAfterUp(a, h)] == a.lists[LenAfterUp(a, h)])
  {
    assert SpanFits(a.pages, a.spans, h);
  }

  lemma {:induction false} SameOwner(a: Heap, c: Heap, p: nat)
    requires forall x :: x <= p ==> (x in a.spans <==> x in c.spans)
    ensures OwnerOf(a, p) == OwnerOf(c, p)
  {
    if p > 0 && p !in a.spans { SameOwner(a, c, p - 1); }
  }

  // -------------------------------------------------------------- conservation

  ghost function Total(m: map<nat, Span>): nat {
    if m == map[] then 0 else var h :| h in m.Keys; m[h].len + Total(m - {h})
  }

  lemma TotalSplitsOff(m: map<nat, Span>, h: nat)
    requires h in m
    ensures Total(m) == m[h].len + Total(m - {h})
  {
    var g :| g in m && Total(m) == m[g].len + Total(m - {g});
    if g != h {
      TotalSplitsOff(m - {g}, h);
      TotalSplitsOff(m - {h}, g);
      assert m - {g} - {h} == m - {h} - {g};
    }
  }

  lemma TotalOfUnion(m: map<nat, Span>, n: map<nat, Span>)
    requires m.Keys !! n.Keys
    ensures Total(m + n) == Total(m) + Total(n)
  {
    if m == map[] {
      assert m + n == n;
    } else {
      var h :| h in m;
      TotalSplitsOff(m, h);
      TotalSplitsOff(m + n, h);
      assert (m + n) - {h} == (m - {h}) + n;
      TotalOfUnion(m - {h}, n);
    }
  }

  ghost function From(a: Heap, h: nat): map<nat, Span> {
    map x | x in a.spans && x >= h :: a.spans[x]
  }

  lemma RunsFillPages(a: Heap, h: nat)
    requires Tiled(a.pages, a.spans) && (h in a.spans || h == a.pages + 1)
    ensures Total(From(a, h)) == a.pages + 1 - h
    decreases a.pages + 1 - h
  {
    PagesBound(a);
    if h in a.spans {
      assert SpanFits(a.pages, a.spans, h);
      var next := h + a.spans[h].len;
      RunsFillPages(a, next);
      TotalSplitsOff(From(a, h), h);
      assert From(a, h) - {h} == From(a, next);
    } else {
      assert From(a, h) == map[];
    }
  }

  /** Free pages and pages in use always add up to the pages taken from the operating system. */
  lemma PagesAreConserved(a: Heap)
    requires Tiled(a.pages, a.spans)
    ensures Total(Taken(a)) + Total(FreeRuns(a)) == a.pages
  {
    PagesBound(a);
    RunsFillPages(a, 1);
    assert From(a, 1) == Taken(a) + FreeRuns(a);
    TotalOfUnion(Taken(a), FreeRuns(a));
  }

  // ----------------------------------------------------------------- whole runs

  datatype Op =
    | GrowBy(n: nat)
    | Chunk(pages: nat)
    | Carve(slot: nat)
    | GiveBack(start: nat)

  /** What callers may ask for, with the one request left out that no heap survives. */
  ghost predicate Enabled(a: Heap, op: Op, maxPages: nat)
    requires WellFormed(a)
  {
    match op
    case GrowBy(n) => 1 <= n <= SPAN_SLOTS && a.pages + n <= maxPages
    case Chunk(k) => 1 <= k <= SPAN_SLOTS && !SplitsNothing(a, k, maxPages)
    case Carve(slot) => 1 <= slot <= BIN_SLOTS
    case GiveBack(h) => h in a.spans && !a.spans[h].kind.Free?
  }

  /** An allocation that fails throws and changes nothing. */
  function AfterAllocation(a: Heap, r: Allocation): Heap { if r.Granted? then r.heap else a }

  ghost function Step(a: Heap, op: Op, maxPages: nat): Heap
    requires WellFormed(a) && Enabled(a, op, maxPages)
  {
    match op
    case GrowBy(n) => Grow(a, n)
    case Chunk(k) => AfterAllocation(a, Allocate(a, k, Live, maxPages))
    case Carve(slot) => AfterAllocation(a, Allocate(a, BinSpanSize(slot), Bin(slot), maxPages))
    case GiveBack(h) => Release(a, h)
  }

  lemma StepKeeps(a: Heap, op: Op, maxPages: nat)
    requires WellFormed(a) && a.pages <= maxPages && Enabled(a, op, maxPages)
    ensures WellFormed(Step(a, op, maxPages)) && Step(a, op, maxPages).pages <= maxPages
  {
    match op
    case GrowBy(n) => GrowKeeps(a, n);
    case Chunk(k) => AllocateKeeps(a, k, Live, maxPages);
    case Carve(slot) => AllocateKeeps(a, BinSpanSize(slot), Bin(slot), maxPages);
    case GiveBack(h) =>
  }

  /** What is taken or returned: a granted request adds one run that meets no other; a release takes off its own. */
  lemma StepTakesOrReturns(a: Heap, op: Op, maxPages: nat)
    requires WellFormed(a) && Enabled(a, op, maxPages)
    ensures var b := Step(a, op, maxPages);
            match op
            case GrowBy(n) => Taken(b) == Taken(a) && b.pages == a.pages + n
            case Chunk(k) => if Exhausted(a, k, maxPages) then b == a else exists h :: FreshRun(a, b, h, k, Live)
            case Carve(slot) =>
              var k := BinSpanSize(slot);
              if Exhausted(a, k, maxPages) then b == a else exists h :: FreshRun(a, b, h, k, Bin(slot))
            case GiveBack(h) => Taken(b) == Taken(a) - {h} && b.pages == a.pages
  {
    match op
    case GrowBy(n) => GrowTaken(a, n);
    case Chunk(k) => RequestTakesOrFails(a, Step(a, op, maxPages), k, Live, maxPages);
    case Carve(slot) => RequestTakesOrFails(a, Step(a, op, maxPages), BinSpanSize(slot), Bin(slot), maxPages);
    case GiveBack(h) => ReleaseReturnsRun(a, h);
  }

  lemma RequestTakesOrFails(a: Heap, b: Heap, k: nat, kind: Kind, maxPages: nat)
    requires WellFormed(a) && 1 <= k <= SPAN_SLOTS && Fits(k, kind) && !SplitsNothing(a, k, maxPages)
    requires b == AfterAllocation(a, Allocate(a, k, kind, maxPages))
    ensures if Exhausted(a, k, maxPages) then b == a else exists h :: FreshRun(a, b, h, k, kind)
  {
    AllocateFailsWhenExhausted(a, k, kind, maxPages);
    var r := Allocate(a, k, kind, maxPages);
    if r.Granted? {
      AllocateGrantsFreshRun(a, k, kind, maxPages);
      assert FreshRun(a, b, r.start, k, kind);
    }
  }

  ghost predicate IsRun(trace: seq<Heap>, ops: seq<Op>, maxPages: nat) {
    && |trace| == |ops| + 1
    && IsEmpty(trace[0])
    && forall i :: 0 <= i < |ops| ==> WellFormed(trace[i]) ==>
         Enabled(trace[i], ops[i], maxPages) && trace[i + 1] == Step(trace[i], ops[i], maxPages)
  }

  /** After every sequence of operations the runs tile the pages, the lists are exact and no page is lost. */
  lemma {:induction false} EveryRunStaysWellFormed(trace: seq<Heap>, ops: seq<Op>, maxPages: nat, i: nat)
    requires IsRun(trace, ops, maxPages) && i < |trace|
    ensures WellFormed(trace[i]) && trace[i].pages <= maxPages
    ensures Total(Taken(trace[i])) + Total(FreeRuns(trace[i])) == trace[i].pages
  {
    if i > 0 {
      EveryRunStaysWellFormed(trace, ops, maxPages, i - 1);
      StepKeeps(trace[i - 1], ops[i - 1], maxPages);
    }
    PagesAreConserved(trace[i]);
  }
}
