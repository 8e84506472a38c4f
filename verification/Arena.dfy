/**
  The arena's span layer on its real data: one header per page, the bitmap of
  span starts, and the heads of the free lists. Links are page handles; 0 ends
  a list and -1 in `next` marks a chunk in use. Every method is proved to carry
  out the matching operation of `SpanHeap`.
  */
module Arena {
  import opened Arithmetic
  import opened Links
  import opened Options
  import opened Sequences
  import opened SpanHeap

  const PAGE_TOTAL := 1024 * 16 * 11
  const PAGE_BYTES := 4096
  const HEADER_BYTES := 12
  const MAX_OBJECT := 4080
  const SELF_RESERVED := ((PAGE_TOTAL + 1) / 8 + 4 * (BIN_SLOTS + SPAN_SLOTS + 2)) / PAGE_BYTES + 1
  const MAX_PAGES: nat := PAGE_TOTAL - SELF_RESERVED

  // Addresses are byte offsets from the start of the reserved memory.

  function PtrOf(h: int): int { (h + SELF_RESERVED - 1) * PAGE_BYTES }

  function SpanSlotOf(size: nat): nat { (size + HEADER_BYTES - 1) / PAGE_BYTES + 1 }

  function PageHandleOf(ptr: int): int { ptr / PAGE_BYTES - SELF_RESERVED + 1 }

  /**
    Where the arena's own tables end: bin_ with its 40 entries, span_list_ with its 61, and the bitset is_head_ with a
    bit for each of 180225 pages, in words of 64.
    */
  const TABLES_END := 4 * 40 + 4 * 61 + 8 * ((180225 + 63) / 64)

  /** The reserved pages are the least number that holds the tables, so page 1 and all after it lie behind them. */
  lemma PagesAreBehindTables(h: nat)
    ensures (PtrOf(0) / 4096 + 1) * 4096 >= TABLES_END > PtrOf(0) / 4096 * 4096
    ensures PtrOf(1) == (PtrOf(0) / 4096 + 1) * 4096 && (h > 0 ==> TABLES_END <= PtrOf(h))
    ensures PtrOf(MAX_PAGES + 1) == 180224 * 4096
  {}

  /** A chunk of SpanSlotOf(size) pages is the shortest one with room for a header of 12 bytes and `size` bytes. */
  lemma SlotIsTight(size: nat)
    ensures SpanSlotOf(size) * 4096 >= 12 + size > (SpanSlotOf(size) - 1) * 4096
  {}

  /** The chunk of a run that starts at page h lies in the run, behind the tables and in the reserved memory. */
  lemma ChunkIsPlaced(h: nat, size: nat)
    requires h > 0 && h + SpanSlotOf(size) <= MAX_PAGES + 1
    ensures PageHandleOf(PtrOf(h) + HEADER_BYTES) == h && TABLES_END <= PtrOf(h)
    ensures PtrOf(h) + HEADER_BYTES + size <= PtrOf(h + SpanSlotOf(size)) <= 180224 * 4096
  {
    ChunkAddress(h, size);
    PagesAreBehindTables(h);
  }

  lemma ChunkAddress(h: nat, size: nat)
    ensures PageHandleOf(PtrOf(h) + HEADER_BYTES) == h
    ensures PtrOf(h) + HEADER_BYTES + size <= PtrOf(h + SpanSlotOf(size))
  {
    SlotIsTight(size);
  }

  /** Any address in the pages h .. h+n-1 maps back to one of those pages. */
  lemma HandleOfAddressInside(h: nat, n: nat, ptr: int)
    requires PtrOf(h) <= ptr < PtrOf(h + n)
    ensures h <= PageHandleOf(ptr) < h + n
  {}

  // ------------------------------------------------------------ representation

  ghost predicate HeaderOk(s: Span, x: Header) {
    match s.kind
    case Free => x.flag == s.len
    case Live => x.flag == s.len && x.next == -1
    case Bin(slot) => x.flag + slot == 0
  }

  ghost predicate InBounds(spans: map<nat, Span>, n: nat) {
    forall h :: h in spans ==> 1 <= h < n
  }

  /** Headers and bitmap agree with the runs; nothing is said about the run `cur`, which a release is working on. */
  ghost predicate SpansOk(spans: map<nat, Span>, hdr: seq<Header>, isHead: seq<bool>, cur: nat) {
    && InBounds(spans, |hdr|)
    && (forall h :: h in spans && h != cur ==> HeaderOk(spans[h], hdr[h]))
    && (forall h :: 1 <= h < |isHead| && h != cur ==> (isHead[h] <==> h in spans))
  }

  // ----------------------------------------------------- list surgery on values

  /** Only the links of pages on free lists differ. */
  ghost predicate LinksOnly(spans: map<nat, Span>, before: seq<Header>, after: seq<Header>) {
    && |before| == |after|
    && (forall x :: 0 <= x < |before| ==> after[x].flag == before[x].flag)
    && (forall x :: 0 <= x < |before| && !(x in spans && spans[x].kind.Free?) ==> after[x] == before[x])
  }

  lemma HeadsInBounds(a: Heap, hdr: seq<Header>, heads: seq<int>)
    requires Listed(a.spans, a.lists) && InBounds(a.spans, |hdr|) && ListsOk(a.lists, hdr, heads)
    ensures forall k :: 0 <= k <= SPAN_SLOTS ==> 0 <= heads[k] && (heads[k] > 0 <==> a.lists[k] != [])
    ensures forall k :: 0 <= k <= SPAN_SLOTS && a.lists[k] != [] ==>
              && 0 < heads[k] == a.lists[k][0] < |hdr| && a.lists[k][0] in a.spans
              && a.spans[a.lists[k][0]] == Span(k, Free)
  {
    forall k | 0 <= k <= SPAN_SLOTS && a.lists[k] != []
      ensures a.lists[k][0] in a.spans && a.spans[a.lists[k][0]] == Span(k, Free)
    {
      FrontIsFree(a, k);
    }
  }

  /** No page is on two lists, or twice on one. */
  lemma ListedOnce(a: Heap, j: nat, i: nat, k: nat, m: nat)
    requires Listed(a.spans, a.lists) && j <= SPAN_SLOTS && k <= SPAN_SLOTS && i < |a.lists[j]| && m < |a.lists[k]|
    requires j != k || i != m
    ensures a.lists[j][i] != a.lists[k][m]
  {
    if j == k {
      assert Distinct(a.lists[j]);
    } else {
      assert a.lists[j][i] in a.lists[j] && a.lists[k][m] in a.lists[k];
      assert IsFreeRun(a.spans, j, a.lists[j][i]) && IsFreeRun(a.spans, k, a.lists[k][m]);
    }
  }

  /** A page on no list may have its header overwritten. */
  lemma OverwriteKeepsLists(a: Heap, hdr: seq<Header>, heads: seq<int>, h: nat, x: Header)
    requires Listed(a.spans, a.lists) && InBounds(a.spans, |hdr|) && ListsOk(a.lists, hdr, heads)
    requires h < |hdr| && (h in a.spans ==> !a.spans[h].kind.Free?)
    ensures ListsOk(a.lists, hdr[h := x], heads)
  {
    NotListed(a, h);
    forall k | 0 <= k <= SPAN_SLOTS ensures Chained(hdr[h := x], a.lists[k]) {
      ChainUntouched(hdr, hdr[h := x], a.lists[k]);
    }
  }

  lemma OnlyThere(a: Heap, k: nat, m: nat)
    requires Listed(a.spans, a.lists) && k <= SPAN_SLOTS && m < |a.lists[k]|
    ensures OnlyAt(a.lists, a.lists[k][m], k, m)
    ensures a.lists[k][m] in a.spans && a.spans[a.lists[k][m]] == Span(k, Free)
  {
    assert a.lists[k][m] in a.lists[k] && IsFreeRun(a.spans, k, a.lists[k][m]);
    forall j, i | 0 <= j < |a.lists| && 0 <= i < |a.lists[j]| && !(j == k && i == m)
      ensures a.lists[j][i] != a.lists[k][m]
    {
      ListedOnce(a, j, i, k, m);
    }
  }

  lemma NotListed(a: Heap, h: nat)
    requires Listed(a.spans, a.lists) && (h in a.spans ==> !a.spans[h].kind.Free?)
    ensures OnlyAt(a.lists, h, |a.lists|, 0)
  {
    forall j, i | 0 <= j < |a.lists| && 0 <= i < |a.lists[j]| ensures a.lists[j][i] != h {
      assert a.lists[j][i] in a.lists[j] && IsFreeRun(a.spans, j, a.lists[j][i]);
    }
  }

  lemma PushKeepsLists(a: Heap, hdr: seq<Header>, heads: seq<int>, k: nat, h: nat)
    requires Listed(a.spans, a.lists) && InBounds(a.spans, |hdr|) && ListsOk(a.lists, hdr, heads)
    requires 1 <= k <= SPAN_SLOTS && 0 < h < |hdr| && (h in a.spans ==> !a.spans[h].kind.Free?)
    ensures heads[k] < |hdr|
    ensures ListsOk(a.lists[k := [h] + a.lists[k]], Pushed(hdr, heads, k, h), heads[k := h])
    ensures LinksOnly(a.spans, hdr[h := Pushed(hdr, heads, k, h)[h]], Pushed(hdr, heads, k, h))
    ensures Pushed(hdr, heads, k, h)[h] == Header(hdr[h].flag, 0, heads[k])
  {
    NotListed(a, h);
    if a.lists[k] != [] { OnlyThere(a, k, 0); }
    PushLists(a.lists, hdr, heads, k, h);
  }

  lemma PopKeepsLists(a: Heap, hdr: seq<Header>, heads: seq<int>, k: nat)
    requires Listed(a.spans, a.lists) && InBounds(a.spans, |hdr|) && ListsOk(a.lists, hdr, heads)
    requires 1 <= k <= SPAN_SLOTS && a.lists[k] != []
    ensures 0 < heads[k] == a.lists[k][0] < |hdr| && hdr[heads[k]].next < |hdr|
    ensures ListsOk(a.lists[k := a.lists[k][1..]], Popped(hdr, heads[k]), heads[k := hdr[heads[k]].next])
    ensures LinksOnly(a.spans, hdr, Popped(hdr, heads[k]))
    ensures Popped(hdr, heads[k])[heads[k]] == hdr[heads[k]]
  {
    OnlyThere(a, k, 0);
    if |a.lists[k]| > 1 { OnlyThere(a, k, 1); }
    PopLists(a.lists, hdr, heads, k);
  }

  lemma {:induction false} WithoutAt(l: seq<nat>, i: nat)
    requires Distinct(l) && i < |l|
    ensures Without(l, l[i]) == l[..i] + l[i + 1..]
  {
    if i == 0 {
      assert forall j :: 1 <= j < |l| ==> l[j] != l[0];
      NothingToDrop(l[1..], l[0]);
    } else {
      var t := l[1..];
      assert l[i] == t[i - 1] && l[0] != l[i];
      WithoutAt(t, i - 1);
      assert [l[0]] + (t[..i - 1] + t[i..]) == l[..i] + l[i + 1..];
    }
  }

  lemma NothingToDrop(l: seq<nat>, h: nat)
    requires h !in l
    ensures Without(l, h) == l
  {}

  lemma BridgeKeepsLists(a: Heap, hdr: seq<Header>, heads: seq<int>, k: nat, i: nat)
    requires Listed(a.spans, a.lists) && InBounds(a.spans, |hdr|) && ListsOk(a.lists, hdr, heads)
    requires 1 <= k <= SPAN_SLOTS && 0 < i < |a.lists[k]|
    ensures var h := a.lists[k][i];
            && 0 < h < |hdr| && hdr[h].next < |hdr| && 0 < hdr[h].pri < |hdr|
            && ListsOk(a.lists[k := a.lists[k][..i] + a.lists[k][i + 1..]], Bridged(hdr, h), heads)
            && LinksOnly(a.spans, hdr, Bridged(hdr, h))
  {
    OnlyThere(a, k, i);
    OnlyThere(a, k, i - 1);
    if i + 1 < |a.lists[k]| { OnlyThere(a, k, i + 1); }
    BridgeLists(a.lists, hdr, heads, k, i);
  }

  /** What taking the free page h off its list does: a list head is popped, any other page bridged over. */
  lemma UnlinkKeepsLists(a: Heap, hdr: seq<Header>, heads: seq<int>, h: nat)
    requires Listed(a.spans, a.lists) && InBounds(a.spans, |hdr|) && ListsOk(a.lists, hdr, heads)
    requires h in a.spans && a.spans[h].kind.Free? && 1 <= a.spans[h].len <= SPAN_SLOTS
    ensures 0 <= hdr[h].next < |hdr| && 0 <= hdr[h].pri < |hdr|
    ensures var k := a.spans[h].len;
            && ListsOk(a.lists[k := Without(a.lists[k], h)],
                       if hdr[h].pri == 0 then Popped(hdr, h) else Bridged(hdr, h),
                       if hdr[h].pri == 0 then heads[k := hdr[h].next] else heads)
            && LinksOnly(a.spans, hdr, if hdr[h].pri == 0 then Popped(hdr, h) else Bridged(hdr, h))
  {
    var k := a.spans[h].len;
    assert OnItsList(a.spans, a.lists, h) && h in a.lists[k];
    var i :| 0 <= i < |a.lists[k]| && a.lists[k][i] == h;
    assert Distinct(a.lists[k]) && Chained(hdr, a.lists[k]) && LinkAt(hdr, a.lists[k], i);
    WithoutAt(a.lists[k], i);
    if i == 0 {
      PopKeepsLists(a, hdr, heads, k);
      assert a.lists[k][..0] + a.lists[k][1..] == a.lists[k][1..];
    } else {
      BridgeKeepsLists(a, hdr, heads, k, i);
    }
  }

  /** The test made before merging with a neighbour reads off its header whether it is free and short enough. */
  lemma NeighbourTestIsExact(a: Heap, hdr: seq<Header>, isHead: seq<bool>, heads: seq<int>, cur: nat, x: nat)
    requires WellFormed(a) && ListsOk(a.lists, hdr, heads) && SpansOk(a.spans, hdr, isHead, cur)
    requires cur in a.spans && x in a.spans && x != cur
    ensures (hdr[x].next >= 0 && 0 < hdr[x].flag <= SPAN_SLOTS - a.spans[cur].len) <==> CanAbsorb(a, cur, x)
  {
    assert SpanFits(a.pages, a.spans, x);
    if a.spans[x].kind.Free? {
      UnlinkKeepsLists(a, hdr, heads, x);
    }
  }

  /** The header written into the first page of a run that is handed out. */
  function TakenHeader(x: Header, k: nat, kind: Kind, binHead: int): Header {
    if kind.Bin? then Header(0 - kind.slot, 0, binHead) else x.(flag := k, next := -1)
  }

  /** The first run of list k is off the list and marked as a run of n pages of the given kind. */
  ghost function Detached(a: Heap, k: nat, n: nat, kind: Kind): Heap
    requires k < |a.lists| && a.lists[k] != []
  {
    a.(spans := a.spans[a.lists[k][0] := Span(n, kind)], lists := a.lists[k := a.lists[k][1..]])
  }

  /** A new free run of n pages. */
  ghost function Attached(a: Heap, h: nat, n: nat): Heap
    requires n < |a.lists|
  {
    a.(spans := a.spans[h := Span(n, Free)], lists := a.lists[n := [h] + a.lists[n]])
  }

  // ----------------------------------------------------------------- the arena

  class Arena {
    const hdr: array<Header>     // headers at the start of each page
    const isHead: array<bool>    // is_head_
    const spanList: array<int>   // span_list_
    var pages: nat               // kHeapAllocPage - kSelfReservedPage
    ghost var heap: Heap

    ghost predicate Shaped()
      reads this
    {
      hdr.Length == isHead.Length == PAGE_TOTAL + 1 && spanList.Length == SPAN_SLOTS + 1 && pages <= MAX_PAGES
    }

    /** Headers, bitmap and list heads agree with a; the runs of a need not tile the pages. */
    ghost predicate Mirrors(a: Heap)
      reads this, hdr, isHead, spanList
    {
      && Shaped() && a.pages == pages
      && Listed(a.spans, a.lists)
      && ListsOk(a.lists, hdr[..], spanList[..])
      && SpansOk(a.spans, hdr[..], isHead[..], 0)
    }

    /** The arena's data are a picture of the heap a. */
    ghost predicate Represents(a: Heap)
      reads this, hdr, isHead, spanList
    {
      Mirrors(a) && Tiled(a.pages, a.spans)
    }

    ghost predicate Valid()
      reads this, hdr, isHead, spanList
    {
      Represents(heap)
    }

    /** As Represents, except that the run cur is in flight: only the length in its header is right. */
    ghost predicate Working(a: Heap, cur: nat)
      reads this, hdr, isHead, spanList
    {
      && Shaped() && a.pages == pages
      && WellFormed(a) && cur in a.spans && a.spans[cur].kind.Live?
      && ListsOk(a.lists, hdr[..], spanList[..])
      && SpansOk(a.spans, hdr[..], isHead[..], cur)
      && hdr[cur].flag == a.spans[cur].len
    }

    // ------------------------------------------------------- list primitives

    method PushFront(k: nat, h: nat)
      requires k < spanList.Length && h < hdr.Length && spanList[k] < hdr.Length
      modifies hdr, spanList
      ensures hdr[..] == Pushed(old(hdr[..]), old(spanList[..]), k, h)
      ensures spanList[..] == old(spanList[..])[k := h]
    {
      if spanList[k] > 0 { hdr[spanList[k]] := hdr[spanList[k]].(pri := h); }
      hdr[h] := hdr[h].(pri := 0, next := spanList[k]);
      spanList[k] := h;
    }

    method DropFront(k: nat)
      requires k < spanList.Length && 0 <= spanList[k] < hdr.Length && hdr[spanList[k]].next < hdr.Length
      modifies hdr, spanList
      ensures hdr[..] == Popped(old(hdr[..]), old(spanList[k]))
      ensures spanList[..] == old(spanList[..])[k := old(hdr[spanList[k]].next)]
    {
      var n := hdr[spanList[k]].next;
      spanList[k] := n;
      if n > 0 { hdr[n] := hdr[n].(pri := 0); }
    }

    method Unlink(h: nat)
      requires h < hdr.Length && 0 <= hdr[h].pri < hdr.Length && 0 <= hdr[h].next < hdr.Length
      requires 0 <= hdr[h].flag < spanList.Length
      modifies hdr, spanList
      ensures hdr[..] == UnlinkedHeaders(old(hdr[..]), h)
      ensures spanList[..] ==
              if old(hdr[h].pri) == 0 then old(spanList[..])[old(hdr[h].flag) := old(hdr[h].next)]
              else old(spanList[..])
    {
      var x := hdr[h];
      if x.pri == 0 {
        spanList[x.flag] := x.next;
        if x.next > 0 { hdr[x.next] := hdr[x.next].(pri := 0); }
      } else {
        if x.pri > 0 { hdr[x.pri] := hdr[x.pri].(next := x.next); }
        if x.next > 0 { hdr[x.next] := hdr[x.next].(pri := x.pri); }
      }
    }

    /** Scan down for a span start; 0 when there is none. */
    method SpanHandleOf(h: nat) returns (r: nat)
      requires h < isHead.Length
      ensures r <= h && (r > 0 ==> isHead[r])
      ensures forall x :: r < x <= h ==> !isHead[x]
    {
      r := h;
      while r > 0 && !isHead[r]
        invariant r <= h
        invariant forall x :: r < x <= h ==> !isHead[x]
      {
        r := r - 1;
      }
    }

    /** The first run of list k is popped and its header marked as in use. */
    method Detach(k: nat, n: nat, kind: Kind, binHead: int) returns (h: nat)
      requires Mirrors(heap) && 1 <= k <= SPAN_SLOTS && heap.lists[k] != [] && !kind.Free?
      modifies this, hdr, isHead, spanList
      ensures heap == Detached(old(heap), k, n, kind) && h == old(heap.lists[k][0]) && Mirrors(heap)
      ensures pages == old(pages)
      ensures h < hdr.Length && (kind.Bin? ==> hdr[h] == Header(0 - kind.slot, 0, binHead))
    {
      ghost var a := heap;
      ghost var b := Detached(a, k, n, kind);
      PopKeepsLists(a, hdr[..], spanList[..], k);
      FrontIsFree(a, k);
      h := spanList[k];
      DropFront(k);
      ghost var mid := hdr[..];
      OverwriteKeepsLists(b, mid, spanList[..], h, TakenHeader(hdr[h], n, kind, binHead));
      hdr[h] := TakenHeader(hdr[h], n, kind, binHead);
      assert hdr[..] == mid[h := hdr[h]];
      heap := b;
    }

    /** Page h becomes the start of a free run of n pages. */
    method Attach(h: nat, n: nat)
      requires Mirrors(heap) && 0 < h < hdr.Length && h !in heap.spans && 1 <= n <= SPAN_SLOTS
      modifies this, hdr, isHead, spanList
      ensures heap == Attached(old(heap), h, n) && Mirrors(heap)
      ensures pages == old(pages)
    {
      ghost var a := heap;
      PushKeepsListed(a.spans, a.lists, n, h);
      isHead[h] := true;
      OverwriteKeepsLists(a, hdr[..], spanList[..], h, hdr[h].(flag := n));
      hdr[h] := hdr[h].(flag := n);
      assert hdr[..] == old(hdr[..])[h := hdr[h]];
      PushKeepsLists(a, hdr[..], spanList[..], n, h);
      PushFront(n, h);
      heap := Attached(a, h, n);
    }

    // ------------------------------------------------------------------ growth

    /** AllocMaxChunkFromHeap and AllocArbitaryChunkFromHeap; `ok` is false where the source throws bad_alloc. */
    method AllocChunkFromHeap(n: nat) returns (ok: bool)
      requires Valid() && 1 <= n <= SPAN_SLOTS
      modifies this, hdr, isHead, spanList
      ensures Valid()
      ensures ok == (old(pages) + n <= MAX_PAGES)
      ensures heap == if ok then Grow(old(heap), n) else old(heap)
      ensures !ok ==> hdr[..] == old(hdr[..]) && isHead[..] == old(isHead[..]) && spanList[..] == old(spanList[..])
    {
      if SELF_RESERVED + pages + n > PAGE_TOTAL { return false; }
      PagesBound(heap);
      GrowKeeps(heap, n);
      Attach(pages + 1, n);
      pages := pages + n;
      heap := heap.(pages := pages);
      return true;
    }

    // -------------------------------------------------------------- allocation

    /** The first run of list k is handed out whole. */
    method TakeFront(k: nat, kind: Kind, binHead: int) returns (h: nat)
      requires Valid() && 1 <= k <= SPAN_SLOTS && heap.lists[k] != [] && Fits(k, kind)
      modifies this, hdr, isHead, spanList
      ensures Valid() && heap == Take(old(heap), k, kind) && h == old(heap.lists[k][0])
    {
      TakeKeeps(heap, k, kind);
      h := Detach(k, k, kind, binHead);
    }

    method HasRun(k: nat) returns (b: bool)
      requires Valid() && k <= SPAN_SLOTS
      ensures b <==> heap.lists[k] != []
    {
      HeadsInBounds(heap, hdr[..], spanList[..]);
      b := spanList[k] > 0;
    }

    /** The shortest list above k that is not empty, or SPAN_SLOTS + 1. */
    method FindBigger(k: nat) returns (big: nat)
      requires Valid() && k <= SPAN_SLOTS
      ensures big == FirstBigger(heap.lists, k + 1)
    {
      HeadsInBounds(heap, hdr[..], spanList[..]);
      big := k + 1;
      while big <= SPAN_SLOTS && spanList[big] <= 0
        invariant k < big <= SPAN_SLOTS + 1
        invariant forall j :: k < j < big ==> heap.lists[j] == []
      {
        big := big + 1;
      }
      FirstBiggerIs(heap.lists, k + 1, big);
    }

    /** The first run of list `big` is cut after k pages. */
    method SplitFront(big: nat, k: nat, kind: Kind, binHead: int) returns (h: nat)
      requires Valid() && 1 <= k < big <= SPAN_SLOTS && heap.lists[big] != [] && Fits(k, kind)
      modifies this, hdr, isHead, spanList
      ensures Valid() && heap == SplitTake(old(heap), big, k, kind) && h == old(heap.lists[big][0])
    {
      CutIsInside(heap, big, k, kind);
      h := CutFront(big, k, kind, binHead);
    }

    /** The same, while the runs need not tile the pages. */
    method CutFront(big: nat, k: nat, kind: Kind, binHead: int) returns (h: nat)
      requires Mirrors(heap) && 1 <= k < big <= SPAN_SLOTS && heap.lists[big] != [] && !kind.Free?
      requires heap.lists[big][0] + k < hdr.Length && heap.lists[big][0] + k !in Detached(heap, big, k, kind).spans
      modifies this, hdr, isHead, spanList
      ensures Mirrors(heap) && h == old(heap.lists[big][0]) && pages == old(pages)
      ensures heap == Attached(Detached(old(heap), big, k, kind), h + k, big - k)
    {
      h := Detach(big, k, kind, binHead);
      Attach(h + k, big - k);
    }

    /** A run of the greatest length at the end of memory is "cut" after all its pages: the rest starts past the end. */
    method SplitOffNothing(kind: Kind, binHead: int) returns (h: nat)
      requires Valid() && pages >= SPAN_SLOTS && !kind.Free?
      requires heap.lists[SPAN_SLOTS] != [] && heap.lists[SPAN_SLOTS][0] + SPAN_SLOTS == pages + 1
      modifies this, hdr, isHead, spanList
      ensures forall a :: !Represents(a)
    {
      var k := SPAN_SLOTS;
      h := Detach(k, k, kind, binHead);
      isHead[h + k] := true;
      hdr[h + k] := Header(0, 0, spanList[0]);  // list 0 was empty, so there is no back link to set
      spanList[0] := h + k;
    }

    /**
      The span side of Malloc: a run of k pages, marked for its use. It is 0 where the source throws bad_alloc.
      For a small-object run `binHead` is the head of its bin list, which becomes the run's `next`.
      */
    method AcquireRun(k: nat, kind: Kind, binHead: int) returns (h: nat)
      requires Valid() && 1 <= k <= SPAN_SLOTS && Fits(k, kind)
      modifies this, hdr, isHead, spanList
      ensures match Allocate(old(heap), k, kind, MAX_PAGES)
              case OutOfMemory => Valid() && h == 0 && heap == old(heap)
              case Corrupted => forall a :: !Represents(a)
              case Granted(b, start) => Valid() && h == start && heap == b
    {
      var exact := HasRun(k);
      if exact {
        h := TakeFront(k, kind, binHead);
        return;
      }
      var big := FindBigger(k);
      if big > SPAN_SLOTS {
        var ok := AllocChunkFromHeap(SPAN_SLOTS);
        if !ok { return 0; }
        big := big - 1;
      }
      if big > k {
        h := SplitFront(big, k, kind, binHead);
      } else {
        h := SplitOffNothing(kind, binHead);
      }
    }

    /** Malloc for requests above kMaxObjectAvailable: the address just behind the header of a fresh run. */
    method MallocBig(size: nat) returns (r: Option<nat>)
      requires Valid() && size > MAX_OBJECT && SpanSlotOf(size) <= SPAN_SLOTS
      modifies this, hdr, isHead, spanList
      ensures old(|heap.lists| == SPAN_SLOTS + 1)
      ensures Valid() <==> !SplitsNothing(old(heap), SpanSlotOf(size), MAX_PAGES)
      ensures !Valid() ==> forall a :: !Represents(a)
      ensures Valid() ==> heap == AfterAllocation(old(heap), Allocate(old(heap), SpanSlotOf(size), Live, MAX_PAGES))
      ensures Valid() ==>
                match r
                case None => heap == old(heap) && Exhausted(heap, SpanSlotOf(size), MAX_PAGES)
                case Some(p) =>
                  var h := PageHandleOf(p);
                  && h > 0 && p == PtrOf(h) + 12 && p + size <= PtrOf(h + SpanSlotOf(size))
                  && TABLES_END <= p - 12 && p + size <= 180224 * 4096
                  && FreshRun(old(heap), heap, h, SpanSlotOf(size), Live)
    {
      var k := SpanSlotOf(size);
      ghost var a := heap;
      RunMeaning(a, k, Live);
      var h := AcquireRun(k, Live, 0);
      r := if h == 0 then None else Some(PtrOf(h) + HEADER_BYTES);
      if h != 0 && !SplitsNothing(a, k, MAX_PAGES) { ChunkIsPlaced(h, size); }
    }

    /** A small-object run: the pages Malloc takes when no page of the class has a free object. */
    method CarveBinRun(slot: nat, binHead: int) returns (h: nat)
      requires Valid() && 1 <= slot <= BIN_SLOTS
      modifies this, hdr, isHead, spanList
      ensures Valid()
      ensures if h == 0 then heap == old(heap) && Exhausted(heap, BinSpanSize(slot), MAX_PAGES)
              else FreshRun(old(heap), heap, h, BinSpanSize(slot), Bin(slot))
    {
      RunMeaning(heap, BinSpanSize(slot), Bin(slot));
      h := AcquireRun(BinSpanSize(slot), Bin(slot), binHead);
    }

    // ----------------------------------------------------------------- release

    /** Take the free run f, next to the run in flight, off its list; then the lower of the two covers both. */
    method Fold(p: nat, q: nat, f: nat, ghost cur: nat)
      requires Working(heap, cur) && !isHead[cur] && Neighbours(heap, p, q, f, cur)
      modifies this, hdr, isHead, spanList
      ensures old(Neighbours(heap, p, q, f, cur) && |heap.lists| == SPAN_SLOTS + 1)
      ensures heap == Fuse(old(heap), p, q) && Working(heap, p) && !isHead[p]
    {
      FoldLists(heap, hdr[..], isHead[..], spanList[..], p, q, f, cur);
      FoldSpans(heap, hdr[..], isHead[..], spanList[..], p, q, f, cur);
      FoldData(p, q, f);
      heap := Fuse(heap, p, q);
    }

    method FoldData(p: nat, q: nat, f: nat)
      requires p < hdr.Length && q < hdr.Length && f < hdr.Length && f < isHead.Length
      requires 0 <= hdr[f].pri < hdr.Length && 0 <= hdr[f].next < hdr.Length && 0 <= hdr[f].flag < spanList.Length
      modifies hdr, isHead, spanList
      ensures hdr[..] == Folded(old(hdr[..]), p, q, f) && isHead[..] == old(isHead[..])[f := false]
      ensures spanList[..] ==
              if old(hdr[f].pri) == 0 then old(spanList[..])[old(hdr[f].flag) := old(hdr[f].next)]
              else old(spanList[..])
    {
      Unlink(f);
      isHead[f] := false;
      hdr[p] := hdr[p].(flag := hdr[p].flag + hdr[q].flag);
    }

    /** The run in flight swallows the run above it, if that one is free and short enough. */
    method MergeForward(h: nat)
      requires Working(heap, h) && !isHead[h]
      modifies this, hdr, isHead, spanList
      ensures old(Tiled(heap.pages, heap.spans) && h in heap.spans && |heap.lists| == SPAN_SLOTS + 1)
      ensures heap == FuseForward(old(heap), h) && Working(heap, h) && !isHead[h]
    {
      assert SpanFits(heap.pages, heap.spans, h);
      PagesBound(heap);
      var next := h + hdr[h].flag;
      if next <= pages {
        var absorb := MayAbsorb(h, next);
        if absorb { Fold(h, next, next, h); }
      }
    }

    /** The test on a neighbour's header. */
    method MayAbsorb(h: nat, x: nat) returns (absorb: bool)
      requires Working(heap, h) && x in heap.spans && x != h
      ensures absorb <==> CanAbsorb(heap, h, x)
    {
      NeighbourTestIsExact(heap, hdr[..], isHead[..], spanList[..], h, x);
      absorb := hdr[x].next >= 0 && 0 < hdr[x].flag <= SPAN_SLOTS - hdr[h].flag;
    }

    /** The run below the run in flight. */
    method RunBelow(h: nat) returns (prev: nat)
      requires Working(heap, h)
      ensures 0 < h && prev == OwnerOf(heap, h - 1)
      ensures (prev > 0 ==> prev in heap.spans && prev < h == prev + heap.spans[prev].len)
    {
      assert SpanFits(heap.pages, heap.spans, h);
      PagesBound(heap);
      prev := SpanHandleOf(h - 1);
      OwnerIs(heap, h - 1, prev);
      if prev > 0 { OwnerIsNext(heap, h); }
    }

    /** The run in flight is swallowed by the run below it, under the same test and two more. */
    method MergeBackward(h: nat) returns (s: nat)
      requires Working(heap, h) && !isHead[h]
      modifies this, hdr, isHead, spanList
      ensures old(Tiled(heap.pages, heap.spans) && h in heap.spans && |heap.lists| == SPAN_SLOTS + 1)
      ensures (heap, s) == FuseBackward(old(heap), h) && Working(heap, s)
    {
      var prev := RunBelow(h);
      var merge := MayMerge(h);
      s := h;
      if prev > 0 && merge {
        var absorb := MayAbsorb(h, prev);
        if absorb {
          Fold(prev, h, prev, h);
          s := prev;
        }
      }
    }

    /** The run in flight goes to the front of its free list. */
    method Settle(h: nat)
      requires Working(heap, h) && isHead[h]
      modifies this, hdr, spanList
      ensures old(h in heap.spans && |heap.lists| == SPAN_SLOTS + 1 && heap.spans[h].len <= SPAN_SLOTS)
      ensures heap == PutBack(old(heap), h) && Valid()
    {
      ghost var a := heap;
      PutBackKeeps(a, h);
      PushKeepsLists(a, hdr[..], spanList[..], a.spans[h].len, h);
      PushFront(hdr[h].flag, h);
      heap := PutBack(a, h);
    }

    /** Free from line 372 on: a chunk, or a small-object run whose last object is gone, returns to the heap. */
    method ReleaseRun(start: nat)
      requires Valid() && start in heap.spans && !heap.spans[start].kind.Free?
      modifies this, hdr, isHead, spanList
      ensures old(WellFormed(heap))
      ensures Valid() && heap == Release(old(heap), start)
      ensures Taken(heap) == Taken(old(heap)) - {start} && pages == old(pages)
    {
      ReleaseReturnsRun(heap, start);
      Prepare(start);
      var merge := MayMerge(start);
      var h := start;
      if merge { h := MergeAround(h); }
      Settle(h);
    }

    /** The test of the lazy strategy. */
    method MayMerge(h: nat) returns (merge: bool)
      requires Working(heap, h)
      ensures merge <==> Merges(heap, heap.spans[h].len)
    {
      HeadsInBounds(heap, hdr[..], spanList[..]);
      assert SpanFits(heap.pages, heap.spans, h);
      merge := spanList[hdr[h].flag] > 0 && hdr[h].flag < LAZY_LIMIT;
    }

    method MergeAround(h: nat) returns (s: nat)
      requires Working(heap, h)
      modifies this, hdr, isHead, spanList
      ensures old(Working(heap, h))
      ensures (heap, s) == Coalesce(old(heap), h) && Working(heap, s) && isHead[s]
    {
      isHead[h] := false;
      MergeForward(h);
      s := MergeBackward(h);
      isHead[s] := true;
    }

    /** The run leaves use; a small-object run gets its length back into the header. */
    method Prepare(h: nat)
      requires Valid() && h in heap.spans && !heap.spans[h].kind.Free?
      modifies this, hdr
      ensures old(h in heap.spans)
      ensures heap == old(heap).(spans := old(heap.spans)[h := Span(old(heap.spans[h].len), Live)])
      ensures Working(heap, h) && isHead[h]
    {
      ghost var a := heap;
      assert SpanFits(a.pages, a.spans, h);
      KeepsLive(a, h);
      heap := a.(spans := a.spans[h := Span(a.spans[h].len, Live)]);
      if hdr[h].flag <= 0 {
        OverwriteKeepsLists(heap, hdr[..], spanList[..], h, hdr[h].(flag := BinSpanSize(0 - hdr[h].flag)));
        hdr[h] := hdr[h].(flag := BinSpanSize(0 - hdr[h].flag));
        assert hdr[..] == old(hdr[..])[h := hdr[h]];
      }
    }

    /** Free of a chunk, by any address inside it. */
    method FreeChunk(ptr: nat, ghost start: nat)
      requires Valid() && start in heap.spans && heap.spans[start].kind.Live?
      requires PtrOf(start) <= ptr < PtrOf(start + heap.spans[start].len)
      modifies this, hdr, isHead, spanList
      ensures Valid() && Taken(heap) == Taken(old(heap)) - {start} && pages == old(pages)
    {
      HandleOfAddressInside(start, heap.spans[start].len, ptr);
      assert SpanFits(heap.pages, heap.spans, start);
      var h := SpanHandleOf(PageHandleOf(ptr));
      OwnerIs(heap, PageHandleOf(ptr), h);
      OwnerIs(heap, PageHandleOf(ptr), start);
      ReleaseRun(h);
    }

    // ------------------------------------------------------------------- start

    /** Init: 128 spans of two pages, then 1024 spans of the greatest length. */
    constructor ()
      ensures Valid() && pages == 128 * 2 + 1024 * SPAN_SLOTS && Taken(heap) == map[]
      ensures |heap.lists| == SPAN_SLOTS + 1 && |heap.lists[2]| == 128 && |heap.lists[SPAN_SLOTS]| == 1024
      ensures fresh(hdr) && fresh(isHead) && fresh(spanList)
    {
      hdr := new Header[PAGE_TOTAL + 1](_ => Header(0, 0, 0));
      isHead := new bool[PAGE_TOTAL + 1](_ => false);
      spanList := new int[SPAN_SLOTS + 1](_ => 0);
      pages := 0;
      heap := Heap(0, map[], seq(SPAN_SLOTS + 1, _ => []));
      new;
      NothingIsOk(hdr[..], isHead[..], spanList[..], heap);
      Stock(2, 128);
      Stock(SPAN_SLOTS, 1024);
    }

    /** Takes `count` chunks of n pages from the operating system. */
    method Stock(n: nat, count: nat)
      requires Valid() && 1 <= n <= SPAN_SLOTS && pages + n * count <= MAX_PAGES
      modifies this, hdr, isHead, spanList
      ensures Valid() && Stocked(old(heap), heap, n, count)
    {
      ghost var a := heap;
      for i := 0 to count
        invariant Valid() && Stocked(a, heap, n, i)
      {
        StockOne(a, heap, n, i);
        MulMonotone(i + 1, count, n);
        var ok := AllocChunkFromHeap(n);
      }
    }
  }

  /** From a to b, i free runs of n pages have been added. */
  ghost predicate Stocked(a: Heap, b: Heap, n: nat, i: nat) {
    && |a.lists| == |b.lists| == SPAN_SLOTS + 1 && n <= SPAN_SLOTS
    && |b.lists[n]| == |a.lists[n]| + i
    && (forall k :: 0 <= k <= SPAN_SLOTS && k != n ==> b.lists[k] == a.lists[k])
    && b.pages == a.pages + n * i && Taken(b) == Taken(a)
  }

  lemma StockOne(a: Heap, b: Heap, n: nat, i: nat)
    requires Stocked(a, b, n, i) && Tiled(b.pages, b.spans)
    ensures Stocked(a, Grow(b, n), n, i + 1)
    ensures n * i + n == n * (i + 1)
  {
    GrowTaken(b, n);
  }

  lemma NothingIsOk(hdr: seq<Header>, isHead: seq<bool>, heads: seq<int>, a: Heap)
    requires IsEmpty(a) && |heads| == SPAN_SLOTS + 1
    requires (forall k :: 0 <= k < |heads| ==> heads[k] == 0) && forall h :: 0 <= h < |isHead| ==> !isHead[h]
    ensures WellFormed(a) && Taken(a) == map[] && ListsOk(a.lists, hdr, heads) && SpansOk(a.spans, hdr, isHead, 0)
  {}

  /**
    The failure occurs: a new arena serves 60-page requests from its initial runs, and the first one after those
    breaks it.
    */
  method SixtyPageRequestBreaksArena() returns (arena: Arena, served: nat)
    ensures served == 1024 && fresh(arena) && forall a :: !arena.Represents(a)
  {
    arena := new Arena();
    served := 0;
    while served < 1024
      invariant fresh(arena) && fresh(arena.hdr) && fresh(arena.isHead) && fresh(arena.spanList)
      invariant arena.Valid() && arena.pages == 128 * 2 + 1024 * SPAN_SLOTS
      invariant served <= 1024 && |arena.heap.lists[SPAN_SLOTS]| == 1024 - served
    {
      var r := arena.MallocBig(SPAN_SLOTS * PAGE_BYTES - HEADER_BYTES);
      served := served + 1;
    }
    var r := arena.MallocBig(SPAN_SLOTS * PAGE_BYTES - HEADER_BYTES);
  }

  ghost predicate Neighbours(a: Heap, p: nat, q: nat, f: nat, cur: nat) {
    && p in a.spans && q in a.spans && q == p + a.spans[p].len && p < q
    && a.spans[p].len + a.spans[q].len <= SPAN_SLOTS
    && ((f == p && cur == q) || (f == q && cur == p))
    && a.spans[f].kind.Free? && a.spans[cur].kind.Live?
  }

  /** Headers after the free run f has left its list and the run at p has grown over q. */
  function Folded(hdr: seq<Header>, p: nat, q: nat, f: nat): seq<Header>
    requires f < |hdr| && hdr[f].next < |hdr| && hdr[f].pri < |hdr| && p < |hdr| && q < |hdr|
  {
    var mid := UnlinkedHeaders(hdr, f);
    mid[p := mid[p].(flag := mid[p].flag + mid[q].flag)]
  }

  lemma FoldLists(a: Heap, hdr: seq<Header>, isHead: seq<bool>, heads: seq<int>, p: nat, q: nat, f: nat, cur: nat)
    requires WellFormed(a) && Neighbours(a, p, q, f, cur)
    requires ListsOk(a.lists, hdr, heads) && SpansOk(a.spans, hdr, isHead, cur)
    ensures 0 <= hdr[f].pri < |hdr| && 0 <= hdr[f].next < |hdr| && hdr[f].flag == a.spans[f].len
    ensures 0 < a.spans[f].len <= SPAN_SLOTS
    ensures LinksOnly(a.spans, hdr, UnlinkedHeaders(hdr, f))
    ensures ListsOk(Fuse(a, p, q).lists, Folded(hdr, p, q, f),
                    if hdr[f].pri == 0 then heads[a.spans[f].len := hdr[f].next] else heads)
  {
    NeighbourUnlinks(a, hdr, isHead, heads, p, q, f, cur);
    FuseKeeps(a, p, q);
    var mid := UnlinkedHeaders(hdr, f);
    var heads' := if hdr[f].pri == 0 then heads[a.spans[f].len := hdr[f].next] else heads;
    assert InBounds(Fuse(a, p, q).spans, |mid|);
    OverwriteKeepsLists(Fuse(a, p, q), mid, heads', p, mid[p].(flag := mid[p].flag + mid[q].flag));
  }

  lemma NeighbourUnlinks(a: Heap, hdr: seq<Header>, isHead: seq<bool>, heads: seq<int>, p: nat, q: nat, f: nat,
      cur: nat)
    requires WellFormed(a) && Neighbours(a, p, q, f, cur)
    requires ListsOk(a.lists, hdr, heads) && SpansOk(a.spans, hdr, isHead, cur)
    ensures 0 <= hdr[f].pri < |hdr| && 0 <= hdr[f].next < |hdr| && hdr[f].flag == a.spans[f].len
    ensures 0 < a.spans[f].len <= SPAN_SLOTS
    ensures LinksOnly(a.spans, hdr, UnlinkedHeaders(hdr, f))
    ensures ListsOk(Fuse(a, p, q).lists, UnlinkedHeaders(hdr, f),
                    if hdr[f].pri == 0 then heads[a.spans[f].len := hdr[f].next] else heads)
  {
    assert SpanFits(a.pages, a.spans, f) && HeaderOk(a.spans[f], hdr[f]);
    UnlinkKeepsLists(a, hdr, heads, f);
  }

  lemma FoldSpans(a: Heap, hdr: seq<Header>, isHead: seq<bool>, heads: seq<int>, p: nat, q: nat, f: nat, cur: nat)
    requires WellFormed(a) && Neighbours(a, p, q, f, cur) && |hdr| == |isHead|
    requires SpansOk(a.spans, hdr, isHead, cur) && hdr[cur].flag == a.spans[cur].len && !isHead[cur]
    requires hdr[f].pri < |hdr| && hdr[f].next < |hdr| && LinksOnly(a.spans, hdr, UnlinkedHeaders(hdr, f))
    ensures WellFormed(Fuse(a, p, q))
    ensures SpansOk(Fuse(a, p, q).spans, Folded(hdr, p, q, f), isHead[f := false], p)
    ensures Folded(hdr, p, q, f)[p].flag == a.spans[p].len + a.spans[q].len
  {
    FuseKeeps(a, p, q);
    assert HeaderOk(a.spans[f], hdr[f]);
  }

  lemma OwnerIsNext(a: Heap, h: nat)
    requires Tiled(a.pages, a.spans) && h in a.spans && h > 0 && OwnerOf(a, h - 1) > 0
    ensures var p := OwnerOf(a, h - 1); p in a.spans && p < h == p + a.spans[p].len
  {
    assert SpanFits(a.pages, a.spans, h);
    OwnerContains(a, h - 1);
    assert SpanFits(a.pages, a.spans, OwnerOf(a, h - 1));
  }

  lemma OwnerIs(a: Heap, p: nat, r: nat)
    requires r <= p && (r > 0 ==> r in a.spans) && forall x :: r < x <= p ==> x !in a.spans
    requires 0 !in a.spans
    ensures OwnerOf(a, p) == r
  {}

  lemma RunMeaning(a: Heap, k: nat, kind: Kind)
    requires WellFormed(a) && 1 <= k <= SPAN_SLOTS && Fits(k, kind)
    ensures match Allocate(a, k, kind, MAX_PAGES)
            case OutOfMemory => Exhausted(a, k, MAX_PAGES) && !SplitsNothing(a, k, MAX_PAGES)
            case Corrupted => SplitsNothing(a, k, MAX_PAGES)
            case Granted(b, h) => FreshRun(a, b, h, k, kind) && !SplitsNothing(a, k, MAX_PAGES)
  {
    AllocateFailsWhenExhausted(a, k, kind, MAX_PAGES);
    if Allocate(a, k, kind, MAX_PAGES).Granted? { AllocateGrantsFreshRun(a, k, kind, MAX_PAGES); }
  }

  lemma CutIsInside(a: Heap, big: nat, k: nat, kind: Kind)
    requires WellFormed(a) && 1 <= k < big <= SPAN_SLOTS && a.lists[big] != [] && Fits(k, kind)
    ensures var h := a.lists[big][0];
            var b := Detached(a, big, k, kind);
            && h > 0 && h + big <= a.pages + 1 && h + k !in b.spans
            && SplitTake(a, big, k, kind) == Attached(b, h + k, big - k)
            && WellFormed(SplitTake(a, big, k, kind))
  {
    FrontIsFree(a, big);
    assert SpanFits(a.pages, a.spans, a.lists[big][0]);
    SplitTakeKeeps(a, big, k, kind);
  }

  lemma FirstBiggerIs(lists: seq<seq<nat>>, from: nat, k: nat)
    requires |lists| == SPAN_SLOTS + 1 && from <= k <= SPAN_SLOTS + 1
    requires k <= SPAN_SLOTS ==> lists[k] != []
    requires forall j :: from <= j < k ==> lists[j] == []
    ensures FirstBigger(lists, from) == k
  {}
}
