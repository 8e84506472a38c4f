/**
  Doubly linked lists of page runs, threaded through the headers of their first pages, with an array of
  list heads: the free lists of the span heap, and the lists of small-object runs. Handle 0 ends a list.
  */
module Links {
  datatype Header = Header(flag: int, pri: int, next: int)

  function First(l: seq<nat>): nat { if l == [] then 0 else l[0] }

  ghost predicate LinkAt(hdr: seq<Header>, l: seq<nat>, i: nat)
    requires i < |l|
  {
    && l[i] < |hdr|
    && hdr[l[i]].pri == (if i == 0 then 0 else l[i - 1])
    && hdr[l[i]].next == (if i + 1 < |l| then l[i + 1] else 0)
  }

  /** The headers of the pages in l link them in both directions, in order. */
  ghost predicate Chained(hdr: seq<Header>, l: seq<nat>) {
    forall i {:trigger LinkAt(hdr, l, i)} :: 0 <= i < |l| ==> LinkAt(hdr, l, i)
  }

  ghost predicate ListsOk(lists: seq<seq<nat>>, hdr: seq<Header>, heads: seq<int>) {
    && |lists| == |heads|
    && (forall k :: 0 <= k < |lists| ==> heads[k] == First(lists[k]))
    && (forall k {:trigger Chained(hdr, lists[k])} :: 0 <= k < |lists| ==> Chained(hdr, lists[k]))
  }

  function Pushed(hdr: seq<Header>, heads: seq<int>, k: nat, h: nat): seq<Header>
    requires k < |heads| && h < |hdr| && heads[k] < |hdr|
  {
    var back := if heads[k] > 0 then hdr[heads[k] := hdr[heads[k]].(pri := h)] else hdr;
    back[h := back[h].(pri := 0, next := heads[k])]
  }

  function Popped(hdr: seq<Header>, h: nat): seq<Header>
    requires h < |hdr| && hdr[h].next < |hdr|
  {
    var n := hdr[h].next;
    if n > 0 then hdr[n := hdr[n].(pri := 0)] else hdr
  }

  function Bridged(hdr: seq<Header>, h: nat): seq<Header>
    requires h < |hdr| && hdr[h].next < |hdr| && hdr[h].pri < |hdr|
  {
    var (p, n) := (hdr[h].pri, hdr[h].next);
    var left := if p > 0 then hdr[p := hdr[p].(next := n)] else hdr;
    if n > 0 then left[n := left[n].(pri := p)] else left
  }

  function UnlinkedHeaders(hdr: seq<Header>, h: nat): seq<Header>
    requires h < |hdr| && hdr[h].next < |hdr| && hdr[h].pri < |hdr|
  {
    if hdr[h].pri == 0 then Popped(hdr, h) else Bridged(hdr, h)
  }

  lemma ChainUntouched(hdr: seq<Header>, hdr': seq<Header>, l: seq<nat>)
    requires Chained(hdr, l) && |hdr| == |hdr'|
    requires forall i :: 0 <= i < |l| && l[i] < |hdr| ==> hdr'[l[i]] == hdr[l[i]]
    ensures Chained(hdr', l)
  {
    forall i | 0 <= i < |l| ensures LinkAt(hdr', l, i) { assert LinkAt(hdr, l, i); }
  }

  /** Position (k, m) is the only place where the page x is listed. */
  ghost predicate OnlyAt(lists: seq<seq<nat>>, x: nat, k: nat, m: nat) {
    forall j, i :: 0 <= j < |lists| && 0 <= i < |lists[j]| && !(j == k && i == m) ==> lists[j][i] != x
  }

  lemma ChainPushed(hdr: seq<Header>, heads: seq<int>, l: seq<nat>, k: nat, h: nat)
    requires Chained(hdr, l) && k < |heads| && heads[k] == First(l) && h < |hdr| && (l != [] ==> l[0] > 0)
    requires forall i :: 0 <= i < |l| ==> l[i] != h && (i > 0 ==> l[i] != l[0])
    ensures heads[k] < |hdr| && Chained(Pushed(hdr, heads, k, h), [h] + l)
  {
    var l' := [h] + l;
    if l != [] { assert LinkAt(hdr, l, 0); }
    var hdr' := Pushed(hdr, heads, k, h);
    forall i | 0 <= i < |l'| ensures LinkAt(hdr', l', i) {
      if i > 0 { assert LinkAt(hdr, l, i - 1); }
    }
  }

  lemma PushLists(lists: seq<seq<nat>>, hdr: seq<Header>, heads: seq<int>, k: nat, h: nat)
    requires ListsOk(lists, hdr, heads) && k < |lists| && 0 < h < |hdr|
    requires OnlyAt(lists, h, |lists|, 0)
    requires lists[k] != [] ==> 0 < lists[k][0] && OnlyAt(lists, lists[k][0], k, 0)
    ensures heads[k] < |hdr|
    ensures ListsOk(lists[k := [h] + lists[k]], Pushed(hdr, heads, k, h), heads[k := h])
  {
    ChainPushed(hdr, heads, lists[k], k, h);
    var hdr' := Pushed(hdr, heads, k, h);
    var ls := lists[k := [h] + lists[k]];
    forall j | 0 <= j < |lists| ensures Chained(hdr', ls[j]) {
      if j != k { ChainUntouched(hdr, hdr', lists[j]); }
    }
  }

  lemma PopLists(lists: seq<seq<nat>>, hdr: seq<Header>, heads: seq<int>, k: nat)
    requires ListsOk(lists, hdr, heads) && k < |lists| && lists[k] != []
    requires |lists[k]| > 1 ==> 0 < lists[k][1] && OnlyAt(lists, lists[k][1], k, 1)
    ensures 0 <= heads[k] < |hdr| && hdr[heads[k]].next == First(lists[k][1..]) < |hdr|
    ensures ListsOk(lists[k := lists[k][1..]], Popped(hdr, heads[k]), heads[k := hdr[heads[k]].next])
  {
    var l := lists[k];
    assert Chained(hdr, l) && LinkAt(hdr, l, 0);
    if |l| > 1 { assert LinkAt(hdr, l, 1); }
    var hdr' := Popped(hdr, heads[k]);
    var ls := lists[k := l[1..]];
    forall i | 0 <= i < |l[1..]| ensures LinkAt(hdr', l[1..], i) { assert LinkAt(hdr, l, i + 1); }
    forall j | 0 <= j < |lists| ensures Chained(hdr', ls[j]) {
      if j != k { ChainUntouched(hdr, hdr', lists[j]); }
    }
  }

  /** The page at position i > 0 of list k is bridged over. */
  lemma BridgeLists(lists: seq<seq<nat>>, hdr: seq<Header>, heads: seq<int>, k: nat, i: nat)
    requires ListsOk(lists, hdr, heads) && k < |lists| && 0 < i < |lists[k]|
    requires 0 < lists[k][i - 1] && OnlyAt(lists, lists[k][i - 1], k, i - 1)
    requires i + 1 < |lists[k]| ==> 0 < lists[k][i + 1] && OnlyAt(lists, lists[k][i + 1], k, i + 1)
    ensures var h := lists[k][i];
            && h < |hdr| && hdr[h].next < |hdr| && 0 < hdr[h].pri == lists[k][i - 1] < |hdr|
            && hdr[h].next == (if i + 1 < |lists[k]| then lists[k][i + 1] else 0)
            && ListsOk(lists[k := lists[k][..i] + lists[k][i + 1..]], Bridged(hdr, h), heads)
  {
    var l := lists[k];
    assert Chained(hdr, l) && LinkAt(hdr, l, i) && LinkAt(hdr, l, i - 1);
    if i + 1 < |l| { assert LinkAt(hdr, l, i + 1); }
    var hdr' := Bridged(hdr, l[i]);
    var l' := l[..i] + l[i + 1..];
    forall m | 0 <= m < |l'| ensures LinkAt(hdr', l', m) { assert LinkAt(hdr, l, if m < i then m else m + 1); }
    var ls := lists[k := l'];
    forall j | 0 <= j < |lists| ensures Chained(hdr', ls[j]) {
      if j != k { ChainUntouched(hdr, hdr', lists[j]); }
    }
  }
}
