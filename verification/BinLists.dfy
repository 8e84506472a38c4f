/**
  The lists of small-object runs, one per size class: how a new run is put in front, how an emptied one is taken
  off, and how `Free` moves a run to the front, which keeps the list only when it holds nothing but the head and
  that run.
  */
module BinLists {
  import opened Links
  import opened Sequences

  ghost predicate OfClass(slots: map<nat, nat>, c: nat, h: nat) { h in slots && slots[h] == c }

  ghost predicate IsListed(bins: seq<seq<nat>>, slots: map<nat, nat>, h: nat)
    requires h in slots
  {
    h > 0 && slots[h] < |bins| && h in bins[slots[h]]
  }

  /** List c holds exactly the runs of class c, each once. */
  ghost predicate Sorted(bins: seq<seq<nat>>, slots: map<nat, nat>) {
    && (forall c {:trigger Distinct(bins[c])} :: 0 <= c < |bins| ==> Distinct(bins[c]))
    && (forall c, h {:trigger OfClass(slots, c, h)} :: 0 <= c < |bins| && h in bins[c] ==> OfClass(slots, c, h))
    && (forall h {:trigger IsListed(bins, slots, h)} :: h in slots ==> IsListed(bins, slots, h))
  }

  /** And headers and list heads link it. */
  ghost predicate Exact(bins: seq<seq<nat>>, slots: map<nat, nat>, hdr: seq<Header>, bin: seq<int>) {
    Sorted(bins, slots) && ListsOk(bins, hdr, bin)
  }

  // ------------------------------------------------------------------ operations

  /** Free moves run h to the front: the new links, in the order of the assignments. */
  function Relinked(hdr: seq<Header>, bin: seq<int>, c: nat, h: nat): seq<Header>
    requires c < |bin| && 0 <= bin[c] < |hdr| && h < |hdr| && 0 <= hdr[h].next < |hdr|
  {
    var a := hdr[bin[c] := hdr[bin[c]].(pri := h, next := hdr[h].next)];
    var b := if 0 <= a[h].next < |a| then a[a[h].next := a[a[h].next].(pri := a[h].next)] else a;
    b[h := b[h].(pri := 0, next := bin[c])]
  }

  /** The headers' links and the list heads, updated in place. */
  class BinTable {
    const hdr: array<Header>
    const bin: array<int>

    constructor (pages: nat, classes: nat)
      ensures hdr.Length == pages && bin.Length == classes && fresh(hdr) && fresh(bin)
      ensures forall c :: 0 <= c < classes ==> bin[c] == 0
    {
      hdr := new Header[pages](_ => Header(0, 0, 0));
      bin := new int[classes](_ => 0);
    }

    /** Malloc puts a new run in front. */
    method Push(c: nat, h: nat)
      requires c < bin.Length && 0 < h < hdr.Length && 0 <= bin[c] < hdr.Length && bin[c] != h
      modifies hdr, bin
      ensures hdr[..] == Pushed(old(hdr[..]), old(bin[..]), c, h)
      ensures bin[..] == old(bin[..])[c := h]
    {
      hdr[h] := hdr[h].(pri := 0, next := bin[c]);
      bin[c] := h;
      if hdr[h].next > 0 { hdr[hdr[h].next] := hdr[hdr[h].next].(pri := h); }
    }

    /** Free takes an emptied run off. */
    method Unlink(c: nat, h: nat)
      requires c < bin.Length && 0 < h < hdr.Length && 0 <= hdr[h].pri < hdr.Length && 0 <= hdr[h].next < hdr.Length
      modifies hdr, bin
      ensures hdr[..] == UnlinkedHeaders(old(hdr[..]), h)
      ensures bin[..] == if old(hdr[h].pri) == 0 then old(bin[..])[c := old(hdr[h].next)] else old(bin[..])
    {
      var p, n := hdr[h].pri, hdr[h].next;
      if p == 0 {
        bin[c] := n;
        if n > 0 { hdr[n] := hdr[n].(pri := 0); }
      } else {
        hdr[p] := hdr[p].(next := n);
        if n > 0 { hdr[n] := hdr[n].(pri := p); }
      }
    }

    /** Free moves a run to the front. */
    method Relink(c: nat, h: nat)
      requires c < bin.Length && 0 < h < hdr.Length && 0 <= bin[c] < hdr.Length && bin[c] != h
      requires 0 <= hdr[h].next < hdr.Length
      modifies hdr, bin
      ensures hdr[..] == Relinked(old(hdr[..]), old(bin[..]), c, h)
      ensures bin[..] == old(bin[..])[c := h]
    {
      hdr[bin[c]] := hdr[bin[c]].(pri := h);
      hdr[bin[c]] := hdr[bin[c]].(next := hdr[h].next);
      hdr[hdr[h].next] := hdr[hdr[h].next].(pri := hdr[h].next);
      hdr[h] := hdr[h].(next := bin[c]);
      hdr[h] := hdr[h].(pri := 0);
      bin[c] := h;
    }
  }

  // -------------------------------------------------------- what they keep

  lemma OnlyThere(bins: seq<seq<nat>>, slots: map<nat, nat>, c: nat, i: nat)
    requires Sorted(bins, slots) && c < |bins| && i < |bins[c]|
    ensures OnlyAt(bins, bins[c][i], c, i) && bins[c][i] > 0
    ensures OfClass(slots, c, bins[c][i])
  {
    var h := bins[c][i];
    assert OfClass(slots, c, h) && IsListed(bins, slots, h);
    forall d, j | 0 <= d < |bins| && 0 <= j < |bins[d]| && !(d == c && j == i) ensures bins[d][j] != h {
      assert bins[d][j] in bins[d] && OfClass(slots, d, bins[d][j]);
      assert Distinct(bins[c]);
    }
  }

  lemma NotListed(bins: seq<seq<nat>>, slots: map<nat, nat>, h: nat)
    requires Sorted(bins, slots) && h !in slots
    ensures OnlyAt(bins, h, |bins|, 0)
  {
    forall d, j | 0 <= d < |bins| && 0 <= j < |bins[d]| ensures bins[d][j] != h {
      assert bins[d][j] in bins[d] && OfClass(slots, d, bins[d][j]);
    }
  }

  lemma PushKeeps(bins: seq<seq<nat>>, slots: map<nat, nat>, hdr: seq<Header>, bin: seq<int>, c: nat, h: nat)
    requires Exact(bins, slots, hdr, bin) && c < |bins| && h !in slots && 0 < h < |hdr|
    ensures bin[c] < |hdr| && Exact(bins[c := [h] + bins[c]], slots[h := c], Pushed(hdr, bin, c, h), bin[c := h])
  {
    NotListed(bins, slots, h);
    if bins[c] != [] { OnlyThere(bins, slots, c, 0); }
    PushLists(bins, hdr, bin, c, h);
    PushSorted(bins, slots, c, h);
  }

  lemma PushSorted(bins: seq<seq<nat>>, slots: map<nat, nat>, c: nat, h: nat)
    requires Sorted(bins, slots) && c < |bins| && h !in slots && h > 0
    ensures Sorted(bins[c := [h] + bins[c]], slots[h := c])
  {
    var bs, ss := bins[c := [h] + bins[c]], slots[h := c];
    NotListed(bins, slots, h);
    forall d | 0 <= d < |bs| ensures Distinct(bs[d]) { assert Distinct(bins[d]); }
    forall d, x | 0 <= d < |bs| && x in bs[d] ensures OfClass(ss, d, x) {
      if x in bins[d] { assert OfClass(slots, d, x); }
    }
    forall x | x in ss ensures IsListed(bs, ss, x) {
      if x == h { assert bs[c][0] == h; } else { assert IsListed(bins, slots, x); }
    }
  }

  /** An emptied run is never the head, so the other case of the unlink is not met. */
  lemma UnlinkKeeps(bins: seq<seq<nat>>, slots: map<nat, nat>, hdr: seq<Header>, bin: seq<int>, h: nat)
    returns (bs: seq<seq<nat>>)
    requires Exact(bins, slots, hdr, bin) && h in slots && slots[h] < |bin| && bin[slots[h]] != h
    ensures h < |hdr| && 0 < hdr[h].pri < |hdr| && 0 <= hdr[h].next < |hdr|
    ensures |bs| == |bins| && Exact(bs, slots - {h}, UnlinkedHeaders(hdr, h), bin)
  {
    var c := slots[h];
    assert IsListed(bins, slots, h);
    var i :| 0 <= i < |bins[c]| && bins[c][i] == h;
    assert bin[c] == First(bins[c]);
    OnlyThere(bins, slots, c, i);
    OnlyThere(bins, slots, c, i - 1);
    if i + 1 < |bins[c]| { OnlyThere(bins, slots, c, i + 1); }
    BridgeLists(bins, hdr, bin, c, i);
    bs := bins[c := bins[c][..i] + bins[c][i + 1..]];
    UnlinkSorted(bins, slots, c, i);
  }

  lemma UnlinkSorted(bins: seq<seq<nat>>, slots: map<nat, nat>, c: nat, i: nat)
    requires Sorted(bins, slots) && c < |bins| && i < |bins[c]|
    ensures Sorted(bins[c := bins[c][..i] + bins[c][i + 1..]], slots - {bins[c][i]})
  {
    var l, h := bins[c], bins[c][i];
    var bs, ss := bins[c := l[..i] + l[i + 1..]], slots - {h};
    OnlyThere(bins, slots, c, i);
    forall d | 0 <= d < |bs| ensures Distinct(bs[d]) { assert Distinct(bins[d]); }
    forall d, x | 0 <= d < |bs| && x in bs[d] ensures OfClass(ss, d, x) {
      assert x in bins[d] && OfClass(slots, d, x);
      var j :| 0 <= j < |bs[d]| && bs[d][j] == x;
      assert x == bins[d][if d == c && j >= i then j + 1 else j];
    }
    forall x | x in ss ensures IsListed(bs, ss, x) {
      assert IsListed(bins, slots, x);
      var j :| 0 <= j < |bins[ss[x]]| && bins[ss[x]][j] == x;
      if ss[x] == c { assert bs[c][if j < i then j else j - 1] == x; }
    }
  }

  /** Behind the head, at most one more run can be looked at; it is of the class as well. */
  lemma HeadAndNext(bins: seq<seq<nat>>, slots: map<nat, nat>, hdr: seq<Header>, bin: seq<int>, c: nat)
    requires Exact(bins, slots, hdr, bin) && c < |bins|
    ensures bin[c] == 0 <==> bins[c] == []
    ensures bin[c] != 0 ==>
              && 0 < bin[c] < |hdr| && OfClass(slots, c, bin[c])
              && (hdr[bin[c]].next != 0 ==> 0 < hdr[bin[c]].next < |hdr| && OfClass(slots, c, hdr[bin[c]].next))
  {
    if bins[c] != [] {
      OnlyThere(bins, slots, c, 0);
      assert Chained(hdr, bins[c]) && LinkAt(hdr, bins[c], 0);
      if |bins[c]| > 1 {
        OnlyThere(bins, slots, c, 1);
        assert LinkAt(hdr, bins[c], 1);
      }
    }
  }

  /** The head and what its link leads to are the first two runs of the list. */
  lemma FirstTwo(bins: seq<seq<nat>>, slots: map<nat, nat>, hdr: seq<Header>, bin: seq<int>, c: nat)
    requires Exact(bins, slots, hdr, bin) && c < |bins|
    ensures var l := bins[c];
            && bin[c] == First(l)
            && (l != [] ==>
                  && 0 < l[0] < |hdr| && OfClass(slots, c, l[0])
                  && hdr[l[0]].next == (if |l| > 1 then l[1] else 0)
                  && (|l| > 1 ==> l[1] > 0 && OfClass(slots, c, l[1])))
  {
    if bins[c] != [] {
      OnlyThere(bins, slots, c, 0);
      assert Chained(hdr, bins[c]) && LinkAt(hdr, bins[c], 0);
      if |bins[c]| > 1 { OnlyThere(bins, slots, c, 1); }
    }
  }

  lemma NeighboursOf(bins: seq<seq<nat>>, slots: map<nat, nat>, hdr: seq<Header>, bin: seq<int>, h: nat)
    requires Exact(bins, slots, hdr, bin) && h in slots
    ensures 0 < h < |hdr| && slots[h] < |bin| && 0 <= hdr[h].pri < |hdr| && 0 <= hdr[h].next < |hdr|
    ensures hdr[h].pri != 0 ==> OfClass(slots, slots[h], hdr[h].pri)
    ensures hdr[h].next != 0 ==> OfClass(slots, slots[h], hdr[h].next)
  {
    var c := slots[h];
    assert IsListed(bins, slots, h);
    var i :| 0 <= i < |bins[c]| && bins[c][i] == h;
    assert Chained(hdr, bins[c]) && LinkAt(hdr, bins[c], i);
    if i > 0 {
      OnlyThere(bins, slots, c, i - 1);
      assert LinkAt(hdr, bins[c], i - 1);
    }
    if i + 1 < |bins[c]| {
      OnlyThere(bins, slots, c, i + 1);
      assert LinkAt(hdr, bins[c], i + 1);
    }
  }

  // ------------------------------------------------------------- the relinking

  /** The list is exactly [head, h], as two links show. */
  predicate IsPair(hdr: seq<Header>, bin: seq<int>, c: nat, h: nat) {
    c < |bin| && 0 <= bin[c] < |hdr| && h < |hdr| && hdr[bin[c]].next == h && hdr[h].next == 0
  }

  lemma PairHasTwo(bins: seq<seq<nat>>, slots: map<nat, nat>, hdr: seq<Header>, bin: seq<int>, h: nat)
    requires Exact(bins, slots, hdr, bin) && h in slots && slots[h] < |bins| && bin[slots[h]] != h
    ensures IsPair(hdr, bin, slots[h], h) <==> bins[slots[h]] == [bin[slots[h]], h]
  {
    var c := slots[h];
    var l := bins[c];
    assert IsListed(bins, slots, h);
    var i :| 0 <= i < |l| && l[i] == h;
    assert Chained(hdr, l) && LinkAt(hdr, l, 0) && LinkAt(hdr, l, i) && Distinct(l);
    OnlyThere(bins, slots, c, i);
    if i + 1 < |l| { OnlyThere(bins, slots, c, i + 1); }
    OnlyThere(bins, slots, c, 1);
    assert hdr[bin[c]].next == l[1];
  }

  lemma RelinkPair(bins: seq<seq<nat>>, slots: map<nat, nat>, hdr: seq<Header>, bin: seq<int>, h: nat)
    requires Exact(bins, slots, hdr, bin) && h in slots && slots[h] < |bins| && bin[slots[h]] != h
    requires bins[slots[h]] == [bin[slots[h]], h]
    ensures 0 <= bin[slots[h]] < |hdr| && h < |hdr| && hdr[h].next == 0
    ensures Exact(bins[slots[h] := [h, bin[slots[h]]]], slots, Relinked(hdr, bin, slots[h], h), bin[slots[h] := h])
  {
    var c, top := slots[h], bin[slots[h]];
    var l := bins[c];
    assert Chained(hdr, l) && LinkAt(hdr, l, 0) && LinkAt(hdr, l, 1);
    OnlyThere(bins, slots, c, 0);
    OnlyThere(bins, slots, c, 1);
    var after, bs := Relinked(hdr, bin, c, h), bins[c := [h, top]];
    assert LinkAt(after, bs[c], 0) && LinkAt(after, bs[c], 1);
    forall d | 0 <= d < |bs| ensures Chained(after, bs[d]) {
      if d != c { OtherClassUntouched(bins, slots, hdr, after, c, d); }
    }
    PairSorted(bins, slots, c, top, h);
  }

  lemma OtherClassUntouched(bins: seq<seq<nat>>, slots: map<nat, nat>, hdr: seq<Header>, after: seq<Header>, c: nat,
      d: nat)
    requires Sorted(bins, slots) && c < |bins| && d < |bins| && c != d && |bins[c]| == 2 && Chained(hdr, bins[d])
    requires |hdr| == |after|
    requires forall x :: 0 < x < |hdr| && x != bins[c][0] && x != bins[c][1] ==> after[x] == hdr[x]
    ensures Chained(after, bins[d])
  {
    OnlyThere(bins, slots, c, 0);
    OnlyThere(bins, slots, c, 1);
    forall j | 0 <= j < |bins[d]| && bins[d][j] < |hdr|
      ensures after[bins[d][j]] == hdr[bins[d][j]]
    {
      OnlyThere(bins, slots, d, j);
    }
    ChainUntouched(hdr, after, bins[d]);
  }

  lemma PairSorted(bins: seq<seq<nat>>, slots: map<nat, nat>, c: nat, top: nat, h: nat)
    requires Sorted(bins, slots) && c < |bins| && bins[c] == [top, h]
    ensures Sorted(bins[c := [h, top]], slots)
  {
    var bs := bins[c := [h, top]];
    assert bins[c][0] == top && bins[c][1] == h;
    forall d | 0 <= d < |bs| ensures Distinct(bs[d]) { assert Distinct(bins[d]); }
    forall d, x | 0 <= d < |bs| && x in bs[d]
      ensures OfClass(slots, d, x)
    {
      assert x in bins[d] && OfClass(slots, d, x);
    }
    forall x | x in slots ensures IsListed(bs, slots, x) {
      assert IsListed(bins, slots, x);
      assert bs[c][0] == h && bs[c][1] == top;
    }
  }

  lemma AtMostTwo(l: seq<nat>, a: nat, b: nat)
    requires Distinct(l) && forall i :: 0 <= i < |l| ==> l[i] == a || l[i] == b
    ensures |l| <= 2
  {
    if |l| > 2 { FirstThreeDiffer(l); }
  }

  lemma FirstThreeDiffer(l: seq<nat>)
    requires Distinct(l) && |l| > 2
    ensures l[0] != l[1] && l[0] != l[2] && l[1] != l[2]
  {}

  /** If two runs are all that one list of a class holds, no list of the class holds more. */
  lemma TwoAreAll(bins: seq<seq<nat>>, bs: seq<seq<nat>>, slots: map<nat, nat>, c: nat)
    requires Sorted(bins, slots) && Sorted(bs, slots) && c < |bins| == |bs| && |bs[c]| == 2
    ensures |bins[c]| <= 2
  {
    forall i | 0 <= i < |bins[c]| ensures bins[c][i] == bs[c][0] || bins[c][i] == bs[c][1] {
      SameClass(bins, bs, slots, c, i);
    }
    AtMostTwo(bins[c], bs[c][0], bs[c][1]);
  }

  lemma SameClass(bins: seq<seq<nat>>, bs: seq<seq<nat>>, slots: map<nat, nat>, c: nat, i: nat)
    requires Sorted(bins, slots) && Sorted(bs, slots) && c < |bins| == |bs| && i < |bins[c]|
    ensures bins[c][i] in bs[c]
  {
    OnlyThere(bins, slots, c, i);
    assert IsListed(bs, slots, bins[c][i]);
  }

  lemma NoneBeforeItself(bins: seq<seq<nat>>, slots: map<nat, nat>, hdr: seq<Header>, bin: seq<int>, h: nat)
    requires Exact(bins, slots, hdr, bin) && h in slots
    ensures h < |hdr| && hdr[h].pri != h
  {
    assert IsListed(bins, slots, h);
    var l := bins[slots[h]];
    var i :| 0 <= i < |l| && l[i] == h;
    assert Chained(hdr, l) && LinkAt(hdr, l, i) && Distinct(l);
  }

  /**
    After the relinking of any other list no lists are exact: what follows h points to itself, or what stood between
    is lost.
    */
  lemma RelinkOtherBreaks(bins: seq<seq<nat>>, slots: map<nat, nat>, hdr: seq<Header>, bin: seq<int>, h: nat,
      bs: seq<seq<nat>>)
    requires Exact(bins, slots, hdr, bin) && h in slots && slots[h] < |bins| && bin[slots[h]] != h
    requires 0 <= bin[slots[h]] < |hdr| && h < |hdr| && 0 <= hdr[h].next < |hdr|
    requires |bs| == |bins| && Exact(bs, slots, Relinked(hdr, bin, slots[h], h), bin[slots[h] := h])
    ensures bins[slots[h]] == [bin[slots[h]], h]
  {
    var c := slots[h];
    var l, l', after, q := bins[c], bs[c], Relinked(hdr, bin, c, h), hdr[h].next;
    assert IsListed(bins, slots, h);
    NeighboursOf(bins, slots, hdr, bin, h);
    var i :| 0 <= i < |l| && l[i] == h;
    assert Chained(hdr, l) && LinkAt(hdr, l, i) && LinkAt(hdr, l, 0) && Distinct(l);
    assert Chained(after, l') && Distinct(l');
    assert bin[c := h][c] == First(l');
    OnlyThere(bins, slots, c, 0);
    if q != 0 {
      assert q == l[i + 1] && q != h && q != bin[c] && after[q].pri == q;
      NoneBeforeItself(bs, slots, after, bin[c := h], q);
    } else {
      assert LinkAt(after, l', 0) && after[h].next == bin[c] > 0;
      assert l'[1] == bin[c] && LinkAt(after, l', 1) && after[bin[c]].next == 0;
      if |l'| > 2 { OnlyThere(bs, slots, c, 2); }
      TwoAreAll(bins, bs, slots, c);
    }
  }

  /** Moving a run to the front leaves exact lists if and only if its list is exactly [head, h]. */
  lemma RelinkKeepsPairsOnly(bins: seq<seq<nat>>, slots: map<nat, nat>, hdr: seq<Header>, bin: seq<int>, h: nat)
    requires Exact(bins, slots, hdr, bin) && h in slots && slots[h] < |bins| && bin[slots[h]] != h
    ensures 0 <= bin[slots[h]] < |hdr| && h < |hdr| && 0 <= hdr[h].next < |hdr|
    ensures (exists bs :: |bs| == |bins| && Exact(bs, slots, Relinked(hdr, bin, slots[h], h), bin[slots[h] := h])) <==>
            IsPair(hdr, bin, slots[h], h)
  {
    NeighboursOf(bins, slots, hdr, bin, h);
    HeadAndNext(bins, slots, hdr, bin, slots[h]);
    PairHasTwo(bins, slots, hdr, bin, h);
    if IsPair(hdr, bin, slots[h], h) { RelinkPair(bins, slots, hdr, bin, h); }
    if bs :| |bs| == |bins| && Exact(bs, slots, Relinked(hdr, bin, slots[h], h), bin[slots[h] := h]) {
      RelinkOtherBreaks(bins, slots, hdr, bin, h, bs);
    }
  }
}
