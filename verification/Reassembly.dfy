/**
  The server's parser with its memory of a frame that has come in part, and what becomes of a frame that arrives in
  two buffers.
  */
module Reassembly {
  import opened Options
  import opened Text
  import opened Framing

  /** Between two buffers: whether a frame is pending, and what is kept of it. */
  datatype Memory = Memory(pending: bool, text: bytes)

  const IDLE := Memory(false, [])

  /** One call of `parse`: how far to go on, or None for -1; a content, if it has set one; and its memory. */
  datatype Turn = Turn(consumed: Option<pos>, content: Option<bytes>, memory: Memory)

  function ParseTurn(m: Memory, buf: bytes): Turn {
    var t := Find(buf, TERM);
    if m.pending then
      if t == -1 then Turn(None, None, Memory(true, m.text + buf))
      else Turn(Some(t + 4), Some(Content(m.text + Substr(buf, 0, t))), IDLE)
    else
      match ParseOne(buf)
      case Parsed(content, n) => Turn(Some(n), Some(content), m)
      case Skipped(n) => Turn(Some(n), None, m)
      case Pending => Turn(None, None, Memory(true, PendingText(buf)))
  }

  /** What is kept of the first part: all behind the head but for the last four bytes, or all if there are less. */
  function PendingText(buf: bytes): bytes {
    var h := Find(buf, HEAD);
    Substr(buf, h + 4, |buf| - 4 - h - 4)
  }

  datatype Scanned = Scanned(contents: seq<bytes>, memory: Memory)

  function ContentOf(turn: Turn, last: bytes): bytes {
    match turn.content case None => last case Some(c) => c
  }

  /** The contents dispatched for a buffer, and the memory afterwards. */
  function ScanWith(m: Memory, buf: bytes, last: bytes): Scanned
    decreases |buf|
  {
    if buf == [] then Scanned([], m)
    else
      var turn := ParseTurn(m, buf);
      if turn.consumed.None? then Scanned([], turn.memory)
      else
        var (n, content) := (turn.consumed.value, ContentOf(turn, last));
        var rest := if n >= |buf| then Scanned([], turn.memory) else ScanWith(turn.memory, buf[n..], content);
        Scanned([content] + rest.contents, rest.memory)
  }

  // ------------------------------------------------------------------- in place

  /** ScanWith from a position, after what has been dispatched before. */
  function ScanOn(done: seq<bytes>, m: Memory, line: bytes, cur: nat, last: bytes): Scanned {
    if cur >= |line| then Scanned(done, m)
    else
      var rest := ScanWith(m, line[cur..], last);
      Scanned(done + rest.contents, rest.memory)
  }

  /** A call of `parse` with memory m has returned `consumed` and left this memory and content. */
  predicate Parses(m: Memory, buf: bytes, before: bytes, after: Memory, consumed: int, content: bytes) {
    var turn := ParseTurn(m, buf);
    && after == turn.memory && content == ContentOf(turn, before)
    && consumed == match turn.consumed case None => -1 case Some(n) => n
  }

  lemma ScanTurn(all: Scanned, done: seq<bytes>, m: Memory, line: bytes, cur: nat, last: bytes, after: Memory,
      delta: int, content: bytes)
    requires all == ScanOn(done, m, line, cur, last) && cur < |line|
    requires Parses(m, line[cur..], last, after, delta, content)
    ensures delta <= 0 ==> delta < 0 && all == Scanned(done, after)
    ensures delta > 0 ==> all == ScanOn(done + [content], after, line, cur + delta, content)
  {
    if 0 <= delta < |line[cur..]| {
      assert line[cur..][delta..] == line[cur + delta..];
      Regroup(done, content, ScanWith(after, line[cur + delta..], content).contents);
    } else {
      Regroup(done, content, []);
    }
  }

  /** The static variables of the server's callback. */
  class Receiver {
    var pending: bool
    var pendingStr: bytes

    ghost function State(): Memory
      reads this
    {
      Memory(pending, pendingStr)
    }

    constructor ()
      ensures State() == IDLE
    {
      pending, pendingStr := false, [];
    }

    method Parse(buf: bytes, before: bytes) returns (consumed: int, content: bytes)
      modifies this
      ensures Parses(old(State()), buf, before, State(), consumed, content)
    {
      content := before;
      var h, t := Find(buf, HEAD), Find(buf, TERM);
      if h != -1 && !pending {
        if t != -1 {
          content := Content(Substr(buf, h + 4, t - h - 4));
        } else {
          pending := true;
          pendingStr := Substr(buf, h + 4, |buf| - 4 - h - 4);
        }
      } else if pending {
        if t != -1 {
          pendingStr := pendingStr + Substr(buf, 0, t);
          content := Content(pendingStr);
          pending, pendingStr := false, [];
        } else {
          pendingStr := pendingStr + buf;
        }
      }
      consumed := if pending then -1 else t + 4;
    }

    /** The call in the loop, where `done` has been dispatched of `all`. */
    method ParseNext(line: bytes, cur: nat, last: bytes, ghost done: seq<bytes>, ghost all: Scanned)
        returns (delta: int, content: bytes)
      requires cur < |line| && all == ScanOn(done, State(), line, cur, last)
      modifies this
      ensures delta <= 0 ==> delta < 0 && all == Scanned(done, State())
      ensures delta > 0 ==> all == ScanOn(done + [content], State(), line, cur + delta, content)
    {
      ghost var m := State();
      delta, content := Parse(line[cur..], last);
      ScanTurn(all, done, m, line, cur, last, State(), delta, content);
    }

    /** The loop over one buffer. */
    method Receive(line: bytes) returns (contents: seq<bytes>)
      modifies this
      ensures Scanned(contents, State()) == ScanWith(old(State()), line, [])
    {
      var cur: nat, content: bytes, delta := 0, [], 0;
      contents := [];
      assert line[0..] == line;
      ghost var all := ScanWith(State(), line, []);
      while cur < |line|
        invariant ScanOn(contents, State(), line, cur, content) == all
        decreases |line| - cur
      {
        delta, content := ParseNext(line, cur, content, contents, all);
        if delta < 0 { break; }
        cur := cur + delta;
        contents := contents + [content];
      }
    }
  }

  // ------------------------------------------------------------- without memory

  /** As long as nothing is pending, memory makes no difference to what is dispatched. */
  lemma {:induction false} WithoutPending(m: Memory, buf: bytes, last: bytes)
    requires !m.pending
    ensures ScanWith(m, buf, last).contents == Scan(ParseOne, buf, last)
    decreases |buf|
  {
    if buf != [] {
      var turn := ParseTurn(m, buf);
      if turn.consumed.Some? && turn.consumed.value < |buf| {
        WithoutPending(m, buf[turn.consumed.value..], ContentOf(turn, last));
      }
    }
  }

  /** A message that goes through in one piece, and its frame. */
  ghost predicate Whole(m: Message) { Sendable(m) && !Contains(m.request, TERM) }

  function FrameOf(m: Message): (f: bytes)
    requires |m.request| + 6 < 0x8000_0000
    ensures |f| == |m.request| + 14
  {
    Frame(m.kind, m.raw, m.request)
  }

  /** Its body is what the frame holds between head and tail. */
  lemma BodyOfFrame(m: Message)
    requires Whole(m)
    ensures Content(FrameOf(m)[4..10 + |m.request|]) == m.request
  {
    var f, n := FrameOf(m), |m.request|;
    FrameFields(m.kind, m.raw, m.request);
    assert f[4..10 + n][5] == f[9] && f[4..10 + n][6..] == f[10..10 + n];
  }

  /** What has been dispatched in front of a scan. */
  function After(done: seq<bytes>, x: Scanned): Scanned { Scanned(done + x.contents, x.memory) }

  lemma FirstFrame(m: Message, rest: bytes, last: bytes)
    requires Whole(m)
    ensures ScanWith(IDLE, FrameOf(m) + rest, last) == After([m.request], ScanWith(IDLE, rest, m.request))
  {
    FrameIsParsed(m.kind, m.raw, m.request, rest);
    assert m.request[..|m.request|] == m.request;
    assert (FrameOf(m) + rest)[|FrameOf(m)|..] == rest;
  }

  ghost predicate AllWhole(messages: seq<Message>) { forall m :: m in messages ==> Whole(m) }

  function LastOf(messages: seq<Message>, last: bytes): bytes {
    if messages == [] then last else messages[|messages| - 1].request
  }

  lemma WholeIsSendable(messages: seq<Message>)
    requires AllWhole(messages)
    ensures AllSendable(messages)
  {}

  lemma AfterBoth(a: Scanned, b: Scanned, c: Scanned, request: bytes, more: seq<bytes>)
    requires a == After([request], b) && b == After(more, c)
    ensures a == After([request] + more, c)
  {
    Regroup([], request, more + c.contents);
    assert [request] + more + c.contents == [request] + (more + c.contents);
  }

  lemma FramesSplit(messages: seq<Message>, rest: bytes)
    requires messages != [] && AllSendable(messages)
    ensures AllSendable(messages[1..]) && |messages[0].request| + 6 < 0x8000_0000
    ensures Frames(messages) + rest == FrameOf(messages[0]) + (Frames(messages[1..]) + rest)
    ensures Requests(messages) == [messages[0].request] + Requests(messages[1..])
  {
    assert messages[0] in messages;
  }

  /** Whole frames in front of anything leave the memory idle. */
  lemma {:induction false} FramesFirst(messages: seq<Message>, rest: bytes, last: bytes)
    requires AllWhole(messages) && AllSendable(messages)
    ensures ScanWith(IDLE, Frames(messages) + rest, last) ==
            After(Requests(messages), ScanWith(IDLE, rest, LastOf(messages, last)))
  {
    if messages == [] {
      assert Frames(messages) + rest == rest;
      assert [] + ScanWith(IDLE, rest, last).contents == ScanWith(IDLE, rest, last).contents;
    } else {
      var m, more := messages[0], messages[1..];
      FramesSplit(messages, rest);
      assert m in messages;
      FramesFirst(more, rest, m.request);
      FirstFrame(m, Frames(more) + rest, last);
      AfterBoth(ScanWith(IDLE, Frames(messages) + rest, last), ScanWith(IDLE, Frames(more) + rest, m.request),
        ScanWith(IDLE, rest, LastOf(messages, last)), m.request, Requests(more));
    }
  }

  // --------------------------------------------------------- a frame in two parts

  lemma FrameAround(m: Message, rest: bytes)
    requires Whole(m)
    ensures var (f, n) := (FrameOf(m), |m.request|);
            && OccursAt(f + rest, TERM, 10 + n) && (forall i :: 0 <= i < 10 + n ==> !OccursAt(f + rest, TERM, i))
            && f[..4] == HEAD
  {
    TermIsFound(m.kind, m.raw, m.request, rest);
    FindFromFirst(FrameOf(m) + rest, TERM, 0);
  }

  /** A first part has no tail, and has a head exactly from four bytes on. */
  lemma FirstPart(m: Message, c: nat)
    requires Whole(m) && c < |FrameOf(m)|
    ensures var a := FrameOf(m)[..c];
            Find(a, TERM) == -1 && Find(a, HEAD) == if c < 4 then -1 else 0
  {
    var f := FrameOf(m);
    var a := f[..c];
    FrameAround(m, []);
    assert f + [] == f && a + f[c..] == f;
    FindFromFirst(a, TERM, 0);
    FindFromFirst(a, HEAD, 0);
    if Find(a, TERM) != -1 { OccursExtend(a, f[c..], TERM, Find(a, TERM)); }
    if c >= 4 { assert a[..4] == HEAD; }
  }

  /** The rest of a frame has the tail where it stood, if it was not cut. */
  lemma TailBehind(m: Message, c: nat, rest: bytes)
    requires Whole(m) && c <= 10 + |m.request|
    ensures Find(FrameOf(m)[c..] + rest, TERM) == 10 + |m.request| - c
  {
    var f := FrameOf(m);
    var b := f[c..] + rest;
    FrameAround(m, rest);
    assert f[..c] + b == f + rest;
    forall i | 0 <= i <= 10 + |m.request| - c
      ensures OccursAt(b, TERM, i) <==> OccursAt(f + rest, TERM, c + i)
    {
      OccursShift(f[..c], b, TERM, i);
    }
    FindIs(b, TERM, 0, 10 + |m.request| - c);
  }

  /** What is kept of a first part that has the head. */
  function Kept(m: Message, c: nat): bytes
    requires |m.request| + 6 < 0x8000_0000 && 4 <= c < |FrameOf(m)|
  {
    FrameOf(m)[4..if c < 8 then c else c - 4]
  }

  lemma FirstIsScanned(m: Message, c: nat, last: bytes)
    requires Whole(m) && 0 < c < |FrameOf(m)|
    ensures ScanWith(IDLE, FrameOf(m)[..c], last) ==
            if c < 4 then Scanned([last], IDLE) else Scanned([], Memory(true, Kept(m, c)))
  {
    FirstPart(m, c);
    var f := FrameOf(m);
    if c >= 4 { assert f[..c][4..] == f[4..c]; }
    if c >= 8 { assert f[..c][4..c - 4] == f[4..c - 4]; }
  }

  /** The buffer in which the tail comes completes what is pending. */
  lemma LastIsScanned(m: Message, text: bytes, c: nat, rest: bytes, last: bytes)
    requires Whole(m) && c <= 10 + |m.request|
    ensures var content := Content(text + FrameOf(m)[c..10 + |m.request|]);
            ScanWith(Memory(true, text), FrameOf(m)[c..] + rest, last) ==
            After([content], ScanWith(IDLE, rest, content))
  {
    TailBehind(m, c, rest);
    var (f, n) := (FrameOf(m), |m.request|);
    var b := f[c..] + rest;
    assert b[0..10 + n - c] == f[c..10 + n];
    assert b[14 + n - c..] == rest;
  }

  /** A cut inside the tail leaves none in the last buffer, too. */
  lemma CutTail(m: Message, text: bytes, c: nat, last: bytes)
    requires Whole(m) && 10 + |m.request| < c < |FrameOf(m)|
    ensures ScanWith(Memory(true, text), FrameOf(m)[c..], last) == Scanned([], Memory(true, text + FrameOf(m)[c..]))
  {
    FindFromFirst(FrameOf(m)[c..], TERM, 0);
  }

  /** Four bytes are missing, unless less than four were kept back. */
  lemma PartsMeet(m: Message, c: nat)
    requires Whole(m) && 4 <= c <= 10 + |m.request|
    ensures Content(Kept(m, c) + FrameOf(m)[c..10 + |m.request|]) == m.request <==> c < 8 || m.request == []
  {
    var (f, n) := (FrameOf(m), |m.request|);
    if c < 8 {
      assert f[4..c] + f[c..10 + n] == f[4..10 + n];
      BodyOfFrame(m);
    }
  }

  /**
    A frame that comes in two parts is dispatched as one whole exactly if the cut lies behind the head and before the
    fourth byte after it, or behind the head of an empty request and not in the tail.
    */
  lemma TwoPartsMeetExactly(m: Message, c: nat)
    requires Whole(m) && 0 < c < |FrameOf(m)|
    ensures var first := ScanWith(IDLE, FrameOf(m)[..c], []);
            var second := ScanWith(first.memory, FrameOf(m)[c..], []);
            first.contents + second.contents == [m.request] <==>
            4 <= c && (c < 8 || (m.request == [] && c <= 10))
  {
    var b := FrameOf(m)[c..];
    FirstIsScanned(m, c, []);
    assert b + [] == b;
    if c < 4 {
      TailBehind(m, c, []);
    } else if c <= 10 + |m.request| {
      LastIsScanned(m, Kept(m, c), c, [], []);
      PartsMeet(m, c);
      var second := ScanWith(Memory(true, Kept(m, c)), b, []);
      OneContent(second, Content(Kept(m, c) + FrameOf(m)[c..10 + |m.request|]), m.request);
      assert [] + second.contents == second.contents;
    } else {
      CutTail(m, Kept(m, c), c, []);
    }
  }

  lemma FirstBuffer(before: seq<Message>, m: Message, c: nat)
    requires AllWhole(before) && AllSendable(before) && Whole(m) && 4 <= c < 8
    ensures ScanWith(IDLE, Frames(before) + FrameOf(m)[..c], []) ==
            Scanned(Requests(before), Memory(true, Kept(m, c)))
  {
    FramesFirst(before, FrameOf(m)[..c], []);
    FirstIsScanned(m, c, LastOf(before, []));
    assert Requests(before) + [] == Requests(before);
  }

  lemma SecondBuffer(m: Message, behind: seq<Message>, c: nat)
    requires Whole(m) && AllWhole(behind) && AllSendable(behind) && 4 <= c < 8
    ensures ScanWith(Memory(true, Kept(m, c)), FrameOf(m)[c..] + Frames(behind), []) ==
            Scanned([m.request] + Requests(behind), IDLE)
  {
    PartsMeet(m, c);
    LastIsScanned(m, Kept(m, c), c, Frames(behind), []);
    FramesFirst(behind, [], m.request);
    assert Frames(behind) + [] == Frames(behind) && Requests(behind) + [] == Requests(behind);
  }

  /** In such a place any stream of frames may be cut, and all requests are dispatched in order. */
  lemma CutStreamIsWhole(before: seq<Message>, m: Message, behind: seq<Message>, c: nat)
    requires AllWhole(before) && Whole(m) && AllWhole(behind) && 4 <= c < 8
    ensures AllSendable(before) && AllSendable(behind)
    ensures var first := ScanWith(IDLE, Frames(before) + FrameOf(m)[..c], []);
            var second := ScanWith(first.memory, FrameOf(m)[c..] + Frames(behind), []);
            && first.contents + second.contents == Requests(before) + ([m.request] + Requests(behind))
            && second.memory == IDLE
  {
    WholeIsSendable(before);
    WholeIsSendable(behind);
    FirstBuffer(before, m, c);
    SecondBuffer(m, behind, c);
  }

  // ------------------------------------------------------ a frame in many parts

  /** Buffers one after the other. */
  function Feed(m: Memory, buffers: seq<bytes>): Scanned
    decreases |buffers|
  {
    if buffers == [] then Scanned([], m)
    else
      var first := ScanWith(m, buffers[0], []);
      After(first.contents, Feed(first.memory, buffers[1..]))
  }

  function Concat(parts: seq<bytes>): bytes {
    if parts == [] then [] else parts[0] + Concat(parts[1..])
  }

  /** What does not occur in a text does not occur in what it consists of. */
  lemma NotInParts(a: bytes, b: bytes, p: bytes)
    requires !Contains(a + b, p)
    ensures !Contains(a, p) && !Contains(b, p)
  {
    NotBehind(a + b, p, |a|);
    assert (a + b)[|a|..] == b;
    FindFromFirst(a + b, p, 0);
    FindFromFirst(a, p, 0);
    if Contains(a, p) { OccursExtend(a, b, p, Find(a, p)); }
  }

  /** Buffers without a tail add to what is pending, to the last byte; what comes then is scanned with that. */
  lemma {:induction false} PartsGather(text: bytes, parts: seq<bytes>, end: bytes)
    requires !Contains(Concat(parts), TERM)
    ensures Feed(Memory(true, text), parts + [end]) == ScanWith(Memory(true, text + Concat(parts)), end, [])
    decreases |parts|
  {
    var m := Memory(true, text);
    if parts == [] {
      assert text + [] == text && [end][1..] == [];
      FeedOne(m, end);
    } else {
      NotInParts(parts[0], Concat(parts[1..]), TERM);
      PartsGather(text + parts[0], parts[1..], end);
      assert text + parts[0] + Concat(parts[1..]) == text + Concat(parts);
      FeedPart(text, parts[0], parts[1..] + [end]);
      assert [parts[0]] + (parts[1..] + [end]) == parts + [end];
    }
  }

  lemma FeedOne(m: Memory, end: bytes)
    ensures Feed(m, [end]) == ScanWith(m, end, [])
  {
    var x := ScanWith(m, end, []);
    assert Feed(x.memory, []) == Scanned([], x.memory);
    assert x.contents + [] == x.contents;
  }

  lemma FeedPart(text: bytes, part: bytes, more: seq<bytes>)
    requires !Contains(part, TERM)
    ensures Feed(Memory(true, text), [part] + more) == Feed(Memory(true, text + part), more)
  {
    assert ScanWith(Memory(true, text), part, []) == Scanned([], Memory(true, text + part)) by {
      assert part == [] ==> text + part == text;
    }
    assert ([part] + more)[1..] == more;
    var rest := Feed(Memory(true, text + part), more);
    assert [] + rest.contents == rest.contents;
  }

  lemma FeedFirst(first: bytes, m: Memory, more: seq<bytes>)
    requires ScanWith(IDLE, first, []) == Scanned([], m)
    ensures Feed(IDLE, [first] + more) == Feed(m, more)
  {
    assert ([first] + more)[1..] == more;
    assert [] + Feed(m, more).contents == Feed(m, more).contents;
  }

  /** All parts but the last are gathered. */
  lemma PartsAreGathered(m: Message, c: nat, parts: seq<bytes>, d: nat)
    requires Whole(m) && 4 <= c <= d < |FrameOf(m)| && Concat(parts) == FrameOf(m)[c..d]
    ensures Feed(IDLE, [FrameOf(m)[..c]] + (parts + [FrameOf(m)[d..]])) ==
            ScanWith(Memory(true, Kept(m, c) + FrameOf(m)[c..d]), FrameOf(m)[d..], [])
  {
    var f := FrameOf(m);
    FirstIsScanned(m, c, []);
    FeedFirst(f[..c], Memory(true, Kept(m, c)), parts + [f[d..]]);
    FirstPart(m, d);
    NotBehind(f[..d], TERM, c);
    assert f[..d][c..] == f[c..d];
    PartsGather(Kept(m, c), parts, f[d..]);
  }

  lemma LastPartDecides(m: Message, c: nat, d: nat)
    requires Whole(m) && 4 <= c <= d < |FrameOf(m)|
    ensures ScanWith(Memory(true, Kept(m, c) + FrameOf(m)[c..d]), FrameOf(m)[d..], []).contents == [m.request] <==>
            (c < 8 || m.request == []) && d <= 10 + |m.request|
  {
    var (f, n) := (FrameOf(m), |m.request|);
    var text := Kept(m, c) + f[c..d];
    if d <= 10 + n {
      LastIsScanned(m, text, d, [], []);
      assert f[d..] + [] == f[d..];
      assert text + f[d..10 + n] == Kept(m, c) + f[c..10 + n];
      PartsMeet(m, c);
      OneContent(ScanWith(Memory(true, text), f[d..], []), Content(text + f[d..10 + n]), m.request);
    } else {
      CutTail(m, text, d, []);
    }
  }

  /**
    In however many parts the frame comes, if the first has its head: it is dispatched as one whole exactly if the
    first part ends before the fourth byte behind the head, or the request is empty, and the tail comes in one piece.
    */
  lemma ManyPartsMeetExactly(m: Message, c: nat, parts: seq<bytes>, d: nat)
    requires Whole(m) && 4 <= c <= d < |FrameOf(m)| && Concat(parts) == FrameOf(m)[c..d]
    ensures Feed(IDLE, [FrameOf(m)[..c]] + (parts + [FrameOf(m)[d..]])).contents == [m.request] <==>
            (c < 8 || m.request == []) && d <= 10 + |m.request|
  {
    PartsAreGathered(m, c, parts, d);
    LastPartDecides(m, c, d);
  }

  lemma OneContent(x: Scanned, content: bytes, request: bytes)
    requires x.contents == [content] + []
    ensures x.contents == [request] <==> content == request
  {
    assert x.contents[0] == content && |x.contents| == 1;
  }
}
