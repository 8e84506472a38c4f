/**
  Message frames and the server's loop that takes consecutive frames from a buffer:
  head(4) type(1) length(4) raw_type(1) request tail(4), integers little-endian.
  */
module Framing {
  import opened Options
  import opened Text
  import ListCodec
  import TableLayout

  const HEAD: bytes := [0xDE, 0xC0, 0xAD, 0xDE]   // 0xDEADC0DE
  const TERM: bytes := [0xEF, 0xBE, 0xAD, 0xDE]   // 0xDEADBEEF
  const MINIMUM_LEN := 5
  const TEXT: byte := 0x74    // 't'
  const LIST: byte := 0x6C    // 'l'
  const SENDER: byte := 0x64  // 'd'

  function LittleEndian(n: nat): (r: bytes)
    requires n < 0x1_0000_0000
    ensures |r| == 4 && (n < 0x8000_0000 ==> r[3] < 0x80)
  {
    [n % 256, n / 256 % 256, n / 65536 % 256, n / 16777216]
  }

  // ------------------------------------------------------------------ printing

  /** A frame; `length` counts everything but head and tail. */
  function Frame(kind: byte, raw: byte, request: bytes): bytes
    requires |request| + 6 < 0x8000_0000
  {
    HEAD + [kind] + LittleEndian(|request| + 6) + [raw] + request + TERM
  }

  /** The number that four bytes stand for. */
  function Decode(b: bytes): nat
    requires |b| == 4
  {
    var p: nat, q: nat, r: nat, s: nat := b[0], b[1], b[2], b[3];
    p + 256 * q + 65536 * r + 16777216 * s
  }

  lemma DecodeInverts(n: nat)
    requires n < 0x1_0000_0000
    ensures Decode(LittleEndian(n)) == n
  {
    var a, b := n / 256, n / 65536;
    assert n == 256 * a + n % 256 && a == 256 * b + a % 256 && b == n / 16777216 * 256 + b % 256 by {
      assert a / 256 == b && b / 256 == n / 16777216;
    }
    assert b % 256 == n / 65536 % 256;
  }

  /** What stands where in a frame, with the length field counting all but head and tail. */
  lemma FrameFields(kind: byte, raw: byte, request: bytes)
    requires |request| + 6 < 0x8000_0000
    ensures var f, n := Frame(kind, raw, request), |request|;
            && |f| == n + 14
            && Decode(f[..4]) == 0xDEADC0DE && f[4] == kind && Decode(f[5..9]) == |f| - 8
            && f[9] == raw && f[10..10 + n] == request && Decode(f[10 + n..]) == 0xDEADBEEF
  {
    var f, n, l := Frame(kind, raw, request), |request|, LittleEndian(|request| + 6);
    DecodeInverts(n + 6);
    assert f == HEAD + [kind] + l + [raw] + request + TERM;
    assert f[..4] == HEAD && f[5..9] == l && f[10..10 + n] == request && f[10 + n..] == TERM;
  }

  /** memcpy of `part` into s at `at`. */
  function Patch(s: bytes, at: nat, part: bytes): bytes
    requires at + |part| <= |s|
  {
    s[..at] + part + s[at + |part|..]
  }

  /** pickle_message: blanks where the fixed fields go, which are then copied in. */
  method PickleMessage(kind: byte, request: bytes, raw: byte) returns (ret: bytes)
    requires |request| + 6 < 0x8000_0000
    ensures ret == Frame(kind, raw, request)
  {
    var blank := Spaces(4);
    ret := blank + [kind] + blank + [raw] + request + blank;
    PatchFirst(blank, [kind], blank, [raw], request, blank, HEAD);
    ret := Patch(ret, 0, HEAD);
    var length := LittleEndian(|ret| - 8);
    PatchLength(HEAD, [kind], blank, [raw], request, blank, length);
    ret := Patch(ret, 5, length);
    PatchLast(HEAD, [kind], length, [raw], request, blank, TERM);
    ret := Patch(ret, |ret| - 4, TERM);
  }

  /** The list form of pickle_message; a table without header gives no frame at all. */
  method PickleList(kind: byte, table: ListCodec.Table) returns (ret: bytes)
    requires table.header != [] ==> |ListCodec.Print(table)| + 6 < 0x8000_0000
    ensures ret == if table.header == [] then [] else Frame(kind, LIST, ListCodec.Print(table))
  {
    if table.header == [] { return []; }
    var text := TableLayout.PrintList(table);
    ret := PickleMessage(kind, text, LIST);
  }

  lemma PatchFirst(h: bytes, k: bytes, l: bytes, r: bytes, q: bytes, t: bytes, part: bytes)
    requires |h| == |part|
    ensures Patch(h + k + l + r + q + t, 0, part) == part + k + l + r + q + t
  {
    assert h + k + l + r + q + t == h + (k + l + r + q + t);
    assert part + k + l + r + q + t == part + (k + l + r + q + t);
    PatchPart([], h, k + l + r + q + t, part);
    assert [] + h + (k + l + r + q + t) == h + (k + l + r + q + t);
    assert [] + part + (k + l + r + q + t) == part + (k + l + r + q + t);
  }

  lemma PatchLength(h: bytes, k: bytes, l: bytes, r: bytes, q: bytes, t: bytes, part: bytes)
    requires |l| == |part|
    ensures Patch(h + k + l + r + q + t, |h| + |k|, part) == h + k + part + r + q + t
  {
    assert h + k + l + r + q + t == h + k + l + (r + q + t);
    assert h + k + part + r + q + t == h + k + part + (r + q + t);
    PatchPart(h + k, l, r + q + t, part);
  }

  lemma PatchLast(h: bytes, k: bytes, l: bytes, r: bytes, q: bytes, t: bytes, part: bytes)
    requires |t| == |part|
    ensures Patch(h + k + l + r + q + t, |h + k + l + r + q|, part) == h + k + l + r + q + part
  {
    PatchPart(h + k + l + r + q, t, [], part);
    assert h + k + l + r + q + t + [] == h + k + l + r + q + t;
  }

  lemma PatchPart(a: bytes, b: bytes, c: bytes, part: bytes)
    requires |b| == |part|
    ensures Patch(a + b + c, |a|, part) == a + part + c
  {
    assert (a + b + c)[..|a|] == a && (a + b + c)[|a| + |b|..] == c;
  }

  // ------------------------------------------------------------------- parsing

  /** What a body of this raw type and text gives: the text, or nothing for a broken list. */
  function Shown(raw: byte, text: bytes): bytes {
    if raw == LIST && ListCodec.Parse(text).None? then [] else text
  }

  /** The text that format_message returns for kGetContent. */
  function Content(body: bytes): bytes {
    if |body| <= MINIMUM_LEN then [] else Shown(body[MINIMUM_LEN], body[MINIMUM_LEN + 1..])
  }

  /** It is what stands behind the first six bytes, unless that is a list that does not parse. */
  lemma ContentIs(body: bytes)
    ensures Content(body) ==
            if |body| > 6 && (body[5] == 0x6C ==> ListCodec.Parse(body[6..]).Some?) then body[6..] else []
  {}

  type pos = n: nat | n > 0 witness 1

  /** What `parse` does with a buffer when no frame is pending. */
  datatype Parsed = Pending | Skipped(consumed: pos) | Parsed(content: bytes, consumed: pos)

  function ParseOne(buf: bytes): Parsed {
    var h, t := Find(buf, HEAD), Find(buf, TERM);
    if h != -1 then
      if t != -1 then Parsed(Content(Substr(buf, h + 4, t - h - 4)), t + 4) else Pending
    else Skipped(t + 4)
  }

  /** The content dispatched next: a turn that brings no frame leaves the previous one in place. */
  function ContentAfter(one: Parsed, last: bytes): bytes {
    if one.Parsed? then one.content else last
  }

  /** The contents dispatched for a buffer, until it is used up or a frame is pending. */
  function Scan(parse: bytes -> Parsed, buf: bytes, last: bytes): seq<bytes>
    decreases |buf|
  {
    if buf == [] then []
    else
      var one := parse(buf);
      if one.Pending? then []
      else [ContentAfter(one, last)] +
           if one.consumed >= |buf| then [] else Scan(parse, buf[one.consumed..], ContentAfter(one, last))
  }

  // ---------------------------------------------------------------- round trip

  /** The ten bytes before the request. */
  function Prefix(kind: byte, raw: byte, n: nat): (r: bytes)
    requires n + 6 < 0x8000_0000
    ensures |r| == 10
  {
    HEAD + [kind] + LittleEndian(n + 6) + [raw]
  }

  /**
    The tail cannot begin inside those bytes: 0xEF is no byte of the head, no message type, no raw type in use, and
    the length is below 2^31.
    */
  lemma NoTermInPrefix(kind: byte, raw: byte, n: nat, rest: bytes, i: nat)
    requires n + 6 < 0x8000_0000 && kind <= 3 && raw != 0xEF && i < 10
    ensures !OccursAt(Prefix(kind, raw, n) + rest, TERM, i)
  {
    var l := LittleEndian(n + 6);
    var f := Prefix(kind, raw, n) + rest;
    assert f[..10] == [0xDE, 0xC0, 0xAD, 0xDE, kind, l[0], l[1], l[2], l[3], raw];
    assert f[i] == f[..10][i];
    assert i + 4 <= |f| ==> f[i..i + 4][0] == f[i];
    assert i + 4 <= |f| && i <= 8 ==> f[i..i + 4][if 5 <= i then 8 - i else 0] == f[if 5 <= i then 8 else i];
  }

  /** The tail has no self-overlap: it cannot begin in the request and end in the tail. */
  lemma NoStraddle(request: bytes, rest: bytes, i: nat)
    requires i < |request| < i + 4
    ensures !OccursAt(request + TERM + rest, TERM, i)
  {
    var f := request + TERM + rest;
    var j := |request| - i;
    assert f[i..i + 4][j] == f[i + j] == TERM[0];
  }

  lemma OccursShift(a: bytes, b: bytes, p: bytes, i: nat)
    ensures OccursAt(a + b, p, |a| + i) <==> OccursAt(b, p, i)
  {
    if |a| + i + |p| <= |a + b| { assert (a + b)[|a| + i..|a| + i + |p|] == b[i..i + |p|]; }
  }

  lemma OccursExtend(a: bytes, b: bytes, p: bytes, i: nat)
    requires i + |p| <= |a|
    ensures OccursAt(a + b, p, i) <==> OccursAt(a, p, i)
  {
    assert (a + b)[i..i + |p|] == a[i..i + |p|];
  }

  /** Where the tail is first found: in the request if it occurs there, else behind it. */
  function FirstTerm(request: bytes): (t: nat)
    ensures t <= |request| && (t < |request| <==> Contains(request, TERM))
  {
    FindFromFirst(request, TERM, 0);
    if Contains(request, TERM) then Find(request, TERM) else |request|
  }

  lemma TermIsFound(kind: byte, raw: byte, request: bytes, rest: bytes)
    requires |request| + 6 < 0x8000_0000 && kind <= 3 && raw != 0xEF
    ensures Find(Frame(kind, raw, request) + rest, TERM) == 10 + FirstTerm(request)
  {
    var p := Prefix(kind, raw, |request|);
    var q := request + TERM + rest;
    var t := FirstTerm(request);
    assert Frame(kind, raw, request) + rest == p + q;
    FindFromFirst(request, TERM, 0);
    if Contains(request, TERM) {
      OccursExtend(request, TERM + rest, TERM, t);
      assert request + (TERM + rest) == q;
    } else {
      assert q[t..t + 4] == TERM;
    }
    OccursShift(p, q, TERM, t);
    forall i | 0 <= i < 10 + t ensures !OccursAt(p + q, TERM, i) {
      if i < 10 {
        NoTermInPrefix(kind, raw, |request|, q, i);
      } else {
        OccursShift(p, q, TERM, i - 10);
        RequestHasNone(request, rest, i - 10);
      }
    }
    FindIs(p + q, TERM, 0, 10 + t);
  }

  lemma RequestHasNone(request: bytes, rest: bytes, i: nat)
    requires i < FirstTerm(request)
    ensures !OccursAt(request + TERM + rest, TERM, i)
  {
    FindFromFirst(request, TERM, 0);
    if i + 4 <= |request| {
      OccursExtend(request, TERM + rest, TERM, i);
      assert request + (TERM + rest) == request + TERM + rest;
    } else {
      NoStraddle(request, rest, i);
    }
  }

  lemma BodyIsCut(p: bytes, request: bytes, rest: bytes, t: nat)
    requires |p| == 10 && t <= |request|
    ensures var body := Substr(p + (request + rest), 4, 6 + t);
            |body| == 6 + t && body[5] == p[9] && body[6..] == request[..t]
  {
    var buf := p + (request + rest);
    assert buf[10..10 + t] == request[..t];
    assert buf[4..10 + t][6..] == buf[10..10 + t];
  }

  lemma HeadIsFound(tail: bytes)
    ensures Find(HEAD + tail, HEAD) == 0
  {
    assert OccursAt(HEAD + tail, HEAD, 0);
  }

  /** Parsing a buffer that begins with a frame yields the request up to the first tail bytes in it. */
  lemma FrameIsParsed(kind: byte, raw: byte, request: bytes, rest: bytes)
    requires |request| + 6 < 0x8000_0000 && kind <= 3 && raw != 0xEF
    ensures ParseOne(Frame(kind, raw, request) + rest) ==
            Parsed(Shown(raw, request[..FirstTerm(request)]), 14 + FirstTerm(request))
  {
    var p := Prefix(kind, raw, |request|);
    var buf := Frame(kind, raw, request) + rest;
    assert buf == p + (request + (TERM + rest));
    TermIsFound(kind, raw, request, rest);
    assert buf == HEAD + buf[4..];
    HeadIsFound(buf[4..]);
    BodyIsCut(p, request, TERM + rest, FirstTerm(request));
  }

  datatype Message = Message(kind: byte, raw: byte, request: bytes)

  /**
    What the three forms of pickle_message are given: one of the four types, a text, a sender message or an unbroken
    list.
    */
  ghost predicate Sendable(m: Message) {
    && |m.request| + 6 < 0x8000_0000 && m.kind <= 3
    && (m.raw == TEXT || m.raw == SENDER || m.raw == LIST)
    && (m.raw == LIST ==> ListCodec.Parse(m.request).Some?)
  }

  ghost predicate AllSendable(messages: seq<Message>) {
    forall m :: m in messages ==> Sendable(m)
  }

  ghost function Frames(messages: seq<Message>): bytes
    requires AllSendable(messages)
  {
    if messages == [] then []
    else
      assert messages[0] in messages;
      Frame(messages[0].kind, messages[0].raw, messages[0].request) + Frames(messages[1..])
  }

  function Requests(messages: seq<Message>): seq<bytes> {
    if messages == [] then [] else [messages[0].request] + Requests(messages[1..])
  }

  ghost predicate NoneContainsTerm(messages: seq<Message>) {
    forall i :: 0 <= i < |messages| ==> !Contains(messages[i].request, TERM)
  }

  /** One frame in front of anything: the first content dispatched, and what follows if the request is whole. */
  lemma ScanOneFrame(m: Message, rest: bytes, last: bytes)
    requires Sendable(m)
    ensures var out := Scan(ParseOne, Frame(m.kind, m.raw, m.request) + rest, last);
            && out != []
            && (Contains(m.request, TERM) ==> |out[0]| < |m.request|)
            && (!Contains(m.request, TERM) ==> out == [m.request] + Scan(ParseOne, rest, m.request))
  {
    var Message(kind, raw, r) := m;
    var buf := Frame(kind, raw, r) + rest;
    FrameIsParsed(kind, raw, r, rest);
    assert r[..|r|] == r;
    assert |Frame(kind, raw, r)| == |r| + 14 && buf[|r| + 14..] == rest;
  }

  /**
    Scanning the concatenation of frames gives back the requests, in order and to the last byte, exactly if none
    contains the tail bytes.
    */
  lemma {:induction false} ScanInvertsFrames(messages: seq<Message>, last: bytes)
    requires AllSendable(messages)
    ensures Scan(ParseOne, Frames(messages), last) == Requests(messages) <==> NoneContainsTerm(messages)
  {
    if messages != [] {
      var r, rest := messages[0].request, messages[1..];
      assert messages[0] in messages;
      ScanOneFrame(messages[0], Frames(rest), last);
      ScanInvertsFrames(rest, r);
      var out := Scan(ParseOne, Frames(messages), last);
      if Contains(r, TERM) {
        FirstDiffers(out, out[0], r, Requests(messages));
      } else {
        TailsDecide(out, Requests(messages), r, Scan(ParseOne, Frames(rest), r), Requests(rest));
      }
    }
  }

  lemma FirstDiffers(a: seq<bytes>, x: bytes, y: bytes, b: seq<bytes>)
    requires |a| > 0 && a[0] == x && |b| > 0 && b[0] == y && |x| < |y|
    ensures a != b
  {}

  lemma TailsDecide(a: seq<bytes>, b: seq<bytes>, x: bytes, s: seq<bytes>, t: seq<bytes>)
    requires a == [x] + s && b == [x] + t
    ensures a == b <==> s == t
  {
    assert a[1..] == s && b[1..] == t;
  }

  // --------------------------------------------------- buffers without frames

  /** What does not occur in a text does not occur behind any position of it. */
  lemma NotBehind(s: bytes, p: bytes, i: nat)
    requires !Contains(s, p) && i <= |s|
    ensures !Contains(s[i..], p)
  {
    FindFromFirst(s, p, 0);
    FindFromFirst(s[i..], p, 0);
    var r := Find(s[i..], p);
    if r != -1 { OccursShift(s[..i], s[i..], p, r); }
    assert s[..i] + s[i..] == s;
  }

  /** Neither head nor tail: the previous content is dispatched again, once for every three bytes begun. */
  lemma {:induction false} StrayBytesRepeat(buf: bytes, last: bytes)
    requires !Contains(buf, HEAD) && !Contains(buf, TERM)
    ensures |Scan(ParseOne, buf, last)| == (|buf| + 2) / 3
    ensures forall c :: c in Scan(ParseOne, buf, last) ==> c == last
    decreases |buf|
  {
    if |buf| > 3 {
      NotBehind(buf, HEAD, 3);
      NotBehind(buf, TERM, 3);
      StrayBytesRepeat(buf[3..], last);
    }
  }

  /** A tail in front of the head: the content is all that follows the head, and what is consumed ends with the tail. */
  lemma TailBeforeHead(buf: bytes)
    requires 0 <= Find(buf, TERM) < Find(buf, HEAD)
    ensures var (h, t) := (Find(buf, HEAD), Find(buf, TERM));
            h + 4 <= |buf| && ParseOne(buf) == Parsed(Content(buf[h + 4..]), t + 4)
  {
    FindFromFirst(buf, HEAD, 0);
  }

  /** A head without a tail: nothing is dispatched, the rest is pending. */
  lemma HeadAloneIsPending(buf: bytes, last: bytes)
    requires Contains(buf, HEAD) && !Contains(buf, TERM)
    ensures Scan(ParseOne, buf, last) == []
  {}

  // ----------------------------------------------------------- sender messages

  const COLONS: bytes := [0x3A, 0x3A]

  /** The request that the sender form of pickle_message frames. */
  function WithSender(addr: bytes, message: bytes): bytes {
    COLONS + addr + COLONS + message
  }

  /** Type, length, raw type and two colons come first, eight bytes; the sender ends at the next two colons. */
  function SenderEnd(body: bytes): int { FindFrom(body, COLONS, MINIMUM_LEN + 3) }

  /** The sender that format_message prints, or None for "sender broke". */
  function SenderOf(body: bytes): Option<bytes> {
    if SenderEnd(body) == -1 then None
    else Some(Substr(body, MINIMUM_LEN + 3, SenderEnd(body) - MINIMUM_LEN - 3))
  }

  /** A C string: what comes before the first NUL. */
  function UpToNul(s: bytes): bytes { s[..ListCodec.Run(s, 0)] }

  /** The message that format_message prints beside a sender. */
  function SenderText(body: bytes): bytes
    requires SenderEnd(body) + 2 <= |body|
  {
    UpToNul(body[SenderEnd(body) + 2..])
  }

  /** The body of a frame: all but head and tail. */
  function Body(kind: byte, raw: byte, request: bytes): bytes
    requires |request| + 6 < 0x8000_0000
  {
    [kind] + LittleEndian(|request| + 6) + [raw] + request
  }

  /** Two colons begin in addr followed by colons exactly where they begin in addr with one. */
  lemma ColonsInside(addr: bytes, message: bytes, i: nat)
    requires i < |addr|
    ensures OccursAt(addr + COLONS + message, COLONS, i) <==> OccursAt(addr + [0x3A], COLONS, i)
  {
    var s, t := addr + COLONS + message, addr + [0x3A];
    assert s[..|addr| + 1] == t;
    assert s[i..i + 2] == t[i..i + 2];
  }

  /**
    Behind any eight bytes, the address runs to the end exactly if it has no two adjacent colons and does not end in
    one.
    */
  lemma SenderEndsAt(p: bytes, addr: bytes, message: bytes)
    requires |p| == 8
    ensures var e := SenderEnd(p + (addr + COLONS + message));
            8 <= e <= 8 + |addr| && (e == 8 + |addr| <==> !Contains(addr + [0x3A], COLONS))
  {
    var q, n := addr + COLONS + message, |addr|;
    assert q[n..n + 2] == COLONS;
    OccursShift(p, q, COLONS, n);
    FindFromFirst(p + q, COLONS, 8);
    var e := SenderEnd(p + q);
    FindFromFirst(addr + [0x3A], COLONS, 0);
    if e < 8 + n {
      OccursShift(p, q, COLONS, e - 8);
      ColonsInside(addr, message, e - 8);
    } else {
      forall i | 0 <= i < n ensures !OccursAt(addr + [0x3A], COLONS, i) {
        assert !OccursAt(p + q, COLONS, 8 + i);
        OccursShift(p, q, COLONS, i);
        ColonsInside(addr, message, i);
      }
    }
  }

  lemma SenderParts(p: bytes, addr: bytes, message: bytes)
    requires |p| == 8
    ensures var body := p + (addr + COLONS + message);
            && body[8..8 + |addr|] == addr && body[8 + |addr| + 2..] == message
            && |body| == 8 + |addr| + 2 + |message|
  {}

  /** A text up to its first NUL: the whole text exactly if it has none. */
  lemma CutAtNul(s: bytes)
    ensures var r := UpToNul(s); r <= s && 0 !in r && (r == s <==> 0 !in s) && (r != s ==> s[|r|] == 0)
  {}

  /**
    The sender comes back whole, and the message up to its first NUL, exactly if the address has no two adjacent
    colons and does not end in one; both come back whole exactly if the message has no NUL, too.
    */
  lemma SenderRoundTrips(kind: byte, addr: bytes, message: bytes)
    requires |WithSender(addr, message)| + 6 < 0x8000_0000
    ensures var body := Body(kind, SENDER, WithSender(addr, message));
            && SenderEnd(body) + 2 <= |body|
            && (SenderOf(body) == Some(addr) <==> !Contains(addr + [0x3A], COLONS))
            && (SenderOf(body) == Some(addr) ==> SenderText(body) == UpToNul(message))
            && (SenderOf(body) == Some(addr) && SenderText(body) == message <==>
                  !Contains(addr + [0x3A], COLONS) && 0 !in message)
  {
    CutAtNul(message);
    var p := [kind] + LittleEndian(|WithSender(addr, message)| + 6) + [SENDER] + COLONS;
    var body := Body(kind, SENDER, WithSender(addr, message));
    assert body == p + (addr + COLONS + message);
    SenderEndsAt(p, addr, message);
    SenderParts(p, addr, message);
    assert |SenderOf(body).value| == SenderEnd(body) - 8;
  }
}
