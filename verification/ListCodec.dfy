/** List messages: rows of fields joined by "," and closed by ";", and the table they are printed as. */
module ListCodec {
  import opened Arithmetic
  import opened Options
  import opened Text

  const COMMA: byte := 0x2C
  const SEMICOLON: byte := 0x3B
  const BAR: byte := 0x7C

  /** A table: header fields, and the entries row by row. */
  datatype Table = Table(header: seq<bytes>, entries: seq<bytes>)

  // ----------------------------------------------------------------- splitting

  /** Length of the longest prefix without d. */
  function Run(s: bytes, d: byte): (n: nat)
    ensures n <= |s| && (forall i :: 0 <= i < n ==> s[i] != d) && (n < |s| ==> s[n] == d)
  {
    if s == [] || s[0] == d then 0 else 1 + Run(s[1..], d)
  }

  /** The maximal runs without the delimiter. */
  function Split(s: bytes, d: byte): seq<bytes>
    decreases |s|
  {
    if s == [] then []
    else if s[0] == d then Split(s[1..], d)
    else [s[..Run(s, d)]] + Split(s[Run(s, d)..], d)
  }

  /** StringUtil::split by a one-character token, appending to `ret` and returning the number of parts. */
  method SplitInto(s: bytes, d: byte, ret: seq<bytes>) returns (out: seq<bytes>, count: nat)
    ensures out == ret + Split(s, d) && count == |Split(s, d)|
  {
    out := ret;
    var cur := 0;
    ghost var rest := SplitFrom(s, d, 0);
    while true
      invariant 0 <= cur
      invariant rest == SplitFrom(s, d, cur)
      invariant ret + SplitFrom(s, d, 0) == out + rest
      decreases |s| - cur
    {
      SkipDelimiters(s, d, cur);
      cur := FirstNotOf(s, d, cur);
      if cur == |s| { break; }
      var to := FirstOf(s, d, cur);
      rest := SplitFrom(s, d, to + 1);
      Regroup(out, s[cur..to], rest);
      out := out + [s[cur..to]];
      cur := to + 1;
    }
    SplitFromIsSplit(s, d, 0);
    assert s[0..] == s;
    count := |out| - |ret|;
  }

  /** Split of what lies behind a position, by the searches the source makes. */
  function SplitFrom(s: bytes, d: byte, i: nat): seq<bytes>
    decreases |s| - i
  {
    if i >= |s| then []
    else if s[i] == d then SplitFrom(s, d, i + 1)
    else [s[i..FirstOf(s, d, i)]] + SplitFrom(s, d, FirstOf(s, d, i) + 1)
  }

  /** find_first_not_of, with the length standing for npos. */
  function FirstNotOf(s: bytes, d: byte, i: nat): (r: nat)
    ensures r <= |s| && (r < |s| ==> i <= r && s[r] != d)
    decreases |s| - i
  {
    if i >= |s| then |s| else if s[i] != d then i else FirstNotOf(s, d, i + 1)
  }

  /** find_first_of, with the length standing for npos. */
  function FirstOf(s: bytes, d: byte, i: nat): (r: nat)
    requires i <= |s|
    ensures i <= r <= |s| && (forall k :: i <= k < r ==> s[k] != d) && (r < |s| ==> s[r] == d)
    decreases |s| - i
  {
    if i == |s| || s[i] == d then i else FirstOf(s, d, i + 1)
  }

  lemma {:induction false} SkipDelimiters(s: bytes, d: byte, i: nat)
    ensures SplitFrom(s, d, i) == SplitFrom(s, d, FirstNotOf(s, d, i))
    decreases |s| - i
  {
    if i < |s| && s[i] == d { SkipDelimiters(s, d, i + 1); }
  }

  lemma SkipOne(s: bytes, d: byte, i: nat)
    requires i < |s| && s[i] == d
    ensures Split(s[i..], d) == Split(s[i + 1..], d)
  {
    assert s[i..][1..] == s[i + 1..];
  }

  lemma {:induction false} SplitFromIsSplit(s: bytes, d: byte, i: nat)
    requires i <= |s|
    ensures SplitFrom(s, d, i) == Split(s[i..], d)
    decreases |s| - i
  {
    if i < |s| {
      if s[i] == d {
        SkipOne(s, d, i);
        SplitFromIsSplit(s, d, i + 1);
      } else {
        var to := FirstOf(s, d, i);
        if to < |s| { SplitFromIsSplit(s, d, to + 1); }
        TakePart(s, d, i, to);
      }
    }
  }

  lemma RunIs(s: bytes, d: byte, n: nat)
    requires n <= |s| && (forall i :: 0 <= i < n ==> s[i] != d) && (n < |s| ==> s[n] == d)
    ensures Run(s, d) == n
  {}

  lemma TakePart(s: bytes, d: byte, i: nat, to: nat)
    requires i < to <= |s| && (forall k :: i <= k < to ==> s[k] != d) && (to < |s| ==> s[to] == d)
    ensures Split(s[i..], d) == [s[i..to]] + if to < |s| then Split(s[to + 1..], d) else []
  {
    RunIs(s[i..], d, to - i);
    assert s[i..][..to - i] == s[i..to] && s[i..][to - i..] == s[to..];
    if to < |s| { assert s[to..][0] == d && s[to..][1..] == s[to + 1..]; } else { assert s[to..] == []; }
  }

  /** Parts are never empty, never contain the delimiter, and hold only bytes of the text. */
  lemma {:induction false} PartsAreClean(s: bytes, d: byte, p: bytes)
    requires p in Split(s, d)
    ensures p != [] && d !in p && forall b :: b in p ==> b in s
    decreases |s|
  {
    if s != [] {
      if s[0] == d {
        PartsAreClean(s[1..], d, p);
      } else if p != s[..Run(s, d)] {
        PartsAreClean(s[Run(s, d)..], d, p);
      }
    }
  }

  // ------------------------------------------------------------------ printing

  function Join(fields: seq<bytes>, d: byte): bytes
    requires fields != []
  {
    if |fields| == 1 then fields[0] else fields[0] + [d] + Join(fields[1..], d)
  }

  /** Whole rows of w entries, each joined and closed; what does not fill a row is dropped. */
  function Rows(entries: seq<bytes>, w: nat): bytes
    requires w > 0
  {
    if |entries| < w then [] else Join(entries[..w], COMMA) + [SEMICOLON] + Rows(entries[w..], w)
  }

  function Print(t: Table): bytes
    requires t.header != []
  {
    Join(t.header, COMMA) + [SEMICOLON] + Rows(t.entries, |t.header|)
  }

  // ------------------------------------------------------------------- parsing

  function ParseRows(lines: seq<bytes>, w: nat): Option<seq<bytes>> {
    if lines == [] then Some([])
    else
      var cells := Split(lines[0], COMMA);
      if |cells| != w then None
      else match ParseRows(lines[1..], w)
           case None => None
           case Some(more) => Some(cells + more)
  }

  /** The list branch of format_message; None for "[null]" and "[broken]" (and for a text without any line). */
  function Parse(s: bytes): Option<Table> {
    var lines := Split(s, SEMICOLON);
    if lines == [] then None
    else
      var header := Split(lines[0], COMMA);
      if header == [] then None
      else match ParseRows(lines[1..], |header|)
           case None => None
           case Some(entries) => Some(Table(header, entries))
  }

  lemma {:induction false} RowsFailExactly(lines: seq<bytes>, w: nat)
    ensures ParseRows(lines, w).None? <==> exists i :: 0 <= i < |lines| && |Split(lines[i], COMMA)| != w
  {
    if lines != [] {
      RowsFailExactly(lines[1..], w);
      assert forall i :: 1 <= i < |lines| ==> lines[i] == lines[1..][i - 1];
      if ParseRows(lines[1..], w).None? {
        var i :| 0 <= i < |lines[1..]| && |Split(lines[1..][i], COMMA)| != w;
        assert lines[i + 1] == lines[1..][i];
      }
    }
  }

  /**
    A list is broken exactly if it has no line or no header field, or some row has not as many fields as the header.
    */
  lemma ParseFailsExactly(s: bytes)
    ensures var lines := Split(s, SEMICOLON);
            Parse(s).None? <==>
              || lines == [] || Split(lines[0], COMMA) == []
              || exists i :: 1 <= i < |lines| && |Split(lines[i], COMMA)| != |Split(lines[0], COMMA)|
  {
    var lines := Split(s, SEMICOLON);
    if lines != [] {
      var w := |Split(lines[0], COMMA)|;
      RowsFailExactly(lines[1..], w);
      assert forall i :: 1 <= i < |lines| ==> lines[i] == lines[1..][i - 1];
      if j :| 0 <= j < |lines[1..]| && |Split(lines[1..][j], COMMA)| != w { assert lines[j + 1] == lines[1..][j]; }
    }
  }

  // ---------------------------------------------------------------- round trip

  ghost predicate CleanField(f: bytes) { f != [] && COMMA !in f && SEMICOLON !in f }

  ghost predicate CleanFields(fs: seq<bytes>) { forall i :: 0 <= i < |fs| ==> CleanField(fs[i]) }

  /** Nonempty fields without delimiters, and whole rows. */
  ghost predicate Clean(t: Table)
    requires t.header != []
  {
    CleanFields(t.header) && CleanFields(t.entries) && |t.entries| % |t.header| == 0
  }

  lemma SplitPrefix(a: bytes, d: byte, rest: bytes)
    requires a != [] && d !in a
    ensures Split(a + [d] + rest, d) == [a] + Split(rest, d)
    ensures Split(a, d) == [a]
  {
    var s := a + [d] + rest;
    RunIs(s, d, |a|);
    RunIs(a, d, |a|);
    assert s[..|a|] == a && s[|a|..] == [d] + rest && ([d] + rest)[1..] == rest;
    assert a[..|a|] == a && a[|a|..] == [];
  }

  lemma {:induction false} SplitInvertsJoin(fs: seq<bytes>)
    requires fs != [] && CleanFields(fs)
    ensures Split(Join(fs, COMMA), COMMA) == fs
    ensures Join(fs, COMMA) != [] && SEMICOLON !in Join(fs, COMMA)
  {
    assert CleanField(fs[0]);
    if |fs| == 1 {
      SplitPrefix(fs[0], COMMA, []);
    } else {
      SplitInvertsJoin(fs[1..]);
      SplitPrefix(fs[0], COMMA, Join(fs[1..], COMMA));
    }
  }

  lemma {:induction false} ParseInvertsRows(entries: seq<bytes>, w: nat, k: nat)
    requires w > 0 && CleanFields(entries) && |entries| == w * k
    ensures ParseRows(Split(Rows(entries, w), SEMICOLON), w) == Some(entries)
    decreases k
  {
    if k > 0 {
      TimesAtLeast(w, k);
      var row, rest := entries[..w], entries[w..];
      assert |rest| == w * (k - 1);
      ParseInvertsRows(rest, w, k - 1);
      FirstRow(row, rest, w);
      assert row + rest == entries;
    }
  }

  lemma FirstRow(row: seq<bytes>, rest: seq<bytes>, w: nat)
    requires w > 0 && |row| == w && CleanFields(row)
    requires ParseRows(Split(Rows(rest, w), SEMICOLON), w).Some?
    ensures ParseRows(Split(Rows(row + rest, w), SEMICOLON), w) ==
            Some(row + ParseRows(Split(Rows(rest, w), SEMICOLON), w).value)
  {
    SplitInvertsJoin(row);
    SplitPrefix(Join(row, COMMA), SEMICOLON, Rows(rest, w));
    assert (row + rest)[..w] == row && (row + rest)[w..] == rest;
    var lines := Split(Rows(row + rest, w), SEMICOLON);
    assert lines[0] == Join(row, COMMA) && lines[1..] == Split(Rows(rest, w), SEMICOLON);
  }

  /** What a list message gives back is always clean, whatever was put in. */
  lemma {:induction false} ParsedRowsAreClean(lines: seq<bytes>, w: nat)
    requires w > 0 && ParseRows(lines, w).Some?
    requires forall i :: 0 <= i < |lines| ==> SEMICOLON !in lines[i]
    ensures CleanFields(ParseRows(lines, w).value) && |ParseRows(lines, w).value| == w * |lines|
  {
    if lines != [] {
      var cells := Split(lines[0], COMMA);
      forall i | 0 <= i < |cells| ensures CleanField(cells[i]) { PartsAreClean(lines[0], COMMA, cells[i]); }
      ParsedRowsAreClean(lines[1..], w);
    }
  }

  lemma ParsedIsClean(s: bytes)
    requires Parse(s).Some?
    ensures Parse(s).value.header != [] && Clean(Parse(s).value)
  {
    var lines := Split(s, SEMICOLON);
    forall i | 0 <= i < |lines| ensures SEMICOLON !in lines[i] { PartsAreClean(s, SEMICOLON, lines[i]); }
    var t := Parse(s).value;
    forall i | 0 <= i < |t.header| ensures CleanField(t.header[i]) { PartsAreClean(lines[0], COMMA, t.header[i]); }
    ParsedRowsAreClean(lines[1..], |t.header|);
    RemainderIs(|t.entries|, |t.header|, |lines[1..]|, 0);
  }

  lemma CleanTableParses(t: Table)
    requires t.header != [] && Clean(t)
    ensures Parse(Print(t)) == Some(t)
  {
    PrintedLines(t);
    PrintedRowsParse(t.entries, |t.header|);
    ParseLines(Print(t), Join(t.header, COMMA), Split(Rows(t.entries, |t.header|), SEMICOLON), t);
  }

  lemma PrintedLines(t: Table)
    requires t.header != [] && CleanFields(t.header)
    ensures Split(Print(t), SEMICOLON) == [Join(t.header, COMMA)] + Split(Rows(t.entries, |t.header|), SEMICOLON)
    ensures Split(Join(t.header, COMMA), COMMA) == t.header
  {
    SplitInvertsJoin(t.header);
    SplitPrefix(Join(t.header, COMMA), SEMICOLON, Rows(t.entries, |t.header|));
  }

  lemma PrintedRowsParse(entries: seq<bytes>, w: nat)
    requires w > 0 && CleanFields(entries) && |entries| % w == 0
    ensures ParseRows(Split(Rows(entries, w), SEMICOLON), w) == Some(entries)
  {
    ParseInvertsRows(entries, w, |entries| / w);
  }

  /** A text whose lines are a header and rows that parse is the table of both. */
  lemma ParseLines(s: bytes, first: bytes, rest: seq<bytes>, t: Table)
    requires Split(s, SEMICOLON) == [first] + rest
    requires Split(first, COMMA) == t.header != [] && ParseRows(rest, |t.header|) == Some(t.entries)
    ensures Parse(s) == Some(t)
  {
    assert ([first] + rest)[0] == first && ([first] + rest)[1..] == rest;
  }

  /** A list message round-trips exactly if its fields are nonempty and free of delimiters and its rows are whole. */
  lemma ListRoundTrips(t: Table)
    requires t.header != []
    ensures Parse(Print(t)) == Some(t) <==> Clean(t)
  {
    if Clean(t) { CleanTableParses(t); }
    if Parse(Print(t)) == Some(t) { ParsedIsClean(Print(t)); }
  }
}
