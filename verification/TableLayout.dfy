/** The loops that print a list message, read it back and lay it out as a table of aligned columns. */
module TableLayout {
  import opened Arithmetic
  import opened Text
  import opened ListCodec
  import opened Options

  // ------------------------------------------------------------------ printing

  lemma {:induction false} JoinSnoc(fs: seq<bytes>, x: bytes, d: byte)
    requires fs != []
    ensures Join(fs + [x], d) == Join(fs, d) + ([d] + x)
  {
    if |fs| > 1 {
      JoinSnoc(fs[1..], x, d);
      assert (fs + [x])[1..] == fs[1..] + [x];
    }
  }

  /** Appends w fields, the first as it is and the others behind a comma. */
  method AppendJoined(ret: bytes, fields: seq<bytes>, start: nat, w: nat) returns (out: bytes, i: nat)
    requires w > 0 && start + w <= |fields|
    ensures out == ret + Join(fields[start..start + w], COMMA) && i == start + w
  {
    out := ret + fields[start];
    i := start + 1;
    while i < start + w
      invariant start < i <= start + w
      invariant out == ret + Join(fields[start..i], COMMA)
    {
      JoinSnoc(fields[start..i], fields[i], COMMA);
      assert fields[start..i] + [fields[i]] == fields[start..i + 1];
      out := out + ([COMMA] + fields[i]);
      i := i + 1;
    }
  }

  lemma NextRow(ret: bytes, entries: seq<bytes>, i: nat, w: nat)
    requires w > 0 && i + w <= |entries|
    ensures ret + Rows(entries[i..], w) == ret + Join(entries[i..i + w], COMMA) + [SEMICOLON] +
              Rows(entries[i + w..], w)
  {
    assert entries[i..][..w] == entries[i..i + w] && entries[i..][w..] == entries[i + w..];
  }

  /** The nested loops of the list form of pickle_message. */
  method PrintList(t: Table) returns (ret: bytes)
    requires t.header != []
    ensures ret == Print(t)
  {
    var w, i := |t.header|, 0;
    assert t.header[0..w] == t.header && t.entries[0..] == t.entries;
    ret, i := AppendJoined([], t.header, 0, w);
    ret, i := ret + [SEMICOLON], 0;
    while i + w <= |t.entries|
      invariant i <= |t.entries|
      invariant Print(t) == ret + Rows(t.entries[i..], w)
    {
      NextRow(ret, t.entries, i, w);
      ret, i := AppendJoined(ret, t.entries, i, w);
      ret := ret + [SEMICOLON];
    }
  }

  // -------------------------------------------------------------------- layout

  function Max(a: nat, b: nat): nat { if a > b then a else b }

  /** Width of column j: the widest among the header's and the entries of whole rows. */
  function Widest(header: nat, content: seq<bytes>, w: nat, j: nat): nat
    requires j < w
  {
    if |content| < w then header
    else Max(Widest(header, content[..|content| - w], w, j), |content[|content| - w + j]|)
  }

  lemma WidestWithRow(header: nat, content: seq<bytes>, cells: seq<bytes>, j: nat)
    requires j < |cells|
    ensures Widest(header, content + cells, |cells|, j) ==
            Max(Widest(header, content, |cells|, j), |(content + cells)[|content| + j]|)
  {
    assert (content + cells)[..|content|] == content;
  }

  /** It is the least width into which the column's texts fit. */
  lemma {:induction false} WidestIsLeast(header: nat, content: seq<bytes>, w: nat, j: nat, k: nat, bound: nat)
    requires j < w && |content| == w * k
    ensures Widest(header, content, w, j) <= bound <==>
            header <= bound && forall i {:trigger content[i]} :: 0 <= i < |content| && i % w == j ==>
              |content[i]| <= bound
    decreases k
  {
    if k > 0 {
      TimesAtLeast(w, k);
      var n := |content| - w;
      var less := content[..n];
      assert n == w * (k - 1);
      WidestIsLeast(header, less, w, j, k - 1, bound);
      assert forall i :: 0 <= i < n ==> less[i] == content[i];
      forall i | n <= i < |content| ensures i % w == i - n { RemainderIs(i, w, k - 1, i - n); }
      assert (n + j) % w == j;
      if Widest(header, content, w, j) <= bound {
        forall i | 0 <= i < |content| && i % w == j ensures |content[i]| <= bound {
          if i < n { assert less[i] == content[i]; }
        }
      }
    }
  }

  /** Layout of a table: each column two wider than its widest text. */
  ghost predicate IsLayout(t: Table, layout: seq<nat>) {
    && t.header != [] && |layout| == |t.header|
    && forall j :: 0 <= j < |layout| ==> layout[j] == Widest(|t.header[j]|, t.entries, |t.header|, j) + 2
  }

  function Prepend(done: seq<bytes>, more: Option<seq<bytes>>): Option<seq<bytes>> {
    match more case None => None case Some(m) => Some(done + m)
  }

  lemma PrependNothing(more: Option<seq<bytes>>)
    ensures Prepend([], more) == more
  {
    if more.Some? { assert [] + more.value == more.value; }
  }

  lemma ParseNextRow(done: seq<bytes>, lines: seq<bytes>, i: nat, w: nat)
    requires i < |lines|
    ensures var cells := Split(lines[i], COMMA);
            Prepend(done, ParseRows(lines[i..], w)) ==
            if |cells| != w then None else Prepend(done + cells, ParseRows(lines[i + 1..], w))
  {
    assert lines[i..][0] == lines[i] && lines[i..][1..] == lines[i + 1..];
    match ParseRows(lines[i + 1..], w)
    case None =>
    case Some(more) => assert done + (Split(lines[i], COMMA) + more) == done + Split(lines[i], COMMA) + more;
  }

  /** One row's share of the layout loop. */
  method Widen(layout: seq<nat>, header: seq<bytes>, content: seq<bytes>, cells: seq<bytes>) returns (wider: seq<nat>)
    requires |layout| == |header| == |cells| > 0
    requires forall j :: 0 <= j < |layout| ==> layout[j] == Widest(|header[j]|, content, |header|, j)
    ensures |wider| == |header|
    ensures forall j :: 0 <= j < |wider| ==> wider[j] == Widest(|header[j]|, content + cells, |header|, j)
  {
    wider := layout;
    var all := content + cells;
    for j := 0 to |header|
      invariant |wider| == |header|
      invariant forall k :: j <= k < |header| ==> wider[k] == Widest(|header[k]|, content, |header|, k)
      invariant forall k :: 0 <= k < j ==> wider[k] == Widest(|header[k]|, all, |header|, k)
    {
      WidestWithRow(|header[j]|, content, cells, j);
      wider := wider[j := Max(wider[j], |all[|content| + j]|)];
    }
  }

  /** Reads the rows behind the header, or finds one of another length. */
  method ReadRows(lines: seq<bytes>, header: seq<bytes>, initial: seq<nat>)
    returns (content: Option<seq<bytes>>, layout: seq<nat>)
    requires |lines| > 0 && |header| == |initial| > 0
    requires forall j :: 0 <= j < |header| ==> initial[j] == |header[j]|
    ensures content == ParseRows(lines[1..], |header|)
    ensures |layout| == |header|
    ensures content.Some? ==> forall j :: 0 <= j < |header| ==>
              layout[j] == Widest(|header[j]|, content.value, |header|, j)
  {
    layout := initial;
    var w := |header|;
    var done: seq<bytes> := [];
    PrependNothing(ParseRows(lines[1..], w));
    for i := 1 to |lines|
      invariant |layout| == w
      invariant forall j :: 0 <= j < w ==> layout[j] == Widest(|header[j]|, done, w, j)
      invariant ParseRows(lines[1..], w) == Prepend(done, ParseRows(lines[i..], w))
    {
      ParseNextRow(done, lines, i, w);
      var more, cnt := SplitInto(lines[i], COMMA, done);
      if cnt != w { return None, layout; }
      layout := Widen(layout, header, done, more[|done|..]);
      done := more;
    }
    assert lines[|lines|..] == [] && done + [] == done;
    content := Some(done);
  }

  method Sizes(header: seq<bytes>) returns (layout: seq<nat>)
    ensures |layout| == |header| && forall j :: 0 <= j < |header| ==> layout[j] == |header[j]|
  {
    layout := [];
    for i := 0 to |header|
      invariant |layout| == i && forall j :: 0 <= j < i ==> layout[j] == |header[j]|
    {
      layout := layout + [|header[i]|];
    }
  }

  method Loosen(tight: seq<nat>) returns (layout: seq<nat>)
    ensures |layout| == |tight| && forall j :: 0 <= j < |tight| ==> layout[j] == tight[j] + 2
  {
    layout := tight;
    for i := 0 to |tight|
      invariant |layout| == |tight|
      invariant forall j :: 0 <= j < i ==> layout[j] == tight[j] + 2
      invariant forall j :: i <= j < |tight| ==> layout[j] == tight[j]
    {
      layout := layout[i := layout[i] + 2];
    }
  }

  /** The list branch of format_message up to printing; a text without any line counts as broken. */
  method ReadTable(s: bytes) returns (table: Option<Table>, layout: seq<nat>)
    ensures table == Parse(s)
    ensures table.Some? ==> IsLayout(table.value, layout)
  {
    table, layout := None, [];
    var lines, _ := SplitInto(s, SEMICOLON, []);
    assert lines == Split(s, SEMICOLON);
    if lines == [] { return; }
    var header, w := SplitInto(lines[0], COMMA, []);
    assert header == Split(lines[0], COMMA);
    if w == 0 { return; }
    layout := Sizes(header);
    var content;
    content, layout := ReadRows(lines, header, layout);
    if content == None { return; }
    layout := Loosen(layout);
    table := Some(Table(header, content.value));
  }

  // --------------------------------------------------------------- the columns

  /** Blanks before and behind a text, by truncation of reals. */
  function PadBefore(slack: nat): nat { (slack as real / 2.0).Floor }

  function PadBehind(slack: nat): nat { (slack as real / 2.0 + 0.9).Floor }

  /** The two paddings sum to the slack. */
  lemma PadsSum(slack: nat)
    ensures PadBefore(slack) + PadBehind(slack) == slack
  {
    var h := slack / 2;
    if slack == 2 * h {
      assert slack as real / 2.0 == h as real;
      assert (h as real + 0.9).Floor == h;
    } else {
      assert slack as real / 2.0 == h as real + 0.5;
      assert (h as real + 0.5 + 0.9).Floor == h + 1;
    }
  }

  function Cell(text: bytes, width: nat): bytes
    requires |text| <= width
  {
    [BAR] + Spaces(PadBefore(width - |text|)) + text + Spaces(PadBehind(width - |text|))
  }

  ghost predicate Fits(cells: seq<bytes>, layout: seq<nat>) {
    |cells| == |layout| && forall j :: 0 <= j < |cells| ==> |cells[j]| <= layout[j]
  }

  /** The first j cells of a printed row. */
  ghost function RowText(cells: seq<bytes>, layout: seq<nat>, j: nat): bytes
    requires Fits(cells, layout) && j <= |cells|
  {
    if j == 0 then [] else RowText(cells, layout, j - 1) + Cell(cells[j - 1], layout[j - 1])
  }

  function Offset(layout: seq<nat>, j: nat): nat
    requires j <= |layout|
  {
    if j == 0 then 0 else Offset(layout, j - 1) + 1 + layout[j - 1]
  }

  /** Bar j stands at the same offset in every row, whatever the row's texts. */
  lemma {:induction false} BarsAlign(cells: seq<bytes>, layout: seq<nat>, j: nat)
    requires Fits(cells, layout) && j <= |cells|
    ensures |RowText(cells, layout, j)| == Offset(layout, j)
  {
    if j > 0 {
      BarsAlign(cells, layout, j - 1);
      PadsSum(layout[j - 1] - |cells[j - 1]|);
    }
  }

  /** A column is two wider than its widest text, which is its header or one of its entries. */
  lemma ColumnIsTwoWider(t: Table, layout: seq<nat>, n: nat, j: nat)
    requires IsLayout(t, layout) && |t.entries| == |t.header| * n && j < |t.header|
    ensures |t.header[j]| + 2 <= layout[j]
    ensures forall i {:trigger t.entries[i]} ::
              0 <= i < |t.entries| && i % |t.header| == j ==> |t.entries[i]| + 2 <= layout[j]
    ensures || |t.header[j]| + 2 == layout[j]
            || exists i :: 0 <= i < |t.entries| && i % |t.header| == j && |t.entries[i]| + 2 == layout[j]
  {
    var width := layout[j] - 2;
    WidestIsLeast(|t.header[j]|, t.entries, |t.header|, j, n, width);
    if width > 0 {
      WidestIsLeast(|t.header[j]|, t.entries, |t.header|, j, n, width - 1);
    }
  }

  /** A table read from a text fits its layout, header and rows alike. */
  lemma LayoutFits(t: Table, layout: seq<nat>, n: nat, k: nat)
    requires IsLayout(t, layout) && |t.entries| == |t.header| * n && k < n
    ensures |t.header| * k + |t.header| <= |t.entries|
    ensures Fits(t.header, layout) && Fits(t.entries[|t.header| * k..|t.header| * k + |t.header|], layout)
  {
    var w := |t.header|;
    TimesAtLeast(w, n - k);
    assert w * (n - k) == w * n - w * k;
    HeaderFits(t, layout, n);
    forall j | 0 <= j < w ensures |t.entries[w * k + j]| <= layout[j] {
      RemainderIs(w * k + j, w, k, j);
      WidestIsLeast(|t.header[j]|, t.entries, w, j, n, layout[j]);
    }
  }

  lemma HeaderFits(t: Table, layout: seq<nat>, n: nat)
    requires IsLayout(t, layout) && |t.entries| == |t.header| * n
    ensures Fits(t.header, layout)
  {
    forall j | 0 <= j < |t.header| ensures |t.header[j]| <= layout[j] {
      WidestIsLeast(|t.header[j]|, t.entries, |t.header|, j, n, layout[j]);
    }
  }

  /** Prints one row, its columns chosen by the running index. */
  method AppendCells(cells: seq<bytes>, from: nat, ghost k: nat, w: nat, layout: seq<nat>) returns (line: bytes, i: nat)
    requires |layout| == w > 0 && from == w * k && from + w <= |cells| && Fits(cells[from..from + w], layout)
    ensures i == from + w
    ensures LineOf(line, cells[from..i], layout)
  {
    ghost var row := cells[from..from + w];
    line, i := [], from;
    while i < from + w
      invariant from <= i <= from + w
      invariant line == RowText(row, layout, i - from)
    {
      RemainderIs(i, w, k, i - from);
      assert cells[i] == row[i - from];
      line := line + Cell(cells[i], layout[i % w]);
      i := i + 1;
    }
    line := line + [BAR];
  }

  // What a printed line shows, byte by byte.

  /** From offset `at` on, a bar, half the slack in blanks, the text, and blanks up to the end of the column. */
  ghost predicate ShowsText(line: bytes, text: bytes, at: nat, width: nat) {
    && |text| <= width && at + 1 + width <= |line| && line[at] == BAR
    && var first := at + 1 + (width - |text|) / 2;
       && line[first..first + |text|] == text
       && (forall k :: at < k < first || first + |text| <= k <= at + width ==> line[k] == 0x20)
  }

  /** Every cell from its offset on, and a bar at the end. */
  ghost predicate ShowsRow(line: bytes, cells: seq<bytes>, layout: seq<nat>) {
    && |cells| == |layout| && |line| == Offset(layout, |layout|) + 1 && line[|line| - 1] == BAR
    && forall j {:trigger layout[j]} :: 0 <= j < |layout| ==> ShowsText(line, cells[j], Offset(layout, j), layout[j])
  }

  lemma CellShows(before: bytes, text: bytes, width: nat)
    requires |text| <= width
    ensures ShowsText(before + Cell(text, width), text, |before|, width)
  {
    var cell := Cell(text, width);
    CellBytes(text, width);
    var line, at := before + cell, 1 + (width - |text|) / 2;
    assert line[|before| + at..|before| + at + |text|] == cell[at..at + |text|];
    forall k | |before| < k < |before| + at || |before| + at + |text| <= k <= |before| + width
      ensures line[k] == 0x20
    {
      assert line[k] == cell[k - |before|];
    }
  }

  lemma CellBytes(text: bytes, width: nat)
    requires |text| <= width
    ensures var cell, at := Cell(text, width), 1 + (width - |text|) / 2;
            && |cell| == 1 + width && cell[0] == BAR && cell[at..at + |text|] == text
            && forall k :: 0 < k < at || at + |text| <= k <= width ==> cell[k] == 0x20
  {
    PadsSum(width - |text|);
    PadIsHalf(width - |text|);
  }

  lemma PadIsHalf(slack: nat)
    ensures PadBefore(slack) == slack / 2
  {
    var h := slack / 2;
    if slack == 2 * h {
      assert slack as real / 2.0 == h as real;
    } else {
      assert slack as real / 2.0 == h as real + 0.5;
    }
  }

  lemma StillShows(line: bytes, more: bytes, text: bytes, at: nat, width: nat)
    requires ShowsText(line, text, at, width)
    ensures ShowsText(line + more, text, at, width)
  {
    var first := at + 1 + (width - |text|) / 2;
    assert (line + more)[first..first + |text|] == line[first..first + |text|];
  }

  lemma {:induction false} RowShows(cells: seq<bytes>, layout: seq<nat>, n: nat, j: nat)
    requires Fits(cells, layout) && j < n <= |cells|
    ensures ShowsText(RowText(cells, layout, n), cells[j], Offset(layout, j), layout[j])
  {
    BarsAlign(cells, layout, n - 1);
    if j == n - 1 {
      CellShows(RowText(cells, layout, j), cells[j], layout[j]);
    } else {
      RowShows(cells, layout, n - 1, j);
      StillShows(RowText(cells, layout, n - 1), Cell(cells[n - 1], layout[n - 1]), cells[j], Offset(layout, j),
        layout[j]);
    }
  }

  lemma LineShows(line: bytes, cells: seq<bytes>, layout: seq<nat>)
    requires LineOf(line, cells, layout)
    ensures ShowsRow(line, cells, layout)
  {
    BarsAlign(cells, layout, |layout|);
    forall j | 0 <= j < |layout|
      ensures ShowsText(line, cells[j], Offset(layout, j), layout[j])
    {
      RowShows(cells, layout, |layout|, j);
      StillShows(RowText(cells, layout, |layout|), [BAR], cells[j], Offset(layout, j), layout[j]);
    }
  }

  ghost predicate LineOf(line: bytes, cells: seq<bytes>, layout: seq<nat>) {
    Fits(cells, layout) && line == RowText(cells, layout, |layout|) + [BAR]
  }

  /** The cells of line k of a printed table of n rows: the header, then the rows. */
  ghost function CellsOf(t: Table, n: nat, k: nat): seq<bytes>
    requires |t.entries| == |t.header| * n && k <= n
  {
    if k == 0 then t.header
    else
      MulMonotone(k, n, |t.header|);
      MulMonotone(k - 1, k, |t.header|);
      t.entries[|t.header| * (k - 1)..|t.header| * k]
  }

  /** All lines of a table are as wide as its columns and their bars. */
  lemma LinesHaveOneWidth(line: bytes, cells: seq<bytes>, layout: seq<nat>)
    requires LineOf(line, cells, layout)
    ensures |line| == Offset(layout, |layout|) + 1
  {
    BarsAlign(cells, layout, |layout|);
  }

  /** The lines so far are those of the header and the first rows. */
  ghost predicate LinesOf(lines: seq<bytes>, t: Table, n: nat, layout: seq<nat>)
    requires |t.entries| == |t.header| * n && |lines| <= n + 1
  {
    forall k {:trigger CellsOf(t, n, k)} :: 0 <= k < |lines| ==> LineOf(lines[k], CellsOf(t, n, k), layout)
  }

  lemma CellsOfRow(t: Table, n: nat, k: nat)
    requires |t.entries| == |t.header| * n && k < n
    ensures |t.header| * k + |t.header| == |t.header| * (k + 1) <= |t.entries|
    ensures CellsOf(t, n, k + 1) == t.entries[|t.header| * k..|t.header| * k + |t.header|]
  {
    MulMonotone(k + 1, n, |t.header|);
  }

  /** Row k of a table, from where it starts. */
  method PrintTableRow(t: Table, layout: seq<nat>, i: nat, ghost n: nat, ghost k: nat) returns (line: bytes, next: nat)
    requires IsLayout(t, layout) && |t.entries| == |t.header| * n && k < n && i == |t.header| * k
    ensures LineOf(line, CellsOf(t, n, k + 1), layout) && next == i + |t.header| == |t.header| * (k + 1)
  {
    LayoutFits(t, layout, n, k);
    CellsOfRow(t, n, k);
    line, next := AppendCells(t.entries, i, k, |t.header|, layout);
  }

  /** The printed table: its lines show the header and the rows. */
  method CollectLines(t: Table, layout: seq<nat>, ghost n: nat) returns (lines: seq<bytes>)
    requires IsLayout(t, layout) && |t.entries| == |t.header| * n
    ensures |lines| == 1 + n && LinesOf(lines, t, n, layout)
  {
    var w := |t.header|;
    HeaderFits(t, layout, n);
    assert t.header[0..w] == t.header;
    var line, i := AppendCells(t.header, 0, 0, w, layout);
    lines, i := [line], 0;
    ghost var k := 0;
    RowsLeft(w, 0, n);
    while i + w <= |t.entries|
      invariant k <= n && i == w * k && |lines| == 1 + k
      invariant i + w <= |t.entries| <==> k < n
      invariant LinesOf(lines, t, n, layout)
    {
      line, i := PrintTableRow(t, layout, i, n, k);
      OneMoreLine(lines, line, t, n, layout);
      lines, k := lines + [line], k + 1;
      RowsLeft(w, k, n);
    }
  }

  lemma OneMoreLine(lines: seq<bytes>, line: bytes, t: Table, n: nat, layout: seq<nat>)
    requires |t.entries| == |t.header| * n && |lines| <= n && LinesOf(lines, t, n, layout)
    requires LineOf(line, CellsOf(t, n, |lines|), layout)
    ensures LinesOf(lines + [line], t, n, layout)
  {}

  /** A printed row, as it shows. */
  method PrintRow(cells: seq<bytes>, from: nat, ghost k: nat, w: nat, layout: seq<nat>) returns (line: bytes, i: nat)
    requires |layout| == w > 0 && from == w * k && from + w <= |cells| && Fits(cells[from..from + w], layout)
    ensures i == from + w && ShowsRow(line, cells[from..i], layout)
  {
    line, i := AppendCells(cells, from, k, w, layout);
    LineShows(line, cells[from..i], layout);
  }

  /** A printed table: its lines show the header and the rows, all in one width. */
  method PrintTable(t: Table, layout: seq<nat>, ghost n: nat) returns (lines: seq<bytes>)
    requires IsLayout(t, layout) && |t.entries| == |t.header| * n
    ensures |lines| == 1 + n
    ensures forall k {:trigger lines[k]} :: 0 <= k <= n ==>
              ShowsRow(lines[k], CellsOf(t, n, k), layout) && |lines[k]| == Offset(layout, |layout|) + 1
  {
    lines := CollectLines(t, layout, n);
    forall k | 0 <= k <= n
      ensures ShowsRow(lines[k], CellsOf(t, n, k), layout) && |lines[k]| == Offset(layout, |layout|) + 1
    {
      LineShows(lines[k], CellsOf(t, n, k), layout);
    }
  }

  /** All lines of a printed table have the same width. */
  lemma TableIsRectangular(lines: seq<bytes>, t: Table, n: nat, layout: seq<nat>, k: nat)
    requires |t.entries| == |t.header| * n && |lines| <= n + 1 && LinesOf(lines, t, n, layout) && k < |lines|
    ensures |lines[k]| == Offset(layout, |layout|) + 1
  {
    LinesHaveOneWidth(lines[k], CellsOf(t, n, k), layout);
  }

  lemma RowsLeft(w: nat, k: nat, n: nat)
    requires w > 0
    ensures w * k + w <= w * n <==> k < n
  {
    TimesAtLeast(w, n - k);
    TimesAtLeast(w, k + 1 - n);
    assert w * (n - k) == w * n - w * k && w * (k + 1 - n) == w * k + w - w * n;
  }
}
