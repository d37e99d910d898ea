/** The drawing primitives of the PDF generator as pure functions over a layout state:
    the vertical cursor `y`, the number of pages, and the log of what has been drawn.
    PDFKit's rectangles, fonts and colours become events appended to the log. */
module PdfLayout {
  import opened Text

  /** `doc.heightOfString(text, { width, lineBreak: true, lineGap: 2 })`. PDFKit measures
      in whatever font the previous text call left set (9pt bold after a section title,
      8pt bold after a header cell, the previous cell's weight after a cell), and glyph
      metrics belong to PDFKit, so the model takes the measurement as a parameter of
      text and width alone. */
  type Measure = (string, int) -> real

  /** checkPage breaks when the bottom of the block would pass this line ... */
  const PageBottom: real := 750.0
  /** ... and starts the new page's content here. */
  const PageTop: real := 40.0
  /** Left edge `x` and content width `W` of every section. */
  const Margin: int := 25
  const PageWidth: int := 545

  datatype Align = AlignLeft | AlignCenter

  /** The three filled boxes: the page title (`rect(x, y, W, 25)`), `headerCell` and
      `sectionTitle`. */
  datatype BannerKind = TitleBar | HeaderCell | SectionTitle

  datatype Event =
    | Banner(kind: BannerKind, x: int, y: real, w: int, h: real, text: string)
    | Cell(x: int, y: real, w: int, h: real, text: string, align: Align, bold: bool)
    | NewPage

  datatype Layout = Layout(y: real, pages: nat, log: seq<Event>)

  /** One column description handed to dynamicRow. `min` is 0 when the code gives none:
      `c.min || 20` treats an absent and a zero minimum alike. */
  datatype Col = Col(x: int, w: int, text: Value, min: real, align: Align, bold: bool)

  function Max(a: real, b: real): real {
    if a >= b then a else b
  }

  /** `c.min || 20` */
  function MinHeight(c: Col): (h: real)
    ensures c.min != 0.0 ==> h == c.min
    ensures c.min == 0.0 ==> h == 20.0
  {
    if c.min == 0.0 then 20.0 else c.min
  }

  /** autoRowHeight: the measured height of the cleaned text in the cell's inner width,
      plus 12 of padding, but never less than the minimum. */
  function AutoRowHeight(measure: Measure, text: Value, width: int, min: real): (h: real)
    ensures h >= min
    ensures h >= measure(CleanText(text), width - 10) + 12.0
    ensures h == min || h == measure(CleanText(text), width - 10) + 12.0
  {
    Max(min, measure(CleanText(text), width - 10) + 12.0)
  }

  function CellHeight(measure: Measure, c: Col): real {
    AutoRowHeight(measure, c.text, c.w, MinHeight(c))
  }

  /** `Math.max(...)` of a non-empty list. */
  function MaxOf(hs: seq<real>): (m: real)
    requires |hs| > 0
    ensures forall i :: 0 <= i < |hs| ==> m >= hs[i]
    ensures exists i :: 0 <= i < |hs| && m == hs[i]
  {
    if |hs| == 1 then hs[0]
    else
      var rest := MaxOf(hs[1..]);
      assert forall i :: 1 <= i < |hs| ==> hs[i] == hs[1..][i - 1];
      Max(hs[0], rest)
  }

  /** `Math.max(...heights)`: the tallest cell decides the row height. */
  function RowHeight(measure: Measure, cols: seq<Col>): (h: real)
    requires |cols| > 0
    ensures forall i :: 0 <= i < |cols| ==> h >= CellHeight(measure, cols[i])
    ensures exists i :: 0 <= i < |cols| && h == CellHeight(measure, cols[i])
  {
    var heights := seq(|cols|, i requires 0 <= i < |cols| => CellHeight(measure, cols[i]));
    assert forall i :: 0 <= i < |cols| ==> heights[i] == CellHeight(measure, cols[i]);
    MaxOf(heights)
  }

  /** A row is at least as tall as every cell's minimum and every cell's measured text. */
  lemma RowHeightCoversCells(measure: Measure, cols: seq<Col>, i: int)
    requires 0 <= i < |cols|
    ensures RowHeight(measure, cols) >= MinHeight(cols[i])
    ensures RowHeight(measure, cols) >= measure(CleanText(cols[i].text), cols[i].w - 10) + 12.0
  {
  }

  /** checkPage: a block of height `need` that would pass the bottom line first opens a
      new page and starts at its top; otherwise nothing changes. */
  function CheckPage(st: Layout, need: real): (r: Layout)
    ensures st.y + need <= PageBottom ==> r == st
    ensures st.y + need > PageBottom ==> r == Layout(PageTop, st.pages + 1, st.log + [NewPage])
    ensures r.y + need <= PageBottom || r.y == PageTop
  {
    if st.y + need > PageBottom then Layout(PageTop, st.pages + 1, st.log + [NewPage]) else st
  }

  /** Total width of a list of columns. */
  function SumW(cols: seq<Col>): int {
    if cols == [] then 0 else SumW(cols[..|cols| - 1]) + cols[|cols| - 1].w
  }

  /** Cell i of a row drawn from left edge `x0` at height `h`, its text shown through
      `show` (cleanText in the generator). */
  function PlacedCell(cols: seq<Col>, i: nat, x0: int, y: real, h: real, show: Value -> string): Event
    requires i < |cols|
  {
    Cell(x0 + SumW(cols[..i]), y, cols[i].w, h, show(cols[i].text), cols[i].align, cols[i].bold)
  }

  /** The cells of a row as drawn: cell i sits at the row's left edge plus the widths of
      the cells before it, every cell has the row's height, and its text is the cleaned
      column text. */
  ghost predicate PlacedRow(cells: seq<Event>, cols: seq<Col>, x0: int, y: real, h: real) {
    && |cells| == |cols|
    && forall i :: 0 <= i < |cols| ==> cells[i] == PlacedCell(cols, i, x0, y, h, CleanText)
  }

  /** The `forEach` of dynamicRow from column i on: draw the cell at `curX`, then move
      `curX` right by its width. */
  function DrawCells(cols: seq<Col>, i: nat, curX: int, y: real, h: real, show: Value -> string): (cells: seq<Event>)
    requires i <= |cols|
    ensures |cells| == |cols| - i
    decreases |cols| - i
  {
    if i == |cols| then []
    else [Cell(curX, y, cols[i].w, h, show(cols[i].text), cols[i].align, cols[i].bold)]
         + DrawCells(cols, i + 1, curX + cols[i].w, y, h, show)
  }

  /** Moving `curX` right by each width in turn puts cell k at the left edge plus the
      widths of the cells before it. */
  lemma {:induction false} DrawCellsPlaced(cols: seq<Col>, i: nat, curX: int, x0: int, y: real, h: real,
                                           show: Value -> string)
    requires i <= |cols|
    requires curX == x0 + SumW(cols[..i])
    ensures forall k :: i <= k < |cols| ==>
              DrawCells(cols, i, curX, y, h, show)[k - i] == PlacedCell(cols, k, x0, y, h, show)
    decreases |cols| - i
  {
    if i < |cols| {
      assert cols[..i + 1][..i] == cols[..i];
      DrawCellsPlaced(cols, i + 1, curX + cols[i].w, x0, y, h, show);
    }
  }

  /** dynamicRow: measure every cell, take the tallest, break the page if that row would
      pass the bottom line, draw all cells at one height, and move below the row. */
  function DynamicRow(measure: Measure, st: Layout, cols: seq<Col>): (r: Layout)
    requires |cols| > 0
    ensures var h := RowHeight(measure, cols);
            var broke := st.y + h > PageBottom;
            var top := if broke then PageTop else st.y;
            var k := |st.log| + (if broke then 1 else 0);
            && r.y == top + h
            && (top + h <= PageBottom || top == PageTop)
            && r.pages == (if broke then st.pages + 1 else st.pages)
            && |r.log| == k + |cols|
            && r.log[..|st.log|] == st.log
            && (broke ==> r.log[|st.log|] == NewPage)
            && PlacedRow(r.log[k..], cols, cols[0].x, top, h)
  {
    var h := RowHeight(measure, cols);
    var st1 := CheckPage(st, h);
    var cells := DrawCells(cols, 0, cols[0].x, st1.y, h, CleanText);
    assert cols[..0] == [];
    DrawCellsPlaced(cols, 0, cols[0].x, cols[0].x, st1.y, h, CleanText);
    var r := Layout(st1.y + h, st1.pages, st1.log + cells);
    assert r.log[|st1.log|..] == cells;
    assert r.log[..|st.log|] == st.log by {
      assert st1.log[..|st.log|] == st.log;
    }
    r
  }

  /** A row that fits on an empty page never leaves the cursor below the bottom line. */
  lemma RowEndsAboveBottom(measure: Measure, st: Layout, cols: seq<Col>)
    requires |cols| > 0
    ensures PageTop + RowHeight(measure, cols) <= PageBottom ==> DynamicRow(measure, st, cols).y <= PageBottom
  {
  }

  /** A row taller than a whole page starts at the top of a fresh page and still runs
      past the bottom line: rows are never split. */
  lemma TallRowOverflows(measure: Measure, st: Layout, cols: seq<Col>)
    requires |cols| > 0
    requires st.y >= PageTop
    ensures PageTop + RowHeight(measure, cols) > PageBottom ==>
              DynamicRow(measure, st, cols).y > PageBottom && DynamicRow(measure, st, cols).pages == st.pages + 1
  {
  }

  /** headerCell and sectionTitle draw at the current cursor with no page check: the
      page count and the cursor stay as they are, whatever `y` is. */
  function DrawBanner(st: Layout, kind: BannerKind, x: int, w: int, h: real, text: string): (r: Layout)
    ensures r.y == st.y && r.pages == st.pages
    ensures r.log == st.log + [Banner(kind, x, st.y, w, h, text)]
  {
    st.(log := st.log + [Banner(kind, x, st.y, w, h, text)])
  }

  /* ---------- what a log shows ---------- */

  /** The texts of a row's columns as its cells print them, in column order. */
  function ColTexts(cols: seq<Col>, show: Value -> string): (ts: seq<string>)
    ensures |ts| == |cols|
    ensures forall i :: 0 <= i < |cols| ==> ts[i] == show(cols[i].text)
  {
    if cols == [] then [] else [show(cols[0].text)] + ColTexts(cols[1..], show)
  }

  /** The texts of the table cells in a log, in drawing order. */
  function CellTexts(log: seq<Event>): seq<string> {
    if log == [] then []
    else (if log[0].Cell? then [log[0].text] else []) + CellTexts(log[1..])
  }

  /** The texts of the filled banners in a log, in drawing order. */
  function BannerTexts(log: seq<Event>): seq<string> {
    if log == [] then []
    else (if log[0].Banner? then [log[0].text] else []) + BannerTexts(log[1..])
  }

  /** The number of page breaks in a log. */
  function Breaks(log: seq<Event>): nat {
    if log == [] then 0 else (if log[0].NewPage? then 1 else 0) + Breaks(log[1..])
  }

  /** No cell runs past the bottom line unless it starts at the top of a page: a row is
      never split across pages. */
  ghost predicate Placed(log: seq<Event>) {
    forall i :: 0 <= i < |log| && log[i].Cell? ==> log[i].y + log[i].h <= PageBottom || log[i].y == PageTop
  }

  lemma {:induction false} CellTextsAppend(a: seq<Event>, b: seq<Event>)
    ensures CellTexts(a + b) == CellTexts(a) + CellTexts(b)
  {
    if a == [] {
      assert a + b == b;
    } else {
      assert (a + b)[0] == a[0];
      assert (a + b)[1..] == a[1..] + b;
      CellTextsAppend(a[1..], b);
    }
  }

  lemma {:induction false} BannerTextsAppend(a: seq<Event>, b: seq<Event>)
    ensures BannerTexts(a + b) == BannerTexts(a) + BannerTexts(b)
  {
    if a == [] {
      assert a + b == b;
    } else {
      assert (a + b)[0] == a[0];
      assert (a + b)[1..] == a[1..] + b;
      BannerTextsAppend(a[1..], b);
    }
  }

  lemma {:induction false} BreaksAppend(a: seq<Event>, b: seq<Event>)
    ensures Breaks(a + b) == Breaks(a) + Breaks(b)
  {
    if a == [] {
      assert a + b == b;
    } else {
      assert (a + b)[0] == a[0];
      assert (a + b)[1..] == a[1..] + b;
      BreaksAppend(a[1..], b);
    }
  }

  lemma LogAppend(a: seq<Event>, b: seq<Event>)
    ensures CellTexts(a + b) == CellTexts(a) + CellTexts(b)
    ensures BannerTexts(a + b) == BannerTexts(a) + BannerTexts(b)
    ensures Breaks(a + b) == Breaks(a) + Breaks(b)
  {
    CellTextsAppend(a, b);
    BannerTextsAppend(a, b);
    BreaksAppend(a, b);
  }

  lemma PlacedAppend(a: seq<Event>, b: seq<Event>)
    requires Placed(a) && Placed(b)
    ensures Placed(a + b)
  {
    forall i | 0 <= i < |a + b| && (a + b)[i].Cell?
      ensures (a + b)[i].y + (a + b)[i].h <= PageBottom || (a + b)[i].y == PageTop
    {
      if i >= |a| { assert (a + b)[i] == b[i - |a|]; }
    }
  }

  /** The cells drawn by the `forEach` show the column texts in order, and nothing else. */
  lemma {:induction false} DrawCellsTrace(cols: seq<Col>, i: nat, curX: int, y: real, h: real,
                                          show: Value -> string)
    requires i <= |cols|
    ensures CellTexts(DrawCells(cols, i, curX, y, h, show)) == ColTexts(cols[i..], show)
    ensures BannerTexts(DrawCells(cols, i, curX, y, h, show)) == []
    ensures Breaks(DrawCells(cols, i, curX, y, h, show)) == 0
    decreases |cols| - i
  {
    if i < |cols| {
      var cells := DrawCells(cols, i, curX, y, h, show);
      assert cells[1..] == DrawCells(cols, i + 1, curX + cols[i].w, y, h, show);
      assert cols[i..][1..] == cols[i + 1..];
      DrawCellsTrace(cols, i + 1, curX + cols[i].w, y, h, show);
    }
  }

  /** Appending one drawn row to a log. */
  lemma AppendRowTrace(log: seq<Event>, cols: seq<Col>, x: int, y: real, h: real, show: Value -> string)
    requires y + h <= PageBottom || y == PageTop
    ensures var r := log + DrawCells(cols, 0, x, y, h, show);
            && CellTexts(r) == CellTexts(log) + ColTexts(cols, show)
            && BannerTexts(r) == BannerTexts(log)
            && Breaks(r) == Breaks(log)
            && (Placed(log) ==> Placed(r))
  {
    var cells := DrawCells(cols, 0, x, y, h, show);
    DrawCellsTrace(cols, 0, x, y, h, show);
    assert cols[0..] == cols;
    LogAppend(log, cells);
    assert cols[..0] == [];
    DrawCellsPlaced(cols, 0, x, x, y, h, show);
    forall k | 0 <= k < |cells| && cells[k].Cell?
      ensures cells[k].y + cells[k].h <= PageBottom || cells[k].y == PageTop
    {
      assert cells[k - 0] == PlacedCell(cols, k, x, y, h, show);
    }
    if Placed(log) {
      PlacedAppend(log, cells);
    }
  }

  /** What checkPage adds to the log: one page break and nothing else. */
  lemma CheckPageTrace(st: Layout, need: real)
    ensures var r := CheckPage(st, need);
            && CellTexts(r.log) == CellTexts(st.log)
            && BannerTexts(r.log) == BannerTexts(st.log)
            && r.pages + Breaks(st.log) == st.pages + Breaks(r.log)
            && (Placed(st.log) ==> Placed(r.log))
  {
    if st.y + need > PageBottom {
      LogAppend(st.log, [NewPage]);
      assert Placed([NewPage]);
      if Placed(st.log) { PlacedAppend(st.log, [NewPage]); }
    }
  }

  /** What dynamicRow adds to the log: the cleaned column texts, no banner, one page
      break exactly when the page count grows, and only cells that are not split. */
  lemma DynamicRowTrace(measure: Measure, st: Layout, cols: seq<Col>)
    requires |cols| > 0
    ensures var r := DynamicRow(measure, st, cols);
            && CellTexts(r.log) == CellTexts(st.log) + ColTexts(cols, CleanText)
            && BannerTexts(r.log) == BannerTexts(st.log)
            && r.pages + Breaks(st.log) == st.pages + Breaks(r.log)
            && (Placed(st.log) ==> Placed(r.log))
  {
    var h := RowHeight(measure, cols);
    var st1 := CheckPage(st, h);
    var cells := DrawCells(cols, 0, cols[0].x, st1.y, h, CleanText);
    var r := DynamicRow(measure, st, cols);
    assert r.log == st1.log + cells && r.pages == st1.pages;
    CheckPageTrace(st, h);
    AppendRowTrace(st1.log, cols, cols[0].x, st1.y, h, CleanText);
  }
}
