/** The Word document as the builder hands it to the docx library: a list of blocks,
    each a table of rows of cells or an empty paragraph. Packing the tree into a file
    is not modelled.

    Every cell builder takes the text cleaner as a parameter `show`; the document uses
    cleanText (see Text.CleanText) and the lemmas that are about the shape of the tree
    hold for any cleaner. */
module Docx {
  import opened Wrappers
  import opened Text

  datatype Align = Left | Center

  /** Cell margins in twentieths of a point. */
  datatype Margins = Margins(top: int, bottom: int, left: int, right: int)

  /** A table cell: the (cleaned) text of its single paragraph, the paragraph alignment,
      the run's weight and size in half-points, the percentage width when one is set and
      the fill colour when one is set. */
  datatype Cell = Cell(text: string, align: Align, bold: bool, size: int,
                       width: Option<int>, shading: Option<string>, margins: Margins)

  datatype Row = Row(cells: seq<Cell>)

  /** A table `width` percent wide, or the `new Paragraph({ text: "" })` spacer. */
  datatype Block = Table(width: int, rows: seq<Row>) | EmptyParagraph

  /** The options object of createTableCell. JavaScript reads each entry through `||`
      or a truthiness test, so a missing entry and a falsy one (false, 0, "") are the
      same thing; the record stores the falsy value for a missing entry. Alignments are
      non-empty strings in the library, so a given one is always truthy. */
  datatype CellOptions = CellOptions(align: Option<Align>, bold: bool, size: int, width: int, shading: string)

  /** `{}` */
  const NoOptions: CellOptions := CellOptions(None, false, 0, 0, "")

  /** `{ width }` */
  function Width(w: int): CellOptions {
    CellOptions(None, false, 0, w, "")
  }

  const DefaultSize := 16
  const CellMargin := 100
  const TitleShading := "92D050"
  const HeaderShading := "E7E6E6"

  /** createTableCell: the cleaned text with the options' alignment (left when none),
      weight, size (16 when none), width (a percentage, only when one is given) and
      shading (only when one is given), and 100 on every margin. */
  function CreateTableCell(text: Value, o: CellOptions, show: Value -> string): (c: Cell)
    ensures c.text == show(text)
    ensures c.align == o.align.GetOr(Left) && c.bold == o.bold
    ensures c.size == (if o.size != 0 then o.size else DefaultSize)
    ensures c.width.Some? <==> o.width != 0
    ensures c.width.Some? ==> c.width.value == o.width
    ensures c.shading.Some? <==> o.shading != ""
    ensures c.shading.Some? ==> c.shading.value == o.shading
    ensures c.margins == Margins(CellMargin, CellMargin, CellMargin, CellMargin)
  {
    Cell(show(text), o.align.GetOr(Left), o.bold,
         if o.size != 0 then o.size else DefaultSize,
         if o.width != 0 then Some(o.width) else None,
         if o.shading != "" then Some(o.shading) else None,
         Margins(CellMargin, CellMargin, CellMargin, CellMargin))
  }

  /** A cell made without options is plain: left-aligned, regular weight, size 16, no
      width, no fill. */
  lemma DefaultCell(text: Value, show: Value -> string)
    ensures var c := CreateTableCell(text, NoOptions, show);
            && c.align == Left && !c.bold && c.size == 16 && c.width == None && c.shading == None
            && c.margins == Margins(100, 100, 100, 100)
  {
  }

  /** Under cleanText, a cell's text is never empty and never carries characters the
      PDF font cannot draw; a missing value prints as "-". */
  lemma CellTextClean(text: Value, o: CellOptions)
    ensures IsClean(CreateTableCell(text, o, CleanText).text)
    ensures text.Absent? ==> CreateTableCell(text, o, CleanText).text == "-"
  {
  }

  /** A block that createSectionTitle produced: a full-width table of one row of one
      bold, centred, size-18 cell shaded 92D050. */
  predicate IsSectionTitle(b: Block) {
    && b.Table? && b.width == 100 && |b.rows| == 1 && |b.rows[0].cells| == 1
    && var c := b.rows[0].cells[0];
       c.bold && c.align == Center && c.size == 18 && c.shading == Some(TitleShading)
  }

  /** createSectionTitle */
  function CreateSectionTitle(text: string, show: Value -> string): (b: Block)
    ensures IsSectionTitle(b)
    ensures b.rows[0].cells[0].text == show(Str(text))
    ensures b.rows[0].cells[0].width == None
  {
    Table(100, [Row([CreateTableCell(Str(text), CellOptions(Some(Center), true, 18, 0, TitleShading), show)])])
  }

  /** createHeaderCell: a bold, centred, size-16 cell shaded E7E6E6 of the given
      percentage width. */
  function CreateHeaderCell(text: string, width: int, show: Value -> string): (c: Cell)
    ensures c.text == show(Str(text))
    ensures c.bold && c.align == Center && c.size == 16 && c.shading == Some(HeaderShading)
    ensures c.width == (if width != 0 then Some(width) else None)
  {
    CreateTableCell(Str(text), CellOptions(Some(Center), true, 16, width, HeaderShading), show)
  }

  /* ---------- widths ---------- */

  /** The sum of the widths a row's cells set (a cell without one adds nothing). */
  function PercentSum(cells: seq<Cell>): int {
    if cells == [] then 0 else cells[0].width.GetOr(0) + PercentSum(cells[1..])
  }

  function Total(ws: seq<int>): int {
    if ws == [] then 0 else ws[0] + Total(ws[1..])
  }

  lemma {:induction false} PercentSumOf(cells: seq<Cell>, ws: seq<int>)
    requires |cells| == |ws|
    requires forall i :: 0 <= i < |cells| ==> cells[i].width == Some(ws[i])
    ensures PercentSum(cells) == Total(ws)
  {
    if cells != [] {
      PercentSumOf(cells[1..], ws[1..]);
    }
  }

  /** Either no cell of the row sets a width, or every cell does and together they take
      the whole table. */
  predicate RowWidthsOk(r: Row) {
    || (forall i :: 0 <= i < |r.cells| ==> r.cells[i].width.None?)
    || ((forall i :: 0 <= i < |r.cells| ==> r.cells[i].width.Some?) && PercentSum(r.cells) == 100)
  }

  /** A row whose cells set the widths `ws`, which add up to 100. */
  lemma FullRow(r: Row, ws: seq<int>)
    requires |r.cells| == |ws| && Total(ws) == 100
    requires forall i :: 0 <= i < |ws| ==> r.cells[i].width == Some(ws[i])
    ensures RowWidthsOk(r)
  {
    PercentSumOf(r.cells, ws);
  }

  /** A table is full width and every row's widths are consistent. */
  ghost predicate BlockWidthsOk(b: Block) {
    b.Table? ==> b.width == 100 && forall j :: 0 <= j < |b.rows| ==> RowWidthsOk(b.rows[j])
  }

  ghost predicate WidthsOk(blocks: seq<Block>) {
    forall i :: 0 <= i < |blocks| ==> BlockWidthsOk(blocks[i])
  }

  lemma WidthsOkAppend(a: seq<Block>, b: seq<Block>)
    requires WidthsOk(a) && WidthsOk(b)
    ensures WidthsOk(a + b)
  {
    forall i | 0 <= i < |a + b|
      ensures (a + b)[i] == if i < |a| then a[i] else b[i - |a|]
    {
    }
  }

  /* ---------- section titles ---------- */

  /** The title a block shows, when it is a section title. */
  function TitleOf(b: Block): (ts: seq<string>)
    ensures |ts| <= 1
  {
    if IsSectionTitle(b) then [b.rows[0].cells[0].text] else []
  }

  /** The texts of the section titles among the blocks, in order. */
  function SectionTitles(blocks: seq<Block>): (ts: seq<string>)
    ensures |ts| <= |blocks|
  {
    if blocks == [] then [] else TitleOf(blocks[0]) + SectionTitles(blocks[1..])
  }

  /** A text is among the section titles exactly when some block is a section title
      showing it. */
  lemma {:induction false} SectionTitlesAreTitles(blocks: seq<Block>, t: string)
    ensures t in SectionTitles(blocks) <==> exists b :: b in blocks && TitleOf(b) == [t]
  {
    if blocks != [] {
      SectionTitlesAreTitles(blocks[1..], t);
      assert forall b :: b in blocks <==> b == blocks[0] || b in blocks[1..];
    }
  }

  lemma SectionTitlesOfTwo(a: Block, b: Block)
    ensures SectionTitles([a, b]) == TitleOf(a) + TitleOf(b)
  {
    assert [a, b][1..] == [b];
    assert [b][1..] == [];
  }

  lemma SectionTitlesOfThree(a: Block, b: Block, c: Block)
    ensures SectionTitles([a, b, c]) == TitleOf(a) + TitleOf(b) + TitleOf(c)
  {
    assert [a, b, c][1..] == [b, c];
    SectionTitlesOfTwo(b, c);
  }

  lemma SectionTitlesOfFour(a: Block, b: Block, c: Block, d: Block)
    ensures SectionTitles([a, b, c, d]) == TitleOf(a) + TitleOf(b) + TitleOf(c) + TitleOf(d)
  {
    assert [a, b, c, d][1..] == [b, c, d];
    SectionTitlesOfThree(b, c, d);
  }

  lemma {:induction false} SectionTitlesAppend(a: seq<Block>, b: seq<Block>)
    ensures SectionTitles(a + b) == SectionTitles(a) + SectionTitles(b)
  {
    if a == [] {
      assert a + b == b;
    } else {
      assert (a + b)[0] == a[0];
      assert (a + b)[1..] == a[1..] + b;
      SectionTitlesAppend(a[1..], b);
    }
  }
}
