/** The Word controller: the fixed and conditional sections of the document, built from
    the same report record, the same cleanText and the same date formats as the PDF. */
module DocxReport {
  import opened Wrappers
  import opened Text
  import opened Dates
  import opened Report
  import opened FileNames
  import opened Docx

  const GridPercents: seq<int> := [4, 25, 17, 4, 27, 23]
  const LogPercents: seq<int> := [17, 8, 12, 12, 14, 18, 19]

  /** The blank lines left for a signature. */
  const Signature := "\n\n\n\n"

  /* ---------- rows ---------- */

  /** One row of a six-column grid; the two number cells are centred. */
  function GridRow(vals: seq<Value>, show: Value -> string): (r: Row)
    requires |vals| == 6
    ensures |r.cells| == 6
    ensures forall i :: 0 <= i < 6 ==> r.cells[i].text == show(vals[i]) && r.cells[i].width == Some(GridPercents[i])
  {
    Row(seq(6, i requires 0 <= i < 6 =>
      CreateTableCell(vals[i], CellOptions(if i == 0 || i == 3 then Some(Center) else None, false, 0, GridPercents[i], ""), show)))
  }

  function GridRows(rows: seq<seq<Value>>, show: Value -> string): (rs: seq<Row>)
    requires forall i :: 0 <= i < |rows| ==> |rows[i]| == 6
    ensures |rs| == |rows|
    ensures forall i :: 0 <= i < |rs| ==> rs[i] == GridRow(rows[i], show)
  {
    seq(|rows|, i requires 0 <= i < |rows| => GridRow(rows[i], show))
  }

  /** The header row of an investigation table. */
  function LogHeaderRow(show: Value -> string): (r: Row)
    ensures |r.cells| == 7
    ensures forall i :: 0 <= i < 7 ==>
      r.cells[i].text == show(Str(LogHeaders[i])) && r.cells[i].width == Some(LogPercents[i])
  {
    Row(seq(7, i requires 0 <= i < 7 => CreateHeaderCell(LogHeaders[i], LogPercents[i], show)))
  }

  /** One data row of an investigation table: no widths, the first cell centred. */
  function LogRow(vals: seq<Value>, show: Value -> string): (r: Row)
    requires |vals| == 7
    ensures |r.cells| == 7
    ensures forall i :: 0 <= i < 7 ==> r.cells[i].text == show(vals[i]) && r.cells[i].width == None
  {
    Row(seq(7, i requires 0 <= i < 7 =>
      CreateTableCell(vals[i], CellOptions(if i == 0 then Some(Center) else None, false, 0, 0, ""), show)))
  }

  /** An investigation table: the header row, then one row per record in order. */
  function LogTable(entries: seq<seq<Value>>, show: Value -> string): (b: Block)
    requires forall j :: 0 <= j < |entries| ==> |entries[j]| == 7
    ensures b.Table? && b.width == 100 && |b.rows| == 1 + |entries|
    ensures b.rows[0] == LogHeaderRow(show)
    ensures forall j :: 0 <= j < |entries| ==> b.rows[j + 1] == LogRow(entries[j], show)
  {
    Table(100, [LogHeaderRow(show)] + seq(|entries|, j requires 0 <= j < |entries| => LogRow(entries[j], show)))
  }

  /** The values of the on-desk log, one row per record. */
  function DeskTexts(desk: seq<DeskEntry>, parse: DateParser): (es: seq<seq<Value>>)
    ensures |es| == |desk|
    ensures forall j :: 0 <= j < |desk| ==> es[j] == DeskValues(desk[j], parse)
  {
    seq(|desk|, j requires 0 <= j < |desk| => DeskValues(desk[j], parse))
  }

  /** One row of the follow-up log: as in the on-desk log, except that the activity, the
      contact number and the facility address go through `|| "-"`. */
  function LanjutanValues(d: DeskEntry, parse: DateParser): (vs: seq<Value>)
    ensures |vs| == 7
    ensures forall k :: 0 <= k < 7 && k != 1 && k != 3 && k != 5 ==> vs[k] == DeskValues(d, parse)[k]
    ensures forall k :: 0 <= k < 7 && (k == 1 || k == 3 || k == 5) ==> vs[k] == Or(DeskValues(d, parse)[k], Str("-"))
  {
    [DeskWhen(d, parse), Or(d.activity, Str("-")), d.namaPetugas, Or(d.noKontak, Str("-")),
     d.namaFaskes, Or(d.alamatFaskes, Str("-")), d.hasilInvestigasi]
  }

  function LanjutanTexts(desk: seq<DeskEntry>, parse: DateParser): (es: seq<seq<Value>>)
    ensures |es| == |desk|
    ensures forall j :: 0 <= j < |desk| ==> es[j] == LanjutanValues(desk[j], parse)
  {
    seq(|desk|, j requires 0 <= j < |desk| => LanjutanValues(desk[j], parse))
  }

  /** A two-column label/value row, half and half. */
  function PairRow(p: (string, Value), show: Value -> string): (r: Row)
    ensures |r.cells| == 2 && r.cells[0].width == Some(50) && r.cells[1].width == Some(50)
    ensures r.cells[0].text == show(Str(p.0)) && r.cells[1].text == show(p.1)
  {
    Row([CreateTableCell(Str(p.0), Width(50), show), CreateTableCell(p.1, Width(50), show)])
  }

  function PairRows(ps: seq<(string, Value)>, show: Value -> string): (rs: seq<Row>)
    ensures |rs| == |ps|
    ensures forall i :: 0 <= i < |ps| ==> rs[i] == PairRow(ps[i], show)
  {
    seq(|ps|, i requires 0 <= i < |ps| => PairRow(ps[i], show))
  }

  /* ---------- the Deswa metadata ---------- */

  /** `a || b` is truthy. */
  predicate EitherSet(a: Value, b: Value) {
    !Falsy(a) || !Falsy(b)
  }

  /** The initial on-desk metadata: start, end, SLA and investigator, and the report and
      confirmation rows when either of their dates is set. */
  function DeswaAwalPairs(d: Deswa, parse: DateParser): (ps: seq<(string, Value)>)
    ensures |ps| == if EitherSet(d.tanggalKirimLaporan, d.tanggalTerimaKonfirmasiBri) then 7 else 4
    ensures ps[2] == ("SLA Ondesk (hari)", Or(d.slaProses, Str("-")))
  {
    [ ("Tgl Mulai Ondesk", Str(FormatDate(d.tanggalMulai, parse))),
      ("Tgl Selesai Ondesk", Str(FormatDate(d.tanggalSelesai, parse))),
      ("SLA Ondesk (hari)", Or(d.slaProses, Str("-"))),
      ("PIC Investigator", Or(d.picInvestigator, Str("-"))) ]
    + (if EitherSet(d.tanggalKirimLaporan, d.tanggalTerimaKonfirmasiBri) then
         [ ("Tgl Kirim Laporan", Str(FormatDate(d.tanggalKirimLaporan, parse))),
           ("Tgl Terima Konfirmasi BRI", Str(FormatDate(d.tanggalTerimaKonfirmasiBri, parse))),
           ("SLA Konfirmasi (hari)", Or(d.slaKonfirmasi, Str("-"))) ]
       else [])
  }

  /** The follow-up on-desk metadata, with the report and confirmation rows when either
      of their dates is set. */
  function DeswaLanjutanPairs(d: Deswa, parse: DateParser): (ps: seq<(string, Value)>)
    ensures |ps| == if EitherSet(d.tanggalKirimLaporanLanjutan, d.tanggalTerimaKonfirmasiLanjutanBri) then 6 else 3
  {
    [ ("Tgl Mulai Ondesk Lanjutan", Str(FormatDate(d.tanggalMulaiOndeskLanjutan, parse))),
      ("Tgl Selesai Ondesk Lanjutan", Str(FormatDate(d.tanggalSelesaiOndeskLanjutan, parse))),
      ("SLA Ondesk Lanjutan (hari)", Or(d.slaOndeskLanjutan, Str("-"))) ]
    + (if EitherSet(d.tanggalKirimLaporanLanjutan, d.tanggalTerimaKonfirmasiLanjutanBri) then
         [ ("Tgl Kirim Laporan Lanjutan", Str(FormatDate(d.tanggalKirimLaporanLanjutan, parse))),
           ("Tgl Terima Konfirmasi Lanjutan", Str(FormatDate(d.tanggalTerimaKonfirmasiLanjutanBri, parse))),
           ("SLA Konfirmasi Lanjutan (hari)", Or(d.slaKonfirmasiLanjutan, Str("-"))) ]
       else [])
  }

  /** The follow-up Deswa block is shown when there is a Deswa row and one of its
      follow-up dates is set. */
  predicate DeswaLanjutanShown(deswa: Option<Deswa>) {
    deswa.Some? && EitherSet(deswa.value.tanggalMulaiOndeskLanjutan, deswa.value.tanggalSelesaiOndeskLanjutan)
  }

  /* ---------- the sections ---------- */

  /** The grey title bar and a spacer. */
  function TitleBlocks(show: Value -> string): (bs: seq<Block>)
    ensures |bs| == 2
  {
    [ Table(100, [Row([CreateTableCell(Str("FORMULIR INVESTIGASI BRI LIFE"),
                                       CellOptions(Some(Center), true, 24, 0, HeaderShading), show)])]),
      EmptyParagraph ]
  }

  /** The BRI / vendor header pair, the investigator grid and a spacer. */
  function InvestigatorBlocks(data: ReportData, parse: DateParser, show: Value -> string): (bs: seq<Block>)
    ensures |bs| == 3
  {
    [ Table(100, [Row([CreateTableCell(Str("INTERNAL BRI LIFE"), CellOptions(Some(Center), true, 0, 46, HeaderShading), show),
                       CreateTableCell(Str("VENDOR (DESWA)"), CellOptions(Some(Center), true, 0, 54, HeaderShading), show)])]),
      Table(100, GridRows(InfoRows(data, parse), show)),
      EmptyParagraph ]
  }

  /** The policy section: title, grid, the address row and a spacer. */
  function PolisBlocks(data: ReportData, parse: DateParser, show: Value -> string): (bs: seq<Block>)
    ensures |bs| == 4
  {
    [ CreateSectionTitle("INFORMASI DATA POLIS", show),
      Table(100, GridRows(PolisRows(data.lap, parse), show)),
      Table(100, [Row([CreateTableCell(Str("Detail Alamat"), CellOptions(None, true, 0, 29, ""), show),
                       CreateTableCell(data.lap.alamat, Width(71), show)])]),
      EmptyParagraph ]
  }

  /** The chronology section: title, a header and the text, and a spacer. */
  function KronologisBlocks(data: ReportData, show: Value -> string): (bs: seq<Block>)
    ensures |bs| == 3
  {
    [ CreateSectionTitle("CATATAN INFORMASI DATA POLIS", show),
      Table(100, [Row([CreateHeaderCell("Diagnosa / Kronologis Kematian", 100, show)]),
                  Row([CreateTableCell(data.lap.kronologis, Width(100), show)])]),
      EmptyParagraph ]
  }

  /** Everything above the investigation log: twelve blocks. */
  function HeadBlocks(data: ReportData, parse: DateParser, show: Value -> string): (bs: seq<Block>)
    ensures |bs| == 12
  {
    TitleBlocks(show) + InvestigatorBlocks(data, parse, show) + PolisBlocks(data, parse, show)
    + KronologisBlocks(data, show)
  }

  /** The on-desk investigation log: title, table and a spacer. */
  function LogBlocks(data: ReportData, parse: DateParser, show: Value -> string): (bs: seq<Block>)
    ensures |bs| == 3
  {
    [ CreateSectionTitle("HASIL KONFIRMASI / INVESTIGASI", show),
      LogTable(DeskTexts(data.desk, parse), show),
      EmptyParagraph ]
  }

  /** The follow-up log, only when it has records. */
  function LanjutanBlocks(data: ReportData, parse: DateParser, show: Value -> string): (bs: seq<Block>)
    ensures |bs| == if |data.deskLanjutan| > 0 then 3 else 0
  {
    if |data.deskLanjutan| > 0 then
      [ CreateSectionTitle("HASIL INVESTIGASI LANJUTAN", show),
        LogTable(LanjutanTexts(data.deskLanjutan, parse), show),
        EmptyParagraph ]
    else []
  }

  /** The interview resumes, one full-width row each, only when there are any. */
  function ResumeBlocks(data: ReportData, show: Value -> string): (bs: seq<Block>)
    ensures |bs| == if |data.resumeInterview| > 0 then 3 else 0
  {
    var ri := data.resumeInterview;
    if |ri| > 0 then
      [ CreateSectionTitle("RESUME HASIL WAWANCARA AHLI WARIS", show),
        Table(100, seq(|ri|, i requires 0 <= i < |ri| => Row([CreateTableCell(ri[i], Width(100), show)]))),
        EmptyParagraph ]
    else []
  }

  /** The table of one analysis: its text in a single full-width cell. */
  function AnalysisTable(v: Value, show: Value -> string): Block {
    Table(100, [Row([CreateTableCell(v, Width(100), show)])])
  }

  /** Each analysis in order as a title, a one-cell table and a spacer. */
  function AnalysisBlocks(analyses: seq<(string, Value)>, show: Value -> string): (bs: seq<Block>)
    ensures |bs| == 3 * |analyses|
  {
    if analyses == [] then []
    else [CreateSectionTitle(analyses[0].0, show), AnalysisTable(analyses[0].1, show), EmptyParagraph]
         + AnalysisBlocks(analyses[1..], show)
  }

  /** Analysis i occupies blocks 3i to 3i+2: its title, its table, a spacer. */
  lemma {:induction false} AnalysisBlocksAt(analyses: seq<(string, Value)>, show: Value -> string, i: nat)
    requires i < |analyses|
    ensures 3 * i + 2 < |AnalysisBlocks(analyses, show)|
    ensures AnalysisBlocks(analyses, show)[3 * i] == CreateSectionTitle(analyses[i].0, show)
    ensures AnalysisBlocks(analyses, show)[3 * i + 1] == AnalysisTable(analyses[i].1, show)
    ensures AnalysisBlocks(analyses, show)[3 * i + 2] == EmptyParagraph
  {
    if i > 0 {
      AnalysisBlocksAt(analyses[1..], show, i - 1);
      assert 3 * i == 3 * (i - 1) + 3;
    }
  }

  /** The initial Deswa block, only when there is a Deswa row; its table has four rows,
      or seven when the report or confirmation date is set. */
  function DeswaAwalBlocks(data: ReportData, parse: DateParser, show: Value -> string): (bs: seq<Block>)
    ensures |bs| == if data.deswa.Some? then 3 else 0
    ensures data.deswa.Some? ==>
      var d := data.deswa.value;
      bs[1].Table? && |bs[1].rows| == (if EitherSet(d.tanggalKirimLaporan, d.tanggalTerimaKonfirmasiBri) then 7 else 4)
  {
    match data.deswa
    case None => []
    case Some(d) =>
      [ CreateSectionTitle("DATA DESWA - INVESTIGASI AWAL", show),
        Table(100, PairRows(DeswaAwalPairs(d, parse), show)),
        EmptyParagraph ]
  }

  /** The follow-up Deswa block, only when a follow-up date is set; its table has three
      rows, or six when the follow-up report or confirmation date is set. */
  function DeswaLanjutanBlocks(data: ReportData, parse: DateParser, show: Value -> string): (bs: seq<Block>)
    ensures |bs| == if DeswaLanjutanShown(data.deswa) then 3 else 0
    ensures DeswaLanjutanShown(data.deswa) ==>
      var d := data.deswa.value;
      bs[1].Table? && |bs[1].rows| == (if EitherSet(d.tanggalKirimLaporanLanjutan, d.tanggalTerimaKonfirmasiLanjutanBri) then 6 else 3)
  {
    if DeswaLanjutanShown(data.deswa) then
      [ CreateSectionTitle("DATA DESWA - INVESTIGASI LANJUTAN", show),
        Table(100, PairRows(DeswaLanjutanPairs(data.deswa.value, parse), show)),
        EmptyParagraph ]
    else []
  }

  /** The approval header and the three signature boxes. */
  function ApprovalBlocks(show: Value -> string): (bs: seq<Block>)
    ensures |bs| == 2
  {
    [ Table(100, [Row([CreateHeaderCell("PERSETUJUAN HASIL INVESTIGASI", 100, show)])]),
      Table(100, [ Row([CreateTableCell(Str("Departement Head"), CellOptions(Some(Center), true, 0, 33, ""), show),
                        CreateTableCell(Str("Team Leader"), CellOptions(Some(Center), true, 0, 33, ""), show),
                        CreateTableCell(Str("MA"), CellOptions(Some(Center), true, 0, 34, ""), show)]),
                   Row([CreateTableCell(Str(Signature), Width(33), show),
                        CreateTableCell(Str(Signature), Width(33), show),
                        CreateTableCell(Str(Signature), Width(34), show)]) ]) ]
  }

  function OptionalBlocks(data: ReportData, parse: DateParser, show: Value -> string): seq<Block> {
    LanjutanBlocks(data, parse, show) + ResumeBlocks(data, show)
  }

  function ClosingBlocks(data: ReportData, parse: DateParser, show: Value -> string): seq<Block> {
    AnalysisBlocks(Analyses(data), show) + DeswaAwalBlocks(data, parse, show)
    + DeswaLanjutanBlocks(data, parse, show) + ApprovalBlocks(show)
  }

  /** The document's children in order, with `show` as the text cleaner. */
  function WordBlocks(data: ReportData, parse: DateParser, show: Value -> string): seq<Block> {
    HeadBlocks(data, parse, show) + LogBlocks(data, parse, show) + OptionalBlocks(data, parse, show)
    + ClosingBlocks(data, parse, show)
  }

  /** The document the controller builds. */
  function WordDocument(data: ReportData, parse: DateParser): seq<Block> {
    WordBlocks(data, parse, CleanText)
  }

  /* ---------- every row's widths add up to 100 ---------- */

  lemma PercentTotals()
    ensures Total(GridPercents) == 100 && Total(LogPercents) == 100
    ensures Total([46, 54]) == 100 && Total([29, 71]) == 100 && Total([100]) == 100
    ensures Total([50, 50]) == 100 && Total([33, 33, 34]) == 100
  {
    assert GridPercents[1..] == [25, 17, 4, 27, 23];
    assert GridPercents[1..][1..] == [17, 4, 27, 23];
    assert GridPercents[1..][1..][1..] == [4, 27, 23];
    assert GridPercents[1..][1..][1..][1..] == [27, 23];
    assert GridPercents[1..][1..][1..][1..][1..] == [23];
    assert GridPercents[1..][1..][1..][1..][1..][1..] == [];
    assert LogPercents[1..] == [8, 12, 12, 14, 18, 19];
    assert LogPercents[1..][1..] == [12, 12, 14, 18, 19];
    assert LogPercents[1..][1..][1..] == [12, 14, 18, 19];
    assert LogPercents[1..][1..][1..][1..] == [14, 18, 19];
    assert LogPercents[1..][1..][1..][1..][1..] == [18, 19];
    assert LogPercents[1..][1..][1..][1..][1..][1..] == [19];
    assert LogPercents[1..][1..][1..][1..][1..][1..][1..] == [];
    assert [46, 54][1..] == [54] && [54][1..] == [];
    assert [29, 71][1..] == [71] && [71][1..] == [];
    assert [100][1..] == [];
    assert [50, 50][1..] == [50] && [50][1..] == [];
    assert [33, 33, 34][1..] == [33, 34] && [33, 34][1..] == [34] && [34][1..] == [];
  }

  lemma GridRowsOk(rows: seq<seq<Value>>, show: Value -> string)
    requires forall i :: 0 <= i < |rows| ==> |rows[i]| == 6
    ensures forall j :: 0 <= j < |rows| ==> RowWidthsOk(GridRows(rows, show)[j])
  {
    PercentTotals();
    forall j | 0 <= j < |rows|
      ensures RowWidthsOk(GridRows(rows, show)[j])
    {
      FullRow(GridRows(rows, show)[j], GridPercents);
    }
  }

  lemma PairRowsOk(ps: seq<(string, Value)>, show: Value -> string)
    ensures forall j :: 0 <= j < |ps| ==> RowWidthsOk(PairRows(ps, show)[j])
  {
    PercentTotals();
    forall j | 0 <= j < |ps|
      ensures RowWidthsOk(PairRows(ps, show)[j])
    {
      FullRow(PairRows(ps, show)[j], [50, 50]);
    }
  }

  lemma LogTableOk(entries: seq<seq<Value>>, show: Value -> string)
    requires forall j :: 0 <= j < |entries| ==> |entries[j]| == 7
    ensures BlockWidthsOk(LogTable(entries, show))
  {
    var b := LogTable(entries, show);
    PercentTotals();
    FullRow(b.rows[0], LogPercents);
    forall j | 1 <= j < |b.rows|
      ensures RowWidthsOk(b.rows[j])
    {
      assert b.rows[j] == LogRow(entries[j - 1], show);
    }
  }

  lemma TitleWidths(show: Value -> string)
    ensures WidthsOk(TitleBlocks(show))
  {
    var bs := TitleBlocks(show);
    assert BlockWidthsOk(bs[0]);
  }

  lemma InvestigatorWidths(data: ReportData, parse: DateParser, show: Value -> string)
    ensures WidthsOk(InvestigatorBlocks(data, parse, show))
  {
    var bs := InvestigatorBlocks(data, parse, show);
    PercentTotals();
    FullRow(bs[0].rows[0], [46, 54]);
    assert BlockWidthsOk(bs[0]);
    GridRowsOk(InfoRows(data, parse), show);
    assert BlockWidthsOk(bs[1]);
  }

  lemma PolisWidths(data: ReportData, parse: DateParser, show: Value -> string)
    ensures WidthsOk(PolisBlocks(data, parse, show))
  {
    var bs := PolisBlocks(data, parse, show);
    PercentTotals();
    assert BlockWidthsOk(bs[0]);
    GridRowsOk(PolisRows(data.lap, parse), show);
    assert BlockWidthsOk(bs[1]);
    FullRow(bs[2].rows[0], [29, 71]);
    assert BlockWidthsOk(bs[2]);
  }

  lemma KronologisWidths(data: ReportData, show: Value -> string)
    ensures WidthsOk(KronologisBlocks(data, show))
  {
    var bs := KronologisBlocks(data, show);
    PercentTotals();
    assert BlockWidthsOk(bs[0]);
    FullRow(bs[1].rows[0], [100]);
    FullRow(bs[1].rows[1], [100]);
    assert BlockWidthsOk(bs[1]);
  }

  lemma HeadWidths(data: ReportData, parse: DateParser, show: Value -> string)
    ensures WidthsOk(HeadBlocks(data, parse, show))
  {
    TitleWidths(show);
    InvestigatorWidths(data, parse, show);
    PolisWidths(data, parse, show);
    KronologisWidths(data, show);
    var t, i, p := TitleBlocks(show), InvestigatorBlocks(data, parse, show), PolisBlocks(data, parse, show);
    WidthsOkAppend(t, i);
    WidthsOkAppend(t + i, p);
    WidthsOkAppend(t + i + p, KronologisBlocks(data, show));
  }

  lemma LogWidths(data: ReportData, parse: DateParser, show: Value -> string)
    ensures WidthsOk(LogBlocks(data, parse, show))
    ensures WidthsOk(LanjutanBlocks(data, parse, show))
  {
    var bs := LogBlocks(data, parse, show);
    assert BlockWidthsOk(bs[0]);
    LogTableOk(DeskTexts(data.desk, parse), show);
    var ls := LanjutanBlocks(data, parse, show);
    if ls != [] {
      assert BlockWidthsOk(ls[0]);
      LogTableOk(LanjutanTexts(data.deskLanjutan, parse), show);
    }
  }

  lemma ResumeWidths(data: ReportData, show: Value -> string)
    ensures WidthsOk(ResumeBlocks(data, show))
  {
    var bs := ResumeBlocks(data, show);
    if bs != [] {
      PercentTotals();
      assert BlockWidthsOk(bs[0]);
      forall j | 0 <= j < |bs[1].rows|
        ensures RowWidthsOk(bs[1].rows[j])
      {
        FullRow(bs[1].rows[j], [100]);
      }
      assert BlockWidthsOk(bs[1]);
    }
  }

  lemma {:induction false} AnalysisWidths(analyses: seq<(string, Value)>, show: Value -> string)
    ensures WidthsOk(AnalysisBlocks(analyses, show))
  {
    if analyses != [] {
      var first := [CreateSectionTitle(analyses[0].0, show), AnalysisTable(analyses[0].1, show), EmptyParagraph];
      PercentTotals();
      assert BlockWidthsOk(first[0]);
      FullRow(first[1].rows[0], [100]);
      assert BlockWidthsOk(first[1]);
      AnalysisWidths(analyses[1..], show);
      WidthsOkAppend(first, AnalysisBlocks(analyses[1..], show));
    }
  }

  lemma DeswaWidths(data: ReportData, parse: DateParser, show: Value -> string)
    ensures WidthsOk(DeswaAwalBlocks(data, parse, show))
    ensures WidthsOk(DeswaLanjutanBlocks(data, parse, show))
  {
    var awal := DeswaAwalBlocks(data, parse, show);
    if data.deswa.Some? {
      assert BlockWidthsOk(awal[0]);
      PairRowsOk(DeswaAwalPairs(data.deswa.value, parse), show);
      assert BlockWidthsOk(awal[1]);
    }
    var lanjut := DeswaLanjutanBlocks(data, parse, show);
    if DeswaLanjutanShown(data.deswa) {
      assert BlockWidthsOk(lanjut[0]);
      PairRowsOk(DeswaLanjutanPairs(data.deswa.value, parse), show);
      assert BlockWidthsOk(lanjut[1]);
    }
  }

  lemma ApprovalWidths(show: Value -> string)
    ensures WidthsOk(ApprovalBlocks(show))
  {
    var bs := ApprovalBlocks(show);
    PercentTotals();
    FullRow(bs[0].rows[0], [100]);
    assert BlockWidthsOk(bs[0]);
    FullRow(bs[1].rows[0], [33, 33, 34]);
    FullRow(bs[1].rows[1], [33, 33, 34]);
    assert BlockWidthsOk(bs[1]);
  }

  lemma ClosingWidths(data: ReportData, parse: DateParser, show: Value -> string)
    ensures WidthsOk(ClosingBlocks(data, parse, show))
  {
    var an := AnalysisBlocks(Analyses(data), show);
    var awal, lanjut := DeswaAwalBlocks(data, parse, show), DeswaLanjutanBlocks(data, parse, show);
    AnalysisWidths(Analyses(data), show);
    DeswaWidths(data, parse, show);
    ApprovalWidths(show);
    WidthsOkAppend(an, awal);
    WidthsOkAppend(an + awal, lanjut);
    WidthsOkAppend(an + awal + lanjut, ApprovalBlocks(show));
  }

  /** Every table of the document is full width, and in every row either no cell sets a
      width or the cells' percentages add up to exactly 100. */
  lemma WordWidths(data: ReportData, parse: DateParser, show: Value -> string)
    ensures WidthsOk(WordBlocks(data, parse, show))
  {
    HeadWidths(data, parse, show);
    LogWidths(data, parse, show);
    ResumeWidths(data, show);
    ClosingWidths(data, parse, show);
    WidthsOkAppend(LanjutanBlocks(data, parse, show), ResumeBlocks(data, show));
    WidthsOkAppend(HeadBlocks(data, parse, show), LogBlocks(data, parse, show));
    WidthsOkAppend(HeadBlocks(data, parse, show) + LogBlocks(data, parse, show), OptionalBlocks(data, parse, show));
    WidthsOkAppend(HeadBlocks(data, parse, show) + LogBlocks(data, parse, show) + OptionalBlocks(data, parse, show),
                   ClosingBlocks(data, parse, show));
  }

  /* ---------- which sections appear ---------- */

  /** The titles as the cleaner prints them. */
  function ShowTitles(ts: seq<string>, show: Value -> string): (r: seq<string>)
    ensures |r| == |ts|
    ensures forall i :: 0 <= i < |ts| ==> r[i] == show(Str(ts[i]))
  {
    seq(|ts|, i requires 0 <= i < |ts| => show(Str(ts[i])))
  }

  lemma ShowTitlesAppend(a: seq<string>, b: seq<string>, show: Value -> string)
    ensures ShowTitles(a + b, show) == ShowTitles(a, show) + ShowTitles(b, show)
  {
  }

  const AnalysisNames: seq<string> :=
    ["ANALISA INVESTIGATOR INDEPENDENT", "ANALISA PIC INVESTIGATOR", "ANALISA MA",
     "PUTUSAN DEPARTEMENT HEAD", "KEPUTUSAN TEAM LEADER"]

  /** The section titles a report's document has: the three fixed ones, the follow-up
      log when it has records, the interview resume when there is one, the five
      analyses, the initial Deswa block when there is a Deswa row and the follow-up
      Deswa block when one of its dates is set. */
  function ExpectedTitles(data: ReportData): seq<string> {
    ["INFORMASI DATA POLIS", "CATATAN INFORMASI DATA POLIS"] + ["HASIL KONFIRMASI / INVESTIGASI"]
    + OptionalTitles(data) + ClosingTitleNames(data)
  }

  function OptionalTitles(data: ReportData): seq<string> {
    (if |data.deskLanjutan| > 0 then ["HASIL INVESTIGASI LANJUTAN"] else [])
    + (if |data.resumeInterview| > 0 then ["RESUME HASIL WAWANCARA AHLI WARIS"] else [])
  }

  function DeswaTitleNames(data: ReportData): seq<string> {
    (if data.deswa.Some? then ["DATA DESWA - INVESTIGASI AWAL"] else [])
    + (if DeswaLanjutanShown(data.deswa) then ["DATA DESWA - INVESTIGASI LANJUTAN"] else [])
  }

  function ClosingTitleNames(data: ReportData): seq<string> {
    AnalysisNames + DeswaTitleNames(data)
  }

  lemma HeadTitles(data: ReportData, parse: DateParser, show: Value -> string)
    ensures SectionTitles(HeadBlocks(data, parse, show))
            == ShowTitles(["INFORMASI DATA POLIS", "CATATAN INFORMASI DATA POLIS"], show)
  {
    var t, i := TitleBlocks(show), InvestigatorBlocks(data, parse, show);
    var p, k := PolisBlocks(data, parse, show), KronologisBlocks(data, show);
    FrontTitles(show);
    InvestigatorTitles(data, parse, show);
    PolisTitles(data, parse, show);
    KronologisTitles(data, show);
    TwoTitlesOfFourParts(t, i, p, k, "INFORMASI DATA POLIS", "CATATAN INFORMASI DATA POLIS", show);
  }

  lemma TwoTitlesOfFourParts(a: seq<Block>, b: seq<Block>, c: seq<Block>, d: seq<Block>,
                             x: string, y: string, show: Value -> string)
    requires SectionTitles(a) == [] && SectionTitles(b) == []
    requires SectionTitles(c) == [show(Str(x))] && SectionTitles(d) == [show(Str(y))]
    ensures SectionTitles(a + b + c + d) == ShowTitles([x, y], show)
  {
    SectionTitlesAppend(a, b);
    SectionTitlesAppend(a + b, c);
    SectionTitlesAppend(a + b + c, d);
  }

  lemma FrontTitles(show: Value -> string)
    ensures SectionTitles(TitleBlocks(show)) == []
  {
    var t := TitleBlocks(show);
    SectionTitlesOfTwo(t[0], t[1]);
    assert t == [t[0], t[1]];
  }

  lemma InvestigatorTitles(data: ReportData, parse: DateParser, show: Value -> string)
    ensures SectionTitles(InvestigatorBlocks(data, parse, show)) == []
  {
    var i := InvestigatorBlocks(data, parse, show);
    SectionTitlesOfThree(i[0], i[1], i[2]);
    assert i == [i[0], i[1], i[2]];
  }

  lemma PolisTitles(data: ReportData, parse: DateParser, show: Value -> string)
    ensures SectionTitles(PolisBlocks(data, parse, show)) == [show(Str("INFORMASI DATA POLIS"))]
  {
    var p := PolisBlocks(data, parse, show);
    SectionTitlesOfFour(p[0], p[1], p[2], p[3]);
    assert p == [p[0], p[1], p[2], p[3]];
  }

  lemma KronologisTitles(data: ReportData, show: Value -> string)
    ensures SectionTitles(KronologisBlocks(data, show)) == [show(Str("CATATAN INFORMASI DATA POLIS"))]
  {
    var k := KronologisBlocks(data, show);
    SectionTitlesOfThree(k[0], k[1], k[2]);
    assert k == [k[0], k[1], k[2]];
  }

  lemma LogTableNotTitle(entries: seq<seq<Value>>, show: Value -> string)
    requires forall j :: 0 <= j < |entries| ==> |entries[j]| == 7
    ensures TitleOf(LogTable(entries, show)) == []
  {
  }

  lemma LogTitles(data: ReportData, parse: DateParser, show: Value -> string)
    ensures SectionTitles(LogBlocks(data, parse, show)) == ShowTitles(["HASIL KONFIRMASI / INVESTIGASI"], show)
    ensures SectionTitles(LanjutanBlocks(data, parse, show))
            == ShowTitles(if |data.deskLanjutan| > 0 then ["HASIL INVESTIGASI LANJUTAN"] else [], show)
  {
    var l := LogBlocks(data, parse, show);
    SectionTitlesOfThree(l[0], l[1], l[2]);
    assert l == [l[0], l[1], l[2]];
    LogTableNotTitle(DeskTexts(data.desk, parse), show);
    var m := LanjutanBlocks(data, parse, show);
    if m != [] {
      SectionTitlesOfThree(m[0], m[1], m[2]);
      assert m == [m[0], m[1], m[2]];
      LogTableNotTitle(LanjutanTexts(data.deskLanjutan, parse), show);
    }
  }

  lemma ResumeTitles(data: ReportData, show: Value -> string)
    ensures SectionTitles(ResumeBlocks(data, show))
            == ShowTitles(if |data.resumeInterview| > 0 then ["RESUME HASIL WAWANCARA AHLI WARIS"] else [], show)
  {
    var r := ResumeBlocks(data, show);
    if r != [] {
      SectionTitlesOfThree(r[0], r[1], r[2]);
      assert r == [r[0], r[1], r[2]];
      assert r[1].rows[0].cells[0].shading == None;
    }
  }

  /** The names of the analyses, in order. */
  function AnalysisTitles(analyses: seq<(string, Value)>): (ts: seq<string>)
    ensures |ts| == |analyses|
    ensures forall i :: 0 <= i < |analyses| ==> ts[i] == analyses[i].0
  {
    seq(|analyses|, i requires 0 <= i < |analyses| => analyses[i].0)
  }

  lemma {:induction false} AnalysisSectionTitles(analyses: seq<(string, Value)>, show: Value -> string)
    ensures SectionTitles(AnalysisBlocks(analyses, show)) == ShowTitles(AnalysisTitles(analyses), show)
  {
    if analyses != [] {
      var first := [CreateSectionTitle(analyses[0].0, show), AnalysisTable(analyses[0].1, show), EmptyParagraph];
      SectionTitlesOfThree(first[0], first[1], first[2]);
      AnalysisSectionTitles(analyses[1..], show);
      SectionTitlesAppend(first, AnalysisBlocks(analyses[1..], show));
      assert AnalysisTitles(analyses) == [analyses[0].0] + AnalysisTitles(analyses[1..]);
      ShowTitlesAppend([analyses[0].0], AnalysisTitles(analyses[1..]), show);
    }
  }

  lemma DeswaTitles(data: ReportData, parse: DateParser, show: Value -> string)
    ensures SectionTitles(DeswaAwalBlocks(data, parse, show) + DeswaLanjutanBlocks(data, parse, show))
            == ShowTitles(DeswaTitleNames(data), show)
  {
    var awal := DeswaAwalBlocks(data, parse, show);
    if awal != [] {
      SectionTitlesOfThree(awal[0], awal[1], awal[2]);
      assert awal == [awal[0], awal[1], awal[2]];
    }
    var lanjut := DeswaLanjutanBlocks(data, parse, show);
    if lanjut != [] {
      SectionTitlesOfThree(lanjut[0], lanjut[1], lanjut[2]);
      assert lanjut == [lanjut[0], lanjut[1], lanjut[2]];
    }
    SectionTitlesAppend(awal, lanjut);
    ShowTitlesAppend(if data.deswa.Some? then ["DATA DESWA - INVESTIGASI AWAL"] else [],
                     if DeswaLanjutanShown(data.deswa) then ["DATA DESWA - INVESTIGASI LANJUTAN"] else [], show);
  }

  lemma ApprovalTitles(show: Value -> string)
    ensures SectionTitles(ApprovalBlocks(show)) == []
  {
    var appr := ApprovalBlocks(show);
    SectionTitlesOfTwo(appr[0], appr[1]);
    assert appr == [appr[0], appr[1]];
  }

  lemma AnalysesTitles(data: ReportData, show: Value -> string)
    ensures SectionTitles(AnalysisBlocks(Analyses(data), show)) == ShowTitles(AnalysisNames, show)
  {
    AnalysisSectionTitles(Analyses(data), show);
    assert AnalysisTitles(Analyses(data)) == AnalysisNames;
  }

  lemma ClosingTitles(data: ReportData, parse: DateParser, show: Value -> string)
    ensures SectionTitles(ClosingBlocks(data, parse, show)) == ShowTitles(ClosingTitleNames(data), show)
  {
    AnalysesTitles(data, show);
    DeswaTitles(data, parse, show);
    ApprovalTitles(show);
    ClosingFromParts(AnalysisBlocks(Analyses(data), show), DeswaAwalBlocks(data, parse, show),
                     DeswaLanjutanBlocks(data, parse, show), ApprovalBlocks(show),
                     AnalysisNames, DeswaTitleNames(data), show);
  }

  lemma ClosingFromParts(an: seq<Block>, awal: seq<Block>, lanjut: seq<Block>, appr: seq<Block>,
                         names: seq<string>, deswa: seq<string>, show: Value -> string)
    requires SectionTitles(an) == ShowTitles(names, show)
    requires SectionTitles(awal + lanjut) == ShowTitles(deswa, show)
    requires SectionTitles(appr) == []
    ensures SectionTitles(an + awal + lanjut + appr) == ShowTitles(names + deswa, show)
  {
    assert an + awal + lanjut + appr == an + (awal + lanjut) + appr;
    SectionTitlesAppend(an, awal + lanjut);
    SectionTitlesAppend(an + (awal + lanjut), appr);
    ShowTitlesAppend(names, deswa, show);
  }

  lemma OptionalSectionTitles(data: ReportData, parse: DateParser, show: Value -> string)
    ensures SectionTitles(OptionalBlocks(data, parse, show)) == ShowTitles(OptionalTitles(data), show)
  {
    LogTitles(data, parse, show);
    ResumeTitles(data, show);
    SectionTitlesAppend(LanjutanBlocks(data, parse, show), ResumeBlocks(data, show));
    ShowTitlesAppend(if |data.deskLanjutan| > 0 then ["HASIL INVESTIGASI LANJUTAN"] else [],
                     if |data.resumeInterview| > 0 then ["RESUME HASIL WAWANCARA AHLI WARIS"] else [], show);
  }

  /** The section titles of the document, in order, are exactly the expected ones: each
      conditional section appears when, and only when, its condition holds. */
  lemma WordTitles(data: ReportData, parse: DateParser, show: Value -> string)
    ensures SectionTitles(WordBlocks(data, parse, show)) == ShowTitles(ExpectedTitles(data), show)
  {
    var h, l := HeadBlocks(data, parse, show), LogBlocks(data, parse, show);
    var o, c := OptionalBlocks(data, parse, show), ClosingBlocks(data, parse, show);
    HeadTitles(data, parse, show);
    LogTitles(data, parse, show);
    OptionalSectionTitles(data, parse, show);
    ClosingTitles(data, parse, show);
    SectionTitlesAppend(h, l);
    SectionTitlesAppend(h + l, o);
    SectionTitlesAppend(h + l + o, c);
    var ht: seq<string> := ["INFORMASI DATA POLIS", "CATATAN INFORMASI DATA POLIS"];
    var lt: seq<string> := ["HASIL KONFIRMASI / INVESTIGASI"];
    ShowTitlesAppend(ht, lt, show);
    ShowTitlesAppend(ht + lt, OptionalTitles(data), show);
    ShowTitlesAppend(ht + lt + OptionalTitles(data), ClosingTitleNames(data), show);
  }

  /** Titles made only of printable characters with no white space at the ends print
      as they are. */
  lemma {:induction false} CleanTitles(ts: seq<string>)
    requires forall i :: 0 <= i < |ts| ==> IsClean(ts[i])
    ensures ShowTitles(ts, CleanText) == ts
  {
    forall i | 0 <= i < |ts|
      ensures CleanText(Str(ts[i])) == ts[i]
    {
      CleanTextFixpoint(ts[i]);
    }
  }

  predicate CleanNames(ts: seq<string>) {
    forall i :: 0 <= i < |ts| ==> IsClean(ts[i])
  }

  lemma CleanNamesAppend(a: seq<string>, b: seq<string>)
    requires CleanNames(a) && CleanNames(b)
    ensures CleanNames(a + b)
  {
    assert forall i :: |a| <= i < |a + b| ==> (a + b)[i] == b[i - |a|];
  }

  lemma FixedNamesClean()
    ensures CleanNames(["INFORMASI DATA POLIS", "CATATAN INFORMASI DATA POLIS"])
    ensures CleanNames(["HASIL KONFIRMASI / INVESTIGASI"])
  {
    assert IsClean("INFORMASI DATA POLIS");
    assert IsClean("CATATAN INFORMASI DATA POLIS");
    assert IsClean("HASIL KONFIRMASI / INVESTIGASI");
  }

  lemma OptionalNamesClean(data: ReportData)
    ensures CleanNames(OptionalTitles(data))
  {
    assert IsClean("HASIL INVESTIGASI LANJUTAN");
    assert IsClean("RESUME HASIL WAWANCARA AHLI WARIS");
  }

  lemma AnalysisNamesClean()
    ensures CleanNames(AnalysisNames)
  {
    var a: seq<string> := ["ANALISA INVESTIGATOR INDEPENDENT", "ANALISA PIC INVESTIGATOR", "ANALISA MA"];
    var b: seq<string> := ["PUTUSAN DEPARTEMENT HEAD", "KEPUTUSAN TEAM LEADER"];
    FirstAnalysisNamesClean();
    LastAnalysisNamesClean();
    CleanNamesAppend(a, b);
    assert AnalysisNames == a + b;
  }

  lemma FirstAnalysisNamesClean()
    ensures CleanNames(["ANALISA INVESTIGATOR INDEPENDENT", "ANALISA PIC INVESTIGATOR", "ANALISA MA"])
  {
    assert IsClean("ANALISA INVESTIGATOR INDEPENDENT");
    assert IsClean("ANALISA PIC INVESTIGATOR");
    assert IsClean("ANALISA MA");
  }

  lemma LastAnalysisNamesClean()
    ensures CleanNames(["PUTUSAN DEPARTEMENT HEAD", "KEPUTUSAN TEAM LEADER"])
  {
    assert IsClean("PUTUSAN DEPARTEMENT HEAD");
    assert IsClean("KEPUTUSAN TEAM LEADER");
  }

  lemma DeswaNamesClean(data: ReportData)
    ensures CleanNames(DeswaTitleNames(data))
  {
    assert IsClean("DATA DESWA - INVESTIGASI AWAL");
    assert IsClean("DATA DESWA - INVESTIGASI LANJUTAN");
  }

  lemma ExpectedTitlesClean(data: ReportData)
    ensures CleanNames(ExpectedTitles(data))
  {
    var ht: seq<string> := ["INFORMASI DATA POLIS", "CATATAN INFORMASI DATA POLIS"];
    var lt: seq<string> := ["HASIL KONFIRMASI / INVESTIGASI"];
    FixedNamesClean();
    OptionalNamesClean(data);
    AnalysisNamesClean();
    DeswaNamesClean(data);
    CleanNamesAppend(AnalysisNames, DeswaTitleNames(data));
    CleanNamesAppend(ht, lt);
    CleanNamesAppend(ht + lt, OptionalTitles(data));
    CleanNamesAppend(ht + lt + OptionalTitles(data), ClosingTitleNames(data));
  }

  /* ---------- the investigation tables ---------- */

  lemma BlockAt(h: seq<Block>, l: seq<Block>, o: seq<Block>, c: seq<Block>, i: nat)
    requires i < |l|
    ensures |h| + i < |h + l + o + c| && (h + l + o + c)[|h| + i] == l[i]
  {
  }

  /** Block 13 of the document is the on-desk log table: the header row, then one row
      per record, in query order. */
  lemma WordLogTable(data: ReportData, parse: DateParser, show: Value -> string)
    ensures 13 < |WordBlocks(data, parse, show)|
    ensures var b := WordBlocks(data, parse, show)[13];
      && b.Table? && |b.rows| == 1 + |data.desk| && b.rows[0] == LogHeaderRow(show)
      && forall j :: 0 <= j < |data.desk| ==> b.rows[j + 1] == LogRow(DeskValues(data.desk[j], parse), show)
  {
    BlockAt(HeadBlocks(data, parse, show), LogBlocks(data, parse, show), OptionalBlocks(data, parse, show),
            ClosingBlocks(data, parse, show), 1);
  }

  /** Cell k of data row j of the on-desk log table prints value k of record j. */
  lemma WordLogCell(data: ReportData, parse: DateParser, show: Value -> string, j: nat, k: nat)
    requires j < |data.desk| && k < 7
    ensures 13 < |WordBlocks(data, parse, show)| && WordBlocks(data, parse, show)[13].Table?
    ensures j + 1 < |WordBlocks(data, parse, show)[13].rows|
    ensures k < |WordBlocks(data, parse, show)[13].rows[j + 1].cells|
    ensures WordBlocks(data, parse, show)[13].rows[j + 1].cells[k].text == show(DeskValues(data.desk[j], parse)[k])
  {
    WordLogTable(data, parse, show);
    var b := WordBlocks(data, parse, show)[13];
    var vals := DeskValues(data.desk[j], parse);
    assert b.rows[j + 1] == LogRow(vals, show);
    RowCellText(b.rows[j + 1], vals, show, k);
  }

  lemma RowCellText(r: Row, vals: seq<Value>, show: Value -> string, k: nat)
    requires |vals| == 7 && k < 7 && r == LogRow(vals, show)
    ensures k < |r.cells| && r.cells[k].text == show(vals[k])
  {
  }

  /** When the follow-up log has records, block 16 is its table: the header row, then one
      row per record, in query order. */
  lemma WordLanjutanTable(data: ReportData, parse: DateParser, show: Value -> string)
    requires |data.deskLanjutan| > 0
    ensures 16 < |WordBlocks(data, parse, show)|
    ensures var b := WordBlocks(data, parse, show)[16];
      && b.Table? && |b.rows| == 1 + |data.deskLanjutan| && b.rows[0] == LogHeaderRow(show)
      && forall j :: 0 <= j < |data.deskLanjutan| ==>
           b.rows[j + 1] == LogRow(LanjutanValues(data.deskLanjutan[j], parse), show)
  {
    var hl := HeadBlocks(data, parse, show) + LogBlocks(data, parse, show);
    var m := LanjutanBlocks(data, parse, show);
    var rest := ResumeBlocks(data, show) + ClosingBlocks(data, parse, show);
    assert |hl| == 15;
    assert WordBlocks(data, parse, show) == hl + (m + rest);
    assert (hl + (m + rest))[16] == (m + rest)[1] == m[1];
  }

  /** The follow-up log prints every value as the on-desk log would, except a numeric 0
      in one of the three `|| "-"` columns (see LanjutanZeroHidden). */
  lemma LanjutanSameText(d: DeskEntry, parse: DateParser, k: nat)
    requires k < 7 && DeskValues(d, parse)[k] != Num(0)
    ensures CleanText(LanjutanValues(d, parse)[k]) == CleanText(DeskValues(d, parse)[k])
  {
    if k == 1 || k == 3 || k == 5 {
      OrDashSameText(DeskValues(d, parse)[k]);
    }
  }

  /** An activity of 0 prints as "0" in the on-desk log and as "-" in the follow-up log. */
  lemma LanjutanZeroHidden(d: DeskEntry, parse: DateParser)
    requires d.activity == Num(0)
    ensures CleanText(DeskValues(d, parse)[1]) == "0"
    ensures CleanText(LanjutanValues(d, parse)[1]) == "-"
  {
    assert DeskValues(d, parse)[1] == Num(0);
    assert LanjutanValues(d, parse)[1] == Or(Num(0), Str("-"));
    ZeroHiddenByOrDash();
  }

  /** The vendor SLA row of the initial Deswa block prints the SLA as cleanText would,
      except that a numeric 0 prints as "-". */
  lemma DeswaSlaText(d: Deswa, parse: DateParser)
    ensures CleanText(DeswaAwalPairs(d, parse)[2].1)
            == if d.slaProses == Num(0) then "-" else CleanText(d.slaProses)
  {
    if d.slaProses == Num(0) {
      ZeroHiddenByOrDash();
    } else {
      OrDashSameText(d.slaProses);
    }
  }

  /** The three signature boxes print the cleaned blank lines. */
  lemma SignatureCells(show: Value -> string)
    ensures |ApprovalBlocks(show)[1].rows| == 2 && |ApprovalBlocks(show)[1].rows[1].cells| == 3
    ensures forall i :: 0 <= i < 3 ==> ApprovalBlocks(show)[1].rows[1].cells[i].text == show(Str(Signature))
  {
  }

  /** ... and cleanText trims those blank lines away, so each box prints "-". */
  lemma SignatureDash()
    ensures CleanText(Str(Signature)) == "-"
  {
    BlankIsDash(Str(Signature));
  }

  /** The document is well formed: consistent widths, and exactly the expected section
      titles, printed as they are written. */
  lemma WordDocumentShape(data: ReportData, parse: DateParser)
    ensures WidthsOk(WordDocument(data, parse))
    ensures SectionTitles(WordDocument(data, parse)) == ExpectedTitles(data)
  {
    WordWidths(data, parse, CleanText);
    WordTitles(data, parse, CleanText);
    ExpectedTitlesClean(data);
    CleanTitles(ExpectedTitles(data));
  }

  /* ---------- the controller ---------- */

  /** What the Word controller answers: 404 when the report row is missing, otherwise
      the document, its file name and the Content-Disposition header naming it. */
  datatype WordResponse = WordNotFound | Word(blocks: seq<Block>, fileName: string, disposition: string)

  /** The file name and Content-Disposition header of a report's document: the
      file-safe insured's name followed by " - ", the id and ".docx", sent as an
      attachment. */
  function DocxAttachment(data: ReportData): (a: (string, string))
    ensures var n := |a.0| - |data.id| - 8;
      && 0 <= n && FileSafe(a.0[..n]) && Trimmed(a.0[..n]) && a.0[n..] == " - " + data.id + ".docx"
    ensures a.1 == "attachment; filename=\"" + a.0 + "\""
  {
    var name := FileName(data.lap.namaTertanggung, data.id, ".docx");
    var n := |name| - |data.id| - |".docx"| - 3;
    assert FileSafe(name[..n]) && Trimmed(name[..n]) && name[n..] == " - " + data.id + ".docx";
    assert n == |name| - |data.id| - 8;
    (name, "attachment; filename=\"" + name + "\"")
  }

  /** The answer for a found report: its document has consistent widths and exactly
      the expected section titles. */
  function WordFound(data: ReportData, parse: DateParser): (r: WordResponse)
    ensures r.Word? && WidthsOk(r.blocks) && SectionTitles(r.blocks) == ExpectedTitles(data)
    ensures (r.fileName, r.disposition) == DocxAttachment(data)
  {
    var blocks := WordDocument(data, parse);
    WordDocumentShape(data, parse);
    assert WidthsOk(blocks) && SectionTitles(blocks) == ExpectedTitles(data);
    var a := DocxAttachment(data);
    Word(blocks, a.0, a.1)
  }

  /** The controller for one looked-up report: 404 exactly when `found` is None (the id
      matches no row), otherwise the found report's answer. */
  function WordController(parse: DateParser, found: Option<ReportData>): (r: WordResponse)
    ensures r.WordNotFound? <==> found.None?
    ensures r.Word? ==> WidthsOk(r.blocks) && SectionTitles(r.blocks) == ExpectedTitles(found.value)
    ensures r.Word? ==>
      var n := |r.fileName| - |found.value.id| - 8;
      && 0 <= n && FileSafe(r.fileName[..n]) && Trimmed(r.fileName[..n])
      && r.fileName[n..] == " - " + found.value.id + ".docx"
  {
    match found
    case None => WordNotFound
    case Some(data) => WordFound(data, parse)
  }
}
