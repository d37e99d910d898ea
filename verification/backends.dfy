/** The two generators side by side. They share cleanText, the date formats and the
    file-name rule, so for the same report they print the same text in every cell of
    the investigation log. */
module Backends {
  import opened Text
  import opened Dates
  import opened Report
  import opened PdfLayout
  import opened PdfReport
  import opened DocxReport

  /** Cell k of log row j holds the same text in the Word table as in the PDF, where it
      is the 64th drawn cell plus seven per earlier row plus k. */
  lemma SameLogCell(measure: Measure, parse: DateParser, data: ReportData, j: nat, k: nat)
    requires j < |data.desk| && k < 7
    ensures 13 < |WordDocument(data, parse)| && WordDocument(data, parse)[13].Table?
    ensures j + 1 < |WordDocument(data, parse)[13].rows|
    ensures k < |WordDocument(data, parse)[13].rows[j + 1].cells|
    ensures 63 + 7 * j + k < |CellTexts(RenderPdf(measure, parse, data).log)|
    ensures WordDocument(data, parse)[13].rows[j + 1].cells[k].text
            == CellTexts(RenderPdf(measure, parse, data).log)[63 + 7 * j + k]
  {
    WordLogCell(data, parse, CleanText, j, k);
    PdfDeskCell(measure, parse, data, j, k);
  }
}
