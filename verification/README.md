# On-desk investigation reports: a Dafny model

The application records on-desk claim investigations for BRI Life. It stores the claim
report, the vendor (Deswa) and BRI timelines, call logs and interview resumes, and it
renders a report either as a PDF (drawn with PDFKit) or as a Word document (built with
the docx library). This project models three parts of it:

- **The PDF layout engine.** This covers `cleanText`, `autoRowHeight`, `checkPage` and
  `dynamicRow`, plus the fixed sequence of banners, grids and table rows the controller
  draws.
  - The model threads a layout state (cursor `y`, page count, draw log) through pure
    functions.
  - `doc.heightOfString` is an uninterpreted function parameter (`measure`).
- **The Word document builder.** It reuses the same text and date helpers. The model
  builds the block/row/cell tree and proves:
  - the percentage widths add up to 100 in every row;
  - each log table has one data row per record;
  - the section titles are exactly those the data calls for.
- **The decision rules of the route handlers.** These are modelled over in-memory tables
  (sequences and maps):
  - access control and list filtering;
  - the `status_asuransi` array fix;
  - `telepon_ke` validation (a model of JavaScript `parseInt`);
  - the SLA day formulas;
  - the three-call quotas;
  - the call-log duplicate check;
  - the resume upserts.

**Modules:**

| module | content |
|---|---|
| `Wrappers` | `Option` |
| `Numerals` | `String(n)` |
| `Text` | JavaScript values, falsiness, white space, `cleanText` |
| `Dates` | `formatDate` and `formatDateIndo` over an abstract date parser |
| `FileNames` | the download name |
| `Report` | the fetched rows both generators read |
| `PdfLayout` | the drawing primitives |
| `PdfReport` | the PDF controller |
| `Docx` | cell and table builders |
| `DocxReport` | the Word controller |
| `Backends` | the two generators compared |
| `Routes` | the route decision rules |

## Model

| member | source | states |
|---|---|---|
| `Text.ReplaceAll` | pdf/laporanPdf.js:44-47 | a character-class replace keeps the length and swaps exactly the targeted characters for the substitute |
| `Text.RemoveUnkept` | pdf/laporanPdf.js:48 | after the last pass only printable ASCII, newline, carriage return and tab remain |
| `Text.Sanitize` | pdf/laporanPdf.js:43-48 | the five passes leave only drawable characters |
| `Text.SanitizeMatchesReference` | pdf/laporanPdf.js:43-48 | the five sequential passes equal one pass that maps the curly quotes, dashes and no-break space and drops everything else undrawable |
| `Text.SanitizeOfKept` | pdf/laporanPdf.js:43-48 | a string of drawable characters passes through unchanged |
| `Text.TrimStart` | routes/index.js:720 | removes exactly the leading white space that `parseInt` skips |
| `Text.Trim` | pdf/laporanPdf.js:49 | the result has no white space at either end, keeps drawable-only text drawable, and is empty only for all-white-space input |
| `Text.TrimIsCut` | pdf/laporanPdf.js:49 | the trimmed text is one piece of the input with only white space before and after it |
| `Text.CleanText` | pdf/laporanPdf.js:40-50 | the result is non-empty, trimmed and drawable; null/undefined and text that cleans to nothing give "-" |
| `Text.CleanTextMatchesReference` | pdf/laporanPdf.js:40-50 | cleanText is "-" for null/undefined, and otherwise the trimmed one-pass normalisation of the value's text, or "-" when that is empty |
| `Text.CleanTextFixpoint` | pdf/laporanPdf.js:40-50 | cleanText returns a string unchanged exactly when it is already a possible cleanText result |
| `Text.CleanTextIdempotent` | pdf/laporanPdf.js:40-50 | cleaning twice equals cleaning once |
| `Text.CleanTextOfNumber` | pdf/laporanPdf.js:42 | a numeric cell prints its plain decimal text |
| `Text.BlankIsDash` | word/laporanWord.js:37 | a value made only of white space prints as "-" |
| `Text.OrDashSameText` | word/laporanWord.js:334-338 | the "-" fallback prints the same text as the plain value for every value except the number 0 |
| `Text.ZeroHiddenByOrDash` | word/laporanWord.js:396 | for the number 0 the "-" fallback prints "-" where the plain value prints "0" |
| `Numerals.NatToString` | pdf/laporanPdf.js:35-37 | a natural number prints as at least one digit, one digit exactly below 10, at most two exactly below 100 |
| `Numerals.NatRoundTrip` | pdf/laporanPdf.js:35-37 | reading the printed digits back gives the number |
| `Numerals.IntToString` | pdf/laporanPdf.js:42 | an integer prints as digits with a leading minus exactly when negative |
| `Numerals.IntRoundTrip` | pdf/laporanPdf.js:42 | reading the printed integer back gives the integer |
| `Dates.TwoDigits` | pdf/laporanPdf.js:35-37 | `padStart(2, "0")` of a number below 100 is two digits |
| `Dates.TwoDigitsRoundTrip` | pdf/laporanPdf.js:35-37 | the padded digits read back as the number |
| `Dates.FormatDate` | pdf/laporanPdf.js:31-38 | "-" for a falsy value or "0000-00-00", the value itself when it is no date, otherwise padded day, padded month and year separated by "/" |
| `Dates.FormatDateRoundTrip` | pdf/laporanPdf.js:31-38 | a formatted date reads back as the day, month and year the date parser produced |
| `Dates.FormatDateIndo` | pdf/laporanPdf.js:8-29 | "-" for a falsy value or "0000-00-00", the value itself when it is no date |
| `Dates.MonthIndexOfName` | pdf/laporanPdf.js:13-26 | every Indonesian month name identifies its month and holds no space |
| `Dates.FormatDateIndoRoundTrip` | pdf/laporanPdf.js:8-29 | "day month-name year" reads back as the date the parser produced |
| `FileNames.RemoveForbidden` | pdf/laporanPdf.js:170 | none of the ten characters a file name forbids (slash, backslash, question mark, percent, star, colon, vertical bar, double quote, angle brackets) remains |
| `FileNames.CollapseSpaces` | pdf/laporanPdf.js:171 | no two white-space characters remain adjacent and every remaining one is a plain space |
| `FileNames.CollapseSpacesMatchesReference` | pdf/laporanPdf.js:171 | collapsing equals the one-pass reading: white space after white space is dropped, other white space becomes one space, every other character is kept |
| `FileNames.CollapseKeepsVisible` | pdf/laporanPdf.js:171 | collapsing white space keeps every visible character in order |
| `FileNames.FileStem` | pdf/laporanPdf.js:169-172 | the name part is free of forbidden characters and space runs, and trimmed |
| `FileNames.FileStemKeepsVisible` | pdf/laporanPdf.js:169-172 | the name part keeps every visible, allowed character of the cleaned name |
| `FileNames.FileName` | pdf/laporanPdf.js:169-172 | the file name is a safe, trimmed stem followed by " - ", the report id and the extension |
| `FileNames.SameStemAnyExtension` | word/laporanWord.js:513-516 | the PDF and the Word file of a report differ only in the extension |
| `Report.InfoRows` | pdf/laporanPdf.js:201-228 | the investigator grid is four rows of six values |
| `Report.PolisRows` | pdf/laporanPdf.js:245-295 | the policy grid is six rows of six values |
| `Report.DeskValues` | pdf/laporanPdf.js:347-363 | a log row has one value per log-table heading |
| `Report.Analyses` | pdf/laporanPdf.js:377-382 | there are five closing analyses |
| `PdfLayout.MinHeight` | pdf/laporanPdf.js:120 | a column's given minimum is used, and 20 when none is given |
| `PdfLayout.AutoRowHeight` | pdf/laporanPdf.js:52-60 | the cell height is at least the minimum and at least the measured cleaned text plus 12, and equals one of the two |
| `PdfLayout.MaxOf` | pdf/laporanPdf.js:121 | the maximum bounds every element and is one of them |
| `PdfLayout.RowHeight` | pdf/laporanPdf.js:119-121 | the row height bounds every cell's height and is one of them |
| `PdfLayout.RowHeightCoversCells` | pdf/laporanPdf.js:119-121 | the row is at least as tall as every cell's minimum and every cell's measured text plus 12 |
| `PdfLayout.CheckPage` | pdf/laporanPdf.js:62-68 | a block that fits leaves the state unchanged; one that would pass 750 adds exactly one page and restarts at 40 |
| `PdfLayout.DrawCells` | pdf/laporanPdf.js:125-129 | one cell is drawn per remaining column |
| `PdfLayout.DrawCellsPlaced` | pdf/laporanPdf.js:125-129 | each cell sits at the row's left edge plus the widths of the columns before it |
| `PdfLayout.DynamicRow` | pdf/laporanPdf.js:119-132 | the row breaks the page exactly when it would pass the bottom; all cells are drawn at one top and height; the cursor ends at top plus height, and the row either fits or starts at 40 |
| `PdfLayout.RowEndsAboveBottom` | pdf/laporanPdf.js:123-131 | a row that fits on an empty page never leaves the cursor below 750 |
| `PdfLayout.TallRowOverflows` | pdf/laporanPdf.js:123-131 | a row taller than a page opens a new page and still runs past 750 |
| `PdfLayout.DrawBanner` | pdf/laporanPdf.js:89-113 | a header cell or section title is drawn at the cursor with no page check and leaves the cursor and page count alone |
| `PdfLayout.ColTexts` | pdf/laporanPdf.js:127 | the texts a row prints are its column values through the cleaner, in column order |
| `PdfLayout.CheckPageTrace` | pdf/laporanPdf.js:62-68 | checkPage adds no text, and one recorded break per page it opens |
| `PdfLayout.DrawCellsTrace` | pdf/laporanPdf.js:125-129 | the drawn cells print the column texts in order and nothing else |
| `PdfLayout.DynamicRowTrace` | pdf/laporanPdf.js:119-132 | dynamicRow adds the cleaned column texts, no banner and one break per new page, and splits no cell |
| `PdfReport.Apply` | pdf/laporanPdf.js:313-319 | a gap or a banner never adds a page; gaps draw nothing and banners do not move the cursor |
| `PdfReport.ApplyTrace` | pdf/laporanPdf.js:313-319 | one step adds its row's cleaned texts and its banner text, counts its page breaks and splits no cell |
| `PdfReport.RunTrace` | pdf/laporanPdf.js:178-410 | the whole sequence adds exactly the steps' cell and banner texts in order, one break per new page, and splits no cell |
| `PdfReport.StepTextsClean` | pdf/laporanPdf.js:81 | every drawn cell text is a cleanText result |
| `PdfReport.InvestigatorHeaderPair` | pdf/laporanPdf.js:197-198 | the two investigator headers sit side by side and span the content width 545 |
| `PdfReport.LogHeaderAligned` | pdf/laporanPdf.js:335-363 | header i of the log table has the left edge and width of column i of every log row |
| `PdfReport.LogShows` | pdf/laporanPdf.js:322-364 | the log section draws its header once and seven cells per record, whatever the page breaks |
| `PdfReport.ResumeShows` | pdf/laporanPdf.js:367-374 | the interview section (title and one row per interview) appears only when there is an interview |
| `PdfReport.AnalysisTitlesFixed` | pdf/laporanPdf.js:377-382 | the analysis banners are the five fixed titles in order |
| `PdfReport.ClosingShows` | pdf/laporanPdf.js:377-410 | the closing part draws the five analyses, the approval header, the names and the signature boxes |
| `PdfReport.PdfShows` | pdf/laporanPdf.js:178-410 | the controller's steps draw 74 cells plus 7 per log record plus 1 per interview, under the expected banners |
| `PdfReport.RenderPdf` | pdf/laporanPdf.js:178-410 | the layout splits no cell, has one page more than it has breaks, and prints the expected number of clean cell texts under the expected banners |
| `PdfReport.PdfDeskCell` | pdf/laporanPdf.js:347-364 | value k of log record j is cell 63 + 7j + k of the drawing, cleaned |
| `PdfReport.GridWidthsSum` | pdf/laporanPdf.js:229-237 | the six grid columns span the content width 545 |
| `PdfReport.TableWidthsSum` | pdf/laporanPdf.js:326 | the log-table widths add up to 530, fifteen short of 545 |
| `PdfReport.SignatureWidthsSum` | pdf/laporanPdf.js:395-410 | the three signature columns span the content width |
| `PdfReport.LogSpans` | pdf/laporanPdf.js:347-364 | every log row is exactly 530 wide |
| `PdfReport.PdfWidths` | pdf/laporanPdf.js:178-410 | every row outside the log table is 545 wide, and the log rows are 530 |
| `PdfReport.PdfFileName` | pdf/laporanPdf.js:169-172 | the PDF's name is a file-safe, trimmed stem followed by " - ", the id and ".pdf" |
| `PdfReport.PdfFound` | pdf/laporanPdf.js:148-178 | a found report gets an unsplit layout with one page more than breaks, the expected banners and the safe ".pdf" name |
| `PdfReport.PdfController` | pdf/laporanPdf.js:138-172 | 404 exactly when the report row is missing; otherwise an unsplit layout with the expected banners and a safe file name ending in " - " + id + ".pdf" |
| `Docx.CreateTableCell` | word/laporanWord.js:44-64 | the cell shows the cleaned text; it defaults to left alignment, regular weight and size 16; width and fill appear only when given; all margins are 100 |
| `Docx.DefaultCell` | word/laporanWord.js:44-64 | a cell made without options is left-aligned, regular weight, size 16, with no width and no fill |
| `Docx.CellTextClean` | word/laporanWord.js:51 | every cell's text is a cleanText result, and a missing value shows "-" |
| `Docx.CreateSectionTitle` | word/laporanWord.js:66-77 | a section title is a full-width one-by-one table whose cell is bold, centred, size 18 and shaded 92D050 |
| `Docx.CreateHeaderCell` | word/laporanWord.js:79-81 | a header cell is bold, centred, size 16, shaded E7E6E6 and of the given width |
| `Docx.FullRow` | word/laporanWord.js:137-142 | a row whose cells set widths adding up to 100 has consistent widths |
| `DocxReport.GridRow` | word/laporanWord.js:135-176 | a grid row shows its six values with the widths 4, 25, 17, 4, 27, 23 |
| `DocxReport.LogTable` | word/laporanWord.js:285-311 | an investigation table is the header row followed by one row per record, in order |
| `DocxReport.LanjutanValues` | word/laporanWord.js:331-341 | a follow-up row equals an on-desk row except that activity, contact and address fall back to "-" |
| `DocxReport.DeswaAwalPairs` | word/laporanWord.js:376-428 | the initial Deswa table has 7 rows when the report-sent or confirmation date is set, else 4, and its SLA row falls back to "-" |
| `DocxReport.DeswaLanjutanPairs` | word/laporanWord.js:431-477 | the follow-up Deswa table has 6 rows when a follow-up report or confirmation date is set, else 3 |
| `DocxReport.LanjutanBlocks` | word/laporanWord.js:315-345 | the follow-up log appears only when it has records |
| `DocxReport.ResumeBlocks` | word/laporanWord.js:348-357 | the interview resumes appear only when there are any |
| `DocxReport.AnalysisBlocksAt` | word/laporanWord.js:360-373 | analysis i occupies blocks 3i to 3i+2: its title, its one-cell table, a spacer |
| `DocxReport.DeswaAwalBlocks` | word/laporanWord.js:376-428 | the initial Deswa block appears exactly when there is a Deswa row |
| `DocxReport.DeswaLanjutanBlocks` | word/laporanWord.js:431-477 | the follow-up Deswa block appears exactly when there is a Deswa row with a follow-up date |
| `DocxReport.PercentTotals` | word/laporanWord.js:290-296 | every width list the builder uses adds up to 100 |
| `DocxReport.LogTableOk` | word/laporanWord.js:285-311 | the log table's header row sums to 100 and its data rows set no width |
| `DocxReport.WordWidths` | word/laporanWord.js:102-509 | every table is full width, and every row either sets no width or sets widths summing to 100 |
| `DocxReport.WordTitles` | word/laporanWord.js:183-432 | the document's section titles are exactly the fixed ones plus those whose condition holds, in order |
| `DocxReport.ExpectedTitlesClean` | word/laporanWord.js:183-432 | every title is printable, so cleanText shows it unchanged |
| `DocxReport.WordLogCell` | word/laporanWord.js:299-309 | cell k of data row j of the on-desk table shows value k of record j |
| `DocxReport.WordLanjutanTable` | word/laporanWord.js:315-345 | when there are follow-up records, block 16 is their table: header, then one row per record |
| `DocxReport.LanjutanSameText` | word/laporanWord.js:331-341 | a follow-up cell prints what the on-desk cell would, unless the value is 0 |
| `DocxReport.LanjutanZeroHidden` | word/laporanWord.js:334 | an activity of 0 prints "0" in the on-desk table and "-" in the follow-up table |
| `DocxReport.DeswaSlaText` | word/laporanWord.js:396 | the SLA row prints what cleanText of the SLA prints, except that 0 prints "-" |
| `DocxReport.SignatureCells` | word/laporanWord.js:498-504 | the three signature boxes show the cleaned blank lines |
| `DocxReport.SignatureDash` | word/laporanWord.js:500-502 | the blank signature lines print as "-" |
| `DocxReport.WordDocumentShape` | word/laporanWord.js:102-509 | the document has consistent widths and exactly the expected section titles |
| `DocxReport.DocxAttachment` | word/laporanWord.js:513-519 | the download name is a safe, trimmed stem plus " - " + id + ".docx", and the header quotes it as an attachment |
| `DocxReport.WordController` | word/laporanWord.js:87-524 | 404 exactly when the report row is missing; otherwise a well-formed document with the attachment name |
| `Backends.SameLogCell` | word/laporanWord.js:299-309 | cell k of log row j shows the same text in the Word table as in the PDF |
| `Routes.ViewReport` | routes/index.js:192-205 | 404 when no report matches; otherwise 403 unless the role is admin or bri or the user wrote the report |
| `Routes.OwnReports` | routes/index.js:137-147 | a non-privileged user gets exactly the reports they wrote, in query order |
| `Routes.ListReports` | routes/index.js:129-147 | admin and bri get every report; anyone gets a subsequence of the table |
| `Routes.ListedIffViewable` | routes/index.js:129-205 | a report is listed exactly when the user may open it |
| `Routes.StatusFix` | routes/index.js:248 | a repeated field is read as its first value, a single one as itself |
| `Routes.StatusFixFirst` | routes/index.js:248 | a repeated field reads as if sent once with its first value |
| `Routes.DigitsPrefix` | routes/index.js:720 | `parseInt` reads the longest prefix of digits, and stops at the first non-digit |
| `Routes.NumeralThenText` | routes/index.js:720 | `parseInt` reads a decimal numeral back, ignoring text that follows it |
| `Routes.CallNumber` | routes/index.js:720-722 | a call number is accepted exactly when it parses to 1, 2 or 3 |
| `Routes.PhoneColumns` | routes/index.js:740-742 | call n's date and time columns are existing columns |
| `Routes.PhoneColumnsAgree` | routes/index.js:740-742 | for a bare numeral or number the columns named from the raw field are those of the parsed call |
| `Routes.TeleponSuffixAccepted` | routes/index.js:720-742 | "2x" passes validation as call 2, yet names the missing column "tgl_telpon_2x" |
| `Routes.UpsertInterview` | routes/index.js:685-706 | when the report has resume rows, each of them gets the new texts in place and every other row is unchanged; when it has none, exactly one row with those texts is appended |
| `Routes.UpsertInterviewKeepsOne` | routes/index.js:685-706 | upserting keeps at most one interview resume per report |
| `Routes.EnsureInterview` | routes/index.js:725-737 | the phone route leaves the rows as they are when the report has a resume row, and otherwise appends one blank row for it |
| `Routes.SetPhone` | routes/index.js:720-747 | 400 exactly for a call number other than 1 to 3, with the rows untouched; otherwise 200 with that call recorded for the report, every row of another report unchanged and at most one row per report kept |
| `Routes.RecordCall` | routes/index.js:725-744 | the report ends with a row; its existing rows get the call's date and time and nothing else, a missing row is appended blank with only that call set, and every row of another report is unchanged |
| `Routes.SetCall` | routes/index.js:740-744 | the UPDATE for a validated call number sets that call's date and time on the report's rows and changes nothing else |
| `Routes.SetPhoneAsWritten` | routes/index.js:714-752 | as written: 400 exactly for a rejected call number, with the rows untouched; otherwise the default row is inserted and the database's reading of the statement with the raw field pasted in decides, 500 when it rejects it, else 200 with whatever update it applies |
| `Routes.SetPhoneAsWrittenAgrees` | routes/index.js:720-744 | for the numerals and numbers 1 to 3 the route as written and the corrected route give the same status and rows |
| `Routes.NameAfterNumeralFails` | routes/index.js:740-750 | an accepted field whose numeral runs into a letter, underscore or dollar sign gives 500 with only the default row inserted, whatever else the database accepts |
| `Routes.SetPhoneFinding` | routes/index.js:720-747 | for "2x", the route as written answers 500 and leaves a blank row, where the corrected one records call 2 |
| `Routes.MySqlReadsColumns` | routes/index.js:740-744 | the MySQL reading used for the injected field agrees with what every reading does for "1" to "3" and for a numeral that runs into a name |
| `Routes.InjectionRewritesOtherReports` | routes/index.js:720-747 | for "1=? WHERE 1=1 #" under the MySQL reading, the route as written answers 200 after setting call 1's date on every row of every report, where the corrected one leaves other reports' rows unchanged |
| `Routes.UpsertResume` | routes/index.js:628-642 | when the report has investigator resumes, each is replaced by one with the new text and every other row is unchanged; when it has none, exactly one is appended |
| `Routes.UpsertResumeKeepsOne` | routes/index.js:628-642 | upserting keeps at most one investigator resume per report |
| `Routes.AddCallLog` | routes/index.js:518-550 | 404 for an unknown on-desk record, 409 exactly when a call of the same record has a date and time equal to the request's under the database's comparison of those columns (collation, DATE/TIME conversion; NULL never equal), otherwise exactly one row tied to the record's report |
| `Routes.RepeatedCallRefused` | routes/index.js:530-539 | under any comparison that finds a value equal to itself, sending the same dated call twice is refused the second time |
| `Routes.UndatedCallStoredTwice` | routes/index.js:530-539 | with no date the duplicate check never matches, whatever the comparison, so an identical call is stored twice |
| `Routes.OnDeskCall` | routes/index.js:1015-1023 | 400 and no insert once the record has three calls, otherwise one row and a redirect |
| `Routes.OnDeskQuotaKept` | routes/index.js:1015-1017 | through this route no record gets past three calls |
| `Routes.CallLogIgnoresQuota` | routes/index.js:513-550 | the call-log route has no quota: a record with three calls or more gets one more whenever the call is not a duplicate |
| `Routes.InterviewCall` | routes/index.js:1033-1041 | 400 and no insert once the interview has three rows, otherwise one row, and no report gains a resume row |
| `Routes.InterviewQuotaKept` | routes/index.js:1033-1035 | through this route no interview gets past three rows |
| `Routes.CeilDiv` | routes/index.js:900 | `Math.ceil(a / b)` is the least r with a <= r·b |
| `Routes.CeilDivUnique` | routes/index.js:900 | only one integer meets those bounds |
| `Routes.SlaDays` | routes/index.js:898-900 | the SLA is a day count exactly when both dates are readable, and that count is the elapsed time rounded up to whole days |
| `Routes.DeswaRoute` | routes/index.js:898-921 | the vendor insert fails with 500 and stores nothing exactly when a date cannot be read; otherwise it stores the elapsed days rounded up |
| `Routes.BriSla` | routes/index.js:966-971 | the BRI SLA is NULL exactly when a date is falsy, NaN exactly when both are truthy and one cannot be read, and otherwise the elapsed days rounded up |
| `Routes.BriRoute` | routes/index.js:966-993 | a falsy date stores NULL with 200; two truthy dates give exactly the vendor route's status and stored SLA |
| `Routes.MissingDateSla` | routes/index.js:898-993 | a missing date stores a NULL BRI SLA, but the vendor insert fails with 500 |
| `Routes.SlaRounding` | routes/index.js:900 | same instant is 0 days, one millisecond is 1 day, a day and a millisecond is 2 days |

## Left out

- **PDFKit drawing.** Colours, fonts, strokes, text positioning inside a cell and the
  stream to the response are left out. A drawn cell or banner is an event in the log.
- **`doc.heightOfString`.** It is the function parameter `measure`, with no assumption
  about its values. PDFKit measures in the font the previous text call left set: 9pt
  bold after a section title, 8pt bold after a header cell, the previous cell's weight
  after a cell. The parameter sees only the text and the width, so that dependence on
  font state is not modelled.
- **Float rounding.** `y` and heights are exact reals.
- **The docx library.** `Packer.toBuffer` and the XML the library writes are left out;
  only the block/row/cell tree is built.
- **JavaScript `Date`.** `new Date`, time zones and `isNaN(d)` become the parameters
  `parse` (to local day, month and year) and `toMs` (to a millisecond timestamp). The
  model assumes nothing about how these read a string.
- **SQL, Express, sessions, bcrypt and HTTP plumbing.** Tables are sequences and maps,
  and a query result is a parameter. So is how MySQL compares a column with request
  text under `=` (collation, DATE/TIME conversion): `Routes.ColumnEq`. Auto-increment
  ids and `insertId` are not modelled, and neither is the JSON body of a response.
- **Concurrency.** Two requests racing between the check and the insert of an upsert or
  a quota route are not modelled. Each handler is one atomic step.
- **Request values.** A request or column value is `null`/`undefined`, a string or an
  integer. Fractional numbers are not modelled, and neither is `parseInt` on a
  fractional number. A number prints in plain decimal at every size, whereas
  JavaScript's `String(n)` switches to exponent form from 1e21 on.
- Numerals.IntToString: prints every integer in plain decimal. JavaScript prints a
  number of magnitude 1e21 or more as "1e+21" and the like; such numbers are not
  modelled.
- Text.CleanTextOfNumber: holds for the model's numbers. A cell holding 1e21 or more
  prints in exponent form in the source, which the model does not cover.
- Routes.SetPhoneAsWritten: reads a numeric `telepon_ke` through plain decimal. The JSON
  body `{"telepon_ke": 1e21}` reaches `parseInt("1e+21")`, which is 1, so the source
  accepts it while the model answers 400. The corrected `Routes.SetPhone` shares this
  gap.
- Routes.SetPhoneAsWritten: the database's parsing of the UPDATE with the raw field
  pasted in is a parameter. Every reading must treat "1" to "3" and a numeral running
  into a name as MySQL does. Other texts are pinned only in `Routes.MySqlReading`,
  which covers "1" to "3" and the one injected text and rejects everything else.
- **`parseInt` coverage.** It is modelled for base 10 and the `0x` prefix. Other
  radixes and the `Infinity` text are not modelled, because the route never passes a
  radix.
- **The PDF file name.** The PDF controller computes `fileName` but never sends it in a
  header. The model returns it with the layout, and nothing depends on that.
- **Error handlers and side routes.** The 500 `catch` branches of both generators are
  left out, because they only report I/O failures. So are the double response of the
  investigator-resume route after a database error and the routes outside the rules
  above (create, edit, delete, login).
- **Schema and start-up.** The migration scripts, `app.js` and `check_schema.js` are left
  out; they hold no decision logic.
- PdfLayout.DynamicRow: the page count counts only the pages checkPage opens. PDFKit
  also continues `doc.text` onto a new page by itself when the text passes the bottom
  margin (841.89 - 25 = 816.89 on A4, pdf/laporanPdf.js:174); that continuation is not
  modelled.
- PdfLayout.TallRowOverflows: the one extra page is checkPage's page; PDFKit's own
  continuation of the overflowing cell text is not counted.
- PdfLayout.DrawBanner: "adds no page" means checkPage adds none. A banner drawn below
  816.89 would make PDFKit continue onto a new page, which is not modelled.
- PdfReport.Apply: a gap or banner adds no checkPage page; PDFKit's own continuation is
  not counted.
- PdfReport.RenderPdf: "one page more than breaks" counts checkPage's pages only, not
  pages PDFKit adds by itself for text past the bottom margin.
- PdfReport.PdfFound: the same page count as RenderPdf, with the same gap.
- PdfReport.PdfController: the same page count as RenderPdf, with the same gap.
- Routes.SlaDays: stores a number of days as an unbounded integer. JavaScript computes
  a double and MySQL stores an `INT`; no overflow of either is modelled.

## Findings

| source | as written | input that shows it | evidently intended | confidence | as-written member | corrected member |
|---|---|---|---|---|---|---|
| routes/index.js:720-744 | the call number is validated with `parseInt(telepon_ke)`, but the column names paste the raw field: `tgl_telpon_${telepon_ke}` | `telepon_ke = "2x"`: accepted as call 2. The UPDATE names the missing column `tgl_telpon_2x` and fails with 500, after the default resume row has been inserted. Any accepted field whose numeral runs straight into a name fails the same way | name the columns from the validated number, `tgl_telpon_2` / `jam_telpon_2` | not executed | `Routes.SetPhoneAsWritten` | `Routes.SetPhone` |
| routes/index.js:740-747 | the raw `telepon_ke` is pasted into the SQL text of the UPDATE, after the validation that only looks at its leading numeral | `telepon_ke = "1=? WHERE 1=1 #"`: accepted as call 1. The field is pasted into both column names, so the statement becomes `UPDATE resume_hasil_interview SET tgl_telpon_1=? WHERE 1=1 #=?, jam_telpon_1=? WHERE 1=1 #=? WHERE laporan_id=?`, and everything from the first `#` on is a comment. Call 1's date is set on every row of every report, every time is left as it was, and the route answers 200 (`Routes.InjectionRewritesOtherReports`) | name the columns from the validated number, so the statement updates only the report's rows | not executed | `Routes.SetPhoneAsWritten` | `Routes.SetPhone` |
