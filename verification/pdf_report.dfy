/** The PDF controller: the fixed sequence of banners, gaps and rows it lays out for one
    report, folded over the layout state from `y = 30` on page one, and what the
    finished layout shows. */
module PdfReport {
  import opened Wrappers
  import opened Text
  import opened Dates
  import opened Report
  import opened FileNames
  import opened PdfLayout

  /** One instruction of the controller: move the cursor down (`y += dy`), draw a banner
      at the cursor, or lay out a row with dynamicRow. */
  datatype Step =
    | Gap(dy: real)
    | Draw(kind: BannerKind, x: int, w: int, h: real, text: string)
    | Row(cols: seq<Col>)

  /** dynamicRow reads `cols[0].x`, so every row has a column. */
  predicate WellFormed(steps: seq<Step>) {
    forall i :: 0 <= i < |steps| ==> (steps[i].Row? ==> |steps[i].cols| > 0)
  }

  /** Only rows go through checkPage: a gap or a banner never adds a page. */
  function Apply(measure: Measure, st: Layout, s: Step): (r: Layout)
    requires s.Row? ==> |s.cols| > 0
    ensures !s.Row? ==> r.pages == st.pages
    ensures s.Gap? ==> r.log == st.log
    ensures s.Draw? ==> r.y == st.y
  {
    match s
    case Gap(dy) => st.(y := st.y + dy)
    case Draw(kind, x, w, h, text) => DrawBanner(st, kind, x, w, h, text)
    case Row(cols) => DynamicRow(measure, st, cols)
  }

  function Run(measure: Measure, st: Layout, steps: seq<Step>): Layout
    requires WellFormed(steps)
    decreases |steps|
  {
    if steps == [] then st
    else
      assert forall i :: 1 <= i < |steps| ==> steps[1..][i - 1] == steps[i];
      Run(measure, Apply(measure, st, steps[0]), steps[1..])
  }

  /* ---------- what a list of steps will show ---------- */

  /** The cell texts a step draws: its column texts shown through `show` (cleanText
      when the controller draws them). */
  function RowTexts(s: Step, show: Value -> string): seq<string> {
    if s.Row? then ColTexts(s.cols, show) else []
  }

  function DrawTexts(s: Step): seq<string> {
    if s.Draw? then [s.text] else []
  }

  function StepTexts(steps: seq<Step>, show: Value -> string): seq<string> {
    if steps == [] then [] else RowTexts(steps[0], show) + StepTexts(steps[1..], show)
  }

  function StepBanners(steps: seq<Step>): seq<string> {
    if steps == [] then [] else DrawTexts(steps[0]) + StepBanners(steps[1..])
  }

  lemma {:induction false} StepTextsAppend(a: seq<Step>, b: seq<Step>, show: Value -> string)
    ensures StepTexts(a + b, show) == StepTexts(a, show) + StepTexts(b, show)
  {
    if a == [] {
      assert a + b == b;
    } else {
      assert (a + b)[0] == a[0];
      assert (a + b)[1..] == a[1..] + b;
      StepTextsAppend(a[1..], b, show);
      var x, y, z := RowTexts(a[0], show), StepTexts(a[1..], show), StepTexts(b, show);
      assert StepTexts(a + b, show) == x + (y + z);
      assert x + (y + z) == (x + y) + z;
    }
  }

  lemma {:induction false} StepBannersAppend(a: seq<Step>, b: seq<Step>)
    ensures StepBanners(a + b) == StepBanners(a) + StepBanners(b)
  {
    if a == [] {
      assert a + b == b;
    } else {
      assert (a + b)[0] == a[0];
      assert (a + b)[1..] == a[1..] + b;
      StepBannersAppend(a[1..], b);
    }
  }

  predicate AllClean(ts: seq<string>) {
    forall i :: 0 <= i < |ts| ==> IsClean(ts[i])
  }

  lemma AllCleanAppend(a: seq<string>, b: seq<string>)
    requires AllClean(a) && AllClean(b)
    ensures AllClean(a + b)
  {
    forall i | 0 <= i < |a + b|
      ensures IsClean((a + b)[i])
    {
      if i >= |a| { assert (a + b)[i] == b[i - |a|]; }
    }
  }

  lemma RowTextsClean(s: Step)
    ensures AllClean(RowTexts(s, CleanText))
  {
    if s.Row? {
      var ts := ColTexts(s.cols, CleanText);
      forall i | 0 <= i < |ts|
        ensures IsClean(ts[i])
      {
        assert ts[i] == CleanText(s.cols[i].text);
      }
    }
  }

  /** Every cell text a list of steps draws is a cleanText result. */
  lemma {:induction false} StepTextsClean(steps: seq<Step>)
    ensures AllClean(StepTexts(steps, CleanText))
  {
    if steps != [] {
      RowTextsClean(steps[0]);
      StepTextsClean(steps[1..]);
      AllCleanAppend(RowTexts(steps[0], CleanText), StepTexts(steps[1..], CleanText));
    }
  }

  lemma Assoc(a: seq<string>, b: seq<string>, c: seq<string>)
    ensures (a + b) + c == a + (b + c)
  {
  }

  /** One step adds its row texts to the cells, its banner text to the banners, counts
      each page it opens, and never splits a cell. */
  lemma ApplyTrace(measure: Measure, st: Layout, s: Step)
    requires s.Row? ==> |s.cols| > 0
    ensures var r := Apply(measure, st, s);
            && CellTexts(r.log) == CellTexts(st.log) + RowTexts(s, CleanText)
            && BannerTexts(r.log) == BannerTexts(st.log) + DrawTexts(s)
            && r.pages + Breaks(st.log) == st.pages + Breaks(r.log)
            && (Placed(st.log) ==> Placed(r.log))
  {
    match s
    case Gap(_) =>
    case Draw(kind, x, w, h, text) =>
      var b := Banner(kind, x, st.y, w, h, text);
      LogAppend(st.log, [b]);
      assert Placed([b]);
      if Placed(st.log) { PlacedAppend(st.log, [b]); }
    case Row(cols) =>
      DynamicRowTrace(measure, st, cols);
  }

  /** The fold of the steps: the log gains exactly the steps' cell texts and banner texts
      in order, the page count grows by the number of breaks, and no cell is split. */
  lemma {:induction false} RunTrace(measure: Measure, st: Layout, steps: seq<Step>)
    requires WellFormed(steps)
    decreases |steps|
    ensures var r := Run(measure, st, steps);
            && CellTexts(r.log) == CellTexts(st.log) + StepTexts(steps, CleanText)
            && BannerTexts(r.log) == BannerTexts(st.log) + StepBanners(steps)
            && r.pages + Breaks(st.log) == st.pages + Breaks(r.log)
            && (Placed(st.log) ==> Placed(r.log))
  {
    if steps != [] {
      var st1 := Apply(measure, st, steps[0]);
      ApplyTrace(measure, st, steps[0]);
      assert WellFormed(steps[1..]) by {
        assert forall i :: 1 <= i < |steps| ==> steps[1..][i - 1] == steps[i];
      }
      RunTrace(measure, st1, steps[1..]);
      assert StepTexts(steps, CleanText) == RowTexts(steps[0], CleanText) + StepTexts(steps[1..], CleanText);
      assert StepBanners(steps) == DrawTexts(steps[0]) + StepBanners(steps[1..]);
      Assoc(CellTexts(st.log), RowTexts(steps[0], CleanText), StepTexts(steps[1..], CleanText));
      Assoc(BannerTexts(st.log), DrawTexts(steps[0]), StepBanners(steps[1..]));
    }
  }

  /* ---------- the controller's layout ---------- */

  /** The widths of the six-column grids. */
  const GridWidths: seq<int> := [20, 140, 92, 20, 150, 123]

  /** `wT`, the widths of the investigation log table. */
  const TableWidths: seq<int> := [90, 45, 65, 65, 75, 95, 95]

  function SumInts(s: seq<int>): int {
    if s == [] then 0 else SumInts(s[..|s| - 1]) + s[|s| - 1]
  }

  /** A six-column grid row; the two number columns are centred. */
  function GridRow(vals: seq<Value>): (s: Step)
    requires |vals| == 6
    ensures s.Row? && |s.cols| == 6
  {
    Row(seq(6, i requires 0 <= i < 6 =>
      Col(Margin, GridWidths[i], vals[i], 0.0, if i == 0 || i == 3 then AlignCenter else AlignLeft, false)))
  }

  function GridRows(rows: seq<seq<Value>>): seq<Step>
    requires forall i :: 0 <= i < |rows| ==> |rows[i]| == 6
  {
    if rows == [] then [] else [GridRow(rows[0])] + GridRows(rows[1..])
  }

  /** A full-width single-cell row with a minimum height. */
  function Wide(text: Value, min: real): Step {
    Row([Col(Margin, PageWidth, text, min, AlignLeft, false)])
  }

  /** `y += 15; sectionTitle(...); y += 18;` */
  function Section(text: string): seq<Step> {
    [Gap(15.0), Draw(SectionTitle, Margin, PageWidth, 18.0, text), Gap(18.0)]
  }

  /** The title bar, the two investigator headers and the investigator grid. */
  function TitleSteps(): seq<Step> {
    [ Draw(TitleBar, Margin, PageWidth, 25.0, "FORMULIR INVESTIGASI BRI LIFE"),
      Gap(45.0),
      Draw(HeaderCell, Margin, 252, 18.0, "INTERNAL BRI LIFE"),
      Draw(HeaderCell, Margin + 252, 293, 18.0, "VENDOR (DESWA)"),
      Gap(18.0) ]
  }

  function HeadSteps(data: ReportData, parse: DateParser): seq<Step> {
    TitleSteps() + GridRows(InfoRows(data, parse))
  }

  /** The policy section and the address row. */
  function PolisSteps(data: ReportData, parse: DateParser): seq<Step> {
    Section("INFORMASI DATA POLIS")
    + GridRows(PolisRows(data.lap, parse))
    + [Row([ Col(Margin, 160, Str("Detail Alamat"), 0.0, AlignLeft, true),
             Col(Margin, PageWidth - 160, data.lap.alamat, 0.0, AlignLeft, false) ])]
  }

  function KronologisSteps(data: ReportData): seq<Step> {
    Section("CATATAN INFORMASI DATA POLIS")
    + [ Draw(HeaderCell, Margin, PageWidth, 18.0, "Diagnosa / Kronologis Kematian"),
        Gap(18.0),
        Wide(data.lap.kronologis, 40.0) ]
  }

  /** The seven log-table headers, each at the left margin plus the widths before it. */
  function LogHeaderSteps(): (s: seq<Step>)
    ensures |s| == 7
  {
    seq(7, i requires 0 <= i < 7 =>
      Draw(HeaderCell, Margin + SumInts(TableWidths[..i]), TableWidths[i], 18.0, LogHeaders[i]))
  }

  /** One log row; the date-and-time column is centred. */
  function DeskRow(d: DeskEntry, parse: DateParser): (s: Step)
    ensures s.Row? && |s.cols| == 7
  {
    var vs := DeskValues(d, parse);
    Row(seq(7, i requires 0 <= i < 7 =>
      Col(Margin, TableWidths[i], vs[i], 0.0, if i == 0 then AlignCenter else AlignLeft, false)))
  }

  function DeskRows(desk: seq<DeskEntry>, parse: DateParser): (s: seq<Step>)
    ensures |s| == |desk|
  {
    if desk == [] then [] else [DeskRow(desk[0], parse)] + DeskRows(desk[1..], parse)
  }

  /** The investigation section: title, the header drawn once, then one row per log. */
  function LogSteps(data: ReportData, parse: DateParser): seq<Step> {
    Section("HASIL KONFIRMASI / INVESTIGASI") + LogHeaderSteps() + [Gap(18.0)] + DeskRows(data.desk, parse)
  }

  function ResumeRows(ri: seq<Value>): seq<Step> {
    if ri == [] then [] else [Wide(ri[0], 30.0)] + ResumeRows(ri[1..])
  }

  /** The interview resume appears only when there is at least one interview. */
  function ResumeSteps(data: ReportData): seq<Step> {
    if |data.resumeInterview| > 0 then
      Section("RESUME HASIL WAWANCARA AHLI WARIS") + ResumeRows(data.resumeInterview)
    else []
  }

  function AnalysisSteps(sections: seq<(string, Value)>): seq<Step> {
    if sections == [] then []
    else Section(sections[0].0) + [Wide(sections[0].1, 40.0)] + AnalysisSteps(sections[1..])
  }

  /** The approval header, the three names, and the blank signature row. */
  function ApprovalSteps(): seq<Step> {
    [ Gap(20.0),
      Draw(HeaderCell, Margin, PageWidth, 18.0, "PERSETUJUAN HASIL INVESTIGASI"),
      Gap(18.0),
      Row([ Col(Margin, 180, Str("Departement Head"), 0.0, AlignCenter, true),
            Col(Margin, 180, Str("Team Leader"), 0.0, AlignCenter, true),
            Col(Margin, 185, Str("MA"), 0.0, AlignCenter, true) ]),
      Row([ Col(Margin, 180, Str(""), 80.0, AlignLeft, false),
            Col(Margin, 180, Str(""), 80.0, AlignLeft, false),
            Col(Margin, 185, Str(""), 80.0, AlignLeft, false) ]) ]
  }

  function ClosingSteps(data: ReportData): seq<Step> {
    AnalysisSteps(Analyses(data)) + ApprovalSteps()
  }

  /** Everything the controller lays out, in order. */
  function PdfSteps(data: ReportData, parse: DateParser): seq<Step> {
    HeadSteps(data, parse) + PolisSteps(data, parse) + KronologisSteps(data)
    + LogSteps(data, parse) + ResumeSteps(data) + ClosingSteps(data)
  }

  /* ---------- what each part of the layout shows ---------- */

  lemma WellFormedAppend(a: seq<Step>, b: seq<Step>)
    requires WellFormed(a) && WellFormed(b)
    ensures WellFormed(a + b)
  {
    forall i | 0 <= i < |a + b| && (a + b)[i].Row?
      ensures |(a + b)[i].cols| > 0
    {
      if i >= |a| { assert (a + b)[i] == b[i - |a|]; }
    }
  }

  /** The number of cells a list of steps draws. */
  function CellCount(steps: seq<Step>): nat {
    if steps == [] then 0 else (if steps[0].Row? then |steps[0].cols| else 0) + CellCount(steps[1..])
  }

  lemma {:induction false} CellCountAppend(a: seq<Step>, b: seq<Step>)
    ensures CellCount(a + b) == CellCount(a) + CellCount(b)
  {
    if a == [] {
      assert a + b == b;
    } else {
      assert (a + b)[0] == a[0];
      assert (a + b)[1..] == a[1..] + b;
      CellCountAppend(a[1..], b);
    }
  }

  lemma {:induction false} StepTextsLength(steps: seq<Step>, show: Value -> string)
    ensures |StepTexts(steps, show)| == CellCount(steps)
  {
    if steps != [] {
      StepTextsLength(steps[1..], show);
    }
  }

  /** What a list of steps shows: well-formed, this many cells, these banners. */
  predicate Shows(steps: seq<Step>, cells: nat, banners: seq<string>) {
    WellFormed(steps) && CellCount(steps) == cells && StepBanners(steps) == banners
  }

  lemma ShowsAppend(a: seq<Step>, ca: nat, ba: seq<string>, b: seq<Step>, cb: nat, bb: seq<string>)
    requires Shows(a, ca, ba) && Shows(b, cb, bb)
    ensures Shows(a + b, ca + cb, ba + bb)
  {
    WellFormedAppend(a, b);
    CellCountAppend(a, b);
    StepBannersAppend(a, b);
  }

  lemma ShowsCons(s: Step, rest: seq<Step>, c: nat, b: seq<string>)
    requires s.Row? ==> |s.cols| > 0
    requires Shows(rest, c, b)
    ensures Shows([s] + rest, (if s.Row? then |s.cols| else 0) + c, DrawTexts(s) + b)
  {
    var steps := [s] + rest;
    assert steps[0] == s && steps[1..] == rest;
    assert WellFormed(steps) by {
      forall i | 0 <= i < |steps| && steps[i].Row?
        ensures |steps[i].cols| > 0
      {
        if i > 0 { assert steps[i] == rest[i - 1]; }
      }
    }
  }

  lemma SectionShows(text: string)
    ensures Shows(Section(text), 0, [text])
  {
    var g2 := Gap(18.0);
    var d := Draw(SectionTitle, Margin, PageWidth, 18.0, text);
    assert Shows([], 0, []);
    ShowsCons(g2, [], 0, []);
    ShowsCons(d, [g2], 0, []);
    ShowsCons(Gap(15.0), [d, g2], 0, [text]);
    assert [Gap(15.0)] + [d, g2] == Section(text);
  }

  lemma {:induction false} GridRowsShow(rows: seq<seq<Value>>)
    requires forall i :: 0 <= i < |rows| ==> |rows[i]| == 6
    ensures Shows(GridRows(rows), 6 * |rows|, [])
  {
    if rows != [] {
      GridRowsShow(rows[1..]);
      ShowsAppend([GridRow(rows[0])], 6, [], GridRows(rows[1..]), 6 * (|rows| - 1), []);
    }
  }

  lemma {:induction false} DrawsShow(steps: seq<Step>)
    requires forall i :: 0 <= i < |steps| ==> steps[i].Draw?
    ensures Shows(steps, 0, seq(|steps|, i requires 0 <= i < |steps| => steps[i].text))
  {
    if steps == [] {
    } else {
      var rest := steps[1..];
      DrawsShow(rest);
      ShowsCons(steps[0], rest, 0, seq(|rest|, i requires 0 <= i < |rest| => rest[i].text));
      assert [steps[0]] + rest == steps;
    }
  }

  const HeadBanners: seq<string> := ["FORMULIR INVESTIGASI BRI LIFE", "INTERNAL BRI LIFE", "VENDOR (DESWA)"]

  lemma TitleShows()
    ensures Shows(TitleSteps(), 0, HeadBanners)
  {
    var ts := TitleSteps();
    assert ts[1..][1..][1..][1..][1..] == [];
  }

  /** The two investigator headers sit side by side and together span the content width. */
  lemma InvestigatorHeaderPair()
    ensures TitleSteps()[2].Draw? && TitleSteps()[3].Draw?
    ensures TitleSteps()[2].x == Margin && TitleSteps()[3].x == TitleSteps()[2].x + TitleSteps()[2].w
    ensures TitleSteps()[2].w + TitleSteps()[3].w == PageWidth
  {
  }

  lemma HeadShows(data: ReportData, parse: DateParser)
    ensures Shows(HeadSteps(data, parse), 24, HeadBanners)
  {
    TitleShows();
    var rows := InfoRows(data, parse);
    GridRowsShow(rows);
    ShowsAppend(TitleSteps(), 0, HeadBanners, GridRows(rows), 24, []);
  }

  lemma PolisShows(data: ReportData, parse: DateParser)
    ensures Shows(PolisSteps(data, parse), 38, PolisBanners)
  {
    var alamat := Row([ Col(Margin, 160, Str("Detail Alamat"), 0.0, AlignLeft, true),
                        Col(Margin, PageWidth - 160, data.lap.alamat, 0.0, AlignLeft, false) ]);
    SectionShows("INFORMASI DATA POLIS");
    GridRowsShow(PolisRows(data.lap, parse));
    assert Shows([], 0, []);
    ShowsCons(alamat, [], 0, []);
    assert [alamat] + [] == [alamat];
    ShowsAppend(Section("INFORMASI DATA POLIS"), 0, ["INFORMASI DATA POLIS"], GridRows(PolisRows(data.lap, parse)), 36, []);
    ShowsAppend(Section("INFORMASI DATA POLIS") + GridRows(PolisRows(data.lap, parse)), 36, ["INFORMASI DATA POLIS"],
                [alamat], 2, []);
  }

  lemma KronologisTailShows(v: Value)
    ensures Shows([Draw(HeaderCell, Margin, PageWidth, 18.0, "Diagnosa / Kronologis Kematian"), Gap(18.0), Wide(v, 40.0)],
                  1, ["Diagnosa / Kronologis Kematian"])
  {
    var hd := Draw(HeaderCell, Margin, PageWidth, 18.0, "Diagnosa / Kronologis Kematian");
    var row := Wide(v, 40.0);
    assert Shows([], 0, []);
    ShowsCons(row, [], 0, []);
    assert [row] + [] == [row];
    ShowsCons(Gap(18.0), [row], 1, []);
    ShowsCons(hd, [Gap(18.0), row], 1, []);
    assert [hd] + [Gap(18.0), row] == [hd, Gap(18.0), row];
  }

  lemma KronologisShows(data: ReportData)
    ensures Shows(KronologisSteps(data), 1, KronologisBanners)
  {
    var tail := [Draw(HeaderCell, Margin, PageWidth, 18.0, "Diagnosa / Kronologis Kematian"), Gap(18.0),
                 Wide(data.lap.kronologis, 40.0)];
    KronologisTailShows(data.lap.kronologis);
    SectionShows("CATATAN INFORMASI DATA POLIS");
    ShowsAppend(Section("CATATAN INFORMASI DATA POLIS"), 0, ["CATATAN INFORMASI DATA POLIS"],
                tail, 1, ["Diagnosa / Kronologis Kematian"]);
  }

  lemma {:induction false} DeskRowsShow(desk: seq<DeskEntry>, parse: DateParser)
    ensures Shows(DeskRows(desk, parse), 7 * |desk|, [])
  {
    if desk != [] {
      DeskRowsShow(desk[1..], parse);
      ShowsCons(DeskRow(desk[0], parse), DeskRows(desk[1..], parse), 7 * (|desk| - 1), []);
    }
  }

  lemma LogHeadShows()
    ensures Shows(Section("HASIL KONFIRMASI / INVESTIGASI") + LogHeaderSteps() + [Gap(18.0)], 0, LogBanners)
  {
    var hs := LogHeaderSteps();
    SectionShows("HASIL KONFIRMASI / INVESTIGASI");
    DrawsShow(hs);
    assert seq(|hs|, i requires 0 <= i < |hs| => hs[i].text) == LogHeaders;
    assert Shows([Gap(18.0)], 0, []);
    ShowsAppend(Section("HASIL KONFIRMASI / INVESTIGASI"), 0, ["HASIL KONFIRMASI / INVESTIGASI"], hs, 0, LogHeaders);
    ShowsAppend(Section("HASIL KONFIRMASI / INVESTIGASI") + hs, 0, LogBanners, [Gap(18.0)], 0, []);
  }

  /** The table header is drawn once, before the rows, whatever the number of rows and
      wherever the pages break: the rows themselves draw no banner. */
  lemma LogShows(data: ReportData, parse: DateParser)
    ensures Shows(LogSteps(data, parse), 7 * |data.desk|, LogBanners)
  {
    LogHeadShows();
    DeskRowsShow(data.desk, parse);
    ShowsAppend(Section("HASIL KONFIRMASI / INVESTIGASI") + LogHeaderSteps() + [Gap(18.0)], 0, LogBanners,
                DeskRows(data.desk, parse), 7 * |data.desk|, []);
  }

  lemma {:induction false} ResumeRowsShow(ri: seq<Value>)
    ensures Shows(ResumeRows(ri), |ri|, [])
  {
    if ri != [] {
      ResumeRowsShow(ri[1..]);
      ShowsCons(Wide(ri[0], 30.0), ResumeRows(ri[1..]), |ri| - 1, []);
    }
  }

  const ResumeTitle: string := "RESUME HASIL WAWANCARA AHLI WARIS"

  lemma ResumeShows(data: ReportData)
    ensures Shows(ResumeSteps(data), |data.resumeInterview|,
                  if |data.resumeInterview| > 0 then [ResumeTitle] else [])
  {
    if |data.resumeInterview| > 0 {
      SectionShows(ResumeTitle);
      ResumeRowsShow(data.resumeInterview);
      ShowsAppend(Section(ResumeTitle), 0, [ResumeTitle], ResumeRows(data.resumeInterview), |data.resumeInterview|, []);
    } else {
      assert Shows([], 0, []);
    }
  }

  function Titles(sections: seq<(string, Value)>): (ts: seq<string>)
    ensures |ts| == |sections|
    ensures forall i :: 0 <= i < |sections| ==> ts[i] == sections[i].0
  {
    if sections == [] then [] else [sections[0].0] + Titles(sections[1..])
  }

  lemma {:induction false} AnalysisShows(sections: seq<(string, Value)>)
    ensures Shows(AnalysisSteps(sections), |sections|, Titles(sections))
  {
    if sections != [] {
      var row := Wide(sections[0].1, 40.0);
      SectionShows(sections[0].0);
      assert Shows([], 0, []);
      ShowsCons(row, [], 0, []);
      assert [row] + [] == [row];
      AnalysisShows(sections[1..]);
      ShowsAppend(Section(sections[0].0), 0, [sections[0].0], [row], 1, []);
      ShowsAppend(Section(sections[0].0) + [row], 1, [sections[0].0],
                  AnalysisSteps(sections[1..]), |sections| - 1, Titles(sections[1..]));
    }
  }

  const AnalysisBanners: seq<string> :=
    [ "ANALISA INVESTIGATOR INDEPENDENT", "ANALISA PIC INVESTIGATOR", "ANALISA MA",
      "PUTUSAN DEPARTEMENT HEAD", "KEPUTUSAN TEAM LEADER" ]

  const ClosingBanners: seq<string> := AnalysisBanners + ["PERSETUJUAN HASIL INVESTIGASI"]

  lemma ApprovalShows()
    ensures Shows(ApprovalSteps(), 6, ["PERSETUJUAN HASIL INVESTIGASI"])
  {
    var ap := ApprovalSteps();
    assert ap[1..][1..][1..][1..][1..] == [];
  }

  lemma AnalysisTitlesFixed(data: ReportData)
    ensures Titles(Analyses(data)) == AnalysisBanners
  {
    var t := Titles(Analyses(data));
    assert t == [t[0], t[1], t[2], t[3], t[4]];
  }

  lemma ClosingShows(data: ReportData)
    ensures Shows(ClosingSteps(data), 11, ClosingBanners)
  {
    ApprovalShows();
    AnalysisShows(Analyses(data));
    AnalysisTitlesFixed(data);
    ShowsAppend(AnalysisSteps(Analyses(data)), 5, AnalysisBanners, ApprovalSteps(), 6, ["PERSETUJUAN HASIL INVESTIGASI"]);
  }

  /* ---------- the finished layout ---------- */

  const PolisBanners: seq<string> := ["INFORMASI DATA POLIS"]
  const KronologisBanners: seq<string> := ["CATATAN INFORMASI DATA POLIS", "Diagnosa / Kronologis Kematian"]
  const LogBanners: seq<string> := ["HASIL KONFIRMASI / INVESTIGASI"] + LogHeaders

  /** The banners of the whole document, in order; only the interview section is
      conditional. */
  function PdfBanners(resume: bool): seq<string> {
    HeadBanners + PolisBanners + KronologisBanners + LogBanners
    + (if resume then [ResumeTitle] else [])
    + ClosingBanners
  }

  lemma ShowsConcat(a: seq<Step>, ca: nat, ba: seq<string>, b: seq<Step>, cb: nat, bb: seq<string>,
                    c: seq<Step>, cc: nat, bc: seq<string>, d: seq<Step>, cd: nat, bd: seq<string>,
                    e: seq<Step>, ce: nat, be: seq<string>, f: seq<Step>, cf: nat, bf: seq<string>)
    requires Shows(a, ca, ba) && Shows(b, cb, bb) && Shows(c, cc, bc)
    requires Shows(d, cd, bd) && Shows(e, ce, be) && Shows(f, cf, bf)
    ensures Shows(a + b + c + d + e + f, ca + cb + cc + cd + ce + cf, ba + bb + bc + bd + be + bf)
  {
    ShowsAppend(a, ca, ba, b, cb, bb);
    ShowsAppend(a + b, ca + cb, ba + bb, c, cc, bc);
    ShowsAppend(a + b + c, ca + cb + cc, ba + bb + bc, d, cd, bd);
    ShowsAppend(a + b + c + d, ca + cb + cc + cd, ba + bb + bc + bd, e, ce, be);
    ShowsAppend(a + b + c + d + e, ca + cb + cc + cd + ce, ba + bb + bc + bd + be, f, cf, bf);
  }

  lemma PdfShows(data: ReportData, parse: DateParser)
    ensures Shows(PdfSteps(data, parse), 74 + 7 * |data.desk| + |data.resumeInterview|,
                  PdfBanners(|data.resumeInterview| > 0))
  {
    HeadShows(data, parse);
    PolisShows(data, parse);
    KronologisShows(data);
    LogShows(data, parse);
    ResumeShows(data);
    ClosingShows(data);
    ShowsConcat(HeadSteps(data, parse), 24, HeadBanners,
                PolisSteps(data, parse), 38, PolisBanners,
                KronologisSteps(data), 1, KronologisBanners,
                LogSteps(data, parse), 7 * |data.desk|, LogBanners,
                ResumeSteps(data), |data.resumeInterview|, if |data.resumeInterview| > 0 then [ResumeTitle] else [],
                ClosingSteps(data), 11, ClosingBanners);
  }

  /** The start of the layout: page one, cursor at 30, nothing drawn. */
  const Start: Layout := Layout(30.0, 1, [])

  /** The controller's layout of one report. No cell is split across pages, the page
      count is one plus the breaks, the document has 74 fixed cells plus seven per log
      row and one per interview, every cell shows a cleanText result, and the banners
      are the fixed list, drawn once each whatever the pages do. */
  function RenderPdf(measure: Measure, parse: DateParser, data: ReportData): (r: Layout)
    ensures Placed(r.log)
    ensures r.pages == 1 + Breaks(r.log)
    ensures |CellTexts(r.log)| == 74 + 7 * |data.desk| + |data.resumeInterview|
    ensures AllClean(CellTexts(r.log))
    ensures BannerTexts(r.log) == PdfBanners(|data.resumeInterview| > 0)
  {
    var steps := PdfSteps(data, parse);
    PdfShows(data, parse);
    RunTrace(measure, Start, steps);
    StepTextsLength(steps, CleanText);
    StepTextsClean(steps);
    Run(measure, Start, steps)
  }

  /* ---------- where the log rows land ---------- */

  lemma DeskRowsTexts(desk: seq<DeskEntry>, parse: DateParser, j: nat, k: nat, show: Value -> string)
    requires j < |desk| && k < 7
    ensures 7 * j + k < |StepTexts(DeskRows(desk, parse), show)|
    ensures StepTexts(DeskRows(desk, parse), show)[7 * j + k] == show(DeskValues(desk[j], parse)[k])
  {
    var rows := DeskRows(desk, parse);
    var vals := seq(|desk|, i requires 0 <= i < |desk| => DeskValues(desk[i], parse));
    forall i | 0 <= i < |rows|
      ensures ShowsSeven(rows[i], vals[i], show)
    {
      DeskRowAt(desk, parse, i);
      DeskRowTexts(desk[i], parse, show);
    }
    SevenTextsAt(rows, vals, j, k, show);
  }

  lemma {:induction false} DeskRowAt(desk: seq<DeskEntry>, parse: DateParser, i: nat)
    requires i < |desk|
    ensures DeskRows(desk, parse)[i] == DeskRow(desk[i], parse)
  {
    if i > 0 {
      DeskRowAt(desk[1..], parse, i - 1);
    }
  }

  /** The row shows the seven values, in order. */
  predicate ShowsSeven(row: Step, vals: seq<Value>, show: Value -> string) {
    |RowTexts(row, show)| == 7 && |vals| == 7
    && forall c :: 0 <= c < 7 ==> RowTexts(row, show)[c] == show(vals[c])
  }

  /** In rows that show seven values each, value k of row j is text 7j + k. */
  lemma {:induction false} SevenTextsAt(rows: seq<Step>, vals: seq<seq<Value>>, j: nat, k: nat, show: Value -> string)
    requires |rows| == |vals| && j < |rows| && k < 7
    requires forall i :: 0 <= i < |rows| ==> ShowsSeven(rows[i], vals[i], show)
    ensures 7 * j + k < |StepTexts(rows, show)| && k < |vals[j]|
    ensures StepTexts(rows, show)[7 * j + k] == show(vals[j][k])
  {
    var head, tail := RowTexts(rows[0], show), StepTexts(rows[1..], show);
    assert StepTexts(rows, show) == head + tail;
    assert ShowsSeven(rows[0], vals[0], show);
    if j == 0 {
      IndexBefore(head, tail, k);
    } else {
      forall i | 0 <= i < |rows| - 1
        ensures ShowsSeven(rows[1..][i], vals[1..][i], show)
      {
        assert rows[1..][i] == rows[i + 1] && vals[1..][i] == vals[i + 1];
      }
      SevenTextsAt(rows[1..], vals[1..], j - 1, k, show);
      assert vals[1..][j - 1] == vals[j];
      IndexAfter(head, tail, 7 * (j - 1) + k);
    }
  }

  lemma EmptyFront<T>(x: seq<T>, y: seq<T>)
    requires x == []
    ensures x + y == y
  {
  }

  lemma IndexBefore<T>(x: seq<T>, y: seq<T>, i: nat)
    requires i < |x|
    ensures (x + y)[i] == x[i]
  {
  }

  lemma IndexAfter<T>(x: seq<T>, y: seq<T>, m: nat)
    requires m < |y|
    ensures |x| + m < |x + y| && (x + y)[|x| + m] == y[m]
  {
  }

  lemma SingleStepTexts(s: Step, show: Value -> string)
    ensures StepTexts([s], show) == RowTexts(s, show)
  {
    assert [s][1..] == [];
  }

  /** A log row shows the record's seven values, in order. */
  lemma DeskRowTexts(d: DeskEntry, parse: DateParser, show: Value -> string)
    ensures |RowTexts(DeskRow(d, parse), show)| == 7
    ensures forall k :: 0 <= k < 7 ==> RowTexts(DeskRow(d, parse), show)[k] == show(DeskValues(d, parse)[k])
  {
  }

  lemma StepTextsMiddle(a: seq<Step>, b: seq<Step>, c: seq<Step>, i: nat, show: Value -> string)
    requires i < |StepTexts(b, show)|
    ensures |StepTexts(a, show)| + i < |StepTexts(a + b + c, show)|
    ensures StepTexts(a + b + c, show)[|StepTexts(a, show)| + i] == StepTexts(b, show)[i]
  {
    StepTextsAppend(a, b, show);
    StepTextsAppend(a + b, c, show);
    IndexMiddle(StepTexts(a, show), StepTexts(b, show), StepTexts(c, show), i);
  }

  lemma IndexMiddle<T>(x: seq<T>, y: seq<T>, z: seq<T>, i: nat)
    requires i < |y|
    ensures |x| + i < |x + y + z| && (x + y + z)[|x| + i] == y[i]
  {
  }

  /** The fixed sections before the log rows draw 63 cells; the table header draws
      none. */
  lemma BeforeLogRowsCount(data: ReportData, parse: DateParser)
    ensures CellCount(HeadSteps(data, parse) + PolisSteps(data, parse) + KronologisSteps(data)
                      + (Section("HASIL KONFIRMASI / INVESTIGASI") + LogHeaderSteps() + [Gap(18.0)])) == 63
  {
    HeadShows(data, parse);
    PolisShows(data, parse);
    KronologisShows(data);
    LogHeadShows();
    ShowsAppend(HeadSteps(data, parse), 24, HeadBanners, PolisSteps(data, parse), 38, PolisBanners);
    ShowsAppend(HeadSteps(data, parse) + PolisSteps(data, parse), 62, HeadBanners + PolisBanners,
                KronologisSteps(data), 1, KronologisBanners);
    ShowsAppend(HeadSteps(data, parse) + PolisSteps(data, parse) + KronologisSteps(data), 63,
                HeadBanners + PolisBanners + KronologisBanners,
                Section("HASIL KONFIRMASI / INVESTIGASI") + LogHeaderSteps() + [Gap(18.0)], 0, LogBanners);
  }

  /** Where the log rows land among the cells. */
  lemma DeskCellIndex(data: ReportData, parse: DateParser, j: nat, k: nat, show: Value -> string)
    requires j < |data.desk| && k < 7
    ensures 63 + 7 * j + k < |StepTexts(PdfSteps(data, parse), show)|
    ensures StepTexts(PdfSteps(data, parse), show)[63 + 7 * j + k] == show(DeskValues(data.desk[j], parse)[k])
  {
    var before := HeadSteps(data, parse) + PolisSteps(data, parse) + KronologisSteps(data)
                  + (Section("HASIL KONFIRMASI / INVESTIGASI") + LogHeaderSteps() + [Gap(18.0)]);
    var rows := DeskRows(data.desk, parse);
    var tail := ResumeSteps(data) + ClosingSteps(data);
    assert PdfSteps(data, parse) == before + rows + tail;
    BeforeLogRowsCount(data, parse);
    StepTextsLength(before, show);
    DeskRowsTexts(data.desk, parse, j, k, show);
    StepTextsMiddle(before, rows, tail, 7 * j + k, show);
  }

  /** Cell k of log row j is the cleaned value k of that row, at the 64th cell of the
      document plus seven per earlier row. */
  lemma PdfDeskCell(measure: Measure, parse: DateParser, data: ReportData, j: nat, k: nat)
    requires j < |data.desk| && k < 7
    ensures 63 + 7 * j + k < |CellTexts(RenderPdf(measure, parse, data).log)|
    ensures CellTexts(RenderPdf(measure, parse, data).log)[63 + 7 * j + k]
            == CleanText(DeskValues(data.desk[j], parse)[k])
  {
    var steps := PdfSteps(data, parse);
    PdfShows(data, parse);
    DeskCellIndex(data, parse, j, k, CleanText);
    RunCellAt(measure, steps, 63 + 7 * j + k);
  }

  /** Cell i of a run from the start state is text i of its steps. */
  lemma RunCellAt(measure: Measure, steps: seq<Step>, i: nat)
    requires WellFormed(steps)
    requires i < |StepTexts(steps, CleanText)|
    ensures i < |CellTexts(Run(measure, Start, steps).log)|
    ensures CellTexts(Run(measure, Start, steps).log)[i] == StepTexts(steps, CleanText)[i]
  {
    RunTrace(measure, Start, steps);
    EmptyFront(CellTexts(Start.log), StepTexts(steps, CleanText));
  }

  /* ---------- widths ---------- */

  /** Every row among the steps is exactly `width` wide. */
  ghost predicate Spans(steps: seq<Step>, width: int) {
    forall i :: 0 <= i < |steps| && steps[i].Row? ==> SumW(steps[i].cols) == width
  }

  lemma SpansAppend(a: seq<Step>, b: seq<Step>, width: int)
    requires Spans(a, width) && Spans(b, width)
    ensures Spans(a + b, width)
  {
    forall i | 0 <= i < |a + b| && (a + b)[i].Row?
      ensures SumW((a + b)[i].cols) == width
    {
      if i >= |a| { assert (a + b)[i] == b[i - |a|]; }
    }
  }

  lemma {:induction false} SumWMatches(cols: seq<Col>, ws: seq<int>)
    requires |cols| == |ws|
    requires forall k :: 0 <= k < |cols| ==> cols[k].w == ws[k]
    ensures SumW(cols) == SumInts(ws)
  {
    if cols != [] {
      SumWMatches(cols[..|cols| - 1], ws[..|ws| - 1]);
    }
  }

  lemma SumIntsSnoc(s: seq<int>, x: int)
    ensures SumInts(s + [x]) == SumInts(s) + x
  {
    assert (s + [x])[..|s|] == s;
  }

  lemma GridWidthsSum()
    ensures SumInts(GridWidths) == PageWidth
  {
    SumIntsSnoc([], 20);
    assert [] + [20] == [20];
    SumIntsSnoc([20], 140);
    assert [20] + [140] == [20, 140];
    SumIntsSnoc([20, 140], 92);
    assert [20, 140] + [92] == [20, 140, 92];
    SumIntsSnoc([20, 140, 92], 20);
    assert [20, 140, 92] + [20] == [20, 140, 92, 20];
    SumIntsSnoc([20, 140, 92, 20], 150);
    assert [20, 140, 92, 20] + [150] == [20, 140, 92, 20, 150];
    SumIntsSnoc([20, 140, 92, 20, 150], 123);
    assert [20, 140, 92, 20, 150] + [123] == [20, 140, 92, 20, 150, 123];
  }

  /** `wT` sums to 530, fifteen short of the page's content width. */
  lemma TableWidthsSum()
    ensures SumInts(TableWidths) == 530 == PageWidth - 15
  {
    SumIntsSnoc([], 90);
    assert [] + [90] == [90];
    SumIntsSnoc([90], 45);
    assert [90] + [45] == [90, 45];
    SumIntsSnoc([90, 45], 65);
    assert [90, 45] + [65] == [90, 45, 65];
    SumIntsSnoc([90, 45, 65], 65);
    assert [90, 45, 65] + [65] == [90, 45, 65, 65];
    SumIntsSnoc([90, 45, 65, 65], 75);
    assert [90, 45, 65, 65] + [75] == [90, 45, 65, 65, 75];
    SumIntsSnoc([90, 45, 65, 65, 75], 95);
    assert [90, 45, 65, 65, 75] + [95] == [90, 45, 65, 65, 75, 95];
    SumIntsSnoc([90, 45, 65, 65, 75, 95], 95);
    assert [90, 45, 65, 65, 75, 95] + [95] == [90, 45, 65, 65, 75, 95, 95];
  }

  lemma GridRowsSpan(rows: seq<seq<Value>>)
    requires forall i :: 0 <= i < |rows| ==> |rows[i]| == 6
    ensures Spans(GridRows(rows), PageWidth)
  {
    GridWidthsSum();
    forall vals | |vals| == 6
      ensures SumW(GridRow(vals).cols) == PageWidth
    {
      SumWMatches(GridRow(vals).cols, GridWidths);
    }
    GridRowsSpanFrom(rows);
  }

  lemma {:induction false} GridRowsSpanFrom(rows: seq<seq<Value>>)
    requires forall i :: 0 <= i < |rows| ==> |rows[i]| == 6
    requires forall vals :: |vals| == 6 ==> SumW(GridRow(vals).cols) == PageWidth
    ensures Spans(GridRows(rows), PageWidth)
  {
    if rows != [] {
      GridRowsSpanFrom(rows[1..]);
      assert Spans([GridRow(rows[0])], PageWidth);
      SpansAppend([GridRow(rows[0])], GridRows(rows[1..]), PageWidth);
    }
  }

  /** Lists with no row span any width. */
  lemma NoRowsSpan(steps: seq<Step>, width: int)
    requires forall i :: 0 <= i < |steps| ==> !steps[i].Row?
    ensures Spans(steps, width)
  {
  }

  lemma WideSpans(v: Value, min: real)
    ensures Spans([Wide(v, min)], PageWidth)
  {
    var cols := Wide(v, min).cols;
    assert cols[..0] == [];
  }

  lemma {:induction false} DeskRowsSpan(desk: seq<DeskEntry>, parse: DateParser)
    ensures Spans(DeskRows(desk, parse), SumInts(TableWidths))
  {
    if desk != [] {
      var row := DeskRow(desk[0], parse);
      SumWMatches(row.cols, TableWidths);
      assert Spans([row], SumInts(TableWidths));
      DeskRowsSpan(desk[1..], parse);
      SpansAppend([row], DeskRows(desk[1..], parse), SumInts(TableWidths));
    }
  }

  /** Every row of the log table is `wT` wide: 530, fifteen short of the other rows. */
  lemma LogSpans(data: ReportData, parse: DateParser)
    ensures Spans(LogSteps(data, parse), 530)
  {
    TableWidthsSum();
    var before := Section("HASIL KONFIRMASI / INVESTIGASI") + LogHeaderSteps() + [Gap(18.0)];
    NoRowsSpan(before, 530);
    DeskRowsSpan(data.desk, parse);
    SpansAppend(before, DeskRows(data.desk, parse), 530);
  }

  lemma {:induction false} ResumeRowsSpan(ri: seq<Value>)
    ensures Spans(ResumeRows(ri), PageWidth)
  {
    if ri != [] {
      WideSpans(ri[0], 30.0);
      ResumeRowsSpan(ri[1..]);
      SpansAppend([Wide(ri[0], 30.0)], ResumeRows(ri[1..]), PageWidth);
    }
  }

  lemma {:induction false} AnalysisSpans(sections: seq<(string, Value)>)
    ensures Spans(AnalysisSteps(sections), PageWidth)
  {
    if sections != [] {
      NoRowsSpan(Section(sections[0].0), PageWidth);
      WideSpans(sections[0].1, 40.0);
      SpansAppend(Section(sections[0].0), [Wide(sections[0].1, 40.0)], PageWidth);
      AnalysisSpans(sections[1..]);
      SpansAppend(Section(sections[0].0) + [Wide(sections[0].1, 40.0)], AnalysisSteps(sections[1..]), PageWidth);
    }
  }

  lemma ApprovalSpans()
    ensures Spans(ApprovalSteps(), PageWidth)
  {
    var ap := ApprovalSteps();
    SignatureWidthsSum();
    SignatureRowSpans(ap[3]);
    SignatureRowSpans(ap[4]);
    assert !ap[0].Row? && !ap[1].Row? && !ap[2].Row?;
  }

  /** The signature columns 180 + 180 + 185 fill the content width. */
  lemma SignatureWidthsSum()
    ensures SumInts([180, 180, 185]) == PageWidth
  {
    SumIntsSnoc([], 180);
    assert [] + [180] == [180];
    SumIntsSnoc([180], 180);
    assert [180] + [180] == [180, 180];
    SumIntsSnoc([180, 180], 185);
    assert [180, 180] + [185] == [180, 180, 185];
  }

  lemma SignatureRowSpans(s: Step)
    requires s.Row? && |s.cols| == 3 && s.cols[0].w == 180 && s.cols[1].w == 180 && s.cols[2].w == 185
    ensures SumW(s.cols) == PageWidth
  {
    SignatureWidthsSum();
    SumWMatches(s.cols, [180, 180, 185]);
  }

  lemma PolisSpans(data: ReportData, parse: DateParser)
    ensures Spans(PolisSteps(data, parse), PageWidth)
  {
    var alamat := PolisSteps(data, parse)[|PolisSteps(data, parse)| - 1];
    SumWMatches(alamat.cols, [160, PageWidth - 160]);
    SumIntsSnoc([], 160);
    assert [] + [160] == [160];
    SumIntsSnoc([160], PageWidth - 160);
    assert [160] + [PageWidth - 160] == [160, PageWidth - 160];
    NoRowsSpan(Section("INFORMASI DATA POLIS"), PageWidth);
    GridRowsSpan(PolisRows(data.lap, parse));
    SpansAppend(Section("INFORMASI DATA POLIS"), GridRows(PolisRows(data.lap, parse)), PageWidth);
    SpansAppend(Section("INFORMASI DATA POLIS") + GridRows(PolisRows(data.lap, parse)), [alamat], PageWidth);
  }

  /** Every row outside the log table spans the page's content width W = 545: the
      grids (20+140+92+20+150+123), the address row (160+385), the full-width rows
      and the signature rows (180+180+185). */
  lemma PdfWidths(data: ReportData, parse: DateParser)
    ensures Spans(HeadSteps(data, parse) + PolisSteps(data, parse) + KronologisSteps(data), PageWidth)
    ensures Spans(LogSteps(data, parse), 530)
    ensures Spans(ResumeSteps(data) + ClosingSteps(data), PageWidth)
  {
    NoRowsSpan(TitleSteps(), PageWidth);
    GridRowsSpan(InfoRows(data, parse));
    SpansAppend(TitleSteps(), GridRows(InfoRows(data, parse)), PageWidth);
    PolisSpans(data, parse);
    SpansAppend(HeadSteps(data, parse), PolisSteps(data, parse), PageWidth);
    var kron := KronologisSteps(data);
    NoRowsSpan(kron[..5], PageWidth);
    WideSpans(data.lap.kronologis, 40.0);
    assert kron == kron[..5] + [Wide(data.lap.kronologis, 40.0)];
    SpansAppend(kron[..5], [Wide(data.lap.kronologis, 40.0)], PageWidth);
    SpansAppend(HeadSteps(data, parse) + PolisSteps(data, parse), kron, PageWidth);
    LogSpans(data, parse);
    if |data.resumeInterview| > 0 {
      NoRowsSpan(Section(ResumeTitle), PageWidth);
      ResumeRowsSpan(data.resumeInterview);
      SpansAppend(Section(ResumeTitle), ResumeRows(data.resumeInterview), PageWidth);
    }
    AnalysisSpans(Analyses(data));
    ApprovalSpans();
    SpansAppend(AnalysisSteps(Analyses(data)), ApprovalSteps(), PageWidth);
    SpansAppend(ResumeSteps(data), ClosingSteps(data), PageWidth);
  }

  /** Header i of the log table sits exactly above column i of every log row: same left
      edge, same width. */
  lemma LogHeaderAligned(d: DeskEntry, parse: DateParser, i: nat)
    requires i < 7
    ensures LogHeaderSteps()[i].x == Margin + SumW(DeskRow(d, parse).cols[..i])
    ensures LogHeaderSteps()[i].w == DeskRow(d, parse).cols[i].w
  {
    SumWMatches(DeskRow(d, parse).cols[..i], TableWidths[..i]);
  }

  /* ---------- the controller ---------- */

  /** What the PDF controller answers: 404 when the report row is missing, otherwise the
      laid-out document and the file name it computes. */
  datatype PdfResponse = PdfNotFound | Pdf(layout: Layout, fileName: string)

  /** The PDF's file name: the file-safe insured's name followed by " - ", the id and
      ".pdf". */
  function PdfFileName(data: ReportData): (name: string)
    ensures |name| >= |data.id| + 7
    ensures FileSafe(name[..|name| - |data.id| - 7]) && Trimmed(name[..|name| - |data.id| - 7])
    ensures name[|name| - |data.id| - 7..] == " - " + data.id + ".pdf"
  {
    var name := FileName(data.lap.namaTertanggung, data.id, ".pdf");
    var n := |name| - |data.id| - |".pdf"| - 3;
    assert FileSafe(name[..n]) && Trimmed(name[..n]) && name[n..] == " - " + data.id + ".pdf";
    assert n == |name| - |data.id| - 7;
    name
  }

  /** The answer for a found report: its layout from the start state, and a file name
      made of the file-safe insured's name, " - ", the id and ".pdf". */
  function PdfFound(measure: Measure, parse: DateParser, data: ReportData): (r: PdfResponse)
    ensures r.Pdf? && Placed(r.layout.log) && r.layout.pages == 1 + Breaks(r.layout.log)
    ensures BannerTexts(r.layout.log) == PdfBanners(|data.resumeInterview| > 0)
    ensures |r.fileName| >= |data.id| + 7
    ensures FileSafe(r.fileName[..|r.fileName| - |data.id| - 7])
    ensures Trimmed(r.fileName[..|r.fileName| - |data.id| - 7])
    ensures r.fileName[|r.fileName| - |data.id| - 7..] == " - " + data.id + ".pdf"
  {
    var layout := RenderPdf(measure, parse, data);
    var name := PdfFileName(data);
    Pdf(layout, name)
  }

  /** The controller for one looked-up report (`found` is None when the id matches no
      row). */
  function PdfController(measure: Measure, parse: DateParser, found: Option<ReportData>): (r: PdfResponse)
    ensures r.PdfNotFound? <==> found.None?
    ensures r.Pdf? ==> Placed(r.layout.log) && r.layout.pages == 1 + Breaks(r.layout.log)
    ensures r.Pdf? ==> BannerTexts(r.layout.log) == PdfBanners(|found.value.resumeInterview| > 0)
    ensures r.Pdf? ==>
      var n := |r.fileName| - |found.value.id| - 7;
      && 0 <= n && FileSafe(r.fileName[..n]) && Trimmed(r.fileName[..n])
      && r.fileName[n..] == " - " + found.value.id + ".pdf"
  {
    match found
    case None => PdfNotFound
    case Some(data) => PdfFound(measure, parse, data)
  }
}
