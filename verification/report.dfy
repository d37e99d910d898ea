/** The rows both generators read for one report, as the controller has fetched them
    before it starts laying out: the report itself, the vendor (Deswa) and BRI records
    when they exist, the on-desk logs in query order, the investigator's resume and the
    interview resumes. Every field is a JavaScript value; a missing row gives Absent
    for each of its fields, as `row?.field` does. */
module Report {
  import opened Wrappers
  import opened Text
  import opened Dates

  datatype Laporan = Laporan(
    namaPemegangPolis: Value,
    namaTertanggung: Value,
    noPeserta: Value,
    jenisKlaim: Value,
    jenisProduk: Value,
    uangPertanggungan: Value,
    tglMulaiAsuransi: Value,
    tglAkhirAsuransi: Value,
    noIdentitas: Value,
    tanggalMeninggal: Value,
    usiaPolis: Value,
    rekomendasi: Value,
    alamat: Value,
    kronologis: Value,
    analisaPicInvestigator: Value,
    analisaMa: Value,
    putusanKlaim: Value,
    analisaPutusan: Value)

  datatype Deswa = Deswa(
    picInvestigator: Value,
    tanggalMulai: Value,
    tanggalSelesai: Value,
    slaProses: Value,
    tanggalKirimLaporan: Value,
    tanggalTerimaKonfirmasiBri: Value,
    slaKonfirmasi: Value,
    tanggalMulaiOndeskLanjutan: Value,
    tanggalSelesaiOndeskLanjutan: Value,
    slaOndeskLanjutan: Value,
    tanggalKirimLaporanLanjutan: Value,
    tanggalTerimaKonfirmasiLanjutanBri: Value,
    slaKonfirmasiLanjutan: Value)

  datatype Bri = Bri(
    picInvestigator: Value,
    tanggalSubmitPicAnalis: Value,
    tanggalSubmitPicInvestigator: Value,
    sla: Value)

  /** One row of `hasil_on_desk` or `hasil_ondesk_lanjutan`. */
  datatype DeskEntry = DeskEntry(
    tanggalInvestigasi: Value,
    jamTelepon: Value,
    activity: Value,
    namaPetugas: Value,
    noKontak: Value,
    namaFaskes: Value,
    alamatFaskes: Value,
    hasilInvestigasi: Value)

  datatype ReportData = ReportData(
    id: string,
    lap: Laporan,
    deswa: Option<Deswa>,
    bri: Option<Bri>,
    desk: seq<DeskEntry>,
    deskLanjutan: seq<DeskEntry>,
    resumeInv: Option<Value>,
    resumeInterview: seq<Value>)

  /** `deswa?.field` */
  function DeswaField(d: Option<Deswa>, f: Deswa -> Value): Value {
    if d.Some? then f(d.value) else Absent
  }

  /** `bri?.field` */
  function BriField(b: Option<Bri>, f: Bri -> Value): Value {
    if b.Some? then f(b.value) else Absent
  }

  /** `resumeInv?.hasil` */
  function ResumeHasil(r: ReportData): Value {
    r.resumeInv.GetOr(Absent)
  }

  /* ---------- the content both generators lay out ---------- */

  /** The investigator grid: number, label and value for BRI, then the same for the
      vendor. */
  function InfoRows(data: ReportData, parse: DateParser): (rows: seq<seq<Value>>)
    ensures |rows| == 4 && forall i :: 0 <= i < |rows| ==> |rows[i]| == 6
  {
    var b := data.bri;
    var d := data.deswa;
    [ [Str("1"), Str("PIC Investigator (BRI)"), BriField(b, (x: Bri) => x.picInvestigator),
       Str("1"), Str("PIC Investigator (Vendor)"), DeswaField(d, (x: Deswa) => x.picInvestigator)],
      [Str("2"), Str("Tgl Submit Analis"), Str(FormatDate(BriField(b, (x: Bri) => x.tanggalSubmitPicAnalis), parse)),
       Str("2"), Str("Tanggal Terima"), Str(FormatDate(DeswaField(d, (x: Deswa) => x.tanggalMulai), parse))],
      [Str("3"), Str("Tgl Submit Inv"), Str(FormatDate(BriField(b, (x: Bri) => x.tanggalSubmitPicInvestigator), parse)),
       Str("3"), Str("Tanggal Selesai"), Str(FormatDate(DeswaField(d, (x: Deswa) => x.tanggalSelesai), parse))],
      [Str("4"), Str("SLA BRI"), BriField(b, (x: Bri) => x.sla),
       Str("4"), Str("SLA Vendor"), DeswaField(d, (x: Deswa) => x.slaProses)] ]
  }

  /** The policy grid, numbered 1 to 6 on the left and 7 to 12 on the right. */
  function PolisRows(lap: Laporan, parse: DateParser): (rows: seq<seq<Value>>)
    ensures |rows| == 6 && forall i :: 0 <= i < |rows| ==> |rows[i]| == 6
  {
    [ [Str("1"), Str("Pemegang Polis"), lap.namaPemegangPolis, Str("7"), Str("Jenis Klaim"), lap.jenisKlaim],
      [Str("2"), Str("Tertanggung"), lap.namaTertanggung, Str("8"), Str("Jenis Produk"), lap.jenisProduk],
      [Str("3"), Str("Nomor Polis"), lap.noPeserta, Str("9"), Str("UP / Nilai Klaim"), lap.uangPertanggungan],
      [Str("4"), Str("Mulai Asuransi"), Str(FormatDate(lap.tglMulaiAsuransi, parse)),
       Str("10"), Str("No KTP"), lap.noIdentitas],
      [Str("5"), Str("Akhir Asuransi"), Str(FormatDate(lap.tglAkhirAsuransi, parse)),
       Str("11"), Str("Tgl Meninggal"), Str(FormatDate(lap.tanggalMeninggal, parse))],
      [Str("6"), Str("Usia Polis"), lap.usiaPolis, Str("12"), Str("Rekomendasi"), lap.rekomendasi] ]
  }

  /** The headings of the investigation log table. */
  const LogHeaders: seq<string> :=
    ["Tanggal / Jam", "Activity", "Petugas", "No Kontak", "Faskes", "Alamat Faskes", "Hasil"]

  /** The first column of a log row: the Indonesian date, a line break, and the call
      time or "--:--" when there is none. */
  function DeskWhen(d: DeskEntry, parse: DateParser): Value {
    Str(FormatDateIndo(d.tanggalInvestigasi, parse) + "\nJam " + ToStr(Or(d.jamTelepon, Str("--:--"))))
  }

  /** The seven values of one row of the on-desk log. */
  function DeskValues(d: DeskEntry, parse: DateParser): (vs: seq<Value>)
    ensures |vs| == |LogHeaders|
  {
    [DeskWhen(d, parse), d.activity, d.namaPetugas, d.noKontak, d.namaFaskes, d.alamatFaskes, d.hasilInvestigasi]
  }

  /** The five closing analysis sections, in the order both generators print them. */
  function Analyses(data: ReportData): (s: seq<(string, Value)>)
    ensures |s| == 5
  {
    [ ("ANALISA INVESTIGATOR INDEPENDENT", ResumeHasil(data)),
      ("ANALISA PIC INVESTIGATOR", data.lap.analisaPicInvestigator),
      ("ANALISA MA", data.lap.analisaMa),
      ("PUTUSAN DEPARTEMENT HEAD", data.lap.putusanKlaim),
      ("KEPUTUSAN TEAM LEADER", data.lap.analisaPutusan) ]
  }
}
