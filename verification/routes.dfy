/** The decision rules of the route handlers, over an in-memory picture of the tables
    they read and write. A handler is a function from the request and the tables to the
    response status and the new tables; a SQL comparison with a NULL operand is false,
    as in the database. */
module Routes {
  import opened Wrappers
  import opened Text
  import opened Numerals

  /* ---------- who may see a report ---------- */

  datatype User = User(id: int, role: string)

  /** The columns of `laporan_investigasi` the access rules read: the id and the author
      (NULL for a report without one). */
  datatype ReportRow = ReportRow(id: int, createdBy: Option<int>)

  /** Admins and BRI staff see every report. */
  predicate Privileged(u: User) {
    u.role == "admin" || u.role == "bri"
  }

  /** The rule of the detail page: a privileged user, or the report's author. */
  predicate CanView(u: User, r: ReportRow) {
    Privileged(u) || r.createdBy == Some(u.id)
  }

  datatype ViewResult = ViewNotFound | ViewForbidden | ViewOk(report: ReportRow)

  /** The detail page: 404 when the id matches no report, otherwise 403 unless the role
      is admin or bri or the user wrote the report. */
  function ViewReport(u: User, found: Option<ReportRow>): (r: ViewResult)
    ensures r.ViewNotFound? <==> found.None?
    ensures r.ViewForbidden? <==> found.Some? && !CanView(u, found.value)
    ensures r.ViewOk? <==> found.Some? && CanView(u, found.value)
    ensures r.ViewOk? ==> r.report == found.value
  {
    match found
    case None => ViewNotFound
    case Some(row) =>
      if u.role != "admin" && u.role != "bri" && row.createdBy != Some(u.id) then ViewForbidden
      else ViewOk(row)
  }

  /* ---------- the report list ---------- */

  /** `a` is `b` with some elements left out, the rest in the same order (matched
      greedily from the front). */
  predicate Subsequence<T(==)>(a: seq<T>, b: seq<T>)
    decreases |b|
  {
    if a == [] then true
    else if b == [] then false
    else if a[0] == b[0] then Subsequence(a[1..], b[1..])
    else Subsequence(a, b[1..])
  }

  lemma {:induction false} SubsequenceOfItself<T>(a: seq<T>)
    ensures Subsequence(a, a)
    decreases |a|
  {
    if a != [] {
      SubsequenceOfItself(a[1..]);
    }
  }

  /** `WHERE l.created_by = ?`: the reports the user wrote, in query order; a report
      without an author matches no one. */
  function OwnReports(table: seq<ReportRow>, uid: int): (rs: seq<ReportRow>)
    ensures forall r :: r in rs <==> r in table && r.createdBy == Some(uid)
    ensures Subsequence(rs, table)
  {
    if table == [] then []
    else
      var rest := OwnReports(table[1..], uid);
      if table[0].createdBy == Some(uid) then
        assert ([table[0]] + rest)[1..] == rest;
        [table[0]] + rest
      else
        assert rest != [] ==> rest[0] in rest;
        rest
  }

  /** The list page: every report for admin and bri, the user's own otherwise, in the
      order of the query. */
  function ListReports(u: User, table: seq<ReportRow>): (rs: seq<ReportRow>)
    ensures Privileged(u) ==> rs == table
    ensures Subsequence(rs, table)
  {
    if u.role == "admin" || u.role == "bri" then
      SubsequenceOfItself(table);
      table
    else OwnReports(table, u.id)
  }

  /** The list and the detail page agree: a report is listed exactly when the user may
      open it. */
  lemma ListedIffViewable(u: User, table: seq<ReportRow>, r: ReportRow)
    ensures r in ListReports(u, table) <==> r in table && CanView(u, r)
  {
  }

  /* ---------- a field sent twice ---------- */

  /** A form field as the body parser hands it over: once, or repeated as an array. */
  datatype FormField = Single(v: Value) | Repeated(vs: seq<Value>)

  /** `Array.isArray(x) ? x[0] : x` */
  function StatusFix(f: FormField): (v: Value)
    ensures f.Single? ==> v == f.v
    ensures f.Repeated? && |f.vs| > 0 ==> v == f.vs[0]
    ensures f.Repeated? && |f.vs| == 0 ==> v.Absent?
  {
    match f
    case Single(x) => x
    case Repeated(xs) => if |xs| > 0 then xs[0] else Absent
  }

  /** A repeated field is read as if it had been sent once with its first value. */
  lemma StatusFixFirst(x: Value, rest: seq<Value>)
    ensures StatusFix(Repeated([x] + rest)) == StatusFix(Single(x))
  {
  }

  /* ---------- parseInt ---------- */

  predicate IsHexDigit(c: char) {
    IsDigit(c) || ('a' <= c <= 'f') || ('A' <= c <= 'F')
  }

  /** A digit of base 16 when `hex`, of base 10 otherwise. */
  predicate RadixDigit(c: char, hex: bool) {
    IsHexDigit(c) && (hex || IsDigit(c))
  }

  function HexDigitValue(c: char): (d: nat)
    requires IsHexDigit(c)
    ensures d < 16
  {
    if IsDigit(c) then DigitValue(c)
    else if 'a' <= c <= 'f' then c as int - 'a' as int + 10
    else c as int - 'A' as int + 10
  }

  /** The longest prefix of radix digits. */
  function DigitsPrefix(s: string, hex: bool): (r: string)
    ensures |r| <= |s| && r == s[..|r|]
    ensures forall i :: 0 <= i < |r| ==> RadixDigit(r[i], hex)
    ensures |r| == |s| || !RadixDigit(s[|r|], hex)
  {
    if s != [] && RadixDigit(s[0], hex) then [s[0]] + DigitsPrefix(s[1..], hex) else []
  }

  /** The value of a string of radix digits, most significant first. */
  function RadixValue(s: string, hex: bool): nat
    requires forall i :: 0 <= i < |s| ==> RadixDigit(s[i], hex)
  {
    if s == [] then 0
    else
      assert RadixDigit(s[|s| - 1], hex);
      (if hex then 16 else 10) * RadixValue(s[..|s| - 1], hex) + HexDigitValue(s[|s| - 1])
  }

  lemma {:induction false} DecimalValue(s: string)
    requires AllDigits(s)
    ensures RadixValue(s, false) == ParseNat(s)
  {
    if s != [] {
      DecimalValue(s[..|s| - 1]);
    }
  }

  /** The digits after the sign: "0x" or "0X" selects hexadecimal, and the longest run
      of digits that follows is the value; whatever comes after it is ignored. */
  function ParseUnsigned(u: string): Option<int> {
    var hex := |u| >= 2 && u[0] == '0' && (u[1] == 'x' || u[1] == 'X');
    var z := DigitsPrefix(if hex then u[2..] else u, hex);
    if z == [] then None else Some(RadixValue(z, hex))
  }

  /** `parseInt(s)` without a radix, None standing for NaN: leading white space is
      skipped and a sign is read before the digits. */
  function ParseIntJs(s: string): Option<int> {
    var t := TrimStart(s);
    if t != [] && t[0] == '-' then
      match ParseUnsigned(t[1..])
      case None => None
      case Some(v) => Some(-v)
    else if t != [] && t[0] == '+' then
      match ParseUnsigned(t[1..])
      case None => None
      case Some(v) => Some(v)
    else
      match ParseUnsigned(t)
      case None => None
      case Some(v) => Some(v)
  }

  lemma {:induction false} DigitsPrefixOfDigits(a: string, rest: string)
    requires AllDigits(a)
    requires rest == [] || !IsDigit(rest[0])
    ensures DigitsPrefix(a + rest, false) == a
  {
    if a != [] {
      assert (a + rest)[1..] == a[1..] + rest;
      DigitsPrefixOfDigits(a[1..], rest);
    } else {
      assert a + rest == rest;
    }
  }

  /** A string that starts with a decimal digit and not with "0x" is read in decimal,
      from its first character. */
  lemma DecimalStart(s: string)
    requires s != [] && IsDigit(s[0])
    requires |s| >= 2 && s[0] == '0' ==> s[1] != 'x' && s[1] != 'X'
    ensures DigitsPrefix(s, false) != []
    ensures ParseIntJs(s) == Some(RadixValue(DigitsPrefix(s, false), false))
  {
    NoSpaceAtStart(s);
    assert s[0] != '-' && s[0] != '+';
    assert ParseIntJs(s) == ParseUnsigned(s);
    DecimalDigits(s);
  }

  lemma NoSpaceAtStart(s: string)
    requires s != [] && IsDigit(s[0])
    ensures TrimStart(s) == s
  {
    assert !IsJsSpace(s[0]);
  }

  lemma DecimalDigits(s: string)
    requires s != [] && IsDigit(s[0])
    requires |s| >= 2 && s[0] == '0' ==> s[1] != 'x' && s[1] != 'X'
    ensures DigitsPrefix(s, false) != []
    ensures ParseUnsigned(s) == Some(RadixValue(DigitsPrefix(s, false), false))
  {
    assert RadixDigit(s[0], false);
  }

  /** parseInt reads back a decimal numeral, and ignores whatever follows it unless that
      starts with another digit or turns a lone "0" into a "0x" prefix. */
  lemma NumeralThenText(n: nat, rest: string)
    requires rest == [] || !IsDigit(rest[0])
    requires n == 0 && rest != [] ==> rest[0] != 'x' && rest[0] != 'X'
    ensures ParseIntJs(NatToString(n) + rest) == Some(n)
  {
    var a := NatToString(n);
    var s := a + rest;
    assert s[0] == a[0];
    if |s| >= 2 && s[0] == '0' {
      if |a| >= 2 {
        assert s[1] == a[1];
      } else {
        assert a == [DigitChar(n)];
        DigitRoundTrip(n);
        assert s[1] == rest[0];
      }
    }
    DecimalStart(s);
    DigitsPrefixOfDigits(a, rest);
    DecimalValue(a);
    NatRoundTrip(n);
  }

  /* ---------- which call a phone update is for ---------- */

  /** `${v}`: how a request field prints inside a template literal. */
  function FieldText(v: Value): string {
    match v
    case Absent => "undefined"
    case Str(s) => s
    case Num(n) => IntToString(n)
  }

  /** `[1, 2, 3].includes(parseInt(telepon_ke))`: the call number when it is accepted. */
  function CallNumber(text: string): (r: Option<int>)
    ensures r.Some? <==> var p := ParseIntJs(text); p == Some(1) || p == Some(2) || p == Some(3)
    ensures r.Some? ==> 1 <= r.value <= 3 && ParseIntJs(text) == r
  {
    var p := ParseIntJs(text);
    if p.Some? && 1 <= p.value <= 3 then p else None
  }

  const DateColumns: set<string> := {"tgl_telpon_1", "tgl_telpon_2", "tgl_telpon_3"}
  const TimeColumns: set<string> := {"jam_telpon_1", "jam_telpon_2", "jam_telpon_3"}

  /** The columns the handler updates, as written: the raw field pasted after
      "tgl_telpon_" and "jam_telpon_". */
  function PhoneColumnsAsWritten(v: Value): (string, string) {
    ("tgl_telpon_" + FieldText(v), "jam_telpon_" + FieldText(v))
  }

  /** The columns of call n, named from the number that was validated. */
  function PhoneColumns(n: int): (cols: (string, string))
    requires 1 <= n <= 3
    ensures cols.0 in DateColumns && cols.1 in TimeColumns
  {
    var d := NatToString(n);
    assert d == [DigitChar(n)];
    assert ("tgl_telpon_" + d) in DateColumns && ("jam_telpon_" + d) in TimeColumns by {
      if n == 1 {
        assert "tgl_telpon_" + d == "tgl_telpon_1" && "jam_telpon_" + d == "jam_telpon_1";
      } else if n == 2 {
        assert "tgl_telpon_" + d == "tgl_telpon_2" && "jam_telpon_" + d == "jam_telpon_2";
      } else {
        assert "tgl_telpon_" + d == "tgl_telpon_3" && "jam_telpon_" + d == "jam_telpon_3";
      }
    }
    ("tgl_telpon_" + d, "jam_telpon_" + d)
  }

  /** Naming the columns from the raw field goes wrong for "2x": it is accepted as call
      2, and the handler then updates a column "tgl_telpon_2x" that does not exist. */
  lemma TeleponSuffixAccepted()
    ensures CallNumber("2x") == Some(2)
    ensures PhoneColumnsAsWritten(Str("2x")).0 == "tgl_telpon_2x"
    ensures "tgl_telpon_2x" !in DateColumns
  {
    SuffixParsed();
    SuffixColumnMissing();
  }

  lemma SuffixParsed()
    ensures ParseIntJs("2x") == Some(2)
  {
    assert NatToString(2) == "2";
    assert "2x" == NatToString(2) + "x";
    NumeralThenText(2, "x");
  }

  lemma SuffixColumnMissing()
    ensures "tgl_telpon_2x" !in DateColumns
  {
    assert forall c :: c in DateColumns ==> |c| == 12;
    assert |"tgl_telpon_2x"| == 13;
  }

  /** For the plain numerals "1", "2", "3" (and the numbers 1, 2, 3), the columns as
      written are the columns of the validated number. */
  lemma PhoneColumnsAgree(n: int)
    requires 1 <= n <= 3
    ensures CallNumber(FieldText(Str(NatToString(n)))) == Some(n) == CallNumber(FieldText(Num(n)))
    ensures PhoneColumnsAsWritten(Str(NatToString(n))) == PhoneColumns(n) == PhoneColumnsAsWritten(Num(n))
  {
    NumeralThenText(n, "");
    assert NatToString(n) + "" == NatToString(n);
    assert IntToString(n) == NatToString(n);
  }

  /* ---------- resume_hasil_interview ---------- */

  /** One row of `resume_hasil_interview`: the report it belongs to (NULL for the rows
      the interview-quota route inserts), the interview it belongs to (NULL for the rows
      the report routes insert), the texts, the call columns of that route, and the
      date and time of calls 1 to 3 keyed by call number (a missing key is NULL). */
  datatype Interview = Interview(
    laporanId: Option<int>,
    interviewId: Option<int>,
    hasil: Value,
    redaksional: Value,
    tanggalTelepon: Value,
    jamTelepon: Value,
    calls: map<int, (Value, Value)>)

  /** The number of rows of report `lap`. */
  function InterviewsOf(rows: seq<Interview>, lap: int): nat {
    if rows == [] then 0
    else (if rows[0].laporanId == Some(lap) then 1 else 0) + InterviewsOf(rows[1..], lap)
  }

  lemma {:induction false} InterviewsOfAppend(a: seq<Interview>, b: seq<Interview>, lap: int)
    ensures InterviewsOf(a + b, lap) == InterviewsOf(a, lap) + InterviewsOf(b, lap)
  {
    if a == [] {
      assert a + b == b;
    } else {
      assert (a + b)[0] == a[0];
      assert (a + b)[1..] == a[1..] + b;
      InterviewsOfAppend(a[1..], b, lap);
    }
  }

  lemma {:induction false} NoInterviewOf(rows: seq<Interview>, lap: int)
    ensures InterviewsOf(rows, lap) == 0 <==> forall i :: 0 <= i < |rows| ==> rows[i].laporanId != Some(lap)
  {
    if rows != [] {
      NoInterviewOf(rows[1..], lap);
      assert forall i :: 1 <= i < |rows| ==> rows[1..][i - 1] == rows[i];
    }
  }

  /** Every report has at most one interview resume row. */
  ghost predicate OneInterviewPerReport(rows: seq<Interview>) {
    forall lap :: InterviewsOf(rows, lap) <= 1
  }

  /** Apply `f` to the rows of report `lap`, leaving the others as they are. */
  function UpdateInterviews(rows: seq<Interview>, lap: int, f: Interview -> Interview): (r: seq<Interview>)
    requires forall x :: f(x).laporanId == x.laporanId
    ensures |r| == |rows|
    ensures forall i :: 0 <= i < |rows| ==>
      r[i] == if rows[i].laporanId == Some(lap) then f(rows[i]) else rows[i]
    ensures forall k :: InterviewsOf(r, k) == InterviewsOf(rows, k)
  {
    if rows == [] then []
    else
      var first := if rows[0].laporanId == Some(lap) then f(rows[0]) else rows[0];
      var rest := UpdateInterviews(rows[1..], lap, f);
      assert ([first] + rest)[1..] == rest;
      [first] + rest
  }

  /** POST /laporan/:id/resume-interview (and the legacy /laporan/:id/resume): update the
      texts of the report's rows when it has any, otherwise insert one row. */
  function UpsertInterview(rows: seq<Interview>, lap: int, hasil: Value, redaksional: Value): (r: seq<Interview>)
    ensures InterviewsOf(rows, lap) > 0 ==> |r| == |rows|
    ensures InterviewsOf(rows, lap) == 0 ==> r == rows + [Interview(Some(lap), None, hasil, redaksional, Absent, Absent, map[])]
    ensures InterviewsOf(r, lap) == if InterviewsOf(rows, lap) == 0 then 1 else InterviewsOf(rows, lap)
    ensures forall k :: k != lap ==> InterviewsOf(r, k) == InterviewsOf(rows, k)
    ensures forall i :: 0 <= i < |r| && r[i].laporanId == Some(lap) ==> r[i].hasil == hasil && r[i].redaksional == redaksional
    ensures InterviewsOf(rows, lap) > 0 ==> forall i :: 0 <= i < |rows| ==>
              r[i] == if rows[i].laporanId == Some(lap) then rows[i].(hasil := hasil, redaksional := redaksional) else rows[i]
  {
    if InterviewsOf(rows, lap) > 0 then
      UpdateInterviews(rows, lap, (x: Interview) => x.(hasil := hasil, redaksional := redaksional))
    else
      var added := Interview(Some(lap), None, hasil, redaksional, Absent, Absent, map[]);
      InterviewsOfAppend(rows, [added], lap);
      NoInterviewOf(rows, lap);
      assert forall k :: k != lap ==> InterviewsOf([added], k) == 0;
      forall k | k != lap
        ensures InterviewsOf(rows + [added], k) == InterviewsOf(rows, k)
      {
        InterviewsOfAppend(rows, [added], k);
      }
      rows + [added]
  }

  /** Upserting keeps one resume row per report. */
  lemma UpsertInterviewKeepsOne(rows: seq<Interview>, lap: int, hasil: Value, redaksional: Value)
    requires OneInterviewPerReport(rows)
    ensures OneInterviewPerReport(UpsertInterview(rows, lap, hasil, redaksional))
  {
    var r := UpsertInterview(rows, lap, hasil, redaksional);
    forall k
      ensures InterviewsOf(r, k) <= 1
    {
      if k != lap {
        assert InterviewsOf(r, k) == InterviewsOf(rows, k);
      }
    }
  }

  /** The row the phone route creates when the report has none. */
  function EnsureInterview(rows: seq<Interview>, lap: int): (r: seq<Interview>)
    ensures InterviewsOf(r, lap) == if InterviewsOf(rows, lap) == 0 then 1 else InterviewsOf(rows, lap)
    ensures forall k :: k != lap ==> InterviewsOf(r, k) == InterviewsOf(rows, k)
    ensures InterviewsOf(rows, lap) > 0 ==> r == rows
    ensures InterviewsOf(rows, lap) == 0 ==> r == rows + [Interview(Some(lap), None, Str(""), Str(""), Absent, Absent, map[])]
  {
    if InterviewsOf(rows, lap) > 0 then rows
    else UpsertInterview(rows, lap, Str(""), Str(""))
  }

  /** `UPDATE resume_hasil_interview SET tgl_telpon_<n>=?, jam_telpon_<n>=? WHERE
      laporan_id=?`: call n of every row of report `lap` gets the date and time; nothing
      else changes. */
  function SetCall(rows: seq<Interview>, lap: int, n: int, tanggal: Value, jam: Value): (r: seq<Interview>)
    ensures |r| == |rows|
    ensures forall i :: 0 <= i < |rows| ==>
      r[i] == if rows[i].laporanId == Some(lap) then rows[i].(calls := rows[i].calls[n := (tanggal, jam)]) else rows[i]
    ensures forall k :: InterviewsOf(r, k) == InterviewsOf(rows, k)
  {
    UpdateInterviews(rows, lap, (x: Interview) => x.(calls := x.calls[n := (tanggal, jam)]))
  }

  /** The row of the report is created if missing, and call n's date and time are set
      on it; every other row, and every other column and call, stays as it was. */
  function RecordCall(rows: seq<Interview>, lap: int, n: int, tanggal: Value, jam: Value): (r: seq<Interview>)
    ensures forall i :: 0 <= i < |r| && r[i].laporanId == Some(lap) ==> n in r[i].calls && r[i].calls[n] == (tanggal, jam)
    ensures |r| == if InterviewsOf(rows, lap) > 0 then |rows| else |rows| + 1
    ensures forall i :: 0 <= i < |rows| ==>
      r[i] == if rows[i].laporanId == Some(lap) then rows[i].(calls := rows[i].calls[n := (tanggal, jam)]) else rows[i]
    ensures InterviewsOf(rows, lap) == 0 ==>
      r[|rows|] == Interview(Some(lap), None, Str(""), Str(""), Absent, Absent, map[n := (tanggal, jam)])
    ensures InterviewsOf(r, lap) >= 1
    ensures forall k :: k != lap ==> InterviewsOf(r, k) == InterviewsOf(rows, k)
    ensures OneInterviewPerReport(rows) ==> OneInterviewPerReport(r)
  {
    var r1 := EnsureInterview(rows, lap);
    var r2 := SetCall(r1, lap, n, tanggal, jam);
    assert forall i :: 0 <= i < |rows| ==> r1[i] == rows[i];
    assert InterviewsOf(rows, lap) == 0 ==> r1[|rows|].calls == map[] && map[][n := (tanggal, jam)] == map[n := (tanggal, jam)];
    assert OneInterviewPerReport(rows) ==> OneInterviewPerReport(r2) by {
      if OneInterviewPerReport(rows) {
        forall k
          ensures InterviewsOf(r2, k) <= 1
        {
          if k != lap {
            assert InterviewsOf(r2, k) == InterviewsOf(rows, k);
          }
        }
      }
    }
    r2
  }

  /** POST /laporan/:id/resume-interview/phone, with the columns named from the validated
      call number: 400 for a call number other than 1, 2 or 3; otherwise the report's
      row is created if missing and the date and time of that call are set on it. */
  function SetPhone(rows: seq<Interview>, lap: int, telepon: Value, tanggal: Value, jam: Value): (r: (int, seq<Interview>))
    ensures r.0 == 400 <==> CallNumber(FieldText(telepon)).None?
    ensures r.0 == 400 ==> r.1 == rows
    ensures r.0 != 400 ==> r.0 == 200
    ensures r.0 == 200 ==> forall i :: 0 <= i < |r.1| && r.1[i].laporanId == Some(lap) ==>
              CallNumber(FieldText(telepon)).value in r.1[i].calls && r.1[i].calls[CallNumber(FieldText(telepon)).value] == (tanggal, jam)
    ensures r.0 == 200 ==> InterviewsOf(r.1, lap) >= 1
    ensures r.0 == 200 ==> r.1 == RecordCall(rows, lap, CallNumber(FieldText(telepon)).value, tanggal, jam)
    ensures forall i :: 0 <= i < |rows| && rows[i].laporanId != Some(lap) ==> i < |r.1| && r.1[i] == rows[i]
    ensures forall k :: k != lap ==> InterviewsOf(r.1, k) == InterviewsOf(rows, k)
    ensures OneInterviewPerReport(rows) ==> OneInterviewPerReport(r.1)
  {
    match CallNumber(FieldText(telepon))
    case None => (400, rows)
    case Some(n) => (200, RecordCall(rows, lap, n, tanggal, jam))
  }

  /** What the database does with `UPDATE resume_hasil_interview SET tgl_telpon_<t>=?,
      jam_telpon_<t>=? WHERE laporan_id=?` once the text t is pasted in: it rejects the
      statement, or it applies some update to the table. */
  datatype SqlEffect = Rejected | Updates(update: seq<Interview> -> seq<Interview>)

  /** The database's reading of that statement for a pasted text, the report id and the
      date and time bound to the placeholders. Parsing SQL belongs to the database, so
      the model takes the reading as a parameter and constrains it only by
      ReadsColumns. */
  type SqlReading = (string, int, Value, Value) -> SqlEffect

  /** A numeral followed at once by a letter, `_` or `$`: pasted after "tgl_telpon_",
      the name runs on past the digits ("tgl_telpon_2x"). */
  predicate NumeralThenName(t: string) {
    var d := DigitsPrefix(t, false);
    && d != [] && |d| < |t|
    && (('a' <= t[|d|] <= 'z') || ('A' <= t[|d|] <= 'Z') || t[|d|] == '_' || t[|d|] == '$')
  }

  /** What every reading does: "1", "2" and "3" set that call's date and time on the
      report's rows and nothing else, and a numeral that runs into a name names a column
      the table does not have. Other texts ("1 ", "1=? WHERE 1=1 #") are left to the
      reading. */
  ghost predicate ReadsColumns(sql: SqlReading) {
    && (forall n, lap, t, j :: 1 <= n <= 3 ==> sql(NatToString(n), lap, t, j).Updates?)
    && (forall n, lap, t, j, rows :: 1 <= n <= 3 && sql(NatToString(n), lap, t, j).Updates? ==>
          sql(NatToString(n), lap, t, j).update(rows) == SetCall(rows, lap, n, t, j))
    && (forall text, lap, t, j :: NumeralThenName(text) ==> sql(text, lap, t, j).Rejected?)
  }

  /** The phone route as written: the call number is validated, but the columns are
      named from the raw field, so the database's reading of the statement decides what
      is updated; when it rejects the statement the route answers 500, after the
      default row has already been inserted. */
  function SetPhoneAsWritten(sql: SqlReading, rows: seq<Interview>, lap: int, telepon: Value, tanggal: Value, jam: Value): (r: (int, seq<Interview>))
    ensures r.0 == 400 <==> CallNumber(FieldText(telepon)).None?
    ensures r.0 == 400 ==> r.1 == rows
    ensures r.0 == 500 <==> CallNumber(FieldText(telepon)).Some? && sql(FieldText(telepon), lap, tanggal, jam).Rejected?
    ensures r.0 == 500 ==> r.1 == EnsureInterview(rows, lap)
    ensures r.0 != 400 && r.0 != 500 ==>
              r.0 == 200 && r.1 == sql(FieldText(telepon), lap, tanggal, jam).update(EnsureInterview(rows, lap))
  {
    match CallNumber(FieldText(telepon))
    case None => (400, rows)
    case Some(_) =>
      match sql(FieldText(telepon), lap, tanggal, jam)
      case Rejected => (500, EnsureInterview(rows, lap))
      case Updates(update) => (200, update(EnsureInterview(rows, lap)))
  }

  /** For the numerals "1", "2", "3" and the numbers 1, 2, 3 the route as written and the
      corrected route give the same answer and the same rows. */
  lemma SetPhoneAsWrittenAgrees(sql: SqlReading, rows: seq<Interview>, lap: int, n: int, tanggal: Value, jam: Value)
    requires ReadsColumns(sql)
    requires 1 <= n <= 3
    ensures SetPhoneAsWritten(sql, rows, lap, Str(NatToString(n)), tanggal, jam)
            == SetPhone(rows, lap, Str(NatToString(n)), tanggal, jam)
    ensures SetPhoneAsWritten(sql, rows, lap, Num(n), tanggal, jam) == SetPhone(rows, lap, Num(n), tanggal, jam)
  {
    PhoneColumnsAgree(n);
    assert FieldText(Num(n)) == NatToString(n);
    var r1 := EnsureInterview(rows, lap);
    assert sql(NatToString(n), lap, tanggal, jam).Updates?;
    assert sql(NatToString(n), lap, tanggal, jam).update(r1) == SetCall(r1, lap, n, tanggal, jam);
  }

  /** An accepted field whose numeral runs into a name fails with 500 under every
      reading, leaving the default row behind. */
  lemma NameAfterNumeralFails(sql: SqlReading, rows: seq<Interview>, lap: int, telepon: Value, tanggal: Value, jam: Value)
    requires ReadsColumns(sql)
    requires NumeralThenName(FieldText(telepon))
    ensures CallNumber(FieldText(telepon)).Some? ==>
              SetPhoneAsWritten(sql, rows, lap, telepon, tanggal, jam) == (500, EnsureInterview(rows, lap))
  {
  }

  lemma TwoXRunsIntoName()
    ensures NumeralThenName("2x")
  {
    assert "2x" == "2" + "x";
    DigitsPrefixOfDigits("2", "x");
  }

  /** "2x" passes validation, fails the update with 500 and leaves a blank resume row
      behind, where the corrected handler records call 2. */
  lemma SetPhoneFinding(sql: SqlReading, lap: int, tanggal: Value, jam: Value)
    requires ReadsColumns(sql)
    ensures SetPhoneAsWritten(sql, [], lap, Str("2x"), tanggal, jam).0 == 500
    ensures SetPhoneAsWritten(sql, [], lap, Str("2x"), tanggal, jam).1
            == [Interview(Some(lap), None, Str(""), Str(""), Absent, Absent, map[])]
    ensures SetPhone([], lap, Str("2x"), tanggal, jam).0 == 200
    ensures SetPhone([], lap, Str("2x"), tanggal, jam).1
            == [Interview(Some(lap), None, Str(""), Str(""), Absent, Absent, map[2 := (tanggal, jam)])]
  {
    TeleponSuffixAccepted();
    TwoXRunsIntoName();
    assert sql("2x", lap, tanggal, jam).Rejected?;
    var added := Interview(Some(lap), None, Str(""), Str(""), Absent, Absent, map[]);
    assert InterviewsOf([], lap) == 0;
    assert EnsureInterview([], lap) == [] + [added] == [added];
    var called := RecordCall([], lap, 2, tanggal, jam);
    assert |called| == 1 && called[0] == added.(calls := map[2 := (tanggal, jam)]);
  }

  /** A field that closes the assignment and comments out the rest of the statement:
      the field is pasted into both column names, so the statement reads
      `UPDATE resume_hasil_interview SET tgl_telpon_1=? WHERE 1=1 #=?, jam_telpon_1=? WHERE 1=1 #=? WHERE laporan_id=?`
      and everything from the first `#` on is a comment. */
  const Injection: string := "1=? WHERE 1=1 #"

  /** The time of call n on a row (NULL when unset). */
  function CallTime(x: Interview, n: int): Value {
    if n in x.calls then x.calls[n].1 else Absent
  }

  /** `UPDATE resume_hasil_interview SET tgl_telpon_<n>=?` with no WHERE: call n's date
      on every row, its time kept. */
  function SetDateEverywhere(rows: seq<Interview>, n: int, tanggal: Value): (r: seq<Interview>)
    ensures |r| == |rows|
    ensures forall i :: 0 <= i < |rows| ==> r[i] == rows[i].(calls := rows[i].calls[n := (tanggal, CallTime(rows[i], n))])
  {
    if rows == [] then []
    else [rows[0].(calls := rows[0].calls[n := (tanggal, CallTime(rows[0], n))])] + SetDateEverywhere(rows[1..], n, tanggal)
  }

  /** A database reading of the statement as MySQL parses it, for the plain numerals and
      the injected text; every other text is rejected. */
  function MySqlReading(text: string, lap: int, tanggal: Value, jam: Value): SqlEffect {
    if |text| == 1 && '1' <= text[0] <= '3' then Updates((rs: seq<Interview>) => SetCall(rs, lap, DigitValue(text[0]), tanggal, jam))
    else if text == Injection then Updates((rs: seq<Interview>) => SetDateEverywhere(rs, 1, tanggal))
    else Rejected
  }

  lemma InjectionIsNoName()
    ensures !NumeralThenName(Injection)
  {
    var rest := "=? WHERE 1=1 #";
    assert Injection == "1" + rest;
    DigitsPrefixOfDigits("1", rest);
    assert Injection[1] == '=';
  }

  lemma InjectionAccepted()
    ensures CallNumber(Injection) == Some(1)
  {
    var rest := "=? WHERE 1=1 #";
    assert NatToString(1) == "1";
    assert Injection == NatToString(1) + rest;
    NumeralThenText(1, rest);
  }

  lemma MySqlReadsColumns()
    ensures ReadsColumns(MySqlReading)
  {
    forall n, lap, t, j, rows | 1 <= n <= 3
      ensures MySqlReading(NatToString(n), lap, t, j).Updates?
      ensures MySqlReading(NatToString(n), lap, t, j).update(rows) == SetCall(rows, lap, n, t, j)
    {
      assert NatToString(n) == [DigitChar(n)];
      DigitRoundTrip(n);
      assert NatToString(n) != Injection;
    }
    forall text, lap, t, j | NumeralThenName(text)
      ensures MySqlReading(text, lap, t, j).Rejected?
    {
      InjectionIsNoName();
    }
  }

  /** The injected field passes validation, and the route as written answers 200 after
      setting call 1's date on every row of the table, other reports included and call
      1's time left as it was; the corrected route sets call 1 on the report's own rows
      and leaves every other report's rows unchanged. */
  lemma InjectionRewritesOtherReports(rows: seq<Interview>, lap: int, tanggal: Value, jam: Value)
    ensures CallNumber(FieldText(Str(Injection))) == Some(1)
    ensures var r := SetPhoneAsWritten(MySqlReading, rows, lap, Str(Injection), tanggal, jam);
            && r.0 == 200
            && forall i :: 0 <= i < |rows| ==> r.1[i] == rows[i].(calls := rows[i].calls[1 := (tanggal, CallTime(rows[i], 1))])
    ensures var r := SetPhone(rows, lap, Str(Injection), tanggal, jam);
            && r.0 == 200
            && forall i :: 0 <= i < |rows| && rows[i].laporanId != Some(lap) ==> r.1[i] == rows[i]
  {
    InjectionAccepted();
    var r1 := EnsureInterview(rows, lap);
    assert forall i :: 0 <= i < |rows| ==> r1[i] == rows[i];
    assert |Injection| != 1;
    assert MySqlReading(Injection, lap, tanggal, jam).update(r1) == SetDateEverywhere(r1, 1, tanggal);
  }

  /* ---------- resume_investigasi ---------- */

  datatype ResumeInv = ResumeInv(laporanId: int, hasil: Value)

  function ResumesOf(rows: seq<ResumeInv>, lap: int): nat {
    if rows == [] then 0
    else (if rows[0].laporanId == lap then 1 else 0) + ResumesOf(rows[1..], lap)
  }

  lemma {:induction false} ResumesOfAppend(a: seq<ResumeInv>, b: seq<ResumeInv>, lap: int)
    ensures ResumesOf(a + b, lap) == ResumesOf(a, lap) + ResumesOf(b, lap)
  {
    if a == [] {
      assert a + b == b;
    } else {
      assert (a + b)[0] == a[0];
      assert (a + b)[1..] == a[1..] + b;
      ResumesOfAppend(a[1..], b, lap);
    }
  }

  /** `UPDATE resume_investigasi SET hasil = ? WHERE laporan_id = ?` */
  function SetResume(rows: seq<ResumeInv>, lap: int, hasil: Value): (r: seq<ResumeInv>)
    ensures |r| == |rows|
    ensures forall i :: 0 <= i < |rows| ==>
      r[i] == if rows[i].laporanId == lap then ResumeInv(lap, hasil) else rows[i]
    ensures forall k :: ResumesOf(r, k) == ResumesOf(rows, k)
  {
    if rows == [] then []
    else
      var first := if rows[0].laporanId == lap then ResumeInv(lap, hasil) else rows[0];
      var rest := SetResume(rows[1..], lap, hasil);
      assert ([first] + rest)[1..] == rest;
      [first] + rest
  }

  /** POST /laporan/:id/resume-investigasi: update the report's rows when it has any,
      otherwise insert one. */
  function UpsertResume(rows: seq<ResumeInv>, lap: int, hasil: Value): (r: seq<ResumeInv>)
    ensures ResumesOf(r, lap) == if ResumesOf(rows, lap) == 0 then 1 else ResumesOf(rows, lap)
    ensures forall k :: k != lap ==> ResumesOf(r, k) == ResumesOf(rows, k)
    ensures forall i :: 0 <= i < |r| && r[i].laporanId == lap ==> r[i].hasil == hasil
    ensures ResumesOf(rows, lap) == 0 ==> r == rows + [ResumeInv(lap, hasil)]
    ensures ResumesOf(rows, lap) > 0 ==> |r| == |rows| && forall i :: 0 <= i < |rows| ==>
              r[i] == if rows[i].laporanId == lap then ResumeInv(lap, hasil) else rows[i]
  {
    if ResumesOf(rows, lap) > 0 then SetResume(rows, lap, hasil)
    else
      var added := ResumeInv(lap, hasil);
      ResumesOfAppend(rows, [added], lap);
      forall k | k != lap
        ensures ResumesOf(rows + [added], k) == ResumesOf(rows, k)
      {
        ResumesOfAppend(rows, [added], k);
      }
      NoResumeOf(rows, lap);
      rows + [added]
  }

  lemma {:induction false} NoResumeOf(rows: seq<ResumeInv>, lap: int)
    ensures ResumesOf(rows, lap) == 0 <==> forall i :: 0 <= i < |rows| ==> rows[i].laporanId != lap
  {
    if rows != [] {
      NoResumeOf(rows[1..], lap);
      assert forall i :: 1 <= i < |rows| ==> rows[1..][i - 1] == rows[i];
    }
  }

  /** Upserting keeps one investigator resume per report. */
  lemma UpsertResumeKeepsOne(rows: seq<ResumeInv>, lap: int, hasil: Value)
    requires forall k :: ResumesOf(rows, k) <= 1
    ensures forall k :: ResumesOf(UpsertResume(rows, lap, hasil), k) <= 1
  {
    var r := UpsertResume(rows, lap, hasil);
    forall k
      ensures ResumesOf(r, k) <= 1
    {
      if k != lap {
        assert ResumesOf(r, k) == ResumesOf(rows, k);
      }
    }
  }

  /* ---------- penelponan: call logs and the on-desk quota ---------- */

  /** One row of `penelponan`: the report (NULL for rows the quota route inserts), the
      on-desk record, the date and time of the call (NULL when the request left them
      out) and its result. */
  datatype Call = Call(laporanId: Option<int>, onDeskId: int, tanggal: Option<string>, jam: Option<string>, hasil: Value)

  /** How MySQL compares a stored column value with the request text under `=`: the
      column's collation may ignore case and trailing spaces, and a DATE or TIME column
      converts the text first ("2024-1-5" equals 2024-01-05). The comparison belongs to
      the database, so the model takes it as a parameter. */
  type ColumnEq = (string, string) -> bool

  /** Every value equals itself, whatever the collation or conversion. */
  ghost predicate Reflexive(eq: ColumnEq) {
    forall a :: eq(a, a)
  }

  /** `a = b` in SQL: never true when either side is NULL. */
  predicate SqlEq(eq: ColumnEq, a: Option<string>, b: Option<string>) {
    a.Some? && b.Some? && eq(a.value, b.value)
  }

  /** The duplicate check: a call of the same on-desk record at the same date and time,
      as the date and time columns compare them. */
  predicate HasDuplicate(sameDate: ColumnEq, sameTime: ColumnEq, calls: seq<Call>, od: int, tanggal: Option<string>, jam: Option<string>) {
    exists i :: 0 <= i < |calls| && calls[i].onDeskId == od && SqlEq(sameDate, calls[i].tanggal, tanggal) && SqlEq(sameTime, calls[i].jam, jam)
  }

  /** POST /hasil-on-desk/:onDeskId/penelponan, given the on-desk records as a map from
      their id to their report: 404 for an unknown record, 409 for a duplicate, and
      otherwise exactly one new row tied to the record's report. */
  function AddCallLog(sameDate: ColumnEq, sameTime: ColumnEq, onDesk: map<int, int>, calls: seq<Call>, od: int,
                      tanggal: Option<string>, jam: Option<string>, hasil: Value): (r: (int, seq<Call>))
    ensures r.0 == 404 <==> od !in onDesk
    ensures r.0 == 409 <==> od in onDesk && HasDuplicate(sameDate, sameTime, calls, od, tanggal, jam)
    ensures r.0 in {200, 404, 409}
    ensures r.0 != 200 ==> r.1 == calls
    ensures r.0 == 200 ==> r.1 == calls + [Call(Some(onDesk[od]), od, tanggal, jam, hasil)]
  {
    if od !in onDesk then (404, calls)
    else if HasDuplicate(sameDate, sameTime, calls, od, tanggal, jam) then (409, calls)
    else (200, calls + [Call(Some(onDesk[od]), od, tanggal, jam, hasil)])
  }

  /** Sending the same dated call twice is refused the second time, under any comparison
      that finds a value equal to itself. */
  lemma RepeatedCallRefused(sameDate: ColumnEq, sameTime: ColumnEq, onDesk: map<int, int>, calls: seq<Call>, od: int,
                            t: string, j: string, hasil: Value)
    requires Reflexive(sameDate) && Reflexive(sameTime)
    requires AddCallLog(sameDate, sameTime, onDesk, calls, od, Some(t), Some(j), hasil).0 == 200
    ensures var after := AddCallLog(sameDate, sameTime, onDesk, calls, od, Some(t), Some(j), hasil).1;
            AddCallLog(sameDate, sameTime, onDesk, after, od, Some(t), Some(j), hasil).0 == 409
  {
    var after := AddCallLog(sameDate, sameTime, onDesk, calls, od, Some(t), Some(j), hasil).1;
    assert after[|calls|].onDeskId == od;
    assert sameDate(t, t) && sameTime(j, j);
  }

  /** Without a date the duplicate check never fires, whatever the comparison: the same
      call is stored twice. */
  lemma UndatedCallStoredTwice(sameDate: ColumnEq, sameTime: ColumnEq, od: int, lap: int, jam: Option<string>, hasil: Value)
    ensures var first := AddCallLog(sameDate, sameTime, map[od := lap], [], od, None, jam, hasil);
            var second := AddCallLog(sameDate, sameTime, map[od := lap], first.1, od, None, jam, hasil);
            first.0 == 200 && second.0 == 200 && |second.1| == 2 && second.1[0] == second.1[1]
  {
  }

  /** The number of calls of an on-desk record. */
  function CallsOf(calls: seq<Call>, od: int): nat {
    if calls == [] then 0
    else (if calls[0].onDeskId == od then 1 else 0) + CallsOf(calls[1..], od)
  }

  lemma {:induction false} CallsOfAppend(a: seq<Call>, b: seq<Call>, od: int)
    ensures CallsOf(a + b, od) == CallsOf(a, od) + CallsOf(b, od)
  {
    if a == [] {
      assert a + b == b;
    } else {
      assert (a + b)[0] == a[0];
      assert (a + b)[1..] == a[1..] + b;
      CallsOfAppend(a[1..], b, od);
    }
  }

  const Quota := 3

  /** POST /laporan/ondesk/:ondesk_id/telp: 400 once the record has three calls,
      otherwise one new row (without a report) and a redirect. */
  function OnDeskCall(calls: seq<Call>, od: int, tanggal: Option<string>, jam: Option<string>, hasil: Value): (r: (int, seq<Call>))
    ensures r.0 == 400 <==> CallsOf(calls, od) >= Quota
    ensures r.0 == 400 ==> r.1 == calls
    ensures r.0 != 400 ==> r.0 == 302 && r.1 == calls + [Call(None, od, tanggal, jam, hasil)]
    ensures CallsOf(r.1, od) <= Quota || r.1 == calls
    ensures forall k :: k != od ==> CallsOf(r.1, k) == CallsOf(calls, k)
  {
    if CallsOf(calls, od) >= Quota then (400, calls)
    else
      var added := Call(None, od, tanggal, jam, hasil);
      CallsOfAppend(calls, [added], od);
      forall k | k != od
        ensures CallsOf(calls + [added], k) == CallsOf(calls, k)
      {
        CallsOfAppend(calls, [added], k);
      }
      (302, calls + [added])
  }

  /** Through the quota route no record ever gets past three calls. */
  lemma OnDeskQuotaKept(calls: seq<Call>, od: int, tanggal: Option<string>, jam: Option<string>, hasil: Value)
    requires forall k :: CallsOf(calls, k) <= Quota
    ensures forall k :: CallsOf(OnDeskCall(calls, od, tanggal, jam, hasil).1, k) <= Quota
  {
    var r := OnDeskCall(calls, od, tanggal, jam, hasil).1;
    forall k
      ensures CallsOf(r, k) <= Quota
    {
      if k != od {
        assert CallsOf(r, k) == CallsOf(calls, k);
      }
    }
  }

  /** The call-log route has no quota check: a record that already has three calls or
      more gets one more whenever the call is not a duplicate. */
  lemma CallLogIgnoresQuota(sameDate: ColumnEq, sameTime: ColumnEq, onDesk: map<int, int>, calls: seq<Call>, od: int,
                            tanggal: Option<string>, jam: Option<string>, hasil: Value)
    requires od in onDesk && CallsOf(calls, od) >= Quota
    requires !HasDuplicate(sameDate, sameTime, calls, od, tanggal, jam)
    ensures var r := AddCallLog(sameDate, sameTime, onDesk, calls, od, tanggal, jam, hasil);
            r.0 == 200 && CallsOf(r.1, od) == CallsOf(calls, od) + 1 > Quota
  {
    var added := Call(Some(onDesk[od]), od, tanggal, jam, hasil);
    CallsOfAppend(calls, [added], od);
    assert [added][1..] == [];
  }

  /* ---------- the interview quota ---------- */

  /** The number of resume rows of an interview. */
  function RowsOfInterview(rows: seq<Interview>, iid: int): nat {
    if rows == [] then 0
    else (if rows[0].interviewId == Some(iid) then 1 else 0) + RowsOfInterview(rows[1..], iid)
  }

  lemma {:induction false} RowsOfInterviewAppend(a: seq<Interview>, b: seq<Interview>, iid: int)
    ensures RowsOfInterview(a + b, iid) == RowsOfInterview(a, iid) + RowsOfInterview(b, iid)
  {
    if a == [] {
      assert a + b == b;
    } else {
      assert (a + b)[0] == a[0];
      assert (a + b)[1..] == a[1..] + b;
      RowsOfInterviewAppend(a[1..], b, iid);
    }
  }

  /** POST /laporan/interview/:interview_id/resume: 400 once the interview has three
      rows, otherwise one new row (without a report) and a redirect. */
  function InterviewCall(rows: seq<Interview>, iid: int, tanggal: Value, jam: Value, hasil: Value): (r: (int, seq<Interview>))
    ensures r.0 == 400 <==> RowsOfInterview(rows, iid) >= Quota
    ensures r.0 == 400 ==> r.1 == rows
    ensures r.0 != 400 ==> r.0 == 302 && r.1 == rows + [Interview(None, Some(iid), hasil, Absent, tanggal, jam, map[])]
    ensures forall k :: k != iid ==> RowsOfInterview(r.1, k) == RowsOfInterview(rows, k)
    ensures forall lap :: InterviewsOf(r.1, lap) == InterviewsOf(rows, lap)
  {
    if RowsOfInterview(rows, iid) >= Quota then (400, rows)
    else
      var added := Interview(None, Some(iid), hasil, Absent, tanggal, jam, map[]);
      forall k | k != iid
        ensures RowsOfInterview(rows + [added], k) == RowsOfInterview(rows, k)
      {
        RowsOfInterviewAppend(rows, [added], k);
      }
      forall lap
        ensures InterviewsOf(rows + [added], lap) == InterviewsOf(rows, lap)
      {
        InterviewsOfAppend(rows, [added], lap);
      }
      (302, rows + [added])
  }

  /** Through the quota route no interview ever gets past three rows, and no report
      gains a second resume row. */
  lemma InterviewQuotaKept(rows: seq<Interview>, iid: int, tanggal: Value, jam: Value, hasil: Value)
    requires forall k :: RowsOfInterview(rows, k) <= Quota
    ensures forall k :: RowsOfInterview(InterviewCall(rows, iid, tanggal, jam, hasil).1, k) <= Quota
  {
    var r := InterviewCall(rows, iid, tanggal, jam, hasil).1;
    if r != rows {
      RowsOfInterviewAppend(rows, [r[|rows|]], iid);
      assert r == rows + [r[|rows|]];
    }
    forall k
      ensures RowsOfInterview(r, k) <= Quota
    {
      if k != iid {
        assert RowsOfInterview(r, k) == RowsOfInterview(rows, k);
      }
    }
  }

  /* ---------- SLA days ---------- */

  const MsPerDay := 1000 * 60 * 60 * 24

  /** `Math.ceil(a / b)` for a positive divisor: the least r with a <= r * b. */
  function CeilDiv(a: int, b: int): (r: int)
    requires b > 0
    ensures (r - 1) * b < a <= r * b
  {
    var q := (-a) / b;
    assert -a == q * b + (-a) % b;
    -q
  }

  /** Only one integer satisfies CeilDiv's bounds. */
  lemma CeilDivUnique(a: int, b: int, r: int)
    requires b > 0 && (r - 1) * b < a <= r * b
    ensures r == CeilDiv(a, b)
  {
  }

  /** An SLA as computed: NULL, NaN (a date `new Date` cannot read), or a number of
      days. Only NULL and days reach a table (see StoreSla). */
  datatype Sla = NullSla | NaNSla | Days(n: int)

  /** `Math.ceil((end - start) / 86400000)` with both dates read through `toMs`, which
      gives the millisecond timestamp of a readable date and None otherwise. */
  function SlaDays(start: Value, end: Value, toMs: Value -> Option<int>): (r: Sla)
    ensures r.Days? <==> toMs(start).Some? && toMs(end).Some?
    ensures !r.NullSla?
    ensures r.Days? ==> (r.n - 1) * MsPerDay < toMs(end).value - toMs(start).value <= r.n * MsPerDay
  {
    match (toMs(start), toMs(end))
    case (Some(s), Some(e)) => Days(CeilDiv(e - s, MsPerDay))
    case _ => NaNSla
  }

  /** `db.query` writes NaN into the INSERT unquoted, which MySQL rejects, so the
      handler answers 500 and stores nothing; NULL and a number of days are stored and
      the handler answers 200. */
  function StoreSla(sla: Sla): (int, Option<Sla>) {
    if sla.NaNSla? then (500, None) else (200, Some(sla))
  }

  /** POST /laporan/:id/deswa: the SLA is computed with no guard, so the insert fails
      exactly when a date cannot be read; otherwise the stored SLA is the number of days
      between the dates, rounded up. */
  function DeswaRoute(start: Value, end: Value, toMs: Value -> Option<int>): (r: (int, Option<Sla>))
    ensures r.0 == 500 <==> toMs(start).None? || toMs(end).None?
    ensures r.0 == 500 || r.0 == 200
    ensures r.1.Some? <==> r.0 == 200
    ensures r.0 == 200 ==> r.1.value.Days?
    ensures r.0 == 200 ==> (r.1.value.n - 1) * MsPerDay < toMs(end).value - toMs(start).value <= r.1.value.n * MsPerDay
  {
    StoreSla(SlaDays(start, end, toMs))
  }

  /** The BRI SLA of POST /laporan/:id/bri: NULL unless both dates are truthy, otherwise
      computed as for the vendor. */
  function BriSla(start: Value, end: Value, toMs: Value -> Option<int>): (r: Sla)
    ensures r.NullSla? <==> Falsy(start) || Falsy(end)
    ensures r.NaNSla? <==> !Falsy(start) && !Falsy(end) && (toMs(start).None? || toMs(end).None?)
    ensures r.Days? ==> (r.n - 1) * MsPerDay < toMs(end).value - toMs(start).value <= r.n * MsPerDay
  {
    if !Falsy(start) && !Falsy(end) then SlaDays(start, end, toMs) else NullSla
  }

  /** POST /laporan/:id/bri: a falsy date stores NULL; two truthy dates store what the
      vendor route stores, and fail as it fails. */
  function BriRoute(start: Value, end: Value, toMs: Value -> Option<int>): (r: (int, Option<Sla>))
    ensures r.0 == 500 <==> !Falsy(start) && !Falsy(end) && (toMs(start).None? || toMs(end).None?)
    ensures r.1.Some? <==> r.0 == 200
    ensures Falsy(start) || Falsy(end) ==> r == (200, Some(NullSla))
    ensures !Falsy(start) && !Falsy(end) ==> r == DeswaRoute(start, end, toMs)
  {
    StoreSla(BriSla(start, end, toMs))
  }

  /** A missing date, which `new Date` cannot read, stores a NULL BRI SLA but makes the
      vendor insert fail. */
  lemma MissingDateSla(end: Value, toMs: Value -> Option<int>)
    requires toMs(Absent).None?
    ensures BriRoute(Absent, end, toMs) == (200, Some(NullSla))
    ensures DeswaRoute(Absent, end, toMs) == (500, None)
  {
  }

  /** Same instant, zero days; any part of a day counts as a whole day. */
  lemma SlaRounding()
    ensures CeilDiv(0, MsPerDay) == 0
    ensures CeilDiv(1, MsPerDay) == 1
    ensures CeilDiv(MsPerDay + 1, MsPerDay) == 2
    ensures CeilDiv(-1, MsPerDay) == 0
  {
    CeilDivUnique(0, MsPerDay, 0);
    CeilDivUnique(1, MsPerDay, 1);
    CeilDivUnique(MsPerDay + 1, MsPerDay, 2);
    CeilDivUnique(-1, MsPerDay, 0);
  }
}
