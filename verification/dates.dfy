/** `formatDate` and `formatDateIndo`, shared verbatim by the PDF and the Word generator. */
module Dates {
  import opened Wrappers
  import opened Text
  import opened Numerals

  type Day = d: int | 1 <= d <= 31 witness 1
  type Month = m: int | 1 <= m <= 12 witness 1

  /** The local calendar date of a JavaScript Date: getDate(), getMonth() + 1 and
      getFullYear(). */
  datatype CalendarDate = CalendarDate(day: Day, month: Month, year: int)

  /** `new Date(value)` read through the local-time getters; None is an Invalid Date.
      Date-string parsing and time zones belong to the JavaScript runtime, so the model
      takes this reading as a parameter. */
  type DateParser = Value -> Option<CalendarDate>

  /** `!dateString || dateString === "0000-00-00"` */
  predicate NoDate(v: Value) {
    Falsy(v) || v == Str("0000-00-00")
  }

  /** `padStart(2, "0")` */
  function Pad2(s: string): string {
    if |s| >= 2 then s else seq(2 - |s|, _ => '0') + s
  }

  /** `String(n).padStart(2, "0")` for n below 100. */
  function TwoDigits(n: nat): (r: string)
    requires n < 100
    ensures |r| == 2 && AllDigits(r)
  {
    Pad2(NatToString(n))
  }

  predicate YearShape(t: string) {
    && 1 <= |t|
    && (forall k :: 0 < k < |t| ==> IsDigit(t[k]))
    && (t[0] == '-' ==> 2 <= |t|)
    && (t[0] != '-' ==> IsDigit(t[0]))
  }

  /** formatDate: "-" when there is no date, the value itself when it does not parse,
      and otherwise DD/MM/YYYY with day and month padded to two digits. */
  function FormatDate(v: Value, parse: DateParser): (r: string)
    ensures NoDate(v) ==> r == "-"
    ensures !NoDate(v) && parse(v).None? ==> r == ToStr(v)
    ensures !NoDate(v) && parse(v).Some? ==>
      && 7 <= |r| && r[2] == '/' && r[5] == '/'
      && AllDigits(r[..2]) && AllDigits(r[3..5]) && YearShape(r[6..])
  {
    if NoDate(v) then "-"
    else match parse(v)
      case None => ToStr(v)
      case Some(d) =>
        IntRoundTrip(d.year);
        TwoDigits(d.day) + "/" + TwoDigits(d.month) + "/" + IntToString(d.year)
  }

  /** Reads a DD/MM/YYYY string back into a date. */
  function ParseDmy(s: string): Option<CalendarDate> {
    if 7 <= |s| && s[2] == '/' && s[5] == '/' && AllDigits(s[..2]) && AllDigits(s[3..5]) && YearShape(s[6..]) then
      var d := ParseNat(s[..2]);
      var m := ParseNat(s[3..5]);
      if 1 <= d <= 31 && 1 <= m <= 12 then Some(CalendarDate(d, m, ParseInt(s[6..]))) else None
    else None
  }

  lemma {:induction false} LeadingZero(s: string)
    requires AllDigits(s)
    ensures AllDigits(['0'] + s)
    ensures ParseNat(['0'] + s) == ParseNat(s)
  {
    if s != [] {
      assert (['0'] + s)[..|s|] == ['0'] + s[..|s| - 1];
      LeadingZero(s[..|s| - 1]);
    }
  }

  lemma TwoDigitsRoundTrip(n: nat)
    requires n < 100
    ensures ParseNat(TwoDigits(n)) == n
  {
    var s := NatToString(n);
    NatRoundTrip(n);
    if |s| < 2 {
      assert TwoDigits(n) == ['0'] + s;
      LeadingZero(s);
    }
  }

  /** A formatted date reads back as the date the parser produced: day, month and year
      are all recoverable from DD/MM/YYYY. */
  lemma FormatDateRoundTrip(v: Value, parse: DateParser)
    requires !NoDate(v) && parse(v).Some?
    ensures ParseDmy(FormatDate(v, parse)) == parse(v)
  {
    var d := parse(v).value;
    var r := FormatDate(v, parse);
    assert r[..2] == TwoDigits(d.day);
    assert r[3..5] == TwoDigits(d.month);
    assert r[6..] == IntToString(d.year);
    TwoDigitsRoundTrip(d.day);
    TwoDigitsRoundTrip(d.month);
    IntRoundTrip(d.year);
  }

  /* ---------- formatDateIndo ---------- */

  const MonthNames: seq<string> := [
    "Januari", "Februari", "Maret", "April", "Mei", "Juni",
    "Juli", "Agustus", "September", "Oktober", "November", "Desember"
  ]

  /** `bulan[d.getMonth()]` */
  function MonthName(m: Month): string {
    MonthNames[m - 1]
  }

  /** formatDateIndo: "-" when there is no date, the value itself when it does not
      parse, otherwise the unpadded day, the Indonesian month name and the year. */
  function FormatDateIndo(v: Value, parse: DateParser): (r: string)
    ensures NoDate(v) ==> r == "-"
    ensures !NoDate(v) && parse(v).None? ==> r == ToStr(v)
  {
    if NoDate(v) then "-"
    else match parse(v)
      case None => ToStr(v)
      case Some(d) => NatToString(d.day) + " " + MonthName(d.month) + " " + IntToString(d.year)
  }

  /** Position of the first c in s. */
  function IndexOf(s: string, c: char): (r: Option<nat>)
    ensures r.Some? ==> r.value < |s| && s[r.value] == c && c !in s[..r.value]
    ensures r.None? ==> c !in s
  {
    if s == [] then None
    else if s[0] == c then Some(0)
    else match IndexOf(s[1..], c)
      case None => None
      case Some(k) => Some(k + 1)
  }

  lemma IndexOfSplit(a: string, c: char, b: string)
    requires c !in a
    ensures IndexOf(a + [c] + b, c) == Some(|a|)
  {
    if a != [] {
      assert (a + [c] + b)[1..] == a[1..] + [c] + b;
      IndexOfSplit(a[1..], c, b);
    }
  }

  /** Number of the month with the given Indonesian name. */
  function MonthIndex(name: string): (r: Option<Month>)
    ensures r.Some? ==> MonthName(r.value) == name
  {
    if name == "Januari" then Some(1) else if name == "Februari" then Some(2)
    else if name == "Maret" then Some(3) else if name == "April" then Some(4)
    else if name == "Mei" then Some(5) else if name == "Juni" then Some(6)
    else if name == "Juli" then Some(7) else if name == "Agustus" then Some(8)
    else if name == "September" then Some(9) else if name == "Oktober" then Some(10)
    else if name == "November" then Some(11) else if name == "Desember" then Some(12)
    else None
  }

  /** Reads "<day> <month name> <year>" back into a date. */
  function ParseIndo(s: string): Option<CalendarDate> {
    match IndexOf(s, ' ')
    case None => None
    case Some(i) => ParseIndoRest(s[..i], s[i + 1..])
  }

  function ParseIndoRest(dayText: string, rest: string): Option<CalendarDate> {
    match IndexOf(rest, ' ')
    case None => None
    case Some(j) => ParseIndoParts(dayText, rest[..j], rest[j + 1..])
  }

  function ParseIndoParts(dayText: string, name: string, yearText: string): Option<CalendarDate> {
    if 1 <= |dayText| && AllDigits(dayText) && YearShape(yearText) then
      var d := ParseNat(dayText);
      match MonthIndex(name)
      case None => None
      case Some(m) => if 1 <= d <= 31 then Some(CalendarDate(d, m, ParseInt(yearText))) else None
    else None
  }

  lemma MonthIndexOfName(m: Month)
    ensures MonthIndex(MonthName(m)) == Some(m)
    ensures ' ' !in MonthName(m)
  {
  }

  lemma NoSpaceInNumber(n: nat)
    ensures ' ' !in NatToString(n)
  {
  }

  lemma ParseIndoSplit(a: string, b: string)
    requires ' ' !in a
    ensures ParseIndo(a + [' '] + b) == ParseIndoRest(a, b)
  {
    var s := a + [' '] + b;
    IndexOfSplit(a, ' ', b);
    assert s[..|a|] == a;
    assert s[|a| + 1..] == b;
  }

  lemma ParseIndoRestSplit(dayText: string, a: string, b: string)
    requires ' ' !in a
    ensures ParseIndoRest(dayText, a + [' '] + b) == ParseIndoParts(dayText, a, b)
  {
    var s := a + [' '] + b;
    IndexOfSplit(a, ' ', b);
    assert s[..|a|] == a;
    assert s[|a| + 1..] == b;
  }

  lemma ParseIndoOfDate(d: CalendarDate)
    ensures ParseIndo(NatToString(d.day) + " " + MonthName(d.month) + " " + IntToString(d.year)) == Some(d)
  {
    var dayText := NatToString(d.day);
    var name := MonthName(d.month);
    var yearText := IntToString(d.year);
    assert dayText + " " + name + " " + yearText == dayText + [' '] + (name + [' '] + yearText);
    NoSpaceInNumber(d.day);
    MonthIndexOfName(d.month);
    ParseIndoSplit(dayText, name + [' '] + yearText);
    ParseIndoRestSplit(dayText, name, yearText);
    NatRoundTrip(d.day);
    IntRoundTrip(d.year);
  }

  /** An Indonesian-style date reads back as the date the parser produced, so two
      different dates are never printed alike. */
  lemma FormatDateIndoRoundTrip(v: Value, parse: DateParser)
    requires !NoDate(v) && parse(v).Some?
    ensures ParseIndo(FormatDateIndo(v, parse)) == parse(v)
  {
    ParseIndoOfDate(parse(v).value);
  }
}
