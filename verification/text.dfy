/** Values as the report generators receive them, and `cleanText`, the sanitiser both
    generators apply to every cell before measuring or drawing it. */
module Text {
  import Numerals

  /** A JavaScript value as it arrives from a query row or a request body: `null` or
      `undefined` (Absent), a string, or an integer-valued number. */
  datatype Value = Absent | Str(s: string) | Num(n: int)

  /** JavaScript falsiness: `null`, `undefined`, `""` and `0`. */
  predicate Falsy(v: Value) {
    v.Absent? || v == Str("") || v == Num(0)
  }

  /** The expression `v || fallback`. */
  function Or(v: Value, fallback: Value): Value {
    if Falsy(v) then fallback else v
  }

  /** `v.toString()`, and what a template literal prints, for a value that is not null. */
  function ToStr(v: Value): string
    requires !v.Absent?
  {
    match v
    case Str(s) => s
    case Num(n) => Numerals.IntToString(n)
  }

  /** ECMAScript WhiteSpace and LineTerminator code points: what `trim` removes and what
      the regular-expression class `\s` matches. */
  predicate IsJsSpace(c: char) {
    || c == '\t' || c == '\n' || c == '\U{000B}' || c == '\U{000C}' || c == '\r' || c == ' '
    || c == '\U{00A0}' || c == '\U{1680}' || ('\U{2000}' <= c <= '\U{200A}')
    || c == '\U{2028}' || c == '\U{2029}' || c == '\U{202F}' || c == '\U{205F}'
    || c == '\U{3000}' || c == '\U{FEFF}'
  }

  /** Characters that survive the last pass of cleanText: printable ASCII, newline,
      carriage return and tab. */
  predicate IsKept(c: char) {
    (' ' <= c <= '~') || c == '\n' || c == '\r' || c == '\t'
  }

  predicate AllKept(s: string) {
    forall i :: 0 <= i < |s| ==> IsKept(s[i])
  }

  /** No white space at either end. */
  predicate Trimmed(s: string) {
    s == [] || (!IsJsSpace(s[0]) && !IsJsSpace(s[|s| - 1]))
  }

  /** The strings cleanText can return: non-empty, trimmed, made of kept characters. */
  predicate IsClean(s: string) {
    s != [] && AllKept(s) && Trimmed(s)
  }

  /* ---------- the regular-expression passes ---------- */

  const SingleQuotes: set<char> := {'\U{2018}', '\U{2019}'}
  const DoubleQuotes: set<char> := {'\U{201C}', '\U{201D}'}
  const Dashes: set<char> := {'\U{2013}', '\U{2014}'}
  const NoBreakSpace: set<char> := {'\U{00A0}'}

  /** `s.replace(/[targets]/g, sub)` */
  function ReplaceAll(s: string, targets: set<char>, sub: char): (r: string)
    ensures |r| == |s|
    ensures forall i :: 0 <= i < |s| ==> r[i] == (if s[i] in targets then sub else s[i])
  {
    if s == [] then [] else [if s[0] in targets then sub else s[0]] + ReplaceAll(s[1..], targets, sub)
  }

  /** `s.replace(/[^\x20-\x7E\n\r\t]/g, "")` */
  function RemoveUnkept(s: string): (r: string)
    ensures AllKept(r)
    ensures |r| <= |s|
  {
    if s == [] then [] else (if IsKept(s[0]) then [s[0]] else []) + RemoveUnkept(s[1..])
  }

  /** The five replace passes of cleanText, in the order the code applies them. */
  function Sanitize(s: string): (r: string)
    ensures AllKept(r)
  {
    var quotes := ReplaceAll(s, SingleQuotes, '\'');
    var doubles := ReplaceAll(quotes, DoubleQuotes, '"');
    var dashes := ReplaceAll(doubles, Dashes, '-');
    var spaces := ReplaceAll(dashes, NoBreakSpace, ' ');
    RemoveUnkept(spaces)
  }

  /* ---------- trim ---------- */

  function TrimStart(s: string): (r: string)
    ensures |r| <= |s| && r == s[|s| - |r|..]
    ensures r == [] || !IsJsSpace(r[0])
    ensures forall i :: 0 <= i < |s| - |r| ==> IsJsSpace(s[i])
  {
    if s != [] && IsJsSpace(s[0]) then TrimStart(s[1..]) else s
  }

  function TrimEnd(s: string): (r: string)
    ensures |r| <= |s| && r == s[..|r|]
    ensures r == [] || !IsJsSpace(r[|r| - 1])
    ensures forall i :: |r| <= i < |s| ==> IsJsSpace(s[i])
  {
    if s != [] && IsJsSpace(s[|s| - 1]) then TrimEnd(s[..|s| - 1]) else s
  }

  /** r is the piece of s that starts at k, with only white space before and after it. */
  predicate CutAt(s: string, r: string, k: int) {
    && 0 <= k <= |s| - |r| && r == s[k..k + |r|]
    && (forall i :: 0 <= i < k ==> IsJsSpace(s[i]))
    && (forall i :: k + |r| <= i < |s| ==> IsJsSpace(s[i]))
  }

  /** `String.prototype.trim`: the longest middle piece with no white space at its ends. */
  function Trim(s: string): (r: string)
    ensures Trimmed(r)
    ensures |r| <= |s|
    ensures AllKept(s) ==> AllKept(r)
    ensures r == [] ==> forall i :: 0 <= i < |s| ==> IsJsSpace(s[i])
  {
    var front := TrimStart(s);
    var r := TrimEnd(front);
    r
  }

  /** trim cuts one piece out of the middle: only white space lies before and after it.
      With Trimmed, this pins the result down. */
  lemma TrimIsCut(s: string)
    ensures exists k :: CutAt(s, Trim(s), k)
  {
    var front := TrimStart(s);
    TrimCut(s, front, TrimEnd(front));
    assert CutAt(s, Trim(s), |s| - |front|);
  }

  /** Cutting white space from the front and then from the back leaves one piece cut
      out of the middle. */
  lemma TrimCut(s: string, front: string, r: string)
    requires |front| <= |s| && front == s[|s| - |front|..]
    requires forall i :: 0 <= i < |s| - |front| ==> IsJsSpace(s[i])
    requires |r| <= |front| && r == front[..|r|]
    requires forall i :: |r| <= i < |front| ==> IsJsSpace(front[i])
    ensures CutAt(s, r, |s| - |front|)
  {
    var k := |s| - |front|;
    assert r == s[k..k + |r|];
    forall i | k + |r| <= i < |s|
      ensures IsJsSpace(s[i])
    {
      assert s[i] == front[i - k];
    }
  }

  /* ---------- cleanText ---------- */

  /** cleanText: "-" for null/undefined; otherwise the value's text after the five
      passes and trim, or "-" when nothing is left. */
  function CleanText(v: Value): (r: string)
    ensures IsClean(r)
    ensures v.Absent? ==> r == "-"
    ensures !v.Absent? && Trim(Sanitize(ToStr(v))) == [] ==> r == "-"
  {
    match v
    case Absent => "-"
    case _ =>
      var t := Trim(Sanitize(ToStr(v)));
      if t == [] then "-" else t
  }

  /* ---------- reference reading and properties ---------- */

  /** The four replacement passes seen one character at a time. */
  function Normalize(c: char): char {
    if c in SingleQuotes then '\''
    else if c in DoubleQuotes then '"'
    else if c in Dashes then '-'
    else if c in NoBreakSpace then ' '
    else c
  }

  /** Reference sanitiser: one pass that normalises each character and keeps it only if
      the font can draw it. */
  function SanitizeRef(s: string): string {
    if s == [] then [] else (if IsKept(Normalize(s[0])) then [Normalize(s[0])] else []) + SanitizeRef(s[1..])
  }

  lemma {:induction false} RemoveUnkeptNormalized(s: string, m: string)
    requires |m| == |s|
    requires forall i :: 0 <= i < |s| ==> m[i] == Normalize(s[i])
    ensures RemoveUnkept(m) == SanitizeRef(s)
  {
    if s != [] {
      RemoveUnkeptNormalized(s[1..], m[1..]);
    }
  }

  /** The five sequential passes agree with the one-pass reference on every input. */
  lemma SanitizeMatchesReference(s: string)
    ensures Sanitize(s) == SanitizeRef(s)
  {
    var quotes := ReplaceAll(s, SingleQuotes, '\'');
    var doubles := ReplaceAll(quotes, DoubleQuotes, '"');
    var dashes := ReplaceAll(doubles, Dashes, '-');
    var spaces := ReplaceAll(dashes, NoBreakSpace, ' ');
    RemoveUnkeptNormalized(s, spaces);
  }

  /** cleanText is "-" for null/undefined; otherwise it is the trimmed one-pass
      sanitisation of the value's text, or "-" when that is empty. */
  lemma CleanTextMatchesReference(v: Value)
    ensures v.Absent? ==> CleanText(v) == "-"
    ensures !v.Absent? ==> var t := Trim(SanitizeRef(ToStr(v)));
                           CleanText(v) == if t == [] then "-" else t
  {
    if !v.Absent? {
      SanitizeMatchesReference(ToStr(v));
    }
  }

  lemma {:induction false} RemoveUnkeptOfKept(s: string)
    requires AllKept(s)
    ensures RemoveUnkept(s) == s
  {
    if s != [] {
      RemoveUnkeptOfKept(s[1..]);
    }
  }

  /** A string of drawable characters passes through the five passes unchanged. */
  lemma SanitizeOfKept(s: string)
    requires AllKept(s)
    ensures Sanitize(s) == s
  {
    var quotes := ReplaceAll(s, SingleQuotes, '\'');
    var doubles := ReplaceAll(quotes, DoubleQuotes, '"');
    var dashes := ReplaceAll(doubles, Dashes, '-');
    var spaces := ReplaceAll(dashes, NoBreakSpace, ' ');
    assert spaces == s;
    RemoveUnkeptOfKept(s);
  }

  lemma TrimOfTrimmed(s: string)
    requires Trimmed(s)
    ensures Trim(s) == s
  {
  }

  /** cleanText returns its argument unchanged exactly when that argument is already a
      possible output of cleanText. */
  lemma CleanTextFixpoint(s: string)
    ensures CleanText(Str(s)) == s <==> IsClean(s)
  {
    if IsClean(s) {
      SanitizeOfKept(s);
      TrimOfTrimmed(s);
    }
  }

  /** Cleaning twice is cleaning once. */
  lemma CleanTextIdempotent(v: Value)
    ensures CleanText(Str(CleanText(v))) == CleanText(v)
  {
    CleanTextFixpoint(CleanText(v));
  }

  /** A number is printed in plain decimal. */
  lemma CleanTextOfNumber(n: int)
    ensures CleanText(Num(n)) == Numerals.IntToString(n)
  {
    var s := Numerals.IntToString(n);
    assert IsClean(s);
    CleanTextFixpoint(s);
    CleanTextSameText(Num(n), Str(s));
  }

  lemma CleanTextSameText(v: Value, w: Value)
    requires !v.Absent? && !w.Absent? && ToStr(v) == ToStr(w)
    ensures CleanText(v) == CleanText(w)
  {
  }

  lemma {:induction false} SanitizeRefOfSpaces(s: string)
    requires forall i :: 0 <= i < |s| ==> IsJsSpace(s[i])
    ensures forall i :: 0 <= i < |SanitizeRef(s)| ==> IsJsSpace(SanitizeRef(s)[i])
  {
    if s != [] {
      SanitizeRefOfSpaces(s[1..]);
    }
  }

  /** A value made only of white space (such as the "\n\n\n\n" of a signature box) is
      printed as "-". */
  lemma BlankIsDash(v: Value)
    requires !v.Absent?
    requires forall i :: 0 <= i < |ToStr(v)| ==> IsJsSpace(ToStr(v)[i])
    ensures CleanText(v) == "-"
  {
    var s := ToStr(v);
    SanitizeMatchesReference(s);
    SanitizeRefOfSpaces(s);
  }

  /** `v || "-"` prints the same text as `v` itself, except for the number 0 (see
      ZeroHiddenByOrDash). */
  lemma OrDashSameText(v: Value)
    requires v != Num(0)
    ensures CleanText(Or(v, Str("-"))) == CleanText(v)
  {
    if Falsy(v) {
      assert Or(v, Str("-")) == Str("-");
      assert IsClean("-");
      CleanTextFixpoint("-");
      if v.Str? {
        assert v == Str("");
        assert Sanitize("") == "";
        assert Trim("") == "";
      }
    } else {
      assert Or(v, Str("-")) == v;
    }
  }

  /** For the number 0, `v || "-"` prints "-" where cleanText alone prints "0". */
  lemma ZeroHiddenByOrDash()
    ensures CleanText(Or(Num(0), Str("-"))) == "-"
    ensures CleanText(Num(0)) == "0"
  {
    assert IsClean("-");
    CleanTextFixpoint("-");
    assert Or(Num(0), Str("-")) == Str("-");
    assert Numerals.IntToString(0) == "0" by {
      assert Numerals.DigitChar(0) == '0';
    }
    CleanTextOfNumber(0);
  }
}
