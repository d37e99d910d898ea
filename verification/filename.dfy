/** The download name both generators give the report: the insured person's name made
    safe for a file system, then " - ", the report id and the extension. */
module FileNames {
  import opened Text

  /** Characters removed by `.replace(/[\/\\?%*:|"<>]/g, "")`. */
  const Forbidden: set<char> := {'/', '\\', '?', '%', '*', ':', '|', '"', '<', '>'}

  predicate NoForbidden(s: string) {
    forall i :: 0 <= i < |s| ==> s[i] !in Forbidden
  }

  function RemoveForbidden(s: string): (r: string)
    ensures NoForbidden(r)
    ensures AllKept(s) ==> AllKept(r)
  {
    if s == [] then [] else (if s[0] in Forbidden then [] else [s[0]]) + RemoveForbidden(s[1..])
  }

  /** The characters of s that are not white space, in order. */
  function NonSpace(s: string): string {
    if s == [] then [] else (if IsJsSpace(s[0]) then [] else [s[0]]) + NonSpace(s[1..])
  }

  lemma {:induction false} NonSpaceAppend(a: string, b: string)
    ensures NonSpace(a + b) == NonSpace(a) + NonSpace(b)
  {
    if a == [] {
      assert a + b == b;
    } else {
      assert (a + b)[0] == a[0];
      assert (a + b)[1..] == a[1..] + b;
      NonSpaceAppend(a[1..], b);
    }
  }

  lemma {:induction false} NonSpaceOfSpaces(s: string)
    requires forall i :: 0 <= i < |s| ==> IsJsSpace(s[i])
    ensures NonSpace(s) == []
  {
    if s != [] {
      NonSpaceOfSpaces(s[1..]);
    }
  }

  /** No two white-space characters side by side. */
  predicate NoSpaceRun(s: string) {
    forall i :: 0 <= i < |s| - 1 ==> !(IsJsSpace(s[i]) && IsJsSpace(s[i + 1]))
  }

  /** Dropping leading white space keeps every visible character. */
  lemma TrimStartKeepsVisible(s: string)
    ensures NonSpace(TrimStart(s)) == NonSpace(s)
  {
    var r := TrimStart(s);
    var k := |s| - |r|;
    assert s == s[..k] + r;
    NonSpaceAppend(s[..k], r);
    NonSpaceOfSpaces(s[..k]);
  }

  /** `.replace(/\s+/g, " ")`: every run of white space becomes one plain space. */
  function CollapseSpaces(s: string): (r: string)
    ensures |r| == 0 <==> |s| == 0
    ensures |s| > 0 ==> (IsJsSpace(r[0]) <==> IsJsSpace(s[0]))
    ensures NoSpaceRun(r)
    ensures forall i :: 0 <= i < |r| ==> (IsJsSpace(r[i]) ==> r[i] == ' ')
    ensures NoForbidden(s) ==> NoForbidden(r)
    decreases |s|
  {
    if s == [] then []
    else if IsJsSpace(s[0]) then
      var rest := TrimStart(s[1..]);
      assert forall i :: 0 <= i < |rest| ==> rest[i] == s[|s| - |rest| + i];
      " " + CollapseSpaces(rest)
    else [s[0]] + CollapseSpaces(s[1..])
  }

  /** Reference reading of `.replace(/\s+/g, " ")`, one character at a time: white space
      that follows white space is dropped, other white space becomes ' ', and every
      other character is kept. */
  function CollapseRef(s: string, afterSpace: bool): string {
    if s == [] then []
    else if IsJsSpace(s[0]) then (if afterSpace then [] else " ") + CollapseRef(s[1..], true)
    else [s[0]] + CollapseRef(s[1..], false)
  }

  lemma {:induction false} CollapseRefAfterSpace(s: string)
    ensures CollapseRef(s, true) == CollapseRef(TrimStart(s), false)
  {
    if s != [] && IsJsSpace(s[0]) {
      CollapseRefAfterSpace(s[1..]);
    }
  }

  /** The run-at-a-time definition agrees with the one-pass reference on every input. */
  lemma {:induction false} CollapseSpacesMatchesReference(s: string)
    ensures CollapseSpaces(s) == CollapseRef(s, false)
    decreases |s|
  {
    if s != [] {
      if IsJsSpace(s[0]) {
        CollapseRefAfterSpace(s[1..]);
        CollapseSpacesMatchesReference(TrimStart(s[1..]));
      } else {
        CollapseSpacesMatchesReference(s[1..]);
      }
    }
  }

  /** Collapsing white space keeps every visible character, in order. */
  lemma {:induction false} CollapseKeepsVisible(s: string)
    ensures NonSpace(CollapseSpaces(s)) == NonSpace(s)
    decreases |s|
  {
    if s != [] {
      if IsJsSpace(s[0]) {
        var rest := TrimStart(s[1..]);
        CollapseKeepsVisible(rest);
        TrimStartKeepsVisible(s[1..]);
        NonSpaceAppend(" ", CollapseSpaces(rest));
      } else {
        CollapseKeepsVisible(s[1..]);
        NonSpaceAppend([s[0]], CollapseSpaces(s[1..]));
      }
    }
  }

  lemma TrimEndKeepsVisible(s: string)
    ensures NonSpace(TrimEnd(s)) == NonSpace(s)
  {
    var r := TrimEnd(s);
    assert s == r + s[|r|..];
    NonSpaceAppend(r, s[|r|..]);
    NonSpaceOfSpaces(s[|r|..]);
  }

  /** A string that is safe as part of a file name: no forbidden character, no run of
      white space, and plain spaces only. */
  predicate FileSafe(s: string) {
    && NoForbidden(s)
    && NoSpaceRun(s)
    && (forall i :: 0 <= i < |s| ==> (IsJsSpace(s[i]) ==> s[i] == ' '))
  }

  lemma FileSafeSlice(s: string, a: nat, b: nat)
    requires a <= b <= |s|
    requires FileSafe(s)
    ensures FileSafe(s[a..b])
  {
    var t := s[a..b];
    assert forall i :: 0 <= i < |t| ==> t[i] == s[a + i];
  }

  /** The name part of the file name: cleanText, then the forbidden characters removed,
      white-space runs collapsed and the ends trimmed. */
  function FileStem(name: Value): (r: string)
    ensures FileSafe(r)
    ensures Trimmed(r)
  {
    var collapsed := CollapseSpaces(RemoveForbidden(CleanText(name)));
    var front := TrimStart(collapsed);
    FileSafeSlice(collapsed, |collapsed| - |front|, |collapsed|);
    FileSafeSlice(front, 0, |TrimEnd(front)|);
    Trim(collapsed)
  }

  /** The stem keeps every visible character of the cleaned name that is not forbidden,
      in order. */
  lemma FileStemKeepsVisible(name: Value)
    ensures NonSpace(FileStem(name)) == NonSpace(RemoveForbidden(CleanText(name)))
  {
    var collapsed := CollapseSpaces(RemoveForbidden(CleanText(name)));
    CollapseKeepsVisible(RemoveForbidden(CleanText(name)));
    TrimStartKeepsVisible(collapsed);
    TrimEndKeepsVisible(TrimStart(collapsed));
  }

  /** `${stem} - ${id}${ext}`: a file-safe, trimmed stem followed by " - ", the report
      id and the extension. */
  function FileName(name: Value, id: string, ext: string): (r: string)
    ensures |r| >= |id| + |ext| + 3
    ensures FileSafe(r[..|r| - |id| - |ext| - 3]) && Trimmed(r[..|r| - |id| - |ext| - 3])
    ensures r[|r| - |id| - |ext| - 3..] == " - " + id + ext
  {
    var stem := FileStem(name);
    var suffix := " - " + id + ext;
    assert |suffix| == |id| + |ext| + 3;
    var r := stem + suffix;
    assert |r| - |id| - |ext| - 3 == |stem|;
    assert r[..|stem|] == stem;
    assert r[|stem|..] == suffix;
    r
  }

  /** Only the extension depends on the kind of file: the PDF and the Word file of a
      report carry the same name before " - " + id. */
  lemma SameStemAnyExtension(name: Value, id: string, ext1: string, ext2: string)
    ensures var a, b := FileName(name, id, ext1), FileName(name, id, ext2);
            a[..|a| - |id| - |ext1| - 3] == b[..|b| - |id| - |ext2| - 3] == FileStem(name)
  {
    var a, b := FileName(name, id, ext1), FileName(name, id, ext2);
    assert a == FileStem(name) + (" - " + id + ext1);
    assert b == FileStem(name) + (" - " + id + ext2);
    assert a[..|FileStem(name)|] == FileStem(name);
    assert b[..|FileStem(name)|] == FileStem(name);
  }
}
