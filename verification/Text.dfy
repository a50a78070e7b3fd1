/** Substring search and line splitting, as Python strings do them. */
module Text {
  import opened Wrappers

  predicate At(text: string, pat: string, i: int) {
    0 <= i && i + |pat| <= |text| && text[i..i + |pat|] == pat
  }

  /** text.index(pat, from), None where it raises. */
  function Find(text: string, pat: string, from: nat): (r: Option<nat>)
    ensures r.Some? ==> from <= r.value && At(text, pat, r.value) && forall j :: from <= j < r.value ==>
      !At(text, pat, j)
    ensures r.None? ==> forall j :: from <= j ==> !At(text, pat, j)
    decreases |text| - from
  {
    if from + |pat| > |text| then None
    else if At(text, pat, from) then Some(from)
    else Find(text, pat, from + 1)
  }

  ghost predicate Contains(text: string, pat: string) {
    exists i :: At(text, pat, i)
  }

  lemma {:induction false} FindFirst(text: string, pat: string, i: nat)
    requires At(text, pat, i) && forall j :: 0 <= j < i ==> !At(text, pat, j)
    ensures Find(text, pat, 0) == Some(i)
  {
    hide Find, At;
    var r := Find(text, pat, 0);
  }

  lemma {:induction false} PrefixSlices(s: string, t: string, n: nat, i: nat, m: nat)
    requires n <= |s| && n <= |t| && s[..n] == t[..n] && i + m <= n
    ensures s[i..i + m] == t[i..i + m]
  {
    assert s[i..i + m] == s[..n][i..i + m];
    assert t[i..i + m] == t[..n][i..i + m];
  }

  lemma {:induction false} AtInPrefix(s: string, t: string, n: nat, pat: string, i: nat)
    requires n <= |s| && n <= |t| && s[..n] == t[..n] && i + |pat| <= n
    ensures At(s, pat, i) <==> At(t, pat, i)
  {
    PrefixSlices(s, t, n, i, |pat|);
  }

  // ---- occurrences and separators ----

  lemma {:induction false} NotAt(text: string, pat: string, i: nat, k: nat)
    requires k < |pat| && i + k < |text| && text[i + k] != pat[k]
    ensures !At(text, pat, i)
  {
    if i + |pat| <= |text| {
      assert text[i..i + |pat|][k] == text[i + k];
    }
  }

  lemma {:induction false} AtIndex(text: string, pat: string, i: nat, k: nat)
    requires At(text, pat, i) && k < |pat|
    ensures text[i + k] == pat[k]
  {
    assert text[i..i + |pat|][k] == text[i + k];
  }

  /** An occurrence cannot cross a character it does not have. */
  lemma {:induction false} NotAcross(a: string, c: char, b: string, pat: string, i: nat)
    requires c !in pat && At(a + [c] + b, pat, i)
    ensures i + |pat| <= |a| ==> At(a, pat, i)
    ensures i > |a| ==> At(b, pat, i - |a| - 1)
    ensures i + |pat| <= |a| || i > |a|
  {
    var text := a + [c] + b;
    if i + |pat| <= |a| {
      assert a[i..i + |pat|] == text[i..i + |pat|];
    } else if i > |a| {
      assert b[i - |a| - 1..i - |a| - 1 + |pat|] == text[i..i + |pat|];
    } else {
      AtIndex(text, pat, i, |a| - i);
    }
  }

  lemma {:induction false} AbsentAcross(a: string, c: char, b: string, pat: string)
    requires c !in pat && !Contains(a, pat) && !Contains(b, pat)
    ensures !Contains(a + [c] + b, pat)
  {
    forall i | 0 <= i
      ensures !At(a + [c] + b, pat, i)
    {
      if At(a + [c] + b, pat, i) {
        NotAcross(a, c, b, pat, i);
      }
    }
  }

  lemma {:induction false} AbsentWithout(text: string, pat: string, c: char)
    requires c in pat && c !in text
    ensures !Contains(text, pat)
  {
    var k :| 0 <= k < |pat| && pat[k] == c;
    forall i | 0 <= i
      ensures !At(text, pat, i)
    {
      if At(text, pat, i) {
        AtIndex(text, pat, i, k);
      }
    }
  }

  lemma AbsentShort(text: string, pat: string)
    requires |text| < |pat|
    ensures !Contains(text, pat)
  {
  }

  // ---- lines ----

  predicate IsBreak(c: char) {
    c in ['\n', '\r', '\U{0B}', '\U{0C}', '\U{1C}', '\U{1D}', '\U{1E}', '\U{85}', '\U{2028}', '\U{2029}']
  }

  predicate OneLine(s: string) {
    forall i :: 0 <= i < |s| ==> !IsBreak(s[i])
  }

  /** The first break at or after i. */
  function BreakAt(text: string, i: nat): (k: nat)
    requires i <= |text|
    ensures i <= k <= |text| && (k < |text| ==> IsBreak(text[k])) && forall j :: i <= j < k ==> !IsBreak(text[j])
    decreases |text| - i
  {
    if i == |text| || IsBreak(text[i]) then i else BreakAt(text, i + 1)
  }

  /** splitlines(): every break ends a line, CR LF is one break, and no empty line follows the last. */
  function Lines(text: string): seq<string>
    decreases |text|
  {
    if text == "" then []
    else
      var k := BreakAt(text, 0);
      if k == |text| then [text]
      else
        var after := if text[k] == '\r' && k + 1 < |text| && text[k + 1] == '\n' then k + 2 else k + 1;
        [text[..k]] + Lines(text[after..])
  }

  /** "\n".join */
  function Join(lines: seq<string>): string {
    if lines == [] then ""
    else if |lines| == 1 then lines[0]
    else lines[0] + ['\n'] + Join(lines[1..])
  }

  lemma {:induction false} LinesOfFirst(line: string, rest: string)
    requires OneLine(line)
    ensures Lines(line + ['\n'] + rest) == [line] + Lines(rest)
  {
    var text := line + ['\n'] + rest;
    hide IsBreak;
    assert IsBreak('\n') by {
      BreakIsNewline();
    }
    assert forall i :: 0 <= i < |line| ==> text[i] == line[i];
    assert text[|line|] == '\n';
    assert BreakAt(text, 0) == |line|;
    assert text[..|line|] == line && text[|line| + 1..] == rest;
  }

  lemma BreakIsNewline()
    ensures IsBreak('\n')
  {
  }

  lemma {:induction false} LinesOfLast(line: string)
    requires OneLine(line) && line != ""
    ensures Lines(line) == [line]
  {
    hide IsBreak;
    assert BreakAt(line, 0) == |line|;
  }

  /** Joining lines and splitting them again gives the lines back. */
  lemma {:induction false} LinesOfJoin(lines: seq<string>)
    requires lines != [] && lines[|lines| - 1] != "" && forall i :: 0 <= i < |lines| ==> OneLine(lines[i])
    ensures Lines(Join(lines)) == lines
  {
    hide OneLine, Lines;
    if |lines| == 1 {
      LinesOfLast(lines[0]);
    } else {
      LinesOfFirst(lines[0], Join(lines[1..]));
      LinesOfJoin(lines[1..]);
    }
  }

  lemma {:induction false} AbsentFromJoin(lines: seq<string>, pat: string)
    requires pat != "" && '\n' !in pat && forall i :: 0 <= i < |lines| ==> !Contains(lines[i], pat)
    ensures !Contains(Join(lines), pat)
  {
    hide Contains;
    if lines == [] {
      AbsentShort("", pat);
    } else if |lines| > 1 {
      AbsentFromJoin(lines[1..], pat);
      AbsentAcross(lines[0], '\n', Join(lines[1..]), pat);
    }
  }
}
