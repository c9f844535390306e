/**
 * Parsing of directory and file names: the two regular expressions of the
 * indexer (`video(\d+)$`, and `case(\d+)\.html$` with IGNORECASE) applied with
 * `re.search`, the decimal reading `int(...)` of the captured digit run, and
 * `str(k)` for rendering a video number as an object key.
 */
module Names {
  import opened Wrappers

  predicate IsDigit(c: char) { '0' <= c <= '9' }

  predicate AllDigits(s: string) { forall i :: 0 <= i < |s| ==> IsDigit(s[i]) }

  function DigitValue(c: char): nat
    requires IsDigit(c)
  {
    c as int - '0' as int
  }

  function DigitChar(d: nat): (c: char)
    requires d < 10
    ensures IsDigit(c) && DigitValue(c) == d
  {
    ('0' as int + d) as char
  }

  /** `int(s)` for a run of ASCII digits: leading zeros contribute nothing. */
  function DecimalValue(s: string): nat
    requires AllDigits(s)
  {
    if s == [] then 0 else DecimalValue(s[..|s| - 1]) * 10 + DigitValue(s[|s| - 1])
  }

  /** `str(n)`: the shortest decimal spelling of `n`. */
  function NatToString(n: nat): (s: string)
    ensures |s| > 0 && AllDigits(s)
    ensures s[0] == '0' <==> n == 0
  {
    if n < 10 then [DigitChar(n)] else NatToString(n / 10) + [DigitChar(n % 10)]
  }

  /** Reading back the rendered key gives the number: `int(str(n)) == n`. */
  lemma {:induction false} DecimalValueOfNatToString(n: nat)
    ensures DecimalValue(NatToString(n)) == n
  {
    if n >= 10 {
      var s := NatToString(n);
      assert s[..|s| - 1] == NatToString(n / 10);
      DecimalValueOfNatToString(n / 10);
    }
  }

  /** `str` is injective, so distinct video numbers never collide as keys. */
  lemma NatToStringInjective(m: nat, n: nat)
    ensures NatToString(m) == NatToString(n) <==> m == n
  {
    DecimalValueOfNatToString(m);
    DecimalValueOfNatToString(n);
  }

  /** A leading zero does not change the value: `int("07") == int("7")`. */
  lemma {:induction false} LeadingZeroIgnored(s: string)
    requires AllDigits(s)
    ensures AllDigits("0" + s) && DecimalValue("0" + s) == DecimalValue(s)
  {
    if s != [] {
      var t := "0" + s;
      assert t[..|t| - 1] == "0" + s[..|s| - 1];
      LeadingZeroIgnored(s[..|s| - 1]);
    }
  }

  /** The longest suffix of `s` made of digits: what the greedy `(\d+)` before the anchor captures. */
  function TrailingDigits(s: string): (d: string)
    ensures |d| <= |s| && d == s[|s| - |d|..]
    ensures AllDigits(d)
    ensures |d| < |s| ==> !IsDigit(s[|s| - |d| - 1])
  {
    if s != [] && IsDigit(s[|s| - 1]) then TrailingDigits(s[..|s| - 1]) + [s[|s| - 1]] else []
  }

  /** Appending a digit extends the trailing digit run by that digit. */
  lemma TrailingDigitsSnoc(q: string, c: char)
    requires IsDigit(c)
    ensures TrailingDigits(q + [c]) == TrailingDigits(q) + [c]
  {
    var s := q + [c];
    assert s[..|s| - 1] == q && s[|s| - 1] == c;
  }

  /** A digit run preceded by a non-digit (or nothing) is the whole trailing digit run. */
  lemma {:induction false} TrailingDigitsOf(p: string, d: string)
    requires AllDigits(d)
    requires p == [] || !IsDigit(p[|p| - 1])
    ensures TrailingDigits(p + d) == d
    decreases |d|
  {
    if d == [] {
      assert p + d == p;
    } else {
      var d', c := d[..|d| - 1], d[|d| - 1];
      assert d == d' + [c];
      assert AllDigits(d') && IsDigit(c);
      TrailingDigitsOf(p, d');
      assert p + d == (p + d') + [c];
      TrailingDigitsSnoc(p + d', c);
    }
  }

  /**
   * The text before the position where `$` matches: Python's `$` (without
   * MULTILINE) matches at the end of the string and also just before a final
   * newline. A pattern ending in a digit or a letter can only match before
   * that newline when the name ends in one.
   */
  function MatchEnd(name: string): string
  {
    if |name| > 0 && name[|name| - 1] == '\n' then name[..|name| - 1] else name
  }

  /**
   * `VIDEO_DIR_RE.search(name)` with `int(m.group(1))`: the name must end
   * (before an optional final newline) in the literal `video` followed by a
   * digit run; matching is case-sensitive.
   */
  function VideoNumber(name: string): Option<nat>
  {
    var b := MatchEnd(name);
    var d := TrailingDigits(b);
    var rest := b[..|b| - |d|];
    if |d| > 0 && |rest| >= 5 && rest[|rest| - 5..] == "video" then Some(DecimalValue(d)) else None
  }

  /**
   * One character against a lower-case pattern character under IGNORECASE:
   * the character itself, its ASCII upper case, and for `s` also U+017F
   * (LATIN SMALL LETTER LONG S), which Python's matcher folds to `s`.
   */
  predicate CharMatchesIgnoreCase(c: char, lit: char)
  {
    c == lit
    || ('a' <= lit <= 'z' && c as int == lit as int - 32)
    || (lit == 's' && c == '\U{017F}')
  }

  predicate MatchesIgnoreCase(s: string, lit: string)
  {
    |s| == |lit| && forall i :: 0 <= i < |s| ==> CharMatchesIgnoreCase(s[i], lit[i])
  }

  /**
   * `CASE_FILE_RE.search(name)` with `int(m.group(1))`: the name must end
   * (before an optional final newline) in `case`, a digit run and `.html`,
   * the two literals matched ignoring case.
   */
  function CaseNumber(name: string): Option<nat>
  {
    var b := MatchEnd(name);
    if |b| < 5 || !MatchesIgnoreCase(b[|b| - 5..], ".html") then None
    else
      var stem := b[..|b| - 5];
      var d := TrailingDigits(stem);
      var rest := stem[..|stem| - |d|];
      if |d| > 0 && |rest| >= 4 && MatchesIgnoreCase(rest[|rest| - 4..], "case") then Some(DecimalValue(d))
      else None
  }

  /** `name` is `p + "video" + d`, possibly followed by one newline, with `d` a non-empty digit run. */
  ghost predicate VideoShaped(name: string, p: string, d: string)
  {
    |d| > 0 && AllDigits(d) && (name == p + "video" + d || name == p + "video" + d + "\n")
  }

  /** Where `$` matches for a name ending in a digit or a letter, with or without a final newline. */
  lemma MatchEndOf(s: string, name: string)
    requires |s| > 0 && s[|s| - 1] != '\n'
    requires name == s || name == s + "\n"
    ensures MatchEnd(name) == s
  {
    if name == s + "\n" {
      assert name[..|name| - 1] == s;
    }
  }

  lemma VideoNumberComplete(p: string, d: string, name: string)
    requires VideoShaped(name, p, d)
    ensures VideoNumber(name) == Some(DecimalValue(d))
  {
    var pv := p + "video";
    var s := pv + d;
    assert p + "video" + d == s;
    assert s[|s| - 1] == d[|d| - 1];
    MatchEndOf(s, name);
    assert pv[|pv| - 1] == 'o';
    TrailingDigitsOf(pv, d);
    assert s[..|s| - |d|] == pv;
    assert pv[|pv| - 5..] == "video";
  }

  lemma VideoNumberSound(name: string) returns (p: string, d: string)
    requires VideoNumber(name).Some?
    ensures VideoShaped(name, p, d) && VideoNumber(name) == Some(DecimalValue(d))
  {
    var b := MatchEnd(name);
    d := TrailingDigits(b);
    var rest := b[..|b| - |d|];
    p := rest[..|rest| - 5];
    assert rest == p + "video";
    assert b == rest + d;
  }

  /** A directory name yields video number `n` exactly when it ends in `video` and a digit run whose value is `n`. */
  lemma VideoNumberIff(name: string, n: nat)
    ensures VideoNumber(name) == Some(n) <==> exists p, d :: VideoShaped(name, p, d) && DecimalValue(d) == n
  {
    if VideoNumber(name) == Some(n) {
      var p, d := VideoNumberSound(name);
    }
    if exists p, d :: VideoShaped(name, p, d) && DecimalValue(d) == n {
      var p, d :| VideoShaped(name, p, d) && DecimalValue(d) == n;
      VideoNumberComplete(p, d, name);
    }
  }

  /**
   * `name` is `p + c + d + h`, possibly followed by one newline, where `c`
   * matches `case` and `h` matches `.html` ignoring case and `d` is a
   * non-empty digit run.
   */
  ghost predicate CaseShaped(name: string, p: string, c: string, d: string, h: string)
  {
    && MatchesIgnoreCase(c, "case") && MatchesIgnoreCase(h, ".html")
    && |d| > 0 && AllDigits(d)
    && (name == p + c + d + h || name == p + c + d + h + "\n")
  }

  lemma CaseNumberComplete(p: string, c: string, d: string, h: string, name: string)
    requires CaseShaped(name, p, c, d, h)
    ensures CaseNumber(name) == Some(DecimalValue(d))
  {
    var pc := p + c;
    var stem := pc + d;
    var s := stem + h;
    assert p + c + d + h == s;
    assert s[|s| - 1] == h[4];
    MatchEndOf(s, name);
    assert s[|s| - 5..] == h;
    assert s[..|s| - 5] == stem;
    assert pc[|pc| - 1] == c[3];
    TrailingDigitsOf(pc, d);
    assert stem[..|stem| - |d|] == pc;
    assert pc[|pc| - 4..] == c;
  }

  /** The name is the text before the anchor, possibly followed by the one newline `$` may skip. */
  lemma MatchEndShape(name: string)
    ensures name == MatchEnd(name) || name == MatchEnd(name) + "\n"
  {
    if |name| > 0 && name[|name| - 1] == '\n' {
      assert name == name[..|name| - 1] + "\n";
    }
  }

  lemma CaseNumberSound(name: string) returns (p: string, c: string, d: string, h: string)
    requires CaseNumber(name).Some?
    ensures CaseShaped(name, p, c, d, h) && CaseNumber(name) == Some(DecimalValue(d))
  {
    var b := MatchEnd(name);
    MatchEndShape(name);
    assert |b| >= 5 && MatchesIgnoreCase(b[|b| - 5..], ".html");
    var stem := b[..|b| - 5];
    h := b[|b| - 5..];
    assert b == stem + h;
    d := TrailingDigits(stem);
    var rest := stem[..|stem| - |d|];
    assert stem == rest + d;
    assert |d| > 0 && |rest| >= 4 && MatchesIgnoreCase(rest[|rest| - 4..], "case");
    p, c := rest[..|rest| - 4], rest[|rest| - 4..];
    assert rest == p + c;
    assert b == p + c + d + h;
  }

  /** A file name yields case number `n` exactly when it ends in `case<digits>.html` (literals ignoring case) with digit value `n`. */
  lemma CaseNumberIff(name: string, n: nat)
    ensures CaseNumber(name) == Some(n) <==> exists p, c, d, h :: CaseShaped(name, p, c, d, h) && DecimalValue(d) == n
  {
    if CaseNumber(name) == Some(n) {
      var p, c, d, h := CaseNumberSound(name);
    }
    if exists p, c, d, h :: CaseShaped(name, p, c, d, h) && DecimalValue(d) == n {
      var p, c, d, h :| CaseShaped(name, p, c, d, h) && DecimalValue(d) == n;
      CaseNumberComplete(p, c, d, h, name);
    }
  }

  /** `video7` names video 7. */
  lemma VideoNumberExample()
    ensures VideoNumber("video7") == Some(7)
  {
    assert "" + "video" + "7" == "video7";
    assert DecimalValue("7") == 7;
    VideoNumberComplete("", "7", "video7");
  }

  /** Leading zeros are ignored: `video007` names video 7 too. */
  lemma VideoNumberLeadingZeros()
    ensures VideoNumber("video007") == Some(7)
  {
    assert DecimalValue("7") == 7;
    LeadingZeroIgnored("7");
    assert "0" + "7" == "07";
    LeadingZeroIgnored("07");
    assert "0" + "07" == "007";
    assert "" + "video" + "007" == "video007";
    VideoNumberComplete("", "007", "video007");
  }

  /** The literal `video` is case-sensitive. */
  lemma VideoNumberRejectsCase()
    ensures VideoNumber("Video7") == None
  {
    assert "Video" + "7" == "Video7";
    TrailingDigitsOf("Video", "7");
    assert "Video7"[..5] == "Video";
    assert "Video"[0] != "video"[0];
  }

  /** The digit run must end the name. */
  lemma VideoNumberRejectsSuffix()
    ensures VideoNumber("video7x") == None
  {
    assert "video7x" + "" == "video7x";
    TrailingDigitsOf("video7x", "");
  }

  /** `case01.html` names case 1: leading zeros are ignored. */
  lemma CaseNumberPadded()
    ensures CaseNumber("case01.html") == Some(1)
  {
    assert "" + "case" + "01" + ".html" == "case01.html";
    assert AllDigits("01") && DecimalValue("01") == 1;
    assert CaseShaped("case01.html", "", "case", "01", ".html");
    CaseNumberComplete("", "case", "01", ".html", "case01.html");
  }

  /**
   * `CASE1.HTML` names case 1: the pattern's literals are matched ignoring
   * case. The case-sensitive POSIX glob `case*.html` never visits such a file
   * (`Scan.UpperCaseNotGlobbed`), so the scan does not see it.
   */
  lemma CaseNumberUpper()
    ensures CaseNumber("CASE1.HTML") == Some(1)
  {
    assert "" + "CASE" + "1" + ".HTML" == "CASE1.HTML";
    assert MatchesIgnoreCase("CASE", "case") && MatchesIgnoreCase(".HTML", ".html");
    assert AllDigits("1") && DecimalValue("1") == 1;
    CaseNumberComplete("", "CASE", "1", ".HTML", "CASE1.HTML");
  }

  /** A digit run is required between `case` and `.html`. */
  lemma CaseNumberRejectsNoDigits()
    ensures CaseNumber("case.html") == None
  {
    assert "case.html"[..4] == "case";
    assert "case" + "" == "case";
    TrailingDigitsOf("case", "");
  }

  /** The name must end in `.html`. */
  lemma CaseNumberRejectsExtension()
    ensures CaseNumber("case1.htm") == None
  {
    assert "case1.htm"[4..] == "1.htm";
    assert !CharMatchesIgnoreCase('1', '.');
  }
}
