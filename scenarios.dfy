/**
 * Concrete directory trees and what the model says the indexer makes of them.
 * The base directories are `<root>/result/result_en/html` and
 * `<root>/result/result_ja/html`, so record paths are relative to `<root>/result`.
 */
module Scenarios {
  import opened Wrappers
  import opened Names
  import opened Sorting
  import opened Scan
  import opened Index

  const EnParts: seq<string> := ["repo", "result", "result_en", "html"]

  lemma NameOrderExamples()
    ensures NameLe("case01.html", "case2.html") && !NameLe("case2.html", "case01.html")
    ensures NameLe("case01.html", "case1.html") && !NameLe("case1.html", "case01.html")
    ensures NameLe("video01", "video1") && !NameLe("video1", "video01")
  {
  }

  lemma CaseTwoParses()
    ensures CaseNumber("case2.html") == Some(2)
  {
    assert "" + "case" + "2" + ".html" == "case2.html";
    assert AllDigits("2") && DecimalValue("2") == 2;
    assert CaseShaped("case2.html", "", "case", "2", ".html");
    CaseNumberComplete("", "case", "2", ".html", "case2.html");
  }

  lemma CaseOneLiteral()
    ensures CaseNumber("case1.html") == Some(1)
  {
    assert "" + "case" + "1" + ".html" == "case1.html";
    assert AllDigits("1") && DecimalValue("1") == 1;
    assert CaseShaped("case1.html", "", "case", "1", ".html");
    CaseNumberComplete("", "case", "1", ".html", "case1.html");
  }

  lemma VideoTwoParses()
    ensures VideoNumber("video2") == Some(2)
  {
    assert "" + "video" + "2" == "video2";
    assert AllDigits("2") && DecimalValue("2") == 2;
    VideoNumberComplete("", "2", "video2");
  }

  lemma ScenarioPath(f: string)
    ensures RelPath(EnParts, "video2", f) == "result_en/html/video2/" + f
  {
    var t := ["result_en", "html", "video2", f];
    assert |Grandparent(EnParts)| == 2;
    assert EnParts[2..] + ["video2", f] == t;
    assert t[..3][..2][..1] == ["result_en"];
    assert Join(t[..3][..2]) == "result_en/html";
    assert t[..3] == ["result_en", "html", "video2"];
    assert Join(t[..3]) == "result_en/html/video2";
  }

  // ---------------------------------------------------------------------------
  // Small listings

  lemma FilterTwo<T(!new)>(a: T, b: T, p: T -> bool)
    requires p(a) && p(b)
    ensures Filter([a, b], p) == [a, b]
  {
    FilterCons(a, [b], p);
    FilterCons(b, [], p);
  }

  lemma FilterOne<T(!new)>(a: T, p: T -> bool)
    requires p(a)
    ensures Filter([a], p) == [a]
  {
    FilterCons(a, [], p);
  }

  lemma SortTwo<T>(a: T, b: T, le: (T, T) -> bool)
    ensures SortBy([a, b], le) == if le(a, b) then [a, b] else [b, a]
  {
    assert [a, b][1..] == [b];
    assert SortBy([b], le) == [b];
  }

  lemma FilterMapTwo<A, B>(a: A, b: A, f: A -> Option<B>, x: B, y: B)
    requires f(a) == Some(x) && f(b) == Some(y)
    ensures FilterMap([a, b], f) == [x, y]
  {
    var s := [a, b];
    assert s[..1] == [a] && s[..1][..0] == [];
    assert FilterMap([a], f) == [x];
    assert FilterMap(s, f) == FilterMap(s[..1], f) + [y];
  }

  lemma RecordOfMatch(parts: seq<string>, d: string, c: Child, n: nat, rel: string)
    requires c.isFile && CaseNumber(c.name) == Some(n) && RelPath(parts, d, c.name) == rel
    ensures RecordOf(parts, d, c) == Some(CaseRecord(n, c.name, rel))
  {
  }

  lemma ContributionMatch(parts: seq<string>, e: Entry, n: nat, cases: seq<CaseRecord>)
    requires e.isDir && VideoNumber(e.name) == Some(n)
    requires UnsortedCases(parts, e) == cases && cases != []
    ensures Contribution(parts, e) == Some(VideoGroup(n, SortBy(cases, CaseLe)))
  {
  }

  lemma FoldOne(e: Entry, contrib: Entry -> Option<VideoGroup>, g: VideoGroup)
    requires contrib(e) == Some(g)
    ensures Fold([e], contrib) == map[g.num := g.cases]
  {
    assert [e][..0] == [];
  }

  /** A map with one key visits just that key. */
  lemma SortedKeysOne(k: nat, cases: seq<CaseRecord>)
    ensures SortedKeys(map[k := cases]) == [k]
  {
    var m := map[k := cases];
    var ks := SortedKeys(m);
    assert m.Keys == {k};
    assert |ks| == 1 && ks[0] in ks;
    assert ks == [ks[0]];
  }

  /** A listing of a single video holds that video's entry. */
  lemma RenderOne(k: nat, cases: seq<CaseRecord>)
    ensures Render(map[k := cases]) == [VideoEntry(NatToString(k), cases)]
  {
    var m := map[k := cases];
    SortedKeysOne(k, cases);
    var r := RenderKeys([k], m);
    assert |r| == 1 && r[0] == VideoEntry(NatToString(k), cases);
  }

  /** The count of a single video is the length of its list. */
  lemma CountsOne(k: nat, cases: seq<CaseRecord>)
    ensures Counts(map[k := cases]) == |cases|
  {
    var m := map[k := cases];
    SortedKeysOne(k, cases);
    assert [k][1..] == [];
    assert SumOver([k], m) == |cases| + SumOver([], m);
  }

  // ---------------------------------------------------------------------------
  // `video2` holding `case2.html` and `case01.html`; no Japanese base directory

  const Case01: Child := Child("case01.html", true)
  const Case2: Child := Child("case2.html", true)
  const Video2: Entry := Entry("video2", true, [Case2, Case01])
  const Rec1: CaseRecord := CaseRecord(1, "case01.html", "result_en/html/video2/case01.html")
  const Rec2: CaseRecord := CaseRecord(2, "case2.html", "result_en/html/video2/case2.html")

  lemma Video2Files()
    ensures SortedCaseFiles(Video2.children) == [Case01, Case2]
  {
    assert InCaseGlob(Case01) && InCaseGlob(Case2);
    FilterTwo(Case2, Case01, InCaseGlob);
    NameOrderExamples();
    SortTwo(Case2, Case01, ChildLe);
  }

  lemma Case01Parses()
    ensures CaseNumber(Case01.name) == Some(1)
  {
    CaseNumberPadded();
  }

  lemma Case2Parses()
    ensures CaseNumber(Case2.name) == Some(2)
  {
    CaseTwoParses();
  }

  lemma Path01()
    ensures RelPath(EnParts, Video2.name, Case01.name) == Rec1.relpath
  {
    ScenarioPath("case01.html");
  }

  lemma Path2()
    ensures RelPath(EnParts, Video2.name, Case2.name) == Rec2.relpath
  {
    ScenarioPath("case2.html");
  }

  lemma Record01()
    ensures RecordOf(EnParts, Video2.name, Case01) == Some(Rec1)
  {
    Case01Parses();
    Path01();
    RecordOfMatch(EnParts, Video2.name, Case01, 1, Rec1.relpath);
  }

  lemma Record2()
    ensures RecordOf(EnParts, Video2.name, Case2) == Some(Rec2)
  {
    Case2Parses();
    Path2();
    RecordOfMatch(EnParts, Video2.name, Case2, 2, Rec2.relpath);
  }

  lemma Video2Records()
    ensures UnsortedCases(EnParts, Video2) == [Rec1, Rec2]
  {
    Video2Files();
    Record01();
    Record2();
    FilterMapTwo(Case01, Case2, RecordsOf(EnParts, Video2.name), Rec1, Rec2);
  }

  lemma Video2Contribution()
    ensures Contribution(EnParts, Video2) == Some(VideoGroup(2, [Rec1, Rec2]))
  {
    Video2Records();
    VideoTwoParses();
    ContributionMatch(EnParts, Video2, 2, [Rec1, Rec2]);
    SortTwo(Rec1, Rec2, CaseLe);
  }

  lemma Video2Map()
    ensures ScanSpec(Some([Video2]), EnParts) == map[2 := [Rec1, Rec2]]
  {
    assert InVideoGlob(Video2);
    FilterOne(Video2, InVideoGlob);
    assert SortBy([Video2], EntryLe) == [Video2];
    Video2Contribution();
    FoldOne(Video2, ContributionOf(EnParts), VideoGroup(2, [Rec1, Rec2]));
  }

  lemma EmptyListing()
    ensures Render(map[]) == [] && Counts(map[]) == 0
  {
    CountsMatchListing(map[]);
  }

  lemma TwoAsString()
    ensures NatToString(2) == "2"
  {
  }

  /**
   * The English tree holds `video2/case2.html` and `video2/case01.html` and
   * the Japanese base directory does not exist: two English records in
   * case order, none in Japanese.
   */
  lemma EnglishOnlyPayload(generatedAt: string)
    ensures Assemble(generatedAt, "result/result_en/html", "result/result_ja/html",
                     ScanSpec(Some([Video2]), EnParts), ScanSpec(None, ["repo", "result", "result_ja", "html"]))
      == Payload(generatedAt, "result/result_en/html", "result/result_ja/html", 2, 0,
                 [VideoEntry("2", [Rec1, Rec2])], [])
  {
    Video2Map();
    RenderOne(2, [Rec1, Rec2]);
    CountsOne(2, [Rec1, Rec2]);
    TwoAsString();
    EmptyListing();
  }

  // ---------------------------------------------------------------------------
  // `video9` and `video10`: keys in numeric, not lexicographic, order

  lemma TenAsString()
    ensures NatToString(9) == "9" && NatToString(10) == "10"
  {
    assert NatToString(1) == "1";
  }

  lemma TwoKeys(a: nat, b: nat, va: seq<CaseRecord>, vb: seq<CaseRecord>)
    requires a != b
    ensures map[a := va, b := vb].Keys == {a, b} && |map[a := va, b := vb]| == 2
  {
    assert map[a := va, b := vb].Keys == {a, b};
  }

  /** An increasing sequence holding exactly `a < b` is `[a, b]`. */
  lemma IncreasingTwo(ks: seq<nat>, a: nat, b: nat)
    requires a < b && |ks| == 2 && Increasing(ks)
    requires forall k :: k in ks <==> k == a || k == b
    ensures ks == [a, b]
  {
    assert ks[0] in ks && ks[1] in ks;
    assert ks == [ks[0], ks[1]];
  }

  /** A map with two keys `a < b` visits `a` first. */
  lemma SortedKeysTwo(a: nat, b: nat, va: seq<CaseRecord>, vb: seq<CaseRecord>)
    requires a < b
    ensures SortedKeys(map[a := va, b := vb]) == [a, b]
  {
    var m := map[a := va, b := vb];
    TwoKeys(a, b, va, vb);
    IncreasingTwo(SortedKeys(m), a, b);
  }

  /** The entries for two keys, in that order. */
  lemma RenderKeysTwo(a: nat, b: nat, m: VideoMap)
    requires a in m && b in m
    ensures RenderKeys([a, b], m) == [VideoEntry(NatToString(a), m[a]), VideoEntry(NatToString(b), m[b])]
  {
    var r := RenderKeys([a, b], m);
    assert |r| == 2 && r[0] == VideoEntry(NatToString(a), m[a]) && r[1] == VideoEntry(NatToString(b), m[b]);
  }

  /** The listing of a map with two keys `a < b`. */
  lemma RenderTwo(a: nat, b: nat, va: seq<CaseRecord>, vb: seq<CaseRecord>)
    requires a < b
    ensures Render(map[a := va, b := vb]) == [VideoEntry(NatToString(a), va), VideoEntry(NatToString(b), vb)]
  {
    var m := map[a := va, b := vb];
    SortedKeysTwo(a, b, va, vb);
    RenderKeysTwo(a, b, m);
  }

  lemma NineBeforeTen(nine: seq<CaseRecord>, ten: seq<CaseRecord>)
    ensures Render(map[10 := ten, 9 := nine]) == [VideoEntry("9", nine), VideoEntry("10", ten)]
    ensures NameLe("10", "9")
  {
    assert map[10 := ten, 9 := nine] == map[9 := nine, 10 := ten];
    RenderTwo(9, 10, nine, ten);
    TenAsString();
  }

  // ---------------------------------------------------------------------------
  // `video01` and `video1` both parse to video 1: the later one in name order wins

  const CaseOne: Child := Child("case1.html", true)
  const Video01: Entry := Entry("video01", true, [CaseOne])
  const Video1: Entry := Entry("video1", true, [Case2])

  lemma Video01Parses()
    ensures VideoNumber("video01") == Some(1)
  {
    assert DecimalValue("1") == 1;
    LeadingZeroIgnored("1");
    assert "0" + "1" == "01";
    assert "" + "video" + "01" == "video01";
    VideoNumberComplete("", "01", "video01");
  }

  lemma Video1Parses()
    ensures VideoNumber("video1") == Some(1)
  {
    assert "" + "video" + "1" == "video1";
    assert DecimalValue("1") == 1;
    VideoNumberComplete("", "1", "video1");
  }

  lemma CaseOneParses()
    ensures CaseNumber(CaseOne.name) == Some(1)
  {
    CaseOneLiteral();
  }

  lemma FilterMapOne<A, B>(a: A, f: A -> Option<B>, x: B)
    requires f(a) == Some(x)
    ensures FilterMap([a], f) == [x]
  {
    assert [a][..0] == [];
  }

  lemma SingleFileContribution(parts: seq<string>, e: Entry, c: Child, v: nat, n: nat)
    requires e.isDir && VideoNumber(e.name) == Some(v)
    requires e.children == [c] && InCaseGlob(c) && c.isFile && CaseNumber(c.name) == Some(n)
    ensures Contribution(parts, e) == Some(VideoGroup(v, [CaseRecord(n, c.name, RelPath(parts, e.name, c.name))]))
  {
    var r := CaseRecord(n, c.name, RelPath(parts, e.name, c.name));
    FilterOne(c, InCaseGlob);
    assert SortBy([c], ChildLe) == [c];
    FilterMapOne(c, RecordsOf(parts, e.name), r);
    ContributionMatch(parts, e, v, [r]);
    assert SortBy([r], CaseLe) == [r];
  }

  lemma Video01Named()
    ensures Video01.isDir && VideoNumber(Video01.name) == Some(1)
  {
    Video01Parses();
  }

  lemma Video1Named()
    ensures Video1.isDir && VideoNumber(Video1.name) == Some(1)
  {
    Video1Parses();
  }

  lemma CaseOneFile()
    ensures CaseOne.isFile && InCaseGlob(CaseOne) && CaseNumber(CaseOne.name) == Some(1)
  {
    CaseOneParses();
  }

  lemma Case2File()
    ensures Case2.isFile && InCaseGlob(Case2) && CaseNumber(Case2.name) == Some(2)
  {
    Case2Parses();
  }

  lemma Video01Contribution(parts: seq<string>)
    ensures Contribution(parts, Video01) == Some(VideoGroup(1, [CaseRecord(1, CaseOne.name, RelPath(parts, Video01.name, CaseOne.name))]))
  {
    Video01Named();
    CaseOneFile();
    SingleFileContribution(parts, Video01, CaseOne, 1, 1);
  }

  lemma Video1Contribution(parts: seq<string>)
    ensures Contribution(parts, Video1) == Some(VideoGroup(1, [CaseRecord(2, Case2.name, RelPath(parts, Video1.name, Case2.name))]))
  {
    Video1Named();
    Case2File();
    SingleFileContribution(parts, Video1, Case2, 1, 2);
  }

  lemma VideoOnesSorted()
    ensures SortedVideoDirs([Video1, Video01]) == [Video01, Video1]
  {
    assert InVideoGlob(Video1) && InVideoGlob(Video01);
    FilterTwo(Video1, Video01, InVideoGlob);
    NameOrderExamples();
    SortTwo(Video1, Video01, EntryLe);
  }

  lemma FoldTwo(e1: Entry, e2: Entry, contrib: Entry -> Option<VideoGroup>, g1: VideoGroup, g2: VideoGroup)
    requires contrib(e1) == Some(g1) && contrib(e2) == Some(g2)
    ensures Fold([e1, e2], contrib) == map[g1.num := g1.cases][g2.num := g2.cases]
  {
    assert [e1, e2][..1] == [e1];
    FoldOne(e1, contrib, g1);
  }

  lemma Overwrite(k: nat, x: seq<CaseRecord>, y: seq<CaseRecord>)
    ensures map[k := x][k := y] == map[k := y]
  {
  }

  lemma LaterDirectoryWins(parts: seq<string>)
    ensures ScanSpec(Some([Video1, Video01]), parts)
      == map[1 := [CaseRecord(2, Case2.name, RelPath(parts, Video1.name, Case2.name))]]
  {
    var a := CaseRecord(1, CaseOne.name, RelPath(parts, Video01.name, CaseOne.name));
    var b := CaseRecord(2, Case2.name, RelPath(parts, Video1.name, Case2.name));
    Video01Contribution(parts);
    Video1Contribution(parts);
    VideoOnesSorted();
    FoldTwo(Video01, Video1, ContributionOf(parts), VideoGroup(1, [a]), VideoGroup(1, [b]));
    Overwrite(1, [a], [b]);
  }

  // ---------------------------------------------------------------------------
  // `case1.html` and `case01.html` in one directory: both kept, in name order

  const CaseZeroOne: Entry := Entry("video3", true, [CaseOne, Case01])

  lemma ThreeParses()
    ensures VideoNumber(CaseZeroOne.name) == Some(3)
  {
    assert "" + "video" + "3" == CaseZeroOne.name;
    assert AllDigits("3") && DecimalValue("3") == 3;
    VideoNumberComplete("", "3", CaseZeroOne.name);
  }

  lemma DuplicateFilesSorted()
    ensures SortedCaseFiles(CaseZeroOne.children) == [Case01, CaseOne]
  {
    assert InCaseGlob(CaseOne) && InCaseGlob(Case01);
    FilterTwo(CaseOne, Case01, InCaseGlob);
    NameOrderExamples();
    SortTwo(CaseOne, Case01, ChildLe);
  }

  lemma DuplicateRecords(parts: seq<string>)
    ensures UnsortedCases(parts, CaseZeroOne) == [
      CaseRecord(1, Case01.name, RelPath(parts, CaseZeroOne.name, Case01.name)),
      CaseRecord(1, CaseOne.name, RelPath(parts, CaseZeroOne.name, CaseOne.name))]
  {
    var a := CaseRecord(1, Case01.name, RelPath(parts, CaseZeroOne.name, Case01.name));
    var b := CaseRecord(1, CaseOne.name, RelPath(parts, CaseZeroOne.name, CaseOne.name));
    Case01Parses();
    CaseOneParses();
    DuplicateFilesSorted();
    var f := RecordsOf(parts, CaseZeroOne.name);
    assert f(Case01) == Some(a) && f(CaseOne) == Some(b);
    FilterMapTwo(Case01, CaseOne, f, a, b);
  }

  /** Records with equal case numbers are both kept, in sorted-filename order. */
  lemma DuplicateCaseNumbersKept(parts: seq<string>)
    ensures Contribution(parts, CaseZeroOne) == Some(VideoGroup(3, [
      CaseRecord(1, "case01.html", RelPath(parts, "video3", "case01.html")),
      CaseRecord(1, "case1.html", RelPath(parts, "video3", "case1.html"))]))
  {
    var a := CaseRecord(1, Case01.name, RelPath(parts, CaseZeroOne.name, Case01.name));
    var b := CaseRecord(1, CaseOne.name, RelPath(parts, CaseZeroOne.name, CaseOne.name));
    ThreeParses();
    DuplicateRecords(parts);
    ContributionMatch(parts, CaseZeroOne, 3, [a, b]);
    SortTwo(a, b, CaseLe);
  }
}
