/**
 * The directory scanner `scan_language`: for one language's base directory
 * it lists the `video*` subdirectories in name order, collects the matching
 * `case*.html` files of each in name order, sorts each video's records by
 * case number, and keeps a video only when it has at least one record.
 *
 * The file system is an input value: a base directory is `None` when it does
 * not exist (or is not a directory, for which `glob` yields nothing), or the
 * listing of its entries in arbitrary order; each entry says whether
 * `is_dir()` holds and lists its own children, each saying whether
 * `is_file()` holds. The resolved absolute path of the base directory is
 * given as its sequence of components.
 */
module Scan {
  import opened Wrappers
  import opened Names
  import opened Sorting

  /** An entry of a video directory: its name and whether `is_file()` holds for it. */
  datatype Child = Child(name: string, isFile: bool)

  /** An entry of the base directory: its name, whether `is_dir()` holds, and its listing. */
  datatype Entry = Entry(name: string, isDir: bool, children: seq<Child>)

  /** One discovered result page: `{"case": ..., "filename": ..., "relpath": ...}`. */
  datatype CaseRecord = CaseRecord(caseNum: nat, filename: string, relpath: string)

  /** What one video directory contributes: its number and its sorted, non-empty records. */
  datatype VideoGroup = VideoGroup(num: nat, cases: seq<CaseRecord>)

  type VideoMap = map<nat, seq<CaseRecord>>

  // ---------------------------------------------------------------------------
  // Orders and glob filters

  /** Paths of one directory compare as their names do. */
  predicate EntryLe(a: Entry, b: Entry) { NameLe(a.name, b.name) }

  predicate ChildLe(a: Child, b: Child) { NameLe(a.name, b.name) }

  /** The sort key of `cases.sort(key=lambda x: x["case"])`. */
  predicate CaseLe(a: CaseRecord, b: CaseRecord) { a.caseNum <= b.caseNum }

  lemma EntryLeTotalPreorder()
    ensures TotalPreorder(EntryLe)
  {
    forall a: Entry, b: Entry ensures EntryLe(a, b) || EntryLe(b, a) {
      NameLeTotal(a.name, b.name);
    }
    forall a: Entry, b: Entry, c: Entry | EntryLe(a, b) && EntryLe(b, c) ensures EntryLe(a, c) {
      NameLeTransitive(a.name, b.name, c.name);
    }
  }

  lemma ChildLeTotalPreorder()
    ensures TotalPreorder(ChildLe)
  {
    forall a: Child, b: Child ensures ChildLe(a, b) || ChildLe(b, a) {
      NameLeTotal(a.name, b.name);
    }
    forall a: Child, b: Child, c: Child | ChildLe(a, b) && ChildLe(b, c) ensures ChildLe(a, c) {
      NameLeTransitive(a.name, b.name, c.name);
    }
  }

  predicate StartsWith(s: string, prefix: string)
  {
    |prefix| <= |s| && s[..|prefix|] == prefix
  }

  predicate EndsWith(s: string, suffix: string)
  {
    |suffix| <= |s| && s[|s| - |suffix|..] == suffix
  }

  /** `glob("video*")` on a case-sensitive (POSIX) file system. */
  predicate InVideoGlob(e: Entry)
  {
    StartsWith(e.name, "video")
  }

  /** `glob("case*.html")` on a case-sensitive (POSIX) file system; the `*` may be empty. */
  predicate InCaseGlob(c: Child)
  {
    |c.name| >= 9 && StartsWith(c.name, "case") && EndsWith(c.name, ".html")
  }

  /** The POSIX glob `case*.html` is case-sensitive: `CASE1.HTML` is not visited. */
  lemma UpperCaseNotGlobbed(isFile: bool)
    ensures !InCaseGlob(Child("CASE1.HTML", isFile))
  {
    assert "CASE1.HTML"[..4] != "case" by { assert "CASE1.HTML"[0] == 'C'; }
  }

  /** `sorted(base_dir.glob("video*"))` */
  function SortedVideoDirs(es: seq<Entry>): seq<Entry>
  {
    SortBy(Filter(es, InVideoGlob), EntryLe)
  }

  /** `sorted(video_dir.glob("case*.html"))` */
  function SortedCaseFiles(cs: seq<Child>): seq<Child>
  {
    SortBy(Filter(cs, InCaseGlob), ChildLe)
  }

  // ---------------------------------------------------------------------------
  // Paths

  /** Path components joined with `/`, as `as_posix()` writes them. */
  function Join(ps: seq<string>): string
  {
    if |ps| == 0 then "" else if |ps| == 1 then ps[0] else Join(ps[..|ps| - 1]) + "/" + ps[|ps| - 1]
  }

  /** The absolute path with the given components. */
  function AbsPath(ps: seq<string>): string
  {
    "/" + Join(ps)
  }

  /** `base_dir.parent.parent`; the parent of the root is the root. */
  function Grandparent(ps: seq<string>): seq<string>
  {
    ps[..if |ps| >= 2 then |ps| - 2 else 0]
  }

  /** `html.relative_to(base_dir.parent.parent).as_posix()` for `base_dir / dirName / fileName`. */
  function RelPath(parts: seq<string>, dirName: string, fileName: string): string
  {
    Join(parts[|Grandparent(parts)|..] + [dirName, fileName])
  }

  lemma {:induction false} JoinAppend(a: seq<string>, b: seq<string>)
    requires |a| > 0 && |b| > 0
    ensures Join(a + b) == Join(a) + "/" + Join(b)
  {
    var s := a + b;
    if |b| == 1 {
      assert s[..|s| - 1] == a;
    } else {
      var b' := b[..|b| - 1];
      assert s[..|s| - 1] == a + b';
      JoinAppend(a, b');
    }
  }

  /** The record's `relpath`, put under the grandparent of the base directory, is the file's own path. */
  lemma RelPathUnderGrandparent(parts: seq<string>, dirName: string, fileName: string)
    ensures var gp := Grandparent(parts);
      (if gp == [] then "/" else AbsPath(gp) + "/") + RelPath(parts, dirName, fileName)
      == AbsPath(parts + [dirName, fileName])
  {
    var gp := Grandparent(parts);
    var tail := parts[|gp|..] + [dirName, fileName];
    assert parts + [dirName, fileName] == gp + tail;
    if gp != [] {
      JoinAppend(gp, tail);
    }
  }

  // ---------------------------------------------------------------------------
  // One video directory

  /** The record the inner loop appends for `html`, if `is_file()` holds and the case pattern matches. */
  function RecordOf(parts: seq<string>, dirName: string, c: Child): Option<CaseRecord>
  {
    if !c.isFile then None
    else match CaseNumber(c.name)
      case None => None
      case Some(n) => Some(CaseRecord(n, c.name, RelPath(parts, dirName, c.name)))
  }

  function RecordsOf(parts: seq<string>, dirName: string): Child -> Option<CaseRecord>
  {
    c => RecordOf(parts, dirName, c)
  }

  /** The list `cases` after the inner loop has visited `cs`, in that order. */
  function Collected(parts: seq<string>, dirName: string, cs: seq<Child>): seq<CaseRecord>
  {
    FilterMap(cs, RecordsOf(parts, dirName))
  }

  /** `cases` after the inner loop, before sorting: the records of the sorted `case*.html` files. */
  function UnsortedCases(parts: seq<string>, e: Entry): seq<CaseRecord>
  {
    Collected(parts, e.name, SortedCaseFiles(e.children))
  }

  /** What the body of the outer loop stores for directory `e`, if anything. */
  function Contribution(parts: seq<string>, e: Entry): Option<VideoGroup>
  {
    if !e.isDir then None
    else match VideoNumber(e.name)
      case None => None
      case Some(vnum) =>
        var cases := UnsortedCases(parts, e);
        if cases != [] then Some(VideoGroup(vnum, SortBy(cases, CaseLe))) else None
  }

  predicate Contributes(parts: seq<string>, e: Entry, v: nat)
  {
    Contribution(parts, e).Some? && Contribution(parts, e).value.num == v
  }

  /**
   * The records of one directory are exactly its matching files: each named
   * by its original file name, carrying the parsed case number and its path
   * relative to the base directory's grandparent.
   */
  lemma UnsortedCasesRecords(parts: seq<string>, e: Entry, r: CaseRecord)
    ensures r in UnsortedCases(parts, e) <==>
      exists c :: c in e.children && InCaseGlob(c) && c.isFile && CaseNumber(c.name) == Some(r.caseNum)
        && r == CaseRecord(r.caseNum, c.name, RelPath(parts, e.name, c.name))
  {
    var files := SortedCaseFiles(e.children);
    var f := RecordsOf(parts, e.name);
    FilterMapMembers(files, f, r);
    if r in UnsortedCases(parts, e) {
      var c :| c in files && f(c) == Some(r);
      assert c in multiset(files);
      assert c in Filter(e.children, InCaseGlob);
    }
    if exists c :: c in e.children && InCaseGlob(c) && c.isFile && CaseNumber(c.name) == Some(r.caseNum)
        && r == CaseRecord(r.caseNum, c.name, RelPath(parts, e.name, c.name)) {
      var c :| c in e.children && InCaseGlob(c) && c.isFile && CaseNumber(c.name) == Some(r.caseNum)
        && r == CaseRecord(r.caseNum, c.name, RelPath(parts, e.name, c.name));
      assert c in multiset(Filter(e.children, InCaseGlob));
      assert c in files && f(c) == Some(r);
    }
  }

  /** The inner loop collects something exactly when some `case*.html` entry yields a record. */
  lemma UnsortedCasesNonEmpty(parts: seq<string>, e: Entry)
    ensures UnsortedCases(parts, e) != [] <==>
      exists c :: c in e.children && InCaseGlob(c) && RecordOf(parts, e.name, c).Some?
  {
    var files := SortedCaseFiles(e.children);
    var f := RecordsOf(parts, e.name);
    FilterMapNonEmpty(files, f);
    if exists c :: c in files && f(c).Some? {
      var c :| c in files && f(c).Some?;
      assert c in multiset(files);
      assert c in Filter(e.children, InCaseGlob);
    }
    if exists c :: c in e.children && InCaseGlob(c) && RecordOf(parts, e.name, c).Some? {
      var c :| c in e.children && InCaseGlob(c) && RecordOf(parts, e.name, c).Some?;
      assert c in multiset(Filter(e.children, InCaseGlob));
      assert c in files && f(c).Some?;
    }
  }

  /** A directory contributes exactly when it is a directory, its name gives a video number and one of its files matches. */
  lemma ContributionIff(parts: seq<string>, e: Entry)
    ensures Contribution(parts, e).Some? <==>
      e.isDir && VideoNumber(e.name).Some? && exists c :: c in e.children && InCaseGlob(c) && RecordOf(parts, e.name, c).Some?
  {
    UnsortedCasesNonEmpty(parts, e);
  }

  /** A stored list is non-empty, sorted by case number, and is a permutation of the directory's matching files. */
  lemma ContributionSorted(parts: seq<string>, e: Entry)
    requires Contribution(parts, e).Some?
    ensures var g := Contribution(parts, e).value;
      && g.num == VideoNumber(e.name).value
      && g.cases != []
      && Sorted(g.cases, CaseLe)
      && multiset(g.cases) == multiset(Collected(parts, e.name, Filter(e.children, InCaseGlob)))
  {
    SortBySorted(UnsortedCases(parts, e), CaseLe);
    FilterMapSortBy(Filter(e.children, InCaseGlob), ChildLe, RecordsOf(parts, e.name));
  }

  /** The records with case number `k`. */
  function WithCase(s: seq<CaseRecord>, k: nat): seq<CaseRecord>
  {
    Filter(s, (r: CaseRecord) => r.caseNum == k)
  }

  /** The sort is stable: records with equal case numbers stay in sorted-filename order. */
  lemma ContributionStable(parts: seq<string>, e: Entry, k: nat)
    requires Contribution(parts, e).Some?
    ensures WithCase(Contribution(parts, e).value.cases, k) == WithCase(UnsortedCases(parts, e), k)
  {
    SortByStable(UnsortedCases(parts, e), CaseLe, (r: CaseRecord) => r.caseNum == k);
  }

  /** A file that is not a regular file, or whose name does not match, changes nothing. */
  lemma SkipsChild(parts: seq<string>, e: Entry, c: Child)
    requires !InCaseGlob(c) || RecordOf(parts, e.name, c).None?
    ensures Contribution(parts, Entry(e.name, e.isDir, [c] + e.children)) == Contribution(parts, e)
  {
    var f := RecordsOf(parts, e.name);
    assert f(c) == RecordOf(parts, e.name, c);
    FilterMapSortedSkip(c, e.children, InCaseGlob, ChildLe, f);
    assert UnsortedCases(parts, Entry(e.name, e.isDir, [c] + e.children)) == UnsortedCases(parts, e);
  }

  /** One step of the inner loop: the record of the next file, if any, is appended. */
  lemma CollectedStep(parts: seq<string>, dirName: string, cs: seq<Child>, j: nat)
    requires j < |cs|
    ensures Collected(parts, dirName, cs[..j + 1]) ==
      Collected(parts, dirName, cs[..j]) + (match RecordOf(parts, dirName, cs[j]) case None => [] case Some(r) => [r])
  {
    assert cs[..j + 1][..j] == cs[..j];
  }

  // ---------------------------------------------------------------------------
  // The whole base directory

  function ContributionOf(parts: seq<string>): Entry -> Option<VideoGroup>
  {
    e => Contribution(parts, e)
  }

  /** The dict `out` after the outer loop has visited `es`, in that order, each entry storing `contrib` of it. */
  function Fold(es: seq<Entry>, contrib: Entry -> Option<VideoGroup>): VideoMap
  {
    if es == [] then map[]
    else
      var m := Fold(es[..|es| - 1], contrib);
      match contrib(es[|es| - 1])
      case None => m
      case Some(g) => m[g.num := g.cases]
  }

  /** `scan_language(base_dir)` */
  function ScanSpec(base: Option<seq<Entry>>, parts: seq<string>): VideoMap
  {
    match base
    case None => map[]
    case Some(es) => Fold(SortedVideoDirs(es), ContributionOf(parts))
  }

  /** A video number is a key exactly when some visited directory contributes it. */
  lemma {:induction false} FoldKeys(es: seq<Entry>, contrib: Entry -> Option<VideoGroup>, v: nat)
    ensures v in Fold(es, contrib) <==>
      exists i :: 0 <= i < |es| && contrib(es[i]).Some? && contrib(es[i]).value.num == v
  {
    if es != [] {
      var init := es[..|es| - 1];
      FoldKeys(init, contrib, v);
      if exists i :: 0 <= i < |es| && contrib(es[i]).Some? && contrib(es[i]).value.num == v {
        var i :| 0 <= i < |es| && contrib(es[i]).Some? && contrib(es[i]).value.num == v;
        if i < |init| {
          assert es[i] == init[i];
        }
      }
      if exists i :: 0 <= i < |init| && contrib(init[i]).Some? && contrib(init[i]).value.num == v {
        var i :| 0 <= i < |init| && contrib(init[i]).Some? && contrib(init[i]).value.num == v;
        assert es[i] == init[i];
      }
    }
  }

  /**
   * Overwrite on duplicates: the list stored under a video number is the one
   * of the last directory (in visiting order) that contributes that number;
   * earlier lists are replaced, not merged.
   */
  lemma {:induction false} FoldLastWins(es: seq<Entry>, contrib: Entry -> Option<VideoGroup>, i: nat)
    requires i < |es| && contrib(es[i]).Some?
    requires forall j :: i < j < |es| && contrib(es[j]).Some? ==> contrib(es[j]).value.num != contrib(es[i]).value.num
    ensures var g := contrib(es[i]).value;
      g.num in Fold(es, contrib) && Fold(es, contrib)[g.num] == g.cases
  {
    var init := es[..|es| - 1];
    if i < |init| {
      assert es[i] == init[i];
      forall j | i < j < |init| && contrib(init[j]).Some?
        ensures contrib(init[j]).value.num != contrib(init[i]).value.num
      {
        assert init[j] == es[j];
      }
      FoldLastWins(init, contrib, i);
    }
  }

  /** Every stored list is non-empty and sorted by case number when every contribution is. */
  lemma {:induction false} FoldWellFormed(es: seq<Entry>, contrib: Entry -> Option<VideoGroup>)
    requires forall e :: contrib(e).Some? ==> contrib(e).value.cases != [] && Sorted(contrib(e).value.cases, CaseLe)
    ensures forall v :: v in Fold(es, contrib) ==> Fold(es, contrib)[v] != [] && Sorted(Fold(es, contrib)[v], CaseLe)
  {
    if es != [] {
      FoldWellFormed(es[..|es| - 1], contrib);
    }
  }

  /** A directory that contributes nothing can be dropped from the visit. */
  lemma {:induction false} FoldSkip(a: seq<Entry>, x: Entry, b: seq<Entry>, contrib: Entry -> Option<VideoGroup>)
    requires contrib(x).None?
    ensures Fold(a + [x] + b, contrib) == Fold(a + b, contrib)
  {
    if b == [] {
      var s := a + [x];
      assert s[..|s| - 1] == a && s[|s| - 1] == x;
      assert a + [x] + b == s && a + b == a;
    } else {
      var b' := b[..|b| - 1];
      var s := a + [x] + b;
      assert s[..|s| - 1] == a + [x] + b' && s[|s| - 1] == b[|b| - 1];
      var t := a + b;
      assert t[..|t| - 1] == a + b' && t[|t| - 1] == b[|b| - 1];
      FoldSkip(a, x, b', contrib);
    }
  }

  /** One step of the outer loop: the next directory's contribution, if any, is stored. */
  lemma FoldStep(es: seq<Entry>, contrib: Entry -> Option<VideoGroup>, i: nat)
    requires i < |es|
    ensures Fold(es[..i + 1], contrib) ==
      (match contrib(es[i]) case None => Fold(es[..i], contrib) case Some(g) => Fold(es[..i], contrib)[g.num := g.cases])
  {
    assert es[..i + 1][..i] == es[..i];
  }

  /** Keys of a fold over a sorted, filtered listing: the filter and the order decide nothing about which numbers occur. */
  lemma FoldSortedKeys(es: seq<Entry>, p: Entry -> bool, le: (Entry, Entry) -> bool, contrib: Entry -> Option<VideoGroup>, v: nat)
    ensures v in Fold(SortBy(Filter(es, p), le), contrib) <==>
      exists e :: e in es && p(e) && contrib(e).Some? && contrib(e).value.num == v
  {
    var dirs := SortBy(Filter(es, p), le);
    FoldKeys(dirs, contrib, v);
    if v in Fold(dirs, contrib) {
      var i :| 0 <= i < |dirs| && contrib(dirs[i]).Some? && contrib(dirs[i]).value.num == v;
      assert dirs[i] in multiset(dirs);
      assert dirs[i] in Filter(es, p);
    }
    if exists e :: e in es && p(e) && contrib(e).Some? && contrib(e).value.num == v {
      var e :| e in es && p(e) && contrib(e).Some? && contrib(e).value.num == v;
      assert e in multiset(Filter(es, p));
      assert e in dirs;
      var i :| 0 <= i < |dirs| && dirs[i] == e;
    }
  }

  lemma FoldInsertSkip(x: Entry, t: seq<Entry>, le: (Entry, Entry) -> bool, contrib: Entry -> Option<VideoGroup>)
    requires contrib(x).None?
    ensures Fold(Insert(x, t, le), contrib) == Fold(t, contrib)
  {
    var k := InsertSplit(x, t, le);
    FoldSkip(t[..k], x, t[k..], contrib);
    assert t[..k] + t[k..] == t;
  }

  /** An entry outside the filter, or contributing nothing, can be dropped from the listing. */
  lemma FoldSortedSkip(x: Entry, es: seq<Entry>, p: Entry -> bool, le: (Entry, Entry) -> bool, contrib: Entry -> Option<VideoGroup>)
    requires !p(x) || contrib(x).None?
    ensures Fold(SortBy(Filter([x] + es, p), le), contrib) == Fold(SortBy(Filter(es, p), le), contrib)
  {
    FilterCons(x, es, p);
    if p(x) {
      var f := Filter(es, p);
      var g := [x] + f;
      assert g[0] == x && g[1..] == f;
      assert SortBy(g, le) == Insert(x, SortBy(f, le), le);
      FoldInsertSkip(x, SortBy(f, le), le, contrib);
    }
  }

  /** No key maps to an empty list, and every list is sorted by case number; an absent base gives no keys. */
  lemma ScanWellFormed(base: Option<seq<Entry>>, parts: seq<string>)
    ensures base.None? ==> ScanSpec(base, parts) == map[]
    ensures forall v :: v in ScanSpec(base, parts) ==> ScanSpec(base, parts)[v] != [] && Sorted(ScanSpec(base, parts)[v], CaseLe)
  {
    if base.Some? {
      forall e | ContributionOf(parts)(e).Some?
        ensures ContributionOf(parts)(e).value.cases != [] && Sorted(ContributionOf(parts)(e).value.cases, CaseLe)
      {
        ContributionSorted(parts, e);
      }
      FoldWellFormed(SortedVideoDirs(base.value), ContributionOf(parts));
    }
  }

  /** A video number is a key exactly when some `video*` directory of the listing contributes it. */
  lemma ScanKeys(base: Option<seq<Entry>>, parts: seq<string>, v: nat)
    ensures v in ScanSpec(base, parts) <==>
      base.Some? && exists e :: e in base.value && InVideoGlob(e) && Contributes(parts, e, v)
  {
    if base.Some? {
      FoldSortedKeys(base.value, InVideoGlob, EntryLe, ContributionOf(parts), v);
    }
  }

  /** An entry that is not a directory, does not match, or holds no matching file is skipped without effect. */
  lemma ScanSkipsEntry(parts: seq<string>, x: Entry, es: seq<Entry>)
    requires Contribution(parts, x).None?
    ensures ScanSpec(Some([x] + es), parts) == ScanSpec(Some(es), parts)
  {
    FoldSortedSkip(x, es, InVideoGlob, EntryLe, ContributionOf(parts));
  }

  /**
   * `scan_language`: the outer loop over the sorted `video*` entries grows
   * `out`; the inner loop over the sorted `case*.html` files appends to
   * `cases`, which is then sorted by case number and stored if non-empty.
   */
  method ScanLanguage(base: Option<seq<Entry>>, parts: seq<string>) returns (out: VideoMap)
    ensures out == ScanSpec(base, parts)
    ensures base.None? ==> out == map[]
    ensures forall v :: v in out ==> out[v] != [] && Sorted(out[v], CaseLe)
  {
    ScanWellFormed(base, parts);
    out := map[];
    if base.None? {
      return;
    }
    var dirs := SortedVideoDirs(base.value);
    for i := 0 to |dirs|
      invariant out == Fold(dirs[..i], ContributionOf(parts))
    {
      var videoDir := dirs[i];
      FoldStep(dirs, ContributionOf(parts), i);
      if !videoDir.isDir {
        continue;
      }
      var mVideo := VideoNumber(videoDir.name);
      if mVideo.None? {
        continue;
      }
      var vnum := mVideo.value;
      var cases: seq<CaseRecord> := [];
      var files := SortedCaseFiles(videoDir.children);
      for j := 0 to |files|
        invariant cases == Collected(parts, videoDir.name, files[..j])
      {
        var html := files[j];
        CollectedStep(parts, videoDir.name, files, j);
        if !html.isFile {
          continue;
        }
        var mCase := CaseNumber(html.name);
        if mCase.None? {
          continue;
        }
        var rel := RelPath(parts, videoDir.name, html.name);
        cases := cases + [CaseRecord(mCase.value, html.name, rel)];
      }
      assert files[..|files|] == files;
      if cases != [] {
        cases := SortBy(cases, CaseLe);
        out := out[vnum := cases];
      }
    }
    assert dirs[..|dirs|] == dirs;
  }
}
