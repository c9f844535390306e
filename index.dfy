/**
 * The payload assembly of `main`: both languages are scanned, each map's
 * case records are counted, and each map is listed by ascending video
 * number with the number written as its decimal string.
 *
 * The clock reading and the two base-path strings are parameters; writing
 * the payload as JSON text is not modelled, so a JSON object is a sequence
 * of key/value entries in the order they are inserted.
 */
module Index {
  import opened Wrappers
  import opened Names
  import opened Sorting
  import opened Scan

  /** One member of `videos.<lang>`: the video number as a string and its records. */
  datatype VideoEntry = VideoEntry(key: string, cases: seq<CaseRecord>)

  /** The document written to `index.json`. */
  datatype Payload = Payload(
    generatedAt: string,
    baseEn: string,
    baseJa: string,
    countEn: nat,
    countJa: nat,
    videosEn: seq<VideoEntry>,
    videosJa: seq<VideoEntry>)

  // ---------------------------------------------------------------------------
  // Keys in ascending order: `sorted(m.items())`

  lemma {:induction false} MinOf(s: set<nat>) returns (k: nat)
    requires s != {}
    ensures k in s && forall j :: j in s ==> k <= j
  {
    var x :| x in s;
    if s == {x} {
      k := x;
    } else {
      var k' := MinOf(s - {x});
      k := if x < k' then x else k';
      forall j | j in s ensures k <= j {
        if j != x {
          assert j in s - {x};
        }
      }
    }
  }

  lemma MinKeyExists(s: set<nat>)
    requires s != {}
    ensures exists k :: k in s && forall j :: j in s ==> k <= j
  {
    var k := MinOf(s);
  }

  /** The smallest video number of a map with at least one key. */
  function MinKey(m: VideoMap): (k: nat)
    requires m.Keys != {}
    ensures k in m && forall j :: j in m ==> k <= j
  {
    MinKeyExists(m.Keys);
    var k :| k in m.Keys && forall j :: j in m.Keys ==> k <= j;
    k
  }

  predicate Increasing(ks: seq<nat>)
  {
    forall i, j :: 0 <= i < j < |ks| ==> ks[i] < ks[j]
  }

  lemma IncreasingCons(k: nat, t: seq<nat>)
    requires Increasing(t) && forall x :: x in t ==> k < x
    ensures Increasing([k] + t)
  {
    var s := [k] + t;
    forall i, j | 0 <= i < j < |s| ensures s[i] < s[j] {
      assert s[j] == t[j - 1] && t[j - 1] in t;
      if i > 0 {
        assert s[i] == t[i - 1];
      }
    }
  }

  lemma RemoveKey(m: VideoMap, k: nat)
    requires k in m
    ensures |m - {k}| == |m| - 1
    ensures forall j :: j in m - {k} <==> j in m && j != k
  {
    assert (m - {k}).Keys == m.Keys - {k};
  }

  /**
   * The keys of `m` in the order `sorted(m.items())` visits them: items are
   * pairs whose first components are distinct, so they sort by key alone.
   */
  function SortedKeys(m: VideoMap): (ks: seq<nat>)
    ensures |ks| == |m|
    ensures forall k :: k in ks <==> k in m
    ensures Increasing(ks)
    decreases |m|
  {
    if m.Keys == {} then []
    else
      var k := MinKey(m);
      var rest := m - {k};
      RemoveKey(m, k);
      var t := SortedKeys(rest);
      IncreasingCons(k, t);
      [k] + t
  }

  // ---------------------------------------------------------------------------
  // `videos.<lang>`: `{str(k): v for k, v in sorted(m.items())}`

  /** The entries for the keys `ks`, in that order. */
  function RenderKeys(ks: seq<nat>, m: VideoMap): (r: seq<VideoEntry>)
    requires forall k :: k in ks ==> k in m
    ensures |r| == |ks|
    ensures forall i :: 0 <= i < |ks| ==> r[i] == VideoEntry(NatToString(ks[i]), m[ks[i]])
  {
    if ks == [] then [] else [VideoEntry(NatToString(ks[0]), m[ks[0]])] + RenderKeys(ks[1..], m)
  }

  /** What the listing of increasing keys says about each entry. */
  lemma RenderKeysEntries(ks: seq<nat>, m: VideoMap)
    requires forall k :: k in ks ==> k in m
    requires Increasing(ks)
    ensures var r := RenderKeys(ks, m);
      && (forall i :: 0 <= i < |r| ==>
          && AllDigits(r[i].key)
          && DecimalValue(r[i].key) == ks[i]
          && r[i].key == NatToString(DecimalValue(r[i].key))
          && r[i].cases == m[DecimalValue(r[i].key)])
      && (forall i, j :: 0 <= i < j < |r| ==> DecimalValue(r[i].key) < DecimalValue(r[j].key))
  {
    var r := RenderKeys(ks, m);
    forall i | 0 <= i < |r|
      ensures AllDigits(r[i].key) && DecimalValue(r[i].key) == ks[i]
    {
      DecimalValueOfNatToString(ks[i]);
    }
  }

  /** Every key of `ks` has an entry. */
  lemma RenderKeysCovers(ks: seq<nat>, m: VideoMap)
    requires forall k :: k in ks ==> k in m
    ensures forall k :: k in ks ==> exists i :: 0 <= i < |RenderKeys(ks, m)| && RenderKeys(ks, m)[i].key == NatToString(k)
  {
    var r := RenderKeys(ks, m);
    forall k | k in ks
      ensures exists i :: 0 <= i < |r| && r[i].key == NatToString(k)
    {
      var i :| 0 <= i < |ks| && ks[i] == k;
      assert r[i] == VideoEntry(NatToString(ks[i]), m[ks[i]]);
    }
    assert r == RenderKeys(ks, m);
  }

  /**
   * `vs` is a listing of `m` as `videos.<lang>` holds it: one entry per key of
   * `m`, each keyed by the key's canonical decimal string (no leading zeros)
   * next to the key's own list, with every key covered and the keys in
   * strictly ascending numeric order.
   */
  ghost predicate Lists(vs: seq<VideoEntry>, m: VideoMap)
  {
    && |vs| == |m|
    && (forall i :: 0 <= i < |vs| ==>
        && AllDigits(vs[i].key)
        && DecimalValue(vs[i].key) in m
        && vs[i].key == NatToString(DecimalValue(vs[i].key))
        && vs[i].cases == m[DecimalValue(vs[i].key)])
    && (forall k :: k in m ==> exists i :: 0 <= i < |vs| && vs[i].key == NatToString(k))
    && (forall i, j :: 0 <= i < j < |vs| ==> DecimalValue(vs[i].key) < DecimalValue(vs[j].key))
  }

  /** The listing of an increasing sequence holding exactly the keys of `m`. */
  lemma RenderKeysListing(ks: seq<nat>, m: VideoMap)
    requires |ks| == |m| && (forall k :: k in ks <==> k in m) && Increasing(ks)
    ensures Lists(RenderKeys(ks, m), m)
  {
    RenderKeysEntries(ks, m);
    RenderKeysCovers(ks, m);
  }

  /**
   * The listing of a map: every key exactly once, each written as its
   * decimal string (no leading zeros) next to its own list, in ascending
   * numeric order, so that "9" comes before "10".
   */
  function Render(m: VideoMap): (r: seq<VideoEntry>)
    ensures Lists(r, m)
  {
    RenderKeysListing(SortedKeys(m), m);
    RenderKeys(SortedKeys(m), m)
  }

  // ---------------------------------------------------------------------------
  // `counts.<lang>`: `sum(len(v) for v in m.values())`

  /** The number of records stored under the keys `ks`; a missing key holds none. */
  function SumOver(ks: seq<nat>, m: VideoMap): nat
  {
    if ks == [] then 0 else (if ks[0] in m then |m[ks[0]]| else 0) + SumOver(ks[1..], m)
  }

  /** The number of records listed in `videos.<lang>`. */
  function SumLengths(vs: seq<VideoEntry>): nat
  {
    if vs == [] then 0 else |vs[0].cases| + SumLengths(vs[1..])
  }

  /** `sum(len(v) for v in m.values())`, visiting the values in key order. */
  function Counts(m: VideoMap): nat
  {
    SumOver(SortedKeys(m), m)
  }

  lemma {:induction false} SumOverAppend(a: seq<nat>, b: seq<nat>, m: VideoMap)
    ensures SumOver(a + b, m) == SumOver(a, m) + SumOver(b, m)
  {
    if a != [] {
      assert (a + b)[0] == a[0] && (a + b)[1..] == a[1..] + b;
      SumOverAppend(a[1..], b, m);
    } else {
      assert a + b == b;
    }
  }

  /** Taking one key out of the middle of the visit. */
  lemma SumOverRemove(js: seq<nat>, i: nat, m: VideoMap)
    requires i < |js|
    ensures SumOver(js, m) == SumOver([js[i]], m) + SumOver(js[..i] + js[i + 1..], m)
  {
    assert js == js[..i] + [js[i]] + js[i + 1..];
    SumOverAppend(js[..i] + [js[i]], js[i + 1..], m);
    SumOverAppend(js[..i], [js[i]], m);
    SumOverAppend(js[..i], js[i + 1..], m);
  }

  lemma MultisetRemove(ks: seq<nat>, js: seq<nat>, i: nat)
    requires multiset(ks) == multiset(js) && ks != [] && i < |js| && js[i] == ks[0]
    ensures multiset(ks[1..]) == multiset(js[..i] + js[i + 1..])
  {
    var x := ks[0];
    var rest := js[..i] + js[i + 1..];
    assert js == js[..i] + [x] + js[i + 1..];
    assert multiset(js) == multiset(js[..i]) + multiset{x} + multiset(js[i + 1..]);
    assert multiset(rest) == multiset(js[..i]) + multiset(js[i + 1..]);
    assert ks == [x] + ks[1..];
    assert multiset(ks) == multiset{x} + multiset(ks[1..]);
    forall y ensures multiset(ks[1..])[y] == multiset(rest)[y] {
      assert multiset(ks)[y] == multiset(js)[y];
    }
  }

  /** The sum does not depend on the order in which the keys are visited. */
  lemma {:induction false} SumOverPermutation(ks: seq<nat>, js: seq<nat>, m: VideoMap)
    requires multiset(ks) == multiset(js)
    ensures SumOver(ks, m) == SumOver(js, m)
  {
    if ks != [] {
      assert ks[0] in multiset(js);
      var i :| 0 <= i < |js| && js[i] == ks[0];
      MultisetRemove(ks, js, i);
      SumOverPermutation(ks[1..], js[..i] + js[i + 1..], m);
      SumOverRemove(js, i, m);
    }
  }

  lemma {:induction false} DistinctOccurrences(s: seq<nat>, x: nat)
    requires forall i, j :: 0 <= i < j < |s| ==> s[i] != s[j]
    ensures multiset(s)[x] == if x in s then 1 else 0
  {
    if s != [] {
      assert s == [s[0]] + s[1..];
      DistinctOccurrences(s[1..], x);
      if x == s[0] {
        assert x !in s[1..];
      }
    }
  }

  /** Two sequences without repetitions that hold the same elements are permutations of each other. */
  lemma DistinctSameElements(a: seq<nat>, b: seq<nat>)
    requires forall i, j :: 0 <= i < j < |a| ==> a[i] != a[j]
    requires forall i, j :: 0 <= i < j < |b| ==> b[i] != b[j]
    requires forall x :: x in a <==> x in b
    ensures multiset(a) == multiset(b)
  {
    forall x ensures multiset(a)[x] == multiset(b)[x] {
      DistinctOccurrences(a, x);
      DistinctOccurrences(b, x);
    }
  }

  /**
   * Whatever order a dict iteration visits the keys in — any sequence that
   * lists each key of `m` exactly once — the sum of the list lengths is `Counts(m)`.
   */
  lemma CountsAnyOrder(m: VideoMap, ks: seq<nat>)
    requires forall k :: k in ks <==> k in m
    requires forall i, j :: 0 <= i < j < |ks| ==> ks[i] != ks[j]
    ensures SumOver(ks, m) == Counts(m)
  {
    var sk := SortedKeys(m);
    assert forall i, j :: 0 <= i < j < |sk| ==> sk[i] != sk[j];
    DistinctSameElements(ks, sk);
    SumOverPermutation(ks, sk, m);
  }

  lemma {:induction false} SumOverRender(ks: seq<nat>, m: VideoMap)
    requires forall k :: k in ks ==> k in m
    ensures SumOver(ks, m) == SumLengths(RenderKeys(ks, m))
  {
    if ks != [] {
      var r := RenderKeys(ks, m);
      assert forall k :: k in ks[1..] ==> k in ks;
      SumOverRender(ks[1..], m);
      assert r[1..] == RenderKeys(ks[1..], m);
    }
  }

  /** `counts.<lang>` equals the number of records listed in `videos.<lang>`. */
  lemma CountsMatchListing(m: VideoMap)
    ensures Counts(m) == SumLengths(Render(m))
  {
    SumOverRender(SortedKeys(m), m);
  }

  lemma {:induction false} SumLengthsAtLeast(vs: seq<VideoEntry>)
    requires forall i :: 0 <= i < |vs| ==> vs[i].cases != []
    ensures SumLengths(vs) >= |vs|
  {
    if vs != [] {
      assert forall i :: 1 <= i < |vs| ==> vs[1..][i - 1] == vs[i];
      SumLengthsAtLeast(vs[1..]);
    }
  }

  // ---------------------------------------------------------------------------
  // The payload

  /** `payload` as `main` builds it from the two scanned maps. */
  function Assemble(generatedAt: string, baseEn: string, baseJa: string, en: VideoMap, ja: VideoMap): (p: Payload)
    ensures p.generatedAt == generatedAt && p.baseEn == baseEn && p.baseJa == baseJa
    ensures Lists(p.videosEn, en) && Lists(p.videosJa, ja)
    ensures p.countEn == Counts(en) && p.countJa == Counts(ja)
    ensures p.countEn == SumLengths(p.videosEn) && p.countJa == SumLengths(p.videosJa)
  {
    CountsMatchListing(en);
    CountsMatchListing(ja);
    Payload(generatedAt, baseEn, baseJa, Counts(en), Counts(ja), Render(en), Render(ja))
  }

  /** A listing of a map without empty lists has no empty entries and has at least one record per entry. */
  lemma RenderWellFormed(m: VideoMap)
    requires forall v :: v in m ==> m[v] != [] && Sorted(m[v], CaseLe)
    ensures forall i :: 0 <= i < |Render(m)| ==> Render(m)[i].cases != [] && Sorted(Render(m)[i].cases, CaseLe)
    ensures Counts(m) >= |Render(m)|
  {
    var r := Render(m);
    forall i | 0 <= i < |r| ensures r[i].cases != [] && Sorted(r[i].cases, CaseLe) {
      var k := DecimalValue(r[i].key);
      assert k in m && r[i].cases == m[k];
    }
    CountsMatchListing(m);
    SumLengthsAtLeast(r);
  }

  /**
   * `main` without its I/O: scan both base directories and build the
   * payload. The clock reading and the base strings as given on the command
   * line are parameters; each base directory's listing and its resolved
   * path components stand for the file system.
   */
  method BuildIndex(
    generatedAt: string, baseEn: string, baseJa: string,
    enDir: Option<seq<Entry>>, enParts: seq<string>,
    jaDir: Option<seq<Entry>>, jaParts: seq<string>)
    returns (p: Payload)
    ensures p == Assemble(generatedAt, baseEn, baseJa, ScanSpec(enDir, enParts), ScanSpec(jaDir, jaParts))
    ensures p.countEn == SumLengths(p.videosEn) && p.countJa == SumLengths(p.videosJa)
    ensures forall i :: 0 <= i < |p.videosEn| ==> p.videosEn[i].cases != [] && Sorted(p.videosEn[i].cases, CaseLe)
    ensures forall i :: 0 <= i < |p.videosJa| ==> p.videosJa[i].cases != [] && Sorted(p.videosJa[i].cases, CaseLe)
    ensures p.countEn >= |p.videosEn| && p.countJa >= |p.videosJa|
    ensures enDir.None? ==> p.countEn == 0 && p.videosEn == []
    ensures jaDir.None? ==> p.countJa == 0 && p.videosJa == []
  {
    var enMap := ScanLanguage(enDir, enParts);
    var jaMap := ScanLanguage(jaDir, jaParts);
    p := Assemble(generatedAt, baseEn, baseJa, enMap, jaMap);
    RenderWellFormed(enMap);
    RenderWellFormed(jaMap);
  }
}
