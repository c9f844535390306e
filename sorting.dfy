/**
 * The library operations the indexer relies on: filtering a listing, Python's
 * stable `sorted(...)` / `list.sort(key=...)`, and the code-point order in
 * which Python compares strings (and hence the paths of one directory).
 * The sort is written as an insertion sort; what matters is its contract:
 * the result is ordered, is a permutation of the input, and keeps equal
 * elements in their original order.
 */
module Sorting {
  import opened Wrappers

  /** The elements of `s` satisfying `p`, in their original order. */
  function Filter<T(!new)>(s: seq<T>, p: T -> bool): (r: seq<T>)
    ensures |r| <= |s|
    ensures forall x :: x in r <==> x in s && p(x)
  {
    if s == [] then [] else (if p(s[0]) then [s[0]] else []) + Filter(s[1..], p)
  }


  lemma FilterCons<T(!new)>(x: T, s: seq<T>, p: T -> bool)
    ensures Filter([x] + s, p) == if p(x) then [x] + Filter(s, p) else Filter(s, p)
  {
    var t := [x] + s;
    assert t[0] == x && t[1..] == s;
  }

  /** The values `f` yields along `s`, dropping the elements for which it yields nothing. */
  function FilterMap<A, B>(s: seq<A>, f: A -> Option<B>): seq<B>
  {
    if s == [] then []
    else FilterMap(s[..|s| - 1], f) + (match f(s[|s| - 1]) case None => [] case Some(y) => [y])
  }

  lemma {:induction false} FilterMapAppend<A, B>(a: seq<A>, b: seq<A>, f: A -> Option<B>)
    ensures FilterMap(a + b, f) == FilterMap(a, f) + FilterMap(b, f)
  {
    if b == [] {
      assert a + b == a;
    } else {
      var b' := b[..|b| - 1];
      assert (a + b)[..|a + b| - 1] == a + b' && (a + b)[|a + b| - 1] == b[|b| - 1];
      FilterMapAppend(a, b', f);
    }
  }

  /** Exactly the values `f` yields on elements of `s` are collected. */
  lemma {:induction false} FilterMapMembers<A, B>(s: seq<A>, f: A -> Option<B>, y: B)
    ensures y in FilterMap(s, f) <==> exists x :: x in s && f(x) == Some(y)
  {
    if s != [] {
      var init := s[..|s| - 1];
      FilterMapMembers(init, f, y);
      assert s == init + [s[|s| - 1]];
      if exists x :: x in s && f(x) == Some(y) {
        var x :| x in s && f(x) == Some(y);
        if x != s[|s| - 1] {
          assert x in init;
        }
      }
    }
  }

  /** Something is collected exactly when `f` yields a value on some element. */
  lemma FilterMapNonEmpty<A, B>(s: seq<A>, f: A -> Option<B>)
    ensures FilterMap(s, f) != [] <==> exists x :: x in s && f(x).Some?
  {
    if FilterMap(s, f) != [] {
      FilterMapMembers(s, f, FilterMap(s, f)[0]);
    }
    if exists x :: x in s && f(x).Some? {
      var x :| x in s && f(x).Some?;
      FilterMapMembers(s, f, f(x).value);
    }
  }

  predicate Sorted<T>(s: seq<T>, le: (T, T) -> bool)
  {
    forall i, j :: 0 <= i < j < |s| ==> le(s[i], s[j])
  }

  ghost predicate TotalPreorder<T(!new)>(le: (T, T) -> bool)
  {
    && (forall a, b :: le(a, b) || le(b, a))
    && (forall a, b, c :: le(a, b) && le(b, c) ==> le(a, c))
  }

  /** Places `x` before the first element it is `le` to. */
  function Insert<T>(x: T, s: seq<T>, le: (T, T) -> bool): (r: seq<T>)
    ensures multiset(r) == multiset(s) + multiset{x}
  {
    if s == [] || le(x, s[0]) then [x] + s
    else
      assert s == [s[0]] + s[1..];
      [s[0]] + Insert(x, s[1..], le)
  }

  /** `sorted(s)` and `s.sort()`: a stable sort under the order `le`. */
  function SortBy<T>(s: seq<T>, le: (T, T) -> bool): (r: seq<T>)
    ensures multiset(r) == multiset(s)
  {
    if s == [] then []
    else
      assert s == [s[0]] + s[1..];
      Insert(s[0], SortBy(s[1..], le), le)
  }

  /** Insertion splits the sequence at one point and changes nothing else. */
  lemma {:induction false} InsertSplit<T>(x: T, s: seq<T>, le: (T, T) -> bool) returns (k: nat)
    ensures k <= |s| && Insert(x, s, le) == s[..k] + [x] + s[k..]
  {
    if s == [] || le(x, s[0]) {
      k := 0;
    } else {
      var k' := InsertSplit(x, s[1..], le);
      k := k' + 1;
      assert s[..k] == [s[0]] + s[1..][..k'];
      assert s[k..] == s[1..][k'..];
    }
  }

  lemma {:induction false} InsertSorted<T(!new)>(x: T, s: seq<T>, le: (T, T) -> bool)
    requires TotalPreorder(le) && Sorted(s, le)
    ensures Sorted(Insert(x, s, le), le)
  {
    if s != [] && !le(x, s[0]) {
      var t := Insert(x, s[1..], le);
      InsertSorted(x, s[1..], le);
      assert le(s[0], x);
      forall y | y in t ensures le(s[0], y) {
        assert y in multiset(t);
        if y != x {
          assert y in s[1..];
        }
      }
      var r := [s[0]] + t;
      forall i, j | 0 <= i < j < |r| ensures le(r[i], r[j]) {
        if i == 0 {
          assert r[j] in t;
        } else {
          assert r[i] == t[i - 1] && r[j] == t[j - 1];
        }
      }
    } else if s != [] {
      var r := [x] + s;
      forall i, j | 0 <= i < j < |r| ensures le(r[i], r[j]) {
        if i == 0 {
          assert le(s[0], s[j - 1]) || j == 1;
        } else {
          assert r[i] == s[i - 1] && r[j] == s[j - 1];
        }
      }
    }
  }

  lemma MultisetMiddle<T>(lo: seq<T>, one: seq<T>, hi: seq<T>)
    ensures multiset(lo + one + hi) == multiset(one) + multiset(lo + hi)
  {
    assert multiset(lo + one + hi) == multiset(lo) + multiset(one) + multiset(hi);
    assert multiset(lo + hi) == multiset(lo) + multiset(hi);
  }

  /** What is collected from a sequence with `x` inserted at position `k`. */
  lemma FilterMapSplit<A, B>(a: seq<A>, x: A, b: seq<A>, f: A -> Option<B>)
    ensures FilterMap(a + [x] + b, f) == FilterMap(a, f) + FilterMap([x], f) + FilterMap(b, f)
    ensures FilterMap(a + b, f) == FilterMap(a, f) + FilterMap(b, f)
  {
    FilterMapAppend(a + [x], b, f);
    FilterMapAppend(a, [x], f);
    FilterMapAppend(a, b, f);
  }

  /** Inserting one element adds exactly what `f` yields on it. */
  lemma FilterMapInsert<A, B>(x: A, s: seq<A>, le: (A, A) -> bool, f: A -> Option<B>)
    ensures multiset(FilterMap(Insert(x, s, le), f)) == multiset(FilterMap([x], f)) + multiset(FilterMap(s, f))
  {
    var k := InsertSplit(x, s, le);
    var a, b := s[..k], s[k..];
    assert a + b == s;
    FilterMapSplit(a, x, b, f);
    MultisetMiddle(FilterMap(a, f), FilterMap([x], f), FilterMap(b, f));
  }

  /** Inserting an element for which `f` yields nothing collects the same values. */
  lemma FilterMapInsertSkip<A, B>(x: A, s: seq<A>, le: (A, A) -> bool, f: A -> Option<B>)
    requires f(x).None?
    ensures FilterMap(Insert(x, s, le), f) == FilterMap(s, f)
  {
    var k := InsertSplit(x, s, le);
    FilterMapAppend(s[..k] + [x], s[k..], f);
    FilterMapAppend(s[..k], [x], f);
    assert [x][..0] == [];
    FilterMapAppend(s[..k], s[k..], f);
    assert s[..k] + s[k..] == s;
  }

  /** Visiting a sorted copy collects the same values with the same multiplicities. */
  lemma {:induction false} FilterMapSortBy<A, B>(s: seq<A>, le: (A, A) -> bool, f: A -> Option<B>)
    ensures multiset(FilterMap(SortBy(s, le), f)) == multiset(FilterMap(s, f))
  {
    if s != [] {
      FilterMapSortBy(s[1..], le, f);
      FilterMapInsert(s[0], SortBy(s[1..], le), le, f);
      FilterMapAppend([s[0]], s[1..], f);
      assert [s[0]] + s[1..] == s;
    }
  }

  /** An element outside the filter, or for which `f` yields nothing, does not change what is collected from the sorted, filtered sequence. */
  lemma FilterMapSortedSkip<A(!new), B>(x: A, s: seq<A>, p: A -> bool, le: (A, A) -> bool, f: A -> Option<B>)
    requires !p(x) || f(x).None?
    ensures FilterMap(SortBy(Filter([x] + s, p), le), f) == FilterMap(SortBy(Filter(s, p), le), f)
  {
    FilterCons(x, s, p);
    if p(x) {
      var u := [x] + Filter(s, p);
      assert u[0] == x && u[1..] == Filter(s, p);
      assert SortBy(u, le) == Insert(x, SortBy(Filter(s, p), le), le);
      FilterMapInsertSkip(x, SortBy(Filter(s, p), le), le, f);
    }
  }

  /** The sort's result is ordered. */
  lemma {:induction false} SortBySorted<T(!new)>(s: seq<T>, le: (T, T) -> bool)
    requires TotalPreorder(le)
    ensures Sorted(SortBy(s, le), le)
  {
    if s != [] {
      SortBySorted(s[1..], le);
      InsertSorted(s[0], SortBy(s[1..], le), le);
    }
  }

  lemma {:induction false} InsertStable<T(!new)>(x: T, s: seq<T>, le: (T, T) -> bool, p: T -> bool)
    requires forall a, b :: p(a) && p(b) ==> le(a, b)
    ensures Filter(Insert(x, s, le), p) == Filter([x] + s, p)
  {
    if s != [] && !le(x, s[0]) {
      InsertStable(x, s[1..], le, p);
      assert ([s[0]] + Insert(x, s[1..], le))[1..] == Insert(x, s[1..], le);
      assert ([x] + s[1..])[1..] == s[1..];
      assert ([x] + s)[1..] == s;
      assert s == [s[0]] + s[1..];
    }
  }

  /**
   * Stability: the elements of any class `p` of mutually `le`-equal elements
   * (equal sort keys) keep their original relative order.
   */
  lemma {:induction false} SortByStable<T(!new)>(s: seq<T>, le: (T, T) -> bool, p: T -> bool)
    requires forall a, b :: p(a) && p(b) ==> le(a, b)
    ensures Filter(SortBy(s, le), p) == Filter(s, p)
  {
    if s != [] {
      SortByStable(s[1..], le, p);
      InsertStable(s[0], SortBy(s[1..], le), le, p);
      assert ([s[0]] + SortBy(s[1..], le))[1..] == SortBy(s[1..], le);
    }
  }

  /** Python's `a <= b` on strings: lexicographic by code point, a proper prefix first. */
  predicate NameLe(a: string, b: string)
  {
    if a == [] then true
    else if b == [] then false
    else if a[0] != b[0] then a[0] < b[0]
    else NameLe(a[1..], b[1..])
  }

  lemma {:induction false} NameLeTotal(a: string, b: string)
    ensures NameLe(a, b) || NameLe(b, a)
  {
    if a != [] && b != [] && a[0] == b[0] {
      NameLeTotal(a[1..], b[1..]);
    }
  }

  lemma {:induction false} NameLeTransitive(a: string, b: string, c: string)
    requires NameLe(a, b) && NameLe(b, c)
    ensures NameLe(a, c)
  {
    if a != [] && b != [] && c != [] && a[0] == b[0] == c[0] {
      NameLeTransitive(a[1..], b[1..], c[1..]);
    }
  }

  lemma {:induction false} NameLeAntisymmetric(a: string, b: string)
    requires NameLe(a, b) && NameLe(b, a)
    ensures a == b
  {
    if a != [] && b != [] {
      NameLeAntisymmetric(a[1..], b[1..]);
      assert a == [a[0]] + a[1..] && b == [b[0]] + b[1..];
    }
  }
}
