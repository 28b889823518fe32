/**
 * The array operations the source chains together (`filter`, `find`, the
 * `Set` that drops repeated values), as functions over sequences with the
 * facts the rest of the model relies on.
 */
module Seqs {
  import opened Wrappers

  /** `r` is `s` with some elements left out: the order of what remains is kept. */
  predicate Subsequence<T(==)>(r: seq<T>, s: seq<T>)
    decreases |s|
  {
    r == [] || (s != [] && ((r[0] == s[0] && Subsequence(r[1..], s[1..])) || Subsequence(r, s[1..])))
  }

  predicate NoDuplicates<T(==)>(s: seq<T>) {
    forall i, j :: 0 <= i < j < |s| ==> s[i] != s[j]
  }

  /** `Array.prototype.filter`: the elements of `s` that satisfy `f`, in their order. */
  function Filter<T(!new)>(s: seq<T>, f: T -> bool): (r: seq<T>)
    ensures |r| <= |s|
    ensures forall x :: x in r <==> x in s && f(x)
    decreases |s|
  {
    if s == [] then []
    else
      var rest := Filter(s[1..], f);
      assert forall x :: x in s <==> x == s[0] || x in s[1..];
      (if f(s[0]) then [s[0]] else []) + rest
  }

  lemma FilterSingle<T(!new)>(x: T, f: T -> bool)
    ensures Filter([x], f) == if f(x) then [x] else []
  {
    assert [x][1..] == [];
  }

  /** `filter` keeps every occurrence of a passing value and none of a failing one. */
  lemma {:induction false} FilterCounts<T(!new)>(s: seq<T>, f: T -> bool)
    ensures forall x :: multiset(Filter(s, f))[x] == if f(x) then multiset(s)[x] else 0
    decreases |s|
  {
    if s != [] {
      FilterCounts(s[1..], f);
      assert s == [s[0]] + s[1..];
    }
  }

  /** `filter` keeps the order of what it keeps. */
  lemma {:induction false} FilterSubsequence<T(!new)>(s: seq<T>, f: T -> bool)
    ensures Subsequence(Filter(s, f), s)
    decreases |s|
  {
    if s != [] {
      FilterSubsequence(s[1..], f);
      var r := Filter(s, f);
      var rest := Filter(s[1..], f);
      if f(s[0]) {
        assert r == [s[0]] + rest;
        assert r[0] == s[0] && r[1..] == rest;
      } else {
        assert r == rest;
      }
    }
  }

  /** Filtering a concatenation filters each part: with `Filter([x], f)` this fixes the result. */
  lemma {:induction false} FilterAppend<T(!new)>(a: seq<T>, b: seq<T>, f: T -> bool)
    ensures Filter(a + b, f) == Filter(a, f) + Filter(b, f)
    decreases |a|
  {
    if a == [] {
      assert a + b == b;
    } else {
      var head := if f(a[0]) then [a[0]] else [];
      assert (a + b)[0] == a[0] && (a + b)[1..] == a[1..] + b;
      calc {
        Filter(a + b, f);
        head + Filter(a[1..] + b, f);
        { FilterAppend(a[1..], b, f); }
        head + (Filter(a[1..], f) + Filter(b, f));
        Filter(a, f) + Filter(b, f);
      }
    }
  }

  /**
   * Putting `x` in front of `r`, where `r` filters like `y` followed by `s`, filters like
   * `y` followed by `x` and `s` when `x` and `y` do not both pass.
   */
  lemma FilterBehindHead<T(!new)>(x: T, y: T, s: seq<T>, r: seq<T>, f: T -> bool)
    requires Filter(r, f) == Filter([y], f) + Filter(s, f)
    requires !(f(x) && f(y))
    ensures Filter([x] + r, f) == Filter([y], f) + Filter([x] + s, f)
  {
    FilterAppend([x], r, f);
    FilterAppend([x], s, f);
    FilterSingle(x, f);
    FilterSingle(y, f);
    var fx, fy, fs := Filter([x], f), Filter([y], f), Filter(s, f);
    if f(x) {
      assert fy == [];
      assert fx + (fy + fs) == fy + (fx + fs);
    } else {
      assert fx == [];
      assert fx + (fy + fs) == fy + (fx + fs);
    }
  }

  /** Two tests that agree on every element of `s` select the same elements. */
  lemma {:induction false} FilterCongruent<T(!new)>(s: seq<T>, f: T -> bool, g: T -> bool)
    requires forall x :: x in s ==> f(x) == g(x)
    ensures Filter(s, f) == Filter(s, g)
    decreases |s|
  {
    if s != [] {
      FilterCongruent(s[1..], f, g);
    }
  }

  /** A test every element passes keeps the whole sequence. */
  lemma {:induction false} FilterKeepsAll<T(!new)>(s: seq<T>, f: T -> bool)
    requires forall x :: x in s ==> f(x)
    ensures Filter(s, f) == s
    decreases |s|
  {
    if s != [] {
      FilterKeepsAll(s[1..], f);
    }
  }

  /** Only elements failing the test are dropped, so the length is kept exactly when none fails. */
  lemma {:induction false} FilterKeepsLength<T(!new)>(s: seq<T>, f: T -> bool)
    ensures |Filter(s, f)| == |s| <==> forall x :: x in s ==> f(x)
    decreases |s|
  {
    if s != [] {
      FilterKeepsLength(s[1..], f);
    }
  }

  /** `Array.prototype.find`: the first element of `s` that satisfies `f`, if any. */
  function Find<T>(s: seq<T>, f: T -> bool): (r: Option<T>)
    ensures r.None? <==> forall x :: x in s ==> !f(x)
    ensures r.Some? ==> exists i :: 0 <= i < |s| && s[i] == r.value && f(s[i]) && forall j :: 0 <= j < i ==> !f(s[j])
    decreases |s|
  {
    if s == [] then None
    else if f(s[0]) then Some(s[0])
    else
      var r := Find(s[1..], f);
      assert r.Some? ==> exists i :: 0 < i < |s| && s[i] == r.value && f(s[i]) && forall j :: 0 <= j < i ==> !f(s[j]) by {
        if r.Some? {
          var i :| 0 <= i < |s[1..]| && s[1..][i] == r.value && f(s[1..][i]) && forall j :: 0 <= j < i ==> !f(s[1..][j]);
          assert s[i + 1] == r.value && forall j :: 0 <= j < i + 1 ==> !f(s[j]);
        }
      }
      r
  }

  /** `find` is the head of `filter`. */
  lemma {:induction false} FindIsFirstOfFilter<T(!new)>(s: seq<T>, f: T -> bool)
    ensures Find(s, f) == if Filter(s, f) == [] then None else Some(Filter(s, f)[0])
    decreases |s|
  {
    if s != [] && !f(s[0]) {
      FindIsFirstOfFilter(s[1..], f);
    }
  }

  /**
   * The values of `s` once each, in order of first occurrence: what
   * iterating a JavaScript `Set` filled from `s` yields.
   */
  function Distinct<T(==,!new)>(s: seq<T>): (r: seq<T>)
    ensures NoDuplicates(r)
    ensures forall x :: x in r <==> x in s
    decreases |s|
  {
    if s == [] then []
    else
      var r := Distinct(s[..|s| - 1]);
      assert forall x :: x in s <==> x in s[..|s| - 1] || x == s[|s| - 1] by {
        assert s == s[..|s| - 1] + [s[|s| - 1]];
      }
      if s[|s| - 1] in r then r else r + [s[|s| - 1]]
  }

  lemma {:induction false} AtMostOnce<T>(s: seq<T>, x: T)
    requires NoDuplicates(s)
    ensures multiset(s)[x] <= 1
    decreases |s|
  {
    if s != [] {
      assert s == [s[0]] + s[1..];
      AtMostOnce(s[1..], x);
      assert s[0] !in s[1..];
    }
  }

  lemma TwiceCounted<T>(s: seq<T>, i: int, j: int)
    requires 0 <= i < j < |s| && s[i] == s[j]
    ensures multiset(s)[s[i]] >= 2
  {
    assert s == s[..j] + s[j..];
    assert s[j..][0] == s[i];
    assert s[..j][i] == s[i];
  }

  /** Reordering a sequence without repeated values cannot create one. */
  lemma PermutationKeepsNoDuplicates<T>(a: seq<T>, b: seq<T>)
    requires NoDuplicates(a) && multiset(a) == multiset(b)
    ensures NoDuplicates(b)
  {
    forall i, j | 0 <= i < j < |b| ensures b[i] != b[j] {
      if b[i] == b[j] {
        TwiceCounted(b, i, j);
        AtMostOnce(a, b[i]);
      }
    }
  }

  /** A filter of a sequence without repeated values has none either. */
  lemma FilterKeepsNoDuplicates<T(!new)>(s: seq<T>, f: T -> bool)
    requires NoDuplicates(s)
    ensures NoDuplicates(Filter(s, f))
  {
    var r := Filter(s, f);
    FilterCounts(s, f);
    forall i, j | 0 <= i < j < |r| ensures r[i] != r[j] {
      if r[i] == r[j] {
        TwiceCounted(r, i, j);
        AtMostOnce(s, r[i]);
      }
    }
  }
}
