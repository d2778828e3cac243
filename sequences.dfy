/** Generic list operations that the SQL clauses of the store reduce to:
    WHERE becomes Filter, COUNT becomes Count, ORDER BY ... DESC becomes SortDesc. */
module Sequences {

  /** The elements of `xs` that satisfy `p`, in their original order. */
  function Filter<T(!new)>(xs: seq<T>, p: T -> bool): (r: seq<T>)
    ensures |r| <= |xs|
    ensures forall i :: 0 <= i < |r| ==> p(r[i])
  {
    if xs == [] then []
    else (if p(xs[0]) then [xs[0]] else []) + Filter(xs[1..], p)
  }

  /** An element is kept by a filter iff it occurs in the input and satisfies
      the condition. */
  lemma {:induction false} FilterMembers<T(!new)>(xs: seq<T>, p: T -> bool)
    ensures forall x :: x in Filter(xs, p) <==> x in xs && p(x)
  {
    if xs != [] {
      FilterMembers(xs[1..], p);
      assert xs == [xs[0]] + xs[1..];
    }
  }

  /** The number of elements of `xs` that satisfy `p`. */
  function Count<T(!new)>(xs: seq<T>, p: T -> bool): nat
  {
    if xs == [] then 0
    else (if p(xs[0]) then 1 else 0) + Count(xs[1..], p)
  }

  /** `a` is `b` with some elements dropped and the rest kept in order. */
  ghost predicate SubsequenceOf<T(!new)>(a: seq<T>, b: seq<T>)
    decreases |b|
  {
    if b == [] then a == []
    else (a != [] && a[0] == b[0] && SubsequenceOf(a[1..], b[1..])) || SubsequenceOf(a, b[1..])
  }

  /** Non-increasing by `key`: the order of `ORDER BY key DESC`. */
  ghost predicate SortedDesc<T(!new)>(s: seq<T>, key: T -> int)
  {
    forall i, j :: 0 <= i < j < |s| ==> key(s[i]) >= key(s[j])
  }

  /** Puts `x` in front of the first element whose key is not larger than its own. */
  function Insert<T(!new)>(x: T, s: seq<T>, key: T -> int): seq<T>
  {
    if s == [] || key(s[0]) <= key(x) then [x] + s
    else [s[0]] + Insert(x, s[1..], key)
  }

  /** Stable sort by `key`, largest first; equal keys keep their input order. */
  function SortDesc<T(!new)>(xs: seq<T>, key: T -> int): seq<T>
  {
    if xs == [] then [] else Insert(xs[0], SortDesc(xs[1..], key), key)
  }

  lemma {:induction false} FilterAppend<T(!new)>(xs: seq<T>, ys: seq<T>, p: T -> bool)
    ensures Filter(xs + ys, p) == Filter(xs, p) + Filter(ys, p)
  {
    if xs == [] {
      assert xs + ys == ys;
    } else {
      assert (xs + ys)[1..] == xs[1..] + ys;
      FilterAppend(xs[1..], ys, p);
    }
  }

  /** A filter that keeps every element changes nothing. */
  lemma {:induction false} FilterKeepsAll<T(!new)>(xs: seq<T>, p: T -> bool)
    requires forall i :: 0 <= i < |xs| ==> p(xs[i])
    ensures Filter(xs, p) == xs
  {
    if xs != [] {
      FilterKeepsAll(xs[1..], p);
    }
  }

  /** Filtering twice is filtering once by both conditions. */
  lemma {:induction false} FilterFilter<T(!new)>(xs: seq<T>, p: T -> bool, q: T -> bool, pq: T -> bool)
    requires forall x :: pq(x) == (p(x) && q(x))
    ensures Filter(Filter(xs, p), q) == Filter(xs, pq)
  {
    if xs != [] {
      FilterFilter(xs[1..], p, q, pq);
      if p(xs[0]) {
        assert Filter(xs, p) == [xs[0]] + Filter(xs[1..], p);
        assert Filter(xs, p)[1..] == Filter(xs[1..], p);
      } else {
        assert Filter(xs, p) == Filter(xs[1..], p);
      }
    }
  }

  /** A filter that rejects one element and keeps all others drops exactly that one. */
  lemma FilterDropsOne<T(!new)>(a: seq<T>, x: T, b: seq<T>, p: T -> bool)
    requires forall i :: 0 <= i < |a| ==> p(a[i])
    requires forall i :: 0 <= i < |b| ==> p(b[i])
    requires !p(x)
    ensures Filter(a + [x] + b, p) == a + b
  {
    FilterKeepsAll(a, p);
    FilterKeepsAll(b, p);
    FilterCons(x, [], p);
    assert Filter([x], p) == [] by {
      assert [x] + [] == [x];
    }
    FilterAppend(a, [x], p);
    assert Filter(a + [x], p) == a;
    FilterAppend(a + [x], b, p);
  }

  lemma {:induction false} SubsequenceOfSelf<T(!new)>(s: seq<T>)
    ensures SubsequenceOf(s, s)
  {
    if s != [] {
      SubsequenceOfSelf(s[1..]);
    }
  }

  /** Filters by conditions that agree everywhere are the same filter. */
  lemma {:induction false} FilterSameCondition<T(!new)>(xs: seq<T>, p: T -> bool, q: T -> bool)
    requires forall x :: p(x) == q(x)
    ensures Filter(xs, p) == Filter(xs, q)
  {
    if xs != [] {
      FilterSameCondition(xs[1..], p, q);
    }
  }

  lemma {:induction false} FilterIsSubsequence<T(!new)>(xs: seq<T>, p: T -> bool)
    ensures SubsequenceOf(Filter(xs, p), xs)
  {
    if xs != [] {
      FilterIsSubsequence(xs[1..], p);
      FilterCons(xs[0], xs[1..], p);
      assert xs == [xs[0]] + xs[1..];
      var f := Filter(xs, p);
      if p(xs[0]) {
        assert f[0] == xs[0] && f[1..] == Filter(xs[1..], p);
        assert f != [] && f[0] == xs[0] && SubsequenceOf(f[1..], xs[1..]);
      } else {
        assert f == Filter(xs[1..], p);
      }
    }
  }

  lemma FilterCons<T(!new)>(x: T, s: seq<T>, p: T -> bool)
    ensures Filter([x] + s, p) == (if p(x) then [x] else []) + Filter(s, p)
  {
    assert ([x] + s)[0] == x && ([x] + s)[1..] == s;
  }

  lemma {:induction false} FilterMultiset<T(!new)>(xs: seq<T>, p: T -> bool)
    ensures multiset(Filter(xs, p)) <= multiset(xs)
  {
    if xs != [] {
      FilterMultiset(xs[1..], p);
      assert xs == [xs[0]] + xs[1..];
    }
  }

  lemma {:induction false} CountIsFilterLength<T(!new)>(xs: seq<T>, p: T -> bool)
    ensures Count(xs, p) == |Filter(xs, p)|
  {
    if xs != [] {
      CountIsFilterLength(xs[1..], p);
    }
  }

  lemma {:induction false} CountAppend<T(!new)>(xs: seq<T>, ys: seq<T>, p: T -> bool)
    ensures Count(xs + ys, p) == Count(xs, p) + Count(ys, p)
  {
    if xs == [] {
      assert xs + ys == ys;
    } else {
      assert (xs + ys)[1..] == xs[1..] + ys;
      CountAppend(xs[1..], ys, p);
    }
  }

  /** Taking one element out of a sequence lowers a count by one exactly when
      the element is counted. */
  lemma CountSkip<T(!new)>(xs: seq<T>, k: int, p: T -> bool)
    requires 0 <= k < |xs|
    ensures Count(xs[..k] + xs[k + 1..], p) == Count(xs, p) - (if p(xs[k]) then 1 else 0)
  {
    var a, b, c := xs[..k], xs[k + 1..], xs[k..];
    CountAppend(a, b, p);
    assert xs == a + c;
    CountAppend(a, c, p);
    assert c[0] == xs[k] && c[1..] == b;
  }

  /** A weaker condition counts at least as many elements. */
  lemma {:induction false} CountMonotonic<T(!new)>(xs: seq<T>, p: T -> bool, q: T -> bool)
    requires forall x :: p(x) ==> q(x)
    ensures Count(xs, p) <= Count(xs, q)
  {
    if xs != [] {
      CountMonotonic(xs[1..], p, q);
    }
  }

  lemma {:induction false} CountNone<T(!new)>(xs: seq<T>, p: T -> bool)
    requires forall i :: 0 <= i < |xs| ==> !p(xs[i])
    ensures Count(xs, p) == 0
  {
    if xs != [] {
      CountNone(xs[1..], p);
    }
  }

  lemma {:induction false} InsertMultiset<T(!new)>(x: T, s: seq<T>, key: T -> int)
    ensures multiset(Insert(x, s, key)) == multiset(s) + multiset{x}
    ensures |Insert(x, s, key)| == |s| + 1
  {
    if s != [] && key(s[0]) > key(x) {
      InsertMultiset(x, s[1..], key);
      assert s == [s[0]] + s[1..];
    }
  }

  lemma {:induction false} InsertSorted<T(!new)>(x: T, s: seq<T>, key: T -> int)
    requires SortedDesc(s, key)
    ensures SortedDesc(Insert(x, s, key), key)
  {
    if s != [] && key(s[0]) > key(x) {
      InsertSorted(x, s[1..], key);
      InsertMultiset(x, s[1..], key);
      var r := Insert(x, s[1..], key);
      forall k | 0 <= k < |r|
        ensures key(s[0]) >= key(r[k])
      {
        assert r[k] in multiset(r);
        assert r[k] in multiset(s[1..]) || r[k] == x;
        if r[k] != x {
          var m :| 0 <= m < |s[1..]| && s[1..][m] == r[k];
          assert s[1 + m] == r[k];
        }
      }
    }
  }

  lemma {:induction false} SortDescPermutes<T(!new)>(xs: seq<T>, key: T -> int)
    ensures multiset(SortDesc(xs, key)) == multiset(xs)
    ensures |SortDesc(xs, key)| == |xs|
  {
    if xs != [] {
      var x, rest := xs[0], xs[1..];
      SortDescPermutes(rest, key);
      InsertMultiset(x, SortDesc(rest, key), key);
      assert xs == [x] + rest;
    }
  }

  lemma {:induction false} SortDescSorted<T(!new)>(xs: seq<T>, key: T -> int)
    ensures SortedDesc(SortDesc(xs, key), key)
  {
    if xs != [] {
      SortDescSorted(xs[1..], key);
      InsertSorted(xs[0], SortDesc(xs[1..], key), key);
    }
  }

  /** ORDER BY ... DESC yields a non-increasing permutation of its input. */
  lemma SortDescCorrect<T(!new)>(xs: seq<T>, key: T -> int)
    ensures SortedDesc(SortDesc(xs, key), key)
    ensures multiset(SortDesc(xs, key)) == multiset(xs)
    ensures |SortDesc(xs, key)| == |xs|
  {
    SortDescSorted(xs, key);
    SortDescPermutes(xs, key);
  }

  lemma {:induction false} SortDescMembership<T(!new)>(xs: seq<T>, key: T -> int)
    ensures forall x :: x in SortDesc(xs, key) <==> x in xs
  {
    SortDescCorrect(xs, key);
    forall x
      ensures x in SortDesc(xs, key) <==> x in xs
    {
      assert x in SortDesc(xs, key) <==> x in multiset(SortDesc(xs, key));
      assert x in xs <==> x in multiset(xs);
    }
  }

  /** A property every input element has, every sorted element has. */
  lemma SortDescKeeps<T(!new)>(xs: seq<T>, key: T -> int, p: T -> bool)
    requires forall i :: 0 <= i < |xs| ==> p(xs[i])
    ensures forall i :: 0 <= i < |SortDesc(xs, key)| ==> p(SortDesc(xs, key)[i])
  {
    SortDescMembership(xs, key);
    var sorted := SortDesc(xs, key);
    forall i | 0 <= i < |sorted|
      ensures p(sorted[i])
    {
      assert sorted[i] in xs;
    }
  }

  /** In a non-increasing sequence no key exceeds the first one. */
  lemma HeadIsLargest<T(!new)>(s: seq<T>, key: T -> int, y: T)
    requires s != [] && SortedDesc(s, key) && y in s
    ensures key(y) <= key(s[0])
  {
    var m :| 0 <= m < |s| && s[m] == y;
    if m > 0 {
      assert key(s[0]) >= key(s[m]);
    }
  }

  /** An element with a smaller key is inserted behind a larger head. */
  lemma InsertPastHead<T(!new)>(x: T, y: T, s: seq<T>, key: T -> int)
    requires key(x) < key(y)
    ensures Insert(x, [y] + s, key) == [y] + Insert(x, s, key)
  {
    assert ([y] + s)[0] == y && ([y] + s)[1..] == s;
  }

  /** The filter of an insertion that passes the head is the head's filter
      followed by the filter of the insertion into the tail. */
  lemma FilterInsertSplit<T(!new)>(x: T, s: seq<T>, key: T -> int, p: T -> bool)
    requires s != [] && key(x) < key(s[0])
    ensures Filter(Insert(x, s, key), p)
         == (if p(s[0]) then [s[0]] else []) + Filter(Insert(x, s[1..], key), p)
    ensures Filter(s, p) == (if p(s[0]) then [s[0]] else []) + Filter(s[1..], p)
  {
    assert Insert(x, s, key) == [s[0]] + Insert(x, s[1..], key);
    FilterCons(s[0], Insert(x, s[1..], key), p);
    assert s == [s[0]] + s[1..];
    FilterCons(s[0], s[1..], p);
  }

  /** The filter of an insertion that passes the head, given the filter of the
      insertion into the tail. */
  lemma FilterInsertPastHead<T(!new)>(x: T, s: seq<T>, key: T -> int, p: T -> bool)
    requires s != [] && key(x) < key(s[0])
    requires Filter(Insert(x, s[1..], key), p)
          == if p(x) then Insert(x, Filter(s[1..], p), key) else Filter(s[1..], p)
    ensures Filter(Insert(x, s, key), p)
         == if p(x) then Insert(x, Filter(s, p), key) else Filter(s, p)
  {
    FilterInsertSplit(x, s, key, p);
    var fs := Filter(s[1..], p);
    if p(x) && p(s[0]) {
      InsertPastHead(x, s[0], fs, key);
    } else if p(x) {
      assert [] + fs == fs;
    }
  }

  /** Filtering an inserted sequence: the new element survives or not, the rest is filtered. */
  lemma {:induction false} FilterInsert<T(!new)>(x: T, s: seq<T>, key: T -> int, p: T -> bool)
    requires SortedDesc(s, key)
    ensures Filter(Insert(x, s, key), p)
         == if p(x) then Insert(x, Filter(s, p), key) else Filter(s, p)
  {
    if s == [] {
      FilterCons(x, s, p);
    } else if key(s[0]) <= key(x) {
      assert Insert(x, s, key) == [x] + s;
      FilterCons(x, s, p);
      var fs := Filter(s, p);
      if p(x) && fs != [] {
        FilterMembers(s, p);
        assert fs[0] in fs;
        HeadIsLargest(s, key, fs[0]);
        assert Insert(x, fs, key) == [x] + fs;
      }
    } else {
      SortedTail(s, key);
      FilterInsert(x, s[1..], key, p);
      FilterInsertPastHead(x, s, key, p);
    }
  }

  lemma {:induction false} SortedTail<T(!new)>(s: seq<T>, key: T -> int)
    requires s != [] && SortedDesc(s, key)
    ensures SortedDesc(s[1..], key)
  {
    forall i, j | 0 <= i < j < |s[1..]|
      ensures key(s[1..][i]) >= key(s[1..][j])
    {
      assert s[1..][i] == s[i + 1] && s[1..][j] == s[j + 1];
    }
  }

  lemma SortDescCons<T(!new)>(x: T, ys: seq<T>, key: T -> int)
    ensures SortDesc([x] + ys, key) == Insert(x, SortDesc(ys, key), key)
  {
    assert ([x] + ys)[0] == x && ([x] + ys)[1..] == ys;
  }

  /** Filtering commutes with the stable descending sort. */
  lemma {:induction false} FilterSortDesc<T(!new)>(xs: seq<T>, key: T -> int, p: T -> bool)
    ensures Filter(SortDesc(xs, key), p) == SortDesc(Filter(xs, p), key)
  {
    if xs != [] {
      var x, rest := xs[0], xs[1..];
      var fr := Filter(rest, p);
      FilterSortDesc(rest, key, p);
      SortDescSorted(rest, key);
      FilterInsert(x, SortDesc(rest, key), key, p);
      assert xs == [x] + rest;
      FilterCons(x, rest, p);
      if p(x) {
        assert Filter(xs, p) == [x] + fr;
        SortDescCons(x, fr, key);
      } else {
        assert Filter(xs, p) == fr;
      }
    }
  }
}
