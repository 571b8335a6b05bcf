/** Sequence operations the pages use on their in-memory lists: JavaScript's
    `filter`, `map`, `findIndex`, `slice(0, n)`, a `reduce` sum, the distinct values
    of `new Set(...)` in insertion order, and the `Math.max(0, ...ids) + 1` id rule. */
module Collections {

  datatype Option<T> = None | Some(value: T)

  /** `s.filter(keep)`: the elements of `s` that satisfy `keep`, in their order. */
  function Filter<T(!new)>(s: seq<T>, keep: T -> bool): (r: seq<T>)
    ensures |r| <= |s|
    ensures forall i :: 0 <= i < |r| ==> keep(r[i])
  {
    if |s| == 0 then [] else (if keep(s[0]) then [s[0]] else []) + Filter(s[1..], keep)
  }

  /** The members of `s.filter(keep)` are exactly the members of `s` that satisfy `keep`. */
  lemma {:induction false} FilterMembers<T(!new)>(s: seq<T>, keep: T -> bool)
    ensures forall x :: x in Filter(s, keep) <==> x in s && keep(x)
  {
    if |s| > 0 {
      FilterMembers(s[1..], keep);
      assert s == [s[0]] + s[1..];
    }
  }

  /** Filtering keeps every copy of a kept value and no copy of a dropped one. */
  lemma {:induction false} FilterMultiplicity<T(!new)>(s: seq<T>, keep: T -> bool)
    ensures forall x :: multiset(Filter(s, keep))[x] == if keep(x) then multiset(s)[x] else 0
  {
    if |s| > 0 {
      FilterMultiplicity(s[1..], keep);
      assert s == [s[0]] + s[1..];
    }
  }

  /** Filtering out at least one element makes the sequence shorter. */
  lemma {:induction false} FilterDropsSome<T(!new)>(s: seq<T>, keep: T -> bool, x: T)
    requires x in s && !keep(x)
    ensures |Filter(s, keep)| < |s|
  {
    if s[0] != x {
      FilterDropsSome(s[1..], keep, x);
    }
  }

  /** `r` can be obtained from `s` by deleting elements (the order is kept). */
  predicate IsSubseq<T(==)>(r: seq<T>, s: seq<T>)
  {
    if |r| == 0 then true
    else if |s| == 0 then false
    else if r[0] == s[0] then IsSubseq(r[1..], s[1..])
    else IsSubseq(r, s[1..])
  }

  /** Filtering keeps the relative order of the elements it keeps. */
  lemma {:induction false} FilterIsSubseq<T(!new)>(s: seq<T>, keep: T -> bool)
    ensures IsSubseq(Filter(s, keep), s)
  {
    if |s| > 0 {
      FilterIsSubseq(s[1..], keep);
      var r := Filter(s, keep);
      if keep(s[0]) {
        assert r == [s[0]] + Filter(s[1..], keep);
        assert r[1..] == Filter(s[1..], keep);
      } else {
        assert r == Filter(s[1..], keep);
        if |r| > 0 {
          assert keep(r[0]);
          assert r[0] != s[0];
        }
      }
    }
  }

  /** A subsequence is never longer, and every element of it comes from the original. */
  lemma {:induction false} SubseqProperties<T>(r: seq<T>, s: seq<T>)
    requires IsSubseq(r, s)
    ensures |r| <= |s|
    ensures forall x :: x in r ==> x in s
  {
    if |r| > 0 {
      if r[0] == s[0] {
        SubseqProperties(r[1..], s[1..]);
        assert forall x :: x in r ==> x == r[0] || x in r[1..];
      } else {
        SubseqProperties(r, s[1..]);
      }
    }
  }

  /** Filtering a concatenation filters each part. */
  lemma {:induction false} FilterAppend<T(!new)>(a: seq<T>, b: seq<T>, keep: T -> bool)
    ensures Filter(a + b, keep) == Filter(a, keep) + Filter(b, keep)
  {
    if |a| > 0 {
      assert (a + b)[0] == a[0];
      assert (a + b)[1..] == a[1..] + b;
      FilterAppend(a[1..], b, keep);
      var h := if keep(a[0]) then [a[0]] else [];
      calc {
        Filter(a + b, keep);
        h + Filter(a[1..] + b, keep);
        h + (Filter(a[1..], keep) + Filter(b, keep));
        (h + Filter(a[1..], keep)) + Filter(b, keep);
      }
    } else {
      assert a + b == b;
    }
  }

  /** A filter that keeps every element is the identity. */
  lemma {:induction false} FilterKeepsAll<T(!new)>(s: seq<T>, keep: T -> bool)
    requires forall i :: 0 <= i < |s| ==> keep(s[i])
    ensures Filter(s, keep) == s
  {
    if |s| > 0 {
      FilterKeepsAll(s[1..], keep);
    }
  }

  /** A filter that drops exactly the element at `i` removes it and keeps the rest in order. */
  lemma {:induction false} FilterDropsOnly<T(!new)>(s: seq<T>, i: nat, keep: T -> bool)
    requires i < |s| && !keep(s[i])
    requires forall k :: 0 <= k < |s| && k != i ==> keep(s[k])
    ensures Filter(s, keep) == RemoveAt(s, i)
  {
    var before, after := s[..i], s[i + 1..];
    assert s == before + ([s[i]] + after);
    calc {
      Filter(s, keep);
      { FilterAppend(before, [s[i]] + after, keep); }
      Filter(before, keep) + Filter([s[i]] + after, keep);
      { FilterAppend([s[i]], after, keep); }
      Filter(before, keep) + Filter([s[i]], keep) + Filter(after, keep);
      { assert Filter([s[i]], keep) == [];
        FilterKeepsAll(before, keep);
        FilterKeepsAll(after, keep); }
      before + after;
    }
  }

  /** A filter that keeps no element is empty. */
  lemma {:induction false} FilterKeepsNone<T(!new)>(s: seq<T>, keep: T -> bool)
    requires forall i :: 0 <= i < |s| ==> !keep(s[i])
    ensures Filter(s, keep) == []
  {
    if |s| > 0 {
      FilterKeepsNone(s[1..], keep);
    }
  }

  /** Two filters that agree on every element of `s` give the same result. */
  lemma {:induction false} FilterCongruent<T(!new)>(s: seq<T>, p: T -> bool, q: T -> bool)
    requires forall i :: 0 <= i < |s| ==> p(s[i]) == q(s[i])
    ensures Filter(s, p) == Filter(s, q)
  {
    if |s| > 0 {
      FilterCongruent(s[1..], p, q);
    }
  }

  /** Filtering by a stronger condition can be done on the result of the weaker one. */
  lemma {:induction false} FilterStrengthen<T(!new)>(s: seq<T>, p: T -> bool, q: T -> bool)
    requires forall x :: p(x) ==> q(x)
    ensures Filter(s, p) == Filter(Filter(s, q), p)
  {
    if |s| > 0 {
      FilterStrengthen(s[1..], p, q);
      var rest := Filter(s[1..], q);
      var head := if p(s[0]) then [s[0]] else [];
      assert Filter(s, p) == head + Filter(s[1..], p);
      if q(s[0]) {
        assert Filter(s, q) == [s[0]] + rest;
        FilterAppend([s[0]], rest, p);
        assert [s[0]][1..] == [];
        assert Filter([s[0]], p) == head + Filter([], p);
      } else {
        assert Filter(s, q) == rest;
        assert head == [];
      }
    }
  }

  /** What a stronger condition keeps, a weaker one keeps too, in the same order. */
  lemma FilterStrongerIsSubseq<T(!new)>(s: seq<T>, p: T -> bool, q: T -> bool)
    requires forall x :: p(x) ==> q(x)
    ensures IsSubseq(Filter(s, p), Filter(s, q))
  {
    FilterStrengthen(s, p, q);
    FilterIsSubseq(Filter(s, q), p);
  }

  /** Counting by inclusion and exclusion: |p| + |q| == |p or q| + |p and q|. */
  lemma {:induction false} FilterCountInclusionExclusion<T(!new)>(s: seq<T>, p: T -> bool, q: T -> bool, pOrQ: T -> bool, pAndQ: T -> bool)
    requires forall x :: pOrQ(x) == (p(x) || q(x))
    requires forall x :: pAndQ(x) == (p(x) && q(x))
    ensures |Filter(s, p)| + |Filter(s, q)| == |Filter(s, pOrQ)| + |Filter(s, pAndQ)|
  {
    if |s| > 0 {
      FilterCountInclusionExclusion(s[1..], p, q, pOrQ, pAndQ);
    }
  }

  /** Filtering a sequence in which one position is replaced. */
  lemma {:induction false} FilterUpdate<T(!new)>(s: seq<T>, i: nat, x: T, keep: T -> bool)
    requires i < |s|
    ensures Filter(s[i := x], keep) == Filter(s[..i], keep) + Filter([x], keep) + Filter(s[i + 1..], keep)
    ensures Filter(s, keep) == Filter(s[..i], keep) + Filter([s[i]], keep) + Filter(s[i + 1..], keep)
  {
    assert s[i := x] == s[..i] + [x] + s[i + 1..];
    assert s == s[..i] + [s[i]] + s[i + 1..];
    FilterAppend(s[..i] + [x], s[i + 1..], keep);
    FilterAppend(s[..i], [x], keep);
    FilterAppend(s[..i] + [s[i]], s[i + 1..], keep);
    FilterAppend(s[..i], [s[i]], keep);
  }

  /** Replacing one element changes the length of the filtered sequence by whether
      the old element was kept and whether the new one is. */
  lemma FilterCountUpdate<T(!new)>(s: seq<T>, i: nat, x: T, keep: T -> bool)
    requires i < |s|
    ensures |Filter(s[i := x], keep)| + (if keep(s[i]) then 1 else 0)
         == |Filter(s, keep)| + (if keep(x) then 1 else 0)
  {
    FilterUpdate(s, i, x, keep);
    assert Filter([x], keep) == (if keep(x) then [x] else []) + Filter([], keep);
    assert Filter([s[i]], keep) == (if keep(s[i]) then [s[i]] else []) + Filter([], keep);
  }

  /** Filtering after replacing one element: the kept elements before it, the new
      element if it is kept, the kept elements after it. */
  lemma FilterUpdateSingle<T(!new)>(s: seq<T>, i: nat, x: T, keep: T -> bool)
    requires i < |s|
    ensures Filter(s[i := x], keep) == Filter(s[..i], keep) + (if keep(x) then [x] else []) + Filter(s[i + 1..], keep)
  {
    FilterUpdate(s, i, x, keep);
    assert Filter([x], keep) == (if keep(x) then [x] else []) + Filter([], keep);
  }

  /** `s.map(f)` */
  function MapSeq<T, U>(s: seq<T>, f: T -> U): (r: seq<U>)
    ensures |r| == |s|
    ensures forall i :: 0 <= i < |s| ==> r[i] == f(s[i])
  {
    seq(|s|, i requires 0 <= i < |s| => f(s[i]))
  }

  /** `s.findIndex(p)`: the first index whose element satisfies `p`, or -1. */
  function FindIndex<T>(s: seq<T>, p: T -> bool): (r: int)
    ensures -1 <= r < |s|
    ensures r == -1 <==> forall k :: 0 <= k < |s| ==> !p(s[k])
    ensures r != -1 ==> p(s[r]) && forall k :: 0 <= k < r ==> !p(s[k])
  {
    if |s| == 0 then -1
    else if p(s[0]) then 0
    else
      var k := FindIndex(s[1..], p);
      if k == -1 then -1 else k + 1
  }

  /** `s.slice(0, n)`: the first `n` elements, or all of them when there are fewer. */
  function Take<T>(s: seq<T>, n: nat): (r: seq<T>)
    ensures |r| <= n && |r| <= |s|
    ensures r <= s
    ensures |s| >= n ==> |r| == n
    ensures |s| < n ==> r == s
  {
    if |s| <= n then s else s[..n]
  }

  /** `s.reduce((sum, x) => sum + f(x), 0)` */
  function Sum<T>(s: seq<T>, f: T -> int): int
  {
    if |s| == 0 then 0 else f(s[0]) + Sum(s[1..], f)
  }

  /** The sum of a concatenation is the sum of the parts. */
  lemma {:induction false} SumAppend<T>(a: seq<T>, b: seq<T>, f: T -> int)
    ensures Sum(a + b, f) == Sum(a, f) + Sum(b, f)
  {
    if |a| > 0 {
      assert (a + b)[0] == a[0];
      assert (a + b)[1..] == a[1..] + b;
      SumAppend(a[1..], b, f);
    } else {
      assert a + b == b;
    }
  }

  /** Replacing one element changes the sum by the difference of the two values. */
  lemma SumUpdate<T>(s: seq<T>, i: nat, x: T, f: T -> int)
    requires i < |s|
    ensures Sum(s[i := x], f) == Sum(s, f) - f(s[i]) + f(x)
  {
    assert s[i := x] == s[..i] + [x] + s[i + 1..];
    assert s == s[..i] + [s[i]] + s[i + 1..];
    SumAppend(s[..i] + [x], s[i + 1..], f);
    SumAppend(s[..i], [x], f);
    SumAppend(s[..i] + [s[i]], s[i + 1..], f);
    SumAppend(s[..i], [s[i]], f);
  }

  /** Over values without duplicates, adding one to the term of `x` adds one to the
      sum exactly when `x` is among the values. */
  lemma {:induction false} SumIndicator<T>(ks: seq<T>, f: T -> int, g: T -> int, x: T)
    requires NoDuplicates(ks)
    requires forall k :: g(k) == f(k) + (if k == x then 1 else 0)
    ensures Sum(ks, g) == Sum(ks, f) + (if x in ks then 1 else 0)
  {
    if |ks| > 0 {
      assert NoDuplicates(ks[1..]);
      SumIndicator(ks[1..], f, g, x);
      assert x in ks <==> x == ks[0] || x in ks[1..];
      if x == ks[0] {
        assert x !in ks[1..];
      }
    }
  }

  /** A sum of non-negative terms is non-negative. */
  lemma {:induction false} SumNonNegative<T>(s: seq<T>, f: T -> int)
    requires forall i :: 0 <= i < |s| ==> f(s[i]) >= 0
    ensures Sum(s, f) >= 0
  {
    if |s| > 0 {
      SumNonNegative(s[1..], f);
    }
  }

  /** Leaving out non-negative terms can only lower a sum. */
  lemma {:induction false} SumFilterAtMost<T(!new)>(s: seq<T>, keep: T -> bool, f: T -> int)
    requires forall i :: 0 <= i < |s| ==> f(s[i]) >= 0
    ensures Sum(Filter(s, keep), f) <= Sum(s, f)
  {
    if |s| > 0 {
      var head: seq<T> := if keep(s[0]) then [s[0]] else [];
      SumFilterAtMost(s[1..], keep, f);
      SumAppend(head, Filter(s[1..], keep), f);
    }
  }

  /** No value occurs twice. */
  predicate NoDuplicates<T(==)>(s: seq<T>)
  {
    forall i, j :: 0 <= i < j < |s| ==> s[i] != s[j]
  }

  /** A value occurs at most once in a sequence without duplicates. */
  lemma {:induction false} NoDuplicatesCount<T>(s: seq<T>, x: T)
    requires NoDuplicates(s)
    ensures multiset(s)[x] <= 1
  {
    if |s| > 0 {
      assert s == [s[0]] + s[1..];
      assert NoDuplicates(s[1..]);
      NoDuplicatesCount(s[1..], x);
      if s[0] == x {
        assert x !in s[1..];
      }
    }
  }

  /** Rearranging a sequence without duplicates gives one without duplicates. */
  lemma PermutationKeepsNoDuplicates<T>(a: seq<T>, b: seq<T>)
    requires multiset(a) == multiset(b)
    requires NoDuplicates(a)
    ensures NoDuplicates(b)
  {
    forall i, j | 0 <= i < j < |b|
      ensures b[i] != b[j]
    {
      var x := b[i];
      assert b == b[..j] + [b[j]] + b[j + 1..];
      assert x in b[..j];
      NoDuplicatesCount(a, x);
    }
  }

  /** A prefix one longer is the prefix with the next element appended. */
  lemma PrefixSnoc<T>(s: seq<T>, i: nat)
    requires i < |s|
    ensures s[..i + 1] == s[..i] + [s[i]]
  {
  }

  /** `s` without the element at position `i`. */
  function RemoveAt<T>(s: seq<T>, i: nat): (r: seq<T>)
    requires i < |s|
    ensures |r| == |s| - 1
    ensures forall k :: 0 <= k < i ==> r[k] == s[k]
    ensures forall k :: i <= k < |r| ==> r[k] == s[k + 1]
    ensures multiset(r) + multiset{s[i]} == multiset(s)
  {
    assert s == s[..i] + [s[i]] + s[i + 1..];
    s[..i] + s[i + 1..]
  }

  /** `s` with `x` inserted before position `i` (`s.splice(i, 0, x)` for `i <= |s|`). */
  function InsertAt<T>(s: seq<T>, i: nat, x: T): (r: seq<T>)
    requires i <= |s|
    ensures |r| == |s| + 1
    ensures r[i] == x
    ensures forall k :: 0 <= k < i ==> r[k] == s[k]
    ensures forall k :: i < k < |r| ==> r[k] == s[k - 1]
    ensures multiset(r) == multiset(s) + multiset{x}
  {
    assert s == s[..i] + s[i..];
    s[..i] + [x] + s[i..]
  }

  /** Moving the element at `j` forward to `i` leaves, after it, the old tail from
      `i` with that element taken out. */
  lemma MoveForwardTail<T>(s: seq<T>, j: nat, i: nat)
    requires i <= j < |s|
    ensures InsertAt(RemoveAt(s, j), i, s[j])[i + 1..] == RemoveAt(s[i..], j - i)
  {
    var moved := InsertAt(RemoveAt(s, j), i, s[j]);
    var removed := RemoveAt(s, j);
    forall n | i + 1 <= n < |moved|
      ensures moved[n] == RemoveAt(s[i..], j - i)[n - i - 1]
    {
      assert moved[n] == removed[n - 1];
    }
  }

  /** The values of `[...new Set(s)]`: each distinct value once, in order of first occurrence. */
  function Distinct<T(==,!new)>(s: seq<T>): (r: seq<T>)
    ensures forall x :: x in r <==> x in s
    ensures NoDuplicates(r)
    ensures |r| <= |s|
  {
    if |s| == 0 then []
    else
      var d := Distinct(s[..|s| - 1]);
      var last := s[|s| - 1];
      assert forall x :: x in s <==> x in s[..|s| - 1] || x == last;
      if last in d then d else d + [last]
  }

  /** The index of the first occurrence of `x` in `s` (which contains it). */
  function FirstIndex<T(==)>(s: seq<T>, x: T): (k: nat)
    requires x in s
    ensures k < |s| && s[k] == x && x !in s[..k]
  {
    if s[0] == x then 0 else 1 + FirstIndex(s[1..], x)
  }

  lemma {:induction false} FirstIndexInPrefix<T>(s: seq<T>, n: nat, x: T)
    requires n <= |s| && x in s[..n]
    ensures FirstIndex(s, x) == FirstIndex(s[..n], x)
  {
    if s[0] != x {
      assert s[..n][1..] == s[1..][..n - 1];
      FirstIndexInPrefix(s[1..], n - 1, x);
    }
  }

  /** `Distinct` lists the values in the order in which they first occur in `s`. */
  lemma {:induction false} DistinctInFirstOccurrenceOrder<T(!new)>(s: seq<T>)
    ensures forall i, j :: 0 <= i < j < |Distinct(s)| ==>
      FirstIndex(s, Distinct(s)[i]) < FirstIndex(s, Distinct(s)[j])
  {
    if |s| > 0 {
      var init := s[..|s| - 1];
      var d := Distinct(init);
      var r := Distinct(s);
      DistinctInFirstOccurrenceOrder(init);
      forall x | x in d
        ensures FirstIndex(s, x) == FirstIndex(init, x) && FirstIndex(s, x) < |s| - 1
      {
        FirstIndexInPrefix(s, |s| - 1, x);
      }
      forall i, j | 0 <= i < j < |r|
        ensures FirstIndex(s, r[i]) < FirstIndex(s, r[j])
      {
        assert r[i] in d;
        if j < |d| {
          assert r[j] in d;
        } else {
          assert r[j] == s[|s| - 1] && r[j] !in init;
        }
      }
    }
  }

  /** `[first, ...new Set(s)]`: a leading choice such as "all", then each value of
      `s` once. */
  function Choices<T(==,!new)>(first: T, s: seq<T>): (r: seq<T>)
    ensures |r| >= 1 && r[0] == first
    ensures forall x :: x in r[1..] <==> x in s
    ensures NoDuplicates(r[1..])
  {
    assert ([first] + Distinct(s))[1..] == Distinct(s);
    [first] + Distinct(s)
  }

  /** The list has no repeated entry unless `first` is itself one of the values. */
  lemma ChoicesNoDuplicates<T(!new)>(first: T, s: seq<T>)
    ensures NoDuplicates(Choices(first, s)) <==> first !in s
  {
    var r := Choices(first, s);
    if first !in s {
      forall i, j | 0 <= i < j < |r|
        ensures r[i] != r[j]
      {
        assert r[j] in r[1..];
        if i > 0 {
          assert r[i] == r[1..][i - 1] && r[j] == r[1..][j - 1];
        }
      }
    } else {
      assert first in r[1..];
      var j :| 0 <= j < |r[1..]| && r[1..][j] == first;
      assert r[0] == r[j + 1];
    }
  }

  /** `Math.max(0, ...ids)` */
  function MaxOr0(ids: seq<int>): (m: int)
    ensures m >= 0
    ensures forall i :: 0 <= i < |ids| ==> ids[i] <= m
    ensures m == 0 || m in ids
  {
    if |ids| == 0 then 0
    else
      var rest := MaxOr0(ids[1..]);
      if ids[0] > rest then ids[0] else rest
  }

  /** `Math.max(0, ...ids) + 1`: a positive id that no existing item carries. */
  function NextId(ids: seq<int>): (n: int)
    ensures n >= 1
    ensures n !in ids
    ensures forall i :: 0 <= i < |ids| ==> ids[i] < n
  {
    MaxOr0(ids) + 1
  }
}
