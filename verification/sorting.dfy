/** `Array.prototype.sort` with a comparator that returns a number: the result
    lists `a` before `b` when `cmp(a, b) <= 0` would allow it. The sort in every
    current engine is stable, and for a consistent comparator a stable sort has
    exactly one possible result; stable insertion sort computes that result. */
module Sorting {

  /** A comparator the sort can rely on (a "consistent comparator"): swapping the
      arguments flips the sign of the answer, and "no later than" is transitive. */
  ghost predicate Consistent<T(!new)>(cmp: (T, T) -> int)
  {
    && (forall a, b :: Sign(cmp(a, b)) == -Sign(cmp(b, a)))
    && (forall a, b, c :: NoLater(cmp, a, b) && NoLater(cmp, b, c) ==> NoLater(cmp, a, c))
  }

  function Sign(n: int): int
  {
    if n < 0 then -1 else if n == 0 then 0 else 1
  }

  /** The comparator lets `a` come before `b`. */
  predicate NoLater<T>(cmp: (T, T) -> int, a: T, b: T)
  {
    cmp(a, b) <= 0
  }

  /** Every element is no later than each element after it. */
  predicate SortedBy<T>(s: seq<T>, cmp: (T, T) -> int)
  {
    forall i, j :: 0 <= i < j < |s| ==> NoLater(cmp, s[i], s[j])
  }

  /** Places `x` into `r` after every element that is no later than it,
      scanning from the end (so equal elements keep their order). */
  function Insert<T>(r: seq<T>, x: T, cmp: (T, T) -> int): (r': seq<T>)
    ensures |r'| == |r| + 1
    ensures multiset(r') == multiset(r) + multiset{x}
  {
    if |r| == 0 then [x]
    else if cmp(r[|r| - 1], x) <= 0 then r + [x]
    else
      var init := r[..|r| - 1];
      assert r == init + [r[|r| - 1]];
      Insert(init, x, cmp) + [r[|r| - 1]]
  }

  /** The sorted copy of `s`: a permutation of it (see `SortIsSorted` for the order). */
  function Sort<T>(s: seq<T>, cmp: (T, T) -> int): (r: seq<T>)
    ensures |r| == |s|
    ensures multiset(r) == multiset(s)
  {
    if |s| == 0 then []
    else
      var init := s[..|s| - 1];
      assert s == init + [s[|s| - 1]];
      Insert(Sort(init, cmp), s[|s| - 1], cmp)
  }

  /** Any two elements are ordered one way or the other. */
  lemma Total<T(!new)>(cmp: (T, T) -> int, a: T, b: T)
    requires Consistent(cmp)
    ensures NoLater(cmp, a, b) || NoLater(cmp, b, a)
  {
    assert Sign(cmp(a, b)) == -Sign(cmp(b, a));
  }

  /** The comparator written `(a, b) => -cmp(a, b)`, which sorts in the opposite order. */
  function Negated<T>(cmp: (T, T) -> int): (T, T) -> int
  {
    (a: T, b: T) => -cmp(a, b)
  }

  /** Negating a consistent comparator gives a consistent comparator. */
  lemma NegatedConsistent<T(!new)>(cmp: (T, T) -> int)
    requires Consistent(cmp)
    ensures Consistent(Negated(cmp))
  {
    var neg := Negated(cmp);
    forall a, b
      ensures Sign(neg(a, b)) == -Sign(neg(b, a))
    {
      assert Sign(cmp(a, b)) == -Sign(cmp(b, a));
    }
    forall a, b, c | NoLater(neg, a, b) && NoLater(neg, b, c)
      ensures NoLater(neg, a, c)
    {
      assert Sign(cmp(a, b)) == -Sign(cmp(b, a));
      assert Sign(cmp(b, c)) == -Sign(cmp(c, b));
      assert Sign(cmp(a, c)) == -Sign(cmp(c, a));
      assert NoLater(cmp, c, b) && NoLater(cmp, b, a);
    }
  }

  lemma {:induction false} InsertKeepsSorted<T(!new)>(r: seq<T>, x: T, cmp: (T, T) -> int)
    requires Consistent(cmp)
    requires SortedBy(r, cmp)
    ensures SortedBy(Insert(r, x, cmp), cmp)
  {
    if |r| > 0 {
      var last := r[|r| - 1];
      if NoLater(cmp, last, x) {
        var r' := r + [x];
        forall i, j | 0 <= i < j < |r'|
          ensures NoLater(cmp, r'[i], r'[j])
        {
          if j == |r| && i < |r| - 1 {
            assert NoLater(cmp, r[i], last);
          }
        }
      } else {
        var init := r[..|r| - 1];
        assert SortedBy(init, cmp);
        InsertKeepsSorted(init, x, cmp);
        var ins := Insert(init, x, cmp);
        Total(cmp, last, x);
        assert NoLater(cmp, x, last);
        forall y | y in multiset(ins)
          ensures NoLater(cmp, y, last)
        {
          assert y in multiset(init) || y == x;
          if y != x {
            assert y in init;
          }
        }
        var r' := ins + [last];
        forall i, j | 0 <= i < j < |r'|
          ensures NoLater(cmp, r'[i], r'[j])
        {
          if j == |ins| {
            assert r'[i] in multiset(ins);
          }
        }
      }
    }
  }

  /** The result of `Sort` is in order whenever the comparator is consistent. */
  lemma {:induction false} SortIsSorted<T(!new)>(s: seq<T>, cmp: (T, T) -> int)
    requires Consistent(cmp)
    ensures SortedBy(Sort(s, cmp), cmp)
  {
    if |s| > 0 {
      SortIsSorted(s[..|s| - 1], cmp);
      InsertKeepsSorted(Sort(s[..|s| - 1], cmp), s[|s| - 1], cmp);
    }
  }
}
