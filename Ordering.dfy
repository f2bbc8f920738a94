/**
 * Python's ordering of `str` and `bytes` values (lexicographic by code point
 * or byte value, a proper prefix first) and its `sorted`, modelled as an
 * insertion sort.
 */
module Ordering {

  /** Python's `a <= b` on `str` (and, through `Base.byte`, on `bytes`). */
  predicate LexLe(a: string, b: string)
    decreases |a|
  {
    a == [] || (b != [] && (a[0] < b[0] || (a[0] == b[0] && LexLe(a[1..], b[1..]))))
  }

  lemma {:induction false} LexLeTotal(a: string, b: string)
    ensures LexLe(a, b) || LexLe(b, a)
    decreases |a|
  {
    if a != [] && b != [] && a[0] == b[0] {
      LexLeTotal(a[1..], b[1..]);
    }
  }

  lemma {:induction false} LexLeAntisymmetric(a: string, b: string)
    requires LexLe(a, b) && LexLe(b, a)
    ensures a == b
    decreases |a|
  {
    if a != [] {
      LexLeAntisymmetric(a[1..], b[1..]);
      assert a == [a[0]] + a[1..] && b == [b[0]] + b[1..];
    }
  }

  lemma {:induction false} LexLeTransitive(a: string, b: string, c: string)
    requires LexLe(a, b) && LexLe(b, c)
    ensures LexLe(a, c)
    decreases |a|
  {
    if a != [] && a[0] == b[0] && b[0] == c[0] {
      LexLeTransitive(a[1..], b[1..], c[1..]);
    }
  }

  ghost predicate Total<T(!new)>(le: (T, T) -> bool) {
    forall x, y :: le(x, y) || le(y, x)
  }

  ghost predicate Antisymmetric<T(!new)>(le: (T, T) -> bool) {
    forall x, y :: le(x, y) && le(y, x) ==> x == y
  }

  ghost predicate Transitive<T(!new)>(le: (T, T) -> bool) {
    forall x, y, z :: le(x, y) && le(y, z) ==> le(x, z)
  }

  /** `le` is a total order: what makes the sorted permutation unique. */
  ghost predicate TotalOrder<T(!new)>(le: (T, T) -> bool) {
    Total(le) && Antisymmetric(le) && Transitive(le)
  }

  /** The string order is a total order. */
  lemma LexLeIsTotalOrder()
    ensures TotalOrder(LexLe)
  {
    forall x, y ensures LexLe(x, y) || LexLe(y, x) {
      LexLeTotal(x, y);
    }
    forall x, y | LexLe(x, y) && LexLe(y, x) ensures x == y {
      LexLeAntisymmetric(x, y);
    }
    forall x, y, z | LexLe(x, y) && LexLe(y, z) ensures LexLe(x, z) {
      LexLeTransitive(x, y, z);
    }
  }

  /** Neighbouring elements are in order. */
  predicate Sorted<T>(s: seq<T>, le: (T, T) -> bool) {
    forall i :: 0 < i < |s| ==> le(s[i - 1], s[i])
  }

  /** Inserts `x` before the first element it is `le` to. */
  function Insert<T>(x: T, s: seq<T>, le: (T, T) -> bool): (r: seq<T>)
    ensures multiset(r) == multiset(s) + multiset{x}
    ensures |r| == |s| + 1
    ensures r[0] == x || (s != [] && r[0] == s[0])
    decreases |s|
  {
    if s == [] || le(x, s[0]) then [x] + s
    else
      assert s == [s[0]] + s[1..];
      [s[0]] + Insert(x, s[1..], le)
  }

  /**
   * Python's `sorted(s)` with comparison `le`, as an insertion sort: the
   * result is a permutation of `s`, sorted whenever `le` is total.
   */
  function Sort<T>(s: seq<T>, le: (T, T) -> bool): (r: seq<T>)
    ensures multiset(r) == multiset(s)
    ensures |r| == |s|
    decreases |s|
  {
    if s == [] then []
    else
      assert s == [s[0]] + s[1..];
      Insert(s[0], Sort(s[1..], le), le)
  }

  lemma {:induction false} InsertSorted<T(!new)>(x: T, s: seq<T>, le: (T, T) -> bool)
    requires Total(le) && Sorted(s, le)
    ensures Sorted(Insert(x, s, le), le)
    decreases |s|
  {
    if s != [] && !le(x, s[0]) {
      InsertSorted(x, s[1..], le);
      var t := Insert(x, s[1..], le);
      assert le(s[0], x);
      assert Insert(x, s, le) == [s[0]] + t;
    }
  }

  /** With a total comparison the result of `Sort` is sorted. */
  lemma {:induction false} SortSorted<T(!new)>(s: seq<T>, le: (T, T) -> bool)
    requires Total(le)
    ensures Sorted(Sort(s, le), le)
    decreases |s|
  {
    if s != [] {
      SortSorted(s[1..], le);
      InsertSorted(s[0], Sort(s[1..], le), le);
    }
  }

  /** With a transitive comparison, the first element of a sorted sequence is below all others. */
  lemma {:induction false} SortedHeadLeast<T(!new)>(s: seq<T>, le: (T, T) -> bool, j: int)
    requires Transitive(le) && Sorted(s, le)
    requires 0 < j < |s|
    ensures le(s[0], s[j])
    decreases j
  {
    if j > 1 {
      SortedHeadLeast(s, le, j - 1);
    }
  }

  /** With a transitive comparison, neighbourwise order gives order of every pair. */
  lemma SortedPairs<T(!new)>(s: seq<T>, le: (T, T) -> bool, i: int, j: int)
    requires Transitive(le) && Sorted(s, le)
    requires 0 <= i < j < |s|
    ensures le(s[i], s[j])
  {
    SortedHeadLeast(s[i..], le, j - i);
  }

  /** A sorted sequence stays sorted when an element no greater than its head is put in front. */
  lemma SortedCons<T>(x: T, s: seq<T>, le: (T, T) -> bool)
    requires Sorted(s, le)
    requires s != [] ==> le(x, s[0])
    ensures Sorted([x] + s, le)
  {
    var r := [x] + s;
    forall i | 0 < i < |r|
      ensures le(r[i - 1], r[i])
    {
      if i > 1 {
        assert r[i - 1] == s[i - 2] && r[i] == s[i - 1];
      }
    }
  }

  /** Dropping the head of a sequence removes one copy of it from the multiset. */
  lemma MultisetTail<T>(a: seq<T>)
    requires a != []
    ensures multiset(a[1..]) == multiset(a) - multiset{a[0]}
  {
    assert a == [a[0]] + a[1..];
  }

  /** A sorted sequence starts with an element that is `le` to every element. */
  lemma SortedHeadIsLeast<T(!new)>(a: seq<T>, le: (T, T) -> bool, x: T)
    requires Transitive(le) && Sorted(a, le)
    requires x in a && a[0] != x
    ensures le(a[0], x)
  {
    var i :| 0 <= i < |a| && a[i] == x;
    SortedHeadLeast(a, le, i);
  }

  /**
   * Under a total order there is only one sorted arrangement of a multiset,
   * so any correct sort (Python's Timsort included) gives `Sort`'s result.
   */
  lemma {:induction false} SortedUnique<T(!new)>(a: seq<T>, b: seq<T>, le: (T, T) -> bool)
    requires Antisymmetric(le) && Transitive(le)
    requires Sorted(a, le) && Sorted(b, le)
    requires multiset(a) == multiset(b)
    ensures a == b
    decreases |a|
  {
    assert |a| == |multiset(a)| == |multiset(b)| == |b|;
    if a != [] {
      assert b[0] in multiset(a) && a[0] in multiset(b);
      if a[0] != b[0] {
        SortedHeadIsLeast(a, le, b[0]);
        SortedHeadIsLeast(b, le, a[0]);
      }
      MultisetTail(a);
      MultisetTail(b);
      SortedUnique(a[1..], b[1..], le);
      assert a == [a[0]] + a[1..] && b == [b[0]] + b[1..];
    }
  }

  /** Sorting twice under a total order changes nothing. */
  lemma SortIdempotent<T(!new)>(s: seq<T>, le: (T, T) -> bool)
    requires TotalOrder(le)
    ensures Sort(Sort(s, le), le) == Sort(s, le)
  {
    SortSorted(s, le);
    SortSorted(Sort(s, le), le);
    SortedUnique(Sort(Sort(s, le), le), Sort(s, le), le);
  }

  /** Under a total order the sorted result depends only on the multiset of the input. */
  lemma SortDependsOnMultiset<T(!new)>(s: seq<T>, t: seq<T>, le: (T, T) -> bool)
    requires TotalOrder(le)
    requires multiset(s) == multiset(t)
    ensures Sort(s, le) == Sort(t, le)
  {
    SortSorted(s, le);
    SortSorted(t, le);
    SortedUnique(Sort(s, le), Sort(t, le), le);
  }
}
