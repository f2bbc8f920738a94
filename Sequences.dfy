/**
 * The sequence operations the source uses on `bytes` and `str`:
 * `split` on a one-element separator, `join`, `replace`, and the second
 * field of a `split` on a longer separator.
 */
module Sequences {
  import opened Base

  /**
   * Python's `s.split(sep)` for a separator of length one: the maximal runs
   * between separators, so `n` separators give `n + 1` pieces (possibly empty).
   */
  function Split<T(==)>(s: seq<T>, sep: T): (r: seq<seq<T>>)
    ensures |r| >= 1
    ensures forall i :: 0 <= i < |r| ==> sep !in r[i]
    decreases |s|
  {
    if s == [] then [[]]
    else
      var rest := Split(s[1..], sep);
      if s[0] == sep then [[]] + rest
      else [[s[0]] + rest[0]] + rest[1..]
  }

  /** Python's `sep.join(xs)`. */
  function Join<T>(xs: seq<seq<T>>, sep: T): seq<T>
    decreases |xs|
  {
    if xs == [] then []
    else if |xs| == 1 then xs[0]
    else xs[0] + [sep] + Join(xs[1..], sep)
  }

  /** Python's `s.replace(x, with)` for a pattern of length one. */
  function ReplaceAll<T(==)>(s: seq<T>, x: T, with: seq<T>): (r: seq<T>)
    ensures x !in with ==> x !in r
    ensures x !in s ==> r == s
    decreases |s|
  {
    if s == [] then []
    else (if s[0] == x then with else [s[0]]) + ReplaceAll(s[1..], x, with)
  }

  /** Joining the pieces of a split with the same separator gives the input back. */
  lemma {:induction false} JoinSplit<T>(s: seq<T>, sep: T)
    ensures Join(Split(s, sep), sep) == s
    decreases |s|
  {
    if s != [] {
      var rest := Split(s[1..], sep);
      JoinSplit(s[1..], sep);
      if s[0] == sep {
        assert Split(s, sep) == [[]] + rest;
        assert Join([[]] + rest, sep) == [] + [sep] + Join(rest, sep);
      } else if |rest| == 1 {
        assert Split(s, sep) == [[s[0]] + rest[0]];
      } else {
        var xs := [[s[0]] + rest[0]] + rest[1..];
        assert Split(s, sep) == xs;
        assert xs[1..] == rest[1..];
        assert Join(rest, sep) == rest[0] + [sep] + Join(rest[1..], sep);
      }
    }
  }

  /** A piece free of separators splits to itself. */
  lemma {:induction false} SplitWithoutSeparator<T>(x: seq<T>, sep: T)
    requires sep !in x
    ensures Split(x, sep) == [x]
    decreases |x|
  {
    if x != [] {
      SplitWithoutSeparator(x[1..], sep);
      assert [x[0]] + x[1..] == x;
    }
  }

  /** Splitting `x + [sep] + t` yields `x` followed by the pieces of `t`. */
  lemma {:induction false} SplitAfterPiece<T>(x: seq<T>, sep: T, t: seq<T>)
    requires sep !in x
    ensures Split(x + [sep] + t, sep) == [x] + Split(t, sep)
    decreases |x|
  {
    if x == [] {
      assert ([] + [sep] + t)[1..] == t;
    } else {
      assert (x + [sep] + t)[1..] == x[1..] + [sep] + t;
      SplitAfterPiece(x[1..], sep, t);
      assert [x[0]] + x[1..] == x;
    }
  }

  /**
   * Splitting a join gives the pieces back, provided there is at least one
   * piece and no piece contains the separator.
   */
  lemma {:induction false} SplitJoin<T>(xs: seq<seq<T>>, sep: T)
    requires |xs| >= 1
    requires forall i :: 0 <= i < |xs| ==> sep !in xs[i]
    ensures Split(Join(xs, sep), sep) == xs
    decreases |xs|
  {
    if |xs| == 1 {
      SplitWithoutSeparator(xs[0], sep);
    } else {
      SplitJoin(xs[1..], sep);
      SplitAfterPiece(xs[0], sep, Join(xs[1..], sep));
      assert [xs[0]] + xs[1..] == xs;
    }
  }

  /** An element outside all pieces and different from the separator is outside the join. */
  lemma {:induction false} JoinExcludes<T>(xs: seq<seq<T>>, sep: T, x: T)
    requires x != sep
    requires forall i :: 0 <= i < |xs| ==> x !in xs[i]
    ensures x !in Join(xs, sep)
    decreases |xs|
  {
    if |xs| > 1 {
      JoinExcludes(xs[1..], sep, x);
    }
  }

  /** An element of some piece is an element of the join. */
  lemma {:induction false} JoinIncludes<T>(xs: seq<seq<T>>, sep: T, i: int, x: T)
    requires 0 <= i < |xs| && x in xs[i]
    ensures x in Join(xs, sep)
    decreases |xs|
  {
    if |xs| > 1 && i > 0 {
      JoinIncludes(xs[1..], sep, i - 1, x);
    }
  }

  /** Whether `sep` occurs in `s` starting at position `k`. */
  predicate OccursAt<T(==)>(s: seq<T>, sep: seq<T>, k: int) {
    0 <= k && k + |sep| <= |s| && s[k..k + |sep|] == sep
  }

  /** Python's `s.find(sep, k)`: the first position from `k` on where `sep` occurs. */
  function FindFrom<T(==)>(s: seq<T>, sep: seq<T>, k: nat): (r: Option<nat>)
    ensures r.Some? ==> k <= r.value && OccursAt(s, sep, r.value)
    ensures r.Some? ==> forall m :: k <= m < r.value ==> !OccursAt(s, sep, m)
    ensures r.None? ==> forall m :: k <= m ==> !OccursAt(s, sep, m)
    decreases |s| - k
  {
    if k + |sep| > |s| then None
    else if s[k..k + |sep|] == sep then Some(k)
    else FindFrom(s, sep, k + 1)
  }

  /**
   * Python's `s.split(sep)[1]`: the text between the first and the second
   * occurrence of `sep` (or the end).  `None` stands for the `ValueError`
   * of an empty separator and for the `IndexError` when `sep` does not
   * occur.
   */
  function SecondField<T(==)>(s: seq<T>, sep: seq<T>): (r: Option<seq<T>>)
    ensures r.Some? <==> sep != [] && FindFrom(s, sep, 0).Some?
    ensures r.Some? ==>
      var rest := s[FindFrom(s, sep, 0).value + |sep|..];
      && r.value <= rest
      && (forall m :: 0 <= m < |r.value| ==> !OccursAt(rest, sep, m))
      && (|r.value| == |rest| || OccursAt(rest, sep, |r.value|))
  {
    if sep == [] then None
    else
      match FindFrom(s, sep, 0)
      case None => None
      case Some(i) =>
        var rest := s[i + |sep|..];
        match FindFrom(rest, sep, 0)
        case None => Some(rest)
        case Some(j) => Some(rest[..j])
  }

  /** A separator followed by text in which it does not occur splits into that text. */
  lemma SecondFieldAfterSeparator<T>(sep: seq<T>, t: seq<T>)
    requires sep != []
    requires forall m :: !OccursAt(t, sep, m)
    ensures SecondField(sep + t, sep) == Some(t)
  {
    var s := sep + t;
    assert OccursAt(s, sep, 0);
    assert s[|sep|..] == t;
  }
}
