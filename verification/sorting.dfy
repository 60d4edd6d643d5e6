/**
 * Stable sorting by a comparator in the style of `Array.prototype.sort`: `cmp(a, b) < 0`
 * puts `a` first, `cmp(a, b) > 0` puts `b` first, and `0` is a tie that a stable sort
 * resolves by the input order.
 *
 * The sort is defined as insertion sort, and `StableSortUnique` shows that every stable
 * sort (TimSort included) must return the same sequence, so the choice of algorithm does
 * not matter.
 */
module Sorting {
  import opened Seqs

  /** Swapping the arguments flips the sign of the comparison. */
  ghost predicate AntisymmetricAt<T>(cmp: (T, T) -> int, a: T, b: T) {
    cmp(a, b) < 0 <==> cmp(b, a) > 0
  }

  /** "May stand before" is transitive through `b`. */
  ghost predicate TransitiveAt<T>(cmp: (T, T) -> int, a: T, b: T, c: T) {
    cmp(a, b) <= 0 && cmp(b, c) <= 0 ==> cmp(a, c) <= 0
  }

  /** The comparator is consistent, as `Array.prototype.sort` requires of it. */
  ghost predicate Consistent<T(!new)>(cmp: (T, T) -> int) {
    && (forall a, b :: AntisymmetricAt(cmp, a, b))
    && (forall a, b, c :: TransitiveAt(cmp, a, b, c))
  }

  /** Every element may stand before every later one. */
  ghost predicate Sorted<T>(cmp: (T, T) -> int, s: seq<T>) {
    forall i, j :: 0 <= i < j < |s| ==> cmp(s[i], s[j]) <= 0
  }

  /** The elements of `s` that tie with `k`, in their order in `s`. */
  function Run<T(!new)>(cmp: (T, T) -> int, s: seq<T>, k: T): seq<T> {
    Filter(s, Ties(cmp, k))
  }

  /** The test "ties with `k`". */
  function Ties<T>(cmp: (T, T) -> int, k: T): T -> bool {
    y => cmp(y, k) == 0
  }

  /** `out` is `input` sorted by `cmp`, with ties kept in their input order. */
  ghost predicate IsStableSortOf<T(!new)>(cmp: (T, T) -> int, out: seq<T>, input: seq<T>) {
    && Sorted(cmp, out)
    && multiset(out) == multiset(input)
    && forall k :: Run(cmp, out, k) == Run(cmp, input, k)
  }

  /** Places `x` before the first element it may precede. */
  function Insert<T>(cmp: (T, T) -> int, x: T, s: seq<T>): (r: seq<T>)
    ensures |r| == |s| + 1
    ensures multiset(r) == multiset(s) + multiset{x}
    decreases |s|
  {
    if |s| == 0 then [x]
    else if cmp(x, s[0]) <= 0 then [x] + s
    else
      assert s == [s[0]] + s[1..];
      [s[0]] + Insert(cmp, x, s[1..])
  }

  /** Insertion sort. */
  function SortBy<T>(cmp: (T, T) -> int, s: seq<T>): (r: seq<T>)
    ensures |r| == |s|
    ensures multiset(r) == multiset(s)
    decreases |s|
  {
    if |s| == 0 then []
    else
      assert s == [s[0]] + s[1..];
      Insert(cmp, s[0], SortBy(cmp, s[1..]))
  }

  lemma Antisymmetric<T(!new)>(cmp: (T, T) -> int, a: T, b: T)
    requires Consistent(cmp)
    ensures cmp(a, b) < 0 <==> cmp(b, a) > 0
    ensures cmp(a, b) == 0 <==> cmp(b, a) == 0
  {
    assert AntisymmetricAt(cmp, a, b);
    assert AntisymmetricAt(cmp, b, a);
  }

  lemma Reflexive<T(!new)>(cmp: (T, T) -> int, a: T)
    requires Consistent(cmp)
    ensures cmp(a, a) == 0
  {
    assert AntisymmetricAt(cmp, a, a);
  }

  lemma Transitive<T(!new)>(cmp: (T, T) -> int, a: T, b: T, c: T)
    requires Consistent(cmp)
    requires cmp(a, b) <= 0 && cmp(b, c) <= 0
    ensures cmp(a, c) <= 0
  {
    assert TransitiveAt(cmp, a, b, c);
  }

  /** An element that may precede every element of a sorted sequence may head it. */
  lemma SortedCons<T>(cmp: (T, T) -> int, y: T, t: seq<T>)
    requires Sorted(cmp, t)
    requires forall i :: 0 <= i < |t| ==> cmp(y, t[i]) <= 0
    ensures Sorted(cmp, [y] + t)
  {
    var r := [y] + t;
    forall i, j | 0 <= i < j < |r|
      ensures cmp(r[i], r[j]) <= 0
    {
      assert r[j] == t[j - 1];
      if i > 0 {
        assert r[i] == t[i - 1];
      }
    }
  }

  /** A lower bound of `x` and of all of `s` is a lower bound of all of `Insert(x, s)`. */
  lemma {:induction false} InsertLowerBound<T>(cmp: (T, T) -> int, x: T, s: seq<T>, y: T)
    requires cmp(y, x) <= 0
    requires forall i :: 0 <= i < |s| ==> cmp(y, s[i]) <= 0
    ensures forall i :: 0 <= i < |s| + 1 ==> cmp(y, Insert(cmp, x, s)[i]) <= 0
    decreases |s|
  {
    if |s| > 0 && cmp(x, s[0]) > 0 {
      InsertLowerBound(cmp, x, s[1..], y);
      var t := Insert(cmp, x, s[1..]);
      assert Insert(cmp, x, s) == [s[0]] + t;
    }
  }

  lemma {:induction false} InsertSorted<T(!new)>(cmp: (T, T) -> int, x: T, s: seq<T>)
    requires Consistent(cmp)
    requires Sorted(cmp, s)
    ensures Sorted(cmp, Insert(cmp, x, s))
    decreases |s|
  {
    if |s| > 0 {
      if cmp(x, s[0]) <= 0 {
        forall i | 0 <= i < |s|
          ensures cmp(x, s[i]) <= 0
        {
          if i > 0 {
            Transitive(cmp, x, s[0], s[i]);
          }
        }
        SortedCons(cmp, x, s);
      } else {
        var t := Insert(cmp, x, s[1..]);
        InsertSorted(cmp, x, s[1..]);
        Antisymmetric(cmp, x, s[0]);
        InsertLowerBound(cmp, x, s[1..], s[0]);
        SortedCons(cmp, s[0], t);
      }
    }
  }

  /** Runs distribute over concatenation. */
  lemma RunAppend<T(!new)>(cmp: (T, T) -> int, a: seq<T>, b: seq<T>, k: T)
    ensures Run(cmp, a + b, k) == Run(cmp, a, k) + Run(cmp, b, k)
  {
    FilterAppend(a, b, Ties(cmp, k));
  }

  lemma SortedTail<T>(cmp: (T, T) -> int, s: seq<T>)
    requires |s| > 0 && Sorted(cmp, s)
    ensures Sorted(cmp, s[1..])
  {
  }

  /** The run of `[y] + t`: `y` if it ties, then the run of `t`. */
  lemma RunPrepend<T(!new)>(cmp: (T, T) -> int, y: T, t: seq<T>, k: T)
    ensures Run(cmp, [y] + t, k) == (if cmp(y, k) == 0 then [y] else []) + Run(cmp, t, k)
  {
    assert ([y] + t)[1..] == t;
  }

  /**
   * Moving `x` behind an element it does not tie with keeps every run: at most one of the
   * two ties with any `k`.
   */
  lemma SwapPastNonTie<T(!new)>(cmp: (T, T) -> int, x: T, head: T, rest: seq<T>, t: seq<T>, k: T)
    requires Consistent(cmp)
    requires cmp(x, head) > 0
    requires Run(cmp, t, k) == Run(cmp, [x] + rest, k)
    ensures Run(cmp, [head] + t, k) == Run(cmp, [x] + ([head] + rest), k)
  {
    if cmp(x, k) == 0 && cmp(head, k) == 0 {
      Antisymmetric(cmp, head, k);
      Transitive(cmp, x, k, head);
      assert false;
    }
    var tieX := if cmp(x, k) == 0 then [x] else [];
    var tieHead := if cmp(head, k) == 0 then [head] else [];
    RunPrepend(cmp, head, t, k);
    RunPrepend(cmp, x, rest, k);
    RunPrepend(cmp, head, rest, k);
    RunPrepend(cmp, x, [head] + rest, k);
    assert tieHead + tieX == tieX + tieHead;
    assert tieHead + (tieX + Run(cmp, rest, k)) == tieX + (tieHead + Run(cmp, rest, k));
  }

  /** Insertion keeps `x` ahead of every element it ties with. */
  lemma {:induction false} InsertStable<T(!new)>(cmp: (T, T) -> int, x: T, s: seq<T>, k: T)
    requires Consistent(cmp)
    requires Sorted(cmp, s)
    ensures Run(cmp, Insert(cmp, x, s), k) == Run(cmp, [x] + s, k)
    decreases |s|
  {
    if |s| > 0 && cmp(x, s[0]) > 0 {
      var head, rest := s[0], s[1..];
      var t := Insert(cmp, x, rest);
      assert Insert(cmp, x, s) == [head] + t;
      assert s == [head] + rest;
      SortedTail(cmp, s);
      InsertStable(cmp, x, rest, k);
      SwapPastNonTie(cmp, x, head, rest, t, k);
    }
  }

  /** Insertion sort is a stable sort. */
  lemma {:induction false} SortByIsStableSort<T(!new)>(cmp: (T, T) -> int, s: seq<T>)
    requires Consistent(cmp)
    ensures IsStableSortOf(cmp, SortBy(cmp, s), s)
    decreases |s|
  {
    if |s| > 0 {
      var t := SortBy(cmp, s[1..]);
      SortByIsStableSort(cmp, s[1..]);
      InsertSorted(cmp, s[0], t);
      forall k
        ensures Run(cmp, SortBy(cmp, s), k) == Run(cmp, s, k)
      {
        InsertStable(cmp, s[0], t, k);
        RunPrepend(cmp, s[0], t, k);
        RunPrepend(cmp, s[0], s[1..], k);
        assert s == [s[0]] + s[1..];
      }
    }
  }

  /** The run of a non-empty sequence, split at its head. */
  lemma RunCons<T(!new)>(cmp: (T, T) -> int, s: seq<T>, k: T)
    requires |s| > 0
    ensures Run(cmp, s, k) == (if cmp(s[0], k) == 0 then [s[0]] else []) + Run(cmp, s[1..], k)
  {
  }

  /** The head of a sequence ties with itself, so its run is not empty. */
  lemma HeadRunNonEmpty<T(!new)>(cmp: (T, T) -> int, s: seq<T>)
    requires Consistent(cmp)
    requires |s| > 0
    ensures |Run(cmp, s, s[0])| > 0
  {
    Reflexive(cmp, s[0]);
    RunCons(cmp, s, s[0]);
  }

  /** If `a`'s head occurs among `b`'s ties, `b`'s head may precede it. */
  lemma HeadPrecedes<T(!new)>(cmp: (T, T) -> int, a: seq<T>, b: seq<T>)
    requires Consistent(cmp)
    requires |a| > 0 && |b| > 0 && Sorted(cmp, b)
    requires Run(cmp, a, a[0]) == Run(cmp, b, a[0])
    ensures cmp(b[0], a[0]) <= 0
  {
    Reflexive(cmp, a[0]);
    RunCons(cmp, a, a[0]);
    FilterMembers(b, Ties(cmp, a[0]));
    assert a[0] in Run(cmp, b, a[0]);
    var j :| 0 <= j < |b| && b[j] == a[0];
    if j > 0 {
      assert cmp(b[0], b[j]) <= 0;
    }
  }

  /** Sorted sequences with the same runs start with the same element. */
  lemma SameHead<T(!new)>(cmp: (T, T) -> int, a: seq<T>, b: seq<T>)
    requires Consistent(cmp)
    requires |a| > 0 && |b| > 0 && Sorted(cmp, a) && Sorted(cmp, b)
    requires Run(cmp, a, a[0]) == Run(cmp, b, a[0])
    requires Run(cmp, a, b[0]) == Run(cmp, b, b[0])
    ensures a[0] == b[0]
  {
    HeadPrecedes(cmp, a, b);
    HeadPrecedes(cmp, b, a);
    Antisymmetric(cmp, a[0], b[0]);
    Reflexive(cmp, a[0]);
    RunCons(cmp, a, a[0]);
    RunCons(cmp, b, a[0]);
    assert a[0] == Run(cmp, a, a[0])[0] == Run(cmp, b, a[0])[0] == b[0];
  }

  /** Equal heads and equal runs leave equal runs for the tails. */
  lemma TailRuns<T(!new)>(cmp: (T, T) -> int, a: seq<T>, b: seq<T>, k: T)
    requires |a| > 0 && |b| > 0 && a[0] == b[0]
    requires Run(cmp, a, k) == Run(cmp, b, k)
    ensures Run(cmp, a[1..], k) == Run(cmp, b[1..], k)
  {
    var head := if cmp(a[0], k) == 0 then [a[0]] else [];
    RunCons(cmp, a, k);
    RunCons(cmp, b, k);
    assert Run(cmp, a[1..], k) == Run(cmp, a, k)[|head|..];
    assert Run(cmp, b[1..], k) == Run(cmp, b, k)[|head|..];
  }

  /** Two sorted sequences with the same ties in the same order are equal. */
  lemma {:induction false} SortedSameRunsEqual<T(!new)>(cmp: (T, T) -> int, a: seq<T>, b: seq<T>)
    requires Consistent(cmp)
    requires Sorted(cmp, a) && Sorted(cmp, b)
    requires forall k :: Run(cmp, a, k) == Run(cmp, b, k)
    ensures a == b
    decreases |a| + |b|
  {
    if |b| > 0 {
      HeadRunNonEmpty(cmp, b);
      assert |Run(cmp, a, b[0])| > 0;
    }
    if |a| > 0 {
      HeadRunNonEmpty(cmp, a);
      assert |Run(cmp, b, a[0])| > 0;
    }
    if |a| > 0 && |b| > 0 {
      SameHead(cmp, a, b);
      forall k
        ensures Run(cmp, a[1..], k) == Run(cmp, b[1..], k)
      {
        TailRuns(cmp, a, b, k);
      }
      SortedTail(cmp, a);
      SortedTail(cmp, b);
      SortedSameRunsEqual(cmp, a[1..], b[1..]);
      assert a == [a[0]] + a[1..] && b == [b[0]] + b[1..];
    }
  }

  /** Two elements out of order: their stable sort swaps them. */
  lemma SwapPair<T(!new)>(cmp: (T, T) -> int, a: T, b: T)
    requires Consistent(cmp)
    requires cmp(b, a) < 0
    ensures IsStableSortOf(cmp, [b, a], [a, b])
  {
    assert multiset([b, a]) == multiset([a, b]);
    Antisymmetric(cmp, b, a);
    forall k
      ensures Run(cmp, [b, a], k) == Run(cmp, [a, b], k)
    {
      assert [a] + [] == [a] && [b] + [a] == [b, a] && [a] + ([b] + []) == [a, b];
      SwapPastNonTie(cmp, a, b, [], [a], k);
    }
  }

  /** A stable sort has exactly one possible result. */
  lemma StableSortUnique<T(!new)>(cmp: (T, T) -> int, input: seq<T>, a: seq<T>, b: seq<T>)
    requires Consistent(cmp)
    requires IsStableSortOf(cmp, a, input) && IsStableSortOf(cmp, b, input)
    ensures a == b
  {
    SortedSameRunsEqual(cmp, a, b);
  }

  /** Sorting an already sorted sequence changes nothing. */
  lemma SortBySorted<T(!new)>(cmp: (T, T) -> int, s: seq<T>)
    requires Consistent(cmp)
    requires Sorted(cmp, s)
    ensures SortBy(cmp, s) == s
  {
    SortByIsStableSort(cmp, s);
    StableSortUnique(cmp, s, SortBy(cmp, s), s);
  }
}
