/**
 * Sequence operations shared by the pipeline and the views: `Array.prototype.filter`
 * (order-preserving selection), subsequences, and `Array.prototype.sort` on a
 * copy of the data with a comparator, which JavaScript requires to be stable.
 */
module Seqs {

  // ---------------------------------------------------------------------------
  // Subsequences and filter
  // ---------------------------------------------------------------------------

  /** `a` can be obtained from `b` by deleting elements, keeping the order of the rest. */
  predicate IsSubsequence<T(==)>(a: seq<T>, b: seq<T>)
    decreases |b|
  {
    if b == [] then a == []
    else (a != [] && a[0] == b[0] && IsSubsequence(a[1..], b[1..])) || IsSubsequence(a, b[1..])
  }

  /** Every element of a subsequence is an element of the sequence, and it is no longer. */
  lemma {:induction false} SubsequenceElements<T>(a: seq<T>, b: seq<T>)
    requires IsSubsequence(a, b)
    ensures |a| <= |b|
    ensures forall x :: x in a ==> x in b
    decreases |b|
  {
    if b != [] {
      if a != [] && a[0] == b[0] && IsSubsequence(a[1..], b[1..]) {
        SubsequenceElements(a[1..], b[1..]);
        forall x | x in a ensures x in b {
          if x != a[0] { assert x in a[1..]; }
        }
      } else {
        SubsequenceElements(a, b[1..]);
      }
    }
  }

  /** `Array.prototype.filter`: the elements satisfying `p`, in their original order. */
  function Filter<T(==,!new)>(s: seq<T>, p: T -> bool): (r: seq<T>)
    ensures |r| <= |s|
    ensures IsSubsequence(r, s)
    ensures forall x :: x in r <==> x in s && p(x)
    ensures forall x :: multiset(r)[x] == if p(x) then multiset(s)[x] else 0
    decreases |s|
  {
    if s == [] then []
    else
      var rest := Filter(s[1..], p);
      assert s == [s[0]] + s[1..];
      if p(s[0]) then
        assert ([s[0]] + rest)[1..] == rest;
        [s[0]] + rest
      else
        assert rest != [] ==> rest[0] != s[0];
        rest
  }

  lemma {:induction false} EmptySubsequence<T>(s: seq<T>)
    ensures IsSubsequence([], s)
    decreases |s|
  {
    if s != [] {
      EmptySubsequence(s[1..]);
    }
  }

  lemma {:induction false} SubsequenceReflexive<T>(s: seq<T>)
    ensures IsSubsequence(s, s)
    decreases |s|
  {
    if s != [] {
      SubsequenceReflexive(s[1..]);
    }
  }

  /** A subsequence of a subsequence is a subsequence. */
  lemma {:induction false} SubsequenceTransitive<T>(a: seq<T>, b: seq<T>, c: seq<T>)
    requires IsSubsequence(a, b) && IsSubsequence(b, c)
    ensures IsSubsequence(a, c)
    decreases |c|
  {
    if c != [] {
      if b != [] && b[0] == c[0] && IsSubsequence(b[1..], c[1..]) {
        if a != [] && a[0] == b[0] && IsSubsequence(a[1..], b[1..]) {
          SubsequenceTransitive(a[1..], b[1..], c[1..]);
        } else {
          SubsequenceTransitive(a, b[1..], c[1..]);
        }
      } else {
        SubsequenceTransitive(a, b, c[1..]);
      }
    }
  }

  /** A filter that every element passes is the identity. */
  lemma {:induction false} FilterAllPass<T(!new)>(s: seq<T>, p: T -> bool)
    requires forall x :: x in s ==> p(x)
    ensures Filter(s, p) == s
    decreases |s|
  {
    if s != [] {
      assert forall x :: x in s[1..] ==> x in s;
      FilterAllPass(s[1..], p);
    }
  }

  /** A filter that no element passes gives the empty sequence. */
  lemma {:induction false} FilterNonePass<T(!new)>(s: seq<T>, p: T -> bool)
    requires forall i :: 0 <= i < |s| ==> !p(s[i])
    ensures Filter(s, p) == []
    decreases |s|
  {
    if s != [] {
      FilterNonePass(s[1..], p);
    }
  }

  /**
   * Filtering with a condition that implies a weaker one keeps a subsequence of
   * what the weaker condition keeps: tightening a filter never adds elements.
   */
  lemma {:induction false} FilterNarrows<T(!new)>(s: seq<T>, strong: T -> bool, weak: T -> bool)
    requires forall x :: x in s && strong(x) ==> weak(x)
    ensures IsSubsequence(Filter(s, strong), Filter(s, weak))
    decreases |s|
  {
    if s != [] {
      assert forall x :: x in s[1..] ==> x in s;
      FilterNarrows(s[1..], strong, weak);
      var a, b := Filter(s[1..], strong), Filter(s[1..], weak);
      if strong(s[0]) {
        assert ([s[0]] + a)[1..] == a && ([s[0]] + b)[1..] == b;
      } else if weak(s[0]) {
        assert ([s[0]] + b)[1..] == b;
      }
    }
  }

  // ---------------------------------------------------------------------------
  // Sorting with a comparator
  // ---------------------------------------------------------------------------

  /** What a consistent comparator provides: a total, transitive "sorts no later than". */
  ghost predicate TotalPreorder<T(!new)>(le: (T, T) -> bool) {
    && (forall x, y :: le(x, y) || le(y, x))
    && (forall x, y, z :: le(x, y) && le(y, z) ==> le(x, z))
  }

  predicate SortedBy<T>(s: seq<T>, le: (T, T) -> bool) {
    forall i, j :: 0 <= i < j < |s| ==> le(s[i], s[j])
  }

  /** `r[k]` is `s[perm[k]]`, and `perm` is a one-to-one choice of positions of `s`. */
  ghost predicate Arrangement<T>(s: seq<T>, r: seq<T>, perm: seq<int>) {
    && |r| == |s| && |perm| == |s|
    && (forall k {:trigger perm[k]} :: 0 <= k < |r| ==> 0 <= perm[k] < |s| && r[k] == s[perm[k]])
    && (forall k, m :: 0 <= k < m < |r| ==> perm[k] != perm[m])
  }

  /** Elements that compare equal keep their original relative order. */
  ghost predicate Stable<T>(r: seq<T>, perm: seq<int>, le: (T, T) -> bool)
    requires |perm| == |r|
  {
    forall k, m :: 0 <= k < m < |r| && le(r[k], r[m]) && le(r[m], r[k]) ==> perm[k] < perm[m]
  }

  /**
   * Bookkeeping of the insertion sort: `r` is a stable arrangement of `s`,
   * positions after `bound` are untouched, and positions up to `bound` hold
   * elements taken from positions up to `bound`.
   */
  ghost predicate Placed<T>(s: seq<T>, r: seq<T>, perm: seq<int>, le: (T, T) -> bool, bound: int) {
    && |r| == |s| && |perm| == |s|
    && Arrangement(s, r, perm) && Stable(r, perm, le)
    && (forall k :: 0 <= k < |r| && bound < k ==> perm[k] == k)
    && (forall k :: 0 <= k <= bound && k < |r| ==> perm[k] <= bound)
  }

  /**
   * While the element that started at position `i` sits at `j`, the elements before
   * `j` are ordered, those from `j` to `i` are ordered, and every element before `j`
   * sorts no later than every element after it.
   */
  ghost predicate Inserting<T>(r: seq<T>, le: (T, T) -> bool, i: int, j: int)
    requires 0 <= j <= i < |r|
  {
    && (forall k, m :: 0 <= k < m < j ==> le(r[k], r[m]))
    && (forall k, m :: j <= k < m <= i ==> le(r[k], r[m]))
    && (forall k, m :: 0 <= k < j < m <= i ==> le(r[k], r[m]))
  }

  function Swap<T>(r: seq<T>, j: int): seq<T>
    requires 0 < j < |r|
  {
    r[j - 1 := r[j]][j := r[j - 1]]
  }

  lemma PlacedInitially<T>(s: seq<T>, perm: seq<int>, le: (T, T) -> bool)
    requires perm == seq(|s|, k => k)
    ensures Placed(s, s, perm, le, 0)
  {
  }

  /** One step of the inner loop keeps the bookkeeping. */
  lemma SwapPlaced<T(!new)>(s: seq<T>, r: seq<T>, perm: seq<int>, le: (T, T) -> bool, i: int, j: int)
    requires 0 < j <= i < |r|
    requires Placed(s, r, perm, le, i)
    requires !le(r[j - 1], r[j])
    ensures Placed(s, Swap(r, j), Swap(perm, j), le, i)
  {
    var r', perm' := Swap(r, j), Swap(perm, j);
    forall k, m | 0 <= k < m < |r'| && le(r'[k], r'[m]) && le(r'[m], r'[k])
      ensures perm'[k] < perm'[m]
    {
      var k0 := if k == j - 1 then j else if k == j then j - 1 else k;
      var m0 := if m == j - 1 then j else if m == j then j - 1 else m;
      assert r'[k] == r[k0] && r'[m] == r[m0] && perm'[k] == perm[k0] && perm'[m] == perm[m0];
      assert k0 < m0;
    }
    forall k, m | 0 <= k < m < |r'| ensures perm'[k] != perm'[m] {
      var k0 := if k == j - 1 then j else if k == j then j - 1 else k;
      var m0 := if m == j - 1 then j else if m == j then j - 1 else m;
      assert perm'[k] == perm[k0] && perm'[m] == perm[m0];
    }
  }

  /** One step of the inner loop keeps the ordering facts, one position further left. */
  lemma SwapInserting<T(!new)>(r: seq<T>, le: (T, T) -> bool, i: int, j: int)
    requires TotalPreorder(le)
    requires 0 < j <= i < |r|
    requires Inserting(r, le, i, j)
    requires !le(r[j - 1], r[j])
    ensures Inserting(Swap(r, j), le, i, j - 1)
  {
    var r' := Swap(r, j);
    assert le(r[j], r[j - 1]);
    forall k, m | j - 1 <= k < m <= i ensures le(r'[k], r'[m]) {
      if k == j - 1 && m > j {
        assert le(r[j], r[m]);
      }
    }
  }

  lemma SwapMultiset<T>(r: seq<T>, j: int)
    requires 0 < j < |r|
    ensures multiset(Swap(r, j)) == multiset(r)
  {
    assert r == r[..j - 1] + [r[j - 1], r[j]] + r[j + 1..];
    assert Swap(r, j) == r[..j - 1] + [r[j], r[j - 1]] + r[j + 1..];
  }

  /** When the inner loop stops, the first `i + 1` elements are ordered. */
  lemma InsertedSorted<T(!new)>(r: seq<T>, le: (T, T) -> bool, i: int, j: int)
    requires TotalPreorder(le)
    requires 0 <= j <= i < |r|
    requires Inserting(r, le, i, j)
    requires j == 0 || le(r[j - 1], r[j])
    ensures SortedBy(r[..i + 1], le)
  {
    if j > 0 {
      forall k | 0 <= k < j ensures le(r[k], r[j]) {
        if k < j - 1 { assert le(r[k], r[j - 1]); }
      }
    }
    assert forall k, m :: 0 <= k < m <= i ==> le(r[k], r[m]);
  }

  /** What the inner loop of the insertion keeps, for the array contents `r` started from `r0`. */
  ghost predicate InsertState<T(!new)>(s: seq<T>, r0: seq<T>, r: seq<T>, perm: seq<int>, le: (T, T) -> bool, i: int, j: int)
    requires 0 <= j <= i < |r|
  {
    && Inserting(r, le, i, j)
    && multiset(r) == multiset(r0)
    && Placed(s, r, perm, le, i)
  }

  /** One swap of the inner loop keeps `InsertState`. */
  lemma SwapStep<T(!new)>(s: seq<T>, r0: seq<T>, r: seq<T>, perm: seq<int>, le: (T, T) -> bool, i: int, j: int)
    requires TotalPreorder(le)
    requires 0 < j <= i < |r|
    requires InsertState(s, r0, r, perm, le, i, j)
    requires !le(r[j - 1], r[j])
    ensures InsertState(s, r0, Swap(r, j), Swap(perm, j), le, i, j - 1)
  {
    SwapPlaced(s, r, perm, le, i, j);
    SwapInserting(r, le, i, j);
    SwapMultiset(r, j);
  }

  /** Before the inner loop, with `a[i]` not yet moved. */
  lemma InsertStart<T(!new)>(s: seq<T>, r: seq<T>, perm: seq<int>, le: (T, T) -> bool, i: int)
    requires 1 <= i < |r|
    requires SortedBy(r[..i], le)
    requires Placed(s, r, perm, le, i - 1)
    ensures InsertState(s, r, r, perm, le, i, i)
  {
    assert forall k, m :: 0 <= k < m < i ==> le(r[..i][k], r[..i][m]);
  }

  /** Moves `a[i]` left into the ordered prefix `a[..i]`, past the elements that sort after it. */
  method InsertNext<T(!new)>(a: array<T>, le: (T, T) -> bool, i: int, ghost s: seq<T>, ghost perm0: seq<int>)
    returns (ghost perm: seq<int>)
    requires TotalPreorder(le)
    requires 1 <= i < a.Length
    requires SortedBy(a[..i], le)
    requires Placed(s, a[..], perm0, le, i - 1)
    modifies a
    ensures SortedBy(a[..i + 1], le)
    ensures Placed(s, a[..], perm, le, i)
    ensures multiset(a[..]) == multiset(old(a[..]))
    ensures le(old(a[i - 1]), old(a[i])) ==> a[..] == old(a[..])
  {
    perm := perm0;
    ghost var r0 := a[..];
    InsertStart(s, r0, perm, le, i);
    var j := i;
    while j > 0 && !le(a[j - 1], a[j])
      invariant 0 <= j <= i
      invariant InsertState(s, r0, a[..], perm, le, i, j)
      invariant j == i ==> a[..] == r0
      invariant j < i ==> !le(r0[i - 1], r0[i])
    {
      ghost var r := a[..];
      assert !le(r[j - 1], r[j]);
      SwapStep(s, r0, r, perm, le, i, j);
      a[j - 1], a[j] := a[j], a[j - 1];
      assert a[..] == Swap(r, j);
      perm := Swap(perm, j);
      j := j - 1;
    }
    InsertedSorted(a[..], le, i, j);
  }

  /**
   * Stable insertion sort of an array in place: the result is ordered by `le`, a
   * permutation of the input, keeps ties in their input order, and leaves an
   * already ordered array as it was.
   */
  method SortInPlace<T(!new)>(a: array<T>, le: (T, T) -> bool) returns (ghost perm: seq<int>)
    requires TotalPreorder(le)
    modifies a
    ensures SortedBy(a[..], le)
    ensures multiset(a[..]) == multiset(old(a[..]))
    ensures Arrangement(old(a[..]), a[..], perm) && Stable(a[..], perm, le)
    ensures SortedBy(old(a[..]), le) ==> a[..] == old(a[..])
  {
    ghost var s := a[..];
    perm := seq(a.Length, k => k);
    PlacedInitially(s, perm, le);
    if a.Length == 0 { return; }
    var i := 1;
    assert SortedBy(a[..1], le);
    while i < a.Length
      invariant 1 <= i <= a.Length
      invariant SortedBy(a[..i], le)
      invariant multiset(a[..]) == multiset(s)
      invariant Placed(s, a[..], perm, le, i - 1)
      invariant SortedBy(s, le) ==> a[..] == s
    {
      perm := InsertNext(a, le, i, s, perm);
      i := i + 1;
    }
    assert a[..] == a[..a.Length];
  }

  /**
   * `[...data].sort(compare)`: sorts a fresh copy, so `data` itself is untouched.
   */
  method SortCopy<T(!new)>(data: seq<T>, le: (T, T) -> bool) returns (r: seq<T>, ghost perm: seq<int>)
    requires TotalPreorder(le)
    ensures SortedBy(r, le)
    ensures multiset(r) == multiset(data)
    ensures Arrangement(data, r, perm) && Stable(r, perm, le)
    ensures SortedBy(data, le) ==> r == data
  {
    var a := new T[|data|](i requires 0 <= i < |data| => data[i]);
    assert a[..] == data;
    perm := SortInPlace(a, le);
    r := a[..];
  }
}
