/** Array.prototype.sort with a comparator function. Since ECMAScript 2019
    the sort is required to be stable, so it is specified here as the stable
    insertion sort `StableSort`; `SortInPlace` sorts an array in place to the
    same result. */
module Sorting {

  function Sign(n: int): int {
    if n < 0 then -1 else if n == 0 then 0 else 1
  }

  /** A consistent comparator in the sense of Array.prototype.sort: swapping
      the arguments flips the sign of the result, and "sorts no later than"
      (a result <= 0) is transitive. */
  ghost predicate Consistent<T(!new)>(cmp: (T, T) -> int) {
    && (forall a, b :: Sign(cmp(a, b)) == -Sign(cmp(b, a)))
    && (forall a, b, c :: cmp(a, b) <= 0 && cmp(b, c) <= 0 ==> cmp(a, c) <= 0)
  }

  /** No later element sorts strictly before an earlier one. */
  ghost predicate SortedBy<T>(s: seq<T>, cmp: (T, T) -> int) {
    forall i, j :: 0 <= i < j < |s| ==> cmp(s[i], s[j]) <= 0
  }

  /** The elements of `s` that compare equal to `pivot`, in their order in `s`. */
  function Ties<T>(s: seq<T>, cmp: (T, T) -> int, pivot: T): seq<T> {
    if s == [] then []
    else (if cmp(s[0], pivot) == 0 then [s[0]] else []) + Ties(s[1..], cmp, pivot)
  }

  /** Puts `x` in front of the first element it does not sort after. */
  function Insert<T>(x: T, s: seq<T>, cmp: (T, T) -> int): seq<T> {
    if s == [] then [x]
    else if cmp(x, s[0]) <= 0 then [x] + s
    else [s[0]] + Insert(x, s[1..], cmp)
  }

  /** The stable sort of `s` by `cmp`: insertion of each element, the last first. */
  function StableSort<T>(s: seq<T>, cmp: (T, T) -> int): seq<T> {
    if s == [] then [] else Insert(s[0], StableSort(s[1..], cmp), cmp)
  }

  lemma StableSortCons<T>(x: T, s: seq<T>, cmp: (T, T) -> int)
    ensures StableSort([x] + s, cmp) == Insert(x, StableSort(s, cmp), cmp)
  {
    assert ([x] + s)[1..] == s;
  }

  lemma {:induction false} InsertPermutes<T>(x: T, s: seq<T>, cmp: (T, T) -> int)
    ensures multiset(Insert(x, s, cmp)) == multiset(s) + multiset{x}
  {
    if s != [] && cmp(x, s[0]) > 0 {
      InsertPermutes(x, s[1..], cmp);
      assert s == [s[0]] + s[1..];
    }
  }

  /** The stable sort is a permutation of its input. */
  lemma {:induction false} StableSortPermutes<T>(s: seq<T>, cmp: (T, T) -> int)
    ensures multiset(StableSort(s, cmp)) == multiset(s)
  {
    if s != [] {
      StableSortPermutes(s[1..], cmp);
      InsertPermutes(s[0], StableSort(s[1..], cmp), cmp);
      assert s == [s[0]] + s[1..];
    }
  }

  lemma {:induction false} InsertMembers<T>(x: T, s: seq<T>, cmp: (T, T) -> int)
    ensures forall k :: 0 <= k < |Insert(x, s, cmp)| ==>
      Insert(x, s, cmp)[k] == x || Insert(x, s, cmp)[k] in s
  {
    if s != [] && cmp(x, s[0]) > 0 {
      InsertMembers(x, s[1..], cmp);
      var r := Insert(x, s[1..], cmp);
      assert forall k :: 0 <= k < |r| ==> r[k] == x || r[k] in s[1..];
    }
  }

  lemma {:induction false} InsertSorted<T(!new)>(x: T, s: seq<T>, cmp: (T, T) -> int)
    requires Consistent(cmp) && SortedBy(s, cmp)
    ensures SortedBy(Insert(x, s, cmp), cmp)
  {
    if s != [] && cmp(x, s[0]) > 0 {
      assert Sign(cmp(x, s[0])) == -Sign(cmp(s[0], x));
      InsertSorted(x, s[1..], cmp);
      var r := Insert(x, s[1..], cmp);
      InsertMembers(x, s[1..], cmp);
      forall k | 0 <= k < |r| ensures cmp(s[0], r[k]) <= 0 {
        if r[k] != x {
          var m :| 0 <= m < |s[1..]| && s[1..][m] == r[k];
          assert s[m + 1] == r[k];
        }
      }
    }
  }

  /** The stable sort orders its result by the comparator. */
  lemma {:induction false} StableSortSorted<T(!new)>(s: seq<T>, cmp: (T, T) -> int)
    requires Consistent(cmp)
    ensures SortedBy(StableSort(s, cmp), cmp)
  {
    if s != [] {
      StableSortSorted(s[1..], cmp);
      InsertSorted(s[0], StableSort(s[1..], cmp), cmp);
    }
  }

  lemma {:induction false} InsertTies<T(!new)>(x: T, s: seq<T>, cmp: (T, T) -> int, pivot: T)
    requires Consistent(cmp)
    ensures Ties(Insert(x, s, cmp), cmp, pivot) == Ties([x], cmp, pivot) + Ties(s, cmp, pivot)
  {
    if s == [] {
    } else if cmp(x, s[0]) <= 0 {
      assert ([x] + s)[1..] == s;
    } else {
      InsertTies(x, s[1..], cmp, pivot);
      assert cmp(x, pivot) != 0 || cmp(s[0], pivot) != 0 by {
        assert Sign(cmp(s[0], pivot)) == -Sign(cmp(pivot, s[0]));
      }
      assert ([s[0]] + Insert(x, s[1..], cmp))[1..] == Insert(x, s[1..], cmp);
    }
  }

  /** Stability: the elements that compare equal to any given one keep their
      relative order. */
  lemma {:induction false} StableSortStable<T(!new)>(s: seq<T>, cmp: (T, T) -> int, pivot: T)
    requires Consistent(cmp)
    ensures Ties(StableSort(s, cmp), cmp, pivot) == Ties(s, cmp, pivot)
  {
    if s != [] {
      StableSortStable(s[1..], cmp, pivot);
      InsertTies(s[0], StableSort(s[1..], cmp), cmp, pivot);
    }
  }

  /** A sequence already in order is left as it is; in particular a comparator
      that always answers 0 keeps the original order. */
  lemma {:induction false} StableSortOfSorted<T>(s: seq<T>, cmp: (T, T) -> int)
    requires SortedBy(s, cmp)
    ensures StableSort(s, cmp) == s
  {
    if s != [] {
      StableSortOfSorted(s[1..], cmp);
      if |s| > 1 {
        assert cmp(s[0], s[1]) <= 0;
        assert s[1..][0] == s[1];
      }
    }
  }

  /** Sorting twice gives what sorting once gives. */
  lemma StableSortIdempotent<T(!new)>(s: seq<T>, cmp: (T, T) -> int)
    requires Consistent(cmp)
    ensures StableSort(StableSort(s, cmp), cmp) == StableSort(s, cmp)
  {
    StableSortSorted(s, cmp);
    StableSortOfSorted(StableSort(s, cmp), cmp);
  }

  /** `Insert` places `x` after exactly the leading elements it sorts after. */
  lemma {:induction false} InsertSplit<T>(x: T, s: seq<T>, k: nat, cmp: (T, T) -> int)
    requires k <= |s|
    requires forall m :: 0 <= m < k ==> cmp(x, s[m]) > 0
    requires k == |s| || cmp(x, s[k]) <= 0
    ensures Insert(x, s, cmp) == s[..k] + [x] + s[k..]
  {
    if k > 0 {
      InsertSplit(x, s[1..], k - 1, cmp);
      assert s[..k] == [s[0]] + s[1..][..k - 1];
      assert s[k..] == s[1..][k - 1..];
    }
  }

  /** `t` is `before` with its element `i` moved right to index `j`. */
  lemma Spliced<T>(t: seq<T>, before: seq<T>, i: nat, j: nat)
    requires i <= j < |before| == |t|
    requires forall k :: 0 <= k < i ==> t[k] == before[k]
    requires forall k :: i <= k < j ==> t[k] == before[k + 1]
    requires t[j] == before[i]
    requires forall k :: j < k < |t| ==> t[k] == before[k]
    ensures t == before[..i] + (before[i + 1..][..j - i] + [before[i]] + before[i + 1..][j - i..])
  {
    var s := before[i + 1..];
    var r := before[..i] + (s[..j - i] + [before[i]] + s[j - i..]);
    forall k | 0 <= k < |t| ensures t[k] == r[k] {
      if i <= k < j {
        assert r[k] == s[k - i];
      } else if j < k {
        assert r[k] == s[k - i - 1];
      }
    }
  }

  /** Shifts the elements of `a[i + 1..]` that `a[i]` sorts after one place to
      the left and puts `a[i]` into the gap, at the returned index `j`. */
  method ShiftPast<T>(a: array<T>, i: nat, cmp: (T, T) -> int) returns (j: nat)
    requires i < a.Length
    modifies a
    ensures i <= j < a.Length
    ensures forall k :: 0 <= k < i ==> a[k] == old(a[k])
    ensures forall k :: i <= k < j ==> a[k] == old(a[k + 1])
    ensures a[j] == old(a[i])
    ensures forall k :: j < k < a.Length ==> a[k] == old(a[k])
    ensures forall m :: i < m <= j ==> cmp(old(a[i]), old(a[m])) > 0
    ensures j + 1 == a.Length || cmp(old(a[i]), old(a[j + 1])) <= 0
  {
    var x := a[i];
    j := i;
    while j + 1 < a.Length && cmp(x, a[j + 1]) > 0
      invariant i <= j < a.Length
      invariant forall k :: 0 <= k < i ==> a[k] == old(a[k])
      invariant forall k :: i <= k < j ==> a[k] == old(a[k + 1])
      invariant forall k :: j < k < a.Length ==> a[k] == old(a[k])
      invariant forall m :: i < m <= j ==> cmp(x, old(a[m])) > 0
    {
      a[j] := a[j + 1];
      j := j + 1;
    }
    a[j] := x;
  }

  /** Moves `a[i]` right past the elements of the sorted `a[i + 1..]` that it
      sorts after (the step of insertion sort). */
  method InsertAt<T>(a: array<T>, i: nat, cmp: (T, T) -> int)
    requires i < a.Length
    modifies a
    ensures a[..] == old(a[..i]) + Insert(old(a[i]), old(a[i + 1..]), cmp)
  {
    ghost var before := a[..];
    ghost var x, sorted := before[i], before[i + 1..];
    var j := ShiftPast(a, i, cmp);
    assert Insert(x, sorted, cmp) == sorted[..j - i] + [x] + sorted[j - i..] by {
      assert forall m :: 0 <= m < j - i ==> sorted[m] == before[m + i + 1];
      InsertSplit(x, sorted, j - i, cmp);
    }
    assert a[..] == before[..i] + (sorted[..j - i] + [x] + sorted[j - i..]) by {
      Spliced(a[..], before, i, j);
    }
  }

  /** Sorts `a` in place: each element, from the right, is inserted into the
      already sorted suffix. */
  method SortInPlace<T>(a: array<T>, cmp: (T, T) -> int)
    modifies a
    ensures a[..] == StableSort(old(a[..]), cmp)
  {
    var i := a.Length;
    while i > 0
      invariant 0 <= i <= a.Length
      invariant a[..i] == old(a[..i])
      invariant a[i..] == StableSort(old(a[..])[i..], cmp)
    {
      i := i - 1;
      ghost var input := old(a[..])[i..];
      assert input == [input[0]] + input[1..];
      InsertAt(a, i, cmp);
    }
  }
}
