/** Sequence and string operations the storefront takes from the JavaScript
    runtime: Array.prototype.filter and String.prototype.includes. */
module Sequences {

  /** The elements of `s` for which `keep` holds, in their original order
      (Array.prototype.filter on a fresh array). */
  function Filter<T(!new)>(s: seq<T>, keep: T -> bool): (r: seq<T>)
    ensures |r| <= |s|
    ensures forall x :: x in r <==> x in s && keep(x)
  {
    if s == [] then [] else (if keep(s[0]) then [s[0]] else []) + Filter(s[1..], keep)
  }

  /** Filtering keeps every occurrence of a kept element and drops every
      occurrence of the others. */
  lemma {:induction false} FilterCounts<T(!new)>(s: seq<T>, keep: T -> bool)
    ensures forall x :: multiset(Filter(s, keep))[x] == if keep(x) then multiset(s)[x] else 0
  {
    if s != [] {
      FilterCounts(s[1..], keep);
      assert s == [s[0]] + s[1..];
    }
  }

  /** Filtering distributes over concatenation, so it never reorders. */
  lemma {:induction false} FilterAppend<T(!new)>(a: seq<T>, b: seq<T>, keep: T -> bool)
    ensures Filter(a + b, keep) == Filter(a, keep) + Filter(b, keep)
  {
    if a == [] {
      assert a + b == b;
    } else {
      assert (a + b)[0] == a[0];
      assert (a + b)[1..] == a[1..] + b;
      FilterAppend(a[1..], b, keep);
    }
  }

  /** A filter that every element passes returns its input unchanged. */
  lemma {:induction false} FilterKeepsAll<T(!new)>(s: seq<T>, keep: T -> bool)
    requires forall i :: 0 <= i < |s| ==> keep(s[i])
    ensures Filter(s, keep) == s
  {
    if s != [] {
      FilterKeepsAll(s[1..], keep);
    }
  }

  /** A filter that no element passes returns the empty sequence. */
  lemma {:induction false} FilterDropsAll<T(!new)>(s: seq<T>, keep: T -> bool)
    requires forall i :: 0 <= i < |s| ==> !keep(s[i])
    ensures Filter(s, keep) == []
  {
    if s != [] {
      FilterDropsAll(s[1..], keep);
    }
  }

  /** Two filters in a row equal one filter by the conjunction. */
  lemma {:induction false} FilterFilter<T(!new)>(s: seq<T>, first: T -> bool, second: T -> bool, both: T -> bool)
    requires forall x :: both(x) == (first(x) && second(x))
    ensures Filter(Filter(s, first), second) == Filter(s, both)
  {
    if s != [] {
      var head := if first(s[0]) then [s[0]] else [];
      assert Filter(s, first) == head + Filter(s[1..], first);
      FilterAppend(head, Filter(s[1..], first), second);
      FilterFilter(s[1..], first, second, both);
      if first(s[0]) {
        assert head[1..] == [];
        assert Filter(head, second) == if second(s[0]) then [s[0]] else [];
      }
    }
  }

  /** Filtering by two predicates that agree on the elements gives the same result. */
  lemma {:induction false} FilterSame<T(!new)>(s: seq<T>, keep: T -> bool, keep': T -> bool)
    requires forall i :: 0 <= i < |s| ==> keep(s[i]) == keep'(s[i])
    ensures Filter(s, keep) == Filter(s, keep')
  {
    if s != [] {
      FilterSame(s[1..], keep, keep');
    }
  }

  /** `sub` occurs in `s` starting at `start`. */
  ghost predicate OccursAt<T>(s: seq<T>, sub: seq<T>, start: int) {
    0 <= start && start + |sub| <= |s| && s[start..start + |sub|] == sub
  }

  /** String.prototype.includes: `sub` occurs as a contiguous piece of `s`. */
  predicate Includes<T(==)>(s: seq<T>, sub: seq<T>)
    ensures Includes(s, sub) <==> exists start :: OccursAt(s, sub, start)
  {
    if sub <= s then
      assert OccursAt(s, sub, 0);
      true
    else if s == [] then
      assert forall start :: !OccursAt(s, sub, start);
      false
    else
      var more := Includes(s[1..], sub);
      assert forall start :: OccursAt(s[1..], sub, start) <==> OccursAt(s, sub, start + 1);
      assert forall start :: OccursAt(s, sub, start) && start > 0 ==> OccursAt(s[1..], sub, start - 1);
      assert !OccursAt(s, sub, 0);
      more
  }
}
