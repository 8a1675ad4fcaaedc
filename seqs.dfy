/**
 * The list operations the check pipeline is built from: `filter` on the
 * Immutable.js `List` that `fromJS` makes of the check runs, and the
 * spread-concatenation `[].concat(...xs)`, with the facts the pipeline relies on
 * (a filter keeps an ordered sub-list; concatenating single values gives the
 * list back).
 */
module Seqs {

  /** `List.filter(keep)` of Immutable.js: a new list of the elements for which `keep` holds, in order. */
  function Filter<T>(xs: seq<T>, keep: T -> bool): (kept: seq<T>)
    ensures |kept| <= |xs|
    ensures forall i :: 0 <= i < |kept| ==> keep(kept[i])
    ensures forall x :: x in kept ==> x in xs && keep(x)
  {
    if xs == [] then []
    else if keep(xs[0]) then [xs[0]] + Filter(xs[1..], keep)
    else Filter(xs[1..], keep)
  }

  /** `xs` can be obtained from `ys` by deleting elements: nothing is added or reordered. */
  ghost predicate IsSubsequence<T>(xs: seq<T>, ys: seq<T>)
  {
    if ys == [] then xs == []
    else IsSubsequence(xs, ys[1..]) || (xs != [] && xs[0] == ys[0] && IsSubsequence(xs[1..], ys[1..]))
  }

  lemma {:induction false} FilterIsSubsequence<T>(xs: seq<T>, keep: T -> bool)
    ensures IsSubsequence(Filter(xs, keep), xs)
  {
    if xs != [] {
      var rest := Filter(xs[1..], keep);
      FilterIsSubsequence(xs[1..], keep);
      if keep(xs[0]) {
        assert ([xs[0]] + rest)[1..] == rest;
      }
    }
  }

  lemma {:induction false} SubsequenceNoLonger<T>(xs: seq<T>, ys: seq<T>)
    requires IsSubsequence(xs, ys)
    ensures |xs| <= |ys|
  {
    if ys != [] {
      if IsSubsequence(xs, ys[1..]) {
        SubsequenceNoLonger(xs, ys[1..]);
      } else {
        SubsequenceNoLonger(xs[1..], ys[1..]);
      }
    }
  }

  /** Every occurrence of a kept value survives; every occurrence of a dropped value goes. */
  lemma {:induction false} FilterMultiplicity<T>(xs: seq<T>, keep: T -> bool, x: T)
    ensures multiset(Filter(xs, keep))[x] == if keep(x) then multiset(xs)[x] else 0
  {
    if xs != [] {
      FilterMultiplicity(xs[1..], keep, x);
      assert xs == [xs[0]] + xs[1..];
    }
  }

  lemma FilterMembership<T>(xs: seq<T>, keep: T -> bool, x: T)
    ensures x in Filter(xs, keep) <==> x in xs && keep(x)
  {
    FilterMultiplicity(xs, keep, x);
  }

  /** A filter that every element passes changes nothing. */
  lemma {:induction false} FilterKeepsAll<T>(xs: seq<T>, keep: T -> bool)
    requires forall i :: 0 <= i < |xs| ==> keep(xs[i])
    ensures Filter(xs, keep) == xs
  {
    if xs != [] {
      FilterKeepsAll(xs[1..], keep);
    }
  }

  /** Two filters in a row are one filter by the conjunction of their tests. */
  lemma {:induction false} FilterFilter<T>(xs: seq<T>, first: T -> bool, second: T -> bool, both: T -> bool)
    requires forall x :: both(x) == (first(x) && second(x))
    ensures Filter(Filter(xs, first), second) == Filter(xs, both)
  {
    if xs != [] {
      FilterFilter(xs[1..], first, second, both);
      if first(xs[0]) {
        var rest := Filter(xs[1..], first);
        assert ([xs[0]] + rest)[1..] == rest;
      }
    }
  }

  /** `[].concat(p0, p1, ...)` where every argument is an array. */
  function Flatten<T>(parts: seq<seq<T>>): (flat: seq<T>)
  {
    if parts == [] then [] else parts[0] + Flatten(parts[1..])
  }

  /** A non-array argument to `concat` is appended as a single element, as if it were `[x]`. */
  function Singletons<T>(xs: seq<T>): (parts: seq<seq<T>>)
    ensures |parts| == |xs|
    ensures forall i :: 0 <= i < |xs| ==> parts[i] == [xs[i]]
  {
    seq(|xs|, i requires 0 <= i < |xs| => [xs[i]])
  }

  /** Spreading values that are not arrays into `[].concat` gives the same list, in the same order. */
  lemma {:induction false} FlattenSingletons<T>(xs: seq<T>)
    ensures Flatten(Singletons(xs)) == xs
  {
    if xs != [] {
      assert Singletons(xs)[1..] == Singletons(xs[1..]);
      FlattenSingletons(xs[1..]);
    }
  }
}
