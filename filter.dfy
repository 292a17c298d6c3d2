/** Order-preserving filtering of sequences, as a query over a collection returns it. */
module Seqs {

  /** The elements of `s` that satisfy `keep`, in their original order. */
  function Filter<T>(s: seq<T>, keep: T -> bool): seq<T> {
    if s == [] then []
    else if keep(s[0]) then [s[0]] + Filter(s[1..], keep)
    else Filter(s[1..], keep)
  }

  /**
   * Filtering keeps exactly the elements that satisfy `keep`, each as often as
   * it occurs, so the result is no longer than the input.
   */
  lemma {:induction false} FilterSpec<T>(s: seq<T>, keep: T -> bool)
    ensures var r := Filter(s, keep);
      && |r| <= |s|
      && (forall x :: x in r <==> x in s && keep(x))
      && multiset(r) <= multiset(s)
      && (forall x :: multiset(r)[x] == if keep(x) then multiset(s)[x] else 0)
  {
    if s != [] {
      FilterSpec(s[1..], keep);
      assert s == [s[0]] + s[1..];
    }
  }

  /** Filtering by a stronger condition keeps no more elements. */
  lemma {:induction false} FilterStrongerCount<T>(s: seq<T>, strong: T -> bool, weak: T -> bool)
    requires forall x :: strong(x) ==> weak(x)
    ensures |Filter(s, strong)| <= |Filter(s, weak)|
  {
    if s != [] {
      FilterStrongerCount(s[1..], strong, weak);
    }
  }

  /**
   * Splitting a condition `whole` into two disjoint conditions `a` and `b` splits
   * the count of the elements it keeps.
   */
  lemma {:induction false} FilterSplitCount<T>(s: seq<T>, whole: T -> bool, a: T -> bool, b: T -> bool)
    requires forall x :: whole(x) <==> a(x) || b(x)
    requires forall x :: !(a(x) && b(x))
    ensures |Filter(s, whole)| == |Filter(s, a)| + |Filter(s, b)|
  {
    if s != [] {
      FilterSplitCount(s[1..], whole, a, b);
    }
  }

  /** Appending one element appends it to the filtered sequence exactly when it is kept. */
  lemma {:induction false} FilterAppend<T>(s: seq<T>, x: T, keep: T -> bool)
    ensures Filter(s + [x], keep) == Filter(s, keep) + (if keep(x) then [x] else [])
  {
    if s == [] {
      assert [] + [x] == [x];
    } else {
      assert (s + [x])[1..] == s[1..] + [x];
      FilterAppend(s[1..], x, keep);
    }
  }
}
