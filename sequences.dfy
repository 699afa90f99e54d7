/** `Array.prototype.filter` on sequences, and the facts the task list relies on. */
module Sequences {

  /** The elements of `s` for which `keep` holds, in their original order. */
  function Filter<T>(s: seq<T>, keep: T -> bool): (r: seq<T>)
    ensures |r| <= |s|
    ensures forall i :: 0 <= i < |r| ==> r[i] in s && keep(r[i])
    ensures forall i :: 0 <= i < |s| && keep(s[i]) ==> s[i] in r
    decreases |s|
  {
    if s == [] then []
    else
      assert s == [s[0]] + s[1..];
      (if keep(s[0]) then [s[0]] else []) + Filter(s[1..], keep)
  }

  /** The positions of `s` whose element satisfies `keep`. */
  function MatchIndices<T>(s: seq<T>, keep: T -> bool): set<nat>
  {
    set i: nat | i < |s| && keep(s[i])
  }

  /** Filtering distributes over concatenation: the filter keeps relative order. */
  lemma {:induction false} FilterConcat<T>(a: seq<T>, b: seq<T>, keep: T -> bool)
    ensures Filter(a + b, keep) == Filter(a, keep) + Filter(b, keep)
    decreases |a|
  {
    if a == [] {
      assert a + b == b;
    } else {
      assert (a + b)[1..] == a[1..] + b;
      FilterConcat(a[1..], b, keep);
    }
  }

  /** Appending one element adds its position to the matches exactly when it satisfies `keep`. */
  lemma MatchIndicesSnoc<T>(init: seq<T>, x: T, keep: T -> bool)
    ensures MatchIndices(init + [x], keep)
            == MatchIndices(init, keep) + (if keep(x) then {|init|} else {})
  {
  }

  /** The length of a filter is the number of positions that satisfy `keep`. */
  lemma {:induction false} FilterLength<T>(s: seq<T>, keep: T -> bool)
    ensures |Filter(s, keep)| == |MatchIndices(s, keep)|
    decreases |s|
  {
    if s == [] {
      assert MatchIndices(s, keep) == {};
    } else {
      var n := |s| - 1;
      var init := s[..n];
      assert s == init + [s[n]];
      FilterLength(init, keep);
      FilterConcat(init, [s[n]], keep);
      assert [s[n]][1..] == [];
      MatchIndicesSnoc(init, s[n], keep);
      assert n !in MatchIndices(init, keep);
    }
  }

  /** Filtering by a predicate and by its negation splits `s` into two parts that together hold every element exactly once. */
  lemma {:induction false} FilterPartition<T>(s: seq<T>, keep: T -> bool, drop: T -> bool)
    requires forall i :: 0 <= i < |s| ==> drop(s[i]) == !keep(s[i])
    ensures multiset(Filter(s, keep)) + multiset(Filter(s, drop)) == multiset(s)
    ensures |Filter(s, keep)| + |Filter(s, drop)| == |s|
    decreases |s|
  {
    if s != [] {
      assert s == [s[0]] + s[1..];
      FilterPartition(s[1..], keep, drop);
    }
  }

  /** Every element satisfies `keep`: the filter returns `s` itself. */
  lemma {:induction false} FilterKeepsAll<T>(s: seq<T>, keep: T -> bool)
    requires forall i :: 0 <= i < |s| ==> keep(s[i])
    ensures Filter(s, keep) == s
    decreases |s|
  {
    if s != [] {
      assert s == [s[0]] + s[1..];
      FilterKeepsAll(s[1..], keep);
    }
  }

  /** No element satisfies `keep`: the filter returns the empty sequence. */
  lemma FilterKeepsNone<T>(s: seq<T>, keep: T -> bool)
    requires forall i :: 0 <= i < |s| ==> !keep(s[i])
    ensures Filter(s, keep) == []
  {
  }

  /** Filtering twice by the same predicate is filtering once. */
  lemma FilterIdempotent<T>(s: seq<T>, keep: T -> bool)
    ensures Filter(Filter(s, keep), keep) == Filter(s, keep)
  {
    FilterKeepsAll(Filter(s, keep), keep);
  }
}
