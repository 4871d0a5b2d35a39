/** Small facts about sequences that several of the modelled classes share. */
module Seqs {

  /** No element occurs twice (what a LinkedHashSet or a `distinct()` stream guarantees). */
  predicate Distinct<T(==)>(xs: seq<T>)
  {
    forall i, j :: 0 <= i < j < |xs| ==> xs[i] != xs[j]
  }

  /** Position of the first occurrence of `x`, or `|xs|` when there is none (Java's `indexOf`, with -1 read as `|xs|`). */
  function IndexOf<T(==)>(xs: seq<T>, x: T): (r: nat)
    ensures r <= |xs|
    ensures r < |xs| <==> x in xs
    ensures r < |xs| ==> xs[r] == x
    ensures x !in xs[..r]
  {
    if xs == [] then 0
    else if xs[0] == x then 0
    else
      var r := 1 + IndexOf(xs[1..], x);
      assert xs[..r] == [xs[0]] + xs[1..][..r - 1];
      r
  }

  /** The first occurrence of `x` in `a + [x] + b` is at `|a|` when `a` does not hold `x`. */
  lemma IndexOfAfterPrefix<T>(a: seq<T>, x: T, b: seq<T>)
    requires x !in a
    ensures IndexOf(a + [x] + b, x) == |a|
  {
    var s := a + [x] + b;
    assert s[|a|] == x;
    assert s[..|a|] == a;
    assert s[..|a| + 1] == a + [x];
  }

  /** The elements of `xs` that satisfy `keep`, in their original order (a stream `filter`). */
  function Filter<T(!new)>(xs: seq<T>, keep: T -> bool): (r: seq<T>)
    ensures |r| <= |xs|
    ensures forall x :: x in r <==> x in xs && keep(x)
  {
    if xs == [] then []
    else if keep(xs[0]) then [xs[0]] + Filter(xs[1..], keep)
    else Filter(xs[1..], keep)
  }

  /** Whether an element is missing from `xs` (`not(xs::contains)`). */
  function Outside<T(==)>(xs: seq<T>): T -> bool
  {
    x => x !in xs
  }

  /** Positions in strictly ascending order. */
  predicate Increasing(idx: seq<nat>)
  {
    forall k, l :: 0 <= k < l < |idx| ==> idx[k] < idx[l]
  }

  /** Every position moved one place on, past a new first element. */
  function Shifted(idx: seq<nat>): (r: seq<nat>)
    ensures |r| == |idx|
    ensures forall k :: 0 <= k < |idx| ==> r[k] == idx[k] + 1
  {
    seq(|idx|, k requires 0 <= k < |idx| => idx[k] + 1)
  }

  /**
   * `r` is what is left of `xs` when some elements are left out, the rest keeping their order:
   * `r[k]` is the element at position `idx[k]` of `xs`, and the positions ascend.
   */
  predicate PicksAt<T(==)>(r: seq<T>, xs: seq<T>, idx: seq<nat>)
  {
    && |idx| == |r| && Increasing(idx)
    && forall k :: 0 <= k < |idx| ==> idx[k] < |xs| && r[k] == xs[idx[k]]
  }

  /** `r` is a subsequence of `xs`. */
  ghost predicate Subsequence<T>(r: seq<T>, xs: seq<T>)
  {
    exists idx :: PicksAt(r, xs, idx)
  }

  /** Picks from a prefix of `xs` are picks from `xs`, and so are they followed by the next element. */
  lemma PicksExtended<T>(r: seq<T>, xs: seq<T>, idx: seq<nat>, n: nat)
    requires n < |xs| && PicksAt(r, xs[..n], idx)
    ensures PicksAt(r, xs[..n + 1], idx)
    ensures PicksAt(r + [xs[n]], xs[..n + 1], idx + [n])
  {
  }

  /** The positions of the elements of `xs` that satisfy `keep`, in ascending order. */
  function Kept<T>(xs: seq<T>, keep: T -> bool): (r: seq<nat>)
    ensures Increasing(r)
    ensures forall k :: 0 <= k < |r| ==> r[k] < |xs| && keep(xs[r[k]])
    ensures forall p :: 0 <= p < |xs| && keep(xs[p]) ==> p in r
  {
    if xs == [] then []
    else
      var n := |xs| - 1;
      assert forall p :: 0 <= p < n ==> xs[..n][p] == xs[p];
      Kept(xs[..n], keep) + if keep(xs[n]) then [n] else []
  }

  /** Keeping every element keeps every position. */
  lemma {:induction false} KeptAll<T>(xs: seq<T>, keep: T -> bool)
    requires forall x :: keep(x)
    ensures Kept(xs, keep) == Range(|xs|)
  {
    if xs != [] {
      KeptAll(xs[..|xs| - 1], keep);
    }
  }

  /** `Filter` keeps the elements at exactly the positions `Kept` lists, in the same order. */
  lemma {:induction false} FilterKept<T(!new)>(xs: seq<T>, keep: T -> bool)
    ensures PicksAt(Filter(xs, keep), xs, Kept(xs, keep))
    decreases |xs|
  {
    if xs != [] {
      var n := |xs| - 1;
      var init, last := xs[..n], xs[n];
      FilterKept(init, keep);
      assert xs == init + [last] && xs[..n + 1] == xs;
      FilterAppend(init, [last], keep);
      assert Filter([last], keep) == if keep(last) then [last] else [];
      assert Kept(xs, keep) == Kept(init, keep) + if keep(last) then [n] else [];
      PicksExtended(Filter(init, keep), xs, Kept(init, keep), n);
    }
  }

  /** A filtered sequence is a subsequence of the original. */
  lemma FilterSubsequence<T(!new)>(xs: seq<T>, keep: T -> bool)
    ensures Subsequence(Filter(xs, keep), xs)
  {
    FilterKept(xs, keep);
  }

  /** In a sequence without repeats, the first occurrence of the element at `p` is `p`. */
  lemma IndexOfDistinct<T>(xs: seq<T>, p: nat)
    requires Distinct(xs) && p < |xs|
    ensures IndexOf(xs, xs[p]) == p
  {
  }

  /** A subsequence of a sequence without repeats lists its elements in the order the sequence has them. */
  lemma SubsequenceOrder<T>(r: seq<T>, xs: seq<T>)
    requires Distinct(xs) && Subsequence(r, xs)
    ensures forall i, j :: 0 <= i < j < |r| ==> IndexOf(xs, r[i]) < IndexOf(xs, r[j])
  {
    var idx :| PicksAt(r, xs, idx);
    forall i, j | 0 <= i < j < |r| ensures IndexOf(xs, r[i]) < IndexOf(xs, r[j]) {
      IndexOfDistinct(xs, idx[i]);
      IndexOfDistinct(xs, idx[j]);
    }
  }

  lemma {:induction false} FilterAppend<T(!new)>(a: seq<T>, b: seq<T>, keep: T -> bool)
    ensures Filter(a + b, keep) == Filter(a, keep) + Filter(b, keep)
  {
    if a == [] {
      assert a + b == b;
    } else {
      assert (a + b)[1..] == a[1..] + b;
      FilterAppend(a[1..], b, keep);
    }
  }

  lemma {:induction false} FilterDistinct<T(!new)>(xs: seq<T>, keep: T -> bool)
    requires Distinct(xs)
    ensures Distinct(Filter(xs, keep))
  {
    if xs != [] {
      FilterDistinct(xs[1..], keep);
    }
  }

  /** Applies `f` to every element (a stream `map`). */
  function Map<T, U>(xs: seq<T>, f: T -> U): (r: seq<U>)
    ensures |r| == |xs|
    ensures forall i :: 0 <= i < |xs| ==> r[i] == f(xs[i])
  {
    seq(|xs|, i requires 0 <= i < |xs| => f(xs[i]))
  }

  /** The elements of `xs` at the positions `ids`, in the order of `ids`. */
  function Pick<T>(xs: seq<T>, ids: seq<nat>): (r: seq<T>)
    requires forall x :: x in ids ==> x < |xs|
    ensures |r| == |ids|
    ensures forall k :: 0 <= k < |ids| ==> ids[k] < |xs| && r[k] == xs[ids[k]]
  {
    assert forall k :: 0 <= k < |ids| ==> ids[k] in ids;
    seq(|ids|, k requires 0 <= k < |ids| && ids[k] < |xs| => xs[ids[k]])
  }

  /** The set of elements of a sequence. */
  function Elems<T(!new)>(xs: seq<T>): (r: set<T>)
    ensures forall x :: x in r <==> x in xs
  {
    set x | x in xs
  }

  /** The ids `0 .. n - 1` in ascending order. */
  function Range(n: nat): (r: seq<nat>)
    ensures |r| == n
    ensures forall i :: 0 <= i < n ==> r[i] == i
    ensures forall x: nat :: x in r <==> x < n
  {
    if n == 0 then [] else Range(n - 1) + [n - 1]
  }
}
