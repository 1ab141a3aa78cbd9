/** Index bookkeeping over sequences shared by the loss partition and the
    detection filter: the positions a predicate selects (`torch.nonzero`, a
    boolean mask) and gathering by an index list (advanced indexing). */
module SeqUtil {

  ghost predicate StrictlyIncreasing(ids: seq<nat>) {
    forall a, b :: 0 <= a < b < |ids| ==> ids[a] < ids[b]
  }

  ghost predicate Distinct(ids: seq<nat>) {
    forall a, b :: 0 <= a < b < |ids| ==> ids[a] != ids[b]
  }

  predicate InRange(ids: seq<nat>, n: nat) {
    forall k :: 0 <= k < |ids| ==> ids[k] < n
  }

  /** The ascending list of positions of `xs` whose element satisfies `keep`. */
  function Where<X>(xs: seq<X>, keep: X -> bool): (ids: seq<nat>)
    ensures StrictlyIncreasing(ids)
    ensures forall k :: 0 <= k < |ids| ==> ids[k] < |xs| && keep(xs[ids[k]])
    ensures forall p :: 0 <= p < |xs| && keep(xs[p]) ==> p in ids
    ensures |ids| <= |xs|
  {
    if |xs| == 0 then []
    else
      var n := |xs| - 1;
      var prefix := Where(xs[..n], keep);
      if keep(xs[n]) then prefix + [n] else prefix
  }

  lemma WhereNone<X>(xs: seq<X>, keep: X -> bool)
    requires forall i :: 0 <= i < |xs| ==> !keep(xs[i])
    ensures Where(xs, keep) == []
  {
  }

  /** Where `drop` is the negation of `keep` on every element, the two
      position lists together have one entry per element. */
  lemma {:induction false} WhereComplement<X>(xs: seq<X>, keep: X -> bool, drop: X -> bool)
    requires forall i :: 0 <= i < |xs| ==> drop(xs[i]) == !keep(xs[i])
    ensures |Where(xs, keep)| + |Where(xs, drop)| == |xs|
    decreases |xs|
  {
    if |xs| > 0 {
      WhereComplement(xs[..|xs| - 1], keep, drop);
    }
  }

  /** `xs[ids]`: the elements of `xs` at the positions `ids`, in that order. */
  function Gather<X>(xs: seq<X>, ids: seq<nat>): (ys: seq<X>)
    requires InRange(ids, |xs|)
  {
    seq(|ids|, k requires 0 <= k < |ids| => xs[ids[k]])
  }

  lemma IncreasingIsDistinct(ids: seq<nat>)
    requires StrictlyIncreasing(ids)
    ensures Distinct(ids)
  {
  }

  /** Shifts every index above the removed position `a` down by one. */
  function Unshift(ids: seq<nat>, a: nat): (r: seq<nat>)
  {
    seq(|ids|, k requires 0 <= k < |ids| => if ids[k] > a then ids[k] - 1 else ids[k])
  }

  /** Removing position `a` from `xs` and shifting the remaining indices
      keeps every other selected element where it was. */
  lemma UnshiftGather<X>(xs: seq<X>, ids: seq<nat>, a: nat)
    requires a < |xs| && a !in ids
    requires InRange(ids, |xs|)
    requires Distinct(ids)
    ensures InRange(Unshift(ids, a), |xs| - 1)
    ensures Distinct(Unshift(ids, a))
    ensures Gather(xs[..a] + xs[a + 1..], Unshift(ids, a)) == Gather(xs, ids)
  {
  }

  lemma RemoveAtMultiset<X>(xs: seq<X>, a: nat)
    requires a < |xs|
    ensures multiset(xs) == multiset(xs[..a] + xs[a + 1..]) + multiset{xs[a]}
  {
    assert xs == xs[..a] + [xs[a]] + xs[a + 1..];
  }

  /** Selecting distinct in-range positions never produces an element more
      often than the source holds it. */
  lemma {:induction false} GatherDistinctSubMultiset<X>(xs: seq<X>, ids: seq<nat>)
    requires InRange(ids, |xs|)
    requires Distinct(ids)
    ensures multiset(Gather(xs, ids)) <= multiset(xs)
    decreases |ids|
  {
    if |ids| > 0 {
      var a := ids[0];
      var rest := ids[1..];
      assert forall k :: 0 <= k < |rest| ==> rest[k] == ids[k + 1];
      UnshiftGather(xs, rest, a);
      RemoveAtMultiset(xs, a);
      GatherDistinctSubMultiset(xs[..a] + xs[a + 1..], Unshift(rest, a));
      assert Gather(xs, ids) == [xs[a]] + Gather(xs, rest);
    }
  }
}
