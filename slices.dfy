/** Sequence helpers for the many-to-many association slices of the models. */
module Slices {

  /** Index of the first occurrence of `id` in `ids`, or |ids| when it does not occur. */
  function FirstIndexOf(ids: seq<nat>, id: nat): (i: nat)
    ensures i <= |ids|
    ensures i < |ids| ==> ids[i] == id
    ensures forall j :: 0 <= j < i ==> ids[j] != id
    ensures i == |ids| <==> id !in ids
  {
    if |ids| == 0 then 0
    else if ids[0] == id then 0
    else 1 + FirstIndexOf(ids[1..], id)
  }

  /** `append(xs[:i], xs[i+1:]...)`; no change when `i` is past the end. */
  function RemoveAt<T>(xs: seq<T>, i: nat): (r: seq<T>)
    ensures i >= |xs| ==> r == xs
    ensures i < |xs| ==> |r| == |xs| - 1
    ensures forall k :: 0 <= k < i && k < |r| ==> r[k] == xs[k]
    ensures i < |xs| ==> forall k :: i <= k < |r| ==> r[k] == xs[k + 1]
  {
    if i < |xs| then xs[..i] + xs[i + 1..] else xs
  }

  /** Removing position `i` takes exactly one copy of `xs[i]` out of the contents. */
  lemma RemoveAtMultiset<T>(xs: seq<T>, i: nat)
    requires i < |xs|
    ensures multiset(RemoveAt(xs, i)) + multiset{xs[i]} == multiset(xs)
  {
    assert xs == xs[..i] + [xs[i]] + xs[i + 1..];
  }
}
