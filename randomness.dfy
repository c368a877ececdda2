/**
 * The random choices the game makes, as nondeterminism.
 *
 * `random.shuffle` is CPython's Fisher-Yates pass: for i from len-1 down to 1 it swaps
 * x[i] with x[j] for a random j in 0..i. The model takes the j's as `picks` (picks[i]
 * is the j drawn at step i), so every pick sequence the generator could produce is an
 * allowed input. `random.sample(pool, k)` is any k distinct positions of the pool, in
 * any order; `random.randint(lo, hi)` is any value in lo..hi.
 */
module Randomness {

  /** The draws of one `random.shuffle` call on a list of length n. */
  predicate ValidPicks(picks: seq<nat>, n: nat)
  {
    |picks| == n && forall i :: 0 <= i < n ==> picks[i] <= i
  }

  function Swap<T>(s: seq<T>, i: nat, j: nat): (r: seq<T>)
    requires i < |s| && j < |s|
    ensures |r| == |s| && r[i] == s[j] && r[j] == s[i]
    ensures forall k :: 0 <= k < |s| && k != i && k != j ==> r[k] == s[k]
  {
    s[i := s[j]][j := s[i]]
  }

  lemma {:induction false} SwapMultiset<T>(s: seq<T>, i: nat, j: nat)
    requires i < |s| && j < |s|
    ensures multiset(Swap(s, i, j)) == multiset(s)
  {
    var t := s[i := s[j]];
    assert multiset(t) == multiset(s) - multiset{s[i]} + multiset{s[j]};
    assert t[j] == (if i == j then s[j] else s[j]);
  }

  /** The Fisher-Yates steps i, i-1, ..., 1 applied to s. */
  function ShuffleSteps<T>(s: seq<T>, picks: seq<nat>, i: nat): (r: seq<T>)
    requires ValidPicks(picks, |s|) && i < |s|
    ensures |r| == |s|
    decreases i
  {
    if i == 0 then s else ShuffleSteps(Swap(s, i, picks[i]), picks, i - 1)
  }

  /** The list `random.shuffle` leaves behind when it draws `picks`. */
  function Shuffled<T>(s: seq<T>, picks: seq<nat>): (r: seq<T>)
    requires ValidPicks(picks, |s|)
    ensures |r| == |s|
  {
    if |s| == 0 then s else ShuffleSteps(s, picks, |s| - 1)
  }

  lemma {:induction false} ShuffleStepsMultiset<T>(s: seq<T>, picks: seq<nat>, i: nat)
    requires ValidPicks(picks, |s|) && i < |s|
    ensures multiset(ShuffleSteps(s, picks, i)) == multiset(s)
    decreases i
  {
    if i > 0 {
      SwapMultiset(s, i, picks[i]);
      ShuffleStepsMultiset(Swap(s, i, picks[i]), picks, i - 1);
    }
  }

  /** A shuffle is a permutation of its input. */
  lemma {:induction false} ShuffledMultiset<T>(s: seq<T>, picks: seq<nat>)
    requires ValidPicks(picks, |s|)
    ensures multiset(Shuffled(s, picks)) == multiset(s)
  {
    if |s| > 0 {
      ShuffleStepsMultiset(s, picks, |s| - 1);
    }
  }

  /** `random.shuffle(a)`, in place on a list (here an array). */
  method ShuffleInPlace<T>(a: array<T>, picks: seq<nat>)
    requires ValidPicks(picks, a.Length)
    modifies a
    ensures a[..] == Shuffled(old(a[..]), picks)
  {
    if a.Length == 0 {
      return;
    }
    var i := a.Length - 1;
    while i > 0
      invariant 0 <= i < a.Length
      invariant ShuffleSteps(a[..], picks, i) == Shuffled(old(a[..]), picks)
      decreases i
    {
      var j := picks[i];
      a[i], a[j] := a[j], a[i];
      i := i - 1;
    }
  }

  /** The draws of one `random.sample(pool, k)` call: k distinct positions of a pool of size n. */
  predicate IsSample(idx: seq<nat>, n: nat, k: nat)
  {
    |idx| == k
    && (forall i :: 0 <= i < k ==> idx[i] < n)
    && (forall i, j :: 0 <= i < j < k ==> idx[i] != idx[j])
  }

  /** The list `random.sample` returns for the positions `idx`. */
  function Sampled<T>(pool: seq<T>, idx: seq<nat>): (r: seq<T>)
    requires forall i :: 0 <= i < |idx| ==> idx[i] < |pool|
    ensures |r| == |idx| && forall i :: 0 <= i < |r| ==> r[i] == pool[idx[i]]
  {
    seq(|idx|, i requires 0 <= i < |idx| => pool[idx[i]])
  }

  /** Sampling distinct positions of a pool without repeats yields no repeats. */
  lemma SampledDistinct<T>(pool: seq<T>, idx: seq<nat>)
    requires IsSample(idx, |pool|, |idx|)
    requires forall i, j :: 0 <= i < j < |pool| ==> pool[i] != pool[j]
    ensures forall i, j :: 0 <= i < j < |idx| ==> Sampled(pool, idx)[i] != Sampled(pool, idx)[j]
  {
  }

  /** One `random.randint(lo, hi)` draw. */
  predicate RandIntIn(x: int, lo: int, hi: int)
  {
    lo <= x <= hi
  }
}
