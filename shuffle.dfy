/** `shuffleInPlace` of app.js: a descending Fisher–Yates shuffle of an array.

    `Math.random()` is a nondeterministic real u with 0 <= u < 1; the index it
    yields is `(u * (i + 1)) | 0`. The indices drawn are returned as a ghost
    record, so the final array is a function of the input and those draws. */
module Shuffle {

  /** `(u * (i + 1)) | 0`: for 0 <= u < 1 the product lies in [0, i + 1), far
      below 2^31, so the bitwise truncation is the floor and lands in [0, i]. */
  function RandomIndex(u: real, i: nat): (j: nat)
    requires 0.0 <= u < 1.0
    ensures j <= i
  {
    var n := (i + 1) as real;
    assert 0.0 <= u * n < n by {
      assert n - u * n == (1.0 - u) * n;
      assert 0.0 < 1.0 - u && 0.0 < n;
    }
    (u * n).Floor
  }

  /** One `Math.random()` draw scaled to an index in [0, i]; the real drawn is
      chosen nondeterministically, so nothing is assumed about its distribution. */
  method RandomUpTo(i: nat) returns (j: nat)
    ensures j <= i
  {
    var u: real :| 0.0 <= u < 1.0;
    j := RandomIndex(u, i);
  }

  /** The swap of positions i and j by destructuring assignment (app.js:28), on a sequence. */
  function Swap<T>(s: seq<T>, i: nat, j: nat): (r: seq<T>)
    requires i < |s| && j < |s|
    ensures |r| == |s|
    ensures r[i] == s[j] && r[j] == s[i]
    ensures forall k :: 0 <= k < |s| && k != i && k != j ==> r[k] == s[k]
  {
    s[i := s[j]][j := s[i]]
  }

  /** A swap rearranges: the same elements, each as often as before. */
  lemma SwapPermutes<T>(s: seq<T>, i: nat, j: nat)
    requires i < |s| && j < |s|
    ensures multiset(Swap(s, i, j)) == multiset(s)
  {
  }

  /** Draws a shuffle of n elements may make: the k-th iteration has i = n - 1 - k
      and draws j in [0, i]; the loop stops before i reaches 0. */
  predicate ValidDraws(n: nat, draws: seq<nat>) {
    (draws == [] || |draws| < n) &&
    forall k :: 0 <= k < |draws| ==> draws[k] <= n - 1 - k
  }

  /** The array after the shuffle's first |draws| iterations, given the indices
      drawn: the k-th draw is swapped with position |s| - 1 - k. (A draw out of
      range, which ValidDraws excludes, would leave the array alone.) */
  function FisherYates<T>(s: seq<T>, draws: seq<nat>): (r: seq<T>)
    ensures |r| == |s|
    decreases |draws|
  {
    if draws == [] then s
    else
      var before, i, j := FisherYates(s, draws[..|draws| - 1]), |s| - |draws|, draws[|draws| - 1];
      if 0 <= i && j < |s| then Swap(before, i, j) else before
  }

  /** Whatever the draws, the shuffle only rearranges: the result is a permutation. */
  lemma {:induction false} FisherYatesPermutes<T>(s: seq<T>, draws: seq<nat>)
    ensures multiset(FisherYates(s, draws)) == multiset(s)
    decreases |draws|
  {
    if draws != [] {
      var before, i, j := FisherYates(s, draws[..|draws| - 1]), |s| - |draws|, draws[|draws| - 1];
      FisherYatesPermutes(s, draws[..|draws| - 1]);
      if 0 <= i && j < |s| {
        SwapPermutes(before, i, j);
      }
    }
  }

  /** One more iteration of the shuffle: the draw j is applied at i = n - 1 - |draws|. */
  lemma FisherYatesStep<T>(s: seq<T>, draws: seq<nat>, i: nat, j: nat)
    requires i == |s| - 1 - |draws| && j < |s|
    ensures FisherYates(s, draws + [j]) == Swap(FisherYates(s, draws), i, j)
  {
    var next := draws + [j];
    var prev := next[..|next| - 1];
    assert prev == draws && next[|next| - 1] == j && |s| - |next| == i;
    calc {
      FisherYates(s, next);
      Swap(FisherYates(s, prev), i, j);
      { assert FisherYates(s, prev) == FisherYates(s, draws); }
      Swap(FisherYates(s, draws), i, j);
    }
  }

  /** A draw within [0, i] at the next iteration keeps the draws valid. */
  lemma ValidDrawsStep(n: nat, draws: seq<nat>, j: nat)
    requires ValidDraws(n, draws)
    requires |draws| + 1 < n && j <= n - 1 - |draws|
    ensures ValidDraws(n, draws + [j])
  {
    var next := draws + [j];
    forall k | 0 <= k < |next| ensures next[k] <= n - 1 - k {
      if k < |draws| {
        assert next[k] == draws[k];
      }
    }
  }

  /** The swap of app.js:28 on the array itself. */
  method SwapAt<T>(a: array<T>, i: nat, j: nat)
    requires i < a.Length && j < a.Length
    modifies a
    ensures a[..] == Swap(old(a[..]), i, j)
  {
    var tmp := a[i];
    a[i] := a[j];
    a[j] := tmp;
  }

  /** `shuffleInPlace(a)`: for i from a.length - 1 down to 1, swap a[i] with a[j]
      for a random j in [0, i]. The result is a permutation of the input. */
  method ShuffleInPlace<T>(a: array<T>) returns (ghost draws: seq<nat>)
    modifies a
    ensures ValidDraws(a.Length, draws)
    ensures |draws| == if a.Length == 0 then 0 else a.Length - 1
    ensures a[..] == FisherYates(old(a[..]), draws)
    ensures multiset(a[..]) == multiset(old(a[..]))
  {
    ghost var start := a[..];
    draws := [];
    var i := a.Length - 1;
    while i > 0
      invariant -1 <= i < a.Length && (a.Length == 0 || 0 <= i)
      invariant |draws| == a.Length - 1 - i
      invariant ValidDraws(a.Length, draws)
      invariant a[..] == FisherYates(start, draws)
    {
      var j := RandomUpTo(i);
      SwapAt(a, i, j);
      FisherYatesStep(start, draws, i, j);
      ValidDrawsStep(a.Length, draws, j);
      draws := draws + [j];
      i := i - 1;
    }
    FisherYatesPermutes(start, draws);
  }
}
