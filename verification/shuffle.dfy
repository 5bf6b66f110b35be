/** `shuffleArray` of constants.ts: the Fisher-Yates shuffle. `Math.random`
    is replaced by a supplied sequence of draws; draw i is the index
    `Math.floor(Math.random() * (i + 1))` the source computes at loop index i. */
module FisherYates {
  import opened SeqFacts

  /** Draws for shuffling a sequence of length n: one per position, draw i
      lies in [0, i]. Draw 0 is never consumed (the loop stops at index 1). */
  predicate ValidDraws(draws: seq<int>, n: nat) {
    |draws| == n && forall i :: 0 <= i < n ==> 0 <= draws[i] <= i
  }

  /** Exchange the elements at positions i and j. */
  function Swap<T>(a: seq<T>, i: nat, j: nat): (r: seq<T>)
    requires i < |a| && j < |a|
    ensures |r| == |a|
    ensures r[i] == a[j] && r[j] == a[i]
    ensures forall k :: 0 <= k < |a| && k != i && k != j ==> r[k] == a[k]
  {
    a[i := a[j]][j := a[i]]
  }

  lemma SwapPermutes<T>(a: seq<T>, i: nat, j: nat)
    requires i < |a| && j < |a|
    ensures multiset(Swap(a, i, j)) == multiset(a)
  {
  }

  /** The loop of `shuffleArray` entered at index i: swap i with draws[i],
      then continue at i - 1, stopping once i reaches 0. */
  function ShuffleFrom<T>(a: seq<T>, draws: seq<int>, i: int): (r: seq<T>)
    requires ValidDraws(draws, |a|) && i < |a|
    ensures |r| == |a|
    ensures forall k :: i < k < |a| && 0 <= k ==> r[k] == a[k]
    decreases i
  {
    if i <= 0 then a
    else ShuffleFrom(Swap(a, i, draws[i]), draws, i - 1)
  }

  lemma {:induction false} ShuffleFromPermutes<T>(a: seq<T>, draws: seq<int>, i: int)
    requires ValidDraws(draws, |a|) && i < |a|
    ensures multiset(ShuffleFrom(a, draws, i)) == multiset(a)
    decreases i
  {
    if i > 0 {
      SwapPermutes(a, i, draws[i]);
      ShuffleFromPermutes(Swap(a, i, draws[i]), draws, i - 1);
    }
  }

  /** The whole shuffle: the loop entered at the last index. It returns a
      permutation of its input (same length, same elements with the same
      multiplicities), and for length 0 or 1 the loop body never runs. */
  function Shuffle<T>(a: seq<T>, draws: seq<int>): (r: seq<T>)
    requires ValidDraws(draws, |a|)
    ensures |r| == |a|
    ensures multiset(r) == multiset(a)
    ensures |a| <= 1 ==> r == a
  {
    ShuffleFromPermutes(a, draws, |a| - 1);
    ShuffleFrom(a, draws, |a| - 1)
  }

  /** `shuffleArray` as written: copy the input into a fresh array, swap in
      place from the last index down to 1, return the copy. */
  method ShuffleArray<T>(a: seq<T>, draws: seq<int>) returns (r: seq<T>)
    requires ValidDraws(draws, |a|)
    ensures r == Shuffle(a, draws)
    ensures |r| == |a| && multiset(r) == multiset(a)
    ensures |a| <= 1 ==> r == a
  {
    var shuffled := new T[|a|](k requires 0 <= k < |a| => a[k]);
    assert shuffled[..] == a;
    SwapDown(shuffled, draws);
    r := shuffled[..];
  }

  /** The loop of `shuffleArray` on the copy: the exchanges happen in place. */
  method SwapDown<T>(shuffled: array<T>, draws: seq<int>)
    requires ValidDraws(draws, shuffled.Length)
    modifies shuffled
    ensures shuffled[..] == Shuffle(old(shuffled[..]), draws)
  {
    var i := shuffled.Length - 1;
    while i > 0
      invariant i < shuffled.Length
      invariant ShuffleFrom(shuffled[..], draws, i) == Shuffle(old(shuffled[..]), draws)
      decreases i
    {
      var j := draws[i];
      ghost var before := shuffled[..];
      var t := shuffled[i];
      shuffled[i] := shuffled[j];
      shuffled[j] := t;
      assert shuffled[..] == Swap(before, i, j);
      i := i - 1;
    }
  }

  /** Fisher-Yates fixes the last position first: it ends up holding the
      element the first draw picked from the whole input. */
  lemma ShuffleLastPosition<T>(a: seq<T>, draws: seq<int>)
    requires ValidDraws(draws, |a|) && |a| >= 2
    ensures Shuffle(a, draws)[|a| - 1] == a[draws[|a| - 1]]
  {
  }

  /** Drawing the current index every time performs no exchange at all. */
  lemma {:induction false} ShuffleFromIdentityDraws<T>(a: seq<T>, draws: seq<int>, i: int)
    requires ValidDraws(draws, |a|) && i < |a|
    requires forall k :: 0 <= k < |a| ==> draws[k] == k
    ensures ShuffleFrom(a, draws, i) == a
    decreases i
  {
    if i > 0 {
      assert Swap(a, i, draws[i]) == a;
      ShuffleFromIdentityDraws(a, draws, i - 1);
    }
  }

  lemma MapSwap<T, U>(f: T -> U, a: seq<T>, i: nat, j: nat)
    requires i < |a| && j < |a|
    ensures Swap(MapSeq(f, a), i, j) == MapSeq(f, Swap(a, i, j))
  {
  }

  /** Shuffling commutes with mapping: the draws move positions, not values. */
  lemma {:induction false} ShuffleFromMap<T, U>(f: T -> U, a: seq<T>, draws: seq<int>, i: int)
    requires ValidDraws(draws, |a|) && i < |a|
    ensures ShuffleFrom(MapSeq(f, a), draws, i) == MapSeq(f, ShuffleFrom(a, draws, i))
    decreases i
  {
    if i > 0 {
      var j := draws[i];
      MapSwap(f, a, i, j);
      ShuffleFromMap(f, Swap(a, i, j), draws, i - 1);
    }
  }

  lemma ShuffleMap<T, U>(f: T -> U, a: seq<T>, draws: seq<int>)
    requires ValidDraws(draws, |a|)
    ensures Shuffle(MapSeq(f, a), draws) == MapSeq(f, Shuffle(a, draws))
  {
    ShuffleFromMap(f, a, draws, |a| - 1);
  }

  /** An exchange of two positions keeps a repetition-free sequence repetition-free. */
  lemma SwapKeepsDistinct<T>(a: seq<T>, i: nat, j: nat)
    requires i < |a| && j < |a| && Distinct(a)
    ensures Distinct(Swap(a, i, j))
  {
  }

  lemma {:induction false} ShuffleFromKeepsDistinct<T>(a: seq<T>, draws: seq<int>, i: int)
    requires ValidDraws(draws, |a|) && i < |a| && Distinct(a)
    ensures Distinct(ShuffleFrom(a, draws, i))
    decreases i
  {
    if i > 0 {
      SwapKeepsDistinct(a, i, draws[i]);
      ShuffleFromKeepsDistinct(Swap(a, i, draws[i]), draws, i - 1);
    }
  }

  /** A shuffle of a repetition-free sequence is repetition-free. */
  lemma ShuffleKeepsDistinct<T>(a: seq<T>, draws: seq<int>)
    requires ValidDraws(draws, |a|) && Distinct(a)
    ensures Distinct(Shuffle(a, draws))
  {
    ShuffleFromKeepsDistinct(a, draws, |a| - 1);
  }
}
