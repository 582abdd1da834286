/** The Fisher-Yates shuffle that fixes the processing order of the keys.
    `Math.random()` is an oracle: the caller supplies the draws, each a real
    in [0, 1), consumed one per loop iteration. */
module Shuffle {

  predicate ValidDraws(rolls: seq<real>) {
    forall k :: 0 <= k < |rolls| ==> 0.0 <= rolls[k] < 1.0
  }

  /** `Math.floor(Math.random() * (i + 1))`: the partner index of position i. */
  function PickIndex(roll: real, i: nat): (j: nat)
    requires 0.0 <= roll < 1.0
    ensures j <= i
  {
    var m := (i + 1) as real;
    var x := roll * m;
    assert m - x == (1.0 - roll) * m;
    assert (1.0 - roll) * m > 0.0;
    x.Floor
  }

  /** The draw used when the loop is at position i of an n-element array:
      the loop runs from n - 1 downwards, so that is draw number n - 1 - i. */
  function DrawAt(rolls: seq<real>, n: nat, i: nat): (roll: real)
    requires 0 < i < n <= |rolls| + 1
  {
    rolls[n - 1 - i]
  }

  function Swap<T>(a: seq<T>, i: nat, j: nat): (b: seq<T>)
    requires i < |a| && j < |a|
  {
    a[i := a[j]][j := a[i]]
  }

  lemma SwapPermutes<T>(a: seq<T>, i: nat, j: nat)
    requires i < |a| && j < |a|
    ensures |Swap(a, i, j)| == |a|
    ensures multiset(Swap(a, i, j)) == multiset(a)
  {
  }

  /** The loop from position i down to position 1 as a pure function, on
      an array of n = |a| elements; draw number n - 1 - i is used at i. */
  function ShuffleFrom<T>(a: seq<T>, i: nat, rolls: seq<real>): (r: seq<T>)
    requires i < |a| <= |rolls| + 1
    requires ValidDraws(rolls)
    ensures |r| == |a|
    // positions already passed by the loop are final
    ensures forall k :: i < k < |a| ==> r[k] == a[k]
    decreases i
  {
    if i == 0 then a
    else ShuffleFrom(Swap(a, i, PickIndex(DrawAt(rolls, |a|, i), i)), i - 1, rolls)
  }

  /** The whole shuffle as a pure function; an empty list is left as it is. */
  function FisherYates<T>(keys: seq<T>, rolls: seq<real>): (shuffled: seq<T>)
    requires |keys| <= |rolls| + 1
    requires ValidDraws(rolls)
    // for every choice of draws the shuffle only rearranges the keys
    ensures |shuffled| == |keys|
    ensures multiset(shuffled) == multiset(keys)
  {
    if |keys| == 0 then keys
    else
      ShuffleFromPermutes(keys, |keys| - 1, rolls);
      ShuffleFrom(keys, |keys| - 1, rolls)
  }

  /** Whatever the draws, every iteration only rearranges: same length, same
      elements with the same multiplicities. */
  lemma {:induction false} ShuffleFromPermutes<T>(a: seq<T>, i: nat, rolls: seq<real>)
    requires i < |a| <= |rolls| + 1
    requires ValidDraws(rolls)
    ensures |ShuffleFrom(a, i, rolls)| == |a|
    ensures multiset(ShuffleFrom(a, i, rolls)) == multiset(a)
    decreases i
  {
    if i > 0 {
      var j := PickIndex(DrawAt(rolls, |a|, i), i);
      SwapPermutes(a, i, j);
      ShuffleFromPermutes(Swap(a, i, j), i - 1, rolls);
    }
  }

  /** One loop iteration moves the remaining work one position down. */
  lemma ShuffleFromStep<T>(a: seq<T>, i: nat, rolls: seq<real>, j: nat)
    requires 0 < i < |a| <= |rolls| + 1
    requires ValidDraws(rolls)
    requires j == PickIndex(DrawAt(rolls, |a|, i), i)
    ensures |Swap(a, i, j)| == |a|
    ensures multiset(Swap(a, i, j)) == multiset(a)
    ensures ShuffleFrom(Swap(a, i, j), i - 1, rolls) == ShuffleFrom(a, i, rolls)
  {
    SwapPermutes(a, i, j);
  }

  /** `shuffleArray`: swap from the last position down to position 1, each
      time with a position drawn from the ones not yet fixed. The in-place
      array of the source is a sequence value updated by each swap. */
  method ShuffleArray<T>(keys: seq<T>, rolls: seq<real>) returns (shuffled: seq<T>)
    requires |keys| <= |rolls| + 1
    requires ValidDraws(rolls)
    ensures |shuffled| == |keys|
    ensures multiset(shuffled) == multiset(keys)
    ensures shuffled == FisherYates(keys, rolls)
  {
    var n := |keys|;
    if n == 0 {
      // the loop does not run on an empty array
      return keys;
    }
    shuffled := keys;
    var i := n - 1;
    while i > 0
      invariant 0 <= i < n == |shuffled|
      invariant multiset(shuffled) == multiset(keys)
      invariant ShuffleFrom(shuffled, i, rolls) == FisherYates(keys, rolls)
      decreases i
    {
      var j := PickIndex(DrawAt(rolls, n, i), i);
      ShuffleFromStep(shuffled, i, rolls, j);
      shuffled := Swap(shuffled, i, j);
      i := i - 1;
    }
  }
}
