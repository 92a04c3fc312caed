/**
 The in-place Fisher-Yates shuffle of the maze generator. The random index drawn
 in each round is supplied as an explicit sequence of picks: pick `k` is the index
 drawn in round `k`, when the counter still stands at `|arr| - k`.
 */
module FisherYates {

  /** `picks` can drive a shuffle of `n` elements: one pick per round, each below the counter. */
  predicate ValidPicks(picks: seq<int>, n: nat) {
    |picks| == n && forall k :: 0 <= k < n ==> 0 <= picks[k] < n - k
  }

  /** Exchanges the entries at `i` and `j`. */
  function Swap<T>(s: seq<T>, i: int, j: int): (r: seq<T>)
    requires 0 <= i < |s| && 0 <= j < |s|
    ensures |r| == |s|
    ensures r[i] == s[j] && r[j] == s[i]
    ensures forall k :: 0 <= k < |s| && k != i && k != j ==> r[k] == s[k]
    ensures multiset(r) == multiset(s)
  {
    s[i := s[j]][j := s[i]]
  }

  /**
   The shuffle loop from the point where the counter stands at `counter`:
   draw `index` below the counter, decrement, swap the slots `counter` and `index`.
   */
  function ShuffleFrom<T>(arr: seq<T>, counter: nat, picks: seq<int>): (r: seq<T>)
    requires counter <= |arr|
    requires ValidPicks(picks, |arr|)
    ensures |r| == |arr|
    ensures multiset(r) == multiset(arr)
    ensures forall k :: counter <= k < |arr| ==> r[k] == arr[k]
    ensures counter > 0 ==> r[counter - 1] == arr[picks[|arr| - counter]]
    decreases counter
  {
    if counter == 0 then arr
    else
      var index := picks[|arr| - counter];
      var c := counter - 1;
      ShuffleFrom(Swap(arr, c, index), c, picks)
  }

  /** The whole shuffle: the loop started with the counter at `|arr|`. */
  function Shuffle<T>(arr: seq<T>, picks: seq<int>): (r: seq<T>)
    requires ValidPicks(picks, |arr|)
    ensures |r| == |arr|
    ensures multiset(r) == multiset(arr)
    ensures |arr| > 0 ==> r[|arr| - 1] == arr[picks[0]]
  {
    ShuffleFrom(arr, |arr|, picks)
  }

  /**
   The shuffle as a loop: each round's index is below the counter, so every swap
   is in bounds, and the loop body runs exactly `|arr|` times.
   */
  method ShuffleLoop<T>(arr: seq<T>, picks: seq<int>) returns (r: seq<T>, rounds: nat)
    requires ValidPicks(picks, |arr|)
    ensures r == Shuffle(arr, picks)
    ensures rounds == |arr|
  {
    r := arr;
    rounds := 0;
    var counter: nat := |arr|;
    while counter > 0
      invariant counter <= |arr| && |r| == |arr|
      invariant rounds + counter == |arr|
      invariant ShuffleFrom(r, counter, picks) == ShuffleFrom(arr, |arr|, picks)
      decreases counter
    {
      var index := picks[rounds];
      counter := counter - 1;
      var temp := r[counter];
      r := r[counter := r[index]];
      r := r[index := temp];
      rounds := rounds + 1;
    }
  }

  /** Any element of the input is somewhere in the shuffled output, and conversely. */
  lemma ShuffleKeepsElements<T>(arr: seq<T>, picks: seq<int>, x: T)
    requires ValidPicks(picks, |arr|)
    ensures x in Shuffle(arr, picks) <==> x in arr
  {
    var r := Shuffle(arr, picks);
    assert x in r <==> x in multiset(r);
    assert x in arr <==> x in multiset(arr);
  }
}
