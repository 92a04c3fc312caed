/**
 Boolean matrices as the maze stores them (visited flags and open-edge flags),
 with the counting facts the generator's proofs rely on.
 */
module Matrices {

  /** `M` has `h` rows of `w` entries each. */
  predicate IsMatrix(M: seq<seq<bool>>, h: int, w: int) {
    |M| == h && forall i :: 0 <= i < |M| ==> |M[i]| == w
  }

  /** An `h` by `w` matrix whose every entry is `b`. */
  function Filled(h: nat, w: nat, b: bool): (M: seq<seq<bool>>)
    ensures IsMatrix(M, h, w)
    ensures forall i, j :: 0 <= i < h && 0 <= j < w ==> M[i][j] == b
    ensures !b ==> forall i, j :: !At(M, i, j)
  {
    seq(h, _ => seq(w, _ => b))
  }

  /** The entry at `(i, j)`, read as false outside the matrix. */
  predicate At(M: seq<seq<bool>>, i: int, j: int) {
    0 <= i < |M| && 0 <= j < |M[i]| && M[i][j]
  }

  /** Every entry that is true in `A` is true in `B` (flags only go from false to true). */
  ghost predicate Leq(A: seq<seq<bool>>, B: seq<seq<bool>>) {
    forall i, j :: At(A, i, j) ==> At(B, i, j)
  }

  /** `M` with the entry at `(i, j)` replaced by `b`. */
  function Set(M: seq<seq<bool>>, i: int, j: int, b: bool): (R: seq<seq<bool>>)
    requires 0 <= i < |M| && 0 <= j < |M[i]|
    ensures |R| == |M| && forall k :: 0 <= k < |M| ==> |R[k]| == |M[k]|
    ensures At(R, i, j) == b
    ensures forall k, l :: (k != i || l != j) ==> At(R, k, l) == At(M, k, l)
  {
    M[i := M[i][j := b]]
  }

  /** Number of entries of `s` equal to `b`. */
  function Count(s: seq<bool>, b: bool): (n: nat)
    ensures n <= |s|
  {
    if |s| == 0 then 0 else (if s[0] == b then 1 else 0) + Count(s[1..], b)
  }

  /** Number of entries of `M` equal to `b`. */
  function CountMatrix(M: seq<seq<bool>>, b: bool): nat {
    if |M| == 0 then 0 else Count(M[0], b) + CountMatrix(M[1..], b)
  }

  lemma {:induction false} CountComplement(s: seq<bool>)
    ensures Count(s, true) + Count(s, false) == |s|
  {
    if |s| > 0 {
      CountComplement(s[1..]);
    }
  }

  /** Flipping one entry to `b` moves exactly one entry from the `!b` count to the `b` count. */
  lemma {:induction false} CountFlip(s: seq<bool>, j: int, b: bool)
    requires 0 <= j < |s| && s[j] != b
    ensures Count(s[j := b], b) == Count(s, b) + 1
    ensures Count(s[j := b], !b) + 1 == Count(s, !b)
  {
    if j > 0 {
      assert s[j := b][1..] == s[1..][j - 1 := b];
      CountFlip(s[1..], j - 1, b);
    } else {
      assert s[j := b][1..] == s[1..];
    }
  }

  lemma {:induction false} CountUniform(s: seq<bool>, b: bool)
    requires forall j :: 0 <= j < |s| ==> s[j] == b
    ensures Count(s, b) == |s|
    ensures Count(s, !b) == 0
  {
    if |s| > 0 {
      CountUniform(s[1..], b);
    }
  }

  /** Flipping one matrix entry to `b` moves exactly one entry between the two counts. */
  lemma {:induction false} CountMatrixFlip(M: seq<seq<bool>>, i: int, j: int, b: bool)
    requires 0 <= i < |M| && 0 <= j < |M[i]| && M[i][j] != b
    ensures CountMatrix(Set(M, i, j, b), b) == CountMatrix(M, b) + 1
    ensures CountMatrix(Set(M, i, j, b), !b) + 1 == CountMatrix(M, !b)
  {
    var R := Set(M, i, j, b);
    if i == 0 {
      assert R[1..] == M[1..];
      assert R[0] == M[0][j := b];
      CountFlip(M[0], j, b);
    } else {
      assert R[0] == M[0];
      assert R[1..] == Set(M[1..], i - 1, j, b);
      CountMatrixFlip(M[1..], i - 1, j, b);
    }
  }

  lemma {:induction false} CountMatrixComplement(M: seq<seq<bool>>, h: nat, w: nat)
    requires IsMatrix(M, h, w)
    ensures CountMatrix(M, true) + CountMatrix(M, false) == h * w
  {
    if h > 0 {
      CountComplement(M[0]);
      CountMatrixComplement(M[1..], h - 1, w);
      assert (h - 1) * w + w == h * w;
    }
  }

  lemma {:induction false} CountMatrixUniform(M: seq<seq<bool>>, h: nat, w: nat, b: bool)
    requires IsMatrix(M, h, w)
    requires forall i, j :: 0 <= i < h && 0 <= j < w ==> M[i][j] == b
    ensures CountMatrix(M, b) == h * w
    ensures CountMatrix(M, !b) == 0
  {
    if h > 0 {
      CountUniform(M[0], b);
      CountMatrixUniform(M[1..], h - 1, w, b);
      assert (h - 1) * w + w == h * w;
    }
  }
}
