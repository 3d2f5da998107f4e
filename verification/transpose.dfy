/** numpy's `ndarray.transpose(axes)` on shapes and on element indices. */
module Transpose {
  import opened Seqs

  /** `perm` names every axis 0 .. |perm| - 1 exactly once, as numpy demands of `axes`. */
  predicate IsPermutation(perm: seq<nat>) {
    && (forall i :: 0 <= i < |perm| ==> perm[i] < |perm|)
    && Distinct(perm)
    && (forall a: nat :: a < |perm| ==> a in perm)
  }

  /** Output axis `i` takes input axis `perm[i]`: the shape of the transposed array. */
  function Permute(xs: seq<nat>, perm: seq<nat>): (r: seq<nat>)
    requires |xs| == |perm|
    requires forall i :: 0 <= i < |perm| ==> perm[i] < |xs|
    ensures |r| == |perm|
    ensures IsPermutation(perm) ==>
      forall a :: 0 <= a < |perm| ==> r[IndexOf(perm, a)] == xs[a]
  {
    seq(|perm|, i requires 0 <= i < |perm| => xs[perm[i]])
  }

  /** The input index read by the transposed array at output index `out`. */
  function SourceIndex(out: seq<nat>, perm: seq<nat>): (r: seq<nat>)
    requires IsPermutation(perm) && |out| == |perm|
    ensures |r| == |perm|
    ensures Permute(r, perm) == out
  {
    seq(|perm|, a requires 0 <= a < |perm| => out[IndexOf(perm, a)])
  }

  /** `idx` addresses an element of an array of the given shape. */
  predicate InBounds(idx: seq<nat>, shape: seq<nat>) {
    |idx| == |shape| && forall i :: 0 <= i < |idx| ==> idx[i] < shape[i]
  }

  /** In a permutation, the first occurrence of `perm[i]` is at `i`. */
  lemma IndexOfPermutation(perm: seq<nat>, i: nat)
    requires IsPermutation(perm) && i < |perm|
    ensures IndexOf(perm, perm[i]) == i
  {
  }

  /** Reading through `SourceIndex` and permuting back are inverse: each output element
      comes from exactly one input element and each input element lands exactly once. */
  lemma SourceIndexInverse(perm: seq<nat>, idx: seq<nat>)
    requires IsPermutation(perm) && |idx| == |perm|
    ensures Permute(SourceIndex(idx, perm), perm) == idx
    ensures SourceIndex(Permute(idx, perm), perm) == idx
  {
  }

  /** An output index is in bounds of the transposed shape exactly when the input index
      it reads is in bounds of the original shape. */
  lemma SourceIndexInBounds(shape: seq<nat>, perm: seq<nat>, out: seq<nat>)
    requires IsPermutation(perm) && |shape| == |perm| && |out| == |perm|
    ensures InBounds(out, Permute(shape, perm)) <==> InBounds(SourceIndex(out, perm), shape)
  {
  }
}
