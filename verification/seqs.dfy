/** Sequence helpers shared by the layer models. */
module Seqs {

  /** Every earlier element is smaller than every later one. */
  predicate StrictlyIncreasing(s: seq<int>) {
    forall i, j :: 0 <= i < j < |s| ==> s[i] < s[j]
  }

  /** No element occurs twice. */
  predicate Distinct<T(==)>(s: seq<T>) {
    forall i, j :: 0 <= i < j < |s| ==> s[i] != s[j]
  }

  /** Python's `list.index`: the position of the first occurrence of `x`. */
  function IndexOf<T(==)>(s: seq<T>, x: T): (r: nat)
    requires x in s
    ensures r < |s| && s[r] == x
    ensures forall i :: 0 <= i < r ==> s[i] != x
  {
    if s[0] == x then 0 else 1 + IndexOf(s[1..], x)
  }

  /** In an increasing sequence every value's first occurrence is its only one. */
  lemma IndexOfIncreasing(s: seq<int>, j: nat)
    requires StrictlyIncreasing(s) && j < |s|
    ensures IndexOf(s, s[j]) == j
  {
  }

  /** Appending a value above every element keeps a sequence increasing. */
  lemma AppendIncreasing(s: seq<int>, x: int)
    requires StrictlyIncreasing(s)
    requires forall i :: 0 <= i < |s| ==> s[i] < x
    ensures StrictlyIncreasing(s + [x])
  {
  }

  /** The last element, Python's `s[-1]`. */
  function Last<T>(s: seq<T>): (r: T)
    requires |s| > 0
    ensures r in s
  {
    s[|s| - 1]
  }

  /** Python's `max` of two integers. */
  function Max(a: int, b: int): (r: int)
    ensures r >= a && r >= b
    ensures r == a || r == b
  {
    if a < b then b else a
  }

  /** numpy's `arange(n)`: 0, 1, ..., n - 1. */
  function Range(n: nat): (r: seq<int>)
    ensures |r| == n
    ensures forall i :: 0 <= i < n ==> r[i] == i
    ensures StrictlyIncreasing(r)
  {
    seq(n, i => i)
  }
}
