/** The 1-based index lists both vectorizers take. */
module Indices {
  /** `all(1 <= idx <= taille_vecteur for idx in indices_positifs)`. */
  predicate AllInRange(indices: seq<int>, size: nat)
  {
    forall k :: 0 <= k < |indices| ==> 1 <= indices[k] <= size
  }

  /** The vector of length `size` whose position `i` is set exactly when `i + 1` is listed. */
  function Indicator(indices: seq<int>, size: nat): (v: seq<bool>)
    ensures |v| == size
    ensures forall i :: 0 <= i < size ==> (v[i] <==> i + 1 in indices)
  {
    seq(size, i requires 0 <= i < size => i + 1 in indices)
  }

  /** Only which indices are listed matters: order and repetition do not. */
  lemma IndicatorIgnoresOrder(a: seq<int>, b: seq<int>, size: nat)
    requires forall x :: x in a <==> x in b
    ensures Indicator(a, size) == Indicator(b, size)
  {
  }
}
