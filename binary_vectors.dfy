/** multilabel_preprocessing.py: the 0/1 integer vectorizer. */
module BinaryVectors {
  import opened Wrappers
  import opened Text
  import opened Indices

  /** The message of the ValueError raised for an index outside `1..size`. */
  function RangeMessage(size: nat): string
  {
    "Tous les indices doivent être compris entre 1 et " + NatToString(size) + "."
  }

  /**
   * `vectorizer(indices_positifs, taille_vecteur)`: a zero vector of length
   * `size` with a 1 written at position `idx - 1` for each listed index; an
   * empty list gives zeros, and an index outside `1..size` is refused.
   */
  method Vectorize(indices: seq<int>, size: nat) returns (r: Result<seq<int>, string>)
    ensures !AllInRange(indices, size) ==> r == Err(RangeMessage(size))
    ensures AllInRange(indices, size) ==> r.Ok? && |r.value| == size
    ensures AllInRange(indices, size) ==>
              forall i :: 0 <= i < size ==> r.value[i] == if i + 1 in indices then 1 else 0
    ensures r.Ok? ==> forall i :: 0 <= i < |r.value| ==> r.value[i] == 0 || r.value[i] == 1
  {
    var vector := new int[size](_ => 0);
    if indices != [] {
      var k := 0;
      while k < |indices|
        invariant 0 <= k <= |indices|
        invariant forall j :: 0 <= j < k ==> 1 <= indices[j] <= size
      {
        if !(1 <= indices[k] <= size) {
          return Err(RangeMessage(size));
        }
        k := k + 1;
      }
      for k := 0 to |indices|
        invariant forall i :: 0 <= i < size ==> vector[i] == if i + 1 in indices[..k] then 1 else 0
      {
        assert indices[..k + 1] == indices[..k] + [indices[k]];
        vector[indices[k] - 1] := 1;
      }
      assert indices[..|indices|] == indices;
    }
    r := Ok(vector[..]);
  }

  /** The message for the default size names 26. */
  lemma DefaultRangeMessage()
    ensures RangeMessage(26) == "Tous les indices doivent être compris entre 1 et 26."
  {
  }
}
