/**
 * Script/multilabel_preprocessing.py: the boolean vectorizer and the decoding
 * of a 26-position vector into the labels of the disease branches C01-C26.
 */
module LabelVectors {
  import opened Wrappers
  import opened Text
  import opened Indices

  /** The message of the ValueError raised for an index outside `1..size`. */
  function RangeMessage(size: nat): string
  {
    "Tous les indices doivent être compris entre 1 et " + NatToString(size) + " inclus."
  }

  const LengthMessage := "Le vecteur doit être de longueur 26."

  /**
   * `vectorizer(indices_positifs, taille_vecteur)`: None or an empty list gives
   * the all-False vector; an index outside `1..size` is refused; otherwise a
   * False vector of length `size` with True written at each `idx - 1`.
   */
  method Vectorize(indices: Option<seq<int>>, size: nat) returns (r: Result<seq<bool>, string>)
    ensures indices.None? || indices.value == [] ==> r == Ok(seq(size, _ => false))
    ensures indices.Some? && !AllInRange(indices.value, size) ==> r == Err(RangeMessage(size))
    ensures indices.Some? && AllInRange(indices.value, size) ==> r == Ok(Indicator(indices.value, size))
  {
    if indices.None? || indices.value == [] {
      var zeros := new bool[size](_ => false);
      assert zeros[..] == seq(size, _ => false);
      assert indices.Some? ==> zeros[..] == Indicator(indices.value, size);
      return Ok(zeros[..]);
    }
    var positions := indices.value;
    var k := 0;
    while k < |positions|
      invariant 0 <= k <= |positions|
      invariant forall j :: 0 <= j < k ==> 1 <= positions[j] <= size
    {
      if !(1 <= positions[k] <= size) {
        return Err(RangeMessage(size));
      }
      k := k + 1;
    }
    var vector := new bool[size](_ => false);
    for k := 0 to |positions|
      invariant forall i :: 0 <= i < size ==> (vector[i] <==> i + 1 in positions[..k])
    {
      assert positions[..k + 1] == positions[..k] + [positions[k]];
      vector[positions[k] - 1] := true;
    }
    assert positions[..|positions|] == positions;
    assert vector[..] == Indicator(positions, size);
    r := Ok(vector[..]);
  }

  /** `mesh_labels`: the labels of positions 0..25. */
  const MeshLabels: seq<string> := [
    "C01 – bacterial infections and mycoses",
    "C02 – virus diseases",
    "C03 – parasitic diseases",
    "C04 – neoplasms",
    "C05 – musculoskeletal diseases",
    "C06 – digestive system diseases",
    "C07 – stomatognathic diseases",
    "C08 – respiratory tract diseases",
    "C09 – otorhinolaryngologic diseases",
    "C10 – nervous system diseases",
    "C11 – eye diseases",
    "C12 – urologic and male genital diseases",
    "C13 – female genital diseases and pregnancy complications",
    "C14 – cardiovascular diseases",
    "C15 – hemic and lymphatic diseases",
    "C16 – congenital, hereditary, and neonatal diseases and abnormalities",
    "C17 – skin and connective tissue diseases",
    "C18 – nutritional and metabolic diseases",
    "C19 – endocrine system diseases",
    "C20 – immune system diseases",
    "C21 – disorders of environmental origin",
    "C22 – animal diseases",
    "C23 – pathological conditions, signs and symptoms",
    "C24 – occupational diseases",
    "C25 – chemically induced disorders",
    "C26 – wounds and injuries"]

  predicate Increasing(p: seq<int>)
  {
    forall i, j :: 0 <= i < j < |p| ==> p[i] < p[j]
  }

  /** The positions holding True, in ascending order. */
  function TruePositions(v: seq<bool>): (p: seq<int>)
    ensures forall k :: 0 <= k < |p| ==> 0 <= p[k] < |v| && v[p[k]]
    ensures forall i :: 0 <= i < |v| && v[i] ==> i in p
    ensures Increasing(p)
  {
    if v == [] then []
    else
      var rest := TruePositions(v[..|v| - 1]);
      if v[|v| - 1] then rest + [|v| - 1] else rest
  }

  /** `[label for is_active, label in zip(vector, labels) if is_active]`. */
  function Select(v: seq<bool>, labels: seq<string>): (r: seq<string>)
    requires |v| == |labels|
    ensures |r| <= |v|
    ensures forall k :: 0 <= k < |r| ==> r[k] in labels
  {
    if v == [] then []
    else
      var n := |v| - 1;
      Select(v[..n], labels[..n]) + (if v[n] then [labels[n]] else [])
  }

  /**
   * `mesh_labels_from_vector(vector)`: a vector whose length is not 26 is
   * refused; otherwise the labels at its True positions.
   */
  function LabelsFromVector(v: seq<bool>): (r: Result<seq<string>, string>)
    ensures |v| != 26 <==> r == Err(LengthMessage)
  {
    if |v| != 26 then Err(LengthMessage) else Ok(Select(v, MeshLabels))
  }

  /** The labels at the positions `p`, in the order of `p`. */
  function LabelsAt(p: seq<int>, labels: seq<string>): seq<string>
    requires forall k :: 0 <= k < |p| ==> 0 <= p[k] < |labels|
  {
    seq(|p|, k requires 0 <= k < |p| => labels[p[k]])
  }

  lemma LabelsAtFront(p: seq<int>, labels: seq<string>, n: nat)
    requires n <= |labels| && forall k :: 0 <= k < |p| ==> 0 <= p[k] < n
    ensures LabelsAt(p, labels[..n]) == LabelsAt(p, labels)
  {
  }

  lemma LabelsAtSnoc(p: seq<int>, labels: seq<string>, n: nat)
    requires n < |labels| && forall k :: 0 <= k < |p| ==> 0 <= p[k] < |labels|
    ensures LabelsAt(p + [n], labels) == LabelsAt(p, labels) + [labels[n]]
  {
  }

  /** The selection lists the labels at the True positions, in ascending position order. */
  lemma {:induction false} SelectPositions(v: seq<bool>, labels: seq<string>)
    requires |v| == |labels|
    ensures Select(v, labels) == LabelsAt(TruePositions(v), labels)
  {
    if v != [] {
      var n := |v| - 1;
      var q := TruePositions(v[..n]);
      SelectPositions(v[..n], labels[..n]);
      LabelsAtFront(q, labels, n);
      if v[n] {
        LabelsAtSnoc(q, labels, n);
      }
    }
  }

  /** As many positions as True entries. */
  lemma {:induction false} TruePositionsCount(v: seq<bool>)
    ensures |TruePositions(v)| == multiset(v)[true]
  {
    if v != [] {
      var n := |v| - 1;
      TruePositionsCount(v[..n]);
      assert v == v[..n] + [v[n]];
    }
  }

  /** The decoded labels: those at the True positions in order, one per True entry. */
  lemma LabelsFromVectorSelects(v: seq<bool>)
    requires |v| == 26
    ensures LabelsFromVector(v) == Ok(LabelsAt(TruePositions(v), MeshLabels))
    ensures |LabelsFromVector(v).value| == multiset(v)[true]
  {
    SelectPositions(v, MeshLabels);
    TruePositionsCount(v);
  }

  /** Two increasing sequences with the same elements are equal. */
  lemma {:induction false} IncreasingUnique(a: seq<int>, b: seq<int>)
    requires Increasing(a) && Increasing(b)
    requires forall x :: x in a <==> x in b
    ensures a == b
    decreases |a|
  {
    if a != [] {
      assert a[0] in a;
    }
    if b != [] {
      assert b[0] in b;
    }
    if a != [] && b != [] {
      assert a[0] == b[0] by {
        assert a[0] in b && b[0] in a;
      }
      var a', b' := a[1..], b[1..];
      forall x
        ensures x in a' <==> x in b'
      {
        if x in a' {
          assert x in b && x != b[0];
        }
        if x in b' {
          assert x in a && x != a[0];
        }
      }
      IncreasingUnique(a', b');
      assert a == [a[0]] + a' && b == [b[0]] + b';
    }
  }

  /** The True positions of the vector of `s` are the distinct indices of `s`, less one, in increasing order. */
  lemma IndicatorPositions(s: seq<int>, d: seq<int>, size: nat)
    requires AllInRange(s, size)
    requires AllInRange(d, size) && Increasing(d) && forall x :: x in d <==> x in s
    ensures TruePositions(Indicator(s, size)) == seq(|d|, k requires 0 <= k < |d| => d[k] - 1)
  {
    var v := Indicator(s, size);
    var p := TruePositions(v);
    var q := seq(|d|, k requires 0 <= k < |d| => d[k] - 1);
    forall x
      ensures x in p <==> x in q
    {
      if x in q {
        var k :| 0 <= k < |q| && q[k] == x;
        assert d[k] in s;
        assert 0 <= x < size && v[x];
      }
      if x in p {
        assert x + 1 in s;
        assert x + 1 in d;
        var k :| 0 <= k < |d| && d[k] == x + 1;
        assert q[k] == x;
      }
    }
    IncreasingUnique(p, q);
  }

  /** Selecting from the vector of `s` gives the labels of its distinct indices in increasing order. */
  lemma SelectIndicator(s: seq<int>, d: seq<int>, labels: seq<string>)
    requires AllInRange(s, |labels|)
    requires AllInRange(d, |labels|) && Increasing(d) && forall x :: x in d <==> x in s
    ensures Select(Indicator(s, |labels|), labels) == seq(|d|, k requires 0 <= k < |d| => labels[d[k] - 1])
  {
    IndicatorPositions(s, d, |labels|);
    SelectPositions(Indicator(s, |labels|), labels);
  }

  /**
   * Round trip: decoding the vector of a list of indices in `1..26` gives the
   * labels of its distinct indices in increasing order (`d`).
   */
  lemma RoundTrip(s: seq<int>, d: seq<int>)
    requires AllInRange(s, 26)
    requires AllInRange(d, 26) && Increasing(d) && forall x :: x in d <==> x in s
    ensures LabelsFromVector(Indicator(s, 26)) == Ok(seq(|d|, k requires 0 <= k < |d| => MeshLabels[d[k] - 1]))
  {
    var labels := MeshLabels;
    assert |labels| == 26;
    SelectIndicator(s, d, labels);
  }
}
