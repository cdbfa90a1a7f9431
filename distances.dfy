/**
 * The distance of `distance_categorie` (identical in both versions of
 * MeSH.py once the record key is read consistently): resolve both names
 * case-insensitively, answer +∞ when either is missing or has no tree
 * number, otherwise take the least edge count through a common ancestor over
 * all pairs of tree numbers, and 10 when no pair has one.
 */
module Distances {
  import opened Wrappers
  import opened Descriptors
  import opened TreeNumbers

  /** A distance: `float('inf')` or a whole number of edges. */
  datatype Dist = Inf | Fin(n: int)

  /** The fallback for two descriptors none of whose tree numbers share an ancestor. */
  const Unrelated := 10

  /** Python's `min`, with +∞ above every number. */
  function Min(a: Dist, b: Dist): Dist
  {
    match a
    case Inf => b
    case Fin(x) =>
      match b
      case Inf => a
      case Fin(y) => if y < x then b else a
  }

  /** `a <= b`, with +∞ above every number. */
  predicate AtMost(a: Dist, b: Dist)
  {
    match b
    case Inf => true
    case Fin(y) => a.Fin? && a.n <= y
  }

  /**
   * The distance of one pair through its common ancestor, counted in
   * segments; +∞ when `ancetre_commun` gives None or the empty (falsy) string.
   */
  function PairDistance(t1: string, t2: string): Dist
  {
    match Ancestor(t1, t2)
    case None => Inf
    case Some(a) => if a == "" then Inf else Fin((Depth(t1) - Depth(a)) + (Depth(t2) - Depth(a)))
  }

  /** Least pair distance of `t1` against the tree numbers `ts2`, in loop order. */
  function RowMin(t1: string, ts2: seq<string>): Dist
  {
    if |ts2| == 0 then Inf
    else Min(RowMin(t1, ts2[..|ts2| - 1]), PairDistance(t1, ts2[|ts2| - 1]))
  }

  /** Least pair distance over the cartesian product, in loop order. */
  function ProductMin(ts1: seq<string>, ts2: seq<string>): Dist
  {
    if |ts1| == 0 then Inf
    else Min(ProductMin(ts1[..|ts1| - 1], ts2), RowMin(ts1[|ts1| - 1], ts2))
  }

  /** `min_distance if min_distance != float('inf') else 10`. */
  function Closest(ts1: seq<string>, ts2: seq<string>): Dist
  {
    var m := ProductMin(ts1, ts2);
    if m == Inf then Fin(Unrelated) else m
  }

  /** The whole of `distance_categorie` on the records `root`. */
  function Distance(root: seq<Descriptor>, name1: string, name2: string): (r: Dist)
    ensures r == Inf <==> !Placed(root, name1) || !Placed(root, name2)
  {
    var d1 := Lookup(root, ByName, name1, true);
    var d2 := Lookup(root, ByName, name2, true);
    if d1.None? || d2.None? then Inf
    else if d1.value.trees == [] || d2.value.trees == [] then Inf
    else Closest(d1.value.trees, d2.value.trees)
  }

  /** The inner loop of `distance_categorie`: lowers `minDistance` by the pairs of `tree1` with `ts2`. */
  method ClosestInRow(tree1: string, ts2: seq<string>, start: Dist) returns (minDistance: Dist)
    ensures minDistance == Min(start, RowMin(tree1, ts2))
  {
    minDistance := start;
    var j := 0;
    while j < |ts2|
      invariant 0 <= j <= |ts2|
      invariant minDistance == Min(start, RowMin(tree1, ts2[..j]))
    {
      var tree2 := ts2[j];
      var ancestor := CommonAncestor(tree1, tree2);
      ghost var before := minDistance;
      if ancestor.Some? && ancestor.value != "" {
        var distance := (|Segments(tree1)| - |Segments(ancestor.value)|)
                        + (|Segments(tree2)| - |Segments(ancestor.value)|);
        minDistance := Min(minDistance, Fin(distance));
      }
      assert minDistance == Min(before, PairDistance(tree1, tree2));
      MinAssociates(start, RowMin(tree1, ts2[..j]), PairDistance(tree1, tree2));
      assert ts2[..j + 1][..j] == ts2[..j];
      j := j + 1;
    }
    assert ts2[..j] == ts2;
  }

  /** The nested loops of `distance_categorie` that update `min_distance`, and its fallback to 10. */
  method ClosestDistance(ts1: seq<string>, ts2: seq<string>) returns (r: Dist)
    ensures r == Closest(ts1, ts2)
  {
    var minDistance := Inf;
    var i := 0;
    while i < |ts1|
      invariant 0 <= i <= |ts1|
      invariant minDistance == ProductMin(ts1[..i], ts2)
    {
      minDistance := ClosestInRow(ts1[i], ts2, minDistance);
      assert ts1[..i + 1][..i] == ts1[..i];
      i := i + 1;
    }
    assert ts1[..i] == ts1;
    r := if minDistance != Inf then minDistance else Fin(Unrelated);
  }

  lemma MinAssociates(a: Dist, b: Dist, c: Dist)
    ensures Min(Min(a, b), c) == Min(a, Min(b, c))
  {
  }

  /**
   * The pair distance is symmetric, is the number of segments of both tree
   * numbers outside their common prefix (so never negative), and is 0 for a
   * non-empty tree number against itself.
   */
  lemma PairDistanceFacts(t1: string, t2: string)
    ensures PairDistance(t1, t2) == PairDistance(t2, t1)
    ensures PairDistance(t1, t2).Fin? ==>
              PairDistance(t1, t2).n == Depth(t1) + Depth(t2) - 2 * |CommonPrefix(Segments(t1), Segments(t2))|
    ensures PairDistance(t1, t2).Fin? ==> PairDistance(t1, t2).n >= 0
    ensures t1 != "" ==> PairDistance(t1, t1) == Fin(0)
  {
    AncestorCommutes(t1, t2);
    AncestorIsLongestCommonPrefix(t1, t2);
    AncestorSelf(t1);
  }

  lemma MinFacts(a: Dist, b: Dist)
    ensures AtMost(Min(a, b), a) && AtMost(Min(a, b), b)
    ensures Min(a, b) == a || Min(a, b) == b
  {
  }

  lemma AtMostTransitive(a: Dist, b: Dist, c: Dist)
    requires AtMost(a, b) && AtMost(b, c)
    ensures AtMost(a, c)
  {
  }

  /** RowMin is at most every pair distance of its row. */
  lemma {:induction false} RowMinBound(t1: string, ts2: seq<string>)
    ensures forall j :: 0 <= j < |ts2| ==> AtMost(RowMin(t1, ts2), PairDistance(t1, ts2[j]))
    decreases |ts2|
  {
    if |ts2| > 0 {
      var front := ts2[..|ts2| - 1];
      var m, row := RowMin(t1, ts2), RowMin(t1, front);
      RowMinBound(t1, front);
      MinFacts(row, PairDistance(t1, ts2[|ts2| - 1]));
      forall j | 0 <= j < |ts2|
        ensures AtMost(m, PairDistance(t1, ts2[j]))
      {
        if j < |front| {
          assert front[j] == ts2[j];
          AtMostTransitive(m, row, PairDistance(t1, front[j]));
        }
      }
    }
  }

  /** RowMin is attained by a pair of its row when finite. */
  lemma {:induction false} RowMinAttained(t1: string, ts2: seq<string>)
    ensures RowMin(t1, ts2).Fin? ==> exists j :: 0 <= j < |ts2| && PairDistance(t1, ts2[j]) == RowMin(t1, ts2)
    decreases |ts2|
  {
    if |ts2| > 0 {
      var front := ts2[..|ts2| - 1];
      RowMinAttained(t1, front);
      MinFacts(RowMin(t1, front), PairDistance(t1, ts2[|ts2| - 1]));
      if RowMin(t1, ts2).Fin? && RowMin(t1, ts2) == RowMin(t1, front) {
        var j :| 0 <= j < |front| && PairDistance(t1, front[j]) == RowMin(t1, front);
        assert front[j] == ts2[j];
      }
    }
  }

  /** RowMin is the least pair distance of its row, and is attained when finite. */
  lemma RowMinIsLeast(t1: string, ts2: seq<string>)
    ensures forall j :: 0 <= j < |ts2| ==> AtMost(RowMin(t1, ts2), PairDistance(t1, ts2[j]))
    ensures RowMin(t1, ts2).Fin? ==> exists j :: 0 <= j < |ts2| && PairDistance(t1, ts2[j]) == RowMin(t1, ts2)
  {
    RowMinBound(t1, ts2);
    RowMinAttained(t1, ts2);
  }

  /** ProductMin is at most every pair distance over the product. */
  lemma {:induction false} ProductMinBound(ts1: seq<string>, ts2: seq<string>)
    ensures forall i, j :: 0 <= i < |ts1| && 0 <= j < |ts2| ==>
              AtMost(ProductMin(ts1, ts2), PairDistance(ts1[i], ts2[j]))
    decreases |ts1|
  {
    if |ts1| > 0 {
      var front := ts1[..|ts1| - 1];
      var last := ts1[|ts1| - 1];
      var m, p, row := ProductMin(ts1, ts2), ProductMin(front, ts2), RowMin(last, ts2);
      ProductMinBound(front, ts2);
      RowMinBound(last, ts2);
      MinFacts(p, row);
      forall i, j | 0 <= i < |ts1| && 0 <= j < |ts2|
        ensures AtMost(m, PairDistance(ts1[i], ts2[j]))
      {
        if i < |front| {
          assert front[i] == ts1[i];
          AtMostTransitive(m, p, PairDistance(front[i], ts2[j]));
        } else {
          AtMostTransitive(m, row, PairDistance(last, ts2[j]));
        }
      }
    }
  }

  /** ProductMin is attained by some pair when finite. */
  lemma {:induction false} ProductMinAttained(ts1: seq<string>, ts2: seq<string>)
    ensures ProductMin(ts1, ts2).Fin? ==>
              exists i, j :: 0 <= i < |ts1| && 0 <= j < |ts2| && PairDistance(ts1[i], ts2[j]) == ProductMin(ts1, ts2)
    decreases |ts1|
  {
    if |ts1| > 0 {
      var front := ts1[..|ts1| - 1];
      var last := ts1[|ts1| - 1];
      var m, p, row := ProductMin(ts1, ts2), ProductMin(front, ts2), RowMin(last, ts2);
      ProductMinAttained(front, ts2);
      RowMinAttained(last, ts2);
      MinFacts(p, row);
      if m.Fin? {
        if m == p {
          var i, j :| 0 <= i < |front| && 0 <= j < |ts2| && PairDistance(front[i], ts2[j]) == p;
          assert front[i] == ts1[i];
        } else {
          var j :| 0 <= j < |ts2| && PairDistance(last, ts2[j]) == row;
          assert ts1[|ts1| - 1] == last;
        }
      }
    }
  }

  /** ProductMin is the least pair distance over the product, and is attained when finite. */
  lemma ProductMinIsLeast(ts1: seq<string>, ts2: seq<string>)
    ensures forall i, j :: 0 <= i < |ts1| && 0 <= j < |ts2| ==>
              AtMost(ProductMin(ts1, ts2), PairDistance(ts1[i], ts2[j]))
    ensures ProductMin(ts1, ts2).Fin? ==>
              exists i, j :: 0 <= i < |ts1| && 0 <= j < |ts2| && PairDistance(ts1[i], ts2[j]) == ProductMin(ts1, ts2)
  {
    ProductMinBound(ts1, ts2);
    ProductMinAttained(ts1, ts2);
  }

  /** Swapping the two lists does not change the least pair distance. */
  lemma ProductMinSymmetric(ts1: seq<string>, ts2: seq<string>)
    ensures ProductMin(ts1, ts2) == ProductMin(ts2, ts1)
  {
    ProductMinIsLeast(ts1, ts2);
    ProductMinIsLeast(ts2, ts1);
    var x, y := ProductMin(ts1, ts2), ProductMin(ts2, ts1);
    if x.Fin? {
      var i, j :| 0 <= i < |ts1| && 0 <= j < |ts2| && PairDistance(ts1[i], ts2[j]) == x;
      PairDistanceFacts(ts1[i], ts2[j]);
      assert AtMost(y, x);
    }
    if y.Fin? {
      var j, i :| 0 <= j < |ts2| && 0 <= i < |ts1| && PairDistance(ts2[j], ts1[i]) == y;
      PairDistanceFacts(ts2[j], ts1[i]);
      assert AtMost(x, y);
    }
  }

  /** A descriptor reference that names a record with at least one tree number. */
  predicate Placed(root: seq<Descriptor>, name: string)
  {
    var d := Lookup(root, ByName, name, true);
    d.Some? && d.value.trees != []
  }

  /**
   * The three outcomes of the distance: +∞ exactly when a name does not
   * resolve or its record has no tree number; otherwise 10 when no pair of
   * tree numbers has a common ancestor, and else the least pair distance,
   * attained by some pair and never negative.
   */
  lemma DistanceCases(root: seq<Descriptor>, name1: string, name2: string)
    ensures Distance(root, name1, name2) == Inf <==> !Placed(root, name1) || !Placed(root, name2)
    ensures Placed(root, name1) && Placed(root, name2) ==>
              var ts1 := Lookup(root, ByName, name1, true).value.trees;
              var ts2 := Lookup(root, ByName, name2, true).value.trees;
              var r := Distance(root, name1, name2);
              && ((forall i, j :: 0 <= i < |ts1| && 0 <= j < |ts2| ==> PairDistance(ts1[i], ts2[j]) == Inf)
                   ==> r == Fin(Unrelated))
              && ((exists i, j :: 0 <= i < |ts1| && 0 <= j < |ts2| && PairDistance(ts1[i], ts2[j]).Fin?)
                   ==> && r.Fin? && r.n >= 0
                       && (exists i, j :: 0 <= i < |ts1| && 0 <= j < |ts2| && PairDistance(ts1[i], ts2[j]) == r)
                       && (forall i, j :: 0 <= i < |ts1| && 0 <= j < |ts2| ==> AtMost(r, PairDistance(ts1[i], ts2[j]))))
  {
    if Placed(root, name1) && Placed(root, name2) {
      var ts1 := Lookup(root, ByName, name1, true).value.trees;
      var ts2 := Lookup(root, ByName, name2, true).value.trees;
      ProductMinIsLeast(ts1, ts2);
      if ProductMin(ts1, ts2).Fin? {
        var i, j :| 0 <= i < |ts1| && 0 <= j < |ts2| && PairDistance(ts1[i], ts2[j]) == ProductMin(ts1, ts2);
        PairDistanceFacts(ts1[i], ts2[j]);
      }
    }
  }

  /** The distance is symmetric in its two arguments. */
  lemma DistanceSymmetric(root: seq<Descriptor>, name1: string, name2: string)
    ensures Distance(root, name1, name2) == Distance(root, name2, name1)
  {
    var d1 := Lookup(root, ByName, name1, true);
    var d2 := Lookup(root, ByName, name2, true);
    if d1.Some? && d2.Some? {
      ProductMinSymmetric(d1.value.trees, d2.value.trees);
    }
  }

  /** A descriptor with a non-empty tree number is at distance 0 from itself. */
  lemma DistanceSelf(root: seq<Descriptor>, name: string, k: nat)
    requires Lookup(root, ByName, name, true).Some?
    requires k < |Lookup(root, ByName, name, true).value.trees|
    requires Lookup(root, ByName, name, true).value.trees[k] != ""
    ensures Distance(root, name, name) == Fin(0)
  {
    ClosestSelf(Lookup(root, ByName, name, true).value.trees, k);
  }

  lemma ClosestSelf(ts: seq<string>, k: nat)
    requires k < |ts| && ts[k] != ""
    ensures Closest(ts, ts) == Fin(0)
  {
    var m := ProductMin(ts, ts);
    ProductMinBound(ts, ts);
    PairDistanceFacts(ts[k], ts[k]);
    assert AtMost(m, PairDistance(ts[k], ts[k]));
    ProductMinAttained(ts, ts);
    var i, j :| 0 <= i < |ts| && 0 <= j < |ts| && PairDistance(ts[i], ts[j]) == m;
    PairDistanceFacts(ts[i], ts[j]);
  }
}
