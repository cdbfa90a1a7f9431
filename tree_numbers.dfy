/**
 * Dotted tree numbers such as `C08.360.480`: their segments, truncation to a
 * depth, and `ancetre_commun`, the longest common segment prefix of two tree
 * numbers (identical in both versions of MeSH.py).
 */
module TreeNumbers {
  import opened Wrappers
  import opened Text

  /** `t.split('.')`. */
  function Segments(t: string): seq<string>
  {
    Split(t, '.')
  }

  /** The depth of a tree number is its number of segments. */
  function Depth(t: string): nat
  {
    |Segments(t)|
  }

  /** The code made of the first `level` segments: `'.'.join(t.split('.')[:level])`. */
  function Truncate(t: string, level: nat): (a: string)
    requires 1 <= level <= Depth(t)
    ensures Segments(a) == Segments(t)[..level]
    ensures |a| <= |t| && a == t[..|a|]
  {
    var segs := Segments(t);
    SplitJoin(segs[..level], '.');
    JoinSplit(t, '.');
    if level < |segs| then
      JoinAt(segs, level, ".");
      Join(segs[..level], ".")
    else
      assert segs[..level] == segs;
      Join(segs[..level], ".")
  }

  /** A tree number truncated to its own depth is itself. */
  lemma TruncateFull(t: string)
    ensures Truncate(t, Depth(t)) == t
  {
    JoinSplit(t, '.');
    assert Segments(t)[..Depth(t)] == Segments(t);
  }

  /**
   * The segments shared from the root: walk both lists together and stop at
   * the first mismatch or at the end of either (`zip` followed by `break`).
   */
  function CommonPrefix(s1: seq<string>, s2: seq<string>): (p: seq<string>)
    ensures |p| <= |s1| && |p| <= |s2|
    ensures p == s1[..|p|] && p == s2[..|p|]
    ensures |p| == |s1| || |p| == |s2| || s1[|p|] != s2[|p|]
  {
    if |s1| == 0 || |s2| == 0 || s1[0] != s2[0] then []
    else [s1[0]] + CommonPrefix(s1[1..], s2[1..])
  }

  /** The result of `ancetre_commun`: the dot-joined common prefix, None when it is empty. */
  function Ancestor(t1: string, t2: string): (r: Option<string>)
    ensures r.None? <==> Segments(t1)[0] != Segments(t2)[0]
  {
    var p := CommonPrefix(Segments(t1), Segments(t2));
    if p == [] then None else Some(Join(p, "."))
  }

  /** The three properties of CommonPrefix fix it: any list with them is the common prefix. */
  lemma CommonPrefixUnique(s1: seq<string>, s2: seq<string>, k: nat)
    requires k <= |s1| && k <= |s2| && s1[..k] == s2[..k]
    requires k == |s1| || k == |s2| || s1[k] != s2[k]
    ensures CommonPrefix(s1, s2) == s1[..k]
  {
  }

  /** `ancetre_commun(tree1, tree2)`: append matching segments, break at the first mismatch. */
  method CommonAncestor(t1: string, t2: string) returns (r: Option<string>)
    ensures r == Ancestor(t1, t2)
  {
    var segments1 := Segments(t1);
    var segments2 := Segments(t2);
    var ancestor: seq<string> := [];
    var i := 0;
    while i < |segments1| && i < |segments2|
      invariant i <= |segments1| && i <= |segments2|
      invariant ancestor == segments1[..i] == segments2[..i]
    {
      if segments1[i] == segments2[i] {
        ancestor := ancestor + [segments1[i]];
      } else {
        break;
      }
      i := i + 1;
      assert ancestor == segments1[..i] == segments2[..i];
    }
    CommonPrefixUnique(segments1, segments2, i);
    r := if ancestor == [] then None else Some(Join(ancestor, "."));
  }

  lemma {:induction false} CommonPrefixCommutes(s1: seq<string>, s2: seq<string>)
    ensures CommonPrefix(s1, s2) == CommonPrefix(s2, s1)
  {
    if |s1| > 0 && |s2| > 0 && s1[0] == s2[0] {
      CommonPrefixCommutes(s1[1..], s2[1..]);
    }
  }

  lemma {:induction false} CommonPrefixSelf(s: seq<string>)
    ensures CommonPrefix(s, s) == s
  {
    if |s| > 0 {
      CommonPrefixSelf(s[1..]);
      assert s == [s[0]] + s[1..];
    }
  }

  /** `ancetre_commun` is commutative. */
  lemma AncestorCommutes(t1: string, t2: string)
    ensures Ancestor(t1, t2) == Ancestor(t2, t1)
  {
    CommonPrefixCommutes(Segments(t1), Segments(t2));
  }

  /** Every tree number is its own common ancestor. */
  lemma AncestorSelf(t: string)
    ensures Ancestor(t, t) == Some(t)
  {
    CommonPrefixSelf(Segments(t));
    JoinSplit(t, '.');
  }

  /**
   * The ancestor is absent exactly when the first segments differ; when it is
   * present it is a truncation of both tree numbers, and its segments are the
   * longest common segment prefix.
   */
  lemma AncestorIsLongestCommonPrefix(t1: string, t2: string)
    ensures Ancestor(t1, t2).None? <==> Segments(t1)[0] != Segments(t2)[0]
    ensures Ancestor(t1, t2).Some? ==>
              var a := Ancestor(t1, t2).value;
              && 1 <= Depth(a) <= Depth(t1) && 1 <= Depth(a) <= Depth(t2)
              && a == Truncate(t1, Depth(a)) && a == Truncate(t2, Depth(a))
              && Segments(a) == CommonPrefix(Segments(t1), Segments(t2))
  {
    var s1, s2 := Segments(t1), Segments(t2);
    var p := CommonPrefix(s1, s2);
    if p != [] {
      forall k | 0 <= k < |p| ensures '.' !in p[k] {
        assert p[k] == s1[k];
      }
      SplitJoin(p, '.');
      var a := Join(p, ".");
      assert Segments(a) == p == s1[..|p|] == s2[..|p|];
      TruncateSegments(t1, |p|, a);
      TruncateSegments(t2, |p|, a);
    }
  }

  /** A string is the truncation of `t` at `level` when its segments are the first `level` of `t`'s. */
  lemma TruncateSegments(t: string, level: nat, a: string)
    requires 1 <= level <= Depth(t)
    requires Segments(a) == Segments(t)[..level]
    ensures a == Truncate(t, level)
  {
    JoinSplit(a, '.');
    JoinSplit(Truncate(t, level), '.');
  }
}
