/**
 * `list_to_dict` (identical in both versions of MeSH.py): split each
 * `"Term / Qualifier"` entry and gather the terms into sets keyed by
 * qualifier.
 */
module Qualifiers {
  import opened Text

  const Separator := " / "
  const NoQualifier := "No Qualifier"

  /** The (term, qualifier) an entry contributes: both parts of a two-part split, else `parts[0]` under "No Qualifier". */
  function Classify(entry: string): (r: (string, string))
    ensures |r.0| <= |entry| && r.0 == entry[..|r.0|]
  {
    var parts := SplitOn(entry, Separator);
    SplitOnFirstPrefix(entry, Separator);
    if |parts| == 2 then (parts[0], parts[1]) else (parts[0], NoQualifier)
  }

  /**
   * A two-part entry is exactly its term, the separator and its qualifier;
   * an entry without the separator is filed whole under "No Qualifier".
   */
  lemma ClassifyShape(entry: string)
    ensures |SplitOn(entry, Separator)| == 2 ==>
              entry == Classify(entry).0 + Separator + Classify(entry).1
    ensures |SplitOn(entry, Separator)| == 1 ==> Classify(entry) == (entry, NoQualifier)
  {
    var parts := SplitOn(entry, Separator);
    JoinSplitOn(entry, Separator);
    if |parts| == 2 {
      JoinCons(parts[0], parts[1..], Separator);
      assert parts[1..] == [parts[1]];
    }
  }

  /** `mesh_dict[qualifier].add(term)` on a defaultdict(set). */
  function Add(m: map<string, set<string>>, qualifier: string, term: string): map<string, set<string>>
  {
    m[qualifier := (if qualifier in m then m[qualifier] else {}) + {term}]
  }

  /** The (term, qualifier) pairs of the entries, in order. */
  function Pairs(entries: seq<string>): (ps: seq<(string, string)>)
    ensures |ps| == |entries|
  {
    seq(|entries|, k requires 0 <= k < |entries| => Classify(entries[k]))
  }

  /** The dictionary after the loop has added the pairs `ps`, in order. */
  function Collect(ps: seq<(string, string)>): (m: map<string, set<string>>)
    ensures forall q :: q in m ==> m[q] != {}
  {
    if |ps| == 0 then map[]
    else Add(Collect(ps[..|ps| - 1]), ps[|ps| - 1].1, ps[|ps| - 1].0)
  }

  /** The dictionary `list_to_dict` returns. */
  function Grouping(entries: seq<string>): (m: map<string, set<string>>)
    ensures forall q :: q in m ==> m[q] != {}
  {
    Collect(Pairs(entries))
  }

  lemma {:induction false} CollectMembership(ps: seq<(string, string)>)
    ensures forall q :: q in Collect(ps) <==> exists k :: 0 <= k < |ps| && ps[k].1 == q
    ensures forall q, t :: q in Collect(ps) ==> (t in Collect(ps)[q] <==> exists k :: 0 <= k < |ps| && ps[k] == (t, q))
    decreases |ps|
  {
    if |ps| > 0 {
      var front := ps[..|ps| - 1];
      var last := |ps| - 1;
      CollectMembership(front);
      assert forall k :: 0 <= k < |front| ==> front[k] == ps[k];
      forall q
        ensures q in Collect(ps) <==> exists k :: 0 <= k < |ps| && ps[k].1 == q
      {
        if q in Collect(ps) && q !in Collect(front) {
          assert ps[last].1 == q;
        }
      }
      forall q, t | q in Collect(ps)
        ensures t in Collect(ps)[q] <==> exists k :: 0 <= k < |ps| && ps[k] == (t, q)
      {
        if t in Collect(ps)[q] && !(q in Collect(front) && t in Collect(front)[q]) {
          assert ps[last] == (t, q);
        }
        if exists k :: 0 <= k < |ps| && ps[k] == (t, q) {
          var k :| 0 <= k < |ps| && ps[k] == (t, q);
          if k < last {
            assert front[k] == (t, q);
          }
        }
      }
    }
  }

  /**
   * The keys are exactly the qualifiers some entry produces, and a term lies
   * under a qualifier exactly when some entry produces that pair.
   */
  lemma GroupingMembership(entries: seq<string>)
    ensures forall q :: q in Grouping(entries) <==> exists k :: 0 <= k < |entries| && Classify(entries[k]).1 == q
    ensures forall q, t :: q in Grouping(entries) ==>
              (t in Grouping(entries)[q] <==> exists k :: 0 <= k < |entries| && Classify(entries[k]) == (t, q))
  {
    var ps := Pairs(entries);
    CollectMembership(ps);
    assert forall k :: 0 <= k < |entries| ==> ps[k] == Classify(entries[k]);
  }

  /** Every pair added is present in the dictionary. */
  lemma {:induction false} CollectHas(ps: seq<(string, string)>, k: nat)
    requires k < |ps|
    ensures ps[k].1 in Collect(ps) && ps[k].0 in Collect(ps)[ps[k].1]
    decreases |ps|
  {
    var front := ps[..|ps| - 1];
    if k < |front| {
      CollectHas(front, k);
      assert front[k] == ps[k];
    }
  }

  /** Adding a term already present under its qualifier changes nothing. */
  lemma AddPresent(m: map<string, set<string>>, qualifier: string, term: string)
    requires qualifier in m && term in m[qualifier]
    ensures Add(m, qualifier, term) == m
  {
    assert m[qualifier] + {term} == m[qualifier];
  }

  /** Adding a pair already added changes nothing. */
  lemma CollectRepeat(ps: seq<(string, string)>, k: nat)
    requires k < |ps|
    ensures Collect(ps + [ps[k]]) == Collect(ps)
  {
    var longer := ps + [ps[k]];
    assert longer[..|longer| - 1] == ps && longer[|longer| - 1] == ps[k];
    CollectHas(ps, k);
    AddPresent(Collect(ps), ps[k].1, ps[k].0);
  }

  /** Repeating an entry already seen changes nothing: the values are sets. */
  lemma GroupingRepeat(entries: seq<string>, k: nat)
    requires k < |entries|
    ensures Grouping(entries + [entries[k]]) == Grouping(entries)
  {
    var ps := Pairs(entries);
    assert Pairs(entries + [entries[k]]) == ps + [ps[k]];
    CollectRepeat(ps, k);
  }

  /** The loop of `list_to_dict`, filling a dictionary of sets. */
  method GroupByQualifier(entries: seq<string>) returns (r: map<string, set<string>>)
    ensures r == Grouping(entries)
  {
    ghost var ps := Pairs(entries);
    r := map[];
    for i := 0 to |entries|
      invariant r == Collect(ps[..i])
    {
      var parts := SplitOn(entries[i], Separator);
      var term, qualifier;
      if |parts| == 2 {
        term, qualifier := parts[0], parts[1];
      } else {
        term, qualifier := parts[0], NoQualifier;
      }
      assert ps[..i + 1][..i] == ps[..i] && ps[i] == (term, qualifier);
      r := r[qualifier := (if qualifier in r then r[qualifier] else {}) + {term}];
    }
    assert ps[..|entries|] == ps;
  }

  /**
   * Every occurrence of the separator has a slash second: none starts inside
   * a slash-free `a` unless what follows `a` begins with a slash.
   */
  lemma NoSeparatorWithin(a: string, b: string)
    requires '/' !in a && (|b| == 0 || b[0] != '/')
    ensures forall i :: 0 <= i < |a| ==> !OccursAt(a + b, i, Separator)
  {
    forall i | 0 <= i < |a|
      ensures !OccursAt(a + b, i, Separator)
    {
      var s := a + b;
      if i + 3 <= |s| {
        assert s[i..i + 3][1] == s[i + 1];
      }
    }
  }

  /** A slash-free term and qualifier, spaces allowed, joined by the separator classify back to themselves. */
  lemma SplitPair(term: string, qualifier: string)
    requires '/' !in term && '/' !in qualifier
    ensures Classify(term + Separator + qualifier) == (term, qualifier)
  {
    var rest := Separator + qualifier;
    NoSeparatorWithin(qualifier, "");
    SplitOnLead(qualifier, "", Separator);
    assert qualifier + "" == qualifier;
    assert SplitOn("", Separator) == [""];
    assert rest[..3] == Separator && rest[3..] == qualifier;
    assert SplitOn(rest, Separator) == ["", qualifier];
    NoSeparatorWithin(term, rest);
    SplitOnLead(term, rest, Separator);
    assert term + rest == term + Separator + qualifier;
    assert SplitOn(term + rest, Separator) == [term + "", qualifier];
    assert term + "" == term;
  }

  /** `"Asthma / diagnosis"` files "Asthma" under "diagnosis". */
  lemma ClassifyDiagnosis()
    ensures Classify("Asthma / diagnosis") == ("Asthma", "diagnosis")
  {
    SplitPair("Asthma", "diagnosis");
    assert "Asthma" + Separator + "diagnosis" == "Asthma / diagnosis";
  }

  /** `"Asthma / therapy"` files "Asthma" under "therapy". */
  lemma ClassifyTherapy()
    ensures Classify("Asthma / therapy") == ("Asthma", "therapy")
  {
    SplitPair("Asthma", "therapy");
    assert "Asthma" + Separator + "therapy" == "Asthma / therapy";
  }

  /** A multi-word term: `"Respiratory Tract Diseases / therapy"` files "Respiratory Tract Diseases" under "therapy". */
  lemma ClassifyMultiWord()
    ensures Classify("Respiratory Tract Diseases / therapy") == ("Respiratory Tract Diseases", "therapy")
  {
    SplitPair("Respiratory Tract Diseases", "therapy");
    assert "Respiratory Tract Diseases" + Separator + "therapy" == "Respiratory Tract Diseases / therapy";
  }

  /** `"Cough"`, without a qualifier, is filed under "No Qualifier". */
  lemma ClassifyCough()
    ensures Classify("Cough") == ("Cough", NoQualifier)
  {
    assert Separator[0] == ' ';
    SplitOnAlone("Cough", Separator);
  }

  lemma CollectExample(ps: seq<(string, string)>)
    requires ps == [("Asthma", "diagnosis"), ("Asthma", "therapy"), ("Cough", NoQualifier)]
    ensures Collect(ps) == map["diagnosis" := {"Asthma"}, "therapy" := {"Asthma"}, NoQualifier := {"Cough"}]
  {
    var p1, p2 := ps[..1], ps[..2];
    assert p1[..0] == [] && p2[..1] == p1 && ps[..2] == p2;
    assert |p1| == 1 && p1[0] == ("Asthma", "diagnosis");
    assert |p2| == 2 && p2[1] == ("Asthma", "therapy");
    assert Collect(p1[..0]) == map[];
    var m1 := Collect(p1);
    assert m1 == Add(Collect(p1[..0]), "diagnosis", "Asthma");
    var empty: map<string, set<string>> := map[];
    var one: set<string> := {"Asthma"};
    assert {} + one == one;
    assert Add(empty, "diagnosis", "Asthma") == empty["diagnosis" := {} + one];
    assert m1 == map["diagnosis" := {"Asthma"}];
    var m2 := Collect(p2);
    assert m2 == Add(m1, "therapy", "Asthma");
    assert m2 == map["diagnosis" := {"Asthma"}, "therapy" := {"Asthma"}];
    assert Collect(ps) == Add(m2, NoQualifier, "Cough");
    assert NoQualifier !in m2;
    var cough: set<string> := {"Cough"};
    assert {} + cough == cough;
    assert Collect(ps) == m2[NoQualifier := cough];
  }
}
