/**
 * Concrete scenarios: two level tests of the repository restated for any
 * records, and worked examples of grouping and of sibling tree numbers.
 */
module Scenarios {
  import opened Wrappers
  import opened Text
  import opened Qualifiers
  import opened Descriptors
  import opened TreeNumbers
  import opened Distances
  import opened MeSHScript

  lemma PairsOfThree(a: string, b: string, c: string)
    ensures Pairs([a, b, c]) == [Classify(a), Classify(b), Classify(c)]
  {
  }

  /** The scenario `["Asthma / diagnosis", "Asthma / therapy", "Cough"]`. */
  lemma GroupingExample()
    ensures Grouping(["Asthma / diagnosis", "Asthma / therapy", "Cough"])
         == map["diagnosis" := {"Asthma"}, "therapy" := {"Asthma"}, NoQualifier := {"Cough"}]
  {
    PairsOfThree("Asthma / diagnosis", "Asthma / therapy", "Cough");
    ClassifyDiagnosis();
    ClassifyTherapy();
    ClassifyCough();
    CollectExample(Pairs(["Asthma / diagnosis", "Asthma / therapy", "Cough"]));
  }

  /** A code of two separator-free parts has exactly those segments. */
  lemma TwoSegments(a: string, b: string)
    requires '.' !in a && '.' !in b
    ensures Segments(a + "." + b) == [a, b]
  {
    SplitNoSeparator(b, '.');
    SplitAfterPart(a, '.', b);
  }

  /** A code of three separator-free parts has exactly those segments. */
  lemma ThreeSegments(a: string, b: string, c: string)
    requires '.' !in a && '.' !in b && '.' !in c
    ensures Segments(a + "." + b + "." + c) == [a, b, c]
  {
    TwoSegments(b, c);
    SplitAfterPart(a, '.', b + "." + c);
    assert a + ['.'] + (b + "." + c) == a + "." + b + "." + c;
  }

  /** Two codes that differ only in their last part share the first two as ancestor. */
  lemma Siblings(a: string, b: string, c1: string, c2: string)
    requires '.' !in a && '.' !in b && '.' !in c1 && '.' !in c2
    requires a != "" && c1 != c2
    ensures Ancestor(a + "." + b + "." + c1, a + "." + b + "." + c2) == Some(a + "." + b)
    ensures PairDistance(a + "." + b + "." + c1, a + "." + b + "." + c2) == Fin(2)
  {
    ThreeSegments(a, b, c1);
    ThreeSegments(a, b, c2);
    TwoSegments(a, b);
    var p := CommonPrefix([a, b, c1], [a, b, c2]);
    assert |p| == 2 by {
      assert [a, b, c1][0] == [a, b, c2][0] && [a, b, c1][1] == [a, b, c2][1];
      assert [a, b, c1][2] != [a, b, c2][2];
    }
    assert p == [a, b];
    assert Join([a, b], ".") == a + "." + b by {
      assert [a, b][1..] == [b];
    }
  }

  /** Level 0 of `C08` is the letter-table entry "Diseases", whatever the records. */
  lemma LetterLevelExample(root: seq<Descriptor>)
    ensures CategoryAtLevel(root, "C08", Some(0)) == Ok(Resolution(Some("Diseases"), None))
  {
  }

  /** `C08.360` has two segments: level 3 is refused, citing 2 as the maximum. */
  lemma LevelTooHighExample(root: seq<Descriptor>)
    ensures CategoryAtLevel(root, "C08.360", Some(3)) == Ok(Resolution(None, Some(LevelTooHigh(3, 2))))
  {
    TwoSegments("C08", "360");
    assert "C08" + "." + "360" == "C08.360";
  }

  /** Siblings under `C08.360` have that ancestor and are two steps apart. */
  lemma SiblingExample()
    ensures Ancestor("C08.360.480", "C08.360.500") == Some("C08.360")
    ensures PairDistance("C08.360.480", "C08.360.500") == Fin(2)
  {
    Siblings("C08", "360", "480", "500");
    assert "C08" + "." + "360" + "." + "480" == "C08.360.480";
    assert "C08" + "." + "360" + "." + "500" == "C08.360.500";
    assert "C08" + "." + "360" == "C08.360";
  }
}
