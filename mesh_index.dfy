/**
 * The root MeSH.py: lookup of a descriptor (names always compared
 * case-insensitively, no validation of the search type), the exact
 * tree-number category lookup and the distance between two diseases.
 */
module MeSHIndex {
  import opened Wrappers
  import opened Descriptors
  import opened Distances

  /**
   * `recherche_descripteur(racine, recherche, type_recherche)`: the first
   * record in collection order that matches; an unknown search type matches
   * nothing, so the scan runs to the end and answers None.
   */
  method FindDescriptor(root: seq<Descriptor>, query: string, searchType: string) returns (r: Option<Descriptor>)
    ensures r == Lookup(root, searchType, query, true)
    ensures searchType !in Selectors ==> r.None?
    ensures r.Some? ==> r.value in root && Matches(r.value, searchType, query, true)
  {
    var k := Scan(root, searchType, query, true);
    match k
    case None => r := None;
    case Some(i) => r := Some(root[i]);
  }

  /**
   * `categorie_haute(tree_number, racine)`: the name of the first record
   * holding `code` exactly among its tree numbers; `reported` says that the
   * "no category found" message was printed.
   */
  method ExactCategory(code: string, root: seq<Descriptor>) returns (name: Option<string>, reported: bool)
    ensures name == OwnerName(root, code)
    ensures reported <==> name.None?
  {
    name := NameForTreeNumber(root, code);
    reported := name.None?;
  }

  /**
   * `distance_categorie(maladie1, maladie2, racine)`: +∞ when a name does not
   * resolve or a record has no tree number, else the least pair distance
   * through a common ancestor, 10 when no pair has one.
   */
  method CategoryDistance(name1: string, name2: string, root: seq<Descriptor>) returns (r: Dist)
    ensures r == Distance(root, name1, name2)
  {
    var d1 := FindDescriptor(root, name1, ByName);
    var d2 := FindDescriptor(root, name2, ByName);
    if d1.None? || d2.None? {
      return Inf;
    }
    var trees1 := d1.value.trees;
    var trees2 := d2.value.trees;
    if trees1 == [] || trees2 == [] {
      return Inf;
    }
    r := ClosestDistance(trees1, trees2);
  }
}
