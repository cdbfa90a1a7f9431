/**
 * Descriptor records as the XML loader supplies them, and the scans over
 * them that both versions of MeSH.py share: the first record in
 * collection order that matches a query, and the name of the first record
 * owning a tree number.
 */
module Descriptors {
  import opened Wrappers
  import opened Text

  /** One DescriptorRecord: DescriptorUI, DescriptorName/String and its TreeNumberList, in order. */
  datatype Descriptor = Descriptor(ui: string, name: string, trees: seq<string>)

  /** The selector strings of `type_recherche` (and of `format_reponse`). */
  const ById := "identifiant"
  const ByName := "nom"
  const ByTreeNumber := "numero_mesh"
  const Selectors: set<string> := {ById, ByName, ByTreeNumber}

  /**
   * Whether one record answers a query: identifier equality, name equality
   * (after lowering both sides when `ignoreCase`), or exact membership of the
   * query among the record's tree numbers. Any other selector matches nothing.
   */
  predicate Matches(d: Descriptor, searchType: string, query: string, ignoreCase: bool)
    ensures Matches(d, searchType, query, ignoreCase) ==> searchType in Selectors
    ensures searchType == ByName && d.name == query ==> Matches(d, searchType, query, ignoreCase)
  {
    if searchType == ById then d.ui == query
    else if searchType == ByName then
      if ignoreCase then Lower(d.name) == Lower(query) else d.name == query
    else if searchType == ByTreeNumber then query in d.trees
    else false
  }

  /** The position of the first matching record, or None when no record matches. */
  function FirstMatch(root: seq<Descriptor>, searchType: string, query: string, ignoreCase: bool): (r: Option<nat>)
    ensures r.Some? ==> r.value < |root| && Matches(root[r.value], searchType, query, ignoreCase)
    ensures r.Some? ==> forall j :: 0 <= j < r.value ==> !Matches(root[j], searchType, query, ignoreCase)
    ensures r.None? <==> forall j :: 0 <= j < |root| ==> !Matches(root[j], searchType, query, ignoreCase)
  {
    if |root| == 0 then None
    else if Matches(root[0], searchType, query, ignoreCase) then Some(0)
    else
      match FirstMatch(root[1..], searchType, query, ignoreCase)
      case None => None
      case Some(k) => Some(k + 1)
  }

  /** The first matching record itself. */
  function Lookup(root: seq<Descriptor>, searchType: string, query: string, ignoreCase: bool): Option<Descriptor>
  {
    match FirstMatch(root, searchType, query, ignoreCase)
    case None => None
    case Some(k) => Some(root[k])
  }

  /** The linear scan with early return of `recherche_descripteur`. */
  method Scan(root: seq<Descriptor>, searchType: string, query: string, ignoreCase: bool) returns (r: Option<nat>)
    ensures r == FirstMatch(root, searchType, query, ignoreCase)
  {
    var i := 0;
    while i < |root|
      invariant 0 <= i <= |root|
      invariant forall j :: 0 <= j < i ==> !Matches(root[j], searchType, query, ignoreCase)
    {
      if Matches(root[i], searchType, query, ignoreCase) {
        return Some(i);
      }
      i := i + 1;
    }
    return None;
  }

  /** Name of the first record whose tree-number list contains `code` exactly, if any. */
  function OwnerName(root: seq<Descriptor>, code: string): (r: Option<string>)
    ensures r.None? <==> forall j :: 0 <= j < |root| ==> code !in root[j].trees
    ensures r.Some? ==> exists k :: 0 <= k < |root| && code in root[k].trees && r.value == root[k].name
                                      && forall j :: 0 <= j < k ==> code !in root[j].trees
  {
    match Lookup(root, ByTreeNumber, code, false)
    case None => None
    case Some(d) => Some(d.name)
  }

  /**
   * `chercher_descriptor_par_numero`: for each record, for each of its tree
   * numbers, return the record's name at the first one equal to `code`.
   */
  method NameForTreeNumber(root: seq<Descriptor>, code: string) returns (r: Option<string>)
    ensures r == OwnerName(root, code)
  {
    var i := 0;
    while i < |root|
      invariant 0 <= i <= |root|
      invariant forall j :: 0 <= j < i ==> code !in root[j].trees
    {
      var trees := root[i].trees;
      var l := 0;
      while l < |trees|
        invariant 0 <= l <= |trees|
        invariant forall m :: 0 <= m < l ==> trees[m] != code
      {
        if trees[l] == code {
          assert Matches(root[i], ByTreeNumber, code, false);
          return Some(root[i].name);
        }
        l := l + 1;
      }
      i := i + 1;
    }
    return None;
  }
}
