/**
 * Script_python/MeSH.py: the validated lookup with a choice of answer field,
 * the level-based ancestor category, the distance (whose record key is
 * misspelt there) and the extraction of the two-digit disease branches of a
 * grouped term dictionary.
 */
module MeSHScript {
  import opened Wrappers
  import opened Text
  import opened Descriptors
  import opened TreeNumbers
  import opened Distances

  datatype Error =
    | InvalidFormat(format: string)       // `format_reponse invalide`
    | InvalidSearchType(searchType: string) // `type_recherche invalide`
    | KeyError(key: string)               // a missing dictionary key
    | IndexError                          // `tree_number[0]` on the empty string

  /** A value of the answer dictionary: a string, or the list of tree numbers. */
  datatype Field = Text(text: string) | Codes(codes: seq<string>)

  /** The whole answer dictionary, or the one field `format_reponse` asks for. */
  datatype Answer = Record(fields: map<string, Field>) | Value(field: Field)

  /** `reponse_complete`: the dictionary built for a matching record. */
  function Response(d: Descriptor): (m: map<string, Field>)
    ensures m.Keys == Selectors
  {
    map[ById := Text(d.ui), ByName := Text(d.name), ByTreeNumber := Codes(d.trees)]
  }

  predicate ValidFormat(format: Option<string>)
  {
    format.None? || format.value in Selectors
  }

  /** The answer for a lookup result: the dictionary, or its `format` field. */
  function Shape(d: Option<Descriptor>, format: Option<string>): Option<Answer>
    requires ValidFormat(format)
  {
    match d
    case None => None
    case Some(x) => Some(if format.None? then Record(Response(x)) else Value(Response(x)[format.value]))
  }

  /** The scan of `recherche_descripteur`, once its selectors have been accepted. */
  method Retrieve(root: seq<Descriptor>, query: string, searchType: string, ignoreCase: bool, format: Option<string>)
    returns (r: Option<Answer>)
    requires ValidFormat(format)
    ensures r == Shape(Lookup(root, searchType, query, ignoreCase), format)
  {
    var k := Scan(root, searchType, query, ignoreCase);
    match k
    case None => r := None;
    case Some(i) =>
      var full := Response(root[i]);
      r := Some(if format.None? then Record(full) else Value(full[format.value]));
  }

  /**
   * `recherche_descripteur(racine, recherche, type_recherche, ignore_case,
   * verbose, format_reponse)`: an unknown answer format, then an unknown search
   * type, is an error raised before any record is looked at; otherwise the
   * answer for the first matching record in collection order, or None.
   */
  method FindDescriptor(root: seq<Descriptor>, query: string, searchType: string, ignoreCase: bool, format: Option<string>)
    returns (r: Result<Option<Answer>, Error>)
    ensures !ValidFormat(format) ==> r == Err(InvalidFormat(format.value))
    ensures ValidFormat(format) && searchType !in Selectors ==> r == Err(InvalidSearchType(searchType))
    ensures ValidFormat(format) && searchType in Selectors ==>
              r == Ok(Shape(Lookup(root, searchType, query, ignoreCase), format))
  {
    if format.Some? && format.value !in Selectors {
      return Err(InvalidFormat(format.value));
    }
    if searchType !in Selectors {
      return Err(InvalidSearchType(searchType));
    }
    var answer := Retrieve(root, query, searchType, ignoreCase, format);
    r := Ok(answer);
  }

  /**
   * Ignoring case only widens a name search: whenever the exact search finds a
   * record, the case-insensitive search finds one too, at the same position
   * or an earlier one (an earlier record whose name differs only in case).
   */
  lemma IgnoringCaseFindsNoLater(root: seq<Descriptor>, query: string)
    ensures FirstMatch(root, ByName, query, false).Some? ==>
              && FirstMatch(root, ByName, query, true).Some?
              && FirstMatch(root, ByName, query, true).value <= FirstMatch(root, ByName, query, false).value
  {
  }

  /** The sixteen branch letters of the letter table. */
  const BranchLetters := "ABCDEFGHIJKLMNVZ"

  /** `categories_lettres`: the top-level category of each branch letter. */
  const LetterTable: map<char, string> := map[
    'A' := "Anatomy",
    'B' := "Organisms",
    'C' := "Diseases",
    'D' := "Chemicals and Drugs",
    'E' := "Analytical, Diagnostic and Therapeutic Techniques, and Equipment",
    'F' := "Psychiatry and Psychology",
    'G' := "Phenomena and Processes",
    'H' := "Disciplines and Occupations",
    'I' := "Anthropology, Education, Sociology, and Social Phenomena",
    'J' := "Technology, Industry, and Agriculture",
    'K' := "Humanities",
    'L' := "Information Science",
    'M' := "Named Groups",
    'N' := "Health Care",
    'V' := "Publication Characteristics",
    'Z' := "Geographicals"]

  /** `categories_lettres.get(letter)`. */
  function LetterCategory(c: char): (r: Option<string>)
    ensures r.Some? <==> c in BranchLetters
  {
    if c in LetterTable then Some(LetterTable[c]) else None
  }

  /** The messages `categorie_haute` prints. */
  datatype Diagnostic =
    | LevelTooHigh(level: nat, maxLevel: nat) // "Le niveau spécifié ... est trop élevé"
    | NoCategory(code: string, level: nat)    // "Aucune catégorie trouvée pour le numéro ..."

  datatype Resolution = Resolution(category: Option<string>, diagnostic: Option<Diagnostic>)

  /**
   * `categorie_haute(racine, tree_number, level)`. A missing level is the
   * depth of the code; level 0 reads the letter table at the upper-cased
   * first character; a level above the depth is refused with a message citing
   * the depth; otherwise the code truncated to `level` segments is looked up.
   */
  function CategoryAtLevel(root: seq<Descriptor>, code: string, level: Option<nat>): (r: Result<Resolution, Error>)
    ensures level == Some(0) ==> (r.Err? <==> code == "")
    ensures level == Some(0) && code != "" ==> r.value.category == LetterCategory(UpperChar(code[0]))
    ensures level.Some? && level.value > Depth(code) ==>
              r == Ok(Resolution(None, Some(LevelTooHigh(level.value, Depth(code)))))
    ensures level.Some? && 1 <= level.value <= Depth(code) ==>
              r.Ok? && r.value.category == OwnerName(root, Truncate(code, level.value))
              && (r.value.diagnostic.Some? <==> r.value.category.None?)
  {
    var levels := Segments(code);
    var maxLevel := |levels|;
    var l := if level.None? then maxLevel else level.value;
    if l == 0 then
      if |code| == 0 then Err(IndexError) else Ok(Resolution(LetterCategory(UpperChar(code[0])), None))
    else if l > maxLevel then
      Ok(Resolution(None, Some(LevelTooHigh(l, maxLevel))))
    else
      var target := Join(levels[..l], ".");
      var name := OwnerName(root, target);
      Ok(Resolution(name, if name.None? then Some(NoCategory(target, l)) else None))
  }

  /** Without a level the code itself is looked up among the records. */
  lemma DefaultLevelResolvesCode(root: seq<Descriptor>, code: string)
    ensures CategoryAtLevel(root, code, None) == CategoryAtLevel(root, code, Some(Depth(code)))
    ensures CategoryAtLevel(root, code, None).Ok?
    ensures CategoryAtLevel(root, code, None).value.category == OwnerName(root, code)
  {
    TruncateFull(code);
  }

  /**
   * The test for a one-character code without a level is never reached: such
   * a code is looked up among the records like any other, not in the letter
   * table.
   */
  lemma SingleCharacterDefaultLevel(root: seq<Descriptor>, c: char)
    requires c != '.'
    ensures CategoryAtLevel(root, [c], None).Ok?
    ensures CategoryAtLevel(root, [c], None).value.category == OwnerName(root, [c])
  {
    SplitNoSeparator([c], '.');
    DefaultLevelResolvesCode(root, [c]);
  }

  /** The key the distance reads: `descripteur1['numeros_mesh']`. */
  const WrittenKey := "numeros_mesh"

  /** `descripteur[key]`, iterated as a list of tree numbers (a string iterates by character). */
  function TreeList(fields: map<string, Field>, key: string): Result<seq<string>, Error>
  {
    if key !in fields then Err(KeyError(key))
    else
      match fields[key]
      case Codes(ts) => Ok(ts)
      case Text(s) => Ok(seq(|s|, i requires 0 <= i < |s| => [s[i]]))
  }

  /** `distance_categorie` reading the tree numbers of each answer dictionary under `key`. */
  function DistanceReading(root: seq<Descriptor>, name1: string, name2: string, key: string): (r: Result<Dist, Error>)
    ensures r.Err? ==> r == Err(KeyError(key))
    ensures key !in Selectors ==>
              (r.Ok? <==> Lookup(root, ByName, name1, true).None? || Lookup(root, ByName, name2, true).None?)
  {
    var d1 := Lookup(root, ByName, name1, true);
    var d2 := Lookup(root, ByName, name2, true);
    if d1.None? || d2.None? then Ok(Inf)
    else
      match TreeList(Response(d1.value), key)
      case Err(e) => Err(e)
      case Ok(ts1) =>
        match TreeList(Response(d2.value), key)
        case Err(e) => Err(e)
        case Ok(ts2) => Ok(if ts1 == [] || ts2 == [] then Inf else Closest(ts1, ts2))
  }

  /** As written, the distance raises KeyError whenever both names resolve. */
  lemma DistanceAsWrittenFails(root: seq<Descriptor>, name1: string, name2: string)
    ensures DistanceReading(root, name1, name2, WrittenKey) ==
              if Lookup(root, ByName, name1, true).None? || Lookup(root, ByName, name2, true).None?
              then Ok(Inf) else Err(KeyError(WrittenKey))
  {
  }

  /** Read under the key the record is built with, it is the distance of the root MeSH.py. */
  lemma DistanceUnderRecordKey(root: seq<Descriptor>, name1: string, name2: string)
    ensures DistanceReading(root, name1, name2, ByTreeNumber) == Ok(Distance(root, name1, name2))
  {
  }

  /** `distance_categorie`, reading the tree numbers under the key `numero_mesh` the record is built with. */
  method CategoryDistance(name1: string, name2: string, root: seq<Descriptor>) returns (r: Dist)
    ensures r == Distance(root, name1, name2)
  {
    var answer1 := Retrieve(root, name1, ByName, true, None);
    var answer2 := Retrieve(root, name2, ByName, true, None);
    if answer1.None? || answer2.None? {
      return Inf;
    }
    var trees1 := answer1.value.fields[ByTreeNumber].codes;
    var trees2 := answer2.value.fields[ByTreeNumber].codes;
    if trees1 == [] || trees2 == [] {
      return Inf;
    }
    r := ClosestDistance(trees1, trees2);
  }

  /** A two-digit disease branch code such as "08". */
  predicate IsCode(c: string)
  {
    |c| == 2 && IsDigits(c)
  }

  /** The code an item contributes: characters 1-2 of a `C` tree number longer than two characters, when both are digits. */
  function DiseaseCode(item: string): (r: Option<string>)
    ensures r.Some? ==> IsCode(r.value)
  {
    if |item| > 2 && item[0] == 'C' && IsDigits(item[1..3]) then Some(item[1..3]) else None
  }

  function CodeSet(item: string): set<string>
  {
    match DiseaseCode(item)
    case None => {}
    case Some(c) => {c}
  }

  /** The codes of a list of tree numbers, taken in list order. */
  function ItemCodes(items: seq<string>): set<string>
  {
    if items == [] then {} else ItemCodes(items[..|items| - 1]) + CodeSet(items[|items| - 1])
  }

  /** `rechercher_descripteur_cached(terme, racine)`: the tree numbers of the record named `term`, or none. */
  function TreesOf(root: seq<Descriptor>, term: string): seq<string>
  {
    match Lookup(root, ByName, term, true)
    case None => []
    case Some(d) => d.trees
  }

  function TermsCodes(root: seq<Descriptor>, terms: set<string>): set<string>
  {
    set t, c | t in terms && c in ItemCodes(TreesOf(root, t)) :: c
  }

  function KeysCodes(root: seq<Descriptor>, m: map<string, set<string>>, keys: set<string>): set<string>
  {
    set q, c | q in keys && q in m && c in TermsCodes(root, m[q]) :: c
  }

  /** The set `codes` that `extraire_codes_disease_C_cached` collects from a grouped dictionary. */
  function GroupCodes(root: seq<Descriptor>, m: map<string, set<string>>): set<string>
  {
    KeysCodes(root, m, m.Keys)
  }

  lemma {:induction false} ItemCodesMembership(items: seq<string>, c: string)
    ensures c in ItemCodes(items) <==> exists k :: 0 <= k < |items| && DiseaseCode(items[k]) == Some(c)
    decreases |items|
  {
    if items != [] {
      var init := items[..|items| - 1];
      ItemCodesMembership(init, c);
      if c in ItemCodes(init) {
        var k :| 0 <= k < |init| && DiseaseCode(init[k]) == Some(c);
        assert items[k] == init[k];
      }
      if exists k :: 0 <= k < |items| && DiseaseCode(items[k]) == Some(c) {
        var k :| 0 <= k < |items| && DiseaseCode(items[k]) == Some(c);
        if k < |init| {
          assert init[k] == items[k];
        }
      }
    }
  }

  /**
   * A code is collected exactly when it is characters 1-2 of some tree number,
   * of the record found for some term under some qualifier, that starts with
   * `C`, is longer than two characters and has digits there.
   */
  lemma GroupCodesMembership(root: seq<Descriptor>, m: map<string, set<string>>, c: string)
    ensures c in GroupCodes(root, m) <==>
              exists q, t, k :: q in m && t in m[q] && 0 <= k < |TreesOf(root, t)| && DiseaseCode(TreesOf(root, t)[k]) == Some(c)
    ensures c in GroupCodes(root, m) ==> IsCode(c)
  {
    if c in GroupCodes(root, m) {
      var q, t :| q in m && t in m[q] && c in ItemCodes(TreesOf(root, t));
      ItemCodesMembership(TreesOf(root, t), c);
    }
    if exists q, t, k :: q in m && t in m[q] && 0 <= k < |TreesOf(root, t)| && DiseaseCode(TreesOf(root, t)[k]) == Some(c) {
      var q, t, k :| q in m && t in m[q] && 0 <= k < |TreesOf(root, t)| && DiseaseCode(TreesOf(root, t)[k]) == Some(c);
      ItemCodesMembership(TreesOf(root, t), c);
      assert c in TermsCodes(root, m[q]);
    }
  }

  lemma TermsCodesAdd(root: seq<Descriptor>, terms: set<string>, t: string)
    ensures TermsCodes(root, terms + {t}) == TermsCodes(root, terms) + ItemCodes(TreesOf(root, t))
  {
  }

  lemma KeysCodesAdd(root: seq<Descriptor>, m: map<string, set<string>>, keys: set<string>, q: string)
    requires q in m
    ensures KeysCodes(root, m, keys + {q}) == KeysCodes(root, m, keys) + TermsCodes(root, m[q])
  {
  }

  /** Python's `<` on strings: lexicographic order by character. */
  predicate Before(a: string, b: string)
  {
    |b| > 0 && (|a| == 0 || a[0] < b[0] || (a[0] == b[0] && Before(a[1..], b[1..])))
  }

  function CodeValue(c: string): nat
    requires IsCode(c)
  {
    (c[0] as int - '0' as int) * 10 + (c[1] as int - '0' as int)
  }

  function DigitPair(n: nat): string
    requires n < 100
  {
    [('0' as int + n / 10) as char, ('0' as int + n % 10) as char]
  }

  lemma DigitPairValue(n: nat)
    requires n < 100
    ensures IsCode(DigitPair(n)) && CodeValue(DigitPair(n)) == n
  {
  }

  lemma CodeDigits(c: string)
    requires IsCode(c)
    ensures CodeValue(c) < 100 && DigitPair(CodeValue(c)) == c
  {
    assert IsDigit(c[0]) && IsDigit(c[1]);
  }

  /** Codes in numeric order are in string order. */
  lemma CodeOrder(a: string, b: string)
    requires IsCode(a) && IsCode(b) && CodeValue(a) < CodeValue(b)
    ensures Before(a, b)
  {
    assert IsDigit(a[0]) && IsDigit(a[1]) && IsDigit(b[0]) && IsDigit(b[1]);
    if a[0] == b[0] {
      assert a[1] < b[1];
      assert Before(a[1..], b[1..]);
    }
  }

  /** The codes of `codes` with value at least `n`, in increasing order. */
  function SortedFrom(codes: set<string>, n: nat): (r: seq<string>)
    requires n <= 100
    ensures forall c :: c in r <==> c in codes && IsCode(c) && CodeValue(c) >= n
    ensures forall i :: 0 <= i < |r| ==> IsCode(r[i]) && CodeValue(r[i]) >= n
    ensures forall i, j :: 0 <= i < j < |r| ==> Before(r[i], r[j])
    decreases 100 - n
  {
    if n == 100 then
      assert forall c :: c in codes && IsCode(c) ==> CodeValue(c) < 100 by {
        forall c | c in codes && IsCode(c) { CodeDigits(c); }
      }
      []
    else
      var rest := SortedFrom(codes, n + 1);
      DigitPairValue(n);
      assert forall c :: IsCode(c) && CodeValue(c) == n ==> c == DigitPair(n) by {
        forall c | IsCode(c) && CodeValue(c) == n { CodeDigits(c); }
      }
      if DigitPair(n) in codes then
        assert forall j :: 0 <= j < |rest| ==> Before(DigitPair(n), rest[j]) by {
          forall j | 0 <= j < |rest| { CodeOrder(DigitPair(n), rest[j]); }
        }
        [DigitPair(n)] + rest
      else
        rest
  }

  /** `sorted(codes)` for a set of two-digit codes: the same elements, strictly increasing. */
  function SortedCodes(codes: set<string>): (r: seq<string>)
    requires forall c :: c in codes ==> IsCode(c)
    ensures forall c :: c in r <==> c in codes
    ensures forall i, j :: 0 <= i < j < |r| ==> Before(r[i], r[j])
  {
    SortedFrom(codes, 0)
  }

  /** The innermost loop of `extraire_codes_disease_C_cached`: adds the code of each item of one record. */
  method AddItemCodes(codes: set<string>, items: seq<string>) returns (r: set<string>)
    ensures r == codes + ItemCodes(items)
  {
    r := codes;
    for k := 0 to |items|
      invariant r == codes + ItemCodes(items[..k])
    {
      assert items[..k + 1][..k] == items[..k];
      var item := items[k];
      if |item| > 2 && item[0] == 'C' {
        var code := item[1..3];
        if IsDigits(code) {
          r := r + {code};
        }
      }
    }
    assert items[..|items|] == items;
  }

  /** The loop over the terms of one qualifier: looks each term up and adds the codes of its record. */
  method AddTermCodes(codes: set<string>, root: seq<Descriptor>, terms: set<string>) returns (r: set<string>)
    ensures r == codes + TermsCodes(root, terms)
  {
    r := codes;
    var todo := terms;
    while todo != {}
      invariant todo <= terms
      invariant r == codes + TermsCodes(root, terms - todo)
      decreases |todo|
    {
      var t :| t in todo;
      var found := Retrieve(root, t, ByName, true, Some(ByTreeNumber));
      var items: seq<string> := [];
      if found.Some? {
        items := found.value.field.codes;
      }
      assert items == TreesOf(root, t);
      r := AddItemCodes(r, items);
      TermsCodesAdd(root, terms - todo, t);
      assert terms - (todo - {t}) == (terms - todo) + {t};
      todo := todo - {t};
    }
    assert terms - todo == terms;
  }

  /**
   * `extraire_codes_disease_C_cached(dict_mesh_ligne, racine)`: an input that
   * is not a dictionary gives the empty list; otherwise the collected codes
   * in increasing string order, each once.
   */
  method DiseaseCodes(input: Option<map<string, set<string>>>, root: seq<Descriptor>) returns (r: seq<string>)
    ensures input.None? ==> r == []
    ensures input.Some? ==> forall c :: c in r <==> c in GroupCodes(root, input.value)
    ensures forall i, j :: 0 <= i < j < |r| ==> Before(r[i], r[j])
  {
    if input.None? {
      return [];
    }
    var m := input.value;
    var codes: set<string> := {};
    var pending := m.Keys;
    while pending != {}
      invariant pending <= m.Keys
      invariant codes == KeysCodes(root, m, m.Keys - pending)
      decreases |pending|
    {
      var q :| q in pending;
      codes := AddTermCodes(codes, root, m[q]);
      KeysCodesAdd(root, m, m.Keys - pending, q);
      assert m.Keys - (pending - {q}) == (m.Keys - pending) + {q};
      pending := pending - {q};
    }
    assert m.Keys - pending == m.Keys;
    forall c | c in codes
      ensures IsCode(c)
    {
      GroupCodesMembership(root, m, c);
    }
    r := SortedCodes(codes);
  }
}
