# MeSH descriptor index

The project is a Dafny model of the core of a toolkit over the MeSH (Medical Subject Headings)
descriptor hierarchy. The core covers:

- **Descriptor lookup.** A descriptor is found by identifier, by name (optionally ignoring case)
  or by exact tree number. The first record in collection order wins.
- **Tree-number ancestry.** The common ancestor of two dotted tree numbers such as
  `C08.360.480` is their longest common segment prefix. A code can also be truncated to a level.
- **Category lookup.** A code's category comes from the 16-letter branch table or from the
  records.
- **Disease distance.** This is the least number of edges through a common ancestor over all
  pairs of tree numbers. It is +∞ when a name does not resolve or has no tree number, and 10
  when no pair is related.
- **Qualifier grouping.** `list_to_dict` groups `"Term / Qualifier"` entries.
- **Disease codes.** The sorted two-digit `C` codes of a grouped dictionary.
- **Label vectors.** Encoding 1-based label indices as vectors, and decoding a 26-position vector
  into the labels of branches C01–C26.

Records are given as a `seq<Descriptor>` (identifier, name and tree numbers in document order),
in place of the parsed XML tree. Python's `str.split`, `str.join`, `lower`/`upper` and
`isdigit` are modelled in `Text`. A Python `None` becomes `Option`, a raised exception becomes
`Result.Err`, and `float('inf')` becomes `Dist.Inf`.

Modules:

- **Text** (`text.dfy`): the string helpers.
- **Descriptors** (`descriptors.dfy`): the record, the first-match scan and the lookup of the
  record owning a tree number.
- **TreeNumbers** (`tree_numbers.dfy`): segments, truncation and `ancetre_commun`.
- **Distances** (`distances.dfy`): `distance_categorie`.
- **Qualifiers** (`qualifiers.dfy`): `list_to_dict`.

These five are shared by both versions of `MeSH.py`, which define this logic identically except
for the record key that `distance_categorie` reads (see Findings).

- **MeSHIndex** (`mesh_index.dfy`): the entry points of the root `MeSH.py`.
- **MeSHScript** (`mesh_script.dfy`): `Script_python/MeSH.py`, meaning validated lookup with an
  answer format, level-based categories, the distance as written there, and disease-code
  extraction.
- **Indices**, **LabelVectors**, **BinaryVectors**: the two `multilabel_preprocessing.py` files.
- **Scenarios** (`scenarios.dfy`): concrete cases. `LetterLevelExample` and `LevelTooHighExample`
  restate two of the repository's tests (test/test_MeSH.py:13-14 and 22-25) for any records.
  `GroupingExample`, `Siblings` and `SiblingExample` are worked examples of our own.

Three behaviours of the code that the model keeps as written:

- **`categorie_haute` in `Script_python/MeSH.py`.** Line 162 evidently means a one-character
  code without a level to be read from the letter table. But it tests `len(tree_number) == 1 and
  level is None` only after line 159 has replaced a missing level with the depth, so the test
  never holds. A one-character code without a level is therefore looked up among the records,
  not in the letter table (`MeSHScript.SingleCharacterDefaultLevel`).
- **`list_to_dict`.** An entry that splits into three or more parts keeps only `parts[0]` as its
  term (under "No Qualifier"), not the whole entry (MeSH.py:28).
- **`distance_categorie`.** It skips a pair whose common ancestor is the empty string, which is
  falsy in Python (MeSH.py:151). So "distance 0 to itself" needs a non-empty tree number.

## Model

| member | source | states |
|---|---|---|
| Descriptors.Matches | Script_python/MeSH.py:92-98 | only the three selectors `identifiant`, `nom`, `numero_mesh` ever match; a record whose name equals the query matches a name search whether or not case is ignored |
| Descriptors.FirstMatch | Script_python/MeSH.py:86-106 | the position found matches and no earlier record matches; None exactly when no record matches |
| Descriptors.Scan | Script_python/MeSH.py:86-106 | the early-return scan over the records answers the first matching position |
| Descriptors.OwnerName | Script_python/MeSH.py:115-121 | None exactly when no record lists the code among its tree numbers; otherwise the name of the first record that lists it |
| Descriptors.NameForTreeNumber | Script_python/MeSH.py:115-121 | the nested record/tree-number loops return the name of the first record owning the code, or None |
| TreeNumbers.Truncate | Script_python/MeSH.py:169 | joining the first `level` segments gives a prefix of the code whose segments are exactly those `level` segments |
| TreeNumbers.TruncateFull | Script_python/MeSH.py:158-159 | truncating a code to its own depth gives the code back |
| TreeNumbers.TruncateSegments | Script_python/MeSH.py:169 | a string whose segments are the first `level` segments of the code is that truncation |
| TreeNumbers.CommonPrefix | Script_python/MeSH.py:235-239 | the zipped walk that stops at the first mismatch yields a common prefix of both segment lists that cannot be extended |
| TreeNumbers.CommonAncestor | Script_python/MeSH.py:231-241 | the append-and-break loop answers the dot-joined common prefix, or None when it is empty |
| TreeNumbers.CommonPrefixCommutes | Script_python/MeSH.py:235-239 | the common prefix does not depend on the order of its arguments |
| TreeNumbers.CommonPrefixSelf | Script_python/MeSH.py:235-239 | a segment list shares all of itself with itself |
| TreeNumbers.Ancestor | MeSH.py:170-180 | None exactly when the first segments of the two codes differ |
| TreeNumbers.AncestorCommutes | MeSH.py:170-180 | `ancetre_commun(t1, t2) == ancetre_commun(t2, t1)` |
| TreeNumbers.AncestorSelf | MeSH.py:170-180 | `ancetre_commun(t, t) == t` |
| TreeNumbers.AncestorIsLongestCommonPrefix | Script_python/MeSH.py:231-241 | None exactly when the first segments differ; otherwise the ancestor is a truncation of both codes and its segments are their longest common prefix |
| Distances.PairDistanceFacts | MeSH.py:150-153 | the pair distance is symmetric, equals depth1 + depth2 − 2·(common prefix length), is never negative, and is 0 for a non-empty code against itself |
| Distances.RowMinIsLeast | MeSH.py:149-154 | the inner loop's minimum is at most every pair distance of its row and is attained by one when finite |
| Distances.ClosestInRow | MeSH.py:149-154 | the inner loop lowers the running minimum to the least of it and every pair distance of its row |
| Distances.ProductMinIsLeast | MeSH.py:148-154 | the nested loops' minimum is at most every pair distance over the product and is attained by some pair when finite |
| Distances.ProductMinSymmetric | MeSH.py:148-154 | swapping the two tree-number lists leaves the minimum unchanged |
| Distances.ClosestDistance | MeSH.py:147-156 | the nested loops computing `min_distance`, with the fallback to 10, equal the least pair distance over the product, or 10 |
| Distances.Distance | MeSH.py:131-156 | +∞ exactly when a name does not resolve or its record has no tree number |
| Distances.DistanceCases | MeSH.py:131-156 | +∞ exactly when a name does not resolve or has no tree number; 10 when no pair has an ancestor; otherwise a non-negative distance attained by a pair and below every pair |
| Distances.DistanceSymmetric | MeSH.py:131-156 | `distance_categorie(a, b) == distance_categorie(b, a)` |
| Distances.DistanceSelf | MeSH.py:147-156 | a descriptor with a non-empty tree number is at distance 0 from itself |
| Distances.ClosestSelf | MeSH.py:147-156 | a tree-number list containing a non-empty code has closest distance 0 to itself |
| MeSHIndex.FindDescriptor | MeSH.py:49-73 | the first record whose identifier, lower-cased name or tree-number list matches; an unknown search type finds nothing |
| MeSHIndex.ExactCategory | MeSH.py:108-115 | the name of the first record listing the code exactly, else None with the "no category" message flagged |
| MeSHIndex.CategoryDistance | MeSH.py:131-156 | the two lookups, the emptiness checks and the loops compute `Distances.Distance` |
| Qualifiers.Classify | MeSH.py:23-28 | the term filed is always a prefix of the entry |
| Qualifiers.ClassifyShape | MeSH.py:23-28 | a two-part entry is its term, `" / "` and its qualifier; an entry without the separator is filed whole under "No Qualifier" |
| Qualifiers.SplitPair | MeSH.py:23-26 | a term and a qualifier without `/`, spaces allowed, joined by `" / "` split back to that term and qualifier |
| Qualifiers.ClassifyMultiWord | MeSH.py:23-26 | "Respiratory Tract Diseases / therapy" splits into the term "Respiratory Tract Diseases" and the qualifier "therapy" |
| Qualifiers.Collect | MeSH.py:22-30 | every qualifier key of the dictionary holds at least one term |
| Qualifiers.Grouping | MeSH.py:20-32 | every qualifier of the returned dictionary has at least one term |
| Qualifiers.CollectMembership | MeSH.py:22-30 | after adding pairs with `mesh_dict[q].add(t)`, the keys are the qualifiers added, and a term is under a key exactly when that pair was added |
| Qualifiers.GroupingMembership | MeSH.py:20-32 | the keys are exactly the qualifiers some entry produces; a term is under a qualifier exactly when some entry produces that pair |
| Qualifiers.GroupingRepeat | MeSH.py:30 | repeating an entry leaves the dictionary unchanged (values are sets) |
| Qualifiers.CollectRepeat | MeSH.py:30 | adding a (term, qualifier) pair a second time leaves the dictionary unchanged |
| Qualifiers.GroupByQualifier | Script_python/MeSH.py:37-49 | the loop filling the `defaultdict(set)` returns the grouping of the entries |
| Qualifiers.ClassifyDiagnosis | MeSH.py:23-26 | "Asthma / diagnosis" splits into the term "Asthma" and the qualifier "diagnosis" |
| Qualifiers.ClassifyTherapy | MeSH.py:23-26 | "Asthma / therapy" splits into the term "Asthma" and the qualifier "therapy" |
| Qualifiers.ClassifyCough | MeSH.py:23-28 | "Cough", which has no separator, goes under "No Qualifier" |
| Qualifiers.CollectExample | MeSH.py:30 | the three example pairs collect into the expected dictionary of sets |
| MeSHScript.Response | Script_python/MeSH.py:101-105 | the answer dictionary has exactly the keys `identifiant`, `nom`, `numero_mesh` |
| MeSHScript.Retrieve | Script_python/MeSH.py:86-106 | the scan answers the full dictionary or the requested field of the first matching record, or None |
| MeSHScript.FindDescriptor | Script_python/MeSH.py:77-111 | an unknown answer format, then an unknown search type, is an error whatever the records; otherwise the answer for the first match, or None |
| MeSHScript.IgnoringCaseFindsNoLater | Script_python/MeSH.py:92-98 | when the exact name search finds a record, the case-insensitive search finds one too, at the same or an earlier position |
| MeSHScript.LetterCategory | Script_python/MeSH.py:137-154 | the letter table has an entry exactly for the sixteen letters A–N, V, Z |
| MeSHScript.CategoryAtLevel | Script_python/MeSH.py:156-175 | level 0 reads the letter table at the upper-cased first character (IndexError on the empty code); a level above the depth is refused citing the depth; otherwise the owner of the code truncated to `level`, with a message when there is none |
| MeSHScript.DefaultLevelResolvesCode | Script_python/MeSH.py:156-175 | without a level, the category is the owner of the code itself |
| MeSHScript.SingleCharacterDefaultLevel | Script_python/MeSH.py:158-163 | a one-character code without a level is looked up among the records, not in the letter table |
| MeSHScript.DistanceReading | Script_python/MeSH.py:192-217 | the only error is KeyError on the key read; under a key the answer dictionary lacks, it answers (+∞) exactly when a name does not resolve |
| MeSHScript.DistanceAsWrittenFails | Script_python/MeSH.py:192-201 | reading `numeros_mesh` raises KeyError whenever both names resolve |
| MeSHScript.DistanceUnderRecordKey | Script_python/MeSH.py:101-105 | reading the record's own key `numero_mesh` gives `Distances.Distance` |
| MeSHScript.CategoryDistance | Script_python/MeSH.py:192-217 | with the record key read consistently, the loops compute `Distances.Distance` |
| MeSHScript.DiseaseCode | Script_python/MeSH.py:267-270 | an item contributes a two-digit code |
| MeSHScript.ItemCodesMembership | Script_python/MeSH.py:266-270 | a code is collected from a list exactly when some item of the list contributes it |
| MeSHScript.GroupCodesMembership | Script_python/MeSH.py:262-270 | a code is collected exactly when it is characters 1–2 of a `C` tree number longer than two characters, of the record of some term under some key; every collected code is two digits |
| MeSHScript.CodeOrder | Script_python/MeSH.py:272 | two-digit codes in numeric order are in Python string order |
| MeSHScript.SortedCodes | Script_python/MeSH.py:272 | `sorted(codes)` holds the same codes, strictly increasing in string order |
| MeSHScript.AddItemCodes | Script_python/MeSH.py:266-270 | the innermost loop adds the codes of one tree-number list to the set |
| MeSHScript.AddTermCodes | Script_python/MeSH.py:263-270 | the loop over one key's terms adds the codes of every term's record |
| MeSHScript.DiseaseCodes | Script_python/MeSH.py:253-272 | a non-dictionary gives []; otherwise exactly the collected codes, each once, in increasing order |
| Indices.Indicator | Script/multilabel_preprocessing.py:34-35 | the vector has length `size`, and position i is set exactly when i+1 is listed |
| Indices.IndicatorIgnoresOrder | Script/multilabel_preprocessing.py:35 | order and repetition of the indices do not change the vector |
| LabelVectors.Vectorize | Script/multilabel_preprocessing.py:21-37 | None or [] gives all False; an index outside 1..size raises ValueError "… inclus."; otherwise True exactly at the listed positions |
| LabelVectors.TruePositions | Script/multilabel_preprocessing.py:86 | the True positions, each in range, all of them, ascending |
| LabelVectors.LabelsFromVector | Script/multilabel_preprocessing.py:54-55 | a vector is refused with ValueError exactly when its length is not 26 |
| LabelVectors.Select | Script/multilabel_preprocessing.py:86 | no more labels than vector entries, each one of the given labels |
| LabelVectors.SelectPositions | Script/multilabel_preprocessing.py:86 | the comprehension over `zip` lists the labels at the True positions in ascending order |
| LabelVectors.TruePositionsCount | Script/multilabel_preprocessing.py:86 | there are as many True positions as True entries |
| LabelVectors.LabelsFromVectorSelects | Script/multilabel_preprocessing.py:54-86 | the decoded labels are those at the True positions, in order, one per True entry |
| LabelVectors.IncreasingUnique | Script/multilabel_preprocessing.py:86 | two strictly increasing position lists with the same elements are equal |
| LabelVectors.IndicatorPositions | Script/multilabel_preprocessing.py:34-35 | the True positions of the vector of a list are its distinct indices, minus one, in increasing order |
| LabelVectors.SelectIndicator | Script/multilabel_preprocessing.py:34-86 | selecting labels with the vector of a list gives the labels at its sorted distinct indices |
| LabelVectors.RoundTrip | Script/multilabel_preprocessing.py:34-86 | decoding the vector of indices in 1..26 gives the labels of the sorted distinct indices |
| BinaryVectors.Vectorize | multilabel_preprocessing.py:15-23 | length `size`, every entry 0 or 1, 1 exactly at the listed positions, zeros for []; an index outside 1..size raises ValueError "…entre 1 et size." |
| BinaryVectors.DefaultRangeMessage | multilabel_preprocessing.py:19-20 | for size 26 the message reads "Tous les indices doivent être compris entre 1 et 26." |
| Scenarios.GroupingExample | MeSH.py:20-32 | grouping "Asthma / diagnosis", "Asthma / therapy", "Cough" gives {diagnosis: {Asthma}, therapy: {Asthma}, No Qualifier: {Cough}} |
| Scenarios.LetterLevelExample | test/test_MeSH.py:13-14 | `C08` at level 0 is "Diseases" |
| Scenarios.LevelTooHighExample | test/test_MeSH.py:22-25 | `C08.360` at level 3 is None, with the message giving 2 as the maximum level |
| Scenarios.Siblings | Script_python/MeSH.py:231-241 | codes differing only in their third segment have the first two as ancestor and are 2 apart |
| Scenarios.SiblingExample | Script_python/MeSH.py:208-215 | `C08.360.480` and `C08.360.500` have ancestor `C08.360` and pair distance 2 |

## Left out

- Loading and parsing the XML file (`chargement_arbre_mesh`) and the ElementTree navigation are
  left out. Records are supplied as a sequence of `Descriptor` values in document order.
- `print` output is not modelled as text. It appears only as a flag or a diagnostic value:
  `MeSHIndex.ExactCategory`'s `reported` and `MeSHScript.Diagnostic`. `resultats_descripteur`,
  which only prints, is left out.
- `recherche_descripteur`'s `verbose` message (Script_python/MeSH.py:108-109) is left out. It is
  advisory output and does not change the result.
- The `lru_cache` memoisation of `rechercher_descripteur_cached` is left out. It is a
  performance layer that refers to a module the file does not import. The extraction calls the
  uncached lookup, with the same arguments.
- `Hello` is left out, because it is trivial.
- `Script/sauvegarde_AWS.py` is not part of this model. It is cloud upload and I/O only.
- Floating-point `inf` is represented by `Dist.Inf`. No reals are used.
- NumPy arrays become Dafny arrays that are returned as sequences.
- In the vectorizers, the string-to-int conversion `map(int, …)` and its ValueError path are
  left out. The indices are taken as integers.
- In `extraire_codes_disease_C_cached`, a non-dictionary input is `None`. A dictionary's values
  are sets of terms, as `list_to_dict` produces them.
- `Text.Lower`, `Text.UpperChar` and `Text.IsDigit` cover ASCII only. There is no Unicode case
  mapping and no Unicode digits.
- MeSHScript.CategoryAtLevel takes the level as a natural number. Negative levels, which Python
  would slice from the end, are not modelled.
- LabelVectors.Vectorize and BinaryVectors.Vectorize take the size as a natural number. A
  negative size, which NumPy rejects, is not modelled.
- Qualifiers.SplitPair: requires that neither part contains `/`. Every occurrence of `" / "`
  holds a `/`, so this keeps the split to exactly two parts. A part holding a lone `/` that is not
  part of `" / "` would split the same way, but the lemma does not cover it.
- LabelVectors.LabelsFromVector only checks the vector's length. It does not model NumPy shapes
  of higher rank, or vectors of non-boolean values.

## Findings

| source | as written | input that shows it | evidently intended | confidence | as-written member | corrected member |
|---|---|---|---|---|---|---|
| Script_python/MeSH.py:200-201 | the distance reads `descripteur['numeros_mesh']`, but the answer dictionary built at lines 101-105 has the key `numero_mesh` | any two names that both resolve, e.g. a record named "Asthma" and the call with ("Asthma", "Asthma"): KeyError | read `numero_mesh`, as the root MeSH.py does with its own key, giving the segment distance | not executed | MeSHScript.DistanceAsWrittenFails | MeSHScript.CategoryDistance |
