# Fuzzy inference: a verified model

This project models the fuzzy-inference core of `FuzzyInference/fuzzi_logic.py`:

- **`try_parse`**: turns a label token into a dictionary key.
- **`FuzzySet`**: a label-to-degree dictionary plus an ordered surface. It is built from
  `label/degree; ...` text or from a caller's dictionary. An explicit surface fills in default
  zeros.
- **`FuzzyRelation`**: the norm of every pair of entries of two sets, with these operations:
  - `surfaces`;
  - `get`;
  - `transpose`;
  - `aggregate`, which combines two relations cell by cell.
- **`build_inference`**: the generalised max-min composition of an input set with a relation.

## How the model is built

- **Keys.** Labels are keys up to Python equality: `1`, `1.0` and `True` are one key. A label
  is `Num(real)` or `Str(string)`, and `try_parse` returns a token whose key is `LabelOf`. A
  float label is the exact decimal its text spells, not the nearest binary double (see
  "Left out").
- **Degrees.** Degrees are exact reals. A dictionary may hold `None`; `build_inference` stores
  `None` for an empty first surface. `None` reaching `min`/`max` (or any norm) is TypeError.
- **Dictionaries.** A dictionary value is its key order plus a map (`Dicts.Dict`), so insertion
  order is kept: a duplicate key keeps its first place and takes the last value.
- **The caller's dictionary.** A Python dict object that a caller passes to
  `FuzzySet(dict, surface)` is a mutable box (`Dicts.SharedDict`). The set keeps that box itself
  and writes its default zeros into it, as the source does.
- **Loops.** The statement loops of lines 44-46, 75-77, 103-106 and 124-133 are methods with
  loops, each proved against a function that states its outcome:
  - the zero defaults (44-46);
  - the nested loops of the relation constructor (75-77) and of `aggregate` (103-106);
  - the nested loop of `build_inference` (124-133).

  The lemmas about those functions state what the source promises. The other three loops are
  rendered as values:
  - the loop over `int`, `float` and `bool` in `try_parse` (line 12) is the case split of
    `Labels.TryParse`;
  - the comprehension of lines 33-34 is recursion through `KeptPairs`, `MapAll` and
    `FromPairs`;
  - the loop of `transpose` (line 90) is the test in `TransposedAsWritten`, because its first
    iteration raises.
- **Errors.** Python exceptions are `Err(KeyError | ValueError | TypeError | ArithmeticError)`.
- **The norms.** The caller-supplied norms are total functions `(real, real) -> real`. The
  defaults are `Norms.Min` and `Norms.Max`, with Python's tie-breaking.
- **Surface accessors.** `surface()` of a set is the field `FuzzySet.surface`. `surfaces()` of a
  relation is `FuzzyRelation.Surfaces`.
- **The worked example.** `PressureExample` works the rules of `main.py` through the model: high
  and low pressure, average and low temperature. The aggregated relation is as `main.py` builds
  it. Inference on the high-pressure set gives 300 → 0.6, 350 → 1 and 400 → 0.5. An input over
  the surface {1, 2, 3} raises ArithmeticError.

## Where the code differs from its documented intent (the model follows the code)

- **Unquoted tokens.** The constructor's docstring (lines 24-25) writes sets as
  `a/0.1; b/0.2; c/1`, with words as labels, and `return text` (line 18) would keep such a
  word as text. In the code, `bool(text)` accepts every string, so such a token becomes `True`
  (`False` only when it is empty), and `return text` (line 18) is unreachable. So
  `"a/0.1; malformed; b/0.2"` gives ONE entry, key `True` with degree 0.2, not two:
  `FuzzySets.ParsePairWordPair` states this for every text `n1/d1; m; n2/d2` whose two labels
  read as the same key, and `Labels.UnquotedWordIsTrue` says that `a` and `b` both read as `True`.
  `FuzzySet("False/1")` also has the key `True`. See `Labels.FalseWordIsTrue` and the findings
  below.
- **Quotes are tested on the untrimmed token.** Only the whole segment is stripped, so the
  token in `"'a' /0.1"` is not quoted text (`Labels.PaddedQuoteIsTrue`).
- **The relation is built over entries, not surfaces.** It is built over the ENTRIES of both
  sets (their `items()`). These can go beyond their surfaces.
- **Sets are not independent values.** A set built from a dictionary shares and changes that
  dictionary.
- **`aggregate` does not keep the norm.** The result carries the default `min` norm, not
  `self`'s norm. `transpose` does carry the norm.
- **`transpose` fails.** It raises on every relation that has a cell (see the findings).

## Model

| member | source | states |
|---|---|---|
| Strings.Strip | FuzzyInference/fuzzi_logic.py:34 | `str.strip()`: the result neither starts nor ends in white space and is the middle of the input after its leading white space; everything cut off is white space |
| Strings.RemoveAll | FuzzyInference/fuzzi_logic.py:32 | `replace(c, "")`: the result has no `c`, holds exactly the other characters the input holds, and is shorter by the number of `c` |
| Strings.RemoveAllConcat | FuzzyInference/fuzzi_logic.py:32 | removal works piece by piece, `RemoveAll(a + b) == RemoveAll(a) + RemoveAll(b)`, so the characters that stay keep their order |
| Strings.RemoveAllAbsent | FuzzyInference/fuzzi_logic.py:32 | removing a character that does not occur changes nothing |
| Strings.Split | FuzzyInference/fuzzi_logic.py:32-34 | `split(sep)`: one more piece than separators, no piece holds the separator, and joining the pieces with it gives the input back |
| Strings.SplitJoin | FuzzyInference/fuzzi_logic.py:32-34 | joining a non-empty list of pieces that hold no separator, then splitting the result, gives the pieces back |
| Labels.ParseInt | FuzzyInference/fuzzi_logic.py:14 | `int(text)`: a token it accepts strips to a non-empty text without a point, and a negative value comes from a leading `-` |
| Labels.ParseFloat | FuzzyInference/fuzzi_logic.py:14 | `float(text)`: a token it accepts strips to a non-empty text with at most one point, and a negative value comes from a leading `-` |
| Labels.ParseFloatDecimal | FuzzyInference/fuzzi_logic.py:14 | `float` of two digit runs around a point is the decimal they spell |
| Labels.NatToken | FuzzyInference/fuzzi_logic.py:10-14 | the decimal text of a natural number is read by `float` and by `try_parse` as that number |
| Labels.IntTokenIsFloatToken | FuzzyInference/fuzzi_logic.py:10-14 | every token `int` accepts, `float` accepts with the same value, so trying `int` first never changes the key |
| Labels.ParseIntText | FuzzyInference/fuzzi_logic.py:14 | `int(str(i)) == i` for every integer |
| Labels.TryParse | FuzzyInference/fuzzi_logic.py:4-18 | a token in matching quotes gives its inner text; otherwise a number gives the key of its value; every other token gives `True`, or `False` when empty, so the raw-text fallback is never reached |
| Labels.UnquotedWordIsTrue | FuzzyInference/fuzzi_logic.py:10-18 | the words `a` and `b` both become `True`, the key 1 |
| Labels.FalseWordIsTrue | FuzzyInference/fuzzi_logic.py:10-18 | the token `False` becomes `True` |
| Labels.PaddedQuoteIsTrue | FuzzyInference/fuzzi_logic.py:5-7 | a quoted token followed by a space fails the quote test and becomes `True` |
| Labels.TryParseIntended | FuzzyInference/fuzzi_logic.py:4-18 | the intended coercion: quoted text, a number, the literals `True`/`False`, and the raw token otherwise |
| Labels.IntendedKeepsWords | FuzzyInference/fuzzi_logic.py:18 | with the intended coercion, distinct unquoted words are distinct text keys and `False` is the key 0 |
| Wrappers.MapAll | FuzzyInference/fuzzi_logic.py:33 | a comprehension whose calls can raise: it fails exactly when some element fails, with that element's error; otherwise it holds every element's result, in order |
| Wrappers.MapAllFirstFailure | FuzzyInference/fuzzi_logic.py:33 | the error is that of the FIRST failing element: every element before it succeeds |
| Dicts.Dict.Put | FuzzyInference/fuzzi_logic.py:46 | `d[l] = v` keeps the dictionary well formed: a new key goes last, an existing key keeps its place, and the new map is the old one with `l` set to `v` |
| Dicts.Dedup | FuzzyInference/fuzzi_logic.py:39 | the keys of a sequence: the same members, no repeats (their order is stated by `DedupOrder`) |
| Dicts.DedupOrder | FuzzyInference/fuzzi_logic.py:39 | the keys come in order of first appearance: of two keys, the earlier one first occurs before the later one |
| Dicts.FromPairs | FuzzyInference/fuzzi_logic.py:33 | a dict comprehension: well formed, keys in order of first appearance, exactly the keys of the pairs |
| Dicts.FromPairsLastWins | FuzzyInference/fuzzi_logic.py:33 | a key holds the value of its last pair |
| Dicts.FromPairsRepeated | FuzzyInference/fuzzi_logic.py:33 | two pairs with the same label make one entry, holding the later value |
| Dicts.ItemsOf | FuzzyInference/fuzzi_logic.py:55 | `d.items()`: the labels in insertion order, each with the value stored for it |
| Dicts.ItemsRoundTrip | FuzzyInference/fuzzi_logic.py:54-55 | rebuilding a dictionary from its items gives it back, keys in the same order |
| Dicts.SharedDict.Put | FuzzyInference/fuzzi_logic.py:46 | writing into a dict object changes its entries by exactly that write |
| FuzzySets.Segments | FuzzyInference/fuzzi_logic.py:32 | the text without braces is cut at every `;`: one more segment than `;`, none holds a `;`, and joining them with `;` gives the text without braces |
| FuzzySets.Fields | FuzzyInference/fuzzi_logic.py:34 | a stripped segment has exactly two fields exactly when it holds exactly one `/`, and joining the fields with `/` gives the stripped segment |
| FuzzySets.KeptPairs | FuzzyInference/fuzzi_logic.py:34 | at most one pair per segment, and no field of a pair holds `/` |
| FuzzySets.KeptPairsFromSegments | FuzzyInference/fuzzi_logic.py:34 | every kept pair is some segment that, stripped, reads `label/degree` |
| FuzzySets.KeptPairsAppend | FuzzyInference/fuzzi_logic.py:34 | segments are kept or dropped one by one: the pairs of two runs of segments are the pairs of each, in order |
| FuzzySets.KeptPairsSingle | FuzzyInference/fuzzi_logic.py:34 | a segment with exactly one `/` gives its two fields; any other segment is dropped silently |
| FuzzySets.Entry | FuzzyInference/fuzzi_logic.py:33 | a kept pair fails with ValueError exactly when `float` refuses its degree; otherwise its key is `try_parse` of the label and its degree is the number |
| FuzzySets.ParseItems | FuzzyInference/fuzzi_logic.py:32-34 | a parsed dictionary is well formed: distinct keys, exactly those of its map |
| FuzzySets.PairWordPair | FuzzyInference/fuzzi_logic.py:32-34 | in `n1/d1; m; n2/d2` the word segment is dropped silently and the two pairs are kept, in order |
| FuzzySets.ParsePairWordPair | FuzzyInference/fuzzi_logic.py:32-34 | `n1/d1; m; n2/d2` with both labels reading as one key parses without error to ONE entry, holding the later degree |
| FuzzySets.ParseItemsFails | FuzzyInference/fuzzi_logic.py:32-34 | parsing raises exactly when a kept segment has a bad degree, and then raises ValueError |
| FuzzySets.ParseItemsKeys | FuzzyInference/fuzzi_logic.py:33-34 | the parsed keys are the labels of the kept segments in order of first appearance |
| FuzzySets.ParseItemsLastWins | FuzzyInference/fuzzi_logic.py:33-34 | a label holds the degree of its last kept segment |
| FuzzySets.Completed | FuzzyInference/fuzzi_logic.py:44-46 | filling in defaults keeps a dictionary well formed and keeps the existing keys in front, in order |
| FuzzySets.CompletedOrder | FuzzyInference/fuzzi_logic.py:44-46 | the completed key order: the old keys, then each surface label that had no entry, once, in the order of its first place in the surface |
| FuzzySets.CompletedIsDefaulted | FuzzyInference/fuzzi_logic.py:44-46 | the loop's dictionary equals the direct description: absent or `None` surface labels become 0, everything else is kept |
| FuzzySets.CompletedCovers | FuzzyInference/fuzzi_logic.py:38-46 | surface completeness: every surface label holds a degree; a held degree is unchanged; an absent or `None` one becomes 0; no entry is removed and no other key added |
| FuzzySets.FuzzySet.FromDict | FuzzyInference/fuzzi_logic.py:35-46 | the set keeps the caller's dictionary object itself; without a surface its surface is the keys in insertion order and nothing changes; with one, the surface is that list and the caller's dictionary now holds the completed entries |
| FuzzySets.FuzzySet.FromText | FuzzyInference/fuzzi_logic.py:31-46 | a bad degree raises ValueError; otherwise a fresh set over a fresh dictionary, with the parsed entries (completed for an explicit surface) and the right surface |
| FuzzySets.FuzzySet.Get | FuzzyInference/fuzzi_logic.py:48-49 | `self[l]` is the stored degree, and KeyError exactly when `l` has no entry |
| FuzzySets.FuzzySet.Items | FuzzyInference/fuzzi_logic.py:54-55 | the items list the keys in insertion order and rebuild the dictionary exactly |
| Norms.Min | FuzzyInference/fuzzi_logic.py:62 | the default T-norm: at most both arguments and one of them |
| Norms.Max | FuzzyInference/fuzzi_logic.py:95 | the default aggregation: at least both arguments and one of them |
| FuzzyRelations.ProductCells | FuzzyInference/fuzzi_logic.py:75-77 | building the cells can fail only with TypeError |
| FuzzyRelations.ProductCellsEntries | FuzzyInference/fuzzi_logic.py:75-77 | relation shape: the cells are exactly the pairs of entries of the two sets, each holding the norm of the two degrees |
| FuzzyRelations.ProductCellsOnSurfaces | FuzzyInference/fuzzi_logic.py:70-77 | when each set has an entry for each of its surface labels, every pair of surface labels has a cell, equal to the norm of the two degrees |
| FuzzyRelations.ReachesNoneIff | FuzzyInference/fuzzi_logic.py:75-77 | construction raises TypeError exactly when one set holds a `None` degree and the other set is not empty |
| FuzzyRelations.FillCells | FuzzyInference/fuzzi_logic.py:75-77 | the nested loop stores exactly the specified cells, or raises TypeError as specified |
| FuzzyRelations.FillRow | FuzzyInference/fuzzi_logic.py:76-77 | one row of the loop adds the norm for every entry of the second set, leaves other rows alone, or raises TypeError at a `None` |
| FuzzyRelations.FuzzyRelation.Empty | FuzzyInference/fuzzi_logic.py:86 | `FuzzyRelation(FuzzySet(), FuzzySet(), norm)`, as `transpose` (line 86) and `aggregate` (line 99) start: no cells, empty surfaces, the given norm |
| FuzzyRelations.FuzzyRelation.Create | FuzzyInference/fuzzi_logic.py:62-77 | `FuzzyRelation(set1, set2, norm)`: the sets' surfaces, the given norm, and the product cells; TypeError if a `None` meets the norm |
| FuzzyRelations.FuzzyRelation.Surfaces | FuzzyInference/fuzzi_logic.py:79-80 | the two surfaces as stored |
| FuzzyRelations.FuzzyRelation.Get | FuzzyInference/fuzzi_logic.py:82-83 | `get(a, b)` is the stored cell, and KeyError exactly when there is none |
| FuzzyRelations.TransposedAsWritten | FuzzyInference/fuzzi_logic.py:90 | as written, transposition succeeds only on a relation without cells, and otherwise raises ValueError |
| FuzzyRelations.TransposeFailsOnOneCell | FuzzyInference/fuzzi_logic.py:85-93 | a one-cell relation fails to transpose, while the intended swap of it is defined |
| FuzzyRelations.FuzzyRelation.Transpose | FuzzyInference/fuzzi_logic.py:85-93 | a relation with cells raises ValueError; an empty one gives a fresh relation with swapped surfaces, no cells and the same norm |
| FuzzyRelations.Swapped | FuzzyInference/fuzzi_logic.py:90-91 | the intended transposition: (a, b) holds v exactly when (b, a) held v |
| FuzzyRelations.SwappedInvolution | FuzzyInference/fuzzi_logic.py:85-93 | swapping twice gives the relation back |
| FuzzyRelations.FuzzyRelation.Swap | FuzzyInference/fuzzi_logic.py:85-93 | the intended `transpose`: a fresh relation with swapped surfaces and cells and the same norm |
| FuzzyRelations.AggregateCells | FuzzyInference/fuzzi_logic.py:95-108 | when aggregation succeeds, its cells are exactly the pairs of `self`'s surfaces |
| FuzzyRelations.CombinedCells | FuzzyInference/fuzzi_logic.py:103-106 | with matching surfaces: KeyError when a cell is missing; otherwise cells on exactly `self`'s surface pairs |
| FuzzyRelations.CombinedCellsValues | FuzzyInference/fuzzi_logic.py:103-106 | KeyError exactly when a cell of a surface pair is missing from either relation; otherwise each cell is `agg` of the two cells |
| FuzzyRelations.CombineCells | FuzzyInference/fuzzi_logic.py:103-106 | the nested loop stores exactly the specified cells, or raises KeyError as specified |
| FuzzyRelations.CombineRow | FuzzyInference/fuzzi_logic.py:104-106 | one row of the loop adds `agg` of the two cells for every second-surface label, or raises KeyError at a missing cell |
| FuzzyRelations.AggregateMismatch | FuzzyInference/fuzzi_logic.py:96-97 | aggregation raises ArithmeticError exactly when the first or the second surfaces differ as sets |
| FuzzyRelations.SetOfDiffers | FuzzyInference/fuzzi_logic.py:96 | `set(s) != set(t)` exactly when some label is in one and not the other |
| FuzzyRelations.AggregateSymmetric | FuzzyInference/fuzzi_logic.py:95-108 | with a commutative `agg`, `R.aggregate(O)` and `O.aggregate(R)` fail alike or hold the same cells |
| FuzzyRelations.MaxAggregateSymmetric | FuzzyInference/fuzzi_logic.py:95-108 | so the default aggregation is symmetric |
| FuzzyRelations.FuzzyRelation.Aggregate | FuzzyInference/fuzzi_logic.py:95-108 | ArithmeticError on a surface mismatch; otherwise a fresh relation with `self`'s surfaces, the `min` norm and the aggregated cells; neither operand changes |
| Inference.Step | FuzzyInference/fuzzi_logic.py:127 | `func_in(input[x], R(x, y))` succeeds exactly when `x` has an entry, the cell exists and the degree is not `None`; KeyError or TypeError otherwise |
| Inference.Column | FuzzyInference/fuzzi_logic.py:125-131 | a successful output entry is `None` exactly when the first surface is empty; a failing one raises KeyError or TypeError |
| Inference.ColumnOk | FuzzyInference/fuzzi_logic.py:125-131 | an output entry succeeds exactly when every step of its column does |
| Inference.ColumnIsFold | FuzzyInference/fuzzi_logic.py:125-131 | when every step succeeds, each output entry is the left fold of `func_out` over the `func_in` values, seeded with the first |
| Inference.Outputs | FuzzyInference/fuzzi_logic.py:124-133 | the output dictionary of the loops is well formed |
| Inference.Infer | FuzzyInference/fuzzi_logic.py:116-135 | the result of `build_inference` is a well-formed dictionary |
| Inference.OutputsOk | FuzzyInference/fuzzi_logic.py:124-133 | the composition succeeds exactly when every output column does |
| Inference.OutputsAllOk | FuzzyInference/fuzzi_logic.py:124-133 | when every output column succeeds, so does the outer loop |
| Inference.OutputsKeys | FuzzyInference/fuzzi_logic.py:124-135 | the output keys, and so the output surface, are the relation's second surface in order, without repeats |
| Inference.OutputsValues | FuzzyInference/fuzzi_logic.py:124-133 | every output label holds its column |
| Inference.OutputsValueAt | FuzzyInference/fuzzi_logic.py:124-133 | one output label holds its column |
| Inference.OutputsErrors | FuzzyInference/fuzzi_logic.py:124-133 | the loops raise only KeyError or TypeError |
| Inference.InferMismatch | FuzzyInference/fuzzi_logic.py:119-120 | composition raises ArithmeticError exactly when the input surface and the first surface differ as sets |
| Inference.InferSucceeds | FuzzyInference/fuzzi_logic.py:116-135 | matching surfaces, a degree for every first-surface label and a cell for every surface pair make the composition succeed |
| Inference.MaxMinColumn | FuzzyInference/fuzzi_logic.py:124-131 | with `min`/`max` and every step succeeding, the output entry exists and is the largest `min(input[x], R(x, y))`: at least each, equal to one |
| Inference.MaxMinBounds | FuzzyInference/fuzzi_logic.py:124-131 | with `min`/`max`, a degree for every first-surface label and a cell for every pair: the output entry exists and is at most some cell of its column and at most some input degree; with all degrees and cells in [0, 1], so is the output |
| Inference.ColumnErrStays | FuzzyInference/fuzzi_logic.py:125-131 | the first failing step decides the column's error |
| Inference.OutputsErrStays | FuzzyInference/fuzzi_logic.py:124-133 | the first failing column decides the composition's error |
| Inference.ColumnLoop | FuzzyInference/fuzzi_logic.py:125-131 | the inner loop returns exactly the specified column |
| Inference.OutputLoop | FuzzyInference/fuzzi_logic.py:124-133 | the outer loop returns exactly the specified output dictionary |
| Inference.BuildInference | FuzzyInference/fuzzi_logic.py:116-135 | `build_inference`: the specified error, or a fresh set over a fresh dictionary holding the specified outputs, with those outputs' keys as its surface |
| PressureExample.RulesBuild | FuzzyInference/main.py:8-15 | both rule relations build without error |
| PressureExample.AggregatedRelation | FuzzyInference/main.py:14-16 | `relation1.aggregate(relation2)` holds the expected twelve cells, including the 350 column 0.4, 0.6, 0.8, 1 |
| PressureExample.InferenceOnHighPressure | FuzzyInference/main.py:42-43 | inference on the high-pressure set gives 300 → 0.6, 350 → 1, 400 → 0.5 |
| PressureExample.InferenceOnOtherSurface | FuzzyInference/fuzzi_logic.py:119-120 | an input over {1, 2, 3} is refused with ArithmeticError |

## Findings

| source | as written | input that shows it | evidently intended | confidence | as-written member | corrected member |
|---|---|---|---|---|---|---|
| FuzzyInference/fuzzi_logic.py:90 | `for item1, item2, freq in self.__relations.items()` unpacks each `(key, value)` pair into three names, which raises ValueError | a relation with the one cell (1, 2) → 0.5 | iterate `((item1, item2), freq)` and store each cell swapped, so that transposing twice gives the relation back | high; not executed | FuzzyRelations.TransposeFailsOnOneCell | FuzzyRelations.SwappedInvolution |
| FuzzyInference/fuzzi_logic.py:10-18 | `bool` is tried on every unquoted token that is not a number, and `bool` of a non-empty string is always `True` | the tokens `a`, `b` and `False` all become the key `True` | keep the raw token (line 18) and read only the literals `True`/`False` as booleans | high; not executed | Labels.UnquotedWordIsTrue | Labels.IntendedKeepsWords |

Everywhere else the model follows the code as written. `FuzzyRelation.Transpose` and
`FuzzySet.FromText` (through `TryParse`) keep the behaviour in the "as written" column. The
corrected definitions, `FuzzyRelations.Swapped` / `FuzzyRelation.Swap` and
`Labels.TryParseIntended`, stand beside them.

## Left out

- Labels.TryParse: only string tokens are modelled. The `isinstance(text, str)` test matters only for non-strings, which the text constructor never passes.
- Labels.ParseInt and Labels.ParseFloat: these recognise an optional sign, ASCII digits and at most one decimal point, with surrounding white space. The following are not modelled:
  - underscores;
  - exponents;
  - `inf` and `nan`;
  - non-ASCII digits.

  Python reads a token such as `1e3`, `1_0` or `inf` as a number. The model refuses it, so `try_parse` gives it the key `True` instead.
- Degrees are exact decimals, not binary floating point. So a degree may differ from Python's in its last binary digits, and `min`/`max` may break a tie that the rounded doubles would not.
- Labels.LabelOf: a float label is the exact decimal its text spells, not the nearest binary double. So key identity differs from Python's for labels that differ only past double precision:
  - `0.1` and `0.10000000000000001` are two keys in the model, but one in Python;
  - `9007199254740993` and `9007199254740993.0` are one key in the model, but two in Python (the float rounds to 2^53).
- Dictionary keys are modelled up to Python equality. Which key object a dict keeps for equal keys (`1` or `1.0`) shows only in `__str__`, which is not modelled either.
- `FuzzySet.__str__` and `FuzzyRelation.__str__` (lines 57-58 and 110-113) are not modelled. They are text renderings with Python float formatting.
- A `FuzzySet` built from a value that is neither a string nor a dict (line 29 leaves it empty) is not modelled. It is a type error in the signature.
- The norms, aggregation and composition functions are total functions on reals. Two things follow:
  - A caller's function that accepts `None` is not modelled: a `None` degree reaching any of them raises TypeError.
  - Functions that raise or have side effects are out of scope.
- `FuzzyInference/main.py` is not part of this model beyond its constant sets and rules: console input and printing are I/O.
