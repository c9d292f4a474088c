# Medicine lookup: text handling, in Dafny

This project models the hand-written text handling of a medicine-information assistant. The assistant comes as two front ends, `app.py` (a request/response API) and `flaskapp.py` (a reactive UI). Given a drug name that a user typed or that OCR read off a prescription, it finds the drug in a flat dataset. It has a language model write a summary, and it lists other medicines with the same active ingredient. The model covers the logic between the libraries:

- **Name normalisation and dataset canonicalisation** (`MedData`): `normalize_string` and `normalize_dataset`. Varied JSON key spellings are mapped onto seven canonical fields; each field takes the first variant whose key is present with a non-empty value.
- **Dataset search** (`MedSearch`): `search_dataset`. The primary stage is a substring and token-subset match. It falls back to `difflib.get_close_matches` and truncates to `max_results`.
- **Prescription text** (`PrescriptionText`): `parse_ocr_text` and `extract_meds_from_text`. A name and a dosage of digit, sign, digit, sign, digit (each sign `+` or `-`) after `TAB`, or else runs of capitalised words.
- **OCR line grouping and name extraction** (`OcrLines`): the two loops inside `extract_medicines_from_image`. A `TAB`/`CAP`/`INJ`/`SYR` marker line is merged with the next non-marker line. A name is then taken from each group by two anchored patterns.
- **Alternatives and lookup**:
  - `get_alternatives_by_active_ingredient` (`Alternatives`);
  - `get_item` and `find_alternates` (`DrugTable`).
- **Retry selection**:
  - the `/regenerate` loop (`Regenerate`);
  - `generate_summary_until_different` and its patched fallback (`SummaryRetry`).
- **Comma-separated input** (`NameInput`): `[n.strip() for n in q.split(",") if n.strip()]`.

`Options`, `Seqs` and `Text` hold the shared pieces. `Seqs` has list filters, `s[:n]` and flattening. `Text` has ASCII `lower`/`upper`/`title`, `strip`, `split`, `join`, `in` on strings, and `re.sub` of a character-class run by one space.

Every pattern with alternatives or repetition choices is written out as a backtracking matcher over the string. The four `re.sub` calls that replace one character-class run (`[^a-z0-9]+` at app.py:25, 42 and 47, `\s+` at app.py:96) are the direct functions `MedData.Compact` and `Text.RunsToSpace`. Each matcher tries the alternatives in the order Python's `re` engine does: greedy repetitions longest first, the lazy `(.+?)` shortest first, and `findall` resuming after each match. The language model and `difflib` are not modelled. Instead they are inputs:

- a sequence `candidates` of the summaries the model would produce, one per attempt;
- the list `closeMatches` that `get_close_matches` returned. It is constrained only as the library documents: at most `n` entries, each drawn from the possibilities.

Consequences of the code as written, which the contracts state:

- `search_dataset` calls `get_close_matches` with `n=max_results`. So when `max_results` is 0 and the primary stage finds nothing, the call raises `ValueError` (`MedSearch.SearchDataset` returns `RaisedValueError`).
- `get_alternatives_by_active_ingredient` checks its bound after each dataset item. With `max_results` 0 it stops after the first item, so it can return one alternative.
- The OCR grouping joins a marker with a blank next line; the group is then just the marker.
- The fallback of `generate_summary_until_different` appends "This drug is indicated for …". That text does not contain the word "indication" that the loop tests for, so only "pregnancy" is guaranteed in the result.

## Model

| member | source | states |
|---|---|---|
| `MedData.NormalizeEmpty` | app.py:23-24 | the empty string normalises to the empty string |
| `MedData.NormalizeIsNormal` | app.py:21-26 | `NormalizeString`, the definition of `normalize_string`: the result holds only `a-z`, `0-9` and single inner spaces, none at either end |
| `MedData.NormalizeIdempotent` | app.py:21-26 | normalising a normalised string changes nothing |
| `MedData.NormalOfNormal` | app.py:21-26 | a string already in normal form is its own normalisation |
| `MedData.NormalizeKeepsAlnum` | app.py:25-26 | normalisation keeps exactly the letters and digits of the lower-cased input, in order |
| `MedData.KeyMapLast` | app.py:42 | a punctuation-free key is in the key map iff some raw key compacts to it, and then it maps to the value of the last such pair |
| `MedData.PickVariant` | app.py:45-50 | returns the value of the first variant whose compacted key is present with a non-empty value, or `""` when there is none |
| `MedData.FirstVariantUnique` | app.py:45-50 | the first-usable-variant value is unique |
| `MedData.CanonicalNamesDistinct` | app.py:30-38 | the seven canonical field names are distinct |
| `MedData.NormalizeItem` | app.py:42-54 | the item has exactly the seven canonical keys, each with its first usable variant, plus the raw record and the normalised drug name and active ingredient |
| `MedData.NormalizeDataset` | app.py:40-56 | one normalised item per raw record, same count and order |
| `MedSearch.PrimaryMatchMeaning` | app.py:71-76 | a primary match has a non-empty name or ingredient, and either every query token occurs in the drug name or the whole query occurs in the ingredient |
| `MedSearch.PrimaryMatchesExactly` | app.py:68-76 | an item is a primary result iff it is in the dataset and passes the test |
| `MedSearch.PrimaryMatchesInOrder` | app.py:68-76 | primary results keep dataset order (the filter distributes over concatenation) |
| `MedSearch.AllDrugs` | app.py:78 | every possibility is a non-empty normalised drug name of some item |
| `MedSearch.FirstWithDrug` | app.py:81 | the first item with that normalised drug name, or none when no item has it |
| `MedSearch.FallbackMatches` | app.py:80-83 | at most one item per close match, each from the dataset with its drug name among the close matches |
| `MedSearch.FallbackFindsEveryMatch` | app.py:79-83 | when every close match is a dataset drug name, each contributes one item |
| `MedSearch.CollectPrimary` | app.py:66-76 | the loop collects exactly the primary matches |
| `MedSearch.CollectFallback` | app.py:80-83 | the loop collects exactly the fallback matches |
| `MedSearch.SearchDataset` | app.py:61-84 | `[]` for an empty or too-short name; raises iff the fallback is reached with `max_results` 0; at most `max_results` dataset items, none with both fields empty; the primary matches truncated when there are any, the fallback matches otherwise |
| `PrescriptionText.TryOpening` | app.py:91 | a match found after the first `\s+` has whitespace before the name, a non-empty newline-free name, whitespace, then a dosage |
| `PrescriptionText.MatchTabAt` | app.py:91 | a match at a position has the full shape of the primary pattern there |
| `PrescriptionText.FindTabEntries` | app.py:91-92 | every pair found has a non-empty, newline-free name and a dosage of digit, sign, digit, sign, digit |
| `PrescriptionText.FindCapsPhrases` | app.py:98 | phrases are found by `MatchCapsAt`, the matcher of the fallback pattern: every phrase found starts with a capital, ends with a name character and holds only name characters and whitespace |
| `PrescriptionText.CleanNameIsTidy` | app.py:96 | the cleaned name has no whitespace at either end, only plain spaces inside, never two in a row |
| `PrescriptionText.TabEntriesWellFormed` | app.py:95-96 | `TabEntries`, the definition of the primary-mode entries: when every match has a dosage of digit, sign, digit, sign, digit, every entry carries such a dosage and a tidy name |
| `PrescriptionText.CapsEntries` | app.py:99 | fallback entries carry no dosage and are stripped phrases longer than 2 characters |
| `PrescriptionText.ParsedEntriesWellFormed` | app.py:87-99 | `ParsedEntries`, the definition of `parse_ocr_text` on a line list: every entry is well formed, and either all carry a dosage or none does |
| `PrescriptionText.BuildTabEntries` | app.py:93-97 | the loop builds exactly the primary-mode entries |
| `PrescriptionText.ParseOcrText` | app.py:87-99 | empty input gives `[]`; otherwise the entries of the primary mode if it matched, else of the fallback |
| `PrescriptionText.ExtractMedsFromText` | app.py:101-108 | a single text is parsed as a one-line list; the names are exactly the entries' drug names, in order |
| `Alternatives.ChosenAlternativesMeaning` | app.py:116-122 | `ChosenAlternatives`, the definition of the selection loop: each chosen item shares the ingredient and has another name; at most `max_results` (1 when it is 0); for a positive bound, empty iff no dataset item qualifies |
| `Alternatives.CollectAlternatives` | app.py:116-122 | the loop with its early break returns the raw records of exactly the chosen items |
| `Alternatives.GetAlternativesByActiveIngredient` | app.py:111-125 | `[]` for an empty main ingredient, otherwise the chosen raw records or the single sentinel entry when there are none |
| `Regenerate.RegenerateSummary` | app.py:277-293 | draws at most five answers; returns the last drawn, which is the first whose stripped text differs from the stripped previous summary, or the fifth |
| `Regenerate.RegenerateChoiceMeaning` | app.py:282-293 | `RegenerateChoice`, the definition of the retry loop: the choice is the first differing answer, or the fifth when all five match |
| `OcrLines.GroupOcrLines` | flaskapp.py:48-64 | the loop yields exactly the rendering of the line chunks |
| `OcrLines.ChunksCoverLines` | flaskapp.py:48-64 | `Grouped`, the definition of the grouping loop, renders `Chunks`: the chunks, concatenated, are the input lines: each consumed once, in order |
| `OcrLines.ChunkShapes` | flaskapp.py:52-60 | a two-line chunk is a marker and a non-marker; a lone marker is last or followed by a marker |
| `OcrLines.GroupCount` | flaskapp.py:48-64 | `len(grouped) <= len(result) <= 2 * len(grouped)` |
| `OcrLines.RenderShape` | flaskapp.py:52-63 | a group is a stripped line, or a marker, a space and the next stripped line (just the marker when that line is blank) |
| `OcrLines.MatchMarkerLine` | flaskapp.py:68 | a match needs the marker prefix; the captured name is non-empty letters and whitespace, and the rest of the line is letters, whitespace and dashes |
| `OcrLines.ExtractNames` | flaskapp.py:69-79 | the loop yields exactly the names the lines give, in order |
| `OcrLines.ExtractedNames` | flaskapp.py:69-79 | at most one name per grouped line |
| `OcrLines.ExtractNameShape` | flaskapp.py:71-79 | `ExtractName`, the definition of one step of the extraction loop: a name is the captured part, or the whole line, stripped and title-cased: only letters and whitespace, nothing to strip, title case |
| `OcrLines.DigitLineGivesNothing` | flaskapp.py:68-79 | a line containing a digit gives no name |
| `OcrLines.ExtractedNamesFromLines` | flaskapp.py:69-79 | each extracted name is the one some grouped line gives |
| `OcrLines.ExtractMedicines` | flaskapp.py:48-81 | grouping followed by extraction |
| `DrugTable.GetItemFindsFirst` | flaskapp.py:166-170 | `GetItem`, the definition of `get_item`: not found iff no drug name equals the query up to case, with the message naming the query; otherwise the first such row |
| `DrugTable.FindAlternates` | flaskapp.py:172-182 | the answer is never empty |
| `DrugTable.FindAlternatesMeaning` | flaskapp.py:172-182 | the sentinel alone when the bound is 0 or nothing qualifies; otherwise the first `max_alternates` qualifying names in table order, each sharing the ingredient and with another name |
| `SummaryRetry.GenerateSummaryUntilDifferent` | flaskapp.py:148-164 | the result is the choice below for the first `max_attempts` answers |
| `SummaryRetry.SummaryChoiceMeaning` | flaskapp.py:149-159 | `SummaryChoice`, the definition of `generate_summary_until_different`: the first accepted answer (differs stripped, mentions pregnancy and indication), or the patched last answer when none is accepted |
| `SummaryRetry.PatchedMeaning` | flaskapp.py:159-164 | `Patched`, the definition of the fallback: it starts with the stripped last answer; it appends the indication sentence exactly when "indication" is absent, and after that only possibly the pregnancy sentence; an answer mentioning pregnancy gets no pregnancy sentence; the result always mentions pregnancy; an answer mentioning both is left unchanged |
| `SummaryRetry.SummaryMentionsPregnancy` | flaskapp.py:148-164 | whatever the model answers, the summary mentions pregnancy |
| `NameInput.NonEmptyStripped` | flaskapp.py:209 | every name kept is a non-empty stripped piece |
| `NameInput.SplitNamesShape` | app.py:240 | every name is non-empty, has nothing to strip and holds no comma |
| `NameInput.SplitNamesConcat` | flaskapp.py:209 | names keep input order: joining two inputs with a comma concatenates their names |
| `NameInput.SplitNamesSingle` | app.py:240 | input without commas gives its stripped self, or nothing when blank |
| `Text.JoinSplitOn` | app.py:240 | splitting on a separator and joining with it gives the input back |
| `Text.StripIdempotent` | app.py:26 | `strip` leaves no whitespace at either end, so stripping twice is stripping once |

## Left out

- Flask routes, JSON request and response handling, base64 and image decoding, and the Streamlit UI with its session state and HTML: these are I/O and presentation.
- easyocr and the temporary image file: the OCR output list is the model's input.
- `generate_summary_text` and the tokenizer and model: transformer inference. Its answers are the `candidates` input.
- `build_prompt` in both files: a random choice among template strings that has no effect on the selection rule.
- `difflib.get_close_matches` internals: a floating-point similarity ratio. Only its documented shape is kept.
- JSON file loading and pandas DataFrames: the dataset is a sequence of records. Field values are strings, so `NaN` and non-string JSON values are not modelled.
- Unicode case mapping and Unicode whitespace: `lower`, `upper`, `title`, `\s`, `\w` and `re.IGNORECASE` are modelled on ASCII. Whitespace is `' '`, `\t` to `\r`, and `\x1c` to `\x1f`.
- `MedSearch.SearchDataset`, `Alternatives.GetAlternativesByActiveIngredient`, `DrugTable.FindAlternates`: the bounds `max_results` and `max_alternates` are natural numbers. Python also accepts a negative bound: the slices of `search_dataset` and `find_alternates` then drop entries from the end, and the loop of `get_alternatives_by_active_ingredient` behaves as with 0. No caller passes one.
- `MedData.NormalizeItem`: a raw record is a sequence of key/value pairs whose keys are assumed distinct, as in a JSON object. With a repeated key, "last pair wins" could pick a different value than the dictionary would.
- `MedSearch.SearchDataset`: the fuzzy stage assumes only that `get_close_matches` returns at most `n` entries drawn from the possibilities, not which ones or in what order.
- `SummaryRetry.GenerateSummaryUntilDifferent`: requires `max_attempts >= 1`, because with no attempt the source reads an unbound variable.
- `Regenerate.RegenerateSummary`: requires at least five answers from the model, the fixed number of attempts.
