# geosuggest core, modelled in Dafny

geosuggest answers "which places in Canada and the USA start with this name?".
It loads a GeoNames dump into an in-memory index of `GeoRecord`s. It finds the
records whose primary, ASCII or alternate name starts with the query,
case-insensitively. It scores each one from name similarity (60%) and
proximity to the caller's coordinates (40%), and returns them from the highest
score down.

The model covers four source files:

- `geosuggest/geodb.py` is split across four modules:
  - `Fields` models `data_or_none` and `fips_to_iso`.
  - `Records` models `GeoRecord`. It is a class with a constant `Place` and a
    mutable `matchedOn` field, and it covers row parsing, `add_matched_on` and
    `to_dict`.
  - `Search` models the query side of `find_by_name`: `strip`, the removal of
    the six characters `* . [ ] \ /`, the prefix pattern and `match_in_list`.
    It also specifies the three scans as a value: `Search`, `Expected`,
    `Hits` and `Classify`.
  - `GeoDb` models the `GeoDB` class. Its constructor is the row-skipping load
    loop. `FindByName` runs the three imperative scans, which set `matchedOn`
    on the shared records.
- `geosuggest/api/controllers/ScoreController.py` becomes module
  `ScoreController`:
  - the name score and the proximity score;
  - the per-candidate score;
  - the `evaluate` loop (`Evaluate`), proved equal to the value `Suggestions`.
- `geosuggest/api/controllers/SuggestionController.py` becomes module
  `SuggestionController`: `get_suggestions`, with Python's stable
  `sorted(..., reverse=True)` modelled as an insertion sort (`SortByScore`).
- `geosuggest/api/errors.py` becomes module `Errors`: `InvalidQuery` and its
  `to_dict`, and the `Failure` a request can end with.

Supporting modules:

- `Wrappers` holds `Option` and `Result`.
- `Dict` holds the values a Python dict of the API holds.

How the model treats Python behaviour:

- Uncaught exceptions are `Failure.Unhandled(reason)` results:
  - `pattern.match(None)` on a record without a name;
  - `SequenceMatcher` compared against `None`;
  - geopy raising.
- The `InvalidQuery` that `find_by_name` raises on purpose is
  `Failure.QueryRejected`.
- Library behaviour is passed in as parameters:
  - the int, float and date parsers (`Records.Parsers`);
  - whether `re.compile` accepts the cleaned query (`compiles`);
  - `SequenceMatcher.ratio`, the geodesic distance and the `'%.2f'` rounding
    (`ScoreController.Collaborators`).

  Where a proof needs a property of a parameter, a predicate states it
  (`RatioInRange`, `DistanceNonNegative`, `RoundingInRange`). The property is
  a precondition of that lemma, never assumed.

Behaviour of the code that the model keeps:

- `evaluate` raises on a candidate without a name or ASCII name, and whenever
  geopy raises. The model returns these as `Unhandled` failures.
- `find_by_name` writes `matched_on` on the shared records of the index and
  never resets it. A record that a later query does not return keeps the
  label of the earlier query (`GeoDb.GeoDB.FindByName`).
- The result of `get_suggestions` is sorted from the highest score down, and
  equal scores keep `evaluate`'s order.
- `find_by_name` avoids duplicates with `point not in candidates`. `GeoRecord`
  defines no `__eq__`, so this compares objects. The model compares
  `GeoRecord` references.

## Model

| member | source | states |
|---|---|---|
| Errors.NewInvalidQuery | geosuggest/api/errors.py:9-14 | The message and payload are kept. The status code is 400 unless a truthy code is passed (None or 0 keep 400); a truthy code replaces it. |
| Errors.ToDict | geosuggest/api/errors.py:16-19 | `'message'` holds the exception's message. The keys are the payload's keys plus `'message'`. Every other payload entry is kept unchanged. |
| Errors.ToDictWithoutPayload | geosuggest/api/errors.py:16-19 | With a None payload, to_dict is exactly `{'message': message}`. |
| Fields.Cell | geosuggest/geodb.py:12-24 | A missing or empty field gives None without raising. Otherwise the call succeeds exactly when the conversion does, with the converted value. A failure names the field, the type and the offending text. |
| Fields.CellList | geosuggest/geodb.py:12-19 | With `split_on`, a missing or empty field gives None, and a conversion that succeeds gives a list. |
| Fields.ConvertAll | geosuggest/geodb.py:19 | The comprehension succeeds exactly when every piece converts. It then gives one value per piece, in order. Otherwise it fails on the first piece that does not convert. |
| Fields.Split | geosuggest/geodb.py:18 | `str.split(sep)` gives at least one piece, and no piece contains the separator. |
| Fields.JoinSplit | geosuggest/geodb.py:18 | Joining the pieces of a split with the separator gives back the text. |
| Fields.SplitJoin | geosuggest/geodb.py:18 | Splitting a join of separator-free pieces gives back the pieces. |
| Fields.StrCellListJoinsBack | geosuggest/geodb.py:17-19 | For `str`, the list is the split of the cell text, and the pieces join back to the text. |
| Fields.ConvertStrIsIdentity | geosuggest/geodb.py:19 | Converting pieces with `str` gives the pieces themselves. |
| Fields.FipsToIso | geosuggest/geodb.py:28-38 | There is a result exactly for the codes 1-5 and 7-14, and it is a two-letter code. Every other integer, 6 included, gives None. |
| Fields.FipsToIsoInjective | geosuggest/geodb.py:29-33 | Two different FIPS codes never map to the same ISO code. |
| Records.CanadianAdmin1 | geosuggest/geodb.py:65 | For a Canadian row, an empty admin1 raises (`int(None)`). A non-empty admin1 succeeds exactly when it parses as an integer, and the result is `fips_to_iso` of that integer. |
| Records.ModificationDate | geosuggest/geodb.py:73-74 | A missing `modified_at` column raises KeyError. An empty one gives None. A non-empty one succeeds exactly when the date parser accepts it, with the parsed date. |
| Records.StrCell | geosuggest/geodb.py:12-24 | `data_or_none` for `str` never raises. It gives the text exactly when the text is non-empty. |
| Records.StrListCell | geosuggest/geodb.py:12-19 | `data_or_none(split_on=',')` for `str` never raises. A non-empty cell gives pieces that join back to the text. |
| Records.ParseRow | geosuggest/geodb.py:55-75 | GeoRecord(row) succeeds exactly when the lat, long, population, elevation and dem cells convert, a Canadian admin1 converts, and the modification date does. Every field is then the value of its own cell, an empty cell giving None. A Canadian admin1 goes through fips_to_iso, any other admin1 is the cell. An empty Canadian admin1, or no `modified_at` column, makes the row fail. |
| Records.Capitalize | geosuggest/geodb.py:88 | Same length, first character upper-cased, every other character lower-cased. |
| Records.GeoRecord.constructor | geosuggest/geodb.py:55-75 | The record holds the parsed place, and `matched_on` starts unset. |
| Records.GeoRecord.AddMatchedOn | geosuggest/geodb.py:77-79 | Sets `matched_on` and returns the record itself. |
| Records.GeoRecord.BasicDict | geosuggest/geodb.py:85-91 | The keys are exactly name, latitude and longitude. The name starts with the capitalised shown name (matched_on, else name) followed by ", ". The coordinates are the record's. |
| Records.GeoRecord.ExtendedValue | geosuggest/geodb.py:92-108 | Each of the fifteen extended keys maps to the record's own field of that name: ascii_name to the ASCII name, population to the population, and so on. |
| Records.GeoRecord.ExtendedDict | geosuggest/geodb.py:92-108 | The keys are exactly the fifteen extended ones, and each holds the record's own field of that name. |
| Records.GeoRecord.ToDict | geosuggest/geodb.py:83-112 | `simple` gives the basic keys only, otherwise basic plus extended keys. The basic entries are the same either way, and the extended entries are those of the extended dict. |
| Search.Strip | geosuggest/geodb.py:135 | The result is a contiguous slice of the query. Everything before and after the slice is whitespace, and the slice neither starts nor ends with whitespace. |
| Search.Clean | geosuggest/geodb.py:136-137 | The result is no longer than the query and contains none of the six characters. |
| Search.CleanAppend | geosuggest/geodb.py:137 | Cleaning goes character by character: the cleaned concatenation is the concatenation of the cleaned parts. |
| Search.CleanOneCharacter | geosuggest/geodb.py:137 | A single character is removed exactly when it is one of the six, and kept otherwise. |
| Search.CleanEmptyIff | geosuggest/geodb.py:136-140 | The cleaned query is empty exactly when every character is one of the six. |
| Search.CleanKeepsOtherCharacters | geosuggest/geodb.py:136-137 | A query without any of the six characters is unchanged by cleaning. |
| Search.CleanIdempotent | geosuggest/geodb.py:136-137 | Cleaning twice is cleaning once. |
| Search.StarSpaceStarCleansToSpace | geosuggest/geodb.py:135-139 | Cleaning comes after trimming, so `"* *"` keeps its inner space and cleans to `" "`. The query is therefore not rejected as empty, and no InvalidQuery is raised when `" "` compiles. |
| Search.MatchesOwnPrefix | geosuggest/geodb.py:143 | A compiled query matches every name that starts with the query. |
| Search.FirstMatch | geosuggest/geodb.py:46-50 | None exactly when no item matches. Otherwise the result is a matching item with no match before it. |
| Search.MatchInList | geosuggest/geodb.py:42-50 | A missing or empty list gives None. Otherwise the first matching item in list order, or None. |
| Search.Classify | geosuggest/geodb.py:147-154 | A place is classified only by one of its own names, one that matches. It goes to the primary scan, labelled with its name, exactly when its name matches; to the ASCII scan, labelled with its ASCII name, exactly when only the ASCII name matches; to the alternate scan, labelled with the first matching alternate, exactly when neither matches and an alternate does. |
| Search.ClassifiedIffAnyNameMatches | geosuggest/geodb.py:147-154 | A place is collected by some scan exactly when one of its names (primary, ASCII or any alternate) matches. |
| Search.Hits | geosuggest/geodb.py:147-154 | Each hit of a scan is a place classified into that scan, annotated with the classifying name. Hits come in strictly increasing index order. |
| Search.HitsIndexIff | geosuggest/geodb.py:147-154 | A scan collects a place exactly when the place's earliest matching scan is that one. |
| Search.ExpectedHitsAreClassified | geosuggest/geodb.py:147-155 | Every returned hit is a classified place with matched_on equal to the name that classified it. |
| Search.ExpectedOrdered | geosuggest/geodb.py:147-155 | Primary-name matches come first, then ASCII-only, then alternate-only, each group in index order. |
| Search.ExpectedDistinct | geosuggest/geodb.py:147-155 | No record is returned twice. |
| Search.ExpectedComplete | geosuggest/geodb.py:147-155 | A record is returned exactly when one of its names matches. |
| Search.Search | geosuggest/geodb.py:134-155 | Every returned hit is a position of the index. |
| Search.SearchRejectsExactly | geosuggest/geodb.py:135-145 | InvalidQuery is raised exactly when the trimmed query consists only of the six characters, or the cleaned query does not compile. Its status is 400. Otherwise the query raises the TypeError of `pattern.match(None)` exactly when some place lacks a name or an ASCII name. |
| Search.SearchWithoutMatchIsEmpty | geosuggest/geodb.py:139-155 | A query that is non-empty after cleaning and compiles, over places that all have a name and an ASCII name, gives an empty list, not an error, when no name matches. |
| Search.PrimaryMatchIsFound | geosuggest/geodb.py:147 | A record whose primary name matches is returned with matched_on equal to that name. |
| Search.ExactNameIsFound | geosuggest/geodb.py:134-147 | A query equal to a record's primary name, and unchanged by strip and cleaning, finds that record with matched_on equal to its name. |
| GeoDb.Loaded | geosuggest/geodb.py:125-131 | Loading never keeps more places than there are rows. |
| GeoDb.LoadedAppend | geosuggest/geodb.py:125-131 | The load goes row by row: loading a concatenation is the concatenation of the loads. |
| GeoDb.FailingRowIsSkipped | geosuggest/geodb.py:126-131 | A row whose GeoRecord raises is left out, and the load carries on past it. |
| GeoDb.GoodRowIsKept | geosuggest/geodb.py:126-127 | A row that converts is kept in its place, between the rows before and after it. |
| GeoDb.LoadedMembership | geosuggest/geodb.py:125-131 | The index holds exactly the places of the rows that convert. |
| GeoDb.LoadRecords | geosuggest/geodb.py:118-131 | The load loop makes one fresh, distinct, unannotated record per converting row, in row order. |
| GeoDb.NameAt | geosuggest/geodb.py:147 | One step of the first scan keeps the collected records equal to the primary hits so far, and stamps this record. |
| GeoDb.ScanNames | geosuggest/geodb.py:147 | The first scan returns the primary-name hits as records. It raises exactly when some record has no name. It then raises at the first such record: every record before it is already annotated, and every record from it on is untouched. |
| GeoDb.AsciiAt | geosuggest/geodb.py:148-149 | One step of the second scan, skipping records the first scan collected. |
| GeoDb.ScanAsciiNames | geosuggest/geodb.py:148-149 | The second scan returns the ASCII-only hits. It raises exactly when some record has no ASCII name, at the first such record: every record before it is already annotated, and every record from it on is untouched. |
| GeoDb.AlternateAt | geosuggest/geodb.py:150-154 | One step of the third scan: the first matching alternate, when the record is not collected yet. |
| GeoDb.ScanAlternateNames | geosuggest/geodb.py:150-154 | The third scan appends the alternate-only hits, annotated with the first matching alternate name. |
| GeoDb.StampsKeepLabels | geosuggest/geodb.py:147-154 | No scan sets matched_on to anything but one of the record's own names. |
| GeoDb.ScansAreExpected | geosuggest/geodb.py:147-155 | After the three scans, the hits are the expected ones. Every hit's record carries the hit's name, and every other record keeps its matched_on. |
| GeoDb.PlanScans | geosuggest/geodb.py:147-155 | The matched_on values after each scan stay among the record's own names, and the final values are those of ScansAreExpected. |
| GeoDb.MatchRecords | geosuggest/geodb.py:147-155 | The scans return the records of the expected hits, in order, each annotated with its hit's name. Records not returned keep their old matched_on. A missing name raises. |
| GeoDb.GeoDB.constructor | geosuggest/geodb.py:117-131 | The index holds the places of the converting rows, in row order, as fresh unannotated records. |
| GeoDb.GeoDB.FindByName | geosuggest/geodb.py:134-155 | The result equals `Search` over the index's places: the same failure, or the hit records with matched_on set. The index list is neither reordered nor resized. Records not returned keep a stale matched_on. An InvalidQuery leaves every record untouched. No record is returned twice. |
| ScoreController.Max | geosuggest/api/controllers/ScoreController.py:48 | `max` returns an element of the list that no element exceeds. |
| ScoreController.ComparedNames | geosuggest/api/controllers/ScoreController.py:42-45 | The compared names are the name, the ASCII name and every alternate name. A missing name or ASCII name raises. |
| ScoreController.NameScore | geosuggest/api/controllers/ScoreController.py:40-48 | The name score exists exactly when both compared names are present. |
| ScoreController.BestRatio | geosuggest/api/controllers/ScoreController.py:48 | The best ratio is the ratio of one of the names. No name has a higher ratio, and it lies in [0, 1]. |
| ScoreController.NameScoreIsBestRatio | geosuggest/api/controllers/ScoreController.py:40-48 | The name score is 0.6 times the ratio of one compared name, at least 0.6 times every name's ratio, and within [0, 0.6]. |
| ScoreController.ExactNameGetsFullWeight | geosuggest/api/controllers/ScoreController.py:40-48 | A candidate named exactly as the query gets the full 0.6. |
| ScoreController.ProximityScore | geosuggest/api/controllers/ScoreController.py:53-63 | The proximity score exists exactly when geopy measures the distance, and it is then `Proximity` of that distance: weight minus weight times distance over 6430, floored at 0. |
| ScoreController.ProximityBounds | geosuggest/api/controllers/ScoreController.py:61-63 | For a distance of at least 0, the proximity part lies in [0, weight], and is the full weight at distance 0. |
| ScoreController.ProximityNonIncreasing | geosuggest/api/controllers/ScoreController.py:61-63 | The farther the candidate, the lower its proximity part. |
| ScoreController.FarCandidateGetsNoProximity | geosuggest/api/controllers/ScoreController.py:54-63 | From 6430 km on, the proximity part is clamped to 0. |
| ScoreController.CandidateScore | geosuggest/api/controllers/ScoreController.py:23-31 | A candidate can only be scored when it has a name and an ASCII name. |
| ScoreController.CandidateScoreFails | geosuggest/api/controllers/ScoreController.py:23-31 | Scoring fails exactly when a compared name is missing, or when a distance is needed that geopy cannot measure. |
| ScoreController.ScoreInUnitInterval | geosuggest/api/controllers/ScoreController.py:15-31 | Every score lies in [0, 1], because the weights 0.6 and 0.4 sum to 1. |
| ScoreController.ExactCoordinatesScoreOne | geosuggest/api/controllers/ScoreController.py:25-27 | With coordinates in use, a candidate exactly at them scores 1 whatever its name. |
| ScoreController.CoordinatesAddProximity | geosuggest/api/controllers/ScoreController.py:25-29 | With coordinates, a candidate not exactly at them scores its name score plus `Proximity` of the distance geopy measures. |
| ScoreController.ProximityBelowWeight | geosuggest/api/controllers/ScoreController.py:61-63 | At a positive distance the proximity part is strictly below its weight. |
| ScoreController.DistantCandidateBelowOne | geosuggest/api/controllers/ScoreController.py:23-29 | With coordinates, a candidate at a positive distance from them has an unrounded score below 1, even with an exact name. |
| ScoreController.PartialNameBelowOne | geosuggest/api/controllers/ScoreController.py:30-31 | Without coordinates, a candidate whose every compared name has a ratio below 1 has an unrounded score below 1. |
| ScoreController.NoCoordinatesAddsProximityWeight | geosuggest/api/controllers/ScoreController.py:30-31 | Without coordinates, every candidate scores its name score plus 0.4, and fails only when its name score does. |
| ScoreController.ExactNameScoresOneWithoutCoordinates | geosuggest/api/controllers/ScoreController.py:30-31 | Without coordinates, a candidate named exactly as the query scores 1. |
| ScoreController.ZeroCoordinatesCountAsNone | geosuggest/api/controllers/ScoreController.py:12 | `latitude or longitude` is falsy for (0, 0), so such a query scores exactly like one without coordinates: name score plus 0.4. |
| ScoreController.AsDict | geosuggest/api/controllers/ScoreController.py:34 | The suggestion dict is the candidate's simple dict plus a `score` entry holding the score. |
| ScoreController.Suggest | geosuggest/api/controllers/ScoreController.py:24-34 | A suggestion exists exactly when the candidate can be scored. Its score is the rounded candidate score, and its entries are the candidate's `to_dict(simple=True)`, whose name shows `matched_on`. The dict evaluate appends has those keys plus `score`, holding the rounded score. |
| ScoreController.CollectPointwise | geosuggest/api/controllers/ScoreController.py:23-36 | Collecting succeeds exactly when every step does, and keeps one value per step, in order. |
| ScoreController.CollectStopsAtFirstFailure | geosuggest/api/controllers/ScoreController.py:23-34 | The first failing candidate's error is the result of the whole loop. |
| ScoreController.SuggestionsPointwise | geosuggest/api/controllers/ScoreController.py:20-36 | When every candidate can be scored, there is one suggestion per candidate, in candidate order. |
| ScoreController.SuggestionsLength | geosuggest/api/controllers/ScoreController.py:20-36 | A successful evaluation has exactly as many suggestions as candidates. |
| ScoreController.SuggestionScoresInUnitInterval | geosuggest/api/controllers/ScoreController.py:15-34 | Every returned score lies in [0, 1], given rounding that keeps [0, 1]. |
| ScoreController.Evaluate | geosuggest/api/controllers/ScoreController.py:7-36 | The loop's result equals `Suggestions`: one suggestion per candidate in order, or the first candidate's failure. An empty list gives an empty list. |
| ScoreController.ScoreCandidate | geosuggest/api/controllers/ScoreController.py:24-34 | One loop iteration gives exactly `Suggest` of the candidate. |
| SuggestionController.SortedIsOrdered | geosuggest/api/controllers/SuggestionController.py:8-9 | In the sorted list, every suggestion scores at least as much as every later one. |
| SuggestionController.Insert | geosuggest/api/controllers/SuggestionController.py:8-9 | Inserting keeps the list sorted and adds exactly the new suggestion. |
| SuggestionController.SortByScore | geosuggest/api/controllers/SuggestionController.py:8-9 | The result is sorted from the highest score down and is a permutation of the input. |
| SuggestionController.InsertKeepsTies | geosuggest/api/controllers/SuggestionController.py:8-9 | An inserted suggestion goes after every suggestion of equal score. |
| SuggestionController.SortIsStable | geosuggest/api/controllers/SuggestionController.py:8-9 | Suggestions of equal score keep their relative order. |
| SuggestionController.SortKeepsTies | geosuggest/api/controllers/SuggestionController.py:8-9 | For every score, the suggestions with that score keep their relative order. |
| SuggestionController.GetSuggestions | geosuggest/api/controllers/SuggestionController.py:5-10 | An InvalidQuery or other failure of the lookup propagates unchanged. Otherwise the result is the evaluated suggestions of the found records, sorted from the highest score down. It is a permutation of them, as long as the lookup's result, and keeps the order among equal scores. |

## Left out

- File handling in `GeoDB.__init__` is not modelled: the existence check, `open` and `csv.DictReader`. The rows arrive as a sequence of column-to-text maps.
  - A short TSV line, which `DictReader` pads with None values, is therefore not representable.
- The `row['id']` read in the load loop's `except` branch is not modelled. A failing row without an `id` column would raise KeyError there and abort the load; the model skips the row.
- The `print` diagnostics are not modelled: in `fips_to_iso` and the load loop.
- Error text is simplified. The text of `data_or_none`'s re-raised exception becomes `ConversionError(field, type, text)`, without the original `str(e)`.
- The exception types and messages of uncaught errors are short descriptive strings in `Unhandled`.
- int, float and `strptime` parsing are parameters, because their grammar is the library's. Floats are modelled as reals.
- Python `re` semantics are not modelled. The cleaned query is treated as a literal, anchored prefix.
  - Characters that survive cleaning and are regex syntax (`( + ? ^ $ |`) are not interpreted.
  - Whether `re.compile` accepts the query is the parameter `compiles`.
  - Case-insensitivity covers ASCII letters only, not Unicode case folding.
- Records.Capitalize: upper-cases and lower-cases ASCII letters only. `str.capitalize` also handles non-ASCII letters and title case.
- Records.GeoRecord.BasicDict: its contract fixes the start of the display name, `"<Name>, "`. The `admin1, country` tail is only in its body.
- Records.GeoRecord.ToDict: requires a name to show. `to_dict` raises AttributeError when both matched_on and name are None. No caller in the core reaches that case: a record without a name makes `find_by_name` raise first.
- Fields.CellList: its own contract does not state the list's contents. ConvertAll and StrCellListJoinsBack state them.
- GeoDb.Loaded: its own contract states only the length. LoadedMembership, LoadedAppend, FailingRowIsSkipped and GoodRowIsKept state which places are kept and in what order.
- Search.Search: its own contract states only that hits are positions of the index. The lemmas about `Expected` state what the hits are, and `SearchRejectsExactly` states when it fails, with InvalidQuery or with the TypeError of a missing name.
- GeoDb.MatchRecords: on a failure it does not state which records were stamped before the raise. It states only that every record keeps a valid matched_on (`LabelsOk`).
- ScoreController.NameScoreIsBestRatio: stated for the weight 0.6 that `evaluate` passes, not for an arbitrary weight.
- DistantCandidateBelowOne: states the unrounded score. The tests compare the rounded score, and `'%.2f'` rounds scores just above 0.995 (0.996, for example) to 1.00, so "below 1" after rounding does not hold for every input.
- PartialNameBelowOne: states the unrounded score, for the same reason.
- The three library calls of the score controller are parameters: `SequenceMatcher.ratio`, geopy's geodesic distance, and the `'%.2f'` rounding.
  - Their properties appear as preconditions where needed: a ratio in [0, 1] with ratio(s, s) = 1, a non-negative distance, and rounding that keeps [0, 1] and 1.0.
  - Floating-point error in the weighted sum is not modelled.
- The module-level `db` instance is not modelled. `get_suggestions` takes the index as a parameter.
- `InvalidQuery` is a value, not a class: its fields are set once by its constructor and never change.
- The Flask application, blueprints, request parsing and configuration are outside this model.
