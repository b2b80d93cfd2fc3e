# pypinindia query engine in Dafny

This project models the core of pypinindia, a library for looking up Indian
postal codes (six-digit PIN codes). The model covers two parts:

- The `PincodeData` class in `pinin/core.py`. It loads a CSV table of post
  offices once, then answers read-only queries over it:
  - validating a pincode;
  - looking up the rows, state, district, taluk and office names of a pincode;
  - case-insensitive searches by state, district and office name;
  - sorted listings of states and districts;
  - distinct-value statistics.
- The error family in `pinin/exceptions.py`: `InvalidPincodeError`,
  `DataNotFoundError` and `DataLoadError`, and the messages they compose.

The project has these modules:

| file | module | models |
|---|---|---|
| `strings.dfy` | `Strings` | The parts of Python `str` the engine relies on: `strip()` with the full `isspace` set, `upper()`, `str(int)`, the `in` substring test, and the code-point order that `sorted` applies. |
| `collections.dfy` | `Optional`, `Collections` | Option values and the truthiness of optional text arguments; boolean-mask row selection; distinct values; `sorted(unique(...))`. |
| `exceptions.dfy` | `Exceptions` | The `PininError` family as one sum type, and a `Result` type for calls that may raise. |
| `queries.dfy` | `Queries` | Every query method as a pure function of the loaded table (`seq<Record>`). |
| `loader.dfy` | `Loader` | `_load_data`. The file system and `pandas.read_csv` are an oracle: whether the file exists, and what reading it under each encoding yields. The encoding loop is an imperative method. |
| `core.dfy` | `Core` | The `PincodeData` class. Its `data` and `dataFile` fields are set by the constructor and by `LoadData`; its query functions read `data`. `Open` is `PincodeData(data_file)`. |
| `scenarios.dfy` | `Scenarios` | Concrete answers on a three-row table. |

Every query function in `Queries` carries the property the library
promises. The class members in `Core` tie each method to that function and
add the "Data not loaded" guard. Errors are values: a call that raises in
Python returns `Failure(error)` here.

## Model

| member | source | states |
|---|---|---|
| Strings.Strip | pinin/core.py:97 | `str.strip()`: the result is the slice of the input between its leading and trailing whitespace runs. Everything removed is whitespace, and a non-empty result neither starts nor ends with whitespace. |
| Strings.StripPadded | pinin/core.py:97 | `strip()` removes exactly the surrounding whitespace: a text with non-space ends, padded by any whitespace, strips back to itself. |
| Strings.Upper | pinin/core.py:240 | `str.upper()` keeps the length and maps each character through ASCII upper-casing. |
| Strings.UpperIdempotent | pinin/core.py:240 | Upper-casing twice is upper-casing once. |
| Strings.ContainsIff | pinin/core.py:286 | The substring scan succeeds exactly when some position of the text starts with the query. |
| Strings.ContainsEmpty | pinin/core.py:286 | The empty query is contained in every text. |
| Strings.NatToDecimal | pinin/core.py:97 | `str(n)` for `n >= 0` is a non-empty string of decimal digits. |
| Strings.IntToDecimal | pinin/core.py:97 | `str(n)` starts with a minus sign exactly when `n < 0`, and is the plain decimal form otherwise. |
| Strings.DecimalRoundTrip | pinin/core.py:97 | `int(str(n)) == n` for `n >= 0`. |
| Strings.DecimalLength | pinin/core.py:97-100 | `str(n)` has at most `k` digits exactly when `n < 10^k`. |
| Strings.SixDigitDecimals | pinin/core.py:97-100 | `str(n)` has six digits exactly when `100000 <= n <= 999999`. |
| Strings.LessIrreflexive | pinin/core.py:243 | The string order `sorted` uses is irreflexive. |
| Strings.LessTransitive | pinin/core.py:243 | The string order is transitive. |
| Strings.LessTotal | pinin/core.py:243 | Of two different strings, one is less than the other. |
| Collections.Filter | pinin/core.py:109 | Mask selection keeps each element that satisfies the mask, as often as it occurs, and drops the rest. The result is an order-preserving subsequence and is never longer than the input. |
| Collections.FilterSameMask | pinin/core.py:239-241 | Two masks that agree on every row select the same rows. |
| Collections.FilterFirst | pinin/core.py:118 | The first selected row is the first row of the table that satisfies the mask. |
| Collections.DistinctAtMostLength | pinin/core.py:334-340 | A column never has more distinct values than rows. |
| Collections.StrictlySortedDistinct | pinin/core.py:243 | A strictly increasing list repeats nothing, so its length is its number of distinct values. |
| Collections.Insert | pinin/core.py:243 | Inserting into a strictly increasing list keeps it strictly increasing and adds exactly the inserted value. |
| Collections.SortedUnique | pinin/core.py:243 | `sorted(column.unique())` is strictly increasing, has the same values as the column, and has one entry per distinct value. |
| Exceptions.InvalidPincodeError | pinin/exceptions.py:16-24 | The error keeps the pincode. A non-empty custom message is used verbatim. Otherwise the message is the default text quoting the pincode. |
| Exceptions.DataNotFoundError | pinin/exceptions.py:30-38 | The same for the not-found error and its default text. |
| Exceptions.DataLoadError | pinin/exceptions.py:44-54 | The error keeps the file path and the original exception unchanged. Its message starts with `Failed to load pincode data: ` followed by the given message. |
| Exceptions.InvalidTextRoundTrip | pinin/exceptions.py:22 | The default invalid-pincode text and the pincode it quotes determine each other. |
| Exceptions.NotFoundTextRoundTrip | pinin/exceptions.py:36 | The default not-found text and the pincode it quotes determine each other. |
| Exceptions.EmptyMessageIsDefault | pinin/exceptions.py:19-22 | An empty custom message gives the default text, for both pincode errors. |
| Exceptions.LoadMessageBare | pinin/exceptions.py:48-52 | The load message is exactly prefix plus message if and only if no non-empty path and no original exception are given. |
| Exceptions.LoadFileClauseIff | pinin/exceptions.py:49-50 | The file clause follows the message if and only if a non-empty file path is given. |
| Exceptions.LoadClauseOrder | pinin/exceptions.py:49-52 | The file clause sits right after the message. The original-exception line is present if and only if an exception is given, and it ends the message, after the file clause. |
| Exceptions.LoadEmptyPathIsNone | pinin/exceptions.py:49 | An empty file path is treated as no path. |
| Queries.Column | pinin/core.py:117 | A column has one entry per row, and the entry is that row's field. |
| Queries.ValidatePincode | pinin/core.py:97-103 | Validation succeeds with the stripped text only when that text is six ASCII digits. Otherwise it fails with the invalid-pincode error for the stripped text, whose message is the default `Invalid pincode: '<text>'. Pincode must be a 6-digit number.` |
| Queries.ValidateAcceptsPadded | pinin/core.py:97-103 | Six digits with any whitespace around them validate to the digits alone. |
| Queries.ValidateOnlyPadded | pinin/core.py:97-103 | Conversely, a validated text is six digits with nothing but whitespace before and after them. |
| Queries.ValidateNumber | pinin/core.py:97-103 | An integer validates if and only if it lies in 100000..999999. The result is its decimal form, which reads back as the integer. |
| Queries.StripDecimal | pinin/core.py:97 | `str(n)` has no surrounding whitespace. |
| Queries.ValidateIdempotent | pinin/core.py:97-103 | Validating a validated pincode gives it back unchanged. |
| Queries.MatchingRows | pinin/core.py:105-109 | The matching rows are exactly the rows with that pincode, with their multiplicities, in table order. They are empty if and only if no row has the pincode. |
| Queries.PincodeInfo | pinin/core.py:135-147 | Validation comes first, so a malformed code is an invalid-pincode error. A well-formed code fails with not-found if and only if no row has it, and that error carries the default `No data found for pincode: '<code>'` message. Otherwise the result is the non-empty, order-preserving selection of exactly its rows. |
| Queries.FirstRowField | pinin/core.py:111-118 | A single-valued field comes from the first returned row, with the same errors as the row lookup. |
| Queries.FirstRowFieldIsFirstMatch | pinin/core.py:149-204 | `get_state`, `get_district` and `get_taluk` answer from the first table row that carries the pincode. |
| Queries.OfficeNames | pinin/core.py:206-221 | `get_offices` gives one office name per returned row, same order and length, duplicates kept, with the same errors. |
| Queries.SortedValues | pinin/core.py:243 | The sorted distinct values of a column are strictly increasing. They hold exactly the values some row has, one entry per distinct value. |
| Queries.InState | pinin/core.py:239-241 | The rows whose state equals the query ignoring case. |
| Queries.InDistrict | pinin/core.py:260-262 | The rows whose district equals the query ignoring case. |
| Queries.SearchByState | pinin/core.py:225-243 | `search_by_state` is strictly increasing and holds exactly the pincodes of rows whose state matches ignoring case. No match gives an empty list. |
| Queries.SearchByDistrict | pinin/core.py:245-269 | `search_by_district` is strictly increasing and holds exactly the pincodes of rows whose district matches, and whose state also matches when a non-empty state is given. |
| Queries.SearchByOffice | pinin/core.py:271-289 | `search_by_office` holds exactly the rows whose upper-cased office name contains the upper-cased query, with their multiplicities, as a subsequence of the table. |
| Queries.States | pinin/core.py:291-301 | `get_states` is strictly increasing and holds exactly the state names in the table. |
| Queries.Districts | pinin/core.py:303-322 | `get_districts` is strictly increasing and holds exactly the district names of the rows whose state matches, or of all rows when no non-empty state is given. |
| Queries.TableStatistics | pinin/core.py:324-340 | `total_records` is the row count, and each `unique_*` is the number of distinct values in its column. |
| Queries.StatisticsBounds | pinin/core.py:334-340 | Every distinct count is at most the row count. An empty table has all counts zero. |
| Queries.ListingsMatchStatistics | pinin/core.py:291-340 | The state and district listings have exactly as many entries as `unique_states` and `unique_districts`. On an empty table both are empty. |
| Queries.SearchByStateIgnoresCase | pinin/core.py:239-241 | Two spellings of a state that differ only in case give the same search result. |
| Queries.SearchByStateUpper | pinin/core.py:239-241 | The upper-cased spelling gives the same result. |
| Queries.StateFilterNarrowsSearch | pinin/core.py:263-267 | The district search with a state filter is a subset of the search without one. An absent or empty state is no filter. |
| Queries.StateFilterNarrowsDistricts | pinin/core.py:316-322 | The same for the district listing. |
| Queries.EmptyOfficeQueryMatchesAll | pinin/core.py:285-287 | The empty office query returns the whole table. |
| Loader.FirstDecodable | pinin/core.py:54-61 | The encoding loop's outcome is nothing if and only if every encoding fails to decode. Otherwise it is not a decoding failure. |
| Loader.FirstDecodableWins | pinin/core.py:54-58 | The first encoding that decodes decides the outcome, whatever the later ones would give. |
| Loader.ReadWithFallback | pinin/core.py:52-61 | The imperative `for`/`break`/`else` loop over `utf-8, latin-1, iso-8859-1, cp1252` ends with the first outcome that is not a decoding failure, or with nothing. |
| Loader.MissingColumns | pinin/core.py:64-69 | The missing columns are exactly the required columns absent from the header, in required order. |
| Loader.ColumnIndex | pinin/core.py:74 | A column is read from the first header position with its name. |
| Loader.RowRecord | pinin/core.py:64-74 | A CSV row becomes a record: each of its seven fields (`pincode`, `officename`, `statename`, `districtname`, `taluk`, `officetype`, and `deliverystatus` from the `Deliverystatus` column) is the row's cell in the header position of that required column. |
| Loader.ListRepr | pinin/core.py:71 | The printed list of missing columns is bracketed, and between the brackets stand the quoted items. |
| Loader.QuotedItems | pinin/core.py:71 | The quoted items are empty exactly for the empty list, and otherwise begin with the first item in single quotes. |
| Loader.QuotedItemsAppend | pinin/core.py:71 | The quoted items of two joined lists are each list's quoted items, in order, separated by one `, `, so every missing column appears quoted in required order. |
| Loader.ListReprOfTwo | pinin/core.py:71 | A two-item list prints as `['x', 'y']`. |
| Loader.FrameTable | pinin/core.py:74 | The table has one record per CSV row, in file order. |
| Loader.TryLoad | pinin/core.py:47-74 | Every error the `try` body raises itself is a load error without a file path. |
| Loader.ReaderFailure | pinin/core.py:76-81 | The reader's own exceptions become load errors that carry the file path. |
| Loader.LoadAsWritten | pinin/core.py:45-81 | `_load_data` as written only ever fails with a load error. |
| Loader.Load | pinin/core.py:45-81 | `_load_data` with its own errors kept intact also only ever fails with a load error. |
| Loader.MissingFileAsWritten | pinin/core.py:48-49 | As written, a missing file gives a message with the load prefix twice and the file clause at the end. |
| Loader.MissingFileFails | pinin/core.py:48-49 | A missing file fails with exactly `Failed to load pincode data: Data file not found: <path>`. |
| Loader.UnexpectedWrap | pinin/core.py:80-81 | Re-wrapping a load error as unexpected puts its message behind a second load prefix and attaches the path, so the result never equals the original error. |
| Loader.RaisedErrorsKeptIntact | pinin/core.py:76-81 | For every error raised inside the `try`, the corrected load returns it unchanged. As written it comes back re-wrapped behind `Unexpected error loading data: `, so the two always differ. |
| Loader.NoEncodingDecodes | pinin/core.py:60-61 | When no encoding decodes, the load fails with the decoding error. |
| Loader.LaterEncodingsIgnored | pinin/core.py:54-58 | Two present files that read alike under every encoding up to the first that decodes load alike, as written and as intended: the encodings after the `break` are never consulted. |
| Loader.LoadsFrame | pinin/core.py:64-74 | A frame with every required column loads as one record per row. |
| Loader.RejectsMissingColumns | pinin/core.py:69-71 | A frame lacking required columns fails, and the message lists exactly the missing ones in required order. |
| Loader.ReaderErrorCarriesPath | pinin/core.py:76-81 | A reader exception fails with the file path attached. |
| Loader.LoadSuccessShape | pinin/core.py:47-74 | A load succeeds only on a present file whose first decodable reading has every required column, and then it yields one record per row. |
| Core.NotLoaded | pinin/core.py:107-108 | The not-loaded error is a load error with message `Failed to load pincode data: Data not loaded`. |
| Core.PincodeData.constructor | pinin/core.py:36-37 | The object starts with no table. The path is the given one, or the bundled default when it is missing or empty. |
| Core.PincodeData.LoadData | pinin/core.py:45-81 | The imperative load stores the table exactly when `Load` succeeds and returns its error otherwise. The path is unchanged, and a failed load stores nothing. |
| Core.Open | pinin/core.py:25-38 | The constructor either returns a fresh object holding the loaded table, or fails with the load error. Every failure is a load error. |
| Core.PincodeData.GetPincodeInfo | pinin/core.py:120-147 | With no table, the not-loaded error comes before validation. Otherwise the result is `Queries.PincodeInfo` of the table. |
| Core.PincodeData.GetMatchingRows | pinin/core.py:105-109 | Not-loaded guard, then `Queries.MatchingRows`. |
| Core.PincodeData.GetState | pinin/core.py:149-166 | Not-loaded guard, then the first row's state. |
| Core.PincodeData.GetDistrict | pinin/core.py:168-185 | Not-loaded guard, then the first row's district. |
| Core.PincodeData.GetTaluk | pinin/core.py:187-204 | Not-loaded guard, then the first row's taluk. |
| Core.PincodeData.GetOffices | pinin/core.py:206-223 | Not-loaded guard, then every returned row's office name. |
| Core.PincodeData.SearchByState | pinin/core.py:225-243 | Not-loaded guard, then `Queries.SearchByState`. |
| Core.PincodeData.SearchByDistrict | pinin/core.py:245-269 | Not-loaded guard, then `Queries.SearchByDistrict`. |
| Core.PincodeData.SearchByOffice | pinin/core.py:271-289 | Not-loaded guard, then `Queries.SearchByOffice`. |
| Core.PincodeData.GetStates | pinin/core.py:291-301 | Not-loaded guard, then `Queries.States`. |
| Core.PincodeData.GetDistricts | pinin/core.py:303-322 | Not-loaded guard, then `Queries.Districts`. |
| Core.PincodeData.GetStatistics | pinin/core.py:324-340 | Not-loaded guard, then `Queries.TableStatistics`. |
| Core.LoadedAnswers | pinin/core.py:134-147 | A loaded object never raises the not-loaded error. Its lookups fail only with invalid-pincode or not-found, and its searches, listings and statistics always answer. |
| Scenarios.DelhiRows | pinin/core.py:105-109 | The two offices sharing 110001 are its matching rows, in table order. |
| Scenarios.LookupNumber | pinin/core.py:97-147 | The integer 110001 finds both Delhi rows. |
| Scenarios.LookupState | pinin/core.py:149-164 | The state of 110001 is `DELHI`. |
| Scenarios.LookupOffices | pinin/core.py:206-221 | The offices of 110001 are both office names, in table order. |
| Scenarios.UnknownCodeNotFound | pinin/core.py:142-144 | A well-formed code absent from the table gives the not-found error with its default text. |
| Scenarios.RejectsFiveDigits | pinin/core.py:100-101 | `12345` is rejected. |
| Scenarios.RejectsSevenDigits | pinin/core.py:100-101 | `1234567` is rejected. |
| Scenarios.RejectsLetter | pinin/core.py:100-101 | `11000A` is rejected. |
| Scenarios.RejectsEmpty | pinin/core.py:100-101 | The empty text is rejected. |
| Scenarios.RejectsLostZero | pinin/core.py:97-101 | The integer 12345, e.g. 012345 with its leading zero lost, is rejected. |
| Scenarios.RejectsNegative | pinin/core.py:97-101 | A negative integer is rejected. |
| Scenarios.DelhiStateRows | pinin/core.py:239-241 | The lower-case state `delhi` selects both Delhi rows. |
| Scenarios.StateSearchDelhi | pinin/core.py:225-243 | Searching `delhi` gives `["110001"]`, once. |
| Scenarios.StateSearchUnknown | pinin/core.py:243 | An unknown state gives `[]`. |
| Scenarios.MissingTalukColumns | pinin/core.py:64-69 | A header without `taluk` and `Deliverystatus` reports exactly those two, in that order. |
| Scenarios.MissingTalukMessage | pinin/core.py:69-71 | For that header the error message lists the missing columns as `['taluk', 'Deliverystatus']`. |
| Scenarios.TalukDeliveryRepr | pinin/core.py:71 | The list `taluk`, `Deliverystatus` prints as `['taluk', 'Deliverystatus']`. |
| Scenarios.MissingFileWrittenMessage | pinin/core.py:48-81 | As written, a missing file `p` gives the doubly prefixed message ending in ` from file: 'p'`. |

## Left out

- File system, CSV parsing and byte decoding (`os.path.exists`, `pandas.read_csv`): these are foreign code. They are an oracle (`Loader.DataSource`): a presence flag and the outcome of reading under each encoding. That latin-1 in fact decodes every byte sequence is therefore not modelled.
- `_get_default_data_file` (pinin/core.py:40-43): path joining is I/O; the default path is a parameter of the constructor.
- `astype(str)` on the pincode column (pinin/core.py:74), NaN cells, `na=False` and `nunique` skipping NaN: every cell is already a string. Pincodes that pandas read as integers and lost their leading zero, and empty cells, are not modelled.
- Columns beyond the seven required ones are dropped from `Record`; the dictionaries `to_dict('records')` returns would also carry them.
- Strings.Upper: ASCII upper-casing only. Python's `str.upper()` is full Unicode (`ß` becomes `SS`, changing the length).
- Queries.ValidatePincode: `\d` is ASCII digits only. Python's `re` also matches other Unicode decimal digits.
- Queries.SearchByOffice: the query is a literal substring. pandas `str.contains` reads it as a regular expression, so queries containing regex metacharacters behave differently.
- The `except IndexError` branches in `get_state`, `get_district`, `get_taluk` and `get_offices` (pinin/core.py:165-166, 184-185, 203-204, 222-223): they cannot run, because a successful lookup is never empty.
- Core.PincodeData.LoadData: when the column check fails, Python has already assigned the parsed frame to `self.data` (pinin/core.py:56). The model leaves `data` unchanged on failure. No caller can observe the difference, since the constructor then raises and no object is handed out.
- Core.PincodeData.LoadData: follows the corrected `_load_data` (see Findings), so its error is the one raised inside the `try`; the as-written re-wrapped message is `Loader.LoadAsWritten`.
- Core.Open: follows the corrected `_load_data` (see Findings), so its failures carry the corrected load's error; the as-written message is `Loader.LoadAsWritten`.
- Queries.ValidateNumber: integers are unbounded here. Python 3.11 and later refuse `str(n)` for an integer of more than 4300 digits, so `_validate_pincode` (pinin/core.py:97) raises `ValueError` for such an integer, while the model rejects it with an invalid-pincode error.
- The `lru_cache` singleton and the module-level convenience functions (pinin/core.py:343-462): hidden global state plus one-line delegation to the class methods modelled here.
- `pinin/cli.py`, `pinin/main.py` and `pinin/util.py`: argument parsing, printing and exit codes, and deprecated wrappers that turn every error into `'Not Found'`. They are not part of this model.

## Findings

| source | as written | input that shows it | evidently intended | confidence | as-written member | corrected member |
|---|---|---|---|---|---|---|
| pinin/core.py:47-81 | The `DataLoadError`s raised inside the `try` (file not found, no decodable encoding, missing columns) are caught by the trailing `except Exception` and wrapped again as `Unexpected error loading data: …` with the file path appended. | A missing file `p` gives `Failed to load pincode data: Unexpected error loading data: Failed to load pincode data: Data file not found: p from file: 'p'`. | The error raised inside the `try` reaches the caller unchanged: `Failed to load pincode data: Data file not found: p`. | not executed | Loader.LoadAsWritten (shown by Loader.MissingFileAsWritten, Loader.RaisedErrorsKeptIntact, Scenarios.MissingFileWrittenMessage) | Loader.Load (proved by Loader.MissingFileFails, Loader.NoEncodingDecodes, Loader.RejectsMissingColumns) |
