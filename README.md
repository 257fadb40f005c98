# Weather ETL: the Transform stage in Dafny

This project models the Transform stage of a small weather ETL pipeline, `etl/Transform.py`. The stage has two parts.

`load_data` scans the raw directory. It skips every name that does not end in `.json` and decodes the rest. Each OpenWeatherMap snapshot becomes one flat row with the columns `ville, pays, temp, temp_min, temp_max, humidite, description, vitesse_vent`. A snapshot that lacks a key is logged and skipped.

`transform_data` cleans that table in four steps:
- it drops exact duplicates, keeping the first occurrence;
- it drops rows whose `temp` or `humidite` is missing;
- it coerces the five numeric columns with `pd.to_numeric(..., errors="coerce")`;
- it stamps every row with one `scrape_date` written as `%Y-%m-%d %H:%M:%S`.

The modules follow the program's structure:

- `JsonDoc` (json_doc.dfy): the decoded document, and Python's subscript `v[k]` with its three exceptions (KeyError, IndexError, TypeError).
- `Rows` (rows.dfy): pandas cells, rows, the column-less frame that `pd.DataFrame([])` builds, and the columns.
- `LoadRaw` (load_raw.dfy): `load_data`.
  - The directory listing is a parameter, in listing order. Each entry holds what `json.load` makes of the file.
  - The row dictionary is a fold over eight key chains, evaluated left to right as Python does.
  - `LoadData` is the loop itself. It is proved against `ScanDir`, a fold over the listing's steps.
  - The lemmas state what `ScanDir` does for each kind of entry.
- `Clean` (clean.dfy): `transform_data`.
  - The chain is a composition of sequence functions: `Dedup`, `FilterNonNull`, `MapCoerce` and `Stamp`.
  - `TransformData` is the same chain written step by step, with the loop over the numeric columns. It is proved equal to the function.
- `Timestamps` (timestamps.dfy): the stamp format and the parse that reads it back.
- `Pipeline` (pipeline.dfy): `load_data` followed by `transform_data`, as the module's own entry point runs them.
- `Scenarios` (scenarios.dfy): complete and incomplete snapshots, the Paris example, and a mixed listing, end to end.

Outside influences are parameters:
- the directory listing, with each file's decoded content;
- the clock reading;
- the string-to-number parser inside `pd.to_numeric`.

The error log is an output sequence of `MissingKey(file, key)` lines.

Where the pipeline's documented behaviour and the code disagree, the model follows the code. An empty scan does not give an empty stamped table. `pd.DataFrame([])` has no columns, so `dropna(subset=["temp", "humidite"])` raises KeyError, which `transform_data` logs and re-raises (`Clean.TransformFailures`).

The order of the steps has consequences that the model keeps:
- Duplicates are removed before coercion, so two rows can become equal after it and both reach the output (`Clean.CoercionCanRecreateDuplicates`).
- The null-drop runs before coercion, so a temperature string the parser cannot read passes the drop and comes out missing (`Clean.UnreadableTempSurvivesAsNull`).
- Re-running the transform on its own output removes no row and changes only the stamp (`Clean.TransformTwice`). This needs two conditions:
  - The stamp column is uniform. This holds for every table `load_data` and `transform_data` build: the first has no stamp at all, and the second stamps every row alike.
  - The numeric columns already hold only numbers or missing values. This holds only when every snapshot has a number or null at the five numeric key chains. `load_data` copies a string such as `"temp": "290"` into the table as it is (`Scenarios.TextTemperatureReachesTable`).
- Without the numeric condition, a second run can drop a row (`Clean.SecondRunCanDropRow`, after `Clean.UnreadableTempSurvivesAsNull`) or merge two rows (`Clean.CoercionCanRecreateDuplicates`).

## Model

| member | source | states |
|---|---|---|
| JsonDoc.Subscript | etl/Transform.py:24-31 | `v[k]` succeeds exactly when the key is in the dict, or the index is in range of the list or string; it is then the dict's value, the list's item or the one-character string; it raises KeyError exactly on a dict without the key, naming that key, IndexError exactly past the end of a list or string, and TypeError on anything else |
| JsonDoc.GetPath | etl/Transform.py:24-31 | definition: a key chain such as `data["main"]["temp"]`, subscript after subscript, the first exception ending it; its step law is `JsonDoc.GetPathStep`, its meaning over the eight chains `LoadRaw.ProjectByPaths` |
| JsonDoc.GetPathStep | etl/Transform.py:24-31 | a subscript chain such as `data["main"]["temp"]` is its first subscript followed by the rest, the first exception ending it |
| Rows.Get | etl/Transform.py:57 | definition: `df[col]` on one row, the cell of the named column; `Rows.Set` states how it reads back an overwrite |
| Rows.Set | etl/Transform.py:57 | overwriting one column of a row sets that column and leaves every other column as it was |
| Rows.ToCell | etl/Transform.py:23-32 | a JSON null, and only a null, becomes a missing cell; a number and a string keep their values; a dict or a list, and only those, becomes an object cell that holds the document itself |
| Rows.Hashable | etl/Transform.py:48 | definition: the condition under which `drop_duplicates` can hash a row; `Rows.HashableIff` states it column by column, and `Clean.TransformFailures` makes its failure the TypeError |
| Rows.HashableIff | etl/Transform.py:48 | a row can be hashed by `drop_duplicates` exactly when none of its columns holds a dict or a list |
| LoadRaw.EndsWith | etl/Transform.py:16 | definition: `file.endswith(".json")`, the name's last characters are the suffix; `LoadRaw.ScanSkipsForeign` states what a name without it does |
| LoadRaw.Paths | etl/Transform.py:24-31 | definition: the eight key chains of the row dictionary, in column order; `LoadRaw.ProjectByPaths` ties column i to chain i |
| LoadRaw.Project | etl/Transform.py:23-32 | definition: the row dictionary of one snapshot, its eight columns in order and no stamp; its meaning is `LoadRaw.ProjectByPaths`, `LoadRaw.EmptyWeatherIsFatal` and `Scenarios.ProjectSnapshot` |
| LoadRaw.ReadFields | etl/Transform.py:23-32 | building the row dictionary, when it succeeds, yields one cell per key chain |
| LoadRaw.ProjectByPaths | etl/Transform.py:23-32 | the row dictionary is built exactly when all eight key chains can be read; column i is then the cell of chain i (`name`, `sys.country`, `main.temp`, `main.temp_min`, `main.temp_max`, `main.humidity`, `weather[0].description`, `wind.speed`); on failure the exception is that of the first unreadable chain |
| LoadRaw.ReadFieldsByPaths | etl/Transform.py:23-32 | left-to-right evaluation of any list of key chains succeeds exactly when each chain can be read, gives their cells in order, and fails with the first chain's exception |
| LoadRaw.EmptyWeatherIsFatal | etl/Transform.py:30-33 | an empty `weather` list raises IndexError at `weather[0]`, which the `except KeyError` does not catch, so the entry aborts the scan |
| LoadRaw.Visit | etl/Transform.py:15-34 | definition: what one loop iteration does with one entry (skip it, emit a row, log a missing key, or let an exception escape); its cases are `LoadRaw.ScanSkipsForeign`, `LoadRaw.ScanAppendsRow`, `LoadRaw.ScanLogsMissingKey` and `LoadRaw.EmptyWeatherIsFatal` |
| LoadRaw.Steps | etl/Transform.py:15 | definition: the listing's steps, one per entry, in listing order; its properties are `LoadRaw.StepsAppend` and `LoadRaw.ScanCollects` |
| LoadRaw.Advance | etl/Transform.py:15-34 | definition: the state of the loop (rows, log, escaped exception) after one more step; its properties are `LoadRaw.RunPrefix` and `LoadRaw.RunAbortIsFinal` |
| LoadRaw.Run | etl/Transform.py:13-34 | definition: the loop from `rows = []` over a sequence of steps; its properties are `LoadRaw.RunCollects`, `LoadRaw.RunNoFailureIff` and `LoadRaw.AbortEndsRun` |
| LoadRaw.ScanDir | etl/Transform.py:13-34 | definition: the loop over a whole listing; its properties are `LoadRaw.ScanCollects` and `LoadRaw.ScanFailsAtFirstAbort`, and `LoadRaw.LoadData` is proved against it |
| LoadRaw.TableOf | etl/Transform.py:36 | definition: `pd.DataFrame(rows)`, the column-less frame for no rows and otherwise the rows in order; what the transform makes of it is `Pipeline.EmptyScanFailsTransform` |
| LoadRaw.LoadData | etl/Transform.py:10-39 | the loop writes the log of the scan; it returns the table of the collected rows when no exception escapes, and otherwise the first exception that escaped |
| LoadRaw.RunPrefix | etl/Transform.py:15-34 | one more entry advances the scan by that entry's step |
| LoadRaw.RunAbortIsFinal | etl/Transform.py:19-34 | once an exception has escaped, later entries change nothing |
| LoadRaw.AbortEndsRun | etl/Transform.py:19-34 | the first entry that raises ends the scan with that exception, after the rows and the log of the entries before it |
| LoadRaw.EmittedAppend | etl/Transform.py:23 | the rows of a listing with one more entry are the earlier rows followed by that entry's row, if it has one |
| LoadRaw.RunCollects | etl/Transform.py:13-34 | a scan with no escaping exception holds exactly the rows and the error lines of its steps, in order |
| LoadRaw.RunNoFailureIff | etl/Transform.py:19-34 | a scan ends without an exception exactly when none of its steps raises one |
| LoadRaw.StepsAppend | etl/Transform.py:15 | the steps of a listing with one more entry are the earlier steps followed by that entry's step |
| LoadRaw.ScanSkipsForeign | etl/Transform.py:15-17 | a name without the `.json` extension contributes nothing, and the scan continues unchanged |
| LoadRaw.ScanAppendsRow | etl/Transform.py:23-32 | a snapshot whose row can be built appends exactly that row and logs nothing |
| LoadRaw.ScanLogsMissingKey | etl/Transform.py:33-34 | a snapshot missing a key appends no row and exactly one error line naming the file and the key |
| LoadRaw.ScanCollects | etl/Transform.py:13-36 | the scan ends without an exception exactly when no entry raises; its rows and log are then those of the entries, in listing order |
| LoadRaw.ScanFailsAtFirstAbort | etl/Transform.py:19-34 | when entry i is the first to raise, the call fails with that exception, after the rows and log of the entries before it |
| Clean.FirstIndex | etl/Transform.py:48 | the first position at which a row occurs |
| Clean.Dedup | etl/Transform.py:48 | definition: `drop_duplicates`, keeping the first occurrence; its properties are `Clean.DedupMembers`, `Clean.DedupUnique`, `Clean.DedupKeepsFirstOccurrences`, `Clean.DedupCountsOnce` and `Clean.DedupLength` |
| Clean.DedupMembers | etl/Transform.py:48 | the deduplicated table holds exactly the rows of the input |
| Clean.DedupUnique | etl/Transform.py:48 | after `drop_duplicates` no two rows are equal |
| Clean.DedupKeepsFirstOccurrences | etl/Transform.py:48 | the deduplicated table lists the first occurrences in input order: row i comes before row j exactly when its first occurrence comes first |
| Clean.DedupStepOrder | etl/Transform.py:48 | one more input row keeps the order of the first occurrences |
| Clean.CleanedHashable | etl/Transform.py:48-49 | deduplication and the drop of rows with missing readings keep every row hashable |
| Clean.DedupLength | etl/Transform.py:48 | deduplication never adds rows |
| Clean.DedupOfUnique | etl/Transform.py:48 | a table without duplicates is left as it is |
| Clean.UniqueCountsOnce | etl/Transform.py:48 | in a table without duplicates each of its rows occurs once |
| Clean.DedupCountsOnce | etl/Transform.py:48 | each input row occurs exactly once in the deduplicated table |
| Clean.HasReadings | etl/Transform.py:49 | definition: the keep test of `dropna(subset=["temp", "humidite"])`, both columns present; `Clean.FilterMembers` states that the drop keeps exactly such rows |
| Clean.FilterNonNull | etl/Transform.py:49 | definition: `dropna(subset=["temp", "humidite"])`, row by row; its properties are `Clean.FilterMembers`, `Clean.FilterAppend`, `Clean.FilterUnique` and `Clean.FilterOfComplete` |
| Clean.FilterMembers | etl/Transform.py:49 | after `dropna(subset=["temp", "humidite"])` a row is present exactly when it was present with both readings, and the table is no longer |
| Clean.FilterAppend | etl/Transform.py:49 | the null-drop works row by row: on two tables joined it is the two drops joined |
| Clean.FilterUnique | etl/Transform.py:49 | the null-drop creates no duplicates |
| Clean.FilterOfComplete | etl/Transform.py:49 | a table whose rows all have both readings is left as it is |
| Clean.CoerceCell | etl/Transform.py:57 | `pd.to_numeric(errors="coerce")` on one cell: numbers and missing values stay; a string becomes the number the parser reads, or missing; the result is always a number or missing |
| Clean.CoerceRow | etl/Transform.py:56-57 | definition: the five numeric columns of one row coerced; its properties are `Clean.CoercionMeaning`, `Clean.CoercionIdempotent` and `Clean.CoerceFirstAll` |
| Clean.MapCoerce | etl/Transform.py:56-57 | definition: the column loop over a whole table, row by row; its properties are `Clean.CoercionMeaning`, `Clean.CoercionIdempotent` and `Clean.CoercionOfNumeric` |
| Clean.CoerceColumn | etl/Transform.py:57 | definition: one iteration `df[col] = pd.to_numeric(df[col], errors="coerce")`; `Clean.TransformData` runs it five times and `Clean.CoerceFirstAll` shows the five make `Clean.CoerceRow` |
| Clean.CoercionMeaning | etl/Transform.py:51-57 | coercion keeps the row count and the non-numeric columns, keeps numbers and missing values, turns every string in the five numeric columns into its parse or a missing value, and leaves only numbers or missing values there |
| Clean.CoercionIdempotent | etl/Transform.py:56-57 | coercing twice is coercing once |
| Clean.CoercionOfNumeric | etl/Transform.py:56-57 | on a table already numeric, coercion changes nothing |
| Clean.CoerceFirst | etl/Transform.py:56-57 | a row after the first k iterations of the column loop stays hashable |
| Clean.CoerceFirstAll | etl/Transform.py:56-57 | the five iterations of the column loop coerce exactly the five numeric columns |
| Clean.Stamp | etl/Transform.py:58 | every row gets the one stamp of the call, the row count is kept, and every other column is left as it was |
| Clean.StampKeepsUnique | etl/Transform.py:48-58 | stamping a table whose stamp column is uniform merges no rows |
| Clean.Transform | etl/Transform.py:42-68 | definition: the whole cleaning chain with its two raised errors; its properties are `Clean.TransformFailures`, `Clean.TransformRows`, `Clean.TransformOfNumeric` and `Clean.TransformTwice`, and `Clean.TransformData` is proved equal to it |
| Clean.TransformData | etl/Transform.py:42-68 | the method, step by step, with the loop over the numeric columns, computes the cleaning chain, including both raised errors |
| Clean.TransformFailures | etl/Transform.py:43-68 | the call fails exactly on the column-less frame (KeyError at `dropna`) or on a table with a dict or list cell (TypeError at `drop_duplicates`); a frame with columns and no rows comes back empty |
| Clean.UniqueCard | etl/Transform.py:48 | a table without duplicates has as many rows as distinct rows |
| Clean.KeptRows | etl/Transform.py:48-49 | what reaches coercion is the distinct input rows that have both readings, each once |
| Clean.TransformRows | etl/Transform.py:46-59 | on success the output rows are the coerced, stamped images of the input rows with both readings, and nothing else; there is one row per distinct such input row, at most as many as the input rows; every row carries the call's stamp |
| Clean.KeptOfNumeric | etl/Transform.py:48-57 | on a numeric table with a uniform stamp column, the rows reaching the stamp are the first occurrences with both readings, unchanged by coercion |
| Clean.TransformOfNumeric | etl/Transform.py:48-58 | on a numeric table with a uniform stamp column, no output row lacks a reading, no two output rows are equal, and each input row with both readings comes out exactly once, re-stamped |
| Clean.TransformTwice | etl/Transform.py:48-58 | on a numeric table with a uniform stamp column, re-running the transform on its own output removes no rows and changes nothing but the stamp |
| Clean.SecondRunCanDropRow | etl/Transform.py:48-58 | a row whose temperature is text the parser cannot read survives the first run, and the second run drops it |
| Clean.StampKeepsClean | etl/Transform.py:58 | stamping keeps a table hashable, numeric and with both readings in every row |
| Clean.UnreadableTempSurvivesAsNull | etl/Transform.py:49-57 | a temperature string the parser cannot read passes the null-drop and comes out missing |
| Clean.CoercionCanRecreateDuplicates | etl/Transform.py:48-57 | two rows that differ only in writing the same temperature as a string and as a number both survive the drop and come out equal |
| Pipeline.EmptyScanFailsTransform | etl/Transform.py:36-49 | after a scan with no escaping exception, the transform fails at `dropna` for the missing columns exactly when the scan collected no row |
| Timestamps.Pad | etl/Transform.py:58 | a zero-padded field has exactly its width and only digits |
| Timestamps.PadValue | etl/Transform.py:58 | reading a zero-padded field back gives the number |
| Timestamps.Format | etl/Transform.py:58 | the `%Y-%m-%d %H:%M:%S` stamp has nineteen characters, with the separators at their places and digits elsewhere |
| Timestamps.ParseFormat | etl/Transform.py:58 | parsing the stamp back gives the clock reading it came from |
| Timestamps.FormatInjective | etl/Transform.py:58 | distinct clock readings give distinct stamps |
| Scenarios.SnapshotPlace | etl/Transform.py:24-25 | a snapshot's `name` and `sys.country` read as the values it was built with |
| Scenarios.SnapshotSky | etl/Transform.py:30-31 | a snapshot's `weather[0].description` and `wind.speed` read as the values it was built with |
| Scenarios.SnapshotFields | etl/Transform.py:24-31 | a snapshot's `name`, `sys.country`, `weather[0].description` and `wind.speed` read as the values it was built with |
| Scenarios.SnapshotMain | etl/Transform.py:26-29 | the four `main` chains read through to the `main` object |
| Scenarios.MainBlockReads | etl/Transform.py:26-29 | the `main` object gives its three temperatures, and its humidity, or the KeyError for it when absent |
| Scenarios.ProjectSnapshot | etl/Transform.py:23-32 | any complete snapshot becomes the row of its eight values in column order |
| Scenarios.TextMainBlockReads | etl/Transform.py:26-29 | a `main` object with a text temperature gives that text, its two bounds and its humidity |
| Scenarios.ProjectTextSnapshot | etl/Transform.py:23-32 | a snapshot whose temperature is text becomes the row of its eight values, the temperature as a string |
| Scenarios.TextTemperatureReachesTable | etl/Transform.py:23-32 | a text temperature reaches the table as a string, so the row is not numeric |
| Scenarios.ProjectWithoutHumidity | etl/Transform.py:29-33 | any snapshot whose `main` lacks `humidity` fails with the KeyError naming `humidity` |
| Scenarios.ParisProjects | etl/Transform.py:23-32 | the Paris snapshot (290.1 K, 65 % humidity, "clear sky", wind 3.5) becomes the expected Paris row |
| Scenarios.BerlinLacksHumidity | etl/Transform.py:29-33 | a Berlin snapshot without humidity raises KeyError for `humidity` |
| Scenarios.ParisRowIsClean | etl/Transform.py:46-57 | the Paris row is hashable, numeric and has both readings |
| Scenarios.KeepsSingleRow | etl/Transform.py:48-57 | a lone numeric row with both readings survives dedup, the null-drop and coercion unchanged |
| Scenarios.StampSingleRow | etl/Transform.py:58 | stamping a one-row table stamps that row |
| Scenarios.TransformSingleRow | etl/Transform.py:48-58 | a lone numeric row with both readings comes out alone, unchanged but for its stamp |
| Scenarios.ParisEndToEnd | etl/Transform.py:10-58 | the listing holding only `Paris.json` gives the one Paris row with an empty log, and the transform keeps exactly that row, stamped |
| Scenarios.MixedListingHead | etl/Transform.py:15-34 | in the mixed listing, `notes.txt` contributes nothing and `Berlin.json` one error line |
| Scenarios.MixedListingThree | etl/Transform.py:15-34 | after the first three entries of the mixed listing the scan holds one Paris row and the Berlin error line |
| Scenarios.MixedListingScan | etl/Transform.py:15-34 | the whole mixed listing gives two Paris rows and one error line, with no exception |
| Scenarios.MixedListingTransform | etl/Transform.py:48-58 | the two equal Paris rows come out of the transform as a single stamped row |

## Left out

- The other stages are not part of this model: `etl/Extract.py` (HTTP calls to the weather API, the API key lookup, raw file writes), `etl/Load.py` (database engine, `to_sql`, backups) and `main.py` (orchestration).
- Logging setup is not part of this model (`config/logger.py`). Only the `Missing key` error lines of `load_data` are modelled. The info lines and `logger.exception` are side output and are left out.
- The listing and decoding are parameters: `os.listdir`, `open` and `json.load` are not modelled. An undecodable `.json` file is one entry kind that aborts the call. A directory or unreadable file named `*.json` (an `open` failure) is not modelled.
- `to_csv("data_clean/clean.csv")` is not modelled. A successful write leaves the returned table as it is. A failed write, for example when `data_clean/` does not exist, raises at line 62, and the exception is logged and re-raised at lines 66-68. That failure path is not modelled: `Clean.Transform` succeeds where the real call would fail.
- JSON booleans are not in the `Json` datatype. They do not occur in the snapshots the Extract stage saves.
- Numbers are kept abstract as reals. Float rounding, NaN written as a number inside the document, and the integer/float `dtype` distinction of pandas columns are not modelled.
- Clean.CoerceCell: the string-to-number parser of `pd.to_numeric` is a parameter. Which strings parse, to which value, is left open, and every property holds for any parser that meets the lemma's requires.
- Timestamps.Format: pads years below 1000 to four digits. Python's `%Y` depends on the platform there. Month lengths are not checked: a day up to 31 is accepted in every month.
