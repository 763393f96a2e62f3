# Pokémon data pipeline — a Dafny model of its decision logic

The pipeline fetches one record per Pokémon id from the Pokémon REST API. It
flattens each nested record into a fifteen-column row and writes the batch to
CSV. A second script reads such a CSV back and inserts its rows into a MySQL
table. It skips every row whose primary key the table already holds.

This project models the two pieces of that pipeline that decide something:

- **The cleaner and the collector** (`PokemonAPICollectAndCleaner.py`).
  - `clean_pokemon_data` turns the raw record into the flat record by positional
    decoding. Type and ability names default to `""`. Base stats default to null.
    A missing list reads as an empty one.
  - The loops of `main` and `kanto` walk an ascending id range with an inclusive
    end. Each id is fetched and then cleaned. Only the records that cleaned to
    something are kept, in order.
  - The output file name is coerced to end in `.csv`.
- **The skip-on-duplicate loader** (`insert_rows` in `PokemonCSVIntoSQL.py`).
  - The table is a map from `id` to the stored row.
  - Each row is handled in order. A duplicate key is skipped. Otherwise the
    fifteen columns are inserted in a fixed order, with missing (NaN) values
    bound as null.
  - A failing statement leaves the table unchanged, and the loop goes on with
    the next row.

Files:

- `wrappers.dfy`: `Option`.
- `records.dfy`: the raw and flat record types, and what "readable" means for
  the nested entries.
- `cleaner.dfy`: the cleaner and its laws.
- `collector.dfy`: the range filter-map, independent of the record type.
- `pipeline.dfy`: the collector wired to fetch-then-clean, plus `kanto`.
- `filenames.dfy`: the `.csv` suffix rule.
- `loader.dfy`: the per-row step, the fold over the rows, and the loop method.
- `loader_laws.dfy`: idempotence, a reference description of the final table,
  failure isolation, and the stored-row invariant.

Abstractions:

- The HTTP fetch is an abstract total function `Fetcher` from id to payload,
  with `None` for every failed request.
- Whether the database accepts an INSERT is an oracle `Acceptor` of the key
  and the bound values.
- A raw record is a datatype. Its scalar fields are optional (`None` = key
  absent). Its lists are optional sequences of entries whose nested keys are
  themselves optional. `otherKeys` counts the keys the cleaner never reads;
  it matters only for Python's "empty dict is false" test.
- The source raises `KeyError` on an entry that lacks the nested key it reads,
  which stops the whole run. The model makes readability of exactly the
  decoded positions a precondition of `Clean` (`Decodable`). For the
  collector it is part of the fetcher's result type (`Payload`).

Two consequences of the code that the model keeps:

- `if cleaned_data:` tests truthiness. A cleaned record always has fifteen
  keys, so only `None` is dropped.
- A raw `{}` cleans to `None`, while a raw `{"types": []}` cleans to a record
  of defaults. So a missing list and an empty list clean alike only in a
  non-empty record, which is what `Cleaner.MissingListIsEmptyList` states.

## Model

| member | source | states |
|---|---|---|
| Cleaner.Clean | PokemonAPICollectAndCleaner.py:62-98 | The result is `None` exactly when the input is `None` or the empty mapping. Otherwise `id`, `name`, `height` and `weight` are copied unchanged (null when absent). Slot k of the types, abilities and stats groups holds the leaf of list position k when the list is longer than k, and `""` or null otherwise. |
| Cleaner.MissingListIsEmptyList | PokemonAPICollectAndCleaner.py:76-78 | For a non-empty record, removing the `types`, `abilities` or `stats` key cleans exactly like setting it to `[]`. |
| Cleaner.TypeBoundaryLaw | PokemonAPICollectAndCleaner.py:85-86 | No types gives two empty names. One type sets only `type_1`. Two or more set `type_1` and `type_2` from positions 0 and 1. |
| Cleaner.ExtraEntriesIgnored | PokemonAPICollectAndCleaner.py:85-95 | Cutting the lists to their first 2, 3 and 6 entries does not change the cleaned record: later positions are ignored. |
| Cleaner.StatNamesIgnored | PokemonAPICollectAndCleaner.py:90-95 | Two records that differ only in their stat entries' names clean alike: stats are attributed by position, never by name. |
| Cleaner.SingleTypeNoAbilities | PokemonAPICollectAndCleaner.py:85-89 | Types `[grass]` and no abilities give `type_1 = "grass"`, with `type_2` and all three abilities empty. |
| Collector.Collect | PokemonAPICollectAndCleaner.py:157-163 | The batch for `first..last` has at most `last - first + 1` records (none for an empty range). |
| Collector.KeptIds | PokemonAPICollectAndCleaner.py:157-163 | Every id whose result was kept lies inside the range, and its visit returned a value. |
| Collector.KeptIdsAscend | PokemonAPICollectAndCleaner.py:157 | The kept ids are strictly ascending: the range is walked upwards, once. |
| Collector.KeptIdsComplete | PokemonAPICollectAndCleaner.py:162-163 | Every id of the range whose visit returned a value is kept: only `None`s are dropped. |
| Collector.CollectFollowsKeptIds | PokemonAPICollectAndCleaner.py:156-163 | The batch pairs position by position with the kept ids. Record k is the value visiting kept id k returned, so the batch is the ordered subsequence of results with the `None`s removed. |
| Collector.CollectRange | PokemonAPICollectAndCleaner.py:144-163 | The loop over the ids `start_id` through the entered end id, inclusive, appends each non-`None` result and returns exactly the batch `Collect` describes. |
| Pipeline.FetchAndClean | PokemonAPICollectAndCleaner.py:158-159 | Fetching and then cleaning an id gives nothing exactly when the fetch failed or returned the empty mapping. |
| Pipeline.CollectRecords | PokemonAPICollectAndCleaner.py:156-163 | The collected batch is the range collector's batch over fetch-then-clean, with at most one record per id of the inclusive range. Record k is `clean(fetch(id))` for the k-th kept id, which lies inside the range. |
| Pipeline.BatchIdsUnique | PokemonAPICollectAndCleaner.py:156-163 | When the API answers each id with the record of that id, the `id` values of the collected batch strictly ascend, so no `id` occurs twice in the batch. The collector checks no ids: uniqueness rests on that property of the API. |
| Pipeline.Kanto | PokemonAPICollectAndCleaner.py:110-118 | The batch for the fixed range `range(1, 152)` has one record per kept id of 1 to 151, in order, so at most 151. Record k is the cleaned record of the k-th kept id, which lies between 1 and 151. With `Collector.KeptIdsAscend` and `Collector.KeptIdsComplete`, this fixes the batch as the ordered non-`None` results of ids 1 to 151. |
| Pipeline.FailedFetchIsSkipped | PokemonAPICollectAndCleaner.py:31-40 | For the range 1..3, a failed fetch of id 2 (with ids 1 and 3 fetched) keeps exactly ids 1 and 3, so the batch has two records. |
| FileNames.WithCsvSuffix | PokemonAPICollectAndCleaner.py:152-153 | The result ends in `.csv`. A name that already ends in `.csv` is kept unchanged. Any other name gets exactly `.csv` appended, even one ending in a part of it (`data.c` becomes `data.c.csv`). |
| FileNames.WithCsvSuffixIdempotent | PokemonCSVIntoSQL.py:61-63 | The loader's file name gets the same rule, and applying it twice is the same as once. |
| Loader.RowValues | PokemonCSVIntoSQL.py:191 | The INSERT parameters are one value per column, in the fixed column order. A missing (None/NaN) value is bound as null. Every other value is bound unchanged. No NaN reaches the database. |
| Loader.RowKey | PokemonCSVIntoSQL.py:186-191 | The key used for both the duplicate lookup and the INSERT is present exactly when the row's `id` is a number, and then it is that number. A non-numeric id makes the statement fail. |
| Loader.LoadRow | PokemonCSVIntoSQL.py:184-201 | A row is skipped exactly when its key is already in the table, and then the table is unchanged. It is inserted exactly when the key is absent and the database accepts it. Then the table gains exactly that key, mapped to the row's values, and nothing else changes. Otherwise the statement fails and the table is unchanged. |
| Loader.LoadRows | PokemonCSVIntoSQL.py:184-201 | Every row gets one outcome. The final key set contains the prior keys and lies within the prior keys plus the row ids. No row already in the table is ever overwritten. |
| Loader.InsertRows | PokemonCSVIntoSQL.py:170-202 | The row-by-row loop ends with the table and outcome log of the fold `LoadRows`. |
| LoaderLaws.LoadSettles | PokemonCSVIntoSQL.py:186-197 | After a load, every row the database would accept has its key in the table. |
| LoaderLaws.SettledLoadChangesNothing | PokemonCSVIntoSQL.py:186-189 | Rows whose keys are present, or that the database refuses, leave the table unchanged and insert nothing. |
| LoaderLaws.AllSkippedWhenPresent | PokemonCSVIntoSQL.py:186-189 | When every row's key is already in the table, every row is logged as a skipped duplicate. |
| LoaderLaws.LoadIsIdempotent | PokemonCSVIntoSQL.py:184-199 | Loading the same rows twice leaves the table as the first load left it, and the second load inserts nothing. When the database accepted every row, the second load logs every row as a skipped duplicate. |
| LoaderLaws.LoadMatchesReference | PokemonCSVIntoSQL.py:184-199 | For every key, the final table holds the prior row if the key was present. Otherwise it holds the values of the first accepted row with that key, or nothing if there is none. |
| LoaderLaws.RefusedRowHasNoEffect | PokemonCSVIntoSQL.py:184-201 | A row the database refuses (or one with a non-numeric id) can be removed from the input without changing the final table. Every other row is logged with the outcome it gets in the full load. |
| LoaderLaws.ReloadOnlyFillsGaps | PokemonCSVIntoSQL.py:184-201 | A second load over the table a first load left behind never overwrites a stored row, even under a different acceptor. Every key it adds belongs only to rows the first load's database refused, and was not in the original table. |
| LoaderLaws.LoadKeepsTableWellFormed | PokemonCSVIntoSQL.py:180-197 | A load keeps every stored row at fifteen values, with its own key in the `id` column and no NaN. |

## Left out

- Fetching (`fetch_pokemon_data`): the URL template, the 10-second timeout,
  status checking and JSON parsing are network I/O. The model keeps only their
  result, an abstract `Fetcher` that returns `None` on failure.
- Pipeline.Fetcher: every payload the fetcher returns is assumed decodable, for
  every id. The source only needs this for the ids it visits, and raises
  `KeyError` (ending the run) otherwise. A total function type keeps the
  collector's proofs small.
- Raw JSON values are narrowed to what the API sends: `id`, `height`, `weight`
  and base stats are integers, and names are strings. A key that is present
  but holds JSON `null` is not modelled. In particular, a `null` list would
  make `len` raise.
- Interactive input in both scripts (`input()`, and the `ValueError` on a
  non-integer id bound) is user I/O. The model takes the already-parsed
  bounds and file names.
- The CSV file itself is not modelled: `pd.DataFrame`, `to_csv`, `read_csv`,
  and how pandas types columns on the way back. That includes integer columns
  with gaps turning into floats, and empty strings reading back as NaN. The
  model starts from the rows as pandas hands them over. Numbers are integers,
  and a cell is `None`, NaN, a number or a string.
- MySQL is not modelled: `connect_to_mysql`, `create_database_and_table`,
  cursor handling, `commit` and its failure, and closing the connection.
  These are database I/O. Every reason an INSERT can fail because of its row
  is folded into the `Acceptor` oracle, for example a value too long for its
  column or a value the driver cannot convert.
- LoaderLaws.LoadIsIdempotent: both loads see the same `Acceptor`. So a row
  refused the first time is refused again, and the second load leaves the
  table unchanged. A failure that depends on the moment rather than the row,
  such as a dropped connection, can let the second load insert a row.
  `LoaderLaws.ReloadOnlyFillsGaps` covers that case with two acceptors: the
  second load then only fills the gaps left by the first load's refusals.
- Loader.LoadRow: a failure of the duplicate-check SELECT itself is not
  modelled separately. It would also leave the table unchanged, but would be
  logged as a failure rather than a skip.
- Loader.RowKey: a row whose `id` is not a number (NaN or text) is modelled
  as a failing statement. The driver's exact behaviour on such a key is not
  visible in the source.
- Loader.LoadRows: every row must have all fifteen columns (`HasColumns`).
  All rows of a DataFrame share one header, so a missing column is missing
  from every row. `insert_rows` catches none of the resulting `KeyError`s:
  - A frame without `id` raises at the lookup of its first row (line 186).
  - A frame lacking any other column reads it only when building the INSERT
    (line 191), after the duplicate check. So its duplicate rows are skipped,
    and it raises at the first row that is not a duplicate.
  The precondition also excludes such a frame whose rows are all duplicates,
  a load the source finishes by skipping every row.
- The `main` of `PokemonCSVIntoSQL.py` (lines 22-51), `get_csv_path` path
  resolution (`abspath`, `isfile`, the second prompt) and `load_csv` are I/O
  orchestration, so they are not modelled. Three facts about that code:
  - `main` catches the `FileNotFoundError` that `get_csv_path` raises (line 75).
  - `load_csv` returns `None` on a read error instead of raising, and `main`
    goes on with it.
  - `connect_to_mysql` catches its own `mysql.connector.Error` (lines
    124-126), so `main`'s handler for that error (line 40) is never reached.
    A schema-setup error closes the connection (line 164), and `insert_rows`
    is still called on it.
- Logging in both scripts is not part of the data contract. The loader's log
  lines appear only as the `RowOutcome` of each row.
