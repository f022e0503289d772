# GeoLoop country and economic data ingestion, modelled in Dafny

The repository's ETL scripts fetch country data from a REST country catalogue and
GDP series from the World Bank API, normalise them, and persist them as JSON files
or as rows of a SQLite table. This project models the decision logic of that path:

- `CountryIngest` (`data_ingest.dfy`): `process_country_data`, which turns a list of
  raw country objects into a dictionary from common name to a record with exactly the
  fields `capital`, `populacao` and `continente`, using `"Desconhecido"`,
  `"Desconhecida"` and `"N/A"` where fields are missing; a later record with the same
  name overwrites an earlier one.
- `CountryStore` (`data_store.dfy`): the `paises` table as a map from `nome` to row,
  `init_db`'s `CREATE TABLE IF NOT EXISTS`, and `save_to_db`'s loop of
  `INSERT ... ON CONFLICT(nome) DO UPDATE`, including parameter binding (a missing
  field binds as NULL; a list, an object or an integer outside 64 bits raises) and
  the error raised when the table does not exist.
- `EconomicData` (`data_economicos.dfy`): over an abstract response (transport
  exception, or status plus decoded payload), `fetch_economic_data` returns element 1
  of the payload only for status 200 and a present, non-empty element 1, and None in
  every other case; `save_economic_data` writes only non-empty data.
- `Json` (`json.dfy`) holds the decoded JSON values and Python's truth test on them;
  `Wrappers` (`wrappers.dfy`) the `Option` type.

`fetch_economic_data` makes one request, with no retry, and returns None on any
failure; no code filters aggregate region codes.

## Model

| member | source | states |
|---|---|---|
| CountryIngest.NameOf | scripts/data_ingest.py:26 | the key is `name.common` when present; `"Desconhecido"` when `name` or `name.common` is missing |
| CountryIngest.Normalize | scripts/data_ingest.py:27-35 | the record has exactly the three fields; capital is the first element of a non-empty `capital` list, and `"Desconhecida"` when `capital` is missing, an empty list or not a list; present population and region pass through unchanged, missing ones become `"N/A"` |
| CountryIngest.ProcessCountryData | scripts/data_ingest.py:16-36 | the loop builds exactly `Processed(raw)`, one assignment per record in order; its keys are the input's names and every value has exactly the three fields |
| CountryIngest.ProcessedKeys | scripts/data_ingest.py:24-31 | the output's key set equals the set of normalised names of the input records |
| CountryIngest.ProcessedShape | scripts/data_ingest.py:31-35 | every output value has exactly the fields `capital`, `populacao`, `continente` |
| CountryIngest.ProcessedLastWins | scripts/data_ingest.py:25-31 | the record stored under a name is the normalisation of the last input record with that name |
| CountryIngest.ProcessedFromLast | scripts/data_ingest.py:24-35 | every stored record is the normalisation of some input record with its name that no later record shares |
| CountryIngest.LaterRecordOverwrites | scripts/data_ingest.py:25-31 | of two records with the same name, the later one's fields are stored when no record after it shares the name |
| CountryIngest.BrazilExample | scripts/data_ingest.py:26-35 | the Brazil catalogue entry normalises to key "Brazil" with capital "Brasília", its population and region "Americas" |
| CountryStore.Bind | scripts/data_store.py:34 | a parameter value binds exactly when it is null, a boolean (as 0 or 1), a string or an integer within 64 bits; what binds is stored unchanged |
| CountryStore.BindStored | scripts/data_store.py:34 | binding a stored value gives that value back |
| CountryStore.Column | scripts/data_store.py:34 | `info.get(field)`: an absent field is stored as NULL, a present one is bound |
| CountryStore.RowOf | scripts/data_store.py:26-34 | an entry becomes a row exactly when all three fields bind, and the row holds those three bound values |
| CountryStore.UpsertedStep | scripts/data_store.py:24-34 | one more upsert replaces or inserts only the row of that entry's name |
| CountryStore.UpsertedRows | scripts/data_store.py:26-34 | after the upserts the key set is the old keys plus the entries' names (one row per name); each entry's name holds its fields, NULL where absent; other rows are unchanged |
| CountryStore.UpsertedIdempotent | scripts/data_store.py:24-36 | upserting the same entries twice gives the same table as once |
| CountryStore.Database.constructor | scripts/data_store.py:7 | a new database file has no `paises` table and no rows |
| CountryStore.Database.InitDb | scripts/data_store.py:4-20 | afterwards `paises` exists; an existing table keeps all its rows, a new one is empty |
| CountryStore.Database.SaveToDb | scripts/data_store.py:22-36 | succeeds exactly when there is nothing to insert or the table exists and every entry binds; then the table is the old one with every entry upserted; with data to insert and no table it always fails with the missing table (the statement is prepared before binding); otherwise on failure it names an unbindable entry, and the upserts already executed remain |
| CountryStore.SaveTwice | scripts/data_store.py:22-36 | when the table exists and every entry binds, two calls of `save_to_db` with the same data leave the table as one call does |
| EconomicData.SecondElement | scripts/data_economicos.py:21 | `len(data) > 1 and data[1]`'s lookup: element 1 of a list longer than one, a one-character string for a string longer than one, and nothing for other payloads (the guard is false or the expression raises) |
| EconomicData.FetchEconomicData | scripts/data_economicos.py:11-31 | a transport exception, a status other than 200 or an undecodable body yields None; any returned data is non-empty and is element 1 of a status-200 payload |
| EconomicData.FetchReturnsObservations | scripts/data_economicos.py:21-22 | a status-200 payload `[metadata, observations, ...]` with non-empty observations returns exactly the observations |
| EconomicData.FetchListPayload | scripts/data_economicos.py:18-28 | for a list payload, data is returned if and only if the status is 200, the list has more than one element and element 1 is non-empty, and it is then element 1 |
| EconomicData.FetchUnusablePayload | scripts/data_economicos.py:20-25 | a payload that is neither a list nor a string yields None for every status |
| EconomicData.SaveEconomicData | scripts/data_economicos.py:33-43 | a document is written if and only if the data is present and non-empty, and it is that data |
| EconomicData.RunEconomicIngest | scripts/data_economicos.py:45-54 | the main block writes a document exactly when the fetch returned data, and the document is that data |

## Left out

- `fetch_country_data` (scripts/data_ingest.py:6-14) and the HTTP request in `fetch_economic_data`: network I/O. The response is a parameter (`Response`); the raise on a non-200 catalogue response is not modelled.
- The World Bank URL formatting (scripts/data_economicos.py:15): string formatting with nothing to prove.
- `save_data`, `json.dump`, `os.makedirs`, `print` and logging throughout: file and console output. Writing the economic data file is represented only as the written document or its absence.
- The SQLite connection, cursor and `commit`: the model keeps the table as the connection sees it. Whether upserts left behind by a failed `save_to_db` are ever committed depends on the caller, which is not part of this model.
- SQLite column type affinity (`populacao INTEGER` converting numeric text, `TEXT` columns converting numbers): the model stores values as bound.
- CountryIngest.RawCountry: a raw record that is not an object, a `name` that is not an object, or a `name.common` that is not a string are excluded by the types. Python would raise `AttributeError`, raise `TypeError` for a list or object `common` (unhashable key), or key the dictionary by a non-string.
- JSON floating-point numbers, and Python `bytes` parameters: the model's JSON numbers are integers.
- CountryStore.Database.SaveToDb: Python dictionaries iterate in insertion order, the model's maps in no order, so after a failure the model says only that the upserts executed form some subset of the entries, not which prefix.
- The two report generators (simulation/geo_ai_executor.py, builder_ai/geo_ai_executor.py): timestamped file appends and fixed text, nothing to verify.
