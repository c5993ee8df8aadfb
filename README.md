# Crypto trading bot: extraction and alignment pipeline, in Dafny

This project models the part of the crypto trading bot that turns the data
provider's per-endpoint JSON into one time-indexed feature table per
symbol, and proves what that pipeline promises.

- `responses.dfy` (module `Responses`) holds three things:
  - the `ResponseModel` record every step returns (`Response`, built by
    `Failure` for the failure shape);
  - the pandas and dictionary exceptions no `except` clause catches
    (`Exception`), and an `Outcome` that is either a returned record or a
    raised exception;
  - `Collect`, the "build each, stop at the first raise" loop.
- `frames.dfy` (module `Frames`) is the part of pandas the pipeline relies
  on:
  - JSON records and the column list `pd.DataFrame(records)` derives from
    them;
  - a table with a strictly increasing timestamp index and labelled
    columns. Each column holds its cells as a map from timestamp to value,
    and a timestamp without a cell is a missing value;
  - `pd.concat(frames, sort=True, axis=1)` as a column-wise outer join: the
    columns of every table in order, over the sorted union of the indexes.
- `connector.dfy` (module `Connector`) is `CryptoQuantConnector`:
  - the `ENDPOINTS_PARAMS` catalog, as an ordered sequence because Python
    dicts keep insertion order;
  - the URL builder `_parse_endpoint_url`, as a method with its loop,
    together with a reference parser that reads the query back;
  - the `fetch_data` loop over a category's endpoints.
- `extractor.dfy` (module `Extractor`) is `JSONExtractor`:
  - the `ENDPOINT_COLUMNS` lists;
  - the table built from one endpoint's records: `start_time` dropped,
    `date` renamed for day-window endpoints, the time column parsed and
    made the index;
  - the category join, and `extract` as a method on a class whose field
    `data` holds the last table built.
- `preprocessor.dfy` (module `Preprocessor`) is `DataPreprocessor`:
  - the symbol default;
  - the ordered load loop of `_load_data` into the insertion-ordered
    `raw_data_files` dictionary, a sequence of entries;
  - the in-place `miner_`/`exchange_` rename and the final join of
    `merge_tables`;
  - the proof that the seven declared column lists are pairwise disjoint
    once namespaced, so the merged table's labels are distinct.

Everything outside the program's own logic is a parameter of the model:
- `respond` maps a request URL to what the HTTP call yields;
- `startTime` is the start time the URL builder reads from the clock;
- `load` maps a JSON file name to what `load_json` returns;
- `save` maps a CSV file name and a table to the error `to_csv` raises,
  if any;
- `disk` maps a CSV file name to the table `read_csv` and `to_datetime`
  yield, or to the `IOError` raised;
- `parse` is `pd.to_datetime` on one time value.

Exceptions that escape a call (a `KeyError` from `drop` or a missing
column, an unreadable timestamp, `pd.concat([])`) are modelled as
`Outcome.Raised` or `Result.Err`. They are not failure records.

## Model

| member | source | states |
|---|---|---|
| Responses.Collect | src/pipeline/json_extractor.py:70-79 | when nothing raises, there is one value per element, each the element's own result; otherwise the exception is that of the first element that raises, after an all-successful prefix |
| Responses.CollectStops | src/pipeline/json_extractor.py:71-79 | once an element raises after an all-successful prefix, the whole run raises that element's exception, whatever follows |
| Frames.Lookup | src/pipeline/json_extractor.py:72 | a record's member is found exactly when the record has a member of that name, and the value found is that of the last such member, as `json.load` keeps the last of duplicated members |
| Frames.FrameColumns | src/pipeline/json_extractor.py:72 | `pd.DataFrame(records)` has each key of any record as a column, once, and no other column |
| Frames.Remove | src/pipeline/json_extractor.py:72 | dropping a label leaves exactly the other labels, keeps them distinct, removes one entry when the label was present and changes nothing when it was absent |
| Frames.CellOutsideIndex | src/pipeline/json_extractor.py:81 | a timestamp outside a well-formed table's index reads as missing in every column |
| Frames.Union | src/pipeline/json_extractor.py:81 | the index union is strictly increasing, holds exactly the timestamps of either side, and its length is the sum of the lengths when the sides are disjoint |
| Frames.SortedUnique | src/pipeline/json_extractor.py:81 | two strictly increasing indexes with the same timestamps are equal, so the union is the sorted union whatever order the tables come in |
| Frames.Sorted | src/pipeline/json_extractor.py:78-81 | the sorted index is strictly increasing, holds exactly the given timestamps, and keeps one row per timestamp when they are distinct |
| Frames.Concat | src/pipeline/json_extractor.py:81 | the join of well-formed tables is well formed; its index holds exactly the timestamps of some table; its columns are the tables' columns, table after table; column counts add up |
| Frames.JoinColumnAt | src/pipeline/json_extractor.py:81 | column `j` of table `k` is column `ColumnCount(ts[..k]) + j` of the join, unchanged |
| Frames.ConcatCell | src/pipeline/json_extractor.py:81 | the join's cell in a column of table `k` is that table's cell, and missing at a timestamp that table has no row for |
| Frames.JoinNames | src/pipeline/json_extractor.py:81 | the joined labels are the tables' labels, table after table |
| Frames.JoinedNames | src/pipeline/preprocessor.py:61 | a table whose columns are the join carries the tables' labels in order, so its labels are distinct when theirs are |
| Connector.FindCategory | src/api_integrator/cryptoquant_connector.py:85 | a category is found exactly when the catalog has it, and what is found is that category's endpoint list |
| Connector.FindEndpoint | src/pipeline/json_extractor.py:74 | an endpoint is found exactly when its category lists it, and what is found is its parameter list |
| Connector.FindParam | src/pipeline/json_extractor.py:74 | a parameter is found exactly when the list has the key, and the value found is that pair's value |
| Connector.NatToStringRoundTrip | src/api_integrator/cryptoquant_connector.py:133 | reading back the rendered start time or limit gives the number itself |
| Connector.QueryPairs | src/api_integrator/cryptoquant_connector.py:133-136 | every request's query is `start_time` with a value reading back as the start time, `limit` with a value reading back as `LIMIT`, then exactly the endpoint's parameters |
| Connector.EndpointUrl | src/api_integrator/cryptoquant_connector.py:131-136 | the request URL is the f-string of path, `start_time` and `limit`, followed by `&key=value` for each parameter in declaration order |
| Connector.ParseEndpointUrl | src/api_integrator/cryptoquant_connector.py:131-139 | the loop that appends `&key=value` for each parameter builds exactly the URL `EndpointUrl` describes |
| Connector.ExtendIsTail | src/api_integrator/cryptoquant_connector.py:135-136 | appending pairs one at a time yields the URL followed by the `&key=value` rendering of the pairs, in order |
| Connector.BaseIsPathAndHead | src/api_integrator/cryptoquant_connector.py:133 | the f-string is the endpoint path, `?`, and the query of `start_time` and `limit` |
| Connector.UrlShape | src/api_integrator/cryptoquant_connector.py:133-136 | the URL is `ROOT_URL/symbol/category/endpoint`, `?`, and the query of `start_time`, `limit` and the parameters in declaration order |
| Connector.SplitQuery | src/api_integrator/cryptoquant_connector.py:133-136 | for pairs without `&` or a `=` in the key, splitting the query on `&` gives back the rendered pairs |
| Connector.ParseRendered | src/api_integrator/cryptoquant_connector.py:133-136 | each rendered segment reads back as its pair |
| Connector.QueryRoundTrip | src/api_integrator/cryptoquant_connector.py:133-136 | parsing the query string gives back exactly the pairs, in order |
| Connector.QueryPairsClean | src/api_integrator/cryptoquant_connector.py:133-136 | `start_time`, `limit` and clean parameters are all clean pairs |
| Connector.UrlRoundTrip | src/api_integrator/cryptoquant_connector.py:131-136 | every URL is its path, `?` and a query that parses back to `start_time`, `limit` and the parameters in order; the first pair reads back as the start time |
| Connector.QueryKeysOnce | src/api_integrator/cryptoquant_connector.py:133-136 | with distinct parameter keys other than `start_time` and `limit`, each of `start_time`, `limit` and every declared parameter occurs in the query exactly once |
| Connector.ParamsClean | src/api_integrator/cryptoquant_connector.py:22-75 | the four parameters the catalog uses render unambiguously |
| Connector.AllExchangeDayWellFormed | src/api_integrator/cryptoquant_connector.py:24 | `exchange: all_exchange, window: day` is a well-formed parameter list |
| Connector.AllMinerDayWellFormed | src/api_integrator/cryptoquant_connector.py:53 | `miner: all_miner, window: day` is a well-formed parameter list |
| Connector.DayWellFormed | src/api_integrator/cryptoquant_connector.py:32 | `window: day` is a well-formed parameter list |
| Connector.SpotAllExchangeDayWellFormed | src/api_integrator/cryptoquant_connector.py:61 | `market: spot, exchange: all_exchange, window: day` is a well-formed parameter list |
| Connector.ParamListsWellFormed | src/api_integrator/cryptoquant_connector.py:22-75 | each of the four parameter lists the catalog uses has distinct clean keys, no `start_time` or `limit`, and a `window` of `day` |
| Connector.ExchangeFlowsWellFormed | src/api_integrator/cryptoquant_connector.py:23-30 | `exchange-flows` lists distinct endpoints, each with a well-formed parameter list |
| Connector.FlowIndicatorWellFormed | src/api_integrator/cryptoquant_connector.py:31-37 | `flow-indicator` lists distinct endpoints, each with a well-formed parameter list |
| Connector.MarketIndicatorWellFormed | src/api_integrator/cryptoquant_connector.py:38-43 | `market-indicator` lists distinct endpoints, each with a well-formed parameter list |
| Connector.NetworkIndicatorWellFormed | src/api_integrator/cryptoquant_connector.py:44-51 | `network-indicator` lists distinct endpoints, each with a well-formed parameter list |
| Connector.MinerFlowsWellFormed | src/api_integrator/cryptoquant_connector.py:52-59 | `miner-flows` lists distinct endpoints, each with a well-formed parameter list |
| Connector.MarketDataWellFormed | src/api_integrator/cryptoquant_connector.py:60-67 | `market-data` lists distinct endpoints, each with a well-formed parameter list |
| Connector.NetworkDataWellFormed | src/api_integrator/cryptoquant_connector.py:68-74 | `network-data` lists distinct endpoints, each with a well-formed parameter list |
| Connector.CategoriesWellFormed | src/api_integrator/cryptoquant_connector.py:22-75 | the category names are distinct and every category is well formed |
| Connector.CatalogWellFormed | src/api_integrator/cryptoquant_connector.py:22-75 | the catalog has distinct category names, distinct endpoint names within each category, and well-formed parameters everywhere |
| Connector.AllWindowsAreDays | src/api_integrator/cryptoquant_connector.py:22-75 | every endpoint of the catalog has `window` equal to `day`, so the extractor always takes its `date` rename branch |
| Connector.WellFormedUrlRoundTrip | src/api_integrator/cryptoquant_connector.py:131-136 | for a well-formed parameter list, the query parses back to its `2 + n` pairs in order, and each key occurs exactly once |
| Connector.CatalogParamsWellFormed | src/api_integrator/cryptoquant_connector.py:22-75 | every endpoint of the catalog declares a well-formed parameter list |
| Connector.Urls | src/api_integrator/cryptoquant_connector.py:92-93 | there is one URL per endpoint of the category, in declaration order, each built from that endpoint's parameters |
| Connector.EmptyDataCollected | src/api_integrator/cryptoquant_connector.py:100-105 | when every endpoint answers with an empty list, the fetch succeeds and collects an empty list for each endpoint, in order |
| Connector.Accepted | src/api_integrator/cryptoquant_connector.py:100 | `data is None or []` rejects a `None` data member and accepts every received list, the empty one included, since the literal `[]` is falsy; a request that raised is never accepted |
| Connector.FailureMessage | src/api_integrator/cryptoquant_connector.py:101-125 | a `None` data member gives the empty-data message; a raised request gives its clause's text ending with the exception's text |
| Connector.FailureMessageRoundTrip | src/api_integrator/cryptoquant_connector.py:101-125 | every rejection's message reads back as that rejection: the five `except` texts and the empty-data message are told apart, and the exception's text is kept whole |
| Connector.StoppedAt | src/api_integrator/cryptoquant_connector.py:95-125 | a run that stops at the first rejected request, with that request's failure record, is a correct fetch |
| Connector.CompletedAll | src/api_integrator/cryptoquant_connector.py:127-128 | a run in which every request was accepted and each endpoint's data was collected is a correct successful fetch |
| Connector.FetchEndpoints | src/api_integrator/cryptoquant_connector.py:90-128 | the loop requests the URLs in order. It succeeds exactly when every request is accepted, with `message=None` and one `{endpoint, data}` entry per endpoint in order. Otherwise it stops after the first rejected request, with that request's failure message and no data |
| Connector.FetchData | src/api_integrator/cryptoquant_connector.py:81-128 | a category outside the catalog fails with its fixed message and no data, and nothing is requested; any other category is fetched as `FetchEndpoints` states |
| Connector.WindowOf | src/pipeline/json_extractor.py:74 | the window lookup raises `KeyError` naming the key that misses: the category when it is not in the catalog, the endpoint when its category does not list it, and otherwise only `window`; a window is found only for a catalog category and one of its endpoints |
| Extractor.TimeColumn | src/pipeline/json_extractor.py:72-77 | the time column is `date` or `datetime` and is one of the records' keys. Without `start_time` to drop it raises `KeyError("start_time")`; then a failed window lookup raises its `KeyError`; a day window with both `date` and `datetime` columns raises `TimeColumnNotUnique`; and with no usable time column it raises `KeyError("datetime")` |
| Extractor.ParseStamps | src/pipeline/json_extractor.py:77 | parsing succeeds exactly when every record's time value parses, and then yields one timestamp per record, in record order |
| Extractor.CellsOf | src/pipeline/json_extractor.py:72-78 | a column holds cells only at record timestamps; with distinct timestamps, a record's row has a cell exactly when the record has the member, and that cell holds the member's value |
| Extractor.ValueColumns | src/pipeline/json_extractor.py:72-78 | after the drop, the rename and `set_index`, the columns are exactly the record keys other than `start_time` and the time column, distinct when the keys are |
| Extractor.IndexedFrame | src/pipeline/json_extractor.py:72-78 | the indexed frame is well formed, has one row per record, is indexed by exactly the timestamps, has the value columns, and holds each record's members at its row |
| Extractor.EndpointTable | src/pipeline/json_extractor.py:72-78 | an endpoint table that is built is well formed |
| Extractor.EndpointTableBuilt | src/pipeline/json_extractor.py:72-78 | a built table means the time column was found and its values all parse to distinct timestamps; it is the frame indexed by them |
| Extractor.EndpointTableFails | src/pipeline/json_extractor.py:72-78 | the converse: the build raises the time column's exception when that fails, `UnparsableTimestamp` when a time value cannot be read, and `DuplicateTimestamps` exactly when parsed timestamps repeat |
| Extractor.EndpointTableColumns | src/pipeline/json_extractor.py:72-78 | the table's columns are distinct and are exactly the record keys other than `start_time` and the time column; `datetime` is never a column, nor `date` for a day-window endpoint |
| Extractor.TimeColumnChoice | src/pipeline/json_extractor.py:74-75 | the index comes from `date` exactly when the endpoint has a day window and the records carry `date`, and then no record carries `datetime`; otherwise from `datetime` |
| Extractor.StampsOfRecords | src/pipeline/json_extractor.py:77 | the parsed timestamps are exactly the parsed time values of the records |
| Extractor.EndpointTableIndex | src/pipeline/json_extractor.py:77-78 | the index has one row per record and holds exactly the records' parsed time values |
| Extractor.EndpointTableCells | src/pipeline/json_extractor.py:72-78 | at a record's timestamp, each column holds that record's member of the column's name, or a missing value where the record has none |
| Extractor.EmptyEndpointRaises | src/pipeline/json_extractor.py:72 | an endpoint with no records has no `start_time` to drop, so building its table raises `KeyError` |
| Extractor.CategoryTables | src/pipeline/json_extractor.py:70-79 | the tables come in `responses` order, each the table of its response; the first response whose table raises ends the build with that exception |
| Extractor.CategoryTable | src/pipeline/json_extractor.py:81 | the join succeeds exactly when `responses` is non-empty and every endpoint table is built; an endpoint's exception is the join's, an empty list raises `NoObjectsToConcatenate`, and a built category table is well formed |
| Extractor.CategoryTableShape | src/pipeline/json_extractor.py:71-81 | the category table has as many columns as the endpoint tables together, and its index is the union of theirs |
| Extractor.NoTimestampLost | src/pipeline/json_extractor.py:71-81 | the parsed time of every record of every response is a row of the category table |
| Extractor.CategoryTablesValid | src/pipeline/json_extractor.py:71-79 | every endpoint table of the build is well formed |
| Extractor.CategoryTableCells | src/pipeline/json_extractor.py:81 | column `j` of response `k` sits at position `ColumnCount(ts[..k]) + j` with the same label and cells, and is missing where that response has no row |
| Extractor.CategoryCellOfRecord | src/pipeline/json_extractor.py:71-81 | at the row of record `i` of response `k`, the category table holds that record's member in each of that response's columns |
| Extractor.JSONExtractor.constructor | src/pipeline/json_extractor.py:52-53 | `data` starts as the empty table |
| Extractor.JSONExtractor.Extract | src/pipeline/json_extractor.py:55-91 | an unknown category fails with nothing loaded or written; a load that yields None or raises fails with its message; a build that raises escapes and leaves `data`. Otherwise `data` is the category table and the CSV is written; success carries `data`, and a failed write gives success with its message and no data. A failure never carries data |
| Extractor.CategoryTablesStop | src/pipeline/json_extractor.py:71-79 | once a response's table raises, the category build raises that exception, whatever follows |
| Preprocessor.ChooseSymbol | src/pipeline/preprocessor.py:17-26 | the chosen symbol is in `SYMBOLS`: the given one when it is there, `btc` otherwise (including None) |
| Preprocessor.ChooseSymbolIdempotent | src/pipeline/preprocessor.py:26 | choosing again from a chosen symbol keeps it |
| Preprocessor.Get | src/pipeline/preprocessor.py:37 | a key finds a table exactly when it is stored |
| Preprocessor.Put | src/pipeline/preprocessor.py:37 | storing under a new key appends it; storing under a present key keeps the key order |
| Preprocessor.PutGet | src/pipeline/preprocessor.py:37 | after storing, the key finds the new table and every other key finds what it found before |
| Preprocessor.PutFresh | src/pipeline/preprocessor.py:37 | storing under a fresh key appends the entry |
| Preprocessor.ReadCount | src/pipeline/preprocessor.py:31-38 | the categories before the count all have readable files, and the file at the count, if any, is unreadable |
| Preprocessor.ReadEntries | src/pipeline/preprocessor.py:31-37 | the first `n` entries are the first `n` categories, each with its own file's table |
| Preprocessor.EndpointsDistinct | src/pipeline/preprocessor.py:18-21 | `ENDPOINTS` is seven distinct names |
| Preprocessor.ReadEntriesKeys | src/pipeline/preprocessor.py:31-37 | the loaded entries are keyed by the first `n` categories in `ENDPOINTS` order, distinct, and each key finds its own file's table |
| Preprocessor.LoadFrom | src/pipeline/preprocessor.py:30-40 | from category `i` on, the loop ends without failure exactly when every remaining file is read, and otherwise with `File Not Found: ` and the error of the first unreadable file |
| Preprocessor.LoadFailure | src/pipeline/preprocessor.py:38-40 | the load loop fails exactly when some file cannot be read, and then with `File Not Found: ` and the first such file's error |
| Preprocessor.LoadStored | src/pipeline/preprocessor.py:31-37 | the load loop stores the table of every category read before the first unreadable file, in `ENDPOINTS` order |
| Preprocessor.NextKeyFresh | src/pipeline/preprocessor.py:31-37 | the next category to load is not already stored |
| Preprocessor.LoadedConsistent | src/pipeline/preprocessor.py:31-37 | what is loaded is keyed by distinct categories from `ENDPOINTS` and holds well-formed tables |
| Preprocessor.GetAt | src/pipeline/preprocessor.py:37 | with distinct keys, the key at a position finds the table at that position |
| Preprocessor.Namespace | src/pipeline/preprocessor.py:53-56 | prefixing keeps the number of names and puts the prefix in front of each |
| Preprocessor.NamespaceEmpty | src/pipeline/preprocessor.py:49-59 | the empty prefix of an unrenamed category changes no name |
| Preprocessor.NamespaceInjective | src/pipeline/preprocessor.py:53-56 | prefixed names are distinct exactly when the names are |
| Preprocessor.Renamed | src/pipeline/preprocessor.py:53-57 | the rename keeps the index, the column count and every column's cells, and prefixes every label |
| Preprocessor.RenamedKeeps | src/pipeline/preprocessor.py:53-57 | the rename keeps a table well formed exactly when it was, keeps labels distinct exactly when they were, and changes no cell |
| Preprocessor.PrefixFor | src/pipeline/preprocessor.py:52-57 | `miner_` exactly for `miner-flows`, `exchange_` exactly for `exchange-flows`, and no prefix for every other category |
| Preprocessor.Namespaced | src/pipeline/preprocessor.py:49-57 | one pass keeps the entry's key and index and puts the category's prefix in front of every label |
| Preprocessor.NamespacedTable | src/pipeline/preprocessor.py:49-57 | one pass changes no cell, well-formedness or distinctness of labels |
| Preprocessor.RenamedTwice | src/pipeline/preprocessor.py:53-57 | renaming twice puts the prefix in front twice |
| Preprocessor.NamespacedTwice | src/pipeline/preprocessor.py:49-57 | since the rename works in place, a second pass adds a second prefix, so the labels of a renamed non-empty category change again |
| Preprocessor.NamespacedAll | src/pipeline/preprocessor.py:49-57 | the pass over the dictionary renames every entry and keeps their order |
| Preprocessor.DeclaredLists | src/pipeline/json_extractor.py:19-50 | the unprefixed categories keep their declared lists, and the flow categories' lists take their prefixes |
| Preprocessor.MarketDataDistinct | src/pipeline/json_extractor.py:30-35 | `market-data` declares each column once |
| Preprocessor.DeclaredDistinct | src/pipeline/json_extractor.py:19-50 | every category declares each column once, also once namespaced |
| Preprocessor.ExchangeDisjoint | src/pipeline/preprocessor.py:55-57 | the `exchange_` columns share no name with any other category's declared columns |
| Preprocessor.MinerDisjoint | src/pipeline/preprocessor.py:52-54 | the `miner_` columns share no name with any unprefixed category's declared columns |
| Preprocessor.PlainDisjoint | src/pipeline/json_extractor.py:30-49 | two categories without a prefix declare no common column |
| Preprocessor.DeclaredDisjoint | src/pipeline/preprocessor.py:52-57 | after namespacing, the declared column lists of any two different categories are disjoint, although `miner-flows` and `exchange-flows` declare the same list |
| Preprocessor.Merged | src/pipeline/preprocessor.py:61 | the merged table is well formed, and its columns are the renamed categories' columns, category after category |
| Preprocessor.NamespacedValid | src/pipeline/preprocessor.py:49-57 | the rename loop keeps every stored table well formed |
| Preprocessor.MergedColumn | src/pipeline/preprocessor.py:61 | column `j` of category `k` is a column of the merged table, labelled with the category's prefix in front of its own label, with the same cells, so missing where the category has no row |
| Preprocessor.NamespacedColumn | src/pipeline/preprocessor.py:53-57 | one pass renames a column to the prefix and its label, and keeps its cells and the index |
| Preprocessor.MergedIndex | src/pipeline/preprocessor.py:61 | the merged index holds exactly the timestamps of some loaded category |
| Preprocessor.NamespacedDeclared | src/pipeline/preprocessor.py:52-57 | a category carrying its declared columns once carries after the rename distinct labels among its namespaced declared ones |
| Preprocessor.MergedNamesDistinct | src/pipeline/preprocessor.py:52-61 | when every category carries only its declared columns, each once, the labels of the merged table are distinct, each a namespaced declared name of some category |
| Preprocessor.CatalogsAgree | src/pipeline/preprocessor.py:18-21 | `ENDPOINTS`, the keys of `ENDPOINT_COLUMNS` and the categories of `ENDPOINTS_PARAMS` are the same seven names |
| Preprocessor.DataPreprocessor.constructor | src/pipeline/preprocessor.py:23-27 | the symbol is the chosen one; the dictionary holds every category read before the first unreadable file, in `ENDPOINTS` order; `full_df` is empty; the class invariant holds |
| Preprocessor.DataPreprocessor.LoadData | src/pipeline/preprocessor.py:29-40 | the loop ends where the load specification does; it fails exactly when a file cannot be read, with `File Not Found: ` and that file's error; symbol and `full_df` stay |
| Preprocessor.DataPreprocessor.MergeTables | src/pipeline/preprocessor.py:43-61 | the stored tables are renamed in place, exactly one prefix each, and the invariant is kept; with nothing stored the join raises and `full_df` stays; otherwise `full_df` is the merged table |
| Preprocessor.KeepsConsistent | src/pipeline/preprocessor.py:49-57 | the rename keeps the keys and each table's well-formedness |

## Left out

- HTTP: `requests.get`, headers, status checks and the exception classes are one parameter, `respond`, mapping a URL to either the decoded `data` member or a request error of one of the five caught kinds. A JSON body without a `data` member raises an uncaught `KeyError` in `fetch_data`; that case is not modelled.
- Clock: the start time is the parameter `startTime`. `_parse_endpoint_url` reads the clock anew for each URL, while the model uses one start time for all endpoints of a fetch. `get_start_time`, `curr_timestamp` and the other time helpers of src/utils/utils.py are not part of this model.
- `ROOT_URL` and `LIMIT` come from config/settings.py; the model fixes them to the values that file sets.
- File I/O: `load_json`, `to_csv` and `read_csv` are the parameters `load`, `save` and `disk`. The CSV round trip between `extract` and `_load_data` is not modelled. `disk` yields the table directly, and every table it yields is required to be well formed. A CSV without a `datetime` column would raise an uncaught `KeyError` in `_load_data`; that case is not modelled.
- `merge_tables` writes `btc_data.csv` whatever the symbol; that write is not modelled.
- Logging and `print` calls are not modelled.
- src/pipeline/json_extractor.py:12 imports `ENDPOINTS_PARAMS` from config/settings.py, which defines no such name. The model uses the connector's catalog in both places.
- The `raw_data_files is None` test of `merge_tables` can never be true, since the constructor always sets a dictionary. The model leaves that branch out.
- `pd.to_datetime` is the parameter `parse`. A record without a time value gives `Null` to `parse`; pandas would give NaT.
- Extractor.EndpointTable: an endpoint whose parsed timestamps repeat is an error (`DuplicateTimestamps`). pandas raises only when such an index must be aligned with a different one.
- A JSON `null` member is a `Null` cell; pandas turns it into NaN.
- `fetch_data`'s test `data is None or []` is modelled as written (`Connector.Accepted`): only None is rejected, and an empty list is accepted and collected.
- Preprocessor.DataPreprocessor.MergeTables: requires the class invariant `Consistent()`. The constructor establishes it, and `merge_tables` is only reached through it.
- `extract` takes the loaded JSON to be a list of `{endpoint, data}` objects. A response without `data` or `endpoint` (an uncaught `KeyError`), or JSON that is not a list of objects (an uncaught `TypeError`), is not modelled.
- `_load_data` catches only `IOError`, and `disk` yields a table or such an error. `read_csv` errors that are not `IOError` (an empty or unparsable file) and a `ValueError` from `pd.to_datetime` escape the `except` clause in the source; those uncaught cases are not modelled.
- The unused sklearn imports and `BaseEstimator` base class of `DataPreprocessor` are not modelled.
