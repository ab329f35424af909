# MAVExplorer log-analysis back end, modelled in Dafny

This project models the request-handling core of a MAVLink flight-log
analysis back end. The back end has two Flask variants:

- the serverless `api/index.py` with its helper `api/mavexplorer_api.py`;
- the stand-alone `server/analyze_server.py` with its helper `server/mavexplorer_api.py`.

Both register an uploaded log under a fresh token. They then answer queries
against it: message summaries, CSV downloads, time series, predefined-graph
evaluation, raw dumps, statistics and parameter tables. A third part is the
in-memory fallback of the document store in `api/mongo_client.py`, which keeps
profiles, saved graphs and analysis results.

The log decoder (pymavlink) is abstracted. A decoded log is a finite
sequence of messages, and every handler's loop over `recv_match` becomes a
loop over that sequence. Each message has:

- a type name;
- the field map that `to_dict()` returns, with values int, float, string or None;
- the optional `time_usec`, `time` and `_timestamp` attributes.

Every loop is a Dafny `method` proved against a specification function.
Loops over the log, or over a list, are specified by recursion on the
prefix. Loops over a set or a dict's keys (`sorted()` of a set, the
serializer's loop over a document) are specified by set comprehension or
by the set of keys still to visit. The properties the handlers promise
are lemmas about those functions. Timestamps are exact rationals (`real`).

Modules, one per source file plus shared pieces:

| module | file | models |
|---|---|---|
| `Log` | log.dfy | messages, values, the timestamp choice `time_usec or time or _timestamp`, the 1e12 normalisation, request-argument parsing, the token gate |
| `Sorting` | sorting.dfy | Python `sorted()` on a set of strings and on distinct timestamps |
| `Terms` | terms.dfy | `re.findall(r'(\w+)\.(\w+)', …)`: leftmost, greedy, non-overlapping matches |
| `Stream` | stream.dfy | the `/api/timeseries` loop shared by both variants, `EveryNth` decimation, first-match graph lookup |
| `ApiMavExplorer` | api_mavexplorer.dfy | api/mavexplorer_api.py |
| `ServerMavExplorer` | server_mavexplorer.dfy | server/mavexplorer_api.py |
| `ApiIndex` | api_index.dfy | api/index.py (class `Api` owns `UPLOADS`) |
| `AnalyzeServer` | analyze_server.dfy | server/analyze_server.py (class `Server` owns `UPLOADS`) |
| `MongoStore` | mongo_store.dfy | the in-memory branches of `MongoManager` (class `MemoryStore`) |

## Model

| member | source | states |
|---|---|---|
| Log.TimeOf | api/index.py:161 | the time is `time_usec` when truthy, else `time` when truthy, else `_timestamp` as it is (zero or None included) |
| Log.Normalize | api/index.py:162-163 | a time above 1e12 is divided by 1e6 (result times 1e6 gives it back), any other time and None are kept |
| Log.DecimateArg | api/index.py:142 | an absent or empty `decimate` means 1; otherwise the `int()` reading of the text, None when `int()` raises |
| Log.LimitArg | api/index.py:238 | an absent `limit` means 100; a given one is read by `int()`, so an empty one raises |
| Log.OfTypeEmpty | api/index.py:102-103 | a type has no messages exactly when it does not occur in the log |
| Sorting.SortStrings | api/mavexplorer_api.py:106 | the result is strictly increasing in code-point order and holds exactly the elements of the set |
| Sorting.SortedOfUnique | api/mavexplorer_api.py:106 | two sorted duplicate-free listings of the same set are equal, so `sorted(list(s))` is determined by `s` |
| Sorting.SortTimes | server/analyze_server.py:79 | the distinct timestamps come back strictly ascending, same elements, same number |
| Terms.MatchAt | api/mavexplorer_api.py:123-124 | a match at a position spans a word, a dot and a word, its text is exactly `msg.field`, and the field group is greedy (the match ends at the end of the text or before a non-word character) |
| Terms.MatchAtIff | api/mavexplorer_api.py:123-124 | a match starts at a position exactly when word characters from there are followed by a dot and a word character |
| Terms.FindFromLeftmost | api/mavexplorer_api.py:124-132 | `re.findall` yields the match at the first position where one starts, then resumes at that match's end; with no such position it yields nothing; so `matches[0]` is the leftmost match |
| Terms.StartsMeaning | api/mavexplorer_api.py:124 | the terms found are matches at positions at or after the scan start, in increasing order, each starting at or after the end of the previous one |
| Terms.FindAllEmptyIff | api/mavexplorer_api.py:124-127 | `re.findall` yields nothing exactly when no word character, dot, word character triple occurs |
| Terms.FindFromNonEmpty | api/mavexplorer_api.py:124 | a word-dot-word triple at or after the scan position makes the scan find a term |
| Terms.FindFromWitness | api/mavexplorer_api.py:124 | a non-empty scan implies a word-dot-word triple at or after its start |
| Terms.KeyRoundTrip | api/mavexplorer_api.py:179-181 | extracting the terms of `f"{msg_type}.{field}"` gives back exactly that one term |
| Stream.Timeseries | api/index.py:151-169 | with a non-zero `decimate` the series is every `decimate`-th point, from the first, of the messages of type `msg` whose field is present and not None; with zero it fails exactly when there is such a message (ZeroDivisionError), and is empty otherwise |
| Stream.EveryNthSubsequence | api/index.py:167-168 | for a positive step the first counted point is kept, and output points `j < k` are the counted points at positions `j * d < k * d`, so the output is an order-preserving subsequence |
| Stream.EveryNthIndex | api/index.py:167-168 | point `j` of the output is point `j * decimate` of the counted points, and no counted point beyond the last kept stride is missed |
| Stream.EveryNthOne | api/index.py:142 | with the default `decimate` of 1 every counted point is returned |
| Stream.FindGraph | api/index.py:203-209 | the first definition with that name, None exactly when no definition has it |
| ApiMavExplorer.StripMeaning | api/mavexplorer_api.py:42 | `str.strip()`: a contiguous slice with no leading or trailing whitespace, whatever was removed being whitespace |
| ApiMavExplorer.ExpressionsMembers | api/mavexplorer_api.py:44-47 | an expression is kept exactly when it is the stripped form of some present, non-empty `<expression>` text |
| ApiMavExplorer.ExpressionsEmpty | api/mavexplorer_api.py:44-47 | the expression list is empty exactly when every text is missing or empty |
| ApiMavExplorer.GraphOfMeaning | api/mavexplorer_api.py:39-51 | a graph is dropped exactly when it has no non-empty expression; its name defaults to `Unnamed`, `expression` is the first expression, `filename` the XML path |
| ApiMavExplorer.LoadGraphDefinitions | api/mavexplorer_api.py:31-56 | no file or a parse error gives `[]`; otherwise the graphs built from the elements in order |
| ApiMavExplorer.CatalogueMembers | api/mavexplorer_api.py:39-51 | a definition is in the catalogue exactly when some `<graph>` element yields it |
| ApiMavExplorer.ExtractFlightModes | api/mavexplorer_api.py:59-76 | one record per decoder span, in order, with `duration == end - start`; `[]` when the decoder raises |
| ApiMavExplorer.NumericFieldsMeaning | api/mavexplorer_api.py:95-99 | a key is a numeric field of a type exactly when it is not `_time` and some message of that type has an int or float under it |
| ApiMavExplorer.AnalyzeFileBasic | api/mavexplorer_api.py:79-112 | the summary has one entry per occurring type, `count` is its number of messages, `fields` its sorted numeric keys; flight modes as extracted |
| ApiMavExplorer.SummaryUnique | server/mavexplorer_api.py:85-91 | two summaries of the same log are equal, so the api and server variants report the same counts and field lists |
| ApiMavExplorer.EvaluateExpression | api/mavexplorer_api.py:115-155 | the series is the first term's run over the log: unstamped messages skipped uncounted, None values counted without a point, a point when `idx % decimate == 0` |
| ApiMavExplorer.ExprRunDecimates | api/mavexplorer_api.py:134-153 | for a positive `decimate` and convertible values, `idx` ends at the number of stamped messages of the type and the series is every `decimate`-th of them with a value |
| ApiMavExplorer.EvaluateGraphOnFile | api/mavexplorer_api.py:158-188 | name and description are the graph's; the series map holds, for each term key of a non-blank expression, that key's series when it is non-empty |
| ApiMavExplorer.StoredSeriesOfTerm | api/mavexplorer_api.py:179-183 | a term's key is stored exactly when its evaluation is non-empty, and then holds that evaluation |
| ApiMavExplorer.ExprRunZero | api/mavexplorer_api.py:149-153 | with a zero `decimate` no point is ever appended: the `idx % decimate` raises on the first candidate and the bare `except` skips it |
| ApiMavExplorer.SeriesForZero | api/mavexplorer_api.py:170-183 | with a zero `decimate` the graph stores no series for any key |
| ApiMavExplorer.TermKeysContain | api/mavexplorer_api.py:171-180 | every term of every non-blank expression becomes a candidate key |
| ServerMavExplorer.RowOfMeaning | server/mavexplorer_api.py:73-80 | a row holds `_time` and exactly the int or float fields; `_time` is the normalised time unless the message itself has a numeric `_time` |
| ServerMavExplorer.CollectRows | server/mavexplorer_api.py:68-81 | the rows of each type are the rows of its messages in log order, and the types are exactly those occurring |
| ServerMavExplorer.GroupRowsGrouped | server/mavexplorer_api.py:81 | the `setdefault(...).append` grouping lists, per type, one row per message in order |
| ServerMavExplorer.RowKeysNumeric | server/mavexplorer_api.py:85-90 | the union of a type's row keys minus `_time` equals the api variant's numeric-field set |
| ServerMavExplorer.AnalyzeFileBasic | server/mavexplorer_api.py:63-93 | `count == len(rows)` per type and `fields` is the sorted union of row keys minus `_time`, the same summary as the api variant |
| ServerMavExplorer.LastSeenIsLast | server/mavexplorer_api.py:110 | after a prefix, the last-seen map sends each type to its latest message |
| ServerMavExplorer.StampOf | server/mavexplorer_api.py:112-114 | the time is `_timestamp` when truthy, else `time_usec` when truthy, else `time`, then normalised |
| ServerMavExplorer.ValueOf | server/mavexplorer_api.py:117-120 | an evaluator exception reads as None |
| ServerMavExplorer.Initial | server/mavexplorer_api.py:99 | every listed expression starts with an empty series |
| ServerMavExplorer.Run | server/mavexplorer_api.py:99-128 | the series keys are exactly the graph's expressions, even those never evaluated |
| ServerMavExplorer.EvaluateGraphOnFile | server/mavexplorer_api.py:96-128 | fails exactly when the specification run fails (zero `decimate` meeting a value); otherwise the graph's name and the run's series |
| ServerMavExplorer.RunPerExpression | server/mavexplorer_api.py:103-125 | with a non-zero `decimate` each expression's series is, for every message at a global index divisible by `decimate`, one point per listing of the expression whose value is not None |
| ServerMavExplorer.PointsFromDecimatedMessages | server/mavexplorer_api.py:116-125 | every stored point comes from a message whose index is a multiple of `decimate`, with that message's time and a non-None value |
| ServerMavExplorer.FeedEach | server/mavexplorer_api.py:116-124 | one message appends to each listed expression one point per listing when its index is taken and its value is not None, nothing otherwise |
| ServerMavExplorer.RunZeroDecimate | server/mavexplorer_api.py:123 | with `decimate` 0 the run succeeds exactly when every evaluation is None, and then every series is empty |
| AnalyzeServer.Merge | server/analyze_server.py:54-72 | the time table only stores fields of the type's field list |
| AnalyzeServer.MergeKeys | server/analyze_server.py:60-71 | a time is a table key exactly when a message of the type has that non-None time |
| AnalyzeServer.MergeLastWrite | server/analyze_server.py:65-72 | a field is set at a time exactly when some message at that time carries it, and holds the value of the last such message |
| AnalyzeServer.KeyOrderKeys | server/analyze_server.py:71 | the first-seen order of times lists exactly the table's keys, without repeats |
| AnalyzeServer.MergeTimes | server/analyze_server.py:54-72 | the streaming loop builds exactly the time table and its key order |
| AnalyzeServer.BuildCsv | server/analyze_server.py:76-81 | header `['_time'] + fields`; one row per distinct time, strictly ascending; each cell the stored value or `''` |
| AnalyzeServer.BuildAllCsvs | server/analyze_server.py:48-81 | a CSV exists exactly for the types with a non-empty field list, each built from the log |
| AnalyzeServer.Server.Analyze | server/analyze_server.py:24-86 | 400 without a file, 500 without the decoder or on a parse failure, registry unchanged on failure; success whenever a file came, the decoder is installed and the log decodes; then only the fresh token is added, mapped to the tmpdir, path, summary and CSVs it returns; every upload keeps the summary and the CSV files of its own log |
| AnalyzeServer.Server.Download | server/analyze_server.py:89-101 | 400 for a bad token, then 400 without `msg`, for a plain type name as `msg`, 404 exactly when the type is not in the analysis or has no fields, and success exactly when a CSV was written for it; that CSV is the one written at upload: header `_time` plus the type's sorted numeric fields, one row per distinct time in ascending order, each cell the last value written or `''` |
| AnalyzeServer.Server.GraphEval | server/analyze_server.py:114-139 | `int()` failure first, then token and name 400s, 404 exactly when no definition has the name; for the first definition with the name, success exactly when its run succeeds and otherwise the 500 `failed to evaluate graph`; on success that run's series |
| AnalyzeServer.Server.Timeseries | server/analyze_server.py:142-178 | the token and parameter checks, then the decimated samples; failure exactly for a zero `decimate` with a point to take |
| ApiIndex.LinesMeaning | api/index.py:119-122 | CSV line `k` is the `k`-th message of the type: its normalised time, then each listed field's value or `''` |
| ApiIndex.CsvLines | api/index.py:113-123 | the download loop writes one line per message of the type, in log order |
| ApiIndex.Take | api/index.py:251 | at most `limit` elements, a prefix, and all of them when fewer |
| ApiIndex.OfTypePrefix | api/index.py:252 | the messages of a type seen so far are a prefix of all of them |
| ApiIndex.DumpLoop | api/index.py:247-257 | the first `limit` messages of the type in log order, as timestamp and data |
| ApiIndex.FirstStampMeaning | api/index.py:285-288 | `first_timestamp` is the `_timestamp` of the earliest stamped message, None when none is stamped |
| ApiIndex.LastStampMeaning | api/index.py:285-289 | `last_timestamp` is the `_timestamp` of the latest stamped message, None when none is stamped |
| ApiIndex.Duration | api/index.py:291 | their difference when both are truthy, otherwise 0 |
| ApiIndex.ScanStamps | api/index.py:276-289 | the stats loop counts every message and finds the first and last timestamps |
| ApiIndex.ParamTableFails | api/index.py:316-320 | the parameter scan raises exactly when some `PARM` message lacks `Name` or `Value` |
| ApiIndex.ParamLastWins | api/index.py:314-320 | the table's names are exactly the `PARM` names, each mapped to the value of the last `PARM` message with that name |
| ApiIndex.ParamLoop | api/index.py:314-320 | the loop builds exactly that table or fails as that table does |
| ApiIndex.Api.Analyze | api/index.py:63-86 | 400 without a file, 500 without the decoder or on a parse failure, registry unchanged on failure; success whenever a file came, the decoder is installed and the log decodes; then only the fresh token is added, with the summary it returns |
| ApiIndex.Api.Download | api/index.py:88-134 | 400 token, 400 `msg`, 404 unknown type, 400 no fields, success for every known type with fields: header `['_time'] + fields` and one line per message, as many as the summary's count |
| ApiIndex.Api.Timeseries | api/index.py:136-174 | `int()` failure first, then token and parameter 400s, then the decimated samples; failure exactly for a zero `decimate` with a point to take |
| ApiIndex.Api.GraphEval | api/index.py:189-216 | `int()` failure first, then token and name 400s, 404 exactly when no definition has the name, success whenever one has it (the evaluation never fails), with the first match's evaluation |
| ApiIndex.Api.ListMessages | api/index.py:223-231 | 400 exactly for a bad token and success for every valid one, with the stored summary, which summarises the uploaded log |
| ApiIndex.Api.DumpMessages | api/index.py:233-262 | `int()` failure first, then token and type 400s; otherwise at most `limit` messages of the type in log order, `count` their number |
| ApiIndex.Api.GetStats | api/index.py:264-303 | 400 exactly for a bad token and success for every valid one, with all messages counted, one type count per occurring type, first and last timestamps, and the duration rule |
| ApiIndex.Api.GetParams | api/index.py:305-325 | 400 for a bad token, 500 exactly when the parameter scan raises and success whenever it does not, with the last-write-wins table and its size |
| MongoStore.Lookup | api/mongo_client.py:200 | `get` finds a stored record under the key, None exactly when the key is absent |
| MongoStore.PutLookup | api/mongo_client.py:167 | after storing, the key reads back the new record and every other key reads as before |
| MongoStore.PutDistinct | api/mongo_client.py:167 | storing keeps keys distinct, and a new key is appended after the existing ones |
| MongoStore.RemoveLookup | api/mongo_client.py:207 | after `del`, the key is absent and every other key reads as before |
| MongoStore.RemoveDistinct | api/mongo_client.py:338 | deleting keeps keys distinct and leaves the key absent |
| MongoStore.DetachMeaning | api/mongo_client.py:208-209 | the cascade filter keeps exactly the records whose `profile_id` differs, with distinct keys |
| MongoStore.DetachOrder | api/mongo_client.py:208-209 | the cascade keeps the surviving records in their insertion order |
| MongoStore.DetachThenMatching | api/mongo_client.py:208-209 | after the cascade, listing by the deleted profile id returns nothing |
| MongoStore.MatchingMeaning | api/mongo_client.py:285 | a filtered listing holds exactly the stored records whose field equals the value |
| MongoStore.MatchingOrder | api/mongo_client.py:285 | a filtered listing keeps insertion order: a matching record sits at the position counting the matching records before it, and later matches come after it |
| MongoStore.MatchingAbsent | api/mongo_client.py:346-347 | records without `analysis_id` make `get_graphs` return nothing |
| MongoStore.SerializedMeaning | api/mongo_client.py:352-362 | None or an empty document gives None; otherwise `_id` is gone, `id` is `str` of it, no top-level datetime remains, and every other value is kept or ISO-formatted |
| MongoStore.SerializedIdempotent | api/mongo_client.py:352-362 | serializing a serialized document changes nothing |
| MongoStore.Serialize | api/mongo_client.py:352-362 | the rename and the datetime loop compute the serialized document |
| MongoStore.MemoryStore.CreateProfile | api/mongo_client.py:153-169 | an empty name gives None and changes nothing; otherwise the record is stored under its own id, read back by that id, and the other tables are untouched |
| MongoStore.MemoryStore.GetUserProfiles | api/mongo_client.py:185-187 | every profile in insertion order, whatever the user id |
| MongoStore.MemoryStore.GetAllProfiles | api/mongo_client.py:192-194 | the same list as `get_user_profiles` for any user |
| MongoStore.MemoryStore.GetProfile | api/mongo_client.py:198-200 | the record stored under the id, None exactly when there is none |
| MongoStore.MemoryStore.DeleteProfile | api/mongo_client.py:204-212 | True exactly for a known id: the profile is removed and the saved graphs and analyses with that `profile_id` are filtered out; False changes nothing |
| MongoStore.MemoryStore.SaveAnalysisResult | api/mongo_client.py:220-240 | the record, without the file bytes, is stored under its own id; other tables untouched |
| MongoStore.MemoryStore.GetAnalysisByToken | api/mongo_client.py:272-278 | the first record in insertion order whose `token` matches, None exactly when none does |
| MongoStore.MemoryStore.GetAnalysisResults | api/mongo_client.py:283-285 | exactly the analyses whose `profile_id` is the id |
| MongoStore.MemoryStore.SaveGraphToProfile | api/mongo_client.py:290-311 | an empty name gives None and changes nothing; otherwise the record is stored under its own id; other tables untouched |
| MongoStore.MemoryStore.GetProfileSavedGraphs | api/mongo_client.py:329-331 | exactly the saved graphs whose `profile_id` is the id |
| MongoStore.MemoryStore.DeleteSavedGraph | api/mongo_client.py:335-341 | True exactly for a known id, which is then absent; False changes nothing; other tables untouched |
| MongoStore.MemoryStore.GetGraphs | api/mongo_client.py:345-347 | exactly the saved graphs whose `analysis_id` is the id |

## Left out

- The pymavlink decoder is not modelled: a log is a given message sequence. `flightmode_list` is a given list of spans and `mavutil.evaluate_expression` an uninterpreted evaluator parameter. The server variant's `add_message` is modelled as last message per type name; its extra keys for multi-instance messages are not.
- `getattr(m, field)` finding a non-field attribute of a message object is not modelled; only `to_dict()` fields are read.
- Floating point is not modelled: times and values are exact rationals, so 1e6 division and `float(v)` do not round. `float()` of a numeric string is treated as failing.
- `int()` is modelled only for `[+-]?[0-9]+`. Surrounding whitespace and digit underscores, which Python also accepts, are not.
- Error replies carry the fixed message prefix (`failed to parse log: `, `failed to evaluate graph: `, …) without the exception text that follows it.
- Flask routing, CORS, JSON key order, `send_file` and CSV text encoding are not modelled. A CSV is modelled as its header and rows of values, and the server's CSV files as tables kept with the upload.
- Temporary directories, file saving and the mongo fallback's `_load_from_files`/`_save_to_files` are I/O. Directory, path, tokens (`uuid4`) and clock readings are parameters. The store's constructor takes the three loaded dicts.
- The server's CSV pass skips a type when re-reading the file raises. This is not modelled, since re-reading the given sequence cannot fail.
- Reading `mavgraphs.xml` is abstracted to its parsed `<graph>` elements (None for a missing file or a parse error). The server variant's `load_graph_definitions` and both `/api/graphs` listings are not part of this model: the graph handlers take the definition list as a parameter.
- The connected MongoDB branches, `_coerce_object_id`, api/supabase_client.py, migrate_to_mongodb.py and run_backend.py are database and process plumbing. So is the ASGI wrapper at the end of api/index.py.
- api/mongo_client.py:263-270 are indented deeper than the `return` on line 262, so Python rejects the file with an IndentationError and the module cannot be imported as written. The model assumes those eight lines are deleted, so `save_analysis_result` ends at line 262.
- Terms.IsWordChar: Python 3's `\w` on `str` matches every Unicode letter and digit. The model takes ASCII letters, digits and `_` only, so a non-ASCII message or field name yields no term here.
- MongoStore.Str: `str()` of a list or dict `_id` (a Python repr) is not modelled; such an `_id` becomes the empty string.
- MongoStore.MemoryStore.GetAnalysisByToken: the token is compared as an optional string, so a None token matches records stored without one, as in Python.
- Chunked upload reassembly appears in no source file and is not modelled.
- AnalyzeServer.Server.Download: the source joins `msg` into the file path `<tmpdir>/csv/<msg>.csv` and serves whatever file exists there. The model looks `msg` up among this upload's CSV tables instead. A `msg` holding `/` or `..` (`./GPS`, `../../<other upload dir>/csv/GPS`, an absolute path) reaches a file the model answers with 404. The model's 404 and success conditions hold for a plain type name only.

## Notes on the source

- api/index.py:26-29 imports `server.mavexplorer_api` first and falls back to the sibling `mavexplorer_api` module. The model follows the serverless layout, where api/index.py runs against api/mavexplorer_api.py. Its graph evaluation never raises, so `GraphEval` there has no 500 branch beyond argument parsing.
- An unknown token is answered with 400 "valid token required", not 404, by every read endpoint of both variants. The model follows the code.
- `decimate` (api/index.py:142, 194 and server/analyze_server.py:121, 150) and `limit` (api/index.py:238) are converted before the token is checked. A malformed value therefore gives a 500 even without a valid token, and the token check comes second in the model's contracts.
- A zero `decimate` is not guarded. In the timeseries handlers and in the server graph evaluation it raises ZeroDivisionError (a 500) as soon as a point would be taken. In api/mavexplorer_api.py:149 the bare `except` swallows it, so the api graph series come back empty (`ApiMavExplorer.SeriesForZero`).
- server/analyze_server.py:96-99 builds the CSV path from the unvalidated `msg` parameter. A `msg` such as `../../<another upload's tmpdir>/csv/GPS` downloads another upload's CSV with this upload's token, and an absolute `msg` makes `os.path.join` drop the upload directory altogether.
