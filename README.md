# mock-rest-server, modelled in Dafny

This project models the core of mock-rest-server, a small Python HTTP server that keeps JSON records in memory, serves them over REST, and saves them to a JSON file now and then. It models two generations of the code side by side:

- **the `src` version** (`src/mock_rest_server/`):
  - `JsonDatabase`, the record store (`Database.JsonDatabase`, a class whose methods update `records`, `dirty`, `data_changed` and `last_save` in place);
  - the wildcard query filters of `data_filters.py` (`DataFilters`);
  - the request handler's decisions in `server.py` (`Server`): path shape, content-type gate, search filters, handler dispatch, and the error-to-status table of section 15 of RFC 9110.
- **the older version** (`mock_rest_server/`):
  - its `JsonDatabase`, with the `init`/`instance` singleton (`LegacyDatabase`);
  - its inline filter functions, whose contains-test reads the field before checking for it (`LegacyFilters`);
  - its `do_*` handlers (`LegacyServer`).

Shared pieces:

- `OrderedDicts`: Python's insertion-ordered `dict`.
  - Assigning keeps an existing key in place and appends a new one.
  - `del` removes the key.
  - `.update` merges.
- `JsonValues`: JSON values, Python truthiness, hashability (whether a value can be a dict key), and a `str()` rendering.
- `Text`: `strip`/`lstrip`/`rstrip`, `split`/`join`, an ASCII `casefold`, and `sorted` for names.
- `StoreModel`: the store `resource -> id -> record` as nested ordered dicts. Every database operation is a specification function, with lemmas stating its whole effect:
  - the result or the error;
  - which entry changed;
  - that nothing else did;
  - the invariants it keeps.
- `Snapshots`: both on-disk formats and their loaders. The round-trip lemmas state that what is saved loads back as the store.
  - The `src` format is resource -> list of records.
  - The older format is the nested map itself.
- `Persistence`: the database file as found on disk, and the debounce delay. Time is whole ticks.

Each class method is proved against its specification function. The `ensures` of `Create` says its new `records` and its result are exactly those of `CreateSpec` on the old `records`. The lemmas about `CreateSpec` then say what that means.

The request layer has the same two levels:
- `Server.Plan` / `LegacyServer.LegacyPlan` are the decision a handler makes.
- `Server.Perform` / `LegacyServer.LegacyPerform` are what running that decision against the store sends back.
- `Server.Respond` / `LegacyServer.LegacyRespond` are the methods that do it on the live database object.

In these places the model follows the code:
- `available_resources` returns every resource key, including one left empty by `delete` or created by a failed `update` on the `defaultdict`, so a resource with no records is listed too.
- A query parameter given twice yields one filter per value. The filters are ANDed.
- An id taken from the record body can be any hashable JSON value, not only a string.

## Model

| member | source | states |
|---|---|---|
| OrderedDicts.ODict.Put | src/mock_rest_server/database.py:178 | `d[k] = v`: the value map is updated at `k` only; an existing key keeps its position, a new key goes last; keys stay distinct |
| OrderedDicts.ODict.Remove | src/mock_rest_server/database.py:231 | `del d[k]`: exactly `k` leaves both the map and the key order, the other keys keep their order |
| OrderedDicts.ODict.Values | src/mock_rest_server/database.py:141 | `.values()` lists the value of each key, one per key, in key order |
| OrderedDicts.ODict.Project | src/mock_rest_server/database.py:147-150 | the field-projection comprehension keeps exactly the keys that are in `fields`, in the record's order, with their values |
| OrderedDicts.ODict.Update | src/mock_rest_server/database.py:216 | `.update(patch)`: the patch's values win, every other stored key is kept, and the key order is the old keys followed by the patch's new keys, each once, in the order they first come in the patch |
| JsonValues.Str | src/mock_rest_server/data_filters.py:12 | `str(value)` is empty exactly for the empty string |
| Text.StripLeft | src/mock_rest_server/data_filters.py:65 | `lstrip(c)` removes a run of `c` from the front and no more: the input is that run followed by the result, which does not start with `c` |
| Text.StripRight | src/mock_rest_server/data_filters.py:68 | `rstrip(c)`: the input is the result followed by a run of `c`, and the result does not end with `c` |
| Text.Strip | src/mock_rest_server/data_filters.py:62 | `strip(c)` neither starts nor ends with `c` |
| Text.StripShape | src/mock_rest_server/data_filters.py:62 | `strip(c)` takes off a run of `c` at each end and nothing else: `s` is those runs around the result |
| Text.Split | src/mock_rest_server/server.py:206 | `split("/")` gives at least one part, no part contains the separator, and joining the parts gives the input back |
| Text.SplitJoin | src/mock_rest_server/server.py:206 | splitting a join of separator-free parts gives the parts back |
| Text.CaseFold | src/mock_rest_server/data_filters.py:12 | `casefold()` on ASCII: same length, each letter lower-cased |
| Text.SortedNames | src/mock_rest_server/database.py:129 | `sorted(set(names))` is strictly ascending and holds exactly the given names |
| Text.AscendingUnique | src/mock_rest_server/database.py:129 | two strictly ascending lists with the same elements are equal, so the sorted listing is determined by the set of names |
| DataFilters.BuildQueryFilterShape | src/mock_rest_server/data_filters.py:57-71 | the filter kind is contains iff the value starts and ends with `*`, ends-with iff only starts, starts-with iff only ends, equals otherwise; the search is the value without its leading or trailing `*` run and holds no edge `*`; an inner `*` is literal |
| DataFilters.QueryPatternRoundTrip | src/mock_rest_server/data_filters.py:57-71 | writing a search word as `*w*`, `*w`, `w*` or `w` builds back the contains, ends-with, starts-with or equals filter on `w` |
| DataFilters.AbsentFieldNeverMatches | src/mock_rest_server/data_filters.py:7-54 | no filter matches a record that lacks its field |
| DataFilters.EqualsImpliesOthers | src/mock_rest_server/data_filters.py:7-54 | a record equal to `s` also contains `s`, and starts and ends with `s` when its value is truthy |
| DataFilters.EmptyContainsMatchesPresent | src/mock_rest_server/data_filters.py:21-22 | the pattern `*` (contains with empty search) matches exactly the records that have the field |
| DataFilters.FalsyFailsAffixes | src/mock_rest_server/data_filters.py:32-52 | starts-with and ends-with never match a falsy value (`0`, `""`, `false`, `null`, empty list or object), whatever the search |
| DataFilters.SearchCaseInsensitive | src/mock_rest_server/data_filters.py:7-54 | case-folding the search word does not change which records match |
| DataFilters.ValueCaseInsensitive | src/mock_rest_server/data_filters.py:7-54 | two field values that fold to the same text are matched alike |
| StoreModel.Vivify | src/mock_rest_server/database.py:51 | the `defaultdict` lookup adds an empty resource only when it is missing and otherwise changes nothing |
| StoreModel.FindAfterInsert | src/mock_rest_server/database.py:178 | after `records[r][id] = rec` the record is found under its id, every other entry is as it was, and `r` is a resource |
| StoreModel.FindAfterVivify | src/mock_rest_server/database.py:211 | touching `records[r]` finds every record as before and adds at most the resource `r` |
| StoreModel.FindAfterDelete | src/mock_rest_server/database.py:231 | after `del records[r][id]` exactly that record is gone and the resource names and their order are unchanged |
| StoreModel.ResolveId | src/mock_rest_server/database.py:188-191 | the resolved id, when truthy, is written in the body's id field; every other field of the body is kept unchanged |
| StoreModel.ResolveIdCases | src/mock_rest_server/database.py:188-191 | a truthy explicit id wins and is stamped into the body, else the body's own id field is used, else the id stays falsy and the body is untouched |
| StoreModel.ResolveCreateId | src/mock_rest_server/database.py:165-172 | create's id is always truthy and in the id field: the resolved id when truthy, else the generated uuid |
| StoreModel.EmptyIdArgumentIsAbsent | src/mock_rest_server/database.py:165-172 | an explicit id of `""` (from `POST /r/`) resolves exactly as no id at all |
| StoreModel.Select | src/mock_rest_server/database.py:143-145 | the listing keeps exactly the stored records that pass every filter, in stored order |
| StoreModel.WhereSelect | src/mock_rest_server/database.py:144-145 | wrapping the rows in one more `filter(...)` equals selecting with that filter added to the list (filters are ANDed) |
| StoreModel.SelectNone | src/mock_rest_server/database.py:143 | with no filters every record is listed |
| StoreModel.Project | src/mock_rest_server/database.py:146-150 | with `fields` each listed record is cut to those fields (the id field is not forced in); without, records are unchanged |
| StoreModel.ReadSpec | src/mock_rest_server/database.py:153-161 | `read` succeeds exactly when the resource holds the id, and then returns the stored record |
| StoreModel.CreateSpecEffect | src/mock_rest_server/database.py:163-182 | `DuplicateValue` iff the resolved id is already stored; success iff it is new; a duplicate leaves the store as it was; on success the answer is the stored record, stored under the id with the id field set, and nothing else changes; on error no record changes (an id that cannot be a key still adds the resource, as the `defaultdict` does) |
| StoreModel.SetSpecEffect | src/mock_rest_server/database.py:184-200 | `MissingId` iff no truthy id resolves, and then the store is untouched; otherwise the entry is overwritten (whether or not it existed), the answer is the stored record, and nothing else changes; on error no record changes |
| StoreModel.UpdateSpecEffect | src/mock_rest_server/database.py:202-220 | success iff the id is stored; the result is the stored record merged with the patch (patch keys win, old keys kept in order); `NotFound` otherwise with every record unchanged; the resource is added even on failure |
| StoreModel.DeleteSpecEffect | src/mock_rest_server/database.py:222-235 | success iff the id is stored; exactly that record disappears; the resource names stay, even when it was the last record |
| StoreModel.ReadAfterCreate | src/mock_rest_server/database.py:163-182 | reading back a record just created under an explicit id returns what create returned |
| StoreModel.ListEverything | src/mock_rest_server/database.py:139-151 | listing with no fields and no filters returns every stored record in order |
| StoreModel.CreateKeepsIds | src/mock_rest_server/database.py:163-182 | create keeps every record stored under the value of its own id field, with a hashable id |
| StoreModel.SetKeepsIds | src/mock_rest_server/database.py:184-200 | set keeps every record stored under its own id |
| StoreModel.UpdateKeepsIds | src/mock_rest_server/database.py:202-220 | update keeps every record stored under its own id (the merged record's id field is the resolved id) |
| StoreModel.DeleteKeepsIds | src/mock_rest_server/database.py:222-235 | delete keeps every remaining record stored under its own id |
| StoreModel.CreateKeepsRecordsValid | src/mock_rest_server/database.py:163-182 | create keeps every stored record a well-formed JSON object |
| StoreModel.SetKeepsRecordsValid | src/mock_rest_server/database.py:184-200 | set keeps every stored record a well-formed JSON object |
| StoreModel.UpdateKeepsRecordsValid | src/mock_rest_server/database.py:202-220 | update keeps every stored record a well-formed JSON object |
| StoreModel.DeleteKeepsRecordsValid | src/mock_rest_server/database.py:222-235 | delete keeps every stored record a well-formed JSON object |
| Persistence.DebounceDelay | src/mock_rest_server/database.py:88-92 | the loop waits only while less than `persist_period_limit` has passed since the last save, and then exactly until it has |
| Snapshots.LoadTable | src/mock_rest_server/database.py:72-75 | `{record[id_field]: record for record in list}` is a valid ordered dict, or fails on a non-object, a missing id field or an unhashable id |
| Snapshots.LoadResources | src/mock_rest_server/database.py:71-77 | loading each resource's list gives a well-formed store |
| Snapshots.Load | src/mock_rest_server/database.py:69-80 | a file's JSON loads to a well-formed store or fails as a whole |
| Snapshots.LoadAfterDump | src/mock_rest_server/database.py:111-115 | a store whose records sit under their own ids is saved as resource -> list of records and loads back as exactly the same store |
| Snapshots.LoadFacts | src/mock_rest_server/database.py:69-78 | whatever loads holds well-formed records each under its own id |
| Snapshots.DumpWellFormed | src/mock_rest_server/database.py:111-115 | what `_persist` writes is well-formed JSON |
| Snapshots.IntIdSurvivesRestart | src/mock_rest_server/database.py:111-115 | in the list format a record with the integer id 5 comes back under the integer id 5 |
| Snapshots.LegacyLoad | mock_rest_server/database.py:62 | the older file loads as resource -> id -> record, with every id a string |
| Snapshots.LegacyLoadAfterDump | mock_rest_server/database.py:216-224 | a store whose ids are strings is dumped as the nested map and loads back as exactly the same store |
| Snapshots.LegacyIntIdComesBackAsString | mock_rest_server/database.py:224 | a record stored under the integer id 5 comes back under the string id `"5"`, so the store does not survive a restart |
| Snapshots.LegacyLoadFacts | mock_rest_server/database.py:62 | whatever loads holds well-formed records under hashable ids |
| Snapshots.LegacyDumpWellFormed | mock_rest_server/database.py:224 | what the older `_persist` writes is well-formed JSON |
| Database.Loaded | src/mock_rest_server/database.py:60-80 | the constructor starts empty without a readable JSON file, and from the file's store when it loads |
| Database.LoadedFacts | src/mock_rest_server/database.py:69-78 | the starting store holds well-formed records each under its own id |
| Database.ApplyFilters | src/mock_rest_server/database.py:143-145 | the loop over filters leaves exactly `Select(all, filters)` |
| Database.JsonDatabase.constructor | src/mock_rest_server/database.py:44-80 | the new database holds the loaded store, with `dirty` and the signals clear and `last_save == -1` |
| Database.JsonDatabase.AvailableResources | src/mock_rest_server/database.py:127-129 | the resource names, each once, sorted |
| Database.JsonDatabase.Read | src/mock_rest_server/database.py:153-161 | the result is `ReadSpec` of the store |
| Database.JsonDatabase.ListResource | src/mock_rest_server/database.py:131-151 | the result is `NotFound` for an unknown resource, else the selected and projected records |
| Database.JsonDatabase.Create | src/mock_rest_server/database.py:163-182 | the new records and the result are those of `CreateSpec` on the old records; `dirty` and `data_changed` are set exactly on success; nothing else changes |
| Database.JsonDatabase.Set | src/mock_rest_server/database.py:184-200 | the new records and the result are those of `SetSpec`; the flags are set exactly on success |
| Database.JsonDatabase.Update | src/mock_rest_server/database.py:202-220 | the new records and the result are those of `UpdateSpec`; the flags are set exactly on success |
| Database.JsonDatabase.Delete | src/mock_rest_server/database.py:222-235 | the new records and the result are those of `DeleteSpec`; the flags are set exactly on success |
| Database.JsonDatabase.Persist | src/mock_rest_server/database.py:98-118 | `last_save` becomes now; without a path nothing is written, `dirty` stays, and the message is printed once; otherwise the file holds the dump, the flags clear, and the file loads back as the records |
| Database.JsonDatabase.MaintainStep | src/mock_rest_server/database.py:82-96 | one wake of the loop: saves exactly when `dirty`, after waiting out the debounce; a save writes the dump of the records (which loads back as them) and clears both flags, a skipped or raising save leaves the file and the flags as they were, and the skip warns once; a wake with nothing to save leaves `dirty` and the file as they were; the records, the stop signal and the period never change; the loop goes on unless stopped or the save raised |
| Database.JsonDatabase.Shutdown | src/mock_rest_server/database.py:120-125 | the period becomes 0 and both the stop and the change signal are set; records untouched |
| LegacyFilters.Check | mock_rest_server/server.py:296-349 | one older filter raises `KeyError` exactly when it is a contains-filter and the field is absent |
| LegacyFilters.CheckAgrees | mock_rest_server/server.py:296-349 | when an older filter answers, it answers as the `src` filter does, and it always answers unless it is a contains-filter on an absent field |
| LegacyFilters.PassesAgrees | mock_rest_server/database.py:122-124 | a chain of older filters answers as `AllMatch`, and always answers when every contains-field is present |
| LegacyFilters.LegacySelectAgrees | mock_rest_server/database.py:110-130 | the older listing, when it does not raise, is exactly the `src` selection, and never raises when every contains-field is present |
| LegacyFilters.ContainsOnAbsentFieldRaises | mock_rest_server/server.py:312-316 | `GET /users?name=*a*` over a record without `name` raises `KeyError('name')` where the corrected filter lists nothing |
| LegacyDatabase.LegacyLoaded | mock_rest_server/database.py:52-64 | the older constructor starts empty without a readable JSON file, from the file's map when it loads |
| LegacyDatabase.LegacyLoadedFacts | mock_rest_server/database.py:59-64 | the starting store holds well-formed records under hashable ids |
| LegacyDatabase.LegacyListAgrees | mock_rest_server/database.py:110-130 | the older listing equals the `src` listing unless it raises `KeyError`, and it cannot raise when every contains-field is present |
| LegacyDatabase.CreateKeepsKeysHashable | mock_rest_server/database.py:142-161 | create keeps every id a possible dict key, so the map can be dumped |
| LegacyDatabase.SetKeepsKeysHashable | mock_rest_server/database.py:163-179 | set keeps every id a possible dict key |
| LegacyDatabase.UpdateKeepsKeysHashable | mock_rest_server/database.py:181-199 | update keeps every id a possible dict key |
| LegacyDatabase.DeleteKeepsKeysHashable | mock_rest_server/database.py:201-214 | delete keeps every id a possible dict key |
| LegacyDatabase.LegacyJsonDatabase.constructor | mock_rest_server/database.py:41-65 | the new database holds the loaded map with `dirty` and the signals clear and `last_save == -1` |
| LegacyDatabase.LegacyJsonDatabase.AvailableResources | mock_rest_server/database.py:106-108 | the resource keys in insertion order, each once, unsorted |
| LegacyDatabase.LegacyJsonDatabase.Read | mock_rest_server/database.py:132-140 | the result is `ReadSpec` of the store |
| LegacyDatabase.LegacyJsonDatabase.ListResource | mock_rest_server/database.py:110-130 | the result is the older listing, which may raise `KeyError` from a contains-filter |
| LegacyDatabase.LegacyJsonDatabase.Create | mock_rest_server/database.py:142-161 | the new records and result are those of `CreateSpec`, as in `src`; the flags are set exactly on success |
| LegacyDatabase.LegacyJsonDatabase.Set | mock_rest_server/database.py:163-179 | the new records and result are those of `SetSpec`; the flags are set exactly on success |
| LegacyDatabase.LegacyJsonDatabase.Update | mock_rest_server/database.py:181-199 | the new records and result are those of `UpdateSpec`; the flags are set exactly on success |
| LegacyDatabase.LegacyJsonDatabase.Delete | mock_rest_server/database.py:201-214 | the new records and result are those of `DeleteSpec`; the flags are set exactly on success |
| LegacyDatabase.LegacyJsonDatabase.Persist | mock_rest_server/database.py:216-224 | raises without a usable path, leaving everything as it was; otherwise the file holds the map, the flags clear, `last_save` is now, and string-keyed records load back unchanged |
| LegacyDatabase.LegacyJsonDatabase.LoopStep | mock_rest_server/database.py:82-96 | one wake of the loop: saves exactly when `dirty`, after the debounce; a save writes the nested dump and clears both flags, a save with no usable path raises and leaves the file and the flags as they were; the loop ends when stopped or when the save raised |
| LegacyDatabase.LegacyJsonDatabase.Shutdown | mock_rest_server/database.py:98-104 | the period becomes 0, stop is set, and the joined loop's last wake saves exactly when `dirty`: a save writes the nested dump and clears both flags, a raising one leaves the file, `dirty` and the set change signal as they were |
| LegacyDatabase.Registry.constructor | mock_rest_server/database.py:35 | no instance exists before `init` |
| LegacyDatabase.Registry.Init | mock_rest_server/database.py:74-80 | the first `init` creates the database from the file with the default period 30, clean, unsignalled and never saved (`last_save == -1`); a later one only warns and keeps the existing instance |
| LegacyDatabase.Registry.Instance | mock_rest_server/database.py:67-72 | `instance()` returns the singleton, or fails with `JsonDatabase.init has not yet been called.` |
| Server.FromDatabaseError | src/mock_rest_server/server.py:76-82 | `NotFound` -> 404, `DuplicateValue` and `MissingId` -> 400, any other store error -> 500, with body `{"error": args[0]}` |
| Server.Transmit | src/mock_rest_server/server.py:175-182 | the status always goes out; the Content-Type header and the JSON body go out exactly when the response has a body |
| Server.ShapeOfRoot | src/mock_rest_server/server.py:206-207 | a path is the root (`slices == [""]`) exactly when it is made only of `/` |
| Server.ShapeOfSegments | src/mock_rest_server/server.py:206-216 | `/r` is the collection `r`, `/r/x` the item `x` of `r`, and three or more segments a nested path, however many leading `/` |
| Server.ReadRequestBody | src/mock_rest_server/server.py:189-201 | the body is read exactly when Content-Type is exactly `application/json` and the body is JSON; otherwise a 400 with a body, naming the bad content type |
| Server.ParamFilters | src/mock_rest_server/server.py:276-277 | one filter per value, in order, each built by `build_query_filter` |
| Server.AppendParamFilters | src/mock_rest_server/server.py:276-277 | the inner loop appends exactly the filters of one parameter's values |
| Server.GenerateSearchFilters | src/mock_rest_server/server.py:269-278 | the nested loops produce exactly `SearchFilters(query)` |
| Server.FiltersForExact | src/mock_rest_server/server.py:269-278 | every filter comes from a value of a parameter other than `_f`, and every value of every such parameter gives its filter |
| Server.SearchFiltersConjoin | src/mock_rest_server/server.py:269-278 | a record passes the generated filters iff it matches every value of every non-`_f` parameter (repeated values are ANDed) |
| Server.HandlerFor | src/mock_rest_server/server.py:155-157 | a handler exists exactly for GET, POST, PUT, PATCH and DELETE in any case |
| Server.Plan | src/mock_rest_server/server.py:203-352 | per verb and path shape: root GET lists names and the others are 405; GET of an unknown resource is 404 first; `/r` and `/r/` list with `_f` fields and the search filters, `/r/x` reads; nested paths are unexpected-path; PUT, PATCH and DELETE without an id are missing-id; writes need an accepted body |
| Server.Perform | src/mock_rest_server/server.py:203-352 | a reply changes nothing; reads change nothing; a change answers 200, or 204 with no body for delete |
| Server.ReadAnswersStoredRecord | src/mock_rest_server/server.py:262-267 | GET `/r/x` answers the stored record with 200, or 404 with the store's message |
| Server.PostTrailingSlashIsNoId | src/mock_rest_server/server.py:210-223 | POST `/r/` passes the id `""`, which creates exactly as POST `/r` does |
| Server.RefusedRequestLeavesStore | src/mock_rest_server/server.py:189-197 | a write with the wrong content type, on the root or on a nested path, is refused with 400 or 405 and leaves the store untouched |
| Server.Execute | src/mock_rest_server/server.py:203-352 | running an action on the database object gives `Perform`'s response and store, with `dirty` set exactly on change |
| Server.PlanGet | src/mock_rest_server/server.py:231-267 | the GET handler, asking the database for its names, decides as `Plan` does |
| Server.Respond | src/mock_rest_server/server.py:161 | a handler call answers and changes the database as `Perform` of `Plan` on the old records |
| Server.DispatchAsWritten | src/mock_rest_server/server.py:155-157 | as written, the connection is dropped exactly when no handler exists |
| Server.Dispatch | src/mock_rest_server/server.py:155-171 | as intended, a method without a handler is answered 501, a missing database 500, and otherwise the handler runs |
| Server.UnknownMethodDropsConnection | src/mock_rest_server/server.py:155-157 | `HEAD` gets no answer as written, and 501 `Unsupported method (HEAD)` as intended |
| Server.Handle | src/mock_rest_server/server.py:139-187 | one request: what is transmitted and what the database becomes, following `Dispatch`, `Plan` and `Perform`: a write marks it dirty and signals the change; an immediate answer leaves the database untouched; the file, the save time, the stop signal, the period and the warning flag never change |
| LegacyServer.HandleDatabaseError | mock_rest_server/server.py:283-293 | the same status table as `src` (404, 400, 500) with body `{"error": args[0]}` |
| LegacyServer.InlineFilter | mock_rest_server/server.py:131-143 | the inline wildcard dispatch builds exactly `build_query_filter`'s filter |
| LegacyServer.AppendValueFilters | mock_rest_server/server.py:131-143 | the inner loop appends exactly the filters of one parameter's values |
| LegacyServer.LegacyGenerateSearchFilters | mock_rest_server/server.py:124-144 | the older loops produce exactly the `src` search filters |
| LegacyServer.LegacyReadBody | mock_rest_server/server.py:53-66 | the body is read exactly when Content-Type is exactly `application/json` and the body is JSON; a wrong type gets a bare 400 with no body |
| LegacyServer.LegacyPlan | mock_rest_server/server.py:38-244 | the `do_*` decisions: root GET lists, other root verbs 405 (POST stopping there), unknown resource 404, nested path unexpected-path, no id missing-id, wrong content type a bare 400 |
| LegacyServer.RoutingAgrees | mock_rest_server/server.py:38-244 | both versions reach the same operation with the same arguments, and refuse the same requests with the same status |
| LegacyServer.PostAsWritten | mock_rest_server/server.py:42-45 | off the root, `do_POST` as written is the corrected plan |
| LegacyServer.Failed | mock_rest_server/server.py:71-72 | a store error is answered by `handle_database_error` when it is a `JsonDatabaseError`; any other error ends the handler with nothing sent; nothing changes |
| LegacyServer.LegacyPerform | mock_rest_server/server.py:38-244 | at most one response is sent, none when an exception escapes; a reply or a read changes nothing; a change answers 200, or 204 for delete |
| LegacyServer.WrittenAgrees | mock_rest_server/server.py:67-74 | an older write answers as the `src` one, except that where `src` answers 500 the older handler sends nothing |
| LegacyServer.WritesAgree | mock_rest_server/server.py:38-244 | each write changes the store alike in both versions and answers alike, except the `src` 500 cases |
| LegacyServer.ListingsAgree | mock_rest_server/server.py:96-103 | a listing answers as in `src` unless the contains-filter's `KeyError` kills it, which needs a record without the field |
| LegacyServer.PostRootCreatesNamelessResource | mock_rest_server/server.py:42-45 | POST `/` as written sends 405 and then creates the record in a resource named `""`; the corrected plan stops at the 405 |
| LegacyServer.CreateAddsResource | mock_rest_server/database.py:156-159 | a successful or failed create leaves its resource in the store |
| LegacyServer.LegacyExecute | mock_rest_server/server.py:38-244 | running an action on the older database object gives `LegacyPerform`'s responses and store, with `dirty` set exactly on change |
| LegacyServer.LegacyPlanGet | mock_rest_server/server.py:76-117 | `do_GET`, asking the database for its names, decides as `LegacyPlan` does |
| LegacyServer.Uninitialized | mock_rest_server/database.py:68-72 | before `init`, GET sends nothing; the other handlers send their refusal when they refuse before asking for the instance, and nothing otherwise; POST `/` follows the corrected plan and ends after its 405, whereas as written it goes on to `instance()` and dies there (the as-written course is `PostAsWritten`) |
| LegacyServer.LegacyRespond | mock_rest_server/server.py:38-244 | one `do_*` call on the singleton: what is sent and what the database becomes; a write marks it dirty and signals the change, and the file, the save time, the stop signal and the period never change; POST `/` follows the corrected plan (405 and nothing else), and the as-written course is `PostAsWritten` |
| LegacyServer.ResourceListSorted | mock_rest_server/server.py:119-122 | `list_available_resources` answers every resource name once, sorted |

## Left out

- Threads, `Lock`, `Event`, `persist_thread` and its `join`: each operation is atomic, and the persistence loop is one step per wake with the time passed in as whole ticks (no floating-point `time()`).
- Database.JsonDatabase.MaintainStep: models one wake; the blocking `data_changed.wait()` and the wait on `persist_stop` are not modelled.
- `uuid.uuid4()` (section 4.4 of RFC 4122): the caller supplies the fresh id as a string shaped like a version-4 UUID.
- File I/O, `Path.exists`/`is_file`, and the text of `json.load`/`json.dump` (RFC 8259): the file is a `DbFile` value holding parsed JSON; a file that is not JSON is `Holds(None)`.
- Logging, `warn` and `print` output.
- Database.JsonDatabase.Persist: the "No database file specified." message is returned, not printed, and the `hasattr` flag is a boolean field.
- Aliasing: records are values.
  - The `src` copies (`record.copy()`) are therefore exact.
  - The older `read` and `list_resource` return the stored objects themselves. That is not captured.
  - The caller's body dict, mutated in place and then stored, is not captured either.
- LegacyDatabase.LegacyJsonDatabase.Read: returns the stored record's value, not the live object the source hands out.
- LegacyDatabase.LegacyJsonDatabase.ListResource: returns values, not the live stored objects, and the lazy `filter` chain is evaluated at once.
- Floating-point JSON numbers: JSON holds null, booleans, integers, strings, arrays and objects.
- Python's `True == 1` key equality: a key `true` and a key `1` are different.
- JsonValues.Str: `str()` of nested values does not escape quotes the way `repr` does.
- Text.CaseFold: `casefold()` and `lower()` are ASCII lower-casing only.
- Request bodies that are JSON but not objects, and older files whose top level or tables are not objects (legacy `update` of a non-dict). The model loads such files as nothing.
- Snapshots.LegacyLoad: an older file whose tables are objects but hold a record that is not an object (`{"users": {"a": 5}}`) loads as nothing in the model, whereas `records.update(json.load(db))` accepts it and the server then holds and serves the non-object record; the model's records are objects throughout, so such a store is not modelled.
- Request bodies that are not valid UTF-8: `json.loads` raises `UnicodeDecodeError`, a `ValueError` but not a `JSONDecodeError`. The `src` handler answers it with 400 `{"error": "utf-8"}` through `from_exception` (src/mock_rest_server/server.py:227-229). The older handler catches only `JSONDecodeError` (mock_rest_server/server.py:65), so it ends with nothing sent. The model's `Request.body` has no state for such a body; it is treated like any other undecodable body (`Unable parse JSON payload`) in both versions.
- Content-Length, socket reads and writes, `parse_request`, the 65536-byte request-line limit and the timeout handling of `handle_one_request`.
- `urlsplit` and `parse_qs`: a request arrives with its path and its query already parsed.
- LegacyServer.LegacyRespond: POST `/` follows the corrected plan and stops at its 405. As written, `do_POST` goes on after the 405 (mock_rest_server/server.py:42-45): it creates the record in resource `""`, or sends a bare 400 as well for another content type. That course is stated by `PostAsWritten` and `PostRootCreatesNamelessResource`, not by this method.
- LegacyServer.Uninitialized: POST `/` before `init` is answered `([405], false)`, the corrected course. As written, it sends the 405 and then dies at `instance()`, which gives `([405], true)`.
- The older server for an unknown HTTP method: the standard library answers 501 itself; not modelled.
- `src/mock_rest_server/__main__.py`: the command line, TLS and the thread lifecycle are not part of this model.
- `JsonHttpResponse.from_exception` for exceptions other than store errors: only the store errors and the fixed refusals are modelled.

## Findings

| source | as written | input that shows it | evidently intended | confidence | as-written member | corrected member |
|---|---|---|---|---|---|---|
| mock_rest_server/server.py:42-45 | `do_POST` on the root calls `http_method_not_allowed()` without `return`, so it goes on with resource `""` | `POST /` with a JSON body | answer 405 and stop, as `do_PUT`/`do_PATCH`/`do_DELETE` and the `src` version do | high, not executed | LegacyServer.PostRootCreatesNamelessResource | LegacyServer.LegacyPlan |
| mock_rest_server/server.py:312-316 | the contains-filter reads `rec[param]` in a `print` before testing `param in rec` | `GET /users?name=*a*` over a record without `name` | the record is left out, as by the other three filters and the `src` filter | high, not executed | LegacyFilters.ContainsOnAbsentFieldRaises | DataFilters.AbsentFieldNeverMatches |
| mock_rest_server/database.py:224 | `json.dump(self.records)` turns every id key into a string; loading does not turn it back | create `{"id": 5}` in `users`, save, restart | a record comes back under the id it was stored under, as with the `src` list format | high, not executed | Snapshots.LegacyIntIdComesBackAsString | Snapshots.IntIdSurvivesRestart |
| src/mock_rest_server/server.py:155-157 | `raise NotImplementedError()` sits outside the `try` whose `except NotImplementedError` answers 501 | `HEAD /users` | answer 501 `Unsupported method (HEAD)` | high, not executed | Server.DispatchAsWritten | Server.Dispatch |
