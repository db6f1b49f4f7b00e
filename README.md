# parks_canada — a Dafny model of the campsite scraper's core

The parks_canada scraper searches the Parks Canada reservation site for
campsites that are free for a week or more. The model covers the parts of
`scraper.py` and `store.py` that compute or change something:

- **The map walk** (`Scraper.dfs`). It probes a park's map. A map that lists
  resources has its unseen, recordable resources inserted into the
  `resource_map` table. Any other map whose probe succeeds is descended into, link by link; a map whose probe fails is not.
  `Crawl.Walk` gives the result as a function of the probe responses, the
  resource lists and the `category`, `map` and `location` tables.
  `Scraper.Scraper.Dfs` is the imperative walk over the object's table.
- **The attribute update** (`Scraper.update_attributes` and
  `get_localized_display_name`). A resource's defined attributes are resolved
  against the attribute-definition table into pairs of an "en-CA" display
  name and a value text. The pairs are written into the resource's `attr`
  column.
- **The availability scan** (`Scraper.find_availability`). It finds the
  first maximal run of free days in a daily-availability response whose end
  minus start exceeds five.
- **Building the search result** (`Scraper.run`). It visits every resource of
  every configured park in table order. Each resource found free becomes an
  entry with a booking link (`make_booking_url`). The `searchResult` document
  is replaced only when the loop completes.
- **The cart** (`put_cart`, `delete_cart`). The cart list is updated, and so
  are the `added_to_cart` flags of the search result.
- **The store** (`Store.get`, `set` and `update`; `find_location_id`,
  `find_location`). Also the SQL text and parameter tuple that `DB.insert`
  and `DB.update_row` build.

Modules, one per file: `Common` (options, results, joins and integer texts),
`Storage`, `Attributes`, `Availability`, `Booking`, `Crawl`, `Search`,
`Cart`, and `Scraper`. `Scraper` holds the `Scraper` class with the
state the core changes: the `resource_map` table, the `searchResult` and
`cart` documents, and a ghost record of the maps probed.

The settings, the attribute-definition table and the HTTP responses are all
parameters:

- The day-by-day availability of each resource is a map from resource id
  to its list of day codes. An absent id means the request failed.
- The clock and the `date2str` day rendering are parameters too.

## Model

| member | source | states |
|---|---|---|
| Storage.Store.constructor | store.py:159-161 | The settings dictionary is the loaded `ini` document. |
| Storage.Store.Get | store.py:163-173 | No key returns the whole dictionary. A present key returns its value. An absent key returns None. |
| Storage.Store.Set | store.py:175-183 | An absent key gets an empty dictionary, not the value. A present key is overwritten with the value. Every other key keeps its value. |
| Storage.Store.Update | store.py:201-205 | Every key of `params` takes its new value. Every other key keeps its old value. The key set is the union of both. |
| Storage.FindLocationId | store.py:207-213 | If the first `map` row for the map has a resource location id, that id is returned. Otherwise the result is the id of a `location` row rooted at the map. The result is None exactly when no such row exists. |
| Storage.MapRowWins | store.py:207-213 | When the map's `map` rows carry location ids, the `location` table does not affect the result. |
| Storage.FindLocation | store.py:215-216 | The result is a `location` row with the given id. It is None exactly when the id is NULL or no row has it. |
| Storage.Columns | store.py:51 | The column names are the row dictionary's keys, in order. |
| Storage.Values | store.py:53 | The bound values are the row dictionary's values, in order. |
| Storage.QuestionMarks | store.py:52 | Produces one `?` per column. |
| Storage.Assignments | store.py:126 | Produces one `k=?` per key, in order. |
| Storage.InsertStatement | store.py:49-54 | Defines the INSERT text and the bound values of `DB.insert`. `InsertBindsEveryValue` states its meaning. |
| Storage.UpdateStatement | store.py:124-128 | Defines the UPDATE text and the bound values of `DB.update_row`. `UpdateBindsEveryValue` states its meaning. |
| Storage.InsertBindsEveryValue | store.py:49-59 | The INSERT text has exactly one `?` per column. The parameter tuple holds the column values in column order. This holds whenever no name contains a `?`. |
| Storage.UpdateBindsEveryValue | store.py:124-134 | The UPDATE text has one `?` per column plus those of the WHERE clause. The tuple is the new values followed by the WHERE parameters. |
| Attributes.GetLocalizedDisplayName | scraper.py:30-34 | Returns the display name of the first entry for the culture. It is None exactly when no entry has that culture. |
| Attributes.FindEnumValue | scraper.py:299-306 | Returns the first enumerated value equal to the chosen one. It is None exactly when none is equal. |
| Attributes.AttributeList | scraper.py:282-320 | Defines the attribute list of one resource, or the error that ends the loop. `AttributeListShape` and `ErrorPersists` state its meaning. |
| Attributes.MapAttributes | scraper.py:276-320 | The loop computes `AttributeList`: the pairs in order, or the error that ends it. |
| Attributes.ValueNames | scraper.py:297-309 | The inner loop computes `EnumNames`: one name per chosen value that matches, in order. |
| Attributes.AttributeListShape | scraper.py:282-320 | Mapping succeeds exactly when every attribute with a known definition resolves to a value. It then gives one pair per known attribute, in input order, holding its localized name and value. Unknown definitions contribute nothing. |
| Attributes.ErrorPersists | scraper.py:282-320 | Once a prefix of the attributes fails, the whole list fails with the same error. |
| Attributes.Known | scraper.py:287-288 | An attribute is kept exactly when its definition id is in the table: every kept one is such an input, and every such input is kept. |
| Attributes.KnownConcat | scraper.py:282-288 | Filtering distributes over concatenation, so the kept attributes keep their input order. |
| Attributes.EnumNamesConcat | scraper.py:299-309 | The names of a concatenation of chosen values are the names of each part, in order. |
| Attributes.EnumNamesSingle | scraper.py:300-309 | A chosen value with no match contributes nothing. Otherwise it contributes the culture's name of its first match. |
| Attributes.Unwrap | scraper.py:314 | When every value has a name, the names are kept in order. |
| Availability.Scan | scraper.py:375-388 | Defines the scan from day `i` with the current run bounds. `ScanFindsFirstWindow` relates it to `IsFirstWindow`. |
| Availability.FindAvailabilityModel | scraper.py:368-388 | Defines the result for a response, None for a failed request, starting the scan with the sentinel 123456 and end -1. `FirstWindowFound` relates it to `IsFirstWindow`. |
| Availability.FindAvailability | scraper.py:370-388 | The loop computes the scan. A failed request gives None. Otherwise the result is the first maximal run of free days spanning more than five. It is None exactly when no seven consecutive free days exist. |
| Availability.FirstWindowFound | scraper.py:370-388 | The scan from the initial state reports the first window, or None when there is no qualifying span. |
| Availability.ScanFindsFirstWindow | scraper.py:375-388 | The scan from any consistent intermediate state reports the first window or none. |
| Availability.FirstWindowUnique | scraper.py:370-388 | At most one window is the first window, so the reported one is determined. |
| Availability.NoBlockStartingBefore | scraper.py:382-384 | A non-free day before a run rules out every qualifying span that starts earlier. |
| Availability.ShortRunClosed | scraper.py:381-384 | A run that is too short and closed by a non-free day leaves no qualifying span before that day. |
| Availability.ShortRunAtEnd | scraper.py:385-388 | A run that is too short and reaches the last day means there is no qualifying span at all. |
| Booking.MakeBookingUrl | scraper.py:412-420 | Defines the booking link. `BookingUrlMapId`, `BookingUrlNights`, `BookingUrlInjective` and `BookingUrlLocation` state its meaning. |
| Booking.ReservingFields | scraper.py:417 | The parameters after the number of nights start with `&`. |
| Booking.NightsTail | scraper.py:417-419 | The link after the number of nights starts with `&`, whether or not the location parameter follows. |
| Booking.BookingUrlMapId | scraper.py:412-420 | The link starts with the site's results path. The text between `mapId=` and the next `&` parses back to the map id. |
| Booking.BookingUrlNights | scraper.py:417 | The text between `&nights=` and the next `&` parses back to the number of nights, end minus start. |
| Booking.NightsSplit | scraper.py:412-420 | The link is the part up to `&nights=`, the rendered number of nights, then a tail that starts with `&`. |
| Booking.BookingUrlInjective | scraper.py:412-420 | For the same stay, links for different maps differ, and links for the same map are equal. |
| Booking.BookingUrlLocation | scraper.py:417-419 | The link ends with the fixed filter tail exactly when the location id is falsy. Otherwise it is the plain link with `&resourceLocationId=` and the id appended. |
| Booking.SearchFields | scraper.py:417 | The parameters after the map id start with `&`. |
| Booking.UpTo | scraper.py:417 | Returns the prefix before the first separator. |
| Booking.UpToConcat | scraper.py:417 | The map id text followed by the next parameter reads back as the map id text. |
| Booking.IntToStringDigits | scraper.py:417 | A rendered id is a sign and digits, and ends in a digit. |
| Booking.LocationParamEndsInDigit | scraper.py:419 | The location parameter ends in a digit. |
| Common.FirstIndex | scraper.py:534-537 | Returns the index of the first element with the property. It is None exactly when no element has it. |
| Common.FirstMatch | store.py:207-216 | Returns an element with the property that no earlier element has. It is None exactly when none has it. |
| Common.IntToStringRoundTrip | scraper.py:417 | A rendered integer parses back to itself. |
| Common.NegativeRoundTrip | scraper.py:417 | A rendered negative integer parses back to itself. |
| Common.NonNegativeRoundTrip | scraper.py:417 | A rendered non-negative integer parses back to itself. |
| Common.NatToStringRoundTrip | scraper.py:417 | A rendered natural number parses back to itself. |
| Common.NatToString | scraper.py:417 | The rendering is non-empty and all digits. |
| Common.IntToStringInjective | scraper.py:287 | Different integers render differently. So looking a definition up by `str(id)` is a lookup by id. |
| Common.OccurrencesConcat | store.py:54 | The `?` count of a concatenation is the sum of the parts' counts. |
| Common.JoinOccurrences | store.py:51-52 | Joining with a separator that has no `?` keeps the total `?` count. |
| Storage.QuestionMarksCount | store.py:52 | The placeholder list holds n marks. |
| Storage.ColumnsNoMarks | store.py:51 | Column names without `?` contribute none. |
| Storage.AssignmentsCount | store.py:126 | The SET clause holds one mark per column. |
| Storage.HeadCount | store.py:54 | The INSERT text up to the column list has no mark. |
| Storage.TailCount | store.py:54 | The VALUES part holds exactly the placeholders' marks. |
| Storage.UpdateSqlCount | store.py:128 | The UPDATE text's marks are those of the SET and WHERE clauses. |
| Crawl.Walk | scraper.py:198-252 | Defines the walk from a map as a function of the probe responses and tables. `WalkGrows`, `WalkLinked`, `WalkKeepsLocation`, `WalkRecords` and `WalkFromParkComplete` state its meaning. |
| Crawl.InsertRows | scraper.py:223-246 | Defines the insertion loop over one map's listed resources. `InsertRowsGrow`, `InsertRowsComplete` and `InsertStopsAtUnrecordable` state its meaning. |
| Crawl.WalkGrows | scraper.py:198-252 | One step of the walk keeps every existing row. It appends only rows recorded from a probed map's resource list, and never inserts an id twice. A map that is not ignored is probed first. Every map it probes had all its links probed. The ignored map leaves the state unchanged. |
| Crawl.WalkChildrenGrow | scraper.py:247-249 | The walks into a map's links keep the state growing, and probe every link except the ignored map. |
| Crawl.DescendGrows | scraper.py:247-249 | After a probe, descending into the links grows the state from before the probe. The probed map is the first new request. |
| Crawl.GrowsTrans | scraper.py:198-252 | Two growing steps make one growing step. |
| Crawl.ExpandedMono | scraper.py:247-249 | A map whose links were probed stays expanded as more probes follow. |
| Crawl.InsertRowsGrow | scraper.py:223-246 | The insertion loop only appends rows of the probed map, at its location. Each is built from the resource list, has no attributes, and is never a duplicate id. |
| Crawl.InsertStopsAtUnrecordable | scraper.py:223-246 | When a listed, not yet recorded resource's category or name cannot be read, the insertion raises there: the table is what the resources before it left. |
| Crawl.InsertRowsPrefix | scraper.py:235-246 | The insertion loop only appends to the table. |
| Crawl.InsertRowsComplete | scraper.py:223-246 | A listed, recordable resource is in the table after the loop, unless a listed, unrecorded resource before it raised. |
| Crawl.IdsGrow | scraper.py:228-231 | Extending the table keeps every id it holds. |
| Crawl.WalkLinked | scraper.py:200-249 | Every map a walk probes after its first follows a link of an earlier probe of the same walk that listed no resources. A probe that fails or lists resources is the walk's only probe. |
| Crawl.WalkChildrenLinked | scraper.py:247-249 | Every map probed while descending into a map's links follows a link of that map or of a later probe. |
| Crawl.LinkedBackPrefix | scraper.py:247-249 | Probes known to follow links stay so as more probes follow. |
| Crawl.WalkKeepsLocation | scraper.py:206-249 | When the walk's resource location is known, every row it records carries it, including rows recorded below links. |
| Crawl.WalkChildrenKeepLocation | scraper.py:249 | The walks into a map's links record rows with the location passed down. |
| Crawl.WalkRecords | scraper.py:219-249 | When no resource of the location raises, every resource a probed map lists and the location holds is in the table afterwards. |
| Crawl.WalkChildrenRecords | scraper.py:247-249 | The same for the walks into a map's links. |
| Crawl.WalkFromParkComplete | scraper.py:198-252 | From a park, every probe after the first follows a link of an earlier one. With a known location every new row carries it. If also no resource raises, every listed resource the location holds is recorded. |
| Crawl.WalkFromPark | scraper.py:198-252 | A walk from a park probes the park first. Every reachable map's links are then probed. Every new row comes from the park's probes, and the ids stay distinct. |
| Search.ParkRows | scraper.py:450 | A park's rows are exactly the table rows with that park id. |
| Search.ParkRowsConcat | scraper.py:450 | Selecting distributes over concatenation, so a park's rows keep table order. |
| Search.ParkRowsSingle | scraper.py:450 | One row is selected exactly when it has the park id. |
| Search.Candidates | scraper.py:449-454 | The visited rows are exactly the rows of the configured parks. |
| Search.FoundMembers | scraper.py:455-459 | A (row, window) pair is found exactly when the row is visited and the scan reports that window for it. |
| Search.FoundWindowsAreFirst | scraper.py:458-459 | Every found window is the first qualifying window of that resource's response. |
| Search.BuildEntries | scraper.py:459-478 | Defines the entries built from the found rows, or the error of the first row without a location or attributes. `RunShape` states its meaning. |
| Search.RunModel | scraper.py:449-478 | Defines the outcome of a run on a table. `RunEntries` states its meaning. |
| Search.RunShape | scraper.py:459-478 | Building succeeds exactly when every found row has a location and attributes. Then there is one entry per found row, in order. |
| Search.RunShapeStep | scraper.py:463-478 | One more listable found row keeps one entry per found row, in order. |
| Search.RunEntries | scraper.py:449-478 | A run succeeds exactly when every found row has a location and attributes. The k-th entry then has the row's id, name, category, description, capacity and attributes, the location's full name, the rendered window, the booking link and `added_to_cart` false. |
| Search.EntriesAreBuilt | scraper.py:463-478 | When every found row is listable, building succeeds, and the k-th entry copies the k-th row's id, name, category, description, capacity and attributes, names its location, renders its window, carries its booking link and is not in the cart. |
| Search.LocationOf | scraper.py:464 | The location of a listable row is the row `find_location` returns. |
| Search.BuildErrorPersists | scraper.py:464-470 | Once a row has no location or attributes, later rows do not change the error. |
| Search.BuildStep | scraper.py:463-478 | A found row with a location and attributes appends its entry. |
| Search.BuildStepFails | scraper.py:464-470 | A found row without a location or attributes makes the run fail. |
| Search.FoundStep | scraper.py:455-459 | A visited row adds its window to the found rows when it has one. |
| Search.FoundPrefix | scraper.py:449-459 | Visiting more rows only extends the found rows. |
| Search.CandidatesPrefix | scraper.py:449-451 | The rows of the first parks come first. |
| Search.CandidatesStep | scraper.py:449-451 | One more park appends its rows. |
| Search.RunFailsFrom | scraper.py:449-478 | A failure among the first parks makes the whole run fail. |
| Scraper.AttributeUpdates | scraper.py:273-324 | Defines the resource loop of `update_attributes`: the table, the change count and the error that ends it. The `Updates...` lemmas state its meaning. |
| Scraper.SetAttr | scraper.py:322 | Every row with the id gets the attribute list. Nothing else changes. |
| Scraper.UpdatesStep | scraper.py:273-324 | One more resource applies one iteration step. |
| Scraper.UpdatesFailurePersist | scraper.py:282-320 | After a mapping error nothing more is written. |
| Scraper.UpdatesOnlyWriteAttributes | scraper.py:322-324 | The loop keeps every row, in place, and changes only `attr`. The change count is at most the number of resources. |
| Scraper.UpdatesMapEach | scraper.py:273-320 | A loop that ends without an error mapped every listed resource. |
| Scraper.UpdatesSucceed | scraper.py:273-320 | When every listed resource maps, the loop ends without an error. |
| Scraper.UpdatesFailExactlyWhenMappingFails | scraper.py:273-320 | The loop ends without an error exactly when every listed resource's attributes map. |
| Scraper.UpdatesWriteMappedAttributes | scraper.py:273-324 | After a loop without an error, a resource listed once has its mapped attribute list in its row. |
| Scraper.UpdatesKeepUnlisted | scraper.py:322 | A resource that is not listed keeps its row unchanged. |
| Scraper.AddEntry | scraper.py:456-478 | One resource of the loop either fails exactly when building fails, or gives the entries built so far. |
| Scraper.ParkEntries | scraper.py:455-478 | The loop over one park's rows fails exactly when building fails. Otherwise it gives the entries of every row visited so far. |
| Scraper.Scraper.constructor | scraper.py:37-48 | The object starts from the store's table, search result and cart as given, and has probed nothing. |
| Scraper.Scraper.InsertResources | scraper.py:220-246 | The table becomes the insertion loop's result. Nothing else changes. |
| Scraper.Scraper.Dfs | scraper.py:198-252 | The table and the probe record become those of the walk. The documents are unchanged. |
| Scraper.Scraper.UpdateLocationAttributes | scraper.py:273-324 | The table, change count and ending error are those of `AttributeUpdates`. |
| Scraper.Scraper.Run | scraper.py:449-478 | On success, the search result becomes the run's time and entries. On an error, it is unchanged. The table and cart are unchanged. |
| Scraper.Scraper.PutCart | scraper.py:526-542 | The cart loses its items for the resource and gains the new item last. The first entry of the resource is flagged as added. With no search result, nothing changes. |
| Scraper.Scraper.DeleteCart | scraper.py:544-561 | The cart loses the resource's items, or all items for 'all'. Every entry of the resource is flagged as not added. With no search result, nothing changes. |
| Cart.RemainingCart | scraper.py:549-552 | Defines the cart `delete_cart` writes: empty for 'all', otherwise the items with another id. `CartRoundTrip` and `DeleteAllKeepsFlags` state its meaning. |
| Cart.WithoutId | scraper.py:531 | The kept items are exactly the items with another id. |
| Cart.MarkAdded | scraper.py:534-537 | Only the first entry with the id changes, and only to be flagged as added. |
| Cart.ClearAdded | scraper.py:554-556 | Every entry with the id is flagged as not added. Every other entry is unchanged. |
| Cart.PutCartHoldsItemOnce | scraper.py:531-532 | After a put, the cart holds the item once, last, after the other items in their old order. |
| Cart.WithoutIdConcat | scraper.py:531 | Filtering distributes over concatenation. |
| Cart.WithoutIdAbsent | scraper.py:531 | A cart without the id is kept as is. |
| Cart.CartRoundTrip | scraper.py:526-561 | Putting an item into a cart without that resource, then deleting the resource, gives the old cart back. |
| Cart.FlagsRoundTrip | scraper.py:526-561 | Deleting a resource clears every flag a put could have set, so the flags are as if the put never happened. |
| Cart.DeleteAllKeepsFlags | scraper.py:549-556 | Deleting 'all' empties the cart and leaves every flag unchanged. |

## Left out

- HTTP requests, the session, Firebase pushes, threads, `start`/`stop`, and writing the JSON documents are left out. They are I/O. Responses are parameters, and a document write is the field update.
- The current time and `date2str` are parameters: the result's time, the search time of the k-th link, and the rendering of a day offset.
- Availability.FindAvailability, Availability.FirstWindowFound, Availability.ScanFindsFirstWindow (through `ScanState`) and Search.FoundWindowsAreFirst: the first-window and no-window properties are stated only for responses of at most 123456 days. Past that, the reset value of `found_start` is a valid day index. The scan is still modelled exactly for every length.
- A missing key in a response or document (a KeyError) is not modelled, except where the code reacts to it. Those cases are a failed request, a missing `searchResult`, and a NULL `attr` or unknown location in `run`.
- Resource ids are integers. The text/integer mixing of JSON keys is not modelled (SQLite compares them as numbers and `str()` is injective). The 'all' target of `delete_cart` is its own case.
- The outer loop of `update_attributes` over its two hard-coded resource locations is not modelled, nor is the printed total. The model covers one location's resource list. A failed resource-list request skips a location and is not modelled.
- `json.dumps` and `json.loads` of the `attr` and `photos` columns are identities. Those columns hold the value.
- The boolean that `dfs` returns is not modelled: no caller reads it.
- Crawl.Walk and Scraper.Scraper.Dfs require that the map graph below a park be finite and acyclic (ghost `Bounded`). The code does not check for cycles. On a cycle it recurses until Python's recursion limit raises a RecursionError, and the model does not cover what follows. The loop over the links (scraper.py:248) is inside the `try` of scraper.py:217. So the `except` of scraper.py:251 ends the call that catches the error, the remaining links of that call are abandoned, and the walk resumes in its caller. An error raised inside the HTTP request is instead caught by `_request_` (scraper.py:162-164) and looks like a failed probe (scraper.py:211-213).
- Crawl.WalkKeepsLocation and Crawl.WalkChildrenKeepLocation (which requires `loc.Some?`): the location of rows is stated only when the walk's location is known. When the park's location resolves to None, each link resolves its own (lines 206-207), and that is not stated.
- Crawl.WalkRecords and Crawl.WalkChildrenRecords (which requires `AllRecordable`): that every listed resource is recorded is stated only when no resource of the location raises. When one raises, Crawl.InsertRowsComplete and Crawl.InsertStopsAtUnrecordable state it for the single map, not across the walk.
- Crawl.WalkFromParkComplete: states the two promises above under the same conditions.
- A database that cannot be opened (insert and update return None) is not modelled.
- Probe responses are modelled by their keys. Their values are never read by `dfs`.
- Exceptions that end `dfs`, `run`, `put_cart` and `delete_cart` are early returns with the state as the code leaves it: rows already inserted stay, and nothing is written.
- Scraper.Scraper.UpdateLocationAttributes: a row counts as changed when some row has the id. This matches the update's non-zero row count. The SELECT of other store methods (`fetch_one`, `fetch_all`) is modelled by first-match and filter functions, not as SQL.
- The `api_check` text, the `find_availability` request parameters and their `days` setting are not modelled. They only shape the request.
