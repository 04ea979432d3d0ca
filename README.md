# GTFS ticketing sample: search and ingestion core in Dafny

This project models two parts of a serverless GTFS (General Transit Feed Specification)
ticketing backend, and proves properties of the models.

**Route search** (`packages/api-backend-search-routes/index.ts`, the `handler`). A request
carries an origin stop, a destination stop and an outbound date. The handler:

1. queries the stop times at the origin and at the destination;
2. keeps the destination rows whose trip also stops at the origin, and then those whose first
   origin row comes earlier by `stop_sequence`;
3. throws `NOT_FOUND_EXCEPTION` when no row is left;
4. fetches the trips in batch-gets of at most 100 ids;
5. de-duplicates them by service and by route;
6. fetches the calendar entries of the services in chunks and keeps those valid on the date;
7. fetches the service exceptions for the date and the routes;
8. queries the itinerary of each trip whose service runs;
9. returns one record per such trip.

The model is `SearchRoutes.Search`, a function from the store and the request to a `Run`. A
`Run` holds the outcome (the records, or the error thrown) and every call made on the store,
in order. `SearchRoutes.Handler` is the handler written step by step, with its chunking loops,
and is proved equal to `Search`.

**Ingestion** (`packages/gtfs-data-fetching/index.ts`, `storeData`). The records of one parsed
file are cut into batch-writes of at most 25 put requests. The batch-writes go out in rounds of
at most 40, and each round is awaited before the next starts. A response that reports
unprocessed requests is logged and not retried. `Ingestion.StoreData` is that function as a
method. Its results are the batch-writes of every round and the warnings logged. The store's
answers are a parameter.

Modules:

- `Wrappers`: `Option` and `Result`.
- `Seqs`: the array operations the code uses.
- `Chunking`: the stepped chunking loop and its specification.
- `StopSequence`: JavaScript string order.
- `Gtfs`: the records, the store as in-memory tables, queries and batch-gets, store calls.
- `Correlation`: the origin and direction filters.
- `Dedup`: de-duplication by merging objects, and the order in which JavaScript lists an
  object's properties.
- `Calendars`: the calendar stage.
- `SearchRoutes`: the handler and the properties of its control flow and its calls.
- `SearchResults`: what the records say about the store.
- `Ingestion`: `storeData`.

Behaviours of the code worth knowing:

- `stop_sequence` values are compared as strings. `StopSequence` proves that
  the two orders agree on digit strings of equal length. It also proves that they disagree on
  `"10"` and `"9"`.
- An empty calendar stage reaches a `reduce` with no initial value, and that throws a
  TypeError. `SearchRoutes.SearchOutcomes` proves it distinct from `NOT_FOUND_EXCEPTION`.
- The service exceptions are looked up, attached to the records and never interpreted.
- Unprocessed batch-write items are not returned to the caller. They are only counted in a log
  line.
- Only the first 100 distinct routes are ever requested, "first" in the order `Object.values`
  lists them: route ids that are array indices ("7", "42") first, in numeric order, then the
  others in the order they first appear. The calendar-exceptions request is not cut into
  chunks of 100.

## Model

| member | source | states |
|---|---|---|
| Seqs.Filter | packages/api-backend-search-routes/index.ts:188 | `filter` keeps every element that satisfies the predicate, keeps nothing else, and never grows the list |
| Seqs.FilterIsSubseq | packages/api-backend-search-routes/index.ts:67 | what `filter` keeps is an order-preserving subsequence of its input |
| Seqs.Find | packages/api-backend-search-routes/index.ts:210-213 | `find` is `None` exactly when nothing matches; otherwise it returns the first match |
| StopSequence.StrLessAsymmetric | packages/api-backend-search-routes/index.ts:81 | the string comparison of stop sequences is strict: no two rows precede each other |
| StopSequence.StrLessTransitive | packages/api-backend-search-routes/index.ts:81 | the string comparison of stop sequences is transitive |
| StopSequence.EqualLengthOrderIsNumeric | packages/api-backend-search-routes/index.ts:81 | for digit strings of equal length, string order is numeric order (both directions) |
| StopSequence.StringOrderIsNotNumeric | packages/api-backend-search-routes/index.ts:81 | on digit strings of different lengths the orders can disagree: `"10"` sorts before `"9"` |
| Gtfs.QueryByStop | packages/api-backend-search-routes/index.ts:30-43 | the `ByStopId` query returns exactly the stop times at that stop |
| Gtfs.QueryByTrip | packages/api-backend-search-routes/index.ts:193-202 | the itinerary query returns exactly the stop times of that trip |
| Gtfs.QueryByStopInTripOrder | packages/infra/lib/gtfs-storage.ts:85-95 | a `ByStopId` query answers in strictly increasing order of the index's sort key `trip_id` |
| Gtfs.QueryByTripInStopOrder | packages/infra/lib/gtfs-storage.ts:71-82 | a query on a trip answers in strictly increasing order of the table's sort key `stop_id` |
| Gtfs.BatchGetFinds | packages/api-backend-search-routes/index.ts:102-110 | a record is in a batch-get's answer exactly when one of the keys maps to it |
| Gtfs.BatchGetsFlatten | packages/api-backend-search-routes/index.ts:101-111 | the flattened answers of the chunked batch-gets are the answer of one batch-get of all keys |
| Correlation.Correlate | packages/api-backend-search-routes/index.ts:67 | a destination row survives correlation exactly when an origin row has the same trip |
| Correlation.CorrelateIsSubseq | packages/api-backend-search-routes/index.ts:67 | the correlated rows keep the order of the destination rows |
| Correlation.Directional | packages/api-backend-search-routes/index.ts:72-82 | a correlated row survives exactly when its trip's first origin row has a smaller stop sequence |
| Correlation.DirectionalIsSubseq | packages/api-backend-search-routes/index.ts:72-82 | the direction filter keeps the order of the correlated rows |
| Correlation.DirectionalTripsExactly | packages/api-backend-search-routes/index.ts:30-82 | in a well-formed store, a row survives both filters exactly when it is at the destination and its trip stops earlier at the origin |
| Correlation.OppositeQueriesDisjoint | packages/api-backend-search-routes/index.ts:72-82 | no trip survives both the (A, B) search and the (B, A) search |
| Chunking.Chunk | packages/api-backend-search-routes/index.ts:95-98 | the chunking loop builds exactly the chunk list `Chunks(xs, size)` |
| Chunking.ChunksPartition | packages/api-backend-search-routes/index.ts:95-98 | the chunks concatenate back to the input, each holds 1 to `size` elements, and there are ceil(n / size) of them |
| Chunking.ChunkAt | packages/gtfs-data-fetching/index.ts:116-117 | chunk k is the elements from position k·size up to k·size + size (or to the end) |
| Chunking.CeilDivIsCeiling | packages/gtfs-data-fetching/index.ts:116 | for the sizes 25, 40 and 100, the chunk count is (n + size − 1) / size |
| Chunking.FlattenWindows | packages/api-backend-search-routes/index.ts:125-126 | the service windows concatenate to the first count·100 services |
| Dedup.DedupLastDistinct | packages/api-backend-search-routes/index.ts:116-117 | after de-duplication no two values share a key, and there are no more values than inputs |
| Dedup.DedupLastCovers | packages/api-backend-search-routes/index.ts:116-117 | every key of the input has a value after de-duplication |
| Dedup.DedupLastKeepsLast | packages/api-backend-search-routes/index.ts:116-117 | the value kept for each key is the last input element with that key |
| Dedup.DedupLastCreationOrder | packages/api-backend-search-routes/index.ts:116-117 | merging keeps the keys in the order of their first appearance in the input |
| Dedup.ObjectValuesOrder | packages/api-backend-search-routes/index.ts:116-117 | `Object.values` lists array-index keys first, in strictly increasing numeric order, then the other keys in the order of their first appearance |
| Dedup.ObjectValuesDistinct | packages/api-backend-search-routes/index.ts:116-117 | `Object.values` lists no key twice and no more values than inputs |
| Dedup.ObjectValuesCovers | packages/api-backend-search-routes/index.ts:116-117 | every key of the input is listed by `Object.values` |
| Dedup.ObjectValuesKeepsLast | packages/api-backend-search-routes/index.ts:116-117 | each value `Object.values` lists is the last input element with its key |
| Dedup.IndexKeyEnumeratedFirst | packages/api-backend-search-routes/index.ts:117 | a route id `"7"` seen after `"A1"` is still listed before it |
| Calendars.CalendarWindow | packages/api-backend-search-routes/index.ts:143-148 | an entry is kept exactly when its start date ≤ the date ≤ its end date |
| Calendars.UniqueServiceIdsExactly | packages/api-backend-search-routes/index.ts:150-152 | the unique ids are exactly the service ids of the surviving entries, each listed once |
| Calendars.ExceptionKeys | packages/api-backend-search-routes/index.ts:161-164 | one key per surviving service id, each carrying the outbound date; a service id gets a key exactly when it is among the ids |
| SearchRoutes.LookupChunks | packages/api-backend-search-routes/index.ts:123-128 | the second chunking loop builds `ServiceChunks` (the service windows) and `RouteChunks` (the first 100 routes, once per 100 trip ids) |
| SearchRoutes.LookupPhase | packages/api-backend-search-routes/index.ts:115-215 | the code after the trips fetch gives the outcome `LookupOutcome` and the calls `LookupCalls` of `LookupOf` |
| SearchRoutes.Handler | packages/api-backend-search-routes/index.ts:25-218 | the handler's outcome and store calls are those of `Search` |
| SearchRoutes.FetchedTripsAreStored | packages/api-backend-search-routes/index.ts:95-111 | the trips fetched in chunks are what one batch-get of all matching trip ids returns, and there are no more of them than ids |
| SearchRoutes.SearchOutcomes | packages/api-backend-search-routes/index.ts:84-88 | `NOT_FOUND_EXCEPTION` is thrown exactly when no row survives the direction filter, and then only the two stop queries were issued; an empty trips fetch and an empty calendar window fail as distinct `reduce` errors |
| SearchRoutes.ServiceChunksCover | packages/api-backend-search-routes/index.ts:123-128 | with no more trips than ids: one service chunk per 100 ids, each of at most 100 services, together holding every distinct service id once |
| SearchRoutes.ServedByTrip | packages/api-backend-search-routes/index.ts:131-141 | every fetched calendar entry belongs to the service of one of the trips |
| SearchRoutes.EntryServesFetchedTrip | packages/api-backend-search-routes/index.ts:131-148 | every calendar entry valid on the date serves one of the fetched trips |
| SearchRoutes.SomeTripInService | packages/api-backend-search-routes/index.ts:188 | once some calendar entry is valid on the date, some fetched trip passes the service filter |
| SearchRoutes.ItinerariesReduceNeverFails | packages/api-backend-search-routes/index.ts:190-205 | in a well-formed store, the `reduce` over the itineraries never meets an empty list |
| SearchRoutes.TripChunksPartitionIds | packages/api-backend-search-routes/index.ts:95-98 | the trip-id chunks hold 1 to 100 ids each, there are ceil(n / 100) of them, and they concatenate to the matching ids |
| SearchRoutes.TripRequestsFollowQueries | packages/api-backend-search-routes/index.ts:30-111 | past the direction filter, the calls begin with the two stop queries and then one trips batch-get per chunk, in chunk order |
| SearchRoutes.OnlyChunkedTripRequests | packages/api-backend-search-routes/index.ts:101-111 | every trips batch-get issued is one of the per-chunk requests |
| SearchRoutes.CalendarRequestsCoverServices | packages/api-backend-search-routes/index.ts:123-141 | one calendar batch-get per trip-id chunk, each of at most 100 keys, together requesting every distinct service id once |
| SearchRoutes.EmptyCalendarChunk | packages/api-backend-search-routes/index.ts:125-126 | with more than 100 trip ids and at most 100 distinct services, a calendar batch-get with no keys is issued |
| SearchRoutes.EmptyCalendarRequest | packages/api-backend-search-routes/index.ts:123-141 | a search past the trips stage with more than 100 ids and at most 100 services sends a calendar batch-get with no keys |
| SearchRoutes.RoutesRequestedPerChunk | packages/api-backend-search-routes/index.ts:172-182 | every routes batch-get asks for the ids of the first min(routes, 100) de-duplicated routes, in `Object.values` order |
| SearchRoutes.RouteRequestsRepeatFirstHundred | packages/api-backend-search-routes/index.ts:127 | over a whole search, every routes batch-get asks for the ids of the first min(routes, 100) routes |
| SearchRoutes.RoutesBeyondHundredNeverRequested | packages/api-backend-search-routes/index.ts:127 | a route past the 100th distinct route is never requested |
| SearchResults.RecordTrip | packages/api-backend-search-routes/index.ts:209-214 | record i names the i-th trip in service: a fetched trip with a calendar entry valid on the date, whose itinerary is all of its stop times |
| SearchResults.RecordsFollowFetchedTrips | packages/api-backend-search-routes/index.ts:188 | there is one record per trip in service, and those trips keep the order of the fetched trips |
| SearchResults.EntryIsStored | packages/api-backend-search-routes/index.ts:131-148 | each surviving calendar entry is the stored entry of its service and is valid on the date |
| SearchResults.RecordCalendar | packages/api-backend-search-routes/index.ts:213 | the record's calendar is the stored entry of the trip's service, valid on the date |
| SearchResults.RecordException | packages/api-backend-search-routes/index.ts:212 | the record's service exception is the one stored for (service, date), present exactly when stored |
| SearchResults.RequestedRouteIds | packages/api-backend-search-routes/index.ts:172-182 | a route id is requested exactly when there is a trip id and the route is among the first 100 de-duplicated routes |
| SearchResults.RecordRoute | packages/api-backend-search-routes/index.ts:210 | the record's route is the stored route, found exactly when it is stored and among the first 100 distinct routes |
| SearchResults.FewRoutesAllRequested | packages/api-backend-search-routes/index.ts:127 | with at most 100 distinct routes, every fetched trip's route is requested |
| SearchResults.RecordRouteFewRoutes | packages/api-backend-search-routes/index.ts:210 | with at most 100 distinct routes, the record's route is found exactly when it is stored |
| SearchResults.ServedTripKeepsCalendar | packages/api-backend-search-routes/index.ts:123-148 | the stored calendar entry of a fetched trip's service, when valid on the date, survives the calendar stage |
| SearchResults.LookupFindsServedTrip | packages/api-backend-search-routes/index.ts:188-215 | a fetched trip whose service is valid on the date gets a record |
| SearchResults.RecordOfDirectionalTrip | packages/api-backend-search-routes/index.ts:91-213 | each record names a stored trip of a directional row, with its service's stored calendar entry valid on the date |
| SearchResults.RunsBetweenTransitive | packages/api-backend-search-routes/index.ts:72-82 | a trip that runs from A to B and from B to C runs from A to C |
| SearchResults.SearchRecordsRunBetweenStops | packages/api-backend-search-routes/index.ts:25-218 | every record of a successful search is a stored trip that runs from origin to destination and whose stored calendar entry is valid on the date |
| SearchResults.DirectionalTripIsFound | packages/api-backend-search-routes/index.ts:91-215 | a directional row whose stored trip's service is valid on the date has that trip fetched and made a record |
| SearchResults.SearchFindsEveryRunningTrip | packages/api-backend-search-routes/index.ts:25-218 | every stored trip that runs from origin to destination with a calendar entry valid on the date makes the search succeed and gets a record |
| Ingestion.StoreData | packages/gtfs-data-fetching/index.ts:106-147 | the rounds sent are `WriteRounds(tableName, contents)`, which does not depend on the responses; the warnings are one per response with unprocessed items |
| Ingestion.RoundAdvances | packages/gtfs-data-fetching/index.ts:125-144 | one round of 40 chunks keeps the loop invariant: the rounds sent so far and the rounds left make up all rounds |
| Ingestion.RoundsPartitionCalls | packages/gtfs-data-fetching/index.ts:125-126 | each round holds 1 to 40 batch-writes, there are ceil(chunks / 40) rounds, and in order they hold every chunk's batch-write exactly once |
| Ingestion.RoundAt | packages/gtfs-data-fetching/index.ts:126 | round g holds the batch-writes of chunks 40g up to 40g + 40 (or the last chunk) |
| Ingestion.CallsCarryContents | packages/gtfs-data-fetching/index.ts:115-136 | every batch-write targets the table and holds 1 to 25 put requests, there are ceil(n / 25) of them, and their items in order are exactly the records |
| Ingestion.ItemsOfWriteCalls | packages/gtfs-data-fetching/index.ts:130-134 | the items of the chunks' batch-writes are the chunks concatenated, unchanged |
| Ingestion.WarningsAtMostCalls | packages/gtfs-data-fetching/index.ts:139-142 | there are at most as many warnings as batch-writes |
| Ingestion.WarningsReportResponses | packages/gtfs-data-fetching/index.ts:139-142 | each warning gives the number of unprocessed requests in one response |
| Ingestion.NoWarningsWhenAllProcessed | packages/gtfs-data-fetching/index.ts:139-142 | there is no warning exactly when no response has an unprocessed-items entry for the table |

## Left out

- The rest of the repository is outside this model. That covers the ingestion handler (feed
  download, unzip, CSV parsing in `parseCsvFile`), the search-stops handler, the web UI and the
  infrastructure code.
- I/O and the store: the store is a set of in-memory tables passed as a parameter. Store
  faults and DynamoDB limits are not modelled. Those limits include pagination, the
  16 MB/100-key batch-get caps (the calendar-exceptions request is never cut into chunks) and
  the rejection of a batch-get with no keys.
- Order of batch-get answers: a batch-get answers in the order of its keys. DynamoDB does not
  promise any order, so a first-match `find` over such an answer may in reality pick another
  record when several match. Queries answer in sort-key order, as DynamoDB does: the store
  holds its stop times sorted by (`trip_id`, `stop_id`).
- Concurrency: the calls issued inside `Promise.all` are recorded in issue order. How their
  completions and log lines interleave is not modelled.
- Ingestion.StoreData: inside a round its warnings follow the order of the batch-writes, which
  is one of the orders the concurrent responses allow. Only the grouping into rounds is
  certain.
- Logging: `Logger` output is left out, except for the unprocessed-items warning of
  `storeData`. In `storeData`, a response whose unprocessed items name only another table
  would make the log line throw. The model reads the entry for the table, and a missing entry
  means no warning.
- Dates: `moment` parsing is replaced by dates given as YYYYMMDD numbers. Time zones and
  malformed dates are not modelled.
- Strings: they are sequences of characters, so JavaScript's UTF-16 code-unit order is taken
  as code-point order.
- Objects: only the key order of the objects built by spreading is modelled (array-index
  keys first, then creation order). Keys such as `"__proto__"` and property limits are not.
- Request fields: the inbound date and the wheelchair flag are accepted and never used by the
  handler, so the request type omits them.
- SearchRoutes.Search: a stored record with missing attributes is not modelled. Every record
  has all of its fields.
