/** The search-routes handler: from an origin stop, a destination stop and an outbound date
    to one itinerary record per trip that runs from the origin to the destination and whose
    service calendar covers the date. The store is read through the in-memory tables of
    `Gtfs.Store`; every call made on it is recorded, in the order the handler issues it. */
module SearchRoutes {
  import opened Wrappers
  import opened Seqs
  import opened Chunking
  import opened Gtfs
  import opened StopSequence
  import opened Correlation
  import opened Dedup
  import opened Calendars

  /** The most keys the handler puts in one batch-get chunk. */
  const BatchGetLimit: nat := 100

  /** The request: origin and destination stop ids and the outbound date. */
  datatype SearchEvent = SearchEvent(originStopId: string, destinationStopId: string, outboundDate: Date)

  /** Where a `reduce` without an initial value meets an empty array and throws. */
  datatype ReduceSite = FetchedTrips | CalendarEntries | Itineraries

  /** What the handler throws: `'NOT_FOUND_EXCEPTION'`, or the TypeError of an empty `reduce`. */
  datatype SearchError = NotFoundException | EmptyReduce(site: ReduceSite)

  /** One record of the result. */
  datatype ItineraryResult = ItineraryResult(
    route: Option<Route>,
    trip: Trip,
    serviceException: Option<CalendarDate>,
    calendar: Option<Calendar>,
    itinerary: seq<StopTime>)

  /** What one invocation returns or throws, and the store calls it made. */
  datatype Run = Run(outcome: Result<seq<ItineraryResult>, SearchError>, requests: seq<Request>)

  function TripIds(rows: seq<StopTime>): seq<string>
  {
    seq(|rows|, i requires 0 <= i < |rows| => rows[i].trip_id)
  }

  function ServiceIdsOf(trips: seq<Trip>): seq<string>
  {
    seq(|trips|, i requires 0 <= i < |trips| => trips[i].service_id)
  }

  function RouteIdsOf(trips: seq<Trip>): seq<string>
  {
    seq(|trips|, i requires 0 <= i < |trips| => trips[i].route_id)
  }

  /** The fetched trips de-duplicated by `service_id`, the last trip of each service kept, in
      `Object.values` order. */
  function ServicesWithoutDuplicates(trips: seq<Trip>): seq<Trip>
  {
    ObjectValues(trips, (t: Trip) => t.service_id)
  }

  /** The fetched trips de-duplicated by `route_id`, the last trip of each route kept, in
      `Object.values` order. */
  function RoutesWithoutDuplicates(trips: seq<Trip>): seq<Trip>
  {
    ObjectValues(trips, (t: Trip) => t.route_id)
  }

  /** The service chunks: one per chunk of 100 trip ids, chunk k holding
      the services at positions 100k up to 100k + 100 (clamped). */
  function ServiceChunks(n: nat, services: seq<Trip>): seq<seq<Trip>>
  {
    Windows(services, CeilDiv(n, BatchGetLimit), BatchGetLimit)
  }

  /** The route chunks: one per 100 trip ids, every one of them the first
      100 routes (or all of them). */
  function RouteChunks(n: nat, routes: seq<Trip>): seq<seq<Trip>>
  {
    seq(CeilDiv(n, BatchGetLimit), _ => routes[..Min(|routes|, BatchGetLimit)])
  }

  /** The loop that builds both chunk lists, stepping `i` by 100 over the trip ids. */
  method LookupChunks(n: nat, services: seq<Trip>, routes: seq<Trip>)
    returns (serviceChunks: seq<seq<Trip>>, routeChunks: seq<seq<Trip>>)
    ensures serviceChunks == ServiceChunks(n, services)
    ensures routeChunks == RouteChunks(n, routes)
  {
    CeilDivIsCeiling(n, BatchGetLimit);
    var count := CeilDiv(n, BatchGetLimit);
    serviceChunks, routeChunks := [], [];
    var i := 0;
    while i < n
      invariant i == BatchGetLimit * |serviceChunks| && |routeChunks| == |serviceChunks| <= count
      invariant (i < n) == (|serviceChunks| < count)
      invariant serviceChunks == Windows(services, |serviceChunks|, BatchGetLimit)
      invariant routeChunks == seq(|routeChunks|, _ => routes[..Min(|routes|, BatchGetLimit)])
    {
      serviceChunks := serviceChunks + [Slice(services, i, Min(|services|, i + BatchGetLimit))];
      routeChunks := routeChunks + [Slice(routes, 0, Min(|routes|, BatchGetLimit))];
      i := i + BatchGetLimit;
    }
  }

  /** The keys of the calendar batch-get for each service chunk. */
  function ServiceKeyChunks(serviceChunks: seq<seq<Trip>>): seq<seq<string>>
  {
    seq(|serviceChunks|, k requires 0 <= k < |serviceChunks| => ServiceIdsOf(serviceChunks[k]))
  }

  /** The keys of the route batch-get for each route chunk. */
  function RouteKeyChunks(routeChunks: seq<seq<Trip>>): seq<seq<string>>
  {
    seq(|routeChunks|, k requires 0 <= k < |routeChunks| => RouteIdsOf(routeChunks[k]))
  }

  /** The fetched trips whose service id is one of the services running that day. */
  function TripsInService(trips: seq<Trip>, serviceIds: seq<string>): seq<Trip>
  {
    Filter(trips, (t: Trip) => t.service_id in serviceIds)
  }

  /** One result record, each part found with a first-match `find`. */
  function ResultFor(s: Store, matchingRoutes: seq<Route>, calendarDates: seq<CalendarDate>,
                     calendarEntries: seq<Calendar>, trip: Trip): ItineraryResult
  {
    ItineraryResult(
      Find(matchingRoutes, (r: Route) => r.route_id == trip.route_id),
      trip,
      Find(calendarDates, (c: CalendarDate) => c.service_id == trip.service_id),
      Find(calendarEntries, (c: Calendar) => c.service_id == trip.service_id),
      QueryByTrip(s, trip.trip_id))
  }

  function Assemble(s: Store, matchingRoutes: seq<Route>, calendarDates: seq<CalendarDate>,
                    calendarEntries: seq<Calendar>, trips: seq<Trip>): seq<ItineraryResult>
  {
    seq(|trips|, i requires 0 <= i < |trips| => ResultFor(s, matchingRoutes, calendarDates, calendarEntries, trips[i]))
  }

  function TripRequests(tripChunks: seq<seq<string>>): seq<Request>
  {
    seq(|tripChunks|, k requires 0 <= k < |tripChunks| => GetTrips(tripChunks[k]))
  }

  function CalendarRequests(serviceChunks: seq<seq<Trip>>): seq<Request>
  {
    seq(|serviceChunks|, k requires 0 <= k < |serviceChunks| => GetCalendars(ServiceIdsOf(serviceChunks[k])))
  }

  function RouteRequests(routeChunks: seq<seq<Trip>>): seq<Request>
  {
    seq(|routeChunks|, k requires 0 <= k < |routeChunks| => GetRoutes(RouteIdsOf(routeChunks[k])))
  }

  function ItineraryRequests(trips: seq<Trip>): seq<Request>
  {
    seq(|trips|, i requires 0 <= i < |trips| => QueryStopTimesByTrip(trips[i].trip_id))
  }

  /** The values the handler computes once the trips are fetched, as if no stage had failed. */
  datatype Lookup = Lookup(
    services: seq<Trip>,
    routes: seq<Trip>,
    serviceChunks: seq<seq<Trip>>,
    routeChunks: seq<seq<Trip>>,
    calendarEntries: seq<Calendar>,
    uniqueServiceIds: seq<string>,
    exceptionKeys: seq<(string, Date)>,
    calendarDates: seq<CalendarDate>,
    matchingRoutes: seq<Route>,
    filteredTrips: seq<Trip>)

  /** From `n` matching trip ids and the trips fetched for them to the result records. */
  function LookupOf(s: Store, date: Date, n: nat, tripsData: seq<Trip>): Lookup
  {
    var services := ServicesWithoutDuplicates(tripsData);
    var routes := RoutesWithoutDuplicates(tripsData);
    var serviceChunks := ServiceChunks(n, services);
    var routeChunks := RouteChunks(n, routes);
    var entries := CalendarWindow(Flatten(BatchGets(s.calendar, ServiceKeyChunks(serviceChunks))), date);
    var uniqueIds := UniqueServiceIds(entries);
    var keys := ExceptionKeys(uniqueIds, date);
    Lookup(services, routes, serviceChunks, routeChunks, entries, uniqueIds, keys, BatchGet(s.calendarDates, keys),
           Flatten(BatchGets(s.routes, RouteKeyChunks(routeChunks))), TripsInService(tripsData, uniqueIds))
  }

  /** The store calls of the lookup part: the calendar batch-gets, then, unless no calendar
      entry is valid on the date, the exceptions batch-get, the route batch-gets and one
      itinerary query per trip in service, even when there is none and the final `reduce`
      throws. */
  function LookupCalls(l: Lookup): seq<Request>
  {
    CalendarRequests(l.serviceChunks)
      + (if l.calendarEntries == [] then []
         else [GetCalendarDates(l.exceptionKeys)] + RouteRequests(l.routeChunks) + ItineraryRequests(l.filteredTrips))
  }

  function LookupOutcome(s: Store, l: Lookup): Result<seq<ItineraryResult>, SearchError>
  {
    if l.calendarEntries == [] then Err(EmptyReduce(CalendarEntries))
    else if l.filteredTrips == [] then Err(EmptyReduce(Itineraries))
    else Ok(Assemble(s, l.matchingRoutes, l.calendarDates, l.calendarEntries, l.filteredTrips))
  }

  /** Every intermediate value of the handler, computed as if no stage had failed. */
  datatype Stages = Stages(
    directionalTrips: seq<StopTime>,
    matchingTripIds: seq<string>,
    tripChunks: seq<seq<string>>,
    matchingTripsData: seq<Trip>,
    lookup: Lookup)

  function StagesOf(s: Store, ev: SearchEvent): Stages
  {
    var directionalTrips := DirectionalTrips(s, ev.originStopId, ev.destinationStopId);
    var ids := TripIds(directionalTrips);
    var tripChunks := Chunks(ids, BatchGetLimit);
    var tripsData := Flatten(BatchGets(s.trips, tripChunks));
    Stages(directionalTrips, ids, tripChunks, tripsData, LookupOf(s, ev.outboundDate, |ids|, tripsData))
  }

  /** The two stop-time queries every invocation starts with. */
  function Queries(ev: SearchEvent): seq<Request>
  {
    [QueryStopTimesByStop(ev.originStopId), QueryStopTimesByStop(ev.destinationStopId)]
  }

  /** The outcome and the store calls of an invocation whose stages computed `st`: it throws
      at the first stage whose list came out empty. */
  function RunOf(s: Store, ev: SearchEvent, st: Stages): Run
  {
    if st.directionalTrips == [] then Run(Err(NotFoundException), Queries(ev))
    else if st.matchingTripsData == [] then Run(Err(EmptyReduce(FetchedTrips)), Queries(ev) + TripRequests(st.tripChunks))
    else Run(LookupOutcome(s, st.lookup), Queries(ev) + TripRequests(st.tripChunks) + LookupCalls(st.lookup))
  }

  /** The handler as a function of the store and the request. */
  function Search(s: Store, ev: SearchEvent): Run
  {
    RunOf(s, ev, StagesOf(s, ev))
  }

  /** The handler from the fetched trips on: the chunk lists are built by their loop, and the
      calendar exceptions and routes are assigned to variables declared before they are fetched. */
  method LookupPhase(s: Store, date: Date, n: nat, tripsData: seq<Trip>)
    returns (outcome: Result<seq<ItineraryResult>, SearchError>, calls: seq<Request>)
    ensures outcome == LookupOutcome(s, LookupOf(s, date, n, tripsData))
    ensures calls == LookupCalls(LookupOf(s, date, n, tripsData))
  {
    var servicesWithoutDuplicates := ServicesWithoutDuplicates(tripsData);
    var routesWithoutDuplicates := RoutesWithoutDuplicates(tripsData);
    var serviceChunks, routeChunks := LookupChunks(n, servicesWithoutDuplicates, routesWithoutDuplicates);
    calls := CalendarRequests(serviceChunks);
    var fetchedCalendars := Flatten(BatchGets(s.calendar, ServiceKeyChunks(serviceChunks)));
    var matchingCalendarEntries := CalendarWindow(fetchedCalendars, date);
    if matchingCalendarEntries == [] {
      return Err(EmptyReduce(CalendarEntries)), calls + [];
    }

    var uniqueServicesIds := UniqueServiceIds(matchingCalendarEntries);
    var matchingCalendarDates: seq<CalendarDate>, matchingRoutes: seq<Route> := [], [];
    var exceptionKeys := ExceptionKeys(uniqueServicesIds, date);
    var later := [GetCalendarDates(exceptionKeys)];
    matchingCalendarDates := BatchGet(s.calendarDates, exceptionKeys);
    later := later + RouteRequests(routeChunks);
    matchingRoutes := Flatten(BatchGets(s.routes, RouteKeyChunks(routeChunks)));

    var filteredTrips := TripsInService(tripsData, uniqueServicesIds);
    later := later + ItineraryRequests(filteredTrips);
    calls := calls + later;
    if filteredTrips == [] {
      return Err(EmptyReduce(Itineraries)), calls;
    }
    outcome := Ok(Assemble(s, matchingRoutes, matchingCalendarDates, matchingCalendarEntries, filteredTrips));
  }

  /** The handler, step by step: the stop-time queries and the direction filter, the trip-id
      chunks built by their loop and fetched, then the lookup part. */
  method Handler(s: Store, ev: SearchEvent) returns (run: Run)
    ensures run == Search(s, ev)
  {
    var requests := Queries(ev);
    var directionalTrips := DirectionalTrips(s, ev.originStopId, ev.destinationStopId);
    if directionalTrips == [] {
      return Run(Err(NotFoundException), requests);
    }

    var matchingTripIds := TripIds(directionalTrips);
    var tripChunks := Chunk(matchingTripIds, BatchGetLimit);
    requests := requests + TripRequests(tripChunks);
    var matchingTripsData := Flatten(BatchGets(s.trips, tripChunks));
    if matchingTripsData == [] {
      return Run(Err(EmptyReduce(FetchedTrips)), requests);
    }

    var outcome, calls := LookupPhase(s, ev.outboundDate, |matchingTripIds|, matchingTripsData);
    run := Run(outcome, requests + calls);
  }

  // ---------------------------------------------------------------------------------------
  // Properties of the handler

  lemma {:induction false} ServiceIdsOfFlatten(chunks: seq<seq<Trip>>)
    ensures Flatten(ServiceKeyChunks(chunks)) == ServiceIdsOf(Flatten(chunks))
  {
    if chunks != [] {
      ServiceIdsOfFlatten(chunks[1..]);
      assert ServiceKeyChunks(chunks)[1..] == ServiceKeyChunks(chunks[1..]);
      assert ServiceIdsOf(chunks[0] + Flatten(chunks[1..])) == ServiceIdsOf(chunks[0]) + ServiceIdsOf(Flatten(chunks[1..]));
    }
  }

  lemma {:induction false} RouteIdsOfFlatten(chunks: seq<seq<Trip>>)
    ensures Flatten(RouteKeyChunks(chunks)) == RouteIdsOf(Flatten(chunks))
  {
    if chunks != [] {
      RouteIdsOfFlatten(chunks[1..]);
      assert RouteKeyChunks(chunks)[1..] == RouteKeyChunks(chunks[1..]);
      assert RouteIdsOf(chunks[0] + Flatten(chunks[1..])) == RouteIdsOf(chunks[0]) + RouteIdsOf(Flatten(chunks[1..]));
    }
  }

  /** The trips fetched in chunks are those a single batch-get of every matching trip id returns. */
  lemma FetchedTripsAreStored(s: Store, ev: SearchEvent)
    ensures StagesOf(s, ev).matchingTripsData == BatchGet(s.trips, StagesOf(s, ev).matchingTripIds)
    ensures |StagesOf(s, ev).matchingTripsData| <= |StagesOf(s, ev).matchingTripIds|
  {
    var st := StagesOf(s, ev);
    ChunksPartition(st.matchingTripIds, BatchGetLimit);
    BatchGetsFlatten(s.trips, st.tripChunks);
  }

  /** The handler throws `NOT_FOUND_EXCEPTION` exactly when no row survives the direction
      filter, and then it has issued only the two stop-time queries and no batch-get. The two
      `reduce` failures are told apart by the stage whose list came out empty; in particular an
      empty calendar window is not reported as `NOT_FOUND_EXCEPTION`. */
  lemma SearchOutcomes(s: Store, ev: SearchEvent)
    ensures var st := StagesOf(s, ev);
      && (Search(s, ev).outcome == Err(NotFoundException) <==> st.directionalTrips == [])
      && (st.directionalTrips == [] ==>
            Search(s, ev).requests == [QueryStopTimesByStop(ev.originStopId), QueryStopTimesByStop(ev.destinationStopId)])
      && (Search(s, ev).outcome == Err(EmptyReduce(FetchedTrips)) <==>
            st.directionalTrips != [] && st.matchingTripsData == [])
      && (Search(s, ev).outcome == Err(EmptyReduce(CalendarEntries)) <==>
            st.directionalTrips != [] && st.matchingTripsData != [] && st.lookup.calendarEntries == [])
  {
  }

  /** The service chunks built from `n` trip ids: one per 100 ids, each of at most 100 trips.
      When there are no more fetched trips than ids, the chunks together hold every distinct
      service once. */
  lemma {:induction false} ServiceChunksCover(n: nat, trips: seq<Trip>)
    requires |trips| <= n
    ensures var chunks := ServiceChunks(n, ServicesWithoutDuplicates(trips));
      && |chunks| == CeilDiv(n, BatchGetLimit)
      && (forall k :: 0 <= k < |chunks| ==> |chunks[k]| <= BatchGetLimit)
      && Flatten(ServiceKeyChunks(chunks)) == ServiceIdsOf(ServicesWithoutDuplicates(trips))
  {
    var services := ServicesWithoutDuplicates(trips);
    ObjectValuesDistinct(trips, (t: Trip) => t.service_id);
    CeilDivIsCeiling(n, BatchGetLimit);
    var count := CeilDiv(n, BatchGetLimit);
    assert count * BatchGetLimit >= n;
    FlattenWindows(services, count, BatchGetLimit);
    assert services[..Min(count * BatchGetLimit, |services|)] == services;
    ServiceIdsOfFlatten(ServiceChunks(n, services));
  }

  /** A calendar entry fetched for the service chunks belongs to the service of one of the trips. */
  lemma {:induction false} ServedByTrip(calendar: map<string, Calendar>, n: nat, trips: seq<Trip>, c: Calendar)
    requires forall k :: k in calendar ==> calendar[k].service_id == k
    requires c in Flatten(BatchGets(calendar, ServiceKeyChunks(ServiceChunks(n, ServicesWithoutDuplicates(trips)))))
    ensures exists t :: t in trips && t.service_id == c.service_id
  {
    var services := ServicesWithoutDuplicates(trips);
    var chunks := ServiceChunks(n, services);
    var keyChunks := ServiceKeyChunks(chunks);
    BatchGetsFlatten(calendar, keyChunks);
    BatchGetFinds(calendar, Flatten(keyChunks), c);
    var k :| k in Flatten(keyChunks) && k in calendar && calendar[k] == c;
    ServiceIdsOfFlatten(chunks);
    FlattenWindows(services, CeilDiv(n, BatchGetLimit), BatchGetLimit);
    var prefix := Flatten(chunks);
    var j :| 0 <= j < |prefix| && prefix[j].service_id == k;
    var m :| 0 <= m < |services| && services[m] == prefix[j];
    ObjectValuesKeepsLast(trips, (t: Trip) => t.service_id, m);
  }

  /** Every calendar entry valid on the date belongs to the service of a fetched trip. */
  lemma EntryServesFetchedTrip(s: Store, ev: SearchEvent, c: Calendar)
    requires ValidStore(s)
    requires c in StagesOf(s, ev).lookup.calendarEntries
    ensures exists t :: t in StagesOf(s, ev).matchingTripsData && t.service_id == c.service_id
  {
    var st := StagesOf(s, ev);
    ServedByTrip(s.calendar, |st.matchingTripIds|, st.matchingTripsData, c);
  }

  /** Once a calendar entry is valid on the date, some fetched trip passes the service filter. */
  lemma {:induction false} SomeTripInService(s: Store, date: Date, n: nat, tripsData: seq<Trip>)
    requires ValidStore(s)
    requires LookupOf(s, date, n, tripsData).calendarEntries != []
    ensures LookupOf(s, date, n, tripsData).filteredTrips != []
  {
    var l := LookupOf(s, date, n, tripsData);
    var c := l.calendarEntries[0];
    ServedByTrip(s.calendar, n, tripsData, c);
    var t :| t in tripsData && t.service_id == c.service_id;
    UniqueServiceIdsExactly(l.calendarEntries, c.service_id);
    assert t in l.filteredTrips;
  }

  /** In a well-formed store the `reduce` over the itineraries never meets an empty list:
      every calendar entry that survives came from the service of a fetched trip, and that
      trip then passes the service filter. */
  lemma ItinerariesReduceNeverFails(s: Store, ev: SearchEvent)
    requires ValidStore(s)
    ensures Search(s, ev).outcome != Err(EmptyReduce(Itineraries))
  {
    var st := StagesOf(s, ev);
    if st.lookup.calendarEntries != [] {
      SomeTripInService(s, ev.outboundDate, |st.matchingTripIds|, st.matchingTripsData);
    }
  }

  /** The trip-id chunks: each holds 1 to 100 ids, there are ceil(n / 100) of them, and they
      concatenate back to the matching trip ids. */
  lemma TripChunksPartitionIds(s: Store, ev: SearchEvent)
    ensures var st := StagesOf(s, ev); var n := |st.tripChunks|;
      && Flatten(st.tripChunks) == st.matchingTripIds
      && n == (|st.matchingTripIds| + 99) / 100
      && (forall k :: 0 <= k < n ==> 1 <= |st.tripChunks[k]| <= BatchGetLimit)
  {
    var st := StagesOf(s, ev);
    ChunksPartition(st.matchingTripIds, BatchGetLimit);
    CeilDivIsCeiling(|st.matchingTripIds|, BatchGetLimit);
  }

  lemma PrefixOfAppend<T>(a: seq<T>, b: seq<T>)
    ensures |a + b| >= |a| && (a + b)[..|a|] == a
  {
  }

  /** Past the direction filter, the first requests are the two stop-time queries followed by
      one trips batch-get per trip-id chunk, in chunk order. */
  lemma TripRequestsFollowQueries(s: Store, ev: SearchEvent, st: Stages)
    requires st.directionalTrips != []
    ensures |RunOf(s, ev, st).requests| >= 2 + |st.tripChunks|
    ensures RunOf(s, ev, st).requests[..2 + |st.tripChunks|] == Queries(ev) + TripRequests(st.tripChunks)
  {
    var prefix := Queries(ev) + TripRequests(st.tripChunks);
    if st.matchingTripsData == [] {
      PrefixOfAppend(prefix, []);
      assert RunOf(s, ev, st).requests == prefix + [];
    } else {
      PrefixOfAppend(prefix, LookupCalls(st.lookup));
    }
  }

  /** Which part of the handler issued a request. */
  lemma RequestOrigin(s: Store, ev: SearchEvent, st: Stages, r: Request)
    requires r in RunOf(s, ev, st).requests
    ensures || r in Queries(ev)
            || (st.directionalTrips != [] && r in TripRequests(st.tripChunks))
            || (st.directionalTrips != [] && st.matchingTripsData != [] && r in LookupCalls(st.lookup))
  {
  }

  /** The trip chunks are fetched by trips batch-gets only, and the lookup part issues none. */
  lemma TripsRequestsOnlyFromChunks(tripChunks: seq<seq<string>>, l: Lookup)
    ensures forall r :: r in TripRequests(tripChunks) ==> r.GetTrips?
    ensures forall r :: r in LookupCalls(l) ==> !r.GetTrips?
  {
  }

  /** Every trips batch-get the handler issues is one of the chunked requests. */
  lemma OnlyChunkedTripRequests(s: Store, ev: SearchEvent, r: Request)
    requires r in Search(s, ev).requests && r.GetTrips?
    ensures r in TripRequests(StagesOf(s, ev).tripChunks)
  {
    var st := StagesOf(s, ev);
    RequestOrigin(s, ev, st, r);
    TripsRequestsOnlyFromChunks(st.tripChunks, st.lookup);
  }

  /** The calendar batch-gets: one per chunk of 100 trip ids, each of at most 100 service ids.
      Because there are never more distinct services than trip ids, together they request
      every distinct service id of the fetched trips, once each. */
  lemma CalendarRequestsCoverServices(s: Store, ev: SearchEvent)
    ensures var st := StagesOf(s, ev);
      && |st.lookup.serviceChunks| == |st.tripChunks|
      && (forall k :: 0 <= k < |st.lookup.serviceChunks| ==> |st.lookup.serviceChunks[k]| <= BatchGetLimit)
      && Flatten(ServiceKeyChunks(st.lookup.serviceChunks)) == ServiceIdsOf(st.lookup.services)
  {
    var st := StagesOf(s, ev);
    ChunksPartition(st.matchingTripIds, BatchGetLimit);
    FetchedTripsAreStored(s, ev);
    ServiceChunksCover(|st.matchingTripIds|, st.matchingTripsData);
  }

  /** With more than 100 trip ids but at most 100 distinct services, the second calendar chunk
      holds the services from position 100 on, of which there are none: the lookup part issues a calendar
      batch-get with no keys. */
  lemma EmptyCalendarChunk(s: Store, date: Date, n: nat, tripsData: seq<Trip>)
    requires n > BatchGetLimit >= |ServicesWithoutDuplicates(tripsData)|
    ensures GetCalendars([]) in LookupCalls(LookupOf(s, date, n, tripsData))
  {
    var l := LookupOf(s, date, n, tripsData);
    CeilDivIsCeiling(n, BatchGetLimit);
    assert l.serviceChunks[1] == [];
    assert CalendarRequests(l.serviceChunks)[1] == GetCalendars([]);
  }

  /** So a search past the trips stage with more than 100 matching trip ids and at most 100
      distinct services sends a calendar batch-get with no keys. */
  lemma EmptyCalendarRequest(s: Store, ev: SearchEvent)
    requires StagesOf(s, ev).matchingTripsData != []
    requires |StagesOf(s, ev).matchingTripIds| > BatchGetLimit >= |StagesOf(s, ev).lookup.services|
    ensures GetCalendars([]) in Search(s, ev).requests
  {
    var st := StagesOf(s, ev);
    EmptyCalendarChunk(s, ev.outboundDate, |st.matchingTripIds|, st.matchingTripsData);
    assert st.directionalTrips != [];
  }

  /** Every routes batch-get is one of the per-chunk route requests, and all of them ask for
      the route ids of the first min(|routes|, 100) de-duplicated routes. */
  lemma {:induction false} RoutesRequestedPerChunk(s: Store, date: Date, n: nat, tripsData: seq<Trip>, r: Request)
    requires r in LookupCalls(LookupOf(s, date, n, tripsData)) && r.GetRoutes?
    ensures var routes := LookupOf(s, date, n, tripsData).routes;
      r.routeIds == RouteIdsOf(routes[..Min(|routes|, BatchGetLimit)])
  {
    var l := LookupOf(s, date, n, tripsData);
    RouteRequestOfChunks(l, n, r);
  }

  lemma RouteRequestOfChunks(l: Lookup, n: nat, r: Request)
    requires l.routeChunks == RouteChunks(n, l.routes)
    requires r in LookupCalls(l) && r.GetRoutes?
    ensures r.routeIds == RouteIdsOf(l.routes[..Min(|l.routes|, BatchGetLimit)])
  {
    assert r in RouteRequests(l.routeChunks);
  }

  /** Every routes batch-get asks for the same keys: the route ids of the first
      min(|routes|, 100) de-duplicated routes. */
  lemma RouteRequestsRepeatFirstHundred(s: Store, ev: SearchEvent)
    ensures var st := StagesOf(s, ev);
      forall r :: r in Search(s, ev).requests && r.GetRoutes? ==>
        r.routeIds == RouteIdsOf(st.lookup.routes[..Min(|st.lookup.routes|, BatchGetLimit)])
  {
    var st := StagesOf(s, ev);
    forall r | r in Search(s, ev).requests && r.GetRoutes?
      ensures r.routeIds == RouteIdsOf(st.lookup.routes[..Min(|st.lookup.routes|, BatchGetLimit)])
    {
      RequestOrigin(s, ev, st, r);
      TripsRequestsOnlyFromChunks(st.tripChunks, st.lookup);
      RoutesRequestedPerChunk(s, ev.outboundDate, |st.matchingTripIds|, st.matchingTripsData, r);
    }
  }

  /** So a route beyond the 100th distinct route of the fetched trips is never requested. */
  lemma RoutesBeyondHundredNeverRequested(s: Store, ev: SearchEvent, j: nat)
    requires BatchGetLimit <= j < |StagesOf(s, ev).lookup.routes|
    ensures forall r :: r in Search(s, ev).requests && r.GetRoutes? ==>
      StagesOf(s, ev).lookup.routes[j].route_id !in r.routeIds
  {
    var st := StagesOf(s, ev);
    RouteRequestsRepeatFirstHundred(s, ev);
    ObjectValuesDistinct(st.matchingTripsData, (t: Trip) => t.route_id);
    LaterRouteNotInPrefix(st.lookup.routes, BatchGetLimit, j);
  }

  /** With distinct route ids, a route past a prefix has none of the prefix's ids. */
  lemma LaterRouteNotInPrefix(routes: seq<Trip>, k: nat, j: nat)
    requires k <= j < |routes|
    requires forall a, b :: 0 <= a < b < |routes| ==> routes[a].route_id != routes[b].route_id
    ensures routes[j].route_id !in RouteIdsOf(routes[..k])
  {
    var first := RouteIdsOf(routes[..k]);
    forall i | 0 <= i < |first| ensures first[i] != routes[j].route_id {
      assert first[i] == routes[i].route_id;
    }
  }
}
