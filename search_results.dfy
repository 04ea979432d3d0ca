/** What the records returned by a successful search say about the store: each names a trip
    that runs from the origin to the destination, the calendar entry that makes it run on the
    date, the exception stored for that service and date, and the route when it was among the
    routes looked up; and no such trip is missing from the result. */
module SearchResults {
  import opened Wrappers
  import opened Seqs
  import opened Chunking
  import opened Gtfs
  import opened StopSequence
  import opened Correlation
  import opened Dedup
  import opened Calendars
  import opened SearchRoutes

  // ---------------------------------------------------------------------------------------
  // One record of the lookup part, for `n` trip ids and the trips fetched for them

  /** The record names the i-th trip that passed the service filter: a fetched trip whose
      service has a calendar entry valid on the date; its itinerary is every stop time of
      that trip. */
  lemma RecordTrip(s: Store, date: Date, n: nat, tripsData: seq<Trip>, i: nat)
    requires LookupOutcome(s, LookupOf(s, date, n, tripsData)).Ok?
    requires i < |LookupOutcome(s, LookupOf(s, date, n, tripsData)).value|
    ensures var l := LookupOf(s, date, n, tripsData);
      var record := LookupOutcome(s, l).value[i];
      && record.trip == l.filteredTrips[i]
      && record.trip in tripsData
      && (exists c :: c in l.calendarEntries && c.service_id == record.trip.service_id)
      && (forall x :: x in record.itinerary <==> x in s.stopTimes && x.trip_id == record.trip.trip_id)
  {
    var l := LookupOf(s, date, n, tripsData);
    var t := l.filteredTrips[i];
    assert t.service_id in l.uniqueServiceIds;
    UniqueServiceIdsExactly(l.calendarEntries, t.service_id);
  }

  /** There is one record per trip that passed the service filter, and those trips keep the
      order of the fetched trips. */
  lemma RecordsFollowFetchedTrips(s: Store, date: Date, n: nat, tripsData: seq<Trip>)
    requires LookupOutcome(s, LookupOf(s, date, n, tripsData)).Ok?
    ensures var l := LookupOf(s, date, n, tripsData);
      && |LookupOutcome(s, l).value| == |l.filteredTrips|
      && IsSubseq(l.filteredTrips, tripsData)
  {
    var l := LookupOf(s, date, n, tripsData);
    FilterIsSubseq(tripsData, (x: Trip) => x.service_id in l.uniqueServiceIds);
  }

  /** The calendar entries valid on the date, in a well-formed store, are the stored entries of
      their services. */
  lemma {:induction false} EntryIsStored(s: Store, date: Date, n: nat, tripsData: seq<Trip>, c: Calendar)
    requires ValidStore(s)
    requires c in LookupOf(s, date, n, tripsData).calendarEntries
    ensures c.service_id in s.calendar && s.calendar[c.service_id] == c && InWindow(c, date)
  {
    var l := LookupOf(s, date, n, tripsData);
    var keyChunks := ServiceKeyChunks(l.serviceChunks);
    BatchGetsFlatten(s.calendar, keyChunks);
    BatchGetFinds(s.calendar, Flatten(keyChunks), c);
  }

  /** The record's calendar is the stored calendar entry of the trip's service, and it is valid
      on the date. */
  lemma RecordCalendar(s: Store, date: Date, n: nat, tripsData: seq<Trip>, i: nat)
    requires ValidStore(s)
    requires LookupOutcome(s, LookupOf(s, date, n, tripsData)).Ok?
    requires i < |LookupOutcome(s, LookupOf(s, date, n, tripsData)).value|
    ensures var record := LookupOutcome(s, LookupOf(s, date, n, tripsData)).value[i];
      && record.trip.service_id in s.calendar
      && record.calendar == Some(s.calendar[record.trip.service_id])
      && InWindow(record.calendar.value, date)
  {
    var l := LookupOf(s, date, n, tripsData);
    var record := LookupOutcome(s, l).value[i];
    RecordTrip(s, date, n, tripsData, i);
    var c :| c in l.calendarEntries && c.service_id == record.trip.service_id;
    EntryIsStored(s, date, n, tripsData, c);
    var found := record.calendar.value;
    EntryIsStored(s, date, n, tripsData, found);
  }

  /** The record's service exception is the exception stored for the trip's service on the
      date, and there is none exactly when the store has none. */
  lemma RecordException(s: Store, date: Date, n: nat, tripsData: seq<Trip>, i: nat)
    requires ValidStore(s)
    requires LookupOutcome(s, LookupOf(s, date, n, tripsData)).Ok?
    requires i < |LookupOutcome(s, LookupOf(s, date, n, tripsData)).value|
    ensures var record := LookupOutcome(s, LookupOf(s, date, n, tripsData)).value[i];
      var key := (record.trip.service_id, date);
      && (record.serviceException.Some? <==> key in s.calendarDates)
      && (record.serviceException.Some? ==> record.serviceException.value == s.calendarDates[key])
  {
    var l := LookupOf(s, date, n, tripsData);
    var record := LookupOutcome(s, l).value[i];
    var sid := record.trip.service_id;
    RecordTrip(s, date, n, tripsData, i);
    UniqueServiceIdsExactly(l.calendarEntries, sid);
    var dates := BatchGet(s.calendarDates, l.exceptionKeys);
    assert record.serviceException.None? ==> forall x :: x in dates ==> x.service_id != sid;
    ExceptionOfService(s, l.exceptionKeys, sid, date, record.serviceException);
  }

  /** The exception found for a service among the exceptions fetched for keys on `date` that
      include the service's key whenever it is stored. */
  lemma ExceptionOfService(s: Store, keys: seq<(string, Date)>, sid: string, date: Date, found: Option<CalendarDate>)
    requires ValidStore(s)
    requires forall k :: k in keys ==> k.1 == date
    requires (sid, date) in s.calendarDates ==> (sid, date) in keys
    requires found.None? ==> forall x :: x in BatchGet(s.calendarDates, keys) ==> x.service_id != sid
    requires found.Some? ==> found.value in BatchGet(s.calendarDates, keys) && found.value.service_id == sid
    ensures found.Some? <==> (sid, date) in s.calendarDates
    ensures found.Some? ==> found.value == s.calendarDates[(sid, date)]
  {
    var key := (sid, date);
    if found.Some? {
      BatchGetFinds(s.calendarDates, keys, found.value);
    }
    if key in s.calendarDates {
      BatchGetFinds(s.calendarDates, keys, s.calendarDates[key]);
    }
  }

  /** Flattening `k` copies of one sequence gives the elements of that sequence, when `k > 0`. */
  lemma {:induction false} FlattenCopies<T>(xs: seq<T>, copies: seq<seq<T>>, y: T)
    requires forall k :: 0 <= k < |copies| ==> copies[k] == xs
    ensures y in Flatten(copies) <==> |copies| > 0 && y in xs
  {
    if copies != [] {
      FlattenCopies(xs, copies[1..], y);
    }
  }

  /** The route ids the route batch-gets ask for, together: those of the first
      min(|routes|, 100) de-duplicated routes, repeated once per chunk of trip ids. */
  lemma RequestedRouteIds(s: Store, date: Date, n: nat, tripsData: seq<Trip>, id: string)
    ensures var l := LookupOf(s, date, n, tripsData);
      id in Flatten(RouteKeyChunks(l.routeChunks)) <==>
        n > 0 && id in RouteIdsOf(l.routes[..Min(|l.routes|, BatchGetLimit)])
  {
    var l := LookupOf(s, date, n, tripsData);
    var first := RouteIdsOf(l.routes[..Min(|l.routes|, BatchGetLimit)]);
    CeilDivIsCeiling(n, BatchGetLimit);
    FlattenCopies(first, RouteKeyChunks(l.routeChunks), id);
  }

  /** The record's route is the stored route of the trip, found exactly when the trip's route
      is stored and is among the first 100 distinct routes of the fetched trips. */
  lemma RecordRoute(s: Store, date: Date, n: nat, tripsData: seq<Trip>, i: nat)
    requires ValidStore(s)
    requires |tripsData| <= n
    requires LookupOutcome(s, LookupOf(s, date, n, tripsData)).Ok?
    requires i < |LookupOutcome(s, LookupOf(s, date, n, tripsData)).value|
    ensures var l := LookupOf(s, date, n, tripsData);
      var record := LookupOutcome(s, l).value[i];
      var id := record.trip.route_id;
      && (record.route.Some? <==>
            id in s.routes && id in RouteIdsOf(l.routes[..Min(|l.routes|, BatchGetLimit)]))
      && (record.route.Some? ==> record.route.value == s.routes[id])
  {
    var l := LookupOf(s, date, n, tripsData);
    var record := LookupOutcome(s, l).value[i];
    var id := record.trip.route_id;
    RecordTrip(s, date, n, tripsData, i);
    var keys := Flatten(RouteKeyChunks(l.routeChunks));
    BatchGetsFlatten(s.routes, RouteKeyChunks(l.routeChunks));
    RequestedRouteIds(s, date, n, tripsData, id);
    if record.route.Some? {
      BatchGetFinds(s.routes, keys, record.route.value);
    }
    if id in s.routes && id in RouteIdsOf(l.routes[..Min(|l.routes|, BatchGetLimit)]) {
      BatchGetFinds(s.routes, keys, s.routes[id]);
    }
  }

  /** With at most 100 distinct routes, the route of every fetched trip is among those the
      route batch-gets ask for. */
  lemma FewRoutesAllRequested(tripsData: seq<Trip>, t: Trip)
    requires t in tripsData
    requires |RoutesWithoutDuplicates(tripsData)| <= BatchGetLimit
    ensures var routes := RoutesWithoutDuplicates(tripsData);
      t.route_id in RouteIdsOf(routes[..Min(|routes|, BatchGetLimit)])
  {
    var routes := RoutesWithoutDuplicates(tripsData);
    var m :| 0 <= m < |tripsData| && tripsData[m] == t;
    ObjectValuesCovers(tripsData, (x: Trip) => x.route_id, m);
    var j :| 0 <= j < |routes| && routes[j].route_id == t.route_id;
    assert routes[..Min(|routes|, BatchGetLimit)] == routes;
    assert RouteIdsOf(routes)[j] == t.route_id;
  }

  /** Every fetched trip's route is among the de-duplicated routes, so with at most 100
      distinct routes the record's route is found exactly when it is stored. */
  lemma RecordRouteFewRoutes(s: Store, date: Date, n: nat, tripsData: seq<Trip>, i: nat)
    requires ValidStore(s)
    requires |tripsData| <= n
    requires |LookupOf(s, date, n, tripsData).routes| <= BatchGetLimit
    requires LookupOutcome(s, LookupOf(s, date, n, tripsData)).Ok?
    requires i < |LookupOutcome(s, LookupOf(s, date, n, tripsData)).value|
    ensures var record := LookupOutcome(s, LookupOf(s, date, n, tripsData)).value[i];
      record.route.Some? <==> record.trip.route_id in s.routes
  {
    var l := LookupOf(s, date, n, tripsData);
    var record := LookupOutcome(s, l).value[i];
    RecordTrip(s, date, n, tripsData, i);
    RecordRoute(s, date, n, tripsData, i);
    FewRoutesAllRequested(tripsData, record.trip);
  }

  /** The calendar entry valid on the date for the service of a fetched trip survives the
      calendar stage, provided there are no more fetched trips than trip ids (so every service
      is looked up). */
  lemma ServedTripKeepsCalendar(s: Store, date: Date, n: nat, tripsData: seq<Trip>, t: Trip)
    requires ValidStore(s)
    requires |tripsData| <= n && t in tripsData
    requires t.service_id in s.calendar && InWindow(s.calendar[t.service_id], date)
    ensures s.calendar[t.service_id] in LookupOf(s, date, n, tripsData).calendarEntries
  {
    var l := LookupOf(s, date, n, tripsData);
    var sid := t.service_id;
    var m :| 0 <= m < |tripsData| && tripsData[m] == t;
    ObjectValuesCovers(tripsData, (x: Trip) => x.service_id, m);
    var j :| 0 <= j < |l.services| && l.services[j].service_id == sid;
    ServiceChunksCover(n, tripsData);
    var keyChunks := ServiceKeyChunks(l.serviceChunks);
    assert ServiceIdsOf(l.services)[j] == sid;
    BatchGetsFlatten(s.calendar, keyChunks);
    BatchGetFinds(s.calendar, Flatten(keyChunks), s.calendar[sid]);
  }

  /** A calendar entry valid on the date for the service of a fetched trip makes that trip one
      of the records, provided there are no more fetched trips than trip ids. */
  lemma LookupFindsServedTrip(s: Store, date: Date, n: nat, tripsData: seq<Trip>, t: Trip)
    requires ValidStore(s)
    requires |tripsData| <= n && t in tripsData
    requires t.service_id in s.calendar && InWindow(s.calendar[t.service_id], date)
    ensures LookupOutcome(s, LookupOf(s, date, n, tripsData)).Ok?
    ensures exists i :: 0 <= i < |LookupOutcome(s, LookupOf(s, date, n, tripsData)).value|
                        && LookupOutcome(s, LookupOf(s, date, n, tripsData)).value[i].trip == t
  {
    var l := LookupOf(s, date, n, tripsData);
    ServedTripKeepsCalendar(s, date, n, tripsData, t);
    UniqueServiceIdsExactly(l.calendarEntries, t.service_id);
    assert t in l.filteredTrips;
    var k :| 0 <= k < |l.filteredTrips| && l.filteredTrips[k] == t;
    assert LookupOutcome(s, l).value[k].trip == t;
  }

  // ---------------------------------------------------------------------------------------
  // The records of a search

  /** The trip stops at the origin and, later by (string) `stop_sequence`, at the destination. */
  ghost predicate RunsBetween(s: Store, tripId: string, originStopId: string, destinationStopId: string)
  {
    exists o, d :: && o in s.stopTimes && o.stop_id == originStopId && o.trip_id == tripId
                   && d in s.stopTimes && d.stop_id == destinationStopId && d.trip_id == tripId
                   && StrLess(o.stop_sequence, d.stop_sequence)
  }

  /** Running from A to B and from B to C on one trip means running from A to C: the trip
      has a single stop time at B, and string order on `stop_sequence` is transitive. */
  lemma RunsBetweenTransitive(s: Store, tripId: string, a: string, b: string, c: string)
    requires ValidStore(s)
    requires RunsBetween(s, tripId, a, b) && RunsBetween(s, tripId, b, c)
    ensures RunsBetween(s, tripId, a, c)
  {
    var o1, d1 :| && o1 in s.stopTimes && o1.stop_id == a && o1.trip_id == tripId
                  && d1 in s.stopTimes && d1.stop_id == b && d1.trip_id == tripId
                  && StrLess(o1.stop_sequence, d1.stop_sequence);
    var o2, d2 :| && o2 in s.stopTimes && o2.stop_id == b && o2.trip_id == tripId
                  && d2 in s.stopTimes && d2.stop_id == c && d2.trip_id == tripId
                  && StrLess(o2.stop_sequence, d2.stop_sequence);
    UniqueStopTime(s, d1, o2);
    StrLessTransitive(o1.stop_sequence, d1.stop_sequence, d2.stop_sequence);
  }

  /** A search that succeeds has got past the trips stage, and its records are those of the
      lookup part. */
  lemma SearchReachesLookup(s: Store, ev: SearchEvent)
    requires Search(s, ev).outcome.Ok?
    ensures StagesOf(s, ev).directionalTrips != [] && StagesOf(s, ev).matchingTripsData != []
    ensures Search(s, ev).outcome == LookupOutcome(s, StagesOf(s, ev).lookup)
  {
  }

  /** Each record of the lookup part, run on the trips fetched for the directional rows, names
      a stored trip of one of those rows, with the stored calendar entry of its service, valid
      on the date. */
  lemma RecordOfDirectionalTrip(s: Store, date: Date, directionalTrips: seq<StopTime>, i: nat)
    requires ValidStore(s)
    requires var ids := TripIds(directionalTrips);
      var outcome := LookupOutcome(s, LookupOf(s, date, |ids|, Flatten(BatchGets(s.trips, Chunks(ids, BatchGetLimit)))));
      outcome.Ok? && i < |outcome.value|
    ensures var ids := TripIds(directionalTrips);
      var outcome := LookupOutcome(s, LookupOf(s, date, |ids|, Flatten(BatchGets(s.trips, Chunks(ids, BatchGetLimit)))));
      var t := outcome.value[i].trip;
      && t.trip_id in s.trips && s.trips[t.trip_id] == t
      && (exists p :: 0 <= p < |directionalTrips| && directionalTrips[p].trip_id == t.trip_id)
      && t.service_id in s.calendar
      && outcome.value[i].calendar == Some(s.calendar[t.service_id])
      && InWindow(s.calendar[t.service_id], date)
  {
    var ids := TripIds(directionalTrips);
    var tripsData := Flatten(BatchGets(s.trips, Chunks(ids, BatchGetLimit)));
    RecordTrip(s, date, |ids|, tripsData, i);
    RecordCalendar(s, date, |ids|, tripsData, i);
    FetchedTripOfRow(s, directionalTrips, LookupOutcome(s, LookupOf(s, date, |ids|, tripsData)).value[i].trip);
  }

  /** A trip fetched for the directional rows is stored and belongs to one of those rows. */
  lemma FetchedTripOfRow(s: Store, directionalTrips: seq<StopTime>, t: Trip)
    requires ValidStore(s)
    requires t in Flatten(BatchGets(s.trips, Chunks(TripIds(directionalTrips), BatchGetLimit)))
    ensures t.trip_id in s.trips && s.trips[t.trip_id] == t
    ensures exists p :: 0 <= p < |directionalTrips| && directionalTrips[p].trip_id == t.trip_id
  {
    var ids := TripIds(directionalTrips);
    var tripChunks := Chunks(ids, BatchGetLimit);
    ChunksPartition(ids, BatchGetLimit);
    BatchGetsFlatten(s.trips, tripChunks);
    BatchGetFinds(s.trips, ids, t);
    var p :| 0 <= p < |ids| && ids[p] == t.trip_id;
    assert directionalTrips[p].trip_id == t.trip_id;
  }

  /** Each record of a successful search names a stored trip that runs from the origin to the
      destination, with the stored calendar entry of its service, valid on the date. */
  lemma SearchRecordsRunBetweenStops(s: Store, ev: SearchEvent, i: nat)
    requires ValidStore(s)
    requires Search(s, ev).outcome.Ok? && i < |Search(s, ev).outcome.value|
    ensures var t := Search(s, ev).outcome.value[i].trip;
      && t.trip_id in s.trips && s.trips[t.trip_id] == t
      && RunsBetween(s, t.trip_id, ev.originStopId, ev.destinationStopId)
      && t.service_id in s.calendar
      && Search(s, ev).outcome.value[i].calendar == Some(s.calendar[t.service_id])
      && InWindow(s.calendar[t.service_id], ev.outboundDate)
  {
    var st := StagesOf(s, ev);
    SearchReachesLookup(s, ev);
    RecordOfDirectionalTrip(s, ev.outboundDate, st.directionalTrips, i);
    var t := Search(s, ev).outcome.value[i].trip;
    var p :| 0 <= p < |st.directionalTrips| && st.directionalTrips[p].trip_id == t.trip_id;
    DirectionalTripsExactly(s, ev.originStopId, ev.destinationStopId, st.directionalTrips[p]);
  }

  /** A directional row whose trip is stored, and whose service has a calendar entry valid on
      the date, has that trip fetched and made one of the records of the lookup part. */
  lemma DirectionalTripIsFound(s: Store, date: Date, directionalTrips: seq<StopTime>, p: nat)
    requires ValidStore(s)
    requires p < |directionalTrips| && directionalTrips[p].trip_id in s.trips
    requires var t := s.trips[directionalTrips[p].trip_id];
      t.service_id in s.calendar && InWindow(s.calendar[t.service_id], date)
    ensures var ids := TripIds(directionalTrips);
      var tripsData := Flatten(BatchGets(s.trips, Chunks(ids, BatchGetLimit)));
      var outcome := LookupOutcome(s, LookupOf(s, date, |ids|, tripsData));
      && tripsData != []
      && outcome.Ok?
      && exists i :: 0 <= i < |outcome.value| && outcome.value[i].trip == s.trips[directionalTrips[p].trip_id]
  {
    var ids := TripIds(directionalTrips);
    var tripChunks := Chunks(ids, BatchGetLimit);
    var tripsData := Flatten(BatchGets(s.trips, tripChunks));
    assert ids[p] == directionalTrips[p].trip_id;
    ChunksPartition(ids, BatchGetLimit);
    BatchGetsFlatten(s.trips, tripChunks);
    BatchGetFinds(s.trips, ids, s.trips[ids[p]]);
    LookupFindsServedTrip(s, date, |ids|, tripsData, s.trips[ids[p]]);
  }

  /** And no such trip is missing: a stored trip that runs from the origin to the destination,
      and whose service has a calendar entry valid on the date, makes the search succeed and is
      the trip of one of its records. */
  lemma SearchFindsEveryRunningTrip(s: Store, ev: SearchEvent, tripId: string)
    requires ValidStore(s)
    requires tripId in s.trips
    requires RunsBetween(s, tripId, ev.originStopId, ev.destinationStopId)
    requires s.trips[tripId].service_id in s.calendar
    requires InWindow(s.calendar[s.trips[tripId].service_id], ev.outboundDate)
    ensures Search(s, ev).outcome.Ok?
    ensures exists i :: 0 <= i < |Search(s, ev).outcome.value| && Search(s, ev).outcome.value[i].trip == s.trips[tripId]
  {
    var st := StagesOf(s, ev);
    var o, d :| && o in s.stopTimes && o.stop_id == ev.originStopId && o.trip_id == tripId
                && d in s.stopTimes && d.stop_id == ev.destinationStopId && d.trip_id == tripId
                && StrLess(o.stop_sequence, d.stop_sequence);
    DirectionalTripsExactly(s, ev.originStopId, ev.destinationStopId, d);
    var p :| 0 <= p < |st.directionalTrips| && st.directionalTrips[p] == d;
    DirectionalTripIsFound(s, ev.outboundDate, st.directionalTrips, p);
    assert Search(s, ev).outcome == LookupOutcome(s, st.lookup);
  }
}
