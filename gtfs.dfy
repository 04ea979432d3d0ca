/** The transit records the search reads, the key-value store holding them (as in-memory
    tables), and the store requests the search issues. */
module Gtfs {
  import opened Seqs
  import opened StopSequence

  /** A calendar date as the number YYYYMMDD; for valid dates numeric order is
      chronological order, which is how the handler compares its parsed dates. */
  type Date = nat

  /** A row of stop_times.txt; every column is kept as the string the CSV parser produced. */
  datatype StopTime = StopTime(
    trip_id: string,
    stop_id: string,
    arrival_time: string,
    departure_time: string,
    stop_sequence: string)

  /** A row of trips.txt. */
  datatype Trip = Trip(trip_id: string, route_id: string, service_id: string)

  /** A row of routes.txt. */
  datatype Route = Route(route_id: string, route_short_name: string, route_long_name: string, route_type: string)

  /** A row of calendar.txt: an inclusive validity window and the seven weekday flags. */
  datatype Calendar = Calendar(service_id: string, start_date: Date, end_date: Date, weekdays: seq<bool>)

  /** A row of calendar_dates.txt: a per-date exception for a service. */
  datatype CalendarDate = CalendarDate(service_id: string, date: Date, exception_type: string)

  /** The tables the search reads. Stop times are the base table keyed by (trip_id, stop_id),
      kept as a sequence because they are also read through the `ByStopId` index; the other
      tables are keyed by their identifiers. */
  datatype Store = Store(
    stopTimes: seq<StopTime>,
    trips: map<string, Trip>,
    routes: map<string, Route>,
    calendar: map<string, Calendar>,
    calendarDates: map<(string, Date), CalendarDate>)

  /** The order of the stop-times table's key: by `trip_id` (the partition key), then by
      `stop_id` (the sort key), strings compared character by character. */
  predicate KeyBefore(x: StopTime, y: StopTime)
  {
    StrLess(x.trip_id, y.trip_id) || (x.trip_id == y.trip_id && StrLess(x.stop_id, y.stop_id))
  }

  /** Every record is stored under its own key, and the stop times are held in strictly
      increasing (trip_id, stop_id) order, so no two of them share a key. */
  ghost predicate ValidStore(s: Store)
  {
    && (forall k :: k in s.trips ==> s.trips[k].trip_id == k)
    && (forall k :: k in s.routes ==> s.routes[k].route_id == k)
    && (forall k :: k in s.calendar ==> s.calendar[k].service_id == k)
    && (forall k :: k in s.calendarDates ==> s.calendarDates[k].service_id == k.0 && s.calendarDates[k].date == k.1)
    && Pairwise(s.stopTimes, KeyBefore)
  }

  lemma UniqueStopTime(s: Store, x: StopTime, y: StopTime)
    requires ValidStore(s)
    requires x in s.stopTimes && y in s.stopTimes
    requires x.trip_id == y.trip_id && x.stop_id == y.stop_id
    ensures x == y
  {
    var i :| 0 <= i < |s.stopTimes| && s.stopTimes[i] == x;
    var j :| 0 <= j < |s.stopTimes| && s.stopTimes[j] == y;
    StrLessAsymmetric(x.stop_id, x.stop_id);
    StrLessAsymmetric(x.trip_id, x.trip_id);
    if i < j {
      assert false;
    } else if j < i {
      assert false;
    }
  }

  /** The key condition of a query on the `ByStopId` index. */
  function AtStop(stopId: string): StopTime -> bool
  {
    (st: StopTime) => st.stop_id == stopId
  }

  /** The key condition of a query on the base table's partition key. */
  function OnTrip(tripId: string): StopTime -> bool
  {
    (st: StopTime) => st.trip_id == tripId
  }

  /** A query on the `ByStopId` index: the stop times at one stop. */
  function QueryByStop(s: Store, stopId: string): (rows: seq<StopTime>)
    ensures forall r :: r in rows <==> r in s.stopTimes && r.stop_id == stopId
  {
    Filter(s.stopTimes, AtStop(stopId))
  }

  /** A query on the base table's partition key: the stop times of one trip. */
  function QueryByTrip(s: Store, tripId: string): (rows: seq<StopTime>)
    ensures forall r :: r in rows <==> r in s.stopTimes && r.trip_id == tripId
  {
    Filter(s.stopTimes, OnTrip(tripId))
  }

  /** A query on the `ByStopId` index answers in the order of its sort key, `trip_id`. */
  lemma QueryByStopInTripOrder(s: Store, stopId: string)
    requires ValidStore(s)
    ensures var rows := QueryByStop(s, stopId);
      forall i, j :: 0 <= i < j < |rows| ==> StrLess(rows[i].trip_id, rows[j].trip_id)
  {
    var rows := QueryByStop(s, stopId);
    assert rows == Filter(s.stopTimes, AtStop(stopId));
    FilterKeepsPairwise(s.stopTimes, AtStop(stopId), KeyBefore);
    forall i, j | 0 <= i < j < |rows| ensures StrLess(rows[i].trip_id, rows[j].trip_id) {
      assert KeyBefore(rows[i], rows[j]) && rows[i].stop_id == rows[j].stop_id;
      StrLessAsymmetric(rows[i].stop_id, rows[i].stop_id);
    }
  }

  /** A query on the base table's partition key answers in the order of its sort key,
      `stop_id`. */
  lemma QueryByTripInStopOrder(s: Store, tripId: string)
    requires ValidStore(s)
    ensures var rows := QueryByTrip(s, tripId);
      forall i, j :: 0 <= i < j < |rows| ==> StrLess(rows[i].stop_id, rows[j].stop_id)
  {
    var rows := QueryByTrip(s, tripId);
    assert rows == Filter(s.stopTimes, OnTrip(tripId));
    FilterKeepsPairwise(s.stopTimes, OnTrip(tripId), KeyBefore);
    forall i, j | 0 <= i < j < |rows| ensures StrLess(rows[i].stop_id, rows[j].stop_id) {
      assert KeyBefore(rows[i], rows[j]) && rows[i].trip_id == rows[j].trip_id;
      StrLessAsymmetric(rows[i].trip_id, rows[i].trip_id);
    }
  }

  /** One batch-get: the records found for the given keys, in key order; keys without a
      record are simply absent from the response. */
  function BatchGet<K, V>(table: map<K, V>, keys: seq<K>): (found: seq<V>)
    ensures |found| <= |keys|
  {
    if keys == [] then []
    else (if keys[0] in table then [table[keys[0]]] else []) + BatchGet(table, keys[1..])
  }

  lemma {:induction false} BatchGetFinds<K, V>(table: map<K, V>, keys: seq<K>, v: V)
    ensures v in BatchGet(table, keys) <==> exists k :: k in keys && k in table && table[k] == v
  {
    if keys != [] {
      BatchGetFinds(table, keys[1..], v);
      assert forall k :: k in keys <==> k == keys[0] || k in keys[1..];
    }
  }

  lemma {:induction false} BatchGetAppend<K, V>(table: map<K, V>, a: seq<K>, b: seq<K>)
    ensures BatchGet(table, a + b) == BatchGet(table, a) + BatchGet(table, b)
  {
    if a != [] {
      assert (a + b)[1..] == a[1..] + b;
      BatchGetAppend(table, a[1..], b);
    } else {
      assert a + b == b;
    }
  }

  /** The answers of the batch-gets issued together, one per chunk, in chunk order. */
  function BatchGets<K, V>(table: map<K, V>, chunks: seq<seq<K>>): seq<seq<V>>
  {
    seq(|chunks|, k requires 0 <= k < |chunks| => BatchGet(table, chunks[k]))
  }

  /** Flattening the responses of a chunked batch-get gives what one batch-get of all keys would. */
  lemma {:induction false} BatchGetsFlatten<K, V>(table: map<K, V>, chunks: seq<seq<K>>)
    ensures Flatten(BatchGets(table, chunks)) == BatchGet(table, Flatten(chunks))
  {
    if chunks != [] {
      BatchGetsFlatten(table, chunks[1..]);
      assert BatchGets(table, chunks)[1..] == BatchGets(table, chunks[1..]);
      BatchGetAppend(table, chunks[0], Flatten(chunks[1..]));
    }
  }

  /** A call the search makes on the store. */
  datatype Request =
    | QueryStopTimesByStop(stopId: string)
    | GetTrips(tripIds: seq<string>)
    | GetCalendars(serviceIds: seq<string>)
    | GetCalendarDates(keys: seq<(string, Date)>)
    | GetRoutes(routeIds: seq<string>)
    | QueryStopTimesByTrip(tripId: string)
}
