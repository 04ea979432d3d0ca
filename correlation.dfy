/** Finding the trips that run from the origin stop to the destination stop: the stop times
    at the destination whose trip also stops at the origin, kept only when the origin comes
    first along the trip. */
module Correlation {
  import opened Wrappers
  import opened Seqs
  import opened Gtfs
  import opened StopSequence

  /** The first origin row of a trip, if any. */
  function OriginOf(origins: seq<StopTime>, tripId: string): Option<StopTime>
  {
    Find(origins, (o: StopTime) => o.trip_id == tripId)
  }

  /** The destination rows whose trip also has an origin row. */
  function Correlate(origins: seq<StopTime>, destinations: seq<StopTime>): (matching: seq<StopTime>)
    ensures forall d :: d in matching <==> d in destinations && exists o :: o in origins && o.trip_id == d.trip_id
  {
    Filter(destinations, (d: StopTime) => OriginOf(origins, d.trip_id).Some?)
  }

  /** The correlated rows keep the order of the destination rows. */
  lemma CorrelateIsSubseq(origins: seq<StopTime>, destinations: seq<StopTime>)
    ensures IsSubseq(Correlate(origins, destinations), destinations)
  {
    FilterIsSubseq(destinations, (d: StopTime) => OriginOf(origins, d.trip_id).Some?);
  }

  /** Whether the trip's first origin row precedes the destination row by (string) `stop_sequence`. */
  predicate OriginPrecedes(origins: seq<StopTime>, destination: StopTime)
  {
    match OriginOf(origins, destination.trip_id)
    case Some(origin) => StrLess(origin.stop_sequence, destination.stop_sequence)
    case None => false
  }

  /** The direction filter, applied to correlated rows (each of which has an origin row). A row
      survives exactly when the first origin row of its trip has a strictly smaller
      `stop_sequence`, compared as strings. */
  function Directional(origins: seq<StopTime>, matching: seq<StopTime>): (directional: seq<StopTime>)
    requires forall d :: d in matching ==> OriginOf(origins, d.trip_id).Some?
    ensures forall d :: d in directional <==>
      d in matching && StrLess(OriginOf(origins, d.trip_id).value.stop_sequence, d.stop_sequence)
  {
    Filter(matching, (d: StopTime) => OriginPrecedes(origins, d))
  }

  /** The surviving rows keep the order of the correlated rows. */
  lemma DirectionalIsSubseq(origins: seq<StopTime>, matching: seq<StopTime>)
    requires forall d :: d in matching ==> OriginOf(origins, d.trip_id).Some?
    ensures IsSubseq(Directional(origins, matching), matching)
  {
    FilterIsSubseq(matching, (d: StopTime) => OriginPrecedes(origins, d));
  }

  /** The rows at the destination stop that survive correlation and the direction filter. */
  function DirectionalTrips(s: Store, originStopId: string, destinationStopId: string): seq<StopTime>
  {
    var originTrips := QueryByStop(s, originStopId);
    Directional(originTrips, Correlate(originTrips, QueryByStop(s, destinationStopId)))
  }

  /** In a well-formed store, a destination row survives exactly when its trip also stops at the
      origin with a smaller `stop_sequence` (in string order). */
  lemma DirectionalTripsExactly(s: Store, originStopId: string, destinationStopId: string, d: StopTime)
    requires ValidStore(s)
    ensures d in DirectionalTrips(s, originStopId, destinationStopId) <==>
      && d in s.stopTimes && d.stop_id == destinationStopId
      && exists o :: o in s.stopTimes && o.stop_id == originStopId && o.trip_id == d.trip_id
                     && StrLess(o.stop_sequence, d.stop_sequence)
  {
    var origins := QueryByStop(s, originStopId);
    var matching := Correlate(origins, QueryByStop(s, destinationStopId));
    if d in matching {
      var first := OriginOf(origins, d.trip_id).value;
      forall o | o in s.stopTimes && o.stop_id == originStopId && o.trip_id == d.trip_id
        ensures o == first
      {
        UniqueStopTime(s, o, first);
      }
    }
  }

  /** Because the comparison is strict, no trip survives both the (A, B) query and the
      swapped (B, A) query. */
  lemma {:induction false} OppositeQueriesDisjoint(s: Store, a: string, b: string, d1: StopTime, d2: StopTime)
    requires ValidStore(s)
    requires d1 in DirectionalTrips(s, a, b) && d2 in DirectionalTrips(s, b, a)
    ensures d1.trip_id != d2.trip_id
  {
    DirectionalTripsExactly(s, a, b, d1);
    DirectionalTripsExactly(s, b, a, d2);
    if d1.trip_id == d2.trip_id {
      var o1 :| o1 in s.stopTimes && o1.stop_id == a && o1.trip_id == d1.trip_id
                && StrLess(o1.stop_sequence, d1.stop_sequence);
      var o2 :| o2 in s.stopTimes && o2.stop_id == b && o2.trip_id == d2.trip_id
                && StrLess(o2.stop_sequence, d2.stop_sequence);
      UniqueStopTime(s, o1, d2);
      UniqueStopTime(s, o2, d1);
      StrLessAsymmetric(d1.stop_sequence, d2.stop_sequence);
    }
  }
}
