/** The calendar stage of the search: keeping the calendar entries whose validity window
    contains the outbound date, the distinct service ids that survive, and the keys of the
    calendar exceptions looked up for them. */
module Calendars {
  import opened Seqs
  import opened Gtfs
  import opened Dedup

  /** The date lies between the entry's start and end dates, both ends included; the
      weekday flags are not consulted. */
  predicate InWindow(c: Calendar, date: Date)
  {
    c.start_date <= date <= c.end_date
  }

  /** The fetched calendar entries that are valid on `date`, in fetch order. */
  function CalendarWindow(entries: seq<Calendar>, date: Date): (kept: seq<Calendar>)
    ensures forall c :: c in kept <==> c in entries && c.start_date <= date && date <= c.end_date
  {
    Filter(entries, (c: Calendar) => InWindow(c, date))
  }

  /** `Object.keys` of the entries merged by `service_id`. */
  function UniqueServiceIds(entries: seq<Calendar>): seq<string>
  {
    var values := ObjectValues(entries, (c: Calendar) => c.service_id);
    seq(|values|, i requires 0 <= i < |values| => values[i].service_id)
  }

  /** The unique ids are exactly the service ids of the entries, each once. */
  lemma UniqueServiceIdsExactly(entries: seq<Calendar>, id: string)
    ensures id in UniqueServiceIds(entries) <==> exists c :: c in entries && c.service_id == id
    ensures forall i, j :: 0 <= i < j < |UniqueServiceIds(entries)| ==> UniqueServiceIds(entries)[i] != UniqueServiceIds(entries)[j]
  {
    var key := (c: Calendar) => c.service_id;
    var merged := ObjectValues(entries, key);
    ObjectValuesDistinct(entries, key);
    if id in UniqueServiceIds(entries) {
      var j :| 0 <= j < |merged| && merged[j].service_id == id;
      ObjectValuesKeepsLast(entries, key, j);
    }
    if c :| c in entries && c.service_id == id {
      var i :| 0 <= i < |entries| && entries[i] == c;
      ObjectValuesCovers(entries, key, i);
      var j :| 0 <= j < |merged| && key(merged[j]) == key(entries[i]);
      assert UniqueServiceIds(entries)[j] == id;
    }
  }

  /** The calendar-exception keys: each surviving service id paired with the outbound date. */
  function ExceptionKeys(ids: seq<string>, date: Date): (keys: seq<(string, Date)>)
    ensures |keys| == |ids|
    ensures forall k :: k in keys ==> k.1 == date && k.0 in ids
    ensures forall id :: id in ids <==> (id, date) in keys
  {
    if ids == [] then [] else [(ids[0], date)] + ExceptionKeys(ids[1..], date)
  }
}
