/**
 * The exposure registry (the IntersectionSickDatabase) as a sequence of
 * records, with the queries and updates the tracker calls, and the two
 * `find` searches the tracker runs over its records.
 */
module Registry {
  import opened Wrappers
  import opened Types
  import opened Geometry

  /** The record stored for a matched feed feature. */
  function GeoExposure(c: Candidate): Exposure {
    Exposure(Some(c.key), c.window.from, c.window.to, None, true)
  }

  /** The record stored for a Bluetooth encounter that matched no geo record. */
  function BleExposure(ts: int): Exposure {
    Exposure(None, ts, ts, Some(ts), true)
  }

  predicate HasObjectID(rs: seq<Exposure>, key: int) {
    exists i :: 0 <= i < |rs| && rs[i].objectId == Some(key)
  }

  predicate HasBLE(rs: seq<Exposure>, ts: int) {
    exists i :: 0 <= i < |rs| && rs[i].bleTimestamp == Some(ts)
  }

  /** No two records carry the same OBJECTID. */
  predicate UniqueKeys(rs: seq<Exposure>) {
    forall i, j :: 0 <= i < j < |rs| && rs[i].objectId.Some? ==> rs[i].objectId != rs[j].objectId
  }

  /** No two records carry the same Bluetooth timestamp. */
  predicate UniqueBleTimestamps(rs: seq<Exposure>) {
    forall i, j :: 0 <= i < j < |rs| && rs[i].bleTimestamp.Some? ==> rs[i].bleTimestamp != rs[j].bleTimestamp
  }

  /** The registry invariant: one record per key and one per Bluetooth timestamp. */
  predicate Consistent(rs: seq<Exposure>) {
    UniqueKeys(rs) && UniqueBleTimestamps(rs)
  }

  /** Appending a record registers its key and keeps every other. */
  lemma AppendKeys(rs: seq<Exposure>, e: Exposure)
    ensures forall k :: HasObjectID(rs + [e], k) <==> HasObjectID(rs, k) || e.objectId == Some(k)
  {
    var r := rs + [e];
    forall k | HasObjectID(rs, k)
      ensures HasObjectID(r, k)
    {
      var j :| 0 <= j < |rs| && rs[j].objectId == Some(k);
      assert r[j] == rs[j];
    }
    assert r[|rs|] == e;
  }

  /** The geo evidence merged into the proximity-only records carrying this Bluetooth timestamp. */
  function MergeGeo(rs: seq<Exposure>, c: Candidate, ts: int): seq<Exposure> {
    seq(|rs|, i requires 0 <= i < |rs| =>
      if rs[i].objectId.None? && rs[i].bleTimestamp == Some(ts) then
        rs[i].(objectId := Some(c.key), fromTime := c.window.from, toTime := c.window.to, wasThere := true)
      else rs[i])
  }

  /** The Bluetooth timestamp merged into the records carrying this OBJECTID. */
  function MergeBle(rs: seq<Exposure>, id: int, ts: int): seq<Exposure> {
    seq(|rs|, i requires 0 <= i < |rs| =>
      if rs[i].objectId == Some(id) then rs[i].(bleTimestamp := Some(ts), wasThere := true) else rs[i])
  }

  /**
   * A geo merge keeps every key already present, gives the merged record the
   * feature's key while it keeps its Bluetooth timestamp, and leaves every
   * record that has a key as it was.
   */
  lemma MergeGeoEffect(rs: seq<Exposure>, c: Candidate, i: int)
    requires 0 <= i < |rs| && rs[i].objectId.None? && rs[i].bleTimestamp.Some?
    ensures var r := MergeGeo(rs, c, rs[i].bleTimestamp.value);
            |r| == |rs| && r[i].objectId == Some(c.key) && r[i].bleTimestamp == rs[i].bleTimestamp && r[i].wasThere &&
            r[i].fromTime == c.window.from && r[i].toTime == c.window.to &&
            HasObjectID(r, c.key) &&
            (forall k :: HasObjectID(rs, k) ==> HasObjectID(r, k)) &&
            (forall j :: 0 <= j < |rs| && rs[j].objectId.Some? ==> r[j] == rs[j])
  {
    var r := MergeGeo(rs, c, rs[i].bleTimestamp.value);
    forall k | HasObjectID(rs, k)
      ensures HasObjectID(r, k)
    {
      var j :| 0 <= j < |rs| && rs[j].objectId == Some(k);
      assert r[j].objectId == Some(k);
    }
    assert r[i].objectId == Some(c.key);
  }

  /** A Bluetooth merge changes no key and attaches the timestamp to the record with that key. */
  lemma MergeBleEffect(rs: seq<Exposure>, i: int, ts: int)
    requires 0 <= i < |rs| && rs[i].objectId.Some?
    ensures var r := MergeBle(rs, rs[i].objectId.value, ts);
            |r| == |rs| && r[i].objectId == rs[i].objectId && r[i].bleTimestamp == Some(ts) && r[i].wasThere &&
            r[i].fromTime == rs[i].fromTime && r[i].toTime == rs[i].toTime &&
            (forall j :: 0 <= j < |rs| ==> r[j].objectId == rs[j].objectId) &&
            HasBLE(r, ts)
  {
  }

  /** Array.prototype.find, as the index of the first element that satisfies `p`. */
  function FindFirst<T>(s: seq<T>, p: T -> bool): (r: Option<nat>)
    ensures r.Some? ==> r.value < |s| && p(s[r.value]) && forall k :: 0 <= k < r.value ==> !p(s[k])
    ensures r.None? ==> forall k :: 0 <= k < |s| ==> !p(s[k])
    decreases |s|
  {
    if s == [] then None
    else if p(s[0]) then Some(0)
    else match FindFirst(s[1..], p)
      case None => None
      case Some(k) => Some(k + 1)
  }

  /** The find predicate of checkBleAndGeoIntersection: a geo record overlapping the encounter. */
  predicate OverlapsEncounter(e: Exposure, start: int, end: int) {
    Truthy(e.objectId) && OverlapLength(Window(e.fromTime, e.toTime), Window(start, end)) > 0
  }

  /** The find predicate of checkGeoAndBleIntersection: a proximity-only record whose hour overlaps the window. */
  predicate OverlapsBleHour(e: Exposure, w: Window) {
    e.objectId.None? && Truthy(e.bleTimestamp) && OverlapLength(w, HourWindow(e.bleTimestamp.value)) > 0
  }

  /** The first record that has a truthy OBJECTID and overlaps [start, end] for a positive time. */
  function FindGeoExposure(rs: seq<Exposure>, start: int, end: int): (r: Option<nat>)
    ensures r.Some? ==> r.value < |rs| && rs[r.value].objectId.Some? && rs[r.value].objectId.value != 0 &&
                        Min(rs[r.value].toTime, end) - Max(rs[r.value].fromTime, start) > 0
    ensures r.Some? ==> forall k :: 0 <= k < r.value ==> !OverlapsEncounter(rs[k], start, end)
    ensures r.None? ==> forall k :: 0 <= k < |rs| ==> !OverlapsEncounter(rs[k], start, end)
  {
    FindFirst(rs, e => OverlapsEncounter(e, start, end))
  }

  /**
   * The first record with a null OBJECTID and a truthy BLETimestamp whose
   * UTC hour overlaps the window for a positive time.
   */
  function FindBleExposure(rs: seq<Exposure>, w: Window): (r: Option<nat>)
    ensures r.Some? ==> r.value < |rs| && rs[r.value].objectId.None? && rs[r.value].bleTimestamp.Some? &&
                        rs[r.value].bleTimestamp.value != 0 &&
                        w.from < HourFloor(rs[r.value].bleTimestamp.value) + MillisPerHour &&
                        HourFloor(rs[r.value].bleTimestamp.value) < w.to && w.from < w.to
    ensures r.Some? ==> forall k :: 0 <= k < r.value ==> !OverlapsBleHour(rs[k], w)
    ensures r.None? ==> forall k :: 0 <= k < |rs| ==> !OverlapsBleHour(rs[k], w)
  {
    FindFirst(rs, e => OverlapsBleHour(e, w))
  }

  /** The registry store. Only what the tracker relies on is modelled. */
  class SickDatabase {
    var records: seq<Exposure>

    method ContainsObjectID(key: int) returns (b: bool)
      ensures b <==> exists i :: 0 <= i < |records| && records[i].objectId == Some(key)
    {
      b := HasObjectID(records, key);
    }

    method ContainsBLE(ts: int) returns (b: bool)
      ensures b <==> exists i :: 0 <= i < |records| && records[i].bleTimestamp == Some(ts)
    {
      b := HasBLE(records, ts);
    }

    method ListAllRecords() returns (rs: seq<Exposure>)
      ensures rs == records
    {
      rs := records;
    }

    method AddSickRecord(c: Candidate) returns (e: Exposure)
      modifies this
      ensures e == GeoExposure(c)
      ensures records == old(records) + [e]
    {
      e := GeoExposure(c);
      records := records + [e];
    }

    method AddBLESickRecord(ts: int) returns (e: Exposure)
      modifies this
      ensures e == BleExposure(ts)
      ensures records == old(records) + [e]
    {
      e := BleExposure(ts);
      records := records + [e];
    }

    method MergeGeoIntoSickRecord(c: Candidate, ts: int)
      modifies this
      ensures records == MergeGeo(old(records), c, ts)
    {
      records := MergeGeo(records, c, ts);
    }

    method MergeBLEIntoSickRecord(id: int, ts: int)
      modifies this
      ensures records == MergeBle(old(records), id, ts)
    {
      records := MergeBle(records, id, ts);
    }
  }
}
