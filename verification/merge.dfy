/**
 * The merge/dedup decisions of the tracker, as functions of the registry:
 * what one matched feature does to it (skip a duplicate, merge into a
 * proximity-only record, or add), what the loop over all matched features
 * does, and what a new Bluetooth encounter does.
 */
module Merge {
  import opened Wrappers
  import opened Types
  import opened Geometry
  import opened Registry

  /** The registry after some geo candidates, and the records added for them (the notify list). */
  datatype GeoState = GeoState(records: seq<Exposure>, added: seq<Exposure>)

  /** One candidate of the loop in checkGeoSickPeople. */
  function GeoStep(rs: seq<Exposure>, c: Candidate): GeoState {
    if HasObjectID(rs, c.key) then GeoState(rs, [])
    else match FindBleExposure(rs, c.window)
      case Some(i) => GeoState(MergeGeo(rs, c, rs[i].bleTimestamp.value), [])
      case None => GeoState(rs + [GeoExposure(c)], [GeoExposure(c)])
  }

  /**
   * A candidate whose key is registered changes nothing; one that merges
   * into a proximity-only record adds nothing to the notify list; any other
   * is appended and is the only record notified. Afterwards its key is
   * registered, no key is lost, and records with a key are untouched.
   */
  lemma GeoStepOutcomes(rs: seq<Exposure>, c: Candidate)
    ensures HasObjectID(rs, c.key) ==> GeoStep(rs, c) == GeoState(rs, [])
    ensures !HasObjectID(rs, c.key) && FindBleExposure(rs, c.window).Some? ==>
              GeoStep(rs, c).added == [] && |GeoStep(rs, c).records| == |rs|
    ensures !HasObjectID(rs, c.key) && FindBleExposure(rs, c.window).None? ==>
              GeoStep(rs, c).added == [GeoExposure(c)] && GeoStep(rs, c).records == rs + [GeoExposure(c)]
    ensures HasObjectID(GeoStep(rs, c).records, c.key)
    ensures forall k :: HasObjectID(rs, k) ==> HasObjectID(GeoStep(rs, c).records, k)
    ensures forall j :: 0 <= j < |rs| && rs[j].objectId.Some? ==> GeoStep(rs, c).records[j] == rs[j]
  {
    if !HasObjectID(rs, c.key) {
      match FindBleExposure(rs, c.window)
      case Some(i) => MergeGeoEffect(rs, c, i);
      case None => AppendKeys(rs, GeoExposure(c));
    }
  }

  /** The loop of checkGeoSickPeople over the matched candidates, in order. */
  function GeoLoop(rs: seq<Exposure>, cs: seq<Candidate>): GeoState
    decreases |cs|
  {
    if cs == [] then GeoState(rs, [])
    else
      var s := GeoLoop(rs, cs[..|cs| - 1]);
      var t := GeoStep(s.records, cs[|cs| - 1]);
      GeoState(t.records, s.added + t.added)
  }

  /** The registry grows by exactly the records added for notification, at most one per candidate. */
  lemma {:induction false} GeoLoopGrowth(rs: seq<Exposure>, cs: seq<Candidate>)
    ensures |GeoLoop(rs, cs).records| == |rs| + |GeoLoop(rs, cs).added|
    ensures |GeoLoop(rs, cs).added| <= |cs|
    decreases |cs|
  {
    if cs != [] {
      GeoLoopGrowth(rs, cs[..|cs| - 1]);
      GeoStepOutcomes(GeoLoop(rs, cs[..|cs| - 1]).records, cs[|cs| - 1]);
    }
  }

  /** One more candidate is one more step of the loop. */
  lemma GeoLoopSnoc(rs: seq<Exposure>, cs: seq<Candidate>, c: Candidate)
    ensures GeoLoop(rs, cs + [c]) ==
            GeoState(GeoStep(GeoLoop(rs, cs).records, c).records, GeoLoop(rs, cs).added + GeoStep(GeoLoop(rs, cs).records, c).added)
  {
    assert (cs + [c])[..|cs|] == cs;
  }

  /**
   * The notify list is exactly the records the loop appended to the
   * registry: merges and skipped duplicates add nothing to it, and later
   * merges never touch an appended record.
   */
  lemma {:induction false} GeoLoopAddsExactlyNotified(rs: seq<Exposure>, cs: seq<Candidate>)
    ensures |GeoLoop(rs, cs).records| == |rs| + |GeoLoop(rs, cs).added|
    ensures GeoLoop(rs, cs).records[|rs|..] == GeoLoop(rs, cs).added
    ensures forall e :: e in GeoLoop(rs, cs).added ==> e.objectId.Some? && e.wasThere
    decreases |cs|
  {
    if cs != [] {
      var pre := cs[..|cs| - 1];
      var c := cs[|cs| - 1];
      var s := GeoLoop(rs, pre);
      GeoLoopAddsExactlyNotified(rs, pre);
      GeoStepOutcomes(s.records, c);
      var t := GeoStep(s.records, c);
      if !HasObjectID(s.records, c.key) && FindBleExposure(s.records, c.window).Some? {
        forall j | |rs| <= j < |s.records|
          ensures t.records[j] == s.records[j]
        {
          assert s.records[j] == s.added[j - |rs|];
          assert s.records[j] in s.added;
        }
        assert t.records[|rs|..] == s.records[|rs|..];
      }
    }
  }

  /** After the loop every candidate's key is in the registry, and no key present before is lost. */
  lemma {:induction false} GeoLoopKeysPresent(rs: seq<Exposure>, cs: seq<Candidate>)
    ensures forall c :: c in cs ==> HasObjectID(GeoLoop(rs, cs).records, c.key)
    ensures forall k :: HasObjectID(rs, k) ==> HasObjectID(GeoLoop(rs, cs).records, k)
    decreases |cs|
  {
    if cs != [] {
      var pre := cs[..|cs| - 1];
      GeoLoopKeysPresent(rs, pre);
      GeoStepOutcomes(GeoLoop(rs, pre).records, cs[|cs| - 1]);
      forall c | c in cs
        ensures HasObjectID(GeoLoop(rs, cs).records, c.key)
      {
        if c != cs[|cs| - 1] {
          assert c in pre;
        }
      }
    }
  }

  /** Candidates whose keys are all registered already change nothing and notify nobody. */
  lemma {:induction false} GeoLoopOfKnownKeys(rs: seq<Exposure>, cs: seq<Candidate>)
    requires forall c :: c in cs ==> HasObjectID(rs, c.key)
    ensures GeoLoop(rs, cs) == GeoState(rs, [])
    decreases |cs|
  {
    if cs != [] {
      GeoLoopOfKnownKeys(rs, cs[..|cs| - 1]);
      assert cs[|cs| - 1] in cs;
      GeoStepOutcomes(rs, cs[|cs| - 1]);
    }
  }

  /** Running the loop again on the registry it produced, with the same matches, adds nothing. */
  lemma GeoLoopRerunAddsNothing(rs: seq<Exposure>, cs: seq<Candidate>)
    ensures GeoLoop(GeoLoop(rs, cs).records, cs) == GeoState(GeoLoop(rs, cs).records, [])
  {
    GeoLoopKeysPresent(rs, cs);
    GeoLoopOfKnownKeys(GeoLoop(rs, cs).records, cs);
  }

  /** Every notified record is a new one: the stored form of a candidate whose key was not registered before. */
  lemma {:induction false} GeoLoopAddedAreNew(rs: seq<Exposure>, cs: seq<Candidate>)
    ensures forall e :: e in GeoLoop(rs, cs).added ==>
              exists c :: c in cs && e == GeoExposure(c) && !HasObjectID(rs, c.key)
    decreases |cs|
  {
    if cs != [] {
      var pre := cs[..|cs| - 1];
      var c := cs[|cs| - 1];
      var s := GeoLoop(rs, pre);
      GeoLoopAddedAreNew(rs, pre);
      GeoLoopKeysPresent(rs, pre);
      GeoStepOutcomes(s.records, c);
      forall e | e in GeoLoop(rs, cs).added
        ensures exists c' :: c' in cs && e == GeoExposure(c') && !HasObjectID(rs, c'.key)
      {
        if e in s.added {
          var c' :| c' in pre && e == GeoExposure(c') && !HasObjectID(rs, c'.key);
          assert c' in cs;
        } else {
          assert e == GeoExposure(c);
          assert !HasObjectID(rs, c.key);
        }
      }
    }
  }

  /** In a consistent registry, a geo merge rewrites only the one record that carries the timestamp. */
  lemma MergeGeoTouchesOne(rs: seq<Exposure>, c: Candidate, i: int)
    requires Consistent(rs)
    requires 0 <= i < |rs| && rs[i].objectId.None? && rs[i].bleTimestamp.Some?
    ensures forall j :: 0 <= j < |rs| && j != i ==> MergeGeo(rs, c, rs[i].bleTimestamp.value)[j] == rs[j]
  {
    forall j | 0 <= j < |rs| && j != i
      ensures MergeGeo(rs, c, rs[i].bleTimestamp.value)[j] == rs[j]
    {
      if j < i {
        if rs[j].bleTimestamp.Some? {
          assert rs[j].bleTimestamp != rs[i].bleTimestamp;
        }
      } else {
        assert rs[i].bleTimestamp != rs[j].bleTimestamp;
      }
    }
  }

  /** One candidate of the geo loop keeps the registry consistent. */
  lemma GeoStepConsistent(rs: seq<Exposure>, c: Candidate)
    requires Consistent(rs)
    ensures Consistent(GeoStep(rs, c).records)
  {
    if !HasObjectID(rs, c.key) {
      match FindBleExposure(rs, c.window)
      case Some(i) =>
        var r := MergeGeo(rs, c, rs[i].bleTimestamp.value);
        MergeGeoTouchesOne(rs, c, i);
        assert r[i].objectId == Some(c.key) && r[i].bleTimestamp == rs[i].bleTimestamp;
        forall a, b | 0 <= a < b < |r| && r[a].objectId.Some?
          ensures r[a].objectId != r[b].objectId
        {
          if a == i {
            assert rs[b].objectId != Some(c.key);
          } else if b == i {
            assert rs[a].objectId != Some(c.key);
          }
        }
        forall a, b | 0 <= a < b < |r| && r[a].bleTimestamp.Some?
          ensures r[a].bleTimestamp != r[b].bleTimestamp
        {
          assert r[a].bleTimestamp == rs[a].bleTimestamp && r[b].bleTimestamp == rs[b].bleTimestamp;
        }
      case None =>
        var r := rs + [GeoExposure(c)];
        forall a, b | 0 <= a < b < |r| && r[a].objectId.Some?
          ensures r[a].objectId != r[b].objectId
        {
          if b == |rs| {
            assert rs[a].objectId != Some(c.key);
          }
        }
    }
  }

  /** The geo loop keeps the registry consistent. */
  lemma {:induction false} GeoLoopConsistent(rs: seq<Exposure>, cs: seq<Candidate>)
    requires Consistent(rs)
    ensures Consistent(GeoLoop(rs, cs).records)
    decreases |cs|
  {
    if cs != [] {
      GeoLoopConsistent(rs, cs[..|cs| - 1]);
      GeoStepConsistent(GeoLoop(rs, cs[..|cs| - 1]).records, cs[|cs| - 1]);
    }
  }

  /** The outcome of checkBleAndGeoIntersection: registry, dismissed list, notify list, and whether it threw. */
  datatype BleResult = BleResult(records: seq<Exposure>, dismissed: Option<seq<int>>, notified: seq<Exposure>, failed: bool)

  /** The dismissed list without `id` (the filter on num !== OBJECTID). */
  function RemoveId(d: seq<int>, id: int): (r: seq<int>)
    ensures id !in r
    ensures forall x :: x in r <==> x in d && x != id
    ensures |r| <= |d|
    decreases |d|
  {
    if d == [] then []
    else if d[0] == id then RemoveId(d[1..], id)
    else [d[0]] + RemoveId(d[1..], id)
  }

  /**
   * checkBleAndGeoIntersection for an encounter [start, end] in
   * milliseconds. A record the user had dismissed makes the code reach an
   * undefined name after the merge and the dismissed-list write (or fail
   * earlier, parsing a missing list), so that path ends in the error handler.
   */
  function BleAndGeo(rs: seq<Exposure>, dismissed: Option<seq<int>>, start: int, end: int): (r: BleResult)
    ensures |r.records| == |rs| + |r.notified| && |r.notified| <= 1
    ensures r.failed ==> r.notified == [] && r.records != rs
  {
    match FindGeoExposure(rs, start, end)
    case None => BleResult(rs + [BleExposure(start)], dismissed, [BleExposure(start)], false)
    case Some(i) =>
      var id := rs[i].objectId.value;
      var merged := MergeBle(rs, id, start);
      if rs[i].wasThere then BleResult(merged, dismissed, [], false)
      else match dismissed
        case None => BleResult(merged, None, [], true)
        case Some(d) => BleResult(merged, Some(RemoveId(d, id)), [], true)
  }

  /**
   * Without an overlapping geo record the encounter becomes exactly one new
   * record, which is the one notified; with one, that first overlapping
   * record takes the timestamp, nothing is added or notified, and the run
   * fails exactly when the user had dismissed it.
   */
  lemma BleAndGeoOutcomes(rs: seq<Exposure>, dismissed: Option<seq<int>>, start: int, end: int)
    ensures var b := BleAndGeo(rs, dismissed, start, end);
            FindGeoExposure(rs, start, end).None? ==>
              b.records == rs + [BleExposure(start)] && b.notified == [b.records[|rs|]] &&
              b.records[|rs|].bleTimestamp == Some(start) && b.records[|rs|].objectId.None? &&
              !b.failed && b.dismissed == dismissed
    ensures var b := BleAndGeo(rs, dismissed, start, end);
            FindGeoExposure(rs, start, end).Some? ==>
              var i := FindGeoExposure(rs, start, end).value;
              |b.records| == |rs| && b.notified == [] &&
              b.records[i].objectId == rs[i].objectId && b.records[i].bleTimestamp == Some(start) && b.records[i].wasThere &&
              (b.failed <==> !rs[i].wasThere) &&
              (!rs[i].wasThere && b.dismissed.Some? ==> rs[i].objectId.value !in b.dismissed.value) &&
              (rs[i].wasThere ==> b.dismissed == dismissed)
  {
    var r := FindGeoExposure(rs, start, end);
    if r.Some? {
      MergeBleEffect(rs, r.value, start);
    }
  }

  /**
   * An encounter whose start is not registered yet keeps the registry
   * consistent: a merge attaches it to the single record with that key.
   */
  lemma BleAndGeoConsistent(rs: seq<Exposure>, dismissed: Option<seq<int>>, start: int, end: int)
    requires Consistent(rs) && !HasBLE(rs, start)
    ensures Consistent(BleAndGeo(rs, dismissed, start, end).records)
  {
    var r := BleAndGeo(rs, dismissed, start, end).records;
    match FindGeoExposure(rs, start, end)
    case None =>
      forall a, b | 0 <= a < b < |r| && r[a].bleTimestamp.Some?
        ensures r[a].bleTimestamp != r[b].bleTimestamp
      {
        if b == |rs| {
          assert rs[a].bleTimestamp != Some(start);
        }
      }
    case Some(i) =>
      var id := rs[i].objectId.value;
      forall j | 0 <= j < |rs| && j != i
        ensures r[j] == rs[j]
      {
      }
      forall a, b | 0 <= a < b < |r| && r[a].bleTimestamp.Some?
        ensures r[a].bleTimestamp != r[b].bleTimestamp
      {
        if a == i {
          assert rs[b].bleTimestamp != Some(start);
        } else if b == i {
          assert rs[a].bleTimestamp != Some(start);
        }
      }
  }

  /**
   * Geo evidence first, then an encounter overlapping its window: the
   * registry ends with one record carrying both the key and the timestamp.
   * The key must be truthy (a key of 0 never merges).
   */
  lemma GeoThenBle(c: Candidate, dismissed: Option<seq<int>>, start: int, end: int)
    requires c.key != 0
    requires Min(c.window.to, end) - Max(c.window.from, start) > 0
    ensures var rs := GeoLoop([], [c]).records;
            !HasBLE(rs, start) &&
            var b := BleAndGeo(rs, dismissed, start, end);
            |b.records| == 1 && b.records[0].objectId == Some(c.key) && b.records[0].bleTimestamp == Some(start) &&
            b.notified == [] && !b.failed
  {
    assert [c][..0] == [];
    assert GeoLoop([], []) == GeoState([], []);
    var rs := GeoLoop([], [c]).records;
    assert rs == [GeoExposure(c)];
    assert OverlapsEncounter(rs[0], start, end);
    MergeBleEffect(rs, 0, start);
  }

  /**
   * An encounter first, then geo evidence overlapping the encounter's UTC
   * hour: one record carries both, and the geo match notifies nobody. The
   * timestamp must be truthy (a timestamp of 0 never merges).
   */
  lemma BleThenGeo(c: Candidate, dismissed: Option<seq<int>>, start: int, end: int)
    requires start != 0
    requires OverlapLength(c.window, HourWindow(start)) > 0
    ensures var rs := BleAndGeo([], dismissed, start, end).records;
            var g := GeoLoop(rs, [c]);
            |g.records| == 1 && g.records[0].objectId == Some(c.key) && g.records[0].bleTimestamp == Some(start) &&
            g.added == []
  {
    assert [c][..0] == [];
    assert GeoLoop([], []) == GeoState([], []);
    var rs := BleAndGeo([], dismissed, start, end).records;
    assert rs == [BleExposure(start)];
    assert !HasObjectID(rs, c.key);
    assert OverlapsBleHour(rs[0], c.window);
    MergeGeoEffect(rs, c, 0);
  }

  /**
   * The two orders test different windows: the encounter's own interval when
   * it arrives second, its whole UTC hour when it arrives first. An encounter
   * at 10:00-10:05 and a report at 10:30-10:40 end in two records one way
   * round and in one the other way.
   */
  lemma MergeDependsOnOrder()
    ensures var c := Candidate(7, Window(10 * MillisPerHour + 1800000, 10 * MillisPerHour + 2400000));
            var start, end := 10 * MillisPerHour, 10 * MillisPerHour + 300000;
            |BleAndGeo(GeoLoop([], [c]).records, None, start, end).records| == 2 &&
            |GeoLoop(BleAndGeo([], None, start, end).records, [c]).records| == 1
  {
    var c := Candidate(7, Window(10 * MillisPerHour + 1800000, 10 * MillisPerHour + 2400000));
    var start, end := 10 * MillisPerHour, 10 * MillisPerHour + 300000;
    assert [c][..0] == [];
    assert GeoLoop([], []) == GeoState([], []);
    var rs := GeoLoop([], [c]).records;
    assert rs == [GeoExposure(c)];
    assert !OverlapsEncounter(rs[0], start, end);
    assert FindGeoExposure(rs, start, end).None?;
    HourFloorUnique(start, start);
    BleThenGeo(c, None, start, end);
  }
}
