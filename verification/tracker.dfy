/**
 * The tracker's checks and the timer body that runs them: the Bluetooth
 * check, the geo check and the checkpoint write. Device state (the
 * checkpoint, the dismissed list, the notifications raised, the errors
 * reported) is a class; the registry is the SickDatabase it holds.
 */
module Tracker {
  import opened Wrappers
  import opened Types
  import opened Geometry
  import opened GeoMatch
  import opened Registry
  import opened Merge

  /** The part of the device that the checks change: registry, dismissed list, notifications raised, errors reported. */
  datatype State = State(records: seq<Exposure>, dismissed: Option<seq<int>>, notifications: seq<seq<Exposure>>, errors: nat)

  /**
   * checkBLESickPeople as a function of the state: skipped on iOS, while
   * throttled, without a match, or when the first match's start (in
   * milliseconds) is registered already; otherwise the Bluetooth merge,
   * whose failure is reported once.
   */
  function BleCheck(cfg: Config, isIOS: bool, now: int, bleMatches: seq<Encounter>, lastFetch: Option<int>, s: State): State {
    if isIOS || Throttled(lastFetch, cfg.minimumBLEFetchIntervalMin, now) || bleMatches == [] then s
    else
      var m := ToMillis(bleMatches[0]);
      if HasBLE(s.records, m.startContactTimestamp) then s
      else
        var b := BleAndGeo(s.records, s.dismissed, m.startContactTimestamp, m.endContactTimestamp);
        State(b.records, b.dismissed, s.notifications + (if b.notified == [] then [] else [b.notified]),
              s.errors + (if b.failed then 1 else 0))
  }

  /**
   * The geo check once the feed is matched: a failed match is reported;
   * otherwise the matches run through the merge loop and the added records
   * are notified together.
   */
  function MergeMatches(s: State, failed: bool, candidates: seq<Candidate>): State {
    if failed then s.(errors := s.errors + 1)
    else
      var g := GeoLoop(s.records, candidates);
      s.(records := g.records, notifications := s.notifications + (if g.added == [] then [] else [g.added]))
  }

  /** checkGeoSickPeople as a function of the state: skipped while throttled, an unverified feed is reported. */
  function GeoCheck(cfg: Config, now: int, verified: bool, lastFetch: Option<int>, s: State,
                    failed: bool, candidates: seq<Candidate>): State {
    if Throttled(lastFetch, cfg.minimumGeoFetchIntervalMin, now) then s
    else if !verified then s.(errors := s.errors + 1)
    else MergeMatches(s, failed, candidates)
  }

  /**
   * What one Bluetooth check can do: raise at most one notification, report
   * at most one error and never both, and grow the registry by one record
   * exactly when it notifies.
   */
  lemma BleCheckEffects(cfg: Config, isIOS: bool, now: int, bleMatches: seq<Encounter>, lastFetch: Option<int>, s: State)
    ensures var t := BleCheck(cfg, isIOS, now, bleMatches, lastFetch, s);
            && |s.notifications| <= |t.notifications| <= |s.notifications| + 1
            && t.notifications[..|s.notifications|] == s.notifications
            && s.errors <= t.errors <= s.errors + 1
            && (t.errors > s.errors ==> t.notifications == s.notifications)
            && |t.records| == |s.records| + |t.notifications| - |s.notifications|
  {
    if !(isIOS || Throttled(lastFetch, cfg.minimumBLEFetchIntervalMin, now) || bleMatches == []) {
      var m := ToMillis(bleMatches[0]);
      if !HasBLE(s.records, m.startContactTimestamp) {
        var b := BleAndGeo(s.records, s.dismissed, m.startContactTimestamp, m.endContactTimestamp);
        var t := BleCheck(cfg, isIOS, now, bleMatches, lastFetch, s);
        assert t.notifications[..|s.notifications|] == s.notifications;
      }
    }
  }

  /**
   * Merging the matches: a failed match reports one error and changes
   * nothing else; a successful one raises at most one notification and
   * grows the registry by exactly the records it notifies. The dismissed
   * list is never touched.
   */
  lemma MergeMatchesEffects(s: State, failed: bool, candidates: seq<Candidate>)
    ensures var t := MergeMatches(s, failed, candidates);
            && t.dismissed == s.dismissed
            && (failed ==> t == s.(errors := s.errors + 1))
            && (!failed ==> t.errors == s.errors)
            && |s.notifications| <= |t.notifications| <= |s.notifications| + 1
            && t.notifications[..|s.notifications|] == s.notifications
            && |t.records| == |s.records| + (if |t.notifications| > |s.notifications| then |t.notifications[|s.notifications|]| else 0)
  {
    if !failed {
      GeoLoopGrowth(s.records, candidates);
      var t := MergeMatches(s, failed, candidates);
      assert t.notifications[..|s.notifications|] == s.notifications;
    }
  }

  /**
   * What one geo check can do: nothing while throttled; otherwise report at
   * most one error, or raise at most one notification whose records are
   * exactly the ones the registry gained. The dismissed list is never
   * touched.
   */
  lemma GeoCheckEffects(cfg: Config, now: int, verified: bool, lastFetch: Option<int>, s: State,
                        failed: bool, candidates: seq<Candidate>)
    ensures var t := GeoCheck(cfg, now, verified, lastFetch, s, failed, candidates);
            && (Throttled(lastFetch, cfg.minimumGeoFetchIntervalMin, now) ==> t == s)
            && t.dismissed == s.dismissed
            && s.errors <= t.errors <= s.errors + 1
            && (t.errors > s.errors ==> t.records == s.records && t.notifications == s.notifications)
            && |s.notifications| <= |t.notifications| <= |s.notifications| + 1
            && t.notifications[..|s.notifications|] == s.notifications
            && |t.records| == |s.records| + (if |t.notifications| > |s.notifications| then |t.notifications[|s.notifications|]| else 0)
  {
    MergeMatchesEffects(s, failed, candidates);
  }

  /** The Bluetooth check keeps the registry consistent. */
  lemma BleCheckConsistent(cfg: Config, isIOS: bool, now: int, bleMatches: seq<Encounter>, lastFetch: Option<int>, s: State)
    requires Consistent(s.records)
    ensures Consistent(BleCheck(cfg, isIOS, now, bleMatches, lastFetch, s).records)
  {
    if !(isIOS || Throttled(lastFetch, cfg.minimumBLEFetchIntervalMin, now) || bleMatches == []) {
      var m := ToMillis(bleMatches[0]);
      if !HasBLE(s.records, m.startContactTimestamp) {
        BleAndGeoConsistent(s.records, s.dismissed, m.startContactTimestamp, m.endContactTimestamp);
      }
    }
  }

  /** The geo check keeps the registry consistent. */
  lemma GeoCheckConsistent(cfg: Config, now: int, verified: bool, lastFetch: Option<int>, s: State,
                           failed: bool, candidates: seq<Candidate>)
    requires Consistent(s.records)
    ensures Consistent(GeoCheck(cfg, now, verified, lastFetch, s, failed, candidates).records)
  {
    GeoLoopConsistent(s.records, candidates);
  }

  /** When both checks are skipped, a run of the timer body changes nothing but the checkpoint. */
  lemma ThrottledRunChangesNothing(cfg: Config, isIOS: bool, bleNow: int, bleMatches: seq<Encounter>, geoNow: int,
                                   verified: bool, lastFetch: Option<int>, s: State, failed: bool, candidates: seq<Candidate>)
    requires isIOS || Throttled(lastFetch, cfg.minimumBLEFetchIntervalMin, bleNow)
    requires Throttled(lastFetch, cfg.minimumGeoFetchIntervalMin, geoNow)
    ensures GeoCheck(cfg, geoNow, verified, lastFetch, BleCheck(cfg, isIOS, bleNow, bleMatches, lastFetch, s), failed, candidates) == s
  {
  }

  /** A run of both checks keeps the registry consistent. */
  lemma RunConsistent(cfg: Config, isIOS: bool, bleNow: int, bleMatches: seq<Encounter>, geoNow: int,
                      verified: bool, lastFetch: Option<int>, s: State, failed: bool, candidates: seq<Candidate>)
    requires Consistent(s.records)
    ensures Consistent(GeoCheck(cfg, geoNow, verified, lastFetch, BleCheck(cfg, isIOS, bleNow, bleMatches, lastFetch, s), failed, candidates).records)
  {
    BleCheckConsistent(cfg, isIOS, bleNow, bleMatches, lastFetch, s);
    GeoCheckConsistent(cfg, geoNow, verified, lastFetch, BleCheck(cfg, isIOS, bleNow, bleMatches, lastFetch, s), failed, candidates);
  }

  /** A successful match of nothing writes nothing and notifies nobody. */
  lemma NoMatchNoWrite(s: State)
    ensures MergeMatches(s, false, []) == s
  {
    assert GeoLoop(s.records, []) == GeoState(s.records, []);
  }

  class Device {
    const db: SickDatabase
    var lastFetch: Option<int>                 // LAST_FETCH_TS, None when never written
    var dismissed: Option<seq<int>>            // DISMISSED_EXPOSURES, None when never written
    var notifications: seq<seq<Exposure>>      // the lists onSickPeopleNotify raised a notification for
    var errors: nat                            // errors handed to onError

    /** The current state of the device, as the checks see it. */
    ghost function Snapshot(): State
      reads this, db
    {
      State(db.records, dismissed, notifications, errors)
    }

    constructor (db: SickDatabase)
      ensures this.db == db && lastFetch == None && dismissed == None && notifications == [] && errors == 0
    {
      this.db := db;
      lastFetch := None;
      dismissed := None;
      notifications := [];
      errors := 0;
    }

    /** onSickPeopleNotify: a non-empty list raises one notification; an empty one does nothing. */
    method OnSickPeopleNotify(list: seq<Exposure>)
      modifies this
      ensures notifications == old(notifications) + (if list == [] then [] else [list])
      ensures lastFetch == old(lastFetch) && dismissed == old(dismissed) && errors == old(errors)
    {
      if |list| > 0 {
        notifications := notifications + [list];
      }
    }

    /**
     * checkBleAndGeoIntersection for an encounter in milliseconds; `failed`
     * says that it threw.
     */
    method CheckBleAndGeoIntersection(startContactTimestamp: int, endContactTimestamp: int) returns (failed: bool)
      modifies this, db
      ensures var b := BleAndGeo(old(db.records), old(dismissed), startContactTimestamp, endContactTimestamp);
              db.records == b.records && dismissed == b.dismissed && failed == b.failed &&
              notifications == old(notifications) + (if b.notified == [] then [] else [b.notified])
      ensures lastFetch == old(lastFetch) && errors == old(errors)
    {
      var exposures := db.ListAllRecords();
      var found := FindGeoExposure(exposures, startContactTimestamp, endContactTimestamp);
      if found.Some? {
        var overlappingGeoExposure := exposures[found.value];
        db.MergeBLEIntoSickRecord(overlappingGeoExposure.objectId.value, startContactTimestamp);
        if !overlappingGeoExposure.wasThere {
          // JSON.parse('') throws when the list was never stored; otherwise
          // the filtered list is written and the undefined name is reached.
          if dismissed.Some? {
            dismissed := Some(RemoveId(dismissed.value, overlappingGeoExposure.objectId.value));
          }
          failed := true;
        } else {
          failed := false;
        }
      } else {
        var sick := db.AddBLESickRecord(startContactTimestamp);
        OnSickPeopleNotify([sick]);
        failed := false;
      }
    }

    /**
     * checkBLESickPeople: skipped on iOS and while throttled; otherwise the
     * first match reported (the sort leaves the order as it is) is scaled to
     * milliseconds and, unless its start is registered already, merged or added.
     */
    method CheckBLESickPeople(cfg: Config, isIOS: bool, now: int, bleMatches: seq<Encounter>)
      modifies this, db
      ensures lastFetch == old(lastFetch)
      ensures Snapshot() == BleCheck(cfg, isIOS, now, bleMatches, old(lastFetch), old(Snapshot()))
    {
      if isIOS {
        return;
      }
      if Throttled(lastFetch, cfg.minimumBLEFetchIntervalMin, now) {
        return;
      }
      if |bleMatches| > 0 {
        var bleMatch := ToMillis(bleMatches[0]);
        var hasBLTS := db.ContainsBLE(bleMatch.startContactTimestamp);
        if !hasBLTS {
          var failed := CheckBleAndGeoIntersection(bleMatch.startContactTimestamp, bleMatch.endContactTimestamp);
          if failed {
            errors := errors + 1;
          }
        }
      }
    }

    /**
     * The for loop of checkGeoSickPeople: each matched feature is skipped
     * when its key is registered, merged into the first proximity-only
     * record whose hour it overlaps, or else added; the added records are
     * collected for the notification.
     */
    method ProcessIntersected(sickPeopleIntersected: seq<SickRecord>)
      returns (ghost candidates: seq<Candidate>, filteredIntersected: seq<Exposure>)
      modifies db
      ensures candidates == AsCandidates(sickPeopleIntersected)
      ensures db.records == GeoLoop(old(db.records), candidates).records
      ensures filteredIntersected == GeoLoop(old(db.records), candidates).added
    {
      ghost var all := AsCandidates(sickPeopleIntersected);
      candidates := [];
      filteredIntersected := [];
      for i := 0 to |sickPeopleIntersected|
        invariant candidates == all[..i]
        invariant db.records == GeoLoop(old(db.records), candidates).records
        invariant filteredIntersected == GeoLoop(old(db.records), candidates).added
      {
        var currSick := sickPeopleIntersected[i].AsCandidate();
        assert currSick == all[i];
        TakeOneMore(all, i);
        ghost var s := GeoLoop(old(db.records), candidates);
        GeoLoopSnoc(old(db.records), candidates, currSick);
        var queryResult := db.ContainsObjectID(currSick.key);
        if !queryResult {
          var exposures := db.ListAllRecords();
          var overlappingBLEExposure := FindBleExposure(exposures, currSick.window);
          if overlappingBLEExposure.Some? {
            var bleTimestamp := exposures[overlappingBLEExposure.value].bleTimestamp.value;
            assert GeoStep(s.records, currSick) == GeoState(MergeGeo(s.records, currSick, bleTimestamp), []);
            db.MergeGeoIntoSickRecord(currSick, bleTimestamp);
          } else {
            var sick := db.AddSickRecord(currSick);
            filteredIntersected := filteredIntersected + [sick];
          }
        }
        candidates := candidates + [currSick];
      }
      assert all[..|all|] == all;
    }

    /**
     * checkGeoSickPeople: skipped while throttled; a feed that fails
     * verification is reported; otherwise the features are matched (by
     * geohash when the first feature has a filter) and every match is
     * skipped, merged or added in turn, the added ones being notified
     * together. `matched` are the features the matcher returned,
     * `candidates` the same features as the loop read them, and `failed`
     * says that the matcher threw.
     */
    method CheckGeoSickPeople(cfg: Config, near: (Location, Place) -> bool, neighbours: string -> seq<string>,
                              now: int, verified: bool, feed: seq<SickRecord>, myData: array<Location>)
      returns (ghost matched: seq<SickRecord>, ghost candidates: seq<Candidate>, ghost failed: bool)
      requires NoDuplicates(feed)
      modifies this, db, myData, feed
      ensures lastFetch == old(lastFetch)
      ensures Snapshot() == GeoCheck(cfg, now, verified, old(lastFetch), old(Snapshot()), failed, candidates)
      ensures Throttled(old(lastFetch), cfg.minimumGeoFetchIntervalMin, now) || !verified ==>
                matched == [] && myData[..] == old(myData[..]) && forall f :: f in feed ==> f.TimeWindow() == old(f.TimeWindow())
      ensures !Throttled(old(lastFetch), cfg.minimumGeoFetchIntervalMin, now) && verified ==>
                FeedMatched(cfg, near, neighbours, feed, old(Windows(feed)), old(myData[..]), Windows(feed), matched, failed)
      ensures candidates == AsCandidates(matched)
      ensures myData.Length == 0 ==> db.records == old(db.records) && notifications == old(notifications)
    {
      matched, candidates, failed := [], [], false;
      if Throttled(lastFetch, cfg.minimumGeoFetchIntervalMin, now) {
        return;
      }
      if !verified {
        errors := errors + 1;
        return;
      }
      matched, candidates, failed := MatchMergeNotify(cfg, near, neighbours, feed, myData);
      if myData.Length == 0 {
        NoMatchNoWrite(old(Snapshot()));
      }
    }

    /**
     * The verified branch of checkGeoSickPeople: match the feed; a matcher
     * that throws is reported, otherwise the matches are merged and the
     * added ones notified.
     */
    method MatchMergeNotify(cfg: Config, near: (Location, Place) -> bool, neighbours: string -> seq<string>,
                            feed: seq<SickRecord>, myData: array<Location>)
      returns (ghost matched: seq<SickRecord>, ghost candidates: seq<Candidate>, ghost failed: bool)
      requires NoDuplicates(feed)
      modifies this, db, myData, feed
      ensures lastFetch == old(lastFetch)
      ensures Snapshot() == MergeMatches(old(Snapshot()), failed, candidates)
      ensures FeedMatched(cfg, near, neighbours, feed, old(Windows(feed)), old(myData[..]), Windows(feed), matched, failed)
      ensures candidates == AsCandidates(matched)
    {
      var sickPeopleIntersected, threw := MatchFeed(cfg, near, neighbours, myData, feed);
      matched, failed := sickPeopleIntersected, threw;
      if threw {
        ReportError(feed);
        candidates := [];
        return;
      }
      candidates := MergeAndNotify(sickPeopleIntersected, feed);
    }

    /** onError: one more error is reported; the features of `feed` are not touched. */
    method ReportError(ghost feed: seq<SickRecord>)
      modifies this
      ensures lastFetch == old(lastFetch)
      ensures Snapshot() == old(Snapshot()).(errors := old(errors) + 1)
      ensures Windows(feed) == old(Windows(feed))
    {
      errors := errors + 1;
    }

    /**
     * The matches of the geo check, merged into the registry; the added
     * records are notified together. The features of `feed` are not touched.
     */
    method MergeAndNotify(sickPeopleIntersected: seq<SickRecord>, ghost feed: seq<SickRecord>) returns (ghost candidates: seq<Candidate>)
      modifies this, db
      ensures lastFetch == old(lastFetch)
      ensures Snapshot() == MergeMatches(old(Snapshot()), false, candidates)
      ensures candidates == AsCandidates(sickPeopleIntersected)
      ensures Windows(feed) == old(Windows(feed))
    {
      ghost var ws := Windows(feed);
      var filteredIntersected: seq<Exposure>;
      candidates, filteredIntersected := ProcessIntersected(sickPeopleIntersected);
      assert Windows(feed) == ws;
      if |filteredIntersected| > 0 {
        OnSickPeopleNotify(filteredIntersected);
      }
    }

    /**
     * The checkpoint write that ends a run. Nothing else changes: neither
     * the rest of the device nor the windows of the features `feed` and
     * `matched`.
     */
    method SaveLastFetch(now: int, ghost feed: seq<SickRecord>, ghost matched: seq<SickRecord>)
      modifies this
      ensures lastFetch == Some(now)
      ensures Snapshot() == old(Snapshot())
      ensures Windows(feed) == old(Windows(feed)) && AsCandidates(matched) == old(AsCandidates(matched))
    {
      lastFetch := Some(now);
    }

    /**
     * The body of startForegroundTimer and backgroundTimerFn: the Bluetooth
     * check, then the geo check on the state it left, both reading the
     * checkpoint of the previous run; then the checkpoint write. `mid` is
     * the state between the two checks.
     */
    method RunChecks(cfg: Config, isIOS: bool, near: (Location, Place) -> bool, neighbours: string -> seq<string>,
                     bleNow: int, bleMatches: seq<Encounter>,
                     geoNow: int, verified: bool, feed: seq<SickRecord>, myData: array<Location>,
                     writeNow: int)
      returns (ghost mid: State, ghost matched: seq<SickRecord>, ghost candidates: seq<Candidate>, ghost failed: bool)
      requires NoDuplicates(feed)
      modifies this, db, myData, feed
      ensures mid == BleCheck(cfg, isIOS, bleNow, bleMatches, old(lastFetch), old(Snapshot()))
      ensures Snapshot() == GeoCheck(cfg, geoNow, verified, old(lastFetch), mid, failed, candidates)
      ensures !Throttled(old(lastFetch), cfg.minimumGeoFetchIntervalMin, geoNow) && verified ==>
                FeedMatched(cfg, near, neighbours, feed, old(Windows(feed)), old(myData[..]), Windows(feed), matched, failed)
      ensures candidates == AsCandidates(matched)
      ensures lastFetch == Some(writeNow)
    {
      ghost var ws, data := Windows(feed), myData[..];
      CheckBLESickPeople(cfg, isIOS, bleNow, bleMatches);
      mid := Snapshot();
      assert Windows(feed) == ws && myData[..] == data;
      matched, candidates, failed := CheckGeoSickPeople(cfg, near, neighbours, geoNow, verified, feed, myData);
      SaveLastFetch(writeNow, feed, matched);
    }
  }
}
