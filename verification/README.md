# Exposure correlation in the Hamagen tracker

Hamagen is a contact-tracing app. Its tracker service correlates the
user's own location history with a feed of reported sick locations, and
with Bluetooth encounters reported by a proximity log. The results are
stored in an exposure registry, and the user is notified of new
exposures. This project models that engine in Dafny:

- **Geometry** covers the time arithmetic:
  - the overlap test against the configured threshold (the cluster
    threshold when the history holds clusters);
  - the window a hit leaves behind;
  - the UTC hour bucket of a Bluetooth timestamp;
  - the fetch throttle;
  - the seconds-to-milliseconds scaling of encounters.
- **GeoMatch** holds the two geo matchers as imperative code over the
  same state as the source:
  - a feed feature (`SickRecord`) is a class whose window the matchers
    narrow in place;
  - the user's history is an `array` that the full scan reverses in
    place once per feature;
  - the geohash matcher fills a bucket dictionary in a loop.
  
  Both are proved against `Scan`, a specification function of one
  feature's pass over a list of locations.
- **Registry** holds the exposure registry, a class over a sequence of
  records. It also holds the two `find` searches the tracker runs over
  the registry.
- **Merge** holds the merge/dedup decisions as functions of the
  registry:
  - skip a known key, merge into a proximity-only record, or add, for
    each geo match;
  - merge or add for a Bluetooth encounter.
- **Tracker** holds the device state (the fetch checkpoint, the
  dismissed list, the raised notifications and the reported errors) as a
  class with the two checks and the timer body that runs them.

Several things the app does not compute itself are inputs of the model:

- the haversine distance test is the predicate `near`;
- geohash neighbours are the function `neighbours`;
- the clock is the `now` parameters;
- the feed's signature check is the flag `verified`;
- the platform is the flag `isIOS`;
- the proximity log's matches are the sequence `bleMatches`.

## Model

| member | source | states |
|---|---|---|
| Geometry.CheckMillisecondsDiff | src/services/Tracker.ts:255-257 | a span that exceeds a non-negative threshold is positive; one that fails a non-positive threshold is empty |
| Geometry.IsTimeOverlapping | src/services/Tracker.ts:259-264 | overlap beyond the threshold holds iff both windows, and both cross differences (each end against the other's start), exceed the threshold |
| Geometry.TouchingWindowsNeverOverlap | src/services/Tracker.ts:255-264 | windows that only touch or are disjoint never overlap when the threshold is non-negative |
| Geometry.NarrowedWindowOverlaps | src/services/Tracker.ts:197-198 | the window a hit leaves is longer than the threshold, still overlaps the hitting location, and starts no earlier than before |
| Geometry.NarrowCanOutlastReport | src/services/Tracker.ts:198 | the narrowed window ends at the location's end time, which can lie after the report's own end |
| Geometry.HourFloor | src/services/Tracker.ts:286 | the result is an hour boundary at or below the timestamp and less than an hour before it |
| Geometry.HourFloorUnique | src/services/Tracker.ts:286 | that hour boundary is the only one with this property |
| Geometry.HourWindow | src/services/Tracker.ts:286-287 | the bucket starts on a UTC hour boundary, is exactly one hour long and contains the timestamp |
| Geometry.ThrottleMonotone | src/services/Tracker.ts:56-60 | a check throttled at some time is throttled at every earlier time |
| Geometry.MissingCheckpointIsZero | src/services/Tracker.ts:131-135 | with no checkpoint, a check is throttled exactly while now is below the interval in milliseconds |
| Geometry.ToMillis | src/services/Tracker.ts:68-72 | both timestamps are whole seconds, and dividing them by 1000 gives the reported values back |
| GeoMatch.ScanAppend | src/services/Tracker.ts:189-202 | scanning two lists one after the other is scanning their concatenation |
| GeoMatch.HitsAtPrefix | src/services/Tracker.ts:192-199 | whether a location hits depends only on the locations before it |
| GeoMatch.ScanHitIff | src/services/Tracker.ts:192-199 | a feature is hit iff some location passes both the time and the space test against the window in force when it is tested |
| GeoMatch.ScanLastHit | src/services/Tracker.ts:196-198 | with no hit the window is untouched; after a hit it is the narrowing by the last hitting location (no later location hits): from = max(startTime, previous from), to = endTime |
| GeoMatch.ScanHitWindowExceedsThreshold | src/services/Tracker.ts:192-198 | a hit feature's final window is longer than the threshold |
| GeoMatch.ScanFromNondecreasing | src/services/Tracker.ts:197 | a scan never moves a window's start earlier |
| GeoMatch.ScanScenario | src/services/Tracker.ts:192-199 | one location of [1000, 5000] against a report of [2000, 6000] hits it and leaves [2000, 5000] |
| GeoMatch.ReversedTwice | src/services/Tracker.ts:191 | reversing twice restores the order |
| GeoMatch.ReversedTimesParity | src/services/Tracker.ts:189-191 | after one reversal per feature, the history is in its original order for an even number of features and reversed for an odd number |
| GeoMatch.Reverse | src/services/Tracker.ts:191 | the array is reversed in place |
| GeoMatch.Distinct | src/services/Tracker.ts:205 | the result has no repeats, holds only input values, and holds every input value |
| GeoMatch.DistinctKeepsOrder | src/services/Tracker.ts:205 | a list without repeats comes back unchanged, in its own order |
| GeoMatch.DistinctRun | src/services/Tracker.ts:205 | appending a run of copies of a value not yet present adds that value once, after everything already there: first occurrences keep their order |
| GeoMatch.DistinctMembers | src/services/Tracker.ts:249 | a value is in the deduplicated list iff it is in the input |
| GeoMatch.StripQuotes | src/services/Tracker.ts:219-220 | the result has no `'`, uses only characters of the input, and is the input when it had none |
| GeoMatch.StripQuotesAppend | src/services/Tracker.ts:219-220 | removing the quotes of a concatenation is concatenating the two strings with their quotes removed |
| GeoMatch.StripQuotesChar | src/services/Tracker.ts:219-220 | a lone `'` is removed and any other character is kept; with StripQuotesAppend this fixes the result character by character, in order |
| GeoMatch.GeohashPrefix | src/services/Tracker.ts:220 | the bucket key is a prefix of the cleaned geohash, of length min(filter length, cleaned length) |
| GeoMatch.BucketMembers | src/services/Tracker.ts:216-227 | a location is in a bucket iff it is in the history and its key is that bucket's key |
| GeoMatch.BucketMultiplicity | src/services/Tracker.ts:216-227 | a location occurs in its bucket as often as in the history |
| GeoMatch.BucketAppend | src/services/Tracker.ts:218-227 | buckets keep input order: the bucket of a concatenation is the concatenation of the buckets |
| GeoMatch.LocationInExactlyOneBucket | src/services/Tracker.ts:216-227 | every location of the history lies in the bucket of its key and in no other |
| GeoMatch.PushOntoBucket | src/services/Tracker.ts:222-226 | pushing a location onto its bucket, or creating that bucket, gives the buckets of the history one location longer |
| GeoMatch.BuildBuckets | src/services/Tracker.ts:216-227 | the loop leaves exactly the bucket map of the history |
| GeoMatch.CandidatesComeFromNamedBuckets | src/services/Tracker.ts:231-237 | a location is tested against a feature only if it is in the history and its key is the feature's prefix or one of its neighbours |
| GeoMatch.MatchLocations | src/services/Tracker.ts:237-244 | the inner loop leaves the window and the membership that the scan of the given locations gives, and pushes only this feature |
| GeoMatch.MatchFeatureFullScan | src/services/Tracker.ts:189-201 | the history is reversed in place; the feature ends with the window and the membership of the scan of the reversed history; no other feature's membership changes |
| GeoMatch.PushedRun | src/services/Tracker.ts:189-205 | when the pushed list holds, once deduplicated, the hit features before i in feed order, pushing feature i's copies (some iff it is hit) gives the hit features up to i in feed order |
| GeoMatch.FullScanStep | src/services/Tracker.ts:189-201 | iteration i: the history is reversed once more; feature i ends with the window and the membership of its scan; later features keep their windows and are not pushed; only feature i can join the result; the deduplicated pushed list is the hit features up to i, in feed order |
| GeoMatch.FullScanLoop | src/services/Tracker.ts:189-202 | after the loop the history has been reversed once per feature, and each feature holds the window and the membership of its scan over the history as it stood at its turn; only features are pushed, and the deduplicated pushed list is the hit features in feed order |
| GeoMatch.GetIntersectingSickRecords | src/services/Tracker.ts:182-206 | empty history: empty result, nothing changed. Otherwise each feature ends with the window of its scan over the history as reversed i+1 times, and is returned iff that scan hits; the result is exactly the hit features, in feed order. The array ends reversed iff the feature count is odd. No feature is returned twice, and only features of the feed are returned |
| GeoMatch.MatchFeatureByGeoHash | src/services/Tracker.ts:230-246 | the feature ends with the window and the membership of the scan over its own bucket, then its neighbours' buckets in order; no other feature's membership changes |
| GeoMatch.ByGeoHashStep | src/services/Tracker.ts:230-247 | iteration i: feature i ends with the window and the membership of its scan over its own bucket and then its neighbours' buckets; later features keep their windows and are not pushed; only feature i can join the result; the deduplicated pushed list is the hit features up to i, in feed order |
| GeoMatch.ByGeoHashLoop | src/services/Tracker.ts:230-247 | the loop stops at the first feature without a filter; every feature before it holds the window and the membership of its bucketed scan, later ones keep their windows and are not pushed, and the deduplicated pushed list is the hit features, in feed order |
| GeoMatch.Unfiltered | src/services/Tracker.ts:230-233 | the index of the first feature without a geohash filter (the feature count when there is none): every feature before it has a filter, and it has none |
| GeoMatch.GetIntersectingSickRecordsByGeoHash | src/services/Tracker.ts:208-252 | empty history: empty result, no failure, windows untouched. Otherwise it fails iff there is no first feature (line 220) or some feature has no filter (lines 231-233), and a failure returns nothing. The history is bucketed by the first feature's filter length. Each feature before the first unfiltered one ends with the window of its scan over its own bucket and then its neighbours'; with no failure it is returned iff that scan hits, and the result is exactly the hit features in feed order (the sort at line 251 keeps the order). Features from the first unfiltered one on keep their windows. No feature is returned twice, and only features of the feed are returned |
| GeoMatch.MatchFeed | src/services/Tracker.ts:140-141 | the geohash matcher runs iff the first feature has a non-empty filter. The matches are distinct features of the feed, and none for an empty history. It fails iff the geohash matcher meets a feature without a filter. Every feature the matcher reached has its scan's window, and the others keep theirs. With no failure, a feature is matched iff its scan hits, and for a non-empty history the matches are exactly the hit features in feed order. Only the full scan moves the history, reversing it iff the feature count is odd |
| GeoMatch.MatchFeedByGeoHash | src/services/Tracker.ts:140-141 | the geohash branch of the choice meets the matching-stage characterisation of MatchFeed, matches in feed order included |
| GeoMatch.MatchFeedFullScan | src/services/Tracker.ts:140-141 | the full-scan branch meets the same characterisation and never fails; the history ends reversed iff it is non-empty and the feature count is odd |
| GeoMatch.HitFeaturesAgree | src/services/Tracker.ts:140-141 | when a matcher's per-feature hits agree with the chosen matcher's, both give the same hit features in feed order |
| Registry.AppendKeys | src/services/Tracker.ts:167 | appending a record registers its key and keeps every other key |
| Registry.MergeGeoEffect | src/services/Tracker.ts:157 | a geo merge gives the proximity-only record the feature's key and window and keeps its timestamp; no key is lost; keyed records are untouched |
| Registry.MergeBleEffect | src/services/Tracker.ts:97 | a Bluetooth merge attaches the timestamp to the keyed record and marks it wasThere, keeping its window; no record's key changes |
| Registry.FindFirst | src/services/Tracker.ts:92-94 | Array.prototype.find: the first index whose element satisfies the predicate, or none when none does |
| Registry.FindGeoExposure | src/services/Tracker.ts:92-94 | the first record with a truthy OBJECTID whose window overlaps the encounter by a positive time, or none |
| Registry.FindBleExposure | src/services/Tracker.ts:280-291 | the first record with a null OBJECTID and a truthy BLETimestamp whose UTC hour overlaps the window by a positive time, or none |
| Registry.SickDatabase.ContainsObjectID | src/services/Tracker.ts:148-150 | true iff some record carries the key |
| Registry.SickDatabase.ContainsBLE | src/services/Tracker.ts:77 | true iff some record carries the timestamp |
| Registry.SickDatabase.ListAllRecords | src/services/Tracker.ts:90 | returns the registry's records |
| Registry.SickDatabase.AddSickRecord | src/services/Tracker.ts:167 | appends the record of the matched feature and returns it |
| Registry.SickDatabase.AddBLESickRecord | src/services/Tracker.ts:122 | appends a proximity-only record for the timestamp and returns it |
| Registry.SickDatabase.MergeGeoIntoSickRecord | src/services/Tracker.ts:157 | the registry becomes the geo merge of the feature into the records with that timestamp |
| Registry.SickDatabase.MergeBLEIntoSickRecord | src/services/Tracker.ts:97 | the registry becomes the Bluetooth merge of the timestamp into the record with that key |
| Merge.GeoStepOutcomes | src/services/Tracker.ts:147-169 | per match: a known key changes nothing; a merge into a proximity-only record notifies nothing; otherwise exactly that record is appended and notified. Afterwards the key is registered, no key is lost, and keyed records are untouched |
| Merge.GeoLoopGrowth | src/services/Tracker.ts:146-171 | the registry grows by exactly the records added for notification, at most one per match |
| Merge.GeoLoopSnoc | src/services/Tracker.ts:147-171 | one more match is one more step of the loop |
| Merge.GeoLoopAddsExactlyNotified | src/services/Tracker.ts:146-171 | the notify list is exactly the records appended to the registry, and each carries a key and wasThere |
| Merge.GeoLoopKeysPresent | src/services/Tracker.ts:147-171 | after the loop every match's key, and every key registered before, is in the registry |
| Merge.GeoLoopOfKnownKeys | src/services/Tracker.ts:148-152 | when every key is already registered, the loop writes nothing and notifies nothing |
| Merge.GeoLoopRerunAddsNothing | src/services/Tracker.ts:147-171 | running the same matches again changes nothing |
| Merge.GeoLoopAddedAreNew | src/services/Tracker.ts:166-168 | every notified record is the record of a match whose key was not registered before |
| Merge.MergeGeoTouchesOne | src/services/Tracker.ts:157 | in a registry with unique keys and unique timestamps, the geo merge rewrites only the proximity-only record that carries the timestamp |
| Merge.GeoStepConsistent | src/services/Tracker.ts:147-169 | one match keeps the registry's keys unique and its timestamps unique |
| Merge.GeoLoopConsistent | src/services/Tracker.ts:147-171 | the whole merge loop keeps keys and timestamps unique |
| Merge.RemoveId | src/services/Tracker.ts:103 | the filtered dismissed list holds exactly the other ids |
| Merge.BleAndGeo | src/services/Tracker.ts:89-126 | the registry grows by exactly the notified records, at most one; a failed run notifies nothing and has already changed the registry |
| Merge.BleAndGeoConsistent | src/services/Tracker.ts:77-123 | for a timestamp not yet registered, the Bluetooth merge keeps keys and timestamps unique |
| Merge.BleAndGeoOutcomes | src/services/Tracker.ts:89-126 | with no overlapping geo record, exactly one proximity-only record is appended and notified. Otherwise the first overlapping record takes the timestamp and nothing is added or notified; the run fails iff the user had dismissed that record, and then its id leaves the dismissed list |
| Merge.GeoThenBle | src/services/Tracker.ts:89-97 | a report followed by an overlapping encounter ends in one record carrying both the key and the timestamp, with no notification |
| Merge.BleThenGeo | src/services/Tracker.ts:147-157 | an encounter followed by a report overlapping its UTC hour ends in one record carrying both, and the geo match notifies nobody |
| Merge.MergeDependsOnOrder | src/services/Tracker.ts:92-94 | an encounter at 10:00-10:05 and a report at 10:30-10:40 give two records one way round and one the other, since only the encounter-first order tests the whole hour |
| Tracker.BleCheckEffects | src/services/Tracker.ts:51-126 | one Bluetooth check raises at most one notification and reports at most one error, never both; the registry gains one record exactly when a notification is raised |
| Tracker.MergeMatchesEffects | src/services/Tracker.ts:141-178 | a failed match reports one error and changes nothing else; otherwise no error, at most one notification, and the registry grows by exactly the records notified; the dismissed list is untouched |
| Tracker.GeoCheckEffects | src/services/Tracker.ts:129-180 | a throttled geo check changes nothing; otherwise at most one error (and then no write and no notification) or at most one notification whose records are exactly the ones the registry gained; the dismissed list is untouched |
| Tracker.BleCheckConsistent | src/services/Tracker.ts:51-86 | the Bluetooth check keeps the registry's keys and timestamps unique |
| Tracker.GeoCheckConsistent | src/services/Tracker.ts:129-180 | the geo check keeps the registry's keys and timestamps unique |
| Tracker.ThrottledRunChangesNothing | src/services/Tracker.ts:33-41 | when both checks are throttled (or Bluetooth is off on iOS), the two checks in a row leave the state as it was |
| Tracker.RunConsistent | src/services/Tracker.ts:33-41 | a run of both checks keeps the registry's keys and timestamps unique |
| Tracker.NoMatchNoWrite | src/services/Tracker.ts:143-176 | merging no matches writes nothing and raises no notification |
| Tracker.Device.constructor | src/services/Tracker.ts:56 | the state on first install: no checkpoint (read as 0 here and at line 131), no dismissed list (read as '' at line 102), no notifications and no errors |
| Tracker.Device.OnSickPeopleNotify | src/services/Tracker.ts:293-310 | a non-empty list raises exactly one notification; an empty list does nothing |
| Tracker.Device.CheckBleAndGeoIntersection | src/services/Tracker.ts:89-126 | registry, dismissed list, notifications and failure are those of the pure Bluetooth merge |
| Tracker.Device.CheckBLESickPeople | src/services/Tracker.ts:51-86 | the device state becomes BleCheck of the old state: iOS, throttling, no match, or a start already registered leaves it unchanged; otherwise the first match, scaled to milliseconds, is merged or added as in the pure Bluetooth merge, and a failure adds one reported error. The checkpoint is not written |
| Tracker.Device.ProcessIntersected | src/services/Tracker.ts:143-171 | the registry and the list to notify are those of the pure geo loop over the matched features, read as they were when the loop reached them |
| Tracker.Device.MatchMergeNotify | src/services/Tracker.ts:137-178 | the matching stage is characterised as in MatchFeed; a failed match adds one error and writes nothing; otherwise the registry follows the geo loop over the matches (in feed order), read with their narrowed windows, and one notification is raised iff a record was added |
| Tracker.Device.ReportError | src/services/Tracker.ts:177-178 | a caught error adds one reported error; the registry, the notifications, the checkpoint and the features' windows are untouched |
| Tracker.Device.MergeAndNotify | src/services/Tracker.ts:143-176 | the registry and the notifications follow the geo loop over the matches; the checkpoint and the features' windows are untouched |
| Tracker.Device.CheckGeoSickPeople | src/services/Tracker.ts:129-180 | the device state becomes GeoCheck of the old state. Throttled: nothing changes, the history and the windows included. Unverified feed: one error, nothing else. Otherwise the matching stage is characterised as in MatchFeed (the matches in feed order), and the registry and the notifications follow the geo loop over the matches. An empty history writes nothing and notifies nobody |
| Tracker.Device.RunChecks | src/services/Tracker.ts:33-41 | the state between the checks is BleCheck of the old state; the final state is GeoCheck of that one; both throttle tests read the previous checkpoint; the geo matching is characterised as in MatchFeed, matches in feed order included; then the checkpoint is now |
| Tracker.Device.SaveLastFetch | src/services/Tracker.ts:37-40 | the checkpoint becomes now, and nothing else changes |

## Left out

- The haversine distance test (src/services/Tracker.ts:266-278) is the abstract predicate `near`. That includes the radius default and the cluster radius, which are floating-point great-circle maths in a library.
- Geohash neighbours (src/services/Tracker.ts:233) are the abstract function `neighbours`. The model does not fix how many it returns.
- Asynchronous storage, the clock, the network download and its signature check, the proximity log's `match`, redux dispatches, `initLocale` and `registerLocalNotification` are left out. Where their results matter they are parameters: `now`, `verified`, `bleMatches`, the feed and the history.
- The store dispatches at src/services/Tracker.ts:112-118 and 159-165 are left out. They only update the UI's copy of past exposures.
- `queryDB` and the location databases are left out; the history, or the clusters in cluster mode, is an input.
- src/database/Database.ts is not part of this model. The registry operations state what the tracker relies on:
  - `containsBLE` is an exact timestamp match;
  - the geo merge updates the proximity-only records with that timestamp;
  - the Bluetooth merge updates the records with that key;
  - a new proximity-only record spans [ts, ts];
  - a geo record stores the matched feature's narrowed fromTime_utc and toTime_utc as its fromTime and toTime, which the overlap test at src/services/Tracker.ts:93 reads.
- The two sorts (src/services/Tracker.ts:65 and 251) have comparators that always yield NaN, so they keep the order they are given:
  - the Bluetooth match used is the first one reported, not the latest;
  - the geohash matcher's result stays in feed order, not newest first.
- The undefined name at src/services/Tracker.ts:104 makes the dismissed path of the Bluetooth merge throw after the merge and the dismissed-list write. The model therefore counts one error and raises no notification there. When no dismissed list was ever stored, `JSON.parse('')` throws before the write.
- The failures inside `onSickPeopleNotify` (src/services/Tracker.ts:307-309) are left out: the store, the locale and the notification service are outside the model.
- The geo path never takes an exposure off the dismissed list; the model reflects this and claims nothing more.
- GetIntersectingSickRecords and GetIntersectingSickRecordsByGeoHash: require the feed's features to be distinct objects, as features parsed from one JSON document are.
- The registry invariant (Registry.Consistent) is unique keys and unique proximity timestamps. It does not claim one proximity-only record per UTC hour. The tracker only skips an encounter whose start is already registered, and src/database/Database.ts (outside this model) is taken to make that an exact timestamp match, so two encounters in the same hour give two records.
- geoHash.neighbours is taken to throw on an empty geohash. The model treats a feature with an empty or missing filter this way, so the geohash matcher fails, the geo check reports one error and the registry is not written.
- The model does not state that the bucketed matcher and the full scan give the same matches. They need not, since the bucketed one sees fewer locations and in another order.
- Concurrency and timer scheduling are left out, and the checks run one after another. `startForegroundTimer` and `backgroundTimerFn` share the same body, RunChecks; scheduling the background timer is not modelled.
- Console logging is left out.
- Timestamps are unbounded integers, so the model has no float timestamps or overflow. A missing OBJECTID is modelled as null, which is what the strict test at src/services/Tracker.ts:284 needs to see.
- Where the source's comments and the code differ, the model follows the code. Two examples:
  - the merged window's end is the location's end time, not the earlier of the two ends;
  - "most recent" Bluetooth matches and "most early to last" sorting do not happen.
