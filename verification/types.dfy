/**
 * The records the exposure-correlation engine reads and writes.
 * Times are epoch milliseconds, unbounded integers.
 */
module Types {
  import opened Wrappers

  /** The configuration entries the engine consults. */
  datatype Config = Config(
    intersectWithClusters: bool,
    intersectMilliseconds: int,
    intersectMillisecondsWithCluster: int,
    minimumBLEFetchIntervalMin: int,
    minimumGeoFetchIntervalMin: int)

  /** A time window [from, to]. */
  datatype Window = Window(from: int, to: int)

  /**
   * One row of the user's history: a location sample, or a cluster when
   * cluster mode is on (then `radius` is the cluster's radius).
   */
  datatype Location = Location(
    lat: real, long: real, radius: real,
    startTime: int, endTime: int,
    geoHash: string)

  /** The immutable geometry of a feed feature: its coordinates and radius (0 when absent). */
  datatype Place = Place(lat: real, long: real, radius: real)

  /** A Bluetooth encounter as the proximity log reports it, in seconds. */
  datatype Encounter = Encounter(startContactTimestamp: int, endContactTimestamp: int)

  /** A record of the exposure registry. `objectId` is None for a proximity-only record. */
  datatype Exposure = Exposure(
    objectId: Option<int>,
    fromTime: int,
    toTime: int,
    bleTimestamp: Option<int>,
    wasThere: bool)

  /** What the merge stage reads of a matched feed feature: its Key_Field and its narrowed window. */
  datatype Candidate = Candidate(key: int, window: Window)

  /** JavaScript truthiness of a nullable number: present and not 0. */
  predicate Truthy(x: Option<int>) {
    x.Some? && x.value != 0
  }

  predicate NoDuplicates<T(==)>(s: seq<T>) {
    forall i, j :: 0 <= i < j < |s| ==> s[i] != s[j]
  }
}
