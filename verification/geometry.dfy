/**
 * Time-window arithmetic of the tracker: the overlap test with its
 * configured threshold, the window a hit leaves behind, the UTC hour
 * bucket of a Bluetooth timestamp, the fetch throttle and the
 * seconds-to-milliseconds scaling of encounters.
 */
module Geometry {
  import opened Wrappers
  import opened Types

  const MillisPerSecond := 1000
  const MillisPerMinute := 60000
  const MillisPerHour := 3600000

  function Min(a: int, b: int): int { if a <= b then a else b }
  function Max(a: int, b: int): int { if a <= b then b else a }

  /** Length of the common part of two windows; zero or negative when they do not overlap. */
  function OverlapLength(a: Window, b: Window): int {
    Min(a.to, b.to) - Max(a.from, b.from)
  }

  /** The minimum overlap a geo match needs: the cluster threshold in cluster mode. */
  function Threshold(cfg: Config): int {
    if cfg.intersectWithClusters then cfg.intersectMillisecondsWithCluster else cfg.intersectMilliseconds
  }

  /** Does the span from `from` to `to` exceed the threshold of the current mode? */
  function CheckMillisecondsDiff(cfg: Config, to: int, from: int): (r: bool)
    ensures r && Threshold(cfg) >= 0 ==> from < to
    ensures !r && Threshold(cfg) <= 0 ==> to <= from
  {
    to - from > Threshold(cfg)
  }

  /**
   * A user record overlaps a sick window in time when the common part of
   * the two exceeds the threshold; equivalently, when every end of one lies
   * more than the threshold after every start of the other.
   */
  function IsTimeOverlapping(cfg: Config, user: Location, sick: Window): (r: bool)
    ensures r <==> user.endTime - user.startTime > Threshold(cfg) && sick.to - sick.from > Threshold(cfg)
                   && user.endTime - sick.from > Threshold(cfg) && sick.to - user.startTime > Threshold(cfg)
  {
    CheckMillisecondsDiff(cfg, Min(user.endTime, sick.to), Max(user.startTime, sick.from))
  }

  /** Windows that only touch, or are disjoint, never overlap under a non-negative threshold. */
  lemma TouchingWindowsNeverOverlap(cfg: Config, user: Location, sick: Window)
    requires Threshold(cfg) >= 0
    requires user.endTime <= sick.from || sick.to <= user.startTime
    ensures !IsTimeOverlapping(cfg, user, sick)
  {
  }

  /** The sick window after a hit: it starts at the later start and ends where the user record ends. */
  function Narrow(w: Window, user: Location): Window {
    Window(Max(user.startTime, w.from), user.endTime)
  }

  /**
   * The window left by a hit is longer than the threshold, still overlaps
   * the location that hit it, and never starts earlier than before.
   */
  lemma NarrowedWindowOverlaps(cfg: Config, user: Location, w: Window)
    requires IsTimeOverlapping(cfg, user, w)
    ensures Narrow(w, user).to - Narrow(w, user).from > Threshold(cfg)
    ensures IsTimeOverlapping(cfg, user, Narrow(w, user))
    ensures Narrow(w, user).from >= w.from
  {
  }

  /**
   * The narrowed window ends at the location's end time, not at the smaller
   * of the two end times, so it can reach past the report's own end.
   */
  lemma NarrowCanOutlastReport()
    ensures var user := Location(0.0, 0.0, 0.0, 1000, 9000, "");
            var w := Window(2000, 6000);
            Narrow(w, user) == Window(2000, 9000) && Narrow(w, user).to > w.to
  {
  }

  /** Start of the UTC hour that contains `t`. */
  function HourFloor(t: int): (r: int)
    ensures r % MillisPerHour == 0
    ensures r <= t < r + MillisPerHour
  {
    t - t % MillisPerHour
  }

  /** The hour bucket is the only hour boundary at or below `t` within an hour of it. */
  lemma HourFloorUnique(t: int, h: int)
    requires h % MillisPerHour == 0
    requires h <= t < h + MillisPerHour
    ensures h == HourFloor(t)
  {
    var f := HourFloor(t);
    var q, p := h / MillisPerHour, f / MillisPerHour;
    assert h == q * MillisPerHour;
    assert f == p * MillisPerHour;
    assert (q - p) * MillisPerHour == h - f;
    assert -MillisPerHour < h - f < MillisPerHour;
    assert q == p;
  }

  /** The hour [HourFloor(ts), HourFloor(ts) + 1h] a Bluetooth timestamp falls in. */
  function HourWindow(ts: int): (w: Window)
    ensures w.from % MillisPerHour == 0
    ensures w.from <= ts < w.to
    ensures w.to - w.from == MillisPerHour
  {
    Window(HourFloor(ts), HourFloor(ts) + MillisPerHour)
  }

  /**
   * A check is skipped while the checkpoint plus the minimum interval (in
   * minutes) is still after now; a missing checkpoint reads as 0.
   */
  function Throttled(lastFetch: Option<int>, intervalMin: int, now: int): bool {
    lastFetch.GetOr(0) + intervalMin * MillisPerMinute > now
  }

  /** A throttled check stays throttled at any earlier time. */
  lemma ThrottleMonotone(lastFetch: Option<int>, intervalMin: int, now: int, later: int)
    requires now <= later
    requires Throttled(lastFetch, intervalMin, later)
    ensures Throttled(lastFetch, intervalMin, now)
  {
  }

  /** Without a checkpoint the check runs as soon as `now` reaches the interval itself. */
  lemma MissingCheckpointIsZero(intervalMin: int, now: int)
    ensures Throttled(None, intervalMin, now) <==> now < intervalMin * MillisPerMinute
  {
  }

  /**
   * The encounter with its timestamps scaled from seconds to milliseconds:
   * whole seconds, and dividing by 1000 gives the original back.
   */
  function ToMillis(e: Encounter): (r: Encounter)
    ensures r.startContactTimestamp % MillisPerSecond == 0
    ensures r.startContactTimestamp / MillisPerSecond == e.startContactTimestamp
    ensures r.endContactTimestamp % MillisPerSecond == 0
    ensures r.endContactTimestamp / MillisPerSecond == e.endContactTimestamp
  {
    Encounter(e.startContactTimestamp * MillisPerSecond, e.endContactTimestamp * MillisPerSecond)
  }
}
