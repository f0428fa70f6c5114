/**
 * The two geo matchers. Each feed feature is tested against the user's
 * locations in time and in space; a hit narrows the feature's window in
 * place and records the feature, and the hits are deduplicated by identity.
 * The full scan tests every location; the geohash matcher only those in the
 * buckets of the feature's prefix and its neighbours.
 */
module GeoMatch {
  import opened Types
  import opened Geometry

  /** A feature of the sick feed. The matchers narrow its window in place. */
  class SickRecord {
    const key: int               // properties.Key_Field
    const place: Place           // geometry.coordinates and properties.radius
    const geohashFilter: string  // properties.geohashFilter, "" when absent
    var fromTime: int            // properties.fromTime_utc
    var toTime: int              // properties.toTime_utc

    function TimeWindow(): Window
      reads this
    {
      Window(fromTime, toTime)
    }

    /** What the merge stage reads of the feature. */
    function AsCandidate(): Candidate
      reads this
    {
      Candidate(key, TimeWindow())
    }
  }

  /** The features as the merge stage reads them, in order. */
  ghost function AsCandidates(recs: seq<SickRecord>): (cs: seq<Candidate>)
    reads recs
    ensures |cs| == |recs|
    ensures forall k :: 0 <= k < |recs| ==> cs[k] == recs[k].AsCandidate()
  {
    if recs == [] then [] else AsCandidates(recs[..|recs| - 1]) + [recs[|recs| - 1].AsCandidate()]
  }

  // ---------------------------------------------------------------------
  // Specification of one feature's scan over a list of locations

  /** Whether the feature has been hit so far, and its current window. */
  datatype Outcome = Outcome(hit: bool, window: Window)

  /** One location tested against the feature: time first, then the space predicate. */
  function Step(cfg: Config, near: (Location, Place) -> bool, place: Place, o: Outcome, user: Location): Outcome {
    if IsTimeOverlapping(cfg, user, o.window) && near(user, place) then
      Outcome(true, Narrow(o.window, user))
    else
      o
  }

  /** The locations tested in order, each against the window the previous ones left. */
  function Scan(cfg: Config, near: (Location, Place) -> bool, place: Place, o: Outcome, locs: seq<Location>): Outcome
    decreases |locs|
  {
    if locs == [] then o
    else Step(cfg, near, place, Scan(cfg, near, place, o, locs[..|locs| - 1]), locs[|locs| - 1])
  }

  /** Location `k` passes both tests against the window the locations before it left. */
  predicate HitsAt(cfg: Config, near: (Location, Place) -> bool, place: Place, o: Outcome, locs: seq<Location>, k: int)
    requires 0 <= k < |locs|
  {
    IsTimeOverlapping(cfg, locs[k], Scan(cfg, near, place, o, locs[..k]).window) && near(locs[k], place)
  }

  /** Scanning two lists one after the other is scanning their concatenation. */
  lemma {:induction false} ScanAppend(cfg: Config, near: (Location, Place) -> bool, place: Place, o: Outcome, a: seq<Location>, b: seq<Location>)
    ensures Scan(cfg, near, place, o, a + b) == Scan(cfg, near, place, Scan(cfg, near, place, o, a), b)
    decreases |b|
  {
    if b == [] {
      assert a + b == a;
    } else {
      var b' := b[..|b| - 1];
      assert (a + b)[..|a + b| - 1] == a + b';
      assert (a + b)[|a + b| - 1] == b[|b| - 1];
      ScanAppend(cfg, near, place, o, a, b');
    }
  }

  /** A scan hits exactly when some location passes both tests against the window in force when it is tested. */
  lemma {:induction false} ScanHitIff(cfg: Config, near: (Location, Place) -> bool, place: Place, o: Outcome, locs: seq<Location>)
    ensures Scan(cfg, near, place, o, locs).hit <==>
            o.hit || exists k :: 0 <= k < |locs| && HitsAt(cfg, near, place, o, locs, k)
    decreases |locs|
  {
    if locs != [] {
      var n := |locs| - 1;
      var pre := locs[..n];
      ScanHitIff(cfg, near, place, o, pre);
      forall k | 0 <= k < n
        ensures HitsAt(cfg, near, place, o, locs, k) == HitsAt(cfg, near, place, o, pre, k)
      {
        assert locs[..k] == pre[..k];
      }
      if Scan(cfg, near, place, o, pre).hit {
        if !o.hit {
          var k :| 0 <= k < |pre| && HitsAt(cfg, near, place, o, pre, k);
          assert HitsAt(cfg, near, place, o, locs, k);
        }
      } else if HitsAt(cfg, near, place, o, locs, n) {
      } else {
        forall k | 0 <= k < |locs|
          ensures !HitsAt(cfg, near, place, o, locs, k)
        {
          if k < n {
            assert !HitsAt(cfg, near, place, o, pre, k);
          }
        }
      }
    }
  }

  /** Whether location `k` passes both tests does not depend on the locations after it. */
  lemma HitsAtPrefix(cfg: Config, near: (Location, Place) -> bool, place: Place, o: Outcome, locs: seq<Location>, n: int, j: int)
    requires 0 <= j < n <= |locs|
    ensures HitsAt(cfg, near, place, o, locs, j) == HitsAt(cfg, near, place, o, locs[..n], j)
  {
    assert locs[..n][..j] == locs[..j];
  }

  /**
   * Location `k` is the last hitting location of the scan, and the scan's
   * window is the narrowing it made.
   */
  predicate LastHitAt(cfg: Config, near: (Location, Place) -> bool, place: Place, o: Outcome, locs: seq<Location>, k: int)
    requires 0 <= k < |locs|
  {
    && HitsAt(cfg, near, place, o, locs, k)
    && Scan(cfg, near, place, o, locs).window == Narrow(Scan(cfg, near, place, o, locs[..k]).window, locs[k])
    && forall j :: k < j < |locs| ==> !HitsAt(cfg, near, place, o, locs, j)
  }

  /**
   * Without a hit the window is untouched; after a first hit it is the
   * window that the last hitting location left (from = max(its start, the
   * previous from), to = its end time), and no location after it hits.
   */
  lemma {:induction false} ScanLastHit(cfg: Config, near: (Location, Place) -> bool, place: Place, o: Outcome, locs: seq<Location>)
    ensures !Scan(cfg, near, place, o, locs).hit ==> Scan(cfg, near, place, o, locs).window == o.window
    ensures Scan(cfg, near, place, o, locs).hit && !o.hit ==>
            exists k :: 0 <= k < |locs| && LastHitAt(cfg, near, place, o, locs, k)
    decreases |locs|
  {
    if locs != [] {
      var n := |locs| - 1;
      var pre := locs[..n];
      ScanLastHit(cfg, near, place, o, pre);
      var s := Scan(cfg, near, place, o, pre);
      assert Scan(cfg, near, place, o, locs) == Step(cfg, near, place, s, locs[n]);
      if HitsAt(cfg, near, place, o, locs, n) {
        assert LastHitAt(cfg, near, place, o, locs, n);
      } else if s.hit && !o.hit {
        var k :| 0 <= k < |pre| && LastHitAt(cfg, near, place, o, pre, k);
        HitsAtPrefix(cfg, near, place, o, locs, n, k);
        assert locs[..k] == pre[..k];
        forall j | k < j < |locs|
          ensures !HitsAt(cfg, near, place, o, locs, j)
        {
          if j < n {
            HitsAtPrefix(cfg, near, place, o, locs, n, j);
          }
        }
        assert LastHitAt(cfg, near, place, o, locs, k);
      }
    }
  }

  /** After a hit, the feature's window is longer than the threshold. */
  lemma ScanHitWindowExceedsThreshold(cfg: Config, near: (Location, Place) -> bool, place: Place, w: Window, locs: seq<Location>)
    requires Scan(cfg, near, place, Outcome(false, w), locs).hit
    ensures Scan(cfg, near, place, Outcome(false, w), locs).window.to - Scan(cfg, near, place, Outcome(false, w), locs).window.from > Threshold(cfg)
  {
    var o := Outcome(false, w);
    ScanLastHit(cfg, near, place, o, locs);
    var k :| 0 <= k < |locs| && LastHitAt(cfg, near, place, o, locs, k);
    NarrowedWindowOverlaps(cfg, locs[k], Scan(cfg, near, place, o, locs[..k]).window);
  }

  /** A scan only ever moves the window's start later. */
  lemma {:induction false} ScanFromNondecreasing(cfg: Config, near: (Location, Place) -> bool, place: Place, o: Outcome, locs: seq<Location>)
    ensures Scan(cfg, near, place, o, locs).window.from >= o.window.from
    decreases |locs|
  {
    if locs != [] {
      ScanFromNondecreasing(cfg, near, place, o, locs[..|locs| - 1]);
    }
  }

  /**
   * One location of [1000, 5000] against a report of [2000, 6000] with a
   * zero threshold: the report is hit and its window becomes [2000, 5000].
   */
  lemma ScanScenario(cfg: Config, near: (Location, Place) -> bool, place: Place)
    requires Threshold(cfg) == 0
    requires near(Location(32.0, 34.0, 0.0, 1000, 5000, ""), place)
    ensures Scan(cfg, near, place, Outcome(false, Window(2000, 6000)), [Location(32.0, 34.0, 0.0, 1000, 5000, "")])
            == Outcome(true, Window(2000, 5000))
  {
    var locs := [Location(32.0, 34.0, 0.0, 1000, 5000, "")];
    assert locs[..0] == [];
  }

  // ---------------------------------------------------------------------
  // Sequences: in-place reversal and identity deduplication

  function Reversed<T>(s: seq<T>): seq<T> {
    seq(|s|, k requires 0 <= k < |s| => s[|s| - 1 - k])
  }

  /** Reversing twice gives the original order back. */
  lemma ReversedTwice<T>(s: seq<T>)
    ensures Reversed(Reversed(s)) == s
  {
    assert forall k | 0 <= k < |s| :: Reversed(Reversed(s))[k] == s[k];
  }

  /** The contents of an array after `n` in-place reversals. */
  function ReversedTimes<T>(s: seq<T>, n: nat): seq<T> {
    if n == 0 then s else Reversed(ReversedTimes(s, n - 1))
  }

  /** An even number of reversals restores the order, an odd number reverses it. */
  lemma {:induction false} ReversedTimesParity<T>(s: seq<T>, n: nat)
    ensures ReversedTimes(s, n) == if n % 2 == 0 then s else Reversed(s)
  {
    if n > 0 {
      ReversedTimesParity(s, n - 1);
      if n % 2 == 0 {
        assert (n - 1) % 2 == 1;
        ReversedTwice(s);
      } else {
        assert (n - 1) % 2 == 0;
      }
    }
  }

  /** The contents of the array after 0, 1, ..., n in-place reversals. */
  ghost function ReversalStates<T>(s: seq<T>, n: nat): (states: seq<seq<T>>)
    ensures |states| == n + 1
    ensures forall k :: 0 <= k <= n ==> states[k] == ReversedTimes(s, k)
  {
    if n == 0 then [s] else ReversalStates(s, n - 1) + [ReversedTimes(s, n)]
  }

  /** Array.prototype.reverse: reverses the array in place. */
  method Reverse<T>(a: array<T>)
    modifies a
    ensures a[..] == Reversed(old(a[..]))
  {
    var n := a.Length;
    for i := 0 to n / 2
      invariant forall k :: 0 <= k < i ==> a[k] == old(a[n - 1 - k]) && a[n - 1 - k] == old(a[k])
      invariant forall k :: i <= k < n - i ==> a[k] == old(a[k])
    {
      a[i], a[n - 1 - i] := a[n - 1 - i], a[i];
    }
  }

  /** [...new Set(s)]: the elements of `s`, each once, first occurrences first. */
  function Distinct<T(==)>(s: seq<T>): (r: seq<T>)
    ensures forall i :: 0 <= i < |r| ==> r[i] in s
    ensures forall i :: 0 <= i < |s| ==> s[i] in r
    ensures NoDuplicates(r)
    ensures |r| <= |s|
    decreases |s|
  {
    if s == [] then []
    else
      var p := Distinct(s[..|s| - 1]);
      if s[|s| - 1] in p then p else p + [s[|s| - 1]]
  }

  /** A sequence without repeats comes back unchanged, in its own order. */
  lemma {:induction false} DistinctKeepsOrder<T>(s: seq<T>)
    requires NoDuplicates(s)
    ensures Distinct(s) == s
    decreases |s|
  {
    if s != [] {
      var p := s[..|s| - 1];
      DistinctKeepsOrder(p);
      assert s[|s| - 1] !in p;
      assert p + [s[|s| - 1]] == s;
    }
  }

  /**
   * A run of copies of a value not seen before adds that value once, after
   * everything already there.
   */
  lemma {:induction false} DistinctRun<T>(s: seq<T>, t: seq<T>, x: T)
    requires x !in s
    requires forall k :: 0 <= k < |t| ==> t[k] == x
    ensures Distinct(s + t) == Distinct(s) + (if t == [] then [] else [x])
    decreases |t|
  {
    if t == [] {
      assert s + t == s;
    } else {
      var u := t[..|t| - 1];
      assert (s + t)[..|s + t| - 1] == s + u;
      assert (s + t)[|s + t| - 1] == x;
      DistinctRun(s, u, x);
      if u == [] {
        DistinctMembers(s, x);
      } else {
        assert (s + u)[|s|] == x;
        DistinctMembers(s + u, x);
      }
    }
  }

  /** Removing repeats keeps exactly the values that occur. */
  lemma DistinctMembers<T>(s: seq<T>, x: T)
    ensures x in Distinct(s) <==> x in s
  {
    if x in s {
      var k :| 0 <= k < |s| && s[k] == x;
    }
    if x in Distinct(s) {
      var k :| 0 <= k < |Distinct(s)| && Distinct(s)[k] == x;
    }
  }

  // ---------------------------------------------------------------------
  // Geohash buckets

  /** The geohash with every `'` removed (they come from some timeline exports). */
  function StripQuotes(s: string): (r: string)
    ensures '\'' !in r
    ensures forall c :: c in r ==> c in s
    ensures '\'' !in s ==> r == s
    decreases |s|
  {
    if s == [] then []
    else if s[0] == '\'' then StripQuotes(s[1..])
    else [s[0]] + StripQuotes(s[1..])
  }

  /** Removing quotes from a concatenation removes them from each part. */
  lemma {:induction false} StripQuotesAppend(a: string, b: string)
    ensures StripQuotes(a + b) == StripQuotes(a) + StripQuotes(b)
    decreases |a|
  {
    if a != [] {
      assert (a + b)[0] == a[0] && (a + b)[1..] == a[1..] + b;
      StripQuotesAppend(a[1..], b);
      if a[0] != '\'' {
        assert [a[0]] + StripQuotes(a[1..] + b) == [a[0]] + StripQuotes(a[1..]) + StripQuotes(b);
      }
    } else {
      assert a + b == b;
    }
  }

  /** A single character is dropped exactly when it is a quote. */
  lemma StripQuotesChar(c: char)
    ensures StripQuotes([c]) == if c == '\'' then [] else [c]
  {
    assert [c][1..] == [];
  }

  /** The bucket key of a location: its cleaned geohash cut to the filter length. */
  function GeohashPrefix(geoHash: string, n: nat): (r: string)
    ensures '\'' !in r
    ensures r <= StripQuotes(geoHash)
    ensures |r| == Min(n, |StripQuotes(geoHash)|)
  {
    var s := StripQuotes(geoHash);
    if |s| <= n then s else s[..n]
  }

  /** The locations whose key is `key`, in input order. */
  function Bucket(data: seq<Location>, key: string, n: nat): seq<Location>
    decreases |data|
  {
    if data == [] then []
    else
      var pre := data[..|data| - 1];
      var l := data[|data| - 1];
      if GeohashPrefix(l.geoHash, n) == key then Bucket(pre, key, n) + [l] else Bucket(pre, key, n)
  }

  /** A bucket holds exactly the locations of the history that carry its key. */
  lemma {:induction false} BucketMembers(data: seq<Location>, key: string, n: nat, l: Location)
    ensures l in Bucket(data, key, n) <==> l in data && GeohashPrefix(l.geoHash, n) == key
    decreases |data|
  {
    if data != [] {
      var pre := data[..|data| - 1];
      assert data == pre + [data[|data| - 1]];
      BucketMembers(pre, key, n, l);
    }
  }

  /** A location occurs in the bucket of its key exactly as often as in the history. */
  lemma {:induction false} BucketMultiplicity(data: seq<Location>, key: string, n: nat, l: Location)
    requires GeohashPrefix(l.geoHash, n) == key
    ensures multiset(Bucket(data, key, n))[l] == multiset(data)[l]
    decreases |data|
  {
    if data != [] {
      var pre := data[..|data| - 1];
      assert data == pre + [data[|data| - 1]];
      BucketMultiplicity(pre, key, n, l);
    }
  }

  /** Bucketing distributes over concatenation, so every bucket keeps the input order. */
  lemma {:induction false} BucketAppend(a: seq<Location>, b: seq<Location>, key: string, n: nat)
    ensures Bucket(a + b, key, n) == Bucket(a, key, n) + Bucket(b, key, n)
    decreases |b|
  {
    if b == [] {
      assert a + b == a;
    } else {
      var b' := b[..|b| - 1];
      assert (a + b)[..|a + b| - 1] == a + b';
      BucketAppend(a, b', key, n);
    }
  }

  function BucketKeys(data: seq<Location>, n: nat): set<string> {
    set l | l in data :: GeohashPrefix(l.geoHash, n)
  }

  /** The mappedLocations dictionary: key -> the locations with that key, in input order. */
  function BucketMap(data: seq<Location>, n: nat): map<string, seq<Location>> {
    map k | k in BucketKeys(data, n) :: Bucket(data, k, n)
  }

  /** Every location lies in the bucket of its own key and in no other. */
  lemma LocationInExactlyOneBucket(data: seq<Location>, n: nat, l: Location)
    requires l in data
    ensures GeohashPrefix(l.geoHash, n) in BucketMap(data, n)
    ensures l in BucketMap(data, n)[GeohashPrefix(l.geoHash, n)]
    ensures forall k :: k in BucketMap(data, n) && l in BucketMap(data, n)[k] ==> k == GeohashPrefix(l.geoHash, n)
  {
    BucketMembers(data, GeohashPrefix(l.geoHash, n), n, l);
    forall k | k in BucketMap(data, n) && l in BucketMap(data, n)[k]
      ensures k == GeohashPrefix(l.geoHash, n)
    {
      BucketMembers(data, k, n, l);
    }
  }

  lemma {:induction false} EmptyBucket(data: seq<Location>, key: string, n: nat)
    requires key !in BucketKeys(data, n)
    ensures Bucket(data, key, n) == []
    decreases |data|
  {
    if data != [] {
      var pre := data[..|data| - 1];
      assert BucketKeys(pre, n) <= BucketKeys(data, n);
      EmptyBucket(pre, key, n);
    }
  }

  /** Adding one location to the history adds its key to the keys... */
  lemma SnocKeys(data: seq<Location>, l: Location, n: nat)
    ensures BucketKeys(data + [l], n) == BucketKeys(data, n) + {GeohashPrefix(l.geoHash, n)}
  {
    var d := data + [l];
    forall k | k in BucketKeys(d, n)
      ensures k in BucketKeys(data, n) + {GeohashPrefix(l.geoHash, n)}
    {
      var x :| x in d && GeohashPrefix(x.geoHash, n) == k;
      if x != l {
        assert x in data;
      }
    }
  }

  /** ... and appends it to the end of its own bucket only. */
  lemma SnocBucket(data: seq<Location>, l: Location, n: nat, k: string)
    ensures Bucket(data + [l], k, n) == if k == GeohashPrefix(l.geoHash, n) then Bucket(data, k, n) + [l] else Bucket(data, k, n)
  {
    var d := data + [l];
    assert d[..|d| - 1] == data;
  }

  /** Whether `m` holds exactly the buckets of `data`. */
  predicate IsBucketMap(m: map<string, seq<Location>>, data: seq<Location>, n: nat) {
    m.Keys == BucketKeys(data, n) && forall k :: k in m ==> m[k] == Bucket(data, k, n)
  }

  /** The dictionary after pushing `l` onto the bucket of its key, creating the bucket when missing. */
  function Pushed(m: map<string, seq<Location>>, l: Location, n: nat): map<string, seq<Location>> {
    var p := GeohashPrefix(l.geoHash, n);
    if p in m then m[p := m[p] + [l]] else m[p := [l]]
  }

  /** After a push, each bucket is the bucket of the longer history. */
  lemma PushedBucket(m: map<string, seq<Location>>, data: seq<Location>, l: Location, n: nat, k: string)
    requires IsBucketMap(m, data, n)
    requires k in Pushed(m, l, n)
    ensures Pushed(m, l, n)[k] == Bucket(data + [l], k, n)
  {
    var p := GeohashPrefix(l.geoHash, n);
    SnocBucket(data, l, n, k);
    if k == p && p !in m {
      EmptyBucket(data, p, n);
    }
  }

  /** Pushing a location onto its bucket buckets one more location of the history. */
  lemma PushOntoBucket(m: map<string, seq<Location>>, data: seq<Location>, l: Location, n: nat)
    requires IsBucketMap(m, data, n)
    ensures IsBucketMap(Pushed(m, l, n), data + [l], n)
  {
    var m' := Pushed(m, l, n);
    assert m'.Keys == BucketKeys(data + [l], n) by {
      SnocKeys(data, l, n);
    }
    forall k | k in m'
      ensures m'[k] == Bucket(data + [l], k, n)
    {
      PushedBucket(m, data, l, n, k);
    }
  }

  /** The buckets of a history are determined by it. */
  lemma BucketMapUnique(m: map<string, seq<Location>>, data: seq<Location>, n: nat)
    requires IsBucketMap(m, data, n)
    ensures m == BucketMap(data, n)
  {
    assert m.Keys == BucketMap(data, n).Keys;
  }

  /** A prefix one longer is the prefix and the next element. */
  lemma TakeOneMore<T>(s: seq<T>, i: nat)
    requires i < |s|
    ensures s[..i + 1] == s[..i] + [s[i]]
  {
  }

  /** The loop that fills mappedLocations, pushing each location onto its bucket. */
  method BuildBuckets(data: seq<Location>, n: nat) returns (m: map<string, seq<Location>>)
    ensures m == BucketMap(data, n)
  {
    m := map[];
    for i := 0 to |data|
      invariant IsBucketMap(m, data[..i], n)
    {
      var location := data[i];
      var prefix := GeohashPrefix(location.geoHash, n);
      PushOntoBucket(m, data[..i], location, n);
      TakeOneMore(data, i);
      if prefix in m {
        m := m[prefix := m[prefix] + [location]];
      } else {
        m := m[prefix := [location]];
      }
    }
    assert data[..|data|] == data;
    BucketMapUnique(m, data, n);
  }

  /** The locations of the named buckets, bucket after bucket; a missing bucket contributes nothing. */
  function Candidates(m: map<string, seq<Location>>, prefixes: seq<string>): seq<Location>
    decreases |prefixes|
  {
    if prefixes == [] then []
    else
      var p := prefixes[|prefixes| - 1];
      Candidates(m, prefixes[..|prefixes| - 1]) + (if p in m then m[p] else [])
  }

  /** A location is tested against a feature only if its key is one of the feature's prefixes. */
  lemma {:induction false} CandidatesComeFromNamedBuckets(data: seq<Location>, n: nat, prefixes: seq<string>, l: Location)
    requires l in Candidates(BucketMap(data, n), prefixes)
    ensures l in data
    ensures GeohashPrefix(l.geoHash, n) in prefixes
    decreases |prefixes|
  {
    var m := BucketMap(data, n);
    var pre := prefixes[..|prefixes| - 1];
    var p := prefixes[|prefixes| - 1];
    if l in Candidates(m, pre) {
      CandidatesComeFromNamedBuckets(data, n, pre, l);
      assert GeohashPrefix(l.geoHash, n) in prefixes by {
        var i :| 0 <= i < |pre| && pre[i] == GeohashPrefix(l.geoHash, n);
        assert prefixes[i] == pre[i];
      }
    } else {
      assert p in m && l in m[p];
      BucketMembers(data, p, n, l);
    }
  }

  // ---------------------------------------------------------------------
  // The matchers

  /** What the full scan does to feature `i`: the history it sees has been reversed once per feature so far, itself included. */
  function FullScanOutcome(cfg: Config, near: (Location, Place) -> bool, place: Place, w: Window, data: seq<Location>, i: nat): Outcome {
    Scan(cfg, near, place, Outcome(false, w), ReversedTimes(data, i + 1))
  }

  /** What the geohash matcher does to a feature: the buckets of its prefix and its neighbours, in that order. */
  function ByGeoHashOutcome(cfg: Config, near: (Location, Place) -> bool, neighbours: string -> seq<string>,
                            place: Place, filter: string, w: Window, m: map<string, seq<Location>>): Outcome {
    Scan(cfg, near, place, Outcome(false, w), Candidates(m, [filter] + neighbours(filter)))
  }

  /**
   * The inner forEach: tests each location against the feature, narrows its
   * window on a hit and pushes the feature once per hit.
   */
  method MatchLocations(cfg: Config, near: (Location, Place) -> bool, sick: SickRecord, locs: seq<Location>, pushed: seq<SickRecord>)
    returns (pushed': seq<SickRecord>)
    modifies sick
    ensures sick.TimeWindow() == Scan(cfg, near, sick.place, Outcome(sick in pushed, old(sick.TimeWindow())), locs).window
    ensures sick in pushed' <==> Scan(cfg, near, sick.place, Outcome(sick in pushed, old(sick.TimeWindow())), locs).hit
    ensures |pushed| <= |pushed'| && pushed'[..|pushed|] == pushed
    ensures forall k :: |pushed| <= k < |pushed'| ==> pushed'[k] == sick
  {
    pushed' := pushed;
    ghost var start := Outcome(sick in pushed, sick.TimeWindow());
    for j := 0 to |locs|
      invariant sick.TimeWindow() == Scan(cfg, near, sick.place, start, locs[..j]).window
      invariant sick in pushed' <==> Scan(cfg, near, sick.place, start, locs[..j]).hit
      invariant |pushed| <= |pushed'| && pushed'[..|pushed|] == pushed
      invariant forall k :: |pushed| <= k < |pushed'| ==> pushed'[k] == sick
    {
      assert locs[..j + 1][..j] == locs[..j];
      var userRecord := locs[j];
      if IsTimeOverlapping(cfg, userRecord, sick.TimeWindow()) && near(userRecord, sick.place) {
        sick.fromTime := Max(userRecord.startTime, sick.fromTime);
        sick.toTime := userRecord.endTime;
        pushed' := pushed' + [sick];
      }
    }
    assert locs[..|locs|] == locs;
  }

  /** Pushing only `sick` leaves every other object's membership as it was. */
  lemma PushedOthers(pushed: seq<SickRecord>, pushed': seq<SickRecord>, sick: SickRecord, x: SickRecord)
    requires |pushed| <= |pushed'| && pushed'[..|pushed|] == pushed
    requires forall k :: |pushed| <= k < |pushed'| ==> pushed'[k] == sick
    requires x != sick
    ensures x in pushed' <==> x in pushed
  {
    if x in pushed' {
      var k :| 0 <= k < |pushed'| && pushed'[k] == x;
      assert pushed'[..|pushed|][k] == x;
    }
    if x in pushed {
      var k :| 0 <= k < |pushed| && pushed[k] == x;
      assert pushed'[k] == x;
    }
  }

  /** One feature of the full scan: reverse the history in place, then test the feature against it. */
  method MatchFeatureFullScan(cfg: Config, near: (Location, Place) -> bool, myData: array<Location>,
                              sick: SickRecord, pushed: seq<SickRecord>)
    returns (pushed': seq<SickRecord>)
    modifies myData, sick
    ensures myData[..] == Reversed(old(myData[..]))
    ensures sick.TimeWindow() == Scan(cfg, near, sick.place, Outcome(sick in pushed, old(sick.TimeWindow())), myData[..]).window
    ensures sick in pushed' <==> Scan(cfg, near, sick.place, Outcome(sick in pushed, old(sick.TimeWindow())), myData[..]).hit
    ensures forall x :: x != sick ==> (x in pushed' <==> x in pushed)
    ensures forall x :: x in pushed' ==> x in pushed || x == sick
    ensures |pushed| <= |pushed'| && pushed'[..|pushed|] == pushed
    ensures forall k :: |pushed| <= k < |pushed'| ==> pushed'[k] == sick
  {
    Reverse(myData);
    pushed' := MatchLocations(cfg, near, sick, myData[..], pushed);
    forall x | x != sick
      ensures x in pushed' <==> x in pushed
    {
      PushedOthers(pushed, pushed', sick, x);
    }
  }

  /** The current windows of the features, in feed order. */
  ghost function Windows(features: seq<SickRecord>): (ws: seq<Window>)
    reads features
    ensures |ws| == |features|
    ensures forall j :: 0 <= j < |features| ==> ws[j] == features[j].TimeWindow()
  {
    if features == [] then [] else Windows(features[..|features| - 1]) + [features[|features| - 1].TimeWindow()]
  }

  /** What the full scan does to each feature, from windows `ws`. */
  function FullScanOutcomes(cfg: Config, near: (Location, Place) -> bool, features: seq<SickRecord>,
                                  ws: seq<Window>, data: seq<Location>): (outs: seq<Outcome>)
    requires |ws| == |features|
    ensures |outs| == |features|
    ensures forall j :: 0 <= j < |features| ==> outs[j] == FullScanOutcome(cfg, near, features[j].place, ws[j], data, j)
  {
    if features == [] then []
    else
      var n := |features| - 1;
      FullScanOutcomes(cfg, near, features[..n], ws[..n], data) + [FullScanOutcome(cfg, near, features[n].place, ws[n], data, n)]
  }

  /** What the geohash matcher does to each feature, from windows `ws`. */
  function ByGeoHashOutcomes(cfg: Config, near: (Location, Place) -> bool, neighbours: string -> seq<string>,
                                   features: seq<SickRecord>, ws: seq<Window>, m: map<string, seq<Location>>): (outs: seq<Outcome>)
    requires |ws| == |features|
    ensures |outs| == |features|
    ensures forall j :: 0 <= j < |features| ==>
              outs[j] == ByGeoHashOutcome(cfg, near, neighbours, features[j].place, features[j].geohashFilter, ws[j], m)
  {
    if features == [] then []
    else
      var n := |features| - 1;
      ByGeoHashOutcomes(cfg, near, neighbours, features[..n], ws[..n], m) +
        [ByGeoHashOutcome(cfg, near, neighbours, features[n].place, features[n].geohashFilter, ws[n], m)]
  }

  /** In a sequence without repeats, every other position holds a different value. */
  lemma OthersDiffer<T>(s: seq<T>, i: int)
    requires NoDuplicates(s) && 0 <= i < |s|
    ensures forall j :: 0 <= j < |s| && j != i ==> s[j] != s[i]
  {
  }

  /** Features `0 .. i-1` hold the window and the membership that `outs` gives them. */
  ghost predicate Recorded(features: seq<SickRecord>, outs: seq<Outcome>, pushed: seq<SickRecord>, i: int)
    requires |outs| == |features| && 0 <= i <= |features|
    reads features
  {
    forall j :: 0 <= j < i ==> features[j].TimeWindow() == outs[j].window && (features[j] in pushed <==> outs[j].hit)
  }

  /** The first `n` features that `outs` marks as hit, in feed order. */
  function HitFeatures(features: seq<SickRecord>, outs: seq<Outcome>, n: nat): seq<SickRecord>
    requires n <= |features| && |outs| == |features|
  {
    if n == 0 then []
    else HitFeatures(features, outs, n - 1) + (if outs[n - 1].hit then [features[n - 1]] else [])
  }

  /**
   * Pushing a run of feature `i` onto a list whose distinct elements are the
   * hits before `i` gives the hits up to and including `i`, when the run is
   * non-empty exactly if `i` is hit.
   */
  lemma PushedRun(features: seq<SickRecord>, outs: seq<Outcome>, i: nat, pushed: seq<SickRecord>, pushed': seq<SickRecord>)
    requires i < |features| && |outs| == |features|
    requires Distinct(pushed) == HitFeatures(features, outs, i)
    requires features[i] !in pushed
    requires |pushed| <= |pushed'| && pushed'[..|pushed|] == pushed
    requires forall k :: |pushed| <= k < |pushed'| ==> pushed'[k] == features[i]
    requires features[i] in pushed' <==> outs[i].hit
    ensures Distinct(pushed') == HitFeatures(features, outs, i + 1)
  {
    var t := pushed'[|pushed|..];
    assert pushed' == pushed + t;
    DistinctRun(pushed, t, features[i]);
    if t != [] {
      assert pushed'[|pushed|] == features[i];
    }
  }

  /** Iteration `i` of getIntersectingSickRecords; `outs[i]` is what the full scan does to feature `i`. */
  method FullScanStep(cfg: Config, near: (Location, Place) -> bool, myData: array<Location>, features: seq<SickRecord>,
                      i: nat, pushed: seq<SickRecord>, ghost cur: seq<Location>, ghost olds: seq<Window>, ghost outs: seq<Outcome>)
    returns (pushed': seq<SickRecord>)
    requires i < |features| && |olds| == |features| && |outs| == |features|
    requires forall j :: 0 <= j < |features| && j != i ==> features[j] != features[i]
    requires forall j :: i <= j < |features| ==> features[j] !in pushed
    requires forall j :: i <= j < |features| ==> features[j].TimeWindow() == olds[j]
    requires myData[..] == cur
    requires Recorded(features, outs, pushed, i)
    requires Distinct(pushed) == HitFeatures(features, outs, i)
    requires outs[i] == Scan(cfg, near, features[i].place, Outcome(false, olds[i]), Reversed(cur))
    modifies myData, features[i]
    ensures myData[..] == Reversed(cur)
    ensures forall x :: x in pushed' ==> x in pushed || x == features[i]
    ensures forall j :: i < j < |features| ==> features[j] !in pushed'
    ensures forall j :: i < j < |features| ==> features[j].TimeWindow() == olds[j]
    ensures Recorded(features, outs, pushed', i + 1)
    ensures Distinct(pushed') == HitFeatures(features, outs, i + 1)
  {
    var sickRecord := features[i];
    pushed' := MatchFeatureFullScan(cfg, near, myData, sickRecord, pushed);
    forall j | 0 <= j < i + 1
      ensures features[j].TimeWindow() == outs[j].window && (features[j] in pushed' <==> outs[j].hit)
    {
      if j < i {
        assert features[j] in pushed' <==> features[j] in pushed;
      }
    }
    PushedRun(features, outs, i, pushed, pushed');
  }

  /**
   * What getIntersectingSickRecordsByGeoHash has done after its first `i`
   * iterations: those features hold the window and the membership that
   * `outs` gives them, the rest are untouched and absent, and the distinct
   * pushed features are the hit ones, in feed order.
   */
  ghost predicate ByGeoHashProgress(features: seq<SickRecord>, olds: seq<Window>, outs: seq<Outcome>, pushed: seq<SickRecord>, i: int)
    requires |olds| == |features| && |outs| == |features| && 0 <= i <= |features|
    reads features
  {
    && (forall x :: x in pushed ==> x in features)
    && (forall j :: i <= j < |features| ==> features[j] !in pushed)
    && (forall j :: i <= j < |features| ==> features[j].TimeWindow() == olds[j])
    && Recorded(features, outs, pushed, i)
    && Distinct(pushed) == HitFeatures(features, outs, i)
  }

  /**
   * The loop of getIntersectingSickRecords: scan every feature, reversing
   * the history before each; `states[k]` is the history after `k` reversals.
   */
  method FullScanLoop(cfg: Config, near: (Location, Place) -> bool, myData: array<Location>, features: seq<SickRecord>,
                      ghost states: seq<seq<Location>>, ghost olds: seq<Window>, ghost outs: seq<Outcome>)
    returns (pushed: seq<SickRecord>)
    requires NoDuplicates(features) && |states| == |features| + 1 && |olds| == |features| && |outs| == |features|
    requires myData[..] == states[0]
    requires forall k :: 0 <= k < |features| ==> states[k + 1] == Reversed(states[k])
    requires forall j :: 0 <= j < |features| ==> features[j].TimeWindow() == olds[j]
    requires forall j :: 0 <= j < |features| ==> outs[j] == Scan(cfg, near, features[j].place, Outcome(false, olds[j]), states[j + 1])
    modifies myData, features
    ensures myData[..] == states[|features|]
    ensures forall x :: x in pushed ==> x in features
    ensures Recorded(features, outs, pushed, |features|)
    ensures Distinct(pushed) == HitFeatures(features, outs, |features|)
  {
    pushed := [];
    for i := 0 to |features|
      invariant myData[..] == states[i]
      invariant forall x :: x in pushed ==> x in features
      invariant forall j :: i <= j < |features| ==> features[j] !in pushed
      invariant Recorded(features, outs, pushed, i)
      invariant Distinct(pushed) == HitFeatures(features, outs, i)
      invariant forall j :: i <= j < |features| ==> features[j].TimeWindow() == olds[j]
    {
      OthersDiffer(features, i);
      pushed := FullScanStep(cfg, near, myData, features, i, pushed, states[i], olds, outs);
    }
  }

  /**
   * getIntersectingSickRecords: for every feature, reverse the history in
   * place and scan it; return the hit features, each once.
   */
  method GetIntersectingSickRecords(cfg: Config, near: (Location, Place) -> bool, myData: array<Location>, features: seq<SickRecord>)
    returns (result: seq<SickRecord>)
    requires NoDuplicates(features)
    modifies myData, features
    ensures NoDuplicates(result)
    ensures forall f :: f in result ==> f in features
    ensures myData.Length == 0 ==> result == [] && myData[..] == old(myData[..])
    ensures myData.Length == 0 ==> forall f :: f in features ==> f.TimeWindow() == old(f.TimeWindow())
    ensures myData.Length > 0 ==> myData[..] == if |features| % 2 == 0 then old(myData[..]) else Reversed(old(myData[..]))
    ensures myData.Length > 0 ==> forall i :: 0 <= i < |features| ==>
              var o := FullScanOutcome(cfg, near, features[i].place, old(features[i].TimeWindow()), old(myData[..]), i);
              features[i].TimeWindow() == o.window && (features[i] in result <==> o.hit)
    ensures myData.Length > 0 ==>
              result == HitFeatures(features, FullScanOutcomes(cfg, near, features, old(Windows(features)), old(myData[..])), |features|)
  {
    if myData.Length == 0 {
      return [];
    }
    ghost var data := myData[..];
    ghost var states := ReversalStates(data, |features|);
    ghost var olds := Windows(features);
    ghost var outs := FullScanOutcomes(cfg, near, features, olds, data);
    var pushed := FullScanLoop(cfg, near, myData, features, states, olds, outs);
    ReversedTimesParity(data, |features|);
    result := Distinct(pushed);
    forall i | 0 <= i < |features|
      ensures features[i] in result <==> features[i] in pushed
    {
      DistinctMembers(pushed, features[i]);
    }
  }

  /** The scan of one feature over its own bucket and its neighbours' buckets, inside getIntersectingSickRecordsByGeoHash. */
  method MatchFeatureByGeoHash(cfg: Config, near: (Location, Place) -> bool, neighbours: string -> seq<string>,
                               mapped: map<string, seq<Location>>, sick: SickRecord, pushed: seq<SickRecord>)
    returns (pushed': seq<SickRecord>)
    modifies sick
    ensures sick.TimeWindow() == Scan(cfg, near, sick.place, Outcome(sick in pushed, old(sick.TimeWindow())),
                                      Candidates(mapped, [sick.geohashFilter] + neighbours(sick.geohashFilter))).window
    ensures sick in pushed' <==> Scan(cfg, near, sick.place, Outcome(sick in pushed, old(sick.TimeWindow())),
                                      Candidates(mapped, [sick.geohashFilter] + neighbours(sick.geohashFilter))).hit
    ensures forall x :: x != sick ==> (x in pushed' <==> x in pushed)
    ensures forall x :: x in pushed' ==> x in pushed || x == sick
    ensures |pushed| <= |pushed'| && pushed'[..|pushed|] == pushed
    ensures forall k :: |pushed| <= k < |pushed'| ==> pushed'[k] == sick
  {
    var neighborsArr := [sick.geohashFilter] + neighbours(sick.geohashFilter);
    ghost var start := Outcome(sick in pushed, sick.TimeWindow());
    pushed' := pushed;
    for g := 0 to |neighborsArr|
      invariant sick.TimeWindow() == Scan(cfg, near, sick.place, start, Candidates(mapped, neighborsArr[..g])).window
      invariant sick in pushed' <==> Scan(cfg, near, sick.place, start, Candidates(mapped, neighborsArr[..g])).hit
      invariant forall x :: x != sick ==> (x in pushed' <==> x in pushed)
      invariant forall x :: x in pushed' ==> x in pushed || x == sick
      invariant |pushed| <= |pushed'| && pushed'[..|pushed|] == pushed
      invariant forall k :: |pushed| <= k < |pushed'| ==> pushed'[k] == sick
    {
      var geo := neighborsArr[g];
      assert neighborsArr[..g + 1][..g] == neighborsArr[..g];
      var bucket := if geo in mapped then mapped[geo] else [];
      ScanAppend(cfg, near, sick.place, start, Candidates(mapped, neighborsArr[..g]), bucket);
      if geo in mapped {
        ghost var before := pushed';
        pushed' := MatchLocations(cfg, near, sick, mapped[geo], pushed');
        forall x | x != sick
          ensures x in pushed' <==> x in before
        {
          PushedOthers(before, pushed', sick, x);
        }
        forall x | x in pushed'
          ensures x in before || x == sick
        {
          if x != sick {
            PushedOthers(before, pushed', sick, x);
          }
        }
      } else {
        assert bucket == [];
      }
    }
    assert neighborsArr[..|neighborsArr|] == neighborsArr;
  }

  /** Iteration `i` of getIntersectingSickRecordsByGeoHash; `outs[i]` is what the bucketed scan does to feature `i`. */
  method ByGeoHashStep(cfg: Config, near: (Location, Place) -> bool, neighbours: string -> seq<string>,
                       mapped: map<string, seq<Location>>, features: seq<SickRecord>, i: nat, pushed: seq<SickRecord>,
                       ghost olds: seq<Window>, ghost outs: seq<Outcome>)
    returns (pushed': seq<SickRecord>)
    requires i < |features| && |olds| == |features| && |outs| == |features|
    requires forall j :: 0 <= j < |features| && j != i ==> features[j] != features[i]
    requires ByGeoHashProgress(features, olds, outs, pushed, i)
    requires outs == ByGeoHashOutcomes(cfg, near, neighbours, features, olds, mapped)
    modifies features[i]
    ensures ByGeoHashProgress(features, olds, outs, pushed', i + 1)
  {
    var sickRecord := features[i];
    pushed' := MatchFeatureByGeoHash(cfg, near, neighbours, mapped, sickRecord, pushed);
    forall j | 0 <= j < i + 1
      ensures features[j].TimeWindow() == outs[j].window && (features[j] in pushed' <==> outs[j].hit)
    {
      if j < i {
        assert features[j] in pushed' <==> features[j] in pushed;
      }
    }
    PushedRun(features, outs, i, pushed, pushed');
  }

  /**
   * The forEach of getIntersectingSickRecordsByGeoHash over the features, up
   * to the first feature without a filter, where geoHash.neighbours throws.
   */
  method ByGeoHashLoop(cfg: Config, near: (Location, Place) -> bool, neighbours: string -> seq<string>,
                       mapped: map<string, seq<Location>>, features: seq<SickRecord>, ghost olds: seq<Window>, ghost outs: seq<Outcome>)
    returns (pushed: seq<SickRecord>, i: nat)
    requires NoDuplicates(features) && |olds| == |features| && |outs| == |features|
    requires forall j :: 0 <= j < |features| ==> features[j].TimeWindow() == olds[j]
    requires outs == ByGeoHashOutcomes(cfg, near, neighbours, features, olds, mapped)
    modifies features
    ensures i == Unfiltered(features)
    ensures ByGeoHashProgress(features, olds, outs, pushed, i)
  {
    pushed, i := [], 0;
    while i < |features| && features[i].geohashFilter != ""
      invariant i <= Unfiltered(features)
      invariant ByGeoHashProgress(features, olds, outs, pushed, i)
    {
      OthersDiffer(features, i);
      pushed := ByGeoHashStep(cfg, near, neighbours, mapped, features, i, pushed, olds, outs);
      i := i + 1;
    }
  }

  /** The index of the first feature without a geohash filter, or the feature count when every one has one. */
  function Unfiltered(features: seq<SickRecord>): (k: nat)
    ensures k <= |features|
    ensures forall j :: 0 <= j < k ==> features[j].geohashFilter != ""
    ensures k < |features| ==> features[k].geohashFilter == ""
    decreases |features|
  {
    if features == [] || features[0].geohashFilter == "" then 0
    else 1 + Unfiltered(features[1..])
  }

  /**
   * getIntersectingSickRecordsByGeoHash: bucket the history by the first
   * feature's filter length, then scan each feature's own bucket and its
   * neighbours' buckets; return the hit features, each once, in feed
   * order. `failed` says that it threw: there is no first
   * feature to take the filter length from, or geoHash.neighbours meets a
   * feature without a filter, after the features before it were narrowed.
   */
  method GetIntersectingSickRecordsByGeoHash(cfg: Config, near: (Location, Place) -> bool, neighbours: string -> seq<string>,
                                             myData: seq<Location>, features: seq<SickRecord>)
    returns (result: seq<SickRecord>, failed: bool)
    requires NoDuplicates(features)
    modifies features
    ensures NoDuplicates(result)
    ensures forall f :: f in result ==> f in features
    ensures failed <==> |myData| > 0 && (|features| == 0 || Unfiltered(features) < |features|)
    ensures failed || |myData| == 0 ==> result == []
    ensures |myData| == 0 ==> forall f :: f in features ==> f.TimeWindow() == old(f.TimeWindow())
    ensures |myData| > 0 && |features| > 0 ==> forall i :: 0 <= i < Unfiltered(features) ==>
              var o := ByGeoHashOutcome(cfg, near, neighbours, features[i].place, features[i].geohashFilter,
                                        old(features[i].TimeWindow()), BucketMap(myData, |features[0].geohashFilter|));
              features[i].TimeWindow() == o.window && (!failed ==> (features[i] in result <==> o.hit))
    ensures forall i :: Unfiltered(features) <= i < |features| ==> features[i].TimeWindow() == old(features[i].TimeWindow())
    ensures !failed && |myData| > 0 ==>
              var outs := ByGeoHashOutcomes(cfg, near, neighbours, features, old(Windows(features)),
                                            BucketMap(myData, |features[0].geohashFilter|));
              result == HitFeatures(features, outs, |features|)
  {
    if |myData| == 0 {
      return [], false;
    }
    if |features| == 0 {
      // features[0] is undefined when the history is bucketed
      return [], true;
    }
    var mappedLocations := BuildBuckets(myData, |features[0].geohashFilter|);
    ghost var olds := Windows(features);
    ghost var outs := ByGeoHashOutcomes(cfg, near, neighbours, features, olds, mappedLocations);
    var pushed, i := ByGeoHashLoop(cfg, near, neighbours, mappedLocations, features, olds, outs);
    if i < |features| {
      // geoHash.neighbours throws on an empty geohash
      return [], true;
    }
    result, failed := Distinct(pushed), false;
    forall j | 0 <= j < |features|
      ensures features[j] in result <==> outs[j].hit
    {
      DistinctMembers(pushed, features[j]);
    }
  }

  /** The choice at the top of the geo check: the geohash matcher when the first feature carries a filter. */
  predicate ByGeoHash(feed: seq<SickRecord>) {
    |feed| > 0 && feed[0].geohashFilter != ""
  }

  /** How many features the chosen matcher gets through: all of them, unless neighbours throws first. */
  function Reached(feed: seq<SickRecord>): nat {
    if ByGeoHash(feed) then Unfiltered(feed) else |feed|
  }

  /** What the chosen matcher does to feature `i`, from window `w` and history `data`. */
  function FeedOutcome(cfg: Config, near: (Location, Place) -> bool, neighbours: string -> seq<string>,
                       feed: seq<SickRecord>, w: Window, data: seq<Location>, i: nat): Outcome
    requires i < |feed|
  {
    if ByGeoHash(feed) then
      ByGeoHashOutcome(cfg, near, neighbours, feed[i].place, feed[i].geohashFilter, w, BucketMap(data, |feed[0].geohashFilter|))
    else
      FullScanOutcome(cfg, near, feed[i].place, w, data, i)
  }

  /** The first `n` features that the chosen matcher hits, in feed order. */
  function FeedHits(cfg: Config, near: (Location, Place) -> bool, neighbours: string -> seq<string>,
                    feed: seq<SickRecord>, ws: seq<Window>, data: seq<Location>, n: nat): seq<SickRecord>
    requires n <= |feed| && |ws| == |feed|
  {
    if n == 0 then []
    else
      FeedHits(cfg, near, neighbours, feed, ws, data, n - 1) +
        (if FeedOutcome(cfg, near, neighbours, feed, ws[n - 1], data, n - 1).hit then [feed[n - 1]] else [])
  }

  /** A matcher whose outcomes agree with the chosen matcher's hits the same features. */
  lemma {:induction false} HitFeaturesAgree(cfg: Config, near: (Location, Place) -> bool, neighbours: string -> seq<string>,
                                            feed: seq<SickRecord>, ws: seq<Window>, data: seq<Location>,
                                            outs: seq<Outcome>, n: nat)
    requires n <= |feed| && |ws| == |feed| && |outs| == |feed|
    requires forall j :: 0 <= j < n ==> outs[j].hit == FeedOutcome(cfg, near, neighbours, feed, ws[j], data, j).hit
    ensures HitFeatures(feed, outs, n) == FeedHits(cfg, near, neighbours, feed, ws, data, n)
  {
    if n > 0 {
      HitFeaturesAgree(cfg, near, neighbours, feed, ws, data, outs, n - 1);
    }
  }

  /**
   * The matching stage of the geo check, from the features' windows `ws`
   * and the history `data` to the windows `after`: the matches are
   * distinct features of the feed; the stage fails exactly when the
   * geohash matcher meets a feature without a filter; every feature the
   * matcher reached has the window its scan leaves, the others keep theirs;
   * when the stage succeeds a feature is matched exactly when its scan
   * hits, and the matches come in feed order; an empty history matches
   * nothing.
   */
  predicate FeedMatched(cfg: Config, near: (Location, Place) -> bool, neighbours: string -> seq<string>,
                        feed: seq<SickRecord>, ws: seq<Window>, data: seq<Location>, after: seq<Window>,
                        matched: seq<SickRecord>, failed: bool)
    requires |ws| == |feed| && |after| == |feed|
  {
    && NoDuplicates(matched)
    && (forall f :: f in matched ==> f in feed)
    && (failed <==> ByGeoHash(feed) && |data| > 0 && Unfiltered(feed) < |feed|)
    && (failed || |data| == 0 ==> matched == [])
    && (forall i :: 0 <= i < |feed| ==>
          after[i] == if |data| > 0 && i < Reached(feed) then FeedOutcome(cfg, near, neighbours, feed, ws[i], data, i).window else ws[i])
    && (!failed && |data| > 0 ==> forall i :: 0 <= i < |feed| ==>
          (feed[i] in matched <==> FeedOutcome(cfg, near, neighbours, feed, ws[i], data, i).hit))
    && (!failed && |data| > 0 ==> matched == FeedHits(cfg, near, neighbours, feed, ws, data, |feed|))
  }

  /** The geohash branch of the choice, with its outcome stated as a matching stage. */
  method MatchFeedByGeoHash(cfg: Config, near: (Location, Place) -> bool, neighbours: string -> seq<string>,
                            myData: array<Location>, feed: seq<SickRecord>)
    returns (matched: seq<SickRecord>, failed: bool)
    requires NoDuplicates(feed) && ByGeoHash(feed)
    modifies feed
    ensures FeedMatched(cfg, near, neighbours, feed, old(Windows(feed)), myData[..], Windows(feed), matched, failed)
  {
    ghost var ws, data := Windows(feed), myData[..];
    matched, failed := GetIntersectingSickRecordsByGeoHash(cfg, near, neighbours, myData[..], feed);
    ghost var after := Windows(feed);
    forall i | 0 <= i < |feed|
      ensures after[i] == if |data| > 0 && i < Reached(feed) then FeedOutcome(cfg, near, neighbours, feed, ws[i], data, i).window else ws[i]
    {
      if |data| > 0 && i < Unfiltered(feed) {
        assert after[i] == ByGeoHashOutcome(cfg, near, neighbours, feed[i].place, feed[i].geohashFilter, ws[i], BucketMap(data, |feed[0].geohashFilter|)).window;
      }
    }
    if !failed && |data| > 0 {
      HitFeaturesAgree(cfg, near, neighbours, feed, ws, data,
                       ByGeoHashOutcomes(cfg, near, neighbours, feed, ws, BucketMap(data, |feed[0].geohashFilter|)), |feed|);
    }
  }

  /** The full-scan branch of the choice, with its outcome stated as a matching stage. */
  method MatchFeedFullScan(cfg: Config, near: (Location, Place) -> bool, neighbours: string -> seq<string>,
                           myData: array<Location>, feed: seq<SickRecord>)
    returns (matched: seq<SickRecord>)
    requires NoDuplicates(feed) && !ByGeoHash(feed)
    modifies myData, feed
    ensures FeedMatched(cfg, near, neighbours, feed, old(Windows(feed)), old(myData[..]), Windows(feed), matched, false)
    ensures myData[..] == if myData.Length == 0 || |feed| % 2 == 0 then old(myData[..]) else Reversed(old(myData[..]))
  {
    ghost var ws, data := Windows(feed), myData[..];
    matched := GetIntersectingSickRecords(cfg, near, myData, feed);
    if |data| > 0 {
      HitFeaturesAgree(cfg, near, neighbours, feed, ws, data, FullScanOutcomes(cfg, near, feed, ws, data), |feed|);
    }
  }

  /**
   * The choice in checkGeoSickPeople, and the matcher it runs. The full
   * scan leaves the history reversed once per feature.
   */
  method MatchFeed(cfg: Config, near: (Location, Place) -> bool, neighbours: string -> seq<string>,
                   myData: array<Location>, feed: seq<SickRecord>)
    returns (matched: seq<SickRecord>, failed: bool)
    requires NoDuplicates(feed)
    modifies myData, feed
    ensures FeedMatched(cfg, near, neighbours, feed, old(Windows(feed)), old(myData[..]), Windows(feed), matched, failed)
    ensures myData[..] == if ByGeoHash(feed) || myData.Length == 0 || |feed| % 2 == 0 then old(myData[..]) else Reversed(old(myData[..]))
  {
    if ByGeoHash(feed) {
      matched, failed := MatchFeedByGeoHash(cfg, near, neighbours, myData, feed);
    } else {
      matched := MatchFeedFullScan(cfg, near, neighbours, myData, feed);
      failed := false;
    }
  }
}
