/** Query-time statistics and downsampling (pkg/tsdb/query.go:300-445): a single scan over the sorted
    points produces the group-by of the points in whatever order they were read. Values are reals. */
module Downsample {
  import opened GoIntegers
  import opened Lists

  datatype RawDataPoint = RawDataPoint(timestamp: int, value: real, hasDelay: bool, status: real, hasStatus: bool)

  datatype DataPoint = DataPoint(timestamp: int, delay: real, status: nat)

  datatype MetricDataPoint = MetricDataPoint(timestamp: int, value: real)

  function Key(p: RawDataPoint, interval: int): int
    requires interval > 0
  {
    TruncDiv(p.timestamp, interval) * interval
  }

  predicate Sorted(points: seq<RawDataPoint>) {
    forall i, j :: 0 <= i < j < |points| ==> points[i].timestamp <= points[j].timestamp
  }

  // ---- additive statistics

  datatype Agg = Agg(delaySum: real, delays: nat, ups: nat, statuses: nat, total: real, count: nat) {
    function Plus(b: Agg): Agg {
      Agg(delaySum + b.delaySum, delays + b.delays, ups + b.ups, statuses + b.statuses,
          total + b.total, count + b.count)
    }
  }

  const ZERO := Agg(0.0, 0, 0, 0, 0.0, 0)

  function One(p: RawDataPoint): Agg {
    Agg(if p.hasDelay then p.value else 0.0,
        if p.hasDelay then 1 else 0,
        if p.hasStatus && p.status >= 0.5 then 1 else 0,
        if p.hasStatus then 1 else 0,
        p.value, 1)
  }

  function OneIn(p: RawDataPoint, interval: int, key: int): Agg
    requires interval > 0
  {
    if Key(p, interval) == key then One(p) else ZERO
  }

  /** Statistics of the points of one bucket. */
  function InBucket(points: seq<RawDataPoint>, interval: int, key: int): Agg
    requires interval > 0
  {
    if points == [] then ZERO
    else InBucket(points[..|points| - 1], interval, key).Plus(OneIn(points[|points| - 1], interval, key))
  }

  /** The points of a bucket, by what they carry. */
  ghost function PlacesIn(points: seq<RawDataPoint>, interval: int, key: int): set<nat>
    requires interval > 0
  {
    set k: nat | k < |points| && Key(points[k], interval) == key
  }

  ghost function WithDelay(points: seq<RawDataPoint>, places: set<nat>): set<nat>
    requires forall k :: k in places ==> k < |points|
  {
    set k | k in places && points[k].hasDelay
  }

  ghost function WithStatus(points: seq<RawDataPoint>, places: set<nat>): set<nat>
    requires forall k :: k in places ==> k < |points|
  {
    set k | k in places && points[k].hasStatus
  }

  ghost function Up(points: seq<RawDataPoint>, places: set<nat>): set<nat>
    requires forall k :: k in places ==> k < |points|
  {
    set k | k in places && points[k].hasStatus && points[k].status >= 0.5
  }

  lemma PlacesMore(points: seq<RawDataPoint>, interval: int, key: int)
    requires interval > 0 && points != []
    ensures var n, now := |points| - 1, PlacesIn(points, interval, key);
      var before, here := PlacesIn(points[..n], interval, key), Key(points[n], interval) == key;
      && now == before + (if here then {n} else {}) && n !in before
      && WithDelay(points, now) == WithDelay(points[..n], before) + (if here && points[n].hasDelay then {n} else {})
      && WithStatus(points, now) == WithStatus(points[..n], before) + (if here && points[n].hasStatus then {n} else {})
      && Up(points, now) ==
         Up(points[..n], before) + (if here && points[n].hasStatus && points[n].status >= 0.5 then {n} else {})
  {
    hide Key;
  }

  /** The statistics of a bucket count its points. */
  lemma {:induction false} BucketCounted(points: seq<RawDataPoint>, interval: int, key: int)
    requires interval > 0
    ensures var a, places := InBucket(points, interval, key), PlacesIn(points, interval, key);
      && a.count == |places| && a.delays == |WithDelay(points, places)|
      && a.statuses == |WithStatus(points, places)| && a.ups == |Up(points, places)|
  {
    var places := PlacesIn(points, interval, key);
    if points == [] {
      assert places == {};
      assert WithDelay(points, places) == {} && WithStatus(points, places) == {} && Up(points, places) == {};
    } else {
      var n := |points| - 1;
      BucketCounted(points[..n], interval, key);
      PlacesMore(points, interval, key);
      hide PlacesIn, WithDelay, WithStatus, Up, Key;
    }
  }

  /** Sums run over the points one by one: delays over those that have one, values over all. */
  lemma SumsMore(points: seq<RawDataPoint>, p: RawDataPoint, interval: int, key: int)
    requires interval > 0
    ensures var a, b := InBucket(points, interval, key), InBucket(points + [p], interval, key);
      var here := Key(p, interval) == key;
      && b.delaySum == a.delaySum + (if here && p.hasDelay then p.value else 0.0)
      && b.total == a.total + (if here then p.value else 0.0)
    ensures InBucket([], interval, key).delaySum == InBucket([], interval, key).total == 0.0
    ensures Overall(points + [p]).delaySum == Overall(points).delaySum + if p.hasDelay then p.value else 0.0
    ensures Overall([]).delaySum == 0.0
  {
    hide Key;
    assert (points + [p])[..|points|] == points;
  }

  /** A bucket's entry: a strict majority of its status points decides. */
  lemma SummaryMeans(key: int, a: Agg)
    ensures Summary(key, a).timestamp == key
    ensures Summary(key, a).status == (if a.ups * 2 > a.statuses then 1 else 0)
    ensures Summary(key, a).delay == if a.delays > 0 then a.delaySum / a.delays as real else 0.0
  {
  }

  function Overall(points: seq<RawDataPoint>): Agg {
    if points == [] then ZERO else Overall(points[..|points| - 1]).Plus(One(points[|points| - 1]))
  }

  /** What the group-by shows for a bucket: the mean of its delays (0 if it has none), and 1 if a strict
      majority of its status points is up. */
  function Summary(key: int, a: Agg): DataPoint {
    DataPoint(key, if a.delays > 0 then a.delaySum / a.delays as real else 0.0, if 2 * a.ups > a.statuses then 1 else 0)
  }

  ghost predicate HasKey(points: seq<RawDataPoint>, interval: int, key: int)
    requires interval > 0
  {
    exists i :: 0 <= i < |points| && Key(points[i], interval) == key
  }

  /** One key per non-empty bucket, in ascending order. */
  ghost predicate KeysOf(keys: seq<int>, points: seq<RawDataPoint>, interval: int)
    requires interval > 0
  {
    && Ascending(keys)
    && (forall i :: 0 <= i < |points| ==> Key(points[i], interval) in keys)
    && (forall k :: k in keys ==> HasKey(points, interval, k))
  }

  function Timestamps(r: seq<DataPoint>): seq<int> {
    seq(|r|, i requires 0 <= i < |r| => r[i].timestamp)
  }

  function MetricTimestamps(r: seq<MetricDataPoint>): seq<int> {
    seq(|r|, i requires 0 <= i < |r| => r[i].timestamp)
  }

  ghost predicate IsGroupBy(r: seq<DataPoint>, points: seq<RawDataPoint>, interval: int)
    requires interval > 0
  {
    && KeysOf(Timestamps(r), points, interval)
    && forall j :: 0 <= j < |r| ==> r[j] == Summary(r[j].timestamp, InBucket(points, interval, r[j].timestamp))
  }

  /** What an entry of the group-by says of the points of its bucket. */
  lemma EntryMeans(r: seq<DataPoint>, points: seq<RawDataPoint>, interval: int, j: nat)
    requires interval > 0 && IsGroupBy(r, points, interval) && j < |r|
    ensures var places := PlacesIn(points, interval, r[j].timestamp);
      && places != {}
      && r[j].status == (if 2 * |Up(points, places)| > |WithStatus(points, places)| then 1 else 0)
      && var a := InBucket(points, interval, r[j].timestamp);
         && a.delays == |WithDelay(points, places)|
         && r[j].delay == if a.delays > 0 then a.delaySum / a.delays as real else 0.0
  {
    var key := r[j].timestamp;
    KeyHasPlaces(Timestamps(r), points, interval, j);
    hide InBucket, Summary, Key, KeysOf, PlacesIn, Up, WithStatus, WithDelay;
    var a := InBucket(points, interval, key);
    BucketCounted(points, interval, key);
    SummaryMeans(key, a);
    assert r[j] == Summary(key, a);
  }

  lemma KeyHasPlaces(keys: seq<int>, points: seq<RawDataPoint>, interval: int, j: nat)
    requires interval > 0 && KeysOf(keys, points, interval) && j < |keys|
    ensures PlacesIn(points, interval, keys[j]) != {}
  {
    hide Key;
    assert HasKey(points, interval, keys[j]);
    var i :| 0 <= i < |points| && Key(points[i], interval) == keys[j];
    assert i in PlacesIn(points, interval, keys[j]);
  }

  // ---- buckets of sorted points

  lemma KeyMonotone(p: RawDataPoint, q: RawDataPoint, interval: int)
    requires interval > 0 && p.timestamp <= q.timestamp
    ensures Key(p, interval) <= Key(q, interval)
  {
    TruncDivMonotone(p.timestamp, q.timestamp, interval);
    MulMonotone(TruncDiv(p.timestamp, interval), TruncDiv(q.timestamp, interval), interval);
  }

  lemma DivMonotone(a: nat, b: nat, n: int)
    requires a <= b && n > 0
    ensures 0 <= a / n <= b / n
  {
    assert a == a / n * n + a % n;
    assert b == b / n * n + b % n;
    assert (b / n + 1) * n == b / n * n + n;
    MulLess(a / n, b / n + 1, n);
    MulLess(-1, a / n, n);
  }

  lemma TruncDivMonotone(a: int, b: int, n: int)
    requires a <= b && n > 0
    ensures TruncDiv(a, n) <= TruncDiv(b, n)
  {
    if a >= 0 {
      DivMonotone(a, b, n);
    } else if b < 0 {
      DivMonotone(-b, -a, n);
    } else {
      DivMonotone(0, b, n);
      DivMonotone(0, -a, n);
    }
  }

  /** For a non-negative timestamp the key is the start of the interval that contains it. */
  lemma KeyOfNonNegative(p: RawDataPoint, interval: int)
    requires interval > 0 && p.timestamp >= 0
    ensures Key(p, interval) == p.timestamp - p.timestamp % interval
    ensures Key(p, interval) <= p.timestamp < Key(p, interval) + interval
  {
    assert p.timestamp == p.timestamp / interval * interval + p.timestamp % interval;
  }

  lemma BucketAppend(done: seq<RawDataPoint>, p: RawDataPoint, interval: int, key: int)
    requires interval > 0
    ensures InBucket(done + [p], interval, key) ==
              if Key(p, interval) == key then InBucket(done, interval, key).Plus(One(p))
              else InBucket(done, interval, key)
  {
    PlusZero(InBucket(done, interval, key));
    hide Key, Agg.Plus, One;
    assert (done + [p])[..|done|] == done;
  }

  lemma PlusZero(a: Agg)
    ensures a.Plus(ZERO) == a
  {
  }

  lemma {:induction false} BucketEmpty(points: seq<RawDataPoint>, interval: int, key: int)
    requires interval > 0 && !HasKey(points, interval, key)
    ensures InBucket(points, interval, key) == ZERO
  {
    PlusZero(ZERO);
    hide Key, Agg.Plus, One;
    if points != [] {
      var before, p := points[..|points| - 1], points[|points| - 1];
      assert Key(p, interval) != key;
      BucketEmpty(before, interval, key);
      assert InBucket(points, interval, key) == InBucket(before, interval, key).Plus(OneIn(p, interval, key));
    }
  }

  /** The scan's state after `done` points: the finished buckets, and the open one. */
  ghost predicate ScanState(r: seq<DataPoint>, bucketStart: int, done: seq<RawDataPoint>, interval: int)
    requires interval > 0
  {
    && (forall j :: 0 <= j < |r| ==> r[j] == Summary(r[j].timestamp, InBucket(done, interval, r[j].timestamp)))
    && KeysOf(Timestamps(r) + [bucketStart], done, interval)
  }

  lemma ScanSameBucket(r: seq<DataPoint>, bucketStart: int, done: seq<RawDataPoint>, p: RawDataPoint, interval: int)
    requires interval > 0 && ScanState(r, bucketStart, done, interval) && Key(p, interval) == bucketStart
    ensures ScanState(r, bucketStart, done + [p], interval)
  {
    hide Summary, Key, InBucket;
    var keys := Timestamps(r) + [bucketStart];
    forall j | 0 <= j < |r|
      ensures InBucket(done + [p], interval, r[j].timestamp) == InBucket(done, interval, r[j].timestamp)
    {
      assert keys[j] < keys[|r|];
      BucketAppend(done, p, interval, r[j].timestamp);
    }
    assert keys[|r|] == bucketStart;
    SameKeys(keys, done, p, interval);
  }

  lemma HasKeyMore(done: seq<RawDataPoint>, p: RawDataPoint, interval: int, key: int)
    requires interval > 0
    ensures HasKey(done + [p], interval, key) <==> HasKey(done, interval, key) || Key(p, interval) == key
  {
    hide Key;
    if HasKey(done, interval, key) {
      var i :| 0 <= i < |done| && Key(done[i], interval) == key;
      assert (done + [p])[i] == done[i];
    }
    if Key(p, interval) == key {
      assert (done + [p])[|done|] == p;
    }
  }

  lemma SameKeys(keys: seq<int>, done: seq<RawDataPoint>, p: RawDataPoint, interval: int)
    requires interval > 0 && KeysOf(keys, done, interval) && Key(p, interval) in keys
    ensures KeysOf(keys, done + [p], interval)
  {
    hide Key, HasKey;
    forall k | k in keys
      ensures HasKey(done + [p], interval, k)
    {
      HasKeyMore(done, p, interval, k);
    }
  }

  lemma SummaryKey(key: int, a: Agg)
    ensures Summary(key, a).timestamp == key
  {
  }

  lemma NewKey(keys: seq<int>, done: seq<RawDataPoint>, p: RawDataPoint, interval: int)
    requires interval > 0 && KeysOf(keys, done, interval)
    requires keys != [] && keys[|keys| - 1] < Key(p, interval)
    ensures KeysOf(keys + [Key(p, interval)], done + [p], interval)
    ensures forall j :: 0 <= j < |keys| ==> keys[j] < Key(p, interval)
    ensures InBucket(done, interval, Key(p, interval)) == ZERO
  {
    hide Key, InBucket;
    var key := Key(p, interval);
    forall j | 0 <= j < |keys|
      ensures keys[j] < key
    {
      assert keys[j] <= keys[|keys| - 1];
    }
    forall i | 0 <= i < |done|
      ensures Key(done[i], interval) != key
    {
      assert Key(done[i], interval) in keys;
    }
    BucketEmpty(done, interval, key);
    hide HasKey;
    forall k | k in keys + [key]
      ensures HasKey(done + [p], interval, k)
    {
      HasKeyMore(done, p, interval, k);
    }
    assert (keys + [key])[|keys|] == key;
  }

  lemma ScanNextBucket(r: seq<DataPoint>, bucketStart: int, done: seq<RawDataPoint>, p: RawDataPoint, interval: int)
    requires interval > 0 && ScanState(r, bucketStart, done, interval) && Key(p, interval) > bucketStart
    ensures var closed := Summary(bucketStart, InBucket(done, interval, bucketStart));
      ScanState(r + [closed], Key(p, interval), done + [p], interval)
    ensures InBucket(done, interval, Key(p, interval)) == ZERO
  {
    hide Key, Summary, InBucket;
    var n := r + [Summary(bucketStart, InBucket(done, interval, bucketStart))];
    var keys := Timestamps(r) + [bucketStart];
    SummaryKey(bucketStart, InBucket(done, interval, bucketStart));
    assert Timestamps(n) == keys;
    NewKey(keys, done, p, interval);
    forall j | 0 <= j < |n|
      ensures InBucket(done + [p], interval, n[j].timestamp) == InBucket(done, interval, n[j].timestamp)
    {
      assert keys[j] == n[j].timestamp;
      BucketAppend(done, p, interval, n[j].timestamp);
    }
  }

  /** The one-pass scan. */
  method DownsampleSorted(points: seq<RawDataPoint>, interval: int) returns (result: seq<DataPoint>)
    requires interval > 0 && Sorted(points)
    ensures IsGroupBy(result, points, interval)
  {
    hide Summary, InBucket, KeysOf;
    result := [];
    if |points| == 0 {
      NothingToGroup(interval);
      return;
    }
    var bucketStart := TruncDiv(points[0].timestamp, interval) * interval;
    var totalDelay, delayCount, upCount, statusCount := 0.0, 0, 0, 0;
    ghost var a := ZERO;
    ScanStart(points[0], interval);
    for i := 0 to |points|
      invariant upCount <= statusCount
      invariant totalDelay == a.delaySum && delayCount == a.delays && upCount == a.ups && statusCount == a.statuses
      invariant i == 0 ==> result == [] && bucketStart == Key(points[0], interval) && a == ZERO
      invariant i > 0 ==> ScanState(result, bucketStart, points[..i], interval)
      invariant i > 0 ==> a == InBucket(points[..i], interval, bucketStart)
      invariant i > 0 ==> Key(points[i - 1], interval) == bucketStart
    {
      var p := points[i];
      var key := TruncDiv(p.timestamp, interval) * interval;
      assert points[..i + 1] == points[..i] + [p];
      BucketAppend(points[..i], p, interval, key);
      if key != bucketStart {
        KeyMonotone(points[i - 1], p, interval);
        ScanNextBucket(result, bucketStart, points[..i], p, interval);
        result := result + [FlushBucket(bucketStart, totalDelay, delayCount, upCount, statusCount, a)];
        bucketStart := key;
        totalDelay, delayCount, upCount, statusCount := 0.0, 0, 0, 0;
        a := ZERO;
      } else if i > 0 {
        ScanSameBucket(result, bucketStart, points[..i], p, interval);
      } else {
        assert points[..1] == [points[0]];
      }
      if p.hasDelay {
        totalDelay := totalDelay + p.value;
        delayCount := delayCount + 1;
      }
      if p.hasStatus {
        statusCount := statusCount + 1;
        if p.status >= 0.5 {
          upCount := upCount + 1;
        }
      }
      a := a.Plus(One(p));
    }
    assert points[..|points|] == points;
    ScanEnd(result, bucketStart, points, interval);
    result := result + [FlushBucket(bucketStart, totalDelay, delayCount, upCount, statusCount, a)];
  }

  lemma NothingToGroup(interval: int)
    requires interval > 0
    ensures IsGroupBy([], [], interval)
  {
  }

  lemma ScanStart(p: RawDataPoint, interval: int)
    requires interval > 0
    ensures ScanState([], Key(p, interval), [p], interval)
    ensures InBucket([], interval, Key(p, interval)) == ZERO
  {
    assert Key([p][0], interval) == Key(p, interval);
    assert Timestamps([]) + [Key(p, interval)] == [Key(p, interval)];
  }

  lemma ScanEnd(r: seq<DataPoint>, bucketStart: int, points: seq<RawDataPoint>, interval: int)
    requires interval > 0 && ScanState(r, bucketStart, points, interval)
    ensures IsGroupBy(r + [Summary(bucketStart, InBucket(points, interval, bucketStart))], points, interval)
  {
    hide Summary, InBucket, KeysOf;
    var last := Summary(bucketStart, InBucket(points, interval, bucketStart));
    SummaryKey(bucketStart, InBucket(points, interval, bucketStart));
    assert Timestamps(r + [last]) == Timestamps(r) + [bucketStart];
  }

  function FlushBucket(bucketStart: int, totalDelay: real, delayCount: nat, upCount: nat, statusCount: nat,
                       ghost a: Agg): (d: DataPoint)
    requires totalDelay == a.delaySum && delayCount == a.delays && upCount == a.ups && statusCount == a.statuses
    requires upCount <= statusCount
    ensures d == Summary(bucketStart, a)
  {
    DataPoint(bucketStart,
              if delayCount > 0 then totalDelay / delayCount as real else 0.0,
              if statusCount > 0 && upCount > statusCount / 2 then 1 else 0)
  }

  // ---- the order in which points are read does not matter

  lemma {:induction false} BucketRemove(points: seq<RawDataPoint>, i: nat, interval: int, key: int)
    requires interval > 0 && i < |points|
    ensures InBucket(points, interval, key) ==
              InBucket(points[..i] + points[i + 1..], interval, key).Plus(OneIn(points[i], interval, key))
    decreases |points|
  {
    hide OneIn;
    var n := |points| - 1;
    if i == n {
      assert points[..i] + points[i + 1..] == points[..n];
    } else {
      BucketRemove(points[..n], i, interval, key);
      var less := points[..i] + points[i + 1..];
      assert points[..n][..i] + points[..n][i + 1..] == less[..|less| - 1];
    }
  }

  lemma {:induction false} OverallRemove(points: seq<RawDataPoint>, i: nat)
    requires i < |points|
    ensures Overall(points) == Overall(points[..i] + points[i + 1..]).Plus(One(points[i]))
    decreases |points|
  {
    hide One;
    var n := |points| - 1;
    if i == n {
      assert points[..i] + points[i + 1..] == points[..n];
    } else {
      OverallRemove(points[..n], i);
      var less := points[..i] + points[i + 1..];
      assert points[..n][..i] + points[..n][i + 1..] == less[..|less| - 1];
    }
  }

  lemma FindInPermutation(a: seq<RawDataPoint>, b: seq<RawDataPoint>) returns (i: nat)
    requires a != [] && multiset(a) == multiset(b)
    ensures i < |b| && b[i] == a[|a| - 1]
    ensures multiset(a[..|a| - 1]) == multiset(b[..i] + b[i + 1..])
  {
    var p := a[|a| - 1];
    assert p in multiset(a);
    i :| 0 <= i < |b| && b[i] == p;
    assert a == a[..|a| - 1] + [p];
    assert b == b[..i] + [p] + b[i + 1..];
    assert multiset(a[..|a| - 1]) == multiset(a) - multiset{p};
    assert multiset(b[..i] + b[i + 1..]) == multiset(b) - multiset{p};
  }

  lemma {:induction false} StatsPermute(a: seq<RawDataPoint>, b: seq<RawDataPoint>, interval: int, key: int)
    requires interval > 0 && multiset(a) == multiset(b)
    ensures InBucket(a, interval, key) == InBucket(b, interval, key)
    ensures Overall(a) == Overall(b)
    decreases |a|
  {
    hide One, OneIn, Agg.Plus;
    if a == [] {
      assert |multiset(b)| == 0;
    } else {
      var i := FindInPermutation(a, b);
      BucketRemove(b, i, interval, key);
      OverallRemove(b, i);
      StatsPermute(a[..|a| - 1], b[..i] + b[i + 1..], interval, key);
    }
  }

  lemma KeysPermute(keys: seq<int>, a: seq<RawDataPoint>, b: seq<RawDataPoint>, interval: int)
    requires interval > 0 && multiset(a) == multiset(b) && KeysOf(keys, a, interval)
    ensures KeysOf(keys, b, interval)
  {
    hide Key;
    forall i | 0 <= i < |b|
      ensures Key(b[i], interval) in keys
    {
      assert b[i] in multiset(b);
      var j :| 0 <= j < |a| && a[j] == b[i];
    }
    forall k | k in keys
      ensures HasKey(b, interval, k)
    {
      assert HasKey(a, interval, k);
      var j :| 0 <= j < |a| && Key(a[j], interval) == k;
      assert a[j] in multiset(a);
      var i :| 0 <= i < |b| && b[i] == a[j];
    }
  }

  lemma GroupByPermute(r: seq<DataPoint>, a: seq<RawDataPoint>, b: seq<RawDataPoint>, interval: int)
    requires interval > 0 && multiset(a) == multiset(b) && IsGroupBy(r, a, interval)
    ensures IsGroupBy(r, b, interval)
  {
    hide Summary, InBucket, KeysOf;
    KeysPermute(Timestamps(r), a, b, interval);
    forall j | 0 <= j < |r|
      ensures r[j] == Summary(r[j].timestamp, InBucket(b, interval, r[j].timestamp))
    {
      StatsPermute(a, b, interval, r[j].timestamp);
    }
  }

  /** The group-by of a set of points is unique. */
  lemma GroupByUnique(r: seq<DataPoint>, s: seq<DataPoint>, points: seq<RawDataPoint>, interval: int)
    requires interval > 0 && IsGroupBy(r, points, interval) && IsGroupBy(s, points, interval)
    ensures r == s
  {
    hide Summary, InBucket, Key;
    var a, b := Timestamps(r), Timestamps(s);
    forall k
      ensures k in a <==> k in b
    {
      if HasKey(points, interval, k) {
        var i :| 0 <= i < |points| && Key(points[i], interval) == k;
      }
    }
    AscendingUnique(a, b);
    forall j | 0 <= j < |r|
      ensures r[j] == s[j]
    {
      assert a[j] == b[j];
    }
  }

  method InsertByTimestamp(sorted: seq<RawDataPoint>, p: RawDataPoint) returns (r: seq<RawDataPoint>)
    requires Sorted(sorted)
    ensures Sorted(r) && multiset(r) == multiset(sorted) + multiset{p}
  {
    var j := |sorted|;
    while j > 0 && sorted[j - 1].timestamp > p.timestamp
      invariant 0 <= j <= |sorted|
      invariant forall k :: j <= k < |sorted| ==> sorted[k].timestamp > p.timestamp
    {
      j := j - 1;
    }
    InsertedIsSorted(sorted, p, j);
    InsertedMembers(sorted, p, j);
    hide Sorted;
    r := sorted[..j] + [p] + sorted[j..];
  }

  lemma InsertedMembers(sorted: seq<RawDataPoint>, p: RawDataPoint, j: nat)
    requires j <= |sorted|
    ensures multiset(sorted[..j] + [p] + sorted[j..]) == multiset(sorted) + multiset{p}
  {
    assert sorted == sorted[..j] + sorted[j..];
  }

  lemma InsertedIsSorted(sorted: seq<RawDataPoint>, p: RawDataPoint, j: nat)
    requires Sorted(sorted) && j <= |sorted|
    requires forall k :: j <= k < |sorted| ==> sorted[k].timestamp > p.timestamp
    requires j > 0 ==> sorted[j - 1].timestamp <= p.timestamp
    ensures Sorted(sorted[..j] + [p] + sorted[j..])
  {
    var r := sorted[..j] + [p] + sorted[j..];
    assert forall k :: 0 <= k < j ==> r[k] == sorted[k] && r[k].timestamp <= p.timestamp;
    assert forall k :: j < k < |r| ==> r[k] == sorted[k - 1] && p.timestamp < r[k].timestamp;
  }

  /** sort.Slice by timestamp; its order among equal timestamps is left open by the contract. */
  method SortByTimestamp(points: seq<RawDataPoint>) returns (sorted: seq<RawDataPoint>)
    ensures Sorted(sorted) && multiset(sorted) == multiset(points)
  {
    sorted := [];
    for i := 0 to |points|
      invariant Sorted(sorted) && multiset(sorted) == multiset(points[..i])
    {
      assert points[..i + 1] == points[..i] + [points[i]];
      sorted := InsertByTimestamp(sorted, points[i]);
    }
    assert points[..|points|] == points;
  }

  datatype ServiceHistorySummary = ServiceHistorySummary(
    totalUp: nat, totalDown: nat, avgDelay: real, upPercent: real, dataPoints: seq<DataPoint>)

  /** calculateStats: totals over all points, and their group-by, whatever the order they come in. */
  method CalculateStats(points: seq<RawDataPoint>, interval: int) returns (summary: ServiceHistorySummary)
    requires interval > 0
    ensures var a := Overall(points);
      && summary.totalUp == a.ups && summary.totalDown == a.statuses - a.ups
      && summary.avgDelay == (if a.delays > 0 then a.delaySum / a.delays as real else 0.0)
      && summary.upPercent == (if a.statuses > 0 then a.ups as real / a.statuses as real * 100.0 else 0.0)
    ensures IsGroupBy(summary.dataPoints, points, interval)
  {
    if |points| == 0 {
      NothingToGroup(interval);
      return ServiceHistorySummary(0, 0, 0.0, 0.0, []);
    }
    var sorted := SortByTimestamp(points);
    var totalDelay, delayCount, totalUp, totalDown := 0.0, 0, 0, 0;
    for i := 0 to |sorted|
      invariant var a := Overall(sorted[..i]);
        totalDelay == a.delaySum && delayCount == a.delays && totalUp == a.ups && totalUp + totalDown == a.statuses
    {
      assert sorted[..i + 1][..i] == sorted[..i];
      var p := sorted[i];
      if p.hasDelay {
        totalDelay := totalDelay + p.value;
        delayCount := delayCount + 1;
      }
      if p.hasStatus {
        if p.status >= 0.5 {
          totalUp := totalUp + 1;
        } else {
          totalDown := totalDown + 1;
        }
      }
    }
    assert sorted[..|sorted|] == sorted;
    StatsPermute(sorted, points, interval, 0);
    hide Overall, IsGroupBy;
    var avgDelay := if delayCount > 0 then totalDelay / delayCount as real else 0.0;
    var upPercent := if totalUp + totalDown > 0 then totalUp as real / (totalUp + totalDown) as real * 100.0 else 0.0;
    var dataPoints := DownsampleSorted(sorted, interval);
    GroupByPermute(dataPoints, sorted, points, interval);
    summary := ServiceHistorySummary(totalUp, totalDown, avgDelay, upPercent, dataPoints);
  }

  // ---- nothing is lost between the buckets

  function OverKeys(keys: seq<int>, points: seq<RawDataPoint>, interval: int): Agg
    requires interval > 0
  {
    if keys == [] then ZERO
    else OverKeys(keys[..|keys| - 1], points, interval).Plus(InBucket(points, interval, keys[|keys| - 1]))
  }

  lemma {:induction false} OverKeysOfNothing(keys: seq<int>, interval: int)
    requires interval > 0
    ensures OverKeys(keys, [], interval) == ZERO
  {
    PlusZero(ZERO);
    hide Agg.Plus;
    if keys != [] {
      OverKeysOfNothing(keys[..|keys| - 1], interval);
    }
  }

  lemma {:induction false} OverKeysMore(keys: seq<int>, done: seq<RawDataPoint>, p: RawDataPoint, interval: int)
    requires interval > 0 && Ascending(keys)
    ensures OverKeys(keys, done + [p], interval) ==
              if Key(p, interval) in keys then OverKeys(keys, done, interval).Plus(One(p))
              else OverKeys(keys, done, interval)
  {
    hide Key, One, InBucket;
    if keys != [] {
      var n := |keys| - 1;
      OverKeysMore(keys[..n], done, p, interval);
      BucketAppend(done, p, interval, keys[n]);
      assert keys == keys[..n] + [keys[n]];
      assert keys[n] !in keys[..n];
    }
  }

  /** The buckets' statistics add up to the totals. */
  lemma {:induction false} BucketsAddUp(keys: seq<int>, points: seq<RawDataPoint>, interval: int)
    requires interval > 0 && Ascending(keys)
    requires forall i :: 0 <= i < |points| ==> Key(points[i], interval) in keys
    ensures OverKeys(keys, points, interval) == Overall(points)
    decreases |points|
  {
    hide Key, One, InBucket;
    if points == [] {
      OverKeysOfNothing(keys, interval);
    } else {
      var before := points[..|points| - 1];
      BucketsAddUp(keys, before, interval);
      OverKeysMore(keys, before, points[|points| - 1], interval);
      assert points == before + [points[|points| - 1]];
    }
  }

  // ---- server metrics: mean or last value per bucket

  /** `v` is the value of a latest point of the bucket. */
  ghost predicate IsLastValue(v: real, points: seq<RawDataPoint>, interval: int, key: int)
    requires interval > 0
  {
    exists i :: 0 <= i < |points| && Key(points[i], interval) == key && points[i].value == v
      && forall j :: 0 <= j < |points| && Key(points[j], interval) == key ==> points[j].timestamp <= points[i].timestamp
  }

  ghost predicate IsMetric(d: MetricDataPoint, points: seq<RawDataPoint>, interval: int, useLastValue: bool)
    requires interval > 0
  {
    if useLastValue then IsLastValue(d.value, points, interval, d.timestamp)
    else
      var a := InBucket(points, interval, d.timestamp);
      a.count > 0 && d.value == a.total / a.count as real
  }

  ghost predicate IsMetricGroupBy(r: seq<MetricDataPoint>, points: seq<RawDataPoint>, interval: int, useLastValue: bool)
    requires interval > 0
  {
    && KeysOf(MetricTimestamps(r), points, interval)
    && forall j :: 0 <= j < |r| ==> IsMetric(r[j], points, interval, useLastValue)
  }

  ghost predicate MetricScan(r: seq<MetricDataPoint>, bucketStart: int, done: seq<RawDataPoint>, interval: int,
                             useLastValue: bool)
    requires interval > 0
  {
    && (forall j :: 0 <= j < |r| ==> IsMetric(r[j], done, interval, useLastValue))
    && KeysOf(MetricTimestamps(r) + [bucketStart], done, interval)
  }

  lemma LastValueMore(v: real, done: seq<RawDataPoint>, p: RawDataPoint, interval: int, key: int)
    requires interval > 0 && Key(p, interval) != key && IsLastValue(v, done, interval, key)
    ensures IsLastValue(v, done + [p], interval, key)
  {
    hide Key;
    var i :| 0 <= i < |done| && Key(done[i], interval) == key && done[i].value == v
      && forall j :: 0 <= j < |done| && Key(done[j], interval) == key ==> done[j].timestamp <= done[i].timestamp;
    assert (done + [p])[i] == done[i];
  }

  lemma MetricMore(d: MetricDataPoint, done: seq<RawDataPoint>, p: RawDataPoint, interval: int, useLastValue: bool)
    requires interval > 0 && Key(p, interval) != d.timestamp && IsMetric(d, done, interval, useLastValue)
    ensures IsMetric(d, done + [p], interval, useLastValue)
  {
    BucketAppend(done, p, interval, d.timestamp);
    if useLastValue {
      LastValueMore(d.value, done, p, interval, d.timestamp);
    }
    hide InBucket, Key, IsLastValue;
  }

  lemma MetricSameBucket(r: seq<MetricDataPoint>, bucketStart: int, done: seq<RawDataPoint>, p: RawDataPoint,
                         interval: int, useLastValue: bool)
    requires interval > 0 && MetricScan(r, bucketStart, done, interval, useLastValue) && Key(p, interval) == bucketStart
    ensures MetricScan(r, bucketStart, done + [p], interval, useLastValue)
  {
    hide IsMetric, Key;
    var keys := MetricTimestamps(r) + [bucketStart];
    forall j | 0 <= j < |r|
      ensures IsMetric(r[j], done + [p], interval, useLastValue)
    {
      assert keys[j] < keys[|r|];
      MetricMore(r[j], done, p, interval, useLastValue);
    }
    assert keys[|r|] == bucketStart;
    SameKeys(keys, done, p, interval);
  }

  lemma MetricNextBucket(r: seq<MetricDataPoint>, d: MetricDataPoint, done: seq<RawDataPoint>, p: RawDataPoint,
                         interval: int, useLastValue: bool)
    requires interval > 0 && MetricScan(r, d.timestamp, done, interval, useLastValue)
    requires IsMetric(d, done, interval, useLastValue) && Key(p, interval) > d.timestamp
    ensures MetricScan(r + [d], Key(p, interval), done + [p], interval, useLastValue)
    ensures InBucket(done, interval, Key(p, interval)) == ZERO
  {
    hide IsMetric, Key, InBucket;
    var n, keys := r + [d], MetricTimestamps(r) + [d.timestamp];
    assert MetricTimestamps(n) == keys;
    NewKey(keys, done, p, interval);
    forall j | 0 <= j < |n|
      ensures IsMetric(n[j], done + [p], interval, useLastValue)
    {
      assert keys[j] == n[j].timestamp;
      MetricMore(n[j], done, p, interval, useLastValue);
    }
  }

  /** What the open bucket will show: its sums so far, and its newest point, which is the last one. */
  lemma OpenBucket(done: seq<RawDataPoint>, interval: int, useLastValue: bool, d: MetricDataPoint)
    requires interval > 0 && Sorted(done) && done != []
    requires var last := done[|done| - 1];
      && d.timestamp == Key(last, interval)
      && (if useLastValue then d.value == last.value
          else var a := InBucket(done, interval, d.timestamp); a.count > 0 && d.value == a.total / a.count as real)
    ensures IsMetric(d, done, interval, useLastValue)
  {
    hide InBucket, Key;
  }

  lemma BucketCounts(done: seq<RawDataPoint>, p: RawDataPoint, interval: int)
    requires interval > 0
    ensures InBucket(done + [p], interval, Key(p, interval)).count > 0
  {
    BucketAppend(done, p, interval, Key(p, interval));
    hide InBucket, Key;
  }

  lemma MetricStart(p: RawDataPoint, interval: int, useLastValue: bool)
    requires interval > 0
    ensures MetricScan([], Key(p, interval), [p], interval, useLastValue)
    ensures InBucket([], interval, Key(p, interval)) == ZERO
  {
    assert Key([p][0], interval) == Key(p, interval);
    assert MetricTimestamps([]) + [Key(p, interval)] == [Key(p, interval)];
  }

  method DownsampleMetrics(points: seq<RawDataPoint>, interval: int, useLastValue: bool)
    returns (result: seq<MetricDataPoint>)
    requires interval > 0
    ensures IsMetricGroupBy(result, points, interval, useLastValue)
    ensures !useLastValue ==> forall j :: 0 <= j < |result| ==>
              var a := InBucket(points, interval, result[j].timestamp);
              a.count > 0 && result[j].value == a.total / a.count as real
    ensures useLastValue ==> forall j :: 0 <= j < |result| ==>
              exists i :: 0 <= i < |points| && Key(points[i], interval) == result[j].timestamp
                && points[i].value == result[j].value
                && forall k :: 0 <= k < |points| && Key(points[k], interval) == result[j].timestamp ==>
                     points[k].timestamp <= points[i].timestamp
  {
    hide InBucket, Key;
    if |points| == 0 {
      return [];
    }
    var sorted := SortByTimestamp(points);
    assert |sorted| == |multiset(points)|;
    result := ScanMetrics(sorted, interval, useLastValue);
    MetricPermute(result, sorted, points, interval, useLastValue);
  }

  method ScanMetrics(points: seq<RawDataPoint>, interval: int, useLastValue: bool)
    returns (result: seq<MetricDataPoint>)
    requires interval > 0 && Sorted(points) && points != []
    ensures IsMetricGroupBy(result, points, interval, useLastValue)
  {
    hide InBucket, KeysOf, IsMetric;
    result := [];
    var bucketStart := TruncDiv(points[0].timestamp, interval) * interval;
    var total, count, last := 0.0, 0, points[0];
    MetricStart(points[0], interval, useLastValue);
    for i := 0 to |points|
      invariant i == 0 ==> result == [] && bucketStart == Key(points[0], interval) && total == 0.0 && count == 0
      invariant i > 0 ==> last == points[i - 1] && Key(last, interval) == bucketStart
      invariant i > 0 ==> MetricScan(result, bucketStart, points[..i], interval, useLastValue)
      invariant i > 0 ==>
        var a := InBucket(points[..i], interval, bucketStart); total == a.total && count == a.count > 0
    {
      var p := points[i];
      var key := TruncDiv(p.timestamp, interval) * interval;
      assert points[..i + 1] == points[..i] + [p];
      BucketAppend(points[..i], p, interval, key);
      BucketCounts(points[..i], p, interval);
      if key != bucketStart {
        KeyMonotone(points[i - 1], p, interval);
        var d := MetricDataPoint(bucketStart, FlushMetric(useLastValue, total, count, last));
        OpenBucket(points[..i], interval, useLastValue, d);
        MetricNextBucket(result, d, points[..i], p, interval, useLastValue);
        result := result + [d];
        bucketStart := key;
        total, count := 0.0, 0;
      } else if i > 0 {
        MetricSameBucket(result, bucketStart, points[..i], p, interval, useLastValue);
      } else {
        assert points[..1] == [points[0]];
      }
      total := total + p.value;
      count := count + 1;
      last := p;
    }
    assert points[..|points|] == points;
    var d := MetricDataPoint(bucketStart, FlushMetric(useLastValue, total, count, last));
    OpenBucket(points, interval, useLastValue, d);
    assert MetricTimestamps(result + [d]) == MetricTimestamps(result) + [bucketStart];
    result := result + [d];
  }

  function FlushMetric(useLastValue: bool, total: real, count: nat, last: RawDataPoint): real {
    if useLastValue then last.value else if count > 0 then total / count as real else 0.0
  }

  lemma MetricPermute(r: seq<MetricDataPoint>, a: seq<RawDataPoint>, b: seq<RawDataPoint>, interval: int,
                      useLastValue: bool)
    requires interval > 0 && multiset(a) == multiset(b) && IsMetricGroupBy(r, a, interval, useLastValue)
    ensures IsMetricGroupBy(r, b, interval, useLastValue)
  {
    hide InBucket, KeysOf;
    KeysPermute(MetricTimestamps(r), a, b, interval);
    forall j | 0 <= j < |r|
      ensures IsMetric(r[j], b, interval, useLastValue)
    {
      assert IsMetric(r[j], a, interval, useLastValue);
      StatsPermute(a, b, interval, r[j].timestamp);
      if useLastValue {
        LastValuePermute(r[j].value, a, b, interval, r[j].timestamp);
      }
    }
  }

  lemma LastValuePermute(v: real, a: seq<RawDataPoint>, b: seq<RawDataPoint>, interval: int, key: int)
    requires interval > 0 && multiset(a) == multiset(b) && IsLastValue(v, a, interval, key)
    ensures IsLastValue(v, b, interval, key)
  {
    hide Key;
    var i :| 0 <= i < |a| && Key(a[i], interval) == key && a[i].value == v
      && forall j :: 0 <= j < |a| && Key(a[j], interval) == key ==> a[j].timestamp <= a[i].timestamp;
    assert a[i] in multiset(a);
    var k :| 0 <= k < |b| && b[k] == a[i];
    forall j | 0 <= j < |b| && Key(b[j], interval) == key
      ensures b[j].timestamp <= b[k].timestamp
    {
      assert b[j] in multiset(b);
      var m :| 0 <= m < |a| && a[m] == b[j];
    }
  }
}
