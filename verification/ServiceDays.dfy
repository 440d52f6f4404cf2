/** One day of a monitored service, as it is counted from reports, from stored rows and from the time
    series store (service/singleton/servicesentinel.go, pkg/tsdb/query.go). Days have 24 hours. */
module ServiceDays {

  const WINDOW := 30

  /** Counts and mean delay of one day. */
  datatype Day = Day(up: nat, down: nat, delay: real) {
    /** One report, folded into the running mean as the worker does. */
    function Report(successful: bool, d: real): Day {
      if successful then Day(up + 1, down, (delay * up as real + d) / (up + 1) as real)
      else Day(up, down + 1, delay)
    }

    function Total(): real {
      Weighted(delay, up)
    }
  }

  const NO_DAY := Day(0, 0, 0.0)

  datatype Result = Result(successful: bool, delay: real)

  function Folded(reports: seq<Result>): Day {
    if reports == [] then NO_DAY
    else
      var r := reports[|reports| - 1];
      Folded(reports[..|reports| - 1]).Report(r.successful, r.delay)
  }

  function Successes(reports: seq<Result>): nat {
    if reports == [] then 0
    else Successes(reports[..|reports| - 1]) + if reports[|reports| - 1].successful then 1 else 0
  }

  function DelaySum(reports: seq<Result>): real {
    if reports == [] then 0.0
    else
      var r := reports[|reports| - 1];
      DelaySum(reports[..|reports| - 1]) + if r.successful then r.delay else 0.0
  }

  ghost function SuccessfulOnes(reports: seq<Result>): set<nat> {
    set k: nat | k < |reports| && reports[k].successful
  }

  /** Successes are the successful reports, and their delays add up. */
  lemma {:induction false} SuccessesCounted(reports: seq<Result>)
    ensures Successes(reports) == |SuccessfulOnes(reports)|
  {
    if reports == [] {
      assert SuccessfulOnes(reports) == {};
    } else {
      var n := |reports| - 1;
      SuccessesCounted(reports[..n]);
      assert SuccessfulOnes(reports) == SuccessfulOnes(reports[..n]) + if reports[n].successful then {n} else {};
    }
  }

  lemma DelaySumMore(reports: seq<Result>, r: Result)
    ensures DelaySum([]) == 0.0
    ensures DelaySum(reports + [r]) == DelaySum(reports) + if r.successful then r.delay else 0.0
  {
    assert (reports + [r])[..|reports|] == reports;
  }

  function Weighted(mean: real, n: nat): real {
    mean * n as real
  }

  /** The update of a running mean by one more value. */
  function Averaged(mean: real, n: nat, x: real): real {
    (mean * n as real + x) / (n + 1) as real
  }

  lemma RunningMean(mean: real, n: nat, x: real)
    ensures Weighted(Averaged(mean, n, x), n + 1) == Weighted(mean, n) + x
  {
  }

  lemma ReportKeepsMean(day: Day, sum: real, r: Result)
    requires day.Total() == sum
    ensures day.Report(r.successful, r.delay).Total() == sum + if r.successful then r.delay else 0.0
  {
    RunningMean(day.delay, day.up, r.delay);
  }

  lemma ReportCounts(day: Day, r: Result)
    ensures var next := day.Report(r.successful, r.delay);
      && next.up == day.up + (if r.successful then 1 else 0)
      && next.down == day.down + (if r.successful then 0 else 1)
      && (next.up == 0 ==> next.delay == day.delay)
  {
  }

  /** The running mean is the mean: a day's entry is the number of successes and failures and the
      average delay of the successes, whatever the order of the reports. */
  lemma {:induction false} DayOfReports(reports: seq<Result>)
    ensures var day := Folded(reports);
      && day.up == Successes(reports)
      && day.down == |reports| - Successes(reports)
      && day.Total() == DelaySum(reports)
      && (day.up == 0 ==> day.delay == 0.0)
  {
    if reports != [] {
      var before, r := reports[..|reports| - 1], reports[|reports| - 1];
      DayOfReports(before);
      ReportKeepsMean(Folded(before), DelaySum(before), r);
      ReportCounts(Folded(before), r);
      hide Day.Report, Day.Total;
    }
  }

  // ---- rows of the history table

  function Mean(sum: real, n: nat): real {
    if n == 0 then 0.0 else sum / n as real
  }

  lemma MeanOf(mean: real, n: nat, sum: real)
    requires Weighted(mean, n) == sum && (n == 0 ==> mean == 0.0)
    ensures mean == Mean(sum, n)
  {
  }

  /** The day before today is one day back; `hours` are whole hours before today's midnight. */
  function DaysBack(hours: nat): nat {
    1 + hours / 24
  }

  /** One stored sample row of an earlier day. */
  datatype HistoryRow = HistoryRow(hours: nat, up: nat, down: nat, avgDelay: real)

  function RowsUp(rows: seq<HistoryRow>, back: nat): nat {
    if rows == [] then 0
    else
      var r := rows[|rows| - 1];
      RowsUp(rows[..|rows| - 1], back) + if DaysBack(r.hours) == back then r.up else 0
  }

  function RowsDown(rows: seq<HistoryRow>, back: nat): nat {
    if rows == [] then 0
    else
      var r := rows[|rows| - 1];
      RowsDown(rows[..|rows| - 1], back) + if DaysBack(r.hours) == back then r.down else 0
  }

  function RowsCount(rows: seq<HistoryRow>, back: nat): nat {
    if rows == [] then 0
    else RowsCount(rows[..|rows| - 1], back) + if DaysBack(rows[|rows| - 1].hours) == back then 1 else 0
  }

  function RowsDelay(rows: seq<HistoryRow>, back: nat): real {
    if rows == [] then 0.0
    else
      var r := rows[|rows| - 1];
      RowsDelay(rows[..|rows| - 1], back) + if DaysBack(r.hours) == back then r.avgDelay else 0.0
  }

  /** A row counts for the day in whose 24 hours before midnight it lies, with all that it holds. */
  lemma RowCounts(rows: seq<HistoryRow>, r: HistoryRow, back: nat)
    ensures var here := 24 * (back - 1) <= r.hours < 24 * back;
      && RowsUp(rows + [r], back) == RowsUp(rows, back) + (if here then r.up else 0)
      && RowsDown(rows + [r], back) == RowsDown(rows, back) + (if here then r.down else 0)
      && RowsCount(rows + [r], back) == RowsCount(rows, back) + (if here then 1 else 0)
      && RowsDelay(rows + [r], back) == RowsDelay(rows, back) + (if here then r.avgDelay else 0.0)
    ensures RowsUp([], back) == RowsDown([], back) == RowsCount([], back) == 0 && RowsDelay([], back) == 0.0
  {
    assert (rows + [r])[..|rows|] == rows;
  }

  /** What the stored rows say about the day that many days back. */
  function StoredDay(rows: seq<HistoryRow>, back: nat): Day {
    Day(RowsUp(rows, back), RowsDown(rows, back), Mean(RowsDelay(rows, back), RowsCount(rows, back)))
  }

  function StoredDays(rows: seq<HistoryRow>): seq<Day> {
    seq(WINDOW - 1, i requires 0 <= i < WINDOW - 1 => StoredDay(rows, WINDOW - 1 - i))
  }

  // ---- points of the time series store

  const HOUR := 3_600_000
  const DAY := 24 * HOUR

  /** `age` is the time in milliseconds from the point to today's midnight; points of today have none
      or less. */
  datatype Point = Point(age: int, value: real)

  function In(p: Point, lo: int, hi: int): bool {
    lo <= p.age <= hi
  }

  function Ups(points: seq<Point>, lo: int, hi: int): nat {
    if points == [] then 0
    else
      var p := points[|points| - 1];
      Ups(points[..|points| - 1], lo, hi) + if In(p, lo, hi) && p.value >= 0.5 then 1 else 0
  }

  function Number(points: seq<Point>, lo: int, hi: int): nat {
    if points == [] then 0
    else Number(points[..|points| - 1], lo, hi) + if In(points[|points| - 1], lo, hi) then 1 else 0
  }

  function Values(points: seq<Point>, lo: int, hi: int): real {
    if points == [] then 0.0
    else
      var p := points[|points| - 1];
      Values(points[..|points| - 1], lo, hi) + if In(p, lo, hi) then p.value else 0.0
  }

  lemma {:induction false} UpsAreSome(points: seq<Point>, lo: int, hi: int)
    ensures Ups(points, lo, hi) <= Number(points, lo, hi)
  {
    if points != [] {
      UpsAreSome(points[..|points| - 1], lo, hi);
    }
  }

  ghost function Places(points: seq<Point>, lo: int, hi: int): set<nat> {
    set k: nat | k < |points| && lo <= points[k].age <= hi
  }

  ghost function UpPlaces(points: seq<Point>, lo: int, hi: int): set<nat> {
    set k: nat | k < |points| && lo <= points[k].age <= hi && points[k].value >= 0.5
  }

  /** Points of a range are counted by their age alone ... */
  lemma {:induction false} PointsCounted(points: seq<Point>, lo: int, hi: int)
    ensures Number(points, lo, hi) == |Places(points, lo, hi)|
  {
    if points == [] {
      assert Places(points, lo, hi) == {};
    } else {
      var n := |points| - 1;
      PointsCounted(points[..n], lo, hi);
      assert Places(points, lo, hi) == Places(points[..n], lo, hi) + if lo <= points[n].age <= hi then {n} else {};
    }
  }

  /** ... and from 0.5 on they are up. */
  lemma {:induction false} UpsCounted(points: seq<Point>, lo: int, hi: int)
    ensures Ups(points, lo, hi) == |UpPlaces(points, lo, hi)|
  {
    if points == [] {
      assert UpPlaces(points, lo, hi) == {};
    } else {
      var n := |points| - 1;
      UpsCounted(points[..n], lo, hi);
      assert UpPlaces(points, lo, hi) ==
        UpPlaces(points[..n], lo, hi) + if lo <= points[n].age <= hi && points[n].value >= 0.5 then {n} else {};
    }
  }

  predicate NoneIn(points: seq<Point>, lo: int, hi: int) {
    forall k :: 0 <= k < |points| ==> !In(points[k], lo, hi)
  }

  lemma {:induction false} NumberZero(points: seq<Point>, lo: int, hi: int)
    ensures Number(points, lo, hi) == 0 <==> NoneIn(points, lo, hi)
    ensures NoneIn(points, lo, hi) ==> Ups(points, lo, hi) == 0 && Values(points, lo, hi) == 0.0
  {
    if points != [] {
      var n := |points| - 1;
      NumberZero(points[..n], lo, hi);
      assert NoneIn(points, lo, hi) <==> NoneIn(points[..n], lo, hi) && !In(points[n], lo, hi);
    }
  }

  lemma {:induction false} RangeSplits(points: seq<Point>, lo: int, mid: int, hi: int)
    requires lo - 1 <= mid <= hi
    ensures Ups(points, lo, hi) == Ups(points, lo, mid) + Ups(points, mid + 1, hi)
    ensures Number(points, lo, hi) == Number(points, lo, mid) + Number(points, mid + 1, hi)
  {
    if points != [] {
      RangeSplits(points[..|points| - 1], lo, mid, hi);
    }
  }

  /** What the status and delay points of a range say. */
  function DayIn(status: seq<Point>, delays: seq<Point>, lo: int, hi: int): Day {
    UpsAreSome(status, lo, hi);
    Day(Ups(status, lo, hi), Number(status, lo, hi) - Ups(status, lo, hi),
        Mean(Values(delays, lo, hi), Number(delays, lo, hi)))
  }

  lemma NothingIn(status: seq<Point>, delays: seq<Point>, lo: int, hi: int)
    requires NoneIn(status, lo, hi) && NoneIn(delays, lo, hi)
    ensures DayIn(status, delays, lo, hi) == NO_DAY
  {
    NumberZero(status, lo, hi);
    NumberZero(delays, lo, hi);
  }

  /** The day that many days back; a point exactly at midnight counts for the day that ends there. */
  function MeasuredDay(status: seq<Point>, delays: seq<Point>, back: nat): Day {
    DayIn(status, delays, (back - 1) * DAY, back * DAY - 1)
  }

  function MeasuredDays(status: seq<Point>, delays: seq<Point>): (days: seq<Day>)
    ensures |days| == WINDOW - 1
  {
    seq(WINDOW - 1, i requires 0 <= i < WINDOW - 1 => MeasuredDay(status, delays, WINDOW - 1 - i))
  }

  /** The query for `days` days reads from the midnight `days - 1` days back to today's. Of the day
      before that it finds the last instant only. */
  function QueriedDay(status: seq<Point>, delays: seq<Point>, days: nat, back: nat): Day {
    DayIn(status, delays, (back - 1) * DAY, LastRead(days, back))
  }

  function LastRead(days: nat, back: nat): int {
    if back < days then back * DAY - 1 else (days - 1) * DAY
  }

  predicate IsRead(p: Point, days: nat) {
    0 <= p.age <= (days - 1) * DAY
  }

  function DayIndex(p: Point, days: nat): int
    requires IsRead(p, days)
  {
    days - 1 - p.age / HOUR / 24
  }

  lemma IndexMeans(p: Point, days: nat, i: nat)
    requires i < days
    ensures In(p, (days - i - 1) * DAY, LastRead(days, days - i)) <==> IsRead(p, days) && DayIndex(p, days) == i
    ensures IsRead(p, days) ==> 0 <= DayIndex(p, days) < days
  {
  }

  lemma PointMore(points: seq<Point>, k: nat, lo: int, hi: int)
    requires k < |points|
    ensures var p := points[k];
      && Ups(points[..k + 1], lo, hi) == Ups(points[..k], lo, hi) + (if In(p, lo, hi) && p.value >= 0.5 then 1 else 0)
      && Number(points[..k + 1], lo, hi) == Number(points[..k], lo, hi) + (if In(p, lo, hi) then 1 else 0)
      && Values(points[..k + 1], lo, hi) == Values(points[..k], lo, hi) + (if In(p, lo, hi) then p.value else 0.0)
  {
    assert points[..k + 1][..k] == points[..k];
  }

  /** Entry `i` of both counts the points read of its day. */
  ghost predicate Counted(ups: seq<nat>, downs: seq<nat>, points: seq<Point>) {
    && |ups| == |downs|
    && forall i :: 0 <= i < |ups| ==> CountedAt(ups[i], downs[i], points, |ups|, i)
  }

  ghost predicate CountedAt(up: nat, down: nat, points: seq<Point>, days: nat, i: nat)
    requires i < days
  {
    var lo, hi := (days - i - 1) * DAY, LastRead(days, days - i);
    up == Ups(points, lo, hi) && up + down == Number(points, lo, hi)
  }

  lemma CountedMore(ups: seq<nat>, downs: seq<nat>, points: seq<Point>, k: nat)
    requires k < |points| && Counted(ups, downs, points[..k])
    ensures var p := points[k];
      if !IsRead(p, |ups|) then Counted(ups, downs, points[..k + 1])
      else
        var i := DayIndex(p, |ups|);
        && 0 <= i < |ups|
        && (if p.value >= 0.5 then Counted(ups[i := ups[i] + 1], downs, points[..k + 1])
            else Counted(ups, downs[i := downs[i] + 1], points[..k + 1]))
  {
    var p, days := points[k], |ups|;
    forall i | 0 <= i < days
      ensures var here := if IsRead(p, days) && DayIndex(p, days) == i then 1 else 0;
        CountedAt(if p.value >= 0.5 then ups[i] + here else ups[i],
                  if p.value >= 0.5 then downs[i] else downs[i] + here, points[..k + 1], days, i)
    {
      assert CountedAt(ups[i], downs[i], points[..k], days, i);
      PointMore(points, k, (days - i - 1) * DAY, LastRead(days, days - i));
      IndexMeans(p, days, i);
    }
    if days > 0 {
      IndexMeans(p, days, 0);
    }
    hide CountedAt, DayIndex;
  }

  /** The counting loop of QueryServiceDailyStats (pkg/tsdb/query.go:195-208). */
  method CountDays(status: seq<Point>, days: nat) returns (ups: array<nat>, downs: array<nat>)
    ensures ups.Length == downs.Length == days && fresh(ups) && fresh(downs)
    ensures Counted(ups[..], downs[..], status)
  {
    ups, downs := new nat[days](_ => 0), new nat[days](_ => 0);
    for k := 0 to |status|
      invariant Counted(ups[..], downs[..], status[..k])
    {
      hide Counted;
      var p := status[k];
      ghost var u, d := ups[..], downs[..];
      CountedMore(u, d, status, k);
      if !IsRead(p, days) {
        continue;
      }
      var dayIndex := DayIndex(p, days);
      if p.value >= 0.5 {
        ups[dayIndex] := ups[dayIndex] + 1;
        assert ups[..] == u[dayIndex := u[dayIndex] + 1] && downs[..] == d;
      } else {
        downs[dayIndex] := downs[dayIndex] + 1;
        assert ups[..] == u && downs[..] == d[dayIndex := d[dayIndex] + 1];
      }
    }
    assert status[..|status|] == status;
  }

  /** The mean and the number of the points of a range. */
  ghost predicate MeanIn(mean: real, n: nat, points: seq<Point>, lo: int, hi: int) {
    && n == Number(points, lo, hi)
    && Weighted(mean, n) == Values(points, lo, hi)
    && (n == 0 ==> mean == 0.0)
  }

  ghost predicate DayMeans(means: seq<real>, counts: seq<nat>, points: seq<Point>) {
    && |means| == |counts|
    && forall i :: 0 <= i < |means| ==> MeanAt(means[i], counts[i], points, |means|, i)
  }

  ghost predicate MeanAt(mean: real, n: nat, points: seq<Point>, days: nat, i: nat)
    requires i < days
  {
    MeanIn(mean, n, points, (days - i - 1) * DAY, LastRead(days, days - i))
  }

  lemma MeanInMore(mean: real, n: nat, points: seq<Point>, k: nat, lo: int, hi: int, next: real)
    requires k < |points| && MeanIn(mean, n, points[..k], lo, hi)
    requires In(points[k], lo, hi) ==> Weighted(next, n + 1) == Weighted(mean, n) + points[k].value
    ensures if In(points[k], lo, hi) then MeanIn(next, n + 1, points[..k + 1], lo, hi)
            else MeanIn(mean, n, points[..k + 1], lo, hi)
  {
    PointMore(points, k, lo, hi);
    hide Number, Values, Weighted, In;
  }

  lemma MeansMore(means: seq<real>, counts: seq<nat>, points: seq<Point>, k: nat, mean: real)
    requires k < |points| && DayMeans(means, counts, points[..k])
    requires var p := points[k];
      IsRead(p, |means|) && 0 <= DayIndex(p, |means|) < |means| ==>
        var i := DayIndex(p, |means|);
        Weighted(mean, counts[i] + 1) == Weighted(means[i], counts[i]) + p.value
    ensures var p := points[k];
      if !IsRead(p, |means|) then DayMeans(means, counts, points[..k + 1])
      else
        var i := DayIndex(p, |means|);
        && 0 <= i < |means|
        && DayMeans(means[i := mean], counts[i := counts[i] + 1], points[..k + 1])
  {
    var p, days := points[k], |means|;
    if days > 0 {
      IndexMeans(p, days, 0);
    }
    var d := if IsRead(p, days) then DayIndex(p, days) else -1;
    var means', counts' := means, counts;
    if d >= 0 {
      means', counts' := means[d := mean], counts[d := counts[d] + 1];
    }
    forall i | 0 <= i < days
      ensures MeanAt(means'[i], counts'[i], points[..k + 1], days, i)
    {
      assert MeanAt(means[i], counts[i], points[..k], days, i);
      IndexMeans(p, days, i);
      hide MeanIn, Weighted, DayIndex, IsRead, In;
      var lo, hi := (days - i - 1) * DAY, LastRead(days, days - i);
      MeanInMore(means[i], counts[i], points, k, lo, hi, if i == d then mean else 0.0);
    }
    hide MeanAt, Weighted, DayIndex;
  }

  lemma MeansShown(means: seq<real>, counts: seq<nat>, points: seq<Point>)
    requires DayMeans(means, counts, points)
    ensures forall i :: 0 <= i < |means| ==>
              var lo, hi := (|means| - i - 1) * DAY, LastRead(|means|, |means| - i);
              means[i] == Mean(Values(points, lo, hi), Number(points, lo, hi))
  {
    forall i | 0 <= i < |means|
      ensures var lo, hi := (|means| - i - 1) * DAY, LastRead(|means|, |means| - i);
        means[i] == Mean(Values(points, lo, hi), Number(points, lo, hi))
    {
      assert MeanAt(means[i], counts[i], points, |means|, i);
      MeanOf(means[i], counts[i], Values(points, (|means| - i - 1) * DAY, LastRead(|means|, |means| - i)));
    }
  }

  /** Its averaging loop (pkg/tsdb/query.go:210-221). */
  method AverageDays(delays: seq<Point>, days: nat) returns (means: array<real>)
    ensures means.Length == days && fresh(means)
    ensures forall i :: 0 <= i < days ==>
              var lo, hi := (days - i - 1) * DAY, LastRead(days, days - i);
              means[i] == Mean(Values(delays, lo, hi), Number(delays, lo, hi))
  {
    means := new real[days](_ => 0.0);
    var delayCount := new nat[days](_ => 0);
    for k := 0 to |delays|
      invariant DayMeans(means[..], delayCount[..], delays[..k])
    {
      hide DayMeans, Weighted;
      var p := delays[k];
      ghost var before, counts := means[..], delayCount[..];
      if !IsRead(p, days) {
        MeansMore(before, counts, delays, k, 0.0);
        continue;
      }
      var dayIndex := DayIndex(p, days);
      IndexMeans(p, days, 0);
      RunningMean(means[dayIndex], delayCount[dayIndex], p.value);
      var mean := (means[dayIndex] * delayCount[dayIndex] as real + p.value) / (delayCount[dayIndex] + 1) as real;
      MeansMore(before, counts, delays, k, mean);
      means[dayIndex] := mean;
      delayCount[dayIndex] := delayCount[dayIndex] + 1;
      assert means[..] == before[dayIndex := mean] && delayCount[..] == counts[dayIndex := counts[dayIndex] + 1];
    }
    assert delays[..|delays|] == delays;
    MeansShown(means[..], delayCount[..], delays);
    hide DayMeans, Values, Number, Mean, LastRead;
    assert forall i :: 0 <= i < days ==> means[..][i] == means[i];
  }

  lemma QueriedCounts(status: seq<Point>, delays: seq<Point>, days: nat, back: nat)
    requires 0 < back < days
    ensures var lo, hi, d := (back - 1) * 86_400_000, back * 86_400_000 - 1, QueriedDay(status, delays, days, back);
      d.up == |UpPlaces(status, lo, hi)| && d.up + d.down == |Places(status, lo, hi)|
  {
    PointsCounted(status, (back - 1) * 86_400_000, back * 86_400_000 - 1);
    UpsCounted(status, (back - 1) * 86_400_000, back * 86_400_000 - 1);
  }

  /** QueryServiceDailyStats: entry `i` is the day `days - i` days back, so the last one is yesterday, and
      the first one is cut off by the time range. */
  method QueryServiceDailyStats(status: seq<Point>, delays: seq<Point>, days: nat) returns (stats: seq<Day>)
    ensures |stats| == days
    ensures forall i :: 0 <= i < days ==> stats[i] == QueriedDay(status, delays, days, days - i)
    ensures forall i :: 0 < i < days ==>
              var lo, hi := (days - 1 - i) * 86_400_000, (days - i) * 86_400_000 - 1;
              && stats[i].up == |UpPlaces(status, lo, hi)|
              && stats[i].up + stats[i].down == |Places(status, lo, hi)|
  {
    var ups, downs := CountDays(status, days);
    var means := AverageDays(delays, days);
    stats := seq(days, i requires 0 <= i < days reads ups, downs, means => Day(ups[i], downs[i], means[i]));
    forall i | 0 <= i < days
      ensures stats[i] == QueriedDay(status, delays, days, days - i)
    {
      assert CountedAt(ups[..][i], downs[..][i], status, days, i);
    }
    forall i | 0 < i < days
      ensures var lo, hi := (days - 1 - i) * 86_400_000, (days - i) * 86_400_000 - 1;
        stats[i].up == |UpPlaces(status, lo, hi)| && stats[i].up + stats[i].down == |Places(status, lo, hi)|
    {
      QueriedCounts(status, delays, days, days - i);
    }
  }

  /** What the first of the queried days shows, and all others. */
  lemma QueriedDayMeans(status: seq<Point>, delays: seq<Point>, days: nat, back: nat)
    requires 0 < back <= days
    ensures back < days ==> QueriedDay(status, delays, days, back) == MeasuredDay(status, delays, back)
    ensures var start := (days - 1) * DAY;
      back == days && NoneIn(status, start, start) && NoneIn(delays, start, start) ==>
        QueriedDay(status, delays, days, back) == NO_DAY
  {
    if back == days {
      var start := (days - 1) * DAY;
      if NoneIn(status, start, start) && NoneIn(delays, start, start) {
        NothingIn(status, delays, start, start);
      }
    }
  }

  // ---- counts of today

  /** A stored row of today, or the statistics of one server. */
  datatype Stats = Stats(up: nat, down: nat, avgDelay: real)

  function StatsUp(rows: seq<Stats>): nat {
    if rows == [] then 0 else StatsUp(rows[..|rows| - 1]) + rows[|rows| - 1].up
  }

  function StatsDown(rows: seq<Stats>): nat {
    if rows == [] then 0 else StatsDown(rows[..|rows| - 1]) + rows[|rows| - 1].down
  }

  function StatsDelay(rows: seq<Stats>): real {
    if rows == [] then 0.0 else StatsDelay(rows[..|rows| - 1]) + rows[|rows| - 1].avgDelay
  }

  function WithDelay(rows: seq<Stats>): seq<Stats> {
    if rows == [] then []
    else WithDelay(rows[..|rows| - 1]) + if rows[|rows| - 1].avgDelay > 0.0 then [rows[|rows| - 1]] else []
  }

  /** Today's counts are the sums over the rows, one by one. */
  lemma StatsMore(rows: seq<Stats>, s: Stats)
    ensures StatsUp(rows + [s]) == StatsUp(rows) + s.up && StatsUp([]) == 0
    ensures StatsDown(rows + [s]) == StatsDown(rows) + s.down && StatsDown([]) == 0
    ensures StatsDelay(rows + [s]) == StatsDelay(rows) + s.avgDelay && StatsDelay([]) == 0.0
    ensures WithDelay(rows + [s]) == WithDelay(rows) + (if s.avgDelay > 0.0 then [s] else []) && WithDelay([]) == []
  {
    assert (rows + [s])[..|rows|] == rows;
  }

  lemma WithDelayMore(rows: seq<Stats>, k: nat)
    requires k < |rows|
    ensures var before, after := WithDelay(rows[..k]), WithDelay(rows[..k + 1]);
      if rows[k].avgDelay > 0.0
      then |after| == |before| + 1 && StatsDelay(after) == StatsDelay(before) + rows[k].avgDelay
      else after == before
  {
    var before := WithDelay(rows[..k]);
    assert rows[..k + 1][..k] == rows[..k];
    assert (before + [rows[k]])[..|before|] == before;
  }

  /** Today's counts, and the mean over those rows that count for the delay. */
  function TodayOf(rows: seq<Stats>, delays: seq<Stats>): Day {
    Day(StatsUp(rows), StatsDown(rows), Mean(StatsDelay(delays), |delays|))
  }

  /** The points of one server. */
  datatype Series = Series(status: seq<Point>, delays: seq<Point>)

  /** The statistics of each server over a range. */
  function StatsIn(servers: seq<Series>, lo: int, hi: int): seq<Stats> {
    seq(|servers|, i requires 0 <= i < |servers| =>
      var d := DayIn(servers[i].status, servers[i].delays, lo, hi);
      Stats(d.up, d.down, d.delay))
  }

  predicate NoStatusIn(servers: seq<Series>, lo: int, hi: int) {
    forall i :: 0 <= i < |servers| ==> NoneIn(servers[i].status, lo, hi)
  }

  lemma {:induction false} LongerRangeCounts(servers: seq<Series>, lo: int, mid: int, hi: int)
    requires lo - 1 <= mid <= hi
    ensures var short, long := StatsIn(servers, lo, mid), StatsIn(servers, lo, hi);
      && StatsUp(short) <= StatsUp(long) && StatsDown(short) <= StatsDown(long)
      && (StatsUp(short) == StatsUp(long) && StatsDown(short) == StatsDown(long) <==> NoStatusIn(servers, mid + 1, hi))
  {
    if servers != [] {
      var n := |servers| - 1;
      var s := servers[n].status;
      LongerRangeCounts(servers[..n], lo, mid, hi);
      RangeSplits(s, lo, mid, hi);
      UpsAreSome(s, mid + 1, hi);
      NumberZero(s, mid + 1, hi);
      assert StatsIn(servers, lo, mid)[..n] == StatsIn(servers[..n], lo, mid);
      assert StatsIn(servers, lo, hi)[..n] == StatsIn(servers[..n], lo, hi);
      assert NoStatusIn(servers, mid + 1, hi) <==> NoStatusIn(servers[..n], mid + 1, hi) && NoneIn(s, mid + 1, hi);
      hide NoneIn, NoStatusIn, Ups, Number;
    }
  }

  /** Today's entry is restored from the last 24 hours. With `since` milliseconds gone since midnight,
      its counts are those of today exactly if there is no status point between 24 hours ago and
      midnight. */
  lemma LastDayIsToday(servers: seq<Series>, since: int)
    requires 0 <= since <= DAY
    ensures var today, queried := StatsIn(servers, -since, 0), StatsIn(servers, -since, DAY - since);
      && StatsUp(queried) >= StatsUp(today) && StatsDown(queried) >= StatsDown(today)
      && (StatsUp(queried) == StatsUp(today) && StatsDown(queried) == StatsDown(today) <==>
            NoStatusIn(servers, 1, DAY - since))
  {
    LongerRangeCounts(servers, -since, 0, DAY - since);
  }
}
