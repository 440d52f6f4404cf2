/** The current-status buffer of one monitored service and the status machine fed by it
    (service/singleton/servicesentinel.go:554-624, 741-773). Times are in nanoseconds. */
module ServiceSamples {
  import opened GoIntegers
  import opened Wrappers

  const BUFFER_SIZE := 30
  const SECOND := 1_000_000_000
  const SAMPLE_GAP := 30 * SECOND

  const STATUS_NO_DATA := 1
  const STATUS_GOOD := 2
  const STATUS_LOW := 3
  const STATUS_DOWN := 4

  datatype Sample = Sample(time: int, successful: bool, delay: real)

  datatype Current = Current(up: nat, down: nat, delay: real)

  datatype Trigger = FailTasks | RecoverTasks

  function GetStatusCode(percent: nat): nat {
    if percent == 0 then STATUS_NO_DATA
    else if percent > 95 then STATUS_GOOD
    else if percent > 80 then STATUS_LOW
    else STATUS_DOWN
  }

  function UpPercent(c: Current): nat {
    if c.up + c.down > 0 then c.up * 100 / (c.down + c.up) else 0
  }

  function Ups(samples: seq<Sample>): nat {
    if samples == [] then 0
    else Ups(samples[..|samples| - 1]) + if samples[|samples| - 1].successful then 1 else 0
  }

  function Delays(samples: seq<Sample>): real {
    if samples == [] then 0.0
    else
      var s := samples[|samples| - 1];
      Delays(samples[..|samples| - 1]) + if s.successful then s.delay else 0.0
  }

  /** Counts of the samples and the mean delay of the successful ones. */
  ghost predicate Summarises(c: Current, samples: seq<Sample>) {
    && c.up == Ups(samples)
    && c.down == |samples| - Ups(samples)
    && c.delay * c.up as real == Delays(samples)
    && (c.up == 0 ==> c.delay == 0.0)
  }

  ghost function SuccessfulOnes(samples: seq<Sample>): set<nat> {
    set k: nat | k < |samples| && samples[k].successful
  }

  /** What is counted are the successful samples, and what is averaged is their delay. */
  lemma {:induction false} UpsCounted(samples: seq<Sample>)
    ensures Ups(samples) == |SuccessfulOnes(samples)|
  {
    if samples == [] {
      assert SuccessfulOnes(samples) == {};
    } else {
      var n := |samples| - 1;
      UpsCounted(samples[..n]);
      assert SuccessfulOnes(samples) == SuccessfulOnes(samples[..n]) + if samples[n].successful then {n} else {};
    }
  }

  lemma DelaysMore(samples: seq<Sample>, s: Sample)
    ensures Delays(samples + [s]) == Delays(samples) + (if s.successful then s.delay else 0.0) && Delays([]) == 0.0
  {
    assert (samples + [s])[..|samples|] == samples;
  }

  lemma {:induction false} UpsBound(samples: seq<Sample>)
    ensures Ups(samples) <= |samples|
  {
    if samples != [] {
      UpsBound(samples[..|samples| - 1]);
    }
  }

  lemma MeanStep(mean: real, n: nat, x: real)
    ensures (mean * n as real + x) / (n + 1) as real * (n + 1) as real == mean * n as real + x
  {
  }

  lemma SummariseMore(c: Current, samples: seq<Sample>, s: Sample)
    requires Summarises(c, samples)
    ensures Summarises(
      if s.successful then Current(c.up + 1, c.down, (c.delay * c.up as real + s.delay) / (c.up + 1) as real)
      else Current(c.up, c.down + 1, c.delay), samples + [s])
  {
    assert (samples + [s])[..|samples|] == samples;
    MeanStep(c.delay, c.up, s.delay);
  }

  /** The loop that recomputes the current status from the buffer. */
  method Summarise(samples: seq<Sample>) returns (rd: Current)
    ensures Summarises(rd, samples)
  {
    rd := Current(0, 0, 0.0);
    for k := 0 to |samples|
      invariant Summarises(rd, samples[..k])
    {
      var cs := samples[k];
      SummariseMore(rd, samples[..k], cs);
      assert samples[..k + 1] == samples[..k] + [cs];
      if cs.successful {
        rd := Current(rd.up + 1, rd.down, (rd.delay * (rd.up + 1 - 1) as real + cs.delay) / (rd.up + 1) as real);
      } else {
        rd := Current(rd.up, rd.down + 1, rd.delay);
      }
    }
    assert samples[..|samples|] == samples;
  }

  // ---- status codes

  /** What the integer percentage means in counts. */
  lemma StatusThresholds(c: Current)
    ensures var n, code := c.up + c.down, GetStatusCode(UpPercent(c));
      && (code == STATUS_GOOD <==> n > 0 && c.up * 100 >= 96 * n)
      && (code == STATUS_LOW <==> n > 0 && 81 * n <= c.up * 100 < 96 * n)
      && (code == STATUS_DOWN <==> n > 0 && n <= c.up * 100 < 81 * n)
      && (code == STATUS_NO_DATA <==> n == 0 || c.up * 100 < n)
  {
    var n := c.up + c.down;
    if n > 0 {
      QuotientAtLeast(c.up * 100, n, 1);
      QuotientAtLeast(c.up * 100, n, 81);
      QuotientAtLeast(c.up * 100, n, 96);
    }
  }

  /** A buffer of failures only is "no data", never "down": with at most 30 samples, "down" needs at
      least one success. */
  lemma OnlyFailuresReadNoData(c: Current, samples: seq<Sample>)
    requires Summarises(c, samples) && |samples| <= BUFFER_SIZE
    ensures GetStatusCode(UpPercent(c)) == STATUS_NO_DATA <==> Ups(samples) == 0
  {
    UpsBound(samples);
    StatusThresholds(c);
  }

  // ---- triggered tasks

  function TriggerOf(enabled: bool, lastStatus: nat, stateCode: nat): Option<Trigger> {
    if enabled && lastStatus != 0 then
      if stateCode == STATUS_GOOD && lastStatus != stateCode then Some(RecoverTasks)
      else if lastStatus == STATUS_GOOD && lastStatus != stateCode then Some(FailTasks)
      else None
    else None
  }

  lemma StatusUnchanged(enabled: bool, lastStatus: nat, percent: nat)
    ensures GetStatusCode(percent) != 0
    ensures GetStatusCode(percent) == lastStatus ==> TriggerOf(enabled, lastStatus, GetStatusCode(percent)) == None
  {
  }

  function Emit(triggers: seq<Trigger>, t: Option<Trigger>): seq<Trigger> {
    match t
    case None => triggers
    case Some(x) => triggers + [x]
  }

  function LastCode(codes: seq<nat>): nat {
    if codes == [] then 0 else codes[|codes| - 1]
  }

  /** The tasks run over a series of reports. `on[k]` says whether triggering was enabled at report k. */
  function TriggersOf(codes: seq<nat>, on: seq<bool>): seq<Trigger>
    requires |codes| == |on|
  {
    if codes == [] then []
    else
      var n := |codes| - 1;
      Emit(TriggersOf(codes[..n], on[..n]), TriggerOf(on[n], LastCode(codes[..n]), codes[n]))
  }

  /** The last report changed the service between good and not good. */
  predicate IsChange(codes: seq<nat>) {
    |codes| >= 2 && (codes[|codes| - 1] == STATUS_GOOD) != (codes[|codes| - 2] == STATUS_GOOD)
  }

  /** How many changes came since the last task run, while triggering was off. */
  function Missed(codes: seq<nat>, on: seq<bool>): nat
    requires |codes| == |on|
  {
    if codes == [] then 0
    else
      var n := |codes| - 1;
      if !IsChange(codes) then Missed(codes[..n], on[..n])
      else if on[n] then 0
      else Missed(codes[..n], on[..n]) + 1
  }

  /** An even number of changes was missed between each two task runs. */
  predicate EvenGaps(codes: seq<nat>, on: seq<bool>)
    requires |codes| == |on|
  {
    codes == [] ||
    var n := |codes| - 1;
    && EvenGaps(codes[..n], on[..n])
    && (IsChange(codes) && on[n] && TriggersOf(codes[..n], on[..n]) != [] ==> Missed(codes[..n], on[..n]) % 2 == 0)
  }

  predicate Alternate(t: seq<Trigger>) {
    forall k :: 0 < k < |t| ==> t[k] != t[k - 1]
  }

  lemma AlternateMore(t: seq<Trigger>, x: Trigger)
    ensures Alternate(t + [x]) <==> Alternate(t) && (t != [] ==> t[|t| - 1] != x)
  {
    if Alternate(t + [x]) {
      forall k | 0 < k < |t|
        ensures t[k] != t[k - 1]
      {
        assert (t + [x])[k] == t[k] && (t + [x])[k - 1] == t[k - 1];
      }
      if t != [] {
        assert (t + [x])[|t|] == x && (t + [x])[|t| - 1] == t[|t| - 1];
      }
    }
  }

  lemma TriggerMeans(codes: seq<nat>, enabled: bool)
    requires codes != [] && 0 !in codes
    ensures TriggerOf(enabled, LastCode(codes[..|codes| - 1]), codes[|codes| - 1]) ==
              if !IsChange(codes) || !enabled then None
              else if codes[|codes| - 1] == STATUS_GOOD then Some(RecoverTasks) else Some(FailTasks)
  {
    if |codes| > 1 {
      assert codes[|codes| - 2] in codes;
    }
  }

  /** Fail and recover tasks strictly alternate exactly if an even number of changes is missed between
      each two task runs; and the last one run tells whether the service is good exactly if an even
      number was missed since. */
  lemma {:induction false} TriggersAlternate(codes: seq<nat>, on: seq<bool>)
    requires |codes| == |on| && 0 !in codes
    ensures var t := TriggersOf(codes, on);
      && (Alternate(t) <==> EvenGaps(codes, on))
      && (t != [] ==>
            ((t[|t| - 1] == RecoverTasks <==> LastCode(codes) == STATUS_GOOD) <==> Missed(codes, on) % 2 == 0))
  {
    if codes != [] {
      var n := |codes| - 1;
      TriggersAlternate(codes[..n], on[..n]);
      TriggerMeans(codes, on[n]);
      var t := TriggersOf(codes[..n], on[..n]);
      AlternateMore(t, if codes[n] == STATUS_GOOD then RecoverTasks else FailTasks);
      if n == 0 {
        assert codes[..n] == [];
      } else {
        assert LastCode(codes[..n]) == codes[n - 1];
      }
      hide TriggerOf, Alternate;
    }
  }

  /** With triggering enabled throughout nothing is missed, so the tasks alternate and the last one run
      tells whether the service is good. */
  lemma {:induction false} AlwaysOnAlternates(codes: seq<nat>, on: seq<bool>)
    requires |codes| == |on| && 0 !in codes && false !in on
    ensures Missed(codes, on) == 0
    ensures var t := TriggersOf(codes, on);
      Alternate(t) && (t != [] ==> (t[|t| - 1] == RecoverTasks <==> LastCode(codes) == STATUS_GOOD))
  {
    AlwaysOnMissesNone(codes, on);
    TriggersAlternate(codes, on);
  }

  lemma {:induction false} AlwaysOnMissesNone(codes: seq<nat>, on: seq<bool>)
    requires |codes| == |on| && false !in on
    ensures Missed(codes, on) == 0 && EvenGaps(codes, on)
  {
    if codes != [] {
      var n := |codes| - 1;
      assert on[n] in on;
      AlwaysOnMissesNone(codes[..n], on[..n]);
    }
  }

  /** How often the service changed between good and not good while triggering was enabled. */
  function Changes(codes: seq<nat>, on: seq<bool>): nat
    requires |codes| == |on|
  {
    if codes == [] then 0
    else
      var n := |codes| - 1;
      Changes(codes[..n], on[..n]) + if IsChange(codes) && on[n] then 1 else 0
  }

  /** One task run for every change while triggering is enabled, and for nothing else. */
  lemma {:induction false} TriggersCount(codes: seq<nat>, on: seq<bool>)
    requires |codes| == |on| && 0 !in codes
    ensures |TriggersOf(codes, on)| == Changes(codes, on)
  {
    if codes != [] {
      var n := |codes| - 1;
      TriggersCount(codes[..n], on[..n]);
      TriggerMeans(codes, on[n]);
    }
  }

  // ---- the buffer

  /** Row `k` of the history: the k-th batch of 30 samples. */
  ghost function Batch(taken: seq<Sample>, k: nat): seq<Sample>
    requires BUFFER_SIZE * (k + 1) <= |taken|
  {
    taken[BUFFER_SIZE * k..BUFFER_SIZE * (k + 1)]
  }

  ghost predicate Spaced(samples: seq<Sample>) {
    forall i, j :: 0 <= i < |samples| && j == i + 1 < |samples| ==> samples[j].time > samples[i].time + SAMPLE_GAP
  }

  lemma {:induction false} SpacedSpan(samples: seq<Sample>, k: nat)
    requires Spaced(samples) && 0 < k < |samples|
    ensures samples[k].time - samples[0].time > k * SAMPLE_GAP
  {
    if k > 1 {
      SpacedSpan(samples, k - 1);
    }
  }

  /** The buffer, the rows written from it, and (ghost) every sample taken so far. */
  datatype Buffer = Buffer(t: Option<int>, result: seq<Sample>, taken: seq<Sample>, flushed: seq<Current>)

  /** Every sample taken is in one of the batches flushed or still buffered; each flushed row
      summarises its 30 samples; samples of a batch are more than 30 seconds apart. */
  ghost predicate Accounted(b: Buffer) {
    && |b.taken| == BUFFER_SIZE * |b.flushed| + |b.result|
    && b.result == b.taken[BUFFER_SIZE * |b.flushed|..]
    && AllBatchesOk(b)
    && Spaced(b.result)
    && (b.result != [] ==> b.t == Some(b.result[|b.result| - 1].time + SAMPLE_GAP))
  }

  ghost predicate AllBatchesOk(b: Buffer) {
    forall k :: 0 <= k < |b.flushed| ==> BatchOk(b, k)
  }

  ghost predicate Conserves(b: Buffer) {
    |b.result| < BUFFER_SIZE && Accounted(b)
  }

  ghost predicate BatchOk(b: Buffer, k: nat)
    requires k < |b.flushed|
  {
    && BUFFER_SIZE * (k + 1) <= |b.taken|
    && Summarises(b.flushed[k], Batch(b.taken, k)) && Spaced(Batch(b.taken, k))
  }

  predicate Due(b: Buffer, now: int) {
    b.t.Some? && b.t.value < now
  }

  /** A report at `now`: the first report ever only starts the clock; later ones are sampled when the
      last sample is more than 30 seconds old. */
  ghost function Sampled(b: Buffer, s: Sample): Buffer {
    if Due(b, s.time) then Buffer(Some(s.time + SAMPLE_GAP), b.result + [s], b.taken + [s], b.flushed)
    else b.(t := if b.t.None? then Some(s.time) else b.t)
  }

  ghost function Flushed(b: Buffer, row: Current, now: int): Buffer {
    if |b.result| == BUFFER_SIZE then Buffer(Some(now), [], b.taken, b.flushed + [row]) else b
  }

  lemma BatchUnchanged(b: Buffer, next: Buffer, k: nat)
    requires k < |b.flushed| && BatchOk(b, k)
    requires b.flushed <= next.flushed && b.taken <= next.taken
    ensures BatchOk(next, k)
  {
    hide Summarises;
    assert Batch(next.taken, k) == Batch(b.taken, k);
  }

  lemma SpacedMore(samples: seq<Sample>, s: Sample)
    requires Spaced(samples)
    requires samples != [] ==> s.time > samples[|samples| - 1].time + SAMPLE_GAP
    ensures Spaced(samples + [s])
  {
  }

  lemma SuffixMore(result: seq<Sample>, taken: seq<Sample>, n: nat, s: Sample)
    requires n <= |taken| && result == taken[n..]
    ensures result + [s] == (taken + [s])[n..]
  {
  }

  lemma BatchesUnchanged(b: Buffer, next: Buffer)
    requires AllBatchesOk(b) && b.flushed == next.flushed && b.taken <= next.taken
    ensures AllBatchesOk(next)
  {
    hide BatchOk;
    forall k | 0 <= k < |b.flushed|
      ensures BatchOk(next, k)
    {
      BatchUnchanged(b, next, k);
    }
  }

  lemma SampledAccounted(b: Buffer, s: Sample)
    requires Accounted(b)
    ensures Accounted(Sampled(b, s))
  {
    hide AllBatchesOk, Spaced;
    BatchesUnchanged(b, Sampled(b, s));
    if Due(b, s.time) {
      SpacedMore(b.result, s);
      SuffixMore(b.result, b.taken, BUFFER_SIZE * |b.flushed|, s);
    }
  }

  lemma FlushedAccounted(m: Buffer, row: Current, now: int)
    requires Accounted(m) && Summarises(row, m.result)
    ensures Accounted(Flushed(m, row, now))
  {
    hide Summarises;
    if |m.result| == BUFFER_SIZE {
      var n, k := Flushed(m, row, now), |m.flushed|;
      forall j | 0 <= j < k
        ensures BatchOk(n, j)
      {
        BatchUnchanged(m, n, j);
      }
      assert Batch(n.taken, k) == m.result;
      assert BatchOk(n, k);
    }
  }

  lemma ReportConserves(b: Buffer, s: Sample, row: Current)
    requires Conserves(b) && Summarises(row, Sampled(b, s).result)
    ensures Conserves(Flushed(Sampled(b, s), row, s.time))
  {
    SampledAccounted(b, s);
    FlushedAccounted(Sampled(b, s), row, s.time);
    hide Accounted, Summarises;
  }

  /** Counting the samples: flushed rows and buffer together account for all of them, each row has
      up + down = 30, and its 30 samples span more than 870 seconds. */
  lemma ConservesMeans(b: Buffer, k: nat)
    requires Conserves(b) && k < |b.flushed|
    ensures b.flushed[k].up + b.flushed[k].down == BUFFER_SIZE
    ensures BUFFER_SIZE * (k + 1) <= |b.taken|
    ensures b.taken[BUFFER_SIZE * k + 29].time - b.taken[BUFFER_SIZE * k].time > 870 * SECOND
  {
    assert BatchOk(b, k);
    var batch := Batch(b.taken, k);
    UpsBound(batch);
    SpacedSpan(batch, 29);
  }

  function SumRows(rows: seq<Current>): nat {
    if rows == [] then 0 else SumRows(rows[..|rows| - 1]) + rows[|rows| - 1].up + rows[|rows| - 1].down
  }

  lemma {:induction false} SumRowsOfFull(rows: seq<Current>)
    requires forall k :: 0 <= k < |rows| ==> rows[k].up + rows[k].down == BUFFER_SIZE
    ensures SumRows(rows) == BUFFER_SIZE * |rows|
  {
    if rows != [] {
      SumRowsOfFull(rows[..|rows| - 1]);
    }
  }

  /** Nothing is lost or counted twice between the samples and the stored rows. */
  lemma SamplesAccountedFor(b: Buffer)
    requires Conserves(b)
    ensures SumRows(b.flushed) + |b.result| == |b.taken|
  {
    forall k | 0 <= k < |b.flushed|
      ensures b.flushed[k].up + b.flushed[k].down == BUFFER_SIZE
    {
      ConservesMeans(b, k);
    }
    SumRowsOfFull(b.flushed);
  }

  /** What a report does to the buffer, without the functions that compute it. */
  lemma ReportMeans(b: Buffer, s: Sample, row: Current)
    requires Conserves(b) && Summarises(row, Sampled(b, s).result)
    ensures Sampled(b, s).result == b.result + (if b.t.Some? && b.t.value < s.time then [s] else [])
    ensures var due, n := b.t.Some? && b.t.value < s.time, Flushed(Sampled(b, s), row, s.time);
      && n.taken == b.taken + (if due then [s] else [])
      && var buffered := b.result + (if due then [s] else []);
         && row.up == |SuccessfulOnes(buffered)| && row.up + row.down == |buffered|
         && n.result == (if |buffered| == 30 then [] else buffered)
         && n.flushed == b.flushed + (if |buffered| == 30 then [row] else [])
         && n.t == (if |buffered| == 30 then Some(s.time)
                    else if due then Some(s.time + 30_000_000_000)
                    else if b.t.None? then Some(s.time) else b.t)
  {
    UpsCounted(Sampled(b, s).result);
    assert b.result + [] == b.result && b.taken + [] == b.taken && b.flushed + [] == b.flushed;
    hide SuccessfulOnes, Ups;
  }

  /** The code says how many of the samples were up. */
  predicate CodeOf(code: nat, up: nat, n: nat) {
    && (code == 2 <==> n > 0 && up * 100 >= 96 * n)
    && (code == 3 <==> n > 0 && 81 * n <= up * 100 < 96 * n)
    && (code == 4 <==> n > 0 && n <= up * 100 < 81 * n)
    && (code == 1 <==> n == 0 || up * 100 < n)
  }

  lemma CodeMeans(c: Current)
    ensures CodeOf(GetStatusCode(UpPercent(c)), c.up, c.up + c.down)
  {
    StatusThresholds(c);
  }

  lemma TriggerKinds(enabled: bool, last: nat, code: nat)
    ensures TriggerOf(enabled, last, code) == Some(FailTasks) <==> enabled && last == 2 && code != 2
    ensures TriggerOf(enabled, last, code) == Some(RecoverTasks) <==> enabled && last != 0 && last != 2 && code == 2
  {
  }

  class Task {
    const tsdbEnabled: bool
    var lastStatus: nat
    var t: Option<int>
    var result: seq<Sample>
    var current: Current
    var rows: seq<Current>  // what was written to the history table
    ghost var taken: seq<Sample>
    ghost var flushed: seq<Current>
    ghost var codes: seq<nat>
    ghost var triggers: seq<Trigger>
    ghost var enabled: seq<bool>  // whether triggering was on in each report so far

    ghost function State(): Buffer
      reads this
    {
      Buffer(t, result, taken, flushed)
    }

    ghost predicate Valid()
      reads this
    {
      && Conserves(State())
      && rows == (if tsdbEnabled then [] else flushed)
      && lastStatus == LastCode(codes) && 0 !in codes
      && |enabled| == |codes| && triggers == TriggersOf(codes, enabled)
    }

    constructor (tsdb: bool)
      ensures Valid() && State() == Buffer(None, [], [], []) && codes == [] && triggers == [] && enabled == []
      ensures tsdbEnabled == tsdb
    {
      tsdbEnabled := tsdb;
      lastStatus, t, result, current, rows := 0, None, [], Current(0, 0, 0.0), [];
      taken, flushed, codes, triggers, enabled := [], [], [], [], [];
    }

    /** One report of the worker, after the day's counters: sample, recompute the status, flush a full
        buffer, run the status machine. */
    method Report(successful: bool, delay: real, now: int, enableTriggerTask: bool) returns (trigger: Option<Trigger>)
      requires Valid()
      modifies this
      ensures Valid()
      ensures var s := Sample(now, successful, delay);
        && Summarises(current, Sampled(old(State()), s).result)
        && State() == Flushed(Sampled(old(State()), s), current, now)
      ensures var due, s := old(t).Some? && old(t).value < now, Sample(now, successful, delay);
        && taken == old(taken) + (if due then [s] else [])
        && var buffered := old(result) + (if due then [s] else []);
           && current.up == |SuccessfulOnes(buffered)| && current.up + current.down == |buffered|
           && result == (if |buffered| == 30 then [] else buffered)
           && rows == old(rows) + (if |buffered| == 30 && !tsdbEnabled then [current] else [])
           && t == (if |buffered| == 30 then Some(now)
                    else if due then Some(now + 30_000_000_000)
                    else if old(t).None? then Some(now) else old(t))
      ensures lastStatus == LastCode(codes)
      ensures CodeOf(lastStatus, current.up, current.up + current.down)
      ensures trigger == Some(FailTasks) <==> enableTriggerTask && old(lastStatus) == 2 && lastStatus != 2
      ensures trigger == Some(RecoverTasks) <==>
                enableTriggerTask && old(lastStatus) != 0 && old(lastStatus) != 2 && lastStatus == 2
      ensures codes == old(codes) + [GetStatusCode(UpPercent(current))]
      ensures trigger == TriggerOf(enableTriggerTask, LastCode(old(codes)), LastCode(codes))
      ensures triggers == Emit(old(triggers), trigger)
      ensures enabled == old(enabled) + [enableTriggerTask]
    {
      hide Conserves, Summarises, GetStatusCode, UpPercent, TriggerOf, TriggersOf, Sampled, Flushed, SuccessfulOnes;
      hide CodeOf, LastCode, Emit;
      UpdateBuffer(Sample(now, successful, delay));
      var stateCode := GetStatusCode(UpPercent(current));
      StatusUnchanged(enableTriggerTask, lastStatus, UpPercent(current));
      trigger := NoteStatus(stateCode, enableTriggerTask);
      CodeMeans(current);
      TriggerKinds(enableTriggerTask, LastCode(old(codes)), stateCode);
    }

    /** Sampling, the current status, and the history row of a full buffer. */
    method UpdateBuffer(s: Sample)
      requires Conserves(State()) && rows == (if tsdbEnabled then [] else flushed)
      modifies this`t, this`result, this`current, this`rows, this`taken, this`flushed
      ensures Conserves(State()) && rows == (if tsdbEnabled then [] else flushed)
      ensures Summarises(current, Sampled(old(State()), s).result)
      ensures State() == Flushed(Sampled(old(State()), s), current, s.time)
      ensures var due := old(t).Some? && old(t).value < s.time;
        && taken == old(taken) + (if due then [s] else [])
        && var buffered := old(result) + (if due then [s] else []);
           && current.up == |SuccessfulOnes(buffered)| && current.up + current.down == |buffered|
           && result == (if |buffered| == 30 then [] else buffered)
           && rows == old(rows) + (if |buffered| == 30 && !tsdbEnabled then [current] else [])
           && t == (if |buffered| == 30 then Some(s.time)
                    else if due then Some(s.time + 30_000_000_000)
                    else if old(t).None? then Some(s.time) else old(t))
    {
      hide Conserves, Summarises, Sampled, Flushed, SuccessfulOnes;
      ghost var b := State();
      TakeSample(s);
      current := Summarise(result);
      ReportConserves(b, s, current);
      ReportMeans(b, s, current);
      FlushIfFull(s.time);
    }

    /** The status machine: tasks run when the service turns good or stops being good. */
    method NoteStatus(stateCode: nat, enableTriggerTask: bool) returns (trigger: Option<Trigger>)
      requires stateCode != 0 && lastStatus == LastCode(codes) && 0 !in codes
      requires stateCode == lastStatus ==> TriggerOf(enableTriggerTask, lastStatus, stateCode) == None
      requires |enabled| == |codes| && triggers == TriggersOf(codes, enabled)
      modifies this`lastStatus, this`codes, this`triggers, this`enabled
      ensures codes == old(codes) + [stateCode] && lastStatus == stateCode == LastCode(codes) && 0 !in codes
      ensures trigger == TriggerOf(enableTriggerTask, LastCode(old(codes)), stateCode)
      ensures enabled == old(enabled) + [enableTriggerTask] && |enabled| == |codes|
      ensures triggers == Emit(old(triggers), trigger) == TriggersOf(codes, enabled)
    {
      hide TriggerOf;
      trigger := None;
      if stateCode == STATUS_DOWN || stateCode != lastStatus {
        var last := lastStatus;
        lastStatus := stateCode;
        trigger := TriggerOf(enableTriggerTask, last, stateCode);
      }
      codes := codes + [stateCode];
      triggers := Emit(triggers, trigger);
      enabled := enabled + [enableTriggerTask];
      assert codes[..|codes| - 1] == old(codes) && enabled[..|codes| - 1] == old(enabled);
    }

    /** At most one sample per 30 seconds enters the buffer. */
    method TakeSample(s: Sample)
      modifies this`t, this`result, this`taken
      ensures State() == Sampled(old(State()), s)
    {
      if t.None? {
        t := Some(s.time);
      }
      if t.value < s.time {
        t := Some(s.time + SAMPLE_GAP);
        result := result + [s];
        taken := taken + [s];
      }
    }

    /** A full buffer becomes one history row, unless the time series database keeps the history. */
    method FlushIfFull(now: int)
      modifies this`t, this`result, this`rows, this`flushed
      ensures State() == Flushed(old(State()), current, now)
      ensures rows == old(rows) + if old(|result|) == 30 && !tsdbEnabled then [current] else []
      ensures old(rows == if tsdbEnabled then [] else flushed) ==> rows == if tsdbEnabled then [] else flushed
    {
      if |result| == BUFFER_SIZE {
        t := Some(now);
        if !tsdbEnabled {
          rows := rows + [current];
        }
        result := [];
        flushed := flushed + [current];
      }
    }
  }
}
