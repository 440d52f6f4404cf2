/** The buffered writer of the time series store as an interleaved protocol: any number of writing
    threads, the flush loop, callers of Flush, and Close (pkg/tsdb/writer.go:36-79, 141-176,
    pkg/tsdb/tsdb.go:76-92, 112-117). One step is what runs between two lock operations. */
module BufferedWriter {

  datatype MetricRow = MetricRow(name: string, timestamp: int, value: real)

  type Rows = seq<MetricRow>

  /** `Entered` and `Storing` hold the store's read lock; `Flushing` (TSDB.Flush) holds no lock. */
  datatype Thread = Idle | Entered(rows: Rows) | Storing(batch: Rows) | Flushing(batch: Rows) {
    predicate Reads() {
      Entered? || Storing?
    }

    function InFlight(): Rows {
      match this
      case Storing(b) => b
      case Flushing(b) => b
      case _ => []
    }
  }

  datatype Loop = Waiting | Holding(batch: Rows, last: bool) | Done {
    function InFlight(): Rows {
      if Holding? then batch else []
    }
  }

  /** `Stopping`: Close holds the write lock and has closed stopCh. */
  datatype Closer = Open | Stopping | Closed

  /** `accepted`: all rows whose write was not refused. */
  datatype State = State(
    maxSize: nat, buffer: Rows, stored: multiset<MetricRow>, threads: seq<Thread>,
    loop: Loop, closer: Closer, accepted: multiset<MetricRow>)

  datatype Step =
    | BeginWrite(t: nat, rows: Rows)
    | Append(t: nat)
    | AddRows(t: nat)
    | BeginFlush(t: nat)
    | Tick
    | StopSeen
    | LoopAddRows
    | BeginClose
    | FinishClose

  /** The critical section of write: the rows join the buffer; a full buffer is taken as one batch. */
  function Appended(maxSize: nat, buffer: Rows, rows: Rows): (Rows, Rows) {
    var all := buffer + rows;
    if |all| >= maxSize then ([], all) else (all, [])
  }

  predicate Enabled(s: State, step: Step) {
    match step
    case BeginWrite(t, _) => t < |s.threads| && s.threads[t].Idle? && !s.closer.Stopping?
    case Append(t) => t < |s.threads| && s.threads[t].Entered?
    case AddRows(t) => t < |s.threads| && (s.threads[t].Storing? || s.threads[t].Flushing?)
    case BeginFlush(t) => t < |s.threads| && s.threads[t].Idle?
    case Tick => s.loop.Waiting?
    case StopSeen => s.loop.Waiting? && !s.closer.Open?
    case LoopAddRows => s.loop.Holding?
    case BeginClose => s.closer.Open? && forall i :: 0 <= i < |s.threads| ==> !s.threads[i].Reads()
    case FinishClose => s.closer.Stopping? && s.loop.Done?
  }

  function Next(s: State, step: Step): State
    requires Enabled(s, step)
  {
    match step
    case BeginWrite(t, rows) =>
      if s.closer.Closed? then s else s.(threads := s.threads[t := Entered(rows)])
    case Append(t) =>
      var (buffer, batch) := Appended(s.maxSize, s.buffer, s.threads[t].rows);
      s.(buffer := buffer,
         accepted := s.accepted + multiset(s.threads[t].rows),
         threads := s.threads[t := if batch == [] then Idle else Storing(batch)])
    case AddRows(t) =>
      s.(stored := s.stored + multiset(s.threads[t].batch), threads := s.threads[t := Idle])
    case BeginFlush(t) =>
      if s.buffer == [] then s else s.(buffer := [], threads := s.threads[t := Flushing(s.buffer)])
    case Tick =>
      if s.buffer == [] then s else s.(buffer := [], loop := Holding(s.buffer, false))
    case StopSeen =>
      if s.buffer == [] then s.(loop := Done) else s.(buffer := [], loop := Holding(s.buffer, true))
    case LoopAddRows =>
      s.(stored := s.stored + multiset(s.loop.batch), loop := if s.loop.last then Done else Waiting)
    case BeginClose => s.(closer := Stopping)
    case FinishClose => s.(closer := Closed)
  }

  function Init(maxSize: nat, threads: nat): State {
    State(maxSize, [], multiset{}, seq(threads, _ => Idle), Waiting, Open, multiset{})
  }

  // ---- conservation

  ghost function InFlight(threads: seq<Thread>): multiset<MetricRow> {
    if threads == [] then multiset{} else InFlight(threads[1..]) + multiset(threads[0].InFlight())
  }

  /** What the threads other than `t` carry. */
  ghost function Others(threads: seq<Thread>, t: nat): multiset<MetricRow>
    requires t < |threads|
  {
    InFlight(threads[t := Idle])
  }

  lemma {:induction false} InFlightSet(threads: seq<Thread>, t: nat, x: Thread)
    requires t < |threads|
    ensures InFlight(threads[t := x]) == Others(threads, t) + multiset(x.InFlight())
  {
    if t == 0 {
      assert threads[t := x][1..] == threads[1..] == threads[t := Idle][1..];
      assert InFlight(threads[t := Idle]) == InFlight(threads[1..]) + multiset{};
    } else {
      assert threads[t := x][1..] == threads[1..][t - 1 := x];
      assert threads[t := Idle][1..] == threads[1..][t - 1 := Idle];
      InFlightSet(threads[1..], t - 1, x);
    }
  }

  lemma InFlightUpdate(threads: seq<Thread>, t: nat, x: Thread)
    requires t < |threads|
    ensures InFlight(threads) == Others(threads, t) + multiset(threads[t].InFlight())
    ensures InFlight(threads[t := x]) == Others(threads, t) + multiset(x.InFlight())
  {
    InFlightSet(threads, t, threads[t]);
    assert threads[t := threads[t]] == threads;
    InFlightSet(threads, t, x);
  }

  lemma {:induction false} InFlightIdle(threads: seq<Thread>)
    requires forall i :: 0 <= i < |threads| ==> threads[i].InFlight() == []
    ensures InFlight(threads) == multiset{}
  {
    if threads != [] {
      InFlightIdle(threads[1..]);
    }
  }

  ghost predicate Conserves(s: State) {
    s.accepted == s.stored + InFlight(s.threads) + multiset(s.loop.InFlight()) + multiset(s.buffer)
  }

  ghost predicate Ordered(s: State) {
    && |s.buffer| < s.maxSize
    && (!s.closer.Open? ==> forall i :: 0 <= i < |s.threads| ==> !s.threads[i].Reads())
    && (s.loop.Done? || (s.loop.Holding? && s.loop.last) ==> !s.closer.Open? && s.buffer == [])
    && (s.closer.Closed? ==> s.loop.Done?)
  }

  ghost predicate Valid(s: State) {
    Conserves(s) && Ordered(s)
  }

  lemma InitValid(maxSize: nat, threads: nat)
    requires maxSize > 0
    ensures Valid(Init(maxSize, threads))
  {
    InFlightIdle(Init(maxSize, threads).threads);
  }

  lemma AppendConserves(s: State, t: nat)
    requires Conserves(s) && Enabled(s, Append(t))
    ensures Conserves(Next(s, Append(t)))
  {
    var rows := s.threads[t].rows;
    var (buffer, batch) := Appended(s.maxSize, s.buffer, rows);
    InFlightUpdate(s.threads, t, if batch == [] then Idle else Storing(batch));
    assert multiset(s.buffer + rows) == multiset(s.buffer) + multiset(rows);
    hide InFlight, Others;
  }

  lemma AddRowsConserves(s: State, t: nat)
    requires Conserves(s) && Enabled(s, AddRows(t))
    ensures Conserves(Next(s, AddRows(t)))
  {
    InFlightUpdate(s.threads, t, Idle);
    hide InFlight, Others;
    var n, batch := Next(s, AddRows(t)), multiset(s.threads[t].batch);
    BatchStored(s.stored, Others(s.threads, t), batch, multiset(s.loop.InFlight()), multiset(s.buffer));
    assert n.stored == s.stored + batch && InFlight(n.threads) == Others(s.threads, t) + multiset([]);
  }

  lemma BatchStored(stored: multiset<MetricRow>, others: multiset<MetricRow>, batch: multiset<MetricRow>,
                    loop: multiset<MetricRow>, buffer: multiset<MetricRow>)
    ensures stored + (others + batch) + loop + buffer == (stored + batch) + (others + multiset{}) + loop + buffer
  {
  }

  lemma BeginFlushConserves(s: State, t: nat)
    requires Conserves(s) && Enabled(s, BeginFlush(t))
    ensures Conserves(Next(s, BeginFlush(t)))
  {
    InFlightUpdate(s.threads, t, Flushing(s.buffer));
    hide InFlight, Others;
  }

  lemma StepConserves(s: State, step: Step)
    requires Conserves(s) && Enabled(s, step)
    ensures Conserves(Next(s, step))
  {
    hide InFlight, Others;
    match step
    case BeginWrite(t, rows) => InFlightUpdate(s.threads, t, Entered(rows));
    case Append(t) => AppendConserves(s, t);
    case AddRows(t) => AddRowsConserves(s, t);
    case BeginFlush(t) => BeginFlushConserves(s, t);
    case Tick =>
    case StopSeen =>
    case LoopAddRows =>
    case BeginClose =>
    case FinishClose =>
  }

  lemma StepOrdered(s: State, step: Step)
    requires Ordered(s) && Enabled(s, step)
    ensures Ordered(Next(s, step))
  {
  }

  predicate Runnable(s: State, steps: seq<Step>)
    decreases steps
  {
    steps == [] || (Enabled(s, steps[0]) && Runnable(Next(s, steps[0]), steps[1..]))
  }

  function Run(s: State, steps: seq<Step>): State
    requires Runnable(s, steps)
    decreases steps
  {
    if steps == [] then s else Run(Next(s, steps[0]), steps[1..])
  }

  lemma {:induction false} RunValid(s: State, steps: seq<Step>)
    requires Valid(s) && Runnable(s, steps)
    ensures Valid(Run(s, steps))
    decreases steps
  {
    if steps != [] {
      StepConserves(s, steps[0]);
      StepOrdered(s, steps[0]);
      hide Valid, Next, Enabled;
      RunValid(Next(s, steps[0]), steps[1..]);
    }
  }

  /** In every reachable state accepted rows are stored, in flight or buffered, each exactly once, and
      the buffer is below its limit. */
  lemma RowsConserved(maxSize: nat, threads: nat, steps: seq<Step>)
    requires maxSize > 0 && Runnable(Init(maxSize, threads), steps)
    ensures var s := Run(Init(maxSize, threads), steps);
      && s.accepted == s.stored + InFlight(s.threads) + multiset(s.loop.InFlight()) + multiset(s.buffer)
      && s.stored <= s.accepted
      && |s.buffer| < s.maxSize
  {
    InitValid(maxSize, threads);
    RunValid(Init(maxSize, threads), steps);
    StepKeepsMaxSize(Init(maxSize, threads), steps);
  }

  lemma {:induction false} StepKeepsMaxSize(s: State, steps: seq<Step>)
    requires Runnable(s, steps)
    ensures Run(s, steps).maxSize == s.maxSize
    decreases steps
  {
    if steps != [] {
      StepKeepsMaxSize(Next(s, steps[0]), steps[1..]);
    }
  }

  /** Nothing is left lying: an entered write is taken in, whole and at the end of the buffer, and a full
      buffer leaves as one batch; a tick takes all that is buffered, and what the loop holds it stores. */
  lemma StepsProgress(s: State, t: nat)
    requires t < |s.threads|
    ensures s.threads[t].Entered? ==>
      var n, all := Next(s, Append(t)), s.buffer + s.threads[t].rows;
      && n.accepted == s.accepted + multiset(s.threads[t].rows)
      && (|all| < s.maxSize ==> n.buffer == all && n.threads[t].Idle?)
      && (|all| >= s.maxSize && all != [] ==> n.buffer == [] && n.threads[t] == Storing(all))
    ensures s.threads[t].Storing? || s.threads[t].Flushing? ==>
      var n := Next(s, AddRows(t));
      n.stored == s.stored + multiset(s.threads[t].batch) && n.threads[t].Idle?
    ensures s.threads[t].Idle? && s.buffer != [] ==>
      Next(s, BeginFlush(t)).threads[t] == Flushing(s.buffer) && Next(s, BeginFlush(t)).buffer == []
    ensures s.loop.Waiting? && s.buffer != [] ==>
      var n := Next(s, Tick);
      && n.buffer == [] && Enabled(n, LoopAddRows)
      && Next(n, LoopAddRows).stored == s.stored + multiset(s.buffer) && Next(n, LoopAddRows).loop.Waiting?
  {
  }

  /** A writer that finds the store open is never refused; a closed store refuses it. */
  lemma WriteEnters(s: State, t: nat, rows: Rows)
    requires t < |s.threads| && s.threads[t].Idle?
    ensures Enabled(s, BeginWrite(t, rows)) <==> s.closer != Stopping
    ensures s.closer == Open ==> Next(s, BeginWrite(t, rows)).threads[t] == Entered(rows)
    ensures s.closer == Closed ==> Next(s, BeginWrite(t, rows)) == s
  {
  }

  // ---- Close

  ghost predicate NoFlushInFlight(s: State) {
    forall i :: 0 <= i < |s.threads| ==> !s.threads[i].Flushing? || s.threads[i].batch == []
  }

  lemma {:induction false} InFlightEmpty(threads: seq<Thread>)
    requires InFlight(threads) == multiset{}
    ensures forall i :: 0 <= i < |threads| ==> threads[i].InFlight() == []
  {
    if threads != [] {
      assert multiset(threads[0].InFlight()) <= InFlight(threads);
      assert |multiset(threads[0].InFlight())| == 0;
      InFlightEmpty(threads[1..]);
    }
  }

  /** Once Close has returned, the rows not yet stored are those a caller of Flush still carries; so
      everything accepted is stored exactly if no Flush is in flight. */
  lemma ClosedMeans(s: State)
    requires Valid(s) && s.closer.Closed?
    ensures s.accepted == s.stored + InFlight(s.threads) && s.buffer == []
    ensures s.accepted == s.stored <==> NoFlushInFlight(s)
  {
    if NoFlushInFlight(s) {
      InFlightIdle(s.threads);
    }
    if s.accepted == s.stored {
      assert |s.accepted| == |s.stored| + |InFlight(s.threads)|;
      InFlightEmpty(s.threads);
    }
  }

  /** After Close no write is accepted and nothing new is taken in. */
  lemma {:induction false} ClosedRefuses(s: State, steps: seq<Step>)
    requires Valid(s) && s.closer.Closed? && Runnable(s, steps)
    ensures Run(s, steps).closer.Closed? && Run(s, steps).accepted == s.accepted
    ensures s.stored <= Run(s, steps).stored
    decreases steps
  {
    if steps != [] {
      StepConserves(s, steps[0]);
      StepOrdered(s, steps[0]);
      ClosedRefuses(Next(s, steps[0]), steps[1..]);
    }
  }

  /** Flush beside Close: the flusher takes the row, Close finds the buffer empty and returns, and the
      row is not stored yet. */
  lemma FlushBesideClose(row: MetricRow)
    ensures var first := [BeginWrite(0, [row]), Append(0), BeginFlush(0)];
      var second := [BeginClose, StopSeen, FinishClose];
      && Runnable(Init(2, 1), first) && Runnable(Run(Init(2, 1), first), second)
      && var s := Run(Run(Init(2, 1), first), second);
         s.closer.Closed? && s.accepted == multiset{row} && s.stored == multiset{}
  {
    var s3 := FlushTaken(row);
    FlushTakesRow(row);
    var s4 := Next(s3, BeginClose);
    var s5 := Next(s4, StopSeen);
    var s6 := Next(s5, FinishClose);
    assert Run(s5, [FinishClose]) == s6;
  }

  function FlushTaken(row: MetricRow): State {
    State(2, [], multiset{}, [Flushing([row])], Waiting, Open, multiset{row})
  }

  lemma FlushTakesRow(row: MetricRow)
    ensures var steps := [BeginWrite(0, [row]), Append(0), BeginFlush(0)];
      Runnable(Init(2, 1), steps) && Run(Init(2, 1), steps) == FlushTaken(row)
  {
    var s1 := Next(Init(2, 1), BeginWrite(0, [row]));
    assert s1.threads == [Entered([row])];
    var s2 := Next(s1, Append(0));
    assert s2.buffer == [row] && s2.threads == [Idle] && s2.accepted == multiset{row};
    var s3 := Next(s2, BeginFlush(0));
    assert s3 == FlushTaken(row);
    assert Run(s2, [BeginFlush(0)]) == s3;
  }

  // ---- the fields themselves, with AddRows and the final flush run in place

  class Tsdb {
    const maxSize: nat
    var buffer: Rows
    var stored: multiset<MetricRow>
    var closed: bool

    /** Everything the store has taken in. */
    ghost function Contents(): multiset<MetricRow>
      reads this
    {
      stored + multiset(buffer)
    }

    ghost predicate Valid()
      reads this
    {
      |buffer| < maxSize && (closed ==> buffer == [])
    }

    constructor (bufferSize: nat)
      requires bufferSize > 0
      ensures Valid() && !closed && Contents() == multiset{} && maxSize == bufferSize
    {
      maxSize := bufferSize;
      buffer, stored, closed := [], multiset{}, false;
    }

    /** The Write methods: a closed store refuses the rows. */
    method Write(rows: Rows) returns (ok: bool)
      requires Valid()
      modifies this`buffer, this`stored
      ensures Valid()
      ensures ok <==> !closed
      ensures Contents() == old(Contents()) + if ok then multiset(rows) else multiset{}
      ensures var all, full := old(buffer) + rows, |old(buffer)| + |rows| >= maxSize;
        ok ==>
          && buffer == (if full then [] else all)
          && stored == old(stored) + (if full then multiset(all) else multiset{})
      ensures !ok ==> buffer == old(buffer) && stored == old(stored)
    {
      if closed {
        return false;
      }
      buffer := buffer + rows;
      if |buffer| >= maxSize {
        var batch := buffer;
        buffer := [];
        stored := stored + multiset(batch);
      }
      return true;
    }

    method Flush()
      requires Valid()
      modifies this`buffer, this`stored
      ensures Valid() && buffer == [] && Contents() == old(Contents())
    {
      if |buffer| == 0 {
        return;
      }
      var rows := buffer;
      buffer := [];
      stored := stored + multiset(rows);
    }

    /** Close, with the loop's last flush inside: everything taken in is stored. */
    method Close()
      requires Valid()
      modifies this
      ensures Valid() && closed && stored == old(Contents())
    {
      if closed {
        return;
      }
      Flush();
      closed := true;
    }
  }
}
