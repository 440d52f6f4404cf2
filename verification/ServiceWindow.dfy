/** The 30-day availability window of one monitored service
    (service/singleton/servicesentinel.go): slot 29 is today, slot 0 is 29 days back. */
module ServiceWindow {
  import opened ServiceDays

  function Sum(s: seq<nat>): nat {
    if s == [] then 0 else s[0] + Sum(s[1..])
  }

  lemma {:induction false} SumUpdate(s: seq<nat>, i: nat, v: nat)
    requires i < |s|
    ensures Sum(s[i := v]) == Sum(s) - s[i] + v
  {
    if i == 0 {
      assert s[i := v][1..] == s[1..];
    } else {
      assert s[i := v][1..] == s[1..][i - 1 := v];
      SumUpdate(s[1..], i - 1, v);
    }
  }

  lemma {:induction false} SumAppend(s: seq<nat>, v: nat)
    ensures Sum(s + [v]) == Sum(s) + v
  {
    if s != [] {
      assert (s + [v])[1..] == s[1..] + [v];
      SumAppend(s[1..], v);
    }
  }

  lemma {:induction false} SumBounds(s: seq<nat>, i: nat)
    requires i < |s|
    ensures s[i] <= Sum(s)
  {
    if i > 0 {
      SumBounds(s[1..], i - 1);
    }
  }

  lemma {:induction false} SumZeros(s: seq<nat>)
    requires forall i :: 0 <= i < |s| ==> s[i] == 0
    ensures Sum(s) == 0
  {
    if s != [] {
      SumZeros(s[1..]);
    }
  }

  /** `days` ends with today. Days before the service existed count nothing. */
  function DayBack(days: seq<Day>, back: nat): Day {
    if back < |days| then days[|days| - 1 - back] else NO_DAY
  }

  /** The contents of one service's item, with today's counters. */
  datatype Board = Board(up: seq<nat>, down: seq<nat>, delay: seq<real>, totalUp: nat, totalDown: nat, today: Day) {
    ghost predicate Shape() {
      |up| == |down| == |delay| == WINDOW
    }

    ghost function Slot(i: nat): Day
      requires Shape() && i < WINDOW
    {
      Day(up[i], down[i], delay[i])
    }

    /** By how much the running totals exceed the slots they are meant to sum. */
    ghost function DriftUp(): int {
      totalUp - Sum(up)
    }

    ghost function DriftDown(): int {
      totalDown - Sum(down)
    }

    /** No total is ever less than its slots, so that no unsigned subtraction underflows. */
    ghost predicate Fit() {
      Shape() && DriftUp() >= 0 && DriftDown() >= 0
    }
  }

  /** Slot 29 is only brought up to date by LoadStats; all others always show their day. `days` ends
      with today. */
  ghost predicate Valid(b: Board, days: seq<Day>) {
    && b.Fit()
    && |days| > 0 && days[|days| - 1] == b.today
    && (forall i :: 0 <= i < WINDOW - 1 ==> b.Slot(i) == DayBack(days, WINDOW - 1 - i))
  }

  /** What a reader should see in the 30 slots. */
  ghost predicate ShowsWindow(b: Board, days: seq<Day>)
    requires b.Shape()
  {
    forall i :: 0 <= i < WINDOW ==> b.Slot(i) == DayBack(days, WINDOW - 1 - i)
  }

  ghost function Reported(b: Board, r: Result): Board {
    b.(today := b.today.Report(r.successful, r.delay))
  }

  ghost function Loaded(b: Board): Board
    requires b.Fit()
  {
    SumBounds(b.up, 29);
    SumBounds(b.down, 29);
    Board(b.up[29 := b.today.up], b.down[29 := b.today.down], b.delay[29 := b.today.delay],
          b.totalUp - b.up[29] + b.today.up, b.totalDown - b.down[29] + b.today.down, b.today)
  }

  ghost function Shifted(b: Board): Board
    requires b.Fit()
  {
    SumBounds(b.up, 0);
    SumBounds(b.down, 0);
    Board(b.up[1..] + [0], b.down[1..] + [0], b.delay[1..] + [0.0],
          b.totalUp - b.up[0], b.totalDown - b.down[0], NO_DAY)
  }

  ghost function AddToday(days: seq<Day>, r: Result): seq<Day>
    requires days != []
  {
    days[|days| - 1 := days[|days| - 1].Report(r.successful, r.delay)]
  }

  lemma ReportedIsValid(b: Board, days: seq<Day>, r: Result)
    requires Valid(b, days)
    ensures Valid(Reported(b, r), AddToday(days, r))
    ensures Reported(b, r).DriftUp() == b.DriftUp() && Reported(b, r).DriftDown() == b.DriftDown()
  {
    hide Day.Report;
    assert forall i :: 0 <= i < WINDOW ==> Reported(b, r).Slot(i) == b.Slot(i);
    assert forall k :: 0 < k ==> DayBack(AddToday(days, r), k) == DayBack(days, k);
  }

  lemma LoadedIsValid(b: Board, days: seq<Day>)
    requires Valid(b, days)
    ensures Valid(Loaded(b), days) && ShowsWindow(Loaded(b), days)
    ensures Loaded(b).DriftUp() == b.DriftUp() && Loaded(b).DriftDown() == b.DriftDown()
  {
    SumUpdate(b.up, 29, b.today.up);
    SumUpdate(b.down, 29, b.today.down);
    assert forall i :: 0 <= i < WINDOW - 1 ==> Loaded(b).Slot(i) == b.Slot(i);
    assert Loaded(b).Slot(29) == b.today;
  }

  lemma ShiftKeepsDrift(b: Board)
    requires b.Fit()
    ensures Shifted(b).DriftUp() == b.DriftUp() && Shifted(b).DriftDown() == b.DriftDown()
    ensures Shifted(b).Fit()
  {
    SumAppend(b.up[1..], 0);
    SumAppend(b.down[1..], 0);
  }

  /** The shift is the change of day exactly if slot 29 was up to date, that is, if no report came
      in after LoadStats. */
  lemma ShiftIsDayChange(b: Board, days: seq<Day>)
    requires Valid(b, days)
    ensures Valid(Shifted(b), days + [NO_DAY]) <==> b.Slot(29) == b.today
    ensures b.Slot(29) == b.today ==> ShowsWindow(Shifted(b), days + [NO_DAY])
  {
    ShiftKeepsDrift(b);
    var s, next := Shifted(b), days + [NO_DAY];
    assert forall i :: 0 <= i < WINDOW - 1 ==> s.Slot(i) == b.Slot(i + 1);
    assert forall k :: 0 < k ==> DayBack(next, k) == DayBack(days, k - 1);
    assert s.Slot(28) == b.Slot(29);
    assert DayBack(next, 1) == b.today;
  }

  // ---- whole runs

  datatype Step = Report(r: Result) | Load | Midnight

  ghost function Next(b: Board, step: Step): Board
    requires b.Fit()
  {
    match step
    case Report(r) => Reported(b, r)
    case Load => Loaded(b)
    case Midnight =>
      SumUpdate(b.up, 29, b.today.up);
      SumUpdate(b.down, 29, b.today.down);
      Shifted(Loaded(b))
  }

  ghost function NextDays(days: seq<Day>, step: Step): seq<Day>
    requires days != []
  {
    match step
    case Report(r) => AddToday(days, r)
    case Load => days
    case Midnight => days + [NO_DAY]
  }

  ghost function DaysAfter(days: seq<Day>, steps: seq<Step>): (r: seq<Day>)
    requires days != []
    ensures r != []
    decreases steps
  {
    if steps == [] then days else DaysAfter(NextDays(days, steps[0]), steps[1..])
  }

  ghost function Run(b: Board, days: seq<Day>, steps: seq<Step>): Board
    requires Valid(b, days)
    decreases steps
  {
    if steps == [] then b
    else
      StepIsValid(b, days, steps[0]);
      Run(Next(b, steps[0]), NextDays(days, steps[0]), steps[1..])
  }

  lemma StepIsValid(b: Board, days: seq<Day>, step: Step)
    requires Valid(b, days)
    ensures Valid(Next(b, step), NextDays(days, step))
    ensures Next(b, step).DriftUp() == b.DriftUp() && Next(b, step).DriftDown() == b.DriftDown()
  {
    match step
    case Report(r) => ReportedIsValid(b, days, r);
    case Load => LoadedIsValid(b, days);
    case Midnight =>
      LoadedIsValid(b, days);
      ShiftIsDayChange(Loaded(b), days);
      ShiftKeepsDrift(Loaded(b));
  }

  /** After any run, loading shows in slot i the day 29-i days back, and each total is the sum of
      its slots plus the drift the service started with. */
  lemma {:induction false} WindowAfterRun(b: Board, days: seq<Day>, steps: seq<Step>)
    requires Valid(b, days)
    ensures var e := Run(b, days, steps);
      && Valid(e, DaysAfter(days, steps))
      && ShowsWindow(Loaded(e), DaysAfter(days, steps))
      && Loaded(e).totalUp == Sum(Loaded(e).up) + b.DriftUp()
      && Loaded(e).totalDown == Sum(Loaded(e).down) + b.DriftDown()
    decreases steps
  {
    hide ShowsWindow, Next, NextDays, Loaded;
    if steps == [] {
      LoadedAfterRun(b, days);
    } else {
      StepIsValid(b, days, steps[0]);
      WindowAfterRun(Next(b, steps[0]), NextDays(days, steps[0]), steps[1..]);
    }
  }

  lemma LoadedAfterRun(b: Board, days: seq<Day>)
    requires Valid(b, days)
    ensures ShowsWindow(Loaded(b), days)
    ensures Loaded(b).totalUp == Sum(Loaded(b).up) + b.DriftUp()
    ensures Loaded(b).totalDown == Sum(Loaded(b).down) + b.DriftDown()
  {
    LoadedIsValid(b, days);
  }

  // ---- the two halves of midnight as separate steps

  /** LoadStats and the shift as they are: two critical sections, with reports in between. */
  datatype Half = Took(r: Result) | Loads | Shifts

  ghost function HalfNext(b: Board, half: Half): Board
    requires b.Fit()
  {
    match half
    case Took(r) => Reported(b, r)
    case Loads => Loaded(b)
    case Shifts => Shifted(b)
  }

  ghost function HalfDays(days: seq<Day>, half: Half): seq<Day>
    requires days != []
  {
    match half
    case Took(r) => AddToday(days, r)
    case Loads => days
    case Shifts => days + [NO_DAY]
  }

  /** A shift that finds slot 29 up to date. */
  ghost predicate Timely(b: Board, half: Half)
    requires b.Fit()
  {
    half.Shifts? ==> b.Slot(29) == b.today
  }

  lemma HalfIsFit(b: Board, half: Half)
    requires b.Fit()
    ensures var n := HalfNext(b, half);
      n.Fit() && n.DriftUp() == b.DriftUp() && n.DriftDown() == b.DriftDown()
  {
    match half
    case Took(r) =>
    case Loads =>
      SumUpdate(b.up, 29, b.today.up);
      SumUpdate(b.down, 29, b.today.down);
    case Shifts => ShiftKeepsDrift(b);
  }

  ghost predicate AllTimely(b: Board, halves: seq<Half>)
    requires b.Fit()
    decreases halves
  {
    HalfIsFit(b, if halves == [] then Loads else halves[0]);
    halves == [] || (Timely(b, halves[0]) && AllTimely(HalfNext(b, halves[0]), halves[1..]))
  }

  ghost predicate AlwaysValid(b: Board, days: seq<Day>, halves: seq<Half>)
    requires b.Fit() && days != []
    decreases halves
  {
    HalfIsFit(b, if halves == [] then Loads else halves[0]);
    && Valid(b, days)
    && (halves == [] || AlwaysValid(HalfNext(b, halves[0]), HalfDays(days, halves[0]), halves[1..]))
  }

  lemma HalfValidIffTimely(b: Board, days: seq<Day>, half: Half)
    requires Valid(b, days)
    ensures HalfNext(b, half).Fit() && (Valid(HalfNext(b, half), HalfDays(days, half)) <==> Timely(b, half))
  {
    HalfIsFit(b, half);
    match half
    case Took(r) => ReportedIsValid(b, days, r);
    case Loads => LoadedIsValid(b, days);
    case Shifts => ShiftIsDayChange(b, days);
  }

  /** In every run the window is right in every state exactly if every shift finds slot 29 up to date. */
  lemma {:induction false} WindowIffTimely(b: Board, days: seq<Day>, halves: seq<Half>)
    requires Valid(b, days)
    ensures AlwaysValid(b, days, halves) <==> AllTimely(b, halves)
    decreases halves
  {
    if halves != [] {
      HalfValidIffTimely(b, days, halves[0]);
      var n, more := HalfNext(b, halves[0]), HalfDays(days, halves[0]);
      hide HalfNext, HalfDays, Timely, Valid, Board.Fit;
      if Timely(b, halves[0]) {
        WindowIffTimely(n, more, halves[1..]);
      } else {
        NotValidNow(n, more, halves[1..]);
      }
    }
  }

  lemma NotValidNow(b: Board, days: seq<Day>, halves: seq<Half>)
    requires b.Fit() && days != [] && !Valid(b, days)
    ensures !AlwaysValid(b, days, halves)
  {
  }

  /** What the window has seen of the days: a shift closes the day with what slot 29 shows. */
  ghost function SeenDays(b: Board, days: seq<Day>, half: Half): seq<Day>
    requires b.Fit() && days != []
  {
    match half
    case Took(r) => AddToday(days, r)
    case Loads => days
    case Shifts => days[|days| - 1 := b.Slot(29)] + [NO_DAY]
  }

  lemma SeenIsValid(b: Board, days: seq<Day>, half: Half)
    requires Valid(b, days)
    ensures HalfNext(b, half).Fit() && Valid(HalfNext(b, half), SeenDays(b, days, half))
  {
    match half
    case Took(r) => ReportedIsValid(b, days, r);
    case Loads => LoadedIsValid(b, days);
    case Shifts =>
      ShiftKeepsDrift(b);
      var s, next := Shifted(b), SeenDays(b, days, half);
      assert forall i :: 0 <= i < WINDOW - 1 ==> s.Slot(i) == b.Slot(i + 1);
      assert forall k :: 1 < k ==> DayBack(next, k) == DayBack(days, k - 1);
      assert DayBack(next, 1) == b.Slot(29);
  }

  ghost function HalfRun(b: Board, halves: seq<Half>): (r: Board)
    requires b.Fit()
    ensures r.Fit()
    decreases halves
  {
    if halves == [] then b
    else
      HalfIsFit(b, halves[0]);
      HalfRun(HalfNext(b, halves[0]), halves[1..])
  }

  ghost function SeenAfter(b: Board, days: seq<Day>, halves: seq<Half>): (r: seq<Day>)
    requires b.Fit() && days != []
    ensures r != []
    decreases halves
  {
    if halves == [] then days
    else
      HalfIsFit(b, halves[0]);
      SeenAfter(HalfNext(b, halves[0]), SeenDays(b, days, halves[0]), halves[1..])
  }

  /** In every run, timely or not: each slot shows its day as the last LoadStats before that day's shift
      found it, and nothing else is lost; the drift of the totals never changes. */
  lemma {:induction false} WindowShowsSeen(b: Board, days: seq<Day>, halves: seq<Half>)
    requires Valid(b, days)
    ensures Valid(HalfRun(b, halves), SeenAfter(b, days, halves))
    ensures HalfRun(b, halves).DriftUp() == b.DriftUp() && HalfRun(b, halves).DriftDown() == b.DriftDown()
    decreases halves
  {
    if halves != [] {
      SeenIsValid(b, days, halves[0]);
      HalfIsFit(b, halves[0]);
      hide HalfNext, SeenDays, Valid, Board.Fit, Board.DriftUp, Board.DriftDown;
      WindowShowsSeen(HalfNext(b, halves[0]), SeenDays(b, days, halves[0]), halves[1..]);
    }
  }

  /** What that means for reports that come in between the two halves: the day is closed without them. */
  lemma {:induction false} LateReportsAreLost(b: Board, days: seq<Day>, reports: seq<Result>)
    requires Valid(b, days)
    ensures var halves := [Loads] + seq(|reports|, i requires 0 <= i < |reports| => Took(reports[i])) + [Shifts];
      SeenAfter(b, days, halves) == days + [NO_DAY]
  {
    LoadedIsValid(b, days);
    var took: seq<Half> := seq(|reports|, i requires 0 <= i < |reports| => Took(reports[i]));
    var halves := [Loads] + took + [Shifts];
    assert halves[1..] == took + [Shifts];
    assert SeenAfter(b, days, halves) == SeenAfter(Loaded(b), days, took + [Shifts]);
    TookThenShift(Loaded(b), days, reports);
  }

  lemma {:induction false} TookThenShift(b: Board, days: seq<Day>, reports: seq<Result>)
    requires b.Fit() && days != []
    ensures var took := seq(|reports|, i requires 0 <= i < |reports| => Took(reports[i]));
      SeenAfter(b, days, took + [Shifts]) == days[|days| - 1 := b.Slot(29)] + [NO_DAY]
    decreases reports
  {
    var took: seq<Half> := seq(|reports|, i requires 0 <= i < |reports| => Took(reports[i]));
    if reports == [] {
      assert (took + [Shifts])[1..] == [];
      HalfIsFit(b, Shifts);
    } else {
      var r := reports[0];
      HalfIsFit(b, Took(r));
      TookThenShift(Reported(b, r), AddToday(days, r), reports[1..]);
      var rest: seq<Half> := seq(|reports| - 1, i requires 0 <= i < |reports| - 1 => Took(reports[1..][i]));
      assert (took + [Shifts])[1..] == rest + [Shifts];
    }
  }

  // ---- services restored after a restart

  /** Today's counts from before the restart: added to the totals, while slot 29 stays empty. */
  ghost function TodayLoaded(b: Board, t: Day): Board {
    b.(totalUp := b.totalUp + t.up, totalDown := b.totalDown + t.down, today := t)
  }

  /** A service restored with the right earlier days and today's counts `t` shows the window like any
      other from then on, and its totals exceed the slots by `t` for good. */
  lemma RestoredAfterRun(b: Board, earlier: seq<Day>, t: Day, steps: seq<Step>)
    requires Valid(b, earlier + [NO_DAY]) && b.DriftUp() == 0 && b.DriftDown() == 0
    ensures var r, days := TodayLoaded(b, t), earlier + [t];
      && Valid(r, days)
      && Valid(Run(r, days, steps), DaysAfter(days, steps))
      && var e := Loaded(Run(r, days, steps));
         && ShowsWindow(e, DaysAfter(days, steps))
         && e.totalUp == Sum(e.up) + t.up && e.totalDown == Sum(e.down) + t.down
  {
    var r, days := TodayLoaded(b, t), earlier + [t];
    forall i | 0 <= i < WINDOW - 1
      ensures r.Slot(i) == DayBack(days, WINDOW - 1 - i)
    {
      assert b.Slot(i) == DayBack(earlier + [NO_DAY], WINDOW - 1 - i);
    }
    WindowAfterRun(r, days, steps);
  }

  lemma StoredDaysShown(b: Board, rows: seq<HistoryRow>)
    requires b.Fit() && b.today == NO_DAY
    requires forall i :: 0 <= i < WINDOW - 1 ==> b.Slot(i) == StoredDay(rows, WINDOW - 1 - i)
    ensures Valid(b, StoredDays(rows) + [NO_DAY])
  {
    var days := StoredDays(rows) + [NO_DAY];
    forall i | 0 <= i < WINDOW - 1
      ensures b.Slot(i) == DayBack(days, WINDOW - 1 - i)
    {
      assert days[i] == StoredDay(rows, WINDOW - 1 - i);
    }
  }

  // ---- slots filled from the time series store

  lemma SlotsShown(b: Board, days: seq<Day>)
    requires b.Fit() && b.today == NO_DAY && |days| == WINDOW - 1
    ensures Valid(b, days + [NO_DAY]) <==> forall i :: 0 <= i < WINDOW - 1 ==> b.Slot(i) == days[i]
  {
    var all := days + [NO_DAY];
    assert forall i :: 0 <= i < WINDOW - 1 ==> DayBack(all, WINDOW - 1 - i) == days[i];
  }

  /** The 29 days before yesterday, of which the earliest was not read but for its last instant. */
  function LateDays(status: seq<Point>, delays: seq<Point>): seq<Day> {
    seq(WINDOW - 1, i requires 0 <= i < WINDOW - 1 => QueriedDay(status, delays, WINDOW, WINDOW - i))
  }

  /** Each slot but the first holds what the one before it should. */
  lemma LateIsRight(b: Board, right: seq<Day>)
    requires b.Shape() && |right| == WINDOW - 1
    requires forall i :: 1 <= i < WINDOW - 1 ==> b.Slot(i) == right[i - 1]
    ensures (forall i :: 0 <= i < WINDOW - 1 ==> b.Slot(i) == right[i]) <==> (forall d :: d in right ==> d == b.Slot(0))
  {
    if forall i :: 0 <= i < WINDOW - 1 ==> b.Slot(i) == right[i] {
      for i := 0 to WINDOW - 1
        invariant forall k :: 0 <= k < i ==> right[k] == b.Slot(0)
      {
        if i > 0 {
          assert right[i] == b.Slot(i) == right[i - 1];
        }
      }
    } else {
      var i :| 0 <= i < WINDOW - 1 && b.Slot(i) != right[i];
      assert right[i] in right && (i > 0 ==> right[i - 1] in right);
    }
  }

  /** Slots filled from the time series store show each day one day late. So they are right exactly if
      every day looks like slot 0. */
  lemma MeasuredIsDayLate(b: Board, status: seq<Point>, delays: seq<Point>)
    requires b.Fit() && b.today == NO_DAY
    requires forall i :: 0 <= i < WINDOW - 1 ==> b.Slot(i) == QueriedDay(status, delays, WINDOW, WINDOW - i)
    ensures forall i :: 1 <= i < WINDOW - 1 ==> b.Slot(i) == MeasuredDays(status, delays)[i - 1]
    ensures Valid(b, MeasuredDays(status, delays) + [NO_DAY]) <==>
            forall d :: d in MeasuredDays(status, delays) ==> d == b.Slot(0)
  {
    var right := MeasuredDays(status, delays);
    forall i | 1 <= i < WINDOW - 1
      ensures b.Slot(i) == right[i - 1]
    {
      QueriedDayMeans(status, delays, WINDOW, WINDOW - i);
    }
    hide MeasuredDay, QueriedDay, Valid, MeasuredDays;
    SlotsShown(b, right);
    LateIsRight(b, right);
  }

  /** With no point at the very midnight where the query begins, slot 0 is empty, and the slots are right
      exactly if there was nothing to show on any of the 29 days. */
  lemma MeasuredWindowIsEmpty(b: Board, status: seq<Point>, delays: seq<Point>)
    requires b.Fit() && b.today == NO_DAY
    requires forall i :: 0 <= i < WINDOW - 1 ==> b.Slot(i) == QueriedDay(status, delays, WINDOW, WINDOW - i)
    requires var start := (WINDOW - 1) * DAY; NoneIn(status, start, start) && NoneIn(delays, start, start)
    ensures b.Slot(0) == NO_DAY
    ensures Valid(b, MeasuredDays(status, delays) + [NO_DAY]) <==>
            forall d :: d in MeasuredDays(status, delays) ==> d == NO_DAY
  {
    hide Valid, MeasuredDays, MeasuredDay;
    MeasuredIsDayLate(b, status, delays);
    QueriedDayMeans(status, delays, WINDOW, WINDOW);
  }

  // ---- slots filled from the database

  /** The first 29 slots hold the sums and mean delays of the rows dated on their day. */
  ghost predicate Merged(b: Board, counts: seq<nat>, rows: seq<HistoryRow>) {
    && b.Shape() && |counts| == WINDOW
    && b.Slot(29) == NO_DAY
    && forall i :: 0 <= i < 29 ==>
         && b.Slot(i).up == RowsUp(rows, 29 - i)
         && b.Slot(i).down == RowsDown(rows, 29 - i)
         && counts[i] == RowsCount(rows, 29 - i)
         && Weighted(b.Slot(i).delay, counts[i]) == RowsDelay(rows, 29 - i)
         && (counts[i] == 0 ==> b.Slot(i).delay == 0.0)
  }

  /** `next` is `b` with one more row merged into slot `i`. */
  ghost predicate MergesRow(b: Board, next: Board, i: nat, n: nat, mh: HistoryRow)
    requires b.Shape() && next.Shape() && i < WINDOW
  {
    && (forall k :: 0 <= k < WINDOW && k != i ==> next.Slot(k) == b.Slot(k))
    && next.Slot(i).up == b.Slot(i).up + mh.up
    && next.Slot(i).down == b.Slot(i).down + mh.down
    && Weighted(next.Slot(i).delay, n + 1) == Weighted(b.Slot(i).delay, n) + mh.avgDelay
  }

  lemma MergedNothing(b: Board, counts: seq<nat>)
    requires b.Shape() && ShowsWindow(b, [NO_DAY])
    requires |counts| == WINDOW && forall i :: 0 <= i < WINDOW ==> counts[i] == 0
    ensures Merged(b, counts, [])
  {
    assert forall i :: 0 <= i < WINDOW ==> b.Slot(i) == NO_DAY;
  }

  lemma MergedMore(b: Board, next: Board, counts: seq<nat>, rows: seq<HistoryRow>, k: nat, i: nat)
    requires k < |rows| && Merged(b, counts, rows[..k])
    requires next.Shape() && i == 29 - DaysBack(rows[k].hours) && MergesRow(b, next, i, counts[i], rows[k])
    ensures Merged(next, counts[i := counts[i] + 1], rows[..k + 1])
  {
    hide Weighted;
    assert rows[..k + 1][..k] == rows[..k];
  }

  lemma MergedSkip(b: Board, counts: seq<nat>, rows: seq<HistoryRow>, k: nat)
    requires k < |rows| && Merged(b, counts, rows[..k]) && DaysBack(rows[k].hours) > 29
    ensures Merged(b, counts, rows[..k + 1])
  {
    hide Weighted;
    assert rows[..k + 1][..k] == rows[..k];
  }

  /** A single row makes the entry of its day: yesterday's, up to 24 hours before midnight, goes to slot 28. */
  lemma OneRow(rows: seq<HistoryRow>)
    requires |rows| == 1 && rows[0].hours < 29 * 24
    ensures var i := 28 - rows[0].hours / 24;
      0 <= i < 29 && StoredDay(rows, 29 - i) == Day(rows[0].up, rows[0].down, rows[0].avgDelay)
  {
    var i := 28 - rows[0].hours / 24;
    RowCounts([], rows[0], 29 - i);
    assert [] + [rows[0]] == rows;
  }

  lemma MergedShown(b: Board, counts: seq<nat>, rows: seq<HistoryRow>)
    requires Merged(b, counts, rows) && b.Fit() && b.today == NO_DAY
    ensures Valid(b, StoredDays(rows) + [NO_DAY])
    ensures forall i :: 0 <= i < 29 ==> b.Slot(i) == StoredDay(rows, 29 - i)
  {
    forall i | 0 <= i < 29
      ensures b.Slot(i) == StoredDay(rows, 29 - i)
    {
      MeanOf(b.Slot(i).delay, counts[i], RowsDelay(rows, 29 - i));
    }
    hide StoredDay, Merged;
    StoredDaysShown(b, rows);
  }

  lemma OldestInTotals(b: Board)
    requires b.Fit()
    ensures b.up[0] <= b.totalUp && b.down[0] <= b.totalDown
  {
    SumBounds(b.up, 0);
    SumBounds(b.down, 0);
  }

  class ServiceItem {
    var up: array<nat>
    var down: array<nat>
    var delay: array<real>
    var totalUp: nat
    var totalDown: nat
    var today: Day

    ghost function State(): Board
      reads this, up, down, delay
    {
      Board(up[..], down[..], delay[..], totalUp, totalDown, today)
    }

    ghost predicate Sound()
      reads this, up, down, delay
    {
      up != down && State().Fit()
    }

    /** The branch of Update that starts a new service. */
    constructor ()
      ensures Sound() && fresh(up) && fresh(down) && fresh(delay)
      ensures Valid(State(), [NO_DAY]) && ShowsWindow(State(), [NO_DAY])
      ensures State().DriftUp() == 0 && State().DriftDown() == 0
    {
      up := new nat[WINDOW](_ => 0);
      down := new nat[WINDOW](_ => 0);
      delay := new real[WINDOW](_ => 0.0);
      totalUp, totalDown, today := 0, 0, NO_DAY;
      new;
      SumZeros(up[..]);
      SumZeros(down[..]);
    }

    /** One report of today. */
    method Report(r: Result)
      requires Sound()
      modifies this`today
      ensures Sound() && State() == Reported(old(State()), r)
      ensures today.up == old(today).up + (if r.successful then 1 else 0)
      ensures today.down == old(today).down + (if r.successful then 0 else 1)
      ensures today.delay * today.up as real ==
              old(today).delay * old(today).up as real + (if r.successful then r.delay else 0.0)
    {
      if r.successful {
        today := Day(today.up + 1, today.down, (today.delay * today.up as real + r.delay) / (today.up + 1) as real);
      } else {
        today := Day(today.up, today.down + 1, today.delay);
      }
    }

    /** Brings slot 29 up to date. */
    method LoadStats()
      requires Sound()
      modifies this`totalUp, this`totalDown, up, down, delay
      ensures Sound() && State() == Loaded(old(State()))
      ensures up[29] == today.up && down[29] == today.down && delay[29] == today.delay && today == old(today)
      ensures totalUp == old(totalUp) - old(up[29]) + today.up
      ensures totalDown == old(totalDown) - old(down[29]) + today.down
      ensures forall k :: 0 <= k < 29 ==> up[k] == old(up[k]) && down[k] == old(down[k]) && delay[k] == old(delay[k])
    {
      SumBounds(up[..], 29);
      SumBounds(down[..], 29);
      SumUpdate(up[..], 29, today.up);
      SumUpdate(down[..], 29, today.down);
      totalUp := totalUp - up[29];
      totalDown := totalDown - down[29];
      totalUp := totalUp + today.up;
      totalDown := totalDown + today.down;
      up[29] := today.up;
      down[29] := today.down;
      delay[29] := today.delay;
      assert up[..] == old(up[..])[29 := today.up];
      assert down[..] == old(down[..])[29 := today.down];
      assert delay[..] == old(delay[..])[29 := today.delay];
    }

    /** The locked half of the midnight refresh: every slot moves one day back, today restarts. */
    method Shift()
      requires Sound()
      modifies this`totalUp, this`totalDown, this`today, up, down, delay
      ensures Sound() && State() == Shifted(old(State()))
      ensures up[..] == old(up[..])[1..] + [0] && down[..] == old(down[..])[1..] + [0]
      ensures delay[..] == old(delay[..])[1..] + [0.0] && today == Day(0, 0, 0.0)
      ensures totalUp == old(totalUp) - old(up[0]) && totalDown == old(totalDown) - old(down[0])
    {
      ShiftKeepsDrift(State());
      ShiftSlots();
      hide Sum, Board.DriftUp, Board.DriftDown, Board.Fit;
      up[29] := 0;
      down[29] := 0;
      delay[29] := 0.0;
      today := NO_DAY;
      assert up[..] == up[..29] + [0] && down[..] == down[..29] + [0] && delay[..] == delay[..29] + [0.0];
    }

    /** The shifting loop; the day that leaves the window is taken off the totals first. */
    method ShiftSlots()
      requires Sound()
      modifies this`totalUp, this`totalDown, up, down, delay
      ensures up[..29] == old(up[..])[1..] && down[..29] == old(down[..])[1..] && delay[..29] == old(delay[..])[1..]
      ensures totalUp == old(totalUp) - old(up[0]) && totalDown == old(totalDown) - old(down[0])
    {
      OldestInTotals(State());
      assert up[..][0] == up[0] && down[..][0] == down[0];
      hide Sum, Board.Fit, Board.DriftUp, Board.DriftDown, ServiceItem.Sound, ServiceItem.State;
      for i := 0 to WINDOW - 1
        invariant forall k :: 0 <= k < i ==> up[k] == old(up[k + 1])
        invariant forall k :: 0 <= k < i ==> down[k] == old(down[k + 1])
        invariant forall k :: 0 <= k < i ==> delay[k] == old(delay[k + 1])
        invariant forall k :: i <= k < WINDOW ==> up[k] == old(up[k])
        invariant forall k :: i <= k < WINDOW ==> down[k] == old(down[k])
        invariant forall k :: i <= k < WINDOW ==> delay[k] == old(delay[k])
        invariant totalUp == old(totalUp) - (if i > 0 then old(up[0]) else 0)
        invariant totalDown == old(totalDown) - (if i > 0 then old(down[0]) else 0)
      {
        if i == 0 {
          totalDown := totalDown - down[i];
          totalUp := totalUp - up[i];
        }
        MoveSlot(i);
      }
    }

    method MoveSlot(i: nat)
      requires up != down && up.Length == down.Length == delay.Length == WINDOW && i < WINDOW - 1
      modifies up, down, delay
      ensures up[i] == old(up[i + 1]) && forall k :: 0 <= k < WINDOW && k != i ==> up[k] == old(up[k])
      ensures down[i] == old(down[i + 1]) && forall k :: 0 <= k < WINDOW && k != i ==> down[k] == old(down[k])
      ensures delay[i] == old(delay[i + 1]) && forall k :: 0 <= k < WINDOW && k != i ==> delay[k] == old(delay[k])
    {
      up[i], down[i], delay[i] := up[i + 1], down[i + 1], delay[i + 1];
    }

    /** refreshMonthlyServiceStatus with nothing in between its two halves. */
    method RefreshMonthlyServiceStatus()
      requires Sound()
      modifies this`totalUp, this`totalDown, this`today, up, down, delay
      ensures Sound() && State() == Next(old(State()), Midnight)
    {
      LoadStats();
      Shift();
    }

    /** loadMonthlyStatusFromDB: earlier days from their stored rows; a row outside the window is
        skipped. The totals stay the sum of the slots. */
    method LoadMonthlyStatusFromDB(rows: seq<HistoryRow>)
      requires Sound() && ShowsWindow(State(), [NO_DAY]) && today == NO_DAY
      modifies this`totalUp, this`totalDown, up, down, delay
      ensures Sound() && Valid(State(), StoredDays(rows) + [NO_DAY])
      ensures forall i :: 0 <= i < 29 ==> State().Slot(i) == StoredDay(rows, 29 - i)
      ensures |rows| == 1 && rows[0].hours < 29 * 24 ==>
                State().Slot(28 - rows[0].hours / 24) == Day(rows[0].up, rows[0].down, rows[0].avgDelay)
      ensures State().DriftUp() == old(State().DriftUp()) && State().DriftDown() == old(State().DriftDown())
    {
      var delayCount := new nat[WINDOW](_ => 0);
      assert Merged(State(), delayCount[..], rows[..0]) by { MergedNothing(State(), delayCount[..]); }
      for k := 0 to |rows|
        invariant Sound() && today == old(today)
        invariant State().DriftUp() == old(State().DriftUp()) && State().DriftDown() == old(State().DriftDown())
        invariant Merged(State(), delayCount[..], rows[..k])
      {
        hide Merged, MergesRow, Sum;
        var mh := rows[k];
        ghost var b, counts := State(), delayCount[..];
        var dayIndex := 28 - mh.hours / 24;
        if dayIndex < 0 {
          MergedSkip(b, counts, rows, k);
          continue;
        }
        AddRow(dayIndex, delayCount[dayIndex], mh);
        MergedMore(b, State(), counts, rows, k, dayIndex);
        delayCount[dayIndex] := delayCount[dayIndex] + 1;
        assert delayCount[..] == counts[dayIndex := counts[dayIndex] + 1];
      }
      assert rows[..|rows|] == rows;
      MergedShown(State(), delayCount[..], rows);
      if |rows| == 1 && rows[0].hours < 29 * 24 {
        OneRow(rows);
      }
    }

    /** One row merged into its slot, which has merged `n` rows so far. */
    method AddRow(i: nat, n: nat, mh: HistoryRow)
      requires Sound() && i < WINDOW
      modifies this`totalUp, this`totalDown, up, down, delay
      ensures Sound()
      ensures MergesRow(old(State()), State(), i, n, mh)
      ensures State().DriftUp() == old(State().DriftUp()) && State().DriftDown() == old(State().DriftDown())
    {
      RunningMean(delay[i], n, mh.avgDelay);
      hide Weighted, Sum;
      delay[i] := (delay[i] * n as real + mh.avgDelay) / (n + 1) as real;
      AddCounts(i, mh.up, mh.down);
    }

    method AddCounts(i: nat, moreUp: nat, moreDown: nat)
      requires Sound() && i < WINDOW
      modifies this`totalUp, this`totalDown, up, down
      ensures Sound()
      ensures up[..] == old(up[..])[i := old(up[i]) + moreUp]
      ensures down[..] == old(down[..])[i := old(down[i]) + moreDown]
      ensures State().DriftUp() == old(State().DriftUp()) && State().DriftDown() == old(State().DriftDown())
    {
      SumUpdate(up[..], i, up[i] + moreUp);
      SumUpdate(down[..], i, down[i] + moreDown);
      up[i] := up[i] + moreUp;
      totalUp := totalUp + moreUp;
      down[i] := down[i] + moreDown;
      totalDown := totalDown + moreDown;
      assert up[..] == old(up[..])[i := old(up[i]) + moreUp];
      assert down[..] == old(down[..])[i := old(down[i]) + moreDown];
    }

    /** loadMonthlyStatusFromTSDB: 29 of 30 days are copied; the last one, yesterday's, is left out. */
    method LoadMonthlyStatusFromTSDB(status: seq<Point>, delays: seq<Point>)
      requires Sound() && ShowsWindow(State(), [NO_DAY]) && today == NO_DAY
      modifies this`totalUp, this`totalDown, up, down, delay
      ensures Sound() && Valid(State(), LateDays(status, delays) + [NO_DAY])
      ensures forall i :: 0 <= i < WINDOW - 1 ==> State().Slot(i) == QueriedDay(status, delays, WINDOW, WINDOW - i)
      ensures State().Slot(29) == NO_DAY
      ensures State().DriftUp() == old(State().DriftUp()) && State().DriftDown() == old(State().DriftDown())
    {
      var dailyStats := QueryServiceDailyStats(status, delays, WINDOW);
      hide QueriedDay, Sum, Valid, Board.DriftUp, Board.DriftDown;
      for i := 0 to WINDOW - 1
        invariant Sound()
        invariant State().DriftUp() == old(State().DriftUp()) && State().DriftDown() == old(State().DriftDown())
        invariant forall k :: 0 <= k < i ==> State().Slot(k) == dailyStats[k]
        invariant forall k :: i <= k < WINDOW ==> State().Slot(k) == NO_DAY
      {
        SetSlot(i, dailyStats[i]);
      }
      SlotsShown(State(), LateDays(status, delays));
    }

    /** An empty slot is filled. */
    method SetSlot(i: nat, day: Day)
      requires Sound() && i < WINDOW && State().Slot(i) == NO_DAY
      modifies this`totalUp, this`totalDown, up, down, delay
      ensures Sound()
      ensures State().Slot(i) == day
      ensures forall k :: 0 <= k < WINDOW && k != i ==> State().Slot(k) == old(State().Slot(k))
      ensures State().DriftUp() == old(State().DriftUp()) && State().DriftDown() == old(State().DriftDown())
    {
      SumUpdate(up[..], i, day.up);
      SumUpdate(down[..], i, day.down);
      hide Sum;
      up[i] := day.up;
      totalUp := totalUp + day.up;
      down[i] := day.down;
      totalDown := totalDown + day.down;
      delay[i] := day.delay;
      assert up[..] == old(up[..])[i := day.up];
      assert down[..] == old(down[..])[i := day.down];
    }

    /** loadTodayStats from the database: every row counts for the mean delay. */
    method LoadTodayStatsFromDB(rows: seq<Stats>)
      requires Sound() && today == NO_DAY
      modifies this`totalUp, this`totalDown, this`today
      ensures State() == TodayLoaded(old(State()), TodayOf(rows, rows))
      ensures totalUp == old(totalUp) + today.up && totalDown == old(totalDown) + today.down
      ensures today.up == StatsUp(rows) && today.down == StatsDown(rows)
      ensures rows != [] ==> today.delay == StatsDelay(rows) / |rows| as real
    {
      var totalDelay, totalDelayCount := 0.0, 0;
      for k := 0 to |rows|
        invariant today.up == StatsUp(rows[..k]) && today.down == StatsDown(rows[..k]) && today.delay == 0.0
        invariant totalUp == old(totalUp) + today.up && totalDown == old(totalDown) + today.down
        invariant totalDelay == StatsDelay(rows[..k]) && totalDelayCount == k
      {
        var mh := rows[k];
        assert rows[..k + 1][..k] == rows[..k];
        today := today.(up := today.up + mh.up, down := today.down + mh.down);
        totalUp := totalUp + mh.up;
        totalDown := totalDown + mh.down;
        totalDelay := totalDelay + mh.avgDelay;
        totalDelayCount := totalDelayCount + 1;
      }
      assert rows[..|rows|] == rows;
      if totalDelayCount > 0 {
        today := today.(delay := totalDelay / totalDelayCount as real);
      }
    }

    /** loadTodayStats from the time series store: servers without a delay do not count for the mean. */
    method LoadTodayStatsFromTSDB(servers: seq<Stats>)
      requires Sound() && today == NO_DAY
      modifies this`totalUp, this`totalDown, this`today
      ensures State() == TodayLoaded(old(State()), TodayOf(servers, WithDelay(servers)))
      ensures totalUp == old(totalUp) + today.up && totalDown == old(totalDown) + today.down
      ensures today.up == StatsUp(servers) && today.down == StatsDown(servers)
      ensures WithDelay(servers) != [] ==>
                today.delay == StatsDelay(WithDelay(servers)) / |WithDelay(servers)| as real
    {
      var upToday, downToday, totalDelay, delayCount := 0, 0, 0.0, 0;
      for k := 0 to |servers|
        invariant today == NO_DAY && totalUp == old(totalUp) && totalDown == old(totalDown)
        invariant upToday == StatsUp(servers[..k]) && downToday == StatsDown(servers[..k])
        invariant totalDelay == StatsDelay(WithDelay(servers[..k])) && delayCount == |WithDelay(servers[..k])|
      {
        var stats := servers[k];
        assert servers[..k + 1][..k] == servers[..k];
        WithDelayMore(servers, k);
        hide WithDelay, StatsDelay;
        upToday := upToday + stats.up;
        downToday := downToday + stats.down;
        if stats.avgDelay > 0.0 {
          totalDelay := totalDelay + stats.avgDelay;
          delayCount := delayCount + 1;
        }
      }
      assert servers[..|servers|] == servers;
      today := today.(up := upToday, down := downToday);
      if delayCount > 0 {
        today := today.(delay := totalDelay / delayCount as real);
      }
      totalUp := totalUp + upToday;
      totalDown := totalDown + downToday;
    }
  }
}
