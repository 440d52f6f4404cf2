/** Traffic accounting of the agents across hourly records and reboots (service/rpc/nezha.go:457-502,
    523-534, service/singleton/singleton.go:112-143), and the cycle rule's value built on it
    (model/rule.go:95-115). Counters are natural numbers below 2^64. */
module Traffic {

  /** utils.SubUintChecked */
  function SubChecked(a: nat, b: nat): nat {
    if a < b then 0 else a - b
  }

  datatype Counters = Counters(inbound: nat, outbound: nat)

  const NO_COUNTERS := Counters(0, 0)

  function Delta(now: Counters, then_: Counters): Counters {
    Counters(SubChecked(now.inbound, then_.inbound), SubChecked(now.outbound, then_.outbound))
  }

  function Plus(a: Counters, b: Counters): Counters {
    Counters(a.inbound + b.inbound, a.outbound + b.outbound)
  }

  datatype Transfer = Transfer(serverID: int, amount: Counters, createdAt: int)

  /** The accounting fields of a server: last reported counters, snapshot, boot time, whether it has
      ever been active. */
  datatype Account = Account(state: Counters, prev: Counters, bootTime: nat, active: bool)

  /** What the hourly record does to one server: an empty difference writes nothing. */
  function Recorded(a: Account): Account {
    if Delta(a.state, a.prev) == NO_COUNTERS then a else a.(prev := a.state)
  }

  function StateReported(a: Account, c: Counters): Account {
    if a.prev.inbound == 0 || a.prev.outbound == 0 then a.(state := c, active := true, prev := c)
    else a.(state := c, active := true)
  }

  predicate Reboots(a: Account, bootTime: nat) {
    a.active && bootTime > a.bootTime
  }

  function HostReported(a: Account, bootTime: nat): Account {
    if Reboots(a, bootTime) then Recorded(a).(prev := NO_COUNTERS, bootTime := bootTime)
    else a.(bootTime := bootTime)
  }

  // ---- the server objects

  class Server {
    const id: int
    var state: Counters
    var prevSnapshot: Counters
    var bootTime: nat
    var active: bool

    ghost function Acc(): Account
      reads this
    {
      Account(state, prevSnapshot, bootTime, active)
    }

    constructor (id: int)
      ensures Acc() == Account(NO_COUNTERS, NO_COUNTERS, 0, false) && this.id == id
    {
      this.id := id;
      state, prevSnapshot, bootTime, active := NO_COUNTERS, NO_COUNTERS, 0, false;
    }

    /** One state report, after it has been received. */
    method ReportSystemState(c: Counters)
      modifies this
      ensures Acc() == StateReported(old(Acc()), c)
      ensures state == c && active && bootTime == old(bootTime)
      ensures prevSnapshot ==
                if old(prevSnapshot).inbound == 0 || old(prevSnapshot).outbound == 0 then c else old(prevSnapshot)
    {
      active := true;
      state := c;
      if prevSnapshot.inbound == 0 || prevSnapshot.outbound == 0 {
        prevSnapshot := c;
      }
    }

    /** A host report; a later boot time closes the books of the previous boot. */
    method OnReportSystemInfo(reportedBootTime: nat, hour: int) returns (txs: seq<Transfer>)
      modifies this
      ensures Acc() == HostReported(old(Acc()), reportedBootTime)
      ensures txs == if Reboots(old(Acc()), reportedBootTime) then RowOf(id, old(Acc()), hour) else []
      ensures bootTime == reportedBootTime && state == old(state) && active == old(active)
      ensures var rebooted := active && reportedBootTime > old(bootTime);
        && prevSnapshot.inbound == (if rebooted then 0 else old(prevSnapshot).inbound)
        && prevSnapshot.outbound == (if rebooted then 0 else old(prevSnapshot).outbound)
        && (txs != [] <==>
              rebooted && (state.inbound > old(prevSnapshot).inbound || state.outbound > old(prevSnapshot).outbound))
        && (txs != [] ==> |txs| == 1 && txs[0].serverID == id && txs[0].createdAt == hour)
    {
      txs := [];
      if active && reportedBootTime > bootTime {
        txs := RecordTransferHourlyUsage([this], hour);
        prevSnapshot := NO_COUNTERS;
      }
      bootTime := reportedBootTime;
    }
  }

  function RowOf(id: int, a: Account, hour: int): seq<Transfer> {
    if Delta(a.state, a.prev) == NO_COUNTERS then [] else [Transfer(id, Delta(a.state, a.prev), hour)]
  }

  /** The rows of a list of servers, in list order. */
  function RowsOf(ids: seq<int>, accounts: seq<Account>, hour: int): seq<Transfer>
    requires |ids| == |accounts|
  {
    if ids == [] then []
    else
      var n := |ids| - 1;
      RowsOf(ids[..n], accounts[..n], hour) + RowOf(ids[n], accounts[n], hour)
  }

  ghost function Accounts(servers: seq<Server>): seq<Account>
    reads servers
  {
    seq(|servers|, i requires 0 <= i < |servers| reads servers => servers[i].Acc())
  }

  function Ids(servers: seq<Server>): seq<int> {
    seq(|servers|, i requires 0 <= i < |servers| => servers[i].id)
  }

  predicate Distinct(servers: seq<Server>) {
    forall i, j :: 0 <= i < j < |servers| ==> servers[i] != servers[j]
  }

  /** The row of one server: none unless a counter has passed its snapshot; else with the server's id, dated
      on the hour, with what each counter has gone beyond its snapshot. */
  lemma RowMeans(id: int, a: Account, hour: int)
    ensures var rows := RowOf(id, a, hour);
      && (rows != [] <==> a.state.inbound > a.prev.inbound || a.state.outbound > a.prev.outbound)
      && (rows != [] ==>
            && |rows| == 1 && rows[0].serverID == id && rows[0].createdAt == hour
            && rows[0].amount.inbound ==
               (if a.state.inbound > a.prev.inbound then a.state.inbound - a.prev.inbound else 0)
            && rows[0].amount.outbound ==
               (if a.state.outbound > a.prev.outbound then a.state.outbound - a.prev.outbound else 0))
    ensures var n := Recorded(a);
      && n.state == a.state && n.bootTime == a.bootTime && n.active == a.active
      && n.prev == if a.state.inbound > a.prev.inbound || a.state.outbound > a.prev.outbound then a.state else a.prev
  {
  }

  /** The rows follow the servers, one after the other. */
  lemma RowsMore(ids: seq<int>, accounts: seq<Account>, id: int, a: Account, hour: int)
    requires |ids| == |accounts|
    ensures RowsOf(ids + [id], accounts + [a], hour) == RowsOf(ids, accounts, hour) + RowOf(id, a, hour)
    ensures RowsOf([], [], hour) == []
  {
    assert (ids + [id])[..|ids|] == ids && (accounts + [a])[..|ids|] == accounts;
  }

  /** One row per server whose counters moved, dated on the hour; its snapshot catches up. */
  method RecordTransferHourlyUsage(servers: seq<Server>, hour: int) returns (txs: seq<Transfer>)
    requires Distinct(servers)
    modifies servers
    ensures forall i :: 0 <= i < |servers| ==> servers[i].Acc() == Recorded(old(servers[i].Acc()))
    ensures txs == RowsOf(Ids(servers), old(Accounts(servers)), hour)
  {
    txs := [];
    ghost var accounts := Accounts(servers);
    for i := 0 to |servers|
      invariant forall k :: 0 <= k < i ==> servers[k].Acc() == Recorded(accounts[k])
      invariant forall k :: i <= k < |servers| ==> servers[k].Acc() == accounts[k]
      invariant txs == RowsOf(Ids(servers)[..i], accounts[..i], hour)
    {
      var server := servers[i];
      assert server.Acc() == accounts[i];
      assert Ids(servers)[..i + 1][..i] == Ids(servers)[..i] && accounts[..i + 1][..i] == accounts[..i];
      var amount := Delta(server.state, server.prevSnapshot);
      if amount.inbound == 0 && amount.outbound == 0 {
        continue;
      }
      server.prevSnapshot := server.state;
      txs := txs + [Transfer(server.id, amount, hour)];
    }
    assert Ids(servers)[..|servers|] == Ids(servers) && accounts[..|servers|] == accounts;
  }

  // ---- whole runs of one server

  datatype Event = State(c: Counters) | Host(bootTime: nat) | Hourly

  /** The account with its rows summed up, next to what really happened: `closed` is the traffic of
      the boots that are over, `first` the first counters reported in the current boot. */
  datatype Ledger = Ledger(acc: Account, recorded: Counters, closed: Counters, hasFirst: bool, first: Counters)

  /** A server nothing has been reported of. */
  predicate IsNew(l: Ledger) {
    && !l.acc.active && !l.hasFirst && l.acc.bootTime == 0
    && IsZero(l.acc.state) && IsZero(l.acc.prev) && IsZero(l.recorded) && IsZero(l.closed) && IsZero(l.first)
  }

  predicate IsZero(c: Counters) {
    c.inbound == 0 && c.outbound == 0
  }

  function CurrentBoot(l: Ledger): Counters {
    if l.hasFirst then Delta(l.acc.state, l.first) else NO_COUNTERS
  }

  /** All traffic so far: the sum over the boots of last counter minus first reported counter. */
  function Truth(l: Ledger): Counters {
    Plus(l.closed, CurrentBoot(l))
  }

  /** What the books say: the rows plus the difference not yet recorded. */
  function Booked(l: Ledger): Counters {
    Plus(l.recorded, Delta(l.acc.state, l.acc.prev))
  }

  function Next(l: Ledger, e: Event): Ledger {
    match e
    case State(c) =>
      l.(acc := StateReported(l.acc, c), hasFirst := true, first := if l.hasFirst then l.first else c)
    case Host(bootTime) =>
      if Reboots(l.acc, bootTime) then
        Ledger(HostReported(l.acc, bootTime), Booked(l), Truth(l), false, NO_COUNTERS)
      else l.(acc := HostReported(l.acc, bootTime))
    case Hourly => l.(acc := Recorded(l.acc), recorded := Booked(l))
  }

  /** An agent's counters do not go back within a boot. */
  predicate Monotone(l: Ledger, e: Event) {
    e.State? && l.hasFirst ==> e.c.inbound >= l.acc.state.inbound && e.c.outbound >= l.acc.state.outbound
  }

  /** ... and they are positive. */
  predicate Plausible(l: Ledger, e: Event) {
    Monotone(l, e) && (e.State? ==> e.c.inbound > 0 && e.c.outbound > 0)
  }

  /** Between a reboot's host report and the next state report, the old counters are still there. */
  predicate InGap(l: Ledger) {
    l.acc.active && !l.hasFirst
  }

  /** Nothing is recorded in that gap, by the hourly job or by a second reboot. */
  predicate InOrder(l: Ledger, e: Event) {
    InGap(l) ==> e.State? || (e.Host? && !Reboots(l.acc, e.bootTime))
  }

  /** A report that finds a zero in the snapshot moves the snapshot, so nothing may have moved since
      the last report of the boot. */
  predicate Steady(l: Ledger, e: Event) {
    e.State? && l.hasFirst && (l.acc.prev.inbound == 0 || l.acc.prev.outbound == 0) ==> e.c == l.acc.state
  }

  predicate AllMonotone(l: Ledger, events: seq<Event>)
    decreases events
  {
    events == [] || (Monotone(l, events[0]) && AllMonotone(Next(l, events[0]), events[1..]))
  }

  predicate AllSteady(l: Ledger, events: seq<Event>)
    decreases events
  {
    events == [] || (Steady(l, events[0]) && AllSteady(Next(l, events[0]), events[1..]))
  }

  predicate AllPlausible(l: Ledger, events: seq<Event>)
    decreases events
  {
    events == [] || (Plausible(l, events[0]) && AllPlausible(Next(l, events[0]), events[1..]))
  }

  predicate AllInOrder(l: Ledger, events: seq<Event>)
    decreases events
  {
    events == [] || (InOrder(l, events[0]) && AllInOrder(Next(l, events[0]), events[1..]))
  }

  function Run(l: Ledger, events: seq<Event>): Ledger
    decreases events
  {
    if events == [] then l else Run(Next(l, events[0]), events[1..])
  }

  /** One channel of the ledger. */
  datatype Channel = Channel(state: nat, prev: nat, recorded: nat, closed: nat, first: nat)

  function In(l: Ledger): Channel {
    Channel(l.acc.state.inbound, l.acc.prev.inbound, l.recorded.inbound, l.closed.inbound, l.first.inbound)
  }

  function Out(l: Ledger): Channel {
    Channel(l.acc.state.outbound, l.acc.prev.outbound, l.recorded.outbound, l.closed.outbound, l.first.outbound)
  }

  /** While a boot is being tracked: exact as long as the order was kept, and too much booked for good
      once it was not. */
  ghost predicate TrackedOk(c: Channel, ordered: bool) {
    && c.prev > 0 && c.state >= c.first > 0
    && (ordered ==> c.recorded + c.first == c.closed + c.prev && c.state >= c.prev)
    && (!ordered ==> c.recorded + c.first > c.closed + c.prev)
  }

  ghost predicate GapOk(c: Channel, ordered: bool) {
    && c.state > 0
    && (c.prev == 0 || (c.prev == c.state && !ordered && c.recorded >= c.closed + c.prev))
    && (ordered ==> c.recorded == c.closed && c.prev == 0)
    && (!ordered ==> c.recorded > c.closed)
  }

  ghost predicate Ok(l: Ledger, ordered: bool) {
    if l.hasFirst then
      l.acc.active && TrackedOk(In(l), ordered) && TrackedOk(Out(l), ordered)
    else if l.acc.active then
      && GapOk(In(l), ordered) && GapOk(Out(l), ordered)
      && (l.acc.prev.inbound == 0 <==> l.acc.prev.outbound == 0)
    else
      ordered && In(l) == Channel(0, 0, 0, 0, 0) && Out(l) == Channel(0, 0, 0, 0, 0)
  }

  lemma StepOk(l: Ledger, e: Event, ordered: bool)
    requires Ok(l, ordered) && Plausible(l, e)
    ensures Ok(Next(l, e), ordered && InOrder(l, e))
  {
  }

  lemma {:induction false} RunOk(l: Ledger, events: seq<Event>, ordered: bool)
    requires Ok(l, ordered) && AllPlausible(l, events)
    ensures Ok(Run(l, events), ordered && AllInOrder(l, events))
    decreases events
  {
    if events != [] {
      StepOk(l, events[0], ordered);
      hide Ok, Next;
      RunOk(Next(l, events[0]), events[1..], ordered && InOrder(l, events[0]));
    }
  }

  /** Whenever counters of the current boot are known, and as long as all reported counters are
      positive: the books match the real traffic exactly if no record ever fell into the gap after a
      reboot; otherwise both channels are overbooked. */
  lemma BooksMatchTraffic(start: Ledger, events: seq<Event>)
    requires IsNew(start) && AllPlausible(start, events) && Run(start, events).hasFirst
    ensures var l := Run(start, events);
      && (Booked(l) == Truth(l) <==> AllInOrder(start, events))
      && Booked(l).inbound >= Truth(l).inbound && Booked(l).outbound >= Truth(l).outbound
      && (!AllInOrder(start, events) ==>
            Booked(l).inbound > Truth(l).inbound && Booked(l).outbound > Truth(l).outbound)
  {
    RunOk(start, events, true);
    hide Run, AllInOrder;
  }

  // ---- counters that may be zero

  predicate AtMost(a: Counters, b: Counters) {
    a.inbound <= b.inbound && a.outbound <= b.outbound
  }

  /** The invariant of runs in order: never more is booked than there was, and exactly as much as long
      as every report was steady. A snapshot with a zero in it is that of the last report. */
  ghost predicate NoneGained(l: Ledger, steady: bool) {
    if l.hasFirst then
      && l.acc.active
      && AtMost(l.first, l.acc.state) && AtMost(l.acc.prev, l.acc.state)
      && (l.acc.prev.inbound == 0 || l.acc.prev.outbound == 0 ==> l.acc.prev == l.acc.state)
      && AtMost(Plus(l.recorded, l.first), Plus(l.closed, l.acc.prev))
      && (steady <==> Plus(l.recorded, l.first) == Plus(l.closed, l.acc.prev))
    else
      && l.acc.prev == NO_COUNTERS
      && (!l.acc.active ==> l.acc.state == NO_COUNTERS)
      && AtMost(l.recorded, l.closed)
      && (steady <==> l.recorded == l.closed)
  }

  lemma StepGainsNone(l: Ledger, e: Event, steady: bool)
    requires NoneGained(l, steady) && Monotone(l, e) && InOrder(l, e)
    ensures NoneGained(Next(l, e), steady && Steady(l, e))
  {
  }

  lemma {:induction false} RunGainsNone(l: Ledger, events: seq<Event>, steady: bool)
    requires NoneGained(l, steady) && AllMonotone(l, events) && AllInOrder(l, events)
    ensures NoneGained(Run(l, events), steady && AllSteady(l, events))
    decreases events
  {
    if events != [] {
      StepGainsNone(l, events[0], steady);
      hide NoneGained, Next;
      RunGainsNone(Next(l, events[0]), events[1..], steady && Steady(l, events[0]));
    }
  }

  /** With the order kept, and counters that do not go back within a boot but may be zero: the books
      match the real traffic exactly if every report that found a zero in the snapshot repeated the
      counters of the one before; otherwise traffic is lost. */
  lemma BooksMatchIffSteady(start: Ledger, events: seq<Event>)
    requires IsNew(start)
    requires AllMonotone(start, events) && AllInOrder(start, events) && Run(start, events).hasFirst
    ensures var l := Run(start, events);
      && (Booked(l) == Truth(l) <==> AllSteady(start, events))
      && AtMost(Booked(l), Truth(l))
  {
    RunGainsNone(start, events, true);
    hide Run, AllSteady;
  }

  /** In the gap itself the rows alone are the traffic of all boots, under the same condition. */
  lemma RowsMatchInGap(start: Ledger, events: seq<Event>)
    requires IsNew(start)
    requires AllMonotone(start, events) && AllInOrder(start, events) && InGap(Run(start, events))
    ensures var l := Run(start, events);
      && (l.recorded == Truth(l) <==> AllSteady(start, events))
      && AtMost(l.recorded, Truth(l))
  {
    RunGainsNone(start, events, true);
    hide Run, AllSteady;
  }

  /** Positive counters are always steady. */
  lemma {:induction false} PositiveIsSteady(l: Ledger, events: seq<Event>)
    requires Ok(l, true) && AllPlausible(l, events)
    ensures AllInOrder(l, events) ==> AllSteady(l, events)
    decreases events
  {
    if events != [] && InOrder(l, events[0]) {
      StepOk(l, events[0], true);
      hide Next;
      PositiveIsSteady(Next(l, events[0]), events[1..]);
    }
  }

  // ---- what exactly the books are off by

  function Least(a: nat, b: nat): nat {
    if a < b then a else b
  }

  /** Traffic booked that was not there: a record in the gap books the old counters once more, and if it
      leaves a snapshot without a zero, the first counters of the new boot count from there. */
  function Gained(l: Ledger, e: Event): Counters {
    if l.hasFirst then NO_COUNTERS
    else
      match e
      case State(c) =>
        if l.acc.prev.inbound == 0 || l.acc.prev.outbound == 0 then NO_COUNTERS else Delta(c, l.acc.prev)
      case Host(bootTime) => if Reboots(l.acc, bootTime) then Delta(l.acc.state, l.acc.prev) else NO_COUNTERS
      case Hourly => Delta(l.acc.state, l.acc.prev)
  }

  /** Traffic that is not booked: all since the last report if the snapshot has a zero, and whatever stays
      below a snapshot of an earlier boot. */
  function Lost(l: Ledger, e: Event): Counters {
    if !l.hasFirst || !e.State? then NO_COUNTERS
    else if l.acc.prev.inbound == 0 || l.acc.prev.outbound == 0 then Delta(e.c, l.acc.state)
    else
      Counters(SubChecked(Least(e.c.inbound, l.acc.prev.inbound), l.acc.state.inbound),
               SubChecked(Least(e.c.outbound, l.acc.prev.outbound), l.acc.state.outbound))
  }

  function AllGained(l: Ledger, events: seq<Event>): Counters
    decreases events
  {
    if events == [] then NO_COUNTERS else Plus(Gained(l, events[0]), AllGained(Next(l, events[0]), events[1..]))
  }

  function AllLost(l: Ledger, events: seq<Event>): Counters
    decreases events
  {
    if events == [] then NO_COUNTERS else Plus(Lost(l, events[0]), AllLost(Next(l, events[0]), events[1..]))
  }

  /** In the gap the live difference is that of the boot already closed, and does not count. */
  function Settled(l: Ledger): Counters {
    if l.hasFirst then Booked(l) else l.recorded
  }

  ghost predicate Tracked(l: Ledger) {
    l.hasFirst ==>
      && AtMost(l.first, l.acc.state)
      && (l.acc.prev.inbound == 0 || l.acc.prev.outbound == 0 ==> l.acc.prev == l.acc.state)
  }

  lemma StepBalances(l: Ledger, e: Event)
    requires Tracked(l) && Monotone(l, e)
    ensures Tracked(Next(l, e))
    ensures Settled(Next(l, e)).inbound - Truth(Next(l, e)).inbound
            == Settled(l).inbound - Truth(l).inbound + Gained(l, e).inbound - Lost(l, e).inbound
    ensures Settled(Next(l, e)).outbound - Truth(Next(l, e)).outbound
            == Settled(l).outbound - Truth(l).outbound + Gained(l, e).outbound - Lost(l, e).outbound
  {
  }

  lemma {:induction false} RunBalances(l: Ledger, events: seq<Event>)
    requires Tracked(l) && AllMonotone(l, events)
    ensures var n, gained, lost := Run(l, events), AllGained(l, events), AllLost(l, events);
      && Settled(n).inbound - Truth(n).inbound
         == Settled(l).inbound - Truth(l).inbound + gained.inbound - lost.inbound
      && Settled(n).outbound - Truth(n).outbound
         == Settled(l).outbound - Truth(l).outbound + gained.outbound - lost.outbound
    decreases events
  {
    if events != [] {
      StepBalances(l, events[0]);
      hide Tracked, Next, Settled, Truth, Gained, Lost;
      RunBalances(Next(l, events[0]), events[1..]);
    }
  }

  /** In every run whose counters do not go back within a boot, the books differ from the real traffic by
      exactly what the steps gained and lost; so they match exactly if that is the same. */
  lemma BooksDifferBy(start: Ledger, events: seq<Event>)
    requires IsNew(start) && AllMonotone(start, events)
    ensures var l, gained, lost := Run(start, events), AllGained(start, events), AllLost(start, events);
      && Settled(l).inbound + lost.inbound == Truth(l).inbound + gained.inbound
      && Settled(l).outbound + lost.outbound == Truth(l).outbound + gained.outbound
      && (l.hasFirst ==> (Booked(l) == Truth(l) <==> gained == lost))
  {
    hide IsNew, IsZero, Run, AllMonotone, AllGained, AllLost, Settled, Booked, Truth, Tracked;
    NewIsBalanced(start);
    RunBalances(start, events);
    var l := Run(start, events);
    SettledIsBooked(l);
    EqualIfBalanced(Settled(l), Truth(l), AllGained(start, events), AllLost(start, events));
  }

  lemma EqualIfBalanced(a: Counters, b: Counters, more: Counters, less: Counters)
    requires a.inbound + less.inbound == b.inbound + more.inbound
    requires a.outbound + less.outbound == b.outbound + more.outbound
    ensures a == b <==> more == less
  {
  }

  lemma NewIsBalanced(l: Ledger)
    requires IsNew(l)
    ensures Tracked(l)
    ensures Settled(l).inbound == Truth(l).inbound && Settled(l).outbound == Truth(l).outbound
  {
  }

  lemma SettledIsBooked(l: Ledger)
    ensures l.hasFirst ==> Settled(l) == Booked(l)
  {
  }

  /** A ledger whose inbound channel is all zero. */
  function Outbound(state: nat, prev: nat, bootTime: nat, recorded: nat, closed: nat, hasFirst: bool,
                    first: nat): Ledger
  {
    Ledger(Account(Counters(0, state), Counters(0, prev), bootTime, true),
           Counters(0, recorded), Counters(0, closed), hasFirst, Counters(0, first))
  }

  lemma FirstOutbound(start: Ledger, c: nat, rest: seq<Event>)
    requires IsNew(start)
    ensures Runs(start, State(Counters(0, c)), rest, Outbound(c, c, 0, 0, 0, true, c), true, true)
  {
    OneStep(start, State(Counters(0, c)), rest);
  }

  lemma NextOutbound(s: nat, p: nat, b: nat, r: nat, d: nat, h: bool, f: nat, rest: seq<Event>, c: nat)
    requires h ==> s <= c
    ensures Runs(Outbound(s, p, b, r, d, h, f), State(Counters(0, c)), rest,
                 Outbound(c, c, b, r, d, true, if h then f else c), true, !h || c == s)
  {
    OneStep(Outbound(s, p, b, r, d, h, f), State(Counters(0, c)), rest);
  }

  lemma RebootOutbound(s: nat, p: nat, b: nat, r: nat, d: nat, f: nat, rest: seq<Event>, bootTime: nat)
    requires b < bootTime && p <= s && f <= s
    ensures Runs(Outbound(s, p, b, r, d, true, f), Host(bootTime), rest,
                 Outbound(s, 0, bootTime, r + s - p, d + s - f, false, 0), true, true)
  {
    OneStep(Outbound(s, p, b, r, d, true, f), Host(bootTime), rest);
  }

  lemma HourlyOutbound(s: nat, b: nat, r: nat, d: nat, rest: seq<Event>)
    ensures Runs(Outbound(s, 0, b, r, d, false, 0), Hourly, rest, Outbound(s, s, b, r + s, d, false, 0), false, true)
  {
    OneStep(Outbound(s, 0, b, r, d, false, 0), Hourly, rest);
  }

  /** The event leads from `l` to `n`, and whether it keeps the order and is steady. */
  predicate Runs(l: Ledger, e: Event, rest: seq<Event>, n: Ledger, ordered: bool, steady: bool) {
    && Run(l, [e] + rest) == Run(n, rest)
    && (AllMonotone(l, [e] + rest) <==> AllMonotone(n, rest))
    && (AllInOrder(l, [e] + rest) <==> ordered && AllInOrder(n, rest))
    && (AllSteady(l, [e] + rest) <==> steady && AllSteady(n, rest))
  }

  lemma OneStep(l: Ledger, e: Event, rest: seq<Event>)
    ensures Run(l, [e] + rest) == Run(Next(l, e), rest)
    ensures AllMonotone(l, [e] + rest) <==> Monotone(l, e) && AllMonotone(Next(l, e), rest)
    ensures AllInOrder(l, [e] + rest) <==> InOrder(l, e) && AllInOrder(Next(l, e), rest)
    ensures AllSteady(l, [e] + rest) <==> Steady(l, e) && AllSteady(Next(l, e), rest)
  {
    assert ([e] + rest)[1..] == rest;
  }

  lemma OutboundBooks(x: nat)
    ensures var l := Outbound(2 * x, 2 * x, 1, x, 0, true, x); l.hasFirst && Booked(l) == Truth(l)
  {
  }

  /** With neither hypothesis a loss can make up for a gain, so that the books match by accident: an
      hourly record in the gap books `x` twice, and `x` is lost to a zero afterwards. */
  lemma LossHidesGain(start: Ledger, x: nat) returns (events: seq<Event>)
    requires IsNew(start) && x > 0
    ensures AllMonotone(start, events)
    ensures !AllInOrder(start, events) && !AllSteady(start, events)
    ensures var l := Run(start, events); l.hasFirst && Booked(l) == Truth(l)
  {
    hide Run, AllMonotone, AllInOrder, AllSteady, Outbound, Booked, Truth, IsNew;
    var second := [State(Counters(0, 2 * x))] + [];
    NextOutbound(x, x, 1, x, 0, true, x, [], 2 * x);
    NoStep(Outbound(2 * x, 2 * x, 1, x, 0, true, x));
    OutboundBooks(x);
    var first := [State(Counters(0, x))] + second;
    NextOutbound(x, x, 1, x, 0, false, 0, second, x);
    var gap := GapEvents(x, first);
    events := [State(Counters(0, x))] + gap;
    FirstOutbound(start, x, gap);
  }

  lemma GapEvents(x: nat, rest: seq<Event>) returns (events: seq<Event>)
    ensures var l, n := Outbound(x, x, 0, 0, 0, true, x), Outbound(x, x, 1, x, 0, false, 0);
      && Run(l, events) == Run(n, rest)
      && (AllMonotone(l, events) <==> AllMonotone(n, rest))
      && !AllInOrder(l, events)
      && (AllSteady(l, events) <==> AllSteady(n, rest))
  {
    hide Run, AllMonotone, AllInOrder, AllSteady, Outbound;
    var hourly := [Hourly] + rest;
    HourlyOutbound(x, 1, 0, 0, rest);
    events := [Host(1)] + hourly;
    RebootOutbound(x, x, 0, 0, 0, x, hourly, 1);
  }

  lemma NoStep(l: Ledger)
    ensures Run(l, []) == l && AllMonotone(l, []) && AllInOrder(l, []) && AllSteady(l, [])
  {
  }

  predicate OnlyStatesWithoutInbound(events: seq<Event>) {
    forall i :: 0 <= i < |events| ==> events[i].State? && events[i].c.inbound == 0
  }

  lemma ZeroCounterStep(l: Ledger, c: Counters)
    requires l.acc.prev.inbound == 0
    ensures var n := Next(l, State(c));
      && n.acc.state == n.acc.prev == c
      && n.recorded == l.recorded && n.closed == l.closed
      && n.hasFirst && n.first == if l.hasFirst then l.first else c
  {
  }

  lemma {:induction false} ZeroCounterRun(l: Ledger, events: seq<Event>)
    requires l.acc.prev.inbound == 0 && OnlyStatesWithoutInbound(events) && events != []
    ensures var n := Run(l, events);
      && n.acc.state == n.acc.prev == events[|events| - 1].c
      && n.recorded == l.recorded && n.closed == l.closed
      && n.hasFirst && n.first == if l.hasFirst then l.first else events[0].c
    decreases events
  {
    ZeroCounterStep(l, events[0].c);
    hide Next;
    if |events| > 1 {
      ZeroCounterRun(Next(l, events[0]), events[1..]);
    } else {
      assert Run(Next(l, events[0]), []) == Next(l, events[0]);
      assert events[1..] == [];
    }
  }

  /** How much is lost: while the inbound counter stays zero the snapshot moves with every report, so
      however much the other channel transfers, nothing of it is ever booked. */
  lemma ZeroCounterLosesTraffic(l: Ledger, events: seq<Event>)
    requires l.acc.prev.inbound == 0 && OnlyStatesWithoutInbound(events) && events != []
    ensures var n, last := Run(l, events), events[|events| - 1].c;
      var first := if l.hasFirst then l.first else events[0].c;
      && Booked(n).outbound == l.recorded.outbound
      && Truth(n).outbound == l.closed.outbound + SubChecked(last.outbound, first.outbound)
  {
    ZeroCounterRun(l, events);
    hide Run;
  }

  // ---- the cycle rule

  datatype Metric = TransferIn | TransferOut | TransferAll

  function Measure(m: Metric, c: Counters): nat {
    match m
    case TransferIn => c.inbound
    case TransferOut => c.outbound
    case TransferAll => c.inbound + c.outbound
  }

  /** The rows of one server that count for a cycle. */
  function SumSince(m: Metric, rows: seq<Transfer>, start: int): nat {
    if rows == [] then 0
    else
      var r := rows[|rows| - 1];
      SumSince(m, rows[..|rows| - 1], start) + if r.createdAt >= start then Measure(m, r.amount) else 0
  }

  function CycleValue(m: Metric, a: Account, rows: seq<Transfer>, start: int): nat {
    Measure(m, Delta(a.state, a.prev)) + SumSince(m, rows, start)
  }

  /** Recording moves the live difference into a row dated on the hour. The rule's value stays the same
      exactly if that hour lies in the cycle, or there was nothing to move. */
  /** The value of a cycle: what has not been recorded yet, and the rows dated in the cycle, per direction
      or both together. */
  lemma CycleValueMeans(m: Metric, a: Account, rows: seq<Transfer>, r: Transfer, start: int)
    ensures CycleValue(m, a, rows + [r], start) == CycleValue(m, a, rows, start) +
              if r.createdAt < start then 0
              else
                (if m == TransferOut then 0 else r.amount.inbound)
                + (if m == TransferIn then 0 else r.amount.outbound)
    ensures a.prev.inbound <= a.state.inbound && a.prev.outbound <= a.state.outbound ==>
              CycleValue(m, a, [], start) ==
              (if m == TransferOut then 0 else a.state.inbound - a.prev.inbound)
              + (if m == TransferIn then 0 else a.state.outbound - a.prev.outbound)
  {
    assert (rows + [r])[..|rows|] == rows;
  }

  lemma RecordKeepsCycleValue(m: Metric, id: int, a: Account, rows: seq<Transfer>, hour: int, start: int)
    ensures CycleValue(m, Recorded(a), rows + RowOf(id, a, hour), start) == CycleValue(m, a, rows, start)
            <==> hour >= start || Measure(m, Delta(a.state, a.prev)) == 0
  {
    var row := RowOf(id, a, hour);
    if row != [] {
      assert (rows + row)[..|rows|] == rows;
    } else {
      assert rows + row == rows;
    }
  }
}
