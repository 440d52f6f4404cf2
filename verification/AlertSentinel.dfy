/** The alert sentinel's tables and its tick (service/singleton/alertsentinel.go). Ghost fields
    record every row sampled and every event sent since an alert was added or last refreshed. */
module AlertSentinel {
  import opened GoIntegers
  import opened Wrappers
  import opened AlertRules
  import opened AlertTrimming

  /** Ids are only ever compared. */
  type Id = int

  datatype TriggerMode = AlwaysTrigger | OnetimeTrigger

  datatype CheckState = NoData | CheckFail | CheckPass

  datatype Event = Incident | Resolved

  datatype Alert = Alert(id: Id, userID: Id, enabled: bool, mode: TriggerMode, rules: seq<Rule>)

  /** What the tables hold about one alert on one server. */
  datatype PairState = PairState(store: seq<Row>, prev: CheckState, history: seq<Row>, events: seq<Event>)

  const EMPTY_PAIR := PairState([], NoData, [], [])

  function EventOf(mode: TriggerMode, prev: CheckState, passed: bool): Option<Event> {
    if !passed then
      if mode.AlwaysTrigger? || !prev.CheckFail? then Some(Incident) else None
    else
      if prev.CheckFail? then Some(Resolved) else None
  }

  /** An incident is sent for a failing check, always or only if the one before did not fail; a recovery
      for a passing check after a failing one. */
  lemma EventMeans(mode: TriggerMode, prev: CheckState, passed: bool)
    ensures EventOf(mode, prev, passed) == Some(Incident) <==> !passed && (mode == AlwaysTrigger || prev != CheckFail)
    ensures EventOf(mode, prev, passed) == Some(Resolved) <==> passed && prev == CheckFail
  {
  }

  function Send(events: seq<Event>, e: Option<Event>): seq<Event> {
    match e
    case None => events
    case Some(x) => events + [x]
  }

  /** The last verdict, as the state table keeps it. */
  ghost function StateAfter(verdicts: seq<bool>): CheckState {
    if verdicts == [] then NoData else if verdicts[|verdicts| - 1] then CheckPass else CheckFail
  }

  ghost function EventsOf(mode: TriggerMode, verdicts: seq<bool>): seq<Event> {
    if verdicts == [] then []
    else
      var before := verdicts[..|verdicts| - 1];
      Send(EventsOf(mode, before), EventOf(mode, StateAfter(before), verdicts[|verdicts| - 1]))
  }

  /** The state of a pair is determined by the rows sampled since the alert was (re)loaded. */
  ghost predicate PairOk(alert: Alert, p: PairState) {
    && WideRows(p.history, |alert.rules|)
    && p.store == Store(alert.rules, p.history)
    && p.prev == StateAfter(Verdicts(alert.rules, p.history))
    && p.events == EventsOf(alert.mode, Verdicts(alert.rules, p.history))
  }

  lemma EmptyPairOk(alert: Alert)
    ensures PairOk(alert, EMPTY_PAIR)
  {
  }

  lemma PairStoreIsWide(alert: Alert, p: PairState)
    requires PairOk(alert, p)
    ensures WideRows(p.store, |alert.rules|)
  {
    StoreIsSuffix(alert.rules, p.history);
  }

  ghost function PairStep(alert: Alert, p: PairState, row: Row): PairState {
    var seen := p.store + [row];
    var passed := Passed(alert.rules, seen);
    PairState(Trim(alert.rules, seen),
              if passed then CheckPass else CheckFail,
              p.history + [row],
              Send(p.events, EventOf(alert.mode, p.prev, passed)))
  }

  lemma StepKeepsPairOk(alert: Alert, p: PairState, row: Row)
    requires PairOk(alert, p) && |row| == |alert.rules|
    ensures PairOk(alert, PairStep(alert, p, row))
  {
    var hist := p.history + [row];
    assert hist[..|hist| - 1] == p.history;
    var v := Verdicts(alert.rules, hist);
    assert v[..|v| - 1] == Verdicts(alert.rules, p.history);
  }

  // ---- what the notified user sees over a whole run

  ghost predicate Alternates(events: seq<Event>) {
    forall k :: 0 <= k < |events| ==> events[k] == if k % 2 == 0 then Incident else Resolved
  }

  /** A one-time alert sends Incident, Resolved, Incident, ... and is "open" exactly while the last
      verdict was a failure. */
  lemma {:induction false} OnetimeEventsAlternate(verdicts: seq<bool>)
    ensures var events := EventsOf(OnetimeTrigger, verdicts);
      && Alternates(events)
      && (|events| % 2 == 1 <==> StateAfter(verdicts).CheckFail?)
  {
    if verdicts != [] {
      OnetimeEventsAlternate(verdicts[..|verdicts| - 1]);
    }
  }

  ghost function Count(events: seq<Event>, e: Event): nat {
    if events == [] then 0 else Count(events[..|events| - 1], e) + if events[|events| - 1] == e then 1 else 0
  }

  ghost function Failures(verdicts: seq<bool>): nat {
    if verdicts == [] then 0
    else Failures(verdicts[..|verdicts| - 1]) + if verdicts[|verdicts| - 1] then 0 else 1
  }

  ghost function Recoveries(verdicts: seq<bool>): nat {
    if |verdicts| < 2 then 0
    else Recoveries(verdicts[..|verdicts| - 1])
         + if verdicts[|verdicts| - 1] && !verdicts[|verdicts| - 2] then 1 else 0
  }

  lemma CountSend(events: seq<Event>, x: Option<Event>, e: Event)
    ensures Count(Send(events, x), e) == Count(events, e) + if x == Some(e) then 1 else 0
  {
    if x.Some? {
      assert (events + [x.value])[..|events|] == events;
    }
  }

  /** An always-trigger alert sends one Incident for every failing tick and one Resolved for every
      change from failing to passing. */
  lemma {:induction false} AlwaysEventsCount(verdicts: seq<bool>)
    ensures Count(EventsOf(AlwaysTrigger, verdicts), Incident) == Failures(verdicts)
    ensures Count(EventsOf(AlwaysTrigger, verdicts), Resolved) == Recoveries(verdicts)
  {
    if verdicts != [] {
      var before := verdicts[..|verdicts| - 1];
      AlwaysEventsCount(before);
      var e := EventOf(AlwaysTrigger, StateAfter(before), verdicts[|verdicts| - 1]);
      CountSend(EventsOf(AlwaysTrigger, before), e, Incident);
      CountSend(EventsOf(AlwaysTrigger, before), e, Resolved);
    }
  }

  // ---- the tables

  predicate DistinctIds(alerts: seq<Alert>) {
    forall i, j :: 0 <= i < j < |alerts| ==> alerts[i].id != alerts[j].id
  }

  function Lookup<T>(m: map<Id, T>, k: Id, default: T): T {
    if k in m then m[k] else default
  }

  datatype Server = Server(id: Id, userID: Id)

  predicate DistinctServers(servers: seq<Server>) {
    forall i, j :: 0 <= i < j < |servers| ==> servers[i].id != servers[j].id
  }

  /** An enabled alert is checked on its owner's servers, and on every server if the owner is an
      admin. */
  predicate MayWatch(alert: Alert, server: Server, admins: set<Id>) {
    alert.enabled && (alert.userID == server.userID || alert.userID in admins)
  }

  ghost predicate Watched(alert: Alert, servers: seq<Server>, admins: set<Id>, sid: Id) {
    exists j :: 0 <= j < |servers| && servers[j].id == sid && MayWatch(alert, servers[j], admins)
  }

  function RowOf(alert: Alert, sample: (Id, Id, nat) -> bool, sid: Id): Row {
    seq(|alert.rules|, (i: nat) => sample(alert.id, sid, i))
  }

  /** The tables as one value. `trace` is ghost in the class below. */
  datatype Tables = Tables(
    store: map<Id, map<Id, seq<Row>>>,
    prev: map<Id, map<Id, CheckState>>,
    trace: map<Id, map<Id, Trace>>)

  /** Every row sampled and every event sent since the alert was added or last refreshed. */
  datatype Trace = Trace(history: seq<Row>, events: seq<Event>)

  /** What is known about alert `aid` on server `sid`; a missing entry reads as empty. */
  ghost function Pair(t: Tables, aid: Id, sid: Id): PairState {
    var trace := Lookup(Lookup(t.trace, aid, map[]), sid, Trace([], []));
    PairState(Lookup(Lookup(t.store, aid, map[]), sid, []),
              Lookup(Lookup(t.prev, aid, map[]), sid, NoData),
              trace.history, trace.events)
  }

  ghost predicate Has(t: Tables, aid: Id) {
    aid in t.store && aid in t.prev && aid in t.trace
  }

  ghost predicate ValidTables(alerts: seq<Alert>, t: Tables) {
    && DistinctIds(alerts)
    && (forall a :: a in alerts ==> StoredRules(a.rules) && Has(t, a.id))
    && (forall a, sid :: a in alerts ==> PairOk(a, Pair(t, a.id, sid)))
  }

  ghost function PutPair(t: Tables, aid: Id, sid: Id, p: PairState): Tables
    requires Has(t, aid)
  {
    Tables(t.store[aid := t.store[aid][sid := p.store]],
           t.prev[aid := t.prev[aid][sid := p.prev]],
           t.trace[aid := t.trace[aid][sid := Trace(p.history, p.events)]])
  }

  lemma PutPairLookup(t: Tables, aid: Id, sid: Id, p: PairState)
    requires Has(t, aid)
    ensures forall a :: Has(PutPair(t, aid, sid, p), a) <==> Has(t, a)
    ensures forall a, s :: Pair(PutPair(t, aid, sid, p), a, s) == if a == aid && s == sid then p else Pair(t, a, s)
  {
  }

  ghost function Fresh(t: Tables, aid: Id): Tables {
    Tables(t.store[aid := map[]], t.prev[aid := map[]], t.trace[aid := map[]])
  }

  ghost function Forget(t: Tables, aid: Id): Tables {
    Tables(t.store - {aid}, t.prev - {aid}, t.trace - {aid})
  }

  lemma PutAfterRemove<T>(m: map<Id, T>, k: Id, v: T)
    ensures (m - {k})[k := v] == m[k := v]
  {
  }

  lemma FreshLookup(t: Tables, aid: Id)
    ensures forall a :: Has(Fresh(t, aid), a) <==> a == aid || Has(t, a)
    ensures forall a, s :: Pair(Fresh(t, aid), a, s) == if a == aid then EMPTY_PAIR else Pair(t, a, s)
  {
  }

  lemma ForgetLookup(t: Tables, aid: Id)
    ensures forall a :: Has(Forget(t, aid), a) <==> a != aid && Has(t, a)
    ensures forall a, s :: a != aid ==> Pair(Forget(t, aid), a, s) == Pair(t, a, s)
  {
  }

  lemma StepKeepsValid(alerts: seq<Alert>, t: Tables, alert: Alert, sid: Id, row: Row)
    requires ValidTables(alerts, t) && alert in alerts && |row| == |alert.rules|
    ensures ValidTables(alerts, PutPair(t, alert.id, sid, PairStep(alert, Pair(t, alert.id, sid), row)))
  {
    hide PairStep, Pair, PutPair;
    var p := PairStep(alert, Pair(t, alert.id, sid), row);
    PutPairLookup(t, alert.id, sid, p);
    StepKeepsPairOk(alert, Pair(t, alert.id, sid), row);
    hide PairOk;
  }

  lemma RefreshKeepsValid(before: seq<Alert>, after: seq<Alert>, t: Tables, alert: Alert)
    requires ValidTables(before, t) && StoredRules(alert.rules) && DistinctIds(after)
    requires forall a :: a in after ==> a == alert || (a in before && a.id != alert.id)
    ensures ValidTables(after, Fresh(t, alert.id))
  {
    hide Pair, Fresh;
    FreshLookup(t, alert.id);
    EmptyPairOk(alert);
    hide PairOk;
  }

  lemma ForgetKeepsValid(before: seq<Alert>, t: Tables, id: Id)
    requires ValidTables(before, t)
    ensures ValidTables(Without(before, [id]), Forget(t, id))
  {
    hide Pair, Forget, PairOk;
    ForgetLookup(t, id);
    WithoutIsSubsequence(before, [id]);
  }

  /** The tables after one tick for one alert and server. */
  ghost function AfterTick(alert: Alert, servers: seq<Server>, admins: set<Id>, sample: (Id, Id, nat) -> bool,
                           t: Tables, sid: Id): PairState
  {
    var p := Pair(t, alert.id, sid);
    if Watched(alert, servers, admins, sid) then PairStep(alert, p, RowOf(alert, sample, sid)) else p
  }

  /** A tick samples one row of an alert on a server exactly if the alert is enabled and its owner owns the
      server or is an admin. */
  lemma TickSamples(alert: Alert, servers: seq<Server>, admins: set<Id>, sample: (Id, Id, nat) -> bool,
                    t: Tables, server: Server)
    requires DistinctServers(servers) && server in servers
    ensures AfterTick(alert, servers, admins, sample, t, server.id).history == Pair(t, alert.id, server.id).history +
              if alert.enabled && (alert.userID == server.userID || alert.userID in admins)
              then [seq(|alert.rules|, (i: nat) => sample(alert.id, server.id, i))] else []
  {
    var row := seq(|alert.rules|, (i: nat) => sample(alert.id, server.id, i));
    assert RowOf(alert, sample, server.id) == row;
    var j :| 0 <= j < |servers| && servers[j] == server;
    hide Pair;
  }

  lemma WatchedStep(alert: Alert, servers: seq<Server>, admins: set<Id>, j: nat)
    requires DistinctServers(servers) && j < |servers|
    ensures forall sid :: Watched(alert, servers[..j + 1], admins, sid) <==>
              Watched(alert, servers[..j], admins, sid) || (sid == servers[j].id && MayWatch(alert, servers[j], admins))
    ensures !Watched(alert, servers[..j], admins, servers[j].id)
  {
    forall sid
      ensures Watched(alert, servers[..j + 1], admins, sid) <==>
              Watched(alert, servers[..j], admins, sid) || (sid == servers[j].id && MayWatch(alert, servers[j], admins))
    {
      if Watched(alert, servers[..j], admins, sid) {
        var k :| 0 <= k < j && servers[k].id == sid && MayWatch(alert, servers[k], admins);
        assert servers[..j + 1][k] == servers[k];
      }
      assert servers[..j + 1][j] == servers[j];
    }
  }

  /** A Go slice holds no more rows than the largest int; this matters only for durations beyond it. */
  predicate RoomFor(alert: Alert, store: seq<Row>) {
    (exists i :: 0 <= i < |alert.rules| && Wraps(alert.rules[i])) ==> |store| < MAX_INT
  }

  ghost predicate PairPanics(alert: Alert, p: PairState, row: Row) {
    CheckPanics(alert.rules, p.store + [row])
  }

  /** Some check of this alert's tick goes out of bounds. */
  ghost predicate TickPanics(alert: Alert, servers: seq<Server>, admins: set<Id>, sample: (Id, Id, nat) -> bool,
                             t: Tables)
  {
    exists j :: 0 <= j < |servers| && ServerPanics(alert, servers[j], admins, sample, t)
  }

  ghost predicate ServerPanics(alert: Alert, server: Server, admins: set<Id>, sample: (Id, Id, nat) -> bool,
                               t: Tables)
  {
    MayWatch(alert, server, admins) && PairPanics(alert, Pair(t, alert.id, server.id), RowOf(alert, sample, server.id))
  }

  /** A tick of one alert depends on the tables only through its own pairs, and on nothing if the alert is
      disabled. */
  lemma TickOfAlert(alert: Alert, servers: seq<Server>, admins: set<Id>, sample: (Id, Id, nat) -> bool,
                    t: Tables, now: Tables)
    requires forall sid :: Pair(now, alert.id, sid) == Pair(t, alert.id, sid)
    ensures TickPanics(alert, servers, admins, sample, now) <==> TickPanics(alert, servers, admins, sample, t)
    ensures forall sid :: AfterTick(alert, servers, admins, sample, now, sid)
                          == AfterTick(alert, servers, admins, sample, t, sid)
    ensures !alert.enabled ==>
              && !TickPanics(alert, servers, admins, sample, t)
              && forall sid :: AfterTick(alert, servers, admins, sample, t, sid) == Pair(t, alert.id, sid)
  {
    hide Pair, PairStep, PairPanics;
    forall j | 0 <= j < |servers|
      ensures ServerPanics(alert, servers[j], admins, sample, now)
              <==> ServerPanics(alert, servers[j], admins, sample, t)
    {
    }
  }

  class Sentinel {
    var alerts: seq<Alert>
    var alertsStore: map<Id, map<Id, seq<Row>>>
    var alertsPrevState: map<Id, map<Id, CheckState>>
    ghost var trace: map<Id, map<Id, Trace>>

    ghost function State(): Tables
      reads this
    {
      Tables(alertsStore, alertsPrevState, trace)
    }

    ghost predicate Valid()
      reads this
    {
      ValidTables(alerts, State())
    }

    constructor ()
      ensures Valid() && alerts == []
    {
      alerts, alertsStore, alertsPrevState, trace := [], map[], map[], map[];
    }

    /** Replaces or appends the alert, and forgets everything recorded under its id. */
    method OnRefreshOrAddAlert(alert: Alert)
      requires Valid() && StoredRules(alert.rules)
      modifies this
      ensures Valid()
      ensures alerts == Refreshed(old(alerts), alert)
      ensures (forall k :: 0 <= k < |old(alerts)| ==> old(alerts)[k].id != alert.id) ==> alerts == old(alerts) + [alert]
      ensures forall k :: 0 <= k < |old(alerts)| && old(alerts)[k].id == alert.id ==>
                alerts == old(alerts)[k := alert]
      ensures alertsStore == old(alertsStore)[alert.id := map[]]
      ensures alertsPrevState == old(alertsPrevState)[alert.id := map[]]
      ensures forall aid, sid :: Pair(State(), aid, sid) ==
                if aid == alert.id then EMPTY_PAIR else Pair(old(State()), aid, sid)
    {
      hide PairOk, Pair, Refreshed, Has;
      ghost var before, t := alerts, State();
      RefreshedIds(before, alert);
      RefreshedMeans(before, alert);
      RefreshKeepsValid(before, Refreshed(before, alert), t, alert);
      FreshLookup(t, alert.id);
      hide ValidTables, DistinctIds;
      alertsStore := alertsStore - {alert.id};
      alertsPrevState := alertsPrevState - {alert.id};
      alerts := ReplaceOrAppend(alerts, alert);
      alertsStore := alertsStore[alert.id := map[]];
      alertsPrevState := alertsPrevState[alert.id := map[]];
      trace := trace[alert.id := map[]];
      PutAfterRemove(t.store, alert.id, map[]);
      PutAfterRemove(t.prev, alert.id, map[]);
      assert State() == Fresh(t, alert.id);
    }

    static method ReplaceOrAppend(alerts: seq<Alert>, alert: Alert) returns (r: seq<Alert>)
      ensures r == Refreshed(alerts, alert)
    {
      r := alerts;
      var isEdit := false;
      for i := 0 to |alerts|
        invariant |r| == |alerts|
        invariant forall k :: 0 <= k < i ==> r[k] == if alerts[k].id == alert.id then alert else alerts[k]
        invariant forall k :: i <= k < |r| ==> r[k] == alerts[k]
        invariant isEdit <==> exists k :: 0 <= k < i && alerts[k].id == alert.id
      {
        if r[i].id == alert.id {
          r := r[i := alert];
          isEdit := true;
        }
      }
      if !isEdit {
        r := r + [alert];
      }
    }

    /** Removes the alerts named and their tables; the others keep their order and their state. */
    method OnDeleteAlert(ids: seq<Id>)
      requires Valid()
      modifies this
      ensures Valid()
      ensures alerts == Without(old(alerts), ids)
      ensures forall a :: a in alerts <==> a in old(alerts) && a.id !in ids
      ensures forall id :: id in ids ==> !Has(State(), id)
      ensures forall aid, sid :: aid !in ids ==> Pair(State(), aid, sid) == Pair(old(State()), aid, sid)
    {
      hide PairOk, Pair;
      WithoutNothing(alerts);
      for k := 0 to |ids|
        invariant Valid()
        invariant alerts == Without(old(alerts), ids[..k])
        invariant forall id :: id in ids[..k] ==> !Has(State(), id)
        invariant forall aid, sid :: aid !in ids[..k] ==> Pair(State(), aid, sid) == Pair(old(State()), aid, sid)
      {
        ghost var t := State();
        assert ids[..k + 1] == ids[..k] + [ids[k]];
        ForgetKeepsValid(alerts, t, ids[k]);
        ForgetLookup(t, ids[k]);
        WithoutTwice(old(alerts), ids[..k], [ids[k]]);
        alertsStore := alertsStore - {ids[k]};
        alertsPrevState := alertsPrevState - {ids[k]};
        alerts := DropId(alerts, ids[k]);
        trace := trace - {ids[k]};
        assert State() == Forget(t, ids[k]);
      }
      assert ids[..|ids|] == ids;
      WithoutIsSubsequence(old(alerts), ids);
    }

    static method DropId(alerts: seq<Alert>, id: Id) returns (currentAlerts: seq<Alert>)
      ensures currentAlerts == Without(alerts, [id])
    {
      currentAlerts := [];
      for i := 0 to |alerts|
        invariant currentAlerts == Without(alerts[..i], [id])
      {
        assert alerts[..i + 1][..i] == alerts[..i];
        if alerts[i].id != id {
          currentAlerts := currentAlerts + [alerts[i]];
        }
      }
      assert alerts[..|alerts|] == alerts;
    }

    /** One alert on one server: append the row, check, send the event, cut the store. A panic ends the
        dashboard, so nothing is said of the state after it. */
    method CheckPair(alert: Alert, sid: Id, row: Row) returns (panicked: bool, sent: Option<Event>)
      requires Valid() && alert in alerts && |row| == |alert.rules|
      requires RoomFor(alert, Pair(State(), alert.id, sid).store)
      modifies this
      ensures panicked <==> PairPanics(alert, Pair(old(State()), alert.id, sid), row)
      ensures !panicked ==>
                && Valid() && alerts == old(alerts)
                && State() == var p := Pair(old(State()), alert.id, sid);
                     PutPair(old(State()), alert.id, sid, PairStep(alert, p, row))
      ensures !panicked ==>
                sent == var p := Pair(old(State()), alert.id, sid);
                  EventOf(alert.mode, p.prev, Passed(alert.rules, p.store + [row]))
    {
      hide PairOk, Passed, MaxKeep, CheckPanics, KeepsQuiet, EventOf;
      var aid := alert.id;
      ghost var t, p := State(), Pair(State(), aid, sid);
      StepKeepsValid(alerts, t, alert, sid, row);
      PairStoreIsWide(alert, p);
      var points := Lookup(alertsStore[aid], sid, []) + [row];
      var max, passed;
      panicked, max, passed := Check(alert.rules, points);
      if panicked {
        return true, None;
      }
      sent := NoteVerdict(alert, sid, passed);
      CutStore(aid, sid, points, max);
      trace := trace[aid := trace[aid][sid := Trace(p.history + [row], Send(p.events, sent))]];
    }

    /** Of the rows checked, only the newest that Check asked for are kept. */
    method CutStore(aid: Id, sid: Id, checked: seq<Row>, max: nat)
      requires aid in alertsStore
      modifies this`alertsStore
      ensures var kept := if 0 < max < |checked| then checked[|checked| - max..] else checked;
        alertsStore == old(alertsStore)[aid := old(alertsStore)[aid][sid := kept]]
    {
      var points := checked;
      if max > 0 && max < |points| {
        var index := |points| - max;
        points := points[index..];
      }
      alertsStore := alertsStore[aid := alertsStore[aid][sid := points]];
    }

    /** The state table and the event: an event is sent when the trigger mode calls for one. */
    method NoteVerdict(alert: Alert, sid: Id, passed: bool) returns (sent: Option<Event>)
      requires alert.id in alertsPrevState
      modifies this`alertsPrevState
      ensures var prev := old(alertsPrevState[alert.id]);
        && alertsPrevState == old(alertsPrevState)[alert.id := prev[sid := if passed then CheckPass else CheckFail]]
        && sent == EventOf(alert.mode, Lookup(prev, sid, NoData), passed)
    {
      var aid := alert.id;
      var prev := Lookup(alertsPrevState[aid], sid, NoData);
      sent := None;
      if !passed {
        if alert.mode.AlwaysTrigger? || prev != CheckFail {
          alertsPrevState := alertsPrevState[aid := alertsPrevState[aid][sid := CheckFail]];
          sent := Some(Incident);
        } else {
          assert alertsPrevState[aid] == alertsPrevState[aid][sid := CheckFail];
          assert alertsPrevState == alertsPrevState[aid := alertsPrevState[aid][sid := CheckFail]];
        }
      } else {
        if prev == CheckFail {
          sent := Some(Resolved);
        }
        alertsPrevState := alertsPrevState[aid := alertsPrevState[aid][sid := CheckPass]];
      }
    }

    /** One tick. `servers` are the entries of the server map in any order, `admins` are the users with the
        admin role, `sample` is what each rule's snapshot of a server returns. */
    method CheckStatus(servers: seq<Server>, admins: set<Id>, sample: (Id, Id, nat) -> bool) returns (panicked: bool)
      requires Valid() && DistinctServers(servers)
      requires forall a, sid :: a in alerts ==> RoomFor(a, Pair(State(), a.id, sid).store)
      modifies this
      ensures panicked <==> exists a :: a in old(alerts) && TickPanics(a, servers, admins, sample, old(State()))
      ensures !panicked ==> Valid() && alerts == old(alerts)
      ensures !panicked ==> forall a, sid :: a in alerts ==>
                Pair(State(), a.id, sid) == AfterTick(a, servers, admins, sample, old(State()), sid)
      ensures !panicked ==> forall a, server :: a in alerts && server in servers ==>
                Pair(State(), a.id, server.id).history == Pair(old(State()), a.id, server.id).history +
                  if a.enabled && (a.userID == server.userID || a.userID in admins)
                  then [seq(|a.rules|, (i: nat) => sample(a.id, server.id, i))] else []
    {
      hide Pair, PairOk, PairStep, RoomFor, TickPanics, AfterTick;
      ghost var t := State();
      panicked := false;
      for i := 0 to |alerts|
        invariant Valid() && alerts == old(alerts) && !panicked
        invariant forall k :: 0 <= k < i ==> !TickPanics(alerts[k], servers, admins, sample, t)
        invariant forall k, sid :: 0 <= k < i ==>
                    Pair(State(), alerts[k].id, sid) == AfterTick(alerts[k], servers, admins, sample, t, sid)
        invariant forall k, sid :: i <= k < |alerts| ==> Pair(State(), alerts[k].id, sid) == Pair(t, alerts[k].id, sid)
      {
        assert alerts[i] in alerts;
        TickOfAlert(alerts[i], servers, admins, sample, t, State());
        if alerts[i].enabled {
          panicked := CheckAlert(alerts[i], servers, admins, sample);
          if panicked {
            return;
          }
        }
      }
      forall a, server | a in alerts && server in servers
        ensures Pair(State(), a.id, server.id).history == Pair(t, a.id, server.id).history +
                  if a.enabled && (a.userID == server.userID || a.userID in admins)
                  then [seq(|a.rules|, (i: nat) => sample(a.id, server.id, i))] else []
      {
        TickSamples(a, servers, admins, sample, t, server);
      }
    }

    /** The inner loop: every server the alert's owner may watch, in any order. */
    method CheckAlert(alert: Alert, servers: seq<Server>, admins: set<Id>, sample: (Id, Id, nat) -> bool)
      returns (panicked: bool)
      requires Valid() && DistinctServers(servers) && alert in alerts && alert.enabled
      requires forall sid :: RoomFor(alert, Pair(State(), alert.id, sid).store)
      modifies this
      ensures panicked <==> TickPanics(alert, servers, admins, sample, old(State()))
      ensures !panicked ==> Valid() && alerts == old(alerts)
      ensures !panicked ==> forall sid ::
                Pair(State(), alert.id, sid) == AfterTick(alert, servers, admins, sample, old(State()), sid)
      ensures !panicked ==> forall aid, sid :: aid != alert.id ==>
                Pair(State(), aid, sid) == Pair(old(State()), aid, sid)
    {
      hide Pair, PairOk, PairStep, PutPair, RoomFor, PairPanics;
      ghost var t := State();
      panicked := false;
      for j := 0 to |servers|
        invariant Valid() && alerts == old(alerts) && !panicked
        invariant forall k :: 0 <= k < j ==> !ServerPanics(alert, servers[k], admins, sample, t)
        invariant forall sid :: Pair(State(), alert.id, sid) == AfterTick(alert, servers[..j], admins, sample, t, sid)
        invariant forall aid, sid :: aid != alert.id ==> Pair(State(), aid, sid) == Pair(t, aid, sid)
      {
        var server := servers[j];
        WatchedStep(alert, servers, admins, j);
        if alert.userID != server.userID && alert.userID !in admins {
          continue;
        }
        var row := Snapshot(alert, server.id, sample);
        PutPairLookup(State(), alert.id, server.id, PairStep(alert, Pair(State(), alert.id, server.id), row));
        assert Pair(State(), alert.id, server.id) == Pair(t, alert.id, server.id);
        var sent;
        panicked, sent := CheckPair(alert, server.id, row);
        if panicked {
          return;
        }
      }
      assert servers[..|servers|] == servers;
    }

    static method Snapshot(alert: Alert, sid: Id, sample: (Id, Id, nat) -> bool) returns (point: Row)
      ensures point == RowOf(alert, sample, sid)
    {
      point := seq(|alert.rules|, _ => false);
      for i := 0 to |alert.rules|
        invariant |point| == |alert.rules|
        invariant forall k :: 0 <= k < i ==> point[k] == sample(alert.id, sid, k)
      {
        point := point[i := sample(alert.id, sid, i)];
      }
    }
  }

  /** In every reachable state: bounded stores of the right width, verdicts that are those of the
      complete history for a trim-safe alert, and alternating events for a one-time alert. */
  lemma ReachablePair(alerts: seq<Alert>, t: Tables, alert: Alert, sid: Id)
    requires ValidTables(alerts, t) && alert in alerts
    ensures var p := Pair(t, alert.id, sid);
      && WideRows(p.store, |alert.rules|)
      && |p.store| <= LargestWindow(alert.rules)
      && IsSuffix(p.store, p.history)
      && (alert.mode.OnetimeTrigger? ==> Alternates(p.events))
      && (ValidRules(alert.rules) && TrimSafe(alert.rules) && p.history != [] ==>
            p.prev == if Passed(alert.rules, p.history) then CheckPass else CheckFail)
  {
    hide Store, Verdicts, EventsOf, Passed, TrimSafe, LargestWindow, Pair;
    var p := Pair(t, alert.id, sid);
    assert PairOk(alert, p);
    StoreIsSuffix(alert.rules, p.history);
    StoreIsBounded(alert.rules, p.history);
    OnetimeEventsAlternate(Verdicts(alert.rules, p.history));
    if ValidRules(alert.rules) && TrimSafe(alert.rules) && p.history != [] {
      VerdictsOfFullHistory(alert.rules, p.history, |p.history| - 1);
      assert p.history[..|p.history|] == p.history;
    }
  }

  ghost function Refreshed(alerts: seq<Alert>, alert: Alert): seq<Alert> {
    if exists k :: 0 <= k < |alerts| && alerts[k].id == alert.id
    then seq(|alerts|, k requires 0 <= k < |alerts| => if alerts[k].id == alert.id then alert else alerts[k])
    else alerts + [alert]
  }

  /** An alert whose id is listed takes the place of the listed one; any other is appended. */
  lemma RefreshedMeans(alerts: seq<Alert>, alert: Alert)
    requires DistinctIds(alerts)
    ensures (forall k :: 0 <= k < |alerts| ==> alerts[k].id != alert.id) ==>
              Refreshed(alerts, alert) == alerts + [alert]
    ensures forall k :: 0 <= k < |alerts| && alerts[k].id == alert.id ==> Refreshed(alerts, alert) == alerts[k := alert]
  {
  }

  lemma RefreshedIds(alerts: seq<Alert>, alert: Alert)
    requires DistinctIds(alerts)
    ensures DistinctIds(Refreshed(alerts, alert))
    ensures forall a :: a in Refreshed(alerts, alert) <==> a == alert || (a in alerts && a.id != alert.id)
  {
    var r := Refreshed(alerts, alert);
    forall a | a == alert || (a in alerts && a.id != alert.id)
      ensures a in r
    {
      if a == alert && |r| == |alerts| {
        var k :| 0 <= k < |alerts| && alerts[k].id == alert.id;
        assert r[k] == alert;
      } else if a != alert {
        var k :| 0 <= k < |alerts| && alerts[k] == a;
        assert r[k] == a;
      } else {
        assert r[|alerts|] == alert;
      }
    }
  }

  // ---- filtering the alert list

  ghost function Without(alerts: seq<Alert>, ids: seq<Id>): seq<Alert> {
    if alerts == [] then []
    else
      var rest := Without(alerts[..|alerts| - 1], ids);
      if alerts[|alerts| - 1].id in ids then rest else rest + [alerts[|alerts| - 1]]
  }

  lemma {:induction false} WithoutNothing(alerts: seq<Alert>)
    ensures Without(alerts, []) == alerts
  {
    if alerts != [] {
      WithoutNothing(alerts[..|alerts| - 1]);
    }
  }

  lemma {:induction false} WithoutIsSubsequence(alerts: seq<Alert>, ids: seq<Id>)
    ensures forall a :: a in Without(alerts, ids) <==> a in alerts && a.id !in ids
    ensures DistinctIds(alerts) ==> DistinctIds(Without(alerts, ids))
  {
    if alerts != [] {
      var before := alerts[..|alerts| - 1];
      WithoutIsSubsequence(before, ids);
      assert forall a :: a in alerts <==> a in before || a == alerts[|alerts| - 1];
    }
  }

  /** The list is filtered alert by alert, so what is left keeps its order. */
  lemma WithoutMore(alerts: seq<Alert>, last: Alert, ids: seq<Id>)
    ensures Without(alerts + [last], ids) == Without(alerts, ids) + if last.id in ids then [] else [last]
  {
    assert (alerts + [last])[..|alerts|] == alerts;
  }

  lemma {:induction false} WithoutTwice(alerts: seq<Alert>, ids: seq<Id>, more: seq<Id>)
    ensures Without(Without(alerts, ids), more) == Without(alerts, ids + more)
  {
    if alerts != [] {
      WithoutTwice(alerts[..|alerts| - 1], ids, more);
      var rest := Without(alerts[..|alerts| - 1], ids);
      assert (rest + [alerts[|alerts| - 1]])[..|rest|] == rest;
    }
  }
}
