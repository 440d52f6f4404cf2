/** Tunnel sessions and their public ports, over every interleaving of the server's goroutines
    (internal/xtpro/server/server.go:308-352, 423-490). A session is known by its index; one step is
    one critical section: taking a port, addClient, or removeClient. kickClient looks a session up
    and removes it later, so a removal may come at any time and more than once. */
module TunnelRegistry {
  import opened PortPool

  /** `reserved`: the port came out of the pool. `released`: how often removeClient passed the port on
      to releasePort. */
  datatype Session = Session(clientID: string, port: int, reserved: bool, added: bool, released: nat)

  datatype Registry = Registry(pool: Pool, clients: map<string, nat>, sessions: seq<Session>)

  datatype Step = TakePort(clientID: string, requested: int) | AddClient(sid: nat) | RemoveClient(sid: nat)

  function NewRegistry(start: int, end: int): Registry {
    Registry(NewPool(start, end), map[], [])
  }

  predicate Enabled(r: Registry, step: Step) {
    match step
    case TakePort(_, _) => true
    case AddClient(sid) => sid < |r.sessions| && !r.sessions[sid].added
    case RemoveClient(sid) => sid < |r.sessions|
  }

  predicate IsRegistered(r: Registry, sid: nat)
    requires sid < |r.sessions|
  {
    r.sessions[sid].clientID in r.clients && r.clients[r.sessions[sid].clientID] == sid
  }

  function Next(r: Registry, step: Step): Registry
    requires Enabled(r, step)
  {
    match step
    case TakePort(clientID, requested) =>
      var g := Granted(r.pool, requested);
      Registry(g.pool, r.clients,
               r.sessions + [Session(clientID, g.port, g.port in g.pool.used && g.port !in r.pool.used, false, 0)])
    case AddClient(sid) =>
      var s := r.sessions[sid];
      Registry(r.pool, r.clients[s.clientID := sid], r.sessions[sid := s.(added := true)])
    case RemoveClient(sid) =>
      var s := r.sessions[sid];
      if IsRegistered(r, sid) then
        Registry(Released(r.pool, s.port), r.clients - {s.clientID}, r.sessions[sid := s.(released := s.released + 1)])
      else r
  }

  // ---- what a session is doing

  predicate Holds(s: Session) {
    s.reserved && s.released == 0
  }

  predicate IsSuperseded(r: Registry, sid: nat)
    requires sid < |r.sessions|
  {
    r.sessions[sid].added && r.sessions[sid].released == 0 && !IsRegistered(r, sid)
  }

  /** Either the fallback port is not one of the pool's, or the pool was never exhausted. */
  ghost predicate Clean(r: Registry) {
    !r.pool.InRange(FALLBACK) || forall i :: 0 <= i < |r.sessions| ==> r.sessions[i].reserved
  }

  ghost predicate ClientsOk(r: Registry) {
    forall c :: c in r.clients ==>
      && r.clients[c] < |r.sessions|
      && var s := r.sessions[r.clients[c]];
         s.clientID == c && s.added && s.released == 0
  }

  /** The sessions the invariant speaks of: all that hold a port, or all but those of the fallback port. */
  predicate Counted(s: Session, all: bool) {
    Holds(s) && (all || s.port != FALLBACK)
  }

  ghost predicate SessionOk(r: Registry, sid: nat, all: bool)
    requires sid < |r.sessions|
  {
    var s := r.sessions[sid];
    && s.released <= 1
    && (s.released == 1 ==> s.added)
    && (s.reserved ==> r.pool.InRange(s.port))
    && (Counted(s, all) ==> s.port in r.pool.used)
    && (!s.reserved ==> s.port == FALLBACK)
  }

  ghost predicate DistinctPorts(r: Registry, all: bool) {
    forall i, j :: 0 <= i < j < |r.sessions| && Counted(r.sessions[i], all) && Counted(r.sessions[j], all) ==>
      r.sessions[i].port != r.sessions[j].port
  }

  ghost predicate HeldBySome(r: Registry, port: int) {
    exists i :: 0 <= i < |r.sessions| && Holds(r.sessions[i]) && r.sessions[i].port == port
  }

  /** The used ports are exactly those of the sessions that hold one, and no two sessions hold the
      same; unless `all`, this is said of every port but the fallback. */
  ghost predicate Sound(r: Registry, all: bool) {
    && ValidPool(r.pool)
    && ClientsOk(r)
    && (forall i :: 0 <= i < |r.sessions| ==> SessionOk(r, i, all))
    && DistinctPorts(r, all)
    && (forall p :: p in r.pool.used ==> HeldBySome(r, p))
  }

  ghost predicate Valid(r: Registry) {
    Sound(r, true)
  }

  /** A removal does harm if it releases the fallback port for a session that never reserved it. */
  predicate Harmless(r: Registry, step: Step)
    requires Enabled(r, step)
  {
    step.RemoveClient? ==>
      !(IsRegistered(r, step.sid) && !r.sessions[step.sid].reserved && FALLBACK in r.pool.used)
  }

  lemma NewIsValid(start: int, end: int)
    ensures Valid(NewRegistry(start, end)) && Clean(NewRegistry(start, end))
  {
    NewPoolIsValid(start, end);
  }

  lemma ValidIsSound(r: Registry)
    requires Valid(r)
    ensures Sound(r, false)
  {
    forall i | 0 <= i < |r.sessions|
      ensures SessionOk(r, i, false)
    {
      assert SessionOk(r, i, true);
    }
  }

  lemma TakePortSound(r: Registry, clientID: string, requested: int, all: bool)
    requires Sound(r, all)
    ensures Sound(Next(r, TakePort(clientID, requested)), all)
  {
    GrantMeaning(r.pool, requested);
    var g := Granted(r.pool, requested);
    assert g.port in g.pool.used && g.port !in r.pool.used ==> g.pool.InRange(g.port);
    var n := Next(r, TakePort(clientID, requested));
    hide ValidPool, Granted;
    forall i | 0 <= i < |n.sessions|
      ensures SessionOk(n, i, all)
    {
      if i < |r.sessions| {
        assert SessionOk(r, i, all);
      }
    }
    forall p | p in n.pool.used
      ensures HeldBySome(n, p)
    {
      if p in r.pool.used {
        KeepsHolder(r, n, p);
      } else {
        assert n.sessions[|r.sessions|].port == p;
      }
    }
    forall i | 0 <= i < |r.sessions| && Counted(n.sessions[i], all)
      ensures n.sessions[i].port in r.pool.used
    {
      assert SessionOk(r, i, all);
    }
  }

  lemma KeepsHolder(r: Registry, n: Registry, p: int)
    requires HeldBySome(r, p) && |r.sessions| <= |n.sessions|
    requires forall i :: 0 <= i < |r.sessions| && Holds(r.sessions[i]) ==>
               Holds(n.sessions[i]) && n.sessions[i].port == r.sessions[i].port
    ensures HeldBySome(n, p)
  {
    var i :| 0 <= i < |r.sessions| && Holds(r.sessions[i]) && r.sessions[i].port == p;
    assert n.sessions[i].port == p;
  }

  lemma AddClientSound(r: Registry, sid: nat, all: bool)
    requires Sound(r, all) && Enabled(r, AddClient(sid))
    ensures Sound(Next(r, AddClient(sid)), all)
  {
    var n := Next(r, AddClient(sid));
    hide ValidPool;
    assert SessionOk(r, sid, all);
    forall i | 0 <= i < |n.sessions|
      ensures SessionOk(n, i, all)
    {
      assert SessionOk(r, i, all);
    }
    forall p | p in n.pool.used
      ensures HeldBySome(n, p)
    {
      KeepsHolder(r, n, p);
    }
    assert DistinctPorts(n, all);
    assert ClientsOk(n);
  }

  lemma RemoveClientSound(r: Registry, sid: nat, all: bool)
    requires Sound(r, all) && Enabled(r, RemoveClient(sid))
    requires all ==> Harmless(r, RemoveClient(sid))
    ensures Sound(Next(r, RemoveClient(sid)), all)
  {
    if IsRegistered(r, sid) {
      var s := r.sessions[sid];
      var n := Next(r, RemoveClient(sid));
      ReleaseMeaning(r.pool, s.port);
      assert SessionOk(r, sid, all);
      hide ValidPool, Released;
      forall i | 0 <= i < |n.sessions|
        ensures SessionOk(n, i, all)
      {
        assert SessionOk(r, i, all);
      }
      forall p | p in n.pool.used
        ensures HeldBySome(n, p)
      {
        var i :| 0 <= i < |r.sessions| && Holds(r.sessions[i]) && r.sessions[i].port == p;
        assert i != sid;
        assert n.sessions[i] == r.sessions[i];
      }
    }
  }

  /** The removal of a registered session gives its port back to the pool, and its client id is free. */
  lemma RemovalFreesPort(r: Registry, sid: nat)
    requires Valid(r) && sid < |r.sessions| && IsRegistered(r, sid) && r.sessions[sid].reserved
    ensures var n, s := Next(r, RemoveClient(sid)), r.sessions[sid];
      && s.port in r.pool.used && s.port !in n.pool.used && s.port in n.pool.available
      && s.clientID !in n.clients && n.sessions[sid].released == 1
  {
    assert SessionOk(r, sid, true);
    ReleaseMeaning(r.pool, r.sessions[sid].port);
  }

  /** A harmful removal leaves a session that holds a port nothing reserves any more. */
  lemma HarmfulBreaks(r: Registry, sid: nat)
    requires Valid(r) && Enabled(r, RemoveClient(sid)) && !Harmless(r, RemoveClient(sid))
    ensures !Valid(Next(r, RemoveClient(sid)))
  {
    var n := Next(r, RemoveClient(sid));
    assert SessionOk(r, sid, true);
    var i :| 0 <= i < |r.sessions| && Holds(r.sessions[i]) && r.sessions[i].port == FALLBACK;
    ReleaseMeaning(r.pool, FALLBACK);
    assert n.sessions[i] == r.sessions[i];
    assert !SessionOk(n, i, true);
  }

  /** Every step keeps the invariant for all ports but the fallback. */
  lemma StepSound(r: Registry, step: Step)
    requires Sound(r, false) && Enabled(r, step)
    ensures Sound(Next(r, step), false)
  {
    match step
    case TakePort(clientID, requested) => TakePortSound(r, clientID, requested, false);
    case AddClient(sid) => AddClientSound(r, sid, false);
    case RemoveClient(sid) => RemoveClientSound(r, sid, false);
  }

  /** A step keeps the whole invariant exactly if it is not a harmful removal. */
  lemma StepValidIffHarmless(r: Registry, step: Step)
    requires Valid(r) && Enabled(r, step)
    ensures Valid(Next(r, step)) <==> Harmless(r, step)
  {
    match step
    case TakePort(clientID, requested) => TakePortSound(r, clientID, requested, true);
    case AddClient(sid) => AddClientSound(r, sid, true);
    case RemoveClient(sid) =>
      if Harmless(r, step) {
        RemoveClientSound(r, sid, true);
      } else {
        HarmfulBreaks(r, sid);
      }
  }

  /** The port told to a new session is held by no other one exactly if the pool is not exhausted or
      the fallback port is none of its own. */
  lemma ExclusiveIffNotExhausted(r: Registry, requested: int)
    requires Valid(r)
    ensures !HeldBySome(r, Granted(r.pool, requested).port) <==> r.pool.available != [] || !r.pool.InRange(FALLBACK)
  {
    GrantMeaning(r.pool, requested);
    var port := Granted(r.pool, requested).port;
    if HeldBySome(r, port) {
      var i :| 0 <= i < |r.sessions| && Holds(r.sessions[i]) && r.sessions[i].port == port;
      assert SessionOk(r, i, true);
    }
  }

  // ---- runs

  predicate Runnable(r: Registry, steps: seq<Step>)
    decreases steps
  {
    steps == [] || (Enabled(r, steps[0]) && Runnable(Next(r, steps[0]), steps[1..]))
  }

  function Run(r: Registry, steps: seq<Step>): Registry
    requires Runnable(r, steps)
    decreases steps
  {
    if steps == [] then r else Run(Next(r, steps[0]), steps[1..])
  }

  predicate HarmlessRun(r: Registry, steps: seq<Step>)
    requires Runnable(r, steps)
    decreases steps
  {
    steps == [] || (Harmless(r, steps[0]) && HarmlessRun(Next(r, steps[0]), steps[1..]))
  }

  ghost predicate AlwaysValid(r: Registry, steps: seq<Step>)
    requires Runnable(r, steps)
    decreases steps
  {
    Valid(r) && (steps == [] || AlwaysValid(Next(r, steps[0]), steps[1..]))
  }

  /** In every run whatever: each port but the fallback is in use exactly if one session holds it. */
  lemma {:induction false} RunSound(r: Registry, steps: seq<Step>)
    requires Sound(r, false) && Runnable(r, steps)
    ensures Sound(Run(r, steps), false)
    decreases steps
  {
    if steps != [] {
      StepSound(r, steps[0]);
      hide Sound, Next;
      RunSound(Next(r, steps[0]), steps[1..]);
    }
  }

  /** The invariant holds for the fallback port too, in every state of a run, exactly if the run
      contains no harmful removal. */
  lemma {:induction false} RunValidIffHarmless(r: Registry, steps: seq<Step>)
    requires Valid(r) && Runnable(r, steps)
    ensures AlwaysValid(r, steps) <==> HarmlessRun(r, steps)
    ensures HarmlessRun(r, steps) ==> Valid(Run(r, steps))
    decreases steps
  {
    if steps != [] {
      StepValidIffHarmless(r, steps[0]);
      hide Valid, Next, Harmless;
      var n := Next(r, steps[0]);
      if Harmless(r, steps[0]) {
        RunValidIffHarmless(n, steps[1..]);
      } else {
        assert !Valid(n);
      }
    }
  }

  lemma StepKeepsRange(r: Registry, step: Step)
    requires Enabled(r, step)
    ensures Next(r, step).pool.start == r.pool.start && Next(r, step).pool.end == r.pool.end
    ensures |r.sessions| <= |Next(r, step).sessions|
    ensures forall i :: 0 <= i < |r.sessions| ==>
              Next(r, step).sessions[i].reserved == r.sessions[i].reserved
              && Next(r, step).sessions[i].port == r.sessions[i].port
              && Next(r, step).sessions[i].clientID == r.sessions[i].clientID
  {
  }

  lemma {:induction false} CleanBefore(r: Registry, steps: seq<Step>)
    requires Runnable(r, steps) && Clean(Run(r, steps))
    ensures Clean(r)
    decreases steps
  {
    if steps != [] {
      CleanBefore(Next(r, steps[0]), steps[1..]);
      var n := Next(r, steps[0]);
      StepKeepsRange(r, steps[0]);
      if r.pool.InRange(FALLBACK) {
        forall i | 0 <= i < |r.sessions|
          ensures r.sessions[i].reserved
        {
          assert n.sessions[i].reserved;
        }
      }
    }
  }

  /** Without exhaustion, or with a range that excludes the fallback port, no removal does harm. */
  lemma {:induction false} CleanIsHarmless(r: Registry, steps: seq<Step>)
    requires Valid(r) && Runnable(r, steps) && Clean(Run(r, steps))
    ensures HarmlessRun(r, steps)
    decreases steps
  {
    CleanBefore(r, steps);
    if steps != [] {
      assert Harmless(r, steps[0]);
      StepValidIffHarmless(r, steps[0]);
      hide Valid, Clean, Next;
      CleanIsHarmless(Next(r, steps[0]), steps[1..]);
    }
  }

  /** Two registered sessions share a port exactly if both were told the fallback port and at most one
      of them has it from the pool. */
  lemma RegisteredPorts(r: Registry, i: nat, j: nat)
    requires Valid(r) && i < |r.sessions| && j < |r.sessions| && i != j
    requires IsRegistered(r, i) && IsRegistered(r, j)
    ensures r.sessions[i].port == r.sessions[j].port <==>
            r.sessions[i].port == FALLBACK && r.sessions[j].port == FALLBACK
            && !(r.sessions[i].reserved && r.sessions[j].reserved)
    ensures r.sessions[i].reserved ==> r.sessions[i].port in r.pool.used
    ensures r.sessions[i].released == 0
  {
    assert SessionOk(r, i, true) && SessionOk(r, j, true);
  }

  // ---- accounting: used ports = granted, registered and superseded ones

  ghost function Holding(r: Registry): set<nat> {
    set i: nat | i < |r.sessions| && Holds(r.sessions[i])
  }

  ghost function Waiting(r: Registry): set<nat> {
    set i: nat | i < |r.sessions| && r.sessions[i].reserved && !r.sessions[i].added
  }

  ghost function Registered(r: Registry): set<nat> {
    set i: nat | i < |r.sessions| && r.sessions[i].reserved && IsRegistered(r, i)
  }

  ghost function Superseded(r: Registry): set<nat> {
    set i: nat | i < |r.sessions| && r.sessions[i].reserved && IsSuperseded(r, i)
  }

  ghost function PortsOf(r: Registry, ids: set<nat>): set<int>
    requires forall i :: i in ids ==> i < |r.sessions|
  {
    set i | i in ids :: r.sessions[i].port
  }

  ghost function Below(ids: set<nat>, n: nat): set<nat> {
    set i | i in ids && i < n
  }

  lemma {:induction false} DistinctImage(r: Registry, ids: set<nat>, n: nat)
    requires DistinctPorts(r, true) && forall i :: i in ids ==> i < |r.sessions| && Holds(r.sessions[i])
    ensures |PortsOf(r, Below(ids, n))| == |Below(ids, n)|
  {
    if n == 0 {
      assert Below(ids, n) == {};
    } else {
      DistinctImage(r, ids, n - 1);
      var rest := Below(ids, n - 1);
      if n - 1 in ids {
        assert Below(ids, n) == rest + {n - 1};
        ImageMore(r, rest, n - 1);
      } else {
        assert Below(ids, n) == rest;
      }
    }
  }

  lemma ImageMore(r: Registry, rest: set<nat>, i: nat)
    requires i < |r.sessions| && forall k :: k in rest ==> k < |r.sessions|
    requires forall k :: k in rest ==> r.sessions[k].port != r.sessions[i].port
    ensures |PortsOf(r, rest + {i})| == |PortsOf(r, rest)| + 1
  {
    assert PortsOf(r, rest + {i}) == PortsOf(r, rest) + {r.sessions[i].port};
  }

  /** A session that holds a port is in exactly one of the three situations. */
  lemma OneSituation(r: Registry, i: nat)
    requires Valid(r)
    ensures i in Holding(r) <==> i in Waiting(r) || i in Registered(r) || i in Superseded(r)
    ensures !(i in Waiting(r) && i in Registered(r))
    ensures !(i in Superseded(r) && (i in Waiting(r) || i in Registered(r)))
  {
    if i < |r.sessions| {
      assert SessionOk(r, i, true);
      if IsRegistered(r, i) {
        assert r.clients[r.sessions[i].clientID] == i;
      }
    }
  }

  lemma HoldingSplits(r: Registry)
    requires Valid(r)
    ensures Holding(r) == Waiting(r) + Registered(r) + Superseded(r)
    ensures |Holding(r)| == |Waiting(r)| + |Registered(r)| + |Superseded(r)|
  {
    forall i: nat
      ensures i in Holding(r) <==> i in Waiting(r) || i in Registered(r) || i in Superseded(r)
      ensures !(i in Waiting(r) && i in Registered(r))
      ensures !(i in Superseded(r) && (i in Waiting(r) || i in Registered(r)))
    {
      OneSituation(r, i);
    }
    hide Holding, Waiting, Registered, Superseded, Valid;
    assert Waiting(r) !! Registered(r);
    assert (Waiting(r) + Registered(r)) !! Superseded(r);
  }

  lemma UsedIsHeld(r: Registry)
    requires Valid(r)
    ensures r.pool.used == PortsOf(r, Holding(r))
  {
    forall p
      ensures p in r.pool.used <==> p in PortsOf(r, Holding(r))
    {
      if p in r.pool.used {
        var i :| 0 <= i < |r.sessions| && Holds(r.sessions[i]) && r.sessions[i].port == p;
        assert i in Holding(r);
      }
      if p in PortsOf(r, Holding(r)) {
        var i :| i in Holding(r) && r.sessions[i].port == p;
        assert SessionOk(r, i, true);
      }
    }
  }

  /** Each used port is accounted for once: by a session that has not been added yet, by a registered
      one, or by one replaced under the same client id. */
  lemma UsedPortsAccounted(r: Registry)
    requires Valid(r)
    ensures r.pool.used == PortsOf(r, Holding(r))
    ensures Holding(r) == Waiting(r) + Registered(r) + Superseded(r)
    ensures |r.pool.used| == |Waiting(r)| + |Registered(r)| + |Superseded(r)|
  {
    UsedIsHeld(r);
    HoldingSplits(r);
    DistinctImage(r, Holding(r), |r.sessions|);
    assert Below(Holding(r), |r.sessions|) == Holding(r);
  }

  /** Every run from the start: no port is released twice for a session, and a registered session that
      has any other port than the fallback has it reserved and to itself. Every run without a harmful
      removal: the same for the fallback port, among the sessions that have it from the pool, and the
      used ports add up. */
  lemma ReachableSessions(start: int, end: int, steps: seq<Step>)
    requires Runnable(NewRegistry(start, end), steps)
    ensures var r := Run(NewRegistry(start, end), steps);
      && (forall i :: 0 <= i < |r.sessions| ==> r.sessions[i].released <= 1)
      && (forall i :: 0 <= i < |r.sessions| && IsRegistered(r, i) && r.sessions[i].port != FALLBACK ==>
            r.sessions[i].port in r.pool.used)
      && (forall i, j :: 0 <= i < j < |r.sessions| && IsRegistered(r, i) && IsRegistered(r, j) ==>
            r.sessions[i].port != r.sessions[j].port || r.sessions[i].port == FALLBACK)
    ensures var r := Run(NewRegistry(start, end), steps);
      HarmlessRun(NewRegistry(start, end), steps) ==>
        && (forall i :: 0 <= i < |r.sessions| && IsRegistered(r, i) && r.sessions[i].reserved ==>
              r.sessions[i].port in r.pool.used)
        && (forall i, j :: 0 <= i < j < |r.sessions| && IsRegistered(r, i) && IsRegistered(r, j) ==>
              r.sessions[i].reserved && r.sessions[j].reserved ==> r.sessions[i].port != r.sessions[j].port)
        && |r.pool.used| == |Waiting(r)| + |Registered(r)| + |Superseded(r)|
  {
    var s := NewRegistry(start, end);
    var r := Run(s, steps);
    NewIsValid(start, end);
    ValidIsSound(s);
    RunSound(s, steps);
    RunValidIffHarmless(s, steps);
    hide Run;
    SoundSessions(r);
    if HarmlessRun(s, steps) {
      UsedPortsAccounted(r);
      forall i, j | 0 <= i < |r.sessions| && 0 <= j < |r.sessions| && i != j && IsRegistered(r, i) && IsRegistered(r, j)
        ensures r.sessions[i].reserved ==> r.sessions[i].port in r.pool.used
        ensures r.sessions[i].reserved && r.sessions[j].reserved ==> r.sessions[i].port != r.sessions[j].port
      {
        RegisteredPorts(r, i, j);
      }
      forall i | 0 <= i < |r.sessions| && IsRegistered(r, i) && r.sessions[i].reserved
        ensures r.sessions[i].port in r.pool.used
      {
        assert SessionOk(r, i, true);
      }
    }
  }

  lemma SoundSessions(r: Registry)
    requires Sound(r, false)
    ensures forall i :: 0 <= i < |r.sessions| ==> r.sessions[i].released <= 1
    ensures forall i :: 0 <= i < |r.sessions| && IsRegistered(r, i) && r.sessions[i].port != FALLBACK ==>
              r.sessions[i].port in r.pool.used
    ensures forall i, j :: 0 <= i < j < |r.sessions| && IsRegistered(r, i) && IsRegistered(r, j) ==>
              r.sessions[i].port != r.sessions[j].port || r.sessions[i].port == FALLBACK
  {
    forall i | 0 <= i < |r.sessions|
      ensures r.sessions[i].released <= 1
      ensures IsRegistered(r, i) && r.sessions[i].port != FALLBACK ==>
                Counted(r.sessions[i], false) && r.sessions[i].port in r.pool.used
    {
      assert SessionOk(r, i, false);
    }
  }

  // ---- the leak

  lemma SupersededStep(r: Registry, step: Step, sid: nat)
    requires Sound(r, false) && Enabled(r, step) && sid < |r.sessions| && IsSuperseded(r, sid)
    ensures var n := Next(r, step); IsSuperseded(n, sid) && n.sessions[sid] == r.sessions[sid]
  {
    if step.AddClient? {
      assert step.sid != sid;
    }
  }

  /** A session replaced under its client id never gives its port back: whatever happens later, the
      port stays in use; for the fallback port, as long as no removal does harm. */
  lemma {:induction false} SupersededForever(r: Registry, steps: seq<Step>, sid: nat)
    requires Valid(r) && Runnable(r, steps)
    requires sid < |r.sessions| && IsSuperseded(r, sid) && r.sessions[sid].reserved
    ensures var e := Run(r, steps);
      && sid < |e.sessions| && IsSuperseded(e, sid) && e.sessions[sid] == r.sessions[sid]
      && (r.sessions[sid].port != FALLBACK || HarmlessRun(r, steps) ==> e.sessions[sid].port in e.pool.used)
  {
    ValidIsSound(r);
    RunSound(r, steps);
    RunValidIffHarmless(r, steps);
    SupersededRun(r, steps, sid);
    var e := Run(r, steps);
    hide Run;
    assert SessionOk(e, sid, false);
    if HarmlessRun(r, steps) {
      assert SessionOk(e, sid, true);
    }
  }

  lemma {:induction false} SupersededRun(r: Registry, steps: seq<Step>, sid: nat)
    requires Sound(r, false) && Runnable(r, steps)
    requires sid < |r.sessions| && IsSuperseded(r, sid)
    ensures var e := Run(r, steps);
      sid < |e.sessions| && IsSuperseded(e, sid) && e.sessions[sid] == r.sessions[sid]
    decreases steps
  {
    if steps != [] {
      StepSound(r, steps[0]);
      SupersededStep(r, steps[0], sid);
      hide Sound, Next;
      SupersededRun(Next(r, steps[0]), steps[1..], sid);
    }
  }

  // ---- an exhausted pool whose range contains the fallback port

  /** Removing a session that was answered by an exhausted pool frees the fallback port exactly if it
      was in use; a session that really holds it is left as it is. */
  lemma FallbackFreesAnother(r: Registry, holder: nat, other: nat)
    requires Valid(r) && holder < |r.sessions| && other < |r.sessions|
    requires Holds(r.sessions[holder]) && r.sessions[holder].port == FALLBACK
    requires IsRegistered(r, other) && holder != other
    ensures var n := Next(r, RemoveClient(other));
      && n.sessions[holder] == r.sessions[holder]
      && (FALLBACK !in n.pool.used <==> !r.sessions[other].reserved)
      && (IsRegistered(r, holder) ==> IsRegistered(n, holder))
  {
    assert SessionOk(r, holder, true) && SessionOk(r, other, true);
    ReleaseMeaning(r.pool, r.sessions[other].port);
    if IsRegistered(r, holder) {
      assert r.sessions[holder].clientID != r.sessions[other].clientID;
    }
  }

  /** A harmful removal is all it takes: the next client that asks for the fallback port is given it
      while the first session still uses it. */
  lemma HarmfulCollides(r: Registry, other: nat, clientID: string) returns (holder: nat)
    requires Valid(r) && Enabled(r, RemoveClient(other)) && !Harmless(r, RemoveClient(other))
    ensures holder < |r.sessions| && Holds(r.sessions[holder])
    ensures var n := Next(Next(r, RemoveClient(other)), TakePort(clientID, FALLBACK));
      && n.sessions[holder] == r.sessions[holder]
      && Holds(n.sessions[|r.sessions|]) && n.sessions[|r.sessions|].port == n.sessions[holder].port
      && (IsRegistered(r, holder) ==> IsRegistered(n, holder))
  {
    var i :| 0 <= i < |r.sessions| && Holds(r.sessions[i]) && r.sessions[i].port == FALLBACK;
    FallbackFreesAnother(r, i, other);
    holder := i;
  }

  // ---- such a run exists for every range that contains the fallback port

  lemma {:induction false} RunAppend(r: Registry, first: seq<Step>, second: seq<Step>)
    requires Runnable(r, first) && Runnable(Run(r, first), second)
    ensures Runnable(r, first + second) && Run(r, first + second) == Run(Run(r, first), second)
    decreases first
  {
    if first == [] {
      assert first + second == second;
    } else {
      assert (first + second)[1..] == first[1..] + second;
      hide Next;
      RunAppend(Next(r, first[0]), first[1..], second);
    }
  }

  /** As many clients as there are free ports exhaust the pool. */
  lemma {:induction false} Exhaust(r: Registry) returns (steps: seq<Step>)
    requires Valid(r)
    ensures Runnable(r, steps)
    ensures var e := Run(r, steps);
      && Valid(e) && e.pool.available == [] && e.clients == r.clients
      && e.pool.start == r.pool.start && e.pool.end == r.pool.end
      && |r.sessions| <= |e.sessions| && e.sessions[..|r.sessions|] == r.sessions
    decreases |r.pool.available|
  {
    steps := [];
    if r.pool.available != [] {
      var step := TakePort("", r.pool.start - 1);
      StepValidIffHarmless(r, step);
      var n := Next(r, step);
      assert n.pool.available == r.pool.available[1..];
      assert n.clients == r.clients && n.sessions[..|r.sessions|] == r.sessions && |r.sessions| < |n.sessions|;
      assert n.pool.start == r.pool.start && n.pool.end == r.pool.end;
      hide Valid, Next;
      var rest := Exhaust(n);
      steps := [step] + rest;
      assert steps[1..] == rest;
      var e := Run(r, steps);
      assert e.sessions[..|r.sessions|] == e.sessions[..|n.sessions|][..|r.sessions|];
    }
  }

  /** For every range that contains the fallback port: a client holds it, others use up the pool, one
      more is answered by the exhausted pool and leaves, and the next is given the port that the first
      still uses. Both are registered and both have it from the pool. */
  lemma FallbackCollision(start: int, end: int) returns (steps: seq<Step>, i: nat, j: nat)
    requires start <= FALLBACK <= end
    ensures Runnable(NewRegistry(start, end), steps)
    ensures var e := Run(NewRegistry(start, end), steps);
      && i < |e.sessions| && j < |e.sessions| && i != j
      && IsRegistered(e, i) && e.sessions[i].reserved
      && IsRegistered(e, j) && e.sessions[j].reserved
      && e.sessions[i].port == e.sessions[j].port
  {
    var r := NewRegistry(start, end);
    NewIsValid(start, end);
    var first := HoldFallback(r);
    var r1 := Run(r, first);
    var middle := Exhaust(r1);
    var r2 := Run(r1, middle);
    assert r2.sessions[0] == r2.sessions[..|r1.sessions|][0];
    var last := Collide(r2);
    RunAppend(r1, middle, last);
    RunAppend(r, first, middle + last);
    steps, i, j := first + (middle + last), 0, |r2.sessions| + 1;
  }

  lemma HoldFallback(r: Registry) returns (steps: seq<Step>)
    requires Valid(r) && r.pool.InRange(FALLBACK) && FALLBACK !in r.pool.used && r.sessions == []
    ensures Runnable(r, steps)
    ensures var e := Run(r, steps);
      && Valid(e) && e.sessions == [Session("a", FALLBACK, true, true, 0)] && e.clients == r.clients["a" := 0]
      && e.pool.start == r.pool.start && e.pool.end == r.pool.end
  {
    var r1 := Next(r, TakePort("a", FALLBACK));
    StepValidIffHarmless(r, TakePort("a", FALLBACK));
    StepValidIffHarmless(r1, AddClient(0));
    var r2 := Next(r1, AddClient(0));
    steps := [TakePort("a", FALLBACK), AddClient(0)];
    hide Valid;
    assert steps[1..] == [AddClient(0)];
    assert Run(r1, [AddClient(0)]) == r2;
  }

  lemma RunStep(r: Registry, step: Step, rest: seq<Step>, e: Registry)
    requires Enabled(r, step) && Runnable(Next(r, step), rest) && Run(Next(r, step), rest) == e
    ensures Runnable(r, [step] + rest) && Run(r, [step] + rest) == e
  {
    assert ([step] + rest)[1..] == rest;
  }

  lemma Collide(r: Registry) returns (steps: seq<Step>)
    requires Valid(r) && r.pool.InRange(FALLBACK) && r.pool.available == []
    requires |r.sessions| > 0 && r.sessions[0] == Session("a", FALLBACK, true, true, 0) && IsRegistered(r, 0)
    ensures Runnable(r, steps)
    ensures var e := Run(r, steps);
      && |e.sessions| == |r.sessions| + 2 && IsRegistered(e, 0) && e.sessions[0] == r.sessions[0]
      && IsRegistered(e, |r.sessions| + 1) && e.sessions[|r.sessions| + 1] == Session("c", FALLBACK, true, true, 0)
  {
    var k := |r.sessions|;
    var take := TakePort("b", r.pool.start - 1);
    var r1 := Next(r, take);
    StepValidIffHarmless(r, take);
    var r2 := Next(r1, AddClient(k));
    StepValidIffHarmless(r1, AddClient(k));
    assert r2.sessions[0] == r.sessions[0] && r2.sessions[k] == Session("b", FALLBACK, false, true, 0);
    assert IsRegistered(r2, 0) && IsRegistered(r2, k) && r2.pool == r.pool;
    var rest := CollideNext(r2, k);
    var e := Run(r2, rest);
    hide Next, Valid, Run;
    RunStep(r1, AddClient(k), rest, e);
    RunStep(r, take, [AddClient(k)] + rest, e);
    steps := [take] + ([AddClient(k)] + rest);
  }

  lemma CollideNext(r: Registry, k: nat) returns (steps: seq<Step>)
    requires Valid(r) && 0 < k < |r.sessions|
    requires r.sessions[0] == Session("a", FALLBACK, true, true, 0) && IsRegistered(r, 0)
    requires r.sessions[k] == Session("b", FALLBACK, false, true, 0) && IsRegistered(r, k)
    ensures Runnable(r, steps)
    ensures var e := Run(r, steps);
      && |e.sessions| == |r.sessions| + 1 && IsRegistered(e, 0) && e.sessions[0] == r.sessions[0]
      && IsRegistered(e, |r.sessions|) && e.sessions[|r.sessions|] == Session("c", FALLBACK, true, true, 0)
  {
    var n := |r.sessions|;
    assert SessionOk(r, 0, true);
    var r1 := Next(r, RemoveClient(k));
    FallbackFreesAnother(r, 0, k);
    var r2 := Next(r1, TakePort("c", FALLBACK));
    assert r2.sessions[n] == Session("c", FALLBACK, true, false, 0);
    var r3 := Next(r2, AddClient(n));
    assert r3.sessions[0] == r.sessions[0] && IsRegistered(r3, 0);
    hide Next, Valid;
    RunStep(r2, AddClient(n), [], r3);
    hide Run;
    RunStep(r1, TakePort("c", FALLBACK), [AddClient(n)], r3);
    RunStep(r, RemoveClient(k), [TakePort("c", FALLBACK)] + [AddClient(n)], r3);
    steps := [RemoveClient(k)] + ([TakePort("c", FALLBACK)] + [AddClient(n)]);
  }

  /** The server's fields and critical sections. `sessions` stands for the session objects, whose
      identity is their index; the marks `reserved` and `released` only serve the statements above. */
  class Server {
    const ports: Ports
    var clients: map<string, nat>
    var sessions: seq<Session>

    ghost function State(): Registry
      reads this, ports
    {
      Registry(ports.State(), clients, sessions)
    }

    constructor (start: int, end: int)
      requires start <= end + 1
      ensures State() == NewRegistry(start, end) && fresh(ports)
    {
      ports := new Ports(start, end);
      clients, sessions := map[], [];
    }

    /** The start of handleClient: the session takes its public port. */
    method TakeSessionPort(clientID: string, requestedPort: int) returns (sid: nat)
      modifies this`sessions, ports
      ensures State() == Next(old(State()), TakePort(clientID, requestedPort))
      ensures sid == |old(sessions)| && |sessions| == sid + 1 && sessions[..sid] == old(sessions)
      ensures sessions[sid].clientID == clientID && !sessions[sid].added && sessions[sid].released == 0
      ensures sessions[sid].port == Granted(old(ports.State()), requestedPort).port
      ensures sessions[sid].reserved <==> old(ports.usedPorts) != ports.usedPorts
    {
      var usedBefore := ports.usedPorts;
      var port := ports.GetNextPublicPort(requestedPort);
      sid := |sessions|;
      sessions := sessions + [Session(clientID, port, port in ports.usedPorts && port !in usedBefore, false, 0)];
    }

    method AddClientSession(sid: nat)
      requires Enabled(State(), AddClient(sid))
      modifies this`clients, this`sessions
      ensures State() == Next(old(State()), AddClient(sid))
      ensures clients == old(clients)[sessions[sid].clientID := sid] && sessions[sid].added
    {
      clients := clients[sessions[sid].clientID := sid];
      sessions := sessions[sid := sessions[sid].(added := true)];
    }

    /** removeClient: only the session that is registered under its id is unregistered and gives its
        port back. */
    method RemoveClientSession(sid: nat)
      requires sid < |sessions|
      modifies this`clients, this`sessions, ports
      ensures State() == Next(old(State()), RemoveClient(sid))
      ensures var id := sessions[sid].clientID;
        if id in old(clients) && old(clients)[id] == sid
        then clients == old(clients) - {id} && ports.usedPorts == old(ports.usedPorts) - {sessions[sid].port}
        else clients == old(clients) && ports.usedPorts == old(ports.usedPorts)
    {
      var s := sessions[sid];
      if s.clientID in clients && clients[s.clientID] == sid {
        clients := clients - {s.clientID};
        ports.ReleasePort(s.port);
        sessions := sessions[sid := s.(released := s.released + 1)];
      }
    }

    /** kickClient with nothing between its lookup and its removal; the id is already trimmed. */
    method KickClient(clientID: string) returns (kicked: bool)
      requires ClientsOk(State())
      modifies this`clients, this`sessions, ports
      ensures kicked <==> clientID != "" && clientID in old(clients)
      ensures kicked ==> State() == Next(old(State()), RemoveClient(old(clients)[clientID])) && clientID !in clients
      ensures !kicked ==> State() == old(State())
    {
      if clientID == "" || clientID !in clients {
        return false;
      }
      assert State().clients[clientID] < |State().sessions|;
      RemoveClientSession(clients[clientID]);
      return true;
    }
  }
}
