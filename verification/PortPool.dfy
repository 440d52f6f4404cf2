/** The tunnel server's pool of public ports (internal/xtpro/server/server.go:153-172, 454-490). */
module PortPool {
  import opened Lists

  /** What an exhausted pool answers. Nothing reserves this port. */
  const FALLBACK := 10000

  datatype Pool = Pool(start: int, end: int, available: seq<int>, used: set<int>) {
    predicate InRange(port: int) {
      start <= port <= end
    }
  }

  /** Free and used ports partition the configured range, and the free list is ascending. */
  ghost predicate ValidPool(p: Pool) {
    && Ascending(p.available)
    && (forall x :: x in p.available ==> p.InRange(x) && x !in p.used)
    && (forall x :: x in p.used ==> p.InRange(x))
    && (forall x :: p.InRange(x) ==> x in p.available || x in p.used)
  }

  function Range(lo: int, hi: int): seq<int> {
    if hi < lo then [] else seq(hi - lo + 1, (i: nat) => lo + i)
  }

  function NewPool(start: int, end: int): Pool {
    Pool(start, end, Range(start, end), {})
  }

  function RemoveFirst(s: seq<int>, x: int): seq<int> {
    if s == [] then [] else if s[0] == x then s[1..] else [s[0]] + RemoveFirst(s[1..], x)
  }

  datatype Grant = Grant(port: int, pool: Pool)

  function Granted(p: Pool, requested: int): Grant {
    if p.InRange(requested) && requested !in p.used then
      Grant(requested, p.(available := RemoveFirst(p.available, requested), used := p.used + {requested}))
    else if p.available == [] then Grant(FALLBACK, p)
    else Grant(p.available[0], p.(available := p.available[1..], used := p.used + {p.available[0]}))
  }

  function Insert(s: seq<int>, x: int): seq<int> {
    if s == [] || x <= s[0] then [x] + s else [s[0]] + Insert(s[1..], x)
  }

  /** sort.Ints */
  function SortInts(s: seq<int>): seq<int> {
    if s == [] then [] else Insert(SortInts(s[..|s| - 1]), s[|s| - 1])
  }

  function Released(p: Pool, port: int): Pool {
    if port !in p.used then p
    else p.(available := SortInts(p.available + [port]), used := p.used - {port})
  }

  // ---- list facts

  lemma AscendingCons(x: int, t: seq<int>)
    requires Ascending(t) && forall y :: y in t ==> x < y
    ensures Ascending([x] + t)
    ensures forall y :: y in [x] + t <==> y == x || y in t
  {
    assert forall k :: 0 <= k < |t| ==> t[k] in t;
  }

  lemma {:induction false} RemoveFirstMembers(s: seq<int>, x: int)
    requires Ascending(s)
    ensures Ascending(RemoveFirst(s, x))
    ensures forall y :: y in RemoveFirst(s, x) <==> y in s && y != x
  {
    if s != [] {
      AscendingHead(s);
      if s[0] != x {
        RemoveFirstMembers(s[1..], x);
        AscendingCons(s[0], RemoveFirst(s[1..], x));
      }
      hide Ascending;
    }
  }

  lemma {:induction false} InsertMembers(s: seq<int>, x: int)
    requires Ascending(s) && x !in s
    ensures Ascending(Insert(s, x))
    ensures forall y :: y in Insert(s, x) <==> y in s || y == x
  {
    if s == [] {
    } else {
      AscendingHead(s);
      if x <= s[0] {
        AscendingCons(x, s);
      } else {
        InsertMembers(s[1..], x);
        AscendingCons(s[0], Insert(s[1..], x));
      }
      hide Ascending;
    }
  }

  lemma {:induction false} SortOfAscending(s: seq<int>)
    requires Ascending(s)
    ensures SortInts(s) == s
  {
    if s != [] {
      SortOfAscending(s[..|s| - 1]);
      InsertAtEnd(s[..|s| - 1], s[|s| - 1]);
    }
  }

  lemma {:induction false} InsertAtEnd(s: seq<int>, x: int)
    requires forall k :: 0 <= k < |s| ==> s[k] < x
    ensures Insert(s, x) == s + [x]
  {
    if s != [] {
      InsertAtEnd(s[1..], x);
    }
  }

  lemma SortAppended(s: seq<int>, x: int)
    requires Ascending(s)
    ensures SortInts(s + [x]) == Insert(s, x)
  {
    SortOfAscending(s);
    assert (s + [x])[..|s|] == s;
  }

  // ---- the pool

  lemma NewPoolIsValid(start: int, end: int)
    ensures ValidPool(NewPool(start, end)) && NewPool(start, end).used == {}
  {
    var p := NewPool(start, end);
    forall x | p.InRange(x)
      ensures x in p.available
    {
      assert p.available[x - start] == x;
    }
  }

  /** A free port of the range is always granted on request; any other grant is the lowest free port;
      only an exhausted pool answers with a port it does not reserve. */
  lemma GrantMeaning(p: Pool, requested: int)
    requires ValidPool(p)
    ensures var g := Granted(p, requested);
      && ValidPool(g.pool) && g.pool.start == p.start && g.pool.end == p.end
      && (p.InRange(requested) && requested !in p.used ==> g.port == requested)
      && (p.available != [] ==>
            && g.port in p.available
            && g.pool.used == p.used + {g.port} && g.port !in p.used && g.port !in g.pool.available)
      && (p.available != [] && g.port != requested ==> forall x :: x in p.available ==> g.port <= x)
      && (p.available == [] ==> g == Grant(FALLBACK, p))
  {
    var g := Granted(p, requested);
    if p.InRange(requested) && requested !in p.used {
      RemoveFirstMembers(p.available, requested);
    } else if p.available != [] {
      assert forall x :: x in p.available <==> x == p.available[0] || x in p.available[1..];
      assert forall k :: 0 <= k < |p.available[1..]| ==> p.available[1..][k] != p.available[0];
      assert p.available[0] in p.available;
    }
  }

  /** Releasing keeps the partition for any argument, and is a no-op for a port not in use. */
  lemma ReleaseMeaning(p: Pool, port: int)
    requires ValidPool(p)
    ensures var r := Released(p, port);
      && ValidPool(r) && r.start == p.start && r.end == p.end
      && r.used == p.used - {port}
      && (port !in p.used ==> r == p)
      && (port in p.used ==> port in r.available)
  {
    if port in p.used {
      SortAppended(p.available, port);
      InsertMembers(p.available, port);
    }
  }

  /** A grant from a pool that is not exhausted is undone by releasing the port. */
  lemma ReleaseUndoesGrant(p: Pool, requested: int)
    requires ValidPool(p) && p.available != []
    ensures var g := Granted(p, requested); Released(g.pool, g.port) == p
  {
    var g := Granted(p, requested);
    GrantMeaning(p, requested);
    ReleaseMeaning(g.pool, g.port);
    var r := Released(g.pool, g.port);
    forall x
      ensures x in r.available <==> x in p.available
    {
      assert x in r.available <==> r.InRange(x) && x !in r.used;
      assert x in p.available <==> p.InRange(x) && x !in p.used;
    }
    AscendingUnique(r.available, p.available);
  }

  // ---- runs

  datatype Op = Take(requested: int) | Give(port: int)

  function After(p: Pool, ops: seq<Op>): Pool
    decreases ops
  {
    if ops == [] then p
    else match ops[0]
      case Take(requested) => After(Granted(p, requested).pool, ops[1..])
      case Give(port) => After(Released(p, port), ops[1..])
  }

  /** Whatever is requested and released, in any order and with any arguments. */
  lemma {:induction false} PartitionAfterAnyRun(p: Pool, ops: seq<Op>)
    requires ValidPool(p)
    ensures ValidPool(After(p, ops)) && After(p, ops).start == p.start && After(p, ops).end == p.end
    decreases ops
  {
    if ops != [] {
      match ops[0]
      case Take(requested) =>
        GrantMeaning(p, requested);
        PartitionAfterAnyRun(Granted(p, requested).pool, ops[1..]);
      case Give(port) =>
        ReleaseMeaning(p, port);
        PartitionAfterAnyRun(Released(p, port), ops[1..]);
    }
  }

  /** The fields of the server and the two operations under portMu. */
  class Ports {
    const publicPortStart: int
    const publicPortEnd: int
    var availablePorts: seq<int>
    var usedPorts: set<int>

    ghost function State(): Pool
      reads this
    {
      Pool(publicPortStart, publicPortEnd, availablePorts, usedPorts)
    }

    constructor (start: int, end: int)
      requires start <= end + 1
      ensures State() == NewPool(start, end)
      ensures ValidPool(State())
    {
      publicPortStart, publicPortEnd := start, end;
      availablePorts, usedPorts := [], {};
      new;
      var port := start;
      while port <= end
        invariant availablePorts == Range(start, port - 1)
        invariant start <= port <= end + 1
        invariant usedPorts == {}
      {
        availablePorts := availablePorts + [port];
        port := port + 1;
      }
      NewPoolIsValid(start, end);
    }

    method GetNextPublicPort(requestedPort: int) returns (port: int)
      modifies this
      ensures Granted(old(State()), requestedPort) == Grant(port, State())
      ensures var honoured := publicPortStart <= requestedPort <= publicPortEnd && requestedPort !in old(usedPorts);
        && (honoured ==> port == requestedPort && usedPorts == old(usedPorts) + {port})
        && (!honoured && old(availablePorts) != [] ==>
              && port == old(availablePorts)[0] && availablePorts == old(availablePorts)[1..]
              && usedPorts == old(usedPorts) + {port})
        && (!honoured && old(availablePorts) == [] ==>
              port == 10000 && usedPorts == old(usedPorts) && availablePorts == [])
    {
      if publicPortStart <= requestedPort && requestedPort <= publicPortEnd && requestedPort !in usedPorts {
        RemoveAvailable(requestedPort);
        usedPorts := usedPorts + {requestedPort};
        return requestedPort;
      }
      if |availablePorts| == 0 {
        return FALLBACK;
      }
      port := availablePorts[0];
      availablePorts := availablePorts[1..];
      usedPorts := usedPorts + {port};
    }

    /** The scan that cuts the first occurrence out of the free list. */
    method RemoveAvailable(requestedPort: int)
      modifies this`availablePorts
      ensures availablePorts == RemoveFirst(old(availablePorts), requestedPort)
    {
      for i := 0 to |availablePorts|
        invariant availablePorts == old(availablePorts)
        invariant RemoveFirst(availablePorts, requestedPort) ==
                  availablePorts[..i] + RemoveFirst(availablePorts[i..], requestedPort)
      {
        assert availablePorts[i..][1..] == availablePorts[i + 1..];
        if availablePorts[i] == requestedPort {
          availablePorts := availablePorts[..i] + availablePorts[i + 1..];
          return;
        }
      }
    }

    method ReleasePort(port: int)
      modifies this
      ensures State() == Released(old(State()), port)
      ensures usedPorts == old(usedPorts) - {port}
      ensures port !in old(usedPorts) ==> availablePorts == old(availablePorts)
    {
      if port !in usedPorts {
        return;
      }
      usedPorts := usedPorts - {port};
      availablePorts := SortInts(availablePorts + [port]);
    }
  }
}
