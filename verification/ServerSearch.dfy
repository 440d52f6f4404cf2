/** The sorted server list and the id search on it (model/common.go:79-157, model/server.go:92-103,
    service/singleton/server.go:44-75, 111-132). A request is the list of ids asked for, None where the
    text does not parse as a number. */
module ServerSearch {
  import opened Lists
  import opened Wrappers

  datatype Server = Server(id: nat, displayIndex: int, uuid: string, hideForGuest: bool)

  type Request = seq<Option<nat>>

  // ---- sorting

  /** The comparison given to the sort. */
  function Compare(a: Server, b: Server): int {
    if a.displayIndex == b.displayIndex then a.id - b.id else b.displayIndex - a.displayIndex
  }

  /** Higher display index first, then lower id; strict, as ids are unique. */
  predicate InListOrder(s: seq<Server>) {
    forall i, j :: 0 <= i < j < |s| ==> Compare(s[i], s[j]) < 0
  }

  predicate DistinctIds(s: seq<Server>) {
    forall i, j :: 0 <= i < j < |s| ==> s[i].id != s[j].id
  }

  predicate AscendingIds(s: seq<Server>) {
    forall i, j :: 0 <= i < j < |s| ==> s[i].id < s[j].id
  }

  /** There is only one sorted list with given members, so the order in which the map is read does not
      matter. */
  lemma {:induction false} SortedListUnique(s: seq<Server>, t: seq<Server>)
    requires InListOrder(s) && InListOrder(t) && forall x :: x in s <==> x in t
    ensures s == t
  {
    if s == [] || t == [] {
      NoMembers(s, t);
    } else {
      FirstIsLeast(s, t[0]);
      FirstIsLeast(t, s[0]);
      TailMembers(s);
      TailMembers(t);
      SortedListUnique(s[1..], t[1..]);
    }
  }

  lemma NoMembers(s: seq<Server>, t: seq<Server>)
    requires (s == [] || t == []) && forall x :: x in s <==> x in t
    ensures s == t
  {
    if s != [] {
      HeadIsMember(s);
    }
    if t != [] {
      HeadIsMember(t);
    }
  }

  lemma FirstIsLeast(s: seq<Server>, x: Server)
    requires InListOrder(s) && x in s
    ensures s[0] == x || Compare(s[0], x) < 0
  {
  }

  lemma TailMembers(s: seq<Server>)
    requires InListOrder(s) && s != []
    ensures InListOrder(s[1..]) && forall x :: x in s[1..] <==> x in s && x != s[0]
  {
    forall x | x in s && x != s[0]
      ensures x in s[1..]
    {
      var k :| 0 <= k < |s| && s[k] == x;
      assert s[1..][k - 1] == x;
    }
  }

  /** One insertion step of the sort. */
  method InsertSorted(s: seq<Server>, x: Server) returns (r: seq<Server>)
    requires InListOrder(s) && forall i :: 0 <= i < |s| ==> s[i].id != x.id
    ensures InListOrder(r) && forall y :: y in r <==> y in s || y == x
  {
    var j := |s|;
    while j > 0 && Compare(s[j - 1], x) > 0
      invariant 0 <= j <= |s|
      invariant forall k :: j <= k < |s| ==> Compare(x, s[k]) < 0
    {
      j := j - 1;
    }
    r := s[..j] + [x] + s[j..];
    SmallerBefore(s, x, j);
    InsertedOrder(s, x, j);
  }

  lemma CompareTransitive(a: Server, b: Server, c: Server)
    requires Compare(a, b) < 0 && Compare(b, c) <= 0
    ensures Compare(a, c) < 0
  {
  }

  lemma SmallerBefore(s: seq<Server>, x: Server, j: nat)
    requires InListOrder(s) && j <= |s| && forall i :: 0 <= i < |s| ==> s[i].id != x.id
    requires j > 0 ==> Compare(s[j - 1], x) <= 0
    ensures forall k :: 0 <= k < j ==> Compare(s[k], x) < 0
  {
    forall k | 0 <= k < j
      ensures Compare(s[k], x) < 0
    {
      if k < j - 1 {
        CompareTransitive(s[k], s[j - 1], x);
      }
    }
  }

  lemma InsertedOrder(s: seq<Server>, x: Server, j: nat)
    requires InListOrder(s) && j <= |s|
    requires forall k :: 0 <= k < j ==> Compare(s[k], x) < 0
    requires forall k :: j <= k < |s| ==> Compare(x, s[k]) < 0
    ensures InListOrder(s[..j] + [x] + s[j..])
    ensures forall y :: y in s[..j] + [x] + s[j..] <==> y in s || y == x
  {
    hide Compare;
    var r := s[..j] + [x] + s[j..];
    assert s == s[..j] + s[j..];
    forall a, b | 0 <= a < b < |r|
      ensures Compare(r[a], r[b]) < 0
    {
      if b < j {
        assert r[a] == s[a] && r[b] == s[b];
      } else if b == j {
        assert r[a] == s[a] && r[b] == x;
      } else if a > j {
        assert r[a] == s[a - 1] && r[b] == s[b - 1];
      } else {
        assert r[b] == s[b - 1] && r[a] == if a < j then s[a] else x;
      }
    }
  }

  // ---- splitting

  datatype Split = Split(priority: seq<Server>, rest: seq<Server>)

  function FirstZero(x: seq<Server>): (i: Option<nat>)
    ensures i.Some? ==> i.value < |x|
  {
    if x == [] then None
    else if x[0].displayIndex == 0 then Some(0)
    else match FirstZero(x[1..])
      case None => None
      case Some(i) => Some(i + 1)
  }

  function SplitList(x: seq<Server>): Split {
    match FirstZero(x)
    case None => Split([], x)
    case Some(i) => Split(x[..i], x[i..])
  }

  lemma {:induction false} FirstZeroMeans(x: seq<Server>)
    ensures match FirstZero(x)
      case None => forall k :: 0 <= k < |x| ==> x[k].displayIndex != 0
      case Some(i) => i < |x| && x[i].displayIndex == 0 && forall k :: 0 <= k < i ==> x[k].displayIndex != 0
  {
    if x != [] && x[0].displayIndex != 0 {
      FirstZeroMeans(x[1..]);
      forall k | 0 < k < |x|
        ensures x[k] == x[1..][k - 1]
      {
      }
    }
  }

  lemma SplitParts(x: seq<Server>)
    ensures var n := |SplitList(x).priority|;
      n <= |x| && SplitList(x).priority == x[..n] && SplitList(x).rest == x[n..]
  {
    FirstZeroMeans(x);
  }

  // ---- searching one part

  /** slices.IndexFunc by id. */
  function FindLinear(y: seq<Server>, id: nat): Option<Server> {
    if y == [] then None else if y[0].id == id then Some(y[0]) else FindLinear(y[1..], id)
  }

  /** The position at which the library's binary search stops. */
  function Probe(y: seq<Server>, id: nat, lo: nat, hi: nat): (p: nat)
    requires lo <= hi <= |y|
    ensures lo <= p <= hi
    decreases hi - lo
  {
    if lo == hi then lo
    else
      var h := (lo + hi) / 2;
      if y[h].id < id then Probe(y, id, h + 1, hi) else Probe(y, id, lo, h)
  }

  function FindBinary(y: seq<Server>, id: nat): Option<Server> {
    var p := Probe(y, id, 0, |y|);
    if p < |y| && y[p].id == id then Some(y[p]) else None
  }

  lemma {:induction false} FindLinearMeans(y: seq<Server>, id: nat)
    ensures match FindLinear(y, id)
      case None => forall k :: 0 <= k < |y| ==> y[k].id != id
      case Some(s) => s in y && s.id == id
  {
    if y != [] && y[0].id != id {
      FindLinearMeans(y[1..], id);
      forall k | 0 < k < |y|
        ensures y[k] == y[1..][k - 1]
      {
      }
    }
  }

  /** One step of the probe. */
  lemma ProbeStep(y: seq<Server>, id: nat, lo: nat, hi: nat)
    requires lo < hi <= |y|
    ensures var h := (lo + hi) / 2;
      Probe(y, id, lo, hi) == if y[h].id < id then Probe(y, id, h + 1, hi) else Probe(y, id, lo, h)
  {
  }

  /** The probe stopped at `p` with smaller ids before it and no smaller ones behind it. */
  ghost predicate SplitsAt(y: seq<Server>, id: nat, lo: nat, hi: nat, p: nat)
    requires lo <= p <= hi <= |y|
  {
    && (forall k :: lo <= k < p ==> y[k].id < id)
    && (forall k :: p <= k < hi ==> y[k].id >= id)
  }

  lemma {:induction false} ProbeOnAscending(y: seq<Server>, id: nat, lo: nat, hi: nat)
    requires lo <= hi <= |y| && AscendingIds(y)
    ensures SplitsAt(y, id, lo, hi, Probe(y, id, lo, hi))
    decreases hi - lo
  {
    if lo < hi {
      var h := (lo + hi) / 2;
      ProbeStep(y, id, lo, hi);
      hide Probe;
      if y[h].id < id {
        ProbeOnAscending(y, id, h + 1, hi);
        WidenDown(y, id, lo, h, hi, Probe(y, id, h + 1, hi));
      } else {
        ProbeOnAscending(y, id, lo, h);
        WidenUp(y, id, lo, h, hi, Probe(y, id, lo, h));
      }
      hide SplitsAt, AscendingIds;
    }
  }

  lemma WidenDown(y: seq<Server>, id: nat, lo: nat, h: nat, hi: nat, p: nat)
    requires lo <= h < p <= hi <= |y| && AscendingIds(y) && y[h].id < id && SplitsAt(y, id, h + 1, hi, p)
    ensures SplitsAt(y, id, lo, hi, p)
  {
  }

  lemma WidenUp(y: seq<Server>, id: nat, lo: nat, h: nat, hi: nat, p: nat)
    requires lo <= p <= h < hi <= |y| && AscendingIds(y) && y[h].id >= id && SplitsAt(y, id, lo, h, p)
    ensures SplitsAt(y, id, lo, hi, p)
  {
  }

  lemma UniqueById(y: seq<Server>, s: Server, t: Server)
    requires DistinctIds(y) && s in y && t in y && s.id == t.id
    ensures s == t
  {
  }

  lemma FindLinearAt(y: seq<Server>, k: nat)
    requires DistinctIds(y) && k < |y|
    ensures FindLinear(y, y[k].id) == Some(y[k])
  {
    FindLinearMeans(y, y[k].id);
    UniqueById(y, FindLinear(y, y[k].id).value, y[k]);
  }

  lemma FindLinearNone(y: seq<Server>, id: nat)
    requires forall k :: 0 <= k < |y| ==> y[k].id != id
    ensures FindLinear(y, id) == None
  {
    FindLinearMeans(y, id);
  }

  lemma NotPresent(y: seq<Server>, id: nat, p: nat)
    requires AscendingIds(y) && p <= |y| && SplitsAt(y, id, 0, |y|, p) && (p < |y| ==> y[p].id != id)
    ensures forall k :: 0 <= k < |y| ==> y[k].id != id
  {
    forall k | p < k < |y|
      ensures y[k].id != id
    {
      assert y[p].id < y[k].id;
    }
  }

  lemma BinaryIsLinear(y: seq<Server>, id: nat)
    requires AscendingIds(y)
    ensures FindBinary(y, id) == FindLinear(y, id)
  {
    var p := Probe(y, id, 0, |y|);
    ProbeOnAscending(y, id, 0, |y|);
    hide Probe, FindLinear;
    if p < |y| && y[p].id == id {
      FindLinearAt(y, p);
    } else {
      NotPresent(y, id, p);
      FindLinearNone(y, id);
    }
  }

  ghost predicate AscendingIn(y: seq<Server>, lo: nat, hi: nat)
    requires lo <= hi <= |y|
  {
    forall i, j :: lo <= i < j < hi ==> y[i].id < y[j].id
  }

  ghost predicate AllFound(y: seq<Server>, lo: nat, hi: nat)
    requires lo <= hi <= |y|
  {
    forall k :: lo <= k < hi ==> Probe(y, y[k].id, lo, hi) == k
  }

  lemma FoundInHalves(y: seq<Server>, lo: nat, hi: nat, h: nat)
    requires lo < hi <= |y| && DistinctIds(y) && AllFound(y, lo, hi) && h == (lo + hi) / 2
    ensures AllFound(y, lo, h) && AllFound(y, h + 1, hi)
    ensures forall k :: lo <= k < h ==> y[k].id < y[h].id
    ensures forall k :: h < k < hi ==> y[h].id < y[k].id
  {
    hide Probe;
    forall k | lo <= k < h
      ensures y[k].id < y[h].id && Probe(y, y[k].id, lo, h) == k
    {
      ProbeStep(y, y[k].id, lo, hi);
      assert y[k].id != y[h].id;
    }
    forall k | h < k < hi
      ensures y[h].id < y[k].id && Probe(y, y[k].id, h + 1, hi) == k
    {
      ProbeStep(y, y[k].id, lo, hi);
    }
  }

  lemma JoinHalves(y: seq<Server>, lo: nat, h: nat, hi: nat)
    requires lo <= h < hi <= |y| && AscendingIn(y, lo, h) && AscendingIn(y, h + 1, hi)
    requires forall k :: lo <= k < h ==> y[k].id < y[h].id
    requires forall k :: h < k < hi ==> y[h].id < y[k].id
    ensures AscendingIn(y, lo, hi)
  {
    forall i, j | lo <= i < j < hi
      ensures y[i].id < y[j].id
    {
      if i < h && j > h {
        assert y[i].id < y[h].id < y[j].id;
      }
    }
  }

  /** If the probe finds every element of a range, the range is ascending: every index is probed on the
      way to some other. */
  lemma {:induction false} ProbeFindsAll(y: seq<Server>, lo: nat, hi: nat)
    requires lo <= hi <= |y| && DistinctIds(y) && AllFound(y, lo, hi)
    ensures AscendingIn(y, lo, hi)
    decreases hi - lo
  {
    if lo < hi {
      var h := (lo + hi) / 2;
      FoundInHalves(y, lo, hi, h);
      hide AllFound, DistinctIds, AscendingIn;
      ProbeFindsAll(y, lo, h);
      ProbeFindsAll(y, h + 1, hi);
      JoinHalves(y, lo, h, hi);
    }
  }

  /** Binary search finds every element of a list exactly if the ids ascend. */
  lemma BinaryFindsAllIffAscending(y: seq<Server>)
    requires DistinctIds(y)
    ensures (forall s :: s in y ==> FindBinary(y, s.id) == Some(s)) <==> AscendingIds(y)
  {
    if AscendingIds(y) {
      forall s | s in y
        ensures FindBinary(y, s.id) == Some(s)
      {
        BinaryIsLinear(y, s.id);
        FindLinearMeans(y, s.id);
      }
    }
    if forall s :: s in y ==> FindBinary(y, s.id) == Some(s) {
      forall k | 0 <= k < |y|
        ensures Probe(y, y[k].id, 0, |y|) == k
      {
        assert y[k] in y;
      }
      ProbeFindsAll(y, 0, |y|);
    }
  }

  // ---- whole searches

  function Append(hits: seq<Server>, s: Option<Server>): seq<Server> {
    if s.Some? then hits + [s.value] else hits
  }

  function LinearHits(y: seq<Server>, req: Request): seq<Server> {
    if req == [] then []
    else
      var before, last := LinearHits(y, req[..|req| - 1]), req[|req| - 1];
      if last.None? then before else Append(before, FindLinear(y, last.value))
  }

  function BinaryHits(y: seq<Server>, req: Request): seq<Server> {
    if req == [] then []
    else
      var before, last := BinaryHits(y, req[..|req| - 1]), req[|req| - 1];
      if last.None? then before else Append(before, FindBinary(y, last.value))
  }

  /** The hits, or the whole list if there are none. */
  function OrAll(hits: seq<Server>, x: seq<Server>): seq<Server> {
    if |hits| > 0 then hits else x
  }

  /** The reference: both parts searched one by one; priority hits first, each part in request order. */
  function LinearSearch(x: seq<Server>, req: Request): seq<Server> {
    OrAll(LinearHits(SplitList(x).priority, req) + LinearHits(SplitList(x).rest, req), x)
  }

  function FastSearch(x: seq<Server>, req: Request): seq<Server> {
    OrAll(LinearHits(SplitList(x).priority, req) + BinaryHits(SplitList(x).rest, req), x)
  }

  lemma {:induction false} BinaryHitsAreLinear(y: seq<Server>, req: Request)
    requires AscendingIds(y)
    ensures BinaryHits(y, req) == LinearHits(y, req)
  {
    if req != [] {
      BinaryHitsAreLinear(y, req[..|req| - 1]);
      if req[|req| - 1].Some? {
        BinaryIsLinear(y, req[|req| - 1].value);
      }
    }
  }

  ghost predicate SearchAgrees(x: seq<Server>) {
    forall req: Request :: FastSearch(x, req) == LinearSearch(x, req)
  }

  lemma OneHit(y: seq<Server>, id: nat)
    ensures LinearHits(y, [Some(id)]) == Append([], FindLinear(y, id))
    ensures BinaryHits(y, [Some(id)]) == Append([], FindBinary(y, id))
  {
    assert [Some(id)][..0] == [];
  }

  lemma FindBinarySound(y: seq<Server>, k: nat)
    requires DistinctIds(y) && k < |y| && FindBinary(y, y[k].id) != Some(y[k])
    ensures FindBinary(y, y[k].id) == None
  {
    hide Probe;
  }

  lemma SearchMisses(x: seq<Server>, k: nat)
    requires DistinctIds(x) && |x| > 1 && k < |SplitList(x).rest|
    requires var y := SplitList(x).rest; FindBinary(y, y[k].id) != Some(y[k])
    ensures var req := [Some(SplitList(x).rest[k].id)]; FastSearch(x, req) != LinearSearch(x, req)
  {
    var p, y := SplitList(x).priority, SplitList(x).rest;
    SplitParts(x);
    RestDistinct(x);
    FindLinearAt(y, k);
    FindBinarySound(y, k);
    FindLinearNone(p, y[k].id);
    OneHit(p, y[k].id);
    OneHit(y, y[k].id);
    hide SplitList, LinearHits, BinaryHits, FindLinear, FindBinary;
  }

  /** The fast search gives the linear search's answer to every request exactly if the ids behind the
      first server without a display index ascend. */
  lemma FastSearchIsLinearIff(x: seq<Server>)
    requires DistinctIds(x)
    ensures SearchAgrees(x) <==> AscendingIds(SplitList(x).rest)
  {
    hide AscendingIds, FastSearch, LinearSearch, SplitList;
    if AscendingIds(SplitList(x).rest) {
      forall req: Request
        ensures FastSearch(x, req) == LinearSearch(x, req)
      {
        FastIsLinear(x, req);
      }
    } else {
      UnsortedRestMisses(x);
    }
  }

  lemma FastIsLinear(x: seq<Server>, req: Request)
    requires AscendingIds(SplitList(x).rest)
    ensures FastSearch(x, req) == LinearSearch(x, req)
  {
    BinaryHitsAreLinear(SplitList(x).rest, req);
  }

  lemma SomeNotFound(y: seq<Server>) returns (k: nat)
    requires DistinctIds(y) && !AscendingIds(y)
    ensures k < |y| && FindBinary(y, y[k].id) != Some(y[k])
  {
    BinaryFindsAllIffAscending(y);
    hide FindBinary;
    var s :| s in y && FindBinary(y, s.id) != Some(s);
    k :| 0 <= k < |y| && y[k] == s;
  }

  lemma UnsortedRestMisses(x: seq<Server>)
    requires DistinctIds(x) && !AscendingIds(SplitList(x).rest)
    ensures exists req: Request :: FastSearch(x, req) != LinearSearch(x, req)
  {
    SplitParts(x);
    RestDistinct(x);
    assert |x| > 1;
    hide SplitList, FastSearch, LinearSearch, FindBinary, AscendingIds;
    var k := SomeNotFound(SplitList(x).rest);
    SearchMisses(x, k);
  }

  lemma RestDistinct(x: seq<Server>)
    requires DistinctIds(x)
    ensures DistinctIds(SplitList(x).rest)
  {
    SplitParts(x);
  }

  /** On a sorted list without negative display indices and with at least one zero, the two parts are
      the servers with and without a display index, and the fast search is right. */
  lemma SortedListIsSearchable(x: seq<Server>)
    requires InListOrder(x) && DistinctIds(x)
    requires forall k :: 0 <= k < |x| ==> x[k].displayIndex >= 0
    requires exists k :: 0 <= k < |x| && x[k].displayIndex == 0
    ensures forall s :: s in SplitList(x).priority <==> s in x && s.displayIndex != 0
    ensures forall s :: s in SplitList(x).rest <==> s in x && s.displayIndex == 0
    ensures SearchAgrees(x)
  {
    FirstZeroMeans(x);
    SplitParts(x);
    FastSearchIsLinearIff(x);
    var i := FirstZero(x).value;
    var p, y := SplitList(x).priority, SplitList(x).rest;
    assert p == x[..i] && y == x[i..];
    forall k | i <= k < |x|
      ensures x[k].displayIndex == 0
    {
      if k > i {
        assert Compare(x[i], x[k]) < 0;
      }
    }
    forall a, b | 0 <= a < b < |y|
      ensures y[a].id < y[b].id
    {
      assert Compare(x[i + a], x[i + b]) < 0;
    }
  }

  // ---- what a search returns

  predicate HasId(y: seq<Server>, id: nat) {
    exists k :: 0 <= k < |y| && y[k].id == id
  }

  /** The requested ids that servers of `y` have, in request order. */
  function RequestedIds(y: seq<Server>, req: Request): seq<nat> {
    if req == [] then []
    else
      var before, last := RequestedIds(y, req[..|req| - 1]), req[|req| - 1];
      if last.Some? && HasId(y, last.value) then before + [last.value] else before
  }

  ghost predicate AreThese(hits: seq<Server>, y: seq<Server>, ids: seq<nat>) {
    |hits| == |ids| && forall k :: 0 <= k < |hits| ==> hits[k] in y && hits[k].id == ids[k]
  }

  lemma {:induction false} HitsInOrder(y: seq<Server>, req: Request)
    ensures AreThese(LinearHits(y, req), y, RequestedIds(y, req))
  {
    if req != [] {
      HitsInOrder(y, req[..|req| - 1]);
      if req[|req| - 1].Some? {
        FindLinearMeans(y, req[|req| - 1].value);
      }
    }
  }

  lemma {:induction false} RequestedMeans(y: seq<Server>, req: Request)
    ensures forall id :: id in RequestedIds(y, req) <==> Some(id) in req && HasId(y, id)
  {
    if req != [] {
      var n := |req| - 1;
      RequestedMeans(y, req[..n]);
      assert forall o :: o in req <==> o in req[..n] || o == req[n];
    }
  }

  /** A request that names no listed server is answered with the whole list, whether sorted or not. */
  lemma {:induction false} NoneRequested(y: seq<Server>, req: Request)
    requires forall s :: s in y ==> Some(s.id) !in req
    ensures LinearHits(y, req) == [] && BinaryHits(y, req) == []
  {
    if req != [] {
      var n := |req| - 1;
      NoneRequested(y, req[..n]);
      if req[n].Some? {
        FindLinearMeans(y, req[n].value);
        assert FindBinary(y, req[n].value) == None;
      }
    }
  }

  lemma WholeListIfNothingMatches(x: seq<Server>, req: Request)
    requires forall s :: s in x ==> Some(s.id) !in req
    ensures FastSearch(x, req) == x
  {
    SplitParts(x);
    NoneRequested(SplitList(x).priority, req);
    NoneRequested(SplitList(x).rest, req);
  }

  lemma HitsAreRequested(hits: seq<Server>, y: seq<Server>, x: seq<Server>, req: Request)
    requires DistinctIds(x) && (forall s :: s in y ==> s in x)
    requires AreThese(hits, y, RequestedIds(y, req))
    ensures forall s :: s in hits <==> s in y && Some(s.id) in req
  {
    RequestedMeans(y, req);
    var ids := RequestedIds(y, req);
    forall s | s in y && Some(s.id) in req
      ensures s in hits
    {
      var j :| 0 <= j < |y| && y[j] == s;
      assert HasId(y, s.id) && s.id in ids;
      var k :| 0 <= k < |ids| && ids[k] == s.id;
      assert hits[k] in x && hits[k] in hits;
      UniqueById(x, hits[k], s);
    }
    forall s | s in hits
      ensures Some(s.id) in req
    {
      var k :| 0 <= k < |hits| && hits[k] == s;
      assert ids[k] in ids;
    }
  }

  /** On a searchable list, when some listed server is requested: the answer is exactly the requested ones,
      those of the priority part first, and each part in request order. */
  lemma SearchFindsRequested(x: seq<Server>, req: Request)
    requires DistinctIds(x) && AscendingIds(SplitList(x).rest)
    requires exists s :: s in x && Some(s.id) in req
    ensures var r, p, y := FastSearch(x, req), SplitList(x).priority, SplitList(x).rest;
      var n := |RequestedIds(p, req)|;
      && (forall s :: s in r <==> s in x && Some(s.id) in req)
      && n <= |r|
      && AreThese(r[..n], p, RequestedIds(p, req))
      && AreThese(r[n..], y, RequestedIds(y, req))
  {
    hide SplitList, LinearHits, BinaryHits, FastSearch, RequestedIds, AscendingIds, AreThese, DistinctIds;
    var p, y := SplitList(x).priority, SplitList(x).rest;
    SplitJoins(x);
    HitsInOrder(p, req);
    HitsInOrder(y, req);
    HitsArranged(LinearHits(p, req), LinearHits(y, req), p, y, req);
    FastIsLinearHits(x, req);
  }

  lemma SplitJoins(x: seq<Server>)
    ensures x == SplitList(x).priority + SplitList(x).rest
  {
    SplitParts(x);
  }

  lemma FastIsLinearHits(x: seq<Server>, req: Request)
    requires AscendingIds(SplitList(x).rest)
    ensures FastSearch(x, req) == OrAll(LinearHits(SplitList(x).priority, req) + LinearHits(SplitList(x).rest, req), x)
  {
    BinaryHitsAreLinear(SplitList(x).rest, req);
  }

  lemma HitsArranged(a: seq<Server>, b: seq<Server>, p: seq<Server>, y: seq<Server>, req: Request)
    requires DistinctIds(p + y) && exists s :: s in p + y && Some(s.id) in req
    requires AreThese(a, p, RequestedIds(p, req)) && AreThese(b, y, RequestedIds(y, req))
    ensures var r, n := a + b, |RequestedIds(p, req)|;
      && r != []
      && (forall s :: s in r <==> s in p + y && Some(s.id) in req)
      && n <= |r|
      && AreThese(r[..n], p, RequestedIds(p, req))
      && AreThese(r[n..], y, RequestedIds(y, req))
  {
    hide RequestedIds, DistinctIds;
    HitsAreRequested(a, p, p + y, req);
    HitsAreRequested(b, y, p + y, req);
    HitsTogether(a, b, p, y, req);
    SameLength(a, p, RequestedIds(p, req));
    hide AreThese;
    assert (a + b)[..|a|] == a && (a + b)[|a|..] == b;
  }

  lemma HitsTogether(a: seq<Server>, b: seq<Server>, p: seq<Server>, y: seq<Server>, req: Request)
    requires forall s :: s in a <==> s in p && Some(s.id) in req
    requires forall s :: s in b <==> s in y && Some(s.id) in req
    requires exists s :: s in p + y && Some(s.id) in req
    ensures forall s :: s in a + b <==> s in p + y && Some(s.id) in req
    ensures a + b != []
  {
    var s :| s in p + y && Some(s.id) in req;
    assert s in a + b;
  }

  lemma SameLength(hits: seq<Server>, y: seq<Server>, ids: seq<nat>)
    requires AreThese(hits, y, ids)
    ensures |hits| == |ids|
  {
  }

  /** Without a zero the whole list is searched by halves although it is sorted by display index: here
      a present server is missed and the whole list comes back. */
  lemma NoZeroMisses(a: Server, b: Server)
    requires a.id > b.id && a.displayIndex > b.displayIndex > 0
    ensures InListOrder([a, b]) && !SearchAgrees([a, b])
  {
    var x := [a, b];
    FirstZeroMeans(x);
    FastSearchIsLinearIff(x);
    assert SplitList(x).rest == x;
    assert !(x[0].id < x[1].id);
  }

  // ---- the methods of the search

  method BinarySearchFunc(y: seq<Server>, target: nat) returns (i: nat, ok: bool)
    ensures i == Probe(y, target, 0, |y|)
    ensures ok <==> i < |y| && y[i].id == target
    ensures i <= |y|
    ensures AscendingIds(y) ==>
              && (forall k :: 0 <= k < i ==> y[k].id < target) && (forall k :: i <= k < |y| ==> y[k].id >= target)
              && (ok <==> HasId(y, target))
  {
    if AscendingIds(y) {
      ProbeOnAscending(y, target, 0, |y|);
    }
    i := 0;
    var j := |y|;
    while i < j
      invariant 0 <= i <= j <= |y|
      invariant Probe(y, target, i, j) == Probe(y, target, 0, |y|)
      decreases j - i
    {
      var h := (i + j) / 2;
      if y[h].id < target {
        i := h + 1;
      } else {
        j := h;
      }
    }
    ok := i < |y| && y[i].id == target;
  }

  method IndexOf(y: seq<Server>, target: nat) returns (i: int)
    ensures FindLinear(y, target) == if 0 <= i < |y| then Some(y[i]) else None
    ensures i == -1 || 0 <= i < |y|
    ensures i == -1 ==> forall k :: 0 <= k < |y| ==> y[k].id != target
    ensures i != -1 ==> y[i].id == target && forall k :: 0 <= k < i ==> y[k].id != target
  {
    i := 0;
    while i < |y|
      invariant 0 <= i <= |y|
      invariant FindLinear(y, target) == FindLinear(y[i..], target)
      invariant forall k :: 0 <= k < i ==> y[k].id != target
    {
      assert y[i..][1..] == y[i + 1..];
      if y[i].id == target {
        return;
      }
      i := i + 1;
    }
    i := -1;
  }

  lemma SearchMeans(x: seq<Server>, req: Request)
    ensures var r := FastSearch(x, req);
      && ((forall s :: s in x ==> Some(s.id) !in req) ==> r == x)
      && (DistinctIds(x) && AscendingIds(SplitList(x).rest) && (exists s :: s in x && Some(s.id) in req) ==>
            && (forall s :: s in r <==> s in x && Some(s.id) in req)
            && var p, y := SplitList(x).priority, SplitList(x).rest;
               var n := |RequestedIds(p, req)|;
               n <= |r| && AreThese(r[..n], p, RequestedIds(p, req)) && AreThese(r[n..], y, RequestedIds(y, req)))
  {
    if forall s :: s in x ==> Some(s.id) !in req {
      WholeListIfNothingMatches(x, req);
    } else if DistinctIds(x) && AscendingIds(SplitList(x).rest) {
      SearchFindsRequested(x, req);
    }
  }

  method SearchByIDPri(req: Request, x: seq<Server>) returns (r: seq<Server>)
    ensures r == FastSearch(x, req)
    ensures (forall s :: s in x ==> Some(s.id) !in req) ==> r == x
    ensures DistinctIds(x) && AscendingIds(SplitList(x).rest) && (exists s :: s in x && Some(s.id) in req) ==>
              && (forall s :: s in r <==> s in x && Some(s.id) in req)
              && var p, y := SplitList(x).priority, SplitList(x).rest;
                 var n := |RequestedIds(p, req)|;
                 n <= |r| && AreThese(r[..n], p, RequestedIds(p, req)) && AreThese(r[n..], y, RequestedIds(y, req))
  {
    var split := SplitList(x);
    var clist1: seq<Server>, clist2: seq<Server> := [], [];
    for k := 0 to |req|
      invariant clist1 == LinearHits(split.priority, req[..k])
      invariant clist2 == BinaryHits(split.rest, req[..k])
    {
      assert req[..k + 1][..k] == req[..k];
      if req[k].None? {
        continue;
      }
      var i := IndexOf(split.priority, req[k].value);
      if i != -1 {
        clist1 := clist1 + [split.priority[i]];
      }
      var j, ok := BinarySearchFunc(split.rest, req[k].value);
      if ok {
        clist2 := clist2 + [split.rest[j]];
      }
    }
    assert req[..|req|] == req;
    var l := clist1 + clist2;
    r := if |l| > 0 then l else x;
    SearchMeans(x, req);
  }

  // ---- the server table

  /** `order` is the order in which the map happens to be read. */
  ghost predicate Enumerates(order: seq<nat>, keys: set<nat>) {
    && (forall i, j :: 0 <= i < j < |order| ==> order[i] != order[j])
    && (forall k :: k in order <==> k in keys)
  }

  class ServerClass {
    var list: map<nat, Server>
    var uuidToID: map<string, nat>
    var sortedList: seq<Server>
    var sortedListForGuest: seq<Server>

    ghost predicate Keyed()
      reads this
    {
      forall k :: k in list ==> list[k].id == k
    }

    /** The sorted lists show exactly the table, and what guests may see of it. */
    ghost predicate Valid()
      reads this
    {
      && Keyed()
      && InListOrder(sortedList) && DistinctIds(sortedList)
      && (forall s :: s in sortedList <==> s.id in list && list[s.id] == s)
      && InListOrder(sortedListForGuest)
      && (forall s :: s in sortedListForGuest <==> s in sortedList && !s.hideForGuest)
    }

    constructor ()
      ensures Valid() && list == map[]
    {
      list, uuidToID, sortedList, sortedListForGuest := map[], map[], [], [];
    }

    method SortList(order: seq<nat>)
      requires Keyed() && Enumerates(order, list.Keys)
      modifies this`sortedList, this`sortedListForGuest
      ensures Valid()
      ensures forall i, j :: 0 <= i < j < |sortedList| ==>
                || sortedList[i].displayIndex > sortedList[j].displayIndex
                || (sortedList[i].displayIndex == sortedList[j].displayIndex && sortedList[i].id < sortedList[j].id)
      ensures forall s :: s in sortedList <==> s.id in list && list[s.id] == s
      ensures forall s :: s in sortedListForGuest <==> s.id in list && list[s.id] == s && !s.hideForGuest
    {
      sortedList := [];
      for i := 0 to |order|
        invariant InListOrder(sortedList)
        invariant forall s :: s in sortedList <==> s.id in order[..i] && list[s.id] == s
      {
        var s := list[order[i]];
        assert forall k :: k in order[..i + 1] <==> k in order[..i] || k == order[i];
        forall k | 0 <= k < |sortedList|
          ensures sortedList[k].id != s.id
        {
          assert sortedList[k] in sortedList;
        }
        sortedList := InsertSorted(sortedList, s);
      }
      assert order[..|order|] == order;
      OrderGivesDistinct(sortedList, list);
      sortedListForGuest := VisibleToGuests(sortedList);
    }

    static method VisibleToGuests(sorted: seq<Server>) returns (guest: seq<Server>)
      requires InListOrder(sorted)
      ensures InListOrder(guest) && forall s :: s in guest <==> s in sorted && !s.hideForGuest
    {
      guest := [];
      for i := 0 to |sorted|
        invariant forall s :: s in guest <==> s in sorted[..i] && !s.hideForGuest
        invariant InListOrder(guest)
      {
        assert forall s :: s in sorted[..i + 1] <==> s in sorted[..i] || s == sorted[i];
        if !sorted[i].hideForGuest {
          forall k | 0 <= k < |guest|
            ensures Compare(guest[k], sorted[i]) < 0
          {
            assert guest[k] in sorted[..i];
          }
          guest := guest + [sorted[i]];
        }
      }
      assert sorted[..|sorted|] == sorted;
    }

    method Update(s: Server, uuid: string, order: seq<nat>)
      requires Keyed() && Enumerates(order, list.Keys + {s.id})
      modifies this
      ensures Valid() && list == old(list)[s.id := s]
      ensures uuidToID == if uuid != "" then old(uuidToID)[uuid := s.id] else old(uuidToID)
    {
      list := list[s.id := s];
      if uuid != "" {
        uuidToID := uuidToID[uuid := s.id];
      }
      SortList(order);
    }

    /** The code reads the server before it deletes it, and panics on an id that is not in the table
        when its turn comes. `deleted` ids come before the first such; the sorted lists are then left
        as they were. */
    method Delete(idList: seq<nat>, order: seq<nat>) returns (deleted: nat)
      requires Keyed() && Enumerates(order, list.Keys - set id | id in idList)
      modifies this
      ensures deleted <= |idList|
      ensures deleted == |idList| <==> EachPresent(old(list), idList)
      ensures EachPresent(old(list), idList[..deleted])
      ensures list == old(list) - set id | id in idList[..deleted]
      ensures uuidToID == old(uuidToID) - set id | id in idList[..deleted] :: old(list)[id].uuid
      ensures deleted == |idList| ==> Valid()
      ensures deleted < |idList| ==> sortedList == old(sortedList) && sortedListForGuest == old(sortedListForGuest)
    {
      for k := 0 to |idList|
        invariant EachPresent(old(list), idList[..k])
        invariant list == old(list) - set id | id in idList[..k]
        invariant uuidToID == old(uuidToID) - set id | id in idList[..k] :: old(list)[id].uuid
        invariant sortedList == old(sortedList) && sortedListForGuest == old(sortedListForGuest)
      {
        EachPresentMore(old(list), idList, k);
        if idList[k] !in list {
          return k;
        }
        hide EachPresent;
        assert forall id :: id in idList[..k + 1] <==> id in idList[..k] || id == idList[k];
        assert list[idList[k]] == old(list)[idList[k]];
        uuidToID := uuidToID - {list[idList[k]].uuid};
        list := list - {idList[k]};
      }
      assert idList[..|idList|] == idList;
      SortList(order);
      return |idList|;
    }
  }

  /** Every id is in the table when its turn comes: known, and not named before. */
  predicate EachPresent(list: map<nat, Server>, ids: seq<nat>) {
    forall i :: 0 <= i < |ids| ==> ids[i] in list && ids[i] !in ids[..i]
  }

  lemma EachPresentMore(list: map<nat, Server>, ids: seq<nat>, k: nat)
    requires k < |ids| && EachPresent(list, ids[..k])
    ensures EachPresent(list, ids[..k + 1]) <==> ids[k] in list && ids[k] !in ids[..k]
    ensures EachPresent(list, ids) ==> ids[k] in list && ids[k] !in ids[..k]
  {
    var more := ids[..k + 1];
    forall i | 0 <= i < k
      ensures more[i] in list && more[i] !in more[..i]
    {
      assert ids[..k][i] == more[i] && ids[..k][..i] == more[..i];
    }
    assert more[k] == ids[k] && more[..k] == ids[..k];
  }

  lemma OrderGivesDistinct(s: seq<Server>, list: map<nat, Server>)
    requires InListOrder(s) && forall x :: x in s ==> x.id in list && list[x.id] == x
    ensures DistinctIds(s)
  {
    forall i, j | 0 <= i < j < |s|
      ensures s[i].id != s[j].id
    {
      assert s[i] in s && s[j] in s;
      assert Compare(s[i], s[j]) < 0;
    }
  }
}
