/** The index of notifications and notification groups (service/singleton/notification.go:29-173). The two
    link maps are not inverse to each other; what holds in every reachable state is one direction. */
module NotificationIndex {
  import opened Wrappers

  /** Ids are only ever compared. Notifications and groups draw them from separate tables, so the same
      number may name one of each. */
  type Id = int

  datatype Notification = Notification(id: Id, content: string)

  /** A group entry is None where the code stores a nil pointer for an unknown id. */
  type Members = map<Id, Option<Notification>>

  /** list, groupToIDList, idToGroupList, groupList */
  datatype Index = Index(
    list: map<Id, Notification>,
    groups: map<Id, Members>,
    links: map<Id, set<Id>>,
    names: map<Id, string>)

  function Find(list: map<Id, Notification>, id: Id): Option<Notification> {
    if id in list then Some(list[id]) else None
  }

  function LinksOf(links: map<Id, set<Id>>, id: Id): set<Id> {
    if id in links then links[id] else {}
  }

  function MembersOf(groups: map<Id, Members>, gid: Id): Members {
    if gid in groups then groups[gid] else map[]
  }

  /** Every group entry is the listed object and is linked back to its group. */
  ghost predicate Coherent(x: Index) {
    forall g, n :: g in x.groups && n in x.groups[g] ==> EntryOk(x, g, n)
  }

  ghost predicate EntryOk(x: Index, g: Id, n: Id)
    requires g in x.groups && n in x.groups[g]
  {
    n in x.list && x.groups[g][n] == Some(x.list[n]) && g in LinksOf(x.links, n)
  }

  // ---- the operations

  /** Update writes into the map of every linked group; a link to a deleted group would be a write into
      a nil map. */
  predicate UpdateSafe(x: Index, n: Notification) {
    n.id in x.list ==> forall g :: g in LinksOf(x.links, n.id) ==> g in x.groups
  }

  function PutInGroups(groups: map<Id, Members>, gids: set<Id>, n: Notification): map<Id, Members> {
    map g | g in groups :: if g in gids then groups[g][n.id := Some(n)] else groups[g]
  }

  function Updated(x: Index, n: Notification): Index
    requires UpdateSafe(x, n)
  {
    Index(x.list[n.id := n],
          if n.id in x.list then PutInGroups(x.groups, LinksOf(x.links, n.id), n) else x.groups,
          x.links, x.names)
  }

  function Entries(list: map<Id, Notification>, ids: seq<Id>): Members {
    map n | n in ids :: Find(list, n)
  }

  function Linked(links: map<Id, set<Id>>, ids: seq<Id>, gid: Id): map<Id, set<Id>> {
    if ids == [] then links
    else
      var before := Linked(links, ids[..|ids| - 1], gid);
      var n := ids[|ids| - 1];
      before[n := LinksOf(before, n) + {gid}]
  }

  /** The former members of group `gid` that the new list drops. */
  function Dropped(x: Index, gid: Id, ids: seq<Id>): set<Id> {
    set n | n in MembersOf(x.groups, gid) && n !in ids
  }

  function UpdatedGroup(x: Index, gid: Id, name: string, ids: seq<Id>): Index {
    var links := Linked(x.links, ids, gid);
    var groups := x.groups[gid := Entries(x.list, ids)];
    if gid !in x.names then
      Index(x.list, groups, links, x.names[gid := name])
    else
      var dropped := Dropped(x, gid, ids);
      Index(x.list,
            map g | g in groups :: if g in dropped then groups[g] - {gid} else groups[g],
            map n | n in links && !(n in dropped && links[n] == {}) :: links[n],
            x.names[gid := name])
  }

  function DeletedOne(x: Index, id: Id): Index {
    var gids := LinksOf(x.links, id);
    Index(x.list - {id},
          map g | g in x.groups :: if g in gids then x.groups[g] - {id} else x.groups[g],
          if gids == {} then x.links else x.links - {id},
          x.names)
  }

  function Deleted(x: Index, ids: seq<Id>): Index {
    if ids == [] then x else DeletedOne(Deleted(x, ids[..|ids| - 1]), ids[|ids| - 1])
  }

  function DeletedGroups(x: Index, gids: seq<Id>): Index {
    Index(x.list, map g | g in x.groups && g !in gids :: x.groups[g], x.links,
          map g | g in x.names && g !in gids :: x.names[g])
  }

  // ---- the invariant

  lemma {:induction false} LinkedMeans(links: map<Id, set<Id>>, ids: seq<Id>, gid: Id)
    ensures forall n :: LinksOf(Linked(links, ids, gid), n) == LinksOf(links, n) + if n in ids then {gid} else {}
  {
    if ids != [] {
      var before, n := ids[..|ids| - 1], ids[|ids| - 1];
      LinkedMeans(links, before, gid);
      assert forall m :: m in ids <==> m in before || m == n;
    }
  }

  lemma UpdateCoherent(x: Index, n: Notification)
    requires Coherent(x) && UpdateSafe(x, n)
    ensures Coherent(Updated(x, n))
    ensures n.id in x.list ==>
              forall g :: g in x.groups && n.id in x.groups[g] ==> Updated(x, n).groups[g][n.id] == Some(n)
  {
    var y := Updated(x, n);
    forall g, m | g in y.groups && m in y.groups[g]
      ensures EntryOk(y, g, m)
    {
      if m in x.groups[g] {
        assert EntryOk(x, g, m);
      }
    }
    forall g | g in x.groups && n.id in x.groups[g]
      ensures n.id in x.list && y.groups[g][n.id] == Some(n)
    {
      assert EntryOk(x, g, n.id);
    }
  }

  ghost predicate AllKnown(x: Index, ids: seq<Id>) {
    forall n :: n in ids ==> n in x.list
  }

  lemma GroupOfOthers(x: Index, gid: Id, name: string, ids: seq<Id>, g: Id)
    requires g != gid && g in x.groups
    ensures var y := UpdatedGroup(x, gid, name, ids);
      g in y.groups && y.groups[g].Keys <= x.groups[g].Keys
      && forall n :: n in y.groups[g] ==> y.groups[g][n] == x.groups[g][n]
    ensures UpdatedGroup(x, gid, name, ids).groups[g] ==
              if gid in x.names && g in MembersOf(x.groups, gid) && g !in ids then x.groups[g] - {gid} else x.groups[g]
  {
  }

  lemma OwnGroup(x: Index, gid: Id, name: string, ids: seq<Id>)
    ensures var y := UpdatedGroup(x, gid, name, ids);
      gid in y.groups && y.groups[gid].Keys <= Entries(x.list, ids).Keys
      && (forall n :: n in y.groups[gid] ==> n in ids && y.groups[gid][n] == Find(x.list, n))
      && (forall n :: n in ids && n != gid ==> n in y.groups[gid])
      && (gid in ids ==> gid in y.groups[gid])
  {
  }

  lemma LinksKept(x: Index, gid: Id, name: string, ids: seq<Id>, n: Id)
    ensures LinksOf(UpdatedGroup(x, gid, name, ids).links, n) == LinksOf(x.links, n) + if n in ids then {gid} else {}
  {
    LinkedMeans(x.links, ids, gid);
  }

  /** Storing a group keeps the index coherent exactly if it names known notifications only. */
  lemma UpdateGroupCoherent(x: Index, gid: Id, name: string, ids: seq<Id>)
    requires Coherent(x)
    ensures Coherent(UpdatedGroup(x, gid, name, ids)) <==> AllKnown(x, ids)
  {
    var y := UpdatedGroup(x, gid, name, ids);
    OwnGroup(x, gid, name, ids);
    if AllKnown(x, ids) {
      forall g, n | g in y.groups && n in y.groups[g]
        ensures EntryOk(y, g, n)
      {
        LinksKept(x, gid, name, ids, n);
        if g != gid {
          GroupOfOthers(x, gid, name, ids, g);
          assert EntryOk(x, g, n);
        }
      }
    } else {
      var n :| n in ids && n !in x.list;
      assert !EntryOk(y, gid, n);
    }
  }

  lemma DeleteOneCoherent(x: Index, id: Id)
    requires Coherent(x)
    ensures Coherent(DeletedOne(x, id))
    ensures forall g :: g in DeletedOne(x, id).groups ==> id !in DeletedOne(x, id).groups[g]
    ensures DeletedOne(x, id).groups.Keys == x.groups.Keys
    ensures forall g :: g in x.groups ==> DeletedOne(x, id).groups[g] == x.groups[g] - {id}
  {
    var y := DeletedOne(x, id);
    forall g | g in x.groups
      ensures y.groups[g] == x.groups[g] - {id}
    {
      if id in x.groups[g] {
        assert EntryOk(x, g, id);
      }
    }
    forall g, n | g in y.groups && n in y.groups[g]
      ensures EntryOk(y, g, n)
    {
      assert EntryOk(x, g, n);
    }
  }

  /** After Delete no group holds any of the ids. */
  lemma {:induction false} DeleteCoherent(x: Index, ids: seq<Id>)
    requires Coherent(x)
    ensures Coherent(Deleted(x, ids))
    ensures forall g, id :: g in Deleted(x, ids).groups && id in ids ==> id !in Deleted(x, ids).groups[g]
    ensures forall id :: id in ids ==> id !in Deleted(x, ids).list
  {
    if ids != [] {
      var before, id := ids[..|ids| - 1], ids[|ids| - 1];
      DeleteCoherent(x, before);
      DeleteOneCoherent(Deleted(x, before), id);
      assert forall m :: m in ids <==> m in before || m == id;
    }
  }

  lemma DeleteGroupsCoherent(x: Index, gids: seq<Id>)
    requires Coherent(x)
    ensures Coherent(DeletedGroups(x, gids))
  {
    var y := DeletedGroups(x, gids);
    forall g, n | g in y.groups && n in y.groups[g]
      ensures EntryOk(y, g, n)
    {
      assert EntryOk(x, g, n);
    }
  }

  // ---- runs

  datatype Op =
    | Update(n: Notification)
    | UpdateGroup(gid: Id, name: string, ids: seq<Id>)
    | Delete(ids: seq<Id>)
    | DeleteGroup(gids: seq<Id>)

  /** What the callers see to: updates do not hit a deleted group, groups name known notifications. */
  predicate Allowed(x: Index, op: Op) {
    match op
    case Update(n) => UpdateSafe(x, n)
    case UpdateGroup(_, _, ids) => forall n :: n in ids ==> n in x.list
    case Delete(_) => true
    case DeleteGroup(_) => true
  }

  function Next(x: Index, op: Op): Index
    requires Allowed(x, op)
  {
    match op
    case Update(n) => Updated(x, n)
    case UpdateGroup(gid, name, ids) => UpdatedGroup(x, gid, name, ids)
    case Delete(ids) => Deleted(x, ids)
    case DeleteGroup(gids) => DeletedGroups(x, gids)
  }

  predicate Runnable(x: Index, ops: seq<Op>)
    decreases ops
  {
    ops == [] || (Allowed(x, ops[0]) && Runnable(Next(x, ops[0]), ops[1..]))
  }

  function Run(x: Index, ops: seq<Op>): Index
    requires Runnable(x, ops)
    decreases ops
  {
    if ops == [] then x else Run(Next(x, ops[0]), ops[1..])
  }

  lemma {:induction false} RunCoherent(x: Index, ops: seq<Op>)
    requires Coherent(x) && Runnable(x, ops)
    ensures Coherent(Run(x, ops))
    decreases ops
  {
    if ops != [] {
      match ops[0] {
        case Update(n) => UpdateCoherent(x, n);
        case UpdateGroup(gid, name, ids) => UpdateGroupCoherent(x, gid, name, ids);
        case Delete(ids) => DeleteCoherent(x, ids);
        case DeleteGroup(gids) => DeleteGroupsCoherent(x, gids);
      }
      hide Coherent, Updated, UpdatedGroup, Deleted, DeletedGroups, Allowed;
      RunCoherent(Next(x, ops[0]), ops[1..]);
    }
  }

  /** A stored link of a group to a notification. */
  datatype Link = Link(gid: Id, nid: Id)

  function LinkedGroups(stored: seq<Link>): set<Id> {
    set l | l in stored :: l.gid
  }

  /** What the constructor builds from the stored links; a link to an unknown notification is skipped. */
  function Loaded(list: map<Id, Notification>, stored: seq<Link>, names: map<Id, string>): Index {
    Index(list,
          map g | g in LinkedGroups(stored) :: (map n | n in list && Link(g, n) in stored :: Some(list[n])),
          map n | n in list && (exists l :: l in stored && l.nid == n) :: (set l | l in stored && l.nid == n :: l.gid),
          names)
  }

  lemma LoadedCoherent(list: map<Id, Notification>, stored: seq<Link>, names: map<Id, string>)
    ensures Coherent(Loaded(list, stored, names))
  {
    var x := Loaded(list, stored, names);
    forall g, n | g in x.groups && n in x.groups[g]
      ensures EntryOk(x, g, n)
    {
      assert Link(g, n) in stored && Link(g, n).nid == n && Link(g, n).gid == g;
    }
  }

  /** Which groups and links there are after loading: those of the stored links to known notifications. */
  lemma LoadedMeans(list: map<Id, Notification>, stored: seq<Link>, names: map<Id, string>)
    ensures var x := Loaded(list, stored, names);
      && x.list == list && x.names == names
      && (forall g :: g in x.groups <==> exists n :: Link(g, n) in stored)
      && (forall g, n :: g in x.groups ==> (n in x.groups[g] <==> n in list && Link(g, n) in stored))
      && (forall g, n :: n in list ==> (g in LinksOf(x.links, n) <==> Link(g, n) in stored))
  {
    var x := Loaded(list, stored, names);
    forall g
      ensures g in x.groups <==> exists n :: Link(g, n) in stored
    {
      if g in x.groups {
        var l :| l in stored && l.gid == g;
        assert Link(g, l.nid) in stored;
      }
      if n :| Link(g, n) in stored {
        assert Link(g, n).gid in LinkedGroups(stored);
      }
    }
    forall g, n | n in list
      ensures g in LinksOf(x.links, n) <==> Link(g, n) in stored
    {
      if Link(g, n) in stored {
        assert Link(g, n).nid == n && Link(g, n).gid == g;
      }
      if g in LinksOf(x.links, n) {
        var l :| l in stored && l.nid == n && l.gid == g;
        assert l == Link(g, n);
      }
    }
  }

  // ---- what each operation does, entry by entry

  /** A listed notification is replaced, in the list and in every linked group; a new one is listed and
      changes no group. */
  lemma UpdatedMeans(x: Index, n: Notification)
    requires UpdateSafe(x, n)
    ensures var y := Updated(x, n);
      && y.list == x.list[n.id := n] && y.links == x.links && y.names == x.names
      && y.groups.Keys == x.groups.Keys
      && (forall g :: g in x.groups ==>
            var linked := n.id in x.list && g in LinksOf(x.links, n.id);
            y.groups[g] == if linked then x.groups[g][n.id := Some(n)] else x.groups[g])
      && (n.id !in x.list ==> y.groups == x.groups)
  {
  }

  /** A stored group consists of exactly the notifications it names, and is linked to each of them. */
  lemma UpdatedGroupMeans(x: Index, gid: Id, name: string, ids: seq<Id>)
    ensures var y := UpdatedGroup(x, gid, name, ids);
      && y.list == x.list && y.names == x.names[gid := name]
      && y.groups.Keys == x.groups.Keys + {gid}
      && (forall n :: n in y.groups[gid] <==> n in ids)
      && (forall n :: n in ids ==> y.groups[gid][n] == if n in x.list then Some(x.list[n]) else None)
      && (forall n :: LinksOf(y.links, n) == LinksOf(x.links, n) + if n in ids then {gid} else {})
  {
    OwnGroup(x, gid, name, ids);
    forall n
      ensures LinksOf(UpdatedGroup(x, gid, name, ids).links, n) == LinksOf(x.links, n) + if n in ids then {gid} else {}
    {
      LinksKept(x, gid, name, ids, n);
    }
  }

  /** Deleted notifications leave the list and the groups linked to them; everything else stays. Said of any
      notification `n` and group `g`. */
  lemma {:induction false} DeletedMeans(x: Index, ids: seq<Id>, g: Id, n: Id)
    ensures var y := Deleted(x, ids);
      && (n in y.list <==> n in x.list && n !in ids)
      && (n in y.list ==> y.list[n] == x.list[n])
      && LinksOf(y.links, n) == (if n in ids then {} else LinksOf(x.links, n))
      && y.names == x.names && (g in y.groups <==> g in x.groups)
      && (g in x.groups ==>
            && (n in y.groups[g] <==> n in x.groups[g] && !(n in ids && g in LinksOf(x.links, n)))
            && (n in y.groups[g] ==> y.groups[g][n] == x.groups[g][n]))
  {
    if ids != [] {
      var before, id := ids[..|ids| - 1], ids[|ids| - 1];
      DeletedMeans(x, before, g, n);
      DeletedOneMeans(Deleted(x, before), id, g, n);
      assert n in ids <==> n in before || n == id;
      hide DeletedOne, LinksOf;
    }
  }

  lemma DeletedOneMeans(x: Index, id: Id, g: Id, n: Id)
    ensures var y := DeletedOne(x, id);
      && y.list == x.list - {id} && y.names == x.names && (g in y.groups <==> g in x.groups)
      && LinksOf(y.links, n) == (if n == id then {} else LinksOf(x.links, n))
      && (g in x.groups ==>
            y.groups[g] == if g in LinksOf(x.links, id) then x.groups[g] - {id} else x.groups[g])
  {
  }

  // ---- what the missing direction costs

  /** A notification dropped from a known group stays linked to it, so its next update puts it back. */
  lemma DroppedMemberReturns(x: Index, gid: Id, name: string, ids: seq<Id>, n: Notification)
    requires Coherent(x) && gid in x.groups && n.id in x.groups[gid] && n.id !in ids
    requires UpdateSafe(UpdatedGroup(x, gid, name, ids), n)
    ensures var y := UpdatedGroup(x, gid, name, ids);
      n.id !in y.groups[gid] && n.id in Updated(y, n).groups[gid]
  {
    var y := UpdatedGroup(x, gid, name, ids);
    assert EntryOk(x, gid, n.id);
    LinksKept(x, gid, name, ids, n.id);
    OwnGroup(x, gid, name, ids);
  }

  /** Storing a group changes another one exactly if the other's id is that of a dropped member and the
      other holds the notification whose id is the stored group's. */
  lemma OtherGroupChanges(x: Index, gid: Id, name: string, ids: seq<Id>, other: Id)
    requires other != gid && other in x.groups
    ensures UpdatedGroup(x, gid, name, ids).groups[other] != x.groups[other]
            <==> gid in x.names && other in Dropped(x, gid, ids) && gid in x.groups[other]
  {
    var y := UpdatedGroup(x, gid, name, ids);
    if gid in x.names && other in Dropped(x, gid, ids) && gid in x.groups[other] {
      assert gid !in y.groups[other];
    } else {
      assert y.groups[other] == x.groups[other];
    }
  }

  /** Deleting groups leaves their links behind, so updating a known notification is safe afterwards
      exactly if none of the deleted groups is linked to it, as a member or a former one. */
  lemma UpdateAfterDeleteGroup(x: Index, gids: seq<Id>, n: Notification)
    requires UpdateSafe(x, n)
    ensures UpdateSafe(DeletedGroups(x, gids), n) <==>
            n.id !in x.list || forall g :: g in gids ==> g !in LinksOf(x.links, n.id)
  {
  }

  function LinkStep(linked: set<Id>, op: Op, n: Id): set<Id> {
    match op
    case UpdateGroup(gid, _, ids) => if n in ids then linked + {gid} else linked
    case Delete(ids) => if n in ids then {} else linked
    case _ => linked
  }

  /** The groups that named the notification after its last deletion, or were linked to it at first. */
  function NamedBy(linked: set<Id>, ops: seq<Op>, n: Id): set<Id>
    decreases ops
  {
    if ops == [] then linked else NamedBy(LinkStep(linked, ops[0], n), ops[1..], n)
  }

  lemma {:induction false} DeleteLinks(x: Index, ids: seq<Id>, n: Id)
    ensures LinksOf(Deleted(x, ids).links, n) == if n in ids then {} else LinksOf(x.links, n)
  {
    if ids != [] {
      var before, id := ids[..|ids| - 1], ids[|ids| - 1];
      DeleteLinks(x, before, n);
      assert n in ids <==> n in before || n == id;
    }
  }

  lemma StepLinks(x: Index, op: Op, n: Id)
    requires Allowed(x, op)
    ensures LinksOf(Next(x, op).links, n) == LinkStep(LinksOf(x.links, n), op, n)
  {
    match op
    case UpdateGroup(gid, name, ids) => LinksKept(x, gid, name, ids, n);
    case Delete(ids) => DeleteLinks(x, ids, n);
    case _ =>
  }

  /** Links only ever accumulate until the notification itself is deleted: over every run they are all
      the groups that named it, whether or not they still do or still exist. */
  lemma {:induction false} LinksAccumulate(x: Index, ops: seq<Op>, n: Id)
    requires Runnable(x, ops)
    ensures LinksOf(Run(x, ops).links, n) == NamedBy(LinksOf(x.links, n), ops, n)
    decreases ops
  {
    if ops != [] {
      StepLinks(x, ops[0], n);
      hide Next, LinkStep, LinksOf, Allowed;
      LinksAccumulate(Next(x, ops[0]), ops[1..], n);
    }
  }

  /** So after any run an update fails exactly if some group that named the known notification since its
      last deletion is gone. */
  lemma UpdateSafeAfterRun(x: Index, ops: seq<Op>, n: Notification)
    requires Runnable(x, ops)
    ensures UpdateSafe(Run(x, ops), n) <==>
            (n.id in Run(x, ops).list ==>
              forall g :: g in NamedBy(LinksOf(x.links, n.id), ops, n.id) ==> g in Run(x, ops).groups)
  {
    LinksAccumulate(x, ops, n.id);
    hide Run, NamedBy;
  }

  lemma DeleteUnlinked(x: Index, id: Id)
    ensures LinksOf(x.links, id) == {} ==> DeletedOne(x, id) == x.(list := x.list - {id})
  {
    if LinksOf(x.links, id) == {} {
      assert DeletedOne(x, id).groups == x.groups;
    }
  }

  lemma EntriesMore(list: map<Id, Notification>, ids: seq<Id>, k: nat)
    requires k < |ids|
    ensures Entries(list, ids[..k + 1]) == Entries(list, ids[..k])[ids[k] := Find(list, ids[k])]
  {
    assert ids[..k + 1] == ids[..k] + [ids[k]];
  }

  lemma LinkedNothing(links: map<Id, set<Id>>, ids: seq<Id>, gid: Id)
    ensures Linked(links, ids[..0], gid) == links
  {
  }

  lemma LinkedMore(links: map<Id, set<Id>>, ids: seq<Id>, k: nat, gid: Id)
    requires k < |ids|
    ensures var before := Linked(links, ids[..k], gid);
      Linked(links, ids[..k + 1], gid) == before[ids[k] := LinksOf(before, ids[k]) + {gid}]
  {
    assert ids[..k + 1][..k] == ids[..k];
  }

  lemma PutTwice<T>(m: map<Id, T>, k: Id, a: T, b: T)
    ensures m[k := a][k := b] == m[k := b]
  {
  }

  // ---- the object

  class NotificationClass {
    var list: map<Id, Notification>
    var groupToIDList: map<Id, Members>
    var idToGroupList: map<Id, set<Id>>
    var groupList: map<Id, string>

    ghost function State(): Index
      reads this
    {
      Index(list, groupToIDList, idToGroupList, groupList)
    }

    constructor (x: Index)
      ensures State() == x
    {
      list, groupToIDList, idToGroupList, groupList := x.list, x.groups, x.links, x.names;
    }

    /** Go panics on a write into a nil map, in the middle of the loop: the listed object is replaced
        already, but which groups have been served depends on the order the map is read in. */
    method UpdateNotification(n: Notification) returns (panicked: bool)
      modifies this
      ensures panicked <==> !UpdateSafe(old(State()), n)
      ensures !panicked ==> State() == Updated(old(State()), n)
      ensures list == old(list)[n.id := n]
      ensures n.id !in old(list) ==> groupToIDList == old(groupToIDList)
      ensures idToGroupList == old(idToGroupList) && groupList == old(groupList)
    {
      panicked := false;
      var ok := n.id in list;
      list := list[n.id := n];
      if ok && n.id in idToGroupList {
        var gids := idToGroupList[n.id];
        if exists g :: g in gids && g !in groupToIDList {
          return true;
        }
        groupToIDList := map g | g in groupToIDList ::
          if g in gids then groupToIDList[g][n.id := Some(n)] else groupToIDList[g];
      }
      assert groupToIDList == Updated(old(State()), n).groups;
    }

    method UpdateNotificationGroup(gid: Id, name: string, ngn: seq<Id>)
      modifies this
      ensures State() == UpdatedGroup(old(State()), gid, name, ngn)
      ensures list == old(list) && groupList == old(groupList)[gid := name]
    {
      var known := gid in groupList;
      groupList := groupList[gid := name];
      var oldList := if known && gid in groupToIDList then groupToIDList[gid].Keys else {};
      FillGroup(gid, ngn);
      if known {
        var dropped := set n | n in oldList && n !in groupToIDList[gid];
        assert dropped == Dropped(old(State()), gid, ngn);
        groupToIDList := map g | g in groupToIDList ::
          if g in dropped then groupToIDList[g] - {gid} else groupToIDList[g];
        idToGroupList := map n | n in idToGroupList && !(n in dropped && idToGroupList[n] == {}) :: idToGroupList[n];
      }
    }

    /** The group's map is rebuilt from the ids, and each id is linked to the group. */
    method FillGroup(gid: Id, ngn: seq<Id>)
      modifies this`groupToIDList, this`idToGroupList
      ensures groupToIDList == old(groupToIDList)[gid := Entries(list, ngn)]
      ensures idToGroupList == Linked(old(idToGroupList), ngn, gid)
    {
      groupToIDList := groupToIDList[gid := map[]];
      assert Entries(list, ngn[..0]) == map[];
      hide Entries, Linked, Find;
      assert Linked(idToGroupList, ngn[..0], gid) == idToGroupList by { LinkedNothing(idToGroupList, ngn, gid); }
      for k := 0 to |ngn|
        invariant groupToIDList == old(groupToIDList)[gid := Entries(list, ngn[..k])]
        invariant idToGroupList == Linked(old(idToGroupList), ngn[..k], gid)
      {
        var n := ngn[k];
        EntriesMore(list, ngn, k);
        LinkedMore(old(idToGroupList), ngn, k, gid);
        PutTwice(old(groupToIDList), gid, groupToIDList[gid], groupToIDList[gid][n := Find(list, n)]);
        groupToIDList := groupToIDList[gid := groupToIDList[gid][n := Find(list, n)]];
        LinkBack(n, gid);
      }
      assert ngn[..|ngn|] == ngn;
    }

    method LinkBack(n: Id, gid: Id)
      modifies this`idToGroupList
      ensures idToGroupList == old(idToGroupList)[n := LinksOf(old(idToGroupList), n) + {gid}]
    {
      if n !in idToGroupList {
        idToGroupList := idToGroupList[n := {}];
      }
      idToGroupList := idToGroupList[n := idToGroupList[n] + {gid}];
    }

    method DeleteNotifications(idList: seq<Id>)
      modifies this
      ensures State() == Deleted(old(State()), idList)
      ensures forall id :: id in list <==> id in old(list) && id !in idList
    {
      for k := 0 to |idList|
        invariant State() == Deleted(old(State()), idList[..k])
      {
        var id := idList[k];
        assert idList[..k + 1][..k] == idList[..k];
        DeleteUnlinked(State(), id);
        list := list - {id};
        if id in idToGroupList {
          var gids := idToGroupList[id];
          groupToIDList := map g | g in groupToIDList ::
            if g in gids then groupToIDList[g] - {id} else groupToIDList[g];
          if gids != {} {
            idToGroupList := idToGroupList - {id};
          }
        }
      }
      assert idList[..|idList|] == idList;
      forall id
        ensures id in list <==> id in old(list) && id !in idList
      {
        DeletedMeans(old(State()), idList, 0, id);
      }
    }

    method DeleteNotificationGroups(gids: seq<Id>)
      modifies this
      ensures State() == DeletedGroups(old(State()), gids)
      ensures list == old(list) && idToGroupList == old(idToGroupList)
      ensures groupToIDList == map g | g in old(groupToIDList) && g !in gids :: old(groupToIDList)[g]
      ensures groupList == map g | g in old(groupList) && g !in gids :: old(groupList)[g]
    {
      for k := 0 to |gids|
        invariant list == old(list) && idToGroupList == old(idToGroupList)
        invariant groupList == map g | g in old(groupList) && g !in gids[..k] :: old(groupList)[g]
        invariant groupToIDList == map g | g in old(groupToIDList) && g !in gids[..k] :: old(groupToIDList)[g]
      {
        assert forall g :: g in gids[..k + 1] <==> g in gids[..k] || g == gids[k];
        groupList := groupList - {gids[k]};
        groupToIDList := groupToIDList - {gids[k]};
      }
      assert gids[..|gids|] == gids;
    }
  }
}
