// The cluster view: a bounded table of members with distinct node ids.

module Membership {
  import opened Bytes
  import opened Common
  import opened Locks
  import opened Nodes

  datatype Member = Member(
    id: NodeId,
    nodeType: Byte,
    ip: seq<Byte>,
    gossipPort: Port,
    dataPort: Port,
    status: Status,
    lastSeen: nat,
    incarnation: nat)

  // ---------------------------------------------------------------------------
  // What each operation does to the table, as a function on its contents
  // ---------------------------------------------------------------------------

  /** The first slot that carries the id, or the length of the table. */
  function Find(v: seq<Member>, id: NodeId): (i: nat)
    ensures i <= |v|
    ensures i < |v| ==> v[i].id == id
    ensures forall j | 0 <= j < i :: v[j].id != id
  {
    if |v| == 0 then 0 else if v[0].id == id then 0 else 1 + Find(v[1..], id)
  }

  function Lookup(v: seq<Member>, id: NodeId): Option<Member> {
    var i := Find(v, id);
    if i < |v| then Some(v[i]) else None
  }

  /** What cluster_view_add leaves in the slot of a member it already knows. */
  function Readmitted(entry: Member, m: Member, now: nat): Member {
    if m.status == ALIVE && entry.status == DEAD then
      m.(lastSeen := now, incarnation := m.incarnation + 1)
    else if m.incarnation >= entry.incarnation then
      m.(lastSeen := now)
    else
      entry
  }

  function Added(v: seq<Member>, capacity: nat, m: Member, now: nat): seq<Member> {
    var i := Find(v, m.id);
    if i < |v| then v[i := Readmitted(v[i], m, now)]
    else if |v| >= capacity then v
    else v + [m.(lastSeen := now)]
  }

  /** What cluster_view_update_status leaves in the slot of a known member. */
  function Restated(entry: Member, status: Status, incarnation: nat, now: nat): Member {
    if incarnation >= entry.incarnation then
      entry.(status := status,
           incarnation := incarnation,
           lastSeen := if status == ALIVE || (status == SUSPECT && entry.status == ALIVE) then now else entry.lastSeen)
    else
      entry
  }

  function StatusSet(v: seq<Member>, id: NodeId, status: Status, incarnation: nat, now: nat): seq<Member> {
    var i := Find(v, id);
    if i < |v| then v[i := Restated(v[i], status, incarnation, now)] else v
  }

  function Removed(v: seq<Member>, id: NodeId): seq<Member> {
    var i := Find(v, id);
    if i < |v| then v[..i] + v[i + 1..] else v
  }

  /** What update_self_in_cluster_view leaves in the node's own slot. */
  function Refreshed(v: seq<Member>, id: NodeId, incarnation: nat, now: nat): seq<Member> {
    var i := Find(v, id);
    if i < |v| then v[i := v[i].(lastSeen := now, incarnation := incarnation, status := ALIVE)] else v
  }

  // ---------------------------------------------------------------------------
  // The table is a bounded map
  // ---------------------------------------------------------------------------

  ghost predicate DistinctIds(v: seq<Member>) {
    forall i, j | 0 <= i < j < |v| :: v[i].id != v[j].id
  }

  ghost function Ids(v: seq<Member>): set<NodeId> {
    set i | 0 <= i < |v| :: v[i].id
  }

  ghost function AsMap(v: seq<Member>): (m: map<NodeId, Member>) {
    map id | id in Ids(v) :: v[Find(v, id)]
  }

  lemma LookupAsMap(v: seq<Member>, id: NodeId)
    ensures Lookup(v, id).Some? <==> id in Ids(v)
    ensures Lookup(v, id).Some? <==> id in AsMap(v)
    ensures Lookup(v, id).Some? ==> Lookup(v, id).value == AsMap(v)[id] && Lookup(v, id).value.id == id
  {
    var i := Find(v, id);
    if i < |v| {
      assert v[i].id in Ids(v);
    }
  }

  /** A map is the table's map as soon as it answers every lookup the way the table does. */
  lemma MapOfLookups(v: seq<Member>, m: map<NodeId, Member>)
    requires forall id: NodeId :: Lookup(v, id) == if id in m then Some(m[id]) else None
    ensures AsMap(v) == m
  {
    forall id: NodeId
      ensures id in AsMap(v) <==> id in m
      ensures id in m ==> AsMap(v)[id] == m[id]
    {
      LookupAsMap(v, id);
    }
    assert AsMap(v).Keys == m.Keys;
  }

  /** The first slot with an id is the only slot with that id before which none has it. */
  lemma FindIs(v: seq<Member>, id: NodeId, k: nat)
    requires k <= |v|
    requires k < |v| ==> v[k].id == id
    requires forall j | 0 <= j < k :: v[j].id != id
    ensures Find(v, id) == k
  {
  }

  lemma LookupSlot(v: seq<Member>, i: nat, m: Member, id: NodeId)
    requires i < |v| && m.id == v[i].id && DistinctIds(v)
    ensures Lookup(v[i := m], id) == if id == m.id then Some(m) else Lookup(v, id)
  {
    FindIs(v[i := m], id, Find(v, id));
  }

  lemma LookupAppend(v: seq<Member>, m: Member, id: NodeId)
    requires Find(v, m.id) == |v|
    ensures Lookup(v + [m], id) == if id == m.id then Some(m) else Lookup(v, id)
  {
    var k := Find(v, id);
    FindIs(v + [m], id, if k < |v| || id == m.id then k else |v| + 1);
  }

  lemma RemovedSlots(v: seq<Member>, i: nat, j: nat)
    requires i < |v| && j < |v| - 1
    ensures (v[..i] + v[i + 1..])[j] == v[if j < i then j else j + 1]
  {
  }

  lemma RemovedDistinct(v: seq<Member>, k: NodeId)
    requires DistinctIds(v)
    ensures DistinctIds(Removed(v, k))
  {
    var w, i := Removed(v, k), Find(v, k);
    if i < |v| {
      forall a, b | 0 <= a < b < |w|
        ensures w[a].id != w[b].id
      {
        RemovedSlots(v, i, a);
        RemovedSlots(v, i, b);
      }
    }
  }

  lemma LookupRemoved(v: seq<Member>, k: NodeId, id: NodeId)
    requires DistinctIds(v)
    ensures DistinctIds(Removed(v, k))
    ensures Lookup(Removed(v, k), id) == if id == k then None else Lookup(v, id)
  {
    RemovedDistinct(v, k);
    var w, i, g := Removed(v, k), Find(v, k), Find(v, id);
    if i < |v| {
      var x := if id == k then |w| else if g <= i then g else g - 1;
      if x < |w| {
        RemovedSlots(v, i, x);
      }
      forall j | 0 <= j < x
        ensures w[j].id != id
      {
        RemovedSlots(v, i, j);
      }
      FindIs(w, id, x);
    }
  }

  /** cluster_view_add is insert-or-update on the map, refused only when a new id meets a full table. */
  lemma AddedRefinesMap(v: seq<Member>, capacity: nat, m: Member, now: nat)
    requires DistinctIds(v) && |v| <= capacity
    ensures var w := Added(v, capacity, m, now);
            && DistinctIds(w) && |v| <= |w| <= capacity
            && (m.id in AsMap(v) ==> AsMap(w) == AsMap(v)[m.id := Readmitted(AsMap(v)[m.id], m, now)])
            && (m.id !in AsMap(v) && |AsMap(v)| < capacity ==> AsMap(w) == AsMap(v)[m.id := m.(lastSeen := now)])
            && (m.id !in AsMap(v) && |AsMap(v)| == capacity ==> AsMap(w) == AsMap(v))
  {
    var w := Added(v, capacity, m, now);
    MapSize(v);
    LookupAsMap(v, m.id);
    var expected := if m.id in AsMap(v) then AsMap(v)[m.id := Readmitted(AsMap(v)[m.id], m, now)]
                    else if |v| < capacity then AsMap(v)[m.id := m.(lastSeen := now)]
                    else AsMap(v);
    forall id: NodeId
      ensures Lookup(w, id) == if id in expected then Some(expected[id]) else None
    {
      LookupAsMap(v, id);
      LookupAdded(v, capacity, m, now, id);
    }
    LookupAdded(v, capacity, m, now, m.id);
    MapOfLookups(w, expected);
  }

  /** The map has exactly as many ids as the table has slots in use. */
  lemma MapSize(v: seq<Member>)
    requires DistinctIds(v)
    ensures |AsMap(v)| == |v|
  {
    IdsSize(v);
    assert AsMap(v).Keys == Ids(v);
  }

  lemma {:induction false} IdsSize(v: seq<Member>)
    requires DistinctIds(v)
    ensures |Ids(v)| == |v|
  {
    if |v| > 0 {
      var u, m := v[..|v| - 1], v[|v| - 1];
      IdsSize(u);
      IdsAppend(u, m);
      assert u + [m] == v;
      assert m.id !in Ids(u);
    }
  }

  lemma IdsAppend(v: seq<Member>, m: Member)
    ensures Ids(v + [m]) == Ids(v) + {m.id}
  {
    var w := v + [m];
    assert w[|v|].id == m.id;
    assert forall i | 0 <= i < |v| :: w[i] == v[i];
  }

  /** cluster_view_update_status is an update of one key, and never adds or drops one. */
  lemma StatusSetRefinesMap(v: seq<Member>, k: NodeId, status: Status, incarnation: nat, now: nat)
    requires DistinctIds(v)
    ensures var w := StatusSet(v, k, status, incarnation, now);
            && DistinctIds(w) && |w| == |v|
            && AsMap(w) == if k in AsMap(v)
                           then AsMap(v)[k := Restated(AsMap(v)[k], status, incarnation, now)]
                           else AsMap(v)
  {
    var w := StatusSet(v, k, status, incarnation, now);
    var expected := if k in AsMap(v) then AsMap(v)[k := Restated(AsMap(v)[k], status, incarnation, now)] else AsMap(v);
    forall id: NodeId
      ensures Lookup(w, id) == if id in expected then Some(expected[id]) else None
    {
      LookupAsMap(v, id);
      LookupStatusSet(v, k, status, incarnation, now, id);
    }
    LookupStatusSet(v, k, status, incarnation, now, k);
    MapOfLookups(w, expected);
  }

  /** cluster_view_remove is deletion of one key. */
  lemma RemovedRefinesMap(v: seq<Member>, k: NodeId)
    requires DistinctIds(v)
    ensures var w := Removed(v, k);
            && DistinctIds(w)
            && AsMap(w) == AsMap(v) - {k}
  {
    var w := Removed(v, k);
    forall id: NodeId
      ensures Lookup(w, id) == if id in AsMap(v) - {k} then Some((AsMap(v) - {k})[id]) else None
    {
      LookupAsMap(v, id);
      LookupRemoved(v, k, id);
    }
    LookupRemoved(v, k, k);
    MapOfLookups(w, AsMap(v) - {k});
  }

  // ---------------------------------------------------------------------------
  // The same, read through Lookup
  // ---------------------------------------------------------------------------

  lemma LookupAdded(v: seq<Member>, capacity: nat, m: Member, now: nat, id: NodeId)
    requires DistinctIds(v) && |v| <= capacity
    ensures var w := Added(v, capacity, m, now);
            && DistinctIds(w) && |v| <= |w| <= capacity
            && (id != m.id ==> Lookup(w, id) == Lookup(v, id))
            && (id == m.id ==>
                  match Lookup(v, id)
                  case Some(entry) => Lookup(w, id) == Some(Readmitted(entry, m, now))
                  case None => Lookup(w, id) == if |v| < capacity then Some(m.(lastSeen := now)) else None)
  {
    var i := Find(v, m.id);
    if i < |v| {
      LookupSlot(v, i, Readmitted(v[i], m, now), id);
    } else if |v| < capacity {
      LookupAppend(v, m.(lastSeen := now), id);
    }
  }

  lemma LookupStatusSet(v: seq<Member>, k: NodeId, status: Status, incarnation: nat, now: nat, id: NodeId)
    requires DistinctIds(v)
    ensures var w := StatusSet(v, k, status, incarnation, now);
            && DistinctIds(w) && |w| == |v|
            && Lookup(w, id) ==
               if id == k && Lookup(v, id).Some?
               then Some(Restated(Lookup(v, id).value, status, incarnation, now))
               else Lookup(v, id)
  {
    var i := Find(v, k);
    if i < |v| {
      LookupSlot(v, i, Restated(v[i], status, incarnation, now), id);
    }
  }

  lemma LookupRefreshed(v: seq<Member>, k: NodeId, incarnation: nat, now: nat, id: NodeId)
    requires DistinctIds(v)
    ensures var w := Refreshed(v, k, incarnation, now);
            && DistinctIds(w) && |w| == |v|
            && Lookup(w, id) ==
               if id == k && Lookup(v, id).Some?
               then Some(Lookup(v, id).value.(lastSeen := now, incarnation := incarnation, status := ALIVE))
               else Lookup(v, id)
  {
    var i := Find(v, k);
    if i < |v| {
      LookupSlot(v, i, v[i].(lastSeen := now, incarnation := incarnation, status := ALIVE), id);
    }
  }

  // ---------------------------------------------------------------------------
  // Any interleaving of single operations
  // ---------------------------------------------------------------------------

  /** One critical section that writes the table: an add, a status update, or a node's refresh of its own
      entry, which writes through the pointer that a lookup returned. */
  datatype ViewOp =
    | AddOp(m: Member, at: nat)
    | StatusOp(id: NodeId, status: Status, incarnation: nat, at: nat)
    | SelfOp(id: NodeId, incarnation: nat, at: nat)

  function Apply(v: seq<Member>, capacity: nat, op: ViewOp): seq<Member> {
    match op
    case AddOp(m, at) => Added(v, capacity, m, at)
    case StatusOp(id, status, incarnation, at) => StatusSet(v, id, status, incarnation, at)
    case SelfOp(id, incarnation, at) => Refreshed(v, id, incarnation, at)
  }

  function ApplyAll(v: seq<Member>, capacity: nat, ops: seq<ViewOp>): seq<Member> {
    if |ops| == 0 then v else Apply(ApplyAll(v, capacity, ops[..|ops| - 1]), capacity, ops[|ops| - 1])
  }

  /** An ALIVE add that meets a DEAD entry. */
  ghost predicate Resurrects(v: seq<Member>, op: ViewOp, id: NodeId) {
    && op.AddOp?
    && op.m.id == id
    && op.m.status == ALIVE
    && Lookup(v, id).Some?
    && Lookup(v, id).value.status == DEAD
  }

  /** A node's refresh of the entry of id, which is its own. */
  predicate Refreshes(op: ViewOp, id: NodeId) {
    op.SelfOp? && op.id == id
  }

  lemma LookupApplied(v: seq<Member>, capacity: nat, op: ViewOp, id: NodeId)
    requires DistinctIds(v) && |v| <= capacity
    ensures var w := Apply(v, capacity, op);
            && DistinctIds(w) && |v| <= |w| <= capacity
            && (Lookup(v, id).Some? ==> Lookup(w, id).Some?)
  {
    match op
    case AddOp(m, at) => LookupAdded(v, capacity, m, at, id);
    case StatusOp(k, status, incarnation, at) => LookupStatusSet(v, k, status, incarnation, at, id);
    case SelfOp(k, incarnation, at) => LookupRefreshed(v, k, incarnation, at, id);
  }

  /** One critical section lowers an incarnation exactly when it resurrects with a smaller one, or is
      the refresh of a node's own entry from a smaller counter. */
  lemma IncarnationDropsIff(v: seq<Member>, capacity: nat, op: ViewOp, id: NodeId)
    requires DistinctIds(v) && |v| <= capacity && Lookup(v, id).Some?
    ensures Lookup(Apply(v, capacity, op), id).Some?
    ensures Lookup(Apply(v, capacity, op), id).value.incarnation < Lookup(v, id).value.incarnation
       <==> || (Resurrects(v, op, id) && op.m.incarnation + 1 < Lookup(v, id).value.incarnation)
            || (Refreshes(op, id) && op.incarnation < Lookup(v, id).value.incarnation)
  {
    match op
    case AddOp(m, at) => LookupAdded(v, capacity, m, at, id);
    case StatusOp(k, status, incarnation, at) => LookupStatusSet(v, k, status, incarnation, at, id);
    case SelfOp(k, incarnation, at) => LookupRefreshed(v, k, incarnation, at, id);
  }

  lemma AppliedKeepsIds(v: seq<Member>, capacity: nat, op: ViewOp)
    requires DistinctIds(v) && |v| <= capacity
    ensures Ids(v) <= Ids(Apply(v, capacity, op))
  {
    hide Apply, Lookup;
    var w := Apply(v, capacity, op);
    forall x: NodeId | x in Ids(v)
      ensures x in Ids(w)
    {
      LookupAsMap(v, x);
      LookupApplied(v, capacity, op, x);
      LookupAsMap(w, x);
    }
  }

  /** However the handlers of the two gossip threads interleave between lock
      acquisitions, the table stays a bounded map that loses no id, and an
      incarnation only drops where an ALIVE add meets a DEAD entry or a node refreshes its own entry. */
  lemma {:induction false} AnyInterleavingKeepsIncarnations(v: seq<Member>, capacity: nat, ops: seq<ViewOp>, id: NodeId)
    requires DistinctIds(v) && |v| <= capacity
    ensures DistinctIds(ApplyAll(v, capacity, ops)) && |v| <= |ApplyAll(v, capacity, ops)| <= capacity
    ensures Ids(v) <= Ids(ApplyAll(v, capacity, ops))
    ensures Lookup(v, id).Some?
            && (forall k | 0 <= k < |ops| ::
                  !Resurrects(ApplyAll(v, capacity, ops[..k]), ops[k], id) && !Refreshes(ops[k], id)) ==>
              && Lookup(ApplyAll(v, capacity, ops), id).Some?
              && Lookup(ApplyAll(v, capacity, ops), id).value.incarnation >= Lookup(v, id).value.incarnation
  {
    hide Apply, Lookup, Resurrects, DistinctIds, Ids;
    if |ops| > 0 {
      var front, op := ops[..|ops| - 1], ops[|ops| - 1];
      AnyInterleavingKeepsIncarnations(v, capacity, front, id);
      var u := ApplyAll(v, capacity, front);
      var w := ApplyAll(v, capacity, ops);
      LookupApplied(u, capacity, op, id);
      AppliedKeepsIds(u, capacity, op);
      if Lookup(v, id).Some? && (forall k | 0 <= k < |ops| ::
            !Resurrects(ApplyAll(v, capacity, ops[..k]), ops[k], id) && !Refreshes(ops[k], id)) {
        assert forall k | 0 <= k < |front| :: front[..k] == ops[..k] && front[k] == ops[k];
        assert !Resurrects(u, op, id) && !Refreshes(op, id);
        IncarnationDropsIff(u, capacity, op, id);
      }
    }
  }

  /** (incarnation, status) of f is below that of e in lexicographic order. */
  ghost predicate Below(f: Member, e: Member) {
    f.incarnation < e.incarnation || (f.incarnation == e.incarnation && f.status < e.status)
  }

  /** Which critical sections lower the pair (incarnation, status) of a member. */
  lemma PairDropsIff(v: seq<Member>, capacity: nat, op: ViewOp, id: NodeId)
    requires DistinctIds(v) && |v| <= capacity && Lookup(v, id).Some?
    ensures Lookup(Apply(v, capacity, op), id).Some?
    ensures var e, f := Lookup(v, id).value, Lookup(Apply(v, capacity, op), id).value;
            Below(f, e) <==>
            match op
            case StatusOp(k, status, incarnation, _) => k == id && incarnation == e.incarnation && status < e.status
            case AddOp(m, _) =>
              m.id == id && (if m.status == ALIVE && e.status == DEAD then m.incarnation < e.incarnation
                             else m.incarnation == e.incarnation && m.status < e.status)
            case SelfOp(k, incarnation, _) =>
              k == id && (incarnation < e.incarnation || (incarnation == e.incarnation && ALIVE < e.status))
  {
    match op
    case AddOp(m, at) => LookupAdded(v, capacity, m, at, id);
    case StatusOp(k, status, incarnation, at) => LookupStatusSet(v, k, status, incarnation, at, id);
    case SelfOp(k, incarnation, at) => LookupRefreshed(v, k, incarnation, at, id);
  }

  /** A record of the member at this incarnation with a higher status. */
  predicate Outranks(op: ViewOp, id: NodeId, status: Status, incarnation: nat) {
    match op
    case AddOp(m, _) => m.id == id && m.status > status && m.incarnation == incarnation
    case StatusOp(k, higher, i, _) => k == id && higher > status && i == incarnation
    case SelfOp(_, _, _) => false
  }

  /** The handlers read an entry under one lock and write a status under the next: check_ack_timeouts and
      handle_suspect_message write SUSPECT over what they saw ALIVE, at the incarnation they saw or a later one,
      and the piggybacks of PING, ACK and ALIVE write at a later one. None of these writes would lower the
      entry that was read. Whatever section runs in between, the write lowers the entry exactly when the
      section left it at the incarnation written with a higher status, and only a section that records just
      that does so: a SUSPECT written late undoes a death at the same incarnation. */
  lemma TornWriteLowersIff(v: seq<Member>, capacity: nat, op: ViewOp, id: NodeId, status: Status, incarnation: nat,
                           at: nat)
    requires DistinctIds(v) && |v| <= capacity && Lookup(v, id).Some?
    requires var read := Lookup(v, id).value;
             incarnation > read.incarnation || (incarnation == read.incarnation && status >= read.status)
    ensures var between := Apply(v, capacity, op);
            var written := Apply(between, capacity, StatusOp(id, status, incarnation, at));
            && Lookup(between, id).Some? && Lookup(written, id).Some?
            && var e := Lookup(between, id).value;
               && (Below(Lookup(written, id).value, e) <==> e.incarnation == incarnation && e.status > status)
               && (Below(Lookup(written, id).value, e) <==> Outranks(op, id, status, incarnation))
  {
    LookupApplied(v, capacity, op, id);
    PairDropsIff(Apply(v, capacity, op), capacity, StatusOp(id, status, incarnation, at), id);
    match op
    case AddOp(m, now) => LookupAdded(v, capacity, m, now, id);
    case StatusOp(k, s, i, now) => LookupStatusSet(v, k, s, i, now, id);
    case SelfOp(k, i, now) => LookupRefreshed(v, k, i, now, id);
  }

  /** handle_ack_message sees a suspected sender under one lock and reads its incarnation after the release.
      Whatever section runs in between, the revival then writes ALIVE at the incarnation of that moment,
      and lowers the entry exactly when the section left it other than ALIVE. */
  lemma LateReadRevives(v: seq<Member>, capacity: nat, op: ViewOp, id: NodeId, at: nat)
    requires DistinctIds(v) && |v| <= capacity && Lookup(v, id).Some? && Lookup(v, id).value.status == SUSPECT
    ensures var between := Apply(v, capacity, op);
            && Lookup(between, id).Some?
            && var read := Lookup(between, id).value;
               var after := Lookup(Apply(between, capacity, StatusOp(id, ALIVE, read.incarnation, at)), id);
               && after == Some(read.(status := ALIVE, lastSeen := at))
               && (Below(after.value, read) <==> read.status != ALIVE)
  {
    LookupApplied(v, capacity, op, id);
    var between := Apply(v, capacity, op);
    LookupStatusSet(between, id, ALIVE, Lookup(between, id).value.incarnation, at, id);
  }

  // ---------------------------------------------------------------------------
  // The table itself
  // ---------------------------------------------------------------------------

  lemma FindIsFirst(v: seq<Member>, id: NodeId, i: nat)
    requires i < |v| && v[i].id == id && forall j | 0 <= j < i :: v[j].id != id
    ensures Find(v, id) == i
  {
    hide Find;
  }

  class ClusterView {
    const members: array<Member>
    const locks: LockTable
    var count: nat

    ghost predicate Valid()
      reads this
    {
      count <= members.Length
    }

    ghost function Contents(): (v: seq<Member>)
      requires Valid()
      reads this, members
      ensures |v| == count
    {
      members[..count]
    }

    constructor (capacity: nat, locks: LockTable)
      requires capacity > 0
      ensures Valid() && fresh(members) && members.Length == capacity && this.locks == locks
      ensures Contents() == []
    {
      members := new Member[capacity](_ => Member(0, 0, [], 0, 0, 0, 0, 0));
      this.locks := locks;
      count := 0;
    }

    method Add(m: Member, now: nat) returns (code: ResultCode)
      requires Valid() && locks.MayTake(ViewLock)
      modifies this, members, locks
      ensures Valid() && locks.held == old(locks.held)
      ensures Contents() == Added(old(Contents()), members.Length, m, now)
      ensures code == if Find(old(Contents()), m.id) == old(count) == members.Length then ErrFull else Ok
    {
      hide Find;
      locks.Acquire(ViewLock);
      for i := 0 to count
        invariant forall j | 0 <= j < i :: members[j].id != m.id
      {
        if members[i].id == m.id {
          ghost var before := Contents();
          FindIsFirst(before, m.id, i);
          if m.status == ALIVE && members[i].status == DEAD {
            members[i] := m;
            members[i] := members[i].(lastSeen := now);
            members[i] := members[i].(incarnation := m.incarnation + 1);
          } else if m.incarnation >= members[i].incarnation {
            members[i] := m;
            members[i] := members[i].(lastSeen := now);
          }
          assert Contents() == before[i := Readmitted(before[i], m, now)];
          locks.Release(ViewLock);
          return Ok;
        }
      }
      if count >= members.Length {
        locks.Release(ViewLock);
        return ErrFull;
      }
      members[count] := m;
      members[count] := members[count].(lastSeen := now);
      count := count + 1;
      locks.Release(ViewLock);
      return Ok;
    }

    method UpdateStatus(id: NodeId, status: Status, incarnation: nat, now: nat) returns (code: ResultCode)
      requires Valid() && locks.MayTake(ViewLock)
      modifies members, locks
      ensures Valid() && locks.held == old(locks.held)
      ensures Contents() == StatusSet(old(Contents()), id, status, incarnation, now)
      ensures code == if Find(old(Contents()), id) < count then Ok else ErrNotFound
    {
      hide Find;
      locks.Acquire(ViewLock);
      for i := 0 to count
        invariant forall j | 0 <= j < i :: members[j].id != id
      {
        if members[i].id == id {
          ghost var before := Contents();
          FindIsFirst(before, id, i);
          if incarnation >= members[i].incarnation {
            var oldStatus := members[i].status;
            members[i] := members[i].(status := status);
            members[i] := members[i].(incarnation := incarnation);
            if status == ALIVE {
              members[i] := members[i].(lastSeen := now);
            } else if status == SUSPECT && oldStatus == ALIVE {
              members[i] := members[i].(lastSeen := now);
            }
          }
          assert Contents() == before[i := Restated(before[i], status, incarnation, now)];
          locks.Release(ViewLock);
          return Ok;
        }
      }
      locks.Release(ViewLock);
      return ErrNotFound;
    }

    method Remove(id: NodeId) returns (code: ResultCode)
      requires Valid() && locks.MayTake(ViewLock)
      modifies this, members, locks
      ensures Valid() && locks.held == old(locks.held)
      ensures Contents() == Removed(old(Contents()), id)
      ensures code == if Find(old(Contents()), id) < old(count) then Ok else ErrNotFound
    {
      hide Find;
      locks.Acquire(ViewLock);
      for i := 0 to count
        invariant forall j | 0 <= j < i :: members[j].id != id
      {
        if members[i].id == id {
          ghost var before := members[..count];
          FindIsFirst(before, id, i);
          forall k | i <= k < count - 1 {
            members[k] := members[k + 1];
          }
          count := count - 1;
          CutOut(before, members[..count], i);
          locks.Release(ViewLock);
          return Ok;
        }
      }
      locks.Release(ViewLock);
      return ErrNotFound;
    }

    /** Returns the slot of the member and keeps the read lock, or finds nothing and holds nothing. */
    method Get(id: NodeId) returns (found: bool, slot: nat)
      requires Valid() && locks.MayTake(ViewLock)
      modifies locks
      ensures slot == Find(Contents(), id)
      ensures found <==> slot < count
      ensures locks.held == if found then old(locks.held) + {ViewLock} else old(locks.held)
    {
      locks.Acquire(ViewLock);
      for i := 0 to count
        invariant forall j | 0 <= j < i :: members[j].id != id
      {
        if members[i].id == id {
          return true, i;
        }
      }
      locks.Release(ViewLock);
      return false, count;
    }

    method Release()
      requires ViewLock in locks.held
      modifies locks
      ensures locks.held == old(locks.held) - {ViewLock}
    {
      locks.Release(ViewLock);
    }
  }
}
