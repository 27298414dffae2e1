// The SWIM gossip engine as a state machine on values: one function per handler
// and timer, each an atomic step at one reading of the clock.

module Gossip {
  import opened Bytes
  import opened Common
  import opened Membership
  import opened Nodes

  const MAX_PENDING_ACKS: nat := 64
  const MAX_UPDATE_QUEUE: nat := 256
  const GOSSIP_MAX_PIGGYBACK_UPDATES: nat := 10
  const MAX_CLUSTER_NODES: nat := 512
  const MAX_CONFIG_ROUTERS: nat := 16

  const MSG_PING: Byte := 1
  const MSG_ACK: Byte := 2
  const MSG_SUSPECT: Byte := 4
  const MSG_ALIVE: Byte := 5
  const MSG_DEAD: Byte := 6
  const MSG_JOIN: Byte := 7
  const MSG_LEAVE: Byte := 8
  const MSG_WORKER_JOIN: Byte := 9
  const MSG_JOIN_RESPONSE: Byte := 10

  datatype Update = Update(
    id: NodeId,
    nodeType: Byte,
    ip: seq<Byte>,
    gossipPort: Port,
    dataPort: Port,
    status: Status,
    incarnation: nat,
    timestamp: nat)

  datatype Message = Message(
    version: Byte,
    msgType: Byte,
    flags: Port,
    sender: NodeId,
    sequenceNum: nat,
    updates: seq<Update>)

  datatype PendingAck = PendingAck(target: NodeId, sentAt: nat, active: bool)

  datatype Config = Config(
    myId: NodeId,
    myType: Byte,
    myIp: seq<Byte>,
    gossipPort: Port,
    dataPort: Port,
    capacity: nat,
    ackTimeout: nat,
    deadTimeout: nat,
    fanout: nat,
    maxPiggyback: nat)

  datatype State = State(
    view: seq<Member>,
    pending: seq<PendingAck>,
    queue: seq<Update>,
    incarnation: nat,
    sequenceNum: nat)

  // ---------------------------------------------------------------------------
  // The update queue and the table of unanswered pings
  // ---------------------------------------------------------------------------

  function Push(q: seq<Update>, u: Update): seq<Update> {
    if |q| < MAX_UPDATE_QUEUE then q + [u] else q
  }

  function PushTimes(q: seq<Update>, u: Update, n: nat): seq<Update> {
    if n == 0 then q else Push(PushTimes(q, u, n - 1), u)
  }

  function FirstIdle(p: seq<PendingAck>): (i: nat)
    ensures i <= |p|
    ensures i < |p| ==> !p[i].active
    ensures forall j | 0 <= j < i :: p[j].active
  {
    if |p| == 0 || !p[0].active then 0 else 1 + FirstIdle(p[1..])
  }

  function FirstAwaiting(p: seq<PendingAck>, target: NodeId): (i: nat)
    ensures i <= |p|
    ensures i < |p| ==> p[i].active && p[i].target == target
    ensures forall j | 0 <= j < i :: !(p[j].active && p[j].target == target)
  {
    if |p| == 0 || (p[0].active && p[0].target == target) then 0 else 1 + FirstAwaiting(p[1..], target)
  }

  function PingRecorded(p: seq<PendingAck>, target: NodeId, now: nat): seq<PendingAck> {
    var i := FirstIdle(p);
    if i < |p| then p[i := PendingAck(target, now, true)] else p
  }

  function PingAnswered(p: seq<PendingAck>, target: NodeId): seq<PendingAck> {
    var i := FirstAwaiting(p, target);
    if i < |p| then p[i := p[i].(active := false)] else p
  }

  // ---------------------------------------------------------------------------
  // Messages: one piggybacked update at a time
  // ---------------------------------------------------------------------------

  function MemberOf(u: Update, status: Status, incarnation: nat, now: nat): Member {
    Member(u.id, u.nodeType, Truncated(u.ip, MAX_IP_LEN), u.gossipPort, u.dataPort, status, now, incarnation)
  }

  function AliveUpdate(c: Config, incarnation: nat, now: nat): Update {
    Update(c.myId, c.myType, Truncated(c.myIp, MAX_IP_LEN), c.gossipPort, c.dataPort, ALIVE, incarnation, now)
  }

  function AbsorbPing(c: Config, s: State, u: Update, now: nat): State {
    match Lookup(s.view, u.id)
    case None =>
      s.(view := Added(s.view, c.capacity, MemberOf(u, u.status, u.incarnation, now), now),
         queue := Push(s.queue, u.(timestamp := now)))
    case Some(m) =>
      if m.status == DEAD && u.status == ALIVE && u.incarnation > m.incarnation then
        s.(view := Added(s.view, c.capacity, MemberOf(u, ALIVE, u.incarnation, now), now))
      else if u.incarnation > m.incarnation then
        s.(view := StatusSet(s.view, u.id, u.status, u.incarnation, now))
      else
        s
  }

  function AbsorbAck(c: Config, s: State, u: Update, now: nat): State {
    match Lookup(s.view, u.id)
    case None => s.(view := Added(s.view, c.capacity, MemberOf(u, u.status, u.incarnation, now), now))
    case Some(m) =>
      if u.incarnation > m.incarnation then
        s.(view := StatusSet(s.view, u.id, u.status, u.incarnation, now))
      else
        s
  }

  function AbsorbSuspect(c: Config, s: State, u: Update, now: nat): State {
    if u.status != SUSPECT then s
    else if u.id == c.myId then
      s.(incarnation := s.incarnation + 1,
         queue := PushTimes(s.queue, AliveUpdate(c, s.incarnation + 1, now), 3))
    else
      match Lookup(s.view, u.id)
      case None => s
      case Some(m) =>
        if u.incarnation >= m.incarnation && m.status == ALIVE then
          s.(view := StatusSet(s.view, u.id, SUSPECT, u.incarnation, now), queue := Push(s.queue, u))
        else
          s
  }

  /** The status field of the update is not read: every update is taken as ALIVE. */
  function AbsorbAlive(s: State, u: Update, now: nat): State {
    match Lookup(s.view, u.id)
    case None => s
    case Some(m) =>
      if u.incarnation > m.incarnation then
        s.(view := StatusSet(s.view, u.id, ALIVE, u.incarnation, now), queue := Push(s.queue, u))
      else
        s
  }

  function AbsorbDead(s: State, u: Update, now: nat): State {
    if Lookup(s.view, u.id).Some?
    then s.(view := StatusSet(s.view, u.id, DEAD, u.incarnation, now))
    else s
  }

  function Absorb(c: Config, s: State, kind: Byte, u: Update, now: nat): State {
    if kind == MSG_PING then AbsorbPing(c, s, u, now)
    else if kind == MSG_ACK then AbsorbAck(c, s, u, now)
    else if kind == MSG_SUSPECT then AbsorbSuspect(c, s, u, now)
    else if kind == MSG_ALIVE then AbsorbAlive(s, u, now)
    else if kind == MSG_DEAD then AbsorbDead(s, u, now)
    else s
  }

  function AbsorbAll(c: Config, s: State, kind: Byte, us: seq<Update>, now: nat): State {
    if |us| == 0 then s else Absorb(c, AbsorbAll(c, s, kind, us[..|us| - 1], now), kind, us[|us| - 1], now)
  }

  // ---------------------------------------------------------------------------
  // Messages: what else each handler does
  // ---------------------------------------------------------------------------

  /** An ACK from a suspected member clears the suspicion at the same incarnation. */
  function Revived(v: seq<Member>, sender: NodeId, now: nat): seq<Member> {
    match Lookup(v, sender)
    case None => v
    case Some(m) => if m.status == SUSPECT then StatusSet(v, sender, ALIVE, m.incarnation, now) else v
  }

  /** The first update that describes the sender itself. */
  function OwnUpdate(us: seq<Update>, sender: NodeId): (i: nat)
    ensures i <= |us|
    ensures i < |us| ==> us[i].id == sender
    ensures forall j | 0 <= j < i :: us[j].id != sender
  {
    if |us| == 0 || us[0].id == sender then 0 else 1 + OwnUpdate(us[1..], sender)
  }

  function Joined(c: Config, s: State, msg: Message, srcIp: seq<Byte>, now: nat): State {
    var i := OwnUpdate(msg.updates, msg.sender);
    if i < |msg.updates| then
      var u := msg.updates[i];
      s.(view := Added(s.view, c.capacity, MemberOf(u.(ip := srcIp), ALIVE, u.incarnation, 0), now),
         queue := Push(s.queue, u))
    else
      s
  }

  function Rejoining(v: seq<Member>, sender: NodeId): bool {
    match Lookup(v, sender)
    case None => false
    case Some(m) => m.status == DEAD || m.status == SUSPECT
  }

  /** The incarnation a worker joins with: one above the known one when it was DEAD or SUSPECT. */
  function JoinIncarnation(v: seq<Member>, msg: Message): nat
    requires |msg.updates| > 0
  {
    if Rejoining(v, msg.sender) then Lookup(v, msg.sender).value.incarnation + 1 else msg.updates[0].incarnation
  }

  function WorkerMember(v: seq<Member>, msg: Message, srcIp: seq<Byte>, now: nat): Member
    requires |msg.updates| > 0
  {
    MemberOf(msg.updates[0].(ip := srcIp, nodeType := NODE_TYPE_WORKER), ALIVE, JoinIncarnation(v, msg), now)
  }

  function JoinAnnouncement(m: Member, now: nat): Update {
    Update(m.id, NODE_TYPE_WORKER, m.ip, m.gossipPort, m.dataPort, ALIVE, m.incarnation, now)
  }

  /** The members of a view that pass a test on their id and status. */
  function Reachable(v: seq<Member>, except: set<NodeId>): seq<Member> {
    if |v| == 0 then []
    else
      var m := v[|v| - 1];
      Reachable(v[..|v| - 1], except) + if m.id in except || m.status == DEAD then [] else [m]
  }

  /** The routers a JOIN_RESPONSE lists: the first sixteen that are ALIVE. */
  function Routers(v: seq<Member>): (r: seq<Member>)
    ensures |r| <= MAX_CONFIG_ROUTERS
  {
    if |v| == 0 then []
    else
      var r, m := Routers(v[..|v| - 1]), v[|v| - 1];
      if m.nodeType == NODE_TYPE_ROUTER && m.status == ALIVE && |r| < MAX_CONFIG_ROUTERS then r + [m] else r
  }

  function WorkerJoined(c: Config, s: State, msg: Message, srcIp: seq<Byte>, now: nat): State {
    if c.myType != NODE_TYPE_ROUTER then s
    else if |msg.updates| == 0 then s.(sequenceNum := s.sequenceNum + 1)
    else
      var m := WorkerMember(s.view, msg, srcIp, now);
      var view := Added(s.view, c.capacity, m, now);
      s.(view := view,
         queue := PushTimes(s.queue, JoinAnnouncement(m, now), if Rejoining(s.view, msg.sender) then 10 else 5),
         sequenceNum := s.sequenceNum + |Reachable(view, {c.myId, m.id})| + 1)
  }

  /** dispatch_message, behind the listener's filter on the node's own messages. */
  function Received(c: Config, s: State, msg: Message, srcIp: seq<Byte>, now: nat): State {
    if msg.sender == c.myId then s
    else if msg.msgType == MSG_PING then
      var t := AbsorbAll(c, s, MSG_PING, msg.updates, now);
      t.(sequenceNum := t.sequenceNum + 1)
    else if msg.msgType == MSG_ACK then
      AbsorbAll(c,
                s.(pending := PingAnswered(s.pending, msg.sender), view := Revived(s.view, msg.sender, now)),
                MSG_ACK, msg.updates, now)
    else if msg.msgType in {MSG_SUSPECT, MSG_ALIVE, MSG_DEAD} then
      AbsorbAll(c, s, msg.msgType, msg.updates, now)
    else if msg.msgType == MSG_JOIN then Joined(c, s, msg, srcIp, now)
    else if msg.msgType == MSG_WORKER_JOIN then WorkerJoined(c, s, msg, srcIp, now)
    else if msg.msgType == MSG_LEAVE then s.(view := StatusSet(s.view, msg.sender, DEAD, msg.sequenceNum, now))
    else s
  }

  // ---------------------------------------------------------------------------
  // The protocol thread
  // ---------------------------------------------------------------------------

  function SuspicionOf(id: NodeId, incarnation: nat, now: nat): Update {
    Update(id, NODE_TYPE_UNKNOWN, [], 0, 0, SUSPECT, incarnation, now)
  }

  /** One slot of check_ack_timeouts. An unknown target counts as ALIVE at incarnation 0. */
  function AckSlotChecked(c: Config, s: State, i: nat, now: nat): State
    requires i < |s.pending|
  {
    var p := s.pending[i];
    if !p.active || Elapsed(now, p.sentAt) <= c.ackTimeout then s
    else
      var (status, incarnation) := match Lookup(s.view, p.target)
                                   case None => (ALIVE, 0)
                                   case Some(m) => (m.status, m.incarnation);
      var t := if status == ALIVE
               then s.(view := StatusSet(s.view, p.target, SUSPECT, incarnation, now),
                       queue := Push(s.queue, SuspicionOf(p.target, incarnation, now)))
               else s;
      t.(pending := s.pending[i := p.(active := false)])
  }

  function AckSlotsChecked(c: Config, s: State, n: nat, now: nat): (t: State)
    requires n <= |s.pending|
    ensures |t.pending| == |s.pending|
  {
    if n == 0 then s else AckSlotChecked(c, AckSlotsChecked(c, s, n - 1, now), n - 1, now)
  }

  function DeathOf(m: Member, now: nat): Update {
    Update(m.id, m.nodeType, Truncated(m.ip, MAX_IP_LEN), m.gossipPort, m.dataPort, DEAD, m.incarnation, now)
  }

  /** One slot of check_suspect_timeouts. */
  function SuspectSlotChecked(c: Config, s: State, i: nat, now: nat): (t: State)
    requires i < |s.view|
    ensures |t.view| == |s.view|
  {
    var m := s.view[i];
    if m.status == SUSPECT && Elapsed(now, m.lastSeen) > c.deadTimeout
    then s.(view := StatusSet(s.view, m.id, DEAD, m.incarnation, now), queue := Push(s.queue, DeathOf(m, now)))
    else s
  }

  function SuspectSlotsChecked(c: Config, s: State, n: nat, now: nat): (t: State)
    requires n <= |s.view|
    ensures |t.view| == |s.view|
  {
    if n == 0 then s else SuspectSlotChecked(c, SuspectSlotsChecked(c, s, n - 1, now), n - 1, now)
  }

  function UpdateOf(m: Member, now: nat): Update {
    Update(m.id, m.nodeType, Truncated(m.ip, MAX_IP_LEN), m.gossipPort, m.dataPort, m.status, m.incarnation, now)
  }

  /** The anti-entropy piggyback: the first `limit` slots without the dead and without this node. */
  function Piggyback(c: Config, v: seq<Member>, limit: nat, now: nat): (us: seq<Update>)
    ensures |us| <= limit
  {
    var scanned := if |v| < limit then |v| else limit;
    var ms := Reachable(v[..scanned], {c.myId});
    ReachableSize(v[..scanned], {c.myId});
    seq(|ms|, i requires 0 <= i < |ms| => UpdateOf(ms[i], now))
  }

  lemma {:induction false} ReachableSize(v: seq<Member>, except: set<NodeId>)
    ensures |Reachable(v, except)| <= |v|
    ensures forall m | m in Reachable(v, except) :: m in v && m.id !in except && m.status != DEAD
  {
    if |v| > 0 {
      ReachableSize(v[..|v| - 1], except);
    }
  }

  lemma {:induction false} ReachableDistinct(v: seq<Member>, except: set<NodeId>)
    requires DistinctIds(v)
    ensures DistinctIds(Reachable(v, except))
  {
    if |v| > 0 {
      ReachableDistinct(v[..|v| - 1], except);
      ReachableSize(v[..|v| - 1], except);
    }
  }

  function GossipMessage(c: Config, s: State, i: nat, now: nat): Message {
    Message(1, MSG_ALIVE, 0, c.myId, s.sequenceNum + i, Piggyback(c, s.view, c.maxPiggyback, now))
  }

  function PingMessage(c: Config, s: State, now: nat): Message {
    var n := if |s.queue| < c.maxPiggyback then |s.queue| else c.maxPiggyback;
    Message(1, MSG_PING, 0, c.myId, s.sequenceNum,
            if n > 0 then s.queue[..n] else Piggyback(c, s.view, GOSSIP_MAX_PIGGYBACK_UPDATES, now))
  }

  /** send_ping_to_node; `sent` is whether the datagram left the node. */
  function Pinged(c: Config, s: State, target: NodeId, sent: bool, now: nat): State {
    if Lookup(s.view, target).None? then s
    else
      var n := if |s.queue| < c.maxPiggyback then |s.queue| else c.maxPiggyback;
      s.(queue := s.queue[n..],
         sequenceNum := s.sequenceNum + 1,
         pending := if sent then PingRecorded(s.pending, target, now) else s.pending)
  }

  function Targets(c: Config, v: seq<Member>): (n: nat)
  {
    var peers := |Reachable(v, {c.myId})|;
    var listed := if peers < MAX_CLUSTER_NODES then peers else MAX_CLUSTER_NODES;
    if listed < c.fanout then listed else c.fanout
  }

  function SelfRefreshed(c: Config, s: State, now: nat): State {
    s.(view := Refreshed(s.view, c.myId, s.incarnation, now))
  }

  function JoinAnnounced(c: Config, s: State, now: nat): State {
    var u := AliveUpdate(c, s.incarnation, now);
    s.(view := Added(s.view, c.capacity, MemberOf(u, ALIVE, s.incarnation, now), now),
       queue := PushTimes(s.queue, u, 5))
  }

  datatype Step =
    | Receive(msg: Message, srcIp: seq<Byte>, now: nat)
    | SendPing(target: NodeId, sent: bool, now: nat)
    | AckTimeouts(now: nat)
    | SuspectTimeouts(now: nat)
    | GossipRound(now: nat)
    | RefreshSelf(now: nat)
    | AnnounceJoin(now: nat)

  function Next(c: Config, s: State, step: Step): State {
    match step
    case Receive(msg, srcIp, now) => Received(c, s, msg, srcIp, now)
    case SendPing(target, sent, now) => Pinged(c, s, target, sent, now)
    case AckTimeouts(now) => AckSlotsChecked(c, s, |s.pending|, now)
    case SuspectTimeouts(now) => SuspectSlotsChecked(c, s, |s.view|, now)
    case GossipRound(now) => s.(sequenceNum := s.sequenceNum + Targets(c, s.view))
    case RefreshSelf(now) => SelfRefreshed(c, s, now)
    case AnnounceJoin(now) => JoinAnnounced(c, s, now)
  }

  // ---------------------------------------------------------------------------
  // Runs
  // ---------------------------------------------------------------------------

  /** What a peer that runs this program sends: named statuses and at most ten updates. */
  ghost predicate WellFormed(msg: Message) {
    && |msg.updates| <= GOSSIP_MAX_PIGGYBACK_UPDATES
    && forall i | 0 <= i < |msg.updates| :: msg.updates[i].status <= DEAD
  }

  ghost predicate Sound(c: Config, v: seq<Member>) {
    && DistinctIds(v)
    && |v| <= c.capacity
    && forall i | 0 <= i < |v| :: v[i].status <= DEAD
  }

  ghost predicate Initial(c: Config, s: State) {
    && Sound(c, s.view)
    && (forall i | 0 <= i < |s.pending| :: !s.pending[i].active)
  }

  /** A run: consecutive states linked by steps at non-decreasing 64-bit clock readings. */
  ghost predicate Run(c: Config, states: seq<State>, steps: seq<Step>) {
    && |states| == |steps| + 1
    && Initial(c, states[0])
    && (forall k | 0 <= k < |steps| :: states[k + 1] == Next(c, states[k], steps[k]))
    && (forall k | 0 <= k < |steps| :: steps[k].now < TWO_TO_THE_64)
    && (forall j, k | 0 <= j <= k < |steps| :: steps[j].now <= steps[k].now)
    && (forall k | 0 <= k < |steps| :: steps[k].Receive? ==> WellFormed(steps[k].msg))
    && (forall i, k | 0 <= i < |states[0].view| && 0 <= k < |steps| :: states[0].view[i].lastSeen <= steps[k].now)
  }
}
