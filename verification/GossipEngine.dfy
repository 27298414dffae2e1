// The gossip engine: the handlers and timers as methods over the shared member
// table, the update queue and the table of unanswered pings. Each method is tied
// to the step of the state machine it implements, and takes and gives back every
// lock in rank order.

module GossipEngine {
  import opened Bytes
  import opened Locks
  import opened Common
  import opened Membership
  import opened Nodes
  import opened Gossip
  import opened Ring

  class Engine {
    const config: Config
    const view: ClusterView
    const queue: RingBuffer<Update>
    const pending: array<PendingAck>
    const locks: LockTable
    var incarnation: nat
    var sequenceNum: nat

    ghost predicate Valid()
      reads this, view, queue
    {
      && view.Valid() && view.locks == locks && view.members.Length == config.capacity
      && queue.Valid() && queue.data.Length == MAX_UPDATE_QUEUE
      && pending.Length == MAX_PENDING_ACKS
      && config.maxPiggyback <= GOSSIP_MAX_PIGGYBACK_UPDATES
    }

    ghost function Repr(): set<object> {
      {this, view, view.members, queue, queue.data, pending, locks}
    }

    ghost function State(): State
      requires Valid()
      reads this, view, view.members, queue, queue.data, pending
    {
      Gossip.State(view.Contents(), pending[..], queue.Contents(), incarnation, sequenceNum)
    }

    constructor (config: Config, view: ClusterView)
      requires view.Valid() && view.members.Length == config.capacity
      requires config.maxPiggyback <= GOSSIP_MAX_PIGGYBACK_UPDATES
      ensures Valid() && this.config == config && this.view == view && locks == view.locks
      ensures fresh(Repr() - {view, view.members, locks})
      ensures State().view == view.Contents() && State().queue == [] && State().incarnation == 0
                && State().sequenceNum == 0
      ensures forall i | 0 <= i < pending.Length :: !pending[i].active
    {
      this.config := config;
      this.view := view;
      this.locks := view.locks;
      queue := new RingBuffer(MAX_UPDATE_QUEUE);
      pending := new PendingAck[MAX_PENDING_ACKS](_ => PendingAck(0, 0, false));
      incarnation, sequenceNum := 0, 0;
    }

    // -------------------------------------------------------------------------
    // Queue and pending table
    // -------------------------------------------------------------------------

    method QueueUpdate(u: Update)
      requires Valid() && locks.MayTake(QueueLock)
      modifies queue, queue.data, locks
      ensures Valid() && locks.held == old(locks.held)
      ensures State() == old(State()).(queue := Push(old(State().queue), u))
    {
      locks.Acquire(QueueLock);
      var ok := queue.TryPush(u);
      locks.Release(QueueLock);
    }

    method QueueRepeatedly(u: Update, n: nat)
      requires Valid() && locks.MayTake(QueueLock)
      modifies queue, queue.data, locks
      ensures Valid() && locks.held == old(locks.held)
      ensures State() == old(State()).(queue := PushTimes(old(State().queue), u, n))
    {
      for j := 0 to n
        invariant Valid() && locks.held == old(locks.held)
        invariant State() == old(State()).(queue := PushTimes(old(State().queue), u, j))
      {
        QueueUpdate(u);
      }
    }

    method AddPendingAck(target: NodeId, now: nat)
      requires Valid() && locks.MayTake(PendingAcksLock)
      modifies pending, locks
      ensures Valid() && locks.held == old(locks.held)
      ensures State() == old(State()).(pending := PingRecorded(old(State().pending), target, now))
    {
      locks.Acquire(PendingAcksLock);
      for i := 0 to MAX_PENDING_ACKS
        invariant forall j | 0 <= j < i :: pending[j].active
      {
        if !pending[i].active {
          assert FirstIdle(pending[..]) == i;
          pending[i] := PendingAck(target, now, true);
          locks.Release(PendingAcksLock);
          return;
        }
      }
      locks.Release(PendingAcksLock);
    }

    method RemovePendingAck(target: NodeId)
      requires Valid() && locks.MayTake(PendingAcksLock)
      modifies pending, locks
      ensures Valid() && locks.held == old(locks.held)
      ensures State() == old(State()).(pending := PingAnswered(old(State().pending), target))
    {
      locks.Acquire(PendingAcksLock);
      for i := 0 to MAX_PENDING_ACKS
        invariant forall j | 0 <= j < i :: !(pending[j].active && pending[j].target == target)
      {
        if pending[i].active && pending[i].target == target {
          assert FirstAwaiting(pending[..], target) == i;
          pending[i] := pending[i].(active := false);
          locks.Release(PendingAcksLock);
          return;
        }
      }
      locks.Release(PendingAcksLock);
    }

    // -------------------------------------------------------------------------
    // Message handlers
    // -------------------------------------------------------------------------

    /** Returns the ACK that answers the ping. */
    method HandlePing(msg: Message, srcIp: seq<Byte>, now: nat) returns (ack: Message)
      requires Valid() && locks.held == {} && msg.msgType == MSG_PING && msg.sender != config.myId
      modifies Repr()
      ensures Valid() && locks.held == {}
      ensures State() == Received(config, old(State()), msg, srcIp, now)
      ensures ack == Message(1, MSG_ACK, 0, config.myId, State().sequenceNum - 1,
                             Piggyback(config, State().view, GOSSIP_MAX_PIGGYBACK_UPDATES, now))
    {
      hide AbsorbPing, Piggyback, Joined, WorkerJoined;
      for i := 0 to |msg.updates|
        invariant Valid() && locks.held == {}
        invariant State() == AbsorbAll(config, old(State()), MSG_PING, msg.updates[..i], now)
      {
        assert msg.updates[..i + 1][..i] == msg.updates[..i];
        AbsorbPingUpdate(msg.updates[i], now);
      }
      assert msg.updates[..|msg.updates|] == msg.updates;
      var n := sequenceNum;
      sequenceNum := sequenceNum + 1;
      var us := CollectUpdates(GOSSIP_MAX_PIGGYBACK_UPDATES, now);
      ack := Message(1, MSG_ACK, 0, config.myId, n, us);
    }

    method AbsorbPingUpdate(u: Update, now: nat)
      requires Valid() && locks.held == {}
      modifies Repr()
      ensures Valid() && locks.held == {}
      ensures State() == AbsorbPing(config, old(State()), u, now)
    {
      var found, slot := view.Get(u.id);
      if !found {
        var code := view.Add(MemberOf(u, u.status, u.incarnation, now), now);
        QueueUpdate(u.(timestamp := now));
      } else {
        var existing := view.members[slot];
        if existing.status == DEAD && u.status == ALIVE {
          if u.incarnation > existing.incarnation {
            view.Release();
            var code := view.Add(MemberOf(u, ALIVE, u.incarnation, now), now);
            return;
          }
        }
        var shouldUpdate := u.incarnation > existing.incarnation;
        view.Release();
        if shouldUpdate {
          var code := view.UpdateStatus(u.id, u.status, u.incarnation, now);
        }
      }
    }

    method HandleAck(msg: Message, srcIp: seq<Byte>, now: nat)
      requires Valid() && locks.held == {} && msg.msgType == MSG_ACK && msg.sender != config.myId
      modifies Repr()
      ensures Valid() && locks.held == {}
      ensures State() == Received(config, old(State()), msg, srcIp, now)
    {
      RemovePendingAck(msg.sender);
      ClearSuspicion(msg.sender, now);
      ghost var revived := State();
      for i := 0 to |msg.updates|
        invariant Valid() && locks.held == {}
        invariant State() == AbsorbAll(config, revived, MSG_ACK, msg.updates[..i], now)
      {
        assert msg.updates[..i + 1][..i] == msg.updates[..i];
        AbsorbAckUpdate(msg.updates[i], now);
      }
      assert msg.updates[..|msg.updates|] == msg.updates;
    }

    method ClearSuspicion(sender: NodeId, now: nat)
      requires Valid() && locks.held == {}
      modifies view.members, locks
      ensures Valid() && locks.held == {}
      ensures State() == old(State()).(view := Revived(old(State().view), sender, now))
    {
      var found, slot := view.Get(sender);
      var wasSuspect := false;
      if found {
        wasSuspect := view.members[slot].status == SUSPECT;
        view.Release();
      }
      if wasSuspect {
        var code := view.UpdateStatus(sender, ALIVE, view.members[slot].incarnation, now);
      }
    }

    method AbsorbAckUpdate(u: Update, now: nat)
      requires Valid() && locks.held == {}
      modifies Repr()
      ensures Valid() && locks.held == {}
      ensures State() == AbsorbAck(config, old(State()), u, now)
    {
      var found, slot := view.Get(u.id);
      if !found {
        var code := view.Add(MemberOf(u, u.status, u.incarnation, now), now);
      } else {
        var shouldUpdate := u.incarnation > view.members[slot].incarnation;
        view.Release();
        if shouldUpdate {
          var code := view.UpdateStatus(u.id, u.status, u.incarnation, now);
        }
      }
    }

    method HandleSuspect(msg: Message, srcIp: seq<Byte>, now: nat)
      requires Valid() && locks.held == {} && msg.msgType == MSG_SUSPECT && msg.sender != config.myId
      modifies Repr()
      ensures Valid() && locks.held == {}
      ensures State() == Received(config, old(State()), msg, srcIp, now)
    {
      for i := 0 to |msg.updates|
        invariant Valid() && locks.held == {}
        invariant State() == AbsorbAll(config, old(State()), MSG_SUSPECT, msg.updates[..i], now)
      {
        assert msg.updates[..i + 1][..i] == msg.updates[..i];
        AbsorbSuspectUpdate(msg.updates[i], now);
      }
      assert msg.updates[..|msg.updates|] == msg.updates;
    }

    method AbsorbSuspectUpdate(u: Update, now: nat)
      requires Valid() && locks.held == {}
      modifies Repr()
      ensures Valid() && locks.held == {}
      ensures State() == AbsorbSuspect(config, old(State()), u, now)
    {
      hide StatusSet, PushTimes, Push, AliveUpdate;
      if u.id == config.myId && u.status == SUSPECT {
        incarnation := incarnation + 1;
        QueueRepeatedly(AliveUpdate(config, incarnation, now), 3);
      } else if u.id != config.myId && u.status == SUSPECT {
        var found, slot := view.Get(u.id);
        var shouldSuspect := false;
        if found {
          shouldSuspect := u.incarnation >= view.members[slot].incarnation && view.members[slot].status == ALIVE;
          view.Release();
        }
        if shouldSuspect {
          var code := view.UpdateStatus(u.id, SUSPECT, u.incarnation, now);
          QueueUpdate(u);
        }
      }
    }

    method HandleAlive(msg: Message, srcIp: seq<Byte>, now: nat)
      requires Valid() && locks.held == {} && msg.msgType == MSG_ALIVE && msg.sender != config.myId
      modifies Repr()
      ensures Valid() && locks.held == {}
      ensures State() == Received(config, old(State()), msg, srcIp, now)
    {
      for i := 0 to |msg.updates|
        invariant Valid() && locks.held == {}
        invariant State() == AbsorbAll(config, old(State()), MSG_ALIVE, msg.updates[..i], now)
      {
        assert msg.updates[..i + 1][..i] == msg.updates[..i];
        AbsorbAliveUpdate(msg.updates[i], now);
      }
      assert msg.updates[..|msg.updates|] == msg.updates;
    }

    method AbsorbAliveUpdate(u: Update, now: nat)
      requires Valid() && locks.held == {}
      modifies Repr()
      ensures Valid() && locks.held == {}
      ensures State() == AbsorbAlive(old(State()), u, now)
    {
      var found, slot := view.Get(u.id);
      var shouldUpdate := false;
      if found {
        shouldUpdate := u.incarnation > view.members[slot].incarnation;
        view.Release();
      }
      if shouldUpdate {
        var code := view.UpdateStatus(u.id, ALIVE, u.incarnation, now);
        QueueUpdate(u);
      }
    }

    method HandleDead(msg: Message, srcIp: seq<Byte>, now: nat)
      requires Valid() && locks.held == {} && msg.msgType == MSG_DEAD && msg.sender != config.myId
      modifies Repr()
      ensures Valid() && locks.held == {}
      ensures State() == Received(config, old(State()), msg, srcIp, now)
    {
      for i := 0 to |msg.updates|
        invariant Valid() && locks.held == {}
        invariant State() == AbsorbAll(config, old(State()), MSG_DEAD, msg.updates[..i], now)
      {
        assert msg.updates[..i + 1][..i] == msg.updates[..i];
        AbsorbDeadUpdate(msg.updates[i], now);
      }
      assert msg.updates[..|msg.updates|] == msg.updates;
    }

    method AbsorbDeadUpdate(u: Update, now: nat)
      requires Valid() && locks.held == {}
      modifies Repr()
      ensures Valid() && locks.held == {}
      ensures State() == AbsorbDead(old(State()), u, now)
    {
      var found, slot := view.Get(u.id);
      if found {
        view.Release();
        var code := view.UpdateStatus(u.id, DEAD, u.incarnation, now);
      }
    }

    method HandleJoin(msg: Message, srcIp: seq<Byte>, now: nat)
      requires Valid() && locks.held == {} && msg.msgType == MSG_JOIN && msg.sender != config.myId
      modifies Repr()
      ensures Valid() && locks.held == {}
      ensures State() == Received(config, old(State()), msg, srcIp, now)
    {
      hide Added, Push, MemberOf, AbsorbAll, WorkerJoined;
      for i := 0 to |msg.updates|
        invariant Valid() && locks.held == {} && State() == old(State())
        invariant forall j | 0 <= j < i :: msg.updates[j].id != msg.sender
      {
        var u := msg.updates[i];
        if u.id == msg.sender {
          assert OwnUpdate(msg.updates, msg.sender) == i;
          var code := view.Add(MemberOf(u.(ip := srcIp), ALIVE, u.incarnation, 0), now);
          QueueUpdate(u);
          break;
        }
      }
    }

    /** Returns the members that receive the join at once, and the routers for the JOIN_RESPONSE. */
    method HandleWorkerJoin(msg: Message, srcIp: seq<Byte>, now: nat) returns (burst: seq<Member>, routers: seq<Member>)
      requires Valid() && locks.held == {} && msg.msgType == MSG_WORKER_JOIN && msg.sender != config.myId
      modifies Repr()
      ensures Valid() && locks.held == {}
      ensures State() == Received(config, old(State()), msg, srcIp, now)
      ensures burst == if config.myType == NODE_TYPE_ROUTER && |msg.updates| > 0
                       then Reachable(State().view, {config.myId, msg.updates[0].id}) else []
      ensures routers == if config.myType == NODE_TYPE_ROUTER then Routers(State().view) else []
    {
      hide Reachable, Routers, JoinAnnouncement, PushTimes, Added, AbsorbAll, Joined, Rejoining;
      burst, routers := [], [];
      if config.myType != NODE_TYPE_ROUTER {
        return;
      }
      if |msg.updates| > 0 {
        burst := AdmitWorker(msg, srcIp, now);
      }
      routers := ListRouters();
      sequenceNum := sequenceNum + 1;
    }

    method AdmitWorker(msg: Message, srcIp: seq<Byte>, now: nat) returns (burst: seq<Member>)
      requires Valid() && locks.held == {} && |msg.updates| > 0
      modifies Repr()
      ensures Valid() && locks.held == {}
      ensures var m := WorkerMember(old(State().view), msg, srcIp, now);
              var v := Added(old(State().view), config.capacity, m, now);
              && burst == Reachable(v, {config.myId, m.id})
              && State() == old(State()).(
                   view := v,
                   queue := PushTimes(old(State().queue), JoinAnnouncement(m, now),
                                      if Rejoining(old(State().view), msg.sender) then 10 else 5),
                   sequenceNum := old(sequenceNum) + |burst|)
    {
      var isRejoin, newIncarnation := CheckRejoin(msg.sender);
      var u := msg.updates[0];
      var m := MemberOf(u.(ip := srcIp, nodeType := NODE_TYPE_WORKER), ALIVE,
                        if isRejoin then newIncarnation else u.incarnation, now);
      assert m == WorkerMember(old(State().view), msg, srcIp, now);
      var code := view.Add(m, now);
      QueueRepeatedly(JoinAnnouncement(m, now), if isRejoin then 10 else 5);
      burst := AnnounceAtOnce({config.myId, u.id});
    }

    method CheckRejoin(sender: NodeId) returns (isRejoin: bool, newIncarnation: nat)
      requires Valid() && locks.held == {}
      modifies locks
      ensures locks.held == {}
      ensures isRejoin <==> Rejoining(State().view, sender)
      ensures isRejoin ==> newIncarnation == Lookup(State().view, sender).value.incarnation + 1
    {
      var found, slot := view.Get(sender);
      isRejoin, newIncarnation := false, 0;
      if found {
        var existing := view.members[slot];
        isRejoin := existing.status == DEAD || existing.status == SUSPECT;
        newIncarnation := existing.incarnation + 1;
        view.Release();
      }
    }

    /** One ALIVE message, with its own sequence number, to every reachable member. */
    method AnnounceAtOnce(except: set<NodeId>) returns (burst: seq<Member>)
      requires Valid() && locks.held == {}
      modifies this`sequenceNum, locks
      ensures Valid() && locks.held == {}
      ensures burst == Reachable(State().view, except)
      ensures State() == old(State()).(sequenceNum := old(sequenceNum) + |burst|)
    {
      locks.Acquire(ViewLock);
      burst := [];
      for i := 0 to view.count
        invariant Valid() && locks.held == {ViewLock}
        invariant burst == Reachable(view.Contents()[..i], except)
        invariant sequenceNum == old(sequenceNum) + |burst|
      {
        var peer := view.members[i];
        assert view.Contents()[..i + 1][..i] == view.Contents()[..i];
        if peer.id in except || peer.status == DEAD {
          continue;
        }
        sequenceNum := sequenceNum + 1;
        burst := burst + [peer];
      }
      assert view.Contents()[..view.count] == view.Contents();
      locks.Release(ViewLock);
    }

    method ListRouters() returns (routers: seq<Member>)
      requires Valid() && locks.held == {}
      modifies locks
      ensures locks.held == {} && routers == Routers(State().view)
    {
      locks.Acquire(ViewLock);
      routers := [];
      for i := 0 to view.count
        invariant routers == Routers(view.Contents()[..i])
      {
        var m := view.members[i];
        assert view.Contents()[..i + 1][..i] == view.Contents()[..i];
        if m.nodeType == NODE_TYPE_ROUTER && m.status == ALIVE && |routers| < MAX_CONFIG_ROUTERS {
          routers := routers + [m];
        }
      }
      assert view.Contents()[..view.count] == view.Contents();
      locks.Release(ViewLock);
    }

    /** dispatch_message, behind the listener's filter on the node's own messages. */
    method Dispatch(msg: Message, srcIp: seq<Byte>, now: nat)
      requires Valid() && locks.held == {}
      modifies Repr()
      ensures Valid() && locks.held == {}
      ensures State() == Received(config, old(State()), msg, srcIp, now)
    {
      if msg.sender == config.myId {
        return;
      }
      if msg.msgType == MSG_PING {
        var ack := HandlePing(msg, srcIp, now);
      } else if msg.msgType == MSG_ACK {
        HandleAck(msg, srcIp, now);
      } else if msg.msgType == MSG_SUSPECT {
        HandleSuspect(msg, srcIp, now);
      } else if msg.msgType == MSG_ALIVE {
        HandleAlive(msg, srcIp, now);
      } else if msg.msgType == MSG_DEAD {
        HandleDead(msg, srcIp, now);
      } else if msg.msgType == MSG_JOIN {
        HandleJoin(msg, srcIp, now);
      } else if msg.msgType == MSG_WORKER_JOIN {
        var burst, routers := HandleWorkerJoin(msg, srcIp, now);
      } else if msg.msgType == MSG_LEAVE {
        var code := view.UpdateStatus(msg.sender, DEAD, msg.sequenceNum, now);
      }
    }

    // -------------------------------------------------------------------------
    // The protocol thread
    // -------------------------------------------------------------------------

    /** The anti-entropy scan shared by the three senders. */
    method CollectUpdates(limit: nat, now: nat) returns (us: seq<Update>)
      requires Valid() && locks.held == {}
      modifies locks
      ensures locks.held == {}
      ensures us == Piggyback(config, State().view, limit, now)
    {
      locks.Acquire(ViewLock);
      var maxUpdates := if view.count < limit then view.count else limit;
      us := [];
      ghost var ms := [];
      for j := 0 to maxUpdates
        invariant ms == Reachable(view.Contents()[..j], {config.myId})
        invariant |us| == |ms| <= j
        invariant forall k | 0 <= k < |us| :: us[k] == UpdateOf(ms[k], now)
      {
        var m := view.members[j];
        assert view.Contents()[..j + 1][..j] == view.Contents()[..j];
        if m.status == DEAD || m.id == config.myId {
          continue;
        }
        us := us + [UpdateOf(m, now)];
        ms := ms + [m];
      }
      locks.Release(ViewLock);
    }

    method TakeUpdates(max: nat) returns (us: seq<Update>)
      requires Valid() && locks.held == {}
      modifies queue, locks
      ensures Valid() && locks.held == {}
      ensures |us| == if |old(State().queue)| < max then |old(State().queue)| else max
      ensures us == old(State().queue)[..|us|]
      ensures State() == old(State()).(queue := old(State().queue)[|us|..])
    {
      locks.Acquire(QueueLock);
      us := queue.PopBatch(max);
      locks.Release(QueueLock);
    }

    /** Builds and sends a ping; `delivers` is whether the datagram leaves the node. */
    method SendPing(target: NodeId, delivers: bool, now: nat) returns (ok: bool, ping: Option<Message>)
      requires Valid() && locks.held == {}
      modifies Repr()
      ensures Valid() && locks.held == {}
      ensures State() == Pinged(config, old(State()), target, delivers, now)
      ensures ping == if Lookup(old(State().view), target).Some? then
                Some(PingMessage(config, old(State()), now)) else None
      ensures ok <==> ping.Some? && delivers
    {
      hide Piggyback, PingRecorded;
      var found, slot := view.Get(target);
      if !found {
        return false, None;
      }
      view.Release();
      var n := sequenceNum;
      sequenceNum := sequenceNum + 1;
      var us := TakeUpdates(config.maxPiggyback);
      if |us| == 0 {
        us := CollectUpdates(GOSSIP_MAX_PIGGYBACK_UPDATES, now);
      }
      ping := Some(Message(1, MSG_PING, 0, config.myId, n, us));
      if !delivers {
        return false, ping;
      }
      AddPendingAck(target, now);
      ok := true;
    }

    method CheckAckTimeouts(now: nat)
      requires Valid() && locks.held == {}
      modifies Repr()
      ensures Valid() && locks.held == {}
      ensures State() == Next(config, old(State()), AckTimeouts(now))
    {
      locks.Acquire(PendingAcksLock);
      for i := 0 to MAX_PENDING_ACKS
        invariant Valid() && locks.held == {PendingAcksLock}
        invariant State() == AckSlotsChecked(config, old(State()), i, now)
      {
        CheckAckSlot(i, now);
      }
      locks.Release(PendingAcksLock);
    }

    method CheckAckSlot(i: nat, now: nat)
      requires Valid() && locks.held == {PendingAcksLock} && i < MAX_PENDING_ACKS
      modifies Repr()
      ensures Valid() && locks.held == {PendingAcksLock}
      ensures State() == AckSlotChecked(config, old(State()), i, now)
    {
      if !pending[i].active {
        return;
      }
      if Elapsed(now, pending[i].sentAt) > config.ackTimeout {
        var node := pending[i].target;
        var found, slot := view.Get(node);
        var oldStatus, known := ALIVE, 0;
        if found {
          oldStatus := view.members[slot].status;
          known := view.members[slot].incarnation;
          view.Release();
        }
        if oldStatus == ALIVE {
          var code := view.UpdateStatus(node, SUSPECT, known, now);
          QueueUpdate(SuspicionOf(node, known, now));
        }
        pending[i] := pending[i].(active := false);
      }
    }

    method CheckSuspectTimeouts(now: nat)
      requires Valid() && locks.held == {}
      modifies Repr()
      ensures Valid() && locks.held == {}
      ensures State() == Next(config, old(State()), SuspectTimeouts(now))
    {
      locks.Acquire(ViewLock);
      var i := 0;
      while i < view.count
        invariant Valid() && locks.held == {ViewLock} && view.count == old(view.count)
        invariant i <= view.count
        invariant State() == SuspectSlotsChecked(config, old(State()), i, now)
      {
        CheckSuspectSlot(i, now);
        i := i + 1;
      }
      locks.Release(ViewLock);
    }

    /** Gives the read lock up while it declares the member dead, and takes it again. */
    method CheckSuspectSlot(i: nat, now: nat)
      requires Valid() && locks.held == {ViewLock} && i < view.count
      modifies Repr()
      ensures Valid() && locks.held == {ViewLock} && view.count == old(view.count)
      ensures State() == SuspectSlotChecked(config, old(State()), i, now)
    {
      var m := view.members[i];
      if m.status != SUSPECT {
        return;
      }
      if Elapsed(now, m.lastSeen) > config.deadTimeout {
        locks.Release(ViewLock);
        var code := view.UpdateStatus(m.id, DEAD, m.incarnation, now);
        QueueUpdate(DeathOf(m, now));
        locks.Acquire(ViewLock);
      }
    }

    /** The self entry is overwritten in place, through the pointer the lookup returned. */
    method RefreshSelf(now: nat)
      requires Valid() && locks.held == {}
      modifies Repr()
      ensures Valid() && locks.held == {}
      ensures State() == SelfRefreshed(config, old(State()), now)
    {
      var found, slot := view.Get(config.myId);
      if found {
        view.members[slot] := view.members[slot].(lastSeen := now);
        view.members[slot] := view.members[slot].(incarnation := incarnation);
        view.members[slot] := view.members[slot].(status := ALIVE);
        view.Release();
      }
    }

    method AnnounceJoin(now: nat)
      requires Valid() && locks.held == {}
      modifies Repr()
      ensures Valid() && locks.held == {}
      ensures State() == JoinAnnounced(config, old(State()), now)
    {
      var u := AliveUpdate(config, incarnation, now);
      var code := view.Add(MemberOf(u, ALIVE, incarnation, now), now);
      QueueRepeatedly(u, 5);
    }

    /** The ids of the reachable peers, in table order, at most 512 of them. */
    method ListPeers() returns (peers: array<NodeId>, n: nat)
      requires Valid() && locks.held == {}
      modifies locks
      ensures locks.held == {} && fresh(peers) && n <= peers.Length
      ensures var ms := Reachable(State().view, {config.myId});
              && n == (if |ms| < MAX_CLUSTER_NODES then |ms| else MAX_CLUSTER_NODES)
              && forall k | 0 <= k < n :: peers[k] == ms[k].id
    {
      peers := new NodeId[MAX_CLUSTER_NODES];
      n := 0;
      locks.Acquire(ViewLock);
      ghost var ms := [];
      for i := 0 to view.count
        invariant locks.held == {ViewLock}
        invariant ms == Reachable(view.Contents()[..i], {config.myId})
        invariant n == if |ms| < MAX_CLUSTER_NODES then |ms| else MAX_CLUSTER_NODES
        invariant forall k | 0 <= k < n :: peers[k] == ms[k].id
      {
        var m := view.members[i];
        assert view.Contents()[..i + 1][..i] == view.Contents()[..i];
        if m.id == config.myId || m.status == DEAD {
          continue;
        }
        if n < MAX_CLUSTER_NODES {
          peers[n] := m.id;
          n := n + 1;
        }
        ms := ms + [m];
      }
      assert view.Contents()[..view.count] == view.Contents();
      locks.Release(ViewLock);
    }

    /** One exchange of the Fisher-Yates shuffle: slot i receives a peer from slots i..n. */
    method DrawPeer(peers: array<NodeId>, i: nat, n: nat, random: nat, ghost ids: set<NodeId>)
      requires i < n <= peers.Length && Drawable(peers[..n], ids)
      modifies peers
      ensures Drawable(peers[..n], ids)
      ensures peers[..i] == old(peers[..i])
    {
      var j := i + random % (n - i);
      SwapDrawable(peers[..n], i, j, ids);
      peers[i], peers[j] := peers[j], peers[i];
      assert peers[..n] == old(peers[..n])[i := old(peers[j])][j := old(peers[i])];
    }

    /** Draws one peer and sends it a generic gossip message, if it is still in the view. */
    method GossipOnce(peers: array<NodeId>, i: nat, n: nat, random: nat, now: nat) returns (ok: bool, m: Message)
      requires Valid() && locks.held == {}
      requires i < n <= peers.Length && Drawable(peers[..n], Ids(Reachable(view.Contents(), {config.myId})))
      modifies peers, this`sequenceNum, locks
      ensures Valid() && locks.held == {} && ok
      ensures Drawable(peers[..n], Ids(Reachable(view.Contents(), {config.myId})))
      ensures peers[..i] == old(peers[..i])
      ensures sequenceNum == old(sequenceNum) + 1
      ensures m == Message(1, MSG_ALIVE, 0, config.myId, old(sequenceNum),
                           Piggyback(config, view.Contents(), config.maxPiggyback, now))
    {
      ghost var ids := Ids(Reachable(view.Contents(), {config.myId}));
      DrawPeer(peers, i, n, random, ids);
      assert peers[..n][i] == peers[i];
      DrawableKnown(peers[i], view.Contents(), {config.myId});
      var found, slot := view.Get(peers[i]);
      view.Release();
      var number := sequenceNum;
      sequenceNum := sequenceNum + 1;
      var us := CollectUpdates(config.maxPiggyback, now);
      m := Message(1, MSG_ALIVE, 0, config.myId, number, us);
      ok := found;
    }

    /** One anti-entropy message to each of `fanout` peers drawn by a partial Fisher-Yates shuffle:
        no peer is drawn twice, whatever the random numbers are. */
    method GossipToRandomPeers(random: nat -> nat, now: nat) returns (targets: seq<NodeId>, sent: seq<Message>)
      requires Valid() && locks.held == {} && DistinctIds(State().view)
      modifies this`sequenceNum, locks
      ensures Valid() && locks.held == {}
      ensures State() == Next(config, old(State()), GossipRound(now))
      ensures |targets| == |sent| == Targets(config, State().view)
      ensures Drawable(targets, Ids(Reachable(State().view, {config.myId})))
      ensures forall i | 0 <= i < |sent| :: sent[i] == GossipMessage(config, old(State()), i, now)
    {
      hide Reachable, Piggyback, Drawable, Ids, DistinctIds;
      targets, sent := [], [];
      var peers, n := ListPeers();
      ghost var ids := Ids(Reachable(view.Contents(), {config.myId}));
      ListedDrawable(peers[..n], Reachable(view.Contents(), {config.myId}), view.Contents(), {config.myId});
      if n == 0 {
        PrefixDrawable(peers[..n], 0, ids);
        return;
      }
      var fanout := if n < config.fanout then n else config.fanout;
      for i := 0 to fanout
        invariant Valid() && locks.held == {} && fresh(peers)
        invariant sequenceNum == old(sequenceNum) + i
        invariant |sent| == i && targets == peers[..i]
        invariant Drawable(peers[..n], ids)
        invariant forall k | 0 <= k < i :: sent[k] == GossipMessage(config, old(State()), k, now)
      {
        var ok, m := GossipOnce(peers, i, n, random(i), now);
        targets := targets + [peers[i]];
        sent := sent + [m];
      }
      PrefixDrawable(peers[..n], fanout, ids);
      assert targets == peers[..n][..fanout];
    }
  }

  /** Distinct ids, all from this set. */
  ghost predicate Drawable(peers: seq<NodeId>, ids: set<NodeId>) {
    && (forall k, l | 0 <= k < l < |peers| :: peers[k] != peers[l])
    && (forall k | 0 <= k < |peers| :: peers[k] in ids)
  }

  lemma PrefixDrawable(peers: seq<NodeId>, n: nat, ids: set<NodeId>)
    requires n <= |peers| && Drawable(peers, ids)
    ensures Drawable(peers[..n], ids)
  {
  }

  lemma SwapDrawable(peers: seq<NodeId>, i: nat, j: nat, ids: set<NodeId>)
    requires i < |peers| && j < |peers| && Drawable(peers, ids)
    ensures Drawable(peers[i := peers[j]][j := peers[i]], ids)
  {
  }

  lemma ListedDrawable(peers: seq<NodeId>, ms: seq<Member>, v: seq<Member>, except: set<NodeId>)
    requires DistinctIds(v) && ms == Reachable(v, except)
    requires |peers| <= |ms| && forall k | 0 <= k < |peers| :: peers[k] == ms[k].id
    ensures Drawable(peers, Ids(ms))
  {
    ReachableDistinct(v, except);
  }

  lemma DrawableKnown(id: NodeId, v: seq<Member>, except: set<NodeId>)
    requires id in Ids(Reachable(v, except))
    ensures Lookup(v, id).Some?
  {
    ReachableSize(v, except);
    var ms := Reachable(v, except);
    var i :| 0 <= i < |ms| && ms[i].id == id;
    assert ms[i] in v;
  }
}
