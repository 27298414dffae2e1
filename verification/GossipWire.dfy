// Everything the PING, ACK and gossip senders build fits one datagram and is decoded unchanged.

module GossipWire {
  import opened Bytes
  import opened Common
  import opened Membership
  import opened Nodes
  import opened Gossip
  import opened GossipCodec

  // ---------------------------------------------------------------------------
  // Addresses stay C strings that fit their field
  // ---------------------------------------------------------------------------

  ghost predicate ViewAddresses(v: seq<Member>) {
    forall i | 0 <= i < |v| :: Address(v[i].ip)
  }

  ghost predicate UpdateAddresses(us: seq<Update>) {
    forall i | 0 <= i < |us| :: Address(us[i].ip)
  }

  ghost predicate Addresses(c: Config, s: State) {
    NulFree(c.myIp) && ViewAddresses(s.view) && UpdateAddresses(s.queue)
  }

  lemma TruncatedAddress(ip: seq<Byte>)
    requires NulFree(ip)
    ensures Address(Truncated(ip, MAX_IP_LEN))
  {
  }

  lemma AddedAddresses(v: seq<Member>, capacity: nat, m: Member, now: nat)
    requires ViewAddresses(v) && Address(m.ip)
    ensures ViewAddresses(Added(v, capacity, m, now))
  {
  }

  lemma StatusSetAddresses(v: seq<Member>, id: NodeId, status: Status, incarnation: nat, now: nat)
    requires ViewAddresses(v)
    ensures ViewAddresses(StatusSet(v, id, status, incarnation, now))
  {
  }

  lemma {:induction false} PushTimesAddresses(q: seq<Update>, u: Update, n: nat)
    requires UpdateAddresses(q) && Address(u.ip)
    ensures UpdateAddresses(PushTimes(q, u, n))
  {
    if n > 0 {
      PushTimesAddresses(q, u, n - 1);
    }
  }

  lemma AbsorbKeepsAddresses(c: Config, s: State, kind: Byte, u: Update, now: nat)
    requires Addresses(c, s) && Address(u.ip)
    ensures Addresses(c, Absorb(c, s, kind, u, now))
  {
    hide Added, StatusSet, Truncated;
    TruncatedAddress(u.ip);
    TruncatedAddress(c.myIp);
    PushTimesAddresses(s.queue, AliveUpdate(c, s.incarnation + 1, now), 3);
    AddedAddresses(s.view, c.capacity, MemberOf(u, u.status, u.incarnation, now), now);
    AddedAddresses(s.view, c.capacity, MemberOf(u, ALIVE, u.incarnation, now), now);
    StatusSetAddresses(s.view, u.id, u.status, u.incarnation, now);
    StatusSetAddresses(s.view, u.id, ALIVE, u.incarnation, now);
    StatusSetAddresses(s.view, u.id, SUSPECT, u.incarnation, now);
    StatusSetAddresses(s.view, u.id, DEAD, u.incarnation, now);
  }

  lemma {:induction false} AbsorbAllKeepsAddresses(c: Config, s: State, kind: Byte, us: seq<Update>, now: nat)
    requires Addresses(c, s) && UpdateAddresses(us)
    ensures Addresses(c, AbsorbAll(c, s, kind, us, now))
  {
    hide Absorb;
    if |us| > 0 {
      AbsorbAllKeepsAddresses(c, s, kind, us[..|us| - 1], now);
      AbsorbKeepsAddresses(c, AbsorbAll(c, s, kind, us[..|us| - 1], now), kind, us[|us| - 1], now);
    }
  }

  lemma WorkerJoinKeepsAddresses(c: Config, s: State, msg: Message, srcIp: seq<Byte>, now: nat)
    requires Addresses(c, s) && NulFree(srcIp)
    ensures Addresses(c, WorkerJoined(c, s, msg, srcIp, now))
  {
    TruncatedAddress(srcIp);
    if c.myType == NODE_TYPE_ROUTER && |msg.updates| > 0 {
      var m := WorkerMember(s.view, msg, srcIp, now);
      AddedAddresses(s.view, c.capacity, m, now);
      PushTimesAddresses(s.queue, JoinAnnouncement(m, now), if Rejoining(s.view, msg.sender) then 10 else 5);
    }
  }

  lemma ReceivedKeepsAddresses(c: Config, s: State, msg: Message, srcIp: seq<Byte>, now: nat)
    requires Addresses(c, s) && UpdateAddresses(msg.updates) && NulFree(srcIp)
    ensures Addresses(c, Received(c, s, msg, srcIp, now))
  {
    hide AbsorbAll, WorkerJoined;
    TruncatedAddress(srcIp);
    WorkerJoinKeepsAddresses(c, s, msg, srcIp, now);
    AbsorbAllKeepsAddresses(c, s, msg.msgType, msg.updates, now);
    var revived := s.(pending := PingAnswered(s.pending, msg.sender), view := Revived(s.view, msg.sender, now));
    AbsorbAllKeepsAddresses(c, revived, MSG_ACK, msg.updates, now);
  }

  lemma {:induction false} AckSlotsKeepAddresses(c: Config, s: State, n: nat, now: nat)
    requires Addresses(c, s) && n <= |s.pending|
    ensures Addresses(c, AckSlotsChecked(c, s, n, now))
  {
    if n > 0 {
      AckSlotsKeepAddresses(c, s, n - 1, now);
    }
  }

  lemma {:induction false} SuspectSlotsKeepAddresses(c: Config, s: State, n: nat, now: nat)
    requires Addresses(c, s) && n <= |s.view|
    ensures Addresses(c, SuspectSlotsChecked(c, s, n, now))
  {
    if n > 0 {
      SuspectSlotsKeepAddresses(c, s, n - 1, now);
    }
  }

  /** Every step keeps every address in the view and in the queue a C string of at most 15 bytes. */
  lemma StepKeepsAddresses(c: Config, s: State, step: Step)
    requires Addresses(c, s)
    requires step.Receive? ==> UpdateAddresses(step.msg.updates) && NulFree(step.srcIp)
    ensures Addresses(c, Next(c, s, step))
  {
    hide Received, AckSlotsChecked, SuspectSlotsChecked;
    match step
    case Receive(msg, srcIp, now) => ReceivedKeepsAddresses(c, s, msg, srcIp, now);
    case SendPing(_, _, _) =>
    case AckTimeouts(now) => AckSlotsKeepAddresses(c, s, |s.pending|, now);
    case SuspectTimeouts(now) => SuspectSlotsKeepAddresses(c, s, |s.view|, now);
    case GossipRound(_) =>
    case RefreshSelf(_) =>
    case AnnounceJoin(now) =>
      TruncatedAddress(c.myIp);
      PushTimesAddresses(s.queue, AliveUpdate(c, s.incarnation, now), 5);
  }

  /** What arrives is sendable again: decoding yields only fields that the wire can carry. */
  lemma DecodedIsSendable(b: seq<Byte>)
    requires Decode(b).Some?
    ensures Sendable(Decode(b).value)
  {
    var m := Decode(b).value;
    forall i | 0 <= i < |m.updates|
      ensures Wireable(m.updates[i])
    {
      assert m.updates[i] == DecodeUpdate(b, HEADER_SIZE + UPDATE_SIZE * i);
    }
  }

  // ---------------------------------------------------------------------------
  // The senders
  // ---------------------------------------------------------------------------

  /** Counters that have not outgrown their 64-bit fields. */
  ghost predicate Within64(s: State) {
    && s.sequenceNum < TWO_TO_THE_64
    && (forall i | 0 <= i < |s.view| :: s.view[i].incarnation < TWO_TO_THE_64)
    && (forall i | 0 <= i < |s.queue| :: s.queue[i].incarnation < TWO_TO_THE_64 && s.queue[i].timestamp < TWO_TO_THE_64)
  }

  lemma PiggybackWireable(c: Config, s: State, limit: nat, now: nat)
    requires Addresses(c, s) && Within64(s) && now < TWO_TO_THE_64
    ensures forall i | 0 <= i < |Piggyback(c, s.view, limit, now)| :: Wireable(Piggyback(c, s.view, limit, now)[i])
  {
    var scanned := if |s.view| < limit then |s.view| else limit;
    ReachableSize(s.view[..scanned], {c.myId});
    var ms, us := Reachable(s.view[..scanned], {c.myId}), Piggyback(c, s.view, limit, now);
    forall i | 0 <= i < |us|
      ensures Wireable(us[i])
    {
      assert ms[i] in ms && ms[i] in s.view[..scanned];
      assert us[i] == UpdateOf(ms[i], now);
    }
  }

  /** The datagram a sender hands to the socket holds the whole message and decodes to it. */
  ghost predicate Arrives(m: Message) {
    var d := Datagram(m, MAX_PAYLOAD);
    && |m.updates| <= GOSSIP_MAX_PIGGYBACK_UPDATES
    && |d| == HEADER_SIZE + UPDATE_SIZE * |m.updates| <= MAX_PAYLOAD
    && Decode(d) == Some(m)
  }

  lemma SendableArrives(m: Message)
    requires Sendable(m)
    ensures Arrives(m)
  {
    RoundTrip(m);
    assert m.updates[..|m.updates|] == m.updates;
  }

  /** No PING, ACK or gossip message is ever truncated: each arrives as it was built. */
  lemma SentMessagesArrive(c: Config, s: State, now: nat)
    requires c.maxPiggyback <= GOSSIP_MAX_PIGGYBACK_UPDATES
    requires Addresses(c, s) && Within64(s) && now < TWO_TO_THE_64
    ensures Arrives(PingMessage(c, s, now))
    ensures Arrives(Message(1, MSG_ACK, 0, c.myId, s.sequenceNum, Piggyback(c, s.view,
              GOSSIP_MAX_PIGGYBACK_UPDATES, now)))
    ensures forall i: nat | s.sequenceNum + i < TWO_TO_THE_64 :: Arrives(GossipMessage(c, s, i, now))
  {
    hide Arrives, Piggyback;
    PiggybackWireable(c, s, GOSSIP_MAX_PIGGYBACK_UPDATES, now);
    PiggybackWireable(c, s, c.maxPiggyback, now);
    SendableArrives(PingMessage(c, s, now));
    SendableArrives(Message(1, MSG_ACK, 0, c.myId, s.sequenceNum, Piggyback(c, s.view,
              GOSSIP_MAX_PIGGYBACK_UPDATES, now)));
    forall i: nat | s.sequenceNum + i < TWO_TO_THE_64
      ensures Arrives(GossipMessage(c, s, i, now))
    {
      SendableArrives(GossipMessage(c, s, i, now));
    }
  }
}
