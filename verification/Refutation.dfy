// How a node refutes a suspicion of itself, and when its peers believe it.

module Refutation {
  import opened Bytes
  import opened Common
  import opened Membership
  import opened Nodes
  import opened Gossip
  import opened GossipRuns
  import opened PendingPings
  import opened GossipEffects

  /** How many of the updates suspect the node. */
  ghost function SelfSuspicions(us: seq<Update>, id: NodeId): nat {
    if |us| == 0 then 0
    else
      var u := us[|us| - 1];
      SelfSuspicions(us[..|us| - 1], id) + if u.id == id && u.status == SUSPECT then 1 else 0
  }

  /** A suspicion of this node, at whatever incarnation, raises its own incarnation by one; three copies of its
      record at the new incarnation are queued while there is room; the table stays as it is. */
  lemma SuspicionRaises(c: Config, s: State, u: Update, now: nat) returns (r: Update)
    requires u.id == c.myId && u.status == SUSPECT && |s.queue| <= MAX_UPDATE_QUEUE
    ensures OwnRecord(r, c, s.incarnation + 1, now)
    ensures Absorb(c, s, MSG_SUSPECT, u, now)
         == s.(incarnation := s.incarnation + 1, queue := Capped(s.queue + Copies(r, 3)))
    ensures u.incarnation <= s.incarnation ==> r.incarnation > u.incarnation
  {
    r := AliveUpdate(c, s.incarnation + 1, now);
    PushTimesCapped(s.queue, r, 3);
  }

  /** With room for one update, the refutation is on the queue. */
  lemma RefutationQueued(c: Config, s: State, u: Update, now: nat)
    requires u.id == c.myId && u.status == SUSPECT && |s.queue| < MAX_UPDATE_QUEUE
    ensures var t := Absorb(c, s, MSG_SUSPECT, u, now);
            && |s.queue| < |t.queue| && t.queue[..|s.queue|] == s.queue
            && OwnRecord(t.queue[|s.queue|], c, t.incarnation, now) && t.incarnation > s.incarnation
  {
    var r := SuspicionRaises(c, s, u, now);
    assert (s.queue + Copies(r, 3))[|s.queue|] == r;
  }

  lemma {:induction false} SuspectUpdatesRaise(c: Config, s: State, us: seq<Update>, now: nat)
    ensures AbsorbAll(c, s, MSG_SUSPECT, us, now).incarnation == s.incarnation + SelfSuspicions(us, c.myId)
  {
    if |us| > 0 {
      SuspectUpdatesRaise(c, s, us[..|us| - 1], now);
    }
  }

  lemma {:induction false} OtherUpdatesKeep(c: Config, s: State, kind: Byte, us: seq<Update>, now: nat)
    requires kind != MSG_SUSPECT
    ensures AbsorbAll(c, s, kind, us, now).incarnation == s.incarnation
  {
    if |us| > 0 {
      OtherUpdatesKeep(c, s, kind, us[..|us| - 1], now);
    }
  }

  /** How many suspicions of the node a step delivers to it. */
  ghost function Delivered(c: Config, step: Step): nat {
    if step.Receive? && step.msg.msgType == MSG_SUSPECT && step.msg.sender != c.myId
    then SelfSuspicions(step.msg.updates, c.myId) else 0
  }

  lemma ReceivedIncarnation(c: Config, s: State, msg: Message, srcIp: seq<Byte>, now: nat)
    ensures Received(c, s, msg, srcIp, now).incarnation == s.incarnation + Delivered(c, Receive(msg, srcIp, now))
  {
    hide AbsorbAll, Added, Revived, PingAnswered, Reachable, PushTimes, WorkerMember;
    SuspectUpdatesRaise(c, s, msg.updates, now);
    var r := s.(pending := PingAnswered(s.pending, msg.sender), view := Revived(s.view, msg.sender, now));
    OtherUpdatesKeep(c, r, MSG_ACK, msg.updates, now);
    if msg.msgType != MSG_SUSPECT {
      OtherUpdatesKeep(c, s, msg.msgType, msg.updates, now);
    }
  }

  lemma StepIncarnation(c: Config, s: State, step: Step)
    requires Sound(c, s.view)
    ensures Next(c, s, step).incarnation == s.incarnation + Delivered(c, step)
  {
    hide Received, AckSlotsChecked, SuspectSlotsChecked, Added, Refreshed, PushTimes, SelfSuspicions;
    match step
    case Receive(msg, srcIp, now) => ReceivedIncarnation(c, s, msg, srcIp, now);
    case SendPing(target, sent, now) =>
    case AckTimeouts(now) => AckTimeoutsExactly(c, s, now, 0);
    case SuspectTimeouts(now) => SuspectTimeoutsExactly(c, s, now, 0);
    case GossipRound(now) =>
    case RefreshSelf(now) =>
    case AnnounceJoin(now) =>
  }

  ghost function DeliveredIn(c: Config, steps: seq<Step>, a: nat, b: nat): nat
    requires a <= b <= |steps|
  {
    if a == b then 0 else DeliveredIn(c, steps, a, b - 1) + Delivered(c, steps[b - 1])
  }

  /** Over any stretch of a run the incarnation of a node grows by the number of suspicions of it that it
      received: it never falls, and nothing else moves it. */
  lemma {:induction false} IncarnationCountsSuspicions(c: Config, states: seq<State>, steps: seq<Step>, a: nat, b: nat)
    requires Run(c, states, steps) && a <= b <= |steps| < |states|
    ensures states[b].incarnation == states[a].incarnation + DeliveredIn(c, steps, a, b)
  {
    hide Run, Next, Sound, WellFormed, Delivered;
    if a < b {
      IncarnationCountsSuspicions(c, states, steps, a, b - 1);
      StepOfRun(c, states, steps, b - 1);
      SoundInRun(c, states, steps, b - 1);
      StepIncarnation(c, states[b - 1], steps[b - 1]);
    }
  }

  // ---------------------------------------------------------------------------
  // At a peer
  // ---------------------------------------------------------------------------

  /** A peer that holds a member SUSPECT takes it for ALIVE again when an update says so at a later incarnation,
      in a PING, an ACK or an ALIVE message, and only then. */
  lemma RefutationBelievedIff(d: Config, t: State, kind: Byte, r: Update, now: nat)
    requires Sound(d, t.view) && kind in {MSG_PING, MSG_ACK, MSG_ALIVE} && r.status == ALIVE
    requires StatusAt(t, r.id) == Some(SUSPECT)
    ensures var e := Lookup(t.view, r.id).value;
            Lookup(Absorb(d, t, kind, r, now).view, r.id)
            == Some(if r.incarnation > e.incarnation
                    then e.(status := ALIVE, incarnation := r.incarnation, lastSeen := now) else e)
  {
    LookupStatusSet(t.view, r.id, ALIVE, r.incarnation, now, r.id);
  }

  /** From suspicion to refutation: what a suspected node queues in reply makes a peer that holds it SUSPECT believe
      in it again exactly when the peer's incarnation of it is not beyond the node's own. A peer can be beyond,
      since a revival through PING or a join adds one; such a peer ignores this refutation and waits for more. */
  lemma SuspicionIsRefutedIff(c: Config, s: State, u: Update, now: nat, d: Config, t: State, kind: Byte, later: nat)
    requires u.id == c.myId && u.status == SUSPECT && |s.queue| < MAX_UPDATE_QUEUE
    requires Sound(d, t.view) && kind in {MSG_PING, MSG_ACK, MSG_ALIVE} && StatusAt(t, c.myId) == Some(SUSPECT)
    ensures var reply := Absorb(c, s, MSG_SUSPECT, u, now).queue;
            && |s.queue| < |reply|
            && (StatusAt(Absorb(d, t, kind, reply[|s.queue|], later), c.myId) == Some(ALIVE)
                <==> Lookup(t.view, c.myId).value.incarnation <= s.incarnation)
  {
    RefutationQueued(c, s, u, now);
    var r := Absorb(c, s, MSG_SUSPECT, u, now).queue[|s.queue|];
    var again := SuspicionRaises(c, s, u, now);
    hide Absorb, Capped;
    RefutationBelievedIff(d, t, kind, r, later);
  }
}
