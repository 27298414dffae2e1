// The table of unanswered pings, step by step and over runs, and what the two timers make of it.

module PendingPings {
  import opened Bytes
  import opened Common
  import opened Membership
  import opened Nodes
  import opened Gossip
  import opened GossipRuns

  // ---------------------------------------------------------------------------
  // Answering and recording
  // ---------------------------------------------------------------------------

  predicate Awaits(p: PendingAck, target: NodeId) {
    p.active && p.target == target
  }

  /** How many pings of the target are recorded and unanswered. */
  ghost function Waiting(p: seq<PendingAck>, target: NodeId): nat {
    if |p| == 0 then 0 else Waiting(p[..|p| - 1], target) + if Awaits(p[|p| - 1], target) then 1 else 0
  }

  lemma {:induction false} WaitingUpdate(p: seq<PendingAck>, i: nat, q: PendingAck, target: NodeId)
    requires i < |p|
    ensures Waiting(p[i := q], target) ==
            Waiting(p, target) - (if Awaits(p[i], target) then 1 else 0) + (if Awaits(q, target) then 1 else 0)
  {
    if i == |p| - 1 {
      assert p[i := q][..i] == p[..i];
    } else {
      WaitingUpdate(p[..|p| - 1], i, q, target);
      assert p[i := q][..|p| - 1] == p[..|p| - 1][i := q];
    }
  }

  lemma {:induction false} WaitingSome(p: seq<PendingAck>, target: NodeId)
    ensures Waiting(p, target) > 0 <==> exists i :: 0 <= i < |p| && Awaits(p[i], target)
  {
    if |p| > 0 {
      var front := p[..|p| - 1];
      WaitingSome(front, target);
      assert forall i | 0 <= i < |front| :: front[i] == p[i];
      if Waiting(p, target) > 0 && !Awaits(p[|p| - 1], target) {
        var i :| 0 <= i < |front| && Awaits(front[i], target);
        assert Awaits(p[i], target);
      }
    }
  }

  /** q is p after one answer from the target: its first active slot is cleared, if it has one, and no other slot. */
  ghost predicate OneAnswered(p: seq<PendingAck>, q: seq<PendingAck>, target: NodeId) {
    if Waiting(p, target) == 0 then q == p
    else
      exists i ::
        && 0 <= i < |p| && Awaits(p[i], target) && (forall j | 0 <= j < i :: !Awaits(p[j], target))
        && q == p[i := p[i].(active := false)]
  }

  /** q is p after one ping was sent: its first idle slot holds it, if there is one, and no other slot changes. */
  ghost predicate OneRecorded(p: seq<PendingAck>, q: seq<PendingAck>, target: NodeId, now: nat) {
    if forall i | 0 <= i < |p| :: p[i].active then q == p
    else
      exists i ::
        && 0 <= i < |p| && !p[i].active && (forall j | 0 <= j < i :: p[j].active)
        && q == p[i := PendingAck(target, now, true)]
  }

  /** An answer takes exactly one ping of its sender off the table, and none of anybody else. */
  lemma AnswerClearsOne(p: seq<PendingAck>, target: NodeId, other: NodeId)
    ensures var q := PingAnswered(p, target);
            && OneAnswered(p, q, target)
            && Waiting(q, other) == Waiting(p, other) - if other == target && Waiting(p, target) > 0 then 1 else 0
  {
    var i := FirstAwaiting(p, target);
    WaitingSome(p, target);
    if i < |p| {
      WaitingUpdate(p, i, p[i].(active := false), other);
      assert Awaits(p[i], target);
    }
  }

  /** A sent ping is on the table afterwards, unless every slot is taken. */
  lemma SendRecordsOne(p: seq<PendingAck>, target: NodeId, now: nat, other: NodeId)
    ensures var q, full := PingRecorded(p, target, now), forall i | 0 <= i < |p| :: p[i].active;
            && OneRecorded(p, q, target, now)
            && Waiting(q, other) == Waiting(p, other) + if other == target && !full then 1 else 0
  {
    var i := FirstIdle(p);
    if i < |p| {
      WaitingUpdate(p, i, PendingAck(target, now, true), other);
    }
  }

  // ---------------------------------------------------------------------------
  // The ACK timer, exactly
  // ---------------------------------------------------------------------------

  predicate Overdue(c: Config, p: PendingAck, now: nat) {
    p.active && Elapsed(now, p.sentAt) > c.ackTimeout
  }

  /** One of the first n slots holds an overdue ping of id. */
  ghost predicate Missed(c: Config, p: seq<PendingAck>, n: nat, id: NodeId, now: nat)
    requires n <= |p|
  {
    exists k :: 0 <= k < n && TimedOut(c, p[k], id, now)
  }

  /** What a bounded queue holds of the updates offered to it. */
  ghost function Capped(q: seq<Update>): seq<Update> {
    if |q| <= MAX_UPDATE_QUEUE then q else q[..MAX_UPDATE_QUEUE]
  }

  lemma PushCapped(q: seq<Update>, u: Update)
    ensures Push(Capped(q), u) == Capped(q + [u])
  {
  }

  /** The news an ACK timeout spreads: for each overdue slot in order, a suspicion of its target, unless the
      target is known and not ALIVE or an earlier slot has told already. An unknown target counts as
      ALIVE at incarnation 0, time and again. */
  ghost function Suspicions(c: Config, s: State, n: nat, now: nat): seq<Update>
    requires n <= |s.pending|
  {
    if n == 0 then []
    else
      var p, told := s.pending[n - 1], Suspicions(c, s, n - 1, now);
      if !Overdue(c, p, now) then told
      else
        match Lookup(s.view, p.target)
        case None => told + [Update(p.target, NODE_TYPE_UNKNOWN, [], 0, 0, SUSPECT, 0, now)]
        case Some(m) =>
          if m.status == ALIVE && !Missed(c, s.pending, n - 1, p.target, now)
          then told + [Update(p.target, NODE_TYPE_UNKNOWN, [], 0, 0, SUSPECT, m.incarnation, now)]
          else told
  }

  /** What the first n slots of the table make of one entry. */
  ghost function Suspected(c: Config, s: State, n: nat, now: nat, id: NodeId): Option<Member>
    requires n <= |s.pending|
  {
    match Lookup(s.view, id)
    case None => None
    case Some(e) =>
      if e.status == ALIVE && Missed(c, s.pending, n, id, now)
      then Some(e.(status := SUSPECT, lastSeen := now)) else Some(e)
  }

  ghost predicate Cleared(c: Config, p: seq<PendingAck>, q: seq<PendingAck>, n: nat, now: nat) {
    && |q| == |p|
    && forall k | 0 <= k < |p| :: q[k] == if k < n && Overdue(c, p[k], now) then p[k].(active := false) else p[k]
  }

  lemma OneSlot(c: Config, s: State, t: State, n: nat, now: nat, id: NodeId)
    requires 0 < n <= |s.pending| == |t.pending| && Sound(c, t.view) && t.pending[n - 1] == s.pending[n - 1]
    requires Lookup(t.view, id) == Suspected(c, s, n - 1, now, id)
    requires Lookup(t.view, s.pending[n - 1].target) == Suspected(c, s, n - 1, now, s.pending[n - 1].target)
    ensures Lookup(AckSlotChecked(c, t, n - 1, now).view, id) == Suspected(c, s, n, now, id)
  {
    hide Missed, StatusSet, Lookup, TimedOut, Sound;
    var p := s.pending[n - 1];
    var incarnation := match Lookup(t.view, p.target) case None => 0 case Some(m) => m.incarnation;
    SoundMeans(c, t.view);
    LookupStatusSet(t.view, p.target, SUSPECT, incarnation, now, id);
    MissedOneMore(c, s.pending, n, id, now);
    TimedOutMeans(c, p, id, now);
  }

  lemma SoundMeans(c: Config, v: seq<Member>)
    requires Sound(c, v)
    ensures DistinctIds(v)
  {
  }

  lemma TimedOutMeans(c: Config, p: PendingAck, id: NodeId, now: nat)
    ensures TimedOut(c, p, id, now) <==> p.target == id && Overdue(c, p, now)
  {
  }

  lemma MissedOneMore(c: Config, p: seq<PendingAck>, n: nat, id: NodeId, now: nat)
    requires 0 < n <= |p|
    ensures Missed(c, p, n, id, now) <==> Missed(c, p, n - 1, id, now) || TimedOut(c, p[n - 1], id, now)
  {
    hide TimedOut;
    if Missed(c, p, n - 1, id, now) {
      var k :| 0 <= k < n - 1 && TimedOut(c, p[k], id, now);
      assert 0 <= k < n;
    }
  }

  lemma OneSlotQueue(c: Config, s: State, t: State, n: nat, now: nat)
    requires 0 < n <= |s.pending| == |t.pending| && t.pending[n - 1] == s.pending[n - 1]
    requires Lookup(t.view, s.pending[n - 1].target) == Suspected(c, s, n - 1, now, s.pending[n - 1].target)
    requires t.queue == Capped(s.queue + Suspicions(c, s, n - 1, now))
    ensures AckSlotChecked(c, t, n - 1, now).queue == Capped(s.queue + Suspicions(c, s, n, now))
  {
    hide Missed, Lookup, StatusSet;
    var told, now1 := Suspicions(c, s, n - 1, now), Suspicions(c, s, n, now);
    if now1 != told {
      assert now1 == told + [now1[|told|]];
      assert s.queue + now1 == (s.queue + told) + [now1[|told|]];
      PushCapped(s.queue + told, now1[|told|]);
    }
  }

  lemma OneSlotCleared(c: Config, s: State, t: State, n: nat, now: nat)
    requires 0 < n <= |s.pending| && Cleared(c, s.pending, t.pending, n - 1, now)
    ensures var u := AckSlotChecked(c, t, n - 1, now);
            && Cleared(c, s.pending, u.pending, n, now)
            && u.incarnation == t.incarnation && u.sequenceNum == t.sequenceNum
  {
  }

  lemma SlotNotYet(c: Config, p: seq<PendingAck>, q: seq<PendingAck>, n: nat, now: nat)
    requires n < |p| && Cleared(c, p, q, n, now)
    ensures |q| == |p| && q[n] == p[n]
  {
  }

  lemma {:induction false} SlotsCleared(c: Config, s: State, n: nat, now: nat)
    requires n <= |s.pending|
    ensures Cleared(c, s.pending, AckSlotsChecked(c, s, n, now).pending, n, now)
  {
    hide AckSlotChecked, Cleared;
    if n == 0 {
      NothingCleared(c, s.pending, now);
    } else {
      SlotsCleared(c, s, n - 1, now);
      OneSlotCleared(c, s, AckSlotsChecked(c, s, n - 1, now), n, now);
    }
  }

  lemma NothingCleared(c: Config, p: seq<PendingAck>, now: nat)
    ensures Cleared(c, p, p, 0, now)
  {
  }

  lemma {:induction false} SuspectedView(c: Config, s: State, n: nat, now: nat, id: NodeId)
    requires Sound(c, s.view) && n <= |s.pending|
    ensures Sound(c, AckSlotsChecked(c, s, n, now).view)
    ensures Lookup(AckSlotsChecked(c, s, n, now).view, id) == Suspected(c, s, n, now, id)
  {
    hide AckSlotChecked, Sound, Lookup, Suspected;
    if n == 0 {
      NoneSuspected(c, s, now, id);
    } else {
      var t := AckSlotsChecked(c, s, n - 1, now);
      SuspectedView(c, s, n - 1, now, id);
      SuspectedView(c, s, n - 1, now, s.pending[n - 1].target);
      AckSlotMoves(c, t, n - 1, now, id);
      SlotsCleared(c, s, n - 1, now);
      SlotNotYet(c, s.pending, t.pending, n - 1, now);
      OneSlot(c, s, t, n, now, id);
    }
  }

  lemma NoneSuspected(c: Config, s: State, now: nat, id: NodeId)
    ensures Lookup(s.view, id) == Suspected(c, s, 0, now, id)
  {
  }

  lemma {:induction false} SuspicionsQueued(c: Config, s: State, n: nat, now: nat)
    requires Sound(c, s.view) && |s.queue| <= MAX_UPDATE_QUEUE && n <= |s.pending|
    ensures AckSlotsChecked(c, s, n, now).queue == Capped(s.queue + Suspicions(c, s, n, now))
  {
    hide AckSlotChecked, Sound, Lookup, Suspected, Cleared, Capped;
    if n == 0 {
      NoNews(s.queue);
      assert Suspicions(c, s, 0, now) == [];
    } else {
      hide Suspicions;
      var t := AckSlotsChecked(c, s, n - 1, now);
      SuspicionsQueued(c, s, n - 1, now);
      SuspectedView(c, s, n - 1, now, s.pending[n - 1].target);
      SlotsCleared(c, s, n - 1, now);
      SlotNotYet(c, s.pending, t.pending, n - 1, now);
      OneSlotQueue(c, s, t, n, now);
    }
  }

  lemma NoNews(q: seq<Update>)
    requires |q| <= MAX_UPDATE_QUEUE
    ensures Capped(q + []) == q
  {
    assert q + [] == q;
  }

  lemma {:induction false} CountersKept(c: Config, s: State, n: nat, now: nat)
    requires n <= |s.pending|
    ensures var t := AckSlotsChecked(c, s, n, now); t.incarnation == s.incarnation && t.sequenceNum == s.sequenceNum
  {
    if n > 0 {
      CountersKept(c, s, n - 1, now);
    }
  }

  /** check_ack_timeouts exactly: an entry becomes SUSPECT, at its incarnation and at this instant, if and only if
      it was ALIVE and a ping of it is overdue; every overdue slot becomes idle and no other slot changes; the
      suspicions are queued while there is room; and nothing else changes. */
  lemma AckTimeoutsExactly(c: Config, s: State, now: nat, id: NodeId)
    requires Sound(c, s.view)
    ensures var t, n := Next(c, s, AckTimeouts(now)), |s.pending|;
            && Lookup(t.view, id) == Suspected(c, s, n, now, id)
            && (StatusAt(s, id) == Some(ALIVE) ==>
                  (StatusAt(t, id) == Some(SUSPECT) <==> exists k :: 0 <= k < n && TimedOut(c, s.pending[k], id, now)))
            && Cleared(c, s.pending, t.pending, n, now)
            && (|s.queue| <= MAX_UPDATE_QUEUE ==> t.queue == Capped(s.queue + Suspicions(c, s, n, now)))
            && t.incarnation == s.incarnation && t.sequenceNum == s.sequenceNum
  {
    var n := |s.pending|;
    SuspectedView(c, s, n, now, id);
    SlotsCleared(c, s, n, now);
    CountersKept(c, s, n, now);
    if |s.queue| <= MAX_UPDATE_QUEUE {
      SuspicionsQueued(c, s, n, now);
    }
  }

  /** Every member that becomes SUSPECT is told of, at the incarnation it has, and is told of once. */
  lemma {:induction false} SuspicionTold(c: Config, s: State, n: nat, now: nat, id: NodeId) returns (j: nat)
    requires n <= |s.pending| && StatusAt(s, id) == Some(ALIVE) && Missed(c, s.pending, n, id, now)
    ensures var us := Suspicions(c, s, n, now);
            && j < |us| && us[j].id == id && us[j].status == SUSPECT
            && us[j].incarnation == Lookup(s.view, id).value.incarnation
            && forall k | 0 <= k < |us| && us[k].id == id :: k == j
  {
    assert n > 0;
    if Missed(c, s.pending, n - 1, id, now) {
      j := SuspicionTold(c, s, n - 1, now, id);
    } else {
      var k :| 0 <= k < n && TimedOut(c, s.pending[k], id, now);
      j := |Suspicions(c, s, n - 1, now)|;
      ToldOnlyIfMissed(c, s, n - 1, now, id);
    }
  }

  lemma {:induction false} ToldOnlyIfMissed(c: Config, s: State, n: nat, now: nat, id: NodeId)
    requires n <= |s.pending| && !Missed(c, s.pending, n, id, now)
    ensures forall k | 0 <= k < |Suspicions(c, s, n, now)| :: Suspicions(c, s, n, now)[k].id != id
  {
    if n > 0 {
      ToldOnlyIfMissed(c, s, n - 1, now, id);
    }
  }

  // ---------------------------------------------------------------------------
  // The suspicion timer, exactly
  // ---------------------------------------------------------------------------

  predicate Lapsed(c: Config, m: Member, now: nat) {
    m.status == SUSPECT && Elapsed(now, m.lastSeen) > c.deadTimeout
  }

  /** The news a suspicion timeout spreads: the death of each member whose time is up, in table order. */
  ghost function Deaths(c: Config, v: seq<Member>, n: nat, now: nat): seq<Update>
    requires n <= |v|
  {
    if n == 0 then []
    else
      var m, told := v[n - 1], Deaths(c, v, n - 1, now);
      if Lapsed(c, m, now)
      then told + [Update(m.id, m.nodeType, Truncated(m.ip, MAX_IP_LEN), m.gossipPort, m.dataPort, DEAD, m.incarnation,
                          now)]
      else told
  }

  /** The table after its first n slots were checked. */
  ghost predicate Buried(c: Config, v: seq<Member>, w: seq<Member>, n: nat, now: nat) {
    && |w| == |v|
    && forall k | 0 <= k < |v| :: w[k] == if k < n && Lapsed(c, v[k], now) then v[k].(status := DEAD) else v[k]
  }

  lemma OneMember(c: Config, s: State, t: State, n: nat, now: nat)
    requires 0 < n <= |s.view| && DistinctIds(s.view) && Buried(c, s.view, t.view, n - 1, now)
    ensures var u := SuspectSlotChecked(c, t, n - 1, now);
            && Buried(c, s.view, u.view, n, now)
            && u.pending == t.pending && u.incarnation == t.incarnation && u.sequenceNum == t.sequenceNum
            && (t.queue == Capped(s.queue + Deaths(c, s.view, n - 1, now)) ==>
                  u.queue == Capped(s.queue + Deaths(c, s.view, n, now)))
  {
    var m, told := t.view[n - 1], Deaths(c, s.view, n - 1, now);
    assert m == s.view[n - 1];
    FindIs(t.view, m.id, n - 1);
    if Lapsed(c, m, now) {
      var d := DeathOf(m, now);
      assert s.queue + (told + [d]) == (s.queue + told) + [d];
      PushCapped(s.queue + told, d);
    }
  }

  lemma {:induction false} SuspectSlotsExactly(c: Config, s: State, n: nat, now: nat)
    requires DistinctIds(s.view) && n <= |s.view|
    ensures var t := SuspectSlotsChecked(c, s, n, now);
            && Buried(c, s.view, t.view, n, now)
            && t.pending == s.pending && t.incarnation == s.incarnation && t.sequenceNum == s.sequenceNum
            && (|s.queue| <= MAX_UPDATE_QUEUE ==> t.queue == Capped(s.queue + Deaths(c, s.view, n, now)))
  {
    hide SuspectSlotChecked, DistinctIds, Buried, Capped;
    if n == 0 {
      NobodyBuried(c, s.view, now);
      if |s.queue| <= MAX_UPDATE_QUEUE {
        NoNews(s.queue);
      }
    } else {
      SuspectSlotsExactly(c, s, n - 1, now);
      OneMember(c, s, SuspectSlotsChecked(c, s, n - 1, now), n, now);
    }
  }

  lemma NobodyBuried(c: Config, v: seq<Member>, now: nat)
    ensures Buried(c, v, v, 0, now)
  {
  }

  /** check_suspect_timeouts exactly: a member becomes DEAD if and only if it was SUSPECT and not seen for longer
      than the dead timeout; each death is queued while there is room; and nothing else changes. */
  lemma SuspectTimeoutsExactly(c: Config, s: State, now: nat, id: NodeId)
    requires Sound(c, s.view)
    ensures var t := Next(c, s, SuspectTimeouts(now));
            && Buried(c, s.view, t.view, |s.view|, now)
            && Lookup(t.view, id) == (match Lookup(s.view, id)
                                      case None => None
                                      case Some(e) => Some(if Lapsed(c, e, now) then e.(status := DEAD) else e))
            && t.pending == s.pending && t.incarnation == s.incarnation && t.sequenceNum == s.sequenceNum
            && (|s.queue| <= MAX_UPDATE_QUEUE ==> t.queue == Capped(s.queue + Deaths(c, s.view, |s.view|, now)))
  {
    SuspectSlotsExactly(c, s, |s.view|, now);
    FindIs(Next(c, s, SuspectTimeouts(now)).view, id, Find(s.view, id));
  }

  // ---------------------------------------------------------------------------
  // Runs: what becomes of a ping
  // ---------------------------------------------------------------------------

  /** The step puts a ping of the target on the table. */
  ghost predicate Records(s: State, step: Step, target: NodeId) {
    && step.SendPing? && step.sent && step.target == target
    && Lookup(s.view, target).Some?
    && exists i :: 0 <= i < |s.pending| && !s.pending[i].active
  }

  /** The step is an ACK from the target while a ping of it waits. */
  ghost predicate Answers(c: Config, s: State, step: Step, target: NodeId) {
    && step.Receive? && step.msg.msgType == MSG_ACK && step.msg.sender == target && target != c.myId
    && Waiting(s.pending, target) > 0
  }

  ghost function OverdueCount(c: Config, p: seq<PendingAck>, now: nat, target: NodeId): nat {
    if |p| == 0 then 0
    else OverdueCount(c, p[..|p| - 1], now, target) + if TimedOut(c, p[|p| - 1], target, now) then 1 else 0
  }

  /** How many pings of the target were recorded, answered and given up in the first n steps. */
  ghost function Recorded(states: seq<State>, steps: seq<Step>, n: nat, target: NodeId): nat
    requires n <= |steps| < |states|
  {
    if n == 0 then 0
    else Recorded(states, steps, n - 1, target) + if Records(states[n - 1], steps[n - 1], target) then 1 else 0
  }

  ghost function Answered(c: Config, states: seq<State>, steps: seq<Step>, n: nat, target: NodeId): nat
    requires n <= |steps| < |states|
  {
    if n == 0 then 0
    else Answered(c, states, steps, n - 1, target) + if Answers(c, states[n - 1], steps[n - 1], target) then 1 else 0
  }

  ghost function GivenUp(c: Config, states: seq<State>, steps: seq<Step>, n: nat, target: NodeId): nat
    requires n <= |steps| < |states|
  {
    if n == 0 then 0
    else
      GivenUp(c, states, steps, n - 1, target)
      + if steps[n - 1].AckTimeouts? then OverdueCount(c, states[n - 1].pending, steps[n - 1].now, target) else 0
  }

  lemma {:induction false} ClearedCount(c: Config, p: seq<PendingAck>, q: seq<PendingAck>, now: nat, target: NodeId)
    requires Cleared(c, p, q, |p|, now)
    ensures Waiting(p, target) == Waiting(q, target) + OverdueCount(c, p, now, target)
  {
    if |p| > 0 {
      var n := |p| - 1;
      assert forall k | 0 <= k < n :: q[..n][k] == q[k] && p[..n][k] == p[k];
      ClearedCount(c, p[..n], q[..n], now, target);
      assert q[n] == if Overdue(c, p[n], now) then p[n].(active := false) else p[n];
    }
  }

  lemma StepAccounts(c: Config, s: State, step: Step, target: NodeId)
    requires Sound(c, s.view) && (step.Receive? ==> WellFormed(step.msg))
    ensures Waiting(Next(c, s, step).pending, target)
            + (if Answers(c, s, step, target) then 1 else 0)
            + (if step.AckTimeouts? then OverdueCount(c, s.pending, step.now, target) else 0)
         == Waiting(s.pending, target) + if Records(s, step, target) then 1 else 0
  {
    match step
    case Receive(msg, srcIp, now) =>
      ReceivedPending(c, s, msg, srcIp, now);
      AnswerClearsOne(s.pending, msg.sender, target);
    case SendPing(t, sent, now) => SendRecordsOne(s.pending, t, now, target);
    case AckTimeouts(now) =>
      SlotsCleared(c, s, |s.pending|, now);
      ClearedCount(c, s.pending, Next(c, s, step).pending, now, target);
    case SuspectTimeouts(now) => SuspectSlotsMove(c, s, |s.view|, now, target);
    case GossipRound(now) =>
    case RefreshSelf(now) =>
    case AnnounceJoin(now) =>
  }

  lemma {:induction false} NoneWaiting(p: seq<PendingAck>, target: NodeId)
    requires forall i | 0 <= i < |p| :: !p[i].active
    ensures Waiting(p, target) == 0
  {
    WaitingSome(p, target);
  }

  lemma StartsWithNone(c: Config, states: seq<State>, steps: seq<Step>, target: NodeId)
    requires Run(c, states, steps)
    ensures |states| == |steps| + 1 && Waiting(states[0].pending, target) == 0
  {
    hide Next, WellFormed, Sound;
    NoneWaiting(states[0].pending, target);
  }

  /** In every run, each ping of a target that was recorded is waiting, has been answered or has been given up. */
  lemma {:induction false} PingsAccounted(c: Config, states: seq<State>, steps: seq<Step>, n: nat, target: NodeId)
    requires Run(c, states, steps) && n <= |steps| < |states|
    ensures Waiting(states[n].pending, target) + Answered(c, states, steps, n, target)
            + GivenUp(c, states, steps, n, target) == Recorded(states, steps, n, target)
  {
    hide Run, Next, WellFormed, Sound, Waiting, Records, Answers, OverdueCount;
    StartsWithNone(c, states, steps, target);
    if n > 0 {
      PingsAccounted(c, states, steps, n - 1, target);
      StepOfRun(c, states, steps, n - 1);
      SoundInRun(c, states, steps, n - 1);
      StepAccounts(c, states[n - 1], steps[n - 1], target);
    }
  }

  /** A member all of whose recorded pings were answered in time is not suspected by the timer. */
  lemma AnsweredIsNotSuspected(c: Config, states: seq<State>, steps: seq<Step>, n: nat, id: NodeId)
    requires Run(c, states, steps) && n < |steps| && steps[n].AckTimeouts?
    requires Answered(c, states, steps, n, id) == Recorded(states, steps, n, id)
    ensures Lookup(states[n + 1].view, id) == Lookup(states[n].view, id)
  {
    StepOfRun(c, states, steps, n);
    hide Run, Recorded, Answered, GivenUp;
    StartsWithNone(c, states, steps, id);
    PingsAccounted(c, states, steps, n, id);
    WaitingSome(states[n].pending, id);
    SoundInRun(c, states, steps, n);
    AckSlotsMove(c, states[n], |states[n].pending|, steps[n].now, id);
  }

  /** The converse of the failure timing: a member that is ALIVE when the timer finds a ping of it unmatched for
      longer than the ACK timeout is SUSPECT at once, and if nothing but the timers touches its entry from
      then on, the first suspicion check later than the dead timeout finds it dead. */
  lemma SilenceIsDetected(c: Config, states: seq<State>, steps: seq<Step>, r: nat, p: nat, q: nat, slot: nat,
                          id: NodeId)
    requires Run(c, states, steps) && r < p < q < |steps| && id != c.myId
    requires Unmatched(states, steps, r, p, slot) && steps[r].target == id && StatusAt(states[p], id) == Some(ALIVE)
    requires steps[p].AckTimeouts? && steps[p].now - steps[r].now > c.ackTimeout
    requires forall k | p < k <= q :: Lookup(states[k].view, id) == Lookup(states[p + 1].view, id)
    requires steps[q].SuspectTimeouts? && steps[q].now - steps[p].now > c.deadTimeout
    ensures StatusAt(states[p + 1], id) == Some(SUSPECT) && StatusAt(states[q + 1], id) == Some(DEAD)
  {
    TimesOfRun(c, states, steps, r, p);
    TimesOfRun(c, states, steps, p, q);
    StepOfRun(c, states, steps, p);
    StepOfRun(c, states, steps, q);
    hide Run, Next, Sound;
    SoundInRun(c, states, steps, p);
    SoundInRun(c, states, steps, q);
    MissedAlive(c, states[p], steps[p].now, slot, id);
    LapsedDies(c, states[q], steps[q].now, id);
  }

  lemma TimesOfRun(c: Config, states: seq<State>, steps: seq<Step>, j: nat, k: nat)
    requires Run(c, states, steps) && j <= k < |steps|
    ensures |states| == |steps| + 1 && steps[j].now <= steps[k].now < TWO_TO_THE_64
  {
    hide Next, WellFormed, Sound;
  }

  lemma MissedAlive(c: Config, s: State, now: nat, slot: nat, id: NodeId)
    requires Sound(c, s.view) && slot < |s.pending| && TimedOut(c, s.pending[slot], id, now)
    requires StatusAt(s, id) == Some(ALIVE)
    ensures var f := Lookup(Next(c, s, AckTimeouts(now)).view, id);
            f.Some? && f.value.status == SUSPECT && f.value.lastSeen == now
  {
    SuspectedView(c, s, |s.pending|, now, id);
    assert Missed(c, s.pending, |s.pending|, id, now);
  }

  lemma LapsedDies(c: Config, s: State, now: nat, id: NodeId)
    requires Sound(c, s.view) && Lookup(s.view, id).Some? && Lapsed(c, Lookup(s.view, id).value, now)
    ensures StatusAt(Next(c, s, SuspectTimeouts(now)), id) == Some(DEAD)
  {
    SuspectTimeoutsExactly(c, s, now, id);
  }
}
