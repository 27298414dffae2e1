// What every run of the gossip engine keeps.

module GossipRuns {
  import opened Bytes
  import opened Common
  import opened Membership
  import opened Nodes
  import opened Gossip

  // ---------------------------------------------------------------------------
  // How one step may move one entry
  // ---------------------------------------------------------------------------

  ghost predicate Rises(e: Option<Member>, f: Option<Member>) {
    e.Some? ==> f.Some? && !Below(f.value, e.value)
  }

  /** An entry never disappears, and its last_seen_ms is kept or set to the clock. */
  ghost predicate Touched(e: Option<Member>, f: Option<Member>, now: nat) {
    && (e.Some? ==> f.Some? && (f.value.lastSeen == e.value.lastSeen || f.value.lastSeen == now))
    && (e.None? && f.Some? ==> f.value.lastSeen == now)
  }

  ghost predicate StaysDead(e: Option<Member>, f: Option<Member>, top: nat) {
    e.Some? && e.value.status == DEAD && e.value.incarnation >= top ==>
      f.Some? && f.value.status == DEAD && f.value.incarnation >= top
  }

  /** An update in this kind of message cannot lift a DEAD entry for id at incarnation top or above. A DEAD
      message writes DEAD and a SUSPECT message only touches ALIVE entries, whatever the update says; an
      ALIVE message writes ALIVE whatever it says; PING and ACK write the status they carry. */
  ghost predicate Harmless(kind: Byte, u: Update, id: NodeId, top: nat) {
    u.id == id && (kind == MSG_ALIVE || (kind in {MSG_PING, MSG_ACK} && u.status != DEAD)) ==> u.incarnation <= top
  }

  lemma AddedSound(c: Config, v: seq<Member>, m: Member, now: nat)
    requires Sound(c, v) && m.status <= DEAD
    ensures Sound(c, Added(v, c.capacity, m, now)) && |v| <= |Added(v, c.capacity, m, now)|
  {
    LookupAdded(v, c.capacity, m, now, m.id);
  }

  lemma StatusSetSound(c: Config, v: seq<Member>, id: NodeId, status: Status, incarnation: nat, now: nat)
    requires Sound(c, v) && status <= DEAD
    ensures Sound(c, StatusSet(v, id, status, incarnation, now))
  {
    LookupStatusSet(v, id, status, incarnation, now, id);
  }

  lemma SoundEntry(c: Config, v: seq<Member>, id: NodeId)
    requires Sound(c, v)
    ensures Lookup(v, id).Some? ==> Lookup(v, id).value.status <= DEAD && Lookup(v, id).value.id == id
  {
  }

  /** Adding a new member, or an ALIVE one over a DEAD entry with a lower incarnation, only moves it up. */
  lemma AddMoves(c: Config, v: seq<Member>, m: Member, now: nat, id: NodeId, top: nat)
    requires Sound(c, v) && m.status <= DEAD
    requires Lookup(v, m.id).Some? ==> m.status == ALIVE && m.incarnation > Lookup(v, m.id).value.incarnation
    ensures var w := Added(v, c.capacity, m, now);
            && Sound(c, w) && |v| <= |w|
            && Touched(Lookup(v, id), Lookup(w, id), now)
            && Rises(Lookup(v, id), Lookup(w, id))
            && ((m.id == id && m.status != DEAD ==> m.incarnation <= top) ==>
                      StaysDead(Lookup(v, id), Lookup(w, id), top))
  {
    AddedSound(c, v, m, now);
    LookupAdded(v, c.capacity, m, now, id);
    hide Added, Sound, Lookup;
  }

  /** Restating a member at a higher incarnation, or at the same one without a lower status, only moves it up. */
  lemma SetMoves(c: Config, v: seq<Member>, k: NodeId, status: Status, incarnation: nat, now: nat, id: NodeId, top: nat)
    requires Sound(c, v) && status <= DEAD
    requires Lookup(v, k).Some? && incarnation == Lookup(v, k).value.incarnation ==> status >= Lookup(v, k).value.status
    ensures var w := StatusSet(v, k, status, incarnation, now);
            && Sound(c, w) && |v| <= |w|
            && Touched(Lookup(v, id), Lookup(w, id), now)
            && Rises(Lookup(v, id), Lookup(w, id))
            && ((k == id && status != DEAD ==> incarnation <= top) ==> StaysDead(Lookup(v, id), Lookup(w, id), top))
  {
    SoundEntry(c, v, id);
    StatusSetSound(c, v, k, status, incarnation, now);
    LookupStatusSet(v, k, status, incarnation, now, id);
    hide StatusSet, Sound, Lookup;
  }

  /** What taking in an update may do to the state. */
  ghost predicate Moved(c: Config, s: State, t: State, now: nat, id: NodeId) {
    && Sound(c, t.view) && |s.view| <= |t.view| && t.pending == s.pending
    && Touched(Lookup(s.view, id), Lookup(t.view, id), now)
    && Rises(Lookup(s.view, id), Lookup(t.view, id))
  }

  lemma PingUpdateMoves(c: Config, s: State, u: Update, now: nat, id: NodeId, top: nat)
    requires Sound(c, s.view) && u.status <= DEAD
    ensures Moved(c, s, AbsorbPing(c, s, u, now), now, id)
    ensures Harmless(MSG_PING, u, id, top) ==>
              StaysDead(Lookup(s.view, id), Lookup(AbsorbPing(c, s, u, now).view, id), top)
  {
    hide Added, StatusSet, Sound, Lookup, Push;
    var e := Lookup(s.view, u.id);
    if e.None? {
      AddMoves(c, s.view, MemberOf(u, u.status, u.incarnation, now), now, id, top);
    } else if u.incarnation > e.value.incarnation {
      if e.value.status == DEAD && u.status == ALIVE {
        AddMoves(c, s.view, MemberOf(u, ALIVE, u.incarnation, now), now, id, top);
      } else {
        SetMoves(c, s.view, u.id, u.status, u.incarnation, now, id, top);
      }
    }
  }

  lemma AckUpdateMoves(c: Config, s: State, u: Update, now: nat, id: NodeId, top: nat)
    requires Sound(c, s.view) && u.status <= DEAD
    ensures Moved(c, s, AbsorbAck(c, s, u, now), now, id)
    ensures Harmless(MSG_ACK, u, id, top) ==>
              StaysDead(Lookup(s.view, id), Lookup(AbsorbAck(c, s, u, now).view, id), top)
  {
    hide Added, StatusSet, Sound, Lookup;
    if Lookup(s.view, u.id).None? {
      AddMoves(c, s.view, MemberOf(u, u.status, u.incarnation, now), now, id, top);
    } else if u.incarnation > Lookup(s.view, u.id).value.incarnation {
      SetMoves(c, s.view, u.id, u.status, u.incarnation, now, id, top);
    }
  }

  lemma SuspectUpdateMoves(c: Config, s: State, u: Update, now: nat, id: NodeId, top: nat)
    requires Sound(c, s.view) && u.status <= DEAD
    ensures Moved(c, s, AbsorbSuspect(c, s, u, now), now, id)
    ensures Harmless(MSG_SUSPECT, u, id, top) ==>
              StaysDead(Lookup(s.view, id), Lookup(AbsorbSuspect(c, s, u, now).view, id), top)
  {
    hide StatusSet, Sound, Lookup, Push, PushTimes;
    if u.status == SUSPECT && Lookup(s.view, u.id).Some? && Lookup(s.view, u.id).value.status == ALIVE {
      SetMoves(c, s.view, u.id, SUSPECT, u.incarnation, now, id, top);
    }
  }

  lemma AliveUpdateMoves(c: Config, s: State, u: Update, now: nat, id: NodeId, top: nat)
    requires Sound(c, s.view) && u.status <= DEAD
    ensures Moved(c, s, AbsorbAlive(s, u, now), now, id)
    ensures Harmless(MSG_ALIVE, u, id, top) ==>
              StaysDead(Lookup(s.view, id), Lookup(AbsorbAlive(s, u, now).view, id), top)
  {
    hide StatusSet, Sound, Lookup, Push;
    if Lookup(s.view, u.id).Some? && u.incarnation > Lookup(s.view, u.id).value.incarnation {
      SetMoves(c, s.view, u.id, ALIVE, u.incarnation, now, id, top);
    }
  }

  lemma DeadUpdateMoves(c: Config, s: State, u: Update, now: nat, id: NodeId, top: nat)
    requires Sound(c, s.view) && u.status <= DEAD
    ensures Moved(c, s, AbsorbDead(s, u, now), now, id)
    ensures Harmless(MSG_DEAD, u, id, top) ==>
              StaysDead(Lookup(s.view, id), Lookup(AbsorbDead(s, u, now).view, id), top)
  {
    SoundEntry(c, s.view, u.id);
    hide StatusSet, Sound, Lookup;
    if Lookup(s.view, u.id).Some? {
      SetMoves(c, s.view, u.id, DEAD, u.incarnation, now, id, top);
    }
  }

  lemma AbsorbMoves(c: Config, s: State, kind: Byte, u: Update, now: nat, id: NodeId, top: nat)
    requires Sound(c, s.view) && u.status <= DEAD
    ensures Moved(c, s, Absorb(c, s, kind, u, now), now, id)
    ensures Harmless(kind, u, id, top) ==>
              StaysDead(Lookup(s.view, id), Lookup(Absorb(c, s, kind, u, now).view, id), top)
  {
    hide AbsorbPing, AbsorbAck, AbsorbSuspect, AbsorbAlive, AbsorbDead, Sound, Lookup;
    if kind == MSG_PING {
      PingUpdateMoves(c, s, u, now, id, top);
    } else if kind == MSG_ACK {
      AckUpdateMoves(c, s, u, now, id, top);
    } else if kind == MSG_SUSPECT {
      SuspectUpdateMoves(c, s, u, now, id, top);
    } else if kind == MSG_ALIVE {
      AliveUpdateMoves(c, s, u, now, id, top);
    } else if kind == MSG_DEAD {
      DeadUpdateMoves(c, s, u, now, id, top);
    }
  }

  lemma {:induction false} AbsorbAllMoves(c: Config, s: State, kind: Byte, us: seq<Update>, now: nat, id: NodeId,
            top: nat)
    requires Sound(c, s.view) && forall i | 0 <= i < |us| :: us[i].status <= DEAD
    ensures var t := AbsorbAll(c, s, kind, us, now);
            && Sound(c, t.view) && |s.view| <= |t.view| && t.pending == s.pending
            && Touched(Lookup(s.view, id), Lookup(t.view, id), now)
            && Rises(Lookup(s.view, id), Lookup(t.view, id))
            && ((forall i | 0 <= i < |us| :: Harmless(kind, us[i], id, top)) ==>
                  StaysDead(Lookup(s.view, id), Lookup(t.view, id), top))
  {
    hide Absorb, Sound, Lookup, Harmless;
    if |us| > 0 {
      var front := us[..|us| - 1];
      AbsorbAllMoves(c, s, kind, front, now, id, top);
      AbsorbMoves(c, AbsorbAll(c, s, kind, front, now), kind, us[|us| - 1], now, id, top);
    }
  }

  lemma RevivedMoves(c: Config, v: seq<Member>, sender: NodeId, now: nat, id: NodeId)
    requires Sound(c, v)
    ensures var w := Revived(v, sender, now);
            && Sound(c, w) && |w| == |v|
            && Touched(Lookup(v, id), Lookup(w, id), now)
            && (if id == sender && Lookup(v, id).Some? && Lookup(v, id).value.status == SUSPECT
                then Lookup(w, id) == Some(Lookup(v, id).value.(status := ALIVE, lastSeen := now))
                else Lookup(w, id) == Lookup(v, id))
  {
    match Lookup(v, sender)
    case None =>
    case Some(m) =>
      StatusSetSound(c, v, sender, ALIVE, m.incarnation, now);
      LookupStatusSet(v, sender, ALIVE, m.incarnation, now, id);
  }

  /** A recorded ping of id that no ACK has matched for longer than the ACK timeout. */
  ghost predicate TimedOut(c: Config, p: PendingAck, id: NodeId, now: nat) {
    p.active && p.target == id && Elapsed(now, p.sentAt) > c.ackTimeout
  }

  /** The only move an ACK check makes: from ALIVE to SUSPECT at the same incarnation, at this instant. */
  ghost predicate SuspectedNow(e: Option<Member>, f: Option<Member>, now: nat) {
    && e.Some? && e.value.status == ALIVE
    && f == Some(e.value.(status := SUSPECT, lastSeen := now))
  }

  lemma AckSlotMoves(c: Config, s: State, i: nat, now: nat, id: NodeId)
    requires Sound(c, s.view) && i < |s.pending|
    ensures var t := AckSlotChecked(c, s, i, now);
            && Sound(c, t.view) && |t.view| == |s.view|
            && t.pending == (if t.pending[i] == s.pending[i] then
                      s.pending else s.pending[i := s.pending[i].(active := false)])
            && (Lookup(t.view, id) == Lookup(s.view, id)
                || (SuspectedNow(Lookup(s.view, id), Lookup(t.view, id), now) && TimedOut(c, s.pending[i], id, now)))
  {
    var p := s.pending[i];
    var incarnation := match Lookup(s.view, p.target) case None => 0 case Some(m) => m.incarnation;
    StatusSetSound(c, s.view, p.target, SUSPECT, incarnation, now);
    LookupStatusSet(s.view, p.target, SUSPECT, incarnation, now, id);
  }

  lemma {:induction false} AckSlotsMove(c: Config, s: State, n: nat, now: nat, id: NodeId)
    requires Sound(c, s.view) && n <= |s.pending|
    ensures var t := AckSlotsChecked(c, s, n, now);
            && Sound(c, t.view) && |t.view| == |s.view| && t.pending[n..] == s.pending[n..]
            && (Lookup(t.view, id) == Lookup(s.view, id)
                || (SuspectedNow(Lookup(s.view, id), Lookup(t.view, id), now)
                    && exists k :: 0 <= k < n && TimedOut(c, s.pending[k], id, now)))
  {
    hide AckSlotChecked, Sound, Lookup, TimedOut;
    if n > 0 {
      AckSlotsMove(c, s, n - 1, now, id);
      var t := AckSlotsChecked(c, s, n - 1, now);
      AckSlotMoves(c, t, n - 1, now, id);
      assert t.pending[n - 1] == t.pending[n - 1..][0] == s.pending[n - 1..][0] == s.pending[n - 1];
      var w := AckSlotChecked(c, t, n - 1, now);
      assert w.pending[n..] == t.pending[n..] == t.pending[n - 1..][1..] == s.pending[n - 1..][1..] == s.pending[n..];
    }
  }

  /** The only move a suspicion check makes: from SUSPECT, when its time is up, to DEAD. */
  ghost predicate Expired(c: Config, e: Option<Member>, f: Option<Member>, now: nat) {
    || f == e
    || (e.Some? && e.value.status == SUSPECT && Elapsed(now, e.value.lastSeen) > c.deadTimeout
        && f == Some(e.value.(status := DEAD)))
  }

  lemma SuspectSlotMoves(c: Config, s: State, i: nat, now: nat, id: NodeId)
    requires Sound(c, s.view) && i < |s.view|
    ensures var t := SuspectSlotChecked(c, s, i, now);
            && Sound(c, t.view) && |t.view| == |s.view| && t.pending == s.pending && t.view[i + 1..] == s.view[i + 1..]
            && Expired(c, Lookup(s.view, id), Lookup(t.view, id), now)
  {
    var m := s.view[i];
    FindIs(s.view, m.id, i);
    StatusSetSound(c, s.view, m.id, DEAD, m.incarnation, now);
    LookupStatusSet(s.view, m.id, DEAD, m.incarnation, now, id);
  }

  lemma {:induction false} SuspectSlotsMove(c: Config, s: State, n: nat, now: nat, id: NodeId)
    requires Sound(c, s.view) && n <= |s.view|
    ensures var t := SuspectSlotsChecked(c, s, n, now);
            && Sound(c, t.view) && |t.view| == |s.view| && t.pending == s.pending && t.view[n..] == s.view[n..]
            && Expired(c, Lookup(s.view, id), Lookup(t.view, id), now)
            && Touched(Lookup(s.view, id), Lookup(t.view, id), now)
            && Rises(Lookup(s.view, id), Lookup(t.view, id))
  {
    hide SuspectSlotChecked, Sound, Lookup, Elapsed;
    if n > 0 {
      SuspectSlotsMove(c, s, n - 1, now, id);
      var t := SuspectSlotsChecked(c, s, n - 1, now);
      SuspectSlotMoves(c, t, n - 1, now, id);
      assert t.view[n..] == t.view[n - 1..][1..] == s.view[n - 1..][1..] == s.view[n..];
    }
  }

  // ---------------------------------------------------------------------------
  // One step of the engine
  // ---------------------------------------------------------------------------

  /** The incarnation at which a JOIN of id, or a WORKER_JOIN that describes id, has this node add id. */
  ghost function Joining(c: Config, s: State, step: Step, id: NodeId): Option<nat> {
    if !step.Receive? || step.msg.sender == c.myId then None
    else
      var msg := step.msg;
      if msg.msgType == MSG_JOIN && msg.sender == id && OwnUpdate(msg.updates, id) < |msg.updates|
      then Some(msg.updates[OwnUpdate(msg.updates, id)].incarnation)
      else if msg.msgType == MSG_WORKER_JOIN && c.myType == NODE_TYPE_ROUTER && |msg.updates| > 0
              && msg.updates[0].id == id
      then Some(JoinIncarnation(s.view, msg))
      else None
  }

  /** No update about id is newer than this incarnation. */
  ghost predicate NothingNewer(us: seq<Update>, id: NodeId, incarnation: nat) {
    forall i | 0 <= i < |us| && us[i].id == id :: us[i].incarnation <= incarnation
  }

  /** The steps that lower (incarnation, status) of id: an ACK from id while it is suspected that brings nothing
      newer about it, and a join that does not make up for the status it clears. A join over a DEAD entry
      is worth one incarnation more than it carries. */
  ghost predicate LowersPair(c: Config, s: State, step: Step, id: NodeId) {
    && Lookup(s.view, id).Some?
    && var e := Lookup(s.view, id).value;
       || (step.Receive? && step.msg.sender != c.myId && step.msg.msgType == MSG_ACK && step.msg.sender == id
           && e.status == SUSPECT && NothingNewer(step.msg.updates, id, e.incarnation))
       || match Joining(c, s, step, id)
          case None => false
          case Some(j) => if e.status == DEAD then j < e.incarnation else j == e.incarnation && e.status != ALIVE
  }

  /** The step writes id, if at all, as DEAD or at an incarnation of at most top. A JOIN and a WORKER_JOIN
      write the record they carry as ALIVE; LEAVE writes DEAD; other types and the node's own
      messages write nothing. */
  ghost predicate Gentle(c: Config, step: Step, id: NodeId, top: nat) {
    step.Receive? && step.msg.sender != c.myId ==>
      var msg := step.msg;
      if msg.msgType == MSG_JOIN then msg.sender != id || OwnUpdate(msg.updates, id) == |msg.updates|
      else if msg.msgType == MSG_WORKER_JOIN then
        c.myType != NODE_TYPE_ROUTER || |msg.updates| == 0 || msg.updates[0].id != id
      else forall i | 0 <= i < |msg.updates| :: Harmless(msg.msgType, msg.updates[i], id, top)
  }

  /** A join makes a known member ALIVE at the incarnation it carries, or at the next one over a DEAD entry,
      unless a live entry is ahead of it. */
  ghost predicate JoinEffect(e: Option<Member>, f: Option<Member>, joining: Option<nat>) {
    e.Some? ==>
      && f.Some?
      && match joining
         case None => f == e
         case Some(j) =>
           if e.value.status == DEAD then f.value.status == ALIVE && f.value.incarnation == j + 1
           else if j >= e.value.incarnation then f.value.status == ALIVE && f.value.incarnation == j
           else f == e
  }

  lemma JoinMoves(c: Config, s: State, msg: Message, srcIp: seq<Byte>, now: nat, id: NodeId)
    requires Sound(c, s.view) && msg.msgType == MSG_JOIN && msg.sender != c.myId
    ensures var t := Received(c, s, msg, srcIp, now);
            && Sound(c, t.view) && |s.view| <= |t.view| && t.pending == s.pending
            && Touched(Lookup(s.view, id), Lookup(t.view, id), now)
            && (Lookup(t.view, id) != Lookup(s.view, id) ==>
                      msg.sender == id && OwnUpdate(msg.updates, id) < |msg.updates|)
            && JoinEffect(Lookup(s.view, id), Lookup(t.view, id), Joining(c, s, Receive(msg, srcIp, now), id))
  {
    var i := OwnUpdate(msg.updates, msg.sender);
    if i < |msg.updates| {
      var u := msg.updates[i];
      var m := MemberOf(u.(ip := srcIp), ALIVE, u.incarnation, 0);
      LookupAdded(s.view, c.capacity, m, now, id);
      AddedSound(c, s.view, m, now);
    }
  }

  /** A worker that joins with its own record always rises, from any status. */
  lemma WorkerJoinMoves(c: Config, s: State, msg: Message, srcIp: seq<Byte>, now: nat, id: NodeId)
    requires Sound(c, s.view) && msg.msgType == MSG_WORKER_JOIN && msg.sender != c.myId
    ensures var t := Received(c, s, msg, srcIp, now);
            && Sound(c, t.view) && |s.view| <= |t.view| && t.pending == s.pending
            && Touched(Lookup(s.view, id), Lookup(t.view, id), now)
            && (Lookup(t.view, id) != Lookup(s.view, id) ==>
                  c.myType == NODE_TYPE_ROUTER && |msg.updates| > 0 && msg.updates[0].id == id)
            && JoinEffect(Lookup(s.view, id), Lookup(t.view, id), Joining(c, s, Receive(msg, srcIp, now), id))
            && (msg.sender == id ==> Rises(Lookup(s.view, id), Lookup(t.view, id)))
  {
    if c.myType == NODE_TYPE_ROUTER && |msg.updates| > 0 {
      var m := WorkerMember(s.view, msg, srcIp, now);
      LookupAdded(s.view, c.capacity, m, now, id);
      AddedSound(c, s.view, m, now);
    }
  }

  lemma SelfMoves(c: Config, s: State, step: Step, id: NodeId)
    requires Sound(c, s.view) && (step.RefreshSelf? || step.AnnounceJoin?)
    ensures var t := Next(c, s, step);
            && Sound(c, t.view) && |s.view| <= |t.view| && t.pending == s.pending
            && Touched(Lookup(s.view, id), Lookup(t.view, id), step.now)
            && (id != c.myId ==> Lookup(t.view, id) == Lookup(s.view, id))
  {
    match step
    case RefreshSelf(now) =>
      LookupRefreshed(s.view, c.myId, s.incarnation, now, id);
    case AnnounceJoin(now) =>
      var m := MemberOf(AliveUpdate(c, s.incarnation, now), ALIVE, s.incarnation, now);
      LookupAdded(s.view, c.capacity, m, now, id);
      AddedSound(c, s.view, m, now);
  }

  lemma AckUpdateOn(c: Config, s: State, u: Update, now: nat, id: NodeId)
    requires Sound(c, s.view) && Lookup(s.view, id).Some?
    ensures var e := Lookup(s.view, id).value;
            Lookup(Absorb(c, s, MSG_ACK, u, now).view, id)
            == Some(if u.id == id && u.incarnation > e.incarnation
                    then Restated(e, u.status, u.incarnation, now)
                    else e)
  {
    if Lookup(s.view, u.id).None? {
      LookupAdded(s.view, c.capacity, MemberOf(u, u.status, u.incarnation, now), now, id);
    } else {
      LookupStatusSet(s.view, u.id, u.status, u.incarnation, now, id);
    }
  }

  /** The updates of an ACK leave an entry as it is, or lift its incarnation when one of them is newer. */
  lemma {:induction false} AckUpdatesLift(c: Config, s: State, us: seq<Update>, now: nat, id: NodeId)
    requires Sound(c, s.view) && (forall i | 0 <= i < |us| :: us[i].status <= DEAD) && Lookup(s.view, id).Some?
    ensures var e, f := Lookup(s.view, id).value, Lookup(AbsorbAll(c, s, MSG_ACK, us, now).view, id);
            && f.Some? && f.value.incarnation >= e.incarnation
            && (if NothingNewer(us, id, e.incarnation) then f.value == e else f.value.incarnation > e.incarnation)
  {
    hide Absorb, Sound, Lookup;
    if |us| > 0 {
      var front, u := us[..|us| - 1], us[|us| - 1];
      AckUpdatesLift(c, s, front, now, id);
      AbsorbAllMoves(c, s, MSG_ACK, front, now, id, 0);
      AckUpdateOn(c, AbsorbAll(c, s, MSG_ACK, front, now), u, now, id);
      assert forall i | 0 <= i < |front| :: front[i] == us[i];
    }
  }

  /** An ACK lowers an entry exactly when it clears a suspicion of its sender and brings nothing newer. */
  ghost predicate AckEffect(e: Option<Member>, f: Option<Member>, msg: Message, id: NodeId) {
    e.Some? ==>
      && f.Some?
      && (Below(f.value, e.value) <==>
            msg.sender == id && e.value.status == SUSPECT && NothingNewer(msg.updates, id, e.value.incarnation))
  }

  lemma AckMoves(c: Config, s: State, msg: Message, srcIp: seq<Byte>, now: nat, id: NodeId, top: nat)
    requires Sound(c, s.view) && WellFormed(msg) && msg.sender != c.myId && msg.msgType == MSG_ACK
    ensures var t := Received(c, s, msg, srcIp, now);
            && Sound(c, t.view) && |s.view| <= |t.view|
            && Touched(Lookup(s.view, id), Lookup(t.view, id), now)
            && AckEffect(Lookup(s.view, id), Lookup(t.view, id), msg, id)
            && (Gentle(c, Receive(msg, srcIp, now), id, top) ==> StaysDead(Lookup(s.view, id), Lookup(t.view, id), top))
  {
    var r := s.(pending := PingAnswered(s.pending, msg.sender), view := Revived(s.view, msg.sender, now));
    RevivedMoves(c, s.view, msg.sender, now, id);
    AbsorbAllMoves(c, r, MSG_ACK, msg.updates, now, id, top);
    hide AbsorbAll, Sound, Lookup;
    if Lookup(s.view, id).Some? {
      AckUpdatesLift(c, r, msg.updates, now, id);
    }
  }

  /** What an accepted message of any kind but the two joins does to one entry. */
  lemma MessageMoves(c: Config, s: State, msg: Message, srcIp: seq<Byte>, now: nat, id: NodeId, top: nat)
    requires Sound(c, s.view) && WellFormed(msg) && msg.sender != c.myId
    requires msg.msgType != MSG_JOIN && msg.msgType != MSG_WORKER_JOIN
    ensures var t := Received(c, s, msg, srcIp, now);
            && Sound(c, t.view) && |s.view| <= |t.view|
            && Touched(Lookup(s.view, id), Lookup(t.view, id), now)
            && (msg.msgType == MSG_ACK ==> AckEffect(Lookup(s.view, id), Lookup(t.view, id), msg, id))
            && (msg.msgType != MSG_ACK ==> Rises(Lookup(s.view, id), Lookup(t.view, id)))
            && (Gentle(c, Receive(msg, srcIp, now), id, top) ==> StaysDead(Lookup(s.view, id), Lookup(t.view, id), top))
  {
    if msg.msgType == MSG_ACK {
      AckMoves(c, s, msg, srcIp, now, id, top);
    } else if msg.msgType in {MSG_PING, MSG_SUSPECT, MSG_ALIVE, MSG_DEAD} {
      AbsorbAllMoves(c, s, msg.msgType, msg.updates, now, id, top);
    } else if msg.msgType == MSG_LEAVE {
      SoundEntry(c, s.view, id);
      StatusSetSound(c, s.view, msg.sender, DEAD, msg.sequenceNum, now);
      LookupStatusSet(s.view, msg.sender, DEAD, msg.sequenceNum, now, id);
    }
  }

  lemma StepMoves(c: Config, s: State, step: Step, id: NodeId, top: nat)
    requires Sound(c, s.view) && (step.Receive? ==> WellFormed(step.msg))
    ensures var t := Next(c, s, step);
            && Sound(c, t.view) && |s.view| <= |t.view|
            && Touched(Lookup(s.view, id), Lookup(t.view, id), step.now)
            && (id != c.myId && Lookup(s.view, id).Some? ==>
                      (Below(Lookup(t.view, id).value, Lookup(s.view, id).value) <==> LowersPair(c, s, step, id)))
            && (id != c.myId && Gentle(c, step, id, top) ==> StaysDead(Lookup(s.view, id), Lookup(t.view, id), top))
  {
    match step
    case Receive(msg, srcIp, now) =>
      if msg.sender != c.myId {
        if msg.msgType == MSG_JOIN {
          JoinMoves(c, s, msg, srcIp, now, id);
        } else if msg.msgType == MSG_WORKER_JOIN {
          WorkerJoinMoves(c, s, msg, srcIp, now, id);
        } else {
          MessageMoves(c, s, msg, srcIp, now, id, top);
        }
      }
    case SendPing(target, sent, now) =>
    case AckTimeouts(now) => AckSlotsMove(c, s, |s.pending|, now, id);
    case SuspectTimeouts(now) => SuspectSlotsMove(c, s, |s.view|, now, id);
    case GossipRound(now) =>
    case RefreshSelf(now) => SelfMoves(c, s, step, id);
    case AnnounceJoin(now) => SelfMoves(c, s, step, id);
  }

  // ---------------------------------------------------------------------------
  // Runs: the view, the order, and death
  // ---------------------------------------------------------------------------

  /** In every reachable state the view is a bounded map, and no step of the engine drops an id. */
  lemma {:induction false} ViewStaysBoundedMap(c: Config, states: seq<State>, steps: seq<Step>, a: nat, b: nat)
    requires Run(c, states, steps) && a <= b < |states|
    ensures Sound(c, states[a].view) && Sound(c, states[b].view)
    ensures |AsMap(states[b].view)| == |states[b].view| <= c.capacity
    ensures AsMap(states[a].view).Keys <= AsMap(states[b].view).Keys
    decreases b
  {
    if b == 0 {
      MapSize(states[0].view);
    } else if a == b {
      ViewStaysBoundedMap(c, states, steps, b - 1, b - 1);
      StepMoves(c, states[b - 1], steps[b - 1], 0, 0);
      MapSize(states[b].view);
    } else {
      ViewStaysBoundedMap(c, states, steps, a, b - 1);
      StepMoves(c, states[b - 1], steps[b - 1], 0, 0);
      MapSize(states[b].view);
      forall id | id in AsMap(states[a].view)
        ensures id in AsMap(states[b].view)
      {
        LookupAsMap(states[b - 1].view, id);
        StepMoves(c, states[b - 1], steps[b - 1], id, 0);
        LookupAsMap(states[b].view, id);
      }
    }
  }

  lemma SoundInRun(c: Config, states: seq<State>, steps: seq<Step>, k: nat)
    requires Run(c, states, steps) && k < |states|
    ensures Sound(c, states[k].view)
  {
    hide Run, Sound;
    ViewStaysBoundedMap(c, states, steps, k, k);
  }

  /** Exactly which steps lower the pair: every other step of the engine, at any clock, keeps or raises it. */
  lemma StepLowersPairIff(c: Config, s: State, step: Step, id: NodeId)
    requires Sound(c, s.view) && (step.Receive? ==> WellFormed(step.msg)) && id != c.myId
    requires Lookup(s.view, id).Some?
    ensures Lookup(Next(c, s, step).view, id).Some?
    ensures Below(Lookup(Next(c, s, step).view, id).value, Lookup(s.view, id).value) <==> LowersPair(c, s, step, id)
  {
    StepMoves(c, s, step, id, 0);
  }

  /** Between two states of a run, (incarnation, status) of a member other than this node goes down
      only if one of the steps in between lowers it. */
  lemma {:induction false} RunKeepsOrder(c: Config, states: seq<State>, steps: seq<Step>, a: nat, b: nat, id: NodeId)
    requires Run(c, states, steps) && a <= b < |states| && id != c.myId
    requires Lookup(states[a].view, id).Some?
    requires forall k | a <= k < b :: !LowersPair(c, states[k], steps[k], id)
    ensures Lookup(states[b].view, id).Some?
    ensures !Below(Lookup(states[b].view, id).value, Lookup(states[a].view, id).value)
    decreases b
  {
    hide Run, Next, Sound, Lookup, WellFormed, LowersPair;
    if a < b {
      RunKeepsOrder(c, states, steps, a, b - 1, id);
      StepOfRun(c, states, steps, b - 1);
      SoundInRun(c, states, steps, b - 1);
      StepLowersPairIff(c, states[b - 1], steps[b - 1], id);
    }
  }

  /** The exact step that lowers an incarnation: a join whose record, bumped once, is still behind a DEAD entry. */
  lemma StepLowersIncarnationIff(c: Config, s: State, step: Step, id: NodeId)
    requires Sound(c, s.view) && (step.Receive? ==> WellFormed(step.msg)) && id != c.myId
    requires Lookup(s.view, id).Some?
    ensures Lookup(Next(c, s, step).view, id).Some?
    ensures var e := Lookup(s.view, id).value;
            Lookup(Next(c, s, step).view, id).value.incarnation < e.incarnation
            <==> match Joining(c, s, step, id)
                 case None => false
                 case Some(j) => e.status == DEAD && j + 1 < e.incarnation
  {
    StepMoves(c, s, step, id, 0);
    if step.Receive? && step.msg.sender != c.myId {
      var msg := step.msg;
      hide Received, Sound, Lookup;
      if msg.msgType == MSG_JOIN {
        JoinMoves(c, s, msg, step.srcIp, step.now, id);
      } else if msg.msgType == MSG_WORKER_JOIN {
        WorkerJoinMoves(c, s, msg, step.srcIp, step.now, id);
      } else if msg.msgType == MSG_ACK {
        AckKeepsIncarnation(c, s, msg, step.srcIp, step.now, id);
      }
    }
  }

  lemma AckKeepsIncarnation(c: Config, s: State, msg: Message, srcIp: seq<Byte>, now: nat, id: NodeId)
    requires Sound(c, s.view) && WellFormed(msg) && msg.sender != c.myId && msg.msgType == MSG_ACK
    requires Lookup(s.view, id).Some?
    ensures var f := Lookup(Received(c, s, msg, srcIp, now).view, id);
            f.Some? && f.value.incarnation >= Lookup(s.view, id).value.incarnation
  {
    RevivedMoves(c, s.view, msg.sender, now, id);
    AckUpdatesLift(c, s.(pending := PingAnswered(s.pending, msg.sender), view := Revived(s.view, msg.sender, now)),
                   msg.updates, now, id);
  }

  /** Once DEAD at incarnation i, a member stays DEAD through any run of messages and timers
      that never writes it, other than as DEAD, at an incarnation above i. */
  lemma {:induction false} DeadStaysDead(c: Config, states: seq<State>, steps: seq<Step>, a: nat, b: nat, id: NodeId)
    requires Run(c, states, steps) && a <= b < |states| && id != c.myId
    requires Lookup(states[a].view, id).Some? && Lookup(states[a].view, id).value.status == DEAD
    requires forall k | a <= k < b :: Gentle(c, steps[k], id, Lookup(states[a].view, id).value.incarnation)
    ensures Lookup(states[b].view, id).Some? && Lookup(states[b].view, id).value.status == DEAD
    ensures Lookup(states[b].view, id).value.incarnation >= Lookup(states[a].view, id).value.incarnation
    decreases b
  {
    hide Run, Next, Sound, Lookup, WellFormed, LowersPair, Gentle;
    if a < b {
      DeadStaysDead(c, states, steps, a, b - 1, id);
      StepOfRun(c, states, steps, b - 1);
      SoundInRun(c, states, steps, b - 1);
      StepMoves(c, states[b - 1], steps[b - 1], id, Lookup(states[a].view, id).value.incarnation);
    }
  }

  lemma AliveUpdateOn(c: Config, s: State, u: Update, now: nat, id: NodeId)
    requires Sound(c, s.view) && Lookup(s.view, id).Some?
    ensures var e := Lookup(s.view, id).value;
            Lookup(Absorb(c, s, MSG_ALIVE, u, now).view, id)
            == Some(if u.id == id && u.incarnation > e.incarnation then Restated(e, ALIVE, u.incarnation, now) else e)
  {
    LookupStatusSet(s.view, u.id, ALIVE, u.incarnation, now, id);
  }

  /** An ALIVE message leaves a DEAD member dead exactly when none of its updates for it, of
      whatever status, carries a higher incarnation. */
  lemma {:induction false} AliveMessageKeepsDeadIff(c: Config, s: State, us: seq<Update>, now: nat, id: NodeId)
    requires Sound(c, s.view) && (forall i | 0 <= i < |us| :: us[i].status <= DEAD)
    requires Lookup(s.view, id).Some? && Lookup(s.view, id).value.status == DEAD
    ensures var e, f := Lookup(s.view, id).value, Lookup(AbsorbAll(c, s, MSG_ALIVE, us, now).view, id);
            && f.Some? && f.value.incarnation >= e.incarnation
            && ((forall i | 0 <= i < |us| && us[i].id == id :: us[i].incarnation <= e.incarnation) ==> f.value == e)
            && (!(forall i | 0 <= i < |us| && us[i].id == id :: us[i].incarnation <= e.incarnation) ==>
                      f.value.status == ALIVE)
  {
    hide Absorb, Sound, Lookup;
    if |us| > 0 {
      var front, u := us[..|us| - 1], us[|us| - 1];
      AliveMessageKeepsDeadIff(c, s, front, now, id);
      AbsorbAllMoves(c, s, MSG_ALIVE, front, now, id, 0);
      AliveUpdateOn(c, AbsorbAll(c, s, MSG_ALIVE, front, now), u, now, id);
      assert forall i | 0 <= i < |front| :: front[i] == us[i];
    }
  }

  /** Relayed in an ALIVE message, even news of a death at a higher incarnation revives the dead. */
  lemma DeathNewsCanRevive()
    ensures exists c: Config, s: State, u: Update, now: nat ::
              && Sound(c, s.view) && u.status == DEAD && u.id != c.myId
              && Lookup(s.view, u.id).Some? && Lookup(s.view, u.id).value.status == DEAD
              && Lookup(Absorb(c, s, MSG_ALIVE, u, now).view, u.id).Some?
              && Lookup(Absorb(c, s, MSG_ALIVE, u, now).view, u.id).value.status == ALIVE
  {
    var c := Config(1, NODE_TYPE_ROUTER, [], 0, 0, 4, 500, 5000, 3, 10);
    var m := Member(2, NODE_TYPE_WORKER, [], 0, 0, DEAD, 0, 3);
    var s := State([m], [], [], 0, 0);
    var u := Update(2, NODE_TYPE_WORKER, [], 0, 0, DEAD, 4, 0);
    LookupStatusSet(s.view, 2, ALIVE, 4, 9, 2);
    assert Lookup(s.view, 2) == Some(m);
    assert Lookup(Absorb(c, s, MSG_ALIVE, u, 9).view, 2).value.status == ALIVE;
  }

  // ---------------------------------------------------------------------------
  // Runs: how long a local failure takes
  // ---------------------------------------------------------------------------

  /** Handlers of messages touch the pending table only to clear the slot an ACK answers. */
  lemma ReceivedPending(c: Config, s: State, msg: Message, srcIp: seq<Byte>, now: nat)
    requires Sound(c, s.view) && WellFormed(msg)
    ensures Received(c, s, msg, srcIp, now).pending ==
            if msg.msgType == MSG_ACK && msg.sender != c.myId then PingAnswered(s.pending, msg.sender) else s.pending
  {
    if msg.msgType == MSG_ACK {
      RevivedMoves(c, s.view, msg.sender, now, 0);
      AbsorbAllMoves(c, s.(pending := PingAnswered(s.pending, msg.sender), view := Revived(s.view, msg.sender, now)),
                     MSG_ACK, msg.updates, now, 0, 0);
    } else {
      AbsorbAllMoves(c, s, msg.msgType, msg.updates, now, 0, 0);
    }
  }

  /** A slot of the pending table is kept, cleared, or filled by a ping at this instant. */
  ghost predicate SlotMoves(p: PendingAck, q: PendingAck, step: Step) {
    || q == p
    || !q.active
    || (step.SendPing? && step.sent && q == PendingAck(step.target, step.now, true))
  }

  lemma PendingStep(c: Config, s: State, step: Step)
    requires Sound(c, s.view) && (step.Receive? ==> WellFormed(step.msg))
    ensures |Next(c, s, step).pending| == |s.pending|
    ensures forall slot | 0 <= slot < |s.pending| :: SlotMoves(s.pending[slot], Next(c, s, step).pending[slot], step)
  {
    match step
    case Receive(msg, srcIp, now) => ReceivedPending(c, s, msg, srcIp, now);
    case AckTimeouts(now) => AckSlotsClear(c, s, |s.pending|, now);
    case SuspectTimeouts(now) => SuspectSlotsMove(c, s, |s.view|, now, 0);
    case SendPing(target, sent, now) =>
    case GossipRound(now) =>
    case RefreshSelf(now) =>
    case AnnounceJoin(now) =>
  }

  lemma {:induction false} AckSlotsClear(c: Config, s: State, n: nat, now: nat)
    requires n <= |s.pending|
    ensures var t := AckSlotsChecked(c, s, n, now);
            forall slot | 0 <= slot < |s.pending| :: t.pending[slot] == s.pending[slot] || !t.pending[slot].active
  {
    if n > 0 {
      AckSlotsClear(c, s, n - 1, now);
    }
  }

  lemma StepOfRun(c: Config, states: seq<State>, steps: seq<Step>, k: nat)
    requires Run(c, states, steps) && k < |states| - 1
    ensures |states| == |steps| + 1 && states[k + 1] == Next(c, states[k], steps[k])
    ensures steps[k].Receive? ==> WellFormed(steps[k].msg)
  {
    hide Next, WellFormed;
  }

  lemma StartsIdle(c: Config, states: seq<State>, steps: seq<Step>, slot: nat)
    requires Run(c, states, steps) && slot < |states[0].pending|
    ensures !states[0].pending[slot].active
  {
    hide Next, WellFormed, Sound;
  }

  /** An active slot was filled by a ping that was sent earlier and has been unmatched ever since. */
  lemma {:induction false} PendingHistory(c: Config, states: seq<State>, steps: seq<Step>, n: nat,
            slot: nat) returns (r: nat)
    requires Run(c, states, steps) && n < |states| && slot < |states[n].pending| && states[n].pending[slot].active
    ensures r < n && Unmatched(states, steps, r, n, slot)
  {
    hide Next, Sound, Run, WellFormed, Unmatched;
    if n == 0 {
      StartsIdle(c, states, steps, slot);
      assert false;
    }
    StepOfRun(c, states, steps, n - 1);
    SoundInRun(c, states, steps, n - 1);
    PendingStep(c, states[n - 1], steps[n - 1]);
    if states[n].pending[slot] == states[n - 1].pending[slot] {
      r := PendingHistory(c, states, steps, n - 1, slot);
      UnmatchedLasts(states, steps, r, n, slot);
    } else {
      r := n - 1;
      UnmatchedBegins(states, steps, n, slot);
    }
  }

  lemma UnmatchedBegins(states: seq<State>, steps: seq<Step>, n: nat, slot: nat)
    requires 0 < n < |states| == |steps| + 1 && slot < |states[n].pending|
    requires steps[n - 1].SendPing? && steps[n - 1].sent
    requires states[n].pending[slot] == PendingAck(steps[n - 1].target, steps[n - 1].now, true)
    ensures Unmatched(states, steps, n - 1, n, slot)
  {
  }

  lemma UnmatchedLasts(states: seq<State>, steps: seq<Step>, r: nat, n: nat, slot: nat)
    requires 0 < n < |states| && r < n - 1 && Unmatched(states, steps, r, n - 1, slot)
    requires slot < |states[n].pending| && states[n].pending[slot] == states[n - 1].pending[slot]
    ensures Unmatched(states, steps, r, n, slot)
  {
    assert states[n - 1].pending[slot] == PendingAck(steps[r].target, steps[r].now, true);
  }

  /** Step r sends a ping whose record sits in the slot, unanswered, in every state up to n. */
  ghost predicate Unmatched(states: seq<State>, steps: seq<Step>, r: nat, n: nat, slot: nat) {
    && r < |steps| && n < |states|
    && steps[r].SendPing? && steps[r].sent
    && forall k | r < k <= n :: slot < |states[k].pending|
              && states[k].pending[slot] == PendingAck(steps[r].target, steps[r].now, true)
  }

  lemma ClockOfRun(c: Config, states: seq<State>, steps: seq<Step>, n: nat, id: NodeId)
    requires Run(c, states, steps) && n < |steps|
    ensures |states| == |steps| + 1 && (n > 0 ==> steps[n - 1].now <= steps[n].now)
    ensures Lookup(states[0].view, id).Some? ==> Lookup(states[0].view, id).value.lastSeen <= steps[n].now
  {
    hide Next, WellFormed, Find;
  }

  /** No last_seen_ms lies ahead of the clock. */
  lemma {:induction false} ClockAhead(c: Config, states: seq<State>, steps: seq<Step>, n: nat, id: NodeId)
    requires Run(c, states, steps) && n < |steps|
    ensures Lookup(states[n].view, id).Some? ==> Lookup(states[n].view, id).value.lastSeen <= steps[n].now
  {
    hide Run, Next, Sound, Lookup, WellFormed, LowersPair, Gentle;
    ClockOfRun(c, states, steps, n, id);
    if n > 0 {
      StepOfRun(c, states, steps, n - 1);
      ClockAhead(c, states, steps, n - 1, id);
      SoundInRun(c, states, steps, n - 1);
      StepMoves(c, states[n - 1], steps[n - 1], id, 0);
    }
  }

  ghost function StatusAt(s: State, id: NodeId): Option<Status> {
    match Lookup(s.view, id) case None => None case Some(m) => Some(m.status)
  }

  ghost function SeenAt(s: State, id: NodeId): nat {
    match Lookup(s.view, id) case None => 0 case Some(m) => m.lastSeen
  }

  /** From step p on, up to state b, the entry is SUSPECT and was not seen before step p. */
  ghost predicate SuspectedSince(states: seq<State>, steps: seq<Step>, id: NodeId, p: nat, b: nat) {
    && p < b < |states| == |steps| + 1
    && forall k | p < k <= b ::
         && StatusAt(states[k], id) == Some(SUSPECT)
         && SeenAt(states[k], id) >= steps[p].now
  }

  ghost predicate SuspectingStep(c: Config, states: seq<State>, steps: seq<Step>, id: NodeId, p: nat) {
    && p < |steps| < |states|
    && steps[p].AckTimeouts?
    && exists slot :: 0 <= slot < |states[p].pending| && TimedOut(c, states[p].pending[slot], id, steps[p].now)
  }

  ghost predicate KillingStep(c: Config, steps: seq<Step>, p: nat, q: nat) {
    && p < q < |steps|
    && steps[q].SuspectTimeouts?
    && steps[q].now - steps[p].now > c.deadTimeout
  }

  /** Step k, unless it is one of the two timers, leaves the status of the member alone. */
  ghost predicate StatusLeft(states: seq<State>, steps: seq<Step>, id: NodeId, k: nat) {
    && k < |steps| && k + 1 < |states|
    && (!steps[k].AckTimeouts? && !steps[k].SuspectTimeouts? ==> StatusAt(states[k + 1], id) == StatusAt(states[k], id))
  }

  /** One step of a decline in which messages leave the status alone. */
  lemma DeclineStep(c: Config, states: seq<State>, steps: seq<Step>, k: nat, id: NodeId)
    requires Run(c, states, steps) && k < |steps| && id != c.myId
    requires StatusLeft(states, steps, id, k)
    ensures StatusAt(states[k], id) == Some(ALIVE) ==>
              || StatusAt(states[k + 1], id) == Some(ALIVE)
              || (StatusAt(states[k + 1], id) == Some(SUSPECT) && SuspectingStep(c, states, steps, id, k)
                  && SeenAt(states[k + 1], id) >= steps[k].now)
    ensures StatusAt(states[k], id) == Some(SUSPECT) ==>
              || (StatusAt(states[k + 1], id) == Some(SUSPECT) && SeenAt(states[k + 1], id) >= SeenAt(states[k], id))
              || (StatusAt(states[k + 1], id) == Some(DEAD) && steps[k].SuspectTimeouts?
                  && steps[k].now - SeenAt(states[k], id) > c.deadTimeout)
    ensures StatusAt(states[k], id) == Some(DEAD) ==> StatusAt(states[k + 1], id) == Some(DEAD)
  {
    var s, step := states[k], steps[k];
    SoundInRun(c, states, steps, k);
    ClockAhead(c, states, steps, k, id);
    if step.AckTimeouts? {
      AckSlotsMove(c, s, |s.pending|, step.now, id);
    } else if step.SuspectTimeouts? {
      SuspectSlotsMove(c, s, |s.view|, step.now, id);
    } else {
      StepMoves(c, s, step, id, 0);
    }
  }

  lemma SuspicionLasts(states: seq<State>, steps: seq<Step>, id: NodeId, p: nat, b: nat)
    requires b < |states| == |steps| + 1
    requires StatusAt(states[b], id) == Some(SUSPECT)
    requires || (p + 1 == b && SeenAt(states[b], id) >= steps[p].now)
             || (p < b - 1 && SuspectedSince(states, steps, id, p, b - 1)
                       && SeenAt(states[b], id) >= SeenAt(states[b - 1], id))
    ensures SuspectedSince(states, steps, id, p, b)
  {
    hide StatusAt, SeenAt;
  }

  lemma SuspicionKills(c: Config, states: seq<State>, steps: seq<Step>, id: NodeId, p: nat, q: nat)
    requires q < |steps| && SuspectedSince(states, steps, id, p, q) && steps[q].SuspectTimeouts?
    requires steps[q].now - SeenAt(states[q], id) > c.deadTimeout
    ensures KillingStep(c, steps, p, q)
  {
  }

  /** While only timers change its status, a member is ALIVE, or SUSPECT since an ACK timeout,
      or DEAD since a suspicion timeout that followed. */
  lemma {:induction false} LocalDecline(c: Config, states: seq<State>, steps: seq<Step>, a: nat, b: nat, id: NodeId)
      returns (p: nat, q: nat)
    requires Run(c, states, steps) && a <= b < |states| && id != c.myId
    requires StatusAt(states[a], id) == Some(ALIVE)
    requires forall k: nat | a <= k < b :: StatusLeft(states, steps, id, k)
    ensures || StatusAt(states[b], id) == Some(ALIVE)
            || (a <= p && SuspectingStep(c, states, steps, id, p) && SuspectedSince(states, steps, id, p, b)
                && StatusAt(states[b], id) == Some(SUSPECT))
            || (a <= p && SuspectingStep(c, states, steps, id, p) && SuspectedSince(states, steps, id, p, q)
                && KillingStep(c, steps, p, q) && StatusAt(states[b], id) == Some(DEAD))
    decreases b
  {
    p, q := 0, 0;
    assert |states| == |steps| + 1;
    if a < b {
      hide Run, StatusAt, SeenAt, SuspectingStep, SuspectedSince, KillingStep, StatusLeft;
      p, q := LocalDecline(c, states, steps, a, b - 1, id);
      DeclineStep(c, states, steps, b - 1, id);
      if StatusAt(states[b - 1], id) == Some(ALIVE) {
        p := b - 1;
        if StatusAt(states[b], id) == Some(SUSPECT) {
          SuspicionLasts(states, steps, id, p, b);
        }
      } else if StatusAt(states[b - 1], id) == Some(SUSPECT) {
        SinceIsBefore(states, steps, id, p, b - 1);
        if StatusAt(states[b], id) == Some(SUSPECT) {
          SuspicionLasts(states, steps, id, p, b);
        } else {
          q := b - 1;
          SuspicionKills(c, states, steps, id, p, q);
        }
      }
    }
  }

  lemma SinceIsBefore(states: seq<State>, steps: seq<Step>, id: NodeId, p: nat, b: nat)
    requires SuspectedSince(states, steps, id, p, b)
    ensures p < b
  {
  }

  /** A member that goes from ALIVE to DEAD through local timers alone had a recorded ping that
      stayed unmatched for more than the ACK timeout, and was then SUSPECT without a break
      for more than the dead timeout. */
  lemma LocalFailureTiming(c: Config, states: seq<State>, steps: seq<Step>, a: nat, b: nat, id: NodeId)
      returns (r: nat, slot: nat, p: nat, q: nat)
    requires Run(c, states, steps) && a <= b < |states| && id != c.myId
    requires StatusAt(states[a], id) == Some(ALIVE) && StatusAt(states[b], id) == Some(DEAD)
    requires forall k: nat | a <= k < b :: StatusLeft(states, steps, id, k)
    ensures r < p < q < |steps| && a <= p
    ensures Unmatched(states, steps, r, p, slot) && steps[r].target == id
    ensures steps[p].AckTimeouts? && steps[p].now - steps[r].now > c.ackTimeout
    ensures forall k | p < k <= q :: StatusAt(states[k], id) == Some(SUSPECT)
    ensures steps[q].SuspectTimeouts? && steps[q].now - steps[p].now > c.deadTimeout
  {
    p, q := LocalDecline(c, states, steps, a, b, id);
    slot :| 0 <= slot < |states[p].pending| && TimedOut(c, states[p].pending[slot], id, steps[p].now);
    r := PendingHistory(c, states, steps, p, slot);
    assert steps[r].now <= steps[p].now;
  }

  /** When one suspicion check kills, for any two 64-bit clock values. With last_seen_ms at or behind the clock
      reading, exactly after the dead timeout. With last_seen_ms ahead of it, which takes a reading from
      before the lock, the unsigned difference wraps: a member suspected a moment ago is dead at once. */
  lemma StaleClockKillsIff(c: Config, s: State, i: nat, now: nat)
    requires Sound(c, s.view) && i < |s.view| && s.view[i].status == SUSPECT
    requires now < TWO_TO_THE_64 && s.view[i].lastSeen < TWO_TO_THE_64
    ensures var killed := StatusAt(SuspectSlotChecked(c, s, i, now), s.view[i].id) == Some(DEAD);
            var seen := s.view[i].lastSeen;
            && (killed <==> if seen <= now then now - seen > c.deadTimeout
                            else seen - now < TWO_TO_THE_64 - c.deadTimeout)
            && (c.deadTimeout < TWO_TO_THE_32 && seen < now + TWO_TO_THE_32 ==>
                  (killed <==> now < seen || now - seen > c.deadTimeout))
  {
    var m := s.view[i];
    assert now < m.lastSeen ==> Elapsed(now, m.lastSeen) == now - m.lastSeen + TWO_TO_THE_64;
    FindIs(s.view, m.id, i);
    LookupStatusSet(s.view, m.id, DEAD, m.incarnation, now, m.id);
  }

  /** How a run of lock acquisitions gets there: the timer reads the clock, an ALIVE member is then suspected
      at a later reading, and the check that follows kills it, for any two readings less than 49 days apart. */
  lemma StaleReadKills(c: Config, s: State, i: nat, now: nat, at: nat)
    requires Sound(c, s.view) && i < |s.view| && s.view[i].status == ALIVE && s.view[i].lastSeen <= now
    requires c.deadTimeout < TWO_TO_THE_32 && now < at < now + TWO_TO_THE_32 && at < TWO_TO_THE_64
    ensures var m := s.view[i];
            var v := Apply(s.view, c.capacity, StatusOp(m.id, SUSPECT, m.incarnation, at));
            && i < |v| && v[i] == m.(status := SUSPECT, lastSeen := at)
            && StatusAt(SuspectSlotChecked(c, s.(view := v), i, now), m.id) == Some(DEAD)
  {
    var m := s.view[i];
    FindIs(s.view, m.id, i);
    StatusSetSound(c, s.view, m.id, SUSPECT, m.incarnation, at);
    StaleClockKillsIff(c, s.(view := StatusSet(s.view, m.id, SUSPECT, m.incarnation, at)), i, now);
  }
}
