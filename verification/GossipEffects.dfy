// What each message and timer of the gossip engine brings about: in the entry it is about, and in the news
// that the node passes on.

module GossipEffects {
  import opened Bytes
  import opened Common
  import opened Membership
  import opened Nodes
  import opened Gossip
  import opened GossipRuns
  import opened PendingPings
  import opened Selection

  // ---------------------------------------------------------------------------
  // Entries and news
  // ---------------------------------------------------------------------------

  /** The entry holds what the update tells, field by field. */
  ghost predicate TakenFrom(m: Member, u: Update, status: Status, incarnation: nat, now: nat) {
    && m.id == u.id && m.nodeType == u.nodeType && m.ip == Truncated(u.ip, MAX_IP_LEN)
    && m.gossipPort == u.gossipPort && m.dataPort == u.dataPort
    && m.status == status && m.incarnation == incarnation && m.lastSeen == now
  }

  ghost function Copies(u: Update, n: nat): seq<Update> {
    seq(n, _ => u)
  }

  lemma {:induction false} PushTimesCapped(q: seq<Update>, u: Update, n: nat)
    requires |q| <= MAX_UPDATE_QUEUE
    ensures PushTimes(q, u, n) == Capped(q + Copies(u, n))
  {
    if n == 0 {
      assert q + Copies(u, 0) == q;
    } else {
      PushTimesCapped(q, u, n - 1);
      PushCapped(q + Copies(u, n - 1), u);
      assert q + Copies(u, n) == q + Copies(u, n - 1) + [u];
    }
  }

  /** A member that a PING or an ACK tells of for the first time is admitted as described, while there is room. */
  lemma DiscoveredAsDescribed(c: Config, s: State, kind: Byte, u: Update, now: nat, id: NodeId)
    requires Sound(c, s.view) && kind in {MSG_PING, MSG_ACK} && Lookup(s.view, u.id).None?
    ensures var f := Lookup(Absorb(c, s, kind, u, now).view, id);
            if id != u.id then f == Lookup(s.view, id)
            else if |s.view| < c.capacity then f.Some? && TakenFrom(f.value, u, u.status, u.incarnation, now)
            else f.None?
  {
    LookupAdded(s.view, c.capacity, MemberOf(u, u.status, u.incarnation, now), now, id);
  }

  /** So what one node knows of a member is what another learns from its piggyback. */
  lemma NewsTravels(c: Config, v: seq<Member>, limit: nat, now: nat, i: nat,
                    d: Config, t: State, kind: Byte, later: nat)
      returns (k: nat)
    requires i < |v| && i < limit && v[i].id != c.myId && v[i].status != DEAD && |v[i].ip| < MAX_IP_LEN
    requires Sound(d, t.view) && |t.view| < d.capacity && kind in {MSG_PING, MSG_ACK} && Lookup(t.view, v[i].id).None?
    ensures k < |Piggyback(c, v, limit, now)|
    ensures Lookup(Absorb(d, t, kind, Piggyback(c, v, limit, now)[k], later).view, v[i].id)
         == Some(v[i].(lastSeen := later))
  {
    PiggybackPicked(c, v, limit, now);
    k := Rank(v, Outside({c.myId}), i);
    var u := Piggyback(c, v, limit, now)[k];
    hide Piggyback, Rank;
    DiscoveredAsDescribed(d, t, kind, u, later, v[i].id);
  }

  /** A dead member that a PING tells of as ALIVE at a later incarnation is admitted again, with its new address. */
  lemma RejoinTakesRecord(c: Config, s: State, u: Update, now: nat)
    requires Sound(c, s.view) && u.status == ALIVE && StatusAt(s, u.id) == Some(DEAD)
    requires u.incarnation > Lookup(s.view, u.id).value.incarnation
    ensures var f := Lookup(Absorb(c, s, MSG_PING, u, now).view, u.id);
            f.Some? && TakenFrom(f.value, u, ALIVE, u.incarnation + 1, now)
  {
    LookupAdded(s.view, c.capacity, MemberOf(u, ALIVE, u.incarnation, now), now, u.id);
  }

  /** An update in a PING or an ACK about a known member is taken exactly when it is newer, but for a rejoin; the
      address stays, and last_seen_ms moves only to ALIVE, or from ALIVE to SUSPECT. */
  lemma NewerIsTaken(c: Config, s: State, kind: Byte, u: Update, now: nat, id: NodeId)
    requires Sound(c, s.view) && kind in {MSG_PING, MSG_ACK} && Lookup(s.view, id).Some? && Lookup(s.view, u.id).Some?
    requires kind == MSG_PING ==> !(StatusAt(s, u.id) == Some(DEAD) && u.status == ALIVE)
    ensures var e := Lookup(s.view, id).value;
            Lookup(Absorb(c, s, kind, u, now).view, id)
            == Some(if id == u.id && u.incarnation > e.incarnation
                    then e.(status := u.status, incarnation := u.incarnation,
                            lastSeen := if u.status == ALIVE || (u.status == SUSPECT && e.status == ALIVE) then now
                                        else e.lastSeen)
                    else e)
  {
    LookupStatusSet(s.view, u.id, u.status, u.incarnation, now, id);
  }

  /** News about others is passed on exactly when it changed the entry it is about, except that what a PING
      changes, but for a discovery, and what an ACK or a DEAD message changes, is not. */
  lemma RelayedIffAccepted(c: Config, s: State, kind: Byte, u: Update, now: nat)
    requires Sound(c, s.view) && u.id != c.myId && |s.queue| <= MAX_UPDATE_QUEUE
    ensures var t := Absorb(c, s, kind, u, now);
            var changed := Lookup(t.view, u.id) != Lookup(s.view, u.id);
            t.queue == Capped(s.queue + if kind == MSG_PING && Lookup(s.view, u.id).None? then [u.(timestamp := now)]
                                        else if kind in {MSG_SUSPECT, MSG_ALIVE} && changed then [u]
                                        else [])
  {
    NoNews(s.queue);
    PushCapped(s.queue, u);
    PushCapped(s.queue, u.(timestamp := now));
    if Lookup(s.view, u.id).Some? {
      LookupStatusSet(s.view, u.id, SUSPECT, u.incarnation, now, u.id);
      LookupStatusSet(s.view, u.id, ALIVE, u.incarnation, now, u.id);
    }
  }

  // ---------------------------------------------------------------------------
  // Whole messages about a known member
  // ---------------------------------------------------------------------------

  /** One of the first n updates is about id, not older than this incarnation, and qualifies. */
  ghost predicate Heard(us: seq<Update>, n: nat, id: NodeId, incarnation: nat, anyStatus: bool)
    requires n <= |us|
  {
    exists i ::
      0 <= i < n && us[i].id == id && us[i].incarnation >= incarnation && (anyStatus || us[i].status == SUSPECT)
  }

  lemma HeardOneMore(us: seq<Update>, n: nat, id: NodeId, incarnation: nat, anyStatus: bool)
    requires n < |us|
    ensures Heard(us, n + 1, id, incarnation, anyStatus)
       <==> Heard(us, n, id, incarnation, anyStatus)
            || (us[n].id == id && us[n].incarnation >= incarnation && (anyStatus || us[n].status == SUSPECT))
  {
    if Heard(us, n, id, incarnation, anyStatus) {
      var i :| 0 <= i < n && us[i].id == id && us[i].incarnation >= incarnation
               && (anyStatus || us[i].status == SUSPECT);
      assert 0 <= i < n + 1;
    }
  }

  /** No update about id among the first n is newer than f, and f's incarnation is e's or that of one of them. */
  ghost predicate Newest(us: seq<Update>, n: nat, id: NodeId, e: Member, f: Member)
    requires n <= |us|
  {
    && (forall i | 0 <= i < n && us[i].id == id :: us[i].incarnation <= f.incarnation)
    && (f.incarnation == e.incarnation
        || exists i :: 0 <= i < n && us[i].id == id && us[i].incarnation == f.incarnation)
  }

  lemma NewestOneMore(us: seq<Update>, n: nat, id: NodeId, e: Member, f: Member, g: Member)
    requires n < |us| && Newest(us, n, id, e, f) && f.incarnation <= g.incarnation
    requires us[n].id == id ==> g.incarnation == (if us[n].incarnation > f.incarnation then us[n].incarnation
                                                  else f.incarnation)
    requires us[n].id != id ==> g.incarnation == f.incarnation
    ensures Newest(us, n + 1, id, e, g)
  {
    if g.incarnation == f.incarnation && f.incarnation != e.incarnation {
      var i :| 0 <= i < n && us[i].id == id && us[i].incarnation == f.incarnation;
      assert 0 <= i < n + 1;
    }
  }

  ghost predicate Died(us: seq<Update>, n: nat, id: NodeId, e: Member, f: Member)
    requires n <= |us|
  {
    if Heard(us, n, id, e.incarnation, true)
    then f == e.(status := DEAD, incarnation := f.incarnation) && e.incarnation <= f.incarnation
         && Newest(us, n, id, e, f)
    else f == e
  }

  lemma DiesOneMore(us: seq<Update>, n: nat, id: NodeId, e: Member, f: Member, g: Member, now: nat)
    requires n < |us| && Died(us, n, id, e, f)
    requires g == if us[n].id == id then Restated(f, DEAD, us[n].incarnation, now) else f
    ensures Died(us, n + 1, id, e, g)
  {
    HeardOneMore(us, n, id, e.incarnation, true);
    if Heard(us, n, id, e.incarnation, true) {
      NewestOneMore(us, n, id, e, f, g);
    } else if us[n].id == id {
      forall i | 0 <= i < n && us[i].id == id
        ensures us[i].incarnation < e.incarnation
      {
      }
    }
  }

  lemma {:induction false} DeadUpdatesKill(c: Config, s: State, us: seq<Update>, n: nat, now: nat, id: NodeId)
    requires Sound(c, s.view) && n <= |us| && Lookup(s.view, id).Some?
    ensures var t := AbsorbAll(c, s, MSG_DEAD, us[..n], now);
            && Sound(c, t.view) && Lookup(t.view, id).Some?
            && Died(us, n, id, Lookup(s.view, id).value, Lookup(t.view, id).value)
  {
    hide Died, Sound, Lookup;
    if n == 0 {
      NobodyDied(us, id, Lookup(s.view, id).value);
    } else {
      assert us[..n][..n - 1] == us[..n - 1];
      DeadUpdatesKill(c, s, us, n - 1, now, id);
      var t := AbsorbAll(c, s, MSG_DEAD, us[..n - 1], now);
      DeadUpdateOn(c, t, us[n - 1], now, id);
      DiesOneMore(us, n - 1, id, Lookup(s.view, id).value, Lookup(t.view, id).value,
                  Lookup(Absorb(c, t, MSG_DEAD, us[n - 1], now).view, id).value, now);
    }
  }

  lemma NobodyDied(us: seq<Update>, id: NodeId, e: Member)
    ensures Died(us, 0, id, e, e)
  {
  }

  lemma DeadUpdateOn(c: Config, s: State, u: Update, now: nat, id: NodeId)
    requires Sound(c, s.view) && Lookup(s.view, id).Some?
    ensures var e, t := Lookup(s.view, id).value, Absorb(c, s, MSG_DEAD, u, now);
            && Sound(c, t.view)
            && Lookup(t.view, id) == Some(if u.id == id then Restated(e, DEAD, u.incarnation, now) else e)
  {
    LookupStatusSet(s.view, u.id, DEAD, u.incarnation, now, id);
    StatusSetSound(c, s.view, u.id, DEAD, u.incarnation, now);
  }

  /** A DEAD message kills a member exactly when one of its updates about it, of whatever status, is not older
      than the entry; the entry then has the newest incarnation, and keeps its address and last_seen_ms. */
  lemma DeadMessageKillsIff(c: Config, s: State, msg: Message, srcIp: seq<Byte>, now: nat, id: NodeId)
    requires Sound(c, s.view) && msg.msgType == MSG_DEAD && msg.sender != c.myId && Lookup(s.view, id).Some?
    ensures var f := Lookup(Received(c, s, msg, srcIp, now).view, id);
            f.Some? && Died(msg.updates, |msg.updates|, id, Lookup(s.view, id).value, f.value)
  {
    DeadUpdatesKill(c, s, msg.updates, |msg.updates|, now, id);
    assert msg.updates[..|msg.updates|] == msg.updates;
  }

  /** A LEAVE kills its sender unless the entry is ahead of the sequence number, which stands in for an incarnation. */
  lemma LeaveKillsIff(c: Config, s: State, msg: Message, srcIp: seq<Byte>, now: nat, id: NodeId)
    requires Sound(c, s.view) && msg.msgType == MSG_LEAVE && msg.sender != c.myId && Lookup(s.view, id).Some?
    ensures var e := Lookup(s.view, id).value;
            Lookup(Received(c, s, msg, srcIp, now).view, id)
            == Some(if id == msg.sender && msg.sequenceNum >= e.incarnation
                    then e.(status := DEAD, incarnation := msg.sequenceNum) else e)
  {
    LookupStatusSet(s.view, msg.sender, DEAD, msg.sequenceNum, now, id);
  }

  ghost predicate Doubted(us: seq<Update>, n: nat, id: NodeId, e: Member, f: Member, now: nat)
    requires n <= |us|
  {
    if e.status == ALIVE && Heard(us, n, id, e.incarnation, false)
    then f == e.(status := SUSPECT, incarnation := f.incarnation, lastSeen := now) && e.incarnation <= f.incarnation
         && exists i :: 0 <= i < n && us[i].id == id && us[i].status == SUSPECT && us[i].incarnation == f.incarnation
    else f == e
  }

  lemma SuspectUpdateOn(c: Config, s: State, u: Update, now: nat, id: NodeId)
    requires Sound(c, s.view) && Lookup(s.view, id).Some? && id != c.myId
    ensures var e, t := Lookup(s.view, id).value, Absorb(c, s, MSG_SUSPECT, u, now);
            && Sound(c, t.view)
            && Lookup(t.view, id) == Some(
                 if u.id == id && u.status == SUSPECT && e.status == ALIVE && u.incarnation >= e.incarnation
                 then e.(status := SUSPECT, incarnation := u.incarnation, lastSeen := now) else e)
  {
    LookupStatusSet(s.view, u.id, SUSPECT, u.incarnation, now, id);
    StatusSetSound(c, s.view, u.id, SUSPECT, u.incarnation, now);
  }

  lemma DoubtOneMore(us: seq<Update>, n: nat, id: NodeId, e: Member, f: Member, g: Member, now: nat)
    requires n < |us| && Doubted(us, n, id, e, f, now)
    requires g == if us[n].id == id && us[n].status == SUSPECT && f.status == ALIVE
                     && us[n].incarnation >= f.incarnation
                  then f.(status := SUSPECT, incarnation := us[n].incarnation, lastSeen := now) else f
    ensures Doubted(us, n + 1, id, e, g, now)
  {
    HeardOneMore(us, n, id, e.incarnation, false);
    if e.status == ALIVE && Heard(us, n, id, e.incarnation, false) {
      var i :| 0 <= i < n && us[i].id == id && us[i].status == SUSPECT && us[i].incarnation == f.incarnation;
      assert 0 <= i < n + 1;
    }
  }

  lemma {:induction false} SuspectUpdatesDoubt(c: Config, s: State, us: seq<Update>, n: nat, now: nat, id: NodeId)
    requires Sound(c, s.view) && n <= |us| && Lookup(s.view, id).Some? && id != c.myId
    ensures var t := AbsorbAll(c, s, MSG_SUSPECT, us[..n], now);
            && Sound(c, t.view) && Lookup(t.view, id).Some?
            && Doubted(us, n, id, Lookup(s.view, id).value, Lookup(t.view, id).value, now)
  {
    hide Doubted, Sound, Lookup;
    if n == 0 {
      NobodyDoubted(us, id, Lookup(s.view, id).value, now);
    } else {
      assert us[..n][..n - 1] == us[..n - 1];
      SuspectUpdatesDoubt(c, s, us, n - 1, now, id);
      var t := AbsorbAll(c, s, MSG_SUSPECT, us[..n - 1], now);
      SuspectUpdateOn(c, t, us[n - 1], now, id);
      DoubtOneMore(us, n - 1, id, Lookup(s.view, id).value, Lookup(t.view, id).value,
                   Lookup(Absorb(c, t, MSG_SUSPECT, us[n - 1], now).view, id).value, now);
    }
  }

  lemma NobodyDoubted(us: seq<Update>, id: NodeId, e: Member, now: nat)
    ensures Doubted(us, 0, id, e, e, now)
  {
  }

  /** A SUSPECT message makes another member SUSPECT exactly when it was ALIVE and one of the suspicions of it is
      not older than the entry; the entry then has the incarnation of a suspicion and the time of this instant. */
  lemma SuspectMessageDoubtsIff(c: Config, s: State, msg: Message, srcIp: seq<Byte>, now: nat, id: NodeId)
    requires Sound(c, s.view) && msg.msgType == MSG_SUSPECT && msg.sender != c.myId
    requires Lookup(s.view, id).Some? && id != c.myId
    ensures var f := Lookup(Received(c, s, msg, srcIp, now).view, id);
            f.Some? && Doubted(msg.updates, |msg.updates|, id, Lookup(s.view, id).value, f.value, now)
  {
    SuspectUpdatesDoubt(c, s, msg.updates, |msg.updates|, now, id);
    assert msg.updates[..|msg.updates|] == msg.updates;
  }

  ghost predicate Lifted(us: seq<Update>, n: nat, id: NodeId, e: Member, f: Member, now: nat)
    requires n <= |us|
  {
    if Heard(us, n, id, e.incarnation + 1, true)
    then f == e.(status := ALIVE, incarnation := f.incarnation, lastSeen := now) && e.incarnation < f.incarnation
         && Newest(us, n, id, e, f)
    else f == e
  }

  lemma LiftOneMore(us: seq<Update>, n: nat, id: NodeId, e: Member, f: Member, g: Member, now: nat)
    requires n < |us| && Lifted(us, n, id, e, f, now)
    requires g == if us[n].id == id && us[n].incarnation > f.incarnation
                  then f.(status := ALIVE, incarnation := us[n].incarnation, lastSeen := now) else f
    ensures Lifted(us, n + 1, id, e, g, now)
  {
    HeardOneMore(us, n, id, e.incarnation + 1, true);
    if Heard(us, n, id, e.incarnation + 1, true) {
      NewestOneMore(us, n, id, e, f, g);
    } else if us[n].id == id {
      forall i | 0 <= i < n && us[i].id == id
        ensures us[i].incarnation <= e.incarnation
      {
      }
    }
  }

  lemma {:induction false} AliveUpdatesLift(c: Config, s: State, us: seq<Update>, n: nat, now: nat, id: NodeId)
    requires Sound(c, s.view) && n <= |us| && Lookup(s.view, id).Some?
    ensures var t := AbsorbAll(c, s, MSG_ALIVE, us[..n], now);
            && Sound(c, t.view) && Lookup(t.view, id).Some?
            && Lifted(us, n, id, Lookup(s.view, id).value, Lookup(t.view, id).value, now)
  {
    hide Lifted, Sound, Lookup;
    if n == 0 {
      NobodyLifted(us, id, Lookup(s.view, id).value, now);
    } else {
      assert us[..n][..n - 1] == us[..n - 1];
      AliveUpdatesLift(c, s, us, n - 1, now, id);
      var t := AbsorbAll(c, s, MSG_ALIVE, us[..n - 1], now);
      AliveUpdateOn(c, t, us[n - 1], now, id);
      AliveUpdateSound(c, t, us[n - 1], now);
      LiftOneMore(us, n - 1, id, Lookup(s.view, id).value, Lookup(t.view, id).value,
                  Lookup(Absorb(c, t, MSG_ALIVE, us[n - 1], now).view, id).value, now);
    }
  }

  lemma NobodyLifted(us: seq<Update>, id: NodeId, e: Member, now: nat)
    ensures Lifted(us, 0, id, e, e, now)
  {
  }

  lemma AliveUpdateSound(c: Config, s: State, u: Update, now: nat)
    requires Sound(c, s.view)
    ensures Sound(c, Absorb(c, s, MSG_ALIVE, u, now).view)
  {
    StatusSetSound(c, s.view, u.id, ALIVE, u.incarnation, now);
  }

  /** An ALIVE message makes a member ALIVE exactly when one of its updates about it, of whatever status, is newer
      than the entry; the entry then has the newest incarnation and the time of this instant. */
  lemma AliveMessageLiftsIff(c: Config, s: State, msg: Message, srcIp: seq<Byte>, now: nat, id: NodeId)
    requires Sound(c, s.view) && msg.msgType == MSG_ALIVE && msg.sender != c.myId && Lookup(s.view, id).Some?
    ensures var f := Lookup(Received(c, s, msg, srcIp, now).view, id);
            f.Some? && Lifted(msg.updates, |msg.updates|, id, Lookup(s.view, id).value, f.value, now)
  {
    AliveUpdatesLift(c, s, msg.updates, |msg.updates|, now, id);
    assert msg.updates[..|msg.updates|] == msg.updates;
  }

  /** Suspicions, refutations and deaths of members that the table does not know leave it without them. */
  lemma {:induction false} UnknownStaysUnknown(c: Config, s: State, kind: Byte, us: seq<Update>, now: nat, id: NodeId)
    requires Sound(c, s.view) && kind in {MSG_SUSPECT, MSG_ALIVE, MSG_DEAD} && Lookup(s.view, id).None?
    ensures var t := AbsorbAll(c, s, kind, us, now);
            Sound(c, t.view) && Lookup(t.view, id).None?
  {
    if |us| > 0 {
      UnknownStaysUnknown(c, s, kind, us[..|us| - 1], now, id);
      var t, u := AbsorbAll(c, s, kind, us[..|us| - 1], now), us[|us| - 1];
      hide Sound, AbsorbAll;
      var status := if kind == MSG_SUSPECT then SUSPECT else if kind == MSG_ALIVE then ALIVE else DEAD;
      SoundMeans(c, t.view);
      LookupStatusSet(t.view, u.id, status, u.incarnation, now, id);
      StatusSetSound(c, t.view, u.id, status, u.incarnation, now);
      OneMoreAbsorbed(c, s, kind, us, now);
    }
  }

  lemma OneMoreAbsorbed(c: Config, s: State, kind: Byte, us: seq<Update>, now: nat)
    requires |us| > 0
    ensures AbsorbAll(c, s, kind, us, now)
         == Absorb(c, AbsorbAll(c, s, kind, us[..|us| - 1], now), kind, us[|us| - 1], now)
  {
  }

  // ---------------------------------------------------------------------------
  // Joins
  // ---------------------------------------------------------------------------

  /** f is e after a member joined with the record u: a dead entry is replaced one incarnation beyond, a live one
      unless it is ahead, and a new one is made while there is room. */
  ghost predicate Admitted(e: Option<Member>, f: Option<Member>, u: Update, incarnation: nat, room: bool, now: nat) {
    match e
    case None => if room then f.Some? && TakenFrom(f.value, u, ALIVE, incarnation, now) else f.None?
    case Some(m) =>
      if m.status == DEAD then f.Some? && TakenFrom(f.value, u, ALIVE, incarnation + 1, now)
      else if incarnation >= m.incarnation then f.Some? && TakenFrom(f.value, u, ALIVE, incarnation, now)
      else f == e
  }

  /** A JOIN admits its sender, with the first of its updates about itself and the address it came from, and
      passes that update on. It touches nobody else, and without such an update nothing. */
  lemma JoinAdmitsSender(c: Config, s: State, msg: Message, srcIp: seq<Byte>, now: nat, i: nat, id: NodeId)
    requires Sound(c, s.view) && |s.queue| <= MAX_UPDATE_QUEUE && msg.msgType == MSG_JOIN && msg.sender != c.myId
    requires i <= |msg.updates| && (forall j | 0 <= j < i :: msg.updates[j].id != msg.sender)
    requires i < |msg.updates| ==> msg.updates[i].id == msg.sender
    ensures var t := Received(c, s, msg, srcIp, now);
            if i == |msg.updates| then t == s
            else
              var u := msg.updates[i];
              && (if id == msg.sender
                  then Admitted(Lookup(s.view, id), Lookup(t.view, id), u.(ip := srcIp), u.incarnation,
                                |s.view| < c.capacity, now)
                  else Lookup(t.view, id) == Lookup(s.view, id))
              && t == s.(view := t.view, queue := Capped(s.queue + [u]))
  {
    assert OwnUpdate(msg.updates, msg.sender) == i;
    if i < |msg.updates| {
      var u := msg.updates[i];
      LookupAdded(s.view, c.capacity, MemberOf(u.(ip := srcIp), ALIVE, u.incarnation, 0), now, id);
      NoNews(s.queue);
      PushCapped(s.queue, u);
    }
  }

  /** The record a worker joins with: the first update, from the address it came from, as a worker. */
  ghost function WorkerRecord(msg: Message, srcIp: seq<Byte>): Update
    requires |msg.updates| > 0
  {
    msg.updates[0].(ip := srcIp, nodeType := NODE_TYPE_WORKER)
  }

  /** The announcement of that record. */
  ghost predicate Announces(a: Update, u: Update, incarnation: nat, now: nat) {
    && a.id == u.id && a.nodeType == u.nodeType && a.ip == Truncated(u.ip, MAX_IP_LEN)
    && a.gossipPort == u.gossipPort && a.dataPort == u.dataPort
    && a.status == ALIVE && a.incarnation == incarnation && a.timestamp == now
  }

  lemma RejoinMeans(s: State, msg: Message)
    requires |msg.updates| > 0
    ensures var known := Lookup(s.view, msg.sender);
            var rejoins := known.Some? && known.value.status in {SUSPECT, DEAD};
            && (Rejoining(s.view, msg.sender) <==> rejoins)
            && JoinIncarnation(s.view, msg)
            == if rejoins then known.value.incarnation + 1 else msg.updates[0].incarnation
  {
  }

  lemma WorkerEntry(c: Config, s: State, msg: Message, srcIp: seq<Byte>, now: nat, id: NodeId)
    requires Sound(c, s.view) && |msg.updates| > 0
    ensures var u := WorkerRecord(msg, srcIp);
            var f := Lookup(Added(s.view, c.capacity, WorkerMember(s.view, msg, srcIp, now), now), id);
            if id == u.id
            then Admitted(Lookup(s.view, id), f, u, JoinIncarnation(s.view, msg), |s.view| < c.capacity, now)
            else f == Lookup(s.view, id)
  {
    LookupAdded(s.view, c.capacity, WorkerMember(s.view, msg, srcIp, now), now, id);
  }

  lemma WorkerAnnounced(s: State, msg: Message, srcIp: seq<Byte>, now: nat)
    requires |msg.updates| > 0
    ensures Announces(JoinAnnouncement(WorkerMember(s.view, msg, srcIp, now), now), WorkerRecord(msg, srcIp),
                      JoinIncarnation(s.view, msg), now)
  {
  }

  lemma BurstSize(v: seq<Member>, except: set<NodeId>)
    ensures |Reachable(v, except)| == Rank(v, Outside(except), |v|)
  {
    ReachablePicked(v, except, |v|);
  }

  /** A WORKER_JOIN at a router admits the worker of its first update, one incarnation beyond what is known of the
      sender when that is SUSPECT or DEAD, and queues the announcement five times, or ten for a rejoin. A
      burst message to every other reachable member and the reply take a sequence number each. */
  lemma WorkerJoinAdmits(c: Config, s: State, msg: Message, srcIp: seq<Byte>, now: nat, id: NodeId)
      returns (a: Update)
    requires Sound(c, s.view) && |s.queue| <= MAX_UPDATE_QUEUE && msg.msgType == MSG_WORKER_JOIN && msg.sender != c.myId
    requires c.myType == NODE_TYPE_ROUTER && |msg.updates| > 0
    ensures var t, u, known := Received(c, s, msg, srcIp, now), WorkerRecord(msg, srcIp), Lookup(s.view, msg.sender);
            var rejoins := known.Some? && known.value.status in {SUSPECT, DEAD};
            var incarnation := if rejoins then known.value.incarnation + 1 else u.incarnation;
            && (if id == u.id
                then Admitted(Lookup(s.view, id), Lookup(t.view, id), u, incarnation, |s.view| < c.capacity, now)
                else Lookup(t.view, id) == Lookup(s.view, id))
            && Announces(a, u, incarnation, now)
            && t.queue == Capped(s.queue + Copies(a, if rejoins then 10 else 5))
            && t.sequenceNum == s.sequenceNum + Rank(t.view, Outside({c.myId, u.id}), |t.view|) + 1
            && t.pending == s.pending && t.incarnation == s.incarnation
  {
    hide Added, Rank, Reachable, PushTimes, Capped, Admitted, Announces, Lookup, Copies, Sound;
    var m := WorkerMember(s.view, msg, srcIp, now);
    a := JoinAnnouncement(m, now);
    RejoinMeans(s, msg);
    WorkerEntry(c, s, msg, srcIp, now, id);
    WorkerAnnounced(s, msg, srcIp, now);
    PushTimesCapped(s.queue, a, if Rejoining(s.view, msg.sender) then 10 else 5);
    BurstSize(Added(s.view, c.capacity, m, now), {c.myId, m.id});
  }

  /** A router answers an empty WORKER_JOIN, and nobody else is moved by one. */
  lemma OtherWorkerJoins(c: Config, s: State, msg: Message, srcIp: seq<Byte>, now: nat)
    requires msg.msgType == MSG_WORKER_JOIN && (c.myType != NODE_TYPE_ROUTER || |msg.updates| == 0)
    requires msg.sender != c.myId
    ensures Received(c, s, msg, srcIp, now)
         == s.(sequenceNum := s.sequenceNum + if c.myType == NODE_TYPE_ROUTER then 1 else 0)
  {
  }

  // ---------------------------------------------------------------------------
  // The node's own entry, pings and rounds
  // ---------------------------------------------------------------------------

  /** The refresh writes the node's own entry, if there is one, and nothing else. */
  lemma RefreshWritesSelf(c: Config, s: State, now: nat, id: NodeId)
    requires Sound(c, s.view)
    ensures var t := Next(c, s, RefreshSelf(now));
            && t == s.(view := t.view)
            && Lookup(t.view, id) ==
               match Lookup(s.view, id)
               case None => None
               case Some(e) =>
                 Some(if id == c.myId then e.(status := ALIVE, incarnation := s.incarnation, lastSeen := now) else e)
  {
    LookupRefreshed(s.view, c.myId, s.incarnation, now, id);
  }

  /** What a node says of itself. */
  ghost predicate OwnRecord(u: Update, c: Config, incarnation: nat, now: nat) {
    && u.id == c.myId && u.nodeType == c.myType && u.ip == Truncated(c.myIp, MAX_IP_LEN)
    && u.gossipPort == c.gossipPort && u.dataPort == c.dataPort
    && u.status == ALIVE && u.incarnation == incarnation && u.timestamp == now
  }

  /** The announcement admits the node to its own table and queues its record five times. */
  lemma AnnouncementQueued(c: Config, s: State, now: nat, id: NodeId) returns (u: Update)
    requires Sound(c, s.view) && |s.queue| <= MAX_UPDATE_QUEUE
    ensures var t := Next(c, s, AnnounceJoin(now));
            && OwnRecord(u, c, s.incarnation, now)
            && (if id == c.myId
                then Admitted(Lookup(s.view, id), Lookup(t.view, id), u, s.incarnation, |s.view| < c.capacity, now)
                else Lookup(t.view, id) == Lookup(s.view, id))
            && t == s.(view := t.view, queue := Capped(s.queue + Copies(u, 5)))
  {
    u := AliveUpdate(c, s.incarnation, now);
    PushTimesCapped(s.queue, u, 5);
    TruncatedTwice(c.myIp);
    LookupAdded(s.view, c.capacity, MemberOf(u, ALIVE, s.incarnation, now), now, id);
  }

  lemma TruncatedTwice(ip: seq<Byte>)
    ensures Truncated(Truncated(ip, MAX_IP_LEN), MAX_IP_LEN) == Truncated(ip, MAX_IP_LEN)
  {
  }

  /** A ping carries the oldest queued updates, as many as fit, and leaves the rest queued: none is lost, copied or
      overtaken. With an empty queue it carries the piggyback. It takes one sequence number and, if it leaves
      the node, one idle slot of the table. */
  lemma PingCarriesQueue(c: Config, s: State, target: NodeId, sent: bool, now: nat)
    requires Lookup(s.view, target).Some?
    ensures var t, m := Next(c, s, SendPing(target, sent, now)), PingMessage(c, s, now);
            && m.msgType == MSG_PING && m.sender == c.myId && m.sequenceNum == s.sequenceNum
            && t.sequenceNum == s.sequenceNum + 1 && t.view == s.view && t.incarnation == s.incarnation
            && (if c.maxPiggyback == 0 || s.queue == []
                then t.queue == s.queue && m.updates == Piggyback(c, s.view, GOSSIP_MAX_PIGGYBACK_UPDATES, now)
                else m.updates + t.queue == s.queue && |m.updates| <= c.maxPiggyback
                     && (|m.updates| == c.maxPiggyback || t.queue == []))
            && (if sent then OneRecorded(s.pending, t.pending, target, now) else t.pending == s.pending)
  {
    SendRecordsOne(s.pending, target, now, target);
  }

  /** The messages of a gossip round are of the ALIVE kind, carry the piggyback, and take the next sequence numbers,
      one each. */
  lemma RoundMessages(c: Config, s: State, i: nat, now: nat)
    requires i < Targets(c, s.view)
    ensures var m, t := GossipMessage(c, s, i, now), Next(c, s, GossipRound(now));
            && m.msgType == MSG_ALIVE && m.sender == c.myId && m.updates == Piggyback(c, s.view, c.maxPiggyback, now)
            && s.sequenceNum <= m.sequenceNum == s.sequenceNum + i < t.sequenceNum
            && t == s.(sequenceNum := t.sequenceNum)
  {
  }

  lemma UnknownIsNotPinged(c: Config, s: State, target: NodeId, sent: bool, now: nat)
    requires Lookup(s.view, target).None?
    ensures Next(c, s, SendPing(target, sent, now)) == s
  {
  }

  // ---------------------------------------------------------------------------
  // Sequence numbers
  // ---------------------------------------------------------------------------

  /** How many datagrams a step sends. */
  ghost function Datagrams(c: Config, s: State, step: Step): nat {
    match step
    case Receive(msg, srcIp, now) =>
      if msg.sender == c.myId then 0
      else if msg.msgType == MSG_PING then 1
      else if msg.msgType == MSG_WORKER_JOIN && c.myType == NODE_TYPE_ROUTER then
        var v := Received(c, s, msg, srcIp, now).view;
        1 + if |msg.updates| == 0 then 0 else Rank(v, Outside({c.myId, msg.updates[0].id}), |v|)
      else 0
    case SendPing(target, _, _) => if Lookup(s.view, target).Some? then 1 else 0
    case GossipRound(_) =>
      var peers := Rank(s.view, Outside({c.myId}), |s.view|);
      Min(c.fanout, Min(peers, MAX_CLUSTER_NODES))
    case _ => 0
  }

  function Min(a: nat, b: nat): nat {
    if a < b then a else b
  }

  lemma {:induction false} AbsorbingSendsNothing(c: Config, s: State, kind: Byte, us: seq<Update>, now: nat)
    ensures AbsorbAll(c, s, kind, us, now).sequenceNum == s.sequenceNum
  {
    if |us| > 0 {
      AbsorbingSendsNothing(c, s, kind, us[..|us| - 1], now);
    }
  }

  lemma ReceivedNumbers(c: Config, s: State, msg: Message, srcIp: seq<Byte>, now: nat)
    ensures Received(c, s, msg, srcIp, now).sequenceNum == s.sequenceNum + Datagrams(c, s, Receive(msg, srcIp, now))
  {
    hide Added, Revived, PingAnswered, Rank, Reachable, AbsorbAll, JoinAnnouncement, PushTimes;
    AbsorbingSendsNothing(c, s, msg.msgType, msg.updates, now);
    var r := s.(pending := PingAnswered(s.pending, msg.sender), view := Revived(s.view, msg.sender, now));
    AbsorbingSendsNothing(c, r, MSG_ACK, msg.updates, now);
    if |msg.updates| > 0 {
      BurstSize(Added(s.view, c.capacity, WorkerMember(s.view, msg, srcIp, now), now), {c.myId, msg.updates[0].id});
    }
  }

  lemma StepNumbers(c: Config, s: State, step: Step)
    requires Sound(c, s.view)
    ensures Next(c, s, step).sequenceNum == s.sequenceNum + Datagrams(c, s, step)
  {
    hide Received, Rank, Reachable, Added, Refreshed, PushTimes, AckSlotsChecked, SuspectSlotsChecked;
    match step
    case Receive(msg, srcIp, now) =>
      ReceivedNumbers(c, s, msg, srcIp, now);
    case SendPing(target, sent, now) =>
    case AckTimeouts(now) => AckTimeoutsExactly(c, s, now, 0);
    case SuspectTimeouts(now) => SuspectTimeoutsExactly(c, s, now, 0);
    case GossipRound(now) => BurstSize(s.view, {c.myId});
    case RefreshSelf(now) =>
    case AnnounceJoin(now) =>
  }

  ghost function Sent(c: Config, states: seq<State>, steps: seq<Step>, a: nat, b: nat): nat
    requires a <= b <= |steps| < |states|
  {
    if a == b then 0 else Sent(c, states, steps, a, b - 1) + Datagrams(c, states[b - 1], steps[b - 1])
  }

  /** Over any stretch of a run the sequence number counts the datagrams sent, so no two of them share one. */
  lemma {:induction false} NumbersCountDatagrams(c: Config, states: seq<State>, steps: seq<Step>, a: nat, b: nat)
    requires Run(c, states, steps) && a <= b <= |steps| < |states|
    ensures states[b].sequenceNum == states[a].sequenceNum + Sent(c, states, steps, a, b)
  {
    hide Run, Next, Sound, WellFormed, Datagrams;
    if a < b {
      NumbersCountDatagrams(c, states, steps, a, b - 1);
      StepOfRun(c, states, steps, b - 1);
      SoundInRun(c, states, steps, b - 1);
      StepNumbers(c, states[b - 1], steps[b - 1]);
    }
  }
}
