// Anti-entropy: what merging piggybacked updates converges to.

module Convergence {
  import opened Common
  import opened Membership
  import opened Nodes
  import opened Gossip
  import opened GossipRuns

  /** What the protocol compares about a member. */
  datatype Claim = Claim(id: NodeId, status: Status, incarnation: nat)

  ghost function ClaimOf(u: Update): Claim {
    Claim(u.id, u.status, u.incarnation)
  }

  ghost function Claims(us: seq<Update>): set<Claim> {
    set i | 0 <= i < |us| :: ClaimOf(us[i])
  }

  ghost function Known(v: seq<Member>): set<Claim> {
    set i | 0 <= i < |v| :: Claim(v[i].id, v[i].status, v[i].incarnation)
  }

  ghost function ClaimedIds(claims: set<Claim>): set<NodeId> {
    set x | x in claims :: x.id
  }

  /** For each id, equal incarnations carry equal status. */
  ghost predicate Consistent(claims: set<Claim>) {
    forall x, y | x in claims && y in claims && x.id == y.id && x.incarnation == y.incarnation :: x.status == y.status
  }

  /** The claim about id that no other claim about it outdates. */
  ghost predicate Newest(claims: set<Claim>, x: Claim) {
    x in claims && forall y | y in claims && y.id == x.id :: y.incarnation <= x.incarnation
  }

  ghost function Digest(v: seq<Member>, id: NodeId): Option<Claim> {
    match Lookup(v, id) case None => None case Some(m) => Some(Claim(id, m.status, m.incarnation))
  }

  function Merged(c: Config, s: State, us: seq<Update>, now: nat): seq<Member> {
    AbsorbAll(c, s, MSG_ACK, us, now).view
  }

  lemma DigestKnown(v: seq<Member>, id: NodeId)
    requires DistinctIds(v)
    ensures Digest(v, id).Some? ==> Digest(v, id).value in Known(v)
    ensures forall x | x in Known(v) && x.id == id :: Digest(v, id) == Some(x)
    ensures Ids(v) == ClaimedIds(Known(v))
  {
    forall x | x in Known(v) && x.id == id
      ensures Digest(v, id) == Some(x)
    {
      var i :| 0 <= i < |v| && Claim(v[i].id, v[i].status, v[i].incarnation) == x;
      FindIs(v, id, i);
    }
    var f := Find(v, id);
    if f < |v| {
      assert Claim(v[f].id, v[f].status, v[f].incarnation) in Known(v);
    }
    forall k | k in Ids(v) ensures k in ClaimedIds(Known(v)) {
      var i :| 0 <= i < |v| && v[i].id == k;
      assert Claim(v[i].id, v[i].status, v[i].incarnation) in Known(v);
    }
    forall k | k in ClaimedIds(Known(v)) ensures k in Ids(v) {
      var x :| x in Known(v) && x.id == k;
      var i :| 0 <= i < |v| && Claim(v[i].id, v[i].status, v[i].incarnation) == x;
      assert v[i].id == k;
    }
  }

  /** The better of what is known about an id and one more claim about it. */
  ghost function Newer(d: Option<Claim>, x: Claim): Option<Claim> {
    if d.None? || x.incarnation > d.value.incarnation then Some(x) else d
  }

  /** d is the newest of the claims about id, or there is no such claim. */
  ghost predicate JoinOf(claims: set<Claim>, id: NodeId, d: Option<Claim>) {
    match d
    case None => forall x | x in claims :: x.id != id
    case Some(x) => x.id == id && Newest(claims, x)
  }

  lemma JoinExtends(claims: set<Claim>, id: NodeId, d: Option<Claim>, x: Claim)
    requires JoinOf(claims, id, d)
    ensures JoinOf(claims + {x}, id, if x.id == id then Newer(d, x) else d)
  {
  }

  lemma JoinUnique(claims: set<Claim>, id: NodeId, d: Option<Claim>, e: Option<Claim>)
    requires Consistent(claims) && JoinOf(claims, id, d) && JoinOf(claims, id, e)
    ensures d == e
  {
  }

  /** The meaning of one merge step on the digest of one id. */
  lemma AbsorbAckDigest(c: Config, s: State, u: Update, now: nat, id: NodeId)
    requires Sound(c, s.view) && u.status <= DEAD
    requires Lookup(s.view, u.id).Some? || |s.view| < c.capacity
    ensures var t := AbsorbAck(c, s, u, now);
            && Digest(t.view, id) == (if id == u.id then Newer(Digest(s.view, id), ClaimOf(u)) else Digest(s.view, id))
            && (Lookup(t.view, id).Some? <==> Lookup(s.view, id).Some? || id == u.id)
  {
    match Lookup(s.view, u.id)
    case None => LookupAdded(s.view, c.capacity, MemberOf(u, u.status, u.incarnation, now), now, id);
    case Some(m) => LookupStatusSet(s.view, u.id, u.status, u.incarnation, now, id);
  }

  lemma AbsorbAckIds(c: Config, s: State, u: Update, now: nat)
    requires Sound(c, s.view) && u.status <= DEAD
    requires Lookup(s.view, u.id).Some? || |s.view| < c.capacity
    ensures Ids(AbsorbAck(c, s, u, now).view) == Ids(s.view) + {u.id}
  {
    var t := AbsorbAck(c, s, u, now);
    forall k: NodeId
      ensures k in Ids(t.view) <==> k in Ids(s.view) + {u.id}
    {
      LookupAsMap(s.view, k);
      LookupAsMap(t.view, k);
      AbsorbAckDigest(c, s, u, now, k);
    }
  }

  lemma MergeStep(c: Config, t: State, u: Update, now: nat, id: NodeId, claims: set<Claim>)
    requires Sound(c, t.view) && u.status <= DEAD
    requires |Ids(t.view) + {u.id}| <= c.capacity
    requires JoinOf(claims, id, Digest(t.view, id))
    ensures var w := AbsorbAck(c, t, u, now).view;
            && Sound(c, w) && Ids(w) == Ids(t.view) + {u.id}
            && JoinOf(claims + {ClaimOf(u)}, id, Digest(w, id))
  {
    IdsSize(t.view);
    LookupAsMap(t.view, u.id);
    assert Lookup(t.view, u.id).Some? || |t.view| < c.capacity by {
      if u.id !in Ids(t.view) {
        assert |Ids(t.view) + {u.id}| == |Ids(t.view)| + 1;
      }
    }
    AbsorbMoves(c, t, MSG_ACK, u, now, id, 0);
    AbsorbAckIds(c, t, u, now);
    AbsorbAckDigest(c, t, u, now, id);
    JoinExtends(claims, id, Digest(t.view, id), ClaimOf(u));
  }

  /** What merging us into what s knows must come to. */
  ghost predicate MergesTo(c: Config, s: State, us: seq<Update>, id: NodeId, v: seq<Member>) {
    && Sound(c, v)
    && Ids(v) == Ids(s.view) + ClaimedIds(Claims(us))
    && JoinOf(Known(s.view) + Claims(us), id, Digest(v, id))
  }

  lemma MergesNothing(c: Config, s: State, id: NodeId)
    requires Sound(c, s.view)
    ensures MergesTo(c, s, [], id, s.view)
  {
    DistinctKnown(s.view, id);
    assert Known(s.view) + Claims([]) == Known(s.view);
  }

  lemma MergesOneMore(c: Config, s: State, us: seq<Update>, t: State, u: Update, now: nat, id: NodeId)
    requires MergesTo(c, s, us, id, t.view) && u.status <= DEAD
    requires |Ids(s.view) + ClaimedIds(Claims(us + [u]))| <= c.capacity
    ensures MergesTo(c, s, us + [u], id, AbsorbAck(c, t, u, now).view)
  {
    ClaimsAppend(us, u);
    assert Ids(s.view) + ClaimedIds(Claims(us + [u])) == Ids(t.view) + {u.id};
    MergeStep(c, t, u, now, id, Known(s.view) + Claims(us));
    assert Known(s.view) + Claims(us + [u]) == Known(s.view) + Claims(us) + {ClaimOf(u)};
  }

  lemma RoomForFewer(c: Config, s: State, us: seq<Update>, u: Update)
    requires |Ids(s.view) + ClaimedIds(Claims(us + [u]))| <= c.capacity
    ensures |Ids(s.view) + ClaimedIds(Claims(us))| <= c.capacity
  {
    ClaimsAppend(us, u);
    var before := Ids(s.view) + ClaimedIds(Claims(us));
    assert Ids(s.view) + ClaimedIds(Claims(us + [u])) == before + {u.id};
    Grows(before, u.id);
  }

  /** Merging computes the join: for every id, the newest claim among what was known and what arrived. */
  lemma {:induction false} MergeIsJoin(c: Config, s: State, us: seq<Update>, now: nat, id: NodeId)
    requires Sound(c, s.view) && (forall i | 0 <= i < |us| :: us[i].status <= DEAD)
    requires |Ids(s.view) + ClaimedIds(Claims(us))| <= c.capacity
    ensures MergesTo(c, s, us, id, Merged(c, s, us, now))
  {
    if |us| == 0 {
      MergesNothing(c, s, id);
      assert us == [];
    } else {
      var front, u := us[..|us| - 1], us[|us| - 1];
      assert us == front + [u];
      RoomForFewer(c, s, front, u);
      MergeIsJoin(c, s, front, now, id);
      MergesOneMore(c, s, front, AbsorbAll(c, s, MSG_ACK, front, now), u, now, id);
    }
  }

  lemma Grows<T>(s: set<T>, x: T)
    ensures |s| <= |s + {x}|
  {
    if x in s { assert s + {x} == s; }
  }

  lemma DistinctKnown(v: seq<Member>, id: NodeId)
    requires DistinctIds(v)
    ensures JoinOf(Known(v), id, Digest(v, id))
  {
    DigestKnown(v, id);
  }

  lemma ClaimsAppend(us: seq<Update>, u: Update)
    ensures Claims(us + [u]) == Claims(us) + {ClaimOf(u)}
    ensures ClaimedIds(Claims(us + [u])) == ClaimedIds(Claims(us)) + {u.id}
  {
    var w := us + [u];
    assert w[|us|] == u;
    assert forall i | 0 <= i < |us| :: w[i] == us[i];
    assert Claims(w) == Claims(us) + {ClaimOf(u)};
    assert ClaimOf(u) in Claims(w);
  }

  /** Two nodes that know the same claims and merge the same claims, in any order and any number
      of times, agree on status and incarnation of every member. */
  lemma AntiEntropyConverges(c: Config, s: State, us: seq<Update>, t: State, ws: seq<Update>, now: nat, later: nat,
            id: NodeId)
    requires Sound(c, s.view) && (forall i | 0 <= i < |us| :: us[i].status <= DEAD)
    requires Sound(c, t.view) && (forall i | 0 <= i < |ws| :: ws[i].status <= DEAD)
    requires Known(s.view) + Claims(us) == Known(t.view) + Claims(ws)
    requires Consistent(Known(s.view) + Claims(us))
    requires |ClaimedIds(Known(s.view) + Claims(us))| <= c.capacity
    ensures Digest(Merged(c, s, us, now), id) == Digest(Merged(c, t, ws, later), id)
    ensures Digest(Merged(c, s, us, now), id).Some? ==>
              Newest(Known(s.view) + Claims(us), Digest(Merged(c, s, us, now), id).value)
  {
    ClaimedIdsOfUnion(s.view, us);
    ClaimedIdsOfUnion(t.view, ws);
    MergeIsJoin(c, s, us, now, id);
    MergeIsJoin(c, t, ws, later, id);
    JoinUnique(Known(s.view) + Claims(us), id, Digest(Merged(c, s, us, now), id), Digest(Merged(c, t, ws, later), id));
  }

  lemma ClaimedIdsOfUnion(v: seq<Member>, us: seq<Update>)
    requires DistinctIds(v)
    ensures ClaimedIds(Known(v) + Claims(us)) == Ids(v) + ClaimedIds(Claims(us))
  {
    DigestKnown(v, 0);
  }

  /** A PING merges one update like an ACK unless the update revives a dead member:
      only then does the incarnation go one beyond the one announced. */
  lemma PingMergesLikeAckIff(c: Config, s: State, u: Update, now: nat)
    requires Sound(c, s.view) && u.status <= DEAD
    ensures Digest(AbsorbPing(c, s, u, now).view, u.id) == Digest(AbsorbAck(c, s, u, now).view, u.id)
       <==> !(&& Lookup(s.view, u.id).Some?
              && Lookup(s.view, u.id).value.status == DEAD
              && u.status == ALIVE
              && u.incarnation > Lookup(s.view, u.id).value.incarnation)
  {
    LookupAdded(s.view, c.capacity, MemberOf(u, ALIVE, u.incarnation, now), now, u.id);
    LookupStatusSet(s.view, u.id, u.status, u.incarnation, now, u.id);
  }
}
