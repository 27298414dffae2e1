// Which members the scans of the table pick: all that qualify, in table order, up to a limit.

module Selection {
  import opened Bytes
  import opened Membership
  import opened Nodes
  import opened Gossip

  predicate AliveRouter(m: Member) {
    m.nodeType == NODE_TYPE_ROUTER && m.status == ALIVE
  }

  /** Members that a sender reaches: SUSPECT ones too, but not the dead, and not those it leaves out. */
  function Outside(except: set<NodeId>): Member -> bool {
    (m: Member) => m.id !in except && m.status != DEAD
  }

  /** How many of the first n members qualify. */
  ghost function Rank(v: seq<Member>, p: Member -> bool, n: nat): (r: nat)
    requires n <= |v|
    ensures r <= n
  {
    if n == 0 then 0 else Rank(v, p, n - 1) + if p(v[n - 1]) then 1 else 0
  }

  /** r lists the qualifying members in table order, each one that has fewer than `limit` before it. */
  ghost predicate Picks(r: seq<Member>, v: seq<Member>, p: Member -> bool, limit: nat) {
    && |r| == (if Rank(v, p, |v|) < limit then Rank(v, p, |v|) else limit)
    && forall i | 0 <= i < |v| && p(v[i]) && Rank(v, p, i) < limit ::
         Rank(v, p, i) < |r| && r[Rank(v, p, i)] == v[i]
  }

  lemma {:induction false} RankOfFront(v: seq<Member>, p: Member -> bool, m: nat, n: nat)
    requires n <= m <= |v|
    ensures Rank(v[..m], p, n) == Rank(v, p, n)
  {
    if n > 0 {
      RankOfFront(v, p, m, n - 1);
    }
  }

  lemma {:induction false} RankAscends(v: seq<Member>, p: Member -> bool, i: nat, n: nat)
    requires i < n <= |v|
    ensures Rank(v, p, i) + (if p(v[i]) then 1 else 0) <= Rank(v, p, n)
  {
    if i < n - 1 {
      RankAscends(v, p, i, n - 1);
    }
  }

  /** Every rank below the total is the rank of a qualifying member. */
  lemma {:induction false} MemberAtRank(v: seq<Member>, p: Member -> bool, n: nat, j: nat) returns (i: nat)
    requires n <= |v| && j < Rank(v, p, n)
    ensures i < n && p(v[i]) && Rank(v, p, i) == j
  {
    if j < Rank(v, p, n - 1) {
      i := MemberAtRank(v, p, n - 1, j);
    } else {
      i := n - 1;
    }
  }

  /** What is picked is determined by that: no other list is in table order and complete. */
  lemma PickedOnce(a: seq<Member>, b: seq<Member>, v: seq<Member>, p: Member -> bool, limit: nat)
    requires Picks(a, v, p, limit) && Picks(b, v, p, limit)
    ensures a == b
    ensures forall m | m in a :: m in v && p(m)
  {
    forall j | 0 <= j < |a|
      ensures a[j] == b[j] && a[j] in v && p(a[j])
    {
      var i := MemberAtRank(v, p, |v|, j);
      assert v[i] == a[j];
    }
  }

  /** One more member in the table. */
  lemma PicksOneMore(r: seq<Member>, t: seq<Member>, v: seq<Member>, p: Member -> bool, limit: nat)
    requires |v| > 0 && Picks(r, v[..|v| - 1], p, limit)
    requires t == if p(v[|v| - 1]) && |r| < limit then r + [v[|v| - 1]] else r
    ensures Picks(t, v, p, limit)
  {
    var front, n := v[..|v| - 1], |v| - 1;
    RankOfFront(v, p, n, n);
    forall i | 0 <= i < |v| && p(v[i]) && Rank(v, p, i) < limit
      ensures Rank(v, p, i) < |t| && t[Rank(v, p, i)] == v[i]
    {
      if i < n {
        RankOfFront(v, p, n, i);
        RankAscends(v, p, i, n);
        assert front[i] == v[i];
      }
    }
  }

  // ---------------------------------------------------------------------------
  // The scans
  // ---------------------------------------------------------------------------

  /** The JOIN_RESPONSE lists an ALIVE router of the table exactly when fewer than sixteen precede it. */
  lemma {:induction false} RoutersPicked(v: seq<Member>)
    ensures Picks(Routers(v), v, AliveRouter, MAX_CONFIG_ROUTERS)
  {
    if |v| > 0 {
      hide Picks;
      RoutersPicked(v[..|v| - 1]);
      PicksOneMore(Routers(v[..|v| - 1]), Routers(v), v, AliveRouter, MAX_CONFIG_ROUTERS);
    }
  }

  /** The peers of a burst, of a gossip round and of a piggyback are all that are left in and not dead. */
  lemma {:induction false} ReachablePicked(v: seq<Member>, except: set<NodeId>, limit: nat)
    requires |v| <= limit
    ensures Picks(Reachable(v, except), v, Outside(except), limit)
  {
    if |v| > 0 {
      ReachablePicked(v[..|v| - 1], except, limit);
      hide Picks;
      ReachableSize(v[..|v| - 1], except);
      PicksOneMore(Reachable(v[..|v| - 1], except), Reachable(v, except), v, Outside(except), limit);
    }
  }

  /** An update that tells all that a member entry holds. */
  ghost predicate Describes(u: Update, m: Member, now: nat) {
    && u.id == m.id && u.nodeType == m.nodeType && u.ip == Truncated(m.ip, MAX_IP_LEN)
    && u.gossipPort == m.gossipPort && u.dataPort == m.dataPort
    && u.status == m.status && u.incarnation == m.incarnation && u.timestamp == now
  }

  /** The piggyback describes each member among the first `limit` slots, in order, but for this node and the dead. */
  lemma PiggybackPicked(c: Config, v: seq<Member>, limit: nat, now: nat)
    ensures var us, p, n := Piggyback(c, v, limit, now), Outside({c.myId}), if |v| < limit then |v| else limit;
            && |us| == Rank(v, p, n)
            && forall i | 0 <= i < n && p(v[i]) :: Rank(v, p, i) < |us| && Describes(us[Rank(v, p, i)], v[i], now)
  {
    var us, p, n := Piggyback(c, v, limit, now), Outside({c.myId}), if |v| < limit then |v| else limit;
    var ms := Reachable(v[..n], {c.myId});
    ReachablePicked(v[..n], {c.myId}, n);
    RankOfFront(v, p, n, n);
    assert |us| == |ms|;
    forall i | 0 <= i < n && p(v[i])
      ensures Rank(v, p, i) < |us| && Describes(us[Rank(v, p, i)], v[i], now)
    {
      RankOfFront(v, p, n, i);
      assert v[..n][i] == v[i] && Rank(v[..n], p, i) < n;
      assert us[Rank(v, p, i)] == UpdateOf(ms[Rank(v, p, i)], now);
    }
  }

  /** A gossip round goes to as many peers as the fanout asks for, or to all there are, up to the size of the
      list they are drawn from. */
  lemma RoundSize(c: Config, v: seq<Member>)
    ensures var n, peers := Targets(c, v), Rank(v, Outside({c.myId}), |v|);
            && n <= c.fanout && n <= peers && n <= MAX_CLUSTER_NODES
            && (n == c.fanout || n == peers || n == MAX_CLUSTER_NODES)
  {
    ReachablePicked(v, {c.myId}, |v|);
  }
}
