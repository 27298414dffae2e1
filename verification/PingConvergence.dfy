// PING piggybacks: exactly which claims they merge in every order to the same result.

module PingConvergence {
  import opened Common
  import opened Nodes
  import opened Membership
  import opened Gossip
  import opened GossipRuns
  import opened Convergence

  function PingMerged(c: Config, s: State, us: seq<Update>, now: nat): seq<Member> {
    AbsorbAll(c, s, MSG_PING, us, now).view
  }

  // ---------------------------------------------------------------------------
  // What a PING does to the digest of one id
  // ---------------------------------------------------------------------------

  /** A PING takes the newer claim, but revives a DEAD entry one incarnation beyond the ALIVE claim. */
  ghost function PingNewer(d: Option<Claim>, y: Claim): Option<Claim> {
    match d
    case None => Some(y)
    case Some(x) =>
      if y.incarnation <= x.incarnation then d
      else if x.status == DEAD && y.status == ALIVE then Some(y.(incarnation := y.incarnation + 1))
      else Some(y)
  }

  ghost function PingFold(d: Option<Claim>, ys: seq<Claim>): Option<Claim> {
    if |ys| == 0 then d else PingNewer(PingFold(d, ys[..|ys| - 1]), ys[|ys| - 1])
  }

  /** The claims about one id, in order. */
  ghost function About(us: seq<Update>, id: NodeId): seq<Claim> {
    if |us| == 0 then []
    else About(us[..|us| - 1], id) + if us[|us| - 1].id == id then [ClaimOf(us[|us| - 1])] else []
  }

  lemma AbsorbPingDigest(c: Config, s: State, u: Update, now: nat, id: NodeId)
    requires Sound(c, s.view) && u.status <= DEAD
    requires Lookup(s.view, u.id).Some? || |s.view| < c.capacity
    ensures var t := AbsorbPing(c, s, u, now);
            && Digest(t.view, id) == (if id == u.id then PingNewer(Digest(s.view, id), ClaimOf(u))
                                      else Digest(s.view, id))
            && (Lookup(t.view, id).Some? <==> Lookup(s.view, id).Some? || id == u.id)
  {
    match Lookup(s.view, u.id)
    case None => LookupAdded(s.view, c.capacity, MemberOf(u, u.status, u.incarnation, now), now, id);
    case Some(m) =>
      LookupAdded(s.view, c.capacity, MemberOf(u, ALIVE, u.incarnation, now), now, id);
      LookupStatusSet(s.view, u.id, u.status, u.incarnation, now, id);
  }

  lemma AbsorbPingIds(c: Config, s: State, u: Update, now: nat)
    requires Sound(c, s.view) && u.status <= DEAD
    requires |Ids(s.view) + {u.id}| <= c.capacity
    ensures Lookup(s.view, u.id).Some? || |s.view| < c.capacity
    ensures Sound(c, AbsorbPing(c, s, u, now).view)
    ensures Ids(AbsorbPing(c, s, u, now).view) == Ids(s.view) + {u.id}
  {
    var t := AbsorbPing(c, s, u, now);
    IdsSize(s.view);
    LookupAsMap(s.view, u.id);
    if u.id !in Ids(s.view) {
      assert |Ids(s.view) + {u.id}| == |Ids(s.view)| + 1;
    }
    PingUpdateMoves(c, s, u, now, u.id, 0);
    forall k: NodeId
      ensures k in Ids(t.view) <==> k in Ids(s.view) + {u.id}
    {
      LookupAsMap(s.view, k);
      LookupAsMap(t.view, k);
      AbsorbPingDigest(c, s, u, now, k);
    }
  }

  /** Merging by PING is folding the claims about each id, in the order they arrive. */
  lemma {:induction false} PingMergeIsFold(c: Config, s: State, us: seq<Update>, now: nat, id: NodeId)
    requires Sound(c, s.view) && (forall i | 0 <= i < |us| :: us[i].status <= DEAD)
    requires |Ids(s.view) + ClaimedIds(Claims(us))| <= c.capacity
    ensures var v := PingMerged(c, s, us, now);
            && Sound(c, v) && Ids(v) == Ids(s.view) + ClaimedIds(Claims(us))
            && Digest(v, id) == PingFold(Digest(s.view, id), About(us, id))
  {
    hide Sound, Digest, AbsorbPing, Claims, ClaimedIds, Ids, PingNewer;
    if |us| == 0 {
      NoClaims();
      assert us == [];
      assert Ids(s.view) + {} == Ids(s.view);
    } else {
      var front, u := us[..|us| - 1], us[|us| - 1];
      assert us == front + [u];
      RoomForFewer(c, s, front, u);
      PingMergeIsFold(c, s, front, now, id);
      ClaimsAppend(front, u);
      var t := AbsorbAll(c, s, MSG_PING, front, now);
      assert Ids(s.view) + ClaimedIds(Claims(us)) == Ids(t.view) + {u.id};
      AbsorbPingIds(c, t, u, now);
      AbsorbPingDigest(c, t, u, now, id);
      FoldAppend(Digest(s.view, id), About(front, id), ClaimOf(u));
    }
  }

  lemma NoClaims()
    ensures Claims([]) == {} && ClaimedIds(Claims([])) == {}
  {
  }

  lemma FoldAppend(d: Option<Claim>, ys: seq<Claim>, y: Claim)
    ensures PingFold(d, ys + [y]) == PingNewer(PingFold(d, ys), y)
    ensures PingFold(d, ys + []) == PingFold(d, ys)
  {
    assert (ys + [y])[..|ys|] == ys;
    assert ys + [] == ys;
  }

  // ---------------------------------------------------------------------------
  // Without a revival
  // ---------------------------------------------------------------------------

  /** No DEAD claim about id has a later ALIVE claim. */
  ghost predicate NoRevival(claims: set<Claim>, id: NodeId) {
    forall x, y | x in claims && y in claims && x.id == id && y.id == id && x.status == DEAD && y.status == ALIVE ::
      y.incarnation <= x.incarnation
  }

  /** Then PING merges exactly like ACK, in whatever order and however often. */
  lemma {:induction false} PingMergesLikeAck(c: Config, s: State, us: seq<Update>, now: nat, id: NodeId)
    requires Sound(c, s.view) && (forall i | 0 <= i < |us| :: us[i].status <= DEAD)
    requires |Ids(s.view) + ClaimedIds(Claims(us))| <= c.capacity
    requires NoRevival(Known(s.view) + Claims(us), id)
    ensures Digest(PingMerged(c, s, us, now), id) == Digest(Merged(c, s, us, now), id)
  {
    hide Sound, Digest, AbsorbPing, AbsorbAck, Claims, ClaimedIds, Ids, Known;
    if |us| > 0 {
      var front, u := us[..|us| - 1], us[|us| - 1];
      assert us == front + [u];
      RoomForFewer(c, s, front, u);
      ClaimsAppend(front, u);
      PingMergesLikeAck(c, s, front, now, id);
      PingMergeIsFold(c, s, front, now, id);
      MergeIsJoin(c, s, front, now, id);
      var t, w := AbsorbAll(c, s, MSG_PING, front, now), AbsorbAll(c, s, MSG_ACK, front, now);
      assert Ids(s.view) + ClaimedIds(Claims(us)) == Ids(t.view) + {u.id} == Ids(w.view) + {u.id};
      AbsorbPingIds(c, t, u, now);
      AckHasRoom(c, w, u);
      AbsorbPingDigest(c, t, u, now, id);
      AbsorbAckDigest(c, w, u, now, id);
      assert ClaimOf(u) in Known(s.view) + Claims(us);
      if u.id == id && Digest(w.view, id).Some? {
        assert Digest(w.view, id).value in Known(s.view) + Claims(us);
      }
    }
  }

  lemma AckHasRoom(c: Config, s: State, u: Update)
    requires Sound(c, s.view) && |Ids(s.view) + {u.id}| <= c.capacity
    ensures Lookup(s.view, u.id).Some? || |s.view| < c.capacity
  {
    IdsSize(s.view);
    LookupAsMap(s.view, u.id);
    if u.id !in Ids(s.view) {
      assert |Ids(s.view) + {u.id}| == |Ids(s.view)| + 1;
    }
  }

  // ---------------------------------------------------------------------------
  // With revivals: the fold of claims about one id
  // ---------------------------------------------------------------------------

  /** Claims about one id, an entry e to start from, and the newest n among them all. */
  ghost predicate NewestOf(e: Option<Claim>, ys: set<Claim>, n: Claim) {
    && (n in ys || e == Some(n))
    && (forall y | y in ys :: y.incarnation <= n.incarnation && (y.incarnation == n.incarnation ==> y == n))
    && (e.Some? ==> e.value.incarnation <= n.incarnation && (e.value.incarnation == n.incarnation ==> e.value == n))
  }

  /** x can be what the entry holds when an older or no claim was there before. */
  ghost predicate CanHold(e: Option<Claim>, ys: set<Claim>, x: Claim) {
    e == Some(x) || (x in ys && (e.None? || x.incarnation > e.value.incarnation))
  }

  /** x is a death that a later ALIVE claim revives to the newest incarnation or beyond: the newest claim itself, or
      one just below it when the newest is not ALIVE. */
  ghost predicate Overshoots(ys: set<Claim>, n: Claim, x: Claim) {
    && x.status == DEAD && x.incarnation < n.incarnation
    && (n.status == ALIVE
        || exists y ::
             y in ys && y.status == ALIVE && x.incarnation < y.incarnation && y.incarnation + 1 == n.incarnation)
  }

  ghost predicate Diverts(e: Option<Claim>, ys: set<Claim>, n: Claim) {
    exists x :: CanHold(e, ys, x) && Overshoots(ys, n, x)
  }

  ghost function SetOf(ys: seq<Claim>): set<Claim> {
    set i | 0 <= i < |ys| :: ys[i]
  }

  /** What the fold keeps when nothing diverts it. */
  ghost predicate OnCourse(e: Option<Claim>, ys: set<Claim>, n: Claim, d: Option<Claim>) {
    match d
    case None => e.None?
    case Some(z) =>
      && z.incarnation <= n.incarnation && (z.incarnation == n.incarnation ==> z == n)
      && (e.Some? ==> z.incarnation >= e.value.incarnation)
      && (z.status == DEAD ==> CanHold(e, ys, z))
  }

  lemma StaysOnCourse(e: Option<Claim>, ys: set<Claim>, n: Claim, d: Option<Claim>, y: Claim)
    requires NewestOf(e, ys, n) && !Diverts(e, ys, n) && OnCourse(e, ys, n, d) && y in ys
    ensures OnCourse(e, ys, n, PingNewer(d, y))
    ensures y == n || d == Some(n) ==> PingNewer(d, y) == Some(n)
  {
    if d.Some? && d.value.status == DEAD {
      assert !Overshoots(ys, n, d.value);
    }
  }

  lemma {:induction false} FoldReaches(e: Option<Claim>, ys: set<Claim>, n: Claim, order: seq<Claim>)
    requires NewestOf(e, ys, n) && !Diverts(e, ys, n) && SetOf(order) <= ys
    ensures OnCourse(e, ys, n, PingFold(e, order))
    ensures e == Some(n) || n in order ==> PingFold(e, order) == Some(n)
  {
    if |order| > 0 {
      var front, y := order[..|order| - 1], order[|order| - 1];
      assert forall i | 0 <= i < |front| :: front[i] == order[i];
      assert order[|order| - 1] in SetOf(order);
      assert SetOf(front) <= SetOf(order);
      FoldReaches(e, ys, n, front);
      StaysOnCourse(e, ys, n, PingFold(e, front), y);
      assert order == front + [y];
    } else if e.Some? {
      assert CanHold(e, ys, e.value);
    }
  }

  lemma {:induction false} FoldSplit(d: Option<Claim>, a: seq<Claim>, b: seq<Claim>)
    ensures PingFold(d, a + b) == PingFold(PingFold(d, a), b)
  {
    if |b| == 0 {
      assert a + b == a;
    } else {
      FoldSplit(d, a, b[..|b| - 1]);
      assert (a + b)[..|a + b| - 1] == a + b[..|b| - 1];
    }
  }

  lemma {:induction false} FoldStays(d: Option<Claim>, ys: seq<Claim>)
    requires d.Some? && forall i | 0 <= i < |ys| :: ys[i].incarnation <= d.value.incarnation
    ensures PingFold(d, ys) == d
  {
    if |ys| > 0 {
      FoldStays(d, ys[..|ys| - 1]);
    }
  }

  /** The claim y revives the death x to the newest incarnation or beyond. */
  ghost predicate Revives(ys: set<Claim>, n: Claim, x: Claim, y: Claim) {
    && y in ys && y.status == ALIVE
    && x.status == DEAD && x.incarnation < y.incarnation && n.incarnation <= y.incarnation + 1
    && (y == n || (y.incarnation + 1 == n.incarnation && n.status != ALIVE))
  }

  lemma DiversionPair(e: Option<Claim>, ys: set<Claim>, n: Claim) returns (x: Claim, y: Claim)
    requires NewestOf(e, ys, n) && Diverts(e, ys, n)
    ensures CanHold(e, ys, x) && Revives(ys, n, x, y)
  {
    x :| CanHold(e, ys, x) && Overshoots(ys, n, x);
    y := n;
    if n.status != ALIVE {
      y :| y in ys && y.status == ALIVE && x.incarnation < y.incarnation && y.incarnation + 1 == n.incarnation;
    }
  }

  /** The claims to send first, so that no later claim can bring the entry back to n. */
  lemma Diversion(e: Option<Claim>, ys: set<Claim>, n: Claim) returns (first: seq<Claim>)
    requires NewestOf(e, ys, n) && Diverts(e, ys, n)
    ensures SetOf(first) <= ys
    ensures PingFold(e, first).Some? && PingFold(e, first) != Some(n)
    ensures PingFold(e, first).value.incarnation >= n.incarnation
    ensures n.status == ALIVE ==> PingFold(e, first).value.incarnation > n.incarnation
  {
    hide NewestOf, Diverts, PingFold;
    var x, y := DiversionPair(e, ys, n);
    var start := if e == Some(x) then [] else [x];
    FoldEmpty(e);
    FoldAppend(e, [], x);
    assert [] + [x] == [x];
    first := start + [y];
    FoldAppend(e, start, y);
  }

  lemma FoldEmpty(d: Option<Claim>)
    ensures PingFold(d, []) == d
  {
  }

  /** A dead entry below the newest claim, which is ALIVE, with nothing but deaths in between: every order
      revives the member by that claim, and all of them end one incarnation beyond it. */
  ghost predicate AlwaysOvershoots(e: Option<Claim>, ys: set<Claim>, n: Claim) {
    && e.Some? && e.value.status == DEAD && n.status == ALIVE && e.value.incarnation < n.incarnation
    && forall y | y in ys && e.value.incarnation < y.incarnation < n.incarnation :: y.status == DEAD
  }

  /** One incarnation beyond n once n has come, and dead below it until then. */
  ghost predicate Overshot(e: Option<Claim>, n: Claim, come: bool, d: Option<Claim>) {
    if come then d == Some(n.(incarnation := n.incarnation + 1))
    else e.Some? && d.Some? && d.value.status == DEAD && e.value.incarnation <= d.value.incarnation < n.incarnation
  }

  lemma StaysOvershot(e: Option<Claim>, ys: set<Claim>, n: Claim, come: bool, d: Option<Claim>, y: Claim)
    requires NewestOf(e, ys, n) && AlwaysOvershoots(e, ys, n) && y in ys && Overshot(e, n, come, d)
    ensures Overshot(e, n, come || y == n, PingNewer(d, y))
  {
  }

  lemma {:induction false} FoldOvershoots(e: Option<Claim>, ys: set<Claim>, n: Claim, order: seq<Claim>)
    requires NewestOf(e, ys, n) && AlwaysOvershoots(e, ys, n) && SetOf(order) <= ys
    ensures Overshot(e, n, n in order, PingFold(e, order))
  {
    if |order| > 0 {
      hide NewestOf, AlwaysOvershoots, Overshot, PingNewer;
      var front, y := order[..|order| - 1], order[|order| - 1];
      assert forall i | 0 <= i < |front| :: front[i] == order[i];
      assert y in SetOf(order);
      assert SetOf(front) <= SetOf(order);
      FoldOvershoots(e, ys, n, front);
      StaysOvershot(e, ys, n, n in front, PingFold(e, front), y);
      assert order == front + [y];
    }
  }

  lemma Unrevived(e: Option<Claim>, ys: set<Claim>, n: Claim) returns (y: Claim)
    requires e.Some? && e.value.status == DEAD && n.status == ALIVE && e.value.incarnation < n.incarnation
    requires !AlwaysOvershoots(e, ys, n)
    ensures y in ys && e.value.incarnation < y.incarnation < n.incarnation && y.status != DEAD
  {
    y :| y in ys && e.value.incarnation < y.incarnation < n.incarnation && y.status != DEAD;
  }

  lemma NewestIsAhead(e: Option<Claim>, ys: set<Claim>, n: Claim)
    requires NewestOf(e, ys, n) && Diverts(e, ys, n)
    ensures n in ys && (e.Some? ==> e.value.incarnation < n.incarnation)
  {
    var x :| CanHold(e, ys, x) && Overshoots(ys, n, x);
  }

  /** The claims to send first so that the entry lands on the newest incarnation after all. */
  lemma Landing(e: Option<Claim>, ys: set<Claim>, n: Claim) returns (first: seq<Claim>)
    requires NewestOf(e, ys, n) && Diverts(e, ys, n) && !AlwaysOvershoots(e, ys, n)
    ensures SetOf(first) <= ys
    ensures PingFold(e, first).Some? && PingFold(e, first).value.incarnation == n.incarnation
    ensures n.status != ALIVE ==> PingFold(e, first) == Some(n)
  {
    hide NewestOf, Diverts, AlwaysOvershoots, PingFold, SetOf;
    NewestIsAhead(e, ys, n);
    FoldEmpty(e);
    SetOfNothing();
    SetOfAppend([], n);
    FoldAppend(e, [], n);
    assert [] + [n] == [n];
    if e.Some? && e.value.status == DEAD && n.status == ALIVE {
      var y := Unrevived(e, ys, n);
      SetOfAppend([], y);
      FoldAppend(e, [], y);
      assert [] + [y] == [y];
      SetOfAppend([y], n);
      FoldAppend(e, [y], n);
      first := [y] + [n];
    } else {
      first := [n];
    }
  }

  lemma SetOfNothing()
    ensures SetOf([]) == {}
  {
  }

  // ---------------------------------------------------------------------------
  // Every order and every repetition
  // ---------------------------------------------------------------------------

  ghost function ClaimsAbout(claims: set<Claim>, id: NodeId): set<Claim> {
    set x | x in claims && x.id == id
  }

  lemma {:induction false} AboutHolds(us: seq<Update>, id: NodeId)
    ensures SetOf(About(us, id)) == ClaimsAbout(Claims(us), id)
  {
    if |us| > 0 {
      var front, u := us[..|us| - 1], us[|us| - 1];
      AboutHolds(front, id);
      assert us == front + [u];
      ClaimsAppend(front, u);
      SetOfAppend(About(front, id), ClaimOf(u));
      assert About(front, id) + [] == About(front, id);
    }
  }

  lemma SetOfAppend(ys: seq<Claim>, y: Claim)
    ensures SetOf(ys + [y]) == SetOf(ys) + {y}
  {
    var longer := ys + [y];
    assert longer[|ys|] == y;
    assert forall i | 0 <= i < |ys| :: longer[i] == ys[i];
  }

  lemma {:induction false} AboutSplit(a: seq<Update>, b: seq<Update>, id: NodeId)
    ensures About(a + b, id) == About(a, id) + About(b, id)
  {
    if |b| == 0 {
      assert a + b == a;
    } else {
      AboutSplit(a, b[..|b| - 1], id);
      assert (a + b)[..|a + b| - 1] == a + b[..|b| - 1];
    }
  }

  lemma UpdateFor(us: seq<Update>, id: NodeId, y: Claim) returns (u: Update)
    requires y in ClaimsAbout(Claims(us), id)
    ensures u in us && u.id == id && ClaimOf(u) == y
  {
    var k :| 0 <= k < |us| && ClaimOf(us[k]) == y;
    u := us[k];
  }

  lemma AboutLast(ws: seq<Update>, u: Update, id: NodeId)
    ensures About(ws + [u], id) == About(ws, id) + if u.id == id then [ClaimOf(u)] else []
  {
    assert (ws + [u])[..|ws|] == ws;
  }

  /** Updates of us that make the given claims about id. */
  lemma {:induction false} UpdatesFor(us: seq<Update>, id: NodeId, ys: seq<Claim>) returns (ws: seq<Update>)
    requires SetOf(ys) <= ClaimsAbout(Claims(us), id)
    ensures About(ws, id) == ys && (forall i | 0 <= i < |ws| :: ws[i] in us)
  {
    if |ys| == 0 {
      ws := [];
      assert About(ws, id) == [];
    } else {
      var front, y := ys[..|ys| - 1], ys[|ys| - 1];
      assert y in SetOf(ys);
      assert forall i | 0 <= i < |front| :: front[i] == ys[i];
      assert SetOf(front) <= SetOf(ys);
      hide SetOf, Claims, ClaimsAbout, About;
      var rest := UpdatesFor(us, id, front);
      var u := UpdateFor(us, id, y);
      ws := rest + [u];
      AboutLast(rest, u, id);
    }
  }

  lemma RepeatedClaims(ws: seq<Update>, us: seq<Update>)
    requires forall i | 0 <= i < |ws| :: ws[i] in us
    ensures Claims(ws + us) == Claims(us)
  {
    var all := ws + us;
    forall i | 0 <= i < |all|
      ensures ClaimOf(all[i]) in Claims(us)
    {
      assert all[i] in us;
      var k :| 0 <= k < |us| && us[k] == all[i];
    }
    forall k | 0 <= k < |us|
      ensures ClaimOf(us[k]) in Claims(all)
    {
      assert all[|ws| + k] == us[k];
    }
  }

  /** Every sequence of updates that makes these claims, in any order and multiplicity, ends in n. */
  ghost predicate EveryOrderReaches(c: Config, s: State, claims: set<Claim>, now: nat, id: NodeId, n: Claim) {
    forall ws: seq<Update> | Claims(ws) == claims :: Digest(PingMerged(c, s, ws, now), id) == Some(n)
  }

  /** The newest claim about id among what is known and what arrives. */
  ghost predicate NewestAbout(s: State, us: seq<Update>, id: NodeId, n: Claim) {
    n.id == id && Newest(Known(s.view) + Claims(us), n)
  }

  lemma NewestMeans(s: State, us: seq<Update>, id: NodeId, n: Claim)
    requires DistinctIds(s.view) && Consistent(Known(s.view) + Claims(us)) && NewestAbout(s, us, id, n)
    ensures NewestOf(Digest(s.view, id), ClaimsAbout(Claims(us), id), n)
  {
    DigestKnown(s.view, id);
  }

  lemma OrderHasRoom(c: Config, s: State, us: seq<Update>, ws: seq<Update>)
    requires Claims(ws) == Claims(us) && forall i | 0 <= i < |us| :: us[i].status <= DEAD
    ensures forall i | 0 <= i < |ws| :: ws[i].status <= DEAD
  {
    forall i | 0 <= i < |ws|
      ensures ws[i].status <= DEAD
    {
      assert ClaimOf(ws[i]) in Claims(us);
    }
  }

  /** An order of the same claims that begins with the given ones and ends where they lead, when they lead to
      the newest incarnation or beyond. */
  lemma Beginning(c: Config, s: State, us: seq<Update>, now: nat, id: NodeId, n: Claim, first: seq<Claim>)
      returns (ws: seq<Update>)
    requires Sound(c, s.view) && (forall i | 0 <= i < |us| :: us[i].status <= DEAD)
    requires |Ids(s.view) + ClaimedIds(Claims(us))| <= c.capacity
    requires NewestOf(Digest(s.view, id), ClaimsAbout(Claims(us), id), n)
    requires SetOf(first) <= ClaimsAbout(Claims(us), id)
    requires PingFold(Digest(s.view, id), first).Some?
    requires PingFold(Digest(s.view, id), first).value.incarnation >= n.incarnation
    ensures Claims(ws) == Claims(us)
    ensures Digest(PingMerged(c, s, ws, now), id) == PingFold(Digest(s.view, id), first)
  {
    var e := Digest(s.view, id);
    hide Sound, Digest, Claims, ClaimedIds, Ids, PingMerged, ClaimsAbout, PingFold, PingNewer;
    var start := UpdatesFor(us, id, first);
    ws := start + us;
    RepeatedClaims(start, us);
    OrderHasRoom(c, s, us, ws);
    PingMergeIsFold(c, s, ws, now, id);
    AboutSplit(start, us, id);
    AboutHolds(us, id);
    FoldSplit(e, first, About(us, id));
    assert forall i | 0 <= i < |About(us, id)| :: About(us, id)[i] in SetOf(About(us, id));
    FoldStays(PingFold(e, first), About(us, id));
  }

  /** PING piggybacks end in the newest claim in every order and multiplicity exactly when no death that the entry
      can come to hold overshoots it: none older than the newest claim when that is ALIVE, and otherwise none
      that an ALIVE claim just below the newest one revives. */
  lemma PingConvergesIff(c: Config, s: State, us: seq<Update>, now: nat, id: NodeId, n: Claim)
    requires Sound(c, s.view) && (forall i | 0 <= i < |us| :: us[i].status <= DEAD)
    requires |Ids(s.view) + ClaimedIds(Claims(us))| <= c.capacity
    requires Consistent(Known(s.view) + Claims(us)) && NewestAbout(s, us, id, n)
    ensures EveryOrderReaches(c, s, Claims(us), now, id, n)
       <==> !Diverts(Digest(s.view, id), ClaimsAbout(Claims(us), id), n)
  {
    var e, ys := Digest(s.view, id), ClaimsAbout(Claims(us), id);
    NewestMeans(s, us, id, n);
    hide Sound, Digest, Claims, ClaimedIds, Ids, Known, Consistent, Diverts, NewestAbout, PingMerged, ClaimsAbout;
    if !Diverts(e, ys, n) {
      forall ws: seq<Update> | Claims(ws) == Claims(us)
        ensures Digest(PingMerged(c, s, ws, now), id) == Some(n)
      {
        OrderHasRoom(c, s, us, ws);
        PingMergeIsFold(c, s, ws, now, id);
        AboutHolds(ws, id);
        FoldReaches(e, ys, n, About(ws, id));
      }
    } else {
      var first := Diversion(e, ys, n);
      var ws := Beginning(c, s, us, now, id, n, first);
      assert Digest(PingMerged(c, s, ws, now), id) != Some(n);
    }
  }

  /** Whatever the order and however often the claims come, the entry ends the same. */
  ghost predicate EveryOrderAgrees(c: Config, s: State, claims: set<Claim>, now: nat, id: NodeId) {
    forall a: seq<Update>, b: seq<Update> | Claims(a) == claims && Claims(b) == claims ::
      Digest(PingMerged(c, s, a, now), id) == Digest(PingMerged(c, s, b, now), id)
  }

  lemma OrderOvershoots(c: Config, s: State, us: seq<Update>, ws: seq<Update>, now: nat, id: NodeId, n: Claim)
    requires Sound(c, s.view) && (forall i | 0 <= i < |us| :: us[i].status <= DEAD)
    requires |Ids(s.view) + ClaimedIds(Claims(us))| <= c.capacity && Claims(ws) == Claims(us)
    requires var e, ys := Digest(s.view, id), ClaimsAbout(Claims(us), id);
             NewestOf(e, ys, n) && AlwaysOvershoots(e, ys, n)
    ensures Digest(PingMerged(c, s, ws, now), id) == Some(n.(incarnation := n.incarnation + 1))
  {
    var e, ys := Digest(s.view, id), ClaimsAbout(Claims(us), id);
    assert n in ys;
    hide Sound, Digest, Claims, ClaimedIds, Ids, PingMerged, ClaimsAbout, PingFold, NewestOf, AlwaysOvershoots;
    OrderHasRoom(c, s, us, ws);
    PingMergeIsFold(c, s, ws, now, id);
    AboutHolds(ws, id);
    FoldOvershoots(e, ys, n, About(ws, id));
    assert n in About(ws, id);
  }

  /** PING piggybacks agree in every order and multiplicity exactly when they end in the newest claim, or all
      overshoot it alike: a dead entry, a newest claim that is ALIVE, and only deaths between the two. */
  lemma PingAgreesIff(c: Config, s: State, us: seq<Update>, now: nat, id: NodeId, n: Claim)
    requires Sound(c, s.view) && (forall i | 0 <= i < |us| :: us[i].status <= DEAD)
    requires |Ids(s.view) + ClaimedIds(Claims(us))| <= c.capacity
    requires Consistent(Known(s.view) + Claims(us)) && NewestAbout(s, us, id, n)
    ensures var e, ys := Digest(s.view, id), ClaimsAbout(Claims(us), id);
            EveryOrderAgrees(c, s, Claims(us), now, id) <==> !Diverts(e, ys, n) || AlwaysOvershoots(e, ys, n)
  {
    var e, ys := Digest(s.view, id), ClaimsAbout(Claims(us), id);
    NewestMeans(s, us, id, n);
    hide Sound, Digest, Claims, ClaimedIds, Ids, Known, Consistent, Diverts, NewestAbout, PingMerged, ClaimsAbout,
         PingFold, NewestOf, AlwaysOvershoots, SetOf;
    if !Diverts(e, ys, n) {
      PingConvergesIff(c, s, us, now, id, n);
    } else if AlwaysOvershoots(e, ys, n) {
      forall ws: seq<Update> | Claims(ws) == Claims(us)
        ensures Digest(PingMerged(c, s, ws, now), id) == Some(n.(incarnation := n.incarnation + 1))
      {
        OrderOvershoots(c, s, us, ws, now, id, n);
      }
    } else {
      var far := Diversion(e, ys, n);
      var near := Landing(e, ys, n);
      var a := Beginning(c, s, us, now, id, n, far);
      var b := Beginning(c, s, us, now, id, n, near);
      assert Digest(PingMerged(c, s, a, now), id) != Digest(PingMerged(c, s, b, now), id);
    }
  }
}
