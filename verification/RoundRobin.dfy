// Round-robin choice among the peers of a pool, and its fairness.

module RoundRobin {
  import opened Bytes
  import opened Nodes

  datatype Peer = Peer(
    id: NodeId,
    nodeType: Byte,
    ip: seq<Byte>,
    gossipPort: Port,
    dataPort: Port,
    status: Status,
    lastSeen: nat,
    canExecute: bool)

  // ---------------------------------------------------------------------------
  // Round robin: positions count up for ever, a position stands for the peer at it modulo the count
  // ---------------------------------------------------------------------------

  predicate Eligible(p: Peer) {
    p.status == ALIVE && p.canExecute
  }

  predicate EligibleAt(ps: seq<Peer>, at: nat)
    requires |ps| > 0
  {
    Eligible(ps[at % |ps|])
  }

  /** The eligible positions among the w positions from g on, in order. */
  ghost function Window(ps: seq<Peer>, g: nat, w: nat): (r: seq<nat>)
    requires |ps| > 0
    ensures |r| <= w && (|r| > 0 ==> g <= r[0] < g + w && EligibleAt(ps, r[0]))
    decreases w
  {
    if w == 0 then []
    else if EligibleAt(ps, g) then [g] + Window(ps, g + 1, w - 1) else Window(ps, g + 1, w - 1)
  }

  lemma {:induction false} WindowInside(ps: seq<Peer>, g: nat, w: nat)
    requires |ps| > 0
    ensures forall i | 0 <= i < |Window(ps, g, w)| ::
              g <= Window(ps, g, w)[i] < g + w && EligibleAt(ps, Window(ps, g, w)[i])
    decreases w
  {
    hide EligibleAt;
    if w > 0 {
      WindowInside(ps, g + 1, w - 1);
    }
  }

  lemma {:induction false} WindowAscends(ps: seq<Peer>, g: nat, w: nat)
    requires |ps| > 0
    ensures forall i, j | 0 <= i < j < |Window(ps, g, w)| :: Window(ps, g, w)[i] < Window(ps, g, w)[j]
    decreases w
  {
    hide EligibleAt;
    if w > 0 {
      WindowInside(ps, g + 1, w - 1);
      WindowAscends(ps, g + 1, w - 1);
    }
  }

  lemma {:induction false} WindowCovers(ps: seq<Peer>, g: nat, w: nat, at: nat)
    requires |ps| > 0 && g <= at < g + w && EligibleAt(ps, at)
    ensures at in Window(ps, g, w)
    decreases w
  {
    hide EligibleAt;
    if g < at {
      WindowCovers(ps, g + 1, w - 1, at);
    }
  }

  /** How many peers of the pool are eligible. */
  ghost function Count(ps: seq<Peer>): nat {
    if |ps| == 0 then 0 else Count(ps[..|ps| - 1]) + if Eligible(ps[|ps| - 1]) then 1 else 0
  }

  /** The position that a selection starting at g stops at: the first eligible one of the next w. */
  ghost function Pick(ps: seq<Peer>, g: nat, w: nat): (at: nat)
    requires |ps| > 0
    ensures g <= at <= g + w
    ensures at < g + w ==> EligibleAt(ps, at)
    ensures forall k | g <= k < at :: !EligibleAt(ps, k)
    decreases w
  {
    if w == 0 || EligibleAt(ps, g) then g else Pick(ps, g + 1, w - 1)
  }

  /** The positions that k selections in a row stop at, from counter g on. */
  ghost function Picks(ps: seq<Peer>, g: nat, k: nat): (r: seq<nat>)
    requires |ps| > 0
    ensures |r| == k
    decreases k
  {
    if k == 0 then []
    else
      var at := Pick(ps, g, |ps|);
      [at] + Picks(ps, at + 1, k - 1)
  }

  lemma {:induction false} WindowOneMore(ps: seq<Peer>, g: nat, w: nat)
    requires |ps| > 0
    ensures Window(ps, g, w + 1) == Window(ps, g, w) + if EligibleAt(ps, g + w) then [g + w] else []
    decreases w
  {
    hide EligibleAt;
    if w > 0 {
      WindowOneMore(ps, g + 1, w - 1);
    }
  }

  /** Moving a window of a full round by one position loses one peer and gains the same peer again. */
  lemma WindowSlides(ps: seq<Peer>, g: nat)
    requires |ps| > 0
    ensures |Window(ps, g + 1, |ps|)| == |Window(ps, g, |ps|)|
  {
    hide EligibleAt;
    WindowOneMore(ps, g + 1, |ps| - 1);
    SamePeer(ps, g);
  }

  lemma SamePeer(ps: seq<Peer>, g: nat)
    requires |ps| > 0
    ensures EligibleAt(ps, g + |ps|) == EligibleAt(ps, g)
  {
    ResidueIs(g + |ps|, |ps|, g / |ps| + 1, g % |ps|);
  }

  lemma {:induction false} WindowSize(ps: seq<Peer>, g: nat)
    requires |ps| > 0
    ensures |Window(ps, g, |ps|)| == Count(ps)
    decreases g
  {
    if g == 0 {
      FirstWindow(ps, |ps|);
      assert ps[..|ps|] == ps;
    } else {
      WindowSize(ps, g - 1);
      WindowSlides(ps, g - 1);
    }
  }

  lemma {:induction false} FirstWindow(ps: seq<Peer>, w: nat)
    requires 0 < |ps| && w <= |ps|
    ensures |Window(ps, 0, w)| == Count(ps[..w])
  {
    hide EligibleAt;
    if w > 0 {
      FirstWindow(ps, w - 1);
      WindowOneMore(ps, 0, w - 1);
      assert ps[..w][..w - 1] == ps[..w - 1];
      EligibleInFirstRound(ps, w - 1);
    }
  }

  lemma EligibleInFirstRound(ps: seq<Peer>, i: nat)
    requires i < |ps|
    ensures EligibleAt(ps, i) == Eligible(ps[i])
  {
    ResidueIs(i, |ps|, 0, i);
  }

  /** Selecting as often as a window has eligible positions picks exactly those positions. */
  lemma {:induction false} PicksAreWindow(ps: seq<Peer>, g: nat, w: nat)
    requires |ps| > 0 && w <= |ps|
    ensures Picks(ps, g, |Window(ps, g, w)|) == Window(ps, g, w)
    decreases w
  {
    hide EligibleAt;
    var r := Window(ps, g, w);
    if |r| > 0 {
      var at := Pick(ps, g, |ps|);
      assert at <= r[0];
      WindowFrom(ps, g, w, at);
      PicksAreWindow(ps, at + 1, w - (at + 1 - g));
    }
  }

  /** A window begins with the first eligible position in it. */
  lemma {:induction false} WindowFrom(ps: seq<Peer>, g: nat, w: nat, at: nat)
    requires |ps| > 0 && g <= at < g + w && EligibleAt(ps, at)
    requires forall k | g <= k < at :: !EligibleAt(ps, k)
    ensures Window(ps, g, w) == [at] + Window(ps, at + 1, w - (at + 1 - g))
    decreases w
  {
    hide EligibleAt;
    if g < at {
      WindowFrom(ps, g + 1, w - 1, at);
    }
  }

  /** Fairness: from any counter, as many selections in a row as there are eligible peers return each
      eligible peer exactly once and nobody else. */
  lemma RoundRobinIsFair(ps: seq<Peer>, g: nat)
    requires |ps| > 0
    ensures var r := Picks(ps, g, Count(ps));
            && (forall t | 0 <= t < |r| :: ps[r[t] % |ps|].status == ALIVE && ps[r[t] % |ps|].canExecute)
            && (forall s, t | 0 <= s < t < |r| :: r[s] % |ps| != r[t] % |ps|)
            && (forall i | 0 <= i < |ps| && ps[i].status == ALIVE && ps[i].canExecute ::
                  exists t :: 0 <= t < |r| && r[t] % |ps| == i)
  {
    var n, r := |ps|, Picks(ps, g, Count(ps));
    WindowSize(ps, g);
    PicksAreWindow(ps, g, n);
    WindowInside(ps, g, n);
    WindowAscends(ps, g, n);
    forall s, t | 0 <= s < t < |r|
      ensures r[s] % n != r[t] % n
    {
      CloseResidues(r[s], r[t], n);
    }
    forall i | 0 <= i < n && Eligible(ps[i])
      ensures exists t :: 0 <= t < |r| && r[t] % n == i
    {
      var at := PositionOf(i, g, n);
      WindowCovers(ps, g, n, at);
      var t :| 0 <= t < |r| && r[t] == at;
    }
  }

  lemma CloseResidues(a: nat, b: nat, n: nat)
    requires a < b < a + n
    ensures a % n != b % n
  {
    if a / n < b / n {
      Spread(n, a / n, b / n);
    } else {
      if b / n < a / n {
        Spread(n, b / n, a / n);
      }
    }
  }

  /** Every peer has a position in every full round. */
  lemma PositionOf(i: nat, g: nat, n: nat) returns (at: nat)
    requires i < n
    ensures g <= at < g + n && at % n == i
  {
    var k := if g % n <= i then g / n else g / n + 1;
    assert n * (g / n + 1) == n * (g / n) + n;
    at := n * k + i;
    ResidueIs(at, n, k, i);
  }

  lemma Spread(n: nat, p: nat, q: nat)
    requires p < q
    ensures n * p + n <= n * q
  {
    var d := q - p - 1;
    assert n * q == n * p + n + n * d;
    assert n * d >= 0;
  }

  lemma UniqueQuotient(n: nat, p: nat, r: nat, q: nat, s: nat)
    requires r < n && s < n && n * p + r == n * q + s
    ensures p == q && r == s
  {
    if p < q {
      Spread(n, p, q);
    }
    if q < p {
      Spread(n, q, p);
    }
  }

  lemma ResidueIs(a: nat, n: nat, q: nat, r: nat)
    requires r < n && a == n * q + r
    ensures a % n == r
  {
    UniqueQuotient(n, a / n, a % n, q, r);
  }
}
