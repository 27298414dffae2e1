// A timed wait that swallows a signal: exactly which sets of callers it can harm.

module QueueStranding {
  import opened Common
  import opened QueueProtocol

  // ---------------------------------------------------------------------------
  // Playing events
  // ---------------------------------------------------------------------------

  /** The state after some events, or None when one of them is not enabled. */
  ghost function Play<T>(q: Queue<T>, events: seq<Event<T>>): Option<Queue<T>>
    decreases |events|
  {
    if |events| == 0 then Some(q)
    else if Enabled(q, events[0]) then Play(Fire(q, events[0]), events[1..])
    else None
  }

  lemma {:induction false} PlayIsRun<T>(q: Queue<T>, events: seq<Event<T>>) returns (states: seq<Queue<T>>)
    requires Play(q, events).Some?
    ensures |states| == |events| + 1 && states[0] == q && states[|events|] == Play(q, events).value
    ensures forall k | 0 <= k < |events| :: Moves(states, events, k)
    decreases |events|
  {
    if |events| == 0 {
      states := [q];
    } else {
      var rest := PlayIsRun(Fire(q, events[0]), events[1..]);
      states := [q] + rest;
      forall k | 0 < k < |events|
        ensures Moves(states, events, k)
      {
        assert Moves(rest, events[1..], k - 1);
      }
    }
  }

  lemma {:induction false} PlaySplit<T>(q: Queue<T>, a: seq<Event<T>>, b: seq<Event<T>>)
    requires Play(q, a).Some?
    ensures Play(q, a + b) == Play(Play(q, a).value, b)
    decreases |a|
  {
    if |a| == 0 {
      assert a + b == b;
    } else {
      assert (a + b)[1..] == a[1..] + b;
      PlaySplit(Fire(q, a[0]), a[1..], b);
    }
  }

  lemma PlayOne<T>(q: Queue<T>, e: Event<T>)
    requires Enabled(q, e)
    ensures Play(q, [e]) == Some(Fire(q, e))
  {
    hide Enabled, Fire;
    assert [e][1..] == [];
  }

  lemma PlayTwo<T>(q: Queue<T>, a: Event<T>, b: Event<T>)
    requires Enabled(q, a) && Enabled(Fire(q, a), b)
    ensures Play(q, [a, b]) == Some(Fire(Fire(q, a), b))
  {
    hide Enabled, Fire;
    assert [a, b][1..] == [b];
    PlayOne(Fire(q, a), b);
  }

  lemma PlayFour<T>(q: Queue<T>, a: Event<T>, b: Event<T>, c: Event<T>, d: Event<T>)
    requires Enabled(q, a) && Enabled(Fire(q, a), b)
    requires Enabled(Fire(Fire(q, a), b), c) && Enabled(Fire(Fire(Fire(q, a), b), c), d)
    ensures Play(q, [a, b, c, d]) == Some(Fire(Fire(Fire(Fire(q, a), b), c), d))
  {
    hide Enabled, Fire;
    PlayTwo(q, a, b);
    PlayTwo(Fire(Fire(q, a), b), c, d);
    PlaySplit(q, [a, b], [c, d]);
    assert [a, b] + [c, d] == [a, b, c, d];
  }

  /** A pop that finds the queue empty goes to sleep. */
  function Sleeping<T>(t: Thread, p: Patience): seq<Event<T>> {
    [CallPop(t, p), Acquire(t), Test(t), Event.Sleep(t)]
  }

  lemma PopEnters<T>(q: Queue<T>, t: Thread, p: Patience)
    requires t in q.pc && q.pc[t].Idle? && q.holder == None
    ensures Play(q, [CallPop(t, p), Acquire(t)]) == Some(q.(pc := q.pc[t := PopTest(p)], holder := Some(t)))
  {
    hide Play;
    var q1 := q.(pc := q.pc[t := PopLock(p)]);
    assert Fire(q, CallPop(t, p)) == q1;
    assert q1.pc[t := PopTest(p)] == q.pc[t := PopTest(p)];
    PlayTwo(q, CallPop(t, p), Acquire(t));
  }

  lemma PopWaits<T>(q: Queue<T>, t: Thread, p: Patience)
    requires t in q.pc && q.pc[t] == PopTest(p) && q.holder == Some(t) && q.contents == [] && p != Never
    ensures Play(q, [Test(t), Event.Sleep(t)]) == Some(q.(pc := q.pc[t := PopBlocked(p)], holder := None))
  {
    hide Play;
    var q1 := q.(pc := q.pc[t := PopWait(p)]);
    assert Fire(q, Test(t)) == q1;
    assert q1.pc[t := PopBlocked(p)] == q.pc[t := PopBlocked(p)];
    PlayTwo(q, Test(t), Event.Sleep(t));
  }

  lemma PopSleeps<T>(q: Queue<T>, t: Thread, p: Patience)
    requires t in q.pc && q.pc[t].Idle? && q.holder == None && q.contents == [] && p != Never
    ensures Play(q, Sleeping(t, p)) == Some(q.(pc := q.pc[t := PopBlocked(p)]))
  {
    hide Play, Enabled, Fire;
    PopEnters(q, t, p);
    var r := q.(pc := q.pc[t := PopTest(p)], holder := Some(t));
    PopWaits(r, t, p);
    PlaySplit(q, [CallPop(t, p), Acquire(t)], [Test(t), Event.Sleep(t)]);
    assert r.pc[t := PopBlocked(p)] == q.pc[t := PopBlocked(p)];
    assert [CallPop(t, p), Acquire(t)] + [Test(t), Event.Sleep(t)] == Sleeping<T>(t, p);
  }

  /** A push into an empty queue whose signal wakes t. */
  function Pushing<T>(w: Thread, x: T, t: Thread): seq<Event<T>> {
    [CallPush(w, x), Acquire(w), Test(w), Write(w)] + [Unlock(w), Signal(w, Some(t))]
  }

  lemma PushWrites<T>(q: Queue<T>, w: Thread, x: T)
    requires w in q.pc && q.pc[w].Idle? && q.holder == None && q.contents == [] && q.capacity > 0
    ensures Play(q, [CallPush(w, x), Acquire(w), Test(w), Write(w)])
         == Some(q.(pc := q.pc[w := PushUnlock], holder := Some(w), contents := [x], accepted := q.accepted + [x]))
  {
    hide Play;
    var q1 := q.(pc := q.pc[w := PushLock(x)]);
    assert Fire(q, CallPush(w, x)) == q1;
    var q2 := q.(pc := q.pc[w := PushTest(x)], holder := Some(w));
    assert Fire(q1, Acquire(w)) == q2;
    var q3 := q.(pc := q.pc[w := PushWrite(x)], holder := Some(w));
    assert Fire(q2, Test(w)) == q3;
    var q4 := q.(pc := q.pc[w := PushUnlock], holder := Some(w), contents := [x], accepted := q.accepted + [x]);
    assert Fire(q3, Write(w)) == q4;
    PlayFour(q, CallPush(w, x), Acquire(w), Test(w), Write(w));
  }

  lemma PushWakes<T>(q: Queue<T>, w: Thread, x: T, t: Thread, p: Patience)
    requires w in q.pc && q.pc[w].Idle? && q.holder == None && q.contents == [] && q.capacity > 0
    requires t in q.pc && t != w && q.pc[t] == PopBlocked(p)
    ensures Play(q, Pushing(w, x, t))
         == Some(q.(pc := q.pc[t := PopWoken(p)], contents := [x], accepted := q.accepted + [x]))
  {
    hide Play;
    var r := q.(pc := q.pc[w := PushUnlock], holder := Some(w), contents := [x], accepted := q.accepted + [x]);
    PushWrites(q, w, x);
    PushSignals(r, w, t, p);
    PlaySplit(q, [CallPush(w, x), Acquire(w), Test(w), Write(w)], [Unlock(w), Signal(w, Some(t))]);
    assert r.pc[w := Idle][t := PopWoken(p)] == q.pc[t := PopWoken(p)];
  }

  lemma PushSignals<T>(q: Queue<T>, w: Thread, t: Thread, p: Patience)
    requires w in q.pc && q.pc[w].PushUnlock? && t in q.pc && t != w && q.pc[t] == PopBlocked(p)
    ensures Play(q, [Unlock(w), Signal(w, Some(t))])
         == Some(q.(pc := q.pc[w := Idle][t := PopWoken(p)], holder := None))
  {
    hide Play;
    var q1 := q.(pc := q.pc[w := PushSignal], holder := None);
    assert Fire(q, Unlock(w)) == q1;
    assert q1.pc[w := Idle][t := PopWoken(p)] == q.pc[w := Idle][t := PopWoken(p)];
    PlayTwo(q, Unlock(w), Signal(w, Some(t)));
  }

  // ---------------------------------------------------------------------------
  // The run that strands an item
  // ---------------------------------------------------------------------------

  ghost function Quiet<T>(threads: set<Thread>, capacity: nat): Queue<T> {
    Queue(capacity, [], None, map t | t in threads :: Idle, [], [])
  }

  function Stranding<T>(w: Thread, t: Thread, u: Thread, p: Patience, x: T): seq<Event<T>> {
    Sleeping(t, Timed) + Sleeping(u, p) + Pushing(w, x, t) + [Swallow(t)]
  }

  /** t goes to sleep with a timeout, then u; w pushes x and signals t, whose wait expires all the same. */
  lemma StrandingPlays<T>(threads: set<Thread>, capacity: nat, w: Thread, t: Thread, u: Thread, p: Patience, x: T)
    requires w in threads && t in threads && u in threads && w != t && w != u && t != u && p != Never && capacity > 0
    ensures var q := Quiet<T>(threads, capacity);
            Play(q, Stranding(w, t, u, p, x))
            == Some(q.(pc := q.pc[t := PopExpired][u := PopBlocked(p)], contents := [x], accepted := [x]))
  {
    hide Play, Enabled, Fire;
    var q := Quiet<T>(threads, capacity);
    var q1 := q.(pc := q.pc[t := PopBlocked(Timed)]);
    var q2 := q.(pc := q1.pc[u := PopBlocked(p)]);
    var q3 := q.(pc := q2.pc[t := PopWoken(Timed)], contents := [x], accepted := [x]);
    PopSleeps(q, t, Timed);
    PopSleeps(q1, u, p);
    PushWakes(q2, w, x, t, Timed);
    SwallowPlays(q3, t);
    PlaySplit(q, Sleeping(t, Timed), Sleeping(u, p));
    PlaySplit(q, Sleeping(t, Timed) + Sleeping(u, p), Pushing(w, x, t));
    PlaySplit(q, Sleeping(t, Timed) + Sleeping(u, p) + Pushing(w, x, t), [Swallow(t)]);
    assert Play(q, Sleeping(t, Timed) + Sleeping(u, p)) == Some(q2);
    assert q2.accepted + [x] == [x];
    assert Play(q, Sleeping(t, Timed) + Sleeping(u, p) + Pushing(w, x, t)) == Some(q3);
    assert q3.pc[t := PopExpired] == q.pc[t := PopExpired][u := PopBlocked(p)];
  }

  lemma SwallowPlays<T>(q: Queue<T>, t: Thread)
    requires t in q.pc && q.pc[t] == PopWoken(Timed)
    ensures Play(q, [Swallow(t)]) == Some(q.(pc := q.pc[t := PopExpired]))
  {
    PlayOne(q, Swallow(t));
  }

  lemma GiveUpPlays<T>(q: Queue<T>, t: Thread)
    requires t in q.pc && q.pc[t].PopExpired? && q.holder == None
    ensures Play(q, [Acquire(t), Unlock(t)]) == Some(q.(pc := q.pc[t := Idle]))
  {
    hide Play;
    var q1 := q.(pc := q.pc[t := PopGiveUp], holder := Some(t));
    assert Fire(q, Acquire(t)) == q1;
    assert q1.pc[t := Idle] == q.pc[t := Idle];
    PlayTwo(q, Acquire(t), Unlock(t));
  }

  // ---------------------------------------------------------------------------
  // Exactly which callers lose a wake-up
  // ---------------------------------------------------------------------------

  /** In every run of these threads in these roles, every queued item is covered at every moment. */
  ghost predicate NeverUncovered<T(!new)>(threads: set<Thread>, capacity: nat, roles: Roles) {
    forall states: seq<Queue<T>>, events: seq<Event<T>>, n: nat
      | Run(states, events, roles) && OfThese(states, threads, capacity) && n < |states| ::
      ItemsCovered(states[n])
  }

  ghost predicate OfThese<T>(states: seq<Queue<T>>, threads: set<Thread>, capacity: nat) {
    |states| > 0 && states[0].capacity == capacity && states[0].pc.Keys == threads
  }

  /** An item waits, everything has come to rest, and a consumer without a timeout sleeps. */
  ghost predicate Stranded<T>(q: Queue<T>) {
    && q.contents != []
    && (forall t | t in q.pc :: AtRest(q.pc[t]))
    && exists u :: u in q.pc && q.pc[u] == PopBlocked(Forever)
  }

  ghost predicate NeverStranded<T(!new)>(threads: set<Thread>, capacity: nat, roles: Roles) {
    forall states: seq<Queue<T>>, events: seq<Event<T>>, n: nat
      | Run(states, events, roles) && OfThese(states, threads, capacity) && n < |states| ::
      !Stranded(states[n])
  }

  lemma StrandingRun<T(!new)>(threads: set<Thread>, capacity: nat, roles: Roles, x: T,
                              w: Thread, t: Thread, u: Thread, p: Patience, more: seq<Event<T>>, q: Queue<T>)
      returns (states: seq<Queue<T>>, events: seq<Event<T>>)
    requires capacity > 0 && Rivals(threads, roles, w, t, u)
    requires (p == Timed && u in roles.timed) || (p == Forever && u in roles.forever)
    requires forall k | 0 <= k < |more| :: !more[k].CallPush? && !more[k].CallPop?
    requires var q0 := Quiet<T>(threads, capacity);
             var q1 := q0.(pc := q0.pc[t := PopExpired][u := PopBlocked(p)], contents := [x], accepted := [x]);
             Play(q1, more) == Some(q)
    ensures Run(states, events, roles) && OfThese(states, threads, capacity) && |states| == |events| + 1
    ensures states[|events|] == q
  {
    hide Play, Enabled, Fire;
    StrandingPlays(threads, capacity, w, t, u, p, x);
    events := Stranding(w, t, u, p, x) + more;
    PlaySplit(Quiet<T>(threads, capacity), Stranding(w, t, u, p, x), more);
    states := PlayIsRun(Quiet<T>(threads, capacity), events);
    StrandingObeys(threads, roles, w, t, u, p, x);
    forall k | 0 <= k < |events|
      ensures Obeys(roles, events[k])
    {
      if k < |Stranding(w, t, u, p, x)| {
        assert events[k] == Stranding(w, t, u, p, x)[k];
      } else {
        assert events[k] == more[k - |Stranding(w, t, u, p, x)|];
      }
    }
  }

  lemma StrandingObeys<T>(threads: set<Thread>, roles: Roles, w: Thread, t: Thread, u: Thread, p: Patience, x: T)
    requires Rivals(threads, roles, w, t, u)
    requires (p == Timed && u in roles.timed) || (p == Forever && u in roles.forever)
    ensures forall e | e in Stranding(w, t, u, p, x) :: Obeys(roles, e)
  {
  }

  /** A queue of at least one slot can leave an item uncovered exactly when a pusher, a timed consumer and
      a third thread that pops with any kind of wait share it. */
  lemma UncoveredIff<T(!new)>(threads: set<Thread>, capacity: nat, roles: Roles, x: T)
    ensures NeverUncovered<T>(threads, capacity, roles) <==> capacity == 0 || !HasRivals(threads, roles)
  {
    hide Run, ItemsCovered;
    if capacity == 0 || !HasRivals(threads, roles) {
      forall states: seq<Queue<T>>, events: seq<Event<T>>, n: nat
        | Run(states, events, roles) && OfThese(states, threads, capacity) && n < |states|
        ensures ItemsCovered(states[n])
      {
        NoLostWakeup(states, events, roles, n);
      }
    } else {
      var w, t, u :| Rivals(threads, roles, w, t, u);
      var p := if u in roles.timed then Timed else Forever;
      var q := Quiet<T>(threads, capacity);
      var r := q.(pc := q.pc[t := PopExpired][u := PopBlocked(p)], contents := [x], accepted := [x]);
      var states, events := StrandingRun(threads, capacity, roles, x, w, t, u, p, [], r);
      LeftUncovered(r, t, u, p);
      assert !ItemsCovered(states[|events|]);
    }
  }

  lemma LeftUncovered<T>(q: Queue<T>, t: Thread, u: Thread, p: Patience)
    requires t in q.pc && u in q.pc && t != u && q.holder == None && q.contents != []
    requires q.pc[t].PopExpired? && q.pc[u] == PopBlocked(p)
    requires forall v | v in q.pc && v != t && v != u :: q.pc[v].Idle?
    ensures !ItemsCovered(q)
  {
    CountZero(q.pc, ConsumerBlocked);
    CountZero(q.pc, AboutToSignalNotEmpty);
    CountZero(q.pc, ConsumerReentering);
  }

  /** An item can be stranded for good exactly when the third thread may pop without a timeout. */
  lemma StrandedIff<T(!new)>(threads: set<Thread>, capacity: nat, roles: Roles, x: T)
    ensures NeverStranded<T>(threads, capacity, roles) <==> capacity == 0 || !HasPatientRival(threads, roles)
  {
    hide Run, Stranded;
    if capacity == 0 || !HasPatientRival(threads, roles) {
      forall states: seq<Queue<T>>, events: seq<Event<T>>, n: nat
        | Run(states, events, roles) && OfThese(states, threads, capacity) && n < |states|
        ensures !Stranded(states[n])
      {
        NotStranded(states, events, roles, n);
      }
    } else {
      var w, t, u :| Rivals(threads, roles, w, t, u) && u in roles.forever;
      var q := Quiet<T>(threads, capacity);
      var r := q.(pc := q.pc[t := PopExpired][u := PopBlocked(Forever)], contents := [x], accepted := [x]);
      GiveUpPlays(r, t);
      var z := r.(pc := r.pc[t := Idle]);
      var states, events := StrandingRun(threads, capacity, roles, x, w, t, u, Forever, [Acquire(t), Unlock(t)], z);
      LeftStranded(z, u);
      assert Stranded(states[|events|]);
    }
  }

  lemma LeftStranded<T>(q: Queue<T>, u: Thread)
    requires u in q.pc && q.contents != [] && q.pc[u] == PopBlocked(Forever)
    requires forall v | v in q.pc && v != u :: q.pc[v].Idle?
    ensures Stranded(q)
  {
  }

  /** If an item were stranded, a pusher that does not sleep exists; without a patient rival the timed
      consumers are too few for a swallowed signal to have done harm. */
  lemma NotStranded<T>(states: seq<Queue<T>>, events: seq<Event<T>>, roles: Roles, n: nat)
    requires Run(states, events, roles) && n < |states|
    requires states[0].capacity == 0 || !HasPatientRival(states[0].pc.Keys, roles)
    ensures !Stranded(states[n])
  {
    var q := states[n];
    RunInv(states, events, roles, n);
    if Stranded(q) {
      hide Run, Inv, Enabled, Fire, ItemsCovered;
      var u :| u in q.pc && q.pc[u] == PopBlocked(Forever);
      var w :| w in q.pc && w in roles.pushers && !Asleep(q.pc[w]);
      assert Within(roles, u, q.pc[u]);
      NoRivalsAtAll(q.pc.Keys, roles, w, u);
      NobodySleepsInVain(states, events, roles, n);
      assert false;
    }
  }

  lemma NoRivalsAtAll(threads: set<Thread>, roles: Roles, w: Thread, u: Thread)
    requires !HasPatientRival(threads, roles)
    requires w in threads && u in threads && w != u && w in roles.pushers && u in roles.forever
    ensures !HasRivals(threads, roles)
  {
    if a, t, v :| Rivals(threads, roles, a, t, v) {
      RivalsMakePatientOnes(threads, roles, w, u, a, t, v);
    }
  }

  /** Rivals a, t and v beside a pusher w and a patient consumer u can be regrouped around a patient one. */
  lemma RivalsMakePatientOnes(threads: set<Thread>, roles: Roles, w: Thread, u: Thread, a: Thread, t: Thread, v: Thread)
    requires w in threads && u in threads && w != u && w in roles.pushers && u in roles.forever
    requires Rivals(threads, roles, a, t, v)
    ensures HasPatientRival(threads, roles)
  {
    if v in roles.forever {
    } else if t != w && t != u {
      assert Rivals(threads, roles, w, t, u);
    } else if v != w && v != u {
      assert Rivals(threads, roles, w, v, u);
    } else {
      assert Rivals(threads, roles, a, w, u);
    }
  }

  // ---------------------------------------------------------------------------
  // The program's own consumers, which all pop with a timeout
  // ---------------------------------------------------------------------------

  /** The wait of t expires, its pop returns, and its next pop takes what it finds. */
  function Retry<T>(t: Thread): seq<Event<T>> {
    [Expire(t)] + [Acquire(t), Unlock(t)] + [CallPop(t, Timed), Acquire(t), Test(t), Read(t)]
  }

  lemma RetryTakes<T>(q: Queue<T>, t: Thread)
    requires t in q.pc && q.pc[t] == PopBlocked(Timed) && q.holder == None && q.contents != []
    ensures Play(q, Retry(t)).Some?
    ensures Play(q, Retry(t)).value.removed == q.removed + [q.contents[0]]
  {
    hide Play;
    var q1 := q.(pc := q.pc[t := PopExpired]);
    assert Play(q, [Expire(t)]) == Some(q1) by {
      ExpirePlays(q, t);
    }
    GiveUpPlays(q1, t);
    var q2 := q.(pc := q.pc[t := Idle]);
    assert q1.pc[t := Idle] == q2.pc;
    PlaySplit(q, [Expire(t)], [Acquire(t), Unlock(t)]);
    PopTakes(q2, t);
    PlaySplit(q, [Expire(t)] + [Acquire(t), Unlock(t)], [CallPop(t, Timed), Acquire(t), Test(t), Read(t)]);
  }

  lemma ExpirePlays<T>(q: Queue<T>, t: Thread)
    requires t in q.pc && q.pc[t] == PopBlocked(Timed)
    ensures Play(q, [Expire(t)]) == Some(q.(pc := q.pc[t := PopExpired]))
  {
    PlayOne(q, Expire(t));
  }

  lemma PopTakes<T>(q: Queue<T>, t: Thread)
    requires t in q.pc && q.pc[t].Idle? && q.holder == None && q.contents != []
    ensures var after := Play(q, [CallPop(t, Timed), Acquire(t), Test(t), Read(t)]);
            after.Some? && after.value.removed == q.removed + [q.contents[0]]
  {
    hide Play;
    var q1 := q.(pc := q.pc[t := PopLock(Timed)]);
    assert Fire(q, CallPop(t, Timed)) == q1;
    var q2 := q.(pc := q.pc[t := PopTest(Timed)], holder := Some(t));
    assert Fire(q1, Acquire(t)) == q2;
    var q3 := q.(pc := q.pc[t := PopRead], holder := Some(t));
    assert Fire(q2, Test(t)) == q3;
    PlayFour(q, CallPop(t, Timed), Acquire(t), Test(t), Read(t));
  }

  /** When every waiting pop has a timeout, as in the executor loop, nothing is stranded: whenever the mutex is
      free and an item lies beside a sleeper, the sleeper's wait can expire, and its next pop takes the
      oldest item. */
  lemma TimedConsumersRecover<T>(states: seq<Queue<T>>, events: seq<Event<T>>, roles: Roles, n: nat, t: Thread)
    requires Run(states, events, roles) && n < |states| && roles.forever == {}
    requires t in states[n].pc && states[n].pc[t].PopBlocked? && states[n].holder == None && states[n].contents != []
    ensures Enabled(states[n], Expire(t))
    ensures Play(states[n], Retry(t)).Some?
    ensures Play(states[n], Retry(t)).value.removed == states[n].removed + [states[n].contents[0]]
  {
    RunInv(states, events, roles, n);
    assert Within(roles, t, states[n].pc[t]);
    RetryTakes(states[n], t);
  }
}
