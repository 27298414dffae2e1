// message_queue_push and message_queue_pop as a concurrent protocol: any number of
// threads, one mutex, two condition variables, signals sent after the unlock.

module QueueProtocol {

  import opened Common

  type Thread = nat

  /** The timeout_ms argument of a pop: negative, positive or zero. */
  datatype Patience = Forever | Timed | Never

  /** Where a thread is. `Wait` is about to enter pthread_cond_wait, `Blocked` is inside it
      without the mutex, `Woken` is signalled and waits for the mutex. */
  datatype Pc<T> =
    | Idle
    | PushLock(x: T) | PushTest(x: T) | PushWait(x: T) | PushBlocked(x: T) | PushWoken(x: T)
    | PushWrite(x: T) | PushUnlock | PushSignal
    | PopLock(p: Patience) | PopTest(p: Patience) | PopWait(p: Patience)
    | PopBlocked(p: Patience) | PopWoken(p: Patience)
    | PopRead | PopUnlock | PopSignal
    | PopExpired | PopGiveUp

  /** accepted and removed are the history of the items that went in and came out. */
  datatype Queue<T> = Queue(
    capacity: nat,
    contents: seq<T>,
    holder: Option<Thread>,
    pc: map<Thread, Pc<T>>,
    accepted: seq<T>,
    removed: seq<T>)

  /** Swallow is a timed wait that ends by timeout although a signal was sent to it, which POSIX allows:
      the pop then returns without looking at the queue again. */
  datatype Event<T> =
    | CallPush(t: Thread, x: T)
    | CallPop(t: Thread, p: Patience)
    | Acquire(t: Thread)
    | Test(t: Thread)
    | Sleep(t: Thread)
    | Write(t: Thread)
    | Read(t: Thread)
    | Unlock(t: Thread)
    | Signal(t: Thread, woken: Option<Thread>)
    | Spurious(t: Thread)
    | Expire(t: Thread)
    | Swallow(t: Thread)

  predicate ConsumerBlocked<T>(pc: Pc<T>) { pc.PopBlocked? }

  predicate ProducerBlocked<T>(pc: Pc<T>) { pc.PushBlocked? }

  /** A signal on not_empty wakes one blocked consumer if there is one; more may wake spuriously. */
  ghost predicate WakesOne<T>(q: Queue<T>, blocked: Pc<T> -> bool, woken: Option<Thread>) {
    match woken
    case Some(u) => u in q.pc && blocked(q.pc[u])
    case None => forall u | u in q.pc :: !blocked(q.pc[u])
  }

  ghost predicate Enabled<T>(q: Queue<T>, e: Event<T>) {
    && e.t in q.pc
    && var pc := q.pc[e.t];
       match e
       case CallPush(_, _) => pc.Idle?
       case CallPop(_, _) => pc.Idle?
       case Acquire(_) =>
         q.holder.None? && (pc.PushLock? || pc.PushWoken? || pc.PopLock? || pc.PopWoken? || pc.PopExpired?)
       case Test(_) => pc.PushTest? || pc.PopTest?
       case Sleep(_) => pc.PushWait? || pc.PopWait?
       case Write(_) => pc.PushWrite?
       case Read(_) => pc.PopRead? && |q.contents| > 0
       case Unlock(_) => pc.PushUnlock? || pc.PopUnlock? || pc.PopGiveUp?
       case Signal(_, woken) => (pc.PushSignal? && WakesOne(q, ConsumerBlocked, woken))
                                || (pc.PopSignal? && WakesOne(q, ProducerBlocked, woken))
       case Spurious(_) => pc.PushBlocked? || pc.PopBlocked?
       case Expire(_) => pc.PopBlocked? && pc.p == Timed
       case Swallow(_) => pc.PopWoken? && pc.p == Timed
  }

  function Woken<T>(pc: Pc<T>): Pc<T> {
    match pc
    case PushBlocked(x) => PushWoken(x)
    case PopBlocked(p) => PopWoken(p)
    case _ => pc
  }

  /** Where a thread is after the event, apart from a signal's effect on the thread it wakes. */
  function Moved<T>(q: Queue<T>, e: Event<T>): Pc<T>
    requires e.t in q.pc
  {
    var pc := q.pc[e.t];
    match e
    case CallPush(_, x) => PushLock(x)
    case CallPop(_, p) => PopLock(p)
    case Acquire(_) =>
      if pc.PushLock? || pc.PushWoken? then PushTest(pc.x)
      else if pc.PopLock? || pc.PopWoken? then PopTest(pc.p)
      else PopGiveUp
    case Test(_) =>
      if pc.PushTest? then (if |q.contents| >= q.capacity then PushWait(pc.x) else PushWrite(pc.x))
      else if pc.PopTest? then
        if |q.contents| > 0 then PopRead else if pc.p == Never then PopGiveUp else PopWait(pc.p)
      else pc
    case Sleep(_) => if pc.PushWait? then PushBlocked(pc.x) else if pc.PopWait? then PopBlocked(pc.p) else pc
    case Write(_) => PushUnlock
    case Read(_) => PopUnlock
    case Unlock(_) => if pc.PushUnlock? then PushSignal else if pc.PopUnlock? then PopSignal else Idle
    case Signal(_, _) => Idle
    case Spurious(_) => Woken(pc)
    case Expire(_) => PopExpired
    case Swallow(_) => PopExpired
  }

  ghost function Fire<T>(q: Queue<T>, e: Event<T>): Queue<T>
    requires Enabled(q, e)
  {
    var pcs := q.pc[e.t := Moved(q, e)];
    match e
    case Acquire(t) => q.(pc := pcs, holder := Some(t))
    case Sleep(_) => q.(pc := pcs, holder := None)
    case Unlock(_) => q.(pc := pcs, holder := None)
    case Write(t) => q.(pc := pcs, contents := q.contents + [q.pc[t].x], accepted := q.accepted + [q.pc[t].x])
    case Read(_) => q.(pc := pcs, contents := q.contents[1..], removed := q.removed + [q.contents[0]])
    case Signal(_, Some(u)) => q.(pc := pcs[u := Woken(q.pc[u])])
    case _ => q.(pc := pcs)
  }

  // ---------------------------------------------------------------------------
  // Counting threads
  // ---------------------------------------------------------------------------

  ghost function Where<T>(pc: map<Thread, Pc<T>>, p: Pc<T> -> bool): set<Thread> {
    set t | t in pc && p(pc[t])
  }

  ghost function Count<T>(pc: map<Thread, Pc<T>>, p: Pc<T> -> bool): nat {
    |Where(pc, p)|
  }

  lemma CountMove<T>(pc: map<Thread, Pc<T>>, t: Thread, to: Pc<T>, p: Pc<T> -> bool)
    requires t in pc
    ensures Count(pc[t := to], p) == Count(pc, p) - (if p(pc[t]) then 1 else 0) + (if p(to) then 1 else 0)
  {
    var others := Where(pc, p) - {t};
    assert Where(pc, p) == if p(pc[t]) then others + {t} else others;
    assert Where(pc[t := to], p) == if p(to) then others + {t} else others;
  }

  lemma CountZero<T>(pc: map<Thread, Pc<T>>, p: Pc<T> -> bool)
    ensures Count(pc, p) == 0 <==> forall t | t in pc :: !p(pc[t])
  {
    if t :| t in pc && p(pc[t]) {
      assert t in Where(pc, p);
    } else {
      assert Where(pc, p) == {};
    }
  }

  // ---------------------------------------------------------------------------
  // The invariant
  // ---------------------------------------------------------------------------

  predicate HoldsMutex<T>(pc: Pc<T>) {
    pc.PushTest? || pc.PushWait? || pc.PushWrite? || pc.PushUnlock?
    || pc.PopTest? || pc.PopWait? || pc.PopRead? || pc.PopUnlock? || pc.PopGiveUp?
  }

  /** Threads that will still wake a consumer, or look at the queue themselves: a producer that
      has written and not yet signalled, a consumer that is woken or at the queue. */
  predicate OwesConsumer<T>(pc: Pc<T>) {
    pc.PushUnlock? || pc.PushSignal? || pc.PopWoken? || pc.PopTest? || pc.PopRead?
  }

  predicate OwesProducer<T>(pc: Pc<T>) {
    pc.PopUnlock? || pc.PopSignal? || pc.PushWoken? || pc.PushTest? || pc.PushWrite?
  }

  ghost predicate ConsumersOwed<T>(q: Queue<T>) {
    Count(q.pc, ConsumerBlocked) > 0 ==> |q.contents| <= Count(q.pc, OwesConsumer)
  }

  ghost predicate ProducersOwed<T>(q: Queue<T>) {
    Count(q.pc, ProducerBlocked) > 0 ==> q.capacity - |q.contents| <= Count(q.pc, OwesProducer)
  }

  /** What the holder of the mutex knows about the queue. */
  ghost predicate Seen<T>(q: Queue<T>, pc: Pc<T>) {
    && (pc.PushWait? ==> |q.contents| == q.capacity)
    && (pc.PushWrite? ==> |q.contents| < q.capacity)
    && (pc.PopWait? ==> |q.contents| == 0)
    && (pc.PopRead? ==> |q.contents| > 0)
  }

  ghost predicate Exclusive<T>(q: Queue<T>) {
    forall t | t in q.pc :: (HoldsMutex(q.pc[t]) <==> q.holder == Some(t)) && Seen(q, q.pc[t])
  }

  /** What every event keeps, swallowed signals included. */
  ghost predicate Inv<T>(q: Queue<T>) {
    && |q.contents| <= q.capacity
    && q.accepted == q.removed + q.contents
    && Exclusive(q)
    && ProducersOwed(q)
  }

  ghost predicate Start<T>(q: Queue<T>) {
    && q.contents == [] && q.accepted == [] && q.removed == []
    && q.holder == None
    && forall t | t in q.pc :: q.pc[t].Idle?
  }

  lemma StartInv<T>(q: Queue<T>)
    requires Start(q)
    ensures Inv(q) && ConsumersOwed(q)
  {
    CountZero(q.pc, ConsumerBlocked);
    CountZero(q.pc, ProducerBlocked);
  }

  lemma FireConserves<T>(q: Queue<T>, e: Event<T>)
    requires Inv(q) && Enabled(q, e)
    ensures var r := Fire(q, e); |r.contents| <= r.capacity && r.accepted == r.removed + r.contents
  {
  }

  lemma FireExclusiveAt<T>(q: Queue<T>, e: Event<T>, u: Thread)
    requires Inv(q) && Enabled(q, e) && u in q.pc
    ensures var r := Fire(q, e); (HoldsMutex(r.pc[u]) <==> r.holder == Some(u)) && Seen(r, r.pc[u])
  {
    assert Seen(q, q.pc[u]) && (HoldsMutex(q.pc[u]) <==> q.holder == Some(u));
    assert Seen(q, q.pc[e.t]) && (HoldsMutex(q.pc[e.t]) <==> q.holder == Some(e.t));
  }

  lemma FireExclusive<T>(q: Queue<T>, e: Event<T>)
    requires Inv(q) && Enabled(q, e)
    ensures Exclusive(Fire(q, e))
  {
    forall u | u in Fire(q, e).pc
      ensures (HoldsMutex(Fire(q, e).pc[u]) <==> Fire(q, e).holder == Some(u)) && Seen(Fire(q, e), Fire(q, e).pc[u])
    {
      FireExclusiveAt(q, e, u);
    }
  }

  lemma FireConsumersOwed<T>(q: Queue<T>, e: Event<T>)
    requires Inv(q) && ConsumersOwed(q) && Enabled(q, e) && !e.Swallow?
    ensures ConsumersOwed(Fire(q, e))
  {
    var pcs := q.pc[e.t := Moved(q, e)];
    CountMove(q.pc, e.t, Moved(q, e), ConsumerBlocked);
    CountMove(q.pc, e.t, Moved(q, e), OwesConsumer);
    if e.Signal? {
      if e.woken.Some? {
        CountMove(pcs, e.woken.value, Woken(q.pc[e.woken.value]), ConsumerBlocked);
        CountMove(pcs, e.woken.value, Woken(q.pc[e.woken.value]), OwesConsumer);
      } else {
        CountZero(q.pc, ConsumerBlocked);
      }
    }
  }

  lemma FireProducersOwed<T>(q: Queue<T>, e: Event<T>)
    requires Inv(q) && Enabled(q, e)
    ensures ProducersOwed(Fire(q, e))
  {
    var pcs := q.pc[e.t := Moved(q, e)];
    CountMove(q.pc, e.t, Moved(q, e), ProducerBlocked);
    CountMove(q.pc, e.t, Moved(q, e), OwesProducer);
    if e.Signal? {
      if e.woken.Some? {
        CountMove(pcs, e.woken.value, Woken(q.pc[e.woken.value]), ProducerBlocked);
        CountMove(pcs, e.woken.value, Woken(q.pc[e.woken.value]), OwesProducer);
      } else {
        CountZero(q.pc, ProducerBlocked);
      }
    }
  }

  // ---------------------------------------------------------------------------
  // Who calls what
  // ---------------------------------------------------------------------------

  /** Which threads push, pop with a timeout, and pop without one. Any thread may pop without waiting. */
  datatype Roles = Roles(pushers: set<Thread>, timed: set<Thread>, forever: set<Thread>)

  ghost predicate Obeys<T>(roles: Roles, e: Event<T>) {
    match e
    case CallPush(t, _) => t in roles.pushers
    case CallPop(t, Timed) => t in roles.timed
    case CallPop(t, Forever) => t in roles.forever
    case _ => true
  }

  /** A pusher, a timed consumer and another consumer that sleeps: three different threads. */
  ghost predicate Rivals(threads: set<Thread>, roles: Roles, w: Thread, t: Thread, u: Thread) {
    && w in threads && t in threads && u in threads
    && w != t && w != u && t != u
    && w in roles.pushers && t in roles.timed && (u in roles.timed || u in roles.forever)
  }

  ghost predicate HasRivals(threads: set<Thread>, roles: Roles) {
    exists w, t, u :: Rivals(threads, roles, w, t, u)
  }

  /** The other consumer pops without a timeout. */
  ghost predicate HasPatientRival(threads: set<Thread>, roles: Roles) {
    exists w, t, u :: Rivals(threads, roles, w, t, u) && u in roles.forever
  }

  /** A thread is only where its roles can take it. */
  ghost predicate Within<T>(roles: Roles, t: Thread, pc: Pc<T>) {
    match pc
    case PushLock(_) => t in roles.pushers
    case PushTest(_) => t in roles.pushers
    case PushWait(_) => t in roles.pushers
    case PushBlocked(_) => t in roles.pushers
    case PushWoken(_) => t in roles.pushers
    case PushWrite(_) => t in roles.pushers
    case PopLock(p) => (p == Timed ==> t in roles.timed) && (p == Forever ==> t in roles.forever)
    case PopTest(p) => (p == Timed ==> t in roles.timed) && (p == Forever ==> t in roles.forever)
    case PopWait(p) => Sleeps(roles, t, p)
    case PopBlocked(p) => Sleeps(roles, t, p)
    case PopWoken(p) => Sleeps(roles, t, p)
    case _ => true
  }

  ghost predicate Sleeps(roles: Roles, t: Thread, p: Patience) {
    (p == Timed && t in roles.timed) || (p == Forever && t in roles.forever)
  }

  predicate Asleep<T>(pc: Pc<T>) {
    pc.PopBlocked? || pc.PopWoken?
  }

  /** When every thread that could push sleeps in a pop, the last of them saw an empty queue and
      nothing has come since. */
  ghost predicate SleepersSawNothing<T>(q: Queue<T>, roles: Roles) {
    (forall w | w in q.pc && w in roles.pushers :: Asleep(q.pc[w])) ==> q.contents == []
  }

  ghost predicate RoleInv<T>(q: Queue<T>, roles: Roles) {
    && Inv(q)
    && (forall t | t in q.pc :: Within(roles, t, q.pc[t]))
    && SleepersSawNothing(q, roles)
  }

  lemma FireWithin<T>(q: Queue<T>, e: Event<T>, roles: Roles)
    requires RoleInv(q, roles) && Enabled(q, e) && Obeys(roles, e)
    ensures forall t | t in Fire(q, e).pc :: Within(roles, t, Fire(q, e).pc[t])
  {
    assert Within(roles, e.t, q.pc[e.t]);
  }

  lemma FireSawNothing<T>(q: Queue<T>, e: Event<T>, roles: Roles)
    requires RoleInv(q, roles) && Enabled(q, e) && Obeys(roles, e)
    ensures SleepersSawNothing(Fire(q, e), roles)
  {
    var r := Fire(q, e);
    assert Within(roles, e.t, q.pc[e.t]) && Seen(q, q.pc[e.t]);
    if forall w | w in r.pc && w in roles.pushers :: Asleep(r.pc[w]) {
      if !e.Sleep? {
        forall w | w in q.pc && w in roles.pushers
          ensures Asleep(q.pc[w])
        {
          assert Asleep(r.pc[w]);
        }
      } else if e.t !in roles.pushers {
        assert forall w | w in q.pc && w in roles.pushers :: Asleep(r.pc[w]) && r.pc[w] == q.pc[w];
      }
    }
  }

  // ---------------------------------------------------------------------------
  // Every run
  // ---------------------------------------------------------------------------

  ghost predicate Moves<T>(states: seq<Queue<T>>, events: seq<Event<T>>, k: nat)
    requires k < |events| && |states| == |events| + 1
  {
    Enabled(states[k], events[k]) && states[k + 1] == Fire(states[k], events[k])
  }

  ghost predicate Run<T>(states: seq<Queue<T>>, events: seq<Event<T>>, roles: Roles) {
    && |states| == |events| + 1
    && Start(states[0])
    && (forall k | 0 <= k < |events| :: Obeys(roles, events[k]))
    && forall k | 0 <= k < |events| :: Moves(states, events, k)
  }

  lemma FireKeepsShape<T>(q: Queue<T>, e: Event<T>)
    requires Enabled(q, e)
    ensures Fire(q, e).capacity == q.capacity && Fire(q, e).pc.Keys == q.pc.Keys
  {
  }

  lemma FireKeepsRoleInv<T>(q: Queue<T>, e: Event<T>, roles: Roles)
    requires RoleInv(q, roles) && Enabled(q, e) && Obeys(roles, e)
    ensures RoleInv(Fire(q, e), roles)
  {
    hide Fire, Enabled, Obeys, Within, Exclusive, ProducersOwed, SleepersSawNothing;
    FireConserves(q, e);
    FireExclusive(q, e);
    FireProducersOwed(q, e);
    FireWithin(q, e, roles);
    FireSawNothing(q, e, roles);
  }

  lemma {:induction false} RunInv<T>(states: seq<Queue<T>>, events: seq<Event<T>>, roles: Roles, n: nat)
    requires Run(states, events, roles) && n < |states|
    ensures RoleInv(states[n], roles)
    ensures states[n].capacity == states[0].capacity && states[n].pc.Keys == states[0].pc.Keys
  {
    if n == 0 {
      StartInv(states[0]);
    } else {
      hide Fire, Enabled, Obeys, RoleInv, Start;
      RunInv(states, events, roles, n - 1);
      assert Moves(states, events, n - 1);
      FireKeepsShape(states[n - 1], events[n - 1]);
      FireKeepsRoleInv(states[n - 1], events[n - 1], roles);
    }
  }

  /** No signal is swallowed, or the roles make it harmless. */
  ghost predicate Spared<T>(states: seq<Queue<T>>, events: seq<Event<T>>, roles: Roles)
    requires |states| > 0
  {
    || (forall k | 0 <= k < |events| :: !events[k].Swallow?)
    || states[0].capacity == 0
    || !HasRivals(states[0].pc.Keys, roles)
  }

  /** A swallowed signal does no harm when the queue is empty or no other consumer is blocked. */
  lemma SwallowOwed<T>(q: Queue<T>, t: Thread, roles: Roles)
    requires RoleInv(q, roles) && Enabled(q, Swallow(t))
    requires q.capacity == 0 || !HasRivals(q.pc.Keys, roles)
    ensures ConsumersOwed(Fire(q, Swallow(t)))
  {
    var r := Fire(q, Swallow(t));
    CountZero(r.pc, ConsumerBlocked);
    if Count(r.pc, ConsumerBlocked) > 0 && q.contents != [] {
      var u :| u in r.pc && ConsumerBlocked(r.pc[u]);
      var w :| w in q.pc && w in roles.pushers && !Asleep(q.pc[w]);
      assert Within(roles, t, q.pc[t]) && Within(roles, u, q.pc[u]);
      assert Rivals(q.pc.Keys, roles, w, t, u);
    }
  }

  lemma {:induction false} RunOwed<T>(states: seq<Queue<T>>, events: seq<Event<T>>, roles: Roles, n: nat)
    requires Run(states, events, roles) && n < |states| && Spared(states, events, roles)
    ensures ConsumersOwed(states[n])
  {
    if n == 0 {
      StartInv(states[0]);
    } else {
      RunOwed(states, events, roles, n - 1);
      RunInv(states, events, roles, n - 1);
      assert Moves(states, events, n - 1);
      if events[n - 1].Swallow? {
        SwallowOwed(states[n - 1], events[n - 1].t, roles);
      } else {
        FireConsumersOwed(states[n - 1], events[n - 1]);
      }
    }
  }

  predicate AboutToSignalNotEmpty<T>(pc: Pc<T>) { pc.PushSignal? }

  predicate ConsumerReentering<T>(pc: Pc<T>) { pc.PopWoken? }

  predicate AboutToSignalNotFull<T>(pc: Pc<T>) { pc.PopSignal? }

  predicate ProducerReentering<T>(pc: Pc<T>) { pc.PushWoken? }

  lemma CountSplit<T>(pc: map<Thread, Pc<T>>, p: Pc<T> -> bool, a: Pc<T> -> bool, b: Pc<T> -> bool)
    requires forall t | t in pc :: p(pc[t]) <==> a(pc[t]) || b(pc[t])
    requires forall t | t in pc :: !(a(pc[t]) && b(pc[t]))
    ensures Count(pc, p) == Count(pc, a) + Count(pc, b)
  {
    assert Where(pc, p) == Where(pc, a) + Where(pc, b);
    assert Where(pc, a) !! Where(pc, b);
  }

  /** With the mutex free and a consumer blocked on not_empty, every queued item is covered by a producer
      between its unlock and its signal or by a consumer that is woken and not yet back. */
  ghost predicate ItemsCovered<T>(q: Queue<T>) {
    q.holder == None && Count(q.pc, ConsumerBlocked) > 0 ==>
      |q.contents| <= Count(q.pc, AboutToSignalNotEmpty) + Count(q.pc, ConsumerReentering)
  }

  /** The same for blocked producers and free slots. */
  ghost predicate SlotsCovered<T>(q: Queue<T>) {
    q.holder == None && Count(q.pc, ProducerBlocked) > 0 ==>
      q.capacity - |q.contents| <= Count(q.pc, AboutToSignalNotFull) + Count(q.pc, ProducerReentering)
  }

  lemma OwedIsCovered<T>(q: Queue<T>)
    requires Inv(q)
    ensures ConsumersOwed(q) ==> ItemsCovered(q)
    ensures SlotsCovered(q)
  {
    if q.holder == None {
      CountSplit(q.pc, OwesConsumer, AboutToSignalNotEmpty, ConsumerReentering);
      CountSplit(q.pc, OwesProducer, AboutToSignalNotFull, ProducerReentering);
    }
  }

  /** No wake-up is lost: both bounds hold in every state of a run in which no signal is swallowed, or whose
      threads do not include a pusher, a timed consumer and another sleeping consumer. The bound for
      producers holds in every run. */
  lemma NoLostWakeup<T>(states: seq<Queue<T>>, events: seq<Event<T>>, roles: Roles, n: nat)
    requires Run(states, events, roles) && n < |states|
    ensures Spared(states, events, roles) ==> ItemsCovered(states[n])
    ensures SlotsCovered(states[n])
  {
    RunInv(states, events, roles, n);
    OwedIsCovered(states[n]);
    if Spared(states, events, roles) {
      RunOwed(states, events, roles, n);
    }
  }

  predicate AtRest<T>(pc: Pc<T>) {
    pc.Idle? || pc.PushBlocked? || pc.PopBlocked?
  }

  /** So such a run never comes to rest with a consumer asleep beside an item, and no run with a producer
      asleep beside a free slot. */
  lemma NobodySleepsInVain<T>(states: seq<Queue<T>>, events: seq<Event<T>>, roles: Roles, n: nat)
    requires Run(states, events, roles) && n < |states|
    requires forall t | t in states[n].pc :: AtRest(states[n].pc[t])
    ensures var q := states[n];
            && (Spared(states, events, roles) && (exists t :: t in q.pc && q.pc[t].PopBlocked?) ==> q.contents == [])
            && ((exists t :: t in q.pc && q.pc[t].PushBlocked?) ==> |q.contents| == q.capacity)
  {
    var q := states[n];
    RunInv(states, events, roles, n);
    CountZero(q.pc, ConsumerBlocked);
    CountZero(q.pc, ProducerBlocked);
    CountZero(q.pc, OwesConsumer);
    CountZero(q.pc, OwesProducer);
    if Spared(states, events, roles) {
      RunOwed(states, events, roles, n);
    }
  }

  /** Items come out in the order they went in, once each, and the rest is in the queue. */
  lemma Conservation<T>(states: seq<Queue<T>>, events: seq<Event<T>>, roles: Roles, n: nat)
    requires Run(states, events, roles) && n < |states|
    ensures states[n].accepted == states[n].removed + states[n].contents
    ensures |states[n].contents| <= states[n].capacity
  {
    RunInv(states, events, roles, n);
  }
}
