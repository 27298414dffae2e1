// The event bus: subscriber slots, an asynchronous queue that drops when full, and its statistics.

module EventBus {
  import opened Ring

  const EVENT_TYPE_MAX: nat := 11
  const MAX_SUBSCRIBERS: nat := 16
  const EVENT_QUEUE_SIZE: nat := 1024

  type EventType = x: int | 0 <= x < 12
  type Handler = nat

  datatype Event = Event(eventType: EventType, payload: nat)

  // ---------------------------------------------------------------------------
  // Any number of publishers and one dispatcher, one critical section per step
  // ---------------------------------------------------------------------------

  /** Where a publisher is inside event_bus_publish: it has counted the event but not yet tried to queue
      it, or the queue has refused it and the drop is not yet counted. */
  datatype Phase = Idle | Counted(e: Event) | Refused(e: Event)

  /** accepted and popped are the histories of everything queued and everything taken out. */
  datatype Bus = Bus(
    published: nat,
    dropped: nat,
    queue: seq<Event>,
    accepted: seq<Event>,
    popped: seq<Event>,
    synced: nat,
    publishers: seq<Phase>)

  datatype Step = Count(p: nat, e: Event) | Push(p: nat) | Drop(p: nat) | Pop | Sync(e: Event)

  ghost predicate Enabled(b: Bus, step: Step) {
    match step
    case Count(p, _) => p < |b.publishers| && b.publishers[p].Idle?
    case Push(p) => p < |b.publishers| && b.publishers[p].Counted?
    case Drop(p) => p < |b.publishers| && b.publishers[p].Refused?
    case Pop => |b.queue| > 0
    case Sync(_) => true
  }

  ghost function Next(b: Bus, step: Step): Bus
    requires Enabled(b, step)
  {
    match step
    case Count(p, e) => b.(published := b.published + 1, publishers := b.publishers[p := Counted(e)])
    case Push(p) =>
      var e := b.publishers[p].e;
      if |b.queue| < EVENT_QUEUE_SIZE
      then b.(queue := b.queue + [e], accepted := b.accepted + [e], publishers := b.publishers[p := Idle])
      else b.(publishers := b.publishers[p := Refused(e)])
    case Drop(p) => b.(dropped := b.dropped + 1, publishers := b.publishers[p := Idle])
    case Pop => b.(queue := b.queue[1..], popped := b.popped + [b.queue[0]])
    case Sync(_) => b.(published := b.published + 1, synced := b.synced + 1)
  }

  /** Publishers in the middle of a call. */
  ghost function Busy(ps: seq<Phase>): nat {
    if |ps| == 0 then 0 else Busy(ps[..|ps| - 1]) + if ps[|ps| - 1].Idle? then 0 else 1
  }

  lemma {:induction false} BusyMoves(ps: seq<Phase>, p: nat, phase: Phase)
    requires p < |ps|
    ensures Busy(ps[p := phase]) == Busy(ps) - (if ps[p].Idle? then 0 else 1) + if phase.Idle? then 0 else 1
    ensures Busy(ps) >= if ps[p].Idle? then 0 else 1
  {
    var n := |ps| - 1;
    if p < n {
      BusyMoves(ps[..n], p, phase);
      assert ps[p := phase][..n] == ps[..n][p := phase];
    } else {
      assert ps[p := phase][..n] == ps[..n];
    }
  }

  ghost predicate Start(b: Bus) {
    && b.published == b.dropped == b.synced == 0
    && b.queue == b.accepted == b.popped == []
    && forall p | 0 <= p < |b.publishers| :: b.publishers[p].Idle?
  }

  ghost predicate Run(states: seq<Bus>, steps: seq<Step>) {
    && |states| == |steps| + 1
    && Start(states[0])
    && forall k | 0 <= k < |steps| :: Enabled(states[k], steps[k]) && states[k + 1] == Next(states[k], steps[k])
  }

  ghost predicate Balanced(b: Bus) {
    && b.published == b.dropped + |b.queue| + |b.popped| + b.synced + Busy(b.publishers)
    && b.accepted == b.popped + b.queue
    && |b.queue| <= EVENT_QUEUE_SIZE
  }

  lemma {:induction false} AllIdle(ps: seq<Phase>)
    requires forall p | 0 <= p < |ps| :: ps[p].Idle?
    ensures Busy(ps) == 0
  {
    if |ps| > 0 {
      AllIdle(ps[..|ps| - 1]);
    }
  }

  lemma StepKeepsBalance(b: Bus, step: Step)
    requires Balanced(b) && Enabled(b, step)
    ensures Balanced(Next(b, step))
  {
    match step
    case Count(p, e) => BusyMoves(b.publishers, p, Counted(e));
    case Push(p) =>
      BusyMoves(b.publishers, p, Idle);
      BusyMoves(b.publishers, p, Refused(b.publishers[p].e));
    case Drop(p) => BusyMoves(b.publishers, p, Idle);
    case Pop => assert b.queue == [b.queue[0]] + b.queue[1..];
    case Sync(_) =>
  }

  lemma {:induction false} RunsAreBalanced(states: seq<Bus>, steps: seq<Step>, k: nat)
    requires Run(states, steps) && k <= |steps|
    ensures Balanced(states[k])
    decreases k
  {
    hide Balanced, Next;
    if k == 0 {
      StartIsBalanced(states[0]);
    } else {
      RunsAreBalanced(states, steps, k - 1);
      StepKeepsBalance(states[k - 1], steps[k - 1]);
    }
  }

  lemma StartIsBalanced(b: Bus)
    requires Start(b)
    ensures Balanced(b)
  {
    AllIdle(b.publishers);
  }

  /** Whenever no publisher is inside a call, published = dropped + queued + popped + delivered at once;
      and at every moment what was queued comes out in order. */
  lemma Conservation(states: seq<Bus>, steps: seq<Step>, k: nat)
    requires Run(states, steps) && k <= |steps|
    ensures states[k].accepted == states[k].popped + states[k].queue
    ensures (forall p | 0 <= p < |states[k].publishers| :: states[k].publishers[p].Idle?) ==>
              states[k].published == states[k].dropped + |states[k].queue| + |states[k].popped| + states[k].synced
  {
    RunsAreBalanced(states, steps, k);
    if forall p | 0 <= p < |states[k].publishers| :: states[k].publishers[p].Idle? {
      AllIdle(states[k].publishers);
    }
  }

  // ---------------------------------------------------------------------------
  // Subscribers of one event type
  // ---------------------------------------------------------------------------

  datatype Slot = Free | Taken(handler: Handler)

  /** The handlers an event reaches, in slot order. */
  function Active(row: seq<Slot>): seq<Handler> {
    if |row| == 0 then [] else Active(row[..|row| - 1]) + Of(row[|row| - 1])
  }

  function Of(slot: Slot): seq<Handler> {
    if slot.Taken? then [slot.handler] else []
  }

  lemma {:induction false} ActiveParts(row: seq<Slot>, i: nat)
    requires i < |row|
    ensures Active(row) == Active(row[..i]) + (Of(row[i]) + Active(row[i + 1..]))
  {
    hide Of;
    var n := |row| - 1;
    if i < n {
      ActiveParts(row[..n], i);
      assert row[..n][..i] == row[..i];
      assert row[i + 1..][..n - i - 1] == row[..n][i + 1..];
    } else {
      assert row[i + 1..] == [] && row[..i] == row[..n];
    }
  }

  /** A taken slot is called behind exactly the slots before it. */
  lemma CalledInSlotOrder(row: seq<Slot>, i: nat)
    requires i < |row| && row[i].Taken?
    ensures |Active(row[..i])| < |Active(row)| && Active(row)[|Active(row[..i])|] == row[i].handler
  {
    ActiveParts(row, i);
  }

  /** Every registration is called, and nothing else is. */
  lemma {:induction false} CalledOncePerSlot(row: seq<Slot>, handler: Handler)
    ensures multiset(Active(row))[handler] == Registrations(row, handler)
  {
    if |row| > 0 {
      CalledOncePerSlot(row[..|row| - 1], handler);
    }
  }

  ghost function Registrations(row: seq<Slot>, handler: Handler): nat {
    if |row| == 0 then 0
    else Registrations(row[..|row| - 1], handler) + if row[|row| - 1] == Taken(handler) then 1 else 0
  }

  /** longer is shorter with the handler inserted somewhere. */
  ghost predicate Inserted(shorter: seq<Handler>, longer: seq<Handler>, handler: Handler) {
    exists i :: 0 <= i <= |shorter| && longer == shorter[..i] + ([handler] + shorter[i..])
  }

  lemma SlotChanges(row: seq<Slot>, i: nat, handler: Handler)
    requires i < |row|
    ensures row[i].Free? ==> Inserted(Active(row), Active(row[i := Taken(handler)]), handler)
    ensures row[i] == Taken(handler) ==> Inserted(Active(row[i := Free]), Active(row), handler)
  {
    ActiveParts(row, i);
    ActiveParts(row[i := Taken(handler)], i);
    ActiveParts(row[i := Free], i);
    var front, back := Active(row[..i]), Active(row[i + 1..]);
    assert row[i := Taken(handler)][..i] == row[..i] == row[i := Free][..i];
    assert row[i := Taken(handler)][i + 1..] == row[i + 1..] == row[i := Free][i + 1..];
    assert (front + back)[..|front|] == front && (front + back)[|front|..] == back;
    assert front + ([] + back) == front + back;
  }

  class Bucket {
    const slots: array<Slot>

    constructor ()
      ensures fresh(slots) && slots.Length == MAX_SUBSCRIBERS && Active(slots[..]) == []
    {
      slots := new Slot[MAX_SUBSCRIBERS](_ => Free);
      new;
      AllFree(slots[..]);
    }

    /** Registers the handler once more, unless all slots are taken. */
    method Subscribe(handler: Handler) returns (ok: bool)
      modifies slots
      ensures ok <==> exists i :: 0 <= i < slots.Length && old(slots[..])[i].Free?
      ensures if ok then Inserted(Active(old(slots[..])), Active(slots[..]), handler) else slots[..] == old(slots[..])
    {
      for i := 0 to slots.Length
        invariant forall j | 0 <= j < i :: slots[j].Taken?
      {
        if slots[i].Free? {
          SlotChanges(slots[..], i, handler);
          ghost var was := slots[..];
          assert was[i].Free?;
          slots[i] := Taken(handler);
          assert slots[..] == was[i := Taken(handler)];
          return true;
        }
      }
      return false;
    }

    /** Removes one registration of the handler. */
    method Unsubscribe(handler: Handler) returns (ok: bool)
      modifies slots
      ensures ok <==> exists i :: 0 <= i < slots.Length && old(slots[..])[i] == Taken(handler)
      ensures if ok then Inserted(Active(slots[..]), Active(old(slots[..])), handler) else slots[..] == old(slots[..])
    {
      for i := 0 to slots.Length
        invariant forall j | 0 <= j < i :: slots[j] != Taken(handler)
      {
        if slots[i] == Taken(handler) {
          SlotChanges(slots[..], i, handler);
          ghost var was := slots[..];
          assert was[i] == Taken(handler);
          slots[i] := Free;
          assert slots[..] == was[i := Free];
          return true;
        }
      }
      return false;
    }

    /** Calls every active handler once per registration, in slot order. */
    method Dispatch() returns (called: seq<Handler>)
      ensures called == Active(slots[..])
    {
      called := [];
      for i := 0 to slots.Length
        invariant called == Active(slots[..i])
      {
        assert slots[..i + 1][..i] == slots[..i];
        if slots[i].Taken? {
          called := called + [slots[i].handler];
        }
      }
      assert slots[..slots.Length] == slots[..];
    }
  }

  lemma {:induction false} AllFree(row: seq<Slot>)
    requires forall i | 0 <= i < |row| :: row[i].Free?
    ensures Active(row) == []
  {
    if |row| > 0 {
      AllFree(row[..|row| - 1]);
    }
  }

  // ---------------------------------------------------------------------------
  // The bus as one thread sees it
  // ---------------------------------------------------------------------------

  class EventBus {
    const queue: RingBuffer<Event>
    const buckets: seq<Bucket>
    var published: nat
    var dispatched: nat
    var dropped: nat

    ghost predicate Valid()
      reads this, queue
    {
      queue.Valid() && queue.data.Length == EVENT_QUEUE_SIZE && |buckets| == EVENT_TYPE_MAX
    }

    constructor (buckets: seq<Bucket>)
      requires |buckets| == EVENT_TYPE_MAX
      ensures Valid() && fresh(queue) && fresh(queue.data) && this.buckets == buckets
      ensures queue.Contents() == [] && published == dispatched == dropped == 0
    {
      queue := new RingBuffer<Event>(EVENT_QUEUE_SIZE);
      this.buckets := buckets;
      published, dispatched, dropped := 0, 0, 0;
    }

    /** Queues the event, or drops and counts it when the queue is full. */
    method Publish(e: Event) returns (ok: bool)
      requires Valid()
      modifies this`published, this`dropped, queue, queue.data
      ensures Valid()
      ensures published == old(published) + 1
      ensures ok <==> |old(queue.Contents())| < EVENT_QUEUE_SIZE
      ensures queue.Contents() == if ok then old(queue.Contents()) + [e] else old(queue.Contents())
      ensures dropped == if ok then old(dropped) else old(dropped) + 1
    {
      published := published + 1;
      ok := queue.TryPush(e);
      if !ok {
        dropped := dropped + 1;
      }
    }

    /** Calls the handlers of the event's type; an unknown type reaches nobody. */
    method DispatchToSubscribers(e: Event) returns (called: seq<Handler>)
      requires Valid()
      modifies this`dispatched
      ensures called == if e.eventType < EVENT_TYPE_MAX then Active(buckets[e.eventType].slots[..]) else []
      ensures dispatched == old(dispatched) + |called|
    {
      if e.eventType >= EVENT_TYPE_MAX {
        return [];
      }
      called := buckets[e.eventType].Dispatch();
      dispatched := dispatched + |called|;
    }

    /** One round of the dispatch thread: the oldest event, if any, goes to its subscribers. */
    method DispatchNext() returns (any: bool, called: seq<Handler>)
      requires Valid()
      modifies this`dispatched, queue
      ensures Valid()
      ensures any <==> old(queue.Contents()) != []
      ensures !any ==> queue.Contents() == [] && called == [] && dispatched == old(dispatched)
      ensures any ==>
                var e := old(queue.Contents())[0];
                && queue.Contents() == old(queue.Contents())[1..]
                && called == (if e.eventType < EVENT_TYPE_MAX then Active(buckets[e.eventType].slots[..]) else [])
                && dispatched == old(dispatched) + |called|
    {
      var e: Event;
      any, e := queue.TryPop();
      if any {
        called := DispatchToSubscribers(e);
      } else {
        called := [];
      }
    }

    /** Delivers at once, past the queue. */
    method PublishSync(e: Event) returns (called: seq<Handler>)
      requires Valid()
      modifies this`published, this`dispatched
      ensures published == old(published) + 1 && dispatched == old(dispatched) + |called|
      ensures called == if e.eventType < EVENT_TYPE_MAX then Active(buckets[e.eventType].slots[..]) else []
    {
      published := published + 1;
      called := DispatchToSubscribers(e);
    }
  }
}
