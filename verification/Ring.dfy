// The circular buffer that the gossip update queue, the message queue and the
// event queue each implement over a fixed array with head, tail and count.

module Ring {

  /** The slot i steps after `from` in a circle of n slots. */
  function Slot(from: nat, i: nat, n: nat): (p: nat)
    requires from < n && i <= n
    ensures p < n
  {
    if from + i < n then from + i else from + i - n
  }

  /** One step round the circle is what `(index + 1) % capacity` computes. */
  lemma SlotIsModulo(from: nat, n: nat)
    requires from < n
    ensures Slot(from, 1, n) == (from + 1) % n
  {
    if from + 1 < n {
      assert (from + 1) % n == from + 1;
    }
  }

  /** The count elements that start at head, oldest first. */
  function Window<T>(a: seq<T>, head: nat, count: nat): (w: seq<T>)
    requires head < |a| && count <= |a|
    ensures |w| == count
    ensures forall i | 0 <= i < count :: w[i] == a[Slot(head, i, |a|)]
  {
    seq(count, i requires 0 <= i < count => a[Slot(head, i, |a|)])
  }

  lemma WindowPush<T>(a: seq<T>, head: nat, count: nat, x: T)
    requires head < |a| && count < |a|
    ensures Window(a[Slot(head, count, |a|) := x], head, count + 1) == Window(a, head, count) + [x]
  {
  }

  lemma WindowPop<T>(a: seq<T>, head: nat, count: nat)
    requires head < |a| && 0 < count <= |a|
    ensures Window(a, head, count) == [a[head]] + Window(a, Slot(head, 1, |a|), count - 1)
  {
  }

  // ---------------------------------------------------------------------------
  // Histories
  // ---------------------------------------------------------------------------

  datatype Op<T> = Enqueue(x: T) | DequeueUpTo(max: nat)

  /** What went in, what came out and what is left after some operations on an empty queue. */
  datatype History<T> = History(accepted: seq<T>, removed: seq<T>, contents: seq<T>)

  function Play<T>(capacity: nat, ops: seq<Op<T>>): History<T> {
    if |ops| == 0 then History([], [], [])
    else
      var h := Play(capacity, ops[..|ops| - 1]);
      match ops[|ops| - 1]
      case Enqueue(x) =>
        if |h.contents| < capacity then h.(accepted := h.accepted + [x], contents := h.contents + [x]) else h
      case DequeueUpTo(max) =>
        var n := if |h.contents| < max then |h.contents| else max;
        h.(removed := h.removed + h.contents[..n], contents := h.contents[n..])
  }

  /** Whatever mixture of pushes and batch pops runs, what was accepted is what was removed followed
      by what is left, in order, and never more than the capacity is left. */
  lemma {:induction false} NothingLostOrReordered<T>(capacity: nat, ops: seq<Op<T>>)
    ensures var h := Play(capacity, ops);
            h.accepted == h.removed + h.contents && |h.contents| <= capacity
  {
    if |ops| > 0 {
      NothingLostOrReordered(capacity, ops[..|ops| - 1]);
      var h := Play(capacity, ops[..|ops| - 1]);
      match ops[|ops| - 1]
      case Enqueue(x) =>
      case DequeueUpTo(max) =>
        var n := if |h.contents| < max then |h.contents| else max;
        assert h.contents == h.contents[..n] + h.contents[n..];
    }
  }

  class RingBuffer<T(0)> {
    const data: array<T>
    var head: nat
    var tail: nat
    var count: nat

    ghost predicate Valid()
      reads this
    {
      && head < data.Length
      && count <= data.Length
      && tail == Slot(head, count, data.Length)
    }

    /** What the ring holds, oldest first. */
    ghost function Contents(): (s: seq<T>)
      requires Valid()
      reads this, data
      ensures |s| == count
    {
      Window(data[..], head, count)
    }

    constructor (capacity: nat)
      requires capacity > 0
      ensures Valid() && fresh(data) && data.Length == capacity
      ensures Contents() == []
    {
      data := new T[capacity];
      head, tail, count := 0, 0, 0;
    }

    /** Appends x unless the ring is full; a full ring refuses and is unchanged. */
    method TryPush(x: T) returns (ok: bool)
      requires Valid()
      modifies this, data
      ensures Valid()
      ensures ok <==> |old(Contents())| < data.Length
      ensures Contents() == if ok then old(Contents()) + [x] else old(Contents())
    {
      if count >= data.Length {
        return false;
      }
      WindowPush(data[..], head, count, x);
      SlotIsModulo(tail, data.Length);
      data[tail] := x;
      tail := (tail + 1) % data.Length;
      count := count + 1;
      return true;
    }

    /** Removes the oldest element, if there is one. */
    method TryPop() returns (ok: bool, x: T)
      requires Valid()
      modifies this
      ensures Valid()
      ensures ok <==> old(Contents()) != []
      ensures ok ==> old(Contents()) == [x] + Contents()
      ensures !ok ==> Contents() == []
    {
      if count == 0 {
        x := data[head];
        return false, x;
      }
      x := Take();
      ok := true;
    }

    /** Removes up to max of the oldest elements, in order. */
    method PopBatch(max: nat) returns (out: seq<T>)
      requires Valid()
      modifies this
      ensures Valid()
      ensures |out| == if |old(Contents())| < max then |old(Contents())| else max
      ensures old(Contents()) == out + Contents()
    {
      var toCopy := if count < max then count else max;
      out := [];
      for i := 0 to toCopy
        invariant Valid()
        invariant |out| == i && count == old(count) - i
        invariant old(Contents()) == out + Contents()
      {
        var x := Take();
        out := out + [x];
      }
    }

    /** The read-advance-decrement step that both pops share. */
    method Take() returns (x: T)
      requires Valid() && count > 0
      modifies this
      ensures Valid() && count == old(count) - 1
      ensures old(Contents()) == [x] + Contents()
    {
      WindowPop(data[..], head, count);
      SlotIsModulo(head, data.Length);
      x := data[head];
      head := (head + 1) % data.Length;
      count := count - 1;
    }
  }
}
