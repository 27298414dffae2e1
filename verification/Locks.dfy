// The locks one gossip thread holds. Taking a lock demands that every lock
// already held ranks strictly below it, so a verified program takes nested locks
// in one acyclic order and never takes a lock it already holds.

module Locks {

  datatype Lock = PendingAcksLock | ViewLock | QueueLock

  function Rank(l: Lock): nat {
    match l
    case PendingAcksLock => 0
    case ViewLock => 1
    case QueueLock => 2
  }

  class LockTable {
    var held: set<Lock>

    constructor ()
      ensures held == {}
    {
      held := {};
    }

    predicate MayTake(l: Lock)
      reads this
    {
      forall h | h in held :: Rank(h) < Rank(l)
    }

    method Acquire(l: Lock)
      requires MayTake(l)
      modifies this
      ensures held == old(held) + {l}
    {
      held := held + {l};
    }

    method Release(l: Lock)
      requires l in held
      modifies this
      ensures held == old(held) - {l}
    {
      held := held - {l};
    }
  }
}
