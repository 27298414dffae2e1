// Optional values, result codes and unsigned time differences.

module Common {
  import opened Bytes

  datatype Option<+T> = None | Some(value: T) {
    predicate IsFailure() {
      None?
    }

    function PropagateFailure<U>(): Option<U>
      requires None?
    {
      None
    }

    function Extract(): T
      requires Some?
    {
      value
    }
  }

  /** Closing the gap at slot i leaves the sequence without that element. */
  lemma CutOut<T>(before: seq<T>, after: seq<T>, i: nat)
    requires i < |before| == |after| + 1
    requires forall k | 0 <= k < i :: after[k] == before[k]
    requires forall k | i <= k < |after| :: after[k] == before[k + 1]
    ensures after == before[..i] + before[i + 1..]
  {
  }

  /** The RESULT_ codes that the modelled routines return. */
  datatype ResultCode = Ok | ErrInvalid | ErrNotFound | ErrExists | ErrFull

  /** now - since on unsigned 64-bit integers. */
  function Elapsed(now: nat, since: nat): (e: nat)
    ensures since <= now < TWO_TO_THE_64 ==> e == now - since
  {
    (now - since) % TWO_TO_THE_64
  }
}
