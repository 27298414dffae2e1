// The receive buffer of a channel: filled by reads, cut into frames, compacted in place.

module RpcChannel {
  import opened Bytes
  import opened Common
  import opened RpcFrame
  import opened RpcCut
  import opened RpcStream

  class Channel {
    const rxBuffer: array<Byte>
    var rxDataLen: nat
    var open: bool
    /** The frames handed to request handlers, oldest first. */
    ghost var dispatched: seq<seq<Byte>>

    ghost predicate Valid()
      reads this
    {
      rxDataLen <= rxBuffer.Length
    }

    ghost function State(): (c: Connection)
      requires Valid()
      reads this, rxBuffer
      ensures |c.buffered| == rxDataLen
    {
      Connection(rxBuffer[..rxDataLen], dispatched, open)
    }

    constructor (size: nat)
      requires size > 0
      ensures Valid() && fresh(rxBuffer) && rxBuffer.Length == size && State() == Connection([], [], true)
    {
      rxBuffer := new Byte[size];
      rxDataLen, open, dispatched := 0, true, [];
    }

    /** Hands every complete frame to its handler, then moves the residue to the front of the buffer. */
    method ProcessBufferedData()
      requires Valid()
      modifies this`rxDataLen, this`dispatched, rxBuffer
      ensures Valid()
      ensures State() == Connection(Split(old(State().buffered)).rest, old(dispatched)
                + Split(old(State().buffered)).frames, open)
    {
      hide Read32, Split;
      ghost var b := rxBuffer[..rxDataLen];
      ghost var done: seq<seq<Byte>> := [];
      var processed := 0;
      assert b[0..] == b && [] + Split(b).frames == Split(b).frames;
      while rxDataLen - processed >= HEADER_SIZE
        invariant processed <= rxDataLen == |b| && rxBuffer[..rxDataLen] == b
        invariant Split(b) == Before(done, Split(b[processed..]))
        invariant dispatched == old(dispatched) + done
        decreases rxDataLen - processed
      {
        var header := Unpacked(rxBuffer[processed..rxDataLen]);
        assert rxBuffer[processed..rxDataLen] == b[processed..];
        if header.None? {
          SplitStep(b[processed..]);
          rxDataLen := 0;
          assert done + [] == done;
          return;
        }
        if rxDataLen - processed < header.value.totalLen {
          SplitStep(b[processed..]);
          break;
        }
        ghost var frame := b[processed..][..header.value.totalLen];
        SplitStep(b[processed..]);
        assert b[processed..][header.value.totalLen..] == b[processed + header.value.totalLen..];
        BeforeTwice(done, [frame], Split(b[processed + header.value.totalLen..]));
        dispatched := dispatched + [frame];
        done := done + [frame];
        processed := processed + header.value.totalLen;
      }
      SplitStep(b[processed..]);
      assert done + [] == done;
      if processed > 0 {
        Compact(processed);
      }
    }

    /** memmove of what lies behind the processed bytes to the front. */
    method Compact(processed: nat)
      requires Valid() && processed <= rxDataLen
      modifies this`rxDataLen, rxBuffer
      ensures Valid() && rxBuffer[..rxDataLen] == old(rxBuffer[processed..rxDataLen])
    {
      rxDataLen := rxDataLen - processed;
      forall i | 0 <= i < rxDataLen {
        rxBuffer[i] := rxBuffer[processed + i];
      }
    }

    /** Reads until the socket is drained or the buffer is full; `sizes` is how much each read returns. */
    method ReadAvailable(e: Event, sizes: nat -> nat) returns (closing: bool)
      requires Valid()
      modifies this`rxDataLen, rxBuffer
      ensures Valid()
      ensures rxBuffer[..rxDataLen] == old(State().buffered) + e.available[..Taken(old(State()), e, rxBuffer.Length)]
      ensures closing <==> e.eof && old(rxDataLen) + |e.available| < rxBuffer.Length
    {
      ghost var start := rxDataLen;
      var taken, calls := 0, 0;
      while rxDataLen < rxBuffer.Length
        invariant taken <= |e.available| && rxDataLen == start + taken <= rxBuffer.Length
        invariant rxBuffer[..rxDataLen] == old(rxBuffer[..rxDataLen]) + e.available[..taken]
        decreases rxBuffer.Length - rxDataLen
      {
        var left := |e.available| - taken;
        if left == 0 {
          return e.eof;
        }
        var room := rxBuffer.Length - rxDataLen;
        var most := if left < room then left else room;
        var n := if 0 < sizes(calls) <= most then sizes(calls) else most;
        rxDataLen := Put(rxBuffer, rxDataLen, e.available[taken..taken + n]);
        assert e.available[..taken + n] == e.available[..taken] + e.available[taken..taken + n];
        taken, calls := taken + n, calls + 1;
      }
      closing := false;
    }

    /** One wake-up for an existing connection. */
    method OnEvent(e: Event, sizes: nat -> nat)
      requires Valid() && open
      modifies this, rxBuffer
      ensures Valid()
      ensures State() == Woken(old(State()), e, rxBuffer.Length)
    {
      hide Split;
      var closeConnection := e.hangup;
      if e.readable {
        var ended := ReadAvailable(e, sizes);
        closeConnection := closeConnection || ended;
        if !closeConnection && rxDataLen > 0 {
          ProcessBufferedData();
        } else if !closeConnection {
          SplitNothing();
          assert dispatched + [] == dispatched;
        }
        if !closeConnection && rxDataLen == rxBuffer.Length {
          closeConnection := true;
        }
      }
      if closeConnection {
        open := false;
      }
    }
  }

  /** One round of the cutting loop. */
  lemma SplitStep(b: seq<Byte>)
    ensures |b| < HEADER_SIZE ==> Split(b) == Cut([], b, false)
    ensures |b| >= HEADER_SIZE && Unpacked(b).None? ==> Split(b) == Cut([], [], true)
    ensures |b| >= HEADER_SIZE && Unpacked(b).Some? && |b| < Unpacked(b).value.totalLen ==>
              Split(b) == Cut([], b, false)
    ensures |b| >= HEADER_SIZE && Unpacked(b).Some? && |b| >= Unpacked(b).value.totalLen ==>
              && Unpacked(b).value.totalLen >= HEADER_SIZE
              && Split(b) == Before([b[..Unpacked(b).value.totalLen]], Split(b[Unpacked(b).value.totalLen..]))
  {
  }
}
