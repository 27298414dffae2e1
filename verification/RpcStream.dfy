// What a connection hands to its handlers, however the byte stream is divided.

module RpcStream {
  import opened Bytes
  import opened Common
  import opened RpcFrame
  import opened RpcCut

  // ---------------------------------------------------------------------------
  // A connection
  // ---------------------------------------------------------------------------

  /** What the event loop knows about one connection, and the frames handed to handlers so far. */
  datatype Connection = Connection(buffered: seq<Byte>, dispatched: seq<seq<Byte>>, open: bool)

  /** One wake-up for the connection: the bytes the socket has, whether the wait reported a hang-up,
      whether it reported data, and whether reading past the data reports the end of the stream. */
  datatype Event = Event(available: seq<Byte>, hangup: bool, readable: bool, eof: bool)

  /** The number of bytes that one wake-up moves into a buffer of this size. */
  function Taken(c: Connection, e: Event, size: nat): (n: nat)
    requires |c.buffered| <= size
    ensures n <= |e.available| && |c.buffered| + n <= size
  {
    if |c.buffered| + |e.available| <= size then |e.available| else size - |c.buffered|
  }

  /** The end of the stream is only noticed when the buffer has room behind the data. */
  predicate Closing(c: Connection, e: Event, size: nat) {
    e.hangup || (e.readable && e.eof && |c.buffered| + |e.available| < size)
  }

  function Woken(c: Connection, e: Event, size: nat): (d: Connection)
    requires |c.buffered| <= size
    ensures |d.buffered| <= size
  {
    if !e.readable then c.(open := c.open && !Closing(c, e, size))
    else
      var b := c.buffered + e.available[..Taken(c, e, size)];
      if Closing(c, e, size) then Connection(b, c.dispatched, false)
      else
        var s := Split(b);
        Connection(s.rest, c.dispatched + s.frames, c.open && |s.rest| != size)
  }

  /** A chunk of data with nothing wrong on the connection. */
  function Data(chunk: seq<Byte>): Event {
    Event(chunk, false, true, false)
  }

  /** A fresh connection after these chunks have arrived one by one. */
  function Received(chunks: seq<seq<Byte>>, size: nat): (d: Connection)
    ensures |d.buffered| <= size
  {
    if |chunks| == 0 then Connection([], [], true)
    else Woken(Received(chunks[..|chunks| - 1], size), Data(chunks[|chunks| - 1]), size)
  }

  /** Every chunk fits what is free in the buffer when it arrives. */
  ghost predicate Fits(chunks: seq<seq<Byte>>, size: nat) {
    |chunks| == 0 || (
      var front := chunks[..|chunks| - 1];
      Fits(front, size) && |Received(front, size).buffered| + |chunks[|chunks| - 1]| <= size)
  }

  lemma OneMoreChunk(c: Connection, chunk: seq<Byte>, before: seq<Byte>, size: nat)
    requires |c.buffered| + |chunk| <= size && !Split(before).bad
    requires c.buffered == Split(before).rest && c.dispatched == Split(before).frames
    ensures var d, s := Woken(c, Data(chunk), size), Split(before + chunk);
            d.buffered == s.rest && d.dispatched == s.frames && d.open == (c.open && |s.rest| != size)
  {
    hide Split;
    SplitInTwo(before, chunk);
    assert chunk[..|chunk|] == chunk;
  }

  lemma SplitNothing()
    ensures Split([]) == Cut([], [], false)
  {
  }

  lemma {:induction false} BadLeavesNothing(b: seq<Byte>)
    requires Split(b).bad
    ensures |b| > 0 && Split(b).rest == []
    decreases |b|
  {
    hide Read32;
    if Read32(b, 0) >= HEADER_SIZE {
      BadLeavesNothing(b[Read32(b, 0)..]);
    }
  }

  /** No invalid header comes up, or one does but it is the last twelve bytes of the stream. */
  predicate Tolerable(b: seq<Byte>) {
    !Split(b).bad || (|b| > 0 && !Split(b[..|b| - 1]).bad)
  }

  lemma TolerableFront(before: seq<Byte>, chunk: seq<Byte>)
    requires Tolerable(before + chunk) && |chunk| > 0
    ensures !Split(before).bad
  {
    hide Split;
    SplitInTwo(before, chunk);
    SplitInTwo(before, chunk[..|chunk| - 1]);
    assert (before + chunk)[..|before + chunk| - 1] == before + chunk[..|chunk| - 1];
  }

  /** The division of a stream into chunks leaves no trace: the frames handed out and the residue are
      those of the stream as a whole. */
  lemma {:induction false} ReceivedIsSplit(chunks: seq<seq<Byte>>, size: nat)
    requires Fits(chunks, size) && Tolerable(Flatten(chunks))
    ensures var d, s := Received(chunks, size), Split(Flatten(chunks));
            d.buffered == s.rest && d.dispatched == s.frames
  {
    hide Split, Woken, Tolerable;
    if |chunks| == 0 {
      SplitNothing();
    } else {
      var front, chunk := chunks[..|chunks| - 1], chunks[|chunks| - 1];
      assert front + [chunk] == chunks;
      FlattenLast(front, chunk);
      if chunk == [] {
        assert Flatten(front) + [] == Flatten(front);
        ReceivedIsSplit(front, size);
        NothingArrives(Received(front, size), Flatten(front), size);
      } else {
        TolerableFront(Flatten(front), chunk);
        assert Tolerable(Flatten(front)) by {
          NotBadIsTolerable(Flatten(front));
        }
        ReceivedIsSplit(front, size);
        OneMoreChunk(Received(front, size), chunk, Flatten(front), size);
      }
    }
  }

  lemma NotBadIsTolerable(b: seq<Byte>)
    requires !Split(b).bad
    ensures Tolerable(b)
  {
  }

  lemma NothingArrives(c: Connection, b: seq<Byte>, size: nat)
    requires |c.buffered| <= size && c.buffered == Split(b).rest
    ensures var d := Woken(c, Data([]), size);
            d.buffered == c.buffered && d.dispatched == c.dispatched
  {
    hide Split;
    assert c.buffered + [] == c.buffered;
    assert c.dispatched + [] == c.dispatched;
    if Split(b).bad {
      BadLeavesNothing(b);
      SplitNothing();
    } else {
      RestIsPartial(b);
    }
  }

  lemma ShortStays(b: seq<Byte>)
    requires |b| < HEADER_SIZE
    ensures Split(b) == Cut([], b, false)
  {
  }

  /** Chunking invariance: however a stream of frames of at most `size` bytes is divided into chunks that
      fit the buffer, the frames handed out are exactly the complete ones received so far, in order and
      once each; the residue is the rest of the stream, and the buffer-full close never fires. */
  lemma {:induction false} ChunkingInvariance(fs: seq<seq<Byte>>, chunks: seq<seq<Byte>>, size: nat) returns (k: nat)
    requires size > 0 && AllFramed(fs, size) && Fits(chunks, size) && Flatten(chunks) <= Flatten(fs)
    ensures k <= |fs|
    ensures var d := Received(chunks, size);
            && d.open
            && d.dispatched == fs[..k]
            && Flatten(fs[..k]) + d.buffered == Flatten(chunks)
            && (if k < |fs| then d.buffered <= fs[k] && |d.buffered| < |fs[k]| else d.buffered == [])
    decreases |chunks|
  {
    hide Split, Woken, Framed, Tolerable;
    k := PrefixIsCut(fs, Flatten(chunks), size);
    NotBadIsTolerable(Flatten(chunks));
    ReceivedIsSplit(chunks, size);
    if |chunks| > 0 {
      var front, chunk := chunks[..|chunks| - 1], chunks[|chunks| - 1];
      assert front + [chunk] == chunks;
      FlattenLast(front, chunk);
      var j := ChunkingInvariance(fs, front, size);
      SplitInTwo(Flatten(front), chunk);
      NotBadIsTolerable(Flatten(front));
      ReceivedIsSplit(front, size);
      OneMoreChunk(Received(front, size), chunk, Flatten(front), size);
      FrameSize(fs, k, size);
    }
  }

  lemma FrameSize(fs: seq<seq<Byte>>, k: nat, size: nat)
    requires AllFramed(fs, size)
    ensures k < |fs| ==> |fs[k]| <= size
  {
  }

  // ---------------------------------------------------------------------------
  // How a connection ends
  // ---------------------------------------------------------------------------

  /** Data closes a connection exactly when it fills the buffer with the start of a frame that could never
      fit. */
  lemma DataClosesIffOversize(c: Connection, chunk: seq<Byte>, size: nat)
    requires c.open && |c.buffered| + |chunk| <= size && size >= HEADER_SIZE
    ensures !Woken(c, Data(chunk), size).open
       <==> |c.buffered + chunk| == size && Read32(c.buffered + chunk, 0) > size
  {
    var b := c.buffered + chunk;
    assert chunk[..|chunk|] == chunk;
    if |b| >= HEADER_SIZE && HEADER_SIZE <= Read32(b, 0) <= |b| {
      assert |Split(b[Read32(b, 0)..]).rest| < |b|;
    }
  }

  /** Whatever one wake-up reports, it closes an open connection exactly at a hang-up, at the end of the stream when
      there was room left to see it, or when the buffer is full with a frame that could never fit. */
  lemma WakeUpClosesIff(c: Connection, e: Event, size: nat)
    requires c.open && |c.buffered| <= size && size >= HEADER_SIZE
    ensures !Woken(c, e, size).open
       <==> || e.hangup
            || (e.readable && e.eof && |c.buffered| + |e.available| < size)
            || (e.readable && |c.buffered| + |e.available| >= size
                && Read32((c.buffered + e.available)[..size], 0) > size)
  {
    hide Read32;
    if e.readable {
      var chunk := e.available[..Taken(c, e, size)];
      DataClosesIffOversize(c, chunk, size);
      assert chunk[..|chunk|] == chunk;
      if |c.buffered| + |e.available| >= size {
        assert (c.buffered + e.available)[..size] == c.buffered + chunk;
      }
    }
  }

  /** Frames that have arrived whole are lost exactly when the same wake-up reports a hang-up, or the read
      after them reports the end of the stream while the buffer has room. */
  lemma CompleteFramesLostIff(c: Connection, e: Event, size: nat)
    requires |c.buffered| <= size && e.readable
    requires Split(c.buffered + e.available[..Taken(c, e, size)]).frames != []
    ensures Woken(c, e, size).dispatched == c.dispatched
       <==> e.hangup || (e.eof && |c.buffered| + |e.available| < size)
  {
    hide Split;
    var fs := Split(c.buffered + e.available[..Taken(c, e, size)]).frames;
    assert |c.dispatched + fs| > |c.dispatched|;
  }

  /** What the buffer holds when a wake-up has read. */
  function Filled(c: Connection, e: Event, size: nat): seq<Byte>
    requires |c.buffered| <= size
  {
    c.buffered + e.available[..Taken(c, e, size)]
  }

  /** What the wake-up leaves in the socket because the buffer is full. */
  function Left(c: Connection, e: Event, size: nat): seq<Byte>
    requires |c.buffered| <= size
  {
    e.available[Taken(c, e, size)..]
  }

  /** Waiting is edge-triggered, and a wake-up reads and cuts once: it hands out every complete frame that has
      arrived exactly when what stays in the socket completes none, in particular when everything fits.
      Otherwise those frames wait for a further event, although they are complete. Nothing counts as a
      frame behind a bad header. */
  lemma WakeUpHandsOutAllIff(c: Connection, e: Event, size: nat)
    requires |c.buffered| <= size && e.readable && !Closing(c, e, size)
    ensures |c.buffered| + |e.available| <= size ==> Left(c, e, size) == []
    ensures var d, all := Woken(c, e, size), c.dispatched + Split(c.buffered + e.available).frames;
            && d.dispatched <= all
            && (d.dispatched == all
                <==> Split(Filled(c, e, size)).bad || |Split(d.buffered + Left(c, e, size)).frames| == 0)
  {
    hide Split;
    var b, left := Filled(c, e, size), Left(c, e, size);
    assert c.buffered + e.available == b + left;
    SplitInTwo(b, left);
    var more := Split(Split(b).rest + left).frames;
    assert c.dispatched + (Split(b).frames + more) == c.dispatched + Split(b).frames + more;
    if |more| == 0 {
      assert Split(b).frames + more == Split(b).frames;
    }
  }

  /** A further event for what was left, if it fits, makes up for it. */
  lemma NextWakeUpCatchesUp(c: Connection, e: Event, size: nat)
    requires |c.buffered| <= size && e.readable && !Closing(c, e, size) && !Split(Filled(c, e, size)).bad
    requires |Woken(c, e, size).buffered| + |Left(c, e, size)| <= size
    ensures var d, s := Woken(Woken(c, e, size), Data(Left(c, e, size)), size), Split(c.buffered + e.available);
            d.buffered == s.rest && d.dispatched == c.dispatched + s.frames
  {
    hide Split;
    var b, left := Filled(c, e, size), Left(c, e, size);
    assert c.buffered + e.available == b + left;
    SplitInTwo(b, left);
    assert left[..|left|] == left;
    var more := Split(Split(b).rest + left).frames;
    assert c.dispatched + (Split(b).frames + more) == c.dispatched + Split(b).frames + more;
  }

  // ---------------------------------------------------------------------------
  // From sender to receiver
  // ---------------------------------------------------------------------------

  datatype Call = Call(node: Word16, requestId: Word32, kind: Byte, status: Byte, func: Byte, payload: seq<Byte>)

  function Wire(call: Call): seq<Byte> {
    Packed(call.node, call.requestId, call.kind, call.status, call.func, call.payload)
  }

  function WireAll(calls: seq<Call>): (fs: seq<seq<Byte>>)
    ensures |fs| == |calls|
  {
    seq(|calls|, i requires 0 <= i < |calls| => Wire(calls[i]))
  }

  ghost predicate Delivers(frame: seq<Byte>, call: Call) {
    && |frame| >= HEADER_SIZE
    && HEADER_SIZE + |call.payload| < TWO_TO_THE_32
    && Unpacked(frame) == Some(Header(HEADER_SIZE
              + |call.payload|, call.requestId, call.node, call.kind % 16, call.status % 16, call.func))
    && frame[HEADER_SIZE..] == call.payload
  }

  lemma WireIsFramed(call: Call, size: nat)
    requires HEADER_SIZE + |call.payload| <= size < TWO_TO_THE_32
    ensures Framed(Wire(call), size) && Delivers(Wire(call), call)
  {
    PackedWords(call.node, call.requestId, call.kind, call.status, call.func, call.payload);
    RoundTrip(call.node, call.requestId, call.kind, call.status, call.func, call.payload);
  }

  lemma {:induction false} FlattenAtLeast(fs: seq<seq<Byte>>, k: nat)
    requires k <= |fs|
    ensures |Flatten(fs)| >= |Flatten(fs[..k])| + if k < |fs| then |fs[k]| else 0
  {
    if k > 0 {
      FlattenAtLeast(fs[1..], k - 1);
      assert fs[..k][1..] == fs[1..][..k - 1];
    }
  }

  /** Packed messages that fit the buffer reach the handlers one for one, in order, with every field and the
      payload intact, however the stream is divided. */
  lemma PackedCallsArrive(calls: seq<Call>, chunks: seq<seq<Byte>>, size: nat)
    requires 0 < size < TWO_TO_THE_32 && forall i | 0 <= i < |calls| :: HEADER_SIZE + |calls[i].payload| <= size
    requires Flatten(chunks) == Flatten(WireAll(calls)) && Fits(chunks, size)
    ensures var d := Received(chunks, size);
            && d.open && d.buffered == [] && |d.dispatched| == |calls|
            && forall i | 0 <= i < |calls| :: Delivers(d.dispatched[i], calls[i])
  {
    hide Wire, Delivers, Framed, Fits, Received;
    var fs := WireAll(calls);
    forall i | 0 <= i < |fs|
      ensures Framed(fs[i], size) && Delivers(fs[i], calls[i])
    {
      WireIsFramed(calls[i], size);
    }
    var k := ChunkingInvariance(fs, chunks, size);
    FlattenAtLeast(fs, k);
    assert k == |fs|;
    assert fs[..k] == fs;
  }
}
