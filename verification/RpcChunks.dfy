// Exactly when the division of a byte stream into chunks matters.

module RpcChunks {
  import opened Bytes
  import opened Common
  import opened RpcFrame
  import opened RpcCut
  import opened RpcStream

  /** The outcome of this division of the stream is that of the stream as a whole. */
  ghost predicate Agrees(chunks: seq<seq<Byte>>, size: nat) {
    var s := Split(Flatten(chunks));
    Received(chunks, size).buffered == s.rest && Received(chunks, size).dispatched == s.frames
  }

  ghost predicate AnyChunksAgree(b: seq<Byte>, size: nat) {
    forall chunks: seq<seq<Byte>> | Flatten(chunks) == b && Fits(chunks, size) :: Agrees(chunks, size)
  }

  /** Some division brings all of the stream through the buffer. */
  ghost predicate Deliverable(b: seq<Byte>, size: nat) {
    exists chunks: seq<seq<Byte>> :: Flatten(chunks) == b && Fits(chunks, size)
  }

  lemma FitsMore(chunks: seq<seq<Byte>>, c: seq<Byte>, size: nat)
    requires Fits(chunks, size) && |Received(chunks, size).buffered| + |c| <= size
    ensures Fits(chunks + [c], size)
    ensures Flatten(chunks + [c]) == Flatten(chunks) + c
    ensures Received(chunks + [c], size) == Woken(Received(chunks, size), Data(c), size)
  {
    hide Woken;
    var longer := chunks + [c];
    FlattenLast(chunks, c);
    assert longer[..|chunks|] == chunks;
  }

  /** What one more chunk does, in terms of cutting. */
  lemma ChunkCut(c: Connection, chunk: seq<Byte>, size: nat)
    requires |c.buffered| + |chunk| <= size
    ensures var d, s := Woken(c, Data(chunk), size), Split(c.buffered + chunk);
            d.buffered == s.rest && d.dispatched == c.dispatched + s.frames
  {
    hide Split;
    assert chunk[..|chunk|] == chunk;
  }

  /** A division without its last chunk, and what that chunk does. */
  lemma LastChunk(chunks: seq<seq<Byte>>, size: nat)
    requires |chunks| > 0 && Fits(chunks, size)
    ensures var front, chunk := chunks[..|chunks| - 1], chunks[|chunks| - 1];
            var c, d := Received(front, size), Received(chunks, size);
            && front + [chunk] == chunks && Fits(front, size) && |c.buffered| + |chunk| <= size
            && Flatten(chunks) == Flatten(front) + chunk
            && d.buffered == Split(c.buffered + chunk).rest
            && d.dispatched == c.dispatched + Split(c.buffered + chunk).frames
  {
    hide Woken, Split;
    var front, chunk := chunks[..|chunks| - 1], chunks[|chunks| - 1];
    assert front + [chunk] == chunks;
    FlattenLast(front, chunk);
    ChunkCut(Received(front, size), chunk, size);
  }

  lemma BeforeKeeps(fs: seq<seq<Byte>>, c: Cut)
    ensures fs <= Before(fs, c).frames && |Before(fs, c).frames| == |fs| + |c.frames|
    ensures Before(fs, c).rest == c.rest && Before(fs, c).bad == c.bad
  {
  }

  /** The frames ahead of the first bad header are handed out first, in every division. */
  lemma {:induction false} DispatchedBegins(chunks: seq<seq<Byte>>, size: nat)
    requires Fits(chunks, size)
    ensures Split(Flatten(chunks)).frames <= Received(chunks, size).dispatched
    ensures !Split(Flatten(chunks)).bad ==> Agrees(chunks, size)
  {
    hide Split, Fits;
    if |chunks| == 0 {
      SplitNothing();
    } else {
      hide Received, Flatten;
      var front, chunk := chunks[..|chunks| - 1], chunks[|chunks| - 1];
      LastChunk(chunks, size);
      DispatchedBegins(front, size);
      SplitInTwo(Flatten(front), chunk);
    }
  }

  /** The last chunk at which a bad header discards something, and what follows it. */
  ghost predicate DropsLast(chunks: seq<seq<Byte>>, size: nat, i: nat) {
    && i < |chunks|
    && Fits(chunks[..i], size)
    && |Received(chunks[..i], size).buffered| + |chunks[i]| <= size
    && Split(Received(chunks[..i], size).buffered + chunks[i]).bad
    && Flatten(chunks) == Flatten(chunks[..i]) + chunks[i] + Flatten(chunks[i + 1..])
    && var tail := Split(Flatten(chunks[i + 1..]));
       && !tail.bad && Received(chunks, size).buffered == tail.rest
       && |Received(chunks, size).dispatched| >= |Split(Flatten(chunks)).frames| + |tail.frames|
  }

  lemma {:induction false} LastDrop(chunks: seq<seq<Byte>>, size: nat) returns (i: nat)
    requires Fits(chunks, size) && Split(Flatten(chunks)).bad
    ensures DropsLast(chunks, size, i)
  {
    hide Split, Fits;
    SplitNothing();
    var n := |chunks| - 1;
    assert |chunks| > 0;
    hide Received, Flatten, DropsLast;
    var front, chunk := chunks[..n], chunks[n];
    LastChunk(chunks, size);
    SplitInTwo(Flatten(front), chunk);
    if Split(Received(front, size).buffered + chunk).bad {
      i := n;
      DropsNow(chunks, size);
    } else {
      if !Split(Flatten(front)).bad {
        AgreesMeans(front, size);
      }
      i := LastDrop(front, size);
      DropsBefore(chunks, size, i);
    }
  }

  lemma AgreesMeans(chunks: seq<seq<Byte>>, size: nat)
    requires Fits(chunks, size) && !Split(Flatten(chunks)).bad
    ensures Received(chunks, size).buffered == Split(Flatten(chunks)).rest
  {
    DispatchedBegins(chunks, size);
  }

  lemma DropsNow(chunks: seq<seq<Byte>>, size: nat)
    requires |chunks| > 0 && Fits(chunks, size)
    requires Split(Received(chunks[..|chunks| - 1], size).buffered + chunks[|chunks| - 1]).bad
    ensures DropsLast(chunks, size, |chunks| - 1)
  {
    hide Split, Fits;
    SplitNothing();
    LastChunk(chunks, size);
    DispatchedBegins(chunks, size);
    var n := |chunks| - 1;
    assert chunks[n + 1..] == [];
    assert Flatten(chunks[n + 1..]) == [];
    hide Received;
    assert Flatten(chunks[..n]) + chunks[n] + [] == Flatten(chunks[..n]) + chunks[n];
    BadLeavesNothing(Received(chunks[..n], size).buffered + chunks[n]);
  }

  lemma DropsBefore(chunks: seq<seq<Byte>>, size: nat, i: nat)
    requires |chunks| > 0 && Fits(chunks, size)
    requires var front, chunk := chunks[..|chunks| - 1], chunks[|chunks| - 1];
             && DropsLast(front, size, i) && !Split(Received(front, size).buffered + chunk).bad
             && Split(Flatten(front)).bad
    ensures DropsLast(chunks, size, i)
  {
    hide Split, Fits, Received, Flatten;
    var front, chunk := chunks[..|chunks| - 1], chunks[|chunks| - 1];
    LastChunk(chunks, size);
    assert front[..i] == chunks[..i] && front[i] == chunks[i];
    var tail := Flatten(front[i + 1..]);
    assert front[i + 1..] + [chunk] == chunks[i + 1..];
    FlattenLast(front[i + 1..], chunk);
    SplitInTwo(tail, chunk);
    SplitInTwo(Flatten(front), chunk);
    BeforeKeeps(Split(tail).frames, Split(Split(tail).rest + chunk));
    assert Flatten(front) + chunk == Flatten(chunks[..i]) + chunks[i] + (tail + chunk);
  }

  // ---------------------------------------------------------------------------
  // Divisions that disagree
  // ---------------------------------------------------------------------------

  /** Anything left in the buffer, or any frame beyond those of the stream, is a disagreement. */
  lemma Disagrees(chunks: seq<seq<Byte>>, size: nat)
    requires Split(Flatten(chunks)).bad
    requires || Received(chunks, size).buffered != []
             || |Received(chunks, size).dispatched| > |Split(Flatten(chunks)).frames|
    ensures !Agrees(chunks, size)
  {
    BadLeavesNothing(Flatten(chunks));
  }

  /** What is discarded at a chunk was bad in the stream. */
  lemma BadBehind(front: seq<seq<Byte>>, d: seq<Byte>, size: nat)
    requires Fits(front, size) && Split(Received(front, size).buffered + d).bad
    ensures Split(Flatten(front) + d).bad
  {
    hide Split, Fits, Received, Flatten;
    SplitInTwo(Flatten(front), d);
    if !Split(Flatten(front)).bad {
      AgreesMeans(front, size);
    }
  }

  /** A chunk that completes a bad header empties the buffer. */
  lemma Discard(front: seq<seq<Byte>>, d: seq<Byte>, size: nat)
    requires Fits(front, size) && |Received(front, size).buffered| + |d| <= size
    requires Split(Received(front, size).buffered + d).bad
    ensures Fits(front + [d], size) && Flatten(front + [d]) == Flatten(front) + d
    ensures Received(front + [d], size).buffered == [] && Split(Flatten(front + [d])).bad
  {
    hide Split, Fits, Received, Flatten, Woken;
    FitsMore(front, d, size);
    ChunkCut(Received(front, size), d, size);
    BadLeavesNothing(Received(front, size).buffered + d);
    BadBehind(front, d, size);
  }

  /** Frames or a residue that come from a chunk after something was discarded are too many. */
  lemma LateChunkDisagrees(front: seq<seq<Byte>>, d: seq<Byte>, size: nat)
    requires Fits(front, size) && |Received(front, size).buffered| + |d| <= size
    requires Split(Flatten(front)).bad
    requires var s := Split(Received(front, size).buffered + d);
             || |s.frames| > 0 || |s.rest| > 0
             || |Received(front, size).dispatched| > |Split(Flatten(front)).frames|
    ensures Fits(front + [d], size) && Flatten(front + [d]) == Flatten(front) + d && !Agrees(front + [d], size)
  {
    DispatchedBegins(front, size);
    hide Split, Fits, Received, Flatten, Woken, Agrees;
    FitsMore(front, d, size);
    ChunkCut(Received(front, size), d, size);
    SplitInTwo(Flatten(front), d);
    Disagrees(front + [d], size);
  }

  /** A chunk that makes a bad header complete with at least one byte behind it: hold the last byte back. */
  lemma HoldBack(front: seq<seq<Byte>>, d: seq<Byte>, size: nat) returns (chunks: seq<seq<Byte>>)
    requires Fits(front, size) && |d| > 0 && |Received(front, size).buffered| + |d| <= size
    requires Split(Received(front, size).buffered + d[..|d| - 1]).bad
    ensures Fits(chunks, size) && Flatten(chunks) == Flatten(front) + d && !Agrees(chunks, size)
  {
    hide Split, Fits, Received, Flatten, Agrees;
    var most, last := d[..|d| - 1], d[|d| - 1..];
    Discard(front, most, size);
    assert [] + last == last;
    ShortStays(last);
    LateChunkDisagrees(front + [most], last, size);
    chunks := front + [most] + [last];
    Rejoined(Flatten(front), most, last, d);
  }

  lemma Rejoined(b: seq<Byte>, c: seq<Byte>, d: seq<Byte>, e: seq<Byte>)
    requires c + d == e
    ensures b + c + d == b + e
  {
  }

  /** A header that is discarded with the room for one byte more, before another one: let that byte be the first of the
      next header, so that it is discarded too and eleven bytes remain. */
  lemma PullOne(front: seq<seq<Byte>>, d: seq<Byte>, h: seq<Byte>, size: nat) returns (chunks: seq<seq<Byte>>)
    requires Fits(front, size) && |h| == HEADER_SIZE && size >= HEADER_SIZE
    requires |Received(front, size).buffered| + |d| < size && Split(Received(front, size).buffered + d).bad
    ensures Fits(chunks, size) && Flatten(chunks) == Flatten(front) + (d + h) && !Agrees(chunks, size)
  {
    hide Split, Fits, Received, Flatten, Agrees;
    var r, z, rest := Received(front, size).buffered, h[..1], h[1..];
    assert r + (d + z) == r + d + z;
    SplitInTwo(r + d, z);
    Discard(front, d + z, size);
    assert [] + rest == rest;
    ShortStays(rest);
    LateChunkDisagrees(front + [d + z], rest, size);
    chunks := front + [d + z] + [rest];
    assert d + z + rest == d + h;
    Rejoined(Flatten(front), d + z, rest, d + h);
  }

  /** The chunk without its last byte is bad already: that byte and the next header are thirteen bytes, which leave
      something behind, make a frame, or are bad with a byte to hold back. */
  lemma PushOne(front: seq<seq<Byte>>, d: seq<Byte>, h: seq<Byte>, size: nat) returns (chunks: seq<seq<Byte>>)
    requires Fits(front, size) && size > HEADER_SIZE && |h| == HEADER_SIZE && |d| > 0
    requires |Received(front, size).buffered| + |d| <= size
    requires Split(Received(front, size).buffered + d[..|d| - 1]).bad
    ensures Fits(chunks, size) && Flatten(chunks) == Flatten(front) + (d + h) && !Agrees(chunks, size)
  {
    hide Split, Fits, Received, Flatten, Agrees;
    var most, t := d[..|d| - 1], d[|d| - 1..] + h;
    Discard(front, most, size);
    assert [] + t == t && [] + t[..|t| - 1] == t[..|t| - 1];
    assert most + t == d + h;
    Rejoined(Flatten(front), most, t, d + h);
    if Split(t).bad {
      ThirteenBad(t);
      chunks := HoldBack(front + [most], t, size);
    } else {
      ThirteenGood(t);
      LateChunkDisagrees(front + [most], t, size);
      chunks := front + [most] + [t];
    }
  }

  lemma ThirteenBad(t: seq<Byte>)
    requires |t| == HEADER_SIZE + 1 && Split(t).bad
    ensures Split(t[..|t| - 1]).bad
  {
    var u := t[..|t| - 1];
    assert u + t[|t| - 1..] == t;
    WordOfLonger(u, t[|t| - 1..]);
  }

  lemma ThirteenGood(t: seq<Byte>)
    requires |t| == HEADER_SIZE + 1 && !Split(t).bad
    ensures |Split(t).rest| > 0 || |Split(t).frames| > 0
  {
  }

  /** Nothing but whole frames, then twelve bytes that are a bad header. */
  ghost predicate EndsBad(b: seq<Byte>) {
    && |b| >= HEADER_SIZE
    && |Split(b[..|b| - HEADER_SIZE]).rest| == 0 && !Split(b[..|b| - HEADER_SIZE]).bad
    && Split(b[|b| - HEADER_SIZE..]).bad
  }

  lemma EndsBadStep(f: seq<Byte>, tail: seq<Byte>)
    requires Framed(f, |f|) && EndsBad(tail)
    ensures EndsBad(f + tail)
  {
    var lead := tail[..|tail| - HEADER_SIZE];
    assert (f + tail)[..|f + tail| - HEADER_SIZE] == f + lead;
    assert (f + tail)[|f + tail| - HEADER_SIZE..] == tail[|tail| - HEADER_SIZE..];
    hide Split;
    FrameInFront(f, lead, |f|);
  }

  lemma FirstFrame(b: seq<Byte>)
    requires |b| >= HEADER_SIZE && HEADER_SIZE <= Read32(b, 0) <= |b|
    ensures Framed(b[..Read32(b, 0)], Read32(b, 0)) && b[..Read32(b, 0)] + b[Read32(b, 0)..] == b
    ensures Split(b) == Before([b[..Read32(b, 0)]], Split(b[Read32(b, 0)..]))
  {
    hide Split;
    var f := b[..Read32(b, 0)];
    WordOfLonger(f, b[Read32(b, 0)..]);
    assert f + b[Read32(b, 0)..] == b;
    FrameInFront(f, b[Read32(b, 0)..], |f|);
  }

  /** A string that is bad only with its last byte ends in the bad header, with nothing but frames in front. */
  lemma {:induction false} BadAtTheEnd(b: seq<Byte>)
    requires Split(b).bad && |b| > 0 && !Split(b[..|b| - 1]).bad
    ensures EndsBad(b)
    decreases |b|
  {
    if |b| < HEADER_SIZE || Read32(b, 0) > |b| {
      assert false;
    } else if Read32(b, 0) < HEADER_SIZE {
      BadHeaderEnds(b);
    } else {
      hide Split, EndsBad, Read32;
      var f, tail := b[..Read32(b, 0)], b[Read32(b, 0)..];
      FirstFrame(b);
      BadLeavesNothing(tail);
      assert b[..|b| - 1] == f + tail[..|tail| - 1];
      FrameInFront(f, tail[..|tail| - 1], |f|);
      BadAtTheEnd(tail);
      EndsBadStep(f, tail);
    }
  }

  lemma BadHeaderEnds(b: seq<Byte>)
    requires |b| >= HEADER_SIZE && Read32(b, 0) < HEADER_SIZE && !Split(b[..|b| - 1]).bad
    ensures EndsBad(b)
  {
    hide Read32;
    var most := b[..|b| - 1];
    if |most| >= HEADER_SIZE {
      assert most + b[|b| - 1..] == b;
      WordOfLonger(most, b[|b| - 1..]);
    }
    assert |b| == HEADER_SIZE;
    var lead, last := b[..|b| - HEADER_SIZE], b[|b| - HEADER_SIZE..];
    assert |lead| == 0 && last == b;
    ShortStays(lead);
  }

  lemma MoreFrames(a: seq<Byte>, b: seq<Byte>)
    requires !Split(a).bad
    ensures |Split(a + b).frames| >= |Split(a).frames|
  {
    hide Split;
    SplitInTwo(a, b);
    BeforeKeeps(Split(a).frames, Split(Split(a).rest + b));
  }

  /** No beginning of a residue is cut into whole frames, except the empty one. */
  lemma NoFramesInside(a: seq<Byte>, c: seq<Byte>)
    requires |Split(a + c).frames| == 0 && !Split(a).bad && |Split(a).rest| == 0
    ensures |a| == 0
  {
    hide Split;
    MoreFrames(a, c);
    NoFrames(a);
  }

  lemma NoFrames(b: seq<Byte>)
    requires |Split(b).frames| == 0 && !Split(b).bad
    ensures Split(b).rest == b
  {
    hide Read32;
  }

  /** Where the last twelve bytes of r + d begin inside d. */
  lemma Tail(r: seq<Byte>, d: seq<Byte>, k: nat)
    requires k <= |d|
    ensures (r + d)[..|r| + k] == r + d[..k] && (r + d)[|r| + k..] == d[k..]
  {
  }

  /** The bad header stands at the very end of a full buffer, so frames stand in front of it: let them through first,
      and the header comes alone, with room for one byte more. */
  lemma Isolate(front: seq<seq<Byte>>, d: seq<Byte>, h: seq<Byte>, size: nat) returns (chunks: seq<seq<Byte>>)
    requires Fits(front, size) && size > HEADER_SIZE && |h| == HEADER_SIZE
    requires var r := Received(front, size).buffered;
             |r| + |d| == size && Split(r + d).bad && Split(r) == Cut([], r, false)
             && |d| > 0 && !Split(r + d[..|d| - 1]).bad
    ensures Fits(chunks, size) && Flatten(chunks) == Flatten(front) + (d + h) && !Agrees(chunks, size)
  {
    hide Split, Fits, Received, Flatten, Agrees, Woken;
    var k := HeaderAtTheEnd(Received(front, size).buffered, d);
    FitsMore(front, d[..k], size);
    ChunkCut(Received(front, size), d[..k], size);
    assert [] + d[k..] == d[k..];
    chunks := PullOne(front + [d[..k]], d[k..], h, size);
    assert d[..k] + (d[k..] + h) == d + h;
    Rejoined(Flatten(front), d[..k], d[k..] + h, d + h);
  }

  lemma HeaderAtTheEnd(r: seq<Byte>, d: seq<Byte>) returns (k: nat)
    requires |r| + |d| > HEADER_SIZE && Split(r + d).bad && |Split(r).frames| == 0
    requires |d| > 0 && !Split(r + d[..|d| - 1]).bad
    ensures k + HEADER_SIZE == |d|
    ensures !Split(r + d[..k]).bad && |Split(r + d[..k]).rest| == 0 && Split(d[k..]).bad
  {
    hide Split;
    var s := r + d;
    assert s[..|s| - 1] == r + d[..|d| - 1];
    BadAtTheEnd(s);
    var lead := s[..|s| - HEADER_SIZE];
    if |lead| < |r| {
      assert lead + r[|lead|..] == r;
      NoFramesInside(lead, r[|lead|..]);
    }
    k := |lead| - |r|;
    Tail(r, d, k);
  }

  /** A chunk that completes a bad header, and behind it the twelve bytes of another one. Moving the boundary between
      the two leaves something behind. */
  lemma MoveBoundary(front: seq<seq<Byte>>, d: seq<Byte>, h: seq<Byte>, size: nat) returns (chunks: seq<seq<Byte>>)
    requires Fits(front, size) && size > HEADER_SIZE && |h| == HEADER_SIZE
    requires var r := Received(front, size).buffered;
             |r| + |d| <= size && Split(r + d).bad && Split(r) == Cut([], r, false)
    ensures Fits(chunks, size) && Flatten(chunks) == Flatten(front) + (d + h) && !Agrees(chunks, size)
  {
    hide Split, Fits, Received, Flatten, Agrees;
    var r := Received(front, size).buffered;
    if |d| == 0 {
      NothingAdded(r, d);
    }
    if |r| + |d| < size {
      chunks := PullOne(front, d, h, size);
    } else if Split(r + d[..|d| - 1]).bad {
      chunks := PushOne(front, d, h, size);
    } else {
      chunks := Isolate(front, d, h, size);
    }
  }

  lemma NothingAdded(r: seq<Byte>, d: seq<Byte>)
    requires |d| == 0
    ensures r + d == r
  {
  }

  lemma {:induction false} BufferedIdle(chunks: seq<seq<Byte>>, size: nat)
    requires Fits(chunks, size)
    ensures var r := Received(chunks, size).buffered;
            Split(r) == Cut([], r, false)
  {
    hide Split, Fits;
    SplitNothing();
    if |chunks| > 0 {
      hide Received;
      LastChunk(chunks, size);
      var b := Received(chunks[..|chunks| - 1], size).buffered + chunks[|chunks| - 1];
      if Split(b).bad {
        BadLeavesNothing(b);
      } else {
        RestIsPartial(b);
      }
    }
  }

  /** From any division of a stream in which a bad header is followed by more, one that disagrees. */
  lemma Disagreement(chunks: seq<seq<Byte>>, size: nat) returns (other: seq<seq<Byte>>)
    requires Fits(chunks, size) && !Tolerable(Flatten(chunks)) && size > HEADER_SIZE
    ensures Flatten(other) == Flatten(chunks) && Fits(other, size) && !Agrees(other, size)
  {
    if !Agrees(chunks, size) {
      return chunks;
    }
    var i := LastDrop(chunks, size);
    var front, d := chunks[..i], chunks[i];
    NothingBehind(chunks, size, i);
    BufferedIdle(front, size);
    hide Split, Fits, Received, Flatten, Agrees, DropsLast, Tolerable;
    var r := Received(front, size).buffered;
    if |d| == 0 {
      NothingAdded(r, d);
    }
    if Split(r + d[..|d| - 1]).bad {
      other := HoldBack(front, d, size);
    } else {
      EarlierDrop(front, d, size);
      other := TwoDrops(front, d, size);
    }
  }

  /** When a division agrees, nothing comes after the last chunk that discards. */
  lemma NothingBehind(chunks: seq<seq<Byte>>, size: nat, i: nat)
    requires Agrees(chunks, size) && DropsLast(chunks, size, i) && Split(Flatten(chunks)).bad
    ensures Flatten(chunks) == Flatten(chunks[..i]) + chunks[i]
  {
    hide Split, Fits, Received, Flatten;
    BadLeavesNothing(Flatten(chunks));
    NoFrames(Flatten(chunks[i + 1..]));
    assert Flatten(chunks[..i]) + chunks[i] + [] == Flatten(chunks[..i]) + chunks[i];
  }

  /** When the header is complete only with the last byte, something was discarded before, or the stream would be
      tolerable. */
  lemma EarlierDrop(front: seq<seq<Byte>>, d: seq<Byte>, size: nat)
    requires Fits(front, size) && |d| > 0
    requires !Tolerable(Flatten(front) + d) && !Split(Received(front, size).buffered + d[..|d| - 1]).bad
    ensures Split(Flatten(front)).bad
  {
    hide Split, Fits, Received, Flatten;
    assert (Flatten(front) + d)[..|Flatten(front) + d| - 1] == Flatten(front) + d[..|d| - 1];
    SplitInTwo(Flatten(front), d[..|d| - 1]);
    if !Split(Flatten(front)).bad {
      AgreesMeans(front, size);
    }
  }

  /** The last two headers discarded stand apart by one chunk boundary, which can be moved. */
  lemma TwoDrops(front: seq<seq<Byte>>, d: seq<Byte>, size: nat) returns (other: seq<seq<Byte>>)
    requires Fits(front, size) && |d| > 0 && size > HEADER_SIZE && Split(Flatten(front)).bad
    requires var r := Received(front, size).buffered;
             |r| + |d| <= size && Split(r + d).bad && !Split(r + d[..|d| - 1]).bad
    ensures Flatten(other) == Flatten(front) + d && Fits(other, size) && !Agrees(other, size)
  {
    hide Split, Fits, Received, Flatten, Agrees, DropsLast;
    var r := Received(front, size).buffered;
    if |Split(r + d).frames| > 0 || |Received(front, size).dispatched| > |Split(Flatten(front)).frames| {
      LateChunkDisagrees(front, d, size);
      return front + [d];
    }
    LastByteOff(r, d);
    HeaderAlone(r + d);
    var i := LastDrop(front, size);
    DropTail(front, size, i);
    other := MoveBoundary(front[..i], front[i], r + d, size);
    Regrouped(Flatten(front[..i]), front[i], r, d);
  }

  /** When no frame was handed out behind the last chunk that discards, what followed it is still in the buffer. */
  lemma DropTail(chunks: seq<seq<Byte>>, size: nat, i: nat)
    requires DropsLast(chunks, size, i)
    requires |Received(chunks, size).dispatched| <= |Split(Flatten(chunks)).frames|
    ensures i < |chunks| && Fits(chunks[..i], size)
    ensures |Received(chunks[..i], size).buffered| + |chunks[i]| <= size
    ensures Split(Received(chunks[..i], size).buffered + chunks[i]).bad
    ensures Split(Received(chunks[..i], size).buffered) == Cut([], Received(chunks[..i], size).buffered, false)
    ensures Flatten(chunks) == Flatten(chunks[..i]) + chunks[i] + Received(chunks, size).buffered
  {
    hide Split, Fits, Received, Flatten;
    BufferedIdle(chunks[..i], size);
    NoFrames(Flatten(chunks[i + 1..]));
  }

  lemma LastByteOff(r: seq<Byte>, d: seq<Byte>)
    requires |d| > 0
    ensures (r + d)[..|r + d| - 1] == r + d[..|d| - 1]
  {
  }

  lemma Regrouped(a: seq<Byte>, b: seq<Byte>, c: seq<Byte>, d: seq<Byte>)
    ensures a + b + c + d == a + (b + (c + d))
  {
  }

  lemma HeaderAlone(s: seq<Byte>)
    requires Split(s).bad && |s| > 0 && !Split(s[..|s| - 1]).bad && |Split(s).frames| == 0
    ensures |s| == HEADER_SIZE
  {
    hide Split;
    BadAtTheEnd(s);
    var lead, h := s[..|s| - HEADER_SIZE], s[|s| - HEADER_SIZE..];
    assert lead + h == s;
    NoFramesInside(lead, h);
  }

  /** Exactly when chunking does not matter, for a stream of any length and any buffer that holds more than a
      header: no bad header comes up, or nothing follows it, or no division brings the stream through the
      buffer at all. What a bad header discards depends on what has already arrived. */
  lemma ChunkingMattersIff(b: seq<Byte>, size: nat)
    requires size > HEADER_SIZE
    ensures AnyChunksAgree(b, size) <==> Tolerable(b) || !Deliverable(b, size)
  {
    hide Split, Woken, Tolerable;
    if Tolerable(b) {
      forall chunks: seq<seq<Byte>> | Flatten(chunks) == b && Fits(chunks, size)
        ensures Agrees(chunks, size)
      {
        ReceivedIsSplit(chunks, size);
      }
    } else if Deliverable(b, size) {
      var chunks :| Flatten(chunks) == b && Fits(chunks, size);
      var other := Disagreement(chunks, size);
    }
  }

  // ---------------------------------------------------------------------------
  // Which streams come through
  // ---------------------------------------------------------------------------

  /** A stream comes through when its leading frames fit the buffer one by one, and so does what follows them. */
  lemma FramesThenTailDeliverable(b: seq<Byte>, size: nat)
    requires AllFramed(Split(b).frames, size) && |b| - |Flatten(Split(b).frames)| <= size
    ensures Deliverable(b, size)
  {
    hide Split, Fits, Received, Flatten, AllFramed, Woken;
    var fs := Split(b).frames;
    FramesLead(b);
    OneByOne(fs, size);
    var tail := b[|Flatten(fs)|..];
    FitsMore(fs, tail, size);
    assert Flatten(fs) + tail == b;
  }

  lemma {:induction false} FramesLead(b: seq<Byte>)
    ensures Flatten(Split(b).frames) <= b
    decreases |b|
  {
    hide Read32;
    if |b| >= HEADER_SIZE && HEADER_SIZE <= Read32(b, 0) <= |b| {
      var total := Read32(b, 0);
      FramesLead(b[total..]);
      assert b == b[..total] + b[total..];
      assert Split(b).frames[1..] == Split(b[total..]).frames;
    }
  }

  /** Valid frames that arrive one by one leave the buffer empty each time. */
  lemma {:induction false} OneByOne(fs: seq<seq<Byte>>, size: nat)
    requires AllFramed(fs, size)
    ensures Fits(fs, size) && Received(fs, size).buffered == []
  {
    hide Split, Woken;
    if |fs| > 0 {
      var front, f := fs[..|fs| - 1], fs[|fs| - 1];
      OneByOne(front, size);
      FitsMore(front, f, size);
      ChunkCut(Received(front, size), f, size);
      assert front + [f] == fs;
      assert [] + f == f;
      FrameInFront(f, [], size);
      assert f + [] == f;
      SplitNothing();
    }
  }

  /** A stream of this length after a header of zeros asks for a frame that no buffer of this size holds. */
  function Endless(n: nat): (b: seq<Byte>)
    ensures |b| == HEADER_SIZE + n
  {
    Zeros(HEADER_SIZE) + seq(n, _ => 255)
  }

  predicate AllOnes(b: seq<Byte>) {
    forall i | 0 <= i < |b| :: b[i] == 255
  }

  lemma AllOnesWait(b: seq<Byte>)
    requires AllOnes(b) && |b| < 0xFFFF_FFFF
    ensures Split(b) == Cut([], b, false)
  {
    if |b| >= HEADER_SIZE {
      var w := b[0..4];
      assert w[..3] == [255, 255, 255] && w[..3][..2] == [255, 255] && w[..3][..2][..1] == [255];
      assert w[..3][..2][..1][..0] == [];
      assert Value(w[..3][..2][..1]) == 255;
      assert Value(w[..3][..2]) == 0xFFFF;
      assert Value(w[..3]) == 0xFF_FFFF;
      assert Value(w) == 0xFFFF_FFFF;
    }
  }

  lemma ZerosAreBad(b: seq<Byte>)
    requires |b| >= HEADER_SIZE && b[..HEADER_SIZE] == Zeros(HEADER_SIZE)
    ensures Split(b) == Cut([], [], true)
  {
    var w := b[0..4];
    assert forall i | 0 <= i < 4 :: b[i] == b[..HEADER_SIZE][i];
    assert w[..3] == [0, 0, 0] && w[..3][..2] == [0, 0] && w[..3][..2][..1] == [0];
    assert w[..3][..2][..1][..0] == [];
    assert Value(w[..3][..2][..1]) == 0;
    assert Value(w[..3][..2]) == 0;
    assert Value(w[..3]) == 0;
  }

  /** However a beginning of that stream is divided, at most one buffer is discarded and the rest piles up. */
  lemma {:induction false} EndlessPilesUp(n: nat, chunks: seq<seq<Byte>>, size: nat)
    requires Fits(chunks, size) && Flatten(chunks) <= Endless(n) && size < 0xFFFF_FFFF
    ensures var r := Received(chunks, size).buffered;
            || (r == Flatten(chunks) && |r| < HEADER_SIZE)
            || (AllOnes(r) && HEADER_SIZE <= |Flatten(chunks)| <= size + |r|)
  {
    hide Split, Fits;
    if |chunks| > 0 {
      hide Received, Flatten;
      var front, chunk := chunks[..|chunks| - 1], chunks[|chunks| - 1];
      LastChunk(chunks, size);
      EndlessPilesUp(n, front, size);
      var r, b := Received(front, size).buffered, Flatten(chunks);
      assert b == Endless(n)[..|b|];
      assert forall i | 0 <= i < |chunk| :: chunk[i] == b[|Flatten(front)| + i];
      if r == Flatten(front) && |r| < HEADER_SIZE {
        if |b| < HEADER_SIZE {
          ShortStays(r + chunk);
        } else {
          assert b[..HEADER_SIZE] == Zeros(HEADER_SIZE);
          ZerosAreBad(r + chunk);
        }
      } else {
        assert AllOnes(chunk);
        AllOnesWait(r + chunk);
      }
    }
  }

  /** A bound on the frames in front of the bad header does not make a stream come through: this one has none. */
  lemma EndlessIsUndeliverable(n: nat, size: nat)
    requires size < 0xFFFF_FFFF && HEADER_SIZE + n > 2 * size
    ensures Split(Endless(n)).frames == [] && !Deliverable(Endless(n), size)
  {
    ZerosAreBad(Endless(n));
    forall chunks: seq<seq<Byte>> | Flatten(chunks) == Endless(n) && Fits(chunks, size)
      ensures false
    {
      EndlessPilesUp(n, chunks, size);
    }
  }
}
