// Cutting RPC frames off the front of a byte string.

module RpcCut {
  import opened Bytes
  import opened Common
  import opened RpcFrame

  // ---------------------------------------------------------------------------
  // Cutting frames off the front of a byte string
  // ---------------------------------------------------------------------------

  /** The frames in front, what is left, and whether cutting ended at an invalid header. */
  datatype Cut = Cut(frames: seq<seq<Byte>>, rest: seq<Byte>, bad: bool)

  function Before(frames: seq<seq<Byte>>, c: Cut): Cut {
    Cut(frames + c.frames, c.rest, c.bad)
  }

  function Split(b: seq<Byte>): (c: Cut)
    ensures |c.rest| <= |b|
  {
    if |b| < HEADER_SIZE then Cut([], b, false)
    else
      var total := Read32(b, 0);
      if total < HEADER_SIZE then Cut([], [], true)
      else if |b| < total then Cut([], b, false)
      else Before([b[..total]], Split(b[total..]))
  }

  lemma BeforeTwice(fs: seq<seq<Byte>>, gs: seq<seq<Byte>>, c: Cut)
    ensures Before(fs, Before(gs, c)) == Before(fs + gs, c)
  {
    assert fs + (gs + c.frames) == fs + gs + c.frames;
  }

  lemma WordOfLonger(a: seq<Byte>, b: seq<Byte>)
    requires |a| >= 4
    ensures Read32(a + b, 0) == Read32(a, 0)
  {
    assert (a + b)[0..4] == a[0..4];
  }

  /** Cutting a, then cutting what is left together with b, is cutting a and b at once. */
  lemma {:induction false} SplitInTwo(a: seq<Byte>, b: seq<Byte>)
    ensures !Split(a).bad ==> Split(a + b) == Before(Split(a).frames, Split(Split(a).rest + b))
    ensures Split(a).bad ==> Split(a + b) == Split(a)
    decreases |a|
  {
    hide Read32;
    if |a| >= HEADER_SIZE {
      WordOfLonger(a, b);
      var total := Read32(a, 0);
      if HEADER_SIZE <= total <= |a| {
        SplitInTwo(a[total..], b);
        assert (a + b)[..total] == a[..total];
        assert (a + b)[total..] == a[total..] + b;
        BeforeTwice([a[..total]], Split(a[total..]).frames, Split(Split(a[total..]).rest + b));
      }
    }
  }

  /** What is left is shorter than a header, or than the frame its header announces. */
  lemma {:induction false} RestIsPartial(b: seq<Byte>)
    requires !Split(b).bad
    ensures var r := Split(b).rest;
            |r| < HEADER_SIZE || HEADER_SIZE <= |r| < Read32(r, 0)
    ensures Split(Split(b).rest) == Cut([], Split(b).rest, false)
    decreases |b|
  {
    hide Read32;
    if |b| >= HEADER_SIZE && HEADER_SIZE <= Read32(b, 0) <= |b| {
      RestIsPartial(b[Read32(b, 0)..]);
    }
  }

  // ---------------------------------------------------------------------------
  // Streams of valid frames
  // ---------------------------------------------------------------------------

  ghost predicate Framed(f: seq<Byte>, limit: nat) {
    && HEADER_SIZE <= |f| <= limit
    && Read32(f, 0) == |f|
  }

  ghost predicate AllFramed(fs: seq<seq<Byte>>, limit: nat) {
    forall i | 0 <= i < |fs| :: Framed(fs[i], limit)
  }

  function Flatten(fs: seq<seq<Byte>>): seq<Byte> {
    if |fs| == 0 then [] else fs[0] + Flatten(fs[1..])
  }

  lemma {:induction false} FlattenLast(fs: seq<seq<Byte>>, f: seq<Byte>)
    ensures Flatten(fs + [f]) == Flatten(fs) + f
  {
    if |fs| == 0 {
      assert fs + [f] == [f];
    } else {
      FlattenLast(fs[1..], f);
      assert (fs + [f])[1..] == fs[1..] + [f];
    }
  }

  lemma ShortOfAFrame(f: seq<Byte>, b: seq<Byte>, limit: nat)
    requires Framed(f, limit) && b <= f && |b| < |f|
    ensures Split(b) == Cut([], b, false)
  {
    if |b| >= HEADER_SIZE {
      WordOfLonger(b, f[|b|..]);
      assert b + f[|b|..] == f;
    }
  }

  lemma FrameInFront(f: seq<Byte>, tail: seq<Byte>, limit: nat)
    requires Framed(f, limit)
    ensures Split(f + tail) == Before([f], Split(tail))
  {
    WordOfLonger(f, tail);
    assert (f + tail)[..|f|] == f && (f + tail)[|f|..] == tail;
  }

  /** What cutting b, the start of a stream of frames, must give when k of them lie inside b. */
  ghost predicate CutAt(fs: seq<seq<Byte>>, b: seq<Byte>, k: nat) {
    && k <= |fs|
    && Split(b) == Cut(fs[..k], Split(b).rest, false)
    && Flatten(fs[..k]) + Split(b).rest == b
    && (if k < |fs| then Split(b).rest <= fs[k] && |Split(b).rest| < |fs[k]| else Split(b).rest == [])
  }

  lemma CutAtNext(fs: seq<seq<Byte>>, tail: seq<Byte>, j: nat, limit: nat)
    requires |fs| > 0 && Framed(fs[0], limit) && CutAt(fs[1..], tail, j)
    ensures CutAt(fs, fs[0] + tail, j + 1)
  {
    hide Framed, Split;
    FrameInFront(fs[0], tail, limit);
    FlattenOneMore(fs, j, Split(tail).rest);
    assert fs[..j + 1] == [fs[0]] + fs[1..][..j];
  }

  lemma FlattenOneMore(fs: seq<seq<Byte>>, j: nat, rest: seq<Byte>)
    requires |fs| > 0 && j < |fs|
    ensures Flatten(fs[..j + 1]) + rest == fs[0] + (Flatten(fs[1..][..j]) + rest)
  {
    assert fs[..j + 1][1..] == fs[1..][..j];
    assert Flatten(fs[..j + 1]) == fs[0] + Flatten(fs[1..][..j]);
  }

  /** Any start b of a stream of valid frames is cut into exactly the frames that lie wholly inside
      it; what is left is a proper prefix of the next frame. */
  lemma {:induction false} PrefixIsCut(fs: seq<seq<Byte>>, b: seq<Byte>, limit: nat) returns (k: nat)
    requires AllFramed(fs, limit) && b <= Flatten(fs)
    ensures CutAt(fs, b, k)
    decreases |fs|
  {
    hide Read32;
    if |fs| == 0 {
      return 0;
    }
    var f, whole := fs[0], Flatten(fs);
    assert b == whole[..|b|];
    if |b| < |f| {
      assert b == f[..|b|];
      ShortOfAFrame(f, b, limit);
      return 0;
    }
    hide CutAt, Framed, Split;
    var tail := b[|f|..];
    assert whole[..|f|] == f && whole[|f|..] == Flatten(fs[1..]);
    assert b == f + tail && tail == Flatten(fs[1..])[..|tail|];
    var j := PrefixIsCut(fs[1..], tail, limit);
    CutAtNext(fs, tail, j, limit);
    k := j + 1;
  }
}
