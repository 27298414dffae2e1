// The gossip datagram: a 16-byte header and fixed 40-byte member updates.

module GossipCodec {
  import opened Bytes
  import opened Common
  import opened Membership
  import opened Nodes
  import opened Gossip

  const HEADER_SIZE: nat := 16
  const UPDATE_SIZE: nat := 40
  const COUNT_AT: nat := 14
  const MAX_PAYLOAD: nat := 1400

  // ---------------------------------------------------------------------------
  // The format
  // ---------------------------------------------------------------------------

  function Long(v: nat): (bs: seq<Byte>)
    ensures |bs| == 8
  {
    BigEndian(v % TWO_TO_THE_64, 8)
  }

  function EncodeUpdate(u: Update): (bs: seq<Byte>)
    ensures |bs| == UPDATE_SIZE
  {
    BigEndian(u.id, 2) + [u.nodeType] + [u.status] + Field(u.ip, MAX_IP_LEN)
    + BigEndian(u.gossipPort, 2) + BigEndian(u.dataPort, 2) + Long(u.incarnation) + Long(u.timestamp)
  }

  function EncodeUpdates(us: seq<Update>): (bs: seq<Byte>)
    ensures |bs| == UPDATE_SIZE * |us|
  {
    if |us| == 0 then [] else EncodeUpdates(us[..|us| - 1]) + EncodeUpdate(us[|us| - 1])
  }

  function EncodeHeader(m: Message): (bs: seq<Byte>)
    ensures |bs| == HEADER_SIZE
  {
    [m.version] + [m.msgType] + BigEndian(m.flags, 2) + BigEndian(m.sender, 2) + Long(m.sequenceNum)
    + [|m.updates| % 256] + [0]
  }

  function Encode(m: Message): (bs: seq<Byte>)
    ensures |bs| == HEADER_SIZE + UPDATE_SIZE * |m.updates|
  {
    EncodeHeader(m) + EncodeUpdates(m.updates)
  }

  function Minimum(a: nat, b: nat): nat {
    if a < b then a else b
  }

  /** How many of n updates a buffer of this size has room for. */
  function Fitting(n: nat, size: nat): nat
    requires size >= HEADER_SIZE
  {
    Minimum(n, (size - HEADER_SIZE) / UPDATE_SIZE)
  }

  /** The datagram that serialization into `size` bytes leaves. When updates are cut off, the
      number of those left is stored at offset 16, which is the high byte of the first
      node id, and not at offset 14, which holds the count. */
  function Datagram(m: Message, size: nat): (bs: seq<Byte>)
    requires size >= HEADER_SIZE
    ensures |bs| == HEADER_SIZE + UPDATE_SIZE * Fitting(|m.updates|, size) <= size
  {
    var k := Fitting(|m.updates|, size);
    var whole := EncodeHeader(m) + EncodeUpdates(m.updates[..k]);
    if 0 < k < |m.updates| then whole[HEADER_SIZE := k % 256] else whole
  }

  // ---------------------------------------------------------------------------
  // Reading
  // ---------------------------------------------------------------------------

  /** The last of the 16 address bytes is forced to NUL. */
  function DecodeUpdate(b: seq<Byte>, at: nat): Update
    requires at + UPDATE_SIZE <= |b|
  {
    Update(Read16(b, at), b[at + 2], CString(b[at + 4..at + 19]), Read16(b, at + 20), Read16(b, at + 22),
           b[at + 3], Read64(b, at + 24), Read64(b, at + 32))
  }

  function DecodeUpdates(b: seq<Byte>, n: nat): (us: seq<Update>)
    requires HEADER_SIZE + UPDATE_SIZE * n <= |b|
    ensures |us| == n
  {
    seq(n, i requires 0 <= i < n => DecodeUpdate(b, HEADER_SIZE + UPDATE_SIZE * i))
  }

  /** How many updates the reader takes: what the header announces, the array holds and the bytes reach. */
  function Readable(b: seq<Byte>): nat
    requires |b| >= HEADER_SIZE
  {
    Fitting(Minimum(b[COUNT_AT], GOSSIP_MAX_PIGGYBACK_UPDATES), |b|)
  }

  function Decode(b: seq<Byte>): (m: Option<Message>)
  {
    if |b| < HEADER_SIZE || b[0] != 1 then None
    else Some(Message(b[0], b[1], Read16(b, 2), Read16(b, 4), Read64(b, 6), DecodeUpdates(b, Readable(b))))
  }

  // ---------------------------------------------------------------------------
  // Round trip and prefixes
  // ---------------------------------------------------------------------------

  ghost predicate Address(ip: seq<Byte>) {
    NulFree(ip) && |ip| < MAX_IP_LEN
  }

  ghost predicate Wireable(u: Update) {
    Address(u.ip) && u.incarnation < TWO_TO_THE_64 && u.timestamp < TWO_TO_THE_64
  }

  ghost predicate Sendable(m: Message) {
    && m.version == 1
    && m.sequenceNum < TWO_TO_THE_64
    && |m.updates| <= GOSSIP_MAX_PIGGYBACK_UPDATES
    && forall i | 0 <= i < |m.updates| :: Wireable(m.updates[i])
  }

  lemma FieldsOf(u: Update)
    ensures var r := EncodeUpdate(u);
            && r[0..2] == BigEndian(u.id, 2) && r[2] == u.nodeType && r[3] == u.status
            && r[4..20] == Field(u.ip, MAX_IP_LEN) && r[20..22] == BigEndian(u.gossipPort, 2)
            && r[22..24] == BigEndian(u.dataPort, 2)
            && r[24..32] == Long(u.incarnation) && r[32..40] == Long(u.timestamp)
  {
    hide BigEndian, Field, Long;
  }

  lemma Part(b: seq<Byte>, at: nat, from: nat, to: nat)
    requires at + UPDATE_SIZE <= |b| && from <= to <= UPDATE_SIZE
    ensures b[at + from..at + to] == b[at..at + UPDATE_SIZE][from..to]
  {
    var r := b[at..at + UPDATE_SIZE];
    assert forall k | from <= k < to :: r[k] == b[at + k];
  }

  lemma UpdateRead(b: seq<Byte>, at: nat, u: Update)
    requires Wireable(u) && at + UPDATE_SIZE <= |b| && b[at..at + UPDATE_SIZE] == EncodeUpdate(u)
    ensures DecodeUpdate(b, at) == u
  {
    hide BigEndian, Field, EncodeUpdate, Value, CString;
    var r := b[at..at + UPDATE_SIZE];
    FieldsOf(u);
    WordSizes();
    Part(b, at, 0, 2);
    Part(b, at, 20, 22);
    Part(b, at, 22, 24);
    Part(b, at, 24, 32);
    Part(b, at, 32, 40);
    Part(b, at, 4, 19);
    assert r[4..19] == r[4..20][..15];
    assert b[at + 2] == r[2] && b[at + 3] == r[3];
    ValueOfBigEndian(u.id, 2);
    ValueOfBigEndian(u.gossipPort, 2);
    ValueOfBigEndian(u.dataPort, 2);
    ValueOfBigEndian(u.incarnation, 8);
    ValueOfBigEndian(u.timestamp, 8);
    FieldRead(u.ip, MAX_IP_LEN, []);
  }

  lemma HeaderRead(b: seq<Byte>, m: Message)
    requires Sendable(m) && |b| >= HEADER_SIZE && b[..HEADER_SIZE] == EncodeHeader(m)
    ensures b[0] == 1 && b[1] == m.msgType && b[COUNT_AT] == |m.updates|
    ensures Read16(b, 2) == m.flags && Read16(b, 4) == m.sender && Read64(b, 6) == m.sequenceNum
  {
    hide BigEndian, Value;
    var r := b[..HEADER_SIZE];
    assert b[0] == r[0] && b[1] == r[1] && b[COUNT_AT] == r[COUNT_AT];
    assert b[2..4] == r[2..4] == BigEndian(m.flags, 2);
    assert b[4..6] == r[4..6] == BigEndian(m.sender, 2);
    assert b[6..14] == r[6..14] == Long(m.sequenceNum);
    WordSizes();
    ValueOfBigEndian(m.flags, 2);
    ValueOfBigEndian(m.sender, 2);
    ValueOfBigEndian(m.sequenceNum, 8);
  }

  lemma {:induction false} UpdateAt(us: seq<Update>, i: nat)
    requires i < |us|
    ensures EncodeUpdates(us)[UPDATE_SIZE * i..UPDATE_SIZE * i + UPDATE_SIZE] == EncodeUpdate(us[i])
  {
    hide EncodeUpdate;
    if i < |us| - 1 {
      UpdateAt(us[..|us| - 1], i);
    }
  }

  /** Any cut of an encoded message behind its header decodes to the message with the updates
      that arrived whole; the complete message is the cut at its full length. */
  lemma CutDecodes(m: Message, size: nat)
    requires Sendable(m) && HEADER_SIZE <= size <= |Encode(m)|
    ensures Decode(Encode(m)[..size]) == Some(m.(updates := m.updates[..Fitting(|m.updates|, size)]))
  {
    hide EncodeUpdate, EncodeHeader, EncodeUpdates, DecodeUpdate, Read16, Read64;
    var b, n := Encode(m)[..size], Fitting(|m.updates|, size);
    HeaderRead(b, m);
    forall i | 0 <= i < n
      ensures DecodeUpdate(b, HEADER_SIZE + UPDATE_SIZE * i) == m.updates[i]
    {
      var at := HEADER_SIZE + UPDATE_SIZE * i;
      UpdateAt(m.updates, i);
      assert b[at..at + UPDATE_SIZE] == EncodeUpdates(m.updates)[UPDATE_SIZE * i..UPDATE_SIZE * i + UPDATE_SIZE];
      UpdateRead(b, at, m.updates[i]);
    }
    assert DecodeUpdates(b, n) == m.updates[..n];
  }

  lemma RoundTrip(m: Message)
    requires Sendable(m)
    ensures Decode(Encode(m)) == Some(m)
  {
    var n := |m.updates|;
    CutDecodes(m, HEADER_SIZE + UPDATE_SIZE * n);
    assert Encode(m)[..HEADER_SIZE + UPDATE_SIZE * n] == Encode(m);
    assert m.updates[..n] == m.updates;
    assert (UPDATE_SIZE * n) / UPDATE_SIZE == n;
  }

  // ---------------------------------------------------------------------------
  // What truncation does
  // ---------------------------------------------------------------------------

  lemma {:induction false} UpdatesPrefix(us: seq<Update>, k: nat)
    requires k <= |us|
    ensures EncodeUpdates(us)[..UPDATE_SIZE * k] == EncodeUpdates(us[..k])
  {
    hide EncodeUpdate;
    if k < |us| {
      UpdatesPrefix(us[..|us| - 1], k);
      assert us[..|us| - 1][..k] == us[..k];
    } else {
      assert us[..k] == us;
    }
  }

  /** Without the stray count the truncated datagram would be a prefix of the message. */
  lemma DatagramIsPatchedPrefix(m: Message, size: nat)
    requires size >= HEADER_SIZE
    ensures var k := Fitting(|m.updates|, size);
            var whole := Encode(m)[..HEADER_SIZE + UPDATE_SIZE * k];
            Datagram(m, size) == if 0 < k < |m.updates| then whole[HEADER_SIZE := k % 256] else whole
  {
    hide EncodeHeader, EncodeUpdates;
    UpdatesPrefix(m.updates, Fitting(|m.updates|, size));
  }

  lemma FirstIdHigh(m: Message)
    requires |m.updates| > 0
    ensures Encode(m)[HEADER_SIZE] == m.updates[0].id / 256
    ensures Encode(m)[HEADER_SIZE + 1] == m.updates[0].id % 256
  {
    hide EncodeHeader, EncodeUpdate;
    UpdateAt(m.updates, 0);
    var r := EncodeUpdate(m.updates[0]);
    assert Encode(m)[HEADER_SIZE..HEADER_SIZE + UPDATE_SIZE] == r;
    FieldsOf(m.updates[0]);
    assert r[0] == r[0..2][0] && r[1] == r[0..2][1];
    assert Encode(m)[HEADER_SIZE] == r[0] && Encode(m)[HEADER_SIZE + 1] == r[1];
    assert BigEndian(m.updates[0].id, 2) == [m.updates[0].id / 256, m.updates[0].id % 256];
  }

  lemma Read16Is(b: seq<Byte>, at: nat)
    requires at + 2 <= |b|
    ensures Read16(b, at) == (b[at] as int) * 256 + b[at + 1]
  {
    var r := b[at..at + 2];
    assert r[..1] == [b[at]];
    assert r[..1][..0] == [];
    assert Value(r[..1]) == b[at];
  }

  lemma PatchedDecodes(m: Message, k: nat)
    requires Sendable(m) && 0 < k < |m.updates|
    ensures var b := Encode(m)[..HEADER_SIZE + UPDATE_SIZE * k][HEADER_SIZE := k];
            && Decode(b).Some?
            && |Decode(b).value.updates| == k
            && Decode(b).value.updates[0].id == k * 256 + m.updates[0].id % 256
  {
    hide EncodeUpdate, EncodeHeader, EncodeUpdates, Read64, CString;
    var b := Encode(m)[..HEADER_SIZE + UPDATE_SIZE * k][HEADER_SIZE := k];
    HeaderRead(b, m);
    FirstIdHigh(m);
    Read16Is(b, HEADER_SIZE);
    assert Readable(b) == k;
    assert DecodeUpdates(b, k)[0] == DecodeUpdate(b, HEADER_SIZE);
  }

  /** The receiver of a datagram sees the updates that fitted, unchanged, exactly when nothing was
      cut off, nothing fitted, or the stray count happens to be the byte it overwrites. */
  lemma TruncationIsFaithfulIff(m: Message, size: nat)
    requires Sendable(m) && size >= HEADER_SIZE
    ensures var k := Fitting(|m.updates|, size);
            (Decode(Datagram(m, size)) == Some(m.(updates := m.updates[..k]))
             <==> k == |m.updates| || k == 0 || m.updates[0].id / 256 == k)
  {
    hide EncodeUpdates, EncodeHeader, Decode, Datagram;
    var k := Fitting(|m.updates|, size);
    DatagramIsPatchedPrefix(m, size);
    CutDecodes(m, HEADER_SIZE + UPDATE_SIZE * k);
    assert (UPDATE_SIZE * k) / UPDATE_SIZE == k;
    if 0 < k < |m.updates| {
      FirstIdHigh(m);
      PatchedDecodes(m, k);
      assert m.updates[..k][0] == m.updates[0];
      if m.updates[0].id / 256 == k {
        assert Datagram(m, size) == Encode(m)[..HEADER_SIZE + UPDATE_SIZE * k];
      }
    }
  }

  // ---------------------------------------------------------------------------
  // The two routines
  // ---------------------------------------------------------------------------

  method WriteUpdate(buffer: array<Byte>, at: nat, u: Update) returns (next: nat)
    requires at + UPDATE_SIZE <= buffer.Length
    modifies buffer
    ensures next == at + UPDATE_SIZE
    ensures buffer[..next] == old(buffer[..at]) + EncodeUpdate(u)
    ensures forall i | next <= i < buffer.Length :: buffer[i] == old(buffer[i])
  {
    hide BigEndian, Field, Long;
    ghost var before := old(buffer[..at]);
    next := Put(buffer, at, BigEndian(u.id, 2));
    next := Put(buffer, next, [u.nodeType]);
    next := Put(buffer, next, [u.status]);
    next := Put(buffer, next, Field(u.ip, MAX_IP_LEN));
    ghost var front := BigEndian(u.id, 2) + [u.nodeType] + [u.status] + Field(u.ip, MAX_IP_LEN);
    assert buffer[..next] == before + front;
    next := Put(buffer, next, BigEndian(u.gossipPort, 2));
    next := Put(buffer, next, BigEndian(u.dataPort, 2));
    next := Put(buffer, next, Long(u.incarnation));
    next := Put(buffer, next, Long(u.timestamp));
    assert buffer[..next] == before
                             + (front + BigEndian(u.gossipPort, 2) + BigEndian(u.dataPort, 2)
                                       + Long(u.incarnation) + Long(u.timestamp));
  }

  method WriteHeader(buffer: array<Byte>, m: Message) returns (next: nat)
    requires buffer.Length >= HEADER_SIZE && |m.updates| <= GOSSIP_MAX_PIGGYBACK_UPDATES
    modifies buffer
    ensures next == HEADER_SIZE
    ensures buffer[..next] == EncodeHeader(m)
    ensures forall i | next <= i < buffer.Length :: buffer[i] == old(buffer[i])
  {
    hide BigEndian, Long;
    next := Put(buffer, 0, [m.version]);
    next := Put(buffer, next, [m.msgType]);
    next := Put(buffer, next, BigEndian(m.flags, 2));
    next := Put(buffer, next, BigEndian(m.sender, 2));
    ghost var front := [m.version] + [m.msgType] + BigEndian(m.flags, 2) + BigEndian(m.sender, 2);
    assert buffer[..next] == front;
    next := Put(buffer, next, Long(m.sequenceNum));
    next := Put(buffer, next, [|m.updates|]);
    next := Put(buffer, next, [0]);
  }

  lemma NoUpdates(us: seq<Update>)
    ensures EncodeUpdates(us[..0]) == []
  {
  }

  lemma UpdatesAppend(us: seq<Update>, i: nat)
    requires i < |us|
    ensures EncodeUpdates(us[..i + 1]) == EncodeUpdates(us[..i]) + EncodeUpdate(us[i])
  {
    assert us[..i + 1][..i] == us[..i];
  }

  /** Writes into the first size bytes. When not all updates fit, the stray count goes to byte 16, and with
      size 16 that is the byte behind them, which the memory of the caller then has to have. */
  method Serialize(m: Message, buffer: array<Byte>, size: nat) returns (n: int)
    requires size <= buffer.Length && |m.updates| <= GOSSIP_MAX_PIGGYBACK_UPDATES
    requires size == HEADER_SIZE && |m.updates| > 0 ==> buffer.Length > HEADER_SIZE
    modifies buffer
    ensures size < HEADER_SIZE ==> n == -1 && buffer[..] == old(buffer[..])
    ensures size >= HEADER_SIZE ==> n == |Datagram(m, size)| && buffer[..n] == Datagram(m, size)
    ensures forall i | 0 <= n <= i < buffer.Length && i != HEADER_SIZE :: buffer[i] == old(buffer[i])
    ensures size >= HEADER_SIZE && buffer.Length > HEADER_SIZE == n ==>
              buffer[HEADER_SIZE] == if |m.updates| > 0 then 0 else old(buffer[HEADER_SIZE])
  {
    hide EncodeHeader, EncodeUpdate, EncodeUpdates;
    if size < HEADER_SIZE {
      return -1;
    }
    var us := m.updates;
    var offset := WriteHeader(buffer, m);
    NoUpdates(us);
    for i := 0 to |us|
      invariant offset == HEADER_SIZE + UPDATE_SIZE * i <= size
      invariant buffer[..offset] == EncodeHeader(m) + EncodeUpdates(us[..i])
      invariant forall j | offset <= j < buffer.Length :: buffer[j] == old(buffer[j])
    {
      if offset + UPDATE_SIZE > size {
        buffer[HEADER_SIZE] := i;
        return offset;
      }
      UpdatesAppend(us, i);
      offset := WriteUpdate(buffer, offset, us[i]);
    }
    n := offset;
  }

  /** Reads one datagram; num is the num_updates field that the message is left with. */
  method Deserialize(buffer: array<Byte>, len: nat) returns (m: Option<Message>, num: Byte)
    requires len <= buffer.Length
    ensures m == Decode(buffer[..len])
    ensures m.Some? ==>
              num == if buffer[COUNT_AT] > GOSSIP_MAX_PIGGYBACK_UPDATES
                        && len >= 416 then buffer[COUNT_AT] else |m.value.updates|
  {
    hide DecodeUpdate, Read16, Read64;
    if len < HEADER_SIZE {
      return None, 0;
    }
    var b := buffer[..len];
    if b[0] != 1 {
      return None, 0;
    }
    num := b[COUNT_AT];
    var us := [];
    var offset, i := HEADER_SIZE, 0;
    while i < num && i < GOSSIP_MAX_PIGGYBACK_UPDATES
      invariant i <= GOSSIP_MAX_PIGGYBACK_UPDATES && i <= num == b[COUNT_AT]
      invariant offset == HEADER_SIZE + UPDATE_SIZE * i <= len
      invariant us == DecodeUpdates(b, i)
    {
      if offset + UPDATE_SIZE > len {
        num := i;
        break;
      }
      us := us + [DecodeUpdate(b, offset)];
      offset := offset + UPDATE_SIZE;
      i := i + 1;
    }
    assert i == Readable(b);
    m := Some(Message(b[0], b[1], Read16(b, 2), Read16(b, 4), Read64(b, 6), us));
  }

  /** gossip_message_serialized_size is what serialization into a payload buffer writes. */
  method SerializedSize(m: Message) returns (size: nat)
    requires |m.updates| <= GOSSIP_MAX_PIGGYBACK_UPDATES
    ensures size == |Datagram(m, MAX_PAYLOAD)| == |Encode(m)| <= MAX_PAYLOAD
    ensures Datagram(m, MAX_PAYLOAD) == Encode(m)
  {
    size := 16 + |m.updates| * UPDATE_SIZE;
    assert m.updates[..|m.updates|] == m.updates;
  }
}
