// The RPC frame: a 12-byte header whose first word is the length of the whole frame, then the payload.

module RpcFrame {
  import opened Bytes
  import opened Common

  const HEADER_SIZE: nat := 12
  datatype Header = Header(totalLen: Word32, requestId: Word32, sender: Word16, kind: Byte, status: Byte, func: Byte)

  /** The bytes of a packed message. The node id is copied in host order, which is little-endian here; type and
      status are 4-bit fields. */
  function Packed(node: Word16, requestId: Word32, kind: Byte, status: Byte, func: Byte,
            payload: seq<Byte>): (b: seq<Byte>)
    ensures |b| == HEADER_SIZE + |payload|
  {
    BigEndian((HEADER_SIZE + |payload|) % TWO_TO_THE_32, 4) + BigEndian(requestId, 4)
    + [node % 256, node / 256, kind % 16 * 16 + status % 16, func] + payload
  }

  /** rpc_unpack_header: None when the length is below that of a header. */
  function Unpacked(b: seq<Byte>): (h: Option<Header>)
    requires |b| >= HEADER_SIZE
    ensures h.Some? <==> Read32(b, 0) >= HEADER_SIZE
  {
    var total := Read32(b, 0);
    if total < HEADER_SIZE then None
    else Some(Header(total, Read32(b, 4), Low(b[8], b[9]), b[10] / 16, b[10] % 16, b[11]))
  }

  function Low(low: Byte, high: Byte): Word16 {
    (low as int) + 256 * high
  }

  lemma PackedWords(node: Word16, requestId: Word32, kind: Byte, status: Byte, func: Byte, payload: seq<Byte>)
    ensures var b := Packed(node, requestId, kind, status, func, payload);
            && Read32(b, 0) == (HEADER_SIZE + |payload|) % TWO_TO_THE_32 && Read32(b, 4) == requestId
            && b[8..12] == [node % 256, node / 256, kind % 16 * 16 + status % 16, func]
            && b[HEADER_SIZE..] == payload
  {
    hide BigEndian, Value;
    var b := Packed(node, requestId, kind, status, func, payload);
    WordSizes();
    ValueOfBigEndian((HEADER_SIZE + |payload|) % TWO_TO_THE_32, 4);
    ValueOfBigEndian(requestId, 4);
    assert b[0..4] == BigEndian((HEADER_SIZE + |payload|) % TWO_TO_THE_32, 4);
    assert b[4..8] == BigEndian(requestId, 4);
  }

  /** Unpacking a packed message restores every field, except that type and status lose their high
      four bits: the status RPC_STATUS_UNKNOWN (0xFF) arrives as 0x0F. */
  lemma RoundTrip(node: Word16, requestId: Word32, kind: Byte, status: Byte, func: Byte, payload: seq<Byte>)
    requires HEADER_SIZE + |payload| < TWO_TO_THE_32
    ensures var b := Packed(node, requestId, kind, status, func, payload);
            && Unpacked(b) == Some(Header(|b|, requestId, node, kind % 16, status % 16, func))
            && b[HEADER_SIZE..] == payload
  {
    hide Packed;
    var b := Packed(node, requestId, kind, status, func, payload);
    PackedWords(node, requestId, kind, status, func, payload);
    var tail := b[8..12];
    assert b[8] == tail[0] && b[9] == tail[1] && b[10] == tail[2] && b[11] == tail[3];
  }

  /** The buffer must have room for the frame: the routine itself does not check. */
  method Pack(buffer: array<Byte>, node: Word16, requestId: Word32, kind: Byte, status: Byte, func: Byte,
              payload: seq<Byte>)
    returns (n: Word32)
    requires HEADER_SIZE + |payload| <= buffer.Length && HEADER_SIZE + |payload| < TWO_TO_THE_32
    modifies buffer
    ensures n == HEADER_SIZE + |payload|
    ensures buffer[..n] == Packed(node, requestId, kind, status, func, payload)
    ensures forall i | n <= i < buffer.Length :: buffer[i] == old(buffer[i])
  {
    hide BigEndian;
    var total := HEADER_SIZE + |payload|;
    var at := Put(buffer, 0, BigEndian(total, 4));
    at := Put(buffer, at, BigEndian(requestId, 4));
    ghost var front := BigEndian(total, 4) + BigEndian(requestId, 4);
    assert buffer[..at] == front;
    at := Put(buffer, at, [node % 256, node / 256]);
    at := Put(buffer, at, [kind % 16 * 16 + status % 16]);
    at := Put(buffer, at, [func]);
    assert buffer[..at] == front + [node % 256, node / 256, kind % 16 * 16 + status % 16, func];
    at := Put(buffer, at, payload);
    n := total;
  }
}
