// The router list of a JOIN_RESPONSE: printed, serialized, cut to any size, decoded and parsed.

module Bootstrap {
  import opened Bytes
  import opened AddressText

  const ROUTER_SIZE: nat := 130
  const FIELD_SIZE: nat := 64
  const MAX_ROUTERS: nat := 16

  /** One entry of gossip_bootstrap_response_t; both addresses are C strings. */
  datatype Router = Router(id: Word16, gossip: seq<Byte>, data: seq<Byte>)

  // ---------------------------------------------------------------------------
  // The format
  // ---------------------------------------------------------------------------

  function EncodeRouter(r: Router): (bs: seq<Byte>)
    ensures |bs| == ROUTER_SIZE
  {
    BigEndian(r.id, 2) + Field(r.gossip, FIELD_SIZE) + Field(r.data, FIELD_SIZE)
  }

  function EncodeRouters(rs: seq<Router>): (bs: seq<Byte>)
    ensures |bs| == ROUTER_SIZE * |rs|
  {
    if |rs| == 0 then [] else EncodeRouters(rs[..|rs| - 1]) + EncodeRouter(rs[|rs| - 1])
  }

  /** How many of n routers fit behind the count byte. */
  function Fitting(n: nat, size: nat): (k: nat)
    requires size >= 1
    ensures k <= n && 1 + ROUTER_SIZE * k <= size
    ensures k < n ==> 1 + ROUTER_SIZE * (k + 1) > size
  {
    if n < (size - 1) / ROUTER_SIZE then n else (size - 1) / ROUTER_SIZE
  }

  function Response(rs: seq<Router>, size: nat): (bs: seq<Byte>)
    requires size >= 1 && |rs| <= MAX_ROUTERS
    ensures 1 <= |bs| <= size
  {
    var k := Fitting(|rs|, size);
    [k] + EncodeRouters(rs[..k])
  }

  // ---------------------------------------------------------------------------
  // Reading
  // ---------------------------------------------------------------------------

  /** strncpy of at most 255 bytes. */
  function ReadText(b: seq<Byte>, at: nat): seq<Byte>
    requires at <= |b|
  {
    Truncated(CString(b[at..]), MAX_CONFIG_STRING)
  }

  function ReadRouter(b: seq<Byte>, at: nat): Router
    requires at + ROUTER_SIZE <= |b|
  {
    Router(Read16(b, at), ReadText(b, at + 2), ReadText(b, at + 2 + FIELD_SIZE))
  }

  function ReadRouters(b: seq<Byte>, n: nat): (rs: seq<Router>)
    requires 1 + ROUTER_SIZE * n <= |b|
    ensures |rs| == n
  {
    seq(n, i requires 0 <= i < n => ReadRouter(b, 1 + ROUTER_SIZE * i))
  }

  function Decode(b: seq<Byte>): seq<Router>
    requires |b| >= 1
  {
    ReadRouters(b, Fitting(if b[0] < MAX_ROUTERS then b[0] else MAX_ROUTERS, |b|))
  }

  // ---------------------------------------------------------------------------
  // Round trip
  // ---------------------------------------------------------------------------

  ghost predicate Text(s: seq<Byte>) {
    NulFree(s) && |s| < FIELD_SIZE
  }

  lemma TextRead(b: seq<Byte>, at: nat, text: seq<Byte>)
    requires Text(text) && at + FIELD_SIZE <= |b| && b[at..at + FIELD_SIZE] == Field(text, FIELD_SIZE)
    ensures ReadText(b, at) == text
  {
    hide CString, Field;
    FieldRead(text, FIELD_SIZE, b[at + FIELD_SIZE..]);
    assert b[at..] == b[at..at + FIELD_SIZE] + b[at + FIELD_SIZE..];
  }

  lemma RouterLayout(r: Router)
    ensures var e := EncodeRouter(r);
            && e[..2] == BigEndian(r.id, 2)
            && e[2..66] == Field(r.gossip, FIELD_SIZE) && e[66..130] == Field(r.data, FIELD_SIZE)
  {
    hide BigEndian, Field;
  }

  lemma RouterRead(b: seq<Byte>, at: nat, r: Router)
    requires Text(r.gossip) && Text(r.data)
    requires at + ROUTER_SIZE <= |b| && b[at..at + ROUTER_SIZE] == EncodeRouter(r)
    ensures ReadRouter(b, at) == r
  {
    hide BigEndian, Field, ReadText, Text;
    RouterLayout(r);
    assert b[at..at + 2] == b[at..at + ROUTER_SIZE][..2];
    assert b[at + 2..at + 66] == b[at..at + ROUTER_SIZE][2..66];
    assert b[at + 66..at + 130] == b[at..at + ROUTER_SIZE][66..130];
    WordSizes();
    ValueOfBigEndian(r.id, 2);
    TextRead(b, at + 2, r.gossip);
    TextRead(b, at + 66, r.data);
  }

  lemma {:induction false} RouterAt(rs: seq<Router>, i: nat)
    requires i < |rs|
    ensures EncodeRouters(rs)[ROUTER_SIZE * i..ROUTER_SIZE * i + ROUTER_SIZE] == EncodeRouter(rs[i])
  {
    hide EncodeRouter;
    if i < |rs| - 1 {
      RouterAt(rs[..|rs| - 1], i);
    }
  }

  /** Whatever the size of the buffer, and whatever follows, decoding gives the routers that fitted. */
  lemma ResponseDecodes(rs: seq<Router>, size: nat)
    requires size >= 1 && |rs| <= MAX_ROUTERS
    requires forall i | 0 <= i < |rs| :: Text(rs[i].gossip) && Text(rs[i].data)
    ensures Decode(Response(rs, size)) == rs[..Fitting(|rs|, size)]
  {
    hide EncodeRouter, EncodeRouters, ReadRouter, Text;
    var k, b := Fitting(|rs|, size), Response(rs, size);
    forall i | 0 <= i < k
      ensures ReadRouter(b, 1 + ROUTER_SIZE * i) == rs[i]
    {
      var at := 1 + ROUTER_SIZE * i;
      RouterAt(rs[..k], i);
      assert b[at..at + ROUTER_SIZE] == EncodeRouters(rs[..k])[ROUTER_SIZE * i..ROUTER_SIZE * i + ROUTER_SIZE];
      RouterRead(b, at, rs[i]);
    }
    assert ReadRouters(b, k) == rs[..k];
  }

  // ---------------------------------------------------------------------------
  // The two routines
  // ---------------------------------------------------------------------------

  method WriteRouter(buffer: array<Byte>, at: nat, r: Router) returns (next: nat)
    requires at + ROUTER_SIZE <= buffer.Length
    modifies buffer
    ensures next == at + ROUTER_SIZE
    ensures buffer[..next] == old(buffer[..at]) + EncodeRouter(r)
    ensures forall i | next <= i < buffer.Length :: buffer[i] == old(buffer[i])
  {
    hide BigEndian, Field;
    next := Put(buffer, at, BigEndian(r.id, 2));
    next := Put(buffer, next, Field(r.gossip, FIELD_SIZE));
    next := Put(buffer, next, Field(r.data, FIELD_SIZE));
    assert buffer[..next] == old(buffer[..at]) + (BigEndian(r.id, 2) + Field(r.gossip, FIELD_SIZE)
              + Field(r.data, FIELD_SIZE));
  }

  method Serialize(rs: seq<Router>, buffer: array<Byte>) returns (n: int)
    requires |rs| <= MAX_ROUTERS
    modifies buffer
    ensures buffer.Length == 0 ==> n == -1
    ensures buffer.Length >= 1 ==> n == |Response(rs, buffer.Length)| && buffer[..n] == Response(rs, buffer.Length)
    ensures forall i | 0 <= n <= i < buffer.Length :: buffer[i] == old(buffer[i])
  {
    hide EncodeRouter;
    if buffer.Length < 1 {
      return -1;
    }
    buffer[0] := |rs|;
    var offset := 1;
    for i := 0 to |rs|
      invariant offset == 1 + ROUTER_SIZE * i <= buffer.Length
      invariant buffer[..offset] == [|rs|] + EncodeRouters(rs[..i])
      invariant forall j | offset <= j < buffer.Length :: buffer[j] == old(buffer[j])
    {
      if offset + ROUTER_SIZE > buffer.Length {
        buffer[0] := i;
        assert buffer[..offset] == [i] + EncodeRouters(rs[..i]);
        return offset;
      }
      assert rs[..i + 1][..i] == rs[..i];
      offset := WriteRouter(buffer, offset, rs[i]);
    }
    n := offset;
  }

  /** num is the num_routers field the response is left with. */
  method Deserialize(buffer: array<Byte>, from: nat, len: nat) returns (ok: bool, rs: seq<Router>, num: Byte)
    requires from + len <= buffer.Length
    ensures ok <==> len >= 1
    ensures ok ==> rs == Decode(buffer[from..from + len])
    ensures ok ==> num == if buffer[from] > MAX_ROUTERS && |rs| == MAX_ROUTERS then buffer[from] else |rs|
  {
    hide ReadRouter;
    rs, num := [], 0;
    if len < 1 {
      return false, rs, num;
    }
    var b := buffer[from..from + len];
    num := b[0];
    var offset, i := 1, 0;
    while i < num && i < MAX_ROUTERS
      invariant i <= MAX_ROUTERS && i <= num == b[0]
      invariant offset == 1 + ROUTER_SIZE * i <= len
      invariant rs == ReadRouters(b, i)
    {
      if offset + ROUTER_SIZE > len {
        num := i;
        break;
      }
      rs := rs + [ReadRouter(b, offset)];
      offset := offset + ROUTER_SIZE;
      i := i + 1;
    }
    ok := true;
  }
}
