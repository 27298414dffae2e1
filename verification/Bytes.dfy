// Bytes, machine words, C strings and network byte order.

module Bytes {

  const TWO_TO_THE_32: nat := 0x1_0000_0000
  const TWO_TO_THE_64: nat := 0x1_0000_0000_0000_0000

  type Byte = x: int | 0 <= x < 256
  type Word16 = x: int | 0 <= x < 0x1_0000
  type Word32 = x: int | 0 <= x < 0x1_0000_0000
  type Word64 = x: int | 0 <= x < 0x1_0000_0000_0000_0000

  /** The content of a NUL-terminated C string: every byte before the terminator. */
  ghost predicate NulFree(s: seq<Byte>) {
    forall i | 0 <= i < |s| :: s[i] != 0
  }

  function Pow256(n: nat): (p: nat)
    ensures p > 0
  {
    if n == 0 then 1 else 256 * Pow256(n - 1)
  }

  /** The low n bytes of v, most significant first: htons, htonl and htobe64. */
  function BigEndian(v: nat, n: nat): (bs: seq<Byte>)
    ensures |bs| == n
  {
    if n == 0 then [] else BigEndian(v / 256, n - 1) + [v % 256]
  }

  /** The number that a big-endian byte string denotes: ntohs, ntohl and be64toh. */
  function Value(bs: seq<Byte>): (v: nat)
  {
    if |bs| == 0 then 0 else Value(bs[..|bs| - 1]) * 256 + bs[|bs| - 1]
  }

  /** Network byte order: the first byte is the most significant. */
  lemma {:induction false} MostSignificantFirst(bs: seq<Byte>)
    requires |bs| > 0
    ensures Value(bs) == bs[0] * Pow256(|bs| - 1) + Value(bs[1..])
  {
    var n := |bs| - 1;
    if n == 0 {
      assert bs[..0] == [] && bs[1..] == [];
    } else {
      MostSignificantFirst(bs[..n]);
      assert bs[..n][1..] == bs[1..][..n - 1];
    }
  }

  lemma {:induction false} ValueOfBigEndian(v: nat, n: nat)
    requires v < Pow256(n)
    ensures Value(BigEndian(v, n)) == v
  {
    if n > 0 {
      ValueOfBigEndian(v / 256, n - 1);
      assert BigEndian(v, n)[..n - 1] == BigEndian(v / 256, n - 1);
    }
  }

  lemma {:induction false} BigEndianOfValue(bs: seq<Byte>)
    ensures Value(bs) < Pow256(|bs|)
    ensures BigEndian(Value(bs), |bs|) == bs
  {
    if |bs| > 0 {
      BigEndianOfValue(bs[..|bs| - 1]);
    }
  }

  /** The sizes of the machine words. */
  lemma WordSizes()
    ensures Pow256(2) == 0x1_0000
    ensures Pow256(4) == TWO_TO_THE_32
    ensures Pow256(8) == TWO_TO_THE_64
  {
    assert Pow256(1) == 0x100;
    assert Pow256(2) == 0x1_0000;
    assert Pow256(3) == 0x100_0000;
    assert Pow256(4) == 0x1_0000_0000;
    assert Pow256(5) == 0x100_0000_0000;
    assert Pow256(6) == 0x1_0000_0000_0000;
    assert Pow256(7) == 0x100_0000_0000_0000;
  }

  function Read16(b: seq<Byte>, at: nat): (v: Word16)
    requires at + 2 <= |b|
    ensures v == Value(b[at..at + 2])
  {
    BigEndianOfValue(b[at..at + 2]);
    WordSizes();
    Value(b[at..at + 2])
  }

  function Read32(b: seq<Byte>, at: nat): (v: Word32)
    requires at + 4 <= |b|
    ensures v == Value(b[at..at + 4])
  {
    BigEndianOfValue(b[at..at + 4]);
    WordSizes();
    Value(b[at..at + 4])
  }

  function Read64(b: seq<Byte>, at: nat): (v: Word64)
    requires at + 8 <= |b|
    ensures v == Value(b[at..at + 8])
  {
    BigEndianOfValue(b[at..at + 8]);
    WordSizes();
    Value(b[at..at + 8])
  }

  /** strlen, strcpy and the string conversions all stop at the first NUL. */
  function CString(s: seq<Byte>): (r: seq<Byte>)
    ensures r <= s
    ensures NulFree(r)
    ensures |r| < |s| ==> s[|r|] == 0
  {
    if |s| == 0 || s[0] == 0 then [] else [s[0]] + CString(s[1..])
  }

  lemma {:induction false} CStringOfPadded(s: seq<Byte>, pad: seq<Byte>)
    requires NulFree(s)
    requires |pad| > 0 ==> pad[0] == 0
    ensures CString(s + pad) == s
  {
    if |s| > 0 {
      CStringOfPadded(s[1..], pad);
      assert (s + pad)[1..] == s[1..] + pad;
    } else {
      assert s + pad == pad;
    }
  }

  function Zeros(n: nat): (r: seq<Byte>)
    ensures |r| == n
    ensures forall i | 0 <= i < n :: r[i] == 0
  {
    seq(n, _ => 0)
  }

  /** safe_strncpy(dst, src, size): at most size - 1 bytes of src reach dst. */
  function Truncated(s: seq<Byte>, size: nat): (r: seq<Byte>)
    requires size > 0
    ensures r <= s && |r| < size
    ensures |s| < size ==> r == s
  {
    if |s| < size then s else s[..size - 1]
  }

  /** memset(dst, 0, size) and strncpy(dst, src, size - 1): a fixed field that always ends in NUL. */
  function Field(text: seq<Byte>, size: nat): (bs: seq<Byte>)
    requires size > 0
    ensures |bs| == size
  {
    var s := Truncated(CString(text), size);
    s + Zeros(size - |s|)
  }

  /** A field is read back as the text it was filled with, whatever follows it. */
  lemma FieldRead(text: seq<Byte>, size: nat, rest: seq<Byte>)
    requires NulFree(text) && |text| < size
    ensures CString(Field(text, size) + rest) == text
    ensures CString(Field(text, size)[..size - 1]) == text
  {
    CStringOfPadded(text, []);
    assert text + [] == text;
    CStringOfPadded(text, Zeros(size - |text|) + rest);
    assert Field(text, size) + rest == text + (Zeros(size - |text|) + rest);
    CStringOfPadded(text, Zeros(size - |text| - 1));
    assert Field(text, size)[..size - 1] == text + Zeros(size - |text| - 1);
  }

  /** memcpy(buffer + at, bs, |bs|): returns the offset after the copy. */
  method Put(buffer: array<Byte>, at: nat, bs: seq<Byte>) returns (next: nat)
    requires at + |bs| <= buffer.Length
    modifies buffer
    ensures next == at + |bs|
    ensures buffer[..next] == old(buffer[..at]) + bs
    ensures forall i | next <= i < buffer.Length :: buffer[i] == old(buffer[i])
  {
    forall i | 0 <= i < |bs| {
      buffer[at + i] := bs[i];
    }
    next := at + |bs|;
  }
}
