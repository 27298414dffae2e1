// "ip:port" strings: how snprintf prints them and how config_parse_address takes them apart.

module AddressText {
  import opened Bytes

  const COLON: Byte := 58
  const MAX_CONFIG_STRING: nat := 256
  const IP_SIZE: nat := 16

  /** The "%u" conversion. */
  function Decimal(n: nat): (s: seq<Byte>)
    ensures |s| > 0
    ensures forall i | 0 <= i < |s| :: Digit(s[i])
  {
    if n < 10 then [48 + n] else Decimal(n / 10) + [48 + n % 10]
  }

  predicate Digit(b: Byte) {
    48 <= b <= 57
  }

  predicate Space(b: Byte) {
    b == 32 || 9 <= b <= 13
  }

  function DigitsValue(s: seq<Byte>, acc: nat): nat {
    if |s| == 0 || !Digit(s[0]) then acc else DigitsValue(s[1..], 10 * acc + (s[0] - 48))
  }

  /** atoi without its overflow: leading white space, one sign, digits. */
  function Atoi(s: seq<Byte>): int {
    if |s| == 0 then 0
    else if Space(s[0]) then Atoi(s[1..])
    else if s[0] == 45 then 0 - DigitsValue(s[1..], 0) as int
    else if s[0] == 43 then DigitsValue(s[1..], 0)
    else DigitsValue(s, 0)
  }

  lemma {:induction false} DigitsOfDecimal(n: nat, rest: seq<Byte>)
    ensures DigitsValue(Decimal(n) + rest, 0) == DigitsValue(rest, n)
  {
    if n < 10 {
      assert (Decimal(n) + rest)[1..] == rest;
    } else {
      var last: seq<Byte> := [48 + n % 10];
      DigitsOfDecimal(n / 10, last + rest);
      assert Decimal(n) + rest == Decimal(n / 10) + (last + rest);
      assert (last + rest)[1..] == rest;
    }
  }

  /** Reading back a printed number gives the number. */
  lemma AtoiOfDecimal(n: nat)
    ensures Atoi(Decimal(n)) == n
  {
    DigitsOfDecimal(n, []);
    assert Decimal(n) + [] == Decimal(n);
  }

  lemma PortDigits(port: Word16)
    ensures |Decimal(port)| <= 5
  {
    assert Pow10(3) == 1000;
    assert Pow10(4) == 10000;
    DigitCount(port, 4);
  }

  lemma {:induction false} DigitCount(n: nat, k: nat)
    requires n < Pow10(k) * 10
    ensures |Decimal(n)| <= k + 1
  {
    if n >= 10 && k > 0 {
      DigitCount(n / 10, k - 1);
    }
  }

  function Pow10(k: nat): nat {
    if k == 0 then 1 else 10 * Pow10(k - 1)
  }

  function Printed(ip: seq<Byte>, port: Word16): seq<Byte> {
    ip + [COLON] + Decimal(port)
  }

  /** strchr: the first colon, or the length of the string. */
  function ColonAt(s: seq<Byte>): (i: nat)
    ensures i <= |s|
    ensures i < |s| ==> s[i] == COLON
    ensures forall k | 0 <= k < i :: s[k] != COLON
  {
    if |s| == 0 || s[0] == COLON then 0 else 1 + ColonAt(s[1..])
  }

  /** What config_parse_address stores for a C string. */
  function Parsed(addr: seq<Byte>): (r: (seq<Byte>, Word16)) {
    var text := Truncated(addr, MAX_CONFIG_STRING);
    var i := ColonAt(text);
    (Truncated(text[..i], IP_SIZE), if i < |text| then Atoi(text[i + 1..]) % 0x1_0000 else 0)
  }

  /** Both strings that a buffer holds after the first colon has been overwritten. */
  lemma CutStrings(text: seq<Byte>, pad: seq<Byte>, colon: nat)
    requires NulFree(text) && colon < |text| && |pad| > 0 && pad[0] == 0
    ensures var b := (text + pad)[colon := 0];
            CString(b) == text[..colon] && CString(b[colon + 1..]) == text[colon + 1..]
  {
    var b := (text + pad)[colon := 0];
    CStringOfPadded(text[..colon], b[colon..]);
    assert b == text[..colon] + b[colon..];
    CStringOfPadded(text[colon + 1..], pad);
    assert b[colon + 1..] == text[colon + 1..] + pad;
  }

  lemma ColonIs(text: seq<Byte>, pad: seq<Byte>, i: nat)
    requires NulFree(text) && i <= |text| && |pad| > 0 && pad[0] == 0
    requires forall k | 0 <= k < i :: text[k] != COLON
    requires (text + pad)[i] == 0 || (text + pad)[i] == COLON
    ensures ColonAt(text) == i && ((text + pad)[i] == COLON <==> i < |text|)
  {
  }

  /** strchr on a buffer that holds the text, a NUL and anything behind it. */
  method FindColon(buffer: array<Byte>, ghost text: seq<Byte>, ghost pad: seq<Byte>) returns (colon: nat)
    requires NulFree(text) && |pad| > 0 && pad[0] == 0 && buffer[..] == text + pad
    ensures colon == ColonAt(text) < buffer.Length
    ensures buffer[colon] == COLON <==> colon < |text|
  {
    hide ColonAt;
    colon := 0;
    assert forall k | 0 <= k <= |text| :: buffer[k] == (text + pad)[k];
    while buffer[colon] != 0 && buffer[colon] != COLON
      invariant colon <= |text|
      invariant forall k | 0 <= k < colon :: text[k] != COLON
      decreases |text| - colon
    {
      colon := colon + 1;
    }
    ColonIs(text, pad, colon);
  }

  /** The copy, the cut at the colon and the two conversions, in a local buffer. */
  method ParseAddress(addr: seq<Byte>) returns (ip: seq<Byte>, port: Word16)
    requires NulFree(addr)
    ensures (ip, port) == Parsed(addr)
  {
    hide CString, Atoi, ColonAt, Truncated;
    var text := Truncated(addr, MAX_CONFIG_STRING);
    var buffer := new Byte[MAX_CONFIG_STRING](_ => 0);
    var end := Put(buffer, 0, text);
    ghost var pad := buffer[end..];
    assert buffer[..] == buffer[..end] + pad;
    assert buffer[..end] == text;
    var colon := FindColon(buffer, text, pad);
    if buffer[colon] == COLON {
      buffer[colon] := 0;
      assert buffer[..] == (text + pad)[colon := 0];
      CutStrings(text, pad, colon);
      ip := Truncated(CString(buffer[..]), IP_SIZE);
      port := Atoi(CString(buffer[colon + 1..])) % 0x1_0000;
    } else {
      CStringOfPadded(text, pad);
      ip := Truncated(CString(buffer[..]), IP_SIZE);
      port := 0;
      assert text[..|text|] == text;
    }
  }

  /** Parsing what was printed gives the pair back exactly when the address part holds no colon. */
  lemma ParsedOfPrintedIff(ip: seq<Byte>, port: Word16)
    requires |ip| < IP_SIZE
    ensures Parsed(Printed(ip, port)) == (ip, port) <==> COLON !in ip
  {
    PortDigits(port);
    var text := Printed(ip, port);
    assert Truncated(text, MAX_CONFIG_STRING) == text;
    var i := ColonAt(text);
    assert text[|ip|] == COLON;
    if COLON !in ip {
      assert i == |ip|;
      assert text[..i] == ip && text[i + 1..] == Decimal(port);
      AtoiOfDecimal(port);
    } else {
      var k :| 0 <= k < |ip| && ip[k] == COLON;
      assert text[k] == COLON;
      assert |text[..i]| < |ip|;
    }
  }
}
