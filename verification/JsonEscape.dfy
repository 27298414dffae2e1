// The bounded JSON string escaper of the logger. Escapes are those of section 7 of RFC 8259.

module JsonEscape {
  import opened Bytes

  const QUOTE: Byte := 34
  const BACKSLASH: Byte := 92
  const NEWLINE: Byte := 10
  const RETURN: Byte := 13
  const TAB: Byte := 9

  /** The characters that need an escape. */
  predicate Special(c: Byte) {
    c == QUOTE || c == BACKSLASH || c == NEWLINE || c == RETURN || c == TAB
  }

  /** The other characters that are passed on: printable ASCII. */
  predicate Plain(c: Byte) {
    32 <= c <= 126 && !Special(c)
  }

  /** The letter behind the backslash. */
  function Letter(c: Byte): Byte {
    if c == NEWLINE then 110 else if c == RETURN then 114 else if c == TAB then 116 else c
  }

  /** What one character becomes when there is room for it. */
  function Escape(c: Byte): seq<Byte> {
    if Special(c) then [BACKSLASH, Letter(c)] else if Plain(c) then [c] else []
  }

  /** The five escapes are those of the JSON grammar. */
  lemma EscapesAreJson(c: Byte)
    ensures Escape(QUOTE) == [92, 34] && Escape(BACKSLASH) == [92, 92]
    ensures Escape(NEWLINE) == [92, 110] && Escape(RETURN) == [92, 114] && Escape(TAB) == [92, 116]
    ensures c !in {QUOTE, BACKSLASH, NEWLINE, RETURN, TAB} ==> Escape(c) == if 32 <= c <= 126 then [c] else []
  {
  }

  function EscapeAll(input: seq<Byte>): seq<Byte> {
    if |input| == 0 then [] else Escape(input[0]) + EscapeAll(input[1..])
  }

  /** The input restricted to the characters that JSON logging passes on. */
  function Filter(input: seq<Byte>): seq<Byte> {
    if |input| == 0 then []
    else (if Special(input[0]) || Plain(input[0]) then [input[0]] else []) + Filter(input[1..])
  }

  /** Reads a JSON string body back; None for a bare quote, a bare control character or a bad escape. */
  function Unescape(s: seq<Byte>): (r: (bool, seq<Byte>)) {
    if |s| == 0 then (true, [])
    else if s[0] == BACKSLASH then
      if |s| < 2 || !(s[1] in {QUOTE, BACKSLASH, 47, 98, 102, 110, 114, 116}) then (false, [])
      else
        var (ok, rest) := Unescape(s[2..]);
        (ok, [Meaning(s[1])] + rest)
    else if s[0] == QUOTE || s[0] < 32 then (false, [])
    else
      var (ok, rest) := Unescape(s[1..]);
      (ok, [s[0]] + rest)
  }

  function Meaning(letter: Byte): Byte {
    if letter == 110 then NEWLINE else if letter == 114 then RETURN else if letter == 116 then TAB
    else if letter == 98 then 8 else if letter == 102 then 12 else letter
  }

  // ---------------------------------------------------------------------------
  // A bounded output
  // ---------------------------------------------------------------------------

  /** What is written when `room` characters fit: an escape that does not fit is left out, but the scan
      goes on and a later plain character may still be written. */
  function Bounded(input: seq<Byte>, room: nat): (out: seq<Byte>)
    ensures |out| <= room
  {
    if |input| == 0 || room == 0 then []
    else if |Escape(input[0])| <= room then Escape(input[0]) + Bounded(input[1..], room - |Escape(input[0])|)
    else Bounded(input[1..], room)
  }

  /** The input characters behind that output. */
  function Kept(input: seq<Byte>, room: nat): seq<Byte> {
    if |input| == 0 || room == 0 then []
    else if |Escape(input[0])| > room then Kept(input[1..], room)
    else if Escape(input[0]) == [] then Kept(input[1..], room)
    else [input[0]] + Kept(input[1..], room - |Escape(input[0])|)
  }

  lemma OneUnescaped(c: Byte, tail: seq<Byte>)
    ensures Unescape(Escape(c) + tail) ==
            (Unescape(tail).0, (if Special(c) || Plain(c) then [c] else []) + Unescape(tail).1)
  {
    var s := Escape(c) + tail;
    if Special(c) {
      assert s[2..] == tail;
    } else if Plain(c) {
      assert s[1..] == tail;
    } else {
      assert s == tail;
      assert [] + Unescape(tail).1 == Unescape(tail).1;
    }
  }

  lemma EscapeOf(c: Byte)
    ensures Escape(c) == [] <==> !(Special(c) || Plain(c))
  {
  }

  /** At any size the output is a valid JSON string body: no quote, backslash or control character is
      left unescaped, and no escape is cut in two. */
  lemma {:induction false} OutputIsWellEscaped(input: seq<Byte>, room: nat)
    ensures Unescape(Bounded(input, room)) == (true, Kept(input, room))
  {
    if |input| > 0 && room > 0 {
      hide Unescape, Escape, Special, Plain;
      var e := Escape(input[0]);
      EscapeOf(input[0]);
      if |e| <= room {
        OutputIsWellEscaped(input[1..], room - |e|);
        OneUnescaped(input[0], Bounded(input[1..], room - |e|));
        assert [] + Kept(input[1..], room) == Kept(input[1..], room);
      } else {
        OutputIsWellEscaped(input[1..], room);
      }
    }
  }

  lemma {:induction false} EscapedSize(input: seq<Byte>)
    ensures |EscapeAll(input)| <= 2 * |input|
  {
    if |input| > 0 {
      EscapedSize(input[1..]);
    }
  }

  lemma {:induction false} CompleteWhenItFits(input: seq<Byte>, room: nat)
    requires |EscapeAll(input)| <= room
    ensures Bounded(input, room) == EscapeAll(input)
    ensures Kept(input, room) == Filter(input)
  {
    if |input| > 0 {
      if room > 0 {
        CompleteWhenItFits(input[1..], room - |Escape(input[0])|);
        assert [] + Filter(input[1..]) == Filter(input[1..]);
        assert [] + EscapeAll(input[1..]) == EscapeAll(input[1..]);
      } else {
        CompleteWhenItFits(input[1..], 0);
      }
    }
  }

  /** Nothing is lost exactly when the complete escaped text fits. */
  lemma {:induction false} CompleteIff(input: seq<Byte>, room: nat)
    ensures Bounded(input, room) == EscapeAll(input) <==> |EscapeAll(input)| <= room
    ensures |EscapeAll(input)| <= room ==> Kept(input, room) == Filter(input)
  {
    if |EscapeAll(input)| <= room {
      CompleteWhenItFits(input, room);
    }
  }

  /** An escape is left out with one character of room remaining, and a plain character follows. */
  ghost predicate Gap(input: seq<Byte>, room: nat) {
    exists i, j :: 0 <= i < j < |input| && LeavesOut(input, room, i) && Plain(input[j])
  }

  ghost predicate LeavesOut(input: seq<Byte>, room: nat, i: nat)
    requires i < |input|
  {
    |EscapeAll(input[..i])| + 1 == room && Special(input[i])
  }

  lemma {:induction false} GapStep(input: seq<Byte>, room: nat)
    requires |input| > 0 && |Escape(input[0])| < room
    ensures Gap(input, room) <==> Gap(input[1..], room - |Escape(input[0])|)
  {
    var tail, less := input[1..], room - |Escape(input[0])|;
    forall i | 0 < i < |input|
      ensures LeavesOut(input, room, i) <==> LeavesOut(tail, less, i - 1)
    {
      assert input[..i][1..] == tail[..i - 1];
    }
    if Gap(input, room) {
      var i, j :| 0 <= i < j < |input| && LeavesOut(input, room, i) && Plain(input[j]);
      assert input[..0] == [];
      assert LeavesOut(tail, less, i - 1) && Plain(tail[j - 1]);
    }
    if Gap(tail, less) {
      var i, j :| 0 <= i < j < |tail| && LeavesOut(tail, less, i) && Plain(tail[j]);
      assert LeavesOut(input, room, i + 1) && Plain(input[j + 1]);
    }
  }

  lemma {:induction false} OneLeft(input: seq<Byte>)
    ensures Kept(input, 1) == [] <==> forall j | 0 <= j < |input| :: !Plain(input[j])
    ensures Kept(input, 1) != [] ==> Plain(Kept(input, 1)[0])
  {
    if |input| > 0 {
      OneLeft(input[1..]);
      assert forall j | 0 < j < |input| :: input[j] == input[1..][j - 1];
    }
  }

  /** Once the first character takes all the room that is left, nothing is left out behind it. */
  lemma NoGapWhenFilled(input: seq<Byte>, room: nat)
    requires |input| > 0 && |Escape(input[0])| == room > 0
    ensures !Gap(input, room)
  {
    forall i | 0 <= i < |input|
      ensures !LeavesOut(input, room, i)
    {
      if i > 0 {
        assert input[..i][0] == input[0];
      }
    }
  }

  lemma GapAtOnce(input: seq<Byte>)
    requires |input| > 0 && Special(input[0])
    ensures Gap(input, 1) <==> exists j :: 0 < j < |input| && Plain(input[j])
  {
    assert input[..0] == [];
    assert LeavesOut(input, 1, 0);
    forall i | 0 < i < |input|
      ensures !LeavesOut(input, 1, i)
    {
      assert input[..i][0] == input[0];
    }
  }

  lemma PrefixStep(input: seq<Byte>, room: nat)
    requires |input| > 0 && |Escape(input[0])| <= room && room > 0
    ensures Kept(input, room) <= Filter(input)
       <==> Kept(input[1..], room - |Escape(input[0])|) <= Filter(input[1..])
  {
    var k, f := Kept(input[1..], room - |Escape(input[0])|), Filter(input[1..]);
    if Escape(input[0]) == [] {
      assert [] + f == f;
    } else {
      PrefixOfCons(input[0], k, f);
    }
  }

  /** With one character of room, a leading special character is left out, and the first plain one
      behind it takes its place. */
  lemma PrefixAtOnce(input: seq<Byte>)
    requires |input| > 0 && Special(input[0])
    ensures Kept(input, 1) <= Filter(input) <==> !exists j :: 0 < j < |input| && Plain(input[j])
  {
    OneLeft(input[1..]);
    assert Filter(input)[0] == input[0];
    assert forall j | 0 < j < |input| :: input[j] == input[1..][j - 1];
    assert Kept(input, 1) == Kept(input[1..], 1);
  }

  /** The reader sees a prefix of the passed-on characters exactly when there is no gap. */
  lemma {:induction false} PrefixIff(input: seq<Byte>, room: nat)
    ensures Kept(input, room) <= Filter(input) <==> !Gap(input, room)
  {
    if |input| == 0 || room == 0 {
      NoGapWithoutRoom(input, room);
    } else if |Escape(input[0])| > room {
      PrefixAtOnce(input);
      GapAtOnce(input);
    } else {
      hide Gap, Filter;
      PrefixStep(input, room);
      PrefixIff(input[1..], room - |Escape(input[0])|);
      if |Escape(input[0])| < room {
        GapStep(input, room);
      } else {
        NoGapWhenFilled(input, room);
        NoGapWithoutRoom(input[1..], 0);
      }
    }
  }

  lemma NoGapWithoutRoom(input: seq<Byte>, room: nat)
    requires |input| == 0 || room == 0
    ensures !Gap(input, room)
  {
  }

  lemma PrefixOfCons(c: Byte, s: seq<Byte>, t: seq<Byte>)
    ensures [c] + s <= [c] + t <==> s <= t
  {
    assert ([c] + s)[1..] == s && ([c] + t)[1..] == t;
  }

  // ---------------------------------------------------------------------------
  // The routine and its caller
  // ---------------------------------------------------------------------------

  const MESSAGE_SIZE: nat := 1024
  const ESCAPED_SIZE: nat := 2048

  /** What the routine leaves in an output of this size, without the terminating NUL. */
  function Written(input: seq<Byte>, size: nat): seq<Byte>
    requires size >= 2
  {
    Bounded(input, size - 2)
  }

  lemma NothingBounded(rest: seq<Byte>, room: nat)
    requires |rest| == 0 || room == 0
    ensures Bounded(rest, room) == []
  {
  }

  /** What has been put out, with what the rest of the input will add, is the result. */
  ghost predicate OnTrack(done: seq<Byte>, input: seq<Byte>, i: nat, room: nat, result: seq<Byte>) {
    i <= |input| && done + Bounded(input[i..], room) == result
  }

  lemma StartsOnTrack(input: seq<Byte>, room: nat)
    ensures OnTrack([], input, 0, room, Bounded(input, room))
  {
    assert input[0..] == input;
  }

  lemma EndsOnTrack(done: seq<Byte>, input: seq<Byte>, i: nat, room: nat, result: seq<Byte>)
    requires OnTrack(done, input, i, room, result) && (i == |input| || room == 0)
    ensures done == result
  {
    NothingBounded(input[i..], room);
    assert done + [] == done;
  }

  lemma StaysOnTrack(done: seq<Byte>, input: seq<Byte>, i: nat, room: nat, result: seq<Byte>)
    requires OnTrack(done, input, i, room, result) && i < |input| && room > 0
    ensures var e := Escape(input[i]);
            && (|e| <= room ==> OnTrack(done + e, input, i + 1, room - |e|, result))
            && (e == [] || |e| > room ==> OnTrack(done, input, i + 1, room, result))
  {
    var e := Escape(input[i]);
    assert input[i..][1..] == input[i + 1..];
    if |e| <= room {
      assert done + (e + Bounded(input[i + 1..], room - |e|)) == done + e + Bounded(input[i + 1..], room - |e|);
    }
    assert [] + Bounded(input[i + 1..], room) == Bounded(input[i + 1..], room);
  }

  /** input is the C string; reading its end is reading NUL. The output needs room for two characters: the
      size comparisons are unsigned. */
  method EscapeString(input: seq<Byte>, output: array<Byte>) returns (n: nat)
    requires NulFree(input) && output.Length >= 2
    modifies output
    ensures n == |Written(input, output.Length)| < output.Length - 1
    ensures output[..n] == Written(input, output.Length) && output[n] == 0
  {
    hide Bounded, OnTrack;
    var outputSize := output.Length;
    var inPos, outPos := 0, 0;
    StartsOnTrack(input, outputSize - 2);
    assert output[..0] == [];
    while inPos < |input| && outPos < outputSize - 2
      invariant inPos <= |input| && outPos <= outputSize - 2
      invariant OnTrack(output[..outPos], input, inPos, outputSize - 2 - outPos, Written(input, outputSize))
      decreases |input| - inPos
    {
      var c := input[inPos];
      ghost var before := output[..outPos];
      StaysOnTrack(before, input, inPos, outputSize - 2 - outPos, Written(input, outputSize));
      if Special(c) {
        if outPos < outputSize - 3 {
          output[outPos] := BACKSLASH;
          output[outPos + 1] := Letter(c);
          outPos := outPos + 2;
          assert output[..outPos] == before + Escape(c);
        }
      } else if 32 <= c <= 126 {
        output[outPos] := c;
        outPos := outPos + 1;
        assert output[..outPos] == before + Escape(c);
      }
      inPos := inPos + 1;
    }
    EndsOnTrack(output[..outPos], input, inPos, outputSize - 2 - outPos, Written(input, outputSize));
    output[outPos] := 0;
    n := outPos;
  }

  /** At the logger's buffer sizes every message survives: the reader gets exactly its printable
      characters, newlines, carriage returns and tabs. */
  lemma LoggedMessagesSurvive(message: seq<Byte>)
    requires |message| < MESSAGE_SIZE
    ensures Unescape(Written(message, ESCAPED_SIZE)) == (true, Filter(message))
  {
    EscapedSize(message);
    CompleteIff(message, ESCAPED_SIZE - 2);
    OutputIsWellEscaped(message, ESCAPED_SIZE - 2);
  }

  /** At other sizes the reader gets a prefix of those characters exactly when no escape is left out with a
      plain character behind it: truncation can lose a character from the middle. */
  lemma ReaderSeesPrefixIff(message: seq<Byte>, size: nat)
    requires size >= 2
    ensures Unescape(Written(message, size)).0
    ensures Unescape(Written(message, size)).1 <= Filter(message) <==> !Gap(message, size - 2)
  {
    OutputIsWellEscaped(message, size - 2);
    PrefixIff(message, size - 2);
  }
}
