/**
 The yEnc article of one part: the body encoder with its running line length, the decoder of the
 yEnc 1.3 description, the header and trailer lines, and NNTP dot-stuffing around all of it.
 */
module YEnc {
  import opened Bytes

  const EQ: byte := 61
  const DOT: byte := 46
  const Y: byte := 121
  const LINE_WIDTH := 128

  // ------------------------------------------------------------- the encoder

  function Shifted(b: byte): byte {
    b + 42
  }

  /** Whether the shifted byte has to be written as an escape pair at this place in the line. */
  predicate NeedsEscape(val: byte, lineLen: nat) {
    val == 0 || val == LF || val == CR || val == EQ || (lineLen == 0 && val == DOT)
  }

  /** The one or two bytes written for b. */
  function Encoded(b: byte, lineLen: nat): (u: seq<byte>)
    ensures 1 <= |u| <= 2
  {
    var val := Shifted(b);
    if NeedsEscape(val, lineLen) then [EQ, val + 64] else [val]
  }

  /** The body still to be written for data when lineLen bytes are already on the line. */
  function Body(data: seq<byte>, lineLen: nat): seq<byte>
    decreases |data|
  {
    if data == [] then
      if lineLen > 0 then CRLF else []
    else
      var u := Encoded(data[0], lineLen);
      if lineLen + |u| >= LINE_WIDTH then u + CRLF + Body(data[1..], 0)
      else u + Body(data[1..], lineLen + |u|)
  }

  /** What one byte adds to the body, and what is left after it. */
  lemma BodyStep(data: seq<byte>, i: nat, lineLen: nat)
    requires i < |data|
    ensures var u := Encoded(data[i], lineLen);
            var full := lineLen + |u| >= LINE_WIDTH;
            Body(data[i..], lineLen)
            == (u + if full then CRLF else []) + Body(data[i + 1..], if full then 0 else lineLen + |u|)
  {
    hide Encoded;
    assert data[i..][0] == data[i] && data[i..][1..] == data[i + 1..];
    var u := Encoded(data[i], lineLen);
    assert u + [] == u;
  }

  lemma BodyEnd(lineLen: nat)
    ensures Body([], lineLen) == if lineLen > 0 then CRLF else []
  {
  }

  lemma EncodedIs(b: byte, lineLen: nat)
    ensures Encoded(b, lineLen)
         == if NeedsEscape(Shifted(b), lineLen) then [EQ] + [Shifted(b) + 64] else [Shifted(b)]
  {
  }

  function LineEnd(lineLen: nat): seq<byte> {
    if lineLen >= LINE_WIDTH then CRLF else []
  }

  function NextLineLen(lineLen: nat): nat {
    if lineLen >= LINE_WIDTH then 0 else lineLen
  }

  lemma BodyAppends(buf: seq<byte>, data: seq<byte>, i: nat, lineLen: nat)
    requires i < |data|
    ensures var u := Encoded(data[i], lineLen);
            buf + Body(data[i..], lineLen)
            == buf + u + LineEnd(lineLen + |u|) + Body(data[i + 1..], NextLineLen(lineLen + |u|))
  {
    hide Encoded, Body;
    BodyStep(data, i, lineLen);
    var u := Encoded(data[i], lineLen);
    var end, rest := LineEnd(lineLen + |u|), Body(data[i + 1..], NextLineLen(lineLen + |u|));
    assert buf + ((u + end) + rest) == buf + u + end + rest;
  }

  method EncodeBody(data: seq<byte>) returns (buf: seq<byte>)
    ensures buf == Body(data, 0)
  {
    hide Shifted, NeedsEscape, Body, Encoded;
    buf := [];
    var lineLen: nat := 0;
    var i := 0;
    assert data[0..] == data;
    while i < |data|
      invariant 0 <= i <= |data|
      invariant lineLen < LINE_WIDTH
      invariant buf + Body(data[i..], lineLen) == Body(data, 0)
    {
      BodyAppends(buf, data, i, lineLen);
      EncodedIs(data[i], lineLen);
      var val := Shifted(data[i]);
      if NeedsEscape(val, lineLen) {
        buf := buf + ([EQ] + [val + 64]);
        lineLen := lineLen + 2;
      } else {
        buf := buf + [val];
        lineLen := lineLen + 1;
      }
      if lineLen >= LINE_WIDTH {
        buf := buf + CRLF;
        lineLen := 0;
      } else {
        assert buf + [] == buf;
      }
      i := i + 1;
    }
    assert data[i..] == [];
    BodyEnd(lineLen);
    if lineLen > 0 {
      buf := buf + CRLF;
    }
  }

  // ------------------------------------------------------------- the decoder

  /** Drop line ends, undo the escapes, take 42 off every byte. */
  function Decoded(s: seq<byte>): seq<byte>
    decreases |s|
  {
    if s == [] then []
    else if s[0] == CR || s[0] == LF then Decoded(s[1..])
    else if s[0] == EQ && |s| > 1 then [s[1] - 106] + Decoded(s[2..])
    else [s[0] - 42] + Decoded(s[1..])
  }

  lemma EscapeFacts(b: byte, lineLen: nat)
    ensures (Shifted(b) + 64) - 106 == b
    ensures Shifted(b) - 42 == b
    ensures NeedsEscape(Shifted(b), lineLen) ==>
              EscapedByte(Shifted(b) + 64, lineLen == 0)
    ensures !NeedsEscape(Shifted(b), lineLen) ==>
              var v := Shifted(b); v != 0 && v != CR && v != LF && v != EQ && (lineLen == 0 ==> v != DOT)
  {
  }

  lemma DecodeUnit(b: byte, lineLen: nat, rest: seq<byte>)
    ensures Decoded(Encoded(b, lineLen) + rest) == [b] + Decoded(rest)
  {
    hide Shifted, NeedsEscape;
    EscapeFacts(b, lineLen);
    var s := Encoded(b, lineLen) + rest;
    if NeedsEscape(Shifted(b), lineLen) {
      assert s[0] == EQ && s[1] == Shifted(b) + 64 && s[2..] == rest;
    } else {
      assert s[0] == Shifted(b) && s[1..] == rest;
    }
  }

  lemma DecodeCRLF(rest: seq<byte>)
    ensures Decoded(CRLF + rest) == Decoded(rest)
  {
    var s := CRLF + rest;
    assert s[0] == CR && s[1..][0] == LF && s[1..][1..] == rest;
  }

  lemma {:induction false} DecodeBody(data: seq<byte>, lineLen: nat)
    ensures Decoded(Body(data, lineLen)) == data
    decreases |data|
  {
    hide Shifted, NeedsEscape, Decoded;
    if data == [] {
      assert CRLF + [] == CRLF;
      DecodeCRLF([]);
      DecodedEmpty();
    } else {
      var u := Encoded(data[0], lineLen);
      assert data == [data[0]] + data[1..];
      if lineLen + |u| >= LINE_WIDTH {
        var tail := Body(data[1..], 0);
        assert Body(data, lineLen) == u + (CRLF + tail);
        DecodeUnit(data[0], lineLen, CRLF + tail);
        DecodeCRLF(tail);
        DecodeBody(data[1..], 0);
      } else {
        DecodeUnit(data[0], lineLen, Body(data[1..], lineLen + |u|));
        DecodeBody(data[1..], lineLen + |u|);
      }
    }
  }

  lemma DecodedEmpty()
    ensures Decoded([]) == []
  {
  }

  /** Decoding undoes encoding, for every byte string. */
  lemma RoundTrip(data: seq<byte>)
    ensures Decoded(Body(data, 0)) == data
  {
    DecodeBody(data, 0);
  }

  // ------------------------------------------------------------- line grammar

  /** Cuts a byte stream at every CR LF, as an NNTP reader does; the last piece has no line end. */
  function Lines(s: seq<byte>): (ls: seq<seq<byte>>)
    ensures |ls| >= 1
    decreases |s|
  {
    if s == [] then [[]]
    else if CRLF <= s then [[]] + Lines(s[2..])
    else
      var ls := Lines(s[1..]);
      [[s[0]] + ls[0]] + ls[1..]
  }

  predicate PlainByte(b: byte) {
    b != 0 && b != CR && b != LF
  }

  predicate OneLine(s: seq<byte>) {
    forall i :: 0 <= i < |s| ==> s[i] != CR && s[i] != LF
  }

  predicate Plain(s: seq<byte>) {
    forall i :: 0 <= i < |s| ==> PlainByte(s[i])
  }

  /** The second byte of an escape pair: NUL, LF, CR or `=` moved up by 64, or `.` in front of a line. */
  predicate EscapedByte(b: byte, first: bool) {
    b == 64 || b == 74 || b == 77 || b == 125 || (first && b == 110)
  }

  /** Every `=` is followed, on the same line, by a byte it escapes, and only bytes that need it are escaped. */
  predicate EscapesWhole(line: seq<byte>, first: bool)
    decreases |line|
  {
    if line == [] then true
    else if line[0] == EQ then |line| > 1 && EscapedByte(line[1], first) && EscapesWhole(line[2..], false)
    else EscapesWhole(line[1..], false)
  }

  predicate SafeStart(line: seq<byte>) {
    line != [] && line[0] != DOT && !([EQ, Y] <= line)
  }

  /** A line of the body: no control bytes, whole escape pairs and no needless ones, no `.` or `=y` in front. */
  predicate GoodLine(line: seq<byte>) {
    Plain(line) && EscapesWhole(line, true) && SafeStart(line)
  }

  lemma {:induction false} LinesOfLine(l: seq<byte>, rest: seq<byte>)
    requires OneLine(l)
    ensures Lines(l + CRLF + rest) == [l] + Lines(rest)
    decreases |l|
  {
    var s := l + CRLF + rest;
    if l == [] {
      assert CRLF <= s && s[2..] == rest;
    } else {
      assert s[0] == l[0];
      assert s[1..] == l[1..] + CRLF + rest;
      assert forall i :: 0 <= i < |l[1..]| ==> l[1..][i] == l[i + 1];
      LinesOfLine(l[1..], rest);
      assert [l[0]] + l[1..] == l;
    }
  }

  lemma UnitShape(b: byte, lineLen: nat)
    ensures var u := Encoded(b, lineLen);
            && Plain(u)
            && (lineLen == 0 ==> SafeStart(u))
            && (|u| == 2 ==> u[0] == EQ && EscapedByte(u[1], lineLen == 0) && u[1] != EQ && u[1] != Y)
            && (|u| == 1 ==> u[0] != EQ)
  {
    hide Shifted, NeedsEscape;
    EscapeFacts(b, lineLen);
    var u := Encoded(b, lineLen);
    assert lineLen == 0 ==> u[0] != DOT;
    assert |u| == 2 ==> u[1] != Y;
  }

  lemma {:induction false} EscapesAppend(line: seq<byte>, u: seq<byte>, first: bool)
    requires EscapesWhole(line, first)
    requires (|u| == 1 && u[0] != EQ) || (|u| == 2 && u[0] == EQ && EscapedByte(u[1], first && line == []))
    ensures EscapesWhole(line + u, first)
    decreases |line|
  {
    if line == [] {
      assert line + u == u;
      assert EscapesWhole(u[|u|..], false);
    } else if line[0] == EQ {
      assert (line + u)[2..] == line[2..] + u;
      EscapesAppend(line[2..], u, false);
    } else {
      assert (line + u)[1..] == line[1..] + u;
      EscapesAppend(line[1..], u, false);
    }
  }

  /** The lines of a body: all but the last of that width, or one more where an escape pair ends. */
  ghost predicate GoodBody(ls: seq<seq<byte>>, width: nat) {
    && |ls| >= 1
    && ls[|ls| - 1] == []
    && (forall i :: 0 <= i < |ls| - 1 ==> GoodLine(ls[i]))
    && (forall i :: 0 <= i < |ls| - 2 ==> width <= |ls[i]| <= width + 1)
    && (|ls| >= 2 ==> |ls[|ls| - 2]| <= width + 1)
  }

  lemma EscapedSecond(line: seq<byte>)
    requires EscapesWhole(line, true) && line != [] && line[0] == EQ
    ensures |line| > 1 && line[1] != Y
  {
  }

  lemma GoodLineGrows(sofar: seq<byte>, b: byte)
    requires sofar == [] || GoodLine(sofar)
    ensures GoodLine(sofar + Encoded(b, |sofar|))
  {
    hide Encoded, EscapesWhole;
    var u := Encoded(b, |sofar|);
    UnitShape(b, |sofar|);
    if sofar == [] {
      assert sofar + u == u;
      EscapesNothing();
      EscapesAppend([], u, true);
    } else {
      EscapesAppend(sofar, u, true);
      var line := sofar + u;
      assert line[0] == sofar[0];
      if line[0] == EQ {
        EscapedSecond(sofar);
        assert line[1] == sofar[1];
      }
    }
  }

  lemma EscapesNothing()
    ensures EscapesWhole([], true)
  {
  }

  lemma GoodBodyGrows(line: seq<byte>, ls: seq<seq<byte>>)
    requires GoodLine(line) && LINE_WIDTH <= |line| <= LINE_WIDTH + 1
    requires GoodBody(ls, LINE_WIDTH)
    ensures GoodBody([line] + ls, LINE_WIDTH)
  {
    hide GoodLine;
    var all := [line] + ls;
    assert forall i :: 1 <= i < |all| ==> all[i] == ls[i - 1];
  }

  lemma GoodBodyEnds(line: seq<byte>)
    requires GoodLine(line) && |line| <= LINE_WIDTH + 1
    ensures GoodBody([line, []], LINE_WIDTH)
  {
  }

  lemma {:induction false} BodyLines(data: seq<byte>, sofar: seq<byte>)
    requires sofar == [] || GoodLine(sofar)
    requires |sofar| < LINE_WIDTH
    ensures GoodBody(Lines(sofar + Body(data, |sofar|)), LINE_WIDTH)
    decreases |data|
  {
    hide Shifted, NeedsEscape, GoodLine, Encoded, Lines, GoodBody, Body;
    if data == [] {
      BodyEnd(|sofar|);
      LinesOfNothing();
      if sofar != [] {
        assert sofar + CRLF == sofar + CRLF + [];
        OneLineOf(sofar);
        LinesOfLine(sofar, []);
        assert [sofar] + [[]] == [sofar, []];
        GoodBodyEnds(sofar);
      } else {
        assert sofar + Body(data, 0) == [];
        GoodBodyEndsEmpty();
      }
    } else {
      BodyStep(data, 0, |sofar|);
      assert data[0..] == data;
      var u := Encoded(data[0], |sofar|);
      var line := sofar + u;
      GoodLineGrows(sofar, data[0]);
      if |line| >= LINE_WIDTH {
        var tail := Body(data[1..], 0);
        assert sofar + Body(data, |sofar|) == line + CRLF + tail;
        OneLineOf(line);
        LinesOfLine(line, tail);
        BodyLines(data[1..], []);
        assert [] + tail == tail;
        GoodBodyGrows(line, Lines(tail));
      } else {
        assert sofar + Body(data, |sofar|) == line + Body(data[1..], |line|);
        BodyLines(data[1..], line);
      }
    }
  }

  lemma LinesOfNothing()
    ensures Lines([]) == [[]]
  {
  }

  lemma GoodBodyEndsEmpty()
    ensures GoodBody([[]], LINE_WIDTH)
  {
  }

  lemma OneLineOf(line: seq<byte>)
    requires GoodLine(line)
    ensures OneLine(line) && line != [] && line[0] != DOT
  {
  }

  /** The grammar of the body: full lines of 128 or 129 bytes, a last one no longer, all good. */
  lemma LineGrammar(data: seq<byte>)
    ensures GoodBody(Lines(Body(data, 0)), 128)
  {
    BodyLines(data, []);
    assert [] + Body(data, 0) == Body(data, 0);
  }

  // ------------------------------------------------------------- dot-stuffing

  /** Section 3.1.1 of RFC 3977: a `.` at the start of a line is sent as `..`. */
  function DotStuffed(s: seq<byte>, atLineStart: bool): seq<byte>
    decreases |s|
  {
    if s == [] then []
    else if CRLF <= s then CRLF + DotStuffed(s[2..], true)
    else if atLineStart && s[0] == DOT then [DOT, DOT] + DotStuffed(s[1..], false)
    else [s[0]] + DotStuffed(s[1..], false)
  }

  /** What the receiver does: a `.` in front of a line is dropped. */
  function Unstuffed(s: seq<byte>, atLineStart: bool): seq<byte>
    decreases |s|
  {
    if s == [] then []
    else if [13, 10] <= s then [13, 10] + Unstuffed(s[2..], true)
    else if atLineStart && s[0] == 46 then Unstuffed(s[1..], false)
    else [s[0]] + Unstuffed(s[1..], false)
  }

  lemma {:induction false} StuffingFirst(s: seq<byte>)
    ensures var t := DotStuffed(s, false); [13, 10] <= t <==> [13, 10] <= s
    ensures DotStuffed(s, false) == [] <==> s == []
  {
    if |s| > 1 && s[0] == 13 && !(CRLF <= s) {
      assert DotStuffed(s, false) == [s[0]] + DotStuffed(s[1..], false);
      assert s[1] != 10;
      assert DotStuffed(s[1..], false)[0] == s[1];
    }
  }

  /** The receiver gets back what was stuffed, whatever it was. */
  lemma {:induction false} UnstuffInvertsStuff(s: seq<byte>, atLineStart: bool)
    ensures Unstuffed(DotStuffed(s, atLineStart), atLineStart) == s
    decreases |s|
  {
    var t := DotStuffed(s, atLineStart);
    if s != [] {
      if CRLF <= s {
        UnstuffInvertsStuff(s[2..], true);
        assert t[2..] == DotStuffed(s[2..], true);
        assert s == CRLF + s[2..];
      } else {
        var rest := DotStuffed(s[1..], false);
        UnstuffInvertsStuff(s[1..], false);
        assert s == [s[0]] + s[1..];
        StuffingFirst(s[1..]);
        if atLineStart && s[0] == DOT {
          assert t[1..] == [DOT] + rest && t[1..][1..] == rest;
        } else {
          assert t == [s[0]] + rest && t[1..] == rest;
          NoLineEndMade(s);
        }
      }
    }
  }

  lemma NoLineEndMade(s: seq<byte>)
    requires s != [] && !(CRLF <= s)
    ensures !([13, 10] <= [s[0]] + DotStuffed(s[1..], false))
  {
    if |s| > 1 && s[0] == 13 {
      assert s[1] != 10;
      assert DotStuffed(s[1..], false)[0] == s[1];
    }
  }

  predicate NoDotLines(ls: seq<seq<byte>>) {
    forall i :: 0 <= i < |ls| ==> ls[i] == [] || ls[i][0] != DOT
  }

  lemma {:induction false} StuffingIsIdentity(s: seq<byte>, atLineStart: bool)
    requires NoDotLines(Lines(s)[1..])
    requires atLineStart ==> NoDotLines(Lines(s))
    ensures DotStuffed(s, atLineStart) == s
    decreases |s|
  {
    var ls := Lines(s);
    if s == [] {
    } else if CRLF <= s {
      assert ls[1..] == Lines(s[2..]);
      assert forall i :: 0 <= i < |ls[1..]| - 1 ==> ls[1..][1..][i] == ls[1..][i + 1];
      StuffingIsIdentity(s[2..], true);
      assert s == CRLF + s[2..];
    } else {
      var tail := Lines(s[1..]);
      assert ls[1..] == tail[1..];
      assert ls[0][0] == s[0];
      StuffingIsIdentity(s[1..], false);
      assert s == [s[0]] + s[1..];
    }
  }

  /** How the posted bytes look to an NNTP reader: whole lines, none empty, none in need of a dot. */
  ghost predicate Framed(ls: seq<seq<byte>>) {
    && |ls| >= 1
    && ls[|ls| - 1] == []
    && (forall i :: 0 <= i < |ls| - 1 ==> OneLine(ls[i]) && ls[i] != [] && ls[i][0] != DOT)
  }

  lemma FramedGrows(line: seq<byte>, rest: seq<byte>)
    requires OneLine(line) && line != [] && line[0] != DOT
    requires Framed(Lines(rest))
    ensures Framed(Lines(line + CRLF + rest))
  {
    hide OneLine, Lines;
    LinesOfLine(line, rest);
    var ls, all := Lines(rest), [line] + Lines(rest);
    assert forall i :: 1 <= i < |all| ==> all[i] == ls[i - 1];
  }

  lemma {:induction false} BodyFramed(data: seq<byte>, sofar: seq<byte>, t: seq<byte>)
    requires sofar == [] || GoodLine(sofar)
    requires |sofar| < LINE_WIDTH
    requires Framed(Lines(t))
    ensures Framed(Lines(sofar + Body(data, |sofar|) + t))
    decreases |data|
  {
    hide Shifted, NeedsEscape, GoodLine, Encoded, Lines, Framed, Body, OneLine;
    if data == [] {
      BodyEnd(|sofar|);
      if sofar != [] {
        OneLineOf(sofar);
        FramedGrows(sofar, t);
      } else {
        assert sofar + Body(data, 0) + t == t;
      }
    } else {
      BodyStep(data, 0, |sofar|);
      assert data[0..] == data;
      var u := Encoded(data[0], |sofar|);
      var line := sofar + u;
      GoodLineGrows(sofar, data[0]);
      if |line| >= LINE_WIDTH {
        var tail := Body(data[1..], 0);
        assert sofar + Body(data, |sofar|) + t == line + CRLF + ([] + tail + t);
        OneLineOf(line);
        BodyFramed(data[1..], [], t);
        FramedGrows(line, [] + tail + t);
      } else {
        assert sofar + Body(data, |sofar|) + t == line + Body(data[1..], |line|) + t;
        BodyFramed(data[1..], line, t);
      }
    }
  }
}
