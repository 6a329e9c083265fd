/** One yEnc article as posted: header lines, body, trailer, and the reader that takes it apart. */
module Article {
  import opened Bytes
  import opened Crc32
  import opened YEnc
  import opened Wrappers

  /** `=ybegin part=` */
  const YBEGIN_PART: seq<byte> := [61, 121, 98, 101, 103, 105, 110, 32, 112, 97, 114, 116, 61]
  /** ` total=` */
  const TOTAL: seq<byte> := [32, 116, 111, 116, 97, 108, 61]
  /** ` line=128 size=` */
  const LINE_SIZE: seq<byte> := [32, 108, 105, 110, 101, 61, 49, 50, 56, 32, 115, 105, 122, 101, 61]
  /** ` name=` */
  const NAME: seq<byte> := [32, 110, 97, 109, 101, 61]
  /** `=ypart begin=` */
  const YPART_BEGIN: seq<byte> := [61, 121, 112, 97, 114, 116, 32, 98, 101, 103, 105, 110, 61]
  /** ` end=` */
  const END: seq<byte> := [32, 101, 110, 100, 61]
  /** `=yend size=` */
  const YEND_SIZE: seq<byte> := [61, 121, 101, 110, 100, 32, 115, 105, 122, 101, 61]
  /** ` part=` */
  const PART: seq<byte> := [32, 112, 97, 114, 116, 61]
  /** ` pcrc32=` */
  const PCRC32: seq<byte> := [32, 112, 99, 114, 99, 51, 50, 61]
  /** ` crc32=` */
  const CRC32: seq<byte> := [32, 99, 114, 99, 51, 50, 61]

  /** ` line=` and ` size=`, which the reader looks for one by one. */
  const LINE: seq<byte> := [32, 108, 105, 110, 101, 61]
  const SIZE: seq<byte> := [32, 115, 105, 122, 101, 61]

  datatype Part = Part(data: seq<byte>, filename: seq<byte>, number: nat, total: nat, offset: nat, size: nat)

  // ------------------------------------------------------------- printing

  function Field(key: seq<byte>, n: nat, rest: seq<byte>): seq<byte> {
    key + (Decimal(n) + rest)
  }

  /** The `=ypart` line followed by rest. */
  function PartLine(p: Part, rest: seq<byte>): seq<byte> {
    Field(YPART_BEGIN, p.offset + 1, Field(END, p.offset + |p.data|, CRLF + rest))
  }

  /** The `=ybegin` line followed by rest. */
  function BeginLine(p: Part, rest: seq<byte>): seq<byte> {
    Field(YBEGIN_PART, p.number,
          Field(TOTAL, p.total, Field(LINE_SIZE, p.size, NAME + (p.filename + (CRLF + rest)))))
  }

  function Trailer(p: Part, whole: Option<bv32>): seq<byte> {
    Field(YEND_SIZE, |p.data|,
          Field(PART, p.number, PCRC32 + (Hex(Checksum(p.data), 8) + WholeField(whole))))
  }

  function WholeField(whole: Option<bv32>): seq<byte> {
    match whole
    case None => CRLF
    case Some(crc) => CRC32 + (Hex(crc, 8) + CRLF)
  }

  /** The bytes yEncodeChunk returns; `whole` is the crc32 attribute, if the trailer carries one. */
  function Printed(p: Part, whole: Option<bv32>): seq<byte> {
    BeginLine(p, PartLine(p, Body(p.data, 0) + Trailer(p, whole)))
  }

  // ------------------------------------------------------------- reading

  datatype Contents = Contents(number: nat, total: nat, line: nat, size: nat, filename: seq<byte>,
                               first: nat, last: nat, data: seq<byte>,
                               dataSize: nat, endNumber: nat, pcrc: bv32, crc: Option<bv32>)

  function ReadField(key: seq<byte>, s: seq<byte>): Option<(nat, seq<byte>)> {
    var s1 :- Strip(key, s);
    ReadDecimal(s1)
  }

  function ReadLine(s: seq<byte>): Option<(seq<byte>, seq<byte>)>
    decreases |s|
  {
    if s == [] then None
    else if CRLF <= s then Some(([], s[2..]))
    else
      var (line, rest) :- ReadLine(s[1..]);
      Some(([s[0]] + line, rest))
  }

  function ReadHex8(s: seq<byte>): Option<(bv32, seq<byte>)> {
    if |s| < 8 then None
    else
      var x :- HexValue(s[..8]);
      Some((x, s[8..]))
  }

  /** The bytes before the first line that starts with `=y`. */
  function ReadBody(s: seq<byte>, atLineStart: bool): (seq<byte>, seq<byte>)
    decreases |s|
  {
    if s == [] || (atLineStart && [EQ, Y] <= s) then ([], s)
    else if CRLF <= s then
      var (body, rest) := ReadBody(s[2..], true);
      (CRLF + body, rest)
    else
      var (body, rest) := ReadBody(s[1..], false);
      ([s[0]] + body, rest)
  }

  function ReadWhole(s: seq<byte>): Option<Option<bv32>> {
    if s == CRLF then Some(None)
    else
      var s1 :- Strip(CRC32, s);
      var (crc, s2) :- ReadHex8(s1);
      if s2 == CRLF then Some(Some(crc)) else None
  }

  function ReadTrailer(s: seq<byte>): Option<(nat, nat, bv32, Option<bv32>)> {
    var (dataSize, s1) :- ReadField(YEND_SIZE, s);
    var (number, s2) :- ReadField(PART, s1);
    var s3 :- Strip(PCRC32, s2);
    var (pcrc, s4) :- ReadHex8(s3);
    var whole :- ReadWhole(s4);
    Some((dataSize, number, pcrc, whole))
  }

  function ReadBeginLine(s: seq<byte>): Option<(nat, nat, nat, nat, seq<byte>, seq<byte>)> {
    var (number, s1) :- ReadField(YBEGIN_PART, s);
    var (total, s2) :- ReadField(TOTAL, s1);
    var (line, s3) :- ReadField(LINE, s2);
    var (size, s4) :- ReadField(SIZE, s3);
    var s5 :- Strip(NAME, s4);
    var (filename, s6) :- ReadLine(s5);
    Some((number, total, line, size, filename, s6))
  }

  function ReadPartLine(s: seq<byte>): Option<(nat, nat, seq<byte>)> {
    var (first, s1) :- ReadField(YPART_BEGIN, s);
    var (last, s2) :- ReadField(END, s1);
    var s3 :- Strip(CRLF, s2);
    Some((first, last, s3))
  }

  function Read(s: seq<byte>): Option<Contents> {
    var (number, total, line, size, filename, s1) :- ReadBeginLine(s);
    var (first, last, s2) :- ReadPartLine(s1);
    var (body, s3) := ReadBody(s2, true);
    var (dataSize, endNumber, pcrc, crc) :- ReadTrailer(s3);
    Some(Contents(number, total, line, size, filename, first, last, Decoded(body), dataSize, endNumber, pcrc, crc))
  }

  // ------------------------------------------------------------- reading undoes printing

  predicate NoDigitFirst(s: seq<byte>) {
    s != [] ==> !IsDigit(s[0])
  }

  lemma FieldInverts(key: seq<byte>, n: nat, rest: seq<byte>)
    requires NoDigitFirst(rest)
    ensures ReadField(key, Field(key, n, rest)) == Some((n, rest))
  {
    StripInverts(key, Decimal(n) + rest);
    ReadDecimalInverts(n, rest);
  }

  lemma {:induction false} LineInverts(line: seq<byte>, rest: seq<byte>)
    requires OneLine(line)
    ensures ReadLine(line + (CRLF + rest)) == Some((line, rest))
    decreases |line|
  {
    var s := line + (CRLF + rest);
    if line == [] {
      assert s == CRLF + rest;
      assert s[2..] == rest;
    } else {
      assert s[0] == line[0];
      assert s[1..] == line[1..] + (CRLF + rest);
      LineInverts(line[1..], rest);
      assert [line[0]] + line[1..] == line;
    }
  }

  lemma Hex8Inverts(x: bv32, rest: seq<byte>)
    ensures ReadHex8(Hex(x, 8) + rest) == Some((x, rest))
  {
    hide Hex, HexValue;
    var s := Hex(x, 8) + rest;
    assert s[..8] == Hex(x, 8) && s[8..] == rest;
    HexRoundTrip(x);
  }

  lemma WholeInverts(whole: Option<bv32>)
    ensures ReadWhole(WholeField(whole)) == Some(whole)
  {
    hide Hex, HexValue, ReadHex8;
    match whole
    case None =>
    case Some(crc) =>
      StripInverts(CRC32, Hex(crc, 8) + CRLF);
      Hex8Inverts(crc, CRLF);
  }

  lemma TrailerInverts(p: Part, whole: Option<bv32>)
    ensures ReadTrailer(Trailer(p, whole)) == Some((|p.data|, p.number, Checksum(p.data), whole))
  {
    hide Hex, HexValue, ReadHex8, ReadField, Field, Checksum, ReadWhole;
    var crc := Checksum(p.data);
    var t4 := WholeField(whole);
    var t3 := Hex(crc, 8) + t4;
    var t2 := PCRC32 + t3;
    var t1 := Field(PART, p.number, t2);
    FieldStarts(PART, p.number, t2);
    FieldInverts(YEND_SIZE, |p.data|, t1);
    FieldInverts(PART, p.number, t2);
    StripInverts(PCRC32, t3);
    Hex8Inverts(crc, t4);
    WholeInverts(whole);
  }

  lemma FieldStarts(key: seq<byte>, n: nat, rest: seq<byte>)
    requires key != []
    ensures Field(key, n, rest) != [] && Field(key, n, rest)[0] == key[0]
  {
  }

  lemma LineField(n: nat, rest: seq<byte>)
    ensures Field(LINE_SIZE, n, rest) == Field(LINE, 128, Field(SIZE, n, rest))
  {
    hide Decimal;
    DecimalOfWidth();
    assert LINE_SIZE == LINE + ([49, 50, 56] + SIZE);
  }

  lemma DecimalOfWidth()
    ensures Decimal(128) == [49, 50, 56]
  {
    assert Decimal(1) == [49];
    assert Decimal(12) == [49, 50];
  }

  lemma BeginLineInverts(p: Part, rest: seq<byte>)
    requires OneLine(p.filename)
    ensures ReadBeginLine(BeginLine(p, rest)) == Some((p.number, p.total, 128, p.size, p.filename, rest))
  {
    hide ReadField, Field, ReadLine;
    var t4 := p.filename + (CRLF + rest);
    var t3 := NAME + t4;
    var t2 := Field(LINE_SIZE, p.size, t3);
    var t1 := Field(TOTAL, p.total, t2);
    LineField(p.size, t3);
    FieldStarts(LINE_SIZE, p.size, t3);
    FieldStarts(SIZE, p.size, t3);
    FieldStarts(TOTAL, p.total, t2);
    FieldInverts(YBEGIN_PART, p.number, t1);
    FieldInverts(TOTAL, p.total, t2);
    FieldInverts(LINE, 128, Field(SIZE, p.size, t3));
    FieldInverts(SIZE, p.size, t3);
    StripInverts(NAME, t4);
    LineInverts(p.filename, rest);
  }

  lemma PartLineInverts(p: Part, rest: seq<byte>)
    ensures ReadPartLine(PartLine(p, rest)) == Some((p.offset + 1, p.offset + |p.data|, rest))
  {
    hide ReadField, Field;
    var t2 := CRLF + rest;
    var t1 := Field(END, p.offset + |p.data|, t2);
    FieldStarts(END, p.offset + |p.data|, t2);
    FieldInverts(YPART_BEGIN, p.offset + 1, t1);
    FieldInverts(END, p.offset + |p.data|, t2);
    StripInverts(CRLF, rest);
  }

  lemma ReadUnit(b: byte, lineLen: nat, rest: seq<byte>)
    ensures var u := Encoded(b, lineLen);
            var (body, after) := ReadBody(rest, false);
            ReadBody(u + rest, lineLen == 0) == (u + body, after)
  {
    hide Encoded;
    var u := Encoded(b, lineLen);
    UnitShape(b, lineLen);
    var s := u + rest;
    var (body, after) := ReadBody(rest, false);
    assert s[0] == u[0];
    if |u| == 1 {
      assert u[0] != EQ && s[1..] == rest;
      assert [u[0]] + body == u + body;
    } else {
      assert s[1] == u[1] && u[1] != Y;
      var t := s[1..];
      assert t[0] == u[1] && t[1..] == rest && PlainByte(u[1]);
      assert ReadBody(t, false) == ([u[1]] + body, after);
      assert [u[0]] + ([u[1]] + body) == u + body;
    }
  }

  lemma ReadLineEnd(rest: seq<byte>, atLineStart: bool)
    ensures var (body, after) := ReadBody(rest, true);
            ReadBody(CRLF + rest, atLineStart) == (CRLF + body, after)
  {
    assert (CRLF + rest)[2..] == rest;
  }

  lemma {:induction false} BodyInverts(data: seq<byte>, lineLen: nat, t: seq<byte>)
    requires [EQ, Y] <= t
    requires lineLen < LINE_WIDTH
    ensures ReadBody(Body(data, lineLen) + t, lineLen == 0) == (Body(data, lineLen), t)
    decreases |data|
  {
    hide Encoded, ReadBody, Body;
    ReadBodyStops(t);
    if data == [] {
      BodyEnd(lineLen);
      if lineLen > 0 {
        ReadLineEnd(t, false);
        assert CRLF + [] == CRLF;
      } else {
        assert [] + t == t;
      }
    } else {
      BodyStep(data, 0, lineLen);
      assert data[0..] == data;
      var u := Encoded(data[0], lineLen);
      var n := NextLineLen(lineLen + |u|);
      var tail := Body(data[1..], n);
      BodyInverts(data[1..], n, t);
      if lineLen + |u| >= LINE_WIDTH {
        assert Body(data, lineLen) + t == u + (CRLF + (tail + t));
        ReadUnit(data[0], lineLen, CRLF + (tail + t));
        ReadLineEnd(tail + t, false);
        assert u + (CRLF + tail) == Body(data, lineLen);
      } else {
        assert Body(data, lineLen) == u + tail;
        assert Body(data, lineLen) + t == u + (tail + t);
        ReadUnit(data[0], lineLen, tail + t);
      }
    }
  }

  lemma ReadBodyStops(t: seq<byte>)
    requires [EQ, Y] <= t
    ensures ReadBody(t, true) == ([], t)
  {
  }

  lemma TrailerStarts(p: Part, whole: Option<bv32>)
    ensures [EQ, Y] <= Trailer(p, whole)
  {
    hide Decimal, Hex, Checksum;
    assert YEND_SIZE <= Trailer(p, whole);
    assert YEND_SIZE[..2] == [EQ, Y];
  }

  /**
   Reading the posted article gives back the data, the part's place in the file and both CRCs,
   for every part whose name has no line break.
   */
  lemma ReadInvertsPrint(p: Part, whole: Option<bv32>)
    requires OneLine(p.filename)
    ensures Read(Printed(p, whole))
         == Some(Contents(p.number, p.total, 128, p.size, p.filename, p.offset + 1, p.offset + |p.data|,
                          p.data, |p.data|, p.number, Checksum(p.data), whole))
  {
    hide ReadBeginLine, BeginLine, ReadPartLine, PartLine, Body, ReadBody, Trailer, ReadTrailer, Checksum, Decoded;
    var t := Trailer(p, whole);
    BeginLineInverts(p, PartLine(p, Body(p.data, 0) + t));
    PartLineInverts(p, Body(p.data, 0) + t);
    TrailerStarts(p, whole);
    BodyInverts(p.data, 0, t);
    RoundTrip(p.data);
    TrailerInverts(p, whole);
  }

  /** The line width the header tells is the one the lines of the body keep. */
  lemma HeaderTellsWidth(p: Part, whole: Option<bv32>)
    requires OneLine(p.filename)
    ensures Read(Printed(p, whole)).Some?
    ensures GoodBody(Lines(Body(p.data, 0)), Read(Printed(p, whole)).value.line)
  {
    hide Read, Printed, GoodBody, Lines, Body, OneLine;
    ReadInvertsPrint(p, whole);
    LineGrammar(p.data);
  }

  // ------------------------------------------------------------- the labels as text

  /** The bytes are the ASCII characters of the text. */
  predicate Spells(s: seq<byte>, text: string) {
    |s| == |text| && forall i :: 0 <= i < |s| ==> s[i] as int == text[i] as int
  }

  lemma BeginLabelsSpell()
    ensures Spells(YBEGIN_PART, "=ybegin part=") && Spells(TOTAL, " total=") && Spells(NAME, " name=")
  {
  }

  lemma LineLabelSpells()
    ensures Spells(LINE_SIZE, " line=128 size=") && Spells(CRLF, "\r\n")
  {
  }

  lemma PartLabelsSpell()
    ensures Spells(YPART_BEGIN, "=ypart begin=") && Spells(END, " end=") && Spells(PART, " part=")
  {
  }

  lemma EndLabelsSpell()
    ensures Spells(YEND_SIZE, "=yend size=") && Spells(PCRC32, " pcrc32=") && Spells(CRC32, " crc32=")
  {
  }

  // ------------------------------------------------------------- on the wire

  lemma OneLineJoins(x: seq<byte>, y: seq<byte>)
    requires OneLine(x) && OneLine(y)
    ensures OneLine(x + y)
  {
  }

  lemma OneLineDecimal(n: nat)
    ensures OneLine(Decimal(n))
  {
  }

  lemma {:induction false} OneLineHex(x: bv32, n: nat)
    ensures OneLine(Hex(x, n))
    decreases n
  {
    if n > 0 {
      OneLineHex(x >> 4, n - 1);
      OneLineNibble(x & 15);
      OneLineJoins(Hex(x >> 4, n - 1), [NibbleByte(x & 15)]);
    }
  }

  lemma OneLineNibble(x: bv32)
    ensures NibbleByte(x) != CR && NibbleByte(x) != LF
  {
  }

  /** A field is text without line breaks, then what follows. */
  lemma FieldText(key: seq<byte>, n: nat, text: seq<byte>, rest: seq<byte>)
    requires OneLine(key) && OneLine(text)
    ensures OneLine(Field(key, n, text))
    ensures Field(key, n, text + rest) == Field(key, n, text) + rest
  {
    OneLineDecimal(n);
    OneLineJoins(Decimal(n), text);
    OneLineJoins(key, Decimal(n) + text);
  }

  lemma BeginLineFramed(p: Part, rest: seq<byte>)
    requires OneLine(p.filename)
    requires Framed(Lines(rest))
    ensures Framed(Lines(BeginLine(p, rest)))
  {
    hide OneLine, Framed, Lines, Field;
    LabelsAreText();
    var end := CRLF + rest;
    var x3 := NAME + p.filename;
    assert NAME + (p.filename + end) == x3 + end;
    OneLineJoins(NAME, p.filename);
    FieldText(LINE_SIZE, p.size, x3, end);
    var x2 := Field(LINE_SIZE, p.size, x3);
    FieldText(TOTAL, p.total, x2, end);
    var x1 := Field(TOTAL, p.total, x2);
    FieldText(YBEGIN_PART, p.number, x1, end);
    var line := Field(YBEGIN_PART, p.number, x1);
    assert BeginLine(p, rest) == line + end;
    assert line + end == line + CRLF + rest;
    FieldStarts(YBEGIN_PART, p.number, x1);
    FramedGrows(line, rest);
  }

  lemma PartLineFramed(p: Part, rest: seq<byte>)
    requires Framed(Lines(rest))
    ensures Framed(Lines(PartLine(p, rest)))
  {
    hide OneLine, Framed, Lines, Field;
    LabelsAreText();
    var end := CRLF + rest;
    assert [] + end == end;
    FieldText(END, p.offset + |p.data|, [], end);
    var x := Field(END, p.offset + |p.data|, []);
    FieldText(YPART_BEGIN, p.offset + 1, x, end);
    var line := Field(YPART_BEGIN, p.offset + 1, x);
    assert PartLine(p, rest) == line + end;
    assert line + end == line + CRLF + rest;
    FieldStarts(YPART_BEGIN, p.offset + 1, x);
    FramedGrows(line, rest);
  }

  lemma WholeFieldText(whole: Option<bv32>) returns (x: seq<byte>)
    ensures OneLine(x) && WholeField(whole) == x + CRLF
  {
    hide OneLine, Hex;
    LabelsAreText();
    match whole
    case None =>
      x := [];
      assert [] + CRLF == CRLF;
    case Some(crc) =>
      x := CRC32 + Hex(crc, 8);
      OneLineHex(crc, 8);
      OneLineJoins(CRC32, Hex(crc, 8));
      assert CRC32 + (Hex(crc, 8) + CRLF) == x + CRLF;
  }

  lemma TrailerFramed(p: Part, whole: Option<bv32>)
    ensures Framed(Lines(Trailer(p, whole)))
  {
    hide OneLine, Framed, Lines, Field, Hex, Checksum, WholeField;
    LabelsAreText();
    var w := WholeFieldText(whole);
    var h := Hex(Checksum(p.data), 8);
    OneLineHex(Checksum(p.data), 8);
    OneLineJoins(PCRC32, h);
    OneLineJoins(PCRC32 + h, w);
    var x2 := PCRC32 + h + w;
    assert PCRC32 + (h + WholeField(whole)) == x2 + CRLF;
    FieldText(PART, p.number, x2, CRLF);
    var x1 := Field(PART, p.number, x2);
    FieldText(YEND_SIZE, |p.data|, x1, CRLF);
    var line := Field(YEND_SIZE, |p.data|, x1);
    assert line + CRLF == line + CRLF + [];
    FieldStarts(YEND_SIZE, |p.data|, x1);
    NothingFramed();
    FramedGrows(line, []);
  }

  lemma NothingFramed()
    ensures Framed(Lines([]))
  {
  }

  lemma LabelsAreText()
    ensures OneLine(YBEGIN_PART) && OneLine(TOTAL) && OneLine(LINE_SIZE) && OneLine(NAME)
    ensures OneLine(YPART_BEGIN) && OneLine(END) && OneLine([])
    ensures OneLine(YEND_SIZE) && OneLine(PART) && OneLine(PCRC32) && OneLine(CRC32)
  {
  }

  lemma FramedHasNoDots(ls: seq<seq<byte>>)
    requires Framed(ls)
    ensures NoDotLines(ls) && NoDotLines(ls[1..])
  {
    hide OneLine;
    assert forall i :: 0 <= i < |ls[1..]| ==> ls[1..][i] == ls[i + 1];
  }

  lemma FramedNeedsNoDots(s: seq<byte>)
    requires Framed(Lines(s))
    ensures DotStuffed(s, true) == s
  {
    hide Lines, DotStuffed, OneLine;
    FramedHasNoDots(Lines(s));
    StuffingIsIdentity(s, true);
  }

  /**
   Dot-stuffing changes nothing in a posted article, and no line of it is empty or `.`, so the
   reader gets exactly the printed bytes and cannot take any line for the end of the article.
   */
  lemma SurvivesNntp(p: Part, whole: Option<bv32>)
    requires OneLine(p.filename)
    ensures Framed(Lines(Printed(p, whole)))
    ensures DotStuffed(Printed(p, whole), true) == Printed(p, whole)
  {
    hide Framed, Lines, BeginLine, PartLine, Trailer, Body, DotStuffed, OneLine;
    TrailerFramed(p, whole);
    BodyFramed(p.data, [], Trailer(p, whole));
    assert [] + Body(p.data, 0) + Trailer(p, whole) == Body(p.data, 0) + Trailer(p, whole);
    PartLineFramed(p, Body(p.data, 0) + Trailer(p, whole));
    BeginLineFramed(p, PartLine(p, Body(p.data, 0) + Trailer(p, whole)));
    FramedNeedsNoDots(Printed(p, whole));
  }
}
