/**
 The agent's config.yml: the file printer, the line parser, and the three tiers that combine into
 the effective value of a key.
 */
module LayeredConfig {
  import opened Scanner
  import opened Text
  import opened Wrappers

  /** strconv.IsPrint above ASCII is a table; it is a parameter here. */
  type PrintTable = char -> bool

  // ------------------------------------------------------------- quoting

  predicate IsQuote(c: char) {
    c == '"' || c == '\''
  }

  predicate NeedsQuoting(v: string) {
    exists i :: 0 <= i < |v| && (v[i] == ':' || v[i] == '#' || IsQuote(v[i]) || v[i] == '\n')
  }

  predicate IsPrint(c: char, table: PrintTable) {
    if c < '\U{80}' then ' ' <= c <= '~' else table(c)
  }

  /** Written by %q as itself. */
  predicate Plain(c: char, table: PrintTable) {
    c != '"' && c != '\\' && IsPrint(c, table)
  }

  function HexDigit(n: nat): char
    requires n < 16
  {
    "0123456789abcdef"[n]
  }

  function HexDigits(n: nat, width: nat): string {
    if width == 0 then "" else HexDigits(n / 16, width - 1) + [HexDigit(n % 16)]
  }

  function Escape(c: char, table: PrintTable): string {
    if c == '"' then "\\\""
    else if c == '\\' then "\\\\"
    else if IsPrint(c, table) then [c]
    else if c == '\U{07}' then "\\a"
    else if c == '\U{08}' then "\\b"
    else if c == '\U{0C}' then "\\f"
    else if c == '\n' then "\\n"
    else if c == '\r' then "\\r"
    else if c == '\t' then "\\t"
    else if c == '\U{0B}' then "\\v"
    else if c < ' ' || c == '\U{7F}' then "\\x" + HexDigits(c as int, 2)
    else if c as int < 0x10000 then "\\u" + HexDigits(c as int, 4)
    else "\\U" + HexDigits(c as int, 8)
  }

  function Escaped(v: string, table: PrintTable): string {
    if v == "" then "" else Escape(v[0], table) + Escaped(v[1..], table)
  }

  /** %q */
  function Quote(v: string, table: PrintTable): string {
    "\"" + Escaped(v, table) + "\""
  }

  // ------------------------------------------------------------- what a quoted value denotes

  /** The value of a lower-case hexadecimal digit; other characters count as 16. */
  function DigitValue(c: char): nat {
    if '0' <= c <= '9' then c as int - 48 else if 'a' <= c <= 'f' then c as int - 87 else 16
  }

  function HexNumber(s: string): nat {
    if s == "" then 0 else 16 * HexNumber(s[..|s| - 1]) + DigitValue(s[|s| - 1])
  }

  /** The character with this code point. */
  function CharOf(n: nat): Option<char> {
    if n < 0xD800 || 0xE000 <= n < 0x11_0000 then Some(n as char) else None
  }

  /** How many characters after the backslash and the letter belong to the escape. */
  function HexWidth(letter: char): nat {
    if letter == 'x' then 2 else if letter == 'u' then 4 else if letter == 'U' then 8 else 0
  }

  function Denoted(letter: char): Option<char> {
    match letter
    case 'a' => CharOf(7)
    case 'b' => CharOf(8)
    case 't' => CharOf(9)
    case 'n' => CharOf(10)
    case 'v' => CharOf(11)
    case 'f' => CharOf(12)
    case 'r' => CharOf(13)
    case '"' => Some('"')
    case '\\' => Some('\\')
    case _ => None
  }

  /** The inside of an interpreted string literal of Go, read back: what it denotes. */
  function Unescaped(s: string): Option<string>
    decreases |s|
  {
    if s == "" then Some("")
    else if s[0] != '\\' then
      var rest :- Unescaped(s[1..]);
      Some([s[0]] + rest)
    else if |s| < 2 || |s| < 2 + HexWidth(s[1]) then None
    else
      var width := HexWidth(s[1]);
      var c :- if width > 0 then CharOf(HexNumber(s[2..2 + width])) else Denoted(s[1]);
      var rest :- Unescaped(s[2 + width..]);
      Some([c] + rest)
  }

  function Pow16(width: nat): nat {
    if width == 0 then 1 else 16 * Pow16(width - 1)
  }

  lemma HexDigitValue(n: nat)
    requires n < 16
    ensures DigitValue(HexDigit(n)) == n
  {
  }

  lemma {:induction false} HexNumberInverts(n: nat, width: nat)
    requires n < Pow16(width)
    ensures |HexDigits(n, width)| == width && HexNumber(HexDigits(n, width)) == n
    decreases width
  {
    hide DigitValue, HexDigit;
    if width > 0 {
      HexNumberInverts(n / 16, width - 1);
      HexDigitValue(n % 16);
      assert HexDigits(n, width)[..width - 1] == HexDigits(n / 16, width - 1);
    }
  }

  lemma Powers()
    ensures Pow16(2) == 256 && Pow16(4) == 65536 && Pow16(8) == 4294967296
  {
    assert Pow16(1) == 16 && Pow16(3) == 4096 && Pow16(5) == 1048576 && Pow16(6) == 16777216;
  }

  lemma CharOfChar(c: char)
    ensures CharOf(c as int) == Some(c)
  {
  }

  lemma HexEscapeDenotes(c: char, letter: char, rest: string)
    requires HexWidth(letter) > 0 && c as int < Pow16(HexWidth(letter))
    requires Unescaped(rest).Some?
    ensures Unescaped(['\\', letter] + HexDigits(c as int, HexWidth(letter)) + rest)
         == Some([c] + Unescaped(rest).value)
  {
    hide HexDigits, HexNumber, CharOf, HexWidth, Pow16;
    var width := HexWidth(letter);
    var s := ['\\', letter] + HexDigits(c as int, width) + rest;
    HexNumberInverts(c as int, width);
    CharOfChar(c);
    assert s[2..2 + width] == HexDigits(c as int, width) && s[2 + width..] == rest;
  }

  lemma LetterDenotes(letter: char, rest: string)
    requires HexWidth(letter) == 0 && Denoted(letter).Some? && Unescaped(rest).Some?
    ensures Unescaped(['\\', letter] + rest) == Some([Denoted(letter).value] + Unescaped(rest).value)
  {
    var s := ['\\', letter] + rest;
    assert s[2..] == rest;
  }

  lemma PlainDenotes(c: char, rest: string)
    requires c != '\\' && Unescaped(rest).Some?
    ensures Unescaped([c] + rest) == Some([c] + Unescaped(rest).value)
  {
    assert ([c] + rest)[1..] == rest;
  }

  lemma EscapeDenotes(c: char, rest: string, table: PrintTable)
    requires Unescaped(rest).Some?
    ensures Unescaped(Escape(c, table) + rest) == Some([c] + Unescaped(rest).value)
  {
    hide HexDigits, Unescaped, Pow16, IsPrint;
    Powers();
    var e := Escape(c, table);
    if c != '"' && c != '\\' && IsPrint(c, table) {
      PlainDenotes(c, rest);
    } else if c == '"' || c == '\\' || 7 <= c as int <= 13 {
      LetterDenotes(e[1], rest);
      assert e == ['\\', e[1]];
    } else {
      var letter := if c < ' ' || c == '\U{7F}' then 'x' else if c as int < 0x10000 then 'u' else 'U';
      HexEscapeDenotes(c, letter, rest);
      assert e == ['\\', letter] + HexDigits(c as int, HexWidth(letter));
    }
  }

  /** A quoted value is a Go string literal that denotes the value. */
  lemma {:induction false} QuoteDenotes(v: string, table: PrintTable)
    ensures Unescaped(Escaped(v, table)) == Some(v)
    decreases |v|
  {
    hide Escape, Unescaped;
    if v == "" {
      NothingDenoted();
    } else {
      QuoteDenotes(v[1..], table);
      EscapeDenotes(v[0], Escaped(v[1..], table), table);
      assert [v[0]] + v[1..] == v;
    }
  }

  lemma NothingDenoted()
    ensures Unescaped("") == Some("")
  {
  }

  function PrintedValue(v: string, table: PrintTable): string {
    if NeedsQuoting(v) then Quote(v, table) else v
  }

  // ------------------------------------------------------------- what a line is read as

  predicate HasColon(s: string) {
    exists i :: 0 <= i < |s| && s[i] == ':'
  }

  function IndexOfColon(s: string): (i: nat)
    requires HasColon(s)
    ensures i < |s| && s[i] == ':' && forall k :: 0 <= k < i ==> s[k] != ':'
    decreases |s|
  {
    if s[0] == ':' then 0
    else
      var k :| 0 <= k < |s| && s[k] == ':';
      assert s[1..][k - 1] == ':';
      1 + IndexOfColon(s[1..])
  }

  /** bufio.ScanLines takes one CR off the end of a line. */
  function DropCR(s: string): string {
    if s != "" && s[|s| - 1] == '\r' then s[..|s| - 1] else s
  }

  function ParseLine(raw: string): Option<(string, string)> {
    var line := TrimSpace(DropCR(raw));
    if line == "" || line[0] == '#' || !HasColon(line) then None
    else
      var i := IndexOfColon(line);
      Some((ToLower(TrimSpace(line[..i])), Trim(TrimSpace(line[i + 1..]), IsQuote)))
  }

  /** The text cut at every line feed; a last line without one counts if it is not empty. */
  function SplitLines(text: string): seq<string>
    decreases |text|
  {
    if text == "" then []
    else if text[0] == '\n' then [""] + SplitLines(text[1..])
    else
      var rest := SplitLines(text[1..]);
      if text[1..] == "" then [[text[0]]]
      else [[text[0]] + rest[0]] + rest[1..]
  }

  /** The lines the scanner hands out: those before the first that fills its buffer. */
  function Scanned(text: string): seq<string> {
    UntilLong(SplitLines(text), Utf8Length)
  }

  function Load(m: map<string, string>, lines: seq<string>): map<string, string> {
    if lines == [] then m
    else
      var m' := Load(m, lines[..|lines| - 1]);
      match ParseLine(lines[|lines| - 1])
      case None => m'
      case Some(kv) => m'[kv.0 := kv.1]
  }

  // ------------------------------------------------------------- printing

  const COMMENT1 := "# indexer-agent config.yml \U{2014} edit with care."
  const COMMENT2_START := "# Writes from the site UI or the local"
  const COMMENT2_END := " UI overwrite this file in place."
  const COMMENT2 := COMMENT2_START + COMMENT2_END
  const COMMENT3_START := "# Keys in .env (VPN_*, NNTP_*, SITE_URL,"
  const COMMENT3_END := " AGENT_TOKEN) are NOT managed here."
  const COMMENT3 := COMMENT3_START + COMMENT3_END

  const HEADER := COMMENT1 + "\n" + COMMENT2 + "\n" + COMMENT3 + "\n" + "\n"

  function EntryLine(k: string, v: string, table: PrintTable): string {
    k + ": " + PrintedValue(v, table)
  }

  function PrintEntries(m: map<string, string>, keys: seq<string>, table: PrintTable): string
    requires forall i :: 0 <= i < |keys| ==> keys[i] in m
  {
    if keys == [] then ""
    else PrintEntries(m, keys[..|keys| - 1], table)
         + EntryLine(keys[|keys| - 1], m[keys[|keys| - 1]], table) + "\n"
  }

  function PrintFile(m: map<string, string>, keys: seq<string>, table: PrintTable): string
    requires forall i :: 0 <= i < |keys| ==> keys[i] in m
  {
    HEADER + PrintEntries(m, keys, table)
  }

  // ------------------------------------------------------------- one value

  /** What a value is after printing and parsing. */
  function ReadBack(v: string, table: PrintTable): string {
    Trim(TrimSpace(PrintedValue(v, table)), IsQuote)
  }

  /**
   Values that come back: written bare, nothing to trim; written quoted, no character that %q
   escapes and no quote at either end (the parser does not unescape, and trims all outer quotes).
   */
  predicate GoodValue(v: string, table: PrintTable) {
    if exists i :: 0 <= i < |v| && v[i] in ":#'\"\n" then
      && (forall i :: 0 <= i < |v| ==> v[i] != '"' && v[i] != '\\' && Shown(v[i], table))
      && v[0] != '\'' && v[|v| - 1] != '\''
    else Tight(v, IsSpace)
  }

  /** Printable: in ASCII the characters from blank to tilde. */
  predicate Shown(c: char, table: PrintTable) {
    32 <= c as int <= 126 || (c as int >= 128 && table(c))
  }

  lemma QuotingMarks(c: char)
    ensures c in ":#'\"\n" <==> c == ':' || c == '#' || IsQuote(c) || c == '\n'
  {
    var marks := ":#'\"\n";
    assert marks[0] == ':' && marks[1] == '#' && marks[2] == '\'' && marks[3] == '"' && marks[4] == '\n';
  }

  /** A value is written in quotes exactly when it has a colon, a hash, a quote or a line end. */
  lemma QuotedExactly(v: string, table: PrintTable)
    ensures NeedsQuoting(v) <==> exists i :: 0 <= i < |v| && v[i] in ":#'\"\n"
    ensures PrintedValue(v, table) != v <==> exists i :: 0 <= i < |v| && v[i] in ":#'\"\n"
  {
    hide IsQuote, Escaped;
    forall i | 0 <= i < |v| ensures v[i] in ":#'\"\n" <==> v[i] == ':' || v[i] == '#' || IsQuote(v[i]) || v[i] == '\n' {
      QuotingMarks(v[i]);
    }
    EscapedFacts(v, table);
    assert |Quote(v, table)| == |Escaped(v, table)| + 2;
  }

  lemma GoodValueIs(v: string, table: PrintTable)
    ensures GoodValue(v, table)
       <==> if NeedsQuoting(v) then (forall i :: 0 <= i < |v| ==> Plain(v[i], table)) && Tight(v, IsQuote)
            else Tight(v, IsSpace)
  {
    hide PrintedValue, IsSpace;
    QuotedExactly(v, table);
  }

  lemma {:induction false} HexHasNoQuote(n: nat, width: nat)
    ensures |HexDigits(n, width)| == width
    ensures forall i :: 0 <= i < width ==> !IsQuote(HexDigits(n, width)[i]) && HexDigits(n, width)[i] != '\n'
  {
    if width > 0 {
      HexHasNoQuote(n / 16, width - 1);
    }
  }

  lemma EscapeFacts(c: char, table: PrintTable)
    ensures var e := Escape(c, table);
            && |e| >= 1
            && (Plain(c, table) ==> e == [c])
            && (!Plain(c, table) ==> |e| >= 2)
            && (!IsQuote(c) ==> !IsQuote(e[0]) && !IsQuote(e[|e| - 1]))
            && forall i :: 0 <= i < |e| ==> e[i] != '\n'
  {
    hide HexDigits;
    HexHasNoQuote(c as int, 2);
    HexHasNoQuote(c as int, 4);
    HexHasNoQuote(c as int, 8);
  }

  lemma {:induction false} EscapedFacts(v: string, table: PrintTable)
    ensures var e := Escaped(v, table);
            && |e| >= |v|
            && (|e| == |v| <==> forall i :: 0 <= i < |v| ==> Plain(v[i], table))
            && (|e| == |v| ==> e == v)
            && (v != "" && !IsQuote(v[0]) ==> !IsQuote(e[0]))
            && (v != "" && !IsQuote(v[|v| - 1]) ==> !IsQuote(e[|e| - 1]))
            && forall i :: 0 <= i < |e| ==> e[i] != '\n'
    decreases |v|
  {
    hide Escape, Plain;
    if v != "" {
      EscapeFacts(v[0], table);
      EscapedFacts(v[1..], table);
      var h, t := Escape(v[0], table), Escaped(v[1..], table);
      assert Escaped(v, table) == h + t;
      assert v == [v[0]] + v[1..];
      if |v| > 1 {
        assert v[1..][|v| - 2] == v[|v| - 1];
        assert (h + t)[|h + t| - 1] == t[|t| - 1];
      }
      if |h + t| == |v| {
        assert |h| == 1 && |t| == |v[1..]|;
        forall i | 0 <= i < |v| ensures Plain(v[i], table) {
          if i > 0 {
            assert v[1..][i - 1] == v[i];
          }
        }
      }
    }
  }

  lemma TrimQuoted(e: string)
    ensures Trim("\"" + e + "\"", IsQuote) == Trim(e, IsQuote)
  {
    TrimLeftSkips("\"", e + "\"", IsQuote);
    assert "\"" + e + "\"" == "\"" + (e + "\"");
    assert Trim("\"" + e + "\"", IsQuote) == Trim(e + "\"", IsQuote);
    TrimRightAppend(e, "\"", IsQuote);
    assert "\""[..0] == "";
    assert TrimRight("\"", IsQuote) == "";
    TrimOfTrimRight(e + "\"", IsQuote);
    TrimOfTrimRight(e, IsQuote);
  }

  lemma QuotedTight(e: string)
    ensures TrimSpace("\"" + e + "\"") == "\"" + e + "\""
  {
    TrimFixed("\"" + e + "\"", IsSpace);
  }

  lemma {:induction false} TrimNoQuotes(s: string)
    requires forall i :: 0 <= i < |s| ==> !IsQuote(s[i])
    ensures Trim(s, IsQuote) == s
  {
    TrimFixed(s, IsQuote);
  }

  lemma TrimSpaceWithin(s: string)
    ensures forall i :: 0 <= i < |TrimSpace(s)| ==> TrimSpace(s)[i] in s
  {
    TrimLeftResult(s, IsSpace);
    TrimRightResult(TrimLeft(s, IsSpace), IsSpace);
  }

  lemma QuotedBack(v: string, table: PrintTable)
    requires NeedsQuoting(v)
    ensures ReadBack(v, table) == v <==> (forall i :: 0 <= i < |v| ==> Plain(v[i], table)) && Tight(v, IsQuote)
  {
    hide Plain, TrimSpace, Trim, Tight, Escaped, NeedsQuoting;
    var e := Escaped(v, table);
    QuotedTight(e);
    TrimQuoted(e);
    EscapedFacts(v, table);
    TrimIsTight(e, IsQuote);
    TrimFixed(e, IsQuote);
    if Tight(v, IsQuote) {
      EndsUnquoted(v, e);
    }
  }

  lemma BareBack(v: string, table: PrintTable)
    requires !NeedsQuoting(v)
    ensures ReadBack(v, table) == v <==> Tight(v, IsSpace)
  {
    hide TrimSpace, Trim, Tight, Quote, IsQuote;
    TrimSpaceWithin(v);
    assert forall i :: 0 <= i < |v| ==> !IsQuote(v[i]);
    TrimNoQuotes(TrimSpace(v));
    TrimFixed(v, IsSpace);
    assert TrimSpace(v) == Trim(v, IsSpace) by { TrimSpaceIs(v); }
  }

  /** Printing and parsing a value gives it back exactly when it is a good value. */
  lemma ReadBackExact(v: string, table: PrintTable)
    ensures ReadBack(v, table) == v <==> GoodValue(v, table)
  {
    hide Plain, ReadBack, Tight, GoodValue, NeedsQuoting;
    GoodValueIs(v, table);
    if NeedsQuoting(v) {
      QuotedBack(v, table);
    } else {
      BareBack(v, table);
    }
  }

  lemma TrimSpaceIs(v: string)
    ensures TrimSpace(v) == Trim(v, IsSpace)
  {
  }

  lemma EndsUnquoted(v: string, e: string)
    requires NeedsQuoting(v) && Tight(v, IsQuote)
    requires |e| >= |v|
    requires !IsQuote(v[0]) ==> !IsQuote(e[0])
    requires !IsQuote(v[|v| - 1]) ==> !IsQuote(e[|e| - 1])
    ensures Tight(e, IsQuote)
  {
  }

  // ------------------------------------------------------------- one line

  /** Keys the printer and the parser agree on. */
  predicate GoodKey(k: string) {
    && Tight(k, IsSpace) && ToLower(k) == k && (k != "" ==> k[0] != '#')
    && forall i :: 0 <= i < |k| ==> k[i] != ':' && k[i] != '\n'
  }

  lemma TrimLeftFixed(s: string)
    requires s != "" && !IsSpace(s[0])
    ensures TrimLeft(s, IsSpace) == s
  {
  }

  /** Dropping a CR before trimming makes no difference. */
  lemma DropCRThenTrim(s: string)
    requires |s| > 1 && !IsSpace(s[0])
    ensures TrimSpace(DropCR(s)) == TrimRight(s, IsSpace)
  {
    TrimLeftFixed(s);
    TrimLeftFixed(DropCR(s));
    assert IsSpace('\r');
  }

  lemma {:induction false} ColonAfter(k: string, rest: string)
    requires forall i :: 0 <= i < |k| ==> k[i] != ':'
    ensures HasColon(k + ":" + rest) && IndexOfColon(k + ":" + rest) == |k|
    decreases |k|
  {
    var s := k + ":" + rest;
    assert s[|k|] == ':';
    if k != "" {
      assert s[0] == k[0] && s[1..] == k[1..] + ":" + rest;
      ColonAfter(k[1..], rest);
    }
  }

  lemma TrimOfSpaceThen(p: string)
    ensures Trim(" " + p, IsSpace) == Trim(p, IsSpace)
  {
    TrimLeftSkips(" ", p, IsSpace);
  }

  lemma LineTrimmed(k: string, p: string)
    requires GoodKey(k)
    ensures TrimSpace(DropCR(k + ": " + p)) == k + ":" + TrimRight(" " + p, IsSpace)
  {
    var raw := k + ": " + p;
    assert raw[0] == if k == "" then ':' else k[0];
    DropCRThenTrim(raw);
    assert raw == (k + ":") + (" " + p);
    TrimRightAppend(k + ":", " " + p, IsSpace);
    assert (k + ":")[|k|] == ':' && !IsSpace(':');
    assert TrimRight(k + ":", IsSpace) == k + ":";
  }

  lemma EntryReads(k: string, v: string, table: PrintTable)
    requires GoodKey(k)
    ensures ParseLine(EntryLine(k, v, table)) == Some((k, ReadBack(v, table)))
  {
    hide PrintedValue, DropCR, TrimRight, TrimLeft, IsSpace;
    var p := PrintedValue(v, table);
    var r := TrimRight(" " + p, IsSpace);
    LineTrimmed(k, p);
    ColonAfter(k, r);
    var line := k + ":" + r;
    assert line[0] == if k == "" then ':' else k[0];
    assert line[..|k|] == k && line[|k| + 1..] == r;
    TrimFixed(k, IsSpace);
    TrimOfTrimRight(" " + p, IsSpace);
    TrimOfSpaceThen(p);
  }

  lemma CommentReadsNothing(s: string)
    requires |s| > 1 && s[0] == '#'
    ensures ParseLine(s) == None
  {
    DropCRThenTrim(s);
    TrimRightKeepsFirst(s, IsSpace);
  }

  // ------------------------------------------------------------- the whole file

  predicate OneLine(s: string) {
    forall i :: 0 <= i < |s| ==> s[i] != '\n'
  }

  lemma {:induction false} SplitLine(a: string, rest: string)
    requires OneLine(a)
    ensures SplitLines(a + "\n" + rest) == [a] + SplitLines(rest)
    decreases |a|
  {
    var s := a + "\n" + rest;
    if a == "" {
      assert s[0] == '\n' && s[1..] == rest;
    } else {
      assert s[0] == a[0] && s[1..] == a[1..] + "\n" + rest;
      SplitLine(a[1..], rest);
      assert [a[0]] + a[1..] == a;
    }
  }

  lemma EntryIsOneLine(k: string, v: string, table: PrintTable)
    requires GoodKey(k)
    ensures OneLine(EntryLine(k, v, table))
  {
    EscapedFacts(v, table);
    hide Escaped;
  }

  function EntryLines(m: map<string, string>, keys: seq<string>, table: PrintTable): (lines: seq<string>)
    requires forall i :: 0 <= i < |keys| ==> keys[i] in m
    ensures |lines| == |keys|
  {
    if keys == [] then []
    else EntryLines(m, keys[..|keys| - 1], table) + [EntryLine(keys[|keys| - 1], m[keys[|keys| - 1]], table)]
  }

  lemma {:induction false} SplitEntries(m: map<string, string>, keys: seq<string>, table: PrintTable, rest: string)
    requires forall i :: 0 <= i < |keys| ==> keys[i] in m && GoodKey(keys[i])
    ensures SplitLines(PrintEntries(m, keys, table) + rest) == EntryLines(m, keys, table) + SplitLines(rest)
    decreases |keys|
  {
    hide EntryLine, GoodKey, SplitLines, OneLine;
    if keys == [] {
      assert "" + rest == rest;
      assert [] + SplitLines(rest) == SplitLines(rest);
    } else {
      var front, k := keys[..|keys| - 1], keys[|keys| - 1];
      var line := EntryLine(k, m[k], table);
      EntryIsOneLine(k, m[k], table);
      SplitLine(line, rest);
      var before, lines := PrintEntries(m, front, table), EntryLines(m, front, table);
      assert PrintEntries(m, keys, table) == before + line + "\n";
      assert (before + line + "\n") + rest == before + (line + "\n" + rest);
      SplitEntries(m, front, table, line + "\n" + rest);
      assert EntryLines(m, keys, table) == lines + [line];
      assert lines + ([line] + SplitLines(rest)) == (lines + [line]) + SplitLines(rest);
    }
  }

  predicate IsComment(s: string) {
    OneLine(s) && |s| > 1 && s[0] == '#'
  }

  lemma FirstComment()
    ensures IsComment(COMMENT1)
  {
  }

  lemma CommentGoesOn(a: string, b: string)
    requires IsComment(a) && OneLine(b)
    ensures IsComment(a + b)
  {
  }

  lemma SecondStart()
    ensures IsComment(COMMENT2_START)
  {
  }

  lemma SecondEnd()
    ensures OneLine(COMMENT2_END)
  {
  }

  lemma SecondComment()
    ensures IsComment(COMMENT2)
  {
    hide IsComment, OneLine;
    SecondStart();
    SecondEnd();
    CommentGoesOn(COMMENT2_START, COMMENT2_END);
  }

  lemma ThirdStart()
    ensures IsComment(COMMENT3_START)
  {
  }

  lemma ThirdEnd()
    ensures OneLine(COMMENT3_END)
  {
  }

  lemma ThirdComment()
    ensures IsComment(COMMENT3)
  {
    hide IsComment, OneLine;
    ThirdStart();
    ThirdEnd();
    CommentGoesOn(COMMENT3_START, COMMENT3_END);
  }

  lemma SplitThree(a: string, b: string, c: string, rest: string)
    requires OneLine(a) && OneLine(b) && OneLine(c)
    ensures SplitLines((a + "\n" + b + "\n" + c + "\n" + "\n") + rest) == [a, b, c, ""] + SplitLines(rest)
  {
    hide SplitLines, OneLine;
    var r3 := "" + "\n" + rest;
    var r2 := c + "\n" + r3;
    var r1 := b + "\n" + r2;
    EmptyIsOneLine();
    SplitLine("", rest);
    SplitLine(c, r3);
    SplitLine(b, r2);
    SplitLine(a, r1);
    assert (a + "\n" + b + "\n" + c + "\n" + "\n") + rest == a + "\n" + r1;
  }

  lemma EmptyIsOneLine()
    ensures OneLine("")
  {
  }

  lemma SplitHeader(rest: string)
    ensures SplitLines(HEADER + rest) == [COMMENT1, COMMENT2, COMMENT3, ""] + SplitLines(rest)
  {
    hide SplitLines, OneLine;
    FirstComment();
    SecondComment();
    ThirdComment();
    SplitThree(COMMENT1, COMMENT2, COMMENT3, rest);
  }

  lemma {:induction false} LoadAppend(m: map<string, string>, a: seq<string>, b: seq<string>)
    ensures Load(m, a + b) == Load(Load(m, a), b)
    decreases |b|
  {
    hide ParseLine;
    if b == [] {
      assert a + b == a;
    } else {
      assert (a + b)[..|a + b| - 1] == a + b[..|b| - 1];
      LoadAppend(m, a, b[..|b| - 1]);
    }
  }

  lemma HeaderLoadsNothing(m: map<string, string>)
    ensures Load(m, [COMMENT1, COMMENT2, COMMENT3, ""]) == m
  {
    hide ParseLine, OneLine;
    FirstComment();
    SecondComment();
    ThirdComment();
    FourSilent(m, COMMENT1, COMMENT2, COMMENT3);
  }

  lemma FourSilent(m: map<string, string>, a: string, b: string, c: string)
    requires IsComment(a) && IsComment(b) && IsComment(c)
    ensures Load(m, [a, b, c, ""]) == m
  {
    hide ParseLine, OneLine;
    CommentReadsNothing(a);
    CommentReadsNothing(b);
    CommentReadsNothing(c);
    BlankReadsNothing();
    LoadSilent(m, [], a);
    LoadSilent(m, [a], b);
    LoadSilent(m, [a, b], c);
    LoadSilent(m, [a, b, c], "");
    assert [] + [a] == [a];
    assert [a] + [b] == [a, b];
    assert [a, b] + [c] == [a, b, c];
    assert [a, b, c] + [""] == [a, b, c, ""];
  }

  lemma LoadSilent(m: map<string, string>, lines: seq<string>, last: string)
    requires ParseLine(last) == None
    ensures Load(m, lines + [last]) == Load(m, lines)
  {
    hide ParseLine;
    assert (lines + [last])[..|lines|] == lines;
  }

  lemma BlankReadsNothing()
    ensures ParseLine("") == None
  {
  }

  lemma {:induction false} LoadEntries(m: map<string, string>, keys: seq<string>, table: PrintTable)
    requires forall i :: 0 <= i < |keys| ==> keys[i] in m && GoodKey(keys[i])
    ensures Load(map[], EntryLines(m, keys, table)) == map k | k in keys :: ReadBack(m[k], table)
    decreases |keys|
  {
    hide ParseLine, EntryLine, GoodKey, ReadBack;
    if keys != [] {
      var front, k := keys[..|keys| - 1], keys[|keys| - 1];
      LoadEntries(m, front, table);
      EntryReads(k, m[k], table);
      var lines := EntryLines(m, keys, table);
      assert lines[..|lines| - 1] == EntryLines(m, front, table);
      assert keys == front + [k];
    }
  }

  /** A printed entry the scanner can hold. */
  predicate ShortEntry(k: string, v: string, table: PrintTable) {
    Utf8Length(EntryLine(k, v, table)) < MAX_SCAN_TOKEN_SIZE
  }

  lemma ShortHeader()
    ensures Utf8Length(COMMENT1) < MAX_SCAN_TOKEN_SIZE && Utf8Length(COMMENT2) < MAX_SCAN_TOKEN_SIZE
    ensures Utf8Length(COMMENT3) < MAX_SCAN_TOKEN_SIZE && Utf8Length("") < MAX_SCAN_TOKEN_SIZE
  {
    hide Utf8Length;
    Utf8Bound(COMMENT1);
    Utf8Bound(COMMENT2);
    Utf8Bound(COMMENT3);
    Utf8Bound("");
    ShortComments();
  }

  lemma ShortComments()
    ensures |COMMENT1| <= 100 && |COMMENT2| <= 100 && |COMMENT3| <= 100
  {
    assert |COMMENT2| == |COMMENT2_START| + |COMMENT2_END|;
    assert |COMMENT3| == |COMMENT3_START| + |COMMENT3_END|;
  }

  lemma {:induction false} EntryLinesAt(m: map<string, string>, keys: seq<string>, table: PrintTable)
    requires forall i :: 0 <= i < |keys| ==> keys[i] in m
    ensures forall i :: 0 <= i < |keys| ==> EntryLines(m, keys, table)[i] == EntryLine(keys[i], m[keys[i]], table)
    decreases |keys|
  {
    hide EntryLine;
    if keys != [] {
      EntryLinesAt(m, keys[..|keys| - 1], table);
    }
  }

  lemma EntryLinesTake(m: map<string, string>, keys: seq<string>, c: nat, table: PrintTable)
    requires c <= |keys| && forall i :: 0 <= i < |keys| ==> keys[i] in m
    ensures EntryLines(m, keys, table)[..c] == EntryLines(m, keys[..c], table)
  {
    hide EntryLines, EntryLine;
    EntryLinesAt(m, keys, table);
    EntryLinesAt(m, keys[..c], table);
  }

  /** The lines the scanner hands out of a printed file, up to the key before which it stops. */
  lemma ScannedFile(m: map<string, string>, keys: seq<string>, table: PrintTable) returns (c: nat)
    requires forall i :: 0 <= i < |keys| ==> keys[i] in m && GoodKey(keys[i])
    ensures c <= |keys|
    ensures Scanned(PrintFile(m, keys, table))
         == [COMMENT1, COMMENT2, COMMENT3, ""] + EntryLines(m, keys[..c], table)
    ensures forall i :: 0 <= i < c ==> ShortEntry(keys[i], m[keys[i]], table)
    ensures c < |keys| ==> !ShortEntry(keys[c], m[keys[c]], table)
  {
    hide SplitLines, EntryLines, EntryLine, PrintEntries, GoodKey, Utf8Length, UntilLong;
    var body := PrintEntries(m, keys, table);
    var header := [COMMENT1, COMMENT2, COMMENT3, ""];
    SplitHeader(body);
    assert body + "" == body;
    SplitEntries(m, keys, table, "");
    NoLines();
    var lines := EntryLines(m, keys, table);
    assert lines + [] == lines;
    ShortHeader();
    UntilLongAppend(header, lines, Utf8Length);
    c := UntilLongIs(lines, Utf8Length);
    EntryLinesAt(m, keys, table);
    EntryLinesTake(m, keys, c, table);
  }

  /** What loading the printed file gives: the entries before the first that the scanner cannot hold. */
  lemma LoadPrinted(m: map<string, string>, keys: seq<string>, table: PrintTable) returns (c: nat)
    requires forall k :: k in m <==> k in keys
    requires forall k :: k in m ==> GoodKey(k)
    ensures c <= |keys|
    ensures forall i :: 0 <= i < c ==> ShortEntry(keys[i], m[keys[i]], table)
    ensures c < |keys| ==> !ShortEntry(keys[c], m[keys[c]], table)
    ensures Load(map[], Scanned(PrintFile(m, keys, table))) == map k | k in keys[..c] :: ReadBack(m[k], table)
  {
    hide Load, Scanned, EntryLines, PrintFile, GoodKey, ReadBack, ShortEntry;
    c := ScannedFile(m, keys, table);
    var header := [COMMENT1, COMMENT2, COMMENT3, ""];
    LoadAppend(map[], header, EntryLines(m, keys[..c], table));
    HeaderLoadsNothing(map[]);
    LoadEntries(m, keys[..c], table);
  }

  lemma NoLines()
    ensures SplitLines("") == []
  {
  }

  lemma {:induction false} SplitIntoLines(text: string)
    ensures forall i :: 0 <= i < |SplitLines(text)| ==> OneLine(SplitLines(text)[i])
    decreases |text|
  {
    if text != "" {
      SplitIntoLines(text[1..]);
    }
  }

  lemma LowerKeepsEnds(s: string)
    requires Tight(s, IsSpace)
    ensures Tight(ToLower(s), IsSpace)
    ensures forall i :: 0 <= i < |s| && ToLower(s)[i] != s[i] ==> 'a' <= ToLower(s)[i] <= 'z'
  {
    hide IsSpace;
    LettersAreNoSpace();
  }

  lemma LettersAreNoSpace()
    ensures forall c {:trigger IsSpace(c)} :: 'a' <= c <= 'z' ==> !IsSpace(c)
  {
  }

  /** What is before the first colon of a trimmed line, trimmed and lower-cased, is a good key. */
  lemma KeyOfLine(line: string, i: nat)
    requires Tight(line, IsSpace) && OneLine(line)
    requires i < |line| && line[0] != '#' && forall n :: 0 <= n < i ==> line[n] != ':'
    ensures GoodKey(ToLower(TrimSpace(line[..i])))
  {
    hide IsSpace, TrimSpace, Trim;
    var head := line[..i];
    var k := TrimSpace(head);
    TrimSpaceIs(head);
    TrimIsTight(head, IsSpace);
    TrimSpaceWithin(head);
    LowerKeepsEnds(k);
    ToLowerIdempotent(k);
    if k != "" {
      TrimmedStart(head);
    }
    forall n | 0 <= n < |k| ensures ToLower(k)[n] != ':' && ToLower(k)[n] != '\n' {
      assert k[n] in head;
    }
  }

  lemma TrimmedStart(head: string)
    requires head != "" ==> !IsSpace(head[0])
    ensures TrimSpace(head) != "" ==> TrimSpace(head)[0] == head[0]
  {
    TrimRightResult(head, IsSpace);
  }

  lemma ParsedKeyIsGood(raw: string)
    requires OneLine(raw)
    ensures ParseLine(raw).Some? ==> GoodKey(ParseLine(raw).value.0)
  {
    hide TrimSpace, GoodKey;
    var line := TrimSpace(DropCR(raw));
    if ParseLine(raw).Some? {
      TrimSpaceIs(DropCR(raw));
      TrimIsTight(DropCR(raw), IsSpace);
      TrimSpaceWithin(DropCR(raw));
      forall n | 0 <= n < |line| ensures line[n] != '\n' {
        assert line[n] in DropCR(raw);
      }
      KeyOfLine(line, IndexOfColon(line));
    }
  }

  lemma {:induction false} LoadedKeysAreGood(lines: seq<string>)
    requires forall i :: 0 <= i < |lines| ==> OneLine(lines[i])
    ensures forall k :: k in Load(map[], lines) ==> GoodKey(k)
    decreases |lines|
  {
    hide ParseLine, GoodKey, OneLine;
    if lines != [] {
      LoadedKeysAreGood(lines[..|lines| - 1]);
      ParsedKeyIsGood(lines[|lines| - 1]);
    }
  }

  /** An entry that survives: good key, good value, and not too long for a line. */
  predicate GoodEntry(k: string, v: string, table: PrintTable) {
    GoodKey(k) && GoodValue(v, table) && ShortEntry(k, v, table)
  }

  /**
   Writing a map and loading the file gives the map back exactly when every entry is good, in
   whatever order the keys are written.
   */
  lemma FileRoundTripExact(m: map<string, string>, keys: seq<string>, table: PrintTable)
    requires forall k :: k in m <==> k in keys
    ensures Load(map[], Scanned(PrintFile(m, keys, table))) == m
       <==> forall k :: k in m ==> GoodEntry(k, m[k], table)
  {
    hide Load, Scanned, PrintFile, GoodKey, ReadBack, GoodValue, ShortEntry;
    if forall k :: k in m ==> GoodKey(k) {
      var c := LoadPrinted(m, keys, table);
      LoadedExactly(m, keys, c, table);
    } else {
      ScannedKeysAreGood(PrintFile(m, keys, table));
    }
  }

  lemma LoadedExactly(m: map<string, string>, keys: seq<string>, c: nat, table: PrintTable)
    requires forall k :: k in m <==> k in keys
    requires forall k :: k in m ==> GoodKey(k)
    requires c <= |keys| && forall i :: 0 <= i < c ==> ShortEntry(keys[i], m[keys[i]], table)
    requires c < |keys| ==> !ShortEntry(keys[c], m[keys[c]], table)
    ensures (map k | k in keys[..c] :: ReadBack(m[k], table)) == m
       <==> forall k :: k in m ==> GoodEntry(k, m[k], table)
  {
    hide GoodKey, ReadBack, GoodValue, ShortEntry;
    var back := map k | k in keys[..c] :: ReadBack(m[k], table);
    forall k | k in keys[..c] ensures back[k] == m[k] <==> GoodValue(m[k], table) {
      ReadBackExact(m[k], table);
    }
    if c < |keys| {
      assert keys[c] !in back;
    } else {
      assert keys[..c] == keys;
      forall k | k in m ensures ShortEntry(k, m[k], table) {
        var i :| 0 <= i < |keys| && keys[i] == k;
      }
      if back == m {
        forall k | k in m ensures GoodEntry(k, m[k], table) {
          assert back[k] == m[k];
        }
      }
    }
  }

  lemma ScannedKeysAreGood(text: string)
    ensures forall k :: k in Load(map[], Scanned(text)) ==> GoodKey(k)
  {
    hide SplitLines, UntilLong, GoodKey, OneLine, Load;
    SplitIntoLines(text);
    var c := UntilLongIs(SplitLines(text), Utf8Length);
    LoadedKeysAreGood(Scanned(text));
  }

  // ------------------------------------------------------------- the tiers

  const ENV_ONLY_KEYS: set<string> := {
    "site_url", "agent_token", "vpn_provider", "vpn_download_only", "vpn_proxy_addr",
    "nntp_server", "nntp_ssl", "nntp_connections", "nntp_user", "nntp_pass",
    "nntp_group", "nntp_poster", "nntp_from", "nntp_domain"
  }

  /** kk can get this value from the updates, through a key that lower-cases to it. */
  predicate Updates(updates: map<string, string>, kk: string, v: string) {
    kk !in ENV_ONLY_KEYS && exists k :: k in updates && ToLower(k) == kk && updates[k] == v
  }

  class Layered {
    var yml: map<string, string>
    var env: map<string, string>
    var web: map<string, string>
    var file: string
    var writable: bool
    const table: PrintTable

    constructor (file: string, env: map<string, string>, writable: bool, table: PrintTable)
      ensures this.file == file && this.env == env && this.writable == writable && this.table == table
      ensures yml == Load(map[], Scanned(file)) && web == map[]
    {
      this.file, this.env, this.writable, this.table := file, env, writable, table;
      web := map[];
      yml := map[];
      new;
      LoadYml();
    }

    method LoadYml()
      modifies this`yml
      ensures yml == Load(old(yml), Scanned(file))
    {
      hide ParseLine, Scanned;
      var lines := Scanned(file);
      ghost var start := yml;
      for i := 0 to |lines|
        invariant yml == Load(start, lines[..i])
      {
        assert lines[..i + 1][..i] == lines[..i];
        var kv := ParseLine(lines[i]);
        if kv.Some? {
          yml := yml[kv.value.0 := kv.value.1];
        }
      }
      assert lines[..|lines|] == lines;
    }

    /** What the machine itself says: env over yml, empty settings of env not counting. */
    function Local(key: string): string
      reads this`env, this`yml
    {
      if key in env && env[key] != "" then env[key]
      else if key in yml then yml[key]
      else ""
    }

    /** web over env over yml; empty overrides do not count. */
    function Effective(key: string): (v: string)
      reads this
      ensures key in web && web[key] != "" ==> v == web[key]
      ensures (key !in web || web[key] == "") && key in env && env[key] != "" ==> v == env[key]
      ensures (key !in web || web[key] == "") && (key !in env || env[key] == "") ==>
                v == if key in yml then yml[key] else ""
    {
      if key in web && web[key] != "" then web[key] else Local(key)
    }

    /** Replaces the web tier; nothing of the earlier overrides survives. */
    method ApplyWeb(m: map<string, string>)
      modifies this`web
      ensures forall kk :: kk in web <==> exists k :: k in m && ToLower(k) == kk
      ensures forall kk :: kk in web ==> exists k :: k in m && ToLower(k) == kk && web[kk] == m[k]
      ensures forall kk :: Effective(kk) == old(Local(kk)) || (Effective(kk) != "" && kk in web && Effective(kk) == web[kk])
    {
      web := map[];
      var rest := m.Keys;
      while rest != {}
        invariant rest <= m.Keys
        invariant forall kk :: kk in web ==> exists k :: k in m && ToLower(k) == kk && web[kk] == m[k]
        invariant forall k :: k in m && k !in rest ==> ToLower(k) in web
        decreases |rest|
      {
        var k :| k in rest;
        web := web[ToLower(k) := m[k]];
        rest := rest - {k};
      }
    }

    /** The merge loop: allowed updates go into the yml tier, and their names are listed. */
    method Merge(updates: map<string, string>) returns (names: seq<string>)
      modifies this`yml
      ensures forall kk :: kk in yml <==> kk in old(yml) || kk in names
      ensures forall kk :: kk in names ==> kk in yml && Updates(updates, kk, yml[kk])
      ensures forall kk :: kk in yml && kk !in names ==> kk in old(yml) && yml[kk] == old(yml)[kk]
      ensures forall kk :: kk in names <==> exists v :: Updates(updates, kk, v)
    {
      hide ToLower;
      names := [];
      var rest := updates.Keys;
      while rest != {}
        invariant rest <= updates.Keys
        invariant forall kk :: kk in yml <==> kk in old(yml) || kk in names
        invariant forall kk :: kk in names ==> kk in yml && Updates(updates, kk, yml[kk])
        invariant forall kk :: kk in yml && kk !in names ==> kk in old(yml) && yml[kk] == old(yml)[kk]
        invariant forall k :: k in updates && k !in rest && ToLower(k) !in ENV_ONLY_KEYS ==> ToLower(k) in names
        decreases |rest|
      {
        var k :| k in rest;
        rest := rest - {k};
        var kk := ToLower(k);
        if kk !in ENV_ONLY_KEYS {
          assert Updates(updates, kk, updates[k]);
          yml := yml[kk := updates[k]];
          names := names + [kk];
        }
      }
      UpdatedNames(updates, names);
    }

    /**
     Merges the updates into the yml tier and rewrites the file. Keys of the environment are never
     written. When the disk fails, the file stays as it was although the yml tier has changed.
     */
    method WriteYml(updates: map<string, string>, diskOk: bool) returns (written: Option<seq<string>>)
      modifies this`yml, this`file
      ensures !writable ==> written == None && yml == old(yml) && file == old(file)
      ensures writable ==>
                && (forall kk :: kk in yml <==> kk in old(yml) || exists v :: Updates(updates, kk, v))
                && (forall kk :: kk in yml ==>
                      Updates(updates, kk, yml[kk]) || (kk in old(yml) && yml[kk] == old(yml)[kk]))
                && (forall kk :: kk in yml && (exists v :: Updates(updates, kk, v)) ==> Updates(updates, kk, yml[kk]))
      ensures writable && !diskOk ==> written == None && file == old(file)
      ensures writable && diskOk ==>
                && written.Some? && Sorted(written.value)
                && (forall kk :: kk in written.value <==> exists v :: Updates(updates, kk, v))
                && exists keys: seq<string> ::
                     && Sorted(keys) && (forall k :: k in yml <==> k in keys)
                     && file == PrintFile(yml, keys, table)
    {
      hide PrintFile, Updates, SortedBy, SortBy;
      if !writable {
        return None;
      }
      var names := Merge(updates);
      var keys := SortedKeys(yml);
      var text := PrintLoop(yml, keys, table);
      if !diskOk {
        return None;
      }
      file := text;
      written := Some(Sort(names));
      SortResult(names, Itself);
      SameMembers(names, Sort(names));
    }
  }

  /** Clearing the web settings brings back the machine's own, whatever was overridden before. */
  method OverrideAndReset(l: Layered, m: map<string, string>)
    modifies l`web
    ensures forall kk :: l.Effective(kk) == old(l.Local(kk))
  {
    l.ApplyWeb(m);
    l.ApplyWeb(map[]);
  }

  /** What an update can change: every key but those of the environment, in whatever case it is written. */
  lemma UpdatesExactly(updates: map<string, string>, kk: string, v: string)
    ensures Updates(updates, kk, v) <==>
              && (exists k :: k in updates && ToLower(k) == kk && updates[k] == v)
              && kk !in {"agent_token", "nntp_connections", "nntp_domain", "nntp_from", "nntp_group", "nntp_pass",
                         "nntp_poster", "nntp_server", "nntp_ssl", "nntp_user", "site_url", "vpn_download_only",
                         "vpn_provider", "vpn_proxy_addr"}
  {
    hide ToLower;
  }

  lemma UpdatedNames(updates: map<string, string>, names: seq<string>)
    requires forall kk :: kk in names ==> exists v :: Updates(updates, kk, v)
    requires forall k :: k in updates && ToLower(k) !in ENV_ONLY_KEYS ==> ToLower(k) in names
    ensures forall kk :: kk in names <==> exists v :: Updates(updates, kk, v)
  {
  }

  method SortedKeys(m: map<string, string>) returns (keys: seq<string>)
    ensures Sorted(keys)
    ensures forall k :: k in m <==> k in keys
  {
    hide SortedBy, SortBy;
    var names: seq<string> := [];
    var rest := m.Keys;
    while rest != {}
      invariant rest <= m.Keys
      invariant forall k :: k in m && k !in rest <==> k in names
      decreases |rest|
    {
      var k :| k in rest;
      rest := rest - {k};
      names := names + [k];
    }
    keys := Sort(names);
    SortResult(names, Itself);
    SameMembers(names, keys);
  }

  lemma PrintOneMore(m: map<string, string>, keys: seq<string>, i: nat, table: PrintTable)
    requires i < |keys| && forall k :: k in keys ==> k in m
    ensures PrintEntries(m, keys[..i + 1], table)
         == PrintEntries(m, keys[..i], table) + (EntryLine(keys[i], m[keys[i]], table) + "\n")
  {
    hide EntryLine;
    assert keys[..i + 1][..i] == keys[..i];
  }

  method PrintLoop(m: map<string, string>, keys: seq<string>, table: PrintTable) returns (text: string)
    requires forall k :: k in keys ==> k in m
    ensures text == PrintFile(m, keys, table)
  {
    hide NeedsQuoting, Quote, PrintEntries;
    text := HEADER;
    NothingPrinted(m, table);
    for i := 0 to |keys|
      invariant text == HEADER + PrintEntries(m, keys[..i], table)
    {
      var k := keys[i];
      var v := m[k];
      PrintOneMore(m, keys, i, table);
      if NeedsQuoting(v) {
        text := text + (k + ": " + Quote(v, table) + "\n");
      } else {
        text := text + (k + ": " + v + "\n");
      }
    }
    assert keys[..|keys|] == keys;
  }

  lemma NothingPrinted(m: map<string, string>, table: PrintTable)
    ensures HEADER + PrintEntries(m, [], table) == HEADER
  {
  }

  /** A saved configuration is read back by the next start of the agent exactly when it is good. */
  method SaveAndRestart(l: Layered, updates: map<string, string>) returns (next: Layered)
    requires l.writable
    modifies l`yml, l`file
    ensures next.yml == l.yml <==> forall k :: k in l.yml ==> GoodEntry(k, l.yml[k], l.table)
  {
    hide GoodEntry, Load, Scanned, PrintFile;
    var _ := l.WriteYml(updates, true);
    next := new Layered(l.file, map[], true, l.table);
    ghost var keys: seq<string> :| (forall k :: k in l.yml <==> k in keys) && l.file == PrintFile(l.yml, keys, l.table);
    FileRoundTripExact(l.yml, keys, l.table);
  }
}
