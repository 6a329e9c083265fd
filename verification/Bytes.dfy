/** Bytes on the wire, and the decimal and hexadecimal forms Go's `%d` and `%08x` print. */
module Bytes {
  import opened Wrappers

  type byte = bv8

  const CR: byte := 13
  const LF: byte := 10
  const CRLF: seq<byte> := [CR, LF]

  // ---------------------------------------------------------------- decimal

  function DigitByte(d: nat): (b: byte)
    requires d < 10
    ensures IsDigit(b) && DigitValue(b) == d
  {
    match d
    case 0 => 48
    case 1 => 49
    case 2 => 50
    case 3 => 51
    case 4 => 52
    case 5 => 53
    case 6 => 54
    case 7 => 55
    case 8 => 56
    case _ => 57
  }

  predicate IsDigit(b: byte) {
    48 <= b <= 57
  }

  function DigitValue(b: byte): (d: nat)
    requires IsDigit(b)
    ensures d < 10
  {
    if b == 48 then 0 else if b == 49 then 1 else if b == 50 then 2 else if b == 51 then 3
    else if b == 52 then 4 else if b == 53 then 5 else if b == 54 then 6 else if b == 55 then 7
    else if b == 56 then 8 else 9
  }

  /** `%d` of a non-negative number. */
  function Decimal(n: nat): (s: seq<byte>)
    ensures |s| > 0
    ensures forall i :: 0 <= i < |s| ==> IsDigit(s[i])
  {
    if n < 10 then [DigitByte(n)] else Decimal(n / 10) + [DigitByte(n % 10)]
  }

  predicate AllDigits(s: seq<byte>) {
    forall i :: 0 <= i < |s| ==> IsDigit(s[i])
  }

  function DecimalValue(s: seq<byte>): nat
    requires AllDigits(s)
  {
    if s == [] then 0 else 10 * DecimalValue(s[..|s| - 1]) + DigitValue(s[|s| - 1])
  }

  lemma {:induction false} DecimalRoundTrip(n: nat)
    ensures DecimalValue(Decimal(n)) == n
  {
    if n < 10 {
      assert Decimal(n)[..0] == [];
    } else {
      DecimalRoundTrip(n / 10);
      var s := Decimal(n);
      assert s[..|s| - 1] == Decimal(n / 10);
    }
  }

  /** The number of leading digits of s. */
  function DigitRun(s: seq<byte>): (k: nat)
    ensures k <= |s|
    ensures AllDigits(s[..k])
    ensures k < |s| ==> !IsDigit(s[k])
  {
    if s == [] || !IsDigit(s[0]) then 0
    else
      var k := DigitRun(s[1..]);
      assert s[..k + 1] == [s[0]] + s[1..][..k];
      k + 1
  }

  /** Reads a non-empty run of digits and returns its value and what follows it. */
  function ReadDecimal(s: seq<byte>): Option<(nat, seq<byte>)> {
    var k := DigitRun(s);
    if k == 0 then None else Some((DecimalValue(s[..k]), s[k..]))
  }

  lemma {:induction false} DigitRunOfDigits(d: seq<byte>, rest: seq<byte>)
    requires AllDigits(d)
    requires rest != [] ==> !IsDigit(rest[0])
    ensures DigitRun(d + rest) == |d|
  {
    if d == [] {
      assert d + rest == rest;
    } else {
      assert (d + rest)[1..] == d[1..] + rest;
      DigitRunOfDigits(d[1..], rest);
    }
  }

  lemma {:induction false} ReadDecimalInverts(n: nat, rest: seq<byte>)
    requires rest != [] ==> !IsDigit(rest[0])
    ensures ReadDecimal(Decimal(n) + rest) == Some((n, rest))
  {
    var d := Decimal(n);
    DigitRunOfDigits(d, rest);
    DecimalRoundTrip(n);
    assert (d + rest)[..|d|] == d;
    assert (d + rest)[|d|..] == rest;
  }

  // ------------------------------------------------------------ hexadecimal

  function NibbleByte(x: bv32): (b: byte) {
    if x == 0 then 48 else if x == 1 then 49 else if x == 2 then 50 else if x == 3 then 51
    else if x == 4 then 52 else if x == 5 then 53 else if x == 6 then 54 else if x == 7 then 55
    else if x == 8 then 56 else if x == 9 then 57 else if x == 10 then 97 else if x == 11 then 98
    else if x == 12 then 99 else if x == 13 then 100 else if x == 14 then 101 else 102
  }

  function NibbleValue(b: byte): Option<bv32> {
    if 48 <= b <= 57 then Some((b - 48) as bv32)
    else if 97 <= b <= 102 then Some((b - 87) as bv32)
    else None
  }

  lemma NibbleRoundTrip(x: bv32)
    requires x < 16
    ensures NibbleValue(NibbleByte(x)) == Some(x)
  {
  }

  /** `%0nx` of the low n nibbles of x. */
  function Hex(x: bv32, n: nat): (s: seq<byte>)
    ensures |s| == n
  {
    if n == 0 then [] else Hex(x >> 4, n - 1) + [NibbleByte(x & 15)]
  }

  function HexValue(s: seq<byte>): Option<bv32> {
    if s == [] then Some(0)
    else
      match HexValue(s[..|s| - 1])
      case None => None
      case Some(hi) =>
        match NibbleValue(s[|s| - 1])
        case None => None
        case Some(lo) => Some(Join(hi, lo))
  }

  /** Dropping the low nibble n times leaves nothing. */
  predicate InNibbles(x: bv32, n: nat) {
    if n == 0 then x == 0 else InNibbles(x >> 4, n - 1)
  }

  function Join(hi: bv32, lo: bv32): bv32 {
    (hi << 4) | lo
  }

  lemma JoinSplits(x: bv32)
    ensures Join(x >> 4, x & 15) == x
    ensures x & 15 < 16
  {
  }

  lemma {:induction false} HexInverts(x: bv32, n: nat)
    requires InNibbles(x, n)
    ensures HexValue(Hex(x, n)) == Some(x)
  {
    hide Join, NibbleByte, NibbleValue;
    if n > 0 {
      HexInverts(x >> 4, n - 1);
      JoinSplits(x);
      NibbleRoundTrip(x & 15);
      assert Hex(x, n)[..n - 1] == Hex(x >> 4, n - 1);
    }
  }

  lemma InNibblesTwo(x: bv32, n: nat)
    requires InNibbles(x >> 8, n)
    ensures InNibbles(x, n + 2)
  {
    assert (x >> 4) >> 4 == x >> 8;
  }

  lemma InNibblesFour(x: bv32, n: nat)
    requires InNibbles(x >> 16, n)
    ensures InNibbles(x, n + 4)
  {
    assert (x >> 8) >> 8 == x >> 16;
    InNibblesTwo(x >> 8, n);
    InNibblesTwo(x, n + 2);
  }

  lemma InNibblesEight(x: bv32)
    ensures InNibbles(x, 8)
  {
    assert (x >> 16) >> 16 == 0;
    InNibblesFour(x >> 16, 0);
    InNibblesFour(x, 4);
  }

  lemma HexRoundTrip(x: bv32)
    ensures HexValue(Hex(x, 8)) == Some(x)
  {
    InNibblesEight(x);
    HexInverts(x, 8);
  }

  // ---------------------------------------------------------------- sequences

  function Concat(parts: seq<seq<byte>>): seq<byte> {
    if parts == [] then [] else parts[0] + Concat(parts[1..])
  }

  lemma {:induction false} ConcatAppend(parts: seq<seq<byte>>, last: seq<byte>)
    ensures Concat(parts + [last]) == Concat(parts) + last
  {
    if parts == [] {
      assert parts + [last] == [last];
      assert Concat([last]) == last + Concat([]);
    } else {
      assert (parts + [last])[1..] == parts[1..] + [last];
      ConcatAppend(parts[1..], last);
    }
  }
}
