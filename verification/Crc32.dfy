/**
 The CRC-32 of section 8 of RFC 1952 (reflected polynomial 0xedb88320), defined one bit at a
 time, and the two laws the upload pipeline rests on: the register map is linear over xor, and
 the CRC of a concatenation is an affine function of the two CRCs.
 */
module Crc32 {
  import opened Bytes

  const POLY: bv32 := 0xedb88320
  const ONES: bv32 := 0xffffffff

  function Xor(x: bv32, y: bv32): bv32 {
    x ^ y
  }

  /** Feed one zero bit. */
  function ShiftBit(r: bv32): bv32 {
    if Odd(r) then Xor(r >> 1, POLY) else r >> 1
  }

  /** Feed n zero bits. */
  function ShiftBits(r: bv32, n: nat): bv32
    decreases n
  {
    if n == 0 then r else ShiftBits(ShiftBit(r), n - 1)
  }

  function Feed(r: bv32, b: byte): bv32 {
    ShiftBits(Xor(r, b as bv32), 8)
  }

  function Register(r: bv32, data: seq<byte>): bv32
    decreases |data|
  {
    if data == [] then r else Register(Feed(r, data[0]), data[1..])
  }

  /** What crc32.ChecksumIEEE returns. */
  function Checksum(data: seq<byte>): bv32 {
    Xor(Register(ONES, data), ONES)
  }

  // ---------------------------------------------------------------- xor

  lemma XorAssociates(x: bv32, y: bv32, z: bv32)
    ensures Xor(Xor(x, y), z) == Xor(x, Xor(y, z))
  {
    calc {
      Xor(Xor(x, y), z);
      Xor(x ^ y, z);
      (x ^ y) ^ z;
      x ^ (y ^ z);
      Xor(x, y ^ z);
    }
  }

  lemma XorCommutes(x: bv32, y: bv32)
    ensures Xor(x, y) == Xor(y, x)
  {
  }

  lemma XorUnit(x: bv32)
    ensures Xor(x, 0) == x && Xor(0, x) == x
    ensures Xor(x, x) == 0
  {
  }

  lemma XorRegroup(x: bv32, y: bv32, z: bv32)
    ensures Xor(Xor(x, y), z) == Xor(Xor(x, z), y)
    ensures Xor(Xor(x, y), z) == Xor(y, Xor(x, z))
  {
    hide Xor;
    XorAssociates(x, y, z);
    XorCommutes(y, z);
    XorAssociates(x, z, y);
    XorCommutes(Xor(x, z), y);
  }

  lemma XorCancel(x: bv32, y: bv32)
    ensures Xor(Xor(x, y), y) == x
  {
    hide Xor;
    XorAssociates(x, y, y);
    XorUnit(x);
    XorUnit(y);
  }

  lemma XorPairs(a: bv32, b: bv32, c: bv32, d: bv32)
    ensures Xor(Xor(a, b), Xor(c, d)) == Xor(Xor(a, c), Xor(b, d))
  {
    hide Xor;
    XorAssociates(a, b, Xor(c, d));
    XorAssociates(b, c, d);
    XorCommutes(b, c);
    XorAssociates(c, b, d);
    XorAssociates(a, c, Xor(b, d));
  }

  lemma XorShift(x: bv32, y: bv32)
    ensures Xor(x, y) >> 1 == Xor(x >> 1, y >> 1)
  {
    calc {
      Xor(x, y) >> 1;
      (x ^ y) >> 1;
      (x >> 1) ^ (y >> 1);
      Xor(x >> 1, y >> 1);
    }
  }

  predicate Odd(x: bv32) {
    x & 1 == 1
  }

  lemma XorLowBit(x: bv32, y: bv32)
    ensures Odd(Xor(x, y)) <==> Odd(x) != Odd(y)
  {
    LowBitOfXor(x, y);
    assert Xor(x, y) == x ^ y;
  }

  lemma LowBitOfXor(x: bv32, y: bv32)
    ensures (x ^ y) & 1 == 1 <==> (x & 1 == 1) != (y & 1 == 1)
  {
  }

  // ---------------------------------------------------------------- linearity

  lemma ShiftBitLinear(x: bv32, y: bv32)
    ensures ShiftBit(Xor(x, y)) == Xor(ShiftBit(x), ShiftBit(y))
  {
    hide Xor, Odd;
    var u, v := x >> 1, y >> 1;
    XorShift(x, y);
    XorLowBit(x, y);
    if Odd(x) && Odd(y) {
      XorPairs(u, POLY, v, POLY);
      XorUnit(POLY);
      XorUnit(Xor(u, v));
    } else if Odd(x) {
      XorRegroup(u, v, POLY);
    } else if Odd(y) {
      XorAssociates(u, v, POLY);
    }
  }

  lemma {:induction false} ShiftBitsLinear(x: bv32, y: bv32, n: nat)
    ensures ShiftBits(Xor(x, y), n) == Xor(ShiftBits(x, n), ShiftBits(y, n))
    decreases n
  {
    hide Xor, ShiftBit;
    if n > 0 {
      ShiftBitLinear(x, y);
      ShiftBitsLinear(ShiftBit(x), ShiftBit(y), n - 1);
    }
  }

  lemma {:induction false} ShiftBitsAdd(x: bv32, m: nat, n: nat)
    ensures ShiftBits(ShiftBits(x, m), n) == ShiftBits(x, m + n)
    decreases m
  {
    hide Xor, ShiftBit;
    if m > 0 {
      ShiftBitsAdd(ShiftBit(x), m - 1, n);
    }
  }

  /** Changing the start value by y changes the final register by y shifted through the data. */
  lemma {:induction false} RegisterAffine(x: bv32, y: bv32, data: seq<byte>)
    ensures Register(Xor(x, y), data) == Xor(Register(x, data), ShiftBits(y, 8 * |data|))
    decreases |data|
  {
    hide Xor, ShiftBit, ShiftBits;
    if data == [] {
      NoBits(y);
    } else {
      FeedLinear(x, y, data[0]);
      RegisterAffine(Feed(x, data[0]), ShiftBits(y, 8), data[1..]);
      ShiftBitsAdd(y, 8, 8 * |data[1..]|);
    }
  }

  lemma NoBits(y: bv32)
    ensures ShiftBits(y, 0) == y
  {
  }

  lemma FeedLinear(x: bv32, y: bv32, b: byte)
    ensures Feed(Xor(x, y), b) == Xor(Feed(x, b), ShiftBits(y, 8))
  {
    hide Xor, ShiftBit, ShiftBits;
    XorRegroup(x, y, b as bv32);
    ShiftBitsLinear(Xor(x, b as bv32), y, 8);
  }

  lemma {:induction false} RegisterConcat(x: bv32, a: seq<byte>, b: seq<byte>)
    ensures Register(x, a + b) == Register(Register(x, a), b)
    decreases |a|
  {
    hide Feed;
    if a == [] {
      assert a + b == b;
    } else {
      assert (a + b)[1..] == a[1..] + b;
      RegisterConcat(Feed(x, a[0]), a[1..], b);
    }
  }

  /** The affine law: CRC(a ++ b) = Z^(8|b|)(CRC(a)) xor CRC(b). */
  lemma ChecksumConcat(a: seq<byte>, b: seq<byte>)
    ensures Checksum(a + b) == Xor(ShiftBits(Checksum(a), 8 * |b|), Checksum(b))
  {
    hide Xor, ShiftBit, ShiftBits, Feed, Register;
    RegisterConcat(ONES, a, b);
    XorCancel(Register(ONES, a), ONES);
    XorCommutes(ONES, Checksum(a));
    RegisterAffine(ONES, Checksum(a), b);
    XorRegroup(Register(ONES, b), ShiftBits(Checksum(a), 8 * |b|), ONES);
  }

  lemma ChecksumEmpty()
    ensures Checksum([]) == 0
  {
  }

  // ----------------------------------------------- the table form of RFC 1952

  /** One entry of the table that make_crc_table of RFC 1952 builds. */
  function TableEntry(n: bv32): bv32 {
    ShiftBits(n, 8)
  }

  /** The byte step of update_crc in section 8 of RFC 1952. */
  function TableFeed(r: bv32, b: byte): bv32 {
    Xor(TableEntry(Xor(r, b as bv32) & 0xff), r >> 8)
  }

  function TableRegister(r: bv32, data: seq<byte>): bv32
    decreases |data|
  {
    if data == [] then r else TableRegister(TableFeed(r, data[0]), data[1..])
  }

  lemma EvenShift(x: bv32)
    requires x & 1 == 0
    ensures ShiftBit(x) == x >> 1
  {
    hide Xor;
  }

  lemma OneMore(x: bv32, n: nat)
    ensures ShiftBits(x, n + 1) == ShiftBits(ShiftBit(x), n)
  {
    hide ShiftBit;
  }

  lemma LowTwoBits(x: bv32)
    requires x & 3 == 0
    ensures x & 1 == 0 && (x >> 1) & 1 == 0
    ensures (x >> 1) >> 1 == x >> 2
  {
  }

  lemma TwoEvenShifts(x: bv32, n: nat)
    requires x & 3 == 0
    ensures ShiftBits(x, n + 2) == ShiftBits(x >> 2, n)
  {
    hide Xor, ShiftBit, ShiftBits;
    LowTwoBits(x);
    EvenShift(x);
    EvenShift(x >> 1);
    OneMore(x, n + 1);
    OneMore(x >> 1, n);
  }

  lemma LowFourBits(x: bv32)
    requires x & 15 == 0
    ensures x & 3 == 0 && (x >> 2) & 3 == 0
    ensures (x >> 2) >> 2 == x >> 4
  {
  }

  lemma FourEvenShifts(x: bv32, n: nat)
    requires x & 15 == 0
    ensures ShiftBits(x, n + 4) == ShiftBits(x >> 4, n)
  {
    hide Xor, ShiftBit, ShiftBits;
    LowFourBits(x);
    TwoEvenShifts(x, n + 2);
    TwoEvenShifts(x >> 2, n);
  }

  lemma LowEightBits(x: bv32)
    requires x & 0xff == 0
    ensures x & 15 == 0 && (x >> 4) & 15 == 0
    ensures (x >> 4) >> 4 == x >> 8
  {
  }

  /** Eight zero bits leave the register by the low end unchanged. */
  lemma HighBitsSlide(x: bv32)
    requires x & 0xff == 0
    ensures ShiftBits(x, 8) == x >> 8
  {
    hide Xor, ShiftBit, ShiftBits;
    LowEightBits(x);
    FourEvenShifts(x, 4);
    FourEvenShifts(x >> 4, 0);
    NoBits(x >> 8);
  }

  lemma SplitShift(lo: bv32, hi: bv32)
    requires hi & 0xff == 0
    ensures ShiftBits(Xor(lo, hi), 8) == Xor(TableEntry(lo), hi >> 8)
  {
    hide Xor, ShiftBit, ShiftBits;
    ShiftBitsLinear(lo, hi, 8);
    HighBitsSlide(hi);
  }

  lemma SplitLowByte(x: bv32)
    ensures x == Xor(x & 0xff, x & 0xffffff00)
    ensures (x & 0xffffff00) & 0xff == 0
    ensures (x & 0xffffff00) >> 8 == x >> 8
  {
    calc {
      Xor(x & 0xff, x & 0xffffff00);
      (x & 0xff) ^ (x & 0xffffff00);
      x;
    }
  }

  lemma ByteLeavesHighBits(r: bv32, b: byte)
    ensures Xor(r, b as bv32) >> 8 == r >> 8
  {
    calc {
      Xor(r, b as bv32) >> 8;
      (r ^ (b as bv32)) >> 8;
      r >> 8;
    }
  }

  lemma TableFeedIsFeed(r: bv32, b: byte)
    ensures TableFeed(r, b) == Feed(r, b)
  {
    hide Xor, ShiftBit, ShiftBits, TableEntry;
    var x := Xor(r, b as bv32);
    SplitLowByte(x);
    SplitShift(x & 0xff, x & 0xffffff00);
    ByteLeavesHighBits(r, b);
  }

  /** The table-driven program of RFC 1952 computes the bitwise register. */
  lemma {:induction false} TableRegisterIsRegister(r: bv32, data: seq<byte>)
    ensures TableRegister(r, data) == Register(r, data)
    decreases |data|
  {
    hide Feed, TableFeed;
    if data != [] {
      TableFeedIsFeed(r, data[0]);
      TableRegisterIsRegister(Feed(r, data[0]), data[1..]);
    }
  }

  // ----------------------------------------------- a file that ends in its own checksum

  /** The word without its low byte. */
  function DropByte(w: bv32): bv32 {
    w >> 8
  }

  function LowByte(w: bv32): byte {
    (w & 0xff) as byte
  }

  /** The bytes of a word, low byte first. */
  function LowFirst(w: bv32, n: nat): (s: seq<byte>)
    ensures |s| == n
  {
    if n == 0 then [] else [LowByte(w)] + LowFirst(DropByte(w), n - 1)
  }

  /** The word is zero above its n low bytes. */
  predicate Gone(w: bv32, n: nat)
    decreases n
  {
    if n == 0 then w == 0 else Gone(DropByte(w), n - 1)
  }

  lemma LowByteIs(w: bv32)
    ensures LowByte(w) as bv32 == w & 0xff
    ensures DropByte(w) == w >> 8
  {
  }

  lemma LowByteApart(r: bv32, w: bv32)
    ensures Xor(r, w) == Xor(Xor(r, LowByte(w) as bv32), w & 0xffffff00)
    ensures (w & 0xffffff00) & 0xff == 0 && (w & 0xffffff00) >> 8 == DropByte(w)
  {
    hide Xor, LowByte, DropByte;
    LowByteIs(w);
    SplitLowByte(w);
    XorAssociates(r, w & 0xff, w & 0xffffff00);
  }

  /** The low byte of a word, added to the register first, goes in as a byte of data would. */
  lemma LowByteFed(r: bv32, w: bv32)
    ensures ShiftBits(Xor(r, w), 8) == Xor(Feed(r, LowByte(w)), DropByte(w))
  {
    hide Xor, ShiftBit, ShiftBits, LowByte, DropByte;
    LowByteApart(r, w);
    SplitShift(Xor(r, LowByte(w) as bv32), w & 0xffffff00);
  }

  /** Feeding a word byte by byte is feeding zero bits after adding it at once. */
  lemma {:induction false} WordFed(r: bv32, w: bv32, n: nat)
    requires Gone(w, n)
    ensures Register(r, LowFirst(w, n)) == ShiftBits(Xor(r, w), 8 * n)
    decreases n
  {
    hide Xor, ShiftBit, ShiftBits, LowByte, DropByte, Feed;
    if n == 0 {
      XorUnit(r);
      NoBits(r);
    } else {
      var f := Feed(r, LowByte(w));
      LowByteFed(r, w);
      ShiftBitsAdd(Xor(r, w), 8, 8 * (n - 1));
      WordFed(f, DropByte(w), n - 1);
      assert LowFirst(w, n)[1..] == LowFirst(DropByte(w), n - 1);
    }
  }

  lemma NothingLeft(w: bv32)
    ensures DropByte(DropByte(DropByte(DropByte(w)))) == 0
    ensures w & 0xff == w ==> DropByte(w) == 0
  {
  }

  lemma FourBytesGone(w: bv32)
    ensures Gone(w, 4)
  {
    hide DropByte;
    NothingLeft(w);
    var x := DropByte(w);
    var y := DropByte(x);
    assert Gone(DropByte(y), 1);
    assert Gone(y, 2);
    assert Gone(x, 3);
  }

  lemma EightMore(x: bv32, n: nat)
    ensures ShiftBits(x, n + 8)
         == ShiftBits(ShiftBit(ShiftBit(ShiftBit(ShiftBit(ShiftBit(ShiftBit(ShiftBit(ShiftBit(x)))))))), n)
  {
    hide ShiftBit;
    var y := ShiftBit(ShiftBit(ShiftBit(ShiftBit(x))));
    OneMore(x, n + 7);
    OneMore(ShiftBit(x), n + 6);
    OneMore(ShiftBit(ShiftBit(x)), n + 5);
    OneMore(ShiftBit(ShiftBit(ShiftBit(x))), n + 4);
    OneMore(y, n + 3);
    OneMore(ShiftBit(y), n + 2);
    OneMore(ShiftBit(ShiftBit(y)), n + 1);
    OneMore(ShiftBit(ShiftBit(ShiftBit(y))), n);
  }

  lemma OnesShifted()
    ensures ShiftBits(ONES, 32) == 0xdebb20e3
  {
    hide ShiftBits;
    EightMore(0xffffffff, 24);
    EightMore(0x2dfd1072, 16);
    EightMore(0xbe26ed00, 8);
    EightMore(0x00be26ed, 0);
    NoBits(0xdebb20e3);
  }

  lemma ComplementOf(x: bv32)
    requires x == 0xdebb20e3
    ensures Xor(x, ONES) == 0x2144df1c
  {
  }

  /** Whatever the data, followed by its own checksum it always has the same one. */
  lemma ResidueIsConstant(data: seq<byte>)
    ensures Checksum(data + LowFirst(Checksum(data), 4)) == 0x2144df1c
  {
    hide Xor, ShiftBit, ShiftBits, Register, LowFirst, Gone;
    var r := Register(ONES, data);
    var w := Checksum(data);
    RegisterConcat(ONES, data, LowFirst(w, 4));
    FourBytesGone(w);
    WordFed(r, w, 4);
    XorCancel(ONES, r);
    XorCommutes(r, ONES);
    XorCommutes(r, w);
    OnesShifted();
    ComplementOf(ShiftBits(ONES, 32));
  }
}
