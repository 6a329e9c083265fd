/**
 CRC combination by matrices over GF(2). A register map that is linear over xor is stored as
 32 columns; squaring a matrix in place composes the map with itself, so the loop of
 crc32CombineIEEE reaches "feed 8 * len2 zero bits" in O(log len2) squarings.
 */
module Gf2 {
  import opened Bytes
  import opened Crc32

  const WIDTH := 32

  type Matrix = m: seq<bv32> | |m| == WIDTH witness seq(WIDTH, i => 0)

  /** The product of the columns from i on with the bits of v. */
  function TimesFrom(m: Matrix, v: bv32, i: nat): bv32
    requires i <= WIDTH
    decreases WIDTH - i
  {
    if i == WIDTH then 0
    else Xor(if Odd(v) then m[i] else 0, TimesFrom(m, v >> 1, i + 1))
  }

  function Times(m: Matrix, v: bv32): bv32 {
    TimesFrom(m, v, 0)
  }

  function Square(m: Matrix): Matrix {
    seq(WIDTH, i requires 0 <= i < WIDTH => Times(m, m[i]))
  }

  // ------------------------------------------------------------- linear algebra

  lemma ZeroShifts()
    ensures !Odd(0) && (0 as bv32) >> 1 == 0
  {
  }

  lemma {:induction false} TimesZero(m: Matrix, i: nat)
    requires i <= WIDTH
    ensures TimesFrom(m, 0, i) == 0
    decreases WIDTH - i
  {
    hide Xor, Odd;
    ZeroShifts();
    XorUnit(0);
    if i < WIDTH {
      TimesZero(m, i + 1);
    }
  }

  lemma {:induction false} TimesLinear(m: Matrix, x: bv32, y: bv32, i: nat)
    requires i <= WIDTH
    ensures TimesFrom(m, Xor(x, y), i) == Xor(TimesFrom(m, x, i), TimesFrom(m, y, i))
    decreases WIDTH - i
  {
    hide Xor, Odd;
    if i == WIDTH {
      XorUnit(0);
    } else {
      var x', y' := x >> 1, y >> 1;
      TimesLinear(m, x', y', i + 1);
      XorShift(x, y);
      XorLowBit(x, y);
      var cx, cy := if Odd(x) then m[i] else 0, if Odd(y) then m[i] else 0;
      XorPairs(cx, TimesFrom(m, x', i + 1), cy, TimesFrom(m, y', i + 1));
      XorUnit(m[i]);
      XorUnit(0);
    }
  }

  lemma {:induction false} SquareFrom(m: Matrix, v: bv32, i: nat)
    requires i <= WIDTH
    ensures TimesFrom(Square(m), v, i) == Times(m, TimesFrom(m, v, i))
    decreases WIDTH - i
  {
    hide Xor, Odd;
    TimesZero(m, 0);
    if i < WIDTH {
      var v' := v >> 1;
      SquareFrom(m, v', i + 1);
      TimesLinear(m, if Odd(v) then m[i] else 0, TimesFrom(m, v', i + 1), 0);
    }
  }

  /** Squaring a matrix composes its map with itself, whatever the matrix. */
  lemma SquareComposes(m: Matrix, v: bv32)
    ensures Times(Square(m), v) == Times(m, Times(m, v))
  {
    SquareFrom(m, v, 0);
  }

  // --------------------------------------------------- the one-bit shift matrix

  /** m is the matrix of "feed n zero bits". */
  ghost predicate Shifts(m: Matrix, n: nat) {
    forall v: bv32 :: Times(m, v) == ShiftBits(v, n)
  }

  lemma SquareDoubles(m: Matrix, n: nat)
    requires Shifts(m, n)
    ensures Shifts(Square(m), 2 * n)
  {
    forall v: bv32 ensures Times(Square(m), v) == ShiftBits(v, 2 * n) {
      SquareComposes(m, v);
      assert Times(m, v) == ShiftBits(v, n);
      assert Times(m, ShiftBits(v, n)) == ShiftBits(ShiftBits(v, n), n);
      ShiftBitsAdd(v, n, n);
    }
  }

  function Double(v: bv32): bv32 {
    v << 1
  }

  /** v moved up i places. */
  function Up(v: bv32, i: nat): bv32
    decreases i
  {
    if i == 0 then v else Up(Double(v), i - 1)
  }

  /** The bit 1 moved up i places. */
  function Unit(i: nat): bv32 {
    if i == 0 then 1 else Double(Unit(i - 1))
  }

  predicate IsOneBitMatrix(m: Matrix) {
    m[0] == POLY && forall i :: 1 <= i < WIDTH ==> m[i] == Unit(i - 1)
  }

  lemma UpStep(v: bv32)
    ensures v == Xor(if Odd(v) then 1 else 0, Double(v >> 1))
  {
    assert v == (v & 1) ^ ((v >> 1) << 1);
    assert v & 1 == 0 || v & 1 == 1;
    if Odd(v) {
      assert Xor(1, (v >> 1) << 1) == 1 ^ ((v >> 1) << 1);
    } else {
      XorUnit((v >> 1) << 1);
    }
  }

  lemma XorLeftShift(x: bv32, y: bv32)
    ensures Double(Xor(x, y)) == Xor(Double(x), Double(y))
  {
    calc {
      Double(Xor(x, y));
      Xor(x, y) << 1;
      (x ^ y) << 1;
      (x << 1) ^ (y << 1);
      Xor(x << 1, y << 1);
    }
  }

  lemma {:induction false} UpLinear(x: bv32, y: bv32, i: nat)
    ensures Up(Xor(x, y), i) == Xor(Up(x, i), Up(y, i))
    decreases i
  {
    hide Xor, Double;
    if i > 0 {
      XorLeftShift(x, y);
      UpLinear(Double(x), Double(y), i - 1);
    }
  }

  lemma {:induction false} UpBit(v: bv32, i: nat)
    ensures Up(Double(v), i) == Double(Up(v, i))
    decreases i
  {
    hide Double;
    if i > 0 {
      UpBit(Double(v), i - 1);
    }
  }

  lemma {:induction false} UpUnit(one: bv32, i: nat)
    requires one == 1
    ensures Up(one, i) == Unit(i)
    decreases i
  {
    hide Double;
    if i > 0 {
      UpUnit(one, i - 1);
      UpBit(one, i - 1);
    }
  }

  lemma {:induction false} UpZero(v: bv32, i: nat)
    requires v == 0
    ensures Up(v, i) == 0
    decreases i
  {
    if i > 0 {
      UpZero(Double(v), i - 1);
    }
  }

  /** Dropping the low bit n times leaves nothing. */
  predicate Fits(v: bv32, n: nat) {
    if n == 0 then v == 0 else Fits(v >> 1, n - 1)
  }

  lemma FitsFour(v: bv32, n: nat)
    requires Fits(v >> 4, n)
    ensures Fits(v, n + 4)
  {
    var v1 := v >> 1;
    var v2 := v1 >> 1;
    var v3 := v2 >> 1;
    FourSingles(v);
    assert Fits(v3, n + 1);
    assert Fits(v2, n + 2);
    assert Fits(v1, n + 3);
  }

  lemma FourSingles(v: bv32)
    ensures (((v >> 1) >> 1) >> 1) >> 1 == v >> 4
  {
  }

  lemma FitsEight(v: bv32, n: nat)
    requires Fits(v >> 8, n)
    ensures Fits(v, n + 8)
  {
    hide Fits;
    assert (v >> 4) >> 4 == v >> 8;
    FitsFour(v >> 4, n);
    FitsFour(v, n + 4);
  }

  lemma FitsSixteen(v: bv32, n: nat)
    requires Fits(v >> 16, n)
    ensures Fits(v, n + 16)
  {
    hide Fits;
    assert (v >> 8) >> 8 == v >> 16;
    FitsEight(v >> 8, n);
    FitsEight(v, n + 8);
  }

  lemma EveryWordFits(v: bv32)
    ensures Fits(v, WIDTH)
  {
    assert (v >> 16) >> 16 == 0;
    FitsSixteen(v >> 16, 0);
    FitsSixteen(v, 16);
  }

  lemma {:induction false} OneBitTail(m: Matrix, v: bv32, i: nat)
    requires IsOneBitMatrix(m)
    requires 1 <= i <= WIDTH && Fits(v, WIDTH - i)
    ensures TimesFrom(m, v, i) == Up(v, i - 1)
    decreases WIDTH - i
  {
    hide Xor, Odd;
    if i == WIDTH {
      UpZero(v, i - 1);
    } else {
      var bit := if Odd(v) then 1 else 0;
      OneBitTail(m, v >> 1, i + 1);
      UpStep(v);
      UpLinear(bit, Double(v >> 1), i - 1);
      UpZero(0, i - 1);
      UpUnit(1, i - 1);
    }
  }

  lemma OneBitMatrixShifts(m: Matrix)
    requires IsOneBitMatrix(m)
    ensures Shifts(m, 1)
  {
    forall v: bv32 ensures Times(m, v) == ShiftBits(v, 1) {
      OneBitTimes(m, v);
    }
  }

  lemma OneBitTimes(m: Matrix, v: bv32)
    requires IsOneBitMatrix(m)
    ensures Times(m, v) == ShiftBits(v, 1)
  {
    hide Xor, Odd;
    EveryWordFits(v);
    OneBitTail(m, v >> 1, 1);
    XorCommutes(POLY, v >> 1);
    XorUnit(v >> 1);
    assert ShiftBits(v, 1) == ShiftBits(ShiftBit(v), 0);
  }

  // ------------------------------------------------------- the code, on arrays

  method GF2MatrixTimes(mat: array<bv32>, v: bv32) returns (sum: bv32)
    requires mat.Length == WIDTH
    ensures sum == Times(mat[..], v)
  {
    sum := 0;
    var vec := v;
    var i := 0;
    ghost var m: Matrix := mat[..];
    EveryWordFits(v);
    XorUnit(Times(m, v));
    while vec != 0
      invariant 0 <= i <= WIDTH
      invariant Fits(vec, WIDTH - i)
      invariant Xor(sum, TimesFrom(m, vec, i)) == Times(m, v)
      decreases WIDTH - i
    {
      hide Xor, Odd;
      ghost var column, rest := if Odd(vec) then mat[i] else 0, TimesFrom(m, vec >> 1, i + 1);
      XorAssociates(sum, column, rest);
      XorUnit(sum);
      if Odd(vec) {
        sum := Xor(sum, mat[i]);
      }
      vec := vec >> 1;
      i := i + 1;
    }
    TimesZero(m, i);
    XorUnit(sum);
  }

  method GF2MatrixSquare(square: array<bv32>, mat: array<bv32>)
    requires square.Length == WIDTH && mat.Length == WIDTH && square != mat
    modifies square
    ensures square[..] == Square(mat[..])
    ensures mat[..] == old(mat[..])
  {
    for i := 0 to WIDTH
      invariant mat[..] == old(mat[..])
      invariant forall k :: 0 <= k < i ==> square[k] == Square(mat[..])[k]
    {
      square[i] := GF2MatrixTimes(mat, mat[i]);
    }
  }

  /** What combination computes, as a function of the two CRCs and the second length. */
  function Combined(crc1: bv32, crc2: bv32, len2: int): bv32 {
    if len2 <= 0 then crc1 else Xor(ShiftBits(crc1, 8 * len2), crc2)
  }

  method OneBitMatrix() returns (odd: array<bv32>)
    ensures fresh(odd) && odd.Length == WIDTH
    ensures IsOneBitMatrix(odd[..])
  {
    odd := new bv32[WIDTH];
    odd[0] := POLY;
    var row: bv32 := 1;
    for i := 1 to WIDTH
      invariant row == Unit(i - 1)
      invariant odd[0] == POLY
      invariant forall k :: 1 <= k < i ==> odd[k] == Unit(k - 1)
    {
      odd[i] := row;
      row := Double(row);
    }
  }

  /** Takes bit `k` of the length: `done` bytes are in, `pending` units of `unit` bytes remain. */
  lemma Halve(done: nat, pending: nat, unit: nat)
    ensures done + pending * unit
         == done + (if pending % 2 == 1 then unit else 0) + (pending / 2) * (2 * unit)
  {
    assert pending == 2 * (pending / 2) + pending % 2;
    calc {
      pending * unit;
      (2 * (pending / 2) + pending % 2) * unit;
      (pending / 2) * (2 * unit) + (pending % 2) * unit;
    }
  }

  lemma Advance(crc: bv32, done: nat, unit: nat)
    ensures ShiftBits(ShiftBits(crc, 8 * done), 8 * unit) == ShiftBits(crc, 8 * (done + unit))
  {
    ShiftBitsAdd(crc, 8 * done, 8 * unit);
  }

  method Crc32CombineIEEE(crc1: bv32, crc2: bv32, len2: int) returns (r: bv32)
    ensures r == Combined(crc1, crc2, len2)
    ensures forall a, b :: Checksum(a) == crc1 && Checksum(b) == crc2 && |b| == len2 ==> r == Checksum(a + b)
  {
    hide Xor, Times, Square, ShiftBits, Checksum;
    forall a, b | Checksum(a) == crc1 && Checksum(b) == crc2 && |b| == len2
      ensures Combined(crc1, crc2, len2) == Checksum(a + b)
    {
      CombineIsConcat(a, b);
    }
    if len2 <= 0 {
      return crc1;
    }
    var odd := OneBitMatrix();
    var even := new bv32[WIDTH];
    OneBitMatrixShifts(odd[..]);
    GF2MatrixSquare(even, odd);
    SquareDoubles(odd[..], 1);
    SquareDoubles(even[..], 2);
    GF2MatrixSquare(odd, even);

    var crc := crc1;
    var l := len2;
    ghost var done: nat, unit: nat := 0, 1;
    NoBits(crc1);
    while true
      invariant l > 0
      invariant unit > 0
      invariant Shifts(odd[..], 4 * unit)
      invariant done + l * unit == len2
      invariant crc == ShiftBits(crc1, 8 * done)
      decreases l
    {
      SquareDoubles(odd[..], 4 * unit);
      GF2MatrixSquare(even, odd);
      Halve(done, l, unit);
      Advance(crc1, done, unit);
      if l % 2 != 0 {
        crc := GF2MatrixTimes(even, crc);
        done := done + unit;
      }
      l := l / 2;
      if l == 0 {
        break;
      }
      SquareDoubles(even[..], 8 * unit);
      GF2MatrixSquare(odd, even);
      Halve(done, l, 2 * unit);
      Advance(crc1, done, 2 * unit);
      if l % 2 != 0 {
        crc := GF2MatrixTimes(odd, crc);
        done := done + 2 * unit;
      }
      l := l / 2;
      unit := 4 * unit;
      if l == 0 {
        break;
      }
    }
    r := Xor(crc, crc2);
  }

  // ----------------------------------------------------------- what it is for

  /** Combining two checksums gives the checksum of the concatenation. */
  lemma CombineIsConcat(a: seq<byte>, b: seq<byte>)
    ensures Combined(Checksum(a), Checksum(b), |b|) == Checksum(a + b)
  {
    if b == [] {
      assert a + b == a;
    } else {
      ChecksumConcat(a, b);
    }
  }
}
