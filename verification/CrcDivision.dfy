/**
 Which CRC the register computes: the remainder on division by the generator of section 8 of
 RFC 1952, over polynomials with coefficients in GF(2). A polynomial is the set of its exponents.
 */
module CrcDivision {
  import opened Bytes
  import opened Crc32

  type Poly = set<nat>

  function Plus(p: Poly, q: Poly): Poly {
    (p - q) + (q - p)
  }

  /** Multiplication by x^k. */
  function Raised(p: Poly, k: nat): Poly {
    set e | e in p :: e + k
  }

  /** The product of a quotient, its bits from the highest down, and a divisor. */
  function Product(q: seq<bool>, divisor: Poly): Poly {
    if q == [] then {} else Plus(Raised(Chosen(q[0], divisor), |q| - 1), Product(q[1..], divisor))
  }

  function Chosen(b: bool, p: Poly): Poly {
    if b then p else {}
  }

  function Half(w: bv32): bv32 {
    w >> 1
  }

  /** The low n bits of a word, the lowest bit being the coefficient of x^(n-1). */
  function PolyOf(w: bv32, n: nat): Poly
    decreases n
  {
    if n == 0 then {} else (if Odd(w) then {n - 1} else {}) + PolyOf(Half(w), n - 1)
  }

  /** The bytes as one polynomial, the first byte highest, each byte low bit first. */
  function Message(data: seq<byte>): Poly {
    if data == [] then {}
    else Plus(Raised(PolyOf(data[0] as bv32, 8), 8 * |data[1..]|), Message(data[1..]))
  }

  // ------------------------------------------------------------- polynomials

  lemma PlusCommutes(p: Poly, q: Poly)
    ensures Plus(p, q) == Plus(q, p)
  {
  }

  lemma PlusAssociates(p: Poly, q: Poly, r: Poly)
    ensures Plus(Plus(p, q), r) == Plus(p, Plus(q, r))
  {
  }

  lemma PlusUnit(p: Poly)
    ensures Plus(p, {}) == p && Plus({}, p) == p && Plus(p, p) == {}
  {
  }

  lemma PlusPairs(a: Poly, b: Poly, c: Poly, d: Poly)
    ensures Plus(Plus(a, b), Plus(c, d)) == Plus(Plus(a, c), Plus(b, d))
  {
  }

  lemma RaisedPlus(p: Poly, q: Poly, k: nat)
    ensures Raised(Plus(p, q), k) == Plus(Raised(p, k), Raised(q, k))
  {
    var l, r := Raised(Plus(p, q), k), Plus(Raised(p, k), Raised(q, k));
    forall e ensures e in l <==> e in r {
      if e in l {
        var f :| f in Plus(p, q) && e == f + k;
        assert f in p || f in q;
      }
      if e in r {
        if e in Raised(p, k) {
          var f :| f in p && e == f + k;
          assert f !in q;
          assert f in Plus(p, q);
        } else {
          var f :| f in q && e == f + k;
          assert f !in p;
          assert f in Plus(p, q);
        }
      }
    }
  }

  lemma RaisedTwice(p: Poly, k: nat, m: nat)
    ensures Raised(Raised(p, k), m) == Raised(p, k + m)
  {
    forall e | e in Raised(p, k + m) ensures e in Raised(Raised(p, k), m) {
      var f :| f in p && e == f + (k + m);
      assert f + k in Raised(p, k);
    }
  }

  lemma RaisedZero(p: Poly, k: nat)
    ensures Raised(p, 0) == p && Raised({}, k) == {}
  {
    forall e | e in p ensures e in Raised(p, 0) {
      assert e + 0 == e;
    }
  }

  lemma {:induction false} ProductConcat(q: seq<bool>, t: seq<bool>, divisor: Poly)
    ensures Product(q + t, divisor) == Plus(Raised(Product(q, divisor), |t|), Product(t, divisor))
    decreases |q|
  {
    hide Raised, Plus, Chosen;
    if q == [] {
      assert q + t == t;
      RaisedZero({}, |t|);
      PlusUnit(Product(t, divisor));
    } else {
      var head := Raised(Chosen(q[0], divisor), |q| - 1);
      assert (q + t)[1..] == q[1..] + t;
      ProductConcat(q[1..], t, divisor);
      RaisedTwice(Chosen(q[0], divisor), |q| - 1, |t|);
      RaisedPlus(head, Product(q[1..], divisor), |t|);
      PlusAssociates(Raised(head, |t|), Raised(Product(q[1..], divisor), |t|), Product(t, divisor));
    }
  }

  // ------------------------------------------------------------- words as polynomials

  lemma {:induction false} PolyBound(w: bv32, n: nat)
    ensures forall e :: e in PolyOf(w, n) ==> e < n
    decreases n
  {
    if n > 0 {
      PolyBound(Half(w), n - 1);
    }
  }

  lemma XorHalf(x: bv32, y: bv32)
    ensures Half(Xor(x, y)) == Xor(Half(x), Half(y))
  {
    hide Xor;
    XorShift(x, y);
  }

  lemma {:induction false} PolyXor(x: bv32, y: bv32, n: nat)
    ensures PolyOf(Xor(x, y), n) == Plus(PolyOf(x, n), PolyOf(y, n))
    decreases n
  {
    hide Xor, Odd, Half;
    if n > 0 {
      XorLowBit(x, y);
      XorHalf(x, y);
      PolyXor(Half(x), Half(y), n - 1);
      PolyBound(Half(x), n - 1);
      PolyBound(Half(y), n - 1);
    }
  }

  /** Nothing is left of the word after n shifts. */
  predicate Within(w: bv32, n: nat)
    decreases n
  {
    if n == 0 then w == 0 else Within(Half(w), n - 1)
  }

  lemma PolyZero(n: nat)
    ensures PolyOf(0, n) == {} && Within(0, n)
    decreases n
  {
    if n > 0 {
      PolyZero(n - 1);
    }
  }

  lemma PolyStep(w: bv32, n: nat)
    ensures PolyOf(w, n + 1) == Chosen(Odd(w), {n}) + PolyOf(Half(w), n)
    ensures Within(w, n + 1) <==> Within(Half(w), n)
  {
  }

  lemma RaisedChosen(b: bool, n: nat)
    ensures Raised(Chosen(b, {n}), 1) == Chosen(b, {n + 1})
  {
  }

  lemma WithinNothing(w: bv32)
    requires Within(w, 0)
    ensures w == 0
  {
  }

  lemma {:induction false} OneMoreBit(w: bv32, n: nat)
    requires Within(w, n)
    ensures PolyOf(w, n + 1) == Raised(PolyOf(w, n), 1) && Within(w, n + 1)
    decreases n
  {
    hide *;
    if n == 0 {
      WithinNothing(w);
      PolyZero(0);
      PolyZero(1);
      RaisedZero({}, 1);
    } else {
      PolyStep(w, n);
      PolyStep(w, n - 1);
      OneMoreBit(Half(w), n - 1);
      RaisedChosen(Odd(w), n - 1);
      RaisedUnion(Chosen(Odd(w), {n - 1}), PolyOf(Half(w), n - 1));
    }
  }

  lemma RaisedUnion(p: Poly, q: Poly)
    ensures Raised(p + q, 1) == Raised(p, 1) + Raised(q, 1)
  {
  }

  lemma {:induction false} MoreBits(w: bv32, n: nat, k: nat)
    requires Within(w, n)
    ensures PolyOf(w, n + k) == Raised(PolyOf(w, n), k) && Within(w, n + k)
    decreases k
  {
    hide PolyOf, Within, Raised;
    if k == 0 {
      RaisedZero(PolyOf(w, n), 0);
    } else {
      MoreBits(w, n, k - 1);
      OneMoreBit(w, n + k - 1);
      RaisedTwice(PolyOf(w, n), k - 1, 1);
    }
  }

  lemma EightHalves(w: bv32)
    ensures DropByte(w) == Half(Half(Half(Half(Half(Half(Half(Half(w))))))))
  {
  }

  lemma {:induction false} EightShifts(w: bv32, n: nat)
    requires Within(DropByte(w), n)
    ensures Within(w, n + 8)
  {
    hide *;
    EightHalves(w);
    var a := Half(w);
    var b := Half(a);
    var c := Half(b);
    var d := Half(c);
    var e := Half(d);
    var f := Half(e);
    var g := Half(f);
    PolyStep(g, n);
    PolyStep(f, n + 1);
    PolyStep(e, n + 2);
    PolyStep(d, n + 3);
    PolyStep(c, n + 4);
    PolyStep(b, n + 5);
    PolyStep(a, n + 6);
    PolyStep(w, n + 7);
  }

  lemma WordWithin(w: bv32)
    ensures Within(w, 32)
    ensures w & 0xff == w ==> Within(w, 8)
  {
    hide Within, DropByte;
    NothingLeft(w);
    PolyZero(0);
    EightShifts(DropByte(DropByte(DropByte(w))), 0);
    EightShifts(DropByte(DropByte(w)), 8);
    EightShifts(DropByte(w), 16);
    EightShifts(w, 24);
    if w & 0xff == w {
      EightShifts(w, 0);
    }
  }

  /** The polynomial of a word whose bits after the low byte are t. */
  function ByteAbove(w: bv32, n: nat, t: Poly): Poly {
    var a := Half(w);
    var b := Half(a);
    var c := Half(b);
    var d := Half(c);
    var e := Half(d);
    var f := Half(e);
    var g := Half(f);
    Chosen(Odd(w), {n + 7}) + (Chosen(Odd(a), {n + 6}) + (Chosen(Odd(b), {n + 5}) + (Chosen(Odd(c), {n + 4})
    + (Chosen(Odd(d), {n + 3}) + (Chosen(Odd(e), {n + 2}) + (Chosen(Odd(f), {n + 1}) + (Chosen(Odd(g), {n}) + t)))))))
  }

  lemma PolyByte(w: bv32, n: nat)
    ensures PolyOf(w, n + 8) == ByteAbove(w, n, PolyOf(DropByte(w), n))
  {
    hide PolyOf, Odd, Half, DropByte, Chosen;
    EightHalves(w);
    var a := Half(w);
    var b := Half(a);
    var c := Half(b);
    var d := Half(c);
    var e := Half(d);
    var f := Half(e);
    var g := Half(f);
    PolyStep(g, n);
    PolyStep(f, n + 1);
    PolyStep(e, n + 2);
    PolyStep(d, n + 3);
    PolyStep(c, n + 4);
    PolyStep(b, n + 5);
    PolyStep(a, n + 6);
    PolyStep(w, n + 7);
  }

  /** The generator of section 8 of RFC 1952. */
  const GENERATOR: Poly := {32, 26, 23, 22, 16, 12, 11, 10, 8, 7, 5, 4, 2, 1, 0}

  lemma FourBytes(w: bv32, x: bv32, y: bv32, z: bv32)
    requires DropByte(w) == x && DropByte(x) == y && DropByte(y) == z && DropByte(z) == 0
    ensures PolyOf(w, 32) == ByteAbove(w, 24, ByteAbove(x, 16, ByteAbove(y, 8, ByteAbove(z, 0, {}))))
  {
    hide PolyOf, ByteAbove, DropByte;
    PolyByte(w, 24);
    PolyByte(x, 16);
    PolyByte(y, 8);
    PolyByte(z, 0);
    PolyZero(0);
  }

  lemma GeneratorBytes(t: Poly)
    ensures ByteAbove(0xed, 0, {}) == {7, 5, 4, 2, 1, 0}
    ensures ByteAbove(0xedb8, 8, t) == {12, 11, 10, 8} + t
    ensures ByteAbove(0xedb883, 16, t) == {23, 22, 16} + t
    ensures ByteAbove(0xedb88320, 24, t) == {26} + t
  {
  }

  lemma ReflectedGenerator()
    ensures PolyOf(POLY, 32) == GENERATOR - {32}
  {
    hide PolyOf, ByteAbove;
    FourBytes(0xedb88320, 0xedb883, 0xedb8, 0xed);
    var t0: Poly := {7, 5, 4, 2, 1, 0};
    var t1: Poly := {12, 11, 10, 8, 7, 5, 4, 2, 1, 0};
    var t2: Poly := {23, 22, 16, 12, 11, 10, 8, 7, 5, 4, 2, 1, 0};
    GeneratorBytes(t0);
    GeneratorBytes(t1);
    GeneratorBytes(t2);
    assert {12, 11, 10, 8} + t0 == t1;
    assert {23, 22, 16} + t1 == t2;
    assert GENERATOR - {32} == {26} + t2;
  }

  /** Every power of x below x^n. */
  function Below(n: nat): (p: Poly)
    ensures forall e: nat :: e in p <==> e < n
  {
    if n == 0 then {} else Below(n - 1) + {n - 1}
  }

  lemma OnesByte(w: bv32, n: nat)
    requires w & 0xff == 0xff
    ensures ByteAbove(w, n, Below(n)) == Below(n + 8)
  {
    hide Half, Odd, Below;
    LowBits(w);
  }

  lemma LowBits(w: bv32)
    requires w & 0xff == 0xff
    ensures Odd(w) && Odd(Half(w)) && Odd(Half(Half(w))) && Odd(Half(Half(Half(w))))
    ensures Odd(Half(Half(Half(Half(w))))) && Odd(Half(Half(Half(Half(Half(w))))))
    ensures Odd(Half(Half(Half(Half(Half(Half(w)))))))
    ensures Odd(Half(Half(Half(Half(Half(Half(Half(w))))))))
  {
  }

  lemma AllOnes()
    ensures PolyOf(ONES, 32) == Below(32)
  {
    hide PolyOf, ByteAbove, Below;
    FourBytes(0xffffffff, 0xffffff, 0xffff, 0xff);
    assert Below(0) == {};
    OnesByte(0xff, 0);
    OnesByte(0xffff, 8);
    OnesByte(0xffffff, 16);
    OnesByte(0xffffffff, 24);
  }

  // ------------------------------------------------------------- the register divides

  lemma TopFalls(p: Poly, g: Poly, top: nat)
    requires top !in p && top in g
    ensures {top} + p == Plus(Plus(p, g - {top}), g)
  {
  }

  /** One zero bit is multiplication by x, less the generator when the top coefficient falls out. */
  lemma ShiftDivides(r: bv32)
    ensures Raised(PolyOf(r, 32), 1) == Plus(PolyOf(ShiftBit(r), 32), Chosen(Odd(r), GENERATOR))
  {
    hide PolyOf, Half, Odd, Within, Plus, Raised, ShiftBit, Xor;
    var h := Half(r);
    WordWithin(r);
    PolyStep(r, 31);
    OneMoreBit(h, 31);
    RaisedChosen(Odd(r), 31);
    RaisedUnion(Chosen(Odd(r), {31}), PolyOf(h, 31));
    Shifted(r);
    if Odd(r) {
      PolyBound(h, 32);
      ReflectedGenerator();
      PolyXor(h, POLY, 32);
      TopFalls(PolyOf(h, 32), GENERATOR, 32);
    } else {
      PlusUnit(PolyOf(h, 32));
    }
  }

  lemma Shifted(r: bv32)
    ensures ShiftBit(r) == if Odd(r) then Xor(Half(r), POLY) else Half(r)
  {
    hide Xor, Odd;
  }

  lemma RaisedChosenTwice(b: bool, p: Poly, k: nat)
    ensures Raised(Chosen(b, p), k) == Chosen(b, Raised(p, k))
  {
  }

  /** n zero bits multiply by x^n, less a multiple of the generator. */
  lemma {:induction false} ShiftsDivide(r: bv32, n: nat) returns (q: seq<bool>)
    ensures |q| == n
    ensures Raised(PolyOf(r, 32), n) == Plus(PolyOf(ShiftBits(r, n), 32), Product(q, GENERATOR))
    decreases n
  {
    hide PolyOf, Odd, Plus, Raised, ShiftBit, Chosen;
    if n == 0 {
      q := [];
      RaisedZero(PolyOf(r, 32), 0);
      PlusUnit(PolyOf(r, 32));
    } else {
      var s := ShiftBit(r);
      ShiftDivides(r);
      var t := ShiftsDivide(s, n - 1);
      q := [Odd(r)] + t;
      assert q[1..] == t;
      var out := Raised(Chosen(Odd(r), GENERATOR), n - 1);
      RaisedTwice(PolyOf(r, 32), 1, n - 1);
      RaisedPlus(PolyOf(s, 32), Chosen(Odd(r), GENERATOR), n - 1);
      PlusAssociates(PolyOf(ShiftBits(r, n), 32), Product(t, GENERATOR), out);
      PlusCommutes(Product(t, GENERATOR), out);
    }
  }

  /** A byte enters at the top of the register. */
  lemma FeedDivides(r: bv32, b: byte) returns (q: seq<bool>)
    ensures |q| == 8
    ensures Plus(Raised(PolyOf(r, 32), 8), Raised(PolyOf(b as bv32, 8), 32))
         == Plus(PolyOf(Feed(r, b), 32), Product(q, GENERATOR))
  {
    hide PolyOf, Plus, Raised, ShiftBits, Xor, Product, Within;
    var w := b as bv32;
    ByteIsLow(b);
    WordWithin(w);
    MoreBits(w, 8, 24);
    PolyXor(r, w, 32);
    q := ShiftsDivide(Xor(r, w), 8);
    RaisedPlus(PolyOf(r, 32), PolyOf(w, 32), 8);
    RaisedTwice(PolyOf(w, 8), 24, 8);
  }

  lemma ByteIsLow(b: byte)
    ensures (b as bv32) & 0xff == b as bv32
  {
  }

  /** The whole register: r(x) x^(8n) + message(x) x^32 leaves the register on division. */
  lemma {:induction false} RegisterDivides(r: bv32, data: seq<byte>) returns (q: seq<bool>)
    ensures |q| == 8 * |data|
    ensures Plus(Raised(PolyOf(r, 32), 8 * |data|), Raised(Message(data), 32))
         == Plus(PolyOf(Register(r, data), 32), Product(q, GENERATOR))
    decreases |data|
  {
    hide PolyOf, Plus, Raised, Feed, Product;
    if data == [] {
      q := [];
      RaisedZero(PolyOf(r, 32), 32);
      ProductNone(GENERATOR);
    } else {
      var rest, n := data[1..], 8 * |data[1..]|;
      var b := PolyOf(data[0] as bv32, 8);
      var q0 := FeedDivides(r, data[0]);
      var t := RegisterDivides(Feed(r, data[0]), rest);
      q := q0 + t;
      ProductConcat(q0, t, GENERATOR);
      RaisedPlus(Raised(PolyOf(r, 32), 8), Raised(b, 32), n);
      RaisedPlus(PolyOf(Feed(r, data[0]), 32), Product(q0, GENERATOR), n);
      RaisedTwice(PolyOf(r, 32), 8, n);
      RaisedTwice(b, 32, n);
      RaisedTwice(b, n, 32);
      RaisedPlus(Raised(b, n), Message(rest), 32);
      Regroup(Raised(PolyOf(r, 32), 8 + n), Raised(b, n + 32), Raised(Message(rest), 32),
              Raised(PolyOf(Feed(r, data[0]), 32), n), Raised(Product(q0, GENERATOR), n),
              PolyOf(Register(r, data), 32), Product(t, GENERATOR));
    }
  }

  lemma ProductNone(divisor: Poly)
    ensures Product([], divisor) == {}
  {
  }

  lemma Regroup(a: Poly, b: Poly, m: Poly, f: Poly, p0: Poly, r: Poly, p1: Poly)
    requires Plus(a, b) == Plus(f, p0) && Plus(f, m) == Plus(r, p1)
    ensures Plus(a, Plus(b, m)) == Plus(r, Plus(p0, p1))
  {
    hide Plus;
    PlusAssociates(a, b, m);
    PlusAssociates(f, p0, m);
    PlusCommutes(p0, m);
    PlusAssociates(f, m, p0);
    PlusAssociates(r, p1, p0);
    PlusCommutes(p1, p0);
  }

  // ------------------------------------------------------------- the checksum is the remainder

  lemma {:induction false} ProductBound(q: seq<bool>)
    ensures forall e :: e in Product(q, GENERATOR) ==> e < 32 + |q|
  {
    if q != [] {
      ProductBound(q[1..]);
    }
  }

  lemma TopOfRaised(k: nat)
    ensures 32 + k in Raised(GENERATOR, k)
    ensures forall e :: e in Raised(GENERATOR, k) ==> e <= 32 + k
  {
    assert 32 in GENERATOR;
  }

  lemma PlusCancels(p: Poly, a: Poly, b: Poly)
    requires Plus(p, a) == Plus(p, b)
    ensures a == b
  {
    hide Plus;
    PlusAssociates(p, p, a);
    PlusAssociates(p, p, b);
    PlusUnit(p);
    PlusUnit(a);
    PlusUnit(b);
  }

  lemma NotLower(k: nat, r: Poly, a: Poly, t: Poly, b: Poly)
    requires forall e :: e in r || e in a || e in t || e in b ==> e < 32 + k
    ensures Plus(r, Plus(Raised(GENERATOR, k), a)) != Plus(t, b)
  {
    TopOfRaised(k);
    assert 32 + k in Plus(r, Plus(Raised(GENERATOR, k), a));
  }

  /** A remainder of degree less than 32 is the only one. */
  lemma {:induction false} RemainderUnique(r: Poly, q: seq<bool>, t: Poly, p: seq<bool>)
    requires |q| == |p| && forall e :: e in r || e in t ==> e < 32
    requires Plus(r, Product(q, GENERATOR)) == Plus(t, Product(p, GENERATOR))
    ensures r == t
    decreases |q|
  {
    hide Raised, Plus;
    if q == [] {
      PlusUnit(r);
      PlusUnit(t);
    } else {
      var k := |q| - 1;
      var a, b := Product(q[1..], GENERATOR), Product(p[1..], GENERATOR);
      ProductBound(q[1..]);
      ProductBound(p[1..]);
      RaisedZero({}, k);
      PlusUnit(a);
      PlusUnit(b);
      if q[0] && p[0] {
        var top := Raised(GENERATOR, k);
        PlusSwap(r, top, a);
        PlusSwap(t, top, b);
        PlusCancels(top, Plus(r, a), Plus(t, b));
      } else if q[0] {
        NotLower(k, r, a, t, b);
      } else if p[0] {
        NotLower(k, t, b, r, a);
      }
      RemainderUnique(r, q[1..], t, p[1..]);
    }
  }

  lemma PlusSwap(r: Poly, p: Poly, a: Poly)
    ensures Plus(r, Plus(p, a)) == Plus(p, Plus(r, a))
  {
    hide Plus;
    PlusAssociates(r, p, a);
    PlusCommutes(r, p);
    PlusAssociates(p, r, a);
  }

  lemma {:induction false} PolyEmpty(w: bv32, n: nat)
    requires Within(w, n) && PolyOf(w, n) == {}
    ensures w == 0
    decreases n
  {
    if n > 0 {
      assert n - 1 !in PolyOf(w, n);
      PolyEmpty(Half(w), n - 1);
    }
  }

  lemma PolyInjective(x: bv32, y: bv32)
    requires PolyOf(x, 32) == PolyOf(y, 32)
    ensures x == y
  {
    hide PolyOf, Xor, Plus, Within;
    PolyXor(x, y, 32);
    PlusUnit(PolyOf(x, 32));
    WordWithin(Xor(x, y));
    PolyEmpty(Xor(x, y), 32);
    XorCancel(x, y);
    XorUnit(y);
  }

  /** r has degree less than 32 and differs from the dividend by a multiple, with n bits, of the generator. */
  ghost predicate IsRemainder(r: Poly, dividend: Poly, n: nat) {
    && (forall e :: e in r ==> e < 32)
    && exists q: seq<bool> :: |q| == n && dividend == Plus(r, Product(q, GENERATOR))
  }

  /** What is divided: the message times x^32, its first 32 coefficients complemented. */
  function Dividend(data: seq<byte>): Poly {
    Plus(Raised(Below(32), 8 * |data|), Raised(Message(data), 32))
  }

  /**
   The checksum is the complement of the remainder of the message on division by
   x^32 + x^26 + x^23 + x^22 + x^16 + x^12 + x^11 + x^10 + x^8 + x^7 + x^5 + x^4 + x^2 + x + 1, and no
   other word is.
   */
  lemma ChecksumIsRemainder(data: seq<byte>, w: bv32)
    ensures w == Checksum(data) <==> IsRemainder(Plus(PolyOf(w, 32), Below(32)), Dividend(data), 8 * |data|)
  {
    hide PolyOf, Plus, Raised, Register, Product, Message, Below;
    var r := Register(ONES, data);
    var q := RegisterDivides(ONES, data);
    AllOnes();
    PolyXor(r, ONES, 32);
    PolyBound(r, 32);
    Complement(PolyOf(r, 32), Below(32));
    assert IsRemainder(PolyOf(r, 32), Dividend(data), 8 * |data|);
    var other := Plus(PolyOf(w, 32), Below(32));
    if IsRemainder(other, Dividend(data), 8 * |data|) {
      var p: seq<bool> :| |p| == 8 * |data| && Dividend(data) == Plus(other, Product(p, GENERATOR));
      RemainderUnique(PolyOf(r, 32), q, other, p);
      Complement(PolyOf(w, 32), Below(32));
      PolyInjective(w, Checksum(data));
    }
  }

  lemma Complement(p: Poly, all: Poly)
    ensures Plus(Plus(p, all), all) == p
  {
  }
}
