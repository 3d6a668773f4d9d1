/** CRC-32C in hexadecimal: the same register as eight digits, on which concrete checksums can be worked out. */
module HexCrc {
  import opened Prelude
  import opened Crc32c

  datatype Nibble = Nibble(a: bool, b: bool, c: bool, d: bool)

  datatype Hex32 = Hex32(n7: Nibble, n6: Nibble, n5: Nibble, n4: Nibble, n3: Nibble, n2: Nibble, n1: Nibble, n0: Nibble)

  // The sixteen digits.
  const X0 := Nibble(false, false, false, false)
  const X1 := Nibble(true, false, false, false)
  const X2 := Nibble(false, true, false, false)
  const X3 := Nibble(true, true, false, false)
  const X4 := Nibble(false, false, true, false)
  const X5 := Nibble(true, false, true, false)
  const X6 := Nibble(false, true, true, false)
  const X7 := Nibble(true, true, true, false)
  const X8 := Nibble(false, false, false, true)
  const X9 := Nibble(true, false, false, true)
  const XA := Nibble(false, true, false, true)
  const XB := Nibble(true, true, false, true)
  const XC := Nibble(false, false, true, true)
  const XD := Nibble(true, false, true, true)
  const XE := Nibble(false, true, true, true)
  const XF := Nibble(true, true, true, true)

  function BitOf(n: Nibble, i: nat): bool {
    if i == 0 then n.a else if i == 1 then n.b else if i == 2 then n.c else n.d
  }

  function Digit(w: Hex32, j: nat): Nibble {
    if j == 0 then w.n0 else if j == 1 then w.n1 else if j == 2 then w.n2 else if j == 3 then w.n3
    else if j == 4 then w.n4 else if j == 5 then w.n5 else if j == 6 then w.n6 else w.n7
  }

  function Reg(w: Hex32): Register { seq(32, i requires 0 <= i < 32 => BitOf(Digit(w, i / 4), i % 4)) }

  function XorN(p: Nibble, q: Nibble): Nibble { Nibble(p.a != q.a, p.b != q.b, p.c != q.c, p.d != q.d) }

  function HalfN(p: Nibble, up: bool): Nibble { Nibble(p.b, p.c, p.d, up) }

  const POLY_HEX := Hex32(X8, X2, XF, X6, X3, XB, X7, X8)

  function XorHex(v: Hex32, w: Hex32): Hex32 {
    Hex32(XorN(v.n7, w.n7), XorN(v.n6, w.n6), XorN(v.n5, w.n5), XorN(v.n4, w.n4),
          XorN(v.n3, w.n3), XorN(v.n2, w.n2), XorN(v.n1, w.n1), XorN(v.n0, w.n0))
  }

  function HalfHex(w: Hex32): Hex32 {
    Hex32(HalfN(w.n7, false), HalfN(w.n6, w.n7.a), HalfN(w.n5, w.n6.a), HalfN(w.n4, w.n5.a),
          HalfN(w.n3, w.n4.a), HalfN(w.n2, w.n3.a), HalfN(w.n1, w.n2.a), HalfN(w.n0, w.n1.a))
  }

  function ShiftHex(w: Hex32): Hex32 { if w.n0.a then XorHex(HalfHex(w), POLY_HEX) else HalfHex(w) }

  lemma XorBit(v: Hex32, w: Hex32, i: nat)
    requires i < 32
    ensures Reg(XorHex(v, w))[i] == (Reg(v)[i] != Reg(w)[i])
  {
    var j, k := i / 4, i % 4;
    assert Digit(XorHex(v, w), j) == XorN(Digit(v, j), Digit(w, j));
    assert BitOf(XorN(Digit(v, j), Digit(w, j)), k) == (BitOf(Digit(v, j), k) != BitOf(Digit(w, j), k));
  }

  lemma RegXor(v: Hex32, w: Hex32)
    ensures Reg(XorHex(v, w)) == Xor(Reg(v), Reg(w))
  {
    forall i | 0 <= i < 32 ensures Reg(XorHex(v, w))[i] == Xor(Reg(v), Reg(w))[i] { XorBit(v, w, i); }
  }

  lemma HalfBit(w: Hex32, i: nat)
    requires i < 32
    ensures Reg(HalfHex(w))[i] == (i < 31 && Reg(w)[i + 1])
  {
    var j, k := i / 4, i % 4;
    assert i == 4 * j + k;
    if k < 3 {
      assert (i + 1) / 4 == j && (i + 1) % 4 == k + 1;
    } else {
      assert (i + 1) / 4 == j + 1 && (i + 1) % 4 == 0;
    }
  }

  lemma RegHalf(w: Hex32)
    ensures Reg(HalfHex(w)) == Reg(w)[1..] + [false]
  {
    forall i | 0 <= i < 32 ensures Reg(HalfHex(w))[i] == (Reg(w)[1..] + [false])[i] { HalfBit(w, i); }
  }

  lemma PolyHex()
    ensures Poly() == Reg(POLY_HEX)
  {
  }

  lemma ShiftIsShift(w: Hex32)
    ensures Shift(Reg(w)) == Reg(ShiftHex(w))
  {
    PolyHex();
    RegHalf(w);
    RegXor(HalfHex(w), POLY_HEX);
  }
  function DigitValue(n: Nibble): nat {
    (if n.a then 1 else 0) + (if n.b then 2 else 0) + (if n.c then 4 else 0) + (if n.d then 8 else 0)
  }

  const ZERO := Hex32(X0, X0, X0, X0, X0, X0, X0, X0)

  function FourBits(n: Nibble): seq<bool> { [n.a, n.b, n.c, n.d] }

  /** A byte given by its two digits, as register content. */
  lemma BitsOfByte(x: Byte, hi: Nibble, lo: Nibble)
    requires x == 16 * DigitValue(hi) + DigitValue(lo)
    ensures Word(ByteBits(x)) == Reg(ZERO.(n1 := hi, n0 := lo))
  {
    var bits := FourBits(lo) + FourBits(hi);
    assert Value(bits) == x by {
      ValueOfDigit(lo, FourBits(hi));
      ValueOfDigit(hi, []);
      assert FourBits(hi) + [] == FourBits(hi);
    }
    ByteFromBits(x);
    ValueInjective(bits, ByteBits(x));
    TwoDigits(bits, hi, lo);
  }

  lemma ValueOfDigit(n: Nibble, rest: seq<bool>)
    ensures Value(FourBits(n) + rest) == DigitValue(n) + 16 * Value(rest)
  {
    var bits := FourBits(n) + rest;
    Crc32c.Nibble(bits, 0, n.a, n.b, n.c, n.d);
    assert bits[0..] == bits && bits[4..] == rest;
  }

  lemma TwoDigits(bits: seq<bool>, hi: Nibble, lo: Nibble)
    requires bits == FourBits(lo) + FourBits(hi)
    ensures Word(bits) == Reg(ZERO.(n1 := hi, n0 := lo))
  {
    var w := ZERO.(n1 := hi, n0 := lo);
    forall i | 0 <= i < 32
      ensures Word(bits)[i] == Reg(w)[i]
    {
      if i < 4 {
        assert bits[i] == FourBits(lo)[i] == BitOf(lo, i);
      } else if i < 8 {
        assert bits[i] == FourBits(hi)[i - 4] == BitOf(hi, i - 4);
        assert i / 4 == 1 && i % 4 == i - 4;
      } else {
        UpperDigit(w, i / 4);
      }
    }
  }

  lemma UpperDigit(w: Hex32, j: nat)
    requires 2 <= j < 8 && w == ZERO.(n1 := w.n1, n0 := w.n0)
    ensures Digit(w, j) == X0
  {
  }

  function ShiftsHex(w: Hex32, n: nat): Hex32
    decreases n
  {
    if n == 0 then w else ShiftsHex(ShiftHex(w), n - 1)
  }

  lemma {:induction false} ShiftsAreShifts(w: Hex32, n: nat)
    ensures Shifts(Reg(w), n) == Reg(ShiftsHex(w, n))
    decreases n
  {
    if n != 0 {
      ShiftIsShift(w);
      ShiftsAreShifts(ShiftHex(w), n - 1);
    }
  }

  function StepHex(w: Hex32, hi: Nibble, lo: Nibble): Hex32 {
    ShiftsHex(XorHex(w, ZERO.(n1 := hi, n0 := lo)), 8)
  }

  /** One byte, given by its two digits, written out for evaluation. */
  lemma EightShifts(w: Hex32, hi: Nibble, lo: Nibble, next: Hex32)
    requires var v := XorHex(w, ZERO.(n1 := hi, n0 := lo));
             next == ShiftHex(ShiftHex(ShiftHex(ShiftHex(ShiftHex(ShiftHex(ShiftHex(ShiftHex(v))))))))
    ensures StepHex(w, hi, lo) == next
  {
    var v := XorHex(w, ZERO.(n1 := hi, n0 := lo));
    assert ShiftsHex(v, 8) == ShiftsHex(ShiftHex(ShiftHex(ShiftHex(ShiftHex(v)))), 4);
  }

  /** One byte more. */
  lemma ByteStep(w: Hex32, x: Byte, hi: Nibble, lo: Nibble)
    requires x == 16 * DigitValue(hi) + DigitValue(lo)
    ensures TableUpdate(Reg(w), x) == Reg(StepHex(w, hi, lo))
  {
    TableStep(Reg(w), x);
    FeedIsXorThenShift(Reg(w), ByteBits(x));
    BitsOfByte(x, hi, lo);
    RegXor(w, ZERO.(n1 := hi, n0 := lo));
    ShiftsAreShifts(XorHex(w, ZERO.(n1 := hi, n0 := lo)), 8);
  }

  const ONES := Hex32(XF, XF, XF, XF, XF, XF, XF, XF)

  /** One byte of the data worked into the register. */
  lemma Advance(data: seq<Byte>, k: nat, w: Hex32, hi: Nibble, lo: Nibble, next: Hex32)
    requires k < |data| && data[k] == 16 * DigitValue(hi) + DigitValue(lo) && next == StepHex(w, hi, lo)
    ensures Update(Reg(w), data[k..]) == Update(Reg(next), data[k + 1..])
  {
    ByteStep(w, data[k], hi, lo);
    assert data[k..][1..] == data[k + 1..];
  }

  /** The number that eight digits write. */
  function Numeral(w: Hex32): nat {
    DigitValue(w.n0) + 16 * DigitValue(w.n1) + 0x100 * DigitValue(w.n2) + 0x1000 * DigitValue(w.n3)
    + 0x1_0000 * DigitValue(w.n4) + 0x10_0000 * DigitValue(w.n5) + 0x100_0000 * DigitValue(w.n6)
    + 0x1000_0000 * DigitValue(w.n7)
  }

  lemma DigitOf(w: Hex32, j: nat)
    requires j < 8
    ensures Value(Reg(w)[4 * j..]) == DigitValue(Digit(w, j)) + 16 * Value(Reg(w)[4 * j + 4..])
  {
    var n := Digit(w, j);
    assert (4 * j) / 4 == j && (4 * j + 1) / 4 == j && (4 * j + 2) / 4 == j && (4 * j + 3) / 4 == j;
    Crc32c.Nibble(Reg(w), 4 * j, n.a, n.b, n.c, n.d);
  }

  lemma LowValue(w: Hex32)
    ensures Value(Reg(w)) == DigitValue(w.n0) + 16 * DigitValue(w.n1) + 0x100 * DigitValue(w.n2)
                           + 0x1000 * DigitValue(w.n3) + 0x1_0000 * Value(Reg(w)[16..])
  {
    DigitOf(w, 0);
    DigitOf(w, 1);
    DigitOf(w, 2);
    DigitOf(w, 3);
    assert Reg(w)[0..] == Reg(w);
  }

  lemma ValueIsNumeral(w: Hex32)
    ensures Value(Reg(w)) == Numeral(w)
  {
    LowValue(w);
    DigitOf(w, 4);
    DigitOf(w, 5);
    DigitOf(w, 6);
    DigitOf(w, 7);
    assert Reg(w)[32..] == [];
  }

  lemma OnesAreOnes()
    ensures Reg(ONES) == AllOnes()
  {
  }

  lemma ComplementValue(s: Register, w: Hex32)
    requires s == Reg(w)
    ensures Value(Xor(s, AllOnes())) == Numeral(XorHex(w, ONES))
  {
    OnesAreOnes();
    RegXor(w, ONES);
    ValueIsNumeral(XorHex(w, ONES));
  }

  /** The checksum of data that take the register from all ones to w. */
  lemma ChecksumIs(data: seq<Byte>, w: Hex32)
    requires Update(Reg(ONES), data[0..]) == Update(Reg(w), data[|data|..])
    ensures Checksum(data) == Numeral(XorHex(w, ONES))
  {
    assert data[0..] == data && data[|data|..] == [];
    OnesAreOnes();
    ComplementValue(Update(AllOnes(), data), w);
  }
}
