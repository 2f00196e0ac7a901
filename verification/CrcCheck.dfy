/** The CRC on the input whose result is published, and a register shift in plain arithmetic. */
module CrcCheck {
  import opened Bits
  import opened Crc

  /** A shift in plain arithmetic: the polynomial toggles bits 12, 5 and 0 of the doubled register. */
  function ArithShift(c: int): int {
    if c < 0x8000 then 2 * c
    else 2 * c - 0xFFFF + (if c / 0x800 % 2 == 0 then 0x1000 else -0x1000) + (if c / 0x10 % 2 == 0 then 0x20 else -0x20)
  }

  lemma XorLowBit(x: nat)
    ensures Xor(x, 1) == if x % 2 == 0 then x + 1 else x - 1
  {
    XorBits(x, 1);
    XorZero(x / 2);
  }

  lemma ToggleAt(x: nat, low: nat, n: nat)
    requires low < Pow(2, n)
    ensures var p := Pow(2, n);
      p > 0 && Xor(x, p + low) == p * (if x / p % 2 == 0 then x / p + 1 else x / p - 1) + Xor(x % p, low)
  {
    hide Xor, Pow;
    var p := Pow(2, n);
    XorSplit(x, p + low, n);
    DivModUnique(p + low, p, 1, low);
    Toggled(x / p, p, Xor(x % p, low), Xor(x, p + low));
  }

  lemma Toggled(h: nat, p: nat, l: int, y: int)
    requires p > 0 && y / p == Xor(h, 1) && y % p == l
    ensures y == p * (if h % 2 == 0 then h + 1 else h - 1) + l
  {
    XorLowBit(h);
    hide Xor;
    assert y == p * (y / p) + y % p;
  }

  lemma ShiftIsArithmetic(c: u16)
    ensures Shift(c) == ArithShift(c)
  {
    hide Xor, Shift;
    ShiftForm(c);
    var d := (2 * c) % U16;
    XorZero(d);
    Pow2_16();
    assert Pow(2, 5) == 0x20 && Pow(2, 12) == 0x1000;
    ToggleAt(d, 0x21, 12);
    ToggleAt(d % 0x1000, 1, 5);
    XorLowBit(d % 0x1000 % 0x20);
    ToggleSum(d);
    HighBits(c);
  }

  lemma ToggleSum(d: nat)
    requires d % 2 == 0
    ensures var e := d % 0x1000;
      0x1000 * (if d / 0x1000 % 2 == 0 then d / 0x1000 + 1 else d / 0x1000 - 1)
      + (0x20 * (if e / 0x20 % 2 == 0 then e / 0x20 + 1 else e / 0x20 - 1) + (if e % 0x20 % 2 == 0 then e % 0x20 + 1 else e % 0x20 - 1))
      == d + 1 + (if d / 0x1000 % 2 == 0 then 0x1000 else -0x1000) + (if d / 0x20 % 2 == 0 then 0x20 else -0x20)
  {
    var e := d % 0x1000;
    LowBits(d, d / 0x1000, e / 0x20, e % 0x20);
  }

  lemma LowBits(d: nat, h: nat, k: nat, r: nat)
    requires d == 0x1000 * h + 0x20 * k + r && r < 0x20 && d % 2 == 0
    ensures d / 0x20 % 2 == k % 2 && r % 2 == 0
  {
    DivModUnique(d, 0x20, 0x80 * h + k, r);
    SameParity(0x40 * h, k);
    SameParity(0x800 * h + 0x10 * k, r);
  }

  lemma SameParity(m: int, x: int)
    ensures (2 * m + x) % 2 == x % 2
  {
  }

  lemma HighBits(c: u16)
    ensures c >= 0x8000 ==> (2 * c) % U16 == 2 * c - U16
    ensures c < 0x8000 ==> (2 * c) % U16 == 2 * c
    ensures c >= 0x8000 ==> (2 * c) % U16 / 0x1000 % 2 == c / 0x800 % 2
    ensures c >= 0x8000 ==> (2 * c) % U16 / 0x20 % 2 == c / 0x10 % 2
  {
  }

  lemma TwoShifts(c: u16, t1: u16, t2: u16, n: nat)
    requires t1 == ArithShift(c) && t2 == ArithShift(t1)
    ensures Shifts(c, n + 2) == Shifts(t2, n)
  {
    hide Shift, ArithShift;
    ShiftIsArithmetic(c);
    ShiftIsArithmetic(t1);
    ShiftsStep(c, n + 2);
    ShiftsStep(t1, n + 1);
  }

  /** The bit of weight p in x xor y. */
  function XorBit(x: int, y: int, p: int): int
    requires p > 0
  {
    if x / p % 2 == y / p % 2 then 0 else p
  }

  function Xor8(x: int, y: int): int {
    XorBit(x, y, 1) + XorBit(x, y, 2) + XorBit(x, y, 4) + XorBit(x, y, 8)
    + XorBit(x, y, 16) + XorBit(x, y, 32) + XorBit(x, y, 64) + XorBit(x, y, 128)
  }

  /** The bits of x xor y of weight p and above. */
  ghost function XorAbove(x: int, y: int, p: int): int
    requires p > 0
  {
    p * Xor(x / p, y / p)
  }

  lemma XorParity(a: nat, b: nat)
    ensures Xor(a, b) == (if a % 2 == b % 2 then 0 else 1) + 2 * Xor(a / 2, b / 2)
  {
    hide Xor;
    XorBits(a, b);
  }

  lemma XorBitAt(x: nat, y: nat, p: nat, q: nat)
    requires p > 0 && q == 2 * p
    ensures Xor(x / p, y / p) == (if x / p % 2 == y / p % 2 then 0 else 1) + 2 * Xor(x / q, y / q)
  {
    hide Xor;
    XorParity(x / p, y / p);
    Halved(x, p, q);
    Halved(y, p, q);
  }

  lemma XorBitStep(x: nat, y: nat, p: nat, q: nat)
    requires p > 0 && q == 2 * p
    ensures XorAbove(x, y, p) == XorBit(x, y, p) + XorAbove(x, y, q)
  {
    hide Xor;
    XorBitAt(x, y, p, q);
    Scaled(p, q, Xor(x / p, y / p), Xor(x / q, y / q), if x / p % 2 == y / p % 2 then 0 else 1);
  }

  lemma Scaled(p: nat, q: nat, u: int, v: int, bit: int)
    requires q == 2 * p && u == bit + 2 * v
    ensures p * u == p * bit + q * v
  {
  }

  lemma Halved(x: nat, p: nat, q: nat)
    requires p > 0 && q == 2 * p
    ensures x / p / 2 == x / q
  {
    var h, r := x / p / 2, x - q * (x / p / 2);
    assert x == p * (x / p) + x % p && x / p == 2 * h + x / p % 2;
    Scaled(p, q, x / p, h, x / p % 2);
    DivModUnique(x, q, h, r);
  }

  lemma XorEnds(x: byte, y: byte)
    ensures XorAbove(x, y, 1) == Xor(x, y) && XorAbove(x, y, 256) == 0
  {
    hide Xor;
    XorZero(0);
  }

  lemma Xor8IsXor(x: byte, y: byte)
    ensures Xor8(x, y) == Xor(x, y)
  {
    hide Xor, XorBit, XorAbove;
    XorEnds(x, y);
    XorBitStep(x, y, 1, 2);
    XorBitStep(x, y, 2, 4);
    XorBitStep(x, y, 4, 8);
    XorBitStep(x, y, 8, 16);
    XorBitStep(x, y, 16, 32);
    XorBitStep(x, y, 32, 64);
    XorBitStep(x, y, 64, 128);
    XorBitStep(x, y, 128, 256);
  }

  lemma XorTop(hi: byte, lo: byte, b: byte)
    ensures Xor(256 * hi + lo, 256 * b) == 256 * Xor8(hi, b) + lo
  {
    hide Xor, Xor8;
    Pow2_16();
    XorSplit(256 * hi + lo, 256 * b, 8);
    XorZero(lo);
    Xor8IsXor(hi, b);
  }

  /** A byte fed in, checked against the register after the byte has entered and after each shift. */
  lemma FedByte(hi: byte, lo: byte, b: byte, top: byte,
                t1: u16, t2: u16, t3: u16, t4: u16, t5: u16, t6: u16, t7: u16, t8: u16)
    requires top == Xor8(hi, b) && t1 == ArithShift(256 * top + lo)
    requires t2 == ArithShift(t1) && t3 == ArithShift(t2) && t4 == ArithShift(t3)
    requires t5 == ArithShift(t4) && t6 == ArithShift(t5) && t7 == ArithShift(t6) && t8 == ArithShift(t7)
    ensures Feed(256 * hi + lo, b) == t8
  {
    hide Xor, Shifts, ArithShift, Xor8, Feed;
    FeedForm(256 * hi + lo, b);
    XorTop(hi, lo, b);
    TwoShifts(256 * top + lo, t1, t2, 6);
    TwoShifts(t2, t3, t4, 4);
    TwoShifts(t4, t5, t6, 2);
    TwoShifts(t6, t7, t8, 0);
    ShiftsStep(t8, 0);
  }

  lemma ThreeBytes(c: u16, x: byte, y: byte, z: byte)
    ensures CrcFrom(c, [x, y, z]) == Feed(Feed(Feed(c, x), y), z)
  {
    CrcFromConcat(c, [x], [y, z]);
    CrcFromConcat(Feed(c, x), [y], [z]);
    hide Feed;
    assert [x] + [y, z] == [x, y, z] && [y] + [z] == [y, z];
    assert forall s: u16, b: byte :: CrcFrom(s, [b]) == Feed(s, b) by {
      assert forall b: byte :: [b][1..] == [];
    }
  }

  lemma DigitsOneToThree()
    ensures Feed(0xFFFF, 0x31) == 0xC782
    ensures Feed(0xC782, 0x32) == 0x3DBA
    ensures Feed(0x3DBA, 0x33) == 0x5BCE
  {
    hide Feed, Xor, Shifts;
    FedByte(0xFF, 0xFF, 0x31, 0xCE, 0x8DDF, 0x0B9F, 0x173E, 0x2E7C, 0x5CF8, 0xB9F0, 0x63C1, 0xC782);
    FedByte(0xC7, 0x82, 0x32, 0xF5, 0xFB25, 0xE66B, 0xDCF7, 0xA9CF, 0x43BF, 0x877E, 0x1EDD, 0x3DBA);
    FedByte(0x3D, 0xBA, 0x33, 0x0E, 0x1D74, 0x3AE8, 0x75D0, 0xEBA0, 0xC761, 0x9EE3, 0x2DE7, 0x5BCE);
  }

  lemma DigitsFourToSix()
    ensures Feed(0x5BCE, 0x34) == 0x5349
    ensures Feed(0x5349, 0x35) == 0x4560
    ensures Feed(0x4560, 0x36) == 0x2EF4
  {
    hide Feed, Xor, Shifts;
    FedByte(0x5B, 0xCE, 0x34, 0x6F, 0xDF9C, 0xAF19, 0x4E13, 0x9C26, 0x286D, 0x50DA, 0xA1B4, 0x5349);
    FedByte(0x53, 0x49, 0x35, 0x66, 0xCC92, 0x8905, 0x022B, 0x0456, 0x08AC, 0x1158, 0x22B0, 0x4560);
    FedByte(0x45, 0x60, 0x36, 0x73, 0xE6C0, 0xDDA1, 0xAB63, 0x46E7, 0x8DCE, 0x0BBD, 0x177A, 0x2EF4);
  }

  lemma DigitsSevenToNine()
    ensures Feed(0x2EF4, 0x37) == 0x7718
    ensures Feed(0x7718, 0x38) == 0xA12B
    ensures Feed(0xA12B, 0x39) == 0x29B1
  {
    hide Feed, Xor, Shifts;
    FedByte(0x2E, 0xF4, 0x37, 0x19, 0x33E8, 0x67D0, 0xCFA0, 0x8F61, 0x0EE3, 0x1DC6, 0x3B8C, 0x7718);
    FedByte(0x77, 0x18, 0x38, 0x4F, 0x9E30, 0x2C41, 0x5882, 0xB104, 0x7229, 0xE452, 0xD885, 0xA12B);
    FedByte(0xA1, 0x2B, 0x39, 0x98, 0x2077, 0x40EE, 0x81DC, 0x1399, 0x2732, 0x4E64, 0x9CC8, 0x29B1);
  }

  /** The published check value: the CRC of the ASCII digits 1 to 9 is 0x29B1. */
  lemma CheckValue()
    ensures Crc16([0x31, 0x32, 0x33, 0x34, 0x35, 0x36, 0x37, 0x38, 0x39]) == 0x29B1
  {
    hide Feed;
    DigitsOneToThree();
    DigitsFourToSix();
    DigitsSevenToNine();
    ThreeBytes(INIT, 0x31, 0x32, 0x33);
    ThreeBytes(0x5BCE, 0x34, 0x35, 0x36);
    ThreeBytes(0x2EF4, 0x37, 0x38, 0x39);
    CrcFromConcat(INIT, [0x31, 0x32, 0x33], [0x34, 0x35, 0x36]);
    CrcFromConcat(INIT, [0x31, 0x32, 0x33] + [0x34, 0x35, 0x36], [0x37, 0x38, 0x39]);
    assert [0x31, 0x32, 0x33] + [0x34, 0x35, 0x36] + [0x37, 0x38, 0x39]
        == [0x31, 0x32, 0x33, 0x34, 0x35, 0x36, 0x37, 0x38, 0x39];
  }
}
