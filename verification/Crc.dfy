/** CRC-16/CCITT-FALSE: polynomial 0x1021, initial value 0xFFFF, no reflection. */
module Crc {
  import opened Bits

  type u16 = c: int | 0 <= c < 0x1_0000

  const POLY := 0x1021
  const INIT: u16 := 0xFFFF
  const BITS: nat := 8

  /** One shift of the register. */
  function Shift(c: u16): u16 {
    if c / 0x8000 == 1 then Xor(2 * c, POLY) % U16 else (2 * c) % U16
  }

  function Shifts(c: u16, n: nat): u16
    decreases n
  {
    if n == 0 then c else Shifts(Shift(c), n - 1)
  }

  /** The byte enters at the top of the register, then eight shifts. */
  function Feed(c: u16, b: byte): u16 {
    hide Shifts, Xor;
    Xor16(c, 256 * b);
    Shifts(Xor(c, 256 * b), BITS)
  }

  function CrcFrom(c: u16, data: Bytes): u16
    decreases data
  {
    hide Feed, Xor;
    if data == [] then c else CrcFrom(Feed(c, data[0]), data[1..])
  }

  function Crc16(data: Bytes): u16 {
    CrcFrom(INIT, data)
  }

  lemma Xor16(a: u16, b: u16)
    ensures 0 <= Xor(a, b) < U16
  {
    Pow2_16();
    XorRange(a, b, 16);
  }

  lemma Pow2_16()
    ensures Pow(2, BITS) == 256
    ensures Pow(2, 15) == 0x8000 && Pow(2, 16) == U16
  {
    assert Pow(2, 4) == 16;
    assert Pow(2, 6) == 64;
    assert Pow(2, 10) == 1024;
    assert Pow(2, 12) == 4096;
    assert Pow(2, 14) == 16384;
  }

  method Crc16Ccitt(data: Bytes) returns (crc: u16)
    ensures crc == Crc16(data)
  {
    hide Xor, Shifts, Feed;
    crc := INIT;
    for i := 0 to |data|
      invariant CrcFrom(crc, data[i..]) == Crc16(data)
    {
      ghost var fed := Feed(crc, data[i]);
      assert data[i..][0] == data[i] && data[i..][1..] == data[i + 1..];
      FeedForm(crc, data[i]);
      var raw: int := data[i];
      crc := Xor(crc, 256 * raw);
      for k := 0 to BITS
        invariant Shifts(crc, BITS - k) == fed
      {
        ShiftsStep(crc, BITS - k);
        if crc / 0x8000 == 1 {
          crc := Xor(2 * crc, POLY) % U16;
        } else {
          crc := (2 * crc) % U16;
        }
      }
      ShiftsStep(crc, 0);
    }
  }

  lemma FeedForm(c: u16, b: byte)
    ensures 0 <= Xor(c, 256 * b) < U16
    ensures Feed(c, b) == Shifts(Xor(c, 256 * b), BITS)
  {
    hide Xor, Shifts;
    Xor16(c, 256 * b);
  }

  lemma ShiftsStep(c: u16, n: nat)
    ensures Shifts(c, n) == if n == 0 then c else Shifts(Shift(c), n - 1)
  {
  }

  // ---------------------------------------------------------------- algebra of one shift

  /** A shift is xor of the doubled register and, when the top bit was set, the polynomial. */
  lemma ShiftForm(c: u16)
    ensures Shift(c) == Xor((2 * c) % U16, if c / 0x8000 == 1 then POLY else 0)
  {
    hide Xor;
    Pow2_16();
    XorSplit(2 * c, POLY, 16);
    XorZero((2 * c) % U16);
  }

  lemma DoubleXor(a: u16, b: u16)
    ensures Xor((2 * a) % U16, (2 * b) % U16) == (2 * Xor(a, b)) % U16
  {
    hide Xor;
    Pow2_16();
    XorSplit(2 * a, 2 * b, 16);
    XorBits(2 * a, 2 * b);
  }

  /** Shifting distributes over xor. */
  lemma ShiftLinear(a: u16, b: u16)
    ensures 0 <= Xor(a, b) < U16
    ensures Shift(Xor(a, b)) == Xor(Shift(a), Shift(b))
  {
    hide Xor, Shift;
    Xor16(a, b);
    var x := Xor(a, b);
    var ta, tb := if a / 0x8000 == 1 then POLY else 0, if b / 0x8000 == 1 then POLY else 0;
    ShiftForm(a);
    ShiftForm(b);
    ShiftForm(x);
    DoubleXor(a, b);
    XorSwap((2 * a) % U16, ta, (2 * b) % U16, tb);
    Pow2_16();
    XorSplit(a, b, 15);
    XorSelf(POLY);
    XorZero(POLY);
    XorSelf(1);
    XorZero(1);
  }

  /** No two register values shift to the same value: the polynomial is odd, so the
      low bit of the result tells which branch was taken. */
  lemma ShiftInjective(a: u16, b: u16)
    requires Shift(a) == Shift(b)
    ensures a == b
  {
    hide Xor, Shift;
    var da, db := (2 * a) % U16, (2 * b) % U16;
    ShiftForm(a);
    ShiftForm(b);
    XorBits(da, if a / 0x8000 == 1 then POLY else 0);
    XorBits(db, if b / 0x8000 == 1 then POLY else 0);
    XorCancel(da, POLY);
    XorCancel(db, POLY);
    XorZero(da);
    XorZero(db);
  }

  lemma {:induction false} ShiftsLinear(a: u16, b: u16, n: nat)
    ensures 0 <= Xor(a, b) < U16
    ensures Shifts(Xor(a, b), n) == Xor(Shifts(a, n), Shifts(b, n))
    decreases n
  {
    hide Shift, Xor;
    Xor16(a, b);
    if n > 0 {
      ShiftLinear(a, b);
      ShiftsLinear(Shift(a), Shift(b), n - 1);
    }
  }

  lemma {:induction false} ShiftsInjective(a: u16, b: u16, n: nat)
    requires Shifts(a, n) == Shifts(b, n)
    ensures a == b
    decreases n
  {
    hide Shift;
    if n > 0 {
      ShiftsInjective(Shift(a), Shift(b), n - 1);
      ShiftInjective(a, b);
    }
  }

  /** While no bit leaves the top, shifting is multiplication by a power of two. */
  lemma {:induction false} ShiftsSmall(c: u16, n: nat)
    requires c * Pow(2, n) < U16
    ensures Shifts(c, n) == c * Pow(2, n)
    decreases n
  {
    hide Shift;
    if n > 0 {
      var p := Pow(2, n - 1);
      PowPositive(2, n - 1);
      DoubleTimes(c, p);
      ShiftSmall(c);
      ShiftsSmall(Shift(c), n - 1);
    }
  }

  lemma ShiftSmall(c: u16)
    ensures 2 * c < U16 ==> Shift(c) == 2 * c
  {
    hide Xor;
  }

  lemma DoubleTimes(c: nat, p: nat)
    requires p > 0
    ensures c * (2 * p) == (2 * c) * p && 2 * c <= (2 * c) * p
  {
    AtLeastOnce(2 * c, p);
  }

  lemma AtLeastOnce(d: nat, p: nat)
    requires p > 0
    ensures d <= d * p
  {
    var q: nat := p - 1;
    assert p == q + 1;
  }

  // ---------------------------------------------------------------- error detection

  lemma FeedInjective(a: u16, b: u16, x: byte)
    requires Feed(a, x) == Feed(b, x)
    ensures a == b
  {
    hide Xor, Shifts;
    Xor16(a, 256 * x);
    Xor16(b, 256 * x);
    ShiftsInjective(Xor(a, 256 * x), Xor(b, 256 * x), BITS);
    XorCancel(a, 256 * x);
    XorCancel(b, 256 * x);
  }

  lemma {:induction false} CrcFromInjective(a: u16, b: u16, data: Bytes)
    requires CrcFrom(a, data) == CrcFrom(b, data)
    ensures a == b
    decreases data
  {
    hide Feed;
    if data != [] {
      CrcFromInjective(Feed(a, data[0]), Feed(b, data[0]), data[1..]);
      FeedInjective(a, b, data[0]);
    }
  }

  lemma {:induction false} CrcFromConcat(c: u16, s: Bytes, t: Bytes)
    ensures CrcFrom(c, s + t) == CrcFrom(CrcFrom(c, s), t)
    decreases s
  {
    hide Feed;
    if s == [] {
      assert s + t == t;
    } else {
      assert (s + t)[1..] == s[1..] + t;
      CrcFromConcat(Feed(c, s[0]), s[1..], t);
    }
  }

  lemma ByteXor(x: byte, y: byte)
    ensures 0 <= Xor(x, y) < 256
    ensures Xor(256 * x, 256 * y) == 256 * Xor(x, y)
  {
    hide Xor;
    Pow2_16();
    XorRange(x, y, BITS);
    XorSplit(256 * x, 256 * y, BITS);
    XorZero(0);
  }

  /** Two bytes fed into equal registers leave equal registers only if they are equal. */
  lemma FeedPairInjective(s: u16, x: byte, y: byte, x': byte, y': byte)
    requires Feed(Feed(s, x), y) == Feed(Feed(s, x'), y')
    ensures x == x' && y == y'
  {
    hide Xor, Shifts;
    ByteXor(x, x');
    ByteXor(y, y');
    var dx, dy := Xor(x, x'), Xor(y, y');
    var f, f' := Feed(s, x), Feed(s, x');
    Xor16(f, 256 * y);
    Xor16(f', 256 * y');
    ShiftsInjective(Xor(f, 256 * y), Xor(f', 256 * y'), BITS);
    XorSwap(f, 256 * y, f', 256 * y');
    XorSelf(Xor(f, 256 * y));
    XorEqZero(Xor(f, f'), 256 * dy);
    Xor16(s, 256 * x);
    Xor16(s, 256 * x');
    ShiftsLinear(Xor(s, 256 * x), Xor(s, 256 * x'), BITS);
    XorSwap(s, 256 * x, s, 256 * x');
    XorSelf(s);
    XorZero(256 * dx);
    assert Shifts(256 * dx, BITS) == 256 * dy;
    Pow2_16();
    ShiftsSmall(dy, BITS);
    ShiftsInjective(256 * dx, dy, BITS);
    XorEqZero(x, x');
    XorEqZero(y, y');
  }

  lemma FeedByteInjective(s: u16, x: byte, x': byte)
    requires Feed(s, x) == Feed(s, x')
    ensures x == x'
  {
    hide Feed;
    FeedPairInjective(s, x, 0, x', 0);
  }

  /** The two messages agree outside positions k and k + 1. */
  ghost predicate BurstAt(m: Bytes, m': Bytes, k: nat) {
    && |m| == |m'|
    && k < |m|
    && m[..k] == m'[..k]
    && (k + 2 <= |m| ==> m[k + 2..] == m'[k + 2..])
  }

  lemma CrcFromStep(s: u16, m: Bytes, k: nat)
    requires k < |m|
    ensures CrcFrom(s, m[k..]) == CrcFrom(Feed(s, m[k]), m[k + 1..])
  {
    hide Feed;
    assert m[k..][0] == m[k] && m[k..][1..] == m[k + 1..];
  }

  lemma BurstDecided(m: Bytes, m': Bytes, k: nat)
    requires BurstAt(m, m', k)
    requires Crc16(m) == Crc16(m')
    ensures m == m'
  {
    hide Feed;
    var s := CrcFrom(INIT, m[..k]);
    assert m == m[..k] + m[k..] && m' == m'[..k] + m'[k..];
    CrcFromConcat(INIT, m[..k], m[k..]);
    CrcFromConcat(INIT, m'[..k], m'[k..]);
    CrcFromStep(s, m, k);
    CrcFromStep(s, m', k);
    if k + 1 == |m| {
      FeedByteInjective(s, m[k], m'[k]);
      assert m[k..] == [m[k]] && m'[k..] == [m'[k]];
    } else {
      var f, f' := Feed(s, m[k]), Feed(s, m'[k]);
      CrcFromStep(f, m, k + 1);
      CrcFromStep(f', m', k + 1);
      CrcFromInjective(Feed(f, m[k + 1]), Feed(f', m'[k + 1]), m[k + 2..]);
      FeedPairInjective(s, m[k], m[k + 1], m'[k], m'[k + 1]);
      assert m[k..] == [m[k], m[k + 1]] + m[k + 2..] && m'[k..] == [m'[k], m'[k + 1]] + m'[k + 2..];
    }
  }

  /** A change confined to two adjacent bytes always changes the CRC. */
  lemma BurstDetected(m: Bytes, m': Bytes, k: nat)
    requires BurstAt(m, m', k)
    requires m != m'
    ensures Crc16(m) != Crc16(m')
  {
    if Crc16(m) == Crc16(m') {
      BurstDecided(m, m', k);
    }
  }

  // ---------------------------------------------------------------- bursts of sixteen bits

  lemma {:induction false} ShiftsSum(c: u16, m: nat, n: nat)
    ensures Shifts(c, m + n) == Shifts(Shifts(c, m), n)
    decreases m
  {
    hide Shift;
    if m > 0 {
      ShiftsSum(Shift(c), m - 1, n);
    }
  }

  /** How the registers differ after one more byte, given how they and the bytes differ. */
  lemma FeedDifference(s: u16, s': u16, x: byte, x': byte)
    ensures 0 <= Xor(s, s') < U16 && 0 <= Xor(x, x') < 256 && 0 <= Xor(Xor(s, s'), 256 * Xor(x, x')) < U16
    ensures Xor(Feed(s, x), Feed(s', x')) == Shifts(Xor(Xor(s, s'), 256 * Xor(x, x')), BITS)
  {
    hide Xor, Shifts;
    ByteXor(x, x');
    Xor16(s, s');
    Xor16(s, 256 * x);
    Xor16(s', 256 * x');
    Xor16(Xor(s, s'), 256 * Xor(x, x'));
    ShiftsLinear(Xor(s, 256 * x), Xor(s', 256 * x'), BITS);
    XorSwap(s, 256 * x, s', 256 * x');
  }

  /** A byte shifted up by eight meets the next one as a sixteen-bit number. */
  lemma Joined(d0: byte, d1: byte)
    ensures 256 * d0 + d1 < U16 && Xor(256 * d0, d1) == 256 * d0 + d1
    ensures 0 <= Xor(Shifts(256 * d0, BITS), 256 * d1) < U16
    ensures Xor(Shifts(256 * d0, BITS), 256 * d1) == Shifts(256 * d0 + d1, BITS)
  {
    hide Xor, Shifts;
    Pow2_16();
    XorSplit(256 * d0, d1, BITS);
    XorZero(d0);
    XorComm(0, d1);
    XorZero(d1);
    ShiftsSmall(d1, BITS);
    ShiftsLinear(256 * d0, d1, BITS);
    Xor16(Shifts(256 * d0, BITS), 256 * d1);
  }

  /** The difference of three bytes, read as a 24-bit number, is a pattern of sixteen bits shifted up by
      `up` of the eight places there are. */
  predicate Pattern(d0: int, d1: int, d2: int, p: int, up: nat) {
    up <= 8 && 0 <= p < U16 && 0x1_0000 * d0 + 0x100 * d1 + d2 == p * Pow(2, up)
  }

  /** Equal registers after three bytes: a pattern of sixteen bits in the difference is then empty. */
  lemma FeedThreeInjective(s: u16, x: byte, y: byte, z: byte, x': byte, y': byte, z': byte, p: nat, up: nat)
    requires Feed(Feed(Feed(s, x), y), z) == Feed(Feed(Feed(s, x'), y'), z')
    requires Pattern(Xor(x, x'), Xor(y, y'), Xor(z, z'), p, up)
    ensures p == 0 && x == x' && y == y' && z == z'
  {
    var d0, d1, d2 := Xor(x, x'), Xor(y, y'), Xor(z, z');
    hide Xor, Shifts, Feed;
    ThreeDifference(s, x, y, z, x', y', z');
    PatternEmpty(d0, d1, d2, p, up);
    XorEqZero(x, x');
    XorEqZero(y, y');
    XorEqZero(z, z');
  }

  lemma OneDifference(s: u16, x: byte, x': byte)
    ensures 0 <= Xor(x, x') < 256
    ensures Xor(Feed(s, x), Feed(s, x')) == Shifts(256 * Xor(x, x'), BITS)
  {
    hide Xor, Shifts, Feed;
    FeedDifference(s, s, x, x');
    XorSelf(s);
    XorComm(0, 256 * Xor(x, x'));
    XorZero(256 * Xor(x, x'));
  }

  lemma TwoDifference(s: u16, x: byte, y: byte, x': byte, y': byte)
    ensures 0 <= Xor(x, x') < 256 && 0 <= Xor(y, y') < 256
    ensures Xor(Feed(Feed(s, x), y), Feed(Feed(s, x'), y')) == Shifts(Shifts(256 * Xor(x, x') + Xor(y, y'), BITS), BITS)
  {
    hide Xor, Shifts, Feed;
    OneDifference(s, x, x');
    FeedDifference(Feed(s, x), Feed(s, x'), y, y');
    Joined(Xor(x, x'), Xor(y, y'));
  }

  lemma ThreeDifference(s: u16, x: byte, y: byte, z: byte, x': byte, y': byte, z': byte)
    requires Feed(Feed(Feed(s, x), y), z) == Feed(Feed(Feed(s, x'), y'), z')
    ensures 0 <= Xor(x, x') < 256 && 0 <= Xor(y, y') < 256 && 0 <= Xor(z, z') < 256
    ensures Shifts(256 * Xor(x, x') + Xor(y, y'), BITS) == Xor(z, z')
  {
    hide Xor, Shifts, Feed;
    TwoDifference(s, x, y, x', y');
    ThirdDifference(Feed(Feed(s, x), y), Feed(Feed(s, x'), y'), z, z', 256 * Xor(x, x') + Xor(y, y'));
  }

  lemma ThirdDifference(b: u16, b': u16, z: byte, z': byte, h: u16)
    requires Feed(b, z) == Feed(b', z') && Xor(b, b') == Shifts(Shifts(h, BITS), BITS)
    ensures 0 <= Xor(z, z') < 256 && Shifts(h, BITS) == Xor(z, z')
  {
    hide Xor, Shifts, Feed;
    FeedDifference(b, b', z, z');
    XorSelf(Feed(b, z));
    ThirdByte(h, Xor(b, b'), Xor(z, z'));
  }

  lemma ThirdByte(h: u16, u: u16, d2: byte)
    requires u == Shifts(Shifts(h, BITS), BITS)
    requires 0 <= Xor(u, 256 * d2) < U16 && Shifts(Xor(u, 256 * d2), BITS) == 0
    ensures Shifts(h, BITS) == d2
  {
    hide Xor, Shifts;
    Pow2_16();
    ShiftsSmall(0, BITS);
    ShiftsInjective(Xor(u, 256 * d2), 0, BITS);
    XorEqZero(u, 256 * d2);
    ShiftsSmall(d2, BITS);
    ShiftsInjective(Shifts(h, BITS), d2, BITS);
  }

  lemma PatternEmpty(d0: byte, d1: byte, d2: byte, p: nat, up: nat)
    requires Shifts(256 * d0 + d1, BITS) == d2 && Pattern(d0, d1, d2, p, up)
    ensures p == 0 && d0 == 0 && d1 == 0 && d2 == 0
  {
    hide Shifts, Pow;
    var h, j := 256 * d0 + d1, 8 - up;
    PowSum(j, up);
    PowPositive(2, j);
    PowPositive(2, up);
    PatternSplits(h, d2, p, Pow(2, up), Pow(2, j));
    SplitShifts(h, d2, p % Pow(2, j), j, up);
    NoRest(h, p % Pow(2, j), Pow(2, j), p);
    assert d2 == 0 * Pow(2, up);
  }

  lemma SplitShifts(h: u16, d2: byte, r: nat, j: nat, up: nat)
    requires j + up == 8 && Shifts(h, 8) == d2 && h * Pow(2, j) < U16 && d2 == r * Pow(2, up) && r < U16
    ensures h * Pow(2, j) == r
  {
    hide Shifts, Pow;
    ShiftsSum(h, j, up);
    ShiftsSmall(h, j);
    ShiftsSmall(r, up);
    ShiftsInjective(Shifts(h, j), r, up);
  }

  lemma PowSum(j: nat, up: nat)
    requires j + up == 8
    ensures Pow(2, j) * Pow(2, up) == 256
  {
    assert Pow(2, 0) == 1 && Pow(2, 1) == 2 && Pow(2, 2) == 4 && Pow(2, 3) == 8 && Pow(2, 4) == 16;
    assert Pow(2, 5) == 32 && Pow(2, 6) == 64 && Pow(2, 7) == 128 && Pow(2, 8) == 256;
  }

  /** The lowest byte of the pattern shifted up, and what is above it. */
  lemma PatternSplits(h: nat, d2: byte, p: nat, a: nat, b: nat)
    requires a * b == 256 && a > 0 && b > 0 && 256 * h + d2 == p * a && p < U16
    ensures h == p / b && d2 == p % b * a && h * b <= p
  {
    var q, r := p / b, p % b;
    assert p == b * q + r;
    RestBelow(a, b, q, r, p);
    DivModUnique(p * a, 256, q, r * a);
    DivModUnique(p * a, 256, h, d2);
  }

  lemma RestBelow(a: nat, b: nat, q: nat, r: nat, p: nat)
    requires a * b == 256 && p == b * q + r && r < b && a > 0
    ensures p * a == 256 * q + r * a && r * a < 256 && q * b <= p
  {
    calc {
      p * a;
      (b * q) * a + r * a;
      (a * b) * q + r * a;
    }
    assert r * a <= (b - 1) * a;
  }

  lemma NoRest(h: nat, r: nat, b: nat, p: nat)
    requires b > 0 && r == p % b && h == p / b && h * b == r
    ensures p == 0 && h == 0
  {
  }

  /** The two messages agree outside the three bytes from `k` on, and differ there in a pattern of sixteen
      bits, at whatever bit it begins. */
  ghost predicate BitBurstAt(m: Bytes, m': Bytes, k: nat, p: nat, up: nat) {
    && |m| == |m'| && k + 3 <= |m|
    && m[..k] == m'[..k] && m[k + 3..] == m'[k + 3..]
    && Pattern(Xor(m[k], m'[k]), Xor(m[k + 1], m'[k + 1]), Xor(m[k + 2], m'[k + 2]), p, up)
  }

  /** A burst of up to sixteen bits always changes the CRC, wherever it begins within a byte. */
  lemma BitBurstDetected(m: Bytes, m': Bytes, k: nat, p: nat, up: nat)
    requires BitBurstAt(m, m', k, p, up) && m != m'
    ensures Crc16(m) != Crc16(m')
  {
    hide Feed, Xor, Pattern;
    if Crc16(m) == Crc16(m') {
      var s, rest := CrcFrom(INIT, m[..k]), m[k + 3..];
      ThreeOnWay(m, k);
      ThreeOnWay(m', k);
      CrcFromInjective(Feed(Feed(Feed(s, m[k]), m[k + 1]), m[k + 2]), Feed(Feed(Feed(s, m'[k]), m'[k + 1]), m'[k + 2]), rest);
      FeedThreeInjective(s, m[k], m[k + 1], m[k + 2], m'[k], m'[k + 1], m'[k + 2], p, up);
      Rebuilt(m, m', k);
    }
  }

  lemma Rebuilt(m: Bytes, m': Bytes, k: nat)
    requires |m| == |m'| && k + 3 <= |m| && m[..k] == m'[..k] && m[k + 3..] == m'[k + 3..]
    requires m[k] == m'[k] && m[k + 1] == m'[k + 1] && m[k + 2] == m'[k + 2]
    ensures m == m'
  {
    assert m == m[..k] + [m[k], m[k + 1], m[k + 2]] + m[k + 3..];
    assert m' == m'[..k] + [m'[k], m'[k + 1], m'[k + 2]] + m'[k + 3..];
  }

  lemma ThreeOnWay(m: Bytes, k: nat)
    requires k + 3 <= |m|
    ensures Crc16(m) == CrcFrom(Feed(Feed(Feed(CrcFrom(INIT, m[..k]), m[k]), m[k + 1]), m[k + 2]), m[k + 3..])
  {
    hide Feed;
    var s := CrcFrom(INIT, m[..k]);
    assert m == m[..k] + m[k..];
    CrcFromConcat(INIT, m[..k], m[k..]);
    CrcFromStep(s, m, k);
    CrcFromStep(Feed(s, m[k]), m, k + 1);
    CrcFromStep(Feed(Feed(s, m[k]), m[k + 1]), m, k + 2);
  }
}
