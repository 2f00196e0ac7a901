/** Bytes, little-endian integers and Python's integer operators.
    Python's `x & (2^n - 1)` is `x % 2^n` and `x >> n` is floor division, for
    negative `x` too; Dafny's `%` and `/` agree with both for a positive divisor. */
module Bits {
  type byte = b: int | 0 <= b < 256
  type Bytes = seq<byte>

  datatype Option<+T> = None | Some(value: T)

  const U16 := 0x1_0000
  const U32 := 0x1_0000_0000
  const U48 := 0x1_0000_0000_0000
  const U64 := 0x1_0000_0000_0000_0000

  function Pow(b: nat, n: nat): nat {
    if n == 0 then 1 else b * Pow(b, n - 1)
  }

  lemma {:induction false} PowPositive(b: nat, n: nat)
    requires b > 0
    ensures Pow(b, n) > 0
  {
    if n > 0 {
      PowPositive(b, n - 1);
    }
  }

  // ---------------------------------------------------------------- xor

  function Magnitude(a: int): nat {
    if a < 0 then -1 - a else a
  }

  /** Python's `^` on unbounded two's-complement integers, bit by bit. */
  function Xor(a: int, b: int): int
    decreases Magnitude(a) + Magnitude(b)
  {
    if (a == 0 || a == -1) && (b == 0 || b == -1) then
      if a == b then 0 else -1
    else
      2 * Xor(a / 2, b / 2) + (a + b) % 2
  }

  /** The bit-by-bit equation holds at the two fixed points as well. */
  lemma XorBits(a: int, b: int)
    ensures Xor(a, b) == 2 * Xor(a / 2, b / 2) + (a + b) % 2
    ensures Xor(a, b) / 2 == Xor(a / 2, b / 2)
    ensures Xor(a, b) % 2 == (a + b) % 2
  {
  }

  lemma {:induction false} XorComm(a: int, b: int)
    ensures Xor(a, b) == Xor(b, a)
    decreases Magnitude(a) + Magnitude(b)
  {
    if !((a == 0 || a == -1) && (b == 0 || b == -1)) {
      XorComm(a / 2, b / 2);
    }
  }

  lemma {:induction false} XorZero(a: int)
    ensures Xor(a, 0) == a
    ensures Xor(0, a) == a
    decreases Magnitude(a)
  {
    if a != 0 && a != -1 {
      XorZero(a / 2);
    }
  }

  /** Xor with -1 is the complement. */
  lemma {:induction false} XorOnes(a: int)
    ensures Xor(a, -1) == -1 - a
    decreases Magnitude(a)
  {
    if a != 0 && a != -1 {
      XorOnes(a / 2);
    }
  }

  lemma {:induction false} XorSelf(a: int)
    ensures Xor(a, a) == 0
    decreases Magnitude(a)
  {
    if a != 0 && a != -1 {
      XorSelf(a / 2);
    }
  }

  lemma Parity(a: int, b: int, c: int, x: int, y: int)
    requires x % 2 == (a + b) % 2 && y % 2 == (b + c) % 2
    ensures (x + c) % 2 == (a + y) % 2
  {
  }

  lemma HalfSmaller(a: int)
    ensures Magnitude(a / 2) <= Magnitude(a)
    ensures a != 0 && a != -1 ==> Magnitude(a / 2) < Magnitude(a)
  {
  }

  lemma {:induction false} XorAssoc(a: int, b: int, c: int)
    ensures Xor(Xor(a, b), c) == Xor(a, Xor(b, c))
    decreases Magnitude(a) + Magnitude(b) + Magnitude(c)
  {
    hide Xor;
    if (a == 0 || a == -1) && (b == 0 || b == -1) && (c == 0 || c == -1) {
      XorAssocSigns(a, b, c);
    } else {
      HalfSmaller(a);
      HalfSmaller(b);
      HalfSmaller(c);
      hide Magnitude;
      XorAssoc(a / 2, b / 2, c / 2);
      XorBits(a, b);
      XorBits(b, c);
      XorBits(Xor(a, b), c);
      XorBits(a, Xor(b, c));
      Parity(a, b, c, Xor(a, b), Xor(b, c));
    }
  }

  lemma XorAssocSigns(a: int, b: int, c: int)
    requires (a == 0 || a == -1) && (b == 0 || b == -1) && (c == 0 || c == -1)
    ensures Xor(Xor(a, b), c) == Xor(a, Xor(b, c))
  {
  }

  lemma XorCancel(a: int, b: int)
    ensures Xor(Xor(a, b), b) == a
  {
    XorAssoc(a, b, b);
    XorSelf(b);
    XorZero(a);
  }

  lemma {:induction false} XorEqZero(a: int, b: int)
    requires Xor(a, b) == 0
    ensures a == b
  {
    XorCancel(a, b);
    XorZero(b);
  }

  /** (a ^ b) ^ (c ^ d) == (a ^ c) ^ (b ^ d). */
  lemma XorSwap(a: int, b: int, c: int, d: int)
    ensures Xor(Xor(a, b), Xor(c, d)) == Xor(Xor(a, c), Xor(b, d))
  {
    XorAssoc(a, b, Xor(c, d));
    XorAssoc(b, c, d);
    XorComm(b, c);
    XorAssoc(c, b, d);
    XorAssoc(a, c, Xor(b, d));
  }

  lemma {:induction false} XorRange(a: nat, b: nat, n: nat)
    requires a < Pow(2, n) && b < Pow(2, n)
    ensures 0 <= Xor(a, b) < Pow(2, n)
  {
    if n > 0 {
      XorRange(a / 2, b / 2, n - 1);
      XorBits(a, b);
    }
  }

  /** Xor acts separately on the bits above and below bit `n`. */
  lemma {:induction false} XorSplit(a: int, b: int, n: nat)
    ensures Pow(2, n) > 0
    ensures Xor(a, b) / Pow(2, n) == Xor(a / Pow(2, n), b / Pow(2, n))
    ensures Xor(a, b) % Pow(2, n) == Xor(a % Pow(2, n), b % Pow(2, n))
    decreases n
  {
    PowPositive(2, n);
    if n == 0 {
      XorZero(0);
    } else {
      hide Xor;
      var p := Pow(2, n - 1);
      PowPositive(2, n - 1);
      XorSplit(a / 2, b / 2, n - 1);
      XorSplitStep(a, b, p);
    }
  }

  lemma XorSplitStep(a: int, b: int, p: nat)
    requires p > 0
    requires Xor(a / 2, b / 2) / p == Xor(a / 2 / p, b / 2 / p)
    requires Xor(a / 2, b / 2) % p == Xor(a / 2 % p, b / 2 % p)
    ensures Xor(a, b) / (2 * p) == Xor(a / (2 * p), b / (2 * p))
    ensures Xor(a, b) % (2 * p) == Xor(a % (2 * p), b % (2 * p))
  {
    var x := Xor(a, b);
    XorBits(a, b);
    HalveDivMod(a, p);
    HalveDivMod(b, p);
    HalveDivMod(x, p);
    XorLow(a, b, a % (2 * p), b % (2 * p), x, p);
  }

  lemma XorLow(a: int, b: int, a': int, b': int, x: int, p: nat)
    requires p > 0
    requires a' / 2 == a / 2 % p && a' % 2 == a % 2
    requires b' / 2 == b / 2 % p && b' % 2 == b % 2
    requires x / 2 % p == Xor(a / 2 % p, b / 2 % p) && x % 2 == (a + b) % 2
    ensures Xor(a', b') == 2 * (x / 2 % p) + x % 2
  {
    hide Xor;
    XorBits(a', b');
    SumParity(a, b, a', b');
  }

  lemma SumParity(a: int, b: int, a': int, b': int)
    requires a' % 2 == a % 2 && b' % 2 == b % 2
    ensures (a' + b') % 2 == (a + b) % 2
  {
  }

  lemma HalveDivMod(a: int, p: nat)
    requires p > 0
    ensures a / (2 * p) == (a / 2) / p
    ensures a % (2 * p) == 2 * ((a / 2) % p) + a % 2
    ensures a % (2 * p) / 2 == (a / 2) % p && a % (2 * p) % 2 == a % 2
  {
    var h := a / 2;
    DivModUnique(a, 2 * p, h / p, 2 * (h % p) + a % 2);
  }

  lemma DivModUnique(a: int, m: nat, q: int, r: int)
    requires m > 0 && 0 <= r < m && a == m * q + r
    ensures a / m == q && a % m == r
  {
    var d := q - a / m;
    assert m * d == a % m - r;
    assert d >= 1 ==> m * d >= m;
    assert d <= -1 ==> m * d <= 0 - m;
  }

  lemma DivTwice(v: int, m: nat, p: nat)
    requires m > 0 && p > 0
    ensures v / m / p == v / (m * p)
  {
    var q, r := v / m / p, v / m % p;
    TwoDigits(m, p, q, r, v % m);
    assert v / m == p * q + r && v == m * (v / m) + v % m;
    DivModUnique(v, m * p, q, m * r + v % m);
  }

  lemma TwoDigits(m: nat, p: nat, q: int, r: nat, t: nat)
    requires r < p && t < m
    ensures m * (p * q + r) + t == (m * p) * q + (m * r + t)
    ensures 0 <= m * r + t < m * p
  {
    var k: nat := p - 1 - r;
    assert m * p == m * (k + r + 1) == m * k + m * r + m;
    MulDistributes(m, p, q, r);
  }

  lemma MulDistributes(m: int, p: int, q: int, r: int)
    ensures m * (p * q + r) == (m * p) * q + m * r
  {
  }

  // ---------------------------------------------------------------- little endian

  /** The low `n` bytes of `v`, least significant first. */
  function Le(v: int, n: nat): (s: Bytes)
    ensures |s| == n
    decreases n
  {
    if n == 0 then [] else [v % 256] + Le(v / 256, n - 1)
  }

  function Un(s: Bytes): nat {
    if s == [] then 0 else s[0] + 256 * Un(s[1..])
  }

  lemma {:induction false} UnLe(v: int, n: nat)
    ensures Pow(256, n) > 0
    ensures Un(Le(v, n)) == v % Pow(256, n)
    decreases n
  {
    PowPositive(256, n);
    if n > 0 {
      UnLe(v / 256, n - 1);
      var m := Pow(256, n - 1);
      var q := v / 256;
      assert Le(v, n)[1..] == Le(q, n - 1);
      assert m * (q / m) + q % m == q;
      assert 256 * m * (q / m) == 256 * (m * (q / m));
      DivModUnique(v, 256 * m, q / m, 256 * (q % m) + v % 256);
    }
  }

  lemma {:induction false} LeUn(s: Bytes)
    ensures Le(Un(s), |s|) == s
    ensures Un(s) < Pow(256, |s|)
  {
    if s != [] {
      var rest := Un(s[1..]);
      LeUn(s[1..]);
      assert Un(s) == s[0] + 256 * rest;
      DivModUnique(Un(s), 256, rest, s[0]);
      assert [s[0]] + s[1..] == s;
    }
  }

  lemma Pow256Values()
    ensures Pow(256, 1) == 0x100
    ensures Pow(256, 2) == U16
    ensures Pow(256, 4) == U32
    ensures Pow(256, 6) == U48
    ensures Pow(256, 8) == U64
  {
    assert Pow(256, 3) == 0x100_0000;
    assert Pow(256, 5) == 0x100_0000_0000;
    assert Pow(256, 7) == 0x100_0000_0000_0000;
  }

  lemma LeInjective(v: int, w: int, n: nat)
    requires 0 <= v < Pow(256, n) && 0 <= w < Pow(256, n)
    requires Le(v, n) == Le(w, n)
    ensures v == w
  {
    UnLe(v, n);
    UnLe(w, n);
    PowPositive(256, n);
    DivModUnique(v, Pow(256, n), 0, v);
    DivModUnique(w, Pow(256, n), 0, w);
  }
}
