/**
  The 32-bit integer semantics JavaScript's bitwise operators and typed
  arrays use, stated over unbounded integers: two's-complement conversion
  (ToInt32, ToUint32, ToUint8 of ECMA-262, sections 7.1.6, 7.1.7 and 7.1.11
  of the 2023 edition) and bitwise XOR computed bit by bit.
 */
module Bits {

  /** A value of an `Int32Array` element. */
  type Int32 = x: int | -0x8000_0000 <= x < 0x8000_0000

  function Pow2(k: nat): (p: nat)
    ensures p >= 1
  {
    if k == 0 then 1 else 2 * Pow2(k - 1)
  }

  lemma {:induction false} Pow2Add(a: nat, b: nat)
    ensures Pow2(a + b) == Pow2(a) * Pow2(b)
    decreases a
  {
    if a > 0 {
      Pow2Add(a - 1, b);
      assert Pow2(a + b) == 2 * Pow2(a - 1 + b);
    }
  }

  lemma Pow2Constants()
    ensures Pow2(8) == 0x100
    ensures Pow2(32) == 0x1_0000_0000
  {
    assert Pow2(4) == 16 by {
      assert Pow2(2) == 4;
    }
    Pow2Add(4, 4);
    Pow2Add(8, 8);
    Pow2Add(16, 16);
  }

  /** XOR of the low `k` bits of `a` and `b`, least significant bit first. */
  function XorBits(a: nat, b: nat, k: nat): (r: nat)
    ensures r < Pow2(k)
  {
    if k == 0 then 0
    else 2 * XorBits(a / 2, b / 2, k - 1) + (if a % 2 == b % 2 then 0 else 1)
  }

  /** ToUint32: the 32-bit pattern of an integer. */
  function ToUint32(x: int): (p: nat)
    ensures p < 0x1_0000_0000
    ensures (x - p) % 0x1_0000_0000 == 0
  {
    x % 0x1_0000_0000
  }

  /** ToInt32 of a 32-bit pattern: its two's-complement reading. */
  function ToInt32(p: nat): (x: Int32)
    requires p < 0x1_0000_0000
    ensures ToUint32(x) == p
  {
    if p < 0x8000_0000 then p else p - 0x1_0000_0000
  }

  /** ToUint8: the conversion a byte-array store applies. */
  function ToUint8(x: int): (b: nat)
    ensures b < 0x100
    ensures (x - b) % 0x100 == 0
  {
    x % 0x100
  }

  /** JavaScript's `a ^ b` on two 32-bit integers. */
  function Xor32(a: Int32, b: Int32): (r: Int32)
    ensures ToUint32(r) == XorBits(ToUint32(a), ToUint32(b), 32)
  {
    Pow2Constants();
    ToInt32(XorBits(ToUint32(a), ToUint32(b), 32))
  }

  /** Storing `a ^ b` into a byte keeps the low 8 bits of the 32-bit XOR,
      which is the XOR of the low bytes of `a` and `b`. */
  lemma {:induction false} StoredXorIsLowByteXor(a: Int32, b: Int32)
    ensures ToUint8(Xor32(a, b)) == XorBits(ToUint32(a), ToUint32(b), 32) % 0x100
    ensures ToUint8(Xor32(a, b)) == XorBits(ToUint8(a), ToUint8(b), 8)
  {
    Pow2Constants();
    var ua, ub := ToUint32(a), ToUint32(b);
    var p: int := XorBits(ua, ub, 32);
    assert ToUint8(Xor32(a, b)) == p % 0x100 by {
      if p >= 0x8000_0000 {
        DivModUnique(p - 0x1_0000_0000, 0x100, (p / 0x100) - 0x100_0000, p % 0x100);
      }
    }
    XorBitsLow(ua, ub, 8, 32);
    XorBitsOfLow(ua, ub, 8);
    ModOfMod(a, 0x100, 0x100_0000);
    ModOfMod(b, 0x100, 0x100_0000);
    XorBitsOfLow(ToUint8(a), ToUint8(b), 8);
  }

  /** The low `j` bits of a `k`-bit XOR are the `j`-bit XOR. */
  lemma {:induction false} XorBitsLow(a: nat, b: nat, j: nat, k: nat)
    requires j <= k
    ensures XorBits(a, b, k) % Pow2(j) == XorBits(a, b, j)
    decreases j
  {
    if j > 0 {
      XorBitsLow(a / 2, b / 2, j - 1, k - 1);
      ModOfDouble(XorBits(a / 2, b / 2, k - 1), if a % 2 == b % 2 then 0 else 1, Pow2(j - 1));
    }
  }

  /** A `k`-bit XOR reads only the low `k` bits of its operands. */
  lemma {:induction false} XorBitsOfLow(a: nat, b: nat, k: nat)
    ensures XorBits(a % Pow2(k), b % Pow2(k), k) == XorBits(a, b, k)
    decreases k
  {
    if k > 0 {
      HalfOfMod(a, Pow2(k - 1));
      HalfOfMod(b, Pow2(k - 1));
      XorBitsOfLow(a / 2, b / 2, k - 1);
    }
  }

  lemma MulAtLeast(x: int, d: int)
    requires x >= 1 && d > 0
    ensures x * d >= d
  {
  }

  /** Quotient and remainder are the only such pair. */
  lemma DivModUnique(a: int, d: int, q: int, r: int)
    requires d > 0 && 0 <= r < d && a == q * d + r
    ensures a / d == q && a % d == r
  {
    var q', r' := a / d, a % d;
    assert a == q' * d + r';
    assert (q - q') * d == r' - r by {
      assert q * d - q' * d == (q - q') * d;
    }
    if q > q' {
      MulAtLeast(q - q', d);
    } else if q < q' {
      MulAtLeast(q' - q, d);
    }
  }

  lemma ModOfDouble(x: nat, c: nat, p: nat)
    requires c < 2 && p > 0
    ensures (2 * x + c) % (2 * p) == 2 * (x % p) + c
  {
    var q, r := x / p, x % p;
    assert x == q * p + r;
    assert 2 * x + c == q * (2 * p) + (2 * r + c);
    DivModUnique(2 * x + c, 2 * p, q, 2 * r + c);
  }

  lemma HalfOfMod(a: nat, p: nat)
    requires p > 0
    ensures (a % (2 * p)) / 2 == (a / 2) % p
    ensures (a % (2 * p)) % 2 == a % 2
  {
    var q, r := (a / 2) / p, (a / 2) % p;
    assert a / 2 == q * p + r;
    assert a == q * (2 * p) + (2 * r + a % 2);
    DivModUnique(a, 2 * p, q, 2 * r + a % 2);
  }

  lemma ModOfMod(a: int, m: int, n: int)
    requires m > 0 && n > 0
    ensures (a % (m * n)) % m == a % m
  {
    var q, r := a / (m * n), a % (m * n);
    assert a == q * (m * n) + r;
    var q2, r2 := r / m, r % m;
    assert r == q2 * m + r2;
    assert a == (q * n + q2) * m + r2;
    DivModUnique(a, m, q * n + q2, r2);
  }
}
