/** Go's fixed-width integers, written on Dafny's unbounded integers: widths are subset
    types, and every wrap-around, truncation, shift and bitwise or is spelled out. */
module GoInts {
  type uint16 = x: int | 0 <= x < 0x1_0000
  type uint32 = x: int | 0 <= x < 0x1_0000_0000
  type uint64 = x: int | 0 <= x < 0x1_0000_0000_0000_0000
  type int64 = x: int | -0x8000_0000_0000_0000 <= x < 0x8000_0000_0000_0000

  /** Conversion to a narrower unsigned type keeps the low bits. */
  function ToUint16(x: int): uint16 { x % 0x1_0000 }

  /** A multiple of 2^64 on top of a number that fits is cut off. */
  lemma CutMultiple(q: int, r: int)
    requires 0 <= r < 0x1_0000_0000_0000_0000
    ensures (q * 0x1_0000_0000_0000_0000 + r) % 0x1_0000_0000_0000_0000 == r
  {
  }

  lemma CutAnyMultiple(q: int, x: int)
    ensures (q * 0x1_0000_0000_0000_0000 + x) % 0x1_0000_0000_0000_0000 == x % 0x1_0000_0000_0000_0000
  {
    var p, r := x / 0x1_0000_0000_0000_0000, x % 0x1_0000_0000_0000_0000;
    assert q * 0x1_0000_0000_0000_0000 + x == (q + p) * 0x1_0000_0000_0000_0000 + r;
    CutMultiple(q + p, r);
  }

  function ToUint64(x: int): uint64 { x % 0x1_0000_0000_0000_0000 }

  /** Conversion to a signed type, and signed addition, are two's complement. */
  function ToInt64(x: int): int64 { (x + 0x8000_0000_0000_0000) % 0x1_0000_0000_0000_0000 - 0x8000_0000_0000_0000 }

  function ToInt32(x: int): int { (x + 0x8000_0000) % 0x1_0000_0000 - 0x8000_0000 }

  /** Every conversion yields the one number of its type that differs from x by a multiple of
      2 to its width. */
  lemma ConversionsKeepLowBits(x: int) returns (a: int, b: int, c: int, d: int)
    ensures ToUint16(x) == x - a * 0x1_0000
    ensures ToInt32(x) == x - b * 0x1_0000_0000 && -0x8000_0000 <= ToInt32(x) < 0x8000_0000
    ensures ToUint64(x) == x - c * 0x1_0000_0000_0000_0000
    ensures ToInt64(x) == x - d * 0x1_0000_0000_0000_0000
  {
    a, b := x / 0x1_0000, (x + 0x8000_0000) / 0x1_0000_0000;
    c, d := x / 0x1_0000_0000_0000_0000, (x + 0x8000_0000_0000_0000) / 0x1_0000_0000_0000_0000;
  }

  function Pow2(k: nat): (p: nat)
    ensures p > 0
  {
    if k == 0 then 1 else 2 * Pow2(k - 1)
  }

  function Shl64(x: uint64, k: nat): uint64 { x * Pow2(k) % 0x1_0000_0000_0000_0000 }

  function Shr64(x: uint64, k: nat): uint64 {
    ShiftedRightFits(x, Pow2(k));
    x / Pow2(k)
  }

  lemma ShiftedRightFits(x: nat, p: nat)
    requires p > 0
    ensures 0 <= x / p <= x
  {
    assert x == p * (x / p) + x % p;
    assert x / p >= 0;
    ProductAtLeast(p, x / p);
  }

  lemma ProductAtLeast(p: nat, q: nat)
    requires p > 0
    ensures q <= p * q
  {
    assert p * q == (p - 1) * q + q;
  }

  /** Bitwise or of two non-negative numbers, bit by bit from the lowest. */
  function Or(a: nat, b: nat): nat
    decreases a + b
  {
    if a == 0 && b == 0 then 0
    else 2 * Or(a / 2, b / 2) + (if a % 2 == 1 || b % 2 == 1 then 1 else 0)
  }

  lemma {:induction false} OrZero(a: nat)
    ensures Or(a, 0) == a
  {
    if a != 0 {
      OrZero(a / 2);
    }
  }

  /** Or-ing a number into the zero bits below a shifted one is adding it. */
  lemma {:induction false} OrDisjoint(k: nat, hi: nat, lo: nat)
    requires lo < Pow2(k)
    ensures Or(hi * Pow2(k), lo) == hi * Pow2(k) + lo
  {
    if k == 0 {
      OrZero(hi);
    } else {
      var a := hi * Pow2(k - 1);
      assert hi * Pow2(k) == 2 * a;
      OrDisjoint(k - 1, hi, lo / 2);
    }
  }

  lemma PowersOfTwo()
    ensures Pow2(16) == 0x1_0000 && Pow2(32) == 0x1_0000_0000 && Pow2(48) == 0x1_0000_0000_0000
  {
    assert Pow2(8) == 256;
    assert Pow2(16) == 0x1_0000;
    assert Pow2(24) == 0x100_0000;
    assert Pow2(32) == 0x1_0000_0000;
    assert Pow2(40) == 0x100_0000_0000;
  }

  /** Go's `/` on signed integers truncates toward zero. */
  function TruncDiv(a: int, b: int): int
    requires b > 0
  {
    if a >= 0 then a / b else -((-a) / b)
  }
}
