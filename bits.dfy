/** Fixed-width unsigned integers and the bitwise operators of C, defined on
    natural numbers bit by bit so that their laws can be proved by induction. */
module Bits {

  const TWO8: nat := 0x100
  const TWO32: nat := 0x1_0000_0000
  const TWO64: nat := 0x1_0000_0000_0000_0000

  type uint8 = x: int | 0 <= x < 0x100
  type uint32 = x: int | 0 <= x < 0x1_0000_0000
  type uint64 = x: int | 0 <= x < 0x1_0000_0000_0000_0000

  function Pow2(n: nat): (r: nat)
    ensures r >= 1
  {
    if n == 0 then 1 else 2 * Pow2(n - 1)
  }

  /** Bitwise AND (`a & b`). */
  function And(a: nat, b: nat): (r: nat)
    ensures r <= a && r <= b
    decreases a + b
  {
    if a == 0 && b == 0 then 0
    else 2 * And(a / 2, b / 2) + (if a % 2 == 1 && b % 2 == 1 then 1 else 0)
  }

  /** Bitwise inclusive OR (`a | b`). */
  function Or(a: nat, b: nat): (r: nat)
    ensures a <= r && b <= r && r <= a + b
    decreases a + b
  {
    if a == 0 && b == 0 then 0
    else 2 * Or(a / 2, b / 2) + (if a % 2 == 1 || b % 2 == 1 then 1 else 0)
  }

  /** Bitwise exclusive OR (`a ^ b`). */
  function Xor(a: nat, b: nat): (r: nat)
    ensures r <= a + b
    decreases a + b
  {
    if a == 0 && b == 0 then 0
    else 2 * Xor(a / 2, b / 2) + (if a % 2 != b % 2 then 1 else 0)
  }

  /** `a >> k` */
  function Shr(a: nat, k: nat): (r: nat)
    ensures r <= a
  {
    var d := Pow2(k);
    QuotientBelow(a, d);
    a / d
  }

  lemma QuotientBelow(a: nat, d: nat)
    requires d >= 1
    ensures 0 <= a / d <= a
  {
    var q := a / d;
    assert d * q + a % d == a;
    MulAtLeast(q, d);
  }

  lemma {:induction false} MulAtLeast(q: nat, d: nat)
    requires d >= 1
    ensures q <= d * q
  {
    if d > 1 {
      MulAtLeast(q, d - 1);
      assert d * q == (d - 1) * q + q;
    }
  }

  /** `a << k` on a 32-bit operand: the bits shifted past bit 31 are lost. */
  function Shl32(a: uint32, k: nat): uint32
  {
    (a * Pow2(k)) % TWO32
  }

  /** `a + b` on uint32 operands, wrapping modulo 2^32. */
  function Add32(a: uint32, b: uint32): uint32
  {
    (a + b) % TWO32
  }

  /** `a - b` on uint32 operands, wrapping modulo 2^32. */
  function Sub32(a: uint32, b: uint32): uint32
  {
    (a - b) % TWO32
  }

  /** `a * b` on uint32 operands, wrapping modulo 2^32. */
  function Mul32(a: uint32, b: uint32): uint32
  {
    (a * b) % TWO32
  }

  /** `~a` on a uint32 operand. */
  function Not32(a: uint32): uint32
  {
    TWO32 - 1 - a
  }

  /** `a | b` on uint32 operands: the result is again a uint32. */
  function Or32(a: uint32, b: uint32): (r: uint32)
    ensures r == Or(a, b)
  {
    Pow2Values();
    OrBelow(a, b, 32);
    Or(a, b)
  }

  /** `a ^ b` on bytes: the result is again a byte. */
  function Xor8(a: uint8, b: uint8): (r: uint8)
    ensures r == Xor(a, b)
  {
    XorBelow(a, b, 8);
    Xor(a, b)
  }

  /** `a | b` on bytes. */
  function Or8(a: uint8, b: uint8): (r: uint8)
    ensures r == Or(a, b)
  {
    OrBelow(a, b, 8);
    Or(a, b)
  }

  lemma {:induction false} OrBelow(a: nat, b: nat, n: nat)
    requires a < Pow2(n) && b < Pow2(n)
    ensures Or(a, b) < Pow2(n)
  {
    if a == 0 && b == 0 {
    } else {
      assert n > 0;
      OrBelow(a / 2, b / 2, n - 1);
    }
  }

  lemma {:induction false} XorBelow(a: nat, b: nat, n: nat)
    requires a < Pow2(n) && b < Pow2(n)
    ensures Xor(a, b) < Pow2(n)
  {
    if a == 0 && b == 0 {
    } else {
      assert n > 0;
      XorBelow(a / 2, b / 2, n - 1);
    }
  }

  lemma {:induction false} XorZeroIff(a: nat, b: nat)
    ensures Xor(a, b) == 0 <==> a == b
    decreases a + b
  {
    if a == 0 && b == 0 {
    } else {
      XorZeroIff(a / 2, b / 2);
    }
  }

  lemma {:induction false} XorInvolutive(a: nat, k: nat)
    ensures Xor(Xor(a, k), k) == a
    decreases a + k
  {
    if a == 0 && k == 0 {
    } else {
      var x := Xor(a, k);
      assert x / 2 == Xor(a / 2, k / 2) && x % 2 == (if a % 2 != k % 2 then 1 else 0);
      XorInvolutive(a / 2, k / 2);
      if x == 0 && k == 0 {
        XorZeroIff(a, k);
      }
    }
  }

  /** An OR is zero exactly when both operands are. */
  lemma OrZeroIff(a: nat, b: nat)
    ensures Or(a, b) == 0 <==> a == 0 && b == 0
  {
  }

  lemma {:induction false} XorZeroLeft(b: nat)
    ensures Xor(0, b) == b
    decreases b
  {
    if b != 0 {
      XorZeroLeft(b / 2);
    }
  }

  lemma {:induction false} OrZeroLeft(b: nat)
    ensures Or(0, b) == b
    decreases b
  {
    if b != 0 {
      OrZeroLeft(b / 2);
    }
  }

  /** OR of operands with no bit in common is their sum: `lo` below `2^n`, the other a multiple of `2^n`. */
  lemma {:induction false} OrDisjoint(lo: nat, k: nat, n: nat)
    requires lo < Pow2(n)
    ensures Or(lo, k * Pow2(n)) == lo + k * Pow2(n)
    decreases n
  {
    if n == 0 {
      OrZeroLeft(k);
    } else {
      var t := k * Pow2(n - 1);
      assert k * Pow2(n) == 2 * t;
      OrDisjoint(lo / 2, k, n - 1);
    }
  }

  /** A mask whose two low bits are clear clears them in the result too. */
  lemma AndLowTwoClear(a: nat, m: nat)
    requires m % 4 == 0
    ensures And(a, m) % 4 == 0
  {
    var k := m / 4;
    var half := m / 2;
    assert m == 4 * k && half == 2 * k;
    assert half % 2 == 0 && half / 2 == k;
    AndEven(a, m);
    AndEven(a / 2, half);
    var y := And(a / 2 / 2, k);
    assert And(a, m) == 4 * y;
    assert (4 * y) / 4 == y;
  }

  /** An even mask clears bit 0: the AND is twice the AND of the halves. */
  lemma AndEven(a: nat, m: nat)
    requires m % 2 == 0
    ensures And(a, m) == 2 * And(a / 2, m / 2)
  {
  }

  /** The powers of two the C code shifts and masks by. */
  lemma Pow2Values()
    ensures Pow2(2) == 4 && Pow2(4) == 16 && Pow2(8) == 0x100 && Pow2(12) == 0x1000
    ensures Pow2(16) == 0x1_0000 && Pow2(20) == 0x10_0000 && Pow2(24) == 0x100_0000
    ensures Pow2(28) == 0x1000_0000 && Pow2(31) == 0x8000_0000 && Pow2(32) == TWO32
  {
    assert Pow2(8) == 0x100;
    Pow2Add(8, 4);
    Pow2Add(8, 8);
    Pow2Add(16, 4);
    Pow2Add(16, 8);
    Pow2Add(24, 4);
    Pow2Add(28, 3);
    Pow2Add(16, 16);
  }

  lemma {:induction false} Pow2Add(a: nat, b: nat)
    ensures Pow2(a + b) == Pow2(a) * Pow2(b)
    decreases b
  {
    if b > 0 {
      Pow2Add(a, b - 1);
      assert Pow2(a + b) == 2 * Pow2(a + b - 1);
    }
  }
}
