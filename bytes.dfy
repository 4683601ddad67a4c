/** Little- and big-endian encodings of unsigned integers as byte sequences. */
module Bytes {
  import opened Bits

  function Pow256(n: nat): (r: nat)
    ensures r >= 1
  {
    if n == 0 then 1 else 256 * Pow256(n - 1)
  }

  lemma Pow256Values()
    ensures Pow256(2) == 0x1_0000 && Pow256(4) == TWO32 && Pow256(8) == TWO64
  {
    assert Pow256(4) == TWO32;
    assert Pow256(8) == TWO64;
  }

  function Zeros(n: nat): (z: seq<uint8>)
    ensures |z| == n && forall i :: 0 <= i < n ==> z[i] == 0
  {
    seq(n, _ => 0)
  }

  /** The `n` low-order bytes of `v`, least significant first. */
  function LeBytes(v: nat, n: nat): (b: seq<uint8>)
    ensures |b| == n
  {
    if n == 0 then [] else [v % 256] + LeBytes(v / 256, n - 1)
  }

  /** The number a byte sequence denotes when read least significant byte first. */
  function LeValue(b: seq<uint8>): (v: nat)
    ensures v < Pow256(|b|)
  {
    if b == [] then 0 else b[0] + 256 * LeValue(b[1..])
  }

  /** The `n` low-order bytes of `v`, most significant first. */
  function BeBytes(v: nat, n: nat): (b: seq<uint8>)
    ensures |b| == n
  {
    if n == 0 then [] else BeBytes(v / 256, n - 1) + [v % 256]
  }

  /** The number a byte sequence denotes when read most significant byte first. */
  function BeValue(b: seq<uint8>): (v: nat)
    ensures v < Pow256(|b|)
  {
    if b == [] then 0 else 256 * BeValue(b[..|b| - 1]) + b[|b| - 1]
  }

  lemma {:induction false} LeRoundTrip(v: nat, n: nat)
    requires v < Pow256(n)
    ensures LeValue(LeBytes(v, n)) == v
  {
    if n > 0 {
      LeRoundTrip(v / 256, n - 1);
      assert LeBytes(v, n)[1..] == LeBytes(v / 256, n - 1);
    }
  }

  lemma {:induction false} LeBytesOfValue(b: seq<uint8>)
    ensures LeBytes(LeValue(b), |b|) == b
  {
    if b != [] {
      var t := LeValue(b[1..]);
      DivUnique(LeValue(b), 256, t, b[0]);
      LeBytesOfValue(b[1..]);
      assert LeBytes(LeValue(b), |b|) == [b[0]] + LeBytes(t, |b| - 1);
      assert b == [b[0]] + b[1..];
    }
  }

  lemma {:induction false} BeRoundTrip(v: nat, n: nat)
    requires v < Pow256(n)
    ensures BeValue(BeBytes(v, n)) == v
  {
    if n > 0 {
      BeRoundTrip(v / 256, n - 1);
      var b := BeBytes(v, n);
      assert b[..|b| - 1] == BeBytes(v / 256, n - 1);
    }
  }

  /** Byte `k` of the little-endian encoding is `(v >> 8k) & 0xff`. */
  lemma {:induction false} LeBytesAt(v: nat, n: nat, k: nat)
    requires k < n
    ensures LeBytes(v, n)[k] == (v / Pow256(k)) % 256
  {
    if k > 0 {
      LeBytesAt(v / 256, n - 1, k - 1);
      DivDiv(v, 256, Pow256(k - 1));
    }
  }

  lemma DivDiv(v: nat, a: nat, b: nat)
    requires a > 0 && b > 0
    ensures v / a / b == v / (a * b)
  {
    var x := v / a;
    var q := x / b;
    var r1 := v % a;
    var r2 := x % b;
    var ab := a * b;
    var rest := a * r2 + r1;
    assert v == a * x + r1;
    assert x == b * q + r2;
    MulAssoc(a, x, b, q, r2);
    assert v == ab * q + rest;
    MulMono(a, r2, b - 1);
    MulSucc(a, b - 1);
    assert rest < ab;
    DivUnique(v, ab, q, rest);
  }

  lemma MulAssoc(a: nat, x: nat, b: nat, q: nat, r: nat)
    requires x == b * q + r
    ensures a * x == (a * b) * q + a * r
  {
  }

  lemma MulSucc(a: nat, k: nat)
    ensures a * (k + 1) == a * k + a
  {
  }

  lemma MulMono(d: nat, x: nat, y: nat)
    requires x <= y
    ensures d * x <= d * y
  {
    assert d * y - d * x == d * (y - x);
  }

  /** Division is determined by any quotient and remainder that fit. */
  lemma DivUnique(v: nat, d: nat, q: nat, r: nat)
    requires d > 0 && v == d * q + r && r < d
    ensures v / d == q && v % d == r
  {
    var q', r' := v / d, v % d;
    assert v == d * q' + r';
    if q' < q {
      MulMono(d, q' + 1, q);
    } else if q < q' {
      MulMono(d, q + 1, q');
    }
  }

  /** Reading `n` bytes little-endian back gives the value modulo `256^n`: the encoding truncates. */
  lemma {:induction false} LeValueOfBytes(v: nat, n: nat)
    ensures LeValue(LeBytes(v, n)) == v % Pow256(n)
  {
    if n > 0 {
      LeValueOfBytes(v / 256, n - 1);
      assert LeBytes(v, n)[1..] == LeBytes(v / 256, n - 1);
      var p := Pow256(n - 1);
      assert v % 256 + 256 * ((v / 256) % p) == v % (256 * p) by {
        ModMul(v, 256, p);
      }
    }
  }

  lemma ModMul(v: nat, a: nat, b: nat)
    requires a > 0 && b > 0
    ensures v % (a * b) == v % a + a * ((v / a) % b)
  {
    DivDiv(v, a, b);
    var q := v / a / b;
    assert v / a == b * q + (v / a) % b;
    assert v == a * (v / a) + v % a;
    assert v == (a * b) * q + (v % a + a * ((v / a) % b));
    assert v % a + a * ((v / a) % b) < a * b by {
      MulMono(a, (v / a) % b, b - 1);
    }
    DivUnique(v, a * b, q, v % a + a * ((v / a) % b));
  }

  /** Two values below `256^n` with the same big-endian encoding are equal. */
  lemma BeInjective(u: nat, v: nat, n: nat)
    requires u < Pow256(n) && v < Pow256(n) && BeBytes(u, n) == BeBytes(v, n)
    ensures u == v
  {
    BeRoundTrip(u, n);
    BeRoundTrip(v, n);
  }

  /** Two values below `256^n` with the same little-endian encoding are equal. */
  lemma LeInjective(u: nat, v: nat, n: nat)
    requires u < Pow256(n) && v < Pow256(n) && LeBytes(u, n) == LeBytes(v, n)
    ensures u == v
  {
    LeRoundTrip(u, n);
    LeRoundTrip(v, n);
  }
}
