/** The parts of the Java language and class library that the activities rely on:
    two's-complement `int` and `long`, truncating division, narrowing casts,
    `byte[]` signedness, `String.trim` and `Arrays.fill`. */
module JavaLang {
  import opened Bits

  const TWO31: int := 0x8000_0000
  const TWO63: int := 0x8000_0000_0000_0000

  /** Java `int`. */
  type Int = x: int | -0x8000_0000 <= x < 0x8000_0000
  /** Java `long`. */
  type Long = x: int | -0x8000_0000_0000_0000 <= x < 0x8000_0000_0000_0000
  /** Java `char`: one UTF-16 code unit. */
  type JChar = c: int | 0 <= c < 0x1_0000
  /** A Java `String` as its sequence of UTF-16 code units. */
  type JString = seq<JChar>

  /** The `long` that an exact integer result wraps to (Java arithmetic is modulo 2^64). */
  function WrapLong(x: int): (r: Long)
    ensures (r - x) % TWO64 == 0
    ensures -TWO63 <= x < TWO63 ==> r == x
  {
    (x + TWO63) % TWO64 - TWO63
  }

  /** The `int` that an exact integer result wraps to; also the narrowing cast `(int)` of a `long`. */
  function WrapInt(x: int): (r: Int)
    ensures (r - x) % TWO32 == 0
    ensures -TWO31 <= x < TWO31 ==> r == x
  {
    (x + TWO31) % TWO32 - TWO31
  }

  function Abs(x: int): nat
  {
    if x < 0 then -x else x
  }

  /** Integer division rounding toward zero, as Java's `/` before overflow. */
  function TruncDiv(a: int, b: int): int
    requires b != 0
  {
    if a >= 0 && b > 0 then a / b
    else if a >= 0 then -(a / -b)
    else if b > 0 then -((-a) / b)
    else (-a) / (-b)
  }

  /** Truncating division: the remainder `a - q * b` is smaller than `b` in magnitude and
      carries the sign of `a` (it lies in `[0, |b|)` for `a >= 0` and in `(-|b|, 0]` for
      `a < 0`), and the quotient is no larger than `a` in magnitude. */
  predicate TruncRemainder(a: int, b: int)
    requires b != 0
  {
    var q := TruncDiv(a, b); var rem := a - q * b;
    (a >= 0 ==> 0 <= rem < Abs(b)) && (a < 0 ==> rem <= 0 && -rem < Abs(b)) && Abs(q) <= Abs(a)
  }

  /** `TruncDiv` meets that characterisation, case by case on the signs of the operands. */
  lemma TruncDivSpec(a: int, b: int)
    requires b != 0
    ensures TruncRemainder(a, b)
  {
    if a >= 0 && b > 0 {
      TruncDivPositive(a, b);
    } else if a >= 0 {
      TruncDivNegDivisor(a, b);
    } else if b > 0 {
      TruncDivNegDividend(a, b);
    } else {
      TruncDivBothNeg(a, b);
    }
  }

  lemma TruncDivPositive(a: int, b: int)
    requires a >= 0 && b > 0
    ensures TruncRemainder(a, b)
  {
    QuotientBelow(a, b);
  }

  lemma TruncDivNegDivisor(a: int, b: int)
    requires a >= 0 && b < 0
    ensures TruncRemainder(a, b)
  {
    var d := -b;
    QuotientBelow(a, d);
    var m := a / d;
    assert TruncDiv(a, b) == -m && -m * b == m * d;
  }

  lemma TruncDivNegDividend(a: int, b: int)
    requires a < 0 && b > 0
    ensures TruncRemainder(a, b)
  {
    QuotientBelow(-a, b);
    var m := (-a) / b;
    assert TruncDiv(a, b) == -m && -m * b == -(m * b);
  }

  lemma TruncDivBothNeg(a: int, b: int)
    requires a < 0 && b < 0
    ensures TruncRemainder(a, b)
  {
    var d := -b;
    QuotientBelow(-a, d);
    var m := (-a) / d;
    assert TruncDiv(a, b) == m && m * b == -(m * d);
  }

  /** Java's `a / b` on `long`: truncating, and `Long.MIN_VALUE / -1` wraps back to `Long.MIN_VALUE`. */
  function LongDiv(a: Long, b: Long): (r: Long)
    requires b != 0
    ensures a >= 0 && b > 0 ==> r == a / b
    ensures a == -TWO63 && b == -1 ==> r == a
    ensures !(a == -TWO63 && b == -1) ==>
      var rem := a - r * b; (a >= 0 ==> 0 <= rem < Abs(b)) && (a < 0 ==> rem <= 0 && -rem < Abs(b))
  {
    TruncDivSpec(a, b);
    WrapLong(TruncDiv(a, b))
  }

  /** Dividing `Long.MIN_VALUE` by -1 overflows and wraps back to `Long.MIN_VALUE`; a
      negative dividend rounds toward zero. */
  lemma LongDivEdges()
    ensures LongDiv(-TWO63, -1) == -TWO63
    ensures LongDiv(-7, 2) == -3 && LongDiv(7, -2) == -3
  {
  }

  /** Java's `Math.min` on `long`. */
  function MinLong(a: Long, b: Long): (r: Long)
    ensures r <= a && r <= b && (r == a || r == b)
  {
    if a <= b then a else b
  }

  /** The bit pattern of a `long` as an unsigned 64-bit number. */
  function LongBits(v: Long): (u: uint64)
    ensures (u - v) % TWO64 == 0
  {
    if v < 0 then v + TWO64 else v
  }

  /** The `long` whose bit pattern is `u`. */
  function LongOfBits(u: uint64): (v: Long)
    ensures LongBits(v) == u
  {
    if u >= TWO63 then u - TWO64 else u
  }

  /** The bit pattern of an `int` as an unsigned 32-bit number. */
  function IntBits(v: Int): (u: uint32)
    ensures (u - v) % TWO32 == 0
  {
    if v < 0 then v + TWO32 else v
  }

  /** The `int` whose bit pattern is `u`. */
  function IntOfBits(u: uint32): (v: Int)
    ensures IntBits(v) == u
  {
    if u >= TWO31 then u - TWO32 else u
  }

  lemma LongBitsRoundTrip(v: Long)
    ensures LongOfBits(LongBits(v)) == v
  {
  }

  lemma IntBitsRoundTrip(v: Int)
    ensures IntOfBits(IntBits(v)) == v
  {
  }

  /** `String.trim` drops leading code units up to U+0020 ... */
  function TrimStart(s: JString): (r: JString)
    ensures |r| <= |s|
  {
    if s != [] && s[0] <= 0x20 then TrimStart(s[1..]) else s
  }

  /** ... and trailing ones. */
  function TrimEnd(s: JString): (r: JString)
    ensures |r| <= |s|
  {
    if s != [] && s[|s| - 1] <= 0x20 then TrimEnd(s[..|s| - 1]) else s
  }

  /** Java's `String.trim()`. */
  function Trim(s: JString): (r: JString)
    ensures |r| <= |s|
  {
    TrimEnd(TrimStart(s))
  }

  /** What `TrimStart` keeps is a suffix that starts above U+0020, and every code unit
      it drops is at most U+0020. */
  lemma {:induction false} TrimStartShape(s: JString)
    ensures var r := TrimStart(s); r == s[|s| - |r|..] && (r == [] || r[0] > 0x20)
    ensures var r := TrimStart(s); forall i :: 0 <= i < |s| - |r| ==> s[i] <= 0x20
  {
    if s != [] && s[0] <= 0x20 {
      TrimStartShape(s[1..]);
      var r := TrimStart(s[1..]);
      assert s[1..][|s| - 1 - |r|..] == s[|s| - |r|..];
      forall i | 1 <= i < |s| - |r|
        ensures s[i] <= 0x20
      {
        assert s[i] == s[1..][i - 1];
      }
    }
  }

  /** What `TrimEnd` keeps is a prefix that ends above U+0020, and every code unit it
      drops is at most U+0020. */
  lemma {:induction false} TrimEndShape(s: JString)
    ensures var r := TrimEnd(s); r == s[..|r|] && (r == [] || r[|r| - 1] > 0x20)
    ensures var r := TrimEnd(s); forall i :: |r| <= i < |s| ==> s[i] <= 0x20
  {
    if s != [] && s[|s| - 1] <= 0x20 {
      TrimEndShape(s[..|s| - 1]);
      var r := TrimEnd(s[..|s| - 1]);
      assert s[..|s| - 1][..|r|] == s[..|r|];
      forall i | |r| <= i < |s| - 1
        ensures s[i] <= 0x20
      {
        assert s[i] == s[..|s| - 1][i];
      }
    }
  }

  /** A trimmed string is empty or starts and ends above U+0020. */
  lemma TrimShape(s: JString)
    ensures var r := Trim(s); r == [] || (r[0] > 0x20 && r[|r| - 1] > 0x20)
  {
    var t := TrimStart(s);
    TrimStartShape(s);
    TrimEndShape(t);
    var r := TrimEnd(t);
    if r != [] {
      assert r[0] == t[0];
    }
  }

  /** A string trims to the empty string exactly when every code unit in it is at most U+0020. */
  lemma {:induction false} TrimEmptyIff(s: JString)
    ensures Trim(s) == [] <==> forall i :: 0 <= i < |s| ==> s[i] <= 0x20
  {
    TrimStartEmptyIff(s);
    TrimStartShape(s);
    var t := TrimStart(s);
    if t != [] {
      assert t[0] > 0x20;
      TrimEndKeepsFirst(t);
      assert s[|s| - |t|] > 0x20;
    }
  }

  lemma {:induction false} TrimStartEmptyIff(s: JString)
    ensures TrimStart(s) == [] <==> forall i :: 0 <= i < |s| ==> s[i] <= 0x20
  {
    if s != [] && s[0] <= 0x20 {
      TrimStartEmptyIff(s[1..]);
      assert forall i :: 1 <= i < |s| ==> s[i] == s[1..][i - 1];
    }
  }

  /** Trimming the end of a string whose first unit is kept leaves a non-empty string. */
  lemma {:induction false} TrimEndKeepsFirst(t: JString)
    requires t != [] && t[0] > 0x20
    ensures TrimEnd(t) != []
  {
    if t[|t| - 1] <= 0x20 {
      TrimEndKeepsFirst(t[..|t| - 1]);
    }
  }

  /** `java.util.Arrays.fill(a, v)`. */
  method Fill(a: array<uint8>, v: uint8)
    modifies a
    ensures forall i :: 0 <= i < a.Length ==> a[i] == v
  {
    forall i | 0 <= i < a.Length {
      a[i] := v;
    }
  }
}
