/** The Poly1305 authenticator of `poly1305.c`: 28-bit limbs held in uint32
    words, a streaming context that buffers partial 16-byte blocks, and a
    constant-time tag comparison. The arithmetic is the code's own, with every
    C wrap-around written out; it is not the RFC 8439 algorithm (the code uses
    the constants of a 26-bit-limb design on 28-bit limbs). */
module Poly1305 {
  import opened Bits
  import opened Bytes

  const MASK28: nat := 0x0fff_ffff
  const CLAMP: nat := 0x0fff_fffc
  /** `1 << 24`, added to the top limb of every full block. */
  const HIBIT: uint32 := 0x100_0000
  const TAGLEN: nat := 16
  const KEYLEN: nat := 32

  /** Five limbs of `r` or `h`. */
  type Limbs = s: seq<uint32> | |s| == 5 witness [0, 0, 0, 0, 0]
  /** One 16-byte message block. */
  type Block = b: seq<uint8> | |b| == 16 witness seq(16, _ => 0)

  /** `(uint64_t)` arithmetic wraps modulo 2^64. */
  function Wide(x: nat): uint64
  {
    x % TWO64
  }

  /** `(uint64_t)a * b` of two uint32 values, which cannot overflow. */
  function Mul64(a: uint32, b: uint32): (p: uint64)
    ensures p == a * b
  {
    MulMono(a, b, TWO32 - 1);
    MulMono(TWO32 - 1, a, TWO32 - 1);
    a * b
  }

  /** The `(uint32_t)` cast keeps the low 32 bits. */
  function Narrow(x: nat): uint32
  {
    x % TWO32
  }

  // ---------------------------------------------------------------- load/store

  /** `load32_le`: four bytes ORed together at shifts 0, 8, 16 and 24, which reads
      them as a little-endian number. */
  function Load32Le(b: seq<uint8>): (w: uint32)
    requires |b| >= 4
    ensures w == LeValue(b[..4])
  {
    Load32LeValue(b);
    Load32LeOr(b)
  }

  function Load32LeOr(b: seq<uint8>): uint32
    requires |b| >= 4
  {
    Or32(Or32(Or32(b[0], Shl32(b[1], 8)), Shl32(b[2], 16)), Shl32(b[3], 24))
  }

  /** `(a >> i) | (b << j)` on uint32 words, the way limbs are cut from words and back. */
  function Splice(a: uint32, i: nat, b: uint32, j: nat): uint32
  {
    Or32(Shr(a, i), Shl32(b, j))
  }

  /** `x & 0x0ffffffc`: the clamp keeps 28 bits and clears the low two. */
  function Clamp(x: nat): (c: nat)
    ensures c <= MASK28 && c % 4 == 0
  {
    AndLowTwoClear(x, CLAMP);
    And(x, CLAMP)
  }

  lemma LeValue4(b: seq<uint8>)
    requires |b| == 4
    ensures LeValue(b) == b[0] as int + 0x100 * (b[1] as int) + 0x1_0000 * (b[2] as int) + 0x100_0000 * (b[3] as int)
  {
    var v3 := LeValue(b[3..]);
    assert v3 == b[3] as int by {
      assert b[3..][1..] == [];
    }
    var v2 := LeValue(b[2..]);
    assert v2 == b[2] as int + 0x100 * v3 by {
      assert b[2..][1..] == b[3..];
    }
    var v1 := LeValue(b[1..]);
    assert v1 == b[1] as int + 0x100 * v2 by {
      assert b[1..][1..] == b[2..];
    }
  }

  /** ORing a byte shifted left by `n` into a value below `2^n` adds it. */
  lemma OrShiftedByte(lo: nat, x: uint8, n: nat)
    requires n == 8 || n == 16 || n == 24
    requires lo < Pow2(n)
    ensures Or(lo, Shl32(x, n)) == lo + x * Pow2(n)
  {
    Pow2Values();
    var p := Pow2(n);
    MulMono(p, x, 0xff);
    assert x * p < TWO32;
    assert Shl32(x, n) == x * p;
    OrDisjoint(lo, x, n);
  }

  /** `load32_le` reads its four bytes as a little-endian number. */
  lemma Load32LeValue(b: seq<uint8>)
    requires |b| >= 4
    ensures Load32LeOr(b) == LeValue(b[..4])
  {
    Pow2Values();
    LeValue4(b[..4]);
    var b0, b1, b2, b3 := b[0] as int, b[1] as int, b[2] as int, b[3] as int;
    OrShiftedByte(b0, b[1], 8);
    var x1 := b0 + 0x100 * b1;
    assert Or32(b[0], Shl32(b[1], 8)) == x1;
    OrShiftedByte(x1, b[2], 16);
    var x2 := x1 + 0x1_0000 * b2;
    assert Or32(x1, Shl32(b[2], 16)) == x2;
    OrShiftedByte(x2, b[3], 24);
    assert Or32(x2, Shl32(b[3], 24)) == x2 + 0x100_0000 * b3;
  }

  /** `load32_le(store32_le(v)) == v` for every 32-bit `v`. */
  lemma LoadStore32(v: uint32)
    ensures Load32Le(LeBytes(v, 4)) == v
  {
    Pow256Values();
    assert LeBytes(v, 4)[..4] == LeBytes(v, 4);
    LeRoundTrip(v, 4);
  }

  /** `store32_le(dst, val)` at `dst + off`: byte `k` is `(uint8_t)(val >> 8k)`. */
  method Store32Le(dst: array<uint8>, off: nat, val: uint32)
    requires off + 4 <= dst.Length
    modifies dst
    ensures dst[..] == old(dst[..])[..off] + LeBytes(val, 4) + old(dst[..])[off + 4..]
  {
    Pow2Values();
    dst[off] := val % 256;
    dst[off + 1] := Shr(val, 8) % 256;
    dst[off + 2] := Shr(val, 16) % 256;
    dst[off + 3] := Shr(val, 24) % 256;
    LeBytesAt(val, 4, 1);
    LeBytesAt(val, 4, 2);
    LeBytesAt(val, 4, 3);
    Pow256Pow2(1);
    Pow256Pow2(2);
    Pow256Pow2(3);
    assert Pow256(0) == 1;
  }

  lemma {:induction false} Pow256Pow2(k: nat)
    ensures Pow256(k) == Pow2(8 * k)
  {
    if k > 0 {
      Pow256Pow2(k - 1);
      Pow2Values();
      Pow2Add(8 * (k - 1), 8);
    }
  }

  // ---------------------------------------------------------------- arithmetic

  /** `r` from the first 16 key bytes, cut into 28-bit limbs and clamped (`poly1305_init`). */
  function ClampedR(key: seq<uint8>): (r: Limbs)
    requires |key| >= 16
    ensures forall i :: 0 <= i < 5 ==> r[i] <= MASK28
    ensures forall i :: 1 <= i < 5 ==> r[i] % 4 == 0
  {
    var t0, t1, t2, t3 := Load32Le(key[0..]), Load32Le(key[4..]), Load32Le(key[8..]), Load32Le(key[12..]);
    var r0: uint32 := And(t0, MASK28);
    var r1: uint32 := Clamp(Splice(t0, 28, t1, 4));
    var r2: uint32 := Clamp(Splice(t1, 24, t2, 8));
    var r3: uint32 := Clamp(Splice(t2, 20, t3, 12));
    var r4: uint32 := Clamp(Shr(t3, 16));
    ClampedLimbs(r0, r1, r2, r3, r4)
  }

  /** Five limbs of at most 28 bits, the upper four with their low two bits clear. */
  function ClampedLimbs(r0: uint32, r1: uint32, r2: uint32, r3: uint32, r4: uint32): (r: Limbs)
    requires r0 <= MASK28 && r1 <= MASK28 && r2 <= MASK28 && r3 <= MASK28 && r4 <= MASK28
    requires r1 % 4 == 0 && r2 % 4 == 0 && r3 % 4 == 0 && r4 % 4 == 0
    ensures forall i :: 0 <= i < 5 ==> r[i] <= MASK28
    ensures forall i :: 1 <= i < 5 ==> r[i] % 4 == 0
  {
    [r0, r1, r2, r3, r4]
  }

  /** The `s` words of the second 16 key bytes, added at the end (`ctx->pad`). */
  function KeyPad(key: seq<uint8>): (pad: seq<uint32>)
    requires |key| >= 32
    ensures |pad| == 4
    ensures forall j :: 0 <= j < 4 ==> pad[j] == LeValue(key[16 + 4 * j..20 + 4 * j])
  {
    assert key[16..][..4] == key[16..20];
    assert key[20..][..4] == key[20..24];
    assert key[24..][..4] == key[24..28];
    assert key[28..][..4] == key[28..32];
    [Load32Le(key[16..]), Load32Le(key[20..]), Load32Le(key[24..]), Load32Le(key[28..])]
  }

  /** One iteration of the `while (len >= 16)` loop of `poly1305_blocks`:
      add the block to `h`, multiply by `r` and partially reduce. */
  function BlockStep(h: Limbs, r: Limbs, m: Block, hibit: uint32): (h': Limbs)
    ensures h'[0] <= MASK28 && h'[2] <= MASK28 && h'[3] <= MASK28 && h'[4] <= MASK28
  {
    Reduce(Multiply(AddBlock(h, m, hibit), r))
  }

  /** `h += m[i]`: the block cut into 28-bit limbs, `hibit` added to the top one. */
  function AddBlock(h: Limbs, m: Block, hibit: uint32): (a: Limbs)
  {
    var t0, t1, t2, t3 := Load32Le(m[0..]), Load32Le(m[4..]), Load32Le(m[8..]), Load32Le(m[12..]);
    [Add32(h[0], And(t0, MASK28)),
     Add32(h[1], And(Splice(t0, 28, t1, 4), MASK28)),
     Add32(h[2], And(Splice(t1, 24, t2, 8), MASK28)),
     Add32(h[3], And(Splice(t2, 20, t3, 12), MASK28)),
     Add32(h[4], Or32(Shr(t3, 16), hibit))]
  }

  /** `h *= r`: the five 64-bit column sums, with `s_i = r_i * 5` for the wrapped columns. */
  function Multiply(a: Limbs, r: Limbs): (d: seq<uint64>)
    ensures |d| == 5
  {
    var s1, s2, s3, s4 := Mul32(r[1], 5), Mul32(r[2], 5), Mul32(r[3], 5), Mul32(r[4], 5);
    [Wide(Mul64(a[0], r[0]) + Mul64(a[1], s4) + Mul64(a[2], s3) + Mul64(a[3], s2) + Mul64(a[4], s1)),
     Wide(Mul64(a[0], r[1]) + Mul64(a[1], r[0]) + Mul64(a[2], s4) + Mul64(a[3], s3) + Mul64(a[4], s2)),
     Wide(Mul64(a[0], r[2]) + Mul64(a[1], r[1]) + Mul64(a[2], r[0]) + Mul64(a[3], s4) + Mul64(a[4], s3)),
     Wide(Mul64(a[0], r[3]) + Mul64(a[1], r[2]) + Mul64(a[2], r[1]) + Mul64(a[3], r[0]) + Mul64(a[4], s4)),
     Wide(Mul64(a[0], r[4]) + Mul64(a[1], r[3]) + Mul64(a[2], r[2]) + Mul64(a[3], r[1]) + Mul64(a[4], r[0]))]
  }

  /** The partial reduction: carry 28 bits up the columns, fold the top carry back times 5. */
  function Reduce(d: seq<uint64>): (h: Limbs)
    requires |d| == 5
    ensures h[0] <= MASK28 && h[2] <= MASK28 && h[3] <= MASK28 && h[4] <= MASK28
  {
    var c0 := Narrow(Shr(d[0], 28));
    var g0 := And(Narrow(d[0]), MASK28);
    var e1 := Wide(d[1] + c0);
    var c1 := Narrow(Shr(e1, 28));
    var g1 := And(Narrow(e1), MASK28);
    var e2 := Wide(d[2] + c1);
    var c2 := Narrow(Shr(e2, 28));
    var g2 := And(Narrow(e2), MASK28);
    var e3 := Wide(d[3] + c2);
    var c3 := Narrow(Shr(e3, 28));
    var g3 := And(Narrow(e3), MASK28);
    var e4 := Wide(d[4] + c3);
    var c4 := Narrow(Shr(e4, 28));
    var g4 := And(Narrow(e4), MASK28);
    var f0 := Add32(g0, Mul32(c4, 5));
    var c5 := Shr(f0, 28);
    [And(f0, MASK28), Add32(g1, c5), g2, g3, g4]
  }

  /** Applying a block function to every whole 16-byte block of `msg`, front to
      back, as the `while (len >= 16)` loop does; a shorter tail is not read. */
  function Fold(f: (Limbs, Block) -> Limbs, h: Limbs, msg: seq<uint8>): Limbs
    decreases |msg|
  {
    if |msg| < 16 then h else Fold(f, f(h, msg[..16]), msg[16..])
  }

  /** Folding over whole blocks and then more is folding over the concatenation. */
  lemma {:induction false} FoldAppend(f: (Limbs, Block) -> Limbs, h: Limbs, a: seq<uint8>, b: seq<uint8>)
    requires |a| % 16 == 0
    ensures Fold(f, h, a + b) == Fold(f, Fold(f, h, a), b)
    decreases |a|
  {
    if |a| > 0 {
      assert (a + b)[..16] == a[..16];
      assert (a + b)[16..] == a[16..] + b;
      FoldAppend(f, f(h, a[..16]), a[16..], b);
    } else {
      assert a + b == b;
    }
  }

  /** A message shorter than a block leaves the limbs alone. */
  lemma FoldShort(f: (Limbs, Block) -> Limbs, h: Limbs, msg: seq<uint8>)
    requires |msg| < 16
    ensures Fold(f, h, msg) == h
  {
  }

  /** A single block is a single application. */
  lemma FoldOne(f: (Limbs, Block) -> Limbs, h: Limbs, m: Block)
    ensures Fold(f, h, m) == f(h, m)
  {
    assert m[..16] == m;
  }

  function Step(r: Limbs, hibit: uint32): (Limbs, Block) -> Limbs
  {
    (x: Limbs, m: Block) => BlockStep(x, r, m, hibit)
  }

  /** `poly1305_blocks(ctx, msg, len, hibit)`: the accumulator after every whole block. */
  function Absorb(h: Limbs, r: Limbs, msg: seq<uint8>, hibit: uint32): Limbs
  {
    Fold(Step(r, hibit), h, msg)
  }

  /** Absorbing whole blocks and then more is absorbing the concatenation. */
  lemma AbsorbAppend(h: Limbs, r: Limbs, a: seq<uint8>, b: seq<uint8>, hibit: uint32)
    requires |a| % 16 == 0
    ensures Absorb(h, r, a + b, hibit) == Absorb(Absorb(h, r, a, hibit), r, b, hibit)
  {
    FoldAppend(Step(r, hibit), h, a, b);
  }

  /** Each absorbed block is one `BlockStep`: the accumulator bounds hold after every call. */
  lemma AbsorbBlock(h: Limbs, r: Limbs, m: Block, hibit: uint32)
    ensures Absorb(h, r, m, hibit) == BlockStep(h, r, m, hibit)
  {
    FoldOne(Step(r, hibit), h, m);
  }

  /** `f` is the block function of `poly1305_blocks` for the limbs `r` and the bit `hibit`.
      The equation is only used where a `BlockStep` term already occurs, so reasoning
      about `f` does not unfold the arithmetic of every block. */
  ghost predicate IsStep(f: BlockFn, r: Limbs, hibit: uint32)
  {
    forall x: Limbs, m: Block {:trigger BlockStep(x, r, m, hibit)} :: f(x, m) == BlockStep(x, r, m, hibit)
  }

  /** The block function of `poly1305_blocks` exists. */
  lemma StepFn(r: Limbs, hibit: uint32) returns (f: BlockFn)
    ensures IsStep(f, r, hibit)
  {
    f := Step(r, hibit);
  }

  /** Two block functions that agree on every accumulator and block. */
  ghost predicate Agree(f: BlockFn, g: BlockFn)
  {
    forall x: Limbs, m: Block :: f(x, m) == g(x, m)
  }

  /** A block function of `poly1305_blocks` agrees with `Step`. */
  lemma StepAgrees(f: BlockFn, r: Limbs, hibit: uint32)
    requires IsStep(f, r, hibit)
    ensures Agree(f, Step(r, hibit))
  {
    forall x: Limbs, m: Block
      ensures f(x, m) == Step(r, hibit)(x, m)
    {
      assert Step(r, hibit)(x, m) == BlockStep(x, r, m, hibit);
    }
  }

  /** Folding agreeing block functions gives the same accumulator. */
  lemma {:induction false} FoldAgree(f: BlockFn, g: BlockFn, h: Limbs, msg: seq<uint8>)
    requires Agree(f, g)
    ensures Fold(f, h, msg) == Fold(g, h, msg)
    decreases |msg|
  {
    if |msg| >= 16 {
      FoldAgree(f, g, f(h, msg[..16]), msg[16..]);
    }
  }

  /** Folding a block function of `poly1305_blocks` over `msg` is absorbing `msg`. */
  lemma FoldIsAbsorb(f: BlockFn, h: Limbs, r: Limbs, msg: seq<uint8>, hibit: uint32)
    requires IsStep(f, r, hibit)
    ensures Fold(f, h, msg) == Absorb(h, r, msg, hibit)
  {
    StepAgrees(f, r, hibit);
    FoldAgree(f, Step(r, hibit), h, msg);
  }

  // ---------------------------------------------------------------- final

  /** The limb carry, the conditional subtraction of p and the packing of `h`
      into four 32-bit words plus `pad` (`poly1305_final`, lines after the last block). */
  function TagWords(h: Limbs, pad: seq<uint32>): (w: seq<uint32>)
    requires |pad| == 4
    ensures |w| == 4
  {
    var x := FullCarry(h);
    AddPad(Pack(Select(x, MinusP(x))), pad)
  }

  /** "Fully reduce h": carry each limb's bits above 28 into the next, the top limb's
      carry times 5 into limb 0, and that carry into limb 1. */
  function FullCarry(h: Limbs): (x: Limbs)
  {
    var c1 := Shr(h[1], 28);
    var x1 := And(h[1], MASK28);
    var y2 := Add32(h[2], c1);
    var c2 := Shr(y2, 28);
    var x2 := And(y2, MASK28);
    var y3 := Add32(h[3], c2);
    var c3 := Shr(y3, 28);
    var x3 := And(y3, MASK28);
    var y4 := Add32(h[4], c3);
    var c4 := Shr(y4, 28);
    var x4 := And(y4, MASK28);
    var y0 := Add32(h[0], Mul32(c4, 5));
    var c5 := Shr(y0, 28);
    var x0 := And(y0, MASK28);
    [x0, Add32(x1, c5), x2, x3, x4]
  }

  /** "Compute h + -p": add 5 with a carry chain and take `1 << 28` off the top limb. */
  function MinusP(x: Limbs): (g: Limbs)
  {
    var u0 := Add32(x[0], 5);
    var k0 := Shr(u0, 28);
    var g0 := And(u0, MASK28);
    var u1 := Add32(x[1], k0);
    var k1 := Shr(u1, 28);
    var g1 := And(u1, MASK28);
    var u2 := Add32(x[2], k1);
    var k2 := Shr(u2, 28);
    var g2 := And(u2, MASK28);
    var u3 := Add32(x[3], k2);
    var k3 := Shr(u3, 28);
    var g3 := And(u3, MASK28);
    [g0, g1, g2, g3, Sub32(Add32(x[4], k3), 0x1000_0000)]
  }

  /** "Select h if h < p, or h + -p if h >= p": a mask from the sign bit of the top limb
      of `g` picks one of the two limb by limb. */
  function Select(x: Limbs, g: Limbs): (v: Limbs)
  {
    var mask := Sub32(Shr(g[4], 31), 1);
    var nmask := Not32(mask);
    [Or32(And(x[0], nmask), And(g[0], mask)), Or32(And(x[1], nmask), And(g[1], mask)),
     Or32(And(x[2], nmask), And(g[2], mask)), Or32(And(x[3], nmask), And(g[3], mask)),
     Or32(And(x[4], nmask), And(g[4], mask))]
  }

  /** "h = h % 2^128": the five 28-bit limbs repacked into four 32-bit words. */
  function Pack(v: Limbs): (w: seq<uint32>)
    ensures |w| == 4
  {
    [And(Or32(v[0], Shl32(v[1], 28)), 0xffff_ffff), And(Splice(v[1], 4, v[2], 24), 0xffff_ffff),
     And(Splice(v[2], 8, v[3], 20), 0xffff_ffff), And(Splice(v[3], 12, v[4], 16), 0xffff_ffff)]
  }

  /** "mac = (h + pad) % 2^128": add `pad` word by word, carrying through a 64-bit sum. */
  function AddPad(w: seq<uint32>, pad: seq<uint32>): (f: seq<uint32>)
    requires |w| == 4 && |pad| == 4
    ensures |f| == 4
  {
    var f0: nat := w[0] as nat + pad[0];
    var f1: nat := w[1] as nat + pad[1] + Shr(f0, 32);
    var f2: nat := w[2] as nat + pad[2] + Shr(f1, 32);
    var f3: nat := w[3] as nat + pad[3] + Shr(f2, 32);
    [Narrow(f0), Narrow(f1), Narrow(f2), Narrow(f3)]
  }

  /** The 16 tag bytes: the four words stored little-endian. */
  function TagBytes(w: seq<uint32>): (mac: seq<uint8>)
    requires |w| == 4
    ensures |mac| == TAGLEN
  {
    LeBytes(w[0], 4) + LeBytes(w[1], 4) + LeBytes(w[2], 4) + LeBytes(w[3], 4)
  }

  /** Word `j` of the tag sits little-endian at bytes `4 * j` to `4 * j + 3`. */
  lemma TagBytesWords(w: seq<uint32>)
    requires |w| == 4
    ensures forall j :: 0 <= j < 4 ==> TagBytes(w)[4 * j..4 * j + 4] == LeBytes(w[j], 4)
  {
    var mac := TagBytes(w);
    assert mac[0..4] == LeBytes(w[0], 4);
    assert mac[4..8] == LeBytes(w[1], 4);
    assert mac[8..12] == LeBytes(w[2], 4);
    assert mac[12..16] == LeBytes(w[3], 4);
  }

  /** The last, partial block: the pending bytes, one `0x01` byte, then zeros up to 16. */
  function PaddedBlock(p: seq<uint8>): (b: seq<uint8>)
    requires |p| < 16
    ensures |b| == 16 && b[..|p|] == p && b[|p|] == 1
    ensures forall j :: |p| < j < 16 ==> b[j] == 0
  {
    p + [1] + Zeros(15 - |p|)
  }

  // ---------------------------------------------------------------- streaming state

  /** The fields of `poly1305_context` as values. */
  datatype PolyState = PolyState(
    r: Limbs, h: Limbs, pad: seq<uint32>,
    leftover: nat, buffer: seq<uint8>, final: uint8)

  ghost predicate Wf(s: PolyState)
  {
    |s.pad| == 4 && |s.buffer| == 16 && s.leftover < 16
  }

  /** The bytes buffered but not yet absorbed. */
  function Pending(s: PolyState): (p: seq<uint8>)
    requires Wf(s)
    ensures |p| == s.leftover
  {
    s.buffer[..s.leftover]
  }

  /** Two states that no later `update` or `final` can tell apart: they differ
      at most in stale buffer bytes past `leftover`. */
  ghost predicate Equiv(s: PolyState, t: PolyState)
    requires Wf(s) && Wf(t)
  {
    s.r == t.r && s.h == t.h && s.pad == t.pad && s.leftover == t.leftover
    && s.final == t.final && Pending(s) == Pending(t)
  }

  /** A context that `memset(ctx, 0, sizeof *ctx)` cleared. */
  function ZeroState(): (s: PolyState)
    ensures Wf(s)
  {
    PolyState([0, 0, 0, 0, 0], [0, 0, 0, 0, 0], [0, 0, 0, 0], 0, Zeros(16), 0)
  }

  /** The context `poly1305_final` leaves: all zero except `final == 1`. */
  function WipedState(): (s: PolyState)
    ensures Wf(s)
  {
    ZeroState().(final := 1)
  }

  /** The context after `poly1305_init(ctx, key)`. */
  function InitState(key: seq<uint8>): (s: PolyState)
    requires |key| >= KEYLEN
    ensures Wf(s) && s.h == [0, 0, 0, 0, 0] && s.leftover == 0 && s.final == 0
  {
    ZeroState().(r := ClampedR(key), pad := KeyPad(key))
  }

  /** After `poly1305_init`, `r` is clamped and `pad` holds the second 16 key bytes as
      four little-endian words. */
  lemma InitStateKey(key: seq<uint8>)
    requires |key| >= KEYLEN
    ensures var s := InitState(key);
            (forall i :: 0 <= i < 5 ==> s.r[i] <= MASK28)
            && (forall i :: 1 <= i < 5 ==> s.r[i] % 4 == 0)
            && (forall j :: 0 <= j < 4 ==> s.pad[j] == LeValue(key[16 + 4 * j..20 + 4 * j]))
  {
  }

  /** The block function `poly1305_update` hands its full blocks to. */
  type BlockFn = (Limbs, Block) -> Limbs

  /** The second and third phases of `poly1305_update`, entered with no pending bytes:
      absorb every whole block, then buffer the tail. */
  function UpdateTail(f: BlockFn, s: PolyState, msg: seq<uint8>): (t: PolyState)
    requires Wf(s) && s.leftover == 0
    ensures Wf(t) && t.r == s.r && t.pad == s.pad && t.final == s.final
  {
    var whole := |msg| - |msg| % 16;  // len & ~15
    var h := if |msg| >= 16 then Fold(f, s.h, msg[..whole]) else s.h;
    var rest := msg[whole..];
    if |rest| > 0 then
      s.(h := h, buffer := rest + s.buffer[|rest|..], leftover := |rest|)
    else
      s.(h := h)
  }

  /** `poly1305_update` with the block function `f`: top up a partial block first,
      then absorb whole blocks, then buffer the tail. */
  function UpdateWith(f: BlockFn, s: PolyState, msg: seq<uint8>): (t: PolyState)
    requires Wf(s)
    ensures Wf(t) && t.r == s.r && t.pad == s.pad && t.final == s.final
  {
    if s.leftover != 0 then
      var want := if 16 - s.leftover > |msg| then |msg| else 16 - s.leftover;
      var buf := s.buffer[..s.leftover] + msg[..want] + s.buffer[s.leftover + want..];
      if s.leftover + want < 16 then s.(buffer := buf, leftover := s.leftover + want)
      else UpdateTail(f, s.(h := Fold(f, s.h, buf), buffer := buf, leftover := 0), msg[want..])
    else
      UpdateTail(f, s, msg)
  }

  /** `update` with any block function, when `msg` does not fill the pending buffer:
      it is only copied in. */
  lemma UpdateWithPartialBuffer(f: BlockFn, s: PolyState, msg: seq<uint8>)
    requires Wf(s) && s.leftover != 0 && s.leftover + |msg| < 16
    ensures UpdateWith(f, s, msg)
            == s.(buffer := s.buffer[..s.leftover] + msg + s.buffer[s.leftover + |msg|..], leftover := s.leftover + |msg|)
  {
    assert msg[..|msg|] == msg;
  }

  /** `update` with any block function, when `msg` fills the pending buffer: the full
      buffer is folded as one block, and the rest of `msg` goes through the later phases. */
  lemma UpdateWithFullBuffer(f: BlockFn, s: PolyState, msg: seq<uint8>)
    requires Wf(s) && s.leftover != 0 && s.leftover + |msg| >= 16
    ensures var want := 16 - s.leftover;
            var buf := s.buffer[..s.leftover] + msg[..want] + s.buffer[s.leftover + want..];
            UpdateWith(f, s, msg)
            == UpdateTail(f, s.(h := Fold(f, s.h, buf), buffer := buf, leftover := 0), msg[want..])
  {
    var want := 16 - s.leftover;
    assert (if 16 - s.leftover > |msg| then |msg| else 16 - s.leftover) == want;
    assert !(s.leftover + want < 16);
  }

  /** The later phases of `update` with agreeing block functions leave the same state. */
  lemma UpdateTailAgree(f: BlockFn, g: BlockFn, s: PolyState, msg: seq<uint8>)
    requires Wf(s) && s.leftover == 0 && Agree(f, g)
    ensures UpdateTail(f, s, msg) == UpdateTail(g, s, msg)
  {
    FoldAgree(f, g, s.h, msg[..|msg| - |msg| % 16]);
  }

  /** `update` with agreeing block functions leaves the same state. */
  lemma UpdateWithAgree(f: BlockFn, g: BlockFn, s: PolyState, msg: seq<uint8>)
    requires Wf(s) && Agree(f, g)
    ensures UpdateWith(f, s, msg) == UpdateWith(g, s, msg)
  {
    if s.leftover == 0 {
      UpdateTailAgree(f, g, s, msg);
    } else if s.leftover + |msg| >= 16 {
      var want := 16 - s.leftover;
      var buf := s.buffer[..s.leftover] + msg[..want] + s.buffer[s.leftover + want..];
      UpdateWithFullBuffer(f, s, msg);
      UpdateWithFullBuffer(g, s, msg);
      FoldAgree(f, g, s.h, buf);
      UpdateTailAgree(f, g, s.(h := Fold(f, s.h, buf), buffer := buf, leftover := 0), msg[want..]);
    } else {
      UpdateWithPartialBuffer(f, s, msg);
      UpdateWithPartialBuffer(g, s, msg);
    }
  }

  /** `update` with any block function of `poly1305_blocks` is `poly1305_update`. */
  lemma UpdateWithIsStep(f: BlockFn, s: PolyState, msg: seq<uint8>)
    requires Wf(s) && IsStep(f, s.r, HIBIT)
    ensures UpdateWith(f, s, msg) == UpdateState(s, msg)
  {
    StepAgrees(f, s.r, HIBIT);
    UpdateWithAgree(f, Step(s.r, HIBIT), s, msg);
  }

  /** The context after `poly1305_update(ctx, msg, |msg|)`: full blocks go through
      `poly1305_blocks` with `hibit = 1 << 24`. */
  function UpdateState(s: PolyState, msg: seq<uint8>): (t: PolyState)
    requires Wf(s)
    ensures Wf(t) && t.r == s.r && t.pad == s.pad && t.final == s.final
  {
    UpdateWith(Step(s.r, HIBIT), s, msg)
  }

  /** The accumulator once `poly1305_final` has processed a non-empty partial block with `hibit = 0`. */
  function FinalH(s: PolyState): (h: Limbs)
    requires Wf(s)
  {
    if s.leftover != 0 then Absorb(s.h, s.r, PaddedBlock(Pending(s)), 0) else s.h
  }

  /** The 16 bytes `poly1305_final` writes to `mac`. */
  function FinalTag(s: PolyState): (mac: seq<uint8>)
    requires Wf(s)
    ensures |mac| == TAGLEN
  {
    TagBytes(TagWords(FinalH(s), s.pad))
  }

  /** The tag `poly1305_auth(mac, msg, len, key)` writes: init, one update, final. */
  function AuthTag(key: seq<uint8>, msg: seq<uint8>): (mac: seq<uint8>)
    requires |key| >= KEYLEN
    ensures |mac| == TAGLEN
  {
    FinalTag(UpdateState(InitState(key), msg))
  }

  // ---------------------------------------------------------------- stream lemmas

  /** What `update` does, for any block function: with `P` the pending bytes followed by
      `msg`, the accumulator has folded the whole blocks of `P`, `leftover` is the
      length of the rest, and the buffer's live part holds it. */
  lemma UpdateWithFolds(f: BlockFn, s: PolyState, msg: seq<uint8>)
    requires Wf(s)
    ensures Absorbed(f, s.h, Pending(s) + msg, UpdateWith(f, s, msg))
  {
    if s.leftover == 0 {
      assert Pending(s) + msg == msg;
      TailFolds(f, s, msg);
    } else if s.leftover + |msg| < 16 {
      BufferFolds(f, s, msg);
    } else {
      TopUpFolds(f, s, msg);
    }
  }

  /** `UpdateWithFolds` when `msg` does not fill the buffer: it is only appended. */
  lemma BufferFolds(f: BlockFn, s: PolyState, msg: seq<uint8>)
    requires Wf(s) && s.leftover != 0 && s.leftover + |msg| < 16
    ensures Absorbed(f, s.h, Pending(s) + msg, UpdateWith(f, s, msg))
  {
    var p := Pending(s) + msg;
    var buf := s.buffer[..s.leftover] + msg + s.buffer[s.leftover + |msg|..];
    assert msg[..|msg|] == msg;
    assert UpdateWith(f, s, msg) == s.(buffer := buf, leftover := s.leftover + |msg|);
    assert buf[..s.leftover + |msg|] == p;
  }

  /** `UpdateWithFolds` when `msg` fills the buffer: the full buffer is one block,
      then the rest of `msg` goes through the tail phases. */
  lemma TopUpFolds(f: BlockFn, s: PolyState, msg: seq<uint8>)
    requires Wf(s) && s.leftover != 0 && s.leftover + |msg| >= 16
    ensures Absorbed(f, s.h, Pending(s) + msg, UpdateWith(f, s, msg))
  {
    var p := Pending(s) + msg;
    var whole := |p| - |p| % 16;
    var want := 16 - s.leftover;
    var buf := s.buffer[..s.leftover] + msg[..want] + s.buffer[s.leftover + want..];
    assert buf == p[..16];
    var s1 := s.(h := Fold(f, s.h, buf), buffer := buf, leftover := 0);
    var rest := msg[want..];
    UpdateWithFullBuffer(f, s, msg);
    assert p[16..] == rest;
    TailFolds(f, s1, rest);
    var wr := |rest| - |rest| % 16;
    WholeSplit(16, |rest|);
    assert whole == 16 + wr;
    assert p[..whole] == p[..16] + rest[..wr];
    FoldAppend(f, s.h, p[..16], rest[..wr]);
    assert p[whole..] == rest[wr..];
  }

  lemma TailFolds(f: BlockFn, s: PolyState, msg: seq<uint8>)
    requires Wf(s) && s.leftover == 0
    ensures Absorbed(f, s.h, msg, UpdateTail(f, s, msg))
  {
    var whole := |msg| - |msg| % 16;
    if |msg| < 16 {
      FoldShort(f, s.h, msg[..whole]);
    }
    var rest := msg[whole..];
    if |rest| > 0 {
      assert (rest + s.buffer[|rest|..])[..|rest|] == rest;
    }
  }

  /** Split-invariance for any block function. */
  lemma UpdateWithSplit(f: BlockFn, s: PolyState, a: seq<uint8>, b: seq<uint8>)
    requires Wf(s)
    ensures Equiv(UpdateWith(f, UpdateWith(f, s, a), b), UpdateWith(f, s, a + b))
  {
    var s1 := UpdateWith(f, s, a);
    UpdateWithFolds(f, s, a);
    UpdateWithFolds(f, s1, b);
    UpdateWithFolds(f, s, a + b);
    SplitStates(f, s, s1, UpdateWith(f, s1, b), UpdateWith(f, s, a + b), a, b);
  }

  /** `t` is what absorbing the bytes `p` from accumulator `h` leaves: the whole blocks
      of `p` folded into `h`, the rest pending. */
  ghost predicate Absorbed(f: BlockFn, h: Limbs, p: seq<uint8>, t: PolyState)
    requires Wf(t)
  {
    var whole := |p| - |p| % 16;
    t.h == Fold(f, h, p[..whole]) && t.leftover == |p| % 16 && Pending(t) == p[whole..]
  }

  /** The bookkeeping behind `UpdateWithSplit`, over the three states' characterisations. */
  lemma SplitStates(f: BlockFn, s: PolyState, s1: PolyState, t1: PolyState, t: PolyState,
                    a: seq<uint8>, b: seq<uint8>)
    requires Wf(s) && Wf(s1) && Wf(t1) && Wf(t)
    requires t1.r == s1.r == s.r == t.r && t1.pad == s1.pad == s.pad == t.pad
    requires t1.final == s1.final == s.final == t.final
    requires Absorbed(f, s.h, Pending(s) + a, s1)
    requires Absorbed(f, s1.h, Pending(s1) + b, t1)
    requires Absorbed(f, s.h, Pending(s) + (a + b), t)
    ensures Equiv(t1, t)
  {
    assert Pending(s) + (a + b) == (Pending(s) + a) + b;
    AbsorbedSplit(f, s.h, Pending(s) + a, b, s1, t1, t);
  }

  /** Absorbing `p1` and then `b` ends where absorbing `p1 ++ b` does. */
  lemma AbsorbedSplit(f: BlockFn, h: Limbs, p1: seq<uint8>, b: seq<uint8>, s1: PolyState, t1: PolyState, t: PolyState)
    requires Wf(s1) && Wf(t1) && Wf(t)
    requires Absorbed(f, h, p1, s1) && Absorbed(f, s1.h, Pending(s1) + b, t1) && Absorbed(f, h, p1 + b, t)
    ensures t1.h == t.h && t1.leftover == t.leftover && Pending(t1) == Pending(t)
  {
    var w1 := |p1| - |p1| % 16;
    assert Pending(s1) + b == p1[w1..] + b;
    FoldSplit(f, h, p1, b);
  }

  /** Folding the whole blocks of `p1 ++ b` is folding those of `p1`, then those of
      what `p1` leaves over followed by `b`; both leave the same tail. */
  lemma FoldSplit(f: BlockFn, h: Limbs, p1: seq<uint8>, b: seq<uint8>)
    ensures var w1 := |p1| - |p1| % 16;
            var p2 := p1[w1..] + b; var w2 := |p2| - |p2| % 16;
            var p := p1 + b; var w := |p| - |p| % 16;
            Fold(f, h, p[..w]) == Fold(f, Fold(f, h, p1[..w1]), p2[..w2])
            && p[w..] == p2[w2..] && |p| % 16 == |p2| % 16
  {
    var w1 := |p1| - |p1| % 16;
    var p2 := p1[w1..] + b;
    SplitBlocks(p1, b);
    FoldAppend(f, h, p1[..w1], p2[..|p2| - |p2| % 16]);
  }

  /** How the whole blocks of `p1 ++ b` split into those of `p1` and those of what
      `p1` leaves over followed by `b`. */
  lemma SplitBlocks(p1: seq<uint8>, b: seq<uint8>)
    ensures var w1 := |p1| - |p1| % 16;
            var p2 := p1[w1..] + b; var w2 := |p2| - |p2| % 16;
            var p := p1 + b; var w := |p| - |p| % 16;
            w1 % 16 == 0 && p[..w] == p1[..w1] + p2[..w2] && p[w..] == p2[w2..]
            && |p| % 16 == |p2| % 16
  {
    var w1 := |p1| - |p1| % 16;
    var p2 := p1[w1..] + b;
    var p := p1 + b;
    assert |p2| == |p1| % 16 + |b| && |p| == |p1| + |b|;
    BlockCounts(|p1|, |b|);
    var w := |p| - |p| % 16;
    assert w - w1 == |p2| - |p2| % 16;
    CutAt(p1, b, w1, w);
  }

  /** Cutting `p1 ++ b` at `w`, once `p1` has been cut at `w1 <= w`. */
  lemma CutAt(p1: seq<uint8>, b: seq<uint8>, w1: nat, w: nat)
    requires w1 <= |p1| && w1 <= w <= |p1| + |b|
    ensures (p1 + b)[..w] == p1[..w1] + (p1[w1..] + b)[..w - w1]
    ensures (p1 + b)[w..] == (p1[w1..] + b)[w - w1..]
  {
    Regroup(p1, b, w1);
    CutAfter(p1[..w1], p1[w1..] + b, w);
  }

  /** `p1 ++ b` is the first `w1` bytes of `p1` followed by the rest of `p1` and `b`. */
  lemma Regroup(p1: seq<uint8>, b: seq<uint8>, w1: nat)
    requires w1 <= |p1|
    ensures p1 + b == p1[..w1] + (p1[w1..] + b)
  {
    assert p1 == p1[..w1] + p1[w1..];
  }

  /** Cutting `x ++ y` at a point `w` inside `y`. */
  lemma CutAfter(x: seq<uint8>, y: seq<uint8>, w: nat)
    requires |x| <= w <= |x| + |y|
    ensures (x + y)[..w] == x + y[..w - |x|] && (x + y)[w..] == y[w - |x|..]
  {
  }

  /** The block counts behind `SplitBlocks`, for prefix length `n1` and suffix length `m`. */
  lemma BlockCounts(n1: nat, m: nat)
    ensures var w1 := n1 - n1 % 16; var n2 := n1 % 16 + m;
            w1 % 16 == 0 && (n1 + m) - (n1 + m) % 16 == w1 + (n2 - n2 % 16)
            && (n1 + m) % 16 == n2 % 16
  {
    var q := n1 / 16;
    var w1 := n1 - n1 % 16;
    assert w1 == 16 * q;
    DivUnique(w1, 16, q, 0);
    WholeSplit(w1, n1 % 16 + m);
  }

  /** Rounding down to whole blocks distributes over a prefix that is already whole. */
  lemma WholeSplit(w1: nat, m: nat)
    requires w1 % 16 == 0
    ensures (w1 + m) - (w1 + m) % 16 == w1 + (m - m % 16)
    ensures (w1 + m) % 16 == m % 16
  {
    var q := w1 / 16;
    assert w1 == 16 * q;
    DivUnique(w1 + m, 16, q + m / 16, m % 16);
  }

  /** What `poly1305_update` does, in one statement: with `P` the pending bytes followed
      by `msg`, the accumulator has absorbed exactly the `|P| / 16` whole blocks of `P`,
      and the rest, `|P| % 16` bytes, is what is left buffered. */
  lemma UpdateAbsorbs(s: PolyState, msg: seq<uint8>)
    requires Wf(s)
    ensures var p := Pending(s) + msg;
            var t := UpdateState(s, msg);
            t.h == Absorb(s.h, s.r, p[..16 * (|p| / 16)], HIBIT)
            && t.leftover == |p| - 16 * (|p| / 16)
            && Pending(t) == p[16 * (|p| / 16)..]
  {
    UpdateWithFolds(Step(s.r, HIBIT), s, msg);
  }

  /** Equivalent states stay equivalent under the same `update`. */
  lemma UpdateRespectsEquiv(s: PolyState, t: PolyState, msg: seq<uint8>)
    requires Wf(s) && Wf(t) && Equiv(s, t)
    ensures Equiv(UpdateState(s, msg), UpdateState(t, msg))
  {
    UpdateWithFolds(Step(s.r, HIBIT), s, msg);
    UpdateWithFolds(Step(s.r, HIBIT), t, msg);
  }

  /** Streaming split-invariance: `update(a); update(b)` leaves a state that no later
      call can tell from `update(a ++ b)`. */
  lemma UpdateSplit(s: PolyState, a: seq<uint8>, b: seq<uint8>)
    requires Wf(s)
    ensures Equiv(UpdateState(UpdateState(s, a), b), UpdateState(s, a + b))
  {
    UpdateWithSplit(Step(s.r, HIBIT), s, a, b);
  }

  /** An empty `update` changes nothing. */
  lemma UpdateEmpty(s: PolyState)
    requires Wf(s)
    ensures UpdateState(s, []) == s
  {
    if s.leftover != 0 {
      assert s.buffer[..s.leftover] + [] + s.buffer[s.leftover..] == s.buffer;
    }
  }

  /** The step a caller takes when it feeds a message in pieces: if the context is
      equivalent to having absorbed `prefix`, one more `update` makes it equivalent to
      having absorbed `prefix ++ piece`. */
  lemma UpdateChain(s0: PolyState, cur: PolyState, prefix: seq<uint8>, piece: seq<uint8>)
    requires Wf(s0) && Wf(cur) && Equiv(cur, UpdateState(s0, prefix))
    ensures Equiv(UpdateState(cur, piece), UpdateState(s0, prefix + piece))
  {
    UpdateRespectsEquiv(cur, UpdateState(s0, prefix), piece);
    UpdateSplit(s0, prefix, piece);
  }

  /** `final` reads nothing an equivalent state could hold differently. */
  lemma FinalTagRespectsEquiv(s: PolyState, t: PolyState)
    requires Wf(s) && Wf(t) && Equiv(s, t)
    ensures FinalTag(s) == FinalTag(t)
  {
  }

  /** The full states are not equal in general: splitting leaves stale bytes in the buffer. */
  lemma UpdateSplitStaleBuffer(s: PolyState, a: seq<uint8>, b: seq<uint8>)
    requires Wf(s) && s.leftover == 0 && s.buffer == Zeros(16)
    requires a == seq(20, _ => 1) && b == seq(12, _ => 1)
    ensures UpdateState(UpdateState(s, a), b).buffer[0] == 1
    ensures UpdateState(s, a + b).buffer[0] == 0
  {
    StaleBuffer(Step(s.r, HIBIT), s, a, b);
  }

  lemma StaleBuffer(f: BlockFn, s: PolyState, a: seq<uint8>, b: seq<uint8>)
    requires Wf(s) && s.leftover == 0 && s.buffer == Zeros(16)
    requires |a| == 20 && a[16] == 1 && |b| == 12
    ensures UpdateWith(f, UpdateWith(f, s, a), b).buffer[0] == 1
    ensures UpdateWith(f, s, a + b).buffer[0] == 0
  {
    StaleFirst(f, s, a);
    StaleSecond(f, UpdateWith(f, s, a), b);
    StaleWhole(f, s, a + b);
  }

  /** 20 bytes into an empty context leave the last 4 buffered. */
  lemma StaleFirst(f: BlockFn, s: PolyState, a: seq<uint8>)
    requires Wf(s) && s.leftover == 0 && |a| == 20
    ensures UpdateWith(f, s, a).leftover == 4 && UpdateWith(f, s, a).buffer[0] == a[16]
  {
    assert a[16..][0] == a[16];
  }

  /** Topping 4 pending bytes up with 12 absorbs the buffer and leaves it as it was. */
  lemma StaleSecond(f: BlockFn, s1: PolyState, b: seq<uint8>)
    requires Wf(s1) && s1.leftover == 4 && |b| == 12
    ensures UpdateWith(f, s1, b).buffer[0] == s1.buffer[0]
  {
    var buf := s1.buffer[..4] + b[..12] + s1.buffer[16..];
    assert buf[0] == s1.buffer[0];
    assert b[12..] == [];
  }

  /** 32 bytes into an empty context are two whole blocks: the buffer is untouched. */
  lemma StaleWhole(f: BlockFn, s: PolyState, c: seq<uint8>)
    requires Wf(s) && s.leftover == 0 && |c| == 32
    ensures UpdateWith(f, s, c).buffer == s.buffer
  {
    assert c[32..] == [];
  }

  // ---------------------------------------------------------------- the context

  /** `poly1305_context`. The word arrays `r`, `h` and `pad` are only ever loaded and
      stored whole, so they are sequence fields; the byte buffer, which `update` and
      `final` write into piecewise, is an array. */
  class Context {
    var r: Limbs
    var h: Limbs
    var pad: seq<uint32>
    var leftover: nat
    const buffer: array<uint8>
    var final: uint8

    ghost predicate Valid()
      reads this
    {
      |pad| == 4 && buffer.Length == 16 && leftover < 16
    }

    /** The context as a value. */
    ghost function State(): (s: PolyState)
      reads this, buffer
      requires Valid()
      ensures Wf(s)
    {
      PolyState(r, h, pad, leftover, buffer[..], final)
    }

    /** A zeroed context, as `memset` leaves it. */
    constructor()
      ensures Valid() && State() == ZeroState() && fresh(buffer)
    {
      r := [0, 0, 0, 0, 0];
      h := [0, 0, 0, 0, 0];
      pad := [0, 0, 0, 0];
      leftover := 0;
      buffer := new uint8[16](_ => 0);
      final := 0;
    }

    /** `poly1305_init`: clear, then clamp `r` and load `pad` from the key. */
    method Init(key: seq<uint8>)
      requires Valid() && |key| >= KEYLEN
      modifies this, buffer
      ensures Valid() && State() == InitState(key)
    {
      Clear();
      SetKey(ClampedR(key), KeyPad(key));
    }

    /** The stores of `poly1305_init` into `ctx->r` and `ctx->pad`. */
    method SetKey(r': Limbs, pad': seq<uint32>)
      requires Valid() && |pad'| == 4
      modifies this
      ensures Valid() && State() == old(State()).(r := r', pad := pad')
    {
      r, pad := r', pad';
    }

    /** `poly1305_blocks(ctx, msg, len, hibit)`: add and multiply every whole block of `msg` in turn. */
    method Blocks(ghost f: BlockFn, msg: seq<uint8>, hibit: uint32)
      requires IsStep(f, r, hibit)
      modifies this
      ensures h == Fold(f, old(h), msg)
      ensures r == old(r) && pad == old(pad) && leftover == old(leftover) && final == old(final)
    {
      var acc := h;
      var off := 0;
      while |msg| - off >= 16
        modifies {}
        invariant 0 <= off <= |msg|
        invariant Fold(f, old(h), msg) == Fold(f, acc, msg[off..])
        decreases |msg| - off
      {
        assert msg[off..][..16] == msg[off..off + 16];
        assert msg[off..][16..] == msg[off + 16..];
        acc := ProcessBlock(f, acc, r, msg[off..off + 16], hibit);
        off := off + 16;
      }
      h := acc;
    }

    /** `poly1305_update(ctx, msg, |msg|)`. */
    method Update(msg: seq<uint8>)
      requires Valid()
      modifies this, buffer
      ensures Valid() && State() == UpdateState(old(State()), msg)
    {
      ghost var s := State();
      ghost var f := StepFn(r, HIBIT);
      if leftover != 0 {
        TopUp(f, msg);
      } else {
        UpdateRest(f, msg);
      }
      UpdateWithIsStep(f, s, msg);
    }

    /** The first phase of `poly1305_update`, with bytes pending: copy as much of `msg`
        as fits into the buffer; when the buffer is then full, absorb it and go on
        with the rest of `msg`. */
    method TopUp(ghost f: BlockFn, msg: seq<uint8>)
      requires Valid() && leftover != 0 && IsStep(f, r, HIBIT)
      modifies this, buffer
      ensures Valid() && State() == UpdateWith(f, old(State()), msg)
    {
      var want := 16 - leftover;
      if want > |msg| {
        want := |msg|;
      }
      if leftover + want < 16 {
        Append(f, msg);
      } else {
        FillAndContinue(f, msg, want);
      }
    }

    /** `update` when `msg` does not fill the buffer: copy it in and return. */
    method Append(ghost f: BlockFn, msg: seq<uint8>)
      requires Valid() && leftover != 0 && leftover + |msg| < 16
      modifies this, buffer
      ensures Valid() && State() == UpdateWith(f, old(State()), msg)
    {
      ghost var s := State();
      CopyIn(msg, |msg|);
      leftover := leftover + |msg|;
      assert msg[..|msg|] == msg;
      assert State() == s.(buffer := s.buffer[..s.leftover] + msg + s.buffer[s.leftover + |msg|..],
                           leftover := s.leftover + |msg|);
      UpdateWithPartialBuffer(f, s, msg);
    }

    /** `update` when the first `want` bytes of `msg` fill the buffer: copy them in,
        absorb the full buffer (`ctx->leftover` reaches 16), and go on with the rest. */
    method FillAndContinue(ghost f: BlockFn, msg: seq<uint8>, want: nat)
      requires Valid() && leftover != 0 && want == 16 - leftover && want <= |msg| && IsStep(f, r, HIBIT)
      modifies this, buffer
      ensures Valid() && State() == UpdateWith(f, old(State()), msg)
    {
      ghost var s := State();
      CopyIn(msg, want);
      Flush(f);
      UpdateRest(f, msg[want..]);
      UpdateWithFullBuffer(f, s, msg);
    }

    /** `memcpy(ctx->buffer + ctx->leftover, msg, want)`. */
    method CopyIn(msg: seq<uint8>, want: nat)
      requires Valid() && leftover + want <= 16 && want <= |msg|
      modifies buffer
      ensures Valid()
      ensures State() == old(State()).(buffer := old(buffer[..leftover]) + msg[..want] + old(buffer[leftover + want..]))
    {
      forall i | leftover <= i < leftover + want {
        buffer[i] := msg[i - leftover];
      }
      assert buffer[..] == old(buffer[..leftover]) + msg[..want] + old(buffer[leftover + want..]);
    }

    /** `poly1305_blocks(ctx, ctx->buffer, 16); ctx->leftover = 0`: absorb the full buffer. */
    method Flush(ghost f: BlockFn)
      requires Valid() && IsStep(f, r, HIBIT)
      modifies this
      ensures Valid()
      ensures State() == old(State()).(h := Fold(f, old(h), old(buffer[..])), leftover := 0)
    {
      Blocks(f, buffer[..], HIBIT);
      leftover := 0;
    }

    /** The second and third phases of `poly1305_update`, with no bytes pending:
        absorb the whole blocks of `msg` and buffer what is left. */
    method UpdateRest(ghost f: BlockFn, msg: seq<uint8>)
      requires Valid() && leftover == 0 && IsStep(f, r, HIBIT)
      modifies this, buffer
      ensures Valid() && State() == UpdateTail(f, old(State()), msg)
    {
      var want := |msg| - |msg| % 16;  // len & ~15
      if |msg| >= 16 {
        Blocks(f, msg[..want], HIBIT);
      }
      StoreTail(msg[want..]);
    }

    /** The third phase of `poly1305_update`: `memcpy` the tail into the empty buffer. */
    method StoreTail(rest: seq<uint8>)
      requires Valid() && leftover == 0 && |rest| < 16
      modifies this, buffer
      ensures Valid()
      ensures State() == if |rest| > 0 then old(State()).(buffer := rest + old(buffer[|rest|..]), leftover := |rest|)
                         else old(State())
    {
      if |rest| > 0 {
        forall i | 0 <= i < |rest| {
          buffer[i] := rest[i];
        }
        assert buffer[..] == rest + old(buffer[|rest|..]);
        leftover := |rest|;
      }
    }

    /** `poly1305_final(ctx, mac)`: absorb the padded partial block, reduce, add `pad`,
        store the tag, then wipe the context and set `final`. */
    method Final(mac: array<uint8>)
      requires Valid() && mac.Length >= TAGLEN && mac != buffer
      modifies this, buffer, mac
      ensures Valid() && State() == WipedState()
      ensures mac[..TAGLEN] == FinalTag(old(State()))
      ensures mac[TAGLEN..] == old(mac[TAGLEN..])
    {
      ghost var s := State();
      FinalBlock();
      var w := TagWords(h, pad);
      assert TagBytes(w) == FinalTag(s);
      StoreTag(mac, w);
      Wipe();
    }

    /** The end of `poly1305_final`: `memset(ctx, 0, sizeof *ctx)`, then `ctx->final = 1`. */
    method Wipe()
      requires Valid()
      modifies this, buffer
      ensures Valid() && State() == WipedState()
    {
      Clear();
      final := 1;
    }

    /** `memset(ctx, 0, sizeof *ctx)`. */
    method Clear()
      requires Valid()
      modifies this, buffer
      ensures Valid() && State() == ZeroState()
    {
      r, h, pad, leftover, final := [0, 0, 0, 0, 0], [0, 0, 0, 0, 0], [0, 0, 0, 0], 0, 0;
      forall i | 0 <= i < 16 {
        buffer[i] := 0;
      }
      assert buffer[..] == Zeros(16);
    }

    /** The first step of `poly1305_final`: a non-empty partial block gets a `0x01`
        byte and zeros, and is absorbed with `hibit = 0`. */
    method FinalBlock()
      requires Valid()
      modifies this, buffer
      ensures Valid() && h == FinalH(old(State()))
      ensures r == old(r) && pad == old(pad) && leftover == old(leftover) && final == old(final)
    {
      ghost var s := State();
      if leftover != 0 {
        var i := leftover;
        buffer[i] := 1;
        i := i + 1;
        while i < 16
          modifies buffer
          invariant leftover < i <= 16
          invariant buffer[..leftover] == Pending(s) && buffer[leftover] == 1
          invariant forall j :: leftover < j < i ==> buffer[j] == 0
        {
          buffer[i] := 0;
          i := i + 1;
        }
        assert buffer[..] == PaddedBlock(Pending(s));
        ghost var f := StepFn(r, 0);
        Blocks(f, buffer[..], 0);
        FoldIsAbsorb(f, s.h, s.r, buffer[..], 0);
      }
    }
  }

  /** One pass of the `poly1305_blocks` loop: add the block `m` to `h`, multiply by `r`
      and partially reduce. */
  method ProcessBlock(ghost f: BlockFn, h: Limbs, r: Limbs, m: Block, hibit: uint32) returns (next: Limbs)
    requires IsStep(f, r, hibit)
    ensures next == f(h, m)
  {
    next := BlockStep(h, r, m, hibit);
  }

  /** The four `store32_le` calls that write the tag words to `mac`: the sixteen bytes
      of the words, each little-endian, land in `mac[0..16]`. */
  method StoreTag(mac: array<uint8>, w: seq<uint32>)
    requires mac.Length >= TAGLEN && |w| == 4
    modifies mac
    ensures mac[..TAGLEN] == TagBytes(w)
    ensures mac[TAGLEN..] == old(mac[TAGLEN..])
  {
    var tag := TagBytes(w);
    forall i | 0 <= i < TAGLEN {
      mac[i] := tag[i];
    }
    assert mac[..TAGLEN] == tag;
  }

  /** A fresh context on which `poly1305_init(ctx, key)` has run. */
  method Start(key: seq<uint8>) returns (ctx: Context)
    requires |key| >= KEYLEN
    ensures fresh(ctx) && fresh(ctx.buffer) && ctx.Valid() && ctx.State() == InitState(key)
  {
    ctx := new Context();
    ctx.Init(key);
  }

  /** `poly1305_auth(mac, msg, len, key)`: the one-shot tag. */
  method Auth(mac: array<uint8>, msg: seq<uint8>, key: seq<uint8>)
    requires mac.Length >= TAGLEN && |key| >= KEYLEN
    modifies mac
    ensures mac[..TAGLEN] == AuthTag(key, msg)
    ensures mac[TAGLEN..] == old(mac[TAGLEN..])
  {
    var ctx := Start(key);
    ctx.Update(msg);
    ctx.Final(mac);
  }

  /** `poly1305_constant_time_compare`: OR together the XOR of every byte pair,
      so that the running time does not depend on where the inputs differ. */
  method ConstantTimeCompare(a: seq<uint8>, b: seq<uint8>, len: nat) returns (rc: int)
    requires |a| >= len && |b| >= len
    ensures rc == 0 <==> a[..len] == b[..len]
    ensures rc == 0 || rc == -1
  {
    var diff: uint8 := 0;
    var i := 0;
    while i < len
      invariant i <= len
      invariant diff == 0 <==> a[..i] == b[..i]
    {
      XorZeroIff(a[i], b[i]);
      OrZeroIff(diff, Xor8(a[i], b[i]));
      assert a[..i + 1] == a[..i] + [a[i]] && b[..i + 1] == b[..i] + [b[i]];
      diff := Or8(diff, Xor8(a[i], b[i]));
      i := i + 1;
    }
    rc := if diff == 0 then 0 else -1;
  }

  /** `poly1305_verify(mac1, mac2)`: 0 when the two 16-byte tags agree, -1 otherwise. */
  method Verify(mac1: seq<uint8>, mac2: seq<uint8>) returns (rc: int)
    requires |mac1| >= TAGLEN && |mac2| >= TAGLEN
    ensures rc == 0 <==> mac1[..TAGLEN] == mac2[..TAGLEN]
    ensures rc == 0 || rc == -1
  {
    rc := ConstantTimeCompare(mac1, mac2, TAGLEN);
  }
}
