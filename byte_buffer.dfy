/** `java.nio.ByteBuffer` as the activities use it: a heap buffer, a position
    that relative `put`/`get` calls advance, and a byte order for multi-byte values. */
module ByteBuffers {
  import opened Bits
  import opened Bytes
  import opened JavaLang

  /** `n` bytes of the unsigned value `u` in the given byte order. */
  function Encode(u: nat, n: nat, bigEndian: bool): (b: seq<uint8>)
    ensures |b| == n
  {
    if bigEndian then BeBytes(u, n) else LeBytes(u, n)
  }

  /** The unsigned value of `b` read in the given byte order. */
  function Decode(b: seq<uint8>, bigEndian: bool): (u: nat)
    ensures u < Pow256(|b|)
  {
    if bigEndian then BeValue(b) else LeValue(b)
  }

  lemma DecodeEncode(u: nat, n: nat, bigEndian: bool)
    requires u < Pow256(n)
    ensures Decode(Encode(u, n, bigEndian), bigEndian) == u
  {
    if bigEndian { BeRoundTrip(u, n); } else { LeRoundTrip(u, n); }
  }

  /** The four bytes `putInt(v)` writes. */
  function IntImage(v: Int, bigEndian: bool): (b: seq<uint8>)
    ensures |b| == 4
  {
    Encode(IntBits(v), 4, bigEndian)
  }

  /** The eight bytes `putLong(v)` writes. */
  function LongImage(v: Long, bigEndian: bool): (b: seq<uint8>)
    ensures |b| == 8
  {
    Encode(LongBits(v), 8, bigEndian)
  }

  /** The `int` that `getInt()` reads from four bytes. */
  function IntValue(b: seq<uint8>, bigEndian: bool): Int
    requires |b| == 4
  {
    Pow256Values();
    IntOfBits(Decode(b, bigEndian))
  }

  /** The `long` that `getLong()` reads from eight bytes. */
  function LongValue(b: seq<uint8>, bigEndian: bool): Long
    requires |b| == 8
  {
    Pow256Values();
    LongOfBits(Decode(b, bigEndian))
  }

  /** `getInt` reads back what `putInt` wrote, in either byte order. */
  lemma IntRoundTrip(v: Int, bigEndian: bool)
    ensures IntValue(IntImage(v, bigEndian), bigEndian) == v
  {
    Pow256Values();
    DecodeEncode(IntBits(v), 4, bigEndian);
    IntBitsRoundTrip(v);
  }

  /** `getLong` reads back what `putLong` wrote, in either byte order. */
  lemma LongRoundTrip(v: Long, bigEndian: bool)
    ensures LongValue(LongImage(v, bigEndian), bigEndian) == v
  {
    Pow256Values();
    DecodeEncode(LongBits(v), 8, bigEndian);
    LongBitsRoundTrip(v);
  }

  class ByteBuffer {
    /** The backing array (`array()` returns it). */
    var hb: array<uint8>
    var position: nat
    /** `ByteOrder.BIG_ENDIAN`, the initial order of every buffer, or little-endian. */
    var bigEndian: bool

    ghost predicate Valid()
      reads this
    {
      position <= hb.Length
    }

    /** `ByteBuffer.allocate(capacity)`: a fresh zero-filled array. */
    constructor Allocate(capacity: nat)
      ensures Valid() && fresh(hb)
      ensures hb[..] == Zeros(capacity) && position == 0 && bigEndian
    {
      hb := new uint8[capacity](_ => 0);
      position := 0;
      bigEndian := true;
    }

    /** `ByteBuffer.wrap(a)`: the buffer reads and writes `a` itself. */
    constructor Wrap(a: array<uint8>)
      ensures Valid() && hb == a && position == 0 && bigEndian
    {
      hb := a;
      position := 0;
      bigEndian := true;
    }

    /** `order(ByteOrder.LITTLE_ENDIAN)` or `order(ByteOrder.BIG_ENDIAN)`. */
    method Order(littleEndian: bool)
      modifies this`bigEndian
      ensures bigEndian == !littleEndian
    {
      bigEndian := !littleEndian;
    }

    /** `position(p)`. */
    method SetPosition(p: nat)
      requires p <= hb.Length
      modifies this`position
      ensures Valid() && position == p
    {
      position := p;
    }

    /** Relative bulk `put(src)`: copies `src` at the position and advances past it. */
    method Put(src: seq<uint8>)
      requires Valid() && position + |src| <= hb.Length
      modifies hb, this`position
      ensures Valid() && position == old(position) + |src|
      ensures hb[..] == old(hb[..])[..old(position)] + src + old(hb[..])[old(position) + |src|..]
    {
      forall k | 0 <= k < |src| {
        hb[position + k] := src[k];
      }
      position := position + |src|;
    }

    /** Relative `putInt(v)`: four bytes in the buffer's order. */
    method PutInt(v: Int)
      requires Valid() && position + 4 <= hb.Length
      modifies hb, this`position
      ensures Valid() && position == old(position) + 4
      ensures hb[..] == old(hb[..])[..old(position)] + IntImage(v, bigEndian) + old(hb[..])[old(position) + 4..]
    {
      Put(IntImage(v, bigEndian));
    }

    /** Relative `putLong(v)`: eight bytes in the buffer's order. */
    method PutLong(v: Long)
      requires Valid() && position + 8 <= hb.Length
      modifies hb, this`position
      ensures Valid() && position == old(position) + 8
      ensures hb[..] == old(hb[..])[..old(position)] + LongImage(v, bigEndian) + old(hb[..])[old(position) + 8..]
    {
      Put(LongImage(v, bigEndian));
    }

    /** Relative bulk `get(dst)`: fills `dst` from the position and advances past it. */
    method Get(dst: array<uint8>)
      requires Valid() && dst != hb && position + dst.Length <= hb.Length
      modifies dst, this`position
      ensures Valid() && position == old(position) + dst.Length
      ensures dst[..] == hb[old(position)..position]
    {
      forall k | 0 <= k < dst.Length {
        dst[k] := hb[position + k];
      }
      position := position + dst.Length;
    }

    /** Relative `getInt()`. */
    method GetInt() returns (v: Int)
      requires Valid() && position + 4 <= hb.Length
      modifies this`position
      ensures Valid() && position == old(position) + 4
      ensures v == IntValue(hb[old(position)..position], bigEndian)
    {
      v := IntValue(hb[position..position + 4], bigEndian);
      position := position + 4;
    }

    /** Relative `getLong()`. */
    method GetLong() returns (v: Long)
      requires Valid() && position + 8 <= hb.Length
      modifies this`position
      ensures Valid() && position == old(position) + 8
      ensures v == LongValue(hb[old(position)..position], bigEndian)
    {
      v := LongValue(hb[position..position + 8], bigEndian);
      position := position + 8;
    }
  }
}
