/** The on-disk layout of a volume as the two activities write and read it:
    a 1712-byte little-endian header followed by one record per 64 KiB block. */
module VolumeFormat {
  import opened Bits
  import opened Bytes
  import opened Wrappers
  import opened JavaLang
  import opened ByteBuffers
  import opened ChaCha20Poly1305
  import opened CryptoBridge

  /** `"QUBESDRD".getBytes()`. */
  const MAGIC: seq<uint8> := [0x51, 0x55, 0x42, 0x45, 0x53, 0x44, 0x52, 0x44]
  const VERSION: Int := 0x0100_0000
  const HEADER_SIZE: Int := 1712
  const BLOCK_SIZE: Int := 65536
  /** ML-KEM-1024 key sizes. */
  const PUBLIC_KEY_LEN: nat := 1568
  const SECRET_KEY_LEN: nat := 3168
  /** The wrapped master key: 32 bytes of ciphertext and a 16-byte tag. */
  const WRAPPED_KEY_LEN: nat := 48

  // ---------------------------------------------------------------------------
  // Header

  /** The header the creating activity fills with sequential `put` calls. */
  function Header(volumeSize: Long, timestamp: Long, publicKey: seq<uint8>, salt: seq<uint8>,
                  wrappedKey: seq<uint8>): (h: seq<uint8>)
    ensures |h| == 64 + |publicKey| + |salt| + 16 + |wrappedKey|
  {
    MAGIC + IntImage(VERSION, false) + IntImage(HEADER_SIZE, false) + LongImage(volumeSize, false)
      + LongImage(timestamp, false) + Zeros(32) + publicKey + salt + Zeros(16) + wrappedKey
  }

  /** The fields the mounting activity keeps of a parsed header. */
  datatype HeaderFields = HeaderFields(version: Int, headerSize: Int, volumeSize: Long,
                                       creationTimestamp: Long, publicKey: seq<uint8>,
                                       salt: seq<uint8>, encryptedMasterKey: seq<uint8>)

  /** Why a header is refused: fewer than 1712 bytes, a wrong magic, an unsupported version. */
  datatype HeaderError = TooShort | BadMagic | UnsupportedVersion(version: Int)

  /** What parsing the first bytes of a volume file yields. */
  function ParseHeader(file: seq<uint8>): (r: Result<HeaderFields, HeaderError>)
    ensures r.Ok? ==> |r.value.publicKey| == PUBLIC_KEY_LEN && |r.value.salt| == 32
    ensures r.Ok? ==> |r.value.encryptedMasterKey| == WRAPPED_KEY_LEN && r.value.version == VERSION
  {
    if |file| < 1712 then Err(TooShort)
    else if file[..8] != MAGIC then Err(BadMagic)
    else if IntValue(file[8..12], false) != VERSION then Err(UnsupportedVersion(IntValue(file[8..12], false)))
    else Ok(HeaderFields(IntValue(file[8..12], false), IntValue(file[12..16], false),
                         LongValue(file[16..24], false), LongValue(file[24..32], false),
                         file[64..1632], file[1632..1664], file[1664..1712]))
  }

  /** A file shorter than the header is refused, whatever it holds. */
  lemma ParseRejectsShort(file: seq<uint8>)
    requires |file| < 1712
    ensures ParseHeader(file) == Err(TooShort)
  {
  }

  /** The magic is checked before the version: a wrong magic is reported even when the
      version field is also wrong. */
  lemma ParseChecksMagicFirst(file: seq<uint8>)
    requires |file| >= 1712 && file[..8] != MAGIC
    ensures ParseHeader(file) == Err(BadMagic)
  {
  }

  /** Only a version field of `0x01000000` passes. */
  lemma ParseChecksVersion(file: seq<uint8>)
    requires |file| >= 1712 && file[..8] == MAGIC
    ensures ParseHeader(file).Ok? <==> IntValue(file[8..12], false) == VERSION
  {
  }

  /** The header-size field is read but never checked: overwriting it with any four bytes
      leaves an accepted header accepted, with every other field unchanged. */
  lemma {:induction false} ParseIgnoresHeaderSize(file: seq<uint8>, size: seq<uint8>)
    requires |size| == 4 && ParseHeader(file).Ok?
    ensures var file' := file[..12] + size + file[16..];
      ParseHeader(file').Ok? && ParseHeader(file').value == ParseHeader(file).value.(headerSize := IntValue(size, false))
  {
    var file' := file[..12] + size + file[16..];
    assert file'[..8] == file[..8];
    assert file'[8..12] == file[8..12];
    assert file'[12..16] == size;
    assert file'[16..] == file[16..];
    assert file'[16..24] == file[16..24] && file'[24..32] == file[24..32];
    assert file'[64..1632] == file[64..1632] && file'[1632..1664] == file[1632..1664];
    assert file'[1664..1712] == file[1664..1712];
  }

  /** Bytes past the header play no part in parsing. */
  lemma ParseReadsOnlyHeader(file: seq<uint8>)
    requires |file| >= 1712
    ensures ParseHeader(file) == ParseHeader(file[..1712])
  {
    var h := file[..1712];
    assert h[..8] == file[..8] && h[8..12] == file[8..12] && h[12..16] == file[12..16];
    assert h[16..24] == file[16..24] && h[24..32] == file[24..32];
    assert h[64..1632] == file[64..1632] && h[1632..1664] == file[1632..1664];
    assert h[1664..1712] == file[1664..1712];
  }

  /** Where each field sits in a header built with a 1568-byte public key, a 16-byte salt and
      a 48-byte wrapped key. */
  lemma HeaderLayout(volumeSize: Long, timestamp: Long, publicKey: seq<uint8>, salt: seq<uint8>,
                     wrappedKey: seq<uint8>, rest: seq<uint8>)
    requires |publicKey| == PUBLIC_KEY_LEN && |salt| == 16 && |wrappedKey| == WRAPPED_KEY_LEN
    ensures var f := Header(volumeSize, timestamp, publicKey, salt, wrappedKey) + rest;
      |f| == 1712 + |rest| && f[..8] == MAGIC && f[8..12] == IntImage(VERSION, false)
      && f[12..16] == IntImage(HEADER_SIZE, false) && f[16..24] == LongImage(volumeSize, false)
      && f[24..32] == LongImage(timestamp, false) && f[32..64] == Zeros(32)
      && f[64..1632] == publicKey && f[1632..1664] == salt + Zeros(16)
      && f[1664..1712] == wrappedKey && f[1712..] == rest
  {
    var a := MAGIC + IntImage(VERSION, false) + IntImage(HEADER_SIZE, false);
    var b := a + LongImage(volumeSize, false) + LongImage(timestamp, false);
    var c := b + Zeros(32) + publicKey;
    var d := c + salt + Zeros(16);
    var f := d + wrappedKey + rest;
    assert Header(volumeSize, timestamp, publicKey, salt, wrappedKey) + rest == f;
    assert f[..64] == b + Zeros(32) && f[64..1632] == publicKey;
    assert f[..32] == b;
    assert b[..16] == a && b[16..24] == LongImage(volumeSize, false) && b[24..32] == LongImage(timestamp, false);
    assert a[..8] == MAGIC && a[8..12] == IntImage(VERSION, false) && a[12..16] == IntImage(HEADER_SIZE, false);
    assert f[1632..1664] == salt + Zeros(16);
    assert f[1664..1712] == wrappedKey && f[1712..] == rest;
  }

  /** Parsing a header the creating activity wrote gives back every field it put, with the
      16-byte salt read as 32 bytes: the salt and the 16 zero bytes after it. */
  lemma ParseOfHeader(volumeSize: Long, timestamp: Long, publicKey: seq<uint8>, salt: seq<uint8>,
                      wrappedKey: seq<uint8>, rest: seq<uint8>)
    requires |publicKey| == PUBLIC_KEY_LEN && |salt| == 16 && |wrappedKey| == WRAPPED_KEY_LEN
    ensures ParseHeader(Header(volumeSize, timestamp, publicKey, salt, wrappedKey) + rest)
         == Ok(HeaderFields(VERSION, HEADER_SIZE, volumeSize, timestamp, publicKey, salt + Zeros(16), wrappedKey))
  {
    HeaderLayout(volumeSize, timestamp, publicKey, salt, wrappedKey, rest);
    IntRoundTrip(VERSION, false);
    IntRoundTrip(HEADER_SIZE, false);
    LongRoundTrip(volumeSize, false);
    LongRoundTrip(timestamp, false);
  }

  // ---------------------------------------------------------------------------
  // Blocks

  /** `volumeSizeBytes - HEADER_SIZE` as a Java `long`. */
  function DataSize(volumeSize: Long): (d: Long)
    ensures -TWO63 + 1712 <= volumeSize ==> d == volumeSize - 1712
  {
    WrapLong(volumeSize - 1712)
  }

  /** `(dataSize + BLOCK_SIZE - 1) / BLOCK_SIZE` as a Java `long`. */
  function NumBlocks(volumeSize: Long): Long
  {
    LongDiv(WrapLong(DataSize(volumeSize) + 65536 - 1), 65536)
  }

  /** `(int) Math.min(BLOCK_SIZE, dataSize - (i * BLOCK_SIZE))`. */
  function BlockLength(dataSize: Long, i: Long): Int
  {
    WrapInt(MinLong(65536, WrapLong(dataSize - WrapLong(i * 65536))))
  }

  /** `n` blocks of 64 KiB tile a data area of `dataSize` bytes, the last one possibly short. */
  ghost predicate Layout(dataSize: Long, n: int)
  {
    n >= 0 && (n == 0 || (0 < dataSize <= 0x7fff_ffff_ffff_0000 && (n - 1) * 65536 < dataSize <= n * 65536))
  }

  /** A layout has fewer than 2^47 blocks. */
  lemma LayoutBound(dataSize: Long, n: int)
    requires Layout(dataSize, n)
    ensures n <= 0x8000_0000_0000
  {
  }

  /** The loop writes blocks exactly when the volume is larger than its header and small enough
      that `dataSize + BLOCK_SIZE - 1` does not overflow. Otherwise `numBlocks` is at most zero. */
  lemma NumBlocksPositiveIff(volumeSize: Long)
    ensures NumBlocks(volumeSize) > 0 <==> 1712 < volumeSize <= 0x7fff_ffff_ffff_06b0
    ensures NumBlocks(volumeSize) > 0 ==> Layout(DataSize(volumeSize), NumBlocks(volumeSize))
  {
    var d: int := DataSize(volumeSize);
    var s: int := WrapLong(d + 65536 - 1);
    if 1712 < volumeSize <= 0x7fff_ffff_ffff_06b0 {
      assert d == volumeSize - 1712 && s == d + 65536 - 1;
      var n: int := s / 65536;
      assert NumBlocks(volumeSize) == n;
      assert n * 65536 <= s < n * 65536 + 65536;
    } else if volumeSize <= 1712 && -TWO63 + 1712 <= volumeSize {
      assert d <= 0 && s == d + 65536 - 1 && s < 65536;
    } else {
      assert s < 0;
    }
  }

  /** Every block of a layout is between 1 and 65536 bytes long, and all but the last are full. */
  lemma BlockLengthInRange(dataSize: Long, n: int, i: Long)
    requires Layout(dataSize, n) && 0 <= i < n
    ensures 0 < BlockLength(dataSize, i) <= 65536
    ensures BlockLength(dataSize, i) == if i < n - 1 then 65536 else dataSize - (n - 1) * 65536
  {
    assert i * 65536 <= (n - 1) * 65536 < dataSize;
    assert WrapLong(i * 65536) == i * 65536;
    if i < n - 1 {
      assert (i + 1) * 65536 <= (n - 1) * 65536;
    }
  }

  /** The lengths of the first `k` blocks. */
  function SumBlockLengths(dataSize: Long, k: nat): int
    requires k <= TWO63
  {
    if k == 0 then 0 else SumBlockLengths(dataSize, k - 1) + BlockLength(dataSize, k - 1)
  }

  /** The blocks of a layout add up to the whole data area. */
  lemma {:induction false} BlockLengthsSum(dataSize: Long, n: int, k: nat)
    requires Layout(dataSize, n) && 0 < n && k <= n
    ensures SumBlockLengths(dataSize, k) == if k < n then k * 65536 else dataSize
  {
    if k > 0 {
      BlockLengthsSum(dataSize, n, k - 1);
      BlockLengthInRange(dataSize, n, k - 1);
      assert SumBlockLengths(dataSize, k) == (k - 1) * 65536 + BlockLength(dataSize, k - 1);
    }
  }

  // ---------------------------------------------------------------------------
  // Block nonces and associated data

  /** `ByteBuffer.allocate(12).putLong(i).array()`: big-endian `i`, then four zero bytes. */
  function BlockNonce(i: Long): (n: seq<uint8>)
    ensures |n| == 12 && n[8..] == Zeros(4)
  {
    LongImage(i, true) + Zeros(4)
  }

  /** `ByteBuffer.allocate(8).putLong(i).array()`. */
  function BlockAad(i: Long): (a: seq<uint8>)
    ensures |a| == 8
  {
    LongImage(i, true)
  }

  /** Distinct block indices never share a nonce. */
  lemma BlockNoncesDistinct(i: Long, j: Long)
    requires i != j
    ensures BlockNonce(i) != BlockNonce(j)
  {
    if BlockNonce(i) == BlockNonce(j) {
      assert BlockNonce(i)[..8] == LongImage(i, true);
      assert BlockNonce(j)[..8] == LongImage(j, true);
      LongRoundTrip(i, true);
      LongRoundTrip(j, true);
    }
  }

  /** The associated data of a block is the first eight bytes of its nonce. */
  lemma BlockAadIsNoncePrefix(i: Long)
    ensures BlockNonce(i)[..8] == BlockAad(i)
  {
  }

  // ---------------------------------------------------------------------------
  // Sealing

  /** A sealing function: key, nonce, AAD and plaintext to `ciphertext || tag`. The file
      layout is stated over such a function, tied to the cipher by `IsSealer`, so that
      reasoning about the layout does not have to unfold ChaCha20-Poly1305. */
  type Sealer = (seq<uint8>, seq<uint8>, seq<uint8>, seq<uint8>) -> seq<uint8>

  /** `seal` is what `encryptData` computes on every input it accepts. The second half
      follows from the first and gives the lengths without unfolding the cipher. */
  ghost predicate IsSealer(seal: Sealer, prim: Primitives)
  {
    (forall key, nonce, aad, pt {:trigger Sealed(prim, key, nonce, aad, pt)} ::
       |aad| <= MAX_ARRAY && |pt| + 16 <= MAX_ARRAY ==> seal(key, nonce, aad, pt) == Sealed(prim, key, nonce, aad, pt))
    && (forall key, nonce, aad, pt ::
       |aad| <= MAX_ARRAY && |pt| + 16 <= MAX_ARRAY ==> |seal(key, nonce, aad, pt)| == |pt| + 16)
  }

  /** The sealing function `encryptData` computes under the keystream `prim`. */
  lemma SealerExists(prim: Primitives) returns (seal: Sealer)
    ensures IsSealer(seal, prim)
  {
    seal := (key, nonce, aad, pt) =>
      if |aad| <= MAX_ARRAY && |pt| + 16 <= MAX_ARRAY then Sealed(prim, key, nonce, aad, pt) else [];
  }

  /** What `encryptData` returns, in terms of a sealer. */
  lemma EncryptDataAsSealer(prim: Primitives, seal: Sealer, plaintext: seq<uint8>, key: seq<uint8>,
                            nonce: seq<uint8>, aad: JBytes)
    requires IsSealer(seal, prim)
    requires |plaintext| + 16 <= MAX_ARRAY && |key| == 32 && |nonce| == 12
    requires aad.JArray? ==> |aad.bytes| <= MAX_ARRAY
    ensures EncryptDataResult(prim, JArray(plaintext), JArray(key), JArray(nonce), aad)
            == Returned(JArray(seal(key, nonce, AadBytes(aad), plaintext)))
  {
    EncryptDataSeals(prim, plaintext, key, nonce, aad);
  }

  // ---------------------------------------------------------------------------
  // Records

  /** One block on disk: its nonce, then the sealed all-zero plaintext and tag. */
  function BlockRecord(seal: Sealer, masterKey: seq<uint8>, i: Long, len: nat): seq<uint8>
  {
    BlockNonce(i) + seal(masterKey, BlockNonce(i), BlockAad(i), Zeros(len))
  }

  /** The records of the first `k` blocks of a layout, in index order. */
  function Records(seal: Sealer, masterKey: seq<uint8>, dataSize: Long, n: int, k: nat): seq<uint8>
    requires Layout(dataSize, n) && k <= n
  {
    if k == 0 then []
    else Records(seal, masterKey, dataSize, n, k - 1) + BlockRecord(seal, masterKey, k - 1, BlockLength(dataSize, k - 1))
  }

  /** Block `k`'s record follows the first `k`. */
  lemma RecordsStep(seal: Sealer, masterKey: seq<uint8>, dataSize: Long, n: int, k: nat)
    requires Layout(dataSize, n) && k < n
    ensures Records(seal, masterKey, dataSize, n, k + 1)
         == Records(seal, masterKey, dataSize, n, k) + BlockRecord(seal, masterKey, k, BlockLength(dataSize, k))
  {
  }

  /** Each record is its nonce, the block's bytes and a 16-byte tag. */
  lemma {:induction false} RecordsPrefixLength(seal: Sealer, prim: Primitives, masterKey: seq<uint8>, dataSize: Long, n: int, k: nat)
    requires IsSealer(seal, prim) && Layout(dataSize, n) && k <= n
    ensures |Records(seal, masterKey, dataSize, n, k)| == SumBlockLengths(dataSize, k) + 28 * k
  {
    if k > 0 {
      RecordsPrefixLength(seal, prim, masterKey, dataSize, n, k - 1);
      BlockLengthInRange(dataSize, n, k - 1);
      var len := BlockLength(dataSize, k - 1);
      assert |seal(masterKey, BlockNonce(k - 1), BlockAad(k - 1), Zeros(len))| == len + 16;
    }
  }

  /** The records of a whole layout take the data area plus 28 bytes per block. */
  lemma RecordsLength(seal: Sealer, prim: Primitives, masterKey: seq<uint8>, dataSize: Long, n: int)
    requires IsSealer(seal, prim) && Layout(dataSize, n)
    ensures |Records(seal, masterKey, dataSize, n, n)| == (if n == 0 then 0 else dataSize) + 28 * n
  {
    RecordsPrefixLength(seal, prim, masterKey, dataSize, n, n);
    if n > 0 {
      BlockLengthsSum(dataSize, n, n);
    }
  }

  // ---------------------------------------------------------------------------
  // Progress

  /** `(int) (60 + (i * 40 / numBlocks))`. */
  function BlockProgress(i: Long, n: Long): Int
    requires n != 0
  {
    ProgressOf(LongDiv(WrapLong(i * 40), n))
  }

  /** `(int) (60 + q)`. */
  function ProgressOf(q: Long): Int
  {
    WrapInt(WrapLong(60 + q))
  }

  lemma ProgressOfSmall(q: Long)
    requires 0 <= q < 40
    ensures ProgressOf(q) == 60 + q
  {
  }

  lemma ScaledIndex(i: Long, n: Long)
    requires 0 <= i < n <= 0x8000_0000_0000
    ensures LongDiv(WrapLong(i * 40), n) == (i * 40) / n < 40
  {
    var m: int := i * 40;
    assert 0 <= m < 0x14_0000_0000_0000;
    assert WrapLong(m) == m;
    DivBelow(m, n, 40);
  }

  /** Below `2^47` blocks none of the `long` operations wraps: the value is `60 + 40i/n`. */
  lemma BlockProgressValue(i: Long, n: Long)
    requires 0 <= i < n <= 0x8000_0000_0000
    ensures BlockProgress(i, n) == 60 + (i * 40) / n && (i * 40) / n < 40
  {
    ScaledIndex(i, n);
    var q := LongDiv(WrapLong(i * 40), n);
    ProgressOfSmall(q);
    assert BlockProgress(i, n) == ProgressOf(q);
  }

  /** The progress of every block lies in [60, 99] and never decreases from one block to the next. */
  lemma BlockProgressBounds(i: Long, j: Long, n: Long)
    requires 0 <= i <= j < n <= 0x8000_0000_0000
    ensures 60 <= BlockProgress(i, n) <= BlockProgress(j, n) <= 99
  {
    var a: int, b: int := i * 40, j * 40;
    BlockProgressValue(i, n);
    BlockProgressValue(j, n);
    DivMono(a, b, n);
    DivMono(0, a, n);
    assert BlockProgress(i, n) == 60 + a / n && BlockProgress(j, n) == 60 + b / n;
  }

  lemma DivMono(a: nat, b: nat, n: nat)
    requires a <= b && n > 0
    ensures a / n <= b / n
  {
    if a / n > b / n {
      MulMono(n, b / n + 1, a / n);
    }
  }

  lemma DivBelow(a: nat, n: nat, q: nat)
    requires n > 0 && a < q * n
    ensures a / n < q
  {
    if a / n >= q {
      MulMono(n, q, a / n);
    }
  }

  /** The progress values the block loop posts for its first `k` iterations. */
  function BlockProgresses(n: Long, k: nat): (p: seq<int>)
    requires (n != 0 || k == 0) && k <= TWO63
    ensures |p| == k
  {
    if k == 0 then [] else BlockProgresses(n, k - 1) + [BlockProgress(k - 1, n)]
  }

  lemma {:induction false} BlockProgressesAt(n: Long, k: nat, i: nat)
    requires n != 0 && i < k <= TWO63
    ensures BlockProgresses(n, k)[i] == BlockProgress(i, n)
  {
    if i < k - 1 {
      BlockProgressesAt(n, k - 1, i);
    }
  }

  /** `p` never decreases and stays within [lo, hi]. */
  ghost predicate SortedWithin(p: seq<int>, lo: int, hi: int)
  {
    forall a, b :: 0 <= a <= b < |p| ==> lo <= p[a] <= p[b] <= hi
  }

  /** The whole sequence of block progress values stays in [60, 99] and is sorted. */
  lemma BlockProgressesSorted(n: Long)
    requires 0 < n <= 0x8000_0000_0000
    ensures SortedWithin(BlockProgresses(n, n), 60, 99)
  {
    var p := BlockProgresses(n, n);
    forall a, b | 0 <= a <= b < |p|
      ensures 60 <= p[a] <= p[b] <= 99
    {
      BlockProgressesAt(n, n, a);
      BlockProgressesAt(n, n, b);
      BlockProgressBounds(a, b, n);
    }
  }
}
