/** The ChaCha20-Poly1305 AEAD construction of `chacha20poly1305.c` (the layout of
    section 2.8 of RFC 8439): a one-time Poly1305 key from keystream block 0, the
    payload XORed with the keystream from block 1, and a tag over the padded AAD,
    the padded ciphertext and both lengths. The ChaCha20 block function itself is
    not part of this model: the keystream is a parameter. So is the authenticator,
    which `IsPoly1305` ties to the Poly1305 model wherever the C code computes a tag. */
module ChaCha20Poly1305 {
  import opened Bits
  import opened Bytes
  import opened Wrappers
  import Poly1305

  const KEYBYTES: nat := 32
  const NONCEBYTES: nat := 12
  const ABYTES: nat := 16

  /** The ChaCha20 keystream: the byte at position `pos` of the stream for `key` and
      `nonce`, where block `c` of 64 bytes starts at position `64 * c`. */
  type KeyStream = (seq<uint8>, seq<uint8>, nat) -> uint8

  /** A one-time authenticator: a 16-byte tag for a key and a message. */
  type Mac = f: (seq<uint8>, seq<uint8>) -> seq<uint8> | forall key, msg :: |f(key, msg)| == ABYTES
    witness (key: seq<uint8>, msg: seq<uint8>) => Zeros(ABYTES)

  /** The two primitives the construction is built from: the ChaCha20 keystream and the
      one-time authenticator. */
  datatype Primitives = Primitives(stream: KeyStream, mac: Mac)

  /** `mac` is `poly1305_auth` on every 32-byte key. */
  ghost predicate IsPoly1305(mac: Mac)
  {
    forall key, msg {:trigger Poly1305.AuthTag(key, msg)} ::
      |key| == Poly1305.KEYLEN ==> mac(key, msg) == Poly1305.AuthTag(key, msg)
  }

  /** `poly1305_auth` on a 32-byte key; any other key gets zeros. */
  function AuthTagOrZeros(key: seq<uint8>, msg: seq<uint8>): (t: seq<uint8>)
    ensures |t| == ABYTES
    ensures |key| == Poly1305.KEYLEN ==> t == Poly1305.AuthTag(key, msg)
  {
    if |key| == Poly1305.KEYLEN then Poly1305.AuthTag(key, msg) else Zeros(ABYTES)
  }

  /** Poly1305 is an authenticator of this kind. */
  lemma Poly1305Mac() returns (mac: Mac)
    ensures IsPoly1305(mac)
  {
    assert forall key, msg :: |AuthTagOrZeros(key, msg)| == ABYTES;
    mac := AuthTagOrZeros;
  }

  /** `ChaCha256Encrypt` after `ChaCha256Init(ctx, key, nonce, counter)`: each byte is
      XORed with the keystream byte at the same offset from block `counter`. */
  function ChaChaXor(ks: KeyStream, key: seq<uint8>, nonce: seq<uint8>, counter: nat, data: seq<uint8>): (out: seq<uint8>)
    ensures |out| == |data|
    ensures forall i :: 0 <= i < |data| ==> out[i] == Xor(data[i], ks(key, nonce, 64 * counter + i))
  {
    seq(|data|, i requires 0 <= i < |data| => Xor8(data[i], ks(key, nonce, 64 * counter + i)))
  }

  /** The same keystream XORed twice cancels: ChaCha decryption inverts encryption. */
  lemma ChaChaXorInvolutive(ks: KeyStream, key: seq<uint8>, nonce: seq<uint8>, counter: nat, data: seq<uint8>)
    ensures ChaChaXor(ks, key, nonce, counter, ChaChaXor(ks, key, nonce, counter, data)) == data
  {
    var once := ChaChaXor(ks, key, nonce, counter, data);
    var twice := ChaChaXor(ks, key, nonce, counter, once);
    forall i | 0 <= i < |data|
      ensures twice[i] == data[i]
    {
      XorInvolutive(data[i], ks(key, nonce, 64 * counter + i));
    }
  }

  /** `chacha20_poly1305_key`: the first 32 bytes of block 0 of the keystream, obtained
      by encrypting a zero block. */
  function PolyKey(ks: KeyStream, key: seq<uint8>, nonce: seq<uint8>): (pk: seq<uint8>)
    ensures |pk| == Poly1305.KEYLEN
    ensures forall i :: 0 <= i < 32 ==> pk[i] == ks(key, nonce, i)
  {
    var block := ChaChaXor(ks, key, nonce, 0, Zeros(64));
    forall i | 0 <= i < 32
      ensures block[i] == ks(key, nonce, i)
    {
      XorZeroLeft(ks(key, nonce, i));
    }
    block[..32]
  }

  /** `poly1305_pad_length`: the zero bytes that bring `len` up to a multiple of 16. */
  function PadLength(len: uint64): (p: nat)
    ensures p < 16 && (len + p) % 16 == 0
    ensures p == 0 <==> len % 16 == 0
  {
    (16 - len % 16) % 16
  }

  /** The Poly1305 input: `aad || pad || ct || pad || le64(|aad|) || le64(|ct|)`. */
  function MacData(aad: seq<uint8>, ct: seq<uint8>): (m: seq<uint8>)
    requires |aad| < TWO64 && |ct| < TWO64
    ensures |m| % 16 == 0 && |m| >= |aad| + 16
    ensures m[..|aad|] == aad
    ensures m[|m| - 16..] == LeBytes(|aad|, 8) + LeBytes(|ct|, 8)
    ensures var ca := |aad| + PadLength(|aad|); var cc := ca + |ct|;
      |m| == cc + PadLength(|ct|) + 16
      && m[|aad|..ca] == Zeros(PadLength(|aad|)) && m[ca..cc] == ct
      && m[cc..|m| - 16] == Zeros(PadLength(|ct|))
  {
    var pa := Zeros(PadLength(|aad|));
    var pc := Zeros(PadLength(|ct|));
    var lens := LeBytes(|aad|, 8) + LeBytes(|ct|, 8);
    var m := aad + pa + ct + pc + lens;
    assert m[..|aad|] == aad;
    assert m[|aad|..|aad| + |pa|] == pa;
    assert m[|aad| + |pa|..|aad| + |pa| + |ct|] == ct;
    assert m[|aad| + |pa| + |ct|..|m| - 16] == pc;
    assert |m| == (|aad| + |pa|) + (|ct| + |pc|) + 16;
    MulOf16(|aad| + |pa|, |ct| + |pc|);
    m
  }

  lemma MulOf16(a: nat, b: nat)
    requires a % 16 == 0 && b % 16 == 0
    ensures (a + b + 16) % 16 == 0
  {
    DivUnique(a + b + 16, 16, a / 16 + b / 16 + 1, 0);
  }

  /** The tag over `aad` and the ciphertext `ct`. */
  function Tag(prim: Primitives, key: seq<uint8>, nonce: seq<uint8>, aad: seq<uint8>, ct: seq<uint8>): (t: seq<uint8>)
    requires |aad| < TWO64 && |ct| < TWO64
    ensures |t| == ABYTES
  {
    prim.mac(PolyKey(prim.stream, key, nonce), MacData(aad, ct))
  }

  /** Encryption as a value: the ciphertext and the tag `chacha20poly1305_encrypt` writes. */
  function Seal(prim: Primitives, key: seq<uint8>, nonce: seq<uint8>, aad: seq<uint8>, pt: seq<uint8>): (r: (seq<uint8>, seq<uint8>))
    requires |aad| < TWO64 && |pt| < TWO64
    ensures |r.0| == |pt| && |r.1| == ABYTES
  {
    var ct := ChaChaXor(prim.stream, key, nonce, 1, pt);
    (ct, Tag(prim, key, nonce, aad, ct))
  }

  /** Decryption as a value: `None` when the recomputed tag differs from `tag`,
      otherwise the payload XORed with the keystream from block 1. */
  function Open(prim: Primitives, key: seq<uint8>, nonce: seq<uint8>, aad: seq<uint8>, ct: seq<uint8>, tag: seq<uint8>): (r: Option<seq<uint8>>)
    requires |aad| < TWO64 && |ct| < TWO64
    ensures r.Some? <==> Tag(prim, key, nonce, aad, ct) == tag
    ensures r.Some? ==> |r.value| == |ct|
  {
    if Tag(prim, key, nonce, aad, ct) == tag then Some(ChaChaXor(prim.stream, key, nonce, 1, ct)) else None
  }

  /** Opening what was sealed under the same key, nonce and AAD gives the plaintext back. */
  lemma OpenSeal(prim: Primitives, key: seq<uint8>, nonce: seq<uint8>, aad: seq<uint8>, pt: seq<uint8>)
    requires |aad| < TWO64 && |pt| < TWO64
    ensures var (ct, tag) := Seal(prim, key, nonce, aad, pt);
            Open(prim, key, nonce, aad, ct, tag) == Some(pt)
  {
    ChaChaXorInvolutive(prim.stream, key, nonce, 1, pt);
  }

  // ---------------------------------------------------------------- the C functions

  /** `store64_le(dst + off, val)`: byte `k` is `(uint8_t)(val >> 8k)`, which is the
      little-endian encoding; nothing outside the eight bytes changes. */
  method Store64Le(dst: array<uint8>, off: nat, val: uint64)
    requires off + 8 <= dst.Length
    modifies dst
    ensures dst[off..off + 8] == LeBytes(val, 8)
    ensures dst[..off] == old(dst[..off]) && dst[off + 8..] == old(dst[off + 8..])
  {
    var b := Le64Image(val);  // (uint8_t)(val >> 8k) for k = 0 .. 7
    dst[off] := b[0];
    dst[off + 1] := b[1];
    dst[off + 2] := b[2];
    dst[off + 3] := b[3];
    dst[off + 4] := b[4];
    dst[off + 5] := b[5];
    dst[off + 6] := b[6];
    dst[off + 7] := b[7];
    EightBytes(dst[off..off + 8], b[0], b[1], b[2], b[3], b[4], b[5], b[6], b[7]);
    EightBytes(b, b[0], b[1], b[2], b[3], b[4], b[5], b[6], b[7]);
  }

  /** The eight bytes `store64_le` writes, as a sequence. */
  function Le64Image(val: uint64): (b: seq<uint8>)
    ensures b == LeBytes(val, 8)
  {
    Le64Bytes(val);
    var b0: uint8, b1: uint8, b2: uint8, b3: uint8 := Shr(val, 0) % 256, Shr(val, 8) % 256, Shr(val, 16) % 256, Shr(val, 24) % 256;
    var b4: uint8, b5: uint8, b6: uint8, b7: uint8 := Shr(val, 32) % 256, Shr(val, 40) % 256, Shr(val, 48) % 256, Shr(val, 56) % 256;
    EightBytes(LeBytes(val, 8), b0, b1, b2, b3, b4, b5, b6, b7);
    [b0, b1, b2, b3, b4, b5, b6, b7]
  }

  /** Byte `k` of the little-endian encoding is the low byte of `val >> 8k`. */
  lemma Le64Bytes(val: uint64)
    ensures forall k :: 0 <= k < 8 ==> LeBytes(val, 8)[k] == Shr(val, 8 * k) % 256
  {
    forall k | 0 <= k < 8
      ensures LeBytes(val, 8)[k] == Shr(val, 8 * k) % 256
    {
      Le64Byte(val, k);
    }
  }

  lemma Le64Byte(val: uint64, k: nat)
    requires k < 8
    ensures Shr(val, 8 * k) % 256 == LeBytes(val, 8)[k]
  {
    LeBytesAt(val, 8, k);
    Poly1305.Pow256Pow2(k);
  }

  lemma EightBytes(s: seq<uint8>, b0: uint8, b1: uint8, b2: uint8, b3: uint8, b4: uint8, b5: uint8, b6: uint8, b7: uint8)
    requires |s| == 8 && s[0] == b0 && s[1] == b1 && s[2] == b2 && s[3] == b3
    requires s[4] == b4 && s[5] == b5 && s[6] == b6 && s[7] == b7
    ensures s == [b0, b1, b2, b3, b4, b5, b6, b7]
  {
  }

  /** The bytes a possibly null buffer holds in its first `n` positions. */
  function Contents(p: array?<uint8>, n: nat): (b: seq<uint8>)
    reads p
    requires p == null ==> n == 0
    requires p != null ==> n <= p.Length
    ensures |b| == n
  {
    if p == null then [] else p[..n]
  }

  /** `ChaCha256Encrypt(ctx, src, len, dst)` after `ChaCha256Init(ctx, key, nonce, counter)`.
      It works byte by byte, so `src` and `dst` may be the same buffer. */
  method ChaChaApply(ks: KeyStream, key: seq<uint8>, nonce: seq<uint8>, counter: nat,
                     src: array<uint8>, len: nat, dst: array<uint8>)
    requires len <= src.Length && len <= dst.Length
    modifies dst
    ensures dst[..len] == ChaChaXor(ks, key, nonce, counter, old(src[..len]))
    ensures dst[len..] == old(dst[len..])
  {
    ghost var input := src[..len];
    ghost var want := ChaChaXor(ks, key, nonce, counter, input);
    for i := 0 to len
      invariant dst[..i] == want[..i]
      invariant forall j :: i <= j < len ==> src[j] == input[j]
      invariant dst[len..] == old(dst[len..])
    {
      dst[i] := Xor8(src[i], ks(key, nonce, 64 * counter + i));
    }
  }

  /** The guards of `chacha20poly1305_encrypt`: a missing output, key or nonce, or a
      non-empty input given as a null pointer. */
  predicate EncryptRejects(ciphertext: array?<uint8>, tag: array?<uint8>, plaintext: array?<uint8>, plaintextLen: nat,
                           aad: array?<uint8>, aadLen: nat, key: array?<uint8>, nonce: array?<uint8>)
  {
    ciphertext == null || tag == null || key == null || nonce == null
    || (plaintextLen > 0 && plaintext == null) || (aadLen > 0 && aad == null)
  }

  /** The guards of `chacha20poly1305_decrypt`. */
  predicate DecryptRejects(plaintext: array?<uint8>, ciphertext: array?<uint8>, ciphertextLen: nat, tag: array?<uint8>,
                           aad: array?<uint8>, aadLen: nat, key: array?<uint8>, nonce: array?<uint8>)
  {
    plaintext == null || tag == null || key == null || nonce == null
    || (ciphertextLen > 0 && ciphertext == null) || (aadLen > 0 && aad == null)
  }

  /** Poly1305 keyed with `pk` over the MAC input, computed the way the C code does it:
      `init`, the `update` calls of `AbsorbMacData`, then `final` into `out`. */
  method ComputeTag(ghost mac: Mac, pk: seq<uint8>, aad: seq<uint8>, ct: seq<uint8>, out: array<uint8>)
    requires IsPoly1305(mac)
    requires |pk| == Poly1305.KEYLEN && |aad| < TWO64 && |ct| < TWO64 && out.Length >= ABYTES
    modifies out
    ensures out[..ABYTES] == mac(pk, MacData(aad, ct))
    ensures out[ABYTES..] == old(out[ABYTES..])
  {
    var poly := Poly1305.Start(pk);
    AbsorbMacData(poly, poly.State(), aad, ct);
    FinishTag(mac, poly, pk, MacData(aad, ct), out);
  }

  /** `poly1305_final(&poly_ctx, tag)` once the context has absorbed `msg`. */
  method FinishTag(ghost mac: Mac, poly: Poly1305.Context, ghost pk: seq<uint8>, ghost msg: seq<uint8>,
                   out: array<uint8>)
    requires IsPoly1305(mac) && |pk| == Poly1305.KEYLEN
    requires poly.Valid() && out.Length >= ABYTES && out != poly.buffer
    requires Poly1305.Equiv(poly.State(), Poly1305.UpdateState(Poly1305.InitState(pk), msg))
    modifies poly, poly.buffer, out
    ensures out[..ABYTES] == mac(pk, msg)
    ensures out[ABYTES..] == old(out[ABYTES..])
  {
    Poly1305.FinalTagRespectsEquiv(poly.State(), Poly1305.UpdateState(Poly1305.InitState(pk), msg));
    poly.Final(out);
    MacIsFinalTag(mac, pk, msg);
  }

  /** The authenticator's tag is what `final` writes after `init(key)` and one `update(msg)`. */
  lemma MacIsFinalTag(mac: Mac, key: seq<uint8>, msg: seq<uint8>)
    requires IsPoly1305(mac) && |key| == Poly1305.KEYLEN
    ensures mac(key, msg) == Poly1305.FinalTag(Poly1305.UpdateState(Poly1305.InitState(key), msg))
  {
    assert mac(key, msg) == Poly1305.AuthTag(key, msg);
  }

  /** The `update` calls that feed the MAC input: the AAD and its padding only when the
      AAD is non-empty, likewise the ciphertext, then the 16 length bytes. */
  method AbsorbMacData(poly: Poly1305.Context, ghost s0: Poly1305.PolyState, aad: seq<uint8>, ct: seq<uint8>)
    requires |aad| < TWO64 && |ct| < TWO64
    requires poly.Valid() && Poly1305.Wf(s0) && poly.State() == s0
    modifies poly, poly.buffer
    ensures poly.Valid() && Poly1305.Equiv(poly.State(), Poly1305.UpdateState(s0, MacData(aad, ct)))
  {
    Poly1305.UpdateEmpty(s0);
    FeedPadded(poly, s0, [], aad);
    ghost var fed := [] + aad + Zeros(PadLength(|aad|));
    FeedPadded(poly, s0, fed, ct);
    fed := fed + ct + Zeros(PadLength(|ct|));
    var lens := FeedLengths(poly, s0, fed, |aad|, |ct|);
    MacDataLayout(aad, ct, lens);
  }

  /** `store64_le(len_buffer, aad_len); store64_le(len_buffer + 8, ct_len); update(len_buffer, 16)`. */
  method FeedLengths(poly: Poly1305.Context, ghost s0: Poly1305.PolyState, ghost fed: seq<uint8>, aadLen: uint64, ctLen: uint64)
    returns (lens: seq<uint8>)
    requires poly.Valid() && Poly1305.Wf(s0) && Poly1305.Equiv(poly.State(), Poly1305.UpdateState(s0, fed))
    modifies poly, poly.buffer
    ensures lens == LeBytes(aadLen, 8) + LeBytes(ctLen, 8)
    ensures poly.Valid() && Poly1305.Equiv(poly.State(), Poly1305.UpdateState(s0, fed + lens))
  {
    var lenBuffer := new uint8[16](_ => 0);
    Store64Le(lenBuffer, 0, aadLen);
    Store64Le(lenBuffer, 8, ctLen);
    assert lenBuffer[..] == lenBuffer[..8] + lenBuffer[8..16];
    lens := lenBuffer[..];
    Feed(poly, s0, fed, lens);
  }

  lemma MacDataLayout(aad: seq<uint8>, ct: seq<uint8>, lens: seq<uint8>)
    requires |aad| < TWO64 && |ct| < TWO64 && lens == LeBytes(|aad|, 8) + LeBytes(|ct|, 8)
    ensures MacData(aad, ct) == [] + aad + Zeros(PadLength(|aad|)) + ct + Zeros(PadLength(|ct|)) + lens
  {
    assert [] + aad == aad;
  }

  /** `if (len > 0) { update(data); if (pad > 0) update(pad_buffer, pad); }`: the
      data and its zero padding, or nothing when the data is empty. */
  method FeedPadded(poly: Poly1305.Context, ghost s0: Poly1305.PolyState, ghost fed: seq<uint8>, data: seq<uint8>)
    requires |data| < TWO64
    requires poly.Valid() && Poly1305.Wf(s0) && Poly1305.Equiv(poly.State(), Poly1305.UpdateState(s0, fed))
    modifies poly, poly.buffer
    ensures poly.Valid() && Poly1305.Equiv(poly.State(), Poly1305.UpdateState(s0, fed + data + Zeros(PadLength(|data|))))
  {
    if |data| > 0 {
      Feed(poly, s0, fed, data);
      var pad := PadLength(|data|);
      if pad > 0 {
        Feed(poly, s0, fed + data, Zeros(pad));
      } else {
        assert fed + data + Zeros(0) == fed + data;
      }
    } else {
      assert fed + data + Zeros(0) == fed;
    }
  }

  /** One `poly1305_update` call, with the proof that the context still stands for
      everything fed so far. */
  method Feed(poly: Poly1305.Context, ghost s0: Poly1305.PolyState, ghost fed: seq<uint8>, piece: seq<uint8>)
    requires poly.Valid() && Poly1305.Wf(s0) && Poly1305.Equiv(poly.State(), Poly1305.UpdateState(s0, fed))
    modifies poly, poly.buffer
    ensures poly.Valid() && Poly1305.Equiv(poly.State(), Poly1305.UpdateState(s0, fed + piece))
  {
    ghost var before := poly.State();
    poly.Update(piece);
    Poly1305.UpdateChain(s0, before, fed, piece);
  }

  /** The caller's side of `chacha20poly1305_encrypt`: every non-null buffer is as long
      as the lengths say, and the outputs do not overlap the inputs (except that the
      ciphertext may be the plaintext buffer itself). */
  predicate EncryptBuffers(ciphertext: array?<uint8>, tag: array?<uint8>, plaintext: array?<uint8>, plaintextLen: uint64,
                           aad: array?<uint8>, aadLen: uint64, key: array?<uint8>, nonce: array?<uint8>)
  {
    (ciphertext != null ==> plaintextLen <= ciphertext.Length
                            && ciphertext != aad && ciphertext != key && ciphertext != nonce)
    && (plaintext != null ==> plaintextLen <= plaintext.Length)
    && (aad != null ==> aadLen <= aad.Length)
    && (key != null ==> key.Length >= KEYBYTES)
    && (nonce != null ==> nonce.Length >= NONCEBYTES)
    && (tag != null ==> tag.Length >= ABYTES && tag != ciphertext && tag != plaintext
                        && tag != aad && tag != key && tag != nonce)
  }

  /** `chacha20poly1305_encrypt`: -1 and no output written when a guard fails;
      otherwise 0, with the ciphertext and tag of `Seal` in the output buffers. */
  method Encrypt(prim: Primitives, ciphertext: array?<uint8>, tag: array?<uint8>, plaintext: array?<uint8>, plaintextLen: uint64,
                 aad: array?<uint8>, aadLen: uint64, key: array?<uint8>, nonce: array?<uint8>) returns (rc: int)
    requires IsPoly1305(prim.mac) && EncryptBuffers(ciphertext, tag, plaintext, plaintextLen, aad, aadLen, key, nonce)
    modifies ciphertext, tag
    ensures EncryptRejects(ciphertext, tag, plaintext, plaintextLen, aad, aadLen, key, nonce) ==>
              rc == -1
              && (ciphertext != null ==> ciphertext[..] == old(ciphertext[..]))
              && (tag != null ==> tag[..] == old(tag[..]))
    ensures !EncryptRejects(ciphertext, tag, plaintext, plaintextLen, aad, aadLen, key, nonce) ==>
              var sealed := Seal(prim, key[..KEYBYTES], nonce[..NONCEBYTES], Contents(aad, aadLen),
                                 old(Contents(plaintext, plaintextLen)));
              rc == 0
              && ciphertext[..plaintextLen] == sealed.0 && ciphertext[plaintextLen..] == old(ciphertext[plaintextLen..])
              && tag[..ABYTES] == sealed.1 && tag[ABYTES..] == old(tag[ABYTES..])
  {
    if ciphertext == null || tag == null || key == null || nonce == null {
      return -1;
    }
    if plaintextLen > 0 && plaintext == null {
      return -1;
    }
    if aadLen > 0 && aad == null {
      return -1;
    }
    rc := EncryptChecked(prim, ciphertext, tag, plaintext, plaintextLen, aad, aadLen, key, nonce);
  }

  /** `chacha20poly1305_encrypt` past its guards: encrypt, then tag the ciphertext. */
  method EncryptChecked(prim: Primitives, ciphertext: array<uint8>, tag: array<uint8>, plaintext: array?<uint8>,
                        plaintextLen: uint64, aad: array?<uint8>, aadLen: uint64, key: array<uint8>, nonce: array<uint8>)
    returns (rc: int)
    requires IsPoly1305(prim.mac) && EncryptBuffers(ciphertext, tag, plaintext, plaintextLen, aad, aadLen, key, nonce)
    requires !EncryptRejects(ciphertext, tag, plaintext, plaintextLen, aad, aadLen, key, nonce)
    modifies ciphertext, tag
    ensures var sealed := Seal(prim, key[..KEYBYTES], nonce[..NONCEBYTES], Contents(aad, aadLen),
                               old(Contents(plaintext, plaintextLen)));
            rc == 0
            && ciphertext[..plaintextLen] == sealed.0 && ciphertext[plaintextLen..] == old(ciphertext[plaintextLen..])
            && tag[..ABYTES] == sealed.1 && tag[ABYTES..] == old(tag[ABYTES..])
  {
    var k, n := key[..KEYBYTES], nonce[..NONCEBYTES];
    var pk := PolyKey(prim.stream, k, n);
    ghost var pt := Contents(plaintext, plaintextLen);
    if plaintextLen > 0 {
      ChaChaApply(prim.stream, k, n, 1, plaintext, plaintextLen, ciphertext);
    }
    var ct := ciphertext[..plaintextLen];
    assert ct == ChaChaXor(prim.stream, k, n, 1, pt);
    ComputeTag(prim.mac, pk, Contents(aad, aadLen), ct, tag);
    return 0;
  }

  /** The caller's side of `chacha20poly1305_decrypt`; the plaintext may be the
      ciphertext buffer itself. */
  predicate DecryptBuffers(plaintext: array?<uint8>, ciphertext: array?<uint8>, ciphertextLen: uint64, tag: array?<uint8>,
                           aad: array?<uint8>, aadLen: uint64, key: array?<uint8>, nonce: array?<uint8>)
  {
    (plaintext != null ==> ciphertextLen <= plaintext.Length
                           && plaintext != tag && plaintext != aad && plaintext != key && plaintext != nonce)
    && (ciphertext != null ==> ciphertextLen <= ciphertext.Length)
    && (aad != null ==> aadLen <= aad.Length)
    && (key != null ==> key.Length >= KEYBYTES)
    && (nonce != null ==> nonce.Length >= NONCEBYTES)
    && (tag != null ==> tag.Length >= ABYTES)
  }

  /** `chacha20poly1305_decrypt`: -1 and nothing written when a guard fails; otherwise
      the tag is verified first, and on a mismatch the plaintext buffer is zeroed and -1
      returned, while on a match the payload is decrypted and 0 returned. */
  method Decrypt(prim: Primitives, plaintext: array?<uint8>, ciphertext: array?<uint8>, ciphertextLen: uint64, tag: array?<uint8>,
                 aad: array?<uint8>, aadLen: uint64, key: array?<uint8>, nonce: array?<uint8>) returns (rc: int)
    requires IsPoly1305(prim.mac) && DecryptBuffers(plaintext, ciphertext, ciphertextLen, tag, aad, aadLen, key, nonce)
    modifies plaintext
    ensures DecryptRejects(plaintext, ciphertext, ciphertextLen, tag, aad, aadLen, key, nonce) ==>
              rc == -1 && (plaintext != null ==> plaintext[..] == old(plaintext[..]))
    ensures !DecryptRejects(plaintext, ciphertext, ciphertextLen, tag, aad, aadLen, key, nonce) ==>
              var plain := Open(prim, key[..KEYBYTES], nonce[..NONCEBYTES], Contents(aad, aadLen),
                                 old(Contents(ciphertext, ciphertextLen)), tag[..ABYTES]);
              (rc == 0 <==> plain.Some?) && (rc == 0 || rc == -1)
              && plaintext[..ciphertextLen] == (if plain.Some? then plain.value else Zeros(ciphertextLen))
              && plaintext[ciphertextLen..] == old(plaintext[ciphertextLen..])
  {
    if plaintext == null || tag == null || key == null || nonce == null {
      return -1;
    }
    if ciphertextLen > 0 && ciphertext == null {
      return -1;
    }
    if aadLen > 0 && aad == null {
      return -1;
    }
    rc := DecryptChecked(prim, plaintext, ciphertext, ciphertextLen, tag, aad, aadLen, key, nonce);
  }

  /** `chacha20poly1305_decrypt` past its guards: check the tag, then decrypt or clear. */
  method DecryptChecked(prim: Primitives, plaintext: array<uint8>, ciphertext: array?<uint8>, ciphertextLen: uint64,
                        tag: array<uint8>, aad: array?<uint8>, aadLen: uint64, key: array<uint8>, nonce: array<uint8>)
    returns (rc: int)
    requires IsPoly1305(prim.mac) && DecryptBuffers(plaintext, ciphertext, ciphertextLen, tag, aad, aadLen, key, nonce)
    requires !DecryptRejects(plaintext, ciphertext, ciphertextLen, tag, aad, aadLen, key, nonce)
    modifies plaintext
    ensures var plain := Open(prim, key[..KEYBYTES], nonce[..NONCEBYTES], Contents(aad, aadLen),
                              old(Contents(ciphertext, ciphertextLen)), tag[..ABYTES]);
            (rc == 0 <==> plain.Some?) && (rc == 0 || rc == -1)
            && plaintext[..ciphertextLen] == (if plain.Some? then plain.value else Zeros(ciphertextLen))
            && plaintext[ciphertextLen..] == old(plaintext[ciphertextLen..])
  {
    var k, n := key[..KEYBYTES], nonce[..NONCEBYTES];
    var pk := PolyKey(prim.stream, k, n);
    var result := CheckTag(prim.mac, pk, Contents(aad, aadLen), Contents(ciphertext, ciphertextLen), tag[..ABYTES]);
    if result != 0 {
      // authentication failed: clear the output
      if ciphertextLen > 0 {
        ZeroPrefix(plaintext, ciphertextLen);
      }
      return -1;
    }
    if ciphertextLen > 0 {
      ChaChaApply(prim.stream, k, n, 1, ciphertext, ciphertextLen, plaintext);
    }
    return 0;
  }

  /** `poly1305_final(&poly_ctx, computed_tag)` followed by `poly1305_verify(computed_tag, tag)`. */
  method CheckTag(ghost mac: Mac, pk: seq<uint8>, aad: seq<uint8>, ct: seq<uint8>, tag: seq<uint8>) returns (result: int)
    requires IsPoly1305(mac)
    requires |pk| == Poly1305.KEYLEN && |aad| < TWO64 && |ct| < TWO64 && |tag| == ABYTES
    ensures result == 0 <==> mac(pk, MacData(aad, ct)) == tag
    ensures result == 0 || result == -1
  {
    var computedTag := new uint8[ABYTES](_ => 0);
    ComputeTag(mac, pk, aad, ct, computedTag);
    result := CompareTag(computedTag, tag, mac(pk, MacData(aad, ct)));
  }

  /** `poly1305_verify(computed_tag, tag)` on a buffer holding the tag `want`. */
  method CompareTag(computedTag: array<uint8>, tag: seq<uint8>, ghost want: seq<uint8>) returns (result: int)
    requires computedTag.Length == ABYTES && |tag| == ABYTES && computedTag[..] == want
    ensures result == 0 <==> want == tag
    ensures result == 0 || result == -1
  {
    result := Poly1305.Verify(computedTag[..], tag);
    assert computedTag[..][..ABYTES] == computedTag[..ABYTES];
    assert tag[..ABYTES] == tag;
  }

  /** `memset(buf, 0, len)`. */
  method ZeroPrefix(buf: array<uint8>, len: nat)
    requires len <= buf.Length
    modifies buf
    ensures buf[..len] == Zeros(len) && buf[len..] == old(buf[len..])
  {
    forall i | 0 <= i < len {
      buf[i] := 0;
    }
  }

  /** `chacha20poly1305_encrypt_inplace`: `Encrypt` with the data buffer as both
      plaintext and ciphertext. */
  method EncryptInPlace(prim: Primitives, data: array?<uint8>, dataLen: uint64, aad: array?<uint8>, aadLen: uint64,
                        tag: array?<uint8>, key: array?<uint8>, nonce: array?<uint8>) returns (rc: int)
    requires IsPoly1305(prim.mac) && EncryptBuffers(data, tag, data, dataLen, aad, aadLen, key, nonce)
    modifies data, tag
    ensures EncryptRejects(data, tag, data, dataLen, aad, aadLen, key, nonce) ==>
              rc == -1 && (data != null ==> data[..] == old(data[..])) && (tag != null ==> tag[..] == old(tag[..]))
    ensures !EncryptRejects(data, tag, data, dataLen, aad, aadLen, key, nonce) ==>
              var sealed := Seal(prim, key[..KEYBYTES], nonce[..NONCEBYTES], Contents(aad, aadLen), old(data[..dataLen]));
              rc == 0 && data[..dataLen] == sealed.0 && data[dataLen..] == old(data[dataLen..])
              && tag[..ABYTES] == sealed.1 && tag[ABYTES..] == old(tag[ABYTES..])
  {
    rc := Encrypt(prim, data, tag, data, dataLen, aad, aadLen, key, nonce);
  }

  /** `chacha20poly1305_decrypt_inplace`: `Decrypt` with the data buffer as both
      ciphertext and plaintext; a failed check leaves the buffer zeroed. */
  method DecryptInPlace(prim: Primitives, data: array?<uint8>, dataLen: uint64, tag: array?<uint8>, aad: array?<uint8>,
                        aadLen: uint64, key: array?<uint8>, nonce: array?<uint8>) returns (rc: int)
    requires IsPoly1305(prim.mac) && DecryptBuffers(data, data, dataLen, tag, aad, aadLen, key, nonce)
    modifies data
    ensures DecryptRejects(data, data, dataLen, tag, aad, aadLen, key, nonce) ==>
              rc == -1 && (data != null ==> data[..] == old(data[..]))
    ensures !DecryptRejects(data, data, dataLen, tag, aad, aadLen, key, nonce) ==>
              var plain := Open(prim, key[..KEYBYTES], nonce[..NONCEBYTES], Contents(aad, aadLen),
                                 old(data[..dataLen]), tag[..ABYTES]);
              (rc == 0 <==> plain.Some?) && (rc == 0 || rc == -1)
              && data[..dataLen] == (if plain.Some? then plain.value else Zeros(dataLen))
              && data[dataLen..] == old(data[dataLen..])
  {
    rc := Decrypt(prim, data, data, dataLen, tag, aad, aadLen, key, nonce);
  }
}
