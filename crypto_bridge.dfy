/** The JNI bridge `qubesdroid_crypto.c`: how `CryptoNative.encryptData`,
    `decryptData` and `deriveKeyFromPassword` frame their byte arrays around the
    AEAD and the password KDF, and what they return on each path. Java `byte[]`
    values are their bytes read as unsigned; a `null` reference is `JNull`. */
module CryptoBridge {
  import opened Bits
  import opened Wrappers
  import opened JavaLang
  import opened ChaCha20Poly1305

  /** A Java `byte[]` reference. */
  datatype JBytes = JNull | JArray(bytes: seq<uint8>)

  /** A Java `String` reference. */
  datatype JStr = JStrNull | JStr(units: JString)

  /** What a native method hands back to Java. `Returned(JNull)` is a `NULL` return;
      `Uninitialised` is a return of an uninitialised local (undefined in C);
      `Abort` is a JNI call on a null reference, which aborts the process. */
  datatype NativeResult = Returned(ret: JBytes) | Uninitialised | Abort

  /** The largest Java array length, `Integer.MAX_VALUE`. */
  const MAX_ARRAY: nat := 0x7fff_ffff

  /** The only salt length `deriveKeyFromPassword` accepts. */
  const SALT_LEN: nat := 16

  /** The Argon2id cost parameters: 4 passes, 256 MiB, 4 lanes. */
  const T_COST: nat := 4
  const M_COST: nat := 262144
  const PARALLELISM: nat := 4

  /** A raw 32-byte key. */
  type Key32 = k: seq<uint8> | |k| == 32 witness seq(32, _ => 0)

  /** `argon2id_hash_raw(t, m, p, pwd, strlen(pwd), salt, salt_len, key, 32)`: a key, or
      `None` when it does not return `ARGON2_OK`. It receives the password as the
      Java string; its modified-UTF-8 encoding is part of this function. */
  type Argon2id = (nat, nat, nat, JString, seq<uint8>) -> Option<Key32>

  // ---------------------------------------------------------------- deriveKeyFromPassword

  /** `Java_com_qubesdroid_CryptoNative_deriveKeyFromPassword`. */
  function DeriveKeyFromPassword(argon: Argon2id, password: JStr, salt: JBytes): (r: NativeResult)
    ensures r.Returned? && r.ret.JArray? ==> salt.JArray? && |salt.bytes| == SALT_LEN && |r.ret.bytes| == 32
    ensures password.JStr? && salt.JArray? && |salt.bytes| != SALT_LEN ==> r == Returned(JNull)
    ensures r == Abort <==> password.JStrNull? || salt.JNull?
    ensures r != Uninitialised
  {
    if password.JStrNull? || salt.JNull? then Abort   // GetStringUTFChars / GetByteArrayElements on null
    else if |salt.bytes| != SALT_LEN then Returned(JNull)
    else match argon(T_COST, M_COST, PARALLELISM, password.units, salt.bytes)
      case None => Returned(JNull)
      case Some(key) => Returned(JArray(key))
  }

  // ---------------------------------------------------------------- encryptData

  /** The value `encryptData` computes: `ciphertext || tag` when the key is 32 bytes and
      the nonce 12, an uninitialised result when either length is wrong. A null AAD
      reaches the cipher as length 0. A plaintext longer than `MAX_ARRAY - 16` makes the
      `jsize` sum `pt_len + 16` wrap negative, and `NewByteArray` aborts on it. */
  function EncryptDataResult(prim: Primitives, plaintext: JBytes, key: JBytes, nonce: JBytes, aad: JBytes): (r: NativeResult)
    requires plaintext.JArray? ==> |plaintext.bytes| <= MAX_ARRAY
    requires aad.JArray? ==> |aad.bytes| <= MAX_ARRAY
  {
    if plaintext.JNull? || key.JNull? || nonce.JNull? then Abort
    else if |key.bytes| != 32 || |nonce.bytes| != 12 then Uninitialised
    else if |plaintext.bytes| + 16 > MAX_ARRAY then Abort
    else Returned(JArray(Sealed(prim, key.bytes, nonce.bytes, AadBytes(aad), plaintext.bytes)))
  }

  /** `ciphertext || tag` as one array. */
  function Sealed(prim: Primitives, key: seq<uint8>, nonce: seq<uint8>, aad: seq<uint8>, pt: seq<uint8>): (out: seq<uint8>)
    requires |aad| <= MAX_ARRAY && |pt| + 16 <= MAX_ARRAY
    ensures |out| == |pt| + 16
  {
    var sealed := Seal(prim, key, nonce, aad, pt);
    sealed.0 + sealed.1
  }

  /** The AAD as handed to the cipher: no bytes for a null reference. */
  function AadBytes(aad: JBytes): (b: seq<uint8>)
    ensures aad.JNull? ==> b == []
  {
    if aad.JNull? then [] else aad.bytes
  }

  /** `encryptData` returns an array exactly on well-formed key and nonce whose output
      length fits a `jsize`. */
  lemma EncryptDataReturnsIff(prim: Primitives, plaintext: JBytes, key: JBytes, nonce: JBytes, aad: JBytes)
    requires plaintext.JArray? ==> |plaintext.bytes| <= MAX_ARRAY
    requires aad.JArray? ==> |aad.bytes| <= MAX_ARRAY
    ensures EncryptDataResult(prim, plaintext, key, nonce, aad).Returned?
            <==> plaintext.JArray? && key.JArray? && nonce.JArray?
                 && |key.bytes| == 32 && |nonce.bytes| == 12 && |plaintext.bytes| + 16 <= MAX_ARRAY
    ensures EncryptDataResult(prim, plaintext, key, nonce, aad) == Abort
            <==> plaintext.JNull? || key.JNull? || nonce.JNull?
                 || (|key.bytes| == 32 && |nonce.bytes| == 12 && |plaintext.bytes| + 16 > MAX_ARRAY)
    ensures EncryptDataResult(prim, plaintext, key, nonce, aad) == Uninitialised
            <==> plaintext.JArray? && key.JArray? && nonce.JArray? && (|key.bytes| != 32 || |nonce.bytes| != 12)
  {
  }

  /** On a 32-byte key and a 12-byte nonce `encryptData` returns `ciphertext || tag`. */
  lemma EncryptDataSeals(prim: Primitives, plaintext: seq<uint8>, key: seq<uint8>, nonce: seq<uint8>, aad: JBytes)
    requires |plaintext| + 16 <= MAX_ARRAY && |key| == 32 && |nonce| == 12
    requires aad.JArray? ==> |aad.bytes| <= MAX_ARRAY
    ensures EncryptDataResult(prim, JArray(plaintext), JArray(key), JArray(nonce), aad)
            == Returned(JArray(Sealed(prim, key, nonce, AadBytes(aad), plaintext)))
  {
  }

  /** The array `encryptData` returns is `pt_len + 16` bytes: the plaintext XORed with
      the keystream from block 1, then the tag over the AAD and that ciphertext. */
  lemma EncryptDataLayout(prim: Primitives, plaintext: seq<uint8>, key: seq<uint8>, nonce: seq<uint8>, aad: JBytes)
    requires |plaintext| + 16 <= MAX_ARRAY && |key| == 32 && |nonce| == 12
    requires aad.JArray? ==> |aad.bytes| <= MAX_ARRAY
    ensures var ct := ChaChaXor(prim.stream, key, nonce, 1, plaintext);
            var r := EncryptDataResult(prim, JArray(plaintext), JArray(key), JArray(nonce), aad);
            r == Returned(JArray(ct + Tag(prim, key, nonce, AadBytes(aad), ct)))
            && |r.ret.bytes| == |plaintext| + 16
  {
  }

  /** `GetByteArrayElements`: a native copy of a non-null Java array. */
  method Pin(a: seq<uint8>) returns (p: array<uint8>)
    ensures fresh(p) && p[..] == a
  {
    p := new uint8[|a|](i requires 0 <= i < |a| => a[i]);
  }

  /** `GetByteArrayElements` on an optional AAD array: a null pointer and length 0 for `null`. */
  method PinOptional(a: JBytes) returns (p: array?<uint8>, len: nat)
    requires a.JArray? ==> |a.bytes| <= MAX_ARRAY
    ensures p == null <==> a.JNull?
    ensures p != null ==> fresh(p) && p[..] == a.bytes && len == p.Length
    ensures p == null ==> len == 0
  {
    if a.JNull? {
      return null, 0;
    }
    p := Pin(a.bytes);
    len := p.Length;
  }

  /** `Java_com_qubesdroid_CryptoNative_encryptData`. */
  method EncryptData(prim: Primitives, plaintext: JBytes, key: JBytes, nonce: JBytes, aad: JBytes) returns (r: NativeResult)
    requires IsPoly1305(prim.mac)
    requires plaintext.JArray? ==> |plaintext.bytes| <= MAX_ARRAY
    requires aad.JArray? ==> |aad.bytes| <= MAX_ARRAY
    ensures r == EncryptDataResult(prim, plaintext, key, nonce, aad)
  {
    if plaintext.JNull? || key.JNull? || nonce.JNull? {
      return Abort;  // GetArrayLength / GetByteArrayElements on null
    }
    var ptBytes := Pin(plaintext.bytes);
    var keyBytes := Pin(key.bytes);
    var nonceBytes := Pin(nonce.bytes);
    var aadBytes, aadLen := PinOptional(aad);
    if keyBytes.Length != 32 || nonceBytes.Length != 12 {
      return Uninitialised;  // goto cleanup with `output` never assigned
    }
    if ptBytes.Length + 16 > MAX_ARRAY {
      return Abort;  // the jsize `pt_len + 16` is negative and NewByteArray aborts
    }
    assert keyBytes[..32] == key.bytes && nonceBytes[..12] == nonce.bytes;
    assert ptBytes[..ptBytes.Length] == plaintext.bytes && Contents(aadBytes, aadLen) == AadBytes(aad);
    var output := SealToArray(prim, ptBytes, aadBytes, aadLen, keyBytes, nonceBytes);
    r := Returned(JArray(output));
  }

  /** The body of `encryptData` once its inputs are pinned and checked: `malloc` the
      ciphertext (taken to succeed, so the encryption cannot fail), encrypt, copy
      `ciphertext || tag` into a new array, and wipe the native buffers. */
  method SealToArray(prim: Primitives, ptBytes: array<uint8>, aadBytes: array?<uint8>, aadLen: nat,
                     keyBytes: array<uint8>, nonceBytes: array<uint8>) returns (output: seq<uint8>)
    requires IsPoly1305(prim.mac)
    requires ptBytes.Length + 16 <= MAX_ARRAY && aadLen <= MAX_ARRAY
    requires keyBytes.Length == 32 && nonceBytes.Length == 12
    requires aadBytes == null ==> aadLen == 0
    requires aadBytes != null ==> aadLen == aadBytes.Length
    ensures var sealed := Seal(prim, keyBytes[..32], nonceBytes[..12], Contents(aadBytes, aadLen),
                               ptBytes[..ptBytes.Length]);
            output == sealed.0 + sealed.1
  {
    var ptLen := ptBytes.Length;
    var ciphertext := new uint8[ptLen](_ => 0);
    var tag := new uint8[16](_ => 0);
    var result := Encrypt(prim, ciphertext, tag, ptBytes, ptLen, aadBytes, aadLen, keyBytes, nonceBytes);
    // NewByteArray(pt_len + 16), then the two SetByteArrayRegion calls
    output := ciphertext[..ptLen] + tag[..16];
    ZeroPrefix(ciphertext, ptLen);
    ZeroPrefix(tag, 16);
  }

  // ---------------------------------------------------------------- decryptData

  /** The value `decryptData` computes: `NULL` for an input shorter than a tag, otherwise
      the last 16 bytes are the tag and the rest the ciphertext, and the plaintext comes
      back exactly when the tag verifies. */
  function DecryptDataResult(prim: Primitives, input: JBytes, key: JBytes, nonce: JBytes, aad: JBytes): (r: NativeResult)
    requires input.JArray? ==> |input.bytes| <= MAX_ARRAY
    requires aad.JArray? ==> |aad.bytes| <= MAX_ARRAY
    requires key.JArray? ==> |key.bytes| >= 32
    requires nonce.JArray? ==> |nonce.bytes| >= 12
  {
    if input.JNull? then Abort
    else if |input.bytes| < 16 then Returned(JNull)
    else if key.JNull? || nonce.JNull? then Abort
    else Framed(Open(prim, Prefix(key.bytes, 32), Prefix(nonce.bytes, 12), AadBytes(aad),
                     input.bytes[..|input.bytes| - 16], input.bytes[|input.bytes| - 16..]))
  }

  /** The first `n` bytes a native read of `n` bytes sees. */
  function Prefix(s: seq<uint8>, n: nat): (p: seq<uint8>)
    requires n <= |s|
    ensures p == s[..n]
  {
    if |s| == n then s else s[..n]
  }

  /** The array handed back for a decryption outcome: the plaintext, or `NULL`. */
  function Framed(plain: Option<seq<uint8>>): (r: NativeResult)
    ensures r.Returned? && (r.ret.JArray? <==> plain.Some?)
    ensures plain.Some? ==> r.ret.bytes == plain.value
  {
    if plain.Some? then Returned(JArray(plain.value)) else Returned(JNull)
  }

  /** `decryptData` returns `NULL` for an input shorter than a tag. */
  lemma DecryptDataShort(prim: Primitives, input: seq<uint8>, key: JBytes, nonce: JBytes, aad: JBytes)
    requires |input| < 16
    requires aad.JArray? ==> |aad.bytes| <= MAX_ARRAY
    requires key.JArray? ==> |key.bytes| >= 32
    requires nonce.JArray? ==> |nonce.bytes| >= 12
    ensures DecryptDataResult(prim, JArray(input), key, nonce, aad) == Returned(JNull)
  {
  }

  /** Otherwise `decryptData` returns an array exactly when the trailing 16 bytes are
      the tag of the leading ones under the first 32 key and 12 nonce bytes. */
  lemma DecryptDataAuthenticates(prim: Primitives, input: seq<uint8>, key: seq<uint8>, nonce: seq<uint8>, aad: JBytes)
    requires 16 <= |input| <= MAX_ARRAY && |key| >= 32 && |nonce| >= 12
    requires aad.JArray? ==> |aad.bytes| <= MAX_ARRAY
    ensures DecryptDataResult(prim, JArray(input), JArray(key), JArray(nonce), aad).Returned?
    ensures DecryptDataResult(prim, JArray(input), JArray(key), JArray(nonce), aad).ret.JArray?
            <==> Tag(prim, key[..32], nonce[..12], AadBytes(aad), input[..|input| - 16])
                 == input[|input| - 16..]
  {
  }

  /** The array `decryptData` returns is the `len - 16` leading bytes XORed with the
      keystream from block 1. */
  lemma DecryptDataPlaintext(prim: Primitives, input: seq<uint8>, key: seq<uint8>, nonce: seq<uint8>, aad: JBytes)
    requires 16 <= |input| <= MAX_ARRAY && |key| >= 32 && |nonce| >= 12
    requires aad.JArray? ==> |aad.bytes| <= MAX_ARRAY
    requires DecryptDataResult(prim, JArray(input), JArray(key), JArray(nonce), aad) != Returned(JNull)
    ensures DecryptDataResult(prim, JArray(input), JArray(key), JArray(nonce), aad)
            == Returned(JArray(ChaChaXor(prim.stream, key[..32], nonce[..12], 1, input[..|input| - 16])))
  {
  }

  /** The framing the volume code relies on: what `encryptData` returns, `decryptData`
      opens with the same key, nonce and AAD. */
  lemma DecryptDataOfEncryptData(prim: Primitives, plaintext: seq<uint8>, key: seq<uint8>, nonce: seq<uint8>, aad: JBytes)
    requires |plaintext| + 16 <= MAX_ARRAY && |key| == 32 && |nonce| == 12
    requires aad.JArray? ==> |aad.bytes| <= MAX_ARRAY
    ensures DecryptDataResult(prim, JArray(Sealed(prim, key, nonce, AadBytes(aad), plaintext)), JArray(key), JArray(nonce), aad)
            == Returned(JArray(plaintext))
  {
    var out := Sealed(prim, key, nonce, AadBytes(aad), plaintext);
    OpenSealed(prim, key, nonce, AadBytes(aad), plaintext);
    DecryptDataOfOpen(prim, out, key, nonce, aad, plaintext);
  }

  /** `decryptData` hands back whatever opening its two parts gives. */
  lemma DecryptDataOfOpen(prim: Primitives, input: seq<uint8>, key: seq<uint8>, nonce: seq<uint8>, aad: JBytes, pt: seq<uint8>)
    requires 16 <= |input| <= MAX_ARRAY && |key| == 32 && |nonce| == 12
    requires aad.JArray? ==> |aad.bytes| <= MAX_ARRAY
    requires Open(prim, key, nonce, AadBytes(aad), input[..|input| - 16], input[|input| - 16..]) == Some(pt)
    ensures DecryptDataResult(prim, JArray(input), JArray(key), JArray(nonce), aad) == Returned(JArray(pt))
  {
  }

  /** Splitting `ciphertext || tag` 16 bytes from the end and opening the halves gives
      the plaintext back. */
  lemma OpenSealed(prim: Primitives, key: seq<uint8>, nonce: seq<uint8>, aad: seq<uint8>, pt: seq<uint8>)
    requires |aad| <= MAX_ARRAY && |pt| + 16 <= MAX_ARRAY
    ensures var out := Sealed(prim, key, nonce, aad, pt);
            Open(prim, key, nonce, aad, out[..|out| - 16], out[|out| - 16..]) == Some(pt)
  {
    var out := Sealed(prim, key, nonce, aad, pt);
    var sealed := Seal(prim, key, nonce, aad, pt);
    assert out[..|out| - 16] == sealed.0 && out[|out| - 16..] == sealed.1;
    OpenSeal(prim, key, nonce, aad, pt);
  }

  /** `Java_com_qubesdroid_CryptoNative_decryptData`. The key and nonce lengths are not
      checked by the code; the cipher reads 32 and 12 bytes from them. */
  method DecryptData(prim: Primitives, input: JBytes, key: JBytes, nonce: JBytes, aad: JBytes) returns (r: NativeResult)
    requires IsPoly1305(prim.mac)
    requires input.JArray? ==> |input.bytes| <= MAX_ARRAY
    requires aad.JArray? ==> |aad.bytes| <= MAX_ARRAY
    requires key.JArray? ==> |key.bytes| >= 32
    requires nonce.JArray? ==> |nonce.bytes| >= 12
    ensures r == DecryptDataResult(prim, input, key, nonce, aad)
  {
    if input.JNull? {
      return Abort;  // GetArrayLength on null
    }
    var totalLen := |input.bytes|;
    if totalLen < 16 {
      return Returned(JNull);
    }
    if key.JNull? || nonce.JNull? {
      return Abort;  // GetByteArrayElements on null
    }
    r := DecryptPinned(prim, input.bytes, key.bytes, nonce.bytes, aad);
  }

  /** `decryptData` past its guards: pin the arrays, then decrypt into a fresh array. */
  method DecryptPinned(prim: Primitives, input: seq<uint8>, key: seq<uint8>, nonce: seq<uint8>, aad: JBytes)
    returns (r: NativeResult)
    requires IsPoly1305(prim.mac)
    requires 16 <= |input| <= MAX_ARRAY && |key| >= 32 && |nonce| >= 12
    requires aad.JArray? ==> |aad.bytes| <= MAX_ARRAY
    ensures r == DecryptDataResult(prim, JArray(input), JArray(key), JArray(nonce), aad)
  {
    var ctBytes, ctLen, tag, aadBytes, aadLen, keyBytes, nonceBytes := PinDecryptInputs(input, key, nonce, aad);
    r := OpenToNative(prim, ctBytes, ctLen, tag, aadBytes, aadLen, keyBytes, nonceBytes,
                      Prefix(key, 32), Prefix(nonce, 12), AadBytes(aad), input[..|input| - 16], input[|input| - 16..]);
    DecryptDataFramed(prim, input, key, nonce, aad, r);
  }

  /** Past the guards, `decryptData` frames the opening of the input's two parts. */
  lemma DecryptDataFramed(prim: Primitives, input: seq<uint8>, key: seq<uint8>, nonce: seq<uint8>, aad: JBytes, r: NativeResult)
    requires 16 <= |input| <= MAX_ARRAY && |key| >= 32 && |nonce| >= 12
    requires aad.JArray? ==> |aad.bytes| <= MAX_ARRAY
    requires r == Framed(Open(prim, Prefix(key, 32), Prefix(nonce, 12), AadBytes(aad),
                              input[..|input| - 16], input[|input| - 16..]))
    ensures r == DecryptDataResult(prim, JArray(input), JArray(key), JArray(nonce), aad)
  {
  }

  /** The `Get...` calls of `decryptData`: the input pinned whole, its last 16 bytes as the
      tag, the key, the nonce and the optional AAD. */
  method PinDecryptInputs(input: seq<uint8>, key: seq<uint8>, nonce: seq<uint8>, aad: JBytes)
    returns (ctBytes: array<uint8>, ctLen: nat, tag: array<uint8>, aadBytes: array?<uint8>, aadLen: nat,
             keyBytes: array<uint8>, nonceBytes: array<uint8>)
    requires 16 <= |input| <= MAX_ARRAY && |key| >= 32 && |nonce| >= 12
    requires aad.JArray? ==> |aad.bytes| <= MAX_ARRAY
    ensures ctLen == |input| - 16 && ctLen <= ctBytes.Length && tag.Length == 16
    ensures keyBytes.Length >= 32 && nonceBytes.Length >= 12 && aadLen <= MAX_ARRAY
    ensures aadBytes == null ==> aadLen == 0
    ensures aadBytes != null ==> aadLen == aadBytes.Length
    ensures Contents(ctBytes, ctLen) == input[..ctLen] && tag[..16] == input[ctLen..]
    ensures keyBytes[..32] == Prefix(key, 32) && nonceBytes[..12] == Prefix(nonce, 12)
    ensures Contents(aadBytes, aadLen) == AadBytes(aad)
  {
    ctLen := |input| - 16;
    ctBytes := Pin(input);
    keyBytes := Pin(key);
    nonceBytes := Pin(nonce);
    aadBytes, aadLen := PinOptional(aad);
    // `tag` points into the pinned input; a copy of those 16 bytes reads the same
    tag := new uint8[16](i requires 0 <= i < 16 reads ctBytes => ctBytes[ctLen + i]);
    assert tag[..16] == input[ctLen..];
    assert Contents(ctBytes, ctLen) == input[..ctLen];
  }

  /** The body of `decryptData` once its inputs are pinned: `malloc` the plaintext (taken
      to succeed), decrypt, copy the plaintext into a new array only when the tag
      verified, and wipe the native buffer on both paths. */
  method OpenToNative(prim: Primitives, ctBytes: array<uint8>, ctLen: nat, tag: array<uint8>,
                      aadBytes: array?<uint8>, aadLen: nat, keyBytes: array<uint8>, nonceBytes: array<uint8>,
                      ghost key: seq<uint8>, ghost nonce: seq<uint8>, ghost aad: seq<uint8>,
                      ghost ct: seq<uint8>, ghost mac: seq<uint8>)
    returns (r: NativeResult)
    requires IsPoly1305(prim.mac)
    requires ctLen <= ctBytes.Length && ctLen <= MAX_ARRAY && aadLen <= MAX_ARRAY && tag.Length == 16
    requires keyBytes.Length >= 32 && nonceBytes.Length >= 12
    requires aadBytes == null ==> aadLen == 0
    requires aadBytes != null ==> aadLen == aadBytes.Length
    requires keyBytes[..32] == key && nonceBytes[..12] == nonce && Contents(aadBytes, aadLen) == aad
    requires Contents(ctBytes, ctLen) == ct && tag[..16] == mac
    ensures r == Framed(Open(prim, key, nonce, aad, ct, mac))
  {
    var plaintext := new uint8[ctLen](_ => 0);
    var result := Decrypt(prim, plaintext, ctBytes, ctLen, tag, aadBytes, aadLen, keyBytes, nonceBytes);
    var output := JNull;
    if result != 0 {
      ZeroPrefix(plaintext, ctLen);
    } else {
      // NewByteArray(ct_len) and SetByteArrayRegion
      output := JArray(plaintext[..ctLen]);
      ZeroPrefix(plaintext, ctLen);
    }
    r := Returned(output);
  }
}
