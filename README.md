# QubesDroid volume core in Dafny

This project models the part of QubesDroid that creates and mounts encrypted
volumes, and proves properties of that model. It covers three layers:

- **Android activities.** `CreateVolumeActivity` checks the form, draws fresh
  keys, derives a password key and wraps the master key. It then writes a
  1712-byte little-endian header and the data blocks. Each data block is sealed
  under the master key with a nonce and AAD derived from its index.
  `MountVolumeActivity` reads and checks that header, shows its size and date,
  derives the password key again and unwraps the master key.
- **JNI bridge.** `qubesdroid_crypto.c` passes Java byte arrays and strings to
  C. That covers `encryptData`, `decryptData` and the salt guard of
  `deriveKeyFromPassword`. A JNI call on a null reference aborts the process
  (`NativeResult.Abort`). Returning an uninitialised local is a separate
  outcome (`Uninitialised`). The output framing is `ciphertext || tag`.
- **C cipher.** `chacha20poly1305.c` follows the construction of section 2.8 of
  RFC 8439. The one-time key comes from keystream block 0 (section 2.6 of
  RFC 8439), and the payload is XORed with the keystream from block 1.
  `poly1305.c` is the streaming Poly1305 context: 28-bit limbs in `uint32`
  words, a 16-byte partial-block buffer, finalisation and a constant-time
  compare.

The model's choices:

- **State.** Code that changes state keeps its shape. The Poly1305 context, the
  activities, `VolumeHeader`, `ByteBuffer` and `FileOutputStream` are classes,
  and C buffers are arrays. Each method is proved against a pure function of
  its inputs and old state, and the properties that matter are lemmas about
  those functions.
- **Primitives.** The ChaCha20 block function is a parameter: the keystream,
  byte by byte. Argon2id is a parameter too.
- **The authenticator.** It is an abstract `Mac` as well. The predicate
  `IsPoly1305` ties it to the Poly1305 model wherever the C code computes a
  tag.
- **Native calls as values.** `Sealer` and `Opener` stand for `encryptData` and
  `decryptData` inside the activities' specifications.
- **Java arithmetic.** Java `int` and `long` arithmetic wraps, `/` truncates
  toward zero, and `String.trim` strips UTF-16 units up to `0x20`. All three
  are written out in `JavaLang`.

The model follows the code in two places where creating and mounting disagree.
The lemmas show what follows:

1. **Salt length.** Creation derives the password key from a 16-byte salt and
   writes that salt followed by 16 zero bytes into the 32-byte salt field.
   Mounting passes all 32 bytes to `deriveKeyFromPassword`, which accepts only
   16. The key therefore comes back null, and `decryptData` aborts on it.
   `MountVolume.ParsedHeaderNeverMounts` and
   `MountVolume.CreatedVolumeNeverMounts` prove that every header the parser
   accepts, and every volume this code creates, ends in `NativeAbort`.
2. **Wrap nonce.** The master key is wrapped with a random nonce that is never
   stored. Mounting unwraps it with a zero nonce.
   `MountVolume.CreationSaltZeroNonceMounts` shows the unwrap succeeds when
   both sides match: the 16-byte salt and a zero wrap nonce.

Two more properties of the code, both stated by the model:

- `readVolumeHeader` reads the header-size field and never checks it
  (android/app/src/main/java/com/qubesdroid/MountVolumeActivity.java:209).
  `VolumeFormat.ParseIgnoresHeaderSize` states this.
- No key is zeroed on an error path. The master key, the password key and the
  ML-KEM secret key are zeroed only after a successful creation
  (android/app/src/main/java/com/qubesdroid/CreateVolumeActivity.java:315-317).
  The password key and the unwrapped master key are zeroed only after a
  successful mount
  (android/app/src/main/java/com/qubesdroid/MountVolumeActivity.java:315-316).
  `CreateVolume.CreateVolumeActivity.CreateVolumeFile` and
  `MountVolume.MountVolumeActivity.MountVolume` state both.

## Model

| member | source | states |
|---|---|---|
| VolumeFormat.Header | android/app/src/main/java/com/qubesdroid/CreateVolumeActivity.java:252-273 | the header the creating activity assembles has 64 fixed bytes plus the key, salt, reserved and wrapped-key fields |
| VolumeFormat.HeaderLayout | android/app/src/main/java/com/qubesdroid/CreateVolumeActivity.java:252-273 | for the creation sizes the header is exactly 1712 bytes: magic, version, header size, volume size, timestamp, 32 reserved zeros, public key at 64, salt plus 16 zeros at 1632, wrapped key at 1664 |
| VolumeFormat.ParseHeader | android/app/src/main/java/com/qubesdroid/MountVolumeActivity.java:181-234 | an accepted header has the supported version, a 1568-byte public key, a 32-byte salt field and a 48-byte wrapped key |
| VolumeFormat.ParseRejectsShort | android/app/src/main/java/com/qubesdroid/MountVolumeActivity.java:183-187 | fewer than 1712 bytes read is refused as too short |
| VolumeFormat.ParseChecksMagicFirst | android/app/src/main/java/com/qubesdroid/MountVolumeActivity.java:195-199 | a wrong magic is refused before the version is looked at |
| VolumeFormat.ParseChecksVersion | android/app/src/main/java/com/qubesdroid/MountVolumeActivity.java:202-206 | with the right magic, the header is accepted if and only if the version field is 0x01000000 |
| VolumeFormat.ParseIgnoresHeaderSize | android/app/src/main/java/com/qubesdroid/MountVolumeActivity.java:209 | any value in the header-size field is read and kept, and the header is still accepted |
| VolumeFormat.ParseReadsOnlyHeader | android/app/src/main/java/com/qubesdroid/MountVolumeActivity.java:183-187 | parsing depends only on the first 1712 bytes of the file |
| VolumeFormat.ParseOfHeader | android/app/src/main/java/com/qubesdroid/MountVolumeActivity.java:181-234 | parsing a header the creating activity wrote gives back its version, size, timestamp, public key, salt plus 16 zeros and wrapped key |
| VolumeFormat.DataSize | android/app/src/main/java/com/qubesdroid/CreateVolumeActivity.java:283 | the data size is the volume size minus 1712 whenever that does not wrap |
| VolumeFormat.LayoutBound | android/app/src/main/java/com/qubesdroid/CreateVolumeActivity.java:283-284 | the block count of any valid layout is at most 2^47 |
| VolumeFormat.NumBlocksPositiveIff | android/app/src/main/java/com/qubesdroid/CreateVolumeActivity.java:283-284 | blocks are written if and only if 1712 < volume size <= 2^63 - 63824, counting the `long` wrap-around of the ceiling division; such a count forms a valid layout |
| VolumeFormat.BlockLengthInRange | android/app/src/main/java/com/qubesdroid/CreateVolumeActivity.java:296-297 | every block holds 1 to 65536 bytes; all but the last are full and the last holds the remainder |
| VolumeFormat.BlockLengthsSum | android/app/src/main/java/com/qubesdroid/CreateVolumeActivity.java:286-309 | the first k block lengths add up to k * 65536 before the end and to the whole data size at the end |
| VolumeFormat.BlockNonce | android/app/src/main/java/com/qubesdroid/CreateVolumeActivity.java:291-293 | a block nonce is 12 bytes whose last four are zero |
| VolumeFormat.BlockAad | android/app/src/main/java/com/qubesdroid/CreateVolumeActivity.java:300-301 | a block's AAD is 8 bytes |
| VolumeFormat.BlockNoncesDistinct | android/app/src/main/java/com/qubesdroid/CreateVolumeActivity.java:291-293 | different block indexes get different nonces, so no nonce is reused under the master key |
| VolumeFormat.BlockAadIsNoncePrefix | android/app/src/main/java/com/qubesdroid/CreateVolumeActivity.java:291-301 | a block's AAD is the first 8 bytes of its nonce |
| VolumeFormat.SealerExists | android/app/src/main/jni/qubesdroid_crypto.c:102-174 | for any primitives there is a sealing function that agrees with `encryptData` |
| VolumeFormat.EncryptDataAsSealer | android/app/src/main/jni/qubesdroid_crypto.c:102-174 | on arguments it accepts, `encryptData` returns exactly what the sealer computes |
| VolumeFormat.RecordsStep | android/app/src/main/java/com/qubesdroid/CreateVolumeActivity.java:286-309 | each loop iteration appends one record, nonce then sealed block, to what was written before |
| VolumeFormat.RecordsPrefixLength | android/app/src/main/java/com/qubesdroid/CreateVolumeActivity.java:286-309 | after k blocks the file body is the data written so far plus 28 bytes per block |
| VolumeFormat.RecordsLength | android/app/src/main/java/com/qubesdroid/CreateVolumeActivity.java:286-309 | the whole body is the data size plus 28 bytes per block, and empty when no block is written |
| VolumeFormat.ProgressOfSmall | android/app/src/main/java/com/qubesdroid/CreateVolumeActivity.java:287 | a quotient below 40 reports as 60 plus the quotient |
| VolumeFormat.ScaledIndex | android/app/src/main/java/com/qubesdroid/CreateVolumeActivity.java:287 | `i * 40` does not overflow and the truncating quotient by the block count stays below 40 |
| VolumeFormat.BlockProgressValue | android/app/src/main/java/com/qubesdroid/CreateVolumeActivity.java:287 | block i reports 60 + 40i/n |
| VolumeFormat.BlockProgressBounds | android/app/src/main/java/com/qubesdroid/CreateVolumeActivity.java:287 | block progress lies in 60..99 and never decreases with the block index |
| VolumeFormat.BlockProgresses | android/app/src/main/java/com/qubesdroid/CreateVolumeActivity.java:286-309 | the loop reports one progress value per block |
| VolumeFormat.BlockProgressesAt | android/app/src/main/java/com/qubesdroid/CreateVolumeActivity.java:287 | entry i of the reported sequence is the progress of block i |
| VolumeFormat.BlockProgressesSorted | android/app/src/main/java/com/qubesdroid/CreateVolumeActivity.java:286-309 | the values reported during the block loop are non-decreasing and within 60..99 |
| CryptoBridge.DeriveKeyFromPassword | android/app/src/main/jni/qubesdroid_crypto.c:32-92 | a key comes back only for a 16-byte salt, and then has 32 bytes; any other salt length returns null; a null password or salt aborts |
| CryptoBridge.Sealed | android/app/src/main/jni/qubesdroid_crypto.c:155-158 | `encryptData`'s output is 16 bytes longer than the plaintext |
| CryptoBridge.AadBytes | android/app/src/main/jni/qubesdroid_crypto.c:116-121 | a null AAD array is authenticated as empty AAD |
| CryptoBridge.EncryptDataReturnsIff | android/app/src/main/jni/qubesdroid_crypto.c:110-131 | `encryptData` returns if and only if every array is present with a 32-byte key, a 12-byte nonce and a plaintext whose length plus 16 fits a `jsize`; it aborts if and only if the plaintext, key or nonce is null or that sum overflows; it returns an uninitialised local if and only if the key or nonce length is wrong |
| CryptoBridge.EncryptDataSeals | android/app/src/main/jni/qubesdroid_crypto.c:133-158 | on accepted arguments `encryptData` returns the sealed value |
| CryptoBridge.EncryptDataLayout | android/app/src/main/jni/qubesdroid_crypto.c:133-158 | that value is the keystream-XORed plaintext followed by the RFC 8439 tag over AAD and ciphertext |
| CryptoBridge.Pin | android/app/src/main/jni/qubesdroid_crypto.c:111-114 | `GetByteArrayElements` yields a fresh copy of the Java array |
| CryptoBridge.PinOptional | android/app/src/main/jni/qubesdroid_crypto.c:116-121 | the AAD pointer is null exactly when the AAD array is null, and then its length is 0 |
| CryptoBridge.EncryptData | android/app/src/main/jni/qubesdroid_crypto.c:102-174 | the imperative native function returns exactly what `EncryptDataResult` specifies |
| CryptoBridge.SealToArray | android/app/src/main/jni/qubesdroid_crypto.c:133-163 | for accepted inputs the returned array is the ciphertext followed by the tag |
| CryptoBridge.Framed | android/app/src/main/jni/qubesdroid_crypto.c:231-242 | a Java array is returned exactly when authentication succeeded, and it holds the plaintext |
| CryptoBridge.DecryptDataShort | android/app/src/main/jni/qubesdroid_crypto.c:194-198 | an input shorter than 16 bytes returns null |
| CryptoBridge.DecryptDataAuthenticates | android/app/src/main/jni/qubesdroid_crypto.c:200-242 | on a long enough input `decryptData` returns, and returns an array if and only if the last 16 bytes equal the tag computed over the rest |
| CryptoBridge.DecryptDataPlaintext | android/app/src/main/jni/qubesdroid_crypto.c:216-242 | when an array comes back it is the keystream-XORed ciphertext |
| CryptoBridge.DecryptDataOfEncryptData | android/app/src/test/java/com/qubesdroid/CryptoNativeTest.java:98-129 | decrypting what `encryptData` returned, under the same key, nonce and AAD, gives back the plaintext |
| CryptoBridge.DecryptDataOfOpen | android/app/src/main/jni/qubesdroid_crypto.c:200-242 | when the cipher opens the split input, `decryptData` returns that plaintext |
| CryptoBridge.OpenSealed | src/Crypto/chacha20poly1305.c:57-225 | splitting a sealed output into ciphertext and tag and opening it gives back the plaintext |
| CryptoBridge.DecryptData | android/app/src/main/jni/qubesdroid_crypto.c:185-255 | the imperative native function returns exactly what `DecryptDataResult` specifies |
| CryptoBridge.DecryptPinned | android/app/src/main/jni/qubesdroid_crypto.c:200-254 | past the length check, the pinned and split call agrees with `DecryptDataResult` |
| CryptoBridge.DecryptDataFramed | android/app/src/main/jni/qubesdroid_crypto.c:200-242 | framing the cipher's result over the first 32 key bytes and first 12 nonce bytes is `decryptData`'s result |
| CryptoBridge.PinDecryptInputs | android/app/src/main/jni/qubesdroid_crypto.c:200-214 | the ciphertext is the input without its last 16 bytes, the tag is those bytes, and a null AAD becomes an empty one |
| CryptoBridge.OpenToNative | android/app/src/main/jni/qubesdroid_crypto.c:216-242 | the native result is the framed outcome of opening the split ciphertext |
| ChaCha20Poly1305.AuthTagOrZeros | src/Crypto/poly1305.c:232-237 | a 16-byte tag that equals `poly1305_auth` on every 32-byte key |
| ChaCha20Poly1305.Poly1305Mac | src/Crypto/poly1305.c:232-237 | Poly1305 is an authenticator in the sense the construction uses |
| ChaCha20Poly1305.ChaChaXor | src/Crypto/chacha20poly1305.c:92-95 | the output has the input's length, and byte i is byte i XOR keystream byte 64 * counter + i |
| ChaCha20Poly1305.ChaChaXorInvolutive | src/Crypto/chacha20poly1305.c:213-217 | applying the same keystream twice gives back the data, so decryption inverts encryption |
| ChaCha20Poly1305.PolyKey | src/Crypto/chacha20poly1305.c:39-55 | the one-time key is the first 32 keystream bytes of block 0 |
| ChaCha20Poly1305.PadLength | src/Crypto/chacha20poly1305.c:31-33 | the pad is under 16 bytes and brings the length to a multiple of 16; it is zero exactly for multiples of 16 |
| ChaCha20Poly1305.MacData | src/Crypto/chacha20poly1305.c:101-126 | the authenticated message is the AAD, zeros up to a 16-byte boundary, the ciphertext, zeros up to the next boundary, then both lengths as 8-byte little-endian values; each segment is stated at its offset, and the total is a whole number of blocks |
| ChaCha20Poly1305.Tag | src/Crypto/chacha20poly1305.c:101-129 | the tag has 16 bytes |
| ChaCha20Poly1305.Seal | src/Crypto/chacha20poly1305.c:57-137 | the ciphertext has the plaintext's length and the tag 16 bytes |
| ChaCha20Poly1305.Open | src/Crypto/chacha20poly1305.c:139-225 | opening succeeds if and only if the recomputed tag equals the given tag, and then yields one byte per ciphertext byte |
| ChaCha20Poly1305.OpenSeal | src/Crypto/chacha20poly1305.c:57-225 | opening what sealing produced gives back the plaintext |
| ChaCha20Poly1305.Store64Le | src/Crypto/chacha20poly1305.c:16-25 | the 8 bytes at the offset become the little-endian value and no other byte changes |
| ChaCha20Poly1305.Le64Image | src/Crypto/chacha20poly1305.c:16-25 | the shifted bytes of `store64_le` are the 8-byte little-endian encoding |
| ChaCha20Poly1305.Contents | src/Crypto/chacha20poly1305.c:57-66 | a (pointer, length) pair denotes exactly that many bytes, with a null pointer denoting none |
| ChaCha20Poly1305.ChaChaApply | src/Crypto/chacha20poly1305.c:92-95 | the destination prefix becomes the XORed source prefix and the rest keeps its bytes |
| ChaCha20Poly1305.ComputeTag | src/Crypto/chacha20poly1305.c:101-129 | the tag written is the authenticator applied to the padded AAD, padded ciphertext and lengths |
| ChaCha20Poly1305.FinishTag | src/Crypto/chacha20poly1305.c:129 | finalising a context that has absorbed a message writes the authenticator's tag for it |
| ChaCha20Poly1305.MacIsFinalTag | src/Crypto/poly1305.c:232-237 | the authenticator is the final tag of the context after init and one update |
| ChaCha20Poly1305.AbsorbMacData | src/Crypto/chacha20poly1305.c:101-126 | the sequence of updates leaves the context equivalent to one update with the whole authenticated message |
| ChaCha20Poly1305.FeedLengths | src/Crypto/chacha20poly1305.c:123-126 | the lengths block is the two 8-byte little-endian lengths, absorbed after what came before |
| ChaCha20Poly1305.FeedPadded | src/Crypto/chacha20poly1305.c:101-121 | feeding data and then its zero pad absorbs both |
| ChaCha20Poly1305.Feed | src/Crypto/chacha20poly1305.c:101-126 | one more update appends the piece to what the context has absorbed |
| ChaCha20Poly1305.Encrypt | src/Crypto/chacha20poly1305.c:57-137 | a null output, key or nonce pointer, or a non-zero length with a null pointer, returns -1 and writes nothing; otherwise it returns 0 with the ciphertext and tag of `Seal`, and touches nothing past them |
| ChaCha20Poly1305.EncryptChecked | src/Crypto/chacha20poly1305.c:84-137 | past the guards, the ciphertext and tag buffers hold the sealed value |
| ChaCha20Poly1305.Decrypt | src/Crypto/chacha20poly1305.c:139-225 | a null output, key, nonce or tag pointer, or a non-zero length with a null pointer, returns -1 and writes nothing; otherwise it returns 0 if and only if the tag verifies, the plaintext buffer holds the plaintext on success and zeros on failure |
| ChaCha20Poly1305.DecryptChecked | src/Crypto/chacha20poly1305.c:168-225 | past the guards, the same success and zeroing behaviour |
| ChaCha20Poly1305.CheckTag | src/Crypto/chacha20poly1305.c:175-201 | returns 0 if and only if the computed tag equals the given one, and -1 otherwise |
| ChaCha20Poly1305.CompareTag | src/Crypto/chacha20poly1305.c:201 | the constant-time comparison of the two tags returns 0 exactly when they are equal |
| ChaCha20Poly1305.ZeroPrefix | src/Crypto/chacha20poly1305.c:203-211 | on failure the plaintext prefix becomes zeros and the rest is unchanged |
| ChaCha20Poly1305.EncryptInPlace | src/Crypto/chacha20poly1305.c:227-237 | sealing with the data buffer as both source and destination gives the same result as separate buffers |
| ChaCha20Poly1305.DecryptInPlace | src/Crypto/chacha20poly1305.c:239-249 | opening in place gives the plaintext on success and zeros on failure |
| Poly1305.Mul64 | src/Crypto/poly1305.c:103-107 | the product of two 32-bit words is exact in 64 bits |
| Poly1305.Load32Le | src/Crypto/poly1305.c:21-26 | the word is the little-endian value of four bytes |
| Poly1305.Load32LeValue | src/Crypto/poly1305.c:21-26 | the shift-and-or form of `load32_le` equals the little-endian value |
| Poly1305.LoadStore32 | src/Crypto/poly1305.c:21-34 | loading stored bytes gives back the word |
| Poly1305.Store32Le | src/Crypto/poly1305.c:29-34 | the four bytes at the offset become the word's little-endian bytes, nothing else changes |
| Poly1305.Clamp | src/Crypto/poly1305.c:48-52 | a clamped limb is a multiple of 4 and fits in 28 bits |
| Poly1305.ClampedR | src/Crypto/poly1305.c:41-52 | every limb of r fits in 28 bits, and limbs 1 to 4 are multiples of 4 |
| Poly1305.ClampedLimbs | src/Crypto/poly1305.c:48-52 | the masks keep every limb under 2^28, and limbs 1 to 4 multiples of 4 |
| Poly1305.KeyPad | src/Crypto/poly1305.c:55-58 | the four pad words are the little-endian words of key bytes 16 to 31 |
| Poly1305.BlockStep | src/Crypto/poly1305.c:89-120 | one block step leaves limbs 0, 2, 3 and 4 within 28 bits |
| Poly1305.Multiply | src/Crypto/poly1305.c:103-107 | the product of h and r yields five 64-bit limbs |
| Poly1305.Reduce | src/Crypto/poly1305.c:111-116 | the carry pass leaves limbs 0, 2, 3 and 4 within 28 bits |
| Poly1305.FoldAppend | src/Crypto/poly1305.c:71-127 | absorbing a block-aligned prefix and then the rest equals absorbing both together |
| Poly1305.FoldShort | src/Crypto/poly1305.c:89 | fewer than 16 bytes leave h unchanged |
| Poly1305.FoldOne | src/Crypto/poly1305.c:89-120 | one block is one step of the loop |
| Poly1305.AbsorbAppend | src/Crypto/poly1305.c:71-127 | `poly1305_blocks` on a block-aligned prefix and then the rest equals one call on both |
| Poly1305.AbsorbBlock | src/Crypto/poly1305.c:89-120 | absorbing one block is one block step |
| Poly1305.StepFn | src/Crypto/poly1305.c:89-120 | the block step for the context's r and high bit exists as a function value |
| Poly1305.StepAgrees | src/Crypto/poly1305.c:89-120 | any such step function agrees with the block step on every block |
| Poly1305.FoldAgree | src/Crypto/poly1305.c:71-127 | folding with two agreeing step functions gives the same accumulator |
| Poly1305.FoldIsAbsorb | src/Crypto/poly1305.c:71-127 | folding with the step function is `poly1305_blocks` |
| Poly1305.TagWords | src/Crypto/poly1305.c:182-220 | the final carry, the conditional subtraction of p, packing and the pad addition yield four words |
| Poly1305.Pack | src/Crypto/poly1305.c:211-214 | packing five limbs gives four words |
| Poly1305.AddPad | src/Crypto/poly1305.c:217-220 | adding the pad with carries gives four words |
| Poly1305.TagBytes | src/Crypto/poly1305.c:222-225 | the tag has 16 bytes |
| Poly1305.TagBytesWords | src/Crypto/poly1305.c:222-225 | tag bytes 4j to 4j+3 are the little-endian bytes of word j |
| Poly1305.PaddedBlock | src/Crypto/poly1305.c:166-173 | the final partial block keeps its bytes, then a 1 byte, then zeros up to 16 |
| Poly1305.Pending | src/Crypto/poly1305.c:130-144 | the buffered bytes are exactly `leftover` many |
| Poly1305.ZeroState | src/Crypto/poly1305.c:38 | the cleared context is well formed |
| Poly1305.WipedState | src/Crypto/poly1305.c:228-229 | the wiped context is well formed |
| Poly1305.InitState | src/Crypto/poly1305.c:36-69 | after init h is zero, nothing is buffered and the final flag is clear |
| Poly1305.InitStateKey | src/Crypto/poly1305.c:41-58 | after init r is the clamped key half and pad the key's second half |
| Poly1305.UpdateTail | src/Crypto/poly1305.c:146-156 | absorbing whole blocks and buffering the tail keeps r, pad and the final flag |
| Poly1305.UpdateWith | src/Crypto/poly1305.c:129-157 | an update keeps r, pad and the final flag |
| Poly1305.UpdateWithPartialBuffer | src/Crypto/poly1305.c:130-141 | input that does not fill the pending block is copied after it and nothing is absorbed |
| Poly1305.UpdateWithFullBuffer | src/Crypto/poly1305.c:130-156 | input that fills the pending block tops it up, absorbs it and continues with the rest |
| Poly1305.UpdateTailAgree | src/Crypto/poly1305.c:146-156 | the tail phase depends only on the step function's values |
| Poly1305.UpdateWithAgree | src/Crypto/poly1305.c:129-157 | an update depends only on the step function's values |
| Poly1305.UpdateWithIsStep | src/Crypto/poly1305.c:129-157 | an update with the context's own step function is `poly1305_update` |
| Poly1305.UpdateState | src/Crypto/poly1305.c:129-157 | `poly1305_update` keeps r, pad and the final flag |
| Poly1305.FinalTag | src/Crypto/poly1305.c:159-230 | `poly1305_final` yields 16 bytes |
| Poly1305.AuthTag | src/Crypto/poly1305.c:232-237 | `poly1305_auth` yields 16 bytes |
| Poly1305.UpdateWithFolds | src/Crypto/poly1305.c:129-157 | after an update, h has absorbed every whole block of the pending bytes followed by the input, and the rest is buffered |
| Poly1305.BufferFolds | src/Crypto/poly1305.c:130-141 | the same holds when the input only extends the pending block |
| Poly1305.TopUpFolds | src/Crypto/poly1305.c:130-156 | the same holds when the input fills the pending block |
| Poly1305.TailFolds | src/Crypto/poly1305.c:146-156 | the same holds with nothing pending |
| Poly1305.UpdateWithSplit | src/Crypto/poly1305.c:129-157 | two updates are equivalent to one update with the concatenation |
| Poly1305.SplitStates | src/Crypto/poly1305.c:129-157 | two states that absorbed the same bytes are equivalent |
| Poly1305.AbsorbedSplit | src/Crypto/poly1305.c:129-157 | absorbing in two steps gives the same h and pending bytes as absorbing at once |
| Poly1305.FoldSplit | src/Crypto/poly1305.c:71-127 | block-folding a concatenation splits at the first part's last whole block |
| Poly1305.UpdateAbsorbs | src/Crypto/poly1305.c:129-157 | after `poly1305_update`, h has absorbed every whole block of pending bytes plus input with the high bit, and the remainder is pending |
| Poly1305.UpdateRespectsEquiv | src/Crypto/poly1305.c:129-157 | updating equivalent contexts gives equivalent contexts |
| Poly1305.UpdateSplit | src/Crypto/poly1305.h:57-67 | streaming: updating with a and then b is equivalent to updating with a + b |
| Poly1305.UpdateEmpty | src/Crypto/poly1305.c:129-157 | an empty update changes nothing |
| Poly1305.UpdateChain | src/Crypto/poly1305.h:57-67 | a context equivalent to one that absorbed a prefix, updated with a piece, is equivalent to absorbing prefix + piece |
| Poly1305.FinalTagRespectsEquiv | src/Crypto/poly1305.c:159-230 | equivalent contexts finish with the same tag |
| Poly1305.UpdateSplitStaleBuffer | src/Crypto/poly1305.c:135-156 | split and whole updates can differ in buffer bytes past `leftover`, so they are equal only up to equivalence |
| Poly1305.StaleBuffer | src/Crypto/poly1305.c:135-156 | a 20-byte then 12-byte update leaves an old byte in the buffer that a single 32-byte update does not |
| Poly1305.StaleFirst | src/Crypto/poly1305.c:146-156 | a 20-byte update from empty buffers its last 4 bytes |
| Poly1305.StaleSecond | src/Crypto/poly1305.c:130-143 | a 12-byte update on 4 pending bytes absorbs the block and leaves buffer byte 0 as it was |
| Poly1305.StaleWhole | src/Crypto/poly1305.c:146-156 | a 32-byte update from empty leaves the buffer untouched |
| Poly1305.Context.State | src/Crypto/poly1305.c:36-69 | the context's fields form a well-formed state |
| Poly1305.Context.constructor | src/Crypto/poly1305.c:38 | a new context is the cleared state |
| Poly1305.Context.Init | src/Crypto/poly1305.c:36-69 | `poly1305_init` puts the context in the initial state for the key |
| Poly1305.Context.SetKey | src/Crypto/poly1305.c:41-58 | writing r and pad changes only those fields |
| Poly1305.Context.Blocks | src/Crypto/poly1305.c:71-127 | `poly1305_blocks` folds every whole block into h and changes nothing else |
| Poly1305.Context.Update | src/Crypto/poly1305.c:129-157 | `poly1305_update` moves the context to `UpdateState` of the old one |
| Poly1305.Context.TopUp | src/Crypto/poly1305.c:130-156 | the update with bytes pending matches the specification |
| Poly1305.Context.Append | src/Crypto/poly1305.c:130-141 | input that does not complete the block is copied and the function returns early |
| Poly1305.Context.FillAndContinue | src/Crypto/poly1305.c:130-156 | a completed pending block is absorbed before the rest is processed |
| Poly1305.Context.CopyIn | src/Crypto/poly1305.c:135 | `memcpy` into the buffer after the pending bytes, nothing else changes |
| Poly1305.Context.Flush | src/Crypto/poly1305.c:142-143 | the full buffer is absorbed and `leftover` reset |
| Poly1305.Context.UpdateRest | src/Crypto/poly1305.c:146-156 | whole blocks are absorbed and the tail buffered |
| Poly1305.Context.StoreTail | src/Crypto/poly1305.c:153-156 | a non-empty tail is copied to the buffer start and becomes `leftover` |
| Poly1305.Context.Final | src/Crypto/poly1305.c:159-230 | writes the final tag of the old state into the first 16 bytes and wipes the context |
| Poly1305.Context.Wipe | src/Crypto/poly1305.c:228-229 | the context is wiped |
| Poly1305.Context.Clear | src/Crypto/poly1305.c:38 | the context is cleared |
| Poly1305.Context.FinalBlock | src/Crypto/poly1305.c:166-208 | padding the last partial block, the full carry and the selection yield `FinalH` of the state |
| Poly1305.ProcessBlock | src/Crypto/poly1305.c:89-120 | one loop iteration is one block step |
| Poly1305.StoreTag | src/Crypto/poly1305.c:222-225 | the four words are stored as the 16 tag bytes, nothing past them changes |
| Poly1305.Start | src/Crypto/poly1305.c:232-237 | a fresh context initialised with the key |
| Poly1305.Auth | src/Crypto/poly1305.c:232-237 | `poly1305_auth` writes `AuthTag(key, msg)` into the first 16 bytes |
| Poly1305.ConstantTimeCompare | src/Crypto/poly1305.c:12-18 | returns 0 if and only if the first len bytes are equal, else -1 |
| Poly1305.Verify | src/Crypto/poly1305.c:239-241 | `poly1305_verify` returns 0 if and only if the two 16-byte tags are equal, else -1 |
| CreateVolume.LiveConfirmError | android/app/src/main/java/com/qubesdroid/CreateVolumeActivity.java:165-174 | the live check reports an error if and only if the confirmation is non-empty and differs |
| CreateVolume.NameRequiredIff | android/app/src/main/java/com/qubesdroid/CreateVolumeActivity.java:136-137 | a name is refused if and only if every character is at most U+0020 |
| CreateVolume.LiveCheckWeakerThanSubmit | android/app/src/main/java/com/qubesdroid/CreateVolumeActivity.java:132-174 | whatever the live check flags, submission refuses; an empty confirmation passes the live check yet is refused on submit for any non-empty password |
| CreateVolume.PasswordKey | android/app/src/main/java/com/qubesdroid/CreateVolumeActivity.java:239-240 | derivation returns, with a 32-byte key when not null |
| CreateVolume.WrappedKeyOpens | android/app/src/main/java/com/qubesdroid/CreateVolumeActivity.java:245-247 | the wrapped master key is 48 bytes and opens, under the same key and nonce, to the master key |
| CreateVolume.BlockCount | android/app/src/main/java/com/qubesdroid/CreateVolumeActivity.java:283-286 | the number of blocks the loop writes forms a valid layout, and is positive exactly in the size range above |
| CreateVolume.VolumeImageLength | android/app/src/main/java/com/qubesdroid/CreateVolumeActivity.java:278-310 | the file is 1712 header bytes plus the data size plus 28 bytes per block |
| CreateVolume.VolumeImageParses | android/app/src/main/java/com/qubesdroid/MountVolumeActivity.java:181-234 | the created file parses back to its own size, timestamp, public key, padded salt and wrapped key |
| CreateVolume.VolumeImageOfHeader | android/app/src/main/java/com/qubesdroid/CreateVolumeActivity.java:278-310 | the file is the header followed by the block records |
| CreateVolume.CreationProgressSorted | android/app/src/main/java/com/qubesdroid/CreateVolumeActivity.java:205-318 | the progress values a creation reports are non-decreasing from 5 to 100 |
| CreateVolume.VolumeSizeBytes | android/app/src/main/java/com/qubesdroid/CreateVolumeActivity.java:179-180 | megabytes become bytes exactly when the `long` product does not wrap |
| CreateVolume.BlockNonceBytes | android/app/src/main/java/com/qubesdroid/CreateVolumeActivity.java:291-293 | the nonce buffer holds the block nonce |
| CreateVolume.BlockAadBytes | android/app/src/main/java/com/qubesdroid/CreateVolumeActivity.java:300-301 | the AAD buffer holds the block AAD |
| CreateVolume.EncryptWith | android/app/src/main/java/com/qubesdroid/CreateVolumeActivity.java:245-247 | a null key aborts; otherwise the sealed value comes back |
| CreateVolume.EncryptBlock | android/app/src/main/java/com/qubesdroid/CreateVolumeActivity.java:289-304 | one block yields its nonce and sealed data, forming that block's record |
| CreateVolume.FileOutputStream.constructor | android/app/src/main/java/com/qubesdroid/CreateVolumeActivity.java:278 | a new stream has written nothing |
| CreateVolume.FileOutputStream.Write | android/app/src/main/java/com/qubesdroid/CreateVolumeActivity.java:307-308 | a write appends the bytes |
| CreateVolume.PutBytes | android/app/src/main/java/com/qubesdroid/CreateVolumeActivity.java:252-273 | a relative `put` on a zeroed buffer extends what has been written |
| CreateVolume.PutIntBytes | android/app/src/main/java/com/qubesdroid/CreateVolumeActivity.java:252-273 | `putInt` appends the int's bytes in buffer order |
| CreateVolume.PutLongBytes | android/app/src/main/java/com/qubesdroid/CreateVolumeActivity.java:252-273 | `putLong` appends the long's bytes in buffer order |
| CreateVolume.PutHeaderStart | android/app/src/main/java/com/qubesdroid/CreateVolumeActivity.java:252-266 | the first 64 bytes are magic, version, size, sizes, timestamp and reserved zeros |
| CreateVolume.PutKeyFields | android/app/src/main/java/com/qubesdroid/CreateVolumeActivity.java:267-273 | then the public key, the salt, 16 zero bytes and the wrapped key |
| CreateVolume.BuildHeader | android/app/src/main/java/com/qubesdroid/CreateVolumeActivity.java:252-273 | the header array is `Header` of its fields |
| CreateVolume.CreationProgressSplit | android/app/src/main/java/com/qubesdroid/CreateVolumeActivity.java:205-318 | the progress steps reported in order make up the creation's progress sequence |
| CreateVolume.ZeroKeys | android/app/src/main/java/com/qubesdroid/CreateVolumeActivity.java:315-317 | the master key, password key and secret key become all zeros |
| CreateVolume.CreateVolumeActivity.constructor | android/app/src/main/java/com/qubesdroid/CreateVolumeActivity.java:41-53 | a fresh activity has empty inputs, no errors and no progress |
| CreateVolume.CreateVolumeActivity.ValidateInputs | android/app/src/main/java/com/qubesdroid/CreateVolumeActivity.java:132-163 | valid if and only if the trimmed name is non-empty, the password has at least 8 units and equals the confirmation; each field's error is set exactly when its check fails |
| CreateVolume.CreateVolumeActivity.ValidatePasswords | android/app/src/main/java/com/qubesdroid/CreateVolumeActivity.java:165-174 | the confirmation error becomes the live check's result |
| CreateVolume.CreateVolumeActivity.UpdateProgress | android/app/src/main/java/com/qubesdroid/CreateVolumeActivity.java:185 | a progress value is appended to those reported |
| CreateVolume.CreateVolumeActivity.WriteBlock | android/app/src/main/java/com/qubesdroid/CreateVolumeActivity.java:286-309 | one iteration reports its progress and appends its record to the file |
| CreateVolume.CreateVolumeActivity.WriteBlocks | android/app/src/main/java/com/qubesdroid/CreateVolumeActivity.java:283-309 | the loop appends every block record in order and reports one progress value per block |
| CreateVolume.CreateVolumeActivity.WriteVolume | android/app/src/main/java/com/qubesdroid/CreateVolumeActivity.java:278-310 | the named file becomes the header followed by the records, and no other file changes |
| CreateVolume.CreateVolumeActivity.DrawKeys | android/app/src/main/java/com/qubesdroid/CreateVolumeActivity.java:216-236 | the drawn keys are placed in fresh arrays and progress 5, 10, 30 is reported |
| CreateVolume.CreateVolumeActivity.WrapMasterKey | android/app/src/main/java/com/qubesdroid/CreateVolumeActivity.java:239-249 | progress 40 is reported after the key is derived; a null key aborts the wrap, otherwise the wrapped key is the sealed master key |
| CreateVolume.CreateVolumeActivity.WriteCreatedVolume | android/app/src/main/java/com/qubesdroid/CreateVolumeActivity.java:249-312 | the file holds the full volume image and the progress runs 50, 60, the block values, 100 |
| CreateVolume.CreateVolumeActivity.FinishCreation | android/app/src/main/java/com/qubesdroid/CreateVolumeActivity.java:249-317 | the same, and then the three secret arrays are zeroed |
| CreateVolume.CreateVolumeActivity.CreateVolumeFile | android/app/src/main/java/com/qubesdroid/CreateVolumeActivity.java:205-318 | an existing file is refused with nothing changed; a null password key aborts with no file and the keys left unzeroed; otherwise the file is the volume image, progress is the full sequence and the keys are zeroed |
| CreateVolume.CreateVolumeActivity.CreateVolume | android/app/src/main/java/com/qubesdroid/CreateVolumeActivity.java:176-203 | the trimmed name with `.qd` and the size in bytes are passed on, after progress 0; no file changes unless the volume is created; the progress after an existing name is 0 alone, after a failed key derivation 0, 5, 10, 30, 40, and after creation 0 and then the creation's values |
| CreateVolume.CreateVolumeActivity.OnCreateClicked | android/app/src/main/java/com/qubesdroid/CreateVolumeActivity.java:125-129 | the three error fields are set as `validateInputs` sets them; creation runs if and only if the inputs validate, and otherwise nothing is written; when it runs, the files and progress are those `createVolume` gives for its outcome |
| MountVolume.VolumeHeader.constructor | android/app/src/main/java/com/qubesdroid/MountVolumeActivity.java:358-366 | a new header has zero numbers and no arrays |
| MountVolume.BytesRead | android/app/src/main/java/com/qubesdroid/MountVolumeActivity.java:183-187 | the read fills 1712 bytes if and only if the file has that many |
| MountVolume.ReadInto | android/app/src/main/java/com/qubesdroid/MountVolumeActivity.java:183-187 | a full read copies the first 1712 bytes |
| MountVolume.GetNumbers | android/app/src/main/java/com/qubesdroid/MountVolumeActivity.java:202-215 | the version is read and checked; on success header size, volume size and timestamp are the little-endian fields |
| MountVolume.GetKeys | android/app/src/main/java/com/qubesdroid/MountVolumeActivity.java:218-230 | after skipping 32 bytes, public key, salt and wrapped key are copied from their offsets |
| MountVolume.ParseHeaderBytes | android/app/src/main/java/com/qubesdroid/MountVolumeActivity.java:189-233 | the imperative parse fails exactly when `ParseHeader` does, with the same error, and otherwise yields its fields |
| MountVolume.ReadVolumeHeader | android/app/src/main/java/com/qubesdroid/MountVolumeActivity.java:181-234 | `readVolumeHeader` agrees with `ParseHeader` on every file |
| MountVolume.SizeMB | android/app/src/main/java/com/qubesdroid/MountVolumeActivity.java:242 | for non-negative sizes the shown size is the whole number of MiB |
| MountVolume.SizeMBOfCreated | android/app/src/main/java/com/qubesdroid/MountVolumeActivity.java:242 | a volume created with n MB shows n MB |
| MountVolume.SizeMBTruncates | android/app/src/main/java/com/qubesdroid/MountVolumeActivity.java:242 | negative sizes round toward zero, as Java's `/` does |
| MountVolume.CreationMillisOfCreated | android/app/src/main/java/com/qubesdroid/MountVolumeActivity.java:246 | the shown time is creation time rounded down to the second |
| MountVolume.MountKey | android/app/src/main/java/com/qubesdroid/MountVolumeActivity.java:261-262 | a key comes back only for a 16-byte salt |
| MountVolume.OpenerExists | android/app/src/main/jni/qubesdroid_crypto.c:185-255 | some opener agrees with `decryptData` |
| MountVolume.MountOutcomes | android/app/src/main/java/com/qubesdroid/MountVolumeActivity.java:252-327 | mount aborts exactly when the key is null, reports a wrong password exactly when the zero-nonce tag does not match, and otherwise yields a master key 16 bytes shorter than the wrapped key |
| MountVolume.ParsedHeaderNeverMounts | android/app/src/main/java/com/qubesdroid/MountVolumeActivity.java:225-262 | with the 32-byte salt every accepted header, whatever the password, ends in an abort |
| MountVolume.CreatedVolumeNeverMounts | android/app/src/main/java/com/qubesdroid/CreateVolumeActivity.java:239-273 | a volume this code creates parses and never mounts |
| MountVolume.CreationSaltZeroNonceMounts | android/app/src/main/java/com/qubesdroid/MountVolumeActivity.java:261-274 | with the 16-byte salt and a zero wrap nonce, the right password recovers the master key |
| MountVolume.DerivePasswordKey | android/app/src/main/java/com/qubesdroid/MountVolumeActivity.java:261-262 | the returned array is present exactly when the key is, and holds it |
| MountVolume.UnwrapMasterKey | android/app/src/main/java/com/qubesdroid/MountVolumeActivity.java:268-274 | `decryptData` with the zero nonce and no AAD; a null key aborts unless the input is too short |
| MountVolume.MountVolumeActivity.constructor | android/app/src/main/java/com/qubesdroid/MountVolumeActivity.java:64-65 | no volume is selected and nothing is shown |
| MountVolume.MountVolumeActivity.DisplayVolumeInfo | android/app/src/main/java/com/qubesdroid/MountVolumeActivity.java:236-250 | the name, the MiB size and the creation time in milliseconds are shown |
| MountVolume.MountVolumeActivity.OnVolumeSelected | android/app/src/main/java/com/qubesdroid/MountVolumeActivity.java:160-179 | the selection is kept; a header that parses is stored and displayed, one that does not leaves the previous header and display |
| MountVolume.MountVolumeActivity.MountVolume | android/app/src/main/java/com/qubesdroid/MountVolumeActivity.java:252-327 | without a header it is an error; otherwise the outcome is `MountResult`, a wrong password sets the error, and on success both keys are zeroed |
| MountVolume.MountVolumeActivity.OnMountClicked | android/app/src/main/java/com/qubesdroid/MountVolumeActivity.java:128-135 | an empty password is refused with "Password is required"; otherwise the mount runs, an incorrect password sets "Incorrect password" and any other outcome leaves the password error as it was |
| ByteBuffers.DecodeEncode | android/app/src/main/java/com/qubesdroid/MountVolumeActivity.java:189-215 | decoding what was encoded in either byte order gives back the value |
| ByteBuffers.IntRoundTrip | android/app/src/main/java/com/qubesdroid/MountVolumeActivity.java:202-209 | an int written by `putInt` is read back by `getInt` |
| ByteBuffers.LongRoundTrip | android/app/src/main/java/com/qubesdroid/MountVolumeActivity.java:212-215 | a long written by `putLong` is read back by `getLong` |
| ByteBuffers.ByteBuffer.Allocate | android/app/src/main/java/com/qubesdroid/CreateVolumeActivity.java:252 | `allocate` gives a zeroed big-endian buffer at position 0 |
| ByteBuffers.ByteBuffer.Wrap | android/app/src/main/java/com/qubesdroid/MountVolumeActivity.java:189 | `wrap` views the array, big-endian, at position 0 |
| ByteBuffers.ByteBuffer.Order | android/app/src/main/java/com/qubesdroid/CreateVolumeActivity.java:253 | `order` sets the byte order |
| ByteBuffers.ByteBuffer.SetPosition | android/app/src/main/java/com/qubesdroid/MountVolumeActivity.java:218 | `position` moves the cursor |
| ByteBuffers.ByteBuffer.Put | android/app/src/main/java/com/qubesdroid/CreateVolumeActivity.java:255-256 | `put` overwrites the bytes at the cursor and advances it |
| ByteBuffers.ByteBuffer.PutInt | android/app/src/main/java/com/qubesdroid/CreateVolumeActivity.java:257-260 | `putInt` writes the int's four bytes at the cursor |
| ByteBuffers.ByteBuffer.PutLong | android/app/src/main/java/com/qubesdroid/CreateVolumeActivity.java:261-264 | `putLong` writes the long's eight bytes at the cursor |
| ByteBuffers.ByteBuffer.Get | android/app/src/main/java/com/qubesdroid/MountVolumeActivity.java:195-196 | `get` copies the bytes at the cursor and advances it |
| ByteBuffers.ByteBuffer.GetInt | android/app/src/main/java/com/qubesdroid/MountVolumeActivity.java:202 | `getInt` reads four bytes in buffer order |
| ByteBuffers.ByteBuffer.GetLong | android/app/src/main/java/com/qubesdroid/MountVolumeActivity.java:212-215 | `getLong` reads eight bytes in buffer order |
| JavaLang.WrapLong | android/app/src/main/java/com/qubesdroid/CreateVolumeActivity.java:180 | the `long` result is congruent to the exact one modulo 2^64 and equal to it when in range |
| JavaLang.WrapInt | android/app/src/main/java/com/qubesdroid/CreateVolumeActivity.java:296-297 | the `int` result is congruent modulo 2^32 and equal when in range |
| JavaLang.LongDiv | android/app/src/main/java/com/qubesdroid/CreateVolumeActivity.java:264 | Java `/` on `long` for all operands: the mathematical quotient for non-negative ones; otherwise the remainder `a - r * b` is smaller than `b` in magnitude, non-negative for `a >= 0` and non-positive for `a < 0`, so the quotient rounds toward zero; `MIN_VALUE / -1` wraps to `MIN_VALUE` |
| JavaLang.LongDivEdges | android/app/src/main/java/com/qubesdroid/MountVolumeActivity.java:242 | `/` truncates toward zero, and MIN / -1 wraps to MIN |
| JavaLang.MinLong | android/app/src/main/java/com/qubesdroid/CreateVolumeActivity.java:296-297 | `Math.min` is one of its arguments and at most both |
| JavaLang.LongBitsRoundTrip | android/app/src/main/java/com/qubesdroid/MountVolumeActivity.java:212-215 | a long's 64-bit pattern turns back into the same long |
| JavaLang.IntBitsRoundTrip | android/app/src/main/java/com/qubesdroid/MountVolumeActivity.java:202-209 | an int's 32-bit pattern turns back into the same int |
| JavaLang.TrimStartShape | android/app/src/main/java/com/qubesdroid/CreateVolumeActivity.java:136 | the result is a suffix starting with a unit above U+0020, or empty, and every unit dropped before it is at most U+0020 |
| JavaLang.TrimEndShape | android/app/src/main/java/com/qubesdroid/CreateVolumeActivity.java:136 | the result is a prefix ending with a unit above U+0020, or empty, and every unit dropped after it is at most U+0020 |
| JavaLang.TrimShape | android/app/src/main/java/com/qubesdroid/CreateVolumeActivity.java:136 | `trim` leaves a string with no space-or-control unit at either end |
| JavaLang.TrimEmptyIff | android/app/src/main/java/com/qubesdroid/CreateVolumeActivity.java:136-137 | `trim` is empty if and only if every unit is at most U+0020 |
| JavaLang.Fill | android/app/src/main/java/com/qubesdroid/CreateVolumeActivity.java:315-317 | `Arrays.fill` sets every element to the value |

## Left out

- User interface: layouts, Toasts, dialogs, the slider, the background thread and the progress messages are not modelled. The progress values are modelled, as the sequence the activity reports.
- The ML-KEM `.key` file written at creation and the `mkdirs` call are not modelled. So are the file picker, the temporary copy of the selected volume, the logs and the date formatting.
- Randomness and the clock: SecureRandom, the ML-KEM keypair generation and `System.currentTimeMillis` are not modelled. They arrive as the `CreateVolume.Draws` parameter.
- The ChaCha20 block function, Argon2id and ML-KEM-1024 are not modelled. The keystream and Argon2id are parameters, because their code is outside the modelled files.
- `chacha20poly1305_random_nonce` (src/Crypto/chacha20poly1305.c:251-280) seeds its RNG from the local array `seed` (line 258), which is never written before `ChaCha20RngInit` (line 272); the entropy source is only a TODO comment (lines 260-268). No modelled code calls it, and its output is the RNG keystream of an unspecified seed, so it is not modelled.
- `malloc` is assumed to succeed. The code never checks its result.
- `GetStringUTFChars` and the modified-UTF-8 encoding of the password are folded into the Argon2id parameter.
- The `memset` wipes of locals (`poly_key`, `chacha_ctx`, intermediate buffers) are not modelled. Nothing later reads them.
- The Poly1305 model is the code's 28-bit-limb arithmetic. The model makes no claim that it computes the RFC 8439 function.
- Reads shorter than 1712 bytes are modelled through `MountVolume.BytesRead`, as "not enough bytes". Partial reads that a later read would complete are not modelled.
- CryptoBridge.DecryptData: requires a key of at least 32 bytes and a nonce of at least 12. The C code reads that many bytes without checking, so a shorter array is an out-of-bounds read, outside what the model describes.
- CryptoBridge.EncryptData: requires the plaintext and AAD arrays to be at most `Integer.MAX_VALUE` bytes, the largest a Java array can hold. A plaintext whose length plus 16 overflows `jsize` is modelled, as an abort in `NewByteArray`; `malloc` of its ciphertext buffer is taken to succeed.
- ChaCha20Poly1305.Encrypt: requires every non-null buffer to be as long as its length argument says and the outputs not to overlap the inputs other than in place (`EncryptBuffers`). The C code never checks a buffer's size, so a shorter buffer is an out-of-bounds access, outside what the model describes.
- ChaCha20Poly1305.Decrypt: requires the same of its buffers (`DecryptBuffers`), for the same reason.
- Write failures of the volume file are not modelled. An `IOException` part-way through the block loop is caught by `createVolume` (android/app/src/main/java/com/qubesdroid/CreateVolumeActivity.java:176-203) and leaves a partial file behind; the model's file writes always succeed.
- CryptoBridge.EncryptDataResult: an uninitialised `output` returned after a length error is the named outcome `Uninitialised`, not a particular value.
- Poly1305.UpdateSplit: splitting an update is stated up to `Equiv`, not as equality. Bytes past `leftover` can differ, as `Poly1305.UpdateSplitStaleBuffer` shows.
- Poly1305.StoreTag: writes the 16 tag bytes in one step. `Poly1305.Store32Le` models the per-word store separately.
- The model keeps three behaviours of the code as they are: the header-size field is never checked, the wrap nonce is never stored, and keys are not zeroed on error paths.
