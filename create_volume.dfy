/** The volume-creation screen: validation of the form, and the writing of a new volume
    file (master key, password wrap, header, then the sealed zero blocks). */
module CreateVolume {
  import opened Bits
  import opened Bytes
  import opened Wrappers
  import opened JavaLang
  import opened ByteBuffers
  import opened ChaCha20Poly1305
  import opened CryptoBridge
  import opened VolumeFormat

  const NAME_REQUIRED: string := "Volume name is required"
  const PASSWORD_TOO_SHORT: string := "Password must be at least 8 characters"
  const PASSWORDS_DIFFER: string := "Passwords do not match"

  /** `".qd"` */
  const VOLUME_SUFFIX: JString := [0x2e, 0x71, 0x64]

  /** The form is accepted: a name that does not trim to nothing, a password of at least
      eight UTF-16 units, and a confirmation equal to it. */
  predicate InputsValid(name: JString, password: JString, confirm: JString)
  {
    Trim(name) != [] && |password| >= 8 && password == confirm
  }

  /** The error the confirmation field shows while either password field is edited. */
  function LiveConfirmError(password: JString, confirm: JString): (e: Option<string>)
    ensures e.Some? <==> confirm != [] && password != confirm
  {
    if confirm != [] && password != confirm then Some(PASSWORDS_DIFFER) else None
  }

  /** A name is refused exactly when all of it is white space or control characters. */
  lemma NameRequiredIff(name: JString)
    ensures Trim(name) == [] <==> forall i :: 0 <= i < |name| ==> name[i] <= 0x20
  {
    TrimEmptyIff(name);
  }

  /** The live check never flags a form the create button accepts, and it is silent on an
      empty confirmation that the create button still rejects. */
  lemma LiveCheckWeakerThanSubmit(name: JString, password: JString, confirm: JString)
    ensures LiveConfirmError(password, confirm).Some? ==> !InputsValid(name, password, confirm)
    ensures LiveConfirmError(password, []) == None
    ensures password != [] ==> !InputsValid(name, password, [])
  {
  }

  /** The values creation draws from `SecureRandom`, the ML-KEM key generator and the clock. */
  datatype Draws = Draws(masterKey: seq<uint8>, publicKey: seq<uint8>, secretKey: seq<uint8>,
                         salt: seq<uint8>, wrapNonce: seq<uint8>, nowMillis: Long)

  predicate WellFormed(d: Draws)
  {
    |d.masterKey| == 32 && |d.publicKey| == PUBLIC_KEY_LEN && |d.secretKey| == SECRET_KEY_LEN
    && |d.salt| == SALT_LEN && |d.wrapNonce| == 12
  }

  datatype Outcome = Created | VolumeExists | NativeAbort

  /** `deriveKeyFromPassword(password, salt)` on the 16-byte salt creation draws. */
  function PasswordKey(argon: Argon2id, password: JString, salt: seq<uint8>): (r: NativeResult)
    ensures r.Returned? && (r.ret.JArray? ==> |r.ret.bytes| == 32)
  {
    DeriveKeyFromPassword(argon, JStr(password), JArray(salt))
  }

  /** How creation ends: an existing file is refused first; a password key the native side
      fails to derive reaches `encryptData` as null, which aborts. */
  function CreationOutcome(volumes: map<JString, seq<uint8>>, name: JString, password: JString,
                           argon: Argon2id, salt: seq<uint8>): Outcome
  {
    if name + VOLUME_SUFFIX in volumes then VolumeExists
    else if PasswordKey(argon, password, salt).ret.JNull? then NativeAbort
    else Created
  }

  /** The master key sealed under the password key with the random nonce and no AAD. */
  function WrappedKey(seal: Sealer, pdk: seq<uint8>, nonce: seq<uint8>, masterKey: seq<uint8>): seq<uint8>
  {
    seal(pdk, nonce, [], masterKey)
  }

  /** The wrapped key is 48 bytes and opens under the same password key and nonce. Mounting
      supplies a zero nonce instead; that succeeds when the random draw was zero. */
  lemma WrappedKeyOpens(seal: Sealer, prim: Primitives, pdk: seq<uint8>, nonce: seq<uint8>, masterKey: seq<uint8>)
    requires IsSealer(seal, prim) && |pdk| == 32 && |nonce| == 12 && |masterKey| == 32
    ensures |WrappedKey(seal, pdk, nonce, masterKey)| == WRAPPED_KEY_LEN
    ensures DecryptDataResult(prim, JArray(WrappedKey(seal, pdk, nonce, masterKey)), JArray(pdk), JArray(nonce), JNull)
            == Returned(JArray(masterKey))
  {
    assert WrappedKey(seal, pdk, nonce, masterKey) == Sealed(prim, pdk, nonce, [], masterKey);
    DecryptDataOfEncryptData(prim, masterKey, pdk, nonce, JNull);
  }

  /** The number of blocks the write loop runs: `numBlocks` when positive, otherwise none. */
  function BlockCount(volumeSize: Long): (n: nat)
    ensures Layout(DataSize(volumeSize), n)
    ensures n > 0 <==> 1712 < volumeSize <= 0x7fff_ffff_ffff_06b0
  {
    NumBlocksPositiveIff(volumeSize);
    if NumBlocks(volumeSize) > 0 then NumBlocks(volumeSize) else 0
  }

  /** What the write loop appends after the header. */
  function Body(seal: Sealer, masterKey: seq<uint8>, volumeSize: Long): seq<uint8>
  {
    Records(seal, masterKey, DataSize(volumeSize), BlockCount(volumeSize), BlockCount(volumeSize))
  }

  /** The complete file a successful creation leaves behind. */
  function VolumeImage(seal: Sealer, pdk: seq<uint8>, d: Draws, volumeSize: Long): seq<uint8>
  {
    Header(volumeSize, LongDiv(d.nowMillis, 1000), d.publicKey, d.salt, WrappedKey(seal, pdk, d.wrapNonce, d.masterKey))
      + Body(seal, d.masterKey, volumeSize)
  }

  /** A created file is its header, the data area, and 28 bytes of nonce and tag per block. */
  lemma VolumeImageLength(seal: Sealer, prim: Primitives, pdk: seq<uint8>, d: Draws, volumeSize: Long)
    requires IsSealer(seal, prim) && WellFormed(d) && |pdk| == 32
    ensures var n := BlockCount(volumeSize);
      |VolumeImage(seal, pdk, d, volumeSize)| == 1712 + (if n == 0 then 0 else DataSize(volumeSize)) + 28 * n
  {
    WrappedKeyOpens(seal, prim, pdk, d.wrapNonce, d.masterKey);
    RecordsLength(seal, prim, d.masterKey, DataSize(volumeSize), BlockCount(volumeSize));
  }

  /** The mounting activity parses a created file back to the fields creation put, the salt
      padded with sixteen zero bytes. */
  lemma VolumeImageParses(seal: Sealer, prim: Primitives, pdk: seq<uint8>, d: Draws, volumeSize: Long)
    requires IsSealer(seal, prim) && WellFormed(d) && |pdk| == 32
    ensures ParseHeader(VolumeImage(seal, pdk, d, volumeSize))
         == Ok(HeaderFields(VERSION, HEADER_SIZE, volumeSize, LongDiv(d.nowMillis, 1000), d.publicKey,
                            d.salt + Zeros(16), WrappedKey(seal, pdk, d.wrapNonce, d.masterKey)))
  {
    WrappedKeyOpens(seal, prim, pdk, d.wrapNonce, d.masterKey);
    ParseOfHeader(volumeSize, LongDiv(d.nowMillis, 1000), d.publicKey, d.salt,
                  WrappedKey(seal, pdk, d.wrapNonce, d.masterKey), Body(seal, d.masterKey, volumeSize));
  }

  /** A header built from the values drawn, followed by the records, is the volume image. */
  lemma VolumeImageOfHeader(seal: Sealer, pdk: seq<uint8>, d: Draws, volumeSize: Long, header: seq<uint8>)
    requires header == Header(volumeSize, LongDiv(d.nowMillis, 1000), d.publicKey, d.salt,
                              WrappedKey(seal, pdk, d.wrapNonce, d.masterKey))
    ensures header + Body(seal, d.masterKey, volumeSize) == VolumeImage(seal, pdk, d, volumeSize)
  {
  }

  /** The progress values a successful creation posts, in order. */
  function CreationProgress(volumeSize: Long): seq<int>
  {
    [5, 10, 30, 40, 50, 60] + BlockProgresses(NumBlocks(volumeSize), BlockCount(volumeSize)) + [100]
  }

  lemma SortedAppend(p: seq<int>, q: seq<int>, lo: int, mid: int, hi: int)
    requires lo <= mid <= hi && SortedWithin(p, lo, mid) && SortedWithin(q, mid, hi)
    ensures SortedWithin(p + q, lo, hi)
  {
    var r := p + q;
    forall a, b | 0 <= a <= b < |r|
      ensures lo <= r[a] <= r[b] <= hi
    {
      if b < |p| {
        assert r[a] == p[a] && r[b] == p[b];
      } else if a >= |p| {
        assert r[a] == q[a - |p|] && r[b] == q[b - |p|];
      } else {
        assert r[a] == p[a] && r[b] == q[b - |p|];
      }
    }
  }

  /** The progress bar only moves forward and stays within [5, 100]. */
  lemma CreationProgressSorted(volumeSize: Long)
    ensures SortedWithin(CreationProgress(volumeSize), 5, 100)
  {
    var n := BlockCount(volumeSize);
    var blocks := BlockProgresses(NumBlocks(volumeSize), n);
    if n > 0 {
      LayoutBound(DataSize(volumeSize), n);
      BlockProgressesSorted(n);
    }
    var fixed: seq<int> := [5, 10, 30, 40, 50, 60];
    assert SortedWithin(fixed, 5, 60);
    SortedAppend(fixed, blocks, 5, 60, 99);
    SortedAppend(fixed + blocks, [100], 5, 99, 100);
  }

  /** `volumeSizeMB * 1024 * 1024` on `long`. It is exact for any size below 2^43 MiB. */
  function VolumeSizeBytes(volumeSizeMB: Long): (r: Long)
    ensures 0 <= volumeSizeMB < 0x800_0000_0000 ==> r == volumeSizeMB * 1048576
  {
    WrapLong(WrapLong(volumeSizeMB * 1024) * 1024)
  }

  /** The 12-byte buffer `ByteBuffer.allocate(12).putLong(i)` leaves. */
  method BlockNonceBytes(i: Long) returns (nonce: array<uint8>)
    ensures fresh(nonce) && nonce[..] == BlockNonce(i)
  {
    var nonceBuffer := new ByteBuffer.Allocate(12);
    nonceBuffer.PutLong(i);
    nonce := nonceBuffer.hb;
    assert Zeros(12)[8..] == Zeros(4);
  }

  /** The 8-byte buffer `ByteBuffer.allocate(8).putLong(i)` leaves. */
  method BlockAadBytes(i: Long) returns (aad: array<uint8>)
    ensures fresh(aad) && aad[..] == BlockAad(i)
  {
    var aadBuffer := new ByteBuffer.Allocate(8);
    aadBuffer.PutLong(i);
    aad := aadBuffer.hb;
  }

  /** `encryptData` on a present plaintext and nonce, its result stated through `seal`. */
  method EncryptWith(prim: Primitives, ghost seal: Sealer, plaintext: seq<uint8>, key: JBytes, nonce: seq<uint8>, aad: JBytes)
    returns (r: NativeResult)
    requires IsPoly1305(prim.mac)
    requires IsSealer(seal, prim) && |plaintext| + 16 <= MAX_ARRAY && |nonce| == 12
    requires key.JArray? ==> |key.bytes| == 32
    requires aad.JArray? ==> |aad.bytes| <= MAX_ARRAY
    ensures key.JNull? ==> r == Abort
    ensures key.JArray? ==> r == Returned(JArray(seal(key.bytes, nonce, AadBytes(aad), plaintext)))
  {
    r := EncryptData(prim, JArray(plaintext), key, JArray(nonce), aad);
    if key.JArray? {
      EncryptDataAsSealer(prim, seal, plaintext, key.bytes, nonce, aad);
    }
  }

  /** One iteration of the block loop past its progress update: nonce, zero plaintext, AAD,
      then `encryptData` under the master key. */
  method EncryptBlock(prim: Primitives, ghost seal: Sealer, masterKey: array<uint8>, dataSize: Long, ghost n: nat, i: Long)
    returns (blockNonce: seq<uint8>, ciphertext: seq<uint8>)
    requires IsPoly1305(prim.mac)
    requires IsSealer(seal, prim) && Layout(dataSize, n) && 0 <= i < n && masterKey.Length == 32
    ensures blockNonce + ciphertext == BlockRecord(seal, masterKey[..], i, BlockLength(dataSize, i))
  {
    var nonce := BlockNonceBytes(i);
    BlockLengthInRange(dataSize, n, i);
    var currentBlockSize := BlockLength(dataSize, i);
    var plaintext := new uint8[currentBlockSize](_ => 0);
    assert plaintext[..] == Zeros(currentBlockSize);
    var aad := BlockAadBytes(i);
    var r := EncryptWith(prim, seal, plaintext[..], JArray(masterKey[..]), nonce[..], JArray(aad[..]));
    blockNonce := nonce[..];
    ciphertext := r.ret.bytes;
  }

  lemma AppendAssoc<T>(a: seq<T>, b: seq<T>, c: seq<T>)
    ensures a + b + c == a + (b + c)
  {
  }

  /** An open `FileOutputStream`: the bytes written to it so far. */
  class FileOutputStream {
    var written: seq<uint8>

    constructor ()
      ensures written == []
    {
      written := [];
    }

    method Write(b: seq<uint8>)
      modifies this
      ensures written == old(written) + b
    {
      written := written + b;
    }
  }

  /** `ByteBuffer.put` of `src` into a buffer whose bytes past `prefix` are still zero. */
  lemma PutOverZeros(prefix: seq<uint8>, src: seq<uint8>, total: nat)
    requires |prefix| + |src| <= total
    ensures var old_ := prefix + Zeros(total - |prefix|);
      old_[..|prefix|] + src + old_[|prefix| + |src|..] == prefix + src + Zeros(total - |prefix| - |src|)
  {
    var old_ := prefix + Zeros(total - |prefix|);
    assert old_[..|prefix|] == prefix;
    assert old_[|prefix| + |src|..] == Zeros(total - |prefix| - |src|);
  }

  /** A buffer that holds `written` and zeros after it, positioned at the end of `written`. */
  ghost predicate Filled(buf: ByteBuffer, written: seq<uint8>)
    reads buf, buf.hb
  {
    buf.Valid() && buf.position == |written| && buf.hb[..] == written + Zeros(buf.hb.Length - |written|)
  }

  /** One relative bulk `put` while the header is being filled. */
  method PutBytes(buf: ByteBuffer, ghost written: seq<uint8>, src: seq<uint8>)
    requires Filled(buf, written) && |written| + |src| <= buf.hb.Length
    modifies buf.hb, buf`position
    ensures Filled(buf, written + src) && unchanged(buf`bigEndian)
  {
    PutOverZeros(written, src, buf.hb.Length);
    buf.Put(src);
  }

  method PutIntBytes(buf: ByteBuffer, ghost written: seq<uint8>, v: Int)
    requires Filled(buf, written) && |written| + 4 <= buf.hb.Length
    modifies buf.hb, buf`position
    ensures Filled(buf, written + IntImage(v, buf.bigEndian)) && unchanged(buf`bigEndian)
  {
    PutOverZeros(written, IntImage(v, buf.bigEndian), buf.hb.Length);
    buf.PutInt(v);
  }

  method PutLongBytes(buf: ByteBuffer, ghost written: seq<uint8>, v: Long)
    requires Filled(buf, written) && |written| + 8 <= buf.hb.Length
    modifies buf.hb, buf`position
    ensures Filled(buf, written + LongImage(v, buf.bigEndian)) && unchanged(buf`bigEndian)
  {
    PutOverZeros(written, LongImage(v, buf.bigEndian), buf.hb.Length);
    buf.PutLong(v);
  }

  /** The first 64 header bytes: magic, version, header size, volume size, timestamp and
      the 32 reserved bytes. */
  function HeaderStart(volumeSize: Long, timestamp: Long): seq<uint8>
  {
    MAGIC + IntImage(VERSION, false) + IntImage(HEADER_SIZE, false) + LongImage(volumeSize, false)
      + LongImage(timestamp, false) + Zeros(32)
  }

  /** The `put` calls of the fixed fields, into a fresh little-endian buffer. */
  method PutHeaderStart(buf: ByteBuffer, volumeSize: Long, timestamp: Long)
    requires Filled(buf, []) && buf.hb.Length == 1712 && !buf.bigEndian
    modifies buf.hb, buf`position
    ensures Filled(buf, HeaderStart(volumeSize, timestamp)) && unchanged(buf`bigEndian)
  {
    PutBytes(buf, [], MAGIC);
    ghost var w := MAGIC;
    PutIntBytes(buf, w, VERSION);
    w := w + IntImage(VERSION, false);
    PutIntBytes(buf, w, HEADER_SIZE);
    w := w + IntImage(HEADER_SIZE, false);
    PutLongBytes(buf, w, volumeSize);
    w := w + LongImage(volumeSize, false);
    PutLongBytes(buf, w, timestamp);
    w := w + LongImage(timestamp, false);
    PutBytes(buf, w, Zeros(32));
  }

  /** The `put` calls of the KEM public key, the salt with its 16 bytes of padding, and the
      wrapped master key. */
  method PutKeyFields(buf: ByteBuffer, ghost start: seq<uint8>, publicKey: array<uint8>, salt: array<uint8>,
                      wrappedKey: seq<uint8>)
    requires Filled(buf, start) && |start| == 64 && buf.hb.Length == 1712
    requires publicKey.Length == PUBLIC_KEY_LEN && salt.Length == 16 && |wrappedKey| == WRAPPED_KEY_LEN
    requires buf.hb != publicKey && buf.hb != salt
    modifies buf.hb, buf`position
    ensures Filled(buf, start + publicKey[..] + salt[..] + Zeros(16) + wrappedKey)
  {
    PutBytes(buf, start, publicKey[..]);
    ghost var w := start + publicKey[..];
    PutBytes(buf, w, salt[..]);
    w := w + salt[..];
    PutBytes(buf, w, Zeros(16));
    w := w + Zeros(16);
    PutBytes(buf, w, wrappedKey);
  }

  /** Step 5: the header, filled little-endian by sequential `put` calls. */
  method BuildHeader(volumeSize: Long, timestamp: Long, publicKey: array<uint8>, salt: array<uint8>,
                     wrappedKey: seq<uint8>) returns (header: array<uint8>)
    requires publicKey.Length == PUBLIC_KEY_LEN && salt.Length == 16 && |wrappedKey| == WRAPPED_KEY_LEN
    ensures fresh(header) && header[..] == Header(volumeSize, timestamp, publicKey[..], salt[..], wrappedKey)
  {
    var buf := new ByteBuffer.Allocate(1712);
    buf.Order(true);
    assert Filled(buf, []);
    PutHeaderStart(buf, volumeSize, timestamp);
    PutKeyFields(buf, HeaderStart(volumeSize, timestamp), publicKey, salt, wrappedKey);
    header := buf.hb;
  }

  /** The progress of a creation as its phases post it. */
  lemma CreationProgressSplit(p: seq<int>, volumeSize: Long)
    ensures p + [5, 10, 30] + [40] + [50] + [60] + BlockProgresses(NumBlocks(volumeSize), BlockCount(volumeSize)) + [100]
         == p + CreationProgress(volumeSize)
  {
    var blocks := BlockProgresses(NumBlocks(volumeSize), BlockCount(volumeSize));
    assert p + [5, 10, 30] + [40] + [50] + [60] == p + [5, 10, 30, 40, 50, 60];
    AppendAssoc(p + [5, 10, 30, 40, 50, 60], blocks, [100]);
    AppendAssoc(p, [5, 10, 30, 40, 50, 60], blocks);
    AppendAssoc(p, [5, 10, 30, 40, 50, 60] + blocks, [100]);
  }

  /** The closing wipe after a successful creation: the master key, the password key and the KEM secret key zeroed. */
  method ZeroKeys(masterKey: array<uint8>, pdk: array<uint8>, secretKey: array<uint8>)
    requires masterKey != pdk && masterKey != secretKey && pdk != secretKey
    modifies masterKey, pdk, secretKey
    ensures masterKey[..] == Zeros(masterKey.Length) && pdk[..] == Zeros(pdk.Length)
    ensures secretKey[..] == Zeros(secretKey.Length)
  {
    Fill(masterKey, 0);
    Fill(pdk, 0);
    Fill(secretKey, 0);
  }

  class CreateVolumeActivity {
    /** The texts of the three input fields. */
    var volumeNameInput: JString
    var passwordInput: JString
    var confirmPasswordInput: JString
    /** The error each field's layout shows, `None` once cleared. */
    var volumeNameError: Option<string>
    var passwordError: Option<string>
    var confirmPasswordError: Option<string>
    /** The `volumes` directory: file name to contents. */
    var volumes: map<JString, seq<uint8>>
    /** The values the progress indicator has been set to, in order. */
    var progress: seq<int>

    constructor (volumes: map<JString, seq<uint8>>)
      ensures this.volumes == volumes && progress == []
      ensures volumeNameInput == [] && passwordInput == [] && confirmPasswordInput == []
      ensures volumeNameError == None && passwordError == None && confirmPasswordError == None
    {
      this.volumes := volumes;
      progress := [];
      volumeNameInput, passwordInput, confirmPasswordInput := [], [], [];
      volumeNameError, passwordError, confirmPasswordError := None, None, None;
    }

    /** `validateInputs`: all three checks run and set their own field's error. */
    method ValidateInputs() returns (isValid: bool)
      modifies this`volumeNameError, this`passwordError, this`confirmPasswordError
      ensures isValid <==> InputsValid(volumeNameInput, passwordInput, confirmPasswordInput)
      ensures volumeNameError == if Trim(volumeNameInput) == [] then Some(NAME_REQUIRED) else None
      ensures passwordError == if |passwordInput| < 8 then Some(PASSWORD_TOO_SHORT) else None
      ensures confirmPasswordError == if passwordInput != confirmPasswordInput then Some(PASSWORDS_DIFFER) else None
    {
      isValid := true;
      var volumeName := Trim(volumeNameInput);
      if volumeName == [] {
        volumeNameError := Some(NAME_REQUIRED);
        isValid := false;
      } else {
        volumeNameError := None;
      }
      var password := passwordInput;
      if |password| < 8 {
        passwordError := Some(PASSWORD_TOO_SHORT);
        isValid := false;
      } else {
        passwordError := None;
      }
      var confirmPassword := confirmPasswordInput;
      if password != confirmPassword {
        confirmPasswordError := Some(PASSWORDS_DIFFER);
        isValid := false;
      } else {
        confirmPasswordError := None;
      }
    }

    /** `validatePasswords`, run after every edit of either password field. */
    method ValidatePasswords()
      modifies this`confirmPasswordError
      ensures confirmPasswordError == LiveConfirmError(passwordInput, confirmPasswordInput)
    {
      var password := passwordInput;
      var confirmPassword := confirmPasswordInput;
      if confirmPassword != [] && password != confirmPassword {
        confirmPasswordError := Some(PASSWORDS_DIFFER);
      } else {
        confirmPasswordError := None;
      }
    }

    /** `updateProgress`, with the message left out. */
    method UpdateProgress(p: int)
      modifies this`progress
      ensures progress == old(progress) + [p]
    {
      progress := progress + [p];
    }

    /** One pass of the block loop: the progress update, then the block's nonce and
        ciphertext written to the open file. */
    method WriteBlock(fos: FileOutputStream, prim: Primitives, ghost seal: Sealer, masterKey: array<uint8>,
                      dataSize: Long, ghost n: nat, numBlocks: Long, i: Long)
      requires IsPoly1305(prim.mac)
      requires IsSealer(seal, prim) && masterKey.Length == 32
      requires Layout(dataSize, n) && 0 <= i < n == numBlocks
      modifies fos, this`progress
      ensures fos.written == old(fos.written) + BlockRecord(seal, masterKey[..], i, BlockLength(dataSize, i))
      ensures progress == old(progress) + [BlockProgress(i, numBlocks)]
    {
      UpdateProgress(BlockProgress(i, numBlocks));
      var blockNonce, ciphertext := EncryptBlock(prim, seal, masterKey, dataSize, n, i);
      fos.Write(blockNonce);
      fos.Write(ciphertext);
      AppendAssoc(old(fos.written), blockNonce, ciphertext);
    }

    /** The block loop of step 6: `numBlocks` records written to the open file. */
    method WriteBlocks(fos: FileOutputStream, prim: Primitives, ghost seal: Sealer,
                       masterKey: array<uint8>, dataSize: Long, numBlocks: Long, ghost n: nat)
      requires IsPoly1305(prim.mac)
      requires IsSealer(seal, prim) && masterKey.Length == 32
      requires Layout(dataSize, n) && (if n == 0 then numBlocks <= 0 else numBlocks == n)
      modifies fos, this`progress
      ensures fos.written == old(fos.written) + Records(seal, masterKey[..], dataSize, n, n)
      ensures progress == old(progress) + BlockProgresses(numBlocks, n)
    {
      assert old(fos.written) + Records(seal, masterKey[..], dataSize, n, 0) == old(fos.written);
      var i: int := 0;
      while i < numBlocks
        invariant 0 <= i <= n && (i < n <==> i < numBlocks)
        invariant fos.written == old(fos.written) + Records(seal, masterKey[..], dataSize, n, i)
        invariant progress == old(progress) + BlockProgresses(numBlocks, i)
      {
        WriteBlock(fos, prim, seal, masterKey, dataSize, n, numBlocks, i);
        RecordsStep(seal, masterKey[..], dataSize, n, i);
        AppendAssoc(old(progress), BlockProgresses(numBlocks, i), [BlockProgress(i, numBlocks)]);
        AppendAssoc(old(fos.written), Records(seal, masterKey[..], dataSize, n, i),
                    BlockRecord(seal, masterKey[..], i, BlockLength(dataSize, i)));
        i := i + 1;
      }
    }

    /** Step 6: the file is opened, the header written, then one record per block; the
        file holds what was written once the stream closes. */
    method WriteVolume(fileName: JString, header: array<uint8>, prim: Primitives, ghost seal: Sealer,
                       masterKey: array<uint8>, volumeSizeBytes: Long)
      requires IsPoly1305(prim.mac)
      requires IsSealer(seal, prim) && masterKey.Length == 32
      modifies this`volumes, this`progress
      ensures volumes == old(volumes)[fileName := header[..] + Body(seal, masterKey[..], volumeSizeBytes)]
      ensures progress == old(progress) + BlockProgresses(NumBlocks(volumeSizeBytes), BlockCount(volumeSizeBytes))
    {
      var fos := new FileOutputStream();
      fos.Write(header[..]);
      assert fos.written == header[..];
      var dataSize := DataSize(volumeSizeBytes);
      var numBlocks := NumBlocks(volumeSizeBytes);
      ghost var n := BlockCount(volumeSizeBytes);
      assert n == 0 ==> numBlocks <= 0;
      assert n > 0 ==> numBlocks == n;
      WriteBlocks(fos, prim, seal, masterKey, dataSize, numBlocks, n);
      volumes := volumes[fileName := fos.written];
    }

    /** Steps 1 to 3: the master key, the KEM key pair and the salt, each copied into a
        Java array, with the progress posted between them. */
    method DrawKeys(draws: Draws) returns (masterKey: array<uint8>, publicKey: array<uint8>,
                                           secretKey: array<uint8>, salt: array<uint8>)
      modifies this`progress
      ensures fresh(masterKey) && fresh(publicKey) && fresh(secretKey) && fresh(salt)
      ensures masterKey[..] == draws.masterKey && publicKey[..] == draws.publicKey
      ensures secretKey[..] == draws.secretKey && salt[..] == draws.salt
      ensures progress == old(progress) + [5, 10, 30]
    {
      UpdateProgress(5);
      masterKey := Pin(draws.masterKey);
      UpdateProgress(10);
      publicKey := Pin(draws.publicKey);
      secretKey := Pin(draws.secretKey);
      UpdateProgress(30);
      salt := Pin(draws.salt);
    }

    /** Step 4: the password key from Argon2id over the salt, then the master key sealed
        under it with the random nonce. A failed derivation leaves the key null, and
        `encryptData` aborts on it. */
    method WrapMasterKey(prim: Primitives, ghost seal: Sealer, argon: Argon2id, password: JString,
                         masterKey: array<uint8>, salt: array<uint8>, wrapNonce: seq<uint8>)
      returns (pdk: array?<uint8>, wrapped: NativeResult)
      requires IsPoly1305(prim.mac)
      requires IsSealer(seal, prim) && masterKey.Length == 32 && salt.Length == SALT_LEN && |wrapNonce| == 12
      modifies this`progress
      ensures progress == old(progress) + [40]
      ensures var key := PasswordKey(argon, password, salt[..]).ret;
        (pdk == null <==> key.JNull?) && (pdk != null ==> fresh(pdk) && pdk[..] == key.bytes)
        && (key.JNull? ==> wrapped == Abort)
        && (key.JArray? ==> wrapped == Returned(JArray(WrappedKey(seal, key.bytes, wrapNonce, masterKey[..]))))
    {
      var derived := DeriveKeyFromPassword(argon, JStr(password), JArray(salt[..]));
      if derived.ret.JArray? {
        pdk := Pin(derived.ret.bytes);
      } else {
        pdk := null;
      }
      UpdateProgress(40);
      var nonce := Pin(wrapNonce);
      wrapped := EncryptWith(prim, seal, masterKey[..], derived.ret, nonce[..], JNull);
    }

    /** Steps 5 and 6: the header under progress 50, the file under 60, then 100. */
    method WriteCreatedVolume(fileName: JString, volumeSizeBytes: Long, timestamp: Long, prim: Primitives,
                              ghost seal: Sealer, masterKey: array<uint8>, publicKey: array<uint8>,
                              salt: array<uint8>, wrappedKey: seq<uint8>, ghost d: Draws, ghost pdk: seq<uint8>)
      requires IsPoly1305(prim.mac)
      requires IsSealer(seal, prim) && WellFormed(d)
      requires masterKey[..] == d.masterKey && publicKey[..] == d.publicKey && salt[..] == d.salt
      requires timestamp == LongDiv(d.nowMillis, 1000) && wrappedKey == WrappedKey(seal, pdk, d.wrapNonce, d.masterKey)
      requires |wrappedKey| == WRAPPED_KEY_LEN
      modifies this`volumes, this`progress
      ensures volumes == old(volumes)[fileName := VolumeImage(seal, pdk, d, volumeSizeBytes)]
      ensures progress == old(progress) + [50] + [60]
                          + BlockProgresses(NumBlocks(volumeSizeBytes), BlockCount(volumeSizeBytes)) + [100]
    {
      UpdateProgress(50);
      var header := BuildHeader(volumeSizeBytes, timestamp, publicKey, salt, wrappedKey);
      VolumeImageOfHeader(seal, pdk, d, volumeSizeBytes, header[..]);
      UpdateProgress(60);
      WriteVolume(fileName, header, prim, seal, masterKey, volumeSizeBytes);
      UpdateProgress(100);
    }

    /** From step 5 on: the volume written, then the closing wipe after a successful creation. */
    method FinishCreation(fileName: JString, volumeSizeBytes: Long, timestamp: Long, prim: Primitives, ghost seal: Sealer,
                          masterKey: array<uint8>, publicKey: array<uint8>, secretKey: array<uint8>,
                          salt: array<uint8>, pdk: array<uint8>, wrappedKey: seq<uint8>,
                          ghost d: Draws, ghost key: seq<uint8>)
      requires IsPoly1305(prim.mac)
      requires IsSealer(seal, prim) && WellFormed(d)
      requires masterKey[..] == d.masterKey && publicKey[..] == d.publicKey && salt[..] == d.salt
      requires timestamp == LongDiv(d.nowMillis, 1000)
      requires secretKey.Length == SECRET_KEY_LEN && pdk.Length == 32
      requires masterKey != pdk && masterKey != secretKey && pdk != secretKey
      requires wrappedKey == WrappedKey(seal, key, d.wrapNonce, d.masterKey) && |wrappedKey| == WRAPPED_KEY_LEN
      modifies this`volumes, this`progress, masterKey, pdk, secretKey
      ensures volumes == old(volumes)[fileName := VolumeImage(seal, key, d, volumeSizeBytes)]
      ensures progress == old(progress) + [50] + [60]
                          + BlockProgresses(NumBlocks(volumeSizeBytes), BlockCount(volumeSizeBytes)) + [100]
      ensures masterKey[..] == Zeros(32) && pdk[..] == Zeros(32) && secretKey[..] == Zeros(SECRET_KEY_LEN)
    {
      WriteCreatedVolume(fileName, volumeSizeBytes, timestamp, prim, seal,
                         masterKey, publicKey, salt, wrappedKey, d, key);
      ZeroKeys(masterKey, pdk, secretKey);
    }

    /** `createVolumeFile`. Keys, salt, nonce, KEM keypair and clock come from `draws`. The
        three returned buffers are the master key, the password key and the KEM secret key. */
    method CreateVolumeFile(volumeName: JString, password: JString, volumeSizeBytes: Long,
                            prim: Primitives, ghost seal: Sealer, argon: Argon2id, draws: Draws)
      returns (outcome: Outcome, masterKey: array?<uint8>, pdk: array?<uint8>, secretKey: array?<uint8>)
      requires IsPoly1305(prim.mac)
      requires IsSealer(seal, prim) && WellFormed(draws)
      modifies this`volumes, this`progress
      ensures outcome == CreationOutcome(old(volumes), volumeName, password, argon, draws.salt)
      ensures outcome == VolumeExists ==>
        volumes == old(volumes) && progress == old(progress) && masterKey == null && pdk == null && secretKey == null
      ensures outcome == NativeAbort ==>
        volumes == old(volumes) && progress == old(progress) + [5, 10, 30, 40] && pdk == null
        && masterKey != null && masterKey[..] == draws.masterKey && secretKey != null && secretKey[..] == draws.secretKey
      ensures outcome == Created ==>
        masterKey != null && pdk != null && secretKey != null
        && masterKey[..] == Zeros(32) && pdk[..] == Zeros(32) && secretKey[..] == Zeros(SECRET_KEY_LEN)
        && volumes == old(volumes)[volumeName + VOLUME_SUFFIX :=
                                   VolumeImage(seal, PasswordKey(argon, password, draws.salt).ret.bytes, draws, volumeSizeBytes)]
        && progress == old(progress) + CreationProgress(volumeSizeBytes)
    {
      var fileName := volumeName + VOLUME_SUFFIX;
      if fileName in volumes {
        return VolumeExists, null, null, null;
      }
      var publicKey, salt;
      masterKey, publicKey, secretKey, salt := DrawKeys(draws);
      var wrapped;
      pdk, wrapped := WrapMasterKey(prim, seal, argon, password, masterKey, salt, draws.wrapNonce);
      if wrapped.Abort? {
        return NativeAbort, masterKey, pdk, secretKey;
      }
      ghost var key := PasswordKey(argon, password, draws.salt).ret.bytes;
      WrappedKeyOpens(seal, prim, key, draws.wrapNonce, draws.masterKey);
      FinishCreation(fileName, volumeSizeBytes, LongDiv(draws.nowMillis, 1000), prim, seal, masterKey, publicKey, secretKey, salt, pdk,
                     wrapped.ret.bytes, draws, key);
      CreationProgressSplit(old(progress), volumeSizeBytes);
      outcome := Created;
    }

    /** `createVolume`: the size from the slider in MiB, the progress bar reset to 0, then
        `createVolumeFile` with the trimmed name. */
    method CreateVolume(volumeSizeMB: Long, prim: Primitives, ghost seal: Sealer, argon: Argon2id, draws: Draws)
      returns (outcome: Outcome)
      requires IsPoly1305(prim.mac)
      requires IsSealer(seal, prim) && WellFormed(draws)
      modifies this`volumes, this`progress
      ensures outcome == CreationOutcome(old(volumes), Trim(volumeNameInput), passwordInput, argon, draws.salt)
      ensures outcome != Created ==> volumes == old(volumes)
      ensures outcome == VolumeExists ==> progress == old(progress) + [0]
      ensures outcome == NativeAbort ==> progress == old(progress) + [0, 5, 10, 30, 40]
      ensures outcome == Created ==>
        volumes == old(volumes)[Trim(volumeNameInput) + VOLUME_SUFFIX :=
          VolumeImage(seal, PasswordKey(argon, passwordInput, draws.salt).ret.bytes, draws, VolumeSizeBytes(volumeSizeMB))]
        && progress == old(progress) + [0] + CreationProgress(VolumeSizeBytes(volumeSizeMB))
    {
      var volumeName := Trim(volumeNameInput);
      var password := passwordInput;
      var volumeSizeBytes := VolumeSizeBytes(volumeSizeMB);
      progress := progress + [0];
      var masterKey, pdk, secretKey;
      outcome, masterKey, pdk, secretKey := CreateVolumeFile(volumeName, password, volumeSizeBytes, prim, seal, argon, draws);
    }

    /** The create button: creation starts only on a valid form. */
    method OnCreateClicked(volumeSizeMB: Long, prim: Primitives, ghost seal: Sealer, argon: Argon2id, draws: Draws)
      returns (outcome: Option<Outcome>)
      requires IsPoly1305(prim.mac)
      requires IsSealer(seal, prim) && WellFormed(draws)
      modifies this`volumeNameError, this`passwordError, this`confirmPasswordError, this`volumes, this`progress
      ensures outcome.Some? <==> InputsValid(volumeNameInput, passwordInput, confirmPasswordInput)
      ensures volumeNameError == if Trim(volumeNameInput) == [] then Some(NAME_REQUIRED) else None
      ensures passwordError == if |passwordInput| < 8 then Some(PASSWORD_TOO_SHORT) else None
      ensures confirmPasswordError == if passwordInput != confirmPasswordInput then Some(PASSWORDS_DIFFER) else None
      ensures outcome.None? ==> volumes == old(volumes) && progress == old(progress)
      ensures outcome.Some? ==>
        outcome.value == CreationOutcome(old(volumes), Trim(volumeNameInput), passwordInput, argon, draws.salt)
      ensures outcome == Some(VolumeExists) ==> volumes == old(volumes) && progress == old(progress) + [0]
      ensures outcome == Some(NativeAbort) ==> volumes == old(volumes) && progress == old(progress) + [0, 5, 10, 30, 40]
      ensures outcome == Some(Created) ==>
        volumes == old(volumes)[Trim(volumeNameInput) + VOLUME_SUFFIX :=
          VolumeImage(seal, PasswordKey(argon, passwordInput, draws.salt).ret.bytes, draws, VolumeSizeBytes(volumeSizeMB))]
        && progress == old(progress) + [0] + CreationProgress(VolumeSizeBytes(volumeSizeMB))
    {
      var valid := ValidateInputs();
      if valid {
        var o := CreateVolume(volumeSizeMB, prim, seal, argon, draws);
        outcome := Some(o);
      } else {
        outcome := None;
      }
    }
  }
}
