/** The volume-mounting screen: the header parser, the size and date it displays, and the
    unwrapping of the master key under the password. */
module MountVolume {
  import opened Bits
  import opened Bytes
  import opened Wrappers
  import opened JavaLang
  import opened ByteBuffers
  import opened ChaCha20Poly1305
  import opened CryptoBridge
  import opened VolumeFormat
  import CreateVolume

  const PASSWORD_REQUIRED: string := "Password is required"
  const INCORRECT_PASSWORD: string := "Incorrect password"

  // ---------------------------------------------------------------------------
  // Reading the header

  /** `VolumeHeader`: the fields `readVolumeHeader` assigns one by one. */
  class VolumeHeader {
    var version: Int
    var headerSize: Int
    var volumeSize: Long
    var creationTimestamp: Long
    var mlkemPublicKey: array?<uint8>
    var salt: array?<uint8>
    var encryptedMasterKey: array?<uint8>

    constructor ()
      ensures version == 0 && headerSize == 0 && volumeSize == 0 && creationTimestamp == 0
      ensures mlkemPublicKey == null && salt == null && encryptedMasterKey == null
    {
      version, headerSize, volumeSize, creationTimestamp := 0, 0, 0, 0;
      mlkemPublicKey, salt, encryptedMasterKey := null, null, null;
    }

    /** All three arrays assigned; like every Java array, none is longer than `MAX_ARRAY`. */
    ghost predicate Valid()
      reads this
    {
      mlkemPublicKey != null && salt != null && encryptedMasterKey != null
      && mlkemPublicKey.Length <= MAX_ARRAY && salt.Length <= MAX_ARRAY
      && encryptedMasterKey.Length <= MAX_ARRAY
    }

    /** The header as a value. */
    ghost function Fields(): HeaderFields
      requires Valid()
      reads this, mlkemPublicKey, salt, encryptedMasterKey
    {
      HeaderFields(version, headerSize, volumeSize, creationTimestamp,
                   mlkemPublicKey[..], salt[..], encryptedMasterKey[..])
    }
  }

  /** `fis.read(headerBytes)` on a file holding `file`: -1 at end of file, otherwise the
      bytes available up to the array's length. */
  function BytesRead(file: seq<uint8>): (n: int)
    ensures n == 1712 <==> |file| >= 1712
  {
    if |file| == 0 then -1 else if |file| < 1712 then |file| else 1712
  }

  method ReadInto(file: seq<uint8>) returns (headerBytes: array<uint8>, bytesRead: int)
    ensures fresh(headerBytes) && headerBytes.Length == 1712 && bytesRead == BytesRead(file)
    ensures bytesRead == 1712 ==> headerBytes[..] == file[..1712]
  {
    headerBytes := new uint8[1712](i requires 0 <= i < 1712 => if i < |file| then file[i] else 0);
    bytesRead := BytesRead(file);
  }

  /** The four numeric fields, read little-endian from offset 8. */
  method GetNumbers(buffer: ByteBuffer, header: VolumeHeader, ghost file: seq<uint8>) returns (ok: bool)
    requires buffer.Valid() && buffer.hb.Length == 1712 && buffer.hb[..] == file && buffer.position == 8
    requires !buffer.bigEndian
    modifies buffer`position, header`version, header`headerSize, header`volumeSize, header`creationTimestamp
    ensures buffer.Valid() && buffer.hb[..] == file
    ensures header.version == IntValue(file[8..12], false)
    ensures ok <==> header.version == VERSION
    ensures ok ==> buffer.position == 32 && header.headerSize == IntValue(file[12..16], false)
    ensures ok ==> header.volumeSize == LongValue(file[16..24], false)
    ensures ok ==> header.creationTimestamp == LongValue(file[24..32], false)
  {
    header.version := buffer.GetInt();
    if header.version != VERSION {
      return false;
    }
    header.headerSize := buffer.GetInt();
    header.volumeSize := buffer.GetLong();
    header.creationTimestamp := buffer.GetLong();
    ok := true;
  }

  /** Past the 32 reserved bytes: the public key, the 32-byte salt and the wrapped key, each
      into an array of its own. */
  method GetKeys(buffer: ByteBuffer, header: VolumeHeader, ghost file: seq<uint8>)
    requires buffer.Valid() && buffer.hb.Length == 1712 && buffer.hb[..] == file && buffer.position == 32
    modifies buffer`position, header`mlkemPublicKey, header`salt, header`encryptedMasterKey
    ensures header.Valid() && fresh(header.mlkemPublicKey) && fresh(header.salt) && fresh(header.encryptedMasterKey)
    ensures header.mlkemPublicKey[..] == file[64..1632] && header.salt[..] == file[1632..1664]
    ensures header.encryptedMasterKey[..] == file[1664..1712]
  {
    buffer.SetPosition(buffer.position + 32);
    var publicKey := new uint8[1568](_ => 0);
    buffer.Get(publicKey);
    var salt := new uint8[32](_ => 0);
    buffer.Get(salt);
    var encryptedMasterKey := new uint8[48](_ => 0);
    buffer.Get(encryptedMasterKey);
    header.mlkemPublicKey, header.salt, header.encryptedMasterKey := publicKey, salt, encryptedMasterKey;
  }

  /** The header bytes read into a little-endian buffer: the magic, then the numbers, then
      the keys, each refusal in that order. */
  method ParseHeaderBytes(headerBytes: array<uint8>) returns (r: Result<VolumeHeader, HeaderError>)
    requires headerBytes.Length == 1712
    ensures r.Err? <==> ParseHeader(headerBytes[..]).Err?
    ensures r.Err? ==> r.error == ParseHeader(headerBytes[..]).error
    ensures r.Ok? ==> fresh(r.value) && r.value.Valid() && fresh(r.value.mlkemPublicKey)
                      && fresh(r.value.salt) && fresh(r.value.encryptedMasterKey)
                      && r.value.Fields() == ParseHeader(headerBytes[..]).value
  {
    ghost var h := headerBytes[..];
    var buffer := new ByteBuffer.Wrap(headerBytes);
    buffer.Order(true);
    var header := new VolumeHeader();
    var magic := new uint8[8](_ => 0);
    buffer.Get(magic);
    assert magic[..] == h[..8];
    if magic[..] != MAGIC {
      return Err(BadMagic);
    }
    var ok := GetNumbers(buffer, header, h);
    if !ok {
      return Err(UnsupportedVersion(header.version));
    }
    GetKeys(buffer, header, h);
    r := Ok(header);
  }

  /** `readVolumeHeader`: the header fields of `file`, or the reason it is refused. */
  method ReadVolumeHeader(file: seq<uint8>) returns (r: Result<VolumeHeader, HeaderError>)
    ensures r.Err? <==> ParseHeader(file).Err?
    ensures r.Err? ==> r.error == ParseHeader(file).error
    ensures r.Ok? ==> fresh(r.value) && r.value.Valid() && fresh(r.value.mlkemPublicKey)
                      && fresh(r.value.salt) && fresh(r.value.encryptedMasterKey)
                      && r.value.Fields() == ParseHeader(file).value
  {
    var headerBytes, bytesRead := ReadInto(file);
    if bytesRead != 1712 {
      return Err(TooShort);
    }
    ParseReadsOnlyHeader(file);
    r := ParseHeaderBytes(headerBytes);
  }

  // ---------------------------------------------------------------------------
  // What the screen shows

  /** `header.volumeSize / (1024 * 1024)` on `long`, which truncates toward zero. */
  function SizeMB(volumeSize: Long): (mb: Long)
    ensures volumeSize >= 0 ==> mb == volumeSize / 1048576
  {
    LongDiv(volumeSize, 1048576)
  }

  /** `header.creationTimestamp * 1000` on `long`, the milliseconds handed to `Date`. */
  function CreationMillis(timestamp: Long): Long
  {
    WrapLong(timestamp * 1000)
  }

  /** The size a created volume shows is the size chosen on the slider. */
  lemma SizeMBOfCreated(volumeSizeMB: Long)
    requires 0 <= volumeSizeMB < 0x800_0000_0000
    ensures SizeMB(CreateVolume.VolumeSizeBytes(volumeSizeMB)) == volumeSizeMB
  {
  }

  /** A negative size field shows as the truncated quotient: -1 bytes is 0 MB, not -1. */
  lemma SizeMBTruncates()
    ensures SizeMB(-1) == 0 && SizeMB(-1048577) == -1
  {
    LongDivEdges();
  }

  /** The date shown for a created volume is its creation time to the second before. */
  lemma CreationMillisOfCreated(nowMillis: Long)
    requires nowMillis >= 0
    ensures CreationMillis(LongDiv(nowMillis, 1000)) == nowMillis - nowMillis % 1000
  {
  }

  // ---------------------------------------------------------------------------
  // Mounting

  /** How a mount attempt ends: the unwrapped master key, the incorrect-password error, a
      process abort in the native code, or the caught exception when no header was read. */
  datatype MountOutcome = Mounted(masterKey: seq<uint8>) | IncorrectPassword | NativeAbort | MountError

  /** `deriveKeyFromPassword(password, header.salt)`. */
  function MountKey(argon: Argon2id, password: JString, salt: seq<uint8>): (key: JBytes)
    ensures key.JArray? ==> |salt| == SALT_LEN && |key.bytes| == 32
  {
    DeriveKeyFromPassword(argon, JStr(password), JArray(salt)).ret
  }

  /** `decryptData` as a value: the ghost `open` stands for it wherever its arguments fit
      its contract, in the same way `seal` stands for `encryptData`. */
  type Opener = (JBytes, JBytes, JBytes, JBytes) -> NativeResult

  /** The arguments `decryptData` is defined on: Java arrays, a key of 32 bytes or more and a
      nonce of 12 or more, the lengths the cipher reads. */
  predicate DecryptArgs(input: JBytes, key: JBytes, nonce: JBytes, aad: JBytes)
  {
    (input.JArray? ==> |input.bytes| <= MAX_ARRAY) && (aad.JArray? ==> |aad.bytes| <= MAX_ARRAY)
    && (key.JArray? ==> |key.bytes| >= 32) && (nonce.JArray? ==> |nonce.bytes| >= 12)
  }

  ghost predicate IsOpener(open: Opener, prim: Primitives)
  {
    forall input, key, nonce, aad {:trigger DecryptDataResult(prim, input, key, nonce, aad)} ::
      DecryptArgs(input, key, nonce, aad) ==> open(input, key, nonce, aad) == DecryptDataResult(prim, input, key, nonce, aad)
  }

  /** Every keystream has its `decryptData`. */
  lemma OpenerExists(prim: Primitives) returns (open: Opener)
    ensures IsOpener(open, prim)
  {
    open := (input: JBytes, key: JBytes, nonce: JBytes, aad: JBytes) =>
      if DecryptArgs(input, key, nonce, aad) then DecryptDataResult(prim, input, key, nonce, aad) else Abort;
  }

  /** `mountVolume` on a read header: the password key, an all-zero 12-byte nonce, then
      `decryptData` of the wrapped key with no AAD. */
  function MountResult(open: Opener, argon: Argon2id, password: JString, salt: seq<uint8>,
                       wrapped: seq<uint8>): MountOutcome
  {
    var r := open(JArray(wrapped), MountKey(argon, password, salt), JArray(Zeros(12)), JNull);
    if r == Returned(JNull) then IncorrectPassword
    else if r.Returned? then Mounted(r.ret.bytes)
    else NativeAbort
  }

  /** With a wrapped key of at least one tag, the mount aborts exactly when no password key
      comes back, reports an incorrect password exactly when the tag fails under it, and
      otherwise yields the bytes before the tag. */
  lemma MountOutcomes(open: Opener, prim: Primitives, argon: Argon2id, password: JString, salt: seq<uint8>,
                      wrapped: seq<uint8>)
    requires IsOpener(open, prim) && 16 <= |wrapped| <= MAX_ARRAY
    ensures var key := MountKey(argon, password, salt);
      var outcome := MountResult(open, argon, password, salt, wrapped);
      (outcome == NativeAbort <==> key.JNull?)
      && (outcome == IncorrectPassword <==>
           key.JArray? && Tag(prim, key.bytes[..32], Zeros(12), [], wrapped[..|wrapped| - 16]) != wrapped[|wrapped| - 16..])
      && (outcome.Mounted? ==> |outcome.masterKey| == |wrapped| - 16)
  {
    var key := MountKey(argon, password, salt);
    var r := DecryptDataResult(prim, JArray(wrapped), key, JArray(Zeros(12)), JNull);
    if key.JArray? {
      DecryptDataAuthenticates(prim, wrapped, key.bytes, Zeros(12), JNull);
      if r != Returned(JNull) {
        DecryptDataPlaintext(prim, wrapped, key.bytes, Zeros(12), JNull);
      }
    }
  }

  /** The salt read at mount is 32 bytes and the key derivation takes only 16, so no
      password key ever comes back and `decryptData` aborts on the null key: every header
      that parses ends the mount in a native abort, whatever the password. */
  lemma ParsedHeaderNeverMounts(open: Opener, prim: Primitives, argon: Argon2id, password: JString, file: seq<uint8>)
    requires IsOpener(open, prim) && ParseHeader(file).Ok?
    ensures var h := ParseHeader(file).value;
      MountResult(open, argon, password, h.salt, h.encryptedMasterKey) == NativeAbort
  {
    var h := ParseHeader(file).value;
    assert DecryptDataResult(prim, JArray(h.encryptedMasterKey), JNull, JArray(Zeros(12)), JNull) == Abort;
  }

  /** In particular a volume the creating activity wrote never mounts. */
  lemma CreatedVolumeNeverMounts(seal: Sealer, open: Opener, prim: Primitives, pdk: seq<uint8>, d: CreateVolume.Draws,
                                 volumeSize: Long, argon: Argon2id, password: JString)
    requires IsSealer(seal, prim) && IsOpener(open, prim) && CreateVolume.WellFormed(d) && |pdk| == 32
    ensures var p := ParseHeader(CreateVolume.VolumeImage(seal, pdk, d, volumeSize));
      p.Ok? && MountResult(open, argon, password, p.value.salt, p.value.encryptedMasterKey) == NativeAbort
  {
    CreateVolume.VolumeImageParses(seal, prim, pdk, d, volumeSize);
    ParsedHeaderNeverMounts(open, prim, argon, password, CreateVolume.VolumeImage(seal, pdk, d, volumeSize));
  }

  /** What the salt defect hides: handed the 16-byte salt creation used, the same password
      unwraps the master key, but only for a volume whose random wrap nonce came out all
      zero, the nonce mounting supplies. */
  lemma CreationSaltZeroNonceMounts(seal: Sealer, open: Opener, prim: Primitives, argon: Argon2id, password: JString,
                                    d: CreateVolume.Draws)
    requires IsSealer(seal, prim) && IsOpener(open, prim) && CreateVolume.WellFormed(d) && d.wrapNonce == Zeros(12)
    requires CreateVolume.PasswordKey(argon, password, d.salt).ret.JArray?
    ensures var pdk := CreateVolume.PasswordKey(argon, password, d.salt).ret.bytes;
      MountResult(open, argon, password, d.salt, CreateVolume.WrappedKey(seal, pdk, d.wrapNonce, d.masterKey))
      == Mounted(d.masterKey)
  {
    var pdk := CreateVolume.PasswordKey(argon, password, d.salt).ret.bytes;
    CreateVolume.WrappedKeyOpens(seal, prim, pdk, d.wrapNonce, d.masterKey);
  }

  /** `deriveKeyFromPassword` on the header's salt, the key copied into a Java array. */
  method DerivePasswordKey(argon: Argon2id, password: JString, salt: array<uint8>) returns (key: JBytes, pdk: array?<uint8>)
    ensures key == MountKey(argon, password, salt[..])
    ensures (pdk != null <==> key.JArray?) && (pdk != null ==> fresh(pdk) && pdk[..] == key.bytes)
  {
    var derived := DeriveKeyFromPassword(argon, JStr(password), JArray(salt[..]));
    key := derived.ret;
    if key.JArray? {
      pdk := Pin(key.bytes);
    } else {
      pdk := null;
    }
  }

  /** The all-zero nonce, then `decryptData(encryptedMasterKey, key, nonce, null)`. */
  method UnwrapMasterKey(prim: Primitives, ghost open: Opener, wrapped: seq<uint8>, key: JBytes) returns (r: NativeResult)
    requires IsPoly1305(prim.mac)
    requires IsOpener(open, prim) && |wrapped| <= MAX_ARRAY && (key.JArray? ==> |key.bytes| >= 32)
    ensures r == open(JArray(wrapped), key, JArray(Zeros(12)), JNull)
    ensures key.JNull? ==> r == if |wrapped| < 16 then Returned(JNull) else Abort
  {
    var nonce := new uint8[12](_ => 0);
    assert nonce[..] == Zeros(12);
    r := DecryptData(prim, JArray(wrapped), key, JArray(nonce[..]), JNull);
    assert DecryptArgs(JArray(wrapped), key, JArray(nonce[..]), JNull);
  }

  class MountVolumeActivity {
    /** The file last picked: its name. */
    var selectedVolumeFile: Option<JString>
    /** The header last read successfully, `null` before the first. */
    var volumeHeader: VolumeHeader?
    /** The text of the password field and the error its layout shows. */
    var passwordInput: JString
    var passwordError: Option<string>
    /** What `displayVolumeInfo` last put on screen: name, size in MB, creation time. */
    var shownName: Option<JString>
    var shownSizeMB: Long
    var shownCreationMillis: Long

    constructor ()
      ensures selectedVolumeFile == None && volumeHeader == null && passwordInput == [] && passwordError == None
      ensures shownName == None && shownSizeMB == 0 && shownCreationMillis == 0
    {
      selectedVolumeFile, volumeHeader := None, null;
      passwordInput, passwordError := [], None;
      shownName, shownSizeMB, shownCreationMillis := None, 0, 0;
    }

    /** `displayVolumeInfo`: the file name, the size in MB and the creation time. */
    method DisplayVolumeInfo(name: JString, header: VolumeHeader)
      modifies this`shownName, this`shownSizeMB, this`shownCreationMillis
      ensures shownName == Some(name) && shownSizeMB == SizeMB(header.volumeSize)
      ensures shownCreationMillis == CreationMillis(header.creationTimestamp)
    {
      shownName := Some(name);
      var sizeMB := LongDiv(header.volumeSize, 1048576);
      shownSizeMB := sizeMB;
      shownCreationMillis := WrapLong(header.creationTimestamp * 1000);
    }

    /** `onVolumeSelected`: the file is selected first; the header is replaced only when it
        parses, so a refused file leaves the previous header in place. */
    method OnVolumeSelected(name: JString, file: seq<uint8>)
      modifies this`selectedVolumeFile, this`volumeHeader, this`shownName, this`shownSizeMB, this`shownCreationMillis
      ensures selectedVolumeFile == Some(name)
      ensures ParseHeader(file).Err? ==>
        volumeHeader == old(volumeHeader)
        && unchanged(this`shownName) && unchanged(this`shownSizeMB) && unchanged(this`shownCreationMillis)
      ensures ParseHeader(file).Ok? ==>
        volumeHeader != null && fresh(volumeHeader) && volumeHeader.Valid()
        && volumeHeader.Fields() == ParseHeader(file).value
        && shownName == Some(name) && shownSizeMB == SizeMB(ParseHeader(file).value.volumeSize)
        && shownCreationMillis == CreationMillis(ParseHeader(file).value.creationTimestamp)
    {
      selectedVolumeFile := Some(name);
      var r := ReadVolumeHeader(file);
      if r.Ok? {
        volumeHeader := r.value;
        DisplayVolumeInfo(name, r.value);
      }
    }

    /** `mountVolume`. The password key and the master key are wiped only after a
        successful unwrap; an incorrect password leaves the password key as derived. */
    method MountVolume(password: JString, prim: Primitives, ghost open: Opener, argon: Argon2id)
      returns (outcome: MountOutcome, pdk: array?<uint8>, masterKey: array?<uint8>)
      requires IsPoly1305(prim.mac)
      requires IsOpener(open, prim) && (volumeHeader != null ==> volumeHeader.Valid())
      modifies this`passwordError
      ensures volumeHeader == null ==> outcome == MountError && unchanged(this`passwordError)
      ensures volumeHeader != null ==>
        var h := volumeHeader.Fields();
        var key := MountKey(argon, password, h.salt);
        outcome == MountResult(open, argon, password, h.salt, h.encryptedMasterKey)
        && (pdk != null <==> key.JArray?) && (pdk != null ==> fresh(pdk))
        && (outcome == IncorrectPassword ==> passwordError == Some(INCORRECT_PASSWORD)
                                             && (pdk != null ==> pdk[..] == key.bytes))
        && (outcome.Mounted? ==> pdk != null && masterKey != null && fresh(masterKey)
                                 && pdk[..] == Zeros(32) && masterKey[..] == Zeros(masterKey.Length))
        && (outcome != IncorrectPassword ==> unchanged(this`passwordError))
    {
      if volumeHeader == null {
        return MountError, null, null;  // NullPointerException, caught
      }
      var header := volumeHeader;
      var key;
      key, pdk := DerivePasswordKey(argon, password, header.salt);
      var decrypted := UnwrapMasterKey(prim, open, header.encryptedMasterKey[..], key);
      if decrypted == Returned(JNull) {
        passwordError := Some(INCORRECT_PASSWORD);
        return IncorrectPassword, pdk, null;
      }
      if !decrypted.Returned? {
        return NativeAbort, pdk, null;  // the process ends inside decryptData
      }
      masterKey := Pin(decrypted.ret.bytes);
      outcome := Mounted(decrypted.ret.bytes);
      Fill(pdk, 0);
      Fill(masterKey, 0);
    }

    /** The mount button: an empty password is refused before anything is derived. */
    method OnMountClicked(prim: Primitives, ghost open: Opener, argon: Argon2id) returns (outcome: Option<MountOutcome>)
      requires IsPoly1305(prim.mac)
      requires IsOpener(open, prim) && (volumeHeader != null ==> volumeHeader.Valid())
      modifies this`passwordError
      ensures passwordInput == [] ==> outcome == None && passwordError == Some(PASSWORD_REQUIRED)
      ensures passwordInput != [] && volumeHeader == null ==> outcome == Some(MountError)
      ensures passwordInput != [] && volumeHeader != null ==>
        outcome == Some(MountResult(open, argon, passwordInput, volumeHeader.Fields().salt,
                                    volumeHeader.Fields().encryptedMasterKey))
      ensures outcome == Some(IncorrectPassword) ==> passwordError == Some(INCORRECT_PASSWORD)
      ensures passwordInput != [] && outcome != Some(IncorrectPassword) ==> unchanged(this`passwordError)
    {
      var password := passwordInput;
      if password == [] {
        passwordError := Some(PASSWORD_REQUIRED);
        return None;
      }
      var o, pdk, masterKey := MountVolume(password, prim, open, argon);
      outcome := Some(o);
    }
  }
}
