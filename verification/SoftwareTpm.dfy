/** The software provider of common/src/tpm_software.cpp (non-Windows path): the create-once machine secret, device
    key files, and sealing under a key derived from the secret and a label. */
module SoftwareTpm {
  import opened Bytes
  import opened Foreign
  import opened Files
  import Crypto

  datatype TpmError = SecretCorrupt | DeviceKeyCorrupt | CannotRead | Refused(cause: Crypto.CryptoError)

  datatype DeviceKey = DeviceKey(pub: Block32, handle: bytes)

  /** The random bytes one operation may draw: a machine secret, a key seed, a nonce. */
  datatype Entropy = Entropy(secret: Block32, seed: Block32, nonce: Block12)

  /** An operation's effect on the files, and its result; even a failing operation may have created the secret. */
  datatype Outcome<+T> = Outcome(files: FileMap, result: Result<T, TpmError>)

  const DEVKEY_LABEL := Ascii("devkey-")

  /** What an operation computes, as a function of the files before it. */
  datatype Provider = Provider(lib: Library, home: bytes) {

    function Secret(files: FileMap, e: Entropy): Outcome<bytes> {
      var path := SecretPath(home);
      if path in files then Outcome(files, if |files[path]| < 32 then Err(SecretCorrupt) else Ok(files[path]))
      else Outcome(files[path := e.secret], Ok(e.secret))
    }

    function LabelKey(secret: bytes, aLabel: bytes): Block32 {
      lib.hkdf(secret, [], aLabel)
    }

    /** What a blob opens to under a given secret and label. */
    function OpenWith(secret: bytes, blob: bytes, aLabel: bytes): Result<bytes, Crypto.CryptoError> {
      Crypto.GcmDecrypt(lib, LabelKey(secret, aLabel), aLabel, blob)
    }

    function MachineKey(files: FileMap, aLabel: bytes, e: Entropy): Outcome<bytes> {
      var s := Secret(files, e);
      match s.result
      case Ok(secret) => Outcome(s.files, Ok(LabelKey(secret, aLabel)))
      case Err(error) => Outcome(s.files, Err(error))
    }

    function SealBlob(files: FileMap, data: bytes, aLabel: bytes, e: Entropy): Outcome<bytes> {
      var k := MachineKey(files, aLabel, e);
      match k.result
      case Ok(key) => Outcome(k.files, Lift(Crypto.GcmEncrypt(lib, key, aLabel, data, e.nonce)))
      case Err(error) => k
    }

    function UnsealBlob(files: FileMap, blob: bytes, aLabel: bytes, e: Entropy): Outcome<bytes> {
      var k := MachineKey(files, aLabel, e);
      match k.result
      case Ok(key) => Outcome(k.files, Lift(Crypto.GcmDecrypt(lib, key, aLabel, blob)))
      case Err(error) => k
    }

    /** Seals, and also keeps the blob in the store under the label. */
    function Seal(files: FileMap, data: bytes, aLabel: bytes, e: Entropy): Outcome<bytes> {
      var s := SealBlob(files, data, aLabel, e);
      match s.result
      case Ok(blob) => Outcome(s.files[SealPath(home, aLabel) := blob], Ok(blob))
      case Err(error) => s
    }

    function DeviceKeyFor(files: FileMap, product: bytes, e: Entropy): Outcome<DeviceKey> {
      var path := DevKeyPath(home, product);
      if path in files then
        var u := UnsealBlob(files, files[path], DEVKEY_LABEL + product, e);
        match u.result
        case Ok(raw) => Outcome(u.files, if |raw| < 64 then Err(DeviceKeyCorrupt) else Ok(DeviceKey(raw[32..64], path)))
        case Err(error) => Outcome(u.files, Err(error))
      else
        var pub := lib.edPublic(e.seed);
        var s := SealBlob(files, e.seed + pub, DEVKEY_LABEL + product, e);
        match s.result
        case Ok(blob) => Outcome(s.files[path := blob], Ok(DeviceKey(pub, path)))
        case Err(error) => Outcome(s.files, Err(error))
    }

    function Sign(files: FileMap, handle: bytes, message: bytes, e: Entropy): Outcome<bytes> {
      if handle !in files then Outcome(files, Err(CannotRead))
      else
        var u := UnsealBlob(files, files[handle], DEVKEY_LABEL + Stem(handle), e);
        match u.result
        case Ok(raw) =>
          Outcome(u.files, if |raw| < 32 then Err(DeviceKeyCorrupt) else Ok(lib.edSign(raw[..32], message)))
        case Err(error) => u
    }

    // -------------------------------------------------------------- what the store keeps

    /** The secret, once there, is usable. */
    predicate SecretOk(files: FileMap) {
      SecretPath(home) in files ==> |files[SecretPath(home)]| >= 32
    }

    /** A device key file opens to a seed and its public half. */
    ghost predicate HoldsKey(files: FileMap, product: bytes, seed: Block32) {
      && SecretPath(home) in files && DevKeyPath(home, product) in files
      && OpenWith(files[SecretPath(home)], files[DevKeyPath(home, product)], DEVKEY_LABEL + product)
         == Ok(seed + lib.edPublic(seed))
    }

    ghost predicate DeviceKeysOk(files: FileMap) {
      forall p: bytes {:trigger DevKeyPath(home, p)} ::
        NameOk(p) && DevKeyPath(home, p) in files ==> exists seed :: HoldsKey(files, p, seed)
    }

    ghost predicate Valid(files: FileMap) {
      SecretOk(files) && DeviceKeysOk(files)
    }

    /** Nothing about keys changes, except that a missing secret may have been created. */
    ghost predicate LeavesKeys(before: FileMap, after: FileMap) {
      && (SecretPath(home) in before ==>
            SecretPath(home) in after && after[SecretPath(home)] == before[SecretPath(home)])
      && (SecretPath(home) in after && SecretPath(home) !in before ==> |after[SecretPath(home)]| >= 32)
      && forall p: bytes {:trigger DevKeyPath(home, p)} :: NameOk(p) ==>
           && (DevKeyPath(home, p) in before <==> DevKeyPath(home, p) in after)
           && (DevKeyPath(home, p) in before ==> after[DevKeyPath(home, p)] == before[DevKeyPath(home, p)])
    }

    /** Later files keep the secret and every device key file. */
    ghost predicate Keeps(before: FileMap, after: FileMap) {
      && (SecretPath(home) in before ==>
            SecretPath(home) in after && after[SecretPath(home)] == before[SecretPath(home)])
      && forall p: bytes {:trigger DevKeyPath(home, p)} ::
           NameOk(p) && DevKeyPath(home, p) in before ==>
             DevKeyPath(home, p) in after && after[DevKeyPath(home, p)] == before[DevKeyPath(home, p)]
    }
  }

  function Lift(r: Result<bytes, Crypto.CryptoError>): Result<bytes, TpmError> {
    match r
    case Ok(v) => Ok(v)
    case Err(e) => Err(Refused(e))
  }

  // ---------------------------------------------------------------- the provider object

  class SoftwareTpmProvider {
    const spec: Provider
    const fs: FileSystem

    constructor (spec: Provider, fs: FileSystem)
      ensures this.spec == spec && this.fs == fs
    {
      this.spec, this.fs := spec, fs;
    }

    method DeriveMachineKey(aLabel: bytes, e: Entropy) returns (r: Result<bytes, TpmError>)
      modifies fs
      ensures Outcome(fs.files, r) == spec.MachineKey(old(fs.files), aLabel, e)
    {
      var path := SecretPath(spec.home);
      var secret := [];
      if path in fs.files {
        secret := fs.files[path];
        if |secret| < 32 { return Err(SecretCorrupt); }
      } else {
        secret := e.secret;
        fs.Write(path, secret);
      }
      return Ok(spec.lib.hkdf(secret, [], aLabel));
    }

    method SealBlob(data: bytes, aLabel: bytes, e: Entropy) returns (r: Result<bytes, TpmError>)
      modifies fs
      ensures Outcome(fs.files, r) == spec.SealBlob(old(fs.files), data, aLabel, e)
    {
      var key := DeriveMachineKey(aLabel, e);
      if key.Err? { return key; }
      var blob := Crypto.Aes256GcmEncrypt(spec.lib, key.value, aLabel, data, e.nonce);
      return Lift(blob);
    }

    method UnsealBlob(blob: bytes, aLabel: bytes, e: Entropy) returns (r: Result<bytes, TpmError>)
      modifies fs
      ensures Outcome(fs.files, r) == spec.UnsealBlob(old(fs.files), blob, aLabel, e)
    {
      var key := DeriveMachineKey(aLabel, e);
      if key.Err? { return key; }
      var data := Crypto.Aes256GcmDecrypt(spec.lib, key.value, aLabel, blob);
      return Lift(data);
    }

    method Seal(data: bytes, aLabel: bytes, e: Entropy) returns (r: Result<bytes, TpmError>)
      modifies fs
      ensures Outcome(fs.files, r) == spec.Seal(old(fs.files), data, aLabel, e)
    {
      r := SealBlob(data, aLabel, e);
      if r.Ok? { fs.Write(SealPath(spec.home, aLabel), r.value); }
    }

    method GetOrCreateDeviceKey(product: bytes, e: Entropy) returns (r: Result<DeviceKey, TpmError>)
      modifies fs
      ensures Outcome(fs.files, r) == spec.DeviceKeyFor(old(fs.files), product, e)
    {
      var path := DevKeyPath(spec.home, product);
      if path in fs.files {
        var raw := UnsealBlob(fs.files[path], DEVKEY_LABEL + product, e);
        if raw.Err? { return Err(raw.error); }
        if |raw.value| < 64 { return Err(DeviceKeyCorrupt); }
        return Ok(DeviceKey(raw.value[32..64], path));
      }
      var pub := spec.lib.edPublic(e.seed);
      var blob := SealBlob(e.seed + pub, DEVKEY_LABEL + product, e);
      if blob.Err? { return Err(blob.error); }
      fs.Write(path, blob.value);
      return Ok(DeviceKey(pub, path));
    }

    method SignWithDeviceKey(handle: bytes, message: bytes, e: Entropy) returns (r: Result<bytes, TpmError>)
      modifies fs
      ensures Outcome(fs.files, r) == spec.Sign(old(fs.files), handle, message, e)
    {
      var blob := fs.Read(handle);
      if blob.None? { return Err(CannotRead); }
      var raw := UnsealBlob(blob.value, DEVKEY_LABEL + Stem(handle), e);
      if raw.Err? { return raw; }
      if |raw.value| < 32 { return Err(DeviceKeyCorrupt); }
      return Ok(spec.lib.edSign(raw.value[..32], message));
    }
  }

  // ---------------------------------------------------------------- the operations written out

  /** The secret an operation works with, and the files it leaves. */
  function SecretInUse(t: Provider, files: FileMap, e: Entropy): bytes {
    if SecretPath(t.home) in files then files[SecretPath(t.home)] else e.secret
  }

  function WithSecret(t: Provider, files: FileMap, e: Entropy): FileMap {
    if SecretPath(t.home) in files then files else files[SecretPath(t.home) := e.secret]
  }

  /** The machine secret is read or, if it is missing, drawn and stored; one of fewer than 32 bytes is refused. The key
      is derived without salt, the label being the info. */
  lemma MachineKeyIs(t: Provider, files: FileMap, aLabel: bytes, e: Entropy)
    ensures t.MachineKey(files, aLabel, e)
            == Outcome(WithSecret(t, files, e),
                       if |SecretInUse(t, files, e)| < 32 then Err(SecretCorrupt)
                       else Ok(t.lib.hkdf(SecretInUse(t, files, e), [], aLabel)))
  {
  }

  /** A sealed blob is nonce, ciphertext and tag under that key, with the label as associated data. */
  lemma SealBlobIs(t: Provider, files: FileMap, data: bytes, aLabel: bytes, e: Entropy)
    ensures var secret := SecretInUse(t, files, e);
            var (ct, tag) := t.lib.gcmSeal(t.lib.hkdf(secret, [], aLabel), e.nonce, aLabel, data);
            t.SealBlob(files, data, aLabel, e)
            == Outcome(WithSecret(t, files, e), if |secret| < 32 then Err(SecretCorrupt) else Ok(e.nonce + ct + tag))
  {
    MachineKeyIs(t, files, aLabel, e);
  }

  /** Unsealing in full: what opens, and each failure. */
  lemma UnsealBlobIs(t: Provider, files: FileMap, blob: bytes, aLabel: bytes, e: Entropy)
    ensures var secret := SecretInUse(t, files, e);
            var key := t.lib.hkdf(secret, [], aLabel);
            t.UnsealBlob(files, blob, aLabel, e)
            == Outcome(WithSecret(t, files, e),
                       if |secret| < 32 then Err(SecretCorrupt)
                       else if |blob| < 28 then Err(Refused(Crypto.CiphertextTooShort))
                       else
                         match t.lib.gcmOpen(key, blob[..12], aLabel, blob[12..|blob| - 16], blob[|blob| - 16..])
                         case Some(data) => Ok(data)
                         case None => Err(Refused(Crypto.TagMismatch)))
  {
    MachineKeyIs(t, files, aLabel, e);
    Crypto.GcmDecryptIs(t.lib, t.lib.hkdf(SecretInUse(t, files, e), [], aLabel), aLabel, blob);
  }

  /** `seal` stores what it returns. */
  lemma SealIs(t: Provider, files: FileMap, data: bytes, aLabel: bytes, e: Entropy)
    ensures var s := t.SealBlob(files, data, aLabel, e);
            t.Seal(files, data, aLabel, e)
            == if s.result.Ok? then Outcome(s.files[SealPath(t.home, aLabel) := s.result.value], s.result) else s
  {
    hide SealPath;
  }

  /** A device key that is there: bytes 32 to 64 of what its file opens to under "devkey-" and the product. */
  lemma StoredKeyIs(t: Provider, files: FileMap, product: bytes, e: Entropy)
    requires DevKeyPath(t.home, product) in files
    ensures var path := DevKeyPath(t.home, product);
            var u := t.UnsealBlob(files, files[path], Ascii("devkey-") + product, e);
            var d := t.DeviceKeyFor(files, product, e);
            && d.files == u.files
            && (u.result.Err? ==> d.result == Err(u.result.error))
            && (u.result.Ok? && |u.result.value| < 64 ==> d.result == Err(DeviceKeyCorrupt))
            && (u.result.Ok? && |u.result.value| >= 64 ==>
                  d.result.Ok? && d.result.value.pub == u.result.value[32..64] && d.result.value.handle == path)
  {
  }

  /** A new one: seed and public half sealed under the same label, and written. */
  lemma NewKeyIs(t: Provider, files: FileMap, product: bytes, e: Entropy)
    requires DevKeyPath(t.home, product) !in files
    ensures var path, pub := DevKeyPath(t.home, product), t.lib.edPublic(e.seed);
            var s := t.SealBlob(files, e.seed + pub, Ascii("devkey-") + product, e);
            var d := t.DeviceKeyFor(files, product, e);
            && (s.result.Err? ==> d.files == s.files && d.result == Err(s.result.error))
            && (s.result.Ok? ==>
                  d.files == s.files[path := s.result.value] && d.result == Ok(DeviceKey(pub, path)))
  {
  }

  /** Signing uses the first 32 bytes of what the handle's file opens to. */
  lemma SignIs(t: Provider, files: FileMap, handle: bytes, message: bytes, e: Entropy)
    ensures handle !in files ==> t.Sign(files, handle, message, e) == Outcome(files, Err(CannotRead))
    ensures handle in files ==>
              var u := t.UnsealBlob(files, files[handle], Ascii("devkey-") + Stem(handle), e);
              var s := t.Sign(files, handle, message, e);
              && s.files == u.files
              && (u.result.Err? ==> s.result == u.result)
              && (u.result.Ok? && |u.result.value| < 32 ==> s.result == Err(DeviceKeyCorrupt))
              && (u.result.Ok? && |u.result.value| >= 32 ==>
                    s.result == Ok(t.lib.edSign(u.result.value[..32], message)))
  {
    hide Stem;
  }

  // ---------------------------------------------------------------- sealing

  /** Sealing succeeds over a usable secret, leaves it in place, and the blob opens under it to the sealed data. */
  lemma SealOpens(t: Provider, files: FileMap, data: bytes, aLabel: bytes, e: Entropy)
    requires GcmCorrect(t.lib) && t.SecretOk(files)
    ensures var s := t.SealBlob(files, data, aLabel, e);
            && s.files == t.Secret(files, e).files && SecretPath(t.home) in s.files && t.SecretOk(s.files)
            && s.result.Ok? && t.OpenWith(s.files[SecretPath(t.home)], s.result.value, aLabel) == Ok(data)
  {
    var secret := t.Secret(files, e).result.value;
    Crypto.GcmRoundTrip(t.lib, t.LabelKey(secret, aLabel), aLabel, data, e.nonce, [], []);
  }

  /** Unsealing is opening under the stored secret, and changes nothing once the secret is there. */
  lemma UnsealIsOpen(t: Provider, files: FileMap, blob: bytes, aLabel: bytes, e: Entropy)
    requires SecretPath(t.home) in files && t.SecretOk(files)
    ensures t.UnsealBlob(files, blob, aLabel, e)
            == Outcome(files, Lift(t.OpenWith(files[SecretPath(t.home)], blob, aLabel)))
  {
  }

  /** What is sealed under a label is unsealed under it, from any later files with the same secret. */
  lemma SealThenUnseal(t: Provider, files: FileMap, data: bytes, aLabel: bytes, e: Entropy, later: FileMap, e2: Entropy)
    requires GcmCorrect(t.lib) && t.SecretOk(files) && t.Keeps(t.Seal(files, data, aLabel, e).files, later)
    requires NameOk(aLabel)
    ensures t.Seal(files, data, aLabel, e).result.Ok?
    ensures t.UnsealBlob(later, t.Seal(files, data, aLabel, e).result.value, aLabel, e2) == Outcome(later, Ok(data))
  {
    SealOpens(t, files, data, aLabel, e);
    PathsAreDisjoint(t.home, aLabel, aLabel);
    UnsealIsOpen(t, later, t.SealBlob(files, data, aLabel, e).result.value, aLabel, e2);
  }

  // ---------------------------------------------------------------- device keys

  /** Leaving the keys alone keeps the store valid. */
  lemma LeavingKeysIsValid(t: Provider, before: FileMap, after: FileMap)
    requires t.Valid(before) && t.LeavesKeys(before, after)
    ensures t.Valid(after) && t.Keeps(before, after)
  {
    hide DevKeyPath, SecretPath;
    forall p: bytes | NameOk(p) && DevKeyPath(t.home, p) in after ensures exists seed :: t.HoldsKey(after, p, seed) {
      var seed :| t.HoldsKey(before, p, seed);
      assert t.HoldsKey(after, p, seed);
    }
  }

  lemma KeepsIsTransitive(t: Provider, a: FileMap, b: FileMap, c: FileMap)
    requires t.Keeps(a, b) && t.Keeps(b, c)
    ensures t.Keeps(a, c)
  {
  }

  /** Asking for a device key succeeds in a valid store, keeps it valid and keeps what was there; the file then holds
      the key that was returned. */
  lemma DeviceKeyIsStored(t: Provider, files: FileMap, product: bytes, e: Entropy)
    requires GcmCorrect(t.lib) && t.Valid(files) && NameOk(product)
    ensures var d := t.DeviceKeyFor(files, product, e);
            && d.result.Ok? && t.Valid(d.files) && t.Keeps(files, d.files)
            && exists seed :: t.HoldsKey(d.files, product, seed)
                              && d.result.value == DeviceKey(t.lib.edPublic(seed), DevKeyPath(t.home, product))
  {
    var d := t.DeviceKeyFor(files, product, e);
    var path := DevKeyPath(t.home, product);
    if path in files {
      var seed :| t.HoldsKey(files, product, seed);
      KeyIsRead(t, files, product, seed, e);
    } else {
      var pub: bytes := t.lib.edPublic(e.seed);
      SealOpens(t, files, e.seed + pub, DEVKEY_LABEL + product, e);
      PathsAreDisjoint(t.home, product, product);
      assert t.HoldsKey(d.files, product, e.seed);
      forall p: bytes | NameOk(p) && DevKeyPath(t.home, p) in d.files
        ensures exists seed :: t.HoldsKey(d.files, p, seed)
      {
        PathsAreDisjoint(t.home, p, product);
        if p != product {
          var seed :| t.HoldsKey(files, p, seed);
          assert t.HoldsKey(d.files, p, seed);
        }
      }
    }
  }

  /** A device key is kept under the machine secret that was there, or was created for it. */
  lemma DeviceKeySecret(t: Provider, files: FileMap, product: bytes, e: Entropy)
    requires GcmCorrect(t.lib) && t.Valid(files) && NameOk(product)
    ensures var d := t.DeviceKeyFor(files, product, e);
            SecretPath(t.home) in d.files && Ok(d.files[SecretPath(t.home)]) == t.Secret(files, e).result
  {
    var pub: bytes := t.lib.edPublic(e.seed);
    SealOpens(t, files, e.seed + pub, DEVKEY_LABEL + product, e);
    PathsAreDisjoint(t.home, product, product);
    hide SecretPath, DevKeyPath, Crypto.GcmDecrypt, Crypto.GcmEncrypt;
    if DevKeyPath(t.home, product) in files {
      var seed :| t.HoldsKey(files, product, seed);
    }
  }

  /** A stored key is returned and signs under its public half, and nothing is written. */
  lemma KeyIsRead(t: Provider, files: FileMap, product: bytes, seed: Block32, e: Entropy)
    requires t.SecretOk(files) && t.HoldsKey(files, product, seed)
    ensures t.DeviceKeyFor(files, product, e)
            == Outcome(files, Ok(DeviceKey(t.lib.edPublic(seed), DevKeyPath(t.home, product))))
  {
    UnsealIsOpen(t, files, files[DevKeyPath(t.home, product)], DEVKEY_LABEL + product, e);
    var pub: bytes := t.lib.edPublic(seed);
    assert (seed + pub)[32..64] == pub;
  }

  lemma KeySigns(t: Provider, files: FileMap, product: bytes, seed: Block32, message: bytes, e: Entropy)
    requires SignaturesVerify(t.lib) && t.SecretOk(files) && t.HoldsKey(files, product, seed) && NameOk(product)
    ensures var s := t.Sign(files, DevKeyPath(t.home, product), message, e);
            && s.files == files && s.result == Ok(t.lib.edSign(seed, message))
            && t.lib.edVerify(t.lib.edPublic(seed), message, s.result.value)
  {
    StemOfDevKeyPath(t.home, product);
    UnsealIsOpen(t, files, files[DevKeyPath(t.home, product)], DEVKEY_LABEL + product, e);
    var pub: bytes := t.lib.edPublic(seed);
    assert (seed + pub)[..32] == seed;
  }

  /** Signing with the key's handle writes nothing and verifies under the key. */
  predicate SignsUnder(t: Provider, files: FileMap, key: DeviceKey, message: bytes, e: Entropy)
  {
    var s := t.Sign(files, key.handle, message, e);
    s.files == files && s.result.Ok? && t.lib.edVerify(key.pub, message, s.result.value)
  }

  /** Once a product's device key has been handed out, asking again in any later store that kept it returns the same
      key and handle and writes nothing, and signing with that handle verifies under that key. */
  lemma DeviceKeyStable(t: Provider, files: FileMap, product: bytes, e: Entropy, later: FileMap, e2: Entropy,
                        message: bytes)
    requires CryptoLaws(t.lib) && t.Valid(files) && NameOk(product)
    requires t.Valid(later) && t.Keeps(t.DeviceKeyFor(files, product, e).files, later)
    ensures match t.DeviceKeyFor(files, product, e).result
            case Err(_) => false
            case Ok(key) =>
              && t.DeviceKeyFor(later, product, e2) == Outcome(later, Ok(key))
              && SignsUnder(t, later, key, message, e2)
  {
    DeviceKeyIsStored(t, files, product, e);
    var d := t.DeviceKeyFor(files, product, e);
    var seed :| t.HoldsKey(d.files, product, seed)
                && d.result.value == DeviceKey(t.lib.edPublic(seed), DevKeyPath(t.home, product));
    assert t.HoldsKey(later, product, seed);
    KeyIsRead(t, later, product, seed, e2);
    KeySigns(t, later, product, seed, message, e2);
  }
}
