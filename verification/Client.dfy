/** `generate_request`, `activate`, `verify_at_startup` and `deactivate` of client/src/license_client.cpp over the
    software provider, first as functions of the files, then as methods on the file system. */
module Client {
  import opened Bytes
  import opened Foreign
  import opened Files
  import opened License
  import opened SoftwareTpm
  import Base64
  import Crypto
  import Fingerprint
  import Keystore
  import Server
  import TpmLinux

  /** The server's public halves, as loaded from its key file. */
  datatype ClientKeys = ClientKeys(edPub: bytes, xPub: bytes)

  datatype ClientError =
    | NoLicense(product: bytes)
    | UnsealFailed(cause: TpmError)
    | TpmFailed(reason: TpmError)
    | BadToken(why: VerifyError)
    | FingerprintMismatch
    | PrintFailed
    | EncryptFailed(crypto: Crypto.CryptoError)

  /** What a request yields: the text to send, and the fingerprint in it for display. */
  datatype RequestResult = RequestResult(blobB64: bytes, fingerprintHash: bytes, assurance: bytes)

  datatype Activation = Activation(licenseId: bytes, productId: bytes)

  /** The fields a valid startup check reports. */
  datatype Startup = Startup(licenseId: bytes, productId: bytes, assurance: bytes, expiresAt: int64, issuedAt: int64,
                             features: seq<bytes>)

  datatype ClientOutcome<+T> = ClientOutcome(files: FileMap, result: Result<T, ClientError>)

  const LICENSE_LABEL := Ascii("license-")

  function SealLabel(product: bytes): bytes {
    LICENSE_LABEL + product
  }

  function StartupOf(r: LicenseRecord): Startup {
    Startup(r.licenseId, r.productId, r.assurance, r.expiresAt, r.issuedAt, r.features)
  }

  /** The answer of a startup check whose file opened to a token with this check. */
  function Reported(c: Result<LicenseRecord, ClientError>): Result<Startup, ClientError> {
    match c
    case Ok(r) => Ok(StartupOf(r))
    case Err(error) => Err(error)
  }

  // ---------------------------------------------------------------- the server's key file

  datatype KeyFileError = FileMissing | Malformed | InvalidKeys | WrongKeySize

  function LoadServerKeys(lib: Library, contents: Option<bytes>): Result<ClientKeys, KeyFileError> {
    if contents.None? then Err(FileMissing)
    else
      match lib.parse(contents.value)
      case None => Err(Malformed)
      case Some(j) =>
        if !j.JObj? then Err(InvalidKeys)
        else
          var x := Keystore.GetBytes(j.fields, Field.server_x25519_pub);
          var ed := Keystore.GetBytes(j.fields, Field.server_ed25519_pub);
          if x.Err? || ed.Err? then Err(InvalidKeys)
          else if |x.value| != 32 || |ed.value| != 32 then Err(WrongKeySize)
          else Ok(ClientKeys(ed.value, x.value))
  }

  /** The key file of two 32-byte keys prints, and loads as them. */
  lemma PrintedKeyFileLoads(lib: Library, xPub: Block32, edPub: Block32)
    requires JsonLaws(lib)
    ensures var j := Server.KeyFileJson(Keystore.PublicKeys(Base64.Encode(xPub), Base64.Encode(edPub)));
            lib.dump(j, 2).Some? && LoadServerKeys(lib, lib.dump(j, 2)) == Ok(ClientKeys(edPub, xPub))
  {
    var j := Server.KeyFileJson(Keystore.PublicKeys(Base64.Encode(xPub), Base64.Encode(edPub)));
    Keystore.EncodedIsText(lib, xPub);
    Keystore.EncodedIsText(lib, edPub);
    OneIsText(lib);
    hide Base64.Encode, Keystore.GetBytes, Ascii, JsonLaws;
    Server.KeyFileFields(Keystore.PublicKeys(Base64.Encode(xPub), Base64.Encode(edPub)));
    Keystore.EncodedField(j.fields, Field.server_x25519_pub, xPub);
    Keystore.EncodedField(j.fields, Field.server_ed25519_pub, edPub);
    assert AllText(lib, j);
    hide Server.KeyFileJson, AllText;
    TextPrints(lib, j, 2);
    LoadServerKeysIs(lib, lib.dump(j, 2));
    hide LoadServerKeys;
  }

  lemma OneIsText(lib: Library)
    requires JsonLaws(lib)
    ensures AllText(lib, JStr(Ascii("1"))) && lib.utf8(Ascii("1"))
  {
    assert Ascii("1") == [49];
  }

  lemma TextPrints(lib: Library, j: Json, indent: int)
    requires JsonLaws(lib) && AllText(lib, j)
    ensures lib.dump(j, indent).Some? && lib.parse(lib.dump(j, indent).value) == Some(j)
  {
    hide AllText;
  }

  /** The key file written with a new keystore loads on the client as the public halves of the stored keys. */
  lemma KeyFileLoads(lib: Library, passphrase: bytes, params: Argon2Params, tpm: Option<TpmLinux.SealProvider>,
                     e: Keystore.KeystoreEntropy, createdAt: int64)
    requires JsonLaws(lib) && Keystore.Generate(lib, passphrase, params, tpm, e, createdAt).Ok?
    ensures var g := Keystore.Generate(lib, passphrase, params, tpm, e, createdAt).value;
            var keys := Keystore.FreshKeys(lib, e);
            && lib.dump(Server.KeyFileJson(g.pub), 2).Some?
            && LoadServerKeys(lib, lib.dump(Server.KeyFileJson(g.pub), 2)) == Ok(ClientKeys(keys.edPub, keys.xPub))
  {
    hide Keystore.InnerJson, Keystore.OuterJson, Base64.Encode, Keystore.Payload, LoadServerKeys, Server.KeyFileJson;
    PrintedKeyFileLoads(lib, lib.xPublic(e.xSeed), lib.edPublic(e.edSeed));
  }

  // ---------------------------------------------------------------- specification

  /** The check both `activate` and `verify_at_startup` make of a token: signature, expiry, then fingerprint. */
  function CheckToken(lib: Library, hw: Fingerprint.Components, now: int64, token: bytes, keys: ClientKeys)
    : Result<LicenseRecord, ClientError>
  {
    match VerifyLicense(lib, token, keys.edPub, now)
    case Invalid(e) => Err(BadToken(e))
    case Valid(r) => if Fingerprint.Verify(lib, hw, r.fingerprintHash) then Ok(r) else Err(FingerprintMismatch)
  }

  function Activate(t: Provider, hw: Fingerprint.Components, files: FileMap, now: int64, token: bytes, keys: ClientKeys,
                    e: Entropy): ClientOutcome<Activation>
  {
    match CheckToken(t.lib, hw, now, token, keys)
    case Err(error) => ClientOutcome(files, Err(error))
    case Ok(r) =>
      var s := t.Seal(files, token, SealLabel(r.productId), e);
      match s.result
      case Err(error) => ClientOutcome(s.files, Err(TpmFailed(error)))
      case Ok(blob) =>
        ClientOutcome(s.files[LicPath(t.home, r.productId) := blob], Ok(Activation(r.licenseId, r.productId)))
  }

  function VerifyAtStartup(t: Provider, hw: Fingerprint.Components, files: FileMap, now: int64, product: bytes,
                           keys: ClientKeys, e: Entropy): ClientOutcome<Startup>
  {
    var path := LicPath(t.home, product);
    if path !in files then ClientOutcome(files, Err(NoLicense(product)))
    else
      var u := t.UnsealBlob(files, files[path], SealLabel(product), e);
      match u.result
      case Err(error) => ClientOutcome(u.files, Err(UnsealFailed(error)))
      case Ok(token) =>
        match CheckToken(t.lib, hw, now, token, keys)
        case Err(error) => ClientOutcome(u.files, Err(error))
        case Ok(r) => ClientOutcome(u.files, Ok(StartupOf(r)))
  }

  function Deactivate(t: Provider, files: FileMap, product: bytes): FileMap {
    files - {LicPath(t.home, product)}
  }

  /** What `generate_request` draws: for the device key, the request nonce, the ephemeral key and its nonce. */
  datatype RequestEntropy = RequestEntropy(device: Entropy, nonce: Block16, ephemeral: Block32, gcmNonce: Block12)

  function BuildRequest(lib: Library, hw: Fingerprint.Components, now: int64, product: bytes, hint: bytes,
                        devicePub: bytes, nonce: Block16): LicenseRequest
  {
    var fp := Fingerprint.Compute(lib, hw, true);
    LicenseRequest(product, hint, fp.hash, fp.assurance, Base64.Encode(devicePub), now, Base64.Encode(nonce))
  }

  function GenerateRequest(t: Provider, hw: Fingerprint.Components, files: FileMap, now: int64, product: bytes,
                           hint: bytes, keys: ClientKeys, e: RequestEntropy): ClientOutcome<RequestResult>
  {
    var d := t.DeviceKeyFor(files, product, e.device);
    match d.result
    case Err(error) => ClientOutcome(d.files, Err(TpmFailed(error)))
    case Ok(key) =>
      var q := BuildRequest(t.lib, hw, now, product, hint, key.pub, e.nonce);
      match t.lib.dump(RequestToJson(q), COMPACT)
      case None => ClientOutcome(d.files, Err(PrintFailed))
      case Some(text) =>
        match Crypto.HybridEncrypt(t.lib, keys.xPub, Server.MakeAad(product), text, e.ephemeral, e.gcmNonce)
        case Err(error) => ClientOutcome(d.files, Err(EncryptFailed(error)))
        case Ok(blob) =>
          ClientOutcome(d.files, Ok(RequestResult(Base64.Encode(blob), q.fingerprintHash, q.assurance)))
  }

  // ---------------------------------------------------------------- the client library

  class LicenseClient {
    const tpm: SoftwareTpmProvider
    const fs: FileSystem

    constructor (tpm: SoftwareTpmProvider)
      ensures this.tpm == tpm && this.fs == tpm.fs
    {
      this.tpm, this.fs := tpm, tpm.fs;
    }

    method ActivateToken(hw: Fingerprint.Components, now: int64, token: bytes, keys: ClientKeys, e: Entropy)
      returns (r: Result<Activation, ClientError>)
      requires fs == tpm.fs
      modifies fs
      ensures ClientOutcome(fs.files, r) == Activate(tpm.spec, hw, old(fs.files), now, token, keys, e)
    {
      var vr := License.VerifyToken(tpm.spec.lib, token, keys.edPub, now);
      if vr.Invalid? { return Err(BadToken(vr.error)); }
      var same := Fingerprint.VerifyFingerprint(tpm.spec.lib, hw, vr.record.fingerprintHash);
      if !same { return Err(FingerprintMismatch); }
      var blob := tpm.Seal(token, LICENSE_LABEL + vr.record.productId, e);
      if blob.Err? { return Err(TpmFailed(blob.error)); }
      fs.Write(LicPath(tpm.spec.home, vr.record.productId), blob.value);
      return Ok(Activation(vr.record.licenseId, vr.record.productId));
    }

    method VerifyLicenseAtStartup(hw: Fingerprint.Components, now: int64, product: bytes, keys: ClientKeys, e: Entropy)
      returns (r: Result<Startup, ClientError>)
      requires fs == tpm.fs
      modifies fs
      ensures ClientOutcome(fs.files, r) == VerifyAtStartup(tpm.spec, hw, old(fs.files), now, product, keys, e)
    {
      var blob := fs.Read(LicPath(tpm.spec.home, product));
      if blob.None? { return Err(NoLicense(product)); }
      var token := tpm.UnsealBlob(blob.value, LICENSE_LABEL + product, e);
      if token.Err? { return Err(UnsealFailed(token.error)); }
      var vr := License.VerifyToken(tpm.spec.lib, token.value, keys.edPub, now);
      if vr.Invalid? { return Err(BadToken(vr.error)); }
      var same := Fingerprint.VerifyFingerprint(tpm.spec.lib, hw, vr.record.fingerprintHash);
      if !same { return Err(FingerprintMismatch); }
      var rec := vr.record;
      return Ok(Startup(rec.licenseId, rec.productId, rec.assurance, rec.expiresAt, rec.issuedAt, rec.features));
    }

    /** Overwrites the file with as many random bytes as it holds, then removes it. */
    method DeactivateProduct(product: bytes, rnd: bytes) returns (ok: bool)
      requires var path := LicPath(tpm.spec.home, product); path in fs.files ==> |rnd| == |fs.files[path]|
      modifies fs
      ensures ok && fs.files == Deactivate(tpm.spec, old(fs.files), product)
    {
      var path := LicPath(tpm.spec.home, product);
      if path in fs.files {
        fs.Write(path, rnd);
        fs.Remove(path);
      }
      assert fs.files == old(fs.files) - {path};
      return true;
    }

    method MakeRequest(hw: Fingerprint.Components, now: int64, product: bytes, hint: bytes, keys: ClientKeys,
                       e: RequestEntropy)
      returns (r: Result<RequestResult, ClientError>)
      requires fs == tpm.fs
      modifies fs
      ensures ClientOutcome(fs.files, r) == GenerateRequest(tpm.spec, hw, old(fs.files), now, product, hint, keys, e)
    {
      hide Crypto.HybridEncrypt, RequestToJson, Base64.Encode, Fingerprint.Compute;
      var lib := tpm.spec.lib;
      var fp := Fingerprint.ComputeFingerprint(lib, hw, true);
      var key := tpm.GetOrCreateDeviceKey(product, e.device);
      if key.Err? { return Err(TpmFailed(key.error)); }
      var pubB64 := Base64.Base64Encode(key.value.pub);
      var nonceB64 := Base64.Base64Encode(e.nonce);
      var req := LicenseRequest(product, hint, fp.hash, fp.assurance, pubB64, now, nonceB64);
      var text := lib.dump(RequestToJson(req), COMPACT);
      if text.None? { return Err(PrintFailed); }
      var aad := Server.MakeAad(product);
      var blob := Crypto.HybridEncryptBlob(lib, keys.xPub, aad, text.value, e.ephemeral, e.gcmNonce);
      if blob.Err? { return Err(EncryptFailed(blob.error)); }
      var blobB64 := Base64.Base64Encode(blob.value);
      return Ok(RequestResult(blobB64, fp.hash, fp.assurance));
    }
  }

  // ---------------------------------------------------------------- the operations written out

  /** The client's keys: both fields in base64 and 32 bytes long, with each failure. */
  lemma LoadServerKeysIs(lib: Library, contents: Option<bytes>)
    ensures contents.None? ==> LoadServerKeys(lib, contents) == Err(FileMissing)
    ensures contents.Some? && lib.parse(contents.value) == None ==> LoadServerKeys(lib, contents) == Err(Malformed)
    ensures contents.Some? && lib.parse(contents.value).Some? && !lib.parse(contents.value).value.JObj? ==>
              LoadServerKeys(lib, contents) == Err(InvalidKeys)
    ensures contents.Some? && lib.parse(contents.value).Some? && lib.parse(contents.value).value.JObj? ==>
              var f, k := lib.parse(contents.value).value.fields, LoadServerKeys(lib, contents);
              var x := Keystore.GetBytes(f, Field.server_x25519_pub);
              var ed := Keystore.GetBytes(f, Field.server_ed25519_pub);
              && (k == Err(InvalidKeys) <==> x.Err? || ed.Err?)
              && (k == Err(WrongKeySize) <==> x.Ok? && ed.Ok? && (|x.value| != 32 || |ed.value| != 32))
              && (k.Ok? <==> x.Ok? && ed.Ok? && |x.value| == 32 && |ed.value| == 32)
              && (k.Ok? ==> Ok(k.value.xPub) == x && Ok(k.value.edPub) == ed)
  {
    hide Keystore.GetBytes;
  }

  /** The label a product's token is sealed under. */
  lemma SealLabelIs(product: bytes)
    ensures SealLabel(product) == Ascii("license-") + product
  {
  }

  /** A token is accepted exactly when it verifies and names this machine's fingerprint; the verdict comes first. */
  lemma CheckTokenIs(lib: Library, hw: Fingerprint.Components, now: int64, token: bytes, keys: ClientKeys)
    ensures var c, v := CheckToken(lib, hw, now, token, keys), VerifyLicense(lib, token, keys.edPub, now);
            && (v.Invalid? ==> c == Err(BadToken(v.error)))
            && (v.Valid? && v.record.fingerprintHash != Fingerprint.Compute(lib, hw, true).hash ==>
                  c == Err(FingerprintMismatch))
            && (v.Valid? && v.record.fingerprintHash == Fingerprint.Compute(lib, hw, true).hash ==> c == Ok(v.record))
  {
    hide VerifyLicense, Fingerprint.Compute;
  }

  /** Activation in full: an accepted token is sealed, the blob also goes into the licence file, and id and product are
      reported. */
  lemma ActivateIs(t: Provider, hw: Fingerprint.Components, files: FileMap, now: int64, token: bytes, keys: ClientKeys,
                   e: Entropy)
    ensures var c, o := CheckToken(t.lib, hw, now, token, keys), Activate(t, hw, files, now, token, keys, e);
            && (c.Err? ==> o.files == files && o.result == Err(c.error))
            && (c.Ok? ==>
                  var s := t.Seal(files, token, Ascii("license-") + c.value.productId, e);
                  && (s.result.Err? ==> o.files == s.files && o.result == Err(TpmFailed(s.result.error)))
                  && (s.result.Ok? ==>
                        && o.files == s.files[LicPath(t.home, c.value.productId) := s.result.value]
                        && o.result.Ok? && o.result.value.licenseId == c.value.licenseId
                        && o.result.value.productId == c.value.productId))
  {
    hide CheckToken, LicPath, SealPath;
  }

  /** The startup check in full: each failure, and the fields of what is reported. */
  lemma VerifyAtStartupIs(t: Provider, hw: Fingerprint.Components, files: FileMap, now: int64, product: bytes,
                          keys: ClientKeys, e: Entropy)
    ensures var path, o := LicPath(t.home, product), VerifyAtStartup(t, hw, files, now, product, keys, e);
            && (path !in files ==> o.files == files && o.result == Err(NoLicense(product)))
            && (path in files ==>
                  var u := t.UnsealBlob(files, files[path], Ascii("license-") + product, e);
                  && o.files == u.files
                  && (u.result.Err? ==> o.result == Err(UnsealFailed(u.result.error)))
                  && (u.result.Ok? ==>
                        var c := CheckToken(t.lib, hw, now, u.result.value, keys);
                        && (c.Err? ==> o.result == Err(c.error))
                        && (c.Ok? ==>
                              && o.result.Ok?
                              && o.result.value.licenseId == c.value.licenseId
                              && o.result.value.productId == c.value.productId
                              && o.result.value.assurance == c.value.assurance
                              && o.result.value.expiresAt == c.value.expiresAt
                              && o.result.value.issuedAt == c.value.issuedAt
                              && o.result.value.features == c.value.features)))
  {
    hide CheckToken, LicPath;
  }

  /** A licence file too short for a nonce and a tag is reported as one that does not unseal, whatever the keys. */
  lemma ShortFileDoesNotUnseal(t: Provider, hw: Fingerprint.Components, files: FileMap, now: int64, product: bytes,
                               keys: ClientKeys, e: Entropy)
    requires LicPath(t.home, product) in files && |files[LicPath(t.home, product)]| < 28
    ensures var r := VerifyAtStartup(t, hw, files, now, product, keys, e).result;
            r.Err? && r.error.UnsealFailed?
  {
    UnsealBlobIs(t, files, files[LicPath(t.home, product)], SealLabel(product), e);
    hide LicPath, SealLabel, CheckToken;
  }

  /** Deactivation takes away the one file and leaves every other as it is. */
  lemma DeactivateIs(t: Provider, files: FileMap, product: bytes)
    ensures var after := Deactivate(t, files, product);
            && (forall p :: p in after <==> p in files && p != LicPath(t.home, product))
            && (forall p | p in after :: after[p] == files[p])
  {
  }

  /** A request in full, field by field: what it says and in which error it may end. */
  lemma GenerateRequestIs(t: Provider, hw: Fingerprint.Components, files: FileMap, now: int64, product: bytes,
                          hint: bytes, keys: ClientKeys, e: RequestEntropy)
    ensures var d := t.DeviceKeyFor(files, product, e.device);
            var g := GenerateRequest(t, hw, files, now, product, hint, keys, e);
            && g.files == d.files
            && (d.result.Err? ==> g.result == Err(TpmFailed(d.result.error)))
            && (d.result.Ok? ==>
                  var fp := Fingerprint.Compute(t.lib, hw, true);
                  var q := LicenseRequest(productId := product, customerHint := hint, fingerprintHash := fp.hash,
                                          assurance := fp.assurance,
                                          devicePubkeyB64 := Base64.Encode(d.result.value.pub),
                                          timestamp := now, nonce := Base64.Encode(e.nonce));
                  var text := t.lib.dump(RequestToJson(q), -1);
                  if text == None then g.result == Err(PrintFailed)
                  else
                    var aad := product + Ascii("|license-client-v1.0.0");
                    match Crypto.HybridEncrypt(t.lib, keys.xPub, aad, text.value, e.ephemeral, e.gcmNonce)
                    case Err(error) => g.result == Err(EncryptFailed(error))
                    case Ok(blob) =>
                      && g.result.Ok? && g.result.value.blobB64 == Base64.Encode(blob)
                      && g.result.value.fingerprintHash == fp.hash && g.result.value.assurance == fp.assurance)
  {
    hide Crypto.HybridEncrypt, Base64.Encode, RequestToJson, Fingerprint.Compute, Ascii;
  }

  // ---------------------------------------------------------------- effect on the stores

  /** The licence file of one product is the same before and after. */
  predicate SameLic(t: Provider, before: FileMap, after: FileMap, product: bytes) {
    var path := LicPath(t.home, product);
    (path in before <==> path in after) && (path in before ==> before[path] == after[path])
  }

  /** The licence file of a product opens, under the stored secret and the product's label, to the token. */
  predicate HoldsToken(t: Provider, files: FileMap, product: bytes, token: bytes) {
    var path := LicPath(t.home, product);
    && SecretPath(t.home) in files && path in files
    && t.OpenWith(files[SecretPath(t.home)], files[path], SealLabel(product)) == Ok(token)
  }

  lemma LabelIsName(product: bytes)
    requires NameOk(product)
    ensures NameOk(SealLabel(product))
  {
    assert LICENSE_LABEL == [108, 105, 99, 101, 110, 115, 101, 45];
  }

  /** Every file one activation writes, against every file of another product and every device key. */
  lemma ActivationPaths(home: bytes, product: bytes)
    requires NameOk(product)
    ensures LicPath(home, product) !in {SealPath(home, SealLabel(product)), SecretPath(home)}
    ensures SealPath(home, SealLabel(product)) != SecretPath(home)
    ensures forall q | NameOk(q) ::
              && DevKeyPath(home, q) !in {LicPath(home, product), SealPath(home, SealLabel(product)), SecretPath(home)}
              && LicPath(home, q) !in {SealPath(home, SealLabel(product)), SecretPath(home)}
              && (q != product ==> LicPath(home, q) != LicPath(home, product))
  {
    LabelIsName(product);
    hide SecretPath, LicPath, DevKeyPath, SealPath, SealLabel;
    PathsAreDisjoint(home, product, SealLabel(product));
    PathsAreDisjoint(home, SealLabel(product), product);
    forall q | NameOk(q)
      ensures DevKeyPath(home, q) !in {LicPath(home, product), SealPath(home, SealLabel(product)), SecretPath(home)}
      ensures LicPath(home, q) !in {SealPath(home, SealLabel(product)), SecretPath(home)}
      ensures q != product ==> LicPath(home, q) != LicPath(home, product)
    {
      PathsAreDisjoint(home, q, product);
      PathsAreDisjoint(home, q, SealLabel(product));
    }
  }

  /** The provider's sealed copy of a product's token is none of the other files, and no other product's. */
  lemma SealedCopyPath(home: bytes, product: bytes, q: bytes)
    requires NameOk(product) && NameOk(q)
    ensures var sealed := SealPath(home, SealLabel(product));
            && sealed !in {SecretPath(home), DevKeyPath(home, q), LicPath(home, q)}
            && (sealed == SealPath(home, SealLabel(q)) <==> product == q)
  {
    LabelIsName(product);
    LabelIsName(q);
    PathsAreDisjoint(home, SealLabel(product), SealLabel(q));
    PathsAreDisjoint(home, q, SealLabel(product));
    assert SealLabel(product)[|LICENSE_LABEL|..] == product && SealLabel(q)[|LICENSE_LABEL|..] == q;
  }

  /** A token that passes its check is sealed and stored for its own product only; one that fails changes nothing. */
  lemma ActivateEffect(t: Provider, hw: Fingerprint.Components, files: FileMap, now: int64, token: bytes,
                       keys: ClientKeys, e: Entropy)
    requires GcmCorrect(t.lib) && t.Valid(files)
    requires var c := CheckToken(t.lib, hw, now, token, keys); c.Ok? ==> NameOk(c.value.productId)
    ensures var c, o := CheckToken(t.lib, hw, now, token, keys), Activate(t, hw, files, now, token, keys, e);
            && (c.Err? ==> o == ClientOutcome(files, Err(c.error)))
            && (c.Ok? ==>
                  && o.result == Ok(Activation(c.value.licenseId, c.value.productId))
                  && HoldsToken(t, o.files, c.value.productId, token)
                  && forall q | NameOk(q) && q != c.value.productId :: SameLic(t, files, o.files, q))
            && t.LeavesKeys(files, o.files)
  {
    hide CheckToken;
    var c := CheckToken(t.lib, hw, now, token, keys);
    if c.Ok? {
      var product := c.value.productId;
      SealOpens(t, files, token, SealLabel(product), e);
      ActivationPaths(t.home, product);
      hide SecretPath, LicPath, DevKeyPath, SealPath, SealLabel;
      StoredUnder(t, files, product, token, t.SealBlob(files, token, SealLabel(product), e));
    }
  }

  lemma StoredUnder(t: Provider, files: FileMap, product: bytes, token: bytes, s: Outcome<bytes>)
    requires t.DeviceKeysOk(files) && NameOk(product)
    requires s.result.Ok? && SecretPath(t.home) in s.files && |s.files[SecretPath(t.home)]| >= 32
    requires || s.files == files
             || (SecretPath(t.home) !in files && s.files == files[SecretPath(t.home) := s.files[SecretPath(t.home)]])
    requires t.OpenWith(s.files[SecretPath(t.home)], s.result.value, SealLabel(product)) == Ok(token)
    ensures var stored := s.files[SealPath(t.home, SealLabel(product)) := s.result.value]
                                 [LicPath(t.home, product) := s.result.value];
            && HoldsToken(t, stored, product, token)
            && t.LeavesKeys(files, stored)
            && forall q | NameOk(q) && q != product :: SameLic(t, files, stored, q)
  {
    ActivationPaths(t.home, product);
    hide SecretPath, LicPath, DevKeyPath, SealPath, SealLabel;
  }

  /** A startup check writes nothing but a machine secret where there was none. */
  lemma StartupEffect(t: Provider, hw: Fingerprint.Components, files: FileMap, now: int64, product: bytes,
                      keys: ClientKeys, e: Entropy)
    ensures var o := VerifyAtStartup(t, hw, files, now, product, keys, e);
            && t.LeavesKeys(files, o.files)
            && forall q | NameOk(q) :: SameLic(t, files, o.files, q)
    ensures LicPath(t.home, product) !in files ==>
              VerifyAtStartup(t, hw, files, now, product, keys, e) == ClientOutcome(files, Err(NoLicense(product)))
  {
    hide CheckToken;
    hide SecretPath, LicPath, DevKeyPath;
    forall q | NameOk(q)
      ensures DevKeyPath(t.home, q) != SecretPath(t.home) && LicPath(t.home, q) != SecretPath(t.home)
    {
      PathsAreDisjoint(t.home, q, q);
    }
  }

  /** Where a product's file holds a token, its startup check is the check of that token. */
  lemma StartupChecksToken(t: Provider, hw: Fingerprint.Components, files: FileMap, now: int64, product: bytes,
                           keys: ClientKeys, e: Entropy, token: bytes)
    requires t.SecretOk(files) && HoldsToken(t, files, product, token)
    ensures VerifyAtStartup(t, hw, files, now, product, keys, e)
            == ClientOutcome(files, Reported(CheckToken(t.lib, hw, now, token, keys)))
  {
    hide CheckToken;
    UnsealIsOpen(t, files, files[LicPath(t.home, product)], SealLabel(product), e);
  }

  /** Asking for a device key writes no licence file. */
  lemma DeviceKeyEffect(t: Provider, files: FileMap, product: bytes, e: Entropy)
    requires NameOk(product)
    ensures forall q | NameOk(q) :: SameLic(t, files, t.DeviceKeyFor(files, product, e).files, q)
  {
    hide SecretPath, LicPath, DevKeyPath;
    forall q | NameOk(q)
      ensures LicPath(t.home, q) !in {DevKeyPath(t.home, product), SecretPath(t.home)}
    {
      PathsAreDisjoint(t.home, product, q);
      PathsAreDisjoint(t.home, q, product);
    }
  }

  // ---------------------------------------------------------------- the Linux TPM instead

  /** Sealed by the Linux TPM backend, a token comes back whole exactly when its payload has at most 27 bytes. */
  lemma LinuxTpmKeepsTokenIff(device: TpmLinux.Tpm2, payload: bytes, sig: Block64, product: bytes)
    requires TpmLinux.IdealTpm(device)
    ensures var token := License.Token(payload, sig);
            var blob := TpmLinux.Seal(device, token, SealLabel(product));
            blob.Ok? && (TpmLinux.Unseal(device, blob.value, SealLabel(product)) == Ok(token) <==> |payload| <= 27)
  {
    hide Base64.Encode, TpmLinux.Seal, TpmLinux.Unseal;
    Base64.EncodeLength(payload);
    Base64.EncodeLength(sig);
    TpmLinux.SealRoundTrip(device, License.Token(payload, sig), SealLabel(product), SealLabel(product));
  }

  // ---------------------------------------------------------------- request binding

  lemma AssuranceIsAscii(b: bool)
    ensures var a := Ascii(if b then "hardware" else "software"); forall c | c in a :: c < 128
  {
    assert Ascii("hardware") == [104, 97, 114, 100, 119, 97, 114, 101];
    assert Ascii("software") == [115, 111, 102, 116, 119, 97, 114, 101];
  }

  /** The request is text when its product and hint are. */
  lemma RequestPrints(lib: Library, hw: Fingerprint.Components, now: int64, product: bytes, hint: bytes,
                      devicePub: bytes, nonce: Block16)
    requires JsonLaws(lib) && lib.utf8(product) && lib.utf8(hint)
    ensures RequestIsText(lib, BuildRequest(lib, hw, now, product, hint, devicePub, nonce))
  {
    hide Base64.Encode, Fingerprint.Compute, AllText;
    Fingerprint.HashShape(lib, hw, true);
    AssuranceIsAscii(Fingerprint.Compute(lib, hw, true).tpmBound);
    Fingerprint.AssuranceOf(lib, hw, true);
    Base64.EncodeIsAscii(devicePub);
    Base64.EncodeIsAscii(nonce);
  }

  /** Asking for a request succeeds for every product and hint that is text, in any valid store. */
  lemma RequestSucceeds(t: Provider, hw: Fingerprint.Components, files: FileMap, now: int64, product: bytes,
                        hint: bytes, recipient: Block32, edPub: bytes, e: RequestEntropy)
    requires Laws(t.lib) && t.Valid(files) && NameOk(product) && t.lib.utf8(product) && t.lib.utf8(hint)
    ensures var g := GenerateRequest(t, hw, files, now, product, hint, ClientKeys(edPub, t.lib.xPublic(recipient)), e);
            g.result.Ok? && t.Valid(g.files) && t.Keeps(files, g.files)
  {
    hide RequestToJson, Base64.Encode, Crypto.HybridEncrypt, BuildRequest, RequestIsText;
    DeviceKeyIsStored(t, files, product, e.device);
    var pub := t.DeviceKeyFor(files, product, e.device).result.value.pub;
    var q := BuildRequest(t.lib, hw, now, product, hint, pub, e.nonce);
    RequestPrints(t.lib, hw, now, product, hint, pub, e.nonce);
    PrintedRequestParses(t.lib, q);
    var text := t.lib.dump(RequestToJson(q), COMPACT).value;
    Crypto.HybridRoundTrip(t.lib, recipient, Server.MakeAad(product), text, e.ephemeral, e.gcmNonce, []);
  }

  /** The text inside a request that was made. */
  function RequestText(t: Provider, hw: Fingerprint.Components, files: FileMap, now: int64, product: bytes, hint: bytes,
                       e: RequestEntropy): bytes
  {
    var d := t.DeviceKeyFor(files, product, e.device).result;
    if d.Err? then []
    else t.lib.dump(RequestToJson(BuildRequest(t.lib, hw, now, product, hint, d.value.pub, e.nonce)), COMPACT).GetOr([])
  }

  /** A request made for one product is decrypted by the server under the associated data of that product to exactly
      the request that was built, and, where its ciphertext is ideal, not under another product's. */
  lemma RequestDecrypts(t: Provider, hw: Fingerprint.Components, files: FileMap, now: int64, product: bytes,
                        hint: bytes, recipient: Block32, edPub: bytes, e: RequestEntropy, other: bytes)
    requires Laws(t.lib)
    requires var keys := ClientKeys(edPub, t.lib.xPublic(recipient));
             GenerateRequest(t, hw, files, now, product, hint, keys, e).result.Ok?
    requires Crypto.RejectsRequest(t.lib, recipient, Server.MakeAad(product),
                                   RequestText(t, hw, files, now, product, hint, e), e.ephemeral, e.gcmNonce,
                                   Server.MakeAad(other))
    ensures var g := GenerateRequest(t, hw, files, now, product, hint, ClientKeys(edPub, t.lib.xPublic(recipient)), e);
            var pub := t.DeviceKeyFor(files, product, e.device).result.value.pub;
            var q := BuildRequest(t.lib, hw, now, product, hint, pub, e.nonce);
            && Server.DecryptRequest(t.lib, recipient, product, g.result.value.blobB64) == Ok(q)
            && g.result.value.fingerprintHash == q.fingerprintHash && g.result.value.assurance == q.assurance
            && q.productId == product && q.customerHint == hint && q.timestamp == now
            && q.fingerprintHash == Fingerprint.Compute(t.lib, hw, true).hash
            && q.assurance == Fingerprint.Compute(t.lib, hw, true).assurance
            && Base64.Decode(q.devicePubkeyB64) == Ok(pub) && Base64.Decode(q.nonce) == Ok(e.nonce)
            && (other != product ==> Server.DecryptRequest(t.lib, recipient, other, g.result.value.blobB64).Err?)
  {
    hide RequestToJson, Base64.Encode, Base64.Decode, Crypto.HybridEncrypt, Crypto.HybridDecrypt, BuildRequest;
    hide Server.MakeAad, ParseRequest;
    var pub := t.DeviceKeyFor(files, product, e.device).result.value.pub;
    var q := BuildRequest(t.lib, hw, now, product, hint, pub, e.nonce);
    RequestSays(t.lib, hw, now, product, hint, pub, e.nonce);
    PrintedRequestParses(t.lib, q);
    var text := t.lib.dump(RequestToJson(q), COMPACT).value;
    var aad, otherAad := Server.MakeAad(product), Server.MakeAad(other);
    var blob := Crypto.HybridEncrypt(t.lib, t.lib.xPublic(recipient), aad, text, e.ephemeral, e.gcmNonce).value;
    Base64.EncodeThenDecode(blob);
    Crypto.HybridRoundTrip(t.lib, recipient, aad, text, e.ephemeral, e.gcmNonce, aad);
    Crypto.HybridRoundTrip(t.lib, recipient, aad, text, e.ephemeral, e.gcmNonce, otherAad);
    if otherAad == aad { Server.AadInjective(other, product); }
  }

  /** What a request says, in terms of what it was made from. */
  lemma RequestSays(lib: Library, hw: Fingerprint.Components, now: int64, product: bytes, hint: bytes, devicePub: bytes,
                    nonce: Block16)
    ensures var q := BuildRequest(lib, hw, now, product, hint, devicePub, nonce);
            && q.productId == product && q.customerHint == hint && q.timestamp == now
            && q.fingerprintHash == Fingerprint.Compute(lib, hw, true).hash
            && q.assurance == Fingerprint.Compute(lib, hw, true).assurance
            && Base64.Decode(q.devicePubkeyB64) == Ok(devicePub) && Base64.Decode(q.nonce) == Ok(nonce)
  {
    Base64.EncodeThenDecode(devicePub);
    Base64.EncodeThenDecode(nonce);
    hide Base64.Encode, Base64.Decode, Fingerprint.Compute;
  }

  /** The key in a request is the device key: what is signed with its handle, then or later, verifies under it. */
  lemma RequestNamesDeviceKey(t: Provider, hw: Fingerprint.Components, files: FileMap, now: int64, product: bytes,
                              hint: bytes, recipient: Block32, edPub: bytes, e: RequestEntropy, later: FileMap,
                              e2: Entropy, message: bytes)
    requires Laws(t.lib) && t.Valid(files) && NameOk(product)
    requires var keys := ClientKeys(edPub, t.lib.xPublic(recipient));
             var g := GenerateRequest(t, hw, files, now, product, hint, keys, e);
             g.result.Ok? && t.Valid(later) && t.Keeps(g.files, later)
    ensures var keys := ClientKeys(edPub, t.lib.xPublic(recipient));
            var g := GenerateRequest(t, hw, files, now, product, hint, keys, e);
            match Server.DecryptRequest(t.lib, recipient, product, g.result.value.blobB64)
            case Err(_) => false
            case Ok(q) =>
              match Base64.Decode(q.devicePubkeyB64)
              case Err(_) => false
              case Ok(pub) =>
                |pub| == 32 && SignsUnder(t, later, DeviceKey(pub, DevKeyPath(t.home, product)), message, e2)
  {
    RequestDecrypts(t, hw, files, now, product, hint, recipient, edPub, e, product);
    hide RequestToJson, Base64.Encode, Base64.Decode, Crypto.HybridEncrypt, BuildRequest, Server.DecryptRequest;
    hide Server.MakeAad, SignsUnder;
    DeviceKeyStable(t, files, product, e.device, later, e2, message);
    DeviceKeyIsStored(t, files, product, e.device);
  }

  /** A server issues a licence for a request exactly when the order names the request's product, the request is 0 to
      86400 seconds old when it is checked, and the record can be printed; the record then carries the requester's
      fingerprint. */
  lemma RequestBinding(t: Provider, hw: Fingerprint.Components, files: FileMap, now: int64, product: bytes, hint: bytes,
                       keys: Keystore.ServerKeys, recipient: Block32, edPub: bytes, e: RequestEntropy,
                       order: Server.Order, checkedAt: int64, issuedAt: int64, rnd: Block16)
    requires Laws(t.lib) && keys.xPriv == recipient && |keys.edPriv| >= 32 && checkedAt >= 0
    requires var client := ClientKeys(edPub, t.lib.xPublic(recipient));
             GenerateRequest(t, hw, files, now, product, hint, client, e).result.Ok?
    requires Crypto.RejectsRequest(t.lib, recipient, Server.MakeAad(product),
                                   RequestText(t, hw, files, now, product, hint, e), e.ephemeral, e.gcmNonce,
                                   Server.MakeAad(order.product))
    ensures var g := GenerateRequest(t, hw, files, now, product, hint, ClientKeys(edPub, t.lib.xPublic(recipient)), e);
            var pub := t.DeviceKeyFor(files, product, e.device).result.value.pub;
            var q := BuildRequest(t.lib, hw, now, product, hint, pub, e.nonce);
            var record := Server.BuildRecord(q, order, issuedAt, rnd);
            var issued := Server.Issue(t.lib, keys, g.result.value.blobB64, order, checkedAt, issuedAt, rnd);
            && (issued.Ok? <==>
                  && order.product == product
                  && 0 <= checkedAt - now <= 86400
                  && t.lib.dump(RecordToJson(record), COMPACT).Some?)
            && (issued.Ok? ==>
                  && issued.value.record == record
                  && record.fingerprintHash == Fingerprint.Compute(t.lib, hw, true).hash
                  && record.fingerprintHash == g.result.value.fingerprintHash
                  && issued.value.token == SignLicense(t.lib, record, keys.edPriv).value)
  {
    RequestDecrypts(t, hw, files, now, product, hint, recipient, edPub, e, order.product);
    FreshIff(now, checkedAt, Server.MAX_AGE);
    Fingerprint.HashShape(t.lib, hw, true);
    hide Server.DecryptRequest, GenerateRequest, TimestampIsFresh, Fingerprint.Compute, RequestText, RecordToJson;
    hide UuidV4, Server.Features, Server.ExpiresAt, Crypto.RejectsRequest;
  }
}
