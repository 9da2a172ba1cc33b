/** The encrypted server keystore of common/src/keystore.cpp. */
module Keystore {
  import opened Bytes
  import opened Foreign
  import opened Files
  import opened TpmLinux
  import opened License
  import Base64
  import Crypto

  /** The decrypted keystore; the signing key is a seed and its public half. */
  datatype ServerKeys = ServerKeys(xPriv: bytes, xPub: bytes, edPriv: bytes, edPub: bytes)

  datatype PublicKeys = PublicKeys(xPubB64: bytes, edPubB64: bytes)

  datatype KeystoreError =
    | CannotOpen
    | ParseFailed
    | VersionMismatch
    | BadField
    | BadBase64Field
    | Argon2Failed
    | NoTpm
    | TpmSealFailed
    | TpmUnsealFailed
    | MasterKeyMismatch
    | DecryptFailed
    | InnerParseFailed
    | PrintFailed

  /** What generation draws: two key seeds, the salt and the nonce. */
  datatype KeystoreEntropy = KeystoreEntropy(xSeed: Block32, edSeed: Block32, salt: Block16, nonce: Block12)

  datatype Generated = Generated(contents: bytes, pub: PublicKeys)

  const KEYSTORE_VERSION := 1
  const KEYSTORE_AAD := Ascii("keystore-v1")
  const MASTER_LABEL := Ascii("keystore-master")

  // ---------------------------------------------------------------- the two JSON objects

  function FreshKeys(lib: Library, e: KeystoreEntropy): ServerKeys {
    ServerKeys(e.xSeed, lib.xPublic(e.xSeed), e.edSeed + lib.edPublic(e.edSeed), lib.edPublic(e.edSeed))
  }

  function InnerJson(keys: ServerKeys, createdAt: int64): Json {
    JObj(map[
      Field.created_at := JInt(createdAt),
      Field.server_x25519_priv_b64 := JStr(Base64.Encode(keys.xPriv)),
      Field.server_x25519_pub_b64 := JStr(Base64.Encode(keys.xPub)),
      Field.server_ed25519_priv_b64 := JStr(Base64.Encode(keys.edPriv)),
      Field.server_ed25519_pub_b64 := JStr(Base64.Encode(keys.edPub))])
  }

  function CostJson(params: Argon2Params, salt: bytes): Json {
    JObj(map[
      Field.t_cost := JInt(params.tCost),
      Field.m_cost := JInt(params.mCost),
      Field.parallelism := JInt(params.parallelism),
      Field.salt_b64 := JStr(Base64.Encode(salt))])
  }

  function OuterJson(params: Argon2Params, salt: bytes, payload: bytes, tpmBlob: Option<bytes>): (j: Json)
    ensures j.JObj?
  {
    var fields := map[
      Field.version := JInt(KEYSTORE_VERSION),
      Field.tpm_sealed := JBool(tpmBlob.Some?),
      Field.argon2id := CostJson(params, salt),
      Field.payload_b64 := JStr(Base64.Encode(payload))];
    JObj(if tpmBlob.Some? then fields[Field.tpm_blob_b64 := JStr(Base64.Encode(tpmBlob.value))] else fields)
  }

  // ---------------------------------------------------------------- generate

  function Generate(lib: Library, passphrase: bytes, params: Argon2Params, tpm: Option<SealProvider>,
                    e: KeystoreEntropy, createdAt: int64): Result<Generated, KeystoreError>
  {
    var keys := FreshKeys(lib, e);
    match lib.dump(InnerJson(keys, createdAt), COMPACT)
    case None => Err(PrintFailed)
    case Some(inner) =>
      match lib.argon2(passphrase, e.salt, params)
      case None => Err(Argon2Failed)
      case Some(master) =>
        var tpmBlob := SealedMaster(tpm, master);
        if tpm.Some? && tpmBlob.None? then Err(TpmSealFailed)
        else
          var payload := Payload(lib, master, inner, e.nonce);
          match lib.dump(OuterJson(params, e.salt, payload, tpmBlob), 2)
          case None => Err(PrintFailed)
          case Some(contents) =>
            Ok(Generated(contents, PublicKeys(Base64.Encode(keys.xPub), Base64.Encode(keys.edPub))))
  }

  /** The provider's blob of the master key, if there is a provider and it can seal. */
  function SealedMaster(tpm: Option<SealProvider>, master: bytes): Option<bytes> {
    if tpm.Some? then tpm.value.seal(master, MASTER_LABEL) else None
  }

  function Payload(lib: Library, master: Block32, inner: bytes, nonce: Block12): bytes {
    Crypto.GcmEncrypt(lib, master, KEYSTORE_AAD, inner, nonce).value
  }

  method GenerateKeystore(lib: Library, fs: FileSystem, path: bytes, passphrase: bytes, params: Argon2Params,
                          tpm: Option<SealProvider>, e: KeystoreEntropy, createdAt: int64)
    returns (r: Result<PublicKeys, KeystoreError>)
    modifies fs
    ensures match Generate(lib, passphrase, params, tpm, e, createdAt)
            case Ok(g) => r == Ok(g.pub) && fs.files == old(fs.files)[path := g.contents]
            case Err(error) => r == Err(error) && fs.files == old(fs.files)
  {
    hide InnerJson, OuterJson, Base64.Encode;
    var xPub, edPub := lib.xPublic(e.xSeed), lib.edPublic(e.edSeed);
    var keys := ServerKeys(e.xSeed, xPub, e.edSeed + edPub, edPub);
    var inner := lib.dump(InnerJson(keys, createdAt), COMPACT);
    if inner.None? { return Err(PrintFailed); }
    var master := lib.argon2(passphrase, e.salt, params);
    if master.None? { return Err(Argon2Failed); }
    var tpmBlob := None;
    if tpm.Some? {
      tpmBlob := tpm.value.seal(master.value, MASTER_LABEL);
      if tpmBlob.None? { return Err(TpmSealFailed); }
      master := lib.argon2(passphrase, e.salt, params);
    }
    var ciphertext := Crypto.Aes256GcmEncrypt(lib, master.value, KEYSTORE_AAD, inner.value, e.nonce);
    var outer := lib.dump(OuterJson(params, e.salt, ciphertext.value, tpmBlob), 2);
    if outer.None? { return Err(PrintFailed); }
    fs.Write(path, outer.value);
    var xPubB64 := Base64.Base64Encode(xPub);
    var edPubB64 := Base64.Base64Encode(edPub);
    return Ok(PublicKeys(xPubB64, edPubB64));
  }

  // ---------------------------------------------------------------- load

  /** A base64 field: missing or of another type, or not base64, or its bytes. */
  function GetBytes(fields: map<Field, Json>, key: Field): Result<bytes, KeystoreError> {
    match GetStr(fields, key)
    case None => Err(BadField)
    case Some(text) =>
      match Base64.Decode(text)
      case Ok(b) => Ok(b)
      case Err(_) => Err(BadBase64Field)
  }

  datatype Outer = Outer(sealed: bool, params: Argon2Params, salt: bytes, fields: map<Field, Json>)

  /** Version, sealing flag, cost parameters and salt, in the order they are read. */
  function ReadOuter(lib: Library, contents: bytes): Result<Outer, KeystoreError> {
    match lib.parse(contents)
    case None => Err(ParseFailed)
    case Some(j) =>
      if !j.JObj? then Err(BadField)
      else
        var v := if Field.version in j.fields then GetInt(j.fields, Field.version) else Some(0);
        var sealed := if Field.tpm_sealed in j.fields then j.fields[Field.tpm_sealed] else JBool(false);
        if v.None? then Err(BadField)
        else if WrapInt32(v.value) != KEYSTORE_VERSION then Err(VersionMismatch)
        else if !sealed.JBool? || Field.argon2id !in j.fields || !j.fields[Field.argon2id].JObj? then Err(BadField)
        else
          var a2 := j.fields[Field.argon2id].fields;
          var t, m, p := GetInt(a2, Field.t_cost), GetInt(a2, Field.m_cost), GetInt(a2, Field.parallelism);
          if t.None? || m.None? || p.None? then Err(BadField)
          else
            match GetBytes(a2, Field.salt_b64)
            case Err(e) => Err(e)
            case Ok(salt) =>
              var params := Argon2Params(WrapUint32(t.value), WrapUint32(m.value), WrapUint32(p.value));
              Ok(Outer(sealed.b, params, salt, j.fields))
  }

  /** The check of a TPM-sealed keystore: the provider must unseal exactly the derived master key. */
  function CheckSealed(outer: Outer, master: bytes, tpm: Option<SealProvider>): Option<KeystoreError> {
    if !outer.sealed then None
    else if tpm.None? then Some(NoTpm)
    else
      match GetBytes(outer.fields, Field.tpm_blob_b64)
      case Err(e) => Some(e)
      case Ok(blob) =>
        match tpm.value.unseal(blob, MASTER_LABEL)
        case None => Some(TpmUnsealFailed)
        case Some(unsealed) => if unsealed != master then Some(MasterKeyMismatch) else None
  }

  function ReadInner(lib: Library, plain: bytes): Result<ServerKeys, KeystoreError> {
    match lib.parse(plain)
    case None => Err(InnerParseFailed)
    case Some(j) =>
      if !j.JObj? then Err(BadField)
      else
        var xPriv := GetBytes(j.fields, Field.server_x25519_priv_b64);
        var xPub := GetBytes(j.fields, Field.server_x25519_pub_b64);
        var edPriv := GetBytes(j.fields, Field.server_ed25519_priv_b64);
        var edPub := GetBytes(j.fields, Field.server_ed25519_pub_b64);
        if xPriv.Err? then Err(xPriv.error)
        else if xPub.Err? then Err(xPub.error)
        else if edPriv.Err? then Err(edPriv.error)
        else if edPub.Err? then Err(edPub.error)
        else Ok(ServerKeys(xPriv.value, xPub.value, edPriv.value, edPub.value))
  }

  function Load(lib: Library, contents: bytes, passphrase: bytes, tpm: Option<SealProvider>)
    : Result<ServerKeys, KeystoreError>
  {
    match ReadOuter(lib, contents)
    case Err(e) => Err(e)
    case Ok(outer) =>
      match lib.argon2(passphrase, outer.salt, outer.params)
      case None => Err(Argon2Failed)
      case Some(master) =>
        match CheckSealed(outer, master, tpm)
        case Some(e) => Err(e)
        case None =>
          match GetBytes(outer.fields, Field.payload_b64)
          case Err(e) => Err(e)
          case Ok(payload) =>
            match Crypto.GcmDecrypt(lib, master, KEYSTORE_AAD, payload)
            case Err(_) => Err(DecryptFailed)
            case Ok(plain) => ReadInner(lib, plain)
  }

  method LoadKeystore(lib: Library, fs: FileSystem, path: bytes, passphrase: bytes, tpm: Option<SealProvider>)
    returns (r: Result<ServerKeys, KeystoreError>)
    ensures r == if path in fs.files then Load(lib, fs.files[path], passphrase, tpm) else Err(CannotOpen)
  {
    hide ReadOuter, ReadInner, GetBytes;
    var raw := fs.Read(path);
    if raw.None? { return Err(CannotOpen); }
    var outer := ReadOuter(lib, raw.value);
    if outer.Err? { return Err(outer.error); }
    var master := lib.argon2(passphrase, outer.value.salt, outer.value.params);
    if master.None? { return Err(Argon2Failed); }
    if outer.value.sealed {
      if tpm.None? { return Err(NoTpm); }
      var blob := GetBytes(outer.value.fields, Field.tpm_blob_b64);
      if blob.Err? { return Err(blob.error); }
      var unsealed := tpm.value.unseal(blob.value, MASTER_LABEL);
      if unsealed.None? { return Err(TpmUnsealFailed); }
      var same := Crypto.CtEqual(master.value, unsealed.value);
      if !same { return Err(MasterKeyMismatch); }
    }
    var payload := GetBytes(outer.value.fields, Field.payload_b64);
    if payload.Err? { return Err(payload.error); }
    var plain := Crypto.Aes256GcmDecrypt(lib, master.value, KEYSTORE_AAD, payload.value);
    if plain.Err? { return Err(DecryptFailed); }
    return ReadInner(lib, plain.value);
  }

  // ---------------------------------------------------------------- the file written out

  lemma FreshKeysAre(lib: Library, e: KeystoreEntropy)
    ensures var k := FreshKeys(lib, e);
            && k.xPriv == e.xSeed && k.xPub == lib.xPublic(e.xSeed)
            && |k.edPriv| == 64 && k.edPriv[..32] == e.edSeed && k.edPriv[32..] == lib.edPublic(e.edSeed)
            && k.edPub == lib.edPublic(e.edSeed)
  {
    var seed: bytes := e.edSeed;
    assert (seed + lib.edPublic(e.edSeed))[..32] == seed;
    assert (seed + lib.edPublic(e.edSeed))[32..] == lib.edPublic(e.edSeed);
  }

  /** The encrypted part, field by field. */
  lemma InnerFields(keys: ServerKeys, createdAt: int64)
    ensures var j := InnerJson(keys, createdAt);
            && j.JObj? && |j.fields| == 5
            && (forall k | k in [Field.created_at, Field.server_x25519_priv_b64, Field.server_x25519_pub_b64,
                                 Field.server_ed25519_priv_b64, Field.server_ed25519_pub_b64] :: k in j.fields)
            && j.fields[Field.created_at] == JInt(createdAt)
            && j.fields[Field.server_x25519_priv_b64] == JStr(Base64.Encode(keys.xPriv))
            && j.fields[Field.server_x25519_pub_b64] == JStr(Base64.Encode(keys.xPub))
            && j.fields[Field.server_ed25519_priv_b64] == JStr(Base64.Encode(keys.edPriv))
            && j.fields[Field.server_ed25519_pub_b64] == JStr(Base64.Encode(keys.edPub))
  {
    hide Base64.Encode;
  }

  lemma CostFields(params: Argon2Params, salt: bytes)
    ensures var j := CostJson(params, salt);
            && j.JObj? && |j.fields| == 4
            && (forall k | k in [Field.t_cost, Field.m_cost, Field.parallelism, Field.salt_b64] :: k in j.fields)
            && j.fields[Field.t_cost] == JInt(params.tCost) && j.fields[Field.m_cost] == JInt(params.mCost)
            && j.fields[Field.parallelism] == JInt(params.parallelism)
            && j.fields[Field.salt_b64] == JStr(Base64.Encode(salt))
  {
    hide Base64.Encode;
  }

  /** The readable part, field by field; the TPM's blob is there exactly when the keystore is sealed. */
  lemma OuterFieldsAre(params: Argon2Params, salt: bytes, payload: bytes, tpmBlob: Option<bytes>)
    ensures var j := OuterJson(params, salt, payload, tpmBlob);
            && |j.fields| == (if tpmBlob.Some? then 5 else 4)
            && (forall k | k in [Field.version, Field.tpm_sealed, Field.argon2id, Field.payload_b64] :: k in j.fields)
            && j.fields[Field.version] == JInt(1) && j.fields[Field.tpm_sealed] == JBool(tpmBlob.Some?)
            && j.fields[Field.payload_b64] == JStr(Base64.Encode(payload))
            && (Field.tpm_blob_b64 in j.fields <==> tpmBlob.Some?)
            && (tpmBlob.Some? ==> j.fields[Field.tpm_blob_b64] == JStr(Base64.Encode(tpmBlob.value)))
            && j.fields[Field.argon2id].JObj?
            && var c := j.fields[Field.argon2id].fields;
               && |c| == 4
               && (forall k | k in [Field.t_cost, Field.m_cost, Field.parallelism, Field.salt_b64] :: k in c)
               && c[Field.t_cost] == JInt(params.tCost) && c[Field.m_cost] == JInt(params.mCost)
               && c[Field.parallelism] == JInt(params.parallelism)
               && c[Field.salt_b64] == JStr(Base64.Encode(salt))
  {
    CostFields(params, salt);
    hide Base64.Encode, CostJson;
  }

  /** Generation in full: the inner text encrypted under the derived key with "keystore-v1", that key sealed with the
      label "keystore-master" if there is a provider, and each failure. */
  lemma GenerateIs(lib: Library, passphrase: bytes, params: Argon2Params, tpm: Option<SealProvider>,
                   e: KeystoreEntropy, createdAt: int64)
    ensures var keys := FreshKeys(lib, e);
            var g := Generate(lib, passphrase, params, tpm, e, createdAt);
            match (lib.dump(InnerJson(keys, createdAt), -1), lib.argon2(passphrase, e.salt, params))
            case (None, _) => g == Err(PrintFailed)
            case (Some(_), None) => g == Err(Argon2Failed)
            case (Some(inner), Some(master)) =>
              var blob := if tpm.Some? then tpm.value.seal(master, Ascii("keystore-master")) else None;
              var (ct, tag) := lib.gcmSeal(master, e.nonce, Ascii("keystore-v1"), inner);
              if tpm.Some? && blob == None then g == Err(TpmSealFailed)
              else
                match lib.dump(OuterJson(params, e.salt, e.nonce + ct + tag, blob), 2)
                case None => g == Err(PrintFailed)
                case Some(contents) =>
                  && g.Ok? && g.value.contents == contents
                  && g.value.pub.xPubB64 == Base64.Encode(keys.xPub)
                  && g.value.pub.edPubB64 == Base64.Encode(keys.edPub)
  {
    hide InnerJson, OuterJson, Base64.Encode, FreshKeys;
  }

  lemma GetBytesIs(fields: map<Field, Json>, key: Field)
    ensures var b := GetBytes(fields, key);
            && (b == Err(BadField) <==> key !in fields || !fields[key].JStr?)
            && (key in fields && fields[key].JStr? ==>
                  match Base64.Decode(fields[key].s)
                  case Ok(v) => b == Ok(v)
                  case Err(_) => b == Err(BadBase64Field))
  {
    hide Base64.Decode;
  }

  ghost predicate NumberLike(f: map<Field, Json>, key: Field) {
    key in f && (f[key].JInt? || f[key].JBool?)
  }

  /** What is read from the readable part: a missing version is 0, a missing sealing flag is false, and everything else
      must be there. */
  lemma ReadOuterIs(lib: Library, contents: bytes)
    requires lib.parse(contents).Some? && lib.parse(contents).value.JObj?
    ensures var f := lib.parse(contents).value.fields;
            var o := ReadOuter(lib, contents);
            && (Field.version !in f ==> o == Err(VersionMismatch))
            && (Field.version in f && f[Field.version].JInt? && WrapInt32(f[Field.version].n) != 1 ==>
                  o == Err(VersionMismatch))
            && (o.Ok? ==>
                  && (Field.tpm_sealed in f ==> f[Field.tpm_sealed].JBool?)
                  && o.value.sealed == (Field.tpm_sealed in f && f[Field.tpm_sealed].b)
                  && Field.argon2id in f && f[Field.argon2id].JObj? && o.value.fields == f
                  && var c := f[Field.argon2id].fields;
                     && NumberLike(c, Field.t_cost) && NumberLike(c, Field.m_cost) && NumberLike(c, Field.parallelism)
                     && Ok(o.value.salt) == GetBytes(c, Field.salt_b64)
                     && (c[Field.t_cost].JInt? ==> o.value.params.tCost == WrapUint32(c[Field.t_cost].n))
                     && (c[Field.m_cost].JInt? ==> o.value.params.mCost == WrapUint32(c[Field.m_cost].n))
                     && (c[Field.parallelism].JInt? ==>
                           o.value.params.parallelism == WrapUint32(c[Field.parallelism].n)))
    ensures var f := lib.parse(contents).value.fields;
            && Field.version in f && f[Field.version].JInt? && WrapInt32(f[Field.version].n) == 1
            && (Field.tpm_sealed in f ==> f[Field.tpm_sealed].JBool?)
            && Field.argon2id in f && f[Field.argon2id].JObj?
            && NumberLike(f[Field.argon2id].fields, Field.t_cost) && NumberLike(f[Field.argon2id].fields, Field.m_cost)
            && NumberLike(f[Field.argon2id].fields, Field.parallelism)
            ==> match GetBytes(f[Field.argon2id].fields, Field.salt_b64)
                case Ok(_) => ReadOuter(lib, contents).Ok?
                case Err(error) => ReadOuter(lib, contents) == Err(error)
    ensures var f, o := lib.parse(contents).value.fields, ReadOuter(lib, contents);
            && (Field.version in f && !NumberLike(f, Field.version) ==> o == Err(BadField))
            && (Field.version in f && f[Field.version].JInt? && WrapInt32(f[Field.version].n) == 1
                && !(&& (Field.tpm_sealed in f ==> f[Field.tpm_sealed].JBool?)
                     && Field.argon2id in f && f[Field.argon2id].JObj?
                     && NumberLike(f[Field.argon2id].fields, Field.t_cost)
                     && NumberLike(f[Field.argon2id].fields, Field.m_cost)
                     && NumberLike(f[Field.argon2id].fields, Field.parallelism))
                ==> o == Err(BadField))
  {
    assert WrapInt32(0) == 0;
    hide GetBytes, WrapInt32, WrapUint32;
  }

  lemma NotAKeystore(lib: Library, contents: bytes)
    ensures lib.parse(contents) == None ==> ReadOuter(lib, contents) == Err(ParseFailed)
    ensures lib.parse(contents).Some? && !lib.parse(contents).value.JObj? ==> ReadOuter(lib, contents) == Err(BadField)
  {
    hide GetBytes;
  }

  /** What is read from the encrypted part; the first bad field is the one reported. */
  lemma ReadInnerIs(lib: Library, plain: bytes)
    ensures lib.parse(plain) == None ==> ReadInner(lib, plain) == Err(InnerParseFailed)
    ensures lib.parse(plain).Some? && !lib.parse(plain).value.JObj? ==> ReadInner(lib, plain) == Err(BadField)
    ensures lib.parse(plain).Some? && lib.parse(plain).value.JObj? ==>
              var f, r := lib.parse(plain).value.fields, ReadInner(lib, plain);
              && (r.Ok? <==>
                    && GetBytes(f, Field.server_x25519_priv_b64).Ok? && GetBytes(f, Field.server_x25519_pub_b64).Ok?
                    && GetBytes(f, Field.server_ed25519_priv_b64).Ok? && GetBytes(f, Field.server_ed25519_pub_b64).Ok?)
              && (r.Ok? ==>
                    && Ok(r.value.xPriv) == GetBytes(f, Field.server_x25519_priv_b64)
                    && Ok(r.value.xPub) == GetBytes(f, Field.server_x25519_pub_b64)
                    && Ok(r.value.edPriv) == GetBytes(f, Field.server_ed25519_priv_b64)
                    && Ok(r.value.edPub) == GetBytes(f, Field.server_ed25519_pub_b64))
              && (r.Err? ==>
                    var a := GetBytes(f, Field.server_x25519_priv_b64);
                    var b := GetBytes(f, Field.server_x25519_pub_b64);
                    var c := GetBytes(f, Field.server_ed25519_priv_b64);
                    var d := GetBytes(f, Field.server_ed25519_pub_b64);
                    Err(r.error) == if a.Err? then a else if b.Err? then b else if c.Err? then c else d)
  {
    hide GetBytes;
  }

  /** Loading in full: the derived key must be the unsealed one if the keystore is sealed, and must open the payload. */
  lemma LoadIs(lib: Library, contents: bytes, passphrase: bytes, tpm: Option<SealProvider>)
    ensures var o, r := ReadOuter(lib, contents), Load(lib, contents, passphrase, tpm);
            && (o.Err? ==> r == Err(o.error))
            && (o.Ok? ==>
                  match lib.argon2(passphrase, o.value.salt, o.value.params)
                  case None => r == Err(Argon2Failed)
                  case Some(master) =>
                    var f, sealed := o.value.fields, o.value.sealed;
                    var blob, payload := GetBytes(f, Field.tpm_blob_b64), GetBytes(f, Field.payload_b64);
                    if sealed && tpm.None? then r == Err(NoTpm)
                    else if sealed && blob.Err? then r == Err(blob.error)
                    else if sealed && tpm.value.unseal(blob.value, Ascii("keystore-master")) == None then
                      r == Err(TpmUnsealFailed)
                    else if sealed && tpm.value.unseal(blob.value, Ascii("keystore-master")) != Some(master) then
                      r == Err(MasterKeyMismatch)
                    else if payload.Err? then r == Err(payload.error)
                    else
                      match Crypto.GcmDecrypt(lib, master, Ascii("keystore-v1"), payload.value)
                      case Ok(plain) => r == ReadInner(lib, plain)
                      case Err(_) => r == Err(DecryptFailed))
  {
    hide ReadOuter, ReadInner, GetBytes, Crypto.GcmDecrypt;
  }

  // ---------------------------------------------------------------- round trip

  lemma EncodedIsText(lib: Library, b: bytes)
    requires JsonLaws(lib)
    ensures AllText(lib, JStr(Base64.Encode(b))) && lib.utf8(Base64.Encode(b))
  {
    Base64.EncodeIsAscii(b);
  }

  lemma EncodedField(fields: map<Field, Json>, key: Field, b: bytes)
    requires key in fields && fields[key] == JStr(Base64.Encode(b))
    ensures GetBytes(fields, key) == Ok(b)
  {
    Base64.EncodeThenDecode(b);
  }

  lemma InnerPrints(lib: Library, keys: ServerKeys, createdAt: int64)
    requires JsonLaws(lib)
    ensures lib.dump(InnerJson(keys, createdAt), COMPACT).Some?
    ensures ReadInner(lib, lib.dump(InnerJson(keys, createdAt), COMPACT).value) == Ok(keys)
  {
    EncodedIsText(lib, keys.xPriv);
    EncodedIsText(lib, keys.xPub);
    EncodedIsText(lib, keys.edPriv);
    EncodedIsText(lib, keys.edPub);
    var j := InnerJson(keys, createdAt);
    assert AllText(lib, j);
    EncodedField(j.fields, Field.server_x25519_priv_b64, keys.xPriv);
    EncodedField(j.fields, Field.server_x25519_pub_b64, keys.xPub);
    EncodedField(j.fields, Field.server_ed25519_priv_b64, keys.edPriv);
    EncodedField(j.fields, Field.server_ed25519_pub_b64, keys.edPub);
    hide InnerJson, GetBytes;
  }

  lemma CostReads(lib: Library, params: Argon2Params, salt: bytes)
    requires JsonLaws(lib)
    ensures var f := CostJson(params, salt).fields;
            && AllText(lib, CostJson(params, salt))
            && GetInt(f, Field.t_cost) == Some(params.tCost) && GetInt(f, Field.m_cost) == Some(params.mCost)
            && GetInt(f, Field.parallelism) == Some(params.parallelism) && GetBytes(f, Field.salt_b64) == Ok(salt)
  {
    EncodedIsText(lib, salt);
    EncodedField(CostJson(params, salt).fields, Field.salt_b64, salt);
  }

  lemma OuterFields(lib: Library, params: Argon2Params, salt: bytes, payload: bytes, tpmBlob: Option<bytes>)
    requires JsonLaws(lib)
    ensures var j := OuterJson(params, salt, payload, tpmBlob);
            && AllText(lib, j)
            && Field.version in j.fields && j.fields[Field.version] == JInt(1)
            && Field.tpm_sealed in j.fields && j.fields[Field.tpm_sealed] == JBool(tpmBlob.Some?)
            && Field.argon2id in j.fields && j.fields[Field.argon2id] == CostJson(params, salt)
            && GetBytes(j.fields, Field.payload_b64) == Ok(payload)
            && (tpmBlob.Some? ==> GetBytes(j.fields, Field.tpm_blob_b64) == Ok(tpmBlob.value))
  {
    hide CostJson, GetBytes, Base64.Encode;
    var j := OuterJson(params, salt, payload, tpmBlob);
    CostReads(lib, params, salt);
    EncodedIsText(lib, payload);
    EncodedField(j.fields, Field.payload_b64, payload);
    if tpmBlob.Some? {
      EncodedIsText(lib, tpmBlob.value);
      EncodedField(j.fields, Field.tpm_blob_b64, tpmBlob.value);
    }
  }

  lemma OuterPrints(lib: Library, params: Argon2Params, salt: bytes, payload: bytes, tpmBlob: Option<bytes>)
    requires JsonLaws(lib)
    ensures var j := OuterJson(params, salt, payload, tpmBlob);
            && lib.dump(j, 2).Some?
            && ReadOuter(lib, lib.dump(j, 2).value) == Ok(Outer(tpmBlob.Some?, params, salt, j.fields))
            && GetBytes(j.fields, Field.payload_b64) == Ok(payload)
            && (tpmBlob.Some? ==> GetBytes(j.fields, Field.tpm_blob_b64) == Ok(tpmBlob.value))
  {
    hide OuterJson, GetBytes, Base64.Encode, AllText;
    CostReads(lib, params, salt);
    OuterFields(lib, params, salt, payload, tpmBlob);
  }

  /** Generation succeeds exactly when Argon2 does and a provider, if there is one, seals the master key; it returns
      the public halves of the stored keys. */
  lemma GenerateSucceeds(lib: Library, passphrase: bytes, params: Argon2Params, tpm: Option<SealProvider>,
                         e: KeystoreEntropy, createdAt: int64)
    requires JsonLaws(lib)
    ensures var g := Generate(lib, passphrase, params, tpm, e, createdAt);
            && (g.Ok? <==>
                  && lib.argon2(passphrase, e.salt, params).Some?
                  && (tpm.Some? ==> SealedMaster(tpm, lib.argon2(passphrase, e.salt, params).value).Some?))
            && (g.Ok? ==> Base64.Decode(g.value.pub.xPubB64) == Ok(lib.xPublic(e.xSeed))
                          && Base64.Decode(g.value.pub.edPubB64) == Ok(lib.edPublic(e.edSeed)))
  {
    hide InnerJson, OuterJson, Base64.Encode, Base64.Decode, Payload, FreshKeys;
    var keys := FreshKeys(lib, e);
    assert keys.xPub == lib.xPublic(e.xSeed) && keys.edPub == lib.edPublic(e.edSeed) by { FreshHalves(lib, e); }
    InnerPrints(lib, keys, createdAt);
    Base64.EncodeThenDecode(keys.xPub);
    Base64.EncodeThenDecode(keys.edPub);
    var inner := lib.dump(InnerJson(keys, createdAt), COMPACT).value;
    var master := lib.argon2(passphrase, e.salt, params);
    if master.Some? {
      OuterPrints(lib, params, e.salt, Payload(lib, master.value, inner, e.nonce), SealedMaster(tpm, master.value));
    }
  }

  /** The plaintext of a generated keystore's payload. */
  function InnerText(lib: Library, e: KeystoreEntropy, createdAt: int64): bytes {
    lib.dump(InnerJson(FreshKeys(lib, e), createdAt), COMPACT).GetOr([])
  }

  lemma FreshHalves(lib: Library, e: KeystoreEntropy)
    ensures FreshKeys(lib, e).xPub == lib.xPublic(e.xSeed) && FreshKeys(lib, e).edPub == lib.edPublic(e.edSeed)
  {
  }

  /** A generated keystore loads, where its payload is ideal, exactly when the passphrase derives the master key it was
      generated with and, if it was sealed, a provider unseals that same key. What loads is then the generated keys. */
  lemma LoadIff(lib: Library, passphrase: bytes, params: Argon2Params, tpm: Option<SealProvider>, e: KeystoreEntropy,
                createdAt: int64, passphrase2: bytes, tpm2: Option<SealProvider>)
    requires GcmCorrect(lib) && JsonLaws(lib) && Generate(lib, passphrase, params, tpm, e, createdAt).Ok?
    requires var master, other := lib.argon2(passphrase, e.salt, params).value, lib.argon2(passphrase2, e.salt, params);
             other.Some? ==>
               Rejects(lib, master, e.nonce, KEYSTORE_AAD, InnerText(lib, e, createdAt), other.value, KEYSTORE_AAD)
    ensures var master := lib.argon2(passphrase, e.salt, params).value;
            var g := Generate(lib, passphrase, params, tpm, e, createdAt);
            var loaded := Load(lib, g.value.contents, passphrase2, tpm2);
            && (loaded.Ok? ==> loaded.value == FreshKeys(lib, e))
            && (loaded.Ok? <==>
                  && lib.argon2(passphrase2, e.salt, params) == Some(master)
                  && (tpm.Some? ==>
                        && tpm2.Some? && SealedMaster(tpm, master).Some?
                        && tpm2.value.unseal(SealedMaster(tpm, master).value, MASTER_LABEL) == Some(master)))
  {
    hide InnerJson, OuterJson, Base64.Encode, FreshKeys, ReadOuter, ReadInner, GetBytes;
    hide Crypto.GcmEncrypt, Crypto.GcmDecrypt;
    var keys, master := FreshKeys(lib, e), lib.argon2(passphrase, e.salt, params).value;
    InnerPrints(lib, keys, createdAt);
    var inner := lib.dump(InnerJson(keys, createdAt), COMPACT).value;
    var payload := Payload(lib, master, inner, e.nonce);
    OuterPrints(lib, params, e.salt, payload, SealedMaster(tpm, master));
    GenerateSucceeds(lib, passphrase, params, tpm, e, createdAt);
    match lib.argon2(passphrase2, e.salt, params)
    case None =>
    case Some(master2) =>
      Crypto.GcmRoundTrip(lib, master, KEYSTORE_AAD, inner, e.nonce, master2, KEYSTORE_AAD);
  }

  /** A keystore sealed by a Linux TPM loads again with the same TPM and passphrase: a master key is short enough. */
  lemma LinuxTpmKeystoreLoads(lib: Library, passphrase: bytes, params: Argon2Params, device: Tpm2, e: KeystoreEntropy,
                              createdAt: int64)
    requires GcmCorrect(lib) && JsonLaws(lib) && IdealTpm(device) && lib.argon2(passphrase, e.salt, params).Some?
    ensures var g := Generate(lib, passphrase, params, Some(AsProvider(device)), e, createdAt);
            g.Ok? && Load(lib, g.value.contents, passphrase, Some(AsProvider(device))) == Ok(FreshKeys(lib, e))
  {
    hide InnerJson, Generate, Load, FreshKeys;
    var master := lib.argon2(passphrase, e.salt, params).value;
    SealRoundTrip(device, master, MASTER_LABEL, MASTER_LABEL);
    GenerateSucceeds(lib, passphrase, params, Some(AsProvider(device)), e, createdAt);
    LoadIff(lib, passphrase, params, Some(AsProvider(device)), e, createdAt, passphrase, Some(AsProvider(device)));
  }
}
