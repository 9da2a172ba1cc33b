/** The parts of common/src/crypto.cpp around OpenSSL: comparison, AES-GCM framing and hybrid encryption. */
module Crypto {
  import opened Bytes
  import opened Foreign

  const KEY_LEN := 32
  const NONCE_LEN := 12
  const TAG_LEN := 16
  const OVERHEAD := NONCE_LEN + TAG_LEN
  const EPH_PUB_LEN := 32
  const HYBRID_HKDF_INFO := Ascii("license-hybrid-v1")

  datatype CryptoError = KeyLength | CiphertextTooShort | TagMismatch | ExchangeFailed

  // ---------------------------------------------------------------- comparison

  /** `ct_equal`: lengths first, then an or of all differences, as CRYPTO_memcmp accumulates it. */
  method CtEqual(a: bytes, b: bytes) returns (equal: bool)
    ensures equal <==> a == b
  {
    if |a| != |b| { return false; }
    var differs := false;
    for i := 0 to |a|
      invariant differs <==> a[..i] != b[..i]
    {
      assert a[..i + 1] == a[..i] + [a[i]] && b[..i + 1] == b[..i] + [b[i]];
      differs := differs || a[i] != b[i];
    }
    assert a[..|a|] == a && b[..|b|] == b;
    return !differs;
  }

  // ---------------------------------------------------------------- AES-256-GCM

  function GcmEncrypt(lib: Library, key: bytes, aad: bytes, plain: bytes, nonce: Block12): Result<bytes, CryptoError> {
    if |key| != KEY_LEN then Err(KeyLength)
    else
      var (ct, tag) := lib.gcmSeal(key, nonce, aad, plain);
      Ok(nonce + ct + tag)
  }

  function GcmDecrypt(lib: Library, key: bytes, aad: bytes, blob: bytes): Result<bytes, CryptoError> {
    if |key| != KEY_LEN then Err(KeyLength)
    else if |blob| < OVERHEAD then Err(CiphertextTooShort)
    else
      var nonce, ct, tag := Nonce(blob), Body(blob), Tag(blob);
      match lib.gcmOpen(key, nonce, aad, ct, tag)
      case Some(plain) => Ok(plain)
      case None => Err(TagMismatch)
  }

  function Nonce(blob: bytes): Block12
    requires |blob| >= OVERHEAD
  {
    blob[..NONCE_LEN]
  }

  function Body(blob: bytes): bytes
    requires |blob| >= OVERHEAD
  {
    blob[NONCE_LEN..|blob| - TAG_LEN]
  }

  function Tag(blob: bytes): Block16
    requires |blob| >= OVERHEAD
  {
    blob[|blob| - TAG_LEN..]
  }

  method Aes256GcmEncrypt(lib: Library, key: bytes, aad: bytes, plain: bytes, nonce: Block12)
    returns (r: Result<bytes, CryptoError>)
    ensures r == GcmEncrypt(lib, key, aad, plain, nonce)
  {
    if |key| != KEY_LEN { return Err(KeyLength); }
    var sealed := lib.gcmSeal(key, nonce, aad, plain);
    var out: bytes := [];
    out := out + nonce;
    out := out + sealed.0;
    out := out + sealed.1;
    assert out == nonce + sealed.0 + sealed.1;
    return Ok(out);
  }

  method Aes256GcmDecrypt(lib: Library, key: bytes, aad: bytes, ciphertext: bytes)
    returns (r: Result<bytes, CryptoError>)
    ensures r == GcmDecrypt(lib, key, aad, ciphertext)
  {
    if |key| != KEY_LEN { return Err(KeyLength); }
    if |ciphertext| < OVERHEAD { return Err(CiphertextTooShort); }
    var nonce := ciphertext[..NONCE_LEN];
    var ct := ciphertext[NONCE_LEN..NONCE_LEN + (|ciphertext| - OVERHEAD)];
    var tag := ciphertext[|ciphertext| - TAG_LEN..];
    match lib.gcmOpen(key, nonce, aad, ct, tag) {
      case None => return Err(TagMismatch);
      case Some(plain) => return Ok(plain);
    }
  }

  /** The slices of any long enough blob put it back together, and those of a fresh one are its three parts. */
  lemma GcmFraming(lib: Library, key: Block32, aad: bytes, plain: bytes, nonce: Block12, blob: bytes)
    requires GcmCorrect(lib)
    ensures |blob| >= OVERHEAD ==> Nonce(blob) + Body(blob) + Tag(blob) == blob
    ensures var out := GcmEncrypt(lib, key, aad, plain, nonce);
            && out.Ok? && |out.value| == |plain| + OVERHEAD
            && Nonce(out.value) == nonce
            && (Body(out.value), Tag(out.value)) == lib.gcmSeal(key, nonce, aad, plain)
  {
    var (ct, tag) := lib.gcmSeal(key, nonce, aad, plain);
    var out := nonce + ct + tag;
    assert out[..NONCE_LEN] == nonce;
    assert out[NONCE_LEN..|out| - TAG_LEN] == ct;
    assert out[|out| - TAG_LEN..] == tag;
  }

  /** Decryption under the same key and associated data undoes encryption. Where the ciphertext is ideal, an attempt
      succeeds under nothing else. */
  lemma GcmRoundTrip(lib: Library, key: Block32, aad: bytes, plain: bytes, nonce: Block12, k: bytes, a: bytes)
    requires GcmCorrect(lib)
    ensures var blob := GcmEncrypt(lib, key, aad, plain, nonce).value;
            && GcmDecrypt(lib, key, aad, blob) == Ok(plain)
            && ((|k| != KEY_LEN || Rejects(lib, key, nonce, aad, plain, k, a)) ==>
                  (GcmDecrypt(lib, k, a, blob).Ok? <==> k == key && a == aad))
  {
    GcmFraming(lib, key, aad, plain, nonce, []);
  }

  /** Encryption in full: nonce, ciphertext and tag, under a key of 32 bytes. */
  lemma GcmEncryptIs(lib: Library, key: bytes, aad: bytes, plain: bytes, nonce: Block12)
    ensures var r := GcmEncrypt(lib, key, aad, plain, nonce);
            if |key| == 32 then
              r == Ok(nonce + lib.gcmSeal(key, nonce, aad, plain).0 + lib.gcmSeal(key, nonce, aad, plain).1)
            else r == Err(KeyLength)
  {
  }

  /** Decryption in full, for every key, associated data and blob: what is not authentic is never decrypted, and every
      failure has its own error. */
  lemma GcmDecryptIs(lib: Library, key: bytes, aad: bytes, blob: bytes)
    ensures GcmDecrypt(lib, key, aad, blob) == Err(KeyLength) <==> |key| != 32
    ensures GcmDecrypt(lib, key, aad, blob) == Err(CiphertextTooShort) <==> |key| == 32 && |blob| < 28
    ensures GcmDecrypt(lib, key, aad, blob) == Err(TagMismatch) <==>
              && |key| == 32 && |blob| >= 28
              && lib.gcmOpen(key, blob[..12], aad, blob[12..|blob| - 16], blob[|blob| - 16..]) == None
    ensures forall p :: GcmDecrypt(lib, key, aad, blob) == Ok(p) <==>
              && |key| == 32 && |blob| >= 28
              && lib.gcmOpen(key, blob[..12], aad, blob[12..|blob| - 16], blob[|blob| - 16..]) == Some(p)
  {
  }

  // ---------------------------------------------------------------- hybrid encryption

  function HybridKey(lib: Library, secret: Block32, ephemeralPub: bytes): Block32 {
    lib.hkdf(secret, ephemeralPub, HYBRID_HKDF_INFO)
  }

  function HybridEncrypt(lib: Library, recipientPub: bytes, aad: bytes, plain: bytes, ephemeral: Block32,
                         nonce: Block12): Result<bytes, CryptoError>
  {
    var pub := lib.xPublic(ephemeral);
    match lib.xExchange(ephemeral, recipientPub)
    case None => Err(ExchangeFailed)
    case Some(secret) =>
      match GcmEncrypt(lib, HybridKey(lib, secret, pub), aad, plain, nonce)
      case Ok(ct) => Ok(pub + ct)
      case Err(e) => Err(e)
  }

  function HybridDecrypt(lib: Library, recipientPriv: bytes, aad: bytes, blob: bytes): Result<bytes, CryptoError> {
    if |blob| < EPH_PUB_LEN + OVERHEAD then Err(CiphertextTooShort)
    else
      match lib.xExchange(recipientPriv, blob[..EPH_PUB_LEN])
      case None => Err(ExchangeFailed)
      case Some(secret) =>
        GcmDecrypt(lib, HybridKey(lib, secret, blob[..EPH_PUB_LEN]), aad, blob[EPH_PUB_LEN..])
  }

  method HybridEncryptBlob(lib: Library, recipientPub: bytes, aad: bytes, plain: bytes,
                           ephemeral: Block32, nonce: Block12)
    returns (r: Result<bytes, CryptoError>)
    ensures r == HybridEncrypt(lib, recipientPub, aad, plain, ephemeral, nonce)
  {
    var pub := lib.xPublic(ephemeral);
    var secret := lib.xExchange(ephemeral, recipientPub);
    if secret.None? { return Err(ExchangeFailed); }
    var key := lib.hkdf(secret.value, pub, HYBRID_HKDF_INFO);
    var ct := Aes256GcmEncrypt(lib, key, aad, plain, nonce);
    if ct.Err? { return ct; }
    var out: bytes := [];
    out := out + pub;
    out := out + ct.value;
    assert out == pub + ct.value;
    return Ok(out);
  }

  method HybridDecryptBlob(lib: Library, recipientPriv: bytes, aad: bytes, ciphertext: bytes)
    returns (r: Result<bytes, CryptoError>)
    ensures r == HybridDecrypt(lib, recipientPriv, aad, ciphertext)
  {
    if |ciphertext| < EPH_PUB_LEN + NONCE_LEN + TAG_LEN { return Err(CiphertextTooShort); }
    var ephPub, ctBlob := ciphertext[..EPH_PUB_LEN], ciphertext[EPH_PUB_LEN..];
    var secret := lib.xExchange(recipientPriv, ephPub);
    if secret.None? { return Err(ExchangeFailed); }
    r := Aes256GcmDecrypt(lib, lib.hkdf(secret.value, ephPub, HYBRID_HKDF_INFO), aad, ctBlob);
  }

  /** Any blob of the minimal length is its ephemeral key, nonce, ciphertext and tag in this order; an encryption is
      60 bytes longer than its plaintext. */
  lemma HybridFraming(lib: Library, recipient: Block32, aad: bytes, plain: bytes, ephemeral: Block32, nonce: Block12,
                      blob: bytes)
    requires CryptoLaws(lib)
    ensures |blob| >= 60 ==>
              var rest := blob[EPH_PUB_LEN..];
              blob == blob[..EPH_PUB_LEN] + Nonce(rest) + Body(rest) + Tag(rest)
    ensures var out := HybridEncrypt(lib, lib.xPublic(recipient), aad, plain, ephemeral, nonce);
            && out.Ok? && |out.value| == |plain| + 60
            && out.value[..EPH_PUB_LEN] == lib.xPublic(ephemeral)
            && Nonce(out.value[EPH_PUB_LEN..]) == nonce
  {
    var secret := lib.xExchange(ephemeral, lib.xPublic(recipient)).value;
    var key := HybridKey(lib, secret, lib.xPublic(ephemeral));
    GcmFraming(lib, key, aad, plain, nonce, []);
    var ct := GcmEncrypt(lib, key, aad, plain, nonce).value;
    assert (lib.xPublic(ephemeral) + ct)[EPH_PUB_LEN..] == ct;
  }

  /** Hybrid encryption in full: the key is derived from the shared secret, with the ephemeral public key as salt. */
  lemma HybridEncryptIs(lib: Library, recipientPub: bytes, aad: bytes, plain: bytes, ephemeral: Block32, nonce: Block12)
    ensures var r := HybridEncrypt(lib, recipientPub, aad, plain, ephemeral, nonce);
            match lib.xExchange(ephemeral, recipientPub)
            case None => r == Err(ExchangeFailed)
            case Some(secret) =>
              var key := lib.hkdf(secret, lib.xPublic(ephemeral), Ascii("license-hybrid-v1"));
              var (ct, tag) := lib.gcmSeal(key, nonce, aad, plain);
              r == Ok(lib.xPublic(ephemeral) + (nonce + ct + tag))
  {
  }

  /** Hybrid decryption in full: below 60 bytes nothing is tried, and otherwise the result is that of the AES-GCM part
      under the key derived from the first 32 bytes. */
  lemma HybridDecryptIs(lib: Library, priv: bytes, aad: bytes, blob: bytes)
    ensures |blob| < 60 ==> HybridDecrypt(lib, priv, aad, blob) == Err(CiphertextTooShort)
    ensures |blob| >= 60 && lib.xExchange(priv, blob[..32]) == None ==>
              HybridDecrypt(lib, priv, aad, blob) == Err(ExchangeFailed)
    ensures |blob| >= 60 && lib.xExchange(priv, blob[..32]).Some? ==>
              var key := lib.hkdf(lib.xExchange(priv, blob[..32]).value, blob[..32], Ascii("license-hybrid-v1"));
              HybridDecrypt(lib, priv, aad, blob)
              == match lib.gcmOpen(key, blob[32..44], aad, blob[44..|blob| - 16], blob[|blob| - 16..])
                 case Some(p) => Ok(p)
                 case None => Err(TagMismatch)
  {
    if |blob| >= 60 {
      var rest := blob[32..];
      assert rest[..12] == blob[32..44] && rest[12..|rest| - 16] == blob[44..|blob| - 16];
      assert rest[|rest| - 16..] == blob[|blob| - 16..];
    }
  }

  /** The recipient's private key decrypts what was encrypted to its public key under the same associated data.
      Where the ciphertext is ideal no other associated data will do. */
  lemma HybridRoundTrip(lib: Library, recipient: Block32, aad: bytes, plain: bytes, ephemeral: Block32, nonce: Block12,
                        a: bytes)
    requires CryptoLaws(lib)
    ensures var out := HybridEncrypt(lib, lib.xPublic(recipient), aad, plain, ephemeral, nonce);
            && out.Ok?
            && HybridDecrypt(lib, recipient, aad, out.value) == Ok(plain)
            && (RejectsRequest(lib, recipient, aad, plain, ephemeral, nonce, a) ==>
                  (HybridDecrypt(lib, recipient, a, out.value).Ok? <==> a == aad))
  {
    var pub: bytes := lib.xPublic(ephemeral);
    var secret := lib.xExchange(ephemeral, lib.xPublic(recipient)).value;
    assert lib.xExchange(recipient, pub) == Some(secret);
    var key := HybridKey(lib, secret, pub);
    var ct: bytes := GcmEncrypt(lib, key, aad, plain, nonce).value;
    GcmRoundTrip(lib, key, aad, plain, nonce, key, a);
    GcmFraming(lib, key, aad, plain, nonce, []);
    assert (pub + ct)[EPH_PUB_LEN..] == ct && (pub + ct)[..EPH_PUB_LEN] == pub;
  }

  /** The ciphertext inside a hybrid encryption is ideal against one other associated data. */
  ghost predicate RejectsRequest(lib: Library, recipient: Block32, aad: bytes, plain: bytes, ephemeral: Block32,
                                 nonce: Block12, a: bytes)
  {
    match lib.xExchange(ephemeral, lib.xPublic(recipient))
    case Some(secret) =>
      var key := HybridKey(lib, secret, lib.xPublic(ephemeral));
      Rejects(lib, key, nonce, aad, plain, key, a)
    case None => false
  }
}
