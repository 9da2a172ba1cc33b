/** `generate-license` of server/src/main.cpp: decrypt a request, validate it, build a record and sign it. */
module Server {
  import opened Bytes
  import opened Foreign
  import opened License
  import Base64
  import Crypto
  import opened Keystore

  const COMMA: byte := 44
  const MAX_AGE: int64 := 86400
  const AAD_SUFFIX := Ascii("|license-client-v1.0.0")

  /** The public key file that `init-keys` writes for the clients. */
  function KeyFileJson(pub: PublicKeys): Json {
    JObj(map[
      Field.version := JStr(Ascii("1")),
      Field.server_x25519_pub := JStr(pub.xPubB64),
      Field.server_ed25519_pub := JStr(pub.edPubB64)])
  }

  /** The associated data of a request; client and server build the same text. */
  function MakeAad(product: bytes): bytes {
    product + AAD_SUFFIX
  }

  lemma MakeAadIs(product: bytes)
    ensures MakeAad(product) == product + Ascii("|license-client-v1.0.0")
  {
  }

  /** The public key file, field by field. */
  lemma KeyFileFields(pub: PublicKeys)
    ensures var j := KeyFileJson(pub);
            && j.JObj? && |j.fields| == 3
            && (forall k | k in [Field.version, Field.server_x25519_pub, Field.server_ed25519_pub] :: k in j.fields)
            && j.fields[Field.version] == JStr(Ascii("1"))
            && j.fields[Field.server_x25519_pub] == JStr(pub.xPubB64)
            && j.fields[Field.server_ed25519_pub] == JStr(pub.edPubB64)
  {
  }

  lemma AadInjective(p: bytes, q: bytes)
    requires MakeAad(p) == MakeAad(q)
    ensures p == q
  {
    assert p == MakeAad(p)[..|MakeAad(p)| - |AAD_SUFFIX|];
    assert q == MakeAad(q)[..|MakeAad(q)| - |AAD_SUFFIX|];
  }

  // ---------------------------------------------------------------- feature lists

  /** The position of the first comma, or the length. */
  function FindComma(s: bytes): (i: nat)
    ensures i <= |s| && (forall k | 0 <= k < i :: s[k] != COMMA) && (i < |s| ==> s[i] == COMMA)
  {
    if s == [] || s[0] == COMMA then 0 else FindComma(s[1..]) + 1
  }

  function Keep(field: bytes): seq<bytes> {
    if field == [] then [] else [field]
  }

  function Features(s: bytes): seq<bytes>
    decreases |s|
  {
    var i := FindComma(s);
    if i == |s| then Keep(s) else Keep(s[..i]) + Features(s[i + 1..])
  }

  /** What `getline` leaves after the field that ends at `i`. */
  function AfterField(s: bytes, i: nat): bytes {
    if i < |s| then s[i + 1..] else []
  }

  lemma FeaturesStep(s: bytes, done: seq<bytes>)
    ensures var i := FindComma(s);
            done + Features(s) == done + Keep(s[..i]) + Features(AfterField(s, i))
  {
    var i := FindComma(s);
    if i == |s| {
      assert s[..i] == s;
      assert Keep(s) + [] == Keep(s);
    }
    ConcatAssoc(done, Keep(s[..i]), Features(AfterField(s, i)));
  }

  /** The `getline` loop: fields end at a comma or at the end of the text, and empty ones are dropped. */
  method ParseFeatures(s: bytes) returns (out: seq<bytes>)
    ensures out == Features(s)
  {
    assert Features([]) == [];
    hide Features, FindComma;
    out := [];
    var rest := s;
    while rest != []
      invariant out + Features(rest) == Features(s)
      decreases |rest|
    {
      FeaturesStep(rest, out);
      var i := FindComma(rest);
      var f := rest[..i];
      if f != [] { out := out + [f]; }
      rest := AfterField(rest, i);
    }
  }

  /** A list of feature names as the command line spells it. */
  function Spelled(fs: seq<bytes>): bytes {
    if fs == [] then [] else if |fs| == 1 then fs[0] else fs[0] + [COMMA] + Spelled(fs[1..])
  }

  /** Every parsed feature is non-empty and free of commas. */
  lemma {:induction false} FeaturesAreNames(s: bytes)
    ensures forall f | f in Features(s) :: f != [] && 44 !in f
    decreases |s|
  {
    var i := FindComma(s);
    if i < |s| { FeaturesAreNames(s[i + 1..]); }
  }

  lemma FindCommaAfter(f: bytes, rest: bytes)
    requires COMMA !in f
    ensures FindComma(f + [COMMA] + rest) == |f| && FindComma(f) == |f|
  {
    var s := f + [COMMA] + rest;
    assert s[|f|] == COMMA;
    assert forall k | 0 <= k < |f| :: s[k] == f[k] && f[k] in f;
  }

  /** Parsing what was spelled gives the list back. */
  lemma {:induction false} SpelledFeaturesParse(fs: seq<bytes>)
    requires forall f | f in fs :: f != [] && 44 !in f
    ensures Features(Spelled(fs)) == fs
  {
    if |fs| == 1 {
      FindCommaAfter(fs[0], []);
      assert fs == [fs[0]];
    } else if |fs| > 1 {
      assert forall f | f in fs[1..] :: f in fs;
      SpelledFeaturesParse(fs[1..]);
      var f, rest := fs[0], Spelled(fs[1..]);
      FindCommaAfter(f, rest);
      var s := f + [COMMA] + rest;
      assert s[..|f|] == f && s[|f| + 1..] == rest;
      assert fs == [f] + fs[1..];
    }
  }

  /** A text without a comma is one feature, or none if it is empty. */
  lemma FeaturesOfOne(f: bytes)
    requires 44 !in f
    ensures Features(f) == if f == [] then [] else [f]
  {
    FindCommaAfter(f, []);
  }

  /** Parsing distributes over commas: together with what it does to a single name this determines it. */
  lemma {:induction false} FeaturesConcat(a: bytes, b: bytes)
    ensures Features(a + [44] + b) == Features(a) + Features(b)
    decreases |a|
  {
    hide FindComma;
    var i := FindComma(a);
    var f, rest := a[..i], AfterField(a, i);
    assert COMMA !in f;
    if i < |a| {
      assert a + [COMMA] + b == f + [COMMA] + (rest + [COMMA] + b);
      FeaturesConcat(rest, b);
      FeaturesOfField(f, rest + [COMMA] + b);
      ConcatAssoc(Keep(f), Features(rest), Features(b));
    } else {
      assert f == a;
      FeaturesOfField(a, b);
    }
  }

  lemma FeaturesOfField(f: bytes, rest: bytes)
    requires COMMA !in f
    ensures Features(f + [COMMA] + rest) == Keep(f) + Features(rest)
  {
    FindCommaAfter(f, rest);
    var s := f + [COMMA] + rest;
    assert s[..|f|] == f && s[|f| + 1..] == rest;
  }

  // ---------------------------------------------------------------- issuing

  datatype IssueError =
    | BlobNotBase64(b64: Base64.DecodeError)
    | DecryptFailed(cause: Crypto.CryptoError)
    | RequestParseFailed
    | ProductMismatch
    | NotFresh
    | NoFingerprint
    | SignFailed

  datatype Issued = Issued(token: bytes, record: LicenseRecord)

  /** What the vendor types: product, feature text, days, activation limit. */
  datatype Order = Order(product: bytes, features: bytes, days: int32, maxActivations: uint32)

  function ExpiresAt(issuedAt: int64, days: int32): int64 {
    if days > 0 then WrapInt64(issuedAt + days * 86400) else 0
  }

  function BuildRecord(q: LicenseRequest, order: Order, issuedAt: int64, rnd: Block16): LicenseRecord {
    LicenseRecord(UuidV4(rnd), order.product, q.fingerprintHash, q.assurance, Features(order.features),
                  issuedAt, ExpiresAt(issuedAt, order.days), order.maxActivations)
  }

  function DecryptRequest(lib: Library, xPriv: bytes, product: bytes, blobB64: bytes)
    : Result<LicenseRequest, IssueError>
  {
    match Base64.Decode(blobB64)
    case Err(e) => Err(BlobNotBase64(e))
    case Ok(blob) =>
      match Crypto.HybridDecrypt(lib, xPriv, MakeAad(product), blob)
      case Err(e) => Err(IssueError.DecryptFailed(e))
      case Ok(text) =>
        match ParseRequest(lib, text)
        case None => Err(RequestParseFailed)
        case Some(q) => Ok(q)
  }

  /** The clock is read twice: when the request is checked and when the licence is dated. */
  function Issue(lib: Library, keys: ServerKeys, blobB64: bytes, order: Order, checkedAt: int64, issuedAt: int64,
                 rnd: Block16): Result<Issued, IssueError>
    requires |keys.edPriv| >= 32
  {
    match DecryptRequest(lib, keys.xPriv, order.product, blobB64)
    case Err(e) => Err(e)
    case Ok(q) =>
      if q.productId != order.product then Err(ProductMismatch)
      else if !TimestampIsFresh(q.timestamp, checkedAt, MAX_AGE) then Err(NotFresh)
      else if q.fingerprintHash == [] then Err(NoFingerprint)
      else
        var record := BuildRecord(q, order, issuedAt, rnd);
        match SignLicense(lib, record, keys.edPriv)
        case None => Err(SignFailed)
        case Some(token) => Ok(Issued(token, record))
  }

  method GenerateLicense(lib: Library, keys: ServerKeys, blobB64: bytes, order: Order, checkedAt: int64,
                         issuedAt: int64, rnd: Block16)
    returns (r: Result<Issued, IssueError>)
    requires |keys.edPriv| >= 32
    ensures r == Issue(lib, keys, blobB64, order, checkedAt, issuedAt, rnd)
  {
    hide Base64.Decode, Crypto.HybridDecrypt, ParseRequest, TimestampIsFresh, UuidV4, Features, SignLicense;
    var blob := Base64.Base64Decode(blobB64);
    if blob.Err? { return Err(BlobNotBase64(blob.error)); }
    var aad := order.product + AAD_SUFFIX;
    var decrypted := Crypto.HybridDecryptBlob(lib, keys.xPriv, aad, blob.value);
    if decrypted.Err? { return Err(IssueError.DecryptFailed(decrypted.error)); }
    var q := ParseRequest(lib, decrypted.value);
    if q.None? { return Err(RequestParseFailed); }
    if q.value.productId != order.product { return Err(ProductMismatch); }
    if !TimestampIsFresh(q.value.timestamp, checkedAt, MAX_AGE) { return Err(NotFresh); }
    if |q.value.fingerprintHash| == 0 { return Err(NoFingerprint); }
    var licenseId := License.GenerateUuid(rnd);
    var features := ParseFeatures(order.features);
    var expiresAt := if order.days > 0 then WrapInt64(issuedAt + order.days * 86400) else 0;
    var record := LicenseRecord(licenseId, order.product, q.value.fingerprintHash, q.value.assurance, features,
                                issuedAt, expiresAt, order.maxActivations);
    var token := SignLicense(lib, record, keys.edPriv);
    if token.None? { return Err(SignFailed); }
    return Ok(Issued(token.value, record));
  }

  /** The record of an issued licence, field by field. */
  lemma BuildRecordIs(q: LicenseRequest, order: Order, issuedAt: int64, rnd: Block16)
    ensures var r := BuildRecord(q, order, issuedAt, rnd);
            && r.licenseId == UuidV4(rnd) && r.productId == order.product
            && r.fingerprintHash == q.fingerprintHash && r.assurance == q.assurance
            && r.features == Features(order.features) && r.issuedAt == issuedAt
            && r.expiresAt == ExpiresAt(issuedAt, order.days) && r.maxActivations == order.maxActivations
  {
    hide UuidV4, Features, ExpiresAt;
  }

  /** What the server makes of a request text: the blob decoded, decrypted under the product's associated data and
      parsed, with an error for each. */
  lemma DecryptRequestIs(lib: Library, xPriv: bytes, product: bytes, blobB64: bytes)
    ensures var r := DecryptRequest(lib, xPriv, product, blobB64);
            match Base64.Decode(blobB64)
            case Err(e) => r == Err(BlobNotBase64(e))
            case Ok(blob) =>
              match Crypto.HybridDecrypt(lib, xPriv, product + Ascii("|license-client-v1.0.0"), blob)
              case Err(e) => r == Err(IssueError.DecryptFailed(e))
              case Ok(text) =>
                match ParseRequest(lib, text)
                case None => r == Err(RequestParseFailed)
                case Some(q) => r == Ok(q)
  {
    hide Base64.Decode, Crypto.HybridDecrypt, ParseRequest;
  }

  /** Issuing in full, from 1970 on: exactly when each refusal is reported, and what is signed otherwise. */
  lemma IssueIs(lib: Library, keys: ServerKeys, blobB64: bytes, order: Order, checkedAt: int64, issuedAt: int64,
                rnd: Block16)
    requires |keys.edPriv| >= 32 && checkedAt >= 0
    ensures var d := DecryptRequest(lib, keys.xPriv, order.product, blobB64);
            var i := Issue(lib, keys, blobB64, order, checkedAt, issuedAt, rnd);
            && (d.Err? ==> i == Err(d.error))
            && (d.Ok? ==>
                  var q := d.value;
                  var record := BuildRecord(q, order, issuedAt, rnd);
                  var inTime := 0 <= checkedAt - q.timestamp <= 86400;
                  && (i == Err(ProductMismatch) <==> q.productId != order.product)
                  && (i == Err(NotFresh) <==> q.productId == order.product && !inTime)
                  && (i == Err(NoFingerprint) <==> q.productId == order.product && inTime && q.fingerprintHash == [])
                  && (i.Ok? <==>
                        && q.productId == order.product && inTime && q.fingerprintHash != []
                        && SignLicense(lib, record, keys.edPriv).Some?)
                  && (i.Ok? ==>
                        && i.value.record == record
                        && Some(i.value.token) == SignLicense(lib, record, keys.edPriv))
                  && (i.Err? ==> i.error in {ProductMismatch, NotFresh, NoFingerprint, SignFailed}))
  {
    hide DecryptRequest, BuildRecord, SignLicense;
    var d := DecryptRequest(lib, keys.xPriv, order.product, blobB64);
    if d.Ok? { FreshIff(d.value.timestamp, checkedAt, MAX_AGE); }
    hide TimestampIsFresh;
  }

  /** Two licences have the same id exactly when the random bytes drawn for them agree outside the six fixed bits. */
  lemma LicenseIdsEqualIff(lib: Library, keys: ServerKeys, blobB64: bytes, order: Order, checkedAt: int64,
                           issuedAt: int64, rnd: Block16, keys2: ServerKeys, blobB642: bytes, order2: Order,
                           checkedAt2: int64, issuedAt2: int64, rnd2: Block16)
    requires |keys.edPriv| >= 32 && |keys2.edPriv| >= 32
    requires Issue(lib, keys, blobB64, order, checkedAt, issuedAt, rnd).Ok?
    requires Issue(lib, keys2, blobB642, order2, checkedAt2, issuedAt2, rnd2).Ok?
    ensures Issue(lib, keys, blobB64, order, checkedAt, issuedAt, rnd).value.record.licenseId
            == Issue(lib, keys2, blobB642, order2, checkedAt2, issuedAt2, rnd2).value.record.licenseId
            <==> && rnd[0..6] == rnd2[0..6] && rnd[6] % 16 == rnd2[6] % 16 && rnd[7] == rnd2[7]
                 && rnd[8] % 64 == rnd2[8] % 64 && rnd[9..16] == rnd2[9..16]
  {
    hide DecryptRequest, SignLicense, TimestampIsFresh, UuidV4, Features, ExpiresAt;
    UuidsEqualIff(rnd, rnd2);
  }

  /** The expiry test of a verification at time `t`. */
  predicate Unexpired(expiresAt: int64, t: int64) {
    expiresAt == 0 || t <= expiresAt
  }

  /** The last second of the licence is a 64-bit date. */
  predicate DateFits(issuedAt: int64, days: int32) {
    days <= 0 || issuedAt + 86400 * days < 0x8000_0000_0000_0000
  }

  /** From 1970 on, 0 marks exactly the unlimited licences, and the token verifies at `t` exactly when it is unlimited,
      or `t` is at most `days` days after issue and that date can be written in 64 bits. If it can, this holds of
      every `t`. */
  lemma LifetimeIff(issuedAt: int64, days: int32, t: int64)
    requires issuedAt >= 0
    ensures ExpiresAt(issuedAt, days) == 0 <==> days <= 0
    ensures t >= 0 ==>
              (Unexpired(ExpiresAt(issuedAt, days), t)
               <==> days <= 0 || (DateFits(issuedAt, days) && t <= issuedAt + 86400 * days))
    ensures DateFits(issuedAt, days) ==>
              (Unexpired(ExpiresAt(issuedAt, days), t) <==> days <= 0 || t <= issuedAt + 86400 * days)
  {
  }
}
