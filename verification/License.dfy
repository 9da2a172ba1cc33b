/** Requests, records, the token format and its verification: common/src/license.cpp. */
module License {
  import opened Bytes
  import opened Foreign
  import Base64

  datatype LicenseRequest = LicenseRequest(
    productId: bytes, customerHint: bytes, fingerprintHash: bytes, assurance: bytes,
    devicePubkeyB64: bytes, timestamp: int64, nonce: bytes)

  datatype LicenseRecord = LicenseRecord(
    licenseId: bytes, productId: bytes, fingerprintHash: bytes, assurance: bytes,
    features: seq<bytes>, issuedAt: int64, expiresAt: int64, maxActivations: uint32)

  // ---------------------------------------------------------------- JSON mapping

  function GetStr(fields: map<Field, Json>, key: Field): Option<bytes> {
    if key in fields && fields[key].JStr? then Some(fields[key].s) else None
  }

  /** `value(key, fallback)`: the fallback stands in for a missing field, not for one of another type. */
  function GetStrOr(fields: map<Field, Json>, key: Field, fallback: bytes): Option<bytes> {
    if key in fields then GetStr(fields, key) else Some(fallback)
  }

  /** A number read at 64 bits. */
  function GetInt64(fields: map<Field, Json>, key: Field): Option<int64> {
    if key in fields && fields[key].JInt? then Some(WrapInt64(fields[key].n)) else None
  }

  /** A number read at any other width, or a Boolean read as one. */
  function GetInt(fields: map<Field, Json>, key: Field): Option<int> {
    if key !in fields then None
    else
      match fields[key]
      case JInt(n) => Some(n)
      case JBool(b) => Some(if b then 1 else 0)
      case _ => None
  }

  function Strings(items: seq<Json>): Option<seq<bytes>> {
    if items == [] then Some([])
    else if !items[0].JStr? then None
    else
      var rest :- Strings(items[1..]);
      Some([items[0].s] + rest)
  }

  function GetStrings(fields: map<Field, Json>, key: Field): Option<seq<bytes>> {
    if key in fields && fields[key].JArr? then Strings(fields[key].items) else None
  }

  function Quoted(ss: seq<bytes>): seq<Json> {
    seq(|ss|, i requires 0 <= i < |ss| => JStr(ss[i]))
  }

  function RequestToJson(r: LicenseRequest): Json {
    JObj(map[
      Field.customer_hint := JStr(r.customerHint),
      Field.device_pubkey_b64 := JStr(r.devicePubkeyB64),
      Field.fingerprint_assurance := JStr(r.assurance),
      Field.fingerprint_hash := JStr(r.fingerprintHash),
      Field.nonce := JStr(r.nonce),
      Field.product_id := JStr(r.productId),
      Field.timestamp := JInt(r.timestamp)])
  }

  function RequestFromJson(j: Json): Option<LicenseRequest> {
    if !j.JObj? then None
    else
      var productId := GetStr(j.fields, Field.product_id);
      var customerHint := GetStr(j.fields, Field.customer_hint);
      var fingerprintHash := GetStr(j.fields, Field.fingerprint_hash);
      var assurance := GetStrOr(j.fields, Field.fingerprint_assurance, Ascii("software"));
      var devicePubkeyB64 := GetStr(j.fields, Field.device_pubkey_b64);
      var timestamp := GetInt64(j.fields, Field.timestamp);
      var nonce := GetStr(j.fields, Field.nonce);
      if productId.None? || customerHint.None? || fingerprintHash.None? || assurance.None? || devicePubkeyB64.None?
         || timestamp.None? || nonce.None? then None
      else
        Some(LicenseRequest(productId.value, customerHint.value, fingerprintHash.value, assurance.value,
                            devicePubkeyB64.value, timestamp.value, nonce.value))
  }

  function RecordToJson(r: LicenseRecord): Json {
    JObj(map[
      Field.expires_at := JInt(r.expiresAt),
      Field.features := JArr(Quoted(r.features)),
      Field.fingerprint_assurance := JStr(r.assurance),
      Field.fingerprint_hash := JStr(r.fingerprintHash),
      Field.issued_at := JInt(r.issuedAt),
      Field.license_id := JStr(r.licenseId),
      Field.max_activations := JInt(r.maxActivations),
      Field.product_id := JStr(r.productId)])
  }

  function RecordFromJson(j: Json): Option<LicenseRecord> {
    if !j.JObj? then None
    else
      var licenseId := GetStr(j.fields, Field.license_id);
      var productId := GetStr(j.fields, Field.product_id);
      var fingerprintHash := GetStr(j.fields, Field.fingerprint_hash);
      var assurance := GetStrOr(j.fields, Field.fingerprint_assurance, Ascii("software"));
      var features := GetStrings(j.fields, Field.features);
      var issuedAt := GetInt64(j.fields, Field.issued_at);
      var expiresAt := GetInt64(j.fields, Field.expires_at);
      var maxActivations := GetInt(j.fields, Field.max_activations);
      if licenseId.None? || productId.None? || fingerprintHash.None? || assurance.None? || features.None?
         || issuedAt.None? || expiresAt.None? || maxActivations.None? then None
      else
        Some(LicenseRecord(licenseId.value, productId.value, fingerprintHash.value, assurance.value, features.value,
                           issuedAt.value, expiresAt.value, WrapUint32(maxActivations.value)))
  }

  /** The JSON of a request field by field, and no other field. */
  lemma RequestFields(r: LicenseRequest)
    ensures var j := RequestToJson(r);
            && j.JObj? && |j.fields| == 7
            && (forall k | k in [Field.product_id, Field.customer_hint, Field.fingerprint_hash,
                                 Field.fingerprint_assurance, Field.device_pubkey_b64, Field.timestamp, Field.nonce] ::
                  k in j.fields)
            && j.fields[Field.product_id] == JStr(r.productId) && j.fields[Field.customer_hint] == JStr(r.customerHint)
            && j.fields[Field.fingerprint_hash] == JStr(r.fingerprintHash)
            && j.fields[Field.fingerprint_assurance] == JStr(r.assurance)
            && j.fields[Field.device_pubkey_b64] == JStr(r.devicePubkeyB64) && j.fields[Field.nonce] == JStr(r.nonce)
            && j.fields[Field.timestamp] == JInt(r.timestamp)
  {
  }

  /** The JSON of a record field by field, and no other field. */
  lemma RecordFields(r: LicenseRecord)
    ensures var j := RecordToJson(r);
            && j.JObj? && |j.fields| == 8
            && (forall k | k in [Field.license_id, Field.product_id, Field.fingerprint_hash,
                                 Field.fingerprint_assurance, Field.features, Field.issued_at, Field.expires_at,
                                 Field.max_activations] :: k in j.fields)
            && j.fields[Field.license_id] == JStr(r.licenseId) && j.fields[Field.product_id] == JStr(r.productId)
            && j.fields[Field.fingerprint_hash] == JStr(r.fingerprintHash)
            && j.fields[Field.fingerprint_assurance] == JStr(r.assurance)
            && j.fields[Field.issued_at] == JInt(r.issuedAt) && j.fields[Field.expires_at] == JInt(r.expiresAt)
            && j.fields[Field.max_activations] == JInt(r.maxActivations)
            && j.fields[Field.features].JArr? && |j.fields[Field.features].items| == |r.features|
            && (forall i | 0 <= i < |r.features| :: j.fields[Field.features].items[i] == JStr(r.features[i]))
  {
  }

  ghost predicate HasStr(f: map<Field, Json>, key: Field) {
    key in f && f[key].JStr?
  }

  ghost predicate HasNumber(f: map<Field, Json>, key: Field) {
    key in f && f[key].JInt?
  }

  /** Which objects are requests, and what is read from one: only the assurance may be missing, and is "software"
      then. */
  lemma RequestReads(f: map<Field, Json>)
    ensures RequestFromJson(JObj(f)).Some?
            <==> && HasStr(f, Field.product_id) && HasStr(f, Field.customer_hint) && HasStr(f, Field.fingerprint_hash)
                 && (Field.fingerprint_assurance in f ==> f[Field.fingerprint_assurance].JStr?)
                 && HasStr(f, Field.device_pubkey_b64) && HasNumber(f, Field.timestamp) && HasStr(f, Field.nonce)
    ensures var q := RequestFromJson(JObj(f));
            q.Some? ==>
              && q.value.productId == f[Field.product_id].s && q.value.customerHint == f[Field.customer_hint].s
              && q.value.fingerprintHash == f[Field.fingerprint_hash].s
              && q.value.assurance
                 == (if Field.fingerprint_assurance in f then f[Field.fingerprint_assurance].s else Ascii("software"))
              && q.value.devicePubkeyB64 == f[Field.device_pubkey_b64].s && q.value.nonce == f[Field.nonce].s
              && q.value.timestamp == WrapInt64(f[Field.timestamp].n)
  {
    hide WrapInt64;
  }

  /** Which objects are records. */
  lemma RecordReads(f: map<Field, Json>)
    ensures RecordFromJson(JObj(f)).Some?
            <==> && HasStr(f, Field.license_id) && HasStr(f, Field.product_id) && HasStr(f, Field.fingerprint_hash)
                 && (Field.fingerprint_assurance in f ==> f[Field.fingerprint_assurance].JStr?)
                 && Field.features in f && f[Field.features].JArr?
                 && (forall x | x in f[Field.features].items :: x.JStr?)
                 && HasNumber(f, Field.issued_at) && HasNumber(f, Field.expires_at)
                 && Field.max_activations in f && (f[Field.max_activations].JInt? || f[Field.max_activations].JBool?)
  {
    if Field.features in f && f[Field.features].JArr? { StringsIs(f[Field.features].items); }
    hide WrapInt64, WrapUint32, Strings;
  }

  /** What is read from one. */
  lemma RecordValues(f: map<Field, Json>)
    ensures var r := RecordFromJson(JObj(f));
            r.Some? ==>
              && r.value.licenseId == f[Field.license_id].s && r.value.productId == f[Field.product_id].s
              && r.value.fingerprintHash == f[Field.fingerprint_hash].s
              && r.value.assurance
                 == (if Field.fingerprint_assurance in f then f[Field.fingerprint_assurance].s else Ascii("software"))
              && |r.value.features| == |f[Field.features].items|
              && (forall i | 0 <= i < |r.value.features| :: JStr(r.value.features[i]) == f[Field.features].items[i])
              && r.value.issuedAt == WrapInt64(f[Field.issued_at].n)
              && r.value.expiresAt == WrapInt64(f[Field.expires_at].n)
              && (f[Field.max_activations].JInt? ==>
                    r.value.maxActivations == WrapUint32(f[Field.max_activations].n))
              && (f[Field.max_activations].JBool? ==>
                    r.value.maxActivations == if f[Field.max_activations].b then 1 else 0)
  {
    RecordReads(f);
    if RecordFromJson(JObj(f)).Some? {
      StringsIs(f[Field.features].items);
    }
    assert WrapUint32(0) == 0 && WrapUint32(1) == 1;
    hide WrapInt64, WrapUint32, Strings;
  }

  lemma {:induction false} StringsIs(items: seq<Json>)
    ensures Strings(items).Some? <==> forall x | x in items :: x.JStr?
    ensures Strings(items).Some? ==>
              && |Strings(items).value| == |items|
              && forall i | 0 <= i < |items| :: JStr(Strings(items).value[i]) == items[i]
  {
    if items != [] {
      StringsIs(items[1..]);
      assert items == [items[0]] + items[1..];
    }
  }

  /** Text that is no JSON, or no object, is neither a request nor a record. */
  lemma ParsingIs(lib: Library, text: bytes)
    ensures lib.parse(text).None? || !lib.parse(text).value.JObj? ==>
              ParseRequest(lib, text) == None && ParseRecord(lib, text) == None
    ensures lib.parse(text).Some? ==>
              && ParseRequest(lib, text) == RequestFromJson(lib.parse(text).value)
              && ParseRecord(lib, text) == RecordFromJson(lib.parse(text).value)
  {
  }

  lemma {:induction false} StringsOfQuoted(ss: seq<bytes>)
    ensures Strings(Quoted(ss)) == Some(ss)
  {
    if ss != [] {
      assert Quoted(ss)[1..] == Quoted(ss[1..]);
      StringsOfQuoted(ss[1..]);
      assert ss == [ss[0]] + ss[1..];
    }
  }

  /** Reading a request back from its own JSON value gives it unchanged. */
  lemma RequestMapping(q: LicenseRequest)
    ensures RequestFromJson(RequestToJson(q)) == Some(q)
  {
    var f := RequestToJson(q).fields;
    assert f[Field.product_id] == JStr(q.productId) && f[Field.customer_hint] == JStr(q.customerHint);
    assert f[Field.fingerprint_hash] == JStr(q.fingerprintHash) && f[Field.fingerprint_assurance] == JStr(q.assurance);
    assert f[Field.device_pubkey_b64] == JStr(q.devicePubkeyB64) && f[Field.nonce] == JStr(q.nonce);
    assert f[Field.timestamp] == JInt(q.timestamp);
    hide RequestToJson;
  }

  /** Reading a record back from its own JSON value gives it unchanged. */
  lemma RecordMapping(r: LicenseRecord)
    ensures RecordFromJson(RecordToJson(r)) == Some(r)
  {
    var f := RecordToJson(r).fields;
    assert f[Field.license_id] == JStr(r.licenseId) && f[Field.product_id] == JStr(r.productId);
    assert f[Field.fingerprint_hash] == JStr(r.fingerprintHash) && f[Field.fingerprint_assurance] == JStr(r.assurance);
    assert f[Field.features] == JArr(Quoted(r.features)) && f[Field.max_activations] == JInt(r.maxActivations);
    assert f[Field.issued_at] == JInt(r.issuedAt) && f[Field.expires_at] == JInt(r.expiresAt);
    hide RecordToJson, Quoted, Strings;
    StringsOfQuoted(r.features);
  }

  function ParseRequest(lib: Library, text: bytes): Option<LicenseRequest> {
    var j :- lib.parse(text);
    RequestFromJson(j)
  }

  function ParseRecord(lib: Library, text: bytes): Option<LicenseRecord> {
    var j :- lib.parse(text);
    RecordFromJson(j)
  }

  /** Every string of the request, or of the record, is UTF-8. */
  ghost predicate RequestIsText(lib: Library, q: LicenseRequest) {
    && lib.utf8(q.productId) && lib.utf8(q.customerHint) && lib.utf8(q.fingerprintHash) && lib.utf8(q.assurance)
    && lib.utf8(q.devicePubkeyB64) && lib.utf8(q.nonce)
  }

  ghost predicate RecordIsText(lib: Library, r: LicenseRecord) {
    && lib.utf8(r.licenseId) && lib.utf8(r.productId) && lib.utf8(r.fingerprintHash) && lib.utf8(r.assurance)
    && forall f | f in r.features :: lib.utf8(f)
  }

  /** A request or record of text prints, and parses back to itself. */
  lemma PrintedRequestParses(lib: Library, q: LicenseRequest)
    requires JsonLaws(lib)
    ensures RequestIsText(lib, q) ==> lib.dump(RequestToJson(q), COMPACT).Some?
    ensures lib.dump(RequestToJson(q), COMPACT).Some? ==>
              ParseRequest(lib, lib.dump(RequestToJson(q), COMPACT).value) == Some(q)
  {
    RequestMapping(q);
    if RequestIsText(lib, q) { assert AllText(lib, RequestToJson(q)); }
    hide RequestToJson, RequestFromJson;
  }

  lemma PrintedRecordParses(lib: Library, r: LicenseRecord)
    requires JsonLaws(lib)
    ensures RecordIsText(lib, r) ==> lib.dump(RecordToJson(r), COMPACT).Some?
    ensures lib.dump(RecordToJson(r), COMPACT).Some? ==>
              ParseRecord(lib, lib.dump(RecordToJson(r), COMPACT).value) == Some(r)
  {
    RecordMapping(r);
    if RecordIsText(lib, r) {
      assert AllText(lib, JArr(Quoted(r.features)));
      assert AllText(lib, RecordToJson(r));
    }
    hide RecordToJson, RecordFromJson;
  }

  // ---------------------------------------------------------------- signing

  /** The token is base64(payload) "." base64(signature); the private key is a seed, or a seed and its public half. */
  function SignLicense(lib: Library, record: LicenseRecord, edPriv: bytes): Option<bytes>
    requires |edPriv| >= 32
  {
    var payload :- lib.dump(RecordToJson(record), COMPACT);
    Some(Token(payload, lib.edSign(edPriv[..32], payload)))
  }

  function Token(payload: bytes, sig: bytes): bytes {
    Base64.Encode(payload) + [DOT] + Base64.Encode(sig)
  }

  /** Signing in full: the compact JSON text and its signature under the first 32 bytes of the key, each in base64,
      around one dot. */
  lemma SignLicenseIs(lib: Library, record: LicenseRecord, edPriv: bytes)
    requires |edPriv| >= 32
    ensures SignLicense(lib, record, edPriv)
            == match lib.dump(RecordToJson(record), -1)
               case None => None
               case Some(text) => Some(Base64.Encode(text) + [46] + Base64.Encode(lib.edSign(edPriv[..32], text)))
  {
    hide RecordToJson, Base64.Encode;
  }

  // ---------------------------------------------------------------- verification

  datatype VerifyError =
    | NoDot
    | BadBase64(cause: Base64.DecodeError)
    | KeyRejected
    | SignatureFailed
    | PayloadParseFailed
    | Expired

  datatype Verdict = Valid(record: LicenseRecord) | Invalid(error: VerifyError)

  /** The payload and signature a token carries. */
  function SplitToken(token: bytes): Result<(bytes, bytes), VerifyError> {
    var dot := RFind(token, DOT);
    if dot < 0 then Err(NoDot)
    else
      match Base64.Decode(token[..dot])
      case Err(e) => Err(BadBase64(e))
      case Ok(payload) =>
        match Base64.Decode(token[dot + 1..])
        case Err(e) => Err(BadBase64(e))
        case Ok(sig) => Ok((payload, sig))
  }

  function VerifyLicense(lib: Library, token: bytes, edPub: bytes, now: int64): Verdict {
    match SplitToken(token)
    case Err(e) => Invalid(e)
    case Ok((payload, sig)) =>
      if |edPub| != 32 then Invalid(KeyRejected)
      else if !lib.edVerify(edPub, payload, sig) then Invalid(SignatureFailed)
      else
        match ParseRecord(lib, payload)
        case None => Invalid(PayloadParseFailed)
        case Some(r) => if r.expiresAt != 0 && now > r.expiresAt then Invalid(Expired) else Valid(r)
  }

  method VerifyToken(lib: Library, token: bytes, edPub: bytes, now: int64) returns (v: Verdict)
    ensures v == VerifyLicense(lib, token, edPub, now)
  {
    var dot := RFind(token, DOT);
    if dot == -1 { return Invalid(NoDot); }
    var payloadB64, sigB64 := token[..dot], token[dot + 1..];
    var payload := Base64.Base64Decode(payloadB64);
    if payload.Err? { return Invalid(BadBase64(payload.error)); }
    var sig := Base64.Base64Decode(sigB64);
    if sig.Err? { return Invalid(BadBase64(sig.error)); }
    if |edPub| != 32 { return Invalid(KeyRejected); }
    if !lib.edVerify(edPub, payload.value, sig.value) { return Invalid(SignatureFailed); }
    var rec := ParseRecord(lib, payload.value);
    if rec.None? { return Invalid(PayloadParseFailed); }
    if rec.value.expiresAt != 0 {
      if now > rec.value.expiresAt { return Invalid(Expired); }
    }
    return Valid(rec.value);
  }

  // ---------------------------------------------------------------- token theorems

  /** Splitting in full: at the last dot, the part before it decoded first. */
  lemma SplitIs(a: bytes, b: bytes)
    requires 46 !in b
    ensures SplitToken(a + [46] + b)
            == if Base64.Decode(a).Err? then Err(BadBase64(Base64.Decode(a).error))
               else if Base64.Decode(b).Err? then Err(BadBase64(Base64.Decode(b).error))
               else Ok((Base64.Decode(a).value, Base64.Decode(b).value))
    ensures 46 !in a ==> SplitToken(a) == Err(NoDot)
  {
    hide Base64.Decode, RFind;
    var t := a + [46] + b;
    forall k | |a| < k < |t| ensures t[k] != 46 { assert t[k] == b[k - |a| - 1] && b[k - |a| - 1] in b; }
    RFindIs(t, 46, |a|);
    assert t[..|a|] == a && t[|a| + 1..] == b;
    if 46 !in a { RFindIs(a, 46, -1); }
  }

  /** Verification in full: what a valid token is, and when each error is reported. */
  lemma VerdictIs(lib: Library, token: bytes, edPub: bytes, now: int64)
    ensures var v, s := VerifyLicense(lib, token, edPub, now), SplitToken(token);
            && (s.Err? ==> v == Invalid(s.error))
            && (s.Ok? && |edPub| != 32 ==> v == Invalid(KeyRejected))
            && (s.Ok? && |edPub| == 32 ==>
                  var (payload, sig) := s.value;
                  var r := ParseRecord(lib, payload);
                  && (v == Invalid(SignatureFailed) <==> !lib.edVerify(edPub, payload, sig))
                  && (v == Invalid(PayloadParseFailed) <==> lib.edVerify(edPub, payload, sig) && r == None)
                  && (v == Invalid(Expired) <==>
                        && lib.edVerify(edPub, payload, sig) && r.Some?
                        && r.value.expiresAt != 0 && now > r.value.expiresAt)
                  && forall record :: v == Valid(record) <==>
                       && lib.edVerify(edPub, payload, sig) && r == Some(record)
                       && (record.expiresAt == 0 || now <= record.expiresAt))
  {
    hide SplitToken, ParseRecord;
  }

  /** A token has exactly one dot, and splitting at the last dot recovers both halves. */
  lemma TokenShape(payload: bytes, sig: bytes)
    ensures var t, dot := Token(payload, sig), |Base64.Encode(payload)|;
            && RFind(t, DOT) == dot
            && (forall k | 0 <= k < |t| :: t[k] == DOT <==> k == dot)
            && t[..dot] == Base64.Encode(payload) && t[dot + 1..] == Base64.Encode(sig)
            && SplitToken(t) == Ok((payload, sig))
  {
    hide Base64.Encode, Base64.Decode;
    Base64.EncodeIsText(payload);
    Base64.EncodeIsText(sig);
    Base64.EncodeThenDecode(payload);
    Base64.EncodeThenDecode(sig);
    var t, dot := Token(payload, sig), |Base64.Encode(payload)|;
    assert t[..dot] == Base64.Encode(payload) && t[dot + 1..] == Base64.Encode(sig);
    forall k | 0 <= k < |t| ensures t[k] == DOT <==> k == dot {
      if k < dot {
        assert t[k] == t[..dot][k] && t[..dot][k] in Base64.Encode(payload);
      } else if k > dot {
        assert t[k] == t[dot + 1..][k - dot - 1] && t[dot + 1..][k - dot - 1] in Base64.Encode(sig);
      }
    }
    RFindIs(t, DOT, dot);
  }

  /** A signed token verifies under the matching key, and returns its record, exactly until the record expires. */
  lemma TokenRoundTrip(lib: Library, record: LicenseRecord, edPriv: bytes, now: int64)
    requires CryptoLaws(lib) && JsonLaws(lib) && |edPriv| >= 32
    ensures RecordIsText(lib, record) ==> SignLicense(lib, record, edPriv).Some?
    ensures var token := SignLicense(lib, record, edPriv);
            token.Some? ==> VerifyLicense(lib, token.value, lib.edPublic(edPriv[..32]), now)
                            == if record.expiresAt != 0 && now > record.expiresAt then Invalid(Expired)
                               else Valid(record)
  {
    PrintedRecordParses(lib, record);
    var payload := lib.dump(RecordToJson(record), COMPACT);
    if payload.Some? {
      hide Token, SplitToken;
      TokenShape(payload.value, lib.edSign(edPriv[..32], payload.value));
    }
  }

  /** The last dot of a text is still the last dot of its stripped form, between the stripped halves. */
  lemma DotSurvivesStrip(token: bytes)
    ensures RFind(token, DOT) < 0 ==> RFind(Base64.Strip(token), DOT) < 0
    ensures var dot, stripped := RFind(token, DOT), Base64.Strip(token);
            dot >= 0 ==>
              var at := |Base64.Strip(token[..dot])|;
              && RFind(stripped, DOT) == at
              && stripped[..at] == Base64.Strip(token[..dot])
              && stripped[at + 1..] == Base64.Strip(token[dot + 1..])
  {
    var dot := RFind(token, DOT);
    hide Base64.Strip, RFind;
    Base64.StripClean(token);
    if dot >= 0 {
      var a, b := token[..dot], token[dot + 1..];
      assert token == a + ([DOT] + b);
      StripAroundDot(a, b);
      Base64.StripClean(b);
      DotBetween(Base64.Strip(token), Base64.Strip(a), Base64.Strip(b));
    } else {
      assert DOT !in token;
      RFindIs(Base64.Strip(token), DOT, -1);
    }
  }

  lemma StripAroundDot(a: bytes, b: bytes)
    ensures Base64.Strip(a + ([DOT] + b)) == Base64.Strip(a) + ([DOT] + Base64.Strip(b))
  {
    Base64.StripConcat(a, [DOT] + b);
    assert ([DOT] + b)[1..] == b;
  }

  lemma DotBetween(s: bytes, a: bytes, b: bytes)
    requires s == a + ([DOT] + b) && DOT !in b
    ensures RFind(s, DOT) == |a| && s[..|a|] == a && s[|a| + 1..] == b
  {
    forall k | |a| < k < |s| ensures s[k] != DOT {
      assert s[k] == b[k - |a| - 1] && b[k - |a| - 1] in b;
    }
    RFindIs(s, DOT, |a|);
  }

  lemma SplitIgnoresLayout(token: bytes)
    ensures SplitToken(Base64.Strip(token)) == SplitToken(token)
  {
    DotSurvivesStrip(token);
    var dot := RFind(token, DOT);
    if dot >= 0 {
      Base64.StripTwice(token[..dot]);
      Base64.StripTwice(token[dot + 1..]);
      Base64.DecodeIgnoresLayout(Base64.Strip(token[..dot]), token[..dot]);
      Base64.DecodeIgnoresLayout(Base64.Strip(token[dot + 1..]), token[dot + 1..]);
    }
  }

  /** Two tokens that differ only in spaces and line ends get the same verdict, the reported error included. */
  lemma VerdictIgnoresLayout(lib: Library, token: bytes, other: bytes, edPub: bytes, now: int64)
    requires Base64.Strip(token) == Base64.Strip(other)
    ensures VerifyLicense(lib, token, edPub, now) == VerifyLicense(lib, other, edPub, now)
  {
    hide SplitToken, ParseRecord;
    SplitIgnoresLayout(token);
    SplitIgnoresLayout(other);
  }

  /** Inserting blanks anywhere is such a difference. */
  lemma BlanksAreLayout(before: bytes, blanks: bytes, after: bytes)
    requires forall c | c in blanks :: Base64.IsBlank(c)
    ensures Base64.Strip(before + blanks + after) == Base64.Strip(before + after)
  {
    hide Base64.Strip;
    Base64.StripConcat(before + blanks, after);
    Base64.StripConcat(before, blanks);
    Base64.StripConcat(before, after);
    Base64.StripBlanksOnly(blanks);
    assert Base64.Strip(before) + [] == Base64.Strip(before);
  }

  /** The clock changes a verdict only between valid and expired, and only once: a valid token was valid with the same
      record at every earlier time, and an expired one stays expired. */
  lemma VerdictOverTime(lib: Library, token: bytes, edPub: bytes, t1: int64, t2: int64)
    requires t1 <= t2
    ensures var v1, v2 := VerifyLicense(lib, token, edPub, t1), VerifyLicense(lib, token, edPub, t2);
            && (v2.Valid? ==> v1 == v2)
            && (v1 == Invalid(Expired) ==> v2 == Invalid(Expired))
            && (v1.Valid? ==> v2 == v1 || (v2 == Invalid(Expired) && v1.record.expiresAt != 0
                                           && t1 <= v1.record.expiresAt < t2))
  {
    hide SplitToken, ParseRecord;
  }

  // ---------------------------------------------------------------- freshness

  /** 64-bit subtraction, wrapping where it overflows. */
  predicate TimestampIsFresh(timestamp: int64, now: int64, maxAge: int64) {
    var delta := WrapInt64(now - timestamp);
    0 <= delta <= maxAge
  }

  /** The age of a timestamp is not a 64-bit number. */
  predicate AgeOverflows(timestamp: int64, now: int64) {
    !(-0x8000_0000_0000_0000 <= now - timestamp < 0x8000_0000_0000_0000)
  }

  /** A timestamp is accepted exactly when it is neither in the future nor older than the limit, or when its age wraps
      around into the window, which takes a clock before 1970. From 1970 on the age overflows exactly for timestamps
      more than 2^63 - 1 seconds back, and these are refused. */
  lemma FreshIff(timestamp: int64, now: int64, maxAge: int64)
    ensures TimestampIsFresh(timestamp, now, maxAge)
            <==> || 0 <= now - timestamp <= maxAge
                 || (AgeOverflows(timestamp, now) && now - timestamp <= maxAge - 0x1_0000_0000_0000_0000)
    ensures now >= 0 ==> (TimestampIsFresh(timestamp, now, maxAge) <==> 0 <= now - timestamp <= maxAge)
    ensures now >= 0 ==>
              && (AgeOverflows(timestamp, now) <==> timestamp < now - 0x7FFF_FFFF_FFFF_FFFF)
              && (AgeOverflows(timestamp, now) ==> !TimestampIsFresh(timestamp, now, maxAge))
  {
  }

  // ---------------------------------------------------------------- identifiers

  method GenerateUuid(rnd: Block16) returns (t: bytes)
    ensures t == UuidV4(rnd)
  {
    var buf := new byte[16](i requires 0 <= i < 16 => rnd[i]);
    buf[6] := buf[6] % 16 + 0x40;
    buf[8] := buf[8] % 64 + 0x80;
    assert buf[..] == rnd[..6] + [rnd[6] % 16 + 0x40] + [rnd[7]] + [rnd[8] % 64 + 0x80] + rnd[9..];
    return UuidText(buf[..]);
  }

  function UuidV4(rnd: Block16): bytes {
    UuidText(rnd[..6] + [rnd[6] % 16 + 0x40] + [rnd[7]] + [rnd[8] % 64 + 0x80] + rnd[9..])
  }

  /** All random bits but the six overwritten ones are in the identifier: without its dashes it parses to the bytes
      drawn, with version and variant put in. */
  lemma UuidKeepsDraw(rnd: Block16)
    ensures var t := UuidV4(rnd);
            FromHex(t[0..8] + t[9..13] + t[14..18] + t[19..23] + t[24..36])
            == Some([rnd[0], rnd[1], rnd[2], rnd[3], rnd[4], rnd[5], 64 + rnd[6] % 16, rnd[7], 128 + rnd[8] % 64,
                     rnd[9], rnd[10], rnd[11], rnd[12], rnd[13], rnd[14], rnd[15]])
  {
    var u := rnd[..6] + [rnd[6] % 16 + 0x40] + [rnd[7]] + [rnd[8] % 64 + 0x80] + rnd[9..];
    UuidTextIs(u);
    HexRoundTrip(u);
    assert u == [rnd[0], rnd[1], rnd[2], rnd[3], rnd[4], rnd[5], 64 + rnd[6] % 16, rnd[7], 128 + rnd[8] % 64,
                 rnd[9], rnd[10], rnd[11], rnd[12], rnd[13], rnd[14], rnd[15]];
    hide UuidText, Hex, FromHex;
  }

  /** Two draws agree on everything but the six bits that are overwritten. */
  predicate SameDraw(a: Block16, b: Block16) {
    a[0..6] == b[0..6] && a[6] % 16 == b[6] % 16 && a[7] == b[7] && a[8] % 64 == b[8] % 64 && a[9..16] == b[9..16]
  }

  /** Identifiers are equal exactly when the draws are. */
  lemma UuidsEqualIff(a: Block16, b: Block16)
    ensures UuidV4(a) == UuidV4(b) <==> SameDraw(a, b)
  {
    var u := a[..6] + [a[6] % 16 + 0x40] + [a[7]] + [a[8] % 64 + 0x80] + a[9..];
    var v := b[..6] + [b[6] % 16 + 0x40] + [b[7]] + [b[8] % 64 + 0x80] + b[9..];
    assert u[0..6] == a[0..6] && u[9..16] == a[9..16] && v[0..6] == b[0..6] && v[9..16] == b[9..16];
    assert a[..6] == a[0..6] && a[9..] == a[9..16] && b[..6] == b[0..6] && b[9..] == b[9..16];
    if UuidV4(a) == UuidV4(b) {
      UuidTextInjective(u, v);
      assert u[6] == v[6] && u[7] == v[7] && u[8] == v[8];
    }
    hide UuidText;
  }

  /** The layout of RFC 4122 section 3 with version 4 and variant 10xx, in ASCII. */
  lemma UuidShape(rnd: Block16)
    ensures var t := UuidV4(rnd);
            && |t| == 36 && t[14] == 52 && t[19] in {56, 57, 97, 98}
            && (forall k | 0 <= k < 36 :: t[k] == DASH <==> k in {8, 13, 18, 23})
            && (forall k | 0 <= k < 36 && k !in {8, 13, 18, 23} :: HexValue(t[k]).Some?)
            && (forall c | c in t :: c < 128)
  {
    var u := rnd[..6] + [rnd[6] % 16 + 0x40] + [rnd[7]] + [rnd[8] % 64 + 0x80] + rnd[9..];
    UuidLayout(u);
    assert u[6] == rnd[6] % 16 + 0x40 && u[8] == rnd[8] % 64 + 0x80;
  }

  lemma UuidLayout(u: bytes)
    requires |u| == 16
    ensures var t := UuidText(u);
            && t[14] == HexDigit(u[6] / 16) && t[19] == HexDigit(u[8] / 16)
            && (forall k | 0 <= k < 36 :: t[k] == DASH <==> k in {8, 13, 18, 23})
            && (forall k | 0 <= k < 36 && k !in {8, 13, 18, 23} :: HexValue(t[k]).Some?)
  {
    var a, b, c, d, e := Hex(u[0..4]), Hex(u[4..6]), Hex(u[6..8]), Hex(u[8..10]), Hex(u[10..16]);
    HexIsLowercase(u[0..4]);
    HexIsLowercase(u[4..6]);
    HexIsLowercase(u[6..8]);
    HexIsLowercase(u[8..10]);
    HexIsLowercase(u[10..16]);
    var t := UuidText(u);
    assert c[0] == HexDigit(u[6] / 16) && d[0] == HexDigit(u[8] / 16);
    hide Hex, UuidText;
    assert t == a + [DASH] + b + [DASH] + c + [DASH] + d + [DASH] + e;
    forall k | 0 <= k < 36
      ensures t[k] == DASH <==> k in {8, 13, 18, 23}
      ensures k !in {8, 13, 18, 23} ==> HexValue(t[k]).Some?
    {
      if k < 8 {
        assert t[k] == a[k] && a[k] in a;
      } else if 8 < k < 13 {
        assert t[k] == b[k - 9] && b[k - 9] in b;
      } else if 13 < k < 18 {
        assert t[k] == c[k - 14] && c[k - 14] in c;
      } else if 18 < k < 23 {
        assert t[k] == d[k - 19] && d[k - 19] in d;
      } else if 23 < k {
        assert t[k] == e[k - 24] && e[k - 24] in e;
      }
    }
  }
}
