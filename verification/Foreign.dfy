/** The foreign libraries: OpenSSL, Argon2 and the JSON library, as a record of functions and the laws they obey.
    Fixed output sizes are in the types. Randomness is always an argument, so each function is deterministic. */
module Foreign {
  import opened Bytes

  // ---------------------------------------------------------------- JSON values

  /** The field names of the JSON objects, spelt as in the text. */
  datatype Field =
    | product_id | customer_hint | fingerprint_hash | fingerprint_assurance | device_pubkey_b64 | timestamp | nonce
    | license_id | features | issued_at | expires_at | max_activations
    | version | tpm_sealed | tpm_blob_b64 | payload_b64 | argon2id | t_cost | m_cost | parallelism | salt_b64
    | server_x25519_pub | server_ed25519_pub
    | created_at | server_x25519_priv_b64 | server_x25519_pub_b64 | server_ed25519_priv_b64 | server_ed25519_pub_b64

  /** The integers a JSON value of the library can hold: signed or unsigned 64-bit. */
  type JsonInt = n: int | -0x8000_0000_0000_0000 <= n < 0x1_0000_0000_0000_0000

  /** The JSON values the programs build and read. */
  datatype Json =
    | JInt(n: JsonInt)
    | JBool(b: bool)
    | JStr(s: bytes)
    | JArr(items: seq<Json>)
    | JObj(fields: map<Field, Json>)

  datatype Argon2Params = Argon2Params(tCost: uint32, mCost: uint32, parallelism: uint32)

  const COMPACT := -1

  datatype Library = Library(
    sha256: bytes -> Block32,
    hkdf: (bytes, bytes, bytes) -> Block32,                                // input key, salt, info
    gcmSeal: (Block32, Block12, bytes, bytes) -> (bytes, Block16),         // key, nonce, aad, plaintext
    gcmOpen: (Block32, Block12, bytes, bytes, Block16) -> Option<bytes>,   // key, nonce, aad, ciphertext, tag
    xPublic: Block32 -> Block32,
    xExchange: (bytes, bytes) -> Option<Block32>,                          // own private, peer public
    edPublic: Block32 -> Block32,
    edSign: (Block32, bytes) -> Block64,                                   // seed, message
    edVerify: (Block32, bytes, bytes) -> bool,                             // public, message, signature
    argon2: (bytes, bytes, Argon2Params) -> Option<Block32>,               // passphrase, salt, cost
    dump: (Json, int) -> Option<bytes>,                                    // value, indentation
    parse: bytes -> Option<Json>,
    utf8: bytes -> bool)

  // ---------------------------------------------------------------- laws

  /** Opening what was sealed under the same key, nonce and associated data gives the plaintext back. */
  ghost predicate GcmCorrect(lib: Library) {
    forall k: Block32, n: Block12, a: bytes, p: bytes {:trigger lib.gcmSeal(k, n, a, p)} ::
      var (ct, tag) := lib.gcmSeal(k, n, a, p);
      |ct| == |p| && lib.gcmOpen(k, n, a, ct, tag) == Some(p)
  }

  /** Both ends of an exchange of generated keys compute the same secret. */
  ghost predicate ExchangeCommutes(lib: Library) {
    forall a: Block32, b: Block32 {:trigger lib.xExchange(a, lib.xPublic(b))} ::
      lib.xExchange(a, lib.xPublic(b)).Some? && lib.xExchange(a, lib.xPublic(b)) == lib.xExchange(b, lib.xPublic(a))
  }

  ghost predicate SignaturesVerify(lib: Library) {
    forall seed: Block32, m: bytes {:trigger lib.edSign(seed, m)} ::
      lib.edVerify(lib.edPublic(seed), m, lib.edSign(seed, m))
  }

  ghost predicate CryptoLaws(lib: Library) {
    GcmCorrect(lib) && ExchangeCommutes(lib) && SignaturesVerify(lib)
  }

  /** Every string inside a value is UTF-8, which is what printing it needs. */
  ghost predicate AllText(lib: Library, j: Json) {
    match j
    case JStr(s) => lib.utf8(s)
    case JArr(items) => forall x | x in items :: AllText(lib, x)
    case JObj(fields) => forall k | k in fields :: AllText(lib, fields[k])
    case _ => true
  }

  /** Printing succeeds on text, and parsing undoes it at any indentation. ASCII is text. */
  ghost predicate JsonLaws(lib: Library) {
    && (forall j: Json, indent: int {:trigger lib.dump(j, indent)} ::
          && (AllText(lib, j) ==> lib.dump(j, indent).Some?)
          && (lib.dump(j, indent).Some? ==> lib.parse(lib.dump(j, indent).value) == Some(j)))
    && (forall s: bytes {:trigger lib.utf8(s)} :: (forall c | c in s :: c < 128) ==> lib.utf8(s))
  }

  ghost predicate Laws(lib: Library) {
    CryptoLaws(lib) && JsonLaws(lib)
  }

  /** The ideal property of one ciphertext against one attempt: under another key or other associated data it does
      not open. */
  ghost predicate Rejects(lib: Library, key: Block32, nonce: Block12, aad: bytes, plain: bytes, k: Block32, a: bytes) {
    var (ct, tag) := lib.gcmSeal(key, nonce, aad, plain);
    (k == key && a == aad) || lib.gcmOpen(k, nonce, a, ct, tag).None?
  }

  const ZERO16: Block16 := seq(16, i => 0)
  const ZERO64: Block64 := seq(64, i => 0)

  /** The cryptographic laws contradict nothing: any JSON library extends to a library that obeys them. */
  lemma CryptoLawsHaveAModel(lib: Library) returns (toy: Library)
    ensures CryptoLaws(toy)
    ensures JsonLaws(lib) ==> Laws(toy)
  {
    toy := lib.(
      gcmSeal := (k: Block32, n: Block12, a: bytes, p: bytes) => (p, ZERO16),
      gcmOpen := (k: Block32, n: Block12, a: bytes, ct: bytes, tag: Block16) => Some(ct),
      xPublic := (p: Block32) => p,
      xExchange := (a: bytes, b: bytes) => Some(
        seq(32, i requires 0 <= i < 32 => if i < |a| && i < |b| then (a[i] as int + b[i] as int) % 256 else 0)),
      edPublic := (s: Block32) => s,
      edSign := (s: Block32, m: bytes) => ZERO64,
      edVerify := (p: Block32, m: bytes, s: bytes) => true);
    forall a: Block32, b: Block32
      ensures toy.xExchange(a, toy.xPublic(b)).Some?
      ensures toy.xExchange(a, toy.xPublic(b)) == toy.xExchange(b, toy.xPublic(a))
    {
      assert toy.xExchange(a, b).value == toy.xExchange(b, a).value;
    }
    assert JsonLaws(lib) ==> JsonLaws(toy) by {
      forall j: Json ensures AllText(lib, j) == AllText(toy, j) { SameText(lib, toy, j); }
    }
  }

  lemma {:induction false} SameText(lib: Library, other: Library, j: Json)
    requires lib.utf8 == other.utf8
    ensures AllText(lib, j) == AllText(other, j)
  {
    match j
    case JArr(items) => forall x | x in items ensures AllText(lib, x) == AllText(other, x) { SameText(lib, other, x); }
    case JObj(fields) =>
      forall k | k in fields ensures AllText(lib, fields[k]) == AllText(other, fields[k]) {
        SameText(lib, other, fields[k]);
      }
    case _ =>
  }
}
