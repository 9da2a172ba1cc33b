# Offline licence system: a verified model

The system has three parties. A vendor creates keys and keeps them in an encrypted keystore. A customer's machine sends
an encrypted request that names a product and carries a hardware fingerprint. The vendor answers with a signed token.
The client activates the token, seals it on disk under a key bound to the machine, and checks it again at every start.

The model covers the code between the foreign libraries, component by component, and then the whole exchange as a
transition system.

| file | component |
|---|---|
| `Bytes.dfy` | bytes, machine integers, big-endian words, hexadecimal, UUID text |
| `Base64.dfy` | `base64_encode`, `base64_decode` |
| `Foreign.dfy`, `ToyLibrary.dfy` | OpenSSL, Argon2 and the JSON library as functions with laws; a library that obeys them all |
| `Crypto.dfy` | AES-GCM framing, hybrid encryption, comparison |
| `Fingerprint.dfy`, `Smbios.dfy` | fingerprint encoding, SMBIOS table walk |
| `TpmLinux.dfy` | blob framing of the Linux TPM backend |
| `Files.dfy`, `SoftwareTpm.dfy` | paths and files; the software provider and its store |
| `License.dfy` | requests, records, tokens, verification |
| `Keystore.dfy`, `Server.dfy`, `Client.dfy` | keystore file, `generate-license`, the client library |
| `Protocol.dfy` | worlds, steps, runs: safety, store refinement, completeness |

Code that changes things step by step is a method (with a loop, an array, a buffer object or a file system where the
source has one) whose `ensures` ties it to a function; the lemmas are about those functions. `Protocol` composes the
functions. Lemmas whose names end in `Is`, `Are`, `Reads` or `Fields` write an operation out in full: literal texts,
numbers, field by field and error by error, in terms of the foreign functions.

## Conventions

- A C++ `std::string` and a `std::vector<uint8_t>` are both sequences of bytes. A byte is an integer from 0 to 255.
- Shifts and masks of unsigned words are divisions and remainders by powers of two; the or of disjoint fields is a sum.
  32-bit and 64-bit wrap-around is written out. Signed 64-bit overflow is undefined in C++; the model takes it as two's
  complement. It occurs in two places. In `timestamp_is_fresh`, from 1970 on, exactly for timestamps more than 2^63 - 1
  seconds back, which are then refused (`License.FreshIff`). In `expires_at` exactly when `issued_at + 86400 * days` is
  2^63 or more, and the licence is then expired at once (`Server.LifetimeIff`).
- An exception is an error value; a library call that catches exceptions returns it as its result.
- Random bytes and the clock are arguments, one for each reading: `generate-license` reads the clock when it checks the
  request and again when it dates the licence, every other operation once.
- The JSON library is not part of this model. Its integers are the signed and unsigned 64-bit ones. A 64-bit field takes
  numbers only, a field of another width takes Booleans too, as that library's conversions do.

## Assumptions

- `Foreign.CryptoLaws` holds of the real primitives: decryption undoes encryption, X25519 commutes on generated keys,
  signatures verify under their key.
- `Foreign.JsonLaws`: printing succeeds on UTF-8 text and parsing undoes it. `ToyLibrary.LawsHaveAModel` shows that all
  the laws together contradict nothing.
- Ideal security is never assumed of all inputs, only of the attempt at hand: `Foreign.Rejects` (one ciphertext, one
  other key or associated data), `Fingerprint.NoCollision` (two hash inputs), `Protocol.OpensWhatWasSealed` (one
  unsealing), `Protocol.VerifiesWhatWasSigned` (one token) and `Protocol.KeysApart` (two derived keys, for a request
  whose associated data starts with `license-`). Within a run only `KeysApart` is asked, of each
  such request.
  `Protocol.IssuedTokenIsSigned` and `Protocol.ActivatedTokenWasSealed` show that honest steps meet them, and
  `Protocol.HonestRunMeetsAssumptions` that a whole honest run does: the assumptions of `Protocol.Safety` hold of it.
- Product names are not empty and contain no `/` and no zero byte (`Files.NameOk`).

## Where the code does less than one might expect

- `verify_at_startup` never compares the product it was asked for with the record's.
  `Protocol.StartupReportsItsProduct` shows that they agree all the same, through an invariant on what was sealed.
- The decoder accepts '=' anywhere and ignores unused bits, so `encode(decode(s))` is the stripped text only for
  canonical text: `Base64.DecodeThenEncode` gives the exact condition, `Base64.NonCanonicalIsAccepted` an accepted text
  that is not.
- The length checks of the Linux TPM blob add in 32 bits. `TpmLinux.AcceptanceIsSoundIff` says exactly when an accepted
  blob has both fields inside it and when the second length is looked up outside; `TpmLinux.WrappedLengthIsAccepted` and
  `TpmLinux.WrappedLengthIsLookedUpOutside` give a blob for each failure.
- The Linux TPM backend ignores labels and keeps 128 bytes: `TpmLinux.SealRoundTrip`, and for tokens
  `Client.LinuxTpmKeepsTokenIff`. The end-to-end results are therefore about the software provider.
- The SMBIOS walk takes sixteen UUID bytes without checking that they are there; `Smbios.ReadsPastEndIff` says when they
  are not, `Smbios.CutOffStructureIsReached` gives such buffers, `Smbios.NoCutOffNoOverread` a condition that excludes
  them without walking, and `Smbios.WalkRefinesTable` shows that this never happens on a well-formed table.
- `deactivate` removes the licence file and leaves the sealed copy that `activate` made in the provider's store.
  `Protocol.StoreRefinesMap` says that there is no licence while nobody writes the file again,
  `Protocol.SealedCopyOutlivesDeactivation` that the copy remains, over any run, the last activated token, and
  `Protocol.StartupValidIff` exactly which files in its place are a licence.
- `common/include/license.h:81-88` says `verify_license` checks the fingerprint, and lines 6-7 that the payload is plain
  JSON. The code leaves the fingerprint to the client library and encodes the payload in base64. The model follows it.
- `common/src/keystore.cpp:130` announces a version in the associated data; the code uses the fixed text only.

## Model

| member | source | states |
|---|---|---|
| Base64.DecodeTable | common/src/crypto.cpp:122-128 | The table built in place maps every byte to its value, -1 outside the alphabet, 0 for the padding sign |
| Base64.AlphabetIndex | common/src/crypto.cpp:77-78 | The arithmetic alphabet is the literal one |
| Base64.AlphabetIs | common/src/crypto.cpp:77-78 | The alphabet of RFC 4648 section 4, letter for letter |
| Base64.TableIs | common/src/crypto.cpp:122-128 | Places in that alphabet, 0 for '=', -1 for everything else |
| Base64.Base64Encode | common/src/crypto.cpp:86-117 | The pointer loop computes the encoding the lemmas below are about |
| Base64.StripBlanks | common/src/crypto.cpp:130-135 | The first loop of the decoder removes exactly spaces, CR and LF |
| Base64.StripOne | common/src/crypto.cpp:130-135 | Which single characters are blanks |
| Base64.Base64Decode | common/src/crypto.cpp:119-157 | The decoding loop computes the decoding below, error kinds included |
| Base64.EncodeIsSameNumber | common/src/crypto.cpp:92-115 | The text read in base 64 is the number the data spell in base 256: the bit layout of RFC 4648 section 4 |
| Base64.EncodeGroupIs | common/src/crypto.cpp:92-115 | The four characters of one, two and three bytes, bit by bit, padding included |
| Base64.DecodeGroupIs | common/src/crypto.cpp:141-155 | The bytes of four characters, bit by bit, for '=' in any place |
| Base64.EncodeThenDecode | common/src/crypto.cpp:86-157 | decode(encode(x)) is x for all bytes |
| Base64.DecodeThenEncode | common/src/crypto.cpp:86-157 | encode(decode(s)) is the stripped s if and only if that is canonical |
| Base64.NonCanonicalIsAccepted | common/src/crypto.cpp:141-155 | A text that is accepted though its decoding encodes to another one |
| Base64.DecodeAccepts | common/src/crypto.cpp:130-156 | Success iff the stripped length is a multiple of four and all characters are in the alphabet or '='; wrong length is reported first; exact output length |
| Base64.DecodeConcat | common/src/crypto.cpp:130-156 | Decoding distributes over concatenation where the first text strips to whole groups, with the priority of the errors |
| Base64.EncodeConcat | common/src/crypto.cpp:92-102 | Encoding distributes over concatenation at three-byte boundaries |
| Base64.EncodeLength | common/src/crypto.cpp:89 | The encoder fills exactly the space it reserves |
| Base64.EncodeIsText | common/src/crypto.cpp:96-114 | No '.' and no blank in encoded text |
| Foreign.CryptoLawsHaveAModel | common/include/crypto.h:82-190 | The laws assumed of the primitives are consistent |
| ToyLibrary.LawsHaveAModel | common/include/crypto.h:82-190 | All laws, those of the JSON library included, hold of one library |
| Crypto.CtEqual | common/src/crypto.cpp:178-182 | True exactly for equal contents |
| Crypto.Aes256GcmEncrypt | common/src/crypto.cpp:251-308 | Key length check, then nonce, ciphertext and tag in this order |
| Crypto.Aes256GcmDecrypt | common/src/crypto.cpp:310-366 | Length checks, the three slices, and the authentication failure |
| Crypto.GcmFraming | common/src/crypto.cpp:301-324 | The slices of any long enough blob put it back together, and those of a fresh one are its parts |
| Crypto.GcmEncryptIs | common/src/crypto.cpp:251-308 | Nonce, ciphertext and tag under a 32-byte key, and nothing under another |
| Crypto.GcmDecryptIs | common/src/crypto.cpp:310-366 | For every key, associated data and blob: decrypted iff 32 and at least 28 bytes and authentic in these slices; the exact condition of each error |
| Crypto.GcmRoundTrip | common/src/crypto.cpp:251-366 | Decryption undoes encryption, and an ideal ciphertext opens under nothing else |
| Crypto.HybridEncryptBlob | common/src/crypto.cpp:487-520 | Exchange, derivation, encryption and framing, with the exchange failure |
| Crypto.HybridDecryptBlob | common/src/crypto.cpp:522-554 | Minimal length, slices, exchange, derivation, decryption |
| Crypto.HybridFraming | common/src/crypto.cpp:510-534 | A blob is ephemeral key, nonce, ciphertext, tag; it is 60 bytes longer than its plaintext |
| Crypto.HybridEncryptIs | common/src/crypto.cpp:485-520 | The derived key, the parts and their order, with the literal label |
| Crypto.HybridDecryptIs | common/src/crypto.cpp:522-554 | Nothing below 60 bytes; otherwise the slices at 32, 44 and 16 from the end, under the key derived from the first 32 bytes |
| Crypto.HybridRoundTrip | common/src/crypto.cpp:487-554 | The recipient recovers the plaintext, and under other associated data nothing |
| Fingerprint.ByteBuffer.WriteLen32 | common/src/fingerprint.cpp:74-79 | Appends the big-endian length |
| Fingerprint.ByteBuffer.AppendComponent | common/src/fingerprint.cpp:82-85 | Appends the 32-bit length and the bytes |
| Fingerprint.InputIs | common/src/fingerprint.cpp:285-298 | The hash input: "LFPV1", then key, UUID, processor and disk, each after its 32-bit length |
| Fingerprint.InputDecodes | common/src/fingerprint.cpp:285-298 | A parser recovers key, UUID, processor and disk from the hash input if and only if each is shorter than 2^32 bytes |
| Fingerprint.AssuranceOf | common/src/fingerprint.cpp:300-305 | The printed hash; bound to the TPM, and called "hardware", iff a key was asked for and there |
| Fingerprint.ToHex | common/src/fingerprint.cpp:50-56 | The printing loop yields the hexadecimal text of the bytes |
| Bytes.HexRoundTrip | common/src/fingerprint.cpp:50-56 | The hexadecimal text parses back to the bytes |
| Bytes.HexAt | common/src/fingerprint.cpp:50-56 | Each byte as two lower-case digits, the high one first |
| Bytes.Be32IsBigEndian | common/src/fingerprint.cpp:74-79 | The four bytes of a length, the high one first |
| Fingerprint.ComputeFingerprint | common/src/fingerprint.cpp:274-305 | Hash, binding flag and assurance of the four components, an absent key counting as empty |
| Fingerprint.VerifyFingerprint | common/src/fingerprint.cpp:315-322 | Compares the current hash, with or without the TPM, with the expected one |
| Fingerprint.VerifyIffSameParts | common/src/fingerprint.cpp:285-322 | A stored hash verifies iff UUID, processor, disk and endorsement key are those behind it, an absent or ignored key counting as empty on either side |
| Fingerprint.HashShape | common/src/fingerprint.cpp:300-302 | 64 hexadecimal digits |
| Smbios.SmbiosUuidWalk | common/src/fingerprint.cpp:109-142 | For every buffer both loops end, all header and scan reads are in bounds, and the result is the walk below |
| Smbios.SkipStringsIsFirst | common/src/fingerprint.cpp:137-140 | For every buffer the scan stops at the first two zero bytes, or at its end |
| Smbios.ScanStopsAtBoundary | common/src/fingerprint.cpp:137-140 | The string scan stops exactly at the next structure |
| Smbios.WalkRefinesTable | common/src/fingerprint.cpp:109-142 | On a well-formed table the walk returns the UUID of the first type-1 structure of length 25 or more, else nothing (sections 6.1.2, 6.1.3 and 7.2 of DMTF DSP0134) |
| Smbios.PrintedIdentifier | common/src/fingerprint.cpp:109-142 | A table given byte by byte, and the printed identifier digit by digit (section 7.2.1 of DMTF DSP0134) |
| Smbios.ReadsPastEndIff | common/src/fingerprint.cpp:121-134 | The UUID bytes leave the buffer iff the walk arrives at a cut-off type-1 structure |
| Smbios.NoCutOffNoOverread | common/src/fingerprint.cpp:112-134 | Without a place near the end that looks like a cut-off type-1 structure nothing is read outside |
| Smbios.CutOffStructureIsReached | common/src/fingerprint.cpp:112-134 | A family of 32-byte buffers on which the walk arrives at one |
| Smbios.MixedEndianIsNumeric | common/src/fingerprint.cpp:126-133 | The printed fields are the numbers stored low byte first (section 7.2.1 of DMTF DSP0134) |
| Bytes.UuidTextInjective | common/src/fingerprint.cpp:126-134 | Different identifiers print differently |
| Bytes.UuidDigitsAt | common/src/fingerprint.cpp:126-134 | Where the two digits of each of the sixteen bytes stand in the text |
| TpmLinux.FrameBuffers | common/src/tpm_linux.cpp:319-335 | The blob built from the two fixed buffers |
| TpmLinux.FrameRoundTrip | common/src/tpm_linux.cpp:325-361 | Unframing returns both parts exactly |
| TpmLinux.FrameIs | common/src/tpm_linux.cpp:325-335 | The blob written out |
| TpmLinux.UnframeIs | common/src/tpm_linux.cpp:338-353 | Which comparison refuses which blob, with the 32-bit sums, and the lengths handed on |
| TpmLinux.AcceptanceIsSoundIff | common/src/tpm_linux.cpp:338-361 | An accepted blob has both fields inside it iff the 32-bit sum of the lengths does not wrap; the second length is looked up outside iff the first is one of 2^32 - 8 to 2^32 - 5 |
| TpmLinux.WrappedLengthIsAccepted | common/src/tpm_linux.cpp:348-353 | A blob whose lengths wrap and which is accepted with its fields outside |
| TpmLinux.WrappedLengthIsLookedUpOutside | common/src/tpm_linux.cpp:348-351 | A blob whose second length is looked up outside it |
| TpmLinux.SealRoundTrip | common/src/tpm_linux.cpp:274-390 | With an ideal TPM the secret comes back cut to 128 bytes, under any label |
| TpmLinux.SealIs | common/src/tpm_linux.cpp:274-335 | The TPM gets the first 128 bytes; a failing creation is an error |
| TpmLinux.UnsealIs | common/src/tpm_linux.cpp:338-390 | The TPM gets the two fields of the blob; each failure |
| Files.PathsAreDisjoint | common/src/tpm_software.cpp:56-62 | Secret, device keys, seals and licences never share a path, and within a kind the name decides |
| Files.StemOfDevKeyPath | common/src/tpm_software.cpp:180 | The stem of a product's key path is the product |
| Files.PathsAre | common/src/tpm_software.cpp:44-62 | The four kinds of file of a home directory, written out |
| Files.StemIs | common/src/tpm_software.cpp:180 | The stem of any path: up to the last dot of its name, unless that comes first |
| SoftwareTpm.SoftwareTpmProvider.DeriveMachineKey | common/src/tpm_software.cpp:75-101 | Creates the secret once, refuses a short one, derives the label's key |
| SoftwareTpm.SoftwareTpmProvider.GetOrCreateDeviceKey | common/src/tpm_software.cpp:147-174 | Loads the stored key or creates and seals one |
| SoftwareTpm.SoftwareTpmProvider.SignWithDeviceKey | common/src/tpm_software.cpp:176-185 | Unseals the key behind the handle and signs |
| SoftwareTpm.SoftwareTpmProvider.Seal | common/src/tpm_software.cpp:187-196 | Seals under the label and keeps the blob in the store |
| SoftwareTpm.SoftwareTpmProvider.UnsealBlob | common/src/tpm_software.cpp:251-255 | Opens under the label's key |
| SoftwareTpm.SealThenUnseal | common/src/tpm_software.cpp:187-203 | What is sealed under a label is unsealed under it from any later store with the same secret |
| SoftwareTpm.MachineKeyIs | common/src/tpm_software.cpp:75-101 | The secret read, or drawn and stored; refused below 32 bytes; the key derived without salt from the label |
| SoftwareTpm.SealBlobIs | common/src/tpm_software.cpp:245-249 | Nonce, ciphertext and tag under that key, the label as associated data |
| SoftwareTpm.UnsealBlobIs | common/src/tpm_software.cpp:251-255 | What opens, and each failure, a short blob included |
| SoftwareTpm.SealIs | common/src/tpm_software.cpp:187-196 | What is returned is what is stored |
| SoftwareTpm.StoredKeyIs | common/src/tpm_software.cpp:151-161 | Bytes 32 to 64 of the opened file, its path as the handle, and each failure |
| SoftwareTpm.NewKeyIs | common/src/tpm_software.cpp:163-173 | Seed and public half sealed under the product's label and stored |
| SoftwareTpm.SignIs | common/src/tpm_software.cpp:176-185 | The first 32 bytes of the handle's file sign, and each failure |
| SoftwareTpm.DeviceKeyIsStored | common/src/tpm_software.cpp:147-174 | Succeeds in a valid store, keeps it valid, keeps every other key, and stores what it returns |
| SoftwareTpm.DeviceKeyStable | common/src/tpm_software.cpp:147-185 | Asking again returns the same key and handle, writes nothing, and its signatures verify |
| License.RequestMapping | common/src/license.cpp:48-76 | A request survives its JSON mapping |
| License.RecordMapping | common/src/license.cpp:82-111 | A record survives its JSON mapping |
| License.RequestFields | common/src/license.cpp:48-59 | The JSON of a request, field by field |
| License.RecordFields | common/src/license.cpp:82-94 | The JSON of a record, field by field |
| License.RequestReads | common/src/license.cpp:61-76 | Which objects are requests and what is read from them; only the assurance has a default |
| License.RecordReads | common/src/license.cpp:95-111 | Which objects are records |
| License.RecordValues | common/src/license.cpp:95-111 | What is read from a record |
| License.PrintedRecordParses | common/src/license.cpp:82-111 | A record of text prints, and whatever prints parses back to it |
| License.VerifyToken | common/src/license.cpp:143-197 | The steps of verification in order, with each error |
| License.SignLicenseIs | common/src/license.cpp:117-137 | The token written out: compact text, its signature under the first 32 key bytes, both in base64 |
| License.SplitIs | common/src/license.cpp:149-172 | The split at the last dot, for every text, and the order of its errors |
| License.VerdictIs | common/src/license.cpp:143-197 | Exactly when a token is valid and when each error is reported |
| License.TokenShape | common/src/license.cpp:134-155 | Exactly one dot, and the split recovers both halves and both contents |
| License.TokenRoundTrip | common/src/license.cpp:117-197 | A signed token verifies under the matching key and returns its record, exactly until it expires |
| License.VerdictIgnoresLayout | common/src/license.cpp:149-172 | Tokens that differ in blanks only get the same verdict, the error included |
| License.BlanksAreLayout | common/src/crypto.cpp:130-135 | Inserting blanks anywhere is such a difference |
| License.VerdictOverTime | common/src/license.cpp:184-192 | The clock turns valid into expired once, at the expiry, and nothing back |
| License.FreshIff | common/src/license.cpp:203-209 | Accepted iff 0 to 86400 seconds old, from 1970 on; exactly when the age overflows, and that a timestamp is then refused |
| License.GenerateUuid | common/src/license.cpp:25-42 | The in-place bit setting and the printing |
| License.UuidShape | common/src/license.cpp:25-42 | The layout of RFC 4122 with version 4 and its variant |
| License.UuidKeepsDraw | common/src/license.cpp:25-42 | Without dashes the text parses to the drawn bytes with the six bits put in |
| License.UuidsEqualIff | common/src/license.cpp:25-42 | Two identifiers are equal iff the draws agree on all other bits |
| Keystore.GenerateKeystore | common/src/keystore.cpp:85-160 | Writes exactly the generated file, or nothing on failure |
| Keystore.LoadKeystore | common/src/keystore.cpp:166-242 | The steps of loading in order, with each error |
| Keystore.FreshKeysAre | common/src/keystore.cpp:93-95 | Private and public halves of both key pairs; the signing key is seed and public half |
| Keystore.GetBytesIs | common/src/keystore.cpp:193-241 | What a base64 field yields, and its two failures |
| Keystore.InnerFields | common/src/keystore.cpp:97-105 | The encrypted part, field by field |
| Keystore.OuterFieldsAre | common/src/keystore.cpp:139-151 | The readable part, field by field |
| Keystore.GenerateIs | common/src/keystore.cpp:85-160 | Generation written out, with the literal label and associated data, and each failure |
| Keystore.ReadOuterIs | common/src/keystore.cpp:172-193 | What is read from the readable part, its two defaults, and each failure |
| Keystore.ReadInnerIs | common/src/keystore.cpp:224-241 | What is read from the encrypted part, and which failure is reported |
| Keystore.LoadIs | common/src/keystore.cpp:166-242 | Loading written out: which check comes when, and each failure |
| Keystore.GenerateSucceeds | common/src/keystore.cpp:85-160 | Succeeds iff Argon2 does and a given provider seals, and returns the public halves of the stored keys |
| Keystore.LoadIff | common/src/keystore.cpp:85-242 | A generated keystore loads iff the passphrase derives its master key and, if sealed, a provider unseals that key; what loads is what was generated |
| Keystore.LinuxTpmKeystoreLoads | common/src/keystore.cpp:115-210 | Sealed by a Linux TPM it loads again there |
| Server.ParseFeatures | server/src/main.cpp:104-111 | The getline loop computes the feature list below |
| Server.FeaturesOfOne | server/src/main.cpp:104-111 | A text without a comma is one feature, the empty one none |
| Server.SpelledFeaturesParse | server/src/main.cpp:104-111 | A list of names joined by commas parses back to itself |
| Server.FeaturesAreNames | server/src/main.cpp:104-111 | No parsed feature is empty or contains a comma |
| Server.FeaturesConcat | server/src/main.cpp:104-111 | Parsing distributes over commas, for all texts |
| Server.AadInjective | server/src/main.cpp:244-245 | Different products have different associated data |
| Server.MakeAadIs | server/src/main.cpp:244-245 | The literal text |
| Server.KeyFileFields | server/src/main.cpp:161-170 | The public key file, field by field |
| Server.BuildRecordIs | server/src/main.cpp:273-287 | Where each field of a record comes from |
| Server.DecryptRequestIs | server/src/main.cpp:236-261 | Decoding, decryption and parsing, with an error for each |
| Server.IssueIs | server/src/main.cpp:236-295 | Exactly when each refusal is reported and when a licence is signed |
| Server.LicenseIdsEqualIff | server/src/main.cpp:275 | Two licences have the same id iff their random bytes agree outside the six fixed bits |
| Server.GenerateLicense | server/src/main.cpp:236-295 | Decode, decrypt, parse, the three refusals, build and sign, in this order and with both clock readings |
| Server.LifetimeIff | server/src/main.cpp:280-286 | From 1970 on 0 marks exactly the unlimited licences; valid at t iff unlimited, or within the days and the date fits 64 bits |
| Client.KeyFileLoads | client/src/license_client.cpp:34-62 | The key file written with a keystore, sealed or not, loads as the public halves of its keys |
| Client.LoadServerKeysIs | client/src/license_client.cpp:34-62 | Which key files load, as what, and each failure |
| Client.LicenseClient.ActivateToken | client/src/license_client.cpp:165-199 | Verify, compare the fingerprint, seal, store; the new files are stated whole |
| Client.LicenseClient.VerifyLicenseAtStartup | client/src/license_client.cpp:205-256 | Read, unseal, verify, compare; each error |
| Client.LicenseClient.DeactivateProduct | client/src/license_client.cpp:262-276 | The licence file is gone and nothing else changed |
| Client.LicenseClient.MakeRequest | client/src/license_client.cpp:119-159 | Fingerprint, device key, request text, encryption, encoding; the fingerprint and its assurance are returned too |
| Client.SealLabelIs | client/src/license_client.cpp:186-187 | The literal label |
| Client.CheckTokenIs | client/src/license_client.cpp:171-181 | Accepted iff valid and of this machine's fingerprint, the verdict first |
| Client.ActivateIs | client/src/license_client.cpp:165-199 | What is stored where, what is reported, and each failure |
| Client.VerifyAtStartupIs | client/src/license_client.cpp:205-256 | Each failure, and each reported field |
| Client.ShortFileDoesNotUnseal | client/src/license_client.cpp:218-229 | A licence file below 28 bytes is reported as one that does not unseal |
| Client.DeactivateIs | client/src/license_client.cpp:262-276 | One file less, every other as it was |
| Client.GenerateRequestIs | client/src/license_client.cpp:119-159 | The request written out, field by field, and each failure |
| Client.ActivateEffect | client/src/license_client.cpp:165-199 | A token that passes is stored for its own product only; one that fails changes nothing; no key changes |
| Client.StartupChecksToken | client/src/license_client.cpp:205-256 | Where a token is stored, the startup check is the check of that token |
| Client.RequestSucceeds | client/src/license_client.cpp:119-159 | A request can be made for every product and hint that is text |
| Client.RequestDecrypts | server/src/main.cpp:236-261 | The server recovers exactly the request, under no other product's associated data: product, hint, time, fingerprint and assurance as given, device key and nonce decoding to the ones used |
| Client.RequestNamesDeviceKey | client/src/license_client.cpp:129-138 | What the device key's handle signs, then or later, verifies under the key the server finds in the request |
| Client.RequestBinding | server/src/main.cpp:244-292 | A licence is issued iff the order names the request's product, the request is at most a day old when checked and the record prints; it carries the requester's fingerprint |
| Client.LinuxTpmKeepsTokenIff | common/src/tpm_linux.cpp:288-291 | Under the Linux TPM a sealed token survives iff its payload has at most 27 bytes |
| Protocol.StepsAre | client/src/license_client.cpp:119-276 | What each step does to files, clock, hardware and the vendor's keys |
| Protocol.RunKeepsInv | client/src/license_client.cpp:119-276 | Over every run: one machine secret, valid device keys, each label only on its own tokens, every signature in order, a clock that only advances |
| Protocol.StartupReportsItsProduct | client/src/license_client.cpp:205-256 | A valid check reports the product asked for, whatever was copied over its file and whoever signed |
| Protocol.Safety | client/src/license_client.cpp:165-256 | In every reachable world a valid check is a licence the vendor signed with the configured key, for this product and fingerprint, unexpired, in answer to a fresh request |
| Protocol.LicensedOnSameMachine | common/src/fingerprint.cpp:285-322 | Such a machine has the UUID, processor, disk and endorsement key of the one the request came from |
| Protocol.RotationRejectsOldTokens | common/include/keystore.h:34-37 | After any run, once the vendor makes a key it did not have, and whatever follows, no check under the new key is valid before a licence was issued with it |
| Protocol.RunKeepsKeys | common/src/tpm_software.cpp:75-174 | Over any run, without ideal cryptography, the machine secret and every device key file stay as they are |
| Protocol.DeviceKeyOverRun | common/src/tpm_software.cpp:75-203 | Over any run a product keeps its first device key and handle, signatures made later verify under it, and the machine secret is the one of the start |
| Protocol.StoreRefinesMap | client/src/license_client.cpp:165-276 | After any interleaving from any valid store the check of a product is the check of the last token activated since its last deactivation, files written by others aside |
| Protocol.CurrentStays | client/src/license_client.cpp:80-82 | Operations on other products do not change what a product's store should hold |
| Protocol.HeldStays | client/src/license_client.cpp:165-276 | A token in a licence file stays there over any run that leaves its product alone |
| Protocol.SealedCopyOutlivesDeactivation | client/src/license_client.cpp:262-276 | After a deactivation there is no licence; over any run the provider's sealed copy holds the last activated token, and in place of the licence file its check is the check of that token, under any keys |
| Protocol.StartupValidIff | client/src/license_client.cpp:205-256 | In every reachable world, where the unsealing is ideal, a check is valid iff the licence file is the blob of a token once sealed for the product that passes its check now |
| Protocol.ActivatedLicenceOverTime | client/src/license_client.cpp:165-256 | After an activation the later checks report the record until it expires, on machines with its fingerprint, the expiry first |
| Protocol.ExpiryIsForGood | common/src/license.cpp:184-192 | An expired licence is reported expired ever after, until activated again or deactivated |
| Protocol.AnswerChecks | server/src/main.cpp:236-292 | The token of an exchange passes iff the fingerprint matches and its days are not over, with the owed record |
| Protocol.EndToEnd | client/src/license_client.cpp:119-256 | Request, issue, activation over any licence file, and startup check all succeed and report exactly the issued id, product, assurance, times and features |
| Protocol.EndToEndFromFiles | server/src/main.cpp:150-295 | The same with the keys loaded from a generated keystore and its public key file |
| Protocol.IssuedTokenIsSigned | common/src/license.cpp:117-137 | The vendor's own token meets the signature assumption |
| Protocol.RequestIsLogged | client/src/license_client.cpp:119-159 | Both encryptions of a request are logged, as stored and as sent |
| Protocol.ActivatedTokenWasSealed | common/src/tpm_software.cpp:187-203 | A stored token meets the sealing assumption |
| Protocol.HonestRunMeetsAssumptions | client/src/license_client.cpp:119-256 | Making keys, requesting, waiting, issuing and activating from an initial machine is a legal run whose last world meets every assumption of Safety, with a valid startup check of the owed record |

## Left out

- OpenSSL, Argon2, tpm2-tss and DPAPI: foreign calls, present as functions with laws; failures of theirs that no law
  mentions (out of memory, a negative result of the signature check) are not modelled.
- JSON text: the library's printing and parsing are an inverse pair on values; floating-point numbers do not occur, and
  the newline after the public key file is not part of its text.
- Windows sealing (`common/src/tpm_windows.cpp` and the DPAPI branches): raw platform calls.
- Reading sysfs, CPUID, SetupAPI and the endorsement key: the four strings are inputs. The list of readable components
  of a fingerprint is for display only.
- Command lines, usage text, passphrase prompts and printed output, `std::stoi` on the day and activation arguments.
- File permissions, failing and partial writes, and an unset `HOME`: writes are atomic and the home directory is given.
- `max_activations`: carried in the record, enforced nowhere.
- Wiping of memory, timing, and the quality of randomness.
- Ciphertexts and plaintexts beyond the `int` lengths OpenSSL takes.
- Smbios.SmbiosUuidWalk: where the source would read UUID bytes outside the buffer the model stops with a result of its
  own, because such a read has no defined value.
- TpmLinux.SealRoundTrip: the marshalled parts are whatever the TPM creates, and fields outside the blob are refused
  where the source would hand them to the TPM library.
