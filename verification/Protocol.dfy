/** Vendor, customer machine and clock as one system, and what holds over every run of it. The logs of signatures and
    sealings are bookkeeping for the ideal-cryptography assumptions; no program reads them. */
module Protocol {
  import opened Bytes
  import opened Foreign
  import opened Files
  import opened License
  import opened SoftwareTpm
  import opened Client
  import Base64
  import Crypto
  import Fingerprint
  import Keystore
  import Server
  import TpmLinux

  // ---------------------------------------------------------------- worlds and steps

  /** One AES-GCM encryption made on the customer's machine: of a device key, a request or a token. The vendor's
      keystore is encrypted elsewhere and not logged. */
  datatype Sealing = Sealing(key: bytes, aad: bytes, blob: bytes, plain: bytes)

  /** One licence the vendor signed: with which keys, for which request and order, when checked and when dated. */
  datatype Signing = Signing(vendor: Keystore.ServerKeys, request: LicenseRequest, order: Server.Order,
                             checkedAt: int64, at: int64, rnd: Block16)
  {
    function Record(): LicenseRecord {
      Server.BuildRecord(request, order, at, rnd)
    }
  }

  datatype World = World(files: FileMap, now: int64, hw: Fingerprint.Components, vendors: set<Keystore.ServerKeys>,
                         sealed: set<Sealing>, signed: set<Signing>)

  datatype Step =
    | InitKeys(ke: Keystore.KeystoreEntropy)
    | MakeRequest(product: bytes, hint: bytes, keys: ClientKeys, re: RequestEntropy)
    | IssueLicense(vendor: Keystore.ServerKeys, blobB64: bytes, order: Server.Order, busy: nat, rnd: Block16)
    | ActivateToken(token: bytes, keys: ClientKeys, e: Entropy)
    | StartupCheck(product: bytes, keys: ClientKeys, e: Entropy)
    | DeactivateProduct(product: bytes)
    | OverwriteLic(product: bytes, contents: bytes)   // copied from another product, or any other bytes
    | ChangeHardware(hw: Fingerprint.Components)
    | Tick(seconds: nat)

  /** The clock some seconds on; an int64 clock does not go past its maximum. */
  function Later(now: int64, seconds: nat): (after: int64)
    ensures after >= now
  {
    if now + seconds < 0x8000_0000_0000_0000 then now + seconds else now
  }

  function Machine(t: Provider, files: FileMap, e: Entropy): bytes {
    t.Secret(files, e).result.GetOr([])
  }

  /** The encryption `generate_request` makes when it creates a device key. */
  function KeySealing(t: Provider, files: FileMap, product: bytes, e: Entropy): set<Sealing> {
    var d := t.DeviceKeyFor(files, product, e);
    var path, aLabel := DevKeyPath(t.home, product), DEVKEY_LABEL + product;
    if path in files || path !in d.files then {}
    else {Sealing(t.LabelKey(Machine(t, files, e), aLabel), aLabel, d.files[path], e.seed + t.lib.edPublic(e.seed))}
  }

  /** The encryption of the request itself. */
  function RequestSealing(t: Provider, w: World, product: bytes, hint: bytes, keys: ClientKeys, re: RequestEntropy)
    : set<Sealing>
  {
    var pub := t.lib.xPublic(re.ephemeral);
    match t.lib.xExchange(re.ephemeral, keys.xPub)
    case None => {}
    case Some(secret) =>
      var key, aad := Crypto.HybridKey(t.lib, secret, pub), Server.MakeAad(product);
      var text := RequestText(t, w.hw, w.files, w.now, product, hint, re);
      {Sealing(key, aad, Crypto.GcmEncrypt(t.lib, key, aad, text, re.gcmNonce).GetOr([]), text)}
  }

  /** The encryption of an activated token. */
  function TokenSealing(t: Provider, w: World, token: bytes, keys: ClientKeys, e: Entropy): set<Sealing> {
    match CheckToken(t.lib, w.hw, w.now, token, keys)
    case Err(_) => {}
    case Ok(r) =>
      var s, aLabel := t.SealBlob(w.files, token, SealLabel(r.productId), e), SealLabel(r.productId);
      if s.result.Err? then {}
      else {Sealing(t.LabelKey(Machine(t, w.files, e), aLabel), aLabel, s.result.value, token)}
  }

  function Apply(t: Provider, w: World, s: Step): World {
    match s
    case InitKeys(ke) => w.(vendors := w.vendors + {Keystore.FreshKeys(t.lib, ke)})
    case MakeRequest(product, hint, keys, re) =>
      w.(files := GenerateRequest(t, w.hw, w.files, w.now, product, hint, keys, re).files,
         sealed := w.sealed + KeySealing(t, w.files, product, re.device)
                            + RequestSealing(t, w, product, hint, keys, re))
    case IssueLicense(vendor, blobB64, order, busy, rnd) =>
      var at := Later(w.now, busy);
      if |vendor.edPriv| < 32 || Server.Issue(t.lib, vendor, blobB64, order, w.now, at, rnd).Err? then w
      else
        var request := Server.DecryptRequest(t.lib, vendor.xPriv, order.product, blobB64).value;
        w.(now := at, signed := w.signed + {Signing(vendor, request, order, w.now, at, rnd)})
    case ActivateToken(token, keys, e) =>
      w.(files := Activate(t, w.hw, w.files, w.now, token, keys, e).files,
         sealed := w.sealed + TokenSealing(t, w, token, keys, e))
    case StartupCheck(product, keys, e) =>
      w.(files := VerifyAtStartup(t, w.hw, w.files, w.now, product, keys, e).files)
    case DeactivateProduct(product) => w.(files := Deactivate(t, w.files, product))
    case OverwriteLic(product, contents) => w.(files := w.files[LicPath(t.home, product) := contents])
    case ChangeHardware(hw) => w.(hw := hw)
    case Tick(seconds) => w.(now := Later(w.now, seconds))
  }

  /** What each step does to files, clock, hardware and vendor keys. */
  lemma StepsAre(t: Provider, w: World, s: Step)
    ensures var w' := Apply(t, w, s);
            && (!s.InitKeys? ==> w'.vendors == w.vendors)
            && (s.InitKeys? ==> w'.files == w.files && w'.vendors == w.vendors + {Keystore.FreshKeys(t.lib, s.ke)})
            && (!s.ChangeHardware? ==> w'.hw == w.hw)
            && (s.ChangeHardware? ==> w'.files == w.files && w'.hw == s.hw)
            && (!s.Tick? && !s.IssueLicense? ==> w'.now == w.now)
            && (s.Tick? ==>
                  && w'.files == w.files
                  && w'.now == if w.now + s.seconds < 0x8000_0000_0000_0000 then w.now + s.seconds else w.now)
            && (!s.IssueLicense? ==> w'.signed == w.signed)
            && (s.MakeRequest? ==>
                  w'.files == GenerateRequest(t, w.hw, w.files, w.now, s.product, s.hint, s.keys, s.re).files)
            && (s.ActivateToken? ==> w'.files == Activate(t, w.hw, w.files, w.now, s.token, s.keys, s.e).files)
            && (s.StartupCheck? ==>
                  w'.files == VerifyAtStartup(t, w.hw, w.files, w.now, s.product, s.keys, s.e).files)
            && (s.DeactivateProduct? ==> w'.files == Deactivate(t, w.files, s.product))
            && (s.OverwriteLic? ==> w'.files == w.files[LicPath(t.home, s.product) := s.contents])
            && (s.IssueLicense? ==> w'.files == w.files)
            && (!s.MakeRequest? && !s.ActivateToken? ==> w'.sealed == w.sealed)
  {
    hide GenerateRequest, Activate, VerifyAtStartup, Deactivate, KeySealing, RequestSealing, TokenSealing, LicPath;
    hide Server.Issue, Server.DecryptRequest, Keystore.FreshKeys;
  }

  function Run(t: Provider, w: World, steps: seq<Step>): World {
    if steps == [] then w else Apply(t, Run(t, w, steps[..|steps| - 1]), steps[|steps| - 1])
  }

  // ---------------------------------------------------------------- assumptions

  /** Product names are usable file names, and licences are issued with keys the vendor made. */
  ghost predicate Allowed(t: Provider, w: World, s: Step) {
    match s
    case MakeRequest(product, _, _, _) => NameOk(product)
    case IssueLicense(vendor, _, order, _, _) => vendor in w.vendors && NameOk(order.product)
    case ActivateToken(token, keys, _) =>
      var c := CheckToken(t.lib, w.hw, w.now, token, keys);
      c.Ok? ==> NameOk(c.value.productId)
    case StartupCheck(product, _, _) => NameOk(product)
    case DeactivateProduct(product) => NameOk(product)
    case OverwriteLic(product, _) => NameOk(product)
    case _ => true
  }

  /** Ideal AES-GCM for one unsealing: what opens was sealed under the same key and label. */
  ghost predicate OpensWhatWasSealed(t: Provider, w: World, product: bytes, e: Entropy) {
    var path, aLabel := LicPath(t.home, product), SealLabel(product);
    path in w.files ==>
      var u := t.UnsealBlob(w.files, w.files[path], aLabel, e);
      u.result.Ok? ==>
        Sealing(t.LabelKey(Machine(t, w.files, e), aLabel), aLabel, w.files[path], u.result.value) in w.sealed
  }

  /** Ideal HKDF for one request whose associated data reads like a licence label: its key is not the one the machine
      derives for that label. */
  ghost predicate KeysApart(t: Provider, w: World, product: bytes, keys: ClientKeys, re: RequestEntropy) {
    LICENSE_LABEL <= Server.MakeAad(product) ==>
      match t.lib.xExchange(re.ephemeral, keys.xPub)
      case None => true
      case Some(secret) =>
        Crypto.HybridKey(t.lib, secret, t.lib.xPublic(re.ephemeral))
        != t.LabelKey(Machine(t, w.files, re.device), Server.MakeAad(product))
  }

  ghost predicate Ideal(t: Provider, w: World, s: Step) {
    match s
    case MakeRequest(product, _, keys, re) => KeysApart(t, w, product, keys, re)
    case _ => true
  }

  /** Every step is allowed where it is taken. */
  ghost predicate AllowedRun(t: Provider, w: World, steps: seq<Step>) {
    steps != [] ==>
      && AllowedRun(t, w, steps[..|steps| - 1])
      && Allowed(t, Run(t, w, steps[..|steps| - 1]), steps[|steps| - 1])
  }

  ghost predicate Legal(t: Provider, w: World, steps: seq<Step>) {
    steps != [] ==>
      && Legal(t, w, steps[..|steps| - 1])
      && var before := Run(t, w, steps[..|steps| - 1]);
         Allowed(t, before, steps[|steps| - 1]) && Ideal(t, before, steps[|steps| - 1])
  }

  /** A public key the vendor made. */
  ghost predicate VendorKey(w: World, edPub: bytes) {
    exists v :: v in w.vendors && v.edPub == edPub
  }

  ghost predicate WasSigned(t: Provider, w: World, edPub: bytes, payload: bytes, g: Signing) {
    g in w.signed && g.vendor.edPub == edPub && t.lib.dump(RecordToJson(g.Record()), COMPACT) == Some(payload)
  }

  /** Ideal Ed25519 for one token: under a vendor's key only what that vendor signed verifies. */
  ghost predicate VerifiesWhatWasSigned(t: Provider, w: World, token: bytes, edPub: bytes) {
    match SplitToken(token)
    case Err(_) => true
    case Ok((payload, sig)) =>
      |edPub| == 32 && VendorKey(w, edPub) && t.lib.edVerify(edPub, payload, sig) ==>
        exists g :: WasSigned(t, w, edPub, payload, g)
  }

  // ---------------------------------------------------------------- the invariant

  /** The product a token was made for, whoever signed it. */
  function TokenProduct(lib: Library, token: bytes): Option<bytes> {
    match SplitToken(token)
    case Err(_) => None
    case Ok((payload, _)) =>
      match ParseRecord(lib, payload)
      case None => None
      case Some(r) => Some(r.productId)
  }

  /** Under the key and label of a product, only tokens of that product were ever sealed. */
  ghost predicate LabelsMatchTokens(t: Provider, w: World) {
    SecretPath(t.home) in w.files ==>
      forall x, p: bytes {:trigger x in w.sealed, SealLabel(p)} ::
        x in w.sealed && x.aad == SealLabel(p) && x.key == t.LabelKey(w.files[SecretPath(t.home)], SealLabel(p)) ==>
          TokenProduct(t.lib, x.plain) == Some(p)
  }

  /** What the vendor signed was ordered by name, for a fresh request, with one of its keys. */
  ghost predicate SignedInOrder(w: World) {
    forall g :: g in w.signed ==>
      && g.vendor in w.vendors && NameOk(g.order.product) && g.request.productId == g.order.product
      && TimestampIsFresh(g.request.timestamp, g.checkedAt, Server.MAX_AGE) && g.checkedAt <= g.at <= w.now
  }

  ghost predicate Inv(t: Provider, w: World) {
    && t.Valid(w.files)
    && (SecretPath(t.home) !in w.files ==> w.sealed == {})
    && LabelsMatchTokens(t, w)
    && SignedInOrder(w)
  }

  /** A machine without a secret and without device keys, before anything was sealed or signed. */
  ghost predicate Initial(t: Provider, w: World) {
    && SecretPath(t.home) !in w.files && (forall p | NameOk(p) :: DevKeyPath(t.home, p) !in w.files)
    && w.vendors == {} && w.sealed == {} && w.signed == {}
  }

  /** Replacing the files by ones that leave the keys alone, with no new sealing, keeps the invariant. */
  lemma FilesStep(t: Provider, w: World, files: FileMap)
    requires Inv(t, w) && t.LeavesKeys(w.files, files)
    ensures Inv(t, w.(files := files)) && t.Keeps(w.files, files)
  {
    LeavingKeysIsValid(t, w.files, files);
  }

  lemma SealLabelInjective(p: bytes, q: bytes)
    requires SealLabel(p) == SealLabel(q)
    ensures p == q
  {
    assert p == SealLabel(p)[|LICENSE_LABEL|..] && q == SealLabel(q)[|LICENSE_LABEL|..];
  }

  lemma LabelsDiffer(p: bytes, q: bytes)
    ensures DEVKEY_LABEL + p != SealLabel(q) && LICENSE_LABEL <= SealLabel(q)
  {
    assert (DEVKEY_LABEL + p)[0] == 100 && SealLabel(q)[0] == 108;
  }

  lemma CheckedTokenProduct(lib: Library, hw: Fingerprint.Components, now: int64, token: bytes, keys: ClientKeys)
    requires CheckToken(lib, hw, now, token, keys).Ok?
    ensures TokenProduct(lib, token) == Some(CheckToken(lib, hw, now, token, keys).value.productId)
    ensures var s, r := SplitToken(token), CheckToken(lib, hw, now, token, keys).value;
            && s.Ok? && ParseRecord(lib, s.value.0) == Some(r)
            && |keys.edPub| == 32 && lib.edVerify(keys.edPub, s.value.0, s.value.1)
            && (r.expiresAt == 0 || now <= r.expiresAt) && Fingerprint.Verify(lib, hw, r.fingerprintHash)
  {
    hide SplitToken, ParseRecord, Fingerprint.Verify;
  }

  lemma ActivateStep(t: Provider, w: World, token: bytes, keys: ClientKeys, e: Entropy)
    requires GcmCorrect(t.lib) && Inv(t, w) && Allowed(t, w, ActivateToken(token, keys, e))
    ensures var w' := Apply(t, w, ActivateToken(token, keys, e)); Inv(t, w') && t.Keeps(w.files, w'.files)
  {
    hide CheckToken, TokenProduct, Activate, SealLabel;
    ActivateEffect(t, w.hw, w.files, w.now, token, keys, e);
    var w' := Apply(t, w, ActivateToken(token, keys, e));
    LeavingKeysIsValid(t, w.files, w'.files);
    var c := CheckToken(t.lib, w.hw, w.now, token, keys);
    if c.Ok? {
      CheckedTokenProduct(t.lib, w.hw, w.now, token, keys);
      forall x, p: bytes | x in w'.sealed && x.aad == SealLabel(p)
                           && x.key == t.LabelKey(w'.files[SecretPath(t.home)], SealLabel(p))
        ensures TokenProduct(t.lib, x.plain) == Some(p)
      {
        if x in w.sealed {
        } else {
          SealLabelInjective(p, c.value.productId);
        }
      }
    }
  }

  lemma RequestStep(t: Provider, w: World, product: bytes, hint: bytes, keys: ClientKeys, re: RequestEntropy)
    requires GcmCorrect(t.lib) && Inv(t, w)
    requires Allowed(t, w, MakeRequest(product, hint, keys, re)) && Ideal(t, w, MakeRequest(product, hint, keys, re))
    ensures var w' := Apply(t, w, MakeRequest(product, hint, keys, re)); Inv(t, w') && t.Keeps(w.files, w'.files)
  {
    var w' := Apply(t, w, MakeRequest(product, hint, keys, re));
    DeviceKeyIsStored(t, w.files, product, re.device);
    RequestFiles(t, w, product, hint, keys, re);
    hide TokenProduct, GenerateRequest, SealLabel, RequestText, Crypto.GcmEncrypt, Crypto.HybridKey, Server.MakeAad;
    forall x, p: bytes | x in w'.sealed && x.aad == SealLabel(p)
                         && x.key == t.LabelKey(w'.files[SecretPath(t.home)], SealLabel(p))
      ensures TokenProduct(t.lib, x.plain) == Some(p)
    {
      LabelsDiffer(product, p);
    }
  }

  /** The files after a request, and the machine secret it used. */
  lemma RequestFiles(t: Provider, w: World, product: bytes, hint: bytes, keys: ClientKeys, re: RequestEntropy)
    requires GcmCorrect(t.lib) && t.Valid(w.files) && NameOk(product)
    ensures var d := t.DeviceKeyFor(w.files, product, re.device);
            && GenerateRequest(t, w.hw, w.files, w.now, product, hint, keys, re).files == d.files
            && SecretPath(t.home) in d.files && d.files[SecretPath(t.home)] == Machine(t, w.files, re.device)
  {
    hide RequestToJson, BuildRequest, Crypto.HybridEncrypt, Base64.Encode, Server.MakeAad;
    DeviceKeySecret(t, w.files, product, re.device);
  }

  lemma StepKeepsInv(t: Provider, w: World, s: Step)
    requires GcmCorrect(t.lib) && Inv(t, w) && Allowed(t, w, s) && Ideal(t, w, s)
    ensures Inv(t, Apply(t, w, s)) && t.Keeps(w.files, Apply(t, w, s).files) && w.now <= Apply(t, w, s).now
  {
    match s
    case MakeRequest(product, hint, keys, re) => RequestStep(t, w, product, hint, keys, re);
    case ActivateToken(token, keys, e) => ActivateStep(t, w, token, keys, e);
    case StartupCheck(product, keys, e) =>
      StartupEffect(t, w.hw, w.files, w.now, product, keys, e);
      FilesStep(t, w, Apply(t, w, s).files);
    case DeactivateProduct(product) =>
      LicWriteLeavesKeys(t, w.files, product, []);
      FilesStep(t, w, Apply(t, w, s).files);
    case OverwriteLic(product, contents) =>
      LicWriteLeavesKeys(t, w.files, product, contents);
      FilesStep(t, w, Apply(t, w, s).files);
    case IssueLicense(vendor, blobB64, order, busy, rnd) => IssueStep(t, w, vendor, blobB64, order, busy, rnd);
    case _ =>
  }

  lemma LicWriteLeavesKeys(t: Provider, files: FileMap, product: bytes, contents: bytes)
    requires NameOk(product)
    ensures t.LeavesKeys(files, files - {LicPath(t.home, product)})
    ensures t.LeavesKeys(files, files[LicPath(t.home, product) := contents])
  {
    hide SecretPath, LicPath, DevKeyPath;
    PathsAreDisjoint(t.home, product, product);
    forall q | NameOk(q) ensures DevKeyPath(t.home, q) != LicPath(t.home, product) {
      PathsAreDisjoint(t.home, q, product);
    }
  }

  lemma IssueStep(t: Provider, w: World, vendor: Keystore.ServerKeys, blobB64: bytes, order: Server.Order, busy: nat,
                  rnd: Block16)
    requires Inv(t, w) && Allowed(t, w, IssueLicense(vendor, blobB64, order, busy, rnd))
    ensures Inv(t, Apply(t, w, IssueLicense(vendor, blobB64, order, busy, rnd)))
  {
    hide Server.DecryptRequest, Server.BuildRecord, SignLicense, TimestampIsFresh;
  }

  /** The invariant holds in every reachable world; keys survive and the clock never goes back. */
  lemma {:induction false} RunKeepsInv(t: Provider, w: World, steps: seq<Step>)
    requires GcmCorrect(t.lib) && Inv(t, w) && Legal(t, w, steps)
    ensures Inv(t, Run(t, w, steps)) && t.Keeps(w.files, Run(t, w, steps).files) && w.now <= Run(t, w, steps).now
  {
    if steps != [] {
      RunKeepsInv(t, w, steps[..|steps| - 1]);
      var before := Run(t, w, steps[..|steps| - 1]);
      StepKeepsInv(t, before, steps[|steps| - 1]);
      KeepsIsTransitive(t, w.files, before.files, Run(t, w, steps).files);
    }
  }

  lemma InitialInv(t: Provider, w: World)
    requires Initial(t, w)
    ensures Inv(t, w)
  {
  }

  // ---------------------------------------------------------------- safety

  /** The token in a product's licence file; the empty text if it does not open. */
  function OpenedToken(t: Provider, w: World, product: bytes, e: Entropy): bytes {
    var path := LicPath(t.home, product);
    if path in w.files then t.UnsealBlob(w.files, w.files[path], SealLabel(product), e).result.GetOr([]) else []
  }

  /** A valid startup check looked at the token in the licence file. */
  lemma StartupOpensToken(t: Provider, w: World, product: bytes, keys: ClientKeys, e: Entropy)
    requires VerifyAtStartup(t, w.hw, w.files, w.now, product, keys, e).result.Ok?
    ensures var path := LicPath(t.home, product);
            && path in w.files
            && var u := t.UnsealBlob(w.files, w.files[path], SealLabel(product), e);
               && u.result.Ok?
               && var c := CheckToken(t.lib, w.hw, w.now, u.result.value, keys);
                  && c.Ok?
                  && VerifyAtStartup(t, w.hw, w.files, w.now, product, keys, e).result == Ok(StartupOf(c.value))
  {
    hide CheckToken, SealLabel, LicPath;
  }

  /** A valid startup check for a product reports that product, whatever was copied over its licence file and whoever
      signed the token: the label under which its file opens was only ever used for its own tokens. */
  lemma StartupReportsItsProduct(t: Provider, w: World, product: bytes, keys: ClientKeys, e: Entropy)
    requires Inv(t, w) && NameOk(product) && OpensWhatWasSealed(t, w, product, e)
    requires VerifyAtStartup(t, w.hw, w.files, w.now, product, keys, e).result.Ok?
    ensures VerifyAtStartup(t, w.hw, w.files, w.now, product, keys, e).result.value.productId == product
  {
    StartupOpensToken(t, w, product, keys, e);
    var u := t.UnsealBlob(w.files, w.files[LicPath(t.home, product)], SealLabel(product), e);
    var token := u.result.value;
    var x := Sealing(t.LabelKey(Machine(t, w.files, e), SealLabel(product)), SealLabel(product),
                     w.files[LicPath(t.home, product)], token);
    hide CheckToken, TokenProduct, SealLabel, LicPath;
    assert x in w.sealed;
    CheckedTokenProduct(t.lib, w.hw, w.now, token, keys);
  }

  /** What a valid startup check guarantees: a licence the vendor signed with the configured key, for this product, on
      this machine's fingerprint and not past its expiry, in answer to a request at most a day old. */
  ghost predicate Licensed(t: Provider, w: World, product: bytes, keys: ClientKeys, s: Startup, g: Signing) {
    var r := g.Record();
    && g in w.signed && g.vendor in w.vendors && g.vendor.edPub == keys.edPub
    && s == StartupOf(r) && r.productId == product && g.request.productId == product
    && r.fingerprintHash == g.request.fingerprintHash == Fingerprint.Compute(t.lib, w.hw, true).hash
    && (r.expiresAt == 0 || w.now <= r.expiresAt)
    && TimestampIsFresh(g.request.timestamp, g.checkedAt, Server.MAX_AGE) && g.checkedAt <= g.at <= w.now
  }

  /** Whole-run safety. In every world reachable from an initial machine by any legal steps, with licence files copied
      or overwritten at will, a valid startup check under a vendor's key is a licence of that vendor for this product
      and this machine. */
  lemma Safety(t: Provider, start: World, steps: seq<Step>, product: bytes, keys: ClientKeys, e: Entropy)
    returns (g: Signing)
    requires Laws(t.lib) && Initial(t, start) && Legal(t, start, steps) && NameOk(product)
    requires var w := Run(t, start, steps);
             && VendorKey(w, keys.edPub)
             && OpensWhatWasSealed(t, w, product, e)
             && VerifiesWhatWasSigned(t, w, OpenedToken(t, w, product, e), keys.edPub)
             && VerifyAtStartup(t, w.hw, w.files, w.now, product, keys, e).result.Ok?
    ensures var w := Run(t, start, steps);
            Licensed(t, w, product, keys, VerifyAtStartup(t, w.hw, w.files, w.now, product, keys, e).result.value, g)
  {
    var w := Run(t, start, steps);
    InitialInv(t, start);
    RunKeepsInv(t, start, steps);
    g := StartupIsLicensed(t, w, product, keys, e);
  }

  lemma StartupIsLicensed(t: Provider, w: World, product: bytes, keys: ClientKeys, e: Entropy) returns (g: Signing)
    requires JsonLaws(t.lib) && Inv(t, w) && NameOk(product) && VendorKey(w, keys.edPub)
    requires OpensWhatWasSealed(t, w, product, e)
    requires VerifiesWhatWasSigned(t, w, OpenedToken(t, w, product, e), keys.edPub)
    requires VerifyAtStartup(t, w.hw, w.files, w.now, product, keys, e).result.Ok?
    ensures Licensed(t, w, product, keys, VerifyAtStartup(t, w.hw, w.files, w.now, product, keys, e).result.value, g)
  {
    StartupReportsItsProduct(t, w, product, keys, e);
    StartupOpensToken(t, w, product, keys, e);
    var token := OpenedToken(t, w, product, e);
    CheckedTokenProduct(t.lib, w.hw, w.now, token, keys);
    var payload := SplitToken(token).value.0;
    g :| WasSigned(t, w, keys.edPub, payload, g);
    hide VerifyAtStartup, CheckToken, SplitToken, ParseRecord, RecordToJson, TimestampIsFresh, Fingerprint.Compute;
    PrintedRecordParses(t.lib, g.Record());
  }

  /** The machine a licence is valid on has the UUID, processor, disk and endorsement key of the one its request came
      from, an absent key counting as the empty one. */
  lemma LicensedOnSameMachine(t: Provider, w: World, product: bytes, keys: ClientKeys, s: Startup, g: Signing,
                              there: Fingerprint.Components)
    requires Licensed(t, w, product, keys, s, g)
    requires g.request.fingerprintHash == Fingerprint.Compute(t.lib, there, true).hash
    requires Fingerprint.Fits(w.hw) && Fingerprint.Fits(there)
    requires Fingerprint.NoCollision(t.lib, Fingerprint.CanonicalInput(w.hw, true),
                                     Fingerprint.CanonicalInput(there, true))
    ensures w.hw.uuid == there.uuid && w.hw.cpu == there.cpu && w.hw.disk == there.disk
    ensures w.hw.ek.GetOr([]) == there.ek.GetOr([])
  {
    hide TimestampIsFresh, StartupOf;
    Fingerprint.VerifyIffSameParts(t.lib, w.hw, true, there, true);
  }

  /** Without licences issued under a public key, none is signed under it; the vendor's keys stay. */
  lemma {:induction false} NothingSignedUnder(t: Provider, w: World, steps: seq<Step>, edPub: bytes)
    requires forall g | g in w.signed :: g.vendor.edPub != edPub
    requires forall s | s in steps :: s.IssueLicense? ==> s.vendor.edPub != edPub
    ensures forall g | g in Run(t, w, steps).signed :: g.vendor.edPub != edPub
    ensures w.vendors <= Run(t, w, steps).vendors
  {
    hide GenerateRequest, Activate, VerifyAtStartup, KeySealing, RequestSealing, TokenSealing, Server.Issue;
    hide Server.DecryptRequest;
    if steps != [] {
      var before, s := steps[..|steps| - 1], steps[|steps| - 1];
      assert s in steps && forall x | x in before :: x in steps;
      NothingSignedUnder(t, w, before, edPub);
    }
  }

  /** Rotation. After any run the vendor makes a key it did not have before; then, whatever else happens, no startup
      check under the new key is valid until a licence has been issued with it. */
  lemma RotationRejectsOldTokens(t: Provider, start: World, a: seq<Step>, ke: Keystore.KeystoreEntropy, b: seq<Step>,
                                 product: bytes, keys: ClientKeys, e: Entropy)
    requires GcmCorrect(t.lib) && Initial(t, start) && Legal(t, start, a)
    requires keys.edPub == t.lib.edPublic(ke.edSeed) && !VendorKey(Run(t, start, a), keys.edPub)
    requires forall s | s in b :: s.IssueLicense? ==> s.vendor.edPub != keys.edPub
    requires var w := Run(t, start, a + [InitKeys(ke)] + b);
             VerifiesWhatWasSigned(t, w, OpenedToken(t, w, product, e), keys.edPub)
    ensures var w := Run(t, start, a + [InitKeys(ke)] + b);
            VerifyAtStartup(t, w.hw, w.files, w.now, product, keys, e).result.Err?
  {
    var at, w := Run(t, start, a), Run(t, start, a + [InitKeys(ke)] + b);
    InitialInv(t, start);
    RunKeepsInv(t, start, a);
    assert (a + [InitKeys(ke)])[..|a + [InitKeys(ke)]| - 1] == a;
    var rotated := Run(t, start, a + [InitKeys(ke)]);
    assert rotated == Apply(t, at, InitKeys(ke));
    RunConcat(t, start, a + [InitKeys(ke)], b);
    NothingSignedUnder(t, rotated, b, keys.edPub);
    assert Keystore.FreshKeys(t.lib, ke) in w.vendors;
    assert VendorKey(w, keys.edPub);
    NoSignatureNoStartup(t, w, product, keys, e);
  }

  lemma NoSignatureNoStartup(t: Provider, w: World, product: bytes, keys: ClientKeys, e: Entropy)
    requires VendorKey(w, keys.edPub) && forall g | g in w.signed :: g.vendor.edPub != keys.edPub
    requires VerifiesWhatWasSigned(t, w, OpenedToken(t, w, product, e), keys.edPub)
    ensures VerifyAtStartup(t, w.hw, w.files, w.now, product, keys, e).result.Err?
  {
    hide CheckToken, SplitToken, TokenProduct, LicPath, SealLabel;
    if VerifyAtStartup(t, w.hw, w.files, w.now, product, keys, e).result.Ok? {
      StartupOpensToken(t, w, product, keys, e);
      CheckedTokenProduct(t.lib, w.hw, w.now, OpenedToken(t, w, product, e), keys);
      assert false;
    }
  }

  // ---------------------------------------------------------------- device keys over a run

  lemma StepKeepsKeys(t: Provider, w: World, s: Step)
    requires GcmCorrect(t.lib) && t.Valid(w.files) && Allowed(t, w, s)
    ensures t.Valid(Apply(t, w, s).files) && t.Keeps(w.files, Apply(t, w, s).files)
  {
    hide TokenSealing, RequestSealing, KeySealing, VerifyAtStartup, Activate, CheckToken, Server.Issue;
    match s
    case MakeRequest(p, hint, keys, re) =>
      DeviceKeyIsStored(t, w.files, p, re.device);
      RequestFiles(t, w, p, hint, keys, re);
    case ActivateToken(token, keys, e) =>
      ActivateEffect(t, w.hw, w.files, w.now, token, keys, e);
      LeavingKeysIsValid(t, w.files, Apply(t, w, s).files);
    case StartupCheck(p, keys, e) =>
      StartupEffect(t, w.hw, w.files, w.now, p, keys, e);
      LeavingKeysIsValid(t, w.files, Apply(t, w, s).files);
    case DeactivateProduct(p) =>
      LicWriteLeavesKeys(t, w.files, p, []);
      LeavingKeysIsValid(t, w.files, Apply(t, w, s).files);
    case OverwriteLic(p, contents) =>
      LicWriteLeavesKeys(t, w.files, p, contents);
      LeavingKeysIsValid(t, w.files, Apply(t, w, s).files);
    case _ =>
  }

  /** Over any run of allowed steps, without ideal cryptography, the machine secret and every device key file stay. */
  lemma {:induction false} RunKeepsKeys(t: Provider, w: World, steps: seq<Step>)
    requires GcmCorrect(t.lib) && t.Valid(w.files) && AllowedRun(t, w, steps)
    ensures t.Valid(Run(t, w, steps).files) && t.Keeps(w.files, Run(t, w, steps).files)
  {
    if steps != [] {
      hide Allowed, Apply;
      var before := Run(t, w, steps[..|steps| - 1]);
      RunKeepsKeys(t, w, steps[..|steps| - 1]);
      StepKeepsKeys(t, before, steps[|steps| - 1]);
      KeepsIsTransitive(t, w.files, before.files, Run(t, w, steps).files);
    }
  }

  /** Over any run of allowed steps a product's device key is the one first handed out, under the same handle,
      signatures made with that handle at any later time verify under it, and the machine secret is the one that was
      there or was created for it. */
  lemma DeviceKeyOverRun(t: Provider, w: World, product: bytes, hint: bytes, keys: ClientKeys, re: RequestEntropy,
                         steps: seq<Step>, e2: Entropy, message: bytes)
    requires CryptoLaws(t.lib) && t.Valid(w.files) && NameOk(product)
    requires AllowedRun(t, Apply(t, w, MakeRequest(product, hint, keys, re)), steps)
    ensures var later := Run(t, Apply(t, w, MakeRequest(product, hint, keys, re)), steps).files;
            match t.DeviceKeyFor(w.files, product, re.device).result
            case Err(_) => false
            case Ok(key) =>
              && t.DeviceKeyFor(later, product, e2) == Outcome(later, Ok(key))
              && SignsUnder(t, later, key, message, e2)
              && SecretPath(t.home) in later && later[SecretPath(t.home)] == Machine(t, w.files, re.device)
  {
    var s := MakeRequest(product, hint, keys, re);
    StepKeepsKeys(t, w, s);
    RunKeepsKeys(t, Apply(t, w, s), steps);
    RequestFiles(t, w, product, hint, keys, re);
    DeviceKeyStable(t, w.files, product, re.device, Run(t, Apply(t, w, s), steps).files, e2, message);
  }

  // ---------------------------------------------------------------- the store refines a map

  /** What is known of a product's licence file: it is absent, it holds a token, or anyone may have written it. */
  datatype Stored = Nothing | Holding(token: bytes) | Unknown

  function StoredAfter(t: Provider, w: World, s: Step, product: bytes, was: Stored): Stored {
    match s
    case ActivateToken(token, keys, _) =>
      var c := CheckToken(t.lib, w.hw, w.now, token, keys);
      if c.Ok? && c.value.productId == product then Holding(token) else was
    case DeactivateProduct(p) => if p == product then Nothing else was
    case OverwriteLic(p, _) => if p == product then Unknown else was
    case _ => was
  }

  /** What a product's licence store should hold after a run: the last token whose activation passed its check, unless
      the product was deactivated, or its file written over, since. */
  function Current(t: Provider, w: World, steps: seq<Step>, product: bytes, was: Stored): Stored {
    if steps == [] then was
    else
      var before := steps[..|steps| - 1];
      StoredAfter(t, Run(t, w, before), steps[|steps| - 1], product, Current(t, w, before, product, was))
  }

  ghost predicate StoreHolds(t: Provider, files: FileMap, product: bytes, stored: Stored) {
    match stored
    case Nothing => LicPath(t.home, product) !in files
    case Holding(token) => HoldsToken(t, files, product, token)
    case Unknown => true
  }

  lemma StepKeepsStore(t: Provider, w: World, s: Step, product: bytes, was: Stored)
    requires GcmCorrect(t.lib) && t.Valid(w.files) && NameOk(product) && Allowed(t, w, s)
    requires StoreHolds(t, w.files, product, was)
    ensures var files := Apply(t, w, s).files;
            t.Valid(files) && StoreHolds(t, files, product, StoredAfter(t, w, s, product, was))
  {
    StepKeepsKeys(t, w, s);
    hide TokenSealing, RequestSealing, KeySealing, SameLic, CheckToken, Activate;
    match s
    case MakeRequest(p, hint, keys, re) =>
      hide StoreHolds;
      RequestFiles(t, w, p, hint, keys, re);
      DeviceKeyEffect(t, w.files, p, re.device);
      SameLicKeepsToken(t, w.files, t.DeviceKeyFor(w.files, p, re.device).files, product, was);
    case ActivateToken(token, keys, e) =>
      ActivateEffect(t, w.hw, w.files, w.now, token, keys, e);
      var c := CheckToken(t.lib, w.hw, w.now, token, keys);
      if c.Ok? && c.value.productId != product {
        SameLicKeepsToken(t, w.files, Apply(t, w, s).files, product, was);
      }
    case StartupCheck(p, keys, e) =>
      hide VerifyAtStartup, StoreHolds;
      StartupEffect(t, w.hw, w.files, w.now, p, keys, e);
      SameLicKeepsToken(t, w.files, Apply(t, w, s).files, product, was);
    case DeactivateProduct(p) => LicWriteKeepsStore(t, w.files, p, [], product, was);
    case OverwriteLic(p, contents) => LicWriteKeepsStore(t, w.files, p, contents, product, was);
    case _ =>
  }

  /** Removing a licence file empties its own product's store and no other's; writing one leaves the others alone. */
  lemma LicWriteKeepsStore(t: Provider, files: FileMap, p: bytes, contents: bytes, product: bytes, was: Stored)
    requires t.Valid(files) && NameOk(product) && NameOk(p) && StoreHolds(t, files, product, was)
    ensures StoreHolds(t, files - {LicPath(t.home, p)}, product, if p == product then Nothing else was)
    ensures p != product ==> StoreHolds(t, files[LicPath(t.home, p) := contents], product, was)
  {
    hide LicPath, SealLabel;
    LicWriteLeavesKeys(t, files, p, contents);
    LeavingKeysIsValid(t, files, files - {LicPath(t.home, p)});
    LeavingKeysIsValid(t, files, files[LicPath(t.home, p) := contents]);
    PathsAreDisjoint(t.home, product, p);
    if p != product {
      SameLicKeepsToken(t, files, files - {LicPath(t.home, p)}, product, was);
      SameLicKeepsToken(t, files, files[LicPath(t.home, p) := contents], product, was);
    }
  }

  lemma SameLicKeepsToken(t: Provider, before: FileMap, after: FileMap, product: bytes, stored: Stored)
    requires StoreHolds(t, before, product, stored)
    requires SameLic(t, before, after, product) && t.Keeps(before, after)
    ensures StoreHolds(t, after, product, stored)
  {
    hide SecretPath, LicPath, DevKeyPath, SealLabel;
  }

  lemma {:induction false} RunKeepsStore(t: Provider, w: World, steps: seq<Step>, product: bytes, was: Stored)
    requires GcmCorrect(t.lib) && t.Valid(w.files) && NameOk(product) && AllowedRun(t, w, steps)
    requires StoreHolds(t, w.files, product, was)
    ensures t.Valid(Run(t, w, steps).files)
    ensures StoreHolds(t, Run(t, w, steps).files, product, Current(t, w, steps, product, was))
  {
    if steps != [] {
      hide Apply, StoreHolds, StoredAfter, Allowed;
      var before, s := steps[..|steps| - 1], steps[|steps| - 1];
      RunKeepsStore(t, w, before, product, was);
      StepKeepsStore(t, Run(t, w, before), s, product, Current(t, w, before, product, was));
    }
  }

  /** The sealed store refines a map from products to tokens. After any interleaving of allowed steps over many
      products, from any valid store, the startup check of a product is the check, here and now, of the last token
      activated for it since it was last deactivated; without one there is no licence. Only a file that somebody else
      wrote, and that no activation or deactivation has replaced since, is left open. */
  lemma StoreRefinesMap(t: Provider, w: World, steps: seq<Step>, product: bytes, was: Stored, keys: ClientKeys,
                        e: Entropy)
    requires GcmCorrect(t.lib) && t.Valid(w.files) && NameOk(product) && AllowedRun(t, w, steps)
    requires StoreHolds(t, w.files, product, was)
    ensures var now := Run(t, w, steps);
            var result := VerifyAtStartup(t, now.hw, now.files, now.now, product, keys, e).result;
            match Current(t, w, steps, product, was)
            case Nothing => result == Err(NoLicense(product))
            case Unknown => true
            case Holding(token) => result == Reported(CheckToken(t.lib, now.hw, now.now, token, keys))
  {
    hide CheckToken;
    RunKeepsStore(t, w, steps, product, was);
    var now := Run(t, w, steps);
    match Current(t, w, steps, product, was)
    case Nothing => StartupEffect(t, now.hw, now.files, now.now, product, keys, e);
    case Unknown =>
    case Holding(token) => StartupChecksToken(t, now.hw, now.files, now.now, product, keys, e, token);
  }

  // ---------------------------------------------------------------- runs in two parts

  lemma {:induction false} RunConcat(t: Provider, w: World, a: seq<Step>, b: seq<Step>)
    ensures Run(t, w, a + b) == Run(t, Run(t, w, a), b)
  {
    if b == [] {
      assert a + b == a;
    } else {
      hide Apply;
      RunConcat(t, w, a, b[..|b| - 1]);
      assert (a + b)[..|a + b| - 1] == a + b[..|b| - 1];
    }
  }

  lemma {:induction false} ClockOnlyAdvances(t: Provider, w: World, steps: seq<Step>)
    ensures w.now <= Run(t, w, steps).now
  {
    if steps != [] { ClockOnlyAdvances(t, w, steps[..|steps| - 1]); }
  }

  /** No step deactivates the product, activates a token of it or writes over its licence file. */
  ghost predicate Quiet(t: Provider, steps: seq<Step>, product: bytes) {
    forall s | s in steps ::
      && s != DeactivateProduct(product) && !(s.OverwriteLic? && s.product == product)
      && !(s.ActivateToken? && TokenProduct(t.lib, s.token) == Some(product))
  }

  /** What happens to other products does not affect what this one's store holds. */
  lemma {:induction false} CurrentStays(t: Provider, w: World, a: seq<Step>, b: seq<Step>, product: bytes, was: Stored)
    requires Quiet(t, b, product)
    ensures Current(t, w, a + b, product, was) == Current(t, w, a, product, was)
  {
    if b == [] {
      assert a + b == a;
    } else {
      hide CheckToken, TokenProduct, Run;
      var rest, s := b[..|b| - 1], b[|b| - 1];
      assert (a + b)[..|a + b| - 1] == a + rest;
      CurrentStays(t, w, a, rest, product, was);
      assert s in b;
      if s.ActivateToken? {
        var at := Run(t, w, a + rest);
        if CheckToken(t.lib, at.hw, at.now, s.token, s.keys).Ok? {
          CheckedTokenProduct(t.lib, at.hw, at.now, s.token, s.keys);
        }
      }
    }
  }

  /** A token in a product's licence file stays there while nobody writes over the file and the product is neither
      activated nor deactivated. */
  lemma HeldStays(t: Provider, w: World, steps: seq<Step>, product: bytes, token: bytes)
    requires GcmCorrect(t.lib) && t.Valid(w.files) && NameOk(product) && HoldsToken(t, w.files, product, token)
    requires AllowedRun(t, w, steps) && Quiet(t, steps, product)
    ensures t.Valid(Run(t, w, steps).files) && HoldsToken(t, Run(t, w, steps).files, product, token)
  {
    hide HoldsToken, AllowedRun, Quiet;
    RunKeepsStore(t, w, steps, product, Holding(token));
    assert [] + steps == steps;
    CurrentStays(t, w, [], steps, product, Holding(token));
  }

  /** Where a startup check opened the licence file, that file holds the opened token afterwards. */
  lemma OpenedIsHeld(t: Provider, files: FileMap, product: bytes, e: Entropy)
    requires NameOk(product) && LicPath(t.home, product) in files
    requires t.UnsealBlob(files, files[LicPath(t.home, product)], SealLabel(product), e).result.Ok?
    ensures var u := t.UnsealBlob(files, files[LicPath(t.home, product)], SealLabel(product), e);
            HoldsToken(t, u.files, product, u.result.value)
  {
    PathsAreDisjoint(t.home, product, product);
    hide SecretPath, LicPath, SealLabel;
  }

  /** Once a product's check reports an expired licence, every later check under the same keys does, whatever happens to
      other products and to the hardware, until the product is activated again or deactivated. */
  lemma ExpiryIsForGood(t: Provider, w: World, product: bytes, keys: ClientKeys, e: Entropy, steps: seq<Step>,
                        e2: Entropy)
    requires GcmCorrect(t.lib) && t.Valid(w.files) && NameOk(product)
    requires VerifyAtStartup(t, w.hw, w.files, w.now, product, keys, e).result == Err(BadToken(Expired))
    requires AllowedRun(t, Apply(t, w, StartupCheck(product, keys, e)), steps) && Quiet(t, steps, product)
    ensures var later := Run(t, Apply(t, w, StartupCheck(product, keys, e)), steps);
            VerifyAtStartup(t, later.hw, later.files, later.now, product, keys, e2).result == Err(BadToken(Expired))
  {
    hide CheckToken, AllowedRun, Run, Quiet, LicPath, SealLabel;
    var after := Apply(t, w, StartupCheck(product, keys, e));
    var token := t.UnsealBlob(w.files, w.files[LicPath(t.home, product)], SealLabel(product), e).result.value;
    OpenedIsHeld(t, w.files, product, e);
    StepKeepsKeys(t, w, StartupCheck(product, keys, e));
    HeldStays(t, after, steps, product, token);
    ClockOnlyAdvances(t, after, steps);
    var later := Run(t, after, steps);
    ExpiredTokenStaysExpired(t.lib, w.hw, w.now, later.hw, later.now, token, keys);
    StartupChecksToken(t, later.hw, later.files, later.now, product, keys, e2, token);
  }

  lemma ExpiredTokenStaysExpired(lib: Library, hw: Fingerprint.Components, now: int64, hw2: Fingerprint.Components,
                                 now2: int64, token: bytes, keys: ClientKeys)
    requires CheckToken(lib, hw, now, token, keys) == Err(BadToken(Expired)) && now <= now2
    ensures CheckToken(lib, hw2, now2, token, keys) == Err(BadToken(Expired))
  {
    hide VerifyLicense;
    VerdictOverTime(lib, token, keys.edPub, now, now2);
  }

  // ---------------------------------------------------------------- the provider's sealed copies

  function ActivatedAfter(t: Provider, w: World, s: Step, product: bytes, was: Option<bytes>): Option<bytes> {
    match s
    case ActivateToken(token, keys, _) =>
      var c := CheckToken(t.lib, w.hw, w.now, token, keys);
      if c.Ok? && c.value.productId == product then Some(token) else was
    case _ => was
  }

  /** The last token activated for a product in a run, whether or not the product was deactivated since. */
  function LastActivated(t: Provider, w: World, steps: seq<Step>, product: bytes, was: Option<bytes>): Option<bytes> {
    if steps == [] then was
    else
      var before := steps[..|steps| - 1];
      ActivatedAfter(t, Run(t, w, before), steps[|steps| - 1], product, LastActivated(t, w, before, product, was))
  }

  /** The provider's sealed copy for a product opens to this token, if there is one. */
  predicate CopyHolds(t: Provider, files: FileMap, product: bytes, token: Option<bytes>) {
    var sealed := SealPath(t.home, SealLabel(product));
    token.Some? ==>
      && SecretPath(t.home) in files && sealed in files
      && t.OpenWith(files[SecretPath(t.home)], files[sealed], SealLabel(product)) == Ok(token.value)
  }

  lemma ActivationChanges(t: Provider, w: World, token: bytes, keys: ClientKeys, e: Entropy)
    ensures var w' := Apply(t, w, ActivateToken(token, keys, e));
            w'.vendors == w.vendors && w'.signed == w.signed && w'.hw == w.hw && w'.now == w.now
    ensures Apply(t, w, ActivateToken(token, keys, e)).files == Activate(t, w.hw, w.files, w.now, token, keys, e).files
  {
    hide Activate, TokenSealing;
  }

  lemma SameCopyHolds(t: Provider, before: FileMap, after: FileMap, product: bytes, token: Option<bytes>)
    requires CopyHolds(t, before, product, token) && t.Keeps(before, after)
    requires var sealed := SealPath(t.home, SealLabel(product));
             sealed in before ==> sealed in after && after[sealed] == before[sealed]
    ensures CopyHolds(t, after, product, token)
  {
    hide SecretPath, SealPath, SealLabel, DevKeyPath;
  }

  /** An activation writes the copy of its own product and leaves every other one. */
  lemma ActivationCopy(t: Provider, files: FileMap, hw: Fingerprint.Components, now: int64, token: bytes,
                       keys: ClientKeys, e: Entropy, product: bytes)
    requires GcmCorrect(t.lib) && t.SecretOk(files) && NameOk(product)
    requires var c := CheckToken(t.lib, hw, now, token, keys); c.Ok? && NameOk(c.value.productId)
    ensures var c, after := CheckToken(t.lib, hw, now, token, keys), Activate(t, hw, files, now, token, keys, e).files;
            var sealed := SealPath(t.home, SealLabel(product));
            && (c.value.productId == product ==> CopyHolds(t, after, product, Some(token)))
            && (c.value.productId != product ==> sealed in files ==> sealed in after && after[sealed] == files[sealed])
  {
    hide CheckToken;
    var made := CheckToken(t.lib, hw, now, token, keys).value.productId;
    SealOpens(t, files, token, SealLabel(made), e);
    SealedCopyPath(t.home, product, made);
    PathsAreDisjoint(t.home, made, made);
    hide SecretPath, SealPath, SealLabel, LicPath, DevKeyPath, Crypto.GcmEncrypt, Crypto.GcmDecrypt;
  }

  lemma ActivationKeepsCopy(t: Provider, w: World, s: Step, product: bytes, was: Option<bytes>)
    requires GcmCorrect(t.lib) && t.Valid(w.files) && NameOk(product) && s.ActivateToken? && Allowed(t, w, s)
    requires CopyHolds(t, w.files, product, was)
    ensures CopyHolds(t, Apply(t, w, s).files, product, ActivatedAfter(t, w, s, product, was))
  {
    StepKeepsKeys(t, w, s);
    ActivationChanges(t, w, s.token, s.keys, s.e);
    var c, after := CheckToken(t.lib, w.hw, w.now, s.token, s.keys), Apply(t, w, s).files;
    hide CheckToken, Activate, CopyHolds, Apply;
    if c.Ok? {
      ActivationCopy(t, w.files, w.hw, w.now, s.token, s.keys, s.e, product);
      if c.value.productId != product { SameCopyHolds(t, w.files, after, product, was); }
    } else {
      ActivateEffect(t, w.hw, w.files, w.now, s.token, s.keys, s.e);
    }
  }

  lemma StepKeepsCopy(t: Provider, w: World, s: Step, product: bytes, was: Option<bytes>)
    requires GcmCorrect(t.lib) && t.Valid(w.files) && NameOk(product) && Allowed(t, w, s)
    requires CopyHolds(t, w.files, product, was)
    ensures CopyHolds(t, Apply(t, w, s).files, product, ActivatedAfter(t, w, s, product, was))
  {
    if s.ActivateToken? {
      ActivationKeepsCopy(t, w, s, product, was);
    } else {
      StepKeepsKeys(t, w, s);
      OtherStepsLeaveCopy(t, w, s, product);
      hide Apply, CopyHolds;
      SameCopyHolds(t, w.files, Apply(t, w, s).files, product, was);
    }
  }

  lemma DeviceKeyLeavesCopy(t: Provider, files: FileMap, p: bytes, e: Entropy, product: bytes)
    requires NameOk(product) && NameOk(p)
    ensures var sealed, after := SealPath(t.home, SealLabel(product)), t.DeviceKeyFor(files, p, e).files;
            sealed in files ==> sealed in after && after[sealed] == files[sealed]
  {
    SealedCopyPath(t.home, product, p);
    hide SecretPath, SealPath, SealLabel, LicPath, DevKeyPath, Crypto.GcmEncrypt, Crypto.GcmDecrypt;
  }

  lemma StartupLeavesCopy(t: Provider, w: World, p: bytes, keys: ClientKeys, e: Entropy, product: bytes)
    requires NameOk(product) && NameOk(p)
    ensures var sealed := SealPath(t.home, SealLabel(product));
            var after := VerifyAtStartup(t, w.hw, w.files, w.now, p, keys, e).files;
            sealed in w.files ==> sealed in after && after[sealed] == w.files[sealed]
  {
    SealedCopyPath(t.home, product, p);
    hide SecretPath, SealPath, SealLabel, LicPath, DevKeyPath, CheckToken;
  }

  lemma OtherStepsLeaveCopy(t: Provider, w: World, s: Step, product: bytes)
    requires GcmCorrect(t.lib) && t.Valid(w.files) && NameOk(product) && Allowed(t, w, s) && !s.ActivateToken?
    ensures var sealed, after := SealPath(t.home, SealLabel(product)), Apply(t, w, s).files;
            sealed in w.files ==> sealed in after && after[sealed] == w.files[sealed]
  {
    hide RequestSealing, KeySealing, CheckToken, Server.Issue, Activate, TokenSealing, GenerateRequest, VerifyAtStartup;
    hide SecretPath, SealPath, SealLabel, LicPath, DevKeyPath, NameOk, Provider.Valid;
    match s
    case MakeRequest(p, hint, keys, re) =>
      RequestFiles(t, w, p, hint, keys, re);
      DeviceKeyLeavesCopy(t, w.files, p, re.device, product);
    case StartupCheck(p, keys, e) => StartupLeavesCopy(t, w, p, keys, e, product);
    case DeactivateProduct(p) => SealedCopyPath(t.home, product, p);
    case OverwriteLic(p, contents) => SealedCopyPath(t.home, product, p);
    case _ =>
  }

  lemma {:induction false} RunKeepsCopy(t: Provider, w: World, steps: seq<Step>, product: bytes, was: Option<bytes>)
    requires GcmCorrect(t.lib) && t.Valid(w.files) && NameOk(product) && AllowedRun(t, w, steps)
    requires CopyHolds(t, w.files, product, was)
    ensures t.Valid(Run(t, w, steps).files)
    ensures CopyHolds(t, Run(t, w, steps).files, product, LastActivated(t, w, steps, product, was))
  {
    if steps != [] {
      hide Apply, CopyHolds, ActivatedAfter, Allowed;
      var before, s := steps[..|steps| - 1], steps[|steps| - 1];
      RunKeepsCopy(t, w, before, product, was);
      StepKeepsKeys(t, Run(t, w, before), s);
      StepKeepsCopy(t, Run(t, w, before), s, product, LastActivated(t, w, before, product, was));
    }
  }

  /** The copy put in the place of the licence file is held there. */
  lemma CopyInPlaceIsHeld(t: Provider, files: FileMap, product: bytes, token: bytes)
    requires NameOk(product) && CopyHolds(t, files, product, Some(token)) && t.SecretOk(files)
    ensures var sealed := SealPath(t.home, SealLabel(product));
            && sealed in files
            && var back := files[LicPath(t.home, product) := files[sealed]];
               HoldsToken(t, back, product, token) && t.SecretOk(back)
  {
    PathsAreDisjoint(t.home, product, product);
    hide LicPath, SealPath, SecretPath, SealLabel, DevKeyPath, Crypto.GcmDecrypt;
  }

  /** `deactivate` removes the licence file, and there is no licence then; the provider's sealed copy stays, over any
      run of allowed steps, and holds the last token activated for the product. Put in the place of the licence file it
      makes the startup check, under any keys, the check of that token here and now. */
  lemma SealedCopyOutlivesDeactivation(t: Provider, w: World, steps: seq<Step>, product: bytes, was: Option<bytes>,
                                       keys: ClientKeys, e: Entropy)
    requires GcmCorrect(t.lib) && t.Valid(w.files) && NameOk(product) && AllowedRun(t, w, steps)
    requires CopyHolds(t, w.files, product, was) && LastActivated(t, w, steps, product, was).Some?
    ensures var later, sealed := Run(t, w, steps), SealPath(t.home, SealLabel(product));
            var gone := Apply(t, later, DeactivateProduct(product));
            && VerifyAtStartup(t, gone.hw, gone.files, gone.now, product, keys, e).result == Err(NoLicense(product))
            && sealed in later.files && sealed in gone.files
            && var back := Apply(t, later, OverwriteLic(product, later.files[sealed]));
               var token := LastActivated(t, w, steps, product, was).value;
               && back == Apply(t, gone, OverwriteLic(product, gone.files[sealed]))
               && VerifyAtStartup(t, back.hw, back.files, back.now, product, keys, e).result
                  == Reported(CheckToken(t.lib, back.hw, back.now, token, keys))
  {
    hide CheckToken, VerifyAtStartup, Run, Reported, AllowedRun, CopyHolds, HoldsToken, LicPath, SealPath, SealLabel;
    RunKeepsCopy(t, w, steps, product, was);
    var later, token := Run(t, w, steps), LastActivated(t, w, steps, product, was).value;
    hide LastActivated;
    CopyInPlaceIsHeld(t, later.files, product, token);
    var sealed := SealPath(t.home, SealLabel(product));
    var back := Apply(t, later, OverwriteLic(product, later.files[sealed]));
    StartupChecksToken(t, back.hw, back.files, back.now, product, keys, e, token);
    SealedCopyPath(t.home, product, product);
    var gone := Apply(t, later, DeactivateProduct(product));
    StartupEffect(t, gone.hw, gone.files, gone.now, product, keys, e);
    assert back.files == Apply(t, gone, OverwriteLic(product, gone.files[sealed])).files;
  }

  // ---------------------------------------------------------------- exactly which files are valid

  ghost predicate Opens(t: Provider, x: Sealing) {
    Crypto.GcmDecrypt(t.lib, x.key, x.aad, x.blob) == Ok(x.plain)
  }

  /** Every logged encryption opens to its plaintext, and there is none without a machine secret. */
  ghost predicate SealingsOpen(t: Provider, w: World) {
    && (SecretPath(t.home) !in w.files ==> w.sealed == {})
    && forall x | x in w.sealed :: Opens(t, x)
  }

  lemma KeySealingOpens(t: Provider, files: FileMap, product: bytes, e: Entropy)
    requires GcmCorrect(t.lib) && t.Valid(files) && NameOk(product)
    ensures forall x | x in KeySealing(t, files, product, e) :: Opens(t, x)
  {
    var pub: bytes := t.lib.edPublic(e.seed);
    SealOpens(t, files, e.seed + pub, DEVKEY_LABEL + product, e);
    PathsAreDisjoint(t.home, product, product);
    hide SecretPath, DevKeyPath, Crypto.GcmEncrypt, Crypto.GcmDecrypt;
  }

  lemma RequestSealingOpens(t: Provider, w: World, product: bytes, hint: bytes, keys: ClientKeys, re: RequestEntropy)
    requires GcmCorrect(t.lib)
    ensures forall x | x in RequestSealing(t, w, product, hint, keys, re) :: Opens(t, x)
  {
    var pub: bytes := t.lib.xPublic(re.ephemeral);
    match t.lib.xExchange(re.ephemeral, keys.xPub)
    case None =>
    case Some(secret) =>
      var key, aad := Crypto.HybridKey(t.lib, secret, pub), Server.MakeAad(product);
      var text := RequestText(t, w.hw, w.files, w.now, product, hint, re);
      hide RequestText, Server.MakeAad, Crypto.HybridKey;
      Crypto.GcmRoundTrip(t.lib, key, aad, text, re.gcmNonce, [], []);
  }

  lemma TokenSealingOpens(t: Provider, w: World, token: bytes, keys: ClientKeys, e: Entropy)
    requires GcmCorrect(t.lib) && t.Valid(w.files)
    ensures forall x | x in TokenSealing(t, w, token, keys, e) :: Opens(t, x)
  {
    hide CheckToken, SealLabel;
    var c := CheckToken(t.lib, w.hw, w.now, token, keys);
    if c.Ok? { SealOpens(t, w.files, token, SealLabel(c.value.productId), e); }
  }

  lemma StepKeepsSealings(t: Provider, w: World, s: Step)
    requires GcmCorrect(t.lib) && t.Valid(w.files) && Allowed(t, w, s) && SealingsOpen(t, w)
    ensures SealingsOpen(t, Apply(t, w, s))
  {
    StepKeepsKeys(t, w, s);
    hide RequestSealing, KeySealing, TokenSealing, CheckToken, Server.Issue, Activate, VerifyAtStartup, Opens;
    hide GenerateRequest;
    match s
    case MakeRequest(p, hint, keys, re) =>
      RequestFiles(t, w, p, hint, keys, re);
      KeySealingOpens(t, w.files, p, re.device);
      RequestSealingOpens(t, w, p, hint, keys, re);
    case ActivateToken(token, keys, e) =>
      ActivateEffect(t, w.hw, w.files, w.now, token, keys, e);
      TokenSealingOpens(t, w, token, keys, e);
      NoCheckNoSealing(t, w, token, keys, e);
    case _ =>
  }

  lemma NoCheckNoSealing(t: Provider, w: World, token: bytes, keys: ClientKeys, e: Entropy)
    ensures CheckToken(t.lib, w.hw, w.now, token, keys).Err? ==> TokenSealing(t, w, token, keys, e) == {}
  {
    hide CheckToken;
  }

  lemma {:induction false} RunKeepsSealings(t: Provider, w: World, steps: seq<Step>)
    requires GcmCorrect(t.lib) && t.Valid(w.files) && SealingsOpen(t, w) && AllowedRun(t, w, steps)
    ensures t.Valid(Run(t, w, steps).files) && SealingsOpen(t, Run(t, w, steps))
  {
    if steps != [] {
      hide Apply, SealingsOpen, Allowed;
      var before, s := steps[..|steps| - 1], steps[|steps| - 1];
      RunKeepsSealings(t, w, before);
      StepKeepsKeys(t, Run(t, w, before), s);
      StepKeepsSealings(t, Run(t, w, before), s);
    }
  }

  /** The licence file is what some encryption under the product's label on this machine made, of a token that passes
      its check now. */
  ghost predicate FileIsSealedToken(t: Provider, w: World, product: bytes, keys: ClientKeys, e: Entropy, x: Sealing) {
    && x in w.sealed && LicPath(t.home, product) in w.files && w.files[LicPath(t.home, product)] == x.blob
    && x.aad == SealLabel(product) && x.key == t.LabelKey(Machine(t, w.files, e), SealLabel(product))
    && CheckToken(t.lib, w.hw, w.now, x.plain, keys).Ok?
  }

  /** Exactly when a startup check is valid, in every world reachable by allowed steps: when the licence file is the
      blob of a token once sealed for the product that passes its check now, whoever put it there. The check then
      reports that token. */
  lemma StartupValidIff(t: Provider, start: World, steps: seq<Step>, product: bytes, keys: ClientKeys, e: Entropy)
    requires GcmCorrect(t.lib) && Initial(t, start) && AllowedRun(t, start, steps) && NameOk(product)
    requires OpensWhatWasSealed(t, Run(t, start, steps), product, e)
    ensures var w := Run(t, start, steps);
            VerifyAtStartup(t, w.hw, w.files, w.now, product, keys, e).result.Ok?
            <==> exists x :: FileIsSealedToken(t, w, product, keys, e, x)
    ensures var w := Run(t, start, steps);
            forall x | FileIsSealedToken(t, w, product, keys, e, x) ::
              VerifyAtStartup(t, w.hw, w.files, w.now, product, keys, e).result
              == Reported(CheckToken(t.lib, w.hw, w.now, x.plain, keys))
  {
    var w := Run(t, start, steps);
    RunKeepsSealings(t, start, steps);
    hide Run, AllowedRun, CheckToken, LicPath, SealLabel;
    if VerifyAtStartup(t, w.hw, w.files, w.now, product, keys, e).result.Ok? {
      StartupOpensToken(t, w, product, keys, e);
      var blob := w.files[LicPath(t.home, product)];
      var token := t.UnsealBlob(w.files, blob, SealLabel(product), e).result.value;
      var key := t.LabelKey(Machine(t, w.files, e), SealLabel(product));
      assert FileIsSealedToken(t, w, product, keys, e, Sealing(key, SealLabel(product), blob, token));
    }
    forall x | FileIsSealedToken(t, w, product, keys, e, x)
      ensures VerifyAtStartup(t, w.hw, w.files, w.now, product, keys, e).result
              == Reported(CheckToken(t.lib, w.hw, w.now, x.plain, keys))
    {
      assert Opens(t, x);
      UnsealIsOpen(t, w.files, x.blob, SealLabel(product), e);
    }
  }

  // ---------------------------------------------------------------- completeness

  /** One exchange: the vendor's keys, a request made on a machine, and the order it is answered with. */
  datatype Exchange = Exchange(
    ke: Keystore.KeystoreEntropy,
    hw: Fingerprint.Components, files: FileMap, asked: int64, product: bytes, hint: bytes, re: RequestEntropy,
    features: bytes, days: int32, maxActivations: uint32, checkedAt: int64, issuedAt: int64, rnd: Block16)
  {
    function Vendor(t: Provider): Keystore.ServerKeys {
      Keystore.FreshKeys(t.lib, ke)
    }

    function Keys(t: Provider): ClientKeys {
      ClientKeys(t.lib.edPublic(ke.edSeed), t.lib.xPublic(ke.xSeed))
    }

    function Order(): Server.Order {
      Server.Order(product, features, days, maxActivations)
    }

    function Request(t: Provider): Result<bytes, ClientError> {
      match GenerateRequest(t, hw, files, asked, product, hint, Keys(t), re).result
      case Ok(r) => Ok(r.blobB64)
      case Err(error) => Err(error)
    }

    /** What the vendor sends back. */
    function Answer(t: Provider): Option<Server.Issued> {
      match Request(t)
      case Err(_) => None
      case Ok(blobB64) =>
        match Server.Issue(t.lib, Vendor(t), blobB64, Order(), checkedAt, issuedAt, rnd)
        case Err(_) => None
        case Ok(issued) => Some(issued)
    }

    function Token(t: Provider): bytes {
      match Answer(t)
      case None => []
      case Some(issued) => issued.token
    }

    /** The record a customer is owed. */
    function Owed(lib: Library): LicenseRecord {
      var fp := Fingerprint.Compute(lib, hw, true);
      LicenseRecord(UuidV4(rnd), product, fp.hash, fp.assurance, Server.Features(features), issuedAt,
                    Server.ExpiresAt(issuedAt, days), maxActivations)
    }

    /** What a valid startup check should report. */
    function Report(lib: Library): Startup {
      Startup(UuidV4(rnd), product, Fingerprint.Compute(lib, hw, true).assurance, Server.ExpiresAt(issuedAt, days),
              issuedAt, Server.Features(features))
    }

    /** The promise: a named product, texts that are text, and a request looked at within a day. */
    ghost predicate Proper(t: Provider) {
      && t.Valid(files) && NameOk(product)
      && t.lib.utf8(product) && t.lib.utf8(hint) && (forall f | f in Server.Features(features) :: t.lib.utf8(f))
      && 0 <= checkedAt - asked <= 86400 && 0 <= checkedAt <= issuedAt && Server.DateFits(issuedAt, days)
    }

    predicate Lasts(until: int64) {
      days <= 0 || until <= issuedAt + 86400 * days
    }

    /** The machine still has the requester's fingerprint, and the days are not over. */
    predicate Covers(lib: Library, w: World) {
      Lasts(w.now) && Fingerprint.Verify(lib, w.hw, Fingerprint.Compute(lib, hw, true).hash)
    }
  }

  /** A proper exchange yields a request, and the vendor's answer to it is the signed owed record. */
  lemma ExchangeSucceeds(t: Provider, x: Exchange)
    requires Laws(t.lib) && x.Proper(t)
    ensures match x.Answer(t)
            case None => false
            case Some(answer) =>
              && answer.record == x.Owed(t.lib)
              && SignLicense(t.lib, x.Owed(t.lib), x.Vendor(t).edPriv) == Some(answer.token)
  {
    hide GenerateRequest, Server.Issue, RecordToJson, Fingerprint.Compute, UuidV4, Server.Features, RequestText;
    hide RecordIsText, Crypto.HybridKey, Server.MakeAad, Server.ExpiresAt;
    RequestSucceeds(t, x.hw, x.files, x.asked, x.product, x.hint, x.ke.xSeed, x.Keys(t).edPub, x.re);
    OwedIsText(t, x);
    PrintedRecordParses(t.lib, x.Owed(t.lib));
    RequestBinding(t, x.hw, x.files, x.asked, x.product, x.hint, x.Vendor(t), x.ke.xSeed, x.Keys(t).edPub, x.re,
                   x.Order(), x.checkedAt, x.issuedAt, x.rnd);
  }

  lemma OwedIsText(t: Provider, x: Exchange)
    requires JsonLaws(t.lib) && x.Proper(t)
    ensures RecordIsText(t.lib, x.Owed(t.lib))
  {
    hide AllText, UuidV4, Fingerprint.Compute, Server.Features;
    UuidShape(x.rnd);
    Fingerprint.HashShape(t.lib, x.hw, true);
    AssuranceIsAscii(Fingerprint.Compute(t.lib, x.hw, true).tpmBound);
    Fingerprint.AssuranceOf(t.lib, x.hw, true);
  }

  /** The answer's token passes its check, with the owed record, exactly on machines with the requester's fingerprint
      and until its days are over. */
  lemma AnswerChecks(t: Provider, x: Exchange, hw: Fingerprint.Components, now: int64)
    requires Laws(t.lib) && x.Proper(t)
    ensures CheckToken(t.lib, hw, now, x.Token(t), x.Keys(t))
            == if !x.Lasts(now) then Err(BadToken(Expired))
               else if Fingerprint.Verify(t.lib, hw, Fingerprint.Compute(t.lib, x.hw, true).hash) then Ok(x.Owed(t.lib))
               else Err(FingerprintMismatch)
  {
    ExchangeSucceeds(t, x);
    var seed: bytes := x.ke.edSeed;
    assert (seed + t.lib.edPublic(x.ke.edSeed))[..32] == seed;
    TokenRoundTrip(t.lib, x.Owed(t.lib), x.Vendor(t).edPriv, now);
    Server.LifetimeIff(x.issuedAt, x.days, now);
    hide GenerateRequest, Server.Issue, SignLicense, VerifyLicense, Fingerprint.Compute, UuidV4, Server.Features;
  }

  /** The startup check of an activated token is the check of that token, whatever the licence file held before, if the
      product was left alone in between. */
  lemma ActivatedTokenIsChecked(t: Provider, w: World, token: bytes, keys: ClientKeys, ae: Entropy, steps: seq<Step>,
                                keys2: ClientKeys, e: Entropy)
    requires var c := CheckToken(t.lib, w.hw, w.now, token, keys); c.Ok? && NameOk(c.value.productId)
    requires GcmCorrect(t.lib) && t.Valid(w.files)
    requires AllowedRun(t, Apply(t, w, ActivateToken(token, keys, ae)), steps)
    requires Quiet(t, steps, CheckToken(t.lib, w.hw, w.now, token, keys).value.productId)
    ensures var r := CheckToken(t.lib, w.hw, w.now, token, keys).value;
            Activate(t, w.hw, w.files, w.now, token, keys, ae).result == Ok(Activation(r.licenseId, r.productId))
    ensures var product := CheckToken(t.lib, w.hw, w.now, token, keys).value.productId;
            var now := Run(t, Apply(t, w, ActivateToken(token, keys, ae)), steps);
            VerifyAtStartup(t, now.hw, now.files, now.now, product, keys2, e).result
            == Reported(CheckToken(t.lib, now.hw, now.now, token, keys2))
  {
    hide CheckToken, VerifyAtStartup, Activate, Run, AllowedRun, Quiet, TokenSealing, HoldsToken, Reported;
    var step, product := ActivateToken(token, keys, ae), CheckToken(t.lib, w.hw, w.now, token, keys).value.productId;
    ActivateEffect(t, w.hw, w.files, w.now, token, keys, ae);
    StepKeepsKeys(t, w, step);
    var now := Run(t, Apply(t, w, step), steps);
    HeldStays(t, Apply(t, w, step), steps, product, token);
    StartupChecksToken(t, now.hw, now.files, now.now, product, keys2, e, token);
  }

  /** After an activation every later startup check under the same keys, the product left alone, reports the activated
      record until it expires, on machines with its fingerprint; the expiry is reported first. */
  lemma ActivatedLicenceOverTime(t: Provider, w: World, token: bytes, keys: ClientKeys, ae: Entropy, steps: seq<Step>,
                                 e: Entropy, record: LicenseRecord)
    requires GcmCorrect(t.lib) && t.Valid(w.files) && NameOk(record.productId)
    requires CheckToken(t.lib, w.hw, w.now, token, keys) == Ok(record)
    requires AllowedRun(t, Apply(t, w, ActivateToken(token, keys, ae)), steps)
    requires Quiet(t, steps, record.productId)
    ensures var now := Run(t, Apply(t, w, ActivateToken(token, keys, ae)), steps);
            VerifyAtStartup(t, now.hw, now.files, now.now, record.productId, keys, e).result
            == if record.expiresAt != 0 && now.now > record.expiresAt then Err(BadToken(Expired))
               else if Fingerprint.Verify(t.lib, now.hw, record.fingerprintHash) then Ok(StartupOf(record))
               else Err(FingerprintMismatch)
  {
    var after := Apply(t, w, ActivateToken(token, keys, ae));
    var now := Run(t, after, steps);
    ActivatedTokenIsChecked(t, w, token, keys, ae, steps, keys, e);
    ActivationChanges(t, w, token, keys, ae);
    ClockOnlyAdvances(t, after, steps);
    hide VerifyAtStartup, Run, Apply, AllowedRun, Quiet, Fingerprint.Verify, StartupOf;
    CheckOverTime(t.lib, w.hw, w.now, now.hw, now.now, token, keys);
  }

  /** The later check of a token that passed. */
  lemma CheckOverTime(lib: Library, hw: Fingerprint.Components, now: int64, hw2: Fingerprint.Components, now2: int64,
                      token: bytes, keys: ClientKeys)
    requires CheckToken(lib, hw, now, token, keys).Ok? && now <= now2
    ensures var r := CheckToken(lib, hw, now, token, keys).value;
            CheckToken(lib, hw2, now2, token, keys)
            == if r.expiresAt != 0 && now2 > r.expiresAt then Err(BadToken(Expired))
               else if Fingerprint.Verify(lib, hw2, r.fingerprintHash) then Ok(r)
               else Err(FingerprintMismatch)
  {
    hide SplitToken, ParseRecord, Fingerprint.Verify;
  }

  /** End-to-end completeness. A token issued for a proper request activates on the requesting machine at any time
      within its days, whatever lies in the licence file then, and, whatever else happens to other products meanwhile,
      the startup check there then reports exactly the issued id, product, assurance, times and features. */
  lemma EndToEnd(t: Provider, x: Exchange, w: World, ae: Entropy, steps: seq<Step>, e: Entropy)
    requires Laws(t.lib) && x.Proper(t) && t.Valid(w.files) && x.Covers(t.lib, w)
    requires var after := Apply(t, w, ActivateToken(x.Token(t), x.Keys(t), ae));
             && AllowedRun(t, after, steps) && Quiet(t, steps, x.product)
             && x.Covers(t.lib, Run(t, after, steps))
    ensures x.Answer(t).Some?
    ensures Activate(t, w.hw, w.files, w.now, x.Token(t), x.Keys(t), ae).result
            == Ok(Activation(UuidV4(x.rnd), x.product))
    ensures var now := Run(t, Apply(t, w, ActivateToken(x.Token(t), x.Keys(t), ae)), steps);
            VerifyAtStartup(t, now.hw, now.files, now.now, x.product, x.Keys(t), e).result == Ok(x.Report(t.lib))
  {
    hide CheckToken, VerifyAtStartup, Activate, Run, AllowedRun, Quiet, Fingerprint.Compute, UuidV4, Server.Features;
    hide Server.ExpiresAt, SignLicense;
    ExchangeSucceeds(t, x);
    var now := Run(t, Apply(t, w, ActivateToken(x.Token(t), x.Keys(t), ae)), steps);
    AnswerChecks(t, x, w.hw, w.now);
    AnswerChecks(t, x, now.hw, now.now);
    ActivatedTokenIsChecked(t, w, x.Token(t), x.Keys(t), ae, steps, x.Keys(t), e);
  }

  /** How the vendor protects its keystore: passphrase, cost, an optional provider, and the date. */
  datatype Setup = Setup(passphrase: bytes, params: Argon2Params, tpm: Option<TpmLinux.SealProvider>,
                         createdAt: int64)
  {
    function Generated(lib: Library, ke: Keystore.KeystoreEntropy): Result<Keystore.Generated, Keystore.KeystoreError> {
      Keystore.Generate(lib, passphrase, params, tpm, ke, createdAt)
    }

    /** The vendor's keys, read back from the keystore file. */
    function Vendor(lib: Library, g: Keystore.Generated): Result<Keystore.ServerKeys, Keystore.KeystoreError> {
      Keystore.Load(lib, g.contents, passphrase, tpm)
    }

    /** The client's keys, read from the public key file. */
    function Keys(lib: Library, g: Keystore.Generated): Result<ClientKeys, KeyFileError> {
      LoadServerKeys(lib, lib.dump(Server.KeyFileJson(g.pub), 2))
    }

    /** Argon2 works on the passphrase, and the provider seals the master key and gives it back. */
    ghost predicate Works(lib: Library, ke: Keystore.KeystoreEntropy) {
      match lib.argon2(passphrase, ke.salt, params)
      case None => false
      case Some(master) =>
        match Keystore.SealedMaster(tpm, master)
        case None => tpm.None?
        case Some(blob) => tpm.value.unseal(blob, Keystore.MASTER_LABEL) == Some(master)
    }
  }

  /** The keystore and the public key file load as the two halves of the generated keys. */
  lemma FilesLoad(t: Provider, setup: Setup, x: Exchange)
    requires GcmCorrect(t.lib) && JsonLaws(t.lib) && setup.Works(t.lib, x.ke)
    ensures match setup.Generated(t.lib, x.ke)
            case Err(_) => false
            case Ok(g) => setup.Vendor(t.lib, g) == Ok(x.Vendor(t)) && setup.Keys(t.lib, g) == Ok(x.Keys(t))
  {
    hide Keystore.Generate, Keystore.Load, LoadServerKeys, Server.KeyFileJson;
    Keystore.GenerateSucceeds(t.lib, setup.passphrase, setup.params, setup.tpm, x.ke, setup.createdAt);
    Keystore.LoadIff(t.lib, setup.passphrase, setup.params, setup.tpm, x.ke, setup.createdAt,
                     setup.passphrase, setup.tpm);
    KeyFileLoads(t.lib, setup.passphrase, setup.params, setup.tpm, x.ke, setup.createdAt);
  }

  /** What the server does with the request of an exchange is sign its token. */
  lemma AnswerIsIssued(t: Provider, x: Exchange)
    requires Laws(t.lib) && x.Proper(t)
    ensures var issued := Server.Issue(t.lib, x.Vendor(t), x.Request(t).GetOr([]), x.Order(), x.checkedAt, x.issuedAt,
                                       x.rnd);
            && |x.Vendor(t).edPriv| >= 32 && x.Request(t).Ok?
            && issued.Ok? && issued.value.token == x.Token(t)
    ensures x.Vendor(t).edPub == x.Keys(t).edPub
  {
    ExchangeSucceeds(t, x);
    hide GenerateRequest, Server.Issue, SignLicense, Exchange.Owed;
  }

  /** End-to-end completeness from the files on: with the keys loaded from a generated keystore and from its public key
      file, the request is made, answered and activated, and the later startup check reports the licence. */
  lemma EndToEndFromFiles(t: Provider, setup: Setup, x: Exchange, w: World, ae: Entropy, steps: seq<Step>, e: Entropy)
    requires Laws(t.lib) && setup.Works(t.lib, x.ke) && x.Proper(t) && t.Valid(w.files) && x.Covers(t.lib, w)
    requires var after := Apply(t, w, ActivateToken(x.Token(t), x.Keys(t), ae));
             && AllowedRun(t, after, steps) && Quiet(t, steps, x.product)
             && x.Covers(t.lib, Run(t, after, steps))
    ensures var g := setup.Generated(t.lib, x.ke);
            && g.Ok? && setup.Vendor(t.lib, g.value).Ok? && setup.Keys(t.lib, g.value).Ok?
            && var vendor, keys := setup.Vendor(t.lib, g.value).value, setup.Keys(t.lib, g.value).value;
               var request := GenerateRequest(t, x.hw, x.files, x.asked, x.product, x.hint, keys, x.re).result;
               && request.Ok? && |vendor.edPriv| >= 32
               && var blobB64 := request.value.blobB64;
                  var issued := Server.Issue(t.lib, vendor, blobB64, x.Order(), x.checkedAt, x.issuedAt, x.rnd);
                  && issued.Ok?
                  && Activate(t, w.hw, w.files, w.now, issued.value.token, keys, ae).result
                     == Ok(Activation(UuidV4(x.rnd), x.product))
                  && var activation := ActivateToken(issued.value.token, keys, ae);
                     var now := Run(t, Apply(t, w, activation), steps);
                     VerifyAtStartup(t, now.hw, now.files, now.now, x.product, keys, e).result == Ok(x.Report(t.lib))
  {
    hide VerifyAtStartup, Run, AllowedRun, Quiet, Apply, Exchange.Covers, Exchange.Report, GenerateRequest;
    hide Server.Issue, Setup.Generated, Setup.Vendor, Setup.Keys, Setup.Works, Activate, UuidV4;
    FilesLoad(t, setup, x);
    AnswerIsIssued(t, x);
    EndToEnd(t, x, w, ae, steps, e);
  }

  // ---------------------------------------------------------------- the assumptions in honest runs

  /** The vendor's own token meets the signature assumption from the moment it is issued. */
  lemma IssuedTokenIsSigned(t: Provider, w: World, vendor: Keystore.ServerKeys, blobB64: bytes, order: Server.Order,
                            busy: nat, rnd: Block16)
    requires |vendor.edPriv| >= 32
    requires Server.Issue(t.lib, vendor, blobB64, order, w.now, Later(w.now, busy), rnd).Ok?
    ensures var token := Server.Issue(t.lib, vendor, blobB64, order, w.now, Later(w.now, busy), rnd).value.token;
            var w' := Apply(t, w, IssueLicense(vendor, blobB64, order, busy, rnd));
            VerifiesWhatWasSigned(t, w', token, vendor.edPub)
  {
    hide Server.DecryptRequest, Server.BuildRecord, RecordToJson, Token, SplitToken, TimestampIsFresh;
    var request := Server.DecryptRequest(t.lib, vendor.xPriv, order.product, blobB64).value;
    var g := Signing(vendor, request, order, w.now, Later(w.now, busy), rnd);
    var payload := t.lib.dump(RecordToJson(g.Record()), COMPACT).value;
    TokenShape(payload, t.lib.edSign(vendor.edPriv[..32], payload));
    var w' := Apply(t, w, IssueLicense(vendor, blobB64, order, busy, rnd));
    assert WasSigned(t, w', vendor.edPub, payload, g);
  }

  /** A request logs both encryptions it makes: that of a new device key, as it is stored, and its own, as it is
      sent. */
  lemma RequestIsLogged(t: Provider, w: World, product: bytes, hint: bytes, keys: ClientKeys, re: RequestEntropy)
    requires GcmCorrect(t.lib) && t.Valid(w.files) && NameOk(product)
    ensures var w' := Apply(t, w, MakeRequest(product, hint, keys, re));
            var path, aLabel := DevKeyPath(t.home, product), Ascii("devkey-") + product;
            path !in w.files ==>
              && SecretPath(t.home) in w'.files && path in w'.files
              && Sealing(t.lib.hkdf(w'.files[SecretPath(t.home)], [], aLabel), aLabel, w'.files[path],
                         re.device.seed + t.lib.edPublic(re.device.seed)) in w'.sealed
    ensures var g := GenerateRequest(t, w.hw, w.files, w.now, product, hint, keys, re);
            g.result.Ok? ==>
              exists x ::
                && x in Apply(t, w, MakeRequest(product, hint, keys, re)).sealed
                && x.aad == product + Ascii("|license-client-v1.0.0")
                && Base64.Decode(g.result.value.blobB64) == Ok(t.lib.xPublic(re.ephemeral) + x.blob)
  {
    if DevKeyPath(t.home, product) !in w.files { NewKeyIsLogged(t, w.files, product, re.device); }
    RequestFiles(t, w, product, hint, keys, re);
    SentIsLogged(t, w, product, hint, keys, re);
    hide GenerateRequest, KeySealing, RequestSealing;
  }

  lemma NewKeyIsLogged(t: Provider, files: FileMap, product: bytes, e: Entropy)
    requires GcmCorrect(t.lib) && t.Valid(files) && NameOk(product) && DevKeyPath(t.home, product) !in files
    ensures var d, path := t.DeviceKeyFor(files, product, e), DevKeyPath(t.home, product);
            && SecretPath(t.home) in d.files && path in d.files
            && Sealing(t.LabelKey(d.files[SecretPath(t.home)], DEVKEY_LABEL + product), DEVKEY_LABEL + product,
                       d.files[path], e.seed + t.lib.edPublic(e.seed)) in KeySealing(t, files, product, e)
  {
    var pub: bytes := t.lib.edPublic(e.seed);
    SealOpens(t, files, e.seed + pub, DEVKEY_LABEL + product, e);
    DeviceKeySecret(t, files, product, e);
    hide SecretPath, DevKeyPath, Crypto.GcmEncrypt, Crypto.GcmDecrypt;
  }

  lemma SentIsLogged(t: Provider, w: World, product: bytes, hint: bytes, keys: ClientKeys, re: RequestEntropy)
    ensures var g := GenerateRequest(t, w.hw, w.files, w.now, product, hint, keys, re);
            g.result.Ok? ==>
              exists x ::
                && x in RequestSealing(t, w, product, hint, keys, re)
                && x.aad == Server.MakeAad(product)
                && Base64.Decode(g.result.value.blobB64) == Ok(t.lib.xPublic(re.ephemeral) + x.blob)
  {
    hide Base64.Encode, Base64.Decode, RequestToJson, BuildRequest, Server.MakeAad, Crypto.GcmEncrypt, Crypto.HybridKey;
    var g := GenerateRequest(t, w.hw, w.files, w.now, product, hint, keys, re);
    if g.result.Ok? {
      var pub, aad := t.lib.xPublic(re.ephemeral), Server.MakeAad(product);
      var key := Crypto.HybridKey(t.lib, t.lib.xExchange(re.ephemeral, keys.xPub).value, pub);
      var text := RequestText(t, w.hw, w.files, w.now, product, hint, re);
      var x := Sealing(key, aad, Crypto.GcmEncrypt(t.lib, key, aad, text, re.gcmNonce).GetOr([]), text);
      assert x in RequestSealing(t, w, product, hint, keys, re);
      Base64.EncodeThenDecode(t.lib.xPublic(re.ephemeral) + x.blob);
    }
  }

  /** Right after an activation the product's file opens to that token, as it was sealed. */
  lemma ActivatedTokenWasSealed(t: Provider, w: World, token: bytes, keys: ClientKeys, e: Entropy, e2: Entropy)
    requires GcmCorrect(t.lib) && Inv(t, w) && Allowed(t, w, ActivateToken(token, keys, e))
    requires CheckToken(t.lib, w.hw, w.now, token, keys).Ok?
    ensures var product := CheckToken(t.lib, w.hw, w.now, token, keys).value.productId;
            var w' := Apply(t, w, ActivateToken(token, keys, e));
            OpensWhatWasSealed(t, w', product, e2) && OpenedToken(t, w', product, e2) == token
  {
    hide CheckToken, SealLabel;
    var product := CheckToken(t.lib, w.hw, w.now, token, keys).value.productId;
    var w' := Apply(t, w, ActivateToken(token, keys, e));
    ActivateStep(t, w, token, keys, e);
    ActivateEffect(t, w.hw, w.files, w.now, token, keys, e);
    UnsealIsOpen(t, w'.files, w'.files[LicPath(t.home, product)], SealLabel(product), e2);
    SealOpens(t, w.files, token, SealLabel(product), e);
    ActivationPaths(t.home, product);
  }

  /** The run of one exchange on an initial machine, with its worlds named: keys, request, waiting, issue. */
  function WithKeys(t: Provider, start: World, x: Exchange): World {
    Apply(t, start, InitKeys(x.ke))
  }

  function AskStep(t: Provider, x: Exchange): Step {
    MakeRequest(x.product, x.hint, x.Keys(t), x.re)
  }

  function Requested(t: Provider, start: World, x: Exchange): World {
    Apply(t, WithKeys(t, start, x), AskStep(t, x))
  }

  function WaitStep(x: Exchange): Step {
    Tick(if x.asked <= x.checkedAt then x.checkedAt - x.asked else 0)
  }

  function Waited(t: Provider, start: World, x: Exchange): World {
    Apply(t, Requested(t, start, x), WaitStep(x))
  }

  function Busy(x: Exchange): nat {
    if x.checkedAt <= x.issuedAt then x.issuedAt - x.checkedAt else 0
  }

  function AnswerStep(t: Provider, x: Exchange): Step {
    IssueLicense(x.Vendor(t), x.Request(t).GetOr([]), x.Order(), Busy(x), x.rnd)
  }

  function Issued(t: Provider, start: World, x: Exchange): World {
    Apply(t, Waited(t, start, x), AnswerStep(t, x))
  }

  function HonestSteps(t: Provider, x: Exchange, e: Entropy): seq<Step> {
    [InitKeys(x.ke), AskStep(t, x), WaitStep(x), AnswerStep(t, x), ActivateToken(x.Token(t), x.Keys(t), e)]
  }

  /** The exchange is made on the machine of this world, and its request key is apart from the machine's keys. */
  ghost predicate StartsIn(t: Provider, start: World, x: Exchange) {
    && x.hw == start.hw && x.files == start.files && x.asked == start.now
    && KeysApart(t, start, x.product, x.Keys(t), x.re)
  }

  lemma HonestRequest(t: Provider, start: World, x: Exchange)
    requires GcmCorrect(t.lib) && Inv(t, start) && NameOk(x.product) && StartsIn(t, start, x)
    ensures Allowed(t, WithKeys(t, start, x), AskStep(t, x)) && Ideal(t, WithKeys(t, start, x), AskStep(t, x))
    ensures var w := Requested(t, start, x);
            Inv(t, w) && x.Vendor(t) in w.vendors && w.hw == start.hw && w.now == start.now
  {
    hide GenerateRequest, KeySealing, RequestSealing, Inv, KeysApart;
    var w := WithKeys(t, start, x);
    StepKeepsInv(t, start, InitKeys(x.ke));
    SameKeysApart(t, start, w, x.product, x.Keys(t), x.re);
    StepKeepsInv(t, w, AskStep(t, x));
  }

  lemma SameKeysApart(t: Provider, w: World, w': World, product: bytes, keys: ClientKeys, re: RequestEntropy)
    requires KeysApart(t, w, product, keys, re) && w'.files == w.files
    ensures KeysApart(t, w', product, keys, re)
  {
  }

  lemma HonestWait(t: Provider, start: World, x: Exchange)
    requires GcmCorrect(t.lib) && Inv(t, start) && x.Proper(t) && StartsIn(t, start, x)
    ensures var w := Waited(t, start, x);
            && Inv(t, w) && x.Vendor(t) in w.vendors && w.hw == start.hw && w.now == x.checkedAt
            && Allowed(t, w, AnswerStep(t, x)) && Ideal(t, w, AnswerStep(t, x))
  {
    HonestRequest(t, start, x);
    hide Requested, Inv;
    StepKeepsInv(t, Requested(t, start, x), WaitStep(x));
  }

  lemma IssueChangesSigned(t: Provider, w: World, vendor: Keystore.ServerKeys, blobB64: bytes, order: Server.Order,
                           busy: nat, rnd: Block16)
    requires |vendor.edPriv| >= 32
    requires Server.Issue(t.lib, vendor, blobB64, order, w.now, Later(w.now, busy), rnd).Ok?
    ensures var w' := Apply(t, w, IssueLicense(vendor, blobB64, order, busy, rnd));
            w'.vendors == w.vendors && w'.hw == w.hw && w'.now == Later(w.now, busy) && w'.files == w.files
  {
    hide Server.Issue, Server.DecryptRequest;
  }

  /** Up to the issue an honest run keeps the invariant, and the token that comes back is one the vendor signed. */
  lemma HonestIssue(t: Provider, start: World, x: Exchange)
    requires Laws(t.lib) && Inv(t, start) && x.Proper(t) && StartsIn(t, start, x)
    ensures var w := Issued(t, start, x);
            && Inv(t, w) && x.Vendor(t) in w.vendors && w.hw == start.hw && w.now == x.issuedAt
            && VerifiesWhatWasSigned(t, w, x.Token(t), x.Keys(t).edPub)
  {
    assert Later(x.checkedAt, Busy(x)) == x.issuedAt && GcmCorrect(t.lib) && JsonLaws(t.lib) by {
      hide Inv, StartsIn, NameOk;
    }
    hide Waited, Inv, VerifiesWhatWasSigned, Apply, Server.Issue, Exchange.Vendor, Exchange.Request, Exchange.Token;
    hide Exchange.Keys, Allowed, Ideal, Exchange.Proper, Laws, Later, Busy, StartsIn;
    HonestWait(t, start, x);
    AnswerIsIssued(t, x);
    var w, vendor, text := Waited(t, start, x), x.Vendor(t), x.Request(t).GetOr([]);
    IssueChangesSigned(t, w, vendor, text, x.Order(), Busy(x), x.rnd);
    StepKeepsInv(t, w, AnswerStep(t, x));
    IssuedTokenIsSigned(t, w, vendor, text, x.Order(), Busy(x), x.rnd);
  }

  lemma SameSigned(t: Provider, w: World, w': World, token: bytes, edPub: bytes)
    requires VerifiesWhatWasSigned(t, w, token, edPub) && w'.signed == w.signed && w'.vendors == w.vendors
    ensures VerifiesWhatWasSigned(t, w', token, edPub)
  {
    hide SplitToken, RecordToJson;
    match SplitToken(token)
    case Err(_) =>
    case Ok((payload, sig)) =>
      if g :| WasSigned(t, w, edPub, payload, g) { assert WasSigned(t, w', edPub, payload, g); }
  }

  lemma OwedAtOnce(t: Provider, x: Exchange)
    requires x.Proper(t)
    ensures x.Owed(t.lib).productId == x.product && NameOk(x.product) && x.Lasts(x.issuedAt)
    ensures Fingerprint.Verify(t.lib, x.hw, Fingerprint.Compute(t.lib, x.hw, true).hash)
  {
    hide Fingerprint.Compute, Server.Features, UuidV4, Server.ExpiresAt, NameOk, Provider.Valid;
  }

  lemma PassingIsAllowed(t: Provider, w: World, token: bytes, keys: ClientKeys, e: Entropy, record: LicenseRecord)
    requires CheckToken(t.lib, w.hw, w.now, token, keys) == Ok(record) && NameOk(record.productId)
    ensures Allowed(t, w, ActivateToken(token, keys, e)) && Ideal(t, w, ActivateToken(token, keys, e))
  {
    hide CheckToken, NameOk;
  }

  /** On the requester's machine, at the moment of issue, the token passes its check. */
  lemma AnswerIsAllowed(t: Provider, x: Exchange, w: World, e: Entropy)
    requires Laws(t.lib) && x.Proper(t) && w.hw == x.hw && w.now == x.issuedAt
    ensures CheckToken(t.lib, w.hw, w.now, x.Token(t), x.Keys(t)) == Ok(x.Owed(t.lib))
    ensures var s := ActivateToken(x.Token(t), x.Keys(t), e); Allowed(t, w, s) && Ideal(t, w, s)
  {
    hide *;
    OwedAtOnce(t, x);
    AnswerChecks(t, x, w.hw, w.now);
    PassingIsAllowed(t, w, x.Token(t), x.Keys(t), e, x.Owed(t.lib));
  }

  /** Activating a signed token that passes its check leads to a world in which the startup check is valid and meets
      both assumptions of `Safety`. */
  lemma HonestActivation(t: Provider, w: World, token: bytes, keys: ClientKeys, record: LicenseRecord, e: Entropy,
                         e2: Entropy)
    requires GcmCorrect(t.lib) && Inv(t, w) && NameOk(record.productId)
    requires VerifiesWhatWasSigned(t, w, token, keys.edPub)
    requires CheckToken(t.lib, w.hw, w.now, token, keys) == Ok(record)
    ensures var w' := Apply(t, w, ActivateToken(token, keys, e));
            && w'.vendors == w.vendors
            && OpensWhatWasSealed(t, w', record.productId, e2)
            && VerifiesWhatWasSigned(t, w', OpenedToken(t, w', record.productId, e2), keys.edPub)
            && VerifyAtStartup(t, w'.hw, w'.files, w'.now, record.productId, keys, e2).result == Ok(StartupOf(record))
  {
    assert t.Valid(w.files);
    hide CheckToken, OpensWhatWasSealed, VerifyAtStartup, OpenedToken, HoldsToken, VerifiesWhatWasSigned, Apply, Inv;
    hide Activate, SealLabel;
    ActivatedTokenWasSealed(t, w, token, keys, e, e2);
    ActivationChanges(t, w, token, keys, e);
    ActivateEffect(t, w.hw, w.files, w.now, token, keys, e);
    var w' := Apply(t, w, ActivateToken(token, keys, e));
    StartupChecksToken(t, w'.hw, w'.files, w'.now, record.productId, keys, e2, token);
    SameSigned(t, w, w', token, keys.edPub);
  }

  lemma OneMoreStep(t: Provider, w: World, steps: seq<Step>, s: Step)
    requires Legal(t, w, steps) && Allowed(t, Run(t, w, steps), s) && Ideal(t, Run(t, w, steps), s)
    ensures Legal(t, w, steps + [s]) && Run(t, w, steps + [s]) == Apply(t, Run(t, w, steps), s)
  {
    hide Allowed, Ideal, Apply;
    assert (steps + [s])[..|steps + [s]| - 1] == steps;
  }

  lemma FiveSteps(t: Provider, w: World, s1: Step, s2: Step, s3: Step, s4: Step, s5: Step)
    requires Allowed(t, w, s1) && Ideal(t, w, s1)
    requires var w1 := Apply(t, w, s1); Allowed(t, w1, s2) && Ideal(t, w1, s2)
    requires var w2 := Apply(t, Apply(t, w, s1), s2); Allowed(t, w2, s3) && Ideal(t, w2, s3)
    requires var w3 := Apply(t, Apply(t, Apply(t, w, s1), s2), s3); Allowed(t, w3, s4) && Ideal(t, w3, s4)
    requires var w4 := Apply(t, Apply(t, Apply(t, Apply(t, w, s1), s2), s3), s4); Allowed(t, w4, s5) && Ideal(t, w4, s5)
    ensures Legal(t, w, [s1, s2, s3, s4, s5])
    ensures Run(t, w, [s1, s2, s3, s4, s5]) == Apply(t, Apply(t, Apply(t, Apply(t, Apply(t, w, s1), s2), s3), s4), s5)
  {
    assert Run(t, w, []) == w && Legal(t, w, []);
    hide Apply, Allowed, Ideal, Run, Legal;
    OneMoreStep(t, w, [], s1);
    OneMoreStep(t, w, [] + [s1], s2);
    OneMoreStep(t, w, [] + [s1] + [s2], s3);
    OneMoreStep(t, w, [] + [s1] + [s2] + [s3], s4);
    OneMoreStep(t, w, [] + [s1] + [s2] + [s3] + [s4], s5);
    assert [] + [s1] + [s2] + [s3] + [s4] + [s5] == [s1, s2, s3, s4, s5];
  }

  /** Making keys and waiting are always allowed. */
  lemma AlwaysAllowed(t: Provider, w: World, s: Step)
    requires s.InitKeys? || s.Tick?
    ensures Allowed(t, w, s) && Ideal(t, w, s)
  {
    hide CheckToken, NameOk;
  }

  lemma HonestRunIsLegal(t: Provider, start: World, x: Exchange, e: Entropy)
    requires Laws(t.lib) && Inv(t, start) && x.Proper(t) && StartsIn(t, start, x)
    ensures Legal(t, start, HonestSteps(t, x, e))
    ensures Run(t, start, HonestSteps(t, x, e))
            == Apply(t, Issued(t, start, x), ActivateToken(x.Token(t), x.Keys(t), e))
  {
    assert GcmCorrect(t.lib) && x.hw == start.hw by {
      hide Inv, Exchange.Proper, KeysApart;
    }
    hide Laws, Inv, StartsIn, KeysApart, Exchange.Proper, Exchange.Token, Exchange.Keys, Run, Legal, Apply, Allowed;
    hide Ideal;
    hide CheckToken, VerifiesWhatWasSigned, Exchange.Vendor, AskStep, AnswerStep, Fingerprint.Compute, NameOk;
    OwedAtOnce(t, x);
    HonestRequest(t, start, x);
    HonestWait(t, start, x);
    HonestIssue(t, start, x);
    AnswerIsAllowed(t, x, Issued(t, start, x), e);
    AlwaysAllowed(t, start, InitKeys(x.ke));
    AlwaysAllowed(t, Requested(t, start, x), WaitStep(x));
    FiveSteps(t, start, InitKeys(x.ke), AskStep(t, x), WaitStep(x), AnswerStep(t, x),
              ActivateToken(x.Token(t), x.Keys(t), e));
  }

  /** An honest run is legal and ends in a world that meets every assumption of `Safety`, with a valid startup check:
      the assumptions exclude no intended use. */
  lemma HonestRunMeetsAssumptions(t: Provider, start: World, x: Exchange, e: Entropy, e2: Entropy)
    requires Laws(t.lib) && Initial(t, start) && x.Proper(t) && StartsIn(t, start, x)
    ensures Legal(t, start, HonestSteps(t, x, e))
    ensures var w := Run(t, start, HonestSteps(t, x, e));
            && VendorKey(w, x.Keys(t).edPub)
            && OpensWhatWasSealed(t, w, x.product, e2)
            && VerifiesWhatWasSigned(t, w, OpenedToken(t, w, x.product, e2), x.Keys(t).edPub)
            && VerifyAtStartup(t, w.hw, w.files, w.now, x.product, x.Keys(t), e2).result == Ok(StartupOf(x.Owed(t.lib)))
  {
    InitialInv(t, start);
    HonestRunIsLegal(t, start, x, e);
    HonestIssue(t, start, x);
    AnswerIsIssued(t, x);
    var w := Issued(t, start, x);
    AnswerIsAllowed(t, x, w, e);
    OwedAtOnce(t, x);
    hide Issued, Run, HonestSteps, Legal, VerifyAtStartup, OpensWhatWasSealed, VerifiesWhatWasSigned, Apply, Inv;
    hide CheckToken, Allowed, Ideal, Exchange.Token, Exchange.Keys, Exchange.Vendor, Exchange.Owed, Exchange.Request;
    hide Server.Issue, Exchange.Proper, OpenedToken, StartupOf;
    HonestActivation(t, w, x.Token(t), x.Keys(t), x.Owed(t.lib), e, e2);
  }
}
