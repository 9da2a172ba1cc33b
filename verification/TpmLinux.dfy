/** Blob framing and the 128-byte cap of the Linux TPM backend, common/src/tpm_linux.cpp. The TPM itself is a pair of
    functions: creating a sealed object and unsealing it. */
module TpmLinux {
  import opened Bytes

  const BUFFER_LEN := 4096
  const MAX_SENSITIVE := 128

  /** A structure marshalled into one of the fixed buffers. */
  type Marshalled = b: bytes | |b| <= BUFFER_LEN witness []

  datatype Tpm2 = Tpm2(create: bytes -> Option<(Marshalled, Marshalled)>, unseal: (bytes, bytes) -> Option<bytes>)

  /** Creating an object works, and unsealing it gives its sensitive data back. */
  ghost predicate IdealTpm(tpm: Tpm2) {
    forall d: bytes {:trigger tpm.create(d)} ::
      |d| <= MAX_SENSITIVE ==>
        tpm.create(d).Some? && tpm.unseal(tpm.create(d).value.0, tpm.create(d).value.1) == Some(d)
  }

  datatype TpmError = CreateFailed | BlobTooShort | PrivTooLong | PubTooLong | OutsideBlob | UnsealFailed

  // ---------------------------------------------------------------- framing

  function Frame(priv: bytes, pub: bytes): bytes
    requires |priv| <= BUFFER_LEN && |pub| <= BUFFER_LEN
  {
    Be32(|priv|) + priv + Be32(|pub|) + pub
  }

  /** Builds the blob from the two fixed buffers and how far each was filled. */
  method FrameBuffers(privBuf: array<byte>, privOff: nat, pubBuf: array<byte>, pubOff: nat) returns (blob: bytes)
    requires privBuf.Length == pubBuf.Length == 4096
    requires privOff <= 4096 && pubOff <= 4096
    ensures blob == Frame(privBuf[..privOff], pubBuf[..pubOff])
  {
    blob := Push32([], privOff);
    blob := blob + privBuf[..privOff];
    blob := Push32(blob, pubOff);
    blob := blob + pubBuf[..pubOff];
    assert [] + Be32(privOff) == Be32(privOff);
  }

  method Push32(blob: bytes, v: uint32) returns (out: bytes)
    ensures out == blob + Be32(v)
  {
    out := blob + [v / 0x100_0000];
    out := out + [v / 0x1_0000 % 256];
    out := out + [v / 0x100 % 256];
    out := out + [v % 256];
  }

  function Get32(blob: bytes, off: nat): uint32
    requires off + 4 <= |blob|
  {
    FromBe32(blob[off..off + 4])
  }

  /** What the checks conclude: a refusal, the two fields handed on, or a length field outside the blob. */
  datatype Unframed =
    | Rejected(error: TpmError)
    | Fields(privLen: uint32, pubLen: uint32)
    | LengthOutside

  /** The comparisons of the source, whose sums are 32-bit and wrap. */
  function Unframe(blob: bytes): Unframed {
    if |blob| < 8 then Rejected(BlobTooShort)
    else
      var privLen := Get32(blob, 0);
      if WrapUint32(4 + privLen + 4) > |blob| then Rejected(PrivTooLong)
      else
        var pubLenAt := WrapUint32(4 + privLen);
        if pubLenAt + 4 > |blob| then LengthOutside
        else
          var pubLen := Get32(blob, pubLenAt);
          if WrapUint32(4 + privLen + 4 + pubLen) > |blob| then Rejected(PubTooLong) else Fields(privLen, pubLen)
  }

  /** Both fields lie inside the blob, where the source takes them from. */
  predicate Inside(blob: bytes, f: Unframed)
    requires f.Fields?
  {
    4 + f.privLen <= |blob| && 8 + f.privLen + f.pubLen <= |blob|
  }

  function PrivField(blob: bytes, f: Unframed): bytes
    requires f.Fields? && Inside(blob, f)
  {
    blob[4..4 + f.privLen]
  }

  function PubField(blob: bytes, f: Unframed): bytes
    requires f.Fields? && Inside(blob, f)
  {
    blob[8 + f.privLen..8 + f.privLen + f.pubLen]
  }

  /** Unframing what was framed returns both parts exactly. */
  lemma FrameRoundTrip(priv: bytes, pub: bytes)
    requires |priv| <= 4096 && |pub| <= 4096
    ensures var blob, f := Frame(priv, pub), Unframe(Frame(priv, pub));
            && f == Fields(|priv|, |pub|) && Inside(blob, f)
            && PrivField(blob, f) == priv && PubField(blob, f) == pub
  {
    hide Be32, FromBe32;
    Be32RoundTrip(|priv|);
    Be32RoundTrip(|pub|);
    var blob := Frame(priv, pub);
    assert blob[0..4] == Be32(|priv|);
    assert blob[4..4 + |priv|] == priv;
    assert blob[4 + |priv|..4 + |priv| + 4] == Be32(|pub|);
    assert blob[8 + |priv|..8 + |priv| + |pub|] == pub;
  }

  /** An accepted blob has both fields inside exactly when the sum of the lengths does not wrap; and the length of the
      second part is looked up outside exactly when the first length is one of the four for which the sum up to the
      end of that field wraps while its start does not. */
  lemma AcceptanceIsSoundIff(blob: bytes)
    requires |blob| < 0x1_0000_0000
    ensures var f := Unframe(blob);
            f.Fields? ==> (Inside(blob, f) <==> 8 + f.privLen + f.pubLen < 0x1_0000_0000)
    ensures Unframe(blob) == LengthOutside <==> |blob| >= 8 && 0xFFFF_FFF8 <= Get32(blob, 0) < 0xFFFF_FFFC
  {
    hide FromBe32;
  }

  /** The wrapping case exists: eight bytes whose first length is 2^32 - 4 are accepted with fields outside. */
  lemma WrappedLengthIsAccepted()
    ensures var blob := [255, 255, 255, 252, 0, 0, 0, 0];
            Unframe(blob).Fields? && !Inside(blob, Unframe(blob))
  {
    var blob: bytes := [255, 255, 255, 252, 0, 0, 0, 0];
    assert blob[0..4] == [255, 255, 255, 252];
  }

  /** The other wrapping case exists: with a first length of 2^32 - 8 the second one is looked up outside. */
  lemma WrappedLengthIsLookedUpOutside()
    ensures Unframe([255, 255, 255, 248, 0, 0, 0, 0]) == LengthOutside
  {
    var blob: bytes := [255, 255, 255, 248, 0, 0, 0, 0];
    assert blob[0..4] == [255, 255, 255, 248];
  }

  // ---------------------------------------------------------------- seal and unseal

  /** The sensitive data is cut to the size of the TPM's buffer. */
  function Sensitive(secret: bytes): bytes {
    if |secret| <= MAX_SENSITIVE then secret else secret[..MAX_SENSITIVE]
  }

  /** The label is not used. */
  function Seal(tpm: Tpm2, secret: bytes, aLabel: bytes): Result<bytes, TpmError> {
    match tpm.create(Sensitive(secret))
    case None => Err(CreateFailed)
    case Some((priv, pub)) => Ok(Frame(priv, pub))
  }

  function Unseal(tpm: Tpm2, blob: bytes, aLabel: bytes): Result<bytes, TpmError> {
    match Unframe(blob)
    case Rejected(e) => Err(e)
    case LengthOutside => Err(OutsideBlob)
    case Fields(privLen, pubLen) =>
      var f := Fields(privLen, pubLen);
      if !Inside(blob, f) then Err(OutsideBlob)
      else
        match tpm.unseal(PrivField(blob, f), PubField(blob, f))
        case Some(d) => Ok(d)
        case None => Err(UnsealFailed)
  }

  /** With an ideal TPM a sealed secret comes back cut to 128 bytes, whatever the labels: 32-byte seeds and master
      keys survive, a longer token does not. */
  lemma SealRoundTrip(tpm: Tpm2, secret: bytes, sealLabel: bytes, unsealLabel: bytes)
    requires IdealTpm(tpm)
    ensures var blob := Seal(tpm, secret, sealLabel);
            && blob.Ok? && Unseal(tpm, blob.value, unsealLabel) == Ok(Sensitive(secret))
            && (Unseal(tpm, blob.value, unsealLabel) == Ok(secret) <==> |secret| <= MAX_SENSITIVE)
  {
    hide Frame, Unframe, Inside, PrivField, PubField;
    var (priv, pub) := tpm.create(Sensitive(secret)).value;
    FrameRoundTrip(priv, pub);
  }

  /** The blob in full. */
  lemma FrameIs(priv: bytes, pub: bytes)
    requires |priv| <= 4096 && |pub| <= 4096
    ensures Frame(priv, pub)
            == [|priv| / 0x100_0000 % 256, |priv| / 0x1_0000 % 256, |priv| / 0x100 % 256, |priv| % 256] + priv
               + [|pub| / 0x100_0000 % 256, |pub| / 0x1_0000 % 256, |pub| / 0x100 % 256, |pub| % 256] + pub
  {
  }

  /** The checks in full: which comparison refuses which blob, and which lengths are handed on. */
  lemma UnframeIs(blob: bytes)
    requires |blob| < 0x1_0000_0000
    ensures Unframe(blob) == Rejected(BlobTooShort) <==> |blob| < 8
    ensures |blob| >= 8 ==>
              var n := FromBe32(blob[0..4]);
              var u := Unframe(blob);
              && (u == Rejected(PrivTooLong) <==> (n + 8) % 0x1_0000_0000 > |blob|)
              && (u.Fields? ==> u.privLen == n && u.pubLen == FromBe32(blob[(n + 4) % 0x1_0000_0000..][..4]))
              && (n + 8 <= |blob| ==>
                    var m := FromBe32(blob[n + 4..n + 8]);
                    && (u == Rejected(PubTooLong) <==> (n + 8 + m) % 0x1_0000_0000 > |blob|)
                    && (u == Fields(n, m) <==> (n + 8 + m) % 0x1_0000_0000 <= |blob|))
  {
    hide FromBe32;
    if |blob| >= 8 {
      var n: int := Get32(blob, 0);
      var at := WrapUint32(4 + n);
      assert 4 + n + 4 == n + 8 && 4 + n == n + 4;
      if at + 4 <= |blob| { assert blob[at..][..4] == blob[at..at + 4]; }
    }
  }

  /** Sealing and unsealing in full: the TPM gets the first 128 bytes, and the two fields of the blob. */
  lemma SealIs(tpm: Tpm2, secret: bytes, aLabel: bytes)
    ensures var cut := if |secret| <= 128 then secret else secret[..128];
            Seal(tpm, secret, aLabel)
            == match tpm.create(cut)
               case None => Err(CreateFailed)
               case Some((priv, pub)) => Ok(Frame(priv, pub))
  {
  }

  lemma UnsealIs(tpm: Tpm2, blob: bytes, aLabel: bytes)
    ensures Unframe(blob).Rejected? ==> Unseal(tpm, blob, aLabel) == Err(Unframe(blob).error)
    ensures Unframe(blob).Fields? && 8 + Unframe(blob).privLen + Unframe(blob).pubLen <= |blob| ==>
              var n, m := Unframe(blob).privLen, Unframe(blob).pubLen;
              Unseal(tpm, blob, aLabel)
              == match tpm.unseal(blob[4..4 + n], blob[8 + n..8 + n + m])
                 case Some(d) => Ok(d)
                 case None => Err(UnsealFailed)
  {
    hide Unframe;
  }

  // ---------------------------------------------------------------- the provider interface

  /** What the keystore uses of a provider: data and label to blob, blob and label to data; both may fail. */
  datatype SealProvider = SealProvider(seal: (bytes, bytes) -> Option<bytes>, unseal: (bytes, bytes) -> Option<bytes>)

  function AsProvider(tpm: Tpm2): SealProvider {
    SealProvider(
      (d: bytes, l: bytes) => if Seal(tpm, d, l).Ok? then Some(Seal(tpm, d, l).value) else None,
      (b: bytes, l: bytes) => if Unseal(tpm, b, l).Ok? then Some(Unseal(tpm, b, l).value) else None)
  }
}
