/** The composite hardware fingerprint of common/src/fingerprint.cpp. The four collected strings are inputs. */
module Fingerprint {
  import opened Bytes
  import opened Foreign
  import Crypto

  /** What the machine reports; `ek` is absent without a hardware TPM. */
  datatype Components = Components(ek: Option<bytes>, uuid: bytes, cpu: bytes, disk: bytes) {
    /** The endorsement key hash that enters the fingerprint. */
    function Ek(useTpm: bool): Option<bytes> {
      if useTpm then ek else None
    }

    /** The four strings that are hashed; an absent key counts as the empty string. */
    function Parts(useTpm: bool): (parts: seq<bytes>)
      ensures |parts| == 4
    {
      [if Ek(useTpm).Some? then Ek(useTpm).value else [], uuid, cpu, disk]
    }
  }

  datatype FingerprintResult = FingerprintResult(hash: bytes, tpmBound: bool, assurance: bytes)

  const PREFIX := Ascii("LFPV1")

  // ---------------------------------------------------------------- the growing buffer

  /** The byte vector the encoding is appended to. */
  class ByteBuffer {
    var data: bytes

    constructor ()
      ensures data == []
    {
      data := [];
    }

    method Append(s: bytes)
      modifies this
      ensures data == old(data) + s
    {
      data := data + s;
    }

    /** `write_len32`: four pushes, high byte first. */
    method WriteLen32(len: uint32)
      modifies this
      ensures data == old(data) + Be32(len)
    {
      data := data + [len / 0x100_0000 % 256];
      data := data + [len / 0x1_0000 % 256];
      data := data + [len / 0x100 % 256];
      data := data + [len % 256];
      assert data == old(data) + Be32(len);
    }

    /** `append_component`: the length is cast to 32 bits first. */
    method AppendComponent(s: bytes)
      modifies this
      ensures data == old(data) + Component(s)
    {
      WriteLen32(WrapUint32(|s|));
      Append(s);
      ConcatAssoc(old(data), Be32(WrapUint32(|s|)), s);
    }
  }

  // ---------------------------------------------------------------- the encoding

  function Component(s: bytes): bytes {
    Be32(WrapUint32(|s|)) + s
  }

  function ComponentList(parts: seq<bytes>): bytes {
    if parts == [] then [] else Component(parts[0]) + ComponentList(parts[1..])
  }

  function CanonicalInput(m: Components, useTpm: bool): bytes {
    PREFIX + ComponentList(m.Parts(useTpm))
  }

  /** A parser for one length-prefixed component: the component and what follows it. */
  function TakeComponent(buf: bytes): Option<(bytes, bytes)> {
    if |buf| < 4 then None
    else
      var n := FromBe32(buf[..4]);
      if |buf| < 4 + n then None else Some((buf[4..4 + n], buf[4 + n..]))
  }

  function ParseComponents(buf: bytes, count: nat): Option<seq<bytes>> {
    if count == 0 then (if buf == [] then Some([]) else None)
    else
      match TakeComponent(buf)
      case None => None
      case Some((first, rest)) =>
        match ParseComponents(rest, count - 1)
        case None => None
        case Some(others) => Some([first] + others)
  }

  /** A parser for the whole hash input. */
  function ParseInput(buf: bytes): Option<seq<bytes>> {
    if |buf| < |PREFIX| || buf[..|PREFIX|] != PREFIX then None else ParseComponents(buf[|PREFIX|..], 4)
  }

  predicate FitsLength(s: bytes) {
    |s| < 0x1_0000_0000
  }

  lemma TakeBack(s: bytes, rest: bytes)
    ensures FitsLength(s) ==> TakeComponent(Component(s) + rest) == Some((s, rest))
    ensures !FitsLength(s) ==>
              TakeComponent(Component(s) + rest).Some? && TakeComponent(Component(s) + rest).value.0 != s
  {
    var n := WrapUint32(|s|);
    Be32RoundTrip(n);
    hide Be32, FromBe32;
    var buf := Component(s) + rest;
    assert buf[..4] == Be32(n);
    if FitsLength(s) {
      assert buf[4..4 + n] == s && buf[4 + n..] == rest;
    }
  }

  lemma {:induction false} ComponentsDecode(parts: seq<bytes>)
    ensures ParseComponents(ComponentList(parts), |parts|) == Some(parts) <==> forall p | p in parts :: FitsLength(p)
  {
    if parts != [] {
      ComponentsDecode(parts[1..]);
      TakeBack(parts[0], ComponentList(parts[1..]));
      assert parts == [parts[0]] + parts[1..];
      assert forall others: seq<bytes> :: ([parts[0]] + others)[1..] == others;
      var parsed := ParseComponents(ComponentList(parts), |parts|);
      if parsed.Some? && FitsLength(parts[0]) {
        var others := ParseComponents(ComponentList(parts[1..]), |parts| - 1).value;
        assert parsed.value[1..] == others;
      }
    }
  }

  /** The key that counts: none without a TPM or where it is not asked for. */
  function KeyText(m: Components, useTpm: bool): bytes {
    if useTpm then m.ek.GetOr([]) else []
  }

  lemma PartsAre(m: Components, useTpm: bool)
    ensures m.Parts(useTpm) == [KeyText(m, useTpm), m.uuid, m.cpu, m.disk]
  {
  }

  /** The hash input in full: a prefix, then key, UUID, processor and disk, each after its length in 32 bits. */
  lemma InputIs(m: Components, useTpm: bool)
    ensures var ek := if useTpm && m.ek.Some? then m.ek.value else [];
            CanonicalInput(m, useTpm)
            == Ascii("LFPV1") + (Be32(|ek| % 0x1_0000_0000) + ek) + (Be32(|m.uuid| % 0x1_0000_0000) + m.uuid)
               + (Be32(|m.cpu| % 0x1_0000_0000) + m.cpu) + (Be32(|m.disk| % 0x1_0000_0000) + m.disk)
  {
    hide Be32, Ascii, ComponentList;
    PartsAre(m, useTpm);
    FourComponents(KeyText(m, useTpm), m.uuid, m.cpu, m.disk);
    assert [] + PREFIX == PREFIX;
  }

  /** The hash input is uniquely decodable: the parser returns key, UUID, processor and disk exactly when each of them
      is shorter than 2^32 bytes. */
  lemma InputDecodes(m: Components, useTpm: bool)
    ensures var ek := if useTpm && m.ek.Some? then m.ek.value else [];
            ParseInput(CanonicalInput(m, useTpm)) == Some([ek, m.uuid, m.cpu, m.disk])
            <==> && |ek| < 0x1_0000_0000 && |m.uuid| < 0x1_0000_0000
                 && |m.cpu| < 0x1_0000_0000 && |m.disk| < 0x1_0000_0000
  {
    var buf, parts := CanonicalInput(m, useTpm), m.Parts(useTpm);
    assert buf[..|PREFIX|] == PREFIX && buf[|PREFIX|..] == ComponentList(parts);
    ComponentsDecode(parts);
    PartsAre(m, useTpm);
    AllFourFit(KeyText(m, useTpm), m.uuid, m.cpu, m.disk);
    hide ParseComponents, ComponentList;
  }

  lemma AllFourFit(a: bytes, b: bytes, c: bytes, d: bytes)
    ensures (forall p | p in [a, b, c, d] :: FitsLength(p))
            <==> FitsLength(a) && FitsLength(b) && FitsLength(c) && FitsLength(d)
  {
    var l := [a, b, c, d];
    assert l[0] in l && l[1] in l && l[2] in l && l[3] in l;
  }

  // ---------------------------------------------------------------- compute and verify

  method ToHex(bs: bytes) returns (h: bytes)
    ensures h == Hex(bs)
  {
    h := [];
    for i := 0 to |bs|
      invariant h + Hex(bs[i..]) == Hex(bs)
    {
      ConcatAssoc(h, HexByte(bs[i]), Hex(bs[i + 1..]));
      assert bs[i..][1..] == bs[i + 1..];
      h := h + HexByte(bs[i]);
    }
  }

  function Compute(lib: Library, m: Components, useTpm: bool): FingerprintResult {
    var bound := m.Ek(useTpm).Some?;
    FingerprintResult(Hex(lib.sha256(CanonicalInput(m, useTpm))), bound,
                      Ascii(if bound then "hardware" else "software"))
  }

  /** A fingerprint is the printed hash of that input; it is bound to the TPM, and calls itself so, exactly when a key
      was asked for and there. */
  lemma AssuranceOf(lib: Library, m: Components, useTpm: bool)
    ensures var r := Compute(lib, m, useTpm);
            && r.hash == Hex(lib.sha256(CanonicalInput(m, useTpm)))
            && (r.tpmBound <==> useTpm && m.ek.Some?)
            && r.assurance == Ascii(if useTpm && m.ek.Some? then "hardware" else "software")
  {
  }

  predicate Verify(lib: Library, m: Components, expected: bytes, useTpm: bool := true) {
    Compute(lib, m, useTpm).hash == expected
  }

  method ComputeFingerprint(lib: Library, m: Components, useTpm: bool) returns (r: FingerprintResult)
    ensures r == Compute(lib, m, useTpm)
  {
    var ek := if useTpm then m.ek else None;
    var buf := new ByteBuffer();
    buf.Append(PREFIX);
    var ekStr := if ek.Some? then ek.value else [];
    buf.AppendComponent(ekStr);
    buf.AppendComponent(m.uuid);
    buf.AppendComponent(m.cpu);
    buf.AppendComponent(m.disk);
    FourComponents(ekStr, m.uuid, m.cpu, m.disk);
    var hash := ToHex(lib.sha256(buf.data));
    return FingerprintResult(hash, ek.Some?, Ascii(if ek.Some? then "hardware" else "software"));
  }

  lemma FourComponents(a: bytes, b: bytes, c: bytes, d: bytes)
    ensures [] + PREFIX + Component(a) + Component(b) + Component(c) + Component(d)
            == PREFIX + ComponentList([a, b, c, d])
  {
    assert [a, b, c, d][1..] == [b, c, d];
    assert [b, c, d][1..] == [c, d];
    assert [c, d][1..] == [d];
    assert ComponentList([d]) == Component(d) + [];
    var cc, dd := Component(c), Component(d);
    assert ComponentList([c, d]) == cc + dd;
    ConcatAssoc(Component(b), cc, dd);
    ConcatAssoc(Component(a), Component(b) + cc, dd);
    ConcatAssoc(Component(a), Component(b), cc);
    ConcatAssoc(PREFIX, Component(a) + Component(b) + cc, dd);
    ConcatAssoc(PREFIX, Component(a) + Component(b), cc);
    ConcatAssoc(PREFIX, Component(a), Component(b));
    assert [] + PREFIX == PREFIX;
  }

  method VerifyFingerprint(lib: Library, m: Components, expected: bytes, useTpm: bool := true) returns (same: bool)
    ensures same <==> Verify(lib, m, expected, useTpm)
  {
    var current := ComputeFingerprint(lib, m, useTpm);
    same := Crypto.CtEqual(current.hash, expected);
  }

  /** SHA-256 does not collide on the two inputs at hand. */
  ghost predicate NoCollision(lib: Library, x: bytes, y: bytes) {
    lib.sha256(x) == lib.sha256(y) ==> x == y
  }

  /** The four strings of a machine can be length-prefixed. */
  predicate Fits(m: Components) {
    |m.ek.GetOr([])| < 0x1_0000_0000 && |m.uuid| < 0x1_0000_0000 && |m.cpu| < 0x1_0000_0000 && |m.disk| < 0x1_0000_0000
  }

  /** A stored hash verifies on a machine exactly when that machine has the UUID, processor and disk of the one behind
      the hash, and the same endorsement key, where a key that is absent or not looked at counts as the empty one. */
  lemma VerifyIffSameParts(lib: Library, here: Components, u: bool, there: Components, v: bool)
    requires Fits(here) && Fits(there)
    requires NoCollision(lib, CanonicalInput(here, u), CanonicalInput(there, v))
    ensures Verify(lib, here, Compute(lib, there, v).hash, u)
            <==> && here.uuid == there.uuid && here.cpu == there.cpu && here.disk == there.disk
                 && (if u then here.ek.GetOr([]) else []) == (if v then there.ek.GetOr([]) else [])
  {
    InputDecodes(here, u);
    InputDecodes(there, v);
    if here.uuid == there.uuid && here.cpu == there.cpu && here.disk == there.disk
       && KeyText(here, u) == KeyText(there, v) {
      SameInput(here, u, there, v);
    }
    if Verify(lib, here, Compute(lib, there, v).hash, u) {
      HexInjective(lib.sha256(CanonicalInput(here, u)), lib.sha256(CanonicalInput(there, v)));
    }
    hide CanonicalInput, ParseInput, Hex;
  }

  lemma SameInput(here: Components, u: bool, there: Components, v: bool)
    requires here.uuid == there.uuid && here.cpu == there.cpu && here.disk == there.disk
    requires KeyText(here, u) == KeyText(there, v)
    ensures CanonicalInput(here, u) == CanonicalInput(there, v)
  {
    InputIs(here, u);
    InputIs(there, v);
    hide CanonicalInput;
  }

  /** A fingerprint is 64 lower-case hexadecimal digits, so it is never empty and always text. */
  lemma HashShape(lib: Library, m: Components, useTpm: bool)
    ensures var h := Compute(lib, m, useTpm).hash; |h| == 64 && forall c | c in h :: HexValue(c).Some? && c < 128
  {
    HexIsLowercase(lib.sha256(CanonicalInput(m, useTpm)));
  }
}
