/** `base64_encode` and `base64_decode` of common/src/crypto.cpp: the encoder of RFC 4648 section 4 and a decoder
    that drops spaces and line ends and reads '=' anywhere as six zero bits. */
module Base64 {
  import opened Bytes

  const UPPER := "ABCDEFGHIJKLMNOPQRSTUVWXYZ"
  const LOWER := "abcdefghijklmnopqrstuvwxyz"
  const REST := "0123456789+/"
  const ALPHABET := UPPER + LOWER + REST

  const PAD: byte := 61

  datatype DecodeError = InvalidLength | InvalidCharacter

  type Decoded = Result<bytes, DecodeError>

  // ---------------------------------------------------------------- alphabet

  function Char64(v: int): byte
    requires 0 <= v < 64
  {
    if v < 26 then 65 + v
    else if v < 52 then 71 + v
    else if v < 62 then v - 4
    else if v == 62 then 43 else 47
  }

  /** The decode table: -1 outside the alphabet, and 0 for '='. */
  function Value64(c: byte): int {
    if 65 <= c <= 90 then c - 65
    else if 97 <= c <= 122 then c - 71
    else if 48 <= c <= 57 then c + 4
    else if c == 43 then 62
    else if c == 47 then 63
    else if c == PAD then 0 else -1
  }

  /** `Char64` and `Value64` are inverse to each other off the padding sign. */
  lemma AlphabetInverse(v: int, c: byte)
    requires 0 <= v < 64
    ensures Char64(v) != PAD && Value64(Char64(v)) == v
    ensures Value64(c) >= 0 && c != PAD ==> Char64(Value64(c)) == c
  {
  }

  /** `Char64` is indexing into the literal alphabet. */
  lemma AlphabetIndex(v: int)
    requires 0 <= v < 64
    ensures ALPHABET[v] as int == Char64(v)
  {
    if v < 26 {
      assert ALPHABET[v] == UPPER[v];
    } else if v < 52 {
      assert ALPHABET[v] == LOWER[v - 26];
    } else {
      assert ALPHABET[v] == REST[v - 52];
    }
  }

  /** The alphabet of RFC 4648 section 4, letter for letter. */
  lemma AlphabetIs(v: int)
    requires 0 <= v < 64
    ensures Char64(v) == ("ABCDEFGHIJKLMNOPQRSTUVWXYZ" + "abcdefghijklmnopqrstuvwxyz" + "0123456789+/")[v] as int
  {
    AlphabetIndex(v);
  }

  /** The table's entries: places in that alphabet, 0 for '=', and -1 for every other character. */
  lemma TableIs(c: byte)
    ensures c == 61 ==> Value64(c) == 0
    ensures c != 61 && Value64(c) >= 0 ==>
              Value64(c) < 64 && Char64(Value64(c)) == c
    ensures forall v | 0 <= v < 64 && Char64(v) == c :: Value64(c) == v
  {
    AlphabetInverse(0, c);
    forall v | 0 <= v < 64 && Char64(v) == c ensures Value64(c) == v { AlphabetInverse(v, c); }
  }

  /** Builds the 256-entry decode table from the alphabet. */
  method DecodeTable() returns (t: array<int>)
    ensures fresh(t) && t.Length == 256
    ensures forall c: byte :: t[c] == Value64(c)
  {
    t := new int[256](_ => -1);
    for i := 0 to 64
      invariant forall c: byte :: t[c] == if c != PAD && Value64(c) < i then Value64(c) else -1
    {
      forall c: byte ensures i == Value64(c) && c != PAD <==> c == Char64(i) {
        AlphabetInverse(i, c);
      }
      AlphabetIndex(i);
      t[ALPHABET[i] as int] := i;
    }
    t[PAD] := 0;
  }

  // ---------------------------------------------------------------- 24-bit words

  /** Three bytes as one word; the fields do not overlap, so the bitwise or is a sum. */
  function Word3(x: byte, y: byte, z: byte): (v: int)
    ensures 0 <= v < 0x100_0000
  {
    x as int * 0x1_0000 + y as int * 0x100 + z as int
  }

  /** Four sextets as one word. */
  function Word4(a: int, b: int, c: int, d: int): int {
    a * 0x4_0000 + b * 0x1000 + c * 0x40 + d
  }

  /** Bytes 2, 1 and 0 of a word. */
  function Byte2(v: int): byte { v / 0x1_0000 % 256 }
  function Byte1(v: int): byte { v / 0x100 % 256 }
  function Byte0(v: int): byte { v % 256 }

  /** Sextets 3, 2, 1 and 0 of a word. */
  function Sextet3(v: int): (s: int) ensures 0 <= s < 64 { v / 0x4_0000 % 64 }
  function Sextet2(v: int): (s: int) ensures 0 <= s < 64 { v / 0x1000 % 64 }
  function Sextet1(v: int): (s: int) ensures 0 <= s < 64 { v / 0x40 % 64 }
  function Sextet0(v: int): (s: int) ensures 0 <= s < 64 { v % 64 }

  lemma BytesOfWord3(x: byte, y: byte, z: byte)
    ensures var v := Word3(x, y, z); Byte2(v) == x && Byte1(v) == y && Byte0(v) == z
  {
    var v := Word3(x, y, z);
    assert v / 0x100 == x as int * 0x100 + y as int;
    assert v / 0x1_0000 == x as int;
  }

  lemma Word3OfBytes(v: int)
    requires 0 <= v < 0x100_0000
    ensures Word3(Byte2(v), Byte1(v), Byte0(v)) == v
  {
    var w := v / 0x100;
    assert v / 0x1_0000 == w / 0x100;
  }

  lemma SextetsOfWord4(a: int, b: int, c: int, d: int)
    requires 0 <= a < 64 && 0 <= b < 64 && 0 <= c < 64 && 0 <= d < 64
    ensures var v := Word4(a, b, c, d);
            && 0 <= v < 0x100_0000
            && Sextet3(v) == a && Sextet2(v) == b && Sextet1(v) == c && Sextet0(v) == d
  {
    var v := Word4(a, b, c, d);
    assert v / 0x40 == a * 0x1000 + b * 0x40 + c;
    assert v / 0x1000 == a * 0x40 + b;
    assert v / 0x4_0000 == a;
  }

  lemma Word4OfSextets(v: int)
    requires 0 <= v < 0x100_0000
    ensures Word4(Sextet3(v), Sextet2(v), Sextet1(v), Sextet0(v)) == v
  {
    var v1 := v / 0x40;
    var v2 := v1 / 0x40;
    assert v / 0x1000 == v2;
    assert v / 0x4_0000 == v2 / 0x40;
  }

  /** A clear low sextet with two clear bits above it is a clear low byte. */
  lemma ClearLowByte(a: int, b: int, c: int)
    requires c % 4 == 0
    ensures Byte0(Word4(a, b, c, 0)) == 0
  {
    var k := c / 4;
    assert Word4(a, b, c, 0) == 0x100 * (a * 0x400 + b * 0x10 + k);
  }

  /** Two clear low sextets with four clear bits above them are two clear low bytes. */
  lemma ClearLowBytes(a: int, b: int)
    requires b % 16 == 0
    ensures Byte1(Word4(a, b, 0, 0)) == 0
  {
    var k := b / 16;
    assert Word4(a, b, 0, 0) == 0x1_0000 * (a * 4 + k);
  }

  /** A clear low byte leaves the low sextet clear, and the next one a multiple of four. */
  lemma ClearSextet(x: byte, y: byte)
    ensures Sextet0(Word3(x, y, 0)) == 0 && Sextet1(Word3(x, y, 0)) % 4 == 0
  {
    var w := x as int * 0x100 + y as int;
    assert Word3(x, y, 0) == 0x40 * (4 * w);
    assert Word3(x, y, 0) / 0x40 == 4 * w;
  }

  /** Two clear low bytes leave two low sextets clear, and the next one a multiple of sixteen. */
  lemma ClearSextets(x: byte)
    ensures Sextet1(Word3(x, 0, 0)) == 0 && Sextet2(Word3(x, 0, 0)) % 16 == 0
  {
    assert Word3(x, 0, 0) / 0x40 == 0x40 * (0x10 * x as int);
    assert Word3(x, 0, 0) / 0x1000 == 0x10 * x as int;
  }

  // ---------------------------------------------------------------- encoding

  /** The four characters for three bytes. */
  function EncodeQuad(x: byte, y: byte, z: byte): (q: bytes)
    ensures |q| == 4
  {
    var v := Word3(x, y, z);
    [Char64(Sextet3(v)), Char64(Sextet2(v)), Char64(Sextet1(v)), Char64(Sextet0(v))]
  }

  function Encode(data: bytes): bytes {
    if |data| >= 3 then EncodeQuad(data[0], data[1], data[2]) + Encode(data[3..])
    else if |data| == 1 then EncodeQuad(data[0], 0, 0)[..2] + [PAD, PAD]
    else if |data| == 2 then EncodeQuad(data[0], data[1], 0)[..3] + [PAD]
    else []
  }

  method Base64Encode(data: bytes) returns (out: bytes)
    ensures out == Encode(data)
  {
    hide Word3, Sextet3, Sextet2, Sextet1, Sextet0, Char64;
    if |data| == 0 { return []; }
    out := [];
    var p, rem := 0, |data|;
    while rem >= 3
      invariant 0 <= p && 0 <= rem && p + rem == |data|
      invariant out + Encode(data[p..]) == Encode(data)
    {
      ghost var before := out;
      var v := Word3(data[p], data[p + 1], data[p + 2]);
      out := out + [Char64(Sextet3(v)), Char64(Sextet2(v)), Char64(Sextet1(v)), Char64(Sextet0(v))];
      AppendQuad(before, out, data[p..]);
      assert data[p..][3..] == data[p + 3..];
      p, rem := p + 3, rem - 3;
    }
    assert |data[p..]| == rem;
    if rem == 1 {
      var v := Word3(data[p], 0, 0);
      assert Encode(data[p..]) == [Char64(Sextet3(v)), Char64(Sextet2(v)), PAD, PAD];
      out := out + [Char64(Sextet3(v)), Char64(Sextet2(v)), PAD, PAD];
    } else if rem == 2 {
      var v := Word3(data[p], data[p + 1], 0);
      assert Encode(data[p..]) == [Char64(Sextet3(v)), Char64(Sextet2(v)), Char64(Sextet1(v)), PAD];
      out := out + [Char64(Sextet3(v)), Char64(Sextet2(v)), Char64(Sextet1(v)), PAD];
    }
  }

  lemma AppendQuad(before: bytes, after: bytes, rest: bytes)
    requires |rest| >= 3 && after == before + EncodeQuad(rest[0], rest[1], rest[2])
    ensures before + Encode(rest) == after + Encode(rest[3..])
  {
    hide EncodeQuad;
  }

  // ---------------------------------------------------------------- decoding

  predicate IsBlank(c: byte) {
    c == 10 || c == 13 || c == 32
  }

  function Strip(s: bytes): bytes {
    if s == [] then []
    else if IsBlank(s[0]) then Strip(s[1..])
    else [s[0]] + Strip(s[1..])
  }

  /** Decodes one group of four: the second and third byte appear only when the third and fourth character is
      not '='. */
  function DecodeQuad(q: bytes): Decoded
    requires |q| == 4
  {
    var a, b, c, d := Value64(q[0]), Value64(q[1]), Value64(q[2]), Value64(q[3]);
    if a < 0 || b < 0 || c < 0 || d < 0 then Err(InvalidCharacter)
    else
      var v := Word4(a, b, c, d);
      Ok([Byte2(v)] + (if q[2] != PAD then [Byte1(v)] else [])
                              + (if q[3] != PAD then [Byte0(v)] else []))
  }

  function Prepend(head: bytes, tail: Decoded): Decoded {
    match tail
    case Ok(t) => Ok(head + t)
    case Err(e) => Err(e)
  }

  /** Decodes group after group; called on whole groups only. */
  function DecodeQuads(t: bytes): Decoded {
    if |t| < 4 then Ok([])
    else
      match DecodeQuad(t[..4])
      case Ok(head) => Prepend(head, DecodeQuads(t[4..]))
      case Err(e) => Err(e)
  }

  function Decode(s: bytes): Decoded {
    var t := Strip(s);
    if |t| % 4 != 0 then Err(InvalidLength) else DecodeQuads(t)
  }

  method StripBlanks(b64: bytes) returns (stripped: bytes)
    ensures stripped == Strip(b64)
  {
    stripped := [];
    assert b64[0..] == b64;
    for k := 0 to |b64|
      invariant stripped + Strip(b64[k..]) == Strip(b64)
    {
      StripStep(stripped, b64[k..]);
      assert b64[k..][1..] == b64[k + 1..];
      if b64[k] != 10 && b64[k] != 13 && b64[k] != 32 { stripped := stripped + [b64[k]]; }
    }
  }

  /** One round of the decoding loop. */
  method DecodeGroup(dec: array<int>, q: bytes) returns (r: Decoded)
    requires |q| == 4 && dec.Length == 256 && forall c: byte :: dec[c] == Value64(c)
    ensures r == DecodeQuad(q)
  {
    hide Word4, Byte2, Byte1, Byte0, Value64;
    var a, b, c, d := dec[q[0]], dec[q[1]], dec[q[2]], dec[q[3]];
    if a < 0 || b < 0 || c < 0 || d < 0 { return Err(InvalidCharacter); }
    var v := Word4(a, b, c, d);
    var out := [Byte2(v)];
    if q[2] != PAD { out := out + [Byte1(v)]; }
    if q[3] != PAD { out := out + [Byte0(v)]; }
    assert out == DecodeQuad(q).value;
    return Ok(out);
  }

  method Base64Decode(b64: bytes) returns (r: Decoded)
    ensures r == Decode(b64)
  {
    if |b64| == 0 { return Ok([]); }
    var dec := DecodeTable();
    var stripped := StripBlanks(b64);
    if |stripped| % 4 != 0 { return Err(InvalidLength); }
    hide Strip, DecodeQuads, DecodeQuad, Value64;
    var out: bytes := [];
    var i := 0;
    PrependNothing(DecodeQuads(stripped));
    ghost var groups := |stripped| / 4;
    while i < |stripped|
      invariant 0 <= i && 0 <= groups && i + 4 * groups == |stripped|
      invariant DecodeQuads(stripped) == Prepend(out, DecodeQuads(stripped[i..]))
      invariant forall c: byte :: dec[c] == Value64(c)
    {
      DecodeStep(stripped, i, out);
      var group := DecodeGroup(dec, stripped[i..i + 4]);
      if group.Err? { return group; }
      out := out + group.value;
      i, groups := i + 4, groups - 1;
    }
    DecodedAll(out, stripped[i..]);
    return Ok(out);
  }

  lemma StripStep(done: bytes, rest: bytes)
    requires rest != []
    ensures done + Strip(rest) == (if IsBlank(rest[0]) then done else done + [rest[0]]) + Strip(rest[1..])
  {
    ConcatAssoc(done, [rest[0]], Strip(rest[1..]));
  }

  lemma DecodeStep(t: bytes, i: nat, out: bytes)
    requires i + 4 <= |t|
    ensures match DecodeQuad(t[i..i + 4])
            case Ok(h) => Prepend(out, DecodeQuads(t[i..])) == Prepend(out + h, DecodeQuads(t[i + 4..]))
            case Err(e) => Prepend(out, DecodeQuads(t[i..])) == Err(e)
  {
    hide DecodeQuad;
    assert t[i..][..4] == t[i..i + 4] && t[i..][4..] == t[i + 4..];
    if DecodeQuad(t[i..i + 4]).Ok? { PrependTwice(out, DecodeQuad(t[i..i + 4]).value, DecodeQuads(t[i + 4..])); }
  }

  lemma DecodedAll(out: bytes, t: bytes)
    requires t == []
    ensures Prepend(out, DecodeQuads(t)) == Ok(out)
  {
    assert out + [] == out;
  }

  lemma PrependTwice(a: bytes, b: bytes, r: Decoded)
    ensures Prepend(a, Prepend(b, r)) == Prepend(a + b, r)
  {
    if r.Ok? { assert a + (b + r.value) == a + b + r.value; }
  }

  lemma PrependNothing(r: Decoded)
    ensures Prepend([], r) == r
  {
    if r.Ok? { assert [] + r.value == r.value; }
  }

  // ---------------------------------------------------------------- layout

  lemma {:induction false} StripConcat(a: bytes, b: bytes)
    ensures Strip(a + b) == Strip(a) + Strip(b)
  {
    hide IsBlank;
    if a == [] {
      assert a + b == b;
    } else {
      StripConcat(a[1..], b);
      assert (a + b)[0] == a[0] && (a + b)[1..] == a[1..] + b;
      ConcatAssoc([a[0]], Strip(a[1..]), Strip(b));
    }
  }

  lemma {:induction false} StripClean(s: bytes)
    ensures forall c | c in Strip(s) :: !IsBlank(c) && c in s
    ensures (forall c | c in s :: !IsBlank(c)) ==> Strip(s) == s
    ensures forall c | c in s && !IsBlank(c) :: c in Strip(s)
  {
    if s != [] { StripClean(s[1..]); }
  }

  /** Of single characters exactly line feed, carriage return and space are dropped; with `StripConcat` this says what
      stripping does to any text. */
  lemma StripOne(c: byte)
    ensures Strip([c]) == if c == 10 || c == 13 || c == 32 then [] else [c]
  {
    assert [c][1..] == [];
  }

  lemma {:induction false} StripBlanksOnly(s: bytes)
    requires forall c | c in s :: IsBlank(c)
    ensures Strip(s) == []
  {
    if s != [] { StripBlanksOnly(s[1..]); }
  }

  lemma StripTwice(s: bytes)
    ensures Strip(Strip(s)) == Strip(s)
  {
    StripClean(s);
    StripClean(Strip(s));
  }

  /** Decoding looks at nothing but the stripped text. */
  lemma DecodeIgnoresLayout(s: bytes, t: bytes)
    requires Strip(s) == Strip(t)
    ensures Decode(s) == Decode(t)
  {
  }

  // ---------------------------------------------------------------- acceptance and shape

  /** The decoder accepts exactly the texts whose stripped form is a whole number of groups over the alphabet and
      '=', and reports a wrong length before a wrong character; what it accepts has the decoded length. */
  lemma DecodeAccepts(s: bytes)
    ensures Decode(s).Ok? <==> |Strip(s)| % 4 == 0 && forall c | c in Strip(s) :: Value64(c) >= 0
    ensures Decode(s) == Err(InvalidLength) <==> |Strip(s)| % 4 != 0
    ensures Decode(s).Ok? ==> |Decode(s).value| == DecodedLength(Strip(s))
  {
    hide Strip, DecodeQuads, DecodedLength, Value64;
    if |Strip(s)| % 4 == 0 {
      QuadsAccept(Strip(s));
      if Decode(s).Ok? { DecodedShape(Strip(s)); }
    }
  }

  lemma {:induction false} QuadsAccept(t: bytes)
    requires |t| % 4 == 0
    ensures DecodeQuads(t).Ok? <==> forall c | c in t :: Value64(c) >= 0
    ensures DecodeQuads(t).Err? ==> DecodeQuads(t).error == InvalidCharacter
  {
    if t != [] {
      QuadsAccept(t[4..]);
      assert t == t[..4] + t[4..];
      assert forall c :: c in t <==> c in t[..4] || c in t[4..];
      assert t[..4] == [t[0], t[1], t[2], t[3]];
    }
  }

  /** One byte a group, and one more for each of its last two characters that is not '='. */
  function DecodedLength(t: bytes): nat {
    if |t| < 4 then 0
    else 1 + (if t[2] != PAD then 1 else 0) + (if t[3] != PAD then 1 else 0) + DecodedLength(t[4..])
  }

  lemma {:induction false} DecodedShape(t: bytes)
    requires |t| % 4 == 0 && DecodeQuads(t).Ok?
    ensures |DecodeQuads(t).value| == DecodedLength(t)
  {
    hide Byte2, Byte1, Byte0, Word4, Value64;
    if t != [] { DecodedShape(t[4..]); }
  }

  lemma {:induction false} QuadsConcat(a: bytes, b: bytes, groups: nat)
    requires |a| == 4 * groups
    ensures DecodeQuads(a).Ok? ==> DecodeQuads(a + b) == Prepend(DecodeQuads(a).value, DecodeQuads(b))
    ensures DecodeQuads(a).Err? ==> DecodeQuads(a + b) == DecodeQuads(a)
  {
    hide DecodeQuad;
    if groups == 0 {
      assert a + b == b;
      PrependNothing(DecodeQuads(b));
    } else {
      QuadsConcat(a[4..], b, groups - 1);
      assert (a + b)[..4] == a[..4] && (a + b)[4..] == a[4..] + b;
      if DecodeQuads(a).Ok? {
        PrependTwice(DecodeQuad(a[..4]).value, DecodeQuads(a[4..]).value, DecodeQuads(b));
      }
    }
  }

  /** Decoding distributes over concatenation at group boundaries, wherever the blanks are. A wrong length is reported
      before any character error, otherwise the error of the first part before that of the second. */
  lemma DecodeConcat(a: bytes, b: bytes)
    requires |Strip(a)| % 4 == 0
    ensures Decode(a + b) == if |Strip(b)| % 4 != 0 then Err(InvalidLength)
                             else if Decode(a).Err? then Decode(a)
                             else Prepend(Decode(a).value, Decode(b))
  {
    hide Strip, DecodeQuads, Prepend;
    StripConcat(a, b);
    var s, t := Strip(a), Strip(b);
    MultipleOfFour(|s|, |t|);
    QuadsConcat(s, t, |s| / 4);
  }

  lemma MultipleOfFour(m: nat, n: nat)
    requires m % 4 == 0
    ensures m == 4 * (m / 4) && (m + n) % 4 == n % 4
  {
  }

  /** Encoding distributes over concatenation at three-byte boundaries. */
  lemma {:induction false} EncodeConcat(a: bytes, b: bytes)
    requires |a| % 3 == 0
    ensures Encode(a + b) == Encode(a) + Encode(b)
  {
    hide EncodeQuad;
    if a == [] {
      assert a + b == b;
    } else {
      EncodeConcat(a[3..], b);
      assert (a + b)[3..] == a[3..] + b;
    }
  }

  // ---------------------------------------------------------------- single groups, bit by bit

  /** The four characters that one to three bytes become, by their places in the alphabet. */
  lemma EncodeGroupIs(x: byte, y: byte, z: byte)
    ensures Encode([x]) == [Char64(x / 4), Char64(x % 4 * 16), 61, 61]
    ensures Encode([x, y]) == [Char64(x / 4), Char64(x % 4 * 16 + y / 16), Char64(y % 16 * 4), 61]
    ensures Encode([x, y, z])
            == [Char64(x / 4), Char64(x % 4 * 16 + y / 16), Char64(y % 16 * 4 + z / 64), Char64(z % 64)]
  {
    SextetsOfBytes(x, 0, 0);
    SextetsOfBytes(x, y, 0);
    SextetsOfBytes(x, y, z);
    hide Word3, Sextet3, Sextet2, Sextet1, Sextet0, Char64;
    assert [x, y, z][3..] == [];
    assert Encode([x, y, z]) == EncodeQuad(x, y, z) + [];
  }

  lemma SextetsOfBytes(x: byte, y: byte, z: byte)
    ensures var v := Word3(x, y, z);
            && Sextet3(v) == x / 4 && Sextet2(v) == x % 4 * 16 + y / 16
            && Sextet1(v) == y % 16 * 4 + z / 64 && Sextet0(v) == z % 64
  {
    var xh: int, xl: int, yh: int, yl: int, zh: int, zl: int := x / 4, x % 4, y / 16, y % 16, z / 64, z % 64;
    assert x == 4 * xh + xl && y == 16 * yh + yl && z == 64 * zh + zl;
    assert Word3(x, y, z) == Word4(xh, xl * 16 + yh, yl * 4 + zh, zl);
    SextetsOfWord4(xh, xl * 16 + yh, yl * 4 + zh, zl);
  }

  /** The bytes that four characters of the alphabet, or '=', become. */
  lemma DecodeGroupIs(q: bytes)
    requires |q| == 4 && forall c | c in q :: Value64(c) >= 0
    ensures var a, b, c, d := Value64(q[0]), Value64(q[1]), Value64(q[2]), Value64(q[3]);
            Decode(q) == Ok([a * 4 + b / 16] + (if q[2] == 61 then [] else [b % 16 * 16 + c / 4])
                                             + (if q[3] == 61 then [] else [c % 4 * 64 + d]))
  {
    assert Strip(q) == q by { AlphabetIsNotBlank(q); }
    OneQuad(q);
    DecodeQuadIs(q);
    hide Strip, Value64, DecodeQuad, DecodeQuads;
  }

  lemma AlphabetIsNotBlank(q: bytes)
    requires forall c | c in q :: Value64(c) >= 0
    ensures Strip(q) == q
  {
    StripClean(q);
    assert forall c: byte | IsBlank(c) :: Value64(c) < 0;
    hide Strip;
  }

  lemma DecodeQuadIs(q: bytes)
    requires |q| == 4 && forall c | c in q :: Value64(c) >= 0
    ensures var a, b, c, d := Value64(q[0]), Value64(q[1]), Value64(q[2]), Value64(q[3]);
            DecodeQuad(q) == Ok([a * 4 + b / 16] + (if q[2] == 61 then [] else [b % 16 * 16 + c / 4])
                                                 + (if q[3] == 61 then [] else [c % 4 * 64 + d]))
  {
    forall i | 0 <= i < 4 ensures 0 <= Value64(q[i]) < 64 { assert q[i] in q; }
    hide Value64, Word4, Byte2, Byte1, Byte0;
    BytesOfSextets(Value64(q[0]), Value64(q[1]), Value64(q[2]), Value64(q[3]));
  }

  lemma BytesOfSextets(a: int, b: int, c: int, d: int)
    requires 0 <= a < 64 && 0 <= b < 64 && 0 <= c < 64 && 0 <= d < 64
    ensures var v := Word4(a, b, c, d);
            Byte2(v) == a * 4 + b / 16 && Byte1(v) == b % 16 * 16 + c / 4 && Byte0(v) == c % 4 * 64 + d
  {
    var bh, bl, ch, cl := b / 16, b % 16, c / 4, c % 4;
    assert b == 16 * bh + bl && c == 4 * ch + cl;
    assert Word4(a, b, c, d) == Word3(a * 4 + bh, bl * 16 + ch, cl * 64 + d);
    BytesOfWord3(a * 4 + bh, bl * 16 + ch, cl * 64 + d);
  }

  // ---------------------------------------------------------------- what the text means

  /** Bytes read as the digits of a number in base 256, after the number `high`. */
  function Number256(high: nat, b: bytes): nat
    decreases |b|
  {
    if b == [] then high else Number256(high * 256 + b[0], b[1..])
  }

  /** Characters read as the digits of a number in base 64, a padding sign counting as zero. */
  function Number64(high: nat, t: bytes): nat
    requires forall c | c in t :: Value64(c) >= 0
    decreases |t|
  {
    if t == [] then high else Number64(high * 64 + Value64(t[0]), t[1..])
  }

  /** Zero bytes up to the next three-byte boundary. */
  function Filled(b: bytes): bytes {
    if |b| % 3 == 0 then b else if |b| % 3 == 1 then b + [0, 0] else b + [0]
  }

  lemma ThreeDigits(high: nat, x: byte, y: byte, z: byte)
    ensures Number256(high, [x, y, z]) == high * 0x100_0000 + Word3(x, y, z)
  {
    assert [x, y, z][1..] == [y, z] && [y, z][1..] == [z];
    assert Number256((high * 256 + x) * 256 + y, [z]) == ((high * 256 + x) * 256 + y) * 256 + z;
    assert Number256(high * 256 + x, [y, z]) == Number256((high * 256 + x) * 256 + y, [z]);
  }

  lemma FourDigits(high: nat, a: byte, b: byte, c: byte, d: byte)
    requires Value64(a) >= 0 && Value64(b) >= 0 && Value64(c) >= 0 && Value64(d) >= 0
    ensures Number64(high, [a, b, c, d]) == high * 0x100_0000 + Word4(Value64(a), Value64(b), Value64(c), Value64(d))
  {
    hide Value64;
    assert [a, b, c, d][1..] == [b, c, d] && [b, c, d][1..] == [c, d] && [c, d][1..] == [d];
    var n1 := high * 64 + Value64(a);
    var n2 := n1 * 64 + Value64(b);
    var n3 := n2 * 64 + Value64(c);
    assert Number64(n3, [d]) == n3 * 64 + Value64(d);
    assert Number64(n2, [c, d]) == Number64(n3, [d]);
    assert Number64(n1, [b, c, d]) == Number64(n2, [c, d]);
  }

  lemma {:induction false} Number256Concat(high: nat, a: bytes, b: bytes)
    ensures Number256(high, a + b) == Number256(Number256(high, a), b)
    decreases |a|
  {
    if a == [] {
      assert a + b == b;
    } else {
      assert (a + b)[1..] == a[1..] + b;
      Number256Concat(high * 256 + a[0], a[1..], b);
    }
  }

  lemma {:induction false} Number64Concat(high: nat, a: bytes, b: bytes)
    requires forall c | c in a + b :: Value64(c) >= 0
    ensures (forall c | c in a :: Value64(c) >= 0) && (forall c | c in b :: Value64(c) >= 0)
    ensures Number64(high, a + b) == Number64(Number64(high, a), b)
    decreases |a|
  {
    hide Value64;
    assert forall c | c in a :: c in a + b;
    assert forall c | c in b :: c in a + b;
    if a == [] {
      assert a + b == b;
    } else {
      assert (a + b)[1..] == a[1..] + b;
      Number64Concat(high * 64 + Value64(a[0]), a[1..], b);
    }
  }

  /** The text, read as a number in base 64, is the data, read as a number in base 256 and filled up with zero bytes:
      the bit layout of RFC 4648 section 4. */
  lemma {:induction false} EncodeIsSameNumber(high: nat, data: bytes)
    ensures forall c | c in Encode(data) :: Value64(c) >= 0
    ensures Number64(high, Encode(data)) == Number256(high, Filled(data))
    decreases |data|
  {
    EncodeIsText(data);
    if data != [] {
      var x, y, z := data[0], if |data| >= 2 then data[1] else 0, if |data| >= 3 then data[2] else 0;
      var rest := if |data| > 3 then data[3..] else [];
      EncodeIsSameNumber(Number256(high, [x, y, z]), rest);
      HeadGroup(data, x, y, z, rest);
      GroupIsSameNumber(high, x, y, z, Encode(data)[..4]);
      assert Encode(data) == Encode(data)[..4] + Encode(rest);
      Number64Concat(high, Encode(data)[..4], Encode(rest));
      Number256Concat(high, [x, y, z], Filled(rest));
    }
  }

  lemma HeadGroup(data: bytes, x: byte, y: byte, z: byte, rest: bytes)
    requires data != [] && x == data[0] && y == (if |data| >= 2 then data[1] else 0)
    requires z == (if |data| >= 3 then data[2] else 0) && rest == if |data| > 3 then data[3..] else []
    ensures Filled(data) == [x, y, z] + Filled(rest)
    ensures |Encode(data)| >= 4 && Encode(data)[4..] == Encode(rest)
    ensures var q, t := EncodeQuad(x, y, z), Encode(data)[..4];
            && t[0] == q[0] && t[1] == q[1]
            && t[2] == (if |data| == 1 then PAD else q[2]) && t[3] == (if |data| <= 2 then PAD else q[3])
            && (|data| == 1 ==> y == 0 && z == 0) && (|data| == 2 ==> z == 0)
  {
    hide EncodeQuad;
    if |data| >= 3 { assert |rest| % 3 == |data| % 3; }
  }

  lemma GroupIsSameNumber(high: nat, x: byte, y: byte, z: byte, t: bytes)
    requires |t| == 4 && t[0] == EncodeQuad(x, y, z)[0] && t[1] == EncodeQuad(x, y, z)[1]
    requires t[2] == EncodeQuad(x, y, z)[2] || (t[2] == PAD && y == 0 && z == 0)
    requires t[3] == EncodeQuad(x, y, z)[3] || (t[3] == PAD && z == 0)
    ensures forall c | c in t :: Value64(c) >= 0
    ensures Number64(high, t) == Number256(high, [x, y, z])
  {
    assert Value64(PAD) == 0;
    hide Word3, Word4, Sextet3, Sextet2, Sextet1, Sextet0, Char64, Value64, EncodeQuad;
    QuadValues(x, y, z);
    Word4OfSextets(Word3(x, y, z));
    ClearSextet(x, y);
    ClearSextets(x);
    assert t == [t[0], t[1], t[2], t[3]];
    ThreeDigits(high, x, y, z);
    FourDigits(high, t[0], t[1], t[2], t[3]);
  }

  // ---------------------------------------------------------------- the two inverses

  lemma QuadValues(x: byte, y: byte, z: byte)
    ensures var v, q := Word3(x, y, z), EncodeQuad(x, y, z);
            && Value64(q[0]) == Sextet3(v) && Value64(q[1]) == Sextet2(v)
            && Value64(q[2]) == Sextet1(v) && Value64(q[3]) == Sextet0(v)
            && FullQuad(q)
  {
    hide Word3, Sextet3, Sextet2, Sextet1, Sextet0, Char64, Value64;
    var v := Word3(x, y, z);
    AlphabetInverse(Sextet3(v), 0);
    AlphabetInverse(Sextet2(v), 0);
    AlphabetInverse(Sextet1(v), 0);
    AlphabetInverse(Sextet0(v), 0);
  }

  lemma QuadRoundTrip(x: byte, y: byte, z: byte)
    ensures DecodeQuad(EncodeQuad(x, y, z)) == Ok([x, y, z])
  {
    hide Word3, Word4, Byte2, Byte1, Byte0, Sextet3, Sextet2, Sextet1, Sextet0, Char64, Value64;
    QuadValues(x, y, z);
    Word4OfSextets(Word3(x, y, z));
    BytesOfWord3(x, y, z);
    assert DecodeQuad(EncodeQuad(x, y, z)).value == [x, y, z];
  }

  /** The two padded endings decode to what they hold, and are canonical. */
  lemma OnePadRoundTrip(x: byte, y: byte)
    ensures var q := EncodeQuad(x, y, 0)[..3] + [PAD]; DecodeQuad(q) == Ok([x, y]) && PaddedQuad(q)
  {
    assert Value64(PAD) == 0;
    hide Word3, Word4, Byte2, Byte1, Byte0, Sextet3, Sextet2, Sextet1, Sextet0, Char64, Value64;
    QuadValues(x, y, 0);
    ClearSextet(x, y);
    Word4OfSextets(Word3(x, y, 0));
    BytesOfWord3(x, y, 0);
    var q := EncodeQuad(x, y, 0)[..3] + [PAD];
    assert DecodeQuad(q).value == [x, y];
  }

  lemma TwoPadsRoundTrip(x: byte)
    ensures var q := EncodeQuad(x, 0, 0)[..2] + [PAD, PAD]; DecodeQuad(q) == Ok([x]) && PaddedQuad(q)
  {
    assert Value64(PAD) == 0;
    hide Word3, Word4, Byte2, Byte1, Byte0, Sextet3, Sextet2, Sextet1, Sextet0, Char64, Value64;
    QuadValues(x, 0, 0);
    ClearSextet(x, 0);
    ClearSextets(x);
    Word4OfSextets(Word3(x, 0, 0));
    BytesOfWord3(x, 0, 0);
    var q := EncodeQuad(x, 0, 0)[..2] + [PAD, PAD];
    assert DecodeQuad(q).value == [x];
  }

  /** decode(encode(x)) == x for every x. */
  lemma {:induction false} EncodeThenDecode(data: bytes)
    ensures Decode(Encode(data)) == Ok(data)
  {
    hide Encode, DecodeQuads, Strip, IsBlank, Value64;
    EncodeIsText(data);
    EncodeLength(data);
    StripClean(Encode(data));
    QuadsRoundTrip(data);
  }

  /** The encoder fills exactly the space it reserves: four characters for each three bytes begun. */
  lemma {:induction false} EncodeLength(data: bytes)
    ensures |Encode(data)| == 4 * ((|data| + 2) / 3)
  {
    hide EncodeQuad;
    if |data| >= 3 { EncodeLength(data[3..]); }
  }

  lemma {:induction false} QuadsRoundTrip(data: bytes)
    ensures DecodeQuads(Encode(data)) == Ok(data)
  {
    hide EncodeQuad, DecodeQuad;
    var t := Encode(data);
    if |data| >= 3 {
      QuadsRoundTrip(data[3..]);
      QuadRoundTrip(data[0], data[1], data[2]);
      assert t[..4] == EncodeQuad(data[0], data[1], data[2]) && t[4..] == Encode(data[3..]);
      assert data == [data[0], data[1], data[2]] + data[3..];
    } else if |data| == 2 {
      OnePadRoundTrip(data[0], data[1]);
      OneQuad(t);
      assert data == [data[0], data[1]];
    } else if |data| == 1 {
      TwoPadsRoundTrip(data[0]);
      OneQuad(t);
      assert data == [data[0]];
    }
  }

  lemma OneQuad(q: bytes)
    requires |q| == 4
    ensures DecodeQuads(q) == DecodeQuad(q)
  {
    hide DecodeQuad;
    assert q[..4] == q && DecodeQuads(q[4..]) == Ok([]);
    if DecodeQuad(q).Ok? { assert DecodeQuad(q).value + [] == DecodeQuad(q).value; }
  }

  /** Encoded text is over the alphabet and '=': no blank, and no '.'. */
  lemma {:induction false} EncodeIsText(data: bytes)
    ensures forall c | c in Encode(data) :: Value64(c) >= 0 && c != DOT && !IsBlank(c)
  {
    assert forall c: byte | Value64(c) >= 0 :: c != DOT && !IsBlank(c);
    assert Value64(PAD) == 0;
    hide EncodeQuad, Value64, IsBlank;
    if data != [] {
      var y := if |data| >= 2 then data[1] else 0;
      var z := if |data| >= 3 then data[2] else 0;
      QuadValues(data[0], y, z);
      if |data| >= 3 { EncodeIsText(data[3..]); }
    }
  }

  lemma EncodeIsAscii(data: bytes)
    ensures forall c | c in Encode(data) :: c < 128
  {
    EncodeIsText(data);
    assert forall c: byte | Value64(c) >= 0 :: c < 128;
  }

  /** A canonical text: full groups, then possibly one padded group whose unused bits are zero. */
  predicate Canonical(t: bytes) {
    if |t| < 4 then t == []
    else (FullQuad(t[..4]) && Canonical(t[4..])) || (|t| == 4 && PaddedQuad(t))
  }

  predicate Plain(c: byte) {
    Value64(c) >= 0 && c != PAD
  }

  predicate FullQuad(q: bytes)
    requires |q| == 4
  {
    Plain(q[0]) && Plain(q[1]) && Plain(q[2]) && Plain(q[3])
  }

  predicate PaddedQuad(q: bytes)
    requires |q| == 4
  {
    && Plain(q[0]) && Plain(q[1]) && q[3] == PAD
    && if q[2] == PAD then Value64(q[1]) % 16 == 0 else Plain(q[2]) && Value64(q[2]) % 4 == 0
  }

  /** encode(decode(s)) gives back the stripped text exactly when that text is canonical. */
  lemma DecodeThenEncode(s: bytes)
    ensures (Decode(s).Ok? && Encode(Decode(s).value) == Strip(s)) <==> Canonical(Strip(s))
  {
    var t := Strip(s);
    if Canonical(t) { CanonicalRoundTrip(t); }
    if Decode(s).Ok? { EncodeIsCanonical(Decode(s).value); }
  }

  /** Other text is accepted too: "QR==" decodes to one byte, whose encoding is "QQ==". */
  lemma NonCanonicalIsAccepted()
    ensures Decode([81, 82, PAD, PAD]) == Ok([65]) && Encode([65]) == [81, 81, PAD, PAD]
    ensures !Canonical([81, 82, PAD, PAD])
  {
    var s: bytes := [81, 82, PAD, PAD];
    assert Value64(s[0]) == 16 && Value64(s[1]) == 17 && Value64(PAD) == 0 && Char64(16) == 81;
    StripClean(s);
    assert Strip(s) == s;
    OneQuad(s);
    NotCanonicalQuad(s);
    hide Strip, Value64, Char64, DecodeQuads, Canonical;
    assert Word4(16, 17, 0, 0) == 0x41_1000 && Byte2(0x41_1000) == 65;
    assert Word3(65, 0, 0) == 0x41_0000 && Sextet3(0x41_0000) == 16 && Sextet2(0x41_0000) == 16;
    hide Word3, Word4, Byte2, Byte1, Byte0, Sextet3, Sextet2, Sextet1, Sextet0;
    var a: bytes := [65];
    assert a + [] == a && s[2] == PAD && s[3] == PAD;
    assert DecodeQuad(s) == Ok(a + [] + []);
    assert EncodeQuad(65, 0, 0)[..2] == [81, 81];
  }

  lemma NotCanonicalQuad(q: bytes)
    requires |q| == 4 && q[2] == q[3] == PAD && Value64(q[1]) % 16 != 0
    ensures !Canonical(q)
  {
    hide Value64;
    assert q[..4] == q;
  }

  lemma {:induction false} EncodeIsCanonical(data: bytes)
    ensures Canonical(Encode(data))
  {
    hide EncodeQuad, PaddedQuad, FullQuad;
    var t := Encode(data);
    if |data| >= 3 {
      EncodeIsCanonical(data[3..]);
      QuadValues(data[0], data[1], data[2]);
      assert t[..4] == EncodeQuad(data[0], data[1], data[2]) && t[4..] == Encode(data[3..]);
    } else if |data| == 2 {
      OnePadRoundTrip(data[0], data[1]);
    } else if |data| == 1 {
      TwoPadsRoundTrip(data[0]);
    }
  }

  lemma {:induction false} CanonicalRoundTrip(t: bytes)
    requires Canonical(t)
    ensures |t| % 4 == 0 && DecodeQuads(t).Ok? && Encode(DecodeQuads(t).value) == t
  {
    hide EncodeQuad, DecodeQuad, PaddedQuad, FullQuad;
    if t == [] {
    } else if |t| == 4 && PaddedQuad(t) {
      PaddedQuadBack(t);
      OneQuad(t);
    } else {
      CanonicalRoundTrip(t[4..]);
      FullQuadBack(t[..4]);
      var head, rest := DecodeQuad(t[..4]).value, DecodeQuads(t[4..]).value;
      assert (head + rest)[0] == head[0] && (head + rest)[1] == head[1] && (head + rest)[2] == head[2];
      assert (head + rest)[3..] == rest;
      assert Encode(head + rest) == t[..4] + t[4..];
    }
  }

  lemma FullQuadBack(q: bytes)
    requires |q| == 4 && FullQuad(q)
    ensures DecodeQuad(q).Ok? && |DecodeQuad(q).value| == 3
    ensures var h := DecodeQuad(q).value; EncodeQuad(h[0], h[1], h[2]) == q
  {
    var a, b, c, d := Value64(q[0]), Value64(q[1]), Value64(q[2]), Value64(q[3]);
    forall i | 0 <= i < 4 ensures Value64(q[i]) < 64 && Char64(Value64(q[i])) == q[i] { AlphabetInverse(0, q[i]); }
    hide Word3, Word4, Byte2, Byte1, Byte0, Sextet3, Sextet2, Sextet1, Sextet0, Char64, Value64;
    SextetsOfWord4(a, b, c, d);
    Word3OfBytes(Word4(a, b, c, d));
  }

  lemma PaddedQuadBack(q: bytes)
    requires |q| == 4 && PaddedQuad(q)
    ensures DecodeQuad(q).Ok? && Encode(DecodeQuad(q).value) == q
  {
    if q[2] == PAD { TwoPadsBack(q); } else { OnePadBack(q); }
  }

  lemma OnePadBack(q: bytes)
    requires |q| == 4 && PaddedQuad(q) && q[2] != PAD
    ensures DecodeQuad(q).Ok? && Encode(DecodeQuad(q).value) == q
  {
    assert Value64(PAD) == 0;
    var a, b, c := Value64(q[0]), Value64(q[1]), Value64(q[2]);
    forall i | 0 <= i < 3 ensures Value64(q[i]) < 64 && Char64(Value64(q[i])) == q[i] { AlphabetInverse(0, q[i]); }
    hide Word3, Word4, Byte2, Byte1, Byte0, Sextet3, Sextet2, Sextet1, Sextet0, Char64, Value64;
    SextetsOfWord4(a, b, c, 0);
    ClearLowByte(a, b, c);
    Word3OfBytes(Word4(a, b, c, 0));
  }

  lemma TwoPadsBack(q: bytes)
    requires |q| == 4 && PaddedQuad(q) && q[2] == PAD
    ensures DecodeQuad(q).Ok? && Encode(DecodeQuad(q).value) == q
  {
    assert Value64(PAD) == 0;
    var a, b := Value64(q[0]), Value64(q[1]);
    forall i | 0 <= i < 2 ensures Value64(q[i]) < 64 && Char64(Value64(q[i])) == q[i] { AlphabetInverse(0, q[i]); }
    hide Word3, Word4, Byte2, Byte1, Byte0, Sextet3, Sextet2, Sextet1, Sextet0, Char64, Value64;
    SextetsOfWord4(a, b, 0, 0);
    ClearLowByte(a, b, 0);
    ClearLowBytes(a, b);
    Word3OfBytes(Word4(a, b, 0, 0));
  }
}
