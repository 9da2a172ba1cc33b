/** Bytes, fixed-size blocks, machine integers and the byte-level helpers every component shares.
    A C++ `std::string` and a `std::vector<uint8_t>` are both sequences of bytes here. */
module Bytes {

  type byte = x: int | 0 <= x < 256
  type bytes = seq<byte>

  type Block12 = b: bytes | |b| == 12 witness seq(12, i => 0)
  type Block16 = b: bytes | |b| == 16 witness seq(16, i => 0)
  type Block32 = b: bytes | |b| == 32 witness seq(32, i => 0)
  type Block64 = b: bytes | |b| == 64 witness seq(64, i => 0)

  type int32 = x: int | -0x8000_0000 <= x < 0x8000_0000
  type int64 = x: int | -0x8000_0000_0000_0000 <= x < 0x8000_0000_0000_0000
  type uint32 = x: int | 0 <= x < 0x1_0000_0000

  datatype Option<+T> = None | Some(value: T) {
    predicate IsFailure() {
      None?
    }

    function PropagateFailure<U>(): Option<U>
      requires None?
    {
      None
    }

    function Extract(): T
      requires Some?
    {
      value
    }

    function GetOr(default: T): T {
      if Some? then value else default
    }
  }

  datatype Result<+T, +E> = Ok(value: T) | Err(error: E) {
    function GetOr(default: T): T {
      if Ok? then value else default
    }
  }

  lemma ConcatAssoc<T>(a: seq<T>, b: seq<T>, c: seq<T>)
    ensures a + (b + c) == a + b + c
  {
  }

  /** The bytes of a string literal. */
  function Ascii(s: string): (b: bytes)
    ensures |b| == |s|
  {
    seq(|s|, i requires 0 <= i < |s| => s[i] as int % 256)
  }

  lemma AsciiIsText(s: string)
    requires forall c | c in s :: c as int < 256
    ensures forall i | 0 <= i < |s| :: Ascii(s)[i] == s[i] as int
  {
    forall i | 0 <= i < |s| ensures Ascii(s)[i] == s[i] as int { assert s[i] in s; }
  }

  lemma AsciiConcat(a: string, b: string)
    ensures Ascii(a + b) == Ascii(a) + Ascii(b)
  {
  }

  // ---------------------------------------------------------------- searching

  /** `std::string::rfind` for one character; -1 stands for npos. */
  function RFind(s: bytes, c: byte): (i: int)
    ensures -1 <= i < |s|
    ensures i >= 0 ==> s[i] == c
    ensures forall k | i < k < |s| :: s[k] != c
  {
    if s == [] then -1
    else if s[|s| - 1] == c then |s| - 1
    else RFind(s[..|s| - 1], c)
  }

  lemma RFindIs(s: bytes, c: byte, i: int)
    requires -1 <= i < |s| && (i >= 0 ==> s[i] == c) && forall k | i < k < |s| :: s[k] != c
    ensures RFind(s, c) == i
  {
  }

  // ---------------------------------------------------------------- machine integers

  /** Two's complement wrap-around of a 64-bit signed result. */
  function WrapInt64(x: int): int64 {
    (x + 0x8000_0000_0000_0000) % 0x1_0000_0000_0000_0000 - 0x8000_0000_0000_0000
  }

  /** Two's complement wrap-around of a 32-bit signed result. */
  function WrapInt32(x: int): int32 {
    (x + 0x8000_0000) % 0x1_0000_0000 - 0x8000_0000
  }

  /** Unsigned 32-bit wrap-around. */
  function WrapUint32(x: int): uint32 {
    x % 0x1_0000_0000
  }

  /** Wrapping changes a number by a multiple of the modulus only; with the range of the result that determines it. */
  lemma WrapsModulo(x: int)
    ensures exists k: int :: WrapInt64(x) == x - k * 0x1_0000_0000_0000_0000
    ensures exists k: int :: WrapInt32(x) == x - k * 0x1_0000_0000
    ensures exists k: int :: WrapUint32(x) == x - k * 0x1_0000_0000
  {
    assert WrapInt64(x) == x - (x + 0x8000_0000_0000_0000) / 0x1_0000_0000_0000_0000 * 0x1_0000_0000_0000_0000;
    assert WrapInt32(x) == x - (x + 0x8000_0000) / 0x1_0000_0000 * 0x1_0000_0000;
    assert WrapUint32(x) == x - x / 0x1_0000_0000 * 0x1_0000_0000;
  }

  // ---------------------------------------------------------------- 32-bit big-endian words

  function Be32(v: uint32): (b: bytes)
    ensures |b| == 4
  {
    [v / 0x100_0000 % 256, v / 0x1_0000 % 256, v / 0x100 % 256, v % 256]
  }

  function FromBe32(b: bytes): uint32
    requires |b| == 4
  {
    b[0] as int * 0x100_0000 + b[1] as int * 0x1_0000 + b[2] as int * 0x100 + b[3] as int
  }

  lemma Be32RoundTrip(v: uint32)
    ensures FromBe32(Be32(v)) == v
  {
    var h := v / 0x100;
    var hh := h / 0x100;
    assert v / 0x1_0000 == hh;
    assert v / 0x100_0000 == hh / 0x100;
  }

  /** The high byte comes first. */
  lemma Be32IsBigEndian(v: uint32)
    ensures var b := Be32(v);
            v == b[0] as int * 0x100_0000 + b[1] as int * 0x1_0000 + b[2] as int * 0x100 + b[3] as int
  {
    Be32RoundTrip(v);
  }

  // ---------------------------------------------------------------- hexadecimal

  /** One lower-case hexadecimal digit. */
  function HexDigit(n: int): byte
    requires 0 <= n < 16
  {
    if n < 10 then 48 + n else 87 + n
  }

  function HexValue(c: byte): Option<int> {
    if 48 <= c <= 57 then Some(c - 48) else if 97 <= c <= 102 then Some(c - 87) else None
  }

  /** `%02x`. */
  function HexByte(b: byte): (h: bytes)
    ensures |h| == 2
  {
    [HexDigit(b / 16), HexDigit(b % 16)]
  }

  function Hex(bs: bytes): (h: bytes)
    ensures |h| == 2 * |bs|
  {
    if bs == [] then [] else HexByte(bs[0]) + Hex(bs[1..])
  }

  /** A parser for the printer `Hex`. */
  function FromHex(h: bytes): Option<bytes> {
    if h == [] then Some([])
    else if |h| == 1 then None
    else
      match (HexValue(h[0]), HexValue(h[1]), FromHex(h[2..]))
      case (Some(hi), Some(lo), Some(rest)) => Some([(16 * hi + lo) % 256] + rest)
      case _ => None
  }

  lemma HexByteBack(b: byte)
    ensures var h := HexByte(b);
            HexValue(h[0]).Some? && HexValue(h[1]).Some? && 16 * HexValue(h[0]).value + HexValue(h[1]).value == b
  {
  }

  lemma {:induction false} HexRoundTrip(bs: bytes)
    ensures FromHex(Hex(bs)) == Some(bs)
  {
    hide HexByte, HexValue;
    if bs != [] {
      HexByteBack(bs[0]);
      HexRoundTrip(bs[1..]);
      var h := Hex(bs);
      assert h[0] == HexByte(bs[0])[0] && h[1] == HexByte(bs[0])[1] && h[2..] == Hex(bs[1..]);
      assert bs == [bs[0]] + bs[1..];
    }
  }

  lemma HexInjective(a: bytes, b: bytes)
    requires Hex(a) == Hex(b)
    ensures a == b
  {
    HexRoundTrip(a);
    HexRoundTrip(b);
  }

  /** Every printed digit is one of 0-9 and a-f. */
  lemma {:induction false} HexIsLowercase(bs: bytes)
    ensures forall c | c in Hex(bs) :: HexValue(c).Some?
  {
    if bs != [] { HexIsLowercase(bs[1..]); }
  }

  lemma HexDigitIs(n: int)
    requires 0 <= n < 16
    ensures HexDigit(n) == "0123456789abcdef"[n] as int
  {
  }

  /** Every byte is printed as its two digits, the high one first. */
  lemma {:induction false} HexAt(bs: bytes, k: nat)
    requires k < |bs|
    ensures Hex(bs)[2 * k] == "0123456789abcdef"[bs[k] / 16] as int
    ensures Hex(bs)[2 * k + 1] == "0123456789abcdef"[bs[k] % 16] as int
  {
    HexDigitIs(bs[k] / 16);
    HexDigitIs(bs[k] % 16);
    if k > 0 { HexAt(bs[1..], k - 1); }
  }

  lemma {:induction false} HexConcat(a: bytes, b: bytes)
    ensures Hex(a + b) == Hex(a) + Hex(b)
  {
    if a == [] {
      assert a + b == b;
    } else {
      hide HexByte;
      HexConcat(a[1..], b);
      assert (a + b)[1..] == a[1..] + b;
      ConcatAssoc(HexByte(a[0]), Hex(a[1..]), Hex(b));
    }
  }

  // ---------------------------------------------------------------- UUID text

  const DASH: byte := 45
  const DOT: byte := 46

  /** The 8-4-4-4-12 layout shared by the UUID generator and the SMBIOS reader. */
  function UuidText(u: bytes): (t: bytes)
    requires |u| == 16
    ensures |t| == 36
  {
    Hex(u[0..4]) + [DASH] + Hex(u[4..6]) + [DASH] + Hex(u[6..8]) + [DASH] + Hex(u[8..10]) + [DASH] + Hex(u[10..16])
  }

  lemma UuidGroups(u: bytes)
    requires |u| == 16
    ensures var t := UuidText(u);
            && t[8] == t[13] == t[18] == t[23] == 45
            && t[0..8] == Hex(u[0..4]) && t[9..13] == Hex(u[4..6]) && t[14..18] == Hex(u[6..8])
            && t[19..23] == Hex(u[8..10]) && t[24..36] == Hex(u[10..16])
  {
    hide Hex;
  }

  /** The text without its four dashes is the hexadecimal text of the sixteen bytes in order. */
  lemma UuidTextIs(u: bytes)
    requires |u| == 16
    ensures var t := UuidText(u);
            && t[8] == t[13] == t[18] == t[23] == 45
            && t[0..8] + t[9..13] + t[14..18] + t[19..23] + t[24..36] == Hex(u)
  {
    hide Hex, UuidText;
    UuidGroups(u);
    FiveGroups(u);
    HexOfFive(u[0..4], u[4..6], u[6..8], u[8..10], u[10..16]);
  }

  lemma FiveGroups(u: bytes)
    requires |u| == 16
    ensures u[0..4] + u[4..6] + u[6..8] + u[8..10] + u[10..16] == u
  {
  }

  lemma HexOfFive(a: bytes, b: bytes, c: bytes, d: bytes, e: bytes)
    ensures Hex(a + b + c + d + e) == Hex(a) + Hex(b) + Hex(c) + Hex(d) + Hex(e)
  {
    hide Hex;
    HexConcat(a, b);
    HexConcat(a + b, c);
    HexConcat(a + b + c, d);
    HexConcat(a + b + c + d, e);
  }

  /** Where the two digits of each byte stand in the text. */
  function DigitAt(i: nat): nat {
    2 * i + (if i < 4 then 0 else if i < 6 then 1 else if i < 8 then 2 else if i < 10 then 3 else 4)
  }

  lemma UuidDigitsAt(u: bytes, i: nat)
    requires |u| == 16 && i < 16
    ensures UuidText(u)[DigitAt(i)] == "0123456789abcdef"[u[i] / 16] as int
    ensures UuidText(u)[DigitAt(i) + 1] == "0123456789abcdef"[u[i] % 16] as int
  {
    UuidGroups(u);
    var t := UuidText(u);
    hide Hex, UuidText;
    if i < 4 {
      GroupDigits(t, 0, 8, u, 0, 4, i);
    } else if i < 6 {
      GroupDigits(t, 9, 13, u, 4, 6, i);
    } else if i < 8 {
      GroupDigits(t, 14, 18, u, 6, 8, i);
    } else if i < 10 {
      GroupDigits(t, 19, 23, u, 8, 10, i);
    } else {
      GroupDigits(t, 24, 36, u, 10, 16, i);
    }
  }

  lemma GroupDigits(t: bytes, start: nat, end: nat, u: bytes, lo: nat, hi: nat, i: nat)
    requires start <= end <= |t| && lo <= i < hi <= |u| && t[start..end] == Hex(u[lo..hi])
    ensures start + 2 * (i - lo) + 1 < |t|
    ensures t[start + 2 * (i - lo)] == "0123456789abcdef"[u[i] / 16] as int
    ensures t[start + 2 * (i - lo) + 1] == "0123456789abcdef"[u[i] % 16] as int
  {
    HexAt(u[lo..hi], i - lo);
    hide Hex;
    var k := 2 * (i - lo);
    assert t[start + k] == t[start..end][k] && t[start + k + 1] == t[start..end][k + 1];
  }

  /** Different 16-byte identifiers print differently. */
  lemma UuidTextInjective(u: bytes, v: bytes)
    requires |u| == |v| == 16 && UuidText(u) == UuidText(v)
    ensures u == v
  {
    var t, s := UuidText(u), UuidText(v);
    assert Hex(u[0..4]) == t[0..8] == s[0..8] == Hex(v[0..4]);
    assert Hex(u[4..6]) == t[9..13] == s[9..13] == Hex(v[4..6]);
    assert Hex(u[6..8]) == t[14..18] == s[14..18] == Hex(v[6..8]);
    assert Hex(u[8..10]) == t[19..23] == s[19..23] == Hex(v[8..10]);
    assert Hex(u[10..16]) == t[24..36] == s[24..36] == Hex(v[10..16]);
    HexInjective(u[0..4], v[0..4]);
    HexInjective(u[4..6], v[4..6]);
    HexInjective(u[6..8], v[6..8]);
    HexInjective(u[8..10], v[8..10]);
    HexInjective(u[10..16], v[10..16]);
    assert u == u[0..4] + u[4..6] + u[6..8] + u[8..10] + u[10..16];
    assert v == v[0..4] + v[4..6] + v[6..8] + v[8..10] + v[10..16];
  }
}
