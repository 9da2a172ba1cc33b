/** The SMBIOS table walk of `smbios_uuid` (Windows branch of common/src/fingerprint.cpp), following the structure
    layout of DMTF DSP0134 sections 6.1.2, 6.1.3 and 7.2. */
module Smbios {
  import opened Bytes

  const HEADER := 8
  const END_OF_TABLE: byte := 127
  const SYSTEM_INFO: byte := 1

  /** `ReadPastEnd` marks a walk whose sixteen UUID bytes do not all lie inside the buffer. */
  datatype UuidResult = Uuid(text: bytes) | NoUuid | ReadPastEnd

  // ---------------------------------------------------------------- the walk

  /** The identifier in printing order: the first three fields are stored low byte first. */
  function MixedEndian(u: bytes): (v: bytes)
    requires |u| == 16
    ensures |v| == 16
  {
    [u[3], u[2], u[1], u[0], u[5], u[4], u[7], u[6]] + u[8..]
  }

  /** A field of a structure is stored low byte first; printing shows the number it holds. */
  lemma MixedEndianIsNumeric(u: bytes)
    requires |u| == 16
    ensures var v := MixedEndian(u);
            && v[0..4] == Be32(u[0] as int + u[1] as int * 0x100 + u[2] as int * 0x1_0000 + u[3] as int * 0x100_0000)
            && FromBe32([0, 0] + v[4..6]) == u[4] as int + u[5] as int * 0x100
            && FromBe32([0, 0] + v[6..8]) == u[6] as int + u[7] as int * 0x100
            && v[8..16] == u[8..16]
  {
    var n := u[0] as int + u[1] as int * 0x100 + u[2] as int * 0x1_0000 + u[3] as int * 0x100_0000;
    assert n / 0x100 == u[1] as int + u[2] as int * 0x100 + u[3] as int * 0x1_0000;
    assert n / 0x1_0000 == u[2] as int + u[3] as int * 0x100;
    assert n / 0x100_0000 == u[3] as int;
    assert MixedEndian(u)[0..4] == [u[3], u[2], u[1], u[0]];
    assert [0, 0] + MixedEndian(u)[4..6] == [0, 0, u[5], u[4]];
    assert [0, 0] + MixedEndian(u)[6..8] == [0, 0, u[7], u[6]];
  }

  /** From `off`, the first position where two zero bytes start, or where fewer than two bytes are left. */
  function SkipStrings(s: bytes, off: nat): (stop: nat)
    ensures stop >= off
    decreases |s| - off
  {
    if off + 1 < |s| && !(s[off] == 0 && s[off + 1] == 0) then SkipStrings(s, off + 1) else off
  }

  predicate DoubleZero(s: bytes, k: nat) {
    k + 1 < |s| && s[k] == 0 && s[k + 1] == 0
  }

  /** `stop` is where the first two zero bytes from `off` on start, or where fewer than two bytes are left if there are
      none. */
  ghost predicate FirstStop(s: bytes, off: nat, stop: nat) {
    && stop >= off
    && (DoubleZero(s, stop) || (stop + 1 >= |s| && (stop == off || stop + 1 == |s|)))
    && forall k: nat | off <= k < stop :: !DoubleZero(s, k)
  }

  /** The scan stops there, and there is no other such place. */
  lemma {:induction false} SkipStringsIsFirst(s: bytes, off: nat)
    ensures FirstStop(s, off, SkipStrings(s, off))
    ensures forall stop: nat :: FirstStop(s, off, stop) ==> stop == SkipStrings(s, off)
    decreases |s| - off
  {
    if off + 1 < |s| && !(s[off] == 0 && s[off + 1] == 0) { SkipStringsIsFirst(s, off + 1); }
    forall stop: nat | FirstStop(s, off, stop) ensures stop == SkipStrings(s, off) {
      OneFirstStop(s, off, stop, SkipStrings(s, off));
    }
  }

  lemma OneFirstStop(s: bytes, off: nat, a: nat, b: nat)
    requires FirstStop(s, off, a) && FirstStop(s, off, b)
    ensures a == b
  {
  }

  predicate HoldsUuid(s: bytes, off: nat)
    requires off + 1 < |s|
  {
    s[off] == SYSTEM_INFO && s[off + 1] >= 25
  }

  function Next(s: bytes, off: nat): (n: nat)
    requires off + 1 < |s|
    ensures n >= off + 2
  {
    SkipStrings(s, off + s[off + 1]) + 2
  }

  function Walk(s: bytes, off: nat): UuidResult
    decreases |s| - off
  {
    if off + 4 >= |s| || s[off] == END_OF_TABLE then NoUuid
    else if HoldsUuid(s, off) then
      if off + 24 <= |s| then Uuid(UuidText(MixedEndian(s[off + 8..off + 24]))) else ReadPastEnd
    else Walk(s, Next(s, off))
  }

  function SmbiosUuid(s: bytes): UuidResult {
    if |s| < 32 then NoUuid else Walk(s, HEADER)
  }

  /** Both loops end and every header and string read is in bounds, for every buffer; the UUID bytes are read only
      after checking that they are there. */
  method SmbiosUuidWalk(buf: array<byte>) returns (r: UuidResult)
    ensures r == SmbiosUuid(buf[..])
  {
    var size := buf.Length;
    if size < 32 { return NoUuid; }
    ghost var s := buf[..];
    var tableEnd := HEADER + size - HEADER;
    var off := HEADER;
    while off + 4 < tableEnd
      invariant off >= HEADER
      invariant Walk(s, off) == Walk(s, HEADER)
      decreases tableEnd - off
    {
      var kind, length := buf[off], buf[off + 1];
      if kind == END_OF_TABLE { break; }
      if kind == SYSTEM_INFO && length >= 25 {
        if off + 24 > size { return ReadPastEnd; }
        return Uuid(UuidText(MixedEndian(buf[off + 8..off + 24])));
      }
      ghost var start := off + length;
      off := off + length;
      while off + 1 < tableEnd && !(buf[off] == 0 && buf[off + 1] == 0)
        invariant off >= start
        invariant SkipStrings(s, off) == SkipStrings(s, start)
        decreases tableEnd - off
      {
        off := off + 1;
      }
      off := off + 2;
    }
    return NoUuid;
  }

  // ---------------------------------------------------------------- well-formed tables

  /** A structure: its type, the formatted area after type and length, and its string set. */
  datatype Structure = Structure(kind: byte, formatted: bytes, strings: seq<bytes>) {
    ghost predicate Valid() {
      2 <= |formatted| <= 253 && forall t | t in strings :: ValidString(t)
    }
  }

  ghost predicate ValidString(t: bytes) {
    t != [] && forall k | 0 <= k < |t| :: t[k] != 0
  }

  function Terminated(strings: seq<bytes>): bytes {
    if strings == [] then [] else strings[0] + [0] + Terminated(strings[1..])
  }

  function StringSet(strings: seq<bytes>): (b: bytes)
    ensures |b| >= 2
  {
    if strings == [] then [0, 0]
    else
      assert Terminated(strings) == strings[0] + [0] + Terminated(strings[1..]);
      Terminated(strings) + [0]
  }

  function Serialize(t: Structure): bytes
    requires t.Valid()
  {
    [t.kind, 2 + |t.formatted|] + t.formatted + StringSet(t.strings)
  }

  function SerializeAll(ts: seq<Structure>): bytes
    requires forall t | t in ts :: t.Valid()
  {
    if ts == [] then [] else Serialize(ts[0]) + SerializeAll(ts[1..])
  }

  /** The UUID of the first system-information structure that is long enough to hold one. */
  function FirstUuid(ts: seq<Structure>): UuidResult
    requires forall t | t in ts :: t.Valid()
  {
    if ts == [] then NoUuid
    else if ts[0].kind == 1 && 2 + |ts[0].formatted| >= 25 then
      Uuid(UuidText(MixedEndian(ts[0].formatted[6..22])))
    else FirstUuid(ts[1..])
  }

  /** A run of non-zero bytes is scanned over. */
  lemma {:induction false} SkipRun(s: bytes, off: nat, n: nat)
    requires off + n < |s| && forall k | off <= k < off + n :: s[k] != 0
    ensures SkipStrings(s, off) == SkipStrings(s, off + n)
    decreases n
  {
    if n > 0 { SkipRun(s, off + 1, n - 1); }
  }

  /** `piece` lies in the buffer at `off`. */
  ghost predicate At(s: bytes, off: nat, piece: bytes) {
    off + |piece| <= |s| && s[off..off + |piece|] == piece
  }

  lemma AtSplit(s: bytes, off: nat, a: bytes, b: bytes)
    requires At(s, off, a + b)
    ensures At(s, off, a) && At(s, off + |a|, b)
  {
    var ab := s[off..off + |a + b|];
    assert ab[..|a|] == a && ab[|a|..] == b;
    assert s[off..off + |a|] == ab[..|a|] && s[off + |a|..off + |a| + |b|] == ab[|a|..];
  }

  lemma AtByte(s: bytes, off: nat, piece: bytes, k: nat)
    requires At(s, off, piece) && k < |piece|
    ensures s[off + k] == piece[k]
  {
    assert s[off..off + |piece|][k] == piece[k];
  }

  /** A string set starts with its first string and the terminator of that. */
  lemma FirstString(s: bytes, off: nat, strings: seq<bytes>)
    requires strings != [] && At(s, off, Terminated(strings) + [0])
    ensures At(s, off, strings[0]) && At(s, off + |strings[0]|, [0])
    ensures At(s, off + |strings[0]| + 1, Terminated(strings[1..]) + [0])
  {
    var t, tail := strings[0], Terminated(strings[1..]) + [0];
    assert Terminated(strings) + [0] == t + ([0] + tail);
    AtSplit(s, off, t, [0] + tail);
    AtSplit(s, off + |t|, [0], tail);
  }

  /** The scan of a non-empty string set stops at the terminator of its last string. */
  lemma {:induction false} SkipTerminated(s: bytes, off: nat, strings: seq<bytes>)
    requires strings != [] && forall t | t in strings :: ValidString(t)
    requires At(s, off, Terminated(strings) + [0])
    ensures SkipStrings(s, off) == off + |Terminated(strings)| - 1
    decreases |strings|
  {
    var t, rest := strings[0], strings[1..];
    assert ValidString(t);
    var tail := Terminated(rest) + [0];
    FirstString(s, off, strings);
    forall k | off <= k < off + |t| ensures s[k] != 0 { AtByte(s, off, t, k - off); }
    AtByte(s, off + |t|, [0], 0);
    AtByte(s, off + |t| + 1, tail, 0);
    hide At;
    SkipRun(s, off, |t|);
    if rest == [] {
      assert SkipStrings(s, off + |t|) == off + |t|;
    } else {
      assert ValidString(rest[0]) && tail[0] == rest[0][0];
      assert SkipStrings(s, off + |t|) == SkipStrings(s, off + |t| + 1);
      SkipTerminated(s, off + |t| + 1, rest);
    }
  }

  /** The scan that starts after the formatted area stops two bytes before the next structure. */
  lemma ScanStopsAtBoundary(s: bytes, off: nat, strings: seq<bytes>)
    requires (forall t | t in strings :: ValidString(t)) && At(s, off, StringSet(strings))
    ensures SkipStrings(s, off) + 2 == off + |StringSet(strings)|
  {
    if strings == [] {
      AtByte(s, off, [0, 0], 0);
      AtByte(s, off, [0, 0], 1);
    } else {
      SkipTerminated(s, off, strings);
    }
  }

  lemma StructureParts(s: bytes, off: nat, t: Structure)
    requires t.Valid() && At(s, off, Serialize(t))
    ensures At(s, off, [t.kind, 2 + |t.formatted|]) && At(s, off + 2, t.formatted)
    ensures At(s, off + 2 + |t.formatted|, StringSet(t.strings))
  {
    var head: bytes := [t.kind, 2 + |t.formatted|];
    AtSplit(s, off, head + t.formatted, StringSet(t.strings));
    AtSplit(s, off, head, t.formatted);
  }

  /** One round of the walk passes exactly one structure, and sees its type, its length and its formatted area. */
  lemma NextIsNextStructure(s: bytes, off: nat, t: Structure)
    requires t.Valid() && At(s, off, Serialize(t))
    ensures off + 4 < |s| && s[off] == t.kind && s[off + 1] == 2 + |t.formatted|
    ensures Next(s, off) == off + |Serialize(t)|
    ensures |t.formatted| >= 22 ==> off + 24 <= |s| && s[off + 8..off + 24] == t.formatted[6..22]
  {
    StructureParts(s, off, t);
    AtByte(s, off, [t.kind, 2 + |t.formatted|], 0);
    AtByte(s, off, [t.kind, 2 + |t.formatted|], 1);
    ScanStopsAtBoundary(s, off + 2 + |t.formatted|, t.strings);
    if |t.formatted| >= 22 { SliceOfPiece(s, off + 2, t.formatted, 6, 22); }
  }

  lemma SliceOfPiece(s: bytes, off: nat, piece: bytes, from: nat, to: nat)
    requires At(s, off, piece) && from <= to <= |piece|
    ensures s[off + from..off + to] == piece[from..to]
  {
    forall k | 0 <= k < to - from ensures s[off + from..off + to][k] == piece[from..to][k] {
      AtByte(s, off, piece, from + k);
    }
  }

  lemma {:induction false} WalkFollowsStructures(s: bytes, off: nat, ts: seq<Structure>, last: Structure)
    requires forall t | t in ts :: t.Valid() && t.kind != 127
    requires last.Valid() && last.kind == 127
    requires At(s, off, SerializeAll(ts) + Serialize(last))
    ensures Walk(s, off) == FirstUuid(ts)
    decreases |ts|
  {
    hide Serialize, Next;
    if ts == [] {
      assert SerializeAll(ts) + Serialize(last) == Serialize(last);
      NextIsNextStructure(s, off, last);
    } else {
      var rest := SerializeAll(ts[1..]) + Serialize(last);
      assert SerializeAll(ts) + Serialize(last) == Serialize(ts[0]) + rest;
      AtSplit(s, off, Serialize(ts[0]), rest);
      NextIsNextStructure(s, off, ts[0]);
      WalkFollowsStructures(s, off + |Serialize(ts[0])|, ts[1..], last);
    }
  }

  /** On a well-formed table the walk returns the UUID of the first long enough system-information structure, and
      nothing when there is none; it never reads past the end, whatever follows the end-of-table structure. */
  lemma WalkRefinesTable(header: bytes, ts: seq<Structure>, last: Structure, trailing: bytes)
    requires |header| == 8
    requires forall t | t in ts :: t.Valid() && t.kind != 127
    requires last.Valid() && last.kind == 127
    ensures SmbiosUuid(header + SerializeAll(ts) + Serialize(last) + trailing) == FirstUuid(ts)
  {
    var s := header + SerializeAll(ts) + Serialize(last) + trailing;
    var table := SerializeAll(ts) + Serialize(last);
    assert s == header + table + trailing;
    assert At(s, HEADER, table);
    WalkFollowsStructures(s, HEADER, ts, last);
    UuidNeedsRoom(ts);
  }

  /** A table byte by byte: a structure of any type with one string, then a system-information structure. The walk
      prints its identifier: 36 characters, the digits of each byte side by side, in the order 3 2 1 0, 5 4, 7 6, 8 9,
      10 to 15. */
  lemma PrintedIdentifier(header: bytes, kind: byte, handle: bytes, text: bytes, formatted: bytes, trailing: bytes,
                          i: nat)
    requires |header| == 8 && kind != 127 && |handle| == 2 && ValidString(text) && |formatted| == 25 && i < 16
    ensures var r := SmbiosUuid(header + ([kind, 4] + handle + text + [0, 0]) + ([1, 27] + formatted + [0, 0])
                                + [127, 4, 0, 0, 0, 0] + trailing);
            && r.Uuid? && |r.text| == 36 && r.text[8] == r.text[13] == r.text[18] == r.text[23] == 45
            && r.text[DigitAt(i)] == "0123456789abcdef"[formatted[6 + PrintedFrom(i)] / 16] as int
            && r.text[DigitAt(i) + 1] == "0123456789abcdef"[formatted[6 + PrintedFrom(i)] % 16] as int
  {
    hide Serialize, SerializeAll, StringSet, SmbiosUuid, UuidText, MixedEndian, DigitAt, PrintedFrom, FirstUuid;
    var first, second, last := Structure(kind, handle, [text]), Structure(1, formatted, []), Structure(127, [0, 0], []);
    TwoStructures(first, second);
    SerializedBytes(kind, handle, text, formatted);
    ConcatAssoc(header, Serialize(first), Serialize(second));
    WalkRefinesTable(header, [first, second], last, trailing);
    IdentifierDigits(formatted, i);
  }

  lemma IdentifierDigits(formatted: bytes, i: nat)
    requires |formatted| == 25 && i < 16
    ensures var t := UuidText(MixedEndian(formatted[6..22]));
            && t[8] == t[13] == t[18] == t[23] == 45
            && DigitAt(i) + 1 < 36
            && t[DigitAt(i)] == "0123456789abcdef"[formatted[6 + PrintedFrom(i)] / 16] as int
            && t[DigitAt(i) + 1] == "0123456789abcdef"[formatted[6 + PrintedFrom(i)] % 16] as int
  {
    var v := MixedEndian(formatted[6..22]);
    assert v[i] == formatted[6..22][PrintedFrom(i)];
    hide UuidText;
    UuidGroups(v);
    UuidDigitsAt(v, i);
  }

  /** The stored byte that is printed at place `i`. */
  function PrintedFrom(i: nat): nat
    requires i < 16
  {
    if i < 4 then 3 - i else if i < 6 then 9 - i else if i < 8 then 13 - i else i
  }

  lemma SerializedBytes(kind: byte, handle: bytes, text: bytes, formatted: bytes)
    requires |handle| == 2 && ValidString(text) && |formatted| == 25
    ensures Serialize(Structure(kind, handle, [text])) == [kind, 4] + handle + text + [0, 0]
    ensures Serialize(Structure(1, formatted, [])) == [1, 27] + formatted + [0, 0]
    ensures Serialize(Structure(127, [0, 0], [])) == [127, 4, 0, 0, 0, 0]
  {
    assert [text][1..] == [];
    assert Terminated([text]) == text + [0] + [];
    assert Terminated([text]) + [0] == text + [0, 0];
  }

  lemma TwoStructures(a: Structure, b: Structure)
    requires a.Valid() && b.Valid() && a.kind != 127 && b.kind == 1 && |a.formatted| == 2 && |b.formatted| == 25
    ensures SerializeAll([a, b]) == Serialize(a) + Serialize(b)
    ensures FirstUuid([a, b]) == Uuid(UuidText(MixedEndian(b.formatted[6..22])))
  {
    hide Serialize;
    assert [a, b][1..] == [b] && [b][1..] == [];
    assert SerializeAll([b]) == Serialize(b) + SerializeAll([]) && Serialize(b) + [] == Serialize(b);
    assert SerializeAll([a, b]) == Serialize(a) + SerializeAll([b]);
  }

  lemma {:induction false} UuidNeedsRoom(ts: seq<Structure>)
    requires forall t | t in ts :: t.Valid()
    ensures FirstUuid(ts) != NoUuid ==> |SerializeAll(ts)| >= 27
    ensures FirstUuid(ts) != ReadPastEnd
  {
    if ts != [] { UuidNeedsRoom(ts[1..]); }
  }

  // ---------------------------------------------------------------- arbitrary buffers

  /** The positions one walk visits: each is passed over to the next. */
  ghost predicate Trail(s: bytes, trail: seq<nat>) {
    && trail != [] && trail[0] == 8
    && forall i | 0 <= i < |trail| - 1 :: Passed(s, trail[i], trail[i + 1])
  }

  ghost predicate Passed(s: bytes, off: nat, next: nat) {
    && off + 4 < |s| && s[off] != 127 && !(s[off] == 1 && s[off + 1] >= 25)
    && next >= 2 && FirstStop(s, off + s[off + 1], next - 2)
  }

  /** A system-information structure whose identifier is cut off by the end of the buffer. */
  ghost predicate CutOff(s: bytes, off: nat) {
    off + 4 < |s| < off + 24 && s[off] == 1 && s[off + 1] >= 25
  }

  /** The UUID bytes would be read outside the buffer exactly when the walk arrives at a cut-off
      system-information structure. */
  lemma ReadsPastEndIff(s: bytes)
    requires |s| >= 32
    ensures SmbiosUuid(s) == ReadPastEnd <==> exists trail :: Trail(s, trail) && CutOff(s, trail[|trail| - 1])
  {
    if SmbiosUuid(s) == ReadPastEnd {
      var trail := TrailTo(s, [HEADER]);
    }
    forall trail | Trail(s, trail) && CutOff(s, trail[|trail| - 1]) ensures SmbiosUuid(s) == ReadPastEnd {
      WalkAlong(s, trail, |trail| - 1);
    }
  }

  /** Such buffers exist: a four-byte structure, then a system-information structure in the last 18 of 32 bytes. */
  lemma CutOffStructureIsReached(s: bytes)
    requires |s| == 32 && s[8] == 0 && s[9] == 4 && s[12] == 0 && s[13] == 0
    requires s[14] == 1 && s[15] == 25
    ensures SmbiosUuid(s) == ReadPastEnd
  {
    assert SkipStrings(s, 12) == 12;
    assert Next(s, HEADER) == 14;
    assert Walk(s, 14) == ReadPastEnd;
    assert Walk(s, HEADER) == Walk(s, Next(s, HEADER));
  }

  /** A check that needs no walk: where no place near the end looks like the start of a cut-off structure, nothing is
      read outside. */
  lemma NoCutOffNoOverread(s: bytes)
    requires forall k: nat :: !CutOff(s, k)
    ensures SmbiosUuid(s) != ReadPastEnd
  {
    if |s| >= 32 { ReadsPastEndIff(s); }
  }

  lemma TrailTo(s: bytes, done: seq<nat>) returns (trail: seq<nat>)
    requires Trail(s, done) && Walk(s, done[|done| - 1]) == ReadPastEnd
    ensures Trail(s, trail) && CutOff(s, trail[|trail| - 1])
    decreases |s| - done[|done| - 1]
  {
    var off := done[|done| - 1];
    if HoldsUuid(s, off) {
      trail := done;
    } else {
      SkipStringsIsFirst(s, off + s[off + 1]);
      assert Passed(s, off, Next(s, off));
      trail := TrailTo(s, done + [Next(s, off)]);
    }
  }

  lemma {:induction false} WalkAlong(s: bytes, trail: seq<nat>, i: nat)
    requires Trail(s, trail) && i < |trail|
    ensures Walk(s, trail[i]) == Walk(s, HEADER)
  {
    if i > 0 {
      WalkAlong(s, trail, i - 1);
      assert Passed(s, trail[i - 1], trail[i]);
      SkipStringsIsFirst(s, trail[i - 1] + s[trail[i - 1] + 1]);
    }
  }
}
