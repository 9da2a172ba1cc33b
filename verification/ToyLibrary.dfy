/** A library that obeys every law of `Foreign`: the laws contradict nothing. Its JSON text is self-delimiting, so that
    equal texts come from equal values. */
module ToyLibrary {
  import opened Bytes
  import opened Foreign

  // ---------------------------------------------------------------- printing

  /** A 1 before every byte, a 0 at the end. */
  function PrintBytes(s: bytes): bytes {
    if s == [] then [0] else [1, s[0]] + PrintBytes(s[1..])
  }

  function PrintNat(n: nat): bytes {
    if n == 0 then [0] else [1] + PrintNat(n - 1)
  }

  function Abs(n: int): nat {
    if n < 0 then -n else n
  }

  const FIELDS: seq<Field> := [
    Field.product_id, Field.customer_hint, Field.fingerprint_hash, Field.fingerprint_assurance,
    Field.device_pubkey_b64, Field.timestamp, Field.nonce, Field.license_id, Field.features, Field.issued_at,
    Field.expires_at, Field.max_activations, Field.version, Field.tpm_sealed, Field.tpm_blob_b64, Field.payload_b64,
    Field.argon2id, Field.t_cost, Field.m_cost, Field.parallelism, Field.salt_b64, Field.server_x25519_pub,
    Field.server_ed25519_pub, Field.created_at, Field.server_x25519_priv_b64, Field.server_x25519_pub_b64,
    Field.server_ed25519_priv_b64, Field.server_ed25519_pub_b64]

  function Print(j: Json): (text: bytes)
    ensures text != []
    decreases j, |FIELDS| + 1
  {
    match j
    case JInt(n) => [if n < 0 then 0 else 1] + PrintNat(Abs(n))
    case JBool(b) => if b then [2] else [3]
    case JStr(s) => [4] + PrintBytes(s)
    case JArr(items) => [5] + PrintItems(items)
    case JObj(_) => [6] + PrintFields(j, FIELDS)
  }

  function PrintItems(items: seq<Json>): bytes {
    if items == [] then [0] else [1] + Print(items[0]) + PrintItems(items[1..])
  }

  /** For every key in order: 0 if it is absent, 1 and its value if it is there. */
  function PrintFields(j: Json, keys: seq<Field>): bytes
    requires j.JObj?
    decreases j, |keys|
  {
    if keys == [] then []
    else if keys[0] in j.fields then [1] + Print(j.fields[keys[0]]) + PrintFields(j, keys[1..])
    else [0] + PrintFields(j, keys[1..])
  }

  // ---------------------------------------------------------------- texts determine values

  /** Dropping the same beginning from both sides. */
  lemma Cancel(head: bytes, a: bytes, b: bytes)
    requires head + a == head + b
    ensures a == b
  {
    assert (head + a)[|head|..] == a && (head + b)[|head|..] == b;
  }

  lemma SameHead(head: bytes, a: bytes, x: bytes, b: bytes, y: bytes)
    requires head + a + x == head + b + y
    ensures a + x == b + y
  {
    ConcatAssoc(head, a, x);
    ConcatAssoc(head, b, y);
    Cancel(head, a + x, b + y);
  }

  lemma {:induction false} BytesDelimited(s: bytes, x: bytes, t: bytes, y: bytes)
    requires PrintBytes(s) + x == PrintBytes(t) + y
    ensures s == t && x == y
  {
    assert (PrintBytes(s) + x)[0] == PrintBytes(s)[0] && (PrintBytes(t) + y)[0] == PrintBytes(t)[0];
    if s == [] {
      Cancel([0], x, y);
    } else {
      assert (PrintBytes(s) + x)[1] == s[0] && (PrintBytes(t) + y)[1] == t[0];
      SameHead([1, s[0]], PrintBytes(s[1..]), x, PrintBytes(t[1..]), y);
      BytesDelimited(s[1..], x, t[1..], y);
      assert s == [s[0]] + s[1..] && t == [t[0]] + t[1..];
    }
  }

  lemma {:induction false} NatDelimited(m: nat, x: bytes, n: nat, y: bytes)
    requires PrintNat(m) + x == PrintNat(n) + y
    ensures m == n && x == y
  {
    assert (PrintNat(m) + x)[0] == PrintNat(m)[0] && (PrintNat(n) + y)[0] == PrintNat(n)[0];
    if m == 0 {
      Cancel([0], x, y);
    } else {
      SameHead([1], PrintNat(m - 1), x, PrintNat(n - 1), y);
      NatDelimited(m - 1, x, n - 1, y);
    }
  }

  /** Printed values are self-delimiting: two texts that start with one and agree start with the same one. */
  lemma {:induction false} Delimited(j: Json, x: bytes, k: Json, y: bytes)
    requires Print(j) + x == Print(k) + y
    ensures j == k && x == y
    decreases j, |FIELDS| + 1
  {
    assert (Print(j) + x)[0] == Print(j)[0] && (Print(k) + y)[0] == Print(k)[0];
    hide PrintNat, PrintBytes, PrintItems, PrintFields;
    match j
    case JInt(m) =>
      var head := [if m < 0 then 0 else 1];
      SameHead(head, PrintNat(Abs(m)), x, PrintNat(Abs(k.n)), y);
      NatDelimited(Abs(m), x, Abs(k.n), y);
    case JBool(b) => Cancel(Print(j), x, y);
    case JStr(s) =>
      SameHead([4], PrintBytes(s), x, PrintBytes(k.s), y);
      BytesDelimited(s, x, k.s, y);
    case JArr(items) =>
      SameHead([5], PrintItems(items), x, PrintItems(k.items), y);
      ItemsDelimited(items, x, k.items, y);
    case JObj(fields) =>
      SameHead([6], PrintFields(j, FIELDS), x, PrintFields(k, FIELDS), y);
      FieldsDelimited(j, x, k, y, FIELDS);
      EqualObjects(j, k);
  }

  lemma EqualObjects(j: Json, k: Json)
    requires j.JObj? && k.JObj?
    requires forall f | f in FIELDS ::
               (f in j.fields <==> f in k.fields) && (f in j.fields ==> j.fields[f] == k.fields[f])
    ensures j == k
  {
    AllFields();
    hide FIELDS;
    assert j.fields == k.fields;
  }

  lemma {:induction false} ItemsDelimited(a: seq<Json>, x: bytes, b: seq<Json>, y: bytes)
    requires PrintItems(a) + x == PrintItems(b) + y
    ensures a == b && x == y
    decreases a, 0
  {
    assert (PrintItems(a) + x)[0] == PrintItems(a)[0] && (PrintItems(b) + y)[0] == PrintItems(b)[0];
    if a == [] {
      Cancel([0], x, y);
    } else {
      TailAfter([1], Print(a[0]), PrintItems(a[1..]), x);
      TailAfter([1], Print(b[0]), PrintItems(b[1..]), y);
      Cancel([1], Print(a[0]) + (PrintItems(a[1..]) + x), Print(b[0]) + (PrintItems(b[1..]) + y));
      Delimited(a[0], PrintItems(a[1..]) + x, b[0], PrintItems(b[1..]) + y);
      ItemsDelimited(a[1..], x, b[1..], y);
      assert a == [a[0]] + a[1..] && b == [b[0]] + b[1..];
    }
  }

  lemma TailAfter(head: bytes, a: bytes, b: bytes, x: bytes)
    ensures head + a + b + x == head + (a + (b + x))
  {
    ConcatAssoc(head + a, b, x);
    ConcatAssoc(head, a, b + x);
  }

  lemma {:induction false} FieldsDelimited(j: Json, x: bytes, k: Json, y: bytes, keys: seq<Field>)
    requires j.JObj? && k.JObj? && PrintFields(j, keys) + x == PrintFields(k, keys) + y
    ensures x == y
    ensures forall f | f in keys :: (f in j.fields <==> f in k.fields) && (f in j.fields ==> j.fields[f] == k.fields[f])
    decreases j, |keys|
  {
    if keys == [] {
      Cancel([], x, y);
    } else {
      var f, rest, more := keys[0], PrintFields(j, keys[1..]), PrintFields(k, keys[1..]);
      assert (PrintFields(j, keys) + x)[0] == (if f in j.fields then 1 else 0);
      assert (PrintFields(k, keys) + y)[0] == (if f in k.fields then 1 else 0);
      if f in j.fields {
        TailAfter([1], Print(j.fields[f]), rest, x);
        TailAfter([1], Print(k.fields[f]), more, y);
        Cancel([1], Print(j.fields[f]) + (rest + x), Print(k.fields[f]) + (more + y));
        Delimited(j.fields[f], rest + x, k.fields[f], more + y);
      } else {
        SameHead([0], rest, x, more, y);
      }
      FieldsDelimited(j, x, k, y, keys[1..]);
    }
  }

  lemma AllFields()
    ensures forall f: Field :: f in FIELDS
  {
    forall f: Field ensures f in FIELDS {
      var at := Place(f);
      assert FIELDS[at] == f;
    }
  }

  function Place(f: Field): (i: nat)
    ensures i < |FIELDS| && FIELDS[i] == f
  {
    match f
    case product_id => 0
    case customer_hint => 1
    case fingerprint_hash => 2
    case fingerprint_assurance => 3
    case device_pubkey_b64 => 4
    case timestamp => 5
    case nonce => 6
    case license_id => 7
    case features => 8
    case issued_at => 9
    case expires_at => 10
    case max_activations => 11
    case version => 12
    case tpm_sealed => 13
    case tpm_blob_b64 => 14
    case payload_b64 => 15
    case argon2id => 16
    case t_cost => 17
    case m_cost => 18
    case parallelism => 19
    case salt_b64 => 20
    case server_x25519_pub => 21
    case server_ed25519_pub => 22
    case created_at => 23
    case server_x25519_priv_b64 => 24
    case server_x25519_pub_b64 => 25
    case server_ed25519_priv_b64 => 26
    case server_ed25519_pub_b64 => 27
  }

  // ---------------------------------------------------------------- the library

  /** The value a text was printed from. */
  ghost function Parse(s: bytes): Option<Json> {
    if exists j :: Print(j) == s then
      var j :| Print(j) == s;
      Some(j)
    else None
  }

  lemma ParseBack(j: Json)
    ensures Parse(Print(j)) == Some(j)
  {
    var k := Parse(Print(j)).value;
    Delimited(j, [], k, []);
  }

  /** All laws hold together: whatever a library does about hashing and key derivation, it extends to one that obeys
      them. */
  lemma LawsHaveAModel(lib: Library) returns (toy: Library)
    ensures Laws(toy)
  {
    var json := lib.(dump := (j: Json, indent: int) => Some(Print(j)), parse := (s: bytes) => Parse(s),
                     utf8 := (s: bytes) => true);
    forall j: Json ensures Parse(Print(j)) == Some(j) { ParseBack(j); }
    assert JsonLaws(json) by {
      hide Print, Parse;
    }
    toy := CryptoLawsHaveAModel(json);
  }
}
