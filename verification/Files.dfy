/** The file system as a map from path to contents, and the paths the programs use. Writes are atomic. */
module Files {
  import opened Bytes

  type FileMap = map<bytes, bytes>

  class FileSystem {
    var files: FileMap

    constructor ()
      ensures files == map[]
    {
      files := map[];
    }

    method Read(path: bytes) returns (r: Option<bytes>)
      ensures r == if path in files then Some(files[path]) else None
    {
      if path in files { return Some(files[path]); }
      return None;
    }

    method Write(path: bytes, data: bytes)
      modifies this
      ensures files == old(files)[path := data]
    {
      files := files[path := data];
    }

    method Remove(path: bytes)
      modifies this
      ensures files == old(files) - {path}
    {
      files := files - {path};
    }
  }

  // ---------------------------------------------------------------- path syntax

  const SLASH: byte := 47

  /** `operator/` on paths: an absolute right side wins, and no second separator is added. */
  function Join(dir: bytes, name: bytes): bytes {
    if name != [] && name[0] == SLASH then name
    else if dir == [] || dir[|dir| - 1] == SLASH then dir + name
    else dir + [SLASH] + name
  }

  function Filename(path: bytes): bytes {
    path[RFind(path, SLASH) + 1..]
  }

  /** `path::stem`: the file name up to its last dot, unless that dot comes first or the name is "." or "..". */
  function Stem(path: bytes): bytes {
    var name := Filename(path);
    var dot := RFind(name, DOT);
    if name == [DOT] || name == [DOT, DOT] || dot <= 0 then name else name[..dot]
  }

  // ---------------------------------------------------------------- the layout below the home directory

  const SECRET_NAME := Ascii(".machine_secret")
  const DEVKEY := Ascii(".devkey")
  const SEALED := Ascii(".sealed")
  const LIC := Ascii(".lic")

  function StoreDir(home: bytes): bytes {
    Join(Join(home, Ascii(".config")), Ascii("license-system"))
  }

  function ClientDir(home: bytes): bytes {
    Join(StoreDir(home), Ascii("client"))
  }

  function SecretPath(home: bytes): bytes {
    Join(StoreDir(home), SECRET_NAME)
  }

  function DevKeyPath(home: bytes, product: bytes): bytes {
    Join(StoreDir(home), product + DEVKEY)
  }

  function SealPath(home: bytes, aLabel: bytes): bytes {
    Join(StoreDir(home), aLabel + SEALED)
  }

  function LicPath(home: bytes, product: bytes): bytes {
    Join(ClientDir(home), product + LIC)
  }

  /** The product names the claims are about: not empty, without a path separator, and without the zero byte, at which a
      system call ends a path. */
  predicate NameOk(p: bytes) {
    p != [] && SLASH !in p && 0 !in p
  }

  lemma JoinName(dir: bytes, name: bytes)
    requires dir != [] && dir[|dir| - 1] != SLASH && NameOk(name)
    ensures Join(dir, name) == dir + [SLASH] + name
    ensures Filename(Join(dir, name)) == name
  {
    RFindIs(dir + [SLASH] + name, SLASH, |dir|);
  }

  /** Neither directory ends in a separator. */
  lemma DirsAreOpen(home: bytes)
    ensures var d := StoreDir(home); d != [] && d[|d| - 1] != SLASH
    ensures var d := ClientDir(home); d != [] && d[|d| - 1] != SLASH
  {
    JoinLast(Join(home, Ascii(".config")), Ascii("license-system"));
    JoinLast(StoreDir(home), Ascii("client"));
  }

  lemma JoinLast(dir: bytes, name: bytes)
    requires name != []
    ensures var j := Join(dir, name); j != [] && j[|j| - 1] == name[|name| - 1]
  {
  }

  /** No suffix holds a separator, and they end in four different letters. */
  lemma SuffixFacts()
    ensures forall c | c in DEVKEY + SEALED + LIC :: c != SLASH && c != 0
    ensures SECRET_NAME[|SECRET_NAME| - 1] == 116 && DEVKEY[|DEVKEY| - 1] == 121
    ensures SEALED[|SEALED| - 1] == 100 && LIC[|LIC| - 1] == 99
    ensures DEVKEY[0] == DOT && DOT !in DEVKEY[1..]
  {
    assert DEVKEY == [46, 100, 101, 118, 107, 101, 121];
    assert SEALED == [46, 115, 101, 97, 108, 101, 100];
    assert LIC == [46, 108, 105, 99];
  }

  /** A product's file with the given suffix, in terms of directory, separator and name. */
  lemma NamedPath(home: bytes, product: bytes, suffix: bytes)
    requires NameOk(product) && forall c | c in suffix :: c != SLASH && c != 0
    ensures Join(StoreDir(home), product + suffix) == StoreDir(home) + [SLASH] + (product + suffix)
    ensures Join(ClientDir(home), product + suffix) == ClientDir(home) + [SLASH] + (product + suffix)
    ensures Filename(Join(StoreDir(home), product + suffix)) == product + suffix
  {
    DirsAreOpen(home);
    hide StoreDir, ClientDir, Join, Filename;
    JoinName(StoreDir(home), product + suffix);
    JoinName(ClientDir(home), product + suffix);
  }

  lemma SameSuffix(dir: bytes, p: bytes, q: bytes, suffix: bytes)
    requires dir + [SLASH] + (p + suffix) == dir + [SLASH] + (q + suffix)
    ensures p == q
  {
    var s, t := dir + [SLASH] + (p + suffix), dir + [SLASH] + (q + suffix);
    assert p == s[|dir| + 1..|s| - |suffix|] && q == t[|dir| + 1..|t| - |suffix|];
  }

  /** The four kinds of file never coincide, and within a kind the name determines the file. */
  lemma PathsAreDisjoint(home: bytes, p: bytes, q: bytes)
    requires NameOk(p) && NameOk(q)
    ensures DevKeyPath(home, p) == DevKeyPath(home, q) <==> p == q
    ensures LicPath(home, p) == LicPath(home, q) <==> p == q
    ensures SealPath(home, p) == SealPath(home, q) <==> p == q
    ensures SecretPath(home) != DevKeyPath(home, p) && SecretPath(home) != LicPath(home, p)
    ensures SecretPath(home) != SealPath(home, p)
    ensures DevKeyPath(home, p) != LicPath(home, q) && DevKeyPath(home, p) != SealPath(home, q)
    ensures LicPath(home, p) != SealPath(home, q)
  {
    LastBytes(home, p);
    LastBytes(home, q);
    SuffixFacts();
    hide StoreDir, ClientDir, Join;
    if DevKeyPath(home, p) == DevKeyPath(home, q) {
      NamedPath(home, p, DEVKEY);
      NamedPath(home, q, DEVKEY);
      SameSuffix(StoreDir(home), p, q, DEVKEY);
    }
    if LicPath(home, p) == LicPath(home, q) {
      NamedPath(home, p, LIC);
      NamedPath(home, q, LIC);
      SameSuffix(ClientDir(home), p, q, LIC);
    }
    if SealPath(home, p) == SealPath(home, q) {
      NamedPath(home, p, SEALED);
      NamedPath(home, q, SEALED);
      SameSuffix(StoreDir(home), p, q, SEALED);
    }
  }

  /** The kinds differ in their last letter: t, y, d and c. */
  lemma LastBytes(home: bytes, p: bytes)
    ensures var s := SecretPath(home); s != [] && s[|s| - 1] == 116
    ensures var s := DevKeyPath(home, p); s != [] && s[|s| - 1] == 121
    ensures var s := SealPath(home, p); s != [] && s[|s| - 1] == 100
    ensures var s := LicPath(home, p); s != [] && s[|s| - 1] == 99
  {
    SuffixFacts();
    hide StoreDir, ClientDir, Join;
    JoinLast(StoreDir(home), SECRET_NAME);
    JoinLast(StoreDir(home), p + DEVKEY);
    JoinLast(StoreDir(home), p + SEALED);
    JoinLast(ClientDir(home), p + LIC);
  }

  /** The name a device key was made for is the stem of its path. */
  lemma StemOfDevKeyPath(home: bytes, product: bytes)
    requires NameOk(product)
    ensures Stem(DevKeyPath(home, product)) == product
  {
    SuffixFacts();
    hide StoreDir, Join, Filename;
    NamedPath(home, product, DEVKEY);
    var name := product + DEVKEY;
    assert name[|product|] == DOT;
    forall k | |product| < k < |name| ensures name[k] != DOT {
      assert name[k] == DEVKEY[1..][k - |product| - 1];
    }
    RFindIs(name, DOT, |product|);
  }

  /** The files of a home directory, written out. */
  lemma PathsAre(home: bytes, name: bytes)
    requires NameOk(name)
    ensures var base := if home == [] || home[|home| - 1] == 47 then home else home + [47];
            && SecretPath(home) == base + Ascii(".config/license-system/.machine_secret")
            && DevKeyPath(home, name) == base + Ascii(".config/license-system/") + name + Ascii(".devkey")
            && SealPath(home, name) == base + Ascii(".config/license-system/") + name + Ascii(".sealed")
            && LicPath(home, name) == base + Ascii(".config/license-system/client/") + name + Ascii(".lic")
  {
    hide Join, Ascii, NameOk, StoreDir, ClientDir, SecretPath, DevKeyPath, SealPath, LicPath;
    var base := if home == [] || home[|home| - 1] == 47 then home else home + [47];
    StoreDirIs(home);
    NamedFiles(home, name);
    SlashAfter(base, ".config/license-system", ".machine_secret");
    SlashAfter(base, ".config/license-system/client", "");
    assert ".config/license-system" + "/" == ".config/license-system/";
    assert ".config/license-system/" + ".machine_secret" == ".config/license-system/.machine_secret";
    assert ".config/license-system/client" + "/" == ".config/license-system/client/";
  }

  lemma SlashAfter(base: bytes, dir: string, name: string)
    ensures base + Ascii(dir) + [47] == base + Ascii(dir + "/")
    ensures base + Ascii(dir) + ([47] + Ascii(name)) == base + Ascii(dir + "/" + name)
  {
    AsciiConcat(dir, "/");
    AsciiConcat(dir + "/", name);
    assert Ascii("/") == [47];
    hide Ascii;
    ConcatAssoc(base, Ascii(dir), [47]);
    ConcatAssoc(base + Ascii(dir), [47], Ascii(name));
    ConcatAssoc(base, Ascii(dir) + [47], Ascii(name));
  }

  lemma StoreDirIs(home: bytes)
    ensures var base := if home == [] || home[|home| - 1] == 47 then home else home + [47];
            && StoreDir(home) == base + Ascii(".config/license-system")
            && ClientDir(home) == base + Ascii(".config/license-system/client")
  {
    Ends();
    FirstDir(home);
    hide Ascii, Join;
    var base := if home == [] || home[|home| - 1] == 47 then home else home + [47];
    DirBelow(base, ".config", "license-system");
    DirBelow(base, ".config/license-system", "client");
    assert ".config" + "/" + "license-system" == ".config/license-system";
    assert ".config/license-system" + "/" + "client" == ".config/license-system/client";
  }

  lemma FirstDir(home: bytes)
    ensures var base := if home == [] || home[|home| - 1] == 47 then home else home + [47];
            Join(home, Ascii(".config")) == base + Ascii(".config")
  {
    Ends();
    hide Ascii;
  }

  /** First and last letters of the directory names. */
  lemma Ends()
    ensures Ascii(".config")[0] == 46 && Ascii(".config")[6] == 103
    ensures Ascii("license-system")[0] == 108 && Ascii(".config/license-system")[21] == 109
    ensures Ascii("client")[0] == 99
  {
  }

  lemma DirBelow(base: bytes, dir: string, name: string)
    requires dir != "" && name != "" && Ascii(dir)[|dir| - 1] != 47 && Ascii(name)[0] != 47
    ensures Join(base + Ascii(dir), Ascii(name)) == base + Ascii(dir + "/" + name)
  {
    SlashAfter(base, dir, name);
    hide Ascii;
  }

  lemma NamedFiles(home: bytes, name: bytes)
    requires NameOk(name)
    ensures SecretPath(home) == StoreDir(home) + ([47] + Ascii(".machine_secret"))
    ensures DevKeyPath(home, name) == StoreDir(home) + [47] + name + Ascii(".devkey")
    ensures SealPath(home, name) == StoreDir(home) + [47] + name + Ascii(".sealed")
    ensures LicPath(home, name) == ClientDir(home) + [47] + name + Ascii(".lic")
  {
    SuffixFacts();
    DirsAreOpen(home);
    assert SECRET_NAME[0] == 46;
    hide StoreDir, ClientDir, Ascii;
  }

  /** The stem of a path: its file name, or that up to the last dot if the dot is not the first character. */
  lemma StemIs(dir: bytes, stem: bytes, ext: bytes)
    requires 47 !in stem && 47 !in ext && 46 !in ext
    ensures stem != [] && !(stem == [46] && ext == []) ==> Stem(dir + [47] + (stem + [46] + ext)) == stem
    ensures ext != [] ==> Stem(dir + [47] + ([46] + ext)) == [46] + ext
    ensures Stem(dir + [47] + ext) == ext
  {
    FilenameIs(dir, stem + [46] + ext);
    FilenameIs(dir, [46] + ext);
    FilenameIs(dir, ext);
    LastDot(stem, ext);
    LastDot([], ext);
    RFindIs(ext, 46, -1);
    assert [] + [46] + ext == [46] + ext;
    hide Filename, RFind;
  }

  lemma FilenameIs(dir: bytes, name: bytes)
    requires 47 !in name
    ensures Filename(dir + [47] + name) == name
  {
    hide RFind;
    var p := dir + [47] + name;
    forall k | |dir| < k < |p| ensures p[k] != 47 { assert p[k] == name[k - |dir| - 1] && p[k] in name; }
    RFindIs(p, 47, |dir|);
  }

  lemma LastDot(stem: bytes, ext: bytes)
    requires 46 !in ext
    ensures RFind(stem + [46] + ext, 46) == |stem| && (stem + [46] + ext)[..|stem|] == stem
  {
    hide RFind;
    var n := stem + [46] + ext;
    assert n[|stem|] == 46 && n[..|stem|] == stem && n[|stem| + 1..] == ext;
    forall k | |stem| < k < |n| ensures n[k] != 46 {
      var rest := n[|stem| + 1..];
      assert rest[k - |stem| - 1] == n[k];
    }
    RFindIs(n, 46, |stem|);
  }
}
