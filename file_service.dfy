/**
 * The backend's file service: the acceptance rule for uploads, where an
 * upload is saved, and the unit a byte count is shown in. Hashing is a
 * parameter; the file system is a map from path to contents.
 */
module FileService {
  import opened Common

  /** The defaults of MAX_FILE_SIZE and ALLOWED_EXTENSIONS. */
  const MaxFileSize: nat := 10 * 1024 * 1024
  const AllowedExtensions: seq<string> := [".pdf", ".doc", ".docx", ".txt", ".jpg", ".jpeg", ".png"]

  /** The position of the last `c` in `s`. */
  function LastIndexOf(s: string, c: char): (r: Option<nat>)
    ensures r.None? <==> c !in s
    ensures r.Some? ==> r.value < |s| && s[r.value] == c && c !in s[r.value + 1..]
  {
    if s == [] then None
    else if s[|s| - 1] == c then Some(|s| - 1)
    else
      var r := LastIndexOf(s[..|s| - 1], c);
      LastIndexOfStep(s, c, r);
      r
  }

  /** The last `c` of a string that does not end in `c` is the last `c` before its final character. */
  lemma LastIndexOfStep(s: string, c: char, r: Option<nat>)
    requires s != [] && s[|s| - 1] != c
    requires r.None? <==> c !in s[..|s| - 1]
    requires r.Some? ==> r.value < |s| - 1 && s[..|s| - 1][r.value] == c && c !in s[..|s| - 1][r.value + 1..]
    ensures r.None? <==> c !in s
    ensures r.Some? ==> r.value < |s| && s[r.value] == c && c !in s[r.value + 1..]
  {
    assert s == s[..|s| - 1] + [s[|s| - 1]];
    if r.Some? {
      assert s[r.value + 1..] == s[..|s| - 1][r.value + 1..] + [s[|s| - 1]];
    }
  }

  /** The final component of a POSIX path (what follows the last '/'). */
  function BaseName(path: string): (name: string)
    ensures '/' !in name
    ensures |name| <= |path| && path[|path| - |name|..] == name
  {
    match LastIndexOf(path, '/')
    case None => path
    case Some(i) => path[i + 1..]
  }

  /**
   * pathlib's `suffix`: from the last '.' of the final component, provided
   * that dot is neither its first nor its last character; otherwise "".
   */
  function Suffix(filename: string): (r: string)
    ensures r != "" ==> |r| >= 2 && r[0] == '.' && '.' !in r[1..] && '/' !in r
    ensures |r| <= |filename| && filename[|filename| - |r|..] == r
  {
    var name := BaseName(filename);
    var dot := LastIndexOf(name, '.');
    if dot.Some? && 0 < dot.value < |name| - 1 then
      SuffixFacts(filename, name, dot.value);
      name[dot.value..]
    else ""
  }

  lemma SuffixFacts(filename: string, name: string, i: nat)
    requires |name| <= |filename| && filename[|filename| - |name|..] == name && '/' !in name
    requires 0 < i < |name| - 1 && name[i] == '.' && '.' !in name[i + 1..]
    ensures var r := name[i..];
      |r| >= 2 && r[0] == '.' && '.' !in r[1..] && '/' !in r && filename[|filename| - |r|..] == r
  {
    TailOfTail(filename, name, i);
    assert name[i..][1..] == name[i + 1..];
    forall k | 0 <= k < |name[i..]| ensures name[i..][k] != '/' {
      assert name[i..][k] == name[i + k];
    }
  }

  /** A tail of a tail of a string is a tail of it. */
  lemma TailOfTail(s: string, t: string, i: nat)
    requires |t| <= |s| && s[|s| - |t|..] == t && i <= |t|
    ensures s[|s| - |t[i..]|..] == t[i..]
  {
    assert s[|s| - |t[i..]|..] == s[|s| - |t|..][i..];
  }

  /** A '.' with no '.' after it is the last one. */
  lemma LastIndexOfAt(s: string, c: char, i: nat)
    requires i < |s| && s[i] == c && c !in s[i + 1..]
    ensures LastIndexOf(s, c) == Some(i)
  {
    assert c in s;
  }

  /** is_valid_file: the size test first, then the lower-cased suffix's membership. */
  function IsValidFile(size: int, filename: string): (ok: bool)
    ensures ok <==> size <= MaxFileSize && ToLower(Suffix(filename)) in AllowedExtensions
  {
    if size > MaxFileSize then false
    else ToLower(Suffix(filename)) in AllowedExtensions
  }

  /** A name without '/' is its own final component. */
  lemma BaseNameOfPlainName(s: string)
    requires '/' !in s
    ensures BaseName(s) == s
  {
  }

  /** The suffix of a plain name whose last '.' sits at `i`, strictly inside it. */
  lemma SuffixAt(s: string, i: nat)
    requires '/' !in s && 0 < i < |s| - 1 && s[i] == '.' && '.' !in s[i + 1..]
    ensures Suffix(s) == s[i..]
  {
    BaseNameOfPlainName(s);
    LastIndexOfAt(s, '.', i);
  }

  /** A plain name whose last '.' is its first or its last character has no suffix. */
  lemma NoSuffixAtEdge(s: string, i: nat)
    requires '/' !in s && i < |s| && s[i] == '.' && '.' !in s[i + 1..] && (i == 0 || i == |s| - 1)
    ensures Suffix(s) == ""
  {
    BaseNameOfPlainName(s);
    LastIndexOfAt(s, '.', i);
  }

  /** ".PDF" passes because the suffix is lower-cased first; exactly 10 MiB passes. */
  lemma UpperCaseExtensionAccepted()
    ensures Suffix("SCAN.PDF") == ".PDF"
    ensures IsValidFile(MaxFileSize, "SCAN.PDF")
    ensures !IsValidFile(MaxFileSize + 1, "scan.pdf")
  {
    assert "SCAN.PDF"[5..] == "PDF";
    SuffixAt("SCAN.PDF", 4);
    assert "SCAN.PDF"[4..] == ".PDF";
    assert ToLower(".PDF") == ".pdf";
  }

  /** A leading-dot name or a trailing dot has no suffix, so it is refused. */
  lemma DotEdgeCasesRefused()
    ensures Suffix(".pdf") == "" && !IsValidFile(0, ".pdf")
    ensures Suffix("scan.") == "" && !IsValidFile(0, "scan.")
  {
    assert ".pdf"[1..] == "pdf";
    NoSuffixAtEdge(".pdf", 0);
    assert "scan."[5..] == "";
    NoSuffixAtEdge("scan.", 4);
    assert ToLower("") == "";
  }

  /**
   * save_file's target: `<dir>/<user id>/<digest of filename + user id><suffix>`,
   * the digest being a parameter. The suffix keeps its case.
   */
  function SavePath(uploadDir: string, filename: string, userId: nat, digest: string -> string): (p: string)
    ensures var userDir := uploadDir + "/" + NatToString(userId) + "/";
      |userDir| <= |p| && p[..|userDir|] == userDir
  {
    var name := digest(filename + NatToString(userId)) + Suffix(filename);
    StartsWithUserDir(uploadDir + "/", NatToString(userId), name);
    (uploadDir + "/") + (NatToString(userId) + ("/" + name))
  }

  /** `<dir><user>/` is a prefix of `<dir><user>/<name>`. */
  lemma StartsWithUserDir(dir: string, user: string, name: string)
    ensures var p := dir + (user + ("/" + name));
      |dir + user + "/"| <= |p| && p[..|dir + user + "/"|] == dir + user + "/"
  {
    assert dir + (user + ("/" + name)) == (dir + user + "/") + name;
  }

  /** The saved name ends with the suffix as given, even when validation lower-cased it. */
  lemma SavedSuffixKeepsCase(uploadDir: string, filename: string, userId: nat, digest: string -> string)
    ensures var p := SavePath(uploadDir, filename, userId, digest);
      |p| >= |Suffix(filename)| && p[|p| - |Suffix(filename)|..] == Suffix(filename)
  {
    PathEndsWith(uploadDir + "/", NatToString(userId), digest(filename + NatToString(userId)), Suffix(filename));
  }

  lemma PathEndsWith(dir: string, d: string, name: string, suffix: string)
    ensures var p := dir + (d + ("/" + (name + suffix)));
      |suffix| <= |p| && p[|p| - |suffix|..] == suffix
  {
    EndsWithExtend(name, suffix, suffix);
    EndsWithExtend("/", name + suffix, suffix);
    EndsWithExtend(d, "/" + (name + suffix), suffix);
    EndsWithExtend(dir, d + ("/" + (name + suffix)), suffix);
  }

  /** A string ending with `tail` still does after anything is put in front. */
  lemma EndsWithExtend(a: string, r: string, tail: string)
    requires |tail| <= |r| && r[|r| - |tail|..] == tail
    ensures |tail| <= |a + r| && (a + r)[|a + r| - |tail|..] == tail
  {
    assert (a + r)[|a|..] == r;
    assert (a + r)[|a + r| - |tail|..] == (a + r)[|a|..][|r| - |tail|..];
  }

  /** Two users never share a path: the user's directory is part of it. */
  lemma UsersSaveApart(uploadDir: string, f1: string, f2: string, u1: nat, u2: nat, digest: string -> string)
    requires u1 != u2
    ensures SavePath(uploadDir, f1, u1, digest) != SavePath(uploadDir, f2, u2, digest)
  {
    var prefix := uploadDir + "/";
    var d1, d2 := NatToString(u1), NatToString(u2);
    var rest1 := "/" + (digest(f1 + d1) + Suffix(f1));
    var rest2 := "/" + (digest(f2 + d2) + Suffix(f2));
    RenderingInjective(u1, u2);
    if prefix + (d1 + rest1) == prefix + (d2 + rest2) {
      DigitsThenSlash(prefix, d1, d2, rest1, rest2);
    }
  }

  /** A run of digits between a common prefix and a '/' is read back unambiguously. */
  lemma DigitsThenSlash(prefix: string, d1: string, d2: string, rest1: string, rest2: string)
    requires forall i :: 0 <= i < |d1| ==> '0' <= d1[i] <= '9'
    requires forall i :: 0 <= i < |d2| ==> '0' <= d2[i] <= '9'
    requires rest1 != [] && rest1[0] == '/' && rest2 != [] && rest2[0] == '/'
    requires prefix + (d1 + rest1) == prefix + (d2 + rest2)
    ensures d1 == d2
  {
    assert (prefix + (d1 + rest1))[|prefix|..] == d1 + rest1;
    assert (prefix + (d2 + rest2))[|prefix|..] == d2 + rest2;
    assert (d1 + rest1)[..|d1|] == d1;
    assert (d2 + rest2)[..|d2|] == d2;
  }

  /** The upload directory: saved files by path. */
  class UploadDirectory {
    const uploadDir: string
    var files: map<string, seq<bv8>>

    constructor (dir: string)
      ensures uploadDir == dir && files == map[]
    {
      uploadDir := dir;
      files := map[];
    }

    /**
     * save_file: the contents go to the computed path, replacing whatever a
     * previous upload of the same name by the same user left there.
     */
    method SaveFile(contents: seq<bv8>, filename: string, userId: nat, digest: string -> string)
      returns (path: string)
      modifies this
      ensures path == SavePath(uploadDir, filename, userId, digest)
      ensures files == old(files)[path := contents]
    {
      path := SavePath(uploadDir, filename, userId, digest);
      files := files[path := contents];
    }
  }

  /**
   * Saving the same name twice for one user writes both uploads to one
   * path, and the second replaces the first: only the second's contents
   * remain, and no other file changes.
   */
  method ResaveOverwrites(dir: UploadDirectory, filename: string, userId: nat, digest: string -> string,
                          first: seq<bv8>, second: seq<bv8>)
    returns (firstPath: string, secondPath: string)
    modifies dir
    ensures firstPath == secondPath == SavePath(dir.uploadDir, filename, userId, digest)
    ensures dir.files == old(dir.files)[secondPath := second]
  {
    ghost var before := dir.files;
    firstPath := dir.SaveFile(first, filename, userId, digest);
    secondPath := dir.SaveFile(second, filename, userId, digest);
    OverwriteTwice(before, firstPath, first, second);
  }

  /** A second write to a key replaces the first. */
  lemma OverwriteTwice<K, V>(m: map<K, V>, k: K, a: V, b: V)
    ensures m[k := a][k := b] == m[k := b]
  {
  }

  // ---------------------------------------------------------------------------
  // format_file_size
  // ---------------------------------------------------------------------------

  const SizeNames: seq<string> := ["B", "KB", "MB", "GB", "TB"]

  function Pow1024(k: nat): (r: nat)
    ensures r >= 1
  {
    if k == 0 then 1 else 1024 * Pow1024(k - 1)
  }

  /** The unit search from index k upwards. */
  function UnitFrom(size: int, k: nat): (r: nat)
    requires k <= 4 && (k > 0 ==> size >= Pow1024(k))
    ensures k <= r <= 4
    ensures r > 0 ==> size >= Pow1024(r)
    ensures r < 4 ==> size < Pow1024(r + 1)
    decreases 4 - k
  {
    if k < 4 && size >= Pow1024(k + 1) then UnitFrom(size, k + 1) else k
  }

  /** min(4, the largest k with size >= 1024^k); 0 for sizes below 1. */
  function UnitIndex(size: int): (k: nat)
    ensures k <= 4
    ensures k > 0 ==> size >= Pow1024(k)
    ensures k < 4 ==> size < Pow1024(k + 1)
  {
    UnitFrom(size, 0)
  }

  /** The unit chosen is TB for every size of one TiB or more: there is no larger unit. */
  lemma NoUnitBeyondTerabytes(size: int)
    requires size >= Pow1024(4)
    ensures UnitIndex(size) == 4 && SizeNames[UnitIndex(size)] == "TB"
  {
  }

  /** The unit is determined by the thresholds: 1023 is bytes, 1024 is kilobytes, 1 MiB megabytes. */
  lemma UnitThresholds()
    ensures UnitIndex(1023) == 0 && UnitIndex(1024) == 1 && UnitIndex(1024 * 1024) == 2
  {
    assert Pow1024(1) == 1024 && Pow1024(2) == 1024 * 1024 && Pow1024(3) == 1024 * 1024 * 1024;
  }

  /** What format_file_size renders: "0B", or an amount (shown to one decimal) and a unit. */
  datatype SizeLabel = ZeroBytes | Scaled(amount: real, unit: string)

  /** format_file_size: divide by 1024 while possible and a larger unit remains. */
  method FormatFileSize(sizeBytes: int) returns (shown: SizeLabel)
    ensures sizeBytes == 0 <==> shown == ZeroBytes
    ensures sizeBytes != 0 ==>
              shown == Scaled(sizeBytes as real / Pow1024(UnitIndex(sizeBytes)) as real,
                              SizeNames[UnitIndex(sizeBytes)])
  {
    if sizeBytes == 0 {
      return ZeroBytes;
    }
    var size: real := sizeBytes as real;
    var i: nat := 0;
    while size >= 1024.0 && i < |SizeNames| - 1
      invariant i <= 4
      invariant i > 0 ==> sizeBytes >= Pow1024(i)
      invariant size == sizeBytes as real / Pow1024(i) as real
      invariant UnitFrom(sizeBytes, i) == UnitIndex(sizeBytes)
      decreases 4 - i
    {
      ScaleStep(sizeBytes, i);
      size := size / 1024.0;
      i := i + 1;
    }
    ScaleStep(sizeBytes, i);
    return Scaled(size, SizeNames[i]);
  }

  /** One division by 1024 moves to the next power, and compares like the integer threshold. */
  lemma ScaleStep(sizeBytes: int, i: nat)
    ensures (sizeBytes as real / Pow1024(i) as real) / 1024.0 == sizeBytes as real / Pow1024(i + 1) as real
    ensures sizeBytes as real / Pow1024(i) as real >= 1024.0 <==> sizeBytes >= Pow1024(i + 1)
  {
    var p := Pow1024(i) as real;
    assert Pow1024(i + 1) as real == p * 1024.0;
    var x := sizeBytes as real;
    assert x / p >= 1024.0 <==> x >= p * 1024.0 by {
      assert (x / p) * p == x;
    }
  }
}
