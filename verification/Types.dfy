/**
 Store hashes, digests, store references and index entries, with the checks that
 every value read from a registry or a text has to pass.
 */
module Types {
  import opened Basics
  import opened Text

  /**
   What the cache is built on: SHA-256, the RFC 3339 reader, and the domain tags of its hashes.
   Every law holds for any such functions and tags; `Merkle.V8` gives the tags of the v8 schema.
   */
  datatype Platform = Platform(sha: seq<byte> -> Digest, instant: string -> Option<int>, tags: Tags)

  datatype Tags = Tags(
    entryLeaf: string, shardNode: string, shardRoot: string, descriptorLeaf: string, rootNode: string,
    rootRoot: string, emptySubtree: string)

  type Digest = d: seq<byte> | |d| == 32 witness seq(32, _ => 0)

  datatype TypeError =
    | StoreHashInvalidLength | StoreHashInvalidChar
    | NarDigestMissingPrefix | NarDigestInvalidAlgorithm | NarDigestInvalidHexLength | NarDigestInvalidHexChar
    | InvalidStorePathFormat

  // --- Store hashes ------------------------------------------------------------------

  type StoreHash = string

  predicate IsBase32(c: char) {
    IsDigit(c) || 'a' <= c <= 'd' || 'f' <= c <= 'n' || 'p' <= c <= 's' || 'v' <= c <= 'z'
  }

  predicate IsStoreHash(s: string) {
    |s| == 32 && forall i | 0 <= i < |s| :: IsBase32(s[i])
  }

  /** `StoreHash::parse`: the length in bytes is tested before the characters. */
  function ParseStoreHash(s: string): (r: Result<StoreHash, TypeError>)
    ensures r.Ok? <==> IsStoreHash(Trim(s))
    ensures r.Ok? ==> r.value == Trim(s)
  {
    var t := Trim(s);
    HashTestsAreComplete(t);
    if |Utf8(t)| != 32 then Err(StoreHashInvalidLength)
    else if exists i | 0 <= i < |t| :: !IsBase32(t[i]) then Err(StoreHashInvalidChar)
    else Ok(t)
  }

  /** A text of 32 bytes in the alphabet is a hash: the two tests leave no other case. */
  lemma HashTestsAreComplete(t: string)
    ensures IsStoreHash(t) <==> |Utf8(t)| == 32 && forall i | 0 <= i < |t| :: IsBase32(t[i])
  {
    if forall i | 0 <= i < |t| :: IsBase32(t[i]) {
      Utf8OfAscii(t);
    }
  }

  // --- Digests -------------------------------------------------------------------------

  function LowerChar(c: char): char {
    if 'A' <= c <= 'F' then c - 'A' + 'a' else c
  }

  predicate IsHexDigit(c: char) {
    IsLowerHex(c) || 'A' <= c <= 'F'
  }

  /** `NarDigest::parse`: the result is in lower case. */
  function ParseNarDigest(s: string): (r: Result<string, TypeError>) {
    match SplitOnce(Trim(s), ':')
    case None => Err(NarDigestMissingPrefix)
    case Some((algo, hex)) => ParseHex(algo, hex)
  }

  function ParseHex(algo: string, hex: string): (r: Result<string, TypeError>)
    ensures r.Ok? <==> algo == "sha256" && |hex| == 64 && forall i | 0 <= i < 64 :: IsHexDigit(hex[i])
    ensures r.Ok? ==> r.value == "sha256:" + LowerAll(hex)
  {
    if algo != "sha256" then Err(NarDigestInvalidAlgorithm)
    else if |Utf8(hex)| != 64 then
      (if |hex| == 64 && forall i | 0 <= i < 64 :: IsHexDigit(hex[i])
       then Utf8OfAscii(hex); assert false; Err(NarDigestInvalidHexLength)
       else Err(NarDigestInvalidHexLength))
    else if exists i | 0 <= i < |hex| :: !IsHexDigit(hex[i]) then Err(NarDigestInvalidHexChar)
    else
      Utf8OfAscii(hex);
      Ok("sha256:" + LowerAll(hex))
  }

  function LowerAll(s: string): string {
    seq(|s|, i requires 0 <= i < |s| => LowerChar(s[i]))
  }

  /** `sha256:` and 64 lower-case hexadecimal digits. */
  predicate IsCanonicalDigest(s: string) {
    |s| == 71 && "sha256:" <= s && forall i | 7 <= i < 71 :: IsLowerHex(s[i])
  }

  lemma NoColon(algo: string)
    requires algo == "sha256"
    ensures ':' !in algo
  {
  }

  lemma CanonicalSplits(s: string)
    requires IsCanonicalDigest(s)
    ensures SplitOnce(s, ':') == Some(("sha256", s[7..]))
  {
    var algo, hex := s[..6], s[7..];
    assert algo == "sha256" && s[6] == ':' by { assert s[..7] == "sha256:"; }
    assert s == algo + [':'] + hex;
    NoColon(algo);
    SplitOnceAt(algo, ':', hex);
  }

  lemma CanonicalParses(s: string)
    requires IsCanonicalDigest(s)
    ensures ParseNarDigest(s) == Ok(s)
  {
    CanonicalSplits(s);
    TrimmedIsFixed(s);
    var hex := s[7..];
    assert LowerAll(hex) == hex;
    assert s == "sha256:" + hex;
  }

  lemma ParsedIsCanonical(s: string)
    requires ParseNarDigest(s).Ok?
    ensures IsCanonicalDigest(ParseNarDigest(s).value)
  {
    var (algo, hex) := SplitOnce(Trim(s), ':').value;
    var low := LowerAll(hex);
    var r := "sha256:" + low;
    assert ParseHex(algo, hex).value == r;
    forall i | 7 <= i < 71 ensures IsLowerHex(r[i]) {
      assert r[i] == low[i - 7] && IsHexDigit(hex[i - 7]);
    }
  }

  /** The digests that parse to themselves are the canonical ones. */
  lemma CanonicalDigestParses(s: string)
    ensures ParseNarDigest(s) == Ok(s) <==> IsCanonicalDigest(s)
  {
    if IsCanonicalDigest(s) { CanonicalParses(s); }
    if ParseNarDigest(s) == Ok(s) { ParsedIsCanonical(s); }
  }

  /** Two hexadecimal digits. */
  function HexDigit(n: int): (c: char)
    requires 0 <= n < 16
    ensures IsLowerHex(c)
  {
    if n < 10 then '0' + n as char else 'a' + (n - 10) as char
  }

  function HexValue(c: char): (n: int)
    requires IsLowerHex(c)
    ensures 0 <= n < 16
  {
    if IsDigit(c) then c as int - '0' as int else c as int - 'a' as int + 10
  }

  function FormatDigest(d: Digest): (s: string)
    ensures IsCanonicalDigest(s)
  {
    "sha256:" + seq(64, i requires 0 <= i < 64 => HexDigit(if i % 2 == 0 then d[i / 2] / 16 else d[i / 2] % 16))
  }

  /** The bytes a canonical digest spells. */
  function DigestBytes(s: string): Digest
    requires IsCanonicalDigest(s)
  {
    seq(32, i requires 0 <= i < 32 => 16 * HexValue(s[7 + 2 * i]) + HexValue(s[8 + 2 * i]))
  }

  lemma FormatThenRead(d: Digest)
    ensures DigestBytes(FormatDigest(d)) == d
  {
    var s := FormatDigest(d);
    forall i | 0 <= i < 32 ensures DigestBytes(s)[i] == d[i] {
      var hi, lo := 2 * i, 2 * i + 1;
      assert hi / 2 == i && lo / 2 == i && hi % 2 == 0 && lo % 2 == 1;
      assert s[7 + hi] == HexDigit(d[i] / 16) && s[7 + lo] == HexDigit(d[i] % 16);
    }
  }

  lemma FormatInjective(d: Digest, e: Digest)
    requires FormatDigest(d) == FormatDigest(e)
    ensures d == e
  {
    FormatThenRead(d);
    FormatThenRead(e);
  }

  lemma DigestBytesInjective(s: string, t: string)
    requires IsCanonicalDigest(s) && IsCanonicalDigest(t) && DigestBytes(s) == DigestBytes(t)
    ensures s == t
  {
    forall k | 0 <= k < 71 ensures s[k] == t[k] {
      if k < 7 {
        assert s[k] == "sha256:"[k] == t[k];
      } else {
        var i := (k - 7) / 2;
        assert k == 7 + 2 * i || k == 8 + 2 * i;
        assert DigestBytes(s)[i] == DigestBytes(t)[i];
        assert HexValue(s[7 + 2 * i]) == HexValue(t[7 + 2 * i]) && HexValue(s[8 + 2 * i]) == HexValue(t[8 + 2 * i]);
      }
    }
  }

  // --- Systems --------------------------------------------------------------------------

  datatype SystemArch =
    | X86_64Linux | Aarch64Linux | X86_64Darwin | Aarch64Darwin | I686Linux | Armv7lLinux | Armv6lLinux
    | Riscv64Linux | Aarch64Freebsd | X86_64Freebsd | I686Freebsd | X86_64Netbsd | X86_64Openbsd
    | Mips64elLinux | Powerpc64leLinux | S390xLinux | Wasm32Wasi | Unknown

  function SystemName(s: SystemArch): string {
    match s
    case X86_64Linux => "x86_64-linux"
    case Aarch64Linux => "aarch64-linux"
    case X86_64Darwin => "x86_64-darwin"
    case Aarch64Darwin => "aarch64-darwin"
    case I686Linux => "i686-linux"
    case Armv7lLinux => "armv7l-linux"
    case Armv6lLinux => "armv6l-linux"
    case Riscv64Linux => "riscv64-linux"
    case Aarch64Freebsd => "aarch64-freebsd"
    case X86_64Freebsd => "x86_64-freebsd"
    case I686Freebsd => "i686-freebsd"
    case X86_64Netbsd => "x86_64-netbsd"
    case X86_64Openbsd => "x86_64-openbsd"
    case Mips64elLinux => "mips64el-linux"
    case Powerpc64leLinux => "powerpc64le-linux"
    case S390xLinux => "s390x-linux"
    case Wasm32Wasi => "wasm32-wasi"
    case Unknown => "unknown"
  }

  // --- Store paths and references --------------------------------------------------------

  const STORE_DIR := "/nix/store/"

  /** `<hash>-<name>`; blanks around the hash are accepted, as `StoreHash::parse` trims. */
  function BasenameHash(s: string): Result<StoreHash, TypeError> {
    match SplitOnce(s, '-')
    case None => Err(InvalidStorePathFormat)
    case Some((hash, name)) =>
      if || name == [] || '/' in name || '\\' in name
         || exists i | 0 <= i < |name| :: IsControl(name[i]) || IsWhitespace(name[i])
      then Err(InvalidStorePathFormat)
      else ParseStoreHash(hash)
  }

  function StorePathHash(s: string): Result<StoreHash, TypeError> {
    if !(STORE_DIR <= s) then Err(InvalidStorePathFormat)
    else
      var base := s[|STORE_DIR|..];
      if base == [] || '/' in base || '\\' in base then Err(InvalidStorePathFormat) else BasenameHash(base)
  }

  /** A name after the dash of a store path. */
  predicate IsPathName(name: string) {
    && name != [] && '/' !in name && '\\' !in name
    && forall i | 0 <= i < |name| :: !IsControl(name[i]) && !IsWhitespace(name[i])
  }

  predicate DashedAt(base: string, hash: string, name: string) {
    base == hash + ['-'] + name && '-' !in hash && IsPathName(name)
  }

  lemma DashedHash(base: string, hash: string, name: string)
    requires DashedAt(base, hash, name)
    ensures BasenameHash(base) == ParseStoreHash(hash)
  {
    SplitOnceAt(hash, '-', name);
  }

  lemma HashIsDashed(base: string) returns (hash: string, name: string)
    requires BasenameHash(base).Ok?
    ensures DashedAt(base, hash, name) && BasenameHash(base) == ParseStoreHash(hash)
  {
    SplitOnceIs(base, '-');
    var parts := SplitOnce(base, '-').value;
    hash, name := parts.0, parts.1;
  }

  /** A basename has a hash exactly when a name follows its first dash and the text before trims to the hash. */
  lemma BasenameIsExact(base: string, h: StoreHash)
    ensures BasenameHash(base) == Ok(h) <==>
            exists hash, name :: DashedAt(base, hash, name) && Trim(hash) == h && IsStoreHash(h)
  {
    if BasenameHash(base) == Ok(h) {
      var hash, name := HashIsDashed(base);
    }
    if hash, name :| DashedAt(base, hash, name) && Trim(hash) == h && IsStoreHash(h) {
      DashedHash(base, hash, name);
    }
  }

  /** A store path is the store directory and such a basename, without any other slash. */
  lemma StorePathIsExact(s: string, h: StoreHash)
    ensures StorePathHash(s) == Ok(h) <==>
            exists base :: s == STORE_DIR + base && '/' !in base && '\\' !in base && BasenameHash(base) == Ok(h)
  {
    if StorePathHash(s) == Ok(h) {
      assert s == STORE_DIR + s[|STORE_DIR|..];
    }
    if base :| s == STORE_DIR + base && '/' !in base && '\\' !in base && BasenameHash(base) == Ok(h) {
      assert s[|STORE_DIR|..] == base;
    }
  }

  /** A text without the store directory in front. */
  function Base(s: string): string {
    if STORE_DIR <= s then s[|STORE_DIR|..] else s
  }

  /** `normalize_store_reference`: the basename of a reference. */
  function Normalize(s: string): (r: Result<string, TypeError>)
    ensures r.Ok? ==> '/' !in r.value && '\\' !in r.value && BasenameHash(r.value).Ok?
    ensures r.Ok? ==> r.value == if STORE_DIR <= s then s[|STORE_DIR|..] else s
  {
    if STORE_DIR <= s then
      match StorePathHash(s)
      case Err(e) => Err(e)
      case Ok(_) => Ok(s[|STORE_DIR|..])
    else if '/' in s || '\\' in s then Err(InvalidStorePathFormat)
    else
      match BasenameHash(s)
      case Err(e) => Err(e)
      case Ok(_) => Ok(s)
  }

  /** Exactly the basenames with a hash and a name are accepted, with or without the store directory. */
  lemma NormalizeIsExact(s: string)
    ensures Normalize(s) ==
            var base := Base(s);
            if '/' !in base && '\\' !in base && BasenameHash(base).Ok? then Ok(base) else Err(Normalize(s).error)
  {
  }

  function ReferenceHash(s: string): (r: Result<StoreHash, TypeError>)
    ensures r.Ok? ==> IsStoreHash(r.value)
  {
    match Normalize(s)
    case Err(e) => Err(e)
    case Ok(base) => BasenameHash(base)
  }

  /** `reference_hashes`: a broken reference makes the whole list an error. */
  function ReferenceHashes(refs: seq<string>): (r: Result<seq<StoreHash>, TypeError>)
    ensures r.Ok? <==> forall i | 0 <= i < |refs| :: ReferenceHash(refs[i]).Ok?
    ensures r.Ok? ==> |r.value| == |refs| && forall i | 0 <= i < |refs| :: r.value[i] == ReferenceHash(refs[i]).value
  {
    if refs == [] then Ok([])
    else
      match ReferenceHash(refs[0])
      case Err(e) => Err(e)
      case Ok(h) =>
        match ReferenceHashes(refs[1..])
        case Err(e) =>
          assert forall i | 0 <= i < |refs[1..]| :: refs[1..][i] == refs[i + 1];
          Err(e)
        case Ok(rest) => Ok([h] + rest)
  }

  // --- Other field checks ------------------------------------------------------------------

  predicate IsNarBasename(s: string) {
    && s != [] && '/' !in s && '\\' !in s
    && (forall i | 0 <= i < |s| :: !IsControl(s[i]) && !IsWhitespace(s[i]))
    && (forall i | 0 < i < |s| :: !(s[i - 1] == '.' && s[i] == '.'))
    && s != "."
  }

  predicate IsBase64(c: char) {
    IsAlphanumeric(c) || c == '+' || c == '/'
  }

  /** The digits after `sha256:` or `sha256-`. */
  predicate IsHashBody(separator: char, s: string) {
    || (separator == '-' && |s| == 44 && s[43] == '=' && forall i | 0 <= i < 43 :: IsBase64(s[i]))
    || (|s| == 52 && forall i | 0 <= i < |s| :: IsBase32(s[i]))
    || (|s| == 64 && forall i | 0 <= i < |s| :: IsLowerHex(s[i]))
  }

  /** `validate_nix_hash`: the first colon splits; a dash does where there is no colon. */
  predicate IsNixHash(s: string) {
    match SplitOnce(s, ':')
    case Some((algo, body)) => algo == "sha256" && IsHashBody(':', body)
    case None =>
      match SplitOnce(s, '-')
      case Some((algo, body)) => algo == "sha256" && IsHashBody('-', body)
      case None => false
  }

  datatype NarInfoMeta = NarInfoMeta(
    storePath: string, narBasename: string, compression: Option<string>, fileHash: Option<string>,
    fileSize: Option<nat>, narHash: string, references: seq<string>, deriver: Option<string>,
    signatures: seq<string>, ca: Option<string>)

  predicate ValidMeta(m: NarInfoMeta) {
    && StorePathHash(m.storePath).Ok?
    && IsNarBasename(m.narBasename)
    && (m.fileHash.Some? ==> IsNixHash(m.fileHash.value))
    && m.compression != Some("") && m.ca != Some("") && m.fileSize != Some(0)
    && IsNixHash(m.narHash)
    && (forall i | 0 <= i < |m.references| :: Normalize(m.references[i]).Ok?)
    && (m.deriver.Some? ==> Normalize(m.deriver.value).Ok? && EndsWith(Normalize(m.deriver.value).value, ".drv"))
  }

  datatype Origin = Origin(runId: Option<nat>, jobId: Option<string>)

  predicate ValidOrigin(o: Origin) {
    (o.runId.Some? || o.jobId.Some?) && (o.jobId.Some? ==> Trim(o.jobId.value) != "")
  }

  datatype IndexEntry = IndexEntry(
    name: string, system: Option<SystemArch>, meta: NarInfoMeta, narDigest: string,
    narSize: nat, added: string, origin: Option<Origin>)

  predicate ValidEntry(x: Platform, e: IndexEntry) {
    && e.name != "" && e.system != Some(Unknown)
    && ValidMeta(e.meta)
    && ParseNarDigest(e.narDigest).Ok?
    && e.narSize != 0
    && Trim(e.added) != "" && x.instant(e.added).Some?
    && (e.origin.Some? ==> ValidOrigin(e.origin.value))
  }

  type Entries = map<StoreHash, IndexEntry>
}
