/** The `.narinfo` text format: rendering an entry's metadata, and parsing it line by line. */
module NarInfo {
  import opened Basics
  import opened Text
  import opened Types

  datatype NarInfo = NarInfo(meta: NarInfoMeta, narSize: nat)

  datatype Field =
    | StorePath | Url | Compression | FileHash | FileSize | NarHash | NarSize | References | Deriver | Sig | Ca | Other

  datatype ParseError =
    | EmptyContent | MalformedLine | DuplicateField(field: Field) | EmptyField(field: Field) | InvalidStorePath
    | InvalidUrl | InvalidHash(field: Field) | InvalidNumber(field: Field) | NonPositiveSize(field: Field)
    | InvalidReference | InvalidField(field: Field) | MissingRequiredField(field: Field) | InvalidNarInfo

  function FieldName(f: Field): string {
    match f
    case StorePath => "StorePath"
    case Url => "URL"
    case Compression => "Compression"
    case FileHash => "FileHash"
    case FileSize => "FileSize"
    case NarHash => "NarHash"
    case NarSize => "NarSize"
    case References => "References"
    case Deriver => "Deriver"
    case Sig => "Sig"
    case Ca => "CA"
    case Other => "Other"
  }

  function FieldOf(key: string): Field {
    if key == "StorePath" then StorePath
    else if key == "URL" then Url
    else if key == "Compression" then Compression
    else if key == "FileHash" then FileHash
    else if key == "FileSize" then FileSize
    else if key == "NarHash" then NarHash
    else if key == "NarSize" then NarSize
    else if key == "References" then References
    else if key == "Deriver" then Deriver
    else if key == "Sig" then Sig
    else if key == "CA" then Ca
    else Other
  }

  // --- Pieces of text --------------------------------------------------------------------------

  /** `str::lines`; a carriage return at the end of a line is a blank that the parser trims. */
  function Lines(s: string): seq<string>
    decreases |s|
  {
    if s == [] then []
    else
      match SplitOnce(s, '\n')
      case None => [s]
      case Some((a, b)) => [a] + Lines(b)
  }

  function WordLength(s: string): (k: nat)
    ensures k <= |s| && (s != [] && !IsWhitespace(s[0]) ==> k > 0)
    ensures forall i | 0 <= i < k :: !IsWhitespace(s[i])
    ensures k < |s| ==> IsWhitespace(s[k])
  {
    if s == [] || IsWhitespace(s[0]) then 0 else 1 + WordLength(s[1..])
  }

  /** `str::split_whitespace`. */
  function Tokens(s: string): seq<string>
    decreases |s|
  {
    if s == [] then []
    else if IsWhitespace(s[0]) then Tokens(s[1..])
    else [s[..WordLength(s)]] + Tokens(s[WordLength(s)..])
  }

  function Join(parts: seq<string>): string {
    if parts == [] then "" else if |parts| == 1 then parts[0] else parts[0] + [' '] + Join(parts[1..])
  }

  /** The components between slashes. */
  function Components(s: string): seq<string>
    decreases |s|
  {
    match SplitOnce(s, '/')
    case None => [s]
    case Some((a, b)) => [a] + Components(b)
  }

  function AfterLastSlash(s: string): string {
    var c := Components(s);
    if c == [] then s else c[|c| - 1]
  }

  const NAR_PREFIX := "nar/"

  /** `extract_nar_basename` on a text without blanks. */
  function UrlBasename(s: string): string {
    if NAR_PREFIX <= s then s[|NAR_PREFIX|..] else AfterLastSlash(s)
  }

  predicate IsDots(s: string) {
    s == "." || s == ".."
  }

  /** `parse_nar_url`. */
  function ParseNarUrl(v: string): (r: Result<string, ParseError>)
    ensures r.Ok? ==> IsNarBasename(r.value) && r.value == UrlBasename(v)
  {
    if v == "" then Err(EmptyField(Url))
    else if (exists i | 0 <= i < |v| :: IsControl(v[i]) || IsWhitespace(v[i])) || '\\' in v then Err(InvalidUrl)
    else if exists i | 0 <= i < |Components(v)| :: IsDots(Components(v)[i]) then Err(InvalidUrl)
    else if IsNarBasename(UrlBasename(v)) then Ok(UrlBasename(v))
    else Err(InvalidUrl)
  }

  // --- Parsing ---------------------------------------------------------------------------------

  datatype Fields = Fields(
    seen: set<Field>, storePath: Option<string>, narBasename: Option<string>, compression: Option<string>,
    fileHash: Option<string>, fileSize: Option<nat>, narHash: Option<string>, narSize: Option<nat>,
    references: seq<string>, deriver: Option<string>, signatures: seq<string>, ca: Option<string>)

  const NO_FIELDS := Fields({}, None, None, None, None, None, None, None, [], None, [], None)

  datatype Line = Skipped | Malformed | Item(field: Field, value: string)

  /** One line: blank lines and comments are skipped, the first colon splits. */
  function ReadLine(line: string): Line {
    var t := Trim(line);
    if t == "" || t[0] == '#' then Skipped
    else
      match SplitOnce(t, ':')
      case None => Malformed
      case Some((key, value)) => Item(FieldOf(Trim(key)), Trim(value))
  }

  function NormalizeAll(tokens: seq<string>): (r: Option<seq<string>>)
    ensures r.Some? ==> |r.value| == |tokens| && forall i | 0 <= i < |tokens| :: Normalize(tokens[i]) == Ok(r.value[i])
    ensures r.None? ==> exists i | 0 <= i < |tokens| :: Normalize(tokens[i]).Err?
  {
    if tokens == [] then Some([])
    else
      match Normalize(tokens[0])
      case Err(_) => None
      case Ok(t) =>
        match NormalizeAll(tokens[1..])
        case None =>
          assert exists i | 0 <= i < |tokens[1..]| :: Normalize(tokens[1..][i]).Err?;
          None
        case Some(rest) => Some([t] + rest)
  }

  predicate IsNone(s: string) {
    s == "none"
  }

  predicate IsDerivation(s: string) {
    EndsWith(s, ".drv")
  }

  function TakeSize(field: Field, v: string): Result<nat, ParseError> {
    if v == "" then Err(EmptyField(field))
    else if ParseU64(v).None? then Err(InvalidNumber(field))
    else if ParseU64(v).value == 0 then Err(NonPositiveSize(field))
    else Ok(ParseU64(v).value)
  }

  function TakeHash(field: Field, v: string): Result<string, ParseError> {
    if v == "" then Err(EmptyField(field)) else if IsNixHash(v) then Ok(v) else Err(InvalidHash(field))
  }

  function TakeDeriver(v: string): Result<string, ParseError> {
    if v == "" then Err(EmptyField(Deriver))
    else
      match Normalize(v)
      case Err(_) => Err(InvalidField(Deriver))
      case Ok(d) => if IsDerivation(d) then Ok(d) else Err(InvalidField(Deriver))
  }

  function WithDeriver(f: Fields, d: Result<string, ParseError>): Result<Fields, ParseError> {
    match d
    case Err(e) => Err(e)
    case Ok(name) => Ok(f.(deriver := Some(name)))
  }

  /** What one field contributes. */
  function TakeField(f: Fields, field: Field, v: string): Result<Fields, ParseError> {
    if field == Deriver then WithDeriver(f, TakeDeriver(v))
    else if field == References then WithReferences(f, NormalizeAll(Tokens(v)))
    else TakePlainField(f, field, v)
  }

  function WithReferences(f: Fields, refs: Option<seq<string>>): Result<Fields, ParseError> {
    if refs.None? then Err(InvalidReference) else Ok(f.(references := f.references + refs.value))
  }

  /** What a field that names no store path contributes. */
  function TakePlainField(f: Fields, field: Field, v: string): Result<Fields, ParseError>
    requires field != Deriver && field != References
  {
    match field
    case StorePath =>
      if v == "" then Err(EmptyField(StorePath))
      else if StorePathHash(v).Err? then Err(InvalidStorePath)
      else Ok(f.(storePath := Some(v)))
    case Url => var b :- ParseNarUrl(v); Ok(f.(narBasename := Some(b)))
    case Compression =>
      if v == "" then Err(EmptyField(Compression)) else if IsNone(v) then Ok(f) else Ok(f.(compression := Some(v)))
    case FileHash => var h :- TakeHash(FileHash, v); Ok(f.(fileHash := Some(h)))
    case FileSize => var n :- TakeSize(FileSize, v); Ok(f.(fileSize := Some(n)))
    case NarHash => var h :- TakeHash(NarHash, v); Ok(f.(narHash := Some(h)))
    case NarSize => var n :- TakeSize(NarSize, v); Ok(f.(narSize := Some(n)))
    case Sig => Ok(if v == "" then f else f.(signatures := f.signatures + [v]))
    case Ca => if v == "" then Err(EmptyField(Ca)) else Ok(f.(ca := Some(v)))
    case Other => Ok(f)
  }

  predicate IsSingle(field: Field) {
    !field.Sig? && !field.Other?
  }

  function TakeItem(f: Fields, field: Field, v: string): Result<Fields, ParseError> {
    if IsSingle(field) && field in f.seen then Err(DuplicateField(field))
    else TakeField(if IsSingle(field) then f.(seen := f.seen + {field}) else f, field, v)
  }

  function TakeLine(f: Fields, line: string): Result<Fields, ParseError> {
    TakeRead(f, ReadLine(line))
  }

  function TakeRead(f: Fields, line: Line): Result<Fields, ParseError> {
    match line
    case Skipped => Ok(f)
    case Malformed => Err(MalformedLine)
    case Item(field, v) => TakeItem(f, field, v)
  }

  function TakeLines(f: Fields, lines: seq<string>): Result<Fields, ParseError>
    decreases |lines|
  {
    if lines == [] then Ok(f)
    else
      match TakeLine(f, lines[0])
      case Err(e) => Err(e)
      case Ok(g) => TakeLines(g, lines[1..])
  }

  /** The required fields are there, and the whole is valid. */
  function Finish(f: Fields): Result<NarInfo, ParseError> {
    if f.storePath.None? then Err(MissingRequiredField(StorePath))
    else if f.narBasename.None? then Err(MissingRequiredField(Url))
    else if f.narHash.None? then Err(MissingRequiredField(NarHash))
    else if f.narSize.None? then Err(MissingRequiredField(NarSize))
    else
      var meta := NarInfoMeta(
        f.storePath.value, f.narBasename.value, f.compression, f.fileHash, f.fileSize, f.narHash.value, f.references,
        f.deriver, f.signatures, f.ca);
      if ValidMeta(meta) then Ok(NarInfo(meta, f.narSize.value)) else Err(InvalidNarInfo)
  }

  function Parse(content: string): Result<NarInfo, ParseError> {
    if Trim(content) == "" then Err(EmptyContent)
    else
      var f :- TakeLines(NO_FIELDS, Lines(content));
      Finish(f)
  }

  /** `NarInfo::parse`: one pass over the lines. */
  method ParseNarInfo(content: string) returns (r: Result<NarInfo, ParseError>)
    ensures r == Parse(content)
  {
    if Trim(content) == "" {
      return Err(EmptyContent);
    }
    var lines := Lines(content);
    var f := NO_FIELDS;
    for i := 0 to |lines|
      invariant TakeLines(NO_FIELDS, lines) == TakeLines(f, lines[i..])
    {
      var line := ReadLine(lines[i]);
      assert lines[i..][1..] == lines[i + 1..];
      match line {
        case Skipped =>
        case Malformed => return Err(MalformedLine);
        case Item(field, v) =>
          var taken := TakeItem(f, field, v);
          if taken.Err? {
            return Err(taken.error);
          }
          f := taken.value;
      }
    }
    r := Finish(f);
  }

  // --- Rendering -------------------------------------------------------------------------------

  type Items = seq<(Field, string)>

  function Opt(field: Field, v: Option<string>): Items {
    if v.Some? then [(field, v.value)] else []
  }

  function SizeText(n: Option<nat>): Option<string> {
    if n.Some? then Some(Decimal(n.value)) else None
  }

  function Signatures(sigs: seq<string>): Items {
    seq(|sigs|, i requires 0 <= i < |sigs| => (Sig, sigs[i]))
  }

  function ReferenceText(refs: seq<string>): Option<string> {
    if refs == [] then None else Some(Join(refs))
  }

  /** The fields of a rendering, in order. */
  function HeadItems(n: NarInfo): Items {
    ([(StorePath, n.meta.storePath)] + [(Url, NAR_PREFIX + n.meta.narBasename)]) +
    (Opt(Compression, n.meta.compression) + (Opt(FileHash, n.meta.fileHash) + Opt(FileSize, SizeText(n.meta.fileSize))))
  }

  function TailItems(n: NarInfo): Items {
    [(NarHash, n.meta.narHash), (NarSize, Decimal(n.narSize))] +
    ((Opt(References, ReferenceText(n.meta.references)) + Opt(Deriver, n.meta.deriver)) +
     (Signatures(n.meta.signatures) + Opt(Ca, n.meta.ca)))
  }

  function ItemsOf(n: NarInfo): Items {
    HeadItems(n) + TailItems(n)
  }

  const SEPARATOR := ": "

  function LineOf(item: (Field, string)): string {
    FieldName(item.0) + (SEPARATOR + item.1)
  }

  function Rendered(items: Items): string {
    if items == [] then "" else LineOf(items[0]) + ['\n'] + Rendered(items[1..])
  }

  function Render(n: NarInfo): string {
    Rendered(ItemsOf(n))
  }

  function JoinLines(lines: seq<string>): string {
    if lines == [] then "" else if |lines| == 1 then lines[0] else lines[0] + ['\n'] + JoinLines(lines[1..])
  }

  function LinesOf(items: Items): seq<string> {
    seq(|items|, i requires 0 <= i < |items| => LineOf(items[i]))
  }

  lemma {:induction false} JoinedIsRendered(items: Items)
    requires items != []
    ensures JoinLines(LinesOf(items)) + ['\n'] == Rendered(items)
  {
    assert LinesOf(items)[1..] == LinesOf(items[1..]);
    if |items| == 1 {
      assert Rendered(items[1..]) == "";
    } else {
      JoinedIsRendered(items[1..]);
    }
  }

  method PushOpt(lines: seq<string>, field: Field, v: Option<string>, ghost items: Items) returns (r: seq<string>)
    requires lines == LinesOf(items)
    ensures r == LinesOf(items + Opt(field, v))
  {
    r := if v.Some? then lines + [LineOf((field, v.value))] else lines;
    assert v.None? ==> items + Opt(field, v) == items;
  }

  /** `NarInfoMeta::render`: push the lines, join them, end the last one. */
  method RenderNarInfo(n: NarInfo) returns (text: string)
    ensures text == Render(n)
  {
    var m := n.meta;
    var lines := [LineOf((StorePath, m.storePath)), LineOf((Url, NAR_PREFIX + m.narBasename))];
    ghost var items: Items := [(StorePath, m.storePath), (Url, NAR_PREFIX + m.narBasename)];
    lines := PushOpt(lines, Compression, m.compression, items);
    items := items + Opt(Compression, m.compression);
    lines := PushOpt(lines, FileHash, m.fileHash, items);
    items := items + Opt(FileHash, m.fileHash);
    lines := PushOpt(lines, FileSize, SizeText(m.fileSize), items);
    items := items + Opt(FileSize, SizeText(m.fileSize));
    assert items == HeadItems(n);
    lines := PushTail(n, lines, items);
    JoinedIsRendered(ItemsOf(n));
    text := JoinLines(lines) + ['\n'];
  }

  method PushSignatures(sigs: seq<string>, head: seq<string>, ghost items: Items) returns (lines: seq<string>)
    requires head == LinesOf(items)
    ensures lines == LinesOf(items + Signatures(sigs))
  {
    lines := head;
    for i := 0 to |sigs|
      invariant lines == LinesOf(items + Signatures(sigs[..i]))
    {
      lines := lines + [LineOf((Sig, sigs[i]))];
    }
    TakeAll(sigs);
  }

  method PushTail(n: NarInfo, head: seq<string>, ghost items0: Items) returns (lines: seq<string>)
    requires head == LinesOf(items0)
    ensures lines == LinesOf(items0 + TailItems(n))
  {
    var m := n.meta;
    ghost var tail: Items := [(NarHash, m.narHash), (NarSize, Decimal(n.narSize))];
    lines := head + [LineOf((NarHash, m.narHash)), LineOf((NarSize, Decimal(n.narSize)))];
    assert lines == LinesOf(items0 + tail);
    lines := PushOpt(lines, References, ReferenceText(m.references), items0 + tail);
    ghost var items := items0 + tail + Opt(References, ReferenceText(m.references));
    lines := PushOpt(lines, Deriver, m.deriver, items);
    items := items + Opt(Deriver, m.deriver);
    lines := PushSignatures(m.signatures, lines, items);
    items := items + Signatures(m.signatures);
    lines := PushOpt(lines, Ca, m.ca, items);
    assert items + Opt(Ca, m.ca) == items0 + TailItems(n);
  }
}
