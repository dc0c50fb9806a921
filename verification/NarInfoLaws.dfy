/** Parsing undoes rendering for exactly the values the parser itself can yield and re-read. */
module NarInfoLaws {
  import opened Basics
  import opened Text
  import opened Types
  import opened NarInfo
  import opened Samples

  // --- Trimming --------------------------------------------------------------------------------

  predicate AllBlank(s: string) {
    forall i | 0 <= i < |s| :: IsWhitespace(s[i])
  }

  lemma TrimStartParts(s: string) returns (pre: string)
    ensures s == pre + TrimStart(s) && AllBlank(pre)
  {
    TrimStartIs(s);
    pre := s[..|s| - |TrimStart(s)|];
  }

  lemma TrimEndParts(s: string) returns (post: string)
    ensures s == TrimEnd(s) + post && AllBlank(post)
  {
    TrimEndIs(s);
    post := s[|TrimEnd(s)|..];
  }

  lemma TrimParts(s: string) returns (pre: string, post: string)
    ensures s == pre + Trim(s) + post && AllBlank(pre) && AllBlank(post)
  {
    pre := TrimStartParts(s);
    post := TrimEndParts(TrimStart(s));
    Assoc(pre, Trim(s), post);
  }

  lemma BlanksAreBlank(s: string, t: string)
    requires AllBlank(s) && AllBlank(t)
    ensures forall c | c in s + t :: IsWhitespace(c)
  {
  }

  lemma {:induction false} TrimEndOfBlanks(s: string)
    requires AllBlank(s)
    ensures TrimEnd(s) == ""
  {
    if s != [] { TrimEndOfBlanks(s[..|s| - 1]); }
  }

  lemma {:induction false} TrimEndAfter(a: string, b: string)
    requires a != [] && !IsWhitespace(a[|a| - 1])
    ensures TrimEnd(a + b) == a + TrimEnd(b)
  {
    if b == [] {
      assert a + b == a;
    } else if IsWhitespace(b[|b| - 1]) {
      assert (a + b)[..|a + b| - 1] == a + b[..|b| - 1];
      TrimEndAfter(a, b[..|b| - 1]);
    }
  }

  lemma TrimFront(front: string, core: string)
    requires AllBlank(front) && core != "" && Trimmed(core)
    ensures Trim(front + core) == core
  {
    BlanksAreBlank(front, "");
    TrimPadded(front, core, "");
    assert front + core + "" == front + core;
  }

  lemma TrimEndOfShifted(front: string, core: string, post: string)
    requires AllBlank(front) && AllBlank(post) && core != "" && Trimmed(core)
    ensures Trim(TrimEnd(front + core + post)) == core
  {
    LastOf(front, core);
    TrimEndDrops(front + core, post);
    TrimFront(front, core);
  }

  lemma LastOf(a: string, b: string)
    requires b != ""
    ensures a + b != "" && (a + b)[|a + b| - 1] == b[|b| - 1]
  {
  }

  lemma TrimEndDrops(s: string, post: string)
    requires AllBlank(post) && s != "" && !IsWhitespace(s[|s| - 1])
    ensures TrimEnd(s + post) == s
  {
    BlanksAreBlank(post, "");
    TrimEndPadded(s, post);
  }

  /** Trimming the end first, or a blank put in front, does not change what trimming leaves. */
  lemma TrimOfShifted(v: string)
    ensures Trim(TrimEnd([' '] + v)) == Trim(v)
  {
    var pre, post := TrimParts(v);
    var core := Trim(v);
    if core == "" {
      assert v == pre + post;
      TrimEndOfBlanks([' '] + v);
    } else {
      TrimResult(v);
      var front := [' '] + pre;
      ShiftParts(v, pre, core, post);
      TrimEndOfShifted(front, core, post);
    }
  }

  lemma ShiftParts(v: string, pre: string, core: string, post: string)
    requires v == pre + core + post
    ensures [' '] + v == ([' '] + pre) + core + post
  {
  }

  // --- One line --------------------------------------------------------------------------------

  ghost predicate GoodName(name: string) {
    && name != "" && Trimmed(name) && name[0] != '#' && ':' !in name && '\n' !in name
  }

  lemma NameIsRead(f: Field)
    ensures FieldOf(FieldName(f)) == f
  {
  }

  lemma NameIsGood(f: Field)
    ensures GoodName(FieldName(f))
  {
  }

  lemma NamesAreGood(f: Field)
    ensures GoodName(FieldName(f)) && FieldOf(FieldName(f)) == f
  {
    NameIsGood(f);
    NameIsRead(f);
  }

  lemma SeparatorIs(v: string)
    ensures SEPARATOR + v == [':'] + ([' '] + v)
  {
  }

  lemma TrimAfterHead(head: string, rest: string)
    requires head != "" && !IsWhitespace(head[0]) && !IsWhitespace(head[|head| - 1])
    ensures Trim(head + rest) == head + TrimEnd(rest)
  {
    assert (head + rest)[0] == head[0];
    TrimEndAfter(head, rest);
  }

  lemma ReadAfterName(name: string, rest: string, line: string)
    requires GoodName(name) && Trim(line) == name + [':'] + rest
    ensures ReadLine(line) == Item(FieldOf(name), Trim(rest))
  {
    assert Trim(line)[0] == name[0];
    SplitOnceAt(name, ':', rest);
    TrimmedIsFixed(name);
  }

  lemma NamedLineReads(name: string, v: string)
    requires GoodName(name)
    ensures ReadLine(name + (SEPARATOR + v)) == Item(FieldOf(name), Trim(v))
  {
    var head, rest := name + [':'], [' '] + v;
    SeparatorIs(v);
    Assoc(name, [':'], rest);
    TrimAfterHead(head, rest);
    ReadAfterName(name, TrimEnd(rest), head + rest);
    TrimOfShifted(v);
  }

  lemma LineReads(item: (Field, string))
    requires item.0 != Other
    ensures ReadLine(LineOf(item)) == Item(item.0, Trim(item.1))
  {
    NamesAreGood(item.0);
    NamedLineReads(FieldName(item.0), item.1);
  }

  ghost predicate OneLine(items: Items) {
    forall i | 0 <= i < |items| :: items[i].0 != Other && '\n' !in items[i].1
  }

  lemma NoBreak(item: (Field, string))
    requires item.0 != Other && '\n' !in item.1
    ensures '\n' !in LineOf(item) && LineOf(item) != "" && !IsWhitespace(LineOf(item)[0])
  {
    NamesAreGood(item.0);
    SeparatorIs(item.1);
  }

  lemma LinesCons(a: string, b: string)
    requires '\n' !in a
    ensures Lines(a + ['\n'] + b) == [a] + Lines(b)
  {
    SplitOnceAt(a, '\n', b);
  }

  lemma {:induction false} LinesOfRendered(items: Items)
    requires OneLine(items)
    ensures Lines(Rendered(items)) == LinesOf(items)
  {
    if items != [] {
      NoBreak(items[0]);
      LinesCons(LineOf(items[0]), Rendered(items[1..]));
      LinesOfRendered(items[1..]);
      assert LinesOf(items) == [LineOf(items[0])] + LinesOf(items[1..]);
    }
  }

  function Fold<S, T, E>(state: S, items: seq<T>, step: (S, T) -> Result<S, E>): Result<S, E>
    decreases |items|
  {
    if items == [] then Ok(state)
    else
      match step(state, items[0])
      case Err(e) => Err(e)
      case Ok(next) => Fold(next, items[1..], step)
  }

  lemma {:induction false} FoldAppend<S, T, E>(state: S, a: seq<T>, b: seq<T>, step: (S, T) -> Result<S, E>)
    requires Fold(state, a, step).Ok?
    ensures Fold(state, a + b, step) == Fold(Fold(state, a, step).value, b, step)
    decreases |a|
  {
    if a == [] {
      assert a + b == b;
    } else {
      assert (a + b)[1..] == a[1..] + b && (a + b)[0] == a[0];
      FoldAppend(step(state, a[0]).value, a[1..], b, step);
    }
  }

  lemma FoldOne<S, T, E>(state: S, item: T, step: (S, T) -> Result<S, E>)
    ensures Fold(state, [item], step) == step(state, item)
  {
    assert [item][1..] == [];
  }

  lemma FoldFirst<S, T, E>(state: S, items: seq<T>, step: (S, T) -> Result<S, E>) returns (next: S)
    requires items != [] && Fold(state, items, step).Ok?
    ensures step(state, items[0]) == Ok(next) && Fold(state, items, step) == Fold(next, items[1..], step)
    ensures items == [items[0]] + items[1..]
  {
    next := step(state, items[0]).value;
  }

  function Step(): (Fields, (Field, string)) -> Result<Fields, ParseError> {
    (f: Fields, item: (Field, string)) => TakeItem(f, item.0, Trim(item.1))
  }

  /** The parser's state after some fields. */
  function TakeItems(f: Fields, items: Items): Result<Fields, ParseError> {
    Fold(f, items, Step())
  }

  lemma LineTakes(f: Fields, item: (Field, string))
    requires item.0 != Other
    ensures TakeLine(f, LineOf(item)) == TakeItem(f, item.0, Trim(item.1))
  {
    LineReads(item);
  }

  lemma {:induction false} LinesAreItems(f: Fields, items: Items)
    requires OneLine(items)
    ensures TakeLines(f, LinesOf(items)) == TakeItems(f, items)
    decreases |items|
  {
    if items != [] {
      var lines := LinesOf(items);
      assert lines[0] == LineOf(items[0]) && lines[1..] == LinesOf(items[1..]);
      LineTakes(f, items[0]);
      var g := TakeItem(f, items[0].0, Trim(items[0].1));
      if g.Ok? { LinesAreItems(g.value, items[1..]); }
    }
  }

  lemma NotBlank(s: string)
    requires s != "" && !IsWhitespace(s[0])
    ensures Trim(s) != ""
  {
    var pre, post := TrimParts(s);
  }

  function FinishAll(r: Result<Fields, ParseError>): Result<NarInfo, ParseError> {
    match r
    case Err(e) => Err(e)
    case Ok(f) => Finish(f)
  }

  /** A rendering without stray line breaks is read field by field. */
  lemma ParseOfRendering(items: Items)
    requires OneLine(items) && items != []
    ensures Parse(Rendered(items)) == FinishAll(TakeItems(NO_FIELDS, items))
  {
    NoBreak(items[0]);
    assert Rendered(items)[0] == LineOf(items[0])[0];
    NotBlank(Rendered(items));
    LinesOfRendered(items);
    LinesAreItems(NO_FIELDS, items);
  }

  // --- What the parser yields ------------------------------------------------------------------

  predicate TidyText(v: string) {
    v != "" && Trimmed(v) && '\n' !in v
  }

  predicate TidyOpt(v: Option<string>) {
    v.Some? ==> TidyText(v.value)
  }

  /** A bare basename without blanks. */
  predicate BareReference(r: string) {
    (forall i | 0 <= i < |r| :: !IsWhitespace(r[i])) && Normalize(r) == Ok(r)
  }

  predicate BareDeriver(d: string) {
    '\n' !in d && Normalize(d) == Ok(d) && IsDerivation(d)
  }

  predicate GoodSize(n: nat) {
    0 < n < U64_LIMIT
  }

  predicate GoodCompression(v: string) {
    TidyText(v) && !IsNone(v)
  }

  predicate GoodPath(p: Option<string>) {
    TidyOpt(p) && (p.Some? ==> StorePathHash(p.value).Ok?)
  }

  predicate GoodBasename(b: Option<string>) {
    b.Some? ==> IsNarBasename(b.value)
  }

  predicate GoodCompressionOpt(c: Option<string>) {
    c.Some? ==> GoodCompression(c.value)
  }

  predicate GoodHash(h: Option<string>) {
    h.Some? ==> IsNixHash(h.value)
  }

  predicate GoodSizeOpt(n: Option<nat>) {
    n.Some? ==> GoodSize(n.value)
  }

  predicate AllBare(refs: seq<string>) {
    forall i | 0 <= i < |refs| :: BareReference(refs[i])
  }

  predicate BareOpt(d: Option<string>) {
    d.Some? ==> BareDeriver(d.value)
  }

  predicate AllTidy(sigs: seq<string>) {
    forall i | 0 <= i < |sigs| :: TidyText(sigs[i])
  }

  predicate TidyFields(f: Fields) {
    && GoodPath(f.storePath) && GoodBasename(f.narBasename) && GoodCompressionOpt(f.compression)
    && GoodHash(f.fileHash) && GoodSizeOpt(f.fileSize) && GoodHash(f.narHash) && GoodSizeOpt(f.narSize)
    && AllBare(f.references) && BareOpt(f.deriver) && AllTidy(f.signatures) && TidyOpt(f.ca)
  }

  /** A valid value whose texts stand on one line without outer blanks, with bare references. */
  predicate Tidy(n: NarInfo) {
    && ValidMeta(n.meta) && GoodSize(n.narSize) && (n.meta.fileSize.Some? ==> GoodSize(n.meta.fileSize.value))
    && TidyText(n.meta.storePath) && TidyOpt(n.meta.ca)
    && (n.meta.compression.Some? ==> GoodCompression(n.meta.compression.value))
    && (forall i | 0 <= i < |n.meta.references| :: BareReference(n.meta.references[i]))
    && (n.meta.deriver.Some? ==> BareDeriver(n.meta.deriver.value))
    && (forall i | 0 <= i < |n.meta.signatures| :: TidyText(n.meta.signatures[i]))
  }

  lemma PrefixHasSlash(s: string)
    ensures STORE_DIR <= s ==> '/' in s
  {
    assert STORE_DIR[0] == '/';
    assert STORE_DIR <= s ==> s[0] == STORE_DIR[0];
  }

  lemma NormalizeTwice(s: string)
    requires Normalize(s).Ok?
    ensures Normalize(Normalize(s).value) == Normalize(s)
  {
    PrefixHasSlash(Normalize(s).value);
  }

  lemma {:induction false} TokensAreWords(s: string)
    ensures forall i | 0 <= i < |Tokens(s)| :: Tokens(s)[i] != "" && forall j | 0 <= j < |Tokens(s)[i]| :: !IsWhitespace(Tokens(s)[i][j])
    decreases |s|
  {
    if s == [] {
    } else if IsWhitespace(s[0]) {
      TokensAreWords(s[1..]);
    } else {
      TokensAreWords(s[WordLength(s)..]);
    }
  }

  lemma TokenNormalizes(t: string, r: string)
    requires Normalize(t) == Ok(r) && forall j | 0 <= j < |t| :: !IsWhitespace(t[j])
    ensures BareReference(r)
  {
    NormalizeTwice(t);
  }

  lemma ReferencesAreBare(v: string, refs: seq<string>)
    requires NormalizeAll(Tokens(v)) == Some(refs)
    ensures forall i | 0 <= i < |refs| :: BareReference(refs[i])
  {
    TokensAreWords(v);
    forall i | 0 <= i < |refs| ensures BareReference(refs[i]) {
      TokenNormalizes(Tokens(v)[i], refs[i]);
    }
  }

  lemma DeriverIsBare(v: string)
    requires '\n' !in v && TakeDeriver(v).Ok?
    ensures BareDeriver(TakeDeriver(v).value)
  {
    NormalizeTwice(v);
  }

  lemma BareAppends(a: seq<string>, b: seq<string>)
    requires AllBare(a) && AllBare(b)
    ensures AllBare(a + b)
  {
  }

  lemma TidyAppends(a: seq<string>, v: string)
    requires AllTidy(a) && TidyText(v)
    ensures AllTidy(a + [v])
  {
  }

  lemma TakeReferencesIsTidy(f: Fields, v: string)
    requires TidyFields(f) && TakeField(f, References, v).Ok?
    ensures TidyFields(TakeField(f, References, v).value)
  {
    var refs := NormalizeAll(Tokens(v)).value;
    ReferencesAreBare(v, refs);
    BareAppends(f.references, refs);
    assert TakeField(f, References, v).value == f.(references := f.references + refs);
  }

  lemma TakeDeriverIsTidy(f: Fields, v: string)
    requires TidyFields(f) && '\n' !in v && TakeField(f, Deriver, v).Ok?
    ensures TidyFields(TakeField(f, Deriver, v).value)
  {
    BareIfTaken(v);
    TakeFieldDeriver(f, v);
    WithDeriverIsTidy(f, TakeDeriver(v));
  }

  lemma BareIfTaken(v: string)
    requires '\n' !in v
    ensures TakeDeriver(v).Ok? ==> BareDeriver(TakeDeriver(v).value)
  {
    if TakeDeriver(v).Ok? { DeriverIsBare(v); }
  }

  lemma TakeFieldDeriver(f: Fields, v: string)
    ensures TakeField(f, Deriver, v) == WithDeriver(f, TakeDeriver(v))
  {
  }

  lemma WithDeriverIsTidy(f: Fields, d: Result<string, ParseError>)
    requires TidyFields(f) && (d.Ok? ==> BareDeriver(d.value)) && WithDeriver(f, d).Ok?
    ensures TidyFields(WithDeriver(f, d).value)
  {
    SetDeriver(f, d.value);
  }

  lemma SetDeriver(f: Fields, d: string)
    requires TidyFields(f) && BareDeriver(d)
    ensures TidyFields(f.(deriver := Some(d)))
  {
    assert BareOpt(Some(d));
  }

  lemma TakePathIsTidy(f: Fields, v: string)
    requires TidyFields(f) && Trimmed(v) && '\n' !in v && TakeField(f, StorePath, v).Ok?
    ensures TidyFields(TakeField(f, StorePath, v).value)
  {
    assert TakeField(f, StorePath, v).value == f.(storePath := Some(v));
  }

  lemma TakeCompressionIsTidy(f: Fields, v: string)
    requires TidyFields(f) && Trimmed(v) && '\n' !in v && TakeField(f, Compression, v).Ok?
    ensures TidyFields(TakeField(f, Compression, v).value)
  {
  }

  lemma TakeSigIsTidy(f: Fields, v: string)
    requires TidyFields(f) && Trimmed(v) && '\n' !in v && TakeField(f, Sig, v).Ok?
    ensures TidyFields(TakeField(f, Sig, v).value)
  {
    if v != "" { TidyAppends(f.signatures, v); }
  }

  lemma TakeCaIsTidy(f: Fields, v: string)
    requires TidyFields(f) && Trimmed(v) && '\n' !in v && TakeField(f, Ca, v).Ok?
    ensures TidyFields(TakeField(f, Ca, v).value)
  {
  }

  lemma TakeUrlIsTidy(f: Fields, v: string)
    requires TidyFields(f) && TakeField(f, Url, v).Ok?
    ensures TidyFields(TakeField(f, Url, v).value)
  {
    assert TakeField(f, Url, v).value == f.(narBasename := Some(ParseNarUrl(v).value));
  }

  lemma TakeFileHashIsTidy(f: Fields, v: string)
    requires TidyFields(f) && TakeField(f, FileHash, v).Ok?
    ensures TidyFields(TakeField(f, FileHash, v).value)
  {
    assert TakeField(f, FileHash, v).value == f.(fileHash := Some(v));
  }

  lemma TakeNarHashIsTidy(f: Fields, v: string)
    requires TidyFields(f) && TakeField(f, NarHash, v).Ok?
    ensures TidyFields(TakeField(f, NarHash, v).value)
  {
    assert TakeField(f, NarHash, v).value == f.(narHash := Some(v));
  }

  lemma TakeFileSizeIsTidy(f: Fields, v: string)
    requires TidyFields(f) && TakeField(f, FileSize, v).Ok?
    ensures TidyFields(TakeField(f, FileSize, v).value)
  {
    SizeIsGood(FileSize, v);
    assert TakeField(f, FileSize, v).value == f.(fileSize := Some(TakeSize(FileSize, v).value));
  }

  lemma TakeNarSizeIsTidy(f: Fields, v: string)
    requires TidyFields(f) && TakeField(f, NarSize, v).Ok?
    ensures TidyFields(TakeField(f, NarSize, v).value)
  {
    SizeIsGood(NarSize, v);
    assert TakeField(f, NarSize, v).value == f.(narSize := Some(TakeSize(NarSize, v).value));
  }

  lemma SizeIsGood(field: Field, v: string)
    requires TakeSize(field, v).Ok?
    ensures GoodSize(TakeSize(field, v).value)
  {
  }

  lemma TakeFieldIsTidy(f: Fields, field: Field, v: string)
    requires TidyFields(f) && Trimmed(v) && '\n' !in v && TakeField(f, field, v).Ok?
    ensures TidyFields(TakeField(f, field, v).value)
  {
    match field
    case StorePath => TakePathIsTidy(f, v);
    case Url => TakeUrlIsTidy(f, v);
    case Compression => TakeCompressionIsTidy(f, v);
    case FileHash => TakeFileHashIsTidy(f, v);
    case FileSize => TakeFileSizeIsTidy(f, v);
    case NarHash => TakeNarHashIsTidy(f, v);
    case NarSize => TakeNarSizeIsTidy(f, v);
    case References => TakeReferencesIsTidy(f, v);
    case Deriver => TakeDeriverIsTidy(f, v);
    case Sig => TakeSigIsTidy(f, v);
    case Ca => TakeCaIsTidy(f, v);
    case Other =>
  }

  lemma TakeItemIsTidy(f: Fields, field: Field, v: string)
    requires TidyFields(f) && Trimmed(v) && '\n' !in v && TakeItem(f, field, v).Ok?
    ensures TidyFields(TakeItem(f, field, v).value)
  {
    var g := if IsSingle(field) then f.(seen := f.seen + {field}) else f;
    assert TidyFields(g);
    TakeFieldIsTidy(g, field, v);
  }

  lemma ReadLineIsTidy(line: string)
    requires '\n' !in line && ReadLine(line).Item?
    ensures Trimmed(ReadLine(line).value) && '\n' !in ReadLine(line).value
  {
    TrimResult(line);
    var (key, value) := SplitOnce(Trim(line), ':').value;
    SplitOnceIs(Trim(line), ':');
    assert '\n' !in value;
    TrimResult(value);
  }

  lemma {:induction false} LinesHaveNoBreak(s: string)
    ensures forall i | 0 <= i < |Lines(s)| :: '\n' !in Lines(s)[i]
    decreases |s|
  {
    if s != [] {
      SplitOnceIs(s, '\n');
      match SplitOnce(s, '\n')
      case None =>
      case Some((a, b)) => LinesHaveNoBreak(b);
    }
  }

  lemma {:induction false} TakeLinesIsTidy(f: Fields, lines: seq<string>)
    requires TidyFields(f) && (forall i | 0 <= i < |lines| :: '\n' !in lines[i]) && TakeLines(f, lines).Ok?
    ensures TidyFields(TakeLines(f, lines).value)
    decreases |lines|
  {
    if lines != [] {
      LineKeepsTidy(f, lines[0]);
      TakeLinesIsTidy(TakeLine(f, lines[0]).value, lines[1..]);
    }
  }

  lemma LineKeepsTidy(f: Fields, line: string)
    requires TidyFields(f) && '\n' !in line && TakeLine(f, line).Ok?
    ensures TidyFields(TakeLine(f, line).value)
  {
    if ReadLine(line).Item? {
      ReadLineIsTidy(line);
      TakeItemIsTidy(f, ReadLine(line).field, ReadLine(line).value);
    }
  }

  /** Whatever the text, a parsed value is tidy. */
  lemma ParsedIsTidy(content: string)
    requires Parse(content).Ok?
    ensures Tidy(Parse(content).value)
  {
    LinesHaveNoBreak(content);
    TakeLinesIsTidy(NO_FIELDS, Lines(content));
    FinishIsTidy(TakeLines(NO_FIELDS, Lines(content)).value);
  }

  lemma FinishIsTidy(f: Fields)
    requires TidyFields(f) && Finish(f).Ok?
    ensures Tidy(Finish(f).value)
  {
  }

  // --- Reading a tidy rendering ----------------------------------------------------------------

  lemma TakeAppend(f: Fields, a: Items, b: Items)
    requires TakeItems(f, a).Ok?
    ensures TakeItems(f, a + b) == TakeItems(TakeItems(f, a).value, b)
  {
    FoldAppend(f, a, b, Step());
  }

  lemma TakeOne(f: Fields, field: Field, v: string)
    ensures TakeItems(f, [(field, v)]) == TakeItem(f, field, Trim(v))
  {
    FoldOne(f, (field, v), Step());
  }

  ghost function Mark(f: Fields, field: Field, v: Option<string>): set<Field> {
    if v.Some? then f.seen + {field} else f.seen
  }

  lemma TakeStorePath(f: Fields, v: string)
    requires TidyText(v) && StorePathHash(v).Ok? && StorePath !in f.seen
    ensures TakeItems(f, [(StorePath, v)]) == Ok(f.(seen := f.seen + {StorePath}, storePath := Some(v)))
  {
    TrimmedIsFixed(v);
    TakeOne(f, StorePath, v);
  }

  lemma NoBlanksTrimmed(v: string)
    requires forall i | 0 <= i < |v| :: !IsWhitespace(v[i])
    ensures Trim(v) == v && '\n' !in v
  {
    assert Trimmed(v);
    TrimmedIsFixed(v);
    BreakIsBlank(v);
  }

  lemma BreakIsBlank(v: string)
    requires forall i | 0 <= i < |v| :: !IsWhitespace(v[i])
    ensures '\n' !in v
  {
  }

  lemma NarUrlIsPlain(b: string)
    requires IsNarBasename(b)
    ensures forall i | 0 <= i < |NAR_PREFIX + b| ::
              var c := (NAR_PREFIX + b)[i]; !IsControl(c) && !IsWhitespace(c) && c != '\\'
  {
    var v := NAR_PREFIX + b;
    forall i | 0 <= i < |v| ensures !IsControl(v[i]) && !IsWhitespace(v[i]) && v[i] != '\\' {
      if i >= 4 { assert v[i] == b[i - 4]; }
    }
  }

  lemma NarUrlTrims(b: string)
    requires IsNarBasename(b)
    ensures Trim(NAR_PREFIX + b) == NAR_PREFIX + b && '\n' !in NAR_PREFIX + b
  {
    NarUrlIsPlain(b);
    NoBlanksTrimmed(NAR_PREFIX + b);
  }

  lemma NarUrl(b: string)
    requires IsNarBasename(b)
    ensures ParseNarUrl(NAR_PREFIX + b) == Ok(b) && Trim(NAR_PREFIX + b) == NAR_PREFIX + b && '\n' !in NAR_PREFIX + b
  {
    NarUrlIsPlain(b);
    NarUrlTrims(b);
    NoDotComponents(b);
    UrlBasenameIs(b);
    PlainUrlParses(NAR_PREFIX + b, b);
  }

  ghost predicate NoDots(parts: seq<string>) {
    forall i | 0 <= i < |parts| :: !IsDots(parts[i])
  }

  lemma NoDotComponents(b: string)
    requires IsNarBasename(b)
    ensures NoDots(Components(NAR_PREFIX + b))
  {
    NarComponents(b);
    NotDots(b);
  }

  lemma UrlBasenameIs(b: string)
    ensures UrlBasename(NAR_PREFIX + b) == b && NAR_PREFIX + b != ""
  {
    var v := NAR_PREFIX + b;
    assert v[|NAR_PREFIX|..] == b && NAR_PREFIX <= v;
  }

  lemma PlainUrlParses(v: string, b: string)
    requires v != "" && (forall i | 0 <= i < |v| :: !IsControl(v[i]) && !IsWhitespace(v[i]) && v[i] != '\\')
    requires NoDots(Components(v)) && UrlBasename(v) == b && IsNarBasename(b)
    ensures ParseNarUrl(v) == Ok(b)
  {
  }

  lemma NarComponents(b: string)
    requires '/' !in b
    ensures Components(NAR_PREFIX + b) == ["nar", b]
  {
    assert NAR_PREFIX + b == "nar" + ['/'] + b;
    SplitOnceAt("nar", '/', b);
    assert Components(b) == [b];
  }

  lemma NotDots(b: string)
    requires IsNarBasename(b)
    ensures !IsDots(b) && !IsDots("nar")
  {
    assert |b| == 2 ==> !(b[1 - 1] == '.' && b[1] == '.');
  }

  lemma TakeUrl(f: Fields, b: string)
    requires IsNarBasename(b) && Url !in f.seen
    ensures TakeItems(f, [(Url, NAR_PREFIX + b)]) == Ok(f.(seen := f.seen + {Url}, narBasename := Some(b)))
  {
    NarUrl(b);
    TakeOne(f, Url, NAR_PREFIX + b);
  }

  lemma TakeCompression(f: Fields, v: Option<string>)
    requires (v.Some? ==> GoodCompression(v.value)) && Compression !in f.seen && f.compression.None?
    ensures TakeItems(f, Opt(Compression, v)) == Ok(f.(seen := Mark(f, Compression, v), compression := v))
  {
    if v.Some? {
      TrimmedIsFixed(v.value);
      TakeOne(f, Compression, v.value);
    }
  }

  lemma HashHasNoBlanks(v: string)
    requires IsNixHash(v)
    ensures Trim(v) == v && '\n' !in v && v != ""
  {
    forall i | 0 <= i < |v| ensures !IsWhitespace(v[i]) {
      HashBody(v, i);
    }
    NoBlanksTrimmed(v);
  }

  lemma HashBody(v: string, i: nat)
    requires IsNixHash(v) && i < |v|
    ensures !IsWhitespace(v[i])
  {
    var c := if SplitOnce(v, ':').Some? then ':' else '-';
    var (algo, body) := SplitOnce(v, c).value;
    SplitOnceIs(v, c);
    assert v == algo + [c] + body;
    assert i < |algo| ==> v[i] == algo[i];
    assert i > |algo| ==> v[i] == body[i - |algo| - 1];
    AlgoHasNoBlanks(algo);
    BodyHasNoBlanks(c, body);
  }

  lemma AlgoHasNoBlanks(algo: string)
    requires algo == "sha256"
    ensures forall i | 0 <= i < |algo| :: !IsWhitespace(algo[i])
  {
  }

  lemma BodyHasNoBlanks(c: char, body: string)
    requires IsHashBody(c, body)
    ensures forall i | 0 <= i < |body| :: !IsWhitespace(body[i])
  {
  }

  lemma TakeFileHash(f: Fields, v: Option<string>)
    requires (v.Some? ==> IsNixHash(v.value)) && FileHash !in f.seen && f.fileHash.None?
    ensures TakeItems(f, Opt(FileHash, v)) == Ok(f.(seen := Mark(f, FileHash, v), fileHash := v))
  {
    if v.Some? {
      HashHasNoBlanks(v.value);
      TakeOne(f, FileHash, v.value);
    }
  }

  lemma DecimalReads(field: Field, n: nat)
    requires GoodSize(n)
    ensures TakeSize(field, Trim(Decimal(n))) == Ok(n) && '\n' !in Decimal(n)
  {
    ParseDecimal(n);
    NoBlanksTrimmed(Decimal(n));
  }

  lemma TakeFileSize(f: Fields, n: Option<nat>)
    requires (n.Some? ==> GoodSize(n.value)) && FileSize !in f.seen && f.fileSize.None?
    ensures TakeItems(f, Opt(FileSize, SizeText(n))) == Ok(f.(seen := Mark(f, FileSize, SizeText(n)), fileSize := n))
  {
    if n.Some? {
      DecimalReads(FileSize, n.value);
      TakeOne(f, FileSize, Decimal(n.value));
    }
  }

  lemma TakeNarHash(f: Fields, v: string)
    requires IsNixHash(v) && NarHash !in f.seen
    ensures TakeItems(f, [(NarHash, v)]) == Ok(f.(seen := f.seen + {NarHash}, narHash := Some(v)))
  {
    HashHasNoBlanks(v);
    TakeOne(f, NarHash, v);
  }

  lemma TakeNarSize(f: Fields, n: nat)
    requires GoodSize(n) && NarSize !in f.seen
    ensures TakeItems(f, [(NarSize, Decimal(n))]) == Ok(f.(seen := f.seen + {NarSize}, narSize := Some(n)))
  {
    var text := Decimal(n);
    DecimalReads(NarSize, n);
    TakeOne(f, NarSize, text);
    TakeSizeItem(f, Trim(text), n);
  }

  lemma TakeSizeItem(f: Fields, v: string, n: nat)
    requires TakeSize(NarSize, v) == Ok(n) && NarSize !in f.seen
    ensures TakeItem(f, NarSize, v) == Ok(f.(seen := f.seen + {NarSize}, narSize := Some(n)))
  {
  }

  predicate Words(refs: seq<string>) {
    forall i | 0 <= i < |refs| :: refs[i] != "" && forall j | 0 <= j < |refs[i]| :: !IsWhitespace(refs[i][j])
  }

  lemma {:induction false} WordStarts(w: string, rest: string)
    requires w != "" && (forall j | 0 <= j < |w| :: !IsWhitespace(w[j])) && (rest == [] || IsWhitespace(rest[0]))
    ensures WordLength(w + rest) == |w|
  {
    if |w| > 1 {
      WordStarts(w[1..], rest);
      assert (w + rest)[1..] == w[1..] + rest;
    } else {
      assert (w + rest)[1..] == rest;
    }
  }

  lemma TokensCons(w: string, rest: string)
    requires w != "" && forall j | 0 <= j < |w| :: !IsWhitespace(w[j])
    ensures Tokens(w + ([' '] + rest)) == [w] + Tokens(rest)
  {
    var s, tail := w + ([' '] + rest), [' '] + rest;
    WordStarts(w, tail);
    assert s[|w|..] == tail && s[..|w|] == w && s[0] == w[0];
    assert tail[1..] == rest;
  }

  lemma TokensOne(w: string)
    requires w != "" && forall j | 0 <= j < |w| :: !IsWhitespace(w[j])
    ensures Tokens(w) == [w]
  {
    WordStarts(w, "");
    assert w + "" == w;
    assert w[..|w|] == w && w[|w|..] == "";
  }

  lemma {:induction false} TokensOfJoined(refs: seq<string>)
    requires Words(refs)
    ensures Tokens(Join(refs)) == refs
  {
    if |refs| == 1 {
      TokensOne(refs[0]);
    } else if |refs| > 1 {
      Assoc(refs[0], [' '], Join(refs[1..]));
      TokensCons(refs[0], Join(refs[1..]));
      TokensOfJoined(refs[1..]);
      assert refs == [refs[0]] + refs[1..];
    }
  }

  lemma {:induction false} JoinEnds(refs: seq<string>)
    requires Words(refs) && refs != []
    ensures var s := Join(refs); TidyText(s)
  {
    if |refs| > 1 {
      JoinEnds(refs[1..]);
    }
  }

  lemma BareIsWord(r: string)
    requires BareReference(r)
    ensures r != ""
  {
  }

  lemma BareAreWords(refs: seq<string>)
    requires AllBare(refs)
    ensures Words(refs)
  {
    forall i | 0 <= i < |refs| ensures refs[i] != "" { BareIsWord(refs[i]); }
  }

  lemma {:induction false} BareStay(refs: seq<string>)
    requires AllBare(refs)
    ensures NormalizeAll(refs) == Some(refs)
  {
    if refs != [] {
      BareStay(refs[1..]);
      assert BareReference(refs[0]) && refs == [refs[0]] + refs[1..];
    }
  }

  lemma BareNormalizes(refs: seq<string>)
    requires forall i | 0 <= i < |refs| :: BareReference(refs[i])
    ensures NormalizeAll(refs) == Some(refs) && Words(refs)
  {
    BareAreWords(refs);
    BareStay(refs);
  }

  lemma TakeReferences(f: Fields, refs: seq<string>)
    requires (forall i | 0 <= i < |refs| :: BareReference(refs[i])) && References !in f.seen && f.references == []
    ensures TakeItems(f, Opt(References, ReferenceText(refs))) ==
            Ok(f.(seen := Mark(f, References, ReferenceText(refs)), references := refs))
  {
    if refs != [] {
      BareNormalizes(refs);
      TokensOfJoined(refs);
      JoinEnds(refs);
      TrimmedIsFixed(Join(refs));
      TakeOne(f, References, Join(refs));
      assert [] + refs == refs;
    }
  }

  lemma BareIsTaken(d: string)
    requires BareDeriver(d) && d != ""
    ensures TakeDeriver(d) == Ok(d)
  {
  }

  lemma TakeOneDeriver(f: Fields, v: string, d: string)
    requires TakeDeriver(v) == Ok(d) && Deriver !in f.seen
    ensures TakeItem(f, Deriver, v) == Ok(f.(seen := f.seen + {Deriver}, deriver := Some(d)))
  {
  }

  lemma TakeDeriverItem(f: Fields, d: Option<string>)
    requires (d.Some? ==> BareDeriver(d.value) && Trimmed(d.value) && d.value != "") && Deriver !in f.seen && f.deriver.None?
    ensures TakeItems(f, Opt(Deriver, d)) == Ok(f.(seen := Mark(f, Deriver, d), deriver := d))
  {
    if d.Some? {
      TrimmedIsFixed(d.value);
      TakeOne(f, Deriver, d.value);
      BareIsTaken(d.value);
      TakeOneDeriver(f, d.value, d.value);
    }
  }

  lemma TakeSignature(f: Fields, sig: string)
    requires TidyText(sig)
    ensures TakeItems(f, [(Sig, sig)]) == Ok(f.(signatures := f.signatures + [sig]))
  {
    TrimmedIsFixed(sig);
    TakeOne(f, Sig, sig);
  }

  lemma {:induction false} TakeSignatures(f: Fields, sigs: seq<string>)
    requires forall i | 0 <= i < |sigs| :: TidyText(sigs[i])
    ensures TakeItems(f, Signatures(sigs)) == Ok(f.(signatures := f.signatures + sigs))
    decreases |sigs|
  {
    if sigs == [] {
      assert f.signatures + sigs == f.signatures;
    } else {
      var g := f.(signatures := f.signatures + [sigs[0]]);
      TakeSignature(f, sigs[0]);
      TakeSignatures(g, sigs[1..]);
      assert Signatures(sigs) == [(Sig, sigs[0])] + Signatures(sigs[1..]);
      TakeAppend(f, [(Sig, sigs[0])], Signatures(sigs[1..]));
      assert f.signatures + [sigs[0]] + sigs[1..] == f.signatures + sigs;
    }
  }

  lemma TakeCa(f: Fields, v: Option<string>)
    requires TidyOpt(v) && Ca !in f.seen && f.ca.None?
    ensures TakeItems(f, Opt(Ca, v)) == Ok(f.(seen := Mark(f, Ca, v), ca := v))
  {
    if v.Some? {
      TrimmedIsFixed(v.value);
      TakeOne(f, Ca, v.value);
    }
  }

  // --- The round trip --------------------------------------------------------------------------

  predicate TrimmedDeriver(n: NarInfo) {
    n.meta.deriver.Some? ==> Trimmed(n.meta.deriver.value)
  }

  /** The state after the fields up to the file size. */
  ghost predicate HeadState(n: NarInfo, f: Fields) {
    && f == NO_FIELDS.(seen := f.seen, storePath := Some(n.meta.storePath), narBasename := Some(n.meta.narBasename),
                       compression := n.meta.compression, fileHash := n.meta.fileHash, fileSize := n.meta.fileSize)
    && Later(f)
  }

  ghost predicate Later(f: Fields) {
    NarHash !in f.seen && NarSize !in f.seen && References !in f.seen && Deriver !in f.seen && Ca !in f.seen
  }

  lemma Then(f: Fields, a: Items, g: Fields, b: Items, h: Fields)
    requires TakeItems(f, a) == Ok(g) && TakeItems(g, b) == Ok(h)
    ensures TakeItems(f, a + b) == Ok(h)
  {
    TakeAppend(f, a, b);
  }

  lemma TakePaths(f: Fields, storePath: string, basename: string) returns (g: Fields)
    requires TidyText(storePath) && StorePathHash(storePath).Ok? && IsNarBasename(basename)
    requires StorePath !in f.seen && Url !in f.seen
    ensures TakeItems(f, [(StorePath, storePath)] + [(Url, NAR_PREFIX + basename)]) == Ok(g)
    ensures g == f.(seen := f.seen + {StorePath} + {Url}, storePath := Some(storePath), narBasename := Some(basename))
  {
    TakeStorePath(f, storePath);
    var f1 := f.(seen := f.seen + {StorePath}, storePath := Some(storePath));
    TakeUrl(f1, basename);
    g := f1.(seen := f1.seen + {Url}, narBasename := Some(basename));
    Then(f, [(StorePath, storePath)], f1, [(Url, NAR_PREFIX + basename)], g);
  }

  lemma TakeFileInfo(f: Fields, hash: Option<string>, size: Option<nat>) returns (g: Fields)
    requires (hash.Some? ==> IsNixHash(hash.value)) && (size.Some? ==> GoodSize(size.value))
    requires f.fileHash.None? && f.fileSize.None? && FileHash !in f.seen && FileSize !in f.seen
    ensures TakeItems(f, Opt(FileHash, hash) + Opt(FileSize, SizeText(size))) == Ok(g)
    ensures g == f.(seen := g.seen, fileHash := hash, fileSize := size)
    ensures forall x | x in g.seen :: x in f.seen || x == FileHash || x == FileSize
  {
    TakeFileHash(f, hash);
    var f1 := f.(seen := Mark(f, FileHash, hash), fileHash := hash);
    TakeFileSize(f1, size);
    g := f1.(seen := Mark(f1, FileSize, SizeText(size)), fileSize := size);
    Then(f, Opt(FileHash, hash), f1, Opt(FileSize, SizeText(size)), g);
  }

  lemma TakeFile(f: Fields, comp: Option<string>, hash: Option<string>, size: Option<nat>) returns (g: Fields)
    requires (comp.Some? ==> GoodCompression(comp.value)) && (hash.Some? ==> IsNixHash(hash.value))
    requires (size.Some? ==> GoodSize(size.value)) && f.compression.None? && f.fileHash.None? && f.fileSize.None?
    requires Later(f) && Compression !in f.seen && FileHash !in f.seen && FileSize !in f.seen
    ensures TakeItems(f, Opt(Compression, comp) + (Opt(FileHash, hash) + Opt(FileSize, SizeText(size)))) == Ok(g)
    ensures g == f.(seen := g.seen, compression := comp, fileHash := hash, fileSize := size) && Later(g)
  {
    TakeCompression(f, comp);
    var f1 := f.(seen := Mark(f, Compression, comp), compression := comp);
    g := TakeFileInfo(f1, hash, size);
    Then(f, Opt(Compression, comp), f1, Opt(FileHash, hash) + Opt(FileSize, SizeText(size)), g);
  }

  lemma TakeHead(n: NarInfo)
    requires Tidy(n)
    ensures TakeItems(NO_FIELDS, HeadItems(n)).Ok? && HeadState(n, TakeItems(NO_FIELDS, HeadItems(n)).value)
  {
    var m := n.meta;
    var f := TakePaths(NO_FIELDS, m.storePath, m.narBasename);
    var g := TakeFile(f, m.compression, m.fileHash, m.fileSize);
    var paths: Items := [(StorePath, m.storePath)] + [(Url, NAR_PREFIX + m.narBasename)];
    var file := Opt(Compression, m.compression) + (Opt(FileHash, m.fileHash) + Opt(FileSize, SizeText(m.fileSize)));
    Then(NO_FIELDS, paths, f, file, g);
    assert HeadItems(n) == paths + file;
  }

  ghost predicate Whole(n: NarInfo, f: Fields) {
    f == Fields(f.seen, Some(n.meta.storePath), Some(n.meta.narBasename), n.meta.compression, n.meta.fileHash,
                n.meta.fileSize, Some(n.meta.narHash), Some(n.narSize), n.meta.references, n.meta.deriver,
                n.meta.signatures, n.meta.ca)
  }

  lemma TakeNar(f: Fields, hash: string, size: nat) returns (g: Fields)
    requires IsNixHash(hash) && GoodSize(size) && NarHash !in f.seen && NarSize !in f.seen
    ensures TakeItems(f, [(NarHash, hash), (NarSize, Decimal(size))]) == Ok(g)
    ensures g == f.(seen := f.seen + {NarHash} + {NarSize}, narHash := Some(hash), narSize := Some(size))
  {
    var i1: Items, i2: Items := [(NarHash, hash)], [(NarSize, Decimal(size))];
    TakeNarHash(f, hash);
    var f1 := f.(seen := f.seen + {NarHash}, narHash := Some(hash));
    TakeNarSize(f1, size);
    g := f1.(seen := f1.seen + {NarSize}, narSize := Some(size));
    Then(f, i1, f1, i2, g);
    assert i1 + i2 == [(NarHash, hash), (NarSize, Decimal(size))];
  }

  lemma TakeLinks(f: Fields, refs: seq<string>, deriver: Option<string>) returns (g: Fields)
    requires forall i | 0 <= i < |refs| :: BareReference(refs[i])
    requires deriver.Some? ==> BareDeriver(deriver.value) && Trimmed(deriver.value)
    requires References !in f.seen && Deriver !in f.seen && f.references == [] && f.deriver.None?
    ensures g == f.(seen := g.seen, references := refs, deriver := deriver) && (Ca !in f.seen ==> Ca !in g.seen)
    ensures TakeItems(f, Opt(References, ReferenceText(refs)) + Opt(Deriver, deriver)) == Ok(g)
  {
    TakeReferences(f, refs);
    var f1 := f.(seen := Mark(f, References, ReferenceText(refs)), references := refs);
    if deriver.Some? { DeriverIsNotEmpty(deriver.value); }
    TakeDeriverItem(f1, deriver);
    g := f1.(seen := Mark(f1, Deriver, deriver), deriver := deriver);
    Then(f, Opt(References, ReferenceText(refs)), f1, Opt(Deriver, deriver), g);
  }

  lemma TakeSigned(f: Fields, sigs: seq<string>, ca: Option<string>) returns (g: Fields)
    requires (forall i | 0 <= i < |sigs| :: TidyText(sigs[i])) && TidyOpt(ca) && Ca !in f.seen && f.ca.None? && f.signatures == []
    ensures TakeItems(f, Signatures(sigs) + Opt(Ca, ca)) == Ok(g)
    ensures g == f.(seen := g.seen, signatures := sigs, ca := ca)
  {
    TakeSignatures(f, sigs);
    assert [] + sigs == sigs;
    var f1 := f.(signatures := sigs);
    TakeCa(f1, ca);
    g := f1.(seen := Mark(f1, Ca, ca), ca := ca);
    Then(f, Signatures(sigs), f1, Opt(Ca, ca), g);
  }

  lemma TakeRest(f: Fields, m: NarInfoMeta, links: Items, signed: Items) returns (h: Fields)
    requires (forall i | 0 <= i < |m.references| :: BareReference(m.references[i]))
    requires (forall i | 0 <= i < |m.signatures| :: TidyText(m.signatures[i])) && TidyOpt(m.ca)
    requires m.deriver.Some? ==> BareDeriver(m.deriver.value) && Trimmed(m.deriver.value)
    requires References !in f.seen && Deriver !in f.seen && Ca !in f.seen
    requires f.references == [] && f.deriver.None? && f.ca.None? && f.signatures == []
    requires links == Opt(References, ReferenceText(m.references)) + Opt(Deriver, m.deriver)
    requires signed == Signatures(m.signatures) + Opt(Ca, m.ca)
    ensures TakeItems(f, links + signed) == Ok(h)
    ensures h == f.(seen := h.seen, references := m.references, deriver := m.deriver, signatures := m.signatures, ca := m.ca)
  {
    var g := TakeLinks(f, m.references, m.deriver);
    h := TakeSigned(g, m.signatures, m.ca);
    Then(f, links, g, signed, h);
  }

  lemma NarKeepsRest(f: Fields, g: Fields, hash: string, size: nat)
    requires Later(f) && g == f.(seen := f.seen + {NarHash} + {NarSize}, narHash := Some(hash), narSize := Some(size))
    ensures References !in g.seen && Deriver !in g.seen && Ca !in g.seen
  {
  }

  lemma TakeTail(n: NarInfo, f: Fields)
    requires Tidy(n) && TrimmedDeriver(n) && HeadState(n, f)
    ensures TakeItems(f, TailItems(n)).Ok? && Whole(n, TakeItems(f, TailItems(n)).value)
  {
    var m := n.meta;
    var links := Opt(References, ReferenceText(m.references)) + Opt(Deriver, m.deriver);
    var signed := Signatures(m.signatures) + Opt(Ca, m.ca);
    var g := TakeNar(f, m.narHash, n.narSize);
    NarKeepsRest(f, g, m.narHash, n.narSize);
    var h := TakeRest(g, m, links, signed);
    Then(f, [(NarHash, m.narHash), (NarSize, Decimal(n.narSize))], g, links + signed, h);
  }

  lemma DeriverIsNotEmpty(d: string)
    requires BareDeriver(d)
    ensures d != ""
  {
  }

  lemma WholeFinishes(n: NarInfo, f: Fields)
    requires Whole(n, f) && ValidMeta(n.meta)
    ensures Finish(f) == Ok(n)
  {
  }

  lemma OneLineAppend(a: Items, b: Items)
    requires OneLine(a) && OneLine(b)
    ensures OneLine(a + b)
  {
  }

  lemma PathsAreOneLine(storePath: string, basename: string)
    requires '\n' !in storePath && IsNarBasename(basename)
    ensures OneLine([(StorePath, storePath)] + [(Url, NAR_PREFIX + basename)])
  {
    NarUrl(basename);
    OneLineAppend([(StorePath, storePath)], [(Url, NAR_PREFIX + basename)]);
  }

  lemma OptIsOneLine(field: Field, v: Option<string>)
    requires field != Other && (v.Some? ==> '\n' !in v.value)
    ensures OneLine(Opt(field, v))
  {
  }

  lemma FileIsOneLine(hash: Option<string>, size: Option<nat>)
    requires (hash.Some? ==> IsNixHash(hash.value)) && (size.Some? ==> GoodSize(size.value))
    ensures OneLine(Opt(FileHash, hash) + Opt(FileSize, SizeText(size)))
  {
    if hash.Some? { HashHasNoBlanks(hash.value); }
    if size.Some? { DecimalReads(FileSize, size.value); }
    OptIsOneLine(FileHash, hash);
    OptIsOneLine(FileSize, SizeText(size));
    OneLineAppend(Opt(FileHash, hash), Opt(FileSize, SizeText(size)));
  }

  lemma HeadIsOneLine(n: NarInfo)
    requires Tidy(n)
    ensures OneLine(HeadItems(n))
  {
    var m := n.meta;
    PathsAreOneLine(m.storePath, m.narBasename);
    FileIsOneLine(m.fileHash, m.fileSize);
    var file := Opt(FileHash, m.fileHash) + Opt(FileSize, SizeText(m.fileSize));
    OneLineAppend(Opt(Compression, m.compression), file);
    OneLineAppend(
      [(StorePath, m.storePath)] + [(Url, NAR_PREFIX + m.narBasename)], Opt(Compression, m.compression) + file);
  }

  lemma LinksAreOneLine(refs: seq<string>, deriver: Option<string>)
    requires (forall i | 0 <= i < |refs| :: BareReference(refs[i])) && (deriver.Some? ==> '\n' !in deriver.value)
    ensures OneLine(Opt(References, ReferenceText(refs)) + Opt(Deriver, deriver))
  {
    if refs != [] {
      BareNormalizes(refs);
      JoinEnds(refs);
    }
    OneLineAppend(Opt(References, ReferenceText(refs)), Opt(Deriver, deriver));
  }

  lemma SignedIsOneLine(sigs: seq<string>, ca: Option<string>)
    requires (forall i | 0 <= i < |sigs| :: TidyText(sigs[i])) && TidyOpt(ca)
    ensures OneLine(Signatures(sigs) + Opt(Ca, ca))
  {
    OneLineAppend(Signatures(sigs), Opt(Ca, ca));
  }

  lemma NarIsOneLine(hash: string, size: string)
    requires '\n' !in hash && '\n' !in size
    ensures OneLine([(NarHash, hash), (NarSize, size)])
  {
  }

  lemma TailIsOneLine(n: NarInfo)
    requires Tidy(n)
    ensures OneLine(TailItems(n))
  {
    var m := n.meta;
    DecimalReads(NarSize, n.narSize);
    HashHasNoBlanks(m.narHash);
    LinksAreOneLine(m.references, m.deriver);
    SignedIsOneLine(m.signatures, m.ca);
    var links := Opt(References, ReferenceText(m.references)) + Opt(Deriver, m.deriver);
    var signed := Signatures(m.signatures) + Opt(Ca, m.ca);
    NarIsOneLine(m.narHash, Decimal(n.narSize));
    OneLineAppend(links, signed);
    OneLineAppend([(NarHash, m.narHash), (NarSize, Decimal(n.narSize))], links + signed);
  }

  lemma TidyIsOneLine(n: NarInfo)
    requires Tidy(n)
    ensures OneLine(ItemsOf(n)) && ItemsOf(n) != []
  {
    HeadIsOneLine(n);
    TailIsOneLine(n);
    OneLineAppend(HeadItems(n), TailItems(n));
  }

  /** Parsing undoes rendering for every tidy value whose deriver has no outer blanks. */
  lemma RoundTrip(n: NarInfo)
    requires Tidy(n) && TrimmedDeriver(n)
    ensures Parse(Render(n)) == Ok(n)
  {
    TidyIsOneLine(n);
    ParseOfRendering(ItemsOf(n));
    TakeHead(n);
    var f := TakeItems(NO_FIELDS, HeadItems(n)).value;
    TakeAppend(NO_FIELDS, HeadItems(n), TailItems(n));
    TakeTail(n, f);
    WholeFinishes(n, TakeItems(f, TailItems(n)).value);
  }

  // --- The other direction ---------------------------------------------------------------------

  lemma TakeFirst(f: Fields, items: Items) returns (g: Fields)
    requires items != [] && TakeItems(f, items).Ok?
    ensures TakeItem(f, items[0].0, Trim(items[0].1)) == Ok(g) && TakeItems(f, items) == TakeItems(g, items[1..])
    ensures items == [items[0]] + items[1..]
  {
    g := FoldFirst(f, items, Step());
  }

  lemma {:induction false} DeriverStays(f: Fields, items: Items)
    requires Deriver in f.seen && TakeItems(f, items).Ok?
    ensures TakeItems(f, items).value.deriver == f.deriver && forall item | item in items :: item.0 != Deriver
    decreases |items|
  {
    if items != [] {
      var g := TakeFirst(f, items);
      ItemKeepsDeriver(f, items[0].0, Trim(items[0].1));
      DeriverStays(g, items[1..]);
    }
  }

  lemma ItemKeepsDeriver(f: Fields, field: Field, v: string)
    requires Deriver in f.seen && TakeItem(f, field, v).Ok?
    ensures field != Deriver && Deriver in TakeItem(f, field, v).value.seen
    ensures TakeItem(f, field, v).value.deriver == f.deriver
  {
  }

  lemma ItemTakesDeriver(f: Fields, v: string)
    requires TakeItem(f, Deriver, v).Ok?
    ensures var g := TakeItem(f, Deriver, v).value;
            Deriver in g.seen && g.deriver.Some? && TakeDeriver(v) == Ok(g.deriver.value)
  {
  }

  /** The deriver that is read comes from its one item. */
  lemma {:induction false} DeriverIsRead(f: Fields, items: Items, d: string)
    requires TakeItems(f, items).Ok? && (Deriver, d) in items
    ensures var g := TakeItems(f, items).value; g.deriver.Some? && TakeDeriver(Trim(d)) == Ok(g.deriver.value)
    decreases |items|
  {
    var g := TakeFirst(f, items);
    if items[0].0 == Deriver {
      ItemTakesDeriver(f, Trim(items[0].1));
      DeriverStays(g, items[1..]);
      assert items[0] == (Deriver, d);
    } else {
      DeriverIsRead(g, items[1..], d);
    }
  }

  lemma DeriverHasNoPrefix(v: string, d: string)
    requires '/' !in v && TakeDeriver(v) == Ok(d)
    ensures v == d
  {
    PrefixHasSlash(v);
  }

  lemma BareHasNoSlash(d: string)
    requires BareDeriver(d)
    ensures '/' !in d
  {
  }

  lemma BareTrims(d: string)
    requires BareDeriver(d) && TakeDeriver(Trim(d)) == Ok(d)
    ensures Trimmed(d)
  {
    TrimResult(d);
    BareHasNoSlash(d);
    DeriverHasNoPrefix(Trim(d), d);
  }

  lemma FinishKeepsDeriver(f: Fields)
    requires Finish(f).Ok?
    ensures Finish(f).value.meta.deriver == f.deriver
  {
  }

  lemma OnlyTrimmedDerivers(n: NarInfo)
    requires Tidy(n) && Parse(Render(n)) == Ok(n)
    ensures TrimmedDeriver(n)
  {
    if n.meta.deriver.Some? {
      var d := n.meta.deriver.value;
      TidyIsOneLine(n);
      ParseOfRendering(ItemsOf(n));
      HasDeriver(n);
      DeriverIsRead(NO_FIELDS, ItemsOf(n), d);
      FinishKeepsDeriver(TakeItems(NO_FIELDS, ItemsOf(n)).value);
      BareTrims(d);
    }
  }

  lemma HasDeriver(n: NarInfo)
    requires n.meta.deriver.Some?
    ensures (Deriver, n.meta.deriver.value) in ItemsOf(n)
  {
    assert (Deriver, n.meta.deriver.value) in TailItems(n);
  }

  /** Parsing undoes rendering exactly for the tidy values whose deriver has no outer blanks. */
  lemma RoundTripIsExact(n: NarInfo)
    ensures Parse(Render(n)) == Ok(n) <==> Tidy(n) && TrimmedDeriver(n)
  {
    if Parse(Render(n)) == Ok(n) {
      ParsedIsTidy(Render(n));
      OnlyTrimmedDerivers(n);
    }
    if Tidy(n) && TrimmedDeriver(n) { RoundTrip(n); }
  }

  /** What was parsed can be rendered and parsed again, unless a blank follows the store prefix of its deriver. */
  lemma ParsedRoundTrips(content: string)
    requires Parse(content).Ok?
    ensures Parse(Render(Parse(content).value)) == Parse(content) <==> TrimmedDeriver(Parse(content).value)
  {
    ParsedIsTidy(content);
    RoundTripIsExact(Parse(content).value);
  }

  /** A derivation's basename with a blank before its hash, which the check of the hash overlooks. */
  function Blanked(h: StoreHash, name: string): string {
    [' '] + h + ['-'] + name
  }

  lemma BlankedHash(h: StoreHash, name: string)
    requires IsStoreHash(h) && name == "x.drv"
    ensures BasenameHash(Blanked(h, name)) == Ok(h)
  {
    DerivationIsPlain(name);
    HashHasNoDash(h);
    SplitOnceAt([' '] + h, '-', name);
    BlankHashParses(h);
  }

  lemma DerivationIsPlain(name: string)
    requires name == "x.drv"
    ensures Plain(name)
  {
  }

  lemma HashHasNoDash(h: StoreHash)
    requires IsStoreHash(h)
    ensures '-' !in [' '] + h && Trimmed(h)
  {
  }

  lemma BlankHashParses(h: StoreHash)
    requires IsStoreHash(h)
    ensures ParseStoreHash([' '] + h) == Ok(h)
  {
    HashHasNoDash(h);
    TrimFront([' '], h);
  }

  lemma BlankedIsBare(h: StoreHash, name: string)
    requires IsStoreHash(h) && name == "x.drv"
    ensures BareDeriver(Blanked(h, name)) && !Trimmed(Blanked(h, name)) && '\\' !in Blanked(h, name)
  {
    var d := Blanked(h, name);
    assert d[|d| - 5..] == name && d[|d| - 4..] == ".drv";
    assert '/' !in d && '\\' !in d && '\n' !in d;
    PrefixHasSlash(d);
    BlankedHash(h, name);
  }

  /** A sample value whose deriver is such a basename. */
  function BlankedInfo(h: StoreHash, name: string): NarInfo {
    NarInfo(
      NarInfoMeta(STORE_DIR + Basename(h), NAR, None, None, None, SampleDigest(), [], Some(Blanked(h, name)), [], None), 1)
  }

  /** The fields of a text that gives the full store path of the deriver. */
  function BlankedItems(h: StoreHash, name: string): Items {
    HeadItems(BlankedInfo(h, name)) +
    ([(NarHash, SampleDigest()), (NarSize, Decimal(1))] + [(Deriver, STORE_DIR + Blanked(h, name))])
  }

  lemma SamplePathIsTidy(h: StoreHash)
    requires IsStoreHash(h)
    ensures TidyText(STORE_DIR + Basename(h))
  {
    NameIs();
    var p := STORE_DIR + Basename(h);
    assert p[0] == STORE_DIR[0] == '/' && p[|p| - 1] == 'x';
  }

  lemma BlankedMetaIsValid(h: StoreHash, name: string)
    requires IsStoreHash(h) && name == "x.drv"
    ensures ValidMeta(BlankedInfo(h, name).meta)
  {
    BlankedIsBare(h, name);
    PathParses(h);
    NarIsPlain();
    DigestIsNixHash();
  }

  lemma BlankedIsTidy(h: StoreHash, name: string)
    requires IsStoreHash(h) && name == "x.drv"
    ensures Tidy(BlankedInfo(h, name)) && !TrimmedDeriver(BlankedInfo(h, name))
  {
    BlankedMetaIsValid(h, name);
    BlankedIsBare(h, name);
    SamplePathIsTidy(h);
  }

  lemma FullPathIsTaken(h: StoreHash, name: string)
    requires IsStoreHash(h) && name == "x.drv"
    ensures TakeDeriver(Trim(STORE_DIR + Blanked(h, name))) == Ok(Blanked(h, name)) && '\n' !in STORE_DIR + Blanked(h, name)
  {
    var d := Blanked(h, name);
    BlankedIsBare(h, name);
    BlankedHash(h, name);
    PathNormalizes(d);
    var p := STORE_DIR + d;
    assert p[0] == STORE_DIR[0] == '/' && p[|p| - 1] == d[|d| - 1] == name[4] == 'v';
    TrimmedIsFixed(p);
  }

  lemma BlankedTailReads(f: Fields, h: StoreHash, name: string)
    requires IsStoreHash(h) && name == "x.drv" && HeadState(BlankedInfo(h, name), f)
    ensures var r := TakeItems(f, [(NarHash, SampleDigest()), (NarSize, Decimal(1))] + [(Deriver, STORE_DIR + Blanked(h, name))]);
            r.Ok? && Whole(BlankedInfo(h, name), r.value)
  {
    var path, d := STORE_DIR + Blanked(h, name), Blanked(h, name);
    DigestIsNixHash();
    var g := TakeNar(f, SampleDigest(), 1);
    NarKeepsRest(f, g, SampleDigest(), 1);
    FullPathIsTaken(h, name);
    TakeOne(g, Deriver, path);
    TakeOneDeriver(g, Trim(path), d);
    Then(f, [(NarHash, SampleDigest()), (NarSize, Decimal(1))], g, [(Deriver, path)],
         g.(seen := g.seen + {Deriver}, deriver := Some(d)));
  }

  lemma BlankedIsOneLine(h: StoreHash, name: string)
    requires IsStoreHash(h) && name == "x.drv"
    ensures OneLine(BlankedItems(h, name)) && BlankedItems(h, name) != []
  {
    BlankedIsTidy(h, name);
    HeadIsOneLine(BlankedInfo(h, name));
    DigestIsNixHash();
    HashHasNoBlanks(SampleDigest());
    DecimalReads(NarSize, 1);
    FullPathIsTaken(h, name);
    NarIsOneLine(SampleDigest(), Decimal(1));
    var nar: Items, drv: Items := [(NarHash, SampleDigest()), (NarSize, Decimal(1))], [(Deriver, STORE_DIR + Blanked(h, name))];
    OneLineAppend(nar, drv);
    OneLineAppend(HeadItems(BlankedInfo(h, name)), nar + drv);
  }

  /** A text parses to a value with such a deriver, and that value does not survive rendering and parsing. */
  lemma BlankedDeriverIsLost(h: StoreHash, name: string)
    requires h == SampleHash('a') && name == "x.drv"
    ensures Parse(Rendered(BlankedItems(h, name))) == Ok(BlankedInfo(h, name))
    ensures Parse(Render(BlankedInfo(h, name))) != Ok(BlankedInfo(h, name))
  {
    SampleHashIsHash('a');
    var n := BlankedInfo(h, name);
    BlankedIsTidy(h, name);
    RoundTripIsExact(n);
    BlankedParses(h, name);
  }

  lemma BlankedParses(h: StoreHash, name: string)
    requires IsStoreHash(h) && name == "x.drv"
    ensures Parse(Rendered(BlankedItems(h, name))) == Ok(BlankedInfo(h, name))
  {
    var n := BlankedInfo(h, name);
    var tail: Items := [(NarHash, SampleDigest()), (NarSize, Decimal(1))] + [(Deriver, STORE_DIR + Blanked(h, name))];
    BlankedIsTidy(h, name);
    BlankedIsOneLine(h, name);
    ParseOfRendering(BlankedItems(h, name));
    TakeHead(n);
    var f := TakeItems(NO_FIELDS, HeadItems(n)).value;
    BlankedTailReads(f, h, name);
    TakeAppend(NO_FIELDS, HeadItems(n), tail);
    WholeFinishes(n, TakeItems(f, tail).value);
  }

  lemma PathNormalizes(d: string)
    requires d != "" && '/' !in d && '\\' !in d && BasenameHash(d).Ok?
    ensures Normalize(STORE_DIR + d) == Ok(d)
  {
    assert (STORE_DIR + d)[|STORE_DIR|..] == d && STORE_DIR <= STORE_DIR + d;
  }
}
