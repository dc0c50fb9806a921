/**
 What the parser makes of an arbitrary text, stated on its lines: which texts it accepts, and
 which line each part of the value comes from.
 */
module NarInfoText {
  import opened Basics
  import opened Text
  import opened Types
  import opened NarInfo
  import opened NarInfoLaws

  // --- Parts of the value ----------------------------------------------------------------------

  /** What the values of one key say about an optional text. */
  predicate TextSaid(vs: seq<string>, o: Option<string>) {
    if o.None? then vs == [] else vs == [o.value] && o.value != ""
  }

  predicate PathSaid(vs: seq<string>, p: Option<string>) {
    TextSaid(vs, p) && (p.Some? ==> StorePathHash(p.value).Ok?)
  }

  predicate HashSaid(vs: seq<string>, h: Option<string>) {
    TextSaid(vs, h) && (h.Some? ==> IsNixHash(h.value))
  }

  predicate UrlSaid(vs: seq<string>, b: Option<string>) {
    if b.None? then vs == [] else |vs| == 1 && ParseNarUrl(vs[0]) == Ok(b.value)
  }

  /** The word for no compression counts as none. */
  predicate CompressionSaid(vs: seq<string>, c: Option<string>) {
    if c.None? then vs == [] || vs == ["none"] else TextSaid(vs, c) && c.value != "none"
  }

  predicate SizeSaid(vs: seq<string>, n: Option<nat>) {
    if n.None? then vs == [] else |vs| == 1 && ParseU64(vs[0]) == n && n.value > 0
  }

  predicate DeriverSaid(vs: seq<string>, d: Option<string>) {
    if d.None? then vs == [] else |vs| == 1 && vs[0] != "" && Normalize(vs[0]) == Ok(d.value) && EndsWith(d.value, ".drv")
  }

  predicate AllNormalize(words: seq<string>, refs: seq<string>) {
    |words| == |refs| && forall i | 0 <= i < |words| :: Normalize(words[i]) == Ok(refs[i])
  }

  predicate ReferencesSaid(vs: seq<string>, refs: seq<string>) {
    if vs == [] then refs == [] else |vs| == 1 && AllNormalize(Tokens(vs[0]), refs)
  }

  function NonEmpty(vs: seq<string>): seq<string> {
    if vs == [] then []
    else NonEmpty(vs[..|vs| - 1]) + (if vs[|vs| - 1] == "" then [] else [vs[|vs| - 1]])
  }

  /** What the values of a field say about its part of the parser's state. */
  ghost predicate Said(field: Field, vs: seq<string>, f: Fields) {
    match field
    case StorePath => PathSaid(vs, f.storePath)
    case Url => UrlSaid(vs, f.narBasename)
    case Compression => CompressionSaid(vs, f.compression)
    case FileHash => HashSaid(vs, f.fileHash)
    case FileSize => SizeSaid(vs, f.fileSize)
    case NarHash => HashSaid(vs, f.narHash)
    case NarSize => SizeSaid(vs, f.narSize)
    case References => ReferencesSaid(vs, f.references)
    case Deriver => DeriverSaid(vs, f.deriver)
    case Sig => f.signatures == NonEmpty(vs)
    case Ca => TextSaid(vs, f.ca)
    case Other => true
  }

  /** The state with one part taken from another state. */
  function Graft(f: Fields, field: Field, g: Fields): Fields {
    match field
    case StorePath => f.(storePath := g.storePath)
    case Url => f.(narBasename := g.narBasename)
    case Compression => f.(compression := g.compression)
    case FileHash => f.(fileHash := g.fileHash)
    case FileSize => f.(fileSize := g.fileSize)
    case NarHash => f.(narHash := g.narHash)
    case NarSize => f.(narSize := g.narSize)
    case References => f.(references := g.references)
    case Deriver => f.(deriver := g.deriver)
    case Sig => f.(signatures := g.signatures)
    case Ca => f.(ca := g.ca)
    case Other => f
  }

  // --- One value -------------------------------------------------------------------------------

  lemma PathTakes(f: Fields, v: string, g: Fields)
    ensures TakePlainField(f, StorePath, v) == Ok(g) <==> g == f.(storePath := g.storePath) && PathSaid([v], g.storePath)
  {
  }

  lemma UrlTakes(f: Fields, v: string, g: Fields)
    ensures TakePlainField(f, Url, v) == Ok(g) <==> g == f.(narBasename := g.narBasename) && UrlSaid([v], g.narBasename)
  {
  }

  lemma CompressionTakes(f: Fields, v: string, g: Fields)
    requires f.compression.None?
    ensures TakePlainField(f, Compression, v) == Ok(g) <==> g == f.(compression := g.compression) && CompressionSaid([v], g.compression)
  {
  }

  lemma HashTakes(f: Fields, v: string, g: Fields)
    ensures TakePlainField(f, FileHash, v) == Ok(g) <==> g == f.(fileHash := g.fileHash) && HashSaid([v], g.fileHash)
    ensures TakePlainField(f, NarHash, v) == Ok(g) <==> g == f.(narHash := g.narHash) && HashSaid([v], g.narHash)
  {
  }

  lemma SizeTakes(f: Fields, v: string, g: Fields)
    ensures TakePlainField(f, FileSize, v) == Ok(g) <==> g == f.(fileSize := g.fileSize) && SizeSaid([v], g.fileSize)
    ensures TakePlainField(f, NarSize, v) == Ok(g) <==> g == f.(narSize := g.narSize) && SizeSaid([v], g.narSize)
  {
  }

  lemma NormalizesTo(words: seq<string>, refs: seq<string>)
    ensures NormalizeAll(words) == Some(refs) <==> AllNormalize(words, refs)
  {
    var r := NormalizeAll(words);
    if AllNormalize(words, refs) && r.Some? { assert r.value == refs; }
  }

  lemma ReferencesGiven(f: Fields, refs: Option<seq<string>>, g: Fields)
    requires f.references == []
    ensures WithReferences(f, refs) == Ok(g) <==> g == f.(references := g.references) && refs == Some(g.references)
  {
    if refs.Some? { assert f.references + refs.value == refs.value; }
  }

  lemma ReferencesTake(f: Fields, v: string, g: Fields)
    requires f.references == []
    ensures TakeField(f, References, v) == Ok(g) <==> g == f.(references := g.references) && ReferencesSaid([v], g.references)
  {
    ReferencesGiven(f, NormalizeAll(Tokens(v)), g);
    NormalizesTo(Tokens(v), g.references);
  }

  lemma DeriverIs(v: string, d: string)
    ensures TakeDeriver(v) == Ok(d) <==> DeriverSaid([v], Some(d))
  {
  }

  lemma DeriverGiven(f: Fields, d: Result<string, ParseError>, g: Fields)
    ensures WithDeriver(f, d) == Ok(g) <==> g == f.(deriver := g.deriver) && g.deriver.Some? && d == Ok(g.deriver.value)
  {
  }

  lemma DeriverTakes(f: Fields, v: string, g: Fields)
    ensures TakeField(f, Deriver, v) == Ok(g) <==> g == f.(deriver := g.deriver) && DeriverSaid([v], g.deriver)
  {
    TakeFieldDeriver(f, v);
    DeriverGiven(f, TakeDeriver(v), g);
    if g.deriver.Some? { DeriverIs(v, g.deriver.value); }
  }

  lemma CaTakes(f: Fields, v: string, g: Fields)
    ensures TakePlainField(f, Ca, v) == Ok(g) <==> g == f.(ca := g.ca) && TextSaid([v], g.ca)
  {
  }

  lemma SigTakes(f: Fields, v: string)
    ensures TakePlainField(f, Sig, v) == Ok(f.(signatures := f.signatures + (if v == "" then [] else [v])))
  {
    if v == "" { assert f.signatures + [] == f.signatures; }
  }

  /** A single field is taken into a state without it exactly when its value says the new part. */
  lemma FieldTakes(f: Fields, field: Field, v: string, g: Fields)
    requires IsSingle(field) && Said(field, [], f)
    ensures TakeField(f, field, v) == Ok(g) <==> g == Graft(f, field, g) && Said(field, [v], g)
  {
    match field
    case StorePath => PathTakes(f, v, g);
    case Url => UrlTakes(f, v, g);
    case Compression => CompressionTakes(f, v, g);
    case FileHash => HashTakes(f, v, g);
    case FileSize => SizeTakes(f, v, g);
    case NarHash => HashTakes(f, v, g);
    case NarSize => SizeTakes(f, v, g);
    case References => ReferencesTake(f, v, g);
    case Deriver => DeriverTakes(f, v, g);
    case Ca => CaTakes(f, v, g);
  }

  ghost function Says(field: Field, vs: seq<string>): Fields -> bool {
    (f: Fields) => Said(field, vs, f)
  }

  /** The state after a single field that was not there before. */
  ghost predicate Grown(f: Fields, field: Field, v: string, g: Fields) {
    field !in f.seen && g == Graft(f.(seen := f.seen + {field}), field, g) && Says(field, [v])(g)
  }

  lemma ItemTakes(f: Fields, field: Field, v: string, g: Fields)
    requires IsSingle(field) && (field !in f.seen ==> Says(field, [])(f))
    ensures TakeItem(f, field, v) == Ok(g) <==> Grown(f, field, v, g)
  {
    if field !in f.seen {
      SeenAlone(field, [], f, f.seen + {field});
      FieldTakes(f.(seen := f.seen + {field}), field, v, g);
    }
  }

  lemma SeenAlone(field: Field, vs: seq<string>, f: Fields, seen: set<Field>)
    requires Said(field, vs, f)
    ensures Said(field, vs, f.(seen := seen))
  {
  }

  /** The other parts are the same in both states. */
  lemma GraftKeeps(f: Fields, field: Field, g: Fields, other: Field, vs: seq<string>)
    requires g == Graft(f, field, g).(seen := g.seen) && other != field && Says(other, vs)(f)
    ensures Says(other, vs)(g)
  {
  }

  lemma GrownKeeps(f: Fields, field: Field, v: string, g: Fields, other: Field, vs: seq<string>)
    requires Grown(f, field, v, g) && other != field && Says(other, vs)(f)
    ensures Says(other, vs)(g)
  {
    GraftSeen(f, field, g, f.seen + {field});
    GraftKeeps(f, field, g, other, vs);
  }

  lemma GraftSeen(f: Fields, field: Field, g: Fields, seen: set<Field>)
    requires g == Graft(f.(seen := seen), field, g)
    ensures g.seen == seen && g == Graft(f, field, g).(seen := g.seen)
  {
  }

  lemma SaidOnce(field: Field, vs: seq<string>, f: Fields)
    requires IsSingle(field) && Says(field, vs)(f)
    ensures |vs| <= 1
  {
  }

  lemma NothingSaid(f: Fields, field: Field, seen: set<Field>)
    requires field != Sig
    ensures Says(field, [])(Graft(f, field, NO_FIELDS).(seen := seen))
  {
  }

  lemma GraftBack(f: Fields, field: Field, g: Fields, seen: set<Field>)
    ensures Graft(Graft(g, field, f).(seen := seen), field, g) == g.(seen := seen)
  {
  }

  /** The state before a single field was taken. */
  ghost function Before(g: Fields, field: Field): Fields {
    Graft(g, field, NO_FIELDS).(seen := g.seen - {field})
  }

  lemma BeforeGrows(g: Fields, field: Field, v: string)
    requires IsSingle(field) && field in g.seen && Says(field, [v])(g)
    ensures Says(field, [])(Before(g, field)) && Grown(Before(g, field), field, v, g)
  {
    NothingSaid(g, field, g.seen - {field});
    GraftBack(NO_FIELDS, field, g, g.seen);
    assert g.seen - {field} + {field} == g.seen;
    assert Before(g, field).(seen := g.seen) == Graft(g, field, NO_FIELDS).(seen := g.seen);
  }

  lemma BeforeKeeps(g: Fields, field: Field, other: Field, vs: seq<string>)
    requires other != field && Says(other, vs)(g)
    ensures Says(other, vs)(Before(g, field))
  {
  }

  // --- Lines -----------------------------------------------------------------------------------

  /** The values that the lines give a field, in order. */
  function Of(lines: seq<Line>, field: Field): seq<string> {
    if lines == [] then []
    else
      var last := lines[|lines| - 1];
      Of(lines[..|lines| - 1], field) + (if last.Item? && last.field == field then [last.value] else [])
  }

  lemma OfNext(lines: seq<Line>, line: Line, field: Field)
    ensures Of(lines + [line], field) ==
            if line.Item? && line.field == field then Of(lines, field) + [line.value] else Of(lines, field)
  {
    assert (lines + [line])[..|lines|] == lines;
    assert Of(lines, field) + [] == Of(lines, field);
  }

  ghost predicate NoneMalformed(lines: seq<Line>) {
    forall i | 0 <= i < |lines| :: !lines[i].Malformed?
  }

  lemma NoneMalformedNext(lines: seq<Line>, line: Line)
    ensures NoneMalformed(lines + [line]) <==> NoneMalformed(lines) && !line.Malformed?
  {
    var all := lines + [line];
    assert all[|lines|] == line && forall i | 0 <= i < |lines| :: all[i] == lines[i];
  }

  /** What the values of one field say about the state. */
  ghost predicate FieldHolds(vs: seq<string>, field: Field, f: Fields) {
    Says(field, vs)(f) && (field in f.seen <==> IsSingle(field) && vs != [])
  }

  ghost predicate Holds(lines: seq<Line>, f: Fields) {
    NoneMalformed(lines) && forall field :: FieldHolds(Of(lines, field), field, f)
  }

  lemma SingleTaken(lines: seq<Line>, f: Fields, field: Field, v: string, g: Fields)
    requires Holds(lines, f) && IsSingle(field) && TakeItem(f, field, v) == Ok(g)
    ensures Holds(lines + [Item(field, v)], g)
  {
    NoneMalformedNext(lines, Item(field, v));
    assert FieldHolds(Of(lines, field), field, f);
    ItemTakes(f, field, v, g);
    GraftSeen(f, field, g, f.seen + {field});
    forall other ensures FieldHolds(Of(lines + [Item(field, v)], other), other, g) {
      assert FieldHolds(Of(lines, other), other, f);
      OfNext(lines, Item(field, v), other);
      if other != field {
        GrownKeeps(f, field, v, g, other, Of(lines, other));
      }
    }
  }

  lemma SingleReached(lines: seq<Line>, field: Field, v: string, g: Fields)
    requires Holds(lines + [Item(field, v)], g) && IsSingle(field)
    ensures Holds(lines, Before(g, field)) && TakeItem(Before(g, field), field, v) == Ok(g)
  {
    NoneMalformedNext(lines, Item(field, v));
    assert FieldHolds(Of(lines + [Item(field, v)], field), field, g);
    OfNext(lines, Item(field, v), field);
    SaidOnce(field, Of(lines, field) + [v], g);
    BeforeGrows(g, field, v);
    forall other ensures FieldHolds(Of(lines, other), other, Before(g, field)) {
      assert FieldHolds(Of(lines + [Item(field, v)], other), other, g);
      OfNext(lines, Item(field, v), other);
      if other != field {
        BeforeKeeps(g, field, other, Of(lines, other));
      }
    }
    ItemTakes(Before(g, field), field, v, g);
  }

  lemma NonEmptyNext(vs: seq<string>, v: string)
    ensures NonEmpty(vs + [v]) == NonEmpty(vs) + (if v == "" then [] else [v])
  {
    assert (vs + [v])[..|vs|] == vs;
  }

  /** The state with other signatures. */
  lemma SignaturesAlone(f: Fields, sigs: seq<string>, other: Field, vs: seq<string>)
    requires other != Sig && FieldHolds(vs, other, f)
    ensures FieldHolds(vs, other, f.(signatures := sigs))
  {
    GraftKeeps(f, Sig, f.(signatures := sigs), other, vs);
  }

  lemma SignaturesHold(lines: seq<Line>, v: string, f: Fields, sigs: seq<string>)
    requires Holds(lines, f) && sigs == NonEmpty(Of(lines, Sig) + [v])
    ensures Holds(lines + [Item(Sig, v)], f.(signatures := sigs))
  {
    NoneMalformedNext(lines, Item(Sig, v));
    forall other ensures FieldHolds(Of(lines + [Item(Sig, v)], other), other, f.(signatures := sigs)) {
      assert FieldHolds(Of(lines, other), other, f);
      OfNext(lines, Item(Sig, v), other);
      if other != Sig { SignaturesAlone(f, sigs, other, Of(lines, other)); }
    }
  }

  lemma SignaturesHeld(lines: seq<Line>, v: string, g: Fields, sigs: seq<string>)
    requires Holds(lines + [Item(Sig, v)], g) && sigs == NonEmpty(Of(lines, Sig))
    ensures Holds(lines, g.(signatures := sigs)) && g.signatures == NonEmpty(Of(lines, Sig) + [v])
  {
    NoneMalformedNext(lines, Item(Sig, v));
    forall other ensures FieldHolds(Of(lines, other), other, g.(signatures := sigs)) {
      assert FieldHolds(Of(lines + [Item(Sig, v)], other), other, g);
      OfNext(lines, Item(Sig, v), other);
      if other != Sig { SignaturesAlone(g, sigs, other, Of(lines, other)); }
    }
    assert FieldHolds(Of(lines + [Item(Sig, v)], Sig), Sig, g);
    OfNext(lines, Item(Sig, v), Sig);
  }

  lemma SigTaken(lines: seq<Line>, v: string, f: Fields, g: Fields)
    requires Holds(lines, f) && TakeItem(f, Sig, v) == Ok(g)
    ensures Holds(lines + [Item(Sig, v)], g)
  {
    SigTakes(f, v);
    assert FieldHolds(Of(lines, Sig), Sig, f);
    NonEmptyNext(Of(lines, Sig), v);
    SignaturesHold(lines, v, f, g.signatures);
    assert g == f.(signatures := g.signatures);
  }

  lemma SigReached(lines: seq<Line>, v: string, g: Fields) returns (f: Fields)
    requires Holds(lines + [Item(Sig, v)], g)
    ensures Holds(lines, f) && TakeItem(f, Sig, v) == Ok(g)
  {
    f := g.(signatures := NonEmpty(Of(lines, Sig)));
    SignaturesHeld(lines, v, g, f.signatures);
    NonEmptyNext(Of(lines, Sig), v);
    SigTakes(f, v);
  }

  /** A skipped line and one with an unknown key say nothing. */
  predicate SaysNothing(line: Line) {
    line.Skipped? || (line.Item? && line.field == Other)
  }

  lemma NothingHolds(lines: seq<Line>, line: Line, f: Fields)
    requires SaysNothing(line)
    ensures Holds(lines + [line], f) <==> Holds(lines, f)
    ensures TakeRead(f, line) == Ok(f)
  {
    NoneMalformedNext(lines, line);
    if Holds(lines, f) {
      forall other ensures FieldHolds(Of(lines + [line], other), other, f) {
        assert FieldHolds(Of(lines, other), other, f);
        OfNext(lines, line, other);
        if other == Other { OtherHolds(Of(lines + [line], other), f, Of(lines, other)); }
      }
    }
    if Holds(lines + [line], f) {
      forall other ensures FieldHolds(Of(lines, other), other, f) {
        assert FieldHolds(Of(lines + [line], other), other, f);
        OfNext(lines, line, other);
        if other == Other { OtherHolds(Of(lines, other), f, Of(lines + [line], other)); }
      }
    }
  }

  lemma OtherHolds(vs: seq<string>, f: Fields, was: seq<string>)
    requires FieldHolds(was, Other, f)
    ensures FieldHolds(vs, Other, f)
  {
  }

  lemma LineTaken(lines: seq<Line>, line: Line, f: Fields, g: Fields)
    requires Holds(lines, f) && TakeRead(f, line) == Ok(g)
    ensures Holds(lines + [line], g)
  {
    if SaysNothing(line) {
      NothingHolds(lines, line, f);
    } else if line.field == Sig {
      SigTaken(lines, line.value, f, g);
    } else {
      SingleTaken(lines, f, line.field, line.value, g);
    }
  }

  lemma LineReached(lines: seq<Line>, line: Line, g: Fields) returns (f: Fields)
    requires Holds(lines + [line], g)
    ensures Holds(lines, f) && TakeRead(f, line) == Ok(g)
  {
    NoneMalformedNext(lines, line);
    if SaysNothing(line) {
      NothingHolds(lines, line, g);
      f := g;
    } else if line.field == Sig {
      f := SigReached(lines, line.value, g);
    } else {
      SingleReached(lines, line.field, line.value, g);
      f := Before(g, line.field);
    }
  }

  // --- Texts -----------------------------------------------------------------------------------

  function ReadAll(lines: seq<string>): seq<Line> {
    seq(|lines|, i requires 0 <= i < |lines| => ReadLine(lines[i]))
  }

  lemma {:induction false} TakeLinesNext(f: Fields, lines: seq<string>, line: string)
    ensures TakeLines(f, lines + [line]) ==
            match TakeLines(f, lines) case Err(e) => Err(e) case Ok(g) => TakeLine(g, line)
    decreases |lines|
  {
    if lines == [] {
      assert [] + [line] == [line] && [line][1..] == [];
    } else {
      assert (lines + [line])[0] == lines[0] && (lines + [line])[1..] == lines[1..] + [line];
      var r := TakeLine(f, lines[0]);
      if r.Ok? { TakeLinesNext(r.value, lines[1..], line); }
    }
  }

  lemma NoLines(f: Fields)
    ensures Holds([], f) <==> f == NO_FIELDS
  {
    if Holds([], f) {
      forall field ensures Said(field, [], f) && field !in f.seen {
        assert FieldHolds(Of([], field), field, f);
      }
      NothingSaidIsNone(f);
    } else {
      NoneHolds();
    }
  }

  lemma NoneHolds()
    ensures Holds([], NO_FIELDS)
  {
    forall field ensures FieldHolds(Of([], field), field, NO_FIELDS) {
    }
  }

  lemma NothingSaidIsNone(f: Fields)
    requires forall field :: Said(field, [], f) && field !in f.seen
    ensures f == NO_FIELDS
  {
    assert Said(StorePath, [], f) && Said(Url, [], f) && Said(Compression, [], f) && Said(FileHash, [], f);
    assert Said(FileSize, [], f) && Said(NarHash, [], f) && Said(NarSize, [], f) && Said(References, [], f);
    assert Said(Deriver, [], f) && Said(Sig, [], f) && Said(Ca, [], f);
    assert f.seen == {};
  }

  /** The lines are accepted exactly when they say the state, each field for itself. */
  lemma {:induction false} TakenIsSaid(lines: seq<string>, g: Fields)
    ensures TakeLines(NO_FIELDS, lines) == Ok(g) <==> Holds(ReadAll(lines), g)
    decreases |lines|
  {
    if lines == [] {
      NoLines(g);
    } else {
      var n := |lines| - 1;
      var init, last := lines[..n], lines[n];
      assert lines == init + [last] && ReadAll(lines) == ReadAll(init) + [ReadLine(last)];
      TakeLinesNext(NO_FIELDS, init, last);
      var r := TakeLines(NO_FIELDS, init);
      if r.Ok? && TakeLine(r.value, last) == Ok(g) {
        TakenIsSaid(init, r.value);
        LineTaken(ReadAll(init), ReadLine(last), r.value, g);
      }
      if Holds(ReadAll(lines), g) {
        var f := LineReached(ReadAll(init), ReadLine(last), g);
        TakenIsSaid(init, f);
      }
    }
  }

  /** Blank lines and comments. */
  predicate Ignored(line: string) {
    Trim(line) == "" || Trim(line)[0] == '#'
  }

  /** The trimmed line is a key, its first colon and a value, with or without blanks around each. */
  ghost predicate Spoken(line: string, key: string, v: string) {
    !Ignored(line) && exists a, b :: Parted(Trim(line), a, b) && Trim(a) == key && Trim(b) == v
  }

  predicate Parted(t: string, a: string, b: string) {
    t == a + [':'] + b && ':' !in a
  }

  /** The key and the value of a line that has them. */
  function KeyValue(line: string): Option<(string, string)> {
    if Ignored(line) then None
    else
      match SplitOnce(Trim(line), ':')
      case None => None
      case Some((a, b)) => Some((Trim(a), Trim(b)))
  }

  lemma KeyValueIs(line: string, key: string, v: string)
    ensures KeyValue(line) == Some((key, v)) <==> Spoken(line, key, v)
  {
    SplitOnceIs(Trim(line), ':');
    if KeyValue(line) == Some((key, v)) {
      var (a, b) := SplitOnce(Trim(line), ':').value;
      assert Parted(Trim(line), a, b);
    }
    if Spoken(line, key, v) {
      var a, b :| Parted(Trim(line), a, b) && Trim(a) == key && Trim(b) == v;
      SplitOnceAt(a, ':', b);
    }
  }

  /** The values that the lines give a key, in order. */
  function Values(lines: seq<string>, key: string): seq<string> {
    if lines == [] then []
    else
      var last := KeyValue(lines[|lines| - 1]);
      Values(lines[..|lines| - 1], key) + (if last.Some? && last.value.0 == key then [last.value.1] else [])
  }

  lemma FieldOfIs(key: string, field: Field)
    requires field != Other
    ensures FieldOf(key) == field <==> key == FieldName(field)
  {
    NameIsRead(field);
  }

  lemma LineIs(line: string, field: Field)
    requires field != Other
    ensures ReadLine(line).Item? && ReadLine(line).field == field <==>
            KeyValue(line).Some? && KeyValue(line).value.0 == FieldName(field)
    ensures ReadLine(line).Item? <==> KeyValue(line).Some?
    ensures ReadLine(line).Item? ==> ReadLine(line).value == KeyValue(line).value.1
  {
    if KeyValue(line).Some? { FieldOfIs(KeyValue(line).value.0, field); }
  }

  /** The line says the same about the field as about the key. */
  ghost predicate SaysAlike(read: Line, spoken: Option<(string, string)>, field: Field, key: string) {
    && (read.Item? && read.field == field <==> spoken.Some? && spoken.value.0 == key)
    && (read.Item? && spoken.Some? ==> read.value == spoken.value.1)
  }

  function Spelled(lines: seq<string>): seq<Option<(string, string)>> {
    seq(|lines|, i requires 0 <= i < |lines| => KeyValue(lines[i]))
  }

  function ValuesOf(spoken: seq<Option<(string, string)>>, key: string): seq<string> {
    if spoken == [] then []
    else
      var last := spoken[|spoken| - 1];
      ValuesOf(spoken[..|spoken| - 1], key) + (if last.Some? && last.value.0 == key then [last.value.1] else [])
  }

  lemma {:induction false} ValuesAreSpelled(lines: seq<string>, key: string)
    ensures Values(lines, key) == ValuesOf(Spelled(lines), key)
    decreases |lines|
  {
    if lines != [] {
      var n := |lines| - 1;
      ValuesAreSpelled(lines[..n], key);
      assert Spelled(lines)[..n] == Spelled(lines[..n]);
    }
  }

  lemma {:induction false} AlikeSoFar(said: seq<Line>, spoken: seq<Option<(string, string)>>, field: Field, key: string)
    requires |said| == |spoken| && forall i | 0 <= i < |said| :: SaysAlike(said[i], spoken[i], field, key)
    ensures Of(said, field) == ValuesOf(spoken, key)
    decreases |said|
  {
    if said != [] {
      var n := |said| - 1;
      assert forall i | 0 <= i < n :: said[..n][i] == said[i] && spoken[..n][i] == spoken[i];
      AlikeSoFar(said[..n], spoken[..n], field, key);
      assert SaysAlike(said[n], spoken[n], field, key);
    }
  }

  lemma ValuesAreOf(lines: seq<string>, field: Field)
    requires field != Other
    ensures Values(lines, FieldName(field)) == Of(ReadAll(lines), field)
  {
    var key := FieldName(field);
    forall i | 0 <= i < |lines| ensures SaysAlike(ReadAll(lines)[i], Spelled(lines)[i], field, key) {
      LineIs(lines[i], field);
    }
    AlikeSoFar(ReadAll(lines), Spelled(lines), field, key);
    ValuesAreSpelled(lines, key);
  }

  /** Every line is ignored or has a colon. */
  ghost predicate AllSplit(lines: seq<string>) {
    forall i | 0 <= i < |lines| :: Ignored(lines[i]) || ':' in Trim(lines[i])
  }

  lemma SplitIs(lines: seq<string>)
    ensures AllSplit(lines) <==> NoneMalformed(ReadAll(lines))
  {
    assert forall i | 0 <= i < |lines| :: ReadAll(lines)[i].Malformed? <==> !(Ignored(lines[i]) || ':' in Trim(lines[i]));
  }

  /** The values that the lines give the known keys. */
  datatype Told = Told(
    storePath: seq<string>, url: seq<string>, compression: seq<string>, fileHash: seq<string>, fileSize: seq<string>,
    narHash: seq<string>, narSize: seq<string>, references: seq<string>, deriver: seq<string>, sig: seq<string>,
    ca: seq<string>)

  function ToldBy(lines: seq<string>): Told {
    Told(Values(lines, "StorePath"), Values(lines, "URL"), Values(lines, "Compression"), Values(lines, "FileHash"),
         Values(lines, "FileSize"), Values(lines, "NarHash"), Values(lines, "NarSize"), Values(lines, "References"),
         Values(lines, "Deriver"), Values(lines, "Sig"), Values(lines, "CA"))
  }

  /** Each single key has at most one value, the four required ones have one, and the values say the parts. */
  predicate Fits(t: Told, n: NarInfo) {
    && PathSaid(t.storePath, Some(n.meta.storePath)) && UrlSaid(t.url, Some(n.meta.narBasename))
    && CompressionSaid(t.compression, n.meta.compression)
    && HashSaid(t.fileHash, n.meta.fileHash) && SizeSaid(t.fileSize, n.meta.fileSize)
    && HashSaid(t.narHash, Some(n.meta.narHash)) && SizeSaid(t.narSize, Some(n.narSize))
    && ReferencesSaid(t.references, n.meta.references) && DeriverSaid(t.deriver, n.meta.deriver)
    && n.meta.signatures == NonEmpty(t.sig) && TextSaid(t.ca, n.meta.ca)
  }

  ghost predicate Describes(lines: seq<string>, n: NarInfo) {
    AllSplit(lines) && Fits(ToldBy(lines), n)
  }

  /** The parser's state for a value, when some fields were seen. */
  ghost function StateOf(n: NarInfo, seen: set<Field>): Fields {
    Fields(seen, Some(n.meta.storePath), Some(n.meta.narBasename), n.meta.compression, n.meta.fileHash, n.meta.fileSize,
           Some(n.meta.narHash), Some(n.narSize), n.meta.references, n.meta.deriver, n.meta.signatures, n.meta.ca)
  }

  ghost predicate AllSaid(lines: seq<string>, f: Fields) {
    forall field | field != Other :: Said(field, Values(lines, FieldName(field)), f)
  }

  lemma SaidAt(lines: seq<string>, f: Fields, field: Field)
    requires AllSaid(lines, f) && field != Other
    ensures Said(field, Values(lines, FieldName(field)), f)
  {
  }

  lemma HeadIsSaid(lines: seq<string>, f: Fields)
    requires AllSaid(lines, f)
    ensures PathSaid(Values(lines, "StorePath"), f.storePath) && UrlSaid(Values(lines, "URL"), f.narBasename)
    ensures CompressionSaid(Values(lines, "Compression"), f.compression) && HashSaid(Values(lines, "FileHash"), f.fileHash)
    ensures SizeSaid(Values(lines, "FileSize"), f.fileSize) && HashSaid(Values(lines, "NarHash"), f.narHash)
  {
    SaidAt(lines, f, StorePath);
    SaidAt(lines, f, Url);
    SaidAt(lines, f, Compression);
    SaidAt(lines, f, FileHash);
    SaidAt(lines, f, FileSize);
    SaidAt(lines, f, NarHash);
  }

  lemma TailIsSaid(lines: seq<string>, f: Fields)
    requires AllSaid(lines, f)
    ensures SizeSaid(Values(lines, "NarSize"), f.narSize) && ReferencesSaid(Values(lines, "References"), f.references)
    ensures DeriverSaid(Values(lines, "Deriver"), f.deriver) && f.signatures == NonEmpty(Values(lines, "Sig"))
    ensures TextSaid(Values(lines, "CA"), f.ca)
  {
    SaidAt(lines, f, NarSize);
    SaidAt(lines, f, References);
    SaidAt(lines, f, Deriver);
    SaidAt(lines, f, Sig);
    SaidAt(lines, f, Ca);
  }

  lemma SaidIsDescribed(lines: seq<string>, n: NarInfo, seen: set<Field>)
    requires AllSplit(lines) && AllSaid(lines, StateOf(n, seen))
    ensures Describes(lines, n)
  {
    HeadIsSaid(lines, StateOf(n, seen));
    TailIsSaid(lines, StateOf(n, seen));
  }

  lemma DescribedIsSaid(lines: seq<string>, n: NarInfo, seen: set<Field>)
    requires Describes(lines, n)
    ensures AllSaid(lines, StateOf(n, seen))
  {
  }

  ghost function SeenIn(lines: seq<string>): set<Field> {
    set field: Field | IsSingle(field) && Of(ReadAll(lines), field) != []
  }

  lemma HeldIsSaid(lines: seq<string>, f: Fields)
    requires Holds(ReadAll(lines), f)
    ensures AllSplit(lines) && AllSaid(lines, f)
  {
    SplitIs(lines);
    forall field | field != Other ensures Said(field, Values(lines, FieldName(field)), f) {
      assert FieldHolds(Of(ReadAll(lines), field), field, f);
      ValuesAreOf(lines, field);
    }
  }

  lemma FieldIsHeld(lines: seq<string>, f: Fields, field: Field)
    requires AllSaid(lines, f) && f.seen == SeenIn(lines)
    ensures FieldHolds(Of(ReadAll(lines), field), field, f)
  {
    if field != Other {
      ValuesAreOf(lines, field);
      assert Said(field, Values(lines, FieldName(field)), f);
    }
  }

  lemma SaidIsHeld(lines: seq<string>, f: Fields)
    requires AllSplit(lines) && AllSaid(lines, f) && f.seen == SeenIn(lines)
    ensures Holds(ReadAll(lines), f)
  {
    SplitIs(lines);
    forall field ensures FieldHolds(Of(ReadAll(lines), field), field, f) {
      FieldIsHeld(lines, f, field);
    }
  }

  lemma FinishedHas(f: Fields, n: NarInfo)
    requires Finish(f) == Ok(n)
    ensures f.storePath.Some? && f.narBasename.Some? && f.narHash.Some? && f.narSize.Some?
    ensures n == NarInfo(NarInfoMeta(
      f.storePath.value, f.narBasename.value, f.compression, f.fileHash, f.fileSize, f.narHash.value, f.references,
      f.deriver, f.signatures, f.ca), f.narSize.value)
  {
  }

  lemma FinishedIs(f: Fields, n: NarInfo)
    requires Finish(f) == Ok(n)
    ensures f == StateOf(n, f.seen)
  {
    FinishedHas(f, n);
  }

  lemma TidyIsValid(f: Fields, n: NarInfo)
    requires f == StateOf(n, f.seen) && TidyFields(f)
    ensures ValidMeta(n.meta)
  {
    if n.meta.deriver.Some? { assert BareDeriver(n.meta.deriver.value); }
    forall i | 0 <= i < |n.meta.references| ensures Normalize(n.meta.references[i]).Ok? {
      assert BareReference(n.meta.references[i]);
    }
  }

  // --- Blank texts -----------------------------------------------------------------------------

  lemma {:induction false} LinesAreParts(s: string)
    ensures forall i, c | 0 <= i < |Lines(s)| && c in Lines(s)[i] :: c in s
    decreases |s|
  {
    if s != [] {
      SplitOnceIs(s, '\n');
      match SplitOnce(s, '\n')
      case None =>
      case Some((a, b)) => LinesAreParts(b);
    }
  }

  lemma {:induction false} TrimStartOfBlanks(s: string)
    requires AllBlank(s)
    ensures TrimStart(s) == ""
  {
    if s != [] { TrimStartOfBlanks(s[1..]); }
  }

  lemma BlankIsBlank(s: string)
    requires Trim(s) == ""
    ensures forall c | c in s :: IsWhitespace(c)
  {
    var pre, post := TrimParts(s);
    assert s == pre + post;
  }

  lemma BlankLinesAreIgnored(content: string)
    requires Trim(content) == ""
    ensures forall i | 0 <= i < |Lines(content)| :: KeyValue(Lines(content)[i]) == None
  {
    BlankIsBlank(content);
    LinesAreParts(content);
    forall i | 0 <= i < |Lines(content)| ensures KeyValue(Lines(content)[i]) == None {
      var line := Lines(content)[i];
      assert forall j | 0 <= j < |line| :: line[j] in line;
      TrimStartOfBlanks(line);
    }
  }

  lemma {:induction false} NoValues(lines: seq<string>, key: string)
    requires forall i | 0 <= i < |lines| :: KeyValue(lines[i]) == None
    ensures Values(lines, key) == []
    decreases |lines|
  {
    if lines != [] { NoValues(lines[..|lines| - 1], key); }
  }

  lemma DescribedIsNotBlank(content: string, n: NarInfo)
    requires Describes(Lines(content), n)
    ensures Trim(content) != ""
  {
    if Trim(content) == "" {
      BlankLinesAreIgnored(content);
      NoValues(Lines(content), "StorePath");
    }
  }

  // --- The law ---------------------------------------------------------------------------------

  lemma ParsedIsDescribed(content: string, n: NarInfo)
    requires Parse(content) == Ok(n)
    ensures Describes(Lines(content), n)
  {
    var f := TakeLines(NO_FIELDS, Lines(content)).value;
    FinishedIs(f, n);
    TakenIsSaid(Lines(content), f);
    HeldIsSaid(Lines(content), f);
    SaidIsDescribed(Lines(content), n, f.seen);
  }

  lemma DescribedIsTaken(content: string, n: NarInfo)
    requires Describes(Lines(content), n)
    ensures var r := TakeLines(NO_FIELDS, Lines(content)); r.Ok? && Finish(r.value) == Ok(n)
  {
    var lines := Lines(content);
    var f := StateOf(n, SeenIn(lines));
    DescribedIsSaid(lines, n, f.seen);
    SaidIsHeld(lines, f);
    TakenIsSaid(lines, f);
    LinesHaveNoBreak(content);
    TakeLinesIsTidy(NO_FIELDS, lines);
    TidyIsValid(f, n);
    WholeFinishes(n, f);
  }

  /**
   A text parses to a value exactly when its lines describe the value. Nothing else about the
   text matters: not the order of the lines, nor blank lines, comments and unknown keys.
   */
  lemma ParseIsExact(content: string, n: NarInfo)
    ensures Parse(content) == Ok(n) <==> Describes(Lines(content), n)
  {
    if Parse(content) == Ok(n) { ParsedIsDescribed(content, n); }
    if Describes(Lines(content), n) {
      DescribedIsNotBlank(content, n);
      DescribedIsTaken(content, n);
    }
  }

  // --- What does not matter, and what is refused -----------------------------------------------

  /** A line that says nothing about the value: blank, a comment, or with an unknown key. */
  ghost predicate Irrelevant(line: string) {
    Ignored(line) || (KeyValue(line).Some? && FieldOf(KeyValue(line).value.0) == Other)
  }

  lemma UnknownKey(key: string, field: Field)
    requires FieldOf(key) == Other && field != Other
    ensures key != FieldName(field)
  {
    NameIsRead(field);
  }

  lemma ValuesNext(lines: seq<string>, line: string, key: string)
    ensures Values(lines + [line], key) ==
            Values(lines, key) + (if KeyValue(line).Some? && KeyValue(line).value.0 == key then [KeyValue(line).value.1] else [])
  {
    assert (lines + [line])[..|lines|] == lines;
  }

  lemma {:induction false} ValuesWithout(a: seq<string>, line: string, b: seq<string>, key: string)
    requires KeyValue(line).Some? ==> KeyValue(line).value.0 != key
    ensures Values(a + [line] + b, key) == Values(a + b, key)
    decreases |b|
  {
    if b == [] {
      assert a + [line] + b == a + [line] && a + b == a;
      ValuesNext(a, line, key);
    } else {
      var n := |b| - 1;
      assert a + [line] + b == (a + [line] + b[..n]) + [b[n]] && a + b == (a + b[..n]) + [b[n]];
      ValuesWithout(a, line, b[..n], key);
      ValuesNext(a + [line] + b[..n], b[n], key);
      ValuesNext(a + b[..n], b[n], key);
    }
  }

  lemma SplitWithout(a: seq<string>, line: string, b: seq<string>)
    requires Irrelevant(line)
    ensures AllSplit(a + [line] + b) <==> AllSplit(a + b)
  {
    var all, rest := a + [line] + b, a + b;
    if AllSplit(all) {
      forall i | 0 <= i < |rest| ensures Ignored(rest[i]) || ':' in Trim(rest[i]) {
        assert rest[i] == if i < |a| then all[i] else all[i + 1];
      }
    }
    if AllSplit(rest) {
      forall i | 0 <= i < |all| ensures Ignored(all[i]) || ':' in Trim(all[i]) {
        assert i != |a| ==> all[i] == if i < |a| then rest[i] else rest[i - 1];
      }
    }
  }

  lemma FieldWithout(a: seq<string>, line: string, b: seq<string>, field: Field)
    requires Irrelevant(line) && field != Other
    ensures Values(a + [line] + b, FieldName(field)) == Values(a + b, FieldName(field))
  {
    if KeyValue(line).Some? { UnknownKey(KeyValue(line).value.0, field); }
    ValuesWithout(a, line, b, FieldName(field));
  }

  lemma ToldWithout(a: seq<string>, line: string, b: seq<string>)
    requires Irrelevant(line)
    ensures ToldBy(a + [line] + b) == ToldBy(a + b)
  {
    FieldWithout(a, line, b, StorePath);
    FieldWithout(a, line, b, Url);
    FieldWithout(a, line, b, Compression);
    FieldWithout(a, line, b, FileHash);
    FieldWithout(a, line, b, FileSize);
    FieldWithout(a, line, b, NarHash);
    FieldWithout(a, line, b, NarSize);
    FieldWithout(a, line, b, References);
    FieldWithout(a, line, b, Deriver);
    FieldWithout(a, line, b, Sig);
    FieldWithout(a, line, b, Ca);
  }

  /** Removing an irrelevant line changes nothing about which values the text parses to. */
  lemma IrrelevantIsRemovable(s: string, t: string, a: seq<string>, line: string, b: seq<string>, n: NarInfo)
    requires Lines(s) == a + [line] + b && Lines(t) == a + b && Irrelevant(line)
    ensures Parse(s) == Ok(n) <==> Parse(t) == Ok(n)
  {
    ParseIsExact(s, n);
    ParseIsExact(t, n);
    SplitWithout(a, line, b);
    ToldWithout(a, line, b);
  }

  lemma {:induction false} ValuesCount(lines: seq<string>, i: nat, key: string)
    requires i < |lines| && KeyValue(lines[i]).Some? && KeyValue(lines[i]).value.0 == key
    ensures Values(lines, key) != []
    decreases |lines|
  {
    if i < |lines| - 1 { ValuesCount(lines[..|lines| - 1], i, key); }
  }

  lemma {:induction false} ErrorStays(f: Fields, a: seq<string>, b: seq<string>)
    requires TakeLines(f, a).Err?
    ensures TakeLines(f, a + b) == TakeLines(f, a)
    decreases |a|
  {
    assert (a + b)[0] == a[0] && (a + b)[1..] == a[1..] + b;
    var r := TakeLine(f, a[0]);
    if r.Ok? { ErrorStays(r.value, a[1..], b); }
  }

  lemma SeenIsRefused(lines: seq<string>, field: Field, i: nat, line: string, f: Fields)
    requires IsSingle(field) && i < |lines| && TakeLines(NO_FIELDS, lines) == Ok(f)
    requires KeyValue(lines[i]).Some? && KeyValue(lines[i]).value.0 == FieldName(field)
    requires KeyValue(line).Some? && KeyValue(line).value.0 == FieldName(field)
    ensures TakeLine(f, line) == Err(DuplicateField(field))
  {
    TakenIsSaid(lines, f);
    assert FieldHolds(Of(ReadAll(lines), field), field, f);
    ValuesCount(lines, i, FieldName(field));
    ValuesAreOf(lines, field);
    LineIs(line, field);
  }

  lemma FirstErrorStays(start: Fields, a: seq<string>, line: string, b: seq<string>, f: Fields, e: ParseError)
    requires TakeLines(start, a) == Ok(f) && TakeLine(f, line) == Err(e)
    ensures TakeLines(start, a + [line] + b) == Err(e)
  {
    TakeLinesNext(start, a, line);
    ErrorStays(start, a + [line], b);
  }

  lemma ErrorIsReported(content: string, lines: seq<string>, e: ParseError)
    requires Trim(content) != "" && Lines(content) == lines && TakeLines(NO_FIELDS, lines) == Err(e)
    ensures Parse(content) == Err(e)
  {
  }

  /** The first line that repeats a single key ends the parse with that error. */
  lemma RepetitionIsRefused(content: string, a: seq<string>, line: string, b: seq<string>, field: Field, i: nat, f: Fields)
    requires Lines(content) == a + [line] + b && TakeLines(NO_FIELDS, a) == Ok(f) && IsSingle(field) && i < |a|
    requires KeyValue(a[i]).Some? && KeyValue(a[i]).value.0 == FieldName(field)
    requires KeyValue(line).Some? && KeyValue(line).value.0 == FieldName(field)
    ensures Parse(content) == Err(DuplicateField(field))
  {
    SeenIsRefused(a, field, i, line, f);
    FirstErrorStays(NO_FIELDS, a, line, b, f, DuplicateField(field));
    assert Lines(content)[|a|] == line;
    SpokenIsNotBlank(content, |a|);
    ErrorIsReported(content, a + [line] + b, DuplicateField(field));
  }

  lemma SpokenIsNotBlank(content: string, i: nat)
    requires i < |Lines(content)| && KeyValue(Lines(content)[i]).Some?
    ensures Trim(content) != ""
  {
    if Trim(content) == "" { BlankLinesAreIgnored(content); }
  }

  // --- The URL -----------------------------------------------------------------------------------

  function Slashed(parts: seq<string>): string {
    if parts == [] then "" else if |parts| == 1 then parts[0] else parts[0] + ['/'] + Slashed(parts[1..])
  }

  /** The components are the text between its slashes. */
  lemma {:induction false} ComponentsAre(s: string)
    ensures Components(s) != [] && Slashed(Components(s)) == s
    ensures forall i | 0 <= i < |Components(s)| :: '/' !in Components(s)[i]
    decreases |s|
  {
    SplitOnceIs(s, '/');
    match SplitOnce(s, '/')
    case None =>
    case Some((a, b)) =>
      ComponentsAre(b);
      assert Components(s)[1..] == Components(b);
  }

  /** What follows the last slash of a text, or all of it without one. */
  ghost predicate Trails(s: string, b: string) {
    '/' !in b && (s == b || exists pre :: s == pre + ['/'] + b)
  }

  lemma {:induction false} AfterLastSlashIs(s: string, b: string)
    ensures Trails(s, b) <==> AfterLastSlash(s) == b
    decreases |s|
  {
    SplitOnceIs(s, '/');
    match SplitOnce(s, '/')
    case None =>
    case Some((a, r)) =>
      ComponentsAre(r);
      assert AfterLastSlash(s) == AfterLastSlash(r);
      AfterLastSlashIs(r, b);
      TrailsAfter(s, a, r, b);
  }

  lemma FirstComesFirst(a: string, r: string, pre: string, b: string)
    requires '/' !in a && a + ['/'] + r == pre + ['/'] + b
    ensures |a| <= |pre|
  {
    var s := a + ['/'] + r;
    assert s[|pre|] == '/';
  }

  lemma TrailsAfter(s: string, a: string, r: string, b: string)
    requires s == a + ['/'] + r && '/' !in a
    ensures Trails(s, b) <==> Trails(r, b)
  {
    if Trails(r, b) && s != b {
      if r == b {
        assert s == a + ['/'] + b;
      } else {
        var pre :| r == pre + ['/'] + b;
        assert s == (a + ['/'] + pre) + ['/'] + b;
      }
    }
    if Trails(s, b) {
      assert '/' in s;
      var pre :| s == pre + ['/'] + b;
      if |pre| > |a| {
        assert r == s[|a| + 1..];
        assert s[|a| + 1..] == pre[|a| + 1..] + ['/'] + b;
      } else {
        FirstComesFirst(a, r, pre, b);
        assert r == s[|a| + 1..] == b;
      }
    }
  }

  lemma UrlBasenameIsExact(v: string, b: string)
    ensures UrlBasename(v) == b <==> if NAR_PREFIX <= v then v == NAR_PREFIX + b else AfterLastSlash(v) == b
  {
    if NAR_PREFIX <= v { assert v == NAR_PREFIX + v[|NAR_PREFIX|..]; }
  }

  predicate PlainUrl(v: string) {
    forall i | 0 <= i < |v| :: !IsControl(v[i]) && !IsWhitespace(v[i]) && v[i] != '\\'
  }

  predicate NoDotParts(parts: seq<string>) {
    forall i | 0 <= i < |parts| :: parts[i] != "." && parts[i] != ".."
  }

  lemma UrlTests(v: string)
    ensures PlainUrl(v) <==> !((exists i | 0 <= i < |v| :: IsControl(v[i]) || IsWhitespace(v[i])) || '\\' in v)
    ensures NoDotParts(Components(v)) <==> !(exists i | 0 <= i < |Components(v)| :: IsDots(Components(v)[i]))
  {
  }

  lemma NarUrlIs(v: string, b: string)
    ensures ParseNarUrl(v) == Ok(b) <==>
            v != "" && PlainUrl(v) && NoDotParts(Components(v)) && IsNarBasename(b) && UrlBasename(v) == b
  {
    UrlTests(v);
  }

  lemma NoNameWithoutText(b: string)
    requires IsNarBasename(b)
    ensures !Trails("", b)
  {
    assert forall pre: string :: |pre + ['/'] + b| > 0;
  }

  /** The URLs that are accepted, and the name each gives. */
  lemma NarUrlIsExact(v: string, b: string)
    ensures ParseNarUrl(v) == Ok(b) <==>
            && PlainUrl(v) && NoDotParts(Components(v)) && IsNarBasename(b)
            && if NAR_PREFIX <= v then v == NAR_PREFIX + b else Trails(v, b)
  {
    NarUrlIs(v, b);
    AfterLastSlashIs(v, b);
    UrlBasenameIsExact(v, b);
    if v == "" && IsNarBasename(b) { NoNameWithoutText(b); }
  }

  // --- The order of a rendering ----------------------------------------------------------------

  function Place(field: Field): nat {
    match field
    case StorePath => 0
    case Url => 1
    case Compression => 2
    case FileHash => 3
    case FileSize => 4
    case NarHash => 5
    case NarSize => 6
    case References => 7
    case Deriver => 8
    case Sig => 9
    case Ca => 10
    case Other => 11
  }

  /** The fields ascend within these places. */
  ghost predicate Ascends(items: Items, lo: nat, hi: nat) {
    && (forall i | 0 <= i < |items| :: lo <= Place(items[i].0) <= hi)
    && forall i, j | 0 <= i < j < |items| :: Place(items[i].0) <= Place(items[j].0)
  }

  lemma AscendsAppend(a: Items, b: Items, lo: nat, mid: nat, hi: nat)
    requires Ascends(a, lo, mid) && Ascends(b, mid, hi) && lo <= mid <= hi
    ensures Ascends(a + b, lo, hi)
  {
  }

  lemma OptAscends(field: Field, v: Option<string>)
    ensures Ascends(Opt(field, v), Place(field), Place(field))
  {
  }

  lemma SignaturesAscend(sigs: seq<string>)
    ensures Ascends(Signatures(sigs), 9, 9)
  {
  }

  lemma Widen(items: Items, lo: nat, hi: nat, lo': nat, hi': nat)
    requires Ascends(items, lo, hi) && lo' <= lo && hi <= hi'
    ensures Ascends(items, lo', hi')
  {
  }

  lemma HeadAscends(n: NarInfo)
    ensures Ascends(HeadItems(n), 0, 4)
  {
    var m := n.meta;
    var paths: Items := [(StorePath, m.storePath)] + [(Url, NAR_PREFIX + m.narBasename)];
    var hash, size := Opt(FileHash, m.fileHash), Opt(FileSize, SizeText(m.fileSize));
    OptAscends(Compression, m.compression);
    OptAscends(FileHash, m.fileHash);
    OptAscends(FileSize, SizeText(m.fileSize));
    Widen(size, 4, 4, 3, 4);
    AscendsAppend(hash, size, 3, 3, 4);
    Widen(hash + size, 3, 4, 2, 4);
    AscendsAppend(Opt(Compression, m.compression), hash + size, 2, 2, 4);
    Widen(Opt(Compression, m.compression) + (hash + size), 2, 4, 1, 4);
    assert Ascends(paths, 0, 1);
    AscendsAppend(paths, Opt(Compression, m.compression) + (hash + size), 0, 1, 4);
  }

  lemma TailAscends(n: NarInfo)
    ensures Ascends(TailItems(n), 5, 10)
  {
    var m := n.meta;
    var refs, deriver, sigs, ca := Opt(References, ReferenceText(m.references)), Opt(Deriver, m.deriver), Signatures(m.signatures), Opt(Ca, m.ca);
    var nar: Items := [(NarHash, m.narHash), (NarSize, Decimal(n.narSize))];
    OptAscends(References, ReferenceText(m.references));
    OptAscends(Deriver, m.deriver);
    OptAscends(Ca, m.ca);
    SignaturesAscend(m.signatures);
    Widen(deriver, 8, 8, 7, 8);
    AscendsAppend(refs, deriver, 7, 7, 8);
    Widen(ca, 10, 10, 9, 10);
    AscendsAppend(sigs, ca, 9, 9, 10);
    Widen(sigs + ca, 9, 10, 8, 10);
    AscendsAppend(refs + deriver, sigs + ca, 7, 8, 10);
    Widen((refs + deriver) + (sigs + ca), 7, 10, 6, 10);
    assert Ascends(nar, 5, 6);
    AscendsAppend(nar, (refs + deriver) + (sigs + ca), 5, 6, 10);
  }

  /** A rendering has its fields in the customary order. */
  lemma RenderingIsOrdered(n: NarInfo)
    ensures Ascends(ItemsOf(n), 0, 10)
  {
    HeadAscends(n);
    TailAscends(n);
    Widen(TailItems(n), 5, 10, 4, 10);
    AscendsAppend(HeadItems(n), TailItems(n), 0, 4, 10);
  }
}
