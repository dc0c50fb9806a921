/** Reading undoes printing for lists of challenges and for percent-encoded values. */
module AuthLaws {
  import opened Basics
  import opened Text
  import opened Auth

  // --- Printing --------------------------------------------------------------------------------

  datatype Body = Bare | Token68(text: string) | Named(params: Params)

  datatype Challenge = Challenge(scheme: string, body: Body)

  predicate IsToken(s: string) {
    s != "" && forall i | 0 <= i < |s| :: IsTokenChar(s[i])
  }

  predicate IsToken68Char(c: char) {
    IsAlphanumeric(c) || c == '-' || c == '.' || c == '_' || c == '~' || c == '+' || c == '/' || c == '='
  }

  /** A token68 the parser takes for one: it starts like a token, and no `=` follows that start. */
  predicate Opens68(s: string) {
    IsToken68Next(s) && forall i | 0 <= i < |s| :: IsToken68Char(s[i])
  }

  function Escape(v: string): string {
    if v == [] then []
    else (if v[0] == '"' || v[0] == '\\' then ['\\', v[0]] else [v[0]]) + Escape(v[1..])
  }

  function Quote(v: string): string {
    ['"'] + (Escape(v) + ['"'])
  }

  function PrintParam(p: (string, string)): string {
    p.0 + (['='] + Quote(p.1))
  }

  function PrintParams(params: Params): string {
    if params == [] then ""
    else if |params| == 1 then PrintParam(params[0])
    else PrintParam(params[0]) + ([',', ' '] + PrintParams(params[1..]))
  }

  function PrintBody(b: Body): string {
    match b
    case Bare => ""
    case Token68(text) => [' '] + text
    case Named(params) => if params == [] then "" else [' '] + PrintParams(params)
  }

  function Print(list: seq<Challenge>): string {
    if list == [] then ""
    else if |list| == 1 then list[0].scheme + PrintBody(list[0].body)
    else list[0].scheme + (PrintBody(list[0].body) + ([',', ' '] + Print(list[1..])))
  }

  predicate DistinctNames(params: Params) {
    forall i, j | 0 <= i < j < |params| :: !SameIgnoringCase(params[i].0, params[j].0)
  }

  /** Token schemes, token names that differ by more than case, and any values. */
  predicate Printable(c: Challenge) {
    && IsToken(c.scheme)
    && (c.body.Token68? ==> Opens68(c.body.text))
    && (c.body.Named? ==> DistinctNames(c.body.params) && forall p | p in c.body.params :: IsToken(p.0))
  }

  function ParamsOf(b: Body): Params {
    if b.Named? then b.params else []
  }

  /** The choice a list of challenges means, one after the other. */
  function ChooseAll(realmOk: string -> bool, bearer: Option<BearerChallenge>, list: seq<Challenge>)
    : Result<Option<BearerChallenge>, AuthError>
    decreases |list|
  {
    if list == [] then Ok(bearer)
    else
      match Choose(realmOk, bearer, list[0].scheme, ParamsOf(list[0].body))
      case Err(e) => Err(e)
      case Ok(b) => ChooseAll(realmOk, b, list[1..])
  }

  // --- Reading the pieces ----------------------------------------------------------------------

  lemma {:induction false} TokenReads(t: string, rest: string)
    requires (forall i | 0 <= i < |t| :: IsTokenChar(t[i])) && (rest == [] || !IsTokenChar(rest[0]))
    ensures TokenLength(t + rest) == |t| && (t + rest)[..|t|] == t && (t + rest)[|t|..] == rest
  {
    if t == [] {
      assert t + rest == rest;
    } else {
      assert (t + rest)[1..] == t[1..] + rest;
      TokenReads(t[1..], rest);
    }
  }

  lemma {:induction false} Unquotes(v: string, rest: string)
    ensures Unquote(Escape(v) + (['"'] + rest), false) == Some((v, rest))
  {
    var tail := ['"'] + rest;
    if v == [] {
      assert Escape(v) + tail == tail && tail[1..] == rest;
    } else {
      Unquotes(v[1..], rest);
      var more := Escape(v[1..]) + tail;
      assert v == [v[0]] + v[1..];
      if v[0] == '"' || v[0] == '\\' {
        assert Escape(v) + tail == ['\\', v[0]] + more;
        assert (['\\', v[0]] + more)[1..] == [v[0]] + more && ([v[0]] + more)[1..] == more;
      } else {
        assert Escape(v) + tail == [v[0]] + more;
        assert ([v[0]] + more)[1..] == more;
      }
    }
  }

  lemma ValueReads(v: string, rest: string)
    ensures ReadValue(Quote(v) + rest) == Ok((v, rest))
  {
    var s := Quote(v) + rest;
    Unquotes(v, rest);
    assert s[0] == '"' && s[1..] == Escape(v) + (['"'] + rest);
  }

  lemma NoSpaces(s: string)
    requires s == [] || !IsSpace(s[0])
    ensures SkipSpaces(s) == s
  {
  }

  lemma ParamText(p: (string, string), rest: string)
    ensures PrintParam(p) + rest == p.0 + (['='] + (Quote(p.1) + rest))
  {
  }

  lemma ParamReads(p: (string, string), rest: string)
    requires IsToken(p.0) && (rest == [] || !IsSpace(rest[0]))
    ensures ReadParam(PrintParam(p) + rest) == Ok(Param(p.0, p.1, rest))
  {
    var tail := ['='] + (Quote(p.1) + rest);
    var s := p.0 + tail;
    ParamText(p, rest);
    TokenReads(p.0, tail);
    NoSpaces(s);
    NoSpaces(tail);
    assert tail[1..] == Quote(p.1) + rest;
    NoSpaces(Quote(p.1) + rest);
    ValueReads(p.1, rest);
    NoSpaces(rest);
  }

  /** What may follow a challenge: nothing, or a comma and a scheme. */
  ghost predicate Follows(rest: string) {
    (rest == [] || rest[0] == ',') && LookAhead(rest) == Stop
  }

  lemma MoreParams(p: (string, string), rest: string)
    requires IsToken(p.0)
    ensures LookAhead([',', ' '] + (PrintParam(p) + rest)) == Continue
    ensures SkipSpaces(([',', ' '] + (PrintParam(p) + rest))[1..]) == PrintParam(p) + rest
  {
    var t := PrintParam(p) + rest;
    ParamText(p, rest);
    TokenReads(p.0, ['='] + (Quote(p.1) + rest));
    assert ([',', ' '] + t)[1..] == [' '] + t && ([' '] + t)[1..] == t;
    NoSpaces(t);
    NoSpaces(['='] + (Quote(p.1) + rest));
  }

  lemma {:induction false} FindsNone(params: Params, key: string)
    requires forall i | 0 <= i < |params| :: !SameIgnoringCase(params[i].0, key)
    ensures FindParam(params, key) == None
  {
    if params != [] { FindsNone(params[1..], key); }
  }

  lemma ReadParamSkips(s: string)
    ensures ReadParam(SkipSpaces(s)) == ReadParam(s)
  {
    SpacesTwice(s);
  }

  lemma ReadParamsSkips(s: string, done: Params)
    ensures ReadParams(SkipSpaces(s), done) == ReadParams(s, done)
  {
    ReadParamSkips(s);
  }

  lemma PrintParamsCons(params: Params, rest: string)
    requires |params| > 1
    ensures PrintParams(params) + rest == PrintParam(params[0]) + ([',', ' '] + (PrintParams(params[1..]) + rest))
  {
    Assoc(PrintParam(params[0]), [',', ' '] + PrintParams(params[1..]), rest);
    Assoc([',', ' '], PrintParams(params[1..]), rest);
  }

  lemma PrintParamsHead(params: Params, rest: string) returns (tail: string)
    requires params != []
    ensures PrintParams(params) + rest == PrintParam(params[0]) + tail
  {
    if |params| == 1 {
      tail := rest;
    } else {
      tail := [',', ' '] + (PrintParams(params[1..]) + rest);
      PrintParamsCons(params, rest);
    }
  }

  lemma AddsNew(done: Params, p: (string, string))
    requires DistinctNames(done + [p])
    ensures AddParam(done, p.0, p.1) == Ok(done + [p])
  {
    forall i | 0 <= i < |done| ensures !SameIgnoringCase(done[i].0, p.0) {
      assert (done + [p])[i] == done[i] && (done + [p])[|done|] == p;
    }
    FindsNone(done, p.0);
  }

  lemma DistinctPrefix(a: Params, b: Params)
    requires DistinctNames(a + b)
    ensures DistinctNames(a)
  {
    forall i, j | 0 <= i < j < |a| ensures !SameIgnoringCase(a[i].0, a[j].0) {
      assert (a + b)[i] == a[i] && (a + b)[j] == a[j];
    }
  }

  /** A printed parameter list reads back as itself, whatever is done before it. */
  lemma {:induction false} ParamsRead(done: Params, params: Params, rest: string)
    requires params != [] && DistinctNames(done + params) && (forall p | p in params :: IsToken(p.0)) && Follows(rest)
    ensures ReadParams(PrintParams(params) + rest, done) == Ok((done + params, rest))
    decreases |params|
  {
    var p, more := params[0], params[1..];
    assert params == [p] + more;
    Assoc(done, [p], more);
    DistinctPrefix(done + [p], more);
    AddsNew(done, p);
    if more == [] {
      ParamReads(p, rest);
      assert done + [p] == done + params;
    } else {
      var text := PrintParams(more) + rest;
      var tail := [',', ' '] + text;
      PrintParamsCons(params, rest);
      ParamReads(p, tail);
      var after := PrintParamsHead(more, rest);
      MoreParams(more[0], after);
      ParamsRead(done + [p], more, rest);
      ReadParamsSkips(tail[1..], done + [p]);
    }
  }

  // --- Reading a challenge ---------------------------------------------------------------------

  lemma {:induction false} Skips68(s: string, rest: string)
    requires (forall i | 0 <= i < |s| :: IsToken68Char(s[i])) && (rest == [] || rest[0] == ',')
    ensures UntilComma(s + rest, false, false) == rest
  {
    if s == [] {
      assert s + rest == rest;
    } else {
      assert (s + rest)[1..] == s[1..] + rest;
      Skips68(s[1..], rest);
    }
  }

  lemma {:induction false} TokenLengthGrows(s: string, rest: string)
    requires rest == [] || !IsTokenChar(rest[0])
    ensures TokenLength(s + rest) == TokenLength(s)
  {
    if s == [] {
      assert s + rest == rest;
    } else if IsTokenChar(s[0]) {
      assert (s + rest)[1..] == s[1..] + rest;
      TokenLengthGrows(s[1..], rest);
    }
  }

  lemma Opens68With(s: string, rest: string)
    requires Opens68(s) && (rest == [] || rest[0] == ',')
    ensures IsToken68Next(s + rest)
  {
    TokenLengthGrows(s, rest);
    var k := TokenLength(s);
    assert (s + rest)[k..] == s[k..] + rest;
    NoSpaces(s[k..]);
    NoSpaces(s[k..] + rest);
  }

  /** What follows the scheme, after the space if there is one. */
  function BodyText(b: Body): string {
    match b
    case Bare => ""
    case Token68(text) => text
    case Named(params) => PrintParams(params)
  }

  lemma ParamsOpen(params: Params, rest: string)
    requires params != [] && IsToken(params[0].0)
    ensures var s := PrintParams(params) + rest; s != [] && IsTokenChar(s[0]) && !IsToken68Next(s)
  {
    var tail := PrintParamsHead(params, rest);
    ParamText(params[0], tail);
    TokenReads(params[0].0, ['='] + (Quote(params[0].1) + tail));
    NoSpaces(['='] + (Quote(params[0].1) + tail));
  }

  lemma Token68Reads(text: string, rest: string)
    requires Opens68(text) && Follows(rest)
    ensures ReadBody(text + rest) == Ok(([], rest))
  {
    Opens68With(text, rest);
    Skips68(text, rest);
    assert (text + rest)[0] == text[0];
  }

  lemma NamedReads(params: Params, rest: string)
    requires params != [] && DistinctNames(params) && (forall p | p in params :: IsToken(p.0)) && Follows(rest)
    ensures ReadBody(PrintParams(params) + rest) == Ok((params, rest))
  {
    assert params[0] in params && [] + params == params;
    ParamsOpen(params, rest);
    ParamsRead([], params, rest);
    BodyIsParams(PrintParams(params) + rest);
  }

  lemma BodyIsParams(s: string)
    requires s != [] && IsTokenChar(s[0]) && !IsToken68Next(s)
    ensures ReadBody(s) == ReadParams(s, [])
  {
  }

  lemma NothingReads(rest: string)
    requires Follows(rest)
    ensures ReadBody("" + rest) == Ok(([], rest))
  {
    assert "" + rest == rest;
  }

  lemma BodyReads(b: Body, rest: string)
    requires Printable(Challenge("x", b)) && Follows(rest)
    ensures ReadBody(BodyText(b) + rest) == Ok((ParamsOf(b), rest))
  {
    match b
    case Bare => NothingReads(rest);
    case Token68(text) => Token68Reads(text, rest);
    case Named(params) => if params == [] { NothingReads(rest); } else { NamedReads(params, rest); }
  }

  lemma BodyOpens(b: Body, rest: string)
    requires Printable(Challenge("x", b)) && (rest == [] || rest[0] == ',')
    ensures var s := BodyText(b) + rest; s == [] || !IsSpace(s[0])
  {
    var text := BodyText(b) + rest;
    if b.Named? && b.params != [] {
      assert b.params[0] in b.params;
      ParamsOpen(b.params, rest);
    } else if b.Token68? {
      assert text[0] == b.text[0];
    } else {
      assert text == rest;
    }
  }

  lemma SpaceSkipped(text: string)
    requires text == [] || !IsSpace(text[0])
    ensures SkipSpaces([' '] + text) == text
  {
    assert ([' '] + text)[1..] == text;
    NoSpaces(text);
  }

  lemma NothingStarts(s: string, rest: string)
    requires s == "" && (rest == [] || rest[0] == ',')
    ensures s + rest == rest && SkipSpaces(s + rest) == rest && (rest == [] || !IsTokenChar(rest[0]))
  {
    assert s + rest == rest;
    NoSpaces(rest);
  }

  lemma BodyStarts(b: Body, rest: string)
    requires Printable(Challenge("x", b)) && (rest == [] || rest[0] == ',')
    ensures SkipSpaces(PrintBody(b) + rest) == BodyText(b) + rest
    ensures var s := PrintBody(b) + rest; s == [] || !IsTokenChar(s[0])
  {
    if BodyText(b) == "" {
      assert b.Token68? ==> TokenLength(b.text) == 0;
      NothingStarts(BodyText(b), rest);
      EmptyBody(b);
    } else {
      BodyOpens(b, rest);
      SpacedBody(b);
      Assoc([' '], BodyText(b), rest);
      assert (PrintBody(b) + rest)[0] == ' ';
      SpaceSkipped(BodyText(b) + rest);
    }
  }

  lemma EmptyBody(b: Body)
    requires BodyText(b) == "" && Printable(Challenge("x", b))
    ensures PrintBody(b) == ""
  {
    if b.Named? && b.params != [] {
      assert b.params[0] in b.params && PrintParams(b.params) + "" == PrintParams(b.params);
      ParamsOpen(b.params, "");
    }
  }

  lemma SpacedBody(b: Body)
    requires BodyText(b) != ""
    ensures PrintBody(b) == [' '] + BodyText(b)
  {
  }

  lemma SchemeStarts(c: Challenge, rest: string)
    requires Printable(c) && (rest == [] || rest[0] == ',')
    ensures var t := c.scheme + (PrintBody(c.body) + rest);
            && SkipSpaces(t) == t && t != [] && t[0] != ',' && TokenLength(t) == |c.scheme|
            && t[..|c.scheme|] == c.scheme && AfterToken(t) == BodyText(c.body) + rest
  {
    var t := c.scheme + (PrintBody(c.body) + rest);
    assert Printable(Challenge("x", c.body));
    BodyStarts(c.body, rest);
    TokenReads(c.scheme, PrintBody(c.body) + rest);
    assert t[0] == c.scheme[0];
    NoSpaces(t);
  }

  lemma SchemeReads(c: Challenge, rest: string)
    requires Printable(c) && Follows(rest)
    ensures var t := c.scheme + (PrintBody(c.body) + rest);
            && SkipSeparators(t) == t && t != [] && TokenLength(t) == |c.scheme| && t[..|c.scheme|] == c.scheme
            && ReadBody(AfterToken(t)) == Ok((ParamsOf(c.body), rest))
  {
    assert Printable(Challenge("x", c.body));
    SchemeStarts(c, rest);
    BodyReads(c.body, rest);
  }

  lemma SeparatorsSkipped(s: string)
    ensures SkipSeparators([',', ' '] + s) == SkipSeparators(s)
  {
    var t := [',', ' '] + s;
    NoSpaces(t);
    assert t[1..] == [' '] + s && ([' '] + s)[1..] == s;
    SpacesTwice(s);
    SpacesTwice([' '] + s);
  }

  lemma AheadOf(t: string)
    requires SkipSpaces(t) == t && TokenLength(t) > 0 && First(AfterToken(t)) != Some('=')
    ensures Follows([',', ' '] + t)
  {
    var s := [',', ' '] + t;
    assert s[1..] == [' '] + t && ([' '] + t)[1..] == t;
  }

  lemma NextScheme(c: Challenge, rest: string)
    requires Printable(c) && Follows(rest)
    ensures Follows([',', ' '] + (c.scheme + (PrintBody(c.body) + rest)))
  {
    assert Printable(Challenge("x", c.body));
    SchemeStarts(c, rest);
    BodyHasNoEquals(c.body, rest);
    AheadOf(c.scheme + (PrintBody(c.body) + rest));
  }

  lemma BodyHasNoEquals(b: Body, rest: string)
    requires Printable(Challenge("x", b)) && (rest == [] || rest[0] == ',')
    ensures First(BodyText(b) + rest) != Some('=')
  {
    if b.Named? && b.params != [] {
      assert b.params[0] in b.params;
      ParamsOpen(b.params, rest);
    } else if b.Token68? {
      assert (b.text + rest)[0] == b.text[0];
    } else {
      assert "" + rest == rest;
    }
  }

  /** The text after the first challenge of a printed list. */
  function After(list: seq<Challenge>): string
    requires list != []
  {
    if |list| == 1 then "" else [',', ' '] + Print(list[1..])
  }

  lemma PrintIs(list: seq<Challenge>)
    requires list != []
    ensures Print(list) == list[0].scheme + (PrintBody(list[0].body) + After(list))
  {
    assert PrintBody(list[0].body) + "" == PrintBody(list[0].body);
  }

  lemma {:induction false} AfterFollows(list: seq<Challenge>)
    requires list != [] && forall c | c in list :: Printable(c)
    ensures Follows(After(list))
  {
    if |list| > 1 {
      AfterFollows(list[1..]);
      PrintIs(list[1..]);
      NextScheme(list[1], After(list[1..]));
    }
  }

  lemma ReadSkips(realmOk: string -> bool, s: string, t: string, bearer: Option<BearerChallenge>)
    requires SkipSeparators(s) == SkipSeparators(t)
    ensures ReadChallenges(realmOk, s, bearer) == ReadChallenges(realmOk, t, bearer)
  {
  }

  /** Reading a printed list of challenges makes exactly the choice the list means. */
  lemma {:induction false} ReadUndoesPrint(realmOk: string -> bool, list: seq<Challenge>, bearer: Option<BearerChallenge>)
    requires forall c | c in list :: Printable(c)
    ensures ReadChallenges(realmOk, Print(list), bearer) == ChooseAll(realmOk, bearer, list)
    decreases |list|
  {
    if list != [] {
      var c := list[0];
      PrintIs(list);
      AfterFollows(list);
      SchemeReads(c, After(list));
      var chosen := Choose(realmOk, bearer, c.scheme, ParamsOf(c.body));
      if chosen.Ok? {
        ReadUndoesPrint(realmOk, list[1..], chosen.value);
        if |list| > 1 {
          SeparatorsSkipped(Print(list[1..]));
          ReadSkips(realmOk, After(list), Print(list[1..]), chosen.value);
        }
      }
    }
  }

  // --- The chosen challenge --------------------------------------------------------------------

  predicate IsBearer(c: Challenge) {
    SameIgnoringCase(c.scheme, BEARER)
  }

  lemma {:induction false} ChooseNothing(realmOk: string -> bool, bearer: Option<BearerChallenge>, list: seq<Challenge>)
    requires forall c | c in list :: !IsBearer(c)
    ensures ChooseAll(realmOk, bearer, list) == Ok(bearer)
    decreases |list|
  {
    if list != [] {
      assert list[0] in list;
      ChooseNothing(realmOk, bearer, list[1..]);
    }
  }

  lemma {:induction false} ChooseSplits(realmOk: string -> bool, bearer: Option<BearerChallenge>, a: seq<Challenge>, b: seq<Challenge>)
    requires forall c | c in a :: !IsBearer(c)
    ensures ChooseAll(realmOk, bearer, a + b) == ChooseAll(realmOk, bearer, b)
    decreases |a|
  {
    if a == [] {
      assert a + b == b;
    } else {
      assert (a + b)[1..] == a[1..] + b && (a + b)[0] == a[0] && a[0] in a;
      ChooseSplits(realmOk, bearer, a[1..], b);
    }
  }

  /** With one Bearer challenge and a valid realm, exactly that challenge is returned; with none, none. */
  lemma OneBearerIsChosen(realmOk: string -> bool, before: seq<Challenge>, c: Challenge, after: seq<Challenge>)
    requires forall d | d in before + [c] + after :: Printable(d)
    requires IsBearer(c) && forall d | d in before + after :: !IsBearer(d)
    requires FindParam(ParamsOf(c.body), REALM).Some? && realmOk(FindParam(ParamsOf(c.body), REALM).value)
    ensures var p := ParamsOf(c.body);
            ReadChallenges(realmOk, Print(before + [c] + after), None) ==
            Ok(Some(BearerChallenge(FindParam(p, REALM).value, FindParam(p, SERVICE), FindParam(p, SCOPE))))
    ensures ReadChallenges(realmOk, Print(before + after), None) == Ok(None)
  {
    ReadUndoesPrint(realmOk, before + [c] + after, None);
    Assoc(before, [c], after);
    ChooseSplits(realmOk, None, before, [c] + after);
    assert ([c] + after)[1..] == after;
    var p := ParamsOf(c.body);
    ChooseNothing(realmOk, Some(BearerChallenge(FindParam(p, REALM).value, FindParam(p, SERVICE), FindParam(p, SCOPE))), after);
    assert forall d | d in before + after :: d in before + [c] + after;
    ReadUndoesPrint(realmOk, before + after, None);
    ChooseNothing(realmOk, None, before + after);
  }

  /** A named parameter is found by its name in any case, with its value. */
  lemma {:induction false} FindsByName(params: Params, i: nat, name: string)
    requires DistinctNames(params) && i < |params| && SameIgnoringCase(params[i].0, name)
    ensures FindParam(params, name) == Some(params[i].1)
  {
    if i > 0 {
      assert !SameIgnoringCase(params[0].0, params[i].0);
      assert params[1..][i - 1] == params[i];
      forall a, b | 0 <= a < b < |params[1..]| ensures !SameIgnoringCase(params[1..][a].0, params[1..][b].0) {
        assert params[1..][a] == params[a + 1] && params[1..][b] == params[b + 1];
      }
      FindsByName(params[1..], i - 1, name);
    }
  }

  // --- Several headers -------------------------------------------------------------------------

  lemma {:induction false} ChosenStays(realmOk: string -> bool, b: BearerChallenge, list: seq<Challenge>)
    ensures ChooseAll(realmOk, Some(b), list).Ok? ==> ChooseAll(realmOk, Some(b), list).value == Some(b)
    decreases |list|
  {
    if list != [] { ChosenStays(realmOk, b, list[1..]); }
  }

  /** Choosing with a challenge in hand is choosing afresh and comparing. */
  lemma {:induction false} ChooseIsCombine(
    realmOk: string -> bool, bearer: Option<BearerChallenge>, list: seq<Challenge>, v: Option<BearerChallenge>)
    ensures ChooseAll(realmOk, bearer, list) == Ok(v) <==>
            var fresh' := ChooseAll(realmOk, None, list); fresh'.Ok? && Combine(bearer, fresh'.value) == Ok(v)
    decreases |list|
  {
    if list != [] {
      var c := Choose(realmOk, None, list[0].scheme, ParamsOf(list[0].body));
      if c.Ok? {
        if c.value.Some? { ChosenStays(realmOk, c.value.value, list[1..]); }
        ChooseIsCombine(realmOk, bearer, list[1..], v);
      }
    }
  }

  lemma {:induction false} ChooseAppends(
    realmOk: string -> bool, bearer: Option<BearerChallenge>, a: seq<Challenge>, b: seq<Challenge>)
    ensures ChooseAll(realmOk, bearer, a + b) ==
            match ChooseAll(realmOk, bearer, a) {
              case Err(e) => Err(e)
              case Ok(m) => ChooseAll(realmOk, m, b)
            }
    decreases |a|
  {
    if a == [] {
      assert a + b == b;
    } else {
      assert (a + b)[1..] == a[1..] + b && (a + b)[0] == a[0];
      var c := Choose(realmOk, bearer, a[0].scheme, ParamsOf(a[0].body));
      if c.Ok? { ChooseAppends(realmOk, c.value, a[1..], b); }
    }
  }

  function Headers(lists: seq<seq<Challenge>>): seq<Option<string>> {
    seq(|lists|, i requires 0 <= i < |lists| => Some(Print(lists[i])))
  }

  function Flatten(lists: seq<seq<Challenge>>): seq<Challenge> {
    if lists == [] then [] else lists[0] + Flatten(lists[1..])
  }

  /** Challenges spread over several headers are accepted, and choose the same, as in one list. */
  lemma {:induction false} HeadersAreOneList(
    realmOk: string -> bool, lists: seq<seq<Challenge>>, bearer: Option<BearerChallenge>, v: Option<BearerChallenge>)
    requires forall i | 0 <= i < |lists| :: forall c | c in lists[i] :: Printable(c)
    ensures ReadHeaders(realmOk, Headers(lists), bearer) == Ok(v) <==> ChooseAll(realmOk, bearer, Flatten(lists)) == Ok(v)
    decreases |lists|
  {
    if lists != [] {
      assert Headers(lists)[1..] == Headers(lists[1..]);
      ReadUndoesPrint(realmOk, lists[0], None);
      ChooseAppends(realmOk, bearer, lists[0], Flatten(lists[1..]));
      var fresh' := ChooseAll(realmOk, None, lists[0]);
      if fresh'.Ok? {
        var next := Combine(bearer, fresh'.value);
        if next.Ok? {
          ChooseIsCombine(realmOk, bearer, lists[0], next.value);
          HeadersAreOneList(realmOk, lists[1..], next.value, v);
        }
      }
      if ChooseAll(realmOk, bearer, lists[0]).Ok? {
        ChooseIsCombine(realmOk, bearer, lists[0], ChooseAll(realmOk, bearer, lists[0]).value);
      }
    }
  }

  // --- Padded token68 --------------------------------------------------------------------------

  lemma PaddedReads(text: string, tail: string)
    requires IsToken(text) && forall i | 0 <= i < |tail| :: tail[i] == '='
    ensures var t := text + (['='] + tail);
            TokenLength(t) == |text| && SkipSpaces(t) == t && AfterToken(t) == ['='] + tail
  {
    TokenReads(text, ['='] + tail);
    NoSpaces(text + (['='] + tail));
    NoSpaces(['='] + tail);
  }

  lemma PaddedIsEmpty(text: string, tail: string)
    requires IsToken(text) && forall i | 0 <= i < |tail| :: tail[i] == '='
    ensures ReadBody(text + (['='] + tail)) == Err(EmptyValue)
  {
    var t := text + (['='] + tail);
    PaddedReads(text, tail);
    assert t[0] == text[0] && (['='] + tail)[1..] == tail;
    NoSpaces(tail);
  }

  /** A token68 with padding after a plain token is taken for a parameter without a value, and refused. */
  lemma PaddedToken68IsRefused(
    realmOk: string -> bool, scheme: string, text: string, tail: string, bearer: Option<BearerChallenge>)
    requires IsToken(scheme) && IsToken(text) && forall i | 0 <= i < |tail| :: tail[i] == '='
    ensures ReadChallenges(realmOk, scheme + ([' '] + (text + (['='] + tail))), bearer) == Err(EmptyValue)
  {
    var body := text + (['='] + tail);
    var t := scheme + ([' '] + body);
    TokenReads(scheme, [' '] + body);
    assert t[0] == scheme[0] && ([' '] + body)[1..] == body;
    NoSpaces(t);
    PaddedReads(text, tail);
    PaddedIsEmpty(text, tail);
  }

  lemma Reads68(text: string)
    requires Opens68(text)
    ensures ReadBody(text) == Ok(([], ""))
  {
    Skips68(text, "");
    assert text + "" == text;
  }

  /** Of the token68 texts, those that open like a token before a slash or the end are accepted, no others. */
  lemma Token68IsReadExactly(text: string)
    requires text != "" && forall i | 0 <= i < |text| :: IsToken68Char(text[i])
    ensures ReadBody(text) == Ok(([], "")) <==> Opens68(text)
  {
    if Opens68(text) {
      Reads68(text);
    } else {
      NoSpaces(text);
      NotParams(text);
    }
  }

  lemma NotParams(text: string)
    requires text != "" && !IsToken68Next(text) && forall i | 0 <= i < |text| :: IsToken68Char(text[i])
    ensures ReadParams(text, []) != Ok(([], ""))
  {
    NoSpaces(text);
    if ReadParam(text).Ok? {
      FindsNone([], ReadParam(text).value.key);
      OneParam(text, ReadParam(text).value);
    }
  }

  lemma {:induction false} ParamsGrow(s: string, done: Params)
    requires ReadParams(s, done).Ok?
    ensures |ReadParams(s, done).value.0| >= |done|
    decreases |s|
  {
    var p := ReadParam(s).value;
    var added := AddParam(done, p.key, p.value).value;
    if LookAhead(p.rest) == Continue { ParamsGrow(p.rest[1..], added); }
  }

  lemma OneParam(s: string, p: Param)
    requires ReadParam(s) == Ok(p)
    ensures ReadParams(s, []).Ok? ==> |ReadParams(s, []).value.0| >= 1
  {
    FindsNone([], p.key);
    var added: Params := [] + [(p.key, p.value)];
    assert AddParam([], p.key, p.value) == Ok(added);
    if LookAhead(p.rest) == Continue && ReadParams(p.rest[1..], added).Ok? {
      ParamsGrow(p.rest[1..], added);
    }
  }

  // --- Percent-encoding ------------------------------------------------------------------------

  function HexOf(c: char): Option<int> {
    if '0' <= c <= '9' then Some(c as int - 48) else if 'A' <= c <= 'F' then Some(c as int - 55) else None
  }

  /** Percent-decoding per section 2.1 of RFC 3986. */
  function DecodeBytes(s: string): Option<seq<byte>>
    decreases |s|
  {
    if s == "" then Some([])
    else if s[0] == '%' then
      if |s| < 3 || HexOf(s[1]).None? || HexOf(s[2]).None? then None
      else Consed(16 * HexOf(s[1]).value + HexOf(s[2]).value, DecodeBytes(s[3..]))
    else if s[0] as int < 128 then Consed(s[0] as int, DecodeBytes(s[1..]))
    else None
  }

  function Consed(b: byte, rest: Option<seq<byte>>): Option<seq<byte>> {
    if rest.None? then None else Some([b] + rest.value)
  }

  lemma HexPair(b: byte)
    ensures HexOf(UpperHex(b / 16)) == Some(b / 16) && HexOf(UpperHex(b % 16)) == Some(b % 16)
  {
  }

  lemma DecodeFirst(b: byte, rest: string)
    ensures DecodeBytes(EncodeByte(b) + rest) == Consed(b, DecodeBytes(rest))
  {
    var s := EncodeByte(b) + rest;
    if IsUnreserved(b) {
      assert s[0] == b as char && s[1..] == rest;
    } else {
      HexPair(b);
      assert s[0] == '%' && s[1] == UpperHex(b / 16) && s[2] == UpperHex(b % 16) && s[3..] == rest;
      assert 16 * (b / 16) + b % 16 == b;
    }
  }

  lemma {:induction false} DecodeUndoesEncode(s: seq<byte>)
    ensures DecodeBytes(EncodeBytes(s)) == Some(s)
  {
    if s != [] {
      DecodeUndoesEncode(s[1..]);
      DecodeFirst(s[0], EncodeBytes(s[1..]));
      assert s == [s[0]] + s[1..];
    }
  }

  /** Different texts have different encodings. */
  lemma EncodingIsInjective(a: string, b: string)
    requires EncodeBytes(Utf8(a)) == EncodeBytes(Utf8(b))
    ensures a == b
  {
    DecodeUndoesEncode(Utf8(a));
    DecodeUndoesEncode(Utf8(b));
    Utf8Injective(a, b);
  }

  predicate IsQuerySafe(c: char) {
    IsAlphanumeric(c) || c == '-' || c == '.' || c == '_' || c == '~' || c == '%'
  }

  /** Nothing in an encoded value can be taken for a separator of the query. */
  lemma {:induction false} EncodedIsSafe(s: seq<byte>)
    ensures forall i | 0 <= i < |EncodeBytes(s)| :: IsQuerySafe(EncodeBytes(s)[i])
  {
    if s != [] {
      EncodedIsSafe(s[1..]);
      var head := EncodeByte(s[0]);
      assert forall i | 0 <= i < |head| :: IsQuerySafe(head[i]);
    }
  }
}
