/**
 The `WWW-Authenticate` reader of the registry client (challenges per section 11.6.1 and
 quoted strings per section 5.6.4 of RFC 9110), and the percent-encoding of query values.
 */
module Auth {
  import opened Basics
  import opened Text

  datatype AuthError =
    | MissingScheme | InvalidName | MissingEquals | ConflictingParameter | TrailingComma | Unterminated | EmptyValue
    | MissingRealm | InvalidRealm | ConflictingBearer | NotText

  type Params = seq<(string, string)>

  datatype BearerChallenge = BearerChallenge(realm: string, service: Option<string>, scope: Option<string>)

  predicate IsTokenChar(c: char) {
    || IsAlphanumeric(c) || c == '!' || c == '#' || c == '$' || c == '%' || c == '&' || c == '\'' || c == '*' || c == '+'
    || c == '-' || c == '.' || c == '^' || c == '_' || c == '`' || c == '|' || c == '~'
  }

  function LowerAscii(c: char): char {
    if 'A' <= c <= 'Z' then c - 'A' + 'a' else c
  }

  /** `eq_ignore_ascii_case`. */
  predicate SameIgnoringCase(a: string, b: string) {
    |a| == |b| && forall i | 0 <= i < |a| :: LowerAscii(a[i]) == LowerAscii(b[i])
  }

  // --- What each step leaves of the text -------------------------------------------------------

  function First(s: string): Option<char> {
    if s == [] then None else Some(s[0])
  }

  predicate IsSpace(c: char) {
    c == ' ' || c == '\t'
  }

  function SkipSpaces(s: string): (r: string)
    ensures |r| <= |s| && (r != [] ==> !IsSpace(r[0]))
  {
    if s != [] && IsSpace(s[0]) then SkipSpaces(s[1..]) else s
  }

  function SkipSeparators(s: string): (r: string)
    ensures |r| <= |s|
    decreases |s|
  {
    var t := SkipSpaces(s);
    if First(t) == Some(',') then SkipSeparators(t[1..]) else t
  }

  function TokenLength(s: string): (k: nat)
    ensures k <= |s| && (forall i | 0 <= i < k :: IsTokenChar(s[i])) && (k < |s| ==> !IsTokenChar(s[k]))
  {
    if s == [] || !IsTokenChar(s[0]) then 0 else 1 + TokenLength(s[1..])
  }

  /** What follows a token and spaces. */
  function AfterToken(s: string): string {
    SkipSpaces(s[TokenLength(s)..])
  }

  predicate IsToken68Next(s: string) {
    TokenLength(s) > 0 && First(AfterToken(s)) != Some('=')
  }

  function UntilComma(s: string, quoted: bool, escaped: bool): (r: string)
    ensures |r| <= |s|
  {
    if s == [] then s
    else if escaped then UntilComma(s[1..], quoted, false)
    else if s[0] == '\\' && quoted then UntilComma(s[1..], quoted, true)
    else if s[0] == '"' then UntilComma(s[1..], !quoted, false)
    else if s[0] == ',' && !quoted then s
    else UntilComma(s[1..], quoted, false)
  }

  /** The rest of a quoted string after its opening quote: its value and what follows. */
  function Unquote(s: string, escaped: bool): (r: Option<(string, string)>)
    ensures r.Some? ==> |r.value.1| < |s|
  {
    if s == [] then None
    else if !escaped && s[0] == '"' then Some(([], s[1..]))
    else if !escaped && s[0] == '\\' then Unquote(s[1..], true)
    else
      match Unquote(s[1..], false)
      case None => None
      case Some((v, rest)) => Some(([s[0]] + v, rest))
  }

  function Prefixed(v: string, r: Option<(string, string)>): Option<(string, string)> {
    if r.None? then None else Some((v + r.value.0, r.value.1))
  }

  lemma PrefixedByNothing(r: Option<(string, string)>)
    ensures Prefixed("", r) == r
  {
    assert r.Some? ==> "" + r.value.0 == r.value.0;
  }

  lemma PrefixedByOne(v: string, c: char, r: Option<(string, string)>)
    ensures Prefixed(v, Prefixed([c], r)) == Prefixed(v + [c], r)
  {
    if r.Some? { Assoc(v, [c], r.value.0); }
  }

  function ReadValue(s: string): (r: Result<(string, string), AuthError>)
    ensures r.Ok? ==> |r.value.1| < |s|
  {
    if First(s) == Some('"') then
      (match Unquote(s[1..], false)
       case None => Err(Unterminated)
       case Some(p) => Ok(p))
    else if TokenLength(s) == 0 then Err(EmptyValue)
    else Ok((s[..TokenLength(s)], s[TokenLength(s)..]))
  }

  function FindParam(params: Params, name: string): Option<string> {
    if params == [] then None
    else if SameIgnoringCase(params[0].0, name) then Some(params[0].1)
    else FindParam(params[1..], name)
  }

  /** One more parameter: a repetition with the same value is dropped, with another one it is an error. */
  function AddParam(params: Params, key: string, value: string): Result<Params, AuthError> {
    match FindParam(params, key)
    case None => Ok(params + [(key, value)])
    case Some(v) => if v != value then Err(ConflictingParameter) else Ok(params)
  }

  datatype Param = Param(key: string, value: string, rest: string)

  /** `name = value`, with spaces allowed around each part. */
  function ReadParam(s: string): (r: Result<Param, AuthError>)
    ensures r.Ok? ==> |r.value.rest| < |s|
  {
    var t := SkipSpaces(s);
    if TokenLength(t) == 0 then Err(InvalidName)
    else
      var u := AfterToken(t);
      if First(u) != Some('=') then Err(MissingEquals)
      else
        var p :- ReadValue(SkipSpaces(u[1..]));
        Ok(Param(t[..TokenLength(t)], p.0, SkipSpaces(p.1)))
  }

  /** After a parameter: no comma ends the challenge, a comma and a name with `=` go on with it. */
  datatype More = Stop | Continue | Bad

  function LookAhead(s: string): More {
    if First(s) != Some(',') then Stop
    else
      var t := SkipSpaces(s[1..]);
      if TokenLength(t) == 0 then Bad
      else if First(AfterToken(t)) != Some('=') then Stop
      else Continue
  }

  function ReadParams(s: string, params: Params): (r: Result<(Params, string), AuthError>)
    ensures r.Ok? ==> |r.value.1| < |s|
    decreases |s|
  {
    var p :- ReadParam(s);
    var added :- AddParam(params, p.key, p.value);
    match LookAhead(p.rest)
    case Stop => Ok((added, p.rest))
    case Bad => Err(TrailingComma)
    case Continue => ReadParams(p.rest[1..], added)
  }

  /** The parameters after a scheme, and the text after the challenge. */
  function ReadBody(s: string): (r: Result<(Params, string), AuthError>)
    ensures r.Ok? ==> |r.value.1| <= |s|
  {
    if s == [] || s[0] == ',' then Ok(([], s))
    else if IsToken68Next(s) then Ok(([], UntilComma(s, false, false)))
    else ReadParams(s, [])
  }

  const BEARER := "bearer"
  const REALM := "realm"
  const SERVICE := "service"
  const SCOPE := "scope"

  /** What one challenge does to the choice; `realmOk` says whether a text is an absolute HTTP(S) URL. */
  function Choose(
    realmOk: string -> bool, bearer: Option<BearerChallenge>, scheme: string, params: Params)
    : Result<Option<BearerChallenge>, AuthError>
  {
    if !SameIgnoringCase(scheme, BEARER) then Ok(bearer)
    else
      match FindParam(params, REALM)
      case None => Err(MissingRealm)
      case Some(realm) =>
        if !realmOk(realm) then Err(InvalidRealm)
        else
          var c := BearerChallenge(realm, FindParam(params, SERVICE), FindParam(params, SCOPE));
          if bearer.Some? && bearer.value != c then Err(ConflictingBearer) else Ok(Some(c))
  }

  function ReadChallenges(realmOk: string -> bool, s: string, bearer: Option<BearerChallenge>)
    : Result<Option<BearerChallenge>, AuthError>
    decreases |s|
  {
    var t := SkipSeparators(s);
    if t == [] then Ok(bearer)
    else if TokenLength(t) == 0 then Err(MissingScheme)
    else
      match ReadBody(AfterToken(t))
      case Err(e) => Err(e)
      case Ok((params, rest)) =>
        match Choose(realmOk, bearer, t[..TokenLength(t)], params)
        case Err(e) => Err(e)
        case Ok(b) => ReadChallenges(realmOk, rest, b)
  }

  lemma ShiftOne(a: string, b: string)
    requires b != []
    ensures (a + [b[0]]) + b[1..] == a + b
  {
  }

  lemma SplitAfter(a: string, b: string)
    ensures (a + b)[..|a|] == a && (a + b)[|a|..] == b
  {
  }

  // --- The parser ------------------------------------------------------------------------------

  class ChallengeParser {
    var chars: string
    var lookahead: Option<char>

    constructor (value: string)
      ensures Valid() && Rest() == value
    {
      lookahead := First(value);
      chars := if value == [] then [] else value[1..];
    }

    /** The text not consumed yet. */
    ghost function Rest(): string
      reads this
    {
      if lookahead.None? then [] else [lookahead.value] + chars
    }

    ghost predicate Valid()
      reads this
    {
      lookahead.None? ==> chars == []
    }

    method Bump() returns (c: Option<char>)
      requires Valid()
      modifies this
      ensures Valid() && c == First(old(Rest()))
      ensures Rest() == if old(Rest()) == [] then [] else old(Rest())[1..]
    {
      c := lookahead;
      lookahead := First(chars);
      chars := if chars == [] then [] else chars[1..];
    }

    method SkipBlanks()
      requires Valid()
      modifies this
      ensures Valid() && Rest() == SkipSpaces(old(Rest()))
    {
      while lookahead.Some? && IsSpace(lookahead.value)
        invariant Valid() && SkipSpaces(Rest()) == SkipSpaces(old(Rest()))
        decreases |Rest()|
      {
        var _ := Bump();
      }
    }

    method SkipCommas() returns (more: bool)
      requires Valid()
      modifies this
      ensures Valid() && Rest() == SkipSeparators(old(Rest())) && (more <==> Rest() != [])
    {
      SkipBlanks();
      while lookahead == Some(',')
        invariant Valid() && SkipSpaces(Rest()) == Rest() && SkipSeparators(Rest()) == SkipSeparators(old(Rest()))
        decreases |Rest()|
      {
        var _ := Bump();
        SpacesTwice(Rest());
        SkipBlanks();
      }
      more := lookahead.Some?;
    }

    method Token() returns (token: string)
      requires Valid()
      modifies this
      ensures Valid()
      ensures var s := old(Rest()); token == s[..TokenLength(s)] && Rest() == s[TokenLength(s)..]
    {
      token := "";
      ghost var s := Rest();
      while lookahead.Some? && IsTokenChar(lookahead.value)
        invariant Valid() && s == token + Rest() && TokenLength(s) == |token| + TokenLength(Rest())
        decreases |Rest()|
      {
        ShiftOne(token, Rest());
        token := token + [lookahead.value];
        var _ := Bump();
      }
      SplitAfter(token, Rest());
    }

    /** A copy to look ahead with; the parser itself does not move. */
    method ClonePeek() returns (clone: ChallengeParser)
      requires Valid()
      ensures fresh(clone) && clone.Valid() && clone.Rest() == Rest()
    {
      clone := new ChallengeParser("");
      clone.chars, clone.lookahead := chars, lookahead;
    }

    method NextIsToken68() returns (r: bool)
      requires Valid()
      ensures r == IsToken68Next(Rest())
    {
      var clone := ClonePeek();
      var token := clone.Token();
      if token == "" {
        return false;
      }
      clone.SkipBlanks();
      r := clone.lookahead != Some('=');
    }

    method ConsumeUntilComma()
      requires Valid()
      modifies this
      ensures Valid() && Rest() == UntilComma(old(Rest()), false, false)
    {
      var quoted, escaped := false, false;
      while lookahead.Some?
        invariant Valid() && UntilComma(Rest(), quoted, escaped) == UntilComma(old(Rest()), false, false)
        decreases |Rest()|
      {
        var value := lookahead.value;
        if escaped {
          escaped := false;
        } else if value == '\\' && quoted {
          escaped := true;
        } else if value == '"' {
          quoted := !quoted;
        } else if value == ',' && !quoted {
          break;
        }
        var _ := Bump();
      }
    }

    method Quoted() returns (r: Result<string, AuthError>)
      requires Valid()
      modifies this
      ensures Valid()
      ensures var u := Unquote(old(Rest()), false);
              if u.Some? then r == Ok(u.value.0) && Rest() == u.value.1 else r == Err(Unterminated)
    {
      var value, escaped := "", false;
      ghost var s := Rest();
      PrefixedByNothing(Unquote(s, false));
      while lookahead.Some?
        invariant Valid()
        invariant Unquote(s, false) == Prefixed(value, Unquote(Rest(), escaped))
        decreases |Rest()|
      {
        var current := lookahead.value;
        PrefixedByOne(value, current, Unquote(Rest()[1..], false));
        var _ := Bump();
        if escaped {
          value := value + [current];
          escaped := false;
        } else if current == '\\' {
          escaped := true;
        } else if current == '"' {
          assert value + [] == value;
          return Ok(value);
        } else {
          value := value + [current];
        }
      }
      r := Err(Unterminated);
    }

    method Value() returns (r: Result<string, AuthError>)
      requires Valid()
      modifies this
      ensures Valid()
      ensures var v := ReadValue(old(Rest()));
              if v.Ok? then r == Ok(v.value.0) && Rest() == v.value.1 else r == Err(v.error)
    {
      if lookahead == Some('"') {
        var _ := Bump();
        r := Quoted();
        return;
      }
      var token := Token();
      r := if token == "" then Err(EmptyValue) else Ok(token);
    }

    method NameAndValue() returns (r: Result<(string, string), AuthError>)
      requires Valid()
      modifies this
      ensures Valid()
      ensures var p := ReadParam(old(Rest()));
              if p.Ok? then r == Ok((p.value.key, p.value.value)) && Rest() == p.value.rest else r == Err(p.error)
    {
      SkipBlanks();
      var key := Token();
      if key == "" {
        return Err(InvalidName);
      }
      SkipBlanks();
      var equals := Bump();
      if equals != Some('=') {
        return Err(MissingEquals);
      }
      SkipBlanks();
      var value := Value();
      if value.Err? {
        return Err(value.error);
      }
      SkipBlanks();
      r := Ok((key, value.value));
    }

    method Ahead() returns (m: More)
      requires Valid()
      ensures m == LookAhead(Rest())
    {
      if lookahead != Some(',') {
        return Stop;
      }
      var clone := ClonePeek();
      var _ := clone.Bump();
      clone.SkipBlanks();
      var token := clone.Token();
      if token == "" {
        return Bad;
      }
      clone.SkipBlanks();
      m := if clone.lookahead != Some('=') then Stop else Continue;
    }

    method AuthParams() returns (r: Result<Params, AuthError>)
      requires Valid()
      modifies this
      ensures Valid()
      ensures var p := ReadParams(old(Rest()), []);
              if p.Ok? then r == Ok(p.value.0) && Rest() == p.value.1 else r == Err(p.error)
    {
      var params: Params := [];
      ghost var s := Rest();
      while true
        invariant Valid() && ReadParams(Rest(), params) == ReadParams(s, [])
        decreases |Rest()|
      {
        var pair := NameAndValue();
        if pair.Err? {
          return Err(pair.error);
        }
        var added := AddParam(params, pair.value.0, pair.value.1);
        if added.Err? {
          return Err(added.error);
        }
        params := added.value;
        var more := Ahead();
        match more {
          case Stop => return Ok(params);
          case Bad => return Err(TrailingComma);
          case Continue =>
        }
        var _ := Bump();
      }
    }

    method Body() returns (r: Result<Params, AuthError>)
      requires Valid()
      modifies this
      ensures Valid()
      ensures var b := ReadBody(old(Rest()));
              if b.Ok? then r == Ok(b.value.0) && Rest() == b.value.1 else r == Err(b.error)
    {
      if lookahead == Some(',') || lookahead.None? {
        return Ok([]);
      }
      var token68 := NextIsToken68();
      if token68 {
        ConsumeUntilComma();
        return Ok([]);
      }
      r := AuthParams();
    }
  }

  lemma {:induction false} SpacesTwice(s: string)
    ensures SkipSpaces(SkipSpaces(s)) == SkipSpaces(s) && SkipSeparators(SkipSpaces(s)) == SkipSeparators(s)
  {
    if s != [] && IsSpace(s[0]) { SpacesTwice(s[1..]); }
  }

  /** `parse_www_authenticate_value`; every round consumes a scheme, so it ends on every text. */
  method ParseWwwAuthenticate(realmOk: string -> bool, value: string) returns (r: Result<Option<BearerChallenge>, AuthError>)
    ensures r == ReadChallenges(realmOk, value, None)
  {
    var parser := new ChallengeParser(value);
    var bearer: Option<BearerChallenge> := None;
    while true
      invariant fresh(parser) && parser.Valid()
      invariant ReadChallenges(realmOk, parser.Rest(), bearer) == ReadChallenges(realmOk, value, None)
      decreases |parser.Rest()|
    {
      var more := parser.SkipCommas();
      if !more {
        return Ok(bearer);
      }
      var scheme := parser.Token();
      if scheme == "" {
        return Err(MissingScheme);
      }
      parser.SkipBlanks();
      var params := parser.Body();
      if params.Err? {
        return Err(params.error);
      }
      var chosen := Choose(realmOk, bearer, scheme, params.value);
      if chosen.Err? {
        return Err(chosen.error);
      }
      bearer := chosen.value;
    }
  }

  /** What the answer for one more header does to the choice. */
  function Combine(bearer: Option<BearerChallenge>, next: Option<BearerChallenge>)
    : Result<Option<BearerChallenge>, AuthError>
  {
    if next.None? then Ok(bearer)
    else if bearer.Some? && bearer != next then Err(ConflictingBearer)
    else Ok(next)
  }

  /** The choice over several headers; `None` is a header that is not text. */
  function ReadHeaders(realmOk: string -> bool, headers: seq<Option<string>>, bearer: Option<BearerChallenge>)
    : Result<Option<BearerChallenge>, AuthError>
    decreases |headers|
  {
    if headers == [] then Ok(bearer)
    else if headers[0].None? then Err(NotText)
    else
      match ReadChallenges(realmOk, headers[0].value, None)
      case Err(e) => Err(e)
      case Ok(next) =>
        match Combine(bearer, next)
        case Err(e) => Err(e)
        case Ok(b) => ReadHeaders(realmOk, headers[1..], b)
  }

  /** `parse_www_authenticate`. */
  method ParseHeaders(realmOk: string -> bool, headers: seq<Option<string>>)
    returns (r: Result<Option<BearerChallenge>, AuthError>)
    ensures r == ReadHeaders(realmOk, headers, None)
  {
    var bearer: Option<BearerChallenge> := None;
    for i := 0 to |headers|
      invariant ReadHeaders(realmOk, headers[i..], bearer) == ReadHeaders(realmOk, headers, None)
    {
      assert headers[i..][1..] == headers[i + 1..];
      if headers[i].None? {
        return Err(NotText);
      }
      var candidate := ParseWwwAuthenticate(realmOk, headers[i].value);
      if candidate.Err? {
        return Err(candidate.error);
      }
      if candidate.value.Some? {
        if bearer.Some? && bearer != candidate.value {
          return Err(ConflictingBearer);
        }
        bearer := candidate.value;
      }
    }
    r := Ok(bearer);
  }

  // --- Percent-encoding ------------------------------------------------------------------------

  predicate IsUnreserved(b: byte) {
    || 48 <= b <= 57 || 65 <= b <= 90 || 97 <= b <= 122 || b == 45 || b == 46 || b == 95 || b == 126
  }

  function UpperHex(n: int): (c: char)
    requires 0 <= n < 16
    ensures c as int < 128
  {
    if n < 10 then (48 + n) as char else (65 + n - 10) as char
  }

  function EncodeByte(b: byte): (s: string)
    ensures |s| > 0
  {
    if IsUnreserved(b) then [b as char] else ['%', UpperHex(b / 16), UpperHex(b % 16)]
  }

  function EncodeBytes(s: seq<byte>): string {
    if s == [] then "" else EncodeByte(s[0]) + EncodeBytes(s[1..])
  }

  /** `encode_query_component`. */
  method EncodeQueryComponent(value: string) returns (encoded: string)
    ensures encoded == EncodeBytes(Utf8(value))
  {
    encoded := "";
    var bytes := Utf8(value);
    for i := 0 to |bytes|
      invariant encoded + EncodeBytes(bytes[i..]) == EncodeBytes(bytes)
    {
      assert bytes[i..][1..] == bytes[i + 1..];
      var b := bytes[i];
      Assoc(encoded, EncodeByte(b), EncodeBytes(bytes[i + 1..]));
      encoded := encoded + EncodeByte(b);
    }
    assert bytes[|bytes|..] == [];
  }
}
