/** What the challenge reader makes of texts beyond the printed form: blanks, repetitions and errors. */
module AuthGrammar {
  import opened Basics
  import opened Text
  import opened Auth
  import opened AuthLaws

  predicate Spaces(s: string) {
    forall i | 0 <= i < |s| :: IsSpace(s[i])
  }

  lemma {:induction false} SpacesSkipped(s: string, rest: string)
    requires Spaces(s)
    ensures SkipSpaces(s + rest) == SkipSpaces(rest)
  {
    if s == [] {
      assert s + rest == rest;
    } else {
      assert (s + rest)[1..] == s[1..] + rest;
      SpacesSkipped(s[1..], rest);
    }
  }

  lemma SkipsTo(s: string, rest: string)
    requires Spaces(s) && (rest == [] || !IsSpace(rest[0]))
    ensures SkipSpaces(s + rest) == rest
  {
    SpacesSkipped(s, rest);
    NoSpaces(rest);
  }

  // --- Parameters ------------------------------------------------------------------------------

  lemma KeyReads(key: string, gap: string, rest: string)
    requires IsToken(key) && Spaces(gap) && (rest == [] || (!IsTokenChar(rest[0]) && !IsSpace(rest[0])))
    ensures TokenLength(key + (gap + rest)) == |key| && (key + (gap + rest))[..|key|] == key
    ensures AfterToken(key + (gap + rest)) == rest
  {
    if gap == [] { assert gap + rest == rest; }
    TokenReads(key, gap + rest);
    SkipsTo(gap, rest);
  }

  /** Blanks may stand before a parameter and around both sides of its equals sign. */
  lemma SpacedParamReads(pre: string, key: string, before: string, after: string, value: string, v: string, rest: string)
    requires Spaces(pre) && IsToken(key) && Spaces(before) && Spaces(after)
    requires value != [] && !IsSpace(value[0]) && ReadValue(value) == Ok((v, rest))
    ensures ReadParam(pre + (key + (before + (['='] + (after + value))))) == Ok(Param(key, v, SkipSpaces(rest)))
  {
    var u := ['='] + (after + value);
    var t := key + (before + u);
    SkipsTo(pre, t);
    KeyReads(key, before, u);
    assert u[1..] == after + value;
    SkipsTo(after, value);
  }

  /** A value is a quoted string or a token. */
  lemma TokenValueReads(t: string, rest: string)
    requires IsToken(t) && (rest == [] || !IsTokenChar(rest[0]))
    ensures ReadValue(t + rest) == Ok((t, rest))
  {
    TokenReads(t, rest);
    assert (t + rest)[0] == t[0] && IsTokenChar(t[0]);
  }

  lemma {:induction false} FindsFirst(params: Params, name: string)
    ensures match FindParam(params, name)
            case None => forall i | 0 <= i < |params| :: !SameIgnoringCase(params[i].0, name)
            case Some(v) =>
              exists i | 0 <= i < |params| ::
                && SameIgnoringCase(params[i].0, name) && params[i].1 == v
                && forall j | 0 <= j < i :: !SameIgnoringCase(params[j].0, name)
  {
    if params != [] && !SameIgnoringCase(params[0].0, name) {
      FindsFirst(params[1..], name);
      assert forall i | 0 < i < |params| :: params[i] == params[1..][i - 1];
      match FindParam(params[1..], name)
      case None =>
      case Some(v) =>
        var i :| && 0 <= i < |params[1..]| && SameIgnoringCase(params[1..][i].0, name) && params[1..][i].1 == v
                 && forall j | 0 <= j < i :: !SameIgnoringCase(params[1..][j].0, name);
        assert SameIgnoringCase(params[i + 1].0, name) && params[i + 1].1 == v;
    }
  }

  /** A parameter that repeats a name is dropped if it repeats the value too, and an error otherwise. */
  lemma RepetitionReads(done: Params, i: nat, p: (string, string), rest: string)
    requires DistinctNames(done) && i < |done| && SameIgnoringCase(done[i].0, p.0) && IsToken(p.0) && Follows(rest)
    ensures ReadParams(PrintParam(p) + rest, done) == if p.1 == done[i].1 then Ok((done, rest)) else Err(ConflictingParameter)
  {
    ParamReads(p, rest);
    FindsByName(done, i, p.0);
  }

  /** A comma that no name follows is an error. */
  lemma TrailingCommaIsRefused(done: Params, p: (string, string), gap: string, rest: string)
    requires IsToken(p.0) && DistinctNames(done + [p]) && Spaces(gap)
    requires rest == [] || (!IsTokenChar(rest[0]) && !IsSpace(rest[0]))
    ensures ReadParams(PrintParam(p) + ([','] + (gap + rest)), done) == Err(TrailingComma)
  {
    var tail := [','] + (gap + rest);
    ParamReads(p, tail);
    AddsNew(done, p);
    assert tail[1..] == gap + rest;
    SkipsTo(gap, rest);
  }

  lemma {:induction false} EscapedNeverEnds(v: string)
    ensures Unquote(Escape(v), false) == None
  {
    if v != [] {
      EscapedNeverEnds(v[1..]);
      var more := Escape(v[1..]);
      if v[0] == '"' || v[0] == '\\' {
        assert Escape(v) == ['\\', v[0]] + more && Escape(v)[1..] == [v[0]] + more && ([v[0]] + more)[1..] == more;
      } else {
        assert Escape(v) == [v[0]] + more && Escape(v)[1..] == more;
      }
    }
  }

  /** A quoted string without its closing quote is an error. */
  lemma UnterminatedIsRefused(key: string, v: string)
    requires IsToken(key)
    ensures ReadParam(key + (['='] + (['"'] + Escape(v)))) == Err(Unterminated)
  {
    var value := ['"'] + Escape(v);
    var u := ['='] + value;
    KeyReads(key, "", u);
    assert "" + u == u && u[1..] == value && value[1..] == Escape(v);
    NoSpaces(key + u);
    NoSpaces(value);
    EscapedNeverEnds(v);
  }

  // --- Skipping --------------------------------------------------------------------------------

  lemma SkipsPair(c: char, more: string)
    ensures UntilComma(['\\', c] + more, true, false) == UntilComma(more, true, false)
  {
    var s := ['\\', c] + more;
    assert s[1..] == [c] + more && ([c] + more)[1..] == more;
  }

  lemma SkipsOne(c: char, more: string)
    requires c != '"' && c != '\\'
    ensures UntilComma([c] + more, true, false) == UntilComma(more, true, false)
  {
    assert ([c] + more)[1..] == more;
  }

  lemma EscapeFirst(v: string, tail: string)
    requires v != []
    ensures Escape(v) + tail ==
            (if v[0] == '"' || v[0] == '\\' then ['\\', v[0]] else [v[0]]) + (Escape(v[1..]) + tail)
  {
  }

  lemma {:induction false} SkipsEscaped(v: string, rest: string)
    ensures UntilComma(Escape(v) + (['"'] + rest), true, false) == UntilComma(rest, false, false)
  {
    var tail := ['"'] + rest;
    if v == [] {
      assert Escape(v) + tail == tail && tail[1..] == rest;
    } else {
      SkipsEscaped(v[1..], rest);
      EscapeFirst(v, tail);
      if v[0] == '"' || v[0] == '\\' {
        SkipsPair(v[0], Escape(v[1..]) + tail);
      } else {
        SkipsOne(v[0], Escape(v[1..]) + tail);
      }
    }
  }

  /** A quoted string is skipped as a whole, with the commas in it. */
  lemma SkipsQuoted(v: string, rest: string)
    ensures UntilComma(Quote(v) + rest, false, false) == UntilComma(rest, false, false)
  {
    var s := Quote(v) + rest;
    assert s[0] == '"' && s[1..] == Escape(v) + (['"'] + rest);
    SkipsEscaped(v, rest);
  }

  predicate Separators(s: string) {
    forall i | 0 <= i < |s| :: IsSpace(s[i]) || s[i] == ','
  }

  lemma {:induction false} SeparatorsGone(s: string, rest: string)
    requires Separators(s)
    ensures SkipSeparators(s + rest) == SkipSeparators(rest)
    decreases |s|
  {
    if s == [] {
      assert s + rest == rest;
    } else {
      assert (s + rest)[1..] == s[1..] + rest;
      SeparatorsGone(s[1..], rest);
      SpacesTwice(s[1..] + rest);
    }
  }

  /** Any commas and blanks may stand before a challenge. */
  lemma SeparatorsDoNotMatter(realmOk: string -> bool, s: string, rest: string, bearer: Option<BearerChallenge>)
    requires Separators(s)
    ensures ReadChallenges(realmOk, s + rest, bearer) == ReadChallenges(realmOk, rest, bearer)
  {
    SeparatorsGone(s, rest);
    ReadSkips(realmOk, s + rest, rest, bearer);
  }

  // --- The choice ------------------------------------------------------------------------------

  function Upper(s: string): string {
    seq(|s|, i requires 0 <= i < |s| => if 'a' <= s[i] <= 'z' then s[i] - 'a' + 'A' else s[i])
  }

  /** Names and schemes match in any case, and only if they have the same letters. */
  lemma CaseIsIgnored(a: string, b: string)
    ensures SameIgnoringCase(a, Upper(a)) && (SameIgnoringCase(a, b) <==> Upper(a) == Upper(b))
  {
    if SameIgnoringCase(a, b) {
      forall i | 0 <= i < |a| ensures Upper(a)[i] == Upper(b)[i] {
        assert LowerAscii(a[i]) == LowerAscii(b[i]);
      }
    }
    if Upper(a) == Upper(b) {
      assert |a| == |b|;
      forall i | 0 <= i < |a| ensures LowerAscii(a[i]) == LowerAscii(b[i]) {
        assert Upper(a)[i] == Upper(b)[i];
      }
    }
  }

  ghost predicate GoodBearer(realmOk: string -> bool, c: Challenge, b: BearerChallenge) {
    var p := ParamsOf(c.body);
    && FindParam(p, "realm") == Some(b.realm) && realmOk(b.realm)
    && b.service == FindParam(p, "service") && b.scope == FindParam(p, "scope")
  }

  /** Every Bearer challenge means the same, and that is chosen; without one the choice so far stays. */
  ghost predicate Agreed(
    realmOk: string -> bool, bearer: Option<BearerChallenge>, list: seq<Challenge>, r: Option<BearerChallenge>)
  {
    && (forall i | 0 <= i < |list| && IsBearer(list[i]) :: r.Some? && GoodBearer(realmOk, list[i], r.value))
    && (bearer.Some? ==> r == bearer)
    && (r.Some? ==> bearer.Some? || exists i | 0 <= i < |list| :: IsBearer(list[i]))
  }

  lemma ChooseIs(realmOk: string -> bool, bearer: Option<BearerChallenge>, c: Challenge, r: Option<BearerChallenge>)
    ensures Choose(realmOk, bearer, c.scheme, ParamsOf(c.body)) == Ok(r) <==>
            if IsBearer(c) then r.Some? && GoodBearer(realmOk, c, r.value) && (bearer.None? || bearer == r) else r == bearer
  {
  }

  lemma AgreedFirst(
    realmOk: string -> bool, bearer: Option<BearerChallenge>, list: seq<Challenge>, b: Option<BearerChallenge>,
    r: Option<BearerChallenge>)
    requires list != [] && Choose(realmOk, bearer, list[0].scheme, ParamsOf(list[0].body)) == Ok(b)
    ensures Agreed(realmOk, b, list[1..], r) <==> Agreed(realmOk, bearer, list, r)
  {
    ChooseIs(realmOk, bearer, list[0], b);
    assert forall i | 0 < i < |list| :: list[i] == list[1..][i - 1];
    if Agreed(realmOk, bearer, list, r) && !IsBearer(list[0]) && r.Some? && bearer.None? {
      var i :| 0 <= i < |list| && IsBearer(list[i]);
      assert IsBearer(list[1..][i - 1]);
    }
  }

  lemma RefusedFirst(realmOk: string -> bool, bearer: Option<BearerChallenge>, list: seq<Challenge>, r: Option<BearerChallenge>)
    requires list != [] && Choose(realmOk, bearer, list[0].scheme, ParamsOf(list[0].body)).Err?
    ensures !Agreed(realmOk, bearer, list, r)
  {
    ChooseIs(realmOk, bearer, list[0], r);
  }

  lemma {:induction false} ChoiceIsAgreed(
    realmOk: string -> bool, bearer: Option<BearerChallenge>, list: seq<Challenge>, r: Option<BearerChallenge>)
    ensures ChooseAll(realmOk, bearer, list) == Ok(r) <==> Agreed(realmOk, bearer, list, r)
    decreases |list|
  {
    if list != [] {
      var chosen := Choose(realmOk, bearer, list[0].scheme, ParamsOf(list[0].body));
      if chosen.Ok? {
        AgreedFirst(realmOk, bearer, list, chosen.value, r);
        ChoiceIsAgreed(realmOk, chosen.value, list[1..], r);
      } else {
        RefusedFirst(realmOk, bearer, list, r);
      }
    }
  }

  /** A printed list is accepted exactly when its Bearer challenges are valid and agree; then that one is the answer. */
  lemma ChoiceIsExact(realmOk: string -> bool, list: seq<Challenge>, r: Option<BearerChallenge>)
    requires forall c | c in list :: Printable(c)
    ensures ReadChallenges(realmOk, Print(list), None) == Ok(r) <==> Agreed(realmOk, None, list, r)
  {
    ReadUndoesPrint(realmOk, list, None);
    ChoiceIsAgreed(realmOk, None, list, r);
  }
}
