/** A structured-field parser after RFC 8941, section 4.2: strings, tokens and booleans as bare items. */
module StructuredFields {
  import opened Texts
  import opened Json

  datatype BareItem = String(s: Text) | Token(t: Text) | Boolean(b: bool)

  datatype Param = Param(key: Text, value: BareItem)

  datatype Item = Item(bare: BareItem, params: seq<Param>)

  datatype ListMember = Single(item: Item) | InnerList(items: seq<Item>, params: seq<Param>)

  const SP: CodePoint := 0x20
  const SEMICOLON: CodePoint := 0x3b
  const EQUALS: CodePoint := 0x3d
  const LPAREN: CodePoint := 0x28
  const RPAREN: CodePoint := 0x29

  predicate LcAlpha(c: CodePoint) {
    0x61 <= c <= 0x7a
  }

  predicate Alpha(c: CodePoint) {
    LcAlpha(c) || 0x41 <= c <= 0x5a
  }

  /** tchar, ":" and "/". */
  predicate TokenChar(c: CodePoint) {
    || Alpha(c) || IsDigit(c) || c == 0x21 || 0x23 <= c <= 0x27 || c == 0x2a || c == 0x2b || c == 0x2d
    || c == 0x2e || c == 0x5e || c == 0x5f || c == 0x60 || c == 0x7c || c == 0x7e || c == 0x3a || c == 0x2f
  }

  predicate KeyChar(c: CodePoint) {
    LcAlpha(c) || IsDigit(c) || c == 0x5f || c == 0x2d || c == 0x2e || c == 0x2a
  }

  function SkipSp(s: Text): (rest: Text)
    ensures |rest| <= |s|
    decreases |s|
  {
    if s != [] && s[0] == SP then SkipSp(s[1..]) else s
  }

  /** Section 4.2.5, after the opening quote. */
  function ParseSfString(s: Text): (r: Parsed<Text>)
    ensures r.Got? ==> |r.rest| < |s|
    decreases |s|
  {
    if s == [] then Fail
    else if s[0] == QUOTE then Got([], s[1..])
    else if s[0] == BACKSLASH then
      if |s| < 2 || (s[1] != QUOTE && s[1] != BACKSLASH) then Fail else
      match ParseSfString(s[2..])
      case Fail => Fail
      case Got(t, rest) => Got([s[1]] + t, rest)
    else if s[0] < 0x20 || s[0] > 0x7e then Fail
    else match ParseSfString(s[1..])
      case Fail => Fail
      case Got(t, rest) => Got([s[0]] + t, rest)
  }

  /** The leading token characters. */
  function TakeToken(s: Text): (t: Text)
    ensures t <= s
    decreases |s|
  {
    if s != [] && TokenChar(s[0]) then [s[0]] + TakeToken(s[1..]) else []
  }

  function TakeKey(s: Text): (t: Text)
    ensures t <= s
    decreases |s|
  {
    if s != [] && KeyChar(s[0]) then [s[0]] + TakeKey(s[1..]) else []
  }

  /** Section 4.2.3.1; numbers and byte sequences are not modelled. */
  function ParseBareItem(s: Text): (r: Parsed<BareItem>)
    ensures r.Got? ==> |r.rest| < |s|
  {
    if s == [] then Fail
    else if s[0] == QUOTE then
      match ParseSfString(s[1..])
      case Fail => Fail
      case Got(t, rest) => Got(String(t), rest)
    else if Alpha(s[0]) || s[0] == 0x2a then
      var t := [s[0]] + TakeToken(s[1..]);
      Got(Token(t), s[|t|..])
    else if |s| >= 2 && s[0] == 0x3f && (s[1] == 0x30 || s[1] == 0x31) then Got(Boolean(s[1] == 0x31), s[2..])
    else Fail
  }

  /** A later parameter overwrites an earlier one of the same key. */
  function SetParam(ps: seq<Param>, p: Param): seq<Param> {
    if ps == [] then [p]
    else if ps[0].key == p.key then [p] + ps[1..]
    else [ps[0]] + SetParam(ps[1..], p)
  }

  /** Section 4.2.3.2, added to the parameters read so far. */
  function ParseParams(s: Text, ps: seq<Param>): (r: Parsed<seq<Param>>)
    ensures r.Got? ==> |r.rest| <= |s|
    decreases |s|
  {
    if s == [] || s[0] != SEMICOLON then Got(ps, s) else
    var k := SkipSp(s[1..]);
    if k == [] || !(LcAlpha(k[0]) || k[0] == 0x2a) then Fail else
    var key := TakeKey(k);
    var after := k[|key|..];
    if after == [] || after[0] != EQUALS then ParseParams(after, SetParam(ps, Param(key, Boolean(true)))) else
    match ParseBareItem(after[1..])
    case Fail => Fail
    case Got(v, rest) => ParseParams(rest, SetParam(ps, Param(key, v)))
  }

  function ParseItem(s: Text): (r: Parsed<Item>)
    ensures r.Got? ==> |r.rest| < |s|
  {
    match ParseBareItem(s)
    case Fail => Fail
    case Got(bare, rest) =>
      match ParseParams(rest, [])
      case Fail => Fail
      case Got(ps, end) => Got(Item(bare, ps), end)
  }

  /** Section 4.2.1.2, after the opening parenthesis. */
  function ParseInnerItems(s: Text, items: seq<Item>): (r: Parsed<seq<Item>>)
    ensures r.Got? ==> |r.rest| < |s|
    decreases |s|
  {
    var t := SkipSp(s);
    if t == [] then Fail
    else if t[0] == RPAREN then Got(items, t[1..])
    else match ParseItem(t)
      case Fail => Fail
      case Got(item, rest) =>
        if rest == [] || (rest[0] != SP && rest[0] != RPAREN) then Fail
        else ParseInnerItems(rest, items + [item])
  }

  function ParseListMember(s: Text): (r: Parsed<ListMember>)
    ensures r.Got? ==> |r.rest| < |s|
  {
    if s != [] && s[0] == LPAREN then
      match ParseInnerItems(s[1..], [])
      case Fail => Fail
      case Got(items, rest) =>
        match ParseParams(rest, [])
        case Fail => Fail
        case Got(ps, end) => Got(InnerList(items, ps), end)
    else match ParseItem(s)
      case Fail => Fail
      case Got(item, rest) => Got(Single(item), rest)
  }

  function SkipOws(s: Text): (rest: Text)
    ensures |rest| <= |s|
    decreases |s|
  {
    if s != [] && (s[0] == SP || s[0] == 0x09) then SkipOws(s[1..]) else s
  }

  /** Section 4.2.1. */
  function ParseMembersOfList(s: Text, ms: seq<ListMember>): (r: Parsed<seq<ListMember>>)
    decreases |s|
  {
    if s == [] then Got(ms, []) else
    match ParseListMember(s)
    case Fail => Fail
    case Got(m, rest) =>
      var t := SkipOws(rest);
      if t == [] then Got(ms + [m], [])
      else if t[0] != COMMA || SkipOws(t[1..]) == [] then Fail
      else ParseMembersOfList(SkipOws(t[1..]), ms + [m])
  }

  /** Section 4.2: a whole field that is an item, or a list. */
  function ParseItemField(s: Text): Parsed<Item> {
    match ParseItem(SkipSp(s))
    case Fail => Fail
    case Got(item, rest) => if SkipSp(rest) == [] then Got(item, []) else Fail
  }

  function ParseListField(s: Text): Parsed<seq<ListMember>> {
    ParseMembersOfList(SkipSp(s), [])
  }
}

/** The two structured headers src/dbsc/server.py prints, and why they parse back. */
module Headers {
  import opened Texts
  import opened Json
  import opened Records
  import opened Validate
  import opened StructuredFields

  function Quoted(t: Text): Text {
    [QUOTE] + t + [QUOTE]
  }

  /** `; key="value"` */
  function PrintParam(key: Text, value: Text): Text {
    [SEMICOLON, SP] + (key + ([EQUALS] + Quoted(value)))
  }

  /** `_challenge_headers`: the value of Secure-Session-Challenge. */
  function ChallengeHeader(sessionIdentifier: Text, challenge: Text): Text {
    Quoted(challenge) + (if sessionIdentifier != [] then PrintParam(Ascii("id"), sessionIdentifier) else [])
  }

  /** `(ES256); path="..."; challenge="..."`: the value of Secure-Session-Registration. */
  function RegistrationHeader(registerPath: Text, challenge: Text): Text {
    [LPAREN] + (Ascii("ES256") + ([RPAREN] + RegistrationParams(registerPath, challenge)))
  }

  function RegistrationParams(registerPath: Text, challenge: Text): Text {
    PrintParam(Ascii("path"), registerPath) + PrintParam(Ascii("challenge"), challenge)
  }

  // ---------------------------------------------------------------- strings

  /** What an sf-string may hold without escapes. */
  predicate Unescaped(t: Text) {
    forall i :: 0 <= i < |t| ==> 0x20 <= t[i] <= 0x7e && t[i] != QUOTE && t[i] != BACKSLASH
  }

  lemma {:induction false} QuotedReadsBack(t: Text, rest: Text)
    requires Unescaped(t)
    ensures ParseSfString(t + ([QUOTE] + rest)) == Got(t, rest)
    decreases |t|
  {
    var s := t + ([QUOTE] + rest);
    if t == [] {
      assert s == [QUOTE] + rest && s[1..] == rest;
    } else {
      assert s[1..] == t[1..] + ([QUOTE] + rest);
      QuotedReadsBack(t[1..], rest);
      assert [t[0]] + t[1..] == t;
    }
  }

  lemma StringItemReadsBack(t: Text, rest: Text)
    requires Unescaped(t)
    ensures ParseBareItem(Quoted(t) + rest) == Got(String(t), rest)
  {
    QuotedReadsBack(t, rest);
    assert (Quoted(t) + rest)[1..] == t + ([QUOTE] + rest);
  }

  // ---------------------------------------------------------------- parameters

  predicate IsKey(key: Text) {
    key != [] && LcAlpha(key[0]) && forall i :: 0 <= i < |key| ==> KeyChar(key[i])
  }

  lemma {:induction false} KeyReadsBack(key: Text, rest: Text)
    requires forall i :: 0 <= i < |key| ==> KeyChar(key[i])
    requires rest != [] && !KeyChar(rest[0])
    ensures TakeKey(key + rest) == key && (key + rest)[|key|..] == rest
    decreases |key|
  {
    var s := key + rest;
    if key == [] {
      assert s == rest;
    } else {
      assert s[1..] == key[1..] + rest;
      KeyReadsBack(key[1..], rest);
    }
  }

  /** One printed string parameter is read, and reading goes on behind it. */
  lemma ParamReadsBack(key: Text, value: Text, rest: Text, ps: seq<Param>)
    requires IsKey(key) && Unescaped(value)
    ensures ParseParams(PrintParam(key, value) + rest, ps) == ParseParams(rest, SetParam(ps, Param(key, String(value))))
  {
    var s := PrintParam(key, value) + rest;
    var afterKey := [EQUALS] + (Quoted(value) + rest);
    assert s[1..] == [SP] + (key + afterKey);
    assert s[1..][1..] == key + afterKey;
    assert SkipSp(s[1..]) == key + afterKey;
    KeyReadsBack(key, afterKey);
    assert afterKey[1..] == Quoted(value) + rest;
    StringItemReadsBack(value, rest);
  }

  /** Two parameters with different keys are read in order. */
  lemma TwoParamsReadBack(k1: Text, v1: Text, k2: Text, v2: Text)
    requires IsKey(k1) && IsKey(k2) && k1 != k2 && Unescaped(v1) && Unescaped(v2)
    ensures ParseParams(PrintParam(k1, v1) + PrintParam(k2, v2), []) ==
              Got([Param(k1, String(v1)), Param(k2, String(v2))], [])
  {
    var p1, p2 := Param(k1, String(v1)), Param(k2, String(v2));
    ParamReadsBack(k1, v1, PrintParam(k2, v2), []);
    ParamReadsBack(k2, v2, [], [p1]);
    assert PrintParam(k2, v2) + [] == PrintParam(k2, v2);
    assert SetParam([], p1) == [p1] && SetParam([p1], p2) == [p1, p2];
  }

  lemma {:induction false} TokenReadsBack(t: Text, rest: Text)
    requires forall i :: 0 <= i < |t| ==> TokenChar(t[i])
    requires rest != [] && !TokenChar(rest[0])
    ensures TakeToken(t + rest) == t
    decreases |t|
  {
    if t == [] {
      assert t + rest == rest;
    } else {
      assert (t + rest)[1..] == t[1..] + rest;
      TokenReadsBack(t[1..], rest);
      assert [t[0]] + t[1..] == t;
    }
  }

  lemma TokenItemReadsBack(t: Text, rest: Text)
    requires t != [] && Alpha(t[0]) && forall i :: 0 <= i < |t| ==> TokenChar(t[i])
    requires rest != [] && !TokenChar(rest[0]) && rest[0] != SEMICOLON
    ensures ParseItem(t + rest) == Got(Item(Token(t), []), rest)
  {
    var s := t + rest;
    assert s[1..] == t[1..] + rest;
    TokenReadsBack(t[1..], rest);
    assert [s[0]] + t[1..] == t && s[|t|..] == rest;
  }

  /** An inner list of one token without parameters. */
  lemma InnerTokenReadsBack(t: Text, rest: Text)
    requires t != [] && Alpha(t[0]) && forall i :: 0 <= i < |t| ==> TokenChar(t[i])
    ensures ParseInnerItems(t + ([RPAREN] + rest), []) == Got([Item(Token(t), [])], rest)
  {
    var close := [RPAREN] + rest;
    TokenItemReadsBack(t, close);
    assert (t + close)[0] == t[0];
    assert close[1..] == rest;
    assert [] + [Item(Token(t), [])] == [Item(Token(t), [])];
    assert ParseInnerItems(close, [Item(Token(t), [])]) == Got([Item(Token(t), [])], rest);
  }

  // ---------------------------------------------------------------- the headers

  /** Secure-Session-Challenge parses back to the challenge and, when there is one, the session id. */
  lemma ChallengeHeaderParsesBack(sessionIdentifier: Text, challenge: Text)
    requires IsSfStringSafe(sessionIdentifier) && IsSfStringSafe(challenge)
    ensures ParseItemField(ChallengeHeader(sessionIdentifier, challenge)) ==
              Got(Item(String(challenge),
                       if sessionIdentifier == [] then [] else [Param(Ascii("id"), String(sessionIdentifier))]), [])
  {
    var tail := if sessionIdentifier == [] then [] else PrintParam(Ascii("id"), sessionIdentifier);
    StringItemReadsBack(challenge, tail);
    if sessionIdentifier != [] {
      ParamReadsBack(Ascii("id"), sessionIdentifier, [], []);
      assert tail + [] == tail;
    }
  }

  /** A list of one inner list with one token, and string parameters behind it. */
  lemma OneInnerListReadsBack(t: Text, params: Text, ps: seq<Param>)
    requires t != [] && Alpha(t[0]) && forall i :: 0 <= i < |t| ==> TokenChar(t[i])
    requires ParseParams(params, []) == Got(ps, [])
    ensures ParseListField([LPAREN] + (t + ([RPAREN] + params))) == Got([InnerList([Item(Token(t), [])], ps)], [])
  {
    var s := [LPAREN] + (t + ([RPAREN] + params));
    var m := InnerList([Item(Token(t), [])], ps);
    assert s[1..] == t + ([RPAREN] + params);
    InnerTokenReadsBack(t, params);
    assert ParseListMember(s) == Got(m, []);
    assert SkipSp(s) == s && [] + [m] == [m];
  }

  /** Secure-Session-Registration parses back to the algorithm, the path and the challenge. */
  lemma RegistrationHeaderParsesBack(registerPath: Text, challenge: Text)
    requires IsPath(registerPath) && IsSfStringSafe(challenge)
    ensures ParseListField(RegistrationHeader(registerPath, challenge)) ==
              Got([InnerList([Item(Token(Ascii("ES256")), [])],
                             [Param(Ascii("path"), String(registerPath)), Param(Ascii("challenge"), String(challenge))])], [])
  {
    var ps := [Param(Ascii("path"), String(registerPath)), Param(Ascii("challenge"), String(challenge))];
    assert Ascii("path")[0] != Ascii("challenge")[0];
    TwoParamsReadBack(Ascii("path"), registerPath, Ascii("challenge"), challenge);
    OneInnerListReadsBack(Ascii("ES256"), RegistrationParams(registerPath, challenge), ps);
  }

  /** Every header a valid binding is printed into names exactly its session and its challenge. */
  lemma BindingHeadersParseBack(b: Binding)
    requires b.Valid() && b.sessionIdentifier != []
    ensures ParseItemField(ChallengeHeader(b.sessionIdentifier, b.challenge)) ==
              Got(Item(String(b.challenge), [Param(Ascii("id"), String(b.sessionIdentifier))]), [])
  {
    ChallengeHeaderParsesBack(b.sessionIdentifier, b.challenge);
  }
}
