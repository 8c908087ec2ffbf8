/** Reading back what was written, and refusing what must be refused. */
module JsonProofs {
  import opened Texts
  import opened Wrappers
  import opened Json

  // ---------------------------------------------------------------- strings

  lemma DigitReadsBack(n: nat)
    requires n < 16
    ensures HexValue(HexDigit(n)) == Some(n)
  {}

  lemma Nibbles(n: nat)
    requires n < 0x10000
    ensures n / 0x1000 < 16
    ensures n / 0x1000 * 0x1000 + n / 0x100 % 16 * 0x100 + n / 0x10 % 16 * 0x10 + n % 16 == n
  {
    assert n / 0x100 == n / 0x10 / 16 && n / 0x1000 == n / 0x100 / 16;
  }

  lemma Hex4ReadsBack(n: nat, rest: Text)
    requires n < 0x10000
    ensures ParseHex4(Hex4(n) + rest) == Some(n)
  {
    var t := Hex4(n) + rest;
    Nibbles(n);
    var a, b, c, d := n / 0x1000, n / 0x100 % 16, n / 0x10 % 16, n % 16;
    assert t[0] == HexDigit(a) && t[1] == HexDigit(b) && t[2] == HexDigit(c) && t[3] == HexDigit(d);
    DigitReadsBack(a);
    DigitReadsBack(b);
    DigitReadsBack(c);
    DigitReadsBack(d);
  }

  predicate StartsUnicodeEscape(s: Text) {
    |s| >= 2 && s[0] == BACKSLASH && s[1] == 0x75
  }

  /** A lone escape, unless it is a high surrogate with a low one behind it. */
  lemma LoneEscapeReadsBack(c: CodePoint, u: Text)
    requires c < 0x10000
    requires High(c) && StartsUnicodeEscape(u) ==> ParseHex4(u[2..]).Some? && !Low(ParseHex4(u[2..]).value)
    ensures ParseChar(UnicodeEscape(c) + u) == Some((c, 6))
  {
    var s := UnicodeEscape(c) + u;
    assert s[2..] == Hex4(c) + u;
    Hex4ReadsBack(c, u);
    if |s| >= 8 {
      assert s[6] == u[0] && s[7] == u[1] && s[8..] == u[2..];
    }
  }

  lemma PairEscapeReadsBack(c: CodePoint, d: CodePoint, u: Text)
    requires High(c) && Low(d)
    ensures ParseChar(UnicodeEscape(c) + (UnicodeEscape(d) + u)) == Some((Pair(c, d), 12))
  {
    var s := UnicodeEscape(c) + (UnicodeEscape(d) + u);
    assert s[2..] == Hex4(c) + (UnicodeEscape(d) + u);
    Hex4ReadsBack(c, UnicodeEscape(d) + u);
    assert s[6] == BACKSLASH && s[7] == 0x75 && s[8..] == Hex4(d) + u;
    Hex4ReadsBack(d, u);
  }

  lemma ShortEscapeReadsBack(c: CodePoint, u: Text)
    requires |Escape(c)| <= 2
    ensures ParseChar(Escape(c) + u) == Some((c, |Escape(c)|))
  {
    var s := Escape(c) + u;
    assert s[0] == Escape(c)[0] && (|Escape(c)| == 2 ==> s[1] == Escape(c)[1]);
  }

  lemma HalvesPair(c: CodePoint)
    requires c >= 0x10000
    ensures Pair(HighHalf(c), LowHalf(c)) == c
  {}

  lemma AstralEscapeReadsBack(c: CodePoint, u: Text)
    requires c >= 0x10000
    ensures ParseChar(UnicodeEscape(HighHalf(c)) + UnicodeEscape(LowHalf(c)) + u) == Some((c, 12))
  {
    AssociateConcat(UnicodeEscape(HighHalf(c)), UnicodeEscape(LowHalf(c)), u);
    PairEscapeReadsBack(HighHalf(c), LowHalf(c), u);
    HalvesPair(c);
  }

  /** Every escape reads back as its character; a high surrogate only if no low one follows it. */
  lemma EscapeReadsBack(c: CodePoint, u: Text)
    requires High(c) && StartsUnicodeEscape(u) ==> ParseHex4(u[2..]).Some? && !Low(ParseHex4(u[2..]).value)
    ensures ParseChar(Escape(c) + u) == Some((c, |Escape(c)|))
  {
    if c >= 0x10000 {
      AstralEscapeReadsBack(c, u);
    } else if |Escape(c)| <= 2 {
      ShortEscapeReadsBack(c, u);
    } else {
      LoneEscapeReadsBack(c, u);
    }
  }

  /** The first escape of a printed text starts `\\u` only for its first character's code units. */
  lemma FirstEscape(c: CodePoint, u: Text)
    requires StartsUnicodeEscape(Escape(c) + u)
    ensures ParseHex4((Escape(c) + u)[2..]).Some?
    ensures Low(ParseHex4((Escape(c) + u)[2..]).value) == Low(c)
  {
    var s := Escape(c) + u;
    if c < 0x10000 && |Escape(c)| == 6 {
      assert s[2..] == Hex4(c) + u;
      Hex4ReadsBack(c, u);
    } else if c >= 0x10000 {
      assert s[2..] == Hex4(HighHalf(c)) + (UnicodeEscape(LowHalf(c)) + u);
      Hex4ReadsBack(HighHalf(c), UnicodeEscape(LowHalf(c)) + u);
    }
  }

  lemma SplitEscapes(t: Text, u: Text)
    requires t != []
    ensures EscapeAll(t) + u == Escape(t[0]) + (EscapeAll(t[1..]) + u)
  {
    AssociateConcat(Escape(t[0]), EscapeAll(t[1..]), u);
  }

  lemma AssociateConcat(a: Text, b: Text, c: Text)
    ensures a + b + c == a + (b + c)
  {}

  /** What follows a high surrogate in a printed string tells whether a low one follows in the text. */
  lemma NextEscape(t: Text, u: Text)
    requires u != [] && u[0] == QUOTE && StartsUnicodeEscape(EscapeAll(t) + u)
    ensures t != []
    ensures ParseHex4((EscapeAll(t) + u)[2..]).Some?
    ensures Low(ParseHex4((EscapeAll(t) + u)[2..]).value) == Low(t[0])
  {
    assert t == [] ==> EscapeAll(t) + u == u;
    SplitEscapes(t, u);
    FirstEscape(t[0], EscapeAll(t[1..]) + u);
  }

  /** A high surrogate directly followed by a low one, somewhere. */
  predicate HasSplitPair(t: Text) {
    exists i :: 0 <= i < |t| - 1 && High(t[i]) && Low(t[i + 1])
  }

  /** The text with every split pair replaced by the character it encodes. */
  function Joined(t: Text): Text
    decreases |t|
  {
    if t == [] then []
    else if |t| >= 2 && High(t[0]) && Low(t[1]) then [Pair(t[0], t[1])] + Joined(t[2..])
    else [t[0]] + Joined(t[1..])
  }

  /** One step of reading a string body back. */
  lemma ParseOneMore(s: Text, c: CodePoint, n: nat, tail: Text, t: Text, rest: Text)
    requires s != [] && s[0] != QUOTE && ParseChar(s) == Some((c, n)) && s[n..] == tail
    requires ParseChars(tail) == Got(t, rest)
    ensures ParseChars(s) == Got([c] + t, rest)
  {}

  lemma EscapeIsNoQuote(c: CodePoint, u: Text)
    ensures (Escape(c) + u)[0] != QUOTE && (Escape(c) + u)[|Escape(c)|..] == u
  {}

  /** A printed string reads back as itself with split pairs joined. */
  lemma {:induction false} StringReadsBackJoined(t: Text, rest: Text)
    ensures ParseChars(EscapeAll(t) + ([QUOTE] + rest)) == Got(Joined(t), rest)
    decreases |t|
  {
    var u := [QUOTE] + rest;
    var s := EscapeAll(t) + u;
    if t == [] {
      assert s == u && u[1..] == rest;
    } else if |t| >= 2 && High(t[0]) && Low(t[1]) {
      var tail := EscapeAll(t[2..]) + u;
      StringReadsBackJoined(t[2..], rest);
      TwoEscapes(t, u);
      PairEscapeReadsBack(t[0], t[1], tail);
      ParseOneMore(s, Pair(t[0], t[1]), 12, tail, Joined(t[2..]), rest);
    } else {
      StringReadsBackJoined(t[1..], rest);
      OneEscape(t, u);
      ParseOneMore(s, t[0], |Escape(t[0])|, EscapeAll(t[1..]) + u, Joined(t[1..]), rest);
    }
  }

  lemma OneEscape(t: Text, u: Text)
    requires t != [] && u != [] && u[0] == QUOTE
    requires |t| >= 2 && High(t[0]) ==> !Low(t[1])
    ensures var s := EscapeAll(t) + u; var n := |Escape(t[0])|;
            && s != [] && s[0] != QUOTE && n <= |s|
            && ParseChar(s) == Some((t[0], n)) && s[n..] == EscapeAll(t[1..]) + u
  {
    var tail := EscapeAll(t[1..]) + u;
    SplitEscapes(t, u);
    if High(t[0]) && StartsUnicodeEscape(tail) {
      NextEscape(t[1..], u);
    }
    EscapeReadsBack(t[0], tail);
    EscapeIsNoQuote(t[0], tail);
  }

  lemma SurrogateEscape(c: CodePoint)
    requires High(c) || Low(c)
    ensures Escape(c) == UnicodeEscape(c)
  {}

  lemma TwoEscapes(t: Text, u: Text)
    requires |t| >= 2 && High(t[0]) && Low(t[1])
    ensures EscapeAll(t) + u == UnicodeEscape(t[0]) + (UnicodeEscape(t[1]) + (EscapeAll(t[2..]) + u))
    ensures (EscapeAll(t) + u)[0] != QUOTE && (EscapeAll(t) + u)[12..] == EscapeAll(t[2..]) + u
  {
    var r := t[1..];
    assert r[0] == t[1] && r[1..] == t[2..];
    SurrogateEscape(t[0]);
    SurrogateEscape(t[1]);
    SplitEscapes(r, u);
    SplitEscapes(t, u);
    SkipTwo(UnicodeEscape(t[0]), UnicodeEscape(t[1]), EscapeAll(t[2..]) + u);
  }

  lemma SkipTwo(a: Text, b: Text, c: Text)
    requires |a| == |b| == 6
    ensures (a + (b + c))[12..] == c && (a + (b + c))[0] == a[0]
  {}

  lemma {:induction false} JoinedIsShorter(t: Text)
    ensures |Joined(t)| <= |t|
    ensures Joined(t) == t <==> !HasSplitPair(t)
    ensures HasSplitPair(t) ==> |Joined(t)| < |t|
    decreases |t|
  {
    if t == [] {
    } else if |t| >= 2 && High(t[0]) && Low(t[1]) {
      JoinedIsShorter(t[2..]);
      assert HasSplitPair(t);
    } else {
      var r := t[1..];
      JoinedIsShorter(r);
      if HasSplitPair(t) {
        var i :| 0 <= i < |t| - 1 && High(t[i]) && Low(t[i + 1]);
        assert i > 0 && High(r[i - 1]) && Low(r[i - 1 + 1]);
      }
      if HasSplitPair(r) {
        var i :| 0 <= i < |r| - 1 && High(r[i]) && Low(r[i + 1]);
        assert High(t[i + 1]) && Low(t[i + 1 + 1]);
      }
      assert t == [t[0]] + r;
    }
  }

  lemma StringText(t: Text, rest: Text)
    ensures PrintString(t) + rest == [QUOTE] + (EscapeAll(t) + ([QUOTE] + rest))
  {
    AssociateConcat([QUOTE] + EscapeAll(t), [QUOTE], rest);
    AssociateConcat([QUOTE], EscapeAll(t), [QUOTE] + rest);
  }

  /** A string survives printing and parsing exactly when it holds no split surrogate pair. */
  lemma StringRoundTrip(t: Text, rest: Text)
    ensures PrintString(t) + rest == [QUOTE] + (EscapeAll(t) + ([QUOTE] + rest))
    ensures ParseChars(EscapeAll(t) + ([QUOTE] + rest)) == Got(t, rest) <==> !HasSplitPair(t)
  {
    StringText(t, rest);
    StringReadsBackJoined(t, rest);
    JoinedIsShorter(t);
  }

  // ---------------------------------------------------------------- numbers

  lemma ScaleUp(value: nat, before: nat, n: nat)
    ensures (value * before + n / 10) * 10 + n % 10 == value * (before * 10) + n
  {
    assert value * (before * 10) == value * before * 10;
  }

  lemma OneDigit(d: nat, value: nat, rest: Text)
    requires d < 10
    ensures ParseDigits([0x30 + d] + rest, value) == ParseDigits(rest, value * 10 + d)
  {
    assert ([0x30 + d] + rest)[1..] == rest;
  }

  /** Digits of `n` are consumed one after the other, whatever comes behind them. */
  lemma {:induction false} DigitsThen(n: nat, value: nat, rest: Text) returns (scale: nat)
    ensures ParseDigits(PrintNat(n) + rest, value) == ParseDigits(rest, value * scale + n)
    decreases n
  {
    if n < 10 {
      OneDigit(n, value, rest);
      scale := 10;
    } else {
      var last: Text := [0x30 + n % 10];
      var before := DigitsThen(n / 10, value, last + rest);
      AssociateConcat(PrintNat(n / 10), last, rest);
      OneDigit(n % 10, value * before + n / 10, rest);
      ScaleUp(value, before, n);
      scale := before * 10;
    }
  }

  /** Behind a number in a record: a comma or a closing brace, never more of the number. */
  predicate EndsNumber(rest: Text) {
    rest != [] && (rest[0] == COMMA || rest[0] == CLOSE)
  }

  lemma StartsLike(a: Text, rest: Text)
    requires a != []
    ensures (a + rest)[0] == a[0] && a + rest != []
  {}

  lemma NatRoundTrip(n: nat, rest: Text)
    requires !StartsWithDigit(rest)
    ensures ParseNat(PrintNat(n) + rest) == Got(n, rest)
  {
    var t := PrintNat(n) + rest;
    var scale := DigitsThen(n, 0, rest);
    StartsLike(PrintNat(n), rest);
    if t[0] == 0x30 {
      assert t[1..] == rest;
    }
  }

  /** A sign or none, digits, and no fraction or exponent behind them. */
  lemma ParseInteger(s: Text, digits: Text, n: nat, rest: Text)
    requires s != [] && digits == (if s[0] == MINUS then s[1..] else s)
    requires ParseNat(digits) == Got(n, rest) && EndsNumber(rest)
    ensures ParseNumber(s) == Got(Int(if s[0] == MINUS then 0 - n else n), rest)
  {
    assert SkipExponent(SkipFraction(rest)) == rest;
  }

  lemma AfterFirst(c: CodePoint, a: Text, rest: Text)
    ensures ([c] + a + rest)[0] == c && ([c] + a + rest)[1..] == a + rest
  {
    AssociateConcat([c], a, rest);
  }

  lemma IntRoundTrip(n: int, rest: Text)
    requires EndsNumber(rest)
    ensures ParseNumber(PrintInt(n) + rest) == Got(Int(n), rest)
    ensures var s := PrintInt(n) + rest; s[0] == MINUS || IsDigit(s[0])
  {
    if n < 0 {
      NatRoundTrip(-n, rest);
      AfterFirst(MINUS, PrintNat(-n), rest);
      ParseInteger(PrintInt(n) + rest, PrintNat(-n) + rest, -n, rest);
    } else {
      NatRoundTrip(n, rest);
      StartsLike(PrintNat(n), rest);
      ParseInteger(PrintInt(n) + rest, PrintNat(n) + rest, n, rest);
    }
  }

  // ---------------------------------------------------------------- records

  function JoinedValue(v: Value): Value {
    if v.Str? then Str(Joined(v.s)) else v
  }

  function JoinedMembers(ms: seq<Member>): (r: seq<Member>)
    ensures |r| == |ms|
    ensures forall i :: 0 <= i < |ms| ==> r[i] == Member(Joined(ms[i].name), JoinedValue(ms[i].value))
  {
    seq(|ms|, i requires 0 <= i < |ms| => Member(Joined(ms[i].name), JoinedValue(ms[i].value)))
  }

  lemma StringStart(t: Text, rest: Text)
    ensures (PrintString(t) + rest)[0] == QUOTE && (PrintString(t) + rest)[1..] == EscapeAll(t) + ([QUOTE] + rest)
  {}

  lemma ParseQuoted(s: Text)
    requires s != [] && s[0] == QUOTE && ParseChars(s[1..]).Got?
    ensures ParseValue(s) == Got(Str(ParseChars(s[1..]).value), ParseChars(s[1..]).rest)
  {}

  lemma StrReadsBack(t: Text, rest: Text)
    ensures ParseValue(PrintString(t) + rest) == Got(Str(Joined(t)), rest)
  {
    StringReadsBackJoined(t, rest);
    StringStart(t, rest);
    ParseQuoted(PrintString(t) + rest);
  }

  lemma IntReadsBack(n: int, rest: Text)
    requires EndsNumber(rest)
    ensures ParseValue(PrintInt(n) + rest) == Got(Int(n), rest)
  {
    IntRoundTrip(n, rest);
  }

  lemma BoolReadsBack(b: bool, rest: Text)
    ensures ParseValue(Ascii(if b then "true" else "false") + rest) == Got(Bool(b), rest)
  {
    var s := Ascii(if b then "true" else "false") + rest;
    if b {
      assert s[0] == 0x74 && s[4..] == rest && Ascii("true") <= s;
      assert Ascii("null")[0] != s[0];
    } else {
      assert s[0] == 0x66 && s[5..] == rest && Ascii("false") <= s;
      assert Ascii("null")[0] != s[0] && Ascii("true")[0] != s[0];
    }
  }

  /** A printed scalar starts with none of the characters the parser skips or stops at. */
  lemma ScalarStart(v: Value, rest: Text)
    requires Scalar(v)
    ensures var s := PrintScalar(v) + rest; s != [] && !IsSpace(s[0])
  {
    match v
    case Str(t) => assert (PrintString(t) + rest)[0] == QUOTE;
    case Int(n) => assert n >= 0 ==> (PrintInt(n) + rest)[0] == PrintNat(n)[0];
    case Bool(b) => assert PrintScalar(v)[0] == (if b then 0x74 else 0x66);
  }

  lemma ScalarReadsBack(v: Value, rest: Text)
    requires Scalar(v) && EndsNumber(rest)
    ensures ParseValue(PrintScalar(v) + rest) == Got(JoinedValue(v), rest)
    ensures SkipSpace(PrintScalar(v) + rest) == PrintScalar(v) + rest
  {
    ScalarStart(v, rest);
    match v
    case Str(t) => StrReadsBack(t, rest);
    case Int(n) => IntReadsBack(n, rest);
    case Bool(b) => BoolReadsBack(b, rest);
  }

  function PrintMember(m: Member): Text
    requires Scalar(m.value)
  {
    PrintString(m.name) + [COLON] + PrintScalar(m.value)
  }

  lemma MemberStart(name: Text, value: Text, rest: Text)
    ensures var s := PrintString(name) + [COLON] + value + rest;
            s[0] == QUOTE && s[1..] == EscapeAll(name) + ([QUOTE] + ([COLON] + (value + rest)))
  {}

  /** One turn of the member loop, on a name, a colon, a value, and a comma or closing brace. */
  lemma ParseOneMember(s: Text, name: Text, value: Text, v: Value, rest: Text)
    requires s != [] && s[0] == QUOTE && ParseChars(s[1..]) == Got(name, [COLON] + value)
    requires SkipSpace(value) == value && ParseValue(value) == Got(v, rest) && EndsNumber(rest)
    requires rest[0] == COMMA ==> |rest| > 1 && rest[1] == QUOTE
    ensures ParseMembers(s) ==
              if rest[0] == CLOSE then Got([Member(name, v)], rest[1..])
              else if ParseMembers(rest[1..]).Fail? then Fail
              else Got([Member(name, v)] + ParseMembers(rest[1..]).value, ParseMembers(rest[1..]).rest)
  {
    var colon := [COLON] + value;
    assert SkipSpace(colon) == colon && colon[1..] == value;
    assert SkipSpace(rest) == rest;
    assert rest[0] == COMMA ==> SkipSpace(rest[1..]) == rest[1..];
  }

  /** What the parser makes of one printed member and what stands behind it. */
  lemma MemberReadsBack(m: Member, rest: Text)
    requires Scalar(m.value) && EndsNumber(rest)
    requires rest[0] == COMMA ==> |rest| > 1 && rest[1] == QUOTE
    ensures var s := PrintMember(m) + rest; var read := Member(Joined(m.name), JoinedValue(m.value));
            s != [] && s[0] == QUOTE &&
            ParseMembers(s) ==
              if rest[0] == CLOSE then Got([read], rest[1..])
              else if ParseMembers(rest[1..]).Fail? then Fail
              else Got([read] + ParseMembers(rest[1..]).value, ParseMembers(rest[1..]).rest)
  {
    var value := PrintScalar(m.value) + rest;
    MemberStart(m.name, PrintScalar(m.value), rest);
    StringReadsBackJoined(m.name, [COLON] + value);
    ScalarReadsBack(m.value, rest);
    ParseOneMember(PrintMember(m) + rest, Joined(m.name), value, JoinedValue(m.value), rest);
  }

  lemma LastMemberReadsBack(m: Member, rest: Text)
    requires Scalar(m.value)
    ensures ReadsAs(PrintMember(m) + ([CLOSE] + rest), [Member(Joined(m.name), JoinedValue(m.value))], rest)
  {
    MemberReadsBack(m, [CLOSE] + rest);
    assert ([CLOSE] + rest)[1..] == rest;
  }

  lemma NextMemberReadsBack(m: Member, behind: Text, ms: seq<Member>, rest: Text)
    requires Scalar(m.value) && ReadsAs(behind, ms, rest)
    ensures ReadsAs(PrintMember(m) + ([COMMA] + behind), [Member(Joined(m.name), JoinedValue(m.value))] + ms, rest)
  {
    MemberReadsBack(m, [COMMA] + behind);
    assert ([COMMA] + behind)[1..] == behind;
  }

  lemma MembersText(ms: seq<Member>, u: Text)
    requires |ms| > 1 && Flat(ms)
    ensures PrintMembers(ms) + u == PrintMember(ms[0]) + ([COMMA] + (PrintMembers(ms[1..]) + u))
  {
    AssociateConcat(PrintMember(ms[0]) + [COMMA], PrintMembers(ms[1..]), u);
    AssociateConcat(PrintMember(ms[0]), [COMMA], PrintMembers(ms[1..]) + u);
  }

  lemma SplitMembers(ms: seq<Member>)
    requires ms != []
    ensures JoinedMembers(ms) == [Member(Joined(ms[0].name), JoinedValue(ms[0].value))] + JoinedMembers(ms[1..])
    ensures |ms| == 1 ==> JoinedMembers(ms) == [Member(Joined(ms[0].name), JoinedValue(ms[0].value))]
  {}

  /** `s` is read as members `ms` up to and including the closing brace, with `rest` behind it. */
  predicate ReadsAs(s: Text, ms: seq<Member>, rest: Text) {
    s != [] && s[0] == QUOTE && ParseMembers(s) == Got(ms, rest)
  }

  lemma {:induction false} MembersReadBack(ms: seq<Member>, rest: Text)
    requires ms != [] && Flat(ms)
    ensures ReadsAs(PrintMembers(ms) + ([CLOSE] + rest), JoinedMembers(ms), rest)
    decreases |ms|
  {
    SplitMembers(ms);
    if |ms| == 1 {
      LastMemberReadsBack(ms[0], rest);
    } else {
      MembersReadBack(ms[1..], rest);
      MembersText(ms, [CLOSE] + rest);
      NextMemberReadsBack(ms[0], PrintMembers(ms[1..]) + ([CLOSE] + rest), JoinedMembers(ms[1..]), rest);
    }
  }

  lemma {:induction false} SkipsOnlySpace(s: Text)
    ensures SkipSpace(s) == [] <==> forall i :: 0 <= i < |s| ==> IsSpace(s[i])
    decreases |s|
  {
    if s != [] && IsSpace(s[0]) {
      var r := s[1..];
      SkipsOnlySpace(r);
      assert forall i :: 0 < i < |s| ==> s[i] == r[i - 1];
      assert forall i :: 0 <= i < |r| ==> r[i] == s[i + 1];
    }
  }

  /** A document that starts with an object. */
  lemma LoadsMembers(s: Text, ms: seq<Member>, rest: Text)
    requires |s| > 1 && s[0] == OPEN && ReadsAs(s[1..], ms, rest)
    ensures LoadsObject(s) == if HasDuplicates(ms) || SkipSpace(rest) != [] then None else Some(ms)
  {
    assert SkipSpace(s) == s && SkipSpace(s[1..]) == s[1..];
  }

  lemma LoadsEmpty(s: Text)
    requires s == [OPEN, CLOSE]
    ensures LoadsObject(s) == Some([])
  {
    assert s[1..] == [CLOSE] && SkipSpace(s[1..]) == s[1..];
  }

  lemma DumpsText(ms: seq<Member>, rest: Text)
    requires Flat(ms)
    ensures var s := Dumps(ms) + rest; s[0] == OPEN && s[1..] == PrintMembers(ms) + ([CLOSE] + rest)
    ensures ms == [] ==> Dumps(ms) == [OPEN, CLOSE]
  {
    AfterFirst(OPEN, PrintMembers(ms), [CLOSE]);
    AssociateConcat([OPEN] + PrintMembers(ms), [CLOSE], rest);
    AfterFirst(OPEN, PrintMembers(ms), [CLOSE] + rest);
  }

  /** With text behind it, a dumped record is refused exactly if that is not white space, or two names agree. */
  lemma DumpsThenText(ms: seq<Member>, rest: Text)
    requires Flat(ms) && ms != []
    ensures LoadsObject(Dumps(ms) + rest) ==
              if HasDuplicates(JoinedMembers(ms)) || exists i :: 0 <= i < |rest| && !IsSpace(rest[i]) then None
              else Some(JoinedMembers(ms))
  {
    DumpsText(ms, rest);
    MembersReadBack(ms, rest);
    LoadsMembers(Dumps(ms) + rest, JoinedMembers(ms), rest);
    SkipsOnlySpace(rest);
  }

  /**
   * A dumped record reads back with split pairs joined, unless two of its names then agree: duplicate
   * members are refused.
   */
  lemma DumpsReadsBack(ms: seq<Member>)
    requires Flat(ms)
    ensures LoadsObject(Dumps(ms)) == if HasDuplicates(JoinedMembers(ms)) then None else Some(JoinedMembers(ms))
  {
    if ms == [] {
      DumpsText(ms, []);
      assert JoinedMembers(ms) == [];
      LoadsEmpty(Dumps(ms));
    } else {
      DumpsThenText(ms, []);
      assert Dumps(ms) + [] == Dumps(ms);
    }
  }

  /** No string holds a control character as it is: it must be escaped. */
  lemma {:induction false} NoRawControl(s: Text)
    requires ParseChars(s).Got?
    ensures forall i :: 0 <= i < |s| - |ParseChars(s).rest| ==> s[i] >= 0x20
    decreases |s|
  {
    if s[0] != QUOTE {
      var n := ParseChar(s).value.1;
      NoRawControl(s[n..]);
      EscapeHasNoControl(s);
      assert forall i :: n <= i < |s| ==> s[i] == s[n..][i - n];
    }
  }

  lemma EscapeHasNoControl(s: Text)
    requires ParseChar(s).Some?
    ensures forall i :: 0 <= i < ParseChar(s).value.1 ==> s[i] >= 0x20
  {
    if s[0] == BACKSLASH && s[1] == 0x75 {
      Hex4HasNoControl(s[2..]);
      if ParseChar(s).value.1 == 12 {
        Hex4HasNoControl(s[8..]);
      }
    }
  }

  lemma Hex4HasNoControl(t: Text)
    requires ParseHex4(t).Some?
    ensures forall i :: 0 <= i < 4 ==> t[i] >= 0x20
  {}

  /** No object anywhere in the document names a member twice. */
  predicate Clean(v: Value) {
    match v
    case Obj(ms) => !HasDuplicates(ms) && forall i :: 0 <= i < |ms| ==> Clean(ms[i].value)
    case Arr(items) => forall i :: 0 <= i < |items| ==> Clean(items[i])
    case _ => true
  }

  lemma {:induction false} ParsedIsClean(s: Text)
    ensures ParseValue(s).Got? ==> Clean(ParseValue(s).value)
    decreases |s|, 0
  {
    if s != [] && s[0] == OPEN {
      MembersAreClean(SkipSpace(s[1..]));
    } else if s != [] && s[0] == 0x5b {
      ItemsAreClean(SkipSpace(s[1..]));
    }
  }

  lemma {:induction false} MembersAreClean(s: Text)
    ensures ParseMembers(s).Got? ==> forall i :: 0 <= i < |ParseMembers(s).value| ==> Clean(ParseMembers(s).value[i].value)
    decreases |s|, 1
  {
    if ParseMembers(s).Got? {
      var colon := SkipSpace(ParseChars(s[1..]).rest);
      ParsedIsClean(SkipSpace(colon[1..]));
      var next := SkipSpace(ParseValue(SkipSpace(colon[1..])).rest);
      if next[0] == COMMA {
        MembersAreClean(SkipSpace(next[1..]));
      }
    }
  }

  lemma {:induction false} ItemsAreClean(s: Text)
    ensures ParseItems(s).Got? ==> forall i :: 0 <= i < |ParseItems(s).value| ==> Clean(ParseItems(s).value[i])
    decreases |s|, 1
  {
    if ParseItems(s).Got? {
      ParsedIsClean(s);
      var next := SkipSpace(ParseValue(s).rest);
      if next[0] == COMMA {
        ItemsAreClean(SkipSpace(next[1..]));
      }
    }
  }

  /** Whatever the document, an accepted one has no duplicate member at any depth. */
  lemma DuplicatesAreRefused(raw: Text)
    ensures LoadsObject(raw).Some? ==> Clean(Obj(LoadsObject(raw).value))
  {
    ParsedIsClean(SkipSpace(raw));
  }
}
