/** Stored-record JSON: what src/dbsc/_json.py writes and what it accepts. */
module Json {
  import opened Texts
  import opened Wrappers

  /** A decoded document; floats matter only in not being integers. */
  datatype Value =
    | Null
    | Bool(b: bool)
    | Int(n: int)
    | Float
    | Str(s: Text)
    | Arr(items: seq<Value>)
    | Obj(members: seq<Member>)

  datatype Member = Member(name: Text, value: Value)

  datatype Parsed<+T> = Fail | Got(value: T, rest: Text)

  /** Text from a literal. */
  function Ascii(s: string): (t: Text)
    ensures |t| == |s|
    ensures forall i :: 0 <= i < |s| ==> t[i] == s[i] as int
  {
    seq(|s|, i requires 0 <= i < |s| => s[i] as int)
  }

  const QUOTE: CodePoint := 0x22
  const BACKSLASH: CodePoint := 0x5c
  const COMMA: CodePoint := 0x2c
  const COLON: CodePoint := 0x3a
  const MINUS: CodePoint := 0x2d
  const OPEN: CodePoint := 0x7b
  const CLOSE: CodePoint := 0x7d

  // ---------------------------------------------------------------- hexadecimal and surrogates

  predicate High(c: CodePoint) {
    0xD800 <= c <= 0xDBFF
  }

  predicate Low(c: CodePoint) {
    0xDC00 <= c <= 0xDFFF
  }

  function Pair(high: CodePoint, low: CodePoint): CodePoint
    requires High(high) && Low(low)
  {
    0x10000 + (high - 0xD800) * 0x400 + (low - 0xDC00)
  }

  function HighHalf(c: CodePoint): (h: CodePoint)
    requires c >= 0x10000
    ensures High(h)
  {
    0xD800 + (c - 0x10000) / 0x400
  }

  function LowHalf(c: CodePoint): (l: CodePoint)
    requires c >= 0x10000
    ensures Low(l)
  {
    0xDC00 + (c - 0x10000) % 0x400
  }

  function HexDigit(n: nat): CodePoint
    requires n < 16
  {
    if n < 10 then 0x30 + n else 0x61 + n - 10
  }

  function HexValue(c: CodePoint): Option<nat> {
    if 0x30 <= c <= 0x39 then Some(c - 0x30)
    else if 0x61 <= c <= 0x66 then Some(c - 0x61 + 10)
    else if 0x41 <= c <= 0x46 then Some(c - 0x41 + 10)
    else None
  }

  function Hex4(n: nat): (t: Text)
    requires n < 0x10000
    ensures |t| == 4
  {
    [HexDigit(n / 0x1000), HexDigit(n / 0x100 % 16), HexDigit(n / 0x10 % 16), HexDigit(n % 16)]
  }

  /** Four hexadecimal digits of either case. */
  function ParseHex4(t: Text): (r: Option<nat>)
    ensures r.Some? ==> r.value < 0x10000 && |t| >= 4
  {
    if |t| < 4 then None else
    match (HexValue(t[0]), HexValue(t[1]), HexValue(t[2]), HexValue(t[3]))
    case (Some(a), Some(b), Some(c), Some(d)) =>
      if a < 16 && b < 16 && c < 16 && d < 16 then Some(a * 0x1000 + b * 0x100 + c * 0x10 + d) else None
    case _ => None
  }

  // ---------------------------------------------------------------- strings

  function UnicodeEscape(c: CodePoint): (t: Text)
    requires c < 0x10000
    ensures |t| == 6
  {
    [BACKSLASH, 0x75] + Hex4(c)
  }

  function Escape(c: CodePoint): Text {
    if c == QUOTE || c == BACKSLASH then [BACKSLASH, c]
    else if c == 0x0a then [BACKSLASH, 0x6e]
    else if c == 0x0d then [BACKSLASH, 0x72]
    else if c == 0x09 then [BACKSLASH, 0x74]
    else if c == 0x0c then [BACKSLASH, 0x66]
    else if c == 0x08 then [BACKSLASH, 0x62]
    else if 0x20 <= c <= 0x7e then [c]
    else if c < 0x10000 then UnicodeEscape(c)
    else UnicodeEscape(HighHalf(c)) + UnicodeEscape(LowHalf(c))
  }

  function EscapeAll(t: Text): Text {
    if t == [] then [] else Escape(t[0]) + EscapeAll(t[1..])
  }

  function PrintString(t: Text): Text {
    [QUOTE] + EscapeAll(t) + [QUOTE]
  }

  function ShortEscape(c: CodePoint): Option<CodePoint> {
    if c == QUOTE || c == BACKSLASH || c == 0x2f then Some(c)
    else if c == 0x62 then Some(0x08)
    else if c == 0x66 then Some(0x0c)
    else if c == 0x6e then Some(0x0a)
    else if c == 0x72 then Some(0x0d)
    else if c == 0x74 then Some(0x09)
    else None
  }

  /** One character of a string body, with how many code points of the document it takes. */
  function ParseChar(s: Text): (r: Option<(CodePoint, nat)>)
    ensures r.Some? ==> 0 < r.value.1 <= |s|
  {
    if s == [] || s[0] == QUOTE || s[0] < 0x20 then None
    else if s[0] != BACKSLASH then Some((s[0], 1))
    else if |s| < 2 then None
    else if s[1] != 0x75 then
      match ShortEscape(s[1])
      case None => None
      case Some(c) => Some((c, 2))
    else match ParseHex4(s[2..])
      case None => None
      case Some(c) =>
        if High(c) && |s| >= 8 && s[6] == BACKSLASH && s[7] == 0x75 then
          match ParseHex4(s[8..])
          case None => None
          case Some(d) => if Low(d) then Some((Pair(c, d), 12)) else Some((c, 6))
        else Some((c, 6))
  }

  /** A string body up to and including its closing quote. */
  function ParseChars(s: Text): (r: Parsed<Text>)
    ensures r.Got? ==> |r.rest| < |s|
    decreases |s|
  {
    if s != [] && s[0] == QUOTE then Got([], s[1..]) else
    match ParseChar(s)
    case None => Fail
    case Some((c, n)) =>
      match ParseChars(s[n..])
      case Fail => Fail
      case Got(tail, rest) => Got([c] + tail, rest)
  }

  // ---------------------------------------------------------------- numbers

  predicate IsDigit(c: CodePoint) {
    0x30 <= c <= 0x39
  }

  predicate StartsWithDigit(s: Text) {
    s != [] && IsDigit(s[0])
  }

  function PrintNat(n: nat): (t: Text)
    ensures t != [] && IsDigit(t[0]) && (t[0] == 0x30 ==> n == 0 && t == [0x30])
    decreases n
  {
    if n < 10 then [0x30 + n] else PrintNat(n / 10) + [0x30 + n % 10]
  }

  function PrintInt(n: int): Text {
    if n < 0 then [MINUS] + PrintNat(-n) else PrintNat(n)
  }

  /** All leading digits, added to the value read so far. */
  function ParseDigits(s: Text, value: nat): (r: (nat, Text))
    ensures |r.1| <= |s| && (StartsWithDigit(s) ==> |r.1| < |s|)
    decreases |s|
  {
    if StartsWithDigit(s) then ParseDigits(s[1..], value * 10 + (s[0] - 0x30)) else (value, s)
  }

  /** A leading zero stands alone. */
  function ParseNat(s: Text): (r: Parsed<nat>)
    ensures r.Got? ==> |r.rest| < |s|
  {
    if !StartsWithDigit(s) then Fail
    else if s[0] == 0x30 then Got(0, s[1..])
    else var (n, rest) := ParseDigits(s, 0); Got(n, rest)
  }

  /** What is left after a fraction, or the input when there is none. */
  function SkipFraction(s: Text): (rest: Text)
    ensures |rest| <= |s|
  {
    if |s| >= 2 && s[0] == 0x2e && IsDigit(s[1]) then ParseDigits(s[1..], 0).1 else s
  }

  function SkipExponent(s: Text): (rest: Text)
    ensures |rest| <= |s|
  {
    if |s| >= 2 && (s[0] == 0x65 || s[0] == 0x45) && IsDigit(s[1]) then ParseDigits(s[1..], 0).1
    else if |s| >= 3 && (s[0] == 0x65 || s[0] == 0x45) && (s[1] == 0x2b || s[1] == MINUS) && IsDigit(s[2])
    then ParseDigits(s[2..], 0).1
    else s
  }

  function ParseNumber(s: Text): (r: Parsed<Value>)
    ensures r.Got? ==> |r.rest| < |s|
  {
    var negative := s != [] && s[0] == MINUS;
    match ParseNat(if negative then s[1..] else s)
    case Fail => Fail
    case Got(n, rest) =>
      var end := SkipExponent(SkipFraction(rest));
      if |end| < |rest| then Got(Float, end) else Got(Int(if negative then 0 - n else n), rest)
  }

  // ---------------------------------------------------------------- documents

  predicate IsSpace(c: CodePoint) {
    c == 0x20 || c == 0x09 || c == 0x0a || c == 0x0d
  }

  function SkipSpace(s: Text): (rest: Text)
    ensures |rest| <= |s|
    decreases |s|
  {
    if s != [] && IsSpace(s[0]) then SkipSpace(s[1..]) else s
  }

  function Keyword(s: Text): (r: Parsed<Value>)
    ensures r.Got? ==> |r.rest| < |s|
  {
    if Ascii("null") <= s then Got(Null, s[4..])
    else if Ascii("true") <= s then Got(Bool(true), s[4..])
    else if Ascii("false") <= s then Got(Bool(false), s[5..])
    else if Ascii("NaN") <= s then Got(Float, s[3..])
    else if Ascii("Infinity") <= s then Got(Float, s[8..])
    else if Ascii("-Infinity") <= s then Got(Float, s[9..])
    else Fail
  }

  predicate HasDuplicates(ms: seq<Member>) {
    exists i, j :: 0 <= i < j < |ms| && ms[i].name == ms[j].name
  }

  function ParseValue(s: Text): (r: Parsed<Value>)
    ensures r.Got? ==> |r.rest| < |s|
    decreases |s|, 0
  {
    if s == [] then Fail
    else if s[0] == QUOTE then
      match ParseChars(s[1..])
      case Fail => Fail
      case Got(t, rest) => Got(Str(t), rest)
    else if s[0] == OPEN then
      var body := SkipSpace(s[1..]);
      if body != [] && body[0] == CLOSE then Got(Obj([]), body[1..]) else
      match ParseMembers(body)
      case Fail => Fail
      case Got(ms, rest) => if HasDuplicates(ms) then Fail else Got(Obj(ms), rest)
    else if s[0] == 0x5b then
      var body := SkipSpace(s[1..]);
      if body != [] && body[0] == 0x5d then Got(Arr([]), body[1..]) else
      match ParseItems(body)
      case Fail => Fail
      case Got(items, rest) => Got(Arr(items), rest)
    else if s[0] == MINUS || IsDigit(s[0]) then
      match ParseNumber(s)
      case Fail => Keyword(s)
      case Got(v, rest) => Got(v, rest)
    else Keyword(s)
  }

  /** One or more members and the closing brace; a comma promises another member. */
  function ParseMembers(s: Text): (r: Parsed<seq<Member>>)
    ensures r.Got? ==> |r.rest| < |s|
    decreases |s|, 1
  {
    if s == [] || s[0] != QUOTE then Fail else
    match ParseChars(s[1..])
    case Fail => Fail
    case Got(name, afterName) =>
      var colon := SkipSpace(afterName);
      if colon == [] || colon[0] != COLON then Fail else
      match ParseValue(SkipSpace(colon[1..]))
      case Fail => Fail
      case Got(v, afterValue) =>
        var next := SkipSpace(afterValue);
        if next == [] then Fail
        else if next[0] == CLOSE then Got([Member(name, v)], next[1..])
        else if next[0] != COMMA then Fail
        else match ParseMembers(SkipSpace(next[1..]))
          case Fail => Fail
          case Got(ms, rest) => Got([Member(name, v)] + ms, rest)
  }

  function ParseItems(s: Text): (r: Parsed<seq<Value>>)
    ensures r.Got? ==> |r.rest| < |s|
    decreases |s|, 1
  {
    match ParseValue(s)
    case Fail => Fail
    case Got(v, afterValue) =>
      var next := SkipSpace(afterValue);
      if next == [] then Fail
      else if next[0] == 0x5d then Got([v], next[1..])
      else if next[0] != COMMA then Fail
      else match ParseItems(SkipSpace(next[1..]))
        case Fail => Fail
        case Got(items, rest) => Got([v] + items, rest)
  }

  /** `loads_object`: the members of the one object the document holds, or `None`. */
  function LoadsObject(raw: Text): Option<seq<Member>> {
    match ParseValue(SkipSpace(raw))
    case Got(Obj(ms), rest) => if SkipSpace(rest) == [] then Some(ms) else None
    case _ => None
  }

  // ---------------------------------------------------------------- printing records

  /** The values a stored record holds. */
  predicate Scalar(v: Value) {
    v.Str? || v.Int? || v.Bool?
  }

  function PrintScalar(v: Value): Text
    requires Scalar(v)
  {
    match v
    case Str(t) => PrintString(t)
    case Int(n) => PrintInt(n)
    case Bool(b) => Ascii(if b then "true" else "false")
  }

  predicate Flat(ms: seq<Member>) {
    forall i :: 0 <= i < |ms| ==> Scalar(ms[i].value)
  }

  function PrintMembers(ms: seq<Member>): Text
    requires Flat(ms)
  {
    if ms == [] then []
    else
      var first := PrintString(ms[0].name) + [COLON] + PrintScalar(ms[0].value);
      if |ms| == 1 then first else first + [COMMA] + PrintMembers(ms[1..])
  }

  /** `dumps` of a flat dict. */
  function Dumps(ms: seq<Member>): Text
    requires Flat(ms)
  {
    [OPEN] + PrintMembers(ms) + [CLOSE]
  }
}
