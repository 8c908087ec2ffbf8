/** The stored form of the two records: `to_json` and `from_json`. */
module Codec {
  import opened Texts
  import opened Wrappers
  import opened Validate
  import opened Records
  import opened Json
  import opened JsonProofs

  // ---------------------------------------------------------------- encoding

  const BINDING_NAMES: seq<string> := [
    "userId", "sessionIdentifier", "cookieValue", "publicKeyPem", "algorithm", "challenge", "challengeTime",
    "createdAt", "cookieIssuedAt", "previousCookieValue", "previousCookieExpiresAt", "hasRefreshed",
    "previousChallenge", "previousChallengeTime", "challengeAdvertised"]

  function BindingValues(b: Binding): seq<Value> {
    [Str(b.userId), Str(b.sessionIdentifier), Str(b.cookieValue), Str(b.publicKeyPem), Str(b.algorithm),
     Str(b.challenge), Int(b.challengeTime), Int(b.createdAt), Int(b.cookieIssuedAt), Str(b.previousCookieValue),
     Int(b.previousCookieExpiresAt), Bool(b.hasRefreshed), Str(b.previousChallenge),
     Int(b.previousChallengeTime), Bool(b.challengeAdvertised)]
  }

  const PENDING_NAMES: seq<string> := ["userId", "regChallenge", "regChallengeTime"]

  function PendingValues(p: PendingRegistration): seq<Value> {
    [Str(p.userId), Str(p.regChallenge), Int(p.regChallengeTime)]
  }

  function Named(names: seq<string>, values: seq<Value>): (ms: seq<Member>)
    requires |names| == |values|
    ensures |ms| == |names|
    ensures forall i :: 0 <= i < |ms| ==> ms[i] == Member(Ascii(names[i]), values[i])
  {
    seq(|names|, i requires 0 <= i < |names| => Member(Ascii(names[i]), values[i]))
  }

  function BindingToJson(b: Binding): Text {
    Dumps(Named(BINDING_NAMES, BindingValues(b)))
  }

  function PendingToJson(p: PendingRegistration): Text {
    Dumps(Named(PENDING_NAMES, PendingValues(p)))
  }

  // ---------------------------------------------------------------- decoding

  function Get(ms: seq<Member>, name: Text): Option<Value> {
    if ms == [] then None
    else if ms[0].name == name then Some(ms[0].value)
    else Get(ms[1..], name)
  }

  function AsStr(v: Option<Value>): Option<Text> {
    if v.Some? && v.value.Str? then Some(v.value.s) else None
  }

  function AsInt(v: Option<Value>): Option<int> {
    if v.Some? && v.value.Int? then Some(v.value.n) else None
  }

  function Or<T>(v: Option<T>, default: T): T {
    if v.Some? then v.value else default
  }

  function Field(data: seq<Member>, name: string): Option<Value> {
    Get(data, Ascii(name))
  }

  /** `None` is CorruptStateError: a required field missing or mistyped, or a value unsafe to emit. */
  function BindingOf(data: seq<Member>): Option<Binding> {
    var userId := AsStr(Field(data, "userId"));
    var sessionIdentifier := AsStr(Field(data, "sessionIdentifier"));
    var cookieValue := AsStr(Field(data, "cookieValue"));
    var publicKeyPem := AsStr(Field(data, "publicKeyPem"));
    var algorithm := AsStr(Field(data, "algorithm"));
    var challenge := AsStr(Field(data, "challenge"));
    var challengeTime := AsInt(Field(data, "challengeTime"));
    var createdAt := AsInt(Field(data, "createdAt"));
    if userId.None? || sessionIdentifier.None? || cookieValue.None? || publicKeyPem.None?
       || algorithm.None? || challenge.None? || challengeTime.None? || createdAt.None? then None else
    var b := Binding(
      userId.value, sessionIdentifier.value, cookieValue.value, publicKeyPem.value, algorithm.value,
      challenge.value, challengeTime.value, createdAt.value,
      Or(AsInt(Field(data, "cookieIssuedAt")), createdAt.value),
      Or(AsStr(Field(data, "previousCookieValue")), []),
      Or(AsInt(Field(data, "previousCookieExpiresAt")), 0),
      Field(data, "hasRefreshed") == Some(Bool(true)),
      Or(AsStr(Field(data, "previousChallenge")), []),
      Or(AsInt(Field(data, "previousChallengeTime")), 0),
      Field(data, "challengeAdvertised") == Some(Bool(true)));
    if b.Valid() then Some(b) else None
  }

  function BindingFromJson(raw: Text): Option<Binding> {
    var data := LoadsObject(raw);
    if data.None? then None else BindingOf(data.value)
  }

  function PendingFromJson(raw: Text): Option<PendingRegistration> {
    var data := LoadsObject(raw);
    if data.None? then None else
    var userId := AsStr(Field(data.value, "userId"));
    var regChallenge := AsStr(Field(data.value, "regChallenge"));
    var regChallengeTime := AsInt(Field(data.value, "regChallengeTime"));
    if userId.None? || regChallenge.None? || regChallengeTime.None? then None else
    var p := PendingRegistration(userId.value, regChallenge.value, regChallengeTime.value);
    if p.Valid() then Some(p) else None
  }

  // ---------------------------------------------------------------- round trips

  lemma AsciiIsInjective(a: string, b: string)
    requires a != b
    ensures Ascii(a) != Ascii(b)
  {
    if |a| == |b| {
      var i :| 0 <= i < |a| && a[i] != b[i];
      assert Ascii(a)[i] != Ascii(b)[i];
    }
  }

  lemma AsciiIsPlain(a: string)
    ensures Joined(Ascii(a)) == Ascii(a)
  {
    JoinedIsShorter(Ascii(a));
  }

  lemma SafeIsPlain(t: Text)
    requires IsSfStringSafe(t) || IsCookieValue(t)
    ensures Joined(t) == t
  {
    JoinedIsShorter(t);
  }

  predicate Distinct(names: seq<string>) {
    forall i, j :: 0 <= i < j < |names| ==> names[i] != names[j]
  }

  lemma {:induction false} GetFindsIt(ms: seq<Member>, i: nat)
    requires !HasDuplicates(ms) && i < |ms|
    ensures Get(ms, ms[i].name) == Some(ms[i].value)
    decreases |ms|
  {
    if i > 0 {
      var r := ms[1..];
      assert ms[0].name != ms[i].name;
      assert forall k, l :: 0 <= k < l < |r| ==> r[k].name == ms[k + 1].name && r[l].name == ms[l + 1].name;
      GetFindsIt(r, i - 1);
    }
  }

  /** What a dumped record reads back as, name by name. */
  lemma RecordReadsBack(names: seq<string>, values: seq<Value>)
    requires |names| == |values| && Distinct(names)
    requires forall i :: 0 <= i < |values| ==> Scalar(values[i])
    ensures var data := LoadsObject(Dumps(Named(names, values)));
            && data.Some?
            && forall i :: 0 <= i < |names| ==> Field(data.value, names[i]) == Some(JoinedValue(values[i]))
  {
    var ms := Named(names, values);
    var js := JoinedMembers(ms);
    forall i | 0 <= i < |names|
      ensures js[i].name == Ascii(names[i])
    {
      AsciiIsPlain(names[i]);
    }
    forall i, j | 0 <= i < j < |js|
      ensures js[i].name != js[j].name
    {
      AsciiIsInjective(names[i], names[j]);
    }
    DumpsReadsBack(ms);
    forall i | 0 <= i < |names|
      ensures Field(js, names[i]) == Some(JoinedValue(values[i]))
    {
      GetFindsIt(js, i);
    }
  }

  /** Length and second letter tell the names apart. */
  function Signature(name: string): int {
    if |name| < 2 then 0 else |name| * 0x110000 + name[1] as int
  }

  lemma BindingNamesDistinct()
    ensures Distinct(BINDING_NAMES)
  {
    var n := BINDING_NAMES;
    var u := 0x110000;
    assert Signature(n[0]) == 6 * u + 's' as int && Signature(n[1]) == 17 * u + 'e' as int;
    assert Signature(n[2]) == 11 * u + 'o' as int && Signature(n[3]) == 12 * u + 'u' as int;
    assert Signature(n[4]) == 9 * u + 'l' as int && Signature(n[5]) == 9 * u + 'h' as int;
    assert Signature(n[6]) == 13 * u + 'h' as int && Signature(n[7]) == 9 * u + 'r' as int;
    assert Signature(n[8]) == 14 * u + 'o' as int && Signature(n[9]) == 19 * u + 'r' as int;
    assert Signature(n[10]) == 23 * u + 'r' as int && Signature(n[11]) == 12 * u + 'a' as int;
    assert Signature(n[12]) == 17 * u + 'r' as int && Signature(n[13]) == 21 * u + 'r' as int;
    assert Signature(n[14]) == 19 * u + 'h' as int;
  }

  lemma PendingNamesDistinct()
    ensures Distinct(PENDING_NAMES)
  {}

  /** The record as it reads back: only fields that no character set restricts can change. */
  function JoinedBinding(b: Binding): Binding {
    b.(userId := Joined(b.userId), publicKeyPem := Joined(b.publicKeyPem), algorithm := Joined(b.algorithm))
  }

  function JoinedPending(p: PendingRegistration): PendingRegistration {
    p.(userId := Joined(p.userId))
  }

  /** Decoding inverts a record whose fields are all there. */
  lemma BindingOfItsFields(data: seq<Member>, b: Binding)
    requires b.Valid()
    requires Field(data, "userId") == Some(Str(b.userId)) && Field(data, "cookieValue") == Some(Str(b.cookieValue))
    requires Field(data, "sessionIdentifier") == Some(Str(b.sessionIdentifier))
    requires Field(data, "publicKeyPem") == Some(Str(b.publicKeyPem)) && Field(data, "algorithm") == Some(Str(b.algorithm))
    requires Field(data, "challenge") == Some(Str(b.challenge)) && Field(data, "challengeTime") == Some(Int(b.challengeTime))
    requires Field(data, "createdAt") == Some(Int(b.createdAt)) && Field(data, "cookieIssuedAt") == Some(Int(b.cookieIssuedAt))
    requires Field(data, "previousCookieValue") == Some(Str(b.previousCookieValue))
    requires Field(data, "previousCookieExpiresAt") == Some(Int(b.previousCookieExpiresAt))
    requires Field(data, "hasRefreshed") == Some(Bool(b.hasRefreshed))
    requires Field(data, "previousChallenge") == Some(Str(b.previousChallenge))
    requires Field(data, "previousChallengeTime") == Some(Int(b.previousChallengeTime))
    requires Field(data, "challengeAdvertised") == Some(Bool(b.challengeAdvertised))
    ensures BindingOf(data) == Some(b)
  {}

  lemma BindingOfNamedFields(data: seq<Member>, b: Binding)
    requires b.Valid()
    requires var n, v := BINDING_NAMES, BindingValues(b);
             forall i :: 0 <= i < |n| ==> Field(data, n[i]) == Some(JoinedValue(v[i]))
    ensures BindingOf(data) == Some(JoinedBinding(b))
  {
    var n, v := BINDING_NAMES, BindingValues(b);
    SafeIsPlain(b.sessionIdentifier);
    SafeIsPlain(b.challenge);
    SafeIsPlain(b.previousChallenge);
    SafeIsPlain(b.cookieValue);
    SafeIsPlain(b.previousCookieValue);
    assert Field(data, n[0]) == Some(JoinedValue(v[0])) && Field(data, n[1]) == Some(JoinedValue(v[1]));
    assert Field(data, n[2]) == Some(JoinedValue(v[2])) && Field(data, n[3]) == Some(JoinedValue(v[3]));
    assert Field(data, n[4]) == Some(JoinedValue(v[4])) && Field(data, n[5]) == Some(JoinedValue(v[5]));
    assert Field(data, n[6]) == Some(JoinedValue(v[6])) && Field(data, n[7]) == Some(JoinedValue(v[7]));
    assert Field(data, n[8]) == Some(JoinedValue(v[8])) && Field(data, n[9]) == Some(JoinedValue(v[9]));
    assert Field(data, n[10]) == Some(JoinedValue(v[10])) && Field(data, n[11]) == Some(JoinedValue(v[11]));
    assert Field(data, n[12]) == Some(JoinedValue(v[12])) && Field(data, n[13]) == Some(JoinedValue(v[13]));
    assert Field(data, n[14]) == Some(JoinedValue(v[14]));
    BindingOfItsFields(data, JoinedBinding(b));
  }

  /** A valid binding reads back with split surrogate pairs joined ... */
  lemma BindingReadsBack(b: Binding)
    requires b.Valid()
    ensures BindingFromJson(BindingToJson(b)) == Some(JoinedBinding(b))
  {
    BindingNamesDistinct();
    RecordReadsBack(BINDING_NAMES, BindingValues(b));
    BindingOfNamedFields(LoadsObject(BindingToJson(b)).value, b);
  }

  /** ... so `from_json` undoes `to_json` exactly when the free-form fields hold no split pair. */
  lemma BindingRoundTrip(b: Binding)
    requires b.Valid()
    ensures BindingFromJson(BindingToJson(b)) == Some(b) <==>
            !HasSplitPair(b.userId) && !HasSplitPair(b.publicKeyPem) && !HasSplitPair(b.algorithm)
  {
    BindingReadsBack(b);
    JoinedIsShorter(b.userId);
    JoinedIsShorter(b.publicKeyPem);
    JoinedIsShorter(b.algorithm);
  }

  lemma PendingReadsBack(p: PendingRegistration)
    requires p.Valid()
    ensures PendingFromJson(PendingToJson(p)) == Some(JoinedPending(p))
  {
    PendingNamesDistinct();
    var n, v := PENDING_NAMES, PendingValues(p);
    RecordReadsBack(n, v);
    SafeIsPlain(p.regChallenge);
    var data := LoadsObject(PendingToJson(p)).value;
    assert Field(data, n[0]) == Some(JoinedValue(v[0])) && Field(data, n[1]) == Some(JoinedValue(v[1]));
    assert Field(data, n[2]) == Some(JoinedValue(v[2]));
  }

  lemma PendingRoundTrip(p: PendingRegistration)
    requires p.Valid()
    ensures PendingFromJson(PendingToJson(p)) == Some(p) <==> !HasSplitPair(p.userId)
  {
    PendingReadsBack(p);
    JoinedIsShorter(p.userId);
  }

  // ---------------------------------------------------------------- what is accepted

  /** The document has a member of this name with this value. */
  predicate Holds(data: seq<Member>, name: string, v: Value) {
    exists i :: 0 <= i < |data| && data[i] == Member(Ascii(name), v)
  }

  predicate HasStr(data: seq<Member>, name: string) {
    exists i :: 0 <= i < |data| && data[i].name == Ascii(name) && data[i].value.Str?
  }

  predicate HasInt(data: seq<Member>, name: string) {
    exists i :: 0 <= i < |data| && data[i].name == Ascii(name) && data[i].value.Int?
  }

  /** Visible ASCII without '"' and '\\', and in a cookie without ',' and ';'. */
  predicate Printable(t: Text, inCookie: bool) {
    forall k :: 0 <= k < |t| ==>
      0x21 <= t[k] <= 0x7e && t[k] != 0x22 && t[k] != 0x5c && (inCookie ==> t[k] != 0x2c && t[k] != 0x3b)
  }

  /** The member is a string that must not be printed into a header, or into a cookie. */
  predicate Unsafe(data: seq<Member>, name: string, inCookie: bool) {
    exists i :: 0 <= i < |data| && data[i].name == Ascii(name) && data[i].value.Str? && !Printable(data[i].value.s, inCookie)
  }

  /** Which objects are a stored binding. */
  predicate IsBindingRecord(data: seq<Member>) {
    && HasStr(data, "userId") && HasStr(data, "sessionIdentifier") && HasStr(data, "cookieValue")
    && HasStr(data, "publicKeyPem") && HasStr(data, "algorithm") && HasStr(data, "challenge")
    && HasInt(data, "challengeTime") && HasInt(data, "createdAt")
    && !Unsafe(data, "sessionIdentifier", false) && !Unsafe(data, "challenge", false)
    && !Unsafe(data, "previousChallenge", false)
    && !Unsafe(data, "cookieValue", true) && !Unsafe(data, "previousCookieValue", true)
  }

  /** An optional member: its value, or the default if it is absent or mistyped. */
  predicate IntOr(data: seq<Member>, name: string, n: int, default: int) {
    if HasInt(data, name) then Holds(data, name, Int(n)) else n == default
  }

  predicate StrOr(data: seq<Member>, name: string, t: Text, default: Text) {
    if HasStr(data, name) then Holds(data, name, Str(t)) else t == default
  }

  /** The binding is what the members say, with the defaults of an older record. */
  predicate ReadsRequired(data: seq<Member>, b: Binding) {
    && Holds(data, "userId", Str(b.userId)) && Holds(data, "sessionIdentifier", Str(b.sessionIdentifier))
    && Holds(data, "cookieValue", Str(b.cookieValue)) && Holds(data, "publicKeyPem", Str(b.publicKeyPem))
    && Holds(data, "algorithm", Str(b.algorithm)) && Holds(data, "challenge", Str(b.challenge))
    && Holds(data, "challengeTime", Int(b.challengeTime)) && Holds(data, "createdAt", Int(b.createdAt))
  }

  predicate ReadsOptional(data: seq<Member>, b: Binding) {
    && IntOr(data, "cookieIssuedAt", b.cookieIssuedAt, b.createdAt)
    && StrOr(data, "previousCookieValue", b.previousCookieValue, [])
    && IntOr(data, "previousCookieExpiresAt", b.previousCookieExpiresAt, 0)
    && (b.hasRefreshed <==> Holds(data, "hasRefreshed", Bool(true)))
    && StrOr(data, "previousChallenge", b.previousChallenge, [])
    && IntOr(data, "previousChallengeTime", b.previousChallengeTime, 0)
    && (b.challengeAdvertised <==> Holds(data, "challengeAdvertised", Bool(true)))
  }

  lemma {:induction false} GetFindsOnly(ms: seq<Member>, name: Text)
    requires !HasDuplicates(ms)
    ensures Get(ms, name).None? <==> forall i :: 0 <= i < |ms| ==> ms[i].name != name
    ensures forall i :: 0 <= i < |ms| && ms[i].name == name ==> Get(ms, name) == Some(ms[i].value)
    decreases |ms|
  {
    if ms != [] {
      var r := ms[1..];
      assert forall k :: 0 <= k < |r| ==> r[k] == ms[k + 1];
      assert !HasDuplicates(r);
      GetFindsOnly(r, name);
      assert forall i :: 0 < i < |ms| ==> ms[i] == r[i - 1];
    }
  }

  lemma PrintableIsSafe(t: Text)
    ensures Printable(t, false) <==> IsSfStringSafe(t)
    ensures Printable(t, true) <==> IsCookieValue(t)
  {}

  /** A string member: what it holds, and whether it may be printed. */
  lemma StrIsMember(data: seq<Member>, name: string)
    requires !HasDuplicates(data)
    ensures var t := AsStr(Field(data, name));
            && (t.Some? <==> HasStr(data, name))
            && (t.Some? ==> Holds(data, name, Str(t.value)))
            && (Unsafe(data, name, false) <==> t.Some? && !IsSfStringSafe(t.value))
            && (Unsafe(data, name, true) <==> t.Some? && !IsCookieValue(t.value))
  {
    GetFindsOnly(data, Ascii(name));
    var field := Field(data, name);
    if field.Some? {
      var i :| 0 <= i < |data| && data[i].name == Ascii(name);
      assert data[i] == Member(Ascii(name), field.value);
      if field.value.Str? {
        PrintableIsSafe(field.value.s);
      }
    }
  }

  lemma IntIsMember(data: seq<Member>, name: string)
    requires !HasDuplicates(data)
    ensures var n := AsInt(Field(data, name)); (n.Some? <==> HasInt(data, name)) && (n.Some? ==> Holds(data, name, Int(n.value)))
  {
    GetFindsOnly(data, Ascii(name));
    var field := Field(data, name);
    if field.Some? {
      var i :| 0 <= i < |data| && data[i].name == Ascii(name);
      assert data[i] == Member(Ascii(name), field.value);
    }
  }

  lemma FlagIsMember(data: seq<Member>, name: string)
    requires !HasDuplicates(data)
    ensures Field(data, name) == Some(Bool(true)) <==> Holds(data, name, Bool(true))
  {
    GetFindsOnly(data, Ascii(name));
    var field := Field(data, name);
    if field.Some? {
      var i :| 0 <= i < |data| && data[i].name == Ascii(name);
      assert data[i] == Member(Ascii(name), field.value);
    }
  }

  lemma RequiredMembers(data: seq<Member>)
    requires !HasDuplicates(data)
    ensures BindingOf(data).Some? ==> ReadsRequired(data, BindingOf(data).value)
  {
    StrIsMember(data, "userId");
    StrIsMember(data, "sessionIdentifier");
    StrIsMember(data, "cookieValue");
    StrIsMember(data, "publicKeyPem");
    StrIsMember(data, "algorithm");
    StrIsMember(data, "challenge");
    IntIsMember(data, "challengeTime");
    IntIsMember(data, "createdAt");
  }

  lemma OptionalMembers(data: seq<Member>)
    requires !HasDuplicates(data)
    ensures BindingOf(data).Some? ==> ReadsOptional(data, BindingOf(data).value)
  {
    IntIsMember(data, "cookieIssuedAt");
    StrIsMember(data, "previousCookieValue");
    IntIsMember(data, "previousCookieExpiresAt");
    FlagIsMember(data, "hasRefreshed");
    StrIsMember(data, "previousChallenge");
    IntIsMember(data, "previousChallengeTime");
    FlagIsMember(data, "challengeAdvertised");
  }

  lemma AcceptedMembers(data: seq<Member>)
    requires !HasDuplicates(data)
    ensures BindingOf(data).Some? <==> IsBindingRecord(data)
  {
    StrIsMember(data, "userId");
    StrIsMember(data, "sessionIdentifier");
    StrIsMember(data, "cookieValue");
    StrIsMember(data, "publicKeyPem");
    StrIsMember(data, "algorithm");
    StrIsMember(data, "challenge");
    IntIsMember(data, "challengeTime");
    IntIsMember(data, "createdAt");
    StrIsMember(data, "previousCookieValue");
    StrIsMember(data, "previousChallenge");
  }

  /** A parsed document names no member twice. */
  lemma LoadedIsUnique(raw: Text)
    requires LoadsObject(raw).Some?
    ensures !HasDuplicates(LoadsObject(raw).value)
  {
    DuplicatesAreRefused(raw);
  }

  /**
   * For every text: it decodes exactly if it is one object with all required members of their types and
   * with nothing unsafe to print, and then it decodes to what the members say.
   */
  lemma BindingDecodesExactly(raw: Text)
    ensures BindingFromJson(raw).Some? <==> LoadsObject(raw).Some? && IsBindingRecord(LoadsObject(raw).value)
    ensures BindingFromJson(raw).Some? ==>
              && BindingFromJson(raw).value.Valid()
              && ReadsRequired(LoadsObject(raw).value, BindingFromJson(raw).value)
              && ReadsOptional(LoadsObject(raw).value, BindingFromJson(raw).value)
  {
    if LoadsObject(raw).Some? {
      LoadedIsUnique(raw);
      RequiredMembers(LoadsObject(raw).value);
      OptionalMembers(LoadsObject(raw).value);
      AcceptedMembers(LoadsObject(raw).value);
    }
  }

  predicate IsPendingRecord(data: seq<Member>) {
    && HasStr(data, "userId") && HasStr(data, "regChallenge") && HasInt(data, "regChallengeTime")
    && !Unsafe(data, "regChallenge", false)
  }

  lemma PendingDecodesExactly(raw: Text)
    ensures PendingFromJson(raw).Some? <==> LoadsObject(raw).Some? && IsPendingRecord(LoadsObject(raw).value)
    ensures PendingFromJson(raw).Some? ==>
              var data, p := LoadsObject(raw).value, PendingFromJson(raw).value;
              && p.Valid()
              && Holds(data, "userId", Str(p.userId)) && Holds(data, "regChallenge", Str(p.regChallenge))
              && Holds(data, "regChallengeTime", Int(p.regChallengeTime))
  {
    if LoadsObject(raw).Some? {
      var data := LoadsObject(raw).value;
      LoadedIsUnique(raw);
      StrIsMember(data, "userId");
      StrIsMember(data, "regChallenge");
      IntIsMember(data, "regChallengeTime");
    }
  }

  /** A user id written as the two surrogates of one emoji does not survive. */
  lemma SplitPairIsLost()
    ensures var p := PendingRegistration([0xD83D, 0xDE00], [], 0);
            PendingFromJson(PendingToJson(p)) == Some(PendingRegistration([0x1F600], [], 0))
  {
    var p := PendingRegistration([0xD83D, 0xDE00], [], 0);
    PendingReadsBack(p);
    assert p.userId[2..] == [] && Joined(p.userId) == [0x1F600];
  }
}
