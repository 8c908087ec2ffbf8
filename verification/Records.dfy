/** Strings as Python sees them, and the two records DBSC stores. */
module Texts {
  /** A Python `str` is a sequence of code points, lone surrogates included. */
  type CodePoint = c: int | 0 <= c <= 0x10FFFF

  type Text = seq<CodePoint>

  /** A text that is not "". */
  type Name = t: Text | t != [] witness [0]
}

module Wrappers {
  datatype Option<+T> = None | Some(value: T)

  datatype Result<+T, +E> = Ok(value: T) | Err(error: E)
}

/** The character sets of src/dbsc/_validate.py that headers, cookies and stored records keep to. */
module Validate {
  import opened Texts

  /** Visible ASCII except '"' and '\\'. */
  predicate SfChar(c: CodePoint) {
    c == 0x21 || 0x23 <= c <= 0x5b || 0x5d <= c <= 0x7e
  }

  predicate IsSfStringSafe(t: Text) {
    forall i :: 0 <= i < |t| ==> SfChar(t[i])
  }

  /** Visible ASCII except '"', ',', ';' and '\\'. */
  predicate CookieOctet(c: CodePoint) {
    SfChar(c) && c != 0x2c && c != 0x3b
  }

  predicate IsCookieValue(t: Text) {
    forall i :: 0 <= i < |t| ==> CookieOctet(t[i])
  }

  predicate PathChar(c: CodePoint) {
    || 0x61 <= c <= 0x7a || 0x41 <= c <= 0x5a || 0x2d <= c <= 0x3b || c == 0x3d || c == 0x40 || c == 0x5f
    || c == 0x7e || c == 0x21 || 0x24 <= c <= 0x2c
  }

  /** An absolute path of URL path characters that does not start with "//". */
  predicate IsPath(t: Text) {
    t != [] && t[0] == 0x2f && (|t| >= 2 ==> t[1] != 0x2f) && forall i :: 0 <= i < |t| ==> PathChar(t[i])
  }

  /** What `secrets.token_hex` returns. */
  predicate IsHex(t: Text) {
    t != [] && forall i :: 0 <= i < |t| ==> 0x30 <= t[i] <= 0x39 || 0x61 <= t[i] <= 0x66
  }
}

/** The frozen records of src/dbsc/binding.py and src/dbsc/pending.py and their transitions. */
module Records {
  import opened Texts
  import opened Validate

  datatype PendingRegistration = PendingRegistration(
    userId: Text,
    regChallenge: Text,
    regChallengeTime: int)
  {
    /** What building the record checks. */
    predicate Valid() {
      IsSfStringSafe(regChallenge)
    }
  }

  datatype Binding = Binding(
    userId: Text,
    sessionIdentifier: Text,
    cookieValue: Text,
    publicKeyPem: Text,
    algorithm: Text,
    challenge: Text,
    challengeTime: int,
    createdAt: int,
    cookieIssuedAt: int,
    previousCookieValue: Text,
    previousCookieExpiresAt: int,
    hasRefreshed: bool,
    previousChallenge: Text,
    previousChallengeTime: int,
    challengeAdvertised: bool)
  {
    /** What building the record checks. */
    predicate Valid() {
      && IsSfStringSafe(sessionIdentifier) && IsSfStringSafe(challenge) && IsSfStringSafe(previousChallenge)
      && IsCookieValue(cookieValue) && IsCookieValue(previousCookieValue)
    }

    /** The reactive 403: the challenge it demotes stays in the previous slot. */
    function WithChallenge(challenge: Text, challengeTime: int): Binding {
      this.(challenge := challenge,
            challengeTime := challengeTime,
            previousChallenge := this.challenge,
            previousChallengeTime := this.challengeTime)
    }

    function MarkChallengeAdvertised(): Binding {
      this.(challengeAdvertised := true)
    }

    /** A successful refresh: the demoted cookie stays, the spent challenge does not. */
    function WithRotatedCookieAndChallenge(cookie: Text, challenge: Text, challengeTime: int, now: int, maxAge: int): Binding {
      this.(cookieValue := cookie,
            challenge := challenge,
            challengeTime := challengeTime,
            cookieIssuedAt := now,
            previousCookieValue := this.cookieValue,
            previousCookieExpiresAt := this.cookieIssuedAt + maxAge,
            hasRefreshed := true,
            previousChallenge := [],
            previousChallengeTime := 0)
    }

    /** A challenge a refresh proof may name, TTLs aside. */
    predicate Holds(jti: Text) {
      jti == challenge || jti == previousChallenge
    }
  }
}

/** The Store protocol of src/dbsc/store.py for one session id: two cells, two conditional writes. */
module StoreContract {
  import opened Records

  /** `Unreadable` is a record that exists but cannot be decoded: never the same as `Absent`. */
  datatype Cell<+T> = Absent | Unreadable | Stored(value: T)

  datatype Store = Store(offer: Cell<PendingRegistration>, binding: Cell<Binding>)

  const EMPTY := Store(Absent, Absent)

  /** True, False and CorruptStateError as a conditional write returns them. */
  datatype Verdict = Written | Conflict | Corrupt

  function PutPendingRegistration(s: Store, pending: PendingRegistration): Store {
    s.(offer := Stored(pending))
  }

  function DeletePendingRegistration(s: Store): Store {
    s.(offer := Absent)
  }

  function PutBinding(s: Store, binding: Binding): Store {
    s.(binding := Stored(binding))
  }

  function Delete(s: Store): Store {
    EMPTY
  }

  function CommitRegistration(s: Store, offer: PendingRegistration, binding: Binding): (Store, Verdict) {
    if s.offer.Unreadable? then (s, Corrupt)
    else if s.offer == Stored(offer) then (Store(Absent, Stored(binding)), Written)
    else (s, Conflict)
  }

  function ReplaceBinding(s: Store, expected: Binding, new_: Binding): (Store, Verdict) {
    if s.binding.Unreadable? then (s, Corrupt)
    else if s.binding == Stored(expected) then (s.(binding := Stored(new_)), Written)
    else (s, Conflict)
  }

  /** What expiry and damage may do to a cell between two operations. */
  predicate Degrades<T(==)>(before: Cell<T>, after: Cell<T>) {
    after == before || after.Absent? || (after.Unreadable? && !before.Absent?)
  }
}
