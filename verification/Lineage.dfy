/**
 * The history of one session's binding: every value ever written, in order. What the record's two
 * challenge slots, two cookie slots and timestamps mean is stated against this history.
 */
module Lineage {
  import opened Texts
  import opened Wrappers
  import opened Records
  import opened Server

  datatype Kind =
    | Registration
    | Rotation
    | Advertisement
    | Refreshment(jti: Text, t1: int, t2: int)

  /** A value written to the binding cell, what wrote it, and the clock when it was written. */
  datatype Version = Version(b: Binding, kind: Kind, at: int)

  ghost predicate NewChallenge(vs: seq<Version>, i: nat)
    requires i < |vs|
  {
    vs[i].b.challenge != [] && forall k :: 0 <= k < i ==> vs[k].b.challenge != vs[i].b.challenge
  }

  ghost predicate NewCookie(vs: seq<Version>, i: nat)
    requires i < |vs|
  {
    vs[i].b.cookieValue != [] && forall k :: 0 <= k < i ==> vs[k].b.cookieValue != vs[i].b.cookieValue
  }

  ghost predicate NewLineage(vs: seq<Version>, i: nat)
    requires i < |vs|
  {
    && vs[i].b.sessionIdentifier != []
    && forall k :: 0 <= k < i ==> vs[k].b.sessionIdentifier != vs[i].b.sessionIdentifier
  }

  predicate Accepts(env: Env, b: Binding, jti: Text, t1: int, t2: int) {
    t1 - b.challengeTime <= env.challengeTtlSeconds && ChallengeMatches(env, b, jti, t2)
  }

  /** How version `i` may follow the versions before it. */
  ghost predicate Link(env: Env, vs: seq<Version>, i: nat)
    requires i < |vs|
  {
    var v := vs[i];
    && (i > 0 ==> vs[i - 1].at <= v.at)
    && (v.kind.Registration? || i > 0)
    && match v.kind
       case Registration =>
         && NewChallenge(vs, i) && NewCookie(vs, i) && NewLineage(vs, i)
         && v.b.createdAt == v.b.cookieIssuedAt == v.b.challengeTime <= v.at
         && v.b.previousCookieValue == [] && v.b.previousChallenge == []
         && !v.b.hasRefreshed && !v.b.challengeAdvertised
       case Rotation =>
         && NewChallenge(vs, i)
         && v.b == vs[i - 1].b.WithChallenge(v.b.challenge, v.b.challengeTime)
         && vs[i - 1].at <= v.b.challengeTime <= v.at
       case Advertisement =>
         && v.b == vs[i - 1].b.MarkChallengeAdvertised()
         && !vs[i - 1].b.challengeAdvertised && !vs[i - 1].b.hasRefreshed
       case Refreshment(jti, t1, t2) =>
         && NewChallenge(vs, i) && NewCookie(vs, i)
         && jti != [] && Accepts(env, vs[i - 1].b, jti, t1, t2)
         && v.b == vs[i - 1].b.WithRotatedCookieAndChallenge(
                     v.b.cookieValue, v.b.challenge, v.b.challengeTime, v.b.challengeTime, env.cookieMaxAgeSeconds)
         && vs[i - 1].at <= t1 <= t2 <= v.b.challengeTime <= v.at
  }

  ghost predicate Chain(env: Env, vs: seq<Version>) {
    forall i :: 0 <= i < |vs| ==> Link(env, vs, i)
  }

  lemma AppendLink(env: Env, vs: seq<Version>, v: Version)
    requires Chain(env, vs)
    requires Link(env, vs + [v], |vs|)
    ensures Chain(env, vs + [v])
  {
    var ws := vs + [v];
    forall i | 0 <= i < |ws|
      ensures Link(env, ws, i)
    {
      if i < |vs| {
        assert Link(env, vs, i);
        assert forall k :: 0 <= k <= i ==> ws[k] == vs[k];
      }
    }
  }

  // ---------------------------------------------------------------- lineages

  /** Versions with one session identifier are contiguous, and only the first is a registration. */
  lemma {:induction false} LineageIsContiguous(env: Env, vs: seq<Version>, i: nat, j: nat, k: nat)
    requires Chain(env, vs) && i <= k <= j < |vs|
    requires vs[i].b.sessionIdentifier == vs[j].b.sessionIdentifier
    ensures vs[k].b.sessionIdentifier == vs[i].b.sessionIdentifier
    ensures i < k ==> !vs[k].kind.Registration?
    decreases j
  {
    if i < j {
      assert Link(env, vs, j);
      assert !vs[j].kind.Registration?;
      if k < j {
        LineageIsContiguous(env, vs, i, j - 1, k);
      }
    }
  }

  /** Every lineage begins with a registration. */
  lemma {:induction false} LineageBegins(env: Env, vs: seq<Version>, i: nat) returns (m: nat)
    requires Chain(env, vs) && i < |vs|
    ensures m <= i && vs[m].kind.Registration? && vs[m].b.sessionIdentifier == vs[i].b.sessionIdentifier
    decreases i
  {
    assert Link(env, vs, i);
    m := i;
    if !vs[i].kind.Registration? {
      m := LineageBegins(env, vs, i - 1);
    }
  }

  /** What registration fixed stays fixed in a lineage; the one-way flags never go back. */
  lemma {:induction false} LineageKeeps(env: Env, vs: seq<Version>, i: nat, j: nat)
    requires Chain(env, vs) && i <= j < |vs|
    requires vs[i].b.sessionIdentifier == vs[j].b.sessionIdentifier
    ensures vs[i].b.publicKeyPem == vs[j].b.publicKeyPem
    ensures vs[i].b.userId == vs[j].b.userId
    ensures vs[i].b.algorithm == vs[j].b.algorithm
    ensures vs[i].b.createdAt == vs[j].b.createdAt
    ensures vs[i].b.hasRefreshed ==> vs[j].b.hasRefreshed
    ensures vs[i].b.challengeAdvertised ==> vs[j].b.challengeAdvertised
    ensures vs[i].b.challengeTime <= vs[j].b.challengeTime
    ensures vs[i].at <= vs[j].at
    decreases j
  {
    if i < j {
      LineageIsContiguous(env, vs, i, j, j - 1);
      LineageKeeps(env, vs, i, j - 1);
      LineageIsContiguous(env, vs, i, j, j);
      assert Link(env, vs, j);
      Timing(env, vs, j - 1);
    }
  }

  lemma {:induction false} WrittenInOrder(env: Env, vs: seq<Version>, i: nat, j: nat)
    requires Chain(env, vs) && i <= j < |vs|
    ensures vs[i].at <= vs[j].at
    decreases j
  {
    if i < j {
      assert Link(env, vs, j);
      WrittenInOrder(env, vs, i, j - 1);
    }
  }

  // ---------------------------------------------------------------- timing

  /** The order of a reachable binding's timestamps, and of everything before its write. */
  lemma {:induction false} Timing(env: Env, vs: seq<Version>, i: nat)
    requires Chain(env, vs) && i < |vs|
    ensures vs[i].b.createdAt <= vs[i].b.cookieIssuedAt <= vs[i].b.challengeTime <= vs[i].at
    ensures vs[i].b.previousChallenge != [] ==>
              vs[i].b.cookieIssuedAt <= vs[i].b.previousChallengeTime <= vs[i].b.challengeTime
    ensures vs[i].b.previousCookieValue != [] ==>
              vs[i].b.previousCookieExpiresAt <= vs[i].b.cookieIssuedAt + env.cookieMaxAgeSeconds
    ensures vs[i].b.challenge != [] && vs[i].b.cookieValue != [] && vs[i].b.sessionIdentifier != []
    decreases i
  {
    assert Link(env, vs, i);
    if !vs[i].kind.Registration? {
      Timing(env, vs, i - 1);
    }
  }

  /** A refresh never fails as expired while the stored cookie is within its lifetime. */
  lemma NeverExpiresBeforeItsCookie(env: Env, vs: seq<Version>, i: nat, jwt: Text, ctx: Ctx, t1: int, t2: int)
    requires env.Valid() && Chain(env, vs) && i < |vs|
    requires t1 - vs[i].b.cookieIssuedAt <= env.cookieMaxAgeSeconds
    ensures CheckProof(env, vs[i].b, jwt, ctx, t1, t2) != Some(ChallengeExpired)
    ensures CheckProof(env, vs[i].b, jwt, ctx, t1, t2) != Some(MissingChallenge)
  {
    Timing(env, vs, i);
  }

  // ---------------------------------------------------------------- challenges

  /** Where a challenge in a slot comes from: some version minted it. */
  lemma {:induction false} SlotsWereMinted(env: Env, vs: seq<Version>, i: nat, x: Text) returns (k: nat)
    requires Chain(env, vs) && i < |vs| && x != [] && vs[i].b.Holds(x)
    ensures k <= i && vs[k].b.challenge == x
    decreases i
  {
    assert Link(env, vs, i);
    if x == vs[i].b.challenge {
      k := i;
    } else {
      k := SlotsWereMinted(env, vs, i - 1, x);
    }
  }

  /** What a refresh proved was minted before it. */
  lemma ProvedWasMinted(env: Env, vs: seq<Version>, n: nat) returns (k: nat)
    requires Chain(env, vs) && n < |vs| && vs[n].kind.Refreshment?
    ensures k < n && vs[k].b.challenge == vs[n].kind.jti
  {
    assert Link(env, vs, n);
    k := SlotsWereMinted(env, vs, n - 1, vs[n].kind.jti);
  }

  /** A challenge that once left the slots never comes back. */
  lemma {:induction false} DeadForever(env: Env, vs: seq<Version>, m: nat, i: nat, j: nat, x: Text)
    requires Chain(env, vs) && m <= i <= j < |vs|
    requires x != [] && vs[m].b.challenge == x && !vs[i].b.Holds(x)
    ensures !vs[j].b.Holds(x)
    decreases j
  {
    if i < j {
      DeadForever(env, vs, m, i, j - 1, x);
      assert Link(env, vs, j);
    }
  }

  /** Any registration and any refresh after it kills a challenge at once. */
  lemma ReplacedOutright(env: Env, vs: seq<Version>, i: nat, j: nat, x: Text)
    requires Chain(env, vs) && i < j < |vs|
    requires x != [] && vs[i].b.Holds(x)
    requires vs[j].kind.Registration? || vs[j].kind.Refreshment?
    ensures !vs[j].b.Holds(x)
  {
    var m := SlotsWereMinted(env, vs, i, x);
    assert Link(env, vs, j);
  }

  /** Any two reactive rotations after it kill a challenge. */
  lemma RotatedTwice(env: Env, vs: seq<Version>, i: nat, j: nat, k: nat, x: Text)
    requires Chain(env, vs) && i < j < k < |vs|
    requires x != [] && vs[i].b.Holds(x)
    requires vs[j].kind.Rotation? && vs[k].kind.Rotation?
    ensures !vs[k].b.Holds(x)
  {
    var m := SlotsWereMinted(env, vs, i, x);
    assert Link(env, vs, j);
    assert Link(env, vs, k);
    assert vs[j].b.challenge != x && vs[k].b.challenge != x;
    NotCurrentAgain(env, vs, m, j, k - 1, x);
  }

  lemma {:induction false} NotCurrentAgain(env: Env, vs: seq<Version>, m: nat, i: nat, j: nat, x: Text)
    requires Chain(env, vs) && m < i <= j < |vs|
    requires vs[m].b.challenge == x && vs[i].b.challenge != x
    ensures vs[j].b.challenge != x
    decreases j
  {
    if i < j {
      NotCurrentAgain(env, vs, m, i, j - 1, x);
      assert Link(env, vs, j);
    }
  }

  /** The seed is advertised at most once per lineage. */
  lemma AdvertisedOnce(env: Env, vs: seq<Version>, i: nat, j: nat)
    requires Chain(env, vs) && i < j < |vs|
    requires vs[i].kind.Advertisement? && vs[j].kind.Advertisement?
    ensures vs[i].b.sessionIdentifier != vs[j].b.sessionIdentifier
  {
    assert Link(env, vs, i) && Link(env, vs, j);
    if vs[i].b.sessionIdentifier == vs[j].b.sessionIdentifier {
      LineageKeeps(env, vs, i, j - 1);
    }
  }

  /** ... and never once a refresh of that lineage has landed. */
  lemma NotAdvertisedAfterRefresh(env: Env, vs: seq<Version>, i: nat, j: nat)
    requires Chain(env, vs) && i < j < |vs|
    requires vs[i].kind.Refreshment? && vs[j].kind.Advertisement?
    ensures vs[i].b.sessionIdentifier != vs[j].b.sessionIdentifier
  {
    assert Link(env, vs, i) && Link(env, vs, j);
    if vs[i].b.sessionIdentifier == vs[j].b.sessionIdentifier {
      LineageKeeps(env, vs, i, j - 1);
    }
  }

  /**
   * Three writes are enough to kill any challenge: at most one of them is an advertisement of the
   * lineage, and any refresh, any registration and any two rotations are fatal.
   */
  lemma ThreeWritesKill(env: Env, vs: seq<Version>, i: nat, j: nat, x: Text)
    requires Chain(env, vs) && i + 3 <= j < |vs|
    requires x != [] && vs[i].b.Holds(x)
    ensures !vs[j].b.Holds(x)
  {
    var m := SlotsWereMinted(env, vs, i, x);
    var k: nat := i + 1;
    while k < i + 4 && !vs[k].kind.Registration? && !vs[k].kind.Refreshment?
      invariant i < k <= i + 4
      invariant forall l :: i < l < k ==> vs[l].kind.Rotation? || vs[l].kind.Advertisement?
    {
      k := k + 1;
    }
    if k < i + 4 {
      ReplacedOutright(env, vs, i, k, x);
      DeadForever(env, vs, m, k, j, x);
    } else {
      assert Link(env, vs, i + 1) && Link(env, vs, i + 2) && Link(env, vs, i + 3);
      if vs[i + 1].kind.Rotation? && vs[i + 2].kind.Rotation? {
        RotatedTwice(env, vs, i, i + 1, i + 2, x);
        DeadForever(env, vs, m, i + 2, j, x);
      } else {
        var first := if vs[i + 1].kind.Rotation? then i + 1 else i + 2;
        assert vs[first].kind.Rotation? && vs[i + 3].kind.Rotation?;
        RotatedTwice(env, vs, i, first, i + 3, x);
        DeadForever(env, vs, m, i + 3, j, x);
      }
    }
  }

  /** Of two writes in a row in one lineage at least one mints, no earlier than the write before both. */
  lemma ThreeWritesRenew(env: Env, vs: seq<Version>, i: nat, j: nat)
    requires Chain(env, vs) && i + 3 <= j < |vs|
    requires forall k :: i < k <= j ==> !vs[k].kind.Registration?
    ensures vs[i].b.sessionIdentifier == vs[j].b.sessionIdentifier
    ensures vs[i + 1].at <= vs[j].b.challengeTime
  {
    SameLineage(env, vs, i, j);
    SameLineage(env, vs, i + 1, i + 3);
    SameLineage(env, vs, i + 3, j);
    assert Link(env, vs, i + 1) && Link(env, vs, i + 2) && Link(env, vs, i + 3);
    LineageKeeps(env, vs, i + 3, j);
  }

  lemma {:induction false} SameLineage(env: Env, vs: seq<Version>, i: nat, j: nat)
    requires Chain(env, vs) && i <= j < |vs|
    requires forall k :: i < k <= j ==> !vs[k].kind.Registration?
    ensures vs[i].b.sessionIdentifier == vs[j].b.sessionIdentifier
    decreases j
  {
    if i < j {
      SameLineage(env, vs, i, j - 1);
      assert Link(env, vs, j);
    }
  }

  /** A challenge outlives advertisements and one further rotation. */
  lemma {:induction false} OutlivesOneRotation(env: Env, vs: seq<Version>, m: nat, r: nat, j: nat)
    requires Chain(env, vs) && m <= j < |vs|
    requires forall k :: m < k <= j ==> vs[k].kind.Advertisement? || (vs[k].kind.Rotation? && k == r)
    ensures var b, c := vs[j].b, vs[m].b.challenge; var at := vs[m].b.challengeTime;
            if m < r <= j && vs[r].kind.Rotation? then b.previousChallenge == c && b.previousChallengeTime == at
            else b.challenge == c && b.challengeTime == at
    decreases j
  {
    if m < j {
      OutlivesOneRotation(env, vs, m, r, j - 1);
      assert Link(env, vs, j);
    }
  }

  /** Each challenge is proved by at most one successful refresh. */
  lemma SingleSpend(env: Env, vs: seq<Version>, i: nat, j: nat)
    requires Chain(env, vs) && i < |vs| && j < |vs|
    requires vs[i].kind.Refreshment? && vs[j].kind.Refreshment?
    requires vs[i].kind.jti == vs[j].kind.jti
    ensures i == j
  {
    assert Link(env, vs, i) && Link(env, vs, j);
    if i < j {
      SpentForGood(env, vs, i, j - 1, vs[i].kind.jti);
    } else if j < i {
      SingleSpend(env, vs, j, i);
    }
  }

  /** A successful refresh makes both challenges it found unacceptable for ever. */
  lemma SpentForGood(env: Env, vs: seq<Version>, i: nat, j: nat, x: Text)
    requires Chain(env, vs) && 0 < i <= j < |vs| && vs[i].kind.Refreshment?
    requires x != [] && (vs[i - 1].b.Holds(x) || x == vs[i].kind.jti)
    ensures !vs[j].b.Holds(x)
    ensures forall t1: int, t2: int :: !Accepts(env, vs[j].b, x, t1, t2)
  {
    assert Link(env, vs, i);
    var m := SlotsWereMinted(env, vs, i - 1, x);
    ReplacedOutright(env, vs, i - 1, i, x);
    DeadForever(env, vs, m, i, j, x);
  }

  /** Challenges minted since the registration or the last successful refresh, newest first. */
  ghost function Mints(vs: seq<Version>, i: nat): seq<(Text, int)>
    requires i < |vs|
    decreases i
  {
    var own := [(vs[i].b.challenge, vs[i].b.challengeTime)];
    if i == 0 || vs[i].kind.Registration? || vs[i].kind.Refreshment? then own
    else if vs[i].kind.Rotation? then own + Mints(vs, i - 1)
    else Mints(vs, i - 1)
  }

  lemma {:induction false} SlotsAreTheLastTwoMints(env: Env, vs: seq<Version>, i: nat)
    requires Chain(env, vs) && i < |vs|
    ensures var ms := Mints(vs, i); var b := vs[i].b;
            && |ms| >= 1 && ms[0] == (b.challenge, b.challengeTime)
            && (|ms| == 1 ==> b.previousChallenge == [])
            && (|ms| > 1 ==> ms[1] == (b.previousChallenge, b.previousChallengeTime) && ms[1].0 != [])
    decreases i
  {
    assert Link(env, vs, i);
    if i > 0 && (vs[i].kind.Rotation? || vs[i].kind.Advertisement?) {
      SlotsAreTheLastTwoMints(env, vs, i - 1);
      Timing(env, vs, i - 1);
    }
  }

  /** The `k`-th newest mint is `jti` and still within its own TTL at `t`. */
  ghost predicate LiveMint(env: Env, vs: seq<Version>, i: nat, k: nat, jti: Text, t: int)
    requires i < |vs|
  {
    k < |Mints(vs, i)| && Mints(vs, i)[k].0 == jti && t - Mints(vs, i)[k].1 <= env.challengeTtlSeconds
  }

  /**
   * A correctly signed proof by a matching user and session id is accepted exactly when its jti is
   * one of the last two challenges minted since the registration or last refresh, within its TTL.
   * A live previous challenge implies a live current one, so the current one's expiry never hides it.
   */
  lemma AcceptedExactlyLastTwoMints(env: Env, vs: seq<Version>, i: nat, jwt: Text, ctx: Ctx, t1: int, t2: int)
    requires Chain(env, vs) && i < |vs| && t1 <= t2
    requires SameUser(vs[i].b.userId, ctx.userId)
    requires ctx.sessionIdHeader == [] || ctx.sessionIdHeader == vs[i].b.sessionIdentifier
    requires env.signedBy(jwt, vs[i].b.publicKeyPem) && env.jtiOf(jwt).Some?
    ensures CheckProof(env, vs[i].b, jwt, ctx, t1, t2).None? <==>
            || LiveMint(env, vs, i, 0, env.jtiOf(jwt).value, t1)
            || LiveMint(env, vs, i, 1, env.jtiOf(jwt).value, t2)
  {
    SlotsAreTheLastTwoMints(env, vs, i);
    Timing(env, vs, i);
  }

  // ---------------------------------------------------------------- cookies

  /** Cookies issued in the lineage, newest first, with their issue times. */
  ghost function Issues(vs: seq<Version>, i: nat): (cs: seq<(Text, int)>)
    requires i < |vs|
    ensures |cs| >= 1
    decreases i
  {
    var own := [(vs[i].b.cookieValue, vs[i].b.cookieIssuedAt)];
    if i == 0 || vs[i].kind.Registration? then own
    else if vs[i].kind.Refreshment? then own + Issues(vs, i - 1)
    else Issues(vs, i - 1)
  }

  lemma {:induction false} SlotsAreTheLastTwoCookies(env: Env, vs: seq<Version>, i: nat)
    requires Chain(env, vs) && i < |vs|
    ensures var cs := Issues(vs, i); var b := vs[i].b;
            && |cs| >= 1 && cs[0] == (b.cookieValue, b.cookieIssuedAt) && cs[0].0 != []
            && (|cs| == 1 ==> b.previousCookieValue == [])
            && (|cs| > 1 ==> cs[1].0 == b.previousCookieValue && cs[1].0 != []
                             && b.previousCookieExpiresAt == cs[1].1 + env.cookieMaxAgeSeconds)
    decreases i
  {
    assert Link(env, vs, i);
    if i > 0 && !vs[i].kind.Registration? {
      SlotsAreTheLastTwoCookies(env, vs, i - 1);
    }
  }

  /**
   * For a matching user the gate's cookie check passes exactly for the newest cookie of the lineage,
   * or the second newest before its own issue time plus max age.
   */
  lemma CookieExactlyLastTwoIssued(env: Env, vs: seq<Version>, i: nat, ctx: Ctx, t: int)
    requires Chain(env, vs) && i < |vs| && SameUser(vs[i].b.userId, ctx.userId)
    ensures BoundCookieMatches(env, vs[i].b, ctx, t) <==>
            var cs := Issues(vs, i);
            || ctx.cookie == cs[0].0
            || (|cs| > 1 && ctx.cookie == cs[1].0 && t < cs[1].1 + env.cookieMaxAgeSeconds)
  {
    SlotsAreTheLastTwoCookies(env, vs, i);
  }

  /** A request whose cookie was current when sent survives one racing refresh until it expires. */
  lemma SurvivesOneRefresh(env: Env, vs: seq<Version>, i: nat, r: nat, j: nat, ctx: Ctx, t: int)
    requires Chain(env, vs) && i < r <= j < |vs|
    requires vs[r].kind.Refreshment?
    requires forall k :: i < k <= j && k != r ==> vs[k].kind.Rotation? || vs[k].kind.Advertisement?
    requires ctx.cookie == vs[i].b.cookieValue && t < vs[i].b.cookieIssuedAt + env.cookieMaxAgeSeconds
    requires SameUser(vs[i].b.userId, ctx.userId)
    ensures BoundCookieMatches(env, vs[j].b, ctx, t)
  {
    CookieUntouched(env, vs, i, r - 1);
    CookieUntouched(env, vs, r, j);
    assert Link(env, vs, r);
    Timing(env, vs, i);
  }

  lemma {:induction false} CookieUntouched(env: Env, vs: seq<Version>, i: nat, j: nat)
    requires Chain(env, vs) && i <= j < |vs|
    requires forall k :: i < k <= j ==> vs[k].kind.Rotation? || vs[k].kind.Advertisement?
    ensures vs[i].b.cookieValue == vs[j].b.cookieValue
    ensures vs[i].b.cookieIssuedAt == vs[j].b.cookieIssuedAt
    ensures vs[i].b.previousCookieValue == vs[j].b.previousCookieValue
    ensures vs[i].b.previousCookieExpiresAt == vs[j].b.previousCookieExpiresAt
    ensures vs[i].b.userId == vs[j].b.userId
    decreases j
  {
    if i < j {
      CookieUntouched(env, vs, i, j - 1);
      assert Link(env, vs, j);
    }
  }

  // ---------------------------------------------------------------- no value twice

  /** No binding is ever written twice. */
  lemma NoVersionTwice(env: Env, vs: seq<Version>, i: nat, j: nat)
    requires Chain(env, vs) && i < j < |vs|
    ensures vs[i].b != vs[j].b
  {
    assert Link(env, vs, j);
    if vs[i].b == vs[j].b {
      SameChallengeRun(env, vs, i, j);
    }
  }

  /** Between two versions with one challenge there are only advertisements. */
  lemma SameChallengeRun(env: Env, vs: seq<Version>, i: nat, j: nat)
    requires Chain(env, vs) && i < j < |vs|
    requires vs[i].b.challenge == vs[j].b.challenge
    ensures j == i + 1 && vs[j].kind.Advertisement? && !vs[i].b.challengeAdvertised
  {
    assert Link(env, vs, j - 1) && Link(env, vs, j);
  }
}
