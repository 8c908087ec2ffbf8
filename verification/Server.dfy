/** The decisions of src/dbsc/server.py, and each operation as it would run with nothing in between. */
module Server {
  import opened Texts
  import opened Wrappers
  import opened Records
  import opened StoreContract

  const MAX_UPDATE_ATTEMPTS: nat := 3
  const MAX_COOKIE_MAX_AGE_SECONDS := 3600
  const MAX_CHALLENGE_TTL_SECONDS := 86400
  const MAX_REGISTRATION_GRACE_SECONDS := 60

  datatype RegistrationResult = RegistrationResult(publicKeyPem: Text, algorithm: Text, challenge: Name)

  /**
   * The configuration, and JWT verification as uninterpreted functions. A token's `jti` is part of
   * the token; only whether the token is signed depends on the key.
   */
  datatype Env = Env(
    challengeTtlSeconds: int,
    cookieMaxAgeSeconds: int,
    registrationGraceSeconds: int,
    verifyRegistrationJwt: Text -> Option<RegistrationResult>,
    jtiOf: Text -> Option<Name>,
    signedBy: (Text, Text) -> bool)
  {
    /** The bounds that building a Config enforces. */
    predicate Valid() {
      && 1 <= cookieMaxAgeSeconds <= MAX_COOKIE_MAX_AGE_SECONDS
      && cookieMaxAgeSeconds < challengeTtlSeconds <= MAX_CHALLENGE_TTL_SECONDS
      && 0 <= registrationGraceSeconds <= MAX_REGISTRATION_GRACE_SECONDS
    }

    /** The proved `jti`, or `None` where the verifier raises JwtInvalidError. */
    function VerifyRefreshJwt(jwt: Text, pem: Text): Option<Name> {
      if signedBy(jwt, pem) then jtiOf(jwt) else None
    }
  }

  /** What a call reads from its RequestContext; "" stands for a missing header or cookie. */
  datatype Ctx = Ctx(userId: Text, sessionIdHeader: Text, cookie: Text, isDocument: bool)

  datatype Error =
    | JwtInvalid
    | SessionNotFound
    | CorruptState
    | ChallengeExpired
    | ChallengeMismatch
    | MissingChallenge
  {
    predicate Retryable() {
      ChallengeExpired? || ChallengeMismatch? || MissingChallenge?
    }
  }

  datatype Op =
    | Offer(ctx: Ctx)
    | Register(jwt: Text, ctx: Ctx)
    | Issue
    | Refresh(jwt: Text, ctx: Ctx)
    | Advertise(held: Binding, ctx: Ctx)
    | Revoke
    | Gate(ctx: Ctx)

  datatype Outcome =
    | Offered(challenge: Text)
    | Registered(id: Text, cookie: Text, expiresAt: int)
    | Challenge403(id: Text, challenge: Text)
    | Bare403
    | Refreshed(id: Text, cookie: Text, challenge: Text, expiresAt: int)
    | Advertised(id: Text, challenge: Text)
    | Silent
    | Revoked
    | Unbound
    | Admitted
    | Refused
    | Failed(error: Error)

  /**
   * What a call draws from its surroundings: clock samples in the order it takes them, the sample
   * `after` its write that dates the emitted cookie, and up to three nonces.
   */
  datatype Draw = Draw(t1: int, t2: int, t3: int, after: int, n1: Text, n2: Text, n3: Text)

  /** False only when both user ids are known and differ. */
  predicate SameUser(recorded: Text, current: Text) {
    recorded == [] || current == [] || recorded == current
  }

  /** The checks `register` makes on the offer it read. */
  function CheckOffer(env: Env, pending: PendingRegistration, jwt: Text, ctx: Ctx, t1: int): Result<RegistrationResult, Error> {
    if !SameUser(pending.userId, ctx.userId) then Err(SessionNotFound)
    else if t1 - pending.regChallengeTime > env.challengeTtlSeconds then Err(ChallengeExpired)
    else match env.verifyRegistrationJwt(jwt)
      case None => Err(JwtInvalid)
      case Some(result) => if pending.regChallenge == result.challenge then Ok(result) else Err(JwtInvalid)
  }

  function NewBinding(pending: PendingRegistration, result: RegistrationResult, ctx: Ctx, d: Draw): Binding {
    Binding(
      if pending.userId != [] then pending.userId else ctx.userId,
      d.n1, d.n2, result.publicKeyPem, result.algorithm, d.n3,
      d.t2, d.t2, d.t2, [], 0, false, [], 0, false)
  }

  /** Current challenge first, then the previous one within its own TTL. */
  predicate ChallengeMatches(env: Env, b: Binding, jti: Text, t2: int) {
    || b.challenge == jti
    || (b.previousChallenge != [] && t2 - b.previousChallengeTime <= env.challengeTtlSeconds && b.previousChallenge == jti)
  }

  /** `_binding_proved_by` on the binding it read: `None` when the proof holds. */
  function CheckProof(env: Env, b: Binding, jwt: Text, ctx: Ctx, t1: int, t2: int): Option<Error> {
    if !SameUser(b.userId, ctx.userId) then Some(SessionNotFound)
    else if ctx.sessionIdHeader != [] && b.sessionIdentifier != ctx.sessionIdHeader then Some(SessionNotFound)
    else if b.challenge == [] then Some(MissingChallenge)
    else if t1 - b.challengeTime > env.challengeTtlSeconds then Some(ChallengeExpired)
    else match env.VerifyRefreshJwt(jwt, b.publicKeyPem)
      case None => Some(JwtInvalid)
      case Some(jti) => if ChallengeMatches(env, b, jti, t2) then None else Some(ChallengeMismatch)
  }

  /** Whether `advertise_refresh_challenge` has something worth sending. */
  predicate WorthAdvertising(env: Env, b: Binding, ctx: Ctx, t1: int) {
    && SameUser(b.userId, ctx.userId)
    && !b.challengeAdvertised
    && !b.hasRefreshed
    && b.challenge != []
    && t1 - b.challengeTime <= env.challengeTtlSeconds
  }

  predicate BoundCookieMatches(env: Env, b: Binding, ctx: Ctx, t: int) {
    && SameUser(b.userId, ctx.userId)
    && ctx.cookie != []
    && (|| (b.cookieValue != [] && b.cookieValue == ctx.cookie)
        || (b.previousCookieValue != [] && t < b.previousCookieExpiresAt && b.previousCookieValue == ctx.cookie))
  }

  predicate IsWithinRegistrationGrace(env: Env, b: Binding, t: int) {
    t - b.createdAt < env.registrationGraceSeconds
  }

  /** The recommended gate on a binding it read. */
  predicate GateAdmits(env: Env, b: Binding, ctx: Ctx, t1: int, t2: int) {
    (ctx.isDocument || !IsWithinRegistrationGrace(env, b, t1)) ==> BoundCookieMatches(env, b, ctx, t2)
  }

  /**
   * The sequential reference: what an operation does to the store, and answers, when it runs alone.
   * No retry is ever needed then.
   */
  function Atomically(env: Env, op: Op, s: Store, d: Draw): (Store, Outcome) {
    match op
    case Offer(ctx) =>
      (PutPendingRegistration(s, PendingRegistration(ctx.userId, d.n1, d.t1)), Offered(d.n1))
    case Register(jwt, ctx) =>
      (match s.offer
       case Absent => (s, Failed(MissingChallenge))
       case Unreadable => (s, Failed(CorruptState))
       case Stored(pending) =>
         match CheckOffer(env, pending, jwt, ctx, d.t1)
         case Err(e) => (s, Failed(e))
         case Ok(result) =>
           (Store(Absent, Stored(NewBinding(pending, result, ctx, d))),
            Registered(d.n1, d.n2, d.after + env.cookieMaxAgeSeconds)))
    case Issue =>
      (match s.binding
       case Absent => (s, Bare403)
       case Unreadable => (s, Failed(CorruptState))
       case Stored(b) => (PutBinding(s, b.WithChallenge(d.n1, d.t1)), Challenge403(b.sessionIdentifier, d.n1)))
    case Refresh(jwt, ctx) =>
      (match s.binding
       case Absent => (s, Failed(SessionNotFound))
       case Unreadable => (s, Failed(CorruptState))
       case Stored(b) =>
         match CheckProof(env, b, jwt, ctx, d.t1, d.t2)
         case Some(e) => (s, Failed(e))
         case None =>
           (PutBinding(s, b.WithRotatedCookieAndChallenge(d.n1, d.n2, d.t3, d.t3, env.cookieMaxAgeSeconds)),
            Refreshed(b.sessionIdentifier, d.n1, d.n2, d.after + env.cookieMaxAgeSeconds)))
    case Advertise(held, ctx) =>
      if !WorthAdvertising(env, held, ctx, d.t1) then (s, Silent)
      else if s.binding.Unreadable? then (s, Failed(CorruptState))
      else if s.binding != Stored(held) then (s, Silent)
      else (PutBinding(s, held.MarkChallengeAdvertised()), Advertised(held.sessionIdentifier, held.challenge))
    case Revoke => (Delete(s), Revoked)
    case Gate(ctx) =>
      (match s.binding
       case Absent => (s, Unbound)
       case Unreadable => (s, Failed(CorruptState))
       case Stored(b) => (s, if GateAdmits(env, b, ctx, d.t1, d.t2) then Admitted else Refused))
  }

  /** Answers that come with a write. */
  predicate Writes(o: Outcome) {
    o.Offered? || o.Registered? || o.Challenge403? || o.Refreshed? || o.Advertised? || o.Revoked?
  }

  /** No clock and no nonce would make the operation succeed on this store. */
  ghost predicate RefusesAlways(env: Env, op: Op, s: Store) {
    forall d: Draw :: Atomically(env, op, s, d).1.Failed?
  }
}
