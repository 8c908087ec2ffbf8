/**
 * What each operation answers, and what it leaves stored, decided by the two cells at the instant it acts
 * and by the history, without reference to how the operation or its sequential form computes it.
 */
module Outcomes {
  import opened Texts
  import opened Wrappers
  import opened Records
  import opened StoreContract
  import opened Server
  import opened Lineage
  import opened Machine
  import opened Invariant
  import opened Theorems

  /** Both user ids are known, and they differ. */
  predicate Foreign(recorded: Text, current: Text) {
    recorded != [] && current != [] && recorded != current
  }

  /** The call acts inside its duration, on clock samples taken in order inside it. */
  predicate ActsInTime(now: int, s: Session, call: Call)
    requires call.pc.Done?
  {
    var w := call.pc.w;
    && call.begun <= w.at < |s.trace|
    && call.beganAt <= w.draw.t1 <= w.draw.t2 <= w.draw.t3 <= now && w.draw.t3 <= w.draw.after
  }

  /** The store a call acts on, and the one it leaves if it writes. */
  function Before(s: Session, call: Call): Store
    requires call.pc.Done? && call.pc.w.at < |s.trace|
  {
    s.trace[call.pc.w.at].store
  }

  /** The call's own write, at the next index, left `store`. */
  predicate Leaves(s: Session, id: nat, call: Call, store: Store)
    requires call.pc.Done?
  {
    var at := call.pc.w.at + 1;
    at < |s.trace| && s.trace[at].cause == ByCall(id) && s.trace[at].store == store
  }

  // ---------------------------------------------------------------- offers and revocation

  ghost predicate OfferDecided(s: Session, id: nat, call: Call, ctx: Ctx)
    requires call.pc.Done? && call.pc.w.at < |s.trace|
  {
    var o, d := call.pc.outcome, call.pc.w.draw;
    && o.Offered?
    && Leaves(s, id, call, Store(Stored(PendingRegistration(ctx.userId, o.challenge, d.t1)), Before(s, call).binding))
  }

  ghost predicate RevokeDecided(s: Session, id: nat, call: Call)
    requires call.pc.Done?
  {
    call.pc.outcome == Revoked && Leaves(s, id, call, Store(Absent, Absent))
  }

  // ---------------------------------------------------------------- register

  predicate NamesOffer(env: Env, jwt: Text, p: PendingRegistration) {
    env.verifyRegistrationJwt(jwt).Some? && env.verifyRegistrationJwt(jwt).value.challenge == p.regChallenge
  }

  /** The answer to a registration that finds offer `p`. */
  predicate RegisterAnswer(env: Env, o: Outcome, p: PendingRegistration, jwt: Text, ctx: Ctx, t1: int) {
    var foreign := Foreign(p.userId, ctx.userId);
    var expired := p.regChallengeTime + env.challengeTtlSeconds < t1;
    && (o == Failed(SessionNotFound) <==> foreign)
    && (o == Failed(ChallengeExpired) <==> !foreign && expired)
    && (o == Failed(JwtInvalid) <==> !foreign && !expired && !NamesOffer(env, jwt, p))
    && (o.Registered? <==> !foreign && !expired && NamesOffer(env, jwt, p))
  }

  ghost predicate RegisterDecided(env: Env, s: Session, id: nat, call: Call, jwt: Text, ctx: Ctx)
    requires call.pc.Done? && call.pc.w.at < |s.trace|
  {
    var o, d, cell := call.pc.outcome, call.pc.w.draw, Before(s, call).offer;
    if call.pc.w.contended then
      && o == Failed(MissingChallenge) && !cell.Unreadable?
      && env.verifyRegistrationJwt(jwt).Some? && (cell.Stored? ==> !NamesOffer(env, jwt, cell.value))
    else
      && (o == Failed(MissingChallenge) <==> cell.Absent?)
      && (o == Failed(CorruptState) <==> cell.Unreadable?)
      && (cell.Stored? ==> RegisterAnswer(env, o, cell.value, jwt, ctx, d.t1))
      && (o.Registered? ==> cell.Stored? && RegisterLeaves(env, s, id, call, cell.value, jwt, ctx))
  }

  /** The binding of a registration: the offer's user or else the caller, the proved key, and nothing previous. */
  ghost predicate RegisterLeaves(env: Env, s: Session, id: nat, call: Call, p: PendingRegistration, jwt: Text, ctx: Ctx)
    requires call.pc.Done? && call.pc.outcome.Registered? && call.pc.w.at < |s.trace|
    requires env.verifyRegistrationJwt(jwt).Some?
  {
    var o, d, proved := call.pc.outcome, call.pc.w.draw, env.verifyRegistrationJwt(jwt).value;
    var n := s.trace[call.pc.w.at].versions;
    && o.expiresAt == d.after + env.cookieMaxAgeSeconds
    && n < |s.versions| && NewChallenge(s.versions, n) && NewCookie(s.versions, n) && NewLineage(s.versions, n)
    && var challenge := s.versions[n].b.challenge;
    && Leaves(s, id, call, Store(Absent, Stored(Binding(
         if p.userId == [] then ctx.userId else p.userId, o.id, o.cookie, proved.publicKeyPem, proved.algorithm, challenge,
         d.t2, d.t2, d.t2, [], 0, false, [], 0, false))))
  }

  // ---------------------------------------------------------------- refresh

  /** The request names another user or another session. */
  predicate ForeignRequest(b: Binding, ctx: Ctx) {
    Foreign(b.userId, ctx.userId) || Foreign(b.sessionIdentifier, ctx.sessionIdHeader)
  }

  /** The token's jti is one of the last two challenges minted up to version `n`, within its own TTL. */
  ghost predicate IsRecentMint(env: Env, s: Session, n: nat, jwt: Text, d: Draw)
    requires n < |s.versions|
  {
    && env.jtiOf(jwt).Some?
    && (LiveMint(env, s.versions, n, 0, env.jtiOf(jwt).value, d.t1) || LiveMint(env, s.versions, n, 1, env.jtiOf(jwt).value, d.t2))
  }

  /** The answer to a refresh that finds version `n`. */
  ghost predicate RefreshAnswer(env: Env, s: Session, o: Outcome, n: nat, jwt: Text, ctx: Ctx, d: Draw)
    requires n < |s.versions|
  {
    var b := s.versions[n].b;
    var foreign, expired := ForeignRequest(b, ctx), b.challengeTime + env.challengeTtlSeconds < d.t1;
    var signed := env.jtiOf(jwt).Some? && env.signedBy(jwt, b.publicKeyPem);
    && (o == Failed(SessionNotFound) <==> foreign)
    && (o == Failed(ChallengeExpired) <==> !foreign && expired)
    && (o == Failed(JwtInvalid) <==> !foreign && !expired && !signed)
    && (o == Failed(ChallengeMismatch) <==> !foreign && !expired && signed && !IsRecentMint(env, s, n, jwt, d))
    && (o.Refreshed? <==> !foreign && !expired && signed && IsRecentMint(env, s, n, jwt, d))
  }

  ghost predicate RefreshDecided(env: Env, s: Session, id: nat, call: Call, jwt: Text, ctx: Ctx)
    requires call.pc.Done? && call.pc.w.at < |s.trace|
  {
    var o, d, x := call.pc.outcome, call.pc.w.draw, s.trace[call.pc.w.at];
    var cell := x.store.binding;
    if call.pc.w.contended then
      && o == Failed(ChallengeMismatch) && !cell.Unreadable? && env.jtiOf(jwt).Some?
      && (cell.Stored? ==> env.jtiOf(jwt).value != cell.value.challenge && env.jtiOf(jwt).value != cell.value.previousChallenge)
    else
      && (cell.Absent? ==> o == Failed(SessionNotFound))
      && (o == Failed(CorruptState) <==> cell.Unreadable?)
      && (cell.Stored? ==> 0 < x.versions <= |s.versions| && cell.value == s.versions[x.versions - 1].b
                           && RefreshAnswer(env, s, o, x.versions - 1, jwt, ctx, d))
      && (o.Refreshed? ==> cell.Stored? && RefreshLeaves(env, s, id, call, cell.value))
  }

  /** A refresh renews cookie and challenge, keeps the demoted cookie for its own lifetime, and nothing else. */
  ghost predicate RefreshLeaves(env: Env, s: Session, id: nat, call: Call, b: Binding)
    requires call.pc.Done? && call.pc.outcome.Refreshed? && call.pc.w.at < |s.trace|
  {
    var o, d, n := call.pc.outcome, call.pc.w.draw, s.trace[call.pc.w.at].versions;
    && o.id == b.sessionIdentifier && o.expiresAt == d.after + env.cookieMaxAgeSeconds
    && n < |s.versions| && NewChallenge(s.versions, n) && NewCookie(s.versions, n)
    && Leaves(s, id, call, Before(s, call).(binding := Stored(Binding(
         b.userId, b.sessionIdentifier, o.cookie, b.publicKeyPem, b.algorithm, o.challenge, d.t3, b.createdAt, d.t3,
         b.cookieValue, b.cookieIssuedAt + env.cookieMaxAgeSeconds, true, [], 0, b.challengeAdvertised))))
  }

  // ---------------------------------------------------------------- issue

  ghost predicate IssueDecided(s: Session, id: nat, call: Call)
    requires call.pc.Done? && call.pc.w.at < |s.trace|
  {
    var o, cell := call.pc.outcome, Before(s, call).binding;
    && (o == Bare403 <==> cell.Absent?)
    && (o == Failed(CorruptState) <==> cell.Unreadable?)
    && (o.Challenge403? <==> cell.Stored?)
    && (cell.Stored? ==> o.id == cell.value.sessionIdentifier)
    && (cell.Stored? ==> if call.pc.w.contended then o.challenge == cell.value.challenge
                         else IssueLeaves(s, id, call, cell.value))
  }

  /** A 403 renews the challenge, keeps the demoted one, and nothing else. */
  ghost predicate IssueLeaves(s: Session, id: nat, call: Call, b: Binding)
    requires call.pc.Done? && call.pc.outcome.Challenge403? && call.pc.w.at < |s.trace|
  {
    var o, d, n := call.pc.outcome, call.pc.w.draw, s.trace[call.pc.w.at].versions;
    && n < |s.versions| && NewChallenge(s.versions, n)
    && Leaves(s, id, call, Before(s, call).(binding := Stored(Binding(
         b.userId, b.sessionIdentifier, b.cookieValue, b.publicKeyPem, b.algorithm, o.challenge, d.t1, b.createdAt,
         b.cookieIssuedAt, b.previousCookieValue, b.previousCookieExpiresAt, b.hasRefreshed, b.challenge, b.challengeTime,
         b.challengeAdvertised))))
  }

  // ---------------------------------------------------------------- advertise

  ghost predicate AdvertiseDecided(env: Env, s: Session, id: nat, call: Call, held: Binding, ctx: Ctx)
    requires call.pc.Done? && call.pc.w.at < |s.trace|
  {
    var o, d, cell := call.pc.outcome, call.pc.w.draw, Before(s, call).binding;
    var worth := && !Foreign(held.userId, ctx.userId) && !held.challengeAdvertised && !held.hasRefreshed
                 && held.challenge != [] && d.t1 <= held.challengeTime + env.challengeTtlSeconds;
    && (o.Advertised? <==> worth && cell == Stored(held))
    && (o == Failed(CorruptState) <==> worth && cell.Unreadable?)
    && (o == Silent <==> !worth || cell.Absent? || (cell.Stored? && cell.value != held))
    && (o.Advertised? ==>
          && o.id == held.sessionIdentifier && o.challenge == held.challenge
          && Leaves(s, id, call, Before(s, call).(binding := Stored(held.(challengeAdvertised := true)))))
  }

  // ---------------------------------------------------------------- the gate

  ghost predicate GateDecided(env: Env, s: Session, call: Call, ctx: Ctx)
    requires call.pc.Done? && call.pc.w.at < |s.trace|
  {
    var o, d, x := call.pc.outcome, call.pc.w.draw, s.trace[call.pc.w.at];
    var cell := x.store.binding;
    && (o == Unbound <==> cell.Absent?)
    && (o == Failed(CorruptState) <==> cell.Unreadable?)
    && (o == Admitted || o == Refused <==> cell.Stored?)
    && (cell.Stored? ==> 0 < x.versions <= |s.versions| && cell.value == s.versions[x.versions - 1].b
                         && (o == Admitted <==> GateLets(env, s, x.versions - 1, ctx, d)))
  }

  /** A subresource in the grace, or the newest cookie of the lineage, or the second newest in its lifetime. */
  ghost predicate GateLets(env: Env, s: Session, n: nat, ctx: Ctx, d: Draw)
    requires n < |s.versions|
  {
    var b, cs := s.versions[n].b, Issues(s.versions, n);
    || (!ctx.isDocument && d.t1 < b.createdAt + env.registrationGraceSeconds)
    || (&& !Foreign(b.userId, ctx.userId)
        && (ctx.cookie == cs[0].0 || (|cs| > 1 && ctx.cookie == cs[1].0 && d.t2 < cs[1].1 + env.cookieMaxAgeSeconds)))
  }

  // ---------------------------------------------------------------- all of them

  ghost predicate Decided(env: Env, now: int, s: Session, id: nat, call: Call)
    requires call.pc.Done?
  {
    && ActsInTime(now, s, call)
    && match call.op
       case Offer(ctx) => OfferDecided(s, id, call, ctx)
       case Register(jwt, ctx) => RegisterDecided(env, s, id, call, jwt, ctx)
       case Issue => IssueDecided(s, id, call)
       case Refresh(jwt, ctx) => RefreshDecided(env, s, id, call, jwt, ctx)
       case Advertise(held, ctx) => AdvertiseDecided(env, s, id, call, held, ctx)
       case Revoke => RevokeDecided(s, id, call)
       case Gate(ctx) => GateDecided(env, s, call, ctx)
  }

  lemma InTime(env: Env, now: int, s: Session, id: nat)
    requires Reachable(env, now, s) && id in s.calls && s.calls[id].pc.Done?
    ensures ActsInTime(now, s, s.calls[id])
  {
    CallOf(env, now, s, id);
  }

  lemma OfferDecides(env: Env, now: int, s: Session, id: nat)
    requires Reachable(env, now, s) && id in s.calls && s.calls[id].pc.Done? && s.calls[id].op.Offer?
    ensures s.calls[id].pc.w.at < |s.trace| && OfferDecided(s, id, s.calls[id], s.calls[id].op.ctx)
  {
    CallOf(env, now, s, id);
  }

  lemma RevokeDecides(env: Env, now: int, s: Session, id: nat)
    requires Reachable(env, now, s) && id in s.calls && s.calls[id].pc.Done? && s.calls[id].op.Revoke?
    ensures RevokeDecided(s, id, s.calls[id])
  {
    CallOf(env, now, s, id);
  }

  /** The version a write of the call appended, and what the chain says of it. */
  lemma WroteNext(env: Env, now: int, s: Session, id: nat)
    requires Reachable(env, now, s) && id in s.calls && s.calls[id].pc.Done? && !s.calls[id].pc.w.contended
    requires var o := s.calls[id].pc.outcome; o.Registered? || o.Refreshed? || o.Challenge403?
    ensures var at := s.calls[id].pc.w.at;
            && at + 1 < |s.trace| && s.trace[at].versions < |s.versions|
            && s.trace[at + 1].store.binding == Stored(s.versions[s.trace[at].versions].b)
            && Link(env, s.versions, s.trace[at].versions)
            && KindOf(env, s.calls[id].op, s.calls[id].pc.w.draw) == Some(s.versions[s.trace[at].versions].kind)
  {
    CallOf(env, now, s, id);
    TraceOf(env, now, s);
    assert SnapOk(s, s.trace[s.calls[id].pc.w.at + 1]);
  }

  lemma RegisterDecides(env: Env, now: int, s: Session, id: nat)
    requires Reachable(env, now, s) && id in s.calls && s.calls[id].pc.Done? && s.calls[id].op.Register?
    ensures var call := s.calls[id]; call.pc.w.at < |s.trace| && RegisterDecided(env, s, id, call, call.op.jwt, call.op.ctx)
  {
    CallOf(env, now, s, id);
    if s.calls[id].pc.outcome.Registered? && !s.calls[id].pc.w.contended {
      WroteNext(env, now, s, id);
    }
  }

  lemma RefreshDecides(env: Env, now: int, s: Session, id: nat)
    requires Reachable(env, now, s) && id in s.calls && s.calls[id].pc.Done? && s.calls[id].op.Refresh?
    ensures var call := s.calls[id]; call.pc.w.at < |s.trace| && RefreshDecided(env, s, id, call, call.op.jwt, call.op.ctx)
  {
    CallOf(env, now, s, id);
    TraceOf(env, now, s);
    var call := s.calls[id];
    var x, d := s.trace[call.pc.w.at], call.pc.w.draw;
    assert SnapOk(s, x);
    if call.pc.w.contended {
      GivenUpIsDead(env, now, s, id, call.pc.w.at);
    } else if x.store.binding.Stored? {
      AnswersByHistory(env, s, x.versions - 1, call.op.jwt, call.op.ctx, x.store, d);
      if call.pc.outcome.Refreshed? {
        WroteNext(env, now, s, id);
      }
    }
  }

  /** The sequential refresh on version `n` answers as the history says. */
  lemma AnswersByHistory(env: Env, s: Session, n: nat, jwt: Text, ctx: Ctx, store: Store, d: Draw)
    requires Chain(env, s.versions) && n < |s.versions| && store.binding == Stored(s.versions[n].b) && d.t1 <= d.t2
    ensures RefreshAnswer(env, s, Atomically(env, Op.Refresh(jwt, ctx), store, d).1, n, jwt, ctx, d)
  {
    var b := s.versions[n].b;
    Timing(env, s.versions, n);
    if SameUser(b.userId, ctx.userId) && (ctx.sessionIdHeader == [] || ctx.sessionIdHeader == b.sessionIdentifier)
       && env.signedBy(jwt, b.publicKeyPem) && env.jtiOf(jwt).Some? {
      AcceptedExactlyLastTwoMints(env, s.versions, n, jwt, ctx, d.t1, d.t2);
    }
  }

  lemma IssueDecides(env: Env, now: int, s: Session, id: nat)
    requires Reachable(env, now, s) && id in s.calls && s.calls[id].pc.Done? && s.calls[id].op.Issue?
    ensures s.calls[id].pc.w.at < |s.trace| && IssueDecided(s, id, s.calls[id])
  {
    CallOf(env, now, s, id);
    if s.calls[id].pc.outcome.Challenge403? && !s.calls[id].pc.w.contended {
      WroteNext(env, now, s, id);
    }
  }

  lemma AdvertiseDecides(env: Env, now: int, s: Session, id: nat)
    requires Reachable(env, now, s) && id in s.calls && s.calls[id].pc.Done? && s.calls[id].op.Advertise?
    ensures var call := s.calls[id]; call.pc.w.at < |s.trace| && AdvertiseDecided(env, s, id, call, call.op.held, call.op.ctx)
  {
    CallOf(env, now, s, id);
  }

  lemma GateDecides(env: Env, now: int, s: Session, id: nat)
    requires Reachable(env, now, s) && id in s.calls && s.calls[id].pc.Done? && s.calls[id].op.Gate?
    ensures s.calls[id].pc.w.at < |s.trace| && GateDecided(env, s, s.calls[id], s.calls[id].op.ctx)
  {
    GateDecidesByIssuance(env, now, s, id);
  }

  /** Every finished call of every reachable session is decided. */
  lemma EveryCallIsDecided(env: Env, now: int, s: Session, id: nat)
    requires Reachable(env, now, s) && id in s.calls && s.calls[id].pc.Done?
    ensures Decided(env, now, s, id, s.calls[id])
  {
    InTime(env, now, s, id);
    match s.calls[id].op
    case Offer(_) => OfferDecides(env, now, s, id);
    case Register(_, _) => RegisterDecides(env, now, s, id);
    case Issue => IssueDecides(env, now, s, id);
    case Refresh(_, _) => RefreshDecides(env, now, s, id);
    case Advertise(_, _) => AdvertiseDecides(env, now, s, id);
    case Revoke => RevokeDecides(env, now, s, id);
    case Gate(_) => GateDecides(env, now, s, id);
  }
}
