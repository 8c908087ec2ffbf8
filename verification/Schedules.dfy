/**
 * Runs that really happen: how any run with a fresh binding goes on so that a refresh loses its conditional
 * writes, and what its answer is then. They show that the retry bound cannot be lowered, and that "as if
 * the requests had arrived one after the other" has exceptions.
 */
module Schedules {
  import opened Texts
  import opened Validate
  import opened Wrappers
  import opened Records
  import opened StoreContract
  import opened Server
  import opened Machine
  import opened Theorems

  // ---------------------------------------------------------------- drawing and moving

  function Zeros(n: nat): (t: Text)
    ensures |t| == n && (n > 0 ==> IsHex(t))
  {
    seq(n, i => 0x30)
  }

  /** Every sample is `now`, and the nonces are longer than `k`. */
  function DrawAt(now: int, k: nat): Draw {
    Draw(now, now, now, now, Zeros(k + 1), Zeros(k + 2), Zeros(k + 3))
  }

  predicate Below(used: set<Text>, k: nat) {
    forall t :: t in used ==> |t| <= k
  }

  /** After the run the clock shows `now`, nonces are no longer than `k`, and session `sid` is `s`. */
  ghost predicate Stands(env: Env, start: int, run: seq<Action>, sid: Text, now: int, k: nat, s: Session) {
    && IsRun(env, start, run)
    && After(env, start, run).now == now && Below(After(env, start, run).used, k)
    && Reached(env, start, run, sid) == s
  }

  lemma GoesOn(env: Env, start: int, run: seq<Action>, a: Action)
    requires IsRun(env, start, run) && Enabled(After(env, start, run), a)
    ensures IsRun(env, start, run + [a]) && After(env, start, run + [a]) == Next(env, After(env, start, run), a)
  {
    assert (run + [a])[..|run|] == run;
  }

  lemma Opens(env: Env, start: int, run: seq<Action>, sid: Text, now: int, k: nat, s: Session, id: nat, op: Op)
    returns (longer: seq<Action>)
    requires Stands(env, start, run, sid, now, k, s) && id !in s.calls
    ensures run <= longer && Stands(env, start, longer, sid, now, k, Begin(s, now, id, op))
  {
    GoesOn(env, start, run, Start(sid, id, op));
    longer := run + [Start(sid, id, op)];
  }

  lemma Moves(env: Env, start: int, run: seq<Action>, sid: Text, now: int, k: nat, s: Session, id: nat)
    returns (longer: seq<Action>)
    requires Stands(env, start, run, sid, now, k, s)
    requires id in s.calls && !s.calls[id].pc.Done? && SampleFrom(s.calls[id]) <= now
    ensures run <= longer && Stands(env, start, longer, sid, now, k + 3, StepSession(env, now, s, id, DrawAt(now, k)))
  {
    var d := DrawAt(now, k);
    var w := After(env, start, run);
    assert |d.n1| == k + 1 && |d.n2| == k + 2 && |d.n3| == k + 3;
    GoesOn(env, start, run, Run(sid, id, d));
    longer := run + [Run(sid, id, d)];
  }

  // ---------------------------------------------------------------- what others do meanwhile

  /** From `s` to `t` other calls, numbered below `top`, appended one store value and left call `r` alone. */
  ghost predicate Meanwhile(s: Session, t: Session, r: nat, store: Store, top: nat) {
    && s.trace <= t.trace && |t.trace| == |s.trace| + 1 && Current(t) == store
    && (r in s.calls ==> r in t.calls && t.calls[r] == s.calls[r])
    && (forall c :: c in t.calls ==> c < top)
  }

  lemma AdvertisesMeanwhile(env: Env, start: int, run: seq<Action>, sid: Text, now: int, k: nat, s: Session,
                            r: nat, b: Binding, a: nat)
    returns (longer: seq<Action>, t: Session)
    requires Stands(env, start, run, sid, now, k, s) && (forall c :: c in s.calls ==> c < a) && r < a
    requires Current(s).binding == Stored(b) && WorthAdvertising(env, b, Ctx(b.userId, [], [], true), now)
    ensures run <= longer && Stands(env, start, longer, sid, now, k + 3, t)
    ensures Meanwhile(s, t, r, Current(s).(binding := Stored(b.MarkChallengeAdvertised())), a + 1)
  {
    var op := Advertise(b, Ctx(b.userId, [], [], true));
    longer := Opens(env, start, run, sid, now, k, s, a, op);
    t := Begin(s, now, a, op);
    longer := Moves(env, start, longer, sid, now, k, t, a);
    t := StepSession(env, now, t, a, DrawAt(now, k));
  }

  lemma ReadsToRotate(env: Env, start: int, run: seq<Action>, sid: Text, now: int, k: nat, s: Session, b: Binding, a: nat)
    returns (longer: seq<Action>, t: Session)
    requires Stands(env, start, run, sid, now, k, s) && a !in s.calls && Current(s).binding == Stored(b)
    ensures run <= longer && Stands(env, start, longer, sid, now, k + 3, t) && t.trace == s.trace
    ensures a in t.calls && t.calls == s.calls[a := t.calls[a]] && t.calls[a].op == Issue && SampleFrom(t.calls[a]) <= now
    ensures t.calls[a].pc.HoldsBinding? && t.calls[a].pc.b == b
  {
    longer := Opens(env, start, run, sid, now, k, s, a, Issue);
    t := Begin(s, now, a, Issue);
    longer := Moves(env, start, longer, sid, now, k, t, a);
    t := StepSession(env, now, t, a, DrawAt(now, k));
  }

  lemma RotatesMeanwhile(env: Env, start: int, run: seq<Action>, sid: Text, now: int, k: nat, s: Session,
                         r: nat, b: Binding, a: nat)
    returns (longer: seq<Action>, t: Session)
    requires Stands(env, start, run, sid, now, k, s) && (forall c :: c in s.calls ==> c < a) && r < a
    requires Current(s).binding == Stored(b)
    ensures run <= longer && Stands(env, start, longer, sid, now, k + 6, t)
    ensures Meanwhile(s, t, r, Current(s).(binding := Stored(b.WithChallenge(Zeros(k + 4), now))), a + 1)
  {
    longer, t := ReadsToRotate(env, start, run, sid, now, k, s, b, a);
    longer := Moves(env, start, longer, sid, now, k + 3, t, a);
    t := StepSession(env, now, t, a, DrawAt(now, k + 3));
  }

  lemma ReadsToRevoke(env: Env, start: int, run: seq<Action>, sid: Text, now: int, k: nat, s: Session, a: nat)
    returns (longer: seq<Action>, t: Session)
    requires Stands(env, start, run, sid, now, k, s) && a !in s.calls
    ensures run <= longer && Stands(env, start, longer, sid, now, k + 3, t) && t.trace == s.trace
    ensures t.calls == s.calls[a := Call(Revoke, Deleting, Here(s), now)]
  {
    longer := Opens(env, start, run, sid, now, k, s, a, Revoke);
    t := Begin(s, now, a, Revoke);
    longer := Moves(env, start, longer, sid, now, k, t, a);
    t := StepSession(env, now, t, a, DrawAt(now, k));
  }

  lemma RevokesMeanwhile(env: Env, start: int, run: seq<Action>, sid: Text, now: int, k: nat, s: Session, r: nat, a: nat)
    returns (longer: seq<Action>, t: Session)
    requires Stands(env, start, run, sid, now, k, s) && (forall c :: c in s.calls ==> c < a) && r < a
    ensures run <= longer && Stands(env, start, longer, sid, now, k + 6, t)
    ensures Meanwhile(s, t, r, EMPTY, a + 1)
  {
    longer, t := ReadsToRevoke(env, start, run, sid, now, k, s, a);
    longer := Moves(env, start, longer, sid, now, k + 3, t, a);
    t := StepSession(env, now, t, a, DrawAt(now, k + 3));
  }

  lemma OffersMeanwhile(env: Env, start: int, run: seq<Action>, sid: Text, now: int, k: nat, s: Session,
                        r: nat, ctx: Ctx, a: nat)
    returns (longer: seq<Action>, t: Session)
    requires Stands(env, start, run, sid, now, k, s) && (forall c :: c in s.calls ==> c < a) && r < a
    ensures run <= longer && Stands(env, start, longer, sid, now, k + 3, t)
    ensures Meanwhile(s, t, r, PutPendingRegistration(Current(s), PendingRegistration(ctx.userId, Zeros(k + 1), now)), a + 1)
  {
    longer := Opens(env, start, run, sid, now, k, s, a, Op.Offer(ctx));
    t := Begin(s, now, a, Op.Offer(ctx));
    longer := Moves(env, start, longer, sid, now, k, t, a);
    t := StepSession(env, now, t, a, DrawAt(now, k));
  }

  /** A registration reads its offer. */
  lemma ReadsItsOffer(env: Env, start: int, run: seq<Action>, sid: Text, now: int, k: nat, s: Session,
                      p: PendingRegistration, jwt: Text, ctx: Ctx, r: nat)
    returns (longer: seq<Action>, t: Session)
    requires Stands(env, start, run, sid, now, k, s) && r !in s.calls && Current(s).offer == Stored(p)
    ensures run <= longer && Stands(env, start, longer, sid, now, k + 3, t) && t.trace == s.trace
    ensures r in t.calls && t.calls == s.calls[r := Call(Op.Register(jwt, ctx), HoldsOffer(p, now, Here(s)), Here(s), now)]
  {
    longer := Opens(env, start, run, sid, now, k, s, r, Op.Register(jwt, ctx));
    t := Begin(s, now, r, Op.Register(jwt, ctx));
    longer := Moves(env, start, longer, sid, now, k, t, r);
    t := StepSession(env, now, t, r, DrawAt(now, k));
  }

  lemma RegistersMeanwhile(env: Env, start: int, run: seq<Action>, sid: Text, now: int, k: nat, s: Session,
                           r: nat, p: PendingRegistration, jwt: Text, ctx: Ctx, a: nat)
    returns (longer: seq<Action>, t: Session)
    requires Stands(env, start, run, sid, now, k, s) && (forall c :: c in s.calls ==> c < a) && r < a
    requires Current(s).offer == Stored(p) && CheckOffer(env, p, jwt, ctx, now).Ok?
    ensures run <= longer && Stands(env, start, longer, sid, now, k + 6, t)
    ensures Meanwhile(s, t, r, Store(Absent, Stored(NewBinding(p, env.verifyRegistrationJwt(jwt).value, ctx, DrawAt(now, k + 3)))), a + 1)
  {
    longer, t := ReadsItsOffer(env, start, run, sid, now, k, s, p, jwt, ctx, a);
    longer := Moves(env, start, longer, sid, now, k + 3, t, a);
    t := StepSession(env, now, t, a, DrawAt(now, k + 3));
  }

  // ---------------------------------------------------------------- a refresh that keeps losing

  /** `b` accepts the token at `now`, and may still be advertised. */
  predicate Contestable(env: Env, now: int, b: Binding, jwt: Text, ctx: Ctx) {
    && Honest(env, b, jwt, ctx) && env.jtiOf(jwt).value == b.challenge
    && now - b.challengeTime <= env.challengeTtlSeconds
    && !b.challengeAdvertised && !b.hasRefreshed
  }

  /** Refresh `r`, begun at trace index `begun`, holds `b` for its `attempt`-th attempt, counted from zero. */
  predicate Holding(s: Session, r: nat, jwt: Text, ctx: Ctx, now: int, begun: nat, attempt: nat, b: Binding) {
    && r in s.calls && s.calls[r].op == Op.Refresh(jwt, ctx) && s.calls[r].begun == begun && s.calls[r].beganAt == now
    && s.calls[r].pc.HoldsBinding? && s.calls[r].pc.attempt == attempt
    && s.calls[r].pc.b == b && s.calls[r].pc.readAt == now
  }

  predicate Retrying(s: Session, r: nat, jwt: Text, ctx: Ctx, now: int, begun: nat, attempt: nat) {
    && r in s.calls && s.calls[r].op == Op.Refresh(jwt, ctx) && s.calls[r].begun == begun && s.calls[r].beganAt == now
    && s.calls[r].pc.Reading? && s.calls[r].pc.attempt == attempt
  }

  /** At no instant from `from` on would the operation, run alone within its time, answer `o`. */
  ghost predicate NeverAnswers(env: Env, op: Op, s: Session, from: nat, now: int, o: Outcome) {
    forall i, d: Draw :: from <= i < |s.trace| && d.t1 == d.t2 == now ==> Atomically(env, op, s.trace[i].store, d).1 != o
  }

  lemma Takes(env: Env, start: int, run: seq<Action>, sid: Text, now: int, k: nat, s: Session,
              r: nat, jwt: Text, ctx: Ctx, begun: nat, attempt: nat, b: Binding)
    returns (longer: seq<Action>, t: Session)
    requires Stands(env, start, run, sid, now, k, s)
    requires Retrying(s, r, jwt, ctx, now, begun, attempt) && Current(s).binding == Stored(b)
    ensures run <= longer && Stands(env, start, longer, sid, now, k + 3, t)
    ensures t.trace == s.trace && t.calls.Keys == s.calls.Keys && Holding(t, r, jwt, ctx, now, begun, attempt, b)
  {
    longer := Moves(env, start, run, sid, now, k, s, r);
    t := StepSession(env, now, s, r, DrawAt(now, k));
  }

  /** A write lost to another value, or to a removal: the next attempt, or giving up after the third. */
  lemma Loses(env: Env, start: int, run: seq<Action>, sid: Text, now: int, k: nat, s: Session,
              r: nat, jwt: Text, ctx: Ctx, begun: nat, attempt: nat, b: Binding)
    returns (longer: seq<Action>, t: Session)
    requires Stands(env, start, run, sid, now, k, s)
    requires Holding(s, r, jwt, ctx, now, begun, attempt, b) && CheckProof(env, b, jwt, ctx, now, now).None?
    requires Current(s).binding != Stored(b) && !Current(s).binding.Unreadable?
    ensures run <= longer && Stands(env, start, longer, sid, now, k + 3, t)
    ensures t.trace == s.trace && t.calls.Keys == s.calls.Keys
    ensures attempt < 2 ==> Retrying(t, r, jwt, ctx, now, begun, attempt + 1)
    ensures attempt >= 2 ==> GaveUp(t, r, jwt, ctx, now, begun)
  {
    longer := Moves(env, start, run, sid, now, k, s, r);
    t := StepSession(env, now, s, r, DrawAt(now, k));
  }

  predicate GaveUp(s: Session, r: nat, jwt: Text, ctx: Ctx, now: int, begun: nat) {
    && r in s.calls && s.calls[r].op == Op.Refresh(jwt, ctx) && s.calls[r].begun == begun && s.calls[r].beganAt == now
    && s.calls[r].pc.Done? && s.calls[r].pc.outcome == Failed(ChallengeMismatch)
    && s.calls[r].pc.w.contended && s.calls[r].pc.w.at == Here(s)
  }

  /** One more instant at which the operation does not answer `o`. */
  lemma StillNever(env: Env, op: Op, s: Session, t: Session, from: nat, now: int, o: Outcome)
    requires NeverAnswers(env, op, s, from, now, o)
    requires s.trace <= t.trace && |t.trace| <= |s.trace| + 1
    requires forall d: Draw :: d.t1 == d.t2 == now ==> Atomically(env, op, Current(t), d).1 != o
    ensures NeverAnswers(env, op, t, from, now, o)
  {}

  const MISMATCH := Failed(ChallengeMismatch)

  /** The two rewrites a challenge survives. */
  function Overtaken(b: Binding, next: Text, now: int): Binding {
    b.MarkChallengeAdvertised().WithChallenge(next, now)
  }

  lemma StillAccepts(env: Env, now: int, b: Binding, jwt: Text, ctx: Ctx, next: Text)
    requires env.Valid() && Contestable(env, now, b, jwt, ctx) && next != []
    ensures CheckProof(env, b, jwt, ctx, now, now).None?
    ensures CheckProof(env, b.MarkChallengeAdvertised(), jwt, ctx, now, now).None?
    ensures CheckProof(env, Overtaken(b, next, now), jwt, ctx, now, now).None?
  {}

  /** A proof that holds is never answered with a mismatch. */
  lemma ProvedNeverMismatches(env: Env, store: Store, b: Binding, jwt: Text, ctx: Ctx, now: int)
    requires store.binding == Stored(b) && CheckProof(env, b, jwt, ctx, now, now).None?
    ensures forall d: Draw :: d.t1 == d.t2 == now ==> Atomically(env, Op.Refresh(jwt, ctx), store, d).1 != MISMATCH
  {}

  /** A refresh starts and reads. */
  lemma Starts(env: Env, start: int, run: seq<Action>, sid: Text, now: int, k: nat, s: Session,
               b: Binding, jwt: Text, ctx: Ctx, r: nat)
    returns (longer: seq<Action>, t: Session)
    requires Stands(env, start, run, sid, now, k, s) && (forall c :: c in s.calls ==> c < r)
    requires Current(s).binding == Stored(b) && CheckProof(env, b, jwt, ctx, now, now).None?
    ensures run <= longer && Stands(env, start, longer, sid, now, k + 3, t) && (forall c :: c in t.calls ==> c < r + 1)
    ensures t.trace == s.trace && Holding(t, r, jwt, ctx, now, Here(s), 0, b)
  {
    longer := Opens(env, start, run, sid, now, k, s, r, Op.Refresh(jwt, ctx));
    t := Begin(s, now, r, Op.Refresh(jwt, ctx));
    longer, t := Takes(env, start, longer, sid, now, k, t, r, jwt, ctx, Here(s), 0, b);
  }

  /** It loses its first write to an advertisement ... */
  lemma LosesToAnAdvertisement(env: Env, start: int, run: seq<Action>, sid: Text, now: int, k: nat, s: Session,
                               b: Binding, jwt: Text, ctx: Ctx, r: nat, begun: nat)
    returns (longer: seq<Action>, t: Session)
    requires env.Valid() && Stands(env, start, run, sid, now, k, s) && (forall c :: c in s.calls ==> c < r + 1)
    requires Current(s).binding == Stored(b) && Contestable(env, now, b, jwt, ctx)
    requires Holding(s, r, jwt, ctx, now, begun, 0, b)
    ensures run <= longer && Stands(env, start, longer, sid, now, k + 6, t) && (forall c :: c in t.calls ==> c < r + 2)
    ensures Retrying(t, r, jwt, ctx, now, begun, 1) && s.trace <= t.trace && |t.trace| == |s.trace| + 1
    ensures Current(t).binding == Stored(b.MarkChallengeAdvertised())
  {
    StillAccepts(env, now, b, jwt, ctx, Zeros(1));
    longer, t := AdvertisesMeanwhile(env, start, run, sid, now, k, s, r, b, r + 1);
    longer, t := Loses(env, start, longer, sid, now, k + 3, t, r, jwt, ctx, begun, 0, b);
  }

  /** ... and its second to a rotation. */
  lemma LosesToARotation(env: Env, start: int, run: seq<Action>, sid: Text, now: int, k: nat, s: Session,
                         b: Binding, jwt: Text, ctx: Ctx, r: nat, begun: nat)
    returns (longer: seq<Action>, t: Session)
    requires env.Valid() && Stands(env, start, run, sid, now, k, s) && (forall c :: c in s.calls ==> c < r + 2)
    requires Contestable(env, now, b, jwt, ctx) && |b.challenge| <= k
    requires Retrying(s, r, jwt, ctx, now, begun, 1) && Current(s).binding == Stored(b.MarkChallengeAdvertised())
    ensures run <= longer && Stands(env, start, longer, sid, now, k + 12, t) && (forall c :: c in t.calls ==> c < r + 3)
    ensures Retrying(t, r, jwt, ctx, now, begun, 2) && s.trace <= t.trace && |t.trace| == |s.trace| + 1
    ensures Current(t).binding == Stored(Overtaken(b, Zeros(k + 7), now))
  {
    var marked := b.MarkChallengeAdvertised();
    StillAccepts(env, now, b, jwt, ctx, Zeros(k + 7));
    longer, t := Takes(env, start, run, sid, now, k, s, r, jwt, ctx, begun, 1, marked);
    longer, t := RotatesMeanwhile(env, start, longer, sid, now, k + 3, t, r, marked, r + 2);
    longer, t := Loses(env, start, longer, sid, now, k + 9, t, r, jwt, ctx, begun, 1, marked);
  }

  /** The three bindings stored during those attempts all accept the proof. */
  lemma NoMismatchSoFar(env: Env, t: Session, from: nat, b: Binding, jwt: Text, ctx: Ctx, now: int, next: Text)
    requires env.Valid() && Contestable(env, now, b, jwt, ctx) && next != [] && |t.trace| == from + 3
    requires t.trace[from].store.binding == Stored(b)
    requires t.trace[from + 1].store.binding == Stored(b.MarkChallengeAdvertised())
    requires t.trace[from + 2].store.binding == Stored(Overtaken(b, next, now))
    ensures NeverAnswers(env, Op.Refresh(jwt, ctx), t, from, now, MISMATCH)
  {
    StillAccepts(env, now, b, jwt, ctx, next);
    ProvedNeverMismatches(env, t.trace[from].store, b, jwt, ctx, now);
    ProvedNeverMismatches(env, t.trace[from + 1].store, b.MarkChallengeAdvertised(), jwt, ctx, now);
    ProvedNeverMismatches(env, t.trace[from + 2].store, Overtaken(b, next, now), jwt, ctx, now);
  }

  lemma FirstAttempt(env: Env, start: int, run: seq<Action>, sid: Text, now: int, k: nat, s: Session,
                     b: Binding, jwt: Text, ctx: Ctx, r: nat)
    returns (longer: seq<Action>, t: Session)
    requires env.Valid() && Stands(env, start, run, sid, now, k, s) && (forall c :: c in s.calls ==> c < r)
    requires Current(s).binding == Stored(b) && Contestable(env, now, b, jwt, ctx)
    ensures run <= longer && Stands(env, start, longer, sid, now, k + 9, t) && (forall c :: c in t.calls ==> c < r + 2)
    ensures Retrying(t, r, jwt, ctx, now, Here(s), 1) && s.trace <= t.trace && |t.trace| == |s.trace| + 1
    ensures Current(t).binding == Stored(b.MarkChallengeAdvertised())
  {
    StillAccepts(env, now, b, jwt, ctx, Zeros(1));
    longer, t := Starts(env, start, run, sid, now, k, s, b, jwt, ctx, r);
    longer, t := LosesToAnAdvertisement(env, start, longer, sid, now, k + 3, t, b, jwt, ctx, r, Here(s));
  }

  /** The third attempt still holds a proof, and what is stored is what it read. */
  lemma ThirdAttempt(env: Env, start: int, run: seq<Action>, sid: Text, now: int, k: nat, s: Session,
                     b: Binding, jwt: Text, ctx: Ctx, r: nat)
    returns (longer: seq<Action>, t: Session, held: Binding)
    requires env.Valid() && Stands(env, start, run, sid, now, k, s) && (forall c :: c in s.calls ==> c < r)
    requires Current(s).binding == Stored(b) && Contestable(env, now, b, jwt, ctx) && |b.challenge| <= k
    ensures run <= longer && Stands(env, start, longer, sid, now, k + 24, t) && (forall c :: c in t.calls ==> c < r + 3)
    ensures Holding(t, r, jwt, ctx, now, Here(s), 2, held) && s.trace <= t.trace && |t.trace| == |s.trace| + 2
    ensures Current(t).binding == Stored(held) && held == Overtaken(b, Zeros(k + 16), now)
    ensures t.trace[Here(s) + 1].store.binding == Stored(b.MarkChallengeAdvertised())
  {
    held := Overtaken(b, Zeros(k + 16), now);
    longer, t := FirstAttempt(env, start, run, sid, now, k, s, b, jwt, ctx, r);
    longer, t := LosesToARotation(env, start, longer, sid, now, k + 9, t, b, jwt, ctx, r, Here(s));
    longer, t := Takes(env, start, longer, sid, now, k + 21, t, r, jwt, ctx, Here(s), 2, held);
  }

  // ---------------------------------------------------------------- the retry bound is reached

  lemma LongestOf(used: set<Text>, least: nat) returns (k: nat)
    ensures least <= k && Below(used, k)
  {
    k := least;
    var rest := used;
    while rest != {}
      invariant rest <= used && least <= k && forall t :: t in used - rest ==> |t| <= k
      decreases rest
    {
      var t: Text :| t in rest;
      if |t| > k { k := |t|; }
      rest := rest - {t};
    }
    assert used - rest == used;
  }

  /** The run in which session `sid` stores a contestable binding. */
  ghost predicate Begins(env: Env, start: int, run: seq<Action>, sid: Text, b: Binding, jwt: Text, ctx: Ctx, r: nat) {
    && env.Valid() && IsRun(env, start, run)
    && var s := Reached(env, start, run, sid);
    && (forall c :: c in s.calls ==> c < r)
    && Current(s).binding == Stored(b) && Contestable(env, After(env, start, run).now, b, jwt, ctx)
  }

  /** Refresh `r` of the run has lost two conditional writes. */
  ghost predicate InThirdAttempt(env: Env, start: int, run: seq<Action>, sid: Text, jwt: Text, ctx: Ctx, r: nat) {
    && IsRun(env, start, run)
    && var t := Reached(env, start, run, sid);
    && r in t.calls && t.calls[r].op == Op.Refresh(jwt, ctx) && t.calls[r].pc.HoldsBinding? && t.calls[r].pc.attempt == 2
  }

  ghost predicate EndedIn200(env: Env, start: int, run: seq<Action>, sid: Text, jwt: Text, ctx: Ctx, r: nat) {
    && IsRun(env, start, run)
    && var t := Reached(env, start, run, sid);
    && r in t.calls && t.calls[r].op == Op.Refresh(jwt, ctx) && t.calls[r].pc.Done? && t.calls[r].pc.outcome.Refreshed?
  }

  /**
   * Two lost writes are not the end: any run with a contestable binding goes on so that a refresh loses to an
   * advertisement and to a rotation, and its third attempt ends in 200.
   */
  lemma ThirdAttemptMaySucceed(env: Env, start: int, run: seq<Action>, sid: Text, b: Binding, jwt: Text, ctx: Ctx, r: nat)
    returns (third: seq<Action>, longer: seq<Action>)
    requires Begins(env, start, run, sid, b, jwt, ctx, r)
    ensures run <= third <= longer
    ensures InThirdAttempt(env, start, third, sid, jwt, ctx, r) && EndedIn200(env, start, longer, sid, jwt, ctx, r)
  {
    var now, s := After(env, start, run).now, Reached(env, start, run, sid);
    var k := LongestOf(After(env, start, run).used, |b.challenge|);
    var t, held;
    third, t, held := ThirdAttempt(env, start, run, sid, now, k, s, b, jwt, ctx, r);
    longer := Moves(env, start, third, sid, now, k + 24, t, r);
  }

  // ---------------------------------------------------------------- no instant explains the answer

  /** Refresh `r` of the run gave up with a mismatch that no instant of its duration explains. */
  ghost predicate Unexplained(env: Env, start: int, run: seq<Action>, sid: Text, jwt: Text, ctx: Ctx, r: nat) {
    && IsRun(env, start, run)
    && var t, now := Reached(env, start, run, sid), After(env, start, run).now;
    && r in t.calls && GaveUp(t, r, jwt, ctx, now, t.calls[r].begun)
    && NeverAnswers(env, Op.Refresh(jwt, ctx), t, t.calls[r].begun, now, MISMATCH)
  }

  /** Run alone on this store at `now`, the refresh ends the session. */
  ghost predicate RefusedForGood(env: Env, jwt: Text, ctx: Ctx, store: Store, now: int) {
    forall d: Draw :: d.t1 == d.t2 == now ==>
      var o := Atomically(env, Op.Refresh(jwt, ctx), store, d).1; o.Failed? && !o.error.Retryable()
  }

  /** What is stored at the end of the run would end the session. */
  ghost predicate EndsTerminally(env: Env, start: int, run: seq<Action>, sid: Text, jwt: Text, ctx: Ctx)
    requires IsRun(env, start, run)
  {
    RefusedForGood(env, jwt, ctx, Current(Reached(env, start, run, sid)), After(env, start, run).now)
  }

  lemma GivesUpOnDeletion(env: Env, start: int, run: seq<Action>, sid: Text, now: int, k: nat, s: Session,
                          held: Binding, jwt: Text, ctx: Ctx, r: nat, begun: nat)
    returns (longer: seq<Action>, t: Session)
    requires Stands(env, start, run, sid, now, k, s) && (forall c :: c in s.calls ==> c < r + 3)
    requires Holding(s, r, jwt, ctx, now, begun, 2, held) && CheckProof(env, held, jwt, ctx, now, now).None?
    requires NeverAnswers(env, Op.Refresh(jwt, ctx), s, begun, now, MISMATCH)
    ensures run <= longer && Stands(env, start, longer, sid, now, k + 9, t) && GaveUp(t, r, jwt, ctx, now, begun)
    ensures NeverAnswers(env, Op.Refresh(jwt, ctx), t, begun, now, MISMATCH) && Current(t) == EMPTY
    ensures RefusedForGood(env, jwt, ctx, EMPTY, now)
  {
    longer, t := RevokesMeanwhile(env, start, run, sid, now, k, s, r, r + 3);
    StillNever(env, Op.Refresh(jwt, ctx), s, t, begun, now, MISMATCH);
    longer, t := Loses(env, start, longer, sid, now, k + 6, t, r, jwt, ctx, begun, 2, held);
  }

  /** The third write is lost to a revocation: in sequence there would be no session. */
  lemma GivesUpOnARevocation(env: Env, start: int, run: seq<Action>, sid: Text, b: Binding, jwt: Text, ctx: Ctx, r: nat)
    returns (longer: seq<Action>)
    requires Begins(env, start, run, sid, b, jwt, ctx, r)
    ensures run <= longer && Unexplained(env, start, longer, sid, jwt, ctx, r)
    ensures Current(Reached(env, start, longer, sid)) == EMPTY && EndsTerminally(env, start, longer, sid, jwt, ctx)
  {
    var now, s := After(env, start, run).now, Reached(env, start, run, sid);
    var k := LongestOf(After(env, start, run).used, |b.challenge|);
    var t, held;
    longer, t, held := ThirdAttempt(env, start, run, sid, now, k, s, b, jwt, ctx, r);
    NoMismatchSoFar(env, t, Here(s), b, jwt, ctx, now, Zeros(k + 16));
    StillAccepts(env, now, b, jwt, ctx, Zeros(k + 16));
    longer, t := GivesUpOnDeletion(env, start, longer, sid, now, k + 24, t, held, jwt, ctx, r, Here(s));
  }

  /** `sign` answers every offer with the token of a device whose key did not sign `jwt`. */
  ghost predicate AnotherDevice(env: Env, sign: Text -> Text, jwt: Text) {
    forall c: Name :: && env.verifyRegistrationJwt(sign(c)).Some?
                      && env.verifyRegistrationJwt(sign(c)).value.challenge == c
                      && !env.signedBy(jwt, env.verifyRegistrationJwt(sign(c)).value.publicKeyPem)
  }

  /**
   * The third write is lost to a registration by another device: in sequence the token would not be the
   * stored key's, or the session another, and the answer terminal.
   */
  lemma GivesUpOnARegistration(env: Env, start: int, run: seq<Action>, sid: Text, b: Binding, jwt: Text, ctx: Ctx, r: nat,
                               sign: Text -> Text)
    returns (longer: seq<Action>)
    requires Begins(env, start, run, sid, b, jwt, ctx, r) && AnotherDevice(env, sign, jwt)
    ensures run <= longer && Unexplained(env, start, longer, sid, jwt, ctx, r)
    ensures Current(Reached(env, start, longer, sid)).binding.Stored? && EndsTerminally(env, start, longer, sid, jwt, ctx)
  {
    var now, s := After(env, start, run).now, Reached(env, start, run, sid);
    var k := LongestOf(After(env, start, run).used, |b.challenge|);
    var t, held;
    longer, t, held := ThirdAttempt(env, start, run, sid, now, k, s, b, jwt, ctx, r);
    NoMismatchSoFar(env, t, Here(s), b, jwt, ctx, now, Zeros(k + 16));
    StillAccepts(env, now, b, jwt, ctx, Zeros(k + 16));
    longer, t := GivesUpOnAnother(env, start, longer, sid, now, k + 24, t, held, jwt, ctx, r, Here(s), sign);
  }

  /** The binding of another device refuses the token for good, whatever id the request names. */
  lemma AnotherRefuses(env: Env, p: PendingRegistration, sign: Text -> Text, user: Ctx, e: Draw, jwt: Text, ctx: Ctx, now: int)
    requires env.Valid() && AnotherDevice(env, sign, jwt) && IsHex(p.regChallenge) && IsHex(e.n3) && e.t2 == now
    requires env.verifyRegistrationJwt(sign(p.regChallenge)).Some?
    ensures var b := NewBinding(p, env.verifyRegistrationJwt(sign(p.regChallenge)).value, user, e);
            RefusedForGood(env, jwt, ctx, Store(Absent, Stored(b)), now)
  {
    var c: Name := p.regChallenge;
    assert !env.signedBy(jwt, env.verifyRegistrationJwt(sign(c)).value.publicKeyPem);
  }

  /** The offer to the other device, and its token, pass every check. */
  lemma AnotherIsAccepted(env: Env, p: PendingRegistration, sign: Text -> Text, user: Ctx, jwt: Text, now: int)
    requires env.Valid() && AnotherDevice(env, sign, jwt) && IsHex(p.regChallenge)
    requires p.regChallengeTime == now && SameUser(p.userId, user.userId)
    ensures env.verifyRegistrationJwt(sign(p.regChallenge)).Some?
    ensures CheckOffer(env, p, sign(p.regChallenge), user, now).Ok?
  {
    var c: Name := p.regChallenge;
    assert env.verifyRegistrationJwt(sign(c)).value.challenge == c;
  }

  /** With an offer stored, the other device registers, and the refresh loses its third write. */
  lemma GivesUpOnItsToken(env: Env, start: int, run: seq<Action>, sid: Text, now: int, k: nat, s: Session,
                          held: Binding, jwt: Text, ctx: Ctx, r: nat, begun: nat, sign: Text -> Text, p: PendingRegistration)
    returns (longer: seq<Action>, t: Session)
    requires env.Valid() && Stands(env, start, run, sid, now, k, s) && (forall c :: c in s.calls ==> c < r + 4)
    requires Holding(s, r, jwt, ctx, now, begun, 2, held) && CheckProof(env, held, jwt, ctx, now, now).None?
    requires NeverAnswers(env, Op.Refresh(jwt, ctx), s, begun, now, MISMATCH) && AnotherDevice(env, sign, jwt)
    requires Current(s).offer == Stored(p) && IsHex(p.regChallenge) && p.regChallengeTime == now && |held.challenge| <= k
    ensures run <= longer && Stands(env, start, longer, sid, now, k + 9, t) && GaveUp(t, r, jwt, ctx, now, begun)
    ensures NeverAnswers(env, Op.Refresh(jwt, ctx), t, begun, now, MISMATCH) && Current(t).binding.Stored?
    ensures RefusedForGood(env, jwt, ctx, Current(t), now)
  {
    var user := Ctx(p.userId, [], [], true);
    AnotherIsAccepted(env, p, sign, user, jwt, now);
    longer, t := RegistersMeanwhile(env, start, run, sid, now, k, s, r, p, sign(p.regChallenge), user, r + 4);
    AnotherRefuses(env, p, sign, user, DrawAt(now, k + 3), jwt, ctx, now);
    StillNever(env, Op.Refresh(jwt, ctx), s, t, begun, now, MISMATCH);
    longer, t := Loses(env, start, longer, sid, now, k + 6, t, r, jwt, ctx, begun, 2, held);
  }

  lemma GivesUpOnAnother(env: Env, start: int, run: seq<Action>, sid: Text, now: int, k: nat, s: Session,
                         held: Binding, jwt: Text, ctx: Ctx, r: nat, begun: nat, sign: Text -> Text)
    returns (longer: seq<Action>, t: Session)
    requires env.Valid() && Stands(env, start, run, sid, now, k, s) && (forall c :: c in s.calls ==> c < r + 3)
    requires Holding(s, r, jwt, ctx, now, begun, 2, held) && CheckProof(env, held, jwt, ctx, now, now).None?
    requires NeverAnswers(env, Op.Refresh(jwt, ctx), s, begun, now, MISMATCH) && AnotherDevice(env, sign, jwt)
    requires Current(s).binding == Stored(held) && |held.challenge| <= k
    ensures run <= longer && Stands(env, start, longer, sid, now, k + 12, t) && GaveUp(t, r, jwt, ctx, now, begun)
    ensures NeverAnswers(env, Op.Refresh(jwt, ctx), t, begun, now, MISMATCH) && Current(t).binding.Stored?
    ensures RefusedForGood(env, jwt, ctx, Current(t), now)
  {
    var user := Ctx(held.userId, [], [], true);
    longer, t := OffersMeanwhile(env, start, run, sid, now, k, s, r, user, r + 3);
    ProvedNeverMismatches(env, Current(t), held, jwt, ctx, now);
    StillNever(env, Op.Refresh(jwt, ctx), s, t, begun, now, MISMATCH);
    longer, t := GivesUpOnItsToken(env, start, longer, sid, now, k + 3, t, held, jwt, ctx, r, begun, sign,
                                   PendingRegistration(held.userId, Zeros(k + 1), now));
  }

  // ---------------------------------------------------------------- a registration that loses its offer

  /** Registration `r` of the run failed for want of an offer, though one was stored throughout. */
  ghost predicate UnexplainedRegistration(env: Env, start: int, run: seq<Action>, sid: Text, jwt: Text, ctx: Ctx, r: nat) {
    && IsRun(env, start, run)
    && var t, now := Reached(env, start, run, sid), After(env, start, run).now;
    && r in t.calls && t.calls[r].op == Op.Register(jwt, ctx) && t.calls[r].beganAt == now
    && t.calls[r].pc.Done? && t.calls[r].pc.outcome == Failed(MissingChallenge) && t.calls[r].pc.w.contended
    && NeverAnswers(env, Op.Register(jwt, ctx), t, t.calls[r].begun, now, Failed(MissingChallenge))
  }

  /** A stored offer is never answered with a missing challenge. */
  lemma OfferedNeverMisses(env: Env, store: Store, jwt: Text, ctx: Ctx)
    requires store.offer.Stored?
    ensures forall d: Draw :: Atomically(env, Op.Register(jwt, ctx), store, d).1 != Failed(MissingChallenge)
  {}

  /** `sign` answers every offer with a token for it. */
  ghost predicate ADevice(env: Env, sign: Text -> Text) {
    forall c: Name :: env.verifyRegistrationJwt(sign(c)).Some? && env.verifyRegistrationJwt(sign(c)).value.challenge == c
  }

  /** A registration that finds another offer at its commit. */
  lemma CommitsTooLate(env: Env, start: int, run: seq<Action>, sid: Text, now: int, k: nat, s: Session,
                       p: PendingRegistration, jwt: Text, ctx: Ctx, r: nat, begun: nat, seen: nat)
    returns (longer: seq<Action>)
    requires Stands(env, start, run, sid, now, k, s)
    requires r in s.calls && s.calls[r] == Call(Op.Register(jwt, ctx), HoldsOffer(p, now, seen), begun, now)
    requires CheckOffer(env, p, jwt, ctx, now).Ok? && Current(s).offer.Stored? && Current(s).offer.value != p
    requires NeverAnswers(env, Op.Register(jwt, ctx), s, begun, now, Failed(MissingChallenge))
    ensures run <= longer && UnexplainedRegistration(env, start, longer, sid, jwt, ctx, r)
    ensures Reached(env, start, longer, sid).trace == s.trace
  {
    longer := Moves(env, start, run, sid, now, k, s, r);
  }

  lemma OfferedThroughout(env: Env, s: Session, t: Session, from: nat, jwt: Text, ctx: Ctx, now: int)
    requires from == Here(s) && s.trace <= t.trace && |t.trace| == |s.trace| + 1
    requires Current(s).offer.Stored? && Current(t).offer.Stored?
    ensures NeverAnswers(env, Op.Register(jwt, ctx), t, from, now, Failed(MissingChallenge))
  {
    OfferedNeverMisses(env, Current(s), jwt, ctx);
    OfferedNeverMisses(env, Current(t), jwt, ctx);
    assert Current(s) == t.trace[from].store && Current(t) == t.trace[from + 1].store;
  }

  /** A newer offer lands behind the registration's read. */
  lemma NewerOfferLands(env: Env, start: int, run: seq<Action>, sid: Text, now: int, k: nat, s: Session,
                        p: PendingRegistration, jwt: Text, ctx: Ctx, r: nat)
    returns (longer: seq<Action>, u: Session)
    requires Stands(env, start, run, sid, now, k, s) && (forall c :: c in s.calls ==> c < r)
    requires Current(s).offer == Stored(p) && |p.regChallenge| <= k
    ensures run <= longer && Stands(env, start, longer, sid, now, k + 6, u)
    ensures r in u.calls && u.calls[r] == Call(Op.Register(jwt, ctx), HoldsOffer(p, now, Here(s)), Here(s), now)
    ensures Current(u).offer.Stored? && Current(u).offer.value != p
    ensures NeverAnswers(env, Op.Register(jwt, ctx), u, Here(s), now, Failed(MissingChallenge))
  {
    var t;
    longer, t := ReadsItsOffer(env, start, run, sid, now, k, s, p, jwt, ctx, r);
    longer, u := OffersMeanwhile(env, start, longer, sid, now, k + 3, t, r, ctx, r + 1);
    OfferedThroughout(env, t, u, Here(s), jwt, ctx, now);
    assert |Zeros(k + 4)| == k + 4;
  }

  /** A newer offer lands between the registration's read and its commit. */
  lemma OvertakenByAnOffer(env: Env, start: int, run: seq<Action>, sid: Text, now: int, k: nat, s: Session,
                           p: PendingRegistration, jwt: Text, ctx: Ctx, r: nat)
    returns (longer: seq<Action>)
    requires Stands(env, start, run, sid, now, k, s) && (forall c :: c in s.calls ==> c < r)
    requires Current(s).offer == Stored(p) && CheckOffer(env, p, jwt, ctx, now).Ok? && |p.regChallenge| <= k
    ensures run <= longer && UnexplainedRegistration(env, start, longer, sid, jwt, ctx, r)
    ensures Current(Reached(env, start, longer, sid)).offer.Stored?
  {
    var u;
    longer, u := NewerOfferLands(env, start, run, sid, now, k, s, p, jwt, ctx, r);
    longer := CommitsTooLate(env, start, longer, sid, now, k + 6, u, p, jwt, ctx, r, Here(s), Here(s));
  }

  /** Any run goes on so that a registration ends without an offer though one was stored throughout. */
  lemma LosesItsOffer(env: Env, start: int, run: seq<Action>, sid: Text, ctx: Ctx, r: nat, sign: Text -> Text)
    returns (longer: seq<Action>, jwt: Text)
    requires env.Valid() && IsRun(env, start, run) && (forall c :: c in Reached(env, start, run, sid).calls ==> c < r)
    requires ADevice(env, sign)
    ensures run <= longer && UnexplainedRegistration(env, start, longer, sid, jwt, ctx, r + 2)
    ensures Current(Reached(env, start, longer, sid)).offer.Stored?
  {
    var now, s := After(env, start, run).now, Reached(env, start, run, sid);
    var k := LongestOf(After(env, start, run).used, 0);
    var c: Name := Zeros(k + 1);
    var p := PendingRegistration(ctx.userId, c, now);
    var t;
    jwt := sign(c);
    assert CheckOffer(env, p, jwt, ctx, now).Ok?;
    longer, t := OffersMeanwhile(env, start, run, sid, now, k, s, r, ctx, r + 1);
    longer := OvertakenByAnOffer(env, start, longer, sid, now, k + 3, t, p, jwt, ctx, r + 2);
  }

  // ---------------------------------------------------------------- one such run from the empty store

  /** Tokens name their device first and their challenge behind it. */
  const DEMO := Env(900, 300, 5,
    (t: Text) => if |t| > 1 then Some(RegistrationResult([t[0]], [], t[1..])) else None,
    (t: Text) => if |t| > 1 then Some(t[1..]) else None,
    (t: Text, pem: Text) => t != [] && pem == [t[0]])

  const ANYONE := Ctx([], [], [], true)

  /** The session of these runs. */
  const SID: Text := []

  /** What device 2 answers to an offer. */
  function OtherToken(challenge: Text): Text {
    [2] + challenge
  }

  /** From the empty store, an offer and a registration lead to a binding that a refresh can contest. */
  lemma ABindingIsReached() returns (run: seq<Action>, b: Binding, jwt: Text)
    ensures Begins(DEMO, 0, run, SID, b, jwt, ANYONE, 3) && AnotherDevice(DEMO, OtherToken, jwt)
  {
    var s := NEW_SESSION;
    assert Stands(DEMO, 0, [], SID, 0, 0, s);
    run, s := OffersMeanwhile(DEMO, 0, [], SID, 0, 0, s, 0, ANYONE, 1);
    var p := PendingRegistration([], Zeros(1), 0);
    var token: Text := [1] + Zeros(1);
    assert token[1..] == Zeros(1);
    run, s := RegistersMeanwhile(DEMO, 0, run, SID, 0, 3, s, 0, p, token, ANYONE, 2);
    b := NewBinding(p, DEMO.verifyRegistrationJwt(token).value, ANYONE, DrawAt(0, 6));
    jwt := [1] + b.challenge;
    assert jwt[1..] == b.challenge;
    OtherTokens();
  }

  lemma OtherTokens()
    ensures ADevice(DEMO, OtherToken)
    ensures forall t: Text :: t != [] && t[0] == 1 ==> AnotherDevice(DEMO, OtherToken, t)
  {
    forall c: Name
      ensures OtherToken(c)[1..] == c
    {}
  }

  /** From the empty store: a refresh that has lost two writes ends in 200. */
  lemma TwoLossesThenSuccess() returns (third: seq<Action>, won: seq<Action>, jwt: Text)
    ensures third <= won
    ensures InThirdAttempt(DEMO, 0, third, SID, jwt, ANYONE, 3) && EndedIn200(DEMO, 0, won, SID, jwt, ANYONE, 3)
  {
    var run, b;
    run, b, jwt := ABindingIsReached();
    third, won := ThirdAttemptMaySucceed(DEMO, 0, run, SID, b, jwt, ANYONE, 3);
  }

  /** From the empty store: a mismatch no instant explains, after a revocation and after another registration. */
  lemma UnexplainedMismatches() returns (revoked: seq<Action>, rebound: seq<Action>, jwt: Text)
    ensures Unexplained(DEMO, 0, revoked, SID, jwt, ANYONE, 3) && Current(Reached(DEMO, 0, revoked, SID)) == EMPTY
    ensures Unexplained(DEMO, 0, rebound, SID, jwt, ANYONE, 3) && Current(Reached(DEMO, 0, rebound, SID)).binding.Stored?
  {
    var run, b;
    run, b, jwt := ABindingIsReached();
    revoked := GivesUpOnARevocation(DEMO, 0, run, SID, b, jwt, ANYONE, 3);
    rebound := GivesUpOnARegistration(DEMO, 0, run, SID, b, jwt, ANYONE, 3, OtherToken);
  }

  /** From the empty store: a missing challenge no instant explains. */
  lemma UnexplainedMissingOffer() returns (outdated: seq<Action>, token: Text)
    ensures UnexplainedRegistration(DEMO, 0, outdated, SID, token, ANYONE, 2)
    ensures Current(Reached(DEMO, 0, outdated, SID)).offer.Stored?
  {
    OtherTokens();
    outdated, token := LosesItsOffer(DEMO, 0, [], SID, ANYONE, 0, OtherToken);
  }
}
