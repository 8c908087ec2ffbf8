/** The promises of the protocol, for every session in every run from an empty store. */
module Theorems {
  import opened Texts
  import opened Wrappers
  import opened Records
  import opened StoreContract
  import opened Server
  import opened Lineage
  import opened Machine
  import opened Invariant
  import opened Steps

  /** Session `sid` after the run. */
  ghost function Reached(env: Env, start: int, run: seq<Action>, sid: Text): Session
    requires IsRun(env, start, run)
  {
    SessionOf(After(env, start, run), sid)
  }

  /** `s` is what some run made of some session by the time the clock shows `now`. */
  ghost predicate Reachable(env: Env, now: int, s: Session) {
    exists start: int, run: seq<Action>, sid: Text :: ReachedBy(env, now, s, start, run, sid)
  }

  ghost predicate ReachedBy(env: Env, now: int, s: Session, start: int, run: seq<Action>, sid: Text) {
    IsRun(env, start, run) && After(env, start, run).now == now && Reached(env, start, run, sid) == s
  }

  lemma HistoryOf(env: Env, now: int, s: Session) returns (used: set<Text>)
    requires Reachable(env, now, s)
    ensures SessionInv(env, now, used, s)
  {
    var start: int, run: seq<Action>, sid: Text :| ReachedBy(env, now, s, start, run, sid);
    RunsKeepInv(env, start, run);
    SessionOfInv(env, After(env, start, run), sid);
    used := After(env, start, run).used;
  }

  lemma TraceOf(env: Env, now: int, s: Session)
    requires Reachable(env, now, s)
    ensures Traced(s) && Chain(env, s.versions)
    ensures s.versions != [] ==> s.versions[|s.versions| - 1].at <= now
  {
    var used := HistoryOf(env, now, s);
  }

  lemma CallOf(env: Env, now: int, s: Session, id: nat)
    requires Reachable(env, now, s) && id in s.calls
    ensures CallOk(env, now, s, id, s.calls[id])
  {
    var used := HistoryOf(env, now, s);
  }

  lemma OwnerOf(env: Env, now: int, s: Session, i: nat)
    requires Reachable(env, now, s) && 0 < i < |s.trace|
    ensures OwnedAt(s, i)
  {
    var used := HistoryOf(env, now, s);
  }

  /** Prefixes of a run are runs, and what they recorded is kept: the trace is what really happened. */
  lemma {:induction false} PrefixRecordsKept(env: Env, start: int, run: seq<Action>, k: nat, sid: Text)
    requires IsRun(env, start, run) && k <= |run|
    ensures IsRun(env, start, run[..k])
    ensures After(env, start, run[..k]).now <= After(env, start, run).now
    ensures Extends(Reached(env, start, run[..k], sid), After(env, start, run[..k]).now, Reached(env, start, run, sid))
    decreases |run|
  {
    if k == |run| {
      assert run[..k] == run;
    } else {
      var shorter := run[..|run| - 1];
      PrefixRecordsKept(env, start, shorter, k, sid);
      assert shorter[..k] == run[..k];
      RunsKeepInv(env, start, shorter);
      NextKeepsInv(env, After(env, start, shorter), run[|run| - 1]);
      ExtendsTransitively(Reached(env, start, run[..k], sid), After(env, start, run[..k]).now,
                          Reached(env, start, shorter, sid), After(env, start, shorter).now,
                          Reached(env, start, run, sid));
    }
  }

  // ---------------------------------------------------------------- linearizability

  /** The value at index `i` is decay, or exactly what one finished call does when run alone there. */
  ghost predicate SequentialStep(env: Env, s: Session, i: nat)
    requires 0 < i < |s.trace|
  {
    match s.trace[i].cause
    case Genesis => false
    case Environment =>
      && Degrades(s.trace[i - 1].store.offer, s.trace[i].store.offer)
      && Degrades(s.trace[i - 1].store.binding, s.trace[i].store.binding)
    case ByCall(id) =>
      && id in s.calls && Wrote(s.calls[id], i)
      && Atomically(env, s.calls[id].op, s.trace[i - 1].store, s.calls[id].pc.w.draw)
         == (s.trace[i].store, s.calls[id].pc.outcome)
  }

  lemma StepIsSequential(env: Env, now: int, s: Session, i: nat)
    requires Reachable(env, now, s) && 0 < i < |s.trace|
    ensures SequentialStep(env, s, i)
  {
    OwnerOf(env, now, s, i);
    if s.trace[i].cause.ByCall? {
      CallOf(env, now, s, s.trace[i].cause.id);
    }
  }

  /**
   * Every interleaving has the store effects and answers of a sequential run in which each call acts
   * at one instant inside its own duration, with clock samples taken inside its duration.
   */
  lemma Linearizable(env: Env, now: int, s: Session)
    requires Reachable(env, now, s)
    ensures s.trace[0].store == EMPTY
    ensures forall i :: 0 < i < |s.trace| ==> SequentialStep(env, s, i)
    ensures forall id :: id in s.calls && s.calls[id].pc.Done? ==> Explained(env, now, s, id, s.calls[id])
  {
    TraceOf(env, now, s);
    forall i | 0 < i < |s.trace|
      ensures SequentialStep(env, s, i)
    {
      StepIsSequential(env, now, s, i);
    }
    forall id | id in s.calls && s.calls[id].pc.Done?
      ensures Explained(env, now, s, id, s.calls[id])
    {
      CallOf(env, now, s, id);
    }
  }

  /** Finished calls stay as they are; calls not yet started begin at the trace's end or later. */
  lemma {:induction false} CallsPersist(env: Env, start: int, run: seq<Action>, k: nat, sid: Text, a: nat, b: nat)
    requires IsRun(env, start, run) && k <= |run| && IsRun(env, start, run[..k])
    ensures var s := Reached(env, start, run[..k], sid); var t := Reached(env, start, run, sid);
            && (a in s.calls && s.calls[a].pc.Done? ==> a in t.calls && t.calls[a] == s.calls[a])
            && (b !in s.calls && b in t.calls ==> t.calls[b].begun >= Here(s))
            && Here(s) <= Here(t)
    decreases |run|
  {
    if k == |run| {
      assert run[..k] == run;
    } else {
      var shorter := run[..|run| - 1];
      assert shorter[..k] == run[..k];
      CallsPersist(env, start, shorter, k, sid, a, b);
    }
  }

  /** The order of those instants respects real time: a call finished before another began precedes it. */
  lemma RealTimeOrder(env: Env, start: int, run: seq<Action>, k: nat, sid: Text, a: nat, b: nat)
    requires IsRun(env, start, run) && k <= |run| && IsRun(env, start, run[..k])
    requires var s := Reached(env, start, run[..k], sid); a in s.calls && s.calls[a].pc.Done? && b !in s.calls
    requires var t := Reached(env, start, run, sid); b in t.calls && t.calls[b].pc.Done?
    ensures var t := Reached(env, start, run, sid);
            && a in t.calls && t.calls[a] == Reached(env, start, run[..k], sid).calls[a]
            && t.calls[a].pc.w.at <= t.calls[b].pc.w.at
            && (Writes(t.calls[a].pc.outcome) && !t.calls[a].pc.w.contended ==> t.calls[a].pc.w.at < t.calls[b].pc.w.at)
  {
    var w, w' := After(env, start, run[..k]), After(env, start, run);
    var s, t := Reached(env, start, run[..k], sid), Reached(env, start, run, sid);
    CallsPersist(env, start, run, k, sid, a, b);
    assert ReachedBy(env, w.now, s, start, run[..k], sid);
    assert ReachedBy(env, w'.now, t, start, run, sid);
    CallOf(env, w.now, s, a);
    CallOf(env, w'.now, t, b);
  }

  /** A call that fails, or answers without a write, changes nothing, however it was interleaved. */
  lemma OnlySuccessWrites(env: Env, now: int, s: Session, id: nat, i: nat)
    requires Reachable(env, now, s) && 0 < i < |s.trace| && s.trace[i].cause == ByCall(id)
    ensures id in s.calls && s.calls[id].pc.Done? && Writes(s.calls[id].pc.outcome)
    ensures i == s.calls[id].pc.w.at + 1
  {
    OwnerOf(env, now, s, i);
  }

  // ---------------------------------------------------------------- no ABA

  /** A binding value seen at two instants was stored at every instant in between. */
  lemma NoAba(env: Env, now: int, s: Session, i: nat, k: nat, j: nat)
    requires Reachable(env, now, s) && i <= k <= j < |s.trace|
    requires s.trace[i].store.binding.Stored? && s.trace[i].store.binding == s.trace[j].store.binding
    ensures s.trace[k].store.binding == s.trace[i].store.binding
  {
    TraceOf(env, now, s);
    SameBindingSameVersion(env, s, i, j);
    Undisturbed(s, i, k);
    Undisturbed(s, k, j);
  }

  /** A conditional write that succeeds proves the cell held the value ever since it was read. */
  lemma SuccessMeansUntouched(env: Env, now: int, s: Session, id: nat, k: nat)
    requires Reachable(env, now, s) && id in s.calls && s.calls[id].pc.HoldsBinding?
    requires Current(s).binding == Stored(s.calls[id].pc.b)
    requires s.calls[id].pc.seen <= k < |s.trace|
    ensures s.trace[k].store.binding == Stored(s.calls[id].pc.b)
  {
    CallOf(env, now, s, id);
    NoAba(env, now, s, s.calls[id].pc.seen, k, Here(s));
  }

  /** One that fails proves that someone else wrote or removed the value since it was read. */
  lemma FailureMeansSomeoneElse(env: Env, now: int, s: Session, id: nat) returns (k: nat)
    requires Reachable(env, now, s) && id in s.calls && s.calls[id].pc.HoldsBinding?
    requires Current(s).binding != Stored(s.calls[id].pc.b)
    ensures s.calls[id].pc.seen < k < |s.trace| && s.trace[k].cause != ByCall(id)
    ensures s.trace[k - 1].store.binding == Stored(s.calls[id].pc.b) != s.trace[k].store.binding
  {
    var pc := s.calls[id].pc;
    CallOf(env, now, s, id);
    k := pc.seen + 1;
    while s.trace[k].store.binding == Stored(pc.b)
      invariant pc.seen < k <= Here(s) && s.trace[k - 1].store.binding == Stored(pc.b)
      decreases |s.trace| - k
    {
      k := k + 1;
    }
    OwnerOf(env, now, s, k);
  }

  // ---------------------------------------------------------------- the retry bound

  predicate RightUserAndSession(b: Binding, ctx: Ctx) {
    SameUser(b.userId, ctx.userId) && (ctx.sessionIdHeader == [] || ctx.sessionIdHeader == b.sessionIdentifier)
  }

  predicate SignedToken(env: Env, b: Binding, jwt: Text) {
    env.jtiOf(jwt).Some? && env.signedBy(jwt, b.publicKeyPem)
  }

  /** The registered key signed the token, and the request names the right user and session. */
  predicate Honest(env: Env, b: Binding, jwt: Text, ctx: Ctx) {
    RightUserAndSession(b, ctx) && SignedToken(env, b, jwt)
  }

  /** What the source calls a benign mismatch: an honest device, a live challenge, and another jti. */
  predicate Mismatched(env: Env, cell: Cell<Binding>, jwt: Text, ctx: Ctx, t1: int) {
    cell.Stored? && Honest(env, cell.value, jwt, ctx) && t1 - cell.value.challengeTime <= env.challengeTtlSeconds
  }

  /** Three bindings were written during a refresh that gave up, or two and a removal: its jti is dead. */
  lemma GivenUpIsDead(env: Env, now: int, s: Session, id: nat, j: nat)
    requires Reachable(env, now, s) && id in s.calls && s.calls[id].op.Refresh?
    requires s.calls[id].pc.Done? && s.calls[id].pc.w.contended && s.calls[id].pc.w.at <= j < |s.trace|
    ensures s.calls[id].begun <= j && s.trace[s.calls[id].begun].versions + 2 <= s.trace[j].versions
    ensures env.jtiOf(s.calls[id].op.jwt).Some?
    ensures s.trace[j].store.binding.Stored? ==>
              && s.trace[s.calls[id].begun].versions + 3 <= s.trace[j].versions
              && !s.trace[j].store.binding.value.Holds(env.jtiOf(s.calls[id].op.jwt).value)
  {
    CallOf(env, now, s, id);
    TraceOf(env, now, s);
    var call := s.calls[id];
    Undisturbed(s, call.pc.w.at, j);
    assert SnapOk(s, s.trace[j]);
    if s.trace[j].store.binding.Stored? {
      ThreeWritesKill(env, s.versions, call.pc.w.first.n - 1, s.trace[j].versions - 1, env.jtiOf(call.op.jwt).value);
    }
  }

  /** The refresh, run alone on what was stored at index `i` with these samples, answers a mismatch. */
  ghost predicate MismatchesAt(env: Env, s: Session, i: nat, jwt: Text, ctx: Ctx, t1: int, t2: int)
    requires i < |s.trace|
  {
    && Mismatched(env, s.trace[i].store.binding, jwt, ctx, t1)
    && 0 < s.trace[i].versions <= |s.versions|
    && !LiveMint(env, s.versions, s.trace[i].versions - 1, 0, env.jtiOf(jwt).value, t1)
    && !LiveMint(env, s.versions, s.trace[i].versions - 1, 1, env.jtiOf(jwt).value, t2)
  }

  /** A mismatch means an honest device, a live challenge, and a jti that is neither of the last two mints in time. */
  lemma MismatchExactly(env: Env, now: int, s: Session, i: nat, jwt: Text, ctx: Ctx, d: Draw)
    requires Reachable(env, now, s) && i < |s.trace| && d.t1 <= d.t2
    ensures Atomically(env, Op.Refresh(jwt, ctx), s.trace[i].store, d).1 == Failed(ChallengeMismatch)
            <==> MismatchesAt(env, s, i, jwt, ctx, d.t1, d.t2)
  {
    TraceOf(env, now, s);
    var x := s.trace[i];
    assert SnapOk(s, x);
    if x.store.binding.Stored? {
      Timing(env, s.versions, x.versions - 1);
      if Honest(env, x.store.binding.value, jwt, ctx) {
        AcceptedExactlyLastTwoMints(env, s.versions, x.versions - 1, jwt, ctx, d.t1, d.t2);
      }
    }
  }

  /** `d` takes its samples in order between `from` and `to`. */
  predicate SampledWithin(d: Draw, from: int, to: int) {
    from <= d.t1 <= d.t2 <= to
  }

  /** At an instant of the call, with samples between `from` and `to`, the operation run alone answers `o`. */
  ghost predicate Explains(env: Env, s: Session, call: Call, i: nat, d: Draw, from: int, to: int, o: Outcome)
    requires call.pc.Done?
  {
    && call.begun <= i <= call.pc.w.at && i < |s.trace| && SampledWithin(d, from, to)
    && Atomically(env, call.op, s.trace[i].store, d).1 == o
  }

  /** Some instant of the call explains its answer. */
  ghost predicate ExplainedDuring(env: Env, s: Session, call: Call, from: int, to: int)
    requires call.pc.Done?
  {
    exists i: nat, d: Draw :: Explains(env, s, call, i, d, from, to, call.pc.outcome)
  }

  /**
   * A refresh that gives up was right to: the jti of its token is in no slot of anything stored from
   * then on (`j`), so at that instant and at every later one it is refused whatever the clock. Its answer
   * is the sequential one there exactly when the device is honest to what is stored and the challenge is live,
   * and that of some instant of the whole call exactly when the device was mismatched at one.
   */
  lemma GivingUpIsRight(env: Env, now: int, s: Session, id: nat, j: nat)
    requires Reachable(env, now, s) && id in s.calls && s.calls[id].op.Refresh?
    requires s.calls[id].pc.Done? && s.calls[id].pc.w.contended && s.calls[id].pc.w.at <= j < |s.trace|
    ensures s.calls[id].pc.outcome == Failed(ChallengeMismatch)
    ensures s.calls[id].begun <= j && s.trace[s.calls[id].begun].versions + 2 <= s.trace[j].versions
    ensures RefusesAlways(env, s.calls[id].op, s.trace[j].store)
    ensures env.jtiOf(s.calls[id].op.jwt).Some?
    ensures s.trace[j].store.binding.Stored? ==>
              && s.trace[s.calls[id].begun].versions + 3 <= s.trace[j].versions
              && !s.trace[j].store.binding.value.Holds(env.jtiOf(s.calls[id].op.jwt).value)
    ensures forall d: Draw ::
              Atomically(env, s.calls[id].op, s.trace[j].store, d).1 == s.calls[id].pc.outcome
              <==> Mismatched(env, s.trace[j].store.binding, s.calls[id].op.jwt, s.calls[id].op.ctx, d.t1)
    ensures forall from: int, to: int ::
              ExplainedDuring(env, s, s.calls[id], from, to) <==> MismatchedDuring(env, s, s.calls[id], from, to)
  {
    GivenUpIsDead(env, now, s, id, j);
    CallOf(env, now, s, id);
    TraceOf(env, now, s);
    assert SnapOk(s, s.trace[j]);
    if s.trace[j].store.binding.Stored? {
      Timing(env, s.versions, s.trace[j].versions - 1);
    }
    GivingUpExplainedExactly(env, now, s, id);
  }

  /** At some instant of a refresh call its device was honest, its challenge live, and its jti no longer accepted. */
  ghost predicate MismatchedDuring(env: Env, s: Session, call: Call, from: int, to: int)
    requires call.op.Refresh? && call.pc.Done?
  {
    exists i: nat, t1: int, t2: int ::
      && call.begun <= i <= call.pc.w.at && i < |s.trace| && from <= t1 <= t2 <= to
      && MismatchesAt(env, s, i, call.op.jwt, call.op.ctx, t1, t2)
  }

  /** Some instant of the whole call explains its giving up exactly when its device was mismatched during it. */
  lemma GivingUpExplainedExactly(env: Env, now: int, s: Session, id: nat)
    requires Reachable(env, now, s) && id in s.calls && s.calls[id].op.Refresh?
    requires s.calls[id].pc.Done? && s.calls[id].pc.outcome == Failed(ChallengeMismatch)
    ensures forall from: int, to: int ::
              ExplainedDuring(env, s, s.calls[id], from, to) <==> MismatchedDuring(env, s, s.calls[id], from, to)
  {
    var call := s.calls[id];
    forall from: int, to: int
      ensures ExplainedDuring(env, s, call, from, to) <==> MismatchedDuring(env, s, call, from, to)
    {
      if i: nat, d: Draw :| Explains(env, s, call, i, d, from, to, call.pc.outcome) {
        MismatchExactly(env, now, s, i, call.op.jwt, call.op.ctx, d);
        assert MismatchesAt(env, s, i, call.op.jwt, call.op.ctx, d.t1, d.t2);
      }
      if i: nat, t1: int, t2: int :|
        && call.begun <= i <= call.pc.w.at && i < |s.trace| && from <= t1 <= t2 <= to
        && MismatchesAt(env, s, i, call.op.jwt, call.op.ctx, t1, t2)
      {
        var d := Draw(t1, t2, t2, t2, [], [], []);
        MismatchExactly(env, now, s, i, call.op.jwt, call.op.ctx, d);
        assert Explains(env, s, call, i, d, from, to, call.pc.outcome);
      }
    }
  }

  /**
   * A registration that lost its offer answers as the sequential one does at its instant exactly when no
   * offer is stored there, and at some instant of the call exactly when none was stored at some instant of it.
   */
  lemma LosingTheOfferMatchesExactly(env: Env, now: int, s: Session, id: nat)
    requires Reachable(env, now, s) && id in s.calls && s.calls[id].op.Register?
    requires s.calls[id].pc.Done? && s.calls[id].pc.w.contended
    ensures s.calls[id].begun <= s.calls[id].pc.w.at < |s.trace|
    ensures s.calls[id].pc.outcome == Failed(MissingChallenge)
    ensures RefusesAlways(env, s.calls[id].op, s.trace[s.calls[id].pc.w.at].store)
    ensures forall d: Draw ::
              Atomically(env, s.calls[id].op, s.trace[s.calls[id].pc.w.at].store, d).1 == s.calls[id].pc.outcome
              <==> s.trace[s.calls[id].pc.w.at].store.offer.Absent?
    ensures forall from: int, to: int :: from <= to ==>
              (ExplainedDuring(env, s, s.calls[id], from, to) <==> WithoutOfferDuring(s, s.calls[id]))
  {
    CallOf(env, now, s, id);
    var call := s.calls[id];
    forall from: int, to: int | from <= to
      ensures ExplainedDuring(env, s, call, from, to) <==> WithoutOfferDuring(s, call)
    {
      if i: nat :| call.begun <= i <= call.pc.w.at && i < |s.trace| && s.trace[i].store.offer.Absent? {
        assert Explains(env, s, call, i, Draw(from, from, from, from, [], [], []), from, to, call.pc.outcome);
      }
      if i: nat, d: Draw :| Explains(env, s, call, i, d, from, to, call.pc.outcome) {
        MissingMeansAbsent(env, s.trace[i].store, call.op.jwt, call.op.ctx, d);
      }
    }
  }

  lemma MissingMeansAbsent(env: Env, store: Store, jwt: Text, ctx: Ctx, d: Draw)
    ensures Atomically(env, Op.Register(jwt, ctx), store, d).1 == Failed(MissingChallenge) <==> store.offer.Absent?
  {}

  /** No offer was stored at some instant of the call. */
  ghost predicate WithoutOfferDuring(s: Session, call: Call)
    requires call.pc.Done?
  {
    exists i: nat :: call.begun <= i <= call.pc.w.at && i < |s.trace| && s.trace[i].store.offer.Absent?
  }

  // ---------------------------------------------------------------- the 403

  /** The challenge in a 403 was the stored current one at an instant inside the call. */
  lemma ChallengeWasCurrent(env: Env, now: int, s: Session, id: nat) returns (i: nat)
    requires Reachable(env, now, s) && id in s.calls && s.calls[id].op.Issue?
    requires s.calls[id].pc.Done? && s.calls[id].pc.outcome.Challenge403?
    ensures s.calls[id].begun <= i < |s.trace| && s.trace[i].store.binding.Stored?
    ensures s.trace[i].store.binding.value.challenge == s.calls[id].pc.outcome.challenge
    ensures s.trace[i].store.binding.value.sessionIdentifier == s.calls[id].pc.outcome.id
    ensures if s.calls[id].pc.w.contended then i == s.calls[id].pc.w.at else s.trace[i].cause == ByCall(id)
  {
    CallOf(env, now, s, id);
    i := if s.calls[id].pc.w.contended then s.calls[id].pc.w.at else s.calls[id].pc.w.at + 1;
  }

  /**
   * The unrotated fallback is still fresh. The call first found a binding at trace index `first.seen`, when
   * the clock showed `first.at`; three bindings have been written since, and unless one of them was a
   * registration, the challenge was minted no earlier than that read.
   */
  lemma FallbackIsFresh(env: Env, now: int, s: Session, id: nat)
    requires Reachable(env, now, s) && id in s.calls && s.calls[id].op.Issue?
    requires s.calls[id].pc.Done? && s.calls[id].pc.w.contended
    ensures s.calls[id].pc.w.at < |s.trace| && s.trace[s.calls[id].pc.w.at].store.binding.Stored?
    ensures var call := s.calls[id]; var first := call.pc.w.first; var x := s.trace[call.pc.w.at];
            && first.Mark? && call.begun <= first.seen < call.pc.w.at
            && s.trace[first.seen].store.binding.Stored? && s.trace[first.seen].versions == first.n
            && first.n + 3 <= x.versions <= |s.versions|
            && (forall k :: first.n <= k < |s.versions| ==> first.at <= s.versions[k].at)
            && call.beganAt <= first.at
            && ((forall k :: first.n <= k < x.versions ==> !s.versions[k].kind.Registration?) ==>
                  first.at <= x.store.binding.value.challengeTime)
  {
    CallOf(env, now, s, id);
    TraceOf(env, now, s);
    var first, x := s.calls[id].pc.w.first, s.trace[s.calls[id].pc.w.at];
    assert SnapOk(s, x);
    if s.calls[id].pc.w.at <= first.seen {
      Undisturbed(s, s.calls[id].pc.w.at, first.seen);
    }
    if forall k :: first.n <= k < x.versions ==> !s.versions[k].kind.Registration? {
      ThreeWritesRenew(env, s.versions, first.n - 1, x.versions - 1);
    }
  }

  // ---------------------------------------------------------------- single use

  /** Where the write of a call that wrote a binding stands in the history of versions. */
  lemma WriteOf(env: Env, now: int, s: Session, id: nat) returns (n: nat)
    requires Reachable(env, now, s) && id in s.calls && s.calls[id].pc.Done?
    requires var o := s.calls[id].pc.outcome; o.Refreshed? || o.Advertised? || o.Registered?
    ensures var at := s.calls[id].pc.w.at;
            && at + 1 < |s.trace| && s.trace[at].versions == n && s.trace[at + 1].versions == n + 1 <= |s.versions|
            && s.trace[at + 1].cause == ByCall(id)
            && s.trace[at + 1].store.binding == Stored(s.versions[n].b)
    ensures KindOf(env, s.calls[id].op, s.calls[id].pc.w.draw) == Some(s.versions[n].kind)
    ensures s.versions[n].b.sessionIdentifier == s.calls[id].pc.outcome.id
    ensures s.calls[id].pc.outcome.Refreshed? ==> s.calls[id].op.Refresh?
    ensures s.calls[id].pc.outcome.Advertised? ==> s.calls[id].op.Advertise?
    ensures s.calls[id].pc.outcome.Registered? ==> s.calls[id].op.Register?
  {
    CallOf(env, now, s, id);
    TraceOf(env, now, s);
    var at := s.calls[id].pc.w.at;
    n := s.trace[at].versions;
    assert SnapOk(s, s.trace[at + 1]);
  }

  /** Writes of different calls are different versions, in the order of their instants. */
  lemma VersionsInOrder(env: Env, now: int, s: Session, i: nat, j: nat)
    requires Reachable(env, now, s) && i < j < |s.trace|
    ensures s.trace[i + 1].versions <= s.trace[j].versions
  {
    TraceOf(env, now, s);
    Undisturbed(s, i + 1, j);
  }

  /** No two successful refreshes of one session proved the same challenge. */
  lemma SpentOnceInSession(env: Env, now: int, s: Session, a: nat, b: nat)
    requires Reachable(env, now, s) && a in s.calls && b in s.calls && a != b
    requires s.calls[a].pc.Done? && s.calls[a].pc.outcome.Refreshed?
    requires s.calls[b].pc.Done? && s.calls[b].pc.outcome.Refreshed?
    ensures s.calls[a].op.Refresh? && s.calls[b].op.Refresh?
    ensures env.jtiOf(s.calls[a].op.jwt) != env.jtiOf(s.calls[b].op.jwt)
  {
    var m := WriteOf(env, now, s, a);
    var n := WriteOf(env, now, s, b);
    TraceOf(env, now, s);
    var i, j := s.calls[a].pc.w.at, s.calls[b].pc.w.at;
    if env.jtiOf(s.calls[a].op.jwt) == env.jtiOf(s.calls[b].op.jwt) {
      SingleSpend(env, s.versions, m, n);
      if i < j {
        VersionsInOrder(env, now, s, i, j);
      } else {
        VersionsInOrder(env, now, s, j, i);
      }
    }
  }

  /** The seed is delivered at most once per lineage, and never after a refresh of it has landed. */
  lemma SeedAdvertisedOnce(env: Env, now: int, s: Session, a: nat, b: nat)
    requires Reachable(env, now, s) && a in s.calls && b in s.calls
    requires s.calls[a].pc.Done? && (s.calls[a].pc.outcome.Advertised? || s.calls[a].pc.outcome.Refreshed?)
    requires s.calls[b].pc.Done? && s.calls[b].pc.outcome.Advertised?
    requires s.calls[a].pc.w.at < s.calls[b].pc.w.at
    ensures s.calls[a].pc.outcome.id != s.calls[b].pc.outcome.id
  {
    var m := WriteOf(env, now, s, a);
    var n := WriteOf(env, now, s, b);
    TraceOf(env, now, s);
    VersionsInOrder(env, now, s, s.calls[a].pc.w.at, s.calls[b].pc.w.at);
    if s.calls[a].pc.outcome.Refreshed? {
      NotAdvertisedAfterRefresh(env, s.versions, m, n);
    } else {
      AdvertisedOnce(env, s.versions, m, n);
    }
  }

  /**
   * Advertising, with whatever binding it was passed, changes the stored binding in its flag only, and
   * only when that is the session's own unrefreshed binding with a challenge still live.
   */
  lemma AdvertisingOnlyMarks(env: Env, now: int, s: Session, id: nat, i: nat)
    requires Reachable(env, now, s) && 0 < i < |s.trace|
    requires s.trace[i].cause == ByCall(id) && id in s.calls && s.calls[id].op.Advertise?
    ensures s.trace[i].store.offer == s.trace[i - 1].store.offer
    ensures s.trace[i - 1].store.binding == Stored(s.calls[id].op.held)
    ensures var held := s.calls[id].op.held;
            && !held.challengeAdvertised && !held.hasRefreshed && SameUser(held.userId, s.calls[id].op.ctx.userId)
            && s.trace[i].store.binding == Stored(held.(challengeAdvertised := true))
            && s.calls[id].beganAt <= held.challengeTime + env.challengeTtlSeconds
  {
    StepIsSequential(env, now, s, i);
    CallOf(env, now, s, id);
  }

  // ---------------------------------------------------------------- offers and revocation

  /** An offer that left its cell never comes back. */
  lemma GoneOfferStaysGone(env: Env, now: int, s: Session, i: nat, j: nat, k: nat)
    requires Reachable(env, now, s) && i <= j <= k < |s.trace|
    requires s.trace[i].store.offer.Stored? && s.trace[j].store.offer != s.trace[i].store.offer
    ensures s.trace[k].store.offer != s.trace[i].store.offer
  {
    var used := HistoryOf(env, now, s);
    Undisturbed(s, i, j);
    Undisturbed(s, j, k);
    assert SnapOk(s, s.trace[i]) && SnapOk(s, s.trace[k]);
  }

  /** An offer call stores exactly the offer whose challenge it prints, and touches nothing else. */
  lemma OfferIsStored(env: Env, now: int, s: Session, id: nat)
    requires Reachable(env, now, s) && id in s.calls && s.calls[id].pc.Done? && s.calls[id].pc.outcome.Offered?
    ensures var at := s.calls[id].pc.w.at;
            && s.calls[id].begun <= at && at + 1 < |s.trace| && s.calls[id].op.Offer?
            && s.trace[at + 1].store.binding == s.trace[at].store.binding
            && s.trace[at + 1].store.offer.Stored?
            && var p := s.trace[at + 1].store.offer.value;
            && p.regChallenge == s.calls[id].pc.outcome.challenge && p.userId == s.calls[id].op.ctx.userId
            && s.calls[id].beganAt <= p.regChallengeTime <= now
  {
    CallOf(env, now, s, id);
  }

  /**
   * A successful registration consumes the live offer its token signed, made to the same user and
   * unexpired, and binds the key the token proved; whatever binding was there before is replaced.
   */
  lemma RegistrationBindsTheDevice(env: Env, now: int, s: Session, id: nat)
    requires Reachable(env, now, s) && id in s.calls && s.calls[id].pc.Done? && s.calls[id].pc.outcome.Registered?
    ensures var at := s.calls[id].pc.w.at;
            && s.calls[id].begun <= at && at + 1 < |s.trace| && s.calls[id].op.Register?
            && s.trace[at].store.offer.Stored? && s.trace[at + 1].store.offer.Absent?
            && s.trace[at + 1].store.binding.Stored?
            && env.verifyRegistrationJwt(s.calls[id].op.jwt).Some?
            && var p := s.trace[at].store.offer.value; var b := s.trace[at + 1].store.binding.value;
            && var proved := env.verifyRegistrationJwt(s.calls[id].op.jwt).value;
            && proved.challenge == p.regChallenge
            && b.publicKeyPem == proved.publicKeyPem && b.algorithm == proved.algorithm
            && SameUser(b.userId, s.calls[id].op.ctx.userId) && (p.userId != [] ==> b.userId == p.userId)
            && (p.userId == [] ==> b.userId == s.calls[id].op.ctx.userId)
            && s.calls[id].beganAt <= b.createdAt <= now
            && s.calls[id].pc.outcome.id == b.sessionIdentifier && s.calls[id].pc.outcome.cookie == b.cookieValue
            && b.createdAt <= s.calls[id].pc.w.draw.after
            && s.calls[id].pc.outcome.expiresAt == s.calls[id].pc.w.draw.after + env.cookieMaxAgeSeconds
            && s.calls[id].beganAt <= s.calls[id].pc.w.draw.t1 <= p.regChallengeTime + env.challengeTtlSeconds
  {
    CallOf(env, now, s, id);
  }

  /** Revoking erases both records, whatever they were. */
  lemma RevokeErasesBoth(env: Env, now: int, s: Session, id: nat)
    requires Reachable(env, now, s) && id in s.calls && s.calls[id].op.Revoke? && s.calls[id].pc.Done?
    ensures s.calls[id].pc.outcome.Revoked?
    ensures s.calls[id].begun <= s.calls[id].pc.w.at && s.calls[id].pc.w.at + 1 < |s.trace|
    ensures s.trace[s.calls[id].pc.w.at + 1].store == EMPTY
  {
    CallOf(env, now, s, id);
  }

  /** Two successful registrations consumed two different offers. */
  lemma OneOfferOneBinding(env: Env, now: int, s: Session, a: nat, b: nat)
    requires Reachable(env, now, s) && a in s.calls && b in s.calls && a != b
    requires s.calls[a].pc.Done? && s.calls[a].pc.outcome.Registered?
    requires s.calls[b].pc.Done? && s.calls[b].pc.outcome.Registered?
    ensures s.calls[a].pc.w.at < |s.trace| && s.calls[b].pc.w.at < |s.trace|
    ensures s.trace[s.calls[a].pc.w.at].store.offer.Stored? && s.trace[s.calls[b].pc.w.at].store.offer.Stored?
    ensures s.trace[s.calls[a].pc.w.at].store.offer != s.trace[s.calls[b].pc.w.at].store.offer
  {
    CallOf(env, now, s, a);
    CallOf(env, now, s, b);
    var i, j := s.calls[a].pc.w.at, s.calls[b].pc.w.at;
    assert s.trace[i + 1].cause == ByCall(a) && s.trace[j + 1].cause == ByCall(b);
    if i < j {
      GoneOfferStaysGone(env, now, s, i, i + 1, j);
    } else {
      GoneOfferStaysGone(env, now, s, j, j + 1, i);
    }
  }

  /** An offer found where none was before was put in between. */
  lemma OfferWasPut(env: Env, now: int, s: Session, i: nat, k: nat) returns (m: nat)
    requires Reachable(env, now, s) && i <= k < |s.trace|
    requires !s.trace[i].store.offer.Stored? && s.trace[k].store.offer.Stored?
    ensures i < m <= k && s.trace[m].store.offer == s.trace[k].store.offer
    ensures s.trace[m].cause.ByCall? && s.trace[m].cause.id in s.calls && s.calls[s.trace[m].cause.id].op.Offer?
  {
    m := k;
    while s.trace[m - 1].store.offer == s.trace[k].store.offer
      invariant i < m <= k && s.trace[m].store.offer == s.trace[k].store.offer
      decreases m
    {
      m := m - 1;
    }
    StepIsSequential(env, now, s, m);
  }

  /** A binding found where none was before was registered in between. */
  lemma BindingWasRegistered(env: Env, now: int, s: Session, i: nat, k: nat) returns (r: nat)
    requires Reachable(env, now, s) && i <= k < |s.trace|
    requires !s.trace[i].store.binding.Stored? && s.trace[k].store.binding.Stored?
    ensures i < r <= k && s.trace[r - 1].store.offer.Stored?
    ensures s.trace[r].cause.ByCall? && s.trace[r].cause.id in s.calls && s.calls[s.trace[r].cause.id].op.Register?
  {
    r := k;
    while s.trace[r - 1].store.binding.Stored?
      invariant i < r <= k && s.trace[r].store.binding.Stored?
      decreases r
    {
      r := r - 1;
    }
    StepIsSequential(env, now, s, r);
  }

  /**
   * Revocation is final: a binding that appears after it comes from a registration (at `r`) that
   * consumed an offer stored (at `m`) after the revocation.
   */
  lemma RevocationIsFinal(env: Env, now: int, s: Session, i: nat, k: nat) returns (m: nat, r: nat)
    requires Reachable(env, now, s) && i < k < |s.trace|
    requires s.trace[i].store == EMPTY && s.trace[k].store.binding.Stored?
    ensures i < m < r <= k
    ensures s.trace[m].cause.ByCall? && s.trace[m].cause.id in s.calls && s.calls[s.trace[m].cause.id].op.Offer?
    ensures s.trace[r].cause.ByCall? && s.trace[r].cause.id in s.calls && s.calls[s.trace[r].cause.id].op.Register?
    ensures s.trace[m].store.offer.Stored? && s.trace[r - 1].store.offer == s.trace[m].store.offer
  {
    r := BindingWasRegistered(env, now, s, i, k);
    m := OfferWasPut(env, now, s, i, r - 1);
  }

  /** A registration whose offer is gone can only fail. */
  lemma SupersededStepFails(env: Env, now: int, s: Session, call: Call, d: Draw)
    requires call.op.Register? && call.pc.HoldsOffer? && Current(s).offer != Stored(call.pc.pending)
    ensures var (w, pc) := Advance(env, now, s, call, d); w.None? && pc.Done? && pc.outcome.Failed?
  {}

  /**
   * A registration in flight whose offer was withdrawn, replaced or consumed ends without a binding:
   * a newer offer, a logout, and the first of two racing registrations always win.
   */
  lemma {:induction false} SupersededRegistrationLoses(env: Env, start: int, run: seq<Action>, k: nat, sid: Text, id: nat)
    requires IsRun(env, start, run) && k <= |run| && IsRun(env, start, run[..k])
    requires var s := Reached(env, start, run[..k], sid);
             && id in s.calls && s.calls[id].op.Register? && s.calls[id].pc.HoldsOffer?
             && Current(s).offer != Stored(s.calls[id].pc.pending)
    ensures var s := Reached(env, start, run[..k], sid); var t := Reached(env, start, run, sid);
            && id in t.calls && t.calls[id].op == s.calls[id].op
            && (t.calls[id].pc == s.calls[id].pc || (t.calls[id].pc.Done? && t.calls[id].pc.outcome.Failed?))
    decreases |run|
  {
    if k == |run| {
      assert run[..k] == run;
    } else {
      var shorter := run[..|run| - 1];
      assert shorter[..k] == run[..k];
      SupersededRegistrationLoses(env, start, shorter, k, sid, id);
      SupersededStays(env, start, shorter, k, sid, id);
      var t := Reached(env, start, shorter, sid);
      var a := run[|run| - 1];
      if a.Run? && a.sid == sid && a.id == id {
        SupersededStepFails(env, After(env, start, shorter).now, t, t.calls[id], a.d);
      }
    }
  }

  lemma SupersededStays(env: Env, start: int, run: seq<Action>, k: nat, sid: Text, id: nat)
    requires IsRun(env, start, run) && k <= |run| && IsRun(env, start, run[..k])
    requires var s := Reached(env, start, run[..k], sid);
             && id in s.calls && s.calls[id].pc.HoldsOffer? && Current(s).offer != Stored(s.calls[id].pc.pending)
    ensures Current(Reached(env, start, run, sid)).offer != Stored(Reached(env, start, run[..k], sid).calls[id].pc.pending)
  {
    var s, t := Reached(env, start, run[..k], sid), Reached(env, start, run, sid);
    var w, w' := After(env, start, run[..k]), After(env, start, run);
    assert ReachedBy(env, w.now, s, start, run[..k], sid);
    assert ReachedBy(env, w'.now, t, start, run, sid);
    CallOf(env, w.now, s, id);
    PrefixRecordsKept(env, start, run, k, sid);
    GoneOfferStaysGone(env, w'.now, t, s.calls[id].pc.seen, Here(s), Here(t));
  }

  // ---------------------------------------------------------------- the honest device

  /** While a binding of its key stays stored, an honest refresh ends in 200 or a retryable error. */
  lemma HonestDeviceIsNeverTerminated(env: Env, now: int, s: Session, id: nat)
    requires Reachable(env, now, s) && id in s.calls && s.calls[id].op.Refresh? && s.calls[id].pc.Done?
    requires forall l :: s.calls[id].begun <= l <= s.calls[id].pc.w.at && l < |s.trace| ==>
               && s.trace[l].store.binding.Stored?
               && Honest(env, s.trace[l].store.binding.value, s.calls[id].op.jwt, s.calls[id].op.ctx)
    ensures var o := s.calls[id].pc.outcome; o.Refreshed? || (o.Failed? && o.error.Retryable())
  {
    CallOf(env, now, s, id);
    assert s.trace[s.calls[id].pc.w.at].store.binding.Stored?;
  }

  /**
   * A refresh ends the session exactly when, at its instant, there is no readable binding, the request
   * names another user or session, or the token is not the registered key's while the challenge is live;
   * never for having lost its conditional writes, and never before the challenge's age is checked.
   */
  lemma RefreshTerminatesExactly(env: Env, now: int, s: Session, id: nat)
    requires Reachable(env, now, s) && id in s.calls && s.calls[id].op.Refresh? && s.calls[id].pc.Done?
    ensures s.calls[id].begun <= s.calls[id].pc.w.at < |s.trace|
    ensures var call := s.calls[id]; var cell := s.trace[call.pc.w.at].store.binding;
            (call.pc.outcome.Failed? && !call.pc.outcome.error.Retryable()) <==>
              && !call.pc.w.contended
              && (|| !cell.Stored?
                  || !RightUserAndSession(cell.value, call.op.ctx)
                  || (!SignedToken(env, cell.value, call.op.jwt)
                      && call.pc.w.draw.t1 - cell.value.challengeTime <= env.challengeTtlSeconds))
  {
    CallOf(env, now, s, id);
    TraceOf(env, now, s);
    assert SnapOk(s, s.trace[s.calls[id].pc.w.at]);
    if s.trace[s.calls[id].pc.w.at].store.binding.Stored? {
      Timing(env, s.versions, s.trace[s.calls[id].pc.w.at].versions - 1);
    }
  }

  /** The stored binding stays one the device is honest to for as long as its lineage does. */
  lemma HonestThroughoutLineage(env: Env, now: int, s: Session, i: nat, j: nat, jwt: Text, ctx: Ctx)
    requires Reachable(env, now, s) && i <= j < |s.trace|
    requires s.trace[i].store.binding.Stored? && s.trace[j].store.binding.Stored?
    requires s.trace[i].store.binding.value.sessionIdentifier == s.trace[j].store.binding.value.sessionIdentifier
    ensures Honest(env, s.trace[i].store.binding.value, jwt, ctx) == Honest(env, s.trace[j].store.binding.value, jwt, ctx)
  {
    TraceOf(env, now, s);
    Undisturbed(s, i, j);
    assert SnapOk(s, s.trace[i]) && SnapOk(s, s.trace[j]);
    LineageKeeps(env, s.versions, s.trace[i].versions - 1, s.trace[j].versions - 1);
  }

  /** The binding `b` stays stored, untouched, from the call's start to the instant it acts. */
  ghost predicate Quiet(s: Session, call: Call, b: Binding)
    requires call.pc.Done?
  {
    forall l :: call.begun <= l <= call.pc.w.at && l < |s.trace| ==> s.trace[l].store.binding == Stored(b)
  }

  /**
   * An honest refresh ends in 200 when it presents the challenge that version `m` minted, in time, with
   * no refresh and at most one further rotation (version `r`) since, and nothing is written meanwhile.
   */
  lemma HonestDeviceSucceeds(env: Env, now: int, s: Session, id: nat, n: nat, m: nat, r: nat)
    requires env.Valid() && Reachable(env, now, s)
    requires id in s.calls && s.calls[id].op.Refresh? && s.calls[id].pc.Done?
    requires m <= n < |s.versions| && Quiet(s, s.calls[id], s.versions[n].b)
    requires Honest(env, s.versions[n].b, s.calls[id].op.jwt, s.calls[id].op.ctx)
    requires env.jtiOf(s.calls[id].op.jwt).value == s.versions[m].b.challenge
    requires s.calls[id].pc.w.draw.t2 - s.versions[m].b.challengeTime <= env.challengeTtlSeconds
    requires forall k :: m < k <= n ==> s.versions[k].kind.Advertisement? || (s.versions[k].kind.Rotation? && k == r)
    ensures s.calls[id].pc.outcome.Refreshed?
  {
    CallOf(env, now, s, id);
    TraceOf(env, now, s);
    OutlivesOneRotation(env, s.versions, m, r, n);
    Timing(env, s.versions, n);
    Timing(env, s.versions, m);
    assert CheckProof(env, s.versions[n].b, s.calls[id].op.jwt, s.calls[id].op.ctx,
                      s.calls[id].pc.w.draw.t1, s.calls[id].pc.w.draw.t2).None?;
    if s.calls[id].pc.w.contended {
      QuietMeansUncontended(env, now, s, id, s.versions[n].b);
    }
  }

  lemma QuietMeansUncontended(env: Env, now: int, s: Session, id: nat, b: Binding)
    requires Reachable(env, now, s) && id in s.calls && s.calls[id].op.Refresh? && s.calls[id].pc.Done?
    requires Quiet(s, s.calls[id], b)
    ensures !s.calls[id].pc.w.contended
  {
    CallOf(env, now, s, id);
    TraceOf(env, now, s);
    assert s.trace[s.calls[id].begun].store.binding == s.trace[s.calls[id].pc.w.at].store.binding == Stored(b);
    SameBindingSameVersion(env, s, s.calls[id].begun, s.calls[id].pc.w.at);
  }

  /**
   * A refresh by an honest device ends in 200 exactly when its jti is one of the last two challenges
   * minted since the registration or the last refresh, within its own TTL, at the instant it acts.
   */
  lemma RefreshDecidesByMints(env: Env, now: int, s: Session, id: nat)
    requires Reachable(env, now, s) && id in s.calls && s.calls[id].op.Refresh? && s.calls[id].pc.Done?
    requires s.calls[id].pc.w.at < |s.trace| && s.trace[s.calls[id].pc.w.at].store.binding.Stored?
    requires Honest(env, s.trace[s.calls[id].pc.w.at].store.binding.value, s.calls[id].op.jwt, s.calls[id].op.ctx)
    ensures 0 < s.trace[s.calls[id].pc.w.at].versions <= |s.versions|
    ensures var n := s.trace[s.calls[id].pc.w.at].versions - 1; var d := s.calls[id].pc.w.draw;
            var jti := env.jtiOf(s.calls[id].op.jwt).value;
            s.calls[id].pc.outcome.Refreshed? <==>
              LiveMint(env, s.versions, n, 0, jti, d.t1) || LiveMint(env, s.versions, n, 1, jti, d.t2)
  {
    CallOf(env, now, s, id);
    TraceOf(env, now, s);
    var call := s.calls[id];
    var x := s.trace[call.pc.w.at];
    assert SnapOk(s, x);
    AcceptedExactlyLastTwoMints(env, s.versions, x.versions - 1, call.op.jwt, call.op.ctx, call.pc.w.draw.t1, call.pc.w.draw.t2);
    assert call.pc.w.contended ==> Atomically(env, call.op, x.store, call.pc.w.draw).1.Failed?;
  }

  // ---------------------------------------------------------------- the bound key

  /** The trace index at which version `m` was written. */
  lemma {:induction false} WhereWritten(s: Session, m: nat, j: nat) returns (i: nat)
    requires Traced(s) && j < |s.trace| && m < s.trace[j].versions
    ensures 0 < i <= j && s.trace[i].versions == m + 1 && s.trace[i - 1].versions == m
    ensures s.trace[i].store.binding.Stored?
    decreases j
  {
    assert SnapStep(s.trace[j - 1], s.trace[j]);
    if m < s.trace[j - 1].versions {
      i := WhereWritten(s, m, j - 1);
    } else {
      i := j;
    }
  }

  /** A version of the history was written by a call whose operation writes such a version. */
  lemma WriterOf(env: Env, now: int, s: Session, m: nat) returns (r: nat)
    requires Reachable(env, now, s) && m < |s.versions|
    ensures r in s.calls && s.calls[r].pc.Done? && Writes(s.calls[r].pc.outcome) && !s.calls[r].pc.w.contended
    ensures s.calls[r].pc.w.at + 1 < |s.trace| && s.trace[s.calls[r].pc.w.at].versions == m
    ensures s.trace[s.calls[r].pc.w.at + 1].store.binding == Stored(s.versions[m].b)
    ensures KindOf(env, s.calls[r].op, s.calls[r].pc.w.draw) == Some(s.versions[m].kind)
    ensures s.versions[m].kind.Registration? ==> s.calls[r].op.Register? && s.calls[r].pc.outcome.Registered?
  {
    TraceOf(env, now, s);
    var i := WhereWritten(s, m, Here(s));
    assert SnapOk(s, s.trace[i]) && SnapOk(s, s.trace[i - 1]);
    if s.trace[i - 1].store.binding == s.trace[i].store.binding {
      NoVersionTwice(env, s.versions, m - 1, m);
    }
    OwnerOf(env, now, s, i);
    r := s.trace[i].cause.id;
    CallOf(env, now, s, r);
  }

  /**
   * Every refresh that ends in 200 carries a token signed under the key that the token of its lineage's
   * own registration proved: an earlier, successful registration that was told the same session id.
   */
  lemma RefreshProvesTheRegisteredKey(env: Env, now: int, s: Session, id: nat) returns (r: nat)
    requires Reachable(env, now, s) && id in s.calls && s.calls[id].pc.Done? && s.calls[id].pc.outcome.Refreshed?
    ensures s.calls[id].op.Refresh?
    ensures r in s.calls && s.calls[r].op.Register? && s.calls[r].pc.Done? && s.calls[r].pc.outcome.Registered?
    ensures s.calls[r].pc.w.at < s.calls[id].pc.w.at && s.calls[r].pc.outcome.id == s.calls[id].pc.outcome.id
    ensures env.verifyRegistrationJwt(s.calls[r].op.jwt).Some?
    ensures env.signedBy(s.calls[id].op.jwt, env.verifyRegistrationJwt(s.calls[r].op.jwt).value.publicKeyPem)
  {
    var n := WriteOf(env, now, s, id);
    TraceOf(env, now, s);
    CallOf(env, now, s, id);
    assert SnapOk(s, s.trace[s.calls[id].pc.w.at]);
    var m := LineageBegins(env, s.versions, n - 1);
    r := WriterOf(env, now, s, m);
    RegistrationBindsTheDevice(env, now, s, r);
    LineageKeeps(env, s.versions, m, n - 1);
    if s.calls[id].pc.w.at <= s.calls[r].pc.w.at {
      Undisturbed(s, s.calls[id].pc.w.at, s.calls[r].pc.w.at);
    }
  }

  // ---------------------------------------------------------------- the gate

  /**
   * The gate lets a session without a binding degrade, fails on an unreadable one, and of a stored one admits a
   * subresource within the registration grace, and from a matching user the newest cookie the lineage issued,
   * or the second newest before its own expiry. Nothing else.
   */
  lemma GateDecidesByIssuance(env: Env, now: int, s: Session, id: nat)
    requires Reachable(env, now, s) && id in s.calls && s.calls[id].op.Gate? && s.calls[id].pc.Done?
    ensures s.calls[id].begun <= s.calls[id].pc.w.at < |s.trace|
    ensures var o, cell := s.calls[id].pc.outcome, s.trace[s.calls[id].pc.w.at].store.binding;
            && (o == Unbound <==> cell.Absent?)
            && (o == Failed(CorruptState) <==> cell.Unreadable?)
            && (o == Admitted || o == Refused <==> cell.Stored?)
    ensures s.trace[s.calls[id].pc.w.at].store.binding.Stored? ==>
              0 < s.trace[s.calls[id].pc.w.at].versions <= |s.versions| &&
              var n := s.trace[s.calls[id].pc.w.at].versions - 1; var cs := Issues(s.versions, n);
              var ctx, d := s.calls[id].op.ctx, s.calls[id].pc.w.draw;
              && s.trace[s.calls[id].pc.w.at].store.binding.value == s.versions[n].b
              && (s.calls[id].pc.outcome == Admitted <==>
                    || (!ctx.isDocument && d.t1 < s.versions[n].b.createdAt + env.registrationGraceSeconds)
                    || (&& (s.versions[n].b.userId == [] || ctx.userId == [] || s.versions[n].b.userId == ctx.userId)
                        && (|| ctx.cookie == cs[0].0
                            || (|cs| > 1 && ctx.cookie == cs[1].0 && d.t2 < cs[1].1 + env.cookieMaxAgeSeconds))))
  {
    CallOf(env, now, s, id);
    TraceOf(env, now, s);
    var call := s.calls[id];
    var x := s.trace[call.pc.w.at];
    assert SnapOk(s, x);
    if x.store.binding.Stored? && SameUser(s.versions[x.versions - 1].b.userId, call.op.ctx.userId) {
      CookieExactlyLastTwoIssued(env, s.versions, x.versions - 1, call.op.ctx, call.pc.w.draw.t2);
    }
  }

  /** A record that exists but cannot be read never lets anyone through, and never counts as absent. */
  lemma UnreadableFailsClosed(env: Env, now: int, s: Session, id: nat)
    requires Reachable(env, now, s) && id in s.calls && s.calls[id].pc.Done?
    requires s.calls[id].op.Gate? || s.calls[id].op.Issue? || s.calls[id].op.Refresh?
    requires forall l :: s.calls[id].begun <= l <= s.calls[id].pc.w.at && l < |s.trace| ==>
               s.trace[l].store.binding.Unreadable?
    ensures s.calls[id].pc.outcome == Failed(CorruptState)
  {
    CallOf(env, now, s, id);
    TraceOf(env, now, s);
    assert s.trace[s.calls[id].pc.w.at].store.binding.Unreadable?;
    UnreadableIsNotRewritten(s, s.calls[id].begun, s.calls[id].pc.w.at);
  }

  lemma {:induction false} UnreadableIsNotRewritten(s: Session, i: nat, j: nat)
    requires Traced(s) && i <= j < |s.trace|
    requires forall l :: i <= l <= j ==> !s.trace[l].store.binding.Stored?
    ensures s.trace[i].versions == s.trace[j].versions
    decreases j
  {
    if i < j {
      UnreadableIsNotRewritten(s, i, j - 1);
      assert SnapStep(s.trace[j - 1], s.trace[j]);
    }
  }

  // ---------------------------------------------------------------- timing

  /** The timestamps of every binding ever stored. */
  lemma TimingOfEveryBinding(env: Env, now: int, s: Session, i: nat)
    requires Reachable(env, now, s) && i < |s.trace| && s.trace[i].store.binding.Stored?
    ensures var b := s.trace[i].store.binding.value;
            && b.createdAt <= b.cookieIssuedAt <= b.challengeTime <= now
            && (b.previousChallenge != [] ==> b.cookieIssuedAt <= b.previousChallengeTime <= b.challengeTime)
            && (b.previousCookieValue != [] ==> b.previousCookieExpiresAt <= b.cookieIssuedAt + env.cookieMaxAgeSeconds)
  {
    TraceOf(env, now, s);
    assert SnapOk(s, s.trace[i]);
    Timing(env, s.versions, s.trace[i].versions - 1);
    WrittenInOrder(env, s.versions, s.trace[i].versions - 1, |s.versions| - 1);
  }

  /** A refresh never fails for want of a challenge, and as expired only once the stored cookie has. */
  lemma ExpiresOnlyAfterItsCookie(env: Env, now: int, s: Session, id: nat)
    requires env.Valid() && Reachable(env, now, s)
    requires id in s.calls && s.calls[id].op.Refresh? && s.calls[id].pc.Done?
    ensures s.calls[id].pc.outcome != Failed(MissingChallenge)
    ensures s.calls[id].pc.outcome == Failed(ChallengeExpired) ==>
              && s.calls[id].begun <= s.calls[id].pc.w.at < |s.trace|
              && s.trace[s.calls[id].pc.w.at].store.binding.Stored?
              && s.trace[s.calls[id].pc.w.at].store.binding.value.cookieIssuedAt + env.cookieMaxAgeSeconds < s.calls[id].pc.w.draw.t1
  {
    CallOf(env, now, s, id);
    TraceOf(env, now, s);
    var call := s.calls[id];
    var x := s.trace[call.pc.w.at];
    assert SnapOk(s, x);
    if x.store.binding.Stored? && call.pc.w.draw.t1 - x.store.binding.value.cookieIssuedAt <= env.cookieMaxAgeSeconds {
      NeverExpiresBeforeItsCookie(env, s.versions, x.versions - 1, call.op.jwt, call.op.ctx, call.pc.w.draw.t1, call.pc.w.draw.t2);
    }
    if x.store.binding.Stored? {
      Timing(env, s.versions, x.versions - 1);
    }
  }

  /** The cookie a refresh emits expires a max age after the clock sample taken behind its write. */
  lemma EmittedCookieOutlivesRecord(env: Env, now: int, s: Session, id: nat)
    requires Reachable(env, now, s) && id in s.calls
    requires s.calls[id].pc.Done? && s.calls[id].pc.outcome.Refreshed?
    ensures s.calls[id].pc.w.at + 1 < |s.trace| && s.trace[s.calls[id].pc.w.at + 1].store.binding.Stored?
    ensures var b := s.trace[s.calls[id].pc.w.at + 1].store.binding.value;
            && b.cookieValue == s.calls[id].pc.outcome.cookie && b.challenge == s.calls[id].pc.outcome.challenge
            && b.cookieIssuedAt <= s.calls[id].pc.w.draw.after
            && s.calls[id].pc.outcome.expiresAt == s.calls[id].pc.w.draw.after + env.cookieMaxAgeSeconds
  {
    CallOf(env, now, s, id);
  }
}
