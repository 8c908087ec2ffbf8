/**
 * The server under any schedule. A call is a small process whose steps are its store accesses;
 * the local computation before an access (checks, clock samples, fresh nonces) is part of that step.
 * Steps of any number of calls on any number of sessions interleave with the clock and with decay
 * of stored records.
 */
module Machine {
  import opened Texts
  import opened Validate
  import opened Wrappers
  import opened Records
  import opened StoreContract
  import opened Server
  import opened Lineage

  /** Who made a store value: the decay of a record, or the one writing step of a call. */
  datatype Cause = Genesis | Environment | ByCall(id: nat)

  /** A store value, who made it, and how many bindings and offers had been written by then. */
  datatype Snap = Snap(store: Store, cause: Cause, versions: nat, offers: nat)

  /** A call's first read that found a binding: how many had been written, the clock, the trace index. */
  datatype Mark = Unmarked | Mark(n: nat, at: int, seen: nat)

  /** Why an answer was given: an index of the store's trace, the call's draw, and lost writes. */
  datatype Witness = Witness(at: nat, draw: Draw, contended: bool, first: Mark)

  datatype Pc =
    | Reading(attempt: nat, first: Mark, since: nat)
    | HoldsOffer(pending: PendingRegistration, readAt: int, seen: nat)
    | HoldsBinding(attempt: nat, first: Mark, b: Binding, readAt: int, seen: nat)
    | Deleting
    | Done(outcome: Outcome, w: Witness)

  datatype Call = Call(op: Op, pc: Pc, begun: nat, beganAt: int)

  /** One session: its calls, and everything its two cells ever held, oldest first. */
  datatype SessionRecord = SessionRecord(
    calls: map<nat, Call>,
    trace: seq<Snap>,
    versions: seq<Version>,
    offers: seq<PendingRegistration>)

  type Session = s: SessionRecord | |s.trace| > 0
    witness SessionRecord(map[], [Snap(EMPTY, Genesis, 0, 0)], [], [])

  const NEW_SESSION: Session := SessionRecord(map[], [Snap(EMPTY, Genesis, 0, 0)], [], [])

  function Here(s: Session): nat {
    |s.trace| - 1
  }

  function Current(s: Session): Store {
    s.trace[|s.trace| - 1].store
  }

  /** A new store value, with the binding or the offer that was written to it. */
  datatype Write = Write(store: Store, version: Option<Version>, offer: Option<PendingRegistration>)

  function Record(s: Session, w: Write, cause: Cause): Session {
    var versions := if w.version.Some? then s.versions + [w.version.value] else s.versions;
    var offers := if w.offer.Some? then s.offers + [w.offer.value] else s.offers;
    SessionRecord(s.calls, s.trace + [Snap(w.store, cause, |versions|, |offers|)], versions, offers)
  }

  // ---------------------------------------------------------------- one step of a call

  function Answer(o: Outcome, at: nat, d: Draw): Pc {
    Done(o, Witness(at, d, false, Unmarked))
  }

  function AdvanceOffer(s: Session, ctx: Ctx, d: Draw): (Option<Write>, Pc) {
    var pending := PendingRegistration(ctx.userId, d.n1, d.t1);
    (Some(Write(PutPendingRegistration(Current(s), pending), None, Some(pending))), Answer(Offered(d.n1), Here(s), d))
  }

  function AdvanceRegister(env: Env, now: int, s: Session, jwt: Text, ctx: Ctx, pc: Pc, d: Draw): (Option<Write>, Pc) {
    match pc
    case HoldsOffer(pending, readAt, seen) =>
      (match CheckOffer(env, pending, jwt, ctx, d.t1)
       case Err(e) => (None, Answer(Failed(e), seen, d))
       case Ok(result) =>
         var b := NewBinding(pending, result, ctx, d);
         var (store, verdict) := CommitRegistration(Current(s), pending, b);
         match verdict
         case Written =>
           (Some(Write(store, Some(Version(b, Registration, now)), None)),
            Answer(Registered(b.sessionIdentifier, b.cookieValue, d.after + env.cookieMaxAgeSeconds), Here(s), d))
         case Corrupt => (None, Answer(Failed(CorruptState), Here(s), d))
         case Conflict => (None, Done(Failed(MissingChallenge), Witness(Here(s), d, true, Unmarked))))
    case _ =>
      (match Current(s).offer
       case Absent => (None, Answer(Failed(MissingChallenge), Here(s), d))
       case Unreadable => (None, Answer(Failed(CorruptState), Here(s), d))
       case Stored(pending) => (None, HoldsOffer(pending, now, Here(s))))
  }

  /** Reading the binding for attempt `k`; `first` is set by the first read that finds one. */
  function Took(s: Session, now: int, k: nat, first: Mark, b: Binding): Pc {
    HoldsBinding(k, if first.Unmarked? then Mark(|s.versions|, now, Here(s)) else first, b, now, Here(s))
  }

  function AdvanceIssue(now: int, s: Session, pc: Pc, d: Draw): (Option<Write>, Pc) {
    match pc
    case Reading(k, first, _) =>
      (match Current(s).binding
       case Absent => (None, Answer(Bare403, Here(s), d))
       case Unreadable => (None, Answer(Failed(CorruptState), Here(s), d))
       case Stored(b) =>
         if k < MAX_UPDATE_ATTEMPTS then (None, Took(s, now, k, first, b))
         else (None, Done(Challenge403(b.sessionIdentifier, b.challenge), Witness(Here(s), d, true, first))))
    case HoldsBinding(k, first, b, readAt, seen) =>
      var rotated := b.WithChallenge(d.n1, d.t1);
      var (store, verdict) := ReplaceBinding(Current(s), b, rotated);
      (match verdict
       case Written =>
         (Some(Write(store, Some(Version(rotated, Rotation, now)), None)),
          Answer(Challenge403(rotated.sessionIdentifier, d.n1), Here(s), d))
       case Corrupt => (None, Answer(Failed(CorruptState), Here(s), d))
       case Conflict => (None, Reading(k + 1, first, Here(s))))
    case _ => (None, pc)
  }

  function AdvanceRefresh(env: Env, now: int, s: Session, jwt: Text, ctx: Ctx, pc: Pc, d: Draw): (Option<Write>, Pc) {
    match pc
    case Reading(k, first, _) =>
      (match Current(s).binding
       case Absent => (None, Answer(Failed(SessionNotFound), Here(s), d))
       case Unreadable => (None, Answer(Failed(CorruptState), Here(s), d))
       case Stored(b) => (None, Took(s, now, k, first, b)))
    case HoldsBinding(k, first, b, readAt, seen) =>
      (match CheckProof(env, b, jwt, ctx, d.t1, d.t2)
       case Some(e) => (None, Answer(Failed(e), seen, d))
       case None =>
         var rotated := b.WithRotatedCookieAndChallenge(d.n1, d.n2, d.t3, d.t3, env.cookieMaxAgeSeconds);
         var jti := env.jtiOf(jwt).value;
         var (store, verdict) := ReplaceBinding(Current(s), b, rotated);
         match verdict
         case Written =>
           (Some(Write(store, Some(Version(rotated, Refreshment(jti, d.t1, d.t2), now)), None)),
            Answer(Refreshed(rotated.sessionIdentifier, d.n1, d.n2, d.after + env.cookieMaxAgeSeconds), Here(s), d))
         case Corrupt => (None, Answer(Failed(CorruptState), Here(s), d))
         case Conflict =>
           if k + 1 < MAX_UPDATE_ATTEMPTS then (None, Reading(k + 1, first, Here(s)))
           else (None, Done(Failed(ChallengeMismatch), Witness(Here(s), d, true, first))))
    case _ => (None, pc)
  }

  function AdvanceAdvertise(env: Env, now: int, s: Session, held: Binding, ctx: Ctx, d: Draw): (Option<Write>, Pc) {
    if !WorthAdvertising(env, held, ctx, d.t1) then (None, Answer(Silent, Here(s), d)) else
    var marked := held.MarkChallengeAdvertised();
    var (store, verdict) := ReplaceBinding(Current(s), held, marked);
    match verdict
    case Written =>
      (Some(Write(store, Some(Version(marked, Advertisement, now)), None)),
       Answer(Advertised(held.sessionIdentifier, held.challenge), Here(s), d))
    case Corrupt => (None, Answer(Failed(CorruptState), Here(s), d))
    case Conflict => (None, Answer(Silent, Here(s), d))
  }

  /** Whatever the first read says, corrupt included, the delete follows. */
  function AdvanceRevoke(s: Session, pc: Pc, d: Draw): (Option<Write>, Pc) {
    if pc.Reading? then (None, Deleting)
    else (Some(Write(Delete(Current(s)), None, None)), Answer(Revoked, Here(s), d))
  }

  function AdvanceGate(env: Env, now: int, s: Session, ctx: Ctx, pc: Pc, d: Draw): (Option<Write>, Pc) {
    match pc
    case HoldsBinding(k, first, b, readAt, seen) =>
      (None, Answer(if GateAdmits(env, b, ctx, d.t1, d.t2) then Admitted else Refused, seen, d))
    case _ =>
      (match Current(s).binding
       case Absent => (None, Answer(Unbound, Here(s), d))
       case Unreadable => (None, Answer(Failed(CorruptState), Here(s), d))
       case Stored(b) => (None, Took(s, now, 0, Unmarked, b)))
  }

  function Advance(env: Env, now: int, s: Session, call: Call, d: Draw): (Option<Write>, Pc) {
    match call.op
    case Offer(ctx) => AdvanceOffer(s, ctx, d)
    case Register(jwt, ctx) => AdvanceRegister(env, now, s, jwt, ctx, call.pc, d)
    case Issue => AdvanceIssue(now, s, call.pc, d)
    case Refresh(jwt, ctx) => AdvanceRefresh(env, now, s, jwt, ctx, call.pc, d)
    case Advertise(held, ctx) => AdvanceAdvertise(env, now, s, held, ctx, d)
    case Revoke => AdvanceRevoke(s, call.pc, d)
    case Gate(ctx) => AdvanceGate(env, now, s, ctx, call.pc, d)
  }

  function StepSession(env: Env, now: int, s: Session, id: nat, d: Draw): Session
    requires id in s.calls
  {
    var (w, pc) := Advance(env, now, s, s.calls[id], d);
    var t := if w.Some? then Record(s, w.value, ByCall(id)) else s;
    t.(calls := s.calls[id := s.calls[id].(pc := pc)])
  }

  // ---------------------------------------------------------------- the world

  /** One clock, the nonces drawn so far, and the sessions. */
  datatype World = World(now: int, used: set<Text>, sessions: map<Text, Session>)

  function SessionOf(w: World, sid: Text): Session {
    if sid in w.sessions then w.sessions[sid] else NEW_SESSION
  }

  datatype Action =
    | Tick(to: int)
    | Start(sid: Text, id: nat, op: Op)
    | Run(sid: Text, id: nat, d: Draw)
    | Decay(sid: Text, store: Store)

  /** The earliest instant a call's next clock sample can be taken. */
  function SampleFrom(call: Call): int {
    match call.pc
    case HoldsOffer(_, readAt, _) => readAt
    case HoldsBinding(_, _, _, readAt, _) => readAt
    case _ => call.beganAt
  }

  /** `_nonce` returns hex digits, and never a value it returned before. */
  predicate NoncesFresh(used: set<Text>, d: Draw) {
    && IsHex(d.n1) && IsHex(d.n2) && IsHex(d.n3)
    && d.n1 !in used && d.n2 !in used && d.n3 !in used
    && d.n1 != d.n2 && d.n1 != d.n3 && d.n2 != d.n3
  }

  predicate Enabled(w: World, a: Action) {
    match a
    case Tick(to) => w.now <= to
    case Start(sid, id, op) => id !in SessionOf(w, sid).calls
    case Run(sid, id, d) =>
      var s := SessionOf(w, sid);
      && id in s.calls && !s.calls[id].pc.Done?
      && SampleFrom(s.calls[id]) <= d.t1 <= d.t2 <= d.t3 <= w.now <= d.after
      && NoncesFresh(w.used, d)
    case Decay(sid, store) =>
      var now := Current(SessionOf(w, sid));
      Degrades(now.offer, store.offer) && Degrades(now.binding, store.binding)
  }

  function Begin(s: Session, now: int, id: nat, op: Op): Session {
    s.(calls := s.calls[id := Call(op, Reading(0, Unmarked, Here(s)), Here(s), now)])
  }

  function Next(env: Env, w: World, a: Action): World
    requires Enabled(w, a)
  {
    match a
    case Tick(to) => w.(now := to)
    case Start(sid, id, op) => w.(sessions := w.sessions[sid := Begin(SessionOf(w, sid), w.now, id, op)])
    case Run(sid, id, d) =>
      World(w.now, w.used + {d.n1, d.n2, d.n3},
            w.sessions[sid := StepSession(env, w.now, SessionOf(w, sid), id, d)])
    case Decay(sid, store) =>
      w.(sessions := w.sessions[sid := Record(SessionOf(w, sid), Write(store, None, None), Environment)])
  }

  function Initial(now: int): World {
    World(now, {}, map[])
  }

  /** The worlds a run goes through; a run is any sequence of enabled actions. */
  ghost predicate IsRun(env: Env, start: int, run: seq<Action>)
    decreases |run|, 0
  {
    run == [] || (IsRun(env, start, run[..|run| - 1]) && Enabled(After(env, start, run[..|run| - 1]), run[|run| - 1]))
  }

  ghost function After(env: Env, start: int, run: seq<Action>): World
    requires IsRun(env, start, run)
    decreases |run|, 1
  {
    if run == [] then Initial(start) else Next(env, After(env, start, run[..|run| - 1]), run[|run| - 1])
  }
}
