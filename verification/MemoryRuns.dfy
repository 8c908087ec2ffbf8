/**
 * The protocol served by `InMemoryStore`: steps read and write the two dictionaries, and records expire by
 * the clock alone. Every such run is a run of the session protocol, with decay just before each step.
 */
module MemoryRuns {
  import opened Texts
  import opened Wrappers
  import opened Records
  import opened StoreContract
  import opened Server
  import opened Machine
  import opened Invariant
  import opened Steps
  import opened JsonProofs
  import opened Codec
  import opened MemoryStore

  /** The store method that the next step of a call makes; `Get` also stands for none. */
  function Issued(env: Env, call: Call, d: Draw): StoreCall {
    match call.op
    case Offer(ctx) => PutPending(PendingRegistration(ctx.userId, d.n1, d.t1))
    case Register(jwt, ctx) =>
      if !call.pc.HoldsOffer? then Get else
      (match CheckOffer(env, call.pc.pending, jwt, ctx, d.t1)
       case Err(_) => Get
       case Ok(result) => Commit(call.pc.pending, NewBinding(call.pc.pending, result, ctx, d)))
    case Issue =>
      if call.pc.HoldsBinding? then Replace(call.pc.b, call.pc.b.WithChallenge(d.n1, d.t1)) else Get
    case Refresh(jwt, ctx) =>
      if call.pc.HoldsBinding? && CheckProof(env, call.pc.b, jwt, ctx, d.t1, d.t2).None?
      then Replace(call.pc.b, call.pc.b.WithRotatedCookieAndChallenge(d.n1, d.n2, d.t3, d.t3, env.cookieMaxAgeSeconds))
      else Get
    case Advertise(held, ctx) =>
      if WorthAdvertising(env, held, ctx, d.t1) then Replace(held, held.MarkChallengeAdvertised()) else Get
    case Revoke => if call.pc.Reading? then Get else DeleteBoth
    case Gate(_) => Get
  }

  /** The world with its store in two dictionaries; each session's newest store value may have expired since. */
  datatype Served = Served(w: World, m: Dicts)

  datatype Event =
    | Ticks(to: int)
    | Begins(sid: Text, id: nat, op: Op)
    | Steps(sid: Text, id: nat, d: Draw, later: int)

  predicate Possible(x: Served, e: Event) {
    match e
    case Ticks(to) => Enabled(x.w, Tick(to))
    case Begins(sid, id, op) => PlainOp(op) && Enabled(x.w, Start(sid, id, op))
    case Steps(sid, id, d, later) => Enabled(x.w, Run(sid, id, d)) && x.w.now <= later
  }

  /** What the session's cells read as now. */
  function Read(x: Served, sid: Text): Store {
    CellsOf(x.m, sid, x.w.now)
  }

  /** The world after noting in the session's history what its cells read as now. */
  function Noted(x: Served, sid: Text): World {
    x.w.(sessions := x.w.sessions[sid := Record(SessionOf(x.w, sid), Write(Read(x, sid), None, None), Environment)])
  }

  /** A step sees the store through the dictionaries, and writes to them what its store method writes. */
  function Then(env: Env, ttls: Ttls, x: Served, e: Event): Served
    requires Possible(x, e)
  {
    match e
    case Ticks(to) => x.(w := Next(env, x.w, Tick(to)))
    case Begins(sid, id, op) => x.(w := Next(env, x.w, Start(sid, id, op)))
    case Steps(sid, id, d, later) =>
      Served(Next(env, Noted(x, sid), Run(sid, id, d)),
             Perform(x.m, ttls, sid, Issued(env, SessionOf(x.w, sid).calls[id], d), x.w.now, later).0)
  }

  ghost predicate IsServedRun(env: Env, ttls: Ttls, start: int, events: seq<Event>)
    decreases |events|, 0
  {
    events == [] || (&& IsServedRun(env, ttls, start, events[..|events| - 1])
                     && Possible(ServedAfter(env, ttls, start, events[..|events| - 1]), events[|events| - 1]))
  }

  ghost function ServedAfter(env: Env, ttls: Ttls, start: int, events: seq<Event>): Served
    requires IsServedRun(env, ttls, start, events)
    decreases |events|, 1
  {
    if events == [] then Served(Initial(start), Dicts(map[], map[]))
    else Then(env, ttls, ServedAfter(env, ttls, start, events[..|events| - 1]), events[|events| - 1])
  }

  // ---------------------------------------------------------------- what is stored as given

  /** Reads back as itself: no split surrogate pair. */
  predicate Plain(t: Text) {
    Joined(t) == t
  }

  predicate PlainOp(op: Op) {
    match op
    case Offer(ctx) => Plain(ctx.userId)
    case Register(_, ctx) => Plain(ctx.userId)
    case _ => true
  }

  /** Registration tokens prove keys and algorithms without split surrogate pairs. */
  ghost predicate PlainEnv(env: Env) {
    forall jwt: Text :: env.verifyRegistrationJwt(jwt).Some? ==>
      Plain(env.verifyRegistrationJwt(jwt).value.publicKeyPem) && Plain(env.verifyRegistrationJwt(jwt).value.algorithm)
  }

  predicate PlainStore(s: Store) {
    && (s.offer.Stored? ==> JoinedPending(s.offer.value) == s.offer.value)
    && (s.binding.Stored? ==> JoinedBinding(s.binding.value) == s.binding.value)
  }

  // ---------------------------------------------------------------- one step

  predicate Decays(before: Store, after: Store) {
    Degrades(before.offer, after.offer) && Degrades(before.binding, after.binding)
  }

  lemma DecayIsTransitive(a: Store, b: Store, c: Store)
    requires Decays(a, b) && Decays(b, c)
    ensures Decays(a, c)
  {}

  /** What the protocol writes in a step is what the store method it issues is given, and succeeds in. */
  lemma WritesAsIssued(env: Env, now: int, s: Session, call: Call, d: Draw)
    ensures var (w, pc) := Advance(env, now, s, call, d);
            match Issued(env, call, d)
            case Get => w.None?
            case PutPending(p) => w.Some? && w.value.store == PutPendingRegistration(Current(s), p)
            case DeleteBoth => w.Some? && w.value.store == EMPTY
            case Commit(offer, b) =>
              var (store, v) := CommitRegistration(Current(s), offer, b);
              if v == Written then w.Some? && w.value.store == store else w.None?
            case Replace(expected, b) =>
              var (store, v) := ReplaceBinding(Current(s), expected, b);
              if v == Written then w.Some? && w.value.store == store else w.None?
            case _ => true
  {}

  /** The store after a step of the protocol. */
  function Left(s: Session, w: Option<Write>): Store {
    if w.Some? then w.value.store else Current(s)
  }

  predicate PlainBinding(b: Binding) {
    JoinedBinding(b) == b
  }

  /** The store method is given a plain record if the one it replaces is plain. */
  predicate GivesPlain(c: StoreCall) {
    match c
    case PutPending(p) => JoinedPending(p) == p
    case Commit(offer, b) => JoinedPending(offer) == offer ==> PlainBinding(b)
    case Replace(expected, b) => PlainBinding(expected) ==> PlainBinding(b)
    case _ => true
  }

  lemma IssuesPlain(env: Env, call: Call, d: Draw)
    requires PlainOp(call.op) && PlainEnv(env)
    ensures GivesPlain(Issued(env, call, d))
  {}

  lemma LeavesPlain(env: Env, now: int, s: Session, call: Call, d: Draw)
    requires PlainStore(Current(s)) && PlainOp(call.op) && PlainEnv(env)
    ensures PlainStore(Left(s, Advance(env, now, s, call, d).0))
  {
    IssuesPlain(env, call, d);
    WritesAsIssued(env, now, s, call, d);
  }

  /** A write stores the record that its store method is given. */
  predicate WritesRecord(w: Write, c: StoreCall) {
    match c
    case PutPending(p) => w.version.None? && w.offer == Some(p)
    case Commit(_, b) => w.version.Some? && w.version.value.b == b
    case Replace(_, b) => w.version.Some? && w.version.value.b == b
    case DeleteBoth => true
    case _ => false
  }

  lemma WritesItsRecord(env: Env, now: int, s: Session, call: Call, d: Draw)
    ensures var w := Advance(env, now, s, call, d).0; w.Some? ==> WritesRecord(w.value, Issued(env, call, d))
  {}

  lemma LawfulIsValid(env: Env, now: int, used: set<Text>, used': set<Text>, s: Session, w: Write, c: StoreCall)
    requires Lawful(env, now, used, used', s, w) && WritesRecord(w, c)
    ensures ValidCall(c)
  {}

  /** A record that is written is a valid one. */
  lemma WritesValid(env: Env, now: int, used: set<Text>, s: Session, id: nat, d: Draw)
    requires Ready(env, now, used, s, id, d) && Advance(env, now, s, s.calls[id], d).0.Some?
    ensures ValidCall(Issued(env, s.calls[id], d))
  {
    var (w, pc) := Advance(env, now, s, s.calls[id], d);
    AdvanceIsSound(env, now, used, s, id, d);
    WritesItsRecord(env, now, s, s.calls[id], d);
    LawfulIsValid(env, now, used, Drawn(used, d), s, w.value, Issued(env, s.calls[id], d));
  }

  /** The dictionaries after the store method read as what the protocol left, as far as it has not expired. */
  lemma CellsAgree(m: Dicts, ttls: Ttls, sid: Text, c: StoreCall, now: int, later: int, left: Store)
    requires ValidCall(c) && now <= later && PlainStore(left) && Made(c, CellsOf(m, sid, now), left)
    ensures var m' := Perform(m, ttls, sid, c, now, later).0; Reads(left, m', ttls, sid, now) && OthersKept(m, m', sid)
  {
    PerformIsTheContract(m, ttls, sid, c, now, later);
  }

  /** Session `sid` reads as `left`, unless a lifetime is negative and what was written has expired at once. */
  predicate Reads(left: Store, m: Dicts, ttls: Ttls, sid: Text, now: int) {
    && Decays(left, CellsOf(m, sid, now))
    && (ttls.challengeTtlSeconds >= 0 && ttls.sessionLifetimeSeconds >= 0 ==> CellsOf(m, sid, now) == left)
  }

  /** What a store method must have made of `cells` for the protocol to have left `left`. */
  predicate Made(c: StoreCall, cells: Store, left: Store) {
    match c
    case Get => left == cells
    case PutPending(p) => left == PutPendingRegistration(cells, p)
    case DeleteBoth => left == EMPTY
    case Commit(offer, b) => CommitRegistration(cells, offer, b) == (left, Written)
    case Replace(expected, b) => ReplaceBinding(cells, expected, b) == (left, Written)
    case _ => false
  }

  /** A step that writes makes of the cells what its store method does; one that does not leaves them. */
  lemma MadeOrLeft(env: Env, ttls: Ttls, now: int, s: Session, call: Call, d: Draw, m: Dicts, sid: Text, later: int)
    requires Current(s) == CellsOf(m, sid, now)
    ensures var w := Advance(env, now, s, call, d).0; var c := Issued(env, call, d);
            if w.Some? then Made(c, CellsOf(m, sid, now), w.value.store)
            else Perform(m, ttls, sid, c, now, later).0 == m
  {
    WritesAsIssued(env, now, s, call, d);
  }

  lemma StepAgrees(env: Env, ttls: Ttls, now: int, used: set<Text>, s: Session, id: nat, d: Draw, m: Dicts, sid: Text, later: int)
    requires Ready(env, now, used, s, id, d) && now <= later
    requires Current(s) == CellsOf(m, sid, now)
    requires PlainStore(Current(s)) && PlainOp(s.calls[id].op) && PlainEnv(env)
    ensures var left := Left(s, Advance(env, now, s, s.calls[id], d).0);
            var m' := Perform(m, ttls, sid, Issued(env, s.calls[id], d), now, later).0;
            PlainStore(left) && Reads(left, m', ttls, sid, now) && OthersKept(m, m', sid)
  {
    var w := Advance(env, now, s, s.calls[id], d).0;
    MadeOrLeft(env, ttls, now, s, s.calls[id], d, m, sid, later);
    LeavesPlain(env, now, s, s.calls[id], d);
    if w.Some? {
      WritesValid(env, now, used, s, id, d);
      CellsAgree(m, ttls, sid, Issued(env, s.calls[id], d), now, later, w.value.store);
    }
  }

  // ---------------------------------------------------------------- whole runs

  /** Every session's newest store value is plain, and reads from the dictionaries as it is, or expired. */
  ghost predicate Serves(x: Served, sid: Text) {
    Fits(SessionOf(x.w, sid), Read(x, sid))
  }

  ghost predicate Fits(s: Session, cells: Store) {
    && PlainStore(Current(s)) && Decays(Current(s), cells)
    && (forall id :: id in s.calls ==> PlainOp(s.calls[id].op))
  }

  ghost predicate Serving(env: Env, x: Served) {
    Inv(env, x.w) && forall sid: Text :: Serves(x, sid)
  }

  /** Before a step, noting what the cells read as is decay the protocol allows, and keeps the invariant. */
  lemma NotedIsDecay(env: Env, x: Served, sid: Text)
    requires Serving(env, x)
    ensures Enabled(x.w, Decay(sid, Read(x, sid))) && Noted(x, sid) == Next(env, x.w, Decay(sid, Read(x, sid)))
    ensures Inv(env, Noted(x, sid)) && PlainStore(Read(x, sid))
    ensures SessionOf(Noted(x, sid), sid).calls == SessionOf(x.w, sid).calls
    ensures Current(SessionOf(Noted(x, sid), sid)) == Read(x, sid)
    ensures forall other: Text :: other != sid ==> SessionOf(Noted(x, sid), other) == SessionOf(x.w, other)
  {
    assert Serves(x, sid);
    NextKeepsInv(env, x.w, Decay(sid, Read(x, sid)));
  }

  lemma TicksServe(env: Env, ttls: Ttls, x: Served, to: int)
    requires Serving(env, x) && Possible(x, Ticks(to))
    ensures Serving(env, Then(env, ttls, x, Ticks(to)))
  {
    var y := Then(env, ttls, x, Ticks(to));
    NextKeepsInv(env, x.w, Tick(to));
    forall sid: Text
      ensures Serves(y, sid)
    {
      assert Serves(x, sid) && SessionOf(y.w, sid) == SessionOf(x.w, sid);
      ClockOnlyDecays(x.m.reg, x.m.bind, sid, x.w.now, to);
      DecayIsTransitive(Current(SessionOf(x.w, sid)), Read(x, sid), Read(y, sid));
    }
  }

  lemma BeginFits(s: Session, cells: Store, now: int, id: nat, op: Op)
    requires Fits(s, cells) && PlainOp(op)
    ensures Fits(Begin(s, now, id, op), cells)
  {}

  lemma BeginsServe(env: Env, ttls: Ttls, x: Served, sid: Text, id: nat, op: Op)
    requires Serving(env, x) && Possible(x, Begins(sid, id, op))
    ensures Serving(env, Then(env, ttls, x, Begins(sid, id, op)))
  {
    var y := Then(env, ttls, x, Begins(sid, id, op));
    NextKeepsInv(env, x.w, Start(sid, id, op));
    assert Serves(x, sid);
    BeginFits(SessionOf(x.w, sid), Read(x, sid), x.w.now, id, op);
    forall any: Text
      ensures Serves(y, any)
    {
      assert Serves(x, any) && Read(y, any) == Read(x, any);
      assert any != sid ==> SessionOf(y.w, any) == SessionOf(x.w, any);
    }
  }

  /** The step that takes place, on the session as noted. */
  lemma NotedIsReady(env: Env, x: Served, sid: Text, id: nat, d: Draw)
    requires Serving(env, x) && Enabled(x.w, Run(sid, id, d))
    ensures Enabled(Noted(x, sid), Run(sid, id, d))
    ensures Ready(env, x.w.now, x.w.used, SessionOf(Noted(x, sid), sid), id, d)
    ensures PlainOp(SessionOf(x.w, sid).calls[id].op)
  {
    NotedIsDecay(env, x, sid);
    SessionOfInv(env, Noted(x, sid), sid);
    assert Serves(x, sid);
  }

  lemma StepFits(env: Env, now: int, s: Session, id: nat, d: Draw, cells: Store)
    requires id in s.calls && (forall c :: c in s.calls ==> PlainOp(s.calls[c].op))
    requires var left := Left(s, Advance(env, now, s, s.calls[id], d).0); PlainStore(left) && Decays(left, cells)
    ensures Fits(StepSession(env, now, s, id, d), cells)
    ensures Current(StepSession(env, now, s, id, d)) == Left(s, Advance(env, now, s, s.calls[id], d).0)
  {}

  /** A step leaves in the dictionaries what the protocol leaves in the session. */
  lemma StepServesItself(env: Env, ttls: Ttls, x: Served, sid: Text, id: nat, d: Draw, later: int)
    requires Serving(env, x) && Possible(x, Steps(sid, id, d, later)) && PlainEnv(env)
    ensures var y := Then(env, ttls, x, Steps(sid, id, d, later));
            Serves(y, sid) && OthersKept(x.m, y.m, sid) && Reads(Current(SessionOf(y.w, sid)), y.m, ttls, sid, y.w.now)
  {
    var y := Then(env, ttls, x, Steps(sid, id, d, later));
    var s := SessionOf(Noted(x, sid), sid);
    NotedIsDecay(env, x, sid);
    NotedIsReady(env, x, sid, id, d);
    StepAgrees(env, ttls, x.w.now, x.w.used, s, id, d, x.m, sid, later);
    assert Serves(x, sid);
    StepFits(env, x.w.now, s, id, d, Read(y, sid));
    assert SessionOf(y.w, sid) == StepSession(env, x.w.now, s, id, d);
  }

  lemma StepServesOther(env: Env, ttls: Ttls, x: Served, sid: Text, id: nat, d: Draw, later: int, other: Text)
    requires Possible(x, Steps(sid, id, d, later)) && Serves(x, other) && other != sid
    requires Enabled(Noted(x, sid), Run(sid, id, d))
    requires OthersKept(x.m, Then(env, ttls, x, Steps(sid, id, d, later)).m, sid)
    ensures Serves(Then(env, ttls, x, Steps(sid, id, d, later)), other)
  {
    var y := Then(env, ttls, x, Steps(sid, id, d, later));
    assert SessionOf(y.w, other) == SessionOf(x.w, other) && Read(y, other) == Read(x, other);
  }

  lemma StepKeepsInv(env: Env, ttls: Ttls, x: Served, sid: Text, id: nat, d: Draw, later: int)
    requires Serving(env, x) && Possible(x, Steps(sid, id, d, later))
    ensures Inv(env, Then(env, ttls, x, Steps(sid, id, d, later)).w)
  {
    NotedIsDecay(env, x, sid);
    NotedIsReady(env, x, sid, id, d);
    NextKeepsInv(env, Noted(x, sid), Run(sid, id, d));
  }

  /**
   * A step reads exactly what the protocol's session holds, and leaves in the dictionaries what the protocol
   * leaves in the session.
   */
  lemma StepsServe(env: Env, ttls: Ttls, x: Served, sid: Text, id: nat, d: Draw, later: int)
    requires Serving(env, x) && Possible(x, Steps(sid, id, d, later)) && PlainEnv(env)
    ensures Serving(env, Then(env, ttls, x, Steps(sid, id, d, later)))
    ensures Current(SessionOf(Noted(x, sid), sid)) == Read(x, sid)
    ensures var y := Then(env, ttls, x, Steps(sid, id, d, later));
            ttls.challengeTtlSeconds >= 0 && ttls.sessionLifetimeSeconds >= 0 ==>
              Read(y, sid) == Current(SessionOf(y.w, sid))
  {
    var y := Then(env, ttls, x, Steps(sid, id, d, later));
    NotedIsDecay(env, x, sid);
    NotedIsReady(env, x, sid, id, d);
    StepKeepsInv(env, ttls, x, sid, id, d, later);
    StepServesItself(env, ttls, x, sid, id, d, later);
    forall any: Text
      ensures Serves(y, any)
    {
      assert Serves(x, any);
      if any != sid {
        StepServesOther(env, ttls, x, sid, id, d, later, any);
      }
    }
  }

  /** Every run over the dictionaries is a run of the protocol: the same calls, answers and histories. */
  lemma {:induction false} ServedRunsAreRuns(env: Env, ttls: Ttls, start: int, events: seq<Event>) returns (run: seq<Action>)
    requires PlainEnv(env) && IsServedRun(env, ttls, start, events)
    ensures IsRun(env, start, run) && After(env, start, run) == ServedAfter(env, ttls, start, events).w
    ensures Serving(env, ServedAfter(env, ttls, start, events))
    decreases |events|
  {
    if events == [] {
      run := [];
    } else {
      var before, e := events[..|events| - 1], events[|events| - 1];
      run := ServedRunsAreRuns(env, ttls, start, before);
      var x := ServedAfter(env, ttls, start, before);
      match e
      case Ticks(to) =>
        TicksServe(env, ttls, x, to);
        run := Extended(env, start, run, Tick(to));
      case Begins(sid, id, op) =>
        BeginsServe(env, ttls, x, sid, id, op);
        run := Extended(env, start, run, Start(sid, id, op));
      case Steps(sid, id, d, later) =>
        StepsServe(env, ttls, x, sid, id, d, later);
        NotedIsDecay(env, x, sid);
        NotedIsReady(env, x, sid, id, d);
        run := Extended(env, start, run, Decay(sid, Read(x, sid)));
        run := Extended(env, start, run, Run(sid, id, d));
    }
  }

  lemma Extended(env: Env, start: int, run: seq<Action>, a: Action) returns (longer: seq<Action>)
    requires IsRun(env, start, run) && Enabled(After(env, start, run), a)
    ensures IsRun(env, start, longer) && After(env, start, longer) == Next(env, After(env, start, run), a)
  {
    longer := run + [a];
    assert longer[..|run|] == run;
  }
}
