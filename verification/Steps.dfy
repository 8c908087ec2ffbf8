/** Each step of each operation keeps the invariant; so every run does. */
module Steps {
  import opened Texts
  import opened Wrappers
  import opened Records
  import opened StoreContract
  import opened Server
  import opened Lineage
  import opened Machine
  import opened Invariant

  /** Call `id` may take a step with draw `d`. */
  ghost predicate Ready(env: Env, now: int, used: set<Text>, s: Session, id: nat, d: Draw) {
    && History(env, now, used, s)
    && id in s.calls && CallOk(env, now, s, id, s.calls[id]) && !s.calls[id].pc.Done?
    && SampleFrom(s.calls[id]) <= d.t1 <= d.t2 <= d.t3 <= now <= d.after
    && NoncesFresh(used, d)
  }

  function Drawn(used: set<Text>, d: Draw): set<Text> {
    used + {d.n1, d.n2, d.n3}
  }

  function Grown(s: Session, id: nat, w: Option<Write>): Session {
    if w.Some? then Record(s, w.value, ByCall(id)) else s
  }

  /** The step writes lawfully if at all, and only as the one write of a call it finishes. */
  ghost predicate Sound(env: Env, now: int, used: set<Text>, s: Session, id: nat, d: Draw, w: Option<Write>, pc: Pc)
    requires id in s.calls
  {
    var call := s.calls[id].(pc := pc);
    && (w.Some? ==> Lawful(env, now, used, Drawn(used, d), s, w.value) && Wrote(call, |s.trace|))
    && CallOk(env, now, Grown(s, id, w), id, call)
  }

  lemma OfferStep(env: Env, now: int, used: set<Text>, s: Session, id: nat, d: Draw)
    requires Ready(env, now, used, s, id, d) && s.calls[id].op.Offer?
    ensures var (w, pc) := AdvanceOffer(s, s.calls[id].op.ctx, d); Sound(env, now, used, s, id, d, w, pc)
  {}

  lemma RevokeStep(env: Env, now: int, used: set<Text>, s: Session, id: nat, d: Draw)
    requires Ready(env, now, used, s, id, d) && s.calls[id].op.Revoke?
    ensures var (w, pc) := AdvanceRevoke(s, s.calls[id].pc, d); Sound(env, now, used, s, id, d, w, pc)
  {}

  /** A read that finds a binding, for whichever attempt. */
  lemma ReadStep(env: Env, now: int, used: set<Text>, s: Session, id: nat, d: Draw)
    requires Ready(env, now, used, s, id, d) && s.calls[id].pc.Reading?
    requires Current(s).binding.Stored?
    requires s.calls[id].op.Issue? || s.calls[id].op.Refresh? || s.calls[id].op.Gate?
    requires s.calls[id].pc.attempt <= 2
    ensures CallOk(env, now, s, id, s.calls[id].(
                pc := Took(s, now, s.calls[id].pc.attempt, s.calls[id].pc.first, Current(s).binding.value)))
  {
    var pc := s.calls[id].pc;
    CurrentIsNewest(env, now, used, s, Current(s).binding.value);
    if pc.attempt > 0 {
      ReadAfterLoss(env, now, used, s, pc.since, pc.first.n + pc.attempt);
    }
  }

  lemma GateStep(env: Env, now: int, used: set<Text>, s: Session, id: nat, d: Draw)
    requires Ready(env, now, used, s, id, d) && s.calls[id].op.Gate?
    ensures var (w, pc) := AdvanceGate(env, now, s, s.calls[id].op.ctx, s.calls[id].pc, d);
            Sound(env, now, used, s, id, d, w, pc)
  {
    if s.calls[id].pc.Reading? && Current(s).binding.Stored? {
      ReadStep(env, now, used, s, id, d);
    }
  }

  lemma AdvertiseLink(env: Env, now: int, used: set<Text>, s: Session, held: Binding)
    requires History(env, now, used, s) && Current(s).binding == Stored(held)
    requires !held.challengeAdvertised && !held.hasRefreshed
    ensures Link(env, s.versions + [Version(held.MarkChallengeAdvertised(), Advertisement, now)], |s.versions|)
    ensures |s.versions| > 0 && s.versions[|s.versions| - 1].b == held
  {
    CurrentIsNewest(env, now, used, s, held);
  }

  lemma AdvertiseWins(env: Env, now: int, used: set<Text>, s: Session, id: nat, d: Draw)
    requires Ready(env, now, used, s, id, d) && s.calls[id].op.Advertise?
    requires Current(s).binding == Stored(s.calls[id].op.held)
    requires WorthAdvertising(env, s.calls[id].op.held, s.calls[id].op.ctx, d.t1)
    ensures var (w, pc) := AdvanceAdvertise(env, now, s, s.calls[id].op.held, s.calls[id].op.ctx, d);
            Sound(env, now, used, s, id, d, w, pc)
  {
    AdvertiseLink(env, now, used, s, s.calls[id].op.held);
  }

  lemma AdvertiseStep(env: Env, now: int, used: set<Text>, s: Session, id: nat, d: Draw)
    requires Ready(env, now, used, s, id, d) && s.calls[id].op.Advertise?
    ensures var (w, pc) := AdvanceAdvertise(env, now, s, s.calls[id].op.held, s.calls[id].op.ctx, d);
            Sound(env, now, used, s, id, d, w, pc)
  {
    var call := s.calls[id];
    if Current(s).binding == Stored(call.op.held) && WorthAdvertising(env, call.op.held, call.op.ctx, d.t1) {
      AdvertiseWins(env, now, used, s, id, d);
    }
  }

  // ---------------------------------------------------------------- register

  lemma RegisterLink(env: Env, now: int, used: set<Text>, s: Session, b: Binding)
    requires History(env, now, used, s)
    requires b.sessionIdentifier !in used && b.cookieValue !in used && b.challenge !in used
    requires b.sessionIdentifier != [] && b.cookieValue != [] && b.challenge != []
    requires b.createdAt == b.cookieIssuedAt == b.challengeTime <= now
    requires b.previousCookieValue == [] && b.previousChallenge == [] && !b.hasRefreshed && !b.challengeAdvertised
    ensures Link(env, s.versions + [Version(b, Registration, now)], |s.versions|)
  {}

  /** A registration that found its offer gone could not have succeeded any more. */
  lemma SupersededOfferRefuses(env: Env, now: int, used: set<Text>, s: Session, id: nat, d: Draw)
    requires Ready(env, now, used, s, id, d) && s.calls[id].op.Register? && s.calls[id].pc.HoldsOffer?
    requires CheckOffer(env, s.calls[id].pc.pending, s.calls[id].op.jwt, s.calls[id].op.ctx, d.t1).Ok?
    requires Current(s).offer != Stored(s.calls[id].pc.pending)
    ensures RefusesAlways(env, s.calls[id].op, Current(s))
    ensures env.verifyRegistrationJwt(s.calls[id].op.jwt).Some?
    ensures Current(s).offer.Stored? ==>
              Current(s).offer.value.regChallenge != env.verifyRegistrationJwt(s.calls[id].op.jwt).value.challenge
  {
    var pc := s.calls[id].pc;
    if Current(s).offer.Stored? {
      Undisturbed(s, pc.seen, Here(s));
      assert SnapOk(s, s.trace[pc.seen]) && SnapOk(s, s.trace[Here(s)]);
      assert Current(s).offer.value.regChallenge != pc.pending.regChallenge;
    }
  }

  lemma CommitStep(env: Env, now: int, used: set<Text>, s: Session, id: nat, d: Draw)
    requires Ready(env, now, used, s, id, d) && s.calls[id].op.Register? && s.calls[id].pc.HoldsOffer?
    requires CheckOffer(env, s.calls[id].pc.pending, s.calls[id].op.jwt, s.calls[id].op.ctx, d.t1).Ok?
    requires Current(s).offer == Stored(s.calls[id].pc.pending)
    ensures var call := s.calls[id];
            var (w, pc) := AdvanceRegister(env, now, s, call.op.jwt, call.op.ctx, call.pc, d);
            Sound(env, now, used, s, id, d, w, pc)
  {
    var call := s.calls[id];
    var result := CheckOffer(env, call.pc.pending, call.op.jwt, call.op.ctx, d.t1).value;
    RegisterLink(env, now, used, s, NewBinding(call.pc.pending, result, call.op.ctx, d));
  }

  lemma RegisterStep(env: Env, now: int, used: set<Text>, s: Session, id: nat, d: Draw)
    requires Ready(env, now, used, s, id, d) && s.calls[id].op.Register?
    ensures var call := s.calls[id];
            var (w, pc) := AdvanceRegister(env, now, s, call.op.jwt, call.op.ctx, call.pc, d);
            Sound(env, now, used, s, id, d, w, pc)
  {
    var call := s.calls[id];
    if call.pc.HoldsOffer? && CheckOffer(env, call.pc.pending, call.op.jwt, call.op.ctx, d.t1).Ok? {
      if Current(s).offer == Stored(call.pc.pending) {
        CommitStep(env, now, used, s, id, d);
      } else {
        SupersededOfferRefuses(env, now, used, s, id, d);
      }
    }
  }

  // ---------------------------------------------------------------- issue

  lemma IssueLink(env: Env, now: int, used: set<Text>, s: Session, id: nat, d: Draw)
    requires Ready(env, now, used, s, id, d) && s.calls[id].pc.HoldsBinding?
    requires Current(s).binding == Stored(s.calls[id].pc.b)
    ensures Link(env, s.versions + [Version(s.calls[id].pc.b.WithChallenge(d.n1, d.t1), Rotation, now)], |s.versions|)
    ensures |s.versions| > 0 && s.versions[|s.versions| - 1].b == s.calls[id].pc.b
  {
    ReadAfterNewest(env, now, used, s, id, s.calls[id]);
  }

  lemma RotateStep(env: Env, now: int, used: set<Text>, s: Session, id: nat, d: Draw)
    requires Ready(env, now, used, s, id, d) && s.calls[id].op.Issue? && s.calls[id].pc.HoldsBinding?
    requires Current(s).binding == Stored(s.calls[id].pc.b)
    ensures var (w, pc) := AdvanceIssue(now, s, s.calls[id].pc, d); Sound(env, now, used, s, id, d, w, pc)
  {
    IssueLink(env, now, used, s, id, d);
  }

  lemma IssueWriteStep(env: Env, now: int, used: set<Text>, s: Session, id: nat, d: Draw)
    requires Ready(env, now, used, s, id, d) && s.calls[id].op.Issue? && s.calls[id].pc.HoldsBinding?
    ensures var (w, pc) := AdvanceIssue(now, s, s.calls[id].pc, d); Sound(env, now, used, s, id, d, w, pc)
  {
    if Current(s).binding == Stored(s.calls[id].pc.b) {
      RotateStep(env, now, used, s, id, d);
    } else if !Current(s).binding.Unreadable? {
      ConflictMeansLost(env, now, used, s, id, s.calls[id]);
    }
  }

  lemma IssueStep(env: Env, now: int, used: set<Text>, s: Session, id: nat, d: Draw)
    requires Ready(env, now, used, s, id, d) && s.calls[id].op.Issue?
    ensures var (w, pc) := AdvanceIssue(now, s, s.calls[id].pc, d); Sound(env, now, used, s, id, d, w, pc)
  {
    var pc := s.calls[id].pc;
    if pc.HoldsBinding? {
      IssueWriteStep(env, now, used, s, id, d);
    } else if Current(s).binding.Stored? {
      if pc.attempt <= 2 {
        ReadStep(env, now, used, s, id, d);
      } else {
        ReadAfterLoss(env, now, used, s, pc.since, pc.first.n + 3);
      }
    }
  }

  // ---------------------------------------------------------------- refresh

  lemma RefreshLink(env: Env, now: int, used: set<Text>, s: Session, id: nat, d: Draw)
    requires Ready(env, now, used, s, id, d) && s.calls[id].pc.HoldsBinding? && s.calls[id].op.Refresh?
    requires Current(s).binding == Stored(s.calls[id].pc.b)
    requires CheckProof(env, s.calls[id].pc.b, s.calls[id].op.jwt, s.calls[id].op.ctx, d.t1, d.t2).None?
    ensures var jti := env.jtiOf(s.calls[id].op.jwt).value;
            var b := s.calls[id].pc.b.WithRotatedCookieAndChallenge(d.n1, d.n2, d.t3, d.t3, env.cookieMaxAgeSeconds);
            Link(env, s.versions + [Version(b, Refreshment(jti, d.t1, d.t2), now)], |s.versions|)
    ensures |s.versions| > 0 && s.versions[|s.versions| - 1].b == s.calls[id].pc.b
  {
    ReadAfterNewest(env, now, used, s, id, s.calls[id]);
  }

  /** Every attempt proves the same jti, so it was in a slot of the first binding read. */
  lemma ProvedFromTheStart(env: Env, now: int, used: set<Text>, s: Session, id: nat, d: Draw)
    requires Ready(env, now, used, s, id, d) && s.calls[id].pc.HoldsBinding? && s.calls[id].op.Refresh?
    requires CheckProof(env, s.calls[id].pc.b, s.calls[id].op.jwt, s.calls[id].op.ctx, d.t1, d.t2).None?
    ensures Proved(env, s, s.calls[id].op.jwt, s.calls[id].pc.first.n)
  {}

  /** What was in a slot three writes ago is in no slot of what is stored now. */
  lemma NoSlotHoldsIt(env: Env, s: Session, jwt: Text, n: nat)
    requires Traced(s) && Chain(env, s.versions) && 1 <= n <= |s.versions|
    requires Proved(env, s, jwt, n) && Lost(s, Here(s), n + 3)
    requires Current(s).binding.Stored?
    ensures !Current(s).binding.value.Holds(env.jtiOf(jwt).value)
  {
    assert SnapOk(s, s.trace[Here(s)]);
    ThreeWritesKill(env, s.versions, n - 1, |s.versions| - 1, env.jtiOf(jwt).value);
  }

  /** The retry bound: after three lost writes no further attempt could succeed. */
  lemma ThreeLossesRefuse(env: Env, now: int, used: set<Text>, s: Session, id: nat, d: Draw)
    requires Ready(env, now, used, s, id, d) && s.calls[id].pc.HoldsBinding? && s.calls[id].op.Refresh?
    requires s.calls[id].pc.attempt == 2
    requires CheckProof(env, s.calls[id].pc.b, s.calls[id].op.jwt, s.calls[id].op.ctx, d.t1, d.t2).None?
    requires Current(s).binding != Stored(s.calls[id].pc.b) && !Current(s).binding.Unreadable?
    ensures RefusesAlways(env, s.calls[id].op, Current(s))
    ensures Current(s).binding.Stored? ==> !Current(s).binding.value.Holds(env.jtiOf(s.calls[id].op.jwt).value)
  {
    var call := s.calls[id];
    if Current(s).binding.Stored? {
      ProvedFromTheStart(env, now, used, s, id, d);
      ConflictMeansLost(env, now, used, s, id, call);
      NoSlotHoldsIt(env, s, call.op.jwt, call.pc.first.n);
    }
  }

  lemma RefreshWins(env: Env, now: int, used: set<Text>, s: Session, id: nat, d: Draw)
    requires Ready(env, now, used, s, id, d) && s.calls[id].op.Refresh? && s.calls[id].pc.HoldsBinding?
    requires CheckProof(env, s.calls[id].pc.b, s.calls[id].op.jwt, s.calls[id].op.ctx, d.t1, d.t2).None?
    requires Current(s).binding == Stored(s.calls[id].pc.b)
    ensures var call := s.calls[id];
            var (w, pc) := AdvanceRefresh(env, now, s, call.op.jwt, call.op.ctx, call.pc, d);
            Sound(env, now, used, s, id, d, w, pc)
  {
    RefreshLink(env, now, used, s, id, d);
  }

  lemma RefreshRetries(env: Env, now: int, used: set<Text>, s: Session, id: nat, d: Draw)
    requires Ready(env, now, used, s, id, d) && s.calls[id].op.Refresh? && s.calls[id].pc.HoldsBinding?
    requires CheckProof(env, s.calls[id].pc.b, s.calls[id].op.jwt, s.calls[id].op.ctx, d.t1, d.t2).None?
    requires Current(s).binding != Stored(s.calls[id].pc.b) && !Current(s).binding.Unreadable?
    requires s.calls[id].pc.attempt < 2
    ensures var call := s.calls[id];
            var (w, pc) := AdvanceRefresh(env, now, s, call.op.jwt, call.op.ctx, call.pc, d);
            Sound(env, now, used, s, id, d, w, pc)
  {
    ConflictMeansLost(env, now, used, s, id, s.calls[id]);
    ProvedFromTheStart(env, now, used, s, id, d);
  }

  /** Giving up is what the last lost write justifies. */
  lemma LastLossContends(env: Env, now: int, used: set<Text>, s: Session, id: nat, d: Draw)
    requires Ready(env, now, used, s, id, d) && s.calls[id].op.Refresh? && s.calls[id].pc.HoldsBinding?
    requires CheckProof(env, s.calls[id].pc.b, s.calls[id].op.jwt, s.calls[id].op.ctx, d.t1, d.t2).None?
    requires Current(s).binding != Stored(s.calls[id].pc.b) && !Current(s).binding.Unreadable?
    requires s.calls[id].pc.attempt == 2
    ensures var call := s.calls[id];
            Contended(env, s, call.begun, call.op, Failed(ChallengeMismatch), Witness(Here(s), d, true, call.pc.first))
  {
    ConflictMeansLost(env, now, used, s, id, s.calls[id]);
    ProvedFromTheStart(env, now, used, s, id, d);
    ThreeLossesRefuse(env, now, used, s, id, d);
  }

  lemma RefreshGivesUp(env: Env, now: int, used: set<Text>, s: Session, id: nat, d: Draw)
    requires Ready(env, now, used, s, id, d) && s.calls[id].op.Refresh? && s.calls[id].pc.HoldsBinding?
    requires CheckProof(env, s.calls[id].pc.b, s.calls[id].op.jwt, s.calls[id].op.ctx, d.t1, d.t2).None?
    requires Current(s).binding != Stored(s.calls[id].pc.b) && !Current(s).binding.Unreadable?
    requires s.calls[id].pc.attempt == 2
    ensures var call := s.calls[id];
            var (w, pc) := AdvanceRefresh(env, now, s, call.op.jwt, call.op.ctx, call.pc, d);
            Sound(env, now, used, s, id, d, w, pc)
  {
    LastLossContends(env, now, used, s, id, d);
  }

  lemma RefreshReads(env: Env, now: int, used: set<Text>, s: Session, id: nat, d: Draw)
    requires Ready(env, now, used, s, id, d) && s.calls[id].op.Refresh? && s.calls[id].pc.Reading?
    ensures var call := s.calls[id];
            var (w, pc) := AdvanceRefresh(env, now, s, call.op.jwt, call.op.ctx, call.pc, d);
            Sound(env, now, used, s, id, d, w, pc)
  {
    if Current(s).binding.Stored? {
      ReadStep(env, now, used, s, id, d);
    }
  }

  lemma RefreshStep(env: Env, now: int, used: set<Text>, s: Session, id: nat, d: Draw)
    requires Ready(env, now, used, s, id, d) && s.calls[id].op.Refresh?
    ensures var call := s.calls[id];
            var (w, pc) := AdvanceRefresh(env, now, s, call.op.jwt, call.op.ctx, call.pc, d);
            Sound(env, now, used, s, id, d, w, pc)
  {
    var call := s.calls[id];
    if call.pc.Reading? {
      RefreshReads(env, now, used, s, id, d);
    } else if CheckProof(env, call.pc.b, call.op.jwt, call.op.ctx, d.t1, d.t2).None? {
      if Current(s).binding == Stored(call.pc.b) {
        RefreshWins(env, now, used, s, id, d);
      } else if !Current(s).binding.Unreadable? {
        if call.pc.attempt < 2 {
          RefreshRetries(env, now, used, s, id, d);
        } else {
          RefreshGivesUp(env, now, used, s, id, d);
        }
      }
    }
  }

  // ---------------------------------------------------------------- sessions and worlds

  lemma AdvanceIsSound(env: Env, now: int, used: set<Text>, s: Session, id: nat, d: Draw)
    requires Ready(env, now, used, s, id, d)
    ensures var (w, pc) := Advance(env, now, s, s.calls[id], d); Sound(env, now, used, s, id, d, w, pc)
  {
    match s.calls[id].op
    case Offer(_) => OfferStep(env, now, used, s, id, d);
    case Register(_, _) => RegisterStep(env, now, used, s, id, d);
    case Issue => IssueStep(env, now, used, s, id, d);
    case Refresh(_, _) => RefreshStep(env, now, used, s, id, d);
    case Advertise(_, _) => AdvertiseStep(env, now, used, s, id, d);
    case Revoke => RevokeStep(env, now, used, s, id, d);
    case Gate(_) => GateStep(env, now, used, s, id, d);
  }

  lemma CallStepKeepsInv(env: Env, now: int, used: set<Text>, s: Session, id: nat, d: Draw)
    requires SessionInv(env, now, used, s) && Ready(env, now, used, s, id, d)
    ensures SessionInv(env, now, Drawn(used, d), StepSession(env, now, s, id, d))
    ensures Extends(s, now, StepSession(env, now, s, id, d))
  {
    var (w, pc) := Advance(env, now, s, s.calls[id], d);
    AdvanceIsSound(env, now, used, s, id, d);
    var g := Grown(s, id, w);
    var t := StepSession(env, now, s, id, d);
    if w.Some? {
      WriteKeepsHistory(env, now, used, Drawn(used, d), s, w.value, ByCall(id));
    } else {
      HistoryAges(env, now, used, now, Drawn(used, d), s);
    }
    SameHistory(env, now, Drawn(used, d), g, t);
    CallsStayOk(env, now, s, g, t, id);
    OwnersKept(s, t, id);
  }

  /** After a step of one call, from `s` by way of `g`, every call is as it was or as the step left it. */
  lemma CallsStayOk(env: Env, now: int, s: Session, g: Session, t: Session, id: nat)
    requires forall c :: c in s.calls ==> CallOk(env, now, s, c, s.calls[c])
    requires id in t.calls && t.calls == s.calls[id := t.calls[id]] && CallOk(env, now, g, id, t.calls[id])
    requires Extends(s, now, t) && Extends(g, now, t)
    ensures forall c :: c in t.calls ==> CallOk(env, now, t, c, t.calls[c])
  {
    forall c | c in t.calls
      ensures CallOk(env, now, t, c, t.calls[c])
    {
      CallStaysOk(env, now, if c == id then g else s, now, t, c, t.calls[c]);
    }
  }

  /** The history does not depend on the table of calls. */
  lemma SameHistory(env: Env, now: int, used: set<Text>, s: Session, t: Session)
    requires History(env, now, used, s)
    requires t.trace == s.trace && t.versions == s.versions && t.offers == s.offers
    ensures History(env, now, used, t)
  {
    assert forall x :: SnapOk(s, x) == SnapOk(t, x);
  }

  lemma OwnersKept(s: Session, t: Session, id: nat)
    requires Owned(s) && id in s.calls && !s.calls[id].pc.Done?
    requires id in t.calls && t.calls == s.calls[id := t.calls[id]]
    requires || t.trace == s.trace
             || (|t.trace| == |s.trace| + 1 && s.trace <= t.trace
                 && t.trace[|s.trace|].cause == ByCall(id) && Wrote(t.calls[id], |s.trace|))
    ensures Owned(t)
  {
    forall i | 0 < i < |t.trace|
      ensures OwnedAt(t, i)
    {
      if i < |s.trace| {
        assert OwnedAt(s, i);
      }
    }
  }

  lemma BeginKeepsInv(env: Env, now: int, used: set<Text>, s: Session, id: nat, op: Op)
    requires SessionInv(env, now, used, s) && id !in s.calls
    ensures SessionInv(env, now, used, Begin(s, now, id, op))
    ensures Extends(s, now, Begin(s, now, id, op))
  {
    var t := Begin(s, now, id, op);
    SameHistory(env, now, used, s, t);
    forall c | c in t.calls && c != id
      ensures CallOk(env, now, t, c, t.calls[c])
    {
      CallStaysOk(env, now, s, now, t, c, s.calls[c]);
    }
    forall i | 0 < i < |t.trace|
      ensures OwnedAt(t, i)
    {
      assert OwnedAt(s, i);
    }
  }

  lemma DecayKeepsInv(env: Env, now: int, used: set<Text>, s: Session, store: Store)
    requires SessionInv(env, now, used, s)
    requires Degrades(Current(s).offer, store.offer) && Degrades(Current(s).binding, store.binding)
    ensures SessionInv(env, now, used, Record(s, Write(store, None, None), Environment))
    ensures Extends(s, now, Record(s, Write(store, None, None), Environment))
  {
    var w := Write(store, None, None);
    var t := Record(s, w, Environment);
    WriteKeepsHistory(env, now, used, used, s, w, Environment);
    forall c | c in t.calls
      ensures CallOk(env, now, t, c, t.calls[c])
    {
      CallStaysOk(env, now, s, now, t, c, s.calls[c]);
    }
    forall i | 0 < i < |t.trace|
      ensures OwnedAt(t, i)
    {
      if i < |s.trace| {
        assert OwnedAt(s, i);
      }
    }
  }

  /** Sessions that do not move only see the clock advance and nonces drawn elsewhere. */
  lemma SessionAges(env: Env, now: int, used: set<Text>, now': int, used': set<Text>, s: Session)
    requires SessionInv(env, now, used, s) && now <= now' && used <= used'
    ensures SessionInv(env, now', used', s)
  {
    HistoryAges(env, now, used, now', used', s);
    forall c | c in s.calls
      ensures CallOk(env, now', s, c, s.calls[c])
    {
      CallStaysOk(env, now, s, now', s, c, s.calls[c]);
    }
  }

  lemma NewSessionInv(env: Env, now: int, used: set<Text>)
    ensures SessionInv(env, now, used, NEW_SESSION)
  {}

  lemma SessionOfInv(env: Env, w: World, sid: Text)
    requires Inv(env, w)
    ensures SessionInv(env, w.now, w.used, SessionOf(w, sid))
  {
    NewSessionInv(env, w.now, w.used);
  }

  /** What an action does to one session keeps that session's invariant. */
  lemma ActionKeepsSession(env: Env, w: World, a: Action, sid: Text)
    requires SessionInv(env, w.now, w.used, SessionOf(w, sid)) && Enabled(w, a)
    ensures var w' := Next(env, w, a);
            SessionInv(env, w'.now, w'.used, SessionOf(w', sid)) && Extends(SessionOf(w, sid), w.now, SessionOf(w', sid))
  {
    var w', s := Next(env, w, a), SessionOf(w, sid);
    if a.Tick? || a.sid != sid {
      SessionAges(env, w.now, w.used, w'.now, w'.used, s);
    } else {
      match a
      case Start(_, id, op) => BeginKeepsInv(env, w.now, w.used, s, id, op);
      case Run(_, id, d) => CallStepKeepsInv(env, w.now, w.used, s, id, d);
      case Decay(_, store) => DecayKeepsInv(env, w.now, w.used, s, store);
    }
  }

  /** One action keeps the invariant, and every session's history only grows. */
  lemma NextKeepsInv(env: Env, w: World, a: Action)
    requires Inv(env, w) && Enabled(w, a)
    ensures Inv(env, Next(env, w, a)) && w.now <= Next(env, w, a).now
    ensures forall sid: Text :: Extends(SessionOf(w, sid), w.now, SessionOf(Next(env, w, a), sid))
  {
    var w' := Next(env, w, a);
    forall sid: Text
      ensures SessionInv(env, w'.now, w'.used, SessionOf(w', sid))
      ensures Extends(SessionOf(w, sid), w.now, SessionOf(w', sid))
    {
      SessionOfInv(env, w, sid);
      ActionKeepsSession(env, w, a, sid);
    }
    forall sid | sid in w'.sessions
      ensures SessionInv(env, w'.now, w'.used, w'.sessions[sid])
    {
      assert SessionOf(w', sid) == w'.sessions[sid];
    }
  }

  /** The invariant holds after every run. */
  lemma {:induction false} RunsKeepInv(env: Env, start: int, run: seq<Action>)
    requires IsRun(env, start, run)
    ensures Inv(env, After(env, start, run))
    decreases |run|
  {
    if run != [] {
      var shorter := run[..|run| - 1];
      RunsKeepInv(env, start, shorter);
      NextKeepsInv(env, After(env, start, shorter), run[|run| - 1]);
    }
  }
}
