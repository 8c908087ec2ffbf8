/** What every reachable world satisfies, and why each step keeps it. */
module Invariant {
  import opened Texts
  import opened Wrappers
  import opened Records
  import opened StoreContract
  import opened Server
  import opened Lineage
  import opened Machine

  // ---------------------------------------------------------------- the trace of the two cells

  /** A cell that holds a value holds the newest one written. */
  predicate SnapOk(s: Session, x: Snap) {
    && x.versions <= |s.versions| && x.offers <= |s.offers|
    && (x.store.binding.Stored? ==> x.versions > 0 && x.store.binding.value == s.versions[x.versions - 1].b)
    && (x.store.offer.Stored? ==> x.offers > 0 && x.store.offer.value == s.offers[x.offers - 1])
  }

  /** From one store value to the next, a cell is written, kept, or emptied. */
  predicate SnapStep(x: Snap, y: Snap) {
    && (|| (y.versions == x.versions + 1 && y.store.binding.Stored?)
        || (y.versions == x.versions && (y.store.binding == x.store.binding || !y.store.binding.Stored?)))
    && (|| (y.offers == x.offers + 1 && y.store.offer.Stored?)
        || (y.offers == x.offers && (y.store.offer == x.store.offer || !y.store.offer.Stored?)))
  }

  ghost predicate Traced(s: Session) {
    && s.trace[0] == Snap(EMPTY, Genesis, 0, 0)
    && (forall i :: 0 <= i < |s.trace| ==> SnapOk(s, s.trace[i]))
    && (forall i :: 0 < i < |s.trace| ==> SnapStep(s.trace[i - 1], s.trace[i]))
    && s.trace[Here(s)].versions == |s.versions| && s.trace[Here(s)].offers == |s.offers|
  }

  /** Records are well-formed, their nonces were drawn, and no offer challenge was drawn twice. */
  ghost predicate Known(used: set<Text>, s: Session) {
    && (forall i :: 0 <= i < |s.versions| ==>
          && s.versions[i].b.sessionIdentifier in used
          && s.versions[i].b.cookieValue in used
          && s.versions[i].b.challenge in used
          && s.versions[i].b.Valid())
    && (forall i :: 0 <= i < |s.offers| ==> s.offers[i].regChallenge in used && s.offers[i].Valid())
    && (forall i, j :: 0 <= i < j < |s.offers| ==> s.offers[i].regChallenge != s.offers[j].regChallenge)
  }

  ghost predicate History(env: Env, now: int, used: set<Text>, s: Session) {
    && Traced(s) && Chain(env, s.versions) && Known(used, s)
    && (s.versions != [] ==> s.versions[|s.versions| - 1].at <= now)
  }

  /** While the count of writes stands still, a cell that still holds its value held it throughout. */
  lemma {:induction false} Undisturbed(s: Session, i: nat, j: nat)
    requires Traced(s) && i <= j < |s.trace|
    ensures s.trace[i].versions <= s.trace[j].versions && s.trace[i].offers <= s.trace[j].offers
    ensures s.trace[i].versions == s.trace[j].versions && s.trace[j].store.binding.Stored? ==>
              s.trace[i].store.binding == s.trace[j].store.binding
    ensures s.trace[i].offers == s.trace[j].offers && s.trace[j].store.offer.Stored? ==>
              s.trace[i].store.offer == s.trace[j].store.offer
    decreases j
  {
    if i < j {
      Undisturbed(s, i, j - 1);
      assert SnapStep(s.trace[j - 1], s.trace[j]);
    }
  }

  /** A binding value seen twice was never away: no write and no removal happened in between. */
  lemma SameBindingSameVersion(env: Env, s: Session, i: nat, j: nat)
    requires Traced(s) && Chain(env, s.versions) && i <= j < |s.trace|
    requires s.trace[i].store.binding.Stored? && s.trace[i].store.binding == s.trace[j].store.binding
    ensures s.trace[i].versions == s.trace[j].versions
  {
    Undisturbed(s, i, j);
    assert SnapOk(s, s.trace[i]) && SnapOk(s, s.trace[j]);
    if s.trace[i].versions < s.trace[j].versions {
      NoVersionTwice(env, s.versions, s.trace[i].versions - 1, s.trace[j].versions - 1);
    }
  }

  // ---------------------------------------------------------------- calls

  /** The mark is a read of a binding during the call; its clock divides older writes from newer ones. */
  ghost predicate MarkOk(s: Session, begun: nat, first: Mark)
    requires begun < |s.trace|
  {
    && first.Mark? && 1 <= first.n <= |s.versions| && s.trace[begun].versions <= first.n
    && begun <= first.seen < |s.trace|
    && s.trace[first.seen].versions == first.n && s.trace[first.seen].store.binding.Stored?
    && s.versions[first.n - 1].at <= first.at
    && forall j :: first.n <= j < |s.versions| ==> s.versions[j].at >= first.at
  }

  /** Any binding readable from index `i` on is at least the `n`-th one written. */
  predicate Lost(s: Session, i: nat, n: int)
    requires i < |s.trace|
  {
    s.trace[i].versions >= n || (s.trace[i].versions >= n - 1 && !s.trace[i].store.binding.Stored?)
  }

  /** The token's jti was in a slot of the binding the call read first. */
  predicate Proved(env: Env, s: Session, jwt: Text, n: nat)
    requires 1 <= n <= |s.versions|
  {
    env.jtiOf(jwt).Some? && s.versions[n - 1].b.Holds(env.jtiOf(jwt).value)
  }

  /**
   * A finished call acted at one instant inside its duration: at trace index `w.at` the sequential
   * reference gives the same answer, and the same write if the answer comes with one. Under
   * contention the answer is the refusal, or the unrotated 403, that this instant justifies.
   */
  ghost predicate Explained(env: Env, now: int, s: Session, id: nat, call: Call)
    requires call.pc.Done?
  {
    var w := call.pc.w;
    && call.begun <= w.at < |s.trace|
    && call.beganAt <= w.draw.t1 <= w.draw.t2 <= w.draw.t3 <= now
    && w.draw.t3 <= w.draw.after
    && if w.contended then Contended(env, s, call.begun, call.op, call.pc.outcome, w)
       else Acted(env, s, id, call.op, call.pc.outcome, w)
  }

  ghost predicate Acted(env: Env, s: Session, id: nat, op: Op, o: Outcome, w: Witness)
    requires w.at < |s.trace|
  {
    var (store, answer) := Atomically(env, op, s.trace[w.at].store, w.draw);
    && answer == o
    && if Writes(o)
       then && w.at + 1 < |s.trace| && s.trace[w.at + 1].cause == ByCall(id) && s.trace[w.at + 1].store == store
            && VersionAdded(env, s, op, w)
       else store == s.trace[w.at].store
  }

  /** The version that the write of an operation appends to the history, if it writes a binding. */
  function KindOf(env: Env, op: Op, d: Draw): Option<Kind> {
    match op
    case Register(_, _) => Some(Registration)
    case Issue => Some(Rotation)
    case Advertise(_, _) => Some(Advertisement)
    case Refresh(jwt, _) =>
      if env.jtiOf(jwt).Some? then Some(Refreshment(env.jtiOf(jwt).value, d.t1, d.t2)) else None
    case _ => None
  }

  predicate VersionAdded(env: Env, s: Session, op: Op, w: Witness)
    requires w.at + 1 < |s.trace|
  {
    var n := s.trace[w.at].versions;
    var kind := KindOf(env, op, w.draw);
    && (kind.Some? ==> s.trace[w.at + 1].versions == n + 1 <= |s.versions| && s.versions[n].kind == kind.value)
    && (op.Refresh? ==> kind.Some?)
  }

  /** What a call that lost its conditional writes may answer. */
  ghost predicate Contended(env: Env, s: Session, begun: nat, op: Op, o: Outcome, w: Witness)
    requires begun < |s.trace| && w.at < |s.trace|
  {
    var here := s.trace[w.at];
    match op
    case Register(jwt, _) =>
      && o == Failed(MissingChallenge) && RefusesAlways(env, op, here.store) && !here.store.offer.Unreadable?
      && env.verifyRegistrationJwt(jwt).Some?
      && (here.store.offer.Stored? ==> here.store.offer.value.regChallenge != env.verifyRegistrationJwt(jwt).value.challenge)
    case Refresh(jwt, _) =>
      && o == Failed(ChallengeMismatch) && RefusesAlways(env, op, here.store) && !here.store.binding.Unreadable?
      && MarkOk(s, begun, w.first) && Lost(s, w.at, w.first.n + 3) && Proved(env, s, jwt, w.first.n)
    case Issue =>
      && here.store.binding.Stored?
      && o == Challenge403(here.store.binding.value.sessionIdentifier, here.store.binding.value.challenge)
      && MarkOk(s, begun, w.first) && w.first.n + 3 <= here.versions
    case _ => false
  }

  predicate MarkedBefore(now: int, call: Call) {
    match call.pc
    case Reading(_, Mark(_, at, _), _) => call.beganAt <= at <= now
    case HoldsBinding(_, Mark(_, at, _), _, _, _) => call.beganAt <= at <= now
    case Done(_, Witness(_, _, _, Mark(_, at, _))) => call.beganAt <= at <= now
    case _ => true
  }

  ghost predicate CallOk(env: Env, now: int, s: Session, id: nat, call: Call) {
    && call.begun < |s.trace| && call.beganAt <= now && MarkedBefore(now, call)
    && match call.pc
       case Reading(k, first, since) =>
         && call.begun <= since < |s.trace|
         && (k == 0 ==> first.Unmarked?)
         && (k > 0 ==> && ((call.op.Issue? && k <= 3) || (call.op.Refresh? && k <= 2))
                       && MarkOk(s, call.begun, first) && Lost(s, since, first.n + k)
                       && (call.op.Refresh? ==> Proved(env, s, call.op.jwt, first.n)))
       case HoldsOffer(pending, readAt, seen) =>
         && call.op.Register? && call.beganAt <= readAt <= now
         && call.begun <= seen < |s.trace| && s.trace[seen].store.offer == Stored(pending)
       case HoldsBinding(k, first, b, readAt, seen) =>
         && (call.op.Issue? || call.op.Refresh? || (call.op.Gate? && k == 0)) && k <= 2
         && call.beganAt <= readAt <= now
         && call.begun <= seen < |s.trace| && s.trace[seen].store.binding == Stored(b)
         && MarkOk(s, call.begun, first)
         && SnapOk(s, s.trace[seen]) && s.versions[s.trace[seen].versions - 1].at <= readAt
         && s.trace[seen].versions >= first.n + k && (k == 0 ==> s.trace[seen].versions == first.n)
         && (k > 0 && call.op.Refresh? ==> Proved(env, s, call.op.jwt, first.n))
       case Deleting => call.op.Revoke?
       case Done(_, _) => Explained(env, now, s, id, call)
  }

  /** Every store value is the initial one, decay, or the one write of a finished call. */
  ghost predicate Owned(s: Session) {
    forall i :: 0 < i < |s.trace| ==> OwnedAt(s, i)
  }

  predicate OwnedAt(s: Session, i: nat)
    requires 0 < i < |s.trace|
  {
    match s.trace[i].cause
    case Genesis => false
    case Environment =>
      && Degrades(s.trace[i - 1].store.offer, s.trace[i].store.offer)
      && Degrades(s.trace[i - 1].store.binding, s.trace[i].store.binding)
    case ByCall(id) => id in s.calls && Wrote(s.calls[id], i)
  }

  predicate Wrote(call: Call, i: nat) {
    call.pc.Done? && Writes(call.pc.outcome) && !call.pc.w.contended && call.pc.w.at + 1 == i
  }

  ghost predicate SessionInv(env: Env, now: int, used: set<Text>, s: Session) {
    && History(env, now, used, s)
    && Owned(s)
    && forall id :: id in s.calls ==> CallOk(env, now, s, id, s.calls[id])
  }

  ghost predicate Inv(env: Env, w: World) {
    forall sid :: sid in w.sessions ==> SessionInv(env, w.now, w.used, w.sessions[sid])
  }

  // ---------------------------------------------------------------- growth

  /** `t` continues `s`: nothing recorded is ever changed, and nothing new is older than `now`. */
  ghost predicate Extends(s: Session, now: int, t: Session) {
    && s.trace <= t.trace && s.versions <= t.versions && s.offers <= t.offers
    && forall j :: |s.versions| <= j < |t.versions| ==> t.versions[j].at >= now
  }

  lemma ExtendsTransitively(s: Session, now: int, t: Session, now': int, u: Session)
    requires Extends(s, now, t) && Extends(t, now', u) && now <= now'
    ensures Extends(s, now, u)
  {}

  /** What is known of a call stays true whatever others do. */
  lemma CallStaysOk(env: Env, now: int, s: Session, now': int, t: Session, id: nat, call: Call)
    requires CallOk(env, now, s, id, call)
    requires Extends(s, now, t) && now <= now'
    ensures CallOk(env, now', t, id, call)
  {
    assert forall i :: 0 <= i < |s.trace| ==> t.trace[i] == s.trace[i];
    assert forall i :: 0 <= i < |s.versions| ==> t.versions[i] == s.versions[i];
  }

  // ---------------------------------------------------------------- writes

  /** The writes the protocol and its surroundings make: a new binding, a new offer, or removal. */
  ghost predicate Lawful(env: Env, now: int, used: set<Text>, used': set<Text>, s: Session, w: Write) {
    var store := Current(s);
    if w.version.Some? then
      var v := w.version.value;
      && w.offer.None? && v.at == now
      && w.store.binding == Stored(v.b)
      && (w.store.offer == store.offer || w.store.offer.Absent?)
      && Link(env, s.versions + [v], |s.versions|)
      && v.b.sessionIdentifier in used' && v.b.cookieValue in used' && v.b.challenge in used' && v.b.Valid()
    else if w.offer.Some? then
      && w.store == PutPendingRegistration(store, w.offer.value)
      && w.offer.value.regChallenge !in used && w.offer.value.regChallenge in used' && w.offer.value.Valid()
    else
      && (w.store.offer == store.offer || !w.store.offer.Stored?)
      && (w.store.binding == store.binding || !w.store.binding.Stored?)
  }

  /** What a lawful write appends continues the last store value. */
  lemma NewSnapFits(env: Env, now: int, used: set<Text>, used': set<Text>, s: Session, w: Write, cause: Cause)
    requires History(env, now, used, s) && Lawful(env, now, used, used', s, w)
    ensures var t := Record(s, w, cause); SnapOk(t, t.trace[|s.trace|]) && SnapStep(s.trace[|s.trace| - 1], t.trace[|s.trace|])
  {
    assert SnapOk(s, s.trace[|s.trace| - 1]);
  }

  lemma WriteKeepsTrace(env: Env, now: int, used: set<Text>, used': set<Text>, s: Session, w: Write, cause: Cause)
    requires History(env, now, used, s) && Lawful(env, now, used, used', s, w)
    ensures Traced(Record(s, w, cause))
  {
    var t := Record(s, w, cause);
    var n := |s.trace|;
    NewSnapFits(env, now, used, used', s, w, cause);
    forall i | 0 <= i < |t.trace|
      ensures SnapOk(t, t.trace[i])
    {
      if i < n {
        assert SnapOk(s, s.trace[i]);
      }
    }
    forall i | 0 < i < |t.trace|
      ensures SnapStep(t.trace[i - 1], t.trace[i])
    {
      if i < n {
        assert SnapStep(s.trace[i - 1], s.trace[i]);
      }
    }
  }

  lemma WriteKeepsHistory(env: Env, now: int, used: set<Text>, used': set<Text>, s: Session, w: Write, cause: Cause)
    requires History(env, now, used, s) && used <= used'
    requires Lawful(env, now, used, used', s, w)
    ensures History(env, now, used', Record(s, w, cause))
    ensures Extends(s, now, Record(s, w, cause))
  {
    WriteKeepsTrace(env, now, used, used', s, w, cause);
    if w.version.Some? {
      AppendLink(env, s.versions, w.version.value);
    }
  }

  lemma HistoryAges(env: Env, now: int, used: set<Text>, now': int, used': set<Text>, s: Session)
    requires History(env, now, used, s) && now <= now' && used <= used'
    ensures History(env, now', used', s)
  {}

  /** The current binding is the newest version, so a conditional write that succeeds follows it. */
  lemma CurrentIsNewest(env: Env, now: int, used: set<Text>, s: Session, b: Binding)
    requires History(env, now, used, s) && Current(s).binding == Stored(b)
    ensures |s.versions| > 0 && s.versions[|s.versions| - 1].b == b && s.versions[|s.versions| - 1].at <= now
  {
    assert SnapOk(s, s.trace[Here(s)]);
  }

  /** ... and was read after that version was written. */
  lemma ReadAfterNewest(env: Env, now: int, used: set<Text>, s: Session, id: nat, call: Call)
    requires History(env, now, used, s) && CallOk(env, now, s, id, call)
    requires call.pc.HoldsBinding? && Current(s).binding == Stored(call.pc.b)
    ensures s.trace[call.pc.seen].versions == |s.versions|
    ensures |s.versions| > 0 && s.versions[|s.versions| - 1].b == call.pc.b
    ensures s.versions[|s.versions| - 1].at <= call.pc.readAt
  {
    CurrentIsNewest(env, now, used, s, call.pc.b);
    SameBindingSameVersion(env, s, call.pc.seen, Here(s));
  }

  /** A conditional write that finds another value was overtaken by a write or a removal. */
  lemma ConflictMeansLost(env: Env, now: int, used: set<Text>, s: Session, id: nat, call: Call)
    requires History(env, now, used, s) && CallOk(env, now, s, id, call)
    requires call.pc.HoldsBinding? && Current(s).binding != Stored(call.pc.b)
    ensures Lost(s, Here(s), call.pc.first.n + call.pc.attempt + 1)
  {
    Undisturbed(s, call.pc.seen, Here(s));
  }

  /** A read that finds a binding after a lost write finds a later one. */
  lemma ReadAfterLoss(env: Env, now: int, used: set<Text>, s: Session, since: nat, n: int)
    requires History(env, now, used, s) && since < |s.trace| && Lost(s, since, n)
    requires Current(s).binding.Stored?
    ensures |s.versions| >= n
  {
    Undisturbed(s, since, Here(s));
  }
}
