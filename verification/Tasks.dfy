/**
 * The asynchronous methods of `DbscServer` as they are written: loops, early returns, and an await
 * before every store access at which anything else may happen. Each is proved to be a path of the
 * step machine that ends with the answer it returns, hence to act at one instant of its duration.
 */
module Tasks {
  import opened Texts
  import opened Validate
  import opened Wrappers
  import opened Records
  import opened StoreContract
  import opened Server
  import opened Machine
  import opened Invariant
  import opened Steps
  import opened Theorems
  import opened Outcomes

  /** The server at work on one session, in a world shared with every other call. */
  class DbscServer {
    const env: Env
    const sid: Text
    const start: int
    var world: World
    ghost var run: seq<Action>

    constructor (env: Env, sid: Text, start: int)
      ensures Valid() && this.env == env && this.sid == sid && S() == NEW_SESSION && run == []
    {
      this.env, this.sid, this.start := env, sid, start;
      world, run := Initial(start), [];
    }

    /** The world is what the actions so far made of it. */
    ghost predicate Valid()
      reads this
    {
      IsRun(env, start, run) && world == After(env, start, run)
    }

    function S(): Session
      reads this
    {
      SessionOf(world, sid)
    }

    /** Call `id` is about to read for its `attempt`-th attempt, counted from zero. */
    predicate IsReading(id: nat, op: Op, attempt: nat)
      reads this
    {
      && id in S().calls && S().calls[id].op == op
      && S().calls[id].pc.Reading? && S().calls[id].pc.attempt == attempt
    }

    /**
     * Call `id` ended with `o`, at one instant of its own duration: it is the answer of the sequential
     * operation there, and the one that the cells and the history at that instant decide.
     */
    ghost predicate Ended(id: nat, op: Op, o: Outcome)
      reads this
    {
      && id in S().calls && S().calls[id].op == op && S().calls[id].pc.Done? && S().calls[id].pc.outcome == o
      && Explained(env, world.now, S(), id, S().calls[id])
      && Decided(env, world.now, S(), id, S().calls[id])
    }

    method Act(a: Action)
      requires Valid() && Enabled(world, a)
      modifies this
      ensures Valid() && run == old(run) + [a] && world == Next(env, old(world), a)
    {
      world := Next(env, world, a);
      run := run + [a];
      assert run[..|run| - 1] == old(run);
    }

    /** An await: other calls, the clock and decay take any number of actions. */
    method Await(id: nat)
      requires Valid() && id in S().calls
      modifies this
      ensures Valid() && old(run) <= run && id in S().calls && S().calls[id] == old(S().calls[id])
    {
      var actions: int := *;
      while actions > 0
        invariant Valid() && old(run) <= run && id in S().calls && S().calls[id] == old(S().calls[id])
      {
        var a: Action := *;
        if Enabled(world, a) && !(a.Run? && a.sid == sid && a.id == id) {
          Act(a);
        }
        actions := actions - 1;
      }
    }

    /** Some clock samples and fresh nonces the next step of the call may use. */
    method Sample(id: nat) returns (d: Draw)
      requires Valid() && id in S().calls && !S().calls[id].pc.Done?
      ensures Enabled(world, Run(sid, id, d))
    {
      d := *;
      if !Enabled(world, Run(sid, id, d)) {
        RunsKeepInv(env, start, run);
        SessionOfInv(env, world, sid);
        assert CallOk(env, world.now, S(), id, S().calls[id]);
        var n1, n2, n3 := FreshNonces(world.used);
        d := Draw(world.now, world.now, world.now, world.now, n1, n2, n3);
      }
    }

    /** An await that ends with the call about to take its next step. */
    method Resume(id: nat) returns (d: Draw)
      requires Valid() && id in S().calls && !S().calls[id].pc.Done?
      modifies this
      ensures Valid() && old(run) <= run && id in S().calls && S().calls[id] == old(S().calls[id])
      ensures Enabled(world, Run(sid, id, d))
    {
      Await(id);
      d := Sample(id);
    }

    /** One step of the call: its next store access, with the computation before it. */
    method Step(id: nat, d: Draw)
      requires Valid() && Enabled(world, Run(sid, id, d))
      modifies this
      ensures Valid() && old(run) <= run && id in S().calls
      ensures S().calls[id] ==
                old(S().calls[id]).(pc := Advance(env, old(world.now), old(S()), old(S().calls[id]), d).1)
    {
      Act(Run(sid, id, d));
    }

    lemma EndedAsExplained(id: nat, op: Op, o: Outcome)
      requires Valid()
      requires id in S().calls && S().calls[id].op == op && S().calls[id].pc.Done? && S().calls[id].pc.outcome == o
      ensures Ended(id, op, o)
    {
      assert ReachedBy(env, world.now, S(), start, run, sid);
      CallOf(env, world.now, S(), id);
      EveryCallIsDecided(env, world.now, S(), id);
    }

    method Begin(id: nat, op: Op)
      requires Valid() && id !in S().calls
      modifies this
      ensures Valid() && old(run) <= run
      ensures IsReading(id, op, 0)
    {
      Act(Start(sid, id, op));
    }

    method BuildRegistrationHeaderResponse(id: nat, ctx: Ctx) returns (o: Outcome)
      requires Valid() && id !in S().calls
      modifies this
      ensures Valid() && old(run) <= run && Ended(id, Op.Offer(ctx), o)
    {
      Begin(id, Op.Offer(ctx));
      var d := Resume(id);
      Step(id, d);
      o := Offered(d.n1);
      EndedAsExplained(id, Op.Offer(ctx), o);
    }

    /** The second half of `register`, with the offer that was read. */
    method CommitOffer(id: nat, jwt: Text, ctx: Ctx, pending: PendingRegistration) returns (o: Outcome)
      requires Valid() && id in S().calls && S().calls[id].op == Op.Register(jwt, ctx)
      requires S().calls[id].pc.HoldsOffer? && S().calls[id].pc.pending == pending
      modifies this
      ensures Valid() && old(run) <= run && Ended(id, Op.Register(jwt, ctx), o)
    {
      var d := Resume(id);
      var checked := CheckOffer(env, pending, jwt, ctx, d.t1);
      if checked.Err? {
        Step(id, d);
        o := Failed(checked.error);
      } else {
        var b := NewBinding(pending, checked.value, ctx, d);
        var (_, verdict) := CommitRegistration(Current(S()), pending, b);
        Step(id, d);
        match verdict {
          case Written => o := Registered(b.sessionIdentifier, b.cookieValue, d.after + env.cookieMaxAgeSeconds);
          case Corrupt => o := Failed(CorruptState);
          case Conflict => o := Failed(MissingChallenge);
        }
      }
      EndedAsExplained(id, Op.Register(jwt, ctx), o);
    }

    method Register(id: nat, jwt: Text, ctx: Ctx) returns (o: Outcome)
      requires Valid() && id !in S().calls
      modifies this
      ensures Valid() && old(run) <= run && Ended(id, Op.Register(jwt, ctx), o)
    {
      Begin(id, Op.Register(jwt, ctx));
      var d := Resume(id);
      var cell := Current(S()).offer;
      Step(id, d);
      if cell.Stored? {
        o := CommitOffer(id, jwt, ctx, cell.value);
      } else {
        o := Failed(if cell.Absent? then MissingChallenge else CorruptState);
        EndedAsExplained(id, Op.Register(jwt, ctx), o);
      }
    }

    /** One turn of the loop in `issue_refresh_challenge`: read, rotate; `None` after a conflict. */
    method TryRotate(id: nat, attempt: nat) returns (r: Option<Outcome>)
      requires Valid() && IsReading(id, Op.Issue, attempt) && attempt < MAX_UPDATE_ATTEMPTS
      modifies this
      ensures Valid() && old(run) <= run
      ensures if r.Some? then Ended(id, Op.Issue, r.value) else IsReading(id, Op.Issue, attempt + 1)
    {
      var d := Resume(id);
      var cell := Current(S()).binding;
      Step(id, d);
      if !cell.Stored? {
        r := Some(if cell.Absent? then Bare403 else Failed(CorruptState));
        EndedAsExplained(id, Op.Issue, r.value);
        return;
      }
      d := Resume(id);
      var rotated := cell.value.WithChallenge(d.n1, d.t1);
      var (_, verdict) := ReplaceBinding(Current(S()), cell.value, rotated);
      Step(id, d);
      if verdict == Conflict {
        return None;
      }
      r := Some(if verdict == Written then Challenge403(rotated.sessionIdentifier, d.n1) else Failed(CorruptState));
      EndedAsExplained(id, Op.Issue, r.value);
    }

    method IssueRefreshChallenge(id: nat) returns (o: Outcome)
      requires Valid() && id !in S().calls
      modifies this
      ensures Valid() && old(run) <= run && Ended(id, Op.Issue, o)
    {
      Begin(id, Op.Issue);
      var attempt := 0;
      while attempt < MAX_UPDATE_ATTEMPTS
        invariant Valid() && old(run) <= run && attempt <= MAX_UPDATE_ATTEMPTS
        invariant IsReading(id, Op.Issue, attempt)
      {
        var r := TryRotate(id, attempt);
        if r.Some? {
          return r.value;
        }
        attempt := attempt + 1;
      }
      var d := Resume(id);
      var cell := Current(S()).binding;
      Step(id, d);
      o := match cell
      case Absent => Bare403
      case Unreadable => Failed(CorruptState)
      case Stored(b) => Challenge403(b.sessionIdentifier, b.challenge);
      EndedAsExplained(id, Op.Issue, o);
    }

    /** One turn of the loop in `refresh`: read and prove, rotate; `None` after a conflict. */
    method TryRefresh(id: nat, jwt: Text, ctx: Ctx, attempt: nat) returns (r: Option<Outcome>)
      requires Valid() && IsReading(id, Op.Refresh(jwt, ctx), attempt) && attempt < MAX_UPDATE_ATTEMPTS
      modifies this
      ensures Valid() && old(run) <= run
      ensures if r.Some? then Ended(id, Op.Refresh(jwt, ctx), r.value)
              else if attempt + 1 < MAX_UPDATE_ATTEMPTS then IsReading(id, Op.Refresh(jwt, ctx), attempt + 1)
              else Ended(id, Op.Refresh(jwt, ctx), Failed(ChallengeMismatch))
    {
      var op := Op.Refresh(jwt, ctx);
      var d := Resume(id);
      var cell := Current(S()).binding;
      Step(id, d);
      if !cell.Stored? {
        r := Some(Failed(if cell.Absent? then SessionNotFound else CorruptState));
        EndedAsExplained(id, op, r.value);
        return;
      }
      d := Resume(id);
      var failure := CheckProof(env, cell.value, jwt, ctx, d.t1, d.t2);
      if failure.Some? {
        Step(id, d);
        r := Some(Failed(failure.value));
        EndedAsExplained(id, op, r.value);
        return;
      }
      var rotated := cell.value.WithRotatedCookieAndChallenge(d.n1, d.n2, d.t3, d.t3, env.cookieMaxAgeSeconds);
      var (_, verdict) := ReplaceBinding(Current(S()), cell.value, rotated);
      Step(id, d);
      if verdict == Conflict {
        if attempt + 1 == MAX_UPDATE_ATTEMPTS {
          EndedAsExplained(id, op, Failed(ChallengeMismatch));
        }
        return None;
      }
      r := Some(if verdict == Corrupt then Failed(CorruptState)
                else Refreshed(rotated.sessionIdentifier, d.n1, d.n2, d.after + env.cookieMaxAgeSeconds));
      EndedAsExplained(id, op, r.value);
    }

    method Refresh(id: nat, jwt: Text, ctx: Ctx) returns (o: Outcome)
      requires Valid() && id !in S().calls
      modifies this
      ensures Valid() && old(run) <= run && Ended(id, Op.Refresh(jwt, ctx), o)
    {
      Begin(id, Op.Refresh(jwt, ctx));
      var attempt := 0;
      while attempt < MAX_UPDATE_ATTEMPTS
        invariant Valid() && old(run) <= run && attempt <= MAX_UPDATE_ATTEMPTS
        invariant if attempt < MAX_UPDATE_ATTEMPTS then IsReading(id, Op.Refresh(jwt, ctx), attempt)
                  else Ended(id, Op.Refresh(jwt, ctx), Failed(ChallengeMismatch))
      {
        var r := TryRefresh(id, jwt, ctx, attempt);
        if r.Some? {
          return r.value;
        }
        attempt := attempt + 1;
      }
      return Failed(ChallengeMismatch);
    }

    method AdvertiseRefreshChallenge(id: nat, held: Binding, ctx: Ctx) returns (o: Outcome)
      requires Valid() && id !in S().calls
      modifies this
      ensures Valid() && old(run) <= run && Ended(id, Op.Advertise(held, ctx), o)
    {
      var op := Op.Advertise(held, ctx);
      Begin(id, op);
      var d := Resume(id);
      if !WorthAdvertising(env, held, ctx, d.t1) {
        Step(id, d);
        o := Silent;
      } else {
        var (_, verdict) := ReplaceBinding(Current(S()), held, held.MarkChallengeAdvertised());
        Step(id, d);
        match verdict {
          case Written => o := Advertised(held.sessionIdentifier, held.challenge);
          case Corrupt => o := Failed(CorruptState);
          case Conflict => o := Silent;
        }
      }
      EndedAsExplained(id, op, o);
    }

    method RevokeSession(id: nat) returns (o: Outcome)
      requires Valid() && id !in S().calls
      modifies this
      ensures Valid() && old(run) <= run && Ended(id, Op.Revoke, o)
    {
      Begin(id, Op.Revoke);
      var d := Resume(id);
      Step(id, d);
      d := Resume(id);
      Step(id, d);
      o := Revoked;
      EndedAsExplained(id, Op.Revoke, o);
    }

    /** The second half of the gate, with the binding that was read. */
    method CheckCookie(id: nat, ctx: Ctx, b: Binding) returns (o: Outcome)
      requires Valid() && id in S().calls && S().calls[id].op == Op.Gate(ctx)
      requires S().calls[id].pc.HoldsBinding? && S().calls[id].pc.b == b
      modifies this
      ensures Valid() && old(run) <= run && Ended(id, Op.Gate(ctx), o)
    {
      var d := Resume(id);
      Step(id, d);
      o := if GateAdmits(env, b, ctx, d.t1, d.t2) then Admitted else Refused;
      EndedAsExplained(id, Op.Gate(ctx), o);
    }

    /** The recommended gate: read the binding, then check the cookie. */
    method Enforce(id: nat, ctx: Ctx) returns (o: Outcome)
      requires Valid() && id !in S().calls
      modifies this
      ensures Valid() && old(run) <= run && Ended(id, Op.Gate(ctx), o)
    {
      Begin(id, Op.Gate(ctx));
      var d := Resume(id);
      var cell := Current(S()).binding;
      Step(id, d);
      if cell.Stored? {
        o := CheckCookie(id, ctx, cell.value);
      } else {
        o := if cell.Absent? then Unbound else Failed(CorruptState);
        EndedAsExplained(id, Op.Gate(ctx), o);
      }
    }
  }

  /** Three hex strings longer than anything drawn so far. */
  method FreshNonces(used: set<Text>) returns (n1: Text, n2: Text, n3: Text)
    ensures IsHex(n1) && IsHex(n2) && IsHex(n3)
    ensures n1 !in used && n2 !in used && n3 !in used && n1 != n2 && n1 != n3 && n2 != n3
  {
    var longest: nat := 0;
    var rest := used;
    while rest != {}
      invariant rest <= used && forall t :: t in used - rest ==> |t| <= longest
      decreases rest
    {
      var t: Text :| t in rest;
      if |t| > longest { longest := |t|; }
      rest := rest - {t};
    }
    assert used - rest == used;
    n1 := seq(longest + 1, i => 0x30);
    n2 := seq(longest + 2, i => 0x30);
    n3 := seq(longest + 3, i => 0x30);
  }
}
