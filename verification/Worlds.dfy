/** What holds across the sessions of one world: nothing secret is ever shared, so nothing is spent twice. */
module Worlds {
  import opened Texts
  import opened Records
  import opened StoreContract
  import opened Server
  import opened Lineage
  import opened Machine
  import opened Invariant
  import opened Steps
  import opened Theorems

  /** The values a session drew for the bindings and offers it ever stored. */
  ghost predicate Minted(s: Session, x: Text) {
    || (exists i :: 0 <= i < |s.versions| && Carries(s.versions[i].b, x))
    || (exists i :: 0 <= i < |s.offers| && s.offers[i].regChallenge == x)
  }

  predicate Carries(b: Binding, x: Text) {
    x == b.challenge || x == b.cookieValue || x == b.sessionIdentifier
  }

  /** No two sessions share a challenge, a cookie, a session identifier or an offer's challenge. */
  ghost predicate Apart(w: World) {
    && (forall a, x :: MintedIn(w, a, x) ==> x in w.used)
    && (forall a, b, x :: MintedIn(w, a, x) && MintedIn(w, b, x) ==> a == b)
  }

  ghost predicate MintedIn(w: World, a: Text, x: Text) {
    a in w.sessions && Minted(w.sessions[a], x)
  }

  function Nonces(d: Draw): set<Text> {
    {d.n1, d.n2, d.n3}
  }

  /** What a write stores was drawn for it, or is carried over from the binding it replaces. */
  lemma WritesDrawOrKeep(env: Env, now: int, s: Session, call: Call, d: Draw, x: Text)
    requires var w := Advance(env, now, s, call, d).0;
             w.Some? && w.value.version.Some? && Carries(w.value.version.value.b, x)
    ensures x in Nonces(d) || (Current(s).binding.Stored? && Carries(Current(s).binding.value, x))
  {}

  lemma OffersAreDrawn(env: Env, now: int, s: Session, call: Call, d: Draw)
    requires var w := Advance(env, now, s, call, d).0; w.Some? && w.value.offer.Some?
    ensures Advance(env, now, s, call, d).0.value.offer.value.regChallenge in Nonces(d)
  {}

  lemma CurrentWasMinted(s: Session, x: Text)
    requires Traced(s) && Current(s).binding.Stored? && Carries(Current(s).binding.value, x)
    ensures Minted(s, x)
  {
    assert SnapOk(s, s.trace[Here(s)]);
  }

  /** A step mints nothing but what it draws. */
  lemma StepMintsItsDraw(env: Env, now: int, s: Session, id: nat, d: Draw, x: Text)
    requires id in s.calls && Traced(s) && Minted(StepSession(env, now, s, id, d), x)
    ensures Minted(s, x) || x in Nonces(d)
  {
    var t := StepSession(env, now, s, id, d);
    var w := Advance(env, now, s, s.calls[id], d).0;
    if i :| 0 <= i < |t.versions| && Carries(t.versions[i].b, x) {
      if i < |s.versions| {
        assert Carries(s.versions[i].b, x);
      } else {
        WritesDrawOrKeep(env, now, s, s.calls[id], d, x);
        if x !in Nonces(d) {
          CurrentWasMinted(s, x);
        }
      }
    } else {
      var i :| 0 <= i < |t.offers| && t.offers[i].regChallenge == x;
      if i < |s.offers| {
        assert s.offers[i].regChallenge == x;
      } else {
        OffersAreDrawn(env, now, s, s.calls[id], d);
      }
    }
  }

  /** An action mints in its own session only, and only what it draws. */
  lemma ActionMintsItsDraw(env: Env, w: World, a: Action, sid: Text, x: Text)
    requires Inv(env, w) && Enabled(w, a)
    requires MintedIn(Next(env, w, a), sid, x)
    ensures MintedIn(w, sid, x) || (a.Run? && a.sid == sid && x in Nonces(a.d))
  {
    if a.Run? && a.sid == sid {
      SessionOfInv(env, w, sid);
      StepMintsItsDraw(env, w.now, SessionOf(w, sid), a.id, a.d, x);
    } else if !a.Tick? && a.sid == sid {
      var s, t := SessionOf(w, sid), Next(env, w, a).sessions[sid];
      assert t.versions == s.versions && t.offers == s.offers;
    }
  }

  /** How the world of minted values moves: an action adds some of what it draws to one session. */
  lemma ActionDraws(env: Env, w: World, a: Action)
    requires Inv(env, w) && Enabled(w, a)
    ensures w.used <= Next(env, w, a).used
    ensures a.Run? ==> Nonces(a.d) <= Next(env, w, a).used && Nonces(a.d) !! w.used
  {}

  lemma NextKeepsApart(env: Env, w: World, a: Action)
    requires Inv(env, w) && Enabled(w, a) && Apart(w)
    ensures Apart(Next(env, w, a))
  {
    var w' := Next(env, w, a);
    ActionDraws(env, w, a);
    forall sid, x | MintedIn(w', sid, x)
      ensures MintedIn(w, sid, x) || (a.Run? && a.sid == sid && x in Nonces(a.d))
    {
      ActionMintsItsDraw(env, w, a, sid, x);
    }
    StaysApart(w, w', if a.Run? then Nonces(a.d) else {}, if a.Run? then a.sid else []);
  }

  lemma StaysApart(w: World, w': World, drawn: set<Text>, sid: Text)
    requires Apart(w) && w.used <= w'.used && drawn <= w'.used && drawn !! w.used
    requires forall p, x :: MintedIn(w', p, x) ==> MintedIn(w, p, x) || (p == sid && x in drawn)
    ensures Apart(w')
  {}

  lemma {:induction false} RunsKeepApart(env: Env, start: int, run: seq<Action>)
    requires IsRun(env, start, run)
    ensures Apart(After(env, start, run))
    decreases |run|
  {
    if run != [] {
      var shorter := run[..|run| - 1];
      RunsKeepApart(env, start, shorter);
      RunsKeepInv(env, start, shorter);
      NextKeepsApart(env, After(env, start, shorter), run[|run| - 1]);
    }
  }

  /** No two sessions of one run minted the same value. */
  lemma SessionsMintApart(env: Env, start: int, run: seq<Action>, p: Text, q: Text, x: Text)
    requires IsRun(env, start, run)
    requires Minted(Reached(env, start, run, p), x) && Minted(Reached(env, start, run, q), x)
    ensures p == q
  {
    RunsKeepApart(env, start, run);
    assert MintedIn(After(env, start, run), p, x) && MintedIn(After(env, start, run), q, x);
  }

  // ---------------------------------------------------------------- single use across sessions

  /** A call of a run, told apart from others by its session and number. */
  ghost predicate Finished(env: Env, start: int, run: seq<Action>, p: Text, a: nat)
    requires IsRun(env, start, run)
  {
    a in Reached(env, start, run, p).calls && Reached(env, start, run, p).calls[a].pc.Done?
  }

  ghost function CallAt(env: Env, start: int, run: seq<Action>, p: Text, a: nat): Call
    requires IsRun(env, start, run) && Finished(env, start, run, p, a)
  {
    Reached(env, start, run, p).calls[a]
  }

  lemma IsReachable(env: Env, start: int, run: seq<Action>, p: Text)
    requires IsRun(env, start, run)
    ensures Reachable(env, After(env, start, run).now, Reached(env, start, run, p))
  {
    assert ReachedBy(env, After(env, start, run).now, Reached(env, start, run, p), start, run, p);
  }

  /** The jti that a successful refresh proved was minted in its own session. */
  lemma SpentWasMinted(env: Env, start: int, run: seq<Action>, p: Text, a: nat)
    requires IsRun(env, start, run) && Finished(env, start, run, p, a)
    requires CallAt(env, start, run, p, a).pc.outcome.Refreshed?
    ensures var op := CallAt(env, start, run, p, a).op;
            op.Refresh? && env.jtiOf(op.jwt).Some? && Minted(Reached(env, start, run, p), env.jtiOf(op.jwt).value)
  {
    var s, now := Reached(env, start, run, p), After(env, start, run).now;
    IsReachable(env, start, run, p);
    var n := WriteOf(env, now, s, a);
    TraceOf(env, now, s);
    var k := ProvedWasMinted(env, s.versions, n);
    assert Carries(s.versions[k].b, env.jtiOf(s.calls[a].op.jwt).value);
  }

  /** No two successful refreshes of a run, of one session or of two, proved the same challenge. */
  lemma ChallengesAreSpentOnce(env: Env, start: int, run: seq<Action>, p: Text, a: nat, q: Text, b: nat)
    requires IsRun(env, start, run) && (p != q || a != b)
    requires Finished(env, start, run, p, a) && CallAt(env, start, run, p, a).pc.outcome.Refreshed?
    requires Finished(env, start, run, q, b) && CallAt(env, start, run, q, b).pc.outcome.Refreshed?
    ensures CallAt(env, start, run, p, a).op.Refresh? && CallAt(env, start, run, q, b).op.Refresh?
    ensures env.jtiOf(CallAt(env, start, run, p, a).op.jwt) != env.jtiOf(CallAt(env, start, run, q, b).op.jwt)
  {
    SpentWasMinted(env, start, run, p, a);
    SpentWasMinted(env, start, run, q, b);
    if p == q {
      IsReachable(env, start, run, p);
      SpentOnceInSession(env, After(env, start, run).now, Reached(env, start, run, p), a, b);
    } else if env.jtiOf(CallAt(env, start, run, p, a).op.jwt) == env.jtiOf(CallAt(env, start, run, q, b).op.jwt) {
      SessionsMintApart(env, start, run, p, q, env.jtiOf(CallAt(env, start, run, p, a).op.jwt).value);
    }
  }

  /** The cookie and id that a registration or refresh emits are those of the version it wrote. */
  lemma EmittedAsWritten(env: Env, start: int, run: seq<Action>, p: Text, a: nat) returns (n: nat)
    requires IsRun(env, start, run) && Finished(env, start, run, p, a)
    requires var o := CallAt(env, start, run, p, a).pc.outcome; o.Registered? || o.Refreshed?
    ensures var s := Reached(env, start, run, p); var call := s.calls[a];
            && n < |s.versions| && NewCookie(s.versions, n) && call.pc.outcome.cookie == s.versions[n].b.cookieValue
            && call.pc.outcome.id == s.versions[n].b.sessionIdentifier
            && (call.pc.outcome.Registered? ==> NewLineage(s.versions, n))
            && WroteVersion(s, a, n)
    ensures var s := Reached(env, start, run, p); Minted(s, s.versions[n].b.cookieValue)
    ensures var s := Reached(env, start, run, p); Minted(s, s.versions[n].b.sessionIdentifier)
  {
    var s, now := Reached(env, start, run, p), After(env, start, run).now;
    IsReachable(env, start, run, p);
    n := WriteOf(env, now, s, a);
    CallOf(env, now, s, a);
    TraceOf(env, now, s);
    assert Link(env, s.versions, n);
    assert Carries(s.versions[n].b, s.versions[n].b.cookieValue) && Carries(s.versions[n].b, s.versions[n].b.sessionIdentifier);
  }

  /** Different calls of one session wrote different versions. */
  lemma WroteApart(env: Env, now: int, s: Session, a: nat, m: nat, b: nat, n: nat)
    requires Reachable(env, now, s) && a != b
    requires a in s.calls && s.calls[a].pc.Done? && WroteVersion(s, a, m)
    requires b in s.calls && s.calls[b].pc.Done? && WroteVersion(s, b, n)
    ensures m != n
  {
    var i, j := s.calls[a].pc.w.at, s.calls[b].pc.w.at;
    if i < j {
      VersionsInOrder(env, now, s, i, j);
    } else if j < i {
      VersionsInOrder(env, now, s, j, i);
    }
  }

  predicate WroteVersion(s: Session, a: nat, n: nat)
    requires a in s.calls && s.calls[a].pc.Done?
  {
    var at := s.calls[a].pc.w.at;
    at + 1 < |s.trace| && s.trace[at].versions == n && s.trace[at + 1].cause == ByCall(a) && s.trace[at + 1].versions == n + 1
  }

  /** Every cookie, and every session identifier, is issued once in a run, whatever the session. */
  lemma NothingIsIssuedTwice(env: Env, start: int, run: seq<Action>, p: Text, a: nat, q: Text, b: nat)
    requires IsRun(env, start, run) && (p != q || a != b)
    requires Finished(env, start, run, p, a) && Finished(env, start, run, q, b)
    requires var o := CallAt(env, start, run, p, a).pc.outcome; o.Registered? || o.Refreshed?
    requires var o := CallAt(env, start, run, q, b).pc.outcome; o.Registered? || o.Refreshed?
    ensures var o, o' := CallAt(env, start, run, p, a).pc.outcome, CallAt(env, start, run, q, b).pc.outcome;
            o.cookie != o'.cookie && (p != q || (o.Registered? && o'.Registered?) ==> o.id != o'.id)
  {
    var m := EmittedAsWritten(env, start, run, p, a);
    var n := EmittedAsWritten(env, start, run, q, b);
    if p == q {
      IsReachable(env, start, run, p);
      WroteApart(env, After(env, start, run).now, Reached(env, start, run, p), a, m, b, n);
      assert m < n || n < m;
    } else {
      var o, o' := CallAt(env, start, run, p, a).pc.outcome, CallAt(env, start, run, q, b).pc.outcome;
      if o.cookie == o'.cookie {
        SessionsMintApart(env, start, run, p, q, o.cookie);
      }
      if o.id == o'.id {
        SessionsMintApart(env, start, run, p, q, o.id);
      }
    }
  }

  /** The challenge a registration's token signed is that of an offer of its own session. */
  lemma SignedOfferWasMade(env: Env, start: int, run: seq<Action>, p: Text, a: nat) returns (o: nat)
    requires IsRun(env, start, run) && Finished(env, start, run, p, a)
    requires CallAt(env, start, run, p, a).pc.outcome.Registered?
    ensures var s := Reached(env, start, run, p); var call := s.calls[a];
            && call.op.Register? && env.verifyRegistrationJwt(call.op.jwt).Some?
            && o < |s.offers| && s.offers[o].regChallenge == env.verifyRegistrationJwt(call.op.jwt).value.challenge
            && call.pc.w.at < |s.trace| && s.trace[call.pc.w.at].store.offer == Stored(s.offers[o])
            && Minted(s, s.offers[o].regChallenge)
  {
    var s, now := Reached(env, start, run, p), After(env, start, run).now;
    IsReachable(env, start, run, p);
    RegistrationBindsTheDevice(env, now, s, a);
    TraceOf(env, now, s);
    assert SnapOk(s, s.trace[s.calls[a].pc.w.at]);
    o := s.trace[s.calls[a].pc.w.at].offers - 1;
  }

  /** One registration token makes at most one binding, whatever sessions it is presented to. */
  lemma OneTokenOneBinding(env: Env, start: int, run: seq<Action>, p: Text, a: nat, q: Text, b: nat)
    requires IsRun(env, start, run) && (p != q || a != b)
    requires Finished(env, start, run, p, a) && CallAt(env, start, run, p, a).pc.outcome.Registered?
    requires Finished(env, start, run, q, b) && CallAt(env, start, run, q, b).pc.outcome.Registered?
    ensures CallAt(env, start, run, p, a).op.Register? && CallAt(env, start, run, q, b).op.Register?
    ensures CallAt(env, start, run, p, a).op.jwt != CallAt(env, start, run, q, b).op.jwt
  {
    var m := SignedOfferWasMade(env, start, run, p, a);
    var n := SignedOfferWasMade(env, start, run, q, b);
    var s, now := Reached(env, start, run, p), After(env, start, run).now;
    if p == q {
      IsReachable(env, start, run, p);
      var used := HistoryOf(env, now, s);
      OneOfferOneBinding(env, now, s, a, b);
      assert m < n || n < m;
    } else if CallAt(env, start, run, p, a).op.jwt == CallAt(env, start, run, q, b).op.jwt {
      SessionsMintApart(env, start, run, p, q, s.offers[m].regChallenge);
    }
  }
}
