/** What the protocol stores and prints is well-formed: the stored JSON and the headers read back. */
module Wire {
  import opened Texts
  import opened Records
  import opened StoreContract
  import opened Wrappers
  import opened Server
  import opened Lineage
  import opened Machine
  import opened Invariant
  import opened Theorems
  import opened Json
  import opened JsonProofs
  import opened Codec
  import opened StructuredFields
  import opened Headers

  /** Every record the protocol ever stores passes the checks of its constructor, and names a session. */
  lemma StoredRecordsAreValid(env: Env, now: int, s: Session, i: nat)
    requires Reachable(env, now, s) && i < |s.trace|
    ensures s.trace[i].store.offer.Stored? ==> s.trace[i].store.offer.value.Valid()
    ensures s.trace[i].store.binding.Stored? ==>
              && s.trace[i].store.binding.value.Valid() && s.trace[i].store.binding.value.sessionIdentifier != []
  {
    var used := HistoryOf(env, now, s);
    assert SnapOk(s, s.trace[i]);
    if s.trace[i].store.binding.Stored? {
      Timing(env, s.versions, s.trace[i].versions - 1);
    }
  }

  /** Its JSON text decodes, to the very same record unless a free-form field holds a split pair. */
  lemma StoredRecordsReadBack(env: Env, now: int, s: Session, i: nat)
    requires Reachable(env, now, s) && i < |s.trace| && s.trace[i].store.binding.Stored?
    ensures var b := s.trace[i].store.binding.value;
            && BindingFromJson(BindingToJson(b)).Some?
            && (BindingFromJson(BindingToJson(b)) == Some(b) <==>
                  !HasSplitPair(b.userId) && !HasSplitPair(b.publicKeyPem) && !HasSplitPair(b.algorithm))
  {
    StoredRecordsAreValid(env, now, s, i);
    BindingReadsBack(s.trace[i].store.binding.value);
    BindingRoundTrip(s.trace[i].store.binding.value);
  }

  /** The Secure-Session-Challenge of every 403 parses back to a challenge stored during the call. */
  lemma ChallengeHeadersReadBack(env: Env, now: int, s: Session, id: nat) returns (i: nat)
    requires Reachable(env, now, s) && id in s.calls && s.calls[id].op.Issue?
    requires s.calls[id].pc.Done? && s.calls[id].pc.outcome.Challenge403?
    ensures s.calls[id].begun <= i < |s.trace| && s.trace[i].store.binding.Stored?
    ensures var b := s.trace[i].store.binding.value; var o := s.calls[id].pc.outcome;
            ParseItemField(ChallengeHeader(o.id, o.challenge)) ==
              Got(Item(String(b.challenge), [Param(Ascii("id"), String(b.sessionIdentifier))]), [])
  {
    i := ChallengeWasCurrent(env, now, s, id);
    StoredRecordsAreValid(env, now, s, i);
    BindingHeadersParseBack(s.trace[i].store.binding.value);
  }

  /** What a refresh or an advertisement tells the device is what it left stored. */
  lemma EmittedIsStored(env: Env, now: int, s: Session, id: nat) returns (b: Binding)
    requires Reachable(env, now, s) && id in s.calls && s.calls[id].pc.Done?
    requires s.calls[id].pc.outcome.Refreshed? || s.calls[id].pc.outcome.Advertised?
    ensures s.calls[id].pc.w.at + 1 < |s.trace| && s.trace[s.calls[id].pc.w.at + 1].store.binding == Stored(b)
    ensures s.calls[id].pc.outcome.id == b.sessionIdentifier && s.calls[id].pc.outcome.challenge == b.challenge
  {
    CallOf(env, now, s, id);
    b := s.trace[s.calls[id].pc.w.at + 1].store.binding.value;
  }

  /** That of every refresh 200 and of every advertisement parses back to what the call left stored. */
  lemma EmittedHeadersReadBack(env: Env, now: int, s: Session, id: nat)
    requires Reachable(env, now, s) && id in s.calls && s.calls[id].pc.Done?
    requires s.calls[id].pc.outcome.Refreshed? || s.calls[id].pc.outcome.Advertised?
    ensures s.calls[id].pc.w.at + 1 < |s.trace| && s.trace[s.calls[id].pc.w.at + 1].store.binding.Stored?
    ensures var b := s.trace[s.calls[id].pc.w.at + 1].store.binding.value; var o := s.calls[id].pc.outcome;
            ParseItemField(ChallengeHeader(o.id, o.challenge)) ==
              Got(Item(String(b.challenge), [Param(Ascii("id"), String(b.sessionIdentifier))]), [])
  {
    var b := EmittedIsStored(env, now, s, id);
    StoredRecordsAreValid(env, now, s, s.calls[id].pc.w.at + 1);
    BindingHeadersParseBack(b);
  }

  /** The Secure-Session-Registration of every offer parses back to the challenge that was stored. */
  lemma RegistrationHeadersReadBack(env: Env, now: int, s: Session, id: nat, registerPath: Text)
    requires Reachable(env, now, s) && id in s.calls && s.calls[id].pc.Done? && s.calls[id].pc.outcome.Offered?
    requires Validate.IsPath(registerPath)
    ensures s.calls[id].pc.w.at + 1 < |s.trace| && s.trace[s.calls[id].pc.w.at + 1].store.offer.Stored?
    ensures var p := s.trace[s.calls[id].pc.w.at + 1].store.offer.value;
            ParseListField(RegistrationHeader(registerPath, s.calls[id].pc.outcome.challenge)) ==
              Got([InnerList([Item(Token(Ascii("ES256")), [])],
                             [Param(Ascii("path"), String(registerPath)), Param(Ascii("challenge"), String(p.regChallenge))])], [])
  {
    OfferIsStored(env, now, s, id);
    StoredRecordsAreValid(env, now, s, s.calls[id].pc.w.at + 1);
    RegistrationHeaderParsesBack(registerPath, s.calls[id].pc.outcome.challenge);
  }
}
