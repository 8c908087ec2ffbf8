/**
 * `InMemoryStore` of src/dbsc/store.py: two dictionaries of JSON text with an expiry, which behave as
 * a map from session id to the two decoded cells of the Store contract.
 */
module MemoryStore {
  import opened Texts
  import opened Wrappers
  import opened Records
  import opened StoreContract
  import opened JsonProofs
  import opened Codec

  /** JSON text and the last second it is live. */
  datatype Entry = Entry(raw: Text, expiresAt: int)

  function Live(bucket: map<Text, Entry>, sid: Text, now: int): Option<Text> {
    if sid !in bucket then None
    else if bucket[sid].expiresAt < now then None
    else Some(bucket[sid].raw)
  }

  function OfferCell(raw: Option<Text>): Cell<PendingRegistration> {
    if raw.None? then Absent
    else if PendingFromJson(raw.value).None? then Unreadable
    else Stored(PendingFromJson(raw.value).value)
  }

  function BindingCell(raw: Option<Text>): Cell<Binding> {
    if raw.None? then Absent
    else if BindingFromJson(raw.value).None? then Unreadable
    else Stored(BindingFromJson(raw.value).value)
  }

  /** The value a write made at `now` leaves in its cell at time `t`. */
  function Until<T>(t: int, expiresAt: int, value: T): Cell<T> {
    if t <= expiresAt then Stored(value) else Absent
  }

  /** The two dictionaries. */
  datatype Dicts = Dicts(reg: map<Text, Entry>, bind: map<Text, Entry>)

  /** The decoded cells of session `sid` at time `t`. */
  function CellsOf(m: Dicts, sid: Text, t: int): Store {
    Store(OfferCell(Live(m.reg, sid, t)), BindingCell(Live(m.bind, sid, t)))
  }

  datatype StoreCall =
    | Get
    | PutPending(pending: PendingRegistration)
    | DeletePending
    | Put(b: Binding)
    | DeleteBoth
    | Commit(offer: PendingRegistration, b: Binding)
    | Replace(expected: Binding, b: Binding)

  datatype Ttls = Ttls(challengeTtlSeconds: int, sessionLifetimeSeconds: int)

  /** What a store method does to the dictionaries: a read at `now`, an expiry counted from `later`. */
  function Perform(m: Dicts, ttls: Ttls, sid: Text, c: StoreCall, now: int, later: int): (Dicts, Verdict) {
    match c
    case Get => (m, Written)
    case PutPending(p) =>
      (m.(reg := m.reg[sid := Entry(PendingToJson(p), later + ttls.challengeTtlSeconds)]), Written)
    case DeletePending => (m.(reg := m.reg - {sid}), Written)
    case Put(b) => (m.(bind := Bound(m, ttls, sid, b, later)), Written)
    case DeleteBoth => (Dicts(m.reg - {sid}, m.bind - {sid}), Written)
    case Commit(offer, b) =>
      var v := CommitRegistration(CellsOf(m, sid, now), offer, JoinedBinding(b)).1;
      (if v == Written then Dicts(m.reg - {sid}, Bound(m, ttls, sid, b, later)) else m, v)
    case Replace(expected, b) =>
      var v := ReplaceBinding(CellsOf(m, sid, now), expected, JoinedBinding(b)).1;
      (if v == Written then m.(bind := Bound(m, ttls, sid, b, later)) else m, v)
  }

  function Bound(m: Dicts, ttls: Ttls, sid: Text, b: Binding, later: int): map<Text, Entry> {
    m.bind[sid := Entry(BindingToJson(b), later + ttls.sessionLifetimeSeconds)]
  }

  /** The records passed in were built by their constructors. */
  predicate ValidCall(c: StoreCall) {
    match c
    case PutPending(p) => p.Valid()
    case Put(b) => b.Valid()
    case Commit(_, b) => b.Valid()
    case Replace(_, b) => b.Valid()
    case _ => true
  }

  /** What the Store contract makes of the cells, as they read at time `t`. */
  function CellsAfter(c: StoreCall, v: Verdict, cells: Store, ttls: Ttls, later: int, t: int): Store {
    match c
    case Get => cells
    case PutPending(p) => cells.(offer := Until(t, later + ttls.challengeTtlSeconds, JoinedPending(p)))
    case DeletePending => StoreContract.DeletePendingRegistration(cells)
    case Put(b) => cells.(binding := Until(t, later + ttls.sessionLifetimeSeconds, JoinedBinding(b)))
    case DeleteBoth => StoreContract.Delete(cells)
    case Commit(_, b) =>
      if v == Written then Store(Absent, Until(t, later + ttls.sessionLifetimeSeconds, JoinedBinding(b))) else cells
    case Replace(_, b) =>
      if v == Written then cells.(binding := Until(t, later + ttls.sessionLifetimeSeconds, JoinedBinding(b))) else cells
  }

  lemma BoundReadsBack(m: Dicts, ttls: Ttls, sid: Text, b: Binding, later: int)
    requires b.Valid()
    ensures forall t: int :: BindingCell(Live(Bound(m, ttls, sid, b, later), sid, t)) ==
              Until(t, later + ttls.sessionLifetimeSeconds, JoinedBinding(b))
    ensures KeepsOthers(m.bind, Bound(m, ttls, sid, b, later), sid)
  {
    BindingReadsBack(b);
  }

  lemma PendingIsBack(reg: map<Text, Entry>, sid: Text, p: PendingRegistration, exp: int)
    requires p.Valid()
    ensures forall t: int :: OfferCell(Live(reg[sid := Entry(PendingToJson(p), exp)], sid, t)) == Until(t, exp, JoinedPending(p))
    ensures KeepsOthers(reg, reg[sid := Entry(PendingToJson(p), exp)], sid)
  {
    PendingReadsBack(p);
  }

  lemma ErasedIsAbsent(bucket: map<Text, Entry>, sid: Text)
    ensures forall t: int :: Live(bucket - {sid}, sid, t) == None
    ensures KeepsOthers(bucket, bucket - {sid}, sid)
  {}

  /** Session ids other than `sid` keep their entries. */
  ghost predicate KeepsOthers(before: map<Text, Entry>, after: map<Text, Entry>, sid: Text) {
    forall other: Text, t: int :: other != sid ==> Live(after, other, t) == Live(before, other, t)
  }

  ghost predicate OthersKept(m: Dicts, m': Dicts, sid: Text) {
    forall other: Text, t: int :: other != sid ==> CellsOf(m', other, t) == CellsOf(m, other, t)
  }

  lemma KeptCells(m: Dicts, m': Dicts, sid: Text)
    requires m'.reg == m.reg || KeepsOthers(m.reg, m'.reg, sid)
    requires m'.bind == m.bind || KeepsOthers(m.bind, m'.bind, sid)
    ensures OthersKept(m, m', sid)
  {
    forall other: Text, t: int | other != sid
      ensures CellsOf(m', other, t) == CellsOf(m, other, t)
    {
      assert Live(m'.reg, other, t) == Live(m.reg, other, t) && Live(m'.bind, other, t) == Live(m.bind, other, t);
    }
  }

  /** The cells of session `sid` are what the contract makes of them, at every time. */
  ghost predicate Contracted(m: Dicts, m': Dicts, ttls: Ttls, sid: Text, c: StoreCall, v: Verdict, later: int) {
    forall t: int :: CellsOf(m', sid, t) == CellsAfter(c, v, CellsOf(m, sid, t), ttls, later, t)
  }

  lemma PutIsTheContract(m: Dicts, ttls: Ttls, sid: Text, c: StoreCall, now: int, later: int)
    requires ValidCall(c) && (c.PutPending? || c.Put?)
    ensures var (m', v) := Perform(m, ttls, sid, c, now, later); Contracted(m, m', ttls, sid, c, v, later) && OthersKept(m, m', sid)
  {
    var m' := Perform(m, ttls, sid, c, now, later).0;
    if c.PutPending? {
      PendingIsBack(m.reg, sid, c.pending, later + ttls.challengeTtlSeconds);
    } else {
      BoundReadsBack(m, ttls, sid, c.b, later);
    }
    KeptCells(m, m', sid);
    forall t: int
      ensures CellsOf(m', sid, t) == CellsAfter(c, Written, CellsOf(m, sid, t), ttls, later, t)
    {
      assert c.PutPending? ==> OfferCell(Live(m'.reg, sid, t)) == Until(t, later + ttls.challengeTtlSeconds, JoinedPending(c.pending));
    }
  }

  lemma EraseIsTheContract(m: Dicts, ttls: Ttls, sid: Text, c: StoreCall, now: int, later: int)
    requires c.DeletePending? || c.DeleteBoth?
    ensures var (m', v) := Perform(m, ttls, sid, c, now, later); Contracted(m, m', ttls, sid, c, v, later) && OthersKept(m, m', sid)
  {
    ErasedIsAbsent(m.reg, sid);
    ErasedIsAbsent(m.bind, sid);
    KeptCells(m, Perform(m, ttls, sid, c, now, later).0, sid);
  }

  lemma ConditionalIsTheContract(m: Dicts, ttls: Ttls, sid: Text, c: StoreCall, now: int, later: int)
    requires ValidCall(c) && (c.Commit? || c.Replace?)
    ensures var (m', v) := Perform(m, ttls, sid, c, now, later); Contracted(m, m', ttls, sid, c, v, later) && OthersKept(m, m', sid)
  {
    var (m', v) := Perform(m, ttls, sid, c, now, later);
    ErasedIsAbsent(m.reg, sid);
    BoundReadsBack(m, ttls, sid, c.b, later);
    KeptCells(m, m', sid);
    forall t: int
      ensures CellsOf(m', sid, t) == CellsAfter(c, v, CellsOf(m, sid, t), ttls, later, t)
    {
      assert v == Written ==> BindingCell(Live(m'.bind, sid, t)) == Until(t, later + ttls.sessionLifetimeSeconds, JoinedBinding(c.b));
    }
  }

  /**
   * The dictionaries behave as a map of decoded cells: a store method makes of its session's cells what the
   * contract makes of them, at every time, and leaves every other session's.
   */
  lemma PerformIsTheContract(m: Dicts, ttls: Ttls, sid: Text, c: StoreCall, now: int, later: int)
    requires ValidCall(c)
    ensures var (m', v) := Perform(m, ttls, sid, c, now, later); Contracted(m, m', ttls, sid, c, v, later) && OthersKept(m, m', sid)
  {
    if c.PutPending? || c.Put? {
      PutIsTheContract(m, ttls, sid, c, now, later);
    } else if c.DeletePending? || c.DeleteBoth? {
      EraseIsTheContract(m, ttls, sid, c, now, later);
    } else if c.Commit? || c.Replace? {
      ConditionalIsTheContract(m, ttls, sid, c, now, later);
    }
  }

  class InMemoryStore {
    const challengeTtlSeconds: int
    const sessionLifetimeSeconds: int
    var reg: map<Text, Entry>
    var bind: map<Text, Entry>

    constructor (challengeTtlSeconds: int, sessionLifetimeSeconds: int)
      ensures this.challengeTtlSeconds == challengeTtlSeconds
      ensures this.sessionLifetimeSeconds == sessionLifetimeSeconds
      ensures forall sid: Text, t: int :: At(sid, t) == EMPTY
    {
      this.challengeTtlSeconds := challengeTtlSeconds;
      this.sessionLifetimeSeconds := sessionLifetimeSeconds;
      reg, bind := map[], map[];
    }

    /** The decoded cells of session `sid` at time `t`. */
    function At(sid: Text, t: int): Store
      reads this
    {
      CellsOf(Dictionaries(), sid, t)
    }

    function Dictionaries(): Dicts
      reads this
    {
      Dicts(reg, bind)
    }

    function Lifetimes(): Ttls {
      Ttls(challengeTtlSeconds, sessionLifetimeSeconds)
    }

    /** Session ids other than `sid` are as they were. */
    twostate predicate OthersUntouched(sid: Text)
      reads this
    {
      forall other: Text, t: int :: other != sid ==> At(other, t) == old(At(other, t))
    }

    method PutPendingRegistration(sid: Text, pending: PendingRegistration, now: int)
      requires pending.Valid()
      modifies this`reg
      ensures OthersUntouched(sid)
      ensures forall t: int :: At(sid, t) ==
                old(At(sid, t)).(offer := Until(t, now + challengeTtlSeconds, JoinedPending(pending)))
      ensures Dictionaries() == Perform(old(Dictionaries()), Lifetimes(), sid, PutPending(pending), now, now).0
    {
      ghost var before := Dictionaries();
      reg := reg[sid := Entry(PendingToJson(pending), now + challengeTtlSeconds)];
      PerformIsTheContract(before, Lifetimes(), sid, PutPending(pending), now, now);
    }

    /** `Absent` is None, `Unreadable` is CorruptStateError. */
    method GetPendingRegistration(sid: Text, now: int) returns (cell: Cell<PendingRegistration>)
      ensures cell == At(sid, now).offer
      ensures cell.Absent? <==> sid !in reg || reg[sid].expiresAt < now
      ensures cell.Unreadable? <==> sid in reg && now <= reg[sid].expiresAt && PendingFromJson(reg[sid].raw).None?
      ensures forall p: PendingRegistration :: cell == Stored(p) <==>
                sid in reg && now <= reg[sid].expiresAt && PendingFromJson(reg[sid].raw) == Some(p)
    {
      var raw := Live(reg, sid, now);
      if raw.None? { return Absent; }
      var decoded := PendingFromJson(raw.value);
      if decoded.None? { return Unreadable; }
      return Stored(decoded.value);
    }

    method DeletePendingRegistration(sid: Text)
      modifies this`reg
      ensures OthersUntouched(sid)
      ensures forall t: int :: At(sid, t) == StoreContract.DeletePendingRegistration(old(At(sid, t)))
      ensures Dictionaries() == Perform(old(Dictionaries()), Lifetimes(), sid, DeletePending, 0, 0).0
    {
      ghost var before := Dictionaries();
      reg := reg - {sid};
      PerformIsTheContract(before, Lifetimes(), sid, DeletePending, 0, 0);
    }

    method PutBinding(sid: Text, binding: Binding, now: int)
      requires binding.Valid()
      modifies this`bind
      ensures OthersUntouched(sid)
      ensures forall t: int :: At(sid, t) ==
                old(At(sid, t)).(binding := Until(t, now + sessionLifetimeSeconds, JoinedBinding(binding)))
      ensures Dictionaries() == Perform(old(Dictionaries()), Lifetimes(), sid, Put(binding), now, now).0
    {
      ghost var before := Dictionaries();
      bind := bind[sid := Entry(BindingToJson(binding), now + sessionLifetimeSeconds)];
      PerformIsTheContract(before, Lifetimes(), sid, Put(binding), now, now);
    }

    method GetBinding(sid: Text, now: int) returns (cell: Cell<Binding>)
      ensures cell == At(sid, now).binding
      ensures cell.Absent? <==> sid !in bind || bind[sid].expiresAt < now
      ensures cell.Unreadable? <==> sid in bind && now <= bind[sid].expiresAt && BindingFromJson(bind[sid].raw).None?
      ensures forall b: Binding :: cell == Stored(b) <==>
                sid in bind && now <= bind[sid].expiresAt && BindingFromJson(bind[sid].raw) == Some(b)
    {
      var raw := Live(bind, sid, now);
      if raw.None? { return Absent; }
      var decoded := BindingFromJson(raw.value);
      if decoded.None? { return Unreadable; }
      return Stored(decoded.value);
    }

    method Delete(sid: Text)
      modifies this
      ensures OthersUntouched(sid)
      ensures forall t: int :: At(sid, t) == EMPTY
      ensures Dictionaries() == Perform(old(Dictionaries()), Lifetimes(), sid, DeleteBoth, 0, 0).0
    {
      ghost var before := Dictionaries();
      bind := bind - {sid};
      reg := reg - {sid};
      PerformIsTheContract(before, Lifetimes(), sid, DeleteBoth, 0, 0);
    }

    /** The liveness check samples the clock, the new expiry samples it again. */
    method CommitRegistration(sid: Text, offer: PendingRegistration, binding: Binding, now: int, later: int)
      returns (v: Verdict)
      requires binding.Valid() && now <= later
      modifies this
      ensures OthersUntouched(sid)
      ensures v == StoreContract.CommitRegistration(old(At(sid, now)), offer, JoinedBinding(binding)).1
      ensures v == Written <==> old(sid in reg && now <= reg[sid].expiresAt && PendingFromJson(reg[sid].raw) == Some(offer))
      ensures v == Corrupt <==> old(sid in reg && now <= reg[sid].expiresAt && PendingFromJson(reg[sid].raw).None?)
      ensures v == Written ==> forall t: int ::
                At(sid, t) == Store(Absent, Until(t, later + sessionLifetimeSeconds, JoinedBinding(binding)))
      ensures v != Written ==> forall t: int :: At(sid, t) == old(At(sid, t))
      ensures Dictionaries() == Perform(old(Dictionaries()), Lifetimes(), sid, Commit(offer, binding), now, later).0
    {
      v := CheckOffered(sid, offer, now, JoinedBinding(binding));
      if v == Written {
        DeletePendingRegistration(sid);
        PutBinding(sid, binding, later);
      }
    }

    /** The check of a registration: `Absent` and another offer are False, an unreadable one raises. */
    method CheckOffered(sid: Text, offer: PendingRegistration, now: int, ghost b: Binding) returns (v: Verdict)
      ensures v == StoreContract.CommitRegistration(At(sid, now), offer, b).1
      ensures v == Written <==> sid in reg && now <= reg[sid].expiresAt && PendingFromJson(reg[sid].raw) == Some(offer)
      ensures v == Corrupt <==> sid in reg && now <= reg[sid].expiresAt && PendingFromJson(reg[sid].raw).None?
    {
      var raw := Live(reg, sid, now);
      if raw.None? { return Conflict; }
      var decoded := PendingFromJson(raw.value);
      if decoded.None? { return Corrupt; }
      return if decoded.value == offer then Written else Conflict;
    }

    method CheckBound(sid: Text, expected: Binding, now: int, ghost b: Binding) returns (v: Verdict)
      ensures v == StoreContract.ReplaceBinding(At(sid, now), expected, b).1
      ensures v == Written <==> sid in bind && now <= bind[sid].expiresAt && BindingFromJson(bind[sid].raw) == Some(expected)
      ensures v == Corrupt <==> sid in bind && now <= bind[sid].expiresAt && BindingFromJson(bind[sid].raw).None?
    {
      var raw := Live(bind, sid, now);
      if raw.None? { return Conflict; }
      var decoded := BindingFromJson(raw.value);
      if decoded.None? { return Corrupt; }
      return if decoded.value == expected then Written else Conflict;
    }

    method ReplaceBinding(sid: Text, expected: Binding, new_: Binding, now: int, later: int) returns (v: Verdict)
      requires new_.Valid() && now <= later
      modifies this`bind
      ensures OthersUntouched(sid)
      ensures v == StoreContract.ReplaceBinding(old(At(sid, now)), expected, JoinedBinding(new_)).1
      ensures v == Written <==> old(sid in bind && now <= bind[sid].expiresAt && BindingFromJson(bind[sid].raw) == Some(expected))
      ensures v == Corrupt <==> old(sid in bind && now <= bind[sid].expiresAt && BindingFromJson(bind[sid].raw).None?)
      ensures v == Written ==> forall t: int ::
                At(sid, t) == old(At(sid, t)).(binding := Until(t, later + sessionLifetimeSeconds, JoinedBinding(new_)))
      ensures v != Written ==> forall t: int :: At(sid, t) == old(At(sid, t))
      ensures Dictionaries() == Perform(old(Dictionaries()), Lifetimes(), sid, Replace(expected, new_), now, later).0
    {
      v := CheckBound(sid, expected, now, JoinedBinding(new_));
      if v == Written {
        PutBinding(sid, new_, later);
      }
    }
  }

  /** With the clock alone moving, cells only decay: what the session protocol allows at any time. */
  lemma ClockOnlyDecays(reg: map<Text, Entry>, bind: map<Text, Entry>, sid: Text, now: int, later: int)
    requires now <= later
    ensures Degrades(OfferCell(Live(reg, sid, now)), OfferCell(Live(reg, sid, later)))
    ensures Degrades(BindingCell(Live(bind, sid, now)), BindingCell(Live(bind, sid, later)))
  {}

  /** What a write leaves is the record itself exactly when its free-form fields hold no split pair. */
  lemma StoredAsGiven(b: Binding, p: PendingRegistration)
    ensures JoinedBinding(b) == b <==>
            !HasSplitPair(b.userId) && !HasSplitPair(b.publicKeyPem) && !HasSplitPair(b.algorithm)
    ensures JoinedPending(p) == p <==> !HasSplitPair(p.userId)
  {
    JoinedIsShorter(b.userId);
    JoinedIsShorter(b.publicKeyPem);
    JoinedIsShorter(b.algorithm);
    JoinedIsShorter(p.userId);
  }
}
