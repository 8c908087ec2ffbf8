/**
 * `FileStore` of examples/demo_server.py under any schedule: one file a record, writers serialised by
 * one lock, readers unlocked, each file step separate. What a conditional write has checked still
 * holds when it takes effect, and readers never see a binding next to the offer it consumed.
 */
module FileStore {
  import opened Texts
  import opened Wrappers
  import opened Records
  import opened StoreContract
  import opened Codec

  /** `Garbled` is a file that is not the envelope: malformed JSON, or fields missing or mistyped. */
  datatype File = Missing | Garbled | Envelope(raw: Text, exp: int)

  /** A record's key; the hash that names its file is taken to be injective. */
  datatype Key = Reg(sid: Text) | Bind(sid: Text)

  datatype Op =
    | PutPending(pending: PendingRegistration)
    | DeletePending
    | PutBinding(b: Binding)
    | Delete
    | Commit(offer: PendingRegistration, b: Binding)
    | Replace(expected: Binding, b: Binding)
    | GetPending
    | GetBinding
  {
    predicate Reader() {
      GetPending? || GetBinding?
    }

    predicate Conditional() {
      Commit? || Replace?
    }

    /** The records passed in were built by their constructors. */
    predicate Valid() {
      match this
      case PutPending(p) => p.Valid()
      case PutBinding(b) => b.Valid()
      case Commit(_, b) => b.Valid()
      case Replace(_, b) => b.Valid()
      case _ => true
    }
  }

  datatype Answer = Nothing | Offer(offer: Cell<PendingRegistration>) | Bound(binding: Cell<Binding>) | Outcome(v: Verdict)

  datatype Pc =
    | Waiting
    | Entered
    | Checking(f: File, readAt: real)
    | Checked(f: File, readAt: real, checkedAt: real)
    | Unlinked
    | Leaving(a: Answer)
    | Done(a: Answer)

  datatype Task = Task(sid: Text, op: Op, pc: Pc)

  datatype Disk = Disk(now: real, files: map<Key, File>, lock: Option<nat>, tasks: map<nat, Task>)

  // ---------------------------------------------------------------- what a file means

  function FileAt(files: map<Key, File>, k: Key): File {
    if k in files then files[k] else Missing
  }

  predicate Expired(f: File, t: real) {
    f.Envelope? && f.exp as real < t
  }

  function OfferCell(f: File, t: real): Cell<PendingRegistration> {
    if f.Missing? || Expired(f, t) then Absent
    else if f.Garbled? || PendingFromJson(f.raw).None? then Unreadable
    else Stored(PendingFromJson(f.raw).value)
  }

  function BindingCell(f: File, t: real): Cell<Binding> {
    if f.Missing? || Expired(f, t) then Absent
    else if f.Garbled? || BindingFromJson(f.raw).None? then Unreadable
    else Stored(BindingFromJson(f.raw).value)
  }

  /** The two cells of a session as the Store contract sees them at time `t`. */
  function View(files: map<Key, File>, sid: Text, t: real): Store {
    Store(OfferCell(FileAt(files, Reg(sid)), t), BindingCell(FileAt(files, Bind(sid)), t))
  }

  // ---------------------------------------------------------------- steps

  /** Holding the lock. */
  predicate Inside(task: Task) {
    !task.op.Reader() && !task.pc.Waiting? && !task.pc.Done?
  }

  /** The file a task reads. */
  function ReadKey(task: Task): Key {
    if task.op.GetPending? || task.op.Commit? then Reg(task.sid) else Bind(task.sid)
  }

  /** Whether a conditional write's check passes on the file it read; a clock sample decides expiry. */
  function Check(op: Op, f: File, t: real): Verdict
    requires op.Conditional()
  {
    if op.Commit? then
      var cell := OfferCell(f, t);
      if cell.Unreadable? then Corrupt else if cell == Stored(op.offer) then Written else Conflict
    else
      var cell := BindingCell(f, t);
      if cell.Unreadable? then Corrupt else if cell == Stored(op.expected) then Written else Conflict
  }

  function Write(files: map<Key, File>, k: Key, raw: Text, exp: int): map<Key, File> {
    files[k := Envelope(raw, exp)]
  }

  /** The next file step of a task, with the expiry that a write step has computed. */
  function Advance(d: Disk, id: nat, exp: int): (map<Key, File>, Option<nat>, Pc)
    requires id in d.tasks
  {
    var task := d.tasks[id];
    var sid, files := task.sid, d.files;
    match task.pc
    case Waiting =>
      if task.op.Reader() then (files, d.lock, Checking(FileAt(files, ReadKey(task)), d.now))
      else (files, Some(id), Entered)
    case Entered =>
      (match task.op
       case PutPending(p) => (Write(files, Reg(sid), PendingToJson(p), exp), d.lock, Leaving(Nothing))
       case PutBinding(b) => (Write(files, Bind(sid), BindingToJson(b), exp), d.lock, Leaving(Nothing))
       case DeletePending => (files - {Reg(sid)}, d.lock, Leaving(Nothing))
       case Delete => (files - {Reg(sid)}, d.lock, Unlinked)
       case _ => (files, d.lock, Checking(FileAt(files, ReadKey(task)), d.now)))
    case Checking(f, readAt) =>
      if task.op.GetPending? then (files, d.lock, Done(Offer(OfferCell(f, d.now))))
      else if task.op.GetBinding? then (files, d.lock, Done(Bound(BindingCell(f, d.now))))
      else if !task.op.Conditional() then (files, d.lock, task.pc)
      else
        var v := Check(task.op, f, d.now);
        (files, d.lock, if v == Written then Checked(f, readAt, d.now) else Leaving(Outcome(v)))
    case Checked(f, readAt, checkedAt) =>
      if task.op.Commit? then (files - {Reg(sid)}, d.lock, Unlinked)
      else if task.op.Replace? then
        (Write(files, Bind(sid), BindingToJson(task.op.b), exp), d.lock, Leaving(Outcome(Written)))
      else (files, d.lock, task.pc)
    case Unlinked =>
      if task.op.Commit? then
        (Write(files, Bind(sid), BindingToJson(task.op.b), exp), d.lock, Leaving(Outcome(Written)))
      else (files - {Bind(sid)}, d.lock, Leaving(Nothing))
    case Leaving(a) => (files, None, Done(a))
    case Done(_) => (files, d.lock, task.pc)
  }

  datatype Action = Tick(to: real) | Start(id: nat, sid: Text, op: Op) | Run(id: nat, exp: int)

  predicate Enabled(d: Disk, a: Action) {
    match a
    case Tick(to) => d.now <= to
    case Start(id, _, op) => id !in d.tasks && op.Valid()
    case Run(id, _) =>
      && id in d.tasks && !d.tasks[id].pc.Done?
      && (d.tasks[id].pc.Waiting? && !d.tasks[id].op.Reader() ==> d.lock.None?)
  }

  function Next(d: Disk, a: Action): Disk
    requires Enabled(d, a)
  {
    match a
    case Tick(to) => d.(now := to)
    case Start(id, sid, op) => d.(tasks := d.tasks[id := Task(sid, op, Waiting)])
    case Run(id, exp) =>
      var (files, lock, pc) := Advance(d, id, exp);
      Disk(d.now, files, lock, d.tasks[id := d.tasks[id].(pc := pc)])
  }

  /** Any directory contents, however damaged, and no task yet. */
  predicate Initial(d: Disk) {
    d.lock.None? && d.tasks == map[]
  }

  ghost predicate IsRun(start: Disk, run: seq<Action>)
    decreases |run|, 0
  {
    run == [] || (IsRun(start, run[..|run| - 1]) && Enabled(After(start, run[..|run| - 1]), run[|run| - 1]))
  }

  ghost function After(start: Disk, run: seq<Action>): Disk
    requires IsRun(start, run)
    decreases |run|, 1
  {
    if run == [] then start else Next(After(start, run[..|run| - 1]), run[|run| - 1])
  }

  // ---------------------------------------------------------------- invariant

  predicate TaskOk(d: Disk, id: nat, task: Task) {
    && task.op.Valid()
    && (Inside(task) ==> d.lock == Some(id))
    && match task.pc
       case Entered => !task.op.Reader()
       case Checking(f, readAt) =>
         && readAt <= d.now && (task.op.Reader() || task.op.Conditional())
         && (task.op.Conditional() ==> FileAt(d.files, ReadKey(task)) == f)
       case Checked(f, readAt, checkedAt) =>
         && readAt <= checkedAt <= d.now && task.op.Conditional()
         && FileAt(d.files, ReadKey(task)) == f && Check(task.op, f, checkedAt) == Written
       case Unlinked => (task.op.Commit? || task.op.Delete?) && FileAt(d.files, Reg(task.sid)) == Missing
       case Leaving(_) => !task.op.Reader()
       case _ => true
  }

  ghost predicate Inv(d: Disk) {
    && (forall id :: id in d.tasks ==> TaskOk(d, id, d.tasks[id]))
    && (d.lock.Some? ==> d.lock.value in d.tasks && Inside(d.tasks[d.lock.value]))
  }

  /** A step changes one file at most, and only the lock's holder, the one task inside, changes any. */
  lemma OnlyTheHolderWrites(d: Disk, id: nat, exp: int)
    requires Inv(d) && Enabled(d, Run(id, exp))
    ensures Next(d, Run(id, exp)).files != d.files ==> d.lock == Some(id) && Inside(d.tasks[id])
    ensures forall other :: other in d.tasks && other != id && Inside(d.tasks[other]) ==>
              Next(d, Run(id, exp)).files == d.files
    ensures forall j, k :: j != k && FileAt(Next(d, Run(id, exp)).files, j) != FileAt(d.files, j) ==>
              FileAt(Next(d, Run(id, exp)).files, k) == FileAt(d.files, k)
  {
    assert TaskOk(d, id, d.tasks[id]);
    forall other | other in d.tasks && other != id && Inside(d.tasks[other])
      ensures Next(d, Run(id, exp)).files == d.files
    {
      assert TaskOk(d, other, d.tasks[other]);
    }
  }

  /** The moving task keeps its own part of the invariant. */
  lemma MoverStaysOk(d: Disk, id: nat, exp: int)
    requires Inv(d) && Enabled(d, Run(id, exp))
    ensures var e := Next(d, Run(id, exp)); TaskOk(e, id, e.tasks[id])
  {
    assert TaskOk(d, id, d.tasks[id]);
  }

  lemma NextKeepsInv(d: Disk, a: Action)
    requires Inv(d) && Enabled(d, a)
    ensures Inv(Next(d, a))
  {
    var e := Next(d, a);
    forall id | id in e.tasks
      ensures TaskOk(e, id, e.tasks[id])
    {
      if id in d.tasks {
        assert TaskOk(d, id, d.tasks[id]);
      }
      if a.Run? {
        if a.id == id {
          MoverStaysOk(d, id, a.exp);
        } else {
          OnlyTheHolderWrites(d, a.id, a.exp);
          assert TaskOk(d, a.id, d.tasks[a.id]);
        }
      }
    }
    if a.Run? {
      assert TaskOk(d, a.id, d.tasks[a.id]);
    }
  }

  lemma {:induction false} RunsKeepInv(start: Disk, run: seq<Action>)
    requires Initial(start) && IsRun(start, run)
    ensures Inv(After(start, run))
    decreases |run|
  {
    if run != [] {
      RunsKeepInv(start, run[..|run| - 1]);
      NextKeepsInv(After(start, run[..|run| - 1]), run[|run| - 1]);
    }
  }

  // ---------------------------------------------------------------- conditional writes

  /** A written binding is what its cell holds until it expires; the offer's cell is untouched. */
  lemma WrittenBindingIsThere(files: map<Key, File>, sid: Text, b: Binding, exp: int, t: real)
    requires b.Valid() && t <= exp as real
    ensures var written := Write(files, Bind(sid), BindingToJson(b), exp);
            View(written, sid, t) == StoreContract.PutBinding(View(files, sid, t), JoinedBinding(b))
  {
    BindingReadsBack(b);
  }

  /** The step of the file store in a reachable state. */
  lemma Settled(start: Disk, run: seq<Action>, id: nat) returns (d: Disk)
    requires Initial(start) && IsRun(start, run) && id in After(start, run).tasks
    ensures d == After(start, run) && TaskOk(d, id, d.tasks[id])
  {
    RunsKeepInv(start, run);
    d := After(start, run);
  }

  /**
   * replace_binding takes effect at its rename and only there: nothing was written to the record since
   * it was read, it held the expected value when checked, every other file stays, and until it expires
   * the new value is in place.
   */
  lemma ReplaceAtItsRename(start: Disk, run: seq<Action>, id: nat, exp: int, t: real)
    requires Initial(start) && IsRun(start, run)
    requires var d := After(start, run);
             Enabled(d, Run(id, exp)) && d.tasks[id].op.Replace? && d.tasks[id].pc.Checked?
    requires t <= exp as real
    ensures var d := After(start, run); var e := Next(d, Run(id, exp)); var task := d.tasks[id];
            && FileAt(d.files, Bind(task.sid)) == task.pc.f
            && View(d.files, task.sid, task.pc.checkedAt).binding == Stored(task.op.expected)
            && (forall k :: k != Bind(task.sid) ==> FileAt(e.files, k) == FileAt(d.files, k))
            && View(e.files, task.sid, t) == StoreContract.PutBinding(View(d.files, task.sid, t), JoinedBinding(task.op.b))
  {
    var d := Settled(start, run, id);
    WrittenBindingIsThere(d.files, d.tasks[id].sid, d.tasks[id].op.b, exp, t);
  }

  /**
   * The expiry is compared at the check only, so the write agrees with the contract at the instant of
   * the rename exactly when the record it replaces has not expired by then.
   */
  lemma ReplaceAgreesUnlessExpired(start: Disk, run: seq<Action>, id: nat, exp: int)
    requires Initial(start) && IsRun(start, run)
    requires var d := After(start, run);
             Enabled(d, Run(id, exp)) && d.tasks[id].op.Replace? && d.tasks[id].pc.Checked?
    ensures var d := After(start, run); var task := d.tasks[id];
            ReplaceBinding(View(d.files, task.sid, d.now), task.op.expected, JoinedBinding(task.op.b)).1 == Written
            <==> !Expired(FileAt(d.files, Bind(task.sid)), d.now)
  {
    var d := Settled(start, run, id);
  }

  /** The same for a registration, at the instant it removes the offer. */
  lemma CommitAgreesUnlessExpired(start: Disk, run: seq<Action>, id: nat, exp: int)
    requires Initial(start) && IsRun(start, run)
    requires var d := After(start, run);
             Enabled(d, Run(id, exp)) && d.tasks[id].op.Commit? && d.tasks[id].pc.Checked?
    ensures var d := After(start, run); var task := d.tasks[id];
            CommitRegistration(View(d.files, task.sid, d.now), task.op.offer, JoinedBinding(task.op.b)).1 == Written
            <==> !Expired(FileAt(d.files, Reg(task.sid)), d.now)
  {
    var d := Settled(start, run, id);
  }

  /** A refused conditional write leaves every file as it is, and is refused as the contract would. */
  lemma RefusalAgrees(start: Disk, run: seq<Action>, id: nat, exp: int)
    requires Initial(start) && IsRun(start, run)
    requires var d := After(start, run);
             Enabled(d, Run(id, exp)) && d.tasks[id].op.Conditional() && d.tasks[id].pc.Checking?
    ensures var d := After(start, run); var e := Next(d, Run(id, exp)); var task := d.tasks[id];
            var view := View(d.files, task.sid, d.now);
            var verdict := if task.op.Commit? then CommitRegistration(view, task.op.offer, task.op.b).1
                           else ReplaceBinding(view, task.op.expected, task.op.b).1;
            && e.files == d.files
            && e.tasks[id].pc == if verdict == Written then Checked(task.pc.f, task.pc.readAt, d.now) else Leaving(Outcome(verdict))
  {
    var d := Settled(start, run, id);
  }

  // ---------------------------------------------------------------- whole operations

  /** The record at `k` is `raw`, live at `t`, and the only change. */
  predicate OnlyWrote(before: map<Key, File>, after: map<Key, File>, k: Key, raw: Text) {
    FileAt(after, k).Envelope? && FileAt(after, k).raw == raw && after == before[k := FileAt(after, k)]
  }

  /** The check that let a conditional write pass, or stopped it, was made in time on the file as it was. */
  ghost predicate WasChecked(op: Op, f: File, from: real, to: real, v: Verdict)
    requires op.Conditional()
  {
    exists at: real :: from <= at <= to && Check(op, f, at) == v
  }

  /** What a writer has made, by now, of the files it found when it took the lock at time `from`. */
  ghost predicate Progress(before: map<Key, File>, from: real, d: Disk, id: nat)
    requires id in d.tasks
  {
    var task := d.tasks[id];
    match task.pc
    case Entered => d.files == before
    case Checking(_, _) => d.files == before
    case Checked(_, _, _) => d.files == before && task.op.Conditional() && WasChecked(task.op, FileAt(before, ReadKey(task)), from, d.now, Written)
    case Unlinked =>
      && d.files == before - {Reg(task.sid)}
      && (task.op.Commit? ==> WasChecked(task.op, FileAt(before, ReadKey(task)), from, d.now, Written))
    case Leaving(a) => Finished(before, from, d, task, a)
    case _ => true
  }

  ghost predicate Finished(before: map<Key, File>, from: real, d: Disk, task: Task, a: Answer) {
    var sid := task.sid;
    match task.op
    case PutPending(p) => OnlyWrote(before, d.files, Reg(sid), PendingToJson(p))
    case DeletePending => d.files == before - {Reg(sid)}
    case PutBinding(b) => OnlyWrote(before, d.files, Bind(sid), BindingToJson(b))
    case Delete => d.files == before - {Reg(sid)} - {Bind(sid)}
    case Commit(_, b) =>
      && a.Outcome? && WasChecked(task.op, FileAt(before, ReadKey(task)), from, d.now, a.v)
      && if a.v == Written then OnlyWrote(before - {Reg(sid)}, d.files, Bind(sid), BindingToJson(b)) else d.files == before
    case Replace(_, b) =>
      && a.Outcome? && WasChecked(task.op, FileAt(before, ReadKey(task)), from, d.now, a.v)
      && if a.v == Written then OnlyWrote(before, d.files, Bind(sid), BindingToJson(b)) else d.files == before
    case _ => true
  }

  lemma StepKeepsProgress(before: map<Key, File>, from: real, d: Disk, id: nat, exp: int)
    requires Inv(d) && id in d.tasks && Inside(d.tasks[id]) && Progress(before, from, d, id) && from <= d.now
    requires Enabled(d, Run(id, exp))
    ensures Progress(before, from, Next(d, Run(id, exp)), id)
  {
    var task := d.tasks[id];
    assert TaskOk(d, id, task);
    if task.pc.Checking? {
      assert WasChecked(task.op, FileAt(before, ReadKey(task)), from, d.now, Check(task.op, task.pc.f, d.now));
    }
  }

  lemma WaitKeepsProgress(before: map<Key, File>, from: real, d: Disk, id: nat, a: Action)
    requires Inv(d) && id in d.tasks && Inside(d.tasks[id]) && Progress(before, from, d, id)
    requires Enabled(d, a) && !(a.Run? && a.id == id)
    ensures var e := Next(d, a); id in e.tasks && e.tasks[id] == d.tasks[id] && Progress(before, from, e, id)
  {
    if a.Run? {
      OnlyTheHolderWrites(d, a.id, a.exp);
    }
  }

  /** From taking the lock to leaving it, nobody else changes any file. */
  lemma {:induction false} HolderProgresses(start: Disk, run: seq<Action>, k: nat, id: nat)
    requires Initial(start) && IsRun(start, run) && k <= |run| && IsRun(start, run[..k])
    requires id in After(start, run[..k]).tasks && After(start, run[..k]).tasks[id].pc.Entered?
    ensures var d, e := After(start, run[..k]), After(start, run);
            && d.now <= e.now && id in e.tasks && e.tasks[id].op == d.tasks[id].op && e.tasks[id].sid == d.tasks[id].sid
            && (Inside(e.tasks[id]) || e.tasks[id].pc.Done?) && Progress(d.files, d.now, e, id)
    decreases |run|
  {
    RunsKeepInv(start, run[..k]);
    assert TaskOk(After(start, run[..k]), id, After(start, run[..k]).tasks[id]);
    if k == |run| {
      assert run[..k] == run;
    } else {
      var shorter := run[..|run| - 1];
      assert shorter[..k] == run[..k];
      HolderProgresses(start, shorter, k, id);
      RunsKeepInv(start, shorter);
      var d, e, a := After(start, run[..k]), After(start, shorter), run[|run| - 1];
      if Inside(e.tasks[id]) {
        if a.Run? && a.id == id {
          StepKeepsProgress(d.files, d.now, e, id, a.exp);
        } else {
          WaitKeepsProgress(d.files, d.now, e, id, a);
        }
      }
    }
  }

  /** What the Store contract makes of a session's cells, given the verdict of a conditional write. */
  function Contract(op: Op, v: Verdict, view: Store): Store {
    match op
    case PutPending(p) => PutPendingRegistration(view, JoinedPending(p))
    case DeletePending => DeletePendingRegistration(view)
    case PutBinding(b) => StoreContract.PutBinding(view, JoinedBinding(b))
    case Delete => StoreContract.Delete(view)
    case Commit(_, b) => if v == Written then Store(Absent, Stored(JoinedBinding(b))) else view
    case Replace(_, b) => if v == Written then StoreContract.PutBinding(view, JoinedBinding(b)) else view
    case _ => view
  }

  /** The verdict of the Store contract on the cells as they are. */
  function ContractVerdict(op: Op, view: Store): Verdict {
    match op
    case Commit(offer, b) => CommitRegistration(view, offer, JoinedBinding(b)).1
    case Replace(expected, b) => ReplaceBinding(view, expected, JoinedBinding(b)).1
    case _ => Written
  }

  /** The record a writer wrote, if it wrote one, has not expired at `t`. */
  predicate StillLive(op: Op, files: map<Key, File>, sid: Text, t: real) {
    && (op.PutPending? ==> !Expired(FileAt(files, Reg(sid)), t))
    && (op.PutBinding? || op.Conditional() ==> !Expired(FileAt(files, Bind(sid)), t))
  }

  /**
   * Between taking the lock and leaving it, a writer turns the cells of its session into what the one
   * contract operation makes of them, whatever else goes on meanwhile. Its verdict is the contract's at
   * an instant in between, no other session is touched, and a refusal leaves every file as it was.
   */
  lemma WriterActsAsOne(start: Disk, run: seq<Action>, k: nat, id: nat) returns (at: real)
    requires Initial(start) && IsRun(start, run) && k <= |run| && IsRun(start, run[..k])
    requires id in After(start, run[..k]).tasks && After(start, run[..k]).tasks[id].pc.Entered?
    requires id in After(start, run).tasks && After(start, run).tasks[id].pc.Leaving?
    ensures var d, e := After(start, run[..k]), After(start, run);
            var op, sid := d.tasks[id].op, d.tasks[id].sid; var v := ContractVerdict(op, View(d.files, sid, at));
            && d.now <= at <= e.now
            && (op.Conditional() ==> e.tasks[id].pc.a == Outcome(v))
            && (v != Written ==> e.files == d.files)
            && (forall t: real :: StillLive(op, e.files, sid, t) || v != Written ==>
                  View(e.files, sid, t) == Contract(op, v, View(d.files, sid, t)))
            && (forall other: Text, t: real :: other != sid ==> View(e.files, other, t) == View(d.files, other, t))
  {
    var d, e := After(start, run[..k]), After(start, run);
    HolderProgresses(start, run, k, id);
    RunsKeepInv(start, run);
    assert TaskOk(e, id, e.tasks[id]);
    var task := e.tasks[id];
    at := d.now;
    if task.op.Conditional() {
      at :| d.now <= at <= e.now && Check(task.op, FileAt(d.files, ReadKey(task)), at) == task.pc.a.v;
    }
    FinishedReadsBack(d.files, d.now, e, task, task.pc.a);
    FinishedTouchesNoOther(d.files, d.now, e, task, task.pc.a);
  }

  lemma FinishedReadsBack(before: map<Key, File>, from: real, e: Disk, task: Task, a: Answer)
    requires Finished(before, from, e, task, a) && task.op.Valid() && !task.op.Reader()
    ensures var v := if task.op.Conditional() then a.v else Written;
            forall t: real :: StillLive(task.op, e.files, task.sid, t) || v != Written ==>
              View(e.files, task.sid, t) == Contract(task.op, v, View(before, task.sid, t))
  {
    match task.op
    case PutPending(p) => PendingReadsBack(p);
    case PutBinding(b) => BindingReadsBack(b);
    case Commit(_, b) => BindingReadsBack(b);
    case Replace(_, b) => BindingReadsBack(b);
    case _ =>
  }

  lemma FinishedTouchesNoOther(before: map<Key, File>, from: real, e: Disk, task: Task, a: Answer)
    requires Finished(before, from, e, task, a) && !task.op.Reader()
    ensures forall other: Text, t: real :: other != task.sid ==> View(e.files, other, t) == View(before, other, t)
  {
    forall other: Text, t: real | other != task.sid
      ensures View(e.files, other, t) == View(before, other, t)
    {
      assert FileAt(e.files, Reg(other)) == FileAt(before, Reg(other));
      assert FileAt(e.files, Bind(other)) == FileAt(before, Bind(other));
    }
  }

  // ---------------------------------------------------------------- what a file says

  /** There is no file, or its envelope's expiry is before the clock. */
  predicate Gone(f: File, t: real) {
    f.Missing? || (f.Envelope? && f.exp as real < t)
  }

  /** No record exactly if it is gone; unreadable if the file is garbled, or its live payload is not a record. */
  ghost predicate SaysBinding(f: File, t: real, cell: Cell<Binding>) {
    && (cell.Absent? <==> Gone(f, t))
    && (cell.Unreadable? <==> f.Garbled? || (f.Envelope? && t <= f.exp as real && BindingFromJson(f.raw).None?))
    && (forall b: Binding :: cell == Stored(b) <==> f.Envelope? && t <= f.exp as real && BindingFromJson(f.raw) == Some(b))
  }

  ghost predicate SaysOffer(f: File, t: real, cell: Cell<PendingRegistration>) {
    && (cell.Absent? <==> Gone(f, t))
    && (cell.Unreadable? <==> f.Garbled? || (f.Envelope? && t <= f.exp as real && PendingFromJson(f.raw).None?))
    && (forall p: PendingRegistration :: cell == Stored(p) <==> f.Envelope? && t <= f.exp as real && PendingFromJson(f.raw) == Some(p))
  }

  lemma CellsSay(f: File, t: real)
    ensures SaysBinding(f, t, BindingCell(f, t)) && SaysOffer(f, t, OfferCell(f, t))
  {}

  /**
   * What a conditional write does with the file it finds: it raises if the file is garbled or a live payload
   * is not a record, goes on if it is live and decodes to the expected record, and refuses otherwise.
   */
  lemma ConditionalDecides(start: Disk, run: seq<Action>, id: nat, exp: int)
    requires Initial(start) && IsRun(start, run)
    requires var d := After(start, run);
             Enabled(d, Run(id, exp)) && d.tasks[id].op.Conditional() && d.tasks[id].pc.Checking?
    ensures var d := After(start, run); var task := d.tasks[id]; var pc := Next(d, Run(id, exp)).tasks[id].pc;
            var f := FileAt(d.files, if task.op.Commit? then Reg(task.sid) else Bind(task.sid));
            var live := f.Envelope? && d.now <= f.exp as real;
            var decodes := live && (if task.op.Commit? then PendingFromJson(f.raw).Some? else BindingFromJson(f.raw).Some?);
            var matches := live && (if task.op.Commit? then PendingFromJson(f.raw) == Some(task.op.offer)
                                    else BindingFromJson(f.raw) == Some(task.op.expected));
            && (pc == Leaving(Outcome(Corrupt)) <==> f.Garbled? || (live && !decodes))
            && (pc == Leaving(Outcome(Conflict)) <==> Gone(f, d.now) || (decodes && !matches))
            && (pc.Checked? <==> matches)
  {
    var d := Settled(start, run, id);
  }

  // ---------------------------------------------------------------- registrations

  /** The offer a registration removes is the one it checked. */
  lemma CommitConsumesItsOffer(start: Disk, run: seq<Action>, id: nat, exp: int)
    requires Initial(start) && IsRun(start, run)
    requires var d := After(start, run);
             Enabled(d, Run(id, exp)) && d.tasks[id].op.Commit? && d.tasks[id].pc.Checked?
    ensures var d := After(start, run); var e := Next(d, Run(id, exp)); var task := d.tasks[id];
            && View(d.files, task.sid, task.pc.checkedAt).offer == Stored(task.op.offer)
            && FileAt(e.files, Reg(task.sid)) == Missing
            && (forall k :: k != Reg(task.sid) ==> FileAt(e.files, k) == FileAt(d.files, k))
  {
    var d := Settled(start, run, id);
  }

  /**
   * When a registration's binding appears, the session has no offer at all, before and after; so no
   * reader sees the new binding while the offer it consumed is there, only the offer gone first.
   */
  lemma BindingAppearsAfterOfferIsGone(start: Disk, run: seq<Action>, id: nat, exp: int, t: real)
    requires Initial(start) && IsRun(start, run)
    requires var d := After(start, run);
             Enabled(d, Run(id, exp)) && d.tasks[id].op.Commit?
             && FileAt(Next(d, Run(id, exp)).files, Bind(d.tasks[id].sid)) != FileAt(d.files, Bind(d.tasks[id].sid))
    requires t <= exp as real
    ensures var d := After(start, run); var e := Next(d, Run(id, exp)); var task := d.tasks[id];
            && task.pc.Unlinked? && e.tasks[id].pc == Leaving(Outcome(Written))
            && View(d.files, task.sid, t).offer == Absent
            && View(e.files, task.sid, t) == Store(Absent, Stored(JoinedBinding(task.op.b)))
  {
    var d := Settled(start, run, id);
    WrittenBindingIsThere(d.files, d.tasks[id].sid, d.tasks[id].op.b, exp, t);
  }

  // ---------------------------------------------------------------- readers

  function ReaderAnswer(op: Op, f: File, t: real): Answer {
    if op.GetPending? then Answer.Offer(OfferCell(f, t)) else Bound(BindingCell(f, t))
  }

  /** A reader that started stays as it is, takes its file, or compares the clock and answers. */
  lemma ReaderStep(d: Disk, a: Action, id: nat)
    requires Inv(d) && Enabled(d, a) && id in Next(d, a).tasks
    requires var task := Next(d, a).tasks[id]; task.op.Reader() && !task.pc.Waiting?
    ensures id in d.tasks && d.now <= Next(d, a).now
    ensures var before, task := d.tasks[id], Next(d, a).tasks[id];
            || before == task
            || (before == task.(pc := Waiting) && task.pc == Checking(FileAt(d.files, ReadKey(task)), d.now))
            || (&& before.pc.Checking? && task.pc == Done(ReaderAnswer(task.op, before.pc.f, d.now))
                && before.(pc := task.pc) == task)
  {
    if id in d.tasks {
      assert TaskOk(d, id, d.tasks[id]);
    }
  }

  /** Where a reader in progress took its file. */
  lemma {:induction false} ReaderTookItsFile(start: Disk, run: seq<Action>, id: nat) returns (k: nat)
    requires Initial(start) && IsRun(start, run) && id in After(start, run).tasks
    requires var task := After(start, run).tasks[id]; task.op.Reader() && task.pc.Checking?
    ensures k < |run| && IsRun(start, run[..k]) && id in After(start, run[..k]).tasks
    ensures var d, task := After(start, run[..k]), After(start, run).tasks[id];
            && d.tasks[id] == task.(pc := Waiting) && d.now <= After(start, run).now
            && task.pc == Checking(FileAt(d.files, ReadKey(task)), d.now)
    decreases |run|
  {
    var shorter := run[..|run| - 1];
    RunsKeepInv(start, shorter);
    ReaderStep(After(start, shorter), run[|run| - 1], id);
    if After(start, shorter).tasks[id].pc.Waiting? {
      k := |run| - 1;
    } else {
      k := ReaderTookItsFile(start, shorter, id);
      assert shorter[..k] == run[..k];
    }
  }

  /** After `k` actions the read had not taken its file, and after `j` it had not answered. */
  ghost predicate WithinRead(start: Disk, run: seq<Action>, id: nat, k: nat, j: nat) {
    && k < j < |run| && IsRun(start, run[..k]) && IsRun(start, run[..j])
    && id in After(start, run[..k]).tasks && After(start, run[..k]).tasks[id].pc.Waiting?
    && id in After(start, run[..j]).tasks && !After(start, run[..j]).tasks[id].pc.Done?
    && After(start, run[..k]).now <= After(start, run[..j]).now
  }

  /** The answer is what the session's cell held, by the files of the first instant and the clock of the second. */
  ghost predicate AnswersAsSeen(start: Disk, run: seq<Action>, task: Task, k: nat, j: nat)
    requires k < j < |run| && IsRun(start, run[..k]) && IsRun(start, run[..j]) && task.pc.Done?
  {
    var seen := View(After(start, run[..k]).files, task.sid, After(start, run[..j]).now);
    task.pc.a == if task.op.GetPending? then Answer.Offer(seen.offer) else Bound(seen.binding)
  }

  /**
   * What an unlocked reader answers is what its session's cell held, on the files at one instant of the
   * read (`k`) and the clock at a later one (`j`); both are inside the read, and no write can tear it.
   */
  lemma {:induction false} ReaderSeesOneInstant(start: Disk, run: seq<Action>, id: nat) returns (k: nat, j: nat)
    requires Initial(start) && IsRun(start, run) && id in After(start, run).tasks
    requires var task := After(start, run).tasks[id]; task.op.Reader() && task.pc.Done?
    ensures WithinRead(start, run, id, k, j) && AnswersAsSeen(start, run, After(start, run).tasks[id], k, j)
    decreases |run|
  {
    var shorter := run[..|run| - 1];
    RunsKeepInv(start, shorter);
    ReaderStep(After(start, shorter), run[|run| - 1], id);
    if After(start, shorter).tasks[id].pc.Done? {
      k, j := ReaderSeesOneInstant(start, shorter, id);
      assert shorter[..k] == run[..k] && shorter[..j] == run[..j];
    } else {
      j := |run| - 1;
      k := ReaderTookItsFile(start, shorter, id);
      assert shorter[..k] == run[..k];
    }
  }

  lemma {:induction false} PrefixIsRun(start: Disk, run: seq<Action>, l: nat)
    requires IsRun(start, run) && l <= |run|
    ensures IsRun(start, run[..l])
    decreases |run|
  {
    if l == |run| {
      assert run[..l] == run;
    } else {
      PrefixIsRun(start, run[..|run| - 1], l);
      assert run[..|run| - 1][..l] == run[..l];
    }
  }

  /** A read of the record of `task`, all at one instant after `l` actions, would answer `a`. */
  ghost predicate WouldAnswer(start: Disk, run: seq<Action>, l: nat, task: Task, a: Answer)
    requires IsRun(start, run) && l <= |run|
  {
    PrefixIsRun(start, run, l);
    var d := After(start, run[..l]);
    ReaderAnswer(task.op, FileAt(d.files, ReadKey(task)), d.now) == a
  }

  /** No instant from `from` to `to` would give answer `a`. */
  ghost predicate NeverAnswers(start: Disk, run: seq<Action>, from: nat, to: nat, task: Task, a: Answer)
    requires IsRun(start, run) && to <= |run|
  {
    forall l :: from <= l <= to ==> !WouldAnswer(start, run, l, task, a)
  }

  /** "There is no record", as a reader says it. */
  function NoRecord(op: Op): Answer {
    if op.GetPending? then Answer.Offer(Absent) else Bound(Absent)
  }

  predicate RanOut(f: File, readAt: real, t: real) {
    !Expired(f, readAt) && Expired(f, t)
  }

  /** Which instants of a read explain its answer, and when none does. */
  ghost predicate ExplainedExactly(start: Disk, run: seq<Action>, task: Task, k: nat, j: nat)
    requires IsRun(start, run) && k < j < |run| && IsRun(start, run[..k]) && IsRun(start, run[..j]) && task.pc.Done?
  {
    var d, e := After(start, run[..k]), After(start, run[..j]);
    var f := FileAt(d.files, ReadKey(task)); var ranOut := RanOut(f, d.now, e.now);
    && (WouldAnswer(start, run, k, task, task.pc.a) <==> !ranOut)
    && (FileAt(e.files, ReadKey(task)) == f ==> WouldAnswer(start, run, j, task, task.pc.a))
    && forall from, to :: 0 <= from <= k && j <= to <= |run| ==>
         (NeverAnswers(start, run, from, to, task, task.pc.a)
         <==> ranOut && NeverAnswers(start, run, from, to, task, NoRecord(task.op)))
  }

  /**
   * When an unlocked read is atomic, and when it is not. It takes its file after `k` actions and compares
   * the clock after `j`. Its answer is that of instant `k` exactly if the record did not run out in
   * between, and that of `j` if the file is still the same; and no instant of the whole read explains the
   * answer exactly if the record ran out in between and one was there at every instant.
   */
  lemma ReaderMissesExactly(start: Disk, run: seq<Action>, id: nat) returns (k: nat, j: nat)
    requires Initial(start) && IsRun(start, run) && id in After(start, run).tasks
    requires var task := After(start, run).tasks[id]; task.op.Reader() && task.pc.Done?
    ensures WithinRead(start, run, id, k, j) && ExplainedExactly(start, run, After(start, run).tasks[id], k, j)
  {
    k, j := ReaderSeesOneInstant(start, run, id);
    var task := After(start, run).tasks[id];
    var d, e := After(start, run[..k]), After(start, run[..j]);
    var f := FileAt(d.files, ReadKey(task));
    assert task.pc.a == ReaderAnswer(task.op, f, e.now);
    assert RanOut(f, d.now, e.now) ==> task.pc.a == NoRecord(task.op);
    assert WouldAnswer(start, run, k, task, task.pc.a) <==> !RanOut(f, d.now, e.now);
  }

  /** The answer is what the file taken after `k` actions says by the clock after `j`. */
  ghost predicate AnswersByFile(start: Disk, run: seq<Action>, task: Task, k: nat, j: nat)
    requires k < j < |run| && IsRun(start, run[..k]) && IsRun(start, run[..j]) && task.pc.Done?
  {
    var files, t := After(start, run[..k]).files, After(start, run[..j]).now;
    if task.op.GetPending?
    then task.pc.a.Offer? && SaysOffer(FileAt(files, Reg(task.sid)), t, task.pc.a.offer)
    else task.pc.a.Bound? && SaysBinding(FileAt(files, Bind(task.sid)), t, task.pc.a.binding)
  }

  /**
   * What a finished read answers, by the file it took after `k` actions and the clock after `j`: no record
   * exactly if there is no file or it has expired, and never for a garbled one.
   */
  lemma ReaderDecides(start: Disk, run: seq<Action>, id: nat) returns (k: nat, j: nat)
    requires Initial(start) && IsRun(start, run) && id in After(start, run).tasks
    requires var task := After(start, run).tasks[id]; task.op.Reader() && task.pc.Done?
    ensures WithinRead(start, run, id, k, j) && AnswersByFile(start, run, After(start, run).tasks[id], k, j)
  {
    k, j := ReaderSeesOneInstant(start, run, id);
    var sid := After(start, run).tasks[id].sid;
    CellsSay(FileAt(After(start, run[..k]).files, Reg(sid)), After(start, run[..j]).now);
    CellsSay(FileAt(After(start, run[..k]).files, Bind(sid)), After(start, run[..j]).now);
  }

  /** After every action of the run, and before the first, session "" has binding `b` stored. */
  ghost predicate BoundThroughout(start: Disk, run: seq<Action>, b: Binding)
    requires IsRun(start, run)
    decreases |run|
  {
    && View(After(start, run).files, [], After(start, run).now).binding == Stored(b)
    && (run != [] ==> BoundThroughout(start, run[..|run| - 1], b))
  }

  lemma OneMore(start: Disk, run: seq<Action>, b: Binding, a: Action, e: Disk) returns (longer: seq<Action>)
    requires IsRun(start, run) && Enabled(After(start, run), a) && e == Next(After(start, run), a)
    requires BoundThroughout(start, run, b) && View(e.files, [], e.now).binding == Stored(b)
    ensures longer == run + [a] && IsRun(start, longer) && After(start, longer) == e && BoundThroughout(start, longer, b)
  {
    longer := run + [a];
    assert longer[..|longer| - 1] == run;
  }

  const READER := Task([], GetBinding, Waiting)

  /** A reader that has taken a file one second before its record expires. */
  lemma ReaderTakes(raw: Text, b: Binding) returns (start: Disk, run: seq<Action>)
    requires BindingFromJson(raw) == Some(b)
    ensures Initial(start) && IsRun(start, run) && BoundThroughout(start, run, b)
    ensures run != [] && run[0] == Start(0, [], GetBinding)
    ensures var stale := Envelope(raw, 9);
            After(start, run) == Disk(9.0, map[Bind([]) := stale], None, map[0 := READER.(pc := Checking(stale, 9.0))])
  {
    var files := map[Bind([]) := Envelope(raw, 9)];
    start, run := Disk(9.0, files, None, map[]), [];
    assert BoundThroughout(start, run, b);
    run := OneMore(start, run, b, Start(0, [], GetBinding), Disk(9.0, files, None, map[0 := READER]));
    run := OneMore(start, run, b, Run(0, 0), Disk(9.0, files, None, map[0 := READER.(pc := Checking(Envelope(raw, 9), 9.0))]));
  }

  /**
   * The exception is real. A reader takes the old file just before it expires and compares the clock
   * just after; a newer record was put in place in between. It answers that there is no binding,
   * although at every instant since it started there was one.
   */
  lemma ReaderMissesABinding(b: Binding) returns (start: Disk, run: seq<Action>)
    requires b.Valid()
    ensures Initial(start) && IsRun(start, run) && BoundThroughout(start, run, JoinedBinding(b))
    ensures run != [] && run[0] == Start(0, [], GetBinding)
    ensures 0 in After(start, run).tasks && After(start, run).tasks[0].pc == Done(Bound(Absent))
  {
    var raw, bound := BindingToJson(b), JoinedBinding(b);
    BindingReadsBack(b);
    start, run := ReaderTakes(raw, bound);
    var files, tasks := After(start, run).files, After(start, run).tasks;
    var writer := Task([], Op.PutBinding(b), Waiting);
    tasks := tasks[1 := writer];
    run := OneMore(start, run, bound, Start(1, [], Op.PutBinding(b)), Disk(9.0, files, None, tasks));
    tasks := tasks[1 := writer.(pc := Entered)];
    run := OneMore(start, run, bound, Run(1, 0), Disk(9.0, files, Some(1), tasks));
    tasks := tasks[1 := writer.(pc := Leaving(Nothing))];
    files := files[Bind([]) := Envelope(raw, 100)];
    run := OneMore(start, run, bound, Run(1, 100), Disk(9.0, files, Some(1), tasks));
    run := OneMore(start, run, bound, Tick(10.0), Disk(10.0, files, Some(1), tasks));
    tasks := tasks[0 := READER.(pc := Done(Bound(Absent)))];
    run := OneMore(start, run, bound, Run(0, 0), Disk(10.0, files, Some(1), tasks));
  }

  lemma GoesOn(start: Disk, run: seq<Action>, a: Action, e: Disk)
    requires IsRun(start, run) && Enabled(After(start, run), a) && e == Next(After(start, run), a)
    ensures IsRun(start, run + [a]) && After(start, run + [a]) == e
  {
    assert (run + [a])[..|run|] == run;
  }

  /** A disk on which task 0, a conditional write of session "", holds the lock, or is still to take it. */
  function Alone(now: real, files: map<Key, File>, op: Op, pc: Pc): Disk {
    Disk(now, files, if pc.Waiting? then None else Some(0), map[0 := Task([], op, pc)])
  }

  function RecordOf(files: map<Key, File>, op: Op): File {
    FileAt(files, ReadKey(Task([], op, Waiting)))
  }

  lemma TakesTheLock(files: map<Key, File>, op: Op) returns (run: seq<Action>)
    requires op.Conditional() && op.Valid()
    ensures var start := Disk(9.0, files, None, map[]);
            Initial(start) && IsRun(start, run) && After(start, run) == Alone(9.0, files, op, Entered)
  {
    var start := Disk(9.0, files, None, map[]);
    GoesOn(start, [], Start(0, [], op), Alone(9.0, files, op, Waiting));
    GoesOn(start, [] + [Start(0, [], op)], Run(0, 0), Alone(9.0, files, op, Entered));
    run := [] + [Start(0, [], op)] + [Run(0, 0)];
  }

  /** A conditional write passes its check on a record in its last second, and then the second passes. */
  lemma ChecksInTime(files: map<Key, File>, op: Op) returns (run: seq<Action>)
    requires op.Conditional() && op.Valid() && Check(op, RecordOf(files, op), 9.0) == Written
    ensures var start := Disk(9.0, files, None, map[]);
            && Initial(start) && IsRun(start, run)
            && After(start, run) == Alone(10.0, files, op, Checked(RecordOf(files, op), 9.0, 9.0))
  {
    var start, f := Disk(9.0, files, None, map[]), RecordOf(files, op);
    run := TakesTheLock(files, op);
    GoesOn(start, run, Run(0, 0), Alone(9.0, files, op, Checking(f, 9.0)));
    run := run + [Run(0, 0)];
    GoesOn(start, run, Run(0, 0), Alone(9.0, files, op, Checked(f, 9.0, 9.0)));
    run := run + [Run(0, 0)];
    GoesOn(start, run, Tick(10.0), Alone(10.0, files, op, Checked(f, 9.0, 9.0)));
    run := run + [Tick(10.0)];
  }

  /** A rename that lands on an expired record: the contract would refuse there, and the write goes ahead. */
  lemma RenameMayComeLate(b: Binding) returns (start: Disk, run: seq<Action>)
    requires b.Valid()
    ensures Initial(start) && IsRun(start, run) && 0 in After(start, run).tasks
    ensures var d := After(start, run); var task := d.tasks[0];
            && task.op.Replace? && task.pc.Checked? && Enabled(d, Run(0, 100))
            && ReplaceBinding(View(d.files, task.sid, d.now), task.op.expected, JoinedBinding(task.op.b)).1 == Conflict
            && Next(d, Run(0, 100)).tasks[0].pc == Leaving(Outcome(Written))
            && View(Next(d, Run(0, 100)).files, task.sid, d.now).binding == Stored(JoinedBinding(b))
  {
    BindingReadsBack(b);
    var files := map[Bind([]) := Envelope(BindingToJson(b), 9)];
    var op := Replace(JoinedBinding(b), b);
    assert RecordOf(files, op) == files[Bind([])];
    start := Disk(9.0, files, None, map[]);
    run := ChecksInTime(files, op);
  }

  /** Past its check, a registration unlinks and writes whatever the clock says. */
  lemma BindsLate(files: map<Key, File>, op: Op, f: File)
    requires op.Commit? && op.b.Valid()
    ensures var d := Alone(10.0, files, op, Checked(f, 9.0, 9.0));
            && Enabled(d, Run(0, 100))
            && var e := Next(d, Run(0, 100));
            && Enabled(e, Run(0, 100))
            && var g := Next(e, Run(0, 100));
            && g.tasks[0].pc == Leaving(Outcome(Written))
            && View(g.files, [], d.now).binding == Stored(JoinedBinding(op.b))
  {
    BindingReadsBack(op.b);
  }

  /** A registration that removes an offer already expired, and goes on to bind. */
  lemma UnlinkMayComeLate(p: PendingRegistration, b: Binding) returns (start: Disk, run: seq<Action>)
    requires p.Valid() && b.Valid()
    ensures Initial(start) && IsRun(start, run) && 0 in After(start, run).tasks
    ensures var d := After(start, run); var task := d.tasks[0];
            && task.op.Commit? && task.pc.Checked? && Enabled(d, Run(0, 100))
            && CommitRegistration(View(d.files, task.sid, d.now), task.op.offer, JoinedBinding(task.op.b)).1 == Conflict
            && var e := Next(d, Run(0, 100));
            && Enabled(e, Run(0, 100)) && Next(e, Run(0, 100)).tasks[0].pc == Leaving(Outcome(Written))
            && View(Next(e, Run(0, 100)).files, task.sid, d.now).binding == Stored(JoinedBinding(b))
  {
    PendingReadsBack(p);
    var files := map[Reg([]) := Envelope(PendingToJson(p), 9)];
    var op := Commit(JoinedPending(p), b);
    assert RecordOf(files, op) == files[Reg([])];
    start := Disk(9.0, files, None, map[]);
    run := ChecksInTime(files, op);
    BindsLate(files, op, RecordOf(files, op));
  }

  function With(d: Disk, id: nat, op: Op, pc: Pc): Disk {
    d.(tasks := d.tasks[id := Task([], op, pc)])
  }

  lemma ReaderMoves(d: Disk, id: nat, op: Op, f: File)
    requires id !in d.tasks && op.Reader() && f == FileAt(d.files, ReadKey(Task([], op, Waiting)))
    ensures Enabled(d, Start(id, [], op)) && Next(d, Start(id, [], op)) == With(d, id, op, Waiting)
    ensures Enabled(With(d, id, op, Waiting), Run(id, 0))
    ensures Next(With(d, id, op, Waiting), Run(id, 0)) == With(d, id, op, Checking(f, d.now))
    ensures Enabled(With(d, id, op, Checking(f, d.now)), Run(id, 0))
    ensures Next(With(d, id, op, Checking(f, d.now)), Run(id, 0)) == With(d, id, op, Done(ReaderAnswer(op, f, d.now)))
  {}

  /** A reader starts, takes its file and answers, with nothing in between. */
  lemma Looks(start: Disk, run: seq<Action>, d: Disk, id: nat, op: Op) returns (longer: seq<Action>, e: Disk)
    requires IsRun(start, run) && After(start, run) == d && id !in d.tasks && op.Reader()
    ensures run <= longer && IsRun(start, longer) && After(start, longer) == e
    ensures e == With(d, id, op, Done(ReaderAnswer(op, FileAt(d.files, ReadKey(Task([], op, Waiting))), d.now)))
  {
    var f := FileAt(d.files, ReadKey(Task([], op, Waiting)));
    ReaderMoves(d, id, op, f);
    GoesOn(start, run, Start(id, [], op), With(d, id, op, Waiting));
    longer := run + [Start(id, [], op)];
    GoesOn(start, longer, Run(id, 0), With(d, id, op, Checking(f, d.now)));
    longer := longer + [Run(id, 0)];
    e := With(d, id, op, Done(ReaderAnswer(op, f, d.now)));
    GoesOn(start, longer, Run(id, 0), e);
    longer := longer + [Run(id, 0)];
  }

  /** A registration that has checked its offer in time removes it. */
  lemma Unlinks(p: PendingRegistration, b: Binding) returns (start: Disk, run: seq<Action>)
    requires p.Valid() && b.Valid()
    ensures Initial(start) && IsRun(start, run)
    ensures View(start.files, [], start.now) == Store(Stored(JoinedPending(p)), Absent)
    ensures After(start, run) == Alone(10.0, map[], Commit(JoinedPending(p), b), Unlinked)
  {
    PendingReadsBack(p);
    var files := map[Reg([]) := Envelope(PendingToJson(p), 100)];
    var op := Commit(JoinedPending(p), b);
    assert RecordOf(files, op) == files[Reg([])];
    start := Disk(9.0, files, None, map[]);
    run := ChecksInTime(files, op);
    assert files - {Reg([])} == map[];
    GoesOn(start, run, Run(0, 0), Alone(10.0, map[], op, Unlinked));
    run := run + [Run(0, 0)];
  }

  /** The rest of the registration, with two readers that have answered. */
  lemma BindsAndLeaves(start: Disk, run: seq<Action>, d: Disk, op: Op) returns (longer: seq<Action>)
    requires IsRun(start, run) && After(start, run) == d && d.now == 10.0 && d.files == map[] && d.lock == Some(0)
    requires 0 in d.tasks && d.tasks[0] == Task([], op, Unlinked) && op.Commit? && op.b.Valid()
    ensures run <= longer && IsRun(start, longer)
    ensures var e := After(start, longer);
            && e.tasks == d.tasks[0 := Task([], op, Done(Outcome(Written)))] && e.now == d.now
            && View(e.files, [], e.now) == Store(Absent, Stored(JoinedBinding(op.b)))
  {
    BindingReadsBack(op.b);
    var files := Write(map[], Bind([]), BindingToJson(op.b), 100);
    var e := d.(files := files, tasks := d.tasks[0 := Task([], op, Leaving(Outcome(Written)))]);
    GoesOn(start, run, Run(0, 100), e);
    longer := run + [Run(0, 100)];
    GoesOn(start, longer, Run(0, 0), e.(lock := None, tasks := d.tasks[0 := Task([], op, Done(Outcome(Written)))]));
    longer := longer + [Run(0, 0)];
  }

  /**
   * Readers can tell the two file steps of a registration apart. The only writer turns an offer without a
   * binding into a binding without an offer; a first reader finds no offer, so it comes after that, and a
   * second, started when the first has answered (after `mid`), finds no binding, so it comes before.
   */
  lemma ReadersSeeBothSteps(p: PendingRegistration, b: Binding)
    returns (start: Disk, mid: seq<Action>, run: seq<Action>)
    requires p.Valid() && b.Valid()
    ensures Initial(start) && mid <= run && IsRun(start, mid) && IsRun(start, run)
    ensures View(start.files, [], start.now) == Store(Stored(JoinedPending(p)), Absent)
    ensures var d := After(start, mid); 1 in d.tasks && d.tasks[1].op == GetPending && d.tasks[1].pc.Done? && 2 !in d.tasks
    ensures var e := After(start, run);
            && View(e.files, [], e.now) == Store(Absent, Stored(JoinedBinding(b)))
            && e.tasks == map[0 := Task([], Commit(JoinedPending(p), b), Done(Outcome(Written))),
                              1 := Task([], GetPending, Done(Answer.Offer(Absent))),
                              2 := Task([], GetBinding, Done(Bound(Absent)))]
  {
    var d, e;
    start, run := Unlinks(p, b);
    mid, d := Looks(start, run, After(start, run), 1, GetPending);
    run, e := Looks(start, mid, d, 2, GetBinding);
    run := BindsAndLeaves(start, run, e, Commit(JoinedPending(p), b));
  }

  /** With the clock alone moving, cells only decay. */
  lemma ClockOnlyDecays(files: map<Key, File>, sid: Text, t: real, later: real)
    requires t <= later
    ensures Degrades(View(files, sid, t).offer, View(files, sid, later).offer)
    ensures Degrades(View(files, sid, t).binding, View(files, sid, later).binding)
  {}

  /** Whatever is not a step of the lock's holder leaves every session's cells as they are, or decayed. */
  lemma OnlyTheHolderRenews(start: Disk, run: seq<Action>, a: Action, sid: Text)
    requires Initial(start) && IsRun(start, run) && Enabled(After(start, run), a)
    requires a.Run? ==> After(start, run).lock != Some(a.id)
    ensures var d := After(start, run); var e := Next(d, a);
            && Degrades(View(d.files, sid, d.now).offer, View(e.files, sid, e.now).offer)
            && Degrades(View(d.files, sid, d.now).binding, View(e.files, sid, e.now).binding)
  {
    RunsKeepInv(start, run);
    if a.Run? {
      OnlyTheHolderWrites(After(start, run), a.id, a.exp);
    } else {
      ClockOnlyDecays(After(start, run).files, sid, After(start, run).now, Next(After(start, run), a).now);
    }
  }
}
