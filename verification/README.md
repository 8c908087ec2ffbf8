# Device-bound sessions: protocol, stores and wire forms

A Dafny model of the device-bound session server in `src/dbsc` and of the file-backed store in
`examples/demo_server.py`, with proofs of what they promise under every interleaving.

`dafny verify dfyconfig.toml` checks everything.

## What is modelled

**The protocol** (`Records.dfy`, `Server.dfy`, `Lineage.dfy`, `Machine.dfy`, `Invariant.dfy`, `Steps.dfy`,
`Theorems.dfy`, `Outcomes.dfy`, `Worlds.dfy`, `Schedules.dfy`). A session owns two cells of the store, one for the registration
offer and one for the binding; each is absent, unreadable, or holds a record. Offering, registering, issuing a refresh challenge,
refreshing, advertising, revoking and the recommended gate are small processes whose steps are their store
accesses, with the same retry loops, checks and errors as the source. Any number of calls on any number of
sessions interleave with each other, with the clock, and with the decay of stored records: a record may
vanish or become unreadable at any time, which covers expiry and damage. `Machine.World` is the state,
`Machine.Next` one step, and a run is any sequence of enabled steps from an empty store. `Invariant.Inv` is
inductive (`Steps.RunsKeepInv`), and `Theorems.dfy` draws the conclusions for every reachable session, `Worlds.dfy` those
that span sessions. `Schedules.dfy` builds runs that show what can happen.

Each session carries the trace of all store values it ever had and the history of all bindings ever written
(`Lineage.Version`), split into lineages: one lineage is one successful registration and everything written
for its `session_identifier`. What the two challenge slots, the two cookie slots and the timestamps of a
record mean is stated against that history, not against the code that maintains them.

`Server.Atomically` is the sequential reference: each operation as it would run with nothing in between.
`Theorems.Linearizable` says that every interleaving is explained by it, each call acting at one instant of
its own duration. `Outcomes.dfy` decides every answer and every write once more without that reference, from the
cells and the history at that instant. `Tasks.DbscServer` writes the asynchronous methods out as loops with early returns, with
arbitrary other activity at each await, and proves that each ends as the step machine says it may, with the answer
and the write that `Outcomes.dfy` decides.

**The stores.** `MemoryStore.InMemoryStore` is the class of `src/dbsc/store.py`: two dictionaries of JSON text
with expiries, proved to behave as a map of decoded cells; `MemoryRuns.dfy` proves that the server over those dictionaries
is the protocol. `FileStore.dfy` is the file store as a step machine:
one lock for writers, readers without it, and every read, unlink and rename a separate step.

**The wire.** `Json.dfy` and `JsonProofs.dfy` hold the printer and parser of `src/dbsc/_json.py`, with escapes,
surrogates, numbers, nesting and duplicate members; `Codec.dfy` the two records; `Headers.dfy` the two headers
the server prints and a parser after section 4.2 of RFC 8941. `Wire.dfy` connects them to the protocol: what
any run stores and prints reads back.

## What is assumed

- Nonces are non-empty hex and never repeat (`Machine.NoncesFresh`). Their length is left open, and the runs that
  `Schedules.dfy` exhibits draw strings of ever more zeros: they are runs of the source up to renaming its nonces, which all
  have 64 digits.
- A token's `jti` is a function of the token; whether it is signed is an arbitrary predicate of token and key;
  what a registration token proves is an arbitrary function of the token.
- There is one integer clock and it never goes back. A call's samples are taken in order between its last read
  and its next store access; the sample that dates the emitted cookie comes after the write. "As if one after the
  other" keeps each call's own samples: a time limit is judged on the clock of the check, not of the write.
- The configuration is constant, and the store starts empty.
- The protocol theorems assume a store whose two conditional writes are atomic, as `src/dbsc/store.py:35-41` demands,
  and which returns records as they were given. `InMemoryStore` does the latter exactly when no free-form field holds a
  split surrogate pair (`MemoryStore.StoredAsGiven`), and then `MemoryRuns.ServedRunsAreRuns` discharges both assumptions
  for it; with one in a user id, the stored id is the joined one, and
  comparing it with the given one fails.

## Where the code and its promises part

- The documentation promises refreshes an outcome "exactly as if the requests had arrived one after the other". A refresh
  that lost three conditional writes always reports a challenge mismatch. `Theorems.GivingUpIsRight` says when some
  instant of the call explains that: exactly if, at one, the device was honest to a stored binding whose challenge was
  live, and the jti was no longer one of its last two mints in time. At the last instant the first two suffice.
  `Schedules.GivesUpOnARevocation` and `Schedules.GivesUpOnARegistration` extend any suitable run to one in which no
  instant does: in sequence the answer at the end would be terminal, where the code reports a retryable error.
  The refusal itself is always right: the proof could not be accepted then or later.
- A registration that lost its offer reports a missing challenge. Some instant of the call explains that exactly if no
  offer was stored at one (`Theorems.LosingTheOfferMatchesExactly`); when one offer merely replaced the other, the
  sequential answer is the newer offer's own failure (`Schedules.LosesItsOffer`).
- A challenge request that lost three writes answers with the stored challenge unrotated, as its documentation says.
- `from_json` undoes `to_json` except on text that holds a high surrogate directly followed by a low one: the
  pair reads back as one character. `Codec.BindingRoundTrip` gives the exact condition, `Codec.SplitPairIsLost`
  an input.
- The file store compares a record's expiry with the clock after reading it and, for a conditional write,
  before the file changes. A reader can therefore report no record although one was stored throughout:
  `FileStore.ReaderMissesExactly` says exactly when, `FileStore.ReaderMissesABinding` gives a run. And a rename or the
  removal of an offer can land on a record that has expired since its check: `FileStore.ReplaceAgreesUnlessExpired`
  and `FileStore.CommitAgreesUnlessExpired` say exactly when, `FileStore.RenameMayComeLate` and
  `FileStore.UnlinkMayComeLate` give the runs.

## Model

| member | source | states |
|---|---|---|
| `Theorems.Linearizable` | src/dbsc/server.py:232-236 | in every reachable session each store value is the initial one, decay, or exactly the sequential effect of one finished call, and every finished call's answer is the sequential one at an instant inside its duration, or the refusal or unrotated 403 that instant justifies |
| `Theorems.StepIsSequential` | src/dbsc/store.py:35-41 | each single change of the store is one call run alone on the value before it, with its own answer |
| `Theorems.RealTimeOrder` | src/dbsc/server.py:232-236 | those instants respect real time: a call finished before another began acts before it, strictly if it wrote |
| `Theorems.OnlySuccessWrites` | src/dbsc/server.py:112-117 | a call's one write belongs to a successful answer; failed attempts leave offer and binding as they are |
| `Theorems.PrefixRecordsKept` | src/dbsc/server.py:101-345 | what a run records of a session is never rewritten by its continuation |
| `Outcomes.EveryCallIsDecided` | src/dbsc/server.py:84-457 | the answer of every finished call in every run, and what it leaves stored, is decided by the cells and the history at its instant, on clock samples taken inside it; one of the seven rows below for each operation |
| `Outcomes.OfferDecides` | src/dbsc/server.py:84-99 | an offer call stores the caller's user, the printed challenge and its clock sample as the offer, and keeps the binding |
| `Outcomes.RegisterDecides` | src/dbsc/server.py:127-179 | no offer: missing challenge; unreadable: corrupt; else foreign user, then age past the TTL, then a token that does not name the offer give one error each, and otherwise the call registers; it leaves no offer and a binding of the offer's user or else the caller's, the proved key, the emitted id and cookie, a new challenge, one timestamp and nothing previous; the cookie expires a max age after its clock sample; a lost offer is told missing while a stored one has another challenge |
| `Outcomes.RefreshDecides` | src/dbsc/server.py:247-313 | no binding or a foreign user or session id: not found; unreadable: corrupt; else age past the TTL, then a token not of the stored key, then a jti that is no recent mint give one error each, and otherwise the call ends in 200; it renews cookie, challenge and times, keeps the demoted cookie to its own expiry, and changes nothing else; the cookie expires a max age after its clock sample |
| `Outcomes.IssueDecides` | src/dbsc/server.py:196-212 | no binding: a bare 403; unreadable: corrupt; otherwise a 403 with the stored id, and a challenge no binding had before, stored with the demoted one kept and nothing else changed, or after three lost writes the stored one |
| `Outcomes.AdvertiseDecides` | src/dbsc/server.py:441-457 | it advertises if and only if the binding passed in is the stored one, of no foreign user, unadvertised, unrefreshed, with a live challenge; it raises if and only if it is worth advertising and the record is unreadable; otherwise silence |
| `Outcomes.RevokeDecides` | src/dbsc/server.py:326-345 | a revocation always ends as one and leaves neither record |
| `Outcomes.GateDecides` | examples/demo_server.py:367-381 | no binding: degrade; unreadable: corrupt; a stored one admits or refuses, by the grace for subresources, the user, and the last two cookies issued |
| `Steps.NextKeepsInv` | src/dbsc/server.py:101-457 | every step of every operation, the clock and decay keep the invariant, and histories only grow |
| `Steps.RunsKeepInv` | src/dbsc/server.py:101-457 | the invariant holds after every run |
| `Steps.SupersededOfferRefuses` | src/dbsc/server.py:166-170 | when the offer read is no longer stored, no clock and no nonce would let this token register what is stored now |
| `Steps.ThreeLossesRefuse` | src/dbsc/server.py:247-269 | on losing its third conditional write a refresh finds its jti in no slot of what is stored, so the sequential operation refuses for every clock |
| `Theorems.GivingUpIsRight` | src/dbsc/server.py:232-236 | a refresh that gave up answered challenge mismatch after at least two bindings were written during it (three if one is stored), and its jti is in no slot at that instant or any later one; this answer is the sequential one there, on any clock, if and only if the device is honest to a stored binding whose challenge is live, and it is the sequential one at some instant of the whole call if and only if the device was mismatched at one |
| `Theorems.MismatchExactly` | src/dbsc/server.py:277-312 | on the store of any instant of any run, the sequential refresh answers a mismatch if and only if the device is honest to a stored binding, its challenge is live, and the jti is neither of the last two mints in time |
| `Theorems.LosingTheOfferMatchesExactly` | src/dbsc/server.py:166-170 | a registration that lost its offer answers missing challenge and is refused by the sequential operation too; this answer is the sequential one at its instant if and only if no offer is stored there, and at some instant of the whole call if and only if none was stored at some instant of it |
| `Schedules.ThirdAttemptMaySucceed` | src/dbsc/server.py:247-269 | the bound of three is needed: any run with an unadvertised, unrefreshed, live binding goes on so that a refresh loses two conditional writes and its third attempt ends in 200 |
| `Schedules.GivesUpOnARevocation` | src/dbsc/server.py:268-269 | any such run goes on so that a refresh loses its third write to a revocation and reports a mismatch that no instant of its duration explains; the sequential answer at the end is terminal |
| `Schedules.GivesUpOnARegistration` | src/dbsc/server.py:268-269 | the same with the third write lost to a registration by another device, whose binding is stored at the end |
| `Schedules.LosesItsOffer` | src/dbsc/server.py:166-170 | any run goes on so that a registration reports a missing challenge though an offer was stored at every instant of it |
| `Schedules.TwoLossesThenSuccess` | src/dbsc/server.py:247-269 | such a run from the empty store: a refresh in its third attempt, after two lost writes, that then ends in 200 |
| `Schedules.UnexplainedMismatches` | src/dbsc/server.py:268-269 | two runs from the empty store whose refresh gives up with a mismatch no instant explains, after a revocation and after another registration |
| `Schedules.UnexplainedMissingOffer` | src/dbsc/server.py:166-170 | a run from the empty store whose registration misses its offer though one was stored at every instant of it |
| `Lineage.ThreeWritesKill` | src/dbsc/server.py:247-269 | any three writes after a binding kill every challenge it held: one advertisement at most, and any refresh, registration or two rotations are fatal |
| `Lineage.ReplacedOutright` | src/dbsc/binding.py:241-261 | any later registration or refresh makes a challenge unacceptable at once |
| `Lineage.RotatedTwice` | src/dbsc/binding.py:199-212 | any two later reactive rotations make a challenge unacceptable |
| `Lineage.DeadForever` | src/dbsc/binding.py:193-261 | a challenge that left both slots never returns to one |
| `Theorems.ChallengeWasCurrent` | src/dbsc/server.py:196-212 | the challenge and id in every 403 were the stored current ones at an instant inside the call: right after its own rotation, or at its final read |
| `Theorems.FallbackIsFresh` | src/dbsc/server.py:207-212 | the unrotated 403 comes after three bindings written since the call's first read, which has an index and a clock inside the call; if none of them was a registration, its challenge was minted no earlier than that read |
| `Lineage.ThreeWritesRenew` | src/dbsc/server.py:196-212 | three writes without a registration stay in one lineage and mint a challenge no earlier than the first of them |
| `Theorems.NoAba` | src/dbsc/store.py:168-174 | a binding value stored at two instants was stored at every instant between them |
| `Theorems.SuccessMeansUntouched` | src/dbsc/store.py:91-103 | a conditional write that will succeed: the cell held the expected value at every instant since it was read |
| `Theorems.FailureMeansSomeoneElse` | src/dbsc/store.py:91-103 | one that will fail: an instant since the read at which someone else wrote or removed that value |
| `Lineage.NoVersionTwice` | src/dbsc/binding.py:193-261 | no two bindings ever written for a session are equal |
| `Worlds.ChallengesAreSpentOnce` | src/dbsc/server.py:300-313 | no two successful refreshes of a run, in one session or in two, proved the same jti |
| `Worlds.NothingIsIssuedTwice` | src/dbsc/server.py:152-165 | no two successful registrations or refreshes of a run emit the same cookie, and no two registrations, nor calls of two sessions, the same session id |
| `Worlds.OneTokenOneBinding` | src/dbsc/server.py:142-170 | one registration token makes at most one binding in a run, whatever sessions it is presented to |
| `Worlds.RunsKeepApart` | src/dbsc/server.py:153-161 | in every run no challenge, cookie, session id or offer challenge belongs to two sessions |
| `Theorems.SpentOnceInSession` | src/dbsc/server.py:300-313 | two successful refreshes of one session never proved the same jti |
| `Theorems.RefreshProvesTheRegisteredKey` | src/dbsc/server.py:293-295 | every refresh that ends in 200 carries a token signed under the key that the token of an earlier successful registration with the same session id proved |
| `Lineage.SingleSpend` | src/dbsc/server.py:300-313 | in a session's history each jti is spent by at most one refresh |
| `Lineage.SpentForGood` | src/dbsc/binding.py:241-261 | a refresh makes the current and the previous challenge it found unacceptable at every later time |
| `Lineage.SlotsAreTheLastTwoMints` | src/dbsc/binding.py:206-212 | the two challenge slots are exactly the last two mints, with their times, since registration or last refresh |
| `Lineage.AcceptedExactlyLastTwoMints` | src/dbsc/server.py:286-313 | a signed proof of the right user and session passes if and only if its jti is one of the last two mints within its own TTL |
| `Theorems.RefreshDecidesByMints` | src/dbsc/server.py:247-313 | under every interleaving an honest refresh ends in 200 if and only if its jti is one of the last two mints, in time, where it acts |
| `Lineage.OutlivesOneRotation` | src/dbsc/binding.py:193-220 | a challenge stays in a slot with its own time through advertisements and one rotation |
| `Lineage.SlotsAreTheLastTwoCookies` | src/dbsc/binding.py:250-261 | the two cookie slots are exactly the last two issued cookies, the older with its own issue time plus max age |
| `Lineage.CookieExactlyLastTwoIssued` | src/dbsc/server.py:363-391 | for a matching user a cookie passes if and only if it is the newest issued, or the second newest before its own expiry |
| `Lineage.SurvivesOneRefresh` | src/dbsc/server.py:378-391 | a cookie that was current passes until its own expiry after one refresh and any rotations and advertisements |
| `Theorems.GateDecidesByIssuance` | examples/demo_server.py:367-381 | in any run the gate answers unbound if and only if no binding is stored, corrupt if and only if it is unreadable, and admits of a stored one a subresource in its grace, and from a matching user the newest cookie of the lineage or the second newest in time; it refuses everything else |
| `Theorems.UnreadableFailsClosed` | src/dbsc/server.py:353-361 | while the record is unreadable, gate, refresh and challenge calls all end in the corrupt-state error |
| `Lineage.LineageIsContiguous` | src/dbsc/server.py:152-166 | the bindings written under one session identifier are contiguous and only the first is a registration |
| `Lineage.LineageKeeps` | src/dbsc/binding.py:193-261 | key, user, algorithm and creation time never change in a lineage; both flags are one-way; challenge times never go back |
| `Lineage.Timing` | src/dbsc/binding.py:206-261 | created <= cookie issued <= previous challenge (when set) <= challenge <= written, and the previous cookie expires no later than cookie issued plus max age |
| `Theorems.TimingOfEveryBinding` | src/dbsc/binding.py:206-261 | the same order for every binding any run ever stores |
| `Lineage.NeverExpiresBeforeItsCookie` | src/dbsc/config.py:86-90 | with TTL above max age a proof is never refused as expired while the cookie's lifetime lasts |
| `Theorems.ExpiresOnlyAfterItsCookie` | src/dbsc/config.py:86-90 | in every run a refresh that ends as expired found a cookie past its lifetime, and none ends for want of a challenge |
| `Theorems.EmittedCookieOutlivesRecord` | src/dbsc/server.py:507-513 | the cookie and challenge a refresh emits are the stored ones, and the emitted expiry is exactly a max age after a clock sample at or after the stored issue time |
| `Theorems.SeedAdvertisedOnce` | src/dbsc/server.py:416-439 | an advertisement never follows an advertisement or a refresh of the same lineage |
| `Theorems.AdvertisingOnlyMarks` | src/dbsc/server.py:441-451 | whatever binding is passed in, an advertisement that writes found exactly it stored, live and unrefreshed, and changes its flag only |
| `Lineage.AdvertisedOnce` | src/dbsc/server.py:441-451 | two advertisements in a history belong to different lineages |
| `Lineage.NotAdvertisedAfterRefresh` | src/dbsc/server.py:441-451 | an advertisement after a refresh belongs to another lineage |
| `Theorems.OfferIsStored` | src/dbsc/server.py:84-99 | an offer call stores an offer with the printed challenge, its user and a time inside the call, and leaves the binding |
| `Theorems.RegistrationBindsTheDevice` | src/dbsc/server.py:127-179 | a successful registration consumes the stored offer its token signed, within the offer's TTL, binds the proved key, the offer's user and the emitted id and cookie, and dates the cookie a max age after a clock sample at or after the binding's creation |
| `Theorems.OneOfferOneBinding` | src/dbsc/store.py:76-89 | two successful registrations consumed different offers |
| `Theorems.GoneOfferStaysGone` | src/dbsc/store.py:76-89 | an offer that left its cell never returns to it |
| `Theorems.SupersededRegistrationLoses` | src/dbsc/server.py:112-117 | a registration in flight whose offer was replaced, withdrawn or used stays unfinished or fails, however the run continues |
| `Theorems.RevokeErasesBoth` | src/dbsc/server.py:326-333 | a finished revocation left the session with neither record at its instant, unreadable ones included |
| `Theorems.RevocationIsFinal` | src/dbsc/server.py:333 | a binding after it comes from a registration of an offer that was stored after it |
| `Theorems.HonestDeviceIsNeverTerminated` | src/dbsc/server.py:221-230 | while a binding of its key stays stored, an honest refresh ends in 200 or a retryable error |
| `Theorems.HonestThroughoutLineage` | src/dbsc/server.py:277-284 | a device honest to one binding of a lineage is honest to all of them |
| `Theorems.HonestDeviceSucceeds` | src/dbsc/server.py:247-313 | it ends in 200 with a challenge in its TTL after at most one further rotation, any advertisements and no refresh, when nothing is written meanwhile |
| `Theorems.RefreshTerminatesExactly` | src/dbsc/server.py:221-313 | a finished refresh is terminal if and only if it did not give up and, at its instant, nothing readable is stored, user or session id is foreign, or the token is not the stored key's while the challenge is live |
| `Tasks.DbscServer.BuildRegistrationHeaderResponse` | src/dbsc/server.py:84-99 | ends with an answer explained at one instant of its duration, whatever happens at its awaits, and decided there as in `Outcomes.OfferDecides` |
| `Tasks.DbscServer.Register` | src/dbsc/server.py:127-179 | the same for reading, checking and committing the offer, decided as in `Outcomes.RegisterDecides` |
| `Tasks.DbscServer.TryRotate` | src/dbsc/server.py:196-205 | one loop turn ends the call as explained, or leaves it about to read for the next attempt |
| `Tasks.DbscServer.IssueRefreshChallenge` | src/dbsc/server.py:181-212 | the bounded loop and the final read end as explained at one instant and decided as in `Outcomes.IssueDecides` |
| `Tasks.DbscServer.TryRefresh` | src/dbsc/server.py:248-266 | one loop turn ends the call as explained and decided, leaves it about to read again, or after the third loss ends it as a justified mismatch |
| `Tasks.DbscServer.Refresh` | src/dbsc/server.py:214-269 | the bounded loop ends as explained at one instant and decided as in `Outcomes.RefreshDecides` |
| `Tasks.DbscServer.AdvertiseRefreshChallenge` | src/dbsc/server.py:441-457 | ends as explained at one instant and decided as in `Outcomes.AdvertiseDecides`, for any binding passed in |
| `Tasks.DbscServer.RevokeSession` | src/dbsc/server.py:326-345 | read and delete as two steps end as one deletion, decided as in `Outcomes.RevokeDecides` |
| `Tasks.DbscServer.Enforce` | examples/demo_server.py:367-381 | the gate's read and comparison end as explained at one instant and decided as in `Outcomes.GateDecides` |
| `MemoryStore.InMemoryStore.PutPendingRegistration` | src/dbsc/store.py:129-130 | at every time the session's offer cell holds the offer until its expiry, and nothing else changed |
| `MemoryStore.InMemoryStore.GetPendingRegistration` | src/dbsc/store.py:133-135 | returns the decoded offer cell: absent if and only if there is no entry or it has expired, unreadable if and only if a live entry does not decode, else its record |
| `MemoryStore.InMemoryStore.DeletePendingRegistration` | src/dbsc/store.py:138-139 | the offer cell is empty at every time, and nothing else changed |
| `MemoryStore.InMemoryStore.PutBinding` | src/dbsc/store.py:142-143 | the binding cell holds the binding until its expiry, and nothing else changed |
| `MemoryStore.InMemoryStore.GetBinding` | src/dbsc/store.py:146-148 | the same for the binding cell |
| `MemoryStore.InMemoryStore.Delete` | src/dbsc/store.py:151-153 | both cells are empty at every time, and other sessions are untouched |
| `MemoryStore.InMemoryStore.CommitRegistration` | src/dbsc/store.py:156-165 | it writes if and only if a live entry decodes to the offer, raises if and only if a live entry does not decode, as the contract does on the decoded cells; on success the offer is gone and the binding in place at every time, otherwise nothing changed |
| `MemoryStore.InMemoryStore.ReplaceBinding` | src/dbsc/store.py:168-174 | it writes if and only if a live entry decodes to the expected binding, raises if and only if a live entry does not decode, as the contract does; on success only the binding cell changed, otherwise nothing |
| `MemoryStore.StoredAsGiven` | src/dbsc/store.py:92-99 | a write leaves the record itself if and only if its free-form fields hold no split surrogate pair |
| `MemoryStore.ClockOnlyDecays` | src/dbsc/store.py:179-184 | as time passes cells only stay or become absent: the decay the protocol allows |
| `MemoryStore.PerformIsTheContract` | src/dbsc/store.py:128-174 | what each method does to the two dictionaries is, on the decoded cells of its session and at every time, what the Store contract says, and no other session's cells change |
| `MemoryRuns.StepsServe` | src/dbsc/store.py:106-184 | in a run over the dictionaries every step reads exactly what the protocol's session holds, and leaves in them exactly what the protocol leaves, with lifetimes that are not negative |
| `MemoryRuns.ServedRunsAreRuns` | src/dbsc/store.py:106-184 | every run of the server over the two dictionaries, with records expiring by the clock, is a run of the protocol with the same calls, answers and histories, when user ids, keys and algorithms hold no split surrogate pair |
| `FileStore.RunsKeepInv` | examples/demo_server.py:90-145 | in every run only the lock's holder is past its entry, and what it has read or checked is still what its file holds |
| `FileStore.OnlyTheHolderWrites` | examples/demo_server.py:92-140 | a step changes at most one file, and none while another writer is inside |
| `FileStore.WriterActsAsOne` | examples/demo_server.py:124-145 | from taking the lock to leaving it a writer makes of its session's cells exactly what one contract operation makes of them, under any interleaving; its verdict is the contract's at an instant in between, and a refusal changes no file |
| `FileStore.HolderProgresses` | examples/demo_server.py:92-145 | at every step in between, the files are those found at the lock plus the holder's own changes so far |
| `FileStore.ReplaceAtItsRename` | examples/demo_server.py:135-140 | replace_binding takes effect at its rename with nothing written to the record since it was read, and every other file stays |
| `FileStore.ReplaceAgreesUnlessExpired` | examples/demo_server.py:137-140 | at the instant of the rename the contract would also have written if and only if the replaced record has not expired by then |
| `FileStore.CommitAgreesUnlessExpired` | examples/demo_server.py:128-130 | at the instant the offer is removed the contract would also have committed if and only if the offer has not expired by then |
| `FileStore.RenameMayComeLate` | examples/demo_server.py:137-140 | a run in which the contract would refuse at the rename, and the write goes ahead and is read back |
| `FileStore.UnlinkMayComeLate` | examples/demo_server.py:128-131 | a run in which the offer has expired when it is removed, and the registration binds all the same |
| `FileStore.ReadersSeeBothSteps` | examples/demo_server.py:123-132 | a run in which two reads, one after the other, find no offer and then no binding although the only writer is one registration that turns an offer into a binding: readers can tell its two file steps apart |
| `FileStore.RefusalAgrees` | examples/demo_server.py:128-129 | a conditional write goes on or refuses as the contract does at its check, and changes no file by that |
| `FileStore.CommitConsumesItsOffer` | examples/demo_server.py:127-130 | the offer a registration removes is the one it checked |
| `FileStore.BindingAppearsAfterOfferIsGone` | examples/demo_server.py:130-131 | when a registration's binding appears, the session has no offer before and after |
| `FileStore.ReaderSeesOneInstant` | examples/demo_server.py:98-115 | an unlocked reader answers with its cell on the files of one instant inside the read, judged by the clock of a later one |
| `FileStore.ReaderDecides` | examples/demo_server.py:150-170 | every finished read of every run answers no record if and only if the file it took is missing or its envelope expires before the clock it compared, unreadable if and only if the file is garbled or a live payload does not decode, and else the decoded record |
| `FileStore.ConditionalDecides` | examples/demo_server.py:128-138 | a conditional write raises if and only if its file is garbled or a live payload does not decode, goes on if and only if a live payload decodes to the expected record, and refuses otherwise |
| `FileStore.ReaderMissesExactly` | examples/demo_server.py:150-170 | for every finished read of every run: its answer is that of the instant it took its file if and only if the record did not run out before the clock was compared, that of the later instant if the file is still the same, and that of no instant of the read if and only if the record ran out in between and one was there at every instant |
| `FileStore.OnlyTheHolderRenews` | examples/demo_server.py:88-121 | in every run, whatever is not a step of the lock's holder leaves every session's cells as they are or decayed |
| `FileStore.ReaderMissesABinding` | examples/demo_server.py:150-170 | a run in which a reader reports no binding although one was stored at every instant of the read |
| `FileStore.WrittenBindingIsThere` | examples/demo_server.py:142-145 | a written binding reads back from its file until it expires and leaves the offer alone |
| `JsonProofs.StringReadsBackJoined` | src/dbsc/_json.py:7-9 | every printed string parses to itself with split surrogate pairs joined, and consumes exactly its text |
| `JsonProofs.StringRoundTrip` | src/dbsc/_json.py:7-19 | a string survives printing and parsing if and only if it holds no split surrogate pair |
| `JsonProofs.IntRoundTrip` | src/dbsc/_json.py:37-42 | every integer survives, negative ones included |
| `JsonProofs.DumpsReadsBack` | src/dbsc/_json.py:7-29 | a dumped record parses to its members in order, or to nothing exactly when two of its names agree once joined |
| `JsonProofs.DumpsThenText` | src/dbsc/_json.py:12-22 | a dumped record with text behind it is refused if and only if that is not white space, or two names agree once joined |
| `JsonProofs.NoRawControl` | src/dbsc/_json.py:12-22 | no accepted string holds an unescaped control character |
| `JsonProofs.DuplicatesAreRefused` | src/dbsc/_json.py:25-29 | no accepted document has a duplicate member at any depth |
| `Codec.RecordReadsBack` | src/dbsc/_json.py:7-22 | each field of a dumped record is found under its own name |
| `Codec.BindingReadsBack` | src/dbsc/binding.py:100-191 | every valid binding's text decodes, to the binding with split pairs joined |
| `Codec.BindingRoundTrip` | src/dbsc/binding.py:100-191 | from_json undoes to_json if and only if user id, key and algorithm hold no split pair |
| `Codec.BindingDecodesExactly` | src/dbsc/binding.py:92-191 | every text decodes if and only if it is one object whose eight required members have their types and whose printed values hold only visible ASCII without quote and backslash, and in cookies without comma and semicolon; the result is what the members say, with the defaults of an older record for absent or mistyped optional ones |
| `Codec.PendingRoundTrip` | src/dbsc/pending.py:30-65 | the same for offers and their user id |
| `Codec.PendingDecodesExactly` | src/dbsc/pending.py:40-65 | every text decodes if and only if it is one object with its three members of their types and a header-safe challenge, and then to those members |
| `Codec.SplitPairIsLost` | src/dbsc/pending.py:30-65 | an offer that reads back as a different one |
| `Headers.ChallengeHeaderParsesBack` | src/dbsc/server.py:522-529 | the challenge header parses to exactly the challenge and, when there is one, the id |
| `Headers.RegistrationHeaderParsesBack` | src/dbsc/server.py:98 | the registration header parses to exactly the algorithm, path and challenge |
| `Headers.BindingHeadersParseBack` | src/dbsc/binding.py:92-98 | every valid binding with a session id prints a header that names exactly it |
| `Wire.StoredRecordsAreValid` | src/dbsc/binding.py:92-98 | every record any run stores passes its constructor's checks, and every binding names a session |
| `Wire.StoredRecordsReadBack` | src/dbsc/binding.py:100-191 | every binding any run stores decodes, to itself if and only if its free-form fields hold no split pair |
| `Wire.ChallengeHeadersReadBack` | src/dbsc/server.py:205-212 | the challenge header of every 403 parses back to a challenge and id stored during the call |
| `Wire.EmittedHeadersReadBack` | src/dbsc/server.py:257-261 | the challenge header of every refresh 200 and of every advertisement parses back to the challenge and id that the call left stored |
| `Wire.RegistrationHeadersReadBack` | src/dbsc/server.py:94-99 | the registration header of every offer parses back to the challenge that was stored |

## Left out

- Elliptic curves, PEM and DER, base64 and the token's three parts (`src/dbsc/jwt.py`): verification is a parameter.
- HTTP, sockets, routing, HTML, login and the application session of `examples/demo_server.py`.
- The session-instructions JSON, scope rules and refresh initiators: data assembly without state.
- Host, origin and cookie-name patterns of `src/dbsc/_validate.py`: only the sets that headers, cookies and records depend on are modelled.
- A Redis store: what `WATCH` and `EXEC` guarantee is not visible in this repository.
- Audit events: reading and deleting are separate steps in a revocation, so entries and bindings do not match one to one.
- Constant-time comparison is equality; a lone surrogate in a presented value, which the source fails to encode, simply differs.
- Cancellation of a task and a crash in the middle of a file write.
- `FileStore`: the hash that names files is taken to be injective, the JSON text of the `v`/`exp` envelope is a value, and the temporary file is not a record until its rename.
- `FileStore` under the protocol: its registration becomes visible in two steps, the offer's removal first, so the protocol theorems rest on the Store contract; writers cannot tell the difference (`FileStore.WriterActsAsOne`), unlocked readers can (`FileStore.ReadersSeeBothSteps`).
- JSON nesting and digit limits, byte encodings, and the value of floats (a float is only known not to be an integer).
- Structured-field numbers, byte sequences and dates, none of which the server prints.
- Tasks.DbscServer.Await: stands for anything else that may happen; other calls' code is not called but represented by the steps it can take.
- MemoryStore.InMemoryStore.CommitRegistration: the two clock samples of one operation are parameters, assumed in order.
