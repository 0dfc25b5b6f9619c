# Valqeron, modelled and proved

Valqeron keeps a registry of issuers and securities in SQLite behind an asynchronous storage facade, and validates the
identifiers they carry. This project models four parts of it.

**The connection pool and the storage lanes** (`WaitPool`, `Lanes`, `LaneProgress`, `Serial`, `SerialProgress`). A mutex
and condition variable pool of reader connections, two semaphores in front of it and the writer mutex behind both, as
one state machine over the critical sections of any number of threads. `put` is two steps, since its lock is gone before the notification.
`Serial` puts shared tables behind that machine: statements of different closures interleave freely within it, and
every interleaving turns out to be serial. The two progress modules show that no interleaving gets stuck and that
every call can be brought to its end.

**The versioned store** (`Schema`, `Store`, `Rows`, `Integrity`, `History`, `Admission`, `Answers`, `Domain`,
`Closures`, `DryRun`, `Retry`, `Blobs`, `Keyset`, `EagerLoad`). Two tables with their constraints under SQL's
three-valued logic, version-guarded writes, the services that check before they write, the savepoint dry run with its
recovery from a poisoned mutex, keyset pages under concurrent writers, and batched eager loading.

**Check digits** (`Cnpj`, `Lei`, `Isin`, with `Ascii` and `Expansion`). Acceptance, the one-pass loops against the
expanded definitions, and exact error detection.

**Build-time tables** (`Csv`, `MicTable`, `CfiTable`, `CountryCode`, with `Sorting` and `Bits`). The seed reader, the
registry checks and the emitted tables against the plain lists behind them, for any seed.

Code that changes things step by step is modelled as methods with loops, and as classes where the program has an
object (`ReaderPool`, `AsyncStorage`, `Connection`, `Database`); each is tied to a function or a step of a state
machine, and the theorems are about those.

## Where the code differs from what is said about it

- `crates/core/src/identifiers/lei.rs:519` says that MOD 97-10 catches all adjacent transpositions. The code accepts
  three pairs, 1B, 2M and 3X, in the base; `Lei.AdjacentTransposition` is the exact statement and
  `Lei.UndetectedTransposition` has the codes.
- `migrations/001_create_initial_schema.sql:12` reads as "a CNPJ implies country BR". With a NULL country the CHECK is
  unknown and passes, and a patch reaches that state: `Integrity.PatchKeepsBrazilianIff`,
  `Integrity.CnpjWithoutCountryIsReachable`.
- `patch_issuer` compares a CNPJ and a LEI with every row, the patched one included, and so refuses to write either back
  to its own row: `Closures.PatchRefusesOwnIff`, `Closures.OwnIdentifiersAreRefused`.
- `crates/infrastructure/src/sqlite/repositories/issuer.rs:91-95` describes the securities that are dropped when a
  commit lands between the two statements of an eager page. The other direction happens too: an issuer pushed off the
  page by an insert is shown as having none. `EagerLoad.CompleteIff` says exactly when,
  `EagerLoad.SecuritiesCanVanish` shows one.
- `parse_csv` drops records whose fields are all empty, so its round trip needs content in every record:
  `Csv.RoundTripIff`.

## Model

| member | source | states |
|---|---|---|
| WaitPool.RunsKeepInv | crates/infrastructure/src/sqlite/database.rs:83-160 | over every interleaving of take, sleep, spurious or timed wake, push and notify, for any number of threads: every connection is idle once or held by one thread, none is lost or duplicated, and a thread that sleeps beside an idle connection is covered by a wake-up in flight |
| WaitPool.StepKeepsInv | crates/infrastructure/src/sqlite/database.rs:96-131 | each single step keeps conservation and the wake-up bound |
| WaitPool.StepConserves | crates/infrastructure/src/sqlite/database.rs:96-131 | idle connections plus held connections stay exactly the initial ones, with no connection in both or in two places |
| WaitPool.StepKeepsWakeups | crates/infrastructure/src/sqlite/database.rs:128-131 | while a thread sleeps, idle connections never outnumber woken threads plus notifications still owed, although the lock is released before the notification |
| WaitPool.PoolSettles | crates/infrastructure/src/sqlite/database.rs:96-131 | left to itself the pool takes at most a fixed number of steps, whatever the scheduler picks, and comes to rest with no thread asleep beside an idle connection |
| WaitPool.InternalStepExists | crates/infrastructure/src/sqlite/database.rs:96-131 | a pool that is not at rest has a step it can take without any outside help |
| WaitPool.SleeperIsNotStuck | crates/infrastructure/src/sqlite/database.rs:96-131 | while a thread sleeps, some thread that is awake holds a connection or is inside the pool, provided sleepers hold nothing |
| WaitPool.TimedOutLooksAgain | crates/infrastructure/src/sqlite/database.rs:96-126 | a wait that ends without a notification takes the last idle connection if there is one, and sleeps on otherwise |
| WaitPool.ReaderPool.TakeUnderLock | crates/infrastructure/src/sqlite/database.rs:96-105 | under the lock: the last idle connection is popped and held by the caller, or the caller sleeps; the state moves as the state machine does |
| WaitPool.ReaderPool.Push | crates/infrastructure/src/sqlite/database.rs:128-129 | the connection goes to the end of the idle list and the notification is still owed |
| WaitPool.ReaderPool.Notify | crates/infrastructure/src/sqlite/database.rs:130 | wakes exactly one sleeper if there is one, none otherwise |
| WaitPool.ReaderPool.WakeUp | crates/infrastructure/src/sqlite/database.rs:107-125 | a timeout or spurious wake-up only moves the thread from asleep to awake |
| Lanes.StepKeepsInv | crates/engine/src/storage.rs:33-120 | every step keeps the books: available permits plus calls holding one are the lane size, one writer, no thread waits for pool or writer while it holds the other |
| Lanes.RunsKeepInv | crates/engine/src/storage.rs:33-120 | the same over every interleaving |
| Lanes.LaneSafety | crates/engine/src/storage.rs:40-98 | in every interleaving at most `max_reads` read closures and one write or maintenance closure run |
| Lanes.OneWriter | crates/engine/src/storage.rs:33 | two running write-lane closures are the same one |
| Lanes.PermitOutlivesCaller | crates/engine/src/storage.rs:63-69 | over every run in which its closure does not end, a running call keeps running and its permit stays out, whatever its caller does |
| Lanes.GivingUpReturnsTheSlot | crates/engine/src/storage.rs:72-98 | a call given up before its closure starts hands its slot back to its own lane and nothing else changes |
| Lanes.DrainedForGood | crates/engine/src/storage.rs:122-144 | a closed lane without permits out never runs a closure again |
| Lanes.ClosingCloses | crates/engine/src/storage.rs:122-125 | over every run: a lane whose close is among the steps is closed at the end |
| Lanes.NoGrantAfterClose | crates/engine/src/storage.rs:122-125 | after a run with both closes no waiting call can be granted a permit in any later state, and each can be told that the storage shuts down |
| Lanes.ShutdownMeansClosed | crates/engine/src/storage.rs:164-178 | over every run: a call that was told of a shutdown belongs to a lane that is closed |
| Lanes.RefusalIsFinal | crates/engine/src/storage.rs:164-178 | a call that is refused, before or after a permit was assigned, hears that reason and never runs in any later state |
| Lanes.ClosedAndIdleIsFinal | crates/engine/src/storage.rs:122-144 | from a run that contains both closes, an `in_flight` of 0 is final, although it reads the two semaphores at different moments with arbitrary steps in between |
| LaneProgress.SomeClosureCanStep | crates/infrastructure/src/sqlite/database.rs:324-342 | no stuck state: in every reachable state with an unfinished closure, some unfinished closure has an enabled step on its own way to the end; callers that give up, timeouts and spurious wake-ups do not count |
| LaneProgress.HoldAndWaitIsStuck | crates/infrastructure/src/sqlite/database.rs:324-342 | the state that is ruled out: one thread holding the only connection and waiting for the writer, the owner of the writer asleep on the empty pool; no progress step is enabled there |
| LaneProgress.ProgressIsBounded | crates/infrastructure/src/sqlite/database.rs:324-342 | whatever the scheduler picks, such steps alone go on for a bounded number of steps |
| LaneProgress.EveryClosureEnds | crates/engine/src/storage.rs:55-98 | from every reachable state a run of such steps leads to a state in which every call is still to come, queued, done or refused |
| LaneProgress.PoolWaitIsReachable | crates/core/src/domain/issuer.rs:610-622 | read permits do not rule out pool waits: a live write closure can find the pool empty and sleep |
| Lanes.IntoEngineIff | crates/engine/src/storage.rs:146-161 | the engine is handed back iff the handle is the only one and no call is under way: none queued or granted, no closure spawned, running or still owning its reference; otherwise nothing changes |
| Lanes.ReclaimedIsFinal | crates/engine/src/storage.rs:146-161 | over runs: once the engine was handed back, no closure runs and no permit is out in any later state |
| Lanes.HandlesAreCounted | crates/engine/src/storage.rs:35-49 | until the engine is handed back there is one handle more than were cloned since the start, less those dropped |
| Lanes.InFlightCounts | crates/engine/src/storage.rs:135-143 | in every reachable state the number in flight is the number of calls that were granted, are spawned or are running |
| LaneProgress.IdleIsNotEnough | crates/engine/src/storage.rs:136-161 | with nothing in flight and one handle left the engine can still be refused: a closure without a caller drops its permit before its reference |
| Lanes.AsyncStorage.TakeEngine | crates/engine/src/storage.rs:146-161 | the engine is given up iff the reference count is one, and the facade comes back unchanged otherwise |
| Lanes.AsyncStorage.constructor | crates/engine/src/storage.rs:40-49 | the read lane is sized to the reader pool, the write lane to one slot, and the state is an initial state of the machine |
| Lanes.AsyncStorage.AcquireSlot | crates/engine/src/storage.rs:164-178 | a poll of a queued call: shutting down if its lane is closed, else granted if a permit is free, else overloaded if the deadline has passed, else still queued; a permit is taken exactly when granted, and from its own lane |
| Lanes.AsyncStorage.FinishClosure | crates/engine/src/storage.rs:63-67 | the permit goes back to its own lane while the engine reference is still held |
| Lanes.AsyncStorage.Close | crates/engine/src/storage.rs:122-125 | both lanes are closed, and calls, permits, pool and handles are as they were |
| Lanes.WaitIdle | crates/engine/src/storage.rs:127-134 | answers idle at the first observation with nothing in flight, and not idle only if every observation before the deadline had something in flight |
| Serial.StepKeepsInv | crates/engine/src/storage.rs:72-98 | whatever thread moves, the closure in the write lane stays one whose remaining run equals a run that had the tables to itself from its start |
| Serial.RunsKeepInv | crates/engine/src/storage.rs:72-98 | the same over every interleaving of statements, permits, pool and writer steps |
| Serial.StatementsOwnTheirConnection | crates/infrastructure/src/sqlite/database.rs:324-345 | in every reachable state a live read runs on a connection checked out of the pool and any other statement on the writer, which no other thread owns then; the read lane only reads |
| Serial.DryRunsKeepTheWriter | crates/infrastructure/src/sqlite/database.rs:456-487 | in every reachable state a dry run between its first and last call owns the writer, no other thread does, and it is not in the read lane |
| Serial.WriteClosuresAreAtomic | crates/engine/src/storage.rs:72-98 | a write-lane closure about to return has the result and leaves the tables of a run alone on the tables it started from; a dry run leaves the tables it found |
| Serial.InterleavingsAreSerial | crates/engine/src/storage.rs:33-98 | whenever the write lane is empty, the tables are those of the live write closures run one after another, each alone, in the order in which they ended |
| Serial.TablesStaySound | migrations/001_create_initial_schema.sql:2-35 | the stored tables are sound in every state of every interleaving, also in the middle of a closure |
| Serial.RegistrationIsAtomic | crates/core/src/domain/issuer.rs:606-624 | concurrently: a duplicate CNPJ, else a duplicate LEI, is reported iff such a row existed when the closure started, and the insert never meets either UNIQUE constraint |
| Serial.PatchIsAtomic | crates/core/src/domain/issuer.rs:676-698 | concurrently: the patch service reports duplicates and writes as it would alone on the tables its closure started on, and a value it checked never meets UNIQUE |
| Serial.SecurityRegistrationIsAtomic | crates/core/src/domain/security.rs:735-763 | concurrently: unknown issuer, duplicate ISIN and unknown underlying are exact on the tables the closure started on, and the insert meets no foreign key and no UNIQUE ISIN |
| SerialProgress.UsefulIsPossible | crates/engine/src/storage.rs:55-98 | while a call is unfinished, some closure can make its next repository call, take what that call needs, let go of what it does not, or move on to its end |
| SerialProgress.UsefulIsBounded | crates/engine/src/storage.rs:55-98 | if every closure makes a bounded number of calls whatever it is answered, such steps go on for a bounded number of steps whatever the scheduler picks |
| SerialProgress.EveryCallEnds | crates/engine/src/storage.rs:55-98 | then from every reachable state a run of such steps ends with every call still to come, queued, done or refused |
| SerialProgress.ServicesAreBounded | crates/core/src/domain/issuer.rs:606-698 | the guarded issuer services make at most three calls and the registration of a security at most four |
| Schema.IssuerViolation | migrations/001_create_initial_schema.sql:2-13 | no violation iff the CHECKs pass and CNPJ and LEI are free; a reported UNIQUE violation is a real one |
| Schema.SecurityViolation | migrations/001_create_initial_schema.sql:16-35 | no violation iff the CHECKs pass, the ISIN is free and both references exist |
| Store.Connection.AddIssuer | crates/infrastructure/src/sqlite/repositories/issuer.rs:296-310 | an existing key or a violated constraint changes nothing; otherwise exactly this row is added, at version 1 |
| Store.Connection.WriteIssuer | crates/infrastructure/src/sqlite/repositories/issuer.rs:196-222 | the version-guarded write: zero rows are told apart as missing or stale, a violation changes nothing, otherwise exactly this row changes |
| Store.Connection.ApplyIssuerPatch | crates/infrastructure/src/sqlite/repositories/issuer.rs:312-337 | COALESCE patch of the row at the expected version, version up by one |
| Store.Connection.ReplaceIssuer | crates/infrastructure/src/sqlite/repositories/issuer.rs:339-359 | full replace of the row at the expected version, creation time kept, version up by one |
| Store.Connection.RemoveIssuer | crates/infrastructure/src/sqlite/repositories/issuer.rs:361-366 | removes the row at the expected version unless a security refers to it |
| Store.Connection.AddSecurity | crates/infrastructure/src/sqlite/repositories/securities.rs:251-270 | as for issuers, with the ratio stored as two columns |
| Store.Connection.WriteSecurity | crates/infrastructure/src/sqlite/repositories/securities.rs:127-153 | the version-guarded write on securities |
| Store.Connection.ApplySecurityPatch | crates/infrastructure/src/sqlite/repositories/securities.rs:272-302 | COALESCE patch; both ratio columns come from the patch or neither does |
| Store.Connection.ReplaceSecurity | crates/infrastructure/src/sqlite/repositories/securities.rs:304-330 | full replace that leaves issuer, kind, underlying link and creation time alone |
| Store.Connection.RemoveSecurity | crates/infrastructure/src/sqlite/repositories/securities.rs:332-342 | removes the row at the expected version unless another security names it as underlying |
| Retry.WithBusyRetry | crates/infrastructure/src/sqlite/support.rs:28-48 | one to five attempts, every earlier one turned away as busy; if the last one found the database free, tables and reply are those of the executed statement, otherwise the tables are untouched; busy is reported iff all five were busy, a failure iff the last one failed |
| Admission.ValuesAreUnique | migrations/001_create_initial_schema.sql:9-26 | in every state reached from the empty tables two issuers with one CNPJ or one LEI, or two securities with one ISIN, are the same row |
| Admission.ReferencesAreStored | migrations/001_create_initial_schema.sql:19-34 | in every such state the issuer of a security is stored, and so is its underlying, which is another security and named by a depositary receipt only |
| Admission.StoredRowsPassChecks | migrations/001_create_initial_schema.sql:9-33 | in every such state countries have two letters, a CNPJ goes with BR or no country, CFIs have six letters, and ratios are pairs of positive 32-bit numbers on depositary receipts |
| Admission.InsertIssuerIff | crates/infrastructure/src/sqlite/repositories/issuer.rs:296-310 | the insert goes through iff the id is new, the CHECKs pass and no stored issuer has its CNPJ or LEI; a UNIQUE fault names a value that another row stores |
| Admission.PatchIssuerIff | crates/infrastructure/src/sqlite/repositories/issuer.rs:312-337 | the patch applies iff the version is the expected one and the columns it leads to pass the CHECKs and are not stored elsewhere |
| Admission.UpdateIssuerIff | crates/infrastructure/src/sqlite/repositories/issuer.rs:339-359 | the same for a full replace |
| Admission.DeleteIssuerIff | crates/infrastructure/src/sqlite/repositories/issuer.rs:361-366 | the delete applies iff the version is the expected one and no security names the issuer; a foreign key faults iff one does |
| Admission.InsertSecurityIff | crates/infrastructure/src/sqlite/repositories/securities.rs:251-270 | the insert goes through iff the id is new, the CHECKs pass, no stored security has its ISIN, and issuer and underlying are stored; a UNIQUE fault names an ISIN that another row stores |
| Admission.PatchSecurityIff | crates/infrastructure/src/sqlite/repositories/securities.rs:272-302 | the patch applies iff the version is the expected one, the columns it leads to pass the CHECKs and no other security has its ISIN; a UNIQUE fault is about the ISIN it brings |
| Admission.UpdateSecurityIff | crates/infrastructure/src/sqlite/repositories/securities.rs:304-330 | the same for a full replace |
| Admission.DeleteSecurityIff | crates/infrastructure/src/sqlite/repositories/securities.rs:332-342 | the delete applies iff the version is the expected one and no other security wraps the row |
| Admission.StaleOrMissing | crates/infrastructure/src/sqlite/support.rs:51-69 | a guarded write that does not match leaves the tables alone and reports a missing row, the stored version, or a version past 32 bits that cannot be read |
| Answers.IssuerAnswers | crates/infrastructure/src/sqlite/repositories/issuer.rs:239-280 | after any run, a lookup finds the replayed data of the issuer at the version its writes have brought it to, or nothing, and `exists` agrees |
| Answers.SecurityAnswers | crates/infrastructure/src/sqlite/repositories/securities.rs:182-242 | the same for securities |
| Answers.ValueAnswers | crates/infrastructure/src/sqlite/repositories/issuer.rs:282-294 | after any run, a CNPJ, LEI or ISIN is reported to exist iff some replayed row carries it |
| Rows.IssuerIsReplay | crates/infrastructure/src/sqlite/repositories/issuer.rs:296-366 | over every run, what is read of an issuer is the replay, on the data callers see, of the writes on it that were reported as inserted or applied, and of no other write |
| Rows.SecurityIsReplay | crates/infrastructure/src/sqlite/repositories/securities.rs:251-342 | the same for securities, with the ratio changing as a pair and issuer, kind, underlying and creation time kept; and every stored security can be read |
| Rows.WriteTouchesOneRow | crates/infrastructure/src/sqlite/repositories/issuer.rs:296-366 | a write leaves the other table and every other row of its own table as they were |
| Rows.PatchIsReplaceIff | crates/infrastructure/src/sqlite/repositories/issuer.rs:312-359 | when at least one of them passes the constraints, a patch and a full replace with the same values have the same effect iff the replace clears no column |
| Rows.PatchesCompose | crates/infrastructure/src/sqlite/repositories/issuer.rs:312-337 | two patches that apply in a row read back as the one patch in which the second overrides the first, and that patch would have applied |
| Integrity.WriteKeepsSound | migrations/001_create_initial_schema.sql:2-35 | no write, whatever its reply, breaks soundness: every CHECK and UNIQUE holds of stored rows, issuer and underlying exist, the underlying relation is acyclic, versions are in range |
| History.RunsKeepSound | migrations/001_create_initial_schema.sql:2-35 | every state reached from a sound one, the empty one in particular, is sound |
| Integrity.ChainsEnd | migrations/001_create_initial_schema.sql:28-34 | from every security a path of stored securities, each the underlying of the one before, ends at one without an underlying, no longer than there are securities |
| Integrity.RatiosAreReadable | crates/infrastructure/src/sqlite/repositories/securities.rs:389-405 | no stored ratio is one-sided, zero or out of range, and only depositary receipts carry a ratio or an underlying |
| Integrity.SecurityChecksMean | migrations/001_create_initial_schema.sql:27-34 | the three-valued CHECKs of a security amount to these plain conditions |
| Integrity.IssuerChecksMean | migrations/001_create_initial_schema.sql:11-12 | the three-valued CHECKs of an issuer: a CNPJ admits country BR and, because NULL passes, also no country |
| Integrity.PatchKeepsBrazilianIff | crates/infrastructure/src/sqlite/repositories/issuer.rs:312-337 | a patch that applies keeps "a CNPJ comes with country BR" unless it adds a CNPJ where no country is stored or given |
| Integrity.CnpjWithoutCountryIsReachable | migrations/001_create_initial_schema.sql:12 | the exception is reached by one insert and one patch |
| History.ReplyMeaning | crates/infrastructure/src/sqlite/support.rs:51-69 | what each reply says of the row: missing iff absent, a mismatch reports the stored version and it differs from the expected one, and every reply but inserted and applied leaves the tables unchanged |
| History.VersionStep | crates/infrastructure/src/sqlite/repositories/issuer.rs:312-366 | what one write does to the version of any row: 1 at insert, expected plus one at a write that applied, gone at a delete, otherwise unchanged |
| History.VersionCountsWrites | crates/infrastructure/src/sqlite/repositories/issuer.rs:196-233 | over every run from empty tables a version is 1 plus the patches and updates applied since the row was last inserted |
| History.VersionIsSpent | crates/infrastructure/src/sqlite/repositories/issuer.rs:196-233 | once a write at an expected version applied, the row has moved past that version for the rest of its life |
| History.OneWritePerVersion | crates/infrastructure/src/sqlite/repositories/issuer.rs:196-233 | no lost update: two writes that expect the same version of the same row can both apply only if the row was inserted anew in between |
| History.UnreadableNeedsManyWrites | crates/infrastructure/src/sqlite/support.rs:57-60 | the 32-bit read of a version can fail only after 2^32 - 1 writes applied to one row |
| Domain.BuiltIssuerPassesChecks | crates/core/src/domain/issuer.rs:294-330 | `build` accepts iff a CNPJ comes with country BR or none, fills in BR, and what it builds passes every CHECK |
| Domain.BuiltIssuerHolds | crates/core/src/domain/issuer.rs:294-330 | what is built holds every given field, with BR filled in beside a CNPJ and defaults for id, status and time |
| Domain.IssuerRefusal | crates/core/src/domain/issuer.rs:294-330 | the only refusal is a CNPJ with another country than BR, and it names that country |
| Domain.BuildSecurityMatchesChecks | crates/core/src/domain/security.rs:412-450 | `build` accepts exactly the data whose row the CHECKs accept |
| Domain.BuiltSecurityHolds | crates/core/src/domain/security.rs:412-450 | what is built holds every given field, with defaults for id, status and time |
| Domain.SecurityRefusals | crates/core/src/domain/security.rs:412-450 | each refusal is exact: an underlying, then a ratio, on what is no depositary receipt; then a receipt of itself |
| Closures.GuardedRunsUnderFaults | crates/core/src/domain/issuer.rs:606-698 | whichever calls meet a storage fault, both guarded services look for the CNPJ, then the LEI, then write, and the first fault or hit ends them with nothing written |
| Closures.GuardedRuns | crates/core/src/domain/issuer.rs:606-698 | without faults and alone on the tables they do the guarded write that is read off the tables |
| Closures.RegistrationMeans | crates/core/src/domain/issuer.rs:606-624 | duplicate reports are exact with the CNPJ first, the insert never meets UNIQUE, and the tables change only when the issuer was inserted |
| Closures.PatchRefusesOwnIff | crates/core/src/domain/issuer.rs:676-698 | of the patches that the statement accepts, the service refuses exactly those that write back the row's own CNPJ or, failing that, its own LEI; all others are applied |
| Closures.PatchServiceMeans | crates/core/src/domain/issuer.rs:676-698 | duplicate reports of the patch service are exact with the CNPJ first, and a value it checked never meets UNIQUE |
| Closures.OwnIdentifiersAreRefused | crates/core/src/domain/issuer.rs:676-698 | both refusals happen: a newly registered issuer is refused a patch with its own CNPJ and one with its own LEI, and the statement accepts both |
| Closures.RegisterSecurityRunsUnderFaults | crates/core/src/domain/security.rs:735-763 | whichever calls meet a storage fault: issuer, then ISIN, then underlying, then the insert, ended by the first fault or refusal with nothing written |
| Closures.RegisterSecurityRuns | crates/core/src/domain/security.rs:735-763 | without faults and alone on the tables the registration is the one read off the tables |
| Closures.SecurityRegisteredMeans | crates/core/src/domain/security.rs:735-763 | each refusal is exact, and the insert never meets a foreign key or the UNIQUE ISIN |
| DryRun.DryRunIsFaithful | crates/infrastructure/src/sqlite/database.rs:456-487 | for any closure of repository calls: the result is that of a live run from the committed tables, and the committed tables stay as they were, also if it panics |
| DryRun.ReleaseAloneCommits | crates/infrastructure/src/sqlite/database.rs:474-484 | without the rollback a release would keep what the closure wrote: if rolling back fails and the plain release succeeds, the dry run has committed |
| DryRun.LiveRunIsRun | crates/infrastructure/src/sqlite/database.rs:324-342 | a live run, reading from the pool and writing on the writer, computes what the closure computes alone on the committed tables |
| DryRun.StrandedWritesAreDropped | crates/infrastructure/src/sqlite/database.rs:174-192 | whatever a panic left behind, the next lock of the writer sees exactly the committed tables |
| DryRun.DryRunsLeaveNoTrace | crates/infrastructure/src/sqlite/database.rs:456-487 | over a whole session with panics, the committed tables are those of the live closures alone |
| DryRun.Database.LockWriter | crates/infrastructure/src/sqlite/database.rs:174-192 | a poisoned mutex over an open transaction is rolled back, any other lock changes nothing |
| DryRun.Database.ExecuteOnWriter | crates/infrastructure/src/sqlite/database.rs:324-342 | one call on the writer: committed at once in autocommit, held back under a savepoint |
| DryRun.Database.RunDry | crates/infrastructure/src/sqlite/database.rs:456-487 | the imperative dry run returns the live result, leaves the committed tables alone and clears the per-thread slot, panic or not |
| Keyset.PageIsPage | crates/infrastructure/src/sqlite/repositories/issuer.rs:253-273 | a page is the ascending list of the first `limit` stored ids above the cursor, with nothing skipped |
| Keyset.InPageIff | crates/infrastructure/src/sqlite/repositories/issuer.rs:253-273 | an id is on the page iff it is stored, above the cursor, and fewer than `limit` stored ids lie between |
| Keyset.WalkPages | crates/infrastructure/src/sqlite/repositories/securities.rs:814-836 | the loop over pages until one is empty ends and collects the walk |
| Keyset.WalkAscends | crates/infrastructure/src/sqlite/repositories/securities.rs:214-235 | with arbitrary inserts and deletes between pages the walk is strictly ascending, so no id comes twice |
| Keyset.WalkIsSound | crates/infrastructure/src/sqlite/repositories/securities.rs:214-235 | every id returned is on one of the pages the walk read, and was stored when that page was read |
| Keyset.WalkIsComplete | crates/infrastructure/src/sqlite/repositories/issuer.rs:253-273 | with limit at least 1 an id stored at each page the walk reads is returned, whatever happens to it afterwards |
| Keyset.WalkOfFixedIds | crates/infrastructure/src/sqlite/repositories/issuer.rs:246-273 | without writers the walk lists exactly the stored ids in order, whatever the page size |
| Keyset.AllAscendingListsAll | crates/infrastructure/src/sqlite/repositories/issuer.rs:246-251 | the unpaged list is ascending and has exactly the stored ids |
| Blobs.IdsAreBlobs | crates/infrastructure/src/sqlite/row.rs:27-31 | the identifiers are the sixteen-byte blobs, one number each, and the bytewise order of the blobs is the order of the numbers |
| EagerLoad.Group | crates/infrastructure/src/sqlite/repositories/issuer.rs:97-104 | the grouped map holds, per issuer, its entries in listing order |
| EagerLoad.HydrateRows | crates/infrastructure/src/sqlite/repositories/issuer.rs:96-115 | each row gets the group of its id in listing order, empty if there is none |
| EagerLoad.SelectIsListByIssuer | crates/infrastructure/src/sqlite/repositories/issuer.rs:383-413 | out of any listing ordered by issuer and id, the entries of one issuer are its own `list_by_issuer` |
| EagerLoad.ListPagedEager | crates/infrastructure/src/sqlite/repositories/issuer.rs:154-171 | on one state the two-query page equals `find_by_id` in eager mode row by row, same order; with a commit in between, exactly what each row gets |
| EagerLoad.ListAllEager | crates/infrastructure/src/sqlite/repositories/issuer.rs:141-152 | on one state the two-query list equals the per-issuer lookups; with a commit in between rows are of the first state and securities of the second |
| EagerLoad.CompleteIff | crates/infrastructure/src/sqlite/repositories/issuer.rs:91-95 | with a commit between the statements, a stored issuer of the page is shown complete iff it has no securities or is still among the first `limit` above the cursor |
| EagerLoad.SecuritiesCanVanish | crates/infrastructure/src/sqlite/repositories/issuer.rs:91-95 | the gap is real: an insert between the statements makes an issuer with a security in both states appear as having none |
| EagerLoad.BatchIsListing | crates/infrastructure/src/sqlite/repositories/issuer.rs:372-413 | for every set of issuers such a listing exists: their own lists one after another |
| Cnpj.ValidateCharacterClasses | crates/core/src/identifiers/cnpj.rs:282-305 | the early-exit loop reports the first character outside its class, and none iff all fourteen are in class |
| Cnpj.NeverSaturates | crates/core/src/identifiers/cnpj.rs:367-382 | with letter values up to 42 the saturating fold is the plain weighted sum |
| Cnpj.SaturatesAtTheEnd | crates/core/src/identifiers/cnpj.rs:367-382 | for any values and weights the saturating fold is the weighted sum cut off at 2^32 - 1 |
| Cnpj.ExactCheckDigits | crates/core/src/identifiers/cnpj.rs:351-382 | the two computed digits come from the exact weighted sums over 12 and 13 characters |
| Cnpj.ValidIff | crates/core/src/identifiers/cnpj.rs:270-349 | acceptance stated over exact sums: classes, not all characters equal, both digits right |
| Cnpj.WeightsFromTheRight | crates/core/src/identifiers/cnpj.rs:11-12 | counted from the right the weights run from 2 to 9 and start again |
| Cnpj.AcceptedIff | crates/core/src/identifiers/cnpj.rs:270-382 | acceptance from character codes alone: twelve digits or capitals, two digits, not one character throughout, and each check digit 0 for remainders 0 and 1 of the sum weighted from the right, else 11 less it |
| Cnpj.RejectionReason | crates/core/src/identifiers/cnpj.rs:282-349 | the reason given is the first that holds, with the position, the expected class, and the expected and found digit |
| Cnpj.SubstitutionInBase | crates/core/src/identifiers/cnpj.rs:314-382 | any well-formed substitution in the base, letters included, is accepted iff the result is not a repeated character and the value difference is 0 mod 11 or both remainders move between 0 and 1 |
| Cnpj.CrossingPositions | crates/core/src/identifiers/cnpj.rs:11-12 | one change can move both remainders between 0 and 1 only where the two weights add up to 11: positions 0, 4 and 8 |
| Cnpj.CrossingIsNotRepeated | crates/core/src/identifiers/cnpj.rs:307-312 | the crossing case never lands on a repeated-digit candidate |
| Cnpj.SubstitutionOfCheckDigit | crates/core/src/identifiers/cnpj.rs:314-349 | a changed check digit is always rejected |
| Cnpj.SingleDigitError | crates/core/src/identifiers/cnpj.rs:314-382 | in a valid all-digit CNPJ one changed digit goes unnoticed iff it is at position 0, 4 or 8 and both remainders move between 0 and 1 |
| Cnpj.UndetectedSubstitution | crates/core/src/identifiers/cnpj.rs:314-382 | the exception is real at each of the positions 0, 4 and 8: two valid all-digit CNPJs that differ there only |
| Cnpj.NormalizeInPlace | crates/core/src/identifiers/cnpj.rs:389-417 | the counting pass and the filling pass give the specified buffer or the specified error |
| Cnpj.NormalizeReason | crates/core/src/identifiers/cnpj.rs:389-417 | why an input is turned away: empty, the number of meaningful characters, or the first that is not ASCII |
| Cnpj.MeaningfulOne | crates/core/src/identifiers/cnpj.rs:385-387 | the separators are point, slash, hyphen and the Unicode White_Space characters |
| Cnpj.ParseIff | crates/core/src/identifiers/cnpj.rs:22-26 | parsing gives `c` iff the input is not empty and its meaningful characters, upper-cased, are the text of the valid `c` |
| Cnpj.UpperMeans | crates/core/src/identifiers/cnpj.rs:413 | upper-casing moves the letters a to z down by 32 and touches nothing else |
| Cnpj.LayoutIsIrrelevant | crates/core/src/identifiers/cnpj.rs:385-417 | non-empty inputs that agree up to separators, whitespace and ASCII case parse alike, errors included |
| Cnpj.InsertingSeparators | crates/core/src/identifiers/cnpj.rs:385-387 | inserting separators anywhere keeps the layout class |
| Cnpj.ChangingCase | crates/core/src/identifiers/cnpj.rs:389-417 | changing ASCII case keeps the layout class |
| Cnpj.FormattedLayout | crates/core/src/identifiers/cnpj.rs:209-218 | dropping the four separators of the 18-character form leaves the compact text |
| Cnpj.FormattedParts | crates/core/src/identifiers/cnpj.rs:209-218 | the 18-character form is the parts of 2, 3, 3, 4 and 2 characters with the separators `.`, `.`, `/` and `-` between them |
| Cnpj.RoundTrip | crates/core/src/identifiers/cnpj.rs:209-218 | parsing the compact or the 18-character form of a valid CNPJ returns it |
| Lei.FoldMod97 | crates/core/src/identifiers/lei.rs:236-247 | the loop computes the decimal expansion of the characters modulo 97 |
| Lei.FoldIsNumeral | crates/core/src/identifiers/lei.rs:236-247 | the per-character fold equals the expanded numeral modulo 97, for bytes of any length |
| Lei.ComputeCheckDigits | crates/core/src/identifiers/lei.rs:228-234 | the computed pair lies in 02..98 and brings the whole numeral to 1 modulo 97 |
| Lei.CheckPairCompletes | crates/core/src/identifiers/lei.rs:228-234 | in 02..98 it is the only such pair |
| Lei.AcceptedIff | crates/core/src/identifiers/lei.rs:186-226 | well-formed bytes are accepted iff the expanded numeral of all 20 characters is 1 mod 97 and the pair lies in 02..98 |
| Lei.AcceptedMeans | crates/core/src/identifiers/lei.rs:186-247 | acceptance from character codes alone: shape, the number they write with letters as 10 to 35 is 1 mod 97, and the pair lies in 02..98 |
| Lei.RejectionReason | crates/core/src/identifiers/lei.rs:192-226 | the first character out of place, or the pair that is there and the one pair in 02..98 that belongs there |
| Lei.AlphabetMeans | crates/core/src/identifiers/lei.rs:9 | the alphabet of generated codes is the ten digits and then the capitals |
| Lei.BuildValidLeiBytes | crates/core/src/identifiers/lei.rs:254-267 | the generated code is accepted and has the chosen base |
| Lei.SubstitutionIsRejected | crates/core/src/identifiers/lei.rs:214-247 | a digit for a digit or a letter for a letter is always noticed |
| Lei.AdjacentTransposition | crates/core/src/identifiers/lei.rs:518-521 | swapping two unequal neighbours is accepted iff both are in the base and they are 1B, 2M or 3X, whose expansions coincide |
| Lei.UndetectedTransposition | crates/core/src/identifiers/lei.rs:518-521 | the exception is real: each twin pair, at each place of the base, occurs in a valid LEI whose swap is valid too |
| Isin.ComputeCheckDigit | crates/core/src/identifiers/isin.rs:237-259 | the single reverse pass gives, for a base of any length, the one digit that brings the Luhn total of the expanded digits to 0 mod 10, with doubles counted by their digit sum |
| Isin.DoubledIsDigitSum | crates/core/src/identifiers/isin.rs:293-301 | a doubled digit contributes the digit sum of its double, any other itself |
| Isin.LuhnIsPositional | crates/core/src/identifiers/isin.rs:336-362 | the flag-passing sum equals the sum that doubles every second digit counted from the right |
| Isin.AcceptedIff | crates/core/src/identifiers/isin.rs:197-235 | well-formed bytes are accepted iff the Luhn total including the check digit is 0 mod 10 |
| Isin.AcceptedMeans | crates/core/src/identifiers/isin.rs:197-259 | acceptance in plain numbers: shape, and the sum over the expanded digits, every second one from the right counting the digit sum of its double, is 0 mod 10 |
| Isin.RejectionReason | crates/core/src/identifiers/isin.rs:203-235 | the first character out of place, or the digit that is there and the one that belongs there |
| Expansion.ExpandMeans | crates/core/src/identifiers/isin.rs:244-256 | 0 to 9 stand for themselves, A to Z for the two digits of 10 to 35 |
| Isin.SubstitutionIsRejected | crates/core/src/identifiers/isin.rs:227-259 | a digit for a digit is always noticed |
| Isin.AdjacentTransposition | crates/core/src/identifiers/isin.rs:227-259 | swapping two unequal adjacent digits is accepted iff they are 0 and 9 |
| Isin.UndetectedTransposition | crates/core/src/identifiers/isin.rs:227-259 | the exception is real: 09 at each place of the national part occurs in a valid ISIN whose swap is valid |
| Csv.ReadCsv | crates/macros/src/lib.rs:332-375 | the peeking loop computes the specified reader |
| Csv.ReadPrinted | crates/macros/src/lib.rs:332-375 | for any records, any mix of LF and CRLF and any choice of fields left bare where section 2 of RFC 4180 allows it, reading the print gives the records that have content |
| Csv.RoundTripIff | crates/macros/src/lib.rs:332-375 | the round trip is exact iff every record has a non-empty field |
| Csv.ReadUnended | crates/macros/src/lib.rs:369-372 | without the last line break the last record is kept even when all its fields are empty, unless it is a single empty field |
| Csv.BomIsSkipped | crates/macros/src/lib.rs:333 | one byte order mark in front changes nothing |
| Csv.OpenQuoteIsError | crates/macros/src/lib.rs:368 | a quote that is opened and never closed is an error, whatever came before |
| Csv.ReadLoose | crates/macros/src/lib.rs:352-366 | in a bare field quotes after its first character are literal and carriage returns vanish |
| MicTable.CheckDistinct | crates/macros/src/lib.rs:267-308 | comparing sorted neighbours finds a duplicate iff there is one |
| MicTable.CheckReferences | crates/macros/src/lib.rs:284-305 | the hop-bounded walk of one market: success means it settles; an unknown operating MIC is a reference of the registry that dangles; a reported cycle means a cycle exists and this walk never settles, whatever else dangles |
| MicTable.CheckAllReferences | crates/macros/src/lib.rs:284-305 | success iff every reference resolves and nothing but self-operation returns to itself; a failure names a faulty reference |
| MicTable.FinalizeMic | crates/macros/src/lib.rs:267-308 | succeeds iff the registry is not empty, fits 16 bits, has distinct MICs, resolves and has no cycle; the result is the sorted permutation; each error is the first check that fails and names a MIC that fails it |
| MicTable.AcceptableMeans | crates/macros/src/lib.rs:267-308 | on the list itself: 1 to 65535 distinct MICs, each with a route along listed references to one that operates itself |
| MicTable.RepeatCircles | crates/macros/src/lib.rs:284-305 | a place that a walk visits twice without settling there is on a cycle, and the walk never settles |
| MicTable.SettlingIsAcyclic | crates/macros/src/lib.rs:267-308 | if every walk settles, no MIC but a self-operating one returns to itself |
| MicTable.SettlesQuickly | crates/macros/src/lib.rs:267-308 | without cycles every walk settles in fewer steps than there are MICs |
| MicTable.SortedRegistry | crates/macros/src/lib.rs:267-308 | sorting changes neither distinctness nor the references |
| MicTable.EmitEntries | crates/macros/src/lib.rs:169-191 | every emitted index is the place of the operating MIC of that market |
| MicTable.GenerateTable | crates/macros/src/lib.rs:156-203 | a table is emitted iff the registry is acceptable, and it is the sorted one |
| MicTable.LookupIsReference | crates/core/src/identifiers/mic.rs:380-385 | a code is found iff it is registered, and its operating MIC is the registered one |
| MicTable.LookupMeans | crates/core/src/identifiers/mic.rs:141-204 | every listed market is found with its country and activity, its operating MIC is the listed one, it is operating iff that is itself, and nothing unlisted is found |
| MicTable.RepeatedLookup | crates/core/src/identifiers/mic.rs:181-187 | `k` calls of `operating_mic` follow `k` references of the registry |
| MicTable.OperatingIsReached | crates/core/src/identifiers/mic.rs:141-187 | repeated `operating_mic` reaches a listed market that operates itself, in fewer steps than there are entries |
| CountryCode.BitIndexIsInjective | crates/core/src/identifiers/country_code.rs:228-230 | two letter pairs never share a bit |
| CountryCode.BitIndex | crates/core/src/identifiers/country_code.rs:228-230 | every bit index is below 676 and its word is in the bitmap |
| CountryCode.BuildBitmap | crates/core/src/identifiers/country_code.rs:232-243 | a letter pair is assigned in the bitmap iff it is in the list |
| CountryCode.CheckTable | crates/core/src/identifiers/country_code.rs:245-264 | comparing neighbours accepts iff all entries are letter pairs in strictly ascending order |
| CfiTable.BuildMask | crates/macros/src/lib.rs:104-120 | a mask has exactly the listed letters; the build stops iff the list is empty or has a non-letter |
| CfiTable.ParseCfiCategories | crates/macros/src/lib.rs:77-97 | the compiled table is the sorted image of the seed, or the seed is refused |
| CfiTable.ValidateTaxonomy | crates/core/src/identifiers/cfi.rs:248-271 | the early-exit checks accept iff category and group are found and the four masks allow the attributes; each refusal names the first level at which the table has nothing |
| CfiTable.Validate | crates/core/src/identifiers/cfi.rs:230-246 | letters first, then the table; a character out of place is the first one |
| CfiTable.SeedOkMeans | crates/macros/src/lib.rs:77-137 | the build demands capitals throughout and four attribute lists with at least one letter each |
| CfiTable.TableAgrees | crates/core/src/identifiers/cfi.rs:248-292 | with distinct codes, binary search and masks accept exactly the category, group and attribute letters the seed lists |
| CfiTable.CategoryAgrees | crates/core/src/identifiers/cfi.rs:281-292 | within one category the searched group accepts iff some seed group lists the candidate |
| Sorting.SearchSorted | crates/core/src/identifiers/mic.rs:380-385 | binary search over the sorted arrangement of distinct keys finds exactly the element with that key |
| Sorting.SearchSortedMiss | crates/core/src/identifiers/mic.rs:380-385 | and finds nothing when no element has the key |

## Left out

- gRPC handlers, client, CLI, logging, install scripts: input, output and field-by-field mapping.
- SQLite itself (WAL, pragmas, progress handlers, the backup and checkpoint calls): a statement is one atomic step on maps that changes nothing when a constraint fails. CHECK constraints on status and kind are the enumerations of the model.
- Schema.IssuerViolation: when a row violates several constraints at once, SQLite's choice of the one to report is not modelled; the order here is fixed. Callers get the same storage fault for all of them.
- Schema.SecurityViolation: several violations at once are reported in a fixed order, as for issuers.
- The lock file that keeps two engines apart, and its start-up and shut-down order.
- The fallback of a dry run after a failed rollback, which releases the savepoint and so commits: a rollback is taken to succeed, and `DryRun.ReleaseAloneCommits` says what would be kept otherwise.
- Reads of single rows: a row whose version is beyond 32 bits fails to load in the program; the model returns it.
- Serial.RegistrationIsAtomic: the concurrent theorems are about calls that meet no storage fault; what a fault does to a service is proved for a service alone.
- Retry.WithBusyRetry: how long the backoff sleeps is not modelled, and each attempt's encounter with other connections is a parameter.
- Lanes.AsyncStorage.AcquireSlot: the deadline is a parameter and the order in which a semaphore serves its queue is left open, which covers the first-in first-out order of the program.
- Lanes.WaitIdle: the deadline is the end of the list of observed states.
- Lanes.IntoEngineIff: which of several handles a call borrows is not tracked; giving up a handle asks only that the last one carry no waiting caller.
- SerialProgress.EveryCallEnds: a closure that could call for ever, given suitable answers, is outside the bound; fairness of the scheduler is not modelled, the run that ends is one the scheduler can pick.
- Serial.WriteClosuresAreAtomic: a dry run works on tables of its own from the step that starts it, and they are gone when it ends; that the savepoint and the recovery after a panic do this on the one writer connection is what the `DryRun` lemmas prove.
- DryRun.DryRunIsFaithful: a bound on the number of calls stands in for termination of the closure; the closure is any deterministic function of the answers it has received.
- WaitPool.PoolSettles: fairness of the scheduler is not modelled; the bound holds for whatever steps are picked.
- Keyset.WalkIsComplete: what is stored between two pages is any set of ids; the walk reads ids only, row contents ride along.
- EagerLoad.HydrateRows: securities carry their version along, which the program drops.
- Integrity.RatiosAreReadable: reading a row back re-parses its CNPJ, LEI, ISIN and CFI in the program; the store's columns are plain strings here, and the parsers are modelled apart.
- Domain.BuildSecurityMatchesChecks: names are strings of any content; trimming and length limits of names are left out.
- Trimming and case folding in the `normalize` functions of LEI, ISIN, MIC, CFI and country code: the same shape as in the CNPJ, with less to prove.
- Csv.ReadCsv: the column mapping and field parsing of `parse_mic_row` that follow it are left out; they are a chain of per-field checks.
- CfiTable.ParseCfiCategories: the JSON tree is a seed of categories, groups and letter lists; a build that panics is an absent result.
- The concrete country, MIC and CFI data: everything is proved for any table that passes the generator's checks.
- The five-state lifecycle, the task typestates and the background task table: easy members only.
- The listing and venue domains: service checks without a repository.
