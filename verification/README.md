# Whole-Appliance operations and the services around them, verified

This project models the parts of the OAM server where concurrency, crashes and parsing
decide correctness, and proves what they are relied on for.

The main part is the protocol by which OAM runs operations on an appliance through a host
adapter (backup, restore, update, rollback, reset). OAM keeps rows, challenges and audit rows
in a database; the host keeps a journal of jobs with generations. `Lifecycle` is the protocol
as a transition system: a step is one bare SQL statement, one plain transaction or one host
call. The two transactions that ask the host while they hold a row lock are three steps, lock,
host effect and commit, with a possible crash between any two. Rows read earlier and entries
returned earlier stay in flight for good, so every delay, repetition and reordering is a run.
`LifecycleInvariant` proves what each step keeps and `LifecycleRuns` what follows for all runs.
`OamService` is the service code as methods on an object. Each returns the steps it took: a
request is a run that starts with the expiry of overdue plans (`OamService.RequestIsRun`), the
others continue the run of their caller. `HostFixture` is the journal of the host fixture; each
of its calls is proved to be journal steps followed by the protocol's own host call, with the
same answer. `Reconciler` is one pass of the reconciler over everything in flight. `Convergence`,
`Planning` and `Paging` (with `OperationIds`) cover the journal order, idempotent planning and
listing.

The other parts are `Sessions` and `SessionsProof` (password, session and administrator
transactions, interleaved statement by statement under row and table locks), `Lockout`,
`Migrate` with `MigrateLoad` and `MigrateRuns` (the schema migration runner), `RateLimiter`,
`HostAuth` (request signing and the nonce cache), `GatewayPath` with `DotSegments` (the
proxied path), and `Scrubber` with `ScrubberProof`, `ScrubberText` and `ScrubberFile` (the lexer
of the internal-id scrubber).

`dafny verify dfyconfig.toml` checks all of it.

## Assumptions

- The two unique constraints exist: `uk_appliance_operations_idempotency`
  (database/migrations/postgres/0002_appliance_operations.sql:56) and
  `uk_appliance_operations_one_active` (database/migrations/postgres/0003_appliance_submit.sql:13-16).
  The second is consulted only when a row leaves PLANNED; the theorems need no more.
- A host call takes effect before it returns or never, though its answer may be lost; a call
  made under a row lock does not take effect after the lock is gone.
- Journal generations rise with every entry and terminal entries are final. This is proved of
  the fixture (`HostFixture.SteppingAppends`, `StoppingAppends`, `TerminalEntryIsFinal`).
- The host does not forget an entry OAM has not recorded (`Lifecycle.KeepsUnrecorded`). It may
  forget everything else. `LifecycleRuns.ForgettingUnrecordedRunsTwice` shows it is needed.
- Challenge hashes, password hashes and request digests do not collide. The MAC is any
  function of the signing input. User ids, tokens and operation ids are not reused.
- Login attempts for one user and address are serialised: each is checked and recorded before
  the next.
- The limiter's and the nonce cache's clocks do not go back.

Identifiers that are only compared are numbers. Times are numbers on one clock.

## Model

| member | source | states |
|---|---|---|
| `LifecycleRuns.AtMostOneExecution` | internal/appliance/lifecycle.go:435-496 | over every run of the protocol, with crashes between the host call and the commit, lost answers, stale reads and later loss of recorded journal entries, the host starts at most one job per operation id |
| `LifecycleRuns.ForgettingUnrecordedRunsTwice` | internal/appliance/lifecycle.go:477-495 | the one assumption on the host is needed: from every reachable state in which it holds a job OAM has not recorded, forgetting it and delivering again starts it a second time |
| `LifecycleRuns.UnrecordedIsReachable` | internal/appliance/lifecycle.go:468-472 | such a state is reached by a faithful run: a delivery whose answer is lost |
| `LifecycleRuns.CancelledNeverRuns` | internal/appliance/lifecycle.go:665-746 | once a row is CANCELLED, in every later state the host never started the id or its own job is cancelled for good |
| `LifecycleRuns.RefusedNeverRuns` | internal/appliance/lifecycle.go:483-490 | an operation FAILED by a refusal of the host was never started and never will be |
| `LifecycleRuns.TerminalIsFinal` | internal/appliance/lifecycle.go:500-555 | no stale snapshot, late entry or retry changes a terminal row, except for its reconciliation marker, although the UPDATE that follows an entry has no state guard |
| `LifecycleRuns.FinishedIsStamped` | internal/appliance/lifecycle.go:513-515 | in every run a row carries a time of finish exactly if it is SUCCEEDED, FAILED, ROLLED_BACK or CANCELLED |
| `LifecycleRuns.OneActivePerInstallation` | internal/appliance/operation.go:88-97 | in every reachable state at most one operation occupies an installation, even if the unique index is consulted only when a row leaves PLANNED |
| `LifecycleRuns.RowOnlyMovesForward` | internal/appliance/lifecycle.go:509-516 | generations never fall, plans never change, submissions are never taken back, journal and audit only grow |
| `LifecycleRuns.RowFollowsJournal` | internal/appliance/lifecycle.go:498-533 | a row at a generation above 0 tells exactly what the one journal entry of that generation says, its error code if that is empty or well-formed and SUBMIT_REJECTED otherwise, or OAM has marked it lost |
| `LifecycleRuns.LostMeansLost` | internal/appliance/lifecycle.go:586-589 | OAM marks an operation lost only when the journal lost a job it had started, and nothing is resubmitted afterwards |
| `LifecycleRuns.ChallengeAccounting` | internal/appliance/lifecycle.go:184-243 | at most one open challenge per operation; anything but a backup is submitted exactly if exactly one of its challenges is consumed, and a backup has none; exactly one submit audit row per submission |
| `Operations.CheckErrorCode` | internal/appliance/lifecycle.go:415-427 | accepts exactly 2 to 64 upper-case letters, digits and underscores that start with a letter |
| `Operations.StoredCodeTells` | internal/appliance/lifecycle.go:505-508 | an empty or well-formed code of the host is stored as it is, any other as SUBMIT_REJECTED |
| `Operations.UsableExactly` | internal/appliance/host.go:315-322 | an entry is usable exactly if it is for the operation, at a generation from 1 on and in no state of OAM alone |
| `LifecycleRuns.ChallengeBinding` | internal/appliance/lifecycle.go:257-292 | a challenge never outlives or leaves its plan; the consumed one was issued to the submitting user and session, unexpired, at the moment of the submission |
| `LifecycleRuns.RunKeeps` | internal/appliance/lifecycle.go:306-391 | the invariant behind these theorems holds after every step of every run, and no step takes back what must not be taken back |
| `LifecycleInvariant.OpStepKeeps` | internal/appliance/lifecycle.go:450-496 | each single statement, transaction, host call and crash keeps the invariant of its operation and makes it active only if its installation is free |
| `LifecycleInvariant.FollowKeeps` | internal/appliance/lifecycle.go:500-533 | following any genuine journal entry, old or new, keeps the invariant and never disturbs a terminal row |
| `LifecycleInvariant.CommitKeeps` | internal/appliance/lifecycle.go:716-746 | whatever a transaction that asked the host under the row lock records on commit keeps the invariant |
| `LifecycleInvariant.SubmitKeeps` | internal/appliance/lifecycle.go:347-386 | the submission transaction consumes, queues and audits together |
| `OamService.OpExecIsExec` | internal/appliance/lifecycle.go:576-593 | what the steps of one call do to an operation is a run of the transition system, with no assumption on the host used up |
| `OamService.RequestIsRun` | internal/appliance/lifecycle.go:318-391 | a request, that is expiry of overdue plans and then steps of its own operation, is a run of the transition system, with no assumption on the host used up |
| `OamService.RequestKeeps` | internal/appliance/lifecycle.go:318-391 | every such request keeps the invariant of its operation and takes nothing back |
| `OamService.DecisionIsExact` | internal/appliance/lifecycle.go:323-377 | the branches of Submit accept exactly the submissions that name the plan in its time, in the state the type asks for, with a challenge for exactly this request and a free installation |
| `OamService.SubmissionAnswered` | internal/appliance/lifecycle.go:318-377 | every answer of a submission, from the stored operation alone and by type and state: what is accepted, and each refusal by name; anything planned but a backup needs a challenge |
| `OamService.AcceptedSubmission` | internal/appliance/lifecycle.go:329-363 | an accepted first submission of anything but a backup presented a live challenge issued to this user and session for this plan; one of a backup found the installation free |
| `OamService.AuthorizationAnswered` | internal/appliance/lifecycle.go:154-164 | every answer of an authorization, likewise |
| `OamService.BackupLifetime` | internal/appliance/operation.go:99-102 | a freshly planned backup is accepted exactly on a free installation within fifteen minutes of the plan |
| `OamService.AuthorizedLifetime` | internal/appliance/lifecycle.go:184-292 | any other operation, planned and then authorized, is accepted exactly with its challenge, from the same user and session, within five minutes of the authorization and fifteen of the plan |
| `OamService.ExpiryIsExact` | internal/appliance/operation_store.go:123-131 | expiry cancels exactly the overdue plans that nobody submitted, with their code and time |
| `OamService.DeliveryStarts` | internal/appliance/lifecycle.go:453-473 | delivering an operation the host has never seen starts it exactly once; an unrecorded answer leaves it deliverable |
| `OamService.RedeliveryStartsNothing` | internal/appliance/lifecycle.go:477-482 | delivering again starts nothing and brings the row up to the existing job |
| `OamService.DeliveryRefused` | internal/appliance/lifecycle.go:483-490 | a refusal finishes the operation as FAILED with the host's code, or a fixed code if it is malformed |
| `OamService.PollFollows` | internal/appliance/lifecycle.go:580-583 | a poll that finds an entry makes the row say what it says, however old the snapshot it works from |
| `OamService.PollDelivers` | internal/appliance/lifecycle.go:584-585 | a poll that finds no job for a never-reported operation delivers it, unless that happened meanwhile |
| `OamService.PollNoticesLoss` | internal/appliance/lifecycle.go:586-589 | a poll that finds no job for a reported operation resubmits nothing and sends a current row to an operator |
| `OamService.PollUnreachable` | internal/appliance/lifecycle.go:590-592 | a poll that does not reach the host changes the marker alone |
| `OamService.PollClearsMarker` | internal/appliance/lifecycle.go:521-528 | a poll of the row as it is that reaches the host clears that marker |
| `OamService.LateCancelOfUnstarted` | internal/appliance/lifecycle.go:737-745 | cancelling what the host never got cancels it, and it was never started |
| `OamService.LateCancelOfStarted` | internal/appliance/lifecycle.go:731-736 | cancelling what the host turns out to have leaves the decision to the host |
| `OamService.CancelThroughHost` | internal/appliance/lifecycle.go:692-698 | a job the host stops is what the row then says, and the caller is told so |
| `OamService.CancelTellsTheTruth` | internal/appliance/lifecycle.go:692-746 | success of a cancellation means that the row is CANCELLED or tells what the last entry of the host says; anything else leaves the row as it was; a host that did not answer is never a success |
| `OamService.CancelOfCancelled` | internal/appliance/lifecycle.go:692-698 | a job cancelled already is what the row then says |
| `OamService.CancelRefused` | internal/appliance/lifecycle.go:699-707 | a job that cannot be stopped, or that the host lost, changes nothing, and the caller is told which |
| `OamService.CancelOfUnstarted` | internal/appliance/lifecycle.go:701-704 | a submitted operation the host never started is cancelled and never was started |
| `OamService.AuthorizingOpensOne` | internal/appliance/lifecycle.go:216-231 | authorizing again leaves exactly the new challenge open |
| `OamService.SubmittingUsesOne` | internal/appliance/lifecycle.go:259-270 | submitting consumes exactly the challenge presented and adds one submit audit row |
| `OamService.Oam.Authorize` | internal/appliance/lifecycle.go:184-243 | a run of the system; succeeds exactly in the stated conditions; then the row, the one open challenge with its binding to caller and plan, and the audit row are as stated; otherwise nothing but expiry changes |
| `OamService.Oam.QueueSubmission` | internal/appliance/lifecycle.go:318-386 | a run of the system; submits exactly in the stated conditions, all or nothing; repeats return unchanged; refusals consume nothing |
| `OamService.Oam.Submit` | internal/appliance/lifecycle.go:318-391 | a run of the system that queues first and only then asks the host |
| `OamService.Oam.Deliver` | internal/appliance/lifecycle.go:435-496 | lock, host call and record are those steps of the transition system, and leave the operation as AfterDelivery says |
| `OamService.Oam.Reconcile` | internal/appliance/lifecycle.go:576-593 | the branches of a poll are steps of the transition system and end as AfterPoll says |
| `OamService.Oam.CancelUndelivered` | internal/appliance/lifecycle.go:716-746 | steps of the system; acts only on an undelivered row, under its lock; result and operation for every answer of the host |
| `OamService.Oam.Cancel` | internal/appliance/lifecycle.go:665-709 | a run of the system; before submission always succeeds; finished operations stay; otherwise result and operation are HostCancelled, or nothing if the host cannot be reached |
| `OamService.Oam.CancelSubmitted` | internal/appliance/lifecycle.go:692-708 | steps of the system; result and operation for every answer of the host |
| `Reconciler.Server.ReconcileActive` | internal/appliance/lifecycle.go:605-634 | one pass selects the lowest ids in flight, at most 50, and polls each as it was read; the pass is a run of the protocol |
| `Reconciler.PassCatchesUp` | internal/appliance/lifecycle.go:605-634 | after a pass with the host reachable no operation of the batch that the host holds stays behind the journal |
| `Reconciler.BatchHoldsAll` | internal/appliance/lifecycle.go:610-613 | operations in flight have distinct installations, so with at most fifty installations a batch holds all of them |
| `Reconciler.UnfinishedIsInFlight` | internal/appliance/lifecycle.go:610-613 | the query selects exactly what was submitted and is not finished |
| `Reconciler.PassCatchesUpAll` | internal/appliance/lifecycle.go:605-634 | with at most fifty installations one pass brings everything submitted, unfinished and held by the host up to the journal |
| `Reconciler.PolledDelivers` | internal/appliance/lifecycle.go:584-585 | a pass delivers what was recorded as submitted and never delivered |
| `Convergence.OnlyHighestMatters` | internal/appliance/lifecycle.go:509-516 | applying any arrivals of one job equals applying the highest generation alone |
| `Convergence.ReorderingIsHarmless` | internal/appliance/lifecycle.go:640-643 | the same entries in another order, with other repetitions and times, leave the same row |
| `HostFixture.EntriesWellFormed` | internal/appliance/hostfixture/jobs.go:32-98 | the entries of a fixture job form a journal with rising generations and final terminal entries, each usable by OAM |
| `HostFixture.SteppingAppends` | internal/appliance/hostfixture/jobs.go:116-127 | advancing appends exactly one entry and keeps generation = 1 + position + (1 if cancelled) |
| `HostFixture.StoppingAppends` | internal/appliance/hostfixture/jobs.go:232-237 | cancelling appends exactly one entry, a final one |
| `HostFixture.TerminalEntryIsFinal` | internal/appliance/hostfixture/jobs.go:77-98 | a job whose entry is terminal is done: neither time nor a cancellation moves it, and nothing can follow its journal |
| `HostFixture.CatchingUpComposes` | internal/appliance/hostfixture/jobs.go:154-163 | catching up to t1 and then t2 is catching up to t2 |
| `HostFixture.CatchingUpCounts` | internal/appliance/hostfixture/jobs.go:154-163 | catching up takes one step per whole interval, up to the last step |
| `HostFixture.CatchingUpExtends` | internal/appliance/hostfixture/jobs.go:154-163 | catching up only appends to the journal |
| `HostFixture.CancelDecides` | internal/appliance/hostfixture/jobs.go:218-238 | a cancel is accepted exactly if the entry of that instant says cancellable (or the job is cancelled already), and never from the irreversible step on |
| `HostFixture.CancelByType` | internal/appliance/hostfixture/jobs.go:218-238 | by what the host shows of a job: a restore, update, rollback or reset can be cancelled exactly while queued or preparing, a backup while queued or running, and a cancelled job again |
| `HostFixture.LeftAlone` | internal/appliance/hostfixture/jobs.go:45-98 | the state, phase and error code a job shows after n intervals, by type and outcome, up to the end its outcome says |
| `HostFixture.StaysStarted` | internal/appliance/hostfixture/jobs.go:116-163 | time and cancellation never turn a job into one of another type or outcome |
| `HostFixture.SubmitSimulated` | internal/appliance/hostfixture/jobs.go:165-198 | submitJob is some journal steps of the host and then the submit call of the protocol, with the same answer, and protocol and fixture agree again on journal and executions |
| `HostFixture.GetSimulated` | internal/appliance/hostfixture/jobs.go:206-216 | getJob likewise, with the answer a poll of the protocol gets |
| `HostFixture.AskJobAnswers` | internal/appliance/lifecycle.go:580-589 | what a poll of the protocol records for that answer |
| `HostFixture.CancelSimulated` | internal/appliance/hostfixture/jobs.go:218-238 | cancelJob likewise, with the cancel call of the protocol |
| `HostFixture.AdvanceSimulated` | internal/appliance/hostfixture/jobs.go:116-127 | Advance is one journal step of the host |
| `HostFixture.ForgetSimulated` | internal/appliance/hostfixture/jobs.go:130-135 | Forget is the loss of a journal in the protocol |
| `HostFixture.CatchUp` | internal/appliance/hostfixture/jobs.go:154-163 | the loop computes CaughtUp |
| `HostFixture.Host.SubmitJob` | internal/appliance/hostfixture/jobs.go:165-198 | what is held and answered is SubmitOf, in every case; other operations are untouched |
| `HostFixture.Host.StartJob` | internal/appliance/hostfixture/jobs.go:182-197 | refused with the code of the first condition that fails and not started, or started once with a journal of one usable entry |
| `HostFixture.Host.GetJob` | internal/appliance/hostfixture/jobs.go:206-216 | what is held and answered is GetOf: the last entry after catching up |
| `HostFixture.Host.CancelJob` | internal/appliance/hostfixture/jobs.go:218-238 | what is held and answered is CancelHeld, accepted exactly while what is shown of a job of its type can be stopped; other operations are untouched |
| `HostFixture.Host.Forget` | internal/appliance/hostfixture/jobs.go:130-135 | drops the job and keeps the record that it ran |
| `HostFixture.Host.Advance` | internal/appliance/hostfixture/jobs.go:116-127 | moves an unfinished job by exactly one entry |
| `Planning.OneRowPerKey` | internal/appliance/operation_store.go:75-99 | over every interleaving of calls at most one row exists per user and key |
| `Planning.SuccessesAgree` | internal/appliance/operation_service.go:67-119 | all successful calls under a key return one operation, made for a request with the hash of theirs, and at most one reports having created it |
| `Planning.OneCreator` | internal/appliance/operation_service.go:90-119 | every row was made by exactly one call, which reports creating it unless it was cut off or is still at work |
| `Planning.KeyIsBound` | internal/appliance/operation_service.go:122-127 | once a key has a row, in whatever state, expired included, a call with the same request gets it and one with another request conflicts, unless it fails |
| `Planning.RefusedExactly` | internal/appliance/operation_service.go:49-66 | what is refused before any statement, and as what |
| `Planning.HashSeparates` | internal/appliance/operation.go:154-161 | two requests have one hash exactly if they differ at most in the schema version |
| `Planning.ExpiryIsExact` | internal/appliance/operation_store.go:123-131 | expiry cancels exactly the overdue plans and forgets none |
| `Planning.WinnerIsThere` | internal/appliance/operation_service.go:94-106 | the call that lost the insert always finds the winner |
| `Planning.RunKeeps` | internal/appliance/operation_store.go:123-131 | no statement, expiry included, removes a row or changes whose it is |
| `Planning.Service.PlanOperation` | internal/appliance/operation_service.go:49-118 | an undisturbed call is those steps of the machine; it adds one row exactly if it reports creating it |
| `Paging.ListOperations` | internal/appliance/operation_service.go:158-190 | a page is in order, within its limit, skips nothing, and has a cursor exactly when something is left |
| `Paging.Query` | internal/appliance/operation_store.go:142-179 | the query returns the highest ids before the cursor, and fewer than asked for only if there are no more |
| `Paging.EveryRowOnce` | internal/appliance/operation_service.go:177-183 | following the cursor to the end lists every row present at the start exactly once, newest first, whatever rows arrive in between |
| `Paging.CursorFalls` | internal/appliance/operation_service.go:181-183 | each cursor is below the one before, so following ends |
| `OperationIds.NewId` | internal/appliance/operation.go:271-282 | every generated id passes the check on ids and carries version 7 and the variant |
| `OperationIds.Valid` | internal/appliance/operation.go:286-303 | accepts exactly the texts with the shape of an id |
| `OperationIds.HexDigitsAreHex` | internal/appliance/operation.go:295-300 | its digits are exactly the sixteen lower-case ones |
| `OperationIds.OrderedByTime` | internal/appliance/operation.go:269-282 | ids order as texts by their millisecond below 2^48, whatever the random bytes |
| `SessionsProof.SessionsFollowPassword` | internal/services/user_service.go:312-356 | over every statement-level interleaving, a token that validates was issued against its owner's current password since it was last replaced |
| `SessionsProof.ReplacementEndsSessions` | internal/services/user_service.go:974-1004 | committing a replacement ends every session of the user at once, and installs exactly the new row |
| `SessionsProof.AdministratorRemains` | internal/services/user_service.go:370-408 | concurrent demotions and deletions never remove the last administrator |
| `SessionsProof.PasswordUpdateTakesEffect` | internal/services/user_service.go:320-356 | the transaction, undisturbed, installs the password, ends that user's sessions and no other's |
| `SessionsProof.LoginIssuesSession` | internal/services/user_service.go:495-519 | a session is issued exactly if the password is right under the row lock, and then validates |
| `SessionsProof.DeletionRefusedForLastAdmin` | internal/services/user_service.go:393-408 | deleting succeeds exactly if the user is not the only administrator; then none of that user's sessions validates and all others do |
| `SessionsProof.RoleChangeTakesEffect` | internal/services/user_service.go:320-356 | a change of role takes effect exactly if it does not demote the only administrator |
| `SessionsProof.LogoutEndsSession` | internal/services/user_service.go:716-731 | logging out ends that session and no other |
| `SessionsProof.RehashTakesEffect` | internal/services/user_service.go:475-482 | the rehash changes how the password is stored and nothing else, and nothing at all if the hash was replaced meanwhile |
| `SessionsProof.SetupTakesEffect` | internal/services/user_service.go:974-1004 | setup installs name and password and ends the old sessions |
| `SessionsProof.ResetCreatesAdmin` | internal/services/user_service.go:1061-1079 | a reset without an administrator creates one with the password given |
| `SessionsProof.UserAddedAndRenamed` | internal/services/user_service.go:82-127 | a new user is there under a new id without administrator's rights, and a new name is that name |
| `SessionsProof.AbortLeavesNothing` | internal/services/user_service.go:312-356 | a transaction that is rolled back leaves no trace |
| `SessionsProof.RunKeeps` | internal/services/user_service.go:1055-1119 | every statement of password update, setup, reset, login rehash, login, logout, deletion and creation keeps the invariant |
| `Lockout.LockoutFor` | internal/services/user_service.go:1249-1256 | the doubling loop gives min(15 min, 2^(n-6) min) for failure n above 5 |
| `Lockout.LoginAttempts.RecordFailedLogin` | internal/services/user_service.go:1209-1276 | the row after a failure, with reset after the window and lockout above five |
| `Lockout.Scheduled` | internal/services/user_service.go:1219-1261 | five failures are free, then one, two, four, eight and from the tenth on fifteen minutes; a pause of more than ten minutes starts over |
| `Lockout.LoginAttempts.IsLoginBlocked` | internal/services/user_service.go:1188-1205 | blocked exactly until the stored time, and the remaining time is what is left of it |
| `Lockout.CountIsBounded` | internal/services/user_service.go:1219-1261 | the count never exceeds 10, because the fifteen minutes of the tenth failure outlast the window |
| `Lockout.LoginAttempts.Attempt` | internal/handlers/handler.go:93-135 | check, then clear or record: one step of the runs the bounds are about |
| `Lockout.NineGuessesPerWindow` | internal/handlers/handler.go:93-135 | for every t, at most nine recorded failures fall into the closed ten minutes from t, if no login in them succeeds |
| `Migrate.PendingAfter` | internal/migrate/migrate.go:165-180 | accepts exactly the contiguous matching prefixes, returns the rest of the list, and otherwise refuses by the first row that is out of place, beyond the list or of another text; every index is in range |
| `Migrate.Runner.ApplyOne` | internal/migrate/migrate.go:352-370 | the migration and its record are committed together or not at all, even if the answer to the commit is lost |
| `Migrate.Runner.ApplyAll` | internal/migrate/migrate.go:293-349 | however the run ends, the database has moved by creation, adoption and whole migrations in order; undisturbed, it reports as ApplySays |
| `Migrate.Runner.Check` | internal/migrate/migrate.go:258-291 | writes nothing, reports as CheckSays, and as uninitialised exactly if there is neither history nor baseline |
| `MigrateRuns.CheckAgreesWithApply` | internal/migrate/migrate.go:258-349 | check succeeds iff apply would run nothing, reports pending or uninitialised iff it would run something, and both refuse with the same error |
| `MigrateRuns.CrashSafety` | internal/migrate/migrate.go:293-370 | over any sequence of runs that fail or die at any statement the history stays a matching prefix and nothing recorded or executed is taken back |
| `MigrateRuns.UntrackedIsGood` | internal/migrate/migrate.go:312-332 | an empty database and one whose baseline was loaded untracked are both starting points of the theorems |
| `MigrateRuns.ExecutedExactlyOnce` | internal/migrate/migrate.go:341-370 | each version is executed at most once, in order, exactly the recorded ones that were not adopted; an adopted baseline never is |
| `MigrateRuns.GoodIsNeverRefused` | internal/migrate/migrate.go:334-348 | a database left by any such history can always be finished by a binary that is not older |
| `MigrateRuns.OlderBinaryIsRefused` | internal/migrate/migrate.go:172-174 | an older binary is refused as such |
| `MigrateLoad.Load` | internal/migrate/migrate.go:107-154 | the accepted list is the baseline and the files, rearranged so that versions run without gaps |
| `MigrateLoad.LoadAcceptsExactly` | internal/migrate/migrate.go:146-152 | the files are accepted exactly if every version behind the baseline's is there once and nothing else is |
| `RateLimiter.Limiter.Allow` | internal/middleware/ratelimit.go:45-71 | the garbage-collecting limiter decides exactly like one that never drops a bucket |
| `RateLimiter.Limiter.Gc` | internal/middleware/ratelimit.go:75-82 | drops exactly the buckets that are full again |
| `RateLimiter.SimulationDecides` | internal/middleware/ratelimit.go:56-71 | a dropped bucket decides like the full one it was, and stays so |
| `RateLimiter.WindowBound` | internal/middleware/ratelimit.go:45-71 | in any window of length T a key gets through at most burst + rps*T times |
| `RateLimiter.PassesExactly` | internal/middleware/ratelimit.go:63-70 | a request passes exactly if a whole token is there |
| `RateLimiter.BurstPasses` | internal/middleware/ratelimit.go:45-71 | from a fresh key a burst passes at once and nothing beyond it |
| `RateLimiter.SteadyIsNeverRefused` | internal/middleware/ratelimit.go:45-71 | a key that asks no faster than tokens accrue is never refused |
| `HostAuth.SigningInputIsInjective` | internal/appliance/hostauth.go:47-50 | single-line parts and the body hash are determined by the signing input |
| `HostAuth.NonceCache.Use` | internal/appliance/hostauth.go:84-96 | prunes exactly the nonces older than twice the skew, then records |
| `HostAuth.NonceCache.Verify` | internal/appliance/hostauth.go:102-128 | headers, signature, window, nonce in that order, each refusal exactly; a request failing before the nonce never changes the cache |
| `HostAuth.SignedLines` | internal/appliance/hostauth.go:47-50 | the lines that are signed, in order |
| `HostAuth.AcceptedAtMostOnce` | internal/appliance/hostauth.go:84-128 | the same signed request is accepted at most once in any run with a non-decreasing clock, if nonces are kept for twice the skew or longer |
| `HostAuth.PruningIsHarmless` | internal/appliance/hostauth.go:84-96 | while a nonce comes with one timestamp, the pruned cache accepts exactly what one that never forgets accepts |
| `HostAuth.RetentionIsTight` | internal/appliance/hostauth.go:26-30 | a cache that keeps nonces for a given time accepts no request twice, in any chronological run, exactly when that time is at least twice the skew |
| `HostAuth.ShorterRetentionReplays` | internal/appliance/hostauth.go:84-96 | for every shorter retention, the run that is accepted twice |
| `GatewayPath.Canonical` | internal/services/gateway_path.go:55-89 | the scans and early returns compute CanonicalOf |
| `GatewayPath.AcceptedExactly` | internal/services/gateway_path.go:55-89 | accepted are exactly the spellings of honest segments behind single slashes, with at most one slash after them and no encoded separator in the request |
| `GatewayPath.HonestIsAccepted` | internal/services/gateway_path.go:72-89 | every such spelling is accepted as those segments, without a leading version |
| `GatewayPath.TwoSlashesRefused` | internal/services/gateway_path.go:70-83 | a second trailing slash is refused |
| `GatewayPath.CharacterAccepted` | internal/services/gateway_path.go:64-68 | a character in a segment is accepted exactly if it is printable and not a backslash, question mark or number sign |
| `GatewayPath.EncodedSeparatorIsLowered` | internal/services/gateway_path.go:56-59 | encoded separators are found in whatever case they are written |
| `GatewayPath.TrailingSlashIsHarmless` | internal/services/gateway_path.go:70-72 | one trailing slash changes neither whether a path is accepted nor decision nor target |
| `GatewayPath.AuthorizedIsForwarded` | internal/services/gateway_path.go:94-113 | the target of every accepted request is the API root followed by exactly the segments the decision was taken on |
| `GatewayPath.DecisionsExactly` | internal/services/gateway_path.go:177-235 | in every spelling of every accepted path, exactly when a request is denied, open to every role, open to operators, and otherwise for administrators, by the verb and the first two segments |
| `GatewayPath.OneTargetOneDecision` | internal/services/gateway_path.go:177-235 | requests forwarded to one target get one decision |
| `GatewayPath.LeadingVersion` | internal/services/gateway_path.go:102-107 | writing the version leaves the target alone exactly when the base ends in it and the rest does not start with it; when the rest does not start with it, the decision is the same too |
| `DotSegments.FixedExactly` | internal/services/gateway_path.go:72-81 | section 5.2.4 of RFC 3986 leaves a path alone exactly if it has no dot segment |
| `DotSegments.TargetIsFixed` | internal/services/gateway_path.go:94-113 | the target is a fixed point of the removal of dot segments exactly when the registered base is |
| `Scrubber.ScanQuote` | scripts/scrub-internal-ids.py:89-104 | finds the first quote with an even run of backslashes before it, or none |
| `Scrubber.RewriteLine` | scripts/scrub-internal-ids.py:107-183 | the scan writes the line with its bodies rewritten and leaves the carried state of the lexer, which does not depend on the rewriting |
| `ScrubberText.CodeIsCopied` | scripts/scrub-internal-ids.py:134-183 | text in which no comment or string starts is copied, and what follows is rewritten on its own |
| `ScrubberText.LineCommentIsScrubbed` | scripts/scrub-internal-ids.py:147-149 | a line comment is rewritten to the end of the line |
| `ScrubberText.BlockCommentIsScrubbed` | scripts/scrub-internal-ids.py:150-157 | a block comment is rewritten, closed or left open |
| `ScrubberText.TripleIsScrubbed` | scripts/scrub-internal-ids.py:139-146 | a triple-quoted Python string is rewritten, closed or left open |
| `ScrubberText.DoubleQuotedIsScrubbed` | scripts/scrub-internal-ids.py:164-170 | a double-quoted string is rewritten in both languages |
| `ScrubberText.SingleQuotedIsScrubbedInPython` | scripts/scrub-internal-ids.py:171-180 | a single-quoted text is rewritten in Python and copied in Go and C |
| `ScrubberText.LoneQuoteIsCopied` | scripts/scrub-internal-ids.py:166-167 | a quote that nothing closes is copied with all that follows |
| `ScrubberText.RawStringIsCopied` | scripts/scrub-internal-ids.py:158-163 | a raw string is copied, closed or left open |
| `ScrubberText.CarriedRegion` | scripts/scrub-internal-ids.py:116-131 | a line that starts inside a comment or string is rewritten, and inside a raw string copied, up to the closer or to its end |
| `ScrubberText.LinesInOrder` | scripts/scrub-internal-ids.py:207-212 | what one line leaves open is what the next one starts in |
| `ScrubberText.CommentOverLines` | scripts/scrub-internal-ids.py:117-121 | a block comment over several lines is rewritten on each of them |
| `Scrubber.LosslessLine` | scripts/scrub-internal-ids.py:107-183 | the pieces of a line spell the line |
| `ScrubberProof.IdentityChangesNothing` | scripts/scrub-internal-ids.py:107-183 | a rewriting that changes no body changes no line |
| `ScrubberProof.StructureSurvives` | scripts/scrub-internal-ids.py:107-183 | the rewritten line has the same pieces with rewritten bodies and leaves the same state exactly if every body still ends at its closer and no emptied Python string is followed by its own quote |
| `ScrubberProof.RewritingSettles` | scripts/scrub-internal-ids.py:107-183 | where structure survives, a rewriting settled after one go on each body is settled after one go on the line |
| `ScrubberProof.EmptiedStringOpensTriple` | scripts/scrub-internal-ids.py:164-170 | where structure is lost: emptying the first of two adjacent Python strings, whatever id it holds, opens a triple-quoted one |
| `ScrubberFile.Process` | scripts/scrub-internal-ids.py:198-213 | the loop reports the bodies that differ and writes the new bodies with the old line ends |
| `ScrubberFile.ReportIsExact` | scripts/scrub-internal-ids.py:206-211 | the report names each changed line once, in order, and no other |
| `ScrubberFile.ReportShows` | scripts/scrub-internal-ids.py:210-211 | each entry shows its line as it was and as it will be |
| `ScrubberFile.NothingReportedExactly` | scripts/scrub-internal-ids.py:198-213 | nothing is reported exactly when the content written is the content read, whatever the rewriting does |
| `ScrubberFile.AppliedIsClean` | scripts/scrub-internal-ids.py:198-213 | after applying, a contained and settled rewriting finds nothing to report |

## Left out

- Reconciler.Server.ReconcileActive: a pass with no other transaction in between; the ticker that repeats it is not modelled.
- LifecycleRuns.ChallengeAccounting: counts the audit rows written inside the authorization and submission transactions only; the other audit rows are written outside and may be lost.
- LifecycleRuns.TerminalIsFinal: says nothing of the reconciliation marker, which a late poll that cannot reach the host may still overwrite.
- LifecycleRuns.ForgettingUnrecordedRunsTwice: assumes that no one holds the row lock at that moment.
- LifecycleRuns.LostMeansLost: recognises a lost job by its error code, because the marker can be overwritten.
- OamService.Oam.Submit: a call with no other transaction in between; interleavings are runs of the transition system.
- OamService.Oam.Cancel: the same.
- Planning.Service.PlanOperation: the same; interleaved calls are runs of the machine in the same module.
- HostFixture.Host.SubmitJob: the wire decoding and the mutex are left out; each call is atomic.
- Lockout.LoginAttempts.IsLoginBlocked: the remaining time is taken at the time of the check, not a moment later.
- Lockout.NineGuessesPerWindow: concurrent attempts that pass the check together are outside it, as the assumption says.
- SessionsProof.UserAddedAndRenamed: creation with a role chosen by an administrator is not a step of its own; a created administrator is one of the reset's.
- RateLimiter.Limiter.Allow: floating-point rounding is not modelled; tokens and seconds are reals.
- MigrateLoad.Load: file names, empty files and reading the directory are not modelled.
- Migrate.Runner.ApplyAll: two runners at once are excluded by the advisory lock, which is taken as given.
- Paging.ListOperations: malformed cursors and the state filter are not modelled; a state may change between pages, so no such guarantee holds for it.
- Paging.Query: the database's ordering is modelled as choosing the highest id again and again.
- HostAuth.NonceCache.Verify: constant-time comparison and the hash functions are not modelled.
- GatewayPath.Canonical: texts are sequences of characters, for which the check for valid UTF-8 always passes.
- GatewayPath.AuthorizedIsForwarded: only the path of the target; URL parsing, query and fragment are not modelled.
- GatewayPath.LeadingVersion: states the decision for rests that do not start with the version only; for the others the family tables decide.
- ScrubberProof.StructureSurvives: the regular expressions of the scrubber are any function; whether they meet its condition is not part of this model.
- ScrubberFile.Process: works on the lines after the reader's translation of line ends; the language is given, not read off the file name.
- ScrubberFile.AppliedIsClean: the second pass is over the written lines; that reading the written file gives those lines back is not stated.
- Permissions, redaction, HTTP handlers, JSON, the socket client and logging: plumbing around the modelled parts.
- The unused saveToken, token expiry, snapshots, the scheduler, role tables and password policy: easier members or foreign code.
