# Container updater: verified model

This project models the stateful core of the container updater in Dafny and proves what that core
promises: the guarded update transaction and its rollback, execution leases, the candidate store and
its reconciliation with discovery scans, the path from approval to mutation, rewriting of policy labels
in dockerMan templates, and the redacted audit chain. Four smaller cores are included as well: version
and hold arithmetic, the login limiter, the template merge and the lifecycle tables.

`dafny verify dfyconfig.toml` checks the whole project.

## How the model is organised

| module | part of the updater |
|---|---|
| `DockerWorld` | host, template, runtime calls, live revision |
| `DockerUpdate` | the transaction and its exception path as a specification; step-by-step safety |
| `DockerTheorems` | what a caller of the transaction may rely on |
| `DockerFailures` | how an update that does not return ends: where its rollback stops, what is reported, what is left |
| `LostResponses` | the transaction when calls may take effect and raise all the same |
| `DockerHost` | the transaction in place on a mutable host, proved equal to the specification |
| `Leases` | lease and operation tables shared by interleaved workers |
| `IsoTime` | stored UTC timestamp texts and their order |
| `Discovery` | risk gates, target images, normalization of a discovery row |
| `Candidates` | candidate table, upsert, supersede, resolve, reconcile |
| `Service` | decisions, approvals, the execution gate, one execute call, sequences of calls |
| `Workers` | execute calls of several workers, interleaved step by step |
| `History` | scans, decisions, admissions and mutations, interleaved statement by statement |
| `Executions` | `History` and `Workers` together: admission, leases and the runtime call |
| `VnextPolicy` | label policies, versions, change classes, holds |
| `PolicyTexts` | the texts these parsers accept, form by form |
| `TemplateLabels`, `TemplateEdit`, `TemplateReadback` | command-line label words, the template tree, read-back |
| `Evidence` | redaction, the audit chain |
| `AuditRaces` | several processes appending to one audit log |
| `LoginLimiter` | the sliding-window limiter |
| `Lifecycle` | transition tables, active decision |
| `Flavors` | choosing a tag without changing flavour |
| `TemplateMerge` | merging a shipped template into an installed one |
| `Strings` | Python text operations that the parsers share |

Where the source changes state, the model is a class or a method with loops whose contract equates the
new state with a function of the old one; the properties of the system are then lemmas about those
functions, over all inputs and all runs.

Every Docker call of the update either takes effect or raises and changes nothing. Which calls raise,
what they say, what each health poll sees, and what the daemon creates is one `Oracle` value, over
which every theorem quantifies. A run keeps every host state it passes through, so that safety is a
statement about every instant.

Label maps are finite maps, so no result depends on the order of their keys.

## Where the code does not do what it promises

Each point is a lemma, next to one that says exactly when the promise holds.

- After an update neither the original nor a replacement may run: a fault while fetching the container
  just created leaves it unbound and holding the name (`OrphanBlocksRollback`), and a refused first
  rename leaves the original stopped (`RefusedRenameIsOutage`). `NothingRunsExactly` says when this
  happens, over all fault schedules; `RollsBackExactlyWhen` and `RollbackEndsExactly` when the rollback
  succeeds.
- An update that changed nothing can be reported as a failed rollback, because the daemon refuses a
  rename to the present name: every pull of the image that already runs is
  (`EarlyRaiseReportsFailedRollback`; exact condition `FailsUnchangedExactly`).
- If the exception of a failing rollback has an empty text, the caller's message says that the rollback
  succeeded (`BlankMessageHidesOutage`; exact condition `ReportIsHonestExactly`). Which library calls
  raise such exceptions, if any, is not part of this model; the transaction's own messages are never
  empty.
- That one of the two containers always exists rests on calls that raise having no effect: if the
  response to the removal of the original is lost, both are removed (exact condition
  `NeitherExistsExactly`).
- `policy=auto` can not make a candidate ready: the change is classified on whole image references, and
  none of them is a version (`VnextIsNeverReady`; exact condition `ReadyExactlyWhen`). The documentation
  says that such updates run automatically.
- What discovery finds ready without those labels, the update refuses, because the template must have
  them (`ReadyUpdatesAreRefused`).
- A candidate can be ready with a bare tag for a target, when the live inventory leaves the container
  out (`MissingContainerGetsBareTag`; exact condition `ReadyNamesRepositoryExactly`).
- A deferral or a revocation recorded after an approval does not end the approval
  (`LaterDecisionsDoNotRevoke`), unlike the rule of the lifecycle module (`ActiveDecisionStands`).
- A worker that outlives its lease frees the lease of the worker that took the operation over
  (`LateReleaseFreesSuccessor`; exact condition `ReleaseFreesOwnExactly`), after which runtime updates of
  one container can overlap under an unexpired lease (`LateReleaseLetsUpdatesOverlap`); among workers
  that give their leases back in time they never do (`TimelyWorkersExclude`, `OverlapNeedsExpiry`).
- An operation that succeeded can run again or lose its recorded success, because the lookup comes
  before the lease (`SecondLookerLosesSuccess`; exact conditions `SuccessIsDisturbedExactly` and
  `TimelySuccessIsDisturbedExactly`); calls that do not overlap are idempotent (`OperationsRunOnce`).
- Two executions of one candidate can run at the same time, because looking for a running one and
  inserting one are two statements without a transaction around both (`RacingChecksStartTwice`; exact
  condition `SameCandidateRunsTwiceExactly`); among calls that give their leases back in time they never
  do (`TimelyRunsCandidatesOnce`).
- An `ExtraParams` element inside an owned `Label` loses what is written to it
  (`NestedParamsLoseTheEdit`; exact conditions `RuntimeReadBackExact`, `LastWriterWinsExactly`,
  `UnownedArgsKeptExactly`), and so do labels of others inside an owned one (exact condition `UnownedTextsKeptExactly`).
- A record with its own `event_hash` key breaks the audit chain (`AppendVerifiesExactlyWhen`), and so do
  two appends of which one writes between the other's reading and writing (`VerifiesExactlyWhen`).
- A policy whose source label is only whitespace is accepted and then printed without it
  (`WhitespaceSourceIsLost`; exact condition `PrintedPolicyParsesBack`).
- A change that can not be classified carries no hold (`EligibleExactlyAfterHolds`); the documentation
  asks for it to be treated as a major one.
- Two nameless discovery rows both stay active (`NamelessRowsStayActive`; exact condition
  `ActiveExactlyLive`).
- A rewritten template whose target has whitespace around it reads back as another repository (exact
  condition `RewrittenRepositoryReadsBack`).

## Model

| member | source | states |
|---|---|---|
| DockerTheorems.EveryInstantIsSafe | src/unraid_updater/docker_runtime.py:316-370 | for every fault schedule and at every instant of the transaction and its rollback: original and replacement are never both live; the original is gone only while a replacement with matching labels, a healthy poll and the pulled image id holds its name and the template points at it; names stay unique; no other container changes |
| DockerTheorems.ReturnIsHonest | src/unraid_updater/docker_runtime.py:52-57 | a normal return leaves the verified replacement alone under the name, the template's repository equal to its image, everything else as before, and a live revision different from the requested one |
| DockerTheorems.RolledBackIsHonest | src/unraid_updater/docker_runtime.py:354-370 | when the exception path runs to its end, containers and template bytes are as before, the original runs healthy under its name, and the live revision is the requested one |
| DockerTheorems.OnlyWorkingContainersStay | src/unraid_updater/docker_runtime.py:276-366 | a normal return leaves a replacement that runs and is neither starting nor unhealthy; an update none of whose twelve polls finds that does not return; a completed exception path leaves such an original |
| DockerTheorems.UpdateStartsExactly | src/unraid_updater/docker_runtime.py:287-315 | an update gets past the checks before mutation if and only if both names are well formed and differ, the target is given and plain, no call fails, and the container runs from the one image its template names, under the requested revision, with the labels the template demands |
| DockerTheorems.RollsBackExactlyWhen | src/unraid_updater/docker_runtime.py:354-368 | the rollback succeeds if and only if none of its calls raises, the original is under its rollback name or a rename to the present name is accepted, no unbound replacement holds the name, and the original is found running and not unhealthy |
| DockerTheorems.ReturnsExactlyWhen | src/unraid_updater/docker_runtime.py:319-353 | an update that passed its checks returns normally if and only if no call on its way raises, the pulled image is new, the rollback name is free, the template has one Repository, and the replacement has the labels and the pulled image id and gets healthy within twelve polls |
| DockerTheorems.UndisturbedUpdateReturns | src/unraid_updater/docker_runtime.py:282-353 | whatever the names, images, labels and digests, an update in which no call raises, the pulled image is new and the replacement is healthy at the first poll passes its checks and returns normally |
| DockerTheorems.ReadyUpdatesAreRefused | src/unraid_updater/docker_runtime.py:301-303 | an update of a container that discovery found ready is refused before mutation, if the inventory shows the template's labels |
| DockerTheorems.RewrittenRepositoryReadsBack | src/unraid_updater/docker_runtime.py:84-149 | a rewrite is refused for exactly the listed reasons; otherwise the template's repository reads back as the one written if and only if that has no whitespace around it |
| DockerFailures.RollbackEndsExactly | src/unraid_updater/docker_runtime.py:354-370 | over all fault schedules: an update rolls back if and only if it can not return, no call of the exception path raises and the original is found fit; and the caller is told so if and only if that holds or the first raising call has an empty text |
| DockerFailures.ReportIsHonestExactly | src/unraid_updater/docker_runtime.py:366-370 | "rollback=succeeded" implies a host put back if and only if the first raising call of the exception path, if any, has a text, or nothing had been changed on a healthy host, or it was the last look at a restarted original without a health check |
| DockerFailures.FailsUnchangedExactly | src/unraid_updater/docker_runtime.py:318-370 | when an update ends in a failed rollback on a host that is as before, as an if-and-only-if over all fault schedules, with or without a health check |
| DockerFailures.NothingRunsExactly | src/unraid_updater/docker_runtime.py:318-370 | when neither the original nor a replacement is live afterwards, as an if-and-only-if over all fault schedules |
| DockerFailures.OrphanBlocksRollback | src/unraid_updater/docker_runtime.py:328-370 | in every update that would have returned, a fault in fetching the created container alone makes the rollback fail with both containers stopped, the replacement under the name and the template restored |
| DockerFailures.EarlyRaiseReportsFailedRollback | src/unraid_updater/docker_runtime.py:319-370 | any raise before the original is stopped, a pull of the running image included, is reported as a failed rollback of an unchanged host when a rename to the present name is refused |
| DockerFailures.RefusedRenameIsOutage | src/unraid_updater/docker_runtime.py:325-361 | when the first rename fails and a rename to the present name is refused, nothing runs afterwards |
| DockerFailures.BlankMessageHidesOutage | src/unraid_updater/docker_runtime.py:325-370 | if that refusal has an empty text, the caller is told that the rollback succeeded |
| DockerFailures.OwnMessagesHaveTexts | src/unraid_updater/docker_runtime.py:319-366 | no message the transaction writes itself is empty, so that only an exception of a library can hide an outage |
| LostResponses.NeitherExistsExactly | src/unraid_updater/docker_runtime.py:316-361 | when calls may take effect and raise: neither the original nor a replacement exists afterwards if and only if the update would have returned, no earlier response was lost, the response to the removal of the original was, and the replacement's removal took effect |
| LostResponses.NeverBothLive | src/unraid_updater/docker_runtime.py:316-370 | whatever calls raise, with or without their effect: at no instant of the transaction and its exception path are the original and its replacement both live |
| LostResponses.NothingLost | src/unraid_updater/docker_runtime.py:318-361 | without lost responses this is the transaction of the other theorems |
| DockerTheorems.PollDoneIff | src/unraid_updater/docker_runtime.py:337-346 | polling succeeds if and only if one of at most twelve polls finds the replacement running and neither starting nor unhealthy, after polls that neither raised nor found it dead |
| DockerUpdate.MoveAsideIsSafe | src/unraid_updater/docker_runtime.py:319-327 | up to the rewritten template only the original changes, and at the end it is stopped under the rollback name with the template pointing at the target |
| DockerUpdate.ReplaceIsSafe | src/unraid_updater/docker_runtime.py:328-345 | every state from creation to verification keeps the original aside; on success the replacement is verified |
| DockerUpdate.TryBlockIsSafe | src/unraid_updater/docker_runtime.py:318-353 | the `try` body keeps every instant safe, whether it ends or raises, and ends with the original replaced |
| DockerUpdate.RollbackIsSafe | src/unraid_updater/docker_runtime.py:354-368 | from any state in which the `try` body can raise, the exception path keeps every instant safe and succeeds exactly under the stated condition |
| DockerWorld.RevisionPinsImage | src/unraid_updater/docker_runtime.py:52-57 | equal live revisions mean equal image ids and template digests, although the image text may contain the separator |
| DockerTheorems.RevisionsAgreeExactly | src/unraid_updater/docker_runtime.py:52-57 | two live revisions of texts without the separator are equal if and only if name, state, image, image id and template digest are |
| DockerHost.Host.Update | src/unraid_updater/docker_runtime.py:282-370 | the transaction in place equals the specification, and so: a refused request changes nothing; every state passed through is safe; success leaves the verified replacement alone with a changed revision; a reported rollback, if errors have texts, puts the host back |
| DockerHost.Host.Check | src/unraid_updater/docker_runtime.py:287-315 | the checks before mutation find the container to update exactly when the specification does |
| DockerHost.Host.Prepare | src/unraid_updater/docker_runtime.py:319-327 | pull, stop, rename and template rewrite in place, ending at the first call that raises |
| DockerHost.Host.Deploy | src/unraid_updater/docker_runtime.py:328-345 | create, bind, label check, start, poll and identity check in place; `created` is bound only once the fetch succeeds |
| DockerHost.Host.AwaitHealthy | src/unraid_updater/docker_runtime.py:336-343 | the bounded poll loop equals the recursive specification |
| DockerHost.Host.RunRollback | src/unraid_updater/docker_runtime.py:354-366 | the exception path in place |
| Leases.LeaseStore.AcquireLease | src/unraid_updater/execution_gate.py:104-133 | acquires exactly when no unexpired lease holds the container or the operation id; sweeps expired leases only when it succeeds; keeps an existing operation row |
| Leases.AlwaysOneLeaseEach | src/unraid_updater/execution_gate.py:104-144 | after any interleaving, no container has two lease rows |
| Leases.LeaseLasts | src/unraid_updater/execution_gate.py:104-144 | a lease stands until its operation is released or another acquisition succeeds at or after its expiry |
| Leases.LeasesExclude | src/unraid_updater/execution_gate.py:104-144 | mutual exclusion over any interleaving with ascending stamps: two acquisitions of a container hold it in disjoint intervals |
| Leases.OtherLeasesStand | src/unraid_updater/execution_gate.py:116-144 | no step on one operation removes or alters another's lease, except the sweep of an expired one by a successful acquisition; a refused one changes nothing |
| Leases.HolderIsTheLatest | src/unraid_updater/execution_gate.py:104-144 | a lease row was written by the latest successful acquisition of its operation |
| Leases.ReleaseFreesOwnExactly | src/unraid_updater/execution_gate.py:135-144 | a release frees the lease of an earlier acquisition if and only if no acquisition of the operation succeeded in between; else it frees the latest one, whose owner it names, and which came after a release or the expiry of the first |
| Leases.LateReleaseFreesSuccessor | src/unraid_updater/execution_gate.py:135-144 | concrete run: the release of an outlived lease frees the successor's unexpired lease |
| Leases.HolderStaysExactly | src/unraid_updater/execution_gate.py:104-144 | a lease row is still the one of its acquisition if and only if since then its operation was not released and no acquisition succeeded at or after its expiry |
| Workers.AloneIsExecute | src/unraid_updater/service.py:271-312 | nine steps of one worker that nobody interrupts leave the tables as the execute call does as a whole |
| Workers.SuccessIsDisturbedExactly | src/unraid_updater/service.py:273-312 | over all interleavings: a recorded success reaches the runtime again or is written over if and only if another call of that operation had looked before the record, had not recorded, and gets a lease |
| Workers.TimelySuccessIsDisturbedExactly | src/unraid_updater/service.py:273-312 | if leases are given back in time: if and only if another call looked before the record and takes its lease after it |
| Workers.UndisturbedSuccessStays | src/unraid_updater/service.py:297-306 | a recorded success and its result stay while no other call of the operation disturbs them |
| Workers.SecondLookerLosesSuccess | src/unraid_updater/service.py:273-312 | in every run in which two workers look and then update one after the other, a failure of the second is written over the success of the first |
| Workers.TimelyWorkersExclude | src/unraid_updater/service.py:279-312 | if leases are given back in time, no two calls are ever between taking and giving back a lease for one operation or one container |
| Workers.OverlapNeedsExpiry | src/unraid_updater/service.py:279-312 | two calls for one container overlap only if the first one's lease expired or another call of its operation released it, and some call outlived its lease |
| Workers.RowStandsExactly | src/unraid_updater/service.py:279-312 | when another call asks for a lease, the unexpired row of a call on its way still stands if and only if its time has not run out and no other call has released its operation in between |
| Workers.LateReleaseLetsUpdatesOverlap | src/unraid_updater/service.py:311-312 | a family of runs in which two runtime updates of one container overlap although the lease of the first has not expired |
| Workers.SameCandidateRunsTwiceExactly | src/unraid_updater/db.py:325-341 | over all interleavings: two executions of one candidate run at the same time if and only if each call looked for a running one before the other inserted its own, and neither has closed its execution |
| Workers.RacingChecksStartTwice | src/unraid_updater/db.py:325-341 | a family of runs in which a call loses its lease by time between its check and its insertion, and two executions of its candidate then run |
| Workers.TimelyCandidatesDiffer | src/unraid_updater/db.py:325-341 | if leases are given back in time and candidates have one container each, executions that run at the same time are for different candidates |
| IsoTime.TextFollowsTime | src/unraid_updater/execution_gate.py:113-119 | comparing two stored UTC texts is comparing the instants, for all instants, also when the microseconds are omitted |
| IsoTime.TextFollowsFields | src/unraid_updater/db.py:72-73 | the text order is the order of the calendar fields |
| Discovery.NormalizedGates | src/unraid_updater/policy_config.py:38-57 | exactly the four known risks; each as the ceiling prescribes, whatever is stored |
| Discovery.GateExactly | src/unraid_updater/policy_config.py:12-57 | a gate allows nothing at any risk but low, there the stored changes that are known or else patch and minor; research is as stored or else waived at low risk only; manual review is never waived above low risk |
| Discovery.OnlyLowRiskOpens | src/unraid_updater/policy_config.py:48-50 | a gate that allows a change, or waives manual review, is the low-risk one |
| Discovery.RetargetingKeepsRepository | src/unraid_updater/wud.py:48-55 | retargeting a retargeted reference equals retargeting the first if and only if the tag, up to its last @, has neither colon nor slash, and the repository has no @ or the tag has one |
| Discovery.ReadyIsConservative | src/unraid_updater/wud.py:93-112 | a ready row has low risk, a small change and policy, a running unpaused container, no vNext labels, and as candidate the repository of the live image with the new tag |
| Discovery.ReadyNamesRepositoryExactly | src/unraid_updater/wud.py:48-92 | that candidate is more than a bare tag if and only if the live image has a repository part |
| Discovery.MissingContainerGetsBareTag | src/unraid_updater/wud.py:64-112 | a container that is missing from the inventory becomes ready with a bare tag |
| Discovery.ReadyExactlyWhen | src/unraid_updater/wud.py:85-112 | a row is ready if and only if it offers a tag for a running, unpaused container, with a patch or minor difference, no vNext label, low risk, patch or minor policy, each decided by override, template label, reported label or default, and the stored low gate lets that difference through |
| Discovery.OperatorDecidesFirst | src/unraid_updater/wud.py:72-104 | risk and policy of a row are the operator's override if that is not empty, else the template's label, else the reported one, else medium and manual; incomplete vNext labels make it critical; an overridden risk other than low is never ready |
| Discovery.ColumnsAreDiscovered | src/unraid_updater/wud.py:63-146 | which of the reported and the inventoried values each column of a row has, and that a candidate by tag is the live image's repository with that tag |
| Discovery.VnextIsNeverReady | src/unraid_updater/wud.py:93-100 | a container with a valid vNext policy is never ready, and its change is always unknown |
| Candidates.CandidateStore.UpsertCandidate | src/unraid_updater/db.py:118-157 | inserts under the content's revision or refreshes the row that has it; returns its id |
| Candidates.CandidateStore.SupersedeOlderCandidates | src/unraid_updater/db.py:384-393 | marks exactly the active rows of the container with another revision |
| Candidates.CandidateStore.ResolveMissingCandidates | src/unraid_updater/db.py:308-323 | resolves exactly the active rows not seen, and every row when nothing was seen |
| Candidates.CandidateStore.ReconcileRows | src/unraid_updater/service.py:108-127 | the loop over a snapshot equals the fold of its available rows, then resolving |
| Candidates.ReconcileReaches | src/unraid_updater/service.py:108-127 | the status of every row after a reconciliation, from its status before; no row is lost, every seen revision is there, and nothing else is added |
| Candidates.ColumnsAreTheLastItems | src/unraid_updater/db.py:118-157 | after a reconciliation the row of every revision seen has container, state, image, target, change, policy and risk of the last item with that revision, and every other row keeps its columns |
| Candidates.ActiveExactlyLive | src/unraid_updater/service.py:108-127 | after a reconciliation the active candidates of a container are those of its items from the last named one on; there is exactly one if and only if these have one revision; no row is lost |
| Candidates.OneActiveCandidate | src/unraid_updater/service.py:108-127 | for every container but the one nameless rows are filed under, the active candidate is the one of its last row with an update: exactly one if there is such a row, none otherwise |
| Candidates.RepeatedScanIsStable | src/unraid_updater/service.py:108-127 | the same snapshot again adds no row and changes no status |
| Candidates.ItemsAreDiscovered | src/unraid_updater/wud.py:63 | every item made of a discovery row is filed under its name, or under "unknown" without one |
| Candidates.NamelessRowsStayActive | src/unraid_updater/service.py:112-125 | two nameless discovery rows with different digests both stay active, whatever the table held |
| Service.UpdaterService.Decide | src/unraid_updater/db.py:180-201 | records a decision exactly for the current revision, an approval only of a ready candidate, with 24 hours to live |
| Service.ActiveApproval | src/unraid_updater/db.py:203-211 | finds an unexpired approval of exactly this candidate and revision if there is one |
| Service.LaterDecisionsDoNotRevoke | src/unraid_updater/db.py:203-211 | appending deferrals and revocations leaves the active approval as it was |
| Service.GateOpensExactlyWhen | src/unraid_updater/execution_gate.py:38-63 | the gate opens if and only if every precondition holds, and names exactly the violated ones, each once |
| Service.ReasonsAreOrdered | src/unraid_updater/execution_gate.py:38-63 | the violated preconditions are named in one order, a missing live revision last |
| Service.AdmittedExactly | src/unraid_updater/service.py:240-270 | an execution is admitted, and to which container, target and approval, if and only if the candidate has the requested revision and is ready, running, unpaused, with a target and not the updater, and the approval is the newest one in force |
| Service.ScannedReadyIsAdmittedExactly | src/unraid_updater/service.py:108-270 | a candidate that a scan has just found ready is admitted for its container and image if and only if the request is for its revision, an approval of it is in force, and it is neither paused nor the updater itself |
| Service.ApprovalLastsADay | src/unraid_updater/db.py:180-211 | a decision brings an approval into force if and only if it approves, for that candidate and revision alone and for 24 hours |
| Service.UpdaterService.StartExecution | src/unraid_updater/db.py:325-341 | refuses exactly while an execution of the candidate is running |
| Service.UpdaterService.ExecuteRequest | src/unraid_updater/service.py:221-312 | state and answer of one execute call, on every way out |
| Service.RuntimeIsReachedExactly | src/unraid_updater/service.py:271-297 | the runtime is called, once and with what was admitted, if and only if the operation is neither finished nor running, no unexpired lease holds the container or the operation, and no execution of the candidate runs |
| Service.OutcomeIsRecorded | src/unraid_updater/service.py:283-312 | a call that reached the runtime appends one execution row and records its operation: as succeeded with the result it answers, or as failed with the message of what it raises |
| Service.RefusalFinishesNothing | src/unraid_updater/service.py:271-310 | a call that does not reach the runtime changes no execution row and finishes no operation |
| Service.AnswerIsRecordedExactly | src/unraid_updater/service.py:271-312 | the caller is answered with a result if and only if it was admitted and the operation's row holds that result as its success, from before or from the runtime call just made |
| Service.ExecuteStep | src/unraid_updater/service.py:271-312 | one call keeps: no lease held, no execution running, a successful runtime call is recorded and final; a finished operation answers with its stored result or an error and changes nothing |
| Service.AlwaysQuiet | src/unraid_updater/service.py:283-312 | after any sequence of calls that do not overlap, no lease is held and no execution is running |
| Service.OperationsRunOnce | src/unraid_updater/service.py:271-312 | over any such sequence, an operation that succeeded never reaches the runtime again |
| Service.StoredResultStays | src/unraid_updater/service.py:273-276 | the stored result of a finished operation never changes |
| History.ScanIsReconciliation | src/unraid_updater/service.py:108-127 | the statements of a scan that nothing interrupts are the reconciliation |
| History.TablesStayGood | src/unraid_updater/db.py:118-157 | after any interleaving of statements, revisions pin container, image, target, policy and risk, are unique, and are ready only at low risk |
| History.RowsStay | src/unraid_updater/db.py:141-157 | candidate ids keep their revision for ever |
| History.ApprovalsWereRecorded | src/unraid_updater/db.py:180-201 | every stored approval was inserted after its actor's checks found a ready candidate with that revision |
| History.ProgressWasMade | src/unraid_updater/service.py:240-254 | what an execution goes by was read before: the candidate's row with that revision, and later an approval in force for it |
| History.MutationsWereApproved | src/unraid_updater/service.py:236-296 | over all interleavings of the statements of scans, decisions and executions: each mutation goes by an approval of exactly that candidate and revision, unexpired when found, and container, target, image, policy and risk at mutation are those at approval, with risk low |
| Executions.WorkersAreAdmitted | src/unraid_updater/service.py:240-297 | over all interleavings of statements and of the steps of several executions, a worker past its lookup holds a ticket for what it works on |
| Executions.TimelyRunsCandidatesOnce | src/unraid_updater/service.py:240-296 | over all interleavings with scans and decisions: if leases are given back in time, no candidate has two running executions |
| Executions.RuntimeGetsWhatWasApproved | src/unraid_updater/service.py:236-297 | what the runtime is called with is justified by an approval as above, under a lease taken before; if leases are given back in time, no other worker holds one for that container |
| VnextPolicy.PrintedPolicyParsesBack | src/unraid_updater/vnext_policy.py:45-85 | printing an accepted policy and parsing it again gives the policy, if and only if its source is not the empty text |
| VnextPolicy.WhitespaceSourceIsLost | src/unraid_updater/vnext_policy.py:61-82 | every accepted label map whose source label is whitespace only fails to round-trip |
| VnextPolicy.ColonIsNoVersion | src/unraid_updater/vnext_policy.py:100-111 | no text with a colon is a version |
| PolicyTexts.VersionFormsExactly | src/unraid_updater/vnext_policy.py:100-111 | a text is a version if and only if, stripped, it is an optional v, two or three dotted numbers and an identifier, which are the version's numbers in that order |
| PolicyTexts.PrintedVersionIsRead | src/unraid_updater/vnext_policy.py:100-111 | a version printed in decimal is read back number by number |
| PolicyTexts.PolicyLabelsExactly | src/unraid_updater/vnext_policy.py:45-72 | a label map parses to a policy if and only if each label is given in one of its forms, which are that policy's parts |
| VnextPolicy.ChainClassIsWorstStep | src/unraid_updater/vnext_policy.py:113-120 | along any ascending chain of versions, the class from first to last is the worst class of a step |
| VnextPolicy.ChainCannotShortenHold | src/unraid_updater/vnext_policy.py:128-147 | with ordered holds, or an override, the target is held at least as long as any step in between, from the line release and from the exact release |
| PolicyTexts.HoldFollowsNumbers | src/unraid_updater/vnext_policy.py:113-147 | the first of the three numbers that differs decides class and days, an override the days; the target is eligible once that many days have passed since every known release |
| PolicyTexts.UnreadableIsNotHeld | src/unraid_updater/vnext_policy.py:113-135 | a change of which one side is no version is unclassified and carries no hold |
| VnextPolicy.EligibleExactlyAfterHolds | src/unraid_updater/vnext_policy.py:96-98 | eligible if and only if every known hold has passed, or the change has no class |
| VnextPolicy.DiffIsExact | src/unraid_updater/label_edit.py:116-120 | the difference shown is empty if and only if both sides carry the same policy labels, and carrying it over turns one side's policy labels into the other's |
| TemplateLabels.WithoutOwnedLabels | src/unraid_updater/label_edit.py:123-146 | the filter loop keeps exactly the arguments that are not owned, in order, and refuses a dangling flag |
| TemplateLabels.EditorLabels | src/unraid_updater/label_edit.py:69-88 | the editor's reading loop equals reading the scanned arguments with stripped keys |
| TemplateLabels.RuntimeLabels | src/unraid_updater/docker_runtime.py:113-127 | the runtime's reading loop equals reading the scanned arguments with keys as they are |
| TemplateLabels.ScanOfFlatten | src/unraid_updater/label_edit.py:123-146 | words written from complete arguments are scanned back with the same pairing, whatever follows |
| TemplateLabels.ScanIsComplete | src/unraid_updater/label_edit.py:73-84 | scanning loses no word |
| TemplateEdit.ApplyPolicyLabels | src/unraid_updater/label_edit.py:149-176 | the rewritten tree, or the refusal, of the specification |
| TemplateEdit.PruneKeepsParams | src/unraid_updater/label_edit.py:171-176 | pruning owned labels keeps and commutes with writing an `ExtraParams` that is not inside one |
| TemplateEdit.PruneDropsParams | src/unraid_updater/label_edit.py:171-176 | what is written into an `ExtraParams` inside an owned label leaves no trace: the pruned tree is that of the template before |
| TemplateEdit.PrunedParams | src/unraid_updater/label_edit.py:171-176 | the first `ExtraParams` after pruning is the first one before it that is not inside an owned label |
| TemplateReadback.ScanOfNewWords | src/unraid_updater/label_edit.py:163-169 | the words written are read as the arguments kept, then the new ones |
| TemplateReadback.NewWordsExactly | src/unraid_updater/label_edit.py:123-166 | `ExtraParams` is left with the kept words and, behind them, one setting for each wanted policy label, in alphabetical order |
| TemplateReadback.RuntimeReadBackExact | src/unraid_updater/docker_runtime.py:95-127 | the updater's labels read back at run time are exactly those applied, for all label maps, if and only if the first `ExtraParams` is not inside an owned label and the root is not one |
| TemplateReadback.EditorReadBackExact | src/unraid_updater/label_edit.py:91-106 | the same for the editor's reader, if and only if, in addition, no kept argument has a padded updater key |
| TemplateReadback.LostWrite | src/unraid_updater/label_edit.py:149-176 | where pruning takes the `ExtraParams` away, the edit is nothing but the pruning, whatever the labels |
| TemplateReadback.NestedParamsLoseTheEdit | src/unraid_updater/label_edit.py:171-176 | a concrete accepted template that loses the edit |
| TemplateReadback.UnownedArgsKept | src/unraid_updater/label_edit.py:123-176 | wherever the edit survives, every argument the updater does not own is kept in order and with the same pairing |
| TemplateReadback.UnownedArgsKeptExactly | src/unraid_updater/label_edit.py:123-176 | for every accepted template: the arguments the updater does not own read as before if and only if the edit survives, or the first `ExtraParams` outside owned labels holds the same ones |
| TemplateReadback.UnownedTextsKeptExactly | src/unraid_updater/label_edit.py:171-176 | the Label elements the updater does not own keep their texts if and only if none of them lies inside an owned one |
| TemplateReadback.UnownedLabelsKept | src/unraid_updater/label_edit.py:123-176 | under these two conditions every label the updater does not own reads back as before |
| TemplateReadback.EditKeyByKey | src/unraid_updater/label_edit.py:149-176 | where the edit survives, a template reads afterwards what was applied under the six policy keys, nothing under any other key with the updater's prefix, and what it read before under every other key |
| TemplateReadback.UnownedLabelsKeptExactly | src/unraid_updater/docker_runtime.py:95-127 | where the edit survives: they do if and only if, for each key that no argument gives, the last Label element for it has the value of the last one outside owned labels |
| TemplateReadback.LastWriterWins | src/unraid_updater/label_edit.py:149-176 | applying one map after another equals applying the later; in particular applying twice is applying once |
| TemplateReadback.LastWriterWinsExactly | src/unraid_updater/label_edit.py:149-176 | this holds of a template for all pairs of maps if and only if its first `ExtraParams` is not inside an owned label |
| TemplateReadback.PolicyReadsBack | src/unraid_updater/vnext_policy.py:45-71 | where read-back is exact, the policy read back is the one of the applied map unless an empty changelog-summary was all that made that map invalid |
| TemplateReadback.AcceptedPolicyReadsBack | src/unraid_updater/vnext_policy.py:45-71 | for every map that the parser accepts, the template's policy after the edit is that map's |
| Evidence.RedactTwice | src/unraid_updater/evidence.py:39-46 | redaction is idempotent on every JSON tree |
| Evidence.RedactionsAgree | src/unraid_updater/evidence.py:39-46 | two values have equal redactions if and only if they differ at most below keys that contain one of the ten words, at any depth |
| Evidence.RedactionConceals | src/unraid_updater/evidence.py:13-46 | at any depth, the value below a key that contains one of the ten words, in whatever case, is replaced, and all the rest is shown as it was |
| Evidence.AppendedConceals | src/unraid_updater/evidence.py:83-94 | an append adds one record, linked to the hash before it, in which nothing below such a key is written and all the rest is |
| Evidence.HashHidesOnlySecrets | src/unraid_updater/evidence.py:79-80 | two records have equal hashes if and only if they differ at most below secret keys |
| Evidence.LinkKeysArePublic | src/unraid_updater/evidence.py:83-94 | the chain's own keys are never redacted |
| Evidence.SomeDigestIsCollisionFree | src/unraid_updater/evidence.py:49-80 | the assumption of the results on hashes can be met: writing records out is a digest without collisions |
| Evidence.AuditLog.Append | src/unraid_updater/evidence.py:83-94 | the log grows by the redacted, linked and hashed record, in which nothing below a secret key shows; earlier records stay |
| Evidence.AuditLog.Verify | src/unraid_updater/evidence.py:97-112 | the loop accepts exactly the logs all of whose records are linked |
| Evidence.VerifiesRecordByRecord | src/unraid_updater/evidence.py:97-112 | a log verifies if and only if each record names the hash of the one before it, which the first may leave out, and carries the hash of the rest of itself |
| Evidence.AppendVerifiesExactlyWhen | src/unraid_updater/evidence.py:83-112 | appending to a verifying log gives a verifying log if and only if the record has no event_hash key of its own |
| AuditRaces.VerifiesExactlyWhen | src/unraid_updater/evidence.py:83-112 | over all interleavings of several appenders: the log still verifies if and only if no line was written between the reading of the last hash and the writing of another, and no record has its own `event_hash` key |
| AuditRaces.AloneIsAppended | src/unraid_updater/evidence.py:83-94 | reading and writing with nothing in between is the append of `AuditLog` |
| Evidence.SameHashSameLog | src/unraid_updater/evidence.py:97-112 | two verifying logs with the same final hash have the same length and, record by record, the same redaction |
| Evidence.PublicChangeShows | src/unraid_updater/evidence.py:97-112 | changing a record outside secret keys breaks verification or changes the final hash |
| LoginLimiter.Limiter.Limited | src/unraid_updater/web.py:85-93 | answer and queues after one attempt |
| LoginLimiter.QueueIsRecentHistory | src/unraid_updater/web.py:83-93 | the queue is the end of the accepted history; what it lost has left the window |
| LoginLimiter.RefusedExactlyWhenFull | src/unraid_updater/web.py:85-93 | an attempt is refused if and only if eight attempts of that remote were accepted, over the full history, in the closed 300 seconds before it |
| LoginLimiter.AtMostEightPerWindow | src/unraid_updater/web.py:85-93 | no closed window of 300 seconds holds more than eight accepted attempts of a remote |
| Lifecycle.ExecutionsAreOrderly | src/unraid_updater/domain/state_machine.py:46-61 | every execution run has at most seven transitions, repeats no state, ends exactly in terminal states, prepares the backup before mutation and verifies before success |
| Lifecycle.ExecutionReachedFrom | src/unraid_updater/domain/state_machine.py:46-61 | from which states each state of an execution is reached |
| Lifecycle.ApprovedOnce | src/unraid_updater/domain/state_machine.py:13-44 | a candidate run of any length enters approved at most once, only from approval_ready, and takes at most one step afterwards |
| Lifecycle.CandidateReachedFrom | src/unraid_updater/domain/state_machine.py:13-44 | from which states each state of a candidate is reached |
| Lifecycle.ActiveApprovalDecision | src/unraid_updater/domain/state_machine.py:86-95 | the loop finds what searching from the end finds |
| Lifecycle.ActiveDecisionStands | src/unraid_updater/domain/state_machine.py:86-95 | a decision is active if and only if it was an approve or defer with neither revoke nor another decision after it |
| Flavors.BestIsNewest | src/unraid_updater/domain/policy.py:50-60 | the choice is a newest newer tag of the installed flavour, and there is none if and only if the list has none |
| Flavors.BestComesFirst | src/unraid_updater/domain/policy.py:50-60 | among equally new tags the choice is the first in the published list |
| Flavors.TagIsRead | src/unraid_updater/domain/policy.py:15-36 | the version of a tag is its first two or three dotted numbers in that order, and its flavour what follows them in lower case, numbered `-ls` builds being one flavour |
| Flavors.VersionExistsExactly | src/unraid_updater/domain/policy.py:15-20 | a tag has a version if and only if a dot stands between two digits in it |
| Flavors.ListIsExhausted | src/unraid_updater/domain/policy.py:50-60 | one upgrade exhausts a tag list |
| Flavors.UpgradesKeepFlavour | src/unraid_updater/domain/policy.py:23-60 | over any run of upgrades against any lists, the flavour stays and versions strictly increase |
| TemplateMerge.Tree.Merge | scripts/merge_unraid_template.py:10-26 | the remove and insert loop over the live children equals the pointwise map |
| TemplateMerge.InstalledValuesWin | scripts/merge_unraid_template.py:14-26 | a shipped Config whose target is installed becomes the last installed Config with it, in its place; every other child is unchanged |
| TemplateMerge.MergeTwice | scripts/merge_unraid_template.py:14-26 | merging the result with the same installed template changes nothing |

## Left out

- SecondLookerLosesSuccess: a family of runs; the condition for all runs is `SuccessIsDisturbedExactly`.
- ApplyPolicyLabels: the tree is edited on values, not in place; text after elements, indentation and the order of attributes are not modelled.
- Merge: likewise without indentation; elements are identities with immutable content.
- HTTP routes, sessions, pages, the command line and settings; the network clients of discovery, research and model services: their results are arbitrary inputs.
- SQLite, the Docker SDK, XML parsing, shell quoting, JSON text and SHA-256: tables are maps and sequences, failing calls change nothing, splitting inverts joining of words, hashes are collision-free or are represented by what they cover.
- File durability and paths: a write happens or fails; finding the one template of a container is a flag; copying the backup over the template is one step.
- The health a stopped container goes on showing: it is as before the stop, and starts over with the container.
- Changes to the template by others during an update, and containers of the host that change by themselves, apart from what polls and reloads find.
- Workers: what a call was admitted to do is given there; `History` has the admission, and `Workers.AloneIsExecute` connects the two.
- Crashes inside an execution, and failures of audit or store writes after a successful update: the code has no recovery for them.
- Imported candidates with an explicit revision hash, which the content does not determine.
- Reason codes, scan summaries and projections; columns of a candidate that no decision reads.
- The execution history row of a refused start, and the operation key behind an operation id: ids are given.
- Splitting of the audit file into lines.
- Digits and letter case beyond ASCII, and line breaks inside tags.
- Bump types, classification and soak times, resolver, scheduler and configuration checks, which would add easy members only.
