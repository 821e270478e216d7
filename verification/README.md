# Remoeba's durable state, verified

Remoeba keeps an organism's state in a set of tables, an append-only hash-chained
event log and receipts. Everything is written through one writer. This project models
the parts of that machinery that are protocols rather than plumbing, and proves what
they promise over every input, every run and every schedule:

* **The leased work queue** (`WorkQueue`, `WorkRepo`, `WorkRuns` and the modules that
  import it, `WorkLaws` among them): admission, leases with fencing tokens, completion, failure,
  cancellation, expiry, restart, dependency retirement. The table is a projection of
  the log; tokens fence for good; retries end; dependencies never wedge the queue;
  dispatch and leasing agree; the board tells the truth about attempts.
* **Snapshots and restart** (`Snapshots`, `SnapshotRuns`, `SnapshotLaws`,
  `MindRecovery`): reference counts are conserved and nothing survives a restart holding anything.
* **The writer and the hash chain** (`HashChain`, `StateWriter`, `WriterHistory`,
  `WriterLaws`, `Interleaving`, `WriterProgress`): one call is one transaction; threads
  that interleave at every sub-step linearise, and none blocks the others for good; the chain is complete and tamper-evident.
* **The prompt library** (`PromptModel`, `ProfileRefs`, `PromptStore`,
  `PromptLineage`, `PromptLaws`, `Resolver`, `Cascade`, `CascadeLaws`, `CascadeApply`,
  `PromptRuns`, `Seams`): versions
  that pin exact parents, resolution, and cascades that rebase a subtree. A stored
  version means the same for ever; a planned cascade comes true exactly.
* **Four smaller machines** (`Retention`, `Disputes` with `DisputeLaws`, `Utf8Text`,
  `RpcRelay`):
  retention sweeps and what they settle on, one open dispute for each subject,
  strict UTF-8 behind a byte cap, and error relaying over any number of hops.

Each verb is a function from a state to a state and an outcome. A class with the same
fields as the source's object updates them in place, and each of its methods is proved
equal to that function. The theorems are about runs of those functions; the modules
named for laws say what each verb stores, column by column. A verb that
raises is an outcome with the state as it was, which is what the transaction's rollback
gives. Time, drawn ids, the digest and the hash are parameters.

## Where the code and its documentation part

* `verify_chain` is documented as having two redundant checks
  (`src/remoeba/store/events.py:262-274`). The recomputed hash alone does catch
  excision and reordering (`HashChain.HashAloneCatchesExcision`), but the other check
  is not redundant: `HashChain.PrevHashCheckIsNeeded` gives the edit only it sees, and
  `HashChain.PrevHashCheckAddsExactly` says which logs those are.
* Selected does not imply approved: `PromptRuns.SelectedStaysApprovedIff`.
* A namespace component may end in a newline: `PromptModel.AcceptedIsPlainWithoutNewline`.
* NaN passes the range checks of a model variable: `PromptModel.RangeHoldsUnlessNaN`.
* A lineage reference has several spellings: `ProfileRefs.ParseThenPrint`.
* `suffix_after` reproduces the profile only below appending and inheriting levels:
  `Resolver.SuffixFaithfulIff`.
* A stored version can be refused when resolved (`Seams.StoredButRefused`), and a
  cascade can carry a child into refusal (`Seams.CascadeCanRefuse`);
  `Seams.WrittenResolvesIff` and `Seams.CascadeResolvesIff` say exactly when.
* Recovery requeues past the attempt cap (`WorkRetries.RecoveryIgnoresTheCap`),
  exactly when it finds a last attempt leased: `WorkRetries.CapHoldsIff`.
* A read receipt can record a version that is never committed
  (`Interleaving.UncommittedVersionCanBeRecorded`), exactly when it is taken between
  a call's bump and its COMMIT: `Interleaving.RecordedVersionCommittedIff`.
* A dispute can be opened about a claim that is no longer made:
  `Disputes.AboutSomethingKeptIff`.
* A truncated read forgives up to three bytes of any kind:
  `Utf8Text.CutReadForgivesThreeBytes`.
* A relayed detail called "self" loses the whole error: `RpcRelay.RelayRefusedIff`.

## Model

| member | source | states |
|---|---|---|
| WorkRepo.Repo.constructor | src/remoeba/store/work_repo.py:36-44 | an empty, well-stored queue |
| WorkRepo.Repo.DepStates | src/remoeba/store/work_repo.py:190-197 | one entry for each dependency: the status of its row, or None if there is no such row |
| WorkRepo.Repo.Ready | src/remoeba/store/work_repo.py:199-209 | dispatch readiness is exactly "every dependency is done" |
| WorkRepo.Repo.DepsSatisfied | src/remoeba/store/work_repo.py:264-269 | the lease asks row by row, with an early exit, the same predicate that dispatch asks |
| WorkRepo.Repo.UnreachableDeps | src/remoeba/store/work_repo.py:211-214 | exactly the dependencies that are missing, failed or cancelled |
| WorkRepo.Repo.Admit | src/remoeba/store/work_repo.py:46-114 | the three refusals, the replay, or a new queued row under the drawn id with token and attempt 0; nothing else changes, and the drawn id is returned in any case |
| WorkRepo.Repo.Lease | src/remoeba/store/work_repo.py:124-187 | claims the first ready row among the first twenty matching ones, raising its attempt and token by one; otherwise claims nothing |
| WorkRepo.Repo.FirstSatisfied | src/remoeba/store/work_repo.py:159-187 | the first row of the window whose dependencies are all done |
| WorkRepo.Repo.Claim | src/remoeba/store/work_repo.py:159-187 | the claimed row changes as a lease changes it, with one event carrying the new token and attempt |
| WorkRepo.Repo.NextReady | src/remoeba/store/work_repo.py:216-226 | the first ready row of its class among the first fifty |
| WorkRepo.Repo.RenewLease | src/remoeba/store/work_repo.py:271-282 | moves the deadline exactly when owner, token and leased status all match |
| WorkRepo.Repo.AuthoriseToolCall | src/remoeba/store/work_repo.py:284-320 | the four refusals in order, or the grant read from the row |
| WorkRepo.Repo.Complete | src/remoeba/store/work_repo.py:342-406 | replay, unknown, fenced with a rejection event, or done with the result; a row that is queued again still accepts the token it carries |
| WorkRepo.Repo.Fail | src/remoeba/store/work_repo.py:408-458 | replay, unknown, fenced with a rejection event, or requeued below the cap and failed at it |
| WorkRepo.Repo.Cancel | src/remoeba/store/work_repo.py:460-474 | a row that has not ended is cancelled under a new token; the event is written even if there is no such row or it has ended |
| WorkRepo.Repo.ExpireRow | src/remoeba/store/work_repo.py:493-517 | one overdue row: requeued, or failed when its attempts are spent, with its events |
| WorkRepo.Repo.ExpireRows | src/remoeba/store/work_repo.py:486-518 | all listed rows expire, each once, and the log gains their events in order |
| WorkRepo.Repo.ExpireLeases | src/remoeba/store/work_repo.py:476-525 | exactly the overdue leases expire, and they are the ids returned |
| WorkRepo.Repo.Recover | src/remoeba/mind.py:155-165 | every leased row is requeued under a new token, whatever its attempt count, and the two recovery events are written |
| WorkRepo.Repo.RequeueRows | src/remoeba/mind.py:155-165 | exactly the listed rows are requeued |
| WorkRepo.Repo.ScanBlocked | src/remoeba/store/work_repo.py:235-244 | the queued rows with a dead dependency, each with its dead dependencies, in table order |
| WorkRepo.Repo.RetireScanned | src/remoeba/store/work_repo.py:246-262 | acts on a scan that may be out of date: rows no longer queued are left alone though their events are written |
| WorkRepo.Repo.RetireRow | src/remoeba/store/work_repo.py:247-259 | one scanned row: failed if still queued, its event written in any case |
| WorkRepo.Repo.RetireBlocked | src/remoeba/store/work_repo.py:228-262 | scan and retire; returns the scanned ids |
| WorkQueue.SortRows | src/remoeba/store/work_repo.py:153-156 | sorting permutes: no row lost, none invented |
| WorkRuns.StepMoves | src/remoeba/store/work_repo.py:124-525 | one verb moves one stored row by at most one legal move, and by exactly the one named |
| WorkRuns.RetireMoves | src/remoeba/store/work_repo.py:246-262 | a retirement, however stale its scan, changes only queued rows it lists, and each once |
| WorkRuns.LeasePicks | src/remoeba/store/work_repo.py:153-187 | what a lease claims was queued, matched the request and had all dependencies done |
| WorkRuns.NewRow | src/remoeba/store/work_repo.py:86-108 | rows appear only by admission, start queued, and depend on rows already stored |
| WorkRuns.ReturnedIdIsStoredIff | src/remoeba/store/work_repo.py:84-114 | a freshly drawn id that admission returns names a row, from then on, exactly when the admission took effect; on a replay it names none |
| WorkRuns.RunStores | src/remoeba/store/work_repo.py:86-100 | in every reachable state each row is listed once, at its own row number |
| WorkDependencies.RunDeps | src/remoeba/store/work_repo.py:75-83 | in every reachable state: edges point to earlier rows, started items have all dependencies done, rows are well-shaped, and every outstanding scan names dependencies that are dead for good |
| WorkDependencies.NeverWedged | src/remoeba/store/work_repo.py:228-269 | queued work and no lease outstanding: some queued item is ready, or retirement finds one to fail |
| WorkDependencies.LeasedMeansSettled | src/remoeba/store/work_repo.py:159-187 | once an item has been leased all its dependencies are done in every later state |
| WorkDependencies.AttemptsGrow | src/remoeba/store/work_repo.py:124-187 | attempt and token of a row never go down, and its dependencies never change |
| WorkDependencies.EndedStays | src/remoeba/store/work_repo.py:364-471 | no verb changes a row that has ended |
| WorkDependencies.DoomedIsReachability | src/remoeba/store/work_repo.py:211-214 | an item can never run exactly if queued items lead from it to a dead one |
| WorkDependencies.SweepFails | src/remoeba/store/work_repo.py:228-262 | one undisturbed sweep fails exactly the queued rows with a dead dependency |
| WorkDependencies.SweepKeepsDoom | src/remoeba/store/work_repo.py:228-262 | a sweep changes nobody's fate: doomed before exactly if failed now or doomed after |
| WorkDependencies.RetirementIsExact | src/remoeba/store/work_repo.py:228-262 | sweeping until nothing is found fails exactly the doomed items, leaves every other row as it was, and ends |
| WorkProjection.ExpiryReplays | src/remoeba/store/work_repo.py:486-518 | the one or two events of an expiry read back as that expiry, for any batch |
| WorkProjection.RetireReplays | src/remoeba/store/work_repo.py:246-262 | the events of a retirement, written even for rows it did not touch, read back as what it did |
| WorkProjection.ListedAreNotLeased | src/remoeba/store/work_repo.py:235-262 | a row on any outstanding scan is never leased again, so a stale failure event cannot be misread |
| WorkProjection.TableIsProjectionOfLog | src/remoeba/store/work_repo.py:86-525 | in every reachable state, restarts included, each row's status, owner, token and attempt are the replay of the event log |
| WorkFencing.StepLogs | src/remoeba/store/work_repo.py:159-187 | the log only grows; a new lease event carries the next token, a new completion the current one |
| WorkFencing.LeasedTokensIncrease | src/remoeba/store/work_repo.py:124-187 | the tokens leased for one item strictly increase along the log |
| WorkFencing.TokenHasOneHolder | src/remoeba/store/work_repo.py:124-187 | a leased token names one lease, hence one neuocyte |
| WorkFencing.SupersededTokenIsInert | src/remoeba/store/work_repo.py:271-458 | a token below the row's can never again change a row, renew or be authorised, in any continuation |
| WorkFencing.EndedForever | src/remoeba/store/work_repo.py:364-473 | done, failed and cancelled rows stay as they are in every continuation |
| WorkFencing.ResultWrittenOnce | src/remoeba/store/work_repo.py:364-396 | a row is done exactly when one completion of it was logged; there is never a second, and the stored result and token are that one's |
| WorkRetries.AttemptsBounded | src/remoeba/store/work_repo.py:29-33 | attempt never exceeds the cap plus the recoveries that requeued the item |
| WorkRetries.StepSpends | src/remoeba/store/work_repo.py:438-518 | without recovery every status change strictly lowers a budget that nothing raises |
| WorkRetries.RetriesTerminate | src/remoeba/store/work_repo.py:438-518 | without recovery: the cap holds, and an item changes status at most twice the cap, in any run |
| WorkRetries.CapLostIff | src/remoeba/mind.py:155-165 | a row within the cap leaves it in one step exactly if that step is a restart and the row is leased for its last attempt |
| WorkRetries.CapHoldsIff | src/remoeba/mind.py:155-165 | along a run the cap holds throughout exactly if no restart finds the item leased for its last attempt |
| WorkRetries.RecoveryIgnoresTheCap | src/remoeba/mind.py:155-165 | the bound is attained: for every n some run leases the item for attempt cap + n after exactly n requeuing recoveries |
| Dispatch.SortRowsSorts | src/remoeba/store/work_repo.py:153-156 | the listing is ordered by priority, age and insertion, and holds the same rows |
| Dispatch.PositionIsAhead | src/remoeba/store/work_repo.py:216-226 | a row's position in the listing is the number of matching rows ahead of it |
| Dispatch.WindowSearch | src/remoeba/store/work_repo.py:153-226 | a windowed search succeeds exactly if a claimable row lies inside the window, and finds the one before all other claimable ones |
| Dispatch.DispatchServesFirstReady | src/remoeba/store/work_repo.py:216-226 | dispatch names the first ready item in priority-then-age order, or none exactly if fifty rows stand ahead of each |
| Dispatch.LeaseFollowsDispatch | src/remoeba/store/work_repo.py:124-226 | leasing the named id in the same state always claims it |
| Dispatch.UntargetedLeaseSeesTwenty | src/remoeba/store/work_repo.py:153-156 | a lease naming no item claims what dispatch names exactly if fewer than twenty rows are ahead of it |
| WorkLaws.AdmissionStores | src/remoeba/store/work_repo.py:75-114 | an admission is refused, replayed or committed exactly when its class, board access, dependencies, mutation id and drawn id say so; committed, the row holds the requested dependencies, class, priority and every column of the grant, the given time, status queued, attempt and token 0 |
| WorkLaws.RequestStays | src/remoeba/store/work_repo.py:86-108 | in every run each stored row goes back to an admission and still holds the dependencies, class, priority, grant and time of that request |
| WorkLaws.OneAdmission | src/remoeba/store/work_repo.py:86-108 | there is only one such admission |
| WorkLaws.NeverLeasedEarly | src/remoeba/store/work_repo.py:159-187 | no run leases an item before every dependency named in its admission request is done |
| WorkLaws.AuthorisedAsAdmitted | src/remoeba/store/work_repo.py:284-320 | whatever ran in between, an authorisation returns the grant of the admission request of the item |
| WorkLaws.LeaseHandsOver | src/remoeba/store/work_repo.py:159-187 | a claimed row was queued, of the class and id asked for, with every dependency done; it gets the neuocyte, the deadline and one more attempt and token, and one event says so |
| WorkLaws.RenewalMovesDeadline | src/remoeba/store/work_repo.py:271-282 | exactly the holder of the lease moves its deadline, and nothing else moves |
| WorkLaws.AuthorisesHolder | src/remoeba/store/work_repo.py:284-320 | exactly the holder of the lease is authorised, and gets the stored grant; an unknown item and a fenced caller are told apart |
| WorkLaws.CompletionStores | src/remoeba/store/work_repo.py:342-406 | when a completion commits, is replayed, unknown or fenced; the result, the released lease and the event it writes |
| WorkLaws.FailureStores | src/remoeba/store/work_repo.py:408-458 | the same of a failure; requeued exactly if asked for and below three attempts |
| WorkLaws.CancellationStores | src/remoeba/store/work_repo.py:460-474 | a cancellation ends open rows alone, under a new token, and logs its reason in any case |
| WorkLaws.RetirementStores | src/remoeba/store/work_repo.py:246-262 | the late write of one scanned row fails it with its dead dependencies if it is still queued, and logs in any case |
| WorkLaws.ExpiryStores | src/remoeba/store/work_repo.py:476-525 | a lease is over exactly if its deadline is strictly past; its row is requeued or, at the third attempt, failed, under a new token; no other row changes |
| WorkLaws.ExpiryLogs | src/remoeba/store/work_repo.py:486-518 | the events of an expiry: for each lease that is over its holder and attempt, and the failure exactly if that was the third |
| WorkLaws.RecoveryStores | src/remoeba/mind.py:155-190 | a restart requeues exactly the leased rows under a new token, at any attempt, and reports them |
| WorkLaws.DispatchServesMostUrgent | src/remoeba/store/work_repo.py:216-226 | no waiting item of the class has a higher priority, or the same and an earlier admission, than the one dispatch names; it names one if any waiting item has fewer than fifty as urgent |
| WorkLaws.LeaseServesMostUrgent | src/remoeba/store/work_repo.py:153-187 | a lease naming no item claims what dispatch names unless twenty are as urgent |
| Board.Posts.Publish | src/remoeba/store/board_repo.py:443-500 | the stored post carries the token read off the work row at that moment; nothing else changes |
| Board.Posts.ReportFate | src/remoeba/store/board_repo.py:143-229 | branch by branch, the provenance of a post, cancellation before supersession |
| AttemptFate.RunPosts | src/remoeba/store/board_repo.py:453-462 | a captured token never exceeds the row's |
| AttemptFate.CompletedIsTruthful | src/remoeba/store/board_repo.py:143-229 | an attempt's post reads "completed" exactly when a completion presenting its token committed |
| AttemptFate.VerdictsAreFinal | src/remoeba/store/board_repo.py:143-229 | "unfinished" is never taken back, and a completed verdict never changes |
| AttemptFate.UnfinishedMeans | src/remoeba/store/board_repo.py:184-229 | "unfinished" is reported exactly for cancelled or failed work, or when the row's token is no longer the author's |
| AttemptFate.FateIs | src/remoeba/store/board_repo.py:175-229 | over runs, for a post under a token: called off exactly if the work is cancelled; fenced exactly if it is not and the token has moved on; failed, completed or running exactly as the status says under the token of the author; each with its note |
| AttemptFate.NoAttemptNoFate | src/remoeba/store/board_repo.py:163-182 | no fate exactly for a post that names no stored work or was written under no token; the note tells which |
| AttemptFate.PostCaptures | src/remoeba/store/board_repo.py:443-500 | a post keeps the work it names and the token that row has at that step, or none without such a row |
| AttemptFate.LeasedPostRuns | src/remoeba/store/board_repo.py:207-214 | what is posted under a lease is reported as a running attempt |
| Snapshots.Repo.PublishSnapshot | src/remoeba/store/work_repo.py:681-727 | the next version of its actor, with its content and handle, unreferenced |
| Snapshots.Repo.InvalidateBackendHandles | src/remoeba/store/work_repo.py:840-859 | every handle is dropped, those snapshots are to be recomputed, and the count of them is returned |
| Snapshots.Repo.AcquireRef | src/remoeba/store/work_repo.py:752-779 | unknown, released, or one more live reference and one more in the count |
| Snapshots.Repo.ReleaseSnapshotRef | src/remoeba/store/work_repo.py:781-801 | replay, unknown, already released, or one reference fewer in both places |
| Snapshots.Repo.ReclaimableSnapshots | src/remoeba/store/work_repo.py:803-815 | the unreferenced ones of the published rows after the newest ones; a negative bound counts from the end |
| Snapshots.Repo.MarkSnapshotReleased | src/remoeba/store/work_repo.py:817-838 | replay, unknown, still referenced, or released without a handle |
| Snapshots.Repo.Recover | src/remoeba/mind.py:140-154 | all handles dropped, all references released, all counts zero |
| SnapshotRuns.ReferencesConserved | src/remoeba/store/work_repo.py:700-838 | in every reachable state, restarts included, the count is the number of unreleased references, and a released snapshot has none |
| SnapshotRuns.ClampNeverActs | src/remoeba/store/work_repo.py:791-794 | the clamp at zero never acts: a live reference is to a published snapshot with a positive count |
| SnapshotRuns.ReclaimableCanBeReleased | src/remoeba/store/work_repo.py:803-838 | every id reported reclaimable can be released in that state |
| SnapshotRuns.NewestAreKept | src/remoeba/store/work_repo.py:803-815 | a reported id is older than at least the number of versions to keep |
| SnapshotRuns.VersionsDense | src/remoeba/store/work_repo.py:701-704 | each actor's versions are 1, 2, 3, ... in table order, without gap or repeat |
| SnapshotRuns.ContentIsPermanent | src/remoeba/store/work_repo.py:692-727 | what a snapshot is recomputed from never changes after publication, and a released one stays released |
| SnapshotLaws.PublishStores | src/remoeba/store/work_repo.py:681-727 | a clash, or a row with every column as given, published, unreferenced, and numbered one after the count of the snapshots of its actor |
| SnapshotLaws.AcquireCounts | src/remoeba/store/work_repo.py:752-779 | when each refusal is given; otherwise one live reference with its holder, one more in the count, and nothing else |
| SnapshotLaws.ReleaseUncounts | src/remoeba/store/work_repo.py:781-801 | in every reachable state: given back once, one fewer in the count of the snapshot it held, and nothing else |
| SnapshotLaws.MarkReleasedDrops | src/remoeba/store/work_repo.py:817-838 | released exactly if known, not yet receipted and without references; the handle goes, the content stays |
| SnapshotLaws.HandlesAreLost | src/remoeba/store/work_repo.py:840-859 | losing the backend takes every handle, and marks exactly those snapshots for recomputation; a restart also releases every reference and leaves every count 0 |
| SnapshotLaws.ReclaimableIff | src/remoeba/store/work_repo.py:803-815 | an id is reported exactly if it is published, nothing refers to it, and at least the number of versions to keep are newer; a negative number keeps all but so many |
| SnapshotLaws.ReclaimableOrder | src/remoeba/store/work_repo.py:803-815 | the ids reported come newest first, each once |
| MindRecovery.Mind.Recover | src/remoeba/mind.py:102-196 | agents, snapshots, references, leases and operations, each as recovery leaves it |
| MindRecovery.Mind.CrashAgents | src/remoeba/mind.py:119-139 | exactly the agents of the swept roles that claim to be alive are marked crashed and lose their session |
| MindRecovery.Mind.InterruptOperations | src/remoeba/mind.py:166-176 | exactly the operations in flight become interrupted |
| MindRecovery.RestartHoldsNothing | src/remoeba/mind.py:134-176 | after a restart from any reachable state nobody is alive, nothing is referenced, leased or in flight, and rows that were not leased are untouched |
| MindRecovery.RestartTwiceIsOnce | src/remoeba/mind.py:134-176 | a second restart changes nothing but the log |
| MindRecovery.RestartSweeps | src/remoeba/mind.py:119-176 | by role and status: which agents crash and lose their session, which operations are interrupted, and that no other changes |
| MindRecovery.LateResultsDie | src/remoeba/mind.py:105-165 | the token a worker held before a restart can never commit, fail, renew or be authorised after it, in any continuation |
| HashChain.VerifyChain | src/remoeba/store/events.py:256-304 | accepts exactly the logs whose rows from the starting number on are all linked, and otherwise names the first that is not |
| HashChain.PrevIsUnique | src/remoeba/ids.py:44-54 | with a collision-free hash that avoids genesis, no two positions of a verified log have the same predecessor hash |
| HashChain.HashAloneCatchesExcision | src/remoeba/store/events.py:262-267 | the recomputed hash alone already admits rows unmodified where it covers them only as a prefix |
| HashChain.TipDeterminesCovered | src/remoeba/store/events.py:262-267 | and under it alone the tip hash determines everything the hashes cover |
| HashChain.UnmodifiedRowsFormPrefix | src/remoeba/store/events.py:256-304 | rows dropped, repeated or reordered but not modified verify only as a prefix of the original |
| HashChain.TipDeterminesLog | src/remoeba/store/events.py:256-304 | two verified logs with the same tip hash are equal |
| HashChain.EditedRowIsCaught | src/remoeba/store/events.py:224-253 | an edit to any covered column is noticed at that very row |
| HashChain.PrevHashCheckIsNeeded | src/remoeba/store/events.py:262-286 | rewriting one stored prev_hash passes the recomputed hash and is caught only by the comparison |
| HashChain.PrevHashCheckAddsExactly | src/remoeba/store/events.py:262-302 | a log whose hashes recompute to the tip of a verified log shares all that the hashes cover, and the comparison refuses it exactly if some stored prev_hash was rewritten |
| StateWriter.Mutation.EmitEvent | src/remoeba/store/writer.py:80-121 | queues one event: what the caller does not give is filled in, the cause with the event before it |
| StateWriter.Mutation.EmitAll | src/remoeba/store/writer.py:80-121 | queues a statement's events one after another |
| StateWriter.Writer.ReceiptFor | src/remoeba/store/writer.py:173-191 | the receipt of that mutation id, if any |
| StateWriter.Writer.RunStatements | src/remoeba/store/writer.py:260-262 | runs the body against the live rows until it ends or raises; writes and events may depend on what the transaction found and on the rows as they are now |
| StateWriter.Writer.InsertEvents | src/remoeba/store/writer.py:275-309 | links the queued events one after another from the tip, and reports their range |
| StateWriter.Writer.Apply | src/remoeba/store/writer.py:225-342 | the whole transaction as one step: replay, stale, rolled back, or rows, linked events, version and receipt together |
| WriterHistory.LinkingVerifies | src/remoeba/store/writer.py:275-309 | linking onto a verified log gives a verified log that extends it |
| WriterHistory.HistoriesAreSound | src/remoeba/store/writer.py:225-342 | every history leaves a verified log, receipts whose versions follow on, ranges that tile the log, and one receipt for each id |
| WriterHistory.EveryEventReceiptedOnce | src/remoeba/store/writer.py:275-321 | every log the writer builds verifies from any start, and each event lies in exactly one receipt's range |
| WriterHistory.TilesCoverOnce | src/remoeba/store/writer.py:306-321 | consecutive ranges cover each number exactly once |
| WriterHistory.CommittedCauses | src/remoeba/store/writer.py:80-121 | the committed events of a call are those its body emitted, in order, each caused by the one before it unless the body named a cause |
| WriterLaws.TraceIsRun | src/remoeba/store/writer.py:255-262 | a body is run statement by statement, each write on the rows the one before it left; what it queues is what its statements emitted, in order |
| WriterLaws.CommitStores | src/remoeba/store/writer.py:80-342 | a call takes effect exactly if its mutation id has no receipt, the version is the one expected, the body runs and its event ids are new; then the rows are those its last statement left, every column of every event is as the draft, the author and the request say, and the receipt holds the versions and the range |
| WriterLaws.RefusalsChangeNothing | src/remoeba/store/writer.py:238-334 | which call is answered with an old receipt, which is stale and which raises; none changes anything |
| WriterLaws.EventIdsUnique | src/remoeba/store/writer.py:285-304 | no history leaves two events with one id |
| WriterHistory.RepeatAddsNothing | src/remoeba/store/writer.py:238-240 | a committed mutation id, used again at any later time with any body, is answered with the first receipt and adds nothing |
| Interleaving.OwnerKeepsMatch | src/remoeba/store/writer.py:238-342 | at each sub-step the connection shows exactly the part of the transaction done so far |
| Interleaving.OutsiderTouchesNothing | src/remoeba/store/writer.py:214-223 | a thread without the lock changes neither committed nor uncommitted state |
| Interleaving.WritersLinearise | src/remoeba/store/writer.py:213-342 | for every schedule of sub-steps, raises, heartbeats and read receipts, the committed state is the committed entries applied in commit order |
| Interleaving.InterleavingsAreSound | src/remoeba/store/work_repo.py:639-650 | so every schedule leaves a verified log, gapless versions, tiling ranges and unique receipts |
| Interleaving.BodiesReadCommitted | src/remoeba/store/writer.py:213-262 | in every schedule a running body was started on committed rows and the committed version, so nothing it writes or emits is made of another call's unfinished work |
| Interleaving.ShownVersionCommittedIff | src/remoeba/store/writer.py:311-322 | the version the connection shows is the committed one exactly while no call stands between its bump and its COMMIT |
| Interleaving.RecordedVersionCommittedIff | src/remoeba/store/board_repo.py:334-350 | a recorded read receipt's version was the committed one, when taken, exactly if no call then stood between its bump and its COMMIT |
| Interleaving.SampledVersionBound | src/remoeba/store/board_repo.py:334-350 | a read receipt's version, taken before the lock, is at most one ahead of what is committed |
| Interleaving.UncommittedVersionCanBeRecorded | src/remoeba/store/board_repo.py:334-350 | and the other case occurs: a schedule in which a version is recorded that was never committed |
| WriterProgress.AdvanceKeepsForecast | src/remoeba/store/writer.py:225-342 | what a call will have committed, answered and entered is settled when it has the lock: no sub-step of its thread changes it |
| WriterProgress.LockIsGivenBack | src/remoeba/store/writer.py:213-223 | from every reachable state the thread with the lock, run alone, gives it back, having done exactly that |
| WriterProgress.JobRunsAlone | src/remoeba/store/writer.py:213-342 | a call, heartbeat or read receipt started while the lock is free and left to run commits exactly what it does as one step |
| WriterProgress.EveryOrderIsReached | src/remoeba/store/writer.py:213-342 | so for every list of jobs some schedule commits, answers and enters exactly what they do one after another |
| PromptModel.CheckNamespace | src/remoeba/promptlib/model.py:194-212 | accepts exactly the texts whose components all match, within depth, under a known root |
| PromptModel.NamespaceRoundTrip | src/remoeba/promptlib/model.py:194-222 | a valid namespace is recovered from its dotted name |
| PromptModel.AcceptedNamespaces | src/remoeba/promptlib/model.py:194-212 | whatever is accepted is a valid namespace whose name is the text |
| PromptModel.AcceptedIsPlainWithoutNewline | src/remoeba/promptlib/model.py:49-53 | an accepted name consists of plain components exactly when it holds no newline |
| PromptModel.NewlineIsAccepted | src/remoeba/promptlib/model.py:194-212 | a component ending in a newline is accepted |
| PromptModel.ChildByNameIsChildByParts | src/remoeba/promptlib/store.py:122-132 | "prefix and one level deeper" is the same as "one more component" |
| PromptModel.JoinedAssociates | src/remoeba/promptlib/model.py:74-95 | appending is associative with the empty text as unit |
| PromptModel.ValidateModelVars | src/remoeba/promptlib/model.py:281-323 | accepts exactly the sets of variables that all pass, normalised, and otherwise names one that does not |
| PromptModel.NormaliseIsIdempotent | src/remoeba/promptlib/model.py:281-323 | a normalised variable passes again unchanged |
| PromptModel.StoredVarsReadBack | src/remoeba/promptlib/model.py:281-323 | stored variables pass the check again and normalise to themselves |
| PromptModel.RangeHoldsUnlessNaN | src/remoeba/promptlib/model.py:309-322 | an accepted number lies in its stated range exactly when it is not NaN, which is accepted |
| PromptLaws.ValidNamesIff | src/remoeba/promptlib/model.py:194-212 | a name is valid exactly if its dotted parts are one to eight levels of at most 48 characters of the stated kinds, the first "ego" or "id" |
| PromptLaws.PlaceholderIff | src/remoeba/promptlib/model.py:346-358 | a text holds a placeholder exactly if some piece of it is two braces, blanks, a dotted name, blanks and two braces, with the characters of each listed |
| PromptLaws.AcceptedKeepsValue | src/remoeba/promptlib/model.py:281-323 | an accepted variable is stored with its own value, number for number and text for text |
| PromptLaws.AcceptedIff | src/remoeba/promptlib/model.py:281-323 | every variable there is and exactly what it accepts, limits included |
| PromptLaws.StoredAsGiven | src/remoeba/promptlib/store.py:221-223 | a stored definition has the mode, the text and the variables it was given, and its text is blank exactly if it inherits |
| ProfileRefs.PrintThenParse | src/remoeba/promptlib/model.py:226-278 | printing a well-formed reference and parsing it gives it back |
| ProfileRefs.ParsedIsWellFormed | src/remoeba/promptlib/model.py:249-278 | whatever parses is complete: one component for each level, each at least 1 |
| ProfileRefs.PrintedIsPlain | src/remoeba/promptlib/model.py:232-270 | of the accepted spellings of a positive number, the printed one is the one in digits alone that does not begin with zero |
| ProfileRefs.ParseThenPrint | src/remoeba/promptlib/model.py:232-278 | parsing then printing gives the text back exactly when every component is in digits alone, the first not zero |
| ProfileRefs.LeadingZeroParses | src/remoeba/promptlib/model.py:266-270 | a component with a leading zero parses and is not what is printed |
| ProfileRefs.SpellingReads | src/remoeba/promptlib/model.py:266-270 | blanks, a sign, digits with single underscores between them, blanks: reads as the number the digits spell |
| ProfileRefs.ReadsOnlySpellings | src/remoeba/promptlib/model.py:266-270 | and nothing else reads as a number |
| ProfileRefs.ParsesIff | src/remoeba/promptlib/model.py:249-278 | a text parses to a reference exactly if what stands before its first "@" is a valid namespace and what stands after it reads as one number, at least 1, for each level |
| PromptStore.Store.NextLocalVersion | src/remoeba/promptlib/store.py:109-113 | one more than the largest stored version of the namespace |
| PromptStore.Store.AddVersion | src/remoeba/promptlib/store.py:203-264 | the refusals in order, or one new row with the next number, the bound parent and the digest of the normalised definition |
| PromptStore.Store.Create | src/remoeba/promptlib/store.py:135-170 | a root that does not exist is refused; otherwise as writing a version |
| PromptStore.Store.Establish | src/remoeba/promptlib/store.py:172-201 | only a root, only once |
| PromptStore.Store.Decide | src/remoeba/promptlib/store.py:277-288 | only a legal transition, and only the state column changes |
| PromptStore.Store.Choose | src/remoeba/promptlib/store.py:290-320 | only an approved version of that namespace is selected |
| PromptLaws.CreateStores | src/remoeba/promptlib/store.py:135-264 | a create succeeds exactly if the name is valid, a root exists already, the definition passes and the parent version is there; then one row is added with the next number, in the state asked for, pinning the version asked for or else the production selection of the parent; otherwise nothing changes |
| PromptLaws.EstablishStores | src/remoeba/promptlib/store.py:172-201 | the same of establishing: exactly a root without versions |
| PromptLaws.CreateContinuesSelected | src/remoeba/promptlib/store.py:228-239 | a version created with no parent named continues, for good, the chain of the version its parent ran at that moment |
| PromptLaws.DecideChangesOne | src/remoeba/promptlib/store.py:42-51 | a decision succeeds exactly along the fifteen listed pairs of states and changes the state of that one version |
| PromptLaws.SelectMovesOne | src/remoeba/promptlib/store.py:290-320 | selecting succeeds exactly for an approved version of that namespace and moves that selection alone: no other purpose, no other namespace, no row |
| PromptLaws.StateMovesByDecision | src/remoeba/promptlib/store.py:277-288 | no write but a decision on that version changes the state of a stored version, cascades included |
| PromptLaws.UnapprovedUntilDecided | src/remoeba/promptlib/store.py:299-305 | a version that is not approved cannot be selected, over any run, until a decision approves it |
| PromptLaws.EndedStaysEnded | src/remoeba/promptlib/store.py:42-51 | a rejected or retired version stays that over any run |
| PromptStore.Store.Ancestry | src/remoeba/promptlib/store.py:322-349 | the walk up the pins, with its cycle, length and depth refusals |
| PromptLineage.InsertKeepsLib | src/remoeba/promptlib/store.py:203-264 | a well-formed new row keeps the library good and changes no stored row |
| PromptLineage.WriteKeepsLib | src/remoeba/promptlib/store.py:203-264 | creating keeps the library good and loses nothing |
| PromptLineage.SetStateKeepsLib | src/remoeba/promptlib/store.py:277-288 | deciding keeps the library good and changes no immutable column |
| PromptLineage.SelectKeepsLib | src/remoeba/promptlib/store.py:290-320 | selecting keeps the library good and changes no row |
| PromptLineage.PinnedChainIsTotal | src/remoeba/promptlib/store.py:322-349 | every stored version has its complete chain, one node for each level; the refusals are unreachable |
| PromptLineage.AncestorsShape | src/remoeba/promptlib/store.py:322-349 | the chain names each ancestor namespace in order, linked by its pins |
| PromptLineage.AncestorsStay | src/remoeba/promptlib/store.py:322-349 | growth of the library changes no stored lineage |
| PromptLineage.ResolvesOnlyRealLineage | src/remoeba/promptlib/store.py:361-375 | an explicit lineage resolves exactly when it names the stored ancestry |
| Resolver.RecordShadow | src/remoeba/promptlib/resolver.py:171-180 | the first contribution with the overridden label learns who overrides it; no other changes |
| Resolver.ReadVar | src/remoeba/promptlib/resolver.py:172-182 | reading one variable extends exactly the record of its nearest definer |
| Resolver.ReadVars | src/remoeba/promptlib/resolver.py:172-182 | one level's variables, read in any order, give the same values, sources and records |
| Resolver.ResolveChain | src/remoeba/promptlib/resolver.py:151-210 | empty, refused for a placeholder, or the profile that reads level by level |
| Resolver.ResolutionIsDeclarative | src/remoeba/promptlib/resolver.py:151-188 | each variable comes from the nearest defining level, and each overridden definition records exactly the next lower definer |
| Resolver.ContributionsChain | src/remoeba/promptlib/resolver.py:162-188 | what the levels say they did: one contribution each, root first from no text, each starting where the one above ended and making of it what its mode says, the last ending in the text of the profile |
| Resolver.LabelsName | src/remoeba/promptlib/resolver.py:166-182 | a label is the namespace and local number of the level concerned |
| Resolver.SuffixAfter | src/remoeba/promptlib/resolver.py:114-135 | the levels below the first contribution with that name, composed on their own |
| Resolver.SuffixCompletes | src/remoeba/promptlib/resolver.py:114-135 | when all levels below append or inherit, the primed text with the suffix appended is the full prompt |
| Resolver.SuffixFaithfulIff | src/remoeba/promptlib/resolver.py:117-126 | the suffix reproduces the profile for all texts exactly when no level below prepends or replaces |
| Resolver.FoldIsResolution | src/remoeba/promptlib/resolver.py:165-170 | folding the lower levels onto the primed text is what resolution does |
| Seams.JoinedHasPlaceholderIff | src/remoeba/promptlib/model.py:74-95 | joining two texts leaves a placeholder exactly if one side holds one, or a tail of the first and a head of the second complete one |
| Seams.TextComposes | src/remoeba/promptlib/resolver.py:165-170 | a stored version's text is its fragment composed onto its pinned parent's text |
| Seams.ResolvesIff | src/remoeba/promptlib/resolver.py:193-194 | a stored version resolves exactly if the text it composes to holds no placeholder |
| Seams.WrittenResolvesIff | src/remoeba/promptlib/store.py:203-264 | whether a version will resolve is known before it is written: exactly if its fragment completes no placeholder on the text of the version it binds to |
| Seams.ReplaceAndInherit | src/remoeba/promptlib/model.py:74-95 | replacing never introduces a refusal; inheriting is refused exactly if the parent is |
| Seams.StoredButRefused | src/remoeba/promptlib/resolver.py:193-194 | a run after which a version is stored, all its checks passed, and its resolution is refused |
| Seams.CarriedTextComesTrue | src/remoeba/promptlib/cascade.py:115-183 | what each carried namespace will compose to is told from the library the cascade is planned on |
| Seams.CascadeResolvesIff | src/remoeba/promptlib/cascade.py:115-183 | after an approved cascade a carried namespace resolves exactly if its fragment completes no placeholder on the text its parent will have |
| Seams.CascadeCanRefuse | src/remoeba/promptlib/cascade.py:115-183 | a run after which a resolving child is carried, by whatever complete plan, onto a version that does not resolve, though the cascade succeeds |
| Cascade.SortOrders | src/remoeba/promptlib/cascade.py:105-105 | the steps sorted are the same steps, shallower first and by name within a level |
| Cascade.ExpandChild | src/remoeba/promptlib/cascade.py:74-103 | one child: skipped, skipped but followed, or a step, and queued under the version its own children will pin |
| Cascade.Expand | src/remoeba/promptlib/cascade.py:72-103 | one namespace expanded: each child recorded once, each reached child queued once |
| Cascade.NothingMissed | src/remoeba/promptlib/cascade.py:72-103 | when the queue is empty every reached child has been processed |
| Cascade.PlanSteps | src/remoeba/promptlib/cascade.py:72-105 | the plan lists exactly the moves, in order, and reports every other child it met as skipped, with the reason |
| Cascade.MakePlan | src/remoeba/promptlib/cascade.py:46-112 | unknown version, nothing to do, unapproved parent, or a complete plan |
| CascadeLaws.PlanReadsOff | src/remoeba/promptlib/cascade.py:72-112 | for a stored child of a namespace the cascade reaches: a step exactly if it runs a version that does not pin what its parent will run, saying from, to and onto which version; else skipped with its reason |
| CascadeLaws.PlanNamesOnlyReached | src/remoeba/promptlib/cascade.py:72-103 | and a plan names nothing else |
| CascadeLaws.StepsInOrder | src/remoeba/promptlib/cascade.py:104-105 | steps come level by level and, within a level, in the code-point order of their names |
| CascadeApply.Execute | src/remoeba/promptlib/cascade.py:115-183 | the steps one after another on what earlier steps really produced; rolled back if one fails |
| CascadeApply.ExecuteStep | src/remoeba/promptlib/cascade.py:137-166 | one step: copy onto the produced parent version, check the digest, select in approval mode |
| CascadeApply.StepCarries | src/remoeba/promptlib/cascade.py:137-166 | a planned step, taken after those above it, succeeds with the predicted number, pin and definition |
| CascadeApply.PlannedCascadeComesTrue | src/remoeba/promptlib/cascade.py:115-183 | a plan applied to the library it was made on always succeeds and gives exactly the predicted library |
| CascadeApply.RebaseKeepsDefinition | src/remoeba/promptlib/cascade.py:23-26 | each new version has the predicted number and pin, and the old definition digest for digest |
| CascadeApply.OnlyApprovalMovesSelections | src/remoeba/promptlib/cascade.py:10-22 | queue and none move no selection; none writes nothing |
| PromptLaws.StepAdds | src/remoeba/promptlib/cascade.py:137-166 | one step of any plan adds a copy of the definition of the named version, on the version this run produced for the parent, a candidate when queueing and approved and selected when approving |
| PromptLaws.CascadeAddsInState | src/remoeba/promptlib/cascade.py:115-183 | whatever plan is applied to whatever library, the rows it adds are candidates if it queues and approved if it approves, and no stored row changes |
| PromptLaws.QueuedNeedsDecision | src/remoeba/promptlib/cascade.py:10-22 | whatever runs after a queued cascade, none of the versions it added can be selected until a decision approves it |
| CascadeApply.AfterIsGood | src/remoeba/promptlib/cascade.py:115-183 | the library after an approved cascade is a good one |
| CascadeApply.CascadeCarriesSubtree | src/remoeba/promptlib/cascade.py:20-32 | every descendant whose path is fully selected then has the carried version in its selected pinned chain |
| CascadeApply.TargetsSettle | src/remoeba/promptlib/cascade.py:46-112 | after an approved cascade every target is unchanged and nothing moves |
| CascadeApply.ReplanningIsEmpty | src/remoeba/promptlib/cascade.py:46-112 | planning again yields no steps |
| CascadeApply.ApprovedCascadeIsDone | src/remoeba/promptlib/cascade.py:10-183 | an approved cascade end to end: it succeeds, the library is good, every fully selected descendant runs on a lineage through the carried version, and the next plan has no steps |
| PromptRuns.RunKeepsLib | src/remoeba/promptlib/store.py:135-320 | every run of creates, decisions, selections and cascades, planned or made up, keeps the library good and loses nothing |
| PromptRuns.ReachableIsGood | src/remoeba/promptlib/store.py:135-320 | every reachable library is good |
| PromptRuns.ResolveVersion | src/remoeba/promptlib/resolver.py:219-220 | resolution of the pinned chain; no chain of a reachable library is outside what resolution handles |
| PromptRuns.ResolveSelected | src/remoeba/promptlib/resolver.py:226-240 | nothing selected, or the resolution of what is |
| PromptRuns.MeaningIsPermanent | src/remoeba/promptlib/resolver.py:1-7 | whatever is written later, a stored version keeps its ancestry, digests, text and settings |
| PromptRuns.SelectedStaysApprovedIff | src/remoeba/promptlib/store.py:277-288 | "selected implies approved" is kept by a write exactly when it does not retire or reject a version selected at the time |
| Retention.WorkingSet.Prunable | src/remoeba/retention.py:98-138 | exactly the triggers past their window that are owed nothing, and the closed old turns nothing surviving names and no turn continues |
| Retention.WorkingSet.Prune | src/remoeba/retention.py:141-168 | exactly those rows go; the counts are what went, and it is noted exactly if something did |
| Retention.WorkingSet.DeleteTriggers | src/remoeba/retention.py:154-155 | exactly the listed triggers are deleted |
| Retention.WorkingSet.DeleteTurns | src/remoeba/retention.py:156-157 | exactly the listed turns are deleted |
| Retention.TriggerGoesIff | src/remoeba/retention.py:110-115 | a trigger goes exactly when consumed or expired, strictly before the cutoff, and owed no answer, read off its columns |
| Retention.TurnGoesIff | src/remoeba/retention.py:123-137 | a turn goes exactly when not running, ended strictly before the cutoff, named by no trigger that stays and continued by no turn |
| Retention.SweepSpares | src/remoeba/retention.py:98-138 | owed triggers, running turns, turns a surviving trigger names and turns any turn continues survive |
| Retention.SurvivesIff | src/remoeba/retention.py:116-137 | a turn survives a sweep exactly if it is kept for its own sake or continued by some turn |
| Retention.SweepsSettle | src/remoeba/retention.py:141-157 | repeated sweeps at one cutoff come to rest |
| Retention.SurvivorsAre | src/remoeba/retention.py:98-157 | what is left is exactly the turns kept for their own sake, their ancestors, and those leading into a circle of parents |
| Retention.AcyclicSurvivorsAre | src/remoeba/retention.py:98-157 | without circles: exactly the kept turns and all their ancestors |
| Disputes.Repo.OpenDisagreementFor | src/remoeba/store/memory_repo.py:706-712 | the live dispute about a subject, or none |
| Disputes.Repo.OpenDisagreement | src/remoeba/store/memory_repo.py:584-632 | a recurrence of the live dispute, or a new one; either way the id returned is open about that subject |
| Disputes.Repo.CloseDisputesIn | src/remoeba/store/memory_repo.py:637-663 | closes the live dispute about the subject, if there is one |
| Disputes.Repo.ResolveDisagreement | src/remoeba/store/memory_repo.py:665-704 | unknown resolution, replay, unknown, already closed, or closed with that resolution |
| Disputes.Repo.WithdrawConclusion | src/remoeba/store/memory_repo.py:450-475 | replay, unknown, no longer made, or retracted together with the dispute about it |
| Disputes.Repo.WriteConclusion | src/remoeba/store/memory_repo.py:348-415 | replay, clash, unknown predecessor rolled back, or recorded; a predecessor already ended still has its event and its dispute closed |
| Disputes.DisputesAreAccounted | src/remoeba/store/memory_repo.py:584-704 | at most one open dispute for each subject; opened events number one plus the recurrences; one resolved event exactly if closed |
| DisputeLaws.OpenStores | src/remoeba/store/memory_repo.py:584-632 | when opening is replayed, clashes, counts a recurrence or opens a new dispute, and the columns and event of each |
| DisputeLaws.ResolveStores | src/remoeba/store/memory_repo.py:665-704 | the four words, the refusals, and the one dispute that carries the word afterwards |
| DisputeLaws.WithdrawStores | src/remoeba/store/memory_repo.py:450-475 | the claim is retracted, the open dispute about it closed as retracted, and both logged; no other claim or dispute changes |
| DisputeLaws.ReplaceStores | src/remoeba/store/memory_repo.py:348-415 | a predecessor still made is superseded by this claim, the open dispute about it closed as superseded, all logged in order; no other changes |
| DisputeLaws.ConcludeStores | src/remoeba/store/memory_repo.py:348-415 | a claim that replaces none is recorded with its producer and touches nothing else |
| Disputes.ClosingOneIsEnough | src/remoeba/store/memory_repo.py:637-663 | closing the single row found leaves none open about the subject |
| Disputes.EndedClaimLeavesNoDispute | src/remoeba/store/memory_repo.py:389-475 | a claim withdrawn or replaced leaves no open dispute about it |
| Disputes.EndedStaysEnded | src/remoeba/store/memory_repo.py:450-704 | closed disputes and ended claims never change again, and repeats of what succeeded add nothing |
| Disputes.SuccessorsAreRecorded | src/remoeba/store/memory_repo.py:389-409 | a conclusion names a successor exactly if it was superseded, and that successor is recorded |
| Disputes.AboutSomethingKeptIff | src/remoeba/store/memory_repo.py:584-617 | "no open dispute is about a claim nobody makes" is kept by a verb exactly when it does not open one about a claim already ended |
| Utf8Text.DecodeExactText | src/remoeba/filespace.py:131-167 | the shortest trim of at most three bytes that decodes, else the whole; refused with the position of the first bad byte |
| Utf8Text.EncodesChar | src/remoeba/filespace.py:159-160 | every code point has an encoding that section 4 of RFC 3629 allows, and it reads back |
| Utf8Text.SameNumber | src/remoeba/filespace.py:159-160 | octets with the same character number are the same |
| Utf8Text.SectionSevenChars | src/remoeba/filespace.py:159-160 | the characters of the examples in section 7 of RFC 3629 have the octets given there |
| Utf8Text.DecodeIffEncoded | src/remoeba/filespace.py:159-160 | decoding accepts exactly the encodings of texts and inverts encoding |
| Utf8Text.CappedReadIsLongestPrefix | src/remoeba/filespace.py:146-158 | a text cut at any cap reads back as its longest whole-character prefix that fits, at most three bytes short |
| Utf8Text.FittingIsLongest | src/remoeba/filespace.py:146-148 | no longer prefix fits |
| Utf8Text.UncutReadIsStrict | src/remoeba/filespace.py:133-143 | a read that was not cut is accepted exactly if all of it is text |
| Utf8Text.CutReadForgivesThreeBytes | src/remoeba/filespace.py:149-158 | a cut read is accepted exactly if what remains after giving up at most three bytes, of whatever kind, is text |
| Utf8Text.BadByteAccepted | src/remoeba/filespace.py:133-158 | so a byte no text contains is accepted at the end of a cut read |
| RpcRelay.RemoteError | src/remoeba/rpc.py:52-65 | one hop: reserved names moved to free ones, then the code added; refused if a detail is called "self" |
| RpcRelay.FreeName | src/remoeba/rpc.py:60-63 | the renaming loop ends on a name that is neither taken nor reserved |
| RpcRelay.HopPlaces | src/remoeba/rpc.py:52-65 | every detail is placed with its value, apart from every other, under a name that is not reserved |
| RpcRelay.HopRefusedIff | src/remoeba/rpc.py:65-65 | a hop fails exactly when a detail is called "self" |
| RpcRelay.HopRaises | src/remoeba/rpc.py:52-65 | what a hop raises: the code it was sent, the details with other names as they were, and the two reserved ones under the first of their prefixed names that no detail had |
| RpcRelay.EverythingArrives | src/remoeba/rpc.py:52-65 | over any number of hops every original value and every hop's code arrives under a name of its own, and a name that is not reserved is kept |
| RpcRelay.NothingElseArrives | src/remoeba/rpc.py:52-65 | and nothing else does |
| RpcRelay.RelayCounts | src/remoeba/rpc.py:52-65 | the final details hold the originals plus one code for each hop |
| RpcRelay.RelayRefusedIff | src/remoeba/rpc.py:65-65 | a relay fails exactly when an original detail is called "self", at its first hop |

## Left out

- HashChain.UnmodifiedRowsFormPrefix: assumes that the hash is collision-free and never yields the genesis value; SHA-256 and the canonical JSON encoding are parameters.
- HashChain.TipDeterminesLog: assumes the same of the hash.
- WorkRepo.Repo.Admit: a caller's own mutation id is kept apart from the ids the verbs derive, so a caller that imitates one of those is not modelled.
- WorkRepo.Repo.Lease: rows equal in priority and age are taken in insertion order, where SQLite leaves the order open; an empty string given for the work id or the class is an id or a class, where the source reads it as not given.
- WorkRepo.Repo.Complete: the rejection event is always written, where the source swallows a failure to write it; such a call changes nothing, so a run without it stands for it. The staleness note in the completion event is not modelled.
- StateWriter.Writer.Apply: payload encoding and blob storage are outside; an event carries its payload as given, and the time is one integer. What a body keeps in local variables is what it can compute again from the state the transaction found; its return value is not modelled.
- Interleaving.WritersLinearise: the single statement of a heartbeat and of a read receipt does not raise; calls of the writer raise anywhere.
- Snapshots.Repo.PublishSnapshot: stored content is its digest.
- Snapshots.Repo.InvalidateBackendHandles: the session handles of agents, dropped by the same call, are not part of the registry.
- MindRecovery.Mind.Recover: the integrity report, the run id and the process id are not modelled, nor the receipt and the version recovery leaves unchanged.
- Board.Posts.Publish: threads, relations, supersession and independence of posts are not modelled, only the columns the attempt's fate is computed from.
- PromptStore.Store.AddVersion: a version's id is its namespace and number; origins, authors and rationales are not modelled, and states and purposes outside the known ones are excluded by type.
- PromptModel.ValidateModelVars: which refusal comes first depends on the order of a dictionary and is left open; a value the source refuses with an arithmetic error instead of its own is refused all the same.
- PromptModel.CheckNamespace: text is a sequence of characters; blanks, digits and the letters of a placeholder are the ASCII ones, here and in ProfileRefs, where Python accepts more.
- Cascade.PlanSteps: the wording of a skip's reason is not modelled; an unknown propagation mode is excluded by type.
- Cascade.MakePlan: planning is stated for libraries as the store keeps them, which every reachable one is.
- PromptRuns.ResolveVersion: the same; the profile's own digests are functions of the chain, text and settings shown not to change, and are not computed.
- Retention.WorkingSet.Prune: the two lists are sets; columns pruning does not look at, such as the turn that answered a trigger, are not modelled, so nothing is claimed about links through them.
- Disputes.Repo.OpenDisagreement: claims, actors, evidence and the basis digest of a dispute are not modelled; closing by subject in two transactions is the lookup followed by a resolution.
- Utf8Text.DecodeExactText: the size and digest the refusal carries are passed through by the source and not modelled.
- RpcRelay.RemoteError: a JSON value is its text; the message is passed through.
- SQLite, its journal and its schema, apart from primary keys, unique ids and the one-open-dispute index, are not part of this model.
- Sandboxing, path resolution, sockets, HTTP, credentials, logging, inference, memory recall, statistics and narration are not part of this model.
