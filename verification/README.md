# Invoice auditor: a verified model of its protocols and arithmetic

The application reads e-mails, classifies them with an AI provider, turns invoice e-mails and manual uploads
into invoices, selects tariffs for them and computes audit results. This project models the parts whose
correctness is not visible in any single function, and proves it.

**Durable job queue and workers.** `JobQueue` is the job table with its row operations and the queue object that
updates it. `WorkerProtocol` runs any number of workers over that table: claim, execution guard, handler, finish,
heartbeat, crash and lease recovery are steps of a state machine, each database transaction is one step, and
clocks are arbitrary. `WorkerLoop` is one iteration of one worker with its retry delays and polling windows.

**Exactly-once stages over an at-least-once queue.** `Pipeline` composes ingestion, classification, movement,
human review, invoice intake and tariff selection with one program counter per handler, stopping and repeating
anywhere between two transactions; `PipelineEffects` proves what that keeps and `PipelineProgress` that it gets to its
end. Nothing there uses leases: late and duplicate handlers are ordinary runs.
`MoveRaces` treats three things one would like to rely on and cannot. `EmailClassification`, `EmailIngestion`,
`InvoiceIntake` and `TariffSelection` are the single stages as objects that update their tables in place;
`InvoiceSource` builds the files of a submission from an e-mail.
`BlobAgreement` relates stored blobs to committed rows under concurrent uploads, and `AdvisoryLocks` is the
lock order of everything that waits.

**50-digit decimal calculator.** `PowersOfTen`, `Decimals`, `Division` and `Rounding` are decimal floating point
as the General Decimal Arithmetic specification defines it, with the precision as a parameter, related to the real
numbers. `Calculator` is the bounded evaluator with its mutable counter and trace; `CalculatorTrace` gives the
meaning of limits and trace, `CalculatorOperations` says what each operation accepts, raises and computes,
`CalculatorExact` when results are exact, `CalculatorRange` why exponents stay in range, and `IdealExponents` and
`DecimalText` cover the exponents of results, literals and the fixed-point text of results.

**Agreement cores.** `AiPrices`, `TariffLineage`, `LocalStorage`, `ThreadResolver`, `ToolLoop` and `Finance`.

`dafny verify dfyconfig.toml` checks everything.

## Results that differ from what one might expect

Each of these is a statement about the code as it is, with a run or an input that shows it and the condition under
which the expected statement holds.

- A handler does not always start for a job that is still leased to its worker: the worker can stall between the
  commit of its claim and taking the execution guard, and another worker may even complete the job meanwhile
  (`WorkerProtocol.LateWorkerHandlesFinishedJob`). A handler starts with its lease exactly when the job has not been
  recovered between claim and guard (`WorkerProtocol.HandlerStartsLeasedIff`), and finishing raises the lease error
  exactly when it has (`WorkerProtocol.LeaseErrorIffRecovered`). A worker without its lease never writes the row
  (`WorkerProtocol.LostLeaseNeverWrites`).
- A message of class INVOICE can end in the manual-review folder, marked as moved for good, whether or not the job
  that marks it has moved it itself (`MoveRaces.ReviewRace`). In every reachable state a moved message is in the folder
  of its class exactly when no review was stored between the read and the mark of the job that marked it, or the
  settings use that folder for review too (`MoveRaces.MovedFolderIff`); otherwise it has been reviewed and is in the
  review folder (`MoveRaces.MovedMessageLies`).
- A moved message can have the status ERROR (`MoveRaces.DoubleMoveRace`). In every reachable state it has exactly when
  some job failed to move it while it counted as moved already, with no review since (`MoveRaces.ErrorOnMovedIff`); such
  a job had read the row before another one marked the move (`MoveRaces.FailureOverlapsMark`).
- A review whose request stops between storing the decision and enqueueing the move is lost: the request cannot be
  repeated and no job is ever enqueued (`MoveRaces.ReviewCanBeLost`, `MoveRaces.LostForEver`). A message has its review
  followed by the move job, or about to be, exactly when no request of that message has stopped there
  (`MoveRaces.ReviewFollowedIff`).
- A deleted tariff can be active (`TariffLineage.DeletedYetActive`), because updates and deletions read without a
  row lock and write only changed columns. A write does this exactly in the two cases of `TariffLineage.GhostIff`, and
  a run is free of such rows exactly as long as no such write happens (`TariffLineage.NeverGhostlyIff`).
- Two ordinary submissions can deadlock, because partner locks are sorted as strings. As long as lock numbers do not
  collide between levels, a deadlock is reachable exactly when two numbers are each shared by a document and a name,
  and some two submissions share no submission lock (`AdvisoryLocks.DeadlockIff`); one shared number is harmless, and so
  are all collisions inside the other levels.
- A second partner with the empty string as document number cannot be inserted: it is stored and unique but never
  looked up. `InvoiceIntake.SecondEmptyDocumentRefused` is such an input, and `InvoiceIntake.PartnerInsertIff` says that
  an unknown partner is refused in this case only.
- Stored confidence and threshold can be equal although the e-mail was below the threshold
  (`EmailClassification.StoredNumbersHideTheGap`), exactly when the confidence is at most half of the fourth decimal
  below the stored threshold (`EmailClassification.StoredEqualIff`); the other direction is safe
  (`EmailClassification.StoredOrder`).
- An interrupted deletion can make listing its area fail: exactly when it stops between removing the sidecar and the
  directory. Wherever it stops after its first operation, the object can neither be read nor deleted again
  (`LocalStorage.InterruptedDeletion`).
- Storing can raise although the object has been published, when only the last directory sync fails
  (`LocalStorage.LocalStorageProvider.Store`).
- Half-up rounding does not collapse over scales (`Rounding.HalfUpDoesNotCollapse`): two stages differ from one exactly
  when the finer stage has rounded away from zero onto a half of the coarser one (`Rounding.HalfUpCollapsesIff`). Floor
  and ceiling do collapse (`Rounding.Collapse`), and rounding half up twice errs by at most half a unit of each scale
  (`Rounding.DoubleHalfUp`).

## Assumptions

- Worker identifiers are distinct and each worker has one job in flight. An execution or selection guard lives as
  long as its worker's database session.
- Hashes are arbitrary functions. Collisions are harmless except in two places, stated where they matter: lock
  numbers must not collide between the levels of execution guards, of partner locks and of all others
  (`AdvisoryLocks.Separated`), and the content hash of a manual upload
  must not equal the fingerprint of an e-mail (`PipelineEffects.NoCrossCollision`).
- Fresh UUIDs never repeat. A transaction is one step, or several with the locks it holds in between.

## Model

| member | source | states |
|---|---|---|
| JobQueue.PostgreSQLJobQueue.Enqueue | app/infrastructure/persistence/repositories/jobs.py:67-107 | one row per idempotency key; a repeated key returns the first row and changes nothing; max_attempts below 1 is rejected by the table |
| JobQueue.PostgreSQLJobQueue.Claim | app/infrastructure/persistence/repositories/jobs.py:109-143 | claims exactly when some unlocked row is ready, and then the first in priority, availability and creation order |
| JobQueue.PostgreSQLJobQueue.Heartbeat | app/infrastructure/persistence/repositories/jobs.py:145-153 | true exactly for the owner of the running row; only the heartbeat changes |
| JobQueue.PostgreSQLJobQueue.Succeed | app/infrastructure/persistence/repositories/jobs.py:155-164 | succeeds exactly for the owner of the running row, otherwise the lease error and no change |
| JobQueue.PostgreSQLJobQueue.Fail | app/infrastructure/persistence/repositories/jobs.py:166-188 | same ownership rule; retry while attempts remain, else failed for good |
| JobQueue.PostgreSQLJobQueue.RecoverStale | app/infrastructure/persistence/repositories/jobs.py:190-223 | ends exactly the leases of unlocked running rows whose guard is free and whose heartbeat, if any, is older than the lease timeout; lists exactly those, once, with their new records |
| JobQueue.ClaimKeeps | app/infrastructure/persistence/repositories/jobs.py:136-143 | a claim keeps the table constraints, spends one unit of work and never exceeds max_attempts |
| JobQueue.FinishKeeps | app/infrastructure/persistence/repositories/jobs.py:155-188 | every way out of RUNNING keeps the lifecycle and spends work; FAILED exactly when attempts are exhausted, otherwise retried after the delay; the job's identity and payload stay |
| JobQueue.FirstExists | app/infrastructure/persistence/repositories/jobs.py:125-133 | among any ready rows there is a first one in claim order |
| JobQueue.NewJobWaits | app/infrastructure/persistence/repositories/jobs.py:78-91 | a new job has its given columns, no attempts and no lease, and is ready from its time on |
| JobQueue.HeartbeatKeeps | app/infrastructure/persistence/repositories/jobs.py:145-153 | a heartbeat renews its owner's lease and changes nothing else |
| JobQueue.ClaimChoiceMeans | app/infrastructure/persistence/repositories/jobs.py:113-135 | the claimed row is waiting, due and of a wanted type, and no such row comes before it by priority, availability and age |
| JobQueue.RecoveredMeans | app/infrastructure/persistence/repositories/jobs.py:193-222 | recovery ends a lease exactly when heartbeat + lease timeout < now or there is no heartbeat, the row is unlocked and the guard free |
| JobQueue.RecoveredKeeps | app/infrastructure/persistence/models/jobs.py:23-31 | a whole recovery batch keeps the table constraints |
| WorkerProtocol.StepKeepsInv | app/infrastructure/persistence/repositories/jobs.py:54-232 | every step of any worker keeps the protocol invariant |
| WorkerProtocol.OneHandlerPerJob | app/infrastructure/persistence/repositories/jobs.py:54-65 | in every run at most one worker handles a job at a time |
| WorkerProtocol.GuardStability | app/worker/main.py:97-124 | from guard to finish the row is leased to the worker in its claimed attempt exactly when it was at the guard, however stale its heartbeat |
| WorkerProtocol.LeaseLostIffRecovered | app/worker/main.py:89-97 | a worker that waits for its guard has lost its lease exactly when the job was recovered since its claim |
| WorkerProtocol.HandlerStartsLeasedIff | app/worker/main.py:89-110 | every handler start goes back to a claim, and has its lease exactly when no recovery of the job lies between |
| WorkerProtocol.LostLeaseHadExpired | app/infrastructure/persistence/repositories/jobs.py:190-223 | a lease lost between claim and guard was taken by a recovery that found its last heartbeat older than the lease timeout |
| WorkerProtocol.FinishSucceedsIffOwnedAtGuard | app/infrastructure/persistence/repositories/jobs.py:225-232 | finishing raises the lease error exactly when the lease was lost at the guard |
| WorkerProtocol.LeaseErrorIffRecovered | app/infrastructure/persistence/repositories/jobs.py:225-232 | so it raises it exactly when the job was recovered between claim and guard |
| WorkerProtocol.LostLeaseNeverWrites | app/worker/main.py:89-97 | a worker that lost its lease before the guard never changes the row |
| WorkerProtocol.StepSpendsMeasure | app/infrastructure/persistence/repositories/jobs.py:136-223 | each step leaves a row alone, renews its heartbeat, or strictly spends its remaining work; terminal rows never change |
| WorkerProtocol.BoundedWork | app/infrastructure/persistence/models/jobs.py:24-26 | over any stretch of a run a job is claimed at most max_attempts times, attempts counts its claims, and its row changes at most 2 max_attempts times besides heartbeats |
| WorkerProtocol.ReachableLifecycle | app/infrastructure/persistence/repositories/jobs.py:136-188 | ready means attempts left, FAILED means none left, leased exactly while RUNNING, finish time exactly when terminal, keys unique, CHECK constraints never hit |
| WorkerProtocol.NeverStuck | app/infrastructure/persistence/repositories/jobs.py:109-223 | an unfinished job whose guard is free can always be claimed or recovered |
| WorkerProtocol.AlwaysPossible | app/infrastructure/persistence/repositories/jobs.py:76-107 | workers may die or beat at any time, and a job with a new key and an attempt can be enqueued without changing any row |
| WorkerProtocol.BatchRecoveryIsARun | app/infrastructure/persistence/repositories/jobs.py:190-223 | the recovery batch of the queue object is a run of single recoveries, in any order |
| WorkerProtocol.LateWorkerHandlesFinishedJob | app/worker/main.py:89-110 | a run with such a recovery in which a handler starts for a job that has already succeeded |
| WorkerLoop.BackoffLaws | app/worker/main.py:126-128 | retry delays start at the base and double from attempt to attempt, each cut at the cap |
| WorkerLoop.WindowHolds | app/application/services/jobs.py:21-24 | window w holds exactly the seconds from w * interval up to the next start |
| WorkerLoop.TickIsDue | app/application/services/jobs.py:21-30 | a tick is due at once, with the configured attempts, the default priority and the key of its window |
| WorkerLoop.PreparedMeans | app/worker/main.py:79-88 | before claiming, exactly the expired leases have ended and the tick of the current window exists if asked for |
| WorkerLoop.SameWindowIff | app/application/services/jobs.py:21-30 | two instants share a tick exactly when no window starts between them |
| WorkerLoop.EnqueueDue | app/application/services/jobs.py:21-30 | one durable tick per window, created only if its key is new |
| WorkerLoop.RunOnce | app/worker/main.py:79-124 | the whole table after one iteration: recovery, tick, the first ready job in claim order finished as its handler ended, or left claimed while another session holds its guard |
| WorkerLoop.Execute | app/worker/main.py:97-124 | a claimed job is left succeeded, or scheduled after the backoff of its attempt, or failed, with the guard released |
| AdvisoryLocks.DocumentSortsFirst | app/infrastructure/persistence/repositories/invoice_intake.py:154-158 | the sorted partner strings always put the document before the name |
| AdvisoryLocks.PlanAscends | app/infrastructure/persistence/repositories/email.py:164-165 | every waiting unit of work takes its locks in ascending order of level and number, unless a document and a name are both shared numbers |
| AdvisoryLocks.StepKeepsInv | app/infrastructure/persistence/repositories/jobs.py:207-212 | a process holds the locks it has taken of its current work and otherwise only execution guards; recovery only tries locks |
| AdvisoryLocks.DeadlockIff | app/infrastructure/persistence/repositories/invoice_intake.py:46-52 | with lock levels separated, a wait cycle is reachable exactly when two numbers are each shared by a document and a name and two submissions can look for partners at one time |
| AdvisoryLocks.SomeHolderRuns | app/infrastructure/persistence/repositories/tariff_selection.py:40-50 | where no deadlock is possible, one of the blocked processes always waits for one that is not blocked |
| AdvisoryLocks.RecoveryNeverWaits | app/infrastructure/persistence/repositories/jobs.py:207-212 | recovery takes a free guard at once and passes over a taken one |
| AdvisoryLocks.PartnerWait | app/infrastructure/persistence/repositories/invoice_intake.py:154-158 | waiting for a partner lock means that two submissions with disjoint submission locks have got that far |
| AdvisoryLocks.PartnerCollisionDeadlocks | app/infrastructure/persistence/repositories/invoice_intake.py:154-158 | crosswise collisions of two documents and two names let two submissions block each other |
| AdvisoryLocks.CollidingDeadlocks | app/infrastructure/persistence/repositories/invoice_intake.py:154-158 | a concrete hash and two concrete submissions that deadlock |
| BlobAgreement.StepKeepsBlobs | app/application/services/email_ingestion.py:43-138 | stored blobs are exactly those owned by one row, one running upload, or nobody; submissions from e-mail own none |
| BlobAgreement.StepKeepsOrigins | app/infrastructure/persistence/repositories/invoice_intake.py:196-237 | a submission from e-mail always refers to the blobs of its e-mail row |
| BlobAgreement.CheckedStaysFree | app/infrastructure/persistence/repositories/email.py:157-168 | between check and insert no conflicting row can appear, for any hash function |
| BlobAgreement.StoreMayFail | app/infrastructure/storage/local.py:143-148 | a store that fails after publishing leaves one orphan and the deletion of the other blobs |
| BlobAgreement.TransactionDecides | app/infrastructure/persistence/repositories/email.py:27-86 | the transaction inserts exactly without a conflicting row; otherwise it leads to the deletion of exactly this upload's blobs |
| BlobAgreement.StorageIsPartitioned | app/application/services/email_ingestion.py:43-138 | at every moment storage is the disjoint union of referenced, in-flight and orphaned blobs, also if a store raises after publishing |
| BlobAgreement.QuietStorage | app/application/services/email_ingestion.py:128-138 | with nothing in flight or orphaned, stored blobs are exactly the referenced ones |
| BlobAgreement.OneRowPerName | app/infrastructure/persistence/repositories/email.py:27-86 | over all three routes at most one row per server key, fingerprint, idempotency key and content hash; the insert never meets a conflicting row |
| BlobAgreement.CommittedForEver | app/api/routes/invoices.py:62-118 | a committed row keeps all its blobs, also under the manual route, which compensates only some failures |
| BlobAgreement.UploadCanCommit | app/application/services/email_ingestion.py:43-138 | an upload without conflict that finds its locks free can commit, and nothing else changes |
| EmailIngestion.EmailIngestionService.Ingest | app/application/services/email_ingestion.py:33-130 | how an ingestion ends for every combination of faults and duplicates; only a created message changes rows or storage |
| EmailIngestion.EmailIngestionService.Preserve | app/application/services/email_ingestion.py:43-130 | a created row references fresh blobs with matching digests and sizes; otherwise rows and, if deletion works, storage are as before |
| EmailIngestion.EmailIngestionService.StoreAll | app/application/services/email_ingestion.py:46-76 | stores raw message and attachments in order under fresh keys up to the first fault |
| EmailIngestion.EmailIngestionService.GuardedInsert | app/infrastructure/persistence/repositories/email.py:27-86 | duplicate by server key first, then by fingerprint, else one new row |
| EmailIngestion.EmailIngestionService.DeleteUnreferenced | app/application/services/email_ingestion.py:132-138 | removes exactly the given blobs |
| EmailIngestion.NewRowPreserved | app/application/services/email_ingestion.py:62-121 | every blob of a created row is stored with the digest, size and ordinal the row records |
| EmailIngestion.NewRowRecords | app/application/services/email_ingestion.py:62-121 | the row records identities, folder, sender, subject and each attachment's name, type, size, digest and position |
| EmailIngestion.EndingMeans | app/application/services/email_ingestion.py:43-138 | the first failing store decides, then the transaction, then the server key, then the content |
| EmailClassification.StoredOrder | app/infrastructure/persistence/models/email.py:116-117 | rounding to four decimals keeps confidence at or above the threshold |
| EmailClassification.StoredEqualIff | app/infrastructure/persistence/models/email.py:116-117 | below the threshold yet stored equal exactly when at most half of the fourth decimal below the stored threshold |
| EmailClassification.StoredNumbersHideTheGap | app/infrastructure/persistence/models/email.py:116-117 | an input that shows it: 0.84996 against 0.85 |
| EmailClassification.FirstClassificationRecords | app/infrastructure/persistence/repositories/email_classification.py:48-71 | what a first classification stores of the AI's answer, field by field; below the threshold it means manual review |
| EmailClassification.FirstMoveRecords | app/infrastructure/persistence/repositories/email_classification.py:84-96 | the first move stores locator and time and the status that goes with the class |
| EmailClassification.FailureRecords | app/infrastructure/persistence/repositories/email_classification.py:99-112 | a failure stores ERROR with bounded code and detail and leaves the rest |
| EmailClassification.ReviewRecords | app/infrastructure/persistence/repositories/email_classification.py:144-156 | a review stores class and reviewer, clears the move and an earlier error |
| EmailClassification.SaveKeeps | app/application/services/email_classification.py:87-98 | a saved classification is justified by its stored numbers and is written once |
| EmailClassification.MoveKeeps | app/infrastructure/persistence/repositories/email_classification.py:84-96 | MOVED only with a conclusive class and a move time |
| EmailClassification.ErrorKeeps | app/infrastructure/persistence/repositories/email_classification.py:99-112 | a movement error changes neither class nor move time |
| EmailClassification.ResolveKeeps | app/infrastructure/persistence/repositories/email_classification.py:136-156 | only a human turns manual review into a conclusive class |
| EmailClassification.FollowsChain | app/infrastructure/persistence/repositories/email_classification.py:48-156 | the rules for how a row may change compose over any number of operations |
| EmailClassification.EmailClassificationRepository.SaveClassification | app/infrastructure/persistence/repositories/email_classification.py:33-73 | writes an unclassified row only; otherwise returns the first classification |
| EmailClassification.EmailClassificationRepository.MarkMoved | app/infrastructure/persistence/repositories/email_classification.py:75-97 | first mark sets locator, time and status; later marks change nothing; unclassified rows are refused |
| EmailClassification.EmailClassificationRepository.MarkMovementError | app/infrastructure/persistence/repositories/email_classification.py:99-112 | records a bounded error; an incomplete classification raises and rolls back |
| EmailClassification.EmailClassificationRepository.ResolveManualReview | app/infrastructure/persistence/repositories/email_classification.py:129-156 | succeeds exactly for a conclusive class on a row awaiting review; which error otherwise |
| PipelineEffects.StepKeepsInv | app/worker/jobs/email_classification.py:33-44 | every transaction of every stage keeps the table invariants and what each handler relies on next |
| PipelineEffects.RunGrows | app/infrastructure/persistence/repositories/email_classification.py:48-156 | rows are never deleted or rewritten; the AI class is written once and changes only by review |
| PipelineEffects.ExactlyOnce | app/infrastructure/persistence/models/tariff_selection.py:32-34 | one message per server key and fingerprint, one invoice per message, one run per invoice, under all retries and crashes |
| PipelineEffects.ReturnedMeansDone | app/worker/jobs/email_ingestion.py:36-54 | once a handler or request returned normally, its effect and the next stage's job exist for ever |
| PipelineEffects.KnownContent | app/infrastructure/persistence/repositories/invoice_intake.py:53-69 | whichever matching submission the database returns, a non-created result has the command's content |
| PipelineEffects.IngestMeans | app/infrastructure/persistence/repositories/email.py:27-86 | an ingestion goes on with a message that has its server key or else its content |
| PipelineEffects.SubmitRaisesIff | app/infrastructure/persistence/repositories/invoice_intake.py:53-66 | a submission raises exactly when the returned row has its key for other content |
| PipelineEffects.ClassifiedInvoiceExists | app/application/services/invoice_intake.py:43-89 | a classification job that returns for an invoice e-mail leaves its invoice and selection job; its own one without a cross collision |
| PipelineEffects.NoUnreviewedInvoice | app/infrastructure/persistence/repositories/invoice_intake.py:199-203 | an invoice from e-mail has class INVOICE and stored confidence at the threshold or a recorded reviewer |
| PipelineEffects.GuardedSelectionInserts | app/infrastructure/persistence/repositories/tariff_selection.py:119-176 | under the guard the second lookup never finds a run: the decision made is the one stored |
| PipelineEffects.OneInGuard | app/infrastructure/persistence/repositories/tariff_selection.py:40-50 | in every reachable state one handler per invoice inside the selection guard, whatever lock numbers collide |
| MoveRaces.RunPlaced | app/application/services/email_classification.py:103-120 | reachable states keep moved messages in the folder of their class or of review, and what each moving job has read |
| MoveRaces.MovedMessageLies | app/application/services/email_classification.py:103-120 | a moved message is in the folder of its class, or reviewed and in the review folder |
| MoveRaces.FolderMatchesIff | app/application/services/email_classification.py:103-120 | folder and class agree after a mark exactly when no review was stored between read and mark or both classes share a folder, also when the job read the message as already moved |
| MoveRaces.MovedFolderIff | app/application/services/email_classification.py:103-120 | every moved message in every reachable state has such a read and mark, and is in its folder exactly under that condition |
| MoveRaces.ErrorAfterMoveIff | app/application/services/email_classification.py:111-119 | a failing move leaves ERROR on a moved message exactly when a move was marked after the read with no review since |
| MoveRaces.ErrorOnMovedIff | app/infrastructure/persistence/repositories/email_classification.py:75-112 | in every reachable state a moved message has ERROR exactly when a job failed to move it while it was moved, with no review since |
| MoveRaces.FailureOverlapsMark | app/application/services/email_classification.py:111-119 | every such job had read the row unmoved before another one marked it |
| MoveRaces.SomeMessageInReview | app/application/services/email_classification.py:87-98 | a reachable state holds a message in review with two processes at work, so the races below can start |
| MoveRaces.ReviewRace | app/application/services/email_classification.py:103-120 | any message in review, moved or not, can end as INVOICE in the review folder, marked moved |
| MoveRaces.DoubleMoveRace | app/application/services/email_classification.py:111-119 | any classified message can end with status ERROR after its move |
| MoveRaces.LostForEver | app/api/routes/emails.py:58-81 | a review without its move job never gets one |
| MoveRaces.ReviewCanBeLost | app/api/routes/emails.py:58-81 | one request stopping between its two transactions loses the review |
| MoveRaces.StopLoses | app/api/routes/emails.py:58-81 | a request stopping between its two transactions leaves the review without a move job |
| MoveRaces.ReviewFollowedIff | app/api/routes/emails.py:58-81 | in every reachable state a review has its move job, or is about to get it, exactly when no request of that message has stopped so |
| PipelineProgress.EndToEnd | app/worker/jobs/email_classification.py:33-44 | a run in which one e-mail ends moved, with its invoice and its selection run, and every handler returned |
| PipelineProgress.ClassTextsDiffer | app/api/routes/emails.py:72-80 | move jobs of different decisions have different keys |
| InvoiceIntake.PartnerInsertIff | app/infrastructure/persistence/repositories/invoice_intake.py:155-172 | an unknown partner fits the unique columns exactly when it does not bring a second empty document number |
| InvoiceIntake.SecondEmptyDocumentRefused | app/infrastructure/persistence/repositories/invoice_intake.py:155-172 | an input that shows it: two partners with different names and the empty document number |
| InvoiceIntake.KnownMeans | app/infrastructure/persistence/repositories/invoice_intake.py:147-163 | a partner is known by normalized name or by document number unless empty; which name a new one gets |
| InvoiceIntake.CreatedRowsMean | app/infrastructure/persistence/repositories/invoice_intake.py:90-132 | invoice and documents take over partner, numbers and amounts of the command |
| InvoiceIntake.InvoiceIntakeRepository.FindOrCreatePartner | app/infrastructure/persistence/repositories/invoice_intake.py:147-174 | found by normalized name or document, else created, else refused by the unique document |
| InvoiceIntake.InvoiceIntakeRepository.CreateOrGet | app/infrastructure/persistence/repositories/invoice_intake.py:44-145 | keys and contents stay unique, each submission has one invoice, a result always has the command's content, and exactly when a constraint is violated |
| InvoiceIntake.InvoiceIntakeRepository.Existing | app/infrastructure/persistence/repositories/invoice_intake.py:61-69 | the submission without invoice never occurs |
| InvoiceIntake.InvoiceIntakeRepository.AddDocuments | app/infrastructure/persistence/repositories/invoice_intake.py:112-142 | appends all documents and charges in order |
| InvoiceIntake.ChargesComplete | app/infrastructure/persistence/repositories/invoice_intake.py:134-142 | the stored charges are exactly the commanded ones, each under its own document |
| InvoiceIntake.InvoiceIntakeService.Submit | app/application/services/invoice_intake.py:43-55 | every accepted command leaves exactly the selection job of its invoice; a command without invoice file changes nothing |
| InvoiceSource.SourceFiles | app/infrastructure/persistence/repositories/invoice_intake.py:199-237 | only for class INVOICE: the raw message and every attachment in order, with its data and role |
| InvoiceSource.RolesFollowAnswer | app/infrastructure/persistence/repositories/invoice_intake.py:204-226 | an attachment is an invoice file exactly when the AI listed it as one, the raw message exactly when it listed none |
| InvoiceSource.HasSomeInvoiceFile | app/application/services/invoice_intake.py:44-45 | such a submission always has an invoice file if the listed attachments belong to the message |
| TariffSelection.SavedKeeps | app/infrastructure/persistence/models/tariff_selection.py:32-34 | saving keeps one run per invoice, with tariffs exactly when selected and a pending item otherwise |
| TariffSelection.DecideMeans | app/application/services/tariff_selection.py:105-113 | LOW_CONFIDENCE exactly below the threshold; otherwise SELECTED exactly for a non-empty answer, with exactly its tariffs |
| TariffSelection.TariffSelectionService.Select | app/application/services/tariff_selection.py:46-122 | the outcome for every AI answer and every catalog change in between, in terms of the values of confidence and threshold; selected tariffs are active when saved |
| TariffSelection.TariffSelectionService.Save | app/infrastructure/persistence/repositories/tariff_selection.py:109-175 | an existing run wins; a selection needs all its tariffs still active; pending items never repeat |
| Decimals.AddRounds | app/calculation/calculator.py:88-89 | a sum is the nearest decimal of the precision, ties away from zero, exact or within half a unit of the last digit |
| Decimals.SubtractRounds | app/calculation/calculator.py:90-92 | the same for differences |
| Decimals.MultiplyRounds | app/calculation/calculator.py:93-98 | the same for products |
| Division.DivideRounds | app/calculation/calculator.py:99-106 | the same for quotients |
| IdealExponents.SumIsIdeal | app/calculation/calculator.py:87-98 | an exact sum keeps the smaller exponent; the sign of a zero sum |
| IdealExponents.ProductIsIdeal | app/calculation/calculator.py:93-98 | exponents of an exact product add up, with the sign of the operands' signs |
| IdealExponents.QuotientIsIdeal | app/calculation/calculator.py:99-106 | an exact quotient keeps the difference of the exponents if it fits there |
| Decimals.RoundsExact | app/calculation/calculator.py:35-38 | a correctly rounded result of a representable value is that value |
| Decimals.OrderValue | app/calculation/calculator.py:149-158 | comparison of decimals is comparison of their values |
| Rounding.ToScaleRounds | app/calculation/calculator.py:114-123 | the three modes give floor, ceiling and half-up multiples of the last place |
| Rounding.HalfUpNearest | app/calculation/calculator.py:118-123 | half up is a nearest multiple, ties away from zero |
| Rounding.ScaleBracket | app/calculation/calculator.py:114-123 | floor below, ceiling above, one unit apart at most, half up within half a unit |
| Rounding.ScaleMonotoneLaw | app/calculation/finance.py:39 | rounding to a scale is monotone |
| Rounding.Idempotent | app/calculation/finance.py:39 | rounding twice to one scale is rounding once |
| Rounding.Collapse | app/calculation/calculator.py:114-123 | floor of a finer floor is the coarse floor, likewise for ceilings |
| Rounding.DoubleHalfUp | app/calculation/calculator.py:114-123 | rounding half up twice errs by at most half a unit of each scale |
| Rounding.HalfUpCollapsesIff | app/calculation/calculator.py:114-123 | half up in two stages differs from one stage exactly when the finer stage has rounded away from zero onto a coarse half |
| Rounding.HalfUpDoesNotCollapse | app/calculation/calculator.py:114-123 | an input that shows it: 0.45 to one place and then to none gives 1, directly 0 |
| Calculator.DecimalCalculator.Run | app/calculation/calculator.py:32-39 | the object with its counter and trace refines the recursive evaluator |
| Calculator.DecimalCalculator.Evaluate | app/calculation/calculator.py:41-76 | one call changes counter and trace exactly as the evaluator says, also when it fails |
| Calculator.DecimalCalculator.ApplyOperation | app/calculation/calculator.py:78-147 | the accumulating product and the other branches agree with the operation |
| CalculatorTrace.EvalAgrees | app/calculation/calculator.py:49-76 | within the limits the bounded evaluator agrees with the unbounded one and counts every node; outside it fails |
| CalculatorTrace.CalculateMeaning | app/calculation/calculator.py:32-76 | success exactly when depth and nodes are within the limits and the expression has no error of its own; which error otherwise |
| CalculatorOperations.SucceedsIff | app/calculation/calculator.py:78-145 | an operation succeeds exactly if operands and comparator fit it, it does not divide by zero and rounds to at most 50 digits; which error otherwise |
| CalculatorOperations.ResultMeans | app/calculation/calculator.py:78-125 | each result is the correctly rounded one step by step, the first largest or smallest, the scaled or the compared one |
| CalculatorOperations.CalculateSucceedsIff | app/calculation/calculator.py:32-76 | a calculation succeeds exactly within both limits and when every node is sound |
| CalculatorOperations.NoResultByZero | app/calculation/calculator.py:99-102 | an expression that divides by an operand of value zero anywhere is never given a result |
| CalculatorOperations.ZeroDivisorRaises | app/calculation/calculator.py:99-102 | and the error is the division by zero if the operands have none of their own |
| CalculatorTrace.CheckerIffCalculated | app/calculation/calculator.py:66-75 | an independent stack machine accepts exactly the returned result with the returned trace |
| CalculatorTrace.CalculatedTraceShape | app/calculation/calculator.py:66-75 | steps numbered from 1, decimals in, a boolean only as the root's result, last result returned |
| CalculatorExact.EvaluatesExactly | app/calculation/calculator.py:35-123 | if every intermediate value of exact arithmetic needs at most 50 digits the evaluator returns the exact value |
| CalculatorExact.CalculatesExactly | app/calculation/calculator.py:32-39 | so does a calculation within its limits, and the exact value is unique |
| CalculatorExact.QuantizeIff | app/calculation/calculator.py:117-123 | rounding to a scale succeeds exactly when the result is below 10^50 units of the last place |
| CalculatorExact.MaxExact | app/calculation/calculator.py:107-108 | the maximum is a largest operand |
| CalculatorExact.MinExact | app/calculation/calculator.py:109-110 | the minimum is a smallest operand |
| CalculatorRange.ExprRoom | app/calculation/calculator.py:88-123 | in an expression of n nodes every intermediate result stays within 200 n - 4 places of the point |
| CalculatorRange.NeverOverflows | app/calculation/calculator.py:26-30 | every operation that the bounded evaluator performs stays within the room of the node limit, which is below the exponent range up to 5000 nodes |
| DecimalText.LiteralIsValid | app/calculation/models.py:43-53 | a literal that matches the pattern keeps its digits within 128 places |
| DecimalText.RoundTrip | app/calculation/calculator.py:127-128 | reading a written value gives the same value, the same decimal unless its exponent is positive |
| DecimalText.ParsesIff | app/calculation/models.py:43-53 | exactly the texts of the literal pattern are read, as the numbers they write down |
| DecimalText.TextDeterminesValue | app/calculation/calculator.py:66-75 | equal texts in a trace stand for equal values |
| AiPrices.HitIffShared | app/infrastructure/persistence/repositories/ai.py:54-68 | the overlap query hits exactly the windows that share an instant |
| AiPrices.PassesIff | app/infrastructure/persistence/repositories/ai.py:54-71 | a proper candidate passes exactly when no stored window of its provider and model shares an instant with it |
| AiPrices.StepKeepsInv | app/infrastructure/persistence/repositories/ai.py:46-82 | between check and insert nobody adds a price of the same model |
| AiPrices.WindowsDisjoint | app/infrastructure/persistence/repositories/ai.py:31-82 | windows of one model never share an instant, after any interleaving |
| AiPrices.EffectivePrice | app/infrastructure/persistence/repositories/ai.py:86-100 | the newest applicable price in any reading order, none exactly if none applies |
| AiPrices.LookupIsMembership | app/infrastructure/persistence/repositories/ai.py:86-100 | at most one price applies at any instant, so ordering and insertion order do not matter |
| AiPrices.PriceCanBeAdded | app/infrastructure/persistence/repositories/ai.py:46-82 | a proper price whose window shares no instant with those of its model can be added, and nothing else changes |
| AiPrices.RequestMayAbort | app/infrastructure/persistence/repositories/ai.py:44-84 | a request may stop at any point without having added anything, and its lock is then free |
| TariffLineage.StepKeepsInv | app/application/services/tariffs.py:48-75 | every interleaved step keeps the lineage and what each request has read |
| TariffLineage.GroupIsOneChain | app/infrastructure/persistence/repositories/tariffs.py:43-65 | each group is one chain with versions exactly 1..n and one tip |
| TariffLineage.UnracedWriteMeans | app/infrastructure/persistence/repositories/tariffs.py:125-154 | a write that finds its row as read does what was asked for and nothing else |
| TariffLineage.RacedWriteMeans | app/infrastructure/persistence/repositories/tariffs.py:125-154 | a raced write overwrites only the fields that differ from what was read |
| TariffLineage.NextVersionMeans | app/application/services/tariffs.py:59-75 | a new version follows its predecessor, is active, and keeps the notes unless new ones are given |
| TariffLineage.StepGrowth | app/application/services/tariffs.py:59-75 | only an undeleted row without successor gains one; identity and blob never change |
| TariffLineage.VersionCanBeAdded | app/application/services/tariffs.py:59-75 | an undeleted version without successor can be continued; what that changes |
| TariffLineage.RequestMayEnd | app/infrastructure/persistence/repositories/tariffs.py:52-65 | a request may end at any point without having written anything, and its row locks are then free |
| TariffLineage.GhostIff | app/infrastructure/persistence/repositories/tariffs.py:125-154 | exactly when a write makes a row deleted and active |
| TariffLineage.NeverGhostlyIff | app/infrastructure/persistence/repositories/tariffs.py:125-154 | no deleted row has been active in a run exactly when no write has raced |
| TariffLineage.UnchangedRowsKeepGhostsOut | app/infrastructure/persistence/repositories/tariffs.py:125-154 | in particular if each write finds its row as it was read |
| TariffLineage.DeletedYetActive | app/infrastructure/persistence/repositories/tariffs.py:125-154 | a run that ends with a deleted active row |
| LocalStorage.PublishedReadsBack | app/infrastructure/storage/local.py:150-195 | whatever is published passes validation unchanged and reads back as the stored bytes |
| LocalStorage.UploadIff | app/infrastructure/storage/local.py:95-112 | what a document must satisfy to be uploaded, and the sidecar it then gets |
| LocalStorage.OriginalIff | app/infrastructure/storage/local.py:113-122 | the same for an original, which is preserved whatever it contains |
| LocalStorage.TamperingRefused | app/infrastructure/storage/local.py:335-365 | every way in which a sidecar can disagree with its object or kind is refused |
| LocalStorage.PageMeans | app/infrastructure/storage/local.py:213-220 | a page holds the smallest identifiers behind its key, up to the limit |
| LocalStorage.AcceptedSidecarIsStorable | app/infrastructure/storage/local.py:335-365 | a sidecar that passes validation is one that storing writes; for opaque originals exactly if the extension is that of the name |
| LocalStorage.CorruptionDetected | app/infrastructure/storage/local.py:150-168 | nothing is returned that differs from the recorded size or digest |
| LocalStorage.LocalStorageProvider.Store | app/infrastructure/storage/local.py:79-148 | the area is unchanged up to the final rename and then holds one readable object, even if the last sync raises; a rejection leaves nothing |
| LocalStorage.LocalStorageProvider.Publish | app/infrastructure/storage/local.py:119-145 | the object becomes visible by the rename only |
| LocalStorage.LocalStorageProvider.Delete | app/infrastructure/storage/local.py:236-253 | needs approval and an intact object; what is left after each of its operations |
| LocalStorage.PagingIsComplete | app/infrastructure/storage/local.py:197-220 | following the last key of each page lists what lies behind the first key, in order, for any limit |
| LocalStorage.WholeArea | app/infrastructure/storage/local.py:197-220 | so an unchanged area is listed exactly once, in order |
| LocalStorage.ListableIffHealthy | app/infrastructure/storage/local.py:213-220 | listing works from every key exactly when every object validates |
| LocalStorage.InterruptedDeletion | app/infrastructure/storage/local.py:236-253 | an interrupted deletion makes listing fail exactly between removing sidecar and directory; the object is neither readable nor deletable, all others are untouched |
| ThreadResolver.RelatedIsSymmetric | app/infrastructure/email/thread_resolver.py:24-37 | being related is symmetric (message identification fields of section 3.6.4 of RFC 5322) |
| ThreadResolver.TimestampMeans | app/infrastructure/email/thread_resolver.py:9-15 | the received date counts before the header date, and a message without dates is the oldest |
| ThreadResolver.RelatedMeans | app/infrastructure/email/thread_resolver.py:24-37 | related exactly by a message identifier that is not empty, or by a common participant and the same subject |
| ThreadResolver.CandidatesMean | app/infrastructure/email/thread_resolver.py:50-58 | candidates are the related messages other than the current one, each as often as fetched |
| ThreadResolver.CharactersAdd | app/infrastructure/email/thread_resolver.py:62-69 | the size of a selection is the sum of its messages' sizes |
| ThreadResolver.NewestSorts | app/infrastructure/email/thread_resolver.py:50-58 | candidates are permuted into newest-first order |
| ThreadResolver.NewestIsStable | app/infrastructure/email/thread_resolver.py:50-58 | messages of one instant keep their order |
| ThreadResolver.ResolveThreadContext | app/infrastructure/email/thread_resolver.py:40-75 | history is the reversed longest prefix that fits, the total is its size, truncated exactly if a related message was left out |
| ThreadResolver.LongestFitIsMaximal | app/infrastructure/email/thread_resolver.py:62-68 | a prefix fits both bounds exactly when it is no longer than the selection |
| ThreadResolver.HistoryIsChronological | app/infrastructure/email/thread_resolver.py:69 | history is oldest first |
| ToolLoop.Generate | app/infrastructure/ai/openai_provider.py:63-137 | at most min(rounds, calls) + 1 requests and max_tool_calls calls started for any stream of responses and failures; result and usage are those of the whole conversation |
| ToolLoop.RunCalls | app/infrastructure/ai/openai_provider.py:113-133 | exactly the calls up to the first problem are started |
| ToolLoop.RoundsAtMostCalls | app/infrastructure/ai/openai_provider.py:108-137 | rounds never exceed calls, both stay within their limits, and every reply before the last had an identity and calls that all ran |
| ToolLoop.UsageIsSum | app/infrastructure/ai/openai_provider.py:219-227 | each count of the total usage is the sum over all replies |
| ToolLoop.EndingMeans | app/infrastructure/ai/openai_provider.py:98-137 | an answer needs a completed reply with output and without calls; the loop limit is hit exactly by exceeding a limit |
| ToolLoop.EndsOnce | app/infrastructure/ai/openai_provider.py:79-137 | a stream determines one ending |
| Finance.ConsolidateIsWorst | app/calculation/finance.py:45-63 | the counting branches compute the worst status; the last branch is never taken |
| Finance.Homomorphism | app/calculation/finance.py:45-63 | the status of a concatenation is the join of the parts |
| Finance.PermutationInvariant | app/calculation/finance.py:45-63 | the order of documents does not matter |
| Finance.CorrectIff | app/calculation/finance.py:59-60 | CORRECT exactly for a non-empty list of correct documents |
| Finance.StatusMeans | app/calculation/finance.py:45-63 | what each status of an invoice says about its documents, in order of precedence |
| Finance.ToleranceIsExact | app/calculation/finance.py:32-41 | the tolerance decision is the exact one whenever its intermediate values need at most 28 digits |

## Left out

- IMAP sockets, MIME decoding and document parsers: the mail provider, the AI and content validation appear as
  values or errors that may be anything.
- SHA-256, JSON text, Unicode normalisation, MIME and file name rules: abstract functions or predicates.
- Job keys as strings: each key format is a constructor, so different formats cannot coincide.
- Ambiguous commits, serialization failures and waits on unique indexes and row locks of plain updates.
- Loss of the database session that holds an execution or selection guard while its worker keeps running.
- Heartbeat thread timing: a heartbeat may happen at any moment or never.
- HTTP routing, roles, settings, user interface, migrations and set-up scripts.
- Error redaction, telemetry rows and record mappers: single-branch facts.
- Validation of attachment identifiers in AI answers, and the rewriting of unsafe attachment names.
- The upload and compensation order of tariff files: the same pattern as the manual invoice route.
- Rejection of negative tolerances, and gross margins: one guard each around the same arithmetic.
- Expressions with several errors report the first one met; the order of errors is modelled, error texts are not.
- Finance.ToleranceIsExact: says nothing when an intermediate value needs more than 28 digits, because these rules run
  in the default context, whose rounding of ties the model leaves open. The rounded difference shown beside the
  decision is not modelled.
- WorkerLoop.RunOnce: assumes that no other worker changes the table between claiming and finishing; several workers
  are the subject of WorkerProtocol.
