# FODIP back office: verified model

This project models the transactional core of the FODIP financing back office in Dafny and proves what holds over every
run of it. Each area has a specification (rows as values, one function per transaction, runs as sequences of events), the
classes and methods that do the work statement by statement as the repositories do, proved against that specification,
and the theorems about all runs.

`dafny verify dfyconfig.toml` checks everything.

## Areas

| file | what it models |
|---|---|
| `RateLimiter.dfy` | the sliding-window limiter over its hit and block tables, against a log that forgets nothing |
| `Programmes.dfy`, `ProgrammeRepositories.dfy` | programme rule versions and the two repositories that write them |
| `Checklist.dfy` | dossiers and programmes together: the locked rule version and its mandatory documents |
| `Workflow.dfy`, `DossierRepositories.dfy` | the dossier's conditional updates, and services that act on stale reads |
| `Idempotency.dfy` | claim, handler, complete or release, for any number of interleaved calls |
| `IdempotentWrites.dfy` | ledger writes behind that protocol, by handlers that can throw after their commit |
| `Rounding.dfy`, `Calendar.dfy`, `Amortization.dfy` | half-up rounding, date arithmetic, the amortization schedule |
| `Ledger.dfy`, `LedgerRepositories.dfy` | financings, instalments, disbursements and repayments, with both writers |
| `MoneyPipeline.dfy` | from the committee's approval to the ledger, under any interleaving of stale requests |
| `Reconciliation.dfy`, `ReconciliationRepositories.dfy` | bank statement entries matched to ledger operations |
| `Reminders.dfy`, `ReminderDispatch.dfy` | reminder dispatch with crashes, quarantine, late marks and retries |
| `Migrations.dfy` | the migration runner over failing and retried runs |
| `Scoring.dfy` | the weighted score and its rounding |
| `Common.dfy` | `Option` and `Result` |

## How the source is read

- A database transaction, or one CTE statement, is one atomic step under its row or advisory lock. What a service reads
  before it is a separate step and may be stale by any amount, the committee's read included.
- A transaction that throws leaves the tables as they were.
- Money is an integer number of cents, rates are ten-thousandths of a percent (the columns' precision), intermediate
  quotients are exact; `Number.EPSILON` is ignored. Scores are real numbers. The tolerance of 0.001 in the balance checks
  is kept, in tenths of a cent.
- The application's clock and `NOW()` are one clock that never runs backwards.
- A SHA-256 digest stands for what it is taken of. Unique constraints hold; violating one rolls the transaction back.
- The latest committee decision is the last one inserted. A rule version is named by its programme and its number.
- Child rows (versions, instalments, disbursements, repayments) are kept inside their parent and named by their position,
  so an identifier that belongs to another parent is a position that does not exist.
- The bank of a financing is assigned outside these repositories, at most once; a partner's client portfolio is whatever
  it is when the transaction runs.
- Document and programme codes are taken as already trimmed and upper-cased.
- Requests carry what their request objects accept: an amount requested is at least one unit (100 cents).
- The `Valid()` of each repository's tables is the invariant that its run theorems state, kept by every method. It admits
  every database that the migrations build. The dossiers' statements ask for nothing but unused identifiers; what their
  services check before them is asked for only where `Valid()` is claimed.
- A programme has a baseline: the versions that the migrations wrote for it, active at once, with no preparer and no
  approval, possibly to come into force later. It is 1 or 0, a programme without any version included. What is proved of
  approvals is about the versions above the baseline; the timeline, the lookup and the checklist are about all versions.
- Failures that the guarantees need to exclude are explicit hypotheses: a failing completion update of the idempotency row,
  a failing success record of the migration runner. A lemma shows for each what happens without the hypothesis.

## Where the code does not meet the plain promise

- The limiter's bound over all windows holds exactly when `limit` is 0 or blocks last at least as long as the window
  (`RateLimiter.WindowBoundIff`).
- Once a handler has returned, no other handler on its key ever returns if and only if its completion update succeeds
  (`Idempotency.LastSuccessIffCompleted`).
- Under one key no second ledger write happens if and only if the call that wrote is completed: its handler does not throw
  after its own commit, as the read of the result after the transaction can, and its completion does not fail
  (`IdempotentWrites.OneWriteIffCompleted`).
- A key whose handler failed is refused to every later call if and only if its release fails too
  (`Idempotency.RefusedForeverIffNotReleased`), and so is the key of a call that died (`Idempotency.DeadCallBlocksKey`).
- A committee decision validated on an earlier read stays within the amount requested if and only if it lands on the
  history it was read on, or is for no more than the least amount: the update compares the status only
  (`Workflow.WithinRequestIffHistoryUnchanged`).
- Full marks score exactly 100 in all models of n criteria exactly when n is below 100; a model of 100 criteria scores
  100.01 (`Scoring.HundredExactIff`).
- Retrying migrations executes each file once if and only if the run did not stop at a commit whose record failed
  (`Migrations.EachOnceIffStopsRecorded`).
- A dossier's checklist is constant exactly once a version is locked (`Checklist.ChecklistFixedIffLocked`): submitted while
  the programme has no effective version, it follows every later publication.
- The review table allows SOUMIS to COMPLEMENT_REQUIS, but that move is never taken: a dossier in SOUMIS has no agent
  (`Workflow.HistoryIsAPath`).
- An approved draft can be activated if and only if the version before it is already in force: not at the very instant
  that one became effective, and not before a version 1 that the migrations dated in the future (`Programmes.ActivatesIff`).
- A financing is created for an eligible application whose dossier is free if and only if its schedule ends by the year
  9999: a later due date is written as a text that is no date (`Ledger.CreatesIff`).

## Model

| member | source | states |
|---|---|---|
| RateLimiter.PostgresThrottlerStorage.PerformIncrement | apps/api/src/common/postgres-throttler-storage.service.ts:76-161 | one call answers exactly as an unbounded log of the recorded calls would: the number of live calls, with this one unless a block lasts, the whole seconds until the first of them expires and until the block ends; no other (key, throttler) pair is touched |
| RateLimiter.PostgresThrottlerStorage.Count | apps/api/src/common/postgres-throttler-storage.service.ts:117-159 | after a lapsed block the table holds only the new call, otherwise the unexpired rows and the new call; the pair is blocked exactly when that exceeds the limit |
| RateLimiter.AnswerTo | apps/api/src/common/postgres-throttler-storage.service.ts:95-159 | a call is answered blocked exactly while a block lasts or when it is the one over the limit |
| RateLimiter.AnswerTellsTheLog | apps/api/src/common/postgres-throttler-storage.service.ts:105-159 | every answer tells the live count, the least whole seconds that cover the time to the earliest expiry, and those to the end of the block or 0 |
| RateLimiter.TiedAlive | apps/api/src/common/postgres-throttler-storage.service.ts:102-108 | although expired rows were swept at earlier calls, the unexpired rows are exactly the live calls of the log |
| RateLimiter.BlockedAgrees | apps/api/src/common/postgres-throttler-storage.service.ts:98-115 | in the blocked branch `totalHits` is the number of unexpired rows, which is the live count of the log, and nothing is recorded |
| RateLimiter.RecordedAgrees | apps/api/src/common/postgres-throttler-storage.service.ts:117-159 | sweeping or wiping and then inserting keeps table and log in agreement, and `totalHits` is the number of rows then, the live calls and the new one |
| RateLimiter.QuietWhileBlocked | apps/api/src/common/postgres-throttler-storage.service.ts:95-98 | nothing is admitted after the call that started the current or lapsed block |
| RateLimiter.RunFenced | apps/api/src/common/postgres-throttler-storage.service.ts:117-124 | after any wipes, every admitted call that can share a window with a future call is still in the log |
| RateLimiter.WindowBound | apps/api/src/common/postgres-throttler-storage.service.ts:83-160 | over every run, each half-open window of length ttl admits at most `limit` calls when blocks last at least ttl |
| RateLimiter.ShortBlockBreaksTheBound | apps/api/src/common/postgres-throttler-storage.service.ts:117-124 | for every positive limit and every shorter block there is a run that admits one call too many |
| RateLimiter.WindowBoundIff | apps/api/src/common/postgres-throttler-storage.service.ts:83-160 | the window bound holds over all runs if and only if the limit is 0 or blockDuration is at least ttl |
| RateLimiter.PatientCallerNeverBlocked | apps/api/src/common/postgres-throttler-storage.service.ts:142-152 | a caller with at most `limit` calls in every ttl window is never answered blocked |
| RateLimiter.CountIsTheWindow | apps/api/src/common/postgres-throttler-storage.service.ts:142-155 | to a caller never refused, `totalHits` is the number of its calls in the ttl window that ends now, this one included |
| ProgrammeRepositories.ValidateDocuments | apps/api/src/programs/programs.repository.ts:497-509 | the loop over the seen codes and types accepts exactly the lists without a repeated code or type |
| ProgrammeRepositories.ProgramsRepository.CreateProgram | apps/api/src/programs/programs.repository.ts:190-232 | a programme with draft 1 under a new identifier and a code not used before; refused for amounts, documents or dates out of order, then for a code already used |
| ProgrammeRepositories.ProgramsRepository.CreateDraftVersion | apps/api/src/programs/programs.repository.ts:262-332 | accepted exactly when there is no draft: the next number, starting as the active version says, or as the programme's own columns before any version |
| ProgrammeRepositories.ProgramsRepository.UpdateDraftVersion | apps/api/src/programs/programs.repository.ts:334-378 | accepted exactly on the draft with amounts in order and no repeated document: every field that the request gives takes its value, nulls included, every other keeps its own; the actor becomes the preparer, submission and approval are cleared; a refusal says why |
| ProgrammeRepositories.ProgramsRepository.SubmitVersion | apps/api/src/programs/programs.repository.ts:380-399 | only a draft is submitted, which clears its approval |
| ProgrammeRepositories.ProgramsRepository.ApproveVersion | apps/api/src/programs/programs.repository.ts:401-425 | only a submitted draft is approved, and not by its preparer or submitter |
| ProgrammeRepositories.ProgramsRepository.ActivateVersion | apps/api/src/programs/programs.repository.ts:427-481 | only an approved draft is activated, the others are archived at that instant and the programme's own columns are overwritten |
| ProgrammeRepositories.ArchiveActive | apps/api/src/programs/programs.repository.ts:448-455 | archiving the active rows gives the specified rows, or is refused when an interval would be empty |
| ProgrammeRepositories.CommitInv | apps/api/src/programs/programs.repository.ts:190-481 | whatever a transaction of either repository does to one programme, the invariant of all programmes in the table stays, migrated ones included |
| ProgrammeRepositories.CommitPerforms | apps/api/src/programs/programs.repository.ts:262-481 | each transaction is accepted exactly when it is admissible, does to its one programme exactly what is due, and a refusal names what is really wrong |
| ProgrammeRepositories.CreationMeans | apps/api/src/programs/programs.repository.ts:190-232 | a creation is accepted exactly with dates and amounts in order, known regions and sectors, no repeated document and a free code; the new draft says what was asked for |
| ProgrammeRepositories.ProgramProposalsRepository.CreateProposal | apps/api/src/programs/program-proposals.repository.ts:105-153 | as CreateProgram, with the author recorded, and refused for unknown regions or sectors as well |
| ProgrammeRepositories.ProgramProposalsRepository.UpdateRules | apps/api/src/programs/program-proposals.repository.ts:212-251 | accepted exactly on an unsubmitted draft of the author's own proposal; field by field as the request says, with approvals left alone; a refusal says why |
| ProgrammeRepositories.ProgramProposalsRepository.SubmitProposal | apps/api/src/programs/program-proposals.repository.ts:253-276 | the author submits an unsubmitted draft of an own proposal |
| Programmes.StepInv | apps/api/src/programs/programs.repository.ts:190-481 | every transaction of either repository keeps numbering and interval chaining, and four eyes and the denormalised copy above the baseline |
| Programmes.MigratedInv | database/027_program_rule_versioning.sql:72-101 | what the migrations leave, a version 1 without preparer or approval, to come into force at any time, or no version at all, is covered by everything below |
| Programmes.RunInv | apps/api/src/programs/programs.repository.ts:190-481 | the same over every run that mixes the two repositories |
| Programmes.RunOneDraftOneActive | apps/api/src/programs/programs.repository.ts:262-332 | from any such start, numbers are 1..n, at most one draft, which is last, and at most one active version, with archived ones before it |
| Programmes.ActivationsInOrder | apps/api/src/programs/programs.repository.ts:427-455 | versions activate in number order, each activation publishing exactly the next number |
| Programmes.IntervalsTile | apps/api/src/programs/programs.repository.ts:448-462 | from the first version's instant on, migrated or activated, every instant lies in the interval of exactly one published version |
| Programmes.EffectiveIsLastPublished | apps/api/src/applications/applications.repository.ts:14-22 | the lookup of the version in force gives the last published version from its instant on, and nothing before; above the baseline it always gives it |
| Programmes.CatalogueReadsTheVersion | apps/api/src/programs/programs.repository.ts:10-76 | while a version is in force, the COALESCE read returns its values, null ones included, and its documents, if the copy agreed at the start or a version was activated since |
| Programmes.StepKeepsApproved | apps/api/src/programs/programs.repository.ts:334-378 | no transaction changes the content or the signatures of an approved version, except its own approval |
| Programmes.PublishedContentStays | apps/api/src/programs/programs.repository.ts:334-378 | no transaction unpublishes a version or changes the content of a published one, migrated ones included |
| Programmes.FourEyesOnContent | apps/api/src/programs/programs.repository.ts:334-481 | every approved version above the baseline owes it to one approval event, by someone who neither prepared nor submitted it, and its content has been the approved one ever since |
| Programmes.PublishedMeansApproved | apps/api/src/programs/programs.repository.ts:427-446 | whatever left the draft stage above the baseline was approved |
| Programmes.ActivatesIff | apps/api/src/programs/programs.repository.ts:427-462 | an approved draft can be activated if and only if the version before it is already in force |
| Programmes.ProposalEditorReliesOnSubmission | apps/api/src/programs/program-proposals.repository.ts:212-251 | the proposal editor changes the content of an approved draft, keeping the approval, exactly when it is not submitted: it relies on approved implying submitted |
| Programmes.Republish | apps/api/src/programs/programs.repository.ts:262-481 | from every reachable or migrated programme two actors can publish any valid checklist, once the version in the way has come into force |
| Programmes.EditsFieldByField | apps/api/src/programs/programs.repository.ts:349-371 | both edits, field by field and document list by document list, for every accepted edit of the named row |
| Programmes.AcceptedIffAdmissible | apps/api/src/programs/programs.repository.ts:262-481 | exactly which requests are accepted: states, signatures, actors, amounts and documents spelled out per request |
| Programmes.AcceptedLands | apps/api/src/programs/programs.repository.ts:262-481 | what an accepted request changes, and that it changes nothing else |
| Programmes.RefusalExplains | apps/api/src/programs/programs.repository.ts:262-481 | each kind of refusal is given only for what it says |
| Programmes.DraftStartsFromTheActive | apps/api/src/programs/programs.repository.ts:281-325 | a new draft copies rules and documents of the active version, or of the programme when it has no version |
| Programmes.SignaturesAreTheRequests | apps/api/src/programs/programs.repository.ts:334-425 | over every run, preparer, submission and approval of every version are exactly what the accepted requests make of them |
| Programmes.FourEyesOnActors | apps/api/src/programs/programs.repository.ts:401-425 | over every run, whoever's request approved a version is neither the author of the last accepted request that wrote it nor of the last that submitted it |
| Programmes.RunAllValid | apps/api/src/programs/programs.repository.ts:497-509 | no run stores amounts out of order, or a document code or type twice, in a version or in the programme |
| Programmes.ProposalsBelongToTheirAuthor | apps/api/src/programs/program-proposals.repository.ts:212-276 | the proposers' requests are accepted only from the author of the proposal, while it is unpublished |
| Checklist.SubmissionLocks | apps/api/src/applications/applications.repository.ts:208-235 | submitting while the programme has a version in force locks that version, the last published one |
| Checklist.MandatoryAreTheObligatory | apps/api/src/applications/applications.repository.ts:33-92 | the mandatory documents are exactly those marked so |
| Checklist.AskedByTheVersion | apps/api/src/applications/applications.repository.ts:33-92 | a dossier is asked for the mandatory documents of its locked version, else of the version in force, else of the programme |
| Checklist.StepInv | apps/api/src/applications/applications.repository.ts:183-235 | every step keeps locked versions published ones of the dossier's own programme |
| Checklist.RunKeepsChecklist | apps/api/src/applications/applications.repository.ts:33-92 | over the rest of any run a locked version and its documents stay |
| Checklist.LockedChecklist | apps/api/src/applications/applications.repository.ts:33-92 | once locked, the version a dossier is judged by and its mandatory documents are the same at any later time |
| Checklist.ChecklistFixedIffLocked | apps/api/src/applications/applications.repository.ts:61-90 | a submitted dossier's checklist is fixed in all continuations if and only if a version is locked |
| Checklist.DraftsAreUnreferenced | apps/api/src/programs/programs.repository.ts:334-378 | no dossier refers to a version whose documents can still be edited |
| DossierRepositories.CommitInv | apps/api/src/applications/applications.repository.ts:183-235 | every statement a service can issue keeps path, assignment, decisions, scores and locked version of every dossier in the table |
| DossierRepositories.CommitMeans | apps/api/src/applications/applications.repository.ts:183-235 | each statement matches exactly such a row, writes exactly what it is for, and leaves every other row alone |
| DossierRepositories.DossierTable.CreateDraft | apps/api/src/applications/applications.repository.ts:129-150 | a new row in BROUILLON for an existing programme and a positive amount |
| DossierRepositories.DossierTable.UpdateOwned | apps/api/src/applications/applications.repository.ts:183-206 | edits by the owner, in BROUILLON, or in COMPLEMENT_REQUIS when the programme is kept; with nothing to set, the owner's row is found as it is, and nobody else's |
| DossierRepositories.DossierTable.SubmitOwned | apps/api/src/applications/applications.repository.ts:208-235 | the conditional submission, with the version in force looked up over the programme tables |
| DossierRepositories.DossierTable.Claim | apps/api/src/agent-applications/agent-applications.repository.ts:170-203 | the conditional claim and its history row |
| DossierRepositories.DossierTable.Transition | apps/api/src/agent-applications/agent-applications.repository.ts:205-226 | the compare-and-set on agent and status, and its history row, whatever the move; the invariant stays if the service let it through |
| DossierRepositories.DossierTable.SaveScore | apps/api/src/scoring/scoring.repository.ts:85-125 | a model's total, class and details are inserted or replaced together, unless the table of the details refuses them; other models' scores stay; the invariant stays if the service calculated the score |
| DossierRepositories.DossierTable.Decide | apps/api/src/committee/committee.repository.ts:155-187 | found exactly in PRET_COMITE; then one decision is added with the verdict, amount, rate and duration that were sent, and one move by that user, and nothing else changes; the invariant stays if the terms are valid |
| DossierRepositories.DossierTable.ProgrammesMoveOn | apps/api/src/applications/applications.repository.ts:14-22 | what the repositories of the programmes do to their tables leaves every dossier's invariant and locked version intact |
| DossierRepositories.CalculatedIsStorable | apps/api/src/scoring/scoring.repository.ts:85-125 | a score the service calculated has no negative and no repeated detail, so saving it is never refused |
| Workflow.WriteKeeps | apps/api/src/agent-applications/agent-applications.repository.ts:170-226 | any statement issued under its policy keeps the dossier's invariant; readiness is needed only for the move to PRET_COMITE |
| Workflow.WriteMeans | apps/api/src/agent-applications/agent-applications.repository.ts:170-226 | which rows each of the six statements matches, and field by field what it leaves of them |
| Workflow.TermsMean | apps/api/src/committee-policy.js:10-26 | the committee's terms one by one: amount within the request, duration, rate, grace period, comment |
| Workflow.ReviewsMean | apps/api/src/agent-policy.js:3-16 | the five moves of the review, for the assigned agent only |
| Workflow.CalculatedIsComplete | apps/api/src/scoring/scoring.service.ts:19-33 | whatever answers are scored, a score that is saved has one detail for each criterion of the model |
| Workflow.StepInv | apps/api/src/agent-applications/agent-applications.service.ts:29-48 | every step, with agents, scorers and committee acting on kept reads, keeps path, authors, assignment, decisions, completeness and what each kept read still says; only the agent scores and reviews |
| Workflow.HistoryIsAPath | apps/api/src/agent-applications/agent-applications.repository.ts:170-226 | the history is an unbroken path of permitted moves from BROUILLON to the status; the agent is absent exactly in BROUILLON and SOUMIS and made every move of the review; every move of the committee has its decision |
| Workflow.CommitteeSeesCompleteScores | apps/api/src/agent-applications/agent-applications.repository.ts:228-242 | every dossier in PRET_COMITE has a detail for each criterion of the model, although readiness only counts and was checked on a stale read |
| Workflow.ApprovalWithinRequest | apps/api/src/committee/committee.service.ts:26-35 | an approved dossier has one approval, its last decision, on valid terms, which are the amount, rate and duration that the committee sent, by the user of its last move, and within the amount requested if the history had not grown since the committee's read |
| Workflow.RunSettled | apps/api/src/agent-applications/agent-applications.repository.ts:170-203 | the agent never changes once set, APPROUVE and REJETE are final, history and decisions only grow |
| Workflow.StaleCommitteeReadOverApproves | apps/api/src/committee/committee.service.ts:26-35 | from every reachable dossier that is not final, a kept decision on more than the least amount has a continuation in which it lands and approves more than is requested |
| Workflow.WithinRequestIffHistoryUnchanged | apps/api/src/committee/committee.repository.ts:155-187 | a kept decision is within the request whenever it lands, if and only if it lands on the history it was read on (or is for no more than the least amount) |
| Idempotency.IdempotencyKeys.ClaimKey | apps/api/src/common/idempotency.service.ts:41-47 | the insert wins exactly when the key is free, other keys are untouched, and until completion every other call on the key is refused |
| Idempotency.IdempotencyKeys.CompleteClaim | apps/api/src/common/idempotency.service.ts:53-56 | from then on a call with the key is answered this result if it sent the claim's payload and refused if not; other keys are untouched |
| Idempotency.IdempotencyKeys.ReleaseClaim | apps/api/src/common/idempotency.service.ts:62 | the key is free again and the claim's identifier unused; other keys are untouched |
| Idempotency.IdempotencyKeys.LookUp | apps/api/src/common/idempotency.service.ts:69-83 | a stored result is returned for the same payload only |
| Idempotency.IdempotencyKeys.Run | apps/api/src/common/idempotency.service.ts:37-84 | an undisturbed call runs its handler exactly when the key is free or absent, and a failed handler leaves no row |
| Idempotency.StepInv | apps/api/src/common/idempotency.service.ts:37-84 | every interleaved statement keeps each row tied to the one call that holds it |
| Idempotency.OneHandlerAtATime | apps/api/src/common/idempotency.service.ts:37-66 | on one key at most one handler runs at a time, whatever fails |
| Idempotency.EveryValueIsTheHandlersResult | apps/api/src/common/idempotency.service.ts:67-83 | every call that gets a value gets the one handler's result, for its own payload |
| Idempotency.AtMostOneSuccess | apps/api/src/common/idempotency.service.ts:37-66 | once a handler has returned, completed or not, no other handler on its key runs or returns at any later time, unless its own completion fails |
| Idempotency.FailedCompletionRunsTwice | apps/api/src/common/idempotency.service.ts:53-63 | from every reachable state in which a handler has returned, a failed completion has a continuation with a second successful handler on the key |
| Idempotency.LastSuccessIffCompleted | apps/api/src/common/idempotency.service.ts:49-65 | from every such state, no other handler on the key ever returns in any continuation, if and only if the completion succeeds |
| Idempotency.DeadCallBlocksKey | apps/api/src/common/idempotency.service.ts:41-77 | after a call died with its claim neither completed nor released, nobody else runs a handler on the key or receives a value, ever |
| Idempotency.RefusedForeverIffNotReleased | apps/api/src/common/idempotency.service.ts:57-65 | from every state in which a handler or its completion failed, the key is refused to all later calls if and only if the release fails |
| IdempotentWrites.OneWrite | apps/api/src/financings/financings.service.ts:78-90 | after a call wrote to the ledger, and while its handler does not throw nor its completion fail, no other call on the key writes |
| IdempotentWrites.ValueMeansOneCompletedWrite | apps/api/src/financings/financings.service.ts:78-90 | a call that receives a value owes it to one call that wrote once and was completed, for the same payload; every other call that wrote under the key failed after its commit and was answered an error |
| IdempotentWrites.FailureAfterCommitWritesTwice | apps/api/src/financings/financings.service.ts:86-89 | when a handler has failed after its commit, by the read or by its completion, the retry commits the same request a second time if the ledger accepts it |
| IdempotentWrites.OneWriteIffCompleted | apps/api/src/financings/financings.service.ts:78-90 | from every state in which a handler has committed, over its three endings, no further write happens under the key if and only if the call is completed |
| Rounding.RoundHalfUp | apps/api/src/finance-policy.js:3-5 | the result is the only integer within half a unit of the quotient, halves going up |
| Rounding.RoundMonotone | apps/api/src/finance-policy.js:3-5 | rounding keeps the order of quotients |
| Calendar.DateOf | apps/api/src/finance-policy.js:7-15 | the getters read a day number as the real date that has it |
| Calendar.DateOfDay | apps/api/src/finance-policy.js:7-15 | reading back the day number of a real date gives that date |
| Calendar.ParseAcceptsRealDates | apps/api/src/finance-policy.js:7-15 | the parser accepts exactly the texts of real Gregorian dates of the years 100 to 9999, leap years included |
| Calendar.AddMonthsClamps | apps/api/src/finance-policy.js:17-22 | the result lies in the k-th following month, on the start day clamped to that month's length |
| Calendar.AddMonthsIncreases | apps/api/src/finance-policy.js:17-22 | more months give a strictly later day |
| Amortization.BuildAmortizationSchedule | apps/api/src/finance-policy.js:24-47 | the loop that reassigns the outstanding balance computes the closed form, with the errors in the source's order; each line is the month's interest and the equal part of the capital on what the lines before it leave outstanding |
| Amortization.EachLineOnOutstanding | apps/api/src/finance-policy.js:33-46 | each line: a twelfth of the annual percentage of what is outstanding, to the nearest cent, and the n-th part of the principal to the nearest cent, or all that is left |
| Amortization.TwelfthOfTheYear | apps/api/src/finance-policy.js:37 | at 100 % a year a balance of 12 x bears exactly x a month |
| Amortization.RefusalsTell | apps/api/src/finance-policy.js:24-31 | a refusal names the first thing wrong of date, amount, rate and duration |
| Amortization.NextInstallment | apps/api/src/finance-policy.js:35-39 | one turn takes the closed-form capital and interest and leaves the next closed-form balance |
| Amortization.BalanceAfter | apps/api/src/finance-policy.js:35-39 | with balance max(0, P - k r), capital parts are between 0 and the balance and the last leaves nothing |
| Amortization.CapitalSumsToPrincipal | apps/api/src/finance-policy.js:33-46 | capital parts are non-negative and add up to the principal to the cent; no interest is negative |
| Amortization.LastCloseToRegular | apps/api/src/finance-policy.js:33-36 | the last capital part differs from the regular one by at most n/2 cents |
| Amortization.InterestNonIncreasing | apps/api/src/finance-policy.js:37 | interest never increases from one instalment to a later one |
| Amortization.InterestError | apps/api/src/finance-policy.js:37 | total interest is within n/2 cents of a twelfth of the yearly percentage on the balances |
| Amortization.DueIsPrincipalAndInterest | apps/api/src/finance-policy.js:39-45 | what is due in all is the principal and the interest |
| Amortization.ScheduleAddsUp | apps/api/src/finance-policy.js:24-47 | a schedule has n lines numbered from 1 that add up to the principal, each dated k months after the start |
| Amortization.ScheduleExistsIff | apps/api/src/finance-policy.js:24-31 | a schedule is built if and only if the date is the text of a real date, the amount is positive, the rate within 0..100 % and the duration within 1..120 months |
| Amortization.DueDateClamps | apps/api/src/finance-policy.js:17-22 | due date k is clamped in its own month only; up to year 9999 its text parses back to it, and after that it is no date |
| Amortization.DueDatesIncrease | apps/api/src/finance-policy.js:35-46 | the texts of the due dates are those of strictly increasing days |
| Amortization.DatedIff | apps/api/src/financings/financings.repository.ts:123-133 | all lines of a schedule fall on dates that can be stored if and only if the last one falls no later than the year 9999 |
| LedgerRepositories.AppendRow | apps/api/src/financings/financings.repository.ts:203-214 | exactly when the financing is active and the amount fits, to the cent, into what is granted and not committed, one row is added: of that amount, created by that user, in that state, executed by nobody |
| LedgerRepositories.RepayRow | apps/api/src/financings/financings.repository.ts:262-280 | exactly when it fits, to the cent, into what is due and not paid, the payment is recorded as it is; the instalment is PAYEE exactly when it is then paid in full, and all else is unchanged |
| LedgerRepositories.FinancingsRepository.CreateFromApplication | apps/api/src/financings/financings.repository.ts:103-142 | an active financing on the application's terms, with every line of the schedule unpaid, is inserted exactly when all due dates are dates and the dossier has none; the cast fails first |
| LedgerRepositories.FinancingsRepository.PlanDisbursement | apps/api/src/financings/financings.repository.ts:196-220 | exactly when the financing is active and the ceiling leaves room, one planned row of that amount and that user is added, and nothing else changes |
| LedgerRepositories.FinancingsRepository.ExecuteDisbursement | apps/api/src/financings/financings.repository.ts:222-252 | each of the four outcomes means what it says; in the last one the planned row of another user is marked executed by this one, and nothing else changes |
| LedgerRepositories.FinancingsRepository.CreateRepayment | apps/api/src/financings/financings.repository.ts:254-286 | exactly when it fits into what is due, the payment is recorded as it is with the status it gives, and nothing else changes |
| LedgerRepositories.FinancingsService.CreateFromApplication | apps/api/src/financings/financings.service.ts:66-81 | schedule first, then the repository, on an application that may be stale |
| LedgerRepositories.PartnerRepository.CreateDisbursement | apps/api/src/partner/partner.repository.ts:171-198 | in the partner's scope and under the same ceiling, one executed row of that amount and that user, and nothing else changes |
| LedgerRepositories.PartnerRepository.CreateRepayment | apps/api/src/partner/partner.repository.ts:201-239 | the partner's payment, in its scope and under the same rule, recorded as it is |
| Ledger.AcceptedWithinBalance | apps/api/src/financings/financings.repository.ts:208-208 | on cents the 0.001 tolerance is harmless: disbursements and repayments are accepted exactly up to the remaining balance |
| Ledger.CreatesIff | apps/api/src/financings/financings.repository.ts:103-142 | an application is financed if and only if its schedule exists and ends by the year 9999, and its dossier has no financing |
| Ledger.AppendInv | apps/api/src/financings/financings.repository.ts:203-214 | adding a disbursement keeps numbers 1..n and the total within the amount granted, the tolerance being harmless on cents |
| Ledger.ExecuteInv | apps/api/src/financings/financings.repository.ts:231-246 | execution keeps the committed total and is recorded once, by a user other than the planner |
| Ledger.RepayInv | apps/api/src/financings/financings.repository.ts:262-280 | a payment keeps paid within due and the status equal to what the payments add up to |
| Ledger.ScheduleOfPaysBack | apps/api/src/financings/financings.service.ts:68-71 | the schedule of an application has its duration and pays back exactly its amount |
| Ledger.RunInv | apps/api/src/partner/partner.repository.ts:171-239 | both repositories together keep all of the above in every financing, and one financing per dossier |
| Ledger.StepTouches | apps/api/src/partner/partner.repository.ts:11-12 | a transaction writes at most the financing it names, a partner bank's only in its scope |
| Ledger.RunKept | apps/api/src/financings/financings.repository.ts:222-286 | over any run terms and lines stay, executed disbursements and fully paid instalments never change again |
| Ledger.PlannerNeverExecutes | apps/api/src/financings/financings.repository.ts:222-252 | over every run, the row that a plan added stays that user's for that amount, and that user never executes it |
| Ledger.DisbursementsAreTheRequests | apps/api/src/financings/financings.repository.ts:196-252 | over every run, the disbursements of a financing are exactly the accepted requests, in order, with amount, author and state |
| Ledger.CommittedIsWhatWasAccepted | apps/api/src/financings/financings.repository.ts:203-208 | over every run, what counts against the grant is the sum of all accepted requests, planned ones included |
| Ledger.PaymentsAreTheRequests | apps/api/src/financings/financings.repository.ts:268-280 | over every run, the payments on an instalment are exactly the accepted ones, in order |
| Ledger.PaidIsWhatWasAccepted | apps/api/src/financings/financings.repository.ts:268-280 | over every run, what is paid on an instalment is the sum of the accepted payments |
| Ledger.StepOnSchedule | apps/api/src/financings/financings.repository.ts:112-135 | the lines of every financing stay exactly the schedule of its amount, rate, duration and start date |
| MoneyPipeline.DossierMovesInv | apps/api/src/committee/committee.repository.ts:155-187 | dossiers moving on never invalidates an application that was read or a financing that was created |
| MoneyPipeline.StepInv | apps/api/src/financings/financings.service.ts:66-125 | every step, with requests checked on stale reads, keeps every financing on its approved amount, rate and duration |
| MoneyPipeline.MoneyIsApproved | apps/api/src/financings/financings.repository.ts:84-142 | amount, rate and duration are those that the committee sent with the dossier's one approval, for the dossier's company; the lines are exactly their schedule and pay back the amount granted; disbursements never exceed it; columns agree with rows |
| MoneyPipeline.EligibleIffApproved | apps/api/src/financings/financings.repository.ts:84-101 | in every run exactly the approved dossiers without a financing are eligible, on the terms of their approval |
| MoneyPipeline.GrantWithinRequest | apps/api/src/committee/committee.service.ts:26-35 | what is granted is within the amount requested if the committee's update landed on the history it had read |
| MoneyPipeline.ChecksAgree | apps/api/src/finance-policy.js:49-59 | the services' check on fresh rows and the repository's agree, except that a disbursement also needs an active financing: any other conflict means the rows changed in between |
| MoneyPipeline.PartnersWriteInTheirScope | apps/api/src/partner/partner.repository.ts:171-239 | a partner's request writes only in the scope the partner has when its transaction runs, whatever the service had read |
| MoneyPipeline.OneFinancingPerDossier | apps/api/src/financings/financings.service.ts:72-80 | however many eligibility reads are kept, a dossier is financed once |
| ReconciliationRepositories.BankReconciliationsRepository.CreateEntry | apps/api/src/reconciliations/bank-reconciliations.repository.ts:126-145 | an entry of an active bank with a positive amount and a reference new to that bank is inserted, anything else is not |
| ReconciliationRepositories.BankReconciliationsRepository.MatchEntry | apps/api/src/reconciliations/bank-reconciliations.repository.ts:147-215 | the outcomes in the source's order, and a match only when there is none against it |
| ReconciliationRepositories.BankReconciliationsRepository.LedgerMovesOn | apps/api/src/reconciliations/bank-reconciliations.repository.ts:160-178 | what the repositories of the ledger do to their tables leaves every match intact |
| Reconciliation.MatchedIff | apps/api/src/reconciliations/bank-reconciliations.repository.ts:147-200 | a match is made if and only if entry and operation exist, are free, and agree in bank, direction and amount, a disbursement being executed |
| Reconciliation.OutcomeTells | apps/api/src/reconciliations/bank-reconciliations.repository.ts:147-200 | every other outcome names something that really stands against the match |
| Reconciliation.OperationMeans | apps/api/src/reconciliations/bank-reconciliations.repository.ts:160-178 | the operation found has the bank, the amount and the execution of its row |
| Reconciliation.AgreementStays | apps/api/src/reconciliations/bank-reconciliations.repository.ts:160-178 | no ledger step disturbs a matched operation |
| Reconciliation.RunInv | apps/api/src/reconciliations/bank-reconciliations.repository.ts:147-215 | no entry and no operation is matched twice; references are unique per bank; pairs agree in bank, direction and amount, and a matched disbursement is executed |
| Reconciliation.MatchedWithinOperations | apps/api/src/reconciliations/bank-reconciliations.repository.ts:79-104 | per bank, matched debits equal the matched disbursements and matched credits the matched repayments, and neither exceeds all executed disbursements or all repayments |
| Reconciliation.SummaryAfterMatch | apps/api/src/reconciliations/bank-reconciliations.repository.ts:68-77 | a new match moves exactly its entry's amount and count to the other side of the summary |
| Reconciliation.NothingLost | apps/api/src/reconciliations/bank-reconciliations.repository.ts:68-77 | for one bank or all, matched and unmatched counts and amounts make up all entries |
| ReminderDispatch.ReminderRepository.QuarantineStaleClaims | apps/api/src/communications/reminders/reminder.repository.ts:174-185 | exactly the claims older than fifteen minutes go to review, and are counted |
| ReminderDispatch.ReminderRepository.Claim | apps/api/src/communications/reminders/reminder.repository.ts:187-214 | a claim is given on a new occurrence or one failed at least an hour ago |
| ReminderDispatch.ReminderRepository.MarkSent | apps/api/src/communications/reminders/reminder.repository.ts:216-224 | the row is marked whatever its status, also after quarantine, and keeps its counters |
| ReminderDispatch.ReminderRepository.MarkFailed | apps/api/src/communications/reminders/reminder.repository.ts:226-234 | as MarkSent, with the failure |
| ReminderDispatch.ReminderService.RunForDate | apps/api/src/communications/reminders/reminder.service.ts:26-76 | whatever other workers do in between, a completed run has sent, failed or deduplicated every candidate, and its counters are those of the attempts it made itself |
| ReminderDispatch.ReminderService.Deliver | apps/api/src/communications/reminders/reminder.service.ts:47-71 | a claimed attempt is sent and marked with the answer it got, while others claim, mark and quarantine |
| ReminderDispatch.ReminderService.Dispatch | apps/api/src/communications/reminders/reminder.service.ts:39-72 | one turn of the loop: deduplicated, sent, failed, or never returning |
| Reminders.StepInv | apps/api/src/communications/reminders/reminder.repository.ts:174-234 | every statement of overlapping runs keeps all attempts but the latest of an occurrence failed |
| Reminders.QuarantineMeans | apps/api/src/communications/reminders/reminder.repository.ts:174-185 | exactly the claims older than 15 minutes become REVIEW_REQUIRED, and nothing else changes |
| Reminders.ClaimMeans | apps/api/src/communications/reminders/reminder.repository.ts:187-214 | exactly a new occurrence, or one that failed 60 minutes ago or more, gets one more attempt; otherwise nothing changes |
| Reminders.UnmarkedIsNeverRetried | apps/api/src/communications/reminders/reminder.repository.ts:187-214 | a row that is claimed, under review or sent is never claimed again, however late |
| Reminders.AtMostOnce | apps/api/src/communications/reminders/reminder.repository.ts:174-234 | an occurrence has at most one attempt in flight, abandoned or reported sent, and attempts are an hour apart |
| Reminders.RowsTellTheTruth | apps/api/src/communications/reminders/reminder.repository.ts:216-234 | a row says SENT exactly when an attempt was reported sent, and counts the attempts |
| Migrations.Client.ApplyMigrations | apps/api/scripts/run-migrations.js:149-198 | the loop over the files, with its early exits, is the recursive run specification |
| Migrations.Client.RecordAttempt | apps/api/scripts/run-migrations.js:132-141 | what the next run will read: a success makes this content the version's recorded one, a failure leaves none, other versions are untouched |
| Migrations.RunKeeps | apps/api/scripts/run-migrations.js:149-198 | a run, whatever fails in it, extends the applied files to a longer prefix of its list and stops at the failing file |
| Migrations.FailureIsNamed | apps/api/scripts/run-migrations.js:182-193 | the outcome names the first file that fails, or whose record fails, and a recorded failure carries its content |
| Migrations.RunsAreAFold | apps/api/scripts/run-migrations.js:149-198 | after any sequence of runs the recorded successes are a prefix of the list and the schema is their fold in order, each once |
| Migrations.RerunChangesNothing | apps/api/scripts/run-migrations.js:168-178 | running a fully applied list again changes nothing |
| Migrations.EditedFileStops | apps/api/scripts/run-migrations.js:168-175 | when an applied file was edited the run stops there and applies nothing |
| Migrations.CommitUnrecorded | apps/api/scripts/run-migrations.js:182-193 | from every recorded state, when the first attempt that does not commit is a commit whose record fails, its file is executed and not among the successes |
| Migrations.UnrecordedRunsTwice | apps/api/scripts/run-migrations.js:159-193 | the next run whose attempt on such a file commits executes it a second time, on the schema that already has it |
| Migrations.EachOnceIffStopsRecorded | apps/api/scripts/run-migrations.js:149-198 | from every recorded state, retrying executes each file exactly once if and only if the run did not stop at a commit whose record failed |
| Scoring.CalculateScore | apps/api/src/scoring-policy.js:14-46 | the Map filled in a loop finds repeated codes; result and errors are those of the specification |
| Scoring.DetailsFollow | apps/api/src/scoring-policy.js:27-43 | details exist exactly when every criterion is answered in range, and follow the criteria one by one |
| Scoring.DetailsAreOfTheAnswers | apps/api/src/scoring-policy.js:27-43 | each detail is of its criterion and the one answer to it: marks to two decimals, and the weighted part of 100 to four |
| Scoring.ClassOfTheTotal | apps/api/src/scoring-policy.js:8-12 | class and recommendation change exactly at 75 and 50 of the total |
| Scoring.RefusalTells | apps/api/src/scoring-policy.js:14-32 | a refusal names what is wrong with the model or the answers |
| Scoring.AnsweredExactlyTheCriteria | apps/api/src/scoring-policy.js:16-29 | success implies that the answered codes are exactly the criteria's |
| Scoring.TotalNearExact | apps/api/src/scoring-policy.js:35-45 | the total is within 0.005 + n 0.00005 of the exact weighted score, which lies in 0..100 |
| Scoring.TotalAtMostHundred | apps/api/src/scoring-policy.js:35-45 | below a hundred criteria the total lies in 0..100 and is exactly 100 for full marks |
| Scoring.HundredExactIff | apps/api/src/scoring-policy.js:35-45 | full marks give exactly 100 in every model of n criteria if and only if n is below 100 |
| Scoring.RaisingNeverLowers | apps/api/src/scoring-policy.js:8-12 | raising answers never lowers the total nor worsens the risk class |

## Left out

- RateLimiter: the answer given when the database fails, which lets the call through; runs are runs without storage failure.
- RateLimiter.PatientCallerNeverBlocked: asks for a positive ttl, since with ttl 0 every window is empty and the promise says nothing about the caller.
- Programmes: names, envelope and audit rows of a programme, what its dates, regions and sectors are once creation has checked them, and the general edits; programme status changes are limited to what the request object allows.
- Programmes: replaying the migrations on a programme that already has an active version, which would write version 1 archived.
- Checklist: which uploaded file satisfies a mandatory document; only the set of mandatory documents is modelled.
- Workflow: comments, notifications and the reading rules of the portals; the active scoring model is fixed during a run.
- Ledger: dates, references and means of payment; cancellation and closing, which none of these repositories writes; a disbursement declared by a partner bank is executed when inserted, so the maker-checker rule concerns planned ones only.
- Ledger: arrays of database rows are sequences in class fields; aliasing between rows does not arise.
- Idempotency: purging old keys, which the schema announces and no script does.
- IdempotentWrites: which requests a payload stands for; any request can be committed under any key.
- Reminders: how candidates are found, and what the channel does; sending returns sent, returns failed, or never returns.
- Migrations: seeds, finding the directory, connection settings; a file name is its three-digit version, and the SQL of a file is an arbitrary function on schemas.
- Scoring: maxima of 0, which the table's check excludes; comments.
- The web application, access control, dashboards, lists and searches, documents storage, messaging, metrics and health checks.
